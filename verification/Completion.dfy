/** How much a paused decoder still needs, and when an unfinished input can become a value. */
module Completion {
  import opened Bytes
  import opened Values
  import opened Machine
  import opened Split
  import opened Reachable

  /** The values a frame still waits for; a pair whose key is in counts one. */
  function Left(f: Frame): nat
    requires ValidFrame(f)
    ensures Left(f) >= 1
  {
    if f.ct == CT_ARRAY_ITEM then f.count else if f.ct == CT_MAP_KEY then 2 * f.count else 2 * f.count - 1
  }

  /** The number of values missing before the object is whole: each open container is itself one. */
  function Outstanding(frames: seq<Frame>): (n: nat)
    requires ValidFrames(frames)
    ensures n >= 1
  {
    if frames == [] then 1
    else
      assert ValidFrame(frames[|frames| - 1]);
      Outstanding(frames[..|frames| - 1]) + Left(frames[|frames| - 1]) - 1
  }

  /** Conservation: each pushed value pays for exactly one outstanding value, across any cascade. */
  lemma {:induction false} PushPaysOne(frames: seq<Frame>, v: Value)
    requires ValidFrames(frames)
    ensures var r := PushValue(frames, v);
            && !r.Jammed?
            && (r.Root? <==> Outstanding(frames) == 1)
            && (r.Waiting? ==> ValidFrames(r.frames) && Outstanding(r.frames) == Outstanding(frames) - 1)
    decreases |frames|
  {
    PushKeepsFrames(frames, v);
    if frames != [] {
      var below, c := frames[..|frames| - 1], frames[|frames| - 1];
      assert ValidFrame(c);
      if c.count == 1 && c.ct != CT_MAP_KEY {
        PushPaysOne(below, if c.ct == CT_ARRAY_ITEM then Array(c.obj.items + [v])
                           else Map(c.obj.pairs + [Pair(c.mapKey, v)]));
      } else {
        var r := PushValue(frames, v);
        assert r.frames[..|r.frames| - 1] == below;
      }
    }
  }

  ghost predicate ZerosFrom(data: seq<byte>, p: nat)
  {
    forall i :: p <= i < |data| ==> data[i] == 0
  }

  /** Zero bytes are integers: exactly as many as are outstanding finish the object. */
  lemma {:induction false} ZerosFinish(data: seq<byte>, c: Ctx, p: nat)
    requires c.cs == CS_HEADER && ValidFrames(c.frames)
    requires p <= |data| && ZerosFrom(data, p) && |data| - p >= Outstanding(c.frames)
    ensures Run(data, c, p).Finished? && Run(data, c, p).off == p + Outstanding(c.frames)
    decreases |data| - p
  {
    hide PushValue, Outstanding, ValidFrames;
    assert Scan(data, p, CS_HEADER, c.trail) == Item(Int(0), CS_HEADER, c.trail, p) by { assert data[p] == 0; }
    PushPaysOne(c.frames, Int(0));
    var r := PushValue(c.frames, Int(0));
    if r.Waiting? {
      ZerosFinish(data, Ctx(CS_HEADER, c.trail, r.frames), p + 1);
    }
  }

  /** Waiting inside the header of a container that there is no frame left for. */
  predicate Stuck(c: Ctx)
  {
    |c.frames| == 32 && c.cs in {CS_ARRAY_16, CS_ARRAY_32, CS_MAP_16, CS_MAP_32}
  }

  /** Given its bytes and 2^32 more, a lexeme is complete. */
  lemma {:induction false} BodyComplete(data: seq<byte>, p: nat, cs: nat, trail: nat)
    requires cs != CS_HEADER && ValidRegisters(cs, trail) && p + trail + TWO_32 <= |data|
    ensures var l := Body(data, p, cs, trail);
            && (l.Item? || l.Box?) && p + trail - 1 <= l.p < p + trail + TWO_32
            && (l.Box? ==> l.n < TWO_32 && cs in {CS_ARRAY_16, CS_ARRAY_32, CS_MAP_16, CS_MAP_32})
  {
    hide TrailAction;
    var body := data[p..p + trail];
    TrailRegisters(cs, body);
    var a := TrailAction(cs, body);
    BoxStates(cs, body);
    if a.Again? {
      var body' := data[p + trail..p + trail + a.trail];
      BlobStates(a.cs, body');
      var push := TrailAction(a.cs, body');
      assert Body(data, p, cs, trail) == Act(data, p + trail - 1, cs, trail, a)
             == Body(data, p + trail, a.cs, a.trail)
             == Act(data, p + trail + a.trail - 1, a.cs, a.trail, push)
             == Item(push.v, a.cs, a.trail, p + trail + a.trail - 1);
    }
  }

  lemma BoxStates(cs: nat, body: seq<byte>)
    ensures TrailAction(cs, body).Open? <==> cs in {CS_ARRAY_16, CS_ARRAY_32, CS_MAP_16, CS_MAP_32}
  {
  }

  lemma BlobStates(cs: nat, body: seq<byte>)
    requires cs in {ACS_STR_VALUE, ACS_BIN_VALUE, ACS_EXT_VALUE}
    ensures TrailAction(cs, body).Push?
  {
  }

  /** Zero bytes that are enough to finish from any paused context that is not stuck. */
  function Enough(c: Ctx): nat
    requires ValidFrames(c.frames)
  {
    c.trail + 3 * TWO_32 + Outstanding(c.frames)
  }

  lemma ResumeFinishes(data: seq<byte>, c: Ctx, p: nat)
    requires Valid(c) && c.cs != CS_HEADER && !Stuck(c)
    requires p + Enough(c) <= |data| && ZerosFrom(data, p + c.trail)
    ensures c.Resumable() && Run(data, c, p).Finished?
  {
    hide PushValue, Outstanding, ValidFrames, TrailAction, ValidRegisters;
    RegistersResumable(c.cs, c.trail);
    BodyComplete(data, p, c.cs, c.trail);
    match Body(data, p, c.cs, c.trail) {
      case Item(v, cs, trail, q) => SettleFinishes(data, c.frames, v, cs, trail, q);
      case Box(isMap, n, cs, trail, q) =>
        assert |c.frames| < STACK_SIZE;
        assert Run(data, c, p) == Start(data, c.frames, isMap, n, cs, trail, q);
        if n == 0 {
          SettleFinishes(data, c.frames, EmptyBox(isMap), cs, trail, q);
        } else {
          OpenAdds(c.frames, isMap, n);
          ZerosFinish(data, Ctx(CS_HEADER, trail, c.frames + [NewFrame(isMap, n)]), q + 1);
        }
    }
  }

  lemma OpenAdds(frames: seq<Frame>, isMap: bool, n: nat)
    requires ValidFrames(frames) && 1 <= n < TWO_32
    ensures ValidFrames(frames + [NewFrame(isMap, n)])
    ensures Outstanding(frames + [NewFrame(isMap, n)]) == Outstanding(frames) + (if isMap then 2 * n else n) - 1
  {
    var stack := frames + [NewFrame(isMap, n)];
    assert stack[..|stack| - 1] == frames;
  }

  lemma SettleFinishes(data: seq<byte>, frames: seq<Frame>, v: Value, cs: nat, trail: nat, q: nat)
    requires ValidFrames(frames) && q < |data| && ZerosFrom(data, q + 1)
    requires q + 1 + Outstanding(frames) <= |data|
    ensures Settle(data, frames, v, cs, trail, q).Finished?
  {
    hide PushValue, Outstanding, ValidFrames;
    PushPaysOne(frames, v);
    var r := PushValue(frames, v);
    if r.Waiting? {
      ZerosFinish(data, Ctx(CS_HEADER, trail, r.frames), q + 1);
    }
  }

  lemma StuckFails(data: seq<byte>, c: Ctx, p: nat)
    requires Stuck(c) && c.Resumable() && p <= |data|
    ensures !Run(data, c, p).Finished?
  {
    if p < |data| && |data| - p >= c.trail {
      var a := TrailAction(c.cs, data[p..p + c.trail]);
      assert Act(data, p + c.trail - 1, c.cs, c.trail, a) == Box(a.isMap, a.n, c.cs, c.trail, p + c.trail - 1);
    }
  }

  /**
   * "Continue" means what it says, up to the depth limit: an input on which the decoder pauses
   * can be extended to a whole value exactly when it does not end inside the header of a
   * container while 32 containers are open.
   */
  lemma PausedCompletable(data: seq<byte>)
    requires Run(data, FRESH, 0).Paused?
    ensures (exists more :: Run(data + more, FRESH, 0).Finished?) <==> !Stuck(Run(data, FRESH, 0).ctx)
  {
    hide Run, Outstanding;
    var r := Run(data, FRESH, 0);
    RunKeepsValid(data, FRESH, 0);
    forall more: seq<byte>
      ensures Run(data + more, FRESH, 0) == Run(data + more, r.ctx, r.off)
    {
      assert (data + more)[..|data|] == data;
      RunSplit(data + more, |data|, FRESH, 0);
    }
    if Stuck(r.ctx) {
      forall more: seq<byte>
        ensures !Run(data + more, FRESH, 0).Finished?
      {
        StuckFails(data + more, r.ctx, r.off);
      }
    } else {
      var more: seq<byte> := seq(Enough(r.ctx), _ => 0);
      if r.ctx.cs == CS_HEADER {
        ZerosFinish(data + more, r.ctx, r.off);
      } else {
        ResumeFinishes(data + more, r.ctx, r.off);
      }
      assert Run(data + more, FRESH, 0).Finished?;
    }
  }
}
