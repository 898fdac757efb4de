/** What every reachable context satisfies, and what each return code of a run means. */
module Reachable {
  import opened Bytes
  import opened Values
  import opened Machine

  /** `cs` is a state the decoder really enters, and `trail` the number of bytes it waits for. */
  predicate ValidRegisters(cs: nat, trail: nat)
  {
    if cs == CS_HEADER then true
    else if cs in {CS_UINT_8, CS_INT_8, CS_STR_8, CS_BIN_8, CS_EXT_8} then trail == 1
    else if cs in {CS_UINT_16, CS_INT_16, CS_STR_16, CS_BIN_16, CS_EXT_16, CS_ARRAY_16, CS_MAP_16} then trail == 2
    else if cs in {CS_FLOAT, CS_UINT_32, CS_INT_32, CS_STR_32, CS_BIN_32, CS_EXT_32, CS_ARRAY_32, CS_MAP_32} then
      trail == 4
    else if cs in {CS_DOUBLE, CS_UINT_64, CS_INT_64} then trail == 8
    else if cs in {ACS_STR_VALUE, ACS_BIN_VALUE, ACS_EXT_VALUE} then 1 <= trail < TWO_32
    else false
  }

  /**
   * An open container waits for at least one item, and the items it holds plus those it waits
   * for make up the size announced when it was opened.
   */
  predicate ValidFrame(f: Frame)
  {
    && 1 <= f.count <= f.cap < TWO_32
    && (if f.ct == CT_ARRAY_ITEM then f.obj.Array? && |f.obj.items| + f.count == f.cap
        else (f.ct == CT_MAP_KEY || f.ct == CT_MAP_VALUE) && f.obj.Map? && |f.obj.pairs| + f.count == f.cap)
  }

  predicate ValidFrames(frames: seq<Frame>)
  {
    forall i :: 0 <= i < |frames| ==> ValidFrame(frames[i])
  }

  predicate Valid(c: Ctx)
  {
    ValidRegisters(c.cs, c.trail) && |c.frames| <= 32 && ValidFrames(c.frames)
  }

  lemma HeaderRegisters(b: byte)
    ensures var a := HeaderAction(b);
            && (a.Again? ==> ValidRegisters(a.cs, a.trail) && a.cs != CS_HEADER)
            && (a.Error? <==> b == 0xc1)
            && (a.Open? ==> a.n < 16)
  {
    if 0xc0 <= b < 0xe0 {
      assert NextCs(b) == b - 0xc0;
    }
  }

  /** With its bytes there, no reachable state is an error, and no length exceeds 32 bits. */
  lemma TrailRegisters(cs: nat, body: seq<byte>)
    requires cs != CS_HEADER && ValidRegisters(cs, |body|)
    ensures var a := TrailAction(cs, body);
            && !a.Error?
            && (a.Again? ==> a.cs in {ACS_STR_VALUE, ACS_BIN_VALUE, ACS_EXT_VALUE} && 1 <= a.trail < TWO_32)
            && (a.Open? ==> a.n < TWO_32)
            && (a.PushEmpty? ==> EndRegisters(cs, 0))
  {
    FromBigEndianBound(body);
    Pow256Values();
    assert |body| <= 4 ==> FromBigEndian(body) < TWO_32;
  }

  /**
   * The registers a value may leave behind: those it was read with, but that an empty str, bin or
   * ext sets `trail` to zero and leaves `cs` at its length word.
   */
  predicate EndRegisters(cs: nat, trail: nat)
  {
    || ValidRegisters(cs, trail)
    || (trail == 0 && cs in {CS_STR_8, CS_STR_16, CS_STR_32, CS_BIN_8, CS_BIN_16, CS_BIN_32, CS_EXT_32})
  }

  ghost predicate GoodLexeme(l: Lexeme, data: seq<byte>)
  {
    match l
    case Starved(cs, trail, _) => cs != CS_HEADER && ValidRegisters(cs, trail)
    case Item(_, cs, trail, _) => EndRegisters(cs, trail)
    case Box(_, n, cs, trail, _) => n < TWO_32 && ValidRegisters(cs, trail)
    case Corrupt(cs, _, q) => cs == CS_HEADER && q < |data| && data[q] == 0xc1
  }

  lemma {:induction false} BodyGood(data: seq<byte>, p: nat, cs: nat, trail: nat)
    requires p <= |data| && cs != CS_HEADER && ValidRegisters(cs, trail)
    ensures GoodLexeme(Body(data, p, cs, trail), data) && !Body(data, p, cs, trail).Corrupt?
    decreases |data| - p
  {
    hide TrailAction;
    if |data| - p >= trail {
      var body := data[p..p + trail];
      TrailRegisters(cs, body);
      var a := TrailAction(cs, body);
      if a.Again? {
        BodyGood(data, p + trail, a.cs, a.trail);
        assert Act(data, p + trail - 1, cs, trail, a) == Body(data, p + trail, a.cs, a.trail);
      }
    }
  }

  lemma ScanGood(data: seq<byte>, p: nat, cs: nat, trail: nat)
    requires p < |data| && ValidRegisters(cs, trail)
    ensures cs != CS_HEADER ==> 1 <= trail
    ensures GoodLexeme(Scan(data, p, cs, trail), data)
    ensures Scan(data, p, cs, trail).Corrupt? ==> Scan(data, p, cs, trail) == Corrupt(cs, trail, p)
  {
    hide HeaderAction, TrailAction;
    if cs == CS_HEADER {
      HeaderRegisters(data[p]);
      var a := HeaderAction(data[p]);
      if a.Again? {
        BodyGood(data, p + 1, a.cs, a.trail);
        assert Act(data, p, cs, trail, a) == Body(data, p + 1, a.cs, a.trail);
      }
    } else {
      BodyGood(data, p, cs, trail);
    }
  }

  /** The push cascade keeps every frame valid and never meets an unknown container type. */
  lemma {:induction false} PushKeepsFrames(frames: seq<Frame>, v: Value)
    requires ValidFrames(frames)
    ensures var r := PushValue(frames, v);
            !r.Jammed? && (r.Waiting? ==> ValidFrames(r.frames) && |r.frames| <= |frames|)
    decreases |frames|
  {
    if frames != [] {
      var below, c := frames[..|frames| - 1], frames[|frames| - 1];
      assert ValidFrame(c);
      if c.count == 1 && c.ct != CT_MAP_KEY {
        PushKeepsFrames(below, if c.ct == CT_ARRAY_ITEM then Array(c.obj.items + [v])
                               else Map(c.obj.pairs + [Pair(c.mapKey, v)]));
      }
    }
  }

  /** What a run from a valid context leaves behind, whatever the bytes. */
  ghost predicate GoodResult(r: Result, data: seq<byte>)
  {
    match r
    case Finished(_, ctx, _) => ctx.frames == [] && EndRegisters(ctx.cs, ctx.trail)
    case Paused(ctx, _) => Valid(ctx)
    case Failed(code, ctx, q) =>
      && ValidFrames(ctx.frames)
      && if code == PARSE_ERROR then ctx.cs == CS_HEADER && |ctx.frames| <= 32 && q < |data| && data[q] == 0xc1
         else code == NOMEM_ERROR && |ctx.frames| == 32
  }

  /**
   * Reachable-state invariant: from a valid context every run ends in a valid context, with at
   * most 32 frames; it fails only at a 0xc1 byte or with all 32 frames in use.
   */
  lemma {:induction false} RunKeepsValid(data: seq<byte>, c: Ctx, p: nat)
    requires Valid(c) && p <= |data|
    ensures c.Resumable()
    ensures GoodResult(Run(data, c, p), data)
    decreases |data| - p, 1
  {
    hide HeaderAction, TrailAction, Scan, PushValue, ValidRegisters, ValidFrame;
    assert c.Resumable() by { RegistersResumable(c.cs, c.trail); }
    if p < |data| {
      ScanGood(data, p, c.cs, c.trail);
      match Scan(data, p, c.cs, c.trail)
      case Starved(_, _, _) =>
      case Corrupt(_, _, _) =>
      case Item(v, cs, trail, q) => SettleKeepsValid(data, c.frames, v, cs, trail, q);
      case Box(isMap, n, cs, trail, q) =>
        if |c.frames| < STACK_SIZE {
          if n == 0 {
            SettleKeepsValid(data, c.frames, EmptyBox(isMap), cs, trail, q);
          } else {
            NewFrameValid(c.frames, isMap, n, trail);
            RunKeepsValid(data, Ctx(CS_HEADER, trail, c.frames + [NewFrame(isMap, n)]), q + 1);
          }
        }
    }
  }

  lemma RegistersResumable(cs: nat, trail: nat)
    requires ValidRegisters(cs, trail)
    ensures cs != CS_HEADER ==> 1 <= trail
  {
  }

  lemma NewFrameValid(frames: seq<Frame>, isMap: bool, n: nat, trail: nat)
    requires ValidFrames(frames) && |frames| < STACK_SIZE && 1 <= n < TWO_32
    ensures Valid(Ctx(CS_HEADER, trail, frames + [NewFrame(isMap, n)]))
  {
  }

  lemma {:induction false} SettleKeepsValid(data: seq<byte>, frames: seq<Frame>, v: Value, cs: nat, trail: nat, q: nat)
    requires q < |data| && ValidFrames(frames) && |frames| <= STACK_SIZE && EndRegisters(cs, trail)
    ensures GoodResult(Settle(data, frames, v, cs, trail, q), data)
    decreases |data| - q, 0
  {
    hide Run, PushValue, ValidFrame;
    PushKeepsFrames(frames, v);
    var pushed := PushValue(frames, v);
    if pushed.Waiting? {
      RunKeepsValid(data, Ctx(CS_HEADER, trail, pushed.frames), q + 1);
    }
  }
}
