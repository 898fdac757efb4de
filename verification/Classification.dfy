/** Where each error comes from, and which unfinished inputs can still become a value. */
module Classification {
  import opened Bytes
  import opened Values
  import opened Format
  import opened Machine
  import opened Refinement
  import opened Split
  import opened Reachable

  /** After `h` bytes the decoder is between values, in context `c`. */
  ghost predicate AtHeader(data: seq<byte>, start: Ctx, p: nat, h: nat, c: Ctx)
    requires start.Resumable() && p <= h <= |data|
  {
    c.cs == CS_HEADER && Run(data[..h], start, p) == Paused(c, h)
  }

  /** A lexeme that ends before a cut is found without the bytes behind the cut. */
  lemma ScanPrefix(data: seq<byte>, k: nat, p: nat, t: nat)
    requires p < k <= |data|
    requires !Scan(data, p, CS_HEADER, t).Starved? && Scan(data, p, CS_HEADER, t).p < k
    ensures Scan(data[..k], p, CS_HEADER, t) == Scan(data, p, CS_HEADER, t)
  {
    hide Scan;
    ScanSplit(data, k, p, CS_HEADER, t);
  }

  /**
   * Every failure of a run has a point: a header position `h`, reached by the bytes before it,
   * with a 0xc1 there, or with all frames in use and a container header starting there. The open
   * containers stay as they were.
   */
  lemma {:induction false} FailurePoint(data: seq<byte>, c: Ctx, p: nat) returns (h: nat, ch: Ctx)
    requires Valid(c) && c.cs == CS_HEADER && p <= |data| && Run(data, c, p).Failed?
    ensures var r := Run(data, c, p);
            && p <= h <= r.off < |data| && AtHeader(data, c, p, h, ch) && r.ctx.frames == ch.frames
            && (r.code == PARSE_ERROR ==> h == r.off && data[h] == 0xc1)
            && (r.code == NOMEM_ERROR ==>
                  |ch.frames| == 32 && LeafAt(data, h).Header? && LeafAt(data, h).next == r.off + 1)
    decreases |data| - p
  {
    hide HeaderAction, TrailAction, Scan, PushValue, LeafAt, ValidRegisters, ValidFrame;
    h, ch := p, c;
    LeafAgrees(data, p, c.trail);
    ScanGood(data, p, c.cs, c.trail);
    var l := Scan(data, p, c.cs, c.trail);
    if l.Corrupt? || (l.Box? && |c.frames| >= STACK_SIZE) {
    } else {
      var c' := NextHeader(data, c, p);
      StepRun(data, c, p, c');
      h, ch := FailurePoint(data, c', l.p + 1);
      ScanPrefix(data, h, p, c.trail);
      StepRun(data[..h], c, p, c');
    }
  }

  /** `c'` is the context after the lexeme at `p`. */
  ghost predicate Stepped(data: seq<byte>, c: Ctx, p: nat, c': Ctx)
    requires c.cs == CS_HEADER && p < |data|
  {
    match Scan(data, p, c.cs, c.trail)
    case Item(v, _, trail, _) => PushValue(c.frames, v) == Waiting(c'.frames) && c' == Ctx(CS_HEADER, trail, c'.frames)
    case Box(isMap, n, _, trail, _) =>
      && |c.frames| < STACK_SIZE && c' == Ctx(CS_HEADER, trail, c'.frames)
      && (if n == 0 then PushValue(c.frames, EmptyBox(isMap)) == Waiting(c'.frames)
          else c'.frames == c.frames + [NewFrame(isMap, n)])
    case _ => false
  }

  lemma StepRun(data: seq<byte>, c: Ctx, p: nat, c': Ctx)
    requires c.cs == CS_HEADER && p < |data| && Stepped(data, c, p, c')
    ensures c'.cs == CS_HEADER && Run(data, c, p) == Run(data, c', Scan(data, p, c.cs, c.trail).p + 1)
  {
    hide Scan, PushValue;
    match Scan(data, p, c.cs, c.trail)
    case Item(_, _, _, _) =>
    case Box(isMap, n, cs, trail, q) =>
      assert Run(data, c, p) == Start(data, c.frames, isMap, n, cs, trail, q);
      assert n == 0 ==> Start(data, c.frames, isMap, n, cs, trail, q)
                        == Settle(data, c.frames, EmptyBox(isMap), cs, trail, q);
  }

  /** A run that does not end at the lexeme at `p` goes on from a valid context behind it. */
  lemma NextHeader(data: seq<byte>, c: Ctx, p: nat) returns (c': Ctx)
    requires Valid(c) && c.cs == CS_HEADER && p < |data| && Run(data, c, p).Failed?
    requires var l := Scan(data, p, c.cs, c.trail); !l.Corrupt? && !(l.Box? && |c.frames| >= STACK_SIZE)
    ensures Valid(c') && Stepped(data, c, p, c')
  {
    hide HeaderAction, TrailAction, Scan, PushValue, ValidRegisters, ValidFrame;
    ScanGood(data, p, c.cs, c.trail);
    match Scan(data, p, c.cs, c.trail) {
      case Item(v, cs, trail, q) =>
        PushKeepsFrames(c.frames, v);
        c' := Ctx(CS_HEADER, trail, PushValue(c.frames, v).frames);
        RegistersAtHeader(trail);
      case Box(isMap, n, cs, trail, q) =>
        if n == 0 {
          PushKeepsFrames(c.frames, EmptyBox(isMap));
          assert Run(data, c, p) == Start(data, c.frames, isMap, n, cs, trail, q)
                 == Settle(data, c.frames, EmptyBox(isMap), cs, trail, q);
          c' := Ctx(CS_HEADER, trail, PushValue(c.frames, EmptyBox(isMap)).frames);
          RegistersAtHeader(trail);
        } else {
          c' := Ctx(CS_HEADER, trail, c.frames + [NewFrame(isMap, n)]);
          NewFrameValid(c.frames, isMap, n, trail);
        }
    }
  }

  lemma RegistersAtHeader(trail: nat)
    ensures ValidRegisters(CS_HEADER, trail)
  {
  }

  /**
   * PARSE_ERROR at `q` exactly when `q` holds 0xc1 and the bytes before it leave the decoder
   * between values: none of the other error branches is ever taken.
   */
  lemma ParseErrorExactly(data: seq<byte>, q: nat)
    requires q < |data|
    ensures (Run(data, FRESH, 0).Failed? && Run(data, FRESH, 0).code == PARSE_ERROR && Run(data, FRESH, 0).off == q)
            <==> (data[q] == 0xc1 && exists c :: AtHeader(data, FRESH, 0, q, c))
  {
    hide Scan, PushValue;
    var r := Run(data, FRESH, 0);
    if r.Failed? && r.code == PARSE_ERROR && r.off == q {
      var h, ch := FailurePoint(data, FRESH, 0);
    }
    if c :| data[q] == 0xc1 && AtHeader(data, FRESH, 0, q, c) {
      RunSplit(data, q, FRESH, 0);
      AtReserved(data, c, q);
    }
  }

  lemma AtReserved(data: seq<byte>, c: Ctx, q: nat)
    requires q < |data| && data[q] == 0xc1 && c.cs == CS_HEADER
    ensures Run(data, c, q) == Failed(PARSE_ERROR, c, q)
  {
  }

  /**
   * NOMEM_ERROR at `q` exactly when the header of a container ends at `q` and the bytes before
   * that header leave 32 containers open. The container's size plays no part.
   */
  lemma DepthErrorExactly(data: seq<byte>, q: nat)
    requires q < |data|
    ensures (Run(data, FRESH, 0).Failed? && Run(data, FRESH, 0).code == NOMEM_ERROR && Run(data, FRESH, 0).off == q)
            <==> (exists h, c :: 0 <= h <= q && AtHeader(data, FRESH, 0, h, c) && |c.frames| == 32 &&
                                 LeafAt(data, h).Header? && LeafAt(data, h).next == q + 1)
  {
    hide Scan, PushValue, LeafAt;
    var r := Run(data, FRESH, 0);
    if r.Failed? && r.code == NOMEM_ERROR && r.off == q {
      var h, ch := FailurePoint(data, FRESH, 0);
      assert AtHeader(data, FRESH, 0, h, ch);
    }
    if h, c :| 0 <= h <= q && AtHeader(data, FRESH, 0, h, c) && |c.frames| == 32 &&
               LeafAt(data, h).Header? && LeafAt(data, h).next == q + 1 {
      RunSplit(data, h, FRESH, 0);
      LeafAgrees(data, h, c.trail);
    }
  }

  // Going on with the next value without `_init`

  /** Resuming `c` is decoding afresh, on every buffer and from every offset. */
  ghost predicate GoesOnAfresh(c: Ctx)
    requires c.Resumable()
  {
    forall data: seq<byte>, p: nat :: p <= |data| ==> SameOutcome(Run(data, c, p), Run(data, FRESH, p))
  }

  /** The byte 0xc1 tells any other state from a fresh one: nothing but a header is ever refused. */
  lemma AfreshExactly(cs: nat, trail: nat)
    requires ValidRegisters(cs, trail)
    ensures GoesOnAfresh(Ctx(cs, trail, [])) <==> cs == CS_HEADER
  {
    hide Run, ValidRegisters, SameOutcome;
    RegistersResumable(cs, trail);
    if cs == CS_HEADER {
      forall data: seq<byte>, p: nat | p <= |data|
        ensures SameOutcome(Run(data, Ctx(cs, trail, []), p), Run(data, FRESH, p))
      {
        HeaderStateIsFresh(data, p, trail);
      }
    } else {
      NotAfresh(cs, trail);
    }
  }

  lemma NotAfresh(cs: nat, trail: nat)
    requires ValidRegisters(cs, trail) && cs != CS_HEADER
    ensures 1 <= trail && !SameOutcome(Run([0xc1], Ctx(cs, trail, []), 0), Run([0xc1], FRESH, 0))
  {
    hide ValidRegisters, Body;
    RegistersResumable(cs, trail);
    AtReserved([0xc1], FRESH, 0);
    BodyGood([0xc1], 0, cs, trail);
  }

  /**
   * After a value has been finished, from any valid context and on any bytes, the decoder can go
   * on without `_init` if and only if the value left it in the header state. Otherwise it takes
   * the next header for part of the last value, or is left waiting for no bytes at all.
   */
  lemma GoOnExactly(data: seq<byte>, c: Ctx, p: nat)
    requires Valid(c) && p <= |data|
    ensures c.Resumable()
    ensures var r := Run(data, c, p);
            r.Finished? ==> (r.ctx.Resumable() && GoesOnAfresh(r.ctx) <==> r.ctx.cs == CS_HEADER)
  {
    hide Run, ValidRegisters, GoesOnAfresh;
    RunKeepsValid(data, c, p);
    var r := Run(data, c, p);
    if r.Finished? {
      var left := r.ctx;
      if ValidRegisters(left.cs, left.trail) {
        AfreshExactly(left.cs, left.trail);
      }
    }
  }

  /** An empty str with a length byte ends in a context that no call may resume. */
  lemma EmptyStrNotResumable()
    ensures var r := Run([0xd9, 0x00], FRESH, 0);
            r == Finished(Str([]), Ctx(CS_STR_8, 0, []), 2) && !r.ctx.Resumable()
  {
    var data: seq<byte> := [0xd9, 0x00];
    assert data[1..2] == [0x00] && FromBigEndian([0x00]) == 0;
    WaitFor(data, 0, CS_HEADER, 0, CS_STR_8, 1);
    assert Scan(data, 0, CS_HEADER, 0) == Item(Str([]), CS_STR_8, 0, 1);
  }
}
