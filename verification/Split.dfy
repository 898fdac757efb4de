/** The result does not depend on how the input is cut into calls. */
module Split {
  import opened Bytes
  import opened Values
  import opened Machine

  /** A lexeme found in a prefix is the lexeme of the whole; a starved one goes on where it stopped. */
  ghost predicate Extends(whole: Lexeme, part: Lexeme, data: seq<byte>)
  {
    if part.Starved? then
      part.cs != CS_HEADER && 1 <= part.trail && part.p <= |data| &&
      whole == Body(data, part.p, part.cs, part.trail)
    else whole == part
  }

  lemma {:induction false} BodySplit(data: seq<byte>, k: nat, p: nat, cs: nat, trail: nat)
    requires p <= k <= |data| && cs != CS_HEADER && 1 <= trail
    ensures Extends(Body(data, p, cs, trail), Body(data[..k], p, cs, trail), data)
    decreases k - p, 1
  {
    hide TrailAction;
    if k - p >= trail {
      assert data[..k][p..p + trail] == data[p..p + trail];
      ActSplit(data, k, p + trail - 1, cs, trail, TrailAction(cs, data[p..p + trail]));
    }
  }

  lemma {:induction false} ActSplit(data: seq<byte>, k: nat, p: nat, cs: nat, trail: nat, a: Action)
    requires p < k <= |data|
    requires a.Again? ==> a.cs != CS_HEADER && 1 <= a.trail
    ensures Extends(Act(data, p, cs, trail, a), Act(data[..k], p, cs, trail, a), data)
    decreases k - p, 0
  {
    hide TrailAction;
    if a.Again? {
      BodySplit(data, k, p + 1, a.cs, a.trail);
    }
  }

  lemma ScanSplit(data: seq<byte>, k: nat, p: nat, cs: nat, trail: nat)
    requires p < k <= |data| && (cs != CS_HEADER ==> 1 <= trail)
    ensures Extends(Scan(data, p, cs, trail), Scan(data[..k], p, cs, trail), data)
  {
    hide HeaderAction, TrailAction;
    if cs == CS_HEADER {
      ActSplit(data, k, p, cs, trail, HeaderAction(data[p]));
    } else {
      BodySplit(data, k, p, cs, trail);
    }
  }

  /**
   * One cut. If the run on the first `k` bytes pauses, resuming from the saved context and offset
   * on the whole buffer gives the result of a single run on the whole buffer, and nothing behind
   * the cut matters to a run that has already finished or failed.
   */
  lemma {:induction false} RunSplit(data: seq<byte>, k: nat, c: Ctx, p: nat)
    requires c.Resumable() && p <= k <= |data|
    ensures var part := Run(data[..k], c, p);
            Run(data, c, p) == if part.Paused? then Run(data, part.ctx, part.off) else part
    decreases k - p, 2
  {
    hide HeaderAction, TrailAction, Scan, PushValue;
    if p < k {
      ScanSplit(data, k, p, c.cs, c.trail);
      match Scan(data[..k], p, c.cs, c.trail)
      case Starved(cs, trail, q) =>
        if q == |data| {
          assert data[..k] == data;
        } else {
          assert Scan(data, q, cs, trail) == Body(data, q, cs, trail) by { ScanResumed(data, q, cs, trail); }
        }
      case Corrupt(_, _, _) =>
      case Item(v, cs, trail, q) => SettleSplit(data, k, c.frames, v, cs, trail, q);
      case Box(isMap, n, cs, trail, q) =>
        if |c.frames| < STACK_SIZE {
          if n == 0 {
            SettleSplit(data, k, c.frames, EmptyBox(isMap), cs, trail, q);
          } else {
            RunSplit(data, k, Ctx(CS_HEADER, trail, c.frames + [NewFrame(isMap, n)]), q + 1);
          }
        }
    }
  }

  lemma ScanResumed(data: seq<byte>, p: nat, cs: nat, trail: nat)
    requires p < |data| && cs != CS_HEADER && 1 <= trail
    ensures Scan(data, p, cs, trail) == Body(data, p, cs, trail)
  {
  }

  lemma {:induction false} SettleSplit(data: seq<byte>, k: nat, frames: seq<Frame>, v: Value, cs: nat, trail: nat,
                                       q: nat)
    requires q < k <= |data|
    ensures var part := Settle(data[..k], frames, v, cs, trail, q);
            Settle(data, frames, v, cs, trail, q) == if part.Paused? then Run(data, part.ctx, part.off) else part
    decreases k - q, 0
  {
    hide Run, PushValue;
    var pushed := PushValue(frames, v);
    if pushed.Waiting? {
      RunSplit(data, k, Ctx(CS_HEADER, trail, pushed.frames), q + 1);
    }
  }

  /** Where the cuts fall: a non-decreasing list of buffer lengths, from `p` up to `len`. */
  predicate Cuts(cuts: seq<nat>, p: nat, len: nat)
  {
    cuts == [] || (p <= cuts[0] <= len && Cuts(cuts[1..], cuts[0], len))
  }

  lemma CutsFrom(cuts: seq<nat>, p: nat, len: nat, q: nat)
    requires Cuts(cuts, p, len) && q <= p
    ensures Cuts(cuts, q, len)
  {
  }

  /** Calls on ever longer prefixes of the data, each resuming from what the last one saved. */
  function RunCuts(data: seq<byte>, cuts: seq<nat>, c: Ctx, p: nat): Result
    requires c.Resumable() && p <= |data| && Cuts(cuts, p, |data|)
    decreases |cuts|
  {
    if cuts == [] then Run(data, c, p)
    else
      var part := Run(data[..cuts[0]], c, p);
      if part.Paused? then
        CutsFrom(cuts[1..], cuts[0], |data|, part.off);
        RunCuts(data, cuts[1..], part.ctx, part.off)
      else part
  }

  /** Any number of cuts: same return code, object, context and offset as one call. */
  lemma {:induction false} SplitIndependence(data: seq<byte>, cuts: seq<nat>, c: Ctx, p: nat)
    requires c.Resumable() && p <= |data| && Cuts(cuts, p, |data|)
    ensures RunCuts(data, cuts, c, p) == Run(data, c, p)
    decreases |cuts|
  {
    hide Run;
    if cuts == [] {
    } else {
      RunSplit(data, cuts[0], c, p);
      var part := Run(data[..cuts[0]], c, p);
      if part.Paused? {
        CutsFrom(cuts[1..], cuts[0], |data|, part.off);
        SplitIndependence(data, cuts[1..], part.ctx, part.off);
      }
    }
  }
}
