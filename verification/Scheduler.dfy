/** The client loop's timed blocks, over whole runs and for one drain. */
module Scheduler {
  import opened Options
  import opened PriorityQueue

  const LONG_LIMIT: int := 0x8000_0000_0000_0000

  predicate IsLong(x: int)
  {
    -LONG_LIMIT <= x < LONG_LIMIT
  }

  /** `getTimeMillis() + timeoutMillis` on 64-bit signed integers. */
  function ScheduleTime(now: int, timeout: int): int
  {
    (now + timeout + LONG_LIMIT) % (2 * LONG_LIMIT) - LONG_LIMIT
  }

  /**
   * When a block is not put in the past, for every clock and every timeout: a timeout of zero or
   * more must not overflow, and a negative one must.
   */
  lemma NotBeforeNowExactly(now: int, timeout: int)
    requires IsLong(now) && IsLong(timeout)
    ensures ScheduleTime(now, timeout) >= now <==>
              if timeout >= 0 then now + timeout < 0x8000_0000_0000_0000 else now + timeout < -0x8000_0000_0000_0000
  {
  }

  /** The sum itself: exact where it is a 64-bit integer, and otherwise off by 2^64 towards zero. */
  lemma ScheduleTimeExactly(now: int, timeout: int)
    requires IsLong(now) && IsLong(timeout)
    ensures IsLong(ScheduleTime(now, timeout))
    ensures ScheduleTime(now, timeout) ==
            if now + timeout >= 0x8000_0000_0000_0000 then now + timeout - 0x1_0000_0000_0000_0000
            else if now + timeout < -0x8000_0000_0000_0000 then now + timeout + 0x1_0000_0000_0000_0000
            else now + timeout
  {
  }

  /** A block that has run, with the time the loop had sampled for that drain. */
  datatype Ran = Ran(block: Block, sampled: int)

  datatype State = State(clock: int, queue: seq<Block>, sampled: Option<int>, log: seq<Ran>)

  datatype Step =
    | Tick(clock: int)                      // the clock moves, possibly back
    | BeginDrain                            // currentTime = getTimeMillis()
    | RunDue                                // the head is due: poll it and start its block
    | Schedule(timeout: int, id: nat)       // some block or listener calls invokeAfterTimeout
    | EndDrain                              // nothing left, or the head is not due yet

  /** The drain's exit: the queue is empty, or its head lies behind `time`. */
  predicate NothingDue(queue: seq<Block>, time: int)
  {
    queue == [] || queue[0].time > time
  }

  ghost predicate Next(s: State, step: Step, s': State)
  {
    match step
    case Tick(clock) => IsLong(clock) && s' == s.(clock := clock)
    case BeginDrain => s.sampled == None && s' == s.(sampled := Some(s.clock))
    case RunDue =>
      && s.sampled.Some? && !NothingDue(s.queue, s.sampled.value)
      && s' == s.(queue := s.queue[1..], log := s.log + [Ran(s.queue[0], s.sampled.value)])
    case Schedule(timeout, id) =>
      && IsLong(timeout)
      && QueueStep(s.queue, Add(Block(ScheduleTime(s.clock, timeout), id)), s'.queue)
      && s' == s.(queue := s'.queue)
    case EndDrain => s.sampled.Some? && NothingDue(s.queue, s.sampled.value) && s' == s.(sampled := None)
  }

  ghost predicate IsPath(states: seq<State>, steps: seq<Step>)
  {
    |states| == |steps| + 1 && forall i :: 0 <= i < |steps| ==> Next(states[i], steps[i], states[i + 1])
  }

  ghost predicate IsRun(states: seq<State>, steps: seq<Step>)
  {
    IsPath(states, steps) && IsLong(states[0].clock) && states[0] == State(states[0].clock, [], None, [])
  }

  lemma PathInit(states: seq<State>, steps: seq<Step>)
    requires IsPath(states, steps) && steps != []
    ensures var n := |steps| - 1; IsPath(states[..|steps|], steps[..n]) && Next(states[n], steps[n], states[n + 1])
  {
    hide Next;
    var n := |steps| - 1;
    forall i | 0 <= i < n ensures Next(states[..n + 1][i], steps[..n][i], states[..n + 1][i + 1]) {
      assert Next(states[i], steps[i], states[i + 1]);
    }
  }

  /** The queue is sorted, and no block has run before its time by the loop's own clock. */
  ghost predicate Inv(s: State)
  {
    IsLong(s.clock) && Sorted(s.queue) && forall i :: 0 <= i < |s.log| ==> s.log[i].block.time <= s.log[i].sampled
  }

  /** Blocks have run in the order of their times, none of them ahead of one still queued. */
  ghost predicate Ordered(s: State)
  {
    && (forall i, j :: 0 <= i < j < |s.log| ==> s.log[i].block.time <= s.log[j].block.time)
    && (forall i, j :: 0 <= i < |s.log| && 0 <= j < |s.queue| ==> s.log[i].block.time <= s.queue[j].time)
  }

  /** Every block that has run has a time of at most `time`. */
  ghost predicate RanUpTo(s: State, time: int)
  {
    forall i :: 0 <= i < |s.log| ==> s.log[i].block.time <= time
  }

  /** The step does not put a block in front of one that has already run. */
  ghost predicate NotBehind(s: State, step: Step)
  {
    step.Schedule? ==> RanUpTo(s, ScheduleTime(s.clock, step.timeout))
  }

  lemma StepKeepsInv(s: State, step: Step, s': State)
    requires Inv(s) && Next(s, step, s')
    ensures Inv(s')
    ensures step.EndDrain? ==> forall b :: b in s'.queue ==> b.time > s.sampled.value
  {
    hide ScheduleTime;
  }

  lemma MembersOfInsert(s: seq<Block>, e: Block, s': seq<Block>)
    requires Inserts(s, e, s')
    ensures forall b :: b in s' <==> b == e || b in s
  {
  }

  lemma ScheduleOrdered(s: State, step: Step, s': State)
    requires step.Schedule? && Next(s, step, s')
    ensures Ordered(s') <==> Ordered(s) && NotBehind(s, step)
  {
    hide ScheduleTime, Inserts;
    var e := Block(ScheduleTime(s.clock, step.timeout), step.id);
    MembersOfInsert(s.queue, e, s'.queue);
    assert e in s'.queue;
    if Ordered(s') {
      forall i, j | 0 <= i < |s.log| && 0 <= j < |s.queue| ensures s.log[i].block.time <= s.queue[j].time {
        assert s.queue[j] in s'.queue;
      }
    }
    if Ordered(s) && NotBehind(s, step) {
      forall i, j | 0 <= i < |s.log| && 0 <= j < |s'.queue| ensures s.log[i].block.time <= s'.queue[j].time {
        assert s'.queue[j] in s'.queue;
      }
    }
  }

  lemma RunDueOrdered(s: State, s': State)
    requires Inv(s) && Next(s, RunDue, s')
    ensures Ordered(s') <==> Ordered(s)
  {
    if Ordered(s') {
      var n := |s.log|;
      forall i, j | 0 <= i < j < n ensures s.log[i].block.time <= s.log[j].block.time {
        assert s'.log[i] == s.log[i] && s'.log[j] == s.log[j];
      }
      forall i, j | 0 <= i < n && 0 <= j < |s.queue| ensures s.log[i].block.time <= s.queue[j].time {
        assert s'.log[i] == s.log[i] && s'.log[n].block == s.queue[0];
      }
    }
  }

  lemma StepOrdered(s: State, step: Step, s': State)
    requires Inv(s) && Next(s, step, s')
    ensures Ordered(s') <==> Ordered(s) && NotBehind(s, step)
  {
    match step
    case Schedule(_, _) => ScheduleOrdered(s, step, s');
    case RunDue => RunDueOrdered(s, s');
    case _ =>
  }

  /**
   * Over every run, whatever the clock does and whatever blocks and listeners schedule: no block
   * has run before its time, and a drain that ends leaves nothing due at the time it sampled. The
   * blocks have run in the order of their times, across all drains and ahead of all queued ones,
   * if and only if no call ever put a block in front of one that had already run.
   */
  lemma {:induction false} RunsInOrder(states: seq<State>, steps: seq<Step>)
    requires IsRun(states, steps)
    ensures Inv(states[|steps|])
    ensures forall i, b :: 0 <= i < |steps| && steps[i].EndDrain? && b in states[i + 1].queue ==>
              states[i].sampled.Some? && b.time > states[i].sampled.value
    ensures Ordered(states[|steps|]) <==> forall i :: 0 <= i < |steps| ==> NotBehind(states[i], steps[i])
    decreases |steps|
  {
    hide Next, Inv, Ordered, NotBehind;
    if steps == [] {
      StartInOrder(states[0]);
    } else {
      var n := |steps| - 1;
      var init := states[..|steps|];
      PathInit(states, steps);
      RunsInOrder(init, steps[..n]);
      assert forall i :: 0 <= i < |init| ==> init[i] == states[i];
      assert forall i :: 0 <= i < n ==> steps[..n][i] == steps[i];
      StepKeepsInv(states[n], steps[n], states[n + 1]);
      StepOrdered(states[n], steps[n], states[n + 1]);
      forall i, b | 0 <= i < |steps| && steps[i].EndDrain? && b in states[i + 1].queue
        ensures states[i].sampled.Some? && b.time > states[i].sampled.value
      {
        if i < n {
          assert steps[..n][i] == steps[i] && init[i] == states[i] && init[i + 1] == states[i + 1];
        } else {
          EndsWithSample(states[n], states[n + 1]);
        }
      }
    }
  }

  lemma StartInOrder(s: State)
    requires IsLong(s.clock) && s.queue == [] && s.log == []
    ensures Inv(s) && Ordered(s)
  {
  }

  lemma EndsWithSample(s: State, s': State)
    requires Next(s, EndDrain, s')
    ensures s.sampled.Some?
  {
  }

  /** A clock that does not go back, and timeouts of zero or more that do not overflow. */
  ghost predicate Steady(s: State, step: Step)
  {
    && (step.Tick? ==> s.clock <= step.clock)
    && (step.Schedule? ==> 0 <= step.timeout && s.clock + step.timeout < LONG_LIMIT)
  }

  lemma SteadyStep(s: State, step: Step, s': State)
    requires Inv(s) && Next(s, step, s') && Steady(s, step)
    requires RanUpTo(s, s.clock) && (s.sampled.Some? ==> s.sampled.value <= s.clock)
    ensures NotBehind(s, step)
    ensures RanUpTo(s', s'.clock) && (s'.sampled.Some? ==> s'.sampled.value <= s'.clock)
  {
    hide Inserts, ScheduleTime;
    if step.Schedule? { ScheduleTimeExactly(s.clock, step.timeout); }
  }

  /** Under those conditions the order always holds. */
  lemma {:induction false} SteadyRunsInOrder(states: seq<State>, steps: seq<Step>)
    requires IsRun(states, steps) && forall i :: 0 <= i < |steps| ==> Steady(states[i], steps[i])
    ensures Ordered(states[|steps|])
    ensures var s := states[|steps|]; RanUpTo(s, s.clock) && (s.sampled.Some? ==> s.sampled.value <= s.clock)
    decreases |steps|
  {
    hide Next, Inv, Ordered, NotBehind, Steady;
    if steps == [] {
      StartInOrder(states[0]);
    } else {
      var n := |steps| - 1;
      PathInit(states, steps);
      assert forall i :: 0 <= i < n ==> steps[..n][i] == steps[i];
      SteadyRunsInOrder(states[..|steps|], steps[..n]);
      RunsInOrder(states[..|steps|], steps[..n]);
      assert states[..|steps|][n] == states[n];
      SteadyStep(states[n], steps[n], states[n + 1]);
      StepOrdered(states[n], steps[n], states[n + 1]);
    }
  }

  /** The blocks asked for along a path, each with the time it was given. */
  function Requested(states: seq<State>, steps: seq<Step>): multiset<Block>
    requires |states| == |steps| + 1
  {
    if steps == [] then multiset{}
    else
      var (n, last) := (|steps| - 1, steps[|steps| - 1]);
      Requested(states[..n + 1], steps[..n])
      + if last.Schedule? then multiset{Block(ScheduleTime(states[n].clock, last.timeout), last.id)} else multiset{}
  }

  /** Over every run no block is lost, doubled or made up: those run and those queued are those asked for. */
  lemma {:induction false} BlocksConserved(states: seq<State>, steps: seq<Step>)
    requires IsRun(states, steps)
    ensures multiset(Blocks(states[|steps|].log)) + multiset(states[|steps|].queue) == Requested(states, steps)
    decreases |steps|
  {
    hide Next, Blocks, ScheduleTime;
    if steps == [] {
      NothingRun();
    } else {
      var n := |steps| - 1;
      PathInit(states, steps);
      BlocksConserved(states[..n + 1], steps[..n]);
      assert states[..n + 1][n] == states[n];
      StepConserves(states[n], steps[n], states[n + 1]);
    }
  }

  lemma NothingRun()
    ensures Blocks([]) == []
  {
  }

  lemma StepConserves(s: State, step: Step, s': State)
    requires Next(s, step, s')
    ensures multiset(Blocks(s'.log)) + multiset(s'.queue) ==
            multiset(Blocks(s.log)) + multiset(s.queue)
            + if step.Schedule? then multiset{Block(ScheduleTime(s.clock, step.timeout), step.id)} else multiset{}
  {
    hide Blocks, ScheduleTime, Inserts;
    match step
    case RunDue =>
      BlocksSnoc(s.log, Ran(s.queue[0], s.sampled.value));
      assert s.queue == [s.queue[0]] + s'.queue;
    case Schedule(timeout, id) =>
      InsertAddsOne(s.queue, Block(ScheduleTime(s.clock, timeout), id), s'.queue);
    case _ =>
  }

  // One drain

  /** The blocks at the head of the queue that are due at `time`. */
  function Due(s: seq<Block>, time: int): seq<Block>
  {
    if NothingDue(s, time) then [] else [s[0]] + Due(s[1..], time)
  }

  function Blocks(log: seq<Ran>): (blocks: seq<Block>)
    ensures |blocks| == |log|
  {
    if log == [] then [] else Blocks(log[..|log| - 1]) + [log[|log| - 1].block]
  }

  lemma BlocksSnoc(log: seq<Ran>, r: Ran)
    ensures Blocks(log + [r]) == Blocks(log) + [r.block]
  {
    assert (log + [r])[..|log|] == log;
  }

  lemma SortedTail(s: seq<Block>)
    requires Sorted(s) && s != []
    ensures Sorted(s[1..]) && forall i :: 0 <= i < |s| ==> s[0].time <= s[i].time
  {
  }

  /** In a sorted queue that is every block whose time has come, and they stand in front. */
  lemma {:induction false} DueExactly(s: seq<Block>, time: int)
    requires Sorted(s)
    ensures var due := Due(s, time);
            && due <= s && (forall b :: b in due ==> b.time <= time)
            && (forall b :: b in s[|due|..] ==> b.time > time)
    decreases |s|
  {
    if NothingDue(s, time) {
      NoneDue(s, time);
    } else {
      SortedTail(s);
      hide Sorted;
      DueExactly(s[1..], time);
      var rest := Due(s[1..], time);
      assert s == [s[0]] + s[1..] && Due(s, time) == [s[0]] + rest;
      assert s[1..][|rest|..] == s[|rest| + 1..];
    }
  }

  lemma {:induction false} DueInsertedAt(s: seq<Block>, k: nat, e: Block, time: int)
    requires k <= |s| && Sorted(s[..k] + [e] + s[k..])
    ensures var s' := s[..k] + [e] + s[k..];
            if e.time > time then Due(s', time) == Due(s, time) else |Due(s', time)| == |Due(s, time)| + 1
    decreases k
  {
    hide Sorted;
    var s' := s[..k] + [e] + s[k..];
    SortedTail(s');
    if k == 0 {
      assert s' == [e] + s && s'[1..] == s;
      assert s != [] ==> s'[1] == s[0];
    } else {
      assert s'[0] == s[0] && s'[k] == e;
      assert s'[1..] == s[1..][..k - 1] + [e] + s[1..][k - 1..];
      DueInsertedAt(s[1..], k - 1, e, time);
    }
  }

  /** A block put in later than `time` does not change what is due; any other adds one. */
  lemma DueAfterInsert(s: seq<Block>, e: Block, s': seq<Block>, time: int)
    requires Sorted(s') && Inserts(s, e, s')
    ensures if e.time > time then Due(s', time) == Due(s, time) else |Due(s', time)| == |Due(s, time)| + 1
  {
    hide Due, Sorted;
    var k :| 0 <= k <= |s| && s' == s[..k] + [e] + s[k..];
    DueInsertedAt(s, k, e, time);
  }

  /** A block scheduled while a drain is under way for `time`, and already due. */
  predicate Early(s: State, step: Step, time: int)
  {
    step.Schedule? && ScheduleTime(s.clock, step.timeout) <= time
  }

  lemma DrainStep(s: State, step: Step, s': State, time: int)
    requires Inv(s) && Next(s, step, s') && s.sampled == Some(time) && !step.EndDrain?
    ensures s'.sampled == Some(time)
    ensures !Early(s, step, time) ==>
              Blocks(s'.log) + Due(s'.queue, time) == Blocks(s.log) + Due(s.queue, time)
    ensures Early(s, step, time) ==> |s'.log| + |Due(s'.queue, time)| == |s.log| + |Due(s.queue, time)| + 1
  {
    hide ScheduleTime, Blocks, Inserts;
    match step
    case RunDue =>
      BlocksSnoc(s.log, Ran(s.queue[0], time));
      assert Blocks(s.log) + [s.queue[0]] + Due(s'.queue, time) == Blocks(s.log) + ([s.queue[0]] + Due(s'.queue, time));
    case Schedule(timeout, id) =>
      DueAfterInsert(s.queue, Block(ScheduleTime(s.clock, timeout), id), s'.queue, time);
    case Tick(_) =>
  }

  /** What a drain for `time` has run, and what it still has to, over any steps. */
  lemma {:induction false} DrainProgress(states: seq<State>, steps: seq<Step>, time: int)
    requires IsPath(states, steps) && Inv(states[0]) && states[0].sampled == Some(time)
    requires EndDrain !in steps
    ensures var (s, s') := (states[0], states[|steps|]);
            && Inv(s') && s'.sampled == Some(time)
            && |s'.log| + |Due(s'.queue, time)| >= |s.log| + |Due(s.queue, time)|
            && if forall i :: 0 <= i < |steps| ==> !Early(states[i], steps[i], time)
               then Blocks(s'.log) + Due(s'.queue, time) == Blocks(s.log) + Due(s.queue, time)
               else |s'.log| + |Due(s'.queue, time)| > |s.log| + |Due(s.queue, time)|
    decreases |steps|
  {
    hide Next, Inv, Early, Due, Blocks;
    if steps != [] {
      var n := |steps| - 1;
      PathInit(states, steps);
      DrainProgress(states[..|steps|], steps[..n], time);
      assert forall i :: 0 <= i < |states[..|steps|]| ==> states[..|steps|][i] == states[i];
      assert forall i :: 0 <= i < n ==> steps[..n][i] == steps[i];
      StepKeepsInv(states[n], steps[n], states[n + 1]);
      DrainStep(states[n], steps[n], states[n + 1], time);
      SameLength(Blocks(states[n].log), Due(states[n].queue, time),
                 Blocks(states[n + 1].log), Due(states[n + 1].queue, time));
    }
  }

  lemma SameLength(a: seq<Block>, b: seq<Block>, c: seq<Block>, d: seq<Block>)
    ensures a + b == c + d ==> |a| + |b| == |c| + |d|
  {
    assert |a + b| == |a| + |b| && |c + d| == |c| + |d|;
  }

  /**
   * One drain, exactly: from its sample to the point where nothing is due, it has run the blocks
   * that were due when it began, in queue order and no others, if and only if nothing scheduled
   * meanwhile was already due.
   */
  lemma DrainExactly(states: seq<State>, steps: seq<Step>, time: int)
    requires IsPath(states, steps) && Inv(states[0]) && states[0].sampled == Some(time)
    requires EndDrain !in steps && NothingDue(states[|steps|].queue, time)
    ensures Blocks(states[|steps|].log) == Blocks(states[0].log) + Due(states[0].queue, time)
            <==> forall i :: 0 <= i < |steps| ==> !Early(states[i], steps[i], time)
  {
    hide Next, Inv, Early, Blocks;
    DrainProgress(states, steps, time);
    var due := Due(states[0].queue, time);
    assert Blocks(states[|steps|].log) + [] == Blocks(states[|steps|].log);
    SameLength(Blocks(states[|steps|].log), [], Blocks(states[0].log), due);
  }

  /**
   * Why a drain needs later times to end: while the clock stands still, a block that reschedules
   * itself with timeout zero brings the loop back to where it was, one block later.
   */
  lemma ZeroTimeoutRepeats(s: State, id: nat)
    requires IsLong(s.clock) && s.sampled == Some(s.clock) && s.queue == [Block(s.clock, id)]
    ensures exists mid, s' :: Next(s, RunDue, mid) && Next(mid, Schedule(0, id), s') &&
                              s' == s.(log := s.log + [Ran(Block(s.clock, id), s.clock)])
  {
    var ran := s.log + [Ran(Block(s.clock, id), s.clock)];
    var mid := s.(queue := [], log := ran);
    var s' := s.(log := ran);
    assert s.queue[1..] == [];
    assert mid.queue[..0] + [Block(s.clock, id)] + mid.queue[0..] == s'.queue;
    assert Next(s, RunDue, mid) && Next(mid, Schedule(0, id), s');
  }

  // The drain as the loop runs it

  datatype Request = Request(timeout: int, id: nat)

  /** Clock readings in the order they are taken, and what a block does when it runs. */
  datatype World = World(clock: nat -> int, requests: (Block, nat) -> seq<Request>)
  {
    /** The time at which the `k`-th request of a block falls that runs after `n` clock readings. */
    function RequestTime(b: Block, n: nat, k: nat): int
      requires k < |requests(b, n)|
    {
      ScheduleTime(clock(n + k), requests(b, n)[k].timeout)
    }

    /** Everything the block schedules then falls after `time`. */
    predicate After(b: Block, n: nat, time: int)
    {
      forall k :: 0 <= k < |requests(b, n)| ==> RequestTime(b, n, k) > time
    }

    /** The blocks it schedules, in the order of its requests. */
    function Scheduled(b: Block, n: nat): (blocks: seq<Block>)
      ensures |blocks| == |requests(b, n)|
    {
      seq(|requests(b, n)|, k requires 0 <= k < |requests(b, n)| => Block(RequestTime(b, n, k), requests(b, n)[k].id))
    }

    /** The blocks that a list of blocks schedules, run one behind the other. */
    function ScheduledBy(blocks: seq<Block>, n: nat): seq<Block>
    {
      if blocks == [] then []
      else Scheduled(blocks[0], n) + ScheduledBy(blocks[1..], n + |requests(blocks[0], n)|)
    }

    /** What a block schedules falls after `time`, for blocks that run one behind the other. */
    predicate AllAfter(blocks: seq<Block>, n: nat, time: int)
    {
      blocks == [] ||
      (After(blocks[0], n, time) && AllAfter(blocks[1..], n + |requests(blocks[0], n)|, time))
    }
  }

  lemma OneLessDue(list: seq<Block>, time: int, w: World, n: nat)
    requires !NothingDue(list, time)
    ensures Due(list, time) == [list[0]] + Due(list[1..], time)
    ensures w.AllAfter(Due(list, time), n, time) ==>
              && w.After(list[0], n, time)
              && w.AllAfter(Due(list[1..], time), n + |w.requests(list[0], n)|, time)
  {
    assert ([list[0]] + Due(list[1..], time))[1..] == Due(list[1..], time);
  }

  lemma NoneDue(list: seq<Block>, time: int)
    requires Sorted(list) && NothingDue(list, time)
    ensures Due(list, time) == [] && forall b :: b in list ==> b.time > time
  {
  }

  /** The queue once the block's first `i` requests have been made: `before`, and what they put in. */
  ghost predicate PartRun(w: World, b: Block, n: nat, i: nat, time: int, before: seq<Block>, list: seq<Block>)
  {
    && i <= |w.requests(b, n)|
    && multiset(list) == multiset(before) + multiset(w.Scheduled(b, n)[..i])
    && |Due(list, time)| >= |Due(before, time)|
    && if forall k :: 0 <= k < i ==> w.RequestTime(b, n, k) > time then Due(list, time) == Due(before, time)
       else |Due(list, time)| > |Due(before, time)|
  }

  lemma RequestMade(w: World, b: Block, n: nat, i: nat, time: int, before: seq<Block>, list: seq<Block>,
                    list': seq<Block>)
    requires PartRun(w, b, n, i, time, before, list) && i < |w.requests(b, n)|
    requires QueueStep(list, Add(w.Scheduled(b, n)[i]), list')
    ensures PartRun(w, b, n, i + 1, time, before, list')
  {
    hide Due, Inserts, Sorted, ScheduleTime;
    var all := w.Scheduled(b, n);
    DueAfterInsert(list, all[i], list', time);
    InsertAddsOne(list, all[i], list');
    assert all[..i + 1] == all[..i] + [all[i]];
  }

  lemma NoneMade(w: World, b: Block, n: nat, time: int, list: seq<Block>)
    ensures PartRun(w, b, n, 0, time, list, list)
  {
  }

  lemma AllMade(w: World, b: Block, n: nat, time: int, before: seq<Block>, list: seq<Block>)
    requires PartRun(w, b, n, |w.requests(b, n)|, time, before, list)
    ensures multiset(list) == multiset(before) + multiset(w.Scheduled(b, n))
    ensures w.After(b, n, time) <==> Due(list, time) == Due(before, time)
  {
    hide Due;
    assert w.Scheduled(b, n)[..|w.requests(b, n)|] == w.Scheduled(b, n);
  }

  lemma ScheduledAt(w: World, b: Block, n: nat, i: nat)
    requires i < |w.requests(b, n)|
    ensures var r := w.requests(b, n)[i];
            w.Scheduled(b, n)[i] == Block(ScheduleTime(w.clock(n + i), r.timeout), r.id)
  {
  }

  /** Taking out and putting in: `list` and `out`, and what `later` adds, are `list0` and `left`, and `all`. */
  ghost predicate Balance(list: multiset<Block>, out: multiset<Block>, later: multiset<Block>,
                          list0: multiset<Block>, left: multiset<Block>, all: multiset<Block>)
  {
    list + out + later == list0 + left + all
  }

  /** The head leaves both sides, and what it put in moves from what is to come to what is there. */
  lemma HeadSettled(head: Block, list: multiset<Block>, tail: multiset<Block>, list': multiset<Block>,
                    out: multiset<Block>, put: multiset<Block>, later: multiset<Block>, later': multiset<Block>,
                    list0: multiset<Block>, left: multiset<Block>, left': multiset<Block>, all: multiset<Block>)
    requires list == multiset{head} + tail && left == multiset{head} + left'
    requires list' == tail + put && later == put + later'
    requires Balance(list, out, later, list0, left, all)
    ensures Balance(list', out, later', list0, left', all)
  {
    forall x ensures (list' + out + later')[x] == (list0 + left' + all)[x] {
      assert (list + out + later)[x] == (list0 + left + all)[x];
    }
  }

  lemma NothingLeft(list: multiset<Block>, out: multiset<Block>, list0: multiset<Block>, all: multiset<Block>)
    requires Balance(list, out, multiset{}, list0, multiset{}, all)
    ensures list + out == list0 + all
  {
    forall x ensures (list + out)[x] == (list0 + all)[x] {
      assert (list + out + multiset{})[x] == (list0 + multiset{} + all)[x];
    }
  }

  /**
   * In the middle of a drain, with `list` queued: what has been taken out of the queue so far and
   * put into it makes up the difference from `list0`, the queue it began with; and every block put
   * in has taken one clock reading.
   */
  ghost predicate PartDrained(w: World, time: int, list0: seq<Block>, from: nat, list: seq<Block>, n: nat)
  {
    var (due, left) := (Due(list0, time), Due(list, time));
    && Balance(multiset(list), multiset(due), multiset(w.ScheduledBy(left, n)),
               multiset(list0), multiset(left), multiset(w.ScheduledBy(due, from)))
    && n + |w.ScheduledBy(left, n)| == from + |w.ScheduledBy(due, from)|
  }

  lemma DrainBegun(w: World, time: int, list: seq<Block>, n: nat)
    ensures PartDrained(w, time, list, n, list, n)
  {
  }

  lemma BlockDrained(w: World, time: int, list0: seq<Block>, from: nat, list: seq<Block>, n: nat, list': seq<Block>)
    requires PartDrained(w, time, list0, from, list, n) && !NothingDue(list, time)
    requires Due(list', time) == Due(list[1..], time)
    requires multiset(list') == multiset(list[1..]) + multiset(w.Scheduled(list[0], n))
    ensures PartDrained(w, time, list0, from, list', n + |w.requests(list[0], n)|)
  {
    hide Balance, World.Scheduled, World.ScheduledBy, Due;
    var (head, rest) := (list[0], list[1..]);
    var n' := n + |w.requests(head, n)|;
    HeadOut(list);
    FirstDue(time, list);
    FirstSchedules(w, time, list, n);
    var (due, left) := (Due(list0, time), Due(list, time));
    HeadSettled(head, multiset(list), multiset(rest), multiset(list'),
                multiset(due), multiset(w.Scheduled(head, n)), multiset(w.ScheduledBy(left, n)),
                multiset(w.ScheduledBy(Due(list', time), n')),
                multiset(list0), multiset(left), multiset(Due(list', time)), multiset(w.ScheduledBy(due, from)));
  }

  lemma HeadOut(list: seq<Block>)
    requires list != []
    ensures multiset(list) == multiset{list[0]} + multiset(list[1..])
  {
    assert list == [list[0]] + list[1..];
  }

  lemma FirstDue(time: int, list: seq<Block>)
    requires !NothingDue(list, time)
    ensures multiset(Due(list, time)) == multiset{list[0]} + multiset(Due(list[1..], time))
  {
    var rest := Due(list[1..], time);
    assert Due(list, time) == [list[0]] + rest;
    hide Due;
    HeadOut([list[0]] + rest);
    assert ([list[0]] + rest)[1..] == rest;
  }

  lemma FirstSchedules(w: World, time: int, list: seq<Block>, n: nat)
    requires !NothingDue(list, time)
    ensures multiset(w.ScheduledBy(Due(list, time), n)) ==
            multiset(w.Scheduled(list[0], n))
            + multiset(w.ScheduledBy(Due(list[1..], time), n + |w.requests(list[0], n)|))
    ensures |w.ScheduledBy(Due(list, time), n)| ==
            |w.requests(list[0], n)| + |w.ScheduledBy(Due(list[1..], time), n + |w.requests(list[0], n)|)|
  {
    hide World.Scheduled;
    var rest := Due(list[1..], time);
    assert Due(list, time) == [list[0]] + rest;
    assert ([list[0]] + rest)[1..] == rest;
    hide Due;
    assert w.ScheduledBy([list[0]] + rest, n)
           == w.Scheduled(list[0], n) + w.ScheduledBy(rest, n + |w.requests(list[0], n)|);
  }

  lemma FullyDrained(w: World, time: int, list0: seq<Block>, from: nat, list: seq<Block>, n: nat)
    requires PartDrained(w, time, list0, from, list, n) && NothingDue(list, time)
    ensures var due := Due(list0, time);
            && multiset(list) + multiset(due) == multiset(list0) + multiset(w.ScheduledBy(due, from))
            && n == from + |w.ScheduledBy(due, from)|
  {
    hide Balance;
    var due := Due(list0, time);
    assert multiset(Due(list, time)) == multiset{} == multiset(w.ScheduledBy(Due(list, time), n));
    NothingLeft(multiset(list), multiset(due), multiset(list0), multiset(w.ScheduledBy(due, from)));
  }

  class ClientLoopScope {
    const scheduledBlocks: PriorityQueue
    const world: World
    var readings: nat         // clock readings taken so far
    var ran: seq<Block>       // blocks run so far

    constructor (world: World)
      ensures scheduledBlocks.naiveList == [] && fresh(scheduledBlocks) && this.world == world && ran == []
    {
      scheduledBlocks := new PriorityQueue();
      this.world := world;
      readings, ran := 0, [];
    }

    /** `invokeAfterTimeout`. */
    method InvokeAfterTimeout(timeoutMillis: int, id: nat)
      requires Sorted(scheduledBlocks.naiveList)
      modifies this`readings, scheduledBlocks
      ensures readings == old(readings) + 1
      ensures QueueStep(old(scheduledBlocks.naiveList),
                                 Add(Block(ScheduleTime(world.clock(old(readings)), timeoutMillis), id)),
                                 scheduledBlocks.naiveList)
    {
      var now := world.clock(readings);
      readings := readings + 1;
      scheduledBlocks.Add(Block(ScheduleTime(now, timeoutMillis), id));
    }

    /** A block's body: it may schedule any number of blocks, with any timeouts. */
    method RunBlock(b: Block, ghost time: int)
      requires Sorted(scheduledBlocks.naiveList)
      modifies this, scheduledBlocks
      ensures Sorted(scheduledBlocks.naiveList)
      ensures readings == old(readings) + |world.requests(b, old(readings))| && ran == old(ran) + [b]
      ensures world.After(b, old(readings), time) <==>
              Due(scheduledBlocks.naiveList, time) == old(Due(scheduledBlocks.naiveList, time))
      ensures multiset(scheduledBlocks.naiveList) ==
              old(multiset(scheduledBlocks.naiveList)) + multiset(world.Scheduled(b, old(readings)))
    {
      hide ScheduleTime, Due, PartRun, World.Scheduled;
      var requests := world.requests(b, readings);
      ghost var at, before := readings, scheduledBlocks.naiveList;
      NoneMade(world, b, at, time, before);
      ran := ran + [b];
      for i := 0 to |requests|
        invariant Sorted(scheduledBlocks.naiveList) && readings == at + i
        invariant ran == old(ran) + [b]
        invariant PartRun(world, b, at, i, time, before, scheduledBlocks.naiveList)
      {
        var r := requests[i];
        ghost var list := scheduledBlocks.naiveList;
        InvokeAfterTimeout(r.timeout, r.id);
        ScheduledAt(world, b, at, i);
        RequestMade(world, b, at, i, time, before, list, scheduledBlocks.naiveList);
      }
      AllMade(world, b, at, time, before, scheduledBlocks.naiveList);
    }

    /**
     * The drain of `clientLoopJob`. If what the due blocks schedule falls after the sampled time,
     * it ends, having run exactly the blocks that were due when it began, in queue order. Queued
     * afterwards are exactly the blocks that were not due and those that the due ones scheduled.
     */
    method Drain() returns (currentTime: int)
      requires Sorted(scheduledBlocks.naiveList)
      requires var time := world.clock(readings);
               world.AllAfter(Due(scheduledBlocks.naiveList, time), readings + 1, time)
      modifies this, scheduledBlocks
      ensures Sorted(scheduledBlocks.naiveList)
      ensures currentTime == world.clock(old(readings))
      ensures ran == old(ran) + old(Due(scheduledBlocks.naiveList, world.clock(readings)))
      ensures forall b :: b in scheduledBlocks.naiveList ==> b.time > currentTime
      ensures var due := old(Due(scheduledBlocks.naiveList, world.clock(readings)));
              multiset(scheduledBlocks.naiveList) + multiset(due) ==
              old(multiset(scheduledBlocks.naiveList)) + multiset(world.ScheduledBy(due, old(readings) + 1))
      ensures var due := old(Due(scheduledBlocks.naiveList, world.clock(readings)));
              readings == old(readings) + 1 + |world.ScheduledBy(due, old(readings) + 1)|
    {
      hide Due, Inserts, World.After, World.AllAfter, World.Scheduled, ScheduleTime, PartDrained;
      currentTime := world.clock(readings);
      ghost var due := Due(scheduledBlocks.naiveList, currentTime);
      DrainBegun(world, currentTime, scheduledBlocks.naiveList, readings + 1);
      ghost var start, list0 := readings, scheduledBlocks.naiveList;
      readings := readings + 1;
      var more := scheduledBlocks.IsNotEmpty();
      while more
        invariant Sorted(scheduledBlocks.naiveList)
        invariant more <==> scheduledBlocks.naiveList != []
        invariant ran + Due(scheduledBlocks.naiveList, currentTime) == old(ran) + due
        invariant world.AllAfter(Due(scheduledBlocks.naiveList, currentTime), readings, currentTime)
        invariant PartDrained(world, currentTime, list0, start + 1, scheduledBlocks.naiveList, readings)
        decreases |Due(scheduledBlocks.naiveList, currentTime)|, more
      {
        ghost var list, at := scheduledBlocks.naiveList, readings;
        var head := scheduledBlocks.Peek();
        if head.value.time > currentTime { break; }
        var block := scheduledBlocks.Poll();
        OneLessDue(list, currentTime, world, readings);
        RunBlock(block.value, currentTime);
        BlockDrained(world, currentTime, list0, start + 1, list, at, scheduledBlocks.naiveList);
        more := scheduledBlocks.IsNotEmpty();
      }
      NoneDue(scheduledBlocks.naiveList, currentTime);
      FullyDrained(world, currentTime, list0, start + 1, scheduledBlocks.naiveList, readings);
    }
  }
}
