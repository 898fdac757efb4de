/**
 * Handing queries to the loop thread: a shared deque guarded by the isolate, and one ping message
 * per invoke query on an in-process socket pair. The ping channel is an unbounded lossless FIFO.
 */
module HandOff {

  datatype Query = InvokeQuery(id: nat) | StopQuery

  /** `enqueued` and `executed` are histories; `pings` counts the messages in flight. */
  datatype State = State(queue: seq<Query>, pings: nat, disposed: bool, isStopped: bool,
                         enqueued: seq<Query>, executed: seq<Query>)

  const START: State := State([], 0, false, false, [], [])

  /** The atomic steps of any number of caller threads and of the loop. */
  datatype Step =
    | Invoke(id: nat)     // invokeSafe: add the query and send a one-frame message
    | Stop                // first half of stopSafe: add the query and send a message with no frames
    | Dispose             // second half of stopSafe
    | HandlePong          // the loop reads one message and takes the head of the deque

  /** A frameless message is not sent at all (zmsg.h:60-62), so a stop adds no ping. */
  ghost predicate Next(s: State, step: Step, s': State)
  {
    match step
    case Invoke(id) =>
      !s.disposed && s' == s.(queue := s.queue + [InvokeQuery(id)], pings := s.pings + 1,
                              enqueued := s.enqueued + [InvokeQuery(id)])
    case Stop => !s.disposed && s' == s.(queue := s.queue + [StopQuery], enqueued := s.enqueued + [StopQuery])
    case Dispose => StopQuery in s.enqueued && s' == s.(disposed := true)
    case HandlePong =>
      && !s.disposed && !s.isStopped && s.pings > 0 && s.queue != []
      && s' == s.(queue := s.queue[1..], pings := s.pings - 1, executed := s.executed + [s.queue[0]],
                  isStopped := s.queue[0] == StopQuery)
  }

  function Invokes(qs: seq<Query>): nat
  {
    if qs == [] then 0
    else Invokes(qs[..|qs| - 1]) + if qs[|qs| - 1].InvokeQuery? then 1 else 0
  }

  lemma InvokesSnoc(qs: seq<Query>, q: Query)
    ensures Invokes(qs + [q]) == Invokes(qs) + if q.InvokeQuery? then 1 else 0
  {
    assert (qs + [q])[..|qs|] == qs;
  }

  lemma {:induction false} InvokesOfPrefix(qs: seq<Query>, n: nat)
    requires n <= |qs|
    ensures Invokes(qs[..n]) <= Invokes(qs) <= Invokes(qs[..n]) + (|qs| - n)
    decreases |qs| - n
  {
    if n == |qs| {
      assert qs[..n] == qs;
    } else {
      assert qs[..n + 1] == qs[..n] + [qs[n]];
      InvokesSnoc(qs[..n], qs[n]);
      InvokesOfPrefix(qs, n + 1);
    }
  }

  /**
   * One FIFO: what has been executed, then what is queued, is what was enqueued, in order; and
   * every invoke query enqueued has its ping, in flight or used up.
   */
  ghost predicate Inv(s: State)
  {
    && s.enqueued == s.executed + s.queue
    && Invokes(s.enqueued) == |s.executed| + s.pings
    && (s.isStopped <==> StopQuery in s.executed)
  }

  ghost predicate IsRun(states: seq<State>, steps: seq<Step>)
  {
    && |states| == |steps| + 1 && states[0] == START
    && forall i :: 0 <= i < |steps| ==> Next(states[i], steps[i], states[i + 1])
  }

  lemma StepKeepsInv(s: State, step: Step, s': State)
    requires Inv(s) && Next(s, step, s')
    ensures Inv(s')
  {
    hide Invokes;
    match step
    case Invoke(id) => InvokesSnoc(s.enqueued, InvokeQuery(id));
    case Stop => InvokesSnoc(s.enqueued, StopQuery);
    case Dispose =>
    case HandlePong => HandlePongKeepsInv(s, s');
  }

  lemma HandlePongKeepsInv(s: State, s': State)
    requires Inv(s) && Next(s, HandlePong, s')
    ensures Inv(s')
  {
    hide Invokes;
    assert s.executed + [s.queue[0]] + s.queue[1..] == s.executed + s.queue;
  }

  /** The queue exceeds the pings in flight by exactly the stop queries enqueued. */
  lemma QueueCoversPings(s: State)
    requires Inv(s)
    ensures |s.queue| - s.pings == |s.enqueued| - Invokes(s.enqueued)
    ensures s.pings > 0 ==> s.queue != []
  {
    InvokesOfPrefix(s.enqueued, 0);
  }

  /** The queries a run asks for, from its steps alone. */
  function Asked(steps: seq<Step>): seq<Query>
  {
    if steps == [] then []
    else
      var init, last := Asked(steps[..|steps| - 1]), steps[|steps| - 1];
      if last.Invoke? then init + [InvokeQuery(last.id)] else if last.Stop? then init + [StopQuery] else init
  }

  /** The messages the loop has read. */
  function Pongs(steps: seq<Step>): nat
  {
    if steps == [] then 0
    else Pongs(steps[..|steps| - 1]) + if steps[|steps| - 1].HandlePong? then 1 else 0
  }

  /**
   * Every interleaving of callers and loop, from the steps alone: the loop has executed the first
   * queries asked for, in order and one per message it has read; the rest are queued in order; one
   * message per invoke is in flight or read, and a message never finds the deque empty.
   */
  ghost predicate Fifo(s: State, steps: seq<Step>)
  {
    var asked, k := Asked(steps), Pongs(steps);
    && k <= |asked| && s.executed == asked[..k] && s.queue == asked[k..] && s.enqueued == asked
    && s.pings + k == Invokes(asked) && (s.pings > 0 ==> s.queue != [])
    && (s.isStopped <==> StopQuery in asked[..k])
    && (s.disposed <==> Dispose in steps)
  }

  lemma {:induction false} RefinesFifo(states: seq<State>, steps: seq<Step>)
    requires IsRun(states, steps)
    ensures Inv(states[|steps|]) && Fifo(states[|steps|], steps)
    decreases |steps|
  {
    hide Invokes;
    if steps == [] {
      NoInvokes();
    } else {
      var n := |steps| - 1;
      var init := states[..|states| - 1];
      assert forall i :: 0 <= i < |init| ==> init[i] == states[i];
      RefinesFifo(init, steps[..n]);
      StepKeepsInv(states[n], steps[n], states[n + 1]);
      QueueCoversPings(states[n + 1]);
      StepKeepsFifo(states[n], steps[..n], steps[n], states[n + 1]);
      assert steps == steps[..n] + [steps[n]];
    }
  }

  lemma NoInvokes()
    ensures Invokes([]) == 0
  {
  }

  lemma StepKeepsFifo(s: State, before: seq<Step>, step: Step, s': State)
    requires Inv(s) && Fifo(s, before) && Next(s, step, s') && Inv(s') && (s'.pings > 0 ==> s'.queue != [])
    ensures Fifo(s', before + [step])
  {
    hide Invokes;
    var steps := before + [step];
    assert steps[..|before|] == before;
    var asked, k := Asked(steps), Pongs(steps);
    assert s'.executed == asked[..k] && s'.queue == asked[k..];
  }

  /**
   * When a stop takes effect. The loop executes at most as many queries, from the first, as there
   * were invokes, so a stop that has been seen is among that many; and once every ping has been
   * handled the converse holds too: a stop needs later invokes to push it through.
   */
  lemma StopSeenExactly(s: State)
    requires Inv(s)
    ensures Invokes(s.enqueued) <= |s.enqueued|
    ensures s.executed <= s.enqueued[..Invokes(s.enqueued)]
    ensures s.isStopped ==> StopQuery in s.enqueued[..Invokes(s.enqueued)]
    ensures s.pings == 0 && StopQuery in s.enqueued[..Invokes(s.enqueued)] ==> s.isStopped
  {
    InvokesOfPrefix(s.enqueued, 0);
    var seen := s.enqueued[..Invokes(s.enqueued)];
    assert s.enqueued[..|s.executed|] == s.executed == seen[..|s.executed|];
  }

  /** A stop that no invoke follows is never executed, however the run goes. */
  lemma StopAloneNeverSeen(s: State, n: nat)
    requires Inv(s) && n < |s.enqueued|
    requires forall i :: n <= i < |s.enqueued| ==> s.enqueued[i] == StopQuery
    requires forall i :: 0 <= i < n ==> s.enqueued[i] != StopQuery
    ensures !s.isStopped
  {
    NoInvokesAfter(s.enqueued, n);
    InvokesOfPrefix(s.enqueued[..n], 0);
    forall i | 0 <= i < |s.executed|
      ensures s.executed[i] != StopQuery
    {
      assert s.executed[i] == s.enqueued[i];
    }
  }

  /**
   * Such a run: one `stopSafe` on an idle loop. The stop is enqueued and never executed, and no
   * step leads on from there.
   */
  lemma StopLost()
    ensures var asked := State([StopQuery], 0, false, false, [StopQuery], []);
            var end := asked.(disposed := true);
            && IsRun([START, asked, end], [Stop, Dispose])
            && StopQuery in end.enqueued && StopQuery !in end.executed && !end.isStopped
            && forall step, s' :: Next(end, step, s') ==> s' == end
  {
    var asked := State([StopQuery], 0, false, false, [StopQuery], []);
    assert Next(START, Stop, asked);
    assert Next(asked, Dispose, asked.(disposed := true));
  }

  lemma {:induction false} NoInvokesAfter(qs: seq<Query>, n: nat)
    requires n <= |qs| && forall i :: n <= i < |qs| ==> qs[i] == StopQuery
    ensures Invokes(qs) == Invokes(qs[..n])
    decreases |qs|
  {
    if n < |qs| {
      NoInvokesAfter(qs[..|qs| - 1], n);
      assert qs[..|qs| - 1][..n] == qs[..n];
    } else {
      assert qs[..n] == qs;
    }
  }

  /** The shared state behind the isolate, and the loop's `isStopped`. */
  class ClientLoop {
    var queue: seq<Query>
    var pings: nat
    var disposed: bool
    var isStopped: bool
    ghost var enqueued: seq<Query>
    ghost var executed: seq<Query>

    ghost function Model(): State
      reads this
    {
      State(queue, pings, disposed, isStopped, enqueued, executed)
    }

    constructor ()
      ensures Model() == START
    {
      queue, pings, disposed, isStopped := [], 0, false, false;
      enqueued, executed := [], [];
    }

    /** `ZmqMsg.send` on the ping socket. */
    method Send(frames: nat)
      modifies this`pings
      ensures pings == old(pings) + if frames == 0 then 0 else 1
    {
      if frames > 0 { pings := pings + 1; }
    }

    method InvokeSafe(id: nat)
      requires !disposed
      modifies this
      ensures Next(old(Model()), Invoke(id), Model())
    {
      queue := queue + [InvokeQuery(id)];
      enqueued := enqueued + [InvokeQuery(id)];
      Send(1);
    }

    method StopSafe()
      requires !disposed
      modifies this
      ensures exists mid :: Next(old(Model()), Stop, mid) && Next(mid, Dispose, Model())
    {
      queue := queue + [StopQuery];
      enqueued := enqueued + [StopQuery];
      Send(0);
      ghost var mid := Model();
      disposed := true;
      assert Next(old(Model()), Stop, mid) && Next(mid, Dispose, Model());
    }

    /** One pong message: never called without one in flight, and the invariant covers the rest. */
    method HandlePongSocket() returns (query: Query)
      requires !disposed && !isStopped && pings > 0 && Inv(Model())
      modifies this
      ensures Next(old(Model()), HandlePong, Model()) && Inv(Model())
      ensures query == old(queue)[0]
    {
      QueueCoversPings(Model());
      ghost var before := Model();
      pings := pings - 1;
      query := queue[0];
      queue := queue[1..];
      executed := executed + [query];
      if query == StopQuery { isStopped := true; }
      StepKeepsInv(before, HandlePong, Model());
    }
  }
}
