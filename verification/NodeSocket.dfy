/** The Node socket's deferred bind and close, driven by callbacks. */
module NodeSocket {

  /** What reaches the underlying socket, in order. */
  datatype Call = Bind(address: string) | Close

  datatype State = State(bindFinished: bool, bindQueue: seq<string>, shouldClose: bool, isClosed: bool,
                         log: seq<Call>, outstanding: nat)

  const START: State := State(true, [], false, false, [], 0)

  datatype Event =
    | BindCall(address: string)   // somebody calls bind
    | CloseCall                   // somebody calls close
    | Bound                       // the completion callback of an outstanding bind, failed or not

  function AfterBind(s: State, webSocket: bool, address: string): State
  {
    if s.isClosed then s
    else if !s.bindFinished then s.(bindQueue := s.bindQueue + [address])
    else if !webSocket then
      s.(bindFinished := false, log := s.log + [Bind(address)], outstanding := s.outstanding + 1)
    else s.(log := s.log + [Bind(address)])
  }

  function AfterClose(s: State): State
  {
    if s.isClosed then s
    else if !s.bindFinished then s.(shouldClose := true)
    else s.(shouldClose := false, log := s.log + [Close])
  }

  /** The callback: the next queued bind, or else the close that was put off. */
  function AfterBound(s: State, webSocket: bool): State
    requires s.outstanding > 0
  {
    var done := s.(bindFinished := true, outstanding := s.outstanding - 1);
    if done.bindQueue != [] then AfterBind(done.(bindQueue := done.bindQueue[1..]), webSocket, done.bindQueue[0])
    else if done.shouldClose then AfterClose(done)
    else done
  }

  predicate Enabled(s: State, e: Event)
  {
    e.Bound? ==> s.outstanding > 0
  }

  function After(s: State, webSocket: bool, e: Event): State
    requires Enabled(s, e)
  {
    match e
    case BindCall(address) => AfterBind(s, webSocket, address)
    case CloseCall => AfterClose(s)
    case Bound => AfterBound(s, webSocket)
  }

  /** Every event can happen when its turn comes: completions only for binds in progress. */
  predicate Runs(s: State, webSocket: bool, es: seq<Event>)
    decreases |es|
  {
    es == [] || (Enabled(s, es[0]) && Runs(After(s, webSocket, es[0]), webSocket, es[1..]))
  }

  function AfterAll(s: State, webSocket: bool, es: seq<Event>): State
    requires Runs(s, webSocket, es)
    decreases |es|
  {
    if es == [] then s else AfterAll(After(s, webSocket, es[0]), webSocket, es[1..])
  }

  function Asked(es: seq<Event>): seq<string>
  {
    if es == [] then []
    else (if es[0].BindCall? then [es[0].address] else []) + Asked(es[1..])
  }

  function Binds(log: seq<Call>): seq<string>
  {
    if log == [] then []
    else Binds(log[..|log| - 1]) + if log[|log| - 1].Bind? then [log[|log| - 1].address] else []
  }

  function BindCalls(addresses: seq<string>): seq<Call>
  {
    if addresses == [] then [] else [Bind(addresses[0])] + BindCalls(addresses[1..])
  }

  /** At most one bind is in progress, and only then is anything put off. */
  ghost predicate Inv(s: State)
  {
    && !s.isClosed
    && s.outstanding == (if s.bindFinished then 0 else 1)
    && (s.bindFinished ==> s.bindQueue == [] && !s.shouldClose)
  }

  lemma BindsSnoc(log: seq<Call>, c: Call)
    ensures Binds(log + [c]) == Binds(log) + if c.Bind? then [c.address] else []
  {
    assert (log + [c])[..|log|] == log;
  }

  lemma AskedFirst(e: Event, rest: seq<Event>)
    ensures Asked([e]) == if e.BindCall? then [e.address] else []
    ensures Asked([e] + rest) == Asked([e]) + Asked(rest)
  {
    assert ([e] + rest)[1..] == rest && [e][1..] == [];
  }

  /**
   * Between two states: the invariant holds on, at most one call reaches the socket, a close
   * reaches it only when no bind is in progress or queued, and the binds issued and then queued
   * grow by what was asked for.
   */
  ghost predicate Kept(s: State, s': State, asked: seq<string>)
  {
    && Inv(s') && s.log <= s'.log && |s'.log| <= |s.log| + 1
    && (|s'.log| > |s.log| && s'.log[|s.log|] == Close ==> s'.outstanding == 0 && s'.bindQueue == [])
    && Binds(s'.log) + s'.bindQueue == Binds(s.log) + s.bindQueue + asked
  }

  lemma BindKept(s: State, address: string)
    requires Inv(s)
    ensures Kept(s, AfterBind(s, false, address), [address])
  {
    hide Binds;
    if s.bindFinished {
      BindsSnoc(s.log, Bind(address));
    } else {
      assert Binds(s.log) + (s.bindQueue + [address]) == Binds(s.log) + s.bindQueue + [address];
    }
  }

  lemma CloseKept(s: State)
    requires Inv(s)
    ensures Kept(s, AfterClose(s), [])
  {
    hide Binds;
    BindsSnoc(s.log, Close);
  }

  lemma BoundKept(s: State)
    requires Inv(s) && s.outstanding > 0
    ensures Kept(s, AfterBound(s, false), [])
  {
    hide Binds;
    if s.bindQueue != [] {
      var first, rest := s.bindQueue[0], s.bindQueue[1..];
      BindsSnoc(s.log, Bind(first));
      assert Binds(s.log) + [first] + rest == Binds(s.log) + ([first] + rest);
    } else {
      BindsSnoc(s.log, Close);
    }
  }

  /** One event, whichever it is. */
  lemma EventKeepsInv(s: State, e: Event)
    requires Inv(s) && Enabled(s, e)
    ensures Kept(s, After(s, false, e), Asked([e]))
  {
    hide Kept, Inv, AfterBind, AfterClose, AfterBound;
    AskedFirst(e, []);
    match e
    case BindCall(address) => BindKept(s, address);
    case CloseCall => CloseKept(s);
    case Bound => BoundKept(s);
  }

  /**
   * Every interleaving on a non-websocket socket: at most one bind is outstanding, and the binds
   * issued, followed by those still queued, are the binds asked for, in call order.
   */
  lemma {:induction false} BindsInCallOrder(s: State, es: seq<Event>)
    requires Inv(s) && Runs(s, false, es)
    ensures var s' := AfterAll(s, false, es);
            && Inv(s') && s'.outstanding <= 1
            && Binds(s'.log) + s'.bindQueue == Binds(s.log) + s.bindQueue + Asked(es)
    decreases |es|
  {
    hide After, Binds, Asked;
    if es == [] {
      NothingAsked();
    } else {
      var e, rest := es[0], es[1..];
      assert es == [e] + rest;
      EventKeepsInv(s, e);
      BindsInCallOrder(After(s, false, e), rest);
      AskedFirst(e, rest);
    }
  }

  lemma NothingAsked()
    ensures Asked([]) == []
  {
  }

  /**
   * At every point of every run, a close reaches the socket only when no bind is in progress and
   * none is queued.
   */
  lemma {:induction false} ClosesOnlyWhenIdle(s: State, es: seq<Event>, i: nat)
    requires Inv(s) && Runs(s, false, es) && i < |es|
    ensures Runs(s, false, es[..i]) && Runs(s, false, es[..i + 1])
    ensures var (before, after) := (AfterAll(s, false, es[..i]), AfterAll(s, false, es[..i + 1]));
            && before.log <= after.log && |after.log| <= |before.log| + 1
            && (|after.log| > |before.log| && after.log[|before.log|] == Close ==>
                  after.outstanding == 0 && after.bindQueue == [])
    decreases i
  {
    hide After, Binds, Asked;
    EventKeepsInv(s, es[0]);
    var mid := After(s, false, es[0]);
    assert es[..i + 1][1..] == es[1..][..i];
    if i == 0 {
      assert AfterAll(s, false, es[..0]) == s;
      assert es[..1][1..] == [];
    } else {
      assert es[..i][1..] == es[1..][..i - 1];
      ClosesOnlyWhenIdle(mid, es[1..], i - 1);
    }
  }

  /** A bind is in progress before each event; the last event is what makes the socket idle. */
  predicate BusyUntilLast(s: State, es: seq<Event>)
    requires Runs(s, false, es)
    decreases |es|
  {
    if es == [] then s.bindFinished
    else !s.bindFinished && BusyUntilLast(After(s, false, es[0]), es[1..])
  }

  /** Every bind put off or asked for, in call order, then one close if any was asked for. */
  function Owed(queue: seq<string>, close: bool, es: seq<Event>): seq<Call>
  {
    BindCalls(queue + Asked(es)) + if close || CloseCall in es then [Close] else []
  }

  /** One event of a busy period: what it sends to the socket is no longer owed. */
  ghost predicate PaysOwed(s: State, e: Event, mid: State, rest: seq<Event>)
  {
    && (!mid.bindFinished ==>
          mid.log + Owed(mid.bindQueue, mid.shouldClose, rest)
          == s.log + Owed(s.bindQueue, s.shouldClose, [e] + rest))
    && (mid.bindFinished ==> mid.log == s.log + Owed(s.bindQueue, s.shouldClose, [e]))
  }

  lemma OwedStep(s: State, e: Event, rest: seq<Event>)
    requires Inv(s) && !s.bindFinished && Enabled(s, e)
    ensures PaysOwed(s, e, After(s, false, e), rest)
  {
    hide PaysOwed, Inv, AfterBind, AfterClose, AfterBound;
    match e
    case BindCall(address) => BindOwed(s, address, rest);
    case CloseCall => CloseOwed(s, rest);
    case Bound => BoundOwed(s, rest);
  }

  /** What is owed depends on the events only through the binds they ask for and whether one closes. */
  lemma OwedFirst(queue: seq<string>, close: bool, e: Event, rest: seq<Event>)
    ensures Owed(queue, close, [e] + rest) ==
            BindCalls(queue + Asked([e]) + Asked(rest))
            + if close || e.CloseCall? || CloseCall in rest then [Close] else []
  {
    hide BindCalls;
    AskedFirst(e, rest);
    assert queue + (Asked([e]) + Asked(rest)) == queue + Asked([e]) + Asked(rest);
  }

  lemma BindOwed(s: State, address: string, rest: seq<Event>)
    requires Inv(s) && !s.bindFinished
    ensures PaysOwed(s, BindCall(address), AfterBind(s, false, address), rest)
  {
    hide BindCalls, Asked;
    AskedFirst(BindCall(address), rest);
    OwedFirst(s.bindQueue, s.shouldClose, BindCall(address), rest);
  }

  lemma CloseOwed(s: State, rest: seq<Event>)
    requires Inv(s) && !s.bindFinished
    ensures PaysOwed(s, CloseCall, AfterClose(s), rest)
  {
    hide BindCalls, Asked;
    AskedFirst(CloseCall, rest);
    assert s.bindQueue + [] == s.bindQueue;
    OwedFirst(s.bindQueue, s.shouldClose, CloseCall, rest);
  }

  lemma BoundOwed(s: State, rest: seq<Event>)
    requires Inv(s) && !s.bindFinished
    ensures PaysOwed(s, Bound, AfterBound(s, false), rest)
  {
    hide BindCalls, Asked, Owed;
    AskedFirst(Bound, rest);
    assert s.bindQueue + [] == s.bindQueue;
    if s.bindQueue == [] {
      OwedFirst([], s.shouldClose, Bound, []);
      assert [Event.Bound] + [] == [Event.Bound];
      NothingAsked();
      NoCalls();
    } else {
      OwedFirst(s.bindQueue, s.shouldClose, Bound, rest);
      NextCall(s.bindQueue, rest, s.shouldClose);
    }
  }

  lemma NextCall(queue: seq<string>, rest: seq<Event>, close: bool)
    requires queue != []
    ensures BindCalls(queue + Asked(rest)) + (if close || CloseCall in rest then [Close] else [])
            == [Bind(queue[0])] + Owed(queue[1..], close, rest)
  {
    var all := queue + Asked(rest);
    assert all[1..] == queue[1..] + Asked(rest);
  }

  /**
   * A busy period as a whole: however binds, closes and completions interleave, what reaches the
   * socket is every bind put off or asked for meanwhile, in call order, and behind the last of
   * them one close if any close was asked for, and none otherwise.
   */
  lemma {:induction false} BusyPeriod(s: State, es: seq<Event>)
    requires Inv(s) && Runs(s, false, es) && BusyUntilLast(s, es)
    ensures s.bindFinished ==> es == []
    ensures !s.bindFinished ==> AfterAll(s, false, es).log == s.log + Owed(s.bindQueue, s.shouldClose, es)
    decreases |es|
  {
    hide After, Owed, Asked, Binds;
    if es != [] {
      var e, rest := es[0], es[1..];
      assert es == [e] + rest;
      EventKeepsInv(s, e);
      OwedStep(s, e, rest);
      BusyPeriod(After(s, false, e), rest);
      assert rest == [] ==> es == [e];
    }
  }

  lemma NoCalls()
    ensures BindCalls([]) == []
  {
  }

  /** The calls asked for, each as it would reach the socket. */
  function Calls(es: seq<Event>): seq<Call>
  {
    if es == [] then []
    else
      var last := es[|es| - 1];
      Calls(es[..|es| - 1]) + (match last
                               case BindCall(address) => [Bind(address)]
                               case CloseCall => [Close]
                               case Bound => [])
  }

  lemma RunsSnoc(s: State, webSocket: bool, es: seq<Event>, e: Event)
    requires Runs(s, webSocket, es + [e])
    ensures Runs(s, webSocket, es) && Enabled(AfterAll(s, webSocket, es), e)
    ensures AfterAll(s, webSocket, es + [e]) == After(AfterAll(s, webSocket, es), webSocket, e)
    decreases |es|
  {
    hide After;
    if es == [] {
      assert [e][1..] == [];
    } else {
      assert (es + [e])[1..] == es[1..] + [e];
      RunsSnoc(After(s, webSocket, es[0]), webSocket, es[1..], e);
    }
  }

  /**
   * On a websocket nothing is ever put off: what has reached the socket is every bind and every
   * close asked for, in the order of the calls.
   */
  lemma {:induction false} WebSocketPassesThrough(s: State, es: seq<Event>)
    requires Inv(s) && s.bindFinished && Runs(s, true, es)
    ensures var s' := AfterAll(s, true, es); Inv(s') && s'.bindFinished && s'.log == s.log + Calls(es)
    decreases |es|
  {
    if es != [] {
      hide After, Runs, Inv, AfterAll;
      var init, e := es[..|es| - 1], es[|es| - 1];
      assert es == init + [e];
      RunsSnoc(s, true, init, e);
      WebSocketPassesThrough(s, init);
      WebSocketStep(AfterAll(s, true, init), e);
    }
  }

  lemma WebSocketStep(s: State, e: Event)
    requires Inv(s) && s.bindFinished && Enabled(s, e)
    ensures var s' := After(s, true, e);
            Inv(s') && s'.bindFinished && s'.log == s.log + Calls([e])
  {
    assert [e][..0] == [];
  }

  /** Binds asked for and not yet completed. */
  function Pending(es: seq<Event>): int
  {
    if es == [] then 0
    else
      var last := es[|es| - 1];
      Pending(es[..|es| - 1]) + if last.BindCall? then 1 else if last.Bound? then -1 else 0
  }

  /** A bind is pending, and a close has been asked for since one last was not. */
  predicate CloseWanted(es: seq<Event>)
  {
    es != [] && Pending(es) > 0 && (es[|es| - 1].CloseCall? || CloseWanted(es[..|es| - 1]))
  }

  /**
   * What an event sends to a socket that is not a websocket, from the events alone. With no bind
   * pending a call goes straight through. Otherwise only a completion sends anything: the earliest
   * of the binds still waiting, or, behind the last, one close if any was wanted meanwhile.
   */
  function Sends(before: seq<Event>, e: Event): seq<Call>
  {
    var (asked, pending) := (Asked(before), Pending(before));
    match e
    case BindCall(address) => if pending == 0 then [Bind(address)] else []
    case CloseCall => if pending == 0 then [Close] else []
    case Bound =>
      if 2 <= pending <= |asked| then [Bind(asked[|asked| - (pending - 1)])]
      else if CloseWanted(before) then [Close]
      else []
  }

  function Sent(es: seq<Event>): seq<Call>
  {
    if es == [] then [] else Sent(es[..|es| - 1]) + Sends(es[..|es| - 1], es[|es| - 1])
  }

  /** The socket's fields as the events alone determine them. */
  ghost predicate Tracks(s: State, es: seq<Event>)
  {
    var (asked, pending) := (Asked(es), Pending(es));
    && 0 <= pending <= |asked|
    && s.bindQueue == asked[|asked| - (if pending == 0 then 0 else pending - 1)..]
    && s.shouldClose == CloseWanted(es) && s.bindFinished == (pending == 0)
    && s.log == Sent(es)
  }

  lemma {:induction false} AskedLast(es: seq<Event>, e: Event)
    ensures Asked(es + [e]) == Asked(es) + if e.BindCall? then [e.address] else []
    decreases |es|
  {
    hide Asked;
    AskedFirst(e, []);
    if es == [] {
      NothingAsked();
      assert es + [e] == [e];
    } else {
      var first, rest := es[0], es[1..];
      assert es == [first] + rest && es + [e] == [first] + (rest + [e]);
      AskedFirst(first, rest);
      AskedFirst(first, rest + [e]);
      AskedLast(rest, e);
    }
  }

  lemma LatestEvent(es: seq<Event>, e: Event)
    ensures Asked(es + [e]) == Asked(es) + if e.BindCall? then [e.address] else []
    ensures Pending(es + [e]) == Pending(es) + if e.BindCall? then 1 else if e.Bound? then -1 else 0
    ensures CloseWanted(es + [e]) <==> Pending(es + [e]) > 0 && (e.CloseCall? || CloseWanted(es))
    ensures CloseWanted(es) ==> Pending(es) > 0
    ensures Sent(es + [e]) == Sent(es) + Sends(es, e)
  {
    hide Asked;
    AskedLast(es, e);
    assert (es + [e])[..|es|] == es;
  }

  lemma BindTracks(s: State, es: seq<Event>, address: string)
    requires Inv(s) && Tracks(s, es)
    ensures Tracks(AfterBind(s, false, address), es + [BindCall(address)])
  {
    hide Asked, Pending, CloseWanted, Sent;
    LatestEvent(es, BindCall(address));
  }

  lemma CloseTracks(s: State, es: seq<Event>)
    requires Inv(s) && Tracks(s, es)
    ensures Tracks(AfterClose(s), es + [CloseCall])
  {
    hide Asked, Pending, CloseWanted, Sent;
    LatestEvent(es, CloseCall);
  }

  lemma BoundTracks(s: State, es: seq<Event>)
    requires Inv(s) && Tracks(s, es) && s.outstanding > 0
    ensures Tracks(AfterBound(s, false), es + [Bound])
  {
    hide Asked, Pending, CloseWanted, Sent;
    LatestEvent(es, Bound);
  }

  lemma EventTracks(s: State, es: seq<Event>, e: Event)
    requires Inv(s) && Tracks(s, es) && Enabled(s, e)
    ensures Tracks(After(s, false, e), es + [e])
  {
    hide Tracks, AfterBind, AfterClose, AfterBound, Inv;
    match e
    case BindCall(address) => BindTracks(s, es, address);
    case CloseCall => CloseTracks(s, es);
    case Bound =>
      BoundTracks(s, es);
  }

  /**
   * Every run on a socket that is not a websocket, however binds, closes and completions
   * interleave: what has reached the socket is `Sent`, and what is put off is what the events put
   * off, both functions of the events alone.
   */
  lemma {:induction false} RunSends(es: seq<Event>)
    requires Runs(START, false, es)
    ensures Inv(AfterAll(START, false, es)) && Tracks(AfterAll(START, false, es), es)
    decreases |es|
  {
    hide After, Runs, Inv, Tracks, Kept;
    if es == [] {
      StartTracks();
    } else {
      var init, e := es[..|es| - 1], es[|es| - 1];
      assert es == init + [e];
      RunsSnoc(START, false, init, e);
      RunSends(init);
      EventTracks(AfterAll(START, false, init), init, e);
      EventKeepsInv(AfterAll(START, false, init), e);
      KeptInv(AfterAll(START, false, init), AfterAll(START, false, es), Asked([e]));
    }
  }

  lemma KeptInv(s: State, s': State, asked: seq<string>)
    requires Kept(s, s', asked)
    ensures Inv(s')
  {
  }

  lemma StartTracks()
    ensures AfterAll(START, false, []) == START && Inv(START) && Tracks(START, [])
  {
  }

  /**
   * A call on an idle socket goes straight through: at every point of every run, on either kind of
   * socket, a close or bind that finds no bind in progress reaches the socket at once, and alone.
   */
  lemma IdleCallGoesThrough(webSocket: bool, es: seq<Event>, e: Event)
    requires Runs(START, webSocket, es + [e]) && !e.Bound?
    ensures Runs(START, webSocket, es)
    ensures var s := AfterAll(START, webSocket, es);
            s.bindFinished ==>
              AfterAll(START, webSocket, es + [e]).log
              == s.log + [if e.CloseCall? then Close else Bind(e.address)]
  {
    hide After, Runs, Inv, AfterAll;
    RunsSnoc(START, webSocket, es, e);
    assert (es + [e])[..|es|] == es;
    assert Inv(START) by { StartTracks(); }
    if webSocket {
      WebSocketPassesThrough(START, es);
      WebSocketPassesThrough(START, es + [e]);
    } else {
      RunSends(es);
      RunSends(es + [e]);
    }
  }

  class ZmqSocket {
    const webSocket: bool
    var bindFinished: bool
    var bindQueue: seq<string>
    var shouldClose: bool
    var isClosed: bool
    var log: seq<Call>          // calls made on the underlying socket
    var outstanding: nat        // binds whose callback is still to come

    ghost function Model(): State
      reads this
    {
      State(bindFinished, bindQueue, shouldClose, isClosed, log, outstanding)
    }

    constructor (webSocket: bool)
      ensures Model() == START && Inv(Model()) && this.webSocket == webSocket
    {
      this.webSocket := webSocket;
      bindFinished, bindQueue, shouldClose, isClosed := true, [], false, false;
      log, outstanding := [], 0;
    }

    method Bind(address: string)
      modifies this
      ensures Model() == AfterBind(old(Model()), webSocket, address)
    {
      if isClosed {
        // prints a message
      } else if !bindFinished {
        bindQueue := bindQueue + [address];
      } else if !webSocket {
        bindFinished := false;
        log := log + [Call.Bind(address)];
        outstanding := outstanding + 1;
      } else {
        bindFinished := false;
        log := log + [Call.Bind(address)];
        bindFinished := true;
      }
    }

    /** The completion callback passed to the underlying bind. */
    method OnBound()
      requires outstanding > 0
      modifies this
      ensures Model() == AfterBound(old(Model()), webSocket)
    {
      outstanding := outstanding - 1;
      bindFinished := true;
      if |bindQueue| > 0 {
        var first := bindQueue[0];
        bindQueue := bindQueue[1..];
        Bind(first);
      } else if shouldClose {
        Close();
      }
    }

    method Close()
      modifies this
      ensures Model() == AfterClose(old(Model()))
    {
      if isClosed {
        // prints a message
      } else if !bindFinished {
        shouldClose := true;
      } else {
        shouldClose := false;
        log := log + [Call.Close];
      }
    }
  }
}
