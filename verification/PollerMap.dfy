/**
 * The JVM loop's sockets: the address map and the poller. A socket is registered by its raw
 * handle but unregistered by its wrapper object (ClientLoopScope.kt:26 and 37), which the poller,
 * keyed by object identity, does not know.
 */
module PollerMap {

  /** Objects the poller is asked about: the raw handle of socket `id`, or the wrapper around it. */
  datatype Key = Raw(id: nat) | Wrapper(id: nat)

  const PONG: nat := 0

  /** Socket ids are given out in order; 0 is the pong socket. */
  datatype State = State(forwardSockets: map<string, nat>, poller: set<Key>, closed: set<nat>, created: nat,
                         sent: seq<(string, nat)>)

  const START: State := State(map[], {Raw(PONG)}, {}, 0, [])

  datatype Op = SendMessage(address: string) | Remove(address: string)

  function AfterSend(s: State, address: string): State
  {
    if address in s.forwardSockets then s.(sent := s.sent + [(address, s.forwardSockets[address])])
    else
      var id := s.created + 1;
      s.(forwardSockets := s.forwardSockets[address := id], poller := s.poller + {Raw(id)}, created := id,
         sent := s.sent + [(address, id)])
  }

  function AfterRemove(s: State, address: string): State
  {
    if address !in s.forwardSockets then s
    else
      var id := s.forwardSockets[address];
      s.(forwardSockets := s.forwardSockets - {address}, poller := s.poller - {Wrapper(id)}, closed := s.closed + {id})
  }

  function After(s: State, op: Op): State
  {
    match op
    case SendMessage(address) => AfterSend(s, address)
    case Remove(address) => AfterRemove(s, address)
  }

  function AfterAll(ops: seq<Op>): State
  {
    if ops == [] then START else After(AfterAll(ops[..|ops| - 1]), ops[|ops| - 1])
  }

  /** Socket `id` is the socket of some address. */
  ghost predicate Mapped(s: State, id: nat)
  {
    exists a :: a in s.forwardSockets && s.forwardSockets[a] == id
  }

  /** Mapped sockets exist and are open. */
  ghost predicate MappedOpen(s: State)
  {
    && (forall a :: a in s.forwardSockets ==> 1 <= s.forwardSockets[a] <= s.created && s.forwardSockets[a] !in s.closed)
    && (forall id :: id in s.closed ==> 1 <= id <= s.created)
  }

  /** A socket belongs to one address. */
  ghost predicate OneOwner(s: State)
  {
    forall a, b :: a in s.forwardSockets && b in s.forwardSockets && s.forwardSockets[a] == s.forwardSockets[b]
      ==> a == b
  }

  /** A socket that is not closed is mapped, and the counts agree. */
  ghost predicate Accounted(s: State)
  {
    && (forall id :: 1 <= id <= s.created && id !in s.closed ==> Mapped(s, id))
    && s.created == |s.forwardSockets| + |s.closed|
  }

  /** Every socket created stays registered by its raw handle. */
  ghost predicate AllRegistered(s: State)
  {
    forall k :: k in s.poller <==> k.Raw? && k.id <= s.created
  }

  ghost predicate Inv(s: State)
  {
    MappedOpen(s) && OneOwner(s) && Accounted(s) && AllRegistered(s)
  }

  lemma SendKeepsMap(s: State, address: string)
    requires MappedOpen(s) && OneOwner(s)
    ensures MappedOpen(AfterSend(s, address)) && OneOwner(AfterSend(s, address))
  {
  }

  lemma SendKeepsAccount(s: State, address: string)
    requires MappedOpen(s) && Accounted(s)
    ensures Accounted(AfterSend(s, address))
  {
    var s' := AfterSend(s, address);
    if address !in s.forwardSockets {
      forall id | 1 <= id <= s'.created && id !in s'.closed
        ensures Mapped(s', id)
      {
        if id == s'.created {
          assert s'.forwardSockets[address] == id;
        } else {
          var a :| a in s.forwardSockets && s.forwardSockets[a] == id;
          assert a in s'.forwardSockets && s'.forwardSockets[a] == id;
        }
      }
    } else {
      forall id | Mapped(s, id)
        ensures Mapped(s', id)
      {
        var a :| a in s.forwardSockets && s.forwardSockets[a] == id;
        assert a in s'.forwardSockets && s'.forwardSockets[a] == id;
      }
    }
  }

  lemma SendKeepsRegistered(s: State, address: string)
    requires AllRegistered(s)
    ensures AllRegistered(AfterSend(s, address))
  {
  }

  lemma SendKeepsInv(s: State, address: string)
    requires Inv(s)
    ensures Inv(AfterSend(s, address))
  {
    hide AfterSend, MappedOpen, OneOwner, Accounted, AllRegistered;
    SendKeepsMap(s, address);
    SendKeepsAccount(s, address);
    SendKeepsRegistered(s, address);
  }

  lemma RemoveKeepsMap(s: State, address: string)
    requires MappedOpen(s) && OneOwner(s)
    ensures MappedOpen(AfterRemove(s, address)) && OneOwner(AfterRemove(s, address))
  {
  }

  lemma RemoveKeepsAccount(s: State, address: string)
    requires MappedOpen(s) && Accounted(s)
    ensures Accounted(AfterRemove(s, address))
  {
    hide MappedOpen;
    var s' := AfterRemove(s, address);
    forall id | 1 <= id <= s'.created && id !in s'.closed
      ensures Mapped(s', id)
    {
      var a :| a in s.forwardSockets && s.forwardSockets[a] == id;
      assert a in s'.forwardSockets && s'.forwardSockets[a] == id;
    }
    if address in s.forwardSockets {
      OneFewer(s.forwardSockets, address);
      assert s.forwardSockets[address] !in s.closed by { OpenSocket(s, address); }
    }
  }

  lemma OpenSocket(s: State, address: string)
    requires MappedOpen(s) && address in s.forwardSockets
    ensures s.forwardSockets[address] !in s.closed
  {
  }

  lemma OneFewer<K, V>(m: map<K, V>, k: K)
    requires k in m
    ensures |m - {k}| == |m| - 1
  {
    assert m.Keys == (m - {k}).Keys + {k};
  }

  lemma RemoveKeepsRegistered(s: State, address: string)
    requires AllRegistered(s)
    ensures AllRegistered(AfterRemove(s, address))
  {
  }

  lemma RemoveKeepsInv(s: State, address: string)
    requires Inv(s)
    ensures Inv(AfterRemove(s, address))
  {
    hide AfterRemove, MappedOpen, OneOwner, Accounted, AllRegistered;
    RemoveKeepsMap(s, address);
    RemoveKeepsAccount(s, address);
    RemoveKeepsRegistered(s, address);
  }

  /** An operation that closes a socket. */
  ghost predicate Closes(ops: seq<Op>, i: nat)
    requires i < |ops|
  {
    ops[i].Remove? && ops[i].address in AfterAll(ops[..i]).forwardSockets
  }

  lemma StartInv()
    ensures Inv(START)
  {
  }

  /**
   * After any run of sends and removes: each mapped socket is open and belongs to one address,
   * and the sockets created less those closed are as many as the map's entries.
   */
  lemma {:induction false} SocketsAccountedFor(ops: seq<Op>)
    ensures Inv(AfterAll(ops))
    ensures AfterAll(ops).closed == {} <==> forall i :: 0 <= i < |ops| ==> !Closes(ops, i)
    decreases |ops|
  {
    hide Inv;
    if ops == [] {
      StartInv();
    } else {
      var n := |ops| - 1;
      var init := ops[..n];
      SocketsAccountedFor(init);
      match ops[n] {
        case SendMessage(a) => SendKeepsInv(AfterAll(init), a);
        case Remove(a) => RemoveKeepsInv(AfterAll(init), a);
      }
      forall i | 0 <= i < n
        ensures Closes(ops, i) == Closes(init, i)
      {
        assert init[..i] == ops[..i] && init[i] == ops[i];
      }
      assert Closes(ops, n) <==> ops[n].Remove? && ops[n].address in AfterAll(init).forwardSockets;
    }
  }

  /** The poller watches the pong socket and the mapped sockets, and nothing else. */
  ghost predicate PollerAgrees(s: State)
  {
    forall k :: k in s.poller <==> k == Raw(PONG) || (k.Raw? && Mapped(s, k.id))
  }

  /**
   * The poller agrees with the map exactly as long as no remove has found its address in the
   * map: each one that does leaves a closed socket registered for good.
   */
  lemma PollerAgreesExactly(ops: seq<Op>)
    ensures PollerAgrees(AfterAll(ops)) <==> forall i :: 0 <= i < |ops| ==> !Closes(ops, i)
  {
    var s := AfterAll(ops);
    SocketsAccountedFor(ops);
    if s.closed == {} {
      forall k
        ensures k in s.poller <==> k == Raw(PONG) || (k.Raw? && Mapped(s, k.id))
      {
        if k in s.poller && k.id != PONG {
          assert 1 <= k.id <= s.created;
        }
      }
    } else {
      var id :| id in s.closed;
      assert Raw(id) in s.poller && id != PONG && !Mapped(s, id);
    }
  }

  /** One send and one remove are enough to break the agreement. */
  lemma RemoveLeavesRegistration(address: string)
    ensures var s := AfterAll([SendMessage(address), Remove(address)]);
            s.forwardSockets == map[] && s.closed == {1} && Raw(1) in s.poller && !PollerAgrees(s)
  {
    var ops := [SendMessage(address), Remove(address)];
    assert ops[..1] == [SendMessage(address)] && ops[..1][..0] == [];
    var s := AfterAll(ops);
    assert AfterAll(ops[..1]) == After(AfterAll([]), ops[0]);
    assert AfterAll([]) == START;
    assert s == After(AfterAll(ops[..1]), ops[1]);
    assert s.forwardSockets == map[];
    assert !Mapped(s, 1);
  }

  /** Until an address is removed, every message to it goes out on the socket of the first. */
  lemma {:induction false} SendsReuseSocket(ops: seq<Op>, i: nat, address: string)
    requires i <= |ops| && address in AfterAll(ops[..i]).forwardSockets
    requires forall j :: i <= j < |ops| ==> ops[j] != Remove(address)
    ensures address in AfterAll(ops).forwardSockets
    ensures AfterAll(ops).forwardSockets[address] == AfterAll(ops[..i]).forwardSockets[address]
    ensures AfterSend(AfterAll(ops), address).sent
            == AfterAll(ops).sent + [(address, AfterAll(ops[..i]).forwardSockets[address])]
    decreases |ops|
  {
    if i == |ops| {
      assert ops[..i] == ops;
    } else {
      var init := ops[..|ops| - 1];
      assert init[..i] == ops[..i];
      SendsReuseSocket(init, i, address);
    }
  }

  /**
   * A send always sends: whether or not the address had a socket, it has one afterwards, and the
   * message goes out on it, behind everything sent before.
   */
  lemma SendGoesOut(ops: seq<Op>, address: string)
    ensures var (s, s') := (AfterAll(ops), AfterAll(ops + [SendMessage(address)]));
            && address in s'.forwardSockets
            && s'.sent == s.sent + [(address, s'.forwardSockets[address])]
            && s'.created == if address in s.forwardSockets then s.created else s'.forwardSockets[address]
  {
    assert (ops + [SendMessage(address)])[..|ops|] == ops;
  }

  /** The addresses that messages were asked to be sent to, and those they went out to. */
  function Sends(ops: seq<Op>): seq<string>
  {
    if ops == [] then []
    else Sends(ops[..|ops| - 1]) + if ops[|ops| - 1].SendMessage? then [ops[|ops| - 1].address] else []
  }

  function Addressees(sent: seq<(string, nat)>): seq<string>
  {
    if sent == [] then [] else Addressees(sent[..|sent| - 1]) + [sent[|sent| - 1].0]
  }

  /** Over every run, the messages that went out are those asked for, in order. */
  lemma {:induction false} EverySendGoesOut(ops: seq<Op>)
    ensures Addressees(AfterAll(ops).sent) == Sends(ops)
    decreases |ops|
  {
    if ops != [] {
      var init := ops[..|ops| - 1];
      EverySendGoesOut(init);
      var (before, after) := (AfterAll(init).sent, AfterAll(ops).sent);
      if ops[|ops| - 1].SendMessage? {
        assert after[..|after| - 1] == before;
      }
    }
  }

  /** The last operation on the address was a send. */
  ghost predicate LastIsSend(ops: seq<Op>, address: string)
  {
    exists i :: 0 <= i < |ops| && ops[i] == SendMessage(address) &&
                forall j :: i < j < |ops| ==> ops[j] != Remove(address)
  }

  /** After every run an address has a socket exactly if it has been sent to since its last removal. */
  lemma {:induction false} MappedExactly(ops: seq<Op>, address: string)
    ensures address in AfterAll(ops).forwardSockets <==> LastIsSend(ops, address)
    decreases |ops|
  {
    if ops != [] {
      var init, last := ops[..|ops| - 1], ops[|ops| - 1];
      MappedExactly(init, address);
      LastIsSendStep(init, last, address);
      assert ops == init + [last];
    }
  }

  lemma LastIsSendStep(ops: seq<Op>, op: Op, address: string)
    ensures LastIsSend(ops + [op], address) <==>
              op == SendMessage(address) || (op != Remove(address) && LastIsSend(ops, address))
  {
    var all := ops + [op];
    if op == SendMessage(address) {
      assert all[|ops|] == op;
    } else if LastIsSend(all, address) {
      var i :| 0 <= i < |all| && all[i] == SendMessage(address) &&
               forall j :: i < j < |all| ==> all[j] != Remove(address);
      assert all[|ops|] == op && all[i] == ops[i];
      assert forall j :: i < j < |ops| ==> ops[j] == all[j];
    } else if LastIsSend(ops, address) {
      var i :| 0 <= i < |ops| && ops[i] == SendMessage(address) &&
               forall j :: i < j < |ops| ==> ops[j] != Remove(address);
      assert all[i] == ops[i] && forall j :: i < j < |all| ==> all[j] == if j < |ops| then ops[j] else op;
    }
  }

  class ClientLoopScope {
    var forwardSockets: map<string, nat>
    var poller: set<Key>
    var closed: set<nat>
    var created: nat
    var sent: seq<(string, nat)>

    ghost function Model(): State
      reads this
    {
      State(forwardSockets, poller, closed, created, sent)
    }

    constructor ()
      ensures Model() == START
    {
      forwardSockets, poller, closed, created, sent := map[], {Raw(PONG)}, {}, 0, [];
    }

    method SendMessage(address: string)
      modifies this
      ensures Model() == AfterSend(old(Model()), address)
    {
      var socket;
      if address in forwardSockets {
        socket := forwardSockets[address];
      } else {
        created := created + 1;
        socket := created;
        forwardSockets := forwardSockets[address := socket];
        poller := poller + {Raw(socket)};
      }
      sent := sent + [(address, socket)];
    }

    method Remove(address: string)
      modifies this
      ensures Model() == AfterRemove(old(Model()), address)
    {
      if address in forwardSockets {
        var it := forwardSockets[address];
        forwardSockets := forwardSockets - {address};
        poller := poller - {Wrapper(it)};
        closed := closed + {it};
      }
    }
  }
}
