/** The sorted-list priority queue of scheduled blocks. */
module PriorityQueue {
  import opened Options

  /** A scheduled block; blocks compare by time alone. */
  datatype Block = Block(time: int, id: nat)

  ghost predicate Sorted(s: seq<Block>)
  {
    forall i, j :: 0 <= i < j < |s| ==> s[i].time <= s[j].time
  }

  /** `s'` is `s` with `e` put in somewhere. */
  ghost predicate Inserts(s: seq<Block>, e: Block, s': seq<Block>)
  {
    exists k :: 0 <= k <= |s| && s' == s[..k] + [e] + s[k..]
  }

  lemma InsertSorted(s: seq<Block>, k: nat, e: Block)
    requires Sorted(s) && k <= |s|
    requires forall i :: 0 <= i < k ==> s[i].time <= e.time
    requires forall i :: k <= i < |s| ==> s[i].time >= e.time
    ensures Sorted(s[..k] + [e] + s[k..]) && Inserts(s, e, s[..k] + [e] + s[k..])
  {
    var s' := s[..k] + [e] + s[k..];
    forall i, j | 0 <= i < j < |s'|
      ensures s'[i].time <= s'[j].time
    {
      assert i != k && j != k ==> s[if i < k then i else i - 1].time <= s[if j < k then j else j - 1].time;
    }
  }

  datatype Op = Add(e: Block) | Poll(r: Option<Block>)

  /** One operation; polling an empty queue throws, which `None` stands for. */
  ghost predicate QueueStep(s: seq<Block>, op: Op, s': seq<Block>)
  {
    match op
    case Add(e) => Inserts(s, e, s') && Sorted(s')
    case Poll(None) => s == [] && s' == []
    case Poll(Some(b)) => s != [] && b == s[0] && s' == s[1..]
  }

  class PriorityQueue {
    var naiveList: seq<Block>

    constructor ()
      ensures naiveList == []
    {
      naiveList := [];
    }

    method IsNotEmpty() returns (b: bool)
      ensures b <==> naiveList != []
    {
      b := |naiveList| > 0;
    }

    method Poll() returns (r: Option<Block>)
      modifies this
      ensures QueueStep(old(naiveList), Op.Poll(r), naiveList)
    {
      if naiveList == [] { return None; }
      r := Some(naiveList[0]);
      naiveList := naiveList[1..];
    }

    method Peek() returns (r: Option<Block>)
      ensures r == if naiveList == [] then None else Some(naiveList[0])
    {
      if naiveList == [] { return None; }
      r := Some(naiveList[0]);
    }

    /** The library's binary search: an index of an equal element, or minus the insertion point minus 1. */
    method BinarySearch(element: Block) returns (idx: int)
      requires Sorted(naiveList)
      ensures idx >= 0 ==> idx < |naiveList| && naiveList[idx].time == element.time
      ensures idx < 0 ==>
                && 0 <= -idx - 1 <= |naiveList|
                && (forall i :: 0 <= i < -idx - 1 ==> naiveList[i].time < element.time)
                && (forall i :: -idx - 1 <= i < |naiveList| ==> naiveList[i].time > element.time)
    {
      var low, high := 0, |naiveList| - 1;
      while low <= high
        invariant 0 <= low <= high + 1 <= |naiveList|
        invariant forall i :: 0 <= i < low ==> naiveList[i].time < element.time
        invariant forall i :: high < i < |naiveList| ==> naiveList[i].time > element.time
        decreases high - low
      {
        var mid := (low + high) / 2;
        if naiveList[mid].time < element.time {
          low := mid + 1;
        } else if naiveList[mid].time > element.time {
          high := mid - 1;
        } else {
          return mid;
        }
      }
      idx := -(low + 1);
    }

    method Add(element: Block)
      requires Sorted(naiveList)
      modifies this
      ensures QueueStep(old(naiveList), Op.Add(element), naiveList)
    {
      var idx := BinarySearch(element);
      if idx < 0 { idx := -idx - 1; }
      InsertSorted(naiveList, idx, element);
      naiveList := naiveList[..idx] + [element] + naiveList[idx..];
    }
  }

  function Added(ops: seq<Op>): multiset<Block>
  {
    if ops == [] then multiset{}
    else
      var last := ops[|ops| - 1];
      Added(ops[..|ops| - 1]) + if last.Add? then multiset{last.e} else multiset{}
  }

  function Polled(ops: seq<Op>): multiset<Block>
  {
    if ops == [] then multiset{}
    else
      var last := ops[|ops| - 1];
      Polled(ops[..|ops| - 1]) + if last.Poll? && last.r.Some? then multiset{last.r.value} else multiset{}
  }

  ghost predicate IsRun(states: seq<seq<Block>>, ops: seq<Op>)
  {
    |states| == |ops| + 1 && states[0] == [] &&
    forall i :: 0 <= i < |ops| ==> QueueStep(states[i], ops[i], states[i + 1])
  }

  /**
   * A multiset with extract-min: after every run from empty the list is sorted and holds exactly
   * what was added and not polled.
   */
  lemma {:induction false} RefinesMultiset(states: seq<seq<Block>>, ops: seq<Op>)
    requires IsRun(states, ops)
    ensures Sorted(states[|ops|]) && multiset(states[|ops|]) + Polled(ops) == Added(ops)
    decreases |ops|
  {
    hide Sorted, Inserts;
    if ops == [] {
      EmptySorted();
    } else {
      var n := |ops| - 1;
      var init := states[..|states| - 1];
      assert forall i :: 0 <= i < |init| ==> init[i] == states[i];
      RefinesMultiset(init, ops[..n]);
      StepKeeps(states[n], ops[n], states[n + 1]);
    }
  }

  lemma EmptySorted()
    ensures Sorted([])
  {
  }

  /** At every point of every run a poll gives a least element of what is there, if anything is. */
  lemma PollGivesLeast(states: seq<seq<Block>>, ops: seq<Op>, i: nat)
    requires IsRun(states, ops) && i < |ops| && ops[i].Poll?
    ensures ops[i].r.Some? <==> states[i] != []
    ensures ops[i].r.Some? ==> ops[i].r.value in states[i]
    ensures forall x :: x in states[i] ==> ops[i].r.Some? && ops[i].r.value.time <= x.time
  {
    var init := states[..i + 1];
    assert forall j :: 0 <= j < |init| ==> init[j] == states[j];
    RefinesMultiset(init, ops[..i]);
    assert Sorted(states[i]) && QueueStep(states[i], ops[i], states[i + 1]);
  }

  lemma StepKeeps(s: seq<Block>, op: Op, s': seq<Block>)
    requires Sorted(s) && QueueStep(s, op, s')
    ensures Sorted(s')
    ensures op.Add? ==> multiset(s') == multiset(s) + multiset{op.e}
    ensures op.Poll? && op.r.Some? ==> multiset(s) == multiset(s') + multiset{op.r.value}
    ensures op.Poll? && op.r == None ==> s' == s
  {
    match op
    case Add(e) => InsertAddsOne(s, e, s');
    case Poll(None) =>
    case Poll(Some(b)) => assert s == [b] + s';
  }

  lemma InsertAddsOne(s: seq<Block>, e: Block, s': seq<Block>)
    requires Inserts(s, e, s')
    ensures multiset(s') == multiset(s) + multiset{e}
  {
    var k :| 0 <= k <= |s| && s' == s[..k] + [e] + s[k..];
    assert s == s[..k] + s[k..];
  }
}
