/** The pushdown machine computes exactly what the recursive reader of the format computes. */
module Refinement {
  import opened Bytes
  import opened Values
  import opened Format
  import opened Machine

  /** The machine's lexeme says the same as the leaf. */
  ghost predicate Agrees(l: Lexeme, leaf: Leaf, p: nat)
  {
    match leaf
    case Whole(v, next) => l.Item? && l.v == v && l.p + 1 == next
    case Header(isMap, n, next) => l.Box? && l.isMap == isMap && l.n == n && l.p + 1 == next
    case Short => l.Starved?
    case Forbidden => l.Corrupt? && l.p == p
  }

  function BlobState(kind: BlobKind): nat
  {
    match kind
    case StrBlob => ACS_STR_VALUE
    case BinBlob => ACS_BIN_VALUE
    case ExtBlob => ACS_EXT_VALUE
  }

  /** A body of known size: either absent, or waited for byte by byte. */
  lemma BlobAgrees(data: seq<byte>, p: nat, cs: nat, trail: nat, kind: BlobKind, size: nat)
    requires 1 <= p <= |data|
    ensures Agrees(Act(data, p - 1, cs, trail, AgainOrEmpty(BlobState(kind), size, BlobValue(kind, []))),
                   LeafBlob(data, p, kind, size), p)
  {
    if size == 0 {
      assert data[p..p] == [];
    } else {
      WaitFor(data, p - 1, cs, trail, BlobState(kind), size);
    }
  }

  /** Waiting for `w` bytes behind `p`: short of them, or on to the switch on `cs'`. */
  lemma WaitFor(data: seq<byte>, p: nat, cs: nat, trail: nat, cs': nat, w: nat)
    requires p < |data| && cs' != CS_HEADER && w >= 1
    ensures Act(data, p, cs, trail, Again(cs', w)) ==
      if p + 1 + w > |data| then Starved(cs', w, p + 1)
      else Act(data, p + w, cs', w, TrailAction(cs', data[p + 1..p + 1 + w]))
  {
    assert Act(data, p, cs, trail, Again(cs', w)) == Body(data, p + 1, cs', w);
  }

  lemma NumberSwitch(b: byte, word: seq<byte>)
    requires HeadOf(b).Number?
    ensures HeaderAction(b) == Again(b - 0xc0, HeadOf(b).width)
    ensures |word| == HeadOf(b).width ==> TrailAction(b - 0xc0, word) == Push(NumberValue(HeadOf(b).kind, word))
  {
    assert 0xca <= b <= 0xd3;
  }

  lemma NumberAgrees(data: seq<byte>, p: nat, t: nat)
    requires p < |data| && HeadOf(data[p]).Number?
    ensures Agrees(Scan(data, p, CS_HEADER, t), LeafAt(data, p), p)
  {
    hide HeaderAction, TrailAction, HeadOf;
    var b := data[p];
    var w := HeadOf(b).width;
    NumberSwitch(b, if p + 1 + w > |data| then [] else data[p + 1..p + 1 + w]);
    WaitFor(data, p, CS_HEADER, t, b - 0xc0, w);
  }

  lemma SizedBlobSwitch(b: byte, word: seq<byte>)
    requires HeadOf(b).SizedBlob?
    ensures var head := HeadOf(b);
            && HeaderAction(b) == Again(b - 0xc0, head.width)
            && TrailAction(b - 0xc0, word) ==
               AgainOrEmpty(BlobState(head.blob), BlobSize(head.blob, FromBigEndian(word)), BlobValue(head.blob, []))
  {
    assert 0xc4 <= b <= 0xc9 || 0xd9 <= b <= 0xdb;
  }

  lemma SizedBlobAgrees(data: seq<byte>, p: nat, t: nat)
    requires p < |data| && HeadOf(data[p]).SizedBlob?
    ensures Agrees(Scan(data, p, CS_HEADER, t), LeafAt(data, p), p)
  {
    hide HeaderAction, TrailAction, HeadOf;
    var b := data[p];
    var head := HeadOf(b);
    var w := head.width;
    var word := if p + 1 + w > |data| then [] else data[p + 1..p + 1 + w];
    SizedBlobSwitch(b, word);
    WaitFor(data, p, CS_HEADER, t, b - 0xc0, w);
    if p + 1 + w <= |data| {
      BlobAgrees(data, p + 1 + w, b - 0xc0, w, head.blob, BlobSize(head.blob, FromBigEndian(word)));
    }
  }

  lemma FixedBlobAgrees(data: seq<byte>, p: nat, t: nat)
    requires p < |data| && HeadOf(data[p]).FixedBlob?
    ensures Agrees(Scan(data, p, CS_HEADER, t), LeafAt(data, p), p)
  {
    var b := data[p];
    var head := HeadOf(b);
    assert HeaderAction(b) == AgainOrEmpty(BlobState(head.blob), head.size, BlobValue(head.blob, []));
    BlobAgrees(data, p + 1, CS_HEADER, t, head.blob, head.size);
  }

  lemma BoxSwitch(b: byte, word: seq<byte>)
    requires HeadOf(b).FixedBox? || HeadOf(b).SizedBox?
    ensures var head := HeadOf(b);
            if head.FixedBox? then HeaderAction(b) == Open(head.isMap, head.count)
            else
              && HeaderAction(b) == Again(b - 0xc0, head.width)
              && TrailAction(b - 0xc0, word) == Open(head.isMap, FromBigEndian(word))
  {
    assert 0x80 <= b < 0xa0 || 0xdc <= b <= 0xdf;
  }

  lemma BoxAgrees(data: seq<byte>, p: nat, t: nat)
    requires p < |data| && (HeadOf(data[p]).FixedBox? || HeadOf(data[p]).SizedBox?)
    ensures Agrees(Scan(data, p, CS_HEADER, t), LeafAt(data, p), p)
  {
    hide HeaderAction, TrailAction, HeadOf;
    var b := data[p];
    var head := HeadOf(b);
    if head.FixedBox? {
      BoxSwitch(b, []);
    } else {
      var w := head.width;
      BoxSwitch(b, if p + 1 + w > |data| then [] else data[p + 1..p + 1 + w]);
      WaitFor(data, p, CS_HEADER, t, b - 0xc0, w);
    }
  }

  /** Header byte, length word and body: the two switches agree with the format's table. */
  lemma LeafAgrees(data: seq<byte>, p: nat, t: nat)
    requires p < |data|
    ensures Agrees(Scan(data, p, CS_HEADER, t), LeafAt(data, p), p)
  {
    match HeadOf(data[p])
    case Scalar(_) =>
    case Number(_, _) => NumberAgrees(data, p, t);
    case FixedBlob(_, _) => FixedBlobAgrees(data, p, t);
    case SizedBlob(_, _) => SizedBlobAgrees(data, p, t);
    case FixedBox(_, _) => BoxAgrees(data, p, t);
    case SizedBox(_, _) => BoxAgrees(data, p, t);
    case Reserved =>
  }

  /** How a failed or unfinished read shows in the result of a run. */
  ghost predicate Reports<T>(r: Result, read: Parse<T>)
  {
    match read
    case Ok(_, _) => true
    case More => r.Paused?
    case Bad(at) => r.Failed? && r.code == PARSE_ERROR && r.off == at
    case Deep(at) => r.Failed? && r.code == NOMEM_ERROR && r.off == at
  }

  /** Pushing onto an array's frame: the last item closes it and pushes the array itself. */
  lemma SettleItem(data: seq<byte>, fs: seq<Frame>, done: seq<Value>, cap: nat, n: nat, v: Value,
                   cs: nat, trail: nat, q: nat)
    requires q < |data| && n >= 1
    ensures Settle(data, fs + [Frame(Array(done), cap, n, CT_ARRAY_ITEM, Nil)], v, cs, trail, q) ==
      if n == 1 then Settle(data, fs, Array(done + [v]), cs, trail, q)
      else Run(data, Ctx(CS_HEADER, trail, fs + [Frame(Array(done + [v]), cap, n - 1, CT_ARRAY_ITEM, Nil)]), q + 1)
  {
    hide Run;
    var stack := fs + [Frame(Array(done), cap, n, CT_ARRAY_ITEM, Nil)];
    assert stack[..|stack| - 1] == fs;
  }

  lemma SettleKey(data: seq<byte>, fs: seq<Frame>, done: seq<Pair>, cap: nat, n: nat, key: Value,
                  cs: nat, trail: nat, q: nat)
    requires q < |data|
    ensures Settle(data, fs + [Frame(Map(done), cap, n, CT_MAP_KEY, Nil)], key, cs, trail, q) ==
      Run(data, Ctx(CS_HEADER, trail, fs + [Frame(Map(done), cap, n, CT_MAP_VALUE, key)]), q + 1)
  {
    hide Run;
    var stack := fs + [Frame(Map(done), cap, n, CT_MAP_KEY, Nil)];
    assert stack[..|stack| - 1] == fs;
  }

  lemma SettleMapValue(data: seq<byte>, fs: seq<Frame>, done: seq<Pair>, cap: nat, n: nat, key: Value, v: Value,
                       cs: nat, trail: nat, q: nat)
    requires q < |data| && n >= 1
    ensures var done' := done + [Pair(key, v)];
            Settle(data, fs + [Frame(Map(done), cap, n, CT_MAP_VALUE, key)], v, cs, trail, q) ==
            if n == 1 then Settle(data, fs, Map(done'), cs, trail, q)
            else Run(data, Ctx(CS_HEADER, trail, fs + [Frame(Map(done'), cap, n - 1, CT_MAP_KEY, Nil)]), q + 1)
  {
    hide Run;
    var stack := fs + [Frame(Map(done), cap, n, CT_MAP_VALUE, key)];
    assert stack[..|stack| - 1] == fs;
  }

  /**
   * Simulation, for any stack `fs` below: reading one value pushes that value, at the same
   * offset; a read that ends early ends the run the same way. `cs` and `trail` are what the
   * machine leaves in its two registers.
   */
  lemma {:induction false} ValueRun(data: seq<byte>, p: nat, fs: seq<Frame>, t: nat) returns (cs: nat, trail: nat)
    requires p <= |data| && |fs| <= STACK_SIZE
    ensures var read := ReadValue(data, p, STACK_SIZE - |fs|);
            var run := Run(data, Ctx(CS_HEADER, t, fs), p);
            Reports(run, read) && (read.Ok? ==> run == Settle(data, fs, read.value, cs, trail, read.next - 1))
    decreases |data| - p, 0
  {
    hide HeaderAction, TrailAction, HeadOf, LeafAt, PushValue;
    cs, trail := CS_HEADER, t;
    if p < |data| {
      LeafAgrees(data, p, t);
      var l := Scan(data, p, CS_HEADER, t);
      match l {
        case Starved(_, _, _) =>
        case Corrupt(_, _, _) =>
        case Item(v, cs', trail', q) => cs, trail := cs', trail';
        case Box(isMap, n, cs', trail', q) =>
          cs, trail := BoxRun(data, q, isMap, n, fs, cs', trail');
      }
    }
  }

  lemma NothingToRead(data: seq<byte>, p: nat, room: nat)
    requires p <= |data|
    ensures ReadItems(data, p, 0, room) == Ok([], p) && ReadPairs(data, p, 0, room) == Ok([], p)
  {
  }

  /** The same from a container header whose last byte is at `q`. */
  lemma {:induction false} BoxRun(data: seq<byte>, q: nat, isMap: bool, n: nat, fs: seq<Frame>, cs0: nat, t: nat)
    returns (cs: nat, trail: nat)
    requires q < |data| && |fs| <= STACK_SIZE
    ensures var read := ReadBox(data, q + 1, isMap, n, STACK_SIZE - |fs|);
            var run := Start(data, fs, isMap, n, cs0, t, q);
            Reports(run, read) && (read.Ok? ==> run == Settle(data, fs, read.value, cs, trail, read.next - 1))
    decreases |data| - q - 1, 2
  {
    hide PushValue, Scan, LeafAt, Run, Settle, ReadValue, ReadItems, ReadPairs;
    cs, trail := cs0, t;
    StartCases(data, fs, isMap, n, cs0, t, q);
    if |fs| < STACK_SIZE {
      var room := STACK_SIZE - |fs| - 1;
      if isMap {
        var read := ReadPairs(data, q + 1, n, room);
        if n == 0 {
          NothingToRead(data, q + 1, room);
        } else {
          cs, trail := PairsRun(data, q + 1, n, fs, [], n, t);
          assert read.Ok? ==> [] + read.value == read.value;
        }
      } else {
        var read := ReadItems(data, q + 1, n, room);
        if n == 0 {
          NothingToRead(data, q + 1, room);
        } else {
          cs, trail := ItemsRun(data, q + 1, n, fs, [], n, t);
          assert read.Ok? ==> [] + read.value == read.value;
        }
      }
    }
  }

  /** The same for the `n` items an open array still waits for, `done` of them collected. */
  lemma {:induction false} ItemsRun(data: seq<byte>, p: nat, n: nat, fs: seq<Frame>, done: seq<Value>,
                                    cap: nat, t: nat)
    returns (cs: nat, trail: nat)
    requires p <= |data| && |fs| < STACK_SIZE && n >= 1
    ensures var read := ReadItems(data, p, n, STACK_SIZE - |fs| - 1);
            var top := Frame(Array(done), cap, n, CT_ARRAY_ITEM, Nil);
            var run := Run(data, Ctx(CS_HEADER, t, fs + [top]), p);
            Reports(run, read) &&
            (read.Ok? ==> p < read.next && run == Settle(data, fs, Array(done + read.value), cs, trail, read.next - 1))
    decreases |data| - p, 1
  {
    hide HeaderAction, TrailAction, HeadOf, LeafAt, PushValue, Scan, Run, ReadValue, Settle;
    var stack := fs + [Frame(Array(done), cap, n, CT_ARRAY_ITEM, Nil)];
    cs, trail := ValueRun(data, p, stack, t);
    var read := ReadValue(data, p, STACK_SIZE - |stack|);
    if read.Ok? {
      SettleItem(data, fs, done, cap, n, read.value, cs, trail, read.next - 1);
      var done' := done + [read.value];
      if n == 1 {
        assert done' == done + ([read.value] + []);
      } else {
        cs, trail := ItemsRun(data, read.next, n - 1, fs, done', cap, trail);
        var rest := ReadItems(data, read.next, n - 1, STACK_SIZE - |stack|);
        if rest.Ok? {
          assert done' + rest.value == done + ([read.value] + rest.value);
        }
      }
    }
  }

  /** The reader of `n` pairs, the first key of which has been read. */
  function ReadAfterKey(data: seq<byte>, p: nat, n: nat, key: Value, room: nat): (r: Parse<seq<Pair>>)
    requires p <= |data| && n >= 1
    ensures r.Ok? ==> p < r.next <= |data|
  {
    var (v, q) :- ReadValue(data, p, room);
    var (rest, q') :- ReadPairs(data, q, n - 1, room);
    Ok([Pair(key, v)] + rest, q')
  }

  lemma KeyFirst(data: seq<byte>, p: nat, n: nat, room: nat)
    requires p <= |data| && n >= 1
    ensures var key := ReadValue(data, p, room);
            ReadPairs(data, p, n, room) ==
            if key.Ok? then ReadAfterKey(data, key.next, n, key.value, room) else key.PropagateFailure()
  {
    hide ReadValue;
  }

  /** The same for the `n` pairs an open map still waits for, with a key due next. */
  lemma {:induction false} PairsRun(data: seq<byte>, p: nat, n: nat, fs: seq<Frame>, done: seq<Pair>,
                                    cap: nat, t: nat)
    returns (cs: nat, trail: nat)
    requires p <= |data| && |fs| < STACK_SIZE && n >= 1
    ensures var read := ReadPairs(data, p, n, STACK_SIZE - |fs| - 1);
            var top := Frame(Map(done), cap, n, CT_MAP_KEY, Nil);
            var run := Run(data, Ctx(CS_HEADER, t, fs + [top]), p);
            Reports(run, read) &&
            (read.Ok? ==> p < read.next && run == Settle(data, fs, Map(done + read.value), cs, trail, read.next - 1))
    decreases |data| - p, 1
  {
    hide HeaderAction, TrailAction, LeafAt, PushValue, Scan, Run, ReadValue, ReadPairs, ReadAfterKey, Settle;
    var stack := fs + [Frame(Map(done), cap, n, CT_MAP_KEY, Nil)];
    KeyFirst(data, p, n, STACK_SIZE - |stack|);
    cs, trail := ValueRun(data, p, stack, t);
    var key := ReadValue(data, p, STACK_SIZE - |stack|);
    if key.Ok? {
      SettleKey(data, fs, done, cap, n, key.value, cs, trail, key.next - 1);
      cs, trail := AfterKeyRun(data, key.next, n, fs, done, cap, key.value, trail);
    }
  }

  /** The same with the key in, and its value due next. */
  lemma {:induction false} AfterKeyRun(data: seq<byte>, p: nat, n: nat, fs: seq<Frame>, done: seq<Pair>,
                                       cap: nat, key: Value, t: nat)
    returns (cs: nat, trail: nat)
    requires p <= |data| && |fs| < STACK_SIZE && n >= 1
    ensures var read := ReadAfterKey(data, p, n, key, STACK_SIZE - |fs| - 1);
            var top := Frame(Map(done), cap, n, CT_MAP_VALUE, key);
            var run := Run(data, Ctx(CS_HEADER, t, fs + [top]), p);
            Reports(run, read) &&
            (read.Ok? ==> run == Settle(data, fs, Map(done + read.value), cs, trail, read.next - 1))
    decreases |data| - p, 1
  {
    hide HeaderAction, TrailAction, LeafAt, PushValue, Scan, Run, ReadValue, ReadPairs, Settle;
    var stack := fs + [Frame(Map(done), cap, n, CT_MAP_VALUE, key)];
    cs, trail := ValueRun(data, p, stack, t);
    var val := ReadValue(data, p, STACK_SIZE - |stack|);
    if val.Ok? {
      SettleMapValue(data, fs, done, cap, n, key, val.value, cs, trail, val.next - 1);
      var pair := Pair(key, val.value);
      if n == 1 {
        NothingToRead(data, val.next, STACK_SIZE - |stack|);
        assert done + [pair] == done + ([pair] + []);
      } else {
        cs, trail := PairsRun(data, val.next, n - 1, fs, done + [pair], cap, trail);
        var rest := ReadPairs(data, val.next, n - 1, STACK_SIZE - |stack|);
        if rest.Ok? {
          assert done + [pair] + rest.value == done + ([pair] + rest.value);
        }
      }
    }
  }

  /**
   * Refinement. From a fresh context a run finishes with `v` at offset `q` exactly when the
   * format's reader reads `v` up to `q` with at most 32 containers on a path; it pauses exactly
   * when the reader runs out of bytes, reports PARSE_ERROR exactly at a 0xc1 and NOMEM_ERROR
   * exactly at the header that would open a 33rd container.
   */
  lemma RunIsRead(data: seq<byte>, p: nat)
    requires p <= |data|
    ensures var run := Run(data, FRESH, p);
            var read := ReadValue(data, p, 32);
            && (forall v, q :: run.Finished? && run.v == v && run.off == q <==> read == Ok(v, q))
            && (run.Paused? <==> read.More?)
            && (forall q :: run.Failed? && run.code == PARSE_ERROR && run.off == q <==> read == Bad(q))
            && (forall q :: run.Failed? && run.code == NOMEM_ERROR && run.off == q <==> read == Deep(q))
  {
    var cs, trail := ValueRun(data, p, [], 0);
  }

  /** The codes a caller gets: 1 for a value, 0 for too few bytes, -1 for a 0xc1, -2 for too deep. */
  lemma ReturnCodes(data: seq<byte>, p: nat)
    requires p <= |data|
    ensures var code := Code(Run(data, FRESH, p));
            var read := ReadValue(data, p, 32);
            && (code == 1 <==> read.Ok?) && (code == 0 <==> read.More?)
            && (code == -1 <==> read.Bad?) && (code == -2 <==> read.Deep?)
  {
    hide Run, ReadValue;
    RunIsRead(data, p);
  }

  /** Result code, value and offset: everything a caller sees but the saved registers. */
  ghost predicate SameOutcome(a: Result, b: Result)
  {
    match (a, b)
    case (Finished(v, _, p), Finished(w, _, q)) => v == w && p == q
    case (Paused(_, p), Paused(_, q)) => true
    case (Failed(c, _, p), Failed(d, _, q)) => c == d && p == q
    case _ => false
  }

  /** Whatever an earlier value left in `trail`, decoding from the header state is decoding afresh. */
  lemma HeaderStateIsFresh(data: seq<byte>, p: nat, t: nat)
    requires p <= |data|
    ensures SameOutcome(Run(data, Ctx(CS_HEADER, t, []), p), Run(data, FRESH, p))
  {
    var _, _ := ValueRun(data, p, [], t);
    var _, _ := ValueRun(data, p, [], 0);
  }

  /**
   * But finishing does not reset `cs`. After an eight-bit integer, going on without `_init` takes
   * the header of the next value for the body of another integer.
   */
  lemma FinishLeavesStaleState()
    ensures var first := Run([0xcc, 0x80, 0xc0], FRESH, 0);
            && first == Finished(Int(0x80), Ctx(CS_UINT_8, 1, []), 2)
            && Run([0xcc, 0x80, 0xc0], first.ctx, 2) == Finished(Int(0xc0), Ctx(CS_UINT_8, 1, []), 3)
            && Run([0xcc, 0x80, 0xc0], FRESH, 2) == Finished(Nil, FRESH, 3)
  {
    var data: seq<byte> := [0xcc, 0x80, 0xc0];
    assert data[1..2] == [0x80] && data[2..3] == [0xc0];
    assert FromBigEndian([0x80]) == 0x80 && FromBigEndian([0xc0]) == 0xc0;
    WaitFor(data, 0, CS_HEADER, 0, CS_UINT_8, 1);
    assert Scan(data, 0, CS_HEADER, 0) == Item(Int(0x80), CS_UINT_8, 1, 1);
    assert Scan(data, 2, CS_UINT_8, 1) == Item(Int(0xc0), CS_UINT_8, 1, 2);
  }
}
