/**
 * The decoder's control, as a function. `_execute` is a resumable pushdown machine: `cs` and
 * `trail` say what it is waiting for, and a stack of frames holds the containers still open.
 * `Run` is what one call computes; `UnpackContext.Context.Execute` is proved to compute it.
 */
module Machine {
  import opened Bytes
  import opened Values

  // unpack_define.h:24-83
  const STACK_SIZE: nat := 32

  const CS_HEADER: nat := 0x00
  const CS_BIN_8: nat := 0x04
  const CS_BIN_16: nat := 0x05
  const CS_BIN_32: nat := 0x06
  const CS_EXT_8: nat := 0x07
  const CS_EXT_16: nat := 0x08
  const CS_EXT_32: nat := 0x09
  const CS_FLOAT: nat := 0x0a
  const CS_DOUBLE: nat := 0x0b
  const CS_UINT_8: nat := 0x0c
  const CS_UINT_16: nat := 0x0d
  const CS_UINT_32: nat := 0x0e
  const CS_UINT_64: nat := 0x0f
  const CS_INT_8: nat := 0x10
  const CS_INT_16: nat := 0x11
  const CS_INT_32: nat := 0x12
  const CS_INT_64: nat := 0x13
  const CS_FIXEXT_1: nat := 0x14
  const CS_FIXEXT_2: nat := 0x15
  const CS_FIXEXT_4: nat := 0x16
  const CS_FIXEXT_8: nat := 0x17
  const CS_FIXEXT_16: nat := 0x18
  const CS_STR_8: nat := 0x19
  const CS_STR_16: nat := 0x1a
  const CS_STR_32: nat := 0x1b
  const CS_ARRAY_16: nat := 0x1c
  const CS_ARRAY_32: nat := 0x1d
  const CS_MAP_16: nat := 0x1e
  const CS_MAP_32: nat := 0x1f
  const ACS_STR_VALUE: nat := 0x20
  const ACS_BIN_VALUE: nat := 0x21
  const ACS_EXT_VALUE: nat := 0x22

  const CT_ARRAY_ITEM: nat := 0
  const CT_MAP_KEY: nat := 1
  const CT_MAP_VALUE: nat := 2

  const PARSE_ERROR: int := -1
  const NOMEM_ERROR: int := -2

  /** Where a branch of the two switches jumps to. */
  datatype Action =
    | Again(cs: nat, trail: nat)       // goto _fixed_trail_again, waiting for `trail` more bytes
    | Push(v: Value)                   // goto _push
    | PushEmpty(v: Value)              // trail = 0, then goto _str_zero, _bin_zero or _ext_zero
    | Open(isMap: bool, n: nat)        // start_container
    | Error                            // PARSE_ERROR, goto _failed

  function AgainOrEmpty(cs: nat, trail: nat, v: Value): Action
  {
    if trail == 0 then PushEmpty(v) else Again(cs, trail)
  }

  /** `1 << k` for the shift amounts that occur. */
  function Shl1(k: nat): nat
  {
    if k == 0 then 1 else if k == 1 then 2 else if k == 2 then 4 else 8
  }

  /** NEXT_CS: the five low bits of the header. */
  function NextCs(b: byte): nat
  {
    b % 32
  }

  /** The switch on the header byte (unpack_template.h:172-239). */
  function HeaderAction(b: byte): (a: Action)
    ensures a.Again? ==> a.cs != CS_HEADER && 1 <= a.trail < TWO_32
  {
    if b <= 0x7f then Push(Int(b))
    else if 0xe0 <= b then Push(Int(b - 0x100))
    else if 0xc0 <= b then
      if b == 0xc0 then Push(Nil)
      else if b == 0xc2 then Push(Bool(false))
      else if b == 0xc3 then Push(Bool(true))
      else if 0xc4 <= b <= 0xc6 then Again(NextCs(b), Shl1(b % 4))
      else if 0xc7 <= b <= 0xc9 then Again(NextCs(b), Shl1((b + 1) % 4))
      else if 0xca <= b <= 0xd3 then Again(NextCs(b), Shl1(b % 4))
      else if 0xd4 <= b <= 0xd7 then AgainOrEmpty(ACS_EXT_VALUE, Shl1(b % 4) + 1, Ext([]))
      else if b == 0xd8 then AgainOrEmpty(ACS_EXT_VALUE, 16 + 1, Ext([]))
      else if 0xd9 <= b <= 0xdb then Again(NextCs(b), Shl1(b % 4 - 1))
      else if 0xdc <= b <= 0xdf then Again(NextCs(b), 2 * Shl1(b % 2))
      else Error
    else if 0xa0 <= b then AgainOrEmpty(ACS_STR_VALUE, b % 32, Str([]))
    else if 0x90 <= b then Open(false, b % 16)
    else Open(true, b % 16)
  }

  /** The switch on `cs` once its `trail` bytes are there (unpack_template.h:249-383). */
  function TrailAction(cs: nat, body: seq<byte>): (a: Action)
    ensures a.Again? ==> a.cs != CS_HEADER && 1 <= a.trail
  {
    var word := FromBigEndian(body);
    if cs == CS_FLOAT then Push(Float32(word))
    else if cs == CS_DOUBLE then Push(Float64(word))
    else if cs == CS_UINT_8 || cs == CS_UINT_16 || cs == CS_UINT_32 || cs == CS_UINT_64 then Push(Int(word))
    else if cs == CS_INT_8 || cs == CS_INT_16 || cs == CS_INT_32 || cs == CS_INT_64 then
      Push(Int(ToSigned(word, |body|)))
    else if cs == CS_FIXEXT_1 then AgainOrEmpty(ACS_EXT_VALUE, 1 + 1, Ext([]))
    else if cs == CS_FIXEXT_2 then AgainOrEmpty(ACS_EXT_VALUE, 2 + 1, Ext([]))
    else if cs == CS_FIXEXT_4 then AgainOrEmpty(ACS_EXT_VALUE, 4 + 1, Ext([]))
    else if cs == CS_FIXEXT_8 then AgainOrEmpty(ACS_EXT_VALUE, 8 + 1, Ext([]))
    else if cs == CS_FIXEXT_16 then AgainOrEmpty(ACS_EXT_VALUE, 16 + 1, Ext([]))
    else if cs == CS_STR_8 || cs == CS_STR_16 || cs == CS_STR_32 then
      AgainOrEmpty(ACS_STR_VALUE, word, Str([]))
    else if cs == CS_BIN_8 || cs == CS_BIN_16 || cs == CS_BIN_32 then
      AgainOrEmpty(ACS_BIN_VALUE, word, Bin([]))
    else if cs == CS_EXT_8 || cs == CS_EXT_16 || cs == CS_EXT_32 then
      AgainOrEmpty(ACS_EXT_VALUE, (word + 1) % TWO_32, Ext([]))
    else if cs == ACS_STR_VALUE then Push(Str(body))
    else if cs == ACS_BIN_VALUE then Push(Bin(body))
    else if cs == ACS_EXT_VALUE then Push(Ext(body))
    else if cs == CS_ARRAY_16 || cs == CS_ARRAY_32 then Open(false, word)
    else if cs == CS_MAP_16 || cs == CS_MAP_32 then Open(true, word)
    else Error
  }

  /**
   * One stack entry. `obj` is the container built so far and `cap` the size announced to the
   * callback that created it; `mapKey` means something only while a map value is awaited.
   */
  datatype Frame = Frame(obj: Value, cap: nat, count: nat, ct: nat, mapKey: Value)

  function EmptyBox(isMap: bool): Value
  {
    if isMap then Map([]) else Array([])
  }

  function NewFrame(isMap: bool, n: nat): Frame
  {
    Frame(EmptyBox(isMap), n, n, if isMap then CT_MAP_KEY else CT_ARRAY_ITEM, Nil)
  }

  /** `--count` on a size_t. */
  function Decrement(count: nat): nat
  {
    if count == 0 then TWO_64 - 1 else count - 1
  }

  datatype Pushed =
    | Root(v: Value)                // the stack ran empty: `v` is the whole object
    | Waiting(frames: seq<Frame>)   // some container still waits for a value
    | Jammed(frames: seq<Frame>)    // a frame with no known container type

  /** The `_push` cascade (unpack_template.h:386-419). */
  function PushValue(frames: seq<Frame>, v: Value): Pushed
    decreases |frames|
  {
    if frames == [] then Root(v)
    else
      var below, c := frames[..|frames| - 1], frames[|frames| - 1];
      var count := Decrement(c.count);
      if c.ct == CT_ARRAY_ITEM && c.obj.Array? then
        var obj := Array(c.obj.items + [v]);
        if count == 0 then PushValue(below, obj)
        else Waiting(below + [c.(obj := obj, count := count)])
      else if c.ct == CT_MAP_KEY then
        Waiting(below + [c.(mapKey := v, ct := CT_MAP_VALUE)])
      else if c.ct == CT_MAP_VALUE && c.obj.Map? then
        var obj := Map(c.obj.pairs + [Pair(c.mapKey, v)]);
        if count == 0 then PushValue(below, obj)
        else Waiting(below + [c.(obj := obj, count := count, ct := CT_MAP_KEY, mapKey := Nil)])
      else Jammed(frames)
  }

  /** What the bytes at the cursor amount to; `p` is the last byte used, or where to resume. */
  datatype Lexeme =
    | Starved(cs: nat, trail: nat, p: nat)
    | Item(v: Value, cs: nat, trail: nat, p: nat)
    | Box(isMap: bool, n: nat, cs: nat, trail: nat, p: nat)
    | Corrupt(cs: nat, trail: nat, p: nat)

  /** A lexeme lies in the data; a starved one stops with fewer than `trail` bytes to go. */
  predicate Within(l: Lexeme, data: seq<byte>, p: nat)
  {
    if l.Starved? then l.cs != CS_HEADER && p <= l.p <= |data| < l.p + l.trail
    else p <= l.p < |data|
  }

  function Act(data: seq<byte>, p: nat, cs: nat, trail: nat, a: Action): (l: Lexeme)
    requires p < |data|
    requires a.Again? ==> a.cs != CS_HEADER && 1 <= a.trail
    ensures Within(l, data, p)
    decreases |data| - p, 0
  {
    match a
    case Push(v) => Item(v, cs, trail, p)
    case PushEmpty(v) => Item(v, cs, 0, p)
    case Open(isMap, n) => Box(isMap, n, cs, trail, p)
    case Error => Corrupt(cs, trail, p)
    case Again(cs', trail') => Body(data, p + 1, cs', trail')
  }

  /** From the default label of the outer switch: wait for `trail` bytes, then act on them. */
  function Body(data: seq<byte>, p: nat, cs: nat, trail: nat): (l: Lexeme)
    requires p <= |data| && cs != CS_HEADER && 1 <= trail
    ensures Within(l, data, p) && (!l.Starved? ==> p + trail - 1 <= l.p)
    decreases |data| - p, 1
  {
    if |data| - p < trail then Starved(cs, trail, p)
    else Act(data, p + trail - 1, cs, trail, TrailAction(cs, data[p..p + trail]))
  }

  function Scan(data: seq<byte>, p: nat, cs: nat, trail: nat): (l: Lexeme)
    requires p < |data| && (cs != CS_HEADER ==> 1 <= trail)
    ensures Within(l, data, p)
  {
    if cs == CS_HEADER then Act(data, p, cs, trail, HeaderAction(data[p]))
    else Body(data, p, cs, trail)
  }

  datatype Ctx = Ctx(cs: nat, trail: nat, frames: seq<Frame>)
  {
    predicate Resumable()
    {
      cs != CS_HEADER ==> 1 <= trail
    }

    /** Paused at `p`: at the end of the data, or short of the bytes it waits for. */
    predicate OutOfData(data: seq<byte>, p: nat)
    {
      if cs == CS_HEADER then p == |data| else p <= |data| < p + trail
    }
  }

  const FRESH: Ctx := Ctx(CS_HEADER, 0, [])

  /** The outcome of one call: return code 1, 0 or negative, the saved context and the offset. */
  datatype Result =
    | Finished(v: Value, ctx: Ctx, off: nat)
    | Paused(ctx: Ctx, off: nat)
    | Failed(code: int, ctx: Ctx, off: nat)

  /** The return code of the call. */
  function Code(r: Result): int
  {
    match r
    case Finished(_, _, _) => 1
    case Paused(_, _) => 0
    case Failed(code, _, _) => code
  }

  function Run(data: seq<byte>, c: Ctx, p: nat): (r: Result)
    requires c.Resumable() && p <= |data|
    ensures p <= r.off <= |data|
    ensures r.Paused? ==> r.ctx.Resumable() && r.ctx.OutOfData(data, r.off)
    ensures r.Failed? ==> r.off < |data|
    ensures r.Finished? ==> p < r.off
    decreases |data| - p, 2
  {
    if p == |data| then Paused(c, p)
    else
      match Scan(data, p, c.cs, c.trail)
      case Starved(cs, trail, q) => Paused(Ctx(cs, trail, c.frames), q)
      case Corrupt(cs, trail, q) => Failed(PARSE_ERROR, Ctx(cs, trail, c.frames), q)
      case Item(v, cs, trail, q) => Settle(data, c.frames, v, cs, trail, q)
      case Box(isMap, n, cs, trail, q) => Start(data, c.frames, isMap, n, cs, trail, q)
  }

  /** The start_container macro, with the last byte of the header at `q`. */
  function Start(data: seq<byte>, frames: seq<Frame>, isMap: bool, n: nat, cs: nat, trail: nat, q: nat): (r: Result)
    requires q < |data|
    ensures q <= r.off <= |data|
    ensures r.Paused? ==> r.ctx.Resumable() && r.ctx.OutOfData(data, r.off)
    ensures r.Failed? ==> r.off < |data|
    ensures r.Finished? ==> q < r.off
    decreases |data| - q, 1
  {
    if |frames| >= STACK_SIZE then Failed(NOMEM_ERROR, Ctx(cs, trail, frames), q)
    else if n == 0 then Settle(data, frames, EmptyBox(isMap), cs, trail, q)
    else Run(data, Ctx(CS_HEADER, trail, frames + [NewFrame(isMap, n)]), q + 1)
  }

  /** The start_container macro, case by case. */
  lemma StartCases(data: seq<byte>, frames: seq<Frame>, isMap: bool, n: nat, cs: nat, trail: nat, q: nat)
    requires q < |data|
    ensures Start(data, frames, isMap, n, cs, trail, q) ==
      if |frames| >= STACK_SIZE then Failed(NOMEM_ERROR, Ctx(cs, trail, frames), q)
      else if n == 0 then Settle(data, frames, EmptyBox(isMap), cs, trail, q)
      else Run(data, Ctx(CS_HEADER, trail, frames + [NewFrame(isMap, n)]), q + 1)
  {
    hide Run, Settle;
  }

  /** From `_push` on, with the last byte used at `q`. */
  function Settle(data: seq<byte>, frames: seq<Frame>, v: Value, cs: nat, trail: nat, q: nat): (r: Result)
    requires q < |data|
    ensures q <= r.off <= |data|
    ensures r.Paused? ==> r.ctx.Resumable() && r.ctx.OutOfData(data, r.off)
    ensures r.Failed? ==> r.off < |data|
    ensures r.Finished? ==> q < r.off
    decreases |data| - q, 0
  {
    match PushValue(frames, v)
    case Root(v') => Finished(v', Ctx(cs, trail, []), q + 1)
    case Waiting(frames') => Run(data, Ctx(CS_HEADER, trail, frames'), q + 1)
    case Jammed(frames') => Failed(PARSE_ERROR, Ctx(cs, trail, frames'), q)
  }
}
