/** `_init`, `_data` and `_execute` on a context that is updated in place. */
module UnpackContext {
  import opened Bytes
  import opened Values
  import opened Machine

  /** A frame without the stale key it keeps while no map value is awaited. */
  function Current(f: Frame): Frame
  {
    if f.ct == CT_MAP_VALUE then f else f.(mapKey := Nil)
  }

  function Live(slots: seq<Frame>): (frames: seq<Frame>)
    ensures |frames| == |slots|
  {
    if slots == [] then [] else Live(slots[..|slots| - 1]) + [Current(slots[|slots| - 1])]
  }

  lemma NoneLive()
    ensures Live([]) == []
  {
  }

  lemma LiveSnoc(slots: seq<Frame>, f: Frame)
    ensures Live(slots + [f]) == Live(slots) + [Current(f)]
  {
    assert (slots + [f])[..|slots|] == slots;
  }

  /** Overwriting the top slot of `stack[..top]` leaves the slots below alone. */
  lemma TopSlot(stack: array<Frame>, top: nat)
    requires 0 < top <= stack.Length
    ensures Live(stack[..top]) == Live(stack[..top - 1]) + [Current(stack[top - 1])]
  {
    assert stack[..top] == stack[..top - 1] + [stack[top - 1]];
    LiveSnoc(stack[..top - 1], stack[top - 1]);
  }

  /** What `Run` makes of an action taken at the byte `p`, short of waiting for more bytes. */
  ghost function Proceed(data: seq<byte>, frames: seq<Frame>, a: Action, cs: nat, trail: nat, p: nat): Result
    requires !a.Again? && p < |data|
  {
    match a
    case Error => Failed(PARSE_ERROR, Ctx(cs, trail, frames), p)
    case Push(v) => Settle(data, frames, v, cs, trail, p)
    case PushEmpty(v) => Settle(data, frames, v, cs, 0, p)
    case Open(isMap, n) => Start(data, frames, isMap, n, cs, trail, p)
  }

  lemma RunByAction(data: seq<byte>, c: Ctx, p: nat, a: Action, cs: nat, trail: nat, q: nat)
    requires c.Resumable() && p < |data|
    requires if a.Again? then Scan(data, p, c.cs, c.trail) == Starved(cs, trail, q)
             else q < |data| && Scan(data, p, c.cs, c.trail) == Act(data, q, cs, trail, a)
    ensures Run(data, c, p) == if a.Again? then Paused(Ctx(cs, trail, c.frames), q)
                               else Proceed(data, c.frames, a, cs, trail, q)
  {
    hide Scan, Settle, Start;
  }

  lemma SettleCases(data: seq<byte>, frames: seq<Frame>, v: Value, cs: nat, trail: nat, q: nat)
    requires q < |data|
    ensures var (r, pushed) := (Settle(data, frames, v, cs, trail, q), PushValue(frames, v));
            && (pushed.Root? ==> r == Finished(pushed.v, Ctx(cs, trail, []), q + 1))
            && (pushed.Waiting? ==> r == Run(data, Ctx(CS_HEADER, trail, pushed.frames), q + 1))
            && (pushed.Jammed? ==> r == Failed(PARSE_ERROR, Ctx(cs, trail, pushed.frames), q))
  {
    hide Run, PushValue;
  }

  lemma RunAtEnd(data: seq<byte>, c: Ctx)
    requires c.Resumable()
    ensures Run(data, c, |data|) == Paused(c, |data|)
  {
  }

  datatype PushExit = ToFinish | ToHeader | ToFailed

  class Context {
    var cs: nat
    var trail: nat
    var top: nat
    const stack: array<Frame>

    ghost predicate Shape()
      reads this
    {
      stack.Length == STACK_SIZE && top <= STACK_SIZE
    }

    /** Fit for another call of `Execute`: fresh, or left by a call that returned 0. */
    ghost predicate Ready()
      reads this
    {
      Shape() && (cs != CS_HEADER ==> 1 <= trail)
    }

    /** What a call leaves for the next one: the registers and the live frames. */
    ghost function Saved(): (c: Ctx)
      requires Shape()
      reads this, stack
      ensures Ready() ==> c.Resumable()
    {
      Ctx(cs, trail, Live(stack[..top]))
    }

    constructor ()
      ensures Ready() && Saved() == FRESH && fresh(stack)
    {
      cs, trail, top := CS_HEADER, 0, 0;
      stack := new Frame[STACK_SIZE](_ => Frame(Nil, 0, 0, CT_ARRAY_ITEM, Nil));
    }

    /** `_init`: ready for a new value, whatever the last one left behind. */
    method Init()
      requires stack.Length == STACK_SIZE
      modifies this, stack
      ensures Ready() && Saved() == FRESH && Data() == Nil
    {
      cs := CS_HEADER;
      trail := 0;
      top := 0;
      stack[0] := stack[0].(obj := Nil);
    }

    /** `_data`: the object of a finished run. */
    function Data(): Value
      requires stack.Length == STACK_SIZE
      reads this, stack
    {
      stack[0].obj
    }

    /** From the label `_push`: `obj` goes to the innermost open container, which may close. */
    method Push(top0: nat, obj0: Value) returns (exit: PushExit, top: nat, obj: Value)
      requires stack.Length == STACK_SIZE && top0 <= STACK_SIZE
      modifies stack
      ensures top <= top0
      ensures var r := PushValue(old(Live(stack[..top0])), obj0);
              match exit
              case ToFinish => r == Root(obj) && top == 0
              case ToHeader => r == Waiting(Live(stack[..top]))
              case ToFailed => r == Jammed(Live(stack[..top]))
    {
      top, obj := top0, obj0;
      while top != 0
        invariant top <= top0
        invariant PushValue(old(Live(stack[..top0])), obj0) == PushValue(Live(stack[..top]), obj)
        decreases top
      {
        var c := stack[top - 1];
        ghost var below := stack[..top - 1];
        ghost var frames := Live(stack[..top]);
        TopSlot(stack, top);
        assert frames[..top - 1] == Live(below);
        if c.ct == CT_ARRAY_ITEM && c.obj.Array? {
          stack[top - 1] := c.(obj := Array(c.obj.items + [obj]), count := Decrement(c.count));
          assert stack[..top - 1] == below;
          if stack[top - 1].count != 0 {
            TopSlot(stack, top);
            return ToHeader, top, obj;
          }
          obj := stack[top - 1].obj;
          top := top - 1;
        } else if c.ct == CT_MAP_KEY {
          stack[top - 1] := c.(mapKey := obj, ct := CT_MAP_VALUE);
          assert stack[..top - 1] == below;
          TopSlot(stack, top);
          return ToHeader, top, obj;
        } else if c.ct == CT_MAP_VALUE && c.obj.Map? {
          stack[top - 1] := c.(obj := Map(c.obj.pairs + [Pair(c.mapKey, obj)]), count := Decrement(c.count));
          assert stack[..top - 1] == below;
          if stack[top - 1].count != 0 {
            stack[top - 1] := stack[top - 1].(ct := CT_MAP_KEY);
            assert stack[..top - 1] == below;
            TopSlot(stack, top);
            return ToHeader, top, obj;
          }
          obj := stack[top - 1].obj;
          top := top - 1;
        } else {
          return ToFailed, top, obj;
        }
      }
      assert stack[..0] == [];
      exit := ToFinish;
    }

    /** The start_container macro, once there is a free slot: an empty container opens nothing. */
    method StartContainer(top0: nat, isMap: bool, n: nat) returns (obj: Value, top: nat)
      requires stack.Length == STACK_SIZE && top0 < STACK_SIZE
      modifies stack
      ensures obj == EmptyBox(isMap)
      ensures top == (if n == 0 then top0 else top0 + 1)
      ensures Live(stack[..top]) == old(Live(stack[..top0])) + if n == 0 then [] else [NewFrame(isMap, n)]
    {
      ghost var slots := stack[..top0];
      top := top0;
      stack[top] := stack[top].(obj := EmptyBox(isMap), cap := n);
      obj := stack[top].obj;
      if n != 0 {
        stack[top] := stack[top].(ct := if isMap then CT_MAP_KEY else CT_ARRAY_ITEM, count := n);
        top := top + 1;
        TopSlot(stack, top);
        assert Current(stack[top - 1]) == NewFrame(isMap, n);
      }
      assert stack[..top0] == slots;
    }

    /**
     * The two switches, around the label `_fixed_trail_again`: what the bytes at `p` call for. An
     * action that is still `Again` means they ran out, with the registers saying what is missing.
     */
    method Fetch(data: seq<byte>, p0: nat, cs0: nat, trail0: nat) returns (act: Action, p: nat, cs: nat, trail: nat)
      requires p0 < |data| && (cs0 != CS_HEADER ==> 1 <= trail0)
      ensures var l := Scan(data, p0, cs0, trail0);
              if act.Again? then l == Starved(cs, trail, p)
              else p0 <= p < |data| && l == Act(data, p, cs, trail, act)
    {
      hide HeaderAction, TrailAction;
      var pe := |data|;
      p, cs, trail := p0, cs0, trail0;
      if cs == CS_HEADER {
        act := HeaderAction(data[p]);
      } else {
        if pe - p < trail { return Again(cs, trail), p, cs, trail; }
        act := TrailAction(cs, data[p..p + trail]);
        p := p + trail - 1;
      }
      while act.Again?
        invariant p0 <= p < pe
        invariant act.Again? ==> act.cs != CS_HEADER && 1 <= act.trail
        invariant Scan(data, p0, cs0, trail0) == Act(data, p, cs, trail, act)
        decreases pe - p
      {
        trail, cs := act.trail, act.cs;
        p := p + 1;
        assert Scan(data, p0, cs0, trail0) == Body(data, p, cs, trail);
        if pe - p < trail { return; }
        act := TrailAction(cs, data[p..p + trail]);
        p := p + trail - 1;
      }
    }

    /**
     * Where an action leads: to `_failed` or `_finish` with a return code, or to `_header_again`,
     * for which `ret` is 0.
     */
    method Dispatch(data: seq<byte>, act: Action, p0: nat, cs0: nat, trail0: nat, top0: nat)
      returns (ret: int, p: nat, cs: nat, trail: nat, top: nat)
      requires stack.Length == STACK_SIZE && top0 <= STACK_SIZE && p0 < |data| && !act.Again?
      modifies stack
      ensures top <= STACK_SIZE && p0 <= p <= |data|
      ensures var r := Proceed(data, old(Live(stack[..top0])), act, cs0, trail0, p0);
              var c := Ctx(cs, trail, Live(stack[..top]));
              if ret == 0 then cs == CS_HEADER && p == p0 + 1 && r == Run(data, c, p)
              else ret == Code(r) && p == r.off && c == r.ctx && (r.Finished? ==> Data() == r.v) && !r.Paused?
    {
      hide PushValue, Run, Live, Settle, Start, Current, NewFrame, EmptyBox;
      ghost var frames := Live(stack[..top0]);
      var obj;
      p, cs, trail, top := p0, cs0, trail0, top0;
      match act {
        case Error =>
          return PARSE_ERROR, p, cs, trail, top;
        case Push(v) => obj := v;
        case PushEmpty(v) =>
          trail := 0;
          obj := v;
        case Open(isMap, n) =>
          StartCases(data, frames, isMap, n, cs, trail, p);
          if top >= STACK_SIZE {
            return NOMEM_ERROR, p, cs, trail, top;
          }
          obj, top := StartContainer(top, isMap, n);
          if n != 0 {
            return 0, p + 1, CS_HEADER, trail, top;
          }
      }
      assert Live(stack[..top]) == frames;
      SettleCases(data, frames, obj, cs, trail, p);
      var exit;
      exit, top, obj := Push(top, obj);
      match exit {
        case ToFinish =>
          stack[0] := stack[0].(obj := obj);
          assert stack[..0] == [] && Live([]) == [] by { NoneLive(); }
          return 1, p + 1, cs, trail, top;
        case ToFailed =>
          return PARSE_ERROR, p, cs, trail, top;
        case ToHeader =>
          return 0, p + 1, CS_HEADER, trail, top;
      }
    }

    /**
     * `_execute`: decode from `off` until the object is whole (1), the bytes run out (0) or an
     * error (negative). The offset, the registers and the live frames afterwards are those of `Run`.
     */
    method Execute(data: seq<byte>, off: nat) returns (ret: int, newOff: nat)
      requires Ready() && off <= |data|
      modifies this, stack
      ensures Shape() && (ret == 0 ==> Ready())
      ensures var r := Run(data, old(Saved()), off);
              && ret == Code(r) && newOff == r.off && Saved() == r.ctx
              && (r.Finished? ==> Data() == r.v)
    {
      hide Scan, Act, Run, Live, Proceed;
      var p: nat, pe: nat := off, |data|;
      var trail: nat, cs: nat, top: nat := this.trail, this.cs, this.top;
      ghost var result := Run(data, old(Saved()), off);
      ret := 0;
      while p != pe && ret == 0
        invariant p <= pe && top <= STACK_SIZE == stack.Length
        invariant var c := Ctx(cs, trail, Live(stack[..top]));
                  if ret == 0 then c.Resumable() && result == Run(data, c, p)
                  else ret == Code(result) && p == result.off && c == result.ctx && !result.Paused?
                       && (result.Finished? ==> Data() == result.v)
        decreases pe - p, ret == 0
      {
        ghost var c, p0 := Ctx(cs, trail, Live(stack[..top])), p;
        var act;
        act, p, cs, trail := Fetch(data, p, cs, trail);
        RunByAction(data, c, p0, act, cs, trail, p);
        if act.Again? {
          assert result == Paused(Ctx(cs, trail, Live(stack[..top])), p);
          break;
        }
        ret, p, cs, trail, top := Dispatch(data, act, p, cs, trail, top);
      }
      if p == pe && ret == 0 {
        RunAtEnd(data, Ctx(cs, trail, Live(stack[..top])));
      }
      ghost var slots := stack[..top];
      this.cs := cs;
      this.trail := trail;
      this.top := top;
      newOff := p;
      assert stack[..top] == slots;
    }
  }
}
