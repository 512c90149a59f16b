/** The stackless coroutines of lib/coroutine.h: a state, a label and a frame of lifted locals in an arena. */
module Coroutines {
  import opened BitMath
  import opened Arenas
  import opened Frames
  import opened Timers
  import opened Wrappers

  class Coroutine {
    var state: CoState
    var resumeAt: Option<nat>
    var returnValue: Option<nat>
    const stack: Arena

    ghost predicate Valid()
      reads stack
    {
      stack.Valid()
    }

    ghost function Memory(): seq<byte>
      reads stack.bytes
    {
      stack.bytes[..]
    }

    /** A frame of this layout fits the stack from address `at` on, and no address overflows. */
    ghost predicate FitsAt(at: nat, specs: seq<Spec>)
      reads stack
    {
      && SpecsOk(specs) && stack.min <= at && FrameEnd(at, specs) <= stack.max
      && forall i :: 0 <= i < |specs| ==> stack.max + specs[i].alignment <= SIZE_MAX
    }

    /** The saved values of the lifted locals. */
    ghost function Frame(specs: seq<Spec>): seq<Lifted>
      requires Valid() && FitsAt(stack.min, specs)
      reads stack, stack.bytes
    {
      Loaded(Memory(), stack.base, stack.min, specs)
    }

    constructor (stack: Arena)
      requires stack.Valid()
      ensures Valid() && this.stack == stack && state == CoCreated && resumeAt == None && returnValue == None
    {
      this.stack := stack;
      state, resumeAt, returnValue := CoCreated, None, None;
    }

    /** A variable of this layout fits behind the current end of the arena, and no address overflows. */
    ghost predicate OneFits(spec: Spec)
      reads stack
    {
      && PowerOfTwo(spec.alignment) && stack.max + spec.alignment <= SIZE_MAX
      && AlignUp(stack.current, spec.alignment) + spec.size <= stack.max
    }

    method SaveOne(v: Lifted) returns (p: nat)
      requires Valid() && |v.data| == v.spec.size && OneFits(v.spec)
      modifies stack`current, stack.bytes
      ensures Valid() && p == AlignUp(old(stack.current), v.spec.alignment)
      ensures stack.base <= p && p - stack.base + |v.data| <= |Memory()| && stack.current == p + v.spec.size
      ensures Memory() == Copied(old(Memory()), p - stack.base, v.data)
    {
      var slot := stack.AllocAligned(v.spec.size, v.spec.alignment);
      p := slot.value;
      stack.Store(p, v.data);
    }

    method LoadOne(spec: Spec) returns (data: seq<byte>)
      requires Valid() && OneFits(spec)
      modifies stack`current
      ensures Valid()
      ensures var p := AlignUp(old(stack.current), spec.alignment);
        && stack.base <= p && p - stack.base + spec.size <= |Memory()| && stack.current == p + spec.size
        && data == Bytes(Memory(), p - stack.base, spec.size)
    {
      var p := stack.AllocAligned(spec.size, spec.alignment);
      data := stack.Fetch(p.value, spec.size);
    }

    /** CO_SAVE over a list of variables, from the current end of the arena. */
    method SaveVars(vars: seq<Lifted>)
      requires Valid() && VarsOk(vars) && FitsAt(stack.current, Specs(vars))
      modifies stack`current, stack.bytes
      ensures Valid() && stack.current == FrameEnd(old(stack.current), Specs(vars))
      ensures Memory() == Saved(old(Memory()), stack.base, old(stack.current), vars)
      decreases |vars|
    {
      if vars != [] {
        ghost var specs := Specs(vars);
        assert specs[1..] == Specs(vars[1..]);
        FirstSlot(stack.current, specs);
        SavedStep(Memory(), stack.base, stack.current, vars);
        var _ := SaveOne(vars[0]);
        SaveVars(vars[1..]);
      }
    }

    /** CO_LOAD over a list of variables. */
    method LoadVars(specs: seq<Spec>) returns (vars: seq<Lifted>)
      requires Valid() && FitsAt(stack.current, specs)
      modifies stack`current
      ensures Valid() && stack.current == FrameEnd(old(stack.current), specs)
      ensures vars == Loaded(Memory(), stack.base, old(stack.current), specs)
      decreases |specs|
    {
      if specs == [] { return []; }
      FirstSlot(stack.current, specs);
      LoadedStep(Memory(), stack.base, stack.current, specs);
      var head := LoadOne(specs[0]);
      var tail := LoadVars(specs[1..]);
      vars := [Lifted(specs[0], head)] + tail;
    }

    /** The yield label of COROUTINE, after the arena was cleared. */
    method SaveFrame(vars: seq<Lifted>)
      requires Valid() && VarsOk(vars) && FitsAt(stack.min, Specs(vars))
      modifies stack`current, stack.bytes
      ensures Valid() && stack.current == FrameEnd(stack.min, Specs(vars))
      ensures Memory() == Saved(old(Memory()), stack.base, stack.min, vars)
      ensures Frame(Specs(vars)) == vars
    {
      stack.Clear();
      SaveVars(vars);
      LoadedAfterSaved(old(Memory()), stack.base, stack.min, vars);
    }

    /** COROUTINE entered in state CO_CREATED: the body does not run. */
    method Start(vars: seq<Lifted>)
      requires Valid() && state == CoCreated && VarsOk(vars)
      requires FitsAt(stack.current, Specs(vars)) && FitsAt(stack.min, Specs(vars))
      modifies this`state, this`resumeAt, stack`current, stack.bytes
      ensures Valid() && state == CoRunning && resumeAt == None
      ensures Frame(Specs(vars)) == vars
      ensures stack.current == FrameEnd(stack.min, Specs(vars))
    {
      SaveVars(vars);
      state := CoRunning;
      resumeAt := None;
      SaveFrame(vars);
    }

    /** COROUTINE entered in any other state: the locals are reloaded, and the body goes on at the label
        (from its beginning without one) unless the coroutine has completed. */
    method Enter(specs: seq<Spec>) returns (goesOn: bool, vars: seq<Lifted>)
      requires Valid() && state != CoCreated && FitsAt(stack.min, specs)
      modifies this`state, this`resumeAt, stack`current, stack.bytes
      ensures Valid() && stack.current == FrameEnd(stack.min, specs)
      ensures vars == old(Frame(specs)) && Memory() == old(Memory())
      ensures goesOn == (old(state) == CoRunning)
      ensures goesOn ==> state == CoRunning && resumeAt == old(resumeAt)
      ensures !goesOn ==> state == CoCompleted && resumeAt == None
    {
      stack.Clear();
      vars := LoadVars(specs);
      goesOn := state == CoRunning;
      if state == CoCompleted || state == CoFailed {
        resumeAt := None;
        state := CoCompleted;
        SavedAfterLoaded(Memory(), stack.base, stack.min, specs);
        SaveFrame(vars);
      }
    }

    /** co_yield. */
    method Yield(at: nat, vars: seq<Lifted>)
      requires Valid() && VarsOk(vars) && FitsAt(stack.min, Specs(vars))
      modifies this`resumeAt, stack`current, stack.bytes
      ensures Valid() && resumeAt == Some(at)
      ensures Frame(Specs(vars)) == vars
      ensures stack.current == FrameEnd(stack.min, Specs(vars))
    {
      resumeAt := Some(at);
      SaveFrame(vars);
    }

    /** The result of co_return is copied to a slot at or behind the current end of the arena. */
    method PlaceResult(result: Lifted) returns (slot: nat)
      requires Valid() && |result.data| == result.spec.size && OneFits(result.spec)
      modifies stack`current, stack.bytes
      ensures Valid() && old(stack.current) <= slot && slot + result.spec.size <= stack.max
      ensures Holds(Memory(), slot - stack.base, result.data)
    {
      slot := SaveOne(result);
    }

    /** co_return from a body whose frame was loaded, whatever the body has allocated behind it: the result is
        placed behind the frame and is still there after the frame is saved once more. */
    method Return(result: Lifted, vars: seq<Lifted>)
      requires Valid() && VarsOk(vars) && FitsAt(stack.min, Specs(vars))
      requires FrameEnd(stack.min, Specs(vars)) <= stack.current
      requires |result.data| == result.spec.size && OneFits(result.spec)
      modifies this, stack`current, stack.bytes
      ensures Valid() && state == CoCompleted && resumeAt == None
      ensures Frame(Specs(vars)) == vars
      ensures returnValue.Some? && FrameEnd(stack.min, Specs(vars)) <= returnValue.value
      ensures returnValue.value + result.spec.size <= stack.max
      ensures Holds(Memory(), returnValue.value - stack.base, result.data)
    {
      var slot := PlaceResult(result);
      ghost var mem := Memory();
      returnValue := Some(slot);
      resumeAt := None;
      state := CoCompleted;
      SaveFrame(vars);
      SlotSurvives(mem, stack.base, stack.min, vars, slot, result.data);
    }

    /** CO_END. */
    method End()
      requires Valid()
      modifies this`state, stack`current
      ensures Valid() && stack.current == stack.min
      ensures state == if old(state) == CoFailed then CoFailed else CoCompleted
    {
      if state != CoFailed {
        state := CoCompleted;
      }
      stack.Clear();
    }
  }

  /** A yield and the next resume: the body goes on behind the yield with the values it had. */
  method YieldThenEnter(co: Coroutine, at: nat, vars: seq<Lifted>) returns (goesOn: bool, loaded: seq<Lifted>)
    requires co.Valid() && co.state == CoRunning && VarsOk(vars) && co.FitsAt(co.stack.min, Specs(vars))
    modifies co`state, co`resumeAt, co.stack`current, co.stack.bytes
    ensures goesOn && co.state == CoRunning && co.resumeAt == Some(at)
    ensures loaded == vars
  {
    co.Yield(at, vars);
    goesOn, loaded := co.Enter(Specs(vars));
  }
}
