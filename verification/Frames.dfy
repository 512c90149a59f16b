/** Coroutine frames of lib/coroutine.h: lifted locals laid out in an arena. */
module Frames {
  import opened BitMath
  import opened Arenas
  import opened Wrappers

  type Alignment = x: nat | x > 0 witness 1

  /** sizeof and __alignof of a local variable. */
  datatype Spec = Spec(size: nat, alignment: Alignment)

  /** A local variable with its representation. */
  datatype Lifted = Lifted(spec: Spec, data: seq<byte>)

  ghost predicate SpecsOk(specs: seq<Spec>) {
    forall i :: 0 <= i < |specs| ==> PowerOfTwo(specs[i].alignment)
  }

  ghost predicate VarsOk(vars: seq<Lifted>) {
    && SpecsOk(Specs(vars))
    && forall i :: 0 <= i < |vars| ==> |vars[i].data| == vars[i].spec.size
  }

  function Specs(vars: seq<Lifted>): (specs: seq<Spec>)
    ensures |specs| == |vars| && forall i :: 0 <= i < |vars| ==> specs[i] == vars[i].spec
  {
    seq(|vars|, i requires 0 <= i < |vars| => vars[i].spec)
  }

  /** Where the arena stands after allocating the variables one after the other. */
  function FrameEnd(at: nat, specs: seq<Spec>): nat
    decreases |specs|
  {
    if specs == [] then at
    else FrameEnd(AlignUp(at, specs[0].alignment) + specs[0].size, specs[1..])
  }

  lemma {:induction false} FrameGrows(at: nat, specs: seq<Spec>)
    ensures at <= FrameEnd(at, specs)
    ensures specs != [] ==> at <= AlignUp(at, specs[0].alignment)
    decreases |specs|
  {
    if specs != [] {
      FrameGrows(AlignUp(at, specs[0].alignment) + specs[0].size, specs[1..]);
    }
  }

  /** Where the first variable goes, and where the rest of the frame starts. */
  lemma FirstSlot(at: nat, specs: seq<Spec>)
    requires specs != []
    ensures var p := AlignUp(at, specs[0].alignment);
      && at <= p && p + specs[0].size <= FrameEnd(at, specs)
      && FrameEnd(p + specs[0].size, specs[1..]) == FrameEnd(at, specs)
  {
    FrameGrows(at, specs);
    FrameGrows(AlignUp(at, specs[0].alignment) + specs[0].size, specs[1..]);
  }

  /** The address of the i-th variable. */
  function Slot(at: nat, specs: seq<Spec>, i: nat): nat
    requires i < |specs|
    decreases i
  {
    var p := AlignUp(at, specs[0].alignment);
    if i == 0 then p else Slot(p + specs[0].size, specs[1..], i - 1)
  }

  lemma {:induction false} SlotInFrame(at: nat, specs: seq<Spec>, i: nat)
    requires i < |specs|
    ensures at <= Slot(at, specs, i) && Slot(at, specs, i) + specs[i].size <= FrameEnd(at, specs)
    decreases i
  {
    FirstSlot(at, specs);
    if i > 0 {
      SlotInFrame(AlignUp(at, specs[0].alignment) + specs[0].size, specs[1..], i - 1);
    }
  }

  lemma {:induction false} SlotIsAligned(at: nat, specs: seq<Spec>, i: nat)
    requires i < |specs|
    ensures Slot(at, specs, i) % specs[i].alignment == 0
    decreases i
  {
    if i == 0 {
      AlignUpRoundsDown(at, specs[0].alignment);
    } else {
      SlotIsAligned(AlignUp(at, specs[0].alignment) + specs[0].size, specs[1..], i - 1);
    }
  }

  /** The first variable stands at the first aligned address, each other one at the first aligned address behind
      the one before it, and the frame ends with the last. */
  lemma {:induction false} SlotsArePacked(at: nat, specs: seq<Spec>, i: nat)
    requires i < |specs|
    ensures 0 <= Slot(at, specs, i) - (if i == 0 then at else Slot(at, specs, i - 1) + specs[i - 1].size) < specs[i].alignment
    ensures i == |specs| - 1 ==> FrameEnd(at, specs) == Slot(at, specs, i) + specs[i].size
    decreases i
  {
    var next := AlignUp(at, specs[0].alignment) + specs[0].size;
    if i == 0 {
      FirstSlot(at, specs);
    } else {
      SlotsArePacked(next, specs[1..], i - 1);
    }
  }

  /** A slot ends before any later one begins. */
  lemma {:induction false} SlotsAreDisjoint(at: nat, specs: seq<Spec>, i: nat, j: nat)
    requires i < j < |specs|
    ensures Slot(at, specs, i) + specs[i].size <= Slot(at, specs, j)
    decreases i
  {
    var next := AlignUp(at, specs[0].alignment) + specs[0].size;
    if i == 0 {
      SlotInFrame(next, specs[1..], j - 1);
    } else {
      SlotsAreDisjoint(next, specs[1..], i - 1, j - 1);
    }
  }

  /** The frame lies in the buffer of `size` bytes at `base`. */
  ghost predicate Within(base: nat, size: nat, at: nat, specs: seq<Spec>) {
    base <= at && FrameEnd(at, specs) <= base + size
  }

  /** CO_SAVE: memory after storing the variables from address `at` on. */
  ghost function Saved(mem: seq<byte>, base: nat, at: nat, vars: seq<Lifted>): (r: seq<byte>)
    requires VarsOk(vars) && Within(base, |mem|, at, Specs(vars))
    ensures |r| == |mem|
    decreases |vars|
  {
    if vars == [] then mem
    else
      FrameGrows(at, Specs(vars));
      var p := AlignUp(at, vars[0].spec.alignment);
      var next := p + vars[0].spec.size;
      assert Specs(vars)[1..] == Specs(vars[1..]);
      FrameGrows(next, Specs(vars[1..]));
      Saved(Copied(mem, p - base, vars[0].data), base, next, vars[1..])
  }

  /** CO_LOAD: the variables of this layout found from address `at` on. */
  ghost function Loaded(mem: seq<byte>, base: nat, at: nat, specs: seq<Spec>): (vars: seq<Lifted>)
    requires Within(base, |mem|, at, specs)
    ensures |vars| == |specs|
    decreases |specs|
  {
    if specs == [] then []
    else
      FrameGrows(at, specs);
      var p := AlignUp(at, specs[0].alignment);
      var next := p + specs[0].size;
      FrameGrows(next, specs[1..]);
      [Lifted(specs[0], Bytes(mem, p - base, specs[0].size))] + Loaded(mem, base, next, specs[1..])
  }

  /** Saving a frame writes only between its start and its end. */
  lemma {:induction false} SavedOutside(mem: seq<byte>, base: nat, at: nat, vars: seq<Lifted>, k: nat)
    requires VarsOk(vars) && Within(base, |mem|, at, Specs(vars))
    requires k < |mem| && (k < at - base || k >= FrameEnd(at, Specs(vars)) - base)
    ensures Saved(mem, base, at, vars)[k] == mem[k]
    decreases |vars|
  {
    if vars != [] {
      FrameGrows(at, Specs(vars));
      var p := AlignUp(at, vars[0].spec.alignment);
      var next := p + vars[0].spec.size;
      assert Specs(vars)[1..] == Specs(vars[1..]);
      FrameGrows(next, Specs(vars[1..]));
      SavedOutside(Copied(mem, p - base, vars[0].data), base, next, vars[1..], k);
    }
  }

  /** Bytes stored below the start of a frame are still there after the frame is saved. */
  lemma StoredBelow(mem: seq<byte>, base: nat, at: nat, data: seq<byte>, next: nat, vars: seq<Lifted>)
    requires at + |data| <= |mem| && at + |data| <= next - base
    requires VarsOk(vars) && Within(base, |mem|, next, Specs(vars))
    ensures Bytes(Saved(Copied(mem, at, data), base, next, vars), at, |data|) == data
  {
    var mem1 := Copied(mem, at, data);
    forall k | at <= k < at + |data|
      ensures Saved(mem1, base, next, vars)[k] == data[k - at]
    {
      SavedOutside(mem1, base, next, vars, k);
    }
  }

  /** The frame round trip: loading with the same layout gives back every saved variable. */
  lemma {:induction false} LoadedAfterSaved(mem: seq<byte>, base: nat, at: nat, vars: seq<Lifted>)
    requires VarsOk(vars) && Within(base, |mem|, at, Specs(vars))
    ensures Loaded(Saved(mem, base, at, vars), base, at, Specs(vars)) == vars
    decreases |vars|
  {
    if vars != [] {
      FrameGrows(at, Specs(vars));
      var p := AlignUp(at, vars[0].spec.alignment);
      var next := p + vars[0].spec.size;
      assert Specs(vars)[1..] == Specs(vars[1..]);
      FrameGrows(next, Specs(vars[1..]));
      LoadedAfterSaved(Copied(mem, p - base, vars[0].data), base, next, vars[1..]);
      StoredBelow(mem, base, p - base, vars[0].data, next, vars[1..]);
    }
  }

  lemma {:induction false} LoadedSpecs(mem: seq<byte>, base: nat, at: nat, specs: seq<Spec>)
    requires SpecsOk(specs) && Within(base, |mem|, at, specs)
    ensures Specs(Loaded(mem, base, at, specs)) == specs && VarsOk(Loaded(mem, base, at, specs))
    decreases |specs|
  {
    if specs != [] {
      var p := AlignUp(at, specs[0].alignment);
      LoadedStep(mem, base, at, specs);
      LoadedSpecs(mem, base, p + specs[0].size, specs[1..]);
      OneMoreVar(Lifted(specs[0], Bytes(mem, p - base, specs[0].size)), Loaded(mem, base, p + specs[0].size, specs[1..]));
    }
  }

  lemma OneMoreVar(v: Lifted, vars: seq<Lifted>)
    requires VarsOk(vars) && PowerOfTwo(v.spec.alignment) && |v.data| == v.spec.size
    ensures VarsOk([v] + vars) && Specs([v] + vars) == [v.spec] + Specs(vars)
  {
  }

  /** If memory holds a frame, it holds its first variable and the frame of the others. */
  lemma HoldsHeadAndTail(mem: seq<byte>, base: nat, at: nat, vars: seq<Lifted>)
    requires vars != [] && Within(base, |mem|, at, Specs(vars)) && Loaded(mem, base, at, Specs(vars)) == vars
    ensures var p, size := AlignUp(at, vars[0].spec.alignment), vars[0].spec.size;
      && base <= p && p - base + size <= |mem| && vars[0].data == Bytes(mem, p - base, size)
      && Within(base, |mem|, p + size, Specs(vars[1..]))
      && Loaded(mem, base, p + size, Specs(vars[1..])) == vars[1..]
  {
    LoadedStep(mem, base, at, Specs(vars));
    assert Specs(vars)[1..] == Specs(vars[1..]);
  }

  lemma SavedHead(mem: seq<byte>, base: nat, at: nat, vars: seq<Lifted>, p: nat)
    requires vars != [] && VarsOk(vars) && Within(base, |mem|, at, Specs(vars))
    requires p == AlignUp(at, vars[0].spec.alignment)
    requires VarsOk(vars[1..]) && Within(base, |mem|, p + vars[0].spec.size, Specs(vars[1..]))
    requires base <= p && p - base + |vars[0].data| <= |mem| && Copied(mem, p - base, vars[0].data) == mem
    ensures Saved(mem, base, at, vars) == Saved(mem, base, p + vars[0].spec.size, vars[1..])
  {
  }

  /** Storing the first variable again changes nothing. */
  lemma SavedAgain(mem: seq<byte>, base: nat, at: nat, vars: seq<Lifted>, p: nat)
    requires vars != [] && VarsOk(vars) && Within(base, |mem|, at, Specs(vars))
    requires p == AlignUp(at, vars[0].spec.alignment)
    requires VarsOk(vars[1..]) && Within(base, |mem|, p + vars[0].spec.size, Specs(vars[1..]))
    requires base <= p && p - base + |vars[0].data| <= |mem| && vars[0].data == Bytes(mem, p - base, |vars[0].data|)
    ensures Saved(mem, base, at, vars) == Saved(mem, base, p + vars[0].spec.size, vars[1..])
  {
    CopiedBack(mem, p - base, vars[0].data);
    SavedHead(mem, base, at, vars, p);
  }

  lemma RestOk(vars: seq<Lifted>)
    requires vars != [] && VarsOk(vars)
    ensures VarsOk(vars[1..]) && |vars[0].data| == vars[0].spec.size
  {
    assert Specs(vars)[1..] == Specs(vars[1..]);
  }

  /** Saving what memory already holds writes nothing new. */
  lemma {:induction false} SavedUnchanged(mem: seq<byte>, base: nat, at: nat, vars: seq<Lifted>)
    requires VarsOk(vars) && Within(base, |mem|, at, Specs(vars)) && Loaded(mem, base, at, Specs(vars)) == vars
    ensures Saved(mem, base, at, vars) == mem
    decreases |vars|
  {
    if vars != [] {
      var p := AlignUp(at, vars[0].spec.alignment);
      HoldsHeadAndTail(mem, base, at, vars);
      RestOk(vars);
      SavedAgain(mem, base, at, vars, p);
      SavedUnchanged(mem, base, p + vars[0].spec.size, vars[1..]);
    }
  }

  lemma SavedAfterLoaded(mem: seq<byte>, base: nat, at: nat, specs: seq<Spec>)
    requires SpecsOk(specs) && Within(base, |mem|, at, specs)
    ensures VarsOk(Loaded(mem, base, at, specs)) && Specs(Loaded(mem, base, at, specs)) == specs
    ensures Saved(mem, base, at, Loaded(mem, base, at, specs)) == mem
  {
    LoadedSpecs(mem, base, at, specs);
    SavedUnchanged(mem, base, at, Loaded(mem, base, at, specs));
  }

  lemma CopiedBack(mem: seq<byte>, at: nat, data: seq<byte>)
    requires at + |data| <= |mem| && data == Bytes(mem, at, |data|)
    ensures Copied(mem, at, data) == mem
  {
  }

  /** Loading reads each variable from its slot. */
  lemma {:induction false} LoadedFromSlot(mem: seq<byte>, base: nat, at: nat, specs: seq<Spec>, i: nat)
    requires Within(base, |mem|, at, specs) && i < |specs|
    ensures base <= Slot(at, specs, i) && Slot(at, specs, i) - base + specs[i].size <= |mem|
    ensures Loaded(mem, base, at, specs)[i] == Lifted(specs[i], Bytes(mem, Slot(at, specs, i) - base, specs[i].size))
    decreases i
  {
    LoadedStep(mem, base, at, specs);
    if i > 0 {
      LoadedFromSlot(mem, base, AlignUp(at, specs[0].alignment) + specs[0].size, specs[1..], i - 1);
    }
  }

  /** After saving, each variable stands in its slot. */
  lemma SavedInSlot(mem: seq<byte>, base: nat, at: nat, vars: seq<Lifted>, i: nat)
    requires VarsOk(vars) && Within(base, |mem|, at, Specs(vars)) && i < |vars|
    ensures Holds(Saved(mem, base, at, vars), Slot(at, Specs(vars), i) - base, vars[i].data)
  {
    LoadedAfterSaved(mem, base, at, vars);
    LoadedFromSlot(Saved(mem, base, at, vars), base, at, Specs(vars), i);
  }

  /** Memory holds these bytes from the given offset on. */
  ghost predicate Holds(mem: seq<byte>, offset: int, data: seq<byte>) {
    0 <= offset && offset + |data| <= |mem| && Bytes(mem, offset, |data|) == data
  }

  /** A slot at or behind the end of the frame keeps its bytes when the frame is saved again. */
  lemma SlotSurvives(mem: seq<byte>, base: nat, at: nat, vars: seq<Lifted>, slot: nat, data: seq<byte>)
    requires VarsOk(vars) && Within(base, |mem|, at, Specs(vars))
    requires FrameEnd(at, Specs(vars)) <= slot && Holds(mem, slot - base, data)
    ensures Holds(Saved(mem, base, at, vars), slot - base, data)
  {
    forall k | slot - base <= k < slot - base + |data|
      ensures Saved(mem, base, at, vars)[k] == mem[k]
    {
      SavedOutside(mem, base, at, vars, k);
    }
  }

  /** Storing the first variable leaves the rest to be saved behind it. */
  lemma SavedStep(mem: seq<byte>, base: nat, at: nat, vars: seq<Lifted>)
    requires vars != [] && VarsOk(vars) && Within(base, |mem|, at, Specs(vars))
    ensures var p := AlignUp(at, vars[0].spec.alignment);
      && base <= p && p - base + |vars[0].data| <= |mem| && VarsOk(vars[1..])
      && Within(base, |mem|, p + vars[0].spec.size, Specs(vars[1..]))
      && Saved(mem, base, at, vars) == Saved(Copied(mem, p - base, vars[0].data), base, p + vars[0].spec.size, vars[1..])
  {
    FirstSlot(at, Specs(vars));
    assert Specs(vars)[1..] == Specs(vars[1..]);
  }

  lemma LoadedStep(mem: seq<byte>, base: nat, at: nat, specs: seq<Spec>)
    requires specs != [] && Within(base, |mem|, at, specs)
    ensures var p := AlignUp(at, specs[0].alignment);
      && base <= p && p - base + specs[0].size <= |mem| && Within(base, |mem|, p + specs[0].size, specs[1..])
      && Loaded(mem, base, at, specs)
         == [Lifted(specs[0], Bytes(mem, p - base, specs[0].size))] + Loaded(mem, base, p + specs[0].size, specs[1..])
  {
    FirstSlot(at, specs);
  }
}
