/**
 * Scoped pushes onto a growable vector.
 *
 * `pushed(value)` appends `value` to a vector straight away and hands back a
 * `Push` handle; dropping the handle pops the element again. A handle offers
 * the same capability as the vector it wraps (mutable access to one backing
 * vector), so pushes nest: a push can be applied to a push, and all handles
 * of a chain read and write the same backing vector.
 */
module ScopedOps {
  import opened Scopes

  /**
   * The growable vector: only its element-wise contents are modelled. The
   * ghost `log` records every push and pop made on it since construction.
   */
  class Vec<T> {
    var elems: seq<T>
    ghost var log: seq<Op<T>>

    constructor (init: seq<T>)
      ensures elems == init && log == []
    {
      elems := init;
      log := [];
    }

    /** Appends `x` at the end. */
    method Push(x: T)
      modifies this
      ensures elems == old(elems) + [x]
      ensures log == old(log) + [PushOp(x)]
    {
      elems := elems + [x];
      log := log + [PushOp(x)];
    }

    /** Removes and returns the last element, or `None` when there is none. */
    method Pop() returns (r: Option<T>)
      modifies this
      ensures old(elems) == [] ==> r == None && elems == []
      ensures old(elems) != [] ==> r == Some(old(elems)[|old(elems)| - 1]) && elems + [r.value] == old(elems)
      ensures log == old(log) + [PopOp]
    {
      log := log + [PopOp];
      if elems == [] {
        r := None;
      } else {
        r := Some(elems[|elems| - 1]);
        elems := elems[..|elems| - 1];
      }
    }
  }

  /**
   * Anything that can be scoped: a plain vector, or a `Push` handle applied
   * to something that can be scoped. Every such value gives mutable access
   * to exactly one backing vector.
   */
  datatype Scoped<T> = Raw(vec: Vec<T>) | Nested(push: Push<T>)
  {
    /** How many handles lie between this value and its backing vector. */
    ghost function Depth(): nat
    {
      match this
      case Raw(_) => 0
      case Nested(p) => p.depth
    }

    /** The chain of handles down to the backing vector is finite. */
    ghost predicate WellFormed()
      decreases Depth(), 1
    {
      match this
      case Raw(_) => true
      case Nested(p) => p.WellFormed()
    }

    /** The handles of the chain, from this one down to the backing vector. */
    ghost function Handles(): set<Push<T>>
      requires WellFormed()
      decreases Depth(), 1
    {
      match this
      case Raw(_) => {}
      case Nested(p) =>
        assert p.WellFormed();
        assert p.target.Depth() < p.depth && p.target.WellFormed();
        {p} + p.target.Handles()
    }

    /** The backing vector: a vector is its own, a handle delegates to what it wraps. */
    function VecMut(): (v: Vec<T>)
      requires WellFormed()
      ensures Raw? ==> v == vec
      decreases Depth(), 1
    {
      match this
      case Raw(v) => v
      case Nested(p) => p.VecMut()
    }

    /** The current contents of the backing vector, read without changing anything. */
    function AsSlice(): (r: seq<T>)
      requires WellFormed()
      reads VecMut()
      ensures r == VecMut().elems
    {
      VecMut().elems
    }

    /**
     * Appends `value` to the backing vector at once and returns the handle
     * whose drop will pop it again. The handle wraps this value and shares
     * its backing vector.
     */
    method Pushed(value: T) returns (h: Push<T>)
      requires WellFormed()
      modifies VecMut()
      ensures fresh(h) && h.WellFormed() && h.target == this
      ensures h.VecMut() == VecMut()
      ensures h.before == old(VecMut().elems) && h.value == value
      ensures VecMut().elems == old(VecMut().elems) + [value]
      ensures h.Live()
      ensures VecMut().log == old(VecMut().log) + [PushOp(value)]
    {
      var v := VecMut();
      ghost var before, logBefore := v.elems, v.log;
      v.Push(value);
      assert v.elems == before + [value] && v.log == logBefore + [PushOp(value)];
      h := new Push(this, before, value);
      assert VecMut() == v && h.VecMut() == v;
      assert old(VecMut().elems) == before && old(VecMut().log) == logBefore;
    }
  }

  /**
   * The handle for one pushed element. It holds only the thing it was
   * applied to; what it pushed and the contents before the push are kept as
   * ghost state to say what its drop restores.
   */
  class Push<T> {
    const target: Scoped<T>
    ghost const depth: nat
    /** The contents of the backing vector just before the push. */
    ghost const before: seq<T>
    /** The pushed element. */
    ghost const value: T

    /**
     * Wraps `target` right after `value` was pushed onto its backing vector,
     * whose contents were `before`; only `Pushed` builds handles.
     */
    constructor (target: Scoped<T>, ghost before: seq<T>, ghost value: T)
      requires target.WellFormed()
      requires target.VecMut().elems == before + [value]
      ensures this.target == target && this.before == before && this.value == value
      ensures WellFormed() && Live()
    {
      this.target := target;
      this.depth := target.Depth() + 1;
      this.before := before;
      this.value := value;
    }

    ghost predicate WellFormed()
      decreases depth, 0
    {
      target.Depth() < depth && target.WellFormed()
    }

    /** A handle's backing vector is the one of what it wraps. */
    function VecMut(): (v: Vec<T>)
      requires WellFormed()
      ensures v == target.VecMut()
      decreases depth, 0
    {
      target.VecMut()
    }

    /**
     * The backing vector holds exactly the contents from before the push
     * followed by the pushed element. This holds whenever every handle made
     * after this one has been dropped in reverse order and nothing else
     * changed the vector.
     */
    ghost predicate Live()
      requires WellFormed()
      reads VecMut()
    {
      VecMut().elems == before + [value]
    }

    /**
     * Undoes the push by popping the last element of the backing vector.
     * The vector must not be empty: an empty vector here means someone
     * popped the element illicitly, a defect the drop asserts against.
     */
    method Drop()
      requires WellFormed()
      requires VecMut().elems != []
      modifies VecMut()
      ensures VecMut().elems + [old(VecMut().elems)[|old(VecMut().elems)| - 1]] == old(VecMut().elems)
      ensures old(Live()) ==> VecMut().elems == before
      ensures VecMut().log == old(VecMut().log) + [PopOp]
    {
      var popped := VecMut().Pop();
      var didPop := popped.Some?;
      assert didPop;
      ghost var was := old(VecMut().elems);
      assert VecMut().elems == was[..|was| - 1];
      if old(Live()) {
        assert was[..|was| - 1] == before;
      }
    }
  }

  /** Every handle of a chain reads and writes the backing vector of the outermost one. */
  lemma {:induction false} SharedBacking<T>(s: Scoped<T>)
    requires s.WellFormed()
    ensures forall p :: p in s.Handles() ==> p.WellFormed() && p.VecMut() == s.VecMut()
    decreases s.Depth()
  {
    match s
    case Raw(_) =>
    case Nested(p) =>
      SharedBacking(p.target);
  }

  /** Reading through any handle of a chain shows the contents of the outermost value's vector. */
  lemma SharedView<T>(s: Scoped<T>)
    requires s.WellFormed()
    ensures forall p :: p in s.Handles() ==> p.WellFormed() && Nested(p).AsSlice() == s.AsSlice()
  {
    SharedBacking(s);
  }

  /**
   * Runs one scope on `target`: push its value, run the scopes nested on the
   * new handle, drop the handle. Returns the contents seen after each step.
   */
  method RunScope<T>(target: Scoped<T>, sc: Scope<T>) returns (trace: seq<seq<T>>)
    requires target.WellFormed()
    modifies target.VecMut()
    ensures target.VecMut().elems == old(target.VecMut().elems)
    ensures trace == ScopeTrace(old(target.VecMut().elems), sc)
    ensures target.VecMut().log == old(target.VecMut().log) + ScopeOps(sc)
    decreases sc, 1
  {
    var h := target.Pushed(sc.value);
    var first := Nested(h).AsSlice();
    var rest := RunScopes(Nested(h), sc.inner);
    h.Drop();
    trace := [first] + rest + [target.AsSlice()];
  }

  /** Runs sibling scopes on `target`, one after the other. */
  method RunScopes<T>(target: Scoped<T>, scs: seq<Scope<T>>) returns (trace: seq<seq<T>>)
    requires target.WellFormed()
    modifies target.VecMut()
    ensures target.VecMut().elems == old(target.VecMut().elems)
    ensures trace == ScopesTrace(old(target.VecMut().elems), scs)
    ensures target.VecMut().log == old(target.VecMut().log) + ScopesOps(scs)
    decreases scs, 0
  {
    if scs == [] {
      trace := [];
    } else {
      ghost var v, entry, logBefore := target.VecMut(), target.VecMut().elems, target.VecMut().log;
      var t0 := RunScope(target, scs[0]);
      assert v.elems == entry && v.log == logBefore + ScopeOps(scs[0]);
      var rest := RunScopes(target, scs[1..]);
      assert v.elems == entry;
      assert v.log == logBefore + ScopeOps(scs[0]) + ScopesOps(scs[1..]);
      trace := t0 + rest;
      assert trace == ScopesTrace(entry, scs);
      assert ScopeOps(scs[0]) + ScopesOps(scs[1..]) == ScopesOps(scs);
    }
  }
}
