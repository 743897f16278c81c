/**
 * The meaning of nested scoped pushes, stated on plain sequences.
 *
 * A caller of the engine writes nested blocks: each block binds a `pushed`
 * handle, may open further blocks on that handle, and drops the handle when
 * it ends. `Scope` is one such block. Two readings of a program made of
 * scopes are given here and proved to agree:
 *  - `ScopeTrace`, the intended meaning: every state the vector passes
 *    through, where leaving a scope returns to the state before it;
 *  - `Replay` of `ScopeOps`, what actually happens to the backing vector:
 *    the flat list of appends and pop-lasts the handles issue, where a pop
 *    on an empty vector is the defect the drop asserts against.
 */
module Scopes {

  datatype Option<T> = None | Some(value: T)

  /** What the engine does to the backing vector: `pushed` appends, a drop pops the last element. */
  datatype Op<T> = PushOp(value: T) | PopOp

  /** A block holding one `pushed(value)` handle, with the blocks nested on that handle, in order. */
  datatype Scope<T> = Scope(value: T, inner: seq<Scope<T>>)

  /** One vector operation; `None` when a pop finds the vector empty. */
  function Step<T>(s: seq<T>, op: Op<T>): (r: Option<seq<T>>)
    ensures op.PushOp? ==> r.Some? && |r.value| == |s| + 1 && r.value[..|s|] == s && r.value[|s|] == op.value
    ensures op.PopOp? ==> (r.None? <==> s == [])
    ensures op.PopOp? && r.Some? ==> r.value + [s[|s| - 1]] == s
  {
    match op
    case PushOp(v) => Some(s + [v])
    case PopOp => if s == [] then None else Some(s[..|s| - 1])
  }

  /** The states after each operation of `ops`, starting from `s`; `None` if some pop finds the vector empty. */
  function Replay<T>(s: seq<T>, ops: seq<Op<T>>): (r: Option<seq<seq<T>>>)
    ensures r.Some? ==> |r.value| == |ops|
    decreases |ops|
  {
    if ops == [] then Some([])
    else
      match Step(s, ops[0])
      case None => None
      case Some(s') =>
        match Replay(s', ops[1..])
        case None => None
        case Some(t) => Some([s'] + t)
  }

  /** The state a trace ends in, `s` for an empty trace. */
  function Final<T>(s: seq<T>, trace: seq<seq<T>>): seq<T>
  {
    if trace == [] then s else trace[|trace| - 1]
  }

  /** The vector operations a scope issues: its push, those of its nested scopes, its drop. */
  function ScopeOps<T>(sc: Scope<T>): seq<Op<T>>
    decreases sc
  {
    [PushOp(sc.value)] + ScopesOps(sc.inner) + [PopOp]
  }

  function ScopesOps<T>(scs: seq<Scope<T>>): seq<Op<T>>
    decreases scs
  {
    if scs == [] then [] else ScopeOps(scs[0]) + ScopesOps(scs[1..])
  }

  /**
   * The states a scope entered in state `s` is meant to show: `s` with its
   * value appended, then the states of its nested scopes, each entered in
   * that pushed state, and finally `s` again once its handle is dropped.
   */
  function ScopeTrace<T>(s: seq<T>, sc: Scope<T>): seq<seq<T>>
    decreases sc
  {
    [s + [sc.value]] + ScopesTrace(s + [sc.value], sc.inner) + [s]
  }

  /** Sibling scopes run one after the other, each entered in the same state `s`. */
  function ScopesTrace<T>(s: seq<T>, scs: seq<Scope<T>>): seq<seq<T>>
    decreases scs
  {
    if scs == [] then [] else ScopeTrace(s, scs[0]) + ScopesTrace(s, scs[1..])
  }

  /** Replaying `a + b` is replaying `a`, then replaying `b` from where `a` ended. */
  lemma {:induction false} ReplayAppend<T>(s: seq<T>, a: seq<Op<T>>, b: seq<Op<T>>, ta: seq<seq<T>>)
    requires Replay(s, a) == Some(ta)
    ensures Replay(s, a + b) == match Replay(Final(s, ta), b)
                                case None => None
                                case Some(tb) => Some(ta + tb)
    decreases |a|
  {
    if a == [] {
      assert a + b == b && ta == [];
      match Replay(s, b)
      case None =>
      case Some(tb) => assert ta + tb == tb;
    } else {
      assert (a + b)[0] == a[0];
      assert (a + b)[1..] == a[1..] + b;
      assert Step(s, a[0]).Some? && Replay(Step(s, a[0]).value, a[1..]).Some?;
      var s' := Step(s, a[0]).value;
      var t := Replay(s', a[1..]).value;
      assert ta == [s'] + t;
      ReplayAppend(s', a[1..], b, t);
      assert Final(s', t) == Final(s, ta);
      match Replay(Final(s, ta), b)
      case None =>
      case Some(tb) =>
        assert [s'] + (t + tb) == ta + tb;
    }
  }

  /** Replaying a single operation is taking that one step. */
  lemma ReplayOne<T>(s: seq<T>, op: Op<T>)
    ensures Replay(s, [op]) == match Step(s, op)
                               case None => None
                               case Some(s') => Some([s'])
  {
    var ops := [op];
    assert ops[0] == op && ops[1..] == [];
    match Step(s, op)
    case None =>
    case Some(s') =>
      assert Replay(s', ops[1..]) == Some([]) && [s'] + [] == [s'];
  }

  /**
   * The flat operations of a scope entered in `s` never pop an empty vector,
   * and they pass through exactly the states of `ScopeTrace`: unwinding in
   * reverse order of creation reproduces every intermediate state.
   */
  lemma {:induction false} ScopeReplay<T>(s: seq<T>, sc: Scope<T>)
    ensures Replay(s, ScopeOps(sc)) == Some(ScopeTrace(s, sc))
    decreases sc
  {
    var pushed := s + [sc.value];
    var inner := ScopesOps(sc.inner);
    ScopesReplay(pushed, sc.inner);
    var ti := ScopesTrace(pushed, sc.inner);
    ReplayOne(s, PushOp(sc.value));
    ReplayAppend(s, [PushOp(sc.value)], inner, [pushed]);
    assert Replay(s, [PushOp(sc.value)] + inner) == Some([pushed] + ti);
    ScopesTraceFinal(pushed, sc.inner);
    assert Final(s, [pushed] + ti) == pushed;
    assert pushed[..|pushed| - 1] == s;
    ReplayOne(pushed, PopOp);
    ReplayAppend(s, [PushOp(sc.value)] + inner, [PopOp], [pushed] + ti);
  }

  lemma {:induction false} ScopesReplay<T>(s: seq<T>, scs: seq<Scope<T>>)
    ensures Replay(s, ScopesOps(scs)) == Some(ScopesTrace(s, scs))
    decreases scs
  {
    if scs != [] {
      ScopeReplay(s, scs[0]);
      ScopesReplay(s, scs[1..]);
      ReplayAppend(s, ScopeOps(scs[0]), ScopesOps(scs[1..]), ScopeTrace(s, scs[0]));
    }
  }

  /** A run of sibling scopes entered in `s` ends in `s`. */
  lemma {:induction false} ScopesTraceFinal<T>(s: seq<T>, scs: seq<Scope<T>>)
    ensures Final(s, ScopesTrace(s, scs)) == s
    decreases scs
  {
    if scs != [] {
      ScopesTraceFinal(s, scs[1..]);
    }
  }

  /**
   * While a scope's handle is alive, every state keeps the entry state and
   * the scope's own value at the bottom: nested handles never reach below
   * the element their enclosing handle pushed. Only the last state, after
   * the drop, is the entry state itself.
   */
  lemma {:induction false} ScopeTraceAbove<T>(s: seq<T>, sc: Scope<T>)
    ensures var t := ScopeTrace(s, sc);
      t[|t| - 1] == s &&
      forall i :: 0 <= i < |t| - 1 ==> |t[i]| > |s| && t[i][..|s| + 1] == s + [sc.value]
    decreases sc
  {
    var p := s + [sc.value];
    ScopesTraceAbove(p, sc.inner);
    var ti := ScopesTrace(p, sc.inner);
    var t := ScopeTrace(s, sc);
    assert t == [p] + ti + [s];
    forall i | 0 <= i < |t| - 1
      ensures |t[i]| > |s| && t[i][..|s| + 1] == p
    {
      if i > 0 {
        assert t[i] == ti[i - 1];
        assert t[i][..|s| + 1] == ti[i - 1][..|p|];
      }
    }
  }

  /** Every state of a run of sibling scopes entered in `s` extends `s`. */
  lemma {:induction false} ScopesTraceAbove<T>(s: seq<T>, scs: seq<Scope<T>>)
    ensures forall i :: 0 <= i < |ScopesTrace(s, scs)| ==>
      |ScopesTrace(s, scs)[i]| >= |s| && ScopesTrace(s, scs)[i][..|s|] == s
    decreases scs
  {
    if scs != [] {
      var t0 := ScopeTrace(s, scs[0]);
      var tr := ScopesTrace(s, scs[1..]);
      ScopeTraceAbove(s, scs[0]);
      ScopesTraceAbove(s, scs[1..]);
      var t := ScopesTrace(s, scs);
      assert t == t0 + tr;
      forall i | 0 <= i < |t|
        ensures |t[i]| >= |s| && t[i][..|s|] == s
      {
        if i < |t0| {
          assert t[i] == t0[i];
          if i < |t0| - 1 {
            assert t0[i][..|s|] == t0[i][..|s| + 1][..|s|];
          }
        } else {
          assert t[i] == tr[i - |t0|];
        }
      }
    }
  }
}
