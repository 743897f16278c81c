/**
 * The library's own usage scenarios, driven through the engine. Each method
 * returns the contents it observes; its postcondition states them, so the
 * scenario is proved from the engine's contracts alone.
 */
module LibTests {
  import opened Scopes
  import opened ScopedOps

  /** The module documentation's example: push 2 onto [1], look, leave the block. */
  method DocExample() returns (inside: seq<int>, after: seq<int>)
    ensures inside == [1, 2]
    ensures after == [1]
  {
    var a := new Vec([1]);
    var b := Raw(a).Pushed(2);
    inside := Nested(b).AsSlice();
    b.Drop();
    after := Raw(a).AsSlice();
  }

  /**
   * Nested pushes: 2 on [1], then 3 and -3 on that handle one after the
   * other, then -2 on the vector once the outer handle is gone. Every state
   * the vector passes through, starting with the initial one.
   */
  method ScopedVecTest() returns (seen: seq<seq<int>>)
    ensures seen == [[1], [1, 2], [1, 2, 3], [1, 2], [1, 2, -3], [1, 2], [1], [1, -2], [1]]
  {
    var a := new Vec([1]);
    seen := [Raw(a).AsSlice()];
    var b := Raw(a).Pushed(2);
    assert b.VecMut() == a && a.elems == [1, 2];
    seen := seen + [Nested(b).AsSlice()];
    var c := Nested(b).Pushed(3);
    assert c.VecMut() == a && a.elems == [1, 2, 3];
    seen := seen + [Nested(c).VecMut().elems];
    c.Drop();
    assert a.elems == [1, 2];
    seen := seen + [Nested(b).AsSlice()];
    assert seen == [[1], [1, 2], [1, 2, 3], [1, 2]];
    var d := Nested(b).Pushed(-3);
    seen := seen + [Nested(d).VecMut().elems];
    assert a.elems == [1, 2, -3];
    d.Drop();
    assert a.elems == [1, 2];
    seen := seen + [Nested(b).AsSlice()];
    b.Drop();
    assert a.elems == [1];
    seen := seen + [Raw(a).AsSlice()];
    assert seen == [[1], [1, 2], [1, 2, 3], [1, 2], [1, 2, -3], [1, 2], [1]];
    var e := Raw(a).Pushed(-2);
    assert a.elems == [1, -2];
    seen := seen + [Nested(e).VecMut().elems];
    e.Drop();
    assert a.elems == [1];
    seen := seen + [Raw(a).AsSlice()];
  }

  /** The same program written as nested scopes and run by the generic runner. */
  method ScopedVecTestAsScopes() returns (seen: seq<seq<int>>)
    ensures seen == [[1, 2], [1, 2, 3], [1, 2], [1, 2, -3], [1, 2], [1], [1, -2], [1]]
  {
    var a := new Vec([1]);
    var three, minusThree, minusTwo := Scope(3, []), Scope(-3, []), Scope(-2, []);
    var two := Scope(2, [three, minusThree]);
    var program := [two, minusTwo];
    seen := RunScopes(Raw(a), program);
    assert [1, 2] + [3] == [1, 2, 3] && [1, 2] + [-3] == [1, 2, -3] && [1] + [2] == [1, 2] && [1] + [-2] == [1, -2];
    assert ScopesTrace([1, 2, 3], []) == [] && ScopesTrace([1, 2, -3], []) == [] && ScopesTrace([1, -2], []) == [];
    assert ScopeTrace([1, 2], three) == [[1, 2, 3], [1, 2]];
    assert ScopeTrace([1, 2], minusThree) == [[1, 2, -3], [1, 2]];
    assert [three, minusThree][1..] == [minusThree];
    assert ScopesTrace([1, 2], [minusThree]) == [[1, 2, -3], [1, 2]];
    assert ScopesTrace([1, 2], two.inner) == [[1, 2, 3], [1, 2], [1, 2, -3], [1, 2]];
    assert ScopeTrace([1], two) == [[1, 2], [1, 2, 3], [1, 2], [1, 2, -3], [1, 2], [1]];
    assert ScopeTrace([1], minusTwo) == [[1, -2], [1]];
    assert program[1..] == [minusTwo];
    assert ScopesTrace([1], [minusTwo]) == [[1, -2], [1]];
  }

  /** A handle discarded at once: the push is applied and undone, no net change. */
  method MustUseTest() returns (seen: seq<int>)
    ensures seen == [1]
  {
    var a := new Vec([1]);
    var b := Raw(a).Pushed(2);
    b.Drop();
    seen := Raw(a).AsSlice();
  }
}
