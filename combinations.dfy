/** The attribute/value combination generator of the product controller
    (`generateCombinations`): the Cartesian product of the selected values,
    built by crossing a running list of partial combinations with one
    attribute at a time. */
module Combinations {

  /** One entry of the request's `attribute` list: an attribute and the
      value ids selected for it, in request order. */
  datatype Selection = Selection(attributeId: int, valueIds: seq<int>)

  /** One entry of a combination: the pair `attribute_id`, `value_id`. */
  datatype Choice = Choice(attributeId: int, valueId: int)

  type Combination = seq<Choice>

  /** `combo` followed by each value of `sel`, in value order. */
  function Extend(combo: Combination, sel: Selection): seq<Combination>
  {
    seq(|sel.valueIds|, j requires 0 <= j < |sel.valueIds| => combo + [Choice(sel.attributeId, sel.valueIds[j])])
  }

  /** One pass of the outer loop: every partial combination, in order,
      crossed with every value of `sel`. */
  function Cross(combos: seq<Combination>, sel: Selection): seq<Combination>
  {
    if combos == [] then []
    else Cross(combos[..|combos| - 1], sel) + Extend(combos[|combos| - 1], sel)
  }

  /** The generator's result as a function: one empty combination, crossed
      with each selection in request order. */
  function Expand(sels: seq<Selection>): seq<Combination>
  {
    if sels == [] then [[]]
    else Cross(Expand(sels[..|sels| - 1]), sels[|sels| - 1])
  }

  /** The product of the numbers of selected values. */
  function Count(sels: seq<Selection>): nat
  {
    if sels == [] then 1 else Count(sels[..|sels| - 1]) * |sels[|sels| - 1].valueIds|
  }

  /** `generateCombinations`: nested loops that rebuild the list of
      combinations once per attribute. */
  method GenerateCombinations(sels: seq<Selection>) returns (combos: seq<Combination>)
    ensures combos == Expand(sels)
  {
    combos := [[]];
    for i := 0 to |sels|
      invariant combos == Expand(sels[..i])
    {
      var sel := sels[i];
      var next: seq<Combination> := [];
      for j := 0 to |combos|
        invariant next == Cross(combos[..j], sel)
      {
        for k := 0 to |sel.valueIds|
          invariant next == Cross(combos[..j], sel) + Extend(combos[j], sel)[..k]
        {
          next := next + [combos[j] + [Choice(sel.attributeId, sel.valueIds[k])]];
          assert Extend(combos[j], sel)[..k + 1] == Extend(combos[j], sel)[..k] + [combos[j] + [Choice(sel.attributeId, sel.valueIds[k])]];
        }
        assert combos[..j + 1][..j] == combos[..j];
      }
      assert combos[..|combos|] == combos;
      assert sels[..i + 1][..i] == sels[..i];
      combos := next;
    }
    assert sels[..|sels|] == sels;
  }

  lemma {:induction false} CrossLength(combos: seq<Combination>, sel: Selection)
    ensures |Cross(combos, sel)| == |combos| * |sel.valueIds|
  {
    if combos != [] {
      CrossLength(combos[..|combos| - 1], sel);
      assert |combos| * |sel.valueIds| == (|combos| - 1) * |sel.valueIds| + |sel.valueIds|;
    }
  }

  /** The generator returns exactly the product of the value-list sizes
      many combinations: one empty combination for no attributes, none as
      soon as one attribute has no values. */
  lemma {:induction false} ExpandCount(sels: seq<Selection>)
    ensures |Expand(sels)| == Count(sels)
    ensures sels == [] ==> Expand(sels) == [[]]
    ensures (exists k :: 0 <= k < |sels| && sels[k].valueIds == []) ==> Expand(sels) == []
  {
    if sels != [] {
      var init := sels[..|sels| - 1];
      ExpandCount(init);
      CrossLength(Expand(init), sels[|sels| - 1]);
      if exists k :: 0 <= k < |sels| && sels[k].valueIds == [] {
        var k :| 0 <= k < |sels| && sels[k].valueIds == [];
        if k < |sels| - 1 {
          assert init[k].valueIds == [];
        }
      }
    }
  }

  /** Every member of `Cross(combos, sel)` is a member of `combos` with one
      value of `sel` appended. */
  lemma {:induction false} CrossMember(combos: seq<Combination>, sel: Selection, i: nat)
    requires i < |Cross(combos, sel)|
    ensures exists a, j :: 0 <= a < |combos| && 0 <= j < |sel.valueIds| &&
                           Cross(combos, sel)[i] == combos[a] + [Choice(sel.attributeId, sel.valueIds[j])]
  {
    var init := combos[..|combos| - 1];
    var head := Cross(init, sel);
    if i < |head| {
      CrossMember(init, sel, i);
      var a, j :| 0 <= a < |init| && 0 <= j < |sel.valueIds| &&
                  head[i] == init[a] + [Choice(sel.attributeId, sel.valueIds[j])];
      assert init[a] == combos[a];
    } else {
      var j := i - |head|;
      assert Cross(combos, sel)[i] == combos[|combos| - 1] + [Choice(sel.attributeId, sel.valueIds[j])];
    }
  }

  /** Every combination has one entry per attribute, in request order;
      entry k carries attribute k's id and one of attribute k's values. */
  lemma {:induction false} ExpandShape(sels: seq<Selection>, i: nat)
    requires i < |Expand(sels)|
    ensures |Expand(sels)[i]| == |sels|
    ensures forall k :: 0 <= k < |sels| ==>
              Expand(sels)[i][k].attributeId == sels[k].attributeId && Expand(sels)[i][k].valueId in sels[k].valueIds
  {
    if sels != [] {
      var m := |sels| - 1;
      var init := sels[..m];
      CrossMember(Expand(init), sels[m], i);
      var a, j :| 0 <= a < |Expand(init)| && 0 <= j < |sels[m].valueIds| &&
                  Expand(sels)[i] == Expand(init)[a] + [Choice(sels[m].attributeId, sels[m].valueIds[j])];
      ExpandShape(init, a);
      forall k | 0 <= k < |sels|
        ensures Expand(sels)[i][k].attributeId == sels[k].attributeId && Expand(sels)[i][k].valueId in sels[k].valueIds
      {
        if k < m {
          assert Expand(sels)[i][k] == Expand(init)[a][k];
          assert init[k] == sels[k];
        }
      }
    }
  }

  lemma MulStep(a: int, b: int, n: int)
    requires 0 <= a < b && 0 <= n
    ensures a * n + n <= b * n
  {
    var d := b - a - 1;
    assert d * n >= 0;
    assert b * n == a * n + n + d * n;
  }

  /** Within one pass, the value of the new attribute varies fastest:
      partial combination a crossed with value j lands at a * n + j. */
  lemma {:induction false} CrossAt(combos: seq<Combination>, sel: Selection, a: nat, j: nat)
    requires a < |combos| && j < |sel.valueIds|
    ensures a * |sel.valueIds| + j < |Cross(combos, sel)|
    ensures Cross(combos, sel)[a * |sel.valueIds| + j] == combos[a] + [Choice(sel.attributeId, sel.valueIds[j])]
  {
    var n := |sel.valueIds|;
    var init := combos[..|combos| - 1];
    CrossLength(combos, sel);
    CrossLength(init, sel);
    MulStep(a, |combos|, n);
    if a == |combos| - 1 {
      assert a * n == |Cross(init, sel)|;
    } else {
      CrossAt(init, sel, a, j);
      MulStep(a, |init|, n);
      assert init[a] == combos[a];
    }
  }

  /** A vector of value positions, one per attribute, each within range. */
  ghost predicate Positions(sels: seq<Selection>, pos: seq<nat>)
  {
    |pos| == |sels| && forall k :: 0 <= k < |sels| ==> pos[k] < |sels[k].valueIds|
  }

  /** The combination that picks value position pos[k] of attribute k. */
  ghost function Pick(sels: seq<Selection>, pos: seq<nat>): Combination
    requires Positions(sels, pos)
  {
    seq(|sels|, k requires 0 <= k < |sels| => Choice(sels[k].attributeId, sels[k].valueIds[pos[k]]))
  }

  /** The mixed-radix number whose digits are `pos`, the last digit least significant. */
  ghost function Rank(sels: seq<Selection>, pos: seq<nat>): nat
    requires Positions(sels, pos)
  {
    if sels == [] then 0
    else Rank(sels[..|sels| - 1], pos[..|pos| - 1]) * |sels[|sels| - 1].valueIds| + pos[|pos| - 1]
  }

  /** Lexicographic order on position vectors of equal length. */
  ghost predicate LexLess(p: seq<nat>, q: seq<nat>)
  {
    |p| == |q| && exists k :: 0 <= k < |p| && p[..k] == q[..k] && p[k] < q[k]
  }

  /** The combination choosing positions `pos` sits at index Rank(pos):
      the generator enumerates position vectors as a mixed-radix counter
      whose last attribute varies fastest. */
  lemma {:induction false} ExpandAt(sels: seq<Selection>, pos: seq<nat>)
    requires Positions(sels, pos)
    ensures Rank(sels, pos) < |Expand(sels)|
    ensures Expand(sels)[Rank(sels, pos)] == Pick(sels, pos)
  {
    if sels != [] {
      var m := |sels| - 1;
      var init, ipos := sels[..m], pos[..m];
      assert Positions(init, ipos);
      ExpandAt(init, ipos);
      var r, n := Rank(init, ipos), |sels[m].valueIds|;
      assert Rank(sels, pos) == r * n + pos[m];
      assert Expand(sels) == Cross(Expand(init), sels[m]);
      CrossAt(Expand(init), sels[m], r, pos[m]);
      var last := Choice(sels[m].attributeId, sels[m].valueIds[pos[m]]);
      forall k | 0 <= k < |sels| ensures Pick(sels, pos)[k] == (Pick(init, ipos) + [last])[k] {
        if k < m {
          assert init[k] == sels[k] && ipos[k] == pos[k];
        }
      }
      assert Pick(sels, pos) == Pick(init, ipos) + [last];
    }
  }

  /** Earlier position vectors (lexicographically) come out earlier. */
  lemma {:induction false} RankMonotone(sels: seq<Selection>, p: seq<nat>, q: seq<nat>)
    requires Positions(sels, p) && Positions(sels, q) && LexLess(p, q)
    ensures Rank(sels, p) < Rank(sels, q)
  {
    var m := |sels| - 1;
    var k :| 0 <= k < |p| && p[..k] == q[..k] && p[k] < q[k];
    var init, pi, qi := sels[..m], p[..m], q[..m];
    assert Positions(init, pi) && Positions(init, qi);
    var n := |sels[m].valueIds|;
    if k < m {
      assert pi[..k] == p[..k] && qi[..k] == q[..k];
      assert LexLess(pi, qi);
      RankMonotone(init, pi, qi);
      MulStep(Rank(init, pi), Rank(init, qi), n);
    } else {
      assert pi == p[..k] && qi == q[..k];
    }
  }
}
