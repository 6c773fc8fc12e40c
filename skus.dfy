/** SKU construction in `updateVariants`: the human-readable value names of a
    combination, in combination order, joined with dashes behind "SKU-". */
module Skus {
  import opened Combinations

  const Prefix: string := "SKU-"
  const Dash: char := '-'

  /** The name of an attribute value; a missing value row yields null,
      which `implode` renders as the empty string. */
  function ValueName(names: map<int, string>, valueId: int): (r: string)
    ensures valueId !in names ==> r == ""
    ensures valueId in names ==> r == names[valueId]
  {
    if valueId in names then names[valueId] else ""
  }

  /** `implode('-', parts)`. */
  function Join(parts: seq<string>): string
  {
    if parts == [] then ""
    else if |parts| == 1 then parts[0]
    else parts[0] + [Dash] + Join(parts[1..])
  }

  /** `explode('-', s)`: the inverse of Join on parts without dashes. */
  function Split(s: string): (r: seq<string>)
    ensures |r| >= 1
  {
    if s == [] then [""]
    else if s[0] == Dash then [""] + Split(s[1..])
    else
      var rest := Split(s[1..]);
      [[s[0]] + rest[0]] + rest[1..]
  }

  /** The value names of a combination, in combination order. */
  function NamesOf(names: map<int, string>, combo: Combination): seq<string>
  {
    seq(|combo|, k requires 0 <= k < |combo| => ValueName(names, combo[k].valueId))
  }

  /** The SKU of a combination. */
  function Sku(names: map<int, string>, combo: Combination): string
  {
    Prefix + Join(NamesOf(names, combo))
  }

  /** `requestVariantSkus`: one SKU per combination, in combination order. */
  function SkusOf(names: map<int, string>, combos: seq<Combination>): (skus: seq<string>)
    ensures |skus| == |combos|
  {
    seq(|combos|, i requires 0 <= i < |combos| => Sku(names, combos[i]))
  }

  ghost predicate Dashless(parts: seq<string>)
  {
    forall i :: 0 <= i < |parts| ==> Dash !in parts[i]
  }

  /** The inner loop of `updateVariants` that looks up one value name per
      entry of the combination. */
  method SkuParts(names: map<int, string>, combo: Combination) returns (parts: seq<string>)
    ensures |parts| == |combo|
    ensures forall k :: 0 <= k < |combo| ==> parts[k] == ValueName(names, combo[k].valueId)
  {
    parts := [];
    for k := 0 to |combo|
      invariant |parts| == k
      invariant forall m :: 0 <= m < k ==> parts[m] == ValueName(names, combo[m].valueId)
    {
      parts := parts + [ValueName(names, combo[k].valueId)];
    }
  }

  /** The SKU of one combination, as the first loop of `updateVariants`
      builds it. */
  method SkuFor(names: map<int, string>, combo: Combination) returns (sku: string)
    ensures sku == Sku(names, combo)
  {
    var parts := SkuParts(names, combo);
    assert parts == NamesOf(names, combo);
    sku := Prefix + Join(parts);
  }

  /** One more combination adds its SKU at the end. */
  lemma SkusOfStep(names: map<int, string>, combos: seq<Combination>, c: Combination)
    ensures SkusOf(names, combos + [c]) == SkusOf(names, combos) + [Sku(names, c)]
  {
  }

  lemma {:induction false} SplitDashlessPrefix(p: string, s: string)
    requires Dash !in p
    ensures Split(p + s) == [p + Split(s)[0]] + Split(s)[1..]
  {
    if p != [] {
      assert (p + s)[0] == p[0];
      assert (p + s)[1..] == p[1..] + s;
      SplitDashlessPrefix(p[1..], s);
      assert [p[0]] + (p[1..] + Split(s)[0]) == p + Split(s)[0];
    } else {
      assert p + s == s;
      assert p + Split(s)[0] == Split(s)[0];
      assert [Split(s)[0]] + Split(s)[1..] == Split(s);
    }
  }

  /** Splitting a joined list of dash-free parts gives the parts back. */
  lemma {:induction false} SplitJoin(parts: seq<string>)
    requires |parts| >= 1 && Dashless(parts)
    ensures Split(Join(parts)) == parts
  {
    if |parts| == 1 {
      SplitDashlessPrefix(parts[0], "");
      assert parts[0] + "" == parts[0];
    } else {
      var tail := Join(parts[1..]);
      assert Dashless(parts[1..]);
      SplitJoin(parts[1..]);
      assert Join(parts) == parts[0] + ([Dash] + tail);
      SplitDashlessPrefix(parts[0], [Dash] + tail);
      assert ([Dash] + tail)[1..] == tail;
      assert parts[0] + "" == parts[0];
      assert [parts[0]] + parts[1..] == parts;
    }
  }

  /** A SKU determines the value names it was built from, as long as the
      combination is not empty and no name contains a dash. */
  lemma SkuDecodes(names: map<int, string>, combo: Combination)
    requires |combo| >= 1 && Dashless(NamesOf(names, combo))
    ensures Sku(names, combo)[..|Prefix|] == Prefix
    ensures Split(Sku(names, combo)[|Prefix|..]) == NamesOf(names, combo)
  {
    assert Sku(names, combo)[|Prefix|..] == Join(NamesOf(names, combo));
    SplitJoin(NamesOf(names, combo));
  }

  /** Two non-empty combinations with dash-free value names get the same SKU
      only if their value names agree entry by entry. */
  lemma SkuInjective(names: map<int, string>, c1: Combination, c2: Combination)
    requires |c1| >= 1 && |c2| >= 1
    requires Dashless(NamesOf(names, c1)) && Dashless(NamesOf(names, c2))
    requires Sku(names, c1) == Sku(names, c2)
    ensures NamesOf(names, c1) == NamesOf(names, c2)
  {
    SkuDecodes(names, c1);
    SkuDecodes(names, c2);
  }

  /** Value names that contain a dash make different combinations share a
      SKU: ("a-b", "c") and ("a", "b-c") both give "SKU-a-b-c". */
  lemma DashedNamesCollide()
    ensures var names := map[1 := "a-b", 2 := "c", 3 := "a", 4 := "b-c"];
            Sku(names, [Choice(10, 1), Choice(20, 2)]) == Sku(names, [Choice(10, 3), Choice(20, 4)]) == "SKU-a-b-c"
  {
    var names := map[1 := "a-b", 2 := "c", 3 := "a", 4 := "b-c"];
    assert NamesOf(names, [Choice(10, 1), Choice(20, 2)]) == ["a-b", "c"];
    assert NamesOf(names, [Choice(10, 3), Choice(20, 4)]) == ["a", "b-c"];
  }

  /** The colour selection alone: one combination per colour. */
  lemma ColourOnly(colour: Selection)
    requires colour == Selection(7, [1, 2])
    ensures Expand([colour]) == [[Choice(7, 1)], [Choice(7, 2)]]
  {
    assert [colour][..0] == [];
    var e0 := Extend([], colour);
    assert |e0| == 2 && e0[0] == [Choice(7, 1)] && e0[1] == [Choice(7, 2)];
    assert Expand([colour]) == Cross([[]], colour) == Cross([], colour) + e0;
  }

  /** Colour {Red, Blue} crossed with size {S, M}: four combinations, the
      size varying fastest. */
  lemma ColourSizeCombinations()
    ensures Expand([Selection(7, [1, 2]), Selection(8, [3, 4])])
         == [[Choice(7, 1), Choice(8, 3)], [Choice(7, 1), Choice(8, 4)],
             [Choice(7, 2), Choice(8, 3)], [Choice(7, 2), Choice(8, 4)]]
  {
    var colour, size := Selection(7, [1, 2]), Selection(8, [3, 4]);
    var sels := [colour, size];
    assert sels[..1] == [colour];
    ColourOnly(colour);
    var colours := Expand(sels[..1]);
    var e1 := Extend(colours[0], size);
    var e2 := Extend(colours[1], size);
    assert |e1| == 2 && e1[0] == [Choice(7, 1), Choice(8, 3)] && e1[1] == [Choice(7, 1), Choice(8, 4)];
    assert |e2| == 2 && e2[0] == [Choice(7, 2), Choice(8, 3)] && e2[1] == [Choice(7, 2), Choice(8, 4)];
    assert colours[..1] == [colours[0]] && [colours[0]][..0] == [];
    assert Cross([colours[0]], size) == Cross([], size) + e1;
    assert Expand(sels) == Cross(colours, size) == Cross([colours[0]], size) + e2 == e1 + e2;
  }

  lemma SkuOfPair(names: map<int, string>, a: int, b: int, x: int, y: int)
    requires x in names && y in names
    ensures Sku(names, [Choice(a, x), Choice(b, y)]) == Prefix + names[x] + [Dash] + names[y]
  {
    assert NamesOf(names, [Choice(a, x), Choice(b, y)]) == [names[x], names[y]];
    assert Join([names[y]]) == names[y];
  }

  /** ... and the SKUs SKU-Red-S, SKU-Red-M, SKU-Blue-S, SKU-Blue-M, in that order. */
  lemma ColourSizeSkus()
    ensures var names := map[1 := "Red", 2 := "Blue", 3 := "S", 4 := "M"];
            SkusOf(names, Expand([Selection(7, [1, 2]), Selection(8, [3, 4])]))
              == ["SKU-Red-S", "SKU-Red-M", "SKU-Blue-S", "SKU-Blue-M"]
  {
    var names := map[1 := "Red", 2 := "Blue", 3 := "S", 4 := "M"];
    ColourSizeCombinations();
    SkuOfPair(names, 7, 8, 1, 3);
    SkuOfPair(names, 7, 8, 1, 4);
    SkuOfPair(names, 7, 8, 2, 3);
    SkuOfPair(names, 7, 8, 2, 4);
    var all := Expand([Selection(7, [1, 2]), Selection(8, [3, 4])]);
    var skus := SkusOf(names, all);
    assert skus[0] == Prefix + "Red" + [Dash] + "S" == "SKU-Red-S";
    assert skus[1] == Prefix + "Red" + [Dash] + "M" == "SKU-Red-M";
    assert skus[2] == Prefix + "Blue" + [Dash] + "S" == "SKU-Blue-S";
    assert skus[3] == Prefix + "Blue" + [Dash] + "M" == "SKU-Blue-M";
  }
}
