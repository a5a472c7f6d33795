/**
 * Resolution of the category of a token pair from the interaction edges
 * between them: `filterEdgesByType` and `getType`.
 */
module EdgeCategory {
  import opened Wrappers
  import opened Ordering
  import opened Sentence

  /** The edges whose type is in `types`, in their original order. */
  function Kept(edges: seq<Edge>, types: seq<string>): (r: seq<Edge>)
    ensures |r| <= |edges|
    ensures forall e :: e in r ==> e in edges && e.etype in types
  {
    if |edges| == 0 then []
    else
      var last := edges[|edges| - 1];
      Kept(edges[..|edges| - 1], types) + (if last.etype in types then [last] else [])
  }

  /** What `filterEdgesByType(edges, types)` returns. */
  function Filtered(edges: seq<Edge>, types: seq<string>): (r: seq<Edge>)
    ensures forall e :: e in r ==> e in edges
    ensures |types| > 0 ==> forall e :: e in r ==> e.etype in types
  {
    if |types| == 0 then edges else Kept(edges, types)
  }

  method FilterEdgesByType(edges: seq<Edge>, typesToInclude: seq<string>) returns (r: seq<Edge>)
    ensures r == Filtered(edges, typesToInclude)
    ensures |typesToInclude| > 0 ==> forall e :: e in r ==> e.etype in typesToInclude
  {
    if |typesToInclude| == 0 {
      return edges;
    }
    var edgesToKeep: seq<Edge> := [];
    for k := 0 to |edges|
      invariant edgesToKeep == Kept(edges[..k], typesToInclude)
      invariant forall e :: e in edgesToKeep ==> e.etype in typesToInclude
    {
      assert edges[..k + 1][..k] == edges[..k];
      if edges[k].etype in typesToInclude {
        edgesToKeep := edgesToKeep + [edges[k]];
      }
    }
    assert edges[..|edges|] == edges;
    return edgesToKeep;
  }

  /** Filtering splits over concatenation, so it keeps the order of the input. */
  lemma {:induction false} FilteredConcat(a: seq<Edge>, b: seq<Edge>, types: seq<string>)
    ensures Filtered(a + b, types) == Filtered(a, types) + Filtered(b, types)
  {
    if |types| > 0 && |b| > 0 {
      var init := b[..|b| - 1];
      assert (a + b)[..|a + b| - 1] == a + init;
      FilteredConcat(a, init, types);
    } else if |types| > 0 {
      assert a + b == a;
    }
  }

  /**
   * Filtering keeps every copy of an edge whose type is allowed and no copy
   * of any other edge; an empty allow-list keeps everything.
   */
  lemma {:induction false} FilteredCount(edges: seq<Edge>, types: seq<string>, e: Edge)
    ensures multiset(Filtered(edges, types))[e] ==
            if |types| == 0 || e.etype in types then multiset(edges)[e] else 0
  {
    if |types| > 0 && |edges| > 0 {
      var init := edges[..|edges| - 1];
      FilteredCount(init, types, e);
      assert edges == init + [edges[|edges| - 1]];
    }
  }

  /** The type attribute of each edge, in order. */
  function TypeNames(edges: seq<Edge>): (r: seq<string>)
    ensures |r| == |edges| && forall k :: 0 <= k < |edges| ==> r[k] == edges[k].etype
  {
    seq(|edges|, k requires 0 <= k < |edges| => edges[k].etype)
  }

  /** The names that are not the empty string, in order. */
  function NonEmpty(names: seq<string>): (r: seq<string>)
    ensures forall x :: x in r ==> x != ""
  {
    if |names| == 0 then []
    else
      var last := names[|names| - 1];
      NonEmpty(names[..|names| - 1]) + (if last != "" then [last] else [])
  }

  /** `"-".join(names)`. */
  function HyphenJoin(names: seq<string>): (r: string)
    ensures |names| > 0 ==> names[0] <= r
    ensures |names| > 0 ==> |names[|names| - 1]| <= |r| && r[|r| - |names[|names| - 1]|..] == names[|names| - 1]
  {
    if |names| == 0 then ""
    else if |names| == 1 then names[0]
    else HyphenJoin(names[..|names| - 1]) + "-" + names[|names| - 1]
  }

  /**
   * The category of a pair: the allowed edges' type names, sorted, joined
   * with "-", one name per edge; None when no allowed edge has a non-empty type.
   */
  function Category(edges: seq<Edge>, types: seq<string>): (r: Option<string>)
    ensures r.Some? ==> r.value != ""
  {
    var names := NonEmpty(SortNames(TypeNames(Filtered(edges, types))));
    HyphenJoinNonEmpty(names);
    if |names| == 0 then None else Some(HyphenJoin(names))
  }

  lemma {:induction false} NonEmptyNoneIff(names: seq<string>)
    ensures |NonEmpty(names)| == 0 <==> forall x :: x in names ==> x == ""
  {
    if |names| > 0 {
      var init, last := names[..|names| - 1], names[|names| - 1];
      NonEmptyNoneIff(init);
      assert names == init + [last];
      NonEmptySnoc(init, last);
      if |NonEmpty(names)| == 0 {
        forall x | x in names ensures x == "" {
          assert x == last || x in init;
        }
      } else if last == "" {
        var y :| y in init && y != "";
        assert y in names;
      } else {
        assert last in names;
      }
    }
  }

  lemma {:induction false} HyphenJoinNonEmpty(names: seq<string>)
    requires forall x :: x in names ==> x != ""
    ensures HyphenJoin(names) == "" <==> |names| == 0
  {
    if |names| == 1 {
      assert names[0] in names;
    } else if |names| > 1 {
      assert |HyphenJoin(names)| >= 1;
    }
  }

  /** In sorted names the empty names come first. */
  lemma SortedEmptyFirst(sorted: seq<string>, k: nat)
    requires SortedNames(sorted) && k < |sorted| && sorted[k] == ""
    ensures forall x :: x in sorted[..k] ==> x == ""
  {
    forall x | x in sorted[..k] ensures x == "" {
      var m :| 0 <= m < k && sorted[m] == x;
      assert StrLeq(sorted[m], sorted[k]);
      EmptyIsLeast(x);
    }
  }

  lemma NonEmptySnoc(prefix: seq<string>, x: string)
    ensures NonEmpty(prefix + [x]) == NonEmpty(prefix) + (if x != "" then [x] else [])
  {
    assert (prefix + [x])[..|prefix|] == prefix;
  }

  lemma HyphenJoinSnoc(names: seq<string>, x: string)
    requires forall y :: y in names ==> y != ""
    ensures HyphenJoin(names + [x]) ==
              (if HyphenJoin(names) != "" then HyphenJoin(names) + "-" else "") + x
  {
    HyphenJoinNonEmpty(names);
    assert (names + [x])[..|names|] == names;
    if |names| == 0 {
      assert names + [x] == [x];
    }
  }

  /** The join loop of `getType`, one name further, on sorted names. */
  lemma JoinStep(sorted: seq<string>, k: nat, acc: string)
    requires SortedNames(sorted) && k < |sorted|
    requires acc == HyphenJoin(NonEmpty(sorted[..k]))
    ensures HyphenJoin(NonEmpty(sorted[..k + 1])) ==
              (if acc != "" then acc + "-" else acc) + sorted[k]
  {
    var prefix := sorted[..k];
    assert sorted[..k + 1] == prefix + [sorted[k]];
    NonEmptySnoc(prefix, sorted[k]);
    if sorted[k] == "" {
      SortedEmptyFirst(sorted, k);
      NonEmptyNoneIff(prefix);
      assert acc == "";
    } else {
      HyphenJoinSnoc(NonEmpty(prefix), sorted[k]);
    }
  }

  method GetType(intEdges: seq<Edge>, types: seq<string>) returns (r: Option<string>)
    ensures r == Category(intEdges, types)
  {
    var edges := FilterEdgesByType(intEdges, types);
    var categoryNames: seq<string> := [];
    for k := 0 to |edges|
      invariant categoryNames == TypeNames(edges[..k])
    {
      categoryNames := categoryNames + [edges[k].etype];
    }
    assert edges[..|edges|] == edges;
    SortNamesSpec(categoryNames);
    categoryNames := SortNames(categoryNames);
    var categoryName := "";
    for k := 0 to |categoryNames|
      invariant categoryName == HyphenJoin(NonEmpty(categoryNames[..k]))
    {
      JoinStep(categoryNames, k, categoryName);
      if categoryName != "" {
        categoryName := categoryName + "-";
      }
      categoryName := categoryName + categoryNames[k];
    }
    assert categoryNames[..|categoryNames|] == categoryNames;
    HyphenJoinNonEmpty(NonEmpty(categoryNames));
    if categoryName != "" {
      r := Some(categoryName);
    } else {
      r := None;
    }
  }

  /** No category exactly when every allowed edge has an empty type (or there is none). */
  lemma CategoryNoneIff(edges: seq<Edge>, types: seq<string>)
    ensures Category(edges, types).None? <==>
            forall e :: e in Filtered(edges, types) ==> e.etype == ""
  {
    var names := TypeNames(Filtered(edges, types));
    var sorted := SortNames(names);
    SortNamesSpec(names);
    NonEmptyNoneIff(sorted);
    assert forall x :: x in sorted <==> x in names by {
      forall x ensures x in sorted <==> x in names {
        assert x in sorted <==> x in multiset(sorted);
        assert x in names <==> x in multiset(names);
      }
    }
    var f := Filtered(edges, types);
    assert forall e :: e in f ==> e.etype in names by {
      forall e | e in f ensures e.etype in names {
        var k :| 0 <= k < |f| && f[k] == e;
        assert names[k] == e.etype;
      }
    }
  }

  /** The bag of allowed type names of a list of edges. */
  ghost function NameBag(edges: seq<Edge>, types: seq<string>): multiset<string>
  {
    multiset(TypeNames(Filtered(edges, types)))
  }

  lemma NameBagConcat(a: seq<Edge>, b: seq<Edge>, types: seq<string>)
    ensures NameBag(a + b, types) == NameBag(a, types) + NameBag(b, types)
  {
    FilteredConcat(a, b, types);
    var fa, fb := Filtered(a, types), Filtered(b, types);
    assert TypeNames(fa + fb) == TypeNames(fa) + TypeNames(fb);
  }

  /** Taking one copy of `x` out of two lists with the same elements. */
  lemma RemoveOne(init: seq<Edge>, x: Edge, before: seq<Edge>, after: seq<Edge>)
    requires multiset(init + [x]) == multiset(before + [x] + after)
    ensures multiset(init) == multiset(before + after)
  {
    var m1, m2 := multiset(init + [x]), multiset(before + [x] + after);
    assert m1 == multiset(init) + multiset{x};
    assert m2 == multiset(before) + multiset{x} + multiset(after);
    assert multiset(before + after) == multiset(before) + multiset(after);
    forall y ensures multiset(init)[y] == multiset(before + after)[y] {
      assert m1[y] == m2[y];
    }
  }

  lemma NameBagMiddle(before: seq<Edge>, x: Edge, after: seq<Edge>, types: seq<string>)
    ensures NameBag(before + [x] + after, types) == NameBag(before + after, types) + NameBag([x], types)
  {
    NameBagConcat(before + [x], after, types);
    NameBagConcat(before, [x], types);
    NameBagConcat(before, after, types);
  }

  lemma {:induction false} NameBagPermutation(e1: seq<Edge>, e2: seq<Edge>, types: seq<string>)
    requires multiset(e1) == multiset(e2)
    ensures NameBag(e1, types) == NameBag(e2, types)
    decreases |e1|
  {
    if |e1| == 0 {
      assert |e2| == |multiset(e2)| == 0;
      assert e1 == e2;
    } else {
      var init, x := e1[..|e1| - 1], e1[|e1| - 1];
      assert e1 == init + [x];
      assert x in multiset(e2);
      var k :| 0 <= k < |e2| && e2[k] == x;
      var before, after := e2[..k], e2[k + 1..];
      assert e2 == before + [x] + after;
      RemoveOne(init, x, before, after);
      NameBagPermutation(init, before + after, types);
      NameBagConcat(init, [x], types);
      NameBagMiddle(before, x, after, types);
    }
  }

  /** The category depends only on which allowed names occur how often. */
  lemma CategoryOfNameBag(e1: seq<Edge>, e2: seq<Edge>, types: seq<string>)
    requires NameBag(e1, types) == NameBag(e2, types)
    ensures Category(e1, types) == Category(e2, types)
  {
    var n1, n2 := TypeNames(Filtered(e1, types)), TypeNames(Filtered(e2, types));
    SortNamesSpec(n1);
    SortNamesSpec(n2);
    SortedUnique(SortNames(n1), SortNames(n2));
  }

  /** The order in which the interaction graph lists parallel edges does not matter. */
  lemma EdgeOrderIrrelevant(e1: seq<Edge>, e2: seq<Edge>, types: seq<string>)
    requires multiset(e1) == multiset(e2)
    ensures Category(e1, types) == Category(e2, types)
  {
    NameBagPermutation(e1, e2, types);
    CategoryOfNameBag(e1, e2, types);
  }

  /** Pooling the edges of both directions gives the same category in either order. */
  lemma PooledCategorySymmetric(a: seq<Edge>, b: seq<Edge>, types: seq<string>)
    ensures Category(a + b, types) == Category(b + a, types)
  {
    EdgeOrderIrrelevant(a + b, b + a, types);
  }

  lemma SortExample(p: string, b: string)
    requires p == "Phosphorylation" && b == "Binding"
    ensures SortNames([p, p, b]) == [b, p, p]
  {
    StrLeqReflexive(p);
    assert StrLeq(b, p);
    assert SortedNames([b, p, p]);
    assert multiset([b, p, p]) == multiset([p, p, b]);
    SortIsCanonical([p, p, b], [b, p, p]);
  }

  lemma JoinExample(p: string, b: string)
    requires p == "Phosphorylation" && b == "Binding"
    ensures NonEmpty([b, p, p]) == [b, p, p]
    ensures HyphenJoin([b, p, p]) == b + "-" + p + "-" + p
  {
    NonEmptySnoc([], b);
    NonEmptySnoc([b], p);
    NonEmptySnoc([b, p], p);
    assert [b, p] == [b] + [p] && [b, p, p] == [b, p] + [p];
    assert [b] == [] + [b];
    HyphenJoinSnoc([b], p);
    HyphenJoinSnoc([b, p], p);
  }

  /** Duplicated types are kept: one name per edge. */
  lemma CategoryKeepsDuplicates(p: string, b: string)
    requires p == "Phosphorylation" && b == "Binding"
    ensures Category([Edge("e1", p), Edge("e2", p), Edge("e3", b)], []) == Some(b + "-" + p + "-" + p)
  {
    var edges := [Edge("e1", p), Edge("e2", p), Edge("e3", b)];
    assert Filtered(edges, []) == edges;
    assert TypeNames(edges) == [p, p, b];
    SortExample(p, b);
    JoinExample(p, b);
  }
}
