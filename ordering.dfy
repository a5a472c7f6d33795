/**
 * Python's ordering of strings (code point by code point, a proper prefix
 * first) and the sort `list.sort()` performs on a list of names.
 */
module Ordering {

  /** `a <= b` on Python strings. */
  predicate StrLeq(a: string, b: string)
  {
    if |a| == 0 then true
    else if |b| == 0 then false
    else if a[0] != b[0] then a[0] < b[0]
    else StrLeq(a[1..], b[1..])
  }

  lemma {:induction false} StrLeqReflexive(a: string)
    ensures StrLeq(a, a)
  {
    if |a| > 0 { StrLeqReflexive(a[1..]); }
  }

  lemma {:induction false} StrLeqTotal(a: string, b: string)
    ensures StrLeq(a, b) || StrLeq(b, a)
  {
    if |a| > 0 && |b| > 0 && a[0] == b[0] { StrLeqTotal(a[1..], b[1..]); }
  }

  lemma {:induction false} StrLeqAntisymmetric(a: string, b: string)
    requires StrLeq(a, b) && StrLeq(b, a)
    ensures a == b
  {
    if |a| > 0 && |b| > 0 {
      StrLeqAntisymmetric(a[1..], b[1..]);
      assert a == [a[0]] + a[1..] && b == [b[0]] + b[1..];
    }
  }

  lemma {:induction false} StrLeqTransitive(a: string, b: string, c: string)
    requires StrLeq(a, b) && StrLeq(b, c)
    ensures StrLeq(a, c)
  {
    if |a| > 0 && |b| > 0 && |c| > 0 && a[0] == b[0] == c[0] {
      StrLeqTransitive(a[1..], b[1..], c[1..]);
    }
  }

  /** The empty string is below every string and only the empty string is below it. */
  lemma EmptyIsLeast(a: string)
    ensures StrLeq("", a)
    ensures StrLeq(a, "") <==> a == ""
  {
  }

  ghost predicate SortedNames(s: seq<string>)
  {
    forall k, l :: 0 <= k < l < |s| ==> StrLeq(s[k], s[l])
  }

  function Insert(x: string, s: seq<string>): seq<string>
  {
    if |s| == 0 then [x]
    else if StrLeq(x, s[0]) then [x] + s
    else [s[0]] + Insert(x, s[1..])
  }

  /** `sorted(names)`: insertion sort under Python's string order. */
  function SortNames(names: seq<string>): seq<string>
  {
    if |names| == 0 then [] else Insert(names[0], SortNames(names[1..]))
  }

  lemma {:induction false} InsertMultiset(x: string, s: seq<string>)
    ensures multiset(Insert(x, s)) == multiset(s) + multiset{x}
  {
    if |s| > 0 && !StrLeq(x, s[0]) {
      InsertMultiset(x, s[1..]);
      assert s == [s[0]] + s[1..];
    }
  }

  lemma {:induction false} InsertSorted(x: string, s: seq<string>)
    requires SortedNames(s)
    ensures SortedNames(Insert(x, s))
  {
    if |s| == 0 {
    } else if StrLeq(x, s[0]) {
      var r := [x] + s;
      forall k, l | 0 <= k < l < |r| ensures StrLeq(r[k], r[l]) {
        if k == 0 && l > 1 { StrLeqTransitive(x, s[0], s[l - 1]); }
      }
    } else {
      StrLeqTotal(x, s[0]);
      var tail := Insert(x, s[1..]);
      assert SortedNames(s[1..]);
      InsertSorted(x, s[1..]);
      InsertMultiset(x, s[1..]);
      var r := [s[0]] + tail;
      assert forall l :: 0 < l < |r| ==> r[l] == tail[l - 1];
      forall l | 0 < l < |r| ensures StrLeq(s[0], r[l]) {
        assert tail[l - 1] in multiset(tail);
        if tail[l - 1] != x {
          assert tail[l - 1] in multiset(s[1..]);
          var m :| 0 <= m < |s[1..]| && s[1..][m] == tail[l - 1];
          assert s[m + 1] == r[l];
        }
      }
    }
  }

  /** The sort returns its input in ascending order, element for element. */
  lemma {:induction false} SortNamesSpec(names: seq<string>)
    ensures SortedNames(SortNames(names))
    ensures multiset(SortNames(names)) == multiset(names)
  {
    if |names| > 0 {
      SortNamesSpec(names[1..]);
      InsertSorted(names[0], SortNames(names[1..]));
      InsertMultiset(names[0], SortNames(names[1..]));
      assert names == [names[0]] + names[1..];
    }
  }

  lemma SortedHeadIsLeast(a: seq<string>, x: string)
    requires SortedNames(a) && x in multiset(a)
    ensures StrLeq(a[0], x)
  {
    var k :| 0 <= k < |a| && a[k] == x;
    if k == 0 { StrLeqReflexive(x); }
  }

  lemma SameHeadSameTail(a: seq<string>, b: seq<string>)
    requires |a| > 0 && |b| > 0 && a[0] == b[0] && multiset(a) == multiset(b)
    ensures multiset(a[1..]) == multiset(b[1..])
  {
    assert a == [a[0]] + a[1..] && b == [b[0]] + b[1..];
    assert multiset(a[1..]) == multiset(a) - multiset{a[0]};
    assert multiset(b[1..]) == multiset(b) - multiset{b[0]};
  }

  /** Two sorted arrangements of the same names are the same list. */
  lemma {:induction false} SortedUnique(a: seq<string>, b: seq<string>)
    requires SortedNames(a) && SortedNames(b)
    requires multiset(a) == multiset(b)
    ensures a == b
  {
    if |a| == 0 {
      assert |b| == |multiset(b)| == 0;
    } else {
      assert |b| == |multiset(b)| == |a|;
      assert a[0] in multiset(a) && b[0] in multiset(b);
      SortedHeadIsLeast(a, b[0]);
      SortedHeadIsLeast(b, a[0]);
      StrLeqAntisymmetric(a[0], b[0]);
      SameHeadSameTail(a, b);
      SortedUnique(a[1..], b[1..]);
      assert a == [a[0]] + a[1..] && b == [b[0]] + b[1..];
    }
  }

  /** Any sorted rearrangement of the names is what the sort returns. */
  lemma SortIsCanonical(names: seq<string>, r: seq<string>)
    requires SortedNames(r) && multiset(r) == multiset(names)
    ensures SortNames(names) == r
  {
    SortNamesSpec(names);
    SortedUnique(SortNames(names), r);
  }
}
