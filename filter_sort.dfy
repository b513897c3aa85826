/** Selecting the records of one build by name, then sorting them by (ami, region), descending. */
module FilterSort {
  import opened Types
  import opened Text

  /** The build token image names are matched against (the second assignment of ami_filter wins). */
  const FilterToken: string := "sbx-cdi 2022-09-07T22-23-09.989Z"

  predicate Matches(r: Record, token: string)
  {
    Contains(r.ami, token)
  }

  /** `filter(lambda x: token in x["ami"], records)`. */
  function FilterByName(records: seq<Record>, token: string): (kept: seq<Record>)
    ensures |kept| <= |records|
    ensures forall r :: r in kept <==> r in records && Matches(r, token)
  {
    if records == [] then []
    else (if Matches(records[0], token) then [records[0]] else []) + FilterByName(records[1..], token)
  }

  /** `xs` is `ys` with some elements dropped and the rest in their original order. */
  predicate IsSubsequence<T(==)>(xs: seq<T>, ys: seq<T>)
    decreases |ys|
  {
    if xs == [] then true
    else if ys == [] then false
    else if xs[0] == ys[0] then IsSubsequence(xs[1..], ys[1..])
    else IsSubsequence(xs, ys[1..])
  }

  /** The filtered list keeps the records' order: it is a subsequence of them. */
  lemma {:induction false} FilterIsSubsequence(records: seq<Record>, token: string)
    ensures IsSubsequence(FilterByName(records, token), records)
  {
    if records != [] {
      var rest := FilterByName(records[1..], token);
      FilterIsSubsequence(records[1..], token);
      if Matches(records[0], token) {
        assert FilterByName(records, token) == [records[0]] + rest;
        assert ([records[0]] + rest)[1..] == rest;
      } else {
        assert FilterByName(records, token) == rest;
        if rest != [] {
          assert rest[0] in rest;
        }
      }
    }
  }

  /** Every matching record is kept as often as it occurs; no other record is kept. */
  lemma {:induction false} FilterCounts(records: seq<Record>, token: string, r: Record)
    ensures multiset(FilterByName(records, token))[r] == if Matches(r, token) then multiset(records)[r] else 0
  {
    if records != [] {
      FilterCounts(records[1..], token, r);
      assert records == [records[0]] + records[1..];
    }
  }

  /** The sort key (ami, region). */
  predicate SameKey(x: Record, y: Record)
  {
    x.ami == y.ami && x.region == y.region
  }

  /** Tuple order on (ami, region): `x` sorts strictly before `y` in ascending order. */
  predicate KeyLess(x: Record, y: Record)
  {
    StrLess(x.ami, y.ami) || (x.ami == y.ami && StrLess(x.region, y.region))
  }

  predicate KeyAtMost(x: Record, y: Record)
  {
    KeyLess(x, y) || SameKey(x, y)
  }

  lemma KeyTotal(x: Record, y: Record)
    ensures KeyAtMost(x, y) || KeyLess(y, x)
  {
    StrLessTotal(x.ami, y.ami);
    StrLessTotal(x.region, y.region);
  }

  lemma KeyLessTransitive(x: Record, y: Record, z: Record)
    requires KeyLess(x, y) && KeyLess(y, z)
    ensures KeyLess(x, z)
  {
    if StrLess(x.ami, y.ami) && StrLess(y.ami, z.ami) {
      StrLessTransitive(x.ami, y.ami, z.ami);
    } else if x.ami == y.ami && y.ami == z.ami {
      StrLessTransitive(x.region, y.region, z.region);
    }
  }

  lemma KeyAtMostTransitive(x: Record, y: Record, z: Record)
    requires KeyAtMost(x, y) && KeyAtMost(y, z)
    ensures KeyAtMost(x, z)
  {
    if KeyLess(x, y) && KeyLess(y, z) {
      KeyLessTransitive(x, y, z);
    }
  }

  lemma KeyLessAsymmetric(x: Record, y: Record)
    requires KeyLess(x, y)
    ensures !KeyAtMost(y, x)
  {
    if StrLess(x.ami, y.ami) {
      StrLessAsymmetric(x.ami, y.ami);
      StrLessIrreflexive(x.ami);
    } else {
      StrLessAsymmetric(x.region, y.region);
      StrLessIrreflexive(x.region);
    }
  }

  /** Consecutive entries never increase in the (ami, region) order. */
  predicate Descending(s: seq<Record>)
  {
    forall i :: 0 <= i < |s| - 1 ==> KeyAtMost(s[i + 1], s[i])
  }

  /** Insert `x` in front of the first entry whose key is not greater, so before equal keys. */
  function Insert(x: Record, s: seq<Record>): (r: seq<Record>)
    ensures multiset(r) == multiset(s) + multiset{x}
    ensures r[0] == x || (s != [] && r[0] == s[0])
    ensures Descending(s) ==> Descending(r)
  {
    if s == [] then [x]
    else if KeyAtMost(s[0], x) then [x] + s
    else
      KeyTotal(s[0], x);
      assert s == [s[0]] + s[1..];
      [s[0]] + Insert(x, s[1..])
  }

  /** `sorted(records, key=lambda i: (i["ami"], i["region"]), reverse=True)`: a stable sort. */
  function SortDescending(s: seq<Record>): (r: seq<Record>)
    ensures multiset(r) == multiset(s)
    ensures Descending(r)
  {
    if s == [] then []
    else
      assert s == [s[0]] + s[1..];
      Insert(s[0], SortDescending(s[1..]))
  }

  /** The records of `s` whose key equals that of `k`, in order. */
  function WithKey(s: seq<Record>, k: Record): seq<Record>
  {
    if s == [] then [] else (if SameKey(s[0], k) then [s[0]] else []) + WithKey(s[1..], k)
  }

  lemma WithKeyCons(x: Record, s: seq<Record>, k: Record)
    ensures WithKey([x] + s, k) == (if SameKey(x, k) then [x] else []) + WithKey(s, k)
  {
    assert ([x] + s)[1..] == s;
  }

  lemma InsertPastHead(x: Record, s: seq<Record>)
    requires s != [] && !KeyAtMost(s[0], x)
    ensures Insert(x, s) == [s[0]] + Insert(x, s[1..])
    ensures !SameKey(s[0], x)
  {
  }

  lemma {:induction false} InsertWithKey(x: Record, s: seq<Record>, k: Record)
    ensures WithKey(Insert(x, s), k) == (if SameKey(x, k) then [x] else []) + WithKey(s, k)
  {
    if s == [] {
      WithKeyCons(x, [], k);
    } else if KeyAtMost(s[0], x) {
      WithKeyCons(x, s, k);
    } else {
      var rest := Insert(x, s[1..]);
      InsertPastHead(x, s);
      InsertWithKey(x, s[1..], k);
      WithKeyCons(s[0], rest, k);
      var hx: seq<Record> := if SameKey(x, k) then [x] else [];
      var h0: seq<Record> := if SameKey(s[0], k) then [s[0]] else [];
      var tail := WithKey(s[1..], k);
      assert WithKey(Insert(x, s), k) == h0 + (hx + tail);
      assert WithKey(s, k) == h0 + tail;
      assert hx == [] || h0 == [];
    }
  }

  /** The sort is stable: records with equal keys keep their input order. */
  lemma {:induction false} SortStable(s: seq<Record>, k: Record)
    ensures WithKey(SortDescending(s), k) == WithKey(s, k)
  {
    if s != [] {
      SortStable(s[1..], k);
      InsertWithKey(s[0], SortDescending(s[1..]), k);
    }
  }

  lemma {:induction false} WithKeyMember(s: seq<Record>, k: Record, r: Record)
    requires r in WithKey(s, k)
    ensures r in s && SameKey(r, k)
  {
    if s != [] && !(SameKey(s[0], k) && r == s[0]) {
      WithKeyMember(s[1..], k, r);
    }
  }

  lemma {:induction false} WithKeyHas(s: seq<Record>, j: nat)
    requires j < |s|
    ensures s[j] in WithKey(s, s[j])
  {
    if j > 0 {
      WithKeyHas(s[1..], j - 1);
    }
  }

  lemma KeyAntisymmetric(x: Record, y: Record)
    requires KeyAtMost(x, y) && KeyAtMost(y, x)
    ensures SameKey(x, y)
  {
    if KeyLess(x, y) {
      KeyLessAsymmetric(x, y);
    }
  }

  /** Two descending lists that agree on the order of each key's records are equal. */
  lemma {:induction false} DescendingStableUnique(t: seq<Record>, u: seq<Record>)
    requires Descending(t) && Descending(u)
    requires forall k :: WithKey(t, k) == WithKey(u, k)
    ensures t == u
    decreases |t|
  {
    if t == [] && u != [] {
      WithKeyHas(u, 0);
      assert false;
    } else if t != [] && u == [] {
      WithKeyHas(t, 0);
      assert false;
    } else if t != [] {
      WithKeyHas(t, 0);
      WithKeyMember(u, t[0], t[0]);
      var j :| 0 <= j < |u| && u[j] == t[0];
      DescendingAllPairs(u, 0, j);
      WithKeyHas(u, 0);
      WithKeyMember(t, u[0], u[0]);
      var i :| 0 <= i < |t| && t[i] == u[0];
      DescendingAllPairs(t, 0, i);
      KeyAntisymmetric(t[0], u[0]);
      assert WithKey(t, t[0])[0] == t[0];
      assert WithKey(u, t[0])[0] == u[0];
      assert t[0] == u[0];
      forall k
        ensures WithKey(t[1..], k) == WithKey(u[1..], k)
      {
        var h: seq<Record> := if SameKey(t[0], k) then [t[0]] else [];
        assert WithKey(t, k) == h + WithKey(t[1..], k);
        assert WithKey(u, k) == h + WithKey(u[1..], k);
        assert (h + WithKey(t[1..], k))[|h|..] == WithKey(t[1..], k);
        assert (h + WithKey(u[1..], k))[|h|..] == WithKey(u[1..], k);
      }
      DescendingStableUnique(t[1..], u[1..]);
      assert t == [t[0]] + t[1..];
      assert u == [u[0]] + u[1..];
    }
  }

  /**
   * The sort is determined by its two promises: any descending arrangement that keeps
   * each key's records in input order is exactly SortDescending.
   */
  lemma SortUnique(s: seq<Record>, t: seq<Record>)
    requires Descending(t)
    requires forall k :: WithKey(t, k) == WithKey(s, k)
    ensures t == SortDescending(s)
  {
    forall k
      ensures WithKey(t, k) == WithKey(SortDescending(s), k)
    {
      SortStable(s, k);
    }
    DescendingStableUnique(t, SortDescending(s));
  }

  /** In a descending list every later entry is at most every earlier one, not just the next. */
  lemma {:induction false} DescendingAllPairs(s: seq<Record>, i: nat, j: nat)
    requires Descending(s) && i <= j < |s|
    ensures KeyAtMost(s[j], s[i])
    decreases j - i
  {
    if i < j {
      DescendingAllPairs(s, i + 1, j);
      KeyAtMostTransitive(s[j], s[i + 1], s[i]);
    }
  }

  /** A concrete sort: [(a, us-east-1), (b, us-west-2), (a, eu-west-1)] sorts to b, a/us-east-1, a/eu-west-1. */
  lemma SortExample()
    ensures SortDescending([Record("us-east-1", "a", "ami-1"), Record("us-west-2", "b", "ami-2"),
                            Record("eu-west-1", "a", "ami-3")])
         == [Record("us-west-2", "b", "ami-2"), Record("us-east-1", "a", "ami-1"),
             Record("eu-west-1", "a", "ami-3")]
  {
    var r1, r2, r3 := Record("us-east-1", "a", "ami-1"), Record("us-west-2", "b", "ami-2"), Record("eu-west-1", "a", "ami-3");
    assert [r1, r2, r3][1..] == [r2, r3];
    assert [r2, r3][1..] == [r3];
    assert [r3][1..] == [];
    assert StrLess("a", "b");
    assert StrLess("eu-west-1", "us-east-1");
    assert SortDescending([r3]) == [r3];
    assert SortDescending([r2, r3]) == Insert(r2, [r3]) == [r2, r3];
    assert Insert(r1, [r3]) == [r1, r3];
    assert Insert(r1, [r2, r3]) == [r2] + Insert(r1, [r3]);
  }

  /** Concrete matches: a name with the token and a suffix matches, "other-image" does not. */
  lemma FilterExamples()
    ensures Matches(Record("us-east-1", "sbx-cdi 2022-09-07T22-23-09.989Z-extra", "ami-1"), FilterToken)
    ensures !Matches(Record("us-east-1", "other-image", "ami-2"), FilterToken)
  {
    var name := "sbx-cdi 2022-09-07T22-23-09.989Z-extra";
    assert name[..|FilterToken|] == FilterToken;
    assert OccursAt(name, FilterToken, 0);
    if Contains("other-image", FilterToken) {
      ContainsNoLonger("other-image", FilterToken);
    }
  }
}
