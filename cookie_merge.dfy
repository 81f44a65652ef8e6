/**
 * `detail::cookie_megerable` and `operator+` of include/avhttp/cookie.hpp: two jars
 * are concatenated, sorted by expiry (latest first), and the sorted records are
 * filtered in order, each one admitted or not by looking at the result so far.
 */
module CookieMerge {
  import opened CookieRecord

  /** `find(name)`: the index of the first record with that name, or `|cs|` (the end) if none. */
  function FindName(cs: seq<Cookie>, name: string): (i: nat)
    ensures i <= |cs|
    ensures i < |cs| ==> cs[i].name == name
    ensures forall j :: 0 <= j < i ==> cs[j].name != name
  {
    if cs == [] then 0
    else if cs[0].name == name then 0
    else 1 + FindName(cs[1..], name)
  }

  /** `find(key)`: the index of the first record with the key's (name, domain, path), or `|cs|`. */
  function FindKey(cs: seq<Cookie>, key: Cookie): (i: nat)
    ensures i <= |cs|
    ensures i < |cs| ==> SameKey(cs[i], key)
    ensures forall j :: 0 <= j < i ==> !SameKey(cs[j], key)
  {
    if cs == [] then 0
    else if SameKey(cs[0], key) then 0
    else 1 + FindKey(cs[1..], key)
  }

  /** Some record of `cs` has the key of `c`. */
  predicate HasKey(cs: seq<Cookie>, c: Cookie) {
    exists j :: 0 <= j < |cs| && SameKey(cs[j], c)
  }

  /**
   * `cookie_megerable(element, container)`. Whether the key is present is asked
   * with the full (name, domain, path) key, but the record whose value and expiry
   * are compared is the first one with the same NAME. The expiry comparison is
   * boost's `<=`, true whenever one side has no expiry.
   */
  function Megerable(e: Cookie, container: seq<Cookie>): (r: bool)
    ensures !HasKey(container, e) ==> r
    ensures e.value == "" ==> (r <==> !HasKey(container, e))
    ensures HasKey(container, e) && e.value != "" ==>
      var it := container[FindName(container, e.name)];
      r <==> it.value == "" || !NotLater(e.expires, it.expires)
  {
    var it := FindName(container, e.name);
    var k := FindKey(container, e);
    if k == |container| then true
    else if e.value == "" then false
    else if container[it].value == "" then true
    else if NotLater(e.expires, container[it].expires) then false
    else true
  }

  /**
   * `remove_copy_if(tmp.begin(), tmp.end(), back_inserter(ret), not megerable)`
   * with the predicate reading `ret`: the fold over the sorted records whose output
   * is also its input.
   */
  function Merged(s: seq<Cookie>): seq<Cookie> {
    if s == [] then []
    else
      var r := Merged(s[..|s| - 1]);
      if Megerable(s[|s| - 1], r) then r + [s[|s| - 1]] else r
  }

  /** `a` is `b` with some records left out, the rest in their order. */
  predicate Subsequence(a: seq<Cookie>, b: seq<Cookie>)
    decreases |b|
  {
    if b == [] then a == []
    else
      || (a != [] && a[|a| - 1] == b[|b| - 1] && Subsequence(a[..|a| - 1], b[..|b| - 1]))
      || Subsequence(a, b[..|b| - 1])
  }

  /** `std::sort` by expiry, latest first, done in place as an insertion sort: a permutation ordered by `RanksAtLeast`. */
  method SortByExpiry(a: array<Cookie>)
    modifies a
    ensures SortedByExpiry(a[..])
    ensures multiset(a[..]) == old(multiset(a[..]))
  {
    var i := 0;
    while i < a.Length
      invariant 0 <= i <= a.Length
      invariant SortedByExpiry(a[..i])
      invariant multiset(a[..]) == old(multiset(a[..]))
    {
      InsertLast(a, i);
      i := i + 1;
    }
    assert a[..i] == a[..];
  }

  /** One step of the insertion sort: move `a[i]` down into the sorted prefix `a[..i]`. */
  method InsertLast(a: array<Cookie>, i: nat)
    requires i < a.Length && SortedByExpiry(a[..i])
    modifies a
    ensures SortedByExpiry(a[..i + 1])
    ensures multiset(a[..]) == old(multiset(a[..]))
  {
    var j := i;
    while j > 0 && !RanksAtLeast(a[j - 1].expires, a[j].expires)
      invariant 0 <= j <= i
      invariant forall p, q :: 0 <= p < q <= i && p != j && q != j ==> RanksAtLeast(a[p].expires, a[q].expires)
      invariant forall q :: j < q <= i ==> RanksAtLeast(a[j].expires, a[q].expires)
      invariant multiset(a[..]) == old(multiset(a[..]))
    {
      a[j - 1], a[j] := a[j], a[j - 1];
      j := j - 1;
    }
  }

  /**
   * `operator+(lhs, rhs)` on the jars' record lists. `sorted` is the order the sort
   * produced: a permutation of `lhs + rhs`, sorted by expiry, descending.
   */
  method Plus(lhs: seq<Cookie>, rhs: seq<Cookie>) returns (ret: seq<Cookie>, ghost sorted: seq<Cookie>)
    ensures multiset(sorted) == multiset(lhs + rhs) && SortedByExpiry(sorted)
    ensures ret == Merged(sorted)
    ensures forall x :: x in ret ==> x in lhs + rhs
  {
    var all := lhs + rhs;
    var tmp := new Cookie[|all|](i requires 0 <= i < |all| => all[i]);
    assert tmp[..] == all;
    SortByExpiry(tmp);
    sorted := tmp[..];
    ret := [];
    var i := 0;
    while i < tmp.Length
      invariant 0 <= i <= tmp.Length
      invariant ret == Merged(sorted[..i])
      invariant forall x :: x in ret ==> x in multiset(all)
    {
      assert sorted[..i + 1][..i] == sorted[..i];
      if Megerable(tmp[i], ret) {
        assert tmp[i] in multiset(sorted);
        ret := ret + [tmp[i]];
      }
      i := i + 1;
    }
    assert sorted[..i] == sorted;
  }
}

/** What the merge promises, stated over the model above. */
module CookieMergeProperties {
  import opened CookieRecord
  import opened CookieMerge

  /** No two records share a (name, domain, path) key. */
  predicate UniqueKeys(cs: seq<Cookie>) {
    forall i, j :: 0 <= i < j < |cs| ==> !SameKey(cs[i], cs[j])
  }

  /** Reference definition: the first record of each key, in the order given. */
  function FirstOfEachKey(s: seq<Cookie>): seq<Cookie> {
    if s == [] then []
    else
      var p := FirstOfEachKey(s[..|s| - 1]);
      if HasKey(s[..|s| - 1], s[|s| - 1]) then p else p + [s[|s| - 1]]
  }

  /** The merge result is the sorted list with some records left out, the rest in sorted order. */
  lemma {:induction false} MergedIsSubsequence(s: seq<Cookie>)
    ensures Subsequence(Merged(s), s)
  {
    if s != [] {
      var p := s[..|s| - 1];
      MergedIsSubsequence(p);
      var r := Merged(p);
      if Megerable(s[|s| - 1], r) {
        assert (r + [s[|s| - 1]])[..|r|] == r;
      }
    }
  }

  /** Every record of the result comes from the input. */
  lemma {:induction false} MergedFromInput(s: seq<Cookie>)
    ensures forall x :: x in Merged(s) ==> x in s
  {
    if s != [] {
      MergedFromInput(s[..|s| - 1]);
      assert forall x :: x in s[..|s| - 1] ==> x in s;
    }
  }

  /** Records admitted for a prefix stay in the result of the whole list. */
  lemma {:induction false} MergedGrows(s: seq<Cookie>, n: nat)
    requires n <= |s|
    ensures forall x :: x in Merged(s[..n]) ==> x in Merged(s)
    decreases |s| - n
  {
    if n < |s| {
      MergedGrows(s, n + 1);
      var q := s[..n + 1];
      assert q[..|q| - 1] == s[..n];
      assert forall x :: x in Merged(s[..n]) ==> x in Merged(q);
    } else {
      assert s[..n] == s;
    }
  }

  /** A key never seen before in sorted order is always admitted. */
  lemma {:induction false} FirstOfKeyAdmitted(s: seq<Cookie>, i: nat)
    requires i < |s| && !HasKey(s[..i], s[i])
    ensures s[i] in Merged(s)
  {
    var p := s[..i + 1][..i];
    assert p == s[..i];
    MergedFromInput(p);
    assert !HasKey(Merged(p), s[i]) by {
      forall j | 0 <= j < |Merged(p)| ensures !SameKey(Merged(p)[j], s[i]) {
        assert Merged(p)[j] in p;
      }
    }
    var q := s[..i + 1];
    assert q[..|q| - 1] == p && q[|q| - 1] == s[i];
    assert Merged(q) == Merged(p) + [s[i]];
    MergedGrows(s, i + 1);
  }

  /** No key of the input is lost, and none is invented. */
  lemma MergedKeys(s: seq<Cookie>, c: Cookie)
    ensures HasKey(Merged(s), c) <==> HasKey(s, c)
  {
    MergedFromInput(s);
    if HasKey(s, c) {
      var i := FindKey(s, c);
      assert !HasKey(s[..i], s[i]);
      FirstOfKeyAdmitted(s, i);
      var j :| 0 <= j < |Merged(s)| && Merged(s)[j] == s[i];
    }
    if HasKey(Merged(s), c) {
      var j :| 0 <= j < |Merged(s)| && SameKey(Merged(s)[j], c);
      assert Merged(s)[j] in s;
    }
  }

  /**
   * When every record has a non-empty value and a concrete expiry, merging the
   * sorted list keeps exactly the first record of each key.
   */
  lemma {:induction false} MergedDeduplicates(s: seq<Cookie>)
    requires SortedByExpiry(s)
    requires forall i :: 0 <= i < |s| ==> s[i].value != "" && s[i].expires.At?
    ensures Merged(s) == FirstOfEachKey(s)
  {
    if s != [] {
      var p := s[..|s| - 1];
      var c := s[|s| - 1];
      MergedDeduplicates(p);
      var r := Merged(p);
      MergedKeys(p, c);
      if HasKey(p, c) {
        MergedFromInput(p);
        var it := r[FindName(r, c.name)];
        assert it in p;
        var j :| 0 <= j < |p| && p[j] == it;
        assert RanksAtLeast(s[j].expires, c.expires);
        assert !Megerable(c, r);
      }
    }
  }

  lemma {:induction false} FirstOfEachKeyUnique(s: seq<Cookie>)
    ensures UniqueKeys(FirstOfEachKey(s))
    ensures forall x :: x in FirstOfEachKey(s) ==> x in s
  {
    if s != [] {
      var p := s[..|s| - 1];
      FirstOfEachKeyUnique(p);
      var f := FirstOfEachKey(p);
      if !HasKey(p, s[|s| - 1]) {
        forall i | 0 <= i < |f| ensures !SameKey(f[i], s[|s| - 1]) {
          assert f[i] in p;
          var j :| 0 <= j < |p| && p[j] == f[i];
        }
      }
      assert forall x :: x in p ==> x in s;
    }
  }

  /** Under the same conditions the merge result has one record per key. */
  lemma MergedUniqueKeys(s: seq<Cookie>)
    requires SortedByExpiry(s)
    requires forall i :: 0 <= i < |s| ==> s[i].value != "" && s[i].expires.At?
    ensures UniqueKeys(Merged(s))
  {
    MergedDeduplicates(s);
    FirstOfEachKeyUnique(s);
  }

  /**
   * Without those conditions duplicates survive. The candidate is compared with the
   * first record of the same NAME, here an empty placeholder of another domain, so
   * the second "d2" record is admitted beside the first one.
   */
  lemma DuplicateAfterPlaceholderOfSameName()
    ensures var a := Cookie("n", "", "d1", "/", At(3), false, false);
      var b := Cookie("n", "x", "d2", "/", At(2), false, false);
      var c := Cookie("n", "y", "d2", "/", At(1), false, false);
      SortedByExpiry([a, b, c]) && Merged([a, b, c]) == [a, b, c] && SameKey(b, c)
  {
    var a := Cookie("n", "", "d1", "/", At(3), false, false);
    var b := Cookie("n", "x", "d2", "/", At(2), false, false);
    var c := Cookie("n", "y", "d2", "/", At(1), false, false);
    assert [a, b, c][..2] == [a, b] && [a, b][..1] == [a] && [a][..0] == [];
    assert Merged([a]) == [a];
    assert Merged([a, b]) == [a, b];
  }

  /** A non-empty value is admitted beside an empty placeholder of the same key rather than replacing it. */
  lemma PlaceholderKeptBesideValue()
    ensures var a := Cookie("n", "", "d", "/", Session, false, false);
      var b := Cookie("n", "x", "d", "/", At(1), false, false);
      SortedByExpiry([a, b]) && Merged([a, b]) == [a, b] && SameKey(a, b)
  {
    var a := Cookie("n", "", "d", "/", Session, false, false);
    var b := Cookie("n", "x", "d", "/", At(1), false, false);
    assert [a, b][..1] == [a] && [a][..0] == [];
    assert Merged([a]) == [a];
  }

  /** Whatever order the sort chose, `lhs + rhs` keeps every key of both jars and no other. */
  lemma PlusKeys(lhs: seq<Cookie>, rhs: seq<Cookie>, sorted: seq<Cookie>, c: Cookie)
    requires multiset(sorted) == multiset(lhs + rhs)
    ensures HasKey(Merged(sorted), c) <==> HasKey(lhs + rhs, c)
  {
    MergedKeys(sorted, c);
    if HasKey(sorted, c) {
      var j :| 0 <= j < |sorted| && SameKey(sorted[j], c);
      assert sorted[j] in multiset(lhs + rhs);
      var k :| 0 <= k < |lhs + rhs| && (lhs + rhs)[k] == sorted[j];
    }
    if HasKey(lhs + rhs, c) {
      var k :| 0 <= k < |lhs + rhs| && SameKey((lhs + rhs)[k], c);
      assert (lhs + rhs)[k] in multiset(sorted);
      var j :| 0 <= j < |sorted| && sorted[j] == (lhs + rhs)[k];
    }
  }
}
