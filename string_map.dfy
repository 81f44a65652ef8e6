/**
 * `std::map<std::string, std::string>` as the parser uses it: an ordered table with
 * unique keys, kept as a sequence of entries sorted strictly by key.
 */
module StringMap {
  import opened Wrappers

  type Entry = (string, string)

  /** `std::string`'s `operator<`: lexicographic on character codes, a proper prefix first. */
  predicate Less(a: string, b: string)
    decreases |a|
  {
    if a == [] then b != []
    else if b == [] then false
    else if a[0] != b[0] then a[0] < b[0]
    else Less(a[1..], b[1..])
  }

  lemma {:induction false} LessIrreflexive(a: string)
    ensures !Less(a, a)
    decreases |a|
  {
    if a != [] { LessIrreflexive(a[1..]); }
  }

  lemma {:induction false} LessTransitive(a: string, b: string, c: string)
    requires Less(a, b) && Less(b, c)
    ensures Less(a, c)
    decreases |a|
  {
    if a != [] && b != [] && c != [] && a[0] == b[0] && b[0] == c[0] {
      LessTransitive(a[1..], b[1..], c[1..]);
    }
  }

  lemma {:induction false} LessTotal(a: string, b: string)
    ensures a == b || Less(a, b) || Less(b, a)
    decreases |a|
  {
    if a != [] && b != [] && a[0] == b[0] {
      LessTotal(a[1..], b[1..]);
      if a[1..] == b[1..] {
        assert a == [a[0]] + a[1..] && b == [b[0]] + b[1..];
      }
    }
  }

  /** Keys strictly ascending: the iteration order of a `std::map`, which also makes them unique. */
  predicate Ordered(m: seq<Entry>) {
    forall i, j :: 0 <= i < j < |m| ==> Less(m[i].0, m[j].0)
  }

  /** Every key of `m` is greater than `x`. */
  predicate Above(x: string, m: seq<Entry>) {
    forall i :: 0 <= i < |m| ==> Less(x, m[i].0)
  }

  /** `m.find(k)`: the value stored under `k`, if any. */
  function Lookup(m: seq<Entry>, k: string): Option<string> {
    if m == [] then None
    else if m[0].0 == k then Some(m[0].1)
    else Lookup(m[1..], k)
  }

  /** Every stored entry is found by its own key. */
  lemma {:induction false} LookupEntry(m: seq<Entry>, i: nat)
    requires Ordered(m) && i < |m|
    ensures Lookup(m, m[i].0) == Some(m[i].1)
  {
    if i > 0 {
      assert Less(m[0].0, m[i].0);
      LessIrreflexive(m[i].0);
      LookupEntry(m[1..], i - 1);
    }
  }

  /**
   * `m[k] = v`: adds the key in its place in the order, or overwrites the value
   * already stored under it; every other key keeps its value.
   */
  function Put(m: seq<Entry>, k: string, v: string): (r: seq<Entry>)
    requires Ordered(m)
    ensures Ordered(r)
    ensures Lookup(r, k) == Some(v)
    ensures forall k' :: k' != k ==> Lookup(r, k') == Lookup(m, k')
    ensures forall x :: Less(x, k) && Above(x, m) ==> Above(x, r)
  {
    if m == [] then [(k, v)]
    else if m[0].0 == k then [(k, v)] + m[1..]
    else if Less(k, m[0].0) then
      var r := [(k, v)] + m;
      assert Ordered(r) by {
        forall i, j | 0 <= i < j < |r| ensures Less(r[i].0, r[j].0) {
          if i == 0 && j > 1 { LessTransitive(k, m[0].0, m[j - 1].0); }
        }
      }
      r
    else
      var rest := Put(m[1..], k, v);
      LessTotal(k, m[0].0);
      assert Above(m[0].0, m[1..]);
      assert Above(m[0].0, rest);
      [m[0]] + rest
  }

  /** `m[k1] = v1; m[k2] = v2; ...` in the order of `puts`. */
  function PutAll(m: seq<Entry>, puts: seq<Entry>): (r: seq<Entry>)
    requires Ordered(m)
    ensures Ordered(r)
  {
    if puts == [] then m
    else Put(PutAll(m, puts[..|puts| - 1]), puts[|puts| - 1].0, puts[|puts| - 1].1)
  }

  /** The value of the last entry in `puts` whose key is `k`. */
  function LastValue(puts: seq<Entry>, k: string): Option<string> {
    if puts == [] then None
    else if puts[|puts| - 1].0 == k then Some(puts[|puts| - 1].1)
    else LastValue(puts[..|puts| - 1], k)
  }

  /** After a run of assignments, each key holds the value assigned to it last. */
  lemma {:induction false} PutAllLastWins(puts: seq<Entry>, k: string)
    ensures Lookup(PutAll([], puts), k) == LastValue(puts, k)
  {
    if puts != [] {
      PutAllLastWins(puts[..|puts| - 1], k);
    }
  }

  lemma {:induction false} PutAllCons(m: seq<Entry>, e: Entry, rest: seq<Entry>)
    requires Ordered(m)
    ensures PutAll(m, [e] + rest) == PutAll(Put(m, e.0, e.1), rest)
    decreases |rest|
  {
    if rest == [] {
      assert ([e] + rest)[..0] == [];
    } else {
      var init := rest[..|rest| - 1];
      assert ([e] + rest)[..|rest|] == [e] + init;
      PutAllCons(m, e, init);
    }
  }

  lemma PutAllSnoc(m: seq<Entry>, puts: seq<Entry>, e: Entry)
    requires Ordered(m)
    ensures PutAll(m, puts + [e]) == Put(PutAll(m, puts), e.0, e.1)
  {
    assert (puts + [e])[..|puts|] == puts;
  }

  /** Looking a key up after appending an entry at the end. */
  lemma {:induction false} LookupSnoc(m: seq<Entry>, e: Entry, k: string)
    ensures Lookup(m + [e], k) == if Lookup(m, k).Some? then Lookup(m, k) else if e.0 == k then Some(e.1) else None
  {
    if m != [] {
      assert (m + [e])[1..] == m[1..] + [e];
      LookupSnoc(m[1..], e, k);
    }
  }
}
