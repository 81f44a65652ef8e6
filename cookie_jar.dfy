/**
 * The `cookies` container of include/avhttp/cookie.hpp: a vector of records and a
 * default domain, with the operations that add, look up, remove, send, save and
 * load records.
 */
module CookieJar {
  import opened Wrappers
  import opened CookieRecord
  import opened StringMap
  import opened SetCookieParser
  import opened CookieMerge
  import opened CookieMergeProperties
  import opened CookieFile
  import opened CookieFileProperties

  // ---------------------------------------------------------------------------
  // The `Cookie:` request line.

  /**
   * A record `get_cookie_line` puts on the line: it has a value, it is not
   * secure unless the connection is https, and it has not expired at `now`
   * (a record without an expiry never expires).
   */
  predicate Sendable(c: Cookie, isHttps: bool, now: int) {
    c.value != "" && (!c.secure || isHttps) && (c.expires.Session? || c.expires.time >= now)
  }

  /** The `name=value` text of one record. */
  function Pair(c: Cookie): (r: string)
    ensures r != [] && '=' in r
  {
    assert (c.name + "=" + c.value)[|c.name|] == '=';
    c.name + "=" + c.value
  }

  /** The `name=value` texts of the sendable records, in order. */
  function Pieces(cs: seq<Cookie>, isHttps: bool, now: int): (r: seq<string>)
    ensures |r| <= |cs| && forall i :: 0 <= i < |r| ==> r[i] != []
  {
    if cs == [] then []
    else
      var init, last := cs[..|cs| - 1], cs[|cs| - 1];
      Pieces(init, isHttps, now) + (if Sendable(last, isHttps, now) then [Pair(last)] else [])
  }

  /** Every piece is the `name=value` text of a sendable record. */
  lemma {:induction false} PiecesFrom(cs: seq<Cookie>, isHttps: bool, now: int)
    ensures forall p :: p in Pieces(cs, isHttps, now) ==> exists c :: c in cs && Sendable(c, isHttps, now) && p == Pair(c)
  {
    if cs != [] {
      var init := cs[..|cs| - 1];
      PiecesFrom(init, isHttps, now);
      assert forall c :: c in init ==> c in cs;
    }
  }

  /** The pieces with `"; "` between each two. */
  function Join(ps: seq<string>): string {
    if ps == [] then ""
    else if |ps| == 1 then ps[0]
    else Join(ps[..|ps| - 1]) + "; " + ps[|ps| - 1]
  }

  lemma JoinEmpty(ps: seq<string>)
    requires forall i :: 0 <= i < |ps| ==> ps[i] != []
    ensures Join(ps) == "" <==> ps == []
  {
    if |ps| > 1 {
      assert |Join(ps)| >= |ps[|ps| - 1]|;
    }
  }

  /** The line is empty exactly when no record is sendable. */
  lemma {:induction false} LineEmpty(cs: seq<Cookie>, isHttps: bool, now: int)
    ensures Join(Pieces(cs, isHttps, now)) == "" <==> forall c :: c in cs ==> !Sendable(c, isHttps, now)
  {
    JoinEmpty(Pieces(cs, isHttps, now));
    if cs != [] {
      var init := cs[..|cs| - 1];
      LineEmpty(init, isHttps, now);
      JoinEmpty(Pieces(init, isHttps, now));
      assert cs == init + [cs[|cs| - 1]];
    }
  }

  /** Every sendable record contributes its `name=value` text. */
  lemma {:induction false} SendableOnLine(cs: seq<Cookie>, isHttps: bool, now: int, i: nat)
    requires i < |cs| && Sendable(cs[i], isHttps, now)
    ensures Pair(cs[i]) in Pieces(cs, isHttps, now)
  {
    var init := cs[..|cs| - 1];
    if i < |cs| - 1 {
      assert init[i] == cs[i];
      SendableOnLine(init, isHttps, now, i);
    }
  }

  /** One more record extends the line by its piece, after a separator unless the line was empty. */
  lemma LineSnoc(cs: seq<Cookie>, c: Cookie, isHttps: bool, now: int)
    ensures var line := Join(Pieces(cs, isHttps, now));
      Join(Pieces(cs + [c], isHttps, now)) ==
        if !Sendable(c, isHttps, now) then line
        else if line == "" then Pair(c)
        else line + "; " + Pair(c)
  {
    var s := cs + [c];
    assert s[..|s| - 1] == cs;
    var ps := Pieces(cs, isHttps, now);
    JoinEmpty(ps);
    if Sendable(c, isHttps, now) {
      var qs := ps + [Pair(c)];
      assert qs[..|qs| - 1] == ps;
    } else {
      assert ps + [] == ps;
    }
  }

  /**
   * The loop of `get_cookie_line` over the merged records: skip a record without
   * a value, a secure one on a plain connection and an expired one, and append
   * `name=value` to the others, after `"; "` unless the line is still empty.
   */
  method BuildLine(records: seq<Cookie>, isHttps: bool, now: int) returns (line: string)
    ensures line == Join(Pieces(records, isHttps, now))
  {
    line := "";
    var i := 0;
    while i < |records|
      invariant 0 <= i <= |records|
      invariant line == Join(Pieces(records[..i], isHttps, now))
    {
      var c := records[i];
      assert records[..i + 1] == records[..i] + [c];
      LineSnoc(records[..i], c, isHttps, now);
      if c.value == "" {
      } else if c.secure && !isHttps {
      } else if c.expires.At? && c.expires.time < now {
      } else {
        if line != "" {
          line := line + "; ";
        }
        line := line + (c.name + "=" + c.value);
      }
      i := i + 1;
    }
    assert records[..i] == records;
  }

  /** The pieces of the jar's line come from sendable records of the jar. */
  lemma PiecesFromJar(cookies: seq<Cookie>, sorted: seq<Cookie>, isHttps: bool, now: int)
    requires multiset(sorted) == multiset(cookies)
    ensures forall p :: p in Pieces(Merged(sorted), isHttps, now) ==>
      exists c :: c in cookies && Sendable(c, isHttps, now) && p == Pair(c)
  {
    MergedFromInput(sorted);
    PiecesFrom(Merged(sorted), isHttps, now);
    forall p | p in Pieces(Merged(sorted), isHttps, now)
      ensures exists c :: c in cookies && Sendable(c, isHttps, now) && p == Pair(c)
    {
      var c :| c in Merged(sorted) && Sendable(c, isHttps, now) && p == Pair(c);
      assert c in multiset(sorted);
    }
  }

  // ---------------------------------------------------------------------------
  // `remove_cookie`.

  /** The records whose name is not `name`, in order. */
  function Kept(cs: seq<Cookie>, name: string): (r: seq<Cookie>)
    ensures |r| <= |cs|
  {
    if cs == [] then []
    else Kept(cs[..|cs| - 1], name) + (if cs[|cs| - 1].name == name then [] else [cs[|cs| - 1]])
  }

  /** What `remove_if` keeps: exactly the records with another name. */
  lemma {:induction false} KeptMembers(cs: seq<Cookie>, name: string)
    ensures forall c :: c in Kept(cs, name) <==> c in cs && c.name != name
  {
    if cs != [] {
      KeptMembers(cs[..|cs| - 1], name);
      assert cs == cs[..|cs| - 1] + [cs[|cs| - 1]];
    }
  }

  /** The kept records stay in their order. */
  lemma {:induction false} KeptInOrder(cs: seq<Cookie>, name: string)
    ensures Subsequence(Kept(cs, name), cs)
  {
    if cs != [] {
      var init := cs[..|cs| - 1];
      KeptInOrder(init, name);
      var k := Kept(init, name);
      if cs[|cs| - 1].name != name {
        assert (k + [cs[|cs| - 1]])[..|k|] == k;
      } else {
        assert Kept(cs, name) == k + [] == k;
      }
    }
  }

  /** With no record of that name, everything is kept. */
  lemma {:induction false} KeptAll(cs: seq<Cookie>, name: string)
    requires forall i :: 0 <= i < |cs| ==> cs[i].name != name
    ensures Kept(cs, name) == cs
  {
    if cs != [] {
      var init, last := cs[..|cs| - 1], cs[|cs| - 1];
      forall i | 0 <= i < |init| ensures init[i].name != name {
        assert init[i] == cs[i];
      }
      KeptAll(init, name);
      assert Kept(cs, name) == init + [last];
      assert init + [last] == cs;
    }
  }

  /**
   * `std::remove_if` with the same-name predicate, as the C++98 library does it:
   * find the first record to remove, then copy each later record to keep into
   * the next free place. It returns the records and the new end; places from
   * the new end on are never written.
   */
  method RemoveIfName(cs: seq<Cookie>, name: string) returns (r: seq<Cookie>, newEnd: nat)
    ensures newEnd == |Kept(cs, name)| && |r| == |cs|
    ensures r[..newEnd] == Kept(cs, name)
    ensures r[newEnd..] == cs[newEnd..]
  {
    var first := FindIfName(cs, name);
    KeptAll(cs[..first], name);
    if first == |cs| {
      assert cs[..first] == cs;
      return cs, first;
    }
    r, newEnd := CopyKept(cs, name, first);
  }

  /** The `find_if` that starts `remove_if`: the first record with the name, or the end. */
  method FindIfName(cs: seq<Cookie>, name: string) returns (first: nat)
    ensures first == FindName(cs, name)
  {
    first := 0;
    while first < |cs| && cs[first].name != name
      invariant first <= |cs|
      invariant forall j :: 0 <= j < first ==> cs[j].name != name
    {
      first := first + 1;
    }
  }

  /** The copy loop of `remove_if`, from just after the first record to remove. */
  method CopyKept(cs: seq<Cookie>, name: string, first: nat) returns (r: seq<Cookie>, newEnd: nat)
    requires first < |cs| && cs[first].name == name && Kept(cs[..first], name) == cs[..first]
    ensures newEnd == |Kept(cs, name)| && |r| == |cs|
    ensures r[..newEnd] == Kept(cs, name)
    ensures r[newEnd..] == cs[newEnd..]
  {
    r := cs;
    newEnd := first;
    var i: nat := first + 1;
    CopyStart(cs, name, first);
    while i < |r|
      invariant Copying(cs, name, r, newEnd, i)
    {
      r, newEnd := KeepOne(cs, name, r, newEnd, i);
      i := i + 1;
    }
    CopyDone(cs, name, r, newEnd);
  }

  /** One pass of the copy loop: moves `cs[i]` down to `newEnd` unless it has the name. */
  method KeepOne(cs: seq<Cookie>, name: string, r: seq<Cookie>, newEnd: nat, i: nat)
    returns (r': seq<Cookie>, newEnd': nat)
    requires Copying(cs, name, r, newEnd, i) && i < |cs|
    ensures Copying(cs, name, r', newEnd', i + 1)
  {
    RemoveStep(cs, name, r, newEnd, i);
    r', newEnd' := r, newEnd;
    if r[i].name != name {
      r' := r[newEnd := r[i]];
      newEnd' := newEnd + 1;
    }
  }

  lemma CopyStart(cs: seq<Cookie>, name: string, first: nat)
    requires first < |cs| && cs[first].name == name && Kept(cs[..first], name) == cs[..first]
    ensures Copying(cs, name, cs, first, first + 1)
  {
    KeptStep(cs, first, name);
  }

  lemma CopyDone(cs: seq<Cookie>, name: string, r: seq<Cookie>, newEnd: nat)
    requires Copying(cs, name, r, newEnd, |cs|)
    ensures newEnd == |Kept(cs, name)| && |r| == |cs|
    ensures r[..newEnd] == Kept(cs, name)
    ensures r[newEnd..] == cs[newEnd..]
  {
    assert cs[..|cs|] == cs;
  }

  /**
   * The invariant of the copy loop after `i` records: the first `newEnd` slots hold
   * the kept records among them, and every later slot still holds its original record.
   */
  predicate Copying(cs: seq<Cookie>, name: string, r: seq<Cookie>, newEnd: nat, i: nat) {
    newEnd < i <= |cs| == |r| && r[..newEnd] == Kept(cs[..i], name) && TailAgrees(r, cs, newEnd)
  }

  /** From `from` on, `r` still holds the records of `cs` unchanged. */
  predicate TailAgrees(r: seq<Cookie>, cs: seq<Cookie>, from: nat)
    requires |r| == |cs|
  {
    forall k :: from <= k < |r| ==> r[k] == cs[k]
  }

  /** One step of the copy loop of `remove_if` keeps its invariant. */
  lemma RemoveStep(cs: seq<Cookie>, name: string, r: seq<Cookie>, newEnd: nat, i: nat)
    requires newEnd < i < |cs| == |r|
    requires r[..newEnd] == Kept(cs[..i], name)
    requires TailAgrees(r, cs, newEnd)
    ensures r[i] == cs[i]
    ensures cs[i].name != name ==>
      && r[newEnd := r[i]][..newEnd + 1] == Kept(cs[..i + 1], name)
      && TailAgrees(r[newEnd := r[i]], cs, newEnd + 1)
    ensures cs[i].name == name ==> r[..newEnd] == Kept(cs[..i + 1], name)
  {
    KeptStep(cs, i, name);
    if cs[i].name != name {
      assert r[newEnd := r[i]][..newEnd + 1] == r[..newEnd] + [cs[i]];
    }
  }

  lemma KeptStep(cs: seq<Cookie>, i: nat, name: string)
    requires i < |cs|
    ensures Kept(cs[..i + 1], name) == Kept(cs[..i], name) + (if cs[i].name == name then [] else [cs[i]])
  {
    assert cs[..i + 1][..i] == cs[..i];
  }

  /** The `push_back` loop over parsed records. */
  method PushBackAll(cs: seq<Cookie>, more: seq<Cookie>) returns (r: seq<Cookie>)
    ensures r == cs + more
  {
    r := cs;
    var i := 0;
    while i < |more|
      invariant 0 <= i <= |more|
      invariant r == cs + more[..i]
    {
      assert more[..i + 1] == more[..i] + [more[i]];
      r := r + [more[i]];
      i := i + 1;
    }
    assert more[..i] == more;
  }

  // ---------------------------------------------------------------------------
  // The container.

  class Jar {
    /** `m_cookies`, in insertion order; duplicates are allowed. */
    var cookies: seq<Cookie>
    /** `m_default_domain`. */
    var defaultDomain: string

    constructor ()
      ensures cookies == [] && defaultDomain == ""
    {
      cookies := [];
      defaultDomain := "";
    }

    /** `operator()(name, value)`: appends a record with only a name and a value. */
    method Add(name: string, value: string)
      modifies this
      ensures cookies == old(cookies) + [NamedCookie(name, value)]
      ensures defaultDomain == old(defaultDomain)
    {
      cookies := cookies + [NamedCookie(name, value)];
    }

    /** `operator()(cookie)` and `push_back`: appends the record as given. */
    method AddCookie(c: Cookie)
      modifies this
      ensures cookies == old(cookies) + [c]
      ensures defaultDomain == old(defaultDomain)
    {
      cookies := cookies + [c];
    }

    /**
     * `operator()(str)`: parses a `Set-Cookie` value and appends its records; a
     * value that does not parse leaves the jar as it was.
     */
    method AddSetCookie(cc: CharClasses, parseDate: DateParser, str: string)
      modifies this
      ensures cookies == old(cookies) + ParseSetCookie(cc, parseDate, old(defaultDomain), str).GetOr([])
      ensures ParseSetCookie(cc, parseDate, old(defaultDomain), str).None? ==> cookies == old(cookies)
      ensures defaultDomain == old(defaultDomain)
    {
      var ok, parsed := ParseCookieString(cc, parseDate, defaultDomain, str);
      if ok {
        cookies := PushBackAll(cookies, parsed);
      }
    }

    /**
     * `get_cookie_line`: the merged records (sorted by expiry, duplicates
     * dropped) that are sendable over this connection at `now`, as
     * `name=value` pieces joined by `"; "`.
     */
    method GetCookieLine(isHttps: bool, now: int) returns (line: string, ghost sorted: seq<Cookie>)
      ensures multiset(sorted) == multiset(cookies) && SortedByExpiry(sorted)
      ensures line == Join(Pieces(Merged(sorted), isHttps, now))
      ensures line == "" <==> forall c :: c in Merged(sorted) ==> !Sendable(c, isHttps, now)
      ensures (forall c :: c in cookies ==> !Sendable(c, isHttps, now)) ==> line == ""
    {
      line := "";
      if |cookies| == 0 {
        sorted := [];
        return;
      }
      var tmp;
      tmp, sorted := Plus([], cookies);
      assert [] + cookies == cookies;
      line := BuildLine(tmp, isHttps, now);
      LineEmpty(tmp, isHttps, now);
    }

    /** `operator[]`: the value of the first record with this name and a non-empty value, or "". */
    method Get(name: string) returns (value: string)
      ensures value != "" ==> exists i :: (0 <= i < |cookies| && cookies[i].name == name && cookies[i].value == value
        && forall j :: 0 <= j < i ==> cookies[j].name != name || cookies[j].value == "")
      ensures value == "" ==> forall i :: 0 <= i < |cookies| && cookies[i].name == name ==> cookies[i].value == ""
    {
      var i := 0;
      while i < |cookies|
        invariant 0 <= i <= |cookies|
        invariant forall j :: 0 <= j < i ==> cookies[j].name != name || cookies[j].value == ""
      {
        if cookies[i].name == name && cookies[i].value != "" {
          return cookies[i].value;
        }
        i := i + 1;
      }
      return "";
    }

    /** `find(name)`: the index of the first record with this name, or the size for `end()`. */
    method FindByName(name: string) returns (i: nat)
      ensures i <= |cookies|
      ensures i < |cookies| ==> cookies[i].name == name
      ensures forall j :: 0 <= j < i ==> cookies[j].name != name
      ensures i == FindName(cookies, name)
    {
      i := 0;
      while i < |cookies|
        invariant i <= |cookies|
        invariant forall j :: 0 <= j < i ==> cookies[j].name != name
      {
        if cookies[i].name == name {
          return;
        }
        i := i + 1;
      }
    }

    /** `find(cookie)`: the index of the first record with the same name, domain and path, or the size. */
    method FindByKey(key: Cookie) returns (i: nat)
      ensures i <= |cookies|
      ensures i < |cookies| ==> SameKey(cookies[i], key)
      ensures forall j :: 0 <= j < i ==> !SameKey(cookies[j], key)
      ensures i == FindKey(cookies, key)
    {
      i := 0;
      while i < |cookies|
        invariant i <= |cookies|
        invariant forall j :: 0 <= j < i ==> !SameKey(cookies[j], key)
      {
        if cookies[i].name == key.name && cookies[i].domain == key.domain && cookies[i].path == key.path {
          return;
        }
        i := i + 1;
      }
    }

    /**
     * `remove_cookie`: the vector is not erased after `std::remove_if`, so its
     * size is unchanged, the records with another name come first, in order,
     * and the places after them hold what they held before.
     */
    method RemoveCookie(name: string)
      modifies this
      ensures |cookies| == |old(cookies)|
      ensures cookies[..|Kept(old(cookies), name)|] == Kept(old(cookies), name)
      ensures cookies[|Kept(old(cookies), name)|..] == old(cookies)[|Kept(old(cookies), name)|..]
      ensures defaultDomain == old(defaultDomain)
    {
      var newEnd;
      cookies, newEnd := RemoveIfName(cookies, name);
    }

    /** `clear`. */
    method Clear()
      modifies this
      ensures cookies == [] && defaultDomain == old(defaultDomain)
    {
      cookies := [];
    }

    /** `size`: the number of records held, duplicates and removed-but-not-erased places included. */
    method Size() returns (n: int)
      ensures n == |cookies|
    {
      n := |cookies|;
    }

    /** `default_domain(domain)`. */
    method SetDefaultDomain(domain: string)
      modifies this
      ensures defaultDomain == domain && cookies == old(cookies)
    {
      defaultDomain := domain;
    }

    /** `default_domain()`. */
    method DefaultDomain() returns (domain: string)
      ensures domain == defaultDomain
    {
      domain := defaultDomain;
    }

    /**
     * `save_to_file` with the line ending it evidently intends: the header, then
     * one line per record (`SaveThenLoadFixed` shows that saveable records come
     * back from this text in order).
     */
    method SaveToText(domain: string) returns (text: string)
      ensures text == SaveTextFixed(cookies, domain)
    {
      text := Memo;
      var i := 0;
      while i < |cookies|
        invariant 0 <= i <= |cookies|
        invariant text == Memo + RecordLines(cookies[..i], domain)
      {
        var line := WriteRecord(cookies[i], domain);
        // The corrected ending: `f.write("\t\n", 2)` would add the newline after the tab.
        line := line + "\n";
        RecordLinesSnoc(cookies[..i], cookies[i], domain);
        Associative(Memo, RecordLines(cookies[..i], domain), line);
        assert cookies[..i + 1] == cookies[..i] + [cookies[i]];
        text := text + line;
        i := i + 1;
      }
      assert cookies[..i] == cookies;
    }

    /**
     * `load_from_file` on the text of the file: every line that is not blank or
     * a comment adds the record its tab-separated fields describe.
     */
    method LoadFromText(text: string)
      requires AllLoadable(Lines(text))
      modifies this
      ensures cookies == old(cookies) + LoadText(text)
      ensures defaultDomain == old(defaultDomain)
    {
      var lines := Lines(text);
      var i := 0;
      while i < |lines|
        invariant 0 <= i <= |lines|
        invariant AllLoadable(lines[..i])
        invariant cookies == old(cookies) + LoadLines(lines[..i])
        invariant defaultDomain == old(defaultDomain)
      {
        LoadLinesSnoc(lines, i);
        var read := ReadLine(lines[i]);
        cookies := cookies + read;
        i := i + 1;
      }
      assert lines[..i] == lines;
    }
  }

  /**
   * `operator+(lhs, rhs)` on whole jars. The result is a new, default-constructed
   * jar holding the merged records, so its default domain is empty whatever the
   * operands had: `jar = jar + other` clears the jar's default domain.
   */
  method JarPlus(lhs: Jar, rhs: Jar) returns (r: Jar, ghost sorted: seq<Cookie>)
    ensures fresh(r) && r.defaultDomain == ""
    ensures multiset(sorted) == multiset(lhs.cookies + rhs.cookies) && SortedByExpiry(sorted)
    ensures r.cookies == Merged(sorted)
  {
    var ret;
    ret, sorted := Plus(lhs.cookies, rhs.cookies);
    r := new Jar();
    r.cookies := ret;
  }

  /**
   * The writes `save_to_file` makes for one record, as the code is written: the
   * last one, `f.write("\t\n", 1)`, writes only the tab.
   */
  method WriteRecord(c: Cookie, domain: string) returns (line: string)
    ensures line == FormatRecord(c, domain)
  {
    var tmp := if c.domain == "" then domain else c.domain;
    line := tmp + "\t";
    tmp := if c.domain == "" then "FALSE" else "TRUE";
    line := line + tmp + "\t";
    line := line + c.path + "\t";
    tmp := if c.secure then "TRUE" else "FALSE";
    line := line + tmp + "\t";
    var t := 0;
    if c.expires.At? {
      t := c.expires.time;
    }
    line := line + DecimalString(t) + "\t";
    line := line + c.name + "\t";
    line := line + c.value + "\t";
    LineIsFormatted(c, domain, line);
  }

  /** The body of the `load_from_file` loop: trim, skip blank and comment lines, split on tabs, build the record. */
  method ReadLine(line: string) returns (read: seq<Cookie>)
    requires Loadable(line)
    ensures read == LineRecords(line)
  {
    var trimmed := Trim(line);
    if trimmed == [] || trimmed[0] == '#' {
      return [];
    }
    var f := Tokens(trimmed);
    var time := Atol(f[4]);
    var c := Cookie(f[5], f[6], f[0], f[2], At(time), false, f[3] == "TRUE");
    return [c];
  }

  lemma {:induction false} TerminatedSnoc(fs: seq<string>, x: string)
    ensures Terminated(fs + [x]) == Terminated(fs) + x + "\t"
  {
    if fs == [] {
      assert [] + [x] == [x];
      assert [x][1..] == [];
    } else {
      assert (fs + [x])[1..] == fs[1..] + [x];
      TerminatedSnoc(fs[1..], x);
    }
  }

  lemma TerminatedThree(f0: string, f1: string, f2: string)
    ensures Terminated([f0, f1, f2]) == f0 + "\t" + f1 + "\t" + f2 + "\t"
  {
    assert Terminated([]) == "";
    TerminatedSnoc([], f0);
    assert [] + [f0] == [f0];
    TerminatedSnoc([f0], f1);
    assert [f0] + [f1] == [f0, f1];
    TerminatedSnoc([f0, f1], f2);
    assert [f0, f1] + [f2] == [f0, f1, f2];
  }

  lemma TerminatedFive(f0: string, f1: string, f2: string, f3: string, f4: string)
    ensures Terminated([f0, f1, f2, f3, f4]) == f0 + "\t" + f1 + "\t" + f2 + "\t" + f3 + "\t" + f4 + "\t"
  {
    TerminatedThree(f0, f1, f2);
    TerminatedSnoc([f0, f1, f2], f3);
    assert [f0, f1, f2] + [f3] == [f0, f1, f2, f3];
    TerminatedSnoc([f0, f1, f2, f3], f4);
    assert [f0, f1, f2, f3] + [f4] == [f0, f1, f2, f3, f4];
  }

  /** Seven fields, each followed by a tab, in the order the writes make them. */
  lemma TerminatedSeven(f0: string, f1: string, f2: string, f3: string, f4: string, f5: string, f6: string)
    ensures Terminated([f0, f1, f2, f3, f4, f5, f6])
         == f0 + "\t" + f1 + "\t" + f2 + "\t" + f3 + "\t" + f4 + "\t" + f5 + "\t" + f6 + "\t"
  {
    TerminatedFive(f0, f1, f2, f3, f4);
    TerminatedSnoc([f0, f1, f2, f3, f4], f5);
    assert [f0, f1, f2, f3, f4] + [f5] == [f0, f1, f2, f3, f4, f5];
    TerminatedSnoc([f0, f1, f2, f3, f4, f5], f6);
    assert [f0, f1, f2, f3, f4, f5] + [f6] == [f0, f1, f2, f3, f4, f5, f6];
  }

  /** The text the write calls for one record produce: the seven fields, each followed by a tab. */
  lemma LineIsFormatted(c: Cookie, domain: string, line: string)
    requires line ==
      (if c.domain == "" then domain else c.domain) + "\t"
      + (if c.domain == "" then "FALSE" else "TRUE") + "\t"
      + c.path + "\t"
      + (if c.secure then "TRUE" else "FALSE") + "\t"
      + DecimalString(if c.expires.At? then c.expires.time else 0) + "\t"
      + c.name + "\t"
      + c.value + "\t"
    ensures line == FormatRecord(c, domain)
  {
    var f0 := if c.domain == "" then domain else c.domain;
    var f1 := if c.domain == "" then "FALSE" else "TRUE";
    var f3 := if c.secure then "TRUE" else "FALSE";
    var f4 := DecimalString(ExpiryTime(c.expires));
    assert Fields(c, domain) == [f0, f1, c.path, f3, f4, c.name, c.value];
    TerminatedSeven(f0, f1, c.path, f3, f4, c.name, c.value);
    var x := f0 + "\t" + f1 + "\t" + c.path + "\t" + f3 + "\t" + f4 + "\t" + c.name + "\t" + c.value;
    assert line == x + "\t";
  }

  lemma {:induction false} RecordLinesSnoc(cs: seq<Cookie>, c: Cookie, domain: string)
    ensures RecordLines(cs + [c], domain) == RecordLines(cs, domain) + FormatRecordLine(c, domain)
  {
    if cs == [] {
      assert [] + [c] == [c];
      assert [c][1..] == [];
    } else {
      assert (cs + [c])[1..] == cs[1..] + [c];
      RecordLinesSnoc(cs[1..], c, domain);
    }
  }
}
