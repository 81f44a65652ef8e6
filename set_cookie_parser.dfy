/**
 * `cookies::parse_cookie_string` of include/avhttp/cookie.hpp: a character-driven
 * state machine that reads one Set-Cookie header value into a name-to-value map,
 * then strips the `expires`, `domain` and `path` attributes from the map and turns
 * every remaining entry into one cookie record.
 */
module SetCookieParser {
  import opened Wrappers
  import opened CookieRecord
  import opened StringMap

  /**
   * `detail::is_char` and `detail::is_tspecial`, whose header is not part of this
   * model: the parser works for any pair of character classes.
   */
  datatype CharClasses = CharClasses(isChar: char -> bool, isTspecial: char -> bool)

  /**
   * `detail::parse_http_date`, whose header is not part of this model: the time a
   * date string denotes, or None when it is not a date.
   */
  type DateParser = string -> Option<int>

  /** The machine's states `cookie_name_start` ... `cookie_bad`. */
  datatype Phase = NameStart | Name | ValueStart | Value | Bad

  /**
   * Everything the character loop updates: `state`, the `name` and `value`
   * buffers, the `tmp` map and the two flags of `cookie_tmp`.
   */
  datatype Scanner = Scanner(
    phase: Phase,
    name: string,
    value: string,
    pairs: seq<Entry>,
    secure: bool,
    httpOnly: bool)

  const Start: Scanner := Scanner(NameStart, "", "", [], false, false)

  /**
   * What holds of the machine between two characters: the map is ordered and has
   * no empty key, the name buffer is empty exactly at a name start, and the value
   * buffer is empty at a value start and non-empty inside a value.
   */
  predicate Wellformed(s: Scanner) {
    && Ordered(s.pairs)
    && Lookup(s.pairs, "") == None
    && (s.phase == NameStart ==> s.name == "")
    && (s.phase == Name || s.phase == ValueStart || s.phase == Value ==> s.name != "")
    && (s.phase == ValueStart ==> s.value == "")
    && (s.phase == Value ==> s.value != "")
  }

  /** The two bare names that set a flag instead of being an error. */
  predicate IsFlag(name: string) {
    name == "secure" || name == "httponly"
  }

  /**
   * The character `c` sends the machine in state `s` to `cookie_bad`: a character
   * outside the class at a name start or in a value, or a `;` after a bare name
   * that is not a flag.
   */
  predicate FailsOn(cc: CharClasses, s: Scanner, c: char) {
    match s.phase
    case NameStart => c != ' ' && !cc.isChar(c)
    case Name => c == ';' && !IsFlag(s.name)
    case ValueStart => c != ';' && c != '"' && c != '\'' && !cc.isChar(c)
    case Value => c != ';' && c != '"' && c != '\'' && !cc.isChar(c)
    case Bad => false
  }

  /** The (name, value) pair that the character `c` writes into the map, if any. */
  function Commit(s: Scanner, c: char): Option<Entry> {
    if (s.phase == ValueStart && c == ';') || (s.phase == Value && (c == ';' || c == '"' || c == '\'')) then
      Some((s.name, s.value))
    else
      None
  }

  /** One turn of the `switch (state)` in the character loop. */
  function Step(cc: CharClasses, s: Scanner, c: char): (r: Scanner)
    requires Wellformed(s)
    ensures Wellformed(r)
    ensures r.phase == Bad <==> s.phase == Bad || FailsOn(cc, s, c)
    ensures r.pairs == match Commit(s, c) case Some(e) => Put(s.pairs, e.0, e.1) case None => s.pairs
    ensures r.secure == (s.secure || (s.phase == Name && c == ';' && s.name == "secure"))
    ensures r.httpOnly == (s.httpOnly || (s.phase == Name && c == ';' && s.name == "httponly"))
  {
    match s.phase
    case NameStart =>
      if c == ' ' then s
      else if cc.isChar(c) then s.(name := s.name + [c], phase := Name)
      else s.(phase := Bad)
    case Name =>
      if c == ';' then
        if s.name == "secure" then s.(phase := NameStart, secure := true, name := "")
        else if s.name == "httponly" then s.(phase := NameStart, httpOnly := true, name := "")
        else s.(phase := Bad, name := "")
      else if c == '=' then s.(value := "", phase := ValueStart)
      else if cc.isTspecial(c) || c == ':' then s.(name := "", phase := NameStart)
      else if cc.isChar(c) || c == '_' then s.(name := s.name + [c])
      else s
    case ValueStart =>
      if c == ';' then s.(pairs := Put(s.pairs, s.name, s.value), name := "", value := "", phase := NameStart)
      else if c == '"' || c == '\'' then s
      else if cc.isChar(c) then s.(value := s.value + [c], phase := Value)
      else s.(phase := Bad)
    case Value =>
      if c == ';' || c == '"' || c == '\'' then
        s.(pairs := Put(s.pairs, s.name, s.value), name := "", value := "", phase := NameStart)
      else if cc.isChar(c) then s.(value := s.value + [c])
      else s.(phase := Bad)
    case Bad => s
  }

  /** The character loop: one step per character, stopping early at `cookie_bad`. */
  function Scan(cc: CharClasses, s: Scanner, str: string): (r: Scanner)
    requires Wellformed(s)
    ensures Wellformed(r)
    decreases |str|
  {
    if str == [] || s.phase == Bad then s
    else Scan(cc, Step(cc, s, str[0]), str[1..])
  }

  /** The pairs the character loop writes into the map, in the order it writes them. */
  function Commits(cc: CharClasses, s: Scanner, str: string): seq<Entry>
    requires Wellformed(s)
    decreases |str|
  {
    if str == [] || s.phase == Bad then []
    else
      (match Commit(s, str[0]) case Some(e) => [e] case None => [])
      + Commits(cc, Step(cc, s, str[0]), str[1..])
  }

  /** What the end of the input does to the machine (the `if` chain after the loop). */
  function Finish(s: Scanner): (r: Scanner)
    requires Wellformed(s)
    ensures Wellformed(r) && r.phase == s.phase
    ensures s.phase == ValueStart || s.phase == NameStart || s.phase == Bad ==> r == s
    ensures s.phase == Name ==>
      (r.pairs == s.pairs && r.secure == (s.secure || s.name == "secure") && r.httpOnly == (s.httpOnly || s.name == "httponly"))
    ensures s.phase == Value ==>
      (r.pairs == Put(s.pairs, s.name, s.value) && r.secure == s.secure && r.httpOnly == s.httpOnly)
  {
    if s.phase == Name && s.name != "" then
      if s.name == "secure" then s.(secure := true)
      else if s.name == "httponly" then s.(httpOnly := true)
      else s
    else if s.phase == Value && s.value != "" then
      s.(pairs := Put(s.pairs, s.name, s.value))
    else
      s
  }

  /** Every pair written into the map, including the one the end of the input writes. */
  function Committed(cc: CharClasses, str: string): seq<Entry> {
    var s := Scan(cc, Start, str);
    Commits(cc, Start, str) + if s.phase == Value then [(s.name, s.value)] else []
  }

  /** `boost::to_lower_copy` in the classic locale: only `A` to `Z` change. */
  function Lower(s: string): string {
    seq(|s|, i requires 0 <= i < |s| => if 'A' <= s[i] <= 'Z' then (s[i] as int + 32) as char else s[i])
  }

  /** A map key that names an attribute rather than a cookie, matched case-insensitively. */
  predicate IsAttribute(key: string) {
    var k := Lower(key);
    k == "expires" || k == "domain" || k == "path"
  }

  /** The attribute part of `cookie_tmp` that every emitted record shares. */
  datatype Attributes = Attributes(domain: string, path: string, expires: Expiry)

  /** One turn of the attribute loop for an entry of the map. */
  function ApplyAttribute(a: Attributes, e: Entry, defaultDomain: string, parseDate: DateParser): Attributes {
    if Lower(e.0) == "expires" then
      a.(expires := match parseDate(e.1) case Some(t) => At(t) case None => a.expires)
    else if Lower(e.0) == "domain" then
      a.(domain := if e.1 == "" && defaultDomain != "" then defaultDomain else e.1)
    else if Lower(e.0) == "path" then
      a.(path := e.1)
    else
      a
  }

  /** The attributes after the loop has visited every entry, in key order. */
  function Resolve(pairs: seq<Entry>, defaultDomain: string, parseDate: DateParser): Attributes {
    if pairs == [] then Attributes("", "", Session)
    else ApplyAttribute(Resolve(pairs[..|pairs| - 1], defaultDomain, parseDate), pairs[|pairs| - 1], defaultDomain, parseDate)
  }

  /** The entries the attribute loop leaves in the map: those that are not attributes, in order. */
  function NonAttributes(pairs: seq<Entry>): (r: seq<Entry>)
    ensures forall i :: 0 <= i < |r| ==> r[i] in pairs && !IsAttribute(r[i].0)
    ensures Ordered(pairs) ==> Ordered(r)
  {
    if pairs == [] then []
    else
      var prefix := NonAttributes(pairs[..|pairs| - 1]);
      var last := pairs[|pairs| - 1];
      if IsAttribute(last.0) then prefix
      else
        var r := prefix + [last];
        assert Ordered(pairs) ==> Ordered(r) by {
          if Ordered(pairs) {
            forall i | 0 <= i < |prefix| ensures Less(prefix[i].0, last.0) {
              var j :| 0 <= j < |pairs| - 1 && pairs[j] == prefix[i];
            }
          }
        }
        r
  }

  /** The records the emitting loop pushes: one per entry, all sharing the attributes and flags. */
  function Emit(kept: seq<Entry>, a: Attributes, secure: bool, httpOnly: bool): (r: seq<Cookie>)
    ensures |r| == |kept|
    ensures forall i :: 0 <= i < |r| ==>
      r[i] == Cookie(kept[i].0, kept[i].1, a.domain, a.path, a.expires, httpOnly, secure)
  {
    if kept == [] then []
    else
      var e := kept[|kept| - 1];
      Emit(kept[..|kept| - 1], a, secure, httpOnly) + [Cookie(e.0, e.1, a.domain, a.path, a.expires, httpOnly, secure)]
  }

  /**
   * The whole parser: None when it returns false, otherwise the records it pushes.
   * `defaultDomain` is the jar's `m_default_domain`.
   */
  function ParseSetCookie(cc: CharClasses, parseDate: DateParser, defaultDomain: string, str: string): (r: Option<seq<Cookie>>)
    ensures r.None? <==> Scan(cc, Start, str).phase == Bad
  {
    var f := Finish(Scan(cc, Start, str));
    if f.phase == Bad then None
    else Some(Emit(NonAttributes(f.pairs), Resolve(f.pairs, defaultDomain, parseDate), f.secure, f.httpOnly))
  }

  /** `parse_cookie_string`: the character loop, the end-of-input step, the attribute loop and the emitting loop. */
  method ParseCookieString(cc: CharClasses, parseDate: DateParser, defaultDomain: string, str: string)
    returns (ok: bool, cookie: seq<Cookie>)
    ensures ParseSetCookie(cc, parseDate, defaultDomain, str) == if ok then Some(cookie) else None
    ensures !ok ==> cookie == []
  {
    var state, name, value, tmp, secure, httpOnly := RunMachine(cc, str);

    // End of input.
    if state == Name && name != "" {
      if name == "secure" {
        secure := true;
      } else if name == "httponly" {
        httpOnly := true;
      }
    } else if state == Value && value != "" {
      tmp := Put(tmp, name, value);
    } else if state == Bad {
      return false, [];
    }
    assert Scanner(state, name, value, tmp, secure, httpOnly) == Finish(Scan(cc, Start, str));

    var kept, domain, path, expires := StripAttributes(tmp, defaultDomain, parseDate);
    cookie := EmitRecords(kept, domain, path, expires, secure, httpOnly);
    ok := true;
  }

  /** The character loop of `parse_cookie_string`: `while (iter != str.end() && state != cookie_bad)`. */
  method RunMachine(cc: CharClasses, str: string)
    returns (state: Phase, name: string, value: string, tmp: seq<Entry>, secure: bool, httpOnly: bool)
    ensures Scanner(state, name, value, tmp, secure, httpOnly) == Scan(cc, Start, str)
  {
    state := NameStart;
    name, value := "", "";
    tmp := [];
    secure, httpOnly := false, false;
    var i := 0;
    while i < |str| && state != Bad
      invariant 0 <= i <= |str|
      invariant Wellformed(Scanner(state, name, value, tmp, secure, httpOnly))
      invariant Scan(cc, Start, str) == Scan(cc, Scanner(state, name, value, tmp, secure, httpOnly), str[i..])
    {
      ghost var before := Scanner(state, name, value, tmp, secure, httpOnly);
      var c := str[i];
      assert Scan(cc, before, str[i..]) == Scan(cc, Step(cc, before, c), str[i + 1..]) by {
        assert str[i..][0] == c && str[i..][1..] == str[i + 1..];
      }
      i := i + 1;
      match state {
        case NameStart =>
          if c != ' ' {
            if cc.isChar(c) {
              name := name + [c];
              state := Name;
            } else {
              state := Bad;
            }
          }
        case Name =>
          if c == ';' {
            state := NameStart;
            if name == "secure" {
              secure := true;
            } else if name == "httponly" {
              httpOnly := true;
            } else {
              state := Bad;
            }
            name := "";
          } else if c == '=' {
            value := "";
            state := ValueStart;
          } else if cc.isTspecial(c) || c == ':' {
            name := "";
            state := NameStart;
          } else if cc.isChar(c) || c == '_' {
            name := name + [c];
          }
        case ValueStart =>
          if c == ';' {
            tmp := Put(tmp, name, value);
            name := "";
            value := "";
            state := NameStart;
          } else if c != '"' && c != '\'' {
            if cc.isChar(c) {
              value := value + [c];
              state := Value;
            } else {
              state := Bad;
            }
          }
        case Value =>
          if c == ';' || c == '"' || c == '\'' {
            tmp := Put(tmp, name, value);
            name := "";
            value := "";
            state := NameStart;
          } else if cc.isChar(c) {
            value := value + [c];
          } else {
            state := Bad;
          }
        case Bad =>
      }
      assert Scanner(state, name, value, tmp, secure, httpOnly) == Step(cc, before, c);
    }
  }

  /**
   * The attribute loop of `parse_cookie_string`: an attribute entry sets its field
   * of `cookie_tmp` and is erased, and the loop then stands on the next entry.
   */
  method StripAttributes(all: seq<Entry>, defaultDomain: string, parseDate: DateParser)
    returns (tmp: seq<Entry>, domain: string, path: string, expires: Expiry)
    ensures tmp == NonAttributes(all)
    ensures Attributes(domain, path, expires) == Resolve(all, defaultDomain, parseDate)
  {
    tmp := all;
    ghost var j := 0;
    domain, path, expires := "", "", Session;
    var k := 0;
    while k < |tmp|
      invariant 0 <= k <= |tmp| && 0 <= j <= |all| && |all| - j == |tmp| - k
      invariant tmp[..k] == NonAttributes(all[..j])
      invariant tmp[k..] == all[j..]
      invariant Attributes(domain, path, expires) == Resolve(all[..j], defaultDomain, parseDate)
      decreases |tmp| - k
    {
      tmp, k, domain, path, expires := StripOne(all, defaultDomain, parseDate, j, tmp, k, domain, path, expires);
      j := j + 1;
    }
    assert all[..j] == all;
  }

  /** One turn of the attribute loop, at entry `k` of the map, which is entry `j` of the original. */
  method StripOne(all: seq<Entry>, defaultDomain: string, parseDate: DateParser, ghost j: nat,
                  tmp: seq<Entry>, k: nat, domain: string, path: string, expires: Expiry)
    returns (tmp': seq<Entry>, k': nat, domain': string, path': string, expires': Expiry)
    requires k < |tmp| && j < |all|
    requires tmp[..k] == NonAttributes(all[..j]) && tmp[k..] == all[j..]
    requires Attributes(domain, path, expires) == Resolve(all[..j], defaultDomain, parseDate)
    ensures k' <= |tmp'| && |tmp'| - k' == |tmp| - k - 1
    ensures tmp'[..k'] == NonAttributes(all[..j + 1]) && tmp'[k'..] == all[j + 1..]
    ensures Attributes(domain', path', expires') == Resolve(all[..j + 1], defaultDomain, parseDate)
  {
    assert tmp[k] == all[j];
    assert all[..j + 1][..j] == all[..j];
    assert tmp[k + 1..] == all[j + 1..] by { assert tmp[k..][1..] == all[j..][1..]; }
    tmp', k', domain', path', expires' := tmp, k, domain, path, expires;
    if Lower(tmp[k].0) == "expires" {
      var t := parseDate(tmp[k].1);
      if t.Some? {
        expires' := At(t.value);
      }
      tmp' := Erase(tmp, k);
    } else if Lower(tmp[k].0) == "domain" {
      domain' := tmp[k].1;
      if tmp[k].1 == "" && defaultDomain != "" {
        domain' := defaultDomain;
      }
      tmp' := Erase(tmp, k);
    } else if Lower(tmp[k].0) == "path" {
      path' := tmp[k].1;
      tmp' := Erase(tmp, k);
    } else {
      k' := k + 1;
    }
  }

  /** `tmp.erase(i)` on the entry at position `k`. */
  function Erase(m: seq<Entry>, k: nat): (r: seq<Entry>)
    requires k < |m|
    ensures |r| == |m| - 1 && r[..k] == m[..k] && r[k..] == m[k + 1..]
  {
    m[..k] + m[k + 1..]
  }

  /** The emitting loop of `parse_cookie_string`: one `push_back` of `cookie_tmp` per entry left. */
  method EmitRecords(tmp: seq<Entry>, domain: string, path: string, expires: Expiry, secure: bool, httpOnly: bool)
    returns (cookie: seq<Cookie>)
    ensures cookie == Emit(tmp, Attributes(domain, path, expires), secure, httpOnly)
  {
    cookie := [];
    var n := 0;
    while n < |tmp|
      invariant 0 <= n <= |tmp|
      invariant cookie == Emit(tmp[..n], Attributes(domain, path, expires), secure, httpOnly)
    {
      assert tmp[..n + 1][..n] == tmp[..n];
      cookie := cookie + [Cookie(tmp[n].0, tmp[n].1, domain, path, expires, httpOnly, secure)];
      n := n + 1;
    }
    assert tmp[..n] == tmp;
  }
}

/** What the parser promises, stated over the model above. */
module SetCookieProperties {
  import opened Wrappers
  import opened CookieRecord
  import opened StringMap
  import opened SetCookieParser

  /** The map as it stands after the end of the input. */
  function FinalMap(cc: CharClasses, str: string): seq<Entry> {
    Finish(Scan(cc, Start, str)).pairs
  }

  /** The (name, value) pairs of a list of records. */
  function NameValues(cs: seq<Cookie>): (r: seq<Entry>)
    ensures |r| == |cs| && forall i :: 0 <= i < |cs| ==> r[i] == (cs[i].name, cs[i].value)
  {
    seq(|cs|, i requires 0 <= i < |cs| => (cs[i].name, cs[i].value))
  }

  /** Two records share their domain, path, expiry and both flags. */
  predicate SameAttributes(a: Cookie, b: Cookie) {
    a.domain == b.domain && a.path == b.path && a.expires == b.expires
      && a.secure == b.secure && a.httpOnly == b.httpOnly
  }

  /**
   * The machine reaches `cookie_bad` exactly when some character, read in the
   * state the machine had reached before it, is one that `FailsOn` names.
   */
  lemma ScanFails(cc: CharClasses, s: Scanner, str: string)
    requires Wellformed(s)
    ensures Scan(cc, s, str).phase == Bad <==>
      s.phase == Bad || exists i :: 0 <= i < |str| && FailsOn(cc, Scan(cc, s, str[..i]), str[i])
  {
    if Scan(cc, s, str).phase == Bad && s.phase != Bad {
      var _ := ScanFailWitness(cc, s, str);
    }
    if s.phase != Bad && exists i :: 0 <= i < |str| && FailsOn(cc, Scan(cc, s, str[..i]), str[i]) {
      var i :| 0 <= i < |str| && FailsOn(cc, Scan(cc, s, str[..i]), str[i]);
      ScanFailsAt(cc, s, str, i);
    }
  }

  /** A scan that ends in `cookie_bad` has a first character that failed. */
  lemma {:induction false} ScanFailWitness(cc: CharClasses, s: Scanner, str: string) returns (i: nat)
    requires Wellformed(s) && s.phase != Bad && Scan(cc, s, str).phase == Bad
    ensures i < |str| && FailsOn(cc, Scan(cc, s, str[..i]), str[i])
    decreases |str|
  {
    assert Scan(cc, s, str[..0]) == s by { assert str[..0] == []; }
    var t := Step(cc, s, str[0]);
    if FailsOn(cc, s, str[0]) {
      i := 0;
    } else {
      var k := ScanFailWitness(cc, t, str[1..]);
      i := k + 1;
      ScanAfterFirst(cc, s, str, i);
    }
  }

  /** A character that fails sends the scan to `cookie_bad`, where it stays. */
  lemma {:induction false} ScanFailsAt(cc: CharClasses, s: Scanner, str: string, i: nat)
    requires Wellformed(s) && i < |str| && FailsOn(cc, Scan(cc, s, str[..i]), str[i])
    ensures Scan(cc, s, str).phase == Bad
    decreases i
  {
    if s.phase != Bad {
      if i == 0 {
        assert Scan(cc, s, str[..0]) == s by { assert str[..0] == []; }
        ScanStaysBad(cc, Step(cc, s, str[0]), str[1..]);
      } else {
        ScanAfterFirst(cc, s, str, i);
        ScanFailsAt(cc, Step(cc, s, str[0]), str[1..], i - 1);
      }
    }
  }

  lemma {:induction false} ScanStaysBad(cc: CharClasses, s: Scanner, str: string)
    requires Wellformed(s) && s.phase == Bad
    ensures Scan(cc, s, str) == s
  {
  }

  /** Scanning a prefix of length `i` is one step and then the rest of that prefix. */
  lemma ScanAfterFirst(cc: CharClasses, s: Scanner, str: string, i: nat)
    requires Wellformed(s) && s.phase != Bad && 1 <= i <= |str|
    ensures Scan(cc, s, str[..i]) == Scan(cc, Step(cc, s, str[0]), str[1..][..i - 1])
    ensures i < |str| ==> str[i] == str[1..][i - 1]
  {
    assert str[..i][0] == str[0] && str[..i][1..] == str[1..][..i - 1];
  }

  /**
   * `parse_cookie_string` returns false exactly when some character fails: a
   * non-space outside the character class at a name start, `;` after a bare name
   * other than `secure` or `httponly`, or a character outside the class (other
   * than `;` and the quotes) at a value start or inside a value.
   */
  lemma ParseFails(cc: CharClasses, parseDate: DateParser, defaultDomain: string, str: string)
    ensures ParseSetCookie(cc, parseDate, defaultDomain, str).None? <==>
      exists i :: 0 <= i < |str| && FailsOn(cc, Scan(cc, Start, str[..i]), str[i])
  {
    ScanFails(cc, Start, str);
  }

  /** The map the character loop builds is the result of writing its commits in order. */
  lemma {:induction false} ScanPairs(cc: CharClasses, s: Scanner, str: string)
    requires Wellformed(s)
    ensures Scan(cc, s, str).pairs == PutAll(s.pairs, Commits(cc, s, str))
    decreases |str|
  {
    if str != [] && s.phase != Bad {
      var t := Step(cc, s, str[0]);
      ScanPairs(cc, t, str[1..]);
      match Commit(s, str[0])
      case Some(e) =>
        PutAllCons(s.pairs, e, Commits(cc, t, str[1..]));
      case None =>
        assert Commits(cc, s, str) == Commits(cc, t, str[1..]);
    }
  }

  /**
   * After the end of the input each name in the map holds the value committed for
   * it last: a later duplicate name overwrites the earlier value.
   */
  lemma FinalMapLastWins(cc: CharClasses, str: string, k: string)
    ensures FinalMap(cc, str) == PutAll([], Committed(cc, str))
    ensures Lookup(FinalMap(cc, str), k) == LastValue(Committed(cc, str), k)
  {
    var s := Scan(cc, Start, str);
    ScanPairs(cc, Start, str);
    if s.phase == Value {
      PutAllSnoc([], Commits(cc, Start, str), (s.name, s.value));
    } else {
      assert Committed(cc, str) == Commits(cc, Start, str);
    }
    PutAllLastWins(Committed(cc, str), k);
  }

  /** The attribute loop erases exactly the attribute keys and keeps every other value. */
  lemma {:induction false} NonAttributesLookup(pairs: seq<Entry>, k: string)
    ensures Lookup(NonAttributes(pairs), k) == if IsAttribute(k) then None else Lookup(pairs, k)
  {
    if pairs != [] {
      var prefix := pairs[..|pairs| - 1];
      var last := pairs[|pairs| - 1];
      assert pairs == prefix + [last];
      NonAttributesLookup(prefix, k);
      LookupSnoc(prefix, last, k);
      if !IsAttribute(last.0) {
        LookupSnoc(NonAttributes(prefix), last, k);
      }
    }
  }

  /**
   * On success the records are one per non-attribute name of the final map, with
   * that name's last committed value, in ascending name order; no name is empty or
   * an attribute, and all records share domain, path, expiry and flags.
   */
  lemma ParsedRecords(cc: CharClasses, parseDate: DateParser, defaultDomain: string, str: string)
    requires ParseSetCookie(cc, parseDate, defaultDomain, str).Some?
    ensures var cs := ParseSetCookie(cc, parseDate, defaultDomain, str).value;
      && (forall i :: 0 <= i < |cs| ==> cs[i].name != "" && !IsAttribute(cs[i].name))
      && (forall i, j :: 0 <= i < j < |cs| ==> Less(cs[i].name, cs[j].name))
      && (forall i, j :: 0 <= i < |cs| && 0 <= j < |cs| ==> SameAttributes(cs[i], cs[j]))
      && (forall k :: Lookup(NameValues(cs), k) == if IsAttribute(k) then None else LastValue(Committed(cc, str), k))
  {
    ParsedPairs(cc, parseDate, defaultDomain, str);
    ParsedNames(cc, parseDate, defaultDomain, str);
    ParsedLookup(cc, parseDate, defaultDomain, str);
  }

  /** The records carry the kept pairs of the final map and the shared attributes. */
  lemma ParsedPairs(cc: CharClasses, parseDate: DateParser, defaultDomain: string, str: string)
    requires ParseSetCookie(cc, parseDate, defaultDomain, str).Some?
    ensures var cs := ParseSetCookie(cc, parseDate, defaultDomain, str).value;
      && NameValues(cs) == NonAttributes(FinalMap(cc, str))
      && Ordered(NameValues(cs))
      && (forall i, j :: 0 <= i < |cs| && 0 <= j < |cs| ==> SameAttributes(cs[i], cs[j]))
  {
    var cs := ParseSetCookie(cc, parseDate, defaultDomain, str).value;
    assert NameValues(cs) == NonAttributes(FinalMap(cc, str));
  }

  /** No record name is empty or an attribute. */
  lemma ParsedNames(cc: CharClasses, parseDate: DateParser, defaultDomain: string, str: string)
    requires ParseSetCookie(cc, parseDate, defaultDomain, str).Some?
    ensures var cs := ParseSetCookie(cc, parseDate, defaultDomain, str).value;
      forall i :: 0 <= i < |cs| ==> cs[i].name != "" && !IsAttribute(cs[i].name)
  {
    var pairs := FinalMap(cc, str);
    var kept := NonAttributes(pairs);
    var cs := ParseSetCookie(cc, parseDate, defaultDomain, str).value;
    ParsedPairs(cc, parseDate, defaultDomain, str);
    forall i | 0 <= i < |cs| ensures cs[i].name != "" && !IsAttribute(cs[i].name) {
      assert NameValues(cs)[i] == kept[i];
      var j :| 0 <= j < |pairs| && pairs[j] == kept[i];
      LookupEntry(pairs, j);
    }
  }

  /** A name's value among the records is its last committed value, unless it is an attribute. */
  lemma ParsedLookup(cc: CharClasses, parseDate: DateParser, defaultDomain: string, str: string)
    requires ParseSetCookie(cc, parseDate, defaultDomain, str).Some?
    ensures var cs := ParseSetCookie(cc, parseDate, defaultDomain, str).value;
      forall k :: Lookup(NameValues(cs), k) == if IsAttribute(k) then None else LastValue(Committed(cc, str), k)
  {
    var cs := ParseSetCookie(cc, parseDate, defaultDomain, str).value;
    ParsedPairs(cc, parseDate, defaultDomain, str);
    forall k ensures Lookup(NameValues(cs), k) == if IsAttribute(k) then None else LastValue(Committed(cc, str), k) {
      NonAttributesLookup(FinalMap(cc, str), k);
      FinalMapLastWins(cc, str, k);
    }
  }

  /**
   * `k` spells the lower-case word `w` with any of its letters in upper case:
   * an independent statement of case-insensitive equality.
   */
  predicate SpellsIgnoringCase(k: string, w: string) {
    |k| == |w| && forall i :: 0 <= i < |k| ==> k[i] == w[i] || k[i] as int == w[i] as int - 32
  }

  predicate LowerLetters(w: string) {
    forall i :: 0 <= i < |w| ==> 'a' <= w[i] <= 'z'
  }

  /** Lower-casing a key gives a lower-case word exactly when the key spells it in any case. */
  lemma LowerMatches(k: string, w: string)
    requires LowerLetters(w)
    ensures Lower(k) == w <==> SpellsIgnoringCase(k, w)
  {
    var l := Lower(k);
    assert |l| == |k|;
    if l == w {
      forall i | 0 <= i < |k| ensures k[i] == w[i] || k[i] as int == w[i] as int - 32 {
        assert l[i] == if 'A' <= k[i] <= 'Z' then (k[i] as int + 32) as char else k[i];
      }
    }
    if SpellsIgnoringCase(k, w) {
      forall i | 0 <= i < |k| ensures l[i] == w[i] {
        assert l[i] == if 'A' <= k[i] <= 'Z' then (k[i] as int + 32) as char else k[i];
      }
    }
  }

  /**
   * The attribute keys are `expires`, `domain` and `path` with any letters in
   * upper case, and nothing else.
   */
  lemma AttributeIgnoresCase(k: string)
    ensures IsAttribute(k) <==>
      SpellsIgnoringCase(k, "expires") || SpellsIgnoringCase(k, "domain") || SpellsIgnoringCase(k, "path")
  {
    LowerMatches(k, "expires");
    LowerMatches(k, "domain");
    LowerMatches(k, "path");
  }

  /** Some keys the attribute loop treats as attributes, and some it does not. */
  lemma AttributeExamples()
    ensures IsAttribute("Expires") && IsAttribute("DOMAIN") && IsAttribute("pAtH")
    ensures !IsAttribute("paths") && !IsAttribute("") && !IsAttribute("expire")
  {
    AttributeIgnoresCase("Expires");
    AttributeIgnoresCase("DOMAIN");
    AttributeIgnoresCase("pAtH");
    AttributeIgnoresCase("paths");
    AttributeIgnoresCase("");
    AttributeIgnoresCase("expire");
    assert !SpellsIgnoringCase("expire", "domain") by {
      assert "expire"[0] == 'e' && "domain"[0] == 'd';
    }
  }

  /** The value of the last entry, in key order, whose key is `attr` in lower case. */
  function LastAttribute(pairs: seq<Entry>, attr: string): Option<string> {
    if pairs == [] then None
    else if Lower(pairs[|pairs| - 1].0) == attr then Some(pairs[|pairs| - 1].1)
    else LastAttribute(pairs[..|pairs| - 1], attr)
  }

  /**
   * The shared domain is that of the last `domain` key, any case, or "" when there
   * is none; an empty `domain` value stands for the default domain.
   */
  lemma {:induction false} ResolveDomain(pairs: seq<Entry>, defaultDomain: string, parseDate: DateParser)
    ensures Resolve(pairs, defaultDomain, parseDate).domain ==
      match LastAttribute(pairs, "domain")
      case None => ""
      case Some(v) => if v == "" then defaultDomain else v
  {
    if pairs != [] {
      ResolveDomain(pairs[..|pairs| - 1], defaultDomain, parseDate);
    }
  }

  /** The shared path is the value of the last `path` key, any case, or "" when there is none. */
  lemma {:induction false} ResolvePath(pairs: seq<Entry>, defaultDomain: string, parseDate: DateParser)
    ensures Resolve(pairs, defaultDomain, parseDate).path == LastAttribute(pairs, "path").GetOr("")
  {
    if pairs != [] {
      ResolvePath(pairs[..|pairs| - 1], defaultDomain, parseDate);
    }
  }

  /**
   * Without an `expires` key the records are session cookies; when the last
   * `expires` value is a date, the records expire at that time.
   */
  lemma {:induction false} ResolveExpires(pairs: seq<Entry>, defaultDomain: string, parseDate: DateParser)
    ensures LastAttribute(pairs, "expires").None? ==> Resolve(pairs, defaultDomain, parseDate).expires == Session
    ensures LastAttribute(pairs, "expires").Some? && parseDate(LastAttribute(pairs, "expires").value).Some? ==>
      Resolve(pairs, defaultDomain, parseDate).expires == At(parseDate(LastAttribute(pairs, "expires").value).value)
  {
    if pairs != [] {
      ResolveExpires(pairs[..|pairs| - 1], defaultDomain, parseDate);
    }
  }
}
