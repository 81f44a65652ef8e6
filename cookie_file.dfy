/**
 * The Netscape cookie-file text of include/avhttp/cookie.hpp: the per-record line
 * that `save_to_file` writes and the per-line parsing of `load_from_file`, as pure
 * string functions, with the file text around them.
 */
module CookieFile {
  import opened Wrappers
  import opened CookieRecord

  // ---------------------------------------------------------------------------
  // Numbers: `oss << t` and `atol`.

  predicate IsDigit(c: char) {
    '0' <= c <= '9'
  }

  function DigitChar(d: nat): (c: char)
    requires d < 10
    ensures IsDigit(c) && c as int - '0' as int == d
  {
    ('0' as int + d) as char
  }

  /** The decimal digits of `n`, most significant first, without leading zeros. */
  function Digits(n: nat): (r: string)
    ensures r != [] && forall i :: 0 <= i < |r| ==> IsDigit(r[i])
  {
    if n < 10 then [DigitChar(n)] else Digits(n / 10) + [DigitChar(n % 10)]
  }

  /** `oss << t` for a `time_t` in the classic locale. */
  function DecimalString(t: int): (r: string)
    ensures r != [] && '\t' !in r && '\n' !in r
  {
    if t < 0 then "-" + Digits(-t) else Digits(t)
  }

  /** The number a run of digits denotes. */
  function DigitsValue(s: string): nat
    requires forall i :: 0 <= i < |s| ==> IsDigit(s[i])
  {
    if s == [] then 0
    else
      assert IsDigit(s[|s| - 1]);
      DigitsValue(s[..|s| - 1]) * 10 + (s[|s| - 1] as int - '0' as int)
  }

  /** The longest prefix of `s` made of digits. */
  function DigitPrefix(s: string): (r: string)
    ensures |r| <= |s| && r == s[..|r|]
    ensures forall i :: 0 <= i < |r| ==> IsDigit(r[i])
    ensures |r| < |s| ==> !IsDigit(s[|r|])
  {
    if s == [] || !IsDigit(s[0]) then [] else [s[0]] + DigitPrefix(s[1..])
  }

  /** `isspace` in the classic locale. */
  predicate IsSpace(c: char) {
    c == ' ' || c == '\t' || c == '\n' || c == '\r' || c == 11 as char || c == 12 as char
  }

  function TrimLeft(s: string): string {
    if s != [] && IsSpace(s[0]) then TrimLeft(s[1..]) else s
  }

  function TrimRight(s: string): string {
    if s != [] && IsSpace(s[|s| - 1]) then TrimRight(s[..|s| - 1]) else s
  }

  /** `boost::trim`: white space removed from both ends. */
  function Trim(s: string): string {
    TrimLeft(TrimRight(s))
  }

  /**
   * `atol`: leading white space is skipped, then an optional sign and the digits
   * that follow are read; the rest is ignored. (Overflow is not modelled.)
   */
  function Atol(s: string): int {
    var t := TrimLeft(s);
    if t != [] && t[0] == '-' then -(DigitsValue(DigitPrefix(t[1..])) as int)
    else if t != [] && t[0] == '+' then DigitsValue(DigitPrefix(t[1..]))
    else DigitsValue(DigitPrefix(t))
  }

  // ---------------------------------------------------------------------------
  // Splitting: `boost::split(v, s, is_any_of(sep), token_compress_on)` and `getline`.

  /** The position of the first `sep` in `s`. */
  function FirstIndex(s: string, sep: char): (i: nat)
    requires sep in s
    ensures i < |s| && s[i] == sep && sep !in s[..i]
  {
    if s[0] == sep then 0 else 1 + FirstIndex(s[1..], sep)
  }

  function SkipTabs(s: string): (r: string)
    ensures |r| <= |s| && (s != [] && s[0] == '\t' ==> |r| < |s|)
  {
    if s != [] && s[0] == '\t' then SkipTabs(s[1..]) else s
  }

  /** `boost::split` on tabs with `token_compress_on`: a run of tabs separates two tokens. */
  function Tokens(s: string): seq<string>
    decreases |s|
  {
    if '\t' !in s then [s]
    else
      var i := FirstIndex(s, '\t');
      [s[..i]] + Tokens(SkipTabs(s[i..]))
  }

  /** The lines `getline` reads from a text: the pieces between newlines, the last one possibly empty. */
  function Lines(s: string): seq<string>
    decreases |s|
  {
    if '\n' !in s then [s]
    else
      var i := FirstIndex(s, '\n');
      [s[..i]] + Lines(s[i + 1..])
  }

  // ---------------------------------------------------------------------------
  // Saving.

  /** The comment header `save_to_file` writes into an empty file. */
  const Memo: string := MemoLine1 + "\n" + MemoLine2 + "\n" + MemoLine3 + "\n" + "\n"

  // Each header line is written as a few shorter literals: facts about one long
  // string literal (no newline in it, its first and last character) are costly
  // for the verifier, while the same facts about short pieces are cheap.
  const MemoLine1: string := "# Netscape " + "HTTP Cookie File"
  const MemoLine2: string := "# http://curl.haxx.se/" + "docs/http-cookies.html"
  const MemoLine3: string := "# This file was generated " + "by libcurl! " + "Edit at your own risk."

  /** The time written for a record: the expiry as seconds, or 0 when there is none. */
  function ExpiryTime(e: Expiry): int {
    match e
    case Session => 0
    case At(t) => t
  }

  /** The domain written for a record: its own, or `default_domain` when it has none. */
  function EffectiveDomain(c: Cookie, defaultDomain: string): string {
    if c.domain == "" then defaultDomain else c.domain
  }

  /** The seven fields of a record's line: domain, flag, path, secure, expiry, name, value. */
  function Fields(c: Cookie, defaultDomain: string): (r: seq<string>)
    ensures |r| == 7
  {
    [ EffectiveDomain(c, defaultDomain),
      if c.domain == "" then "FALSE" else "TRUE",
      c.path,
      if c.secure then "TRUE" else "FALSE",
      DecimalString(ExpiryTime(c.expires)),
      c.name,
      c.value ]
  }

  /** Each field followed by a tab, as the `f.write(...); f.write("\t", 1);` pairs produce. */
  function Terminated(fs: seq<string>): string {
    if fs == [] then "" else fs[0] + "\t" + Terminated(fs[1..])
  }

  /**
   * The text one record adds to the file as the code is written: the last write,
   * `f.write("\t\n", 1)`, writes one character, the tab, and no newline.
   */
  function FormatRecord(c: Cookie, defaultDomain: string): string {
    Terminated(Fields(c, defaultDomain))
  }

  /** Every record's text, one after the other. */
  function Records(cs: seq<Cookie>, defaultDomain: string): string {
    if cs == [] then "" else FormatRecord(cs[0], defaultDomain) + Records(cs[1..], defaultDomain)
  }

  /**
   * The file `save_to_file` writes as the code is written. Opening with
   * `std::ios::out` truncates the file, so it is always empty when its size is
   * checked and the header is always written.
   */
  function SaveText(cs: seq<Cookie>, defaultDomain: string): string {
    Memo + Records(cs, defaultDomain)
  }

  /** A record's line as evidently intended: `f.write("\t\n", 2)`, ending the line. */
  function FormatRecordLine(c: Cookie, defaultDomain: string): string {
    FormatRecord(c, defaultDomain) + "\n"
  }

  function RecordLines(cs: seq<Cookie>, defaultDomain: string): string {
    if cs == [] then "" else FormatRecordLine(cs[0], defaultDomain) + RecordLines(cs[1..], defaultDomain)
  }

  /** The file `save_to_file` writes with the newline the code evidently intends. */
  function SaveTextFixed(cs: seq<Cookie>, defaultDomain: string): string {
    Memo + RecordLines(cs, defaultDomain)
  }

  // ---------------------------------------------------------------------------
  // Loading.

  /** A line the loader skips: blank after trimming, or a comment. */
  predicate Skipped(line: string) {
    var t := Trim(line);
    t == [] || t[0] == '#'
  }

  /**
   * A line the loader can read without indexing past its fields: skipped, or with
   * at least seven tokens. (A shorter line is undefined behaviour in the source.)
   */
  predicate Loadable(line: string) {
    Skipped(line) || |Tokens(Trim(line))| >= 7
  }

  /**
   * The body of the `load_from_file` loop for one line: None when the line is
   * skipped, otherwise the record built from tokens 0, 2, 3, 4, 5 and 6.
   */
  function ParseLine(line: string): (r: Option<Cookie>)
    requires Loadable(line)
    ensures r.None? <==> Skipped(line)
    ensures r.Some? ==> !r.value.httpOnly && r.value.expires.At?
  {
    if Skipped(line) then None
    else
      var f := Tokens(Trim(line));
      Some(Cookie(f[5], f[6], f[0], f[2], At(Atol(f[4])), false, f[3] == "TRUE"))
  }

  /** The records one line contributes: none or one. */
  function LineRecords(line: string): seq<Cookie>
    requires Loadable(line)
  {
    match ParseLine(line)
    case Some(c) => [c]
    case None => []
  }

  predicate AllLoadable(lines: seq<string>) {
    forall i :: 0 <= i < |lines| ==> Loadable(lines[i])
  }

  /** The records read from a sequence of lines, in order. */
  function LoadLines(lines: seq<string>): seq<Cookie>
    requires AllLoadable(lines)
  {
    if lines == [] then [] else LineRecords(lines[0]) + LoadLines(lines[1..])
  }

  /** The records `load_from_file` appends for the given file text. */
  function LoadText(text: string): seq<Cookie>
    requires AllLoadable(Lines(text))
  {
    LoadLines(Lines(text))
  }
}

/** What the line codec promises, stated over the model above. */
module CookieFileProperties {
  import opened Wrappers
  import opened CookieRecord
  import opened CookieFile

  lemma {:induction false} DigitsValueOfDigits(n: nat)
    ensures DigitsValue(Digits(n)) == n
  {
    if n >= 10 {
      DigitsValueOfDigits(n / 10);
      var x := Digits(n / 10);
      assert (x + [DigitChar(n % 10)])[..|x|] == x;
    }
  }

  lemma {:induction false} DigitPrefixOfDigits(s: string)
    requires forall i :: 0 <= i < |s| ==> IsDigit(s[i])
    ensures DigitPrefix(s) == s
  {
  }

  lemma TrimLeftPlain(s: string)
    requires s != [] && !IsSpace(s[0])
    ensures TrimLeft(s) == s
  {
  }

  lemma AtolDigits(d: string)
    requires d != [] && forall i :: 0 <= i < |d| ==> IsDigit(d[i])
    ensures Atol(d) == DigitsValue(d)
    ensures Atol("-" + d) == -(DigitsValue(d) as int)
  {
    DigitPrefixOfDigits(d);
    assert IsDigit(d[0]);
    TrimLeftPlain(d);
    var s := "-" + d;
    assert s[1..] == d;
    TrimLeftPlain(s);
  }

  /** `atol` reads back the decimal text of every time. */
  lemma DecimalRoundTrip(t: int)
    ensures Atol(DecimalString(t)) == t
  {
    var n: nat := if t < 0 then -t else t;
    DigitsValueOfDigits(n);
    AtolDigits(Digits(n));
  }

  /** A field that survives the tab split: non-empty and free of tabs. */
  predicate PlainField(s: string) {
    s != [] && '\t' !in s
  }

  /** The fields with a tab between each two, not after the last. */
  function Joined(fs: seq<string>): string
    requires fs != []
  {
    if |fs| == 1 then fs[0] else fs[0] + "\t" + Joined(fs[1..])
  }

  lemma {:induction false} TerminatedIsJoined(fs: seq<string>)
    requires fs != []
    ensures Terminated(fs) == Joined(fs) + "\t"
  {
    if |fs| > 1 {
      TerminatedIsJoined(fs[1..]);
      assert Terminated(fs) == fs[0] + "\t" + (Joined(fs[1..]) + "\t");
    } else {
      assert Terminated(fs[1..]) == "";
    }
  }

  lemma {:induction false} TerminatedAppend(a: seq<string>, b: seq<string>)
    ensures Terminated(a + b) == Terminated(a) + Terminated(b)
  {
    if a != [] {
      assert (a + b)[1..] == a[1..] + b;
      TerminatedAppend(a[1..], b);
    } else {
      assert a + b == b;
    }
  }

  /** The joined text starts with the first field and ends with the last one; it has a newline only if a field has. */
  lemma {:induction false} JoinedEnds(fs: seq<string>)
    requires fs != [] && fs[0] != [] && fs[|fs| - 1] != []
    ensures Joined(fs) != [] && Joined(fs)[0] == fs[0][0]
    ensures Joined(fs)[|Joined(fs)| - 1] == fs[|fs| - 1][|fs[|fs| - 1]| - 1]
    ensures (forall i :: 0 <= i < |fs| ==> '\n' !in fs[i]) ==> '\n' !in Joined(fs)
  {
    if |fs| > 1 {
      var rest := fs[1..];
      assert rest[|rest| - 1] == fs[|fs| - 1];
      JoinedEndsTail(rest);
      if forall i :: 0 <= i < |fs| ==> '\n' !in fs[i] {
        JoinedNoNewline(rest);
      }
    }
  }

  lemma {:induction false} JoinedEndsTail(fs: seq<string>)
    requires fs != [] && fs[|fs| - 1] != []
    ensures Joined(fs) != [] && Joined(fs)[|Joined(fs)| - 1] == fs[|fs| - 1][|fs[|fs| - 1]| - 1]
  {
    if |fs| > 1 {
      assert fs[1..][|fs| - 2] == fs[|fs| - 1];
      JoinedEndsTail(fs[1..]);
    }
  }

  lemma {:induction false} JoinedNoNewline(fs: seq<string>)
    requires fs != [] && forall i :: 0 <= i < |fs| ==> '\n' !in fs[i]
    ensures '\n' !in Joined(fs)
  {
    if |fs| > 1 {
      assert forall i :: 0 <= i < |fs| - 1 ==> fs[1..][i] == fs[i + 1];
      JoinedNoNewline(fs[1..]);
    }
  }

  /** The first separator after a separator-free prefix is the one right after it. */
  lemma FirstIndexAfter(a: string, sep: char, rest: string)
    requires sep !in a
    ensures sep in a + [sep] + rest
    ensures FirstIndex(a + [sep] + rest, sep) == |a|
  {
    var s := a + [sep] + rest;
    assert s[|a|] == sep;
    assert forall j :: 0 <= j < |a| ==> s[j] == a[j];
  }

  /** Splitting at a single tab that follows a tab-free token. */
  lemma TokensCons(a: string, rest: string)
    requires '\t' !in a && rest != [] && rest[0] != '\t'
    ensures Tokens(a + "\t" + rest) == [a] + Tokens(rest)
  {
    var s := a + "\t" + rest;
    FirstIndexAfter(a, '\t', rest);
    TokensUnfold(s);
    Associative(a, "\t", rest);
    SplitAt(a, "\t" + rest);
    SkipOneTab(rest);
  }

  lemma SplitAt<T>(a: seq<T>, b: seq<T>)
    ensures (a + b)[..|a|] == a && (a + b)[|a|..] == b
  {
  }

  lemma TokensUnfold(s: string)
    requires '\t' in s
    ensures Tokens(s) == [s[..FirstIndex(s, '\t')]] + Tokens(SkipTabs(s[FirstIndex(s, '\t')..]))
  {
  }

  lemma SkipOneTab(rest: string)
    requires rest != [] && rest[0] != '\t'
    ensures SkipTabs("\t" + rest) == rest
  {
    assert ("\t" + rest)[1..] == rest;
  }

  /** Tab-free, non-empty fields joined by tabs split back into the same fields. */
  lemma {:induction false} TokensOfJoined(fs: seq<string>)
    requires fs != [] && forall i :: 0 <= i < |fs| ==> PlainField(fs[i])
    ensures Tokens(Joined(fs)) == fs
  {
    if |fs| > 1 {
      var rest := fs[1..];
      assert forall i :: 0 <= i < |rest| ==> rest[i] == fs[i + 1];
      TokensOfJoined(rest);
      JoinedEnds(rest);
      TokensCons(fs[0], Joined(rest));
    }
  }

  /** `getline` splits at a newline that follows a newline-free line. */
  lemma LinesCons(a: string, rest: string)
    requires '\n' !in a
    ensures Lines(a + "\n" + rest) == [a] + Lines(rest)
  {
    var s := a + "\n" + rest;
    FirstIndexAfter(a, '\n', rest);
    LinesUnfold(s);
    assert s[..|a|] == a;
    assert s[|a| + 1..] == rest;
  }

  lemma LinesUnfold(s: string)
    requires '\n' in s
    ensures Lines(s) == [s[..FirstIndex(s, '\n')]] + Lines(s[FirstIndex(s, '\n') + 1..])
  {
  }

  /** A line the loader skips because it is a comment with no white space at either end. */
  lemma CommentSkipped(s: string)
    requires s != [] && s[0] == '#' && !IsSpace(s[|s| - 1])
    ensures Skipped(s)
  {
    assert TrimRight(s) == s;
    TrimLeftPlain(s);
  }

  lemma MemoLine1Plain()
    ensures '\n' !in MemoLine1 && Skipped(MemoLine1)
  {
    var x, y := "# Netscape ", "HTTP Cookie File";
    assert '\n' !in x && '\n' !in y;
    assert x[0] == '#' && y[|y| - 1] == 'e';
    assert MemoLine1[0] == x[0] && MemoLine1[|MemoLine1| - 1] == y[|y| - 1];
    CommentSkipped(MemoLine1);
  }

  lemma MemoLine2Plain()
    ensures '\n' !in MemoLine2 && Skipped(MemoLine2)
  {
    var x, y := "# http://curl.haxx.se/", "docs/http-cookies.html";
    assert '\n' !in x && '\n' !in y;
    assert x[0] == '#' && y[|y| - 1] == 'l';
    assert MemoLine2[0] == x[0] && MemoLine2[|MemoLine2| - 1] == y[|y| - 1];
    CommentSkipped(MemoLine2);
  }

  lemma MemoLine3Plain()
    ensures '\n' !in MemoLine3 && Skipped(MemoLine3)
  {
    var x, y, z := "# This file was generated ", "by libcurl! ", "Edit at your own risk.";
    assert '\n' !in x && '\n' !in y && '\n' !in z;
    assert x[0] == '#' && z[|z| - 1] == '.';
    assert MemoLine3[0] == x[0] && MemoLine3[|MemoLine3| - 1] == z[|z| - 1];
    CommentSkipped(MemoLine3);
  }

  lemma MemoLinesPlain()
    ensures '\n' !in MemoLine1 && '\n' !in MemoLine2 && '\n' !in MemoLine3
    ensures Skipped(MemoLine1) && Skipped(MemoLine2) && Skipped(MemoLine3) && Skipped("")
  {
    MemoLine1Plain();
    MemoLine2Plain();
    MemoLine3Plain();
  }

  lemma Associative(x: string, y: string, z: string)
    ensures x + y + z == x + (y + z)
  {
  }

  /** Two newline-free lines, each ended by a newline. */
  lemma TwoLines(l1: string, l2: string, rest: string)
    requires '\n' !in l1 && '\n' !in l2
    ensures Lines(l1 + "\n" + l2 + "\n" + rest) == [l1, l2] + Lines(rest)
  {
    var t := l2 + "\n" + rest;
    assert l1 + "\n" + l2 + "\n" + rest == l1 + "\n" + t by {
      Associative(l1 + "\n" + l2, "\n", rest);
      Associative(l1 + "\n", l2, "\n" + rest);
    }
    LinesCons(l2, rest);
    LinesCons(l1, t);
  }

  /** Three newline-free lines and a blank one, each ended by a newline. */
  lemma FourLines(l1: string, l2: string, l3: string, rest: string)
    requires '\n' !in l1 && '\n' !in l2 && '\n' !in l3
    ensures Lines(l1 + "\n" + l2 + "\n" + l3 + "\n" + "\n" + rest) == [l1, l2, l3, ""] + Lines(rest)
  {
    var p := l1 + "\n" + l2 + "\n";
    var t := l3 + "\n" + "\n" + rest;
    RegroupTail(p, l3, "\n", "\n", rest);
    assert l3 + "\n" + "" + "\n" + rest == t;
    TwoLines(l3, "", rest);
    TwoLines(l1, l2, t);
    Chain(Lines(p + t), [l1, l2], Lines(t), [l3, ""], Lines(rest));
    assert [l1, l2] + [l3, ""] == [l1, l2, l3, ""];
  }

  lemma Chain<T>(x: seq<T>, a: seq<T>, y: seq<T>, b: seq<T>, z: seq<T>)
    requires x == a + y && y == b + z
    ensures x == (a + b) + z
  {
  }

  lemma RegroupTail(p: string, a: string, b: string, c: string, d: string)
    ensures p + a + b + c + d == p + (a + b + c + d)
  {
  }

  /** The header reads back as three comment lines and a blank line, all of which the loader skips. */
  lemma MemoLines(rest: string)
    ensures Lines(Memo + rest) == MemoText() + Lines(rest)
    ensures AllLoadable(MemoText())
    ensures LoadLines(MemoText()) == []
  {
    MemoLinesPlain();
    FourLines(MemoLine1, MemoLine2, MemoLine3, rest);
    FourSkipped(MemoLine1, MemoLine2, MemoLine3, "");
  }

  lemma FourSkipped(a: string, b: string, c: string, d: string)
    requires Skipped(a) && Skipped(b) && Skipped(c) && Skipped(d)
    ensures AllLoadable([a, b, c, d]) && LoadLines([a, b, c, d]) == []
  {
    var ls := [a, b, c, d];
    assert forall i :: 0 <= i < |ls| ==> Skipped(ls[i]);
    SkippedLoadNothing(ls);
  }

  /** Lines that are all skipped are loadable and yield no record. */
  lemma {:induction false} SkippedLoadNothing(ls: seq<string>)
    requires forall i :: 0 <= i < |ls| ==> Skipped(ls[i])
    ensures AllLoadable(ls) && LoadLines(ls) == []
  {
    if ls != [] {
      assert forall i :: 0 <= i < |ls[1..]| ==> Skipped(ls[1..][i]) by {
        forall i | 0 <= i < |ls[1..]| ensures Skipped(ls[1..][i]) {
          assert ls[1..][i] == ls[i + 1];
        }
      }
      SkippedLoadNothing(ls[1..]);
    }
  }

  /** The lines of the header. */
  function MemoText(): seq<string> {
    [MemoLine1, MemoLine2, MemoLine3, ""]
  }

  lemma AllLoadableAppend(a: seq<string>, b: seq<string>)
    requires AllLoadable(a) && AllLoadable(b)
    ensures AllLoadable(a + b)
  {
    forall i | 0 <= i < |a + b|
      ensures Loadable((a + b)[i])
    {
      if i < |a| {
        assert (a + b)[i] == a[i];
      } else {
        assert (a + b)[i] == b[i - |a|];
      }
    }
  }

  lemma AllLoadableTail(a: seq<string>)
    requires a != [] && AllLoadable(a)
    ensures Loadable(a[0]) && AllLoadable(a[1..])
  {
    forall i | 0 <= i < |a| - 1
      ensures Loadable(a[1..][i])
    {
      assert a[1..][i] == a[i + 1];
    }
  }

  lemma {:induction false} LoadLinesAppend(a: seq<string>, b: seq<string>)
    requires AllLoadable(a) && AllLoadable(b)
    ensures AllLoadable(a + b)
    ensures LoadLines(a + b) == LoadLines(a) + LoadLines(b)
  {
    AllLoadableAppend(a, b);
    if a == [] {
      assert a + b == b;
    } else {
      AllLoadableTail(a);
      var t := a[1..];
      assert (a + b)[1..] == t + b;
      assert (a + b)[0] == a[0];
      LoadLinesAppend(t, b);
      calc {
        LoadLines(a + b);
        LineRecords(a[0]) + LoadLines(t + b);
        LineRecords(a[0]) + (LoadLines(t) + LoadLines(b));
        (LineRecords(a[0]) + LoadLines(t)) + LoadLines(b);
      }
    }
  }

  lemma AllLoadablePrefix(lines: seq<string>, n: nat)
    requires n <= |lines| && AllLoadable(lines)
    ensures AllLoadable(lines[..n])
  {
    forall j | 0 <= j < n
      ensures Loadable(lines[..n][j])
    {
      assert lines[..n][j] == lines[j];
    }
  }

  lemma LoadOneLine(x: string)
    requires Loadable(x)
    ensures AllLoadable([x]) && LoadLines([x]) == LineRecords(x)
  {
    assert AllLoadable([x]) by {
      forall j | 0 <= j < 1 ensures Loadable([x][j]) {
        assert [x][j] == x;
      }
    }
    assert [x][1..] == [];
  }

  /** Reading one more line adds that line's records. */
  lemma LoadLinesSnoc(lines: seq<string>, i: nat)
    requires i < |lines| && AllLoadable(lines)
    ensures AllLoadable(lines[..i]) && AllLoadable(lines[..i + 1])
    ensures LoadLines(lines[..i + 1]) == LoadLines(lines[..i]) + LineRecords(lines[i])
  {
    AllLoadablePrefix(lines, i);
    AllLoadablePrefix(lines, i + 1);
    var x := lines[i];
    LoadOneLine(x);
    var a := lines[..i];
    LoadLinesAppend(a, [x]);
    assert lines[..i + 1] == a + [x];
  }

  /**
   * A record whose line reads back: its written domain, path, name and value are
   * non-empty and have no tab or newline; the domain does not start with white
   * space or `#` and the value does not end with white space, so trimming and the
   * comment test leave the line alone.
   */
  predicate Saveable(c: Cookie, defaultDomain: string) {
    var d := EffectiveDomain(c, defaultDomain);
    && PlainField(d) && PlainField(c.path) && PlainField(c.name) && PlainField(c.value)
    && '\n' !in d && '\n' !in c.path && '\n' !in c.name && '\n' !in c.value
    && !IsSpace(d[0]) && d[0] != '#' && !IsSpace(c.value[|c.value| - 1])
  }

  /** The record the loader builds from a saved record: no http-only flag, and an absent expiry becomes time 0. */
  function Reloaded(c: Cookie, defaultDomain: string): Cookie {
    Cookie(c.name, c.value, EffectiveDomain(c, defaultDomain), c.path, At(ExpiryTime(c.expires)), false, c.secure)
  }

  function ReloadedAll(cs: seq<Cookie>, defaultDomain: string): (r: seq<Cookie>)
    ensures |r| == |cs| && forall i :: 0 <= i < |cs| ==> r[i] == Reloaded(cs[i], defaultDomain)
  {
    if cs == [] then [] else [Reloaded(cs[0], defaultDomain)] + ReloadedAll(cs[1..], defaultDomain)
  }

  lemma FieldsPlain(c: Cookie, defaultDomain: string)
    requires Saveable(c, defaultDomain)
    ensures var fs := Fields(c, defaultDomain);
      && (forall i :: 0 <= i < 7 ==> PlainField(fs[i]) && '\n' !in fs[i])
      && fs[0][0] == EffectiveDomain(c, defaultDomain)[0]
      && fs[6][|fs[6]| - 1] == c.value[|c.value| - 1]
  {
  }

  /** The tokens of a saved line, once the loader has trimmed it, are its fields. */
  lemma TrimmedTokens(fs: seq<string>)
    requires fs != [] && forall i :: 0 <= i < |fs| ==> PlainField(fs[i]) && '\n' !in fs[i]
    requires fs[0] != [] && fs[|fs| - 1] != []
    requires !IsSpace(fs[0][0]) && fs[0][0] != '#' && !IsSpace(fs[|fs| - 1][|fs[|fs| - 1]| - 1])
    ensures Trim(Terminated(fs)) == Joined(fs)
    ensures Tokens(Trim(Terminated(fs))) == fs
    ensures '\n' !in Terminated(fs)
    ensures !Skipped(Terminated(fs))
  {
    TerminatedIsJoined(fs);
    var j := Joined(fs);
    JoinedEnds(fs);
    assert TrimRight(j + "\t") == j by {
      assert (j + "\t")[..|j|] == j;
    }
    TokensOfJoined(fs);
    assert Terminated(fs) == j + "\t";
  }

  /**
   * Round trip of one line: the domain written (the record's, or the default),
   * the path, the secure flag, the time and the name and value come back; the
   * secure column reads true exactly when it is "TRUE".
   */
  lemma FormatThenParse(c: Cookie, defaultDomain: string)
    requires Saveable(c, defaultDomain)
    ensures Loadable(FormatRecord(c, defaultDomain))
    ensures ParseLine(FormatRecord(c, defaultDomain)) == Some(Reloaded(c, defaultDomain))
  {
    var fs := Fields(c, defaultDomain);
    FieldsPlain(c, defaultDomain);
    TrimmedTokens(fs);
    DecimalRoundTrip(ExpiryTime(c.expires));
  }

  /** Two records written without a newline between them form one line of fourteen fields. */
  lemma TwoRecordsOneLine(c1: Cookie, c2: Cookie, defaultDomain: string)
    requires Saveable(c1, defaultDomain) && Saveable(c2, defaultDomain)
    ensures var fs := Fields(c1, defaultDomain) + Fields(c2, defaultDomain);
      && Records([c1, c2], defaultDomain) == Terminated(fs)
      && Trim(Terminated(fs)) == Joined(fs)
      && Tokens(Trim(Terminated(fs))) == fs
      && '\n' !in Terminated(fs)
      && !Skipped(Terminated(fs))
  {
    var fs1, fs2 := Fields(c1, defaultDomain), Fields(c2, defaultDomain);
    FieldsPlain(c1, defaultDomain);
    FieldsPlain(c2, defaultDomain);
    var fs := fs1 + fs2;
    PlainAppend(fs1, fs2);
    TerminatedAppend(fs1, fs2);
    assert Records([c1, c2], defaultDomain) == Terminated(fs) by {
      assert [c1, c2][1..] == [c2];
      assert Records([c2], defaultDomain) == FormatRecord(c2, defaultDomain) + Records([], defaultDomain);
    }
    TrimmedTokens(fs);
  }

  lemma PlainAppend(fs1: seq<string>, fs2: seq<string>)
    requires fs1 != [] && fs2 != []
    requires forall i :: 0 <= i < |fs1| ==> PlainField(fs1[i]) && '\n' !in fs1[i]
    requires forall i :: 0 <= i < |fs2| ==> PlainField(fs2[i]) && '\n' !in fs2[i]
    ensures var fs := fs1 + fs2;
      && (forall i :: 0 <= i < |fs| ==> PlainField(fs[i]) && '\n' !in fs[i])
      && fs[0] == fs1[0] && fs[|fs| - 1] == fs2[|fs2| - 1]
  {
    var fs := fs1 + fs2;
    forall i | 0 <= i < |fs| ensures PlainField(fs[i]) && '\n' !in fs[i] {
      if i >= |fs1| {
        assert fs[i] == fs2[i - |fs1|];
      }
    }
  }

  /** A line whose tokens start with a record's seven fields reads back as that record. */
  lemma ParseFieldsLine(x: string, fs: seq<string>, c: Cookie, defaultDomain: string)
    requires |fs| >= 7 && fs[..7] == Fields(c, defaultDomain)
    requires Tokens(Trim(x)) == fs && !Skipped(x)
    ensures Loadable(x) && ParseLine(x) == Some(Reloaded(c, defaultDomain))
  {
    assert forall i :: 0 <= i < 7 ==> fs[i] == Fields(c, defaultDomain)[i];
    DecimalRoundTrip(ExpiryTime(c.expires));
  }

  lemma OneLineLoads(x: string, c: Cookie)
    requires '\n' !in x && Loadable(x) && ParseLine(x) == Some(c)
    ensures Lines(x) == [x] && AllLoadable([x]) && LoadLines([x]) == [c]
  {
    assert [x][1..] == [];
  }

  /**
   * As written, `save_to_file` puts no newline between records, so two saved
   * records come back as a single line and only the first of them is loaded.
   */
  lemma SaveTextLosesSecondRecord(c1: Cookie, c2: Cookie, defaultDomain: string)
    requires Saveable(c1, defaultDomain) && Saveable(c2, defaultDomain)
    ensures AllLoadable(Lines(SaveText([c1, c2], defaultDomain)))
    ensures LoadText(SaveText([c1, c2], defaultDomain)) == [Reloaded(c1, defaultDomain)]
  {
    var fs := Fields(c1, defaultDomain) + Fields(c2, defaultDomain);
    TwoRecordsOneLine(c1, c2, defaultDomain);
    var x := Terminated(fs);
    assert fs[..7] == Fields(c1, defaultDomain);
    ParseFieldsLine(x, fs, c1, defaultDomain);
    OneLineLoads(x, Reloaded(c1, defaultDomain));
    MemoLines(x);
    LoadLinesAppend(MemoText(), [x]);
  }

  lemma {:induction false} LoadRecordLines(cs: seq<Cookie>, defaultDomain: string)
    requires forall i :: 0 <= i < |cs| ==> Saveable(cs[i], defaultDomain)
    ensures AllLoadable(Lines(RecordLines(cs, defaultDomain)))
    ensures LoadLines(Lines(RecordLines(cs, defaultDomain))) == ReloadedAll(cs, defaultDomain)
  {
    if cs == [] {
      assert Lines("") == [""];
      assert Skipped("");
    } else {
      var c := cs[0];
      var rest := RecordLines(cs[1..], defaultDomain);
      LoadRecordLines(cs[1..], defaultDomain);
      FieldsPlain(c, defaultDomain);
      TrimmedTokens(Fields(c, defaultDomain));
      FormatThenParse(c, defaultDomain);
      assert RecordLines(cs, defaultDomain) == FormatRecord(c, defaultDomain) + "\n" + rest;
      LoadConsLine(FormatRecord(c, defaultDomain), rest, Reloaded(c, defaultDomain));
    }
  }

  /** A newline-free line that reads as `c`, followed by more text, loads as `c` then that text. */
  lemma LoadConsLine(x: string, rest: string, c: Cookie)
    requires '\n' !in x && Loadable(x) && ParseLine(x) == Some(c)
    requires AllLoadable(Lines(rest))
    ensures AllLoadable(Lines(x + "\n" + rest))
    ensures LoadLines(Lines(x + "\n" + rest)) == [c] + LoadLines(Lines(rest))
  {
    LinesCons(x, rest);
    var ls, tail := Lines(x + "\n" + rest), Lines(rest);
    assert ls[0] == x && ls[1..] == tail;
    forall i | 0 <= i < |ls| ensures Loadable(ls[i]) {
      if i > 0 {
        assert ls[i] == tail[i - 1];
      }
    }
  }

  /** With the newline written, saving any list of saveable records and loading the file gives each of them back, in order. */
  lemma SaveThenLoadFixed(cs: seq<Cookie>, defaultDomain: string)
    requires forall i :: 0 <= i < |cs| ==> Saveable(cs[i], defaultDomain)
    ensures AllLoadable(Lines(SaveTextFixed(cs, defaultDomain)))
    ensures LoadText(SaveTextFixed(cs, defaultDomain)) == ReloadedAll(cs, defaultDomain)
  {
    var body := RecordLines(cs, defaultDomain);
    MemoLines(body);
    LoadRecordLines(cs, defaultDomain);
    LoadLinesAppend(MemoText(), Lines(body));
  }
}
