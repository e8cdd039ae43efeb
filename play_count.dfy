/**
 * The play-count parser that buildit applies to every scraped count text:
 *
 *     int(re.search(r'[0-9].*', s).group(0).replace(',', ''))
 *
 * The regular expression matches from the first ASCII digit up to (not
 * including) the next newline, since `.` does not match a newline.  The
 * commas are then deleted and Python's int() converts the rest.
 */
module PlayCount {
  import opened Wrappers

  /** Why a count text yields no integer. */
  datatype ParseError =
    | NoDigit       // re.search returns None, and .group(0) on None raises
    | NotAnInteger  // int() raises ValueError on the kept text

  /** The character class [0-9]. */
  predicate IsDigit(c: char) {
    '0' <= c <= '9'
  }

  /** The ASCII whitespace that int() strips: tab, line feed, VT, FF, CR and space. */
  predicate IsAsciiSpace(c: char) {
    '\t' <= c <= '\r' || c == ' '
  }

  /**
   * The non-ASCII characters for which str.isspace() holds.  int() maps
   * each of them to a space before it strips, so they count as whitespace;
   * ASCII characters are kept as they are, so U+001C..U+001F do not.
   */
  predicate IsWideSpace(c: char) {
    || c == '\U{85}' || c == '\U{A0}' || c == '\U{1680}'
    || '\U{2000}' <= c <= '\U{200A}'
    || c == '\U{2028}' || c == '\U{2029}' || c == '\U{202F}' || c == '\U{205F}'
    || c == '\U{3000}'
  }

  /** The whitespace int() skips around the digits. */
  predicate IsIntSpace(c: char) {
    IsAsciiSpace(c) || IsWideSpace(c)
  }

  // ---------------------------------------------------------------------
  // re.search(r'[0-9].*', s).group(0)
  // ---------------------------------------------------------------------

  /** Where the leftmost match of [0-9].* starts: the first ASCII digit. */
  function FirstDigit(s: string): (r: Option<nat>)
    ensures r.None? <==> forall i :: 0 <= i < |s| ==> !IsDigit(s[i])
    ensures r.Some? ==> r.value < |s| && IsDigit(s[r.value])
    ensures r.Some? ==> forall i :: 0 <= i < r.value ==> !IsDigit(s[i])
  {
    if s == [] then None
    else if IsDigit(s[0]) then Some(0)
    else match FirstDigit(s[1..])
      case None => None
      case Some(k) => Some(k + 1)
  }

  /** Where the greedy .* starting at k stops: the next newline, or the end. */
  function LineEnd(s: string, k: nat): (e: nat)
    requires k <= |s|
    ensures k <= e <= |s|
    ensures forall i :: k <= i < e ==> s[i] != '\n'
    ensures e == |s| || s[e] == '\n'
    decreases |s| - k
  {
    if k == |s| || s[k] == '\n' then k else LineEnd(s, k + 1)
  }

  /**
   * The text of the match, or None when re.search finds nothing; the match
   * starts with a digit.  MatchedLine states where it ends.
   */
  function MatchedText(s: string): (r: Option<string>)
    ensures r.None? <==> forall i :: 0 <= i < |s| ==> !IsDigit(s[i])
    ensures r.Some? ==> |r.value| > 0 && IsDigit(r.value[0])
  {
    match FirstDigit(s)
    case None => None
    case Some(k) => Some(s[k..LineEnd(s, k)])
  }

  // ---------------------------------------------------------------------
  // .replace(',', '')
  // ---------------------------------------------------------------------

  function DropCommas(t: string): (r: string)
    ensures forall i :: 0 <= i < |r| ==> r[i] != ','
    ensures |t| > 0 && t[0] != ',' ==> |r| > 0 && r[0] == t[0]
  {
    if t == [] then []
    else (if t[0] == ',' then [] else [t[0]]) + DropCommas(t[1..])
  }

  // ---------------------------------------------------------------------
  // int(t) for a str t and base 10
  // ---------------------------------------------------------------------

  function TrimStart(t: string): (r: string)
    ensures |r| <= |t| && r == t[|t| - |r|..]
    ensures forall i :: 0 <= i < |t| - |r| ==> IsIntSpace(t[i])
    ensures |r| > 0 ==> !IsIntSpace(r[0])
  {
    if t != [] && IsIntSpace(t[0]) then TrimStart(t[1..]) else t
  }

  function TrimEnd(t: string): (r: string)
    ensures |r| <= |t| && r == t[..|r|]
    ensures forall i :: |r| <= i < |t| ==> IsIntSpace(t[i])
    ensures |r| > 0 ==> !IsIntSpace(r[|r| - 1])
  {
    if t != [] && IsIntSpace(t[|t| - 1]) then TrimEnd(t[..|t| - 1]) else t
  }

  /**
   * The text int() reads once the surrounding whitespace is skipped: it
   * neither starts nor ends with whitespace.
   */
  function Strip(t: string): (r: string)
    ensures |r| <= |t|
    ensures |r| > 0 ==> !IsIntSpace(r[0]) && !IsIntSpace(r[|r| - 1])
    ensures |t| > 0 && IsDigit(t[0]) ==> |r| > 0 && r[0] == t[0]
  {
    var s := TrimStart(t);
    assert s == t[|t| - |s|..];
    TrimEnd(s)
  }

  /** Decimal digits, with single underscores allowed between two digits. */
  predicate IsUnderscoredDigits(u: string)
    ensures IsUnderscoredDigits(u) ==> |u| > 0 && IsDigit(u[0]) && IsDigit(u[|u| - 1])
  {
    && |u| > 0
    && IsDigit(u[0])
    && (|u| == 1 || if u[1] == '_' then IsUnderscoredDigits(u[2..]) else IsUnderscoredDigits(u[1..]))
  }

  function DigitOf(c: char): nat
    requires IsDigit(c)
  {
    c as int - '0' as int
  }

  /** The value of a run of digits, read left to right; any other character is skipped. */
  function DigitsValue(u: string): nat {
    if u == [] then 0
    else if IsDigit(u[|u| - 1]) then DigitsValue(u[..|u| - 1]) * 10 + DigitOf(u[|u| - 1])
    else DigitsValue(u[..|u| - 1])
  }

  /** Python's int(t): whitespace, then an optional sign, then digits, then whitespace. */
  function PyInt(t: string): (r: Result<int, ParseError>)
    ensures r.Failure? ==> r.error == NotAnInteger
    ensures |t| > 0 && IsDigit(t[0]) && r.Success? ==> r.value >= 0
  {
    var u := Strip(t);
    if |u| > 0 && (u[0] == '+' || u[0] == '-') then
      if IsUnderscoredDigits(u[1..]) then
        var n: int := DigitsValue(u[1..]);
        Success(if u[0] == '-' then -n else n)
      else
        Failure(NotAnInteger)
    else if IsUnderscoredDigits(u) then
      Success(DigitsValue(u))
    else
      Failure(NotAnInteger)
  }

  // ---------------------------------------------------------------------
  // The whole expression
  // ---------------------------------------------------------------------

  /**
   * int(re.search(r'[0-9].*', s).group(0).replace(',', '')): fails with
   * NoDigit exactly when s holds no ASCII digit, and never yields a
   * negative number, because the kept text starts with a digit and so
   * cannot start with a sign.
   */
  function ParseCount(s: string): (r: Result<int, ParseError>)
    ensures r == Failure(NoDigit) <==> forall i :: 0 <= i < |s| ==> !IsDigit(s[i])
    ensures r.Success? ==> r.value >= 0
  {
    match MatchedText(s)
    case None => Failure(NoDigit)
    case Some(m) => PyInt(DropCommas(m))
  }

  // ---------------------------------------------------------------------
  // Reference rendering of a play count, as the listing page shows it
  // ---------------------------------------------------------------------

  function DigitChar(d: nat): (c: char)
    requires d < 10
    ensures IsDigit(c) && DigitOf(c) == d
  {
    ('0' as int + d) as char
  }

  /** The decimal digits of n, without leading zeros. */
  function Decimal(n: nat): (r: string)
    ensures |r| > 0 && forall i :: 0 <= i < |r| ==> IsDigit(r[i])
  {
    if n < 10 then [DigitChar(n)] else Decimal(n / 10) + [DigitChar(n % 10)]
  }

  /** Three digits, left-padded with zeros. */
  function Pad3(m: nat): (r: string)
    requires m < 1000
    ensures |r| == 3 && forall i :: 0 <= i < 3 ==> IsDigit(r[i])
  {
    [DigitChar(m / 100), DigitChar(m / 10 % 10), DigitChar(m % 10)]
  }

  /** n in decimal with a comma between groups of three digits: 12345678 is "12,345,678". */
  function Grouped(n: nat): (r: string)
    ensures |r| > 0 && IsDigit(r[0])
    ensures forall i :: 0 <= i < |r| ==> IsDigit(r[i]) || r[i] == ','
  {
    if n < 1000 then Decimal(n) else Grouped(n / 1000) + "," + Pad3(n % 1000)
  }

  // ---------------------------------------------------------------------
  // Properties of ParseCount
  // ---------------------------------------------------------------------

  /**
   * The match is the stretch of s from its first digit up to the next
   * newline or the end, and it holds no newline.
   */
  lemma MatchedLine(s: string)
    requires MatchedText(s).Some?
    ensures var m, k := MatchedText(s).value, FirstDigit(s).value;
      && '\n' !in m
      && k + |m| <= |s| && m == s[k..k + |m|]
      && (k + |m| == |s| || s[k + |m|] == '\n')
  {
  }

  /** The count is int() of the matched text with its commas removed. */
  lemma CountOfMatch(s: string, m: string)
    requires MatchedText(s) == Some(m)
    ensures ParseCount(s) == PyInt(DropCommas(m))
  {
  }

  lemma SameMatchSameCount(a: string, b: string)
    requires MatchedText(a) == MatchedText(b)
    ensures ParseCount(a) == ParseCount(b)
  {
  }

  /** Text before the first digit plays no part in the result. */
  lemma SkipsDigitFreePrefix(p: string, s: string)
    requires forall i :: 0 <= i < |p| ==> !IsDigit(p[i])
    ensures ParseCount(p + s) == ParseCount(s)
  {
    MatchSkipsDigitFreePrefix(p, s);
    SameMatchSameCount(p + s, s);
  }

  lemma MatchSkipsDigitFreePrefix(p: string, s: string)
    requires forall i :: 0 <= i < |p| ==> !IsDigit(p[i])
    ensures MatchedText(p + s) == MatchedText(s)
  {
    var ps := p + s;
    match FirstDigit(s)
    case None =>
      assert forall i :: 0 <= i < |ps| ==> !IsDigit(ps[i]) by {
        forall i | 0 <= i < |ps| ensures !IsDigit(ps[i]) {
          if i >= |p| { assert ps[i] == s[i - |p|]; }
        }
      }
    case Some(k) =>
      assert IsDigit(ps[|p| + k]);
      var j := FirstDigit(ps).value;
      assert j == |p| + k;
      LineEndShift(p, s, k);
      assert ps[j..LineEnd(ps, j)] == s[k..LineEnd(s, k)];
  }

  lemma LineEndShift(p: string, s: string, k: nat)
    requires k <= |s|
    ensures LineEnd(p + s, |p| + k) == |p| + LineEnd(s, k)
    decreases |s| - k
  {
    if k < |s| && s[k] != '\n' {
      assert (p + s)[|p| + k] == s[k];
      LineEndShift(p, s, k + 1);
    }
  }

  /** Only the line holding the first digit is read: what follows its newline is ignored. */
  lemma StopsAtNewline(a: string, b: string)
    requires exists i :: 0 <= i < |a| && IsDigit(a[i])
    ensures ParseCount(a + "\n" + b) == ParseCount(a)
  {
    MatchStopsAtNewline(a, b);
    SameMatchSameCount(a + "\n" + b, a);
  }

  lemma MatchStopsAtNewline(a: string, b: string)
    requires exists i :: 0 <= i < |a| && IsDigit(a[i])
    ensures MatchedText(a + "\n" + b) == MatchedText(a)
  {
    var s := a + "\n" + b;
    var k := FirstDigit(a).value;
    assert IsDigit(s[k]);
    assert FirstDigit(s) == Some(k);
    assert s == a + ("\n" + b);
    LineEndPrefix(a, "\n" + b, k);
  }

  lemma LineEndPrefix(a: string, t: string, k: nat)
    requires k <= |a| && t != [] && t[0] == '\n'
    ensures LineEnd(a + t, k) == LineEnd(a, k)
    ensures (a + t)[k..LineEnd(a + t, k)] == a[k..LineEnd(a, k)]
    decreases |a| - k
  {
    if k < |a| && a[k] != '\n' {
      LineEndPrefix(a, t, k + 1);
    }
  }

  lemma DropCommasAppend(a: string, b: string)
    ensures DropCommas(a + b) == DropCommas(a) + DropCommas(b)
    decreases |a|
  {
    if a == [] {
      assert a + b == b;
    } else {
      var head := if a[0] == ',' then [] else [a[0]];
      assert (a + b)[0] == a[0];
      assert (a + b)[1..] == a[1..] + b;
      DropCommasAppend(a[1..], b);
      calc {
        DropCommas(a + b);
        head + DropCommas(a[1..] + b);
        head + (DropCommas(a[1..]) + DropCommas(b));
        (head + DropCommas(a[1..])) + DropCommas(b);
        DropCommas(a) + DropCommas(b);
      }
    }
  }

  lemma DropCommasDigits(g: string)
    requires forall i :: 0 <= i < |g| ==> IsDigit(g[i]) || g[i] == ','
    ensures forall i :: 0 <= i < |DropCommas(g)| ==> IsDigit(DropCommas(g)[i])
    decreases |g|
  {
    if g != [] {
      DropCommasDigits(g[1..]);
    }
  }

  lemma DigitsAreUnderscored(d: string)
    requires |d| > 0 && forall i :: 0 <= i < |d| ==> IsDigit(d[i])
    ensures IsUnderscoredDigits(d)
    decreases |d|
  {
    if |d| > 1 {
      DigitsAreUnderscored(d[1..]);
    }
  }

  lemma DropCommasNoComma(w: string)
    requires forall i :: 0 <= i < |w| ==> w[i] != ','
    ensures DropCommas(w) == w
    decreases |w|
  {
    if w != [] {
      DropCommasNoComma(w[1..]);
    }
  }

  lemma TrimEndSpaces(d: string, w: string)
    requires |d| > 0 && !IsIntSpace(d[|d| - 1])
    requires forall i :: 0 <= i < |w| ==> IsIntSpace(w[i])
    ensures TrimEnd(d + w) == d
    decreases |w|
  {
    if w == [] {
      assert d + w == d;
    } else {
      var w' := w[..|w| - 1];
      assert (d + w)[..|d + w| - 1] == d + w';
      TrimEndSpaces(d, w');
    }
  }

  /**
   * A comma-delimited digit run, followed by blanks and then the end of the
   * text or a newline, reads as the number its digits spell.
   */
  lemma CommaDigitsValue(g: string, w: string, rest: string)
    requires |g| > 0 && IsDigit(g[0])
    requires forall i :: 0 <= i < |g| ==> IsDigit(g[i]) || g[i] == ','
    requires forall i :: 0 <= i < |w| ==> IsIntSpace(w[i]) && w[i] != '\n'
    requires rest == [] || rest[0] == '\n'
    ensures ParseCount(g + w + rest) == Success(DigitsValue(DropCommas(g)))
  {
    WholeLineMatched(g, w, rest);
    CommaDigitsThenBlanks(g, w);
    CountOfMatch(g + w + rest, g + w);
  }

  lemma CommaDigitsThenBlanks(g: string, w: string)
    requires |g| > 0 && IsDigit(g[0])
    requires forall i :: 0 <= i < |g| ==> IsDigit(g[i]) || g[i] == ','
    requires forall i :: 0 <= i < |w| ==> IsIntSpace(w[i]) && w[i] != '\n'
    ensures PyInt(DropCommas(g + w)) == Success(DigitsValue(DropCommas(g)))
  {
    DropCommasAppend(g, w);
    DropCommasNoComma(w);
    DropCommasDigits(g);
    DigitsThenBlanks(DropCommas(g), w);
  }

  /** The match spans the digits and the blanks, up to the newline. */
  lemma WholeLineMatched(g: string, w: string, rest: string)
    requires |g| > 0 && IsDigit(g[0])
    requires forall i :: 0 <= i < |g| ==> IsDigit(g[i]) || g[i] == ','
    requires forall i :: 0 <= i < |w| ==> IsIntSpace(w[i]) && w[i] != '\n'
    requires rest == [] || rest[0] == '\n'
    ensures MatchedText(g + w + rest) == Some(g + w)
  {
    var line := g + w;
    assert FirstDigit(line) == Some(0);
    assert LineEnd(line, 0) == |line|;
    assert line[0..|line|] == line;
    if rest == [] {
      assert g + w + rest == line;
    } else {
      assert g + w + rest == line + "\n" + rest[1..];
      MatchStopsAtNewline(line, rest[1..]);
    }
  }

  /** int() of digits followed by blanks is the value of the digits. */
  lemma DigitsThenBlanks(d: string, w: string)
    requires |d| > 0 && forall i :: 0 <= i < |d| ==> IsDigit(d[i])
    requires forall i :: 0 <= i < |w| ==> IsIntSpace(w[i])
    ensures PyInt(d + w) == Success(DigitsValue(d))
  {
    DigitsAreUnderscored(d);
    UnderscoredThenBlanks(d, w);
  }

  lemma UnderscoredThenBlanks(d: string, w: string)
    requires IsUnderscoredDigits(d)
    requires forall i :: 0 <= i < |w| ==> IsIntSpace(w[i])
    ensures PyInt(d + w) == Success(DigitsValue(d))
  {
    assert d + w == "" + d + w;
    PyIntOfDigits("", d, w);
  }

  lemma TrimStartSpaces(a: string, t: string)
    requires forall i :: 0 <= i < |a| ==> IsIntSpace(a[i])
    requires |t| > 0 && !IsIntSpace(t[0])
    ensures TrimStart(a + t) == t
    decreases |a|
  {
    if a == [] {
      assert a + t == t;
    } else {
      assert (a + t)[1..] == a[1..] + t;
      TrimStartSpaces(a[1..], t);
    }
  }

  /**
   * int() of a run of digits with single underscores between them, with
   * any whitespace on either side, is the number the digits spell.
   */
  lemma PyIntOfDigits(a: string, d: string, b: string)
    requires forall i :: 0 <= i < |a| ==> IsIntSpace(a[i])
    requires IsUnderscoredDigits(d)
    requires forall i :: 0 <= i < |b| ==> IsIntSpace(b[i])
    ensures PyInt(a + d + b) == Success(DigitsValue(d))
  {
    StripAround(a, d, b);
    PyIntOfStripped(a + d + b);
  }

  lemma StripAround(a: string, d: string, b: string)
    requires forall i :: 0 <= i < |a| ==> IsIntSpace(a[i])
    requires |d| > 0 && IsDigit(d[0]) && IsDigit(d[|d| - 1])
    requires forall i :: 0 <= i < |b| ==> IsIntSpace(b[i])
    ensures Strip(a + d + b) == d
  {
    var db := d + b;
    assert a + d + b == a + db;
    assert db[0] == d[0];
    TrimStartSpaces(a, db);
    TrimEndSpaces(d, b);
    assert TrimStart(a + d + b) == db;
    assert TrimEnd(db) == d;
  }

  lemma PyIntOfStripped(t: string)
    requires IsUnderscoredDigits(Strip(t))
    ensures PyInt(t) == Success(DigitsValue(Strip(t)))
  {
  }

  lemma {:induction false} DecimalValue(n: nat)
    ensures DigitsValue(Decimal(n)) == n
  {
    if n >= 10 {
      DecimalValue(n / 10);
      var s := Decimal(n);
      assert s[..|s| - 1] == Decimal(n / 10);
    }
  }

  /** An underscore between digits adds nothing to their value: 1_234 is 1234. */
  lemma {:induction false} DigitsValueSkipsUnderscore(a: string, b: string)
    ensures DigitsValue(a + "_" + b) == DigitsValue(a + b)
    decreases |b|
  {
    if b == [] {
      assert (a + "_" + b)[..|a|] == a;
      assert a + b == a;
    } else {
      var n := |b| - 1;
      DigitsValueSkipsUnderscore(a, b[..n]);
      assert (a + "_" + b)[..|a| + n + 1] == a + "_" + b[..n];
      assert (a + b)[..|a| + n] == a + b[..n];
    }
  }

  lemma DecimalSplit(n: nat)
    requires n >= 1000
    ensures Decimal(n) == Decimal(n / 1000) + Pad3(n % 1000)
  {
    var q, m := n / 1000, n % 1000;
    assert n == 1000 * q + m;
    assert n / 10 == 100 * q + m / 10;
    assert n / 100 == 10 * q + m / 100;
    assert n / 10 / 10 == n / 100;
    assert n / 100 / 10 == q;
    assert n % 10 == m % 10;
    assert n / 10 % 10 == m / 10 % 10;
    assert n / 100 % 10 == m / 100;
    calc {
      Decimal(n);
      Decimal(n / 10) + [DigitChar(n % 10)];
      Decimal(n / 100) + [DigitChar(n / 10 % 10)] + [DigitChar(n % 10)];
      Decimal(q) + [DigitChar(n / 100 % 10)] + [DigitChar(n / 10 % 10)] + [DigitChar(n % 10)];
      Decimal(q) + Pad3(m);
    }
  }

  lemma {:induction false} DropCommasGrouped(n: nat)
    ensures DropCommas(Grouped(n)) == Decimal(n)
  {
    if n < 1000 {
      DropCommasNoComma(Decimal(n));
    } else {
      DropCommasGrouped(n / 1000);
      DropCommasAppend(Grouped(n / 1000) + ",", Pad3(n % 1000));
      DropCommasAppend(Grouped(n / 1000), ",");
      DropCommasNoComma(Pad3(n % 1000));
      DecimalSplit(n);
    }
  }

  /**
   * Round trip: a count rendered with thousands separators, after any text
   * without digits and before blanks and a newline (or the end), parses
   * back to the count.
   */
  lemma GroupedRoundTrip(prefix: string, n: nat, w: string, rest: string)
    requires forall i :: 0 <= i < |prefix| ==> !IsDigit(prefix[i])
    requires forall i :: 0 <= i < |w| ==> IsIntSpace(w[i]) && w[i] != '\n'
    requires rest == [] || rest[0] == '\n'
    ensures ParseCount(prefix + Grouped(n) + w + rest) == Success(n)
  {
    GroupedLineMatched(prefix, n, w, rest);
    GroupedLineValue(n, w);
    CountOfMatch(prefix + Grouped(n) + w + rest, Grouped(n) + w);
  }

  lemma GroupedLineMatched(prefix: string, n: nat, w: string, rest: string)
    requires forall i :: 0 <= i < |prefix| ==> !IsDigit(prefix[i])
    requires forall i :: 0 <= i < |w| ==> IsIntSpace(w[i]) && w[i] != '\n'
    requires rest == [] || rest[0] == '\n'
    ensures MatchedText(prefix + Grouped(n) + w + rest) == Some(Grouped(n) + w)
  {
    PrefixedLineMatched(prefix, Grouped(n), w, rest);
  }

  lemma PrefixedLineMatched(prefix: string, g: string, w: string, rest: string)
    requires forall i :: 0 <= i < |prefix| ==> !IsDigit(prefix[i])
    requires |g| > 0 && IsDigit(g[0])
    requires forall i :: 0 <= i < |g| ==> IsDigit(g[i]) || g[i] == ','
    requires forall i :: 0 <= i < |w| ==> IsIntSpace(w[i]) && w[i] != '\n'
    requires rest == [] || rest[0] == '\n'
    ensures MatchedText(prefix + g + w + rest) == Some(g + w)
  {
    var line := g + w + rest;
    assert prefix + g + w + rest == prefix + line;
    WholeLineMatched(g, w, rest);
    MatchSkipsDigitFreePrefix(prefix, line);
  }

  lemma GroupedLineValue(n: nat, w: string)
    requires forall i :: 0 <= i < |w| ==> IsIntSpace(w[i]) && w[i] != '\n'
    ensures PyInt(DropCommas(Grouped(n) + w)) == Success(n)
  {
    CommaDigitsThenBlanks(Grouped(n), w);
    DropCommasGrouped(n);
    DecimalValue(n);
  }

  /** The plain decimal rendering parses back as well. */
  lemma DecimalRoundTrip(prefix: string, n: nat, rest: string)
    requires forall i :: 0 <= i < |prefix| ==> !IsDigit(prefix[i])
    requires rest == [] || rest[0] == '\n'
    ensures ParseCount(prefix + Decimal(n) + rest) == Success(n)
  {
    DecimalLineMatched(prefix, n, rest);
    DecimalLineValue(n);
    CountOfMatch(prefix + Decimal(n) + rest, Decimal(n));
  }

  lemma DecimalLineMatched(prefix: string, n: nat, rest: string)
    requires forall i :: 0 <= i < |prefix| ==> !IsDigit(prefix[i])
    requires rest == [] || rest[0] == '\n'
    ensures MatchedText(prefix + Decimal(n) + rest) == Some(Decimal(n))
  {
    var d := Decimal(n);
    assert prefix + d + "" + rest == prefix + d + rest;
    assert d + "" == d;
    PrefixedLineMatched(prefix, d, "", rest);
  }

  lemma DecimalLineValue(n: nat)
    ensures PyInt(DropCommas(Decimal(n))) == Success(n)
  {
    var d := Decimal(n);
    assert d + "" == d;
    CommaDigitsThenBlanks(d, "");
    DropCommasNoComma(d);
    DecimalValue(n);
  }

  lemma StripKeeps(t: string, j: nat)
    requires |t| > 0 && IsDigit(t[0])
    requires j < |t| && !IsIntSpace(t[j])
    ensures j < |Strip(t)| && Strip(t)[j] == t[j]
  {
    assert TrimStart(t) == t;
    TrimEndKeeps(t, j);
  }

  lemma TrimEndKeeps(t: string, j: nat)
    requires j < |t| && !IsIntSpace(t[j])
    ensures j < |TrimEnd(t)| && TrimEnd(t)[j] == t[j]
  {
    var r := TrimEnd(t);
    assert r == t[..|r|];
  }

  lemma UnderscoredDigitsChars(u: string, j: nat)
    requires IsUnderscoredDigits(u) && j < |u|
    ensures IsDigit(u[j]) || u[j] == '_'
    decreases |u|
  {
    if j > 0 {
      if u[1] == '_' {
        if j >= 2 { UnderscoredDigitsChars(u[2..], j - 2); }
      } else {
        UnderscoredDigitsChars(u[1..], j - 1);
      }
    }
  }

  lemma DropCommasKeeps(t: string, j: nat) returns (j': nat)
    requires j < |t| && t[j] != ','
    ensures j' < |DropCommas(t)| && DropCommas(t)[j'] == t[j]
    decreases |t|
  {
    if j == 0 {
      j' := 0;
    } else {
      var k := DropCommasKeeps(t[1..], j - 1);
      j' := if t[0] == ',' then k else k + 1;
    }
  }

  /**
   * A character on the matched line that is neither a digit, a comma, an
   * underscore nor whitespace makes int() raise: "1,234 plays" has none
   * of the number's own characters at the 'p'.
   */
  lemma RejectsForeignCharacter(s: string, m: string, j: nat)
    requires MatchedText(s) == Some(m) && j < |m|
    requires !IsDigit(m[j]) && m[j] != ',' && m[j] != '_' && !IsIntSpace(m[j])
    ensures ParseCount(s) == Failure(NotAnInteger)
  {
    var i := DropCommasKeeps(m, j);
    PyIntRejects(DropCommas(m), i);
    CountOfMatch(s, m);
  }

  /** int() of a text that starts with a digit rejects any later foreign character. */
  lemma PyIntRejects(t: string, i: nat)
    requires |t| > 0 && IsDigit(t[0]) && i < |t|
    requires !IsDigit(t[i]) && t[i] != '_' && !IsIntSpace(t[i])
    ensures PyInt(t) == Failure(NotAnInteger)
  {
    StripKeeps(t, i);
    var u := Strip(t);
    assert IsDigit(u[0]);
    if IsUnderscoredDigits(u) {
      UnderscoredDigitsChars(u, i);
      assert false;
    }
  }

  // ---------------------------------------------------------------------
  // Exactly which count texts int() accepts
  // ---------------------------------------------------------------------

  /**
   * A text that starts with a digit and that int() accepts is a run of
   * digits with single underscores between them, then whitespace only.
   */
  lemma PyIntShape(t: string) returns (d: string, w: string)
    requires |t| > 0 && IsDigit(t[0]) && PyInt(t).Success?
    ensures t == d + w
    ensures IsUnderscoredDigits(d) && forall i :: 0 <= i < |w| ==> IsIntSpace(w[i])
    ensures PyInt(t) == Success(DigitsValue(d))
  {
    assert TrimStart(t) == t;
    d := Strip(t);
    assert d == t[..|d|];
    w := t[|d|..];
    assert t == d + w;
  }

  /**
   * A count parses only when the matched line, once its commas are gone,
   * is an underscored digit run followed by whitespace; the count is the
   * number the digits spell.
   */
  lemma ParseCountShape(s: string) returns (d: string, w: string)
    requires ParseCount(s).Success?
    ensures MatchedText(s).Some? && DropCommas(MatchedText(s).value) == d + w
    ensures IsUnderscoredDigits(d) && forall i :: 0 <= i < |w| ==> IsIntSpace(w[i])
    ensures ParseCount(s) == Success(DigitsValue(d))
  {
    var m := MatchedText(s).value;
    CountOfMatch(s, m);
    d, w := PyIntShape(DropCommas(m));
  }

  /** The converse: such a line parses, to the number its digits spell. */
  lemma ParsesUnderscoredLine(s: string, m: string, d: string, w: string)
    requires MatchedText(s) == Some(m) && DropCommas(m) == d + w
    requires IsUnderscoredDigits(d) && forall i :: 0 <= i < |w| ==> IsIntSpace(w[i])
    ensures ParseCount(s) == Success(DigitsValue(d))
  {
    UnderscoredThenBlanks(d, w);
    CountOfMatch(s, m);
  }

  lemma DropCommasKeepsOrder(t: string, i: nat, j: nat) returns (i': nat, j': nat)
    requires i < j < |t| && t[i] != ',' && t[j] != ','
    ensures i' < j' < |DropCommas(t)|
    ensures DropCommas(t)[i'] == t[i] && DropCommas(t)[j'] == t[j]
    decreases |t|
  {
    if i == 0 {
      var k := DropCommasKeeps(t[1..], j - 1);
      i', j' := 0, k + 1;
    } else {
      var a, b := DropCommasKeepsOrder(t[1..], i - 1, j - 1);
      i', j' := if t[0] == ',' then a else a + 1, if t[0] == ',' then b else b + 1;
    }
  }

  /** int() of a text that starts with a digit rejects whitespace followed by a digit. */
  lemma PyIntRejectsBlank(t: string, i: nat, j: nat)
    requires |t| > 0 && IsDigit(t[0]) && i < j < |t|
    requires IsIntSpace(t[i]) && IsDigit(t[j])
    ensures PyInt(t) == Failure(NotAnInteger)
  {
    if PyInt(t).Success? {
      var d, w := PyIntShape(t);
      NoDigitAfterBlank(d, w, i, j);
      assert false;
    }
  }

  lemma NoDigitAfterBlank(d: string, w: string, i: nat, j: nat)
    requires IsUnderscoredDigits(d) && forall k :: 0 <= k < |w| ==> IsIntSpace(w[k])
    requires i < j < |d + w| && IsIntSpace((d + w)[i])
    ensures !IsDigit((d + w)[j])
  {
    if i < |d| {
      UnderscoredDigitsChars(d, i);
    }
  }

  /**
   * Whitespace inside the number makes int() raise: in "1 234" the digits
   * after the blank are not part of a single literal.
   */
  lemma RejectsInteriorBlank(s: string, m: string, i: nat, j: nat)
    requires MatchedText(s) == Some(m) && i < j < |m|
    requires IsIntSpace(m[i]) && IsDigit(m[j])
    ensures ParseCount(s) == Failure(NotAnInteger)
  {
    var i', j' := DropCommasKeepsOrder(m, i, j);
    PyIntRejectsBlank(DropCommas(m), i', j');
    CountOfMatch(s, m);
  }

  lemma UnderscoreBeforeDigit(u: string, j: nat)
    requires IsUnderscoredDigits(u) && j < |u| && u[j] == '_'
    ensures j + 1 < |u| && IsDigit(u[j + 1])
    decreases |u|
  {
    if u[1] == '_' {
      if j > 1 { UnderscoreBeforeDigit(u[2..], j - 2); }
    } else {
      UnderscoreBeforeDigit(u[1..], j - 1);
    }
  }

  /** int() of a text that starts with a digit rejects an underscore not followed by a digit. */
  lemma PyIntRejectsUnderscore(t: string, i: nat)
    requires |t| > 0 && IsDigit(t[0]) && i < |t| && t[i] == '_'
    requires i + 1 == |t| || !IsDigit(t[i + 1])
    ensures PyInt(t) == Failure(NotAnInteger)
  {
    if PyInt(t).Success? {
      var d, w := PyIntShape(t);
      UnderscoreInsideDigits(d, w, i);
      assert false;
    }
  }

  lemma UnderscoreInsideDigits(d: string, w: string, i: nat)
    requires IsUnderscoredDigits(d) && forall k :: 0 <= k < |w| ==> IsIntSpace(w[k])
    requires i < |d + w| && (d + w)[i] == '_'
    ensures i + 1 < |d + w| && IsDigit((d + w)[i + 1])
  {
    if i < |d| {
      UnderscoreBeforeDigit(d, i);
    }
  }

  /**
   * Once the commas are gone, an underscore that ends the line or is not
   * followed by a digit makes int() raise, as in "12_" and "1__2".
   */
  lemma RejectsMisplacedUnderscore(s: string, i: nat)
    requires MatchedText(s).Some? && i < |DropCommas(MatchedText(s).value)|
    requires DropCommas(MatchedText(s).value)[i] == '_'
    requires i + 1 == |DropCommas(MatchedText(s).value)| || !IsDigit(DropCommas(MatchedText(s).value)[i + 1])
    ensures ParseCount(s) == Failure(NotAnInteger)
  {
    var m := MatchedText(s).value;
    PyIntRejectsUnderscore(DropCommas(m), i);
    CountOfMatch(s, m);
  }

  // ---------------------------------------------------------------------
  // What int() makes of a few matched lines
  // ---------------------------------------------------------------------

  lemma RejectsBlankLiteral()
    ensures PyInt("1 234") == Failure(NotAnInteger)
  {
    PyIntRejectsBlank("1 234", 1, 2);
  }

  lemma RejectsUnderscoreLiterals()
    ensures PyInt("12_") == Failure(NotAnInteger)
    ensures PyInt("1__2") == Failure(NotAnInteger)
  {
    PyIntRejectsUnderscore("12_", 2);
    PyIntRejectsUnderscore("1__2", 1);
  }

  /** U+001C is not whitespace to int(), though str.isspace holds for it. */
  lemma RejectsSeparatorControl()
    ensures PyInt("5\U{1C}\U{A0}") == Failure(NotAnInteger)
  {
    PyIntRejects("5\U{1C}\U{A0}", 1);
  }
}
