/** C string and formatted-I/O helpers shared by the client, the storage node
    and the proxy: prefix tests (strncmp), the conversions of sscanf (%d, %s,
    %[^.]), atoi/atol, the decimal rendering of printf's %d, and a byte type
    for payloads. Strings never contain NUL in this model. */
module Strings {

  /** One octet of a file, a chunk or a socket payload. */
  type byte = b: int | 0 <= b < 256

  datatype Option<T> = None | Some(value: T)

  /** strncmp(s, p, |p|) == 0 */
  predicate StartsWith(s: string, p: string) {
    |p| <= |s| && s[..|p|] == p
  }

  /** p followed by t starts with p, and what follows p is t. */
  lemma PrefixThen(p: string, t: string)
    ensures StartsWith(p + t, p) && (p + t)[|p|..] == t
  {
    assert (p + t)[..|p|] == p;
  }

  /** A string that differs from p at some position before p's end does
      not start with p. */
  lemma DiffersAt(s: string, p: string, i: nat)
    requires i < |p| && i < |s| && s[i] != p[i]
    ensures !StartsWith(s, p)
  {
    if |p| <= |s| {
      assert s[..|p|][i] == s[i];
    }
  }

  /** isspace in the C locale. */
  predicate IsSpace(c: char) {
    c == ' ' || c == '\t' || c == '\n' || c == '\r' || c as int == 11 || c as int == 12
  }

  predicate IsDigit(c: char) {
    '0' <= c <= '9'
  }

  predicate NotSpace(c: char) { !IsSpace(c) }

  predicate NotDot(c: char) { c != '.' }

  /** Length of the longest prefix of s whose characters all satisfy p. */
  function Span(s: string, p: char -> bool): (n: nat)
    ensures n <= |s|
  {
    if s == [] || !p(s[0]) then 0 else 1 + Span(s[1..], p)
  }

  /** What Span measures: all of the prefix satisfies p, the next
      character does not. */
  lemma {:induction false} SpanIsMaximal(s: string, p: char -> bool)
    ensures forall i :: 0 <= i < Span(s, p) ==> p(s[i])
    ensures Span(s, p) < |s| ==> !p(s[Span(s, p)])
  {
    if s != [] && p(s[0]) {
      SpanIsMaximal(s[1..], p);
    }
  }

  lemma {:induction false} SpanOfPrefix(a: string, b: string, p: char -> bool)
    requires forall i :: 0 <= i < |a| ==> p(a[i])
    requires b == [] || !p(b[0])
    ensures Span(a + b, p) == |a|
  {
    if a != [] {
      assert (a + b)[1..] == a[1..] + b;
      SpanOfPrefix(a[1..], b, p);
    } else {
      assert a + b == b;
    }
  }

  /** The leading white space that every sscanf conversion except %[ skips. */
  function SkipSpaces(s: string): (r: string)
    ensures |r| <= |s| && r == s[|s| - |r|..]
  {
    s[Span(s, IsSpace)..]
  }

  /** White space before a non-space character is skipped, and only it. */
  lemma SkipSpacesBefore(w: string, x: string)
    requires forall i :: 0 <= i < |w| ==> IsSpace(w[i])
    requires x == [] || !IsSpace(x[0])
    ensures SkipSpaces(w + x) == x
  {
    SpanOfPrefix(w, x, IsSpace);
    assert (w + x)[|w|..] == x;
  }

  function DigitValue(c: char): (d: nat)
    requires IsDigit(c)
    ensures d < 10
  {
    c as int - '0' as int
  }

  function DigitChar(d: nat): (c: char)
    requires d < 10
    ensures IsDigit(c) && DigitValue(c) == d
  {
    ('0' as int + d) as char
  }

  /** The value of a run of decimal digits. */
  function DigitsValue(s: string): nat
    requires forall i :: 0 <= i < |s| ==> IsDigit(s[i])
  {
    if s == [] then 0 else DigitsValue(s[..|s| - 1]) * 10 + DigitValue(s[|s| - 1])
  }

  /** printf's %d of a non-negative value: no leading zeros, "0" for zero. */
  function NatToString(n: nat): (s: string)
    ensures |s| >= 1 && forall i :: 0 <= i < |s| ==> IsDigit(s[i])
    ensures DigitsValue(s) == n
  {
    if n < 10 then [DigitChar(n)]
    else
      var s := NatToString(n / 10) + [DigitChar(n % 10)];
      assert s[..|s| - 1] == NatToString(n / 10);
      s
  }

  /** printf's %d and %ld. */
  function IntToString(n: int): (s: string)
    ensures |s| >= 1 && !IsSpace(s[0]) && s[0] != '.'
    ensures forall i :: 0 <= i < |s| ==> s[i] != '.' && !IsSpace(s[i])
  {
    if n < 0 then "-" + NatToString(-n) else NatToString(n)
  }

  /** One or more decimal digits at the start of t: their value and what
      follows them. */
  function DigitsPrefix(t: string): (r: Option<(nat, string)>)
    ensures r.Some? ==> |r.value.1| < |t|
  {
    var n := Span(t, IsDigit);
    if n == 0 then None
    else
      SpanIsMaximal(t, IsDigit);
      Some((DigitsValue(t[..n]), t[n..]))
  }

  /** An optionally signed decimal integer at the start of s (after the
      sign, at least one digit); the value and what follows it. */
  function SignedPrefix(s: string): (r: Option<(int, string)>)
    ensures r.Some? ==> |r.value.1| < |s|
  {
    if |s| > 0 && s[0] == '-' then
      match DigitsPrefix(s[1..])
      case None => None
      case Some((v, rest)) => Some((-(v as int), rest))
    else if |s| > 0 && s[0] == '+' then
      match DigitsPrefix(s[1..])
      case None => None
      case Some((v, rest)) => Some((v as int, rest))
    else
      match DigitsPrefix(s)
      case None => None
      case Some((v, rest)) => Some((v as int, rest))
  }

  /** The %d (and %ld) conversion of sscanf: leading white space, an optional
      sign, one or more digits. None is a matching failure. The width of C's
      int and long is not modelled. */
  function ScanInt(s: string): (r: Option<(int, string)>)
    ensures r.Some? ==> |r.value.1| < |s|
  {
    SignedPrefix(SkipSpaces(s))
  }

  /** atoi and atol: the %d conversion, or 0 when there is no number. */
  function Atoi(s: string): int {
    match ScanInt(s)
    case Some((v, _)) => v
    case None => 0
  }

  /** The %s conversion of sscanf: skip white space, then the longest
      non-empty run of non-space characters. */
  function ScanWord(s: string): (r: Option<(string, string)>)
    ensures r.Some? ==> |r.value.0| >= 1 && |r.value.1| < |s|
  {
    var t := SkipSpaces(s);
    var n := Span(t, NotSpace);
    if n == 0 then None else Some((t[..n], t[n..]))
  }

  /** A name a client can put on the wire through "%s": non-empty, no white space. */
  predicate IsToken(s: string) {
    |s| >= 1 && forall i :: 0 <= i < |s| ==> !IsSpace(s[i])
  }

  /** Concatenation regroups freely. */
  lemma Regroup(a: string, b: string, c: string)
    ensures (a + b) + c == a + (b + c) && [] + a == a && a + [] == a
  {
  }

  /** A token followed by more non-space characters is a token. */
  lemma TokenAppend(a: string, b: string)
    requires IsToken(a) && forall i :: 0 <= i < |b| ==> !IsSpace(b[i])
    ensures IsToken(a + b)
  {
    assert forall i :: 0 <= i < |a + b| ==> (a + b)[i] == if i < |a| then a[i] else b[i - |a|];
  }

  /** A word read by %s is a token, and it ends at white space or at the end. */
  lemma ScanWordIsToken(s: string)
    requires ScanWord(s).Some?
    ensures IsToken(ScanWord(s).value.0)
    ensures ScanWord(s).value.1 == [] || IsSpace(ScanWord(s).value.1[0])
  {
    SpanIsMaximal(SkipSpaces(s), NotSpace);
  }

  /** A run of digits followed by a non-digit: the run is the whole span. */
  lemma DigitsThenRest(d: string, rest: string)
    requires forall i :: 0 <= i < |d| ==> IsDigit(d[i])
    requires rest == [] || !IsDigit(rest[0])
    ensures Span(d + rest, IsDigit) == |d|
    ensures (d + rest)[..|d|] == d && (d + rest)[|d|..] == rest
  {
    SpanOfPrefix(d, rest, IsDigit);
  }

  /** A run of digits followed by a non-digit is read as its value. */
  lemma DigitsPrefixOf(d: string, rest: string)
    requires |d| >= 1 && forall i :: 0 <= i < |d| ==> IsDigit(d[i])
    requires rest == [] || !IsDigit(rest[0])
    ensures DigitsPrefix(d + rest) == Some((DigitsValue(d), rest))
  {
    DigitsThenRest(d, rest);
  }

  /** The sign-and-digits part of %d reads back what %d printed. */
  lemma SignedPrefixOfIntToString(n: int, rest: string)
    requires rest == [] || !IsDigit(rest[0])
    ensures SignedPrefix(IntToString(n) + rest) == Some((n, rest))
  {
    var s := IntToString(n) + rest;
    var d := NatToString(if n < 0 then -n else n);
    DigitsPrefixOf(d, rest);
    if n < 0 {
      assert s[0] == '-' && s[1..] == d + rest;
    } else {
      assert s == d + rest && IsDigit(s[0]);
    }
  }

  /** The %d conversion reads back what %d printed, up to a following
      character that is not a digit. */
  lemma ScanIntOfIntToString(n: int, rest: string)
    requires rest == [] || !IsDigit(rest[0])
    ensures ScanInt(IntToString(n) + rest) == Some((n, rest))
  {
    var s := IntToString(n) + rest;
    SkipSpacesBefore([], s);
    assert [] + s == s;
    SignedPrefixOfIntToString(n, rest);
  }

  /** %d skips white space before a printed number and reads all of it. */
  lemma ScanIntAfterSpaces(w: string, n: int)
    requires forall i :: 0 <= i < |w| ==> IsSpace(w[i])
    ensures ScanInt(w + IntToString(n)) == Some((n, []))
  {
    var d := IntToString(n);
    SkipSpacesBefore(w, d);
    SignedPrefixOfIntToString(n, []);
    assert d + [] == d;
  }

  /** atoi of a number printed by %d gives the number back. */
  lemma AtoiOfIntToString(n: int)
    ensures Atoi(IntToString(n)) == n
  {
    ScanIntOfIntToString(n, []);
    assert IntToString(n) + [] == IntToString(n);
  }

  /** %s reads back a token after white space, up to white space or the end. */
  lemma ScanWordOfToken(sp: string, w: string, rest: string)
    requires forall i :: 0 <= i < |sp| ==> IsSpace(sp[i])
    requires IsToken(w)
    requires rest == [] || IsSpace(rest[0])
    ensures ScanWord(sp + (w + rest)) == Some((w, rest))
  {
    SkipSpacesBefore(sp, w + rest);
    SpanOfPrefix(w, rest, NotSpace);
    assert (w + rest)[..|w|] == w && (w + rest)[|w|..] == rest;
  }

  predicate IsNewline(c: char) { c == '\n' }

  predicate NotNewline(c: char) { c != '\n' }

  /** A line as strtok(..., "\n") yields it: non-empty, no newline. */
  predicate IsLine(l: string) {
    |l| > 0 && forall j :: 0 <= j < |l| ==> l[j] != '\n'
  }

  /** The tokens strtok(s, "\n") returns one after the other: the maximal
      runs of non-newline characters, in order. */
  function Lines(s: string): (lines: seq<string>)
    ensures forall k :: 0 <= k < |lines| ==> IsLine(lines[k])
    decreases |s|
  {
    var t := s[Span(s, IsNewline)..];
    if t == [] then []
    else
      SpanIsMaximal(s, IsNewline);
      var n := Span(t, NotNewline);
      SpanIsMaximal(t, NotNewline);
      [t[..n]] + Lines(t[n..])
  }

  /** Names written one per line, each followed by a newline. */
  function JoinLines(names: seq<string>): string {
    if names == [] then [] else names[0] + "\n" + JoinLines(names[1..])
  }

  /** Writing one more name appends its line. */
  lemma {:induction false} JoinLinesSnoc(names: seq<string>, last: string)
    ensures JoinLines(names + [last]) == JoinLines(names) + last + "\n"
  {
    if names != [] {
      assert (names + [last])[1..] == names[1..] + [last];
      JoinLinesSnoc(names[1..], last);
    }
  }

  /** strtok on newlines reads back names written one per line. */
  lemma {:induction false} LinesOfJoinLines(names: seq<string>)
    requires forall k :: 0 <= k < |names| ==> IsLine(names[k])
    ensures Lines(JoinLines(names)) == names
  {
    if names != [] {
      var first := names[0];
      var rest := JoinLines(names[1..]);
      var s := JoinLines(names);
      assert s == first + ("\n" + rest);
      assert IsLine(first);
      SpanOfPrefix([], s, IsNewline);
      assert s[0..] == s;
      assert forall j :: 0 <= j < |first| ==> NotNewline(first[j]);
      SpanOfPrefix(first, "\n" + rest, NotNewline);
      assert s[..|first|] == first && s[|first|..] == "\n" + rest;
      LinesOfJoinLines(names[1..]);
      LinesAfterNewline(rest);
    }
  }

  /** A newline before text that does not start with one is skipped. */
  lemma LinesAfterNewline(rest: string)
    requires rest == [] || rest[0] != '\n'
    ensures Lines("\n" + rest) == Lines(rest)
  {
    SpanOfPrefix("\n", rest, IsNewline);
    assert ("\n" + rest)[1..] == rest;
    SpanOfPrefix([], rest, IsNewline);
    assert rest[0..] == rest;
  }
}
