/** The caching HTTP proxy (proxy.c): parse_request splits the request
    line and the URL into method, host, port and path; handleClient accepts
    only GET, answers fresh cached responses from the cache, and otherwise
    relays the origin's response to the client while accumulating it in a
    growable buffer that is then written to the cache. MD5, the clock, DNS
    and the sockets are inputs. */
module Proxy {
  import opened Strings

  /** The port used when the URL names none. */
  const DefaultPort := 80

  // ------------------------------------------------------ request line

  predicate IsBlank(c: char) { c == ' ' }
  predicate NotBlank(c: char) { c != ' ' }

  /** strtok(..., " ") from position from: where the next token starts and
      ends, if there is one. NextTokenIsStrtok states what the span is. */
  function NextToken(s: string, from: nat): (r: Option<(nat, nat)>)
    requires from <= |s|
    ensures r.Some? ==> from <= r.value.0 < r.value.1 <= |s|
  {
    var start := from + Span(s[from..], IsBlank);
    if start == |s| then None
    else
      SpanIsMaximal(s[from..], IsBlank);
      SpanIsMaximal(s[start..], NotBlank);
      Some((start, start + Span(s[start..], NotBlank)))
  }

  /** The leading blanks are skipped, the token is the whole blank-free run
      after them, and there is no token when only blanks are left. */
  lemma NextTokenIsStrtok(s: string, from: nat)
    requires from <= |s|
    ensures var r := NextToken(s, from);
      && (r.Some? ==> forall i :: from <= i < r.value.0 ==> s[i] == ' ')
      && (r.Some? ==> forall i :: r.value.0 <= i < r.value.1 ==> s[i] != ' ')
      && (r.Some? ==> r.value.1 == |s| || s[r.value.1] == ' ')
      && (r.None? <==> forall i :: from <= i < |s| ==> s[i] == ' ')
  {
    var start := from + Span(s[from..], IsBlank);
    SpanIsMaximal(s[from..], IsBlank);
    assert forall i :: from <= i < start ==> s[i] == s[from..][i - from];
    if start < |s| {
      assert s[start] == s[from..][start - from];
      SpanIsMaximal(s[start..], NotBlank);
      var stop := start + Span(s[start..], NotBlank);
      assert forall i :: start <= i < stop ==> s[i] == s[start..][i - start];
      assert stop < |s| ==> s[stop] == s[start..][stop - start];
    }
  }

  /** A token as strtok on " " returns it: non-empty, no blank. */
  predicate IsWord(w: string) {
    |w| > 0 && forall i :: 0 <= i < |w| ==> w[i] != ' '
  }

  /** The method and the URL: the first two tokens of the request, each
      empty when missing (the source leaves those buffers unset). */
  function RequestWords(request: string): (string, string)
  {
    match NextToken(request, 0)
    case None => ("", "")
    case Some((a, b)) =>
      var next := if b < |request| then b + 1 else b;
      match NextToken(request, next)
      case None => (request[a..b], "")
      case Some((c, d)) => (request[a..b], request[c..d])
  }

  /** The request as a C string after the first strtok: it wrote a NUL
      where the method token ends. */
  function AfterStrtok(request: string): string
  {
    match NextToken(request, 0)
    case None => request
    case Some((_, b)) => request[..b]
  }

  // --------------------------------------------------------------- URL

  predicate NotHostEnd(c: char) { c != ':' && c != '/' }
  predicate NotSlash(c: char) { c != '/' }
  predicate NotColon(c: char) { c != ':' }

  /** Where the request goes: host, port and path. */
  datatype Target = Target(host: string, port: int, path: string)

  /** The URL without a leading "http://". */
  function StripScheme(url: string): (rest: string)
    ensures |rest| <= |url|
  {
    if StartsWith(url, "http://") then url[7..] else url
  }

  /** The host, port and path parse_request reads from a URL after its
      scheme: the host runs to the first ':' or '/' (strpbrk); a ':' there
      is followed by the port (atoi) and, from the next '/' on, the path;
      a '/' there starts the path; the path defaults to "/" and the port
      to 80. */
  function SplitHost(rest: string): Target
  {
    var n := Span(rest, NotHostEnd);
    if n == |rest| then Target(rest, DefaultPort, "/")
    else if rest[n] == ':' then
      var (port, path) := PortAndPath(rest[n..]);
      Target(rest[..n], port, path)
    else Target(rest[..n], DefaultPort, rest[n..])
  }

  /** The port and path after a ':' that ends the host: atoi of what
      follows the ':', and the text from the first '/' on (strchr), or "/". */
  function PortAndPath(tail: string): (int, string)
    requires |tail| >= 1
  {
    var slash := Span(tail, NotSlash);
    (Atoi(tail[1..]), if slash == |tail| then "/" else tail[slash..])
  }

  /** The host, port and path parse_request reads from a URL. */
  function UrlTarget(url: string): Target
  {
    SplitHost(StripScheme(url))
  }

  /** p occurs in s at position j. */
  predicate MatchAt(s: string, p: string, j: nat) {
    j + |p| <= |s| && s[j..j + |p|] == p
  }

  /** strstr(s, p) from position k on: the first position where p occurs. */
  function FindFrom(s: string, p: string, k: nat): (r: Option<nat>)
    ensures r.Some? ==> k <= r.value && MatchAt(s, p, r.value)
    ensures r.Some? ==> forall j :: k <= j < r.value ==> !MatchAt(s, p, j)
    ensures r.None? <==> forall j :: k <= j ==> !MatchAt(s, p, j)
    decreases |s| - k
  {
    if k + |p| > |s| then None
    else if MatchAt(s, p, k) then Some(k)
    else FindFrom(s, p, k + 1)
  }

  /** The "host: " header fallback of parse_request, applied to the text
      strstr scans: sscanf(h, "host: %s", host), then a ":port" suffix is
      cut off the host and read as the port. */
  function HeaderFallback(text: string, host: string, port: int): (string, int)
  {
    match FindFrom(text, "host: ", 0)
    case None => (host, port)
    case Some(k) =>
      match ScanWord(text[k + 5..])
      case None => (host, port)
      case Some((w, _)) =>
        var colon := Span(w, NotColon);
        if colon < |w| then (w[..colon], Atoi(w[colon + 1..])) else (w, port)
  }

  /** parse_request: the two strtok calls, the URL split, and the header
      fallback for an empty host. */
  method ParseRequest(request: string) returns (verb: string, url: string, host: string, port: int, path: string)
    ensures (verb, url) == RequestWords(request)
    ensures Target(host, port, path) == UrlTarget(url)
  {
    verb, url := ReadWords(request);
    host, port, path := ReadUrl(url);
    if |host| == 0 {
      HeaderFallbackIsDead(request, host, port);
      var found := HeaderFallback(AfterStrtok(request), host, port);
      host, port := found.0, found.1;
    }
  }

  /** The two strtok calls of parse_request. */
  method ReadWords(request: string) returns (verb: string, url: string)
    ensures (verb, url) == RequestWords(request)
  {
    verb, url := "", "";
    var first := NextToken(request, 0);
    if first.Some? {
      var (a, b) := first.value;
      verb := request[a..b];
      var next := if b < |request| then b + 1 else b;
      var second := NextToken(request, next);
      if second.Some? {
        url := request[second.value.0..second.value.1];
      }
    }
  }

  /** The strpbrk split of the URL into host, port and path. */
  method ReadUrl(url: string) returns (host: string, port: int, path: string)
    ensures Target(host, port, path) == UrlTarget(url)
  {
    port := DefaultPort;
    var rest := if StartsWith(url, "http://") then url[7..] else url;
    assert rest == StripScheme(url);
    var n := Span(rest, NotHostEnd);
    if n == |rest| {
      host := rest;
      path := "/";
    } else {
      host := rest[..n];
      if rest[n] == ':' {
        var tail := rest[n..];
        assert tail[1..] == rest[n + 1..];
        port := Atoi(rest[n + 1..]);
        var slash := Span(tail, NotSlash);
        if slash == |tail| {
          path := "/";
        } else {
          path := tail[slash..];
        }
      } else {
        path := rest[n..];
      }
    }
  }

  lemma AfterStrtokShape(request: string) returns (a: nat)
    ensures a <= |AfterStrtok(request)|
    ensures forall i :: 0 <= i < a ==> AfterStrtok(request)[i] == ' '
    ensures forall i :: a <= i < |AfterStrtok(request)| ==> AfterStrtok(request)[i] != ' '
  {
    a := Span(request, IsBlank);
    SpanIsMaximal(request, IsBlank);
    assert request[0..] == request;
    if a < |request| {
      SpanIsMaximal(request[a..], NotBlank);
      var b := a + Span(request[a..], NotBlank);
      assert AfterStrtok(request) == request[..b];
      forall i | a <= i < b
        ensures request[..b][i] != ' '
      {
        assert request[..b][i] == request[a..][i - a];
      }
    }
  }

  /** The header fallback never fires: after strtok, the text strstr scans
      is blanks followed by the method token, and "host: " would need a
      blank after its colon, which the token cannot hold. */
  lemma HeaderFallbackIsDead(request: string, host: string, port: int)
    ensures HeaderFallback(AfterStrtok(request), host, port) == (host, port)
  {
    var a := AfterStrtokShape(request);
    NoHeaderIn(AfterStrtok(request), a);
    assert FindFrom(AfterStrtok(request), "host: ", 0) == None;
  }

  /** Blanks followed by one blank-free token never contain "host: ". */
  lemma NoHeaderIn(text: string, a: nat)
    requires a <= |text|
    requires forall i :: 0 <= i < a ==> text[i] == ' '
    requires forall i :: a <= i < |text| ==> text[i] != ' '
    ensures forall j :: 0 <= j ==> !MatchAt(text, "host: ", j)
  {
    forall j | 0 <= j
      ensures !MatchAt(text, "host: ", j)
    {
      if j + 6 <= |text| {
        if j < a {
          assert text[j..j + 6][0] == ' ';
        } else {
          assert text[j..j + 6][5] != ' ';
        }
      }
    }
  }


  // ------------------------------------------------- request line and URL

  /** strtok finds a word at from when one starts there and a blank or
      the end follows it. */
  lemma NextTokenAt(s: string, from: nat, w: string, rest: string)
    requires from <= |s| && s[from..] == w + rest
    requires IsWord(w) && (rest == [] || rest[0] == ' ')
    ensures NextToken(s, from) == Some((from, from + |w|))
  {
    assert forall i :: from <= i < from + |w| ==> s[i] == w[i - from];
    assert from + |w| < |s| ==> s[from + |w|] == rest[0];
    var r := NextToken(s, from);
    NextTokenIsStrtok(s, from);
    assert r.Some? by { assert s[from] != ' '; }
    assert r.value.0 == from by { assert s[from] != ' '; }
    assert forall i :: from <= i < from + |w| ==> s[i] != ' ';
    assert from + |w| < |s| ==> s[from + |w|] == ' ';
  }

  /** The first two words of "verb url ..." are verb and url, whatever
      blank-led text follows. */
  lemma RequestWordsOfLine(verb: string, url: string, rest: string)
    requires IsWord(verb) && IsWord(url)
    requires rest == [] || rest[0] == ' '
    ensures RequestWords(verb + " " + url + rest) == (verb, url)
  {
    var s := verb + " " + url + rest;
    var b := |verb|;
    assert s[0..] == verb + (" " + url + rest);
    NextTokenAt(s, 0, verb, " " + url + rest);
    assert s[b + 1..] == url + rest;
    NextTokenAt(s, b + 1, url, rest);
    assert s[0..b] == verb;
    assert s[b + 1..b + 1 + |url|] == url;
  }

  /** A host as a URL carries it: no ':' and no '/'. */
  predicate IsHost(h: string) {
    forall i :: 0 <= i < |h| ==> NotHostEnd(h[i])
  }

  /** The part of a URL after the host and port: empty or from a '/' on. */
  predicate IsPathPart(p: string) {
    p == [] || p[0] == '/'
  }

  /** The URL "http://host[:port]path" a browser sends to the proxy. */
  function Url(host: string, port: Option<nat>, path: string): string {
    "http://" + host + (match port case None => "" case Some(n) => ":" + IntToString(n)) + path
  }

  /** A decimal rendering of a natural number holds only digits. */
  lemma DigitsOnly(n: nat)
    ensures forall i :: 0 <= i < |IntToString(n)| ==> IsDigit(IntToString(n)[i])
  {
    assert IntToString(n) == NatToString(n);
  }

  /** The host ends where a ':' or '/' (or the end) follows it. */
  lemma HostEnds(host: string, suffix: string)
    requires IsHost(host) && (suffix == [] || !NotHostEnd(suffix[0]))
    ensures Span(host + suffix, NotHostEnd) == |host|
    ensures (host + suffix)[..|host|] == host && (host + suffix)[|host|..] == suffix
  {
    SpanOfPrefix(host, suffix, NotHostEnd);
  }

  /** "host:port/path" splits back into its three parts. */
  lemma SplitHostPort(host: string, port: nat, path: string)
    requires IsHost(host) && IsPathPart(path)
    ensures SplitHost(host + ":" + IntToString(port) + path) == Target(host, port, if path == [] then "/" else path)
  {
    var tail := ":" + IntToString(port) + path;
    assert host + ":" + IntToString(port) + path == host + tail;
    HostEnds(host, tail);
    PortAndPathOf(port, path);
  }

  /** ":port/path" reads back as the port and the path. */
  lemma PortAndPathOf(port: nat, path: string)
    requires IsPathPart(path)
    ensures PortAndPath(":" + IntToString(port) + path) == (port, if path == [] then "/" else path)
  {
    var digits := IntToString(port);
    var tail := ":" + digits + path;
    assert tail[1..] == digits + path;
    DigitsOnly(port);
    ScanIntOfIntToString(port, path);
    assert tail == (":" + digits) + path;
    SpanOfPrefix(":" + digits, path, NotSlash);
    assert tail[1 + |digits|..] == path;
  }

  /** "host/path" splits back into host and path, on port 80. */
  lemma SplitHostPath(host: string, path: string)
    requires IsHost(host) && IsPathPart(path)
    ensures SplitHost(host + path) == Target(host, DefaultPort, if path == [] then "/" else path)
  {
    HostEnds(host, path);
  }

  /** parse_request reads back the host, the port (80 when none is
      written) and the path ("/" when none is written) of such a URL. */
  lemma UrlTargetOfUrl(host: string, port: Option<nat>, path: string)
    requires IsHost(host) && IsPathPart(path)
    ensures UrlTarget(Url(host, port, path))
      == Target(host, if port.Some? then port.value else DefaultPort, if path == [] then "/" else path)
  {
    var suffix := (match port case None => "" case Some(n) => ":" + IntToString(n)) + path;
    var url := Url(host, port, path);
    assert url == "http://" + (host + suffix);
    assert url[..7] == "http://";
    assert StripScheme(url) == host + suffix;
    if port.Some? {
      assert host + suffix == host + ":" + IntToString(port.value) + path;
      SplitHostPort(host, port.value, path);
    } else {
      assert host + suffix == host + path;
      SplitHostPath(host, path);
    }
  }

  /** The host parse_request reads from the URL after its scheme is a
      leading piece holding no ':' or '/'. */
  lemma HostOfSplit(rest: string)
    ensures IsHost(SplitHost(rest).host) && StartsWith(rest, SplitHost(rest).host)
  {
    SpanIsMaximal(rest, NotHostEnd);
    var host := rest[..Span(rest, NotHostEnd)];
    assert SplitHost(rest).host == host;
    assert rest[..|host|] == host;
  }

  /** The port differs from 80 only when a ':' ends the host. */
  lemma PortOfSplit(rest: string)
    ensures var t := SplitHost(rest);
      t.port != DefaultPort ==> |t.host| < |rest| && rest[|t.host|] == ':'
  {
    var n := Span(rest, NotHostEnd);
    assert |SplitHost(rest).host| == n;
  }

  /** The path is "/" or a suffix of the URL starting at a '/'. */
  lemma PathOfSplit(rest: string)
    ensures var path := SplitHost(rest).path;
      |path| >= 1 && path[0] == '/' && (path == "/" || path == rest[|rest| - |path|..])
  {
    SpanIsMaximal(rest, NotHostEnd);
    var n := Span(rest, NotHostEnd);
    var path := SplitHost(rest).path;
    if n == |rest| {
      assert path == "/";
    } else if rest[n] == ':' {
      var tail := rest[n..];
      PathOfTail(tail);
      assert path == PortAndPath(tail).1;
      if path != "/" {
        SuffixOfSuffix(rest, n, |path|);
      }
    } else {
      assert path == rest[n..] && path[0] == rest[n] == '/';
      assert path == rest[|rest| - |path|..];
    }
  }

  /** A suffix of a suffix is a suffix. */
  lemma SuffixOfSuffix(s: string, n: nat, m: nat)
    requires n <= |s| && m <= |s| - n
    ensures s[n..][|s| - n - m..] == s[|s| - m..]
  {
  }

  /** What parse_request makes of the URL after its scheme: the host is a
      leading piece holding no ':' or '/'; the port differs from 80 only
      when a ':' ends the host; the path is "/" or a suffix starting at a
      '/'. */
  lemma SplitHostShape(rest: string)
    ensures var t := SplitHost(rest);
      && IsHost(t.host) && StartsWith(rest, t.host)
      && (t.port != DefaultPort ==> |t.host| < |rest| && rest[|t.host|] == ':')
      && |t.path| >= 1 && t.path[0] == '/'
      && (t.path == "/" || t.path == rest[|rest| - |t.path|..])
  {
    HostOfSplit(rest);
    PortOfSplit(rest);
    PathOfSplit(rest);
  }

  /** The path after a port is "/" or a suffix of the text starting at a '/'. */
  lemma PathOfTail(tail: string)
    requires |tail| >= 1
    ensures var path := PortAndPath(tail).1;
      |path| >= 1 && path[0] == '/' && (path == "/" || path == tail[|tail| - |path|..])
  {
    SpanIsMaximal(tail, NotSlash);
  }

  /** The same for the whole URL: the host is a leading piece of the URL
      after "http://", and the path is "/" or a suffix of the URL. */
  lemma UrlTargetShape(url: string)
    ensures var t := UrlTarget(url);
      && IsHost(t.host) && StartsWith(StripScheme(url), t.host)
      && (t.port != DefaultPort ==> |t.host| < |StripScheme(url)| && StripScheme(url)[|t.host|] == ':')
      && |t.path| >= 1 && t.path[0] == '/'
      && (t.path == "/" || t.path == url[|url| - |t.path|..])
  {
    HostOfSplit(StripScheme(url));
    PortOfSplit(StripScheme(url));
    PathOfUrl(url);
  }

  /** The path parse_request reads is "/" or a suffix of the URL. */
  lemma PathOfUrl(url: string)
    ensures var path := UrlTarget(url).path;
      |path| >= 1 && path[0] == '/' && (path == "/" || path == url[|url| - |path|..])
  {
    var rest := StripScheme(url);
    PathOfSplit(rest);
    var path := SplitHost(rest).path;
    assert rest == url[|url| - |rest|..];
    if path != "/" {
      SuffixOfSuffixes(url, rest, path);
    }
  }

  /** A suffix of a suffix of s is a suffix of s. */
  lemma SuffixOfSuffixes(s: string, t: string, u: string)
    requires |t| <= |s| && t == s[|s| - |t|..]
    requires |u| <= |t| && u == t[|t| - |u|..]
    ensures u == s[|s| - |u|..]
  {
    assert t[|t| - |u|..] == s[|s| - |u|..];
  }

  // -------------------------------------------------- method and cacheability

  /** is_valid_request: strcmp(method, "GET") == 0. */
  predicate IsValidRequest(verb: string) {
    verb == "GET"
  }

  /** strchr(s, c): where c first occurs in s. */
  function Strchr(s: string, c: char): (r: Option<nat>)
    ensures r.Some? ==> r.value < |s| && s[r.value] == c && c !in s[..r.value]
    ensures r.None? ==> c !in s
  {
    if s == [] then None
    else if s[0] == c then Some(0)
    else
      var r := Strchr(s[1..], c);
      if r.None? then None
      else
        assert s[..r.value + 1] == [s[0]] + s[1..][..r.value];
        Some(r.value + 1)
  }

  /** is_dynamic_content: the URL holds a '?'. */
  predicate IsDynamic(url: string) {
    Strchr(url, '?').Some?
  }

  /** A URL is dynamic exactly when it contains a '?'. */
  lemma DynamicIffQuery(url: string)
    ensures IsDynamic(url) <==> '?' in url
  {
    if '?' in url {
      var i :| 0 <= i < |url| && url[i] == '?';
      assert Strchr(url, '?').Some?;
    }
  }

  // ------------------------------------------------------------ cache key

  /** MD5_DIGEST_LENGTH. */
  const DigestLength := 16

  /** The lowercase hex digit "%x" prints for d. */
  function HexDigit(d: nat): (c: char)
    requires d < 16
  {
    if d < 10 then ('0' as int + d) as char else ('a' as int + d - 10) as char
  }

  predicate IsLowerHex(c: char) {
    '0' <= c <= '9' || 'a' <= c <= 'f'
  }

  /** The value of a lowercase hex digit. */
  function HexValue(c: char): (d: nat)
    requires IsLowerHex(c)
    ensures d < 16
  {
    if c <= '9' then c as int - '0' as int else c as int - 'a' as int + 10
  }

  /** "%02x" of one byte: its high then its low hex digit. */
  function HexPair(b: byte): string {
    [HexDigit(b / 16), HexDigit(b % 16)]
  }

  /** The digest rendered two hex digits per byte, in byte order. */
  function Hex(digest: seq<byte>): (key: string)
    ensures |key| == 2 * |digest|
  {
    if digest == [] then [] else Hex(digest[..|digest| - 1]) + HexPair(digest[|digest| - 1])
  }

  /** Reads a hex rendering back into bytes. */
  function Unhex(key: string): (digest: seq<byte>)
    requires |key| % 2 == 0
    requires forall i :: 0 <= i < |key| ==> IsLowerHex(key[i])
  {
    if key == [] then []
    else
      var init := key[..|key| - 2];
      Unhex(init) + [HexValue(key[|key| - 2]) * 16 + HexValue(key[|key| - 1])]
  }

  /** The loop of hashFunction: sprintf("%02x") of each digest byte into
      the 33-byte key, each call also writing the NUL after its pair. */
  method HashKey(digest: seq<byte>) returns (key: string)
    requires |digest| == DigestLength
    ensures key == Hex(digest)
  {
    var cacheKey := new char[2 * DigestLength + 1];
    for i := 0 to DigestLength
      invariant cacheKey[..2 * i] == Hex(digest[..i])
    {
      ghost var before := cacheKey[..2 * i];
      cacheKey[2 * i] := HexDigit(digest[i] / 16);
      cacheKey[2 * i + 1] := HexDigit(digest[i] % 16);
      cacheKey[2 * i + 2] := '\0';
      assert cacheKey[..2 * i + 2] == before + HexPair(digest[i]);
      assert digest[..i + 1][..i] == digest[..i];
    }
    assert digest[..DigestLength] == digest;
    key := cacheKey[..2 * DigestLength];
  }

  /** Every character of the key is a lowercase hex digit. */
  lemma {:induction false} HexIsLowercase(digest: seq<byte>)
    ensures forall i :: 0 <= i < |Hex(digest)| ==> IsLowerHex(Hex(digest)[i])
  {
    if digest != [] {
      HexIsLowercase(digest[..|digest| - 1]);
    }
  }

  /** Byte i of the digest is rendered at characters 2i and 2i+1, high
      digit first. */
  lemma {:induction false} HexByteOrder(digest: seq<byte>, i: nat)
    requires i < |digest|
    ensures Hex(digest)[2 * i] == HexDigit(digest[i] / 16)
    ensures Hex(digest)[2 * i + 1] == HexDigit(digest[i] % 16)
  {
    var init := digest[..|digest| - 1];
    if i < |init| {
      HexByteOrder(init, i);
    }
  }

  /** A hex digit reads back as the value it renders. */
  lemma HexValueOfDigit(d: nat)
    requires d < 16
    ensures IsLowerHex(HexDigit(d)) && HexValue(HexDigit(d)) == d
  {
  }

  /** The key determines the digest: reading it back gives the digest. */
  lemma {:induction false} UnhexHex(digest: seq<byte>)
    ensures |Hex(digest)| % 2 == 0
    ensures forall i :: 0 <= i < |Hex(digest)| ==> IsLowerHex(Hex(digest)[i])
    ensures Unhex(Hex(digest)) == digest
  {
    HexIsLowercase(digest);
    if digest != [] {
      var init := digest[..|digest| - 1];
      var b := digest[|digest| - 1];
      var key := Hex(digest);
      assert key[..|key| - 2] == Hex(init);
      UnhexHex(init);
      HexValueOfDigit(b / 16);
      HexValueOfDigit(b % 16);
      assert init + [b] == digest;
    }
  }

  /** An MD5 digest gives a 32-character key. */
  lemma KeyLength(digest: seq<byte>)
    requires |digest| == DigestLength
    ensures |Hex(digest)| == 32
  {
  }

  // ---------------------------------------------------------------- cache

  /** A cache file: when it was last written and what it holds. */
  datatype CacheEntry = CacheEntry(mtime: int, body: seq<byte>)

  /** The ./cache directory, by key. */
  type CacheDir = map<string, CacheEntry>

  /** checkCache: the file exists and is younger than the timeout, strictly. */
  predicate CheckCache(cache: CacheDir, key: string, now: int, timeout: int) {
    key in cache && now - cache[key].mtime < timeout
  }

  /** cacheResponse: the file is (over)written at time at with the body. */
  function CacheResponse(cache: CacheDir, key: string, body: seq<byte>, at: int): (after: CacheDir)
    ensures key in after && after[key] == CacheEntry(at, body)
    ensures forall k :: k in cache && k != key ==> k in after && after[k] == cache[k]
    ensures after.Keys == cache.Keys + {key}
  {
    cache[key := CacheEntry(at, body)]
  }

  /** A response written at time at is served from the cache exactly while
      less than timeout seconds have passed since. */
  lemma FreshUntilTimeout(cache: CacheDir, key: string, body: seq<byte>, at: int, now: int, timeout: int)
    ensures CheckCache(CacheResponse(cache, key, body, at), key, now, timeout) <==> now < at + timeout
  {
  }

  /** An entry that is fresh now was fresh at every earlier time too. */
  lemma FreshEarlier(cache: CacheDir, key: string, now: int, earlier: int, timeout: int)
    requires CheckCache(cache, key, now, timeout) && earlier <= now
    ensures CheckCache(cache, key, earlier, timeout)
  {
  }

  /** With a timeout of zero or less nothing is ever fresh from the moment
      it was written on. */
  lemma NoTimeoutNoHits(cache: CacheDir, key: string, now: int, timeout: int)
    requires timeout <= 0 && key in cache && now >= cache[key].mtime
    ensures !CheckCache(cache, key, now, timeout)
  {
  }

  // ------------------------------------------------------- response buffer

  /** The capacity after a read of received bytes: doubled past what is
      needed when the bytes do not fit, unchanged otherwise. */
  function Grown(capacity: nat, total: nat, received: nat): nat {
    if total + received > capacity then (total + received) * 2 else capacity
  }

  /** Growth leaves room for the bytes and stays within twice what the
      buffer then holds, as long as it was within twice before. */
  lemma GrownBounds(capacity: nat, total: nat, received: nat)
    requires total <= capacity <= 2 * total
    ensures total + received <= Grown(capacity, total, received) <= 2 * (total + received)
    ensures total + received <= capacity ==> Grown(capacity, total, received) == capacity
  {
  }

  /** full_response with its capacity and total_bytes; a capacity of zero
      stands for the NULL pointer it starts as. */
  class FullResponse {
    var buffer: array<byte>
    var total: nat

    /** The bytes held fit, and the capacity is at most twice them. */
    ghost predicate Valid()
      reads this, buffer
    {
      total <= buffer.Length <= 2 * total
    }

    /** The bytes accumulated so far. */
    function Contents(): seq<byte>
      reads this, buffer
      requires Valid()
    {
      buffer[..total]
    }

    constructor ()
      ensures Valid() && Contents() == [] && buffer.Length == 0
      ensures fresh(buffer)
    {
      buffer := new byte[0];
      total := 0;
    }

    /** One read's bytes: realloc to twice the need when they do not fit,
        then memcpy them after the bytes already held. */
    method Append(chunk: seq<byte>)
      requires Valid()
      modifies this, buffer
      ensures Valid()
      ensures Contents() == old(Contents()) + chunk
      ensures buffer.Length == Grown(old(buffer.Length), old(total), |chunk|)
      ensures buffer == old(buffer) || fresh(buffer)
    {
      if total + |chunk| > buffer.Length {
        var bigger := new byte[(total + |chunk|) * 2];
        forall j | 0 <= j < total {
          bigger[j] := buffer[j];
        }
        buffer := bigger;
      }
      forall j | 0 <= j < |chunk| {
        buffer[total + j] := chunk[j];
      }
      total := total + |chunk|;
    }
  }

  /** The origin's response as the loop reads it: the reads up to the
      first one that returns nothing. */
  function Stream(arrivals: seq<seq<byte>>): seq<byte> {
    if arrivals == [] || arrivals[0] == [] then [] else arrivals[0] + Stream(arrivals[1..])
  }

  /** The bytes of non-empty reads, all of them. */
  function Concat(arrivals: seq<seq<byte>>): seq<byte> {
    if arrivals == [] then [] else arrivals[0] + Concat(arrivals[1..])
  }

  /** Every byte read before the end of the stream is forwarded, and what
      comes after it is never read. */
  lemma {:induction false} StreamStopsAtEnd(arrivals: seq<seq<byte>>, later: seq<seq<byte>>)
    requires forall i :: 0 <= i < |arrivals| ==> arrivals[i] != []
    ensures Stream(arrivals + [[]] + later) == Concat(arrivals)
  {
    if arrivals != [] {
      assert (arrivals + [[]] + later)[1..] == arrivals[1..] + [[]] + later;
      StreamStopsAtEnd(arrivals[1..], later);
    }
  }

  /** The relay loop of handleClient: each read is sent to the client and,
      when the response may be cached, appended to full_response; the loop
      ends at the first read that returns nothing. What is stored is the
      buffer, when there is one. */
  method Relay(arrivals: seq<seq<byte>>, cacheable: bool) returns (forwarded: seq<byte>, stored: Option<seq<byte>>)
    ensures forwarded == Stream(arrivals)
    ensures stored == if cacheable && forwarded != [] then Some(forwarded) else None
  {
    var full := new FullResponse();
    forwarded := [];
    var i := 0;
    while i < |arrivals| && arrivals[i] != []
      invariant 0 <= i <= |arrivals|
      invariant forwarded + Stream(arrivals[i..]) == Stream(arrivals)
      invariant full.Valid() && fresh(full.buffer)
      invariant full.Contents() == if cacheable then forwarded else []
      decreases |arrivals| - i
    {
      assert arrivals[i..][1..] == arrivals[i + 1..];
      forwarded := forwarded + arrivals[i];
      if cacheable {
        full.Append(arrivals[i]);
      }
      i := i + 1;
    }
    stored := if cacheable && full.buffer.Length > 0 then Some(full.Contents()) else None;
  }

  // --------------------------------------------------------------- client

  /** The request the proxy sends to the origin. */
  function UpstreamRequest(path: string, host: string): string {
    "GET " + path + " HTTP/1.0\r\nHost: " + host + "\r\n\r\n"
  }

  /** What handleClient does for one connection. */
  datatype Served =
    | Dropped                                  // recv returned nothing
    | Rejected                                 // 400 Bad Request
    | FromCache(body: seq<byte>)               // a fresh cache file, sent back
    | Relayed(upstream: string, body: seq<byte>)  // the origin's response, forwarded

  /** handleClient as a function of its inputs: the request, the cache,
      the time of the lookup and the time the cache file is written, the
      timeout, MD5, and what the origin's socket returns read by read. */
  function Handle(request: string, cache: CacheDir, now: int, writtenAt: int, timeout: int,
                  md5: string -> seq<byte>, arrivals: seq<seq<byte>>): (Served, CacheDir)
  {
    if request == [] then (Dropped, cache)
    else
      var (verb, url) := RequestWords(request);
      if !IsValidRequest(verb) then (Rejected, cache)
      else
        var cacheable := !IsDynamic(url);
        var key := Hex(md5(url));
        if cacheable && CheckCache(cache, key, now, timeout) then (FromCache(cache[key].body), cache)
        else
          var t := UrlTarget(url);
          var body := Stream(arrivals);
          (Relayed(UpstreamRequest(t.path, t.host), body),
           if cacheable && body != [] then CacheResponse(cache, key, body, writtenAt) else cache)
  }

  /** handleClient: parse, reject what is not GET, answer a fresh cache
      hit for a static URL, and otherwise relay the origin's response and
      cache it when the URL is static. */
  method HandleClient(request: string, cache: CacheDir, now: int, writtenAt: int, timeout: int,
                      md5: string -> seq<byte>, arrivals: seq<seq<byte>>)
    returns (served: Served, after: CacheDir)
    requires forall url :: |md5(url)| == DigestLength
    ensures (served, after) == Handle(request, cache, now, writtenAt, timeout, md5, arrivals)
  {
    if |request| == 0 {
      return Dropped, cache;
    }
    var verb, url, host, port, path := ParseRequest(request);
    if !IsValidRequest(verb) {
      return Rejected, cache;
    }
    var shouldCache := !IsDynamic(url);
    var key := "";
    if shouldCache {
      key := HashKey(md5(url));
      if CheckCache(cache, key, now, timeout) {
        return FromCache(cache[key].body), cache;
      }
    }
    var upstream := UpstreamRequest(path, host);
    var forwarded, stored := Relay(arrivals, shouldCache);
    served := Relayed(upstream, forwarded);
    after := if stored.Some? then CacheResponse(cache, key, stored.value, writtenAt) else cache;
  }

  /** Only GET is served: any other method is answered 400 and nothing is
      looked up, fetched or cached. */
  lemma OnlyGetServed(request: string, cache: CacheDir, now: int, writtenAt: int, timeout: int,
                      md5: string -> seq<byte>, arrivals: seq<seq<byte>>)
    requires request != []
    ensures var (served, after) := Handle(request, cache, now, writtenAt, timeout, md5, arrivals);
      (served == Rejected <==> RequestWords(request).0 != "GET")
      && (served == Rejected ==> after == cache)
  {
  }

  /** A URL with a '?' is never answered from the cache and never stored. */
  lemma DynamicBypassesCache(request: string, cache: CacheDir, now: int, writtenAt: int, timeout: int,
                             md5: string -> seq<byte>, arrivals: seq<seq<byte>>)
    requires request != [] && '?' in RequestWords(request).1
    ensures var (served, after) := Handle(request, cache, now, writtenAt, timeout, md5, arrivals);
      !served.FromCache? && after == cache
  {
    DynamicIffQuery(RequestWords(request).1);
  }

  /** A static URL whose cache file is fresh is answered with that file,
      and the origin is not asked. */
  lemma FreshHitServed(request: string, cache: CacheDir, now: int, writtenAt: int, timeout: int,
                       md5: string -> seq<byte>, arrivals: seq<seq<byte>>)
    requires request != [] && RequestWords(request).0 == "GET" && '?' !in RequestWords(request).1
    requires CheckCache(cache, Hex(md5(RequestWords(request).1)), now, timeout)
    ensures Handle(request, cache, now, writtenAt, timeout, md5, arrivals)
      == (FromCache(cache[Hex(md5(RequestWords(request).1))].body), cache)
  {
    DynamicIffQuery(RequestWords(request).1);
  }

  /** On a miss for a static URL, the client receives the origin's
      response and the cache file then holds exactly those bytes. */
  lemma MissStoresWhatWasForwarded(request: string, cache: CacheDir, now: int, writtenAt: int, timeout: int,
                                   md5: string -> seq<byte>, arrivals: seq<seq<byte>>)
    requires request != [] && RequestWords(request).0 == "GET" && '?' !in RequestWords(request).1
    requires !CheckCache(cache, Hex(md5(RequestWords(request).1)), now, timeout)
    requires Stream(arrivals) != []
    ensures var (served, after) := Handle(request, cache, now, writtenAt, timeout, md5, arrivals);
      var key := Hex(md5(RequestWords(request).1));
      && served.Relayed? && served.body == Stream(arrivals)
      && key in after && after[key] == CacheEntry(writtenAt, served.body)
  {
    DynamicIffQuery(RequestWords(request).1);
  }

  /** A repeat of a request whose response was just cached is served from
      the cache, with the same bytes, until the timeout has passed. */
  lemma RepeatIsServedFromCache(request: string, cache: CacheDir, now: int, writtenAt: int, timeout: int,
                                md5: string -> seq<byte>, arrivals: seq<seq<byte>>,
                                later: int, writtenLater: int, reads2: seq<seq<byte>>)
    requires request != [] && RequestWords(request).0 == "GET" && '?' !in RequestWords(request).1
    requires !CheckCache(cache, Hex(md5(RequestWords(request).1)), now, timeout)
    requires Stream(arrivals) != [] && later < writtenAt + timeout
    ensures var (first, after) := Handle(request, cache, now, writtenAt, timeout, md5, arrivals);
      Handle(request, after, later, writtenLater, timeout, md5, reads2) == (FromCache(first.body), after)
  {
    var key := Hex(md5(RequestWords(request).1));
    MissStoresWhatWasForwarded(request, cache, now, writtenAt, timeout, md5, arrivals);
    var after := Handle(request, cache, now, writtenAt, timeout, md5, arrivals).1;
    assert CheckCache(after, key, later, timeout);
    FreshHitServed(request, after, later, writtenLater, timeout, md5, reads2);
  }

  /** The request sent to the origin names the path as its target, read
      as the proxy itself reads a request line. */
  lemma UpstreamRequestReadsBack(path: string, host: string)
    requires IsWord(path)
    ensures RequestWords(UpstreamRequest(path, host)) == ("GET", path)
  {
    var rest := " HTTP/1.0\r\nHost: " + host + "\r\n\r\n";
    assert UpstreamRequest(path, host) == "GET" + " " + path + rest;
    RequestWordsOfLine("GET", path, rest);
  }
}
