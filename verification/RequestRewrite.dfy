/** The proxy turns a request for an absolute URL into one for the path alone, in place, and lowers the
    version it claims (RFC 7230, sections 5.3.1 and 5.3.2). */
module RequestRewrite {
  import opened Wrappers
  import opened HttpText
  import opened ProxyConnection

  const VERSION_1_1 := "HTTP/1.1"
  const VERSION_2_0 := "HTTP/2.0"
  const VERSION_1_0 := "HTTP/1.0"

  // What the program relies on: a first space, and a slash at least eight characters further on.
  predicate Rewritable(b: string) {
    var sp := StrChr(b, ' ', 0);
    sp.Some? && sp.value + 8 <= |b| && StrChr(b, '/', sp.value + 8).Some?
  }

  function UrlStart(b: string): (sp: nat)
    requires Rewritable(b)
    ensures sp + 8 <= |b|
  {
    StrChr(b, ' ', 0).value
  }

  function HostEnd(b: string): (e: nat)
    requires Rewritable(b)
    ensures UrlStart(b) + 8 <= e < |b|
  {
    StrChr(b, '/', UrlStart(b) + 8).value
  }

  // The request without scheme and host.
  function Shortened(b: string): (m: string)
    requires Rewritable(b)
    ensures |m| == |b| - (HostEnd(b) - (UrlStart(b) + 1))
  {
    b[..UrlStart(b) + 1] + b[HostEnd(b)..]
  }

  // The whole memory after the move: behind the shortened request the old bytes are still there, and the
  // version searches see them.
  function Memory(b: string): (m: string)
    requires Rewritable(b)
    ensures |m| == |b| && m[..|Shortened(b)|] == Shortened(b)
  {
    Shortened(b) + b[|Shortened(b)|..]
  }

  // Lowering the version: one digit of each first match.
  function Lowered(m: string): (l: string)
    ensures |l| == |m|
  {
    var p := StrStr(m, VERSION_1_1, 0);
    var q := StrStr(m, VERSION_2_0, 0);
    var l := if p.Some? then m[p.value + 7 := '0'] else m;
    if q.Some? then l[q.value + 5 := '1'] else l
  }

  function Rewritten(b: string): (r: string)
    requires Rewritable(b)
    ensures |r| == |Shortened(b)|
  {
    Lowered(Memory(b))[..|Shortened(b)|]
  }

  /** editRequestToSendToServer. The allocation keeps its size; only bufferSize shrinks. */
  method EditRequestToSendToServer(connection: Connection)
    requires connection.Valid() && connection.bufferSize == connection.buffer.Length
    requires Rewritable(connection.buffer[..])
    modifies connection.buffer, connection`bufferSize
    ensures connection.Valid() && connection.buffer.Length == old(connection.bufferSize)
    ensures connection.Content() == Rewritten(old(connection.buffer[..]))
    ensures var b := old(connection.buffer[..]);
            connection.bufferSize == |b| - (HostEnd(b) - (UrlStart(b) + 1))
  {
    hide Lowered, Memory, Rewritten, Rewritable;
    ghost var b := connection.buffer[..];
    connection.bufferSize := CutHost(connection.buffer);
    LowerVersion(connection.buffer);
    RewrittenIsPrefix(b, connection.buffer[..]);
  }

  // The searches and the move.
  method CutHost(buffer: array<char>) returns (size: nat)
    requires Rewritable(buffer[..])
    modifies buffer
    ensures buffer[..] == Memory(old(buffer[..]))
    ensures size == |Shortened(old(buffer[..]))|
  {
    hide StrChr, Memory, MovedDown, Shortened;
    ghost var b := buffer[..];
    MoveLeavesMemory(b);
    var startUrl := StrChr(buffer[..], ' ', 0).value;
    var endHost := StrChr(buffer[..], '/', startUrl + 8).value;
    MemMove(buffer, startUrl + 1, endHost, buffer.Length - endHost);
    size := buffer.Length - (endHost - (startUrl + 1));
  }

  lemma RewrittenIsPrefix(b: string, m: string)
    requires Rewritable(b) && m == Lowered(Memory(b))
    ensures |m| == |b| && m[..|Shortened(b)|] == Rewritten(b)
  {
  }

  lemma MoveLeavesMemory(b: string)
    requires Rewritable(b)
    ensures MovedDown(b, UrlStart(b) + 1, HostEnd(b)) == Memory(b)
  {
  }

  // The bytes from src on moved to dest; those behind them stay.
  function MovedDown(b: string, dest: nat, src: nat): (m: string)
    requires dest <= src <= |b|
    ensures |m| == |b|
  {
    b[..dest] + b[src..] + b[dest + (|b| - src)..]
  }

  method MemMove(buffer: array<char>, dest: nat, src: nat, n: nat)
    requires dest <= src && src + n == buffer.Length
    modifies buffer
    ensures buffer[..] == MovedDown(old(buffer[..]), dest, src)
  {
    forall k | 0 <= k < n {
      buffer[dest + k] := buffer[src + k];
    }
  }

  method LowerVersion(buffer: array<char>)
    modifies buffer
    ensures buffer[..] == Lowered(old(buffer[..]))
  {
    var protocol11 := StrStr(buffer[..], VERSION_1_1, 0);
    var protocol20 := StrStr(buffer[..], VERSION_2_0, 0);
    if protocol11.Some? {
      buffer[protocol11.value + 7] := '0';
    }
    if protocol20.Some? {
      buffer[protocol20.value + 5] := '1';
    }
  }

  // ----- what the rewriting means for a request

  function Request(host: string, path: string, more: string): string {
    "GET " + ("http://" + (host + (path + (" " + more))))
  }

  lemma Layout(host: string, path: string, more: string)
    ensures var b := Request(host, path, more);
            && |b| == 12 + |host| + |path| + |more|
            && b[..4] == "GET " && b[4..11] == "http://" && b[11..11 + |host|] == host
            && b[11 + |host|..11 + |host| + |path|] == path
            && b[11 + |host|..] == path + " " + more
  {
    var b := Request(host, path, more);
    assert b[4..] == "http://" + (host + (path + (" " + more)));
    assert b[11..] == host + (path + (" " + more));
    assert b[11 + |host|..] == path + (" " + more) == path + " " + more;
  }

  lemma FindsHostEnd(b: string, host: string)
    requires |b| > 11 + |host| && b[..4] == "GET " && b[11..11 + |host|] == host
    requires '/' !in host && b[11 + |host|] == '/'
    ensures Rewritable(b) && UrlStart(b) == 3 && HostEnd(b) == 11 + |host|
  {
    assert b[0] == b[..4][0] && b[1] == b[..4][1] && b[2] == b[..4][2] && b[3] == b[..4][3];
    StrChrIs(b, ' ', 0, 3);
    forall j | 11 <= j < 11 + |host| ensures b[j] != '/' {
      assert b[j] == b[11..11 + |host|][j - 11];
    }
    StrChrIs(b, '/', 11, 11 + |host|);
  }

  lemma FindsUrl(b: string, url: string)
    requires |b| > 4 + |url| && b[..4] == "GET " && b[4..4 + |url|] == url && ' ' !in url && b[4 + |url|] == ' '
    ensures GetUrlFromData(b) == Some(url)
  {
    assert b[0] == b[..4][0] && b[1] == b[..4][1] && b[2] == b[..4][2] && b[3] == b[..4][3];
    StrChrIs(b, ' ', 0, 3);
    forall j | 4 <= j < 4 + |url| ensures b[j] != ' ' {
      assert b[j] == b[4..4 + |url|][j - 4];
    }
    StrChrIs(b, ' ', 4, 4 + |url|);
  }

  lemma FindsHost(host: string, path: string)
    requires '/' !in host && |path| > 0 && path[0] == '/'
    ensures GetHostFromUrl("http://" + host + path) == Some(host)
  {
    var url := "http://" + host + path;
    assert url[7..7 + |host|] == host;
    forall j | 7 <= j < 7 + |host| ensures url[j] != '/' {
      assert url[j] == host[j - 7];
    }
    StrChrIs(url, '/', 7, 7 + |host|);
  }

  /** A request for "http://" host path: the host is exactly what GetHostFromUrl extracts from the URL, and
      scheme and host are exactly what is removed. */
  lemma RemovesSchemeAndHost(host: string, path: string, more: string)
    requires ' ' !in host && '/' !in host && ' ' !in path && |path| > 0 && path[0] == '/'
    ensures var b := Request(host, path, more);
            && Rewritable(b)
            && GetUrlFromData(b) == Some("http://" + host + path)
            && GetHostFromUrl("http://" + host + path) == Some(host)
            && Shortened(b) == "GET " + path + " " + more
            && |Shortened(b)| == |b| - (7 + |host|)
  {
    hide StrChr, Request, GetUrlFromData, GetHostFromUrl, Rewritable;
    var b := Request(host, path, more);
    var url := "http://" + host + path;
    Layout(host, path, more);
    assert b[11 + |host|..][0] == '/' && b[11 + |host|..][|path|] == ' ';
    FindsHostEnd(b, host);
    assert b[4..4 + |url|] == b[4..11] + b[11..11 + |host|] + b[11 + |host|..11 + |host| + |path|];
    FindsUrl(b, url);
    FindsHost(host, path);
    assert Shortened(b) == "GET " + (path + " " + more);
  }

  /** For every buffer in which the two extractors find a URL and a host, which is all the program gets as far
      as rewriting: exactly scheme and host are cut out, and the URL that is left is the path. */
  lemma RewritesToPath(b: string, url: string, host: string)
    requires GetUrlFromData(b) == Some(url) && GetHostFromUrl(url) == Some(host)
    ensures Rewritable(b)
    ensures Shortened(b) == b[..UrlStart(b) + 1] + b[UrlStart(b) + 8 + |host|..]
    ensures url[7..7 + |host|] == host && GetUrlFromData(Shortened(b)) == Some(url[7 + |host|..])
  {
    hide StrChr, GetUrlFromData, GetHostFromUrl;
    var sp, end := UrlSpan(b, url);
    var k := 7 + |host|;
    HostSpan(url, host);
    assert b[sp + 1 + k] == url[k];
    forall j | sp + 8 <= j < sp + 1 + k ensures b[j] != '/' {
      assert b[j] == url[j - sp - 1];
    }
    StrChrIs(b, '/', sp + 8, sp + 1 + k);
    CutLeavesPath(b, sp, end, k);
    assert b[sp + 1 + k..end] == url[k..];
  }

  lemma UrlSpan(b: string, url: string) returns (sp: nat, end: nat)
    requires GetUrlFromData(b) == Some(url)
    ensures StrChr(b, ' ', 0) == Some(sp) && sp < end < |b| && url == b[sp + 1..end] && b[sp] == ' ' && b[end] == ' '
    ensures forall j :: 0 <= j < end && j != sp ==> b[j] != ' '
  {
    sp := StrChr(b, ' ', 0).value;
    end := StrChr(b, ' ', sp + 1).value;
  }

  lemma HostSpan(url: string, host: string)
    requires GetHostFromUrl(url) == Some(host)
    ensures 7 + |host| < |url| && url[7..7 + |host|] == host && url[7 + |host|] == '/'
    ensures forall j :: 7 <= j < 7 + |host| ==> url[j] != '/'
  {
  }

  lemma CutLeavesPath(b: string, sp: nat, end: nat, k: nat)
    requires sp + k < end < |b| && b[sp] == ' ' && b[end] == ' '
    requires forall j :: 0 <= j < end && j != sp ==> b[j] != ' '
    ensures GetUrlFromData(b[..sp + 1] + b[sp + 1 + k..]) == Some(b[sp + 1 + k..end])
  {
    var m := b[..sp + 1] + b[sp + 1 + k..];
    FirstTwoSpaces(m, sp, end - k);
    assert m[sp + 1..end - k] == b[sp + 1 + k..end];
  }

  lemma FirstTwoSpaces(m: string, sp: nat, end: nat)
    requires sp < end < |m| && m[sp] == ' ' && m[end] == ' '
    requires forall j :: 0 <= j < end && j != sp ==> m[j] != ' '
    ensures GetUrlFromData(m) == Some(m[sp + 1..end])
  {
    StrChrIs(m, ' ', 0, sp);
    StrChrIs(m, ' ', sp + 1, end);
  }

  /** Taken by itself, whatever URL it is called with: the cut stays inside the URL, and removes exactly scheme
      and host, if and only if the URL has a slash after its host; otherwise the slash found lies in what
      follows the URL and the URL is lost whole. */
  lemma CutStaysInUrlIff(b: string, url: string)
    requires |b| > 4 + |url| && b[..4] == "GET " && b[4..4 + |url|] == url && ' ' !in url && b[4 + |url|] == ' '
    requires |url| >= 7 && Rewritable(b)
    ensures GetUrlFromData(b) == Some(url)
    ensures HostEnd(b) < 4 + |url| <==> GetHostFromUrl(url).Some?
    ensures GetHostFromUrl(url).Some? ==> HostEnd(b) == 4 + 7 + |GetHostFromUrl(url).value|
    ensures GetHostFromUrl(url).None? ==> Shortened(b) == "GET " + b[HostEnd(b)..] && HostEnd(b) > 4 + |url|
  {
    FindsUrl(b, url);
    assert b[0] == b[..4][0] && b[1] == b[..4][1] && b[2] == b[..4][2] && b[3] == b[..4][3];
    StrChrIs(b, ' ', 0, 3);
    assert forall j :: 0 <= j < |url| ==> url[j] == b[4..4 + |url|][j] == b[4 + j];
    var e := StrChr(url, '/', 7);
    if e.Some? {
      assert forall j :: 11 <= j < 4 + e.value ==> b[j] == url[j - 4];
      StrChrIs(b, '/', 11, 4 + e.value);
    } else {
      assert forall j :: 11 <= j < 4 + |url| ==> b[j] == url[j - 4];
    }
  }

  // ----- what lowering the version changes

  /** Besides one digit of each version match, the rewritten request is the shortened one. */
  lemma OnlyVersionDigitsDiffer(b: string, k: nat)
    requires Rewritable(b) && k < |Shortened(b)|
    ensures var p, q := StrStr(Memory(b), VERSION_1_1, 0), StrStr(Memory(b), VERSION_2_0, 0);
            || Rewritten(b)[k] == Shortened(b)[k]
            || (Rewritten(b)[k] == '0' && p.Some? && k == p.value + 7)
            || (Rewritten(b)[k] == '1' && q.Some? && k == q.value + 5)
  {
    assert Memory(b)[k] == Shortened(b)[k];
    assert Rewritten(b)[k] == Lowered(Memory(b))[k];
  }

  // A version token contains 'H' only at its start, so two matches never overlap.
  lemma MatchesDoNotOverlap(m: string, i: nat, j: nat, p: string, q: string)
    requires p in {VERSION_1_1, VERSION_2_0, VERSION_1_0} && q in {VERSION_1_1, VERSION_2_0, VERSION_1_0}
    requires i < j < i + 8 && Matches(m, i, p)
    ensures !Matches(m, j, q)
  {
    assert m[j] == m[i..i + 8][j - i];
  }

  // A match of either version before the token's place in the request line lies inside the path.
  lemma EarlierMatchIsInPath(m: string, path: string, ver: string, p: string, k: nat)
    requires ver in {VERSION_1_1, VERSION_2_0} && p in {VERSION_1_1, VERSION_2_0}
    requires |m| >= 13 + |path| && m[..4] == "GET " && m[4..4 + |path|] == path && m[4 + |path|] == ' '
    requires Matches(m, 5 + |path|, ver) && k < 5 + |path|
    ensures Matches(m, k, p) <==> k >= 4 && Matches(path, k - 4, p)
  {
    if 4 <= k <= |path| - 4 {
      SlicesAgree(m, path, k);
    } else {
      forall i: nat | i < 4 ensures m[i] != 'H' {
        assert m[i] == m[..4][i];
      }
      if Matches(m, k, p) {
        TokenChars(m, k, p);
        OtherMatchIsFar(m, k, 5 + |path|, p, ver);
        assert false;
      }
    }
  }

  lemma TokenChars(m: string, k: nat, p: string)
    requires p in {VERSION_1_1, VERSION_2_0, VERSION_1_0} && Matches(m, k, p)
    ensures k + 8 <= |m| && m[k] == 'H' && m[k + 5] == p[5] && m[k + 7] == p[7] != ' '
  {
    assert m[k] == m[k..k + 8][0] && m[k + 5] == m[k..k + 8][5] && m[k + 7] == m[k..k + 8][7];
  }

  lemma SlicesAgree(m: string, path: string, k: nat)
    requires |m| >= 4 + |path| && m[4..4 + |path|] == path && 4 <= k <= |path| - 4
    ensures m[k..k + 8] == path[k - 4..k + 4]
  {
    forall j | k <= j < k + 8 ensures m[j] == path[j - 4] {
      assert m[j] == m[4..4 + |path|][j - 4];
    }
  }

  lemma OtherMatchIsFar(m: string, i: nat, j: nat, p: string, q: string)
    requires p in {VERSION_1_1, VERSION_2_0, VERSION_1_0} && q in {VERSION_1_1, VERSION_2_0, VERSION_1_0}
    requires Matches(m, i, p) && Matches(m, j, q) && i != j
    ensures i + 8 <= j || j + 8 <= i
  {
    if i < j < i + 8 { MatchesDoNotOverlap(m, i, j, p, q); }
    if j < i < j + 8 { MatchesDoNotOverlap(m, j, i, q, p); }
  }

  // Lowering changes a token exactly when it is the first match of its version.
  lemma TokenAfterLowering(m: string, ver: string, v: nat)
    requires ver in {VERSION_1_1, VERSION_2_0} && Matches(m, v, ver)
    ensures Lowered(m)[v..v + 8] == if StrStr(m, ver, 0) == Some(v) then VERSION_1_0 else ver
  {
    hide Lowered, StrStr;
    var l := if StrStr(m, ver, 0) == Some(v) then VERSION_1_0 else ver;
    assert m[v..v + 8] == ver;
    forall k | v <= k < v + 8 ensures Lowered(m)[k] == l[k - v] {
      LoweredDiffersIff(m, ver, k);
      OverwritesInToken(m, ver, v, ver, k);
      OverwritesInToken(m, ver, v, Other(ver), k);
      assert m[k] == ver[k - v];
    }
    assert Lowered(m)[v..v + 8] == l;
  }

  // The digits overwritten inside a token are those of the token itself, if it is the first of its version.
  lemma OverwritesInToken(m: string, ver: string, v: nat, p: string, k: nat)
    requires ver in {VERSION_1_1, VERSION_2_0} && p in {VERSION_1_1, VERSION_2_0}
    requires Matches(m, v, ver) && v <= k < v + 8
    ensures Overwrites(m, p, k) <==> p == ver && StrStr(m, ver, 0) == Some(v) && k == v + Digit(ver)
  {
    hide StrStr;
    var f := StrStr(m, p, 0);
    if f.Some? && f.value != v { OtherMatchIsFar(m, f.value, v, p, ver); }
  }

  /** The request line ends up claiming HTTP/1.0 if and only if its path does not itself contain the version
      token; if it does, the path is altered instead. */
  lemma VersionLoweredIff(host: string, path: string, ver: string, tail: string)
    requires ' ' !in host && '/' !in host && ' ' !in path && |path| > 0 && path[0] == '/'
    requires ver in {VERSION_1_1, VERSION_2_0}
    ensures var b := Request(host, path, ver + tail);
            && Rewritable(b)
            && |Rewritten(b)| >= 13 + |path|
            && (Rewritten(b)[5 + |path|..13 + |path|] == VERSION_1_0 <==> StrStr(path, ver, 0).None?)
  {
    hide Lowered, Matches, StrStr, StrChr, Request, Rewritable, Memory, Shortened;
    var b := Request(host, path, ver + tail);
    var v := 5 + |path|;
    RemovesSchemeAndHost(host, path, ver + tail);
    var m := Memory(b);
    TokenInPlace(m, path, ver, tail);
    TokenAfterLowering(m, ver, v);
    PrefixSlice(Lowered(m), |Shortened(b)|, v, v + 8);
    FirstMatchIff(m, path, ver);
  }

  /** A request whose version stays: the path's own token is lowered in its place. */
  lemma PathLosesItsVersion(host: string, tail: string)
    requires ' ' !in host && '/' !in host
    ensures var b := Request(host, "/HTTP/1.1", "HTTP/1.1" + tail);
            && Rewritable(b) && |Rewritten(b)| >= 22
            && Rewritten(b)[..22] == "GET /HTTP/1.0 HTTP/1.1"
  {
    hide Lowered, StrStr, StrChr, Request, Rewritable, Memory, Shortened, Matches;
    var b := Request(host, "/HTTP/1.1", "HTTP/1.1" + tail);
    RemovesSchemeAndHost(host, "/HTTP/1.1", "HTTP/1.1" + tail);
    Prefix("GET " + "/HTTP/1.1" + " ", "HTTP/1.1", tail);
    var m := Memory(b);
    assert m[..22] == Shortened(b)[..22];
    OnlyFirstLowered(m);
    assert Rewritten(b)[..22] == Lowered(m)[..22];
  }

  lemma Prefix(s: string, t: string, u: string)
    ensures (s + (t + u))[..|s| + |t|] == s + t
  {
  }

  lemma OnlyFirstLowered(m: string)
    requires |m| >= 22 && m[..22] == "GET /HTTP/1.1 HTTP/1.1"
    ensures Lowered(m)[..22] == "GET /HTTP/1.0 HTTP/1.1"
  {
    hide StrStr;
    forall j: nat | j < 22 ensures m[j] == "GET /HTTP/1.1 HTTP/1.1"[j] {
      assert m[j] == m[..22][j];
    }
    assert m[5..13] == m[..22][5..13] == VERSION_1_1;
    forall j: nat | j < 5 ensures !Matches(m, j, VERSION_1_1) {
      assert j + 8 <= |m| ==> m[j..j + 8][0] == m[j];
    }
    StrStrIs(m, VERSION_1_1, 5);
    var q := StrStr(m, VERSION_2_0, 0);
    forall j: nat | j < 22 ensures !Matches(m, j, VERSION_2_0) {
      assert j + 8 <= |m| ==> m[j..j + 8][0] == m[j] && m[j..j + 8][5] == m[j + 5];
    }
  }

  lemma TokenInPlace(m: string, path: string, ver: string, tail: string)
    requires |ver| == 8 && |m| >= 13 + |path| + |tail|
    requires m[..13 + |path| + |tail|] == "GET " + path + " " + (ver + tail)
    ensures m[..4] == "GET " && m[4..4 + |path|] == path && m[4 + |path|] == ' ' && Matches(m, 5 + |path|, ver)
  {
    var s := "GET " + path + " " + (ver + tail);
    assert s[..4] == "GET " && s[4..4 + |path|] == path && s[4 + |path|] == ' ' && s[5 + |path|..13 + |path|] == ver;
    assert m[..4] == s[..4] && m[4..4 + |path|] == s[4..4 + |path|] && m[4 + |path|] == s[4 + |path|];
    assert m[5 + |path|..13 + |path|] == s[5 + |path|..13 + |path|];
  }

  lemma FirstMatchIff(m: string, path: string, ver: string)
    requires ver in {VERSION_1_1, VERSION_2_0}
    requires |m| >= 13 + |path| && m[..4] == "GET " && m[4..4 + |path|] == path && m[4 + |path|] == ' '
    requires Matches(m, 5 + |path|, ver)
    ensures StrStr(m, ver, 0) == Some(5 + |path|) <==> StrStr(path, ver, 0).None?
  {
    var v := 5 + |path|;
    forall k: nat | k < v ensures Matches(m, k, ver) <==> k >= 4 && Matches(path, k - 4, ver) {
      EarlierMatchIsInPath(m, path, ver, ver, k);
    }
    var r := StrStr(path, ver, 0);
    if r.None? {
      StrStrIs(m, ver, v);
    } else {
      assert Matches(m, r.value + 4, ver);
    }
  }

  // ----- the whole request

  // Which digit of a version match is overwritten, and with what.
  function Digit(ver: string): nat {
    if ver == VERSION_1_1 then 7 else 5
  }

  function NewDigit(ver: string): char {
    if ver == VERSION_1_1 then '0' else '1'
  }

  function Other(ver: string): (o: string)
    ensures ver in {VERSION_1_1, VERSION_2_0} ==> o in {VERSION_1_1, VERSION_2_0} && o != ver
  {
    if ver == VERSION_1_1 then VERSION_2_0 else VERSION_1_1
  }

  // The digit at k is one that the first match of ver has overwritten.
  predicate Overwrites(m: string, ver: string, k: nat) {
    var f := StrStr(m, ver, 0);
    f.Some? && k == f.value + Digit(ver)
  }

  lemma OverwrittenDigit(m: string, ver: string, k: nat)
    requires ver in {VERSION_1_1, VERSION_2_0} && Overwrites(m, ver, k)
    ensures k < |m| && m[k] == (if ver == VERSION_1_1 then '1' else '2')
  {
    var f := StrStr(m, ver, 0).value;
    assert m[f..f + 8][Digit(ver)] == m[k];
  }

  lemma LoweredAt(m: string, k: nat)
    requires k < |m|
    ensures Lowered(m)[k] == if Overwrites(m, VERSION_2_0, k) then '1'
                             else if Overwrites(m, VERSION_1_1, k) then '0'
                             else m[k]
  {
  }

  // Exactly the overwritten digits differ.
  lemma LoweredDiffersIff(m: string, ver: string, k: nat)
    requires ver in {VERSION_1_1, VERSION_2_0} && k < |m|
    ensures Overwrites(m, ver, k) ==> Lowered(m)[k] == NewDigit(ver) != m[k] && !Overwrites(m, Other(ver), k)
    ensures Lowered(m)[k] == m[k] <==> !Overwrites(m, ver, k) && !Overwrites(m, Other(ver), k)
  {
    hide Lowered, Overwrites;
    LoweredAt(m, k);
    if Overwrites(m, ver, k) { OverwrittenDigit(m, ver, k); }
    if Overwrites(m, Other(ver), k) { OverwrittenDigit(m, Other(ver), k); }
  }

  /** The first n bytes come out with just the token at v lowered, if and only if it is the first match of its
      version and no digit before n belongs to the first match of the other. */
  lemma OnlyTokenLoweredIff(m: string, n: nat, ver: string, v: nat)
    requires ver in {VERSION_1_1, VERSION_2_0} && v + 8 <= n <= |m| && Matches(m, v, ver)
    ensures Lowered(m)[..n] == m[..n][v + Digit(ver) := NewDigit(ver)]
            <==> StrStr(m, ver, 0) == Some(v) && !exists k: nat :: k < n && Overwrites(m, Other(ver), k)
  {
    hide Lowered, StrStr, Matches;
    var target := m[..n][v + Digit(ver) := NewDigit(ver)];
    var first := StrStr(m, ver, 0);
    assert first.Some? && first.value <= v by { FirstMatchAtMost(m, ver, v); }
    var d := first.value + Digit(ver);
    assert Overwrites(m, ver, d);
    LoweredDiffersIff(m, ver, d);
    if first.value == v {
      forall k: nat | k < n
        ensures Lowered(m)[..n][k] == target[k] <==> !Overwrites(m, Other(ver), k) {
        LoweredDiffersIff(m, ver, k);
      }
      SameIff(Lowered(m)[..n], target);
    } else {
      assert Lowered(m)[..n][d] != target[d];
    }
  }

  lemma SameIff(s: string, t: string)
    requires |s| == |t|
    ensures s == t <==> forall k: nat :: k < |s| ==> s[k] == t[k]
  {
  }

  lemma FirstMatchAtMost(m: string, pat: string, v: nat)
    requires Matches(m, v, pat)
    ensures StrStr(m, pat, 0).Some? && StrStr(m, pat, 0).value <= v
  {
  }

  // A match of the other version lies in the path or behind the token.
  lemma OtherMatchPlace(m: string, path: string, ver: string, rest: string, k: nat)
    requires ver in {VERSION_1_1, VERSION_2_0}
    requires |m| == 13 + |path| + |rest| && m[..4] == "GET " && m[4..4 + |path|] == path && m[4 + |path|] == ' '
    requires Matches(m, 5 + |path|, ver) && m[13 + |path|..] == rest
    ensures Matches(m, k, Other(ver)) <==>
              if k < 13 + |path| then k >= 4 && Matches(path, k - 4, Other(ver))
              else Matches(rest, k - 13 - |path|, Other(ver))
  {
    var v := 5 + |path|;
    if k < v {
      EarlierMatchIsInPath(m, path, ver, Other(ver), k);
    } else if k < v + 8 {
      if Matches(m, k, Other(ver)) { OtherMatchIsFar2(m, v, k, ver); }
    } else {
      assert k + 8 <= |m| ==> m[k..k + 8] == rest[k - v - 8..k - v];
    }
  }

  lemma OtherMatchIsFar2(m: string, v: nat, k: nat, ver: string)
    requires ver in {VERSION_1_1, VERSION_2_0} && Matches(m, v, ver) && Matches(m, k, Other(ver))
    ensures v + 8 <= k || k + 8 <= v
  {
    if v != k { OtherMatchIsFar(m, v, k, ver, Other(ver)); }
  }

  // No digit of the tail belongs to a match of the version, in the tail and what lies behind it in memory.
  ghost predicate TailKept(tail: string, behind: string, ver: string) {
    forall j: nat :: j + Digit(ver) < |tail| ==> !Matches(tail + behind, j, ver)
  }

  lemma NoneOverwrittenIff(m: string, path: string, ver: string, tail: string, behind: string)
    requires ver in {VERSION_1_1, VERSION_2_0}
    requires |m| == 13 + |path| + |tail + behind| && Matches(m, 5 + |path|, ver)
    requires m[..4] == "GET " && m[4..4 + |path|] == path && m[4 + |path|] == ' ' && m[13 + |path|..] == tail + behind
    ensures (!exists k: nat :: k < 13 + |path| + |tail| && Overwrites(m, Other(ver), k))
            <==> StrStr(path, Other(ver), 0).None? && TailKept(tail, behind, Other(ver))
  {
    hide Matches, StrStr, Digit;
    var o, n := Other(ver), 13 + |path| + |tail|;
    if k: nat :| k < n && Overwrites(m, o, k) {
      var f := StrStr(m, o, 0).value;
      OtherMatchPlace(m, path, ver, tail + behind, f);
      if f < 13 + |path| {
        FirstMatchAtMost(path, o, f - 4);
      } else {
        assert Matches(tail + behind, f - 13 - |path|, o);
      }
    } else {
      if StrStr(path, o, 0).Some? {
        var p := StrStr(path, o, 0).value;
        TokenChars(path, p, o);
        OtherMatchPlace(m, path, ver, tail + behind, p + 4);
        DigitInToken(o);
        OverwrittenBefore(m, o, p + 4, n);
      }
      forall j: nat | j + Digit(o) < |tail| ensures !Matches(tail + behind, j, o) {
        if Matches(tail + behind, j, o) {
          OtherMatchPlace(m, path, ver, tail + behind, 13 + |path| + j);
          OverwrittenBefore(m, o, 13 + |path| + j, n);
        }
      }
    }
  }

  lemma DigitInToken(ver: string)
    ensures Digit(ver) < 8
  {
  }

  // A match whose digit lies before n makes the first match overwrite a digit before n.
  lemma OverwrittenBefore(m: string, ver: string, f: nat, n: nat)
    requires Matches(m, f, ver) && f + Digit(ver) < n
    ensures exists k: nat :: k < n && Overwrites(m, ver, k)
  {
    FirstMatchAtMost(m, ver, f);
    assert Overwrites(m, ver, StrStr(m, ver, 0).value + Digit(ver));
  }

  lemma LoweredRequest(path: string, ver: string, tail: string)
    requires ver in {VERSION_1_1, VERSION_2_0}
    ensures ("GET " + path + " " + (ver + tail))[5 + |path| + Digit(ver) := NewDigit(ver)]
            == "GET " + path + " " + (VERSION_1_0 + tail)
  {
    var front := "GET " + path + " ";
    assert (ver + tail)[Digit(ver) := NewDigit(ver)] == VERSION_1_0 + tail by {
      assert ver[Digit(ver) := NewDigit(ver)] == VERSION_1_0;
      assert (ver + tail)[Digit(ver) := NewDigit(ver)] == ver[Digit(ver) := NewDigit(ver)] + tail;
    }
    UpdateBehind(front, ver + tail, Digit(ver), NewDigit(ver));
  }

  lemma UpdateBehind(front: string, s: string, k: nat, x: char)
    requires k < |s|
    ensures (front + s)[|front| + k := x] == front + s[k := x]
  {
  }

  // What the move leaves in memory.
  lemma MemoryParts(host: string, path: string, ver: string, tail: string)
    requires ' ' !in host && '/' !in host && ' ' !in path && |path| > 0 && path[0] == '/'
    requires ver in {VERSION_1_1, VERSION_2_0}
    ensures var b := Request(host, path, ver + tail);
            var front := "GET " + path + " " + (ver + tail);
            && Rewritable(b) && |b| == |front| + 7 + |host|
            && Shortened(b) == front && Memory(b) == front + b[|front|..]
  {
    hide StrChr, Request, Rewritable, Shortened;
    RemovesSchemeAndHost(host, path, ver + tail);
  }

  lemma PrefixSlice(s: string, n: nat, i: nat, j: nat)
    requires i <= j <= n <= |s|
    ensures s[..n][i..j] == s[i..j]
  {
  }

  lemma FrontParts(path: string, ver: string, tail: string, behind: string)
    requires ver in {VERSION_1_1, VERSION_2_0}
    ensures var front := "GET " + path + " " + (ver + tail);
            var m := front + behind;
            && |front| == 13 + |path| + |tail| && m[..|front|] == front
            && m[..4] == "GET " && m[4..4 + |path|] == path && m[4 + |path|] == ' '
            && Matches(m, 5 + |path|, ver) && m[13 + |path|..] == tail + behind
  {
    var line, rest := "GET " + path + " ", tail + behind;
    var m := line + (ver + tail) + behind;
    Regroup(line, ver + tail, behind);
    Regroup(ver, tail, behind);
    Regroup(line, ver, rest);
    Middle(line, ver, rest);
    Middle("GET ", path, " ");
    PrefixSlice(m, |line|, 0, 4);
    PrefixSlice(m, |line|, 4, 4 + |path|);
    assert m[4 + |path|] == m[..|line|][4 + |path|] == line[4 + |path|..][0];
  }

  /** The whole request comes out as it should, with its path and everything behind the version unchanged, if
      and only if its path contains neither version token and no digit of the rest belongs to the other one.
      The rest is searched together with the bytes that the move has left behind it: the last of the request,
      as many as were cut. */
  lemma RequestRewrittenIff(host: string, path: string, ver: string, tail: string)
    requires ' ' !in host && '/' !in host && ' ' !in path && |path| > 0 && path[0] == '/'
    requires ver in {VERSION_1_1, VERSION_2_0}
    ensures var b := Request(host, path, ver + tail);
            && Rewritable(b) && |b| >= 7 + |host|
            && (Rewritten(b) == "GET " + path + " " + (VERSION_1_0 + tail)
                <==> && StrStr(path, ver, 0).None? && StrStr(path, Other(ver), 0).None?
                     && TailKept(tail, b[|b| - 7 - |host|..], Other(ver)))
  {
    hide Lowered, Matches, StrStr, StrChr, Request, Rewritable, Memory, Shortened, Overwrites, TailKept, Digit;
    var b := Request(host, path, ver + tail);
    var front := "GET " + path + " " + (ver + tail);
    MemoryParts(host, path, ver, tail);
    var behind := b[|b| - 7 - |host|..];
    FrontParts(path, ver, tail, behind);
    OnlyTokenLoweredIff(Memory(b), |front|, ver, 5 + |path|);
    LoweredRequest(path, ver, tail);
    FirstMatchIff(Memory(b), path, ver);
    NoneOverwrittenIff(Memory(b), path, ver, tail, behind);
  }

  /** A request whose rest changes although neither its path nor its rest contains the other token: the bytes
      behind it in memory complete one. */
  lemma RestLosesItsDigit()
    ensures var b, tail := Request("h", "/", VERSION_1_1 + ".0HTTP/2"), ".0HTTP/2";
            && Rewritable(b) && StrStr(tail, VERSION_1_1, 0).None? && StrStr(tail, VERSION_2_0, 0).None?
            && Rewritten(b) != "GET " + "/" + " " + (VERSION_1_0 + tail)
  {
    hide Rewritten, Request, Rewritable, StrStr;
    var tail := ".0HTTP/2";
    RequestRewrittenIff("h", "/", VERSION_1_1, tail);
    MemoryBehind(tail);
    NoTokenAt(tail);
    assert (tail + tail)[2..10] == VERSION_2_0;
    assert Matches(tail + tail, 2, VERSION_2_0);
  }

  lemma NoTokenAt(s: string)
    requires |s| == 8 && s[0] != 'H'
    ensures StrStr(s, VERSION_1_1, 0).None? && StrStr(s, VERSION_2_0, 0).None?
  {
    assert s[0..8] == s;
  }

  lemma MemoryBehind(tail: string)
    requires |tail| == 8
    ensures var b := Request("h", "/", VERSION_1_1 + tail);
            |b| >= 8 && b[|b| - 8..] == tail
  {
    Layout("h", "/", VERSION_1_1 + tail);
    var b := Request("h", "/", VERSION_1_1 + tail);
    assert b[12..] == "/" + " " + (VERSION_1_1 + tail);
    assert b[12..][10..] == tail;
    assert |b| - 8 == 22 && b[22..] == b[12..][10..];
  }
}
