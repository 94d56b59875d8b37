/** The C library searches the proxy uses on its buffers, and the texts it extracts with them. Buffers
    hold no NUL; a search stops at the end of the memory given. */
module HttpText {
  import opened Wrappers

  // strchr(s + from, c), as an index into s.
  function StrChr(s: string, c: char, from: nat): (r: Option<nat>)
    requires from <= |s|
    ensures r.Some? ==> from <= r.value < |s| && s[r.value] == c && forall i :: from <= i < r.value ==> s[i] != c
    ensures r.None? ==> forall i :: from <= i < |s| ==> s[i] != c
    decreases |s| - from
  {
    if from == |s| then None
    else if s[from] == c then Some(from)
    else StrChr(s, c, from + 1)
  }

  predicate Matches(s: string, i: nat, pat: string) {
    i + |pat| <= |s| && s[i..i + |pat|] == pat
  }

  // strstr(s + from, pat)
  function StrStr(s: string, pat: string, from: nat): (r: Option<nat>)
    ensures r.Some? ==> from <= r.value && Matches(s, r.value, pat)
    ensures r.Some? ==> forall i :: from <= i < r.value ==> !Matches(s, i, pat)
    ensures r.None? ==> forall i :: from <= i ==> !Matches(s, i, pat)
    decreases |s| - from
  {
    if from > |s| then None
    else if Matches(s, from, pat) then Some(from)
    else StrStr(s, pat, from + 1)
  }

  lemma StrChrIs(s: string, c: char, from: nat, i: nat)
    requires from <= i < |s| && s[i] == c && forall j :: from <= j < i ==> s[j] != c
    ensures StrChr(s, c, from) == Some(i)
  {
    var r := StrChr(s, c, from);
    assert r.Some? && r.value >= i;
  }

  lemma StrStrIs(s: string, pat: string, i: nat)
    requires Matches(s, i, pat) && forall j :: 0 <= j < i ==> !Matches(s, j, pat)
    ensures StrStr(s, pat, 0) == Some(i)
  {
    var r := StrStr(s, pat, 0);
    assert r.Some?;
    assert r.value >= i;
  }

  lemma Middle(a: string, b: string, c: string)
    ensures var s := a + b + c;
            && |s| == |a| + |b| + |c|
            && s[..|a|] == a && s[|a|..|a| + |b|] == b && s[|a| + |b|..] == c
  {
  }

  lemma Regroup(a: string, b: string, c: string)
    ensures (a + b) + c == a + (b + c)
  {
  }

  // The text between the first two spaces.
  function GetUrlFromData(data: string): Option<string> {
    var start := StrChr(data, ' ', 0);
    if start.None? then None
    else
      var end := StrChr(data, ' ', start.value + 1);
      if end.None? then None else Some(data[start.value + 1..end.value])
  }

  // The text between the scheme's seven characters and the next slash; the program does not check that
  // there is one.
  function GetHostFromUrl(url: string): Option<string> {
    if |url| < 7 then None
    else
      var end := StrChr(url, '/', 7);
      if end.None? then None else Some(url[7..end.value])
  }

  const HEADER_END := "\r\n\r\n"

  // Where the body starts: after the first empty line; -1 if there is none.
  function BodyIndex(data: string): (r: int)
    ensures r == -1 || 4 <= r <= |data|
  {
    var e := StrStr(data, HEADER_END, 0);
    if e.None? then -1 else e.value + 4
  }

  lemma HeaderEndAt(s: string, j: nat)
    requires j + 4 <= |s|
    ensures Matches(s, j, HEADER_END) <==> s[j] == '\r' && s[j + 1] == '\n' && s[j + 2] == '\r' && s[j + 3] == '\n'
  {
    var w := s[j..j + 4];
    assert w[0] == s[j] && w[1] == s[j + 1] && w[2] == s[j + 2] && w[3] == s[j + 3];
    assert w == HEADER_END <==> w[0] == '\r' && w[1] == '\n' && w[2] == '\r' && w[3] == '\n';
  }

  /** The search loop, on the memory itself. For fewer than three bytes its unsigned bound wraps. */
  method GetIndexOfBody(buff: array<char>, len: nat) returns (r: int)
    requires 3 <= len <= buff.Length
    ensures r == BodyIndex(buff[..len])
  {
    var j := 0;
    while j < len - 3
      invariant j <= len - 3
      invariant forall i :: 0 <= i < j ==> !Matches(buff[..len], i, HEADER_END)
    {
      HeaderEndAt(buff[..len], j);
      if buff[j] == '\r' && buff[j + 1] == '\n' && buff[j + 2] == '\r' && buff[j + 3] == '\n' {
        StrStrIs(buff[..len], HEADER_END, j);
        return j + 4;
      }
      j := j + 1;
    }
    r := -1;
  }
}
