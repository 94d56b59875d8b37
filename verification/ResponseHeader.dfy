/** What the proxy reads out of the bytes of a response received so far, and why it does not matter how
    the network split them. */
module ResponseHeader {
  import opened Wrappers
  import opened HttpText

  predicate IsSpace(c: char) {
    c == ' ' || c == '\t' || c == '\n' || c == '\r' || c == '\U{0B}' || c == '\U{0C}'
  }

  predicate IsDigit(c: char) { '0' <= c <= '9' }

  function SkipSpaces(s: string, i: nat): (k: nat)
    requires i <= |s|
    ensures i <= k <= |s|
    decreases |s| - i
  {
    if i < |s| && IsSpace(s[i]) then SkipSpaces(s, i + 1) else i
  }

  function SkipDigits(s: string, i: nat): (k: nat)
    requires i <= |s|
    ensures i <= k <= |s|
    ensures forall j :: i <= j < k ==> IsDigit(s[j])
    decreases |s| - i
  {
    if i < |s| && IsDigit(s[i]) then SkipDigits(s, i + 1) else i
  }

  function Value(digits: string): nat
    requires forall i :: 0 <= i < |digits| ==> IsDigit(digits[i])
  {
    if digits == [] then 0
    else
      assert IsDigit(digits[|digits| - 1]);
      10 * Value(digits[..|digits| - 1]) + (digits[|digits| - 1] as int - '0' as int)
  }

  function SkipSign(s: string, i: nat): (k: nat)
    requires i <= |s|
    ensures i <= k <= |s|
  {
    if i < |s| && (s[i] == '-' || s[i] == '+') then i + 1 else i
  }

  // strtol(s + from, &end, 10); None: no digits.
  function StrToL(s: string, from: nat): Option<int> {
    if from > |s| then None
    else
      var i := SkipSpaces(s, from);
      var j := SkipSign(s, i);
      var k := SkipDigits(s, j);
      if k == j then None
      else
        var v: int := Value(s[j..k]);
        Some(if j > i && s[i] == '-' then -v else v)
  }

  function Positive(n: Option<int>): (r: int)
    ensures r == -1 || r > 0
  {
    if n.None? || n.value <= 0 then -1 else n.value
  }

  // The status code follows the version and one space.
  function ResponseCode(data: string): int {
    Positive(StrToL(data, 9))
  }

  // Responses with these codes end with their header.
  predicate HasPayload(code: int) {
    code != 204 && code != 304 && !(100 <= code < 200)
  }

  const LENGTH_FIELD := "Content-Length:"

  // The number after the first field name and one more character; -1 if absent or not positive.
  function ContentLength(data: string): (r: int)
    ensures r == -1 || r > 0
  {
    var f := StrStr(data, LENGTH_FIELD, 0);
    if f.None? then -1 else Positive(StrToL(data, f.value + |LENGTH_FIELD| + 1))
  }

  lemma {:induction false} DigitsUpTo(s: string, from: nat, to: nat)
    requires from <= to < |s| && !IsDigit(s[to]) && forall i :: from <= i < to ==> IsDigit(s[i])
    ensures SkipDigits(s, from) == to
    decreases |s| - from
  {
    if from == to {
    } else {
      DigitsUpTo(s, from + 1, to);
    }
  }

  // ----- the numbers a server writes are the numbers read

  function Decimal(n: nat): (ds: string)
    ensures |ds| > 0 && forall i :: 0 <= i < |ds| ==> IsDigit(ds[i])
  {
    var last := [(n % 10 + '0' as int) as char];
    if n < 10 then last else Decimal(n / 10) + last
  }

  lemma {:induction false} ValueOfDecimal(n: nat)
    ensures Value(Decimal(n)) == n
  {
    var ds := Decimal(n);
    if n < 10 {
      assert ds[..0] == "";
    } else {
      ValueOfDecimal(n / 10);
      assert ds[..|ds| - 1] == Decimal(n / 10);
    }
  }

  lemma DecimalReads(s: string, from: nat, n: nat)
    requires from + |Decimal(n)| < |s| && s[from..from + |Decimal(n)|] == Decimal(n)
    requires !IsDigit(s[from + |Decimal(n)|])
    ensures StrToL(s, from) == Some(n)
  {
    hide Decimal, Value;
    var to := from + |Decimal(n)|;
    forall i | from <= i < to ensures IsDigit(s[i]) {
      assert s[i] == Decimal(n)[i - from];
    }
    DigitsUpTo(s, from, to);
    ValueOfDecimal(n);
  }

  /** The status code written behind the version is the one read. */
  lemma StatusRoundTrip(version: string, code: nat, rest: string)
    requires |version| == 8 && code > 0
    ensures ResponseCode(version + " " + Decimal(code) + " " + rest) == code
  {
    hide StrToL, Decimal;
    NumberBetween(version + " ", code, " ", rest);
  }

  /** The length written in the first length field is the one read; a zero counts as none. */
  lemma LengthRoundTrip(before: string, n: nat, after: string)
    requires StrStr(before + LENGTH_FIELD, LENGTH_FIELD, 0) == Some(|before|)
    ensures ContentLength(before + LENGTH_FIELD + " " + Decimal(n) + "\r\n" + after) == if n > 0 then n else -1
  {
    hide StrStr, StrToL, Decimal, Matches;
    var field := before + LENGTH_FIELD;
    var s := field + " " + Decimal(n) + "\r\n" + after;
    NumberBetween(field + " ", n, "\r\n", after);
    StartsWith(field, " ", Decimal(n), "\r\n" + after);
    assert s == field + " " + Decimal(n) + ("\r\n" + after) by { Regroup(field + " " + Decimal(n), "\r\n", after); }
    FirstMatchStable(field, s, LENGTH_FIELD);
  }

  /** The search for the length does not stop at the end of the header: a response that names none is given
      one by its body. */
  lemma LengthFoundInBody(n: nat, rest: string)
    requires n > 0
    ensures var header := "HTTP/1.1 200 OK\r\n\r\n";
            var response := header + LENGTH_FIELD + " " + Decimal(n) + "\r\n" + rest;
            && BodyIndex(response) == |header| && ContentLength(header) == -1 && ContentLength(response) == n
  {
    hide Decimal, StrStr, ContentLength;
    var header := "HTTP/1.1 200 OK\r\n\r\n";
    NoFieldIn(header);
    FieldBehind(header);
    LengthRoundTrip(header, n, rest);
    var response := header + LENGTH_FIELD + " " + Decimal(n) + "\r\n" + rest;
    StartsWith(header, LENGTH_FIELD + " ", Decimal(n), "\r\n" + rest);
    assert header <= response by {
      Regroup(header, LENGTH_FIELD, " ");
      Regroup(header + (LENGTH_FIELD + " ") + Decimal(n), "\r\n", rest);
    }
    EmptyLineAt(header);
    FirstMatchStable(header, response, HEADER_END);
  }

  lemma NoFieldIn(s: string)
    requires forall i :: 0 <= i < |s| ==> s[i] != 'C'
    ensures ContentLength(s) == -1
  {
    forall j: nat ensures !Matches(s, j, LENGTH_FIELD) {
      assert j + 15 <= |s| ==> s[j..j + 15][0] == s[j];
    }
  }

  lemma FieldBehind(s: string)
    requires forall i :: 0 <= i < |s| ==> s[i] != 'C'
    ensures StrStr(s + LENGTH_FIELD, LENGTH_FIELD, 0) == Some(|s|)
  {
    hide StrStr;
    var t := s + LENGTH_FIELD;
    Middle(s, LENGTH_FIELD, "");
    assert s + LENGTH_FIELD + "" == t;
    forall j: nat | j < |s| ensures !Matches(t, j, LENGTH_FIELD) {
      assert j + 15 <= |t| ==> t[j..j + 15][0] == t[j] == s[j];
    }
    StrStrIs(t, LENGTH_FIELD, |s|);
  }

  lemma EmptyLineAt(s: string)
    requires s == "HTTP/1.1 200 OK\r\n\r\n"
    ensures BodyIndex(s) == |s| && StrStr(s, HEADER_END, 0) == Some(15)
  {
    hide StrStr;
    forall j: nat | j < 15 ensures !Matches(s, j, HEADER_END) {
      HeaderEndAt(s, j);
    }
    HeaderEndAt(s, 15);
    StrStrIs(s, HEADER_END, 15);
  }

  // What strtol skips.
  predicate BlankChar(c: char) { c == ' ' || 9 <= c as int <= 13 }

  predicate Blank(s: string) {
    forall i :: 0 <= i < |s| ==> BlankChar(s[i])
  }

  lemma {:induction false} BlanksSkipped(s: string, from: nat, to: nat)
    requires from <= to < |s| && Blank(s[from..to]) && !BlankChar(s[to])
    ensures SkipSpaces(s, from) == to
    decreases |s| - from
  {
    if from == to {
    } else {
      assert s[from..to][0] == s[from] && s[from + 1..to] == s[from..to][1..];
      BlanksSkipped(s, from + 1, to);
    }
  }

  function Signed(sign: string, n: nat): int {
    if sign == "-" then -1 * n else n
  }

  // At from the text has these blanks, then this sign, then something else.
  predicate SignedAt(s: string, from: nat, blanks: string, sign: string) {
    var number := from + |blanks| + |sign|;
    && Blank(blanks) && sign in {"", "+", "-"} && number < |s|
    && s[from..from + |blanks|] == blanks && s[from + |blanks|..number] == sign
    && (sign == "" ==> !BlankChar(s[number]) && s[number] != '+' && s[number] != '-')
  }

  // And that is the number n, up to the first character that is no digit.
  predicate NumberAt(s: string, number: nat, n: nat) {
    var to := number + |Decimal(n)|;
    to < |s| && s[number..to] == Decimal(n) && !('0' <= s[to] <= '9')
  }

  /** strtol: blanks, then at most one sign, then the number up to the first other character. */
  lemma SignedNumberReads(s: string, from: nat, blanks: string, sign: string, n: nat)
    requires SignedAt(s, from, blanks, sign) && NumberAt(s, from + |blanks| + |sign|, n)
    ensures StrToL(s, from) == Some(Signed(sign, n))
  {
    hide Decimal, Value, SkipDigits, SkipSpaces, StrToL;
    var start, number := from + |blanks|, from + |blanks| + |sign|;
    var to := number + |Decimal(n)|;
    assert s[number] == s[number..to][0] == Decimal(n)[0];
    assert sign != "" ==> s[start] == s[start..number][0] == sign[0];
    BlanksSkipped(s, from, start);
    forall i | number <= i < to ensures IsDigit(s[i]) {
      assert s[i] == Decimal(n)[i - number];
    }
    DigitsUpTo(s, number, to);
    ValueOfDecimal(n);
    SkipsSign(s, start, sign);
    PartsRead(s, from, start, number, to);
  }

  lemma SkipsSign(s: string, start: nat, sign: string)
    requires sign in {"", "+", "-"} && start + |sign| < |s|
    requires sign == "" ==> s[start] != '+' && s[start] != '-'
    requires sign != "" ==> s[start] == sign[0]
    ensures SkipSign(s, start) == start + |sign|
  {
  }

  lemma PartsRead(s: string, from: nat, start: nat, number: nat, to: nat)
    requires from <= start <= number < to <= |s|
    requires SkipSpaces(s, from) == start && SkipSign(s, start) == number && SkipDigits(s, number) == to
    ensures StrToL(s, from) == Some(Signed(s[start..number], Value(s[number..to])))
  {
    assert number > start ==> s[start..number] == [s[start]];
  }

  /** Where no digit follows the blanks and the sign, there is no number. */
  lemma NoNumberReads(s: string, from: nat, blanks: string, sign: string)
    requires SignedAt(s, from, blanks, sign) && !('0' <= s[from + |blanks| + |sign|] <= '9')
    ensures StrToL(s, from) == None
  {
    hide SkipSpaces;
    var start, number := from + |blanks|, from + |blanks| + |sign|;
    assert sign != "" ==> s[start] == s[start..number][0] == sign[0];
    BlanksSkipped(s, from, start);
  }

  lemma StartsWith(a: string, b: string, c: string, d: string)
    ensures a <= a + b + c + d
  {
  }

  // A decimal number between two texts, the second of which does not start with a digit.
  lemma NumberBetween(a: string, n: nat, b: string, c: string)
    requires b != "" && !IsDigit(b[0])
    ensures StrToL(a + Decimal(n) + b + c, |a|) == Some(n)
  {
    hide StrToL, Decimal;
    Regroup(a + Decimal(n), b, c);
    Middle(a, Decimal(n), b + c);
    var s := a + Decimal(n) + (b + c);
    assert s[|a| + |Decimal(n)|] == s[|a| + |Decimal(n)|..][0] == b[0];
    DecimalReads(s, |a|, n);
  }

  lemma LengthAt(s: string, f: nat)
    requires StrStr(s, LENGTH_FIELD, 0) == Some(f)
    ensures ContentLength(s) == Positive(StrToL(s, f + |LENGTH_FIELD| + 1))
  {
  }

  /** As a server may write it: one character behind the colon is skipped unseen, then blanks and a sign are
      read over; a length that is not positive counts as none. */
  lemma SignedLengthReads(s: string, f: nat, blanks: string, sign: string, n: nat)
    requires var from := f + |LENGTH_FIELD| + 1;
             && StrStr(s, LENGTH_FIELD, 0) == Some(f)
             && SignedAt(s, from, blanks, sign) && NumberAt(s, from + |blanks| + |sign|, n)
    ensures ContentLength(s) == if sign != "-" && n > 0 then n else -1
  {
    hide StrStr, StrToL, ContentLength, SignedAt, NumberAt;
    LengthAt(s, f);
    SignedNumberReads(s, f + |LENGTH_FIELD| + 1, blanks, sign, n);
  }

  /** Where no number follows, the length counts as absent. */
  lemma NoLengthReads(s: string, f: nat, blanks: string, sign: string)
    requires var from := f + |LENGTH_FIELD| + 1;
             && StrStr(s, LENGTH_FIELD, 0) == Some(f)
             && SignedAt(s, from, blanks, sign) && !('0' <= s[from + |blanks| + |sign|] <= '9')
    ensures ContentLength(s) == -1
  {
    hide StrStr, StrToL, ContentLength, Blank;
    LengthAt(s, f);
    NoNumberReads(s, f + |LENGTH_FIELD| + 1, blanks, sign);
  }

  // ----- a longer prefix of the same response reads the same

  lemma {:induction false} SpacesStable(s: string, t: string, i: nat)
    requires s <= t && i <= |s| && SkipSpaces(s, i) < |s|
    ensures SkipSpaces(t, i) == SkipSpaces(s, i)
    decreases |s| - i
  {
    if !IsSpace(s[i]) {
    } else {
      SpacesStable(s, t, i + 1);
    }
  }

  lemma {:induction false} DigitsStable(s: string, t: string, i: nat)
    requires s <= t && i <= |s| && SkipDigits(s, i) < |s|
    ensures SkipDigits(t, i) == SkipDigits(s, i)
    decreases |s| - i
  {
    if !IsDigit(s[i]) {
    } else {
      DigitsStable(s, t, i + 1);
    }
  }

  lemma StrToLStable(s: string, t: string, from: nat)
    requires s <= t && |s| > 0 && !IsDigit(s[|s| - 1]) && StrToL(s, from).Some?
    ensures StrToL(t, from) == StrToL(s, from)
  {
    var i := SkipSpaces(s, from);
    var j := SkipSign(s, i);
    var k := SkipDigits(s, j);
    assert k > j && IsDigit(s[k - 1]);
    assert k < |s|;
    SpacesStable(s, t, from);
    DigitsStable(s, t, j);
    assert s[j..k] == t[j..k];
  }

  lemma MatchesStable(s: string, t: string, i: nat, pat: string)
    requires s <= t && i + |pat| <= |s|
    ensures Matches(t, i, pat) <==> Matches(s, i, pat)
  {
    assert s[i..i + |pat|] == t[i..i + |pat|];
  }

  lemma FirstMatchStable(s: string, t: string, pat: string)
    requires s <= t && StrStr(s, pat, 0).Some?
    ensures StrStr(t, pat, 0) == StrStr(s, pat, 0)
  {
    var f := StrStr(s, pat, 0).value;
    forall i: nat | i <= f ensures Matches(t, i, pat) <==> Matches(s, i, pat) {
      MatchesStable(s, t, i, pat);
    }
    StrStrIs(t, pat, f);
  }

  /** The header counts as seen exactly when all of it has arrived, and its length is then known right. */
  lemma BodyIndexOfPrefix(response: string, n: nat)
    requires n <= |response| && BodyIndex(response) != -1
    ensures BodyIndex(response[..n]) == if n >= BodyIndex(response) then BodyIndex(response) else -1
  {
    var s, t := response[..n], response;
    var f := StrStr(t, HEADER_END, 0).value;
    var g := StrStr(s, HEADER_END, 0);
    if g.Some? {
      FirstMatchStable(s, t, HEADER_END);
    } else if n >= f + 4 {
      MatchesStable(s, t, f, HEADER_END);
    }
  }

  lemma HeaderEndsInNewline(response: string)
    requires BodyIndex(response) != -1
    ensures var h := BodyIndex(response); response[..h][h - 1] == '\n'
  {
    var f := StrStr(response, HEADER_END, 0).value;
    assert response[f..f + 4][3] == '\n';
  }

  /** From the header on, every prefix yields the header's own status and length. */
  lemma FieldsOfPrefix(response: string, n: nat)
    requires BodyIndex(response) != -1 && BodyIndex(response) <= n <= |response|
    requires ResponseCode(response[..BodyIndex(response)]) > 0
    requires ContentLength(response[..BodyIndex(response)]) > 0
    ensures ResponseCode(response[..n]) == ResponseCode(response[..BodyIndex(response)])
    ensures ContentLength(response[..n]) == ContentLength(response[..BodyIndex(response)])
  {
    var s, t := response[..BodyIndex(response)], response[..n];
    assert s <= t;
    HeaderEndsInNewline(response);
    StrToLStable(s, t, 9);
    FirstMatchStable(s, t, LENGTH_FIELD);
    StrToLStable(s, t, StrStr(s, LENGTH_FIELD, 0).value + |LENGTH_FIELD| + 1);
  }
}
