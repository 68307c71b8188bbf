/** Python string primitives the matcher relies on, stated over `string`.
    Case mapping and digits are the ASCII subset of Python's Unicode rules;
    whitespace is the full set recognised by `str.isspace`, `str.split`,
    `str.strip` and the regular-expression class `\s`. */
module Text {

  predicate IsDigit(c: char) { '0' <= c <= '9' }

  /** Python's whitespace characters (`str.isspace`). */
  predicate IsSpace(c: char) {
    || '\t' <= c <= '\r'
    || '\U{1C}' <= c <= '\U{1F}'
    || c == ' '
    || c == '\U{85}'
    || c == '\U{A0}'
    || c == '\U{1680}'
    || '\U{2000}' <= c <= '\U{200A}'
    || c == '\U{2028}'
    || c == '\U{2029}'
    || c == '\U{202F}'
    || c == '\U{205F}'
    || c == '\U{3000}'
  }

  predicate AllDigits(s: string) { forall k :: 0 <= k < |s| ==> IsDigit(s[k]) }

  predicate NoSpace(s: string) { forall k :: 0 <= k < |s| ==> !IsSpace(s[k]) }

  function UpperChar(c: char): char {
    if 'a' <= c <= 'z' then (c as int - 32) as char else c
  }

  function LowerChar(c: char): char {
    if 'A' <= c <= 'Z' then (c as int + 32) as char else c
  }

  /** `s.upper()` */
  function Upper(s: string): string {
    seq(|s|, i requires 0 <= i < |s| => UpperChar(s[i]))
  }

  /** `s.lower()` */
  function Lower(s: string): string {
    seq(|s|, i requires 0 <= i < |s| => LowerChar(s[i]))
  }

  /** Two characters are equal ignoring ASCII case exactly when their upper
      forms agree, exactly when their lower forms agree. */
  lemma CaseFoldAgree(a: char, b: char)
    ensures (UpperChar(a) == UpperChar(b)) <==> (LowerChar(a) == LowerChar(b))
  {
  }

  predicate OccursAt(s: string, p: string, i: int) {
    0 <= i && i + |p| <= |s| && s[i..i + |p|] == p
  }

  /** Python's `p in s` for strings. */
  predicate Contains(s: string, p: string) {
    exists i | 0 <= i <= |s| :: OccursAt(s, p, i)
  }

  /** A string that contains `p` contains every character of `p`; used to
      refute containment on literals. */
  lemma ContainsHasChar(s: string, p: string, k: int)
    requires Contains(s, p) && 0 <= k < |p|
    ensures p[k] in s
  {
    var i :| 0 <= i <= |s| && OccursAt(s, p, i);
    assert s[i + k] == s[i..i + |p|][k] == p[k];
  }

  /** `w` is one of the strings of `s.split()` starting at index `i`: a run
      of non-whitespace characters bounded by whitespace or the ends of `s`. */
  predicate TokenAt(s: string, w: string, i: int) {
    && OccursAt(s, w, i)
    && (i == 0 || IsSpace(s[i - 1]))
    && (i + |w| == |s| || IsSpace(s[i + |w|]))
  }

  /** Python's `w in set(s.split())` for a keyword `w`: non-empty and free
      of whitespace, as every keyword the matcher asks about is. */
  predicate HasToken(s: string, w: string) {
    exists i | 0 <= i <= |s| :: TokenAt(s, w, i)
  }

  /** An occurrence fixes each character it covers. */
  lemma OccursCharAt(s: string, p: string, i: int, k: int)
    requires OccursAt(s, p, i) && 0 <= k < |p|
    ensures s[i + k] == p[k]
  {
    assert s[i..i + |p|][k] == p[k];
  }

  /** A string lacking one character of `p` does not contain `p`. */
  lemma MissingCharNotContained(s: string, p: string, k: int)
    requires 0 <= k < |p| && p[k] !in s
    ensures !Contains(s, p)
  {
    if Contains(s, p) { ContainsHasChar(s, p, k); }
  }

  /** A string lacking one character of `w` does not carry the token `w`. */
  lemma MissingCharNoToken(s: string, w: string, k: int)
    requires 0 <= k < |w| && w[k] !in s
    ensures !HasToken(s, w)
  {
    if HasToken(s, w) {
      TokenIsSubstring(s, w);
      ContainsHasChar(s, w, k);
    }
  }

  /** A whole token is in particular a substring. */
  lemma TokenIsSubstring(s: string, w: string)
    requires HasToken(s, w)
    ensures Contains(s, w)
  {
    var i :| 0 <= i <= |s| && TokenAt(s, w, i);
    assert OccursAt(s, w, i);
  }

  /** Index of the first `c` in `s`, or -1 (`s.find(c)`). */
  function FindChar(s: string, c: char): (r: int)
    ensures -1 <= r < |s|
    ensures r == -1 <==> c !in s
    ensures r >= 0 ==> s[r] == c && c !in s[..r]
  {
    if s == [] then -1
    else if s[0] == c then 0
    else
      var k := FindChar(s[1..], c);
      if k == -1 then -1
      else
        assert s[..k + 1] == [s[0]] + s[1..][..k];
        k + 1
  }

  /** Index of the last `c` in `s`, or -1 (`s.rfind(c)`). */
  function RFindChar(s: string, c: char): (r: int)
    ensures -1 <= r < |s|
    ensures r == -1 <==> c !in s
    ensures r >= 0 ==> s[r] == c && c !in s[r + 1..]
  {
    if s == [] then -1
    else if s[|s| - 1] == c then |s| - 1
    else
      var k := RFindChar(s[..|s| - 1], c);
      assert s == s[..|s| - 1] + [s[|s| - 1]];
      if k >= 0 then
        assert s[k + 1..] == s[..|s| - 1][k + 1..] + [s[|s| - 1]];
        k
      else k
  }

  /** `s.lstrip()` */
  function StripLeft(s: string): (r: string)
    ensures exists n :: 0 <= n <= |s| && r == s[n..] && forall k :: 0 <= k < n ==> IsSpace(s[k])
    ensures r == [] || !IsSpace(r[0])
  {
    if s != [] && IsSpace(s[0]) then
      var r := StripLeft(s[1..]);
      var n :| 0 <= n <= |s[1..]| && r == s[1..][n..] && forall k :: 0 <= k < n ==> IsSpace(s[1..][k]);
      assert r == s[n + 1..];
      r
    else
      assert s == s[0..];
      s
  }

  /** `s.rstrip()` */
  function StripRight(s: string): (r: string)
    ensures exists n :: 0 <= n <= |s| && r == s[..n] && forall k :: n <= k < |s| ==> IsSpace(s[k])
    ensures r == [] || !IsSpace(r[|r| - 1])
  {
    if s != [] && IsSpace(s[|s| - 1]) then
      var init := s[..|s| - 1];
      var r := StripRight(init);
      var n :| 0 <= n <= |init| && r == init[..n] && forall k :: n <= k < |init| ==> IsSpace(init[k]);
      assert r == s[..n];
      r
    else
      assert s == s[..|s|];
      s
  }

  /** `s.strip()` */
  function Strip(s: string): string {
    StripRight(StripLeft(s))
  }

  /** Stripping keeps the slice `s[a..b]` of the text. */
  lemma StripSlice(s: string) returns (a: nat, b: nat)
    ensures a <= b <= |s| && Strip(s) == s[a..b]
  {
    var l := StripLeft(s);
    a := StripLeftFrom(s);
    var n := StripRightTo(l);
    b := a + n;
  }

  lemma {:induction false} StripLeftFrom(s: string) returns (a: nat)
    ensures a <= |s| && StripLeft(s) == s[a..]
  {
    if s != [] && IsSpace(s[0]) {
      var a' := StripLeftFrom(s[1..]);
      a := a' + 1;
      assert s[1..][a'..] == s[a..];
    } else {
      a := 0;
    }
  }

  lemma {:induction false} StripRightTo(s: string) returns (n: nat)
    ensures n <= |s| && StripRight(s) == s[..n]
  {
    if s != [] && IsSpace(s[|s| - 1]) {
      n := StripRightTo(s[..|s| - 1]);
      assert s[..|s| - 1][..n] == s[..n];
    } else {
      n := |s|;
    }
  }

  /** Stripped text neither starts nor ends with whitespace. */
  lemma StripEnds(s: string)
    ensures var r := Strip(s); r != [] ==> !IsSpace(r[0]) && !IsSpace(r[|r| - 1])
  {
    var l := StripLeft(s);
    var n: nat :| n <= |l| && StripRight(l) == l[..n];
  }

  /** `s.replace(p, q)` for a non-empty pattern: occurrences are replaced left
      to right without overlapping. */
  function ReplaceAll(s: string, p: string, q: string): (r: string)
    requires p != []
    ensures !Contains(s, p) ==> r == s
    ensures |q| <= |p| ==> |r| <= |s|
    decreases |s|
  {
    if |s| < |p| then
      s
    else if s[..|p|] == p then
      assert OccursAt(s, p, 0);
      q + ReplaceAll(s[|p|..], p, q)
    else
      var rest := ReplaceAll(s[1..], p, q);
      ContainsTail(s, p);
      assert s == [s[0]] + s[1..];
      [s[0]] + rest
  }

  /** Whatever the tail of a string contains, the string contains. */
  lemma ContainsTail(s: string, p: string)
    requires s != []
    ensures Contains(s[1..], p) ==> Contains(s, p)
  {
    if Contains(s[1..], p) {
      var i :| 0 <= i <= |s[1..]| && OccursAt(s[1..], p, i);
      assert s[i + 1..i + 1 + |p|] == s[1..][i..i + |p|];
      assert OccursAt(s, p, i + 1);
    }
  }

  /** `s.replace(a, b)` for single characters. */
  function ReplaceChar(s: string, a: char, b: char): (r: string)
    ensures |r| == |s|
    ensures forall k :: 0 <= k < |s| ==> r[k] == (if s[k] == a then b else s[k])
  {
    seq(|s|, i requires 0 <= i < |s| => if s[i] == a then b else s[i])
  }

  /** `sep.join(parts)` */
  function Join(parts: seq<string>, sep: string): string {
    if parts == [] then ""
    else if |parts| == 1 then parts[0]
    else parts[0] + sep + Join(parts[1..], sep)
  }

  /** End of the run of digits that starts at `p` (`p` itself when `s[p]` is
      not a digit). */
  function RunEnd(s: string, p: int): (e: int)
    requires 0 <= p <= |s|
    ensures p <= e <= |s|
    ensures forall k :: p <= k < e ==> IsDigit(s[k])
    ensures e == |s| || !IsDigit(s[e])
    decreases |s| - p
  {
    if p == |s| || !IsDigit(s[p]) then p else RunEnd(s, p + 1)
  }

  function DigitChar(d: int): char
    requires 0 <= d < 10
  {
    ('0' as int + d) as char
  }

  /** `str(n)` for a natural number. */
  function NatToString(n: nat): (r: string)
    ensures r != [] && AllDigits(r)
  {
    if n < 10 then [DigitChar(n)] else NatToString(n / 10) + [DigitChar(n % 10)]
  }

  /** `str(n)` for an integer. */
  function IntToString(n: int): string {
    if n < 0 then "-" + NatToString(-n) else NatToString(n)
  }

  /** The value of a string of decimal digits (`int(s)`). */
  function DigitsValue(s: string): nat
    requires AllDigits(s)
  {
    if s == [] then 0 else 10 * DigitsValue(s[..|s| - 1]) + (s[|s| - 1] as int - '0' as int)
  }

  /** `int(s)` for an optional minus sign followed by digits. */
  function ParseInt(s: string): int
    requires s != [] && (AllDigits(s) || (s[0] == '-' && AllDigits(s[1..])))
  {
    if s[0] == '-' then -(DigitsValue(s[1..]) as int) else DigitsValue(s)
  }

  /** Reading back a rendered natural number gives the number. */
  lemma {:induction false} NatToStringRoundTrip(n: nat)
    ensures DigitsValue(NatToString(n)) == n
  {
    if n >= 10 {
      var s := NatToString(n);
      NatToStringRoundTrip(n / 10);
      assert s[..|s| - 1] == NatToString(n / 10);
    }
  }

  /** Reading back a rendered integer gives the integer. */
  lemma IntToStringRoundTrip(n: int)
    ensures var s := IntToString(n);
      s != [] && (AllDigits(s) || (s[0] == '-' && AllDigits(s[1..]))) && ParseInt(s) == n
  {
    if n < 0 {
      var s := IntToString(n);
      assert s[1..] == NatToString(-n);
      NatToStringRoundTrip(-n);
    } else {
      NatToStringRoundTrip(n);
    }
  }
}
