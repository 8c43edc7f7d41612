/**
 * The string primitives of JavaScript that the chat code relies on: the `\s`
 * character class (which is also what `trim` strips), `toLowerCase`,
 * `split(/\s/)` and `join(" ")`, `startsWith`, `includes`, the
 * `replace(/\/$/, "")` idiom and decimal printing and parsing of integers.
 */
module Text {
  import opened Wrappers

  /** The characters JavaScript's `\s` matches and `String.prototype.trim` removes. */
  predicate IsSpace(c: char) {
    var n := c as int;
    n == 0x20 || 0x09 <= n <= 0x0D || n == 0xA0 || n == 0x1680 || 0x2000 <= n <= 0x200A
    || n == 0x2028 || n == 0x2029 || n == 0x202F || n == 0x205F || n == 0x3000 || n == 0xFEFF
  }

  predicate NoSpace(s: string) {
    forall i :: 0 <= i < |s| ==> !IsSpace(s[i])
  }

  predicate AllSpace(s: string) {
    forall i :: 0 <= i < |s| ==> IsSpace(s[i])
  }

  /** `toLowerCase` on one character, for the ASCII and Latin-1 upper-case letters. */
  function LowerChar(c: char): char {
    if 'A' <= c <= 'Z' || ('\U{00C0}' <= c <= '\U{00DE}' && c != '\U{00D7}') then
      (c as int + 32) as char
    else
      c
  }

  function Lower(s: string): (r: string)
    ensures |r| == |s|
    ensures forall i :: 0 <= i < |s| ==> r[i] == LowerChar(s[i])
  {
    seq(|s|, i requires 0 <= i < |s| => LowerChar(s[i]))
  }

  lemma LowerAppend(a: string, b: string)
    ensures Lower(a + b) == Lower(a) + Lower(b)
  {
  }

  /** Case-insensitive equality as `x.toLowerCase() === y.toLowerCase()`. */
  predicate SameIgnoringCase(a: string, b: string) {
    Lower(a) == Lower(b)
  }

  predicate StartsWith(s: string, prefix: string) {
    |prefix| <= |s| && s[..|prefix|] == prefix
  }

  /** A regular expression `^prefix` with the `i` flag. */
  predicate StartsWithIgnoringCase(s: string, prefix: string) {
    |prefix| <= |s| && Lower(s[..|prefix|]) == Lower(prefix)
  }

  /** `s.includes(q)`: `q` occurs in `s` at some position. */
  predicate Contains(s: string, q: string) {
    StartsWith(s, q) || (s != [] && Contains(s[1..], q))
  }

  /** A value read through optional chaining: truthy when present and not empty. */
  predicate Truthy(v: Option<string>) {
    v.Some? && v.value != ""
  }

  /** `a || b` on optional strings. */
  function OrElse(a: Option<string>, b: string): (r: string)
    ensures Truthy(a) ==> r == a.value
    ensures !Truthy(a) ==> r == b
  {
    if Truthy(a) then a.value else b
  }

  /** `s.trimStart()` */
  function TrimStart(s: string): (r: string)
    ensures |r| <= |s| && r == s[|s| - |r|..]
    ensures AllSpace(s[..|s| - |r|])
    ensures r == [] || !IsSpace(r[0])
  {
    if s != [] && IsSpace(s[0]) then
      var r := TrimStart(s[1..]);
      assert forall i :: 1 <= i < |s| - |r| ==> s[i] == s[1..][..|s| - 1 - |r|][i - 1];
      assert forall i :: 0 <= i < |s| - |r| ==> IsSpace(s[i]);
      r
    else s
  }

  /** `s.trimEnd()` */
  function TrimEnd(s: string): (r: string)
    ensures |r| <= |s| && r == s[..|r|]
    ensures AllSpace(s[|r|..])
    ensures r == [] || !IsSpace(r[|r| - 1])
  {
    if s != [] && IsSpace(s[|s| - 1]) then
      var init := s[..|s| - 1];
      var r := TrimEnd(init);
      assert forall i :: |r| <= i < |init| ==> s[i] == init[|r|..][i - |r|];
      assert forall i :: |r| <= i < |s| ==> IsSpace(s[i]);
      r
    else s
  }

  /** `s.trim()` */
  function Trim(s: string): string {
    TrimEnd(TrimStart(s))
  }

  /** `!s.trim()` holds exactly when every character of `s` is white space. */
  lemma TrimEmptyIffBlank(s: string)
    ensures Trim(s) == [] <==> AllSpace(s)
  {
    var t := TrimStart(s);
    if Trim(s) == [] {
      assert AllSpace(t[0..]);
      assert t == [];
      assert s[..|s|] == s;
    }
  }

  /** The result of trimming is a slice of the input that neither starts nor ends with white space. */
  lemma TrimIsInnerSlice(s: string)
    ensures exists i, j :: 0 <= i <= j <= |s| && Trim(s) == s[i..j]
    ensures Trim(s) == [] || (!IsSpace(Trim(s)[0]) && !IsSpace(Trim(s)[|Trim(s)| - 1]))
  {
    var k := TrimSlice(s);
    TrimEndsNotSpace(s);
  }

  /** Where the trimmed text starts in `s`. */
  lemma TrimSlice(s: string) returns (k: nat)
    ensures k + |Trim(s)| <= |s| && Trim(s) == s[k..k + |Trim(s)|]
  {
    var t := TrimStart(s);
    var r := TrimEnd(t);
    k := |s| - |t|;
    SliceOfSuffix(s, k, |r|);
  }

  /** Neither end of the trimmed text is white space. */
  lemma TrimEndsNotSpace(s: string)
    ensures Trim(s) == [] || (!IsSpace(Trim(s)[0]) && !IsSpace(Trim(s)[|Trim(s)| - 1]))
  {
    var t := TrimStart(s);
    var r := TrimEnd(t);
    if r != [] {
      assert r[0] == t[0];
    }
  }

  /** `s.replace(/\/$/, "")`: at most one trailing slash is removed. */
  function StripTrailingSlash(s: string): (r: string)
    ensures r == s || r + "/" == s
    ensures r != s <==> (s != [] && s[|s| - 1] == '/')
  {
    if s != [] && s[|s| - 1] == '/' then s[..|s| - 1] else s
  }

  /** `s.split(/\s/)`: every single white-space character separates two (possibly empty) tokens. */
  function SplitOnSpace(s: string): (r: seq<string>)
    ensures |r| >= 1
    ensures forall k :: 0 <= k < |r| ==> NoSpace(r[k])
  {
    if s == [] then [[]]
    else
      var rest := SplitOnSpace(s[..|s| - 1]);
      var c := s[|s| - 1];
      if IsSpace(c) then rest + [[]]
      else rest[..|rest| - 1] + [rest[|rest| - 1] + [c]]
  }

  /** `tokens.join(" ")` */
  function JoinWithSpace(ts: seq<string>): string {
    if |ts| == 0 then []
    else if |ts| == 1 then ts[0]
    else JoinWithSpace(ts[..|ts| - 1]) + " " + ts[|ts| - 1]
  }

  /** `s` with each white-space character replaced by a plain space. */
  function NormalizeSpaces(s: string): (r: string)
    ensures |r| == |s|
    ensures forall i :: 0 <= i < |s| ==> r[i] == if IsSpace(s[i]) then ' ' else s[i]
  {
    seq(|s|, i requires 0 <= i < |s| => if IsSpace(s[i]) then ' ' else s[i])
  }

  /** Appending a character to the last token appends it to the joined text. */
  lemma JoinExtendLast(ts: seq<string>, c: char)
    requires |ts| >= 1
    ensures JoinWithSpace(ts[..|ts| - 1] + [ts[|ts| - 1] + [c]]) == JoinWithSpace(ts) + [c]
  {
    var r := ts[..|ts| - 1] + [ts[|ts| - 1] + [c]];
    assert r[..|r| - 1] == ts[..|ts| - 1];
  }

  lemma NormalizeSpacesSnoc(s: string, c: char)
    ensures NormalizeSpaces(s + [c]) == NormalizeSpaces(s) + [if IsSpace(c) then ' ' else c]
  {
  }

  /** Splitting on white space and joining with single spaces turns every white-space character into a space. */
  lemma {:induction false} JoinSplit(s: string)
    ensures JoinWithSpace(SplitOnSpace(s)) == NormalizeSpaces(s)
  {
    if s != [] {
      var init := s[..|s| - 1];
      var c := s[|s| - 1];
      var rest := SplitOnSpace(init);
      JoinSplit(init);
      NormalizeSpacesSnoc(init, c);
      assert s == init + [c];
      if IsSpace(c) {
        var r := rest + [[]];
        assert r[..|r| - 1] == rest;
        assert JoinWithSpace(r) == JoinWithSpace(rest) + " ";
      } else {
        JoinExtendLast(rest, c);
      }
    }
  }

  /** The last token of `s.split(/\s/)`: what `pop()` returns. */
  function LastToken(s: string): string {
    var ts := SplitOnSpace(s);
    ts[|ts| - 1]
  }

  /** The last token is the longest suffix of `s` that holds no white space. */
  lemma {:induction false} LastTokenIsMaximalSuffix(s: string)
    ensures |LastToken(s)| <= |s|
    ensures s[|s| - |LastToken(s)|..] == LastToken(s)
    ensures NoSpace(LastToken(s))
    ensures |LastToken(s)| == |s| || IsSpace(s[|s| - |LastToken(s)| - 1])
  {
    if s != [] {
      var init := s[..|s| - 1];
      LastTokenIsMaximalSuffix(init);
      var t := LastToken(init);
      if !IsSpace(s[|s| - 1]) {
        assert LastToken(s) == t + [s[|s| - 1]];
        assert s[|s| - |t| - 1..] == init[|init| - |t|..] + [s[|s| - 1]];
      }
    }
  }

  /** Without its last token, the split rejoins to the normalized text before the last separator. */
  lemma {:induction false} JoinWithoutLastToken(s: string)
    ensures var ts := SplitOnSpace(s);
            var t := LastToken(s);
            if |ts| == 1 then t == s
            else |t| < |s| && JoinWithSpace(ts[..|ts| - 1]) == NormalizeSpaces(s[..|s| - |t| - 1])
  {
    var ts := SplitOnSpace(s);
    var t := LastToken(s);
    LastTokenIsMaximalSuffix(s);
    JoinSplit(s);
    if |ts| == 1 {
      SingleTokenHasNoSpace(s);
    } else {
      var p := JoinWithSpace(ts[..|ts| - 1]);
      assert JoinWithSpace(ts) == p + " " + t;
      SplitLengthAtLeastTwoHasSpace(s);
      NormalizedPrefix(s, p, t);
    }
  }

  /** What precedes the last separator of the normalized text is the normalized prefix. */
  lemma NormalizedPrefix(s: string, p: string, t: string)
    requires NormalizeSpaces(s) == p + " " + t
    ensures |p| + 1 + |t| == |s|
    ensures p == NormalizeSpaces(s[..|s| - |t| - 1])
  {
    var k := |s| - |t| - 1;
    var q := NormalizeSpaces(s[..k]);
    forall i | 0 <= i < k
      ensures p[i] == q[i]
    {
      assert p[i] == (p + " " + t)[i];
    }
  }

  lemma {:induction false} SingleTokenHasNoSpace(s: string)
    requires |SplitOnSpace(s)| == 1
    ensures LastToken(s) == s
  {
    if s != [] {
      var init := s[..|s| - 1];
      assert !IsSpace(s[|s| - 1]);
      var rest := SplitOnSpace(init);
      assert |rest| == 1;
      SingleTokenHasNoSpace(init);
      assert s == init + [s[|s| - 1]];
    }
  }

  lemma {:induction false} SplitLengthAtLeastTwoHasSpace(s: string)
    requires |SplitOnSpace(s)| >= 2
    ensures |LastToken(s)| < |s|
  {
    var init := s[..|s| - 1];
    if !IsSpace(s[|s| - 1]) {
      SplitLengthAtLeastTwoHasSpace(init);
    }
  }

  function DigitValue(c: char): nat
    requires IsDigit(c)
  {
    c as int - '0' as int
  }

  predicate IsDigit(c: char) {
    '0' <= c <= '9'
  }

  /** The value of a string of decimal digits. */
  function DigitsValue(s: string): nat
    requires forall i :: 0 <= i < |s| ==> IsDigit(s[i])
  {
    if s == [] then 0 else DigitsValue(s[..|s| - 1]) * 10 + DigitValue(s[|s| - 1])
  }

  /** `n.toString()` for a non-negative integer. */
  function NatToString(n: nat): (r: string)
    ensures r != []
    ensures forall i :: 0 <= i < |r| ==> IsDigit(r[i])
  {
    if n < 10 then [('0' as int + n) as char]
    else NatToString(n / 10) + [('0' as int + n % 10) as char]
  }

  /** Printing a number in decimal and reading the digits back gives the number. */
  lemma {:induction false} NatToStringRoundTrip(n: nat)
    ensures DigitsValue(NatToString(n)) == n
  {
    if n >= 10 {
      NatToStringRoundTrip(n / 10);
      var s := NatToString(n);
      assert s[..|s| - 1] == NatToString(n / 10);
    } else {
      assert NatToString(n)[..0] == [];
    }
  }

  /** The longest prefix of `s` made of decimal digits. */
  function DigitPrefix(s: string): (r: string)
    ensures |r| <= |s| && r == s[..|r|]
    ensures forall i :: 0 <= i < |r| ==> IsDigit(r[i])
    ensures |r| == |s| || !IsDigit(s[|r|])
  {
    if s != [] && IsDigit(s[0]) then
      var rest := DigitPrefix(s[1..]);
      var r := [s[0]] + rest;
      assert r[1..] == rest;
      r
    else []
  }

  /** The value of the longest run of decimal digits at the front of `b`, if there is one. */
  function ParseDigits(b: string): (r: Option<nat>)
    ensures r.Some? <==> b != [] && IsDigit(b[0])
  {
    var digits := DigitPrefix(b);
    if digits == [] then None else Some(DigitsValue(digits))
  }

  /** An optional sign, then digits. */
  function ParseSigned(t: string): (r: Option<int>)
    ensures r.Some? <==> var b := if t != [] && (t[0] == '+' || t[0] == '-') then t[1..] else t;
      b != [] && IsDigit(b[0])
  {
    if t != [] && t[0] == '-' then
      match ParseDigits(t[1..])
      case Some(v) => Some(-(v as int))
      case None => None
    else if t != [] && t[0] == '+' then
      match ParseDigits(t[1..])
      case Some(v) => Some(v as int)
      case None => None
    else
      match ParseDigits(t)
      case Some(v) => Some(v as int)
      case None => None
  }

  /**
   * `parseInt(s, 10)`: leading white space is skipped, one optional sign is
   * read, then the longest run of decimal digits; no digit at all is `NaN`
   * (here `None`).
   */
  function ParseInt(s: string): Option<int> {
    ParseSigned(TrimStart(s))
  }

  lemma {:induction false} TrimStartSkipsPad(pad: string, s: string)
    requires AllSpace(pad)
    requires s == [] || !IsSpace(s[0])
    ensures TrimStart(pad + s) == s
  {
    if pad != [] {
      assert (pad + s)[1..] == pad[1..] + s;
      assert IsSpace(pad[0]);
      TrimStartSkipsPad(pad[1..], s);
    } else {
      assert pad + s == s;
    }
  }

  lemma {:induction false} DigitPrefixStopsAtNonDigit(digits: string, tail: string)
    requires forall i :: 0 <= i < |digits| ==> IsDigit(digits[i])
    requires tail == [] || !IsDigit(tail[0])
    ensures DigitPrefix(digits + tail) == digits
  {
    if digits != [] {
      assert (digits + tail)[0] == digits[0];
      assert (digits + tail)[1..] == digits[1..] + tail;
      DigitPrefixStopsAtNonDigit(digits[1..], tail);
    } else {
      assert digits + tail == tail;
    }
  }

  lemma ParseDigitsReads(digits: string, tail: string)
    requires digits != [] && forall i :: 0 <= i < |digits| ==> IsDigit(digits[i])
    requires tail == [] || !IsDigit(tail[0])
    ensures ParseDigits(digits + tail) == Some(DigitsValue(digits))
  {
    DigitPrefixStopsAtNonDigit(digits, tail);
  }

  lemma ParseSignedReads(sign: string, body: string, v: nat)
    requires sign == "" || sign == "+" || sign == "-"
    requires body != [] && IsDigit(body[0])
    requires ParseDigits(body) == Some(v)
    ensures ParseSigned(sign + body) == Some(if sign == "-" then -(v as int) else v)
  {
    if sign == "" {
      assert sign + body == body;
    } else {
      assert (sign + body)[1..] == body;
    }
  }

  lemma ParseIntSkipsPad(pad: string, t: string)
    requires AllSpace(pad)
    requires t == [] || !IsSpace(t[0])
    ensures ParseInt(pad + t) == ParseSigned(t)
  {
    TrimStartSkipsPad(pad, t);
  }

  /**
   * `parseInt` reads back a printed number, whatever white space precedes it
   * and whatever non-digit follows it, with an optional sign in front.
   */
  lemma ParseIntReadsPrinted(pad: string, sign: string, n: nat, tail: string)
    requires AllSpace(pad)
    requires sign == "" || sign == "+" || sign == "-"
    requires tail == [] || !IsDigit(tail[0])
    ensures ParseInt(pad + (sign + (NatToString(n) + tail))) == Some(if sign == "-" then -(n as int) else n)
  {
    var digits := NatToString(n);
    var body := digits + tail;
    assert ParseDigits(body) == Some(n) by {
      ParseDigitsReads(digits, tail);
      NatToStringRoundTrip(n);
    }
    assert body[0] == digits[0];
    ParseSignedReads(sign, body, n);
    assert !IsSpace((sign + body)[0]);
    ParseIntSkipsPad(pad, sign + body);
  }
}
