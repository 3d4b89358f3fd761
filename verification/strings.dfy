/**
 String primitives the service relies on: Python's substring test `sub in s`,
 ASCII lower-casing (`str.lower` restricted to ASCII letters) and the decimal
 rendering of a natural number (`str(n)` / f-string formatting).
 */
module Strings {

  /** `sub` occurs in `s` starting at index `i`. */
  ghost predicate OccursAt(sub: string, s: string, i: nat)
  {
    i + |sub| <= |s| && s[i..i + |sub|] == sub
  }

  /** Python's `sub in s`; the empty string occurs in every string. */
  predicate Contains(s: string, sub: string)
    decreases |s|
  {
    if |sub| > |s| then false
    else if s[..|sub|] == sub then true
    else Contains(s[1..], sub)
  }

  /** An occurrence past the first character is an occurrence in the tail. */
  lemma OccursInTail(sub: string, s: string, i: nat)
    requires 0 < i && OccursAt(sub, s, i)
    ensures OccursAt(sub, s[1..], i - 1)
  {
    assert s[1..][i - 1..i - 1 + |sub|] == s[i..i + |sub|];
  }

  /** An occurrence in the tail is an occurrence one position later. */
  lemma OccursFromTail(sub: string, s: string, i: nat)
    requires |s| > 0 && OccursAt(sub, s[1..], i)
    ensures OccursAt(sub, s, i + 1)
  {
    assert s[1..][i..i + |sub|] == s[i + 1..i + 1 + |sub|];
  }

  /** `Contains` agrees with the declarative notion of an occurrence. */
  lemma {:induction false} ContainsIffOccurs(s: string, sub: string)
    ensures Contains(s, sub) <==> exists i: nat :: OccursAt(sub, s, i)
    decreases |s|
  {
    if |sub| > |s| {
    } else if s[..|sub|] == sub {
      assert OccursAt(sub, s, 0);
    } else {
      ContainsIffOccurs(s[1..], sub);
      if exists i: nat :: OccursAt(sub, s, i) {
        var i: nat :| OccursAt(sub, s, i);
        assert i != 0;
        OccursInTail(sub, s, i);
      }
      if exists i: nat :: OccursAt(sub, s[1..], i) {
        var i: nat :| OccursAt(sub, s[1..], i);
        OccursFromTail(sub, s, i);
      }
    }
  }

  predicate IsUpper(c: char)
  {
    'A' <= c <= 'Z'
  }

  function LowerChar(c: char): (d: char)
    ensures !IsUpper(d)
    ensures IsUpper(c) ==> d as int == c as int + 32
    ensures !IsUpper(c) ==> d == c
  {
    if IsUpper(c) then (c as int + 32) as char else c
  }

  /** ASCII-only `str.lower`. */
  function ToLower(s: string): (r: string)
    ensures |r| == |s|
    ensures forall i :: 0 <= i < |s| ==> !IsUpper(r[i])
    ensures forall i :: 0 <= i < |s| && !IsUpper(s[i]) ==> r[i] == s[i]
    ensures forall i :: 0 <= i < |s| && IsUpper(s[i]) ==> r[i] as int == s[i] as int + 32
  {
    seq(|s|, i requires 0 <= i < |s| => LowerChar(s[i]))
  }

  /** Lower-casing is idempotent. */
  lemma ToLowerIdempotent(s: string)
    ensures ToLower(ToLower(s)) == ToLower(s)
  {
  }

  /** A marker with no upper-case letters that occurs in `s` still occurs after lower-casing. */
  lemma {:induction false} LowerMarkerSurvives(s: string, marker: string, i: nat)
    requires forall k :: 0 <= k < |marker| ==> !IsUpper(marker[k])
    requires OccursAt(marker, s, i)
    ensures Contains(ToLower(s), marker)
  {
    var t := ToLower(s);
    forall k | 0 <= k < |marker|
      ensures t[i + k] == marker[k]
    {
      assert s[i + k] == s[i..i + |marker|][k];
    }
    assert t[i..i + |marker|] == marker;
    assert OccursAt(marker, t, i);
    ContainsIffOccurs(t, marker);
  }

  function DigitChar(d: nat): (c: char)
    requires d < 10
    ensures '0' <= c <= '9'
  {
    ('0' as int + d) as char
  }

  predicate AllDigits(s: string)
  {
    forall i :: 0 <= i < |s| ==> '0' <= s[i] <= '9'
  }

  /** Decimal rendering of `n`, most significant digit first, no leading zeros. */
  function NatToDecimal(n: nat): (r: string)
    ensures |r| >= 1
    ensures AllDigits(r)
    ensures |r| > 1 ==> r[0] != '0'
    decreases n
  {
    if n < 10 then [DigitChar(n)]
    else NatToDecimal(n / 10) + [DigitChar(n % 10)]
  }

  /** The value of a string of decimal digits. */
  function DecimalValue(s: string): nat
    requires AllDigits(s)
  {
    if |s| == 0 then 0
    else DecimalValue(s[..|s| - 1]) * 10 + (s[|s| - 1] as int - '0' as int)
  }

  /** Reading back a rendered number gives the number. */
  lemma {:induction false} DecimalRoundTrip(n: nat)
    ensures DecimalValue(NatToDecimal(n)) == n
    decreases n
  {
    var r := NatToDecimal(n);
    if n < 10 {
      assert r[..0] == [];
    } else {
      DecimalRoundTrip(n / 10);
      assert r[..|r| - 1] == NatToDecimal(n / 10);
    }
  }

  /** Distinct numbers render to distinct strings. */
  lemma NatToDecimalInjective(m: nat, n: nat)
    requires NatToDecimal(m) == NatToDecimal(n)
    ensures m == n
  {
    DecimalRoundTrip(m);
    DecimalRoundTrip(n);
  }
}
