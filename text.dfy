/**
 * String helpers that the salary tool's one-liners rely on: ASCII digits and
 * their decimal value (Python's int() and str() on naturals), removal of one
 * character (str.replace(c, "")), the first and second fields of str.split,
 * and str.capitalize restricted to ASCII letters.
 */
module Text {
  import opened Wrappers

  predicate IsDigit(c: char) { '0' <= c <= '9' }

  predicate AllDigits(s: string) { forall k :: 0 <= k < |s| ==> IsDigit(s[k]) }

  function Pow10(n: nat): (p: nat)
    ensures p >= 1
  {
    if n == 0 then 1 else 10 * Pow10(n - 1)
  }

  function DigitValue(c: char): (d: nat)
    requires IsDigit(c)
    ensures d < 10
  {
    c as int - '0' as int
  }

  function DigitChar(d: nat): (c: char)
    requires d < 10
    ensures IsDigit(c) && DigitValue(c) == d
  {
    ('0' as int + d) as char
  }

  /** The value int() gives a string of ASCII digits, most significant digit first. */
  function DigitsValue(s: string): (v: nat)
    requires AllDigits(s)
    ensures v < Pow10(|s|)
  {
    if s == [] then 0
    else
      var v' := DigitsValue(s[..|s| - 1]);
      assert v' <= Pow10(|s| - 1) - 1;
      v' * 10 + DigitValue(s[|s| - 1])
  }

  /** Reading a concatenation shifts the first part by the length of the second. */
  lemma {:induction false} DigitsValueAppend(a: string, b: string)
    requires AllDigits(a) && AllDigits(b)
    ensures AllDigits(a + b)
    ensures DigitsValue(a + b) == DigitsValue(a) * Pow10(|b|) + DigitsValue(b)
  {
    assert AllDigits(a + b);
    if b == [] {
      assert a + b == a;
    } else {
      var b' := b[..|b| - 1];
      var last := b[|b| - 1];
      assert (a + b)[..|a + b| - 1] == a + b';
      assert (a + b)[|a + b| - 1] == last;
      DigitsValueAppend(a, b');
      var x, y, p := DigitsValue(a), DigitsValue(b'), Pow10(|b'|);
      assert DigitsValue(a + b) == DigitsValue(a + b') * 10 + DigitValue(last);
      assert DigitsValue(b) == y * 10 + DigitValue(last);
      ShiftByTen(x, y, p);
    }
  }

  /** Distributing a shift by ten; stated apart so DigitsValueAppend sees no other nonlinear arithmetic. */
  lemma ShiftByTen(x: nat, y: nat, p: nat)
    ensures (x * p + y) * 10 == x * (10 * p) + y * 10
  {
  }

  /** Python's str(n) for a natural n: its decimal digits without leading zeros. */
  function NatToDigits(n: nat): (r: string)
    ensures |r| >= 1 && AllDigits(r)
    ensures DigitsValue(r) == n
    ensures |r| > 1 ==> r[0] != '0'
  {
    if n < 10 then [DigitChar(n)]
    else
      var r := NatToDigits(n / 10) + [DigitChar(n % 10)];
      assert r[..|r| - 1] == NatToDigits(n / 10);
      r
  }

  /** str.replace(c, ""): every occurrence of c removed, everything else kept in order. */
  function Without(s: string, c: char): (r: string)
    ensures c !in r
    ensures |r| <= |s|
  {
    if s == [] then [] else (if s[0] == c then [] else [s[0]]) + Without(s[1..], c)
  }

  /** Every other character occurs in the result exactly as often as in s. */
  lemma {:induction false} WithoutCounts(s: string, c: char)
    ensures forall x :: x != c ==> multiset(Without(s, c))[x] == multiset(s)[x]
  {
    if s != [] {
      assert s == [s[0]] + s[1..];
      WithoutCounts(s[1..], c);
    }
  }

  /** Removal works piece by piece, so the characters that stay keep their order. */
  lemma {:induction false} WithoutAppend(a: string, b: string, c: char)
    ensures Without(a + b, c) == Without(a, c) + Without(b, c)
  {
    if a == [] {
      assert a + b == b;
    } else {
      assert (a + b)[0] == a[0] && (a + b)[1..] == a[1..] + b;
      WithoutAppend(a[1..], b, c);
    }
  }

  /** Removing the single c that separates two c-free parts joins the parts. */
  lemma WithoutBetween(a: string, b: string, c: char)
    requires c !in a && c !in b
    ensures Without(a + [c] + b, c) == a + b
  {
    assert Without([c], c) == [] by {
      assert [c][1..] == [];
    }
    calc {
      Without(a + [c] + b, c);
      { WithoutAppend(a + [c], b, c); }
      Without(a + [c], c) + Without(b, c);
      { WithoutAppend(a, [c], c); }
      Without(a, c) + Without([c], c) + Without(b, c);
      { WithoutAbsent(a, c); WithoutAbsent(b, c); }
      a + [] + b;
      { assert a + [] == a; }
      a + b;
    }
  }

  /** A string that has no c in it is left unchanged. */
  lemma {:induction false} WithoutAbsent(s: string, c: char)
    requires c !in s
    ensures Without(s, c) == s
  {
    if s != [] {
      assert s == [s[0]] + s[1..];
      WithoutAbsent(s[1..], c);
    }
  }

  /** The position of the first c in s, as str.find reports it (None for -1). */
  function IndexOf(s: string, c: char): (r: Option<nat>)
    ensures r.None? <==> c !in s
    ensures r.Some? ==> r.value < |s| && s[r.value] == c && c !in s[..r.value]
  {
    if s == [] then None
    else if s[0] == c then Some(0)
    else
      match IndexOf(s[1..], c)
      case None => assert s == [s[0]] + s[1..]; None
      case Some(i) => assert s[..i + 1] == [s[0]] + s[1..][..i]; Some(i + 1)
  }

  /** s.split(c)[0]: the longest prefix of s that holds no c. */
  function FirstField(s: string, c: char): (r: string)
    ensures |r| <= |s| && r == s[..|r|]
    ensures c !in r
    ensures |r| < |s| ==> s[|r|] == c
  {
    match IndexOf(s, c)
    case None => s
    case Some(i) => s[..i]
  }

  /** s.split(c)[1]: the field after the first c, or None where Python raises IndexError. */
  function SecondField(s: string, c: char): (r: Option<string>)
    ensures r.None? <==> c !in s
    ensures r.Some? ==> c !in r.value
  {
    match IndexOf(s, c)
    case None => None
    case Some(i) => Some(FirstField(s[i + 1..], c))
  }

  predicate IsLower(c: char) { 'a' <= c <= 'z' }

  predicate IsUpper(c: char) { 'A' <= c <= 'Z' }

  function ToUpper(c: char): (r: char)
    ensures !IsLower(r)
    ensures IsLower(c) ==> IsUpper(r) && r as int == c as int - 32
    ensures !IsLower(c) ==> r == c
  {
    if IsLower(c) then (c as int - 32) as char else c
  }

  function ToLower(c: char): (r: char)
    ensures !IsUpper(r)
    ensures IsUpper(c) ==> IsLower(r) && r as int == c as int + 32
    ensures !IsUpper(c) ==> r == c
  {
    if IsUpper(c) then (c as int + 32) as char else c
  }

  /** Every ASCII capital replaced by its small letter. */
  function LowerAll(s: string): (r: string)
    ensures |r| == |s|
  {
    if s == [] then [] else [ToLower(s[0])] + LowerAll(s[1..])
  }

  lemma {:induction false} LowerAllAt(s: string, k: nat)
    requires k < |s|
    ensures LowerAll(s)[k] == ToLower(s[k])
  {
    if k > 0 {
      LowerAllAt(s[1..], k - 1);
    }
  }

  /** str.capitalize on ASCII letters: first character upper-cased, the rest lower-cased. */
  function Capitalize(s: string): (r: string)
    ensures |r| == |s|
  {
    if s == [] then [] else [ToUpper(s[0])] + LowerAll(s[1..])
  }

  /**
   * The capitalised text differs from the original only in letter case: its
   * first character is not a small letter and no later one is a capital.
   */
  lemma CapitalizeAt(s: string, k: nat)
    requires k < |s|
    ensures ToLower(Capitalize(s)[k]) == ToLower(s[k])
    ensures k == 0 ==> !IsLower(Capitalize(s)[k])
    ensures k > 0 ==> Capitalize(s)[k] == ToLower(s[k]) && !IsUpper(Capitalize(s)[k])
  {
    if k > 0 {
      LowerAllAt(s[1..], k - 1);
    }
  }

  /** Capitalising twice gives the same text as capitalising once. */
  lemma CapitalizeIdempotent(s: string)
    ensures Capitalize(Capitalize(s)) == Capitalize(s)
  {
    var r := Capitalize(s);
    if s != [] {
      forall k | 1 <= k < |s| ensures Capitalize(r)[k] == r[k] {
        CapitalizeAt(r, k);
        CapitalizeAt(s, k);
      }
    }
  }
}
