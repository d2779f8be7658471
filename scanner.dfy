/**
 * The salary-number scan applied to every search snippet: Python's
 * re.findall with the pattern \d{1,3}(?:,\d{3}) (ASCII digits only).
 *
 * The regular-expression engine tries each start position from left to
 * right. At a position it takes three leading digits if it can and backs off
 * to two and then one when the comma does not follow; after a match the
 * search resumes at the match's end, so matches never overlap.
 */
module Scanner {
  import opened Wrappers
  import opened Text

  /** A string the pattern matches in full: one to three digits, a comma, three digits. */
  predicate IsToken(t: string) {
    5 <= |t| <= 7 && AllDigits(t[..|t| - 4]) && t[|t| - 4] == ',' && AllDigits(t[|t| - 3..])
  }

  /** The engine's attempt with exactly k leading digits at position i. */
  predicate FitsWith(s: string, i: nat, k: nat) {
    i + k + 4 <= |s| && IsToken(s[i..i + k + 4])
  }

  /** Every character before a token's comma is a digit. */
  lemma LeadIsNotComma(t: string, m: nat)
    requires IsToken(t) && m < |t| - 4
    ensures IsDigit(t[m])
  {
    assert t[..|t| - 4][m] == t[m];
  }

  /** At most one token starts at any position: the comma fixes its length. */
  lemma TokenAtMostOne(s: string, i: nat, j1: nat, j2: nat)
    requires i <= j1 <= |s| && i <= j2 <= |s|
    requires IsToken(s[i..j1]) && IsToken(s[i..j2])
    ensures j1 == j2
  {
    if j1 < j2 {
      LeadIsNotComma(s[i..j2], j1 - 4 - i);
      assert false;
    } else if j2 < j1 {
      LeadIsNotComma(s[i..j1], j2 - 4 - i);
      assert false;
    }
  }

  /**
   * The end of the match that starts at position i, if one does: three
   * leading digits first, then two, then one.
   */
  function MatchAt(s: string, i: nat): (r: Option<nat>)
    ensures r.Some? ==> i + 5 <= r.value <= |s| && IsToken(s[i..r.value])
  {
    if FitsWith(s, i, 3) then Some(i + 7)
    else if FitsWith(s, i, 2) then Some(i + 6)
    else if FitsWith(s, i, 1) then Some(i + 5)
    else None
  }

  /**
   * Greedy matching with backtracking finds exactly the one token that starts
   * at i: whenever s[i..j] is a token, MatchAt reports the end j.
   */
  lemma MatchAtFindsToken(s: string, i: nat, j: nat)
    requires i <= j <= |s| && IsToken(s[i..j])
    ensures MatchAt(s, i) == Some(j)
  {
    assert FitsWith(s, i, j - i - 4);
    var r := MatchAt(s, i);
    if r.Some? { TokenAtMostOne(s, i, j, r.value); }
  }

  /** A match reported by the scan: the half-open range [start, end) of the snippet. */
  datatype Span = Span(start: nat, end: nat)

  /** Every span lies in s from position i on, is non-empty, and holds a token. */
  ghost predicate SpansOf(s: string, i: nat, sp: seq<Span>) {
    forall k :: 0 <= k < |sp| ==> i <= sp[k].start < sp[k].end <= |s| && IsToken(s[sp[k].start..sp[k].end])
  }

  /** The matches findall reports from position i on, left to right. */
  function Scan(s: string, i: nat): (sp: seq<Span>)
    ensures forall k :: 0 <= k < |sp| ==> i <= sp[k].start < sp[k].end <= |s|
    decreases |s| - i
  {
    if i >= |s| then []
    else
      match MatchAt(s, i)
      case Some(e) => [Span(i, e)] + Scan(s, e)
      case None => Scan(s, i + 1)
  }

  /** The text of each span, in order. */
  function Texts(s: string, sp: seq<Span>): (ts: seq<string>)
    requires forall k :: 0 <= k < |sp| ==> sp[k].start <= sp[k].end <= |s|
    ensures |ts| == |sp|
  {
    if sp == [] then [] else [s[sp[0].start..sp[0].end]] + Texts(s, sp[1..])
  }

  /** The k-th text is the slice of the k-th span. */
  lemma {:induction false} TextsAt(s: string, sp: seq<Span>, k: nat)
    requires forall k :: 0 <= k < |sp| ==> sp[k].start <= sp[k].end <= |s|
    requires k < |sp|
    ensures Texts(s, sp)[k] == s[sp[k].start..sp[k].end]
  {
    if k > 0 {
      TextsAt(s, sp[1..], k - 1);
    }
  }

  /** Every match of the salary pattern in s (findall), as text, left to right. */
  function Matches(s: string): seq<string> {
    Texts(s, Scan(s, 0))
  }

  /** Every reported span is a whole token, and each starts at or after the previous one's end. */
  lemma {:induction false} ScanSound(s: string, i: nat)
    ensures SpansOf(s, i, Scan(s, i))
    ensures forall k, l :: 0 <= k < l < |Scan(s, i)| ==> Scan(s, i)[k].end <= Scan(s, i)[l].start
    decreases |s| - i
  {
    if i < |s| {
      match MatchAt(s, i)
      case Some(e) => ScanSound(s, e);
      case None => ScanSound(s, i + 1);
    }
  }

  /** Position p lies inside one of the reported spans. */
  ghost predicate Covered(sp: seq<Span>, p: nat) {
    exists k :: 0 <= k < |sp| && sp[k].start <= p < sp[k].end
  }

  /**
   * Leftmost matching: every position where a token starts is either the start
   * of a reported match or lies inside one; nothing is skipped over.
   */
  lemma {:induction false} ScanComplete(s: string, i: nat, p: nat)
    requires i <= p && MatchAt(s, p).Some?
    ensures Covered(Scan(s, i), p)
    decreases |s| - i
  {
    if i < |s| {
      var sp := Scan(s, i);
      match MatchAt(s, i)
      case Some(e) =>
        assert sp == [Span(i, e)] + Scan(s, e);
        if p < e {
          assert Covered(sp, p) by {
            assert sp[0].start <= p < sp[0].end;
          }
        } else {
          ScanComplete(s, e, p);
          var k :| 0 <= k < |Scan(s, e)| && Scan(s, e)[k].start <= p < Scan(s, e)[k].end;
          assert Covered(sp, p) by {
            assert sp[k + 1] == Scan(s, e)[k];
          }
        }
      case None =>
        assert sp == Scan(s, i + 1);
        ScanComplete(s, i + 1, p);
    }
  }

  /** No token of the snippet is skipped: where one starts, a reported match covers that position. */
  lemma NoTokenSkipped(s: string, p: nat, j: nat)
    requires p <= j <= |s| && IsToken(s[p..j])
    ensures Covered(Scan(s, 0), p)
  {
    MatchAtFindsToken(s, p, j);
    ScanComplete(s, 0, p);
  }

  /** Each string findall returns is a token of the pattern. */
  lemma MatchesAreTokens(s: string)
    ensures forall k :: 0 <= k < |Matches(s)| ==> IsToken(Matches(s)[k])
  {
    ScanSound(s, 0);
    forall k | 0 <= k < |Matches(s)|
      ensures IsToken(Matches(s)[k])
    {
      TextsAt(s, Scan(s, 0), k);
    }
  }

  /** One step of the scan at a position inside the snippet: report the match there and jump past it, or move on by one. */
  lemma MatchesStep(s: string, i: nat)
    requires i < |s|
    ensures MatchAt(s, i).Some? ==>
      Texts(s, Scan(s, i)) == [s[i..MatchAt(s, i).value]] + Texts(s, Scan(s, MatchAt(s, i).value))
    ensures MatchAt(s, i).None? ==> Texts(s, Scan(s, i)) == Texts(s, Scan(s, i + 1))
  {
  }

  /** The findall loop: try each position, and jump past every match found. */
  method FindAll(s: string) returns (found: seq<string>)
    ensures found == Matches(s)
  {
    found := [];
    var i := 0;
    while i < |s|
      invariant found + Texts(s, Scan(s, i)) == Matches(s)
      decreases |s| - i
    {
      MatchesStep(s, i);
      match MatchAt(s, i)
      case Some(e) =>
        found := found + [s[i..e]];
        i := e;
      case None =>
        i := i + 1;
    }
  }

  /** Removing the comma from a token leaves its two digit groups side by side. */
  lemma StripComma(t: string)
    requires IsToken(t)
    ensures Without(t, ',') == t[..|t| - 4] + t[|t| - 3..]
    ensures AllDigits(Without(t, ','))
  {
    var head, tail := t[..|t| - 4], t[|t| - 3..];
    assert t == head + [','] + tail;
    assert ',' !in head && ',' !in tail;
    WithoutBetween(head, tail, ',');
    AllDigitsAppend(head, tail);
  }

  /** Two digit runs side by side form one digit run. */
  lemma AllDigitsAppend(a: string, b: string)
    requires AllDigits(a) && AllDigits(b)
    ensures AllDigits(a + b)
  {
    forall k | 0 <= k < |a + b|
      ensures IsDigit((a + b)[k])
    {
      if k < |a| { assert (a + b)[k] == a[k]; } else { assert (a + b)[k] == b[k - |a|]; }
    }
  }

  /** A token's integer value: its digits, with the comma removed, read as one decimal number. */
  function TokenValue(t: string): nat
    requires IsToken(t)
  {
    StripComma(t);
    DigitsValue(Without(t, ','))
  }

  /** A token's value is its leading group times a thousand plus its last three digits. */
  lemma TokenValueParts(t: string)
    requires IsToken(t)
    ensures TokenValue(t) == DigitsValue(t[..|t| - 4]) * 1000 + DigitsValue(t[|t| - 3..])
    ensures TokenValue(t) <= 999999
  {
    var head, tail := t[..|t| - 4], t[|t| - 3..];
    StripComma(t);
    DigitsValueAppend(head, tail);
    assert Pow10(3) == 1000;
    assert DigitsValue(head) < Pow10(|head|) <= 1000;
  }

  /** Only the first 1,234 of 1,2345 is a match: exactly three digits follow the comma. */
  lemma ExampleTrailingDigit()
    ensures Matches("1,2345") == ["1,234"]
  {
    var s := "1,2345";
    assert !FitsWith(s, 0, 3) && !FitsWith(s, 0, 2);
    assert IsToken(s[0..5]);
    assert MatchAt(s, 0) == Some(5);
    assert MatchAt(s, 5) == None;
    assert Scan(s, 6) == [] && Scan(s, 5) == [];
    assert Scan(s, 0) == [Span(0, 5)];
    assert s[0..5] == "1,234";
  }

  /** In 1234,567 no token starts at the first digit, so the match is 234,567. */
  lemma ExampleLeadingDigitDropped()
    ensures Matches("1234,567") == ["234,567"]
  {
    var s := "1234,567";
    assert !IsToken(s[0..7]) && !IsToken(s[0..6]) && !IsToken(s[0..5]);
    assert MatchAt(s, 0) == None;
    assert IsToken(s[1..8]);
    assert MatchAt(s, 1) == Some(8);
    assert Scan(s, 8) == [];
    assert Scan(s, 1) == [Span(1, 8)];
    assert Scan(s, 0) == [Span(1, 8)];
    assert s[1..8] == "234,567";
  }

  /** After 1,234 the scan resumes at the second comma, so ,567 is not matched. */
  lemma ExampleNoResumeInside()
    ensures Matches("1,234,567") == ["1,234"]
  {
    var s := "1,234,567";
    assert !IsToken(s[0..7]) && !IsToken(s[0..6]);
    assert IsToken(s[0..5]);
    assert MatchAt(s, 0) == Some(5);
    assert forall j :: 5 <= j <= |s| ==> !IsToken(s[5..j]);
    assert MatchAt(s, 5) == None;
    assert forall j :: 6 <= j <= |s| ==> !IsToken(s[6..j]);
    assert MatchAt(s, 6) == None;
    assert MatchAt(s, 7) == None;
    assert MatchAt(s, 8) == None;
    assert Scan(s, 9) == [] && Scan(s, 8) == [] && Scan(s, 7) == [];
    assert Scan(s, 6) == [] && Scan(s, 5) == [];
    assert Scan(s, 0) == [Span(0, 5)];
    assert s[0..5] == "1,234";
  }
}
