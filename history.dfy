/**
 * The report page's small text rules and its session history: the
 * experience phrase put into the request, the experience label shown in
 * the history, the history list itself (append, clear, newest first) and
 * the copy-button text with its quote characters removed.
 */
module Report {
  import opened Wrappers
  import opened Text

  /** The phrase used when no experience is given (zero years). */
  const MarketAveragePhrase: string := "בהתאם לממוצע השוק"
  /** The words around the number of years in the experience phrase. */
  const ForPrefix: string := "עבור "
  const YearsSuffix: string := " שנות ניסיון"
  /** The history label used when the entry's experience is zero or missing. */
  const MarketAverageLabel: string := "ממוצע שוק"

  /** exp_text: the market-average phrase for 0, otherwise "for n years of experience". */
  function ExperiencePhrase(n: nat): (r: string)
    ensures n == 0 <==> r == MarketAveragePhrase
    ensures n > 0 ==> |r| > |ForPrefix| + |YearsSuffix| && r[..|ForPrefix|] == ForPrefix
  {
    if n == 0 then MarketAveragePhrase
    else
      var r := ForPrefix + NatToDigits(n) + YearsSuffix;
      assert r[0] == ForPrefix[0] != MarketAveragePhrase[0];
      r
  }

  /** Reads the number of years back out of an experience phrase. */
  function ReadExperience(t: string): (r: Option<nat>)
  {
    if t == MarketAveragePhrase then Some(0)
    else if |t| > |ForPrefix| + |YearsSuffix|
      && t[..|ForPrefix|] == ForPrefix
      && t[|t| - |YearsSuffix|..] == YearsSuffix
      && AllDigits(t[|ForPrefix|..|t| - |YearsSuffix|])
    then Some(DigitsValue(t[|ForPrefix|..|t| - |YearsSuffix|]))
    else None
  }

  /** The phrase names the number of years it was made from. */
  lemma ReadExperiencePhrase(n: nat)
    ensures ReadExperience(ExperiencePhrase(n)) == Some(n)
  {
    if n > 0 {
      var d := NatToDigits(n);
      var t := ExperiencePhrase(n);
      assert t == ForPrefix + d + YearsSuffix;
      assert t[|ForPrefix|..|t| - |YearsSuffix|] == d;
      assert t[|t| - |YearsSuffix|..] == YearsSuffix;
    }
  }

  /** Different numbers of years give different phrases. */
  lemma ExperiencePhraseInjective(m: nat, n: nat)
    requires ExperiencePhrase(m) == ExperiencePhrase(n)
    ensures m == n
  {
    ReadExperiencePhrase(m);
    ReadExperiencePhrase(n);
  }

  /** The history label (exp_label): a missing experience counts as zero; zero gives the market-average label, any other count "n years of experience". */
  function ExperienceLabel(exp: Option<nat>): (r: string)
    ensures (exp.None? || exp == Some(0)) <==> r == MarketAverageLabel
  {
    var n := if exp.Some? then exp.value else 0;
    if n == 0 then MarketAverageLabel
    else
      var r := NatToDigits(n) + YearsSuffix;
      assert |r| > |MarketAverageLabel|;
      r
  }

  /** For a positive count, the request phrase is the history label after the word "for". */
  lemma PhraseExtendsLabel(n: nat)
    requires n > 0
    ensures ExperiencePhrase(n) == ForPrefix + ExperienceLabel(Some(n))
  {
    assert ForPrefix + NatToDigits(n) + YearsSuffix == ForPrefix + (NatToDigits(n) + YearsSuffix);
  }

  /** One report in the session history. */
  datatype Entry = Entry(job: string, exp: nat, time: string, report: string)

  /** The expander heading of a history entry: job, experience label and time, separated by dashes. */
  function Title(e: Entry): string {
    e.job + " — " + ExperienceLabel(Some(e.exp)) + " — " + e.time
  }

  /** The characters Python counts as whitespace, which stripping removes from both ends. */
  predicate IsSpace(c: char) {
    ('\t' <= c <= '\r') || ('\U{1C}' <= c <= ' ') || c == '\U{85}' || c == '\U{A0}' || c == '\U{1680}'
    || ('\U{2000}' <= c <= '\U{200A}') || c == '\U{2028}' || c == '\U{2029}' || c == '\U{202F}'
    || c == '\U{205F}' || c == '\U{3000}'
  }

  /** The job title is empty or only whitespace, so stripping it leaves nothing. */
  predicate IsBlank(s: string) {
    forall k :: 0 <= k < |s| ==> IsSpace(s[k])
  }

  /** The list reversed: the history shown newest first. */
  function Reversed<T>(s: seq<T>): (r: seq<T>)
    ensures |r| == |s|
  {
    if s == [] then [] else Reversed(s[1..]) + [s[0]]
  }

  /** Position k of the reversed list holds the k-th entry counted from the end. */
  lemma {:induction false} ReversedAt<T>(s: seq<T>, k: nat)
    requires k < |s|
    ensures Reversed(s)[k] == s[|s| - 1 - k]
  {
    if k < |s| - 1 {
      ReversedAt(s[1..], k);
    }
  }

  /** The newest entry is shown first, ahead of everything shown before. */
  lemma {:induction false} ReversedSnoc<T>(s: seq<T>, x: T)
    ensures Reversed(s + [x]) == [x] + Reversed(s)
  {
    if s != [] {
      assert (s + [x])[1..] == s[1..] + [x];
      ReversedSnoc(s[1..], x);
    }
  }

  /** Showing the shown list in reverse gives the insertion order back. */
  lemma {:induction false} ReversedTwice<T>(s: seq<T>)
    ensures Reversed(Reversed(s)) == s
  {
    if s != [] {
      ReversedTwice(s[1..]);
      ReversedSnoc(Reversed(s[1..]), s[0]);
    }
  }

  /** st.session_state["history"]: the reports of this session, oldest first. */
  class History {
    var entries: seq<Entry>

    /** The list is created empty on the first page load. */
    constructor ()
      ensures entries == []
    {
      entries := [];
    }

    /** The clear button replaces the list with an empty one. */
    method Clear()
      modifies this
      ensures entries == []
    {
      entries := [];
    }

    /**
     * A report request: with a blank job title nothing is recorded; otherwise
     * exactly one entry is appended and the earlier ones stay as they were.
     */
    method Record(job: string, exp: nat, time: string, report: string)
      modifies this
      ensures IsBlank(job) ==> entries == old(entries)
      ensures !IsBlank(job) ==> entries == old(entries) + [Entry(job, exp, time, report)]
    {
      if !IsBlank(job) {
        entries := entries + [Entry(job, exp, time, report)];
      }
    }

    /** The expander headings, walking the list from its newest entry back to its oldest. */
    method Titles() returns (titles: seq<string>)
      ensures |titles| == |entries|
      ensures forall k :: 0 <= k < |titles| ==> titles[k] == Title(Reversed(entries)[k])
    {
      titles := [];
      var k := |entries|;
      while k > 0
        invariant 0 <= k <= |entries|
        invariant |titles| == |entries| - k
        invariant forall m :: 0 <= m < |titles| ==> titles[m] == Title(Reversed(entries[k..])[m])
      {
        assert entries[k - 1..][1..] == entries[k..];
        k := k - 1;
        titles := titles + [Title(entries[k])];
      }
      assert entries[0..] == entries;
    }
  }

  /** The copy button's text: the report with every backtick, double quote and single quote removed. */
  function CopyText(md: string): (r: string)
    ensures '`' !in r && '"' !in r && '\'' !in r
  {
    var a := Without(md, '`');
    var b := Without(a, '"');
    var r := Without(b, '\'');
    WithoutCounts(a, '"');
    WithoutCounts(b, '\'');
    assert multiset(r)['`'] == multiset(b)['`'] == multiset(a)['`'] == 0;
    assert multiset(r)['"'] == multiset(b)['"'] == 0;
    r
  }

  /** Every character other than the three quotes occurs in the copy text exactly as often as in the report. */
  lemma CopyTextCounts(md: string)
    ensures forall x :: !IsQuote(x) ==> multiset(CopyText(md))[x] == multiset(md)[x]
  {
    var a := Without(md, '`');
    var b := Without(a, '"');
    WithoutCounts(md, '`');
    WithoutCounts(a, '"');
    WithoutCounts(b, '\'');
  }

  /** The characters the copy text drops. */
  predicate IsQuote(c: char) { c == '`' || c == '"' || c == '\'' }

  /** Removing the quotes a second time changes nothing. */
  lemma CopyTextIdempotent(md: string)
    ensures CopyText(CopyText(md)) == CopyText(md)
  {
    var r := CopyText(md);
    WithoutAbsent(r, '`');
    WithoutAbsent(r, '"');
    WithoutAbsent(r, '\'');
  }

  /** The copy text of a concatenation is the concatenation of the copy texts. */
  lemma CopyTextAppend(a: string, b: string)
    ensures CopyText(a + b) == CopyText(a) + CopyText(b)
  {
    WithoutAppend(a, b, '`');
    WithoutAppend(Without(a, '`'), Without(b, '`'), '"');
    WithoutAppend(Without(Without(a, '`'), '"'), Without(Without(b, '`'), '"'), '\'');
  }

  /** A single character is dropped exactly when it is a quote. */
  lemma CopyTextChar(c: char)
    ensures CopyText([c]) == if IsQuote(c) then [] else [c]
  {
  }

  /**
   * The copy text keeps the other characters in their order: it is the report
   * with its quote characters deleted one by one, left to right.
   */
  lemma {:induction false} CopyTextKeepsOrder(md: string)
    ensures CopyText(md) == Unquoted(md)
  {
    if md != [] {
      assert md == [md[0]] + md[1..];
      CopyTextAppend([md[0]], md[1..]);
      CopyTextChar(md[0]);
      CopyTextKeepsOrder(md[1..]);
    }
  }

  /** Reference definition: walk the report and keep each character that is not a quote. */
  function Unquoted(md: string): string {
    if md == [] then [] else (if IsQuote(md[0]) then [] else [md[0]]) + Unquoted(md[1..])
  }
}
