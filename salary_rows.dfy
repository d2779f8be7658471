/**
 * The live-data table built from search snippets: for every source, every
 * snippet's salary numbers become one summary row (source label, minimum,
 * maximum, truncated mean); snippets without numbers add nothing. The search
 * call itself is outside the model: each source comes with the snippets its
 * response held, in response order.
 */
module SalaryRows {
  import opened Wrappers
  import opened Text
  import opened Scanner

  /** One row of the live-data table. */
  datatype Row = Row(source: string, minimum: nat, maximum: nat, average: nat)

  /** A search source ("site:<host>") and the snippets of its result items, in order. */
  datatype Feed = Feed(source: string, snippets: seq<string>)

  /** src[i+1..j] is the text after the first ':' up to the next ':' or '.', or the end. */
  ghost predicate IsLabelSegment(src: string, i: nat, j: nat) {
    && i < j <= |src|
    && src[i] == ':' && ':' !in src[..i]
    && ':' !in src[i + 1..j] && '.' !in src[i + 1..j]
    && (j < |src| ==> src[j] == ':' || src[j] == '.')
  }

  /**
   * The source's label: the second ':'-separated field, cut at its first '.',
   * then capitalised; None where src has no ':' and Python raises IndexError.
   */
  function SourceLabel(src: string): (r: Option<string>)
    ensures r.None? <==> ':' !in src
  {
    match SecondField(src, ':')
    case None => None
    case Some(field) => Some(Capitalize(FirstField(field, '.')))
  }

  /** The label is the text between the first ':' and the next '.' (or ':'), capitalised. */
  lemma SourceLabelIsSegment(src: string)
    requires ':' in src
    ensures exists i: nat, j: nat :: IsLabelSegment(src, i, j) && SourceLabel(src) == Some(Capitalize(src[i + 1..j]))
  {
    var i := IndexOf(src, ':').value;
    var rest := src[i + 1..];
    var field := FirstField(rest, ':');
    assert SecondField(src, ':') == Some(field);
    var seg := FirstField(field, '.');
    var j := i + 1 + |seg|;
    assert seg == src[i + 1..j];
    assert j < |src| ==> src[j] == ':' || src[j] == '.' by {
      if j < |src| {
        assert src[j] == rest[|seg|];
        if |seg| < |field| {
          assert field[|seg|] == '.';
        } else {
          assert seg == field && |field| < |rest| && rest[|field|] == ':';
        }
      }
    }
    assert IsLabelSegment(src, i, j);
  }

  /** A source of the form site:<host>.<rest> is labelled with its capitalised host. */
  lemma LabelOfSite(host: string, rest: string)
    requires ':' !in host && '.' !in host && ':' !in rest
    requires |rest| > 0 && rest[0] == '.'
    ensures SourceLabel("site:" + host + rest) == Some(Capitalize(host))
  {
    var src := "site:" + host + rest;
    assert src[4] == ':' && ':' !in src[..4];
    assert IndexOf(src, ':') == Some(4);
    assert src[5..] == host + rest;
    assert ':' !in host + rest;
    assert FirstField(host + rest, ':') == host + rest;
    var f := FirstField(host + rest, '.');
    assert (host + rest)[..|host|] == host;
    assert |f| == |host|;
  }

  /** Small letters only: capitalising just raises the first one. */
  lemma CapitalizeLowerWord(w: string)
    requires |w| > 0 && forall k :: 0 <= k < |w| ==> IsLower(w[k])
    ensures Capitalize(w) == [ToUpper(w[0])] + w[1..]
  {
    forall k | 0 <= k < |w| - 1 ensures LowerAll(w[1..])[k] == w[1..][k] {
      LowerAllAt(w[1..], k);
    }
  }

  /** An Israeli site of lower-case host name h is labelled h with its first letter raised. */
  lemma IsraeliSiteLabel(host: string)
    requires |host| > 0 && forall k :: 0 <= k < |host| ==> IsLower(host[k])
    ensures SourceLabel("site:" + host + ".co.il") == Some([ToUpper(host[0])] + host[1..])
  {
    LabelOfSite(host, ".co.il");
    CapitalizeLowerWord(host);
  }

  /** Each matched token turned into its integer value, in the order of the matches. */
  function ValuesOf(tokens: seq<string>): (vs: seq<nat>)
    requires forall k :: 0 <= k < |tokens| ==> IsToken(tokens[k])
    ensures |vs| == |tokens|
    ensures forall k :: 0 <= k < |vs| ==> vs[k] == TokenValue(tokens[k]) && vs[k] <= 999999
  {
    if tokens == [] then []
    else
      TokenValueParts(tokens[0]);
      [TokenValue(tokens[0])] + ValuesOf(tokens[1..])
  }

  /** The salaries read from one snippet, in the order they appear. */
  function Salaries(snippet: string): (vs: seq<nat>)
    ensures |vs| == |Matches(snippet)|
    ensures forall k :: 0 <= k < |vs| ==> vs[k] <= 999999
  {
    MatchesAreTokens(snippet);
    ValuesOf(Matches(snippet))
  }

  function Sum(xs: seq<nat>): nat {
    if xs == [] then 0 else xs[0] + Sum(xs[1..])
  }

  /** Python's min: an element no larger than any other. */
  function Min(xs: seq<nat>): (m: nat)
    requires |xs| > 0
    ensures m in xs
    ensures forall k :: 0 <= k < |xs| ==> m <= xs[k]
  {
    if |xs| == 1 then xs[0]
    else
      var m' := Min(xs[1..]);
      assert forall k :: 1 <= k < |xs| ==> xs[k] == xs[1..][k - 1];
      if xs[0] <= m' then xs[0] else m'
  }

  /** Python's max: an element no smaller than any other. */
  function Max(xs: seq<nat>): (m: nat)
    requires |xs| > 0
    ensures m in xs
    ensures forall k :: 0 <= k < |xs| ==> xs[k] <= m
  {
    if |xs| == 1 then xs[0]
    else
      var m' := Max(xs[1..]);
      assert forall k :: 1 <= k < |xs| ==> xs[k] == xs[1..][k - 1];
      if xs[0] >= m' then xs[0] else m'
  }

  /** The average of the values, with its fractional part dropped. */
  function Mean(xs: seq<nat>): nat
    requires |xs| > 0
  {
    Sum(xs) / |xs|
  }

  /** The mean is the exact average rounded down: n times it is at most the sum, and less than n more. */
  lemma MeanTruncates(xs: seq<nat>)
    requires |xs| > 0
    ensures Mean(xs) * |xs| <= Sum(xs) < (Mean(xs) + 1) * |xs|
  {
    var n, q, r := |xs|, Sum(xs) / |xs|, Sum(xs) % |xs|;
    assert Sum(xs) == q * n + r && 0 <= r < n;
    assert (q + 1) * n == q * n + n;
  }

  /** The sum lies between |xs| copies of any lower bound and |xs| copies of any upper bound. */
  lemma {:induction false} SumBounds(xs: seq<nat>, lo: nat, hi: nat)
    requires forall k :: 0 <= k < |xs| ==> lo <= xs[k] <= hi
    ensures |xs| * lo <= Sum(xs) <= |xs| * hi
  {
    if xs != [] {
      SumBounds(xs[1..], lo, hi);
      assert |xs| * lo == lo + (|xs| - 1) * lo;
      assert |xs| * hi == hi + (|xs| - 1) * hi;
    }
  }

  /** Multiplication by a natural keeps order; stated apart so the proofs using it see no other arithmetic. */
  lemma MulMono(a: nat, b: nat, n: nat)
    requires a <= b
    ensures a * n <= b * n
  {
  }

  /** A quotient by n of something between lo * n and hi * n lies between lo and hi. */
  lemma DivBetween(lo: nat, hi: nat, s: nat, n: nat)
    requires n > 0 && n * lo <= s <= n * hi
    ensures lo <= s / n <= hi
  {
    var q, r := s / n, s % n;
    assert s == q * n + r && r < n;
    if q < lo {
      MulMono(q + 1, lo, n);
      assert false;
    }
    if q > hi {
      assert false;
    }
  }

  /** The truncated mean never leaves the range of the values it averages. */
  lemma MeanBetween(xs: seq<nat>)
    requires |xs| > 0
    ensures Min(xs) <= Mean(xs) <= Max(xs)
  {
    SumBounds(xs, Min(xs), Max(xs));
    DivBetween(Min(xs), Max(xs), Sum(xs), |xs|);
  }

  /**
   * The summary row of a list of salaries: minimum, maximum and truncated
   * mean under the source's label; none when the list is empty.
   */
  function Summary(name: string, salaries: seq<nat>): (r: Option<Row>)
    ensures r.None? <==> salaries == []
    ensures r.Some? ==> r.value.source == name
    ensures r.Some? ==> r.value.minimum in salaries && r.value.maximum in salaries
    ensures r.Some? ==> forall v :: v in salaries ==> r.value.minimum <= v <= r.value.maximum
    ensures r.Some? ==> r.value.minimum <= r.value.average <= r.value.maximum
  {
    if salaries == [] then None
    else
      MeanBetween(salaries);
      Some(Row(name, Min(salaries), Max(salaries), Mean(salaries)))
  }

  /** The row a snippet yields: none when it holds no salary number. */
  function SnippetRow(name: string, snippet: string): (r: Option<Row>)
    ensures r.None? <==> Matches(snippet) == []
    ensures r.Some? ==> r.value.maximum <= 999999
  {
    Summary(name, Salaries(snippet))
  }

  function AsRows(r: Option<Row>): seq<Row> {
    match r
    case None => []
    case Some(row) => [row]
  }

  /** f applied to each element, the results appended in order (the shape of a loop that appends). */
  function FlatMap<T, U>(xs: seq<T>, f: T -> seq<U>): seq<U> {
    if xs == [] then []
    else FlatMap(xs[..|xs| - 1], f) + f(xs[|xs| - 1])
  }

  /** Appending runs are never reordered or dropped: the output for a + b is a's output then b's. */
  lemma {:induction false} FlatMapAppend<T, U>(a: seq<T>, b: seq<T>, f: T -> seq<U>)
    ensures FlatMap(a + b, f) == FlatMap(a, f) + FlatMap(b, f)
  {
    if b == [] {
      assert a + b == a;
    } else {
      var b' := b[..|b| - 1];
      assert (a + b)[..|a + b| - 1] == a + b';
      assert (a + b)[|a + b| - 1] == b[|b| - 1];
      FlatMapAppend(a, b', f);
    }
  }

  /** Concatenation is associative; stated apart so that the loop-step proofs need not search for it. */
  lemma AppendAssoc<T>(a: seq<T>, b: seq<T>, c: seq<T>)
    ensures (a + b) + c == a + (b + c)
  {
  }

  /** One more element adds exactly its own output at the end. */
  lemma FlatMapSnoc<T, U>(xs: seq<T>, i: nat, f: T -> seq<U>)
    requires i < |xs|
    ensures FlatMap(xs[..i + 1], f) == FlatMap(xs[..i], f) + f(xs[i])
  {
    assert xs[..i + 1][..i] == xs[..i];
  }

  /** The rows of one source's snippets, appended in snippet order. */
  function RowsOf(name: string, snippets: seq<string>): seq<Row> {
    FlatMap(snippets, (snippet: string) => AsRows(SnippetRow(name, snippet)))
  }

  /**
   * The rows one source contributes. A source without ':' has no label; the
   * IndexError raised at its first numeric snippet is swallowed by the loop's
   * except clause, which moves on to the next source, so it contributes nothing.
   */
  function SourceRows(f: Feed): seq<Row> {
    match SourceLabel(f.source)
    case None => []
    case Some(name) => RowsOf(name, f.snippets)
  }

  /** One more snippet adds its own row, if it has one, at the end. */
  lemma RowsOfSnoc(name: string, snippets: seq<string>, j: nat)
    requires j < |snippets|
    ensures RowsOf(name, snippets[..j + 1]) == RowsOf(name, snippets[..j]) + AsRows(SnippetRow(name, snippets[j]))
  {
    FlatMapSnoc(snippets, j, (snippet: string) => AsRows(SnippetRow(name, snippet)));
  }

  /** The whole table: the sources' rows one after another, in source order. */
  function AllRows(feeds: seq<Feed>): seq<Row> {
    FlatMap(feeds, SourceRows)
  }

  function TotalSnippets(feeds: seq<Feed>): nat {
    if feeds == [] then 0
    else TotalSnippets(feeds[..|feeds| - 1]) + |feeds[|feeds| - 1].snippets|
  }

  /** Rows are only ever appended: the table of a longer source list extends that of its prefix. */
  lemma AllRowsAppend(a: seq<Feed>, b: seq<Feed>)
    ensures AllRows(a + b) == AllRows(a) + AllRows(b)
  {
    FlatMapAppend(a, b, SourceRows);
  }

  /** Within a source, rows follow the order of the snippets. */
  lemma RowsOfAppend(name: string, a: seq<string>, b: seq<string>)
    ensures RowsOf(name, a + b) == RowsOf(name, a) + RowsOf(name, b)
  {
    FlatMapAppend(a, b, (snippet: string) => AsRows(SnippetRow(name, snippet)));
  }

  lemma {:induction false} RowsOfBounded(name: string, snippets: seq<string>)
    ensures |RowsOf(name, snippets)| <= |snippets|
  {
    if snippets != [] {
      RowsOfBounded(name, snippets[..|snippets| - 1]);
    }
  }

  /** A snippet adds at most one row, so there are never more rows than snippets. */
  lemma {:induction false} RowCountBounded(feeds: seq<Feed>)
    ensures |AllRows(feeds)| <= TotalSnippets(feeds)
  {
    if feeds != [] {
      RowCountBounded(feeds[..|feeds| - 1]);
      var f := feeds[|feeds| - 1];
      if SourceLabel(f.source).Some? {
        RowsOfBounded(SourceLabel(f.source).value, f.snippets);
      }
    }
  }

  ghost predicate WellFormed(r: Row) {
    r.minimum <= r.average <= r.maximum <= 999999
  }

  lemma {:induction false} RowsOfWellFormed(name: string, snippets: seq<string>)
    ensures forall r :: r in RowsOf(name, snippets) ==> WellFormed(r) && r.source == name
  {
    if snippets != [] {
      RowsOfWellFormed(name, snippets[..|snippets| - 1]);
    }
  }

  /** Every row's minimum, mean and maximum are ordered and within six digits. */
  lemma {:induction false} AllRowsWellFormed(feeds: seq<Feed>)
    ensures forall r :: r in AllRows(feeds) ==> WellFormed(r)
  {
    if feeds != [] {
      AllRowsWellFormed(feeds[..|feeds| - 1]);
      var f := feeds[|feeds| - 1];
      if SourceLabel(f.source).Some? {
        RowsOfWellFormed(SourceLabel(f.source).value, f.snippets);
      }
    }
  }

  /** One snippet's salaries: scan it for the matches, then convert each to its integer value. */
  method ReadSalaries(snippet: string) returns (salaries: seq<nat>)
    ensures salaries == Salaries(snippet)
  {
    var found := FindAll(snippet);
    MatchesAreTokens(snippet);
    salaries := ValuesOf(found);
  }

  /** One pass of the inner loop keeps the rows equal to those of the snippets seen so far. */
  lemma RowsStep(rows: seq<Row>, before: seq<Row>, name: string, snippets: seq<string>, j: nat, salaries: seq<nat>)
    requires j < |snippets| && salaries == Salaries(snippets[j])
    requires rows == before + RowsOf(name, snippets[..j])
    ensures |salaries| == 0 ==> rows == before + RowsOf(name, snippets[..j + 1])
    ensures |salaries| > 0 ==>
      rows + [Row(name, Min(salaries), Max(salaries), Mean(salaries))] == before + RowsOf(name, snippets[..j + 1])
  {
    var done, added := RowsOf(name, snippets[..j]), AsRows(SnippetRow(name, snippets[j]));
    if |salaries| > 0 {
      assert Summary(name, salaries) == Some(Row(name, Min(salaries), Max(salaries), Mean(salaries)));
    }
    RowsOfSnoc(name, snippets, j);
    AppendAssoc(before, done, added);
  }

  /** One pass of the outer loop keeps the rows equal to those of the sources seen so far. */
  lemma FeedStep(rows: seq<Row>, before: seq<Row>, feeds: seq<Feed>, i: nat)
    requires i < |feeds| && before == AllRows(feeds[..i])
    requires SourceLabel(feeds[i].source).None? ==> rows == before
    requires SourceLabel(feeds[i].source).Some? ==>
      rows == before + RowsOf(SourceLabel(feeds[i].source).value, feeds[i].snippets)
    ensures rows == AllRows(feeds[..i + 1])
  {
    FlatMapSnoc(feeds, i, SourceRows);
  }

  /** The inner loop: the rows of one source's snippets, appended in snippet order. */
  method AppendSnippetRows(rows: seq<Row>, name: string, snippets: seq<string>) returns (out: seq<Row>)
    ensures out == rows + RowsOf(name, snippets)
  {
    out := rows;
    assert snippets[..0] == [];
    for j := 0 to |snippets|
      invariant out == rows + RowsOf(name, snippets[..j])
    {
      var salaries := ReadSalaries(snippets[j]);
      RowsStep(out, rows, name, snippets, j, salaries);
      if |salaries| > 0 {
        out := out + [Row(name, Min(salaries), Max(salaries), Mean(salaries))];
      }
    }
    assert snippets[..|snippets|] == snippets;
  }

  /**
   * The nested loops of the live-data fetch, with the search responses given
   * as feeds. The label does not depend on the item, so it is computed once per
   * source: a source without one yields no rows, which is what the IndexError
   * and the except clause amount to.
   */
  method CollectRows(feeds: seq<Feed>) returns (rows: seq<Row>)
    ensures rows == AllRows(feeds)
  {
    rows := [];
    for i := 0 to |feeds|
      invariant rows == AllRows(feeds[..i])
    {
      ghost var before := rows;
      var site := SourceLabel(feeds[i].source);
      if site.Some? {
        rows := AppendSnippetRows(rows, site.value, feeds[i].snippets);
      }
      FeedStep(rows, before, feeds, i);
    }
    assert feeds[..|feeds|] == feeds;
  }
}
