# Salary benchmark: snippet scraping, live-data rows and report history

`benda_salary_benchmark.py` is a Streamlit page that builds an Israeli salary
benchmark for a job title. Before it asks a language model for the table, it
searches six Israeli job and news sites. From every search-result snippet it
scrapes every run of 1-3 digits, a comma and 3 digits. Only one comma group is
taken: 1,234,567 yields only 1,234, and 1234,567 yields 234,567. Each snippet
with at least one match becomes one row of a live-data table: the source's label, the
minimum, the maximum and the truncated mean. Around that, the page keeps a
session history of the reports. The history is shown newest first, and each
entry is labelled with its experience. A copy button puts the report on the
clipboard with its quote characters stripped.

The project models that logic in five modules:

- `Wrappers` (`wrappers.dfy`): the `Option` type, used for Python's "may be missing".
- `Text` (`text.dfy`): ASCII digits and their decimal value, and the decimal
  form of a count. It also covers `str.replace(c, "")`, the splitting used for
  the label, and ASCII `capitalize`.
- `Scanner` (`scanner.dfy`): `re.findall(r"\d{1,3}(?:,\d{3})", snippet)`.
  - `MatchAt` is the engine's attempt at one position: three leading digits,
    then two, then one.
  - `Scan` is the left-to-right search that jumps past each match.
  - `FindAll` is the loop that implements it.
  - `TokenValue` is `int(x.replace(",", ""))`.
- `SalaryRows` (`salary_rows.dfy`): the source label, the per-snippet summary
  row and the nested loops that collect the rows. The search responses are
  given as input: each source comes with the snippets of its result items,
  in order.
- `Report` (`history.dfy`):
  - the experience phrase of the request and the experience label of the history;
  - the history as a class whose list is appended to, cleared and shown in reverse;
  - the copy-text sanitiser.

## Model

| member | source | states |
|---|---|---|
| Scanner.MatchAt | benda_salary_benchmark.py:58 | a match reported at position i ends 5 to 7 characters later, inside the snippet, and the text it covers is 1-3 digits, a comma and 3 digits |
| Scanner.MatchAtFindsToken | benda_salary_benchmark.py:58 | whenever a token starts at i, the greedy-with-backtracking attempt at i reports exactly that token's end |
| Scanner.TokenAtMostOne | benda_salary_benchmark.py:58 | at most one token starts at any position, because the comma fixes its length |
| Scanner.Scan | benda_salary_benchmark.py:58 | every reported span is non-empty and lies in the snippet at or after the starting position |
| Scanner.ScanSound | benda_salary_benchmark.py:58 | every reported span holds a whole token, and the spans come left to right without overlapping: each starts at or after the previous one's end |
| Scanner.ScanComplete | benda_salary_benchmark.py:58 | every position where the engine can match lies inside some reported span, so the search skips over nothing |
| Scanner.NoTokenSkipped | benda_salary_benchmark.py:58 | the start of every token in the snippet lies inside a reported match |
| Scanner.MatchesAreTokens | benda_salary_benchmark.py:58 | every string findall returns is 1-3 digits, a comma and exactly 3 digits |
| Scanner.TextsAt | benda_salary_benchmark.py:58 | the k-th returned string is the snippet's text under the k-th span |
| Scanner.MatchesStep | benda_salary_benchmark.py:58 | from a position inside the snippet, the remaining matches are the match there followed by those after its end, or, when none starts there, those from the next position |
| Scanner.FindAll | benda_salary_benchmark.py:58 | the position-advancing loop returns exactly the matches of the left-to-right search, in order |
| Scanner.ExampleTrailingDigit | benda_salary_benchmark.py:58 | "1,2345" yields only "1,234" |
| Scanner.ExampleLeadingDigitDropped | benda_salary_benchmark.py:58 | "1234,567" yields only "234,567": no token starts at the first digit, so the match begins one position later |
| Scanner.ExampleNoResumeInside | benda_salary_benchmark.py:58 | "1,234,567" yields only "1,234": the search resumes after the match and finds no token in ",567" |
| Scanner.Matches | benda_salary_benchmark.py:58 | findall's result: the text under each span of the left-to-right search. It has no ensures of its own; ScanSound and MatchesAreTokens state that each string is a token and the matches do not overlap, ScanComplete and NoTokenSkipped that none is skipped, and FindAll that the loop computes it |
| Scanner.TokenValue | benda_salary_benchmark.py:59 | a token's integer value, read from its digits with the comma removed. StripComma states what the comma removal leaves, and TokenValueParts that the value is lead * 1000 + tail and at most 999999 |
| Scanner.StripComma | benda_salary_benchmark.py:59 | removing the comma from a token leaves its leading digits and its last three digits side by side, all digits |
| Scanner.TokenValueParts | benda_salary_benchmark.py:59 | a token's integer value is its leading group times 1000 plus its last three digits, and is at most 999999 |
| Text.DigitsValue | benda_salary_benchmark.py:59 | the value of n decimal digits is below 10^n |
| Text.DigitsValueAppend | benda_salary_benchmark.py:59 | the digits of a followed by those of b read as a's value shifted by |b| places plus b's value |
| Text.WithoutBetween | benda_salary_benchmark.py:59 | removing the one separator between two separator-free parts joins the parts |
| Text.Without | benda_salary_benchmark.py:165 | the character removed no longer occurs and the string does not grow |
| Text.WithoutCounts | benda_salary_benchmark.py:165 | every other character occurs as often as before |
| Text.WithoutAppend | benda_salary_benchmark.py:165 | removal works piece by piece, so the remaining characters keep their order |
| Text.WithoutAbsent | benda_salary_benchmark.py:165 | a string without the character is left unchanged |
| Text.IndexOf | benda_salary_benchmark.py:62 | none exactly when the character is absent; otherwise the index of its first occurrence |
| Text.FirstField | benda_salary_benchmark.py:62 | split(c)[0]: the longest prefix free of c, which ends at the end or just before a c |
| Text.SecondField | benda_salary_benchmark.py:62 | split(c)[1]: missing exactly when there is no c, and free of c otherwise |
| Text.ToUpper | benda_salary_benchmark.py:62 | lower-case letters move to upper case and every other character stays |
| Text.ToLower | benda_salary_benchmark.py:62 | upper-case letters move to lower case and every other character stays |
| Text.LowerAllAt | benda_salary_benchmark.py:62 | lower-casing a string lower-cases each character in place |
| Text.LowerAll | benda_salary_benchmark.py:62 | lower-casing keeps the length; LowerAllAt states that each character is lower-cased in place |
| Text.Capitalize | benda_salary_benchmark.py:62 | capitalize keeps the length; CapitalizeAt states the case of each position and CapitalizeIdempotent that it is stable |
| Text.CapitalizeAt | benda_salary_benchmark.py:62 | capitalize raises the first character, lowers every other, and changes no letter into another |
| Text.CapitalizeIdempotent | benda_salary_benchmark.py:62 | capitalising a capitalised string changes nothing |
| SalaryRows.SourceLabel | benda_salary_benchmark.py:62 | the label is missing (Python raises IndexError) exactly when the source has no ':' |
| SalaryRows.SourceLabelIsSegment | benda_salary_benchmark.py:62 | the label is the capitalised text that runs from just after the first ':' up to the next '.' or ':' or the end |
| SalaryRows.LabelOfSite | benda_salary_benchmark.py:42-48 | a source "site:" + host + ".rest" is labelled with the capitalised host |
| SalaryRows.IsraeliSiteLabel | benda_salary_benchmark.py:43-48 | "site:h.co.il" with a lower-case host h is labelled h with its first letter raised, e.g. alljobs gives Alljobs |
| SalaryRows.CapitalizeLowerWord | benda_salary_benchmark.py:62 | on a lower-case word, capitalize raises only the first letter |
| SalaryRows.ValuesOf | benda_salary_benchmark.py:59 | one integer per token, in order, each the token's value and at most 999999 |
| SalaryRows.Salaries | benda_salary_benchmark.py:58-59 | a snippet yields as many salaries as findall matches, each at most 999999 |
| SalaryRows.Min | benda_salary_benchmark.py:63 | min(salaries) is one of the salaries and no larger than any of them |
| SalaryRows.Max | benda_salary_benchmark.py:64 | max(salaries) is one of the salaries and no smaller than any of them |
| SalaryRows.MeanTruncates | benda_salary_benchmark.py:65 | the mean is the exact average rounded down: count times mean is at most the sum and count times (mean + 1) exceeds it |
| SalaryRows.Mean | benda_salary_benchmark.py:65 | the truncated mean. It has no ensures of its own; MeanTruncates states that it is the exact average rounded down, and MeanBetween that it lies between the minimum and the maximum |
| SalaryRows.SumBounds | benda_salary_benchmark.py:65 | the sum of values between lo and hi lies between count times lo and count times hi |
| SalaryRows.DivBetween | benda_salary_benchmark.py:65 | a quotient by n of a number between n lo and n hi lies between lo and hi |
| SalaryRows.MeanBetween | benda_salary_benchmark.py:63-65 | minimum <= truncated mean <= maximum |
| SalaryRows.Summary | benda_salary_benchmark.py:60-66 | no row exactly when there are no salaries; otherwise a row under the given label whose minimum and maximum are salaries bounding all the others, with the mean between them |
| SalaryRows.SnippetRow | benda_salary_benchmark.py:57-66 | a snippet gives no row exactly when findall finds nothing in it, and its row's maximum is at most 999999 |
| SalaryRows.RowsOf | benda_salary_benchmark.py:56-66 | reference definition of one source's rows: the snippets' rows appended in item order. RowsOfSnoc, RowsOfAppend, RowsOfBounded and RowsOfWellFormed state its properties, and AppendSnippetRows that the item loop computes it |
| SalaryRows.SourceRows | benda_salary_benchmark.py:53-68 | reference definition of one source's contribution: nothing when the source has no ':' (the IndexError that the except clause swallows, moving to the next source), otherwise RowsOf under its label. FeedStep states that one pass of the source loop appends it |
| SalaryRows.AllRows | benda_salary_benchmark.py:50-69 | reference definition of the whole table: every source's rows in source order. AllRowsAppend, RowCountBounded and AllRowsWellFormed state its properties, and CollectRows that the nested loops compute it |
| SalaryRows.FlatMapAppend | benda_salary_benchmark.py:50-61 | appending loop output for a then b gives a's output followed by b's |
| SalaryRows.FlatMapSnoc | benda_salary_benchmark.py:50-61 | one more loop iteration adds exactly its own output at the end |
| SalaryRows.RowsOfSnoc | benda_salary_benchmark.py:56-61 | one more snippet adds its own row, if it has one, after the rows already there |
| SalaryRows.RowsOfAppend | benda_salary_benchmark.py:56-61 | within a source, rows follow the order of its items |
| SalaryRows.AllRowsAppend | benda_salary_benchmark.py:51-61 | rows keep the order of the source list, and nothing appended is removed |
| SalaryRows.RowsOfBounded | benda_salary_benchmark.py:56-61 | a source adds at most one row per snippet |
| SalaryRows.RowCountBounded | benda_salary_benchmark.py:50-61 | the table never has more rows than there are snippets in total |
| SalaryRows.RowsOfWellFormed | benda_salary_benchmark.py:60-66 | every row of a source carries that source's label and has minimum <= mean <= maximum <= 999999 |
| SalaryRows.AllRowsWellFormed | benda_salary_benchmark.py:50-66 | every row of the table has minimum <= mean <= maximum <= 999999 |
| SalaryRows.ReadSalaries | benda_salary_benchmark.py:57-59 | findall followed by the int conversion gives the snippet's salaries |
| SalaryRows.RowsStep | benda_salary_benchmark.py:60-66 | one pass of the item loop appends the snippet's row exactly when it has salaries |
| SalaryRows.FeedStep | benda_salary_benchmark.py:51-66 | one pass of the source loop appends that source's rows |
| SalaryRows.AppendSnippetRows | benda_salary_benchmark.py:56-66 | the item loop appends the rows of the source's snippets, in order, after the rows already collected |
| SalaryRows.CollectRows | benda_salary_benchmark.py:50-69 | the nested loops produce exactly the rows of every source in source order, each source's in item order |
| Report.ExperiencePhrase | benda_salary_benchmark.py:75 | 0 gives the market-average phrase and nothing else does; a positive count gives a phrase that starts with "for" |
| Report.ReadExperiencePhrase | benda_salary_benchmark.py:75 | the count can be read back from the phrase: 0 from the market-average phrase and n from "for n years of experience" |
| Report.ExperiencePhraseInjective | benda_salary_benchmark.py:75 | different counts give different phrases |
| Text.NatToDigits | benda_salary_benchmark.py:75 | the decimal form of a count is a non-empty digit run without a leading zero that reads back as the count |
| Report.ExperienceLabel | benda_salary_benchmark.py:173-174 | a missing or zero experience, and only that, is shown as the market-average label |
| Report.PhraseExtendsLabel | benda_salary_benchmark.py:174 | for a positive count, the request phrase is the word "for" followed by the history label |
| Report.History.constructor | benda_salary_benchmark.py:133-134 | the history starts empty |
| Report.History.Clear | benda_salary_benchmark.py:140-141 | clearing leaves the empty list |
| Report.History.Record | benda_salary_benchmark.py:144-161 | a blank job title records nothing; otherwise exactly one entry with the job, experience, time and report is appended and the earlier entries stay as they were |
| Report.History.Titles | benda_salary_benchmark.py:170-175 | one heading per entry, walking the reversed list: newest first |
| Report.Reversed | benda_salary_benchmark.py:172 | reversed() keeps the length; ReversedAt states which entry sits at each position, ReversedSnoc that a new entry comes first, ReversedTwice that it undoes itself |
| Report.Title | benda_salary_benchmark.py:175 | the expander heading: job, experience label and time, joined by " — ". History.Titles states that the headings come newest first, and ExperienceLabel what the label shows |
| Report.IsSpace | benda_salary_benchmark.py:145 | the characters Python treats as whitespace when stripping: tab to carriage return, \x1c to space, \x85, \xa0, \u1680, \u2000-\u200a, \u2028, \u2029, \u202f, \u205f and \u3000. History.Record uses it |
| Report.IsBlank | benda_salary_benchmark.py:145 | the job title strips to nothing: every character is whitespace. History.Record states that such a title records nothing |
| Report.ReversedAt | benda_salary_benchmark.py:172 | position k of the reversed list holds the k-th entry counted from the end |
| Report.ReversedSnoc | benda_salary_benchmark.py:172 | a newly appended entry is shown first, ahead of everything shown before |
| Report.ReversedTwice | benda_salary_benchmark.py:172 | reversing the shown order gives the insertion order back |
| Report.CopyText | benda_salary_benchmark.py:165 | the copy text holds no backtick, double quote or single quote |
| Report.CopyTextCounts | benda_salary_benchmark.py:165 | every other character occurs in the copy text exactly as often as in the report |
| Report.CopyTextIdempotent | benda_salary_benchmark.py:165 | sanitising twice gives the same text as sanitising once |
| Report.CopyTextAppend | benda_salary_benchmark.py:165 | the copy text of a concatenation is the concatenation of the copy texts |
| Report.CopyTextChar | benda_salary_benchmark.py:165 | a single character is dropped exactly when it is one of the three quotes |
| Report.CopyTextKeepsOrder | benda_salary_benchmark.py:165 | the copy text equals the report walked left to right keeping each non-quote character, so the kept characters stay in order |

## Left out

- The Streamlit page (title, columns, widgets, spinners, messages, markdown and the HTML of the copy button) is user interface and is not modelled.
- The HTTP search call and its JSON decoding are network I/O. Each source's snippets are an input sequence instead. The `except` clause that abandons the rest of a source on a network or decoding failure is not modelled. Only the one failure the row logic itself can raise is modelled: the `IndexError` of a source without `:`.
- SalaryRows.CollectRows computes the label once per source instead of once per row. The label does not depend on the item, so the rows are the same. A source without a label yields no rows, just as the `IndexError` at its first numeric snippet followed by `continue` does.
- The fixed list of six sources is the caller's input. SalaryRows.IsraeliSiteLabel states the label rule for every host of that shape, not for the six literal strings one by one.
- The OpenAI chat call, the prompt text and the model's markdown answer belong to a foreign service. The report is an opaque string.
- The pandas DataFrame and `to_string` are not modelled. The table is the sequence of rows.
- The timestamp from `datetime.now().strftime` is clock I/O. It is an opaque string parameter of Report.History.Record.
- SalaryRows.Mean: `int(sum/len)` divides in floating point. The model uses exact division on naturals rounded down. Both agree while the sum stays below 2^53, which holds for any realistic number of six-digit values.
- Scanner.MatchAt: Python's `\d` also matches non-ASCII decimal digits. The model restricts it to ASCII `0`-`9`.
- Text.Capitalize: Python's `capitalize` is Unicode-aware and title-cases the first character. The model changes case only for ASCII letters.
- Report.History.Record: the blank-title test uses Python's whitespace set for `str.strip()`, listed character by character.
- Report.History.Record: the experience is a natural number. The range 0-40 that the number widget enforces is not part of its contract.
- Report.History.Titles: the defaults of `item.get` are not modelled, since every recorded entry has all four keys. Titles always take the experience from the entry.
- The display of each entry's report inside its expander is not modelled.
