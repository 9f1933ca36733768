# WOW live activity dashboard: a verified model of the refresh pipeline

`heatmapv2.py` is a Streamlit page that reads an exported WhatsApp chat
transcript and produces an activity grid for the people on a fixed team roster.
The grid has one row per roster name and one column per selected date. Each cell
is Non-active, Unavailable (the person took permission) or Active.

This project models, in Dafny, the logic between the upload and the grid:

- **Date discovery** (`Transcript.DiscoverDates`). It collects the `M/D/YY`
  tokens that open bracketed lines and drops repeats as text. It then sorts them
  by calendar date as `strptime(..., "%m/%d/%y")` reads them.
  `Dates.DefaultSelection` takes the last five of the sorted list (or all of
  them, when there are fewer) as the default selection.
- **Message counting** (`Transcript.CountMessages`). This is the pattern
  `^\[(\d+/\d+/\d+),.*?\] (.*?):`, coded by hand as searches over the line. Each
  match on a selected date adds one to the cell of its stripped sender. The
  dictionary of counts is dense: every row holds every selected date.
- **Name reconciliation** (`Names.BuildNameMapping`). `normalize_name` keeps
  ASCII letters and spaces. Each sender then gets one target:
  - its alias in `manual_name_map`; otherwise
  - the first roster name that contains the lowercased normalised sender, or is
    contained in it; otherwise
  - the sender itself.
- **The matrix** (`Heatmap.BuildMatrix`). A roster name takes its counts from
  the first sender mapped to it. Failing that, it takes the counts of a sender
  spelled exactly like it, and failing that, zeros. A name ticked as unavailable
  on a date is Unavailable whatever it counts. Otherwise its cell is Active
  exactly when its count is positive.
- **The date file**. The selected dates are written joined by commas and read
  back with `strip().split(",")`.

`Heatmap.Refresh` chains these steps. Its contract states every cell of the grid
as a function of the transcript lines (`Heatmap.Expected`). Configuration lives
in `Names.DashboardConfig`, which holds the source's alias table and its roster
of 20 names.

Modules, in dependency order:

| module | file | contents |
|---|---|---|
| Wrappers | wrappers.dfy | `Option`, `Result` |
| Text | text.dfy | `str.strip`, ASCII `lower`, `in`, a one-character search used by the hand-coded patterns, `split`/`join` with their laws |
| Dates | dates.dfy | `%m/%d/%y`, calendar order, the stable sort, the default selection |
| Patterns | patterns.dfy | the two line patterns and their meaning |
| Transcript | transcript.dfy | the discovery loop and the counting loop |
| Names | names.dfy | `normalize_name`, the fuzzy test, the priority chain, the mapping loop |
| Heatmap | heatmap.dfy | the cell rule, the matrix loops, the end-to-end refresh, the date file |

Five behaviours of the code are easy to misread. The model follows the code in
each:

- **First sender wins.** When several senders map to one roster name, the
  counts come from the first of them in dictionary order: the loop at
  heatmapv2.py:141-144 stops at its first hit.
- **A bad token fails the run.** The key function of `sorted` at
  heatmapv2.py:85 raises on a token `strptime` rejects, so the whole run
  stops. `DiscoverDates` returns `Failure(token)` in that case.
- **Stripping comes first.** Alias lookup sees stripped senders: the dictionary
  keys are `sender.strip()` (heatmapv2.py:117).
- **Repeats are dropped as text.** `1/2/24` and `01/02/24` both survive
  (`Dates.ExampleSameDay`).
- **A sender spelled like a roster name.** Such a key supplies that name's row
  when no sender maps to the name, even if its own target is a different name
  (the `.get` at heatmapv2.py:140).

## Model

| member | source | states |
|---|---|---|
| Text.Strip | heatmapv2.py:117 | `str.strip()`, also used at line 46; the result is no longer than the input, and `StripSpec` gives its meaning |
| Text.Split | heatmapv2.py:46 | `str.split(",")`: at least one piece, no piece holds the separator; `JoinSplit` and `SplitJoin` pair it with `Join` |
| Text.Join | heatmapv2.py:160 | `",".join(...)`; its meaning is given by `JoinSplit` and `SplitJoin` |
| Text.Lower | heatmapv2.py:130 | `.lower()` on ASCII text, also at line 132; same length as its input, and `LowerSpec` gives its meaning |
| Text.LowerSpec | heatmapv2.py:130 | each upper-case ASCII letter becomes the lower-case letter at the same place in the alphabet, so no upper-case ASCII letter is left; every other character is kept; lowering twice changes nothing more |
| Names.KeepLetters | heatmapv2.py:121 | `re.sub(r'[^A-Za-z ]', '', s)`; no longer than its input, and the `KeepLetters*` lemmas give its meaning |
| Names.NormalizeName | heatmapv2.py:119-122 | `normalize_name`; no longer than its input, and `NormalizeNameSpec` gives its meaning |
| Names.FuzzyMatch | heatmapv2.py:132 | the two-way substring test between the normalised sender and the lowercased roster name; `ContainsSpec` gives `in` its meaning |
| Names.AliasHit | heatmapv2.py:126-127 | the truthy `manual_name_map.get(raw_name)` test: the sender has an alias and it is nonempty; `ResolveAlias` gives it its effect |
| Names.Resolve | heatmapv2.py:126-136 | the target of a stripped sender is a roster name, its alias, or the sender itself; `ResolveAlias`, `ResolveFuzzy` and `ResolveRaw` state the priority chain |
| Names.ManualNameMap | heatmapv2.py:15-29 | the alias table, key for key; `DashboardAliasesInRoster` proves that every value is a roster name |
| Names.DashboardNames | heatmapv2.py:31-36 | the 20 roster names in their order; `EmptyNormalIsAdeola` uses the first |
| Patterns.DatePrefix | heatmapv2.py:79-84 | `^\[(\d+/\d+/\d+),` matched at the start of a line; `DatePrefixSound` and `DatePrefixComplete` give its meaning |
| Patterns.ParseMessage | heatmapv2.py:110-115 | the message pattern and its two groups; the date group agrees with `DatePrefix`, and `ParseMessageSound`, `ParseMessageComplete` and `RegexMatchFound` give its meaning |
| Patterns.FindLazy | heatmapv2.py:110 | the lazy `.*?` followed by a literal, within one line; `FindLazyFirst`, `FindLazyMissing` and `FindLazyReaches` give its meaning |
| Patterns.FindLazyReaches | heatmapv2.py:110 | an occurrence with no line break before it is always reached, at it or at an earlier occurrence |
| Transcript.Count | heatmapv2.py:112-117 | the number of matching lines of a stripped sender on a date, the reference for `TallyCounts` and `CountMessages` |
| Transcript.DateTokens | heatmapv2.py:80-84 | the set `unique_dates`; `DateTokensMembers` gives its meaning |
| Heatmap.CellStatus | heatmapv2.py:147-152 | the three-state rule; `CellRule` states it as three equivalences |
| Heatmap.Expected | heatmapv2.py:138-152 | the cell the refresh should produce, from the transcript alone; `Refresh` proves the loops produce it |
| Heatmap.DateFile | heatmapv2.py:160 | the contents written to the date file; `DateFileRoundTrip` proves line 46 reads it back |
| Heatmap.Source | heatmapv2.py:140-144 | the key whose row a roster name reads; `SourceFirst`, `SourceFallback` and `SourceTarget` give its meaning |
| Dates.Key | heatmapv2.py:85 | the `strptime` key of the sort, the date a parseable token denotes; `ParseDate` gives its meaning |
| Dates.DateLe | heatmapv2.py:85 | the order on `datetime` values, year then month then day; `DateLeOrder` proves it a total order |
| Text.StripSpec | heatmapv2.py:117 | `strip()` keeps a piece of the input that is flanked only by whitespace and that neither starts nor ends with whitespace |
| Text.StripNoSpace | heatmapv2.py:46 | stripping a string without whitespace leaves it unchanged |
| Text.ContainsSpec | heatmapv2.py:132 | `a in b` holds exactly when `a` occurs contiguously in `b`, so the empty string is in every string |
| Text.JoinSplit | heatmapv2.py:46 | joining the pieces of a split gives back the string |
| Text.SplitJoin | heatmapv2.py:46 | splitting a join of at least one piece, where no piece holds the separator, gives back the pieces |
| Text.JoinNoSpace | heatmapv2.py:160 | a join of whitespace-free pieces with a non-space separator has no whitespace |
| Dates.DateFieldsSound | heatmapv2.py:79 | the fields found are three digit runs, and they make up the token with two slashes |
| Dates.DateFieldsComplete | heatmapv2.py:79 | every `\d+/\d+/\d+` token has exactly its three digit runs found |
| Dates.ParseMonth | heatmapv2.py:85 | `%m` accepts one or two digits worth 1 to 12 |
| Dates.ParseDay | heatmapv2.py:85 | `%d` accepts one or two digits worth 1 to 31 |
| Dates.ParseYear | heatmapv2.py:85 | `%y` accepts exactly two digits; 69-99 become 19xx and 00-68 become 20xx |
| Dates.ParseDate | heatmapv2.py:85 | a token parses exactly when its fields are acceptable; the result is a valid calendar date (leap years included) in 1969-2068, built from the field values |
| Dates.ParseFormat | heatmapv2.py:85 | parsing the zero-padded `MM/DD/YY` form of any expressible date gives that date back |
| Dates.SortByDate | heatmapv2.py:85 | the result is ascending by calendar date and is a permutation of the input |
| Dates.DateLeOrder | heatmapv2.py:85 | the calendar order is reflexive, transitive, total and antisymmetric |
| Dates.SortedPairwise | heatmapv2.py:85 | in a sorted list every date is no later than every date after it |
| Dates.SortedDates | heatmapv2.py:80-85 | sorting distinct tokens keeps them distinct and keeps the same set of tokens |
| Dates.NoDuplicatesPermutation | heatmapv2.py:80-85 | a rearrangement of a list without repeats has no repeats |
| Dates.DefaultSelection | heatmapv2.py:90 | the default is the last min(5, n) dates, a suffix of the sorted list |
| Dates.DefaultSelectionIsLatest | heatmapv2.py:90 | every date left out of the default is no later than every date in it |
| Dates.ExampleOrder | heatmapv2.py:85 | in any sorted list, `12/1/23` comes before `1/5/24` |
| Dates.ExampleSameDay | heatmapv2.py:80-85 | `1/2/24` and `01/02/24` are different tokens for the same day |
| Dates.ExampleOldCentury | heatmapv2.py:85 | `7/4/69` is read as 4 July 1969 |
| Patterns.DatePrefixSound | heatmapv2.py:79 | a token the date pattern returns is a date token, and the line opens with `[`, the token and `,` |
| Patterns.DatePrefixComplete | heatmapv2.py:79 | every line that opens with `[`, a date token and `,` yields that token |
| Patterns.FindLazyFirst | heatmapv2.py:110 | the lazy `.*?` search stops at the first occurrence and crosses no line break |
| Patterns.FindLazyMissing | heatmapv2.py:110 | when the lazy search fails, every occurrence lies past a line break |
| Patterns.ParseMessageSound | heatmapv2.py:110-115 | whatever the matcher returns is a match: the line is `[date,` + mid + `] ` + sender + `:` + rest, where mid has no line break and no `] `, and sender has no line break and no colon |
| Patterns.ParseMessageComplete | heatmapv2.py:110-115 | every line of that shape is matched with exactly those groups; the shape fixes the groups the lazy match picks (`mid` without `"] "`, a sender without a colon), and `RegexMatchFound` covers every other split of the line |
| Patterns.RegexMatchFound | heatmapv2.py:110-115 | every line in the language of the pattern, with `mid` and the sender merely free of line breaks, is matched with its date group; a later `"] "` or colon never succeeds where the first fails |
| Transcript.DateTokensMembers | heatmapv2.py:80-84 | the collected set holds exactly the tokens some line opens with |
| Transcript.CheckTokens | heatmapv2.py:85 | reports a token `strptime` rejects, or that every token parses |
| Transcript.DiscoverDates | heatmapv2.py:79-85 | succeeds exactly when every discovered token parses. On success the list is sorted by calendar date, has no repeats and holds exactly the discovered tokens. On failure it names a discovered token that does not parse |
| Transcript.SendersOfNoDuplicates | heatmapv2.py:117 | each stripped sender is a key once |
| Transcript.SendersOfOrder | heatmapv2.py:111-117 | for two keys in dictionary order, some match filed under the earlier key comes before every match filed under the later one |
| Transcript.SendersMembers | heatmapv2.py:111-117 | the keys are exactly the stripped senders of matches on selected dates |
| Transcript.Zeros | heatmapv2.py:111 | the default row holds every selected date with count 0 |
| Transcript.TallyKeys | heatmapv2.py:111-117 | the dictionary's keys are the senders in insertion order |
| Transcript.TallyCounts | heatmapv2.py:111-117 | each cell holds the number of matches of that stripped sender on that date |
| Transcript.CountsAppend | heatmapv2.py:112-117 | one more line adds one to the count of its match's (stripped sender, date) pair and nothing to any other pair |
| Transcript.IgnoredLine | heatmapv2.py:113-116 | a line that does not match, or matches on an unselected date, changes no key and no selected count |
| Transcript.CountWitness | heatmapv2.py:112-117 | a positive count is backed by a line that is a message of that sender on that date |
| Transcript.CountOutsideSenders | heatmapv2.py:116-117 | a name that is not a key has count zero on every selected date |
| Transcript.Record | heatmapv2.py:113-117 | one match updates the key order and the counts as one step of the specification |
| Transcript.CountMessages | heatmapv2.py:110-117 | the keys come in order of first counted appearance; every row is dense over the selected dates; every cell equals the message count of its sender on its date |
| Names.KeepLettersSubsequence | heatmapv2.py:121 | the filter's result is a subsequence of its input |
| Names.KeepLettersOnlyKept | heatmapv2.py:121 | only ASCII letters and spaces survive the filter |
| Names.KeepLettersCounts | heatmapv2.py:121 | every ASCII letter and space survives, as often as it occurs, and nothing else does |
| Names.KeepLettersOfKept | heatmapv2.py:121 | a string of letters and spaces passes unchanged |
| Names.NormalizeNameSpec | heatmapv2.py:119-122 | the normalised name is a subsequence of the stripped name, made of ASCII letters and spaces, holding all of them |
| Names.NormalizeNameNotIdempotent | heatmapv2.py:119-122 | `"~ MJ"` normalises to `" MJ"`, which normalises again to `"MJ"` |
| Names.FirstFuzzySpec | heatmapv2.py:131-134 | the scan answers the first roster position passing the fuzzy test, and nothing exactly when none passes |
| Names.ResolveAlias | heatmapv2.py:126-128 | a nonempty alias always wins over the fuzzy test |
| Names.ResolveFuzzy | heatmapv2.py:129-134 | without an alias, the first passing roster name in roster order is the target |
| Names.ResolveRaw | heatmapv2.py:135-136 | without an alias and without a passing roster name, the sender is its own target |
| Names.ResolveTargets | heatmapv2.py:124-136 | when every alias points into the roster, every target is a roster name or the sender itself |
| Names.DashboardAliasesInRoster | heatmapv2.py:15-36 | every value of `manual_name_map` is one of `dashboard_names` |
| Names.EmptyNormalResolvesFirst | heatmapv2.py:130-134 | a sender with no alias that normalises to the empty string goes to the first roster name |
| Names.EmptyNormalIsAdeola | heatmapv2.py:31-36 | for the dashboard's roster that first name is `"Adeola"` |
| Names.ScanRoster | heatmapv2.py:131-136 | the loop with `break` and `for`/`else` answers the first passing roster position, or none |
| Names.BuildNameMapping | heatmapv2.py:124-136 | every key gets exactly one target, its resolution, and nothing else is mapped |
| Heatmap.FirstToSpec | heatmapv2.py:141-144 | the search answers the first key mapped to the name, and none exactly when no key is |
| Heatmap.SourceRow | heatmapv2.py:140-144 | the row read for a name is that of the first key mapped to it, else that of the key spelled like it, else zeros |
| Heatmap.BuildRow | heatmapv2.py:145-152 | one cell per selected date, in order, each by the three-state rule |
| Heatmap.BuildMatrix | heatmapv2.py:138-153 | one row per roster name, in roster order; each row has one cell per selected date, given by the rule and the source row |
| Heatmap.SourceFirst | heatmapv2.py:141-144 | the earliest sender resolving to a name supplies its counts; later senders with the same target are ignored |
| Heatmap.SourceFallback | heatmapv2.py:140 | with no sender resolving to the name, the sender spelled like it supplies the counts, and with none there are no counts |
| Heatmap.SourceTarget | heatmapv2.py:140-144 | a supplying sender is a key that resolves to the name or is spelled like it |
| Heatmap.CellRule | heatmapv2.py:147-152 | a cell is Unavailable exactly when the name is listed for that date; otherwise it is Active exactly when its count is positive, and NonActive exactly when the count is zero |
| Heatmap.ActiveWitness | heatmapv2.py:140-152 | an Active cell is backed by a message on that date from a sender that resolves to the name or is spelled like it, so other senders never light up the row |
| Heatmap.RowForCount | heatmapv2.py:140-149 | the count the matrix reads for a name and date is the message count of its supplying sender |
| Heatmap.DateFileRoundTrip | heatmapv2.py:160 | writing a nonempty list of date tokens joined by commas and reading it back with `strip().split(",")` (line 46) gives the list again |
| Heatmap.EmptySelectionNotRestored | heatmapv2.py:46 | an empty list would read back as `[""]`, which is why `DateFileRoundTrip` requires a nonempty list |
| Heatmap.Refresh | heatmapv2.py:110-160 | the grid has `len(dashboard_names)` rows and `len(selected_dates)` columns; every cell equals the expected status computed from the transcript; the date file is the comma join of the selection, and when every selected token is a date token, `strip().split(",")` (line 46) reads it back as the selection |

## Left out

- The Streamlit interface is not modelled (heatmapv2.py:11, 72-104, 185-188).
  This covers the title, the uploader, the multiselects, the text input and the
  button. `selected` and `unavailable` are inputs, and `Refresh` requires an
  `unavailable` entry for every selected date, as the loop at heatmapv2.py:96-101
  builds one.
- The password check (heatmapv2.py:13, 106-107) is a secret lookup guarding the
  refresh. No logic in it is worth verifying.
- Rendering is not modelled (heatmapv2.py:47-70, 162-184). The seaborn and
  matplotlib calls are foreign code working on float tick values. Cells are the
  `Status` datatype, not the floats 0, 0.5 and 1.
- File and table I/O is not modelled (heatmapv2.py:43-45, 155-159): pandas CSV
  reads and writes, `os.path.exists` and `open`. Only the string written to and
  read back from the date file is modelled.
- UTF-8 decoding and `splitlines` (heatmapv2.py:78) are not modelled: the
  transcript is a sequence of lines. The lazy search still refuses to cross a
  line break, as `.` does.
- The model implements a subset of regular expressions and `strptime`:
  - `\d` is ASCII digits only; Python also matches other Unicode digits.
  - Only `%m/%d/%y` is modelled.
  - `lower()` is ASCII-only. It is only applied to normalised names (ASCII
    already) and to roster names (ASCII constants), where it agrees with Python.
- The order of Python's `set` is not modelled. The discovered tokens are taken
  in order of first appearance. This only decides the relative order of
  distinct tokens for the same day, which `sorted` keeps stable. The contracts
  promise sortedness, no repeats and the exact set of tokens, not a tie order.
- Transcript.CheckTokens: reports the first rejected token in discovery order.
  Python's `sorted` raises at whichever token its key function meets first,
  which depends on the set order. The contracts only promise that a rejected
  discovered token is named.
- The mojibake keys of `manual_name_map` (heatmapv2.py:22, 26, 27) are written
  as the characters they hold, with `\U{..}` escapes. Their encoding plays no
  part in the logic.
