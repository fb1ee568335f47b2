# Handoff analytics core, modelled in Dafny

This project models the document-parsing and aggregation engine of
`analytics.py`, the analytics script of the handoff-prompt workflow. A
handoff document is a Markdown file. The engine has five parts:

- It cuts the document into `## ` sections. It also reads a
  `DDMonYYYY-HHMM` token from the file name.
- It labels each section's confidence as high, low, medium or unknown.
- It pulls risks and bugs out of two named sections.
- It folds all documents into one analysis:
  - the total;
  - the handoffs;
  - the tagged issues;
  - the confidence counts per heading;
  - the document frequency per heading;
  - the time span.
- It makes the selections the console summary and timeline report:
  - the ten most frequent headings;
  - whether a per-day rate is printed;
  - the rows of the timeline.

Files are not read and clocks are not consulted. A document is a
`Document(filename, text, mtime)`. Its text and modification time are inputs.
The text is the string `read_text()` returns, so universal newlines are
already applied: every `\r\n` and lone `\r` of the file has become `\n`.
The time is the naive local datetime `datetime.fromtimestamp` yields, counted
in microseconds.

Modules, one per file:

- `Options`: the option type.
- `Text` (`text.dfy`): the Python string operations the code relies on:
  - `strip` over the full `str.isspace` set;
  - ASCII `lower`;
  - `split('\n')`, `'\n'.join`, slicing;
  - substring `in`.
- `OrderedMaps` (`ordered_map.dfy`): `dict`, `Counter` and `defaultdict`. Each
  is a key sequence in insertion order plus a map of current values.
- `Sections`: the text half of `parse_handoff`.
  - `Scan` follows the source loop line by line.
  - `SplitBlocks` gives an independent structural reading: a preamble, then
    heading blocks.
  - The lemmas prove the two agree.
- `Timestamp`: the file-name regex, as leftmost match.
- `Confidence`: `extract_confidence_levels`, as an ordered rule list.
- `Issues`: `extract_issues`.
- `Aggregate`: `analyze_handoffs`.
  - `Loop` is the single pass over the documents.
  - `LoopFields` splits that pass into one fold per accumulator.
  - `Holding`, `Labelled` and `AllTagged` are independent reference counts.
  - `AllKeys` lists every section name, document after document.
  - The contract of `Analyze` states the result against those references,
    including the key order of the frequency counter.
- `Report`: the selections of `print_summary` and `print_timeline`:
  - `most_common(10)` as a stable descending sort;
  - the per-day rate guard;
  - the timeline rows.

Modelling decisions:

- The trends loop is modelled as written. `Aggregate.DocumentTrends` walks
  the dict `extract_confidence_levels` returns. Its contract is proved
  through `AddLevels`, which classifies each section as its heading is
  reached. `Aggregate.TallyLabelsAgree` shows the two walks give the same
  counts.
- `strip()` removes the full `str.isspace` set (including U+0085, U+00A0, U+2028 and the other Unicode spaces), not only ASCII whitespace, because that is what the code calls.
- Python's `None` for "no current section" is modelled as `""`. Both are
  falsy, and the code only tests truthiness.

## Model

| member | source | states |
|---|---|---|
| Sections.ParseSections | analytics.py:73-87 | The parsed map is a proper insertion-ordered dict. No key is the empty heading. Every body is stripped. |
| Sections.ParseIsBlockFold | analytics.py:77-87 | The line loop stores one section per heading block, in block order, with `line[3:].strip()` as key and the joined, stripped body as value. Empty names are skipped. |
| Sections.SplitBlocksFlatten | analytics.py:77-84 | Cutting a document into preamble and heading blocks loses no line: the pieces flatten back to the input lines. |
| Sections.FlattenSplitBlocks | analytics.py:77-84 | A heading-free preamble followed by well-formed blocks is cut back into exactly that preamble and those blocks. |
| Sections.SectionKeys | analytics.py:78-87 | A heading is a key exactly when it is non-empty and some line starting with `## ` strips to it. |
| Sections.LastWriteWins | analytics.py:79-87 | A repeated heading keeps the body of its last block. |
| Sections.SectionOrder | analytics.py:79-87 | Keys appear in the order their headings first occur. |
| Sections.PreambleDiscarded | analytics.py:74-84 | Lines before the first heading do not affect the result. |
| Sections.EmptyHeadingLosesLines | analytics.py:79-82 | A heading that strips to "" stores nothing, wherever it stands. Removing it together with the lines under it, up to the next heading or the end, leaves the parsed dict unchanged. So those lines are not added to the previous section. |
| Sections.ApplyAllLastWins | analytics.py:79-80 | After a run of assignments, a name holds the text of its last assignment. |
| Sections.ApplyAllOrder | analytics.py:80 | Assignments append each new name once, in first-seen order. Re-assigning keeps the name's position. |
| Text.StripSpec | analytics.py:80 | `strip()` leaves no whitespace at either end and removes only whitespace, from the two ends. |
| Text.StripIdempotent | analytics.py:80 | Stripping twice is stripping once. |
| Text.JoinLines | analytics.py:77 | `'\n'.join(s.split('\n')) == s`. |
| Text.LinesJoin | analytics.py:77 | Splitting a join of newline-free lines gives those lines back. |
| Text.FirstLine | analytics.py:251 | `s.split('\n')[0]` is a prefix of `s` that ends at the end of `s` or at a newline. |
| Text.ContainsAt | analytics.py:109 | Substring `in` holds exactly when the substring occurs at some offset. |
| OrderedMaps.Put | analytics.py:80 | Assignment sets the key, leaves every other key unchanged, and appends only a new key. |
| OrderedMaps.MapValues | analytics.py:108-116 | Mapping values keeps the keys and their order and applies the function to each value. |
| Timestamp.ExtractToken | analytics.py:89-90 | The result is "Unknown" exactly when no offset matches. Otherwise it is the token at the leftmost matching offset. |
| Timestamp.TokenAfterPlainPrefix | analytics.py:89 | A token after a digit-free prefix is the one found, whatever follows it. |
| Timestamp.HandoffNameToken | analytics.py:89-90 | `AI_Continuation_Document-<token>.md` yields its token. |
| Confidence.FirstFiring | analytics.py:108-116 | The label is that of the first rule that fires, or unknown when none fires. |
| Confidence.ClassifySpec | analytics.py:108-116 | High iff the high test passes. Low iff that test fails and the low test passes. Medium iff both fail and the medium test passes. Unknown iff all three fail. So a body with both the check mark and the question mark is high. |
| Confidence.Confidences | analytics.py:101-118 | Every section gets one label. The result has the same keys, in the same order. |
| Issues.ExtractIssues | analytics.py:121-146 | All risks come before all bugs. A missing risk section gives only bugs, and a missing state section only risks. |
| Issues.RisksMember | analytics.py:126-133 | An issue is a risk exactly when some line, stripped, starts with `-` or `*` and gives that description: the stripped line without its first character, stripped again. |
| Issues.BugsMember | analytics.py:136-144 | An issue is a bug exactly when some line is bulleted, contains a keyword once lower-cased, and gives that description. A keyword line without a bullet gives none. |
| Issues.RisksAppend | analytics.py:126-133 | Risks of concatenated lines are the risks of each part, in order. |
| Issues.BugsAppend | analytics.py:136-144 | Bugs of concatenated lines are the bugs of each part, in order. |
| Issues.RisksCount | analytics.py:126-133 | The number of risks equals the number of bulleted lines. |
| Issues.RisksStripped | analytics.py:132 | Every risk description is stripped. |
| Issues.BugsStripped | analytics.py:143 | Every bug description is stripped. |
| Issues.KeywordBullet | analytics.py:138-144 | A dash bullet whose text contains a keyword is one bug carrying that text. |
| Issues.ErrorBullet | analytics.py:138-144 | A bulleted state line containing "error" is one bug. |
| Aggregate.ParseHandoff | analytics.py:69-98 | The parsed handoff keeps the file name and time. Its sections are well formed. Its token is a well-shaped token or "Unknown". |
| Aggregate.Tagged | analytics.py:170-176 | Each found issue gets the document's name and time, in order. An entry belongs to a document's list exactly when it carries that name and time and is one of the document's issues. |
| Aggregate.DocumentTrends | analytics.py:178-182 | Walking the dict `extract_confidence_levels` returns moves each heading's counts by that heading's own label only. `unknown` adds nothing. A heading becomes a key only with a counted label. |
| Aggregate.AddLevelsGet | analytics.py:179-182 | Each heading's counts move by its own label only. A heading enters the trends only with a counted label. |
| Aggregate.CountNamesGet | analytics.py:185-186 | Each section name of a document adds exactly one to its counter entry. |
| Aggregate.CountNamesOrder | analytics.py:185-186 | Incrementing a counter for non-empty names keeps its old keys in place and appends each new name once, at its first increment. |
| Aggregate.FrequencyOrder | analytics.py:184-186 | From an empty counter, the keys are every document's section names in first-occurrence order: document after document, and within a document in its own key order. |
| Aggregate.Step | analytics.py:166-186 | One loop iteration appends the handoff and its tagged issues. It keeps the total and the span. |
| Aggregate.Loop | analytics.py:166-186 | The loop appends every handoff in input order. The issue list ends as the tagged issues of each document, document after document. |
| Aggregate.AllTaggedMember | analytics.py:170-176 | An entry is in the collected issue list exactly when some document's tagged list holds it. |
| Aggregate.FrequencyOverGet | analytics.py:184-186 | The frequency of `k` grows by the number of documents holding a section `k`. |
| Aggregate.LabelledWithinHolding | analytics.py:178-186 | High plus medium plus low for a heading never exceeds the number of documents holding it. |
| Aggregate.Holding | analytics.py:184-186 | No heading is held by more documents than there are. |
| Aggregate.SpanOf | analytics.py:189-194 | Start and end are among the times and bound them all. `duration_days` is the floor of the spread in whole days. It is positive exactly when two times are at least a day apart. |
| Aggregate.Analyze | analytics.py:149-196 | The total is the number of documents. The handoffs are the parsed documents in order. The issues are each document's tagged issues, document after document. The span is absent exactly when there are no documents, and otherwise is the span of their times. `sections_frequency[k]` is the number of documents with a section `k`. `k` is a key exactly when that number is positive, and the empty heading never is. The keys are in first-occurrence order over the documents' section names, the order `most_common` keeps between equal counts. `confidence_trends[k]` counts, per level, the documents labelling `k` that way. `k` is a key exactly when a count is positive. The labels of a heading never outnumber its frequency. |
| Report.SortDesc | analytics.py:220 | The sort is a permutation of the items, with counts never increasing. |
| Report.SortStable | analytics.py:220 | Items sharing a count keep their insertion order. |
| Report.MostCommon | analytics.py:220 | `most_common(n)` is the first `min(n, len)` items of the stable descending sort. |
| Report.MostCommonDominates | analytics.py:220 | An item left out of the top `n` counts no more than any listed item. |
| Report.MostCommonEntries | analytics.py:220 | Every listed item is a counter entry with its own count. |
| Report.DailyRate | analytics.py:212-214 | The rate is produced exactly when there is a span of more than zero days, so its divisor is positive. |
| Report.TimelineDescription | analytics.py:250-251 | With an identity, the description is a newline-free prefix of at most 50 characters. It stops at 50, at the end, or at the first newline. Without one it is "No description". |
| Report.TimelineOf | analytics.py:237-256 | Status 1 iff there are no handoffs. At most 20 rows, numbered from 1, for the first handoffs. Rows plus the "more" count equal the number of handoffs. |

## Left out

- Reading files and `stat`, `find_handoff_directory` and `list_handoffs` (analytics.py:35-66, 71, 97). The document list arrives already read and ordered.
- `datetime.fromtimestamp`, time zones and DST. Times are naive local microseconds supplied by the caller.
- Text.Lower: ASCII only. Python's `str.lower` also folds non-ASCII letters (e.g. U+0130 or the Kelvin sign U+212A). A keyword or phrase reached only through such folding is not found by the model.
- Timestamp.ExtractToken: `\d` is ASCII `0`-`9` only. Python's `re` also accepts other Unicode decimal digits in a `str` pattern.
- Report.DailyRate: returns the numerator and divisor of the rate, not the float `total / duration_days` or its `.2f` formatting.
- Report.TimelineOf: rows carry the raw time, not the `strftime('%Y-%m-%d %H:%M')` text, and no printed strings.
- Console rendering of `print_summary`: the banners, `section[:30]` padding, bars, and the issue-type tally by `Counter(...).most_common()` (analytics.py:228-230), which only feeds printing.
- `print_confidence`, `generate_html_report` and `export_json`: float percentages, HTML/JSON text and file writes.
- The unused `confidence_pattern` (analytics.py:106). It has no effect.
- `project_phases`, which the code never fills.
- The command-line `main` and its exit codes (analytics.py:469-522).
- `scripts/config_wizard.py` and `scripts/context_monitor.py`: terminal menus, config-file I/O, filesystem probing and a sleep loop, with no core logic.
