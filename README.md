# BECE question scraper, modelled in Dafny

This project models the core of a Python tool that scrapes Ghana BECE
past questions from kuulchat.com and post-processes them:

- **The spider** (`main.py`) turns each question `div` of a page into an
  objective (multiple-choice) or a theory record. It cleans the text and
  skips advertisement divs. It finds the question number and splits off
  the solution. It extracts the stem and the A-D options, or the
  `(a)`-`(d)` parts with their `(i)`/letter sub-parts. It attaches the
  solution of each part and keeps the non-advertisement images. The
  objective questions are sorted by number. The theory questions are
  sorted and then deduplicated by number. Modules: `SpiderText`
  (string-level steps), `SpiderParts` (theory structure),
  `SpiderSolutions` (attaching each part's solution) and `Spider`
  (question-level steps and the two question lists).
- **Restructuring** (`restructure_questions.py`) buckets the scraped
  records by type and counts them. It flattens every record into a CSV
  row and orders the CSV header. Modules: `Restructure`, `Columns` (CSV
  column keys and their order) and `Flatten` (`flatten_question`).
- **The image downloader** (`image_downloader.py`) names diagram files
  and caches URLs that were already downloaded. It also keeps the
  download statistics. File extensions come from `urllib.parse.urlparse`
  as Python 3.12 behaves, including the `ValueError` it raises for an
  unmatched bracket in the network location; that error propagates out of
  `process_question_images` and `download_all_images`. Module: `Images`.
- **The batch runner** (`run_spider.py`) builds URLs, validates subjects
  and years, and parses the `-S`/`-Y` arguments. It also runs the batch
  loop over the valid combinations.
  As written, every combination fails its post-processing (see
  "## Findings"). Module: `RunSpider`.
- **The report generator** (`generate_reports.py`) finds the
  `subject_year` directories and lays out the image download report.
  Module: `Reports`.
- **The metadata updater** (`update_all_metadata.py`) does the bulk
  screenshot-URL update and its preview. Module: `UpdateMetadata`.
- **The screenshot settings** (`config/screenshot_config.py`) read the
  environment, then validate and disable the configuration. Module:
  `ScreenshotSettings`. Only `enabled` changes after construction, so
  it is the one mutable field of `ScreenshotConfig`. The three settings
  groups are fixed once the constructor has filled in their defaults.

Shared modules:

- `Text` gives Python's string semantics: whitespace, `strip`,
  `re.sub(r"\s+", " ", …)`, `split`/`join`, `str(int)`, `int(str)` and
  string order.
- `JsonModel` models JSON values, with dictionaries kept in insertion
  order.
- `Sorting` is a stable insertion sort, standing for `list.sort` and
  `sorted`.
- `Wrappers` holds `Option`.

Every regular expression of the spider is written out as an explicit
scanner. Each scanner returns the match Python's `re` engine returns:
the leftmost match, with greedy and lazy repetition backtracking in
Python's order.

Anything the code does outside the program is an input or an oracle:
file contents, directory listings, the environment, the current year and
date, network downloads, the spider subprocess and the enrichment
service.

Where the repository's written description and its code disagree, the
model follows the code:

- **Options:** when a letter's option pattern matches several times, the
  last non-empty capture wins (`main.py:184-185`).
- **Parts:** a single `(a)` marker already gives a structured question,
  because `re.split` yields three pieces (`main.py:313-315`).
- **Answers:** the answer letter is never detected. The solution text is
  kept whole (`main.py:189-201`).
- **Diagrams:** a question's diagram list is not deduplicated
  (`main.py:203-213`).
- **Parts with nested entries:** a part's `question` is `""` whenever it
  has nested entries. It holds the part's text otherwise, which may
  itself be empty (`main.py:334`).

## Model

| member | source | states |
|---|---|---|
| Text.Strip | main.py:19 | `str.strip()`: the result is the slice of the input between a leading and a trailing whitespace run, and has no whitespace at either end |
| Text.LStrip | main.py:19 | the result is a suffix of the input after a run of whitespace and does not start with whitespace |
| Text.RStrip | main.py:19 | the result is a prefix of the input before a run of whitespace and does not end with whitespace |
| Text.StripIdempotent | main.py:19 | stripping twice is stripping once |
| Text.StripNonSpace | main.py:19 | stripping removes only whitespace: the non-space characters are unchanged |
| Text.Collapse | main.py:19 | `re.sub(r"\s+", " ", s)`: empty exactly when the input is, starts with whitespace exactly when the input does, and has no whitespace but single blanks |
| Text.CollapseNonSpace | main.py:19 | collapsing whitespace keeps every non-space character in order |
| Text.CollapseStrip | main.py:19 | collapsing whitespace and stripping commute |
| Text.Lower | main.py:37 | lowering maps each character and keeps the length |
| Text.TitleMeaning | generate_reports.py:60 | `str.title()` on ASCII: letters stay letters and keep their lower case, other characters are unchanged, and a letter is upper case exactly when it starts a run of letters |
| Text.TitleIdempotent | generate_reports.py:60 | title-casing twice is title-casing once |
| Text.ContainsIff | main.py:48 | the substring test `sub in s` holds exactly when `sub` occurs at some index |
| Text.Split | generate_reports.py:11 | `str.split` on one character: pieces free of the separator whose join is the input |
| Text.SplitCount | generate_reports.py:11-12 | `split` gives one more piece than there are separators |
| Text.SplitJoin | generate_reports.py:11-13 | splitting a separator-free join gives back the pieces |
| Text.DecNat | run_spider.py:108 | `str(n)` of a natural is a digit string without a leading zero |
| Text.DigitsValueDecNat | run_spider.py:107-108 | reading the digits of `str(n)` gives back `n` |
| Text.DecNatInjective | run_spider.py:108 | different years print differently |
| Text.ParseIntDec | run_spider.py:39 | `int(str(i)) == i` for every integer |
| Text.ParseIntPadded | run_spider.py:38-39 | `int()` ignores whitespace around a printed integer |
| Text.ParseIntShape | run_spider.py:38-39 | `int()` accepts only text that strips to digits with at most a leading sign |
| Text.LessIrreflexive | update_all_metadata.py:42 | Python's string order is irreflexive |
| Text.LessTransitive | update_all_metadata.py:42 | Python's string order is transitive |
| Text.LessTotal | update_all_metadata.py:42 | any two different strings are ordered |
| JsonModel.Get | restructure_questions.py:16-19 | a key has a value exactly when it is one of the dictionary's keys |
| JsonModel.Put | restructure_questions.py:26 | a key assignment sets that key, leaves the other keys alone and appends a new key at the end |
| JsonModel.Remove | restructure_questions.py:73-74 | `pop(key, None)` removes that key and leaves the others alone |
| JsonModel.Strings | restructure_questions.py:20 | the strings of a list of strings, one per item |
| Sorting.Sort | main.py:103 | sorting gives a permutation of its input |
| Sorting.SortSorted | main.py:103 | under a total preorder the result is sorted |
| Sorting.SortStable | main.py:254 | the sort is stable: the elements equivalent to any `y` keep their relative order |
| Sorting.InsertTies | main.py:254 | inserting one element puts it after the elements equivalent to it |
| SpiderText.CleanText | main.py:12-20 | `clean_text`: the result is empty for empty input, has no whitespace at either end and only single blanks, and keeps every non-space character |
| SpiderText.CleanTextKeeps | main.py:19 | the cleaned text has only single blanks and keeps exactly the non-space characters of the input |
| SpiderText.AdvertisementIgnoresCase | main.py:37-48 | the advertisement test ignores letter case |
| SpiderText.AdvertisementKeywords | main.py:37-48 | a div is an advertisement exactly when its lower-cased text contains one of the seven keywords |
| SpiderText.DigitRunStart | main.py:113 | the start of the digit run ending at a position: all digits from there, with no digit before |
| SpiderText.FirstDotAfterDigit | main.py:113 | finds the first digit followed by `.` at or after a position, or reports that none exists |
| SpiderText.SearchNumber | main.py:113-117 | `re.search(r"(\d+)\.")`: no match exactly when no digit is followed by `.`; a match is the whole digit run before the first such dot, with its value |
| SpiderText.FirstWordMarker | main.py:120 | finds the leftmost `\s+(Mark\|Solution)\s+` match at or after a position, or reports that none exists |
| SpiderText.SplitAtWordMarker | main.py:120-122 | `re.split(…, 1)`: the text is unchanged when nothing matches; otherwise the head ends at the leftmost match and the tail follows its end |
| SpiderText.ObjectiveSplitMeaning | main.py:120-122 | the objective split: the question part is a prefix and the solution part a suffix; without a `Mark`/`Solution` marker the solution is `""`, otherwise the question part ends at the leftmost marker and the solution follows it |
| SpiderText.TheorySplitMeaning | main.py:279-281 | the same for the `Show Solution` marker of theory questions |
| SpiderText.RemoveNumberPrefix | main.py:158 | removing `^{n}\.?\s*` leaves a suffix, and the text is unchanged when it does not start with the number |
| SpiderText.FirstOptionMarker | main.py:161 | finds the leftmost `\s+[A-D]\.\s+` match, or reports that none exists |
| SpiderText.StemHead | main.py:161-162 | the stem is the prefix of the text up to the first option marker: no marker starts inside it, and it is the whole text or a marker starts right after it |
| SpiderText.ExtractQuestionStem | main.py:155-167 | the stem is the cleaned head, before the first option marker, of the text without its number prefix; it has no whitespace at either end and only single blanks |
| SpiderText.LazyOptionEnd | main.py:174 | the lazy `[^A-D]*?` stops at the first position where `(?=\s+[A-D]\.\|$)` holds, having consumed no letter A-D |
| SpiderText.NextOptionMatch | main.py:174 | the next `finditer` match: a letter A-D whose capture holds no letter A-D |
| SpiderText.OptionMatches | main.py:174 | every match of `finditer` has an option letter and a capture free of A-D |
| SpiderText.CleanOptionNoLetters | main.py:178-182 | cleaning an option text keeps it free of the letters A-D |
| SpiderText.FillOptionsLastWins | main.py:176-185 | the options dictionary keeps its keys, and each slot holds the last non-empty capture for that letter or its old value |
| SpiderText.FillOptionsNoLetters | main.py:176-185 | no option text contains a letter A-D |
| SpiderText.FillEmptyLastWins | main.py:171-185 | starting from four empty slots, each slot ends as the last non-empty capture or `""` |
| SpiderText.ExtractOptionsFromText | main.py:169-187 | `extract_options_from_text` returns exactly the keys A-D, each the last non-empty capture for its letter or `""`, free of A-D |
| SpiderText.ExtractAnswerInfo | main.py:189-201 | no answer info exactly for an empty solution; otherwise the stripped solution |
| SpiderText.AdImageRules | main.py:215-226 | a missing `src` is an ad; a `/qns/` path never is; otherwise it is an ad exactly when its lower case contains banner, ad, sponsor or promo |
| SpiderText.KeptImagesCount | main.py:203-213 | every non-ad image is kept as often as it occurs, and no ad image is kept |
| SpiderText.ExtractAllDiagrams | main.py:203-213 | `extract_all_diagrams` keeps the non-ad sources in order |
| SpiderParts.RomanRunEnd | main.py:344 | the end of the run of `[ivx]` characters starting at a position |
| SpiderParts.LabelEnd | main.py:344 | a label ends at a `)` and matches the label group of the pattern |
| SpiderParts.NextMarker | main.py:313 | the leftmost `\s*\(([a-d])\)\s*` match (or the sub-part variant) at or after a position, or reports that none exists |
| SpiderParts.SplitAt | main.py:313 | `re.split` with one group: every piece carries a marker after the start position with a valid label, and there are no pieces exactly when no marker occurs |
| SpiderParts.SplitAtHead | main.py:313 | the head is the rest of the text when no marker occurs; otherwise the first piece is the leftmost marker and the head runs up to it |
| SpiderParts.SplitListShape | main.py:313-327 | the split list alternates labels (odd indices) and texts (even indices), as the `range(1, len, 2)` loop reads it |
| SpiderParts.SplitRebuild | main.py:313 | gluing the head, the markers and the pieces back together gives the input: nothing is lost |
| SpiderParts.NestedOfSnoc | main.py:350-358 | each split piece adds one `(label)` entry with its stripped text, unless that text is empty |
| SpiderParts.ParseSubSubparts | main.py:341-360 | `parse_sub_subparts_improved` returns the nested entries of the content |
| SpiderParts.LabelledPart | main.py:357 | an entry's `part` is the label in parentheses |
| SpiderParts.NestedEntries | main.py:346-360 | there are at most as many entries as markers, each well formed (`(label)` with non-empty stripped text) |
| SpiderParts.NestedOfCount | main.py:355-358 | the number of entries is the number of pieces with non-blank text |
| SpiderParts.SubpartOf | main.py:326-336 | a part is `(letter)` with its nested entries; its question is empty when it has entries and is the stripped text otherwise |
| SpiderParts.SubpartsOf | main.py:324-337 | one part per `(a)`-`(d)` marker, in order |
| SpiderParts.Decompose | main.py:313-339 | the main question and the parts of the content |
| SpiderParts.StructureParts | main.py:313-339 | without a part marker the whole stripped content is the question and there are no parts; otherwise there is one part per marker, labelled in order |
| SpiderParts.ParseTheoryStructure | main.py:307-339 | `parse_theory_structure_improved` is the structure of the content after the number prefix |
| SpiderParts.ParseQuestionStructure | main.py:454-486 | `parse_question_structure` is the structure of the whitespace-normalised content |
| SpiderParts.RomanDivNotPartDiv | main.py:399-421 | a sub-part div is never taken as a part div |
| SpiderParts.HtmlPart | main.py:405-416 | a part div opens `(letter)` with its roman sub-parts, and its question is empty exactly when there are any |
| SpiderParts.HtmlMainSnoc | main.py:424-425 | the main question is fixed by the first decisive div |
| SpiderParts.HtmlRunMeaning | main.py:387-431 | the div loop's state yields, after the final flush, exactly the part divs' parts in order, plus the main question |
| SpiderParts.OpenPart | main.py:405-416 | opening a part builds the part of that div |
| SpiderParts.VisitDiv | main.py:387-425 | one loop pass is one step of the state machine |
| SpiderParts.ParseTheoryHtmlStructure | main.py:378-431 | `parse_theory_html_structure` returns the parts and main question of the stripped div texts |
| SpiderParts.HtmlMainIsFirst | main.py:423-425 | a non-empty main question is the first decisive div, and that div is not a part div |
| SpiderSolutions.StripParens | main.py:367 | `strip("()")` leaves no parenthesis at either end |
| SpiderSolutions.ParenthesisedLabel | main.py:367 | stripping `(x)` gives back `x` |
| SpiderSolutions.FirstOccurrence | main.py:371 | finds the leftmost occurrence of the part label at or after a position, or reports that none exists |
| SpiderSolutions.SolutionEnd | main.py:370 | the lazy `(.*?)` stops at the first `([a-d])` or at the end |
| SpiderSolutions.SearchSolution | main.py:370-371 | a part's solution is found exactly when its label occurs in the solution text |
| SpiderSolutions.WithSolution | main.py:365-374 | attaching a solution changes only `solution`, and only when the label occurs in the solution text |
| SpiderSolutions.Integrated | main.py:365-376 | each part is updated on its own, in place in the list |
| SpiderSolutions.IntegratedKeeps | main.py:365-376 | integration keeps every part's label, question and entries; the solution is the stripped match or the old one |
| SpiderSolutions.IntegrateTheorySolutions | main.py:362-376 | `integrate_theory_solutions` returns the integrated parts |
| Spider.OptionsOf | main.py:128 | a question's options have keys A-D and texts free of A-D |
| Spider.ObjectiveOfMeaning | main.py:108-153 | without a number there is no question; a parsed objective has the searched number (positive), a non-empty clean stem, a non-empty option, keys A-D and only non-ad diagrams |
| Spider.ParseObjectiveQuestion | main.py:108-153 | `parse_objective_question_improved` computes the objective record of the div |
| Spider.KeptImagesKept | main.py:210-211 | no kept image is an ad image |
| Spider.TheoryFromMeaning | main.py:283-305 | a theory record has the number, the parsed main question and parts with the same labels; there is none exactly when both are empty |
| Spider.TheoryOfMeaning | main.py:267-305 | without a number there is no theory record; a record has the searched number and only non-ad diagrams |
| Spider.ParseTheoryQuestion | main.py:267-305 | `parse_theory_question_improved` computes the theory record of the div |
| Spider.TheoryFromStructure | main.py:284-305 | the record is built from the structure, with solutions integrated only when a solution part exists |
| Spider.AssembleTheory | main.py:284-305 | assembling the parts gives the theory record |
| Spider.ByNumberTotal | main.py:103 | ordering by question number is a total preorder |
| Spider.CollectUntilStops | main.py:88-91 | the scan stops at the first div mentioning THEORY QUESTIONS |
| Spider.CollectUntilSkips | main.py:93-100 | a div that gives no question contributes nothing |
| Spider.ObjectiveScanStops | main.py:88-91 | the objective scan ignores everything from the first THEORY QUESTIONS div on |
| Spider.ObjectiveScanSkipsAd | main.py:93-95 | an advertisement div contributes nothing to the objective scan |
| Spider.ExtractObjectiveQuestions | main.py:73-106 | `extract_objective_questions` is the stable sort by number of the scan: sorted and a permutation |
| Spider.CollectObjectiveQuestions | main.py:86-100 | the loop collects exactly the scan |
| Spider.VisitObjectiveDiv | main.py:93-98 | one div gives its objective candidate, or none for an advertisement |
| Spider.DedupFrom | main.py:257-262 | deduplication keeps only questions of the input whose number was not yet seen |
| Spider.DedupIncreasing | main.py:254-262 | deduplicating a sorted list gives strictly increasing numbers |
| Spider.DedupKeepsFirst | main.py:257-262 | the first question of each unseen number is kept |
| Spider.TiesByNumber | main.py:254 | the questions tied with `y` are exactly those with `y`'s number |
| Spider.TiesHead | main.py:254-262 | the first question tied with `y` is the first of its number in the list |
| Spider.KeptIsFirst | main.py:254-262 | every kept theory question is the first scraped one with its number |
| Spider.FirstIsKept | main.py:254-262 | the first scraped question of each number is kept |
| Spider.TheoryOrder | main.py:254-262 | sort-then-dedup gives strictly increasing numbers and keeps exactly the first question of each number |
| Spider.ExtractTheoryQuestions | main.py:228-265 | `extract_theory_questions` is sort-then-dedup of the scan: increasing, and exactly one question per number, namely the first scraped |
| Spider.CollectTheoryQuestions | main.py:243-251 | the loop collects exactly the theory scan |
| Spider.VisitTheoryDiv | main.py:244-251 | one div gives its theory candidate, or none for an advertisement |
| Spider.KeepFirstOfEachNumber | main.py:257-262 | the `seen_numbers` loop computes the deduplication |
| Spider.ParsePage | main.py:50-64 | `parse` yields the objective questions, then the theory questions |
| Spider.ExtractDiagram | main.py:509-516 | `extract_diagram` is the first non-ad image, or none exactly when there is no such image |
| Restructure.BucketKey | restructure_questions.py:63-71 | `mcq` becomes `objectives`, and only truthy types get a bucket |
| Restructure.CountType | restructure_questions.py:62-69 | the records of one type are at most all records |
| Restructure.Bucket | restructure_questions.py:71-75 | a bucket has at most as many records as the input, and none keeps `section` or `type` |
| Restructure.Cleaned | restructure_questions.py:72-74 | the cleaned copy drops exactly `section` and `type` and keeps every other field |
| Restructure.CountTruthySnoc | restructure_questions.py:77-80 | appending a record adds one to a count exactly when its field is truthy |
| Restructure.BucketSnoc | restructure_questions.py:71-75 | a record goes to the end of its own bucket, cleaned |
| Restructure.TalliedAdd | restructure_questions.py:71-80 | appending to a bucket and bumping the counters keeps buckets and counters equal to their definitions |
| Restructure.CountedAdd | restructure_questions.py:77-80 | bumping a type's counter when the cleaned field is truthy keeps the counter equal to its definition |
| Restructure.SumSizesGrow | restructure_questions.py:75 | appending to one bucket adds one to the total size |
| Restructure.BucketRecords | restructure_questions.py:61-80 | counts every record and the `mcq`/`theory` ones; the buckets appear in order of first appearance; each bucket holds its cleaned records in order; the diagram and solution counters count the truthy ones; bucketed plus unbucketed is the total |
| Restructure.ScanRecord | restructure_questions.py:61-80 | one pass of the loop over the records takes the counts, the bucket order, the buckets and the per-bucket counters from their values after the earlier records to their values after this one |
| Restructure.TallyRecord | restructure_questions.py:62-80 | one loop pass keeps the tallies right, adds a new type at the end of the bucket order, and grows the bucketed total by one exactly when the record has a type |
| Restructure.KeyOrderMembers | restructure_questions.py:71-75 | the bucket order names each non-empty bucket once, and nothing else |
| Restructure.AddToBucket | restructure_questions.py:75-80 | a new type joins the key order at the end, and the record goes to its bucket |
| Restructure.ObjectivesBucketSize | restructure_questions.py:63-75 | the `objectives` bucket holds the `mcq` records and the `objectives` records |
| Restructure.TheoryBucketSize | restructure_questions.py:68-75 | the `theory` bucket holds exactly the `theory` records |
| Restructure.CleanedFlattenable | restructure_questions.py:72-74 | cleaning does not change what flattening reads |
| Restructure.BucketRows | restructure_questions.py:101-103 | one row per record of a bucket |
| Restructure.AllRowsCount | restructure_questions.py:100-103 | there are as many rows as bucketed records |
| Restructure.FlattenBuckets | restructure_questions.py:100-103 | the rows of all buckets, in bucket order |
| Restructure.AllRowsOrderRows | restructure_questions.py:99-103 | flattening the collected buckets in their order gives each bucket's flattened records in input order |
| Restructure.AllNamesIn | restructure_questions.py:110-112 | the field names are exactly the names of the columns of some row |
| Restructure.DistinctPermutation | restructure_questions.py:115-116 | a permutation of a duplicate-free list is duplicate-free |
| Restructure.OrderedFieldnames | restructure_questions.py:109-127 | the header holds each field name of some row exactly once, strictly increasing by `(group, name)` |
| Restructure.RestructureRecords | restructure_questions.py:61-127 | the statistics count the records and types, and per bucket the records with diagrams and with a solution; the rows are the flattened records, bucket after bucket in order of first appearance and in input order within a bucket; the header is absent exactly when there are no rows, and otherwise is ordered and covers every row key |
| Columns.ParseColumnName | restructure_questions.py:26-44 | every column key reads back to its column |
| Columns.ColumnNameInjective | restructure_questions.py:26-44 | different columns never share a key, so no flattened cell overwrites another |
| Columns.GroupOfColumn | restructure_questions.py:117-124 | base fields sort in group 0, options in group 1 and sub-part columns in group 2 |
| Columns.FieldLeTotalPreorder | restructure_questions.py:115-127 | the `(group, name)` key orders field names totally |
| Columns.FieldLeDistinct | restructure_questions.py:115-127 | two different names are strictly ordered, one way only |
| Columns.HeaderDeterministic | restructure_questions.py:115-127 | two increasing headers over the same names are equal: the header does not depend on set iteration order |
| Flatten.WithOptionsHas | restructure_questions.py:24-26 | copying options adds exactly their `option_` columns and keeps other columns |
| Flatten.WithOptionsCell | restructure_questions.py:24-26 | an option column holds the last value given for its key |
| Flatten.NestedView | restructure_questions.py:34-35 | the nested entries of a part, few enough for `chr(97 + j)` |
| Flatten.PartsView | restructure_questions.py:30 | one part view per sub-part |
| Flatten.NestedLetter | restructure_questions.py:36 | `chr(97 + j)` |
| Flatten.WithNestedHas | restructure_questions.py:35-44 | nested entries add exactly the `subpart_i_letter_*` columns of their letters |
| Flatten.NestedCellsAt | restructure_questions.py:36-44 | one nested entry sets exactly its three `subpart_{i}_{letter}_*` columns and leaves every other column as it was |
| Flatten.WithNestedCell | restructure_questions.py:35-44 | each nested column holds the entry's field, or `""` when it is absent |
| Flatten.WithPartHas | restructure_questions.py:30-44 | one part adds exactly its `subpart_i_*` and nested columns |
| Flatten.WithPartCell | restructure_questions.py:31-33 | a part's column holds its field, or `""` when it is absent |
| Flatten.WithSubpartsHas | restructure_questions.py:29-44 | the sub-part loop adds exactly the sub-part columns and keeps the base columns |
| Flatten.WithSubpartsCell | restructure_questions.py:30-33 | after the loop, part `i`'s column holds its field |
| Flatten.WithSubpartsNested | restructure_questions.py:34-44 | after the loop, nested entry `j` of part `i` holds its field |
| Flatten.BaseRowColumns | restructure_questions.py:14-21 | the six base columns, with `get` defaults (`None` for number and question, `""` for solution and answer) |
| Flatten.DiagramsCellSplits | restructure_questions.py:20 | the `\|`-joined diagrams cell splits back into the diagram list |
| Flatten.FlatHas | restructure_questions.py:12-46 | the columns of a flattened record are exactly the base ones, the options of an `objectives` record and the sub-parts of a `theory` record |
| Flatten.FlatOptionCell | restructure_questions.py:24-26 | an `objectives` row holds each option's value |
| Flatten.FlatSubpartCell | restructure_questions.py:29-33 | a `theory` row holds each sub-part's fields |
| Flatten.FlatNestedCell | restructure_questions.py:34-44 | a `theory` row holds each nested entry's fields |
| Flatten.FlattenQuestion | restructure_questions.py:12-46 | `flatten_question` computes the flattened row |
| Flatten.FlattenSubparts | restructure_questions.py:29-44 | the sub-part loop computes the sub-part columns |
| Flatten.FlattenPart | restructure_questions.py:31-44 | one sub-part pass writes its own and its nested columns |
| Flatten.FlattenOptions | restructure_questions.py:24-26 | the options loop writes the option columns |
| Images.SplitExt | image_downloader.py:43 | `os.path.splitext`: the extension is empty or a dot-led suffix of the last path component |
| Images.PathExtension | image_downloader.py:43-44 | the extension starts with a dot and contains no upper-case letter (`.jpg` when there is none) |
| Images.SanitiseClean | image_downloader.py:41 | a URL that starts with a visible character and holds no tab or line break is parsed as it is |
| Images.SanitiseIdempotent | image_downloader.py:41 | sanitising a URL twice is sanitising it once |
| Images.SanitiseSkipsUnsafe | image_downloader.py:41 | a tab, carriage return or line feed anywhere in a URL is dropped before parsing |
| Images.UrlPathSanitised | image_downloader.py:41-42 | `urlparse` parses the URL with its leading controls and spaces stripped and its tabs and line breaks removed |
| Images.UrlPathSkipsUnsafe | image_downloader.py:41-42 | a tab or line break anywhere in a URL changes neither its path nor whether `urlparse` raises |
| Images.FileExtension | image_downloader.py:39-44 | `get_file_extension` raises exactly when `urlparse` rejects the URL, and otherwise gives a dot-led extension |
| Images.HttpsPath | image_downloader.py:41-42 | `urlparse(…).path` of an `https` URL with matched brackets in its host is its path, without host, query or fragment |
| Images.HttpsUnmatchedBracket | image_downloader.py:39-42 | an `https` URL whose host holds `[` without `]`, or `]` without `[`, makes `urlparse`, and so `get_file_extension`, raise |
| Images.ExtOfName | image_downloader.py:43 | the extension of `/name.e` is `.e` |
| Images.ExtensionOfHttpsUrl | image_downloader.py:39-44 | the extension of `https://host/name.e?…`, with matched brackets in the host, is `.e` lower-cased |
| Images.DiagramNameMark | image_downloader.py:61-64 | the first image's name has `.` after `_diagram`, and later ones have `_` there |
| Images.DiagramNameInjective | image_downloader.py:61-64 | two images of one question never get the same name |
| Images.FilenameInjective | image_downloader.py:46-64 | `generate_filename` never gives two indices the same name when it does not raise |
| Images.GenerateFilenameShape | image_downloader.py:46-64 | `generate_filename` raises exactly when `urlparse` rejects the URL; otherwise the name starts `q{number}_diagram`, then `.` for the first image and `_` for later ones, and ends with the URL's extension |
| Images.UrlPathCut | image_downloader.py:41-42 | the path taken from an accepted URL holds no `?`, no `#`, and no tab or line break |
| Images.ImageDownloader.TargetDirShape | image_downloader.py:114-120 | a question's directory lies in the subdirectory its section selects and ends `/question_{number}` |
| Images.ImageDownloader.TargetDirsSeparate | image_downloader.py:114-120 | questions of different sections never share a directory |
| Images.ImageDownloader.QuestionRunKeeps | image_downloader.py:122-139 | one question's run keeps every cached path and returns at most one path per URL |
| Images.ImageDownloader.RunAllKeeps | image_downloader.py:168-181 | going through the questions keeps every cached path and returns at most one path per diagram URL |
| Images.ProcessedKeeps | image_downloader.py:124-139 | the loop gives at most one path per URL, never changes a cached entry, and returns only cached paths |
| Images.ProcessedAttempts | image_downloader.py:124-137 | only URLs of the question that were not cached are downloaded, and the cache grows only by those |
| Images.ProcessedAllCached | image_downloader.py:126-128 | when every URL is cached nothing is downloaded, nothing raises, and the cached paths come back in order |
| Images.FilePathsFail | image_downloader.py:131-132 | computing a diagram's file path raises exactly for the URLs `urlparse` rejects |
| Images.ProcessedStops | image_downloader.py:124-139 | once `generate_filename` has raised, the remaining URLs change neither the cache nor the paths nor the downloads |
| Images.ProcessedRaises | image_downloader.py:124-139 | from a cache of accepted URLs, the loop raises exactly when one of its URLs is rejected, and the cache keeps only accepted URLs |
| Images.ImageDownloader.QuestionRunRaises | image_downloader.py:98-139 | `process_question_images` raises exactly when the question has a diagram URL `urlparse` rejects |
| Images.ImageDownloader.AfterQuestionRaises | image_downloader.py:168-181 | one more question makes the run raise exactly when it has a rejected URL, unless it had raised already |
| Images.ImageDownloader.RunAllStops | image_downloader.py:168-181 | once a question has raised, the later questions change nothing |
| Images.ImageDownloader.RunAllRaises | image_downloader.py:168-181 | from a cache of accepted URLs, going through the questions raises exactly when some question has a rejected diagram URL |
| Images.ImageDownloader.constructor | image_downloader.py:20-37 | a downloader starts with an empty cache |
| Images.ImageDownloader.ProcessQuestionImages | image_downloader.py:98-139 | `process_question_images` raises exactly when the run over the question's URLs and target paths raises, otherwise returns that run's paths, and leaves the cache as that run does; a question without diagrams changes nothing |
| Images.ImageDownloader.CountQuestion | image_downloader.py:168-181 | one loop pass raises exactly when the question's run raises; otherwise it counts a question with images, by section too, adds its URLs to the total and its run to the cache and the downloaded count |
| Images.ImageDownloader.DownloadAllImages | image_downloader.py:141-183 | an unreadable file gives `{}`; otherwise the call raises exactly when the question-by-question run raises, which from a cache of accepted URLs is exactly when some diagram URL is rejected; when it does not raise, the statistics count the questions with images, per section, and the images, with downloaded plus failed equal to the images; the final cache and the downloaded count are those of the question-by-question run |
| Images.WithImages | image_downloader.py:169-170 | questions with images are at most all questions |
| Images.CountsSnoc | image_downloader.py:169-176 | one question adds to the counters exactly when it has images (and its section) |
| Images.ImageTotalSnoc | image_downloader.py:171 | one question adds the number of its diagram URLs to the image total |
| Images.SectionsBounded | image_downloader.py:169-176 | objective plus theory questions with images are at most all questions with images |
| Images.NoImagesIffNoQuestions | image_downloader.py:169-171 | no image at all exactly when no question has images |
| RunSpider.GenerateUrlInjective | run_spider.py:24-26 | different subject-year pairs (years without `-`) give different URLs |
| RunSpider.GenerateUrlShape | run_spider.py:24-26 | the URL is the questions base followed by `subject-year/` |
| RunSpider.ValidateYearDec | run_spider.py:36-48 | a printed year is valid exactly when it lies between 2000 and the current year |
| RunSpider.ValidateYearText | run_spider.py:36-48 | whitespace around a year is ignored, and only text that strips to a non-empty digit string, with at most a sign, can be valid |
| RunSpider.ValidateSubjectNames | run_spider.py:51-57 | a subject is valid exactly when it is one of the four listed, spelled exactly so |
| RunSpider.ValidateSubjectYearDec | run_spider.py:60-62 | a combination is valid exactly when its subject is listed and its printed year lies between 2000 and the current year |
| RunSpider.YearsBetween | run_spider.py:107-108 | the years from `a` to `b`, inclusive, in order |
| RunSpider.ParseYearRange | run_spider.py:102-114 | a text without `-` is one year; a range with two or more `-` raises |
| RunSpider.ParseYearRangeParts | run_spider.py:104-113 | `"a-b"` gives the years from `int(a)` to `int(b)` when both parse, and no years otherwise |
| RunSpider.ParseYearRangeDec | run_spider.py:102-108 | `"a-b"` gives the years from `a` to `b` |
| RunSpider.ParseSubjects | run_spider.py:117-119 | one subject per comma-separated piece |
| RunSpider.ParseSubjectsJoin | run_spider.py:117-119 | parsing a comma-join of stripped, comma-free names gives them back |
| RunSpider.ValidForSplit | run_spider.py:133-137 | the years of a subject are either valid combinations or counted as failed |
| RunSpider.ValidForMembers | run_spider.py:133-139 | a subject's combinations are exactly its valid years, with their URLs |
| RunSpider.ValidPairsMembers | run_spider.py:133-139 | the combinations are exactly the valid subject-year pairs, with their URLs |
| RunSpider.FailedOfMembers | run_spider.py:155-248 | the failed list holds exactly the combinations whose processing failed |
| RunSpider.FailedOfNone | run_spider.py:155-260 | nothing failed exactly when every combination succeeded |
| RunSpider.CollectCombinations | run_spider.py:133-139 | the validation loop collects the valid pairs and counts the others |
| RunSpider.ProcessCombinations | run_spider.py:155-258 | the processing loop collects the failed combinations |
| RunSpider.FailedOfAll | run_spider.py:155-248 | when no combination can be processed, the failed list is every combination, in order |
| RunSpider.RunBatchSpiderAsWritten | run_spider.py:122-300 | with `restructure_json` raising as written, a run that is not a dry run fails and lists every valid combination as failed |
| RunSpider.RunBatchSpider | run_spider.py:122-300 | a dry run succeeds and processes nothing; otherwise the result is true exactly when some combination is valid and every one succeeds, and the failed list holds exactly the failures |
| Reports.YearOf | generate_reports.py:14 | the last `_` piece holds no `_` |
| Reports.SubjectYearJoin | generate_reports.py:11-14 | subject, `_` and year glue back to the directory name |
| Reports.SubjectYearSplit | generate_reports.py:11-14 | a `subject_year` name splits back into its subject and year |
| Reports.SubjectYearCombinations | generate_reports.py:6-16 | `get_subject_year_combinations` lists the combinations of the entries |
| Reports.CombinationsMembers | generate_reports.py:6-16 | a pair is listed exactly when `subject_year` is a directory and the year is all digits |
| Reports.StatsOf | generate_reports.py:33-49 | the printed statistics, each defaulted as its `get` chain defaults it |
| Reports.StatsDefaults | generate_reports.py:33-49 | without `spider_stats` every count is 0 and the image map is empty |
| Reports.ImageStatsDefaults | generate_reports.py:34-49 | without `image_download_stats` the image counts are 0 |
| Reports.SuccessRate | generate_reports.py:51-55 | the rate is `downloaded / expected` when an image was expected, and 0 otherwise |
| Reports.SummaryLines | generate_reports.py:57-75 | the summary is fifteen lines |
| Reports.HeadlineSubject | generate_reports.py:60 | the headline's subject is the directory subject with `_` as blanks, title-cased |
| Reports.HeadlineExample | generate_reports.py:60 | `social_studies` is written `Social Studies` |
| Reports.FailedLines | generate_reports.py:80-90 | the failed-download section is there exactly when some download failed |
| Reports.AppendDownloaded | generate_reports.py:76-77 | one `Downloaded:` line per map entry, in map order, after the existing lines |
| Reports.BuildReport | generate_reports.py:57-90 | the report is the 15 summary lines, then one line per downloaded image, then the failed section |
| Reports.GenerateReport | generate_reports.py:19-90 | no report when the metadata file is missing; otherwise the laid-out report of its statistics |
| UpdateMetadata.DirLessTotal | update_all_metadata.py:42 | the `(subject, year, path)` order ranks any two different directories |
| UpdateMetadata.DirLessTransitive | update_all_metadata.py:42 | the directory order is transitive |
| UpdateMetadata.DirLessIrreflexive | update_all_metadata.py:42 | no directory sorts before itself |
| UpdateMetadata.DirLeTotalPreorder | update_all_metadata.py:42 | the directory order is a total preorder |
| UpdateMetadata.CandidatesMembers | update_all_metadata.py:33-40 | a directory is listed exactly when its name holds `_` and splits at the last `_` into its subject and year |
| UpdateMetadata.CandidateOf | update_all_metadata.py:34-40 | an entry gives a directory exactly when it is a directory whose name is subject, `_` and a `_`-free year |
| UpdateMetadata.FindAllDataDirectories | update_all_metadata.py:20-42 | no directories without `data`; otherwise a sorted permutation of the candidates |
| UpdateMetadata.ScreenshotUrl | update_all_metadata.py:45-53 | `page_screenshot` of the JSON file; `""` when the file cannot be read, when its content is not an object (`.get` raises and the handler returns `''`), or when it has no such key |
| UpdateMetadata.HasScreenshot | update_all_metadata.py:56-71 | the flag is the truthiness of the URL; the URL is `spider_stats.page_screenshot` (default `""`) whenever `spider_stats` is an object, and `(False, "")` when the file cannot be read, is not an object, or has a non-object `spider_stats` |
| UpdateMetadata.OutcomeOf | update_all_metadata.py:100-145 | a directory is skipped exactly when a file is missing or the URL is falsy; up to date only when the metadata already holds that URL; otherwise updated exactly when the enrichment succeeds |
| UpdateMetadata.OutcomesPartition | update_all_metadata.py:96-145 | every directory has exactly one outcome: skipped, up to date, updated or failed |
| UpdateMetadata.CountOutcomeZero | update_all_metadata.py:160-167 | an outcome's count is 0 exactly when no directory has it |
| UpdateMetadata.AllAccountedFor | update_all_metadata.py:169 | updated plus up to date is the total exactly when every directory ends updated or up to date |
| UpdateMetadata.UpdateDirectory | update_all_metadata.py:100-145 | one loop pass gives the directory's outcome |
| UpdateMetadata.UpdateAllMetadata | update_all_metadata.py:74-169 | the counters count the outcomes over the sorted directories; the result is false when there are none, and otherwise true exactly when every directory is updated or up to date |
| UpdateMetadata.PreviewMatchesUpdate | update_all_metadata.py:188-208 | the preview classifies a directory as the update would: up to date, skipped, or to be updated (with a truthy URL) |
| UpdateMetadata.CategoryOf | update_all_metadata.py:188-208 | missing files exactly when a file is missing; no URL exactly when the files exist but the URL is falsy; already updated only when the metadata holds that URL; to be updated only with a truthy URL the metadata does not hold |
| UpdateMetadata.CategoriesPartition | update_all_metadata.py:183-208 | the four preview lists together hold every directory once |
| UpdateMetadata.CategorizeDirectory | update_all_metadata.py:189-208 | one preview pass gives the category and, for an update, the URL |
| UpdateMetadata.PreviewUpdates | update_all_metadata.py:172-208 | no preview without directories; otherwise the four lists of the sorted directories, in order |
| ScreenshotSettings.ImageKitFromEnv | config/screenshot_config.py:35-39 | the three credentials are the environment variables, whatever was passed |
| ScreenshotSettings.ConfiguredFromEnv | config/screenshot_config.py:35-43 | `is_configured` holds exactly when the three ImageKit environment variables are set and non-empty |
| ScreenshotSettings.MissingVarsExact | config/screenshot_config.py:113-122 | a variable is reported missing exactly when its credential is absent or empty, in source order; none missing exactly when configured |
| ScreenshotSettings.CredentialErrors | config/screenshot_config.py:113-122 | at most one credential error, present exactly when ImageKit is not configured |
| ScreenshotSettings.CollectMissingVars | config/screenshot_config.py:114-120 | the loop collects the missing variable names |
| ScreenshotSettings.ErrorsEmpty | config/screenshot_config.py:107-138 | there is no error exactly when screenshots are disabled or every setting is acceptable |
| ScreenshotSettings.ErrorMessages | config/screenshot_config.py:107-138 | at most five errors; each of the browser, viewport, timeout and PDF messages appears exactly when enabled and its check fails |
| ScreenshotSettings.DefaultsAcceptable | config/screenshot_config.py:12-54 | the default Playwright and PDF settings are acceptable once ImageKit is configured |
| ScreenshotSettings.OptionalText | config/screenshot_config.py:156-158 | an absent value is `None`, a present one a string |
| ScreenshotSettings.ScreenshotConfig.constructor | config/screenshot_config.py:65-72 | each missing part takes its default; ImageKit reads the environment |
| ScreenshotSettings.ScreenshotConfig.Validate | config/screenshot_config.py:107-138 | the errors in source order, `ok` exactly when there are none, and always ok when disabled |
| ScreenshotSettings.ScreenshotConfig.ToDict | config/screenshot_config.py:140-171 | four sections, with the values of the configuration |
| ScreenshotSettings.ImageKitDict | config/screenshot_config.py:155-160 | the private key is masked as `***` when present, and `None` otherwise |
| ScreenshotSettings.PlaywrightFromEnv | config/screenshot_config.py:80-88 | the browser defaults to `chromium`; headless is true exactly when the variable lower-cases to `true` |
| ScreenshotSettings.PlaywrightFromEnvParses | config/screenshot_config.py:80-88 | the Playwright settings exist exactly when the four integer variables parse, and then hold their values |
| ScreenshotSettings.PdfFromEnv | config/screenshot_config.py:91-98 | the PDF settings exist exactly when the five integer variables parse; the format defaults to `A4` |
| ScreenshotSettings.FromEnv | config/screenshot_config.py:75-105 | `from_env` fails exactly when an integer variable does not parse; otherwise it reads every setting from the environment |
| ScreenshotSettings.LoadConfig | config/screenshot_config.py:174-186 | the loaded configuration is enabled exactly when the environment enables it and every setting is acceptable, so it always validates |

## Left out

- Network, file and process I/O are inputs or oracles, not modelled:
  - the page fetch and Scrapy's CSS/XPath selection (a div is given as its text nodes and image sources);
  - pagination and feed export in `main.py`;
  - `urllib` downloads (`download(url, path)`);
  - reading and writing JSON, CSV, metadata and report files;
  - the spider subprocess and the temporary scripts of `run_spider.py` (`process(subject, year)`);
  - the enrichment service of `update_all_metadata.py` (`enrich(dir, url)`);
  - `dotenv` (the environment is a map).
- Command-line entry points are left out:
  - the `__main__` blocks and `argparse`;
  - `list_available_subjects` and `run_spider_for_subject`, which only delegate;
  - printed progress messages;
  - `generate_download_report`, which only formats text;
  - the `main` functions.
- Clocks are parameters: the current year (`currentYear`) and `datetime.now().isoformat()` (`generatedOn`).
- Floating point is a parameter: the success-rate percentages are formatted by `percent(downloaded, expected)`.
- `html.unescape` is left out: text nodes are taken as already decoded.
- Unicode is ASCII only: `str.lower`, `str.isdigit` and `str.title()` (in the report headline) are modelled on ASCII letters; any other character counts as a non-letter.
- SpiderText.SearchNumber: the regular-expression class `\d` at `main.py:113` and `main.py:272` is modelled as the ASCII digits `0`-`9` (Text.IsDigit). In Python 3 `\d` on a `str` also matches every other Unicode decimal digit, and `int()` reads those; that is not modelled.
- SpiderText.DigitRunStart, SpiderText.FirstDotAfterDigit: digits are the ASCII `0`-`9`, as for SpiderText.SearchNumber.
- SpiderParts.IsNumberLine: the `^\d+\.$` of `main.py:393` is matched with ASCII digits only.
- ParseInt: Python's `int(str)` is modelled as optional sign plus ASCII digits after `strip()`. `_` digit separators and non-ASCII digits are not modelled.
- Images.FileExtension: `urlparse` is modelled as in Python 3.12. That covers the stripping of leading controls and spaces, the removal of tabs and line breaks, the scheme, the `//` network location, `;` parameters, query and fragment, and the `ValueError` for an unmatched `[` or `]` in the network location. Two further checks that raise `ValueError` are not modelled: the validation of a bracketed IPv6 or IPvFuture host (Python 3.11.4 and later) and the NFKC check of a non-ASCII network location.
- Images.HttpsPath: states the path only for URLs free of tabs and line breaks. Any other URL has the path of the URL with those characters removed, by UrlPathSkipsUnsafe.
- Images.ImageDownloader.DownloadAllImages: the `ValueError` of `urlparse` propagates out of `download_all_images`, so a raising run returns no statistics. The model gives `InvalidUrl` in its place.
- Images.ImageDownloader.ProcessQuestionImages: paths are joined with `/`. `pathlib` normalisation is not modelled.
- Images.ImageDownloader.ProcessQuestionImages: requires a truthy `diagrams` to be a list of strings and `number` to be a scalar (null, boolean, integer or string). Python also iterates a truthy string `diagrams` character by character and formats a list or dictionary `number` with its `repr`; those inputs are not modelled.
- Images.ImageDownloader.DownloadAllImages: requires the same of every question, so `len(question['diagrams'])` is a list length. The reference functions Images.DiagramUrls and Images.NumberText are total: for an excluded question they give no URLs and an empty number, values no method relies on.
- JsonModel: numbers are integers only. JSON floats are not modelled; the scraper writes none.
- Restructure.RestructureRecords: leaves out the image download step at `restructure_questions.py:85-91`. As written, line 86 calls `ImageDownloader(subject, year, output_dir)`, but the constructor at `image_downloader.py:20` takes one argument, so `restructure_json` raises `TypeError` there; line 90 then calls `download_and_update_images`, which `ImageDownloader` does not define. The model follows the evidently intended step, which passes the buckets to flattening unchanged; see "## Findings" for the consequence in `run_batch_spider`.
- Restructure.RestructureRecords: the metadata file's constant fields and the report file move are I/O.
- Restructure.BucketRecords: requires hashable type values and flattenable records. That means `diagrams` is a list of strings, `options` is a dictionary, `subparts` is a list of dictionaries, and each nested `subparts` is a list of dictionaries. The shapes on which Python really raises `TypeError` or `AttributeError` are a non-string item in `diagrams`, a non-dictionary `options`, and a sub-part or nested entry that is not a dictionary. Python also accepts some inputs outside these shapes, listed under Flatten.FlattenQuestion; those are not modelled.
- Flatten.FlattenQuestion: requires the flattenable shapes above. Python also accepts some inputs outside them, and those are not modelled:
  - a string `diagrams`, which `"|".join` at `restructure_questions.py:20` joins character by character;
  - an empty string or empty dictionary `subparts` or nested `subparts`, which `enumerate` at lines 30 and 35 walks without raising.
- Flatten.FlattenQuestion: nested entries are limited to `0xD800 - 97` per sub-part, so that `chr(97 + j)` stays below the surrogate range, which has no Dafny `char`.
- Restructure.RestructureRecords: requires every record to be flattenable, so it excludes the same inputs that Python accepts.
- UpdateMetadata.FindAllDataDirectories: the third sort key is the directory name rather than the `Path` object. All paths share the `data/` parent, so both orders agree.
- `ScrapyPlaywrightConfig`, a plain alias, is left out.
- The ImageKit `folder_structure` template is kept as an uninterpreted string.
- Python's `1 == True` equality between JSON values is not modelled: booleans and integers are distinct values.
- Reports.StatsOf: requires the shapes the report reads, and so excludes metadata that Python reports on without raising:
  - a list or dictionary `total_questions`, `questions_with_diagrams.objectives` or `.theory`, which the f-strings at `generate_reports.py:64-67` print as its `repr`;
  - a boolean `total_images_expected`, `downloaded_images_count` or `failed_downloads`, which `> 0` and `/` at lines 51-55 and 80 treat as 0 or 1;
  - a `downloaded_images_count` of any other type when `total_images_expected` is not positive, where it is only printed.
  - a list or dictionary value in `downloaded_image_map`, which line 77 prints as its `repr`.
- Reports.GenerateReport: requires the same shapes, through StatsOf. The shapes on which Python really raises are invalid JSON, and a `spider_stats`, `image_download_stats`, `questions_with_diagrams` or `downloaded_image_map` that is not a dictionary (`.get` or `.items` fails). A non-number `total_images_expected` or `failed_downloads` also raises, because it is compared with 0. So does a non-number `downloaded_images_count` divided by a positive expected count.
- Reports.SummaryLines, Reports.AppendDownloaded, Reports.BuildReport: require the printed values to be scalars (null, boolean, integer or string). Python's `repr` of a list or dictionary is not modelled.

## Findings

| source | as written | input that shows it | evidently intended | confidence | as-written member | corrected member |
|---|---|---|---|---|---|---|
| restructure_questions.py:86 | `ImageDownloader(subject, year, output_dir)` passes three arguments to a constructor that takes one (`image_downloader.py:20`), so `restructure_json` raises `TypeError`; `run_batch_spider` catches it at run_spider.py:237-239 and counts the combination as failed | any non-dry run with a valid combination whose spider exits with status 0, e.g. `-S mathematics -Y 2020` | the questions are restructured into per-type buckets and written out, and the combination counts as successful | high (not executed) | RunSpider.RunBatchSpiderAsWritten | Restructure.RestructureRecords |
