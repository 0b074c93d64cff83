/**
 * The string-level steps of the question spider (main.py): text cleaning,
 * the advertisement checks, the question-number search, the split between
 * question and solution, the stem and the A-D options.
 *
 * Every regular expression of the source is written out as an explicit
 * scanner that returns the match Python's `re` engine returns (leftmost
 * match, greedy and lazy quantifiers with their backtracking order).
 */
module SpiderText {
  import opened Wrappers
  import opened Text

  /** `clean_text`: collapse whitespace runs to one blank and strip (entities are not decoded here). */
  function CleanText(text: string): (r: string)
    ensures text == "" ==> r == ""
    ensures r != [] ==> !IsSpace(r[0]) && !IsSpace(r[|r| - 1])
    ensures NoDoubleSpace(r) && OnlyBlanks(r)
    ensures NonSpace(r) == NonSpace(text)
  {
    if text == "" then ""
    else
      CleanTextKeeps(text);
      Strip(Collapse(text))
  }

  lemma CleanTextKeeps(text: string)
    ensures NoDoubleSpace(Strip(Collapse(text))) && OnlyBlanks(Strip(Collapse(text)))
    ensures NonSpace(Strip(Collapse(text))) == NonSpace(text)
  {
    StripKeepsSpacing(Collapse(text));
    StripNonSpace(Collapse(text));
    CollapseNonSpace(text);
  }

  /** `extract_full_text`: the text nodes of an element joined by blanks, then cleaned. */
  function FullText(nodes: seq<string>): string {
    CleanText(Join(nodes, " "))
  }

  const AdTextKeywords: seq<string> := [
    "sponsored", "advertise", "kuulchat media", "kuulpay.com",
    "get a professional", "affordable website", "management system"
  ]

  /** `is_advertisement` over the element's full text. */
  predicate IsAdvertisement(text: string) {
    exists k :: 0 <= k < |AdTextKeywords| && Contains(Lower(text), AdTextKeywords[k])
  }

  /** A div is an advertisement exactly when its lower-cased text contains one of the seven keywords. */
  lemma AdvertisementKeywords(text: string)
    ensures var t := Lower(text);
      IsAdvertisement(text) <==>
        || Contains(t, "sponsored") || Contains(t, "advertise") || Contains(t, "kuulchat media")
        || Contains(t, "kuulpay.com") || Contains(t, "get a professional")
        || Contains(t, "affordable website") || Contains(t, "management system")
  {
    var t := Lower(text);
    if Contains(t, "sponsored") { assert Contains(t, AdTextKeywords[0]); }
    if Contains(t, "advertise") { assert Contains(t, AdTextKeywords[1]); }
    if Contains(t, "kuulchat media") { assert Contains(t, AdTextKeywords[2]); }
    if Contains(t, "kuulpay.com") { assert Contains(t, AdTextKeywords[3]); }
    if Contains(t, "get a professional") { assert Contains(t, AdTextKeywords[4]); }
    if Contains(t, "affordable website") { assert Contains(t, AdTextKeywords[5]); }
    if Contains(t, "management system") { assert Contains(t, AdTextKeywords[6]); }
  }

  /** The check ignores letter case. */
  lemma AdvertisementIgnoresCase(text: string)
    ensures IsAdvertisement(Lower(text)) == IsAdvertisement(text)
  {
    assert Lower(Lower(text)) == Lower(text);
  }

  // ---------------------------------------------------------------------
  // `re.search(r"(\d+)\.", text)`
  // ---------------------------------------------------------------------

  /** A `.` at `j` right after a digit: where a match of `\d+\.` can end. */
  predicate DotAfterDigit(s: string, j: int) {
    0 < j < |s| && s[j] == '.' && IsDigit(s[j - 1])
  }

  /** Start of the maximal digit run that ends just before `j`. */
  function DigitRunStart(s: string, j: nat): (i: nat)
    requires j <= |s|
    ensures i <= j && AllDigits(s[i..j])
    ensures i == 0 || !IsDigit(s[i - 1])
  {
    if j > 0 && IsDigit(s[j - 1]) then
      var i := DigitRunStart(s, j - 1);
      assert s[i..j] == s[i..j - 1] + [s[j - 1]];
      i
    else j
  }

  function FirstDotAfterDigit(s: string, from: nat): (r: Option<nat>)
    ensures r.Some? ==> from <= r.value && DotAfterDigit(s, r.value)
    ensures r.Some? ==> forall k :: from <= k < r.value ==> !DotAfterDigit(s, k)
    ensures r.None? ==> forall k :: from <= k ==> !DotAfterDigit(s, k)
    decreases |s| - from
  {
    if from >= |s| then None
    else if DotAfterDigit(s, from) then Some(from)
    else FirstDotAfterDigit(s, from + 1)
  }

  /** The captured digits `text[start..end]`, the `.` at `end`, and `int()` of the digits. */
  datatype NumberMatch = NumberMatch(start: nat, end: nat, value: nat)

  /**
   * `re.search(r"(\d+)\.", text)`. The leftmost match starts at the head of
   * the digit run in front of the first `.` that follows a digit: starts inside
   * an earlier run fail, since a greedy `\d+` that cannot be followed by `.`
   * cannot be shortened onto a `.` either.
   */
  function SearchNumber(s: string): (r: Option<NumberMatch>)
    ensures r.None? <==> forall k :: !DotAfterDigit(s, k)
    ensures r.Some? ==>
      && r.value.start < r.value.end < |s|
      && s[r.value.end] == '.'
      && IsDigitString(s[r.value.start..r.value.end])
      && (r.value.start == 0 || !IsDigit(s[r.value.start - 1]))
      && r.value.value == DigitsValue(s[r.value.start..r.value.end])
      && forall k :: k < r.value.end ==> !DotAfterDigit(s, k)
  {
    match FirstDotAfterDigit(s, 0)
    case None => None
    case Some(j) =>
      var i := DigitRunStart(s, j);
      assert i < j by {
        assert IsDigit(s[j - 1]);
      }
      Some(NumberMatch(i, j, DigitsValue(s[i..j])))
  }

  // ---------------------------------------------------------------------
  // `re.split(r"\s+(?:W1|W2)\s+", text, 1)`
  // ---------------------------------------------------------------------

  /** Alternatives that are not empty and do not start with whitespace. */
  predicate MarkerWords(words: seq<string>) {
    forall w :: w in words ==> w != [] && !IsSpace(w[0])
  }

  /**
   * End of a match of `\s+(?:words[0]|words[1]|...)\s+` that starts at `i`,
   * trying the alternatives in order as `re` does. A shorter `\s+` never
   * helps since no word starts with whitespace.
   */
  function WordMarkerEnd(s: string, i: nat, words: seq<string>): (r: Option<nat>)
    requires i <= |s|
    requires MarkerWords(words)
    ensures r.Some? ==> i < r.value <= |s|
    decreases |words|
  {
    if words == [] || i >= |s| || !IsSpace(s[i]) then None
    else
      var j := SpaceEnd(s, i);
      var w := words[0];
      if j + |w| < |s| && s[j..j + |w|] == w && IsSpace(s[j + |w|]) then Some(SpaceEnd(s, j + |w|))
      else
        assert MarkerWords(words[1..]) by {
          assert forall w :: w in words[1..] ==> w in words;
        }
        WordMarkerEnd(s, i, words[1..])
  }

  /** No match of the marker starts before position `n` of `s`. */
  predicate MarkerFree(s: string, n: nat, words: seq<string>)
    requires MarkerWords(words)
  {
    forall k :: 0 <= k < n && k <= |s| ==> WordMarkerEnd(s, k, words).None?
  }

  /** The leftmost match of the marker at or after `from`, as (start, end). */
  function FirstWordMarker(s: string, from: nat, words: seq<string>): (r: Option<(nat, nat)>)
    requires from <= |s|
    requires MarkerWords(words)
    ensures r.Some? ==> from <= r.value.0 < r.value.1 <= |s|
    ensures r.Some? ==> WordMarkerEnd(s, r.value.0, words) == Some(r.value.1)
    ensures r.Some? ==> forall k :: from <= k < r.value.0 ==> WordMarkerEnd(s, k, words).None?
    ensures r.None? ==> forall k :: from <= k <= |s| ==> WordMarkerEnd(s, k, words).None?
    decreases |s| - from
  {
    match WordMarkerEnd(s, from, words)
    case Some(e) => Some((from, e))
    case None => if from == |s| then None else FirstWordMarker(s, from + 1, words)
  }

  /**
   * `parts = re.split(marker, text, 1)` followed by `parts[0]` and
   * `parts[1] if len(parts) > 1 else ""`.
   */
  function SplitAtWordMarker(s: string, words: seq<string>): (r: (string, string))
    requires MarkerWords(words)
    ensures MarkerFree(s, |s| + 1, words) ==> r.0 == s && r.1 == ""
    ensures r.0 <= s && |r.0| + |r.1| <= |s| && r.1 == s[|s| - |r.1|..]
    ensures r.0 != s ==>
      && WordMarkerEnd(s, |r.0|, words) == Some(|s| - |r.1|)
      && MarkerFree(s, |r.0|, words)
  {
    match FirstWordMarker(s, 0, words)
    case None => (s, "")
    case Some((i, e)) => (s[..i], s[e..])
  }

  const ObjectiveSolutionWords: seq<string> := ["Mark", "Solution"]
  const TheorySolutionWords: seq<string> := ["Show Solution"]

  lemma SolutionWordsAreMarkerWords()
    ensures MarkerWords(ObjectiveSolutionWords) && MarkerWords(TheorySolutionWords)
  {
  }

  /** `re.split(r"\s+(?:Mark|Solution)\s+", text, 1)` as (question part, solution part). */
  function ObjectiveSplit(text: string): (r: (string, string))
    ensures r.0 <= text
  {
    SolutionWordsAreMarkerWords();
    SplitAtWordMarker(text, ObjectiveSolutionWords)
  }

  /** `re.split(r"\s+Show Solution\s+", text, 1)` as (question part, solution part). */
  function TheorySplit(text: string): (r: (string, string))
    ensures r.0 <= text
  {
    SolutionWordsAreMarkerWords();
    SplitAtWordMarker(text, TheorySolutionWords)
  }

  /** What a split at a word marker means, for a result `r` known to be that split. */
  lemma {:induction false} WordSplitMeaning(text: string, words: seq<string>, r: (string, string))
    requires MarkerWords(words)
    requires r == SplitAtWordMarker(text, words)
    ensures r.0 <= text && |r.0| + |r.1| <= |text| && r.1 == text[|text| - |r.1|..]
    ensures MarkerFree(text, |text| + 1, words) ==> r.0 == text && r.1 == ""
    ensures r.0 != text ==>
      && WordMarkerEnd(text, |r.0|, words) == Some(|text| - |r.1|)
      && MarkerFree(text, |r.0|, words)
  {
  }

  /**
   * The objective split: the question part is the whole text when no
   * `\s+(Mark|Solution)\s+` occurs; otherwise it ends at the leftmost such
   * match and the solution part is the text after that match.
   */
  lemma {:induction false} ObjectiveSplitMeaning(text: string)
    ensures var r := ObjectiveSplit(text);
      && r.0 <= text && |r.0| + |r.1| <= |text| && r.1 == text[|text| - |r.1|..]
      && (MarkerFree(text, |text| + 1, ObjectiveSolutionWords) ==> r.0 == text && r.1 == "")
      && (r.0 != text ==>
            && WordMarkerEnd(text, |r.0|, ObjectiveSolutionWords) == Some(|text| - |r.1|)
            && MarkerFree(text, |r.0|, ObjectiveSolutionWords))
  {
    SolutionWordsAreMarkerWords();
    WordSplitMeaning(text, ObjectiveSolutionWords, ObjectiveSplit(text));
  }

  /** The theory split, at the leftmost `\s+Show Solution\s+`, in the same sense. */
  lemma {:induction false} TheorySplitMeaning(text: string)
    ensures var r := TheorySplit(text);
      && r.0 <= text && |r.0| + |r.1| <= |text| && r.1 == text[|text| - |r.1|..]
      && (MarkerFree(text, |text| + 1, TheorySolutionWords) ==> r.0 == text && r.1 == "")
      && (r.0 != text ==>
            && WordMarkerEnd(text, |r.0|, TheorySolutionWords) == Some(|text| - |r.1|)
            && MarkerFree(text, |r.0|, TheorySolutionWords))
  {
    SolutionWordsAreMarkerWords();
    WordSplitMeaning(text, TheorySolutionWords, TheorySplit(text));
  }

  // ---------------------------------------------------------------------
  // Stem: `re.sub(rf"^{n}\.?\s*", "", part)` and `re.split(r"\s+[A-D]\.\s+", text, 1)[0]`
  // ---------------------------------------------------------------------

  /** `re.sub(rf"^{n}\.?\s*", "", part)`: drop the number, one optional `.`, and the blanks after. */
  function RemoveNumberPrefix(part: string, n: nat): (r: string)
    ensures |r| <= |part| && r == part[|part| - |r|..]
    ensures !(DecNat(n) <= part) ==> r == part
  {
    var d := DecNat(n);
    if d <= part then
      var rest := part[|d|..];
      var rest' := if rest != [] && rest[0] == '.' then rest[1..] else rest;
      LStrip(rest')
    else part
  }

  predicate IsOptionLetter(c: char) {
    'A' <= c <= 'D'
  }

  /** `\s+[A-D]\.\s+` matches at `i`. */
  predicate OptionMarkerAt(s: string, i: nat)
    requires i <= |s|
  {
    i < |s| && IsSpace(s[i]) &&
    var e := SpaceEnd(s, i);
    e + 2 < |s| && IsOptionLetter(s[e]) && s[e + 1] == '.' && IsSpace(s[e + 2])
  }

  function FirstOptionMarker(s: string, from: nat): (r: Option<nat>)
    requires from <= |s|
    ensures r.Some? ==> from <= r.value < |s| && OptionMarkerAt(s, r.value)
    ensures r.Some? ==> forall k :: from <= k < r.value ==> !OptionMarkerAt(s, k)
    ensures r.None? ==> forall k :: from <= k <= |s| ==> !OptionMarkerAt(s, k)
    decreases |s| - from
  {
    if from == |s| then None
    else if OptionMarkerAt(s, from) then Some(from)
    else FirstOptionMarker(s, from + 1)
  }

  /**
   * `re.split(r"\s+[A-D]\.\s+", text, 1)[0]`: the text in front of the leftmost
   * option marker, or all of it when there is none.
   */
  function StemHead(text: string): (r: string)
    ensures r <= text
    ensures forall k :: 0 <= k < |r| ==> !OptionMarkerAt(text, k)
    ensures r == text || OptionMarkerAt(text, |r|)
  {
    match FirstOptionMarker(text, 0)
    case Some(i) => text[..i]
    case None => text
  }

  /**
   * `extract_question_stem`: the stem head of the text after the number prefix,
   * cleaned as `clean_text` cleans.
   */
  function ExtractQuestionStem(part: string, n: nat): (r: string)
    ensures r == CleanText(StemHead(RemoveNumberPrefix(part, n)))
    ensures r != [] ==> !IsSpace(r[0]) && !IsSpace(r[|r| - 1])
    ensures NoDoubleSpace(r) && OnlyBlanks(r)
  {
    var head := StemHead(RemoveNumberPrefix(part, n));
    CollapseStrip(head);
    Collapse(Strip(head))
  }

  // ---------------------------------------------------------------------
  // Options: `re.finditer(r"([A-D])\.\s*([^A-D]*?)(?=\s+[A-D]\.|$)", text)`
  // ---------------------------------------------------------------------

  predicate NoOptionLetters(s: string) {
    forall i :: 0 <= i < |s| ==> !IsOptionLetter(s[i])
  }

  /** The lookahead `(?=\s+[A-D]\.|$)` at `q`; `$` also matches before a final newline. */
  predicate OptionLookahead(s: string, q: nat)
    requires q <= |s|
  {
    || q == |s|
    || (q == |s| - 1 && s[q] == '\n')
    || (IsSpace(s[q]) && var e := SpaceEnd(s, q); e + 1 < |s| && IsOptionLetter(s[e]) && s[e + 1] == '.')
  }

  /** The lazy `[^A-D]*?` from `q`: the first end where the lookahead holds. */
  function LazyOptionEnd(s: string, q: nat): (r: Option<nat>)
    requires q <= |s|
    ensures r.Some? ==> q <= r.value <= |s| && OptionLookahead(s, r.value)
    ensures r.Some? ==> NoOptionLetters(s[q..r.value])
    decreases |s| - q
  {
    if OptionLookahead(s, q) then Some(q)
    else if q < |s| && !IsOptionLetter(s[q]) then
      var r := LazyOptionEnd(s, q + 1);
      if r.Some? then
        assert s[q..r.value] == [s[q]] + s[q + 1..r.value];
        r
      else r
    else None
  }

  /** One match: the letter, the raw capture of group 2, and where the match ends. */
  datatype OptionMatch = OptionMatch(letter: char, capture: string, end: nat)

  /**
   * The match of the option pattern that starts at `p`, if any. The greedy
   * `\s*` first takes the whole blank run; when no lazy end fits after it,
   * giving back blanks only helps when the run is followed by a marker
   * `X.`, and then the capture is empty.
   */
  function OptionMatchAt(s: string, p: nat): (r: Option<OptionMatch>)
    requires p <= |s|
    ensures r.Some? ==> p + 2 <= r.value.end <= |s|
    ensures r.Some? ==> IsOptionLetter(r.value.letter) && NoOptionLetters(r.value.capture)
  {
    if p + 1 < |s| && IsOptionLetter(s[p]) && s[p + 1] == '.' then
      var e := SpaceEnd(s, p + 2);
      match LazyOptionEnd(s, e)
      case Some(q) => Some(OptionMatch(s[p], s[e..q], q))
      case None =>
        if e > p + 2 && OptionLookahead(s, e - 1) then Some(OptionMatch(s[p], "", e - 1)) else None
    else None
  }

  /** The next match of `finditer` when the scan stands at `pos`. */
  function NextOptionMatch(s: string, pos: nat): (r: Option<OptionMatch>)
    requires pos <= |s|
    ensures r.Some? ==> pos + 2 <= r.value.end <= |s|
    ensures r.Some? ==> IsOptionLetter(r.value.letter) && NoOptionLetters(r.value.capture)
    decreases |s| - pos
  {
    if pos == |s| then None
    else match OptionMatchAt(s, pos)
      case Some(m) => Some(m)
      case None => NextOptionMatch(s, pos + 1)
  }

  /** Every match `finditer` yields from `pos` on, in order. */
  function OptionMatches(s: string, pos: nat): (r: seq<OptionMatch>)
    requires pos <= |s|
    ensures forall k :: 0 <= k < |r| ==> IsOptionLetter(r[k].letter) && NoOptionLetters(r[k].capture)
    decreases |s| - pos
  {
    match NextOptionMatch(s, pos)
    case None => []
    case Some(m) => [m] + OptionMatches(s, m.end)
  }

  /** `re.sub(r"\.$", "", t)`: drop a final `.` (or one before a final newline). */
  function DropFinalDot(t: string): (r: string)
  {
    if t != [] && t[|t| - 1] == '.' then t[..|t| - 1]
    else if |t| >= 2 && t[|t| - 2] == '.' && t[|t| - 1] == '\n' then t[..|t| - 2] + "\n"
    else t
  }

  /** The clean-up of a captured option text. */
  function CleanOption(capture: string): string {
    DropFinalDot(Collapse(Strip(capture)))
  }

  lemma DropFinalDotNoLetters(t: string)
    requires NoOptionLetters(t)
    ensures NoOptionLetters(DropFinalDot(t))
  {
    var r := DropFinalDot(t);
    forall i | 0 <= i < |r| ensures !IsOptionLetter(r[i]) {
      if i < |t| - 2 || r == t || (t != [] && t[|t| - 1] == '.') {
        assert r[i] == t[i];
      }
    }
  }

  /** A cleaned option never holds a letter A-D. */
  lemma CleanOptionNoLetters(capture: string)
    requires NoOptionLetters(capture)
    ensures NoOptionLetters(CleanOption(capture))
  {
    var p := (c: char) => !IsOptionLetter(c);
    StripKeeps(capture, p);
    var st := Strip(capture);
    assert NoOptionLetters(st);
    CollapseKeeps(st, p);
    var co := Collapse(st);
    assert NoOptionLetters(co);
    DropFinalDotNoLetters(co);
  }

  type Options = map<char, string>

  const EmptyOptions: Options := map['A' := "", 'B' := "", 'C' := "", 'D' := ""]

  /** One loop step: a non-empty cleaned capture overwrites its letter's slot. */
  function StoreOption(opts: Options, m: OptionMatch): Options {
    var t := CleanOption(m.capture);
    if m.letter in opts && t != "" then opts[m.letter := t] else opts
  }

  /** What the loop leaves after processing `ms` from `opts`. */
  function FillOptions(opts: Options, ms: seq<OptionMatch>): Options
    decreases |ms|
  {
    if ms == [] then opts else FillOptions(StoreOption(opts, ms[0]), ms[1..])
  }

  /** The last non-empty cleaned capture for `letter` among `ms`. */
  function LastCapture(ms: seq<OptionMatch>, letter: char): Option<string>
    decreases |ms|
  {
    if ms == [] then None
    else
      var later := LastCapture(ms[1..], letter);
      if later.Some? then later
      else
        var t := CleanOption(ms[0].capture);
        if ms[0].letter == letter && t != "" then Some(t) else None
  }

  /** The last non-empty capture for a letter wins; letters without one keep their value. */
  lemma {:induction false} FillOptionsLastWins(opts: Options, ms: seq<OptionMatch>, letter: char)
    requires letter in opts
    ensures FillOptions(opts, ms).Keys == opts.Keys
    ensures FillOptions(opts, ms)[letter] == LastCapture(ms, letter).GetOr(opts[letter])
    decreases |ms|
  {
    if ms != [] {
      FillOptionsLastWins(StoreOption(opts, ms[0]), ms[1..], letter);
    }
  }

  /** Slots only ever receive captures without the letters A-D. */
  lemma {:induction false} FillOptionsNoLetters(opts: Options, ms: seq<OptionMatch>)
    requires forall l :: l in opts ==> NoOptionLetters(opts[l])
    requires forall k :: 0 <= k < |ms| ==> NoOptionLetters(ms[k].capture)
    ensures forall l :: l in FillOptions(opts, ms) ==> NoOptionLetters(FillOptions(opts, ms)[l])
    decreases |ms|
  {
    if ms != [] {
      CleanOptionNoLetters(ms[0].capture);
      FillOptionsNoLetters(StoreOption(opts, ms[0]), ms[1..]);
    }
  }

  /** Filling from the match at `pos` stores that match and goes on from its end. */
  lemma FillOptionsStep(opts: Options, text: string, pos: nat)
    requires pos <= |text| && NextOptionMatch(text, pos).Some?
    ensures var m := NextOptionMatch(text, pos).value;
      m.end <= |text| &&
      FillOptions(opts, OptionMatches(text, pos)) == FillOptions(StoreOption(opts, m), OptionMatches(text, m.end))
  {
    var m := NextOptionMatch(text, pos).value;
    var ms := OptionMatches(text, pos);
    assert ms == [m] + OptionMatches(text, m.end);
    assert ms[1..] == OptionMatches(text, m.end);
  }

  /** `extract_options_from_text`: the `finditer` loop filling the four slots. */
  method ExtractOptionsFromText(text: string) returns (options: Options)
    ensures options == FillOptions(EmptyOptions, OptionMatches(text, 0))
    ensures options.Keys == {'A', 'B', 'C', 'D'}
    ensures forall l :: l in options ==> NoOptionLetters(options[l])
    ensures forall l :: l in options ==> options[l] == LastCapture(OptionMatches(text, 0), l).GetOr("")
  {
    options := EmptyOptions;
    var pos := 0;
    var next := NextOptionMatch(text, pos);
    while next.Some?
      invariant pos <= |text|
      invariant next == NextOptionMatch(text, pos)
      invariant FillOptions(options, OptionMatches(text, pos)) == FillOptions(EmptyOptions, OptionMatches(text, 0))
      decreases |text| - pos
    {
      var m := next.value;
      FillOptionsStep(options, text, pos);
      var optionText := CleanOption(m.capture);
      if m.letter in options && optionText != "" {
        options := options[m.letter := optionText];
      }
      pos := m.end;
      next := NextOptionMatch(text, pos);
    }
    FillEmptyLastWins(OptionMatches(text, 0));
    FillOptionsNoLetters(EmptyOptions, OptionMatches(text, 0));
  }

  /** Filling the four empty slots keeps exactly those slots, each holding its letter's last capture. */
  lemma FillEmptyLastWins(ms: seq<OptionMatch>)
    ensures FillOptions(EmptyOptions, ms).Keys == {'A', 'B', 'C', 'D'}
    ensures forall l :: l in FillOptions(EmptyOptions, ms) ==>
      FillOptions(EmptyOptions, ms)[l] == LastCapture(ms, l).GetOr("")
  {
    forall l | l in EmptyOptions
      ensures l in FillOptions(EmptyOptions, ms) && FillOptions(EmptyOptions, ms)[l] == LastCapture(ms, l).GetOr("")
    {
      FillOptionsLastWins(EmptyOptions, ms, l);
    }
    FillOptionsLastWins(EmptyOptions, ms, 'A');
  }

  /** `extract_answer_info`: the stripped solution, or `None` for an empty solution part. */
  function ExtractAnswerInfo(solutionText: string): (r: Option<string>)
    ensures r.None? <==> solutionText == ""
    ensures r.Some? ==> r.value == Strip(solutionText)
  {
    if solutionText == "" then None else Some(Strip(solutionText))
  }

  // ---------------------------------------------------------------------
  // Images
  // ---------------------------------------------------------------------

  const AdImagePatterns: seq<string> := ["banner", "ad", "sponsor", "promo"]

  /** `is_ad_image`. */
  predicate IsAdImage(src: string) {
    if src == "" then true
    else if Contains(src, "/qns/") then false
    else exists k :: 0 <= k < |AdImagePatterns| && Contains(Lower(src), AdImagePatterns[k])
  }

  /** The three rules of the ad filter for images. */
  lemma AdImageRules(src: string)
    ensures src == "" ==> IsAdImage(src)
    ensures src != "" && Contains(src, "/qns/") ==> !IsAdImage(src)
    ensures src != "" && !Contains(src, "/qns/") ==>
      (IsAdImage(src) <==> (|| Contains(Lower(src), "banner") || Contains(Lower(src), "ad")
                            || Contains(Lower(src), "sponsor") || Contains(Lower(src), "promo")))
  {
    if src != "" && !Contains(src, "/qns/") {
      if Contains(Lower(src), "banner") { assert Contains(Lower(src), AdImagePatterns[0]); }
      if Contains(Lower(src), "ad") { assert Contains(Lower(src), AdImagePatterns[1]); }
      if Contains(Lower(src), "sponsor") { assert Contains(Lower(src), AdImagePatterns[2]); }
      if Contains(Lower(src), "promo") { assert Contains(Lower(src), AdImagePatterns[3]); }
    }
  }

  /** `img_src and not is_ad_image(img_src)` (a missing `src` is the empty string). */
  predicate KeepImage(src: string) {
    src != "" && !IsAdImage(src)
  }

  /** The sources `extract_all_diagrams` keeps, in order. */
  function KeptImages(srcs: seq<string>): seq<string> {
    if srcs == [] then []
    else
      var last := srcs[|srcs| - 1];
      KeptImages(srcs[..|srcs| - 1]) + (if KeepImage(last) then [last] else [])
  }

  /** Each source keeps its multiplicity when it is not an ad, and is gone when it is. */
  lemma {:induction false} KeptImagesCount(srcs: seq<string>, x: string)
    ensures multiset(KeptImages(srcs))[x] == if IsAdImage(x) then 0 else multiset(srcs)[x]
  {
    if srcs != [] {
      var init := srcs[..|srcs| - 1];
      KeptImagesCount(init, x);
      assert srcs == init + [srcs[|srcs| - 1]];
    }
  }

  /** `extract_all_diagrams` over the `src` attributes of the container's images. */
  method ExtractAllDiagrams(srcs: seq<string>) returns (diagrams: seq<string>)
    ensures diagrams == KeptImages(srcs)
    ensures forall k :: 0 <= k < |diagrams| ==> !IsAdImage(diagrams[k])
  {
    diagrams := [];
    var i := 0;
    while i < |srcs|
      invariant 0 <= i <= |srcs|
      invariant diagrams == KeptImages(srcs[..i])
      invariant forall k :: 0 <= k < |diagrams| ==> !IsAdImage(diagrams[k])
    {
      var src := srcs[i];
      if src != "" && !IsAdImage(src) {
        diagrams := diagrams + [src];
      }
      assert srcs[..i + 1][..i] == srcs[..i];
      i := i + 1;
    }
    assert srcs[..|srcs|] == srcs;
  }
}
