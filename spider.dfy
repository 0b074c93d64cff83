/**
 * The question-level steps of the spider (main.py): one question div becomes
 * an objective or a theory record, and the divs under the two section
 * headings become the two ordered question lists.
 *
 * A div is given by the text nodes under it and the `src` of each image in
 * it; selecting the divs of a page is not part of this model.
 */
module Spider {
  import opened Wrappers
  import opened Text
  import opened Sorting
  import opened SpiderText
  import opened SpiderParts
  import opened SpiderSolutions

  /** A question div: its text nodes, and the `src` of each of its images ("" when missing). */
  datatype Block = Block(nodes: seq<string>, imageSrcs: seq<string>)

  /** The records the spider yields (`section`/`type` are implied by the variant). */
  datatype Question =
    | Objective(number: nat, question: string, options: Options, diagrams: seq<string>, solution: Option<string>)
    | Theory(number: nat, question: string, subparts: seq<Subpart>, diagrams: seq<string>)

  /** `any(options.values())`. */
  predicate AnyOption(options: Options) {
    exists l :: l in options && options[l] != ""
  }

  /** The four option slots after the `finditer` loop over `text`. */
  function OptionsOf(text: string): (r: Options)
    ensures r.Keys == {'A', 'B', 'C', 'D'}
    ensures forall l :: l in r ==> NoOptionLetters(r[l])
  {
    var ms := OptionMatches(text, 0);
    FillOptionsLastWins(EmptyOptions, ms, 'A');
    FillOptionsNoLetters(EmptyOptions, ms);
    FillOptions(EmptyOptions, ms)
  }

  // ---------------------------------------------------------------------
  // `parse_objective_question_improved`
  // ---------------------------------------------------------------------

  /**
   * The record for an objective question div, or `None`. The number is the
   * value of the first digit run followed by `.`; a record needs a non-empty
   * stem, a non-empty option and a number above 0.
   */
  function ObjectiveOf(block: Block): Option<Question>
  {
    var full := FullText(block.nodes);
    match SearchNumber(full)
    case None => None
    case Some(m) =>
      var (questionPart, solutionPart) := ObjectiveSplit(full);
      var stem := ExtractQuestionStem(questionPart, m.value);
      var options := OptionsOf(questionPart);
      if stem != "" && AnyOption(options) && m.value > 0 then
        Some(Objective(m.value, stem, options, KeptImages(block.imageSrcs), ExtractAnswerInfo(solutionPart)))
      else None
  }

  /**
   * No digit run followed by `.` gives no record; a record carries the value
   * of the first such run, which is above 0, a non-empty stem with single
   * blanks, at least one non-empty option, exactly the slots A-D with no
   * letter A-D in them, and only sources the image filter keeps.
   */
  lemma ObjectiveOfMeaning(block: Block)
    ensures var full := FullText(block.nodes);
      (forall k :: !DotAfterDigit(full, k)) ==> ObjectiveOf(block).None?
    ensures var r := ObjectiveOf(block); r.Some? ==>
      var full := FullText(block.nodes);
      && r.value.Objective?
      && SearchNumber(full).Some?
      && r.value.number == SearchNumber(full).value.value > 0
      && r.value.question != ""
      && NoDoubleSpace(r.value.question) && !IsSpace(r.value.question[0])
      && AnyOption(r.value.options)
      && r.value.options.Keys == {'A', 'B', 'C', 'D'}
      && (forall l :: l in r.value.options ==> NoOptionLetters(r.value.options[l]))
      && (forall k :: 0 <= k < |r.value.diagrams| ==> KeepImage(r.value.diagrams[k]))
  {
    KeptImagesKept(block.imageSrcs);
  }

  /** Every kept source passes the image filter. */
  lemma {:induction false} KeptImagesKept(srcs: seq<string>)
    ensures forall k :: 0 <= k < |KeptImages(srcs)| ==> KeepImage(KeptImages(srcs)[k])
  {
    if srcs != [] {
      KeptImagesKept(srcs[..|srcs| - 1]);
    }
  }

  /** The filter read from the front, as `extract_diagram` scans. */
  lemma {:induction false} KeptImagesCons(srcs: seq<string>)
    requires srcs != []
    ensures KeptImages(srcs) == (if KeepImage(srcs[0]) then [srcs[0]] else []) + KeptImages(srcs[1..])
    decreases |srcs|
  {
    if |srcs| > 1 {
      var init := srcs[..|srcs| - 1];
      KeptImagesCons(init);
      assert init[1..] == srcs[1..][..|srcs| - 2];
    } else {
      assert srcs[1..] == [];
    }
  }

  /** `parse_objective_question_improved` over one div. */
  method ParseObjectiveQuestion(block: Block) returns (r: Option<Question>)
    ensures r == ObjectiveOf(block)
  {
    var fullText := FullText(block.nodes);
    var numMatch := SearchNumber(fullText);
    if numMatch.None? {
      return None;
    }
    var questionNum := numMatch.value.value;
    var (questionPart, solutionPart) := ObjectiveSplit(fullText);
    var questionText := ExtractQuestionStem(questionPart, questionNum);
    var options := ExtractOptionsFromText(questionPart);
    var answerInfo := ExtractAnswerInfo(solutionPart);
    var diagrams := ExtractAllDiagrams(block.imageSrcs);
    if questionText != "" && AnyOption(options) && questionNum > 0 {
      r := Some(Objective(questionNum, questionText, options, diagrams, answerInfo));
    } else {
      r := None;
    }
  }

  // ---------------------------------------------------------------------
  // `parse_theory_question_improved`
  // ---------------------------------------------------------------------

  /**
   * The record for a theory question div, or `None`: the structure of the
   * text in front of `Show Solution`, with the solution spans attached.
   * Unlike objective questions, number 0 is accepted.
   */
  function TheoryOf(block: Block): Option<Question>
  {
    var full := FullText(block.nodes);
    match SearchNumber(full)
    case None => None
    case Some(m) => TheoryFrom(m.value, TheorySplit(full), KeptImages(block.imageSrcs))
  }

  /** The theory record for number `n`, the (question, solution) parts and the kept images. */
  function TheoryFrom(n: nat, parts: (string, string), diagrams: seq<string>): Option<Question> {
    var (mainQuestion, subparts) := StructureOf(RemoveNumberPrefix(parts.0, n));
    var subparts' := if parts.1 != "" then Integrated(subparts, parts.1) else subparts;
    if mainQuestion != "" || subparts' != [] then Some(Theory(n, mainQuestion, subparts', diagrams)) else None
  }

  /**
   * A theory record carries the number, the main question and the parts of
   * the question part's structure (each part keeping its label, question and
   * sub-parts, solutions aside), is not empty, and keeps the images.
   */
  lemma TheoryFromMeaning(n: nat, parts: (string, string), diagrams: seq<string>)
    ensures var r := TheoryFrom(n, parts, diagrams); r.Some? ==>
      var structure := StructureOf(RemoveNumberPrefix(parts.0, n));
      && r.value == Theory(n, structure.0, r.value.subparts, diagrams)
      && (r.value.question != "" || r.value.subparts != [])
      && SameQuestions(r.value.subparts, structure.1)
    ensures var structure := StructureOf(RemoveNumberPrefix(parts.0, n));
      TheoryFrom(n, parts, diagrams).None? <==> structure.0 == "" && structure.1 == []
  {
    var structure := StructureOf(RemoveNumberPrefix(parts.0, n));
    if parts.1 != "" {
      IntegratedKeeps(structure.1, parts.1);
    }
  }

  /**
   * No digit run followed by `.` gives no record; a record carries the value
   * of the first such run and otherwise is what `TheoryFrom` gives for the
   * split text, with only sources the image filter keeps.
   */
  lemma TheoryOfMeaning(block: Block)
    ensures var full := FullText(block.nodes);
      (forall k :: !DotAfterDigit(full, k)) ==> TheoryOf(block).None?
    ensures var r := TheoryOf(block); r.Some? ==>
      var full := FullText(block.nodes);
      && SearchNumber(full).Some?
      && r == TheoryFrom(SearchNumber(full).value.value, TheorySplit(full), r.value.diagrams)
      && r.value.Theory?
      && r.value.number == SearchNumber(full).value.value
      && (forall k :: 0 <= k < |r.value.diagrams| ==> KeepImage(r.value.diagrams[k]))
  {
    var full := FullText(block.nodes);
    KeptImagesKept(block.imageSrcs);
    if SearchNumber(full).Some? {
      TheoryFromMeaning(SearchNumber(full).value.value, TheorySplit(full), KeptImages(block.imageSrcs));
    }
  }

  /** `parse_theory_question_improved` over one div. */
  method ParseTheoryQuestion(block: Block) returns (r: Option<Question>)
    ensures r == TheoryOf(block)
  {
    var fullText := FullText(block.nodes);
    var numMatch := SearchNumber(fullText);
    if numMatch.None? {
      return None;
    }
    var questionNum := numMatch.value.value;
    var (questionPart, solutionPart) := TheorySplit(fullText);
    var diagrams := ExtractAllDiagrams(block.imageSrcs);
    r := AssembleTheory(questionNum, questionPart, solutionPart, diagrams);
  }

  /** `TheoryFrom` in terms of the structure of the question part. */
  lemma TheoryFromStructure(n: nat, parts: (string, string), diagrams: seq<string>, structure: (string, seq<Subpart>))
    requires structure == StructureOf(RemoveNumberPrefix(parts.0, n))
    ensures var subparts := if parts.1 != "" then Integrated(structure.1, parts.1) else structure.1;
      TheoryFrom(n, parts, diagrams) ==
        if structure.0 != "" || subparts != [] then Some(Theory(n, structure.0, subparts, diagrams)) else None
  {
  }

  /** The part of `parse_theory_question_improved` after the number and the split are known. */
  method AssembleTheory(questionNum: nat, questionPart: string, solutionPart: string, diagrams: seq<string>)
    returns (r: Option<Question>)
    ensures r == TheoryFrom(questionNum, (questionPart, solutionPart), diagrams)
  {
    var mainQuestion, subparts := ParseTheoryStructure(questionPart, questionNum);
    ghost var structure := (mainQuestion, subparts);
    if solutionPart != "" {
      subparts := IntegrateTheorySolutions(subparts, solutionPart);
    }
    TheoryFromStructure(questionNum, (questionPart, solutionPart), diagrams, structure);
    if mainQuestion != "" || subparts != [] {
      r := Some(Theory(questionNum, mainQuestion, subparts, diagrams));
    } else {
      r := None;
    }
  }

  // ---------------------------------------------------------------------
  // `extract_objective_questions` and `extract_theory_questions`
  // ---------------------------------------------------------------------

  /** The sort key `x.get("number", 0)`: every record has a number. */
  predicate ByNumber(a: Question, b: Question) {
    a.number <= b.number
  }

  lemma ByNumberTotal()
    ensures TotalPreorder(ByNumber)
  {
  }

  /** What `f` keeps of the elements in front of the first one `stop` holds for, in order. */
  function CollectUntil<T, U>(s: seq<T>, stop: T -> bool, f: T -> Option<U>): seq<U>
    decreases |s|
  {
    if s == [] || stop(s[0]) then []
    else (if f(s[0]).Some? then [f(s[0]).value] else []) + CollectUntil(s[1..], stop, f)
  }

  /** One step of a loop that collects the scan into `acc`. */
  lemma CollectUntilStep<T, U>(s: seq<T>, stop: T -> bool, f: T -> Option<U>, i: nat, acc: seq<U>, x: Option<U>)
    requires i < |s| && !stop(s[i]) && x == f(s[i])
    requires acc + CollectUntil(s[i..], stop, f) == CollectUntil(s, stop, f)
    ensures (if x.Some? then acc + [x.value] else acc) + CollectUntil(s[i + 1..], stop, f) == CollectUntil(s, stop, f)
  {
    assert s[i..][1..] == s[i + 1..];
    if x.Some? {
      assert acc + ([x.value] + CollectUntil(s[i + 1..], stop, f)) == (acc + [x.value]) + CollectUntil(s[i + 1..], stop, f);
    } else {
      assert [] + CollectUntil(s[i + 1..], stop, f) == CollectUntil(s[i + 1..], stop, f);
    }
  }

  /** The scan from an element `stop` holds for collects nothing. */
  lemma CollectUntilStopsAt<T, U>(s: seq<T>, stop: T -> bool, f: T -> Option<U>, i: nat)
    requires i < |s| && stop(s[i])
    ensures CollectUntil(s[i..], stop, f) == []
  {
    assert s[i..][0] == s[i];
  }

  /** Nothing at or after an element `stop` holds for is collected. */
  lemma {:induction false} CollectUntilStops<T, U>(s: seq<T>, stop: T -> bool, f: T -> Option<U>, k: nat)
    requires k < |s| && stop(s[k])
    ensures CollectUntil(s, stop, f) == CollectUntil(s[..k], stop, f)
    decreases k
  {
    if k > 0 && !stop(s[0]) {
      CollectUntilStops(s[1..], stop, f, k - 1);
      assert s[..k][1..] == s[1..][..k - 1];
    }
  }

  /** An element `f` drops and `stop` passes may as well be absent. */
  lemma {:induction false} CollectUntilSkips<T, U>(s: seq<T>, stop: T -> bool, f: T -> Option<U>, k: nat)
    requires k < |s| && !stop(s[k]) && f(s[k]).None?
    ensures CollectUntil(s, stop, f) == CollectUntil(s[..k] + s[k + 1..], stop, f)
    decreases k
  {
    var rest := s[..k] + s[k + 1..];
    if k == 0 {
      assert rest == s[1..];
    } else if !stop(s[0]) {
      CollectUntilSkips(s[1..], stop, f, k - 1);
      assert rest[0] == s[0];
      assert rest[1..] == s[1..][..k - 1] + s[1..][k..];
    } else {
      assert rest[0] == s[0];
    }
  }

  const TheoryMarker := "THEORY QUESTIONS"

  /** The div mentions the theory section. */
  predicate MentionsTheory(block: Block) {
    Contains(FullText(block.nodes), TheoryMarker)
  }

  predicate Never(block: Block) {
    false
  }

  /** The objective record of a div that is not an advertisement. */
  function ObjectiveCandidate(block: Block): Option<Question> {
    if IsAdvertisement(FullText(block.nodes)) then None else ObjectiveOf(block)
  }

  /** The theory record of a div that is not an advertisement. */
  function TheoryCandidate(block: Block): Option<Question> {
    if IsAdvertisement(FullText(block.nodes)) then None else TheoryOf(block)
  }

  /** The objective records of the divs in front of the first one mentioning the theory section, ads skipped. */
  function ObjectiveScan(blocks: seq<Block>): seq<Question> {
    CollectUntil(blocks, MentionsTheory, ObjectiveCandidate)
  }

  /** Scanning stops at the first div mentioning the theory section. */
  lemma ObjectiveScanStops(blocks: seq<Block>, k: nat)
    requires k < |blocks| && MentionsTheory(blocks[k])
    ensures ObjectiveScan(blocks) == ObjectiveScan(blocks[..k])
  {
    CollectUntilStops(blocks, MentionsTheory, ObjectiveCandidate, k);
  }

  /** An advertisement div that does not mention the theory section contributes nothing. */
  lemma ObjectiveScanSkipsAd(blocks: seq<Block>, k: nat)
    requires k < |blocks| && IsAdvertisement(FullText(blocks[k].nodes)) && !MentionsTheory(blocks[k])
    ensures ObjectiveScan(blocks) == ObjectiveScan(blocks[..k] + blocks[k + 1..])
  {
    CollectUntilSkips(blocks, MentionsTheory, ObjectiveCandidate, k);
  }

  /** `extract_objective_questions` over the divs of the objective container. */
  method ExtractObjectiveQuestions(blocks: seq<Block>) returns (questions: seq<Question>)
    ensures questions == Sort(ObjectiveScan(blocks), ByNumber)
    ensures Sorted(questions, ByNumber)
    ensures multiset(questions) == multiset(ObjectiveScan(blocks))
  {
    var objectiveQuestions := CollectObjectiveQuestions(blocks);
    ByNumberTotal();
    SortSorted(objectiveQuestions, ByNumber);
    questions := Sort(objectiveQuestions, ByNumber);
  }

  /** The parsing loop of `extract_objective_questions`. */
  method CollectObjectiveQuestions(blocks: seq<Block>) returns (objectiveQuestions: seq<Question>)
    ensures objectiveQuestions == ObjectiveScan(blocks)
  {
    objectiveQuestions := [];
    var i := 0;
    ObjectiveScanFrom(blocks);
    while i < |blocks|
      invariant 0 <= i <= |blocks|
      invariant objectiveQuestions + ObjectiveScan(blocks[i..]) == ObjectiveScan(blocks)
    {
      if MentionsTheory(blocks[i]) {
        ObjectiveScanStopsAt(blocks, i);
        break;
      }
      var questionData := VisitObjectiveDiv(blocks[i]);
      ObjectiveScanStep(blocks, i, objectiveQuestions, questionData);
      if questionData.Some? {
        objectiveQuestions := objectiveQuestions + [questionData.value];
      }
      i := i + 1;
    }
    if i == |blocks| {
      ObjectiveScanStopsAt(blocks, i);
    }
  }

  lemma ObjectiveScanFrom(blocks: seq<Block>)
    ensures [] + ObjectiveScan(blocks[0..]) == ObjectiveScan(blocks)
  {
    assert blocks[0..] == blocks;
  }

  /** The scan is empty from the end of the divs or from a div mentioning the theory section. */
  lemma ObjectiveScanStopsAt(blocks: seq<Block>, i: nat)
    requires i <= |blocks| && (i < |blocks| ==> MentionsTheory(blocks[i]))
    ensures ObjectiveScan(blocks[i..]) == []
  {
    if i < |blocks| {
      CollectUntilStopsAt(blocks, MentionsTheory, ObjectiveCandidate, i);
    }
  }

  /** One pass of the objective loop over a div that does not mention the theory section. */
  lemma ObjectiveScanStep(blocks: seq<Block>, i: nat, acc: seq<Question>, x: Option<Question>)
    requires i < |blocks| && !MentionsTheory(blocks[i]) && x == ObjectiveCandidate(blocks[i])
    requires acc + ObjectiveScan(blocks[i..]) == ObjectiveScan(blocks)
    ensures (if x.Some? then acc + [x.value] else acc) + ObjectiveScan(blocks[i + 1..]) == ObjectiveScan(blocks)
  {
    CollectUntilStep(blocks, MentionsTheory, ObjectiveCandidate, i, acc, x);
  }

  /** One pass of the objective loop after the theory check: skip an advertisement, otherwise parse. */
  method VisitObjectiveDiv(block: Block) returns (questionData: Option<Question>)
    ensures questionData == ObjectiveCandidate(block)
  {
    if IsAdvertisement(FullText(block.nodes)) {
      return None;
    }
    questionData := ParseObjectiveQuestion(block);
  }

  /** The theory records of the divs, ads skipped, in div order. */
  function TheoryScan(blocks: seq<Block>): seq<Question> {
    CollectUntil(blocks, Never, TheoryCandidate)
  }

  /** The `seen_numbers` loop: keep a record only when its number is new. */
  function Dedup(s: seq<Question>, seen: set<nat>): seq<Question>
    decreases |s|
  {
    if s == [] then []
    else if s[0].number in seen then Dedup(s[1..], seen)
    else [s[0]] + Dedup(s[1..], seen + {s[0].number})
  }

  predicate StrictlyIncreasing(s: seq<Question>) {
    forall i, j :: 0 <= i < j < |s| ==> s[i].number < s[j].number
  }

  /** No record before index `k` has the number of `s[k]`. */
  predicate FirstOfNumber(s: seq<Question>, k: nat)
    requires k < |s|
  {
    forall j :: 0 <= j < k ==> s[j].number != s[k].number
  }

  /** `q` is the first record of `s` with its number. */
  predicate IsFirstOfNumber(s: seq<Question>, q: Question) {
    exists k :: 0 <= k < |s| && s[k] == q && FirstOfNumber(s, k)
  }

  lemma {:induction false} DedupFrom(s: seq<Question>, seen: set<nat>)
    ensures forall q :: q in Dedup(s, seen) ==> q in s && q.number !in seen
    decreases |s|
  {
    if s != [] {
      if s[0].number in seen {
        DedupFrom(s[1..], seen);
      } else {
        DedupFrom(s[1..], seen + {s[0].number});
      }
    }
  }

  lemma SortedTail(s: seq<Question>)
    requires s != [] && Sorted(s, ByNumber)
    ensures Sorted(s[1..], ByNumber)
  {
    forall i, j | 0 <= i < j < |s[1..]| ensures ByNumber(s[1..][i], s[1..][j]) {
      assert s[1..][i] == s[i + 1] && s[1..][j] == s[j + 1];
    }
  }

  lemma IncreasingCons(q: Question, rest: seq<Question>)
    requires StrictlyIncreasing(rest)
    requires forall j :: 0 <= j < |rest| ==> q.number < rest[j].number
    ensures StrictlyIncreasing([q] + rest)
  {
    var r := [q] + rest;
    forall i, j | 0 <= i < j < |r| ensures r[i].number < r[j].number {
      assert r[j] == rest[j - 1];
      if i > 0 {
        assert r[i] == rest[i - 1];
      }
    }
  }

  lemma {:induction false} DedupIncreasing(s: seq<Question>, seen: set<nat>)
    requires Sorted(s, ByNumber)
    ensures StrictlyIncreasing(Dedup(s, seen))
    decreases |s|
  {
    if s != [] {
      SortedTail(s);
      if s[0].number in seen {
        DedupIncreasing(s[1..], seen);
      } else {
        var seen' := seen + {s[0].number};
        var rest := Dedup(s[1..], seen');
        DedupIncreasing(s[1..], seen');
        DedupFrom(s[1..], seen');
        forall j | 0 <= j < |rest| ensures s[0].number < rest[j].number {
          assert rest[j] in s[1..];
          var i :| 0 <= i < |s[1..]| && s[1..][i] == rest[j];
          assert ByNumber(s[0], s[i + 1]);
        }
        IncreasingCons(s[0], rest);
      }
    }
  }

  /** The first record with a number not yet seen is kept. */
  lemma {:induction false} DedupKeepsFirst(s: seq<Question>, seen: set<nat>, k: nat)
    requires k < |s| && FirstOfNumber(s, k) && s[k].number !in seen
    ensures s[k] in Dedup(s, seen)
    decreases k
  {
    if k > 0 {
      var seen' := if s[0].number in seen then seen else seen + {s[0].number};
      assert s[0].number != s[k].number;
      assert s[1..][k - 1] == s[k];
      assert FirstOfNumber(s[1..], k - 1) by {
        forall j | 0 <= j < k - 1 ensures s[1..][j].number != s[k].number {
          assert s[1..][j] == s[j + 1];
        }
      }
      DedupKeepsFirst(s[1..], seen', k - 1);
    }
  }

  /** `Ties` under `ByNumber` collects the records with the same number. */
  lemma {:induction false} TiesByNumber(s: seq<Question>, y: Question)
    ensures forall q :: q in Ties(s, ByNumber, y) ==> q in s && q.number == y.number
    ensures Ties(s, ByNumber, y) == [] <==> forall j :: 0 <= j < |s| ==> s[j].number != y.number
    decreases |s|
  {
    if s != [] {
      var init := s[..|s| - 1];
      TiesByNumber(init, y);
      if Ties(s, ByNumber, y) == [] {
        forall j | 0 <= j < |s| ensures s[j].number != y.number {
          if j < |s| - 1 {
            assert s[j] == init[j];
          }
        }
      }
    }
  }

  /** The first record with a number heads the ties of that number. */
  lemma {:induction false} TiesFirst(s: seq<Question>, k: nat)
    requires k < |s| && FirstOfNumber(s, k)
    ensures Ties(s, ByNumber, s[k]) != [] && Ties(s, ByNumber, s[k])[0] == s[k]
    decreases |s|
  {
    var init := s[..|s| - 1];
    if k < |s| - 1 {
      assert init[k] == s[k];
      TiesFirst(init, k);
    } else {
      TiesByNumber(init, s[k]);
    }
  }

  /** The head of the ties of a number is the first record with that number. */
  lemma {:induction false} TiesHead(s: seq<Question>, y: Question)
    requires Ties(s, ByNumber, y) != []
    ensures IsFirstOfNumber(s, Ties(s, ByNumber, y)[0])
    ensures Ties(s, ByNumber, y)[0].number == y.number
    decreases |s|
  {
    var init := s[..|s| - 1];
    var last := s[|s| - 1];
    TiesByNumber(s, y);
    assert Ties(s, ByNumber, y)[0] in Ties(s, ByNumber, y);
    if Ties(init, ByNumber, y) != [] {
      TiesHead(init, y);
      var k :| 0 <= k < |init| && init[k] == Ties(init, ByNumber, y)[0] && FirstOfNumber(init, k);
      assert Ties(s, ByNumber, y) == Ties(init, ByNumber, y) + (if ByNumber(last, y) && ByNumber(y, last) then [last] else []);
      assert s[k] == Ties(s, ByNumber, y)[0];
      assert FirstOfNumber(s, k) by {
        forall j | 0 <= j < k ensures s[j].number != s[k].number {
          assert s[j] == init[j];
        }
      }
    } else {
      TiesByNumber(init, y);
      var k := |s| - 1;
      assert Ties(s, ByNumber, y) == [last];
      assert FirstOfNumber(s, k) by {
        forall j | 0 <= j < k ensures s[j].number != s[k].number {
          assert s[j] == init[j];
        }
      }
      assert s[k] == Ties(s, ByNumber, y)[0];
    }
  }

  /** A record of `s` is among the ties of its own number. */
  lemma {:induction false} TiesSelf(s: seq<Question>, q: Question)
    requires q in s
    ensures Ties(s, ByNumber, q) != []
    decreases |s|
  {
    var init := s[..|s| - 1];
    if s[|s| - 1] != q {
      assert q in init;
      TiesSelf(init, q);
    }
  }

  /** A record kept after sorting and deduplicating is the first of its number in input order. */
  lemma KeptIsFirst(scan: seq<Question>, q: Question)
    requires q in Dedup(Sort(scan, ByNumber), {})
    ensures IsFirstOfNumber(scan, q)
  {
    var sorted := Sort(scan, ByNumber);
    ByNumberTotal();
    SortSorted(scan, ByNumber);
    KeptHeadsTies(sorted, q);
    SortStable(scan, ByNumber, q);
    TiesHead(scan, q);
  }

  /** In a sorted list, a record that deduplication keeps heads the ties of its number. */
  lemma KeptHeadsTies(sorted: seq<Question>, q: Question)
    requires Sorted(sorted, ByNumber) && q in Dedup(sorted, {})
    ensures Ties(sorted, ByNumber, q) != [] && Ties(sorted, ByNumber, q)[0] == q
  {
    var unique := Dedup(sorted, {});
    DedupFrom(sorted, {});
    TiesSelf(sorted, q);
    TiesHead(sorted, q);
    var head := Ties(sorted, ByNumber, q)[0];
    var k :| 0 <= k < |sorted| && sorted[k] == head && FirstOfNumber(sorted, k);
    DedupKeepsFirst(sorted, {}, k);
    var i :| 0 <= i < |unique| && unique[i] == q;
    var j :| 0 <= j < |unique| && unique[j] == head;
    DedupIncreasing(sorted, {});
    assert i == j;
  }

  /** The first record of each number in input order is kept. */
  lemma FirstIsKept(scan: seq<Question>, k: nat)
    requires k < |scan| && FirstOfNumber(scan, k)
    ensures scan[k] in Dedup(Sort(scan, ByNumber), {})
  {
    var sorted := Sort(scan, ByNumber);
    ByNumberTotal();
    TiesFirst(scan, k);
    SortStable(scan, ByNumber, scan[k]);
    TiesHead(sorted, scan[k]);
    var k' :| 0 <= k' < |sorted| && sorted[k'] == Ties(sorted, ByNumber, scan[k])[0] && FirstOfNumber(sorted, k');
    DedupKeepsFirst(sorted, {}, k');
  }

  /**
   * Sorting and then keeping the first record of each number yields strictly
   * increasing numbers, and the record kept for a number is the first one
   * with that number in input order (the sort is stable).
   */
  lemma TheoryOrder(scan: seq<Question>)
    ensures StrictlyIncreasing(Dedup(Sort(scan, ByNumber), {}))
    ensures forall q :: q in Dedup(Sort(scan, ByNumber), {}) ==> IsFirstOfNumber(scan, q)
    ensures forall k :: 0 <= k < |scan| && FirstOfNumber(scan, k) ==> scan[k] in Dedup(Sort(scan, ByNumber), {})
  {
    var sorted := Sort(scan, ByNumber);
    ByNumberTotal();
    SortSorted(scan, ByNumber);
    DedupIncreasing(sorted, {});
    forall q | q in Dedup(sorted, {}) ensures IsFirstOfNumber(scan, q) {
      KeptIsFirst(scan, q);
    }
    forall k | 0 <= k < |scan| && FirstOfNumber(scan, k) ensures scan[k] in Dedup(sorted, {}) {
      FirstIsKept(scan, k);
    }
  }

  /** `extract_theory_questions` over the divs of the theory container. */
  method ExtractTheoryQuestions(blocks: seq<Block>) returns (uniqueQuestions: seq<Question>)
    ensures uniqueQuestions == Dedup(Sort(TheoryScan(blocks), ByNumber), {})
    ensures StrictlyIncreasing(uniqueQuestions)
    ensures forall q :: q in uniqueQuestions ==> IsFirstOfNumber(TheoryScan(blocks), q)
    ensures forall k :: 0 <= k < |TheoryScan(blocks)| && FirstOfNumber(TheoryScan(blocks), k) ==>
      TheoryScan(blocks)[k] in uniqueQuestions
  {
    var theoryQuestions := CollectTheoryQuestions(blocks);
    var sorted := Sort(theoryQuestions, ByNumber);
    uniqueQuestions := KeepFirstOfEachNumber(sorted);
    TheoryOrder(theoryQuestions);
  }

  /** The parsing loop of `extract_theory_questions`. */
  method CollectTheoryQuestions(blocks: seq<Block>) returns (theoryQuestions: seq<Question>)
    ensures theoryQuestions == TheoryScan(blocks)
  {
    theoryQuestions := [];
    var i := 0;
    while i < |blocks|
      invariant 0 <= i <= |blocks|
      invariant theoryQuestions + CollectUntil(blocks[i..], Never, TheoryCandidate) == TheoryScan(blocks)
    {
      var questionData := VisitTheoryDiv(blocks[i]);
      CollectUntilStep(blocks, Never, TheoryCandidate, i, theoryQuestions, questionData);
      if questionData.Some? {
        theoryQuestions := theoryQuestions + [questionData.value];
      }
      i := i + 1;
    }
  }

  /** One pass of the theory loop: skip an advertisement, otherwise parse. */
  method VisitTheoryDiv(block: Block) returns (questionData: Option<Question>)
    ensures questionData == TheoryCandidate(block)
  {
    if IsAdvertisement(FullText(block.nodes)) {
      return None;
    }
    questionData := ParseTheoryQuestion(block);
  }

  /** The `seen_numbers` loop of `extract_theory_questions`. */
  method KeepFirstOfEachNumber(sorted: seq<Question>) returns (uniqueQuestions: seq<Question>)
    ensures uniqueQuestions == Dedup(sorted, {})
  {
    var seenNumbers: set<nat> := {};
    uniqueQuestions := [];
    var j := 0;
    while j < |sorted|
      invariant 0 <= j <= |sorted|
      invariant uniqueQuestions + Dedup(sorted[j..], seenNumbers) == Dedup(sorted, {})
    {
      assert sorted[j..][1..] == sorted[j + 1..];
      var question := sorted[j];
      if question.number !in seenNumbers {
        seenNumbers := seenNumbers + {question.number};
        uniqueQuestions := uniqueQuestions + [question];
      }
      j := j + 1;
    }
  }

  /** `parse`: the objective list, then the theory list. */
  method ParsePage(objectiveBlocks: seq<Block>, theoryBlocks: seq<Block>) returns (all: seq<Question>)
    ensures all == Sort(ObjectiveScan(objectiveBlocks), ByNumber) + Dedup(Sort(TheoryScan(theoryBlocks), ByNumber), {})
  {
    var objectiveQuestions := ExtractObjectiveQuestions(objectiveBlocks);
    var theoryQuestions := ExtractTheoryQuestions(theoryBlocks);
    all := objectiveQuestions + theoryQuestions;
  }

  /** `extract_diagram`: the first source the image filter keeps. */
  function ExtractDiagram(srcs: seq<string>): (r: Option<string>)
    ensures r.None? <==> KeptImages(srcs) == []
    ensures r.Some? ==> r.value == KeptImages(srcs)[0]
  {
    if srcs == [] then None
    else
      KeptImagesCons(srcs);
      if KeepImage(srcs[0]) then Some(srcs[0])
      else ExtractDiagram(srcs[1..])
  }
}
