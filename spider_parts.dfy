/**
 * Theory-question structure (main.py): splitting on the `(a)`-`(d)` part
 * markers and on the `(i)`/letter sub-part markers, the HTML-div state
 * machine, and attaching the solution text to each part.
 */
module SpiderParts {
  import opened Wrappers
  import opened Text
  import opened SpiderText

  /** Which label group a marker pattern `\s*\((...)\)\s*` captures. */
  datatype LabelKind =
    | PartLetter     // ([a-d])
    | RomanOrLetter  // ([ivx]+|[a-z])
    | Roman          // ([ivx]+)

  predicate IsRomanChar(c: char) {
    c == 'i' || c == 'v' || c == 'x'
  }

  /** Only the letters `i`, `v` and `x`. */
  predicate AllRoman(tag: string) {
    tag == [] || (IsRomanChar(tag[0]) && AllRoman(tag[1..]))
  }

  predicate ValidLabel(tag: string, kind: LabelKind) {
    match kind
    case PartLetter => |tag| == 1 && 'a' <= tag[0] <= 'd'
    case Roman => tag != [] && AllRoman(tag)
    case RomanOrLetter => (tag != [] && AllRoman(tag)) || (|tag| == 1 && 'a' <= tag[0] <= 'z')
  }

  /** End of the maximal run of `i`, `v`, `x` from `i` (the greedy `[ivx]+`). */
  function RomanRunEnd(s: string, i: nat): (r: nat)
    requires i <= |s|
    ensures i <= r <= |s|
    ensures AllRoman(s[i..r])
    ensures r > i ==> IsRomanChar(s[i])
    ensures r == |s| || !IsRomanChar(s[r])
    decreases |s| - i
  {
    if i < |s| && IsRomanChar(s[i]) then
      var r := RomanRunEnd(s, i + 1);
      assert s[i..r][1..] == s[i + 1..r];
      r
    else i
  }

  /**
   * Index of the `)` that closes a tag starting at `i`. A shorter roman
   * run never helps, since the character after it is a roman letter and not
   * `)`; the single-letter alternative is tried after the roman one.
   */
  function LabelEnd(s: string, i: nat, kind: LabelKind): (r: Option<nat>)
    requires i <= |s|
    ensures r.Some? ==> i < r.value < |s| && s[r.value] == ')' && ValidLabel(s[i..r.value], kind)
  {
    var run := RomanRunEnd(s, i);
    var roman := run > i && run < |s| && s[run] == ')';
    var single := i + 1 < |s| && s[i + 1] == ')';
    match kind
    case PartLetter => if single && 'a' <= s[i] <= 'd' then Some(i + 1) else None
    case Roman => if roman then Some(run) else None
    case RomanOrLetter =>
      if roman then Some(run) else if single && 'a' <= s[i] <= 'z' then Some(i + 1) else None
  }

  /** One match of `\s*\((tag)\)\s*`: where it starts and ends in the text. */
  datatype Marker = Marker(start: nat, tag: string, end: nat)

  /** The match that starts at `p`, if any (a shorter `\s*` cannot reach a `(`). */
  function MarkerAt(s: string, p: nat, kind: LabelKind): (r: Option<Marker>)
    requires p <= |s|
    ensures r.Some? ==> r.value.start == p < r.value.end <= |s| && ValidLabel(r.value.tag, kind)
  {
    var e := SpaceEnd(s, p);
    if e < |s| && s[e] == '(' then
      match LabelEnd(s, e + 1, kind)
      case Some(c) => Some(Marker(p, s[e + 1..c], SpaceEnd(s, c + 1)))
      case None => None
    else None
  }

  /** The leftmost match at or after `pos`. */
  function NextMarker(s: string, pos: nat, kind: LabelKind): (r: Option<Marker>)
    requires pos <= |s|
    ensures r.Some? ==> pos <= r.value.start < r.value.end <= |s| && ValidLabel(r.value.tag, kind)
    ensures r.Some? ==> MarkerAt(s, r.value.start, kind) == r
    ensures r.Some? ==> forall k :: pos <= k < r.value.start ==> MarkerAt(s, k, kind).None?
    ensures r.None? ==> forall k :: pos <= k <= |s| ==> MarkerAt(s, k, kind).None?
    decreases |s| - pos
  {
    match MarkerAt(s, pos, kind)
    case Some(m) => Some(m)
    case None => if pos == |s| then None else NextMarker(s, pos + 1, kind)
  }

  /** A match and the text piece that follows it, up to the next match or the end. */
  datatype Piece = Piece(marker: Marker, text: string)

  /**
   * `re.split(r"\s*\((label)\)\s*", s)` read from `pos`: the text before the
   * first match, then each match with the text after it. Python's flat
   * list `[head, label, text, label, text, ...]` is `SplitList`.
   */
  datatype Split = Split(head: string, pieces: seq<Piece>)

  function SplitAt(s: string, pos: nat, kind: LabelKind): (r: Split)
    requires pos <= |s|
    ensures forall k :: 0 <= k < |r.pieces| ==>
      pos <= r.pieces[k].marker.start < r.pieces[k].marker.end <= |s| && ValidLabel(r.pieces[k].marker.tag, kind)
    ensures r.pieces == [] <==> NextMarker(s, pos, kind).None?
    decreases |s| - pos
  {
    match NextMarker(s, pos, kind)
    case None => Split(s[pos..], [])
    case Some(m) =>
      var rest := SplitAt(s, m.end, kind);
      Split(s[pos..m.start], [Piece(m, rest.head)] + rest.pieces)
  }

  /**
   * The head is all of the text when there is no match, and otherwise the
   * text up to the leftmost match, which is the first piece's marker.
   */
  lemma SplitAtHead(s: string, pos: nat, kind: LabelKind)
    requires pos <= |s|
    ensures SplitAt(s, pos, kind).pieces == [] ==> SplitAt(s, pos, kind).head == s[pos..]
    ensures SplitAt(s, pos, kind).pieces != [] ==>
      NextMarker(s, pos, kind) == Some(SplitAt(s, pos, kind).pieces[0].marker)
    ensures SplitAt(s, pos, kind).pieces != [] ==>
      SplitAt(s, pos, kind).head <= s[pos..] && pos + |SplitAt(s, pos, kind).head| == SplitAt(s, pos, kind).pieces[0].marker.start
  {
    var r := SplitAt(s, pos, kind);
    if r.pieces != [] {
      var m := NextMarker(s, pos, kind).value;
      assert r.head == s[pos..m.start];
      assert s[pos..m.start] == s[pos..][..m.start - pos];
    }
  }

  function Interleave(pieces: seq<Piece>): (r: seq<string>)
    ensures |r| == 2 * |pieces|
  {
    if pieces == [] then [] else [pieces[0].marker.tag, pieces[0].text] + Interleave(pieces[1..])
  }

  /** The list `re.split` returns. */
  function SplitList(sp: Split): seq<string> {
    [sp.head] + Interleave(sp.pieces)
  }

  lemma {:induction false} InterleaveAt(pieces: seq<Piece>, k: nat)
    requires k < |pieces|
    ensures Interleave(pieces)[2 * k] == pieces[k].marker.tag
    ensures Interleave(pieces)[2 * k + 1] == pieces[k].text
  {
    if k > 0 {
      InterleaveAt(pieces[1..], k - 1);
    }
  }

  /**
   * The pieces read the flat list as the source's loop does: label `i` and text
   * `i + 1` for `i = 1, 3, ...`; fewer than 3 entries means no match.
   */
  lemma SplitListShape(sp: Split, k: nat)
    requires k < |sp.pieces|
    ensures |SplitList(sp)| == 2 * |sp.pieces| + 1
    ensures SplitList(sp)[2 * k + 1] == sp.pieces[k].marker.tag
    ensures SplitList(sp)[2 * k + 2] == sp.pieces[k].text
  {
    InterleaveAt(sp.pieces, k);
  }

  /** Putting the matched text back between the pieces gives the input. */
  function Rebuild(s: string, sp: Split): string
    requires forall k :: 0 <= k < |sp.pieces| ==> sp.pieces[k].marker.start <= sp.pieces[k].marker.end <= |s|
    decreases |sp.pieces|
  {
    if sp.pieces == [] then sp.head
    else
      var m := sp.pieces[0].marker;
      sp.head + s[m.start..m.end] + Rebuild(s, Split(sp.pieces[0].text, sp.pieces[1..]))
  }

  /** One unfolding of `Rebuild` over a split with a first match `m`. */
  lemma RebuildFirst(s: string, pos: nat, kind: LabelKind, m: Marker)
    requires pos <= |s| && NextMarker(s, pos, kind) == Some(m)
    ensures Rebuild(s, SplitAt(s, pos, kind)) == s[pos..m.start] + s[m.start..m.end] + Rebuild(s, SplitAt(s, m.end, kind))
  {
    var rest := SplitAt(s, m.end, kind);
    var sp := SplitAt(s, pos, kind);
    assert sp.pieces[1..] == rest.pieces;
    assert Split(rest.head, rest.pieces) == rest;
  }

  lemma {:induction false} SplitRebuild(s: string, pos: nat, kind: LabelKind)
    requires pos <= |s|
    ensures Rebuild(s, SplitAt(s, pos, kind)) == s[pos..]
    decreases |s| - pos
  {
    match NextMarker(s, pos, kind)
    case None =>
    case Some(m) =>
      SplitRebuild(s, m.end, kind);
      RebuildFirst(s, pos, kind, m);
      SuffixSplit(s, pos, m.start);
      SuffixSplit(s, m.start, m.end);
      ConcatAssoc(s[pos..m.start], s[m.start..m.end], s[m.end..]);
  }

  // ---------------------------------------------------------------------
  // Sub-parts: `parse_sub_subparts_improved`, `parse_sub_subparts`, `parse_sub_subparts_html`
  // ---------------------------------------------------------------------

  datatype SubSubpart = SubSubpart(part: string, question: string)

  /** The entries built from `pieces`: one per piece whose stripped text is not empty. */
  function NestedOf(pieces: seq<Piece>): seq<SubSubpart> {
    if pieces == [] then []
    else
      var last := pieces[|pieces| - 1];
      var content := Strip(last.text);
      NestedOf(pieces[..|pieces| - 1])
        + (if content != "" then [SubSubpart("(" + last.marker.tag + ")", content)] else [])
  }

  lemma NestedOfSnoc(pieces: seq<Piece>, j: nat)
    requires j < |pieces|
    ensures NestedOf(pieces[..j + 1]) == NestedOf(pieces[..j])
      + (if Strip(pieces[j].text) != "" then [SubSubpart("(" + pieces[j].marker.tag + ")", Strip(pieces[j].text))] else [])
  {
    assert pieces[..j + 1][..j] == pieces[..j];
    assert pieces[..j + 1][j] == pieces[j];
  }

  /** What the sub-part parsers return for `content`. */
  function Nested(content: string, kind: LabelKind): seq<SubSubpart> {
    var sp := SplitAt(content, 0, kind);
    if sp.pieces == [] then [] else NestedOf(sp.pieces)
  }

  /**
   * The loop of the sub-part parsers over the split list, written over the
   * (label, text) pairs: pair `j` is the list's entries `2 * j + 1` and `2 * j + 2`.
   */
  method ParseSubSubparts(content: string, kind: LabelKind) returns (subSubparts: seq<SubSubpart>)
    ensures subSubparts == Nested(content, kind)
  {
    var sp := SplitAt(content, 0, kind);
    if sp.pieces == [] {
      return [];
    }
    subSubparts := [];
    var j := 0;
    while j < |sp.pieces|
      invariant 0 <= j <= |sp.pieces|
      invariant subSubparts == NestedOf(sp.pieces[..j])
    {
      var subLetter := sp.pieces[j].marker.tag;
      var subContent := Strip(sp.pieces[j].text);
      NestedOfSnoc(sp.pieces, j);
      if subContent != "" {
        subSubparts := subSubparts + [SubSubpart("(" + subLetter + ")", subContent)];
      }
      j := j + 1;
    }
    assert sp.pieces[..j] == sp.pieces;
  }

  /** `(tag)` with a tag of the given kind. */
  predicate IsLabelled(part: string, kind: LabelKind) {
    |part| >= 2 && part[0] == '(' && part[|part| - 1] == ')' && ValidLabel(part[1..|part| - 1], kind)
  }

  lemma LabelledPart(t: string, kind: LabelKind)
    requires ValidLabel(t, kind)
    ensures IsLabelled("(" + t + ")", kind)
  {
    var part := "(" + t + ")";
    assert part[1..|part| - 1] == t;
  }

  /** A sub-part as the parsers build it: a `(tag)` label and a non-empty stripped question. */
  predicate WellFormedEntry(e: SubSubpart, kind: LabelKind) {
    e.question != "" && !IsSpace(e.question[0]) && !IsSpace(e.question[|e.question| - 1])
    && IsLabelled(e.part, kind)
  }

  /** The entry the last piece adds, if any, is well formed. */
  lemma LastEntry(last: Piece, kind: LabelKind)
    requires ValidLabel(last.marker.tag, kind)
    ensures var content := Strip(last.text);
      content != "" ==> WellFormedEntry(SubSubpart("(" + last.marker.tag + ")", content), kind)
  {
    LabelledPart(last.marker.tag, kind);
  }

  lemma AppendEntries(a: seq<SubSubpart>, b: seq<SubSubpart>, kind: LabelKind)
    requires forall k :: 0 <= k < |a| ==> WellFormedEntry(a[k], kind)
    requires forall k :: 0 <= k < |b| ==> WellFormedEntry(b[k], kind)
    ensures forall k :: 0 <= k < |a + b| ==> WellFormedEntry((a + b)[k], kind)
  {
    forall k | 0 <= k < |a + b| ensures WellFormedEntry((a + b)[k], kind) {
      if k >= |a| {
        assert (a + b)[k] == b[k - |a|];
      }
    }
  }

  lemma {:induction false} NestedOfEntries(pieces: seq<Piece>, kind: LabelKind)
    requires forall k :: 0 <= k < |pieces| ==> ValidLabel(pieces[k].marker.tag, kind)
    ensures |NestedOf(pieces)| <= |pieces|
    ensures forall k :: 0 <= k < |NestedOf(pieces)| ==> WellFormedEntry(NestedOf(pieces)[k], kind)
  {
    if pieces != [] {
      var init := pieces[..|pieces| - 1];
      var last := pieces[|pieces| - 1];
      NestedOfEntries(init, kind);
      LastEntry(last, kind);
      var content := Strip(last.text);
      var extra := if content != "" then [SubSubpart("(" + last.marker.tag + ")", content)] else [];
      AppendEntries(NestedOf(init), extra, kind);
    }
  }

  /**
   * Every sub-part has a non-empty, stripped question and a `(tag)` of the
   * pattern's kind, and there is at most one per marker.
   */
  lemma NestedEntries(content: string, kind: LabelKind)
    ensures |Nested(content, kind)| <= |SplitAt(content, 0, kind).pieces|
    ensures forall k :: 0 <= k < |Nested(content, kind)| ==> WellFormedEntry(Nested(content, kind)[k], kind)
  {
    NestedOfEntries(SplitAt(content, 0, kind).pieces, kind);
  }

  /** How many pieces have a non-blank text. */
  function NonBlankCount(pieces: seq<Piece>): nat {
    if pieces == [] then 0
    else NonBlankCount(pieces[..|pieces| - 1]) + (if Strip(pieces[|pieces| - 1].text) != "" then 1 else 0)
  }

  /** Exactly the pieces with blank text are dropped. */
  lemma {:induction false} NestedOfCount(pieces: seq<Piece>)
    ensures |NestedOf(pieces)| == NonBlankCount(pieces)
  {
    if pieces != [] {
      NestedOfCount(pieces[..|pieces| - 1]);
    }
  }

  // ---------------------------------------------------------------------
  // Parts: `parse_theory_structure_improved` and `parse_question_structure`
  // ---------------------------------------------------------------------

  datatype Subpart = Subpart(part: string, question: string, subparts: seq<SubSubpart>, solution: Option<string>)

  /** The part built from a tag and the piece after it. */
  function SubpartOf(letter: string, piece: string): (r: Subpart)
    ensures r.part == "(" + letter + ")" && r.solution.None?
    ensures r.subparts == Nested(Strip(piece), RomanOrLetter)
    ensures r.subparts != [] ==> r.question == ""
    ensures r.subparts == [] ==> r.question == Strip(piece)
  {
    var content := Strip(piece);
    var subs := Nested(content, RomanOrLetter);
    Subpart("(" + letter + ")", if subs == [] then content else "", subs, None)
  }

  /** One part per (letter, text) piece, in order. */
  function SubpartsOf(pieces: seq<Piece>): (r: seq<Subpart>)
    ensures |r| == |pieces|
    ensures forall k :: 0 <= k < |pieces| ==> r[k] == SubpartOf(pieces[k].marker.tag, pieces[k].text)
  {
    seq(|pieces|, k requires 0 <= k < |pieces| => SubpartOf(pieces[k].marker.tag, pieces[k].text))
  }

  /** A sequence is its prefix plus its last element. */
  lemma SeqSnoc<T>(x: seq<T>, y: seq<T>, z: T)
    requires |x| == |y| + 1 && x[..|y|] == y && x[|y|] == z
    ensures x == y + [z]
  {
  }

  lemma SubpartsOfSnoc(pieces: seq<Piece>, j: nat)
    requires j < |pieces|
    ensures SubpartsOf(pieces[..j + 1]) == SubpartsOf(pieces[..j]) + [SubpartOf(pieces[j].marker.tag, pieces[j].text)]
  {
    var a := SubpartsOf(pieces[..j + 1]);
    var c := SubpartsOf(pieces[..j]);
    assert a[..j] == c by {
      forall k | 0 <= k < j ensures a[k] == c[k] {
        assert pieces[..j + 1][k] == pieces[k];
        assert pieces[..j][k] == pieces[k];
      }
    }
    assert pieces[..j + 1][j] == pieces[j];
    SeqSnoc(a, c, SubpartOf(pieces[j].marker.tag, pieces[j].text));
  }

  /** The (main question, parts) pair the structure parsers return for `content`. */
  function StructureOf(content: string): (string, seq<Subpart>) {
    var sp := SplitAt(content, 0, PartLetter);
    if sp.pieces == [] then (Strip(content), []) else (Strip(sp.head), SubpartsOf(sp.pieces))
  }

  /** The shared decomposition loop of both structure parsers, over the split's (letter, text) pairs. */
  method Decompose(content: string) returns (mainQuestion: string, subparts: seq<Subpart>)
    ensures (mainQuestion, subparts) == StructureOf(content)
  {
    var sp := SplitAt(content, 0, PartLetter);
    if sp.pieces == [] {
      return Strip(content), [];
    }
    mainQuestion := Strip(sp.head);
    subparts := [];
    var j := 0;
    while j < |sp.pieces|
      invariant 0 <= j <= |sp.pieces|
      invariant subparts == SubpartsOf(sp.pieces[..j])
    {
      var partLetter := sp.pieces[j].marker.tag;
      var partContent := Strip(sp.pieces[j].text);
      var subSubparts := ParseSubSubparts(partContent, RomanOrLetter);
      var question := if subSubparts == [] then partContent else "";
      var subpart := Subpart("(" + partLetter + ")", question, subSubparts, None);
      assert subpart == SubpartOf(sp.pieces[j].marker.tag, sp.pieces[j].text);
      SubpartsOfSnoc(sp.pieces, j);
      subparts := subparts + [subpart];
      j := j + 1;
    }
    assert sp.pieces[..j] == sp.pieces;
  }

  /**
   * No `(a)`-`(d)` marker gives the stripped content and no parts; otherwise
   * (one marker is enough) there is exactly one part per marker, in order,
   * labelled `(x)` with the marker's letter and without a solution yet.
   */
  lemma StructureParts(content: string, mainQuestion: string, subparts: seq<Subpart>)
    requires (mainQuestion, subparts) == StructureOf(content)
    ensures NextMarker(content, 0, PartLetter).None? ==> mainQuestion == Strip(content) && subparts == []
    ensures |subparts| == |SplitAt(content, 0, PartLetter).pieces|
    ensures forall k :: 0 <= k < |subparts| ==>
      && subparts[k].part == "(" + SplitAt(content, 0, PartLetter).pieces[k].marker.tag + ")"
      && IsLabelled(subparts[k].part, PartLetter)
      && subparts[k].solution.None?
  {
    var sp := SplitAt(content, 0, PartLetter);
    forall k | 0 <= k < |subparts|
      ensures subparts[k].part == "(" + sp.pieces[k].marker.tag + ")"
      ensures IsLabelled(subparts[k].part, PartLetter) && subparts[k].solution.None?
    {
      LabelledPart(sp.pieces[k].marker.tag, PartLetter);
    }
  }

  /** `parse_theory_structure_improved`: drop the leading number, then decompose. */
  method ParseTheoryStructure(questionPart: string, n: nat) returns (mainQuestion: string, subparts: seq<Subpart>)
    ensures (mainQuestion, subparts) == StructureOf(RemoveNumberPrefix(questionPart, n))
  {
    var content := RemoveNumberPrefix(questionPart, n);
    mainQuestion, subparts := Decompose(content);
  }

  /** `parse_question_structure`: collapse whitespace and strip, then decompose. */
  method ParseQuestionStructure(content: string) returns (mainQuestion: string, subparts: seq<Subpart>)
    ensures (mainQuestion, subparts) == StructureOf(Strip(Collapse(content)))
    ensures NextMarker(Strip(Collapse(content)), 0, PartLetter).None? ==> mainQuestion == Strip(Collapse(content))
  {
    var cleaned := Strip(Collapse(content));
    StripIdempotent(Collapse(content));
    mainQuestion, subparts := Decompose(cleaned);
  }

  // ---------------------------------------------------------------------
  // `parse_theory_html_structure` over the texts of the question's divs
  // ---------------------------------------------------------------------

  /** `re.match(r"^\d+\.$", t)`; `$` also matches before a final newline. */
  predicate IsNumberLine(t: string) {
    || (|t| >= 2 && t[|t| - 1] == '.' && IsDigitString(t[..|t| - 1]))
    || (|t| >= 3 && t[|t| - 1] == '\n' && t[|t| - 2] == '.' && IsDigitString(t[..|t| - 2]))
  }

  /** Divs the loop passes over: empty, a bare number, or a solution section. */
  predicate SkippedDiv(t: string) {
    t == "" || IsNumberLine(t) || Contains(t, "Show Solution")
  }

  /** `re.match(r"^\(([a-d])\)", t)`. */
  predicate IsPartDiv(t: string) {
    |t| >= 3 && t[0] == '(' && 'a' <= t[1] <= 'd' && t[2] == ')'
  }

  /** `re.match(r"^\(([ivx]+)\)", t)`. */
  predicate IsRomanDiv(t: string) {
    |t| >= 1 && t[0] == '(' && LabelEnd(t, 1, Roman).Some?
  }

  /** A div cannot be both a part div and a roman sub-part div. */
  lemma RomanDivNotPartDiv(t: string)
    ensures IsRomanDiv(t) ==> !IsPartDiv(t)
  {
    if IsRomanDiv(t) {
      var run := RomanRunEnd(t, 1);
      assert run > 1;
    }
  }

  /** A div that settles the main question: a part div or a plain text div. */
  predicate Decisive(t: string) {
    !SkippedDiv(t) && !IsRomanDiv(t)
  }

  /** The part a `(x)` div opens. */
  function HtmlPart(t: string): (r: Subpart)
    requires IsPartDiv(t)
    ensures r.part == "(" + [t[1]] + ")" && r.solution.None?
    ensures r.subparts == Nested(LStrip(t[3..]), Roman)
    ensures r.subparts != [] ==> r.question == ""
    ensures r.subparts == [] ==> r.question == LStrip(t[3..])
  {
    var content := LStrip(t[3..]);
    var subs := Nested(content, Roman);
    Subpart("(" + [t[1]] + ")", if subs == [] then content else "", subs, None)
  }

  /** Reference: one part per part div, in order. */
  function HtmlParts(ts: seq<string>): seq<Subpart> {
    if ts == [] then []
    else
      var t := ts[|ts| - 1];
      HtmlParts(ts[..|ts| - 1]) + (if !SkippedDiv(t) && IsPartDiv(t) then [HtmlPart(t)] else [])
  }

  /** Reference: the first plain text div, unless a part div comes first. */
  function HtmlMain(ts: seq<string>): string {
    if ts == [] then ""
    else
      var t := ts[0];
      if !Decisive(t) then HtmlMain(ts[1..])
      else if IsPartDiv(t) then ""
      else t
  }

  /** Some div of `ts` is decisive. */
  predicate HasDecisive(ts: seq<string>) {
    ts != [] && (Decisive(ts[0]) || HasDecisive(ts[1..]))
  }

  lemma {:induction false} HtmlMainSnoc(ts: seq<string>, t: string)
    ensures HtmlMain(ts + [t]) == if HasDecisive(ts) then HtmlMain(ts) else HtmlMain([t])
  {
    if ts == [] {
      assert ts + [t] == [t];
    } else {
      assert (ts + [t])[0] == ts[0];
      assert (ts + [t])[1..] == ts[1..] + [t];
      HtmlMainSnoc(ts[1..], t);
    }
  }

  lemma {:induction false} HasDecisiveSnoc(ts: seq<string>, t: string)
    ensures HasDecisive(ts + [t]) <==> HasDecisive(ts) || Decisive(t)
  {
    if ts == [] {
      assert ts + [t] == [t];
    } else {
      assert (ts + [t])[0] == ts[0];
      assert (ts + [t])[1..] == ts[1..] + [t];
      HasDecisiveSnoc(ts[1..], t);
    }
  }

  lemma HtmlPartsSnoc(ts: seq<string>, t: string)
    ensures HtmlParts(ts + [t]) == HtmlParts(ts) + (if !SkippedDiv(t) && IsPartDiv(t) then [HtmlPart(t)] else [])
  {
    assert (ts + [t])[..|ts|] == ts;
  }

  /** The texts the loop works on: each div's text, stripped. */
  function Stripped(divs: seq<string>): (r: seq<string>)
    ensures |r| == |divs|
  {
    if divs == [] then [] else Stripped(divs[..|divs| - 1]) + [Strip(divs[|divs| - 1])]
  }

  lemma {:induction false} StrippedAt(divs: seq<string>, i: nat)
    requires i < |divs|
    ensures Stripped(divs)[i] == Strip(divs[i])
  {
    if i < |divs| - 1 {
      StrippedAt(divs[..|divs| - 1], i);
    }
  }

  /** The variables of the `parse_theory_html_structure` loop. */
  datatype HtmlState = HtmlState(mainQuestion: string, subparts: seq<Subpart>, currentPart: Option<Subpart>)

  /** One turn of the loop on a (stripped) div text. */
  function HtmlStep(st: HtmlState, t: string): HtmlState {
    if SkippedDiv(t) then st
    else if IsPartDiv(t) then
      st.(subparts := st.subparts + (if st.currentPart.Some? then [st.currentPart.value] else []),
          currentPart := Some(HtmlPart(t)))
    else if IsRomanDiv(t) then st
    else if st.subparts == [] && st.currentPart.None? && st.mainQuestion == "" then st.(mainQuestion := t)
    else st
  }

  /** The state after the loop has seen `ts`. */
  function HtmlRun(ts: seq<string>): HtmlState {
    if ts == [] then HtmlState("", [], None)
    else HtmlStep(HtmlRun(ts[..|ts| - 1]), ts[|ts| - 1])
  }

  lemma HtmlRunSnoc(ts: seq<string>, i: nat)
    requires i < |ts|
    ensures HtmlRun(ts[..i + 1]) == HtmlStep(HtmlRun(ts[..i]), ts[i])
  {
    assert ts[..i + 1][..i] == ts[..i];
  }

  /** The parts closed so far plus the open one. */
  function Flushed(st: HtmlState): seq<Subpart> {
    st.subparts + (if st.currentPart.Some? then [st.currentPart.value] else [])
  }

  /** The loop state agrees with the reference definitions at every point. */
  lemma {:induction false} HtmlRunMeaning(ts: seq<string>)
    ensures Flushed(HtmlRun(ts)) == HtmlParts(ts)
    ensures HtmlRun(ts).currentPart.None? ==> HtmlRun(ts).subparts == []
    ensures HtmlRun(ts).mainQuestion == HtmlMain(ts)
    ensures HasDecisive(ts) <==> (HtmlRun(ts).mainQuestion != "" || HtmlRun(ts).currentPart.Some?)
  {
    if ts != [] {
      var init := ts[..|ts| - 1];
      var t := ts[|ts| - 1];
      assert ts == init + [t];
      HtmlRunMeaning(init);
      HtmlMainSnoc(init, t);
      HtmlPartsSnoc(init, t);
      HasDecisiveSnoc(init, t);
      var st := HtmlRun(init);
      RomanDivNotPartDiv(t);
      if !Decisive(t) {
        assert HtmlRun(ts) == st;
      } else if IsPartDiv(t) {
        assert HtmlRun(ts).currentPart.Some?;
      } else if !HasDecisive(init) {
        assert HtmlRun(ts).mainQuestion == t;
      }
    }
  }

  /** The part a `(x)` div opens: `re.sub(r"^\([a-d]\)\s*", "", t)` and the `(i)` sub-parts of the rest. */
  method OpenPart(divText: string) returns (part: Subpart)
    requires IsPartDiv(divText)
    ensures part == HtmlPart(divText)
  {
    var partLetter := divText[1];
    var partContent := LStrip(divText[3..]);
    var subSubparts := ParseSubSubparts(partContent, Roman);
    part := Subpart("(" + [partLetter] + ")", if subSubparts == [] then partContent else "", subSubparts, None);
  }

  /** A skipped div leaves the state alone. */
  lemma HtmlStepSkipped(st: HtmlState, t: string)
    requires SkippedDiv(t)
    ensures HtmlStep(st, t) == st
  {
  }

  /** A part div closes the open part, if any, and opens its own. */
  lemma HtmlStepPart(st: HtmlState, t: string)
    requires !SkippedDiv(t) && IsPartDiv(t)
    ensures HtmlStep(st, t) ==
      HtmlState(st.mainQuestion, st.subparts + (if st.currentPart.Some? then [st.currentPart.value] else []), Some(HtmlPart(t)))
  {
  }

  /** Any other div can only set the main question, and only while nothing has been taken yet. */
  lemma HtmlStepOther(st: HtmlState, t: string)
    requires !SkippedDiv(t) && !IsPartDiv(t)
    ensures HtmlStep(st, t) ==
      if !IsRomanDiv(t) && st.subparts == [] && st.currentPart.None? && st.mainQuestion == "" then st.(mainQuestion := t) else st
  {
  }

  /** One turn of the `parse_theory_html_structure` loop on a stripped div text. */
  method VisitDiv(divText: string, mainQuestion: string, subparts: seq<Subpart>, currentPart: Option<Subpart>)
    returns (nextMain: string, nextSubparts: seq<Subpart>, nextPart: Option<Subpart>)
    ensures HtmlState(nextMain, nextSubparts, nextPart) == HtmlStep(HtmlState(mainQuestion, subparts, currentPart), divText)
  {
    ghost var st := HtmlState(mainQuestion, subparts, currentPart);
    nextMain, nextSubparts, nextPart := mainQuestion, subparts, currentPart;
    if SkippedDiv(divText) {
      HtmlStepSkipped(st, divText);
      return;
    }
    if IsPartDiv(divText) {
      if currentPart.Some? {
        nextSubparts := subparts + [currentPart.value];
      }
      var part := OpenPart(divText);
      nextPart := Some(part);
      HtmlStepPart(st, divText);
    } else {
      HtmlStepOther(st, divText);
      if IsRomanDiv(divText) {
      } else if subparts == [] && currentPart.None? && mainQuestion == "" {
        nextMain := divText;
      }
    }
  }

  /**
   * The `current_part`/`main_question` state machine: every part div closes
   * the open part and opens its own, the last open part is appended at the
   * end, and the main question is taken at most once, before any part.
   */
  method ParseTheoryHtmlStructure(divTexts: seq<string>) returns (mainQuestion: string, subparts: seq<Subpart>)
    ensures subparts == HtmlParts(Stripped(divTexts))
    ensures mainQuestion == HtmlMain(Stripped(divTexts))
  {
    ghost var ts := Stripped(divTexts);
    mainQuestion := "";
    subparts := [];
    var currentPart: Option<Subpart> := None;
    var i := 0;
    while i < |divTexts|
      invariant 0 <= i <= |divTexts|
      invariant HtmlState(mainQuestion, subparts, currentPart) == HtmlRun(ts[..i])
    {
      var divText := Strip(divTexts[i]);
      StrippedAt(divTexts, i);
      HtmlRunSnoc(ts, i);
      mainQuestion, subparts, currentPart := VisitDiv(divText, mainQuestion, subparts, currentPart);
      i := i + 1;
    }
    assert ts[..|divTexts|] == ts;
    HtmlRunMeaning(ts);
    if currentPart.Some? {
      subparts := subparts + [currentPart.value];
    }
  }

  /** The main question is a plain div that no part div and no other plain div precedes. */
  lemma {:induction false} HtmlMainIsFirst(ts: seq<string>)
    ensures HtmlMain(ts) != "" ==>
      exists k :: 0 <= k < |ts| && HtmlMain(ts) == ts[k] && Decisive(ts[k]) && !IsPartDiv(ts[k])
        && forall j :: 0 <= j < k ==> !Decisive(ts[j])
  {
    if ts != [] && HtmlMain(ts) != "" {
      if !Decisive(ts[0]) {
        HtmlMainIsFirst(ts[1..]);
        var k :| 0 <= k < |ts| - 1 && HtmlMain(ts[1..]) == ts[1..][k] && Decisive(ts[1..][k]) && !IsPartDiv(ts[1..][k])
          && forall j :: 0 <= j < k ==> !Decisive(ts[1..][j]);
        assert forall j :: 0 <= j < k + 1 ==> !Decisive(ts[j]) by {
          forall j | 0 <= j < k + 1 ensures !Decisive(ts[j]) {
            if j > 0 { assert ts[j] == ts[1..][j - 1]; }
          }
        }
        assert ts[k + 1] == ts[1..][k];
      } else {
        assert HtmlMain(ts) == ts[0];
      }
    }
  }
}
