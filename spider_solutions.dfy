/**
 * Attaching the solution text to each theory part (main.py,
 * `integrate_theory_solutions`): each part looks up the span after its own
 * `(x)` label in the solution text.
 */
module SpiderSolutions {
  import opened Wrappers
  import opened Text
  import opened SpiderParts

  predicate IsParen(c: char) {
    c == '(' || c == ')'
  }

  /** A part label `(x)` strips back to its letter `x`. */
  lemma ParenthesisedLabel(x: string)
    requires x != [] && !IsParen(x[0]) && !IsParen(x[|x| - 1])
    ensures StripParens("(" + x + ")") == x
  {
    var p := "(" + x + ")";
    assert p[0] == '(' && p[1..] == x + ")";
    var q := x + ")";
    assert q != [] && !IsParen(q[0]) && IsParen(q[|q| - 1]);
    assert StripParens(p) == StripParens(q);
    assert q[..|q| - 1] == x;
    assert StripParens(q) == StripParens(x);
  }

  function FirstOccurrence(s: string, sub: string, from: nat): (r: Option<nat>)
    ensures r.Some? ==> from <= r.value && OccursAt(s, sub, r.value)
    ensures r.Some? ==> forall k :: from <= k < r.value ==> !OccursAt(s, sub, k)
    ensures r.None? ==> forall k :: from <= k ==> !OccursAt(s, sub, k)
    decreases |s| - from
  {
    if from + |sub| > |s| then None
    else if s[from..from + |sub|] == sub then Some(from)
    else FirstOccurrence(s, sub, from + 1)
  }

  /** The lookahead `(?=\([a-d]\)|$)` at `q`. */
  predicate SolutionLookahead(s: string, q: nat) {
    || q == |s|
    || (q == |s| - 1 && s[q] == '\n')
    || (q + 3 <= |s| && s[q] == '(' && 'a' <= s[q + 1] <= 'd' && s[q + 2] == ')')
  }

  /** The lazy `(.*?)` under DOTALL: the first end where the lookahead holds. */
  function SolutionEnd(s: string, q: nat): (r: nat)
    requires q <= |s|
    ensures q <= r <= |s| && SolutionLookahead(s, r)
    ensures forall k :: q <= k < r ==> !SolutionLookahead(s, k)
    decreases |s| - q
  {
    if SolutionLookahead(s, q) then q else SolutionEnd(s, q + 1)
  }

  /**
   * `re.search(rf"\({letter}\)(.*?)(?=\([a-d]\)|$)", text, re.DOTALL)`,
   * returning group 1. The letter is matched literally.
   */
  function SearchSolution(text: string, letter: string): (r: Option<string>)
    ensures r.Some? <==> Contains(text, "(" + letter + ")")
  {
    var pat := "(" + letter + ")";
    ContainsIff(text, pat);
    match FirstOccurrence(text, pat, 0)
    case None => None
    case Some(i) => Some(text[i + |pat|..SolutionEnd(text, i + |pat|)])
  }

  /** One subpart after the integration step. */
  function WithSolution(sp: Subpart, solutionPart: string): (r: Subpart)
    ensures r.part == sp.part && r.question == sp.question && r.subparts == sp.subparts
    ensures Contains(solutionPart, "(" + StripParens(sp.part) + ")") ==>
      r.solution == Some(Strip(SearchSolution(solutionPart, StripParens(sp.part)).value))
    ensures !Contains(solutionPart, "(" + StripParens(sp.part) + ")") ==> r.solution == sp.solution
  {
    match SearchSolution(solutionPart, StripParens(sp.part))
    case Some(t) => sp.(solution := Some(Strip(t)))
    case None => sp
  }

  /** The same parts with the same labels, questions and sub-parts; only solutions may differ. */
  predicate SameQuestions(a: seq<Subpart>, b: seq<Subpart>) {
    && |a| == |b|
    && forall k :: 0 <= k < |a| ==>
      a[k].part == b[k].part && a[k].question == b[k].question && a[k].subparts == b[k].subparts
  }

  /** Every part with its own solution span looked up. */
  function Integrated(subparts: seq<Subpart>, solutionPart: string): (r: seq<Subpart>)
    ensures |r| == |subparts|
    ensures forall k :: 0 <= k < |r| ==> r[k] == WithSolution(subparts[k], solutionPart)
  {
    seq(|subparts|, k requires 0 <= k < |subparts| => WithSolution(subparts[k], solutionPart))
  }

  /**
   * Integration keeps the number, order, labels, questions and sub-parts of
   * the parts; it only sets solutions, each from the part's own `(x)` span.
   */
  lemma IntegratedKeeps(subparts: seq<Subpart>, solutionPart: string)
    ensures SameQuestions(Integrated(subparts, solutionPart), subparts)
    ensures forall k :: 0 <= k < |subparts| ==>
      var p := StripParens(subparts[k].part);
      Integrated(subparts, solutionPart)[k].solution ==
        if Contains(solutionPart, "(" + p + ")") then Some(Strip(SearchSolution(solutionPart, p).value)) else subparts[k].solution
  {
  }

  /** `integrate_theory_solutions`: each part looks up its own `(x)` span, independently of the others. */
  method IntegrateTheorySolutions(subparts: seq<Subpart>, solutionPart: string) returns (result: seq<Subpart>)
    ensures result == Integrated(subparts, solutionPart)
  {
    result := subparts;
    var i := 0;
    while i < |result|
      invariant 0 <= i <= |result| == |subparts|
      invariant forall k :: 0 <= k < i ==> result[k] == WithSolution(subparts[k], solutionPart)
      invariant forall k :: i <= k < |result| ==> result[k] == subparts[k]
    {
      var partLetter := StripParens(result[i].part);
      var solutionMatch := SearchSolution(solutionPart, partLetter);
      if solutionMatch.Some? {
        result := result[i := result[i].(solution := Some(Strip(solutionMatch.value)))];
      }
      i := i + 1;
    }
  }

  /** Python's `strip` of both parenthesis characters from either end. */
  function StripParens(s: string): (r: string)
    ensures r != [] ==> !IsParen(r[0]) && !IsParen(r[|r| - 1])
    decreases |s|
  {
    if s != [] && IsParen(s[0]) then StripParens(s[1..])
    else if s != [] && IsParen(s[|s| - 1]) then StripParens(s[..|s| - 1])
    else s
  }
}
