/**
 * The CSV columns of a flattened question record. A column stands for the
 * string key the Python code builds (`option_A`, `subpart_2_question`,
 * `subpart_1_b_answer`, ...); `ColumnName` renders it and `ParseColumn`
 * reads it back, so two different columns never share a key. The header
 * is sorted by the key `(group, name)`.
 */
module Columns {
  import opened Wrappers
  import opened Text
  import opened Sorting

  // ---------------------------------------------------------------------
  // Columns and their names
  // ---------------------------------------------------------------------

  datatype Attr = AQuestion | ASolution | AAnswer

  datatype BaseField =
    | TypeField | NumberField | QuestionField | SolutionField | AnswerField | DiagramsField

  datatype Column =
    | BaseColumn(field: BaseField)
      /** `option_{key}` */
    | OptionColumn(key: string)
      /** `subpart_{part + 1}_{attr}` */
    | SubpartColumn(part: nat, attr: Attr)
      /** `subpart_{part + 1}_{letter}_{attr}` */
    | NestedColumn(part: nat, letter: char, attr: Attr)

  function AttrName(a: Attr): string {
    match a
    case AQuestion => "question"
    case ASolution => "solution"
    case AAnswer => "answer"
  }

  function BaseName(b: BaseField): string {
    match b
    case TypeField => "type"
    case NumberField => "number"
    case QuestionField => "question"
    case SolutionField => "solution"
    case AnswerField => "answer"
    case DiagramsField => "diagrams"
  }

  /** The fields every row has, first in the CSV header. */
  const BaseNames: seq<string> := ["type", "number", "question", "solution", "answer", "diagrams"]

  function ColumnName(c: Column): string {
    match c
    case BaseColumn(b) => BaseName(b)
    case OptionColumn(k) => "option_" + k
    case SubpartColumn(i, a) => "subpart_" + DecNat(i + 1) + "_" + AttrName(a)
    case NestedColumn(i, l, a) => "subpart_" + DecNat(i + 1) + "_" + [l, '_'] + AttrName(a)
  }

  function ParseAttr(s: string): Option<Attr> {
    if s == "question" then Some(AQuestion)
    else if s == "solution" then Some(ASolution)
    else if s == "answer" then Some(AAnswer)
    else None
  }

  function ParseBase(s: string): Option<BaseField> {
    if s == "type" then Some(TypeField)
    else if s == "number" then Some(NumberField)
    else if s == "question" then Some(QuestionField)
    else if s == "solution" then Some(SolutionField)
    else if s == "answer" then Some(AnswerField)
    else if s == "diagrams" then Some(DiagramsField)
    else None
  }

  /** Length of the run of digits that starts `s`. */
  function DigitRun(s: string): (n: nat)
    ensures n <= |s| && AllDigits(s[..n])
    ensures n < |s| ==> !IsDigit(s[n])
  {
    if s == [] || !IsDigit(s[0]) then 0
    else
      var n := 1 + DigitRun(s[1..]);
      assert s[..n] == [s[0]] + s[1..][..n - 1];
      n
  }

  /** Reads the part after `subpart_{n}_` back into a column. */
  function ParseTail(n: nat, rest: string): Option<Column> {
    if n == 0 then None
    else if ParseAttr(rest).Some? then Some(SubpartColumn(n - 1, ParseAttr(rest).value))
    else if |rest| >= 2 && rest[1] == '_' && ParseAttr(rest[2..]).Some? then
      Some(NestedColumn(n - 1, rest[0], ParseAttr(rest[2..]).value))
    else None
  }

  /** Reads the part after `subpart_` back into a column. */
  function ParseSubpart(s: string): Option<Column> {
    var d := DigitRun(s);
    if d == 0 || d == |s| || s[d] != '_' then None
    else ParseTail(DigitsValue(s[..d]), s[d + 1..])
  }

  /** Reads a CSV key back into the column it names. */
  function ParseColumn(name: string): Option<Column> {
    if ParseBase(name).Some? then Some(BaseColumn(ParseBase(name).value))
    else if |name| >= 7 && name[..7] == "option_" then Some(OptionColumn(name[7..]))
    else if |name| >= 8 && name[..8] == "subpart_" then ParseSubpart(name[8..])
    else None
  }

  lemma ParseAttrName(a: Attr)
    ensures ParseAttr(AttrName(a)) == Some(a)
  {
  }

  /** No attribute name has `_` as its second character. */
  lemma ParseAttrLetter(l: char, a: Attr)
    ensures ParseAttr([l, '_'] + AttrName(a)) == None
  {
    var s := [l, '_'] + AttrName(a);
    assert s[1] == '_';
    assert "question"[1] == 'u' && "solution"[1] == 'o' && "answer"[1] == 'n';
  }

  lemma DigitRunDec(n: nat, rest: string)
    requires rest != [] && !IsDigit(rest[0])
    ensures DigitRun(DecNat(n) + rest) == |DecNat(n)|
  {
    var d := DecNat(n);
    var s := d + rest;
    assert forall j :: 0 <= j < |d| ==> s[j] == d[j];
    assert s[|d|] == rest[0];
  }

  lemma ParseSubpartName(i: nat, tail: string)
    ensures ParseSubpart(DecNat(i + 1) + "_" + tail) == ParseTail(i + 1, tail)
  {
    var d := DecNat(i + 1);
    var s := d + "_" + tail;
    assert s == d + ("_" + tail);
    DigitRunDec(i + 1, "_" + tail);
    assert s[..|d|] == d && s[|d|] == '_' && s[|d| + 1..] == tail;
    DigitsValueDecNat(i + 1);
  }

  lemma ParseOptionName(k: string)
    ensures ParseColumn(ColumnName(OptionColumn(k))) == Some(OptionColumn(k))
  {
    var name := ColumnName(OptionColumn(k));
    assert name[0] == 'o';
    assert ParseBase(name) == None;
    assert name[..7] == "option_";
  }

  /** A `subpart_` key is neither a base name nor an option key. */
  lemma SubpartPrefix(s: string)
    ensures var name := "subpart_" + s;
      ParseBase(name) == None && name !in BaseNames && !(|name| >= 7 && name[..7] == "option_")
      && name[..8] == "subpart_" && name[8..] == s
  {
    var name := "subpart_" + s;
    assert name[0] == 's' && name[1] == 'u';
  }

  lemma ParseSubpartColumnName(i: nat, a: Attr)
    ensures ParseColumn(ColumnName(SubpartColumn(i, a))) == Some(SubpartColumn(i, a))
  {
    var tail := AttrName(a);
    var s := DecNat(i + 1) + "_" + tail;
    assert ColumnName(SubpartColumn(i, a)) == "subpart_" + s;
    SubpartPrefix(s);
    ParseSubpartName(i, tail);
    ParseAttrName(a);
    assert ParseTail(i + 1, tail) == Some(SubpartColumn(i, a));
  }

  lemma ParseNestedColumnName(i: nat, l: char, a: Attr)
    ensures ParseColumn(ColumnName(NestedColumn(i, l, a))) == Some(NestedColumn(i, l, a))
  {
    var tail := [l, '_'] + AttrName(a);
    var s := DecNat(i + 1) + "_" + tail;
    assert ColumnName(NestedColumn(i, l, a)) == "subpart_" + s;
    SubpartPrefix(s);
    ParseSubpartName(i, tail);
    NestedTail(i, l, a);
  }

  lemma NestedTail(i: nat, l: char, a: Attr)
    ensures ParseTail(i + 1, [l, '_'] + AttrName(a)) == Some(NestedColumn(i, l, a))
  {
    var tail := [l, '_'] + AttrName(a);
    assert tail[2..] == AttrName(a);
    ParseAttrName(a);
    ParseAttrLetter(l, a);
  }

  /** Every column name reads back as its column: the keys never collide. */
  lemma ParseColumnName(c: Column)
    ensures ParseColumn(ColumnName(c)) == Some(c)
  {
    match c
    case BaseColumn(b) =>
    case OptionColumn(k) => ParseOptionName(k);
    case SubpartColumn(i, a) => ParseSubpartColumnName(i, a);
    case NestedColumn(i, l, a) => ParseNestedColumnName(i, l, a);
  }

  lemma ColumnNameInjective(c1: Column, c2: Column)
    ensures ColumnName(c1) == ColumnName(c2) ==> c1 == c2
  {
    ParseColumnName(c1);
    ParseColumnName(c2);
  }

  // ---------------------------------------------------------------------
  // Header order
  // ---------------------------------------------------------------------

  /** The first component of the header sort key. */
  function Group(x: string): (g: nat)
    ensures g <= 3
  {
    if x in BaseNames then 0
    else if |x| >= 7 && x[..7] == "option_" then 1
    else if |x| >= 8 && x[..8] == "subpart_" then 2
    else 3
  }

  function ColumnGroup(c: Column): nat {
    match c
    case BaseColumn(_) => 0
    case OptionColumn(_) => 1
    case SubpartColumn(_, _) => 2
    case NestedColumn(_, _, _) => 2
  }

  /** Base fields come first, then options, then subparts; a flattened row has no "other" key. */
  lemma GroupOfColumn(c: Column)
    ensures Group(ColumnName(c)) == ColumnGroup(c) < 3
  {
    var name := ColumnName(c);
    match c
    case BaseColumn(b) =>
    case OptionColumn(k) =>
      assert name[0] == 'o';
      assert name !in BaseNames;
      assert name[..7] == "option_";
    case SubpartColumn(i, a) =>
      SubpartPrefix(DecNat(i + 1) + "_" + AttrName(a));
    case NestedColumn(i, l, a) =>
      SubpartPrefix(DecNat(i + 1) + "_" + [l, '_'] + AttrName(a));
  }

  /** `key(a) <= key(b)` for the key `(Group(x), x)`. */
  predicate FieldLe(a: string, b: string) {
    Group(a) < Group(b) || (Group(a) == Group(b) && !Less(b, a))
  }

  /** `key(a) < key(b)`. */
  predicate FieldLess(a: string, b: string) {
    Group(a) < Group(b) || (Group(a) == Group(b) && Less(a, b))
  }

  lemma FieldLeTotalPreorder()
    ensures TotalPreorder(FieldLe)
  {
    forall a, b ensures FieldLe(a, b) || FieldLe(b, a) {
      LessAsymmetric(a, b);
    }
    forall a, b, c | FieldLe(a, b) && FieldLe(b, c) ensures FieldLe(a, c) {
      if Group(a) == Group(b) == Group(c) && Less(c, a) {
        LessTotal(a, b);
        if Less(a, b) {
          LessTransitive(c, a, b);
        }
      }
    }
  }

  lemma LessAsymmetric(a: string, b: string)
    ensures !(Less(a, b) && Less(b, a))
  {
    if Less(a, b) && Less(b, a) {
      LessTransitive(a, b, a);
      LessIrreflexive(a);
    }
  }

  /** On distinct names the order is strict. */
  lemma FieldLeDistinct(a: string, b: string)
    requires a != b && FieldLe(a, b)
    ensures FieldLess(a, b) && !FieldLe(b, a)
  {
    LessTotal(a, b);
  }

  predicate Increasing(h: seq<string>) {
    forall i, j :: 0 <= i < j < |h| ==> FieldLess(h[i], h[j])
  }

  /**
   * The header is determined by its set of names: two increasing lists
   * of the same names are equal, whatever order `list(set)` produced.
   */
  lemma {:induction false} HeaderDeterministic(h1: seq<string>, h2: seq<string>)
    requires Increasing(h1) && Increasing(h2)
    requires forall x :: x in h1 <==> x in h2
    ensures h1 == h2
    decreases |h1|
  {
    assert h1 == [] <==> h2 == [] by {
      if h1 != [] {
        assert h1[0] in h1;
      }
      if h2 != [] {
        assert h2[0] in h2;
      }
    }
    if h1 != [] {
      var x, y := h1[0], h2[0];
      assert y in h1 && x in h2;
      if x != y {
        var i :| 0 <= i < |h1| && h1[i] == y;
        var j :| 0 <= j < |h2| && h2[j] == x;
        assert FieldLess(x, y) && FieldLess(y, x);
        LessAsymmetric(x, y);
      }
      forall z ensures z in h1[1..] <==> z in h2[1..] {
        if z in h1[1..] {
          var i :| 0 <= i < |h1[1..]| && h1[1..][i] == z;
          assert FieldLess(x, z);
          assert z != x by { LessIrreflexive(x); }
          assert z in h2;
        }
        if z in h2[1..] {
          var j :| 0 <= j < |h2[1..]| && h2[1..][j] == z;
          assert FieldLess(y, z);
          assert z != y by { LessIrreflexive(y); }
          assert z in h1;
        }
      }
      HeaderDeterministic(h1[1..], h2[1..]);
      assert h1 == [x] + h1[1..] && h2 == [y] + h2[1..];
    }
  }
}
