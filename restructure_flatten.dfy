/**
 * `flatten_question`: one question record becomes one CSV row, a map from
 * column to value, built by successive key assignments.
 */
module Flatten {
  import opened JsonModel
  import opened Text
  import opened Columns

  type Row = map<Column, Json>

  /** `"|".join(question.get("diagrams", []))` needs a list of strings. */
  predicate DiagramsListed(q: Dict) {
    "diagrams" in Keys(q) ==> IsStringArray(Get(q, "diagrams").value)
  }

  /** Nested entries are dictionaries, few enough for `chr(97 + j)` to name a character. */
  predicate NestedListed(sp: Dict) {
    "subparts" in Keys(sp) ==>
      var n := Get(sp, "subparts").value;
      n.JArr? && |n.items| <= 0xD800 - 97
      && forall k :: 0 <= k < |n.items| ==> n.items[k].JObj?
  }

  predicate SubpartsListed(items: seq<Json>) {
    forall k :: 0 <= k < |items| ==> items[k].JObj? && NestedListed(items[k].fields)
  }

  /** What `flatten_question` relies on: the shapes it iterates over. */
  predicate Flattenable(q: Dict, qType: Json) {
    && DiagramsListed(q)
    && (qType == JStr("objectives") && "options" in Keys(q) ==> Get(q, "options").value.JObj?)
    && (qType == JStr("theory") && "subparts" in Keys(q) ==>
          Get(q, "subparts").value.JArr? && SubpartsListed(Get(q, "subparts").value.items))
  }

  function DiagramsCell(q: Dict): string
    requires DiagramsListed(q)
  {
    if "diagrams" in Keys(q) then Join(Strings(Get(q, "diagrams").value), "|") else ""
  }

  /** The six fields every row starts with. */
  function BaseRow(q: Dict, qType: Json): Row
    requires DiagramsListed(q)
  {
    map[BaseColumn(TypeField) := qType,
        BaseColumn(NumberField) := GetOr(q, "number", JNull),
        BaseColumn(QuestionField) := GetOr(q, "question", JNull),
        BaseColumn(SolutionField) := GetOr(q, "solution", JStr("")),
        BaseColumn(AnswerField) := GetOr(q, "answer", JStr("")),
        BaseColumn(DiagramsField) := JStr(DiagramsCell(q))]
  }

  /** `flat[f"option_{k}"] = v` for each entry of `opts`, in order. */
  function WithOptions(m: Row, opts: Dict): Row
    decreases |opts|
  {
    if opts == [] then m
    else
      var n := |opts| - 1;
      WithOptions(m, opts[..n])[OptionColumn(opts[n].0) := opts[n].1]
  }

  /** Entry `i` is the last one with its key. */
  predicate LastOfKey(d: Dict, i: nat)
    requires i < |d|
  {
    forall j :: i < j < |d| ==> d[j].0 != d[i].0
  }

  /** One `option_*` column per option key; the other columns keep their values. */
  lemma {:induction false} WithOptionsHas(m: Row, opts: Dict, c: Column)
    ensures c in WithOptions(m, opts) <==> c in m || (c.OptionColumn? && c.key in Keys(opts))
    ensures c in m && !c.OptionColumn? ==> WithOptions(m, opts)[c] == m[c]
    decreases |opts|
  {
    if opts != [] {
      WithOptionsHas(m, opts[..|opts| - 1], c);
      KeysSnoc(opts);
    }
  }

  /** The value of an option column is that of the last entry with its key. */
  lemma {:induction false} WithOptionsCell(m: Row, opts: Dict, i: nat)
    requires i < |opts| && LastOfKey(opts, i)
    ensures OptionColumn(opts[i].0) in WithOptions(m, opts)
    ensures WithOptions(m, opts)[OptionColumn(opts[i].0)] == opts[i].1
    decreases |opts|
  {
    var n := |opts| - 1;
    if i < n {
      assert LastOfKey(opts[..n], i) && opts[..n][i] == opts[i];
      WithOptionsCell(m, opts[..n], i);
    }
  }

  /** `subpart.get(attr, "")`. */
  function Cell(sp: Dict, a: Attr): Json {
    GetOr(sp, AttrName(a), JStr(""))
  }

  /** A subpart as the flattening loop sees it: its own fields and its nested entries. */
  datatype Part = Part(fields: Dict, nested: seq<Dict>)

  /** `subpart.get("subparts", [])`, entry by entry. */
  function NestedView(sp: Dict): (ns: seq<Dict>)
    requires NestedListed(sp)
    ensures |ns| <= 0xD800 - 97
  {
    if "subparts" in Keys(sp) then
      var items := Get(sp, "subparts").value.items;
      seq(|items|, k requires 0 <= k < |items| => items[k].fields)
    else []
  }

  /** Every subpart has few enough nested entries for `chr(97 + j)`. */
  predicate Lettered(parts: seq<Part>) {
    forall k :: 0 <= k < |parts| ==> |parts[k].nested| <= 0xD800 - 97
  }

  function PartsView(items: seq<Json>): (parts: seq<Part>)
    requires SubpartsListed(items)
    ensures |parts| == |items| && Lettered(parts)
  {
    seq(|items|, k requires 0 <= k < |items| => Part(items[k].fields, NestedView(items[k].fields)))
  }

  /** The three `subpart_{i + 1}_*` cells. */
  function PartCells(m: Row, i: nat, sp: Dict): Row {
    m[SubpartColumn(i, AQuestion) := Cell(sp, AQuestion)]
     [SubpartColumn(i, ASolution) := Cell(sp, ASolution)]
     [SubpartColumn(i, AAnswer) := Cell(sp, AAnswer)]
  }

  /** The three `subpart_{i + 1}_{l}_*` cells. */
  function NestedCells(m: Row, i: nat, l: char, sp: Dict): Row {
    m[NestedColumn(i, l, AQuestion) := Cell(sp, AQuestion)]
     [NestedColumn(i, l, ASolution) := Cell(sp, ASolution)]
     [NestedColumn(i, l, AAnswer) := Cell(sp, AAnswer)]
  }

  /** `chr(97 + j)`. */
  function NestedLetter(j: nat): (c: char)
    requires j < 0xD800 - 97
    ensures c as int == 97 + j
  {
    (97 + j) as char
  }

  /** The cells of the nested entries `ns` of subpart `i`. */
  function WithNested(m: Row, i: nat, ns: seq<Dict>): Row
    requires |ns| <= 0xD800 - 97
    decreases |ns|
  {
    if ns == [] then m
    else
      var n := |ns| - 1;
      NestedCells(WithNested(m, i, ns[..n]), i, NestedLetter(n), ns[n])
  }

  /** The nested loop adds exactly the columns `subpart_{i + 1}_{letter}_*` and keeps the others. */
  lemma {:induction false} WithNestedHas(m: Row, i: nat, ns: seq<Dict>, c: Column)
    requires |ns| <= 0xD800 - 97
    ensures c in WithNested(m, i, ns) <==>
      c in m || (c.NestedColumn? && c.part == i && 97 <= c.letter as int < 97 + |ns|)
    ensures c in m && !(c.NestedColumn? && c.part == i) ==> WithNested(m, i, ns)[c] == m[c]
    decreases |ns|
  {
    if ns != [] {
      var n := |ns| - 1;
      var prev := WithNested(m, i, ns[..n]);
      assert WithNested(m, i, ns) == NestedCells(prev, i, NestedLetter(n), ns[n]);
      WithNestedHas(m, i, ns[..n], c);
      NestedCellsAt(prev, i, NestedLetter(n), ns[n], c);
    }
  }

  /** Nested entry `j` gets the letter `chr(97 + j)`; missing fields become `""`. */
  lemma {:induction false} WithNestedCell(m: Row, i: nat, ns: seq<Dict>, j: nat, a: Attr)
    requires |ns| <= 0xD800 - 97 && j < |ns|
    ensures NestedColumn(i, NestedLetter(j), a) in WithNested(m, i, ns)
    ensures WithNested(m, i, ns)[NestedColumn(i, NestedLetter(j), a)] == Cell(ns[j], a)
    decreases |ns|
  {
    var n := |ns| - 1;
    var prev := WithNested(m, i, ns[..n]);
    assert WithNested(m, i, ns) == NestedCells(prev, i, NestedLetter(n), ns[n]);
    NestedCellsAt(prev, i, NestedLetter(n), ns[n], NestedColumn(i, NestedLetter(j), a));
    if j < n {
      WithNestedCell(m, i, ns[..n], j, a);
      assert ns[..n][j] == ns[j];
    }
  }

  /** The three cells of one nested entry, and every other column as it was. */
  lemma NestedCellsAt(m: Row, i: nat, l: char, sp: Dict, c: Column)
    ensures c in NestedCells(m, i, l, sp) <==> c in m || (c.NestedColumn? && c.part == i && c.letter == l)
    ensures c.NestedColumn? && c.part == i && c.letter == l ==> NestedCells(m, i, l, sp)[c] == Cell(sp, c.attr)
    ensures c in m && !(c.NestedColumn? && c.part == i && c.letter == l) ==> NestedCells(m, i, l, sp)[c] == m[c]
  {
    if c.NestedColumn? && c.part == i && c.letter == l {
      match c.attr
      case AQuestion =>
      case ASolution =>
      case AAnswer =>
    }
  }

  /** One subpart: its three cells, then those of its nested entries. */
  function WithPart(m: Row, i: nat, p: Part): Row
    requires |p.nested| <= 0xD800 - 97
  {
    WithNested(PartCells(m, i, p.fields), i, p.nested)
  }

  /** The columns the subparts `parts` contribute. */
  predicate SubpartKey(parts: seq<Part>, c: Column) {
    || (c.SubpartColumn? && c.part < |parts|)
    || (c.NestedColumn? && c.part < |parts| && 97 <= c.letter as int < 97 + |parts[c.part].nested|)
  }

  function WithSubparts(m: Row, parts: seq<Part>): Row
    requires Lettered(parts)
    decreases |parts|
  {
    if parts == [] then m
    else
      var n := |parts| - 1;
      WithPart(WithSubparts(m, parts[..n]), n, parts[n])
  }

  /** One subpart adds its three cells and the cells of its nested entries. */
  lemma WithPartHas(m: Row, i: nat, p: Part, c: Column)
    requires |p.nested| <= 0xD800 - 97
    ensures c in WithPart(m, i, p) <==>
      (|| c in m
       || (c.SubpartColumn? && c.part == i)
       || (c.NestedColumn? && c.part == i && 97 <= c.letter as int < 97 + |p.nested|))
    ensures c in m && !((c.SubpartColumn? || c.NestedColumn?) && c.part == i) ==> WithPart(m, i, p)[c] == m[c]
  {
    WithNestedHas(PartCells(m, i, p.fields), i, p.nested, c);
    if c.SubpartColumn? && c.part == i {
      match c.attr
      case AQuestion =>
      case ASolution =>
      case AAnswer =>
    }
  }

  lemma WithPartCell(m: Row, i: nat, p: Part, a: Attr)
    requires |p.nested| <= 0xD800 - 97
    ensures SubpartColumn(i, a) in WithPart(m, i, p)
    ensures WithPart(m, i, p)[SubpartColumn(i, a)] == Cell(p.fields, a)
  {
    WithNestedHas(PartCells(m, i, p.fields), i, p.nested, SubpartColumn(i, a));
    match a
    case AQuestion =>
    case ASolution =>
    case AAnswer =>
  }

  /** The subpart loop adds exactly the subpart columns and leaves the others alone. */
  lemma {:induction false} WithSubpartsHas(m: Row, parts: seq<Part>, c: Column)
    requires Lettered(parts)
    ensures c in WithSubparts(m, parts) <==> c in m || SubpartKey(parts, c)
    ensures c in m && !c.SubpartColumn? && !c.NestedColumn? ==> WithSubparts(m, parts)[c] == m[c]
    decreases |parts|
  {
    if parts != [] {
      var n := |parts| - 1;
      var init := parts[..n];
      WithSubpartsHas(m, init, c);
      WithPartHas(WithSubparts(m, init), n, parts[n], c);
      if (c.SubpartColumn? || c.NestedColumn?) && c.part < n {
        assert init[c.part] == parts[c.part];
      }
    }
  }

  /** Subpart `i` yields `subpart_{i + 1}_question/_solution/_answer`; missing fields become `""`. */
  lemma {:induction false} WithSubpartsCell(m: Row, parts: seq<Part>, i: nat, a: Attr)
    requires Lettered(parts) && i < |parts|
    ensures SubpartColumn(i, a) in WithSubparts(m, parts)
    ensures WithSubparts(m, parts)[SubpartColumn(i, a)] == Cell(parts[i].fields, a)
    decreases |parts|
  {
    var n := |parts| - 1;
    var init := parts[..n];
    if i < n {
      WithSubpartsCell(m, init, i, a);
      assert init[i] == parts[i];
      WithPartHas(WithSubparts(m, init), n, parts[n], SubpartColumn(i, a));
    } else {
      WithPartCell(WithSubparts(m, init), n, parts[n], a);
    }
  }

  /** Nested entry `j` of subpart `i` yields `subpart_{i + 1}_{chr(97 + j)}_*`; missing fields become `""`. */
  lemma {:induction false} WithSubpartsNested(m: Row, parts: seq<Part>, i: nat, j: nat, a: Attr)
    requires Lettered(parts) && i < |parts| && j < |parts[i].nested|
    ensures NestedColumn(i, NestedLetter(j), a) in WithSubparts(m, parts)
    ensures WithSubparts(m, parts)[NestedColumn(i, NestedLetter(j), a)] == Cell(parts[i].nested[j], a)
    decreases |parts|
  {
    var n := |parts| - 1;
    var init := parts[..n];
    assert Lettered(init) by {
      forall k | 0 <= k < n ensures |init[k].nested| <= 0xD800 - 97 {
        assert init[k] == parts[k];
      }
    }
    var prev := WithSubparts(m, init);
    var col := NestedColumn(i, NestedLetter(j), a);
    assert WithSubparts(m, parts) == WithPart(prev, n, parts[n]);
    if i < n {
      assert init[i] == parts[i];
      WithSubpartsNested(m, init, i, j, a);
      WithPartHas(prev, n, parts[n], col);
    } else {
      WithNestedCell(PartCells(prev, n, parts[n].fields), n, parts[n].nested, j, a);
    }
  }

  /** `flatten_question(question, q_type)`. */
  function FlatOf(q: Dict, qType: Json): Row
    requires Flattenable(q, qType)
  {
    var base := BaseRow(q, qType);
    var withOptions :=
      if qType == JStr("objectives") && "options" in Keys(q)
      then WithOptions(base, Get(q, "options").value.fields) else base;
    if qType == JStr("theory") && "subparts" in Keys(q)
    then WithSubparts(withOptions, PartsView(Get(q, "subparts").value.items))
    else withOptions
  }

  /** `question.get(...)`: base cells default to `""`, `number` and `question` to `None`. */
  lemma BaseRowColumns(q: Dict, qType: Json)
    requires DiagramsListed(q)
    ensures var r := BaseRow(q, qType);
      && (forall c :: c in r <==> c.BaseColumn?)
      && r[BaseColumn(TypeField)] == qType
      && r[BaseColumn(NumberField)] == (if "number" in Keys(q) then Get(q, "number").value else JNull)
      && r[BaseColumn(QuestionField)] == (if "question" in Keys(q) then Get(q, "question").value else JNull)
      && r[BaseColumn(SolutionField)] == (if "solution" in Keys(q) then Get(q, "solution").value else JStr(""))
      && r[BaseColumn(AnswerField)] == (if "answer" in Keys(q) then Get(q, "answer").value else JStr(""))
      && r[BaseColumn(DiagramsField)] == JStr(DiagramsCell(q))
  {
    var r := BaseRow(q, qType);
    forall c: Column | c.BaseColumn? ensures c in r {
      match c.field
      case TypeField =>
      case NumberField =>
      case QuestionField =>
      case SolutionField =>
      case AnswerField =>
      case DiagramsField =>
    }
  }

  /** The diagrams cell splits back on `|` into the URL list when no URL holds a `|`. */
  lemma DiagramsCellSplits(q: Dict)
    requires DiagramsListed(q) && "diagrams" in Keys(q)
    requires Strings(Get(q, "diagrams").value) != []
    requires forall k :: 0 <= k < |Strings(Get(q, "diagrams").value)| ==> '|' !in Strings(Get(q, "diagrams").value)[k]
    ensures Split(DiagramsCell(q), '|') == Strings(Get(q, "diagrams").value)
  {
    SplitJoin(Strings(Get(q, "diagrams").value), '|');
  }

  /** Which columns a flattened record has. */
  predicate FlatKey(q: Dict, qType: Json, c: Column)
    requires Flattenable(q, qType)
  {
    match c
    case BaseColumn(_) => true
    case OptionColumn(k) =>
      qType == JStr("objectives") && "options" in Keys(q) && k in Keys(Get(q, "options").value.fields)
    case _ =>
      qType == JStr("theory") && "subparts" in Keys(q) && SubpartKey(PartsView(Get(q, "subparts").value.items), c)
  }

  /**
   * The six base fields are always there, with their `question.get`
   * values; an `option_{k}` column exists exactly for the option keys of an
   * `objectives` record, subpart columns exactly for the subparts of a
   * `theory` record.
   */
  lemma FlatHas(q: Dict, qType: Json, c: Column)
    requires Flattenable(q, qType)
    ensures c in FlatOf(q, qType) <==> FlatKey(q, qType, c)
    ensures c.BaseColumn? ==> c in BaseRow(q, qType) && FlatOf(q, qType)[c] == BaseRow(q, qType)[c]
  {
    var base := BaseRow(q, qType);
    BaseRowColumns(q, qType);
    var withOptions := base;
    if qType == JStr("objectives") && "options" in Keys(q) {
      WithOptionsHas(base, Get(q, "options").value.fields, c);
      withOptions := WithOptions(base, Get(q, "options").value.fields);
    }
    if qType == JStr("theory") && "subparts" in Keys(q) {
      WithSubpartsHas(withOptions, PartsView(Get(q, "subparts").value.items), c);
    }
  }

  /** An `objectives` record's option column holds the option's value (the last one, if a key repeats). */
  lemma FlatOptionCell(q: Dict, qType: Json, i: nat)
    requires Flattenable(q, qType) && qType == JStr("objectives") && "options" in Keys(q)
    requires i < |Get(q, "options").value.fields| && LastOfKey(Get(q, "options").value.fields, i)
    ensures var opt := Get(q, "options").value.fields[i];
      OptionColumn(opt.0) in FlatOf(q, qType) && FlatOf(q, qType)[OptionColumn(opt.0)] == opt.1
  {
    WithOptionsCell(BaseRow(q, qType), Get(q, "options").value.fields, i);
  }

  /** A `theory` record's subpart `i` fills `subpart_{i + 1}_*` from its own fields, `""` when missing. */
  lemma FlatSubpartCell(q: Dict, qType: Json, i: nat, a: Attr)
    requires Flattenable(q, qType) && qType == JStr("theory") && "subparts" in Keys(q)
    requires i < |Get(q, "subparts").value.items|
    ensures var sp := Get(q, "subparts").value.items[i].fields;
      SubpartColumn(i, a) in FlatOf(q, qType)
      && FlatOf(q, qType)[SubpartColumn(i, a)] == GetOr(sp, AttrName(a), JStr(""))
  {
    WithSubpartsCell(BaseRow(q, qType), PartsView(Get(q, "subparts").value.items), i, a);
  }

  /** Nested entry `j` of subpart `i` fills `subpart_{i + 1}_{chr(97 + j)}_*`, `""` when missing. */
  lemma FlatNestedCell(q: Dict, qType: Json, i: nat, j: nat, a: Attr)
    requires Flattenable(q, qType) && qType == JStr("theory") && "subparts" in Keys(q)
    requires i < |Get(q, "subparts").value.items|
    requires j < |NestedView(Get(q, "subparts").value.items[i].fields)|
    ensures var entry := NestedView(Get(q, "subparts").value.items[i].fields)[j];
      NestedColumn(i, NestedLetter(j), a) in FlatOf(q, qType)
      && FlatOf(q, qType)[NestedColumn(i, NestedLetter(j), a)] == GetOr(entry, AttrName(a), JStr(""))
  {
    WithSubpartsNested(BaseRow(q, qType), PartsView(Get(q, "subparts").value.items), i, j, a);
  }

  /** `flatten_question`, assigning the row's keys one at a time. */
  method FlattenQuestion(question: Dict, qType: Json) returns (flat: Row)
    requires Flattenable(question, qType)
    ensures flat == FlatOf(question, qType)
  {
    flat := BaseRow(question, qType);
    if qType == JStr("objectives") && "options" in Keys(question) {
      flat := FlattenOptions(flat, Get(question, "options").value.fields);
    }
    if qType == JStr("theory") && "subparts" in Keys(question) {
      flat := FlattenSubparts(flat, Get(question, "subparts").value.items);
    }
  }

  /** The subpart loop of `flatten_question`. */
  method FlattenSubparts(flat0: Row, subparts: seq<Json>) returns (flat: Row)
    requires SubpartsListed(subparts)
    ensures flat == WithSubparts(flat0, PartsView(subparts))
  {
    flat := flat0;
    ghost var parts := PartsView(subparts);
    for i := 0 to |subparts|
      invariant flat == WithSubparts(flat0, parts[..i])
    {
      WithSubpartsStep(flat0, parts, i);
      assert parts[i] == Part(subparts[i].fields, NestedView(subparts[i].fields));
      flat := FlattenPart(flat, i, subparts[i].fields);
    }
    assert parts[..|subparts|] == parts;
  }

  lemma WithSubpartsStep(m: Row, parts: seq<Part>, i: nat)
    requires Lettered(parts) && i < |parts|
    ensures Lettered(parts[..i]) && Lettered(parts[..i + 1])
    ensures WithSubparts(m, parts[..i + 1]) == WithPart(WithSubparts(m, parts[..i]), i, parts[i])
  {
    assert parts[..i + 1][..i] == parts[..i];
  }

  /** The body of the subpart loop: three cells, then the nested entries. */
  method FlattenPart(flat0: Row, i: nat, subpart: Dict) returns (flat: Row)
    requires NestedListed(subpart)
    ensures flat == WithPart(flat0, i, Part(subpart, NestedView(subpart)))
  {
    flat := flat0[SubpartColumn(i, AQuestion) := GetOr(subpart, "question", JStr(""))];
    flat := flat[SubpartColumn(i, ASolution) := GetOr(subpart, "solution", JStr(""))];
    flat := flat[SubpartColumn(i, AAnswer) := GetOr(subpart, "answer", JStr(""))];
    ghost var ns := NestedView(subpart);
    if "subparts" in Keys(subpart) {
      var nested := Get(subpart, "subparts").value.items;
      ghost var partStart := flat;
      for j := 0 to |nested|
        invariant flat == WithNested(partStart, i, ns[..j])
      {
        assert ns[..j + 1][..j] == ns[..j];
        var letter := (97 + j) as char;
        var entry := nested[j].fields;
        assert ns[j] == entry;
        flat := flat[NestedColumn(i, letter, AQuestion) := GetOr(entry, "question", JStr(""))];
        flat := flat[NestedColumn(i, letter, ASolution) := GetOr(entry, "solution", JStr(""))];
        flat := flat[NestedColumn(i, letter, AAnswer) := GetOr(entry, "answer", JStr(""))];
      }
      assert ns[..|nested|] == ns;
    }
  }

  /** The option loop: `flat[f"option_{opt_key}"] = opt_value`. */
  method FlattenOptions(flat0: Row, options: Dict) returns (flat: Row)
    ensures flat == WithOptions(flat0, options)
  {
    flat := flat0;
    for k := 0 to |options|
      invariant flat == WithOptions(flat0, options[..k])
    {
      assert options[..k + 1][..k] == options[..k];
      flat := flat[OptionColumn(options[k].0) := options[k].1];
    }
    assert options[..|options|] == options;
  }
}
