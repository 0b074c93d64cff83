/**
 * `restructure_json` without its file I/O: scraped question records are
 * bucketed by type (`mcq` becomes `objectives`), stripped of their
 * `section` and `type` tags and counted; every bucketed record is
 * flattened into a CSV row, and the CSV header is the union of the row
 * keys in the order of the key `(group, name)`.
 */
module Restructure {
  import opened Wrappers
  import opened JsonModel
  import opened Text
  import opened Sorting
  import opened Columns
  import opened Flatten

  // ---------------------------------------------------------------------
  // Bucketing and counting
  // ---------------------------------------------------------------------

  /** `question.get("type")`, renamed to `objectives` when `mcq`; no bucket when falsy. */
  function BucketKey(q: Dict): (k: Option<Json>)
    ensures k.Some? ==> Truthy(k.value) && k.value != JStr("mcq")
    ensures GetOr(q, "type", JNull) == JStr("mcq") ==> k == Some(JStr("objectives"))
  {
    var t := GetOr(q, "type", JNull);
    var t' := if t == JStr("mcq") then JStr("objectives") else t;
    if Truthy(t') then Some(t') else None
  }

  /** A list or a dictionary cannot be a dictionary key. */
  predicate Hashable(j: Json) {
    !j.JArr? && !j.JObj?
  }

  /** `question.copy()` with `section` and `type` popped. */
  function Cleaned(q: Dict): (r: Dict)
    ensures Keys(r) == Keys(q) - {"section", "type"}
    ensures forall k :: k != "section" && k != "type" ==> Get(r, k) == Get(q, k)
  {
    Remove(Remove(q, "section"), "type")
  }

  /** How many records have `type` equal to `t`. */
  function CountType(data: seq<Dict>, t: Json): (n: nat)
    ensures n <= |data|
  {
    if data == [] then 0
    else
      var last := data[|data| - 1];
      CountType(data[..|data| - 1], t) + (if GetOr(last, "type", JNull) == t then 1 else 0)
  }

  /** The cleaned records of bucket `k`, in input order. */
  function Bucket(data: seq<Dict>, k: Json): (b: seq<Dict>)
    ensures |b| <= |data|
    ensures forall r :: r in b ==> "section" !in Keys(r) && "type" !in Keys(r)
  {
    if data == [] then []
    else
      var last := data[|data| - 1];
      Bucket(data[..|data| - 1], k) + (if BucketKey(last) == Some(k) then [Cleaned(last)] else [])
  }

  /** How many records have a falsy type and go to no bucket. */
  function Unbucketed(data: seq<Dict>): nat {
    if data == [] then 0
    else Unbucketed(data[..|data| - 1]) + (if BucketKey(data[|data| - 1]).None? then 1 else 0)
  }

  /** The bucket names in the order they first appear: the key order of `restructured_data`. */
  function KeyOrder(data: seq<Dict>): seq<Json> {
    if data == [] then []
    else
      var order := KeyOrder(data[..|data| - 1]);
      var k := BucketKey(data[|data| - 1]);
      if k.Some? && k.value !in order then order + [k.value] else order
  }

  lemma KeyOrderSnoc(d: seq<Dict>, q: Dict)
    ensures KeyOrder(d + [q]) ==
      if BucketKey(q).Some? && BucketKey(q).value !in KeyOrder(d) then KeyOrder(d) + [BucketKey(q).value] else KeyOrder(d)
  {
    assert (d + [q])[..|d|] == d;
  }

  /** Each bucket name appears once in the order, and exactly the names of non-empty buckets do. */
  lemma {:induction false} KeyOrderMembers(data: seq<Dict>)
    ensures Distinct(KeyOrder(data))
    ensures forall k :: k in KeyOrder(data) <==> Bucket(data, k) != []
  {
    if data != [] {
      var d := data[..|data| - 1];
      var q := data[|data| - 1];
      KeyOrderMembers(d);
      var order := KeyOrder(d);
      if BucketKey(q).Some? && BucketKey(q).value !in order {
        var o2 := order + [BucketKey(q).value];
        forall i, j | 0 <= i < j < |o2| ensures o2[i] != o2[j] {
          if j < |order| {
            assert o2[i] == order[i] && o2[j] == order[j];
          } else {
            assert o2[i] == order[i] && order[i] in order;
          }
        }
      }
      forall k ensures k in KeyOrder(data) <==> Bucket(data, k) != [] {
        assert Bucket(data, k) == Bucket(d, k) + (if BucketKey(q) == Some(k) then [Cleaned(q)] else []);
      }
    }
  }

  /** How many records have a truthy value under `key` (`record.get(key)`). */
  function CountTruthy(records: seq<Dict>, key: string): (n: nat)
    ensures n <= |records|
  {
    if records == [] then 0
    else
      var last := records[|records| - 1];
      CountTruthy(records[..|records| - 1], key) + (if Truthy(GetOr(last, key, JNull)) then 1 else 0)
  }

  /** The total size of the buckets listed in `order`. */
  function SumSizes(order: seq<Json>, buckets: map<Json, seq<Dict>>): nat
    requires forall k :: k in order ==> k in buckets
  {
    if order == [] then 0
    else SumSizes(order[..|order| - 1], buckets) + |buckets[order[|order| - 1]]|
  }

  predicate Distinct<T(==)>(s: seq<T>) {
    forall i, j :: 0 <= i < j < |s| ==> s[i] != s[j]
  }

  /** Growing one listed bucket by one record grows the total by one. */
  lemma {:induction false} SumSizesGrow(order: seq<Json>, buckets: map<Json, seq<Dict>>, k: Json, r: Dict)
    requires forall x :: x in order ==> x in buckets
    requires Distinct(order) && k in order
    ensures SumSizes(order, buckets[k := buckets[k] + [r]]) == SumSizes(order, buckets) + 1
    decreases |order|
  {
    var n := |order| - 1;
    var init := order[..n];
    if order[n] != k {
      assert k in init by {
        var i :| 0 <= i < |order| && order[i] == k;
        assert i < n && init[i] == k;
      }
      SumSizesGrow(init, buckets, k, r);
    } else {
      assert k !in init;
      SumSizesOther(init, buckets, k, buckets[k] + [r]);
    }
  }

  /** Changing a bucket that is not listed leaves the total alone. */
  lemma {:induction false} SumSizesOther(order: seq<Json>, buckets: map<Json, seq<Dict>>, k: Json, b: seq<Dict>)
    requires forall x :: x in order ==> x in buckets
    requires k !in order
    ensures SumSizes(order, buckets[k := b]) == SumSizes(order, buckets)
    decreases |order|
  {
    if order != [] {
      SumSizesOther(order[..|order| - 1], buckets, k, b);
    }
  }

  /** `restructured_data[t].append(r)` on a `defaultdict(list)`. */
  function Appended(buckets: map<Json, seq<Dict>>, t: Json, r: Dict): map<Json, seq<Dict>> {
    buckets[t := (if t in buckets then buckets[t] else []) + [r]]
  }

  /** `counter[t] += 1` on a `defaultdict(int)` when `hit`. */
  function Bumped(counter: map<Json, nat>, t: Json, hit: bool): map<Json, nat> {
    if hit then counter[t := (if t in counter then counter[t] else 0) + 1] else counter
  }

  /** `buckets` holds exactly the non-empty buckets of the records `d`. */
  ghost predicate Bucketed(d: seq<Dict>, buckets: map<Json, seq<Dict>>) {
    && (forall k :: k in buckets <==> Bucket(d, k) != [])
    && (forall k :: k in buckets ==> buckets[k] == Bucket(d, k))
  }

  /** `counter` holds, per bucket of `d`, how many of its records have a truthy `key`, when any do. */
  ghost predicate Counted(d: seq<Dict>, counter: map<Json, nat>, key: string) {
    && (forall k :: k in counter <==> CountTruthy(Bucket(d, k), key) > 0)
    && (forall k :: k in counter ==> counter[k] == CountTruthy(Bucket(d, k), key))
  }

  /** The buckets and the two per-bucket counters after the records `d`. */
  ghost predicate Tallied(d: seq<Dict>, buckets: map<Json, seq<Dict>>, withDiagrams: map<Json, nat>, withSolutions: map<Json, nat>) {
    Bucketed(d, buckets) && Counted(d, withDiagrams, "diagrams") && Counted(d, withSolutions, "solution")
  }

  lemma CountTruthySnoc(b: seq<Dict>, r: Dict, key: string)
    ensures CountTruthy(b + [r], key) == CountTruthy(b, key) + (if Truthy(GetOr(r, key, JNull)) then 1 else 0)
  {
    assert (b + [r])[..|b|] == b;
  }

  lemma BucketSnoc(d: seq<Dict>, q: Dict, k: Json)
    ensures Bucket(d + [q], k) == Bucket(d, k) + (if BucketKey(q) == Some(k) then [Cleaned(q)] else [])
  {
    assert (d + [q])[..|d|] == d;
  }

  /** A record without a bucket leaves the tally alone. */
  lemma TalliedSkip(d: seq<Dict>, q: Dict, buckets: map<Json, seq<Dict>>, withDiagrams: map<Json, nat>, withSolutions: map<Json, nat>)
    requires BucketKey(q).None?
    requires Tallied(d, buckets, withDiagrams, withSolutions)
    ensures Tallied(d + [q], buckets, withDiagrams, withSolutions)
  {
    forall k ensures Bucket(d + [q], k) == Bucket(d, k) {
      BucketSnoc(d, q, k);
    }
  }

  lemma BucketedAdd(d: seq<Dict>, q: Dict, t: Json, buckets: map<Json, seq<Dict>>)
    requires BucketKey(q) == Some(t)
    requires Bucketed(d, buckets)
    ensures Bucketed(d + [q], Appended(buckets, t, Cleaned(q)))
  {
    forall k | k != t ensures Bucket(d + [q], k) == Bucket(d, k) {
      BucketSnoc(d, q, k);
    }
    BucketSnoc(d, q, t);
  }

  lemma CountedAt(d: seq<Dict>, q: Dict, t: Json, counter: map<Json, nat>, key: string, k: Json)
    requires BucketKey(q) == Some(t)
    requires Counted(d, counter, key)
    ensures var c := Bumped(counter, t, Truthy(GetOr(Cleaned(q), key, JNull)));
      && (k in c <==> CountTruthy(Bucket(d + [q], k), key) > 0)
      && (k in c ==> c[k] == CountTruthy(Bucket(d + [q], k), key))
  {
    BucketSnoc(d, q, k);
    assert k in counter <==> CountTruthy(Bucket(d, k), key) > 0;
    assert k in counter ==> counter[k] == CountTruthy(Bucket(d, k), key);
    if k == t {
      var hit := Truthy(GetOr(Cleaned(q), key, JNull));
      CountTruthySnoc(Bucket(d, t), Cleaned(q), key);
      assert Bucket(d + [q], k) == Bucket(d, k) + [Cleaned(q)];
      assert CountTruthy(Bucket(d + [q], k), key) == CountTruthy(Bucket(d, k), key) + (if hit then 1 else 0);
    } else {
      assert Bucket(d + [q], k) == Bucket(d, k);
      var c := Bumped(counter, t, Truthy(GetOr(Cleaned(q), key, JNull)));
      assert k in c <==> k in counter;
      assert k in c ==> c[k] == counter[k];
    }
  }

  lemma CountedAdd(d: seq<Dict>, q: Dict, t: Json, counter: map<Json, nat>, key: string)
    requires BucketKey(q) == Some(t)
    requires Counted(d, counter, key)
    ensures Counted(d + [q], Bumped(counter, t, Truthy(GetOr(Cleaned(q), key, JNull))), key)
  {
    forall k {
      CountedAt(d, q, t, counter, key, k);
    }
  }

  /** A record of bucket `t` is appended to it and counted in it. */
  lemma TalliedAdd(d: seq<Dict>, q: Dict, t: Json, buckets: map<Json, seq<Dict>>, withDiagrams: map<Json, nat>, withSolutions: map<Json, nat>)
    requires BucketKey(q) == Some(t)
    requires Tallied(d, buckets, withDiagrams, withSolutions)
    ensures Tallied(d + [q], Appended(buckets, t, Cleaned(q)),
                    Bumped(withDiagrams, t, Truthy(GetOr(Cleaned(q), "diagrams", JNull))),
                    Bumped(withSolutions, t, Truthy(GetOr(Cleaned(q), "solution", JNull))))
  {
    BucketedAdd(d, q, t, buckets);
    CountedAdd(d, q, t, withDiagrams, "diagrams");
    CountedAdd(d, q, t, withSolutions, "solution");
  }

  lemma CountTypeSnoc(d: seq<Dict>, q: Dict, t: Json)
    ensures CountType(d + [q], t) == CountType(d, t) + (if GetOr(q, "type", JNull) == t then 1 else 0)
  {
    assert (d + [q])[..|d|] == d;
  }

  lemma UnbucketedSnoc(d: seq<Dict>, q: Dict)
    ensures Unbucketed(d + [q]) == Unbucketed(d) + (if BucketKey(q).None? then 1 else 0)
  {
    assert (d + [q])[..|d|] == d;
  }

  /** The `for question in data` loop of `restructure_json`. */
  method BucketRecords(data: seq<Dict>)
    returns (buckets: map<Json, seq<Dict>>, order: seq<Json>, total: nat, objective: nat, theory: nat,
             withDiagrams: map<Json, nat>, withSolutions: map<Json, nat>)
    // The bucket key goes into a dictionary, which a list or dictionary type cannot.
    requires forall i :: 0 <= i < |data| && BucketKey(data[i]).Some? ==> Hashable(BucketKey(data[i]).value)
    ensures total == |data|
    ensures objective == CountType(data, JStr("mcq")) && theory == CountType(data, JStr("theory"))
    ensures Distinct(order) && forall k :: k in order <==> k in buckets
    ensures order == KeyOrder(data)
    ensures Tallied(data, buckets, withDiagrams, withSolutions)
    ensures forall k :: k in withDiagrams ==> k in buckets && withDiagrams[k] <= |buckets[k]|
    ensures forall k :: k in withSolutions ==> k in buckets && withSolutions[k] <= |buckets[k]|
    ensures total == Unbucketed(data) + SumSizes(order, buckets)
  {
    buckets, order := map[], [];
    total, objective, theory := 0, 0, 0;
    withDiagrams, withSolutions := map[], map[];
    for i := 0 to |data|
      invariant Scanned(data[..i], buckets, order, total, objective, theory, withDiagrams, withSolutions)
    {
      ghost var next := data[..i + 1];
      assert next == data[..i] + [data[i]];
      buckets, order, total, objective, theory, withDiagrams, withSolutions :=
        ScanRecord(data[..i], data[i], next, buckets, order, total, objective, theory, withDiagrams, withSolutions);
    }
    assert data[..|data|] == data;
  }

  /** What one pass of the loop knows after the records `d`: the counts and the buckets. */
  ghost predicate Scanned(d: seq<Dict>, buckets: map<Json, seq<Dict>>, order: seq<Json>, total: nat, objective: nat, theory: nat,
                          withDiagrams: map<Json, nat>, withSolutions: map<Json, nat>)
  {
    && total == |d|
    && objective == CountType(d, JStr("mcq")) && theory == CountType(d, JStr("theory"))
    && Distinct(order) && (forall k :: k in order <==> k in buckets)
    && order == KeyOrder(d)
    && Tallied(d, buckets, withDiagrams, withSolutions)
    && total == Unbucketed(d) + SumSizes(order, buckets)
  }

  /** One pass of the loop over the records: classify `question`, then bucket and count it. */
  method ScanRecord(ghost d: seq<Dict>, question: Dict, ghost next: seq<Dict>,
                    buckets0: map<Json, seq<Dict>>, order0: seq<Json>, total0: nat, objective0: nat, theory0: nat,
                    withDiagrams0: map<Json, nat>, withSolutions0: map<Json, nat>)
    returns (buckets: map<Json, seq<Dict>>, order: seq<Json>, total: nat, objective: nat, theory: nat,
             withDiagrams: map<Json, nat>, withSolutions: map<Json, nat>)
    requires next == d + [question]
    requires Scanned(d, buckets0, order0, total0, objective0, theory0, withDiagrams0, withSolutions0)
    ensures Scanned(next, buckets, order, total, objective, theory, withDiagrams, withSolutions)
  {
    var questionType;
    questionType, objective, theory := ClassifyRecord(d, question, next, objective0, theory0);
    buckets, order, total, withDiagrams, withSolutions :=
      TallyRecord(d, question, next, questionType, buckets0, order0, total0, withDiagrams0, withSolutions0);
  }

  /** The start of one pass: `question.get("type")`, renamed and counted when `mcq`, counted when `theory`. */
  method ClassifyRecord(ghost d: seq<Dict>, question: Dict, ghost next: seq<Dict>, objective0: nat, theory0: nat)
    returns (questionType: Json, objective: nat, theory: nat)
    requires next == d + [question]
    requires objective0 == CountType(d, JStr("mcq")) && theory0 == CountType(d, JStr("theory"))
    ensures objective == CountType(next, JStr("mcq")) && theory == CountType(next, JStr("theory"))
    ensures if Truthy(questionType) then BucketKey(question) == Some(questionType) else BucketKey(question).None?
  {
    CountTypeSnoc(d, question, JStr("mcq"));
    CountTypeSnoc(d, question, JStr("theory"));
    objective, theory := objective0, theory0;
    questionType := GetOr(question, "type", JNull);
    if questionType == JStr("mcq") {
      questionType := JStr("objectives");
      objective := objective + 1;
    } else if questionType == JStr("theory") {
      theory := theory + 1;
    }
  }

  /** The `if question_type:` part of one pass: a record with a type goes to that bucket, cleaned. */
  method TallyRecord(ghost d: seq<Dict>, question: Dict, ghost next: seq<Dict>, questionType: Json, buckets0: map<Json, seq<Dict>>, order0: seq<Json>,
                     total0: nat, withDiagrams0: map<Json, nat>, withSolutions0: map<Json, nat>)
    returns (buckets: map<Json, seq<Dict>>, order: seq<Json>, total: nat, withDiagrams: map<Json, nat>, withSolutions: map<Json, nat>)
    requires if Truthy(questionType) then BucketKey(question) == Some(questionType) else BucketKey(question).None?
    requires Distinct(order0) && forall k :: k in order0 <==> k in buckets0
    requires Tallied(d, buckets0, withDiagrams0, withSolutions0)
    requires next == d + [question]
    requires order0 == KeyOrder(d)
    requires total0 == Unbucketed(d) + SumSizes(order0, buckets0)
    ensures Distinct(order) && forall k :: k in order <==> k in buckets
    ensures order == KeyOrder(next)
    ensures Tallied(next, buckets, withDiagrams, withSolutions)
    ensures SumSizes(order, buckets) == SumSizes(order0, buckets0) + (if BucketKey(question).Some? then 1 else 0)
    ensures total == total0 + 1 && total == Unbucketed(next) + SumSizes(order, buckets)
  {
    KeyOrderSnoc(d, question);
    UnbucketedSnoc(d, question);
    total := total0 + 1;
    if Truthy(questionType) {
      var cleaned := Cleaned(question);
      TalliedAdd(d, question, questionType, buckets0, withDiagrams0, withSolutions0);
      buckets, order, withDiagrams, withSolutions :=
        AddToBucket(buckets0, order0, withDiagrams0, withSolutions0, questionType, cleaned);
    } else {
      TalliedSkip(d, question, buckets0, withDiagrams0, withSolutions0);
      buckets, order, withDiagrams, withSolutions := buckets0, order0, withDiagrams0, withSolutions0;
    }
  }

  /** `restructured_data[t].append(r)` and the two counters of bucket `t`. */
  method AddToBucket(buckets0: map<Json, seq<Dict>>, order0: seq<Json>,
                     withDiagrams0: map<Json, nat>, withSolutions0: map<Json, nat>, t: Json, r: Dict)
    returns (buckets: map<Json, seq<Dict>>, order: seq<Json>, withDiagrams: map<Json, nat>, withSolutions: map<Json, nat>)
    requires Distinct(order0) && forall k :: k in order0 <==> k in buckets0
    ensures Distinct(order) && forall k :: k in order <==> k in buckets
    ensures order == if t in buckets0 then order0 else order0 + [t]
    ensures buckets == Appended(buckets0, t, r)
    ensures withDiagrams == Bumped(withDiagrams0, t, Truthy(GetOr(r, "diagrams", JNull)))
    ensures withSolutions == Bumped(withSolutions0, t, Truthy(GetOr(r, "solution", JNull)))
    ensures SumSizes(order, buckets) == SumSizes(order0, buckets0) + 1
  {
    if t in buckets0 {
      order := order0;
      SumSizesGrow(order, buckets0, t, r);
    } else {
      order := order0 + [t];
      assert order[..|order0|] == order0;
      SumSizesOther(order0, buckets0, t, [r]);
      assert [] + [r] == [r];
      assert Appended(buckets0, t, r) == buckets0[t := [r]];
    }
    buckets := Appended(buckets0, t, r);
    withDiagrams := Bumped(withDiagrams0, t, Truthy(GetOr(r, "diagrams", JNull)));
    withSolutions := Bumped(withSolutions0, t, Truthy(GetOr(r, "solution", JNull)));
  }

  /** Every `mcq` or `objectives` record lands in the `objectives` bucket, and only those. */
  lemma {:induction false} ObjectivesBucketSize(data: seq<Dict>)
    ensures |Bucket(data, JStr("objectives"))| == CountType(data, JStr("mcq")) + CountType(data, JStr("objectives"))
  {
    if data != [] {
      ObjectivesBucketSize(data[..|data| - 1]);
    }
  }

  /** Every `theory` record lands in the `theory` bucket, and only those. */
  lemma {:induction false} TheoryBucketSize(data: seq<Dict>)
    ensures |Bucket(data, JStr("theory"))| == CountType(data, JStr("theory"))
  {
    if data != [] {
      TheoryBucketSize(data[..|data| - 1]);
    }
  }

  // ---------------------------------------------------------------------
  // Rows
  // ---------------------------------------------------------------------

  /** Every record that gets a bucket can be flattened under that bucket's name. */
  ghost predicate AllFlattenable(data: seq<Dict>) {
    forall i :: 0 <= i < |data| && BucketKey(data[i]).Some? ==> Flattenable(data[i], BucketKey(data[i]).value)
  }

  ghost predicate BucketsFlattenable(buckets: map<Json, seq<Dict>>) {
    forall k, r :: k in buckets && r in buckets[k] ==> Flattenable(r, k)
  }

  /** Dropping `section` and `type` keeps a record flattenable. */
  lemma CleanedFlattenable(q: Dict, t: Json)
    requires Flattenable(q, t)
    ensures Flattenable(Cleaned(q), t)
  {
    var r := Cleaned(q);
    assert Get(r, "diagrams") == Get(q, "diagrams");
    assert Get(r, "options") == Get(q, "options");
    assert Get(r, "subparts") == Get(q, "subparts");
  }

  lemma {:induction false} BucketFlattenable(data: seq<Dict>, k: Json)
    requires AllFlattenable(data)
    ensures forall r :: r in Bucket(data, k) ==> Flattenable(r, k)
  {
    if data != [] {
      var n := |data| - 1;
      BucketFlattenable(data[..n], k);
      if BucketKey(data[n]) == Some(k) {
        CleanedFlattenable(data[n], k);
      }
    }
  }

  /** The rows of one bucket, in record order. */
  function BucketRows(records: seq<Dict>, k: Json): (rows: seq<Row>)
    requires forall r :: r in records ==> Flattenable(r, k)
    ensures |rows| == |records|
  {
    seq(|records|, j requires 0 <= j < |records| => FlatOf(records[j], k))
  }

  /** The rows of the buckets listed in `order`, bucket after bucket. */
  function AllRows(order: seq<Json>, buckets: map<Json, seq<Dict>>): seq<Row>
    requires forall k :: k in order ==> k in buckets
    requires BucketsFlattenable(buckets)
  {
    if order == [] then []
    else
      var k := order[|order| - 1];
      AllRows(order[..|order| - 1], buckets) + BucketRows(buckets[k], k)
  }

  /** One row per bucketed record. */
  lemma {:induction false} AllRowsCount(order: seq<Json>, buckets: map<Json, seq<Dict>>)
    requires forall k :: k in order ==> k in buckets
    requires BucketsFlattenable(buckets)
    ensures |AllRows(order, buckets)| == SumSizes(order, buckets)
  {
    if order != [] {
      AllRowsCount(order[..|order| - 1], buckets);
    }
  }

  /** The flattened records of the buckets named in `order`, each bucket its records in input order. */
  ghost function OrderRows(order: seq<Json>, data: seq<Dict>): seq<Row>
    requires AllFlattenable(data)
  {
    if order == [] then []
    else
      var k := order[|order| - 1];
      BucketFlattenable(data, k);
      OrderRows(order[..|order| - 1], data) + BucketRows(Bucket(data, k), k)
  }

  /** Flattening the collected buckets gives the rows of the records' own buckets. */
  lemma {:induction false} AllRowsOrderRows(order: seq<Json>, buckets: map<Json, seq<Dict>>, data: seq<Dict>)
    requires forall k :: k in order ==> k in buckets && buckets[k] == Bucket(data, k)
    requires BucketsFlattenable(buckets) && AllFlattenable(data)
    ensures AllRows(order, buckets) == OrderRows(order, data)
  {
    if order != [] {
      AllRowsOrderRows(order[..|order| - 1], buckets, data);
    }
  }

  /** The `flattened_data` loop of `restructure_json`. */
  method FlattenBuckets(order: seq<Json>, buckets: map<Json, seq<Dict>>) returns (rows: seq<Row>)
    requires forall k :: k in order ==> k in buckets
    requires BucketsFlattenable(buckets)
    ensures rows == AllRows(order, buckets)
  {
    rows := [];
    for i := 0 to |order|
      invariant rows == AllRows(order[..i], buckets)
    {
      var qType := order[i];
      var questions := buckets[qType];
      assert order[..i + 1][..i] == order[..i];
      ghost var done := rows;
      for j := 0 to |questions|
        invariant rows == done + BucketRows(questions[..j], qType)
      {
        var flat := FlattenQuestion(questions[j], qType);
        rows := rows + [flat];
      }
      assert questions[..|questions|] == questions;
    }
    assert order[..|order|] == order;
  }

  // ---------------------------------------------------------------------
  // CSV header
  // ---------------------------------------------------------------------

  function RowNames(row: Row): set<string> {
    set c | c in row.Keys :: ColumnName(c)
  }

  /** The union of the column names of all rows. */
  function AllNames(rows: seq<Row>): set<string> {
    if rows == [] then {} else AllNames(rows[..|rows| - 1]) + RowNames(rows[|rows| - 1])
  }

  lemma {:induction false} AllNamesIn(rows: seq<Row>, x: string)
    ensures x in AllNames(rows) <==> exists i, c :: 0 <= i < |rows| && c in rows[i] && ColumnName(c) == x
  {
    if rows != [] {
      var n := |rows| - 1;
      AllNamesIn(rows[..n], x);
      if x in AllNames(rows) {
        if x in AllNames(rows[..n]) {
          var i, c :| 0 <= i < n && c in rows[..n][i] && ColumnName(c) == x;
          assert c in rows[i];
        } else {
          var c :| c in rows[n] && ColumnName(c) == x;
        }
      } else {
        forall i, c | 0 <= i < |rows| && c in rows[i] ensures ColumnName(c) != x {
          if i < n {
            assert rows[..n][i] == rows[i];
          }
        }
      }
    }
  }

  lemma {:induction false} DistinctCount<T>(s: seq<T>, x: T)
    requires Distinct(s)
    ensures multiset(s)[x] <= 1
  {
    if s != [] {
      var n := |s| - 1;
      assert s == s[..n] + [s[n]];
      DistinctCount(s[..n], x);
      if s[n] == x {
        assert x !in s[..n];
      }
    }
  }

  /** A rearrangement of a sequence without repeats has no repeats. */
  lemma DistinctPermutation<T>(s: seq<T>, t: seq<T>)
    requires Distinct(s) && multiset(s) == multiset(t)
    ensures Distinct(t)
  {
    forall i, j | 0 <= i < j < |t| ensures t[i] != t[j] {
      if t[i] == t[j] {
        var x := t[i];
        assert t == t[..j] + [t[j]] + t[j + 1..];
        assert x in t[..j];
        assert multiset(t)[x] >= 2;
        DistinctCount(s, x);
        assert false;
      }
    }
  }

  /** `sorted(list(all_fieldnames), key=...)`: the header of the CSV file. */
  method OrderedFieldnames(rows: seq<Row>) returns (header: seq<string>)
    ensures Increasing(header)
    ensures forall x :: x in header <==> x in AllNames(rows)
  {
    var names: set<string> := {};
    for i := 0 to |rows|
      invariant names == AllNames(rows[..i])
    {
      assert rows[..i + 1][..i] == rows[..i];
      names := names + RowNames(rows[i]);
    }
    assert rows[..|rows|] == rows;
    var listed: seq<string> := [];
    var rest := names;
    while rest != {}
      invariant rest <= names && Distinct(listed)
      invariant forall x :: x in listed <==> x in names && x !in rest
      decreases |rest|
    {
      var x :| x in rest;
      listed := listed + [x];
      rest := rest - {x};
    }
    header := Sort(listed, FieldLe);
    FieldLeTotalPreorder();
    SortSorted(listed, FieldLe);
    DistinctPermutation(listed, header);
    forall i, j | 0 <= i < j < |header| ensures FieldLess(header[i], header[j]) {
      FieldLeDistinct(header[i], header[j]);
    }
    forall x ensures x in header <==> x in listed {
      assert x in header <==> x in multiset(header);
      assert x in listed <==> x in multiset(listed);
    }
  }

  // ---------------------------------------------------------------------
  // The whole restructuring step
  // ---------------------------------------------------------------------

  /** The `spider_stats` counters written to the metadata file. */
  datatype SpiderStats = SpiderStats(
    total: nat, objective: nat, theory: nat,
    withDiagrams: map<Json, nat>, withSolutions: map<Json, nat>)

  /**
   * `restructure_json` on already-loaded records: the statistics, the CSV
   * rows and the CSV header, which is absent when there are no rows.
   */
  method RestructureRecords(data: seq<Dict>) returns (stats: SpiderStats, rows: seq<Row>, header: Option<seq<string>>)
    requires forall i :: 0 <= i < |data| && BucketKey(data[i]).Some? ==> Hashable(BucketKey(data[i]).value)
    requires AllFlattenable(data)
    ensures stats.total == |data|
    ensures stats.objective == CountType(data, JStr("mcq")) && stats.theory == CountType(data, JStr("theory"))
    ensures Counted(data, stats.withDiagrams, "diagrams") && Counted(data, stats.withSolutions, "solution")
    ensures rows == OrderRows(KeyOrder(data), data)
    ensures |rows| == |data| - Unbucketed(data)
    ensures header.None? <==> rows == []
    ensures header.Some? ==> Increasing(header.value) && forall x :: x in header.value <==> x in AllNames(rows)
  {
    var buckets, order, total, objective, theory, withDiagrams, withSolutions := BucketRecords(data);
    stats := SpiderStats(total, objective, theory, withDiagrams, withSolutions);
    forall k, r | k in buckets && r in buckets[k] ensures Flattenable(r, k) {
      BucketFlattenable(data, k);
    }
    rows := FlattenBuckets(order, buckets);
    AllRowsCount(order, buckets);
    AllRowsOrderRows(order, buckets, data);
    if rows != [] {
      var names := OrderedFieldnames(rows);
      header := Some(names);
    } else {
      header := None;
    }
  }
}
