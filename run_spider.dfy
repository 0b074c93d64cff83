/**
 * `run_spider.py`: URL construction, the subject and year validators, the
 * `-S`/`-Y` argument parsers and the validation phase of
 * `run_batch_spider`. The current year is a parameter; the spider
 * subprocess and the post-processing of one combination are an oracle
 * `process(subject, year)` that reports success.
 */
module RunSpider {
  import opened Wrappers
  import opened Text

  const BaseUrl := "https://kuulchat.com/bece/questions/"

  const AvailableSubjects: seq<string> := ["science", "mathematics", "english", "social-studies"]

  const FirstYear := 2000

  /** `generate_url(subject, year)`. */
  function GenerateUrl(subject: string, year: string): string {
    BaseUrl + subject + "-" + year + "/"
  }

  /** The URL gives back the subject and the year when the year has no hyphen. */
  lemma {:induction false} GenerateUrlInjective(s1: string, y1: string, s2: string, y2: string)
    requires '-' !in y1 && '-' !in y2
    requires GenerateUrl(s1, y1) == GenerateUrl(s2, y2)
    ensures s1 == s2 && y1 == y2
  {
    var u := GenerateUrl(s1, y1);
    var core1 := s1 + "-" + y1;
    var core2 := s2 + "-" + y2;
    assert u == BaseUrl + core1 + "/" && u == BaseUrl + core2 + "/";
    assert core1 == u[|BaseUrl|..|u| - 1] == core2;
    LastHyphen(s1, y1);
    LastHyphen(s2, y2);
    assert s1 == core1[..|s1|] && s2 == core2[..|s2|];
    assert y1 == core1[|s1| + 1..] && y2 == core2[|s2| + 1..];
  }

  /** In `s + "-" + y` with no hyphen in `y`, the hyphen after `s` is the last one. */
  lemma LastHyphen(s: string, y: string)
    requires '-' !in y
    ensures var c := s + "-" + y;
      c[|s|] == '-' && forall k :: |s| < k < |c| ==> c[k] != '-'
  {
    var c := s + "-" + y;
    forall k | |s| < k < |c| ensures c[k] != '-' {
      assert c[k] == y[k - |s| - 1];
    }
  }

  /** `validate_year`: `int(year)` succeeds and lies in 2000..current year. */
  predicate ValidateYear(year: string, currentYear: int) {
    var v := ParseInt(year);
    v.Some? && FirstYear <= v.value <= currentYear
  }

  /** A year written by `str` is valid exactly when it is in range. */
  lemma ValidateYearDec(y: int, currentYear: int)
    ensures ValidateYear(Dec(y), currentYear) <==> FirstYear <= y <= currentYear
  {
    ParseIntDec(y);
  }

  /** `int(year)` ignores surrounding whitespace, and only an optionally signed digit string can be valid. */
  lemma ValidateYearText(year: string, y: int, pre: string, post: string, currentYear: int)
    requires AllSpace(pre) && AllSpace(post)
    ensures ValidateYear(pre + Dec(y) + post, currentYear) <==> FirstYear <= y <= currentYear
    ensures ValidateYear(year, currentYear) ==>
      var t := Strip(year);
      t != [] && forall k :: 0 < k < |t| ==> IsDigit(t[k])
  {
    ParseIntPadded(y, pre, post);
    ParseIntShape(year);
  }

  /** `validate_subject`. */
  predicate ValidateSubject(subject: string) {
    subject in AvailableSubjects
  }

  /** `validate_subject_year`. */
  predicate ValidateSubjectYear(subject: string, year: string, currentYear: int) {
    ValidateSubject(subject) && ValidateYear(year, currentYear)
  }

  /**
   * A combination is valid exactly when the subject is one of the four listed
   * (spelled exactly so) and the printed year lies between 2000 and the current year.
   */
  lemma ValidateSubjectYearDec(subject: string, y: int, currentYear: int)
    ensures ValidateSubjectYear(subject, Dec(y), currentYear) <==>
      (subject == "science" || subject == "mathematics" || subject == "english" || subject == "social-studies")
      && FirstYear <= y <= currentYear
  {
    ValidateSubjectNames(subject);
    ValidateYearDec(y, currentYear);
  }

  /** The four subjects, spelled exactly so. */
  lemma ValidateSubjectNames(subject: string)
    ensures ValidateSubject(subject) <==>
      subject == "science" || subject == "mathematics" || subject == "english" || subject == "social-studies"
  {
  }

  /** The URL lies under the questions page and names `subject-year/`. */
  lemma GenerateUrlShape(subject: string, year: string)
    ensures var url := GenerateUrl(subject, year);
      var page := subject + "-" + year + "/";
      && BaseUrl <= url && |url| == |BaseUrl| + |page| && url[|BaseUrl|..] == page
  {
  }

  /** `[str(y) for y in range(a, b + 1)]`. */
  function YearsBetween(a: int, b: int): (r: seq<string>)
    ensures |r| == if b < a then 0 else b - a + 1
    ensures forall i :: 0 <= i < |r| ==> r[i] == Dec(a + i)
  {
    if b < a then [] else seq(b - a + 1, i requires 0 <= i <= b - a => Dec(a + i))
  }

  /** Why `parse_year_range` raises instead of returning. */
  datatype RangeError = TooManyHyphens

  datatype Result<T> = Ok(value: T) | Raises(error: RangeError)

  /**
   * `parse_year_range`: `a-b` gives the years a..b; a non-integer end gives
   * `[]`; no hyphen gives the text itself; more than one hyphen makes the
   * two-name unpacking raise, outside the `try`.
   */
  function ParseYearRange(yearRange: string): (r: Result<seq<string>>)
    ensures '-' !in yearRange ==> r == Ok([yearRange])
    ensures r.Raises? <==> Count(yearRange, '-') >= 2
  {
    SplitCount(yearRange, '-');
    if '-' !in yearRange then Ok([yearRange])
    else
      var pieces := Split(yearRange, '-');
      if |pieces| != 2 then Raises(TooManyHyphens)
      else
        var start, end := ParseInt(pieces[0]), ParseInt(pieces[1]);
        if start.None? || end.None? then Ok([])
        else Ok(YearsBetween(start.value, end.value))
  }

  /**
   * One hyphen: `a-b` gives the years a..b when both ends read as integers,
   * and `[]` (the `ValueError` branch) when either does not.
   */
  lemma ParseYearRangeParts(a: string, b: string)
    requires '-' !in a && '-' !in b
    ensures ParseYearRange(a + "-" + b) ==
      if ParseInt(a).Some? && ParseInt(b).Some? then Ok(YearsBetween(ParseInt(a).value, ParseInt(b).value)) else Ok([])
  {
    var s := a + "-" + b;
    assert s[|a|] == '-';
    SplitJoin([a, b], '-');
    assert Join([a, b], "-") == s by {
      assert [a, b][1..] == [b];
    }
  }

  /** `"a-b"` written from two natural years reads back as the years a..b. */
  lemma ParseYearRangeDec(a: nat, b: nat)
    ensures ParseYearRange(Dec(a) + "-" + Dec(b)) == Ok(YearsBetween(a, b))
  {
    assert '-' !in Dec(a) && '-' !in Dec(b) by {
      assert IsDigitString(DecNat(a)) && IsDigitString(DecNat(b));
    }
    ParseYearRangeParts(Dec(a), Dec(b));
    ParseIntDec(a);
    ParseIntDec(b);
  }

  /** `[s.strip() for s in subjects.split(",")]`. */
  function ParseSubjects(subjects: string): (r: seq<string>)
    ensures |r| == Count(subjects, ',') + 1
  {
    var pieces := Split(subjects, ',');
    SplitCount(subjects, ',');
    seq(|pieces|, i requires 0 <= i < |pieces| => Strip(pieces[i]))
  }

  /** Names without commas or surrounding whitespace come back from their comma-joined list. */
  lemma ParseSubjectsJoin(names: seq<string>)
    requires names != []
    requires forall k :: 0 <= k < |names| ==> ',' !in names[k]
    requires forall k :: 0 <= k < |names| ==> names[k] == [] || (!IsSpace(names[k][0]) && !IsSpace(names[k][|names[k]| - 1]))
    ensures ParseSubjects(Join(names, ",")) == names
  {
    assert "," == [','];
    SplitJoin(names, ',');
    var r := ParseSubjects(Join(names, ","));
    forall k | 0 <= k < |names| ensures r[k] == names[k] {
      if names[k] != [] {
        StripUntrimmed(names[k]);
      }
    }
  }

  /** One entry of `combinations`. */
  datatype Combination = Combination(subject: string, year: string, url: string)

  /** The valid pairs of `subject` with `years`, in year order. */
  function ValidFor(subject: string, years: seq<string>, currentYear: int): seq<Combination> {
    if years == [] then []
    else
      var y := years[|years| - 1];
      ValidFor(subject, years[..|years| - 1], currentYear)
        + (if ValidateSubjectYear(subject, y, currentYear) then [Combination(subject, y, GenerateUrl(subject, y))] else [])
  }

  /** The valid subject-year pairs, subject-major. */
  function ValidPairs(subjects: seq<string>, years: seq<string>, currentYear: int): seq<Combination> {
    if subjects == [] then []
    else
      ValidPairs(subjects[..|subjects| - 1], years, currentYear)
        + ValidFor(subjects[|subjects| - 1], years, currentYear)
  }

  function InvalidFor(subject: string, years: seq<string>, currentYear: int): nat {
    if years == [] then 0
    else
      InvalidFor(subject, years[..|years| - 1], currentYear)
        + (if ValidateSubjectYear(subject, years[|years| - 1], currentYear) then 0 else 1)
  }

  /** Every pair is either valid or counted as failed. */
  lemma {:induction false} ValidForSplit(subject: string, years: seq<string>, currentYear: int)
    ensures |ValidFor(subject, years, currentYear)| + InvalidFor(subject, years, currentYear) == |years|
  {
    if years != [] {
      ValidForSplit(subject, years[..|years| - 1], currentYear);
    }
  }

  /** Exactly the valid pairs are kept, each with its URL. */
  lemma {:induction false} ValidForMembers(subject: string, years: seq<string>, currentYear: int, c: Combination)
    ensures c in ValidFor(subject, years, currentYear) <==>
      c.subject == subject && c.year in years && ValidateSubjectYear(subject, c.year, currentYear)
      && c.url == GenerateUrl(subject, c.year)
  {
    if years != [] {
      var n := |years| - 1;
      ValidForMembers(subject, years[..n], currentYear, c);
      assert years == years[..n] + [years[n]];
    }
  }

  /** `combinations` holds exactly the valid subject-year pairs, each with its URL. */
  lemma {:induction false} ValidPairsMembers(subjects: seq<string>, years: seq<string>, currentYear: int, c: Combination)
    ensures c in ValidPairs(subjects, years, currentYear) <==>
      c.subject in subjects && c.year in years && ValidateSubjectYear(c.subject, c.year, currentYear)
      && c.url == GenerateUrl(c.subject, c.year)
  {
    if subjects != [] {
      var n := |subjects| - 1;
      ValidPairsMembers(subjects[..n], years, currentYear, c);
      ValidForMembers(subjects[n], years, currentYear, c);
      assert subjects == subjects[..n] + [subjects[n]];
    }
  }

  /** The combinations whose processing fails, in order, as `(subject, year)`. */
  function FailedOf(cs: seq<Combination>, process: (string, string) -> bool): seq<(string, string)> {
    if cs == [] then []
    else
      var c := cs[|cs| - 1];
      FailedOf(cs[..|cs| - 1], process) + (if process(c.subject, c.year) then [] else [(c.subject, c.year)])
  }

  /** The failed list holds exactly the pairs of the combinations that fail. */
  lemma {:induction false} FailedOfMembers(cs: seq<Combination>, process: (string, string) -> bool, p: (string, string))
    ensures p in FailedOf(cs, process) <==>
      exists c :: c in cs && p == (c.subject, c.year) && !process(c.subject, c.year)
  {
    if cs != [] {
      var n := |cs| - 1;
      FailedOfMembers(cs[..n], process, p);
      assert cs == cs[..n] + [cs[n]];
      if p in FailedOf(cs[..n], process) {
        var c :| c in cs[..n] && p == (c.subject, c.year) && !process(c.subject, c.year);
        assert c in cs;
      }
      if exists c :: c in cs && p == (c.subject, c.year) && !process(c.subject, c.year) {
        var c :| c in cs && p == (c.subject, c.year) && !process(c.subject, c.year);
        if c !in cs[..n] {
          assert c == cs[n];
        }
      }
    }
  }

  /** Nothing fails exactly when every combination is processed successfully. */
  lemma {:induction false} FailedOfNone(cs: seq<Combination>, process: (string, string) -> bool)
    ensures FailedOf(cs, process) == [] <==> forall c :: c in cs ==> process(c.subject, c.year)
  {
    if cs != [] {
      var n := |cs| - 1;
      FailedOfNone(cs[..n], process);
      assert cs == cs[..n] + [cs[n]];
    }
  }

  /** The validation phase of `run_batch_spider`: the valid pairs with their URLs, and the count of the others. */
  method CollectCombinations(subjects: seq<string>, years: seq<string>, currentYear: int)
    returns (combinations: seq<Combination>, invalid: nat)
    ensures combinations == ValidPairs(subjects, years, currentYear)
    ensures invalid + |combinations| == |subjects| * |years|
  {
    var failed := 0;
    combinations := [];
    for i := 0 to |subjects|
      invariant combinations == ValidPairs(subjects[..i], years, currentYear)
      invariant failed + |combinations| == i * |years|
    {
      var subject := subjects[i];
      assert subjects[..i + 1][..i] == subjects[..i];
      ghost var before := combinations;
      ghost var failedBefore := failed;
      for j := 0 to |years|
        invariant combinations == before + ValidFor(subject, years[..j], currentYear)
        invariant failed == failedBefore + InvalidFor(subject, years[..j], currentYear)
      {
        var year := years[j];
        assert years[..j + 1][..j] == years[..j];
        if !ValidateSubjectYear(subject, year, currentYear) {
          failed := failed + 1;
          continue;
        }
        var url := GenerateUrl(subject, year);
        combinations := combinations + [Combination(subject, year, url)];
      }
      assert years[..|years|] == years;
      ValidForSplit(subject, years, currentYear);
    }
    assert subjects[..|subjects|] == subjects;
    invalid := failed;
  }

  /** The processing loop of `run_batch_spider`: each combination in turn, collecting the failures. */
  method ProcessCombinations(combinations: seq<Combination>, process: (string, string) -> bool)
    returns (failedCombinations: seq<(string, string)>)
    ensures failedCombinations == FailedOf(combinations, process)
  {
    failedCombinations := [];
    for k := 0 to |combinations|
      invariant failedCombinations == FailedOf(combinations[..k], process)
    {
      var combo := combinations[k];
      assert combinations[..k + 1][..k] == combinations[..k];
      if !process(combo.subject, combo.year) {
        failedCombinations := failedCombinations + [(combo.subject, combo.year)];
      }
    }
    assert combinations[..|combinations|] == combinations;
  }

  /**
   * `run_batch_spider`. The result depends only on the combinations that
   * fail to process: the count of invalid pairs is overwritten before the
   * return, so invalid pairs never make the batch fail.
   */
  method RunBatchSpider(subjects: seq<string>, years: seq<string>, currentYear: int, dryRun: bool,
                        process: (string, string) -> bool)
    returns (ok: bool, combinations: seq<Combination>, invalid: nat, failedCombinations: seq<(string, string)>)
    ensures combinations == ValidPairs(subjects, years, currentYear)
    ensures invalid + |combinations| == |subjects| * |years|
    ensures failedCombinations == if dryRun then [] else FailedOf(combinations, process)
    ensures dryRun ==> ok
    ensures !dryRun ==> (ok <==> combinations != [] && forall c :: c in combinations ==> process(c.subject, c.year))
    ensures forall p :: p in failedCombinations <==>
      !dryRun && exists c :: c in combinations && p == (c.subject, c.year) && !process(c.subject, c.year)
  {
    combinations, invalid := CollectCombinations(subjects, years, currentYear);
    failedCombinations := [];
    if dryRun {
      return true, combinations, invalid, failedCombinations;
    }
    if combinations == [] {
      return false, combinations, invalid, failedCombinations;
    }
    failedCombinations := ProcessCombinations(combinations, process);
    FailedOfNone(combinations, process);
    forall p
      ensures p in failedCombinations <==>
        exists c :: c in combinations && p == (c.subject, c.year) && !process(c.subject, c.year)
    {
      FailedOfMembers(combinations, process, p);
    }
    var failed := |failedCombinations|;
    ok := failed == 0;
  }

  /** The `(subject, year)` pairs of the combinations, in order. */
  function PairsOf(cs: seq<Combination>): seq<(string, string)> {
    seq(|cs|, i requires 0 <= i < |cs| => (cs[i].subject, cs[i].year))
  }

  /** When no combination can be processed, every one is listed as failed, in order. */
  lemma {:induction false} FailedOfAll(cs: seq<Combination>, process: (string, string) -> bool)
    requires forall c :: c in cs ==> !process(c.subject, c.year)
    ensures FailedOf(cs, process) == PairsOf(cs)
  {
    if cs != [] {
      var n := |cs| - 1;
      assert cs[n] in cs;
      assert forall c :: c in cs[..n] ==> c in cs;
      FailedOfAll(cs[..n], process);
      assert PairsOf(cs) == PairsOf(cs[..n]) + [(cs[n].subject, cs[n].year)];
    }
  }

  /**
   * One combination's processing in `run_batch_spider`: the spider
   * subprocess exits with status 0, then the post-processing
   * (`restructure_json` and the report) returns without raising.
   */
  function ProcessWith(spider: (string, string) -> bool, postProcess: (string, string) -> bool)
    : (string, string) -> bool
  {
    (subject, year) => spider(subject, year) && postProcess(subject, year)
  }

  /**
   * The post-processing as written: `restructure_json` calls
   * `ImageDownloader(subject, year, output_dir)`, but that constructor takes
   * a single `base_dir` argument, so the call raises `TypeError` whatever
   * the combination, and `run_batch_spider` catches it as a failure.
   */
  function PostProcessAsWritten(subject: string, year: string): bool {
    false
  }

  /**
   * `run_batch_spider` as written: a run that is not a dry run never
   * succeeds, and its failed list is every valid combination, in order,
   * whatever the spider subprocess does.
   */
  method RunBatchSpiderAsWritten(subjects: seq<string>, years: seq<string>, currentYear: int, dryRun: bool,
                                 spider: (string, string) -> bool)
    returns (ok: bool, failedCombinations: seq<(string, string)>)
    ensures dryRun ==> ok && failedCombinations == []
    ensures !dryRun ==> !ok && failedCombinations == PairsOf(ValidPairs(subjects, years, currentYear))
  {
    var process := ProcessWith(spider, PostProcessAsWritten);
    var combinations, invalid;
    ok, combinations, invalid, failedCombinations := RunBatchSpider(subjects, years, currentYear, dryRun, process);
    if !dryRun {
      forall c | c in combinations
        ensures !process(c.subject, c.year)
      {
        assert !PostProcessAsWritten(c.subject, c.year);
      }
      FailedOfAll(combinations, process);
      if combinations != [] {
        assert combinations[0] in combinations;
      }
    }
  }
}
