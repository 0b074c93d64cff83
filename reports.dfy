/**
 * `generate_reports.py`: finding `subject_year` data directories and
 * building the lines of the image download report from a metadata record.
 * Directory listings and file contents are inputs; the timestamp and the
 * percentage text are parameters.
 */
module Reports {
  import opened Wrappers
  import opened JsonModel
  import opened Text

  // ---------------------------------------------------------------------
  // `subject_year` directory names
  // ---------------------------------------------------------------------

  /** `"_".join(name.split("_")[:-1])`. */
  function SubjectOf(name: string): string {
    var parts := Split(name, '_');
    Join(parts[..|parts| - 1], "_")
  }

  /** `name.split("_")[-1]`. */
  function YearOf(name: string): (y: string)
    ensures '_' !in y
  {
    var parts := Split(name, '_');
    parts[|parts| - 1]
  }

  lemma {:induction false} JoinSnoc(pieces: seq<string>, x: string, sep: string)
    requires pieces != []
    ensures Join(pieces + [x], sep) == Join(pieces, sep) + sep + x
    decreases |pieces|
  {
    if |pieces| == 1 {
      assert (pieces + [x])[1..] == [x];
    } else {
      assert (pieces + [x])[1..] == pieces[1..] + [x];
      JoinSnoc(pieces[1..], x, sep);
    }
  }

  lemma SplitAtLeastTwo(s: string, sep: char)
    requires sep in s
    ensures |Split(s, sep)| >= 2
  {
  }

  /** A name holding `_` is its subject, `_` and its year. */
  lemma SubjectYearJoin(name: string)
    requires '_' in name
    ensures SubjectOf(name) + "_" + YearOf(name) == name
  {
    var parts := Split(name, '_');
    SplitAtLeastTwo(name, '_');
    var n := |parts| - 1;
    var front := parts[..n];
    assert front + [parts[n]] == parts;
    JoinSnoc(front, parts[n], "_");
    assert "_" == ['_'];
    assert Join(parts, "_") == name;
    assert SubjectOf(name) == Join(front, "_") && YearOf(name) == parts[n];
  }

  /** In `s + "_" + y` with no `_` in `y`, the `_` after `s` is the last one. */
  lemma LastUnderscore(s: string, y: string)
    requires '_' !in y
    ensures var c := s + "_" + y;
      c[|s|] == '_' && forall k :: |s| < k < |c| ==> c[k] != '_'
  {
    var c := s + "_" + y;
    forall k | |s| < k < |c| ensures c[k] != '_' {
      assert c[k] == y[k - |s| - 1];
    }
  }

  /** Reading a joined name back gives the subject and a year without `_`. */
  lemma SubjectYearSplit(subject: string, year: string)
    requires '_' !in year
    ensures SubjectOf(subject + "_" + year) == subject && YearOf(subject + "_" + year) == year
  {
    var name := subject + "_" + year;
    assert name[|subject|] == '_';
    SubjectYearJoin(name);
    var s, y := SubjectOf(name), YearOf(name);
    LastUnderscore(s, y);
    LastUnderscore(subject, year);
    assert |s| == |subject|;
    assert s == name[..|s|] && subject == name[..|subject|];
    assert y == name[|s| + 1..] && year == name[|subject| + 1..];
  }

  /** `str.isdigit()` on a whole text. */
  predicate YearLike(s: string) {
    IsDigitString(s)
  }

  /** The combinations `get_subject_year_combinations` keeps from the directory entries `(name, is_dir)`. */
  function Combinations(entries: seq<(string, bool)>): seq<(string, string)> {
    if entries == [] then []
    else
      var e := entries[|entries| - 1];
      Combinations(entries[..|entries| - 1])
        + (if e.1 && '_' in e.0 && YearLike(YearOf(e.0)) then [(SubjectOf(e.0), YearOf(e.0))] else [])
  }

  /** `get_subject_year_combinations(data_dir)`. */
  method SubjectYearCombinations(entries: seq<(string, bool)>) returns (combinations: seq<(string, string)>)
    ensures combinations == Combinations(entries)
  {
    combinations := [];
    for i := 0 to |entries|
      invariant combinations == Combinations(entries[..i])
    {
      assert entries[..i + 1][..i] == entries[..i];
      var (entry, isDir) := entries[i];
      if isDir && '_' in entry {
        var parts := Split(entry, '_');
        SplitAtLeastTwo(entry, '_');
        if |parts| > 1 && YearLike(parts[|parts| - 1]) {
          var subject := Join(parts[..|parts| - 1], "_");
          var year := parts[|parts| - 1];
          combinations := combinations + [(subject, year)];
        }
      }
    }
    assert entries[..|entries|] == entries;
  }

  /**
   * Every combination names a directory entry, as subject, `_`, year, with
   * a year of digits; every such directory is found.
   */
  lemma {:induction false} CombinationsMembers(entries: seq<(string, bool)>, subject: string, year: string)
    ensures (subject, year) in Combinations(entries) <==>
      '_' !in year && YearLike(year) && (subject + "_" + year, true) in entries
  {
    if entries != [] {
      var n := |entries| - 1;
      CombinationsMembers(entries[..n], subject, year);
      var e := entries[n];
      assert entries == entries[..n] + [e];
      if e.1 && '_' in e.0 && YearLike(YearOf(e.0)) {
        SubjectYearJoin(e.0);
        if '_' !in year && e.0 == subject + "_" + year {
          SubjectYearSplit(subject, year);
        }
      } else if '_' !in year && e == (subject + "_" + year, true) {
        assert e.0[|subject|] == '_';
        SubjectYearSplit(subject, year);
      }
    }
  }

  // ---------------------------------------------------------------------
  // The report of one combination
  // ---------------------------------------------------------------------

  /** `d.get(key, {})`, read as a dictionary. */
  function Section(d: Dict, key: string): Dict
    requires GetOr(d, key, JObj([])).JObj?
  {
    GetOr(d, key, JObj([])).fields
  }

  /** The shapes the report's `.get` chains, comparisons and f-strings rely on. */
  predicate ReportShaped(metadata: Dict) {
    GetOr(metadata, "spider_stats", JObj([])).JObj?
    && var spider := Section(metadata, "spider_stats");
    GetOr(spider, "image_download_stats", JObj([])).JObj?
    && GetOr(spider, "questions_with_diagrams", JObj([])).JObj?
    && var images := Section(spider, "image_download_stats");
    var withImages := Section(spider, "questions_with_diagrams");
    && Scalar(GetOr(spider, "total_questions", JInt(0)))
    && Scalar(GetOr(withImages, "objectives", JInt(0)))
    && Scalar(GetOr(withImages, "theory", JInt(0)))
    && GetOr(images, "total_images_expected", JInt(0)).JInt?
    && GetOr(images, "downloaded_images_count", JInt(0)).JInt?
    && GetOr(images, "failed_downloads", JInt(0)).JInt?
    && GetOr(images, "downloaded_image_map", JObj([])).JObj?
    && var m := GetOr(images, "downloaded_image_map", JObj([])).fields;
    forall k :: 0 <= k < |m| ==> Scalar(m[k].1)
  }

  /** The statistics the report prints, each defaulted as `.get` defaults it. */
  datatype ReportStats = ReportStats(
    totalQuestions: Json, objective: Json, theory: Json,
    expected: int, downloaded: int, failed: int, imageMap: Dict)

  /** The values the report prints with `str`. */
  predicate Printable(s: ReportStats) {
    Scalar(s.totalQuestions) && Scalar(s.objective) && Scalar(s.theory)
    && forall k :: 0 <= k < |s.imageMap| ==> Scalar(s.imageMap[k].1)
  }

  function StatsOf(metadata: Dict): (s: ReportStats)
    requires ReportShaped(metadata)
    ensures Printable(s)
  {
    var spider := Section(metadata, "spider_stats");
    var images := Section(spider, "image_download_stats");
    var withImages := Section(spider, "questions_with_diagrams");
    ReportStats(
      GetOr(spider, "total_questions", JInt(0)),
      GetOr(withImages, "objectives", JInt(0)),
      GetOr(withImages, "theory", JInt(0)),
      GetOr(images, "total_images_expected", JInt(0)).i,
      GetOr(images, "downloaded_images_count", JInt(0)).i,
      GetOr(images, "failed_downloads", JInt(0)).i,
      GetOr(images, "downloaded_image_map", JObj([])).fields)
  }

  /** Without statistics every count is 0 and the image map is empty. */
  lemma StatsDefaults(metadata: Dict)
    requires "spider_stats" !in Keys(metadata)
    ensures ReportShaped(metadata)
    ensures StatsOf(metadata) == ReportStats(JInt(0), JInt(0), JInt(0), 0, 0, 0, [])
  {
  }

  /** Missing image statistics default to 0, missing question counts too. */
  lemma ImageStatsDefaults(metadata: Dict)
    requires ReportShaped(metadata)
    requires "image_download_stats" !in Keys(Section(metadata, "spider_stats"))
    ensures var s := StatsOf(metadata); s.expected == 0 && s.downloaded == 0 && s.failed == 0 && s.imageMap == []
  {
  }

  /** The success rate: none when no image was expected, else downloaded over expected. */
  datatype Rate = NoImagesExpected | Ratio(downloaded: int, expected: int)

  function SuccessRate(s: ReportStats): (r: Rate)
    ensures r.NoImagesExpected? <==> s.expected <= 0
    ensures r.Ratio? ==> r.expected > 0 && r.expected == s.expected && r.downloaded == s.downloaded
  {
    if s.expected > 0 then Ratio(s.downloaded, s.expected) else NoImagesExpected
  }

  /** `subject.replace('_', ' ')`. */
  function Spaced(subject: string): string {
    seq(|subject|, i requires 0 <= i < |subject| => if subject[i] == '_' then ' ' else subject[i])
  }

  /**
   * The subject in the report's headline: `_` reads as a blank, every word
   * starts with a capital and goes on in lower case.
   */
  lemma HeadlineSubject(subject: string)
    ensures var h := Title(Spaced(subject));
      && |h| == |subject|
      && (forall i :: 0 <= i < |subject| && subject[i] == '_' ==> h[i] == ' ')
      && (forall i :: 0 <= i < |subject| && subject[i] != '_' ==> LowerChar(h[i]) == LowerChar(subject[i]))
      && (forall i :: 0 <= i < |subject| && IsLetter(subject[i]) ==>
            ('A' <= h[i] <= 'Z' <==> i == 0 || !IsLetter(subject[i - 1])))
  {
    var sp := Spaced(subject);
    TitleMeaning(sp);
    forall i | 0 <= i < |subject| ensures subject[i] == '_' ==> Title(sp)[i] == ' ' {
      assert !IsLetter(sp[i]) || subject[i] != '_';
    }
    forall i | 0 <= i < |subject| ensures IsLetter(sp[i]) <==> IsLetter(subject[i]) {
    }
  }

  /** The headline of the `social_studies` report. */
  lemma HeadlineExample()
    ensures Title(Spaced("social_studies")) == "Social Studies"
  {
    var h := Title(Spaced("social_studies"));
    assert h[0] == 'S' && h[6] == ' ' && h[7] == 'S';
  }

  /** The fixed summary lines; `percent` is the two-decimal text of a ratio. */
  function SummaryLines(subject: string, year: string, generatedOn: string, s: ReportStats,
                        percent: (int, int) -> string): (lines: seq<string>)
    requires Printable(s)
    ensures |lines| == 15
  {
    var rate := SuccessRate(s);
    var rateText := if rate.Ratio? then percent(rate.downloaded, rate.expected) else "0.00";
    ["Image Download Report for " + Title(Spaced(subject)) + " " + year,
     "Generated on: " + generatedOn,
     "\nSummary:",
     "  Total Questions: " + Display(s.totalQuestions),
     "  Questions with Images:",
     "    Objective Questions: " + Display(s.objective),
     "    Theory Questions: " + Display(s.theory),
     "  Total Images Expected: " + Dec(s.expected),
     "  Successfully Downloaded: " + Dec(s.downloaded),
     "  Failed Downloads: " + Dec(s.failed),
     "  Success Rate: " + rateText + "%",
     "  Images are organized in:",
     "    images/objective/",
     "    images/theory/",
     "\nDownloaded Images:"]
  }

  function DownloadedLine(entry: (string, Json)): string
    requires Scalar(entry.1)
  {
    "  Downloaded: " + entry.0 + " -> " + Display(entry.1)
  }

  /** The closing section, present only when some download failed. */
  function FailedLines(failed: int): (lines: seq<string>)
    ensures failed > 0 <==> lines != []
    ensures |lines| == if failed > 0 then 3 else 0
  {
    if failed > 0 then
      ["\nFailed Downloads (Expected but not found locally):",
       "  " + Dec(failed) + " images failed to download or were not found.",
       "  (Detailed list of failed downloads not available in metadata for this version.)"]
    else []
  }

  /** The loop over `downloaded_image_map.items()`: one line per entry, in order. */
  method AppendDownloaded(content: seq<string>, imageMap: Dict) returns (r: seq<string>)
    requires forall k :: 0 <= k < |imageMap| ==> Scalar(imageMap[k].1)
    ensures |r| == |content| + |imageMap| && r[..|content|] == content
    ensures forall k :: 0 <= k < |imageMap| ==> r[|content| + k] == DownloadedLine(imageMap[k])
  {
    r := content;
    for k := 0 to |imageMap|
      invariant |r| == |content| + k && r[..|content|] == content
      invariant forall j :: 0 <= j < k ==> r[|content| + j] == DownloadedLine(imageMap[j])
    {
      r := r + [DownloadedLine(imageMap[k])];
    }
  }

  /**
   * The report's lines: the summary, one `Downloaded:` line per map entry
   * in map order, then the failed section when some download failed.
   */
  predicate LaidOut(report: seq<string>, subject: string, year: string, generatedOn: string, s: ReportStats,
                    percent: (int, int) -> string)
    requires Printable(s)
  {
    && |report| == 15 + |s.imageMap| + |FailedLines(s.failed)|
    && report[..15] == SummaryLines(subject, year, generatedOn, s, percent)
    && (forall k :: 0 <= k < |s.imageMap| ==> report[15 + k] == DownloadedLine(s.imageMap[k]))
    && report[15 + |s.imageMap|..] == FailedLines(s.failed)
  }

  /** The report content built from the statistics of one metadata record. */
  method BuildReport(subject: string, year: string, generatedOn: string, stats: ReportStats,
                     percent: (int, int) -> string) returns (content: seq<string>)
    requires Printable(stats)
    ensures LaidOut(content, subject, year, generatedOn, stats, percent)
  {
    content := SummaryLines(subject, year, generatedOn, stats, percent);
    content := AppendDownloaded(content, stats.imageMap);
    ghost var body := content;
    if stats.failed > 0 {
      content := content + FailedLines(stats.failed);
    }
    assert content == body + FailedLines(stats.failed);
    assert content[..15] == body[..15];
    assert content[15 + |stats.imageMap|..] == FailedLines(stats.failed);
  }

  /**
   * `generate_report_for_combination`: no report when the metadata file is
   * missing; otherwise the report laid out from the record's statistics.
   */
  method GenerateReport(subject: string, year: string, metadata: Option<Dict>, generatedOn: string,
                        percent: (int, int) -> string) returns (report: Option<seq<string>>)
    requires metadata.Some? ==> ReportShaped(metadata.value)
    ensures metadata.None? <==> report.None?
    ensures metadata.Some? ==> LaidOut(report.value, subject, year, generatedOn, StatsOf(metadata.value), percent)
  {
    if metadata.None? {
      return None;
    }
    var content := BuildReport(subject, year, generatedOn, StatsOf(metadata.value), percent);
    return Some(content);
  }
}
