/**
 * `update_all_metadata.py`: finding the `subject_year` data directories,
 * reading the screenshot URL from a question file and from a metadata
 * file, and the bulk update and its preview. The files of each directory
 * are inputs (missing, unreadable, or their JSON content); the enrichment
 * service that rewrites a metadata file is an oracle reporting success.
 */
module UpdateMetadata {
  import opened Wrappers
  import opened JsonModel
  import opened Text
  import opened Sorting
  import Reports

  // ---------------------------------------------------------------------
  // find_all_data_directories
  // ---------------------------------------------------------------------

  /** One `(subject, year, directory_path)` tuple; the path is `data/<name>`. */
  datatype DataDir = DataDir(subject: string, year: string, name: string)

  /** Python's `<` on the tuples: lexicographic, string by string. */
  predicate DirLess(a: DataDir, b: DataDir) {
    Less(a.subject, b.subject)
    || (a.subject == b.subject && Less(a.year, b.year))
    || (a.subject == b.subject && a.year == b.year && Less(a.name, b.name))
  }

  /** `sorted` places `a` before `b` unless `b < a`. */
  predicate DirLe(a: DataDir, b: DataDir) {
    !DirLess(b, a)
  }

  lemma DirLessTotal(a: DataDir, b: DataDir)
    ensures a == b || DirLess(a, b) || DirLess(b, a)
  {
    LessTotal(a.subject, b.subject);
    LessTotal(a.year, b.year);
    LessTotal(a.name, b.name);
  }

  lemma DirLessTransitive(a: DataDir, b: DataDir, c: DataDir)
    requires DirLess(a, b) && DirLess(b, c)
    ensures DirLess(a, c)
  {
    if Less(a.subject, b.subject) && Less(b.subject, c.subject) {
      LessTransitive(a.subject, b.subject, c.subject);
    }
    LessIrreflexive(a.subject);
    LessIrreflexive(a.year);
    if a.subject == b.subject == c.subject {
      if Less(a.year, b.year) && Less(b.year, c.year) {
        LessTransitive(a.year, b.year, c.year);
      }
      if a.year == b.year == c.year {
        LessTransitive(a.name, b.name, c.name);
      }
    }
  }

  lemma DirLessIrreflexive(a: DataDir)
    ensures !DirLess(a, a)
  {
    LessIrreflexive(a.subject);
    LessIrreflexive(a.year);
    LessIrreflexive(a.name);
  }

  lemma DirLeTotalPreorder()
    ensures TotalPreorder(DirLe)
  {
    forall a, b ensures DirLe(a, b) || DirLe(b, a) {
      if DirLess(a, b) && DirLess(b, a) {
        DirLessTransitive(a, b, a);
        DirLessIrreflexive(a);
      }
    }
    forall a, b, c | DirLe(a, b) && DirLe(b, c) ensures DirLe(a, c) {
      DirLessTotal(a, b);
      DirLessTotal(b, c);
      if DirLess(c, a) {
        if DirLess(a, b) {
          DirLessTransitive(c, a, b);
        } else if DirLess(b, c) {
          DirLessTransitive(b, c, a);
        }
      }
    }
  }

  /** The directories kept from the entries `(name, is_dir)`, in listing order. */
  function Candidates(entries: seq<(string, bool)>): seq<DataDir> {
    if entries == [] then []
    else
      var e := entries[|entries| - 1];
      Candidates(entries[..|entries| - 1])
        + (if e.1 && '_' in e.0 then [DataDir(Reports.SubjectOf(e.0), Reports.YearOf(e.0), e.0)] else [])
  }

  /**
   * Exactly the directories whose name holds `_` are kept, each split into
   * the subject before its last `_` and the year after it.
   */
  lemma {:induction false} CandidatesMembers(entries: seq<(string, bool)>, d: DataDir)
    ensures d in Candidates(entries) <==>
      (d.name, true) in entries && '_' in d.name
      && d.subject + "_" + d.year == d.name && '_' !in d.year
  {
    if entries != [] {
      var n := |entries| - 1;
      var init, e := entries[..n], entries[n];
      var added := if e.1 && '_' in e.0 then [DataDir(Reports.SubjectOf(e.0), Reports.YearOf(e.0), e.0)] else [];
      assert Candidates(entries) == Candidates(init) + added;
      assert d in Candidates(entries) <==> d in Candidates(init) || d in added;
      CandidatesMembers(init, d);
      CandidateOf(e, d);
      assert (d.name, true) in entries <==> (d.name, true) in init || e == (d.name, true) by {
        assert entries == init + [e];
      }
    }
  }

  /** The directory one entry contributes is `d` exactly when `d` splits that entry's name. */
  lemma CandidateOf(e: (string, bool), d: DataDir)
    ensures (e.1 && '_' in e.0 && d == DataDir(Reports.SubjectOf(e.0), Reports.YearOf(e.0), e.0)) <==>
      (e == (d.name, true) && '_' in d.name && d.subject + "_" + d.year == d.name && '_' !in d.year)
  {
    if e.1 && '_' in e.0 {
      Reports.SubjectYearJoin(e.0);
    }
    if '_' !in d.year && d.subject + "_" + d.year == d.name {
      Reports.SubjectYearSplit(d.subject, d.year);
    }
  }

  /** `find_all_data_directories`: nothing without a data directory, else the candidates sorted. */
  method FindAllDataDirectories(dataDirExists: bool, entries: seq<(string, bool)>) returns (dirs: seq<DataDir>)
    ensures !dataDirExists ==> dirs == []
    ensures dataDirExists ==> multiset(dirs) == multiset(Candidates(entries))
    ensures Sorted(dirs, DirLe)
  {
    if !dataDirExists {
      return [];
    }
    var found: seq<DataDir> := [];
    for i := 0 to |entries|
      invariant found == Candidates(entries[..i])
    {
      assert entries[..i + 1][..i] == entries[..i];
      var (name, isDir) := entries[i];
      if isDir && '_' in name {
        var parts := Split(name, '_');
        Reports.SplitAtLeastTwo(name, '_');
        if |parts| >= 2 {
          var subject := Join(parts[..|parts| - 1], "_");
          var year := parts[|parts| - 1];
          found := found + [DataDir(subject, year, name)];
        }
      }
    }
    assert entries[..|entries|] == entries;
    DirLeTotalPreorder();
    SortSorted(found, DirLe);
    dirs := Sort(found, DirLe);
  }

  // ---------------------------------------------------------------------
  // Reading the screenshot URLs
  // ---------------------------------------------------------------------

  /** What opening and loading a file gives. */
  datatype File = Missing | Unreadable | Loaded(content: Json)

  /** `extract_screenshot_url_from_json`: `''` on any error, including a non-object file. */
  function ScreenshotUrl(json: File): (url: Json)
    ensures !(json.Loaded? && json.content.JObj?) ==> url == JStr("")
    ensures json.Loaded? && json.content.JObj? && "page_screenshot" !in Keys(json.content.fields) ==> url == JStr("")
    ensures json.Loaded? && json.content.JObj? && Get(json.content.fields, "page_screenshot").Some? ==>
      url == Get(json.content.fields, "page_screenshot").value
  {
    if json.Loaded? && json.content.JObj? then GetOr(json.content.fields, "page_screenshot", JStr("")) else JStr("")
  }

  /**
   * `check_metadata_has_screenshot`: the `page_screenshot` of `spider_stats`
   * and whether it is truthy; `(False, '')` on any error.
   */
  function HasScreenshot(metadata: File): (r: (bool, Json))
    ensures r.0 <==> Truthy(r.1)
    ensures !metadata.Loaded? || !metadata.content.JObj? ==> r == (false, JStr(""))
    ensures r.0 ==> (
      && metadata.Loaded? && metadata.content.JObj?
      && GetOr(metadata.content.fields, "spider_stats", JObj([])).JObj?
      && Get(GetOr(metadata.content.fields, "spider_stats", JObj([])).fields, "page_screenshot") == Some(r.1))
    ensures metadata.Loaded? && metadata.content.JObj? && GetOr(metadata.content.fields, "spider_stats", JObj([])).JObj? ==>
      r.1 == GetOr(GetOr(metadata.content.fields, "spider_stats", JObj([])).fields, "page_screenshot", JStr(""))
    ensures metadata.Loaded? && metadata.content.JObj? && !GetOr(metadata.content.fields, "spider_stats", JObj([])).JObj? ==>
      r == (false, JStr(""))
  {
    if metadata.Loaded? && metadata.content.JObj? then
      var stats := GetOr(metadata.content.fields, "spider_stats", JObj([]));
      if stats.JObj? then
        var url := GetOr(stats.fields, "page_screenshot", JStr(""));
        (Truthy(url), url)
      else (false, JStr(""))
    else (false, JStr(""))
  }

  /** The question file and the metadata file of one directory. */
  datatype DirFiles = DirFiles(json: File, metadata: File)

  // ---------------------------------------------------------------------
  // update_all_metadata
  // ---------------------------------------------------------------------

  datatype Outcome = Skipped | UpToDate | Updated | FailedUpdate

  /** What the bulk update does with one directory; `enrich` is the enrichment service's answer. */
  function OutcomeOf(f: DirFiles, enriched: Json -> bool): (o: Outcome)
    ensures o == Skipped <==> f.json.Missing? || f.metadata.Missing? || !Truthy(ScreenshotUrl(f.json))
    ensures o == UpToDate ==> HasScreenshot(f.metadata) == (true, ScreenshotUrl(f.json))
    ensures o in {Updated, FailedUpdate} ==> HasScreenshot(f.metadata) != (true, ScreenshotUrl(f.json))
    ensures o in {Updated, FailedUpdate} ==> (o == Updated <==> enriched(ScreenshotUrl(f.json)))
  {
    if f.json.Missing? || f.metadata.Missing? then Skipped
    else
      var url := ScreenshotUrl(f.json);
      if !Truthy(url) then Skipped
      else
        var (has, existing) := HasScreenshot(f.metadata);
        if has && existing == url then UpToDate
        else if enriched(url) then Updated
        else FailedUpdate
  }

  /** The outcome of directory `d`, with the enrichment service answering for `d`. */
  function DirOutcome(d: DataDir, fs: DataDir -> DirFiles, enrich: (DataDir, Json) -> bool): Outcome {
    OutcomeOf(fs(d), url => enrich(d, url))
  }

  /** How many of `dirs` end with outcome `o`. */
  function CountOutcome(dirs: seq<DataDir>, fs: DataDir -> DirFiles, enrich: (DataDir, Json) -> bool,
                        o: Outcome): nat
  {
    if dirs == [] then 0
    else
      var d := dirs[|dirs| - 1];
      CountOutcome(dirs[..|dirs| - 1], fs, enrich, o)
        + (if DirOutcome(d, fs, enrich) == o then 1 else 0)
  }

  /** Every directory has exactly one outcome. */
  lemma {:induction false} OutcomesPartition(dirs: seq<DataDir>, fs: DataDir -> DirFiles, enrich: (DataDir, Json) -> bool)
    ensures CountOutcome(dirs, fs, enrich, Skipped) + CountOutcome(dirs, fs, enrich, UpToDate)
      + CountOutcome(dirs, fs, enrich, Updated) + CountOutcome(dirs, fs, enrich, FailedUpdate) == |dirs|
  {
    if dirs != [] {
      OutcomesPartition(dirs[..|dirs| - 1], fs, enrich);
    }
  }

  /** No outcome `o` counted exactly when no directory ends with it. */
  lemma {:induction false} CountOutcomeZero(dirs: seq<DataDir>, fs: DataDir -> DirFiles, enrich: (DataDir, Json) -> bool,
                                            o: Outcome)
    ensures CountOutcome(dirs, fs, enrich, o) == 0 <==>
      forall d :: d in dirs ==> DirOutcome(d, fs, enrich) != o
  {
    if dirs != [] {
      var n := |dirs| - 1;
      CountOutcomeZero(dirs[..n], fs, enrich, o);
      assert forall d :: d in dirs <==> d in dirs[..n] || d == dirs[n] by {
        assert dirs == dirs[..n] + [dirs[n]];
      }
    }
  }

  /** The run succeeds exactly when every directory was updated or already up to date. */
  lemma AllAccountedFor(dirs: seq<DataDir>, fs: DataDir -> DirFiles, enrich: (DataDir, Json) -> bool)
    ensures CountOutcome(dirs, fs, enrich, Updated) + CountOutcome(dirs, fs, enrich, UpToDate) == |dirs| <==>
      forall d :: d in dirs ==> DirOutcome(d, fs, enrich) in {Updated, UpToDate}
  {
    OutcomesPartition(dirs, fs, enrich);
    CountOutcomeZero(dirs, fs, enrich, Skipped);
    CountOutcomeZero(dirs, fs, enrich, FailedUpdate);
  }

  /** The body of the bulk update's loop for one directory. */
  method UpdateDirectory(d: DataDir, files: DirFiles, enrich: (DataDir, Json) -> bool) returns (outcome: Outcome)
    ensures outcome == OutcomeOf(files, url => enrich(d, url))
  {
    if files.json.Missing? {
      return Skipped;
    }
    if files.metadata.Missing? {
      return Skipped;
    }
    var screenshotUrl := ScreenshotUrl(files.json);
    if !Truthy(screenshotUrl) {
      return Skipped;
    }
    var (hasScreenshot, existingUrl) := HasScreenshot(files.metadata);
    if hasScreenshot && existingUrl == screenshotUrl {
      return UpToDate;
    }
    var success := enrich(d, screenshotUrl);
    outcome := if success then Updated else FailedUpdate;
  }

  /** The counters of the summary. */
  datatype Summary = Summary(total: nat, successful: nat, alreadyUpdated: nat, skipped: nat)

  /**
   * `update_all_metadata`: `false` with no directory; otherwise each
   * directory is counted under its outcome and the run succeeds when all
   * were updated or already up to date. `fs` gives the files of each
   * directory as they are before the run (each run touches only the
   * metadata file of its own directory).
   */
  method UpdateAllMetadata(dataDirExists: bool, entries: seq<(string, bool)>, fs: DataDir -> DirFiles,
                           enrich: (DataDir, Json) -> bool)
    returns (ok: bool, dirs: seq<DataDir>, summary: Summary)
    ensures Sorted(dirs, DirLe) && (dataDirExists ==> multiset(dirs) == multiset(Candidates(entries)))
    ensures !dataDirExists ==> dirs == []
    ensures summary.total == |dirs|
    ensures summary.successful == CountOutcome(dirs, fs, enrich, Updated)
    ensures summary.alreadyUpdated == CountOutcome(dirs, fs, enrich, UpToDate)
    ensures summary.skipped == CountOutcome(dirs, fs, enrich, Skipped)
    ensures ok <==> dirs != [] && summary.successful + summary.alreadyUpdated == summary.total
  {
    dirs := FindAllDataDirectories(dataDirExists, entries);
    if dirs == [] {
      return false, dirs, Summary(0, 0, 0, 0);
    }
    var total, successful, already, skipped := 0, 0, 0, 0;
    for i := 0 to |dirs|
      invariant total == i
      invariant successful == CountOutcome(dirs[..i], fs, enrich, Updated)
      invariant already == CountOutcome(dirs[..i], fs, enrich, UpToDate)
      invariant skipped == CountOutcome(dirs[..i], fs, enrich, Skipped)
    {
      var d := dirs[i];
      assert dirs[..i + 1][..i] == dirs[..i];
      total := total + 1;
      var outcome := UpdateDirectory(d, fs(d), enrich);
      match outcome
      case Skipped => skipped := skipped + 1;
      case UpToDate => already := already + 1;
      case Updated => successful := successful + 1;
      case FailedUpdate =>
    }
    assert dirs[..|dirs|] == dirs;
    summary := Summary(total, successful, already, skipped);
    ok := successful + already == total;
  }

  // ---------------------------------------------------------------------
  // preview_updates
  // ---------------------------------------------------------------------

  datatype Category = NeedsUpdate | AlreadyUpdated | MissingFiles | NoScreenshotUrl

  /** The list `preview_updates` puts one directory in. */
  function CategoryOf(f: DirFiles): (c: Category)
    ensures c == MissingFiles <==> f.json.Missing? || f.metadata.Missing?
    ensures c == NoScreenshotUrl <==> !f.json.Missing? && !f.metadata.Missing? && !Truthy(ScreenshotUrl(f.json))
    ensures c == AlreadyUpdated ==> HasScreenshot(f.metadata) == (true, ScreenshotUrl(f.json))
    ensures c == NeedsUpdate ==> Truthy(ScreenshotUrl(f.json)) && HasScreenshot(f.metadata) != (true, ScreenshotUrl(f.json))
  {
    if f.json.Missing? || f.metadata.Missing? then MissingFiles
    else
      var url := ScreenshotUrl(f.json);
      if !Truthy(url) then NoScreenshotUrl
      else
        var (has, existing) := HasScreenshot(f.metadata);
        if has && existing == url then AlreadyUpdated else NeedsUpdate
  }

  /** The preview agrees with the update on every directory, whatever the enrichment service answers. */
  lemma PreviewMatchesUpdate(f: DirFiles, enriched: Json -> bool)
    ensures CategoryOf(f) == AlreadyUpdated <==> OutcomeOf(f, enriched) == UpToDate
    ensures CategoryOf(f) in {MissingFiles, NoScreenshotUrl} <==> OutcomeOf(f, enriched) == Skipped
    ensures CategoryOf(f) == NeedsUpdate <==> OutcomeOf(f, enriched) in {Updated, FailedUpdate}
    ensures CategoryOf(f) == NeedsUpdate ==> Truthy(ScreenshotUrl(f.json))
  {
  }

  /** The `(subject, year)` pairs of `dirs` in category `c`, in order. */
  function InCategory(dirs: seq<DataDir>, fs: DataDir -> DirFiles, c: Category): seq<(string, string)> {
    if dirs == [] then []
    else
      var d := dirs[|dirs| - 1];
      InCategory(dirs[..|dirs| - 1], fs, c) + (if CategoryOf(fs(d)) == c then [(d.subject, d.year)] else [])
  }

  /** The directories to update, each with the URL the update would write. */
  function ToUpdate(dirs: seq<DataDir>, fs: DataDir -> DirFiles): seq<(string, string, Json)> {
    if dirs == [] then []
    else
      var d := dirs[|dirs| - 1];
      ToUpdate(dirs[..|dirs| - 1], fs)
        + (if CategoryOf(fs(d)) == NeedsUpdate then [(d.subject, d.year, ScreenshotUrl(fs(d).json))] else [])
  }

  /** Every directory lands in exactly one of the four lists. */
  lemma {:induction false} CategoriesPartition(dirs: seq<DataDir>, fs: DataDir -> DirFiles)
    ensures |ToUpdate(dirs, fs)| + |InCategory(dirs, fs, AlreadyUpdated)|
      + |InCategory(dirs, fs, MissingFiles)| + |InCategory(dirs, fs, NoScreenshotUrl)| == |dirs|
  {
    if dirs != [] {
      CategoriesPartition(dirs[..|dirs| - 1], fs);
    }
  }

  datatype Preview = Preview(
    needsUpdate: seq<(string, string, Json)>, alreadyUpdated: seq<(string, string)>,
    missingFiles: seq<(string, string)>, noScreenshotUrl: seq<(string, string)>)

  /** One pass of the preview loop: which list the directory goes to, and its screenshot URL. */
  method CategorizeDirectory(files: DirFiles) returns (category: Category, screenshotUrl: Json)
    ensures category == CategoryOf(files)
    ensures category == NeedsUpdate ==> screenshotUrl == ScreenshotUrl(files.json)
  {
    if files.json.Missing? || files.metadata.Missing? {
      return MissingFiles, JNull;
    }
    screenshotUrl := ScreenshotUrl(files.json);
    if !Truthy(screenshotUrl) {
      return NoScreenshotUrl, screenshotUrl;
    }
    var (hasScreenshot, existingUrl) := HasScreenshot(files.metadata);
    if hasScreenshot && existingUrl == screenshotUrl {
      category := AlreadyUpdated;
    } else {
      category := NeedsUpdate;
    }
  }

  /** The four lists after one more directory. */
  lemma PreviewSnoc(dirs: seq<DataDir>, i: nat, fs: DataDir -> DirFiles)
    requires i < |dirs|
    ensures var d := dirs[i];
      && ToUpdate(dirs[..i + 1], fs) == ToUpdate(dirs[..i], fs)
           + (if CategoryOf(fs(d)) == NeedsUpdate then [(d.subject, d.year, ScreenshotUrl(fs(d).json))] else [])
      && forall c :: InCategory(dirs[..i + 1], fs, c) == InCategory(dirs[..i], fs, c)
           + (if CategoryOf(fs(d)) == c then [(d.subject, d.year)] else [])
  {
    assert dirs[..i + 1][..i] == dirs[..i];
  }

  /** `preview_updates`: no preview without directories, else the four lists. */
  method PreviewUpdates(dataDirExists: bool, entries: seq<(string, bool)>, fs: DataDir -> DirFiles)
    returns (dirs: seq<DataDir>, preview: Option<Preview>)
    ensures Sorted(dirs, DirLe) && (dataDirExists ==> multiset(dirs) == multiset(Candidates(entries)))
    ensures !dataDirExists ==> dirs == []
    ensures preview.None? <==> dirs == []
    ensures preview.Some? ==>
      && preview.value.needsUpdate == ToUpdate(dirs, fs)
      && preview.value.alreadyUpdated == InCategory(dirs, fs, AlreadyUpdated)
      && preview.value.missingFiles == InCategory(dirs, fs, MissingFiles)
      && preview.value.noScreenshotUrl == InCategory(dirs, fs, NoScreenshotUrl)
  {
    dirs := FindAllDataDirectories(dataDirExists, entries);
    if dirs == [] {
      return dirs, None;
    }
    var needsUpdate: seq<(string, string, Json)> := [];
    var alreadyUpdated: seq<(string, string)> := [];
    var missingFiles: seq<(string, string)> := [];
    var noScreenshotUrl: seq<(string, string)> := [];
    for i := 0 to |dirs|
      invariant needsUpdate == ToUpdate(dirs[..i], fs)
      invariant alreadyUpdated == InCategory(dirs[..i], fs, AlreadyUpdated)
      invariant missingFiles == InCategory(dirs[..i], fs, MissingFiles)
      invariant noScreenshotUrl == InCategory(dirs[..i], fs, NoScreenshotUrl)
    {
      var d := dirs[i];
      PreviewSnoc(dirs, i, fs);
      var category, screenshotUrl := CategorizeDirectory(fs(d));
      match category
      case MissingFiles => missingFiles := missingFiles + [(d.subject, d.year)];
      case NoScreenshotUrl => noScreenshotUrl := noScreenshotUrl + [(d.subject, d.year)];
      case AlreadyUpdated => alreadyUpdated := alreadyUpdated + [(d.subject, d.year)];
      case NeedsUpdate => needsUpdate := needsUpdate + [(d.subject, d.year, screenshotUrl)];
    }
    assert dirs[..|dirs|] == dirs;
    preview := Some(Preview(needsUpdate, alreadyUpdated, missingFiles, noScreenshotUrl));
  }
}
