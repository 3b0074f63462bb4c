/** The full-text search over the notes directory: `search`.

    The filesystem is given as data: the entries `read_dir` yields for each
    listable directory, in enumeration order, and the line reads of each file
    that can be opened. Printing is modelled as the sequence of lines the
    search would print. */
module DirectorySearch {
  import opened Filter
  import opened FileSearch
  import opened Paths

  /** A directory entry's name, which may not be valid UTF-8. */
  datatype FileName = Utf8Name(text: string) | NonUtf8Name

  /** One item of the directory iterator: a failed entry or a named one. */
  datatype DirEntry = EntryError | Entry(name: FileName)

  datatype FileSystem = FileSystem(dirs: map<string, seq<DirEntry>>, files: map<string, seq<LineRead>>)

  /** The errors `search` returns. */
  datatype SearchError = ReadDirFailed | EntryFailed | PathNotUtf8

  /** How a search ends: it prints its report and returns Ok, returns an
      error having printed nothing, or panics (a file that cannot be opened)
      having printed nothing. */
  datatype SearchOutcome = Completed(output: seq<string>) | Failed(error: SearchError) | Panicked

  /** The state of the scan after a prefix of the entries: the non-empty
      results collected so far, or how the search stopped. */
  datatype Scan = Scanned(results: seq<FileSearchMatches>) | Stopped(outcome: SearchOutcome)

  /** The path of an entry: the listed directory joined with the entry's
      name, so for a relative name it starts with the directory and ends with
      the name. */
  function EntryPath(notesDir: string, name: string): (r: string)
    ensures !IsAbsolute(name) ==> |r| >= |notesDir| + |name| && r[..|notesDir|] == notesDir && r[|r| - |name|..] == name
    ensures IsAbsolute(name) ==> r == name
  {
    JoinPath(notesDir, name)
  }

  /** One iteration of the scan over the entries. */
  function ScanStep(notesDir: string, e: DirEntry, files: map<string, seq<LineRead>>, term: string,
                    results: seq<FileSearchMatches>): (s: Scan)
    ensures s.Stopped? ==> !s.outcome.Completed?
  {
    match e
    case EntryError => Stopped(Failed(EntryFailed))
    case Entry(NonUtf8Name) => Stopped(Failed(PathNotUtf8))
    case Entry(Utf8Name(name)) =>
      var path := EntryPath(notesDir, name);
      if path !in files then Stopped(Panicked)
      else
        var found := FileSearchMatches(path, MatchingLines(files[path], term));
        if |found.matchingLines| <= 0 then Scanned(results) else Scanned(results + [found])
  }

  /** A step that goes on keeps the results so far and adds at most one, a
      record with at least one matching line for the entry's path. */
  lemma ScanStepExtends(notesDir: string, e: DirEntry, files: map<string, seq<LineRead>>, term: string,
                        results: seq<FileSearchMatches>)
    requires ScanStep(notesDir, e, files, term, results).Scanned?
    ensures var s := ScanStep(notesDir, e, files, term, results).results;
      && |results| <= |s| <= |results| + 1 && s[..|results|] == results
      && (|s| > |results| ==> s[|results|].matchingLines != [] && s[|results|].filePath == EntryPath(notesDir, e.name.text))
  {
    var s := ScanStep(notesDir, e, files, term, results).results;
    if |s| > |results| {
      assert s == results + [s[|results|]];
    }
  }

  /** The scan over a sequence of entries, from the first; once stopped it
      stays stopped. */
  function ScanEntries(notesDir: string, entries: seq<DirEntry>, files: map<string, seq<LineRead>>, term: string): (s: Scan)
    ensures s.Stopped? ==> !s.outcome.Completed?
    ensures s.Scanned? ==> |s.results| <= |entries|
  {
    if |entries| == 0 then Scanned([])
    else
      match ScanEntries(notesDir, entries[..|entries| - 1], files, term)
      case Stopped(o) => Stopped(o)
      case Scanned(results) => ScanStep(notesDir, entries[|entries| - 1], files, term, results)
  }

  /** From a scanned prefix, the next entry takes one step. */
  lemma ScanNext(notesDir: string, entries: seq<DirEntry>, i: nat, files: map<string, seq<LineRead>>, term: string,
                 results: seq<FileSearchMatches>)
    requires i < |entries| && ScanEntries(notesDir, entries[..i], files, term) == Scanned(results)
    ensures ScanEntries(notesDir, entries[..i + 1], files, term) == ScanStep(notesDir, entries[i], files, term, results)
  {
    var upTo := entries[..i + 1];
    assert upTo[..|upTo| - 1] == entries[..i];
    assert upTo[|upTo| - 1] == entries[i];
  }

  /** A scan that has stopped by some entry is decided there. */
  lemma StoppedAt(notesDir: string, entries: seq<DirEntry>, i: nat, files: map<string, seq<LineRead>>, term: string)
    requires i <= |entries| && ScanEntries(notesDir, entries[..i], files, term).Stopped?
    ensures ScanEntries(notesDir, entries, files, term) == ScanEntries(notesDir, entries[..i], files, term)
  {
    StoppedExtends(notesDir, entries[..i], entries[i..], files, term);
    assert entries[..i] + entries[i..] == entries;
  }

  /** The printed report: each result's path followed by its matching lines.
      It is empty exactly when there are no results, and it has at least one
      line per result. */
  function Report(results: seq<FileSearchMatches>): (r: seq<string>)
    ensures r == [] <==> results == []
    ensures |r| >= |results|
  {
    if |results| == 0 then []
    else
      var last := results[|results| - 1];
      Report(results[..|results| - 1]) + [last.filePath] + last.matchingLines
  }

  /** What `search` does, as a function of the filesystem. It completes
      exactly when the directory can be listed and the scan gets through all
      its entries. */
  function SearchSpec(fs: FileSystem, notesDir: string, term: string): (r: SearchOutcome)
    ensures notesDir !in fs.dirs ==> r == Failed(ReadDirFailed)
    ensures r.Completed? <==> notesDir in fs.dirs && ScanEntries(notesDir, fs.dirs[notesDir], fs.files, term).Scanned?
  {
    if notesDir !in fs.dirs then Failed(ReadDirFailed)
    else
      match ScanEntries(notesDir, fs.dirs[notesDir], fs.files, term)
      case Stopped(o) => o
      case Scanned(results) => Completed(Report(results))
  }

  /** Once the scan has stopped, later entries are not looked at. */
  lemma {:induction false} StoppedExtends(notesDir: string, before: seq<DirEntry>, after: seq<DirEntry>,
                                          files: map<string, seq<LineRead>>, term: string)
    requires ScanEntries(notesDir, before, files, term).Stopped?
    ensures ScanEntries(notesDir, before + after, files, term) == ScanEntries(notesDir, before, files, term)
  {
    if |after| == 0 {
      assert before + after == before;
    } else {
      var all := before + after;
      StoppedExtends(notesDir, before, after[..|after| - 1], files, term);
      assert all[..|all| - 1] == before + after[..|after| - 1];
    }
  }

  /** `search`: list the directory, scan each entry in enumeration order,
      keep the non-empty results, then print them. */
  method Search(notesDir: string, term: string, fs: FileSystem) returns (outcome: SearchOutcome)
    ensures outcome == SearchSpec(fs, notesDir, term)
  {
    var results: seq<FileSearchMatches> := [];
    if notesDir !in fs.dirs {
      return Failed(ReadDirFailed);
    }
    var entries := fs.dirs[notesDir];
    for i := 0 to |entries|
      invariant ScanEntries(notesDir, entries[..i], fs.files, term) == Scanned(results)
    {
      ScanNext(notesDir, entries, i, fs.files, term, results);
      match entries[i]
      case EntryError =>
        StoppedAt(notesDir, entries, i + 1, fs.files, term);
        return Failed(EntryFailed);
      case Entry(NonUtf8Name) =>
        StoppedAt(notesDir, entries, i + 1, fs.files, term);
        return Failed(PathNotUtf8);
      case Entry(Utf8Name(name)) =>
        var filePath := EntryPath(notesDir, name);
        var searched := SearchFile(filePath, term, fs.files);
        if searched.FileNotFoundPanic? {
          StoppedAt(notesDir, entries, i + 1, fs.files, term);
          return Panicked;
        }
        var searchResult := searched.matches;
        if |searchResult.matchingLines| <= 0 {
          continue;
        } else {
          results := results + [searchResult];
        }
    }
    assert entries[..|entries|] == entries;

    if |results| <= 0 {
      return Completed([]);
    }

    var output := PrintResults(results);
    outcome := Completed(output);
  }

  /** The printing loops of `search`: each result's path, then its matching
      lines, in result order. */
  method PrintResults(results: seq<FileSearchMatches>) returns (output: seq<string>)
    ensures output == Report(results)
  {
    output := [];
    for i := 0 to |results|
      invariant output == Report(results[..i])
    {
      var result := results[i];
      output := output + [result.filePath];
      for j := 0 to |result.matchingLines|
        invariant output == Report(results[..i]) + [result.filePath] + result.matchingLines[..j]
      {
        output := output + [result.matchingLines[j]];
      }
      assert results[..i + 1][..i] == results[..i];
      assert result.matchingLines[..|result.matchingLines|] == result.matchingLines;
    }
    assert results[..|results|] == results;
  }

  /** An entry the scan gets past: a UTF-8 name whose path can be opened. */
  ghost predicate Readable(notesDir: string, e: DirEntry, files: map<string, seq<LineRead>>) {
    e.Entry? && e.name.Utf8Name? && EntryPath(notesDir, e.name.text) in files
  }

  /** A readable entry whose file has at least one matching line. */
  ghost predicate HasMatches(notesDir: string, e: DirEntry, files: map<string, seq<LineRead>>, term: string) {
    Readable(notesDir, e, files) && MatchingLines(files[EntryPath(notesDir, e.name.text)], term) != []
  }

  /** What the search keeps of one entry, when every entry is readable. */
  function EntryMatch(notesDir: string, files: map<string, seq<LineRead>>, term: string): DirEntry -> Option<FileSearchMatches> {
    (e: DirEntry) =>
      if e.Entry? && e.name.Utf8Name? && EntryPath(notesDir, e.name.text) in files then
        var path := EntryPath(notesDir, e.name.text);
        var lines := MatchingLines(files[path], term);
        if |lines| > 0 then Some(FileSearchMatches(path, lines)) else None
      else None
  }

  /** The scan gets through all the entries exactly when each is readable,
      and then its results are those EntryMatch keeps, in entry order. */
  lemma {:induction false} ScanCompletesIff(notesDir: string, entries: seq<DirEntry>, files: map<string, seq<LineRead>>, term: string)
    ensures ScanEntries(notesDir, entries, files, term).Scanned? <==>
      forall k :: 0 <= k < |entries| ==> Readable(notesDir, entries[k], files)
    ensures ScanEntries(notesDir, entries, files, term).Scanned? ==>
      ScanEntries(notesDir, entries, files, term).results == FilterMap(entries, EntryMatch(notesDir, files, term))
  {
    if |entries| > 0 {
      var init := entries[..|entries| - 1];
      ScanCompletesIff(notesDir, init, files, term);
      assert forall k :: 0 <= k < |init| ==> init[k] == entries[k];
    }
  }

  /** The first entry that is not readable decides how the search fails,
      whatever follows it. */
  lemma FirstUnreadableEntryDecides(notesDir: string, entries: seq<DirEntry>, files: map<string, seq<LineRead>>,
                                    term: string, j: nat)
    requires j < |entries| && !Readable(notesDir, entries[j], files)
    requires forall k :: 0 <= k < j ==> Readable(notesDir, entries[k], files)
    ensures entries[j] == EntryError ==> ScanEntries(notesDir, entries, files, term) == Stopped(Failed(EntryFailed))
    ensures entries[j] == Entry(NonUtf8Name) ==> ScanEntries(notesDir, entries, files, term) == Stopped(Failed(PathNotUtf8))
    ensures entries[j].Entry? && entries[j].name.Utf8Name? ==> ScanEntries(notesDir, entries, files, term) == Stopped(Panicked)
  {
    var before := entries[..j];
    ScanCompletesIff(notesDir, before, files, term);
    assert forall k :: 0 <= k < j ==> before[k] == entries[k];
    var scanned := ScanEntries(notesDir, before, files, term);
    assert scanned.Scanned?;
    ScanNext(notesDir, entries, j, files, term, scanned.results);
    StoppedAt(notesDir, entries, j + 1, files, term);
  }

  /** All or nothing: the search completes, and prints, exactly when the
      directory can be listed and every entry is readable; otherwise it
      prints nothing. */
  lemma SearchCompletesIff(fs: FileSystem, notesDir: string, term: string)
    ensures SearchSpec(fs, notesDir, term).Completed? <==>
      notesDir in fs.dirs && forall k :: 0 <= k < |fs.dirs[notesDir]| ==> Readable(notesDir, fs.dirs[notesDir][k], fs.files)
    ensures notesDir !in fs.dirs ==> SearchSpec(fs, notesDir, term) == Failed(ReadDirFailed)
  {
    if notesDir in fs.dirs {
      ScanCompletesIff(notesDir, fs.dirs[notesDir], fs.files, term);
    }
  }

  /** The files with at least one matching line, in enumeration order, when
      every entry is readable. */
  function MatchingFiles(notesDir: string, entries: seq<DirEntry>, files: map<string, seq<LineRead>>, term: string): seq<FileSearchMatches> {
    FilterMap(entries, EntryMatch(notesDir, files, term))
  }

  /** `r` is the record `search_file` returns for entry `e`, and it has a match. */
  ghost predicate IsResultFor(notesDir: string, e: DirEntry, files: map<string, seq<LineRead>>, term: string, r: FileSearchMatches) {
    && HasMatches(notesDir, e, files, term)
    && r.filePath == EntryPath(notesDir, e.name.text)
    && r.matchingLines == MatchingLines(files[r.filePath], term)
  }

  /** A completed search prints the report of MatchingFiles. */
  lemma SearchReportsMatchingFiles(fs: FileSystem, notesDir: string, term: string)
    requires SearchSpec(fs, notesDir, term).Completed?
    ensures notesDir in fs.dirs
    ensures SearchSpec(fs, notesDir, term) == Completed(Report(MatchingFiles(notesDir, fs.dirs[notesDir], fs.files, term)))
  {
    ScanCompletesIff(notesDir, fs.dirs[notesDir], fs.files, term);
  }

  /** MatchingFiles holds exactly the files with a match, in enumeration
      order: the entry positions increase, each names an entry with a match
      whose path and matching lines the result holds, and every entry with a
      match is among them. So a file without a match is left out, and there
      are as many results as entries with a match. */
  lemma MatchingFilesExact(notesDir: string, entries: seq<DirEntry>, files: map<string, seq<LineRead>>, term: string)
    ensures var results, idx := MatchingFiles(notesDir, entries, files, term), KeptIndices(entries, EntryMatch(notesDir, files, term));
      && |idx| == |results|
      && StrictlyIncreasing(idx)
      && (forall k :: 0 <= k < |results| ==> idx[k] < |entries| && IsResultFor(notesDir, entries[idx[k]], files, term, results[k]))
      && (forall j :: 0 <= j < |entries| && HasMatches(notesDir, entries[j], files, term) ==> j in idx)
  {
    var f := EntryMatch(notesDir, files, term);
    FilterMapIsFilteredSubsequence(entries, f);
    var results, idx := FilterMap(entries, f), KeptIndices(entries, f);
    forall k | 0 <= k < |results|
      ensures IsResultFor(notesDir, entries[idx[k]], files, term, results[k])
    {
      assert f(entries[idx[k]]) == Some(results[k]);
    }
    forall j | 0 <= j < |entries| && HasMatches(notesDir, entries[j], files, term)
      ensures j in idx
    {
      assert f(entries[j]).Some?;
    }
  }

  /** The report of consecutive groups of results is the concatenation of
      their reports. */
  lemma {:induction false} ReportAppend(a: seq<FileSearchMatches>, b: seq<FileSearchMatches>)
    ensures Report(a + b) == Report(a) + Report(b)
  {
    if |b| == 0 {
      assert a + b == a;
    } else {
      var b0, last := b[..|b| - 1], b[|b| - 1];
      var tail := [last.filePath] + last.matchingLines;
      ReportAppend(a, b0);
      assert (a + b)[..|a + b| - 1] == a + b0;
      assert (a + b)[|a + b| - 1] == last;
      assert Report(a + b) == Report(a + b0) + tail;
      assert Report(b) == Report(b0) + tail;
      assert Report(a) + Report(b0) + tail == Report(a) + (Report(b0) + tail);
    }
  }

  /** For one result the report is its path and then its lines. */
  lemma ReportSingle(r: FileSearchMatches)
    ensures Report([r]) == [r.filePath] + r.matchingLines
  {
    assert [r][..0] == [];
  }

  /** A completed search prints nothing exactly when no file has a match. */
  lemma NoMatchesNoOutput(fs: FileSystem, notesDir: string, term: string)
    requires SearchSpec(fs, notesDir, term).Completed?
    ensures notesDir in fs.dirs
    ensures SearchSpec(fs, notesDir, term).output == [] <==>
      forall j :: 0 <= j < |fs.dirs[notesDir]| ==> !HasMatches(notesDir, fs.dirs[notesDir][j], fs.files, term)
  {
    SearchReportsMatchingFiles(fs, notesDir, term);
    var entries := fs.dirs[notesDir];
    var f := EntryMatch(notesDir, fs.files, term);
    FilterMapEmpty(entries, f);
    forall j | 0 <= j < |entries|
      ensures f(entries[j]).None? <==> !HasMatches(notesDir, entries[j], fs.files, term)
    {
    }
  }

  /** The scan over two entries, from the two steps it takes. */
  lemma ScanTwo(notesDir: string, e1: DirEntry, e2: DirEntry, files: map<string, seq<LineRead>>, term: string,
                r1: seq<FileSearchMatches>, r2: seq<FileSearchMatches>)
    requires ScanStep(notesDir, e1, files, term, []) == Scanned(r1)
    requires ScanStep(notesDir, e2, files, term, r1) == Scanned(r2)
    ensures ScanEntries(notesDir, [e1, e2], files, term) == Scanned(r2)
  {
    var entries := [e1, e2];
    assert entries[..0] == [];
    ScanNext(notesDir, entries, 0, files, term, []);
    ScanNext(notesDir, entries, 1, files, term, r1);
    assert entries[..2] == entries;
  }

  /** The scan over three entries, from the three steps it takes. */
  lemma ScanThree(notesDir: string, e1: DirEntry, e2: DirEntry, e3: DirEntry, files: map<string, seq<LineRead>>,
                  term: string, r1: seq<FileSearchMatches>, r2: seq<FileSearchMatches>, r3: seq<FileSearchMatches>)
    requires ScanStep(notesDir, e1, files, term, []) == Scanned(r1)
    requires ScanStep(notesDir, e2, files, term, r1) == Scanned(r2)
    requires ScanStep(notesDir, e3, files, term, r2) == Scanned(r3)
    ensures ScanEntries(notesDir, [e1, e2, e3], files, term) == Scanned(r3)
  {
    var entries := [e1, e2, e3];
    assert entries[..0] == [];
    ScanNext(notesDir, entries, 0, files, term, []);
    ScanNext(notesDir, entries, 1, files, term, r1);
    ScanNext(notesDir, entries, 2, files, term, r2);
    assert entries[..3] == entries;
  }

  /** The scan step for an entry whose file is a single decoded line. */
  lemma SingleLineStep(notesDir: string, name: string, files: map<string, seq<LineRead>>, term: string,
                       results: seq<FileSearchMatches>, line: string)
    requires EntryPath(notesDir, name) in files && files[EntryPath(notesDir, name)] == [Line(line)]
    ensures ScanStep(notesDir, Entry(Utf8Name(name)), files, term, results)
      == if Contains(line, term) then Scanned(results + [FileSearchMatches(EntryPath(notesDir, name), [line])])
         else Scanned(results)
  {
    SingletonFilter(Line(line), LineMatch(term));
  }

  /** The scan step for an entry whose single line lacks a character of the
      term: the file contributes nothing. */
  lemma LineWithoutLetterStep(notesDir: string, name: string, files: map<string, seq<LineRead>>, term: string,
                              results: seq<FileSearchMatches>, line: string, ch: char)
    requires EntryPath(notesDir, name) in files && files[EntryPath(notesDir, name)] == [Line(line)]
    requires ch in term && ch !in line
    ensures ScanStep(notesDir, Entry(Utf8Name(name)), files, term, results) == Scanned(results)
  {
    NotContainedLetter(line, term, ch);
    SingleLineStep(notesDir, name, files, term, results, line);
  }

  /** A relative entry name is joined onto a directory without a trailing
      separator with one '/'. */
  lemma RelativeEntryPath(dir: string, name: string)
    requires NeedsSeparator(dir) && !IsAbsolute(name)
    ensures EntryPath(dir, name) == dir + "/" + name
  {
  }

  /** Three notes a.md, b.md and c.md holding "apple pie", "apple tart" and
      "banana": searching for "apple" prints the first two paths, each
      followed by its line. The strings are parameters fixed by the
      preconditions, so that the verifier reasons about the steps of the scan
      rather than evaluating it on literal arguments. */
  lemma MultiFileExample(fs: FileSystem, dir: string, a: string, b: string, c: string,
                         la: string, lb: string, lc: string, term: string)
    requires dir == "notes" && a == "a.md" && b == "b.md" && c == "c.md"
    requires la == "apple pie" && lb == "apple tart" && lc == "banana" && term == "apple"
    requires dir in fs.dirs && fs.dirs[dir] == [Entry(Utf8Name(a)), Entry(Utf8Name(b)), Entry(Utf8Name(c))]
    requires dir + "/" + a in fs.files && fs.files[dir + "/" + a] == [Line(la)]
    requires dir + "/" + b in fs.files && fs.files[dir + "/" + b] == [Line(lb)]
    requires dir + "/" + c in fs.files && fs.files[dir + "/" + c] == [Line(lc)]
    ensures SearchSpec(fs, dir, term) == Completed([dir + "/" + a, la, dir + "/" + b, lb])
  {
    var ra, rb := FileSearchMatches(dir + "/" + a, [la]), FileSearchMatches(dir + "/" + b, [lb]);
    AppleSteps(fs.files, dir, a, b, c, la, lb, lc, term);
    ScanThree(dir, Entry(Utf8Name(a)), Entry(Utf8Name(b)), Entry(Utf8Name(c)), fs.files, term, [ra], [ra, rb], [ra, rb]);
    ReportAppend([ra], [rb]);
    ReportSingle(ra);
    ReportSingle(rb);
    assert [ra] + [rb] == [ra, rb];
  }

  /** The three steps of the scan in MultiFileExample. */
  lemma AppleSteps(files: map<string, seq<LineRead>>, dir: string, a: string, b: string, c: string,
                   la: string, lb: string, lc: string, term: string)
    requires dir == "notes" && a == "a.md" && b == "b.md" && c == "c.md"
    requires la == "apple pie" && lb == "apple tart" && lc == "banana" && term == "apple"
    requires dir + "/" + a in files && files[dir + "/" + a] == [Line(la)]
    requires dir + "/" + b in files && files[dir + "/" + b] == [Line(lb)]
    requires dir + "/" + c in files && files[dir + "/" + c] == [Line(lc)]
    ensures var ra, rb := FileSearchMatches(dir + "/" + a, [la]), FileSearchMatches(dir + "/" + b, [lb]);
      && ScanStep(dir, Entry(Utf8Name(a)), files, term, []) == Scanned([ra])
      && ScanStep(dir, Entry(Utf8Name(b)), files, term, [ra]) == Scanned([ra, rb])
      && ScanStep(dir, Entry(Utf8Name(c)), files, term, [ra, rb]) == Scanned([ra, rb])
  {
    var ra := FileSearchMatches(dir + "/" + a, [la]);
    RelativeEntryPath(dir, a);
    RelativeEntryPath(dir, b);
    RelativeEntryPath(dir, c);
    PrefixContained(la, term);
    PrefixContained(lb, term);
    SingleLineStep(dir, a, files, term, [], la);
    SingleLineStep(dir, b, files, term, [ra], lb);
    LineWithoutLetterStep(dir, c, files, term, [ra, FileSearchMatches(dir + "/" + b, [lb])], lc, 'p');
  }

  /** Notes a.md and b.md holding "hello world" and "goodbye", searched for
      "zzz": the search completes and prints nothing. A directory that cannot
      be listed fails before any file is read. */
  lemma NoMatchExample(fs: FileSystem, dir: string, a: string, b: string, la: string, lb: string, term: string,
                       files: map<string, seq<LineRead>>)
    requires dir == "notes" && a == "a.md" && b == "b.md"
    requires la == "hello world" && lb == "goodbye" && term == "zzz"
    requires dir in fs.dirs && fs.dirs[dir] == [Entry(Utf8Name(a)), Entry(Utf8Name(b))]
    requires dir + "/" + a in fs.files && fs.files[dir + "/" + a] == [Line(la)]
    requires dir + "/" + b in fs.files && fs.files[dir + "/" + b] == [Line(lb)]
    ensures SearchSpec(fs, dir, term) == Completed([])
    ensures SearchSpec(FileSystem(map[], files), dir, term) == Failed(ReadDirFailed)
  {
    RelativeEntryPath(dir, a);
    RelativeEntryPath(dir, b);
    LineWithoutLetterStep(dir, a, fs.files, term, [], la, 'z');
    LineWithoutLetterStep(dir, b, fs.files, term, [], lb, 'z');
    ScanTwo(dir, Entry(Utf8Name(a)), Entry(Utf8Name(b)), fs.files, term, [], []);
  }
}
