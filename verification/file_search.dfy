/** Searching one note file for a term: the per-line scan of `search_file`.

    A file that could be opened is a finite sequence of line reads, each either
    a decoded line (without its terminator) or a failed read. A file that
    cannot be opened makes `search_file` panic with "File not found"; that is
    an outcome of its own, not an error value. */
module FileSearch {
  import opened Filter

  /** One item of the line iterator over an open file: a decoded line, or
      any failed read (invalid UTF-8 or an I/O error alike). */
  datatype LineRead = Line(text: string) | ReadError

  /** The record `search_file` returns. */
  datatype FileSearchMatches = FileSearchMatches(filePath: string, matchingLines: seq<string>)

  /** `search_file` either returns its record or aborts the process. */
  datatype FileOutcome = Opened(matches: FileSearchMatches) | FileNotFoundPanic

  /** `term` occurs in `line` starting at position `i`. */
  ghost predicate OccursAt(line: string, term: string, i: nat) {
    i + |term| <= |line| && line[i..i + |term|] == term
  }

  /** Case-sensitive substring test on the untrimmed line, as `str::contains`
      does it: try each starting position from the left. */
  function Contains(line: string, term: string): (r: bool)
    ensures |term| == 0 ==> r
    ensures r ==> |term| <= |line|
    decreases |line|
  {
    if |term| > |line| then false
    else if term == line[..|term|] then true
    else Contains(line[1..], term)
  }

  /** The scanning test agrees with the definition of a substring. */
  lemma {:induction false} ContainsIffOccurs(line: string, term: string)
    ensures Contains(line, term) <==> exists i: nat :: OccursAt(line, term, i)
    decreases |line|
  {
    if |term| > |line| {
      forall i: nat ensures !OccursAt(line, term, i) { }
    } else if term == line[..|term|] {
      assert OccursAt(line, term, 0);
    } else {
      var tail := line[1..];
      ContainsIffOccurs(tail, term);
      forall i: nat
        ensures OccursAt(tail, term, i) <==> OccursAt(line, term, i + 1)
      {
        if i + |term| <= |tail| {
          assert tail[i..i + |term|] == line[i + 1..i + 1 + |term|];
        }
      }
      if Contains(line, term) {
        var i: nat :| OccursAt(tail, term, i);
        assert OccursAt(line, term, i + 1);
      }
      if exists i: nat :: OccursAt(line, term, i) {
        var i: nat :| OccursAt(line, term, i);
        assert i != 0;
        assert OccursAt(tail, term, i - 1);
      }
    }
  }

  /** What the scan keeps of one line read: the decoded text, when it contains
      the term. */
  function LineMatch(term: string): LineRead -> Option<string> {
    (l: LineRead) => if l.Line? && Contains(l.text, term) then Some(l.text) else None
  }

  /** The matching lines of a file, in file order: at most one per read. */
  function MatchingLines(lines: seq<LineRead>, term: string): (r: seq<string>)
    ensures |r| <= |lines|
  {
    FilterMap(lines, LineMatch(term))
  }

  /** The positions (0-based line numbers) of the matching lines. */
  function MatchingLineNumbers(lines: seq<LineRead>, term: string): seq<nat> {
    KeptIndices(lines, LineMatch(term))
  }

  /** The scan of `search_file`: one forward pass over the lines, keeping each
      decoded line that contains the term and skipping each failed read. */
  method SearchFile(path: string, term: string, files: map<string, seq<LineRead>>) returns (outcome: FileOutcome)
    ensures outcome == FileNotFoundPanic <==> path !in files
    ensures outcome.Opened? ==> outcome.matches.filePath == path
    ensures outcome.Opened? ==> outcome.matches.matchingLines == MatchingLines(files[path], term)
  {
    var result := FileSearchMatches(path, []);
    if path !in files {
      return FileNotFoundPanic;
    }
    var lines := files[path];
    for i := 0 to |lines|
      invariant result.filePath == path
      invariant result.matchingLines == MatchingLines(lines[..i], term)
    {
      assert lines[..i + 1][..i] == lines[..i];
      match lines[i]
      case Line(text) =>
        if Contains(text, term) {
          result := result.(matchingLines := result.matchingLines + [text]);
        }
      case ReadError =>
    }
    assert lines[..|lines|] == lines;
    outcome := Opened(result);
  }

  /** The matching lines are exactly the decoded lines that contain the term,
      verbatim, in file order: the line numbers increase, each names a decoded
      line equal to the kept text, and every decoded line containing the term
      is among them. */
  lemma MatchingLinesExact(lines: seq<LineRead>, term: string)
    ensures var r, idx := MatchingLines(lines, term), MatchingLineNumbers(lines, term);
      && |idx| == |r|
      && StrictlyIncreasing(idx)
      && (forall k :: 0 <= k < |r| ==> idx[k] < |lines| && lines[idx[k]] == Line(r[k]) && Contains(r[k], term))
      && (forall j :: 0 <= j < |lines| && lines[j].Line? && Contains(lines[j].text, term) ==> j in idx)
  {
    var r, idx := MatchingLines(lines, term), MatchingLineNumbers(lines, term);
    FilterMapIsFilteredSubsequence(lines, LineMatch(term));
    forall k | 0 <= k < |r|
      ensures idx[k] < |lines| && lines[idx[k]] == Line(r[k]) && Contains(r[k], term)
    {
      assert LineMatch(term)(lines[idx[k]]) == Some(r[k]);
    }
    forall j | 0 <= j < |lines| && lines[j].Line? && Contains(lines[j].text, term)
      ensures j in idx
    {
      assert LineMatch(term)(lines[j]).Some?;
    }
  }

  /** Conversely, any in-order selection of exactly the matching decoded lines
      is the result of the scan: the scan's result is determined. */
  lemma MatchingLinesUnique(lines: seq<LineRead>, term: string, idx: seq<nat>, r: seq<string>)
    requires |idx| == |r| && StrictlyIncreasing(idx)
    requires forall k :: 0 <= k < |r| ==> idx[k] < |lines| && lines[idx[k]] == Line(r[k]) && Contains(r[k], term)
    requires forall j :: 0 <= j < |lines| && lines[j].Line? && Contains(lines[j].text, term) ==> j in idx
    ensures r == MatchingLines(lines, term) && idx == MatchingLineNumbers(lines, term)
  {
    var f := LineMatch(term);
    forall k | 0 <= k < |idx|
      ensures idx[k] < |lines| && f(lines[idx[k]]) == Some(r[k])
    {
    }
    forall j | 0 <= j < |lines| && f(lines[j]).Some?
      ensures j in idx
    {
    }
    FilteredSubsequenceUnique(lines, f, idx, r);
  }

  /** A failed read is skipped: it changes nothing in the result
      and the scan goes on with the following lines. */
  lemma ReadErrorSkipped(before: seq<LineRead>, after: seq<LineRead>, term: string)
    ensures MatchingLines(before + [ReadError] + after, term) == MatchingLines(before + after, term)
  {
    var f := LineMatch(term);
    FilterMapAppend(before + [ReadError], after, f);
    FilterMapAppend(before, [ReadError], f);
    FilterMapAppend(before, after, f);
    assert FilterMap([ReadError], f) == [] by {
      assert [ReadError][..0] == [];
    }
  }

  /** A file contributes nothing exactly when none of its decoded lines
      contains the term. */
  lemma NoMatchingLinesIff(lines: seq<LineRead>, term: string)
    ensures MatchingLines(lines, term) == [] <==>
      forall j :: 0 <= j < |lines| && lines[j].Line? ==> !Contains(lines[j].text, term)
  {
    FilterMapEmpty(lines, LineMatch(term));
  }

  /** A line lacking one of the term's characters does not contain the term. */
  lemma NotContainedLetter(line: string, term: string, ch: char)
    requires ch in term && ch !in line
    ensures !Contains(line, term)
  {
    ContainsIffOccurs(line, term);
    var k :| 0 <= k < |term| && term[k] == ch;
    forall i: nat ensures !OccursAt(line, term, i) {
      if i + |term| <= |line| {
        assert line[i..i + |term|][k] == line[i + k];
      }
    }
  }

  /** A line that starts with the term contains it. */
  lemma PrefixContained(line: string, term: string)
    requires |term| <= |line| && line[..|term|] == term
    ensures Contains(line, term)
  {
  }

  /** Matching is on the exact text: a line equal to the term, a term inside a
      longer word and the empty term (which every line contains, the empty
      line included) all match, and upper case does not match lower case. */
  lemma SubstringCases(line: string)
    ensures Contains("cat", "cat")
    ensures Contains("concatenate", "cat")
    ensures Contains(line, "")
    ensures !Contains("Cat", "cat")
  {
    assert "concatenate"[3..][..3] == "cat";
    assert "Cat"[..3] != "cat" by {
      assert "Cat"[..3][0] == 'C';
    }
    assert |"Cat"[1..]| == 2;
  }

  /** The file "line1\nfoo bar\nline3" searched for "foo" yields the one line
      "foo bar". The strings are parameters fixed by the preconditions, so
      that the verifier does not evaluate the scan on literal arguments. */
  lemma SingleMatchExample(first: string, second: string, third: string, term: string)
    requires first == "line1" && second == "foo bar" && third == "line3" && term == "foo"
    ensures MatchingLines([Line(first), Line(second), Line(third)], term) == [second]
  {
    var f := LineMatch(term);
    NotContainedLetter(first, term, 'f');
    NotContainedLetter(third, term, 'f');
    PrefixContained(second, term);
    assert Kept(Line(first), f) == [] && Kept(Line(second), f) == [second] && Kept(Line(third), f) == [];
    FilterMapThree(Line(first), Line(second), Line(third), f);
  }
}
