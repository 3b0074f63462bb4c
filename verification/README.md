# note-rs search and command dispatch, modelled in Dafny

note-rs is a small command-line notes manager. It reads its settings (a notes
directory and an editor command), then does one of the following, chosen by
its arguments:
- shows help;
- lists the notes;
- opens the configuration file or a new note in the editor;
- deletes a note;
- runs a full-text search over every file in the notes directory.

This project models the part of the program with logic of its own:

- **The per-file scan** `search_file`, in `file_search.dfy`. A file that can
  be opened is a finite sequence of line reads; each read is a decoded line
  or a failed read (invalid UTF-8 or an I/O error alike).
  `FileSearch.SearchFile` keeps, in order, every decoded line that contains
  the term.
  - The match is case-sensitive, on the untrimmed line.
  - Failed reads are skipped.
  - A file that cannot be opened is the panic "File not found". It is a
    distinct outcome, not an error value.
- **The directory search** `search`, in `directory_search.dfy`.
  - The filesystem is given as data: the entries `read_dir` yields for each
    listable directory, in enumeration order, and the line reads of each
    file that can be opened.
  - Printing is the sequence of lines the search would print.
  - `DirectorySearch.Search` is the loop itself, with the source's early
    returns and `continue`. It is proved equal to the specification
    function `SearchSpec`, and the properties are proved about `SearchSpec`.
- **Path joining**, in `paths.dfy`: the rule both the directory listing and
  `delete` use to join a file name onto a directory.
- **Command dispatch and note paths**, in `commands.dfy`.
  - The argument-count match in `main`, `match_singleton_command` and
    `match_complex_command` are pure functions returning the action to
    perform.
  - The paths `delete` and `create_note` build are functions of the notes
    directory and the note name.
- **Order-preserving filtering**, in `filter.dfy`. Both scans keep some
  elements of a sequence in order and drop the rest. `Filter.FilterMap`
  defines this once. It is proved equal, in both directions, to "the
  in-order subsequence taken at exactly the kept positions".

An entry's path is the listed directory joined with the entry's file name,
as a Unix path buffer joins them (`Paths.JoinPath`):
- an absolute name replaces the directory;
- otherwise a `/` separator is inserted unless the directory is empty or
  already ends with one.

`delete` builds its path by the same join. `create_note` formats
`{dir}/{name}.md` instead. The two paths agree whenever the directory is
non-empty, has no trailing separator and the name is relative. With an empty
notes directory they differ: the configuration yields an empty directory
when its key is missing. Both facts are proved.

The empty search term matches every decoded line, the empty line included,
because every string contains the empty string.

## Model

| member | source | states |
|---|---|---|
| FileSearch.Contains | src/main.rs:190 | the case-sensitive substring test on the untrimmed line, trying each starting position from the left; the empty term is contained in every line, and a contained term is no longer than the line |
| FileSearch.MatchingLines | src/main.rs:187-196 | the value the line loop builds: the text of each decoded line containing the term, in file order, at most one per read |
| FileSearch.SearchFile | src/main.rs:179-199 | panics with "File not found" exactly when the path cannot be opened; otherwise returns a record holding the input path and exactly `MatchingLines` of the file's line reads |
| FileSearch.ContainsIffOccurs | src/main.rs:190 | the substring test used on each line holds exactly when the term occurs at some position of the untrimmed line |
| FileSearch.MatchingLinesExact | src/main.rs:187-193 | the kept lines are decoded lines containing the term, verbatim, at strictly increasing line numbers; every decoded line containing the term is kept |
| FileSearch.MatchingLinesUnique | src/main.rs:187-193 | conversely, any in-order selection of exactly the matching decoded lines equals the scan's result and line numbers |
| FileSearch.ReadErrorSkipped | src/main.rs:194 | a failed read changes nothing in the result; the scan continues with the following lines |
| FileSearch.NoMatchingLinesIff | src/main.rs:187-196 | a file contributes no line exactly when none of its decoded lines contains the term |
| FileSearch.NotContainedLetter | src/main.rs:190 | a line lacking one of the term's characters does not contain the term |
| FileSearch.SubstringCases | src/main.rs:190 | the match is exact and case-sensitive: a line equal to the term and a term inside a word match; the empty term matches every line; "Cat" does not contain "cat" |
| FileSearch.SingleMatchExample | src/main.rs:187-193 | the lines "line1", "foo bar", "line3" searched for "foo" yield exactly ["foo bar"] |
| Filter.FilterMapIsFilteredSubsequence | src/main.rs:187-193 | the in-order filtering used by both scans keeps exactly the elements the filter keeps, at strictly increasing positions |
| Filter.FilteredSubsequenceUnique | src/main.rs:141-146 | any in-order subsequence taken at exactly the kept positions is the filtering's result |
| Filter.FilterMapAppend | src/main.rs:136-155 | filtering a concatenation is the concatenation of the filterings |
| Filter.FilterMapEmpty | src/main.rs:142-143 | filtering keeps nothing exactly when the filter keeps no element |
| DirectorySearch.EntryPath | src/main.rs:138 | an entry's path is the listed directory joined with its name: for a relative name it starts with the directory and ends with the name; an absolute name is the path |
| DirectorySearch.ScanStep | src/main.rs:137-153 | one iteration over an entry: an entry error, a non-UTF-8 name or an unopenable path stops the scan with an outcome that is never a completion; otherwise the file's record is added when it has a matching line |
| DirectorySearch.ScanStepExtends | src/main.rs:141-146 | a step that goes on keeps the results so far and adds at most one record, which has a matching line and the entry's path |
| DirectorySearch.ScanEntries | src/main.rs:136-155 | the entry loop from the first entry; a stopped scan never reports completion, and a finished scan holds at most one record per entry |
| DirectorySearch.Report | src/main.rs:161-166 | the printed lines: each result's path followed by its matching lines; empty exactly when there are no results, with at least one line per result |
| DirectorySearch.SearchSpec | src/main.rs:132-169 | what `search` does: an unlistable directory fails with the read_dir error; the search completes exactly when the directory can be listed and the scan gets through all its entries |
| DirectorySearch.PrintResults | src/main.rs:161-166 | the printing loops produce exactly `Report` of the results |
| DirectorySearch.Search | src/main.rs:132-169 | the loop over the entries, with its early returns and `continue`, followed by the printing loops, yields exactly `SearchSpec` |
| DirectorySearch.ScanCompletesIff | src/main.rs:136-155 | the scan gets through all the entries exactly when every entry is a UTF-8 name whose path can be opened; its results are then the non-empty per-file records, in entry order |
| DirectorySearch.StoppedExtends | src/main.rs:137-153 | once the scan has stopped, the entries after it are not examined and do not change the outcome |
| DirectorySearch.FirstUnreadableEntryDecides | src/main.rs:137-153 | the first entry that is an error, a non-UTF-8 name or an unopenable path decides the outcome (entry error, conversion error, or the open panic), whatever follows it |
| DirectorySearch.SearchCompletesIff | src/main.rs:134-155 | the search completes exactly when the directory can be listed and every entry is readable; an unlistable directory fails with the read_dir error before any file is read |
| DirectorySearch.SearchReportsMatchingFiles | src/main.rs:141-146 | a completed search prints the report of the files with a match, in enumeration order |
| DirectorySearch.MatchingFilesExact | src/main.rs:141-146 | a file's record is kept exactly when it has a matching line: the kept records name entries with a match, at strictly increasing positions, and every entry with a match is kept, so there are as many records as such entries |
| DirectorySearch.ReportAppend | src/main.rs:161-166 | the report of consecutive groups of results is the concatenation of their reports |
| DirectorySearch.ReportSingle | src/main.rs:161-166 | one result prints its path and then its matching lines |
| DirectorySearch.NoMatchesNoOutput | src/main.rs:157-159 | a completed search prints nothing exactly when no entry's file has a matching line |
| DirectorySearch.MultiFileExample | src/main.rs:132-169 | notes holding "apple pie", "apple tart" and "banana", searched for "apple", print the first two paths, each followed by its line |
| DirectorySearch.NoMatchExample | src/main.rs:132-169 | notes without the term print nothing and complete; an unlistable directory fails with the read_dir error |
| Commands.Dispatch | src/main.rs:35-40 | one argument, or more than three, shows help; two go to the single-word commands; three go to the commands with an operand; each action is stated as an if-and-only-if on the arguments |
| Commands.MatchSingletonCommand | src/main.rs:79-90 | "help", "list" and "config" select their commands, with the configured directory, editor and file; any other word creates the note of that name |
| Commands.MatchComplexCommand | src/main.rs:92-100 | only "search" and "delete" are recognised, with the operand passed on unmodified; any other word shows help |
| Commands.CommandWordsNeedTheirArity | src/main.rs:35-40 | a bare "search" or "delete" creates a note of that name; "list" or "config" with an operand shows help |
| Paths.JoinPath | src/main.rs:104 | an absolute name replaces the base; otherwise the result starts with the base and ends with the name, with one '/' between them exactly when the base is non-empty and lacks a trailing separator |
| Commands.DeletePath | src/main.rs:102-104 | the deleted path ends with the name followed by ".md" and, for a relative name, starts with the notes directory |
| Commands.CreateNotePath | src/main.rs:124 | the created path is the notes directory, one '/', the name and ".md", in that order, whatever the directory and the name |
| Commands.CreateAndDeleteAgree | src/main.rs:102-124 | creating and deleting a note address the same path when the directory is non-empty without a trailing separator and the name is relative |
| Commands.CreateAndDeleteDisagreeOnEmptyDirectory | src/main.rs:102-124 | with an empty notes directory a note is created at "/name.md" but deleted at "name.md" |

## Left out

- Filesystem I/O (`read_dir`, `File::open`, `BufReader::lines`, `remove_file`) is replaced by the given filesystem value. Entry order is taken as given. Removing the file and its "deleted" message are not modelled.
- Every line stream is finite. Where the reader keeps returning errors without reaching end of file, the source never finishes. That case is not modelled. It is platform-specific: on Unix, opening a directory as a file succeeds and every read of it then fails.
- Line terminators: a decoded line is given without its terminator.
- Arguments that are not valid Unicode are not modelled. `env::args()` panics on them before dispatch, and the arguments here are always strings.
- Running the editor for the configuration file or a new note is not modelled. The model stops at the action and the path handed to the editor.
- Locating and parsing the configuration (`find_config`, `unmarshall_yaml`) is not modelled. The configuration is an input, with a missing key given as the empty string.
- `list_notes` and `get_notes` are not modelled: one directory listing whose names are printed.
- The help text and the exact formatting of error messages are not modelled. Only the kind of each error is kept.
- Non-UTF-8 file names are modelled as one opaque value. Their text is not modelled.
