/** Unix path joining, as a path buffer does it: used for the entries a
    directory listing yields and for the file `delete` removes. */
module Paths {

  predicate IsAbsolute(path: string) {
    |path| > 0 && path[0] == '/'
  }

  /** A separator goes between a non-empty base and a relative file name
      unless the base already ends with one. */
  predicate NeedsSeparator(base: string) {
    |base| > 0 && base[|base| - 1] != '/'
  }

  /** Joining a file name onto a directory path as a Unix path buffer does it:
      an absolute name replaces the base; otherwise the name is appended, with
      one separator in between when the base lacks a trailing one. */
  function JoinPath(base: string, file: string): (r: string)
    ensures IsAbsolute(file) ==> r == file
    ensures !IsAbsolute(file) ==> |r| >= |base| + |file| && r[..|base|] == base && r[|r| - |file|..] == file
    ensures !IsAbsolute(file) ==> (|r| == |base| + |file| + 1 <==> NeedsSeparator(base))
    ensures !IsAbsolute(file) && NeedsSeparator(base) ==> r[|base|] == '/'
    ensures !IsAbsolute(file) && !NeedsSeparator(base) ==> |r| == |base| + |file|
  {
    if IsAbsolute(file) then file
    else if NeedsSeparator(base) then base + "/" + file
    else base + file
  }
}
