/** The parsed unified diff handed over by the external diff parser: one
    file's old and new names (either may be missing) and its hunks. */
module ParsedDiffs {
  import opened Wrappers

  /** One hunk: its 1-based start lines and its raw lines, each still
      carrying its `+`, `-` or space marker. */
  datatype Hunk = Hunk(oldStart: int, newStart: int, lines: seq<string>)

  datatype ParsedDiff = ParsedDiff(oldFileName: Option<string>, newFileName: Option<string>, hunks: seq<Hunk>)

  /** The name starts with the two-character prefix `a/` or `b/` that the
      diff tool puts in front of repository paths. */
  predicate HasDiffPrefix(s: string) {
    |s| >= 2 && (s[0] == 'a' || s[0] == 'b') && s[1] == '/'
  }
}
