/** The file path used to anchor the copy button next to a file in the page
    (utils/diff.ts). */
module DiffPath {
  import opened Wrappers
  import opened ParsedDiffs

  /** The absence marker this function checks for: note that it has no
      leading slash, unlike the one the markup builder compares against. */
  const AbsentMarker: string := "dev/null"

  /** A name counts as given when present and not equal to the marker. */
  predicate Given(name: Option<string>) {
    name.Some? && name.value != AbsentMarker
  }

  /** `newFileName ?? oldFileName ?? ""` after both markers were cleared. */
  function ChosenName(d: ParsedDiff): string {
    var newName := if d.newFileName == Some(AbsentMarker) then None else d.newFileName;
    var oldName := if d.oldFileName == Some(AbsentMarker) then None else d.oldFileName;
    newName.GetOr(oldName.GetOr(""))
  }

  /** `replace(/^[ab]\//, "")`: removes at most one leading `a/` or `b/`. */
  function StripDiffPrefix(s: string): (r: string)
    ensures |r| <= |s| && r == s[|s| - |r|..]
    ensures |r| + 2 == |s| <==> HasDiffPrefix(s)
    ensures |r| == |s| <==> !HasDiffPrefix(s)
  {
    if HasDiffPrefix(s) then s[2..] else s
  }

  /** `getFilePath`: the preferred file name without its diff prefix. The
      result is a suffix of the new name when that is given, else of the old
      name when that is given, else empty; it is exactly two characters
      shorter when the name starts with `a/` or `b/`, and the whole name
      otherwise. */
  function GetFilePath(d: ParsedDiff): (r: string)
    ensures var name := if Given(d.newFileName) then d.newFileName.value
                        else if Given(d.oldFileName) then d.oldFileName.value
                        else "";
            && |r| <= |name| && r == name[|name| - |r|..]
            && (|r| + 2 == |name| <==> HasDiffPrefix(name))
            && (|r| == |name| <==> !HasDiffPrefix(name))
  {
    StripDiffPrefix(ChosenName(d))
  }

  /** Only one prefix is removed: `a/b/x` becomes `b/x`. */
  lemma StripsOnePrefix()
    ensures GetFilePath(ParsedDiff(None, Some("a/b/x"), [])) == "b/x"
  {
  }

  /** The slashed marker is an ordinary name here: a deleted file whose new
      name is `/dev/null` gets the path `/dev/null`. */
  lemma SlashedMarkerIsAName(oldName: Option<string>, hunks: seq<Hunk>)
    ensures GetFilePath(ParsedDiff(oldName, Some("/dev/null"), hunks)) == "/dev/null"
  {
  }
}
