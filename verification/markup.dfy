/** The render context built from one parsed file diff
    (entrypoints/github.content/markup.ts, `renderToMarkup` up to the final
    template evaluation). */
module Markup {
  import opened Wrappers
  import opened Text
  import opened ParsedDiffs

  /** The absence marker the diff parser reports for a missing side. */
  const DevNull: string := "/dev/null"

  /** The three named groups of the path pattern. */
  datatype PathGroups = PathGroups(path: string, name: string, ext: string)

  /** File-level facts derived once per diff. */
  datatype FileInfo = FileInfo(
    isAdded: bool,
    isDeleted: bool,
    isModified: bool,
    filePath: string,
    fileName: string,
    fileExt: string,
    langId: string)

  /** What a template sees for one hunk. */
  datatype HunkView = HunkView(
    code: string,
    langId: string,
    filePath: string,
    fileName: string,
    newStart: int,
    oldStart: int,
    isFirst: bool,
    isLast: bool)

  /** The data a template is evaluated against. The two helper lambdas are
      `Text.Trim` and `Text.CollapseWhitespace` applied to rendered text. */
  datatype RenderContext = RenderContext(
    isAdded: bool,
    isDeleted: bool,
    isModified: bool,
    hunkList: seq<HunkView>)

  // ---------------------------------------------------------------------
  // The path pattern ^(?:[ab]\/)(?<path>(?:[^/]+\/)*(?<name>[^/]+\.(?<ext>[^.]+)))$

  predicate NoSlash(s: string) {
    forall i :: 0 <= i < |s| ==> s[i] != '/'
  }

  predicate NoDot(s: string) {
    forall i :: 0 <= i < |s| ==> s[i] != '.'
  }

  /** `(?:[^/]+\/)*`: empty, or slash-terminated segments none of which is
      empty. */
  predicate DirSegments(d: string) {
    |d| == 0 || (d[0] != '/' && d[|d| - 1] == '/'
                 && forall i :: 0 < i < |d| && d[i - 1] == '/' ==> d[i] != '/')
  }

  /** One way the pattern can match: the path splits into a directory part,
      a non-empty slash-free stem, a dot and a non-empty dot-free extension. */
  ghost predicate RegexSplit(g: PathGroups, dir: string, stem: string) {
    && g.path == dir + g.name
    && g.name == stem + "." + g.ext
    && DirSegments(dir)
    && |stem| > 0 && NoSlash(stem)
    && |g.ext| > 0 && NoDot(g.ext)
  }

  /** The pattern matches `s` with groups `g`. */
  ghost predicate PathRegexMatches(s: string, g: PathGroups) {
    && HasDiffPrefix(s)
    && g.path == s[2..]
    && exists dir, stem :: RegexSplit(g, dir, stem)
  }

  /** Index of the last occurrence of `c`, if any. */
  function LastIndexOf(s: string, c: char): (r: Option<nat>)
    ensures r.Some? ==> r.value < |s| && s[r.value] == c
                        && forall i :: r.value < i < |s| ==> s[i] != c
    ensures r.None? ==> forall i :: 0 <= i < |s| ==> s[i] != c
  {
    if |s| == 0 then None
    else if s[|s| - 1] == c then Some(|s| - 1)
    else LastIndexOf(s[..|s| - 1], c)
  }

  lemma {:induction false} LastIndexOfIs(s: string, c: char, k: nat)
    requires k < |s| && s[k] == c
    requires forall i :: k < i < |s| ==> s[i] != c
    ensures LastIndexOf(s, c) == Some(k)
  {
    if k != |s| - 1 {
      LastIndexOfIs(s[..|s| - 1], c, k);
    }
  }

  lemma {:induction false} LastIndexOfAbsent(s: string, c: char)
    requires forall i :: 0 <= i < |s| ==> s[i] != c
    ensures LastIndexOf(s, c) == None
  {
    if |s| > 0 {
      LastIndexOfAbsent(s[..|s| - 1], c);
    }
  }

  /** Where the name group starts: just after the last slash before the
      dot at `k`, or at 0 when there is none. */
  function NameStart(p: string, k: nat): (d: nat)
    requires k <= |p|
    ensures d <= k
    ensures d == 0 || p[d - 1] == '/'
    ensures forall i :: d <= i < k ==> p[i] != '/'
  {
    match LastIndexOf(p[..k], '/')
    case None => 0
    case Some(j) => j + 1
  }

  lemma NameStartIs(p: string, k: nat, d: nat)
    requires d <= k <= |p|
    requires d == 0 || p[d - 1] == '/'
    requires forall i :: d <= i < k ==> p[i] != '/'
    ensures NameStart(p, k) == d
  {
    if d == 0 {
      LastIndexOfAbsent(p[..k], '/');
    } else {
      LastIndexOfIs(p[..k], '/', d - 1);
    }
  }

  /** `filePathWithPrefix.match(...)`: the groups of the match, computed
      from the last dot of the path and the last slash before that dot. */
  function MatchPath(s: string): (r: Option<PathGroups>)
    ensures !HasDiffPrefix(s) ==> r.None?
    ensures r.Some? ==> r.value.path == s[2..] && 0 < |r.value.ext| < |r.value.name| <= |r.value.path|
  {
    if !HasDiffPrefix(s) then None
    else
      var p := s[2..];
      match LastIndexOf(p, '.')
      case None => None
      case Some(k) =>
        if k + 1 == |p| then None
        else
          var d := NameStart(p, k);
          if d == k || !DirSegments(p[..d]) then None
          else Some(PathGroups(p, p[d..], p[k + 1..]))
  }

  /** Every answer `MatchPath` gives is a match of the pattern. */
  lemma MatchPathSound(s: string)
    requires MatchPath(s).Some?
    ensures PathRegexMatches(s, MatchPath(s).value)
  {
    var p := s[2..];
    var k := LastIndexOf(p, '.').value;
    var d := NameStart(p, k);
    assert MatchPath(s).value == PathGroups(p, p[d..], p[k + 1..]);
    GroupsSplit(p, d, k);
  }

  /** A dot at `k` with no dot after it, a slash-free run from `d` to `k`
      and well-formed segments before `d` split the path as the pattern
      does. */
  lemma GroupsSplit(p: string, d: nat, k: nat)
    requires d < k && k + 1 < |p| && p[k] == '.'
    requires forall i :: d <= i < k ==> p[i] != '/'
    requires forall i :: k < i < |p| ==> p[i] != '.'
    requires DirSegments(p[..d])
    ensures RegexSplit(PathGroups(p, p[d..], p[k + 1..]), p[..d], p[d..k])
  {
    var stem, ext := p[d..k], p[k + 1..];
    assert NoSlash(stem) by {
      forall i | 0 <= i < |stem| ensures stem[i] != '/' {
        assert stem[i] == p[d + i];
      }
    }
    assert NoDot(ext) by {
      forall i | 0 <= i < |ext| ensures ext[i] != '.' {
        assert ext[i] == p[k + 1 + i];
      }
    }
    assert p[d..] == stem + "." + ext;
    assert p == p[..d] + p[d..];
  }

  /** Every match of the pattern is the answer `MatchPath` gives, so the
      groups are unique and `MatchPath` fails only when the pattern does. */
  lemma MatchPathComplete(s: string, g: PathGroups)
    requires PathRegexMatches(s, g)
    ensures MatchPath(s) == Some(g)
  {
    var dir, stem :| RegexSplit(g, dir, stem);
    MatchPathOfSplit(s, dir, stem, g.ext);
  }

  /** `MatchPath` recovers the groups of any split of the path. */
  lemma MatchPathOfSplit(s: string, dir: string, stem: string, ext: string)
    requires HasDiffPrefix(s) && s[2..] == dir + (stem + "." + ext)
    requires |stem| > 0 && NoSlash(stem) && |ext| > 0 && NoDot(ext) && DirSegments(dir)
    ensures MatchPath(s) == Some(PathGroups(s[2..], stem + "." + ext, ext))
  {
    var p := s[2..];
    var k := |dir| + |stem|;
    assert LastIndexOf(p, '.') == Some(k) by {
      SplitPositions(p, dir, stem, ext);
      LastIndexOfIs(p, '.', k);
    }
    assert NameStart(p, k) == |dir| by {
      SplitPositions(p, dir, stem, ext);
      NameStartIs(p, k, |dir|);
    }
    assert p[..|dir|] == dir && p[|dir|..] == stem + "." + ext && p[k + 1..] == ext by {
      SplitPositions(p, dir, stem, ext);
    }
    MatchPathAt(s, |dir|, k);
  }

  /** `MatchPath` once the last dot and the name start are known. */
  lemma MatchPathAt(s: string, d: nat, k: nat)
    requires HasDiffPrefix(s) && k + 1 < |s[2..]| && d < k
    requires LastIndexOf(s[2..], '.') == Some(k) && NameStart(s[2..], k) == d
    requires DirSegments(s[2..][..d])
    ensures MatchPath(s) == Some(PathGroups(s[2..], s[2..][d..], s[2..][k + 1..]))
  {
  }

  /** Where the pieces of a split sit in the path. */
  lemma SplitPositions(p: string, dir: string, stem: string, ext: string)
    requires p == dir + (stem + "." + ext)
    requires |stem| > 0 && NoSlash(stem) && |ext| > 0 && NoDot(ext) && DirSegments(dir)
    ensures p[|dir| + |stem|] == '.'
    ensures forall i :: |dir| + |stem| < i < |p| ==> p[i] != '.'
    ensures forall i :: |dir| <= i < |dir| + |stem| ==> p[i] != '/'
    ensures |dir| == 0 || p[|dir| - 1] == '/'
    ensures p[..|dir|] == dir && p[|dir|..] == stem + "." + ext
    ensures p[|dir| + |stem| + 1..] == ext
  {
    var k := |dir| + |stem|;
    assert forall i :: k < i < |p| ==> p[i] == ext[i - k - 1];
    assert forall i :: |dir| <= i < k ==> p[i] == stem[i - |dir|];
    assert |dir| > 0 ==> p[|dir| - 1] == dir[|dir| - 1];
  }

  // ---------------------------------------------------------------------
  // Classification and language id

  /** `langId`: a diff-aware id for modified files, the bare extension for
      wholly added or deleted ones. */
  function LangId(isModified: bool, ext: string): (r: string)
    ensures isModified && ext != "" ==> r == "diff-" + ext
    ensures isModified && ext == "" ==> r == "diff"
    ensures !isModified ==> r == ext
  {
    if isModified then (if ext != "" then "diff-" + ext else "diff") else ext
  }

  /** The file-level part of `renderToMarkup`: flags from the absence
      marker, then path, name and extension from the examined name, which is
      the old one for a deleted file and the new one otherwise (a missing
      name counts as ""). */
  function Classify(d: ParsedDiff): (f: FileInfo)
    ensures f.isAdded <==> d.oldFileName == Some(DevNull)
    ensures f.isDeleted <==> d.newFileName == Some(DevNull)
    ensures f.isModified <==> !f.isAdded && !f.isDeleted
    ensures f.langId == LangId(f.isModified, f.fileExt)
    ensures var examined := if f.isDeleted then d.oldFileName.GetOr("") else d.newFileName.GetOr("");
            && (PathRegexMatches(examined, PathGroups(f.filePath, f.fileName, f.fileExt))
                || (f.filePath == "" && f.fileName == "" && f.fileExt == ""
                    && forall g :: !PathRegexMatches(examined, g)))
  {
    var newName := d.newFileName.GetOr("");
    var oldName := d.oldFileName.GetOr("");
    var isAdded := oldName == DevNull;
    var isDeleted := newName == DevNull;
    var isModified := !isAdded && !isDeleted;
    var examined := if isDeleted then oldName else newName;
    var m := MatchPath(examined);
    var g := m.GetOr(PathGroups("", "", ""));
    MatchPathSpec(examined);
    FileInfo(isAdded, isDeleted, isModified, g.path, g.name, g.ext, LangId(isModified, g.ext))
  }

  /** A modified file whose new name matches the pattern takes its path,
      name and extension from the match. */
  lemma ModifiedClassified(d: ParsedDiff, g: PathGroups)
    requires d.oldFileName.Some? && d.oldFileName.value != DevNull
    requires d.newFileName.Some? && d.newFileName.value != DevNull
    requires MatchPath(d.newFileName.value) == Some(g)
    ensures Classify(d) == FileInfo(false, false, true, g.path, g.name, g.ext, LangId(true, g.ext))
  {
  }

  /** `MatchPath` answers with a match exactly when the pattern matches. */
  lemma MatchPathSpec(s: string)
    ensures MatchPath(s).Some? ==> PathRegexMatches(s, MatchPath(s).value)
    ensures MatchPath(s).None? ==> forall g :: !PathRegexMatches(s, g)
  {
    if MatchPath(s).Some? {
      MatchPathSound(s);
    } else {
      forall g | PathRegexMatches(s, g) ensures false {
        MatchPathComplete(s, g);
      }
    }
  }

  /** Exactly one of the three flags holds, unless both names are the
      marker, in which case `isAdded` and `isDeleted` both hold. */
  lemma ExactlyOneFlag(d: ParsedDiff)
    ensures var f := Classify(d);
            (d.oldFileName == Some(DevNull) && d.newFileName == Some(DevNull))
            || (f.isAdded && !f.isDeleted && !f.isModified)
            || (!f.isAdded && f.isDeleted && !f.isModified)
            || (!f.isAdded && !f.isDeleted && f.isModified)
  {
  }

  /** A file name with no extension yields empty path and name as well. */
  lemma NoExtensionBlanksPath()
    ensures var f := Classify(ParsedDiff(Some("a/Makefile"), Some("b/Makefile"), []));
            f.filePath == "" && f.fileName == "" && f.fileExt == "" && f.langId == "diff"
  {
    var s := "b/Makefile";
    assert s[2..] == "Makefile";
    LastIndexOfAbsent("Makefile", '.');
  }

  // ---------------------------------------------------------------------
  // Hunks

  /** `replace(/^[+-]/gm, "")`: drops one `+` or `-` at the start of the
      text and after every line terminator. `atLineStart` says whether the
      current position is the start of a line. */
  function StripLineMarkers(s: string, atLineStart: bool): (r: string)
    ensures |r| <= |s|
    ensures !atLineStart && NoLineTerminator(s) ==> r == s
  {
    if |s| == 0 then ""
    else if atLineStart && (s[0] == '+' || s[0] == '-') then StripLineMarkers(s[1..], false)
    else [s[0]] + StripLineMarkers(s[1..], IsLineTerminator(s[0]))
  }

  /** Drops the leading `+` or `-` of one line, if it has one; nothing
      else changes. */
  function StripMarker(line: string): (r: string)
    ensures |line| > 0 && line[0] in "+-" ==> r == line[1..]
    ensures !(|line| > 0 && line[0] in "+-") ==> r == line
  {
    if |line| > 0 && line[0] in "+-" then line[1..] else line
  }

  predicate NoLineTerminator(line: string) {
    forall i :: 0 <= i < |line| ==> !IsLineTerminator(line[i])
  }

  /** `code` of a hunk: its lines joined by newlines, with line markers
      dropped when the whole file was added or deleted. */
  function HunkCode(lines: seq<string>, isModified: bool): string {
    var joined := Join(lines, "\n");
    if isModified then joined else StripLineMarkers(joined, true)
  }

  function BuildHunkView(h: Hunk, index: nat, count: nat, f: FileInfo): HunkView {
    HunkView(HunkCode(h.lines, f.isModified), f.langId, f.filePath, f.fileName,
             h.newStart, h.oldStart, index == 0, index == count - 1)
  }

  /** `hunks.map(...)`: one view per hunk in order, each carrying its hunk's
      start lines and code and the file-level fields, with `isFirst` only at
      the first index and `isLast` only at the last. */
  function BuildHunkList(hunks: seq<Hunk>, f: FileInfo): (r: seq<HunkView>)
    ensures |r| == |hunks|
    ensures forall i :: 0 <= i < |r| ==>
              && r[i].newStart == hunks[i].newStart && r[i].oldStart == hunks[i].oldStart
              && r[i].code == HunkCode(hunks[i].lines, f.isModified)
              && r[i].langId == f.langId && r[i].filePath == f.filePath && r[i].fileName == f.fileName
              && (r[i].isFirst <==> i == 0) && (r[i].isLast <==> i == |r| - 1)
  {
    seq(|hunks|, i requires 0 <= i < |hunks| => BuildHunkView(hunks[i], i, |hunks|, f))
  }

  /** `renderToMarkup` without the final evaluation: the view handed to the
      template. The flags come from the absence marker on either side, there
      is one hunk view per hunk of the diff, in order, and every view carries
      the file-level fields of the classification. */
  function BuildContext(d: ParsedDiff): (ctx: RenderContext)
    ensures ctx.isAdded <==> d.oldFileName == Some(DevNull)
    ensures ctx.isDeleted <==> d.newFileName == Some(DevNull)
    ensures ctx.isModified <==> d.oldFileName != Some(DevNull) && d.newFileName != Some(DevNull)
    ensures |ctx.hunkList| == |d.hunks|
    ensures forall i :: 0 <= i < |ctx.hunkList| ==>
              && ctx.hunkList[i].newStart == d.hunks[i].newStart
              && ctx.hunkList[i].oldStart == d.hunks[i].oldStart
              && ctx.hunkList[i].code == HunkCode(d.hunks[i].lines, ctx.isModified)
              && (ctx.hunkList[i].isFirst <==> i == 0)
              && (ctx.hunkList[i].isLast <==> i == |d.hunks| - 1)
    ensures forall i :: 0 <= i < |ctx.hunkList| ==>
              && ctx.hunkList[i].langId == Classify(d).langId
              && ctx.hunkList[i].filePath == Classify(d).filePath
              && ctx.hunkList[i].fileName == Classify(d).fileName
  {
    var f := Classify(d);
    RenderContext(f.isAdded, f.isDeleted, f.isModified, BuildHunkList(d.hunks, f))
  }

  /** The shape every context the builder produces has: consistent flags,
      first/last flags at the ends only, file-level fields shared by all
      hunks. */
  predicate WellFormedContext(ctx: RenderContext) {
    && (ctx.isModified <==> !ctx.isAdded && !ctx.isDeleted)
    && (forall i :: 0 <= i < |ctx.hunkList| ==>
          && (ctx.hunkList[i].isFirst <==> i == 0)
          && (ctx.hunkList[i].isLast <==> i == |ctx.hunkList| - 1))
    && (forall i :: 0 <= i < |ctx.hunkList| ==>
          && ctx.hunkList[i].langId == ctx.hunkList[0].langId
          && ctx.hunkList[i].filePath == ctx.hunkList[0].filePath
          && ctx.hunkList[i].fileName == ctx.hunkList[0].fileName)
  }

  lemma BuildContextWellFormed(d: ParsedDiff)
    ensures WellFormedContext(BuildContext(d))
  {
  }

  /** With a single hunk, that hunk is both first and last. */
  lemma SingleHunkFirstAndLast(d: ParsedDiff)
    requires |d.hunks| == 1
    ensures BuildContext(d).hunkList[0].isFirst && BuildContext(d).hunkList[0].isLast
  {
  }

  // ---------------------------------------------------------------------
  // Marker stripping, line by line

  lemma {:induction false} StripLineMarkersPlain(line: string, atLineStart: bool)
    requires NoLineTerminator(line)
    ensures StripLineMarkers(line, atLineStart) == if atLineStart then StripMarker(line) else line
  {
    if |line| > 0 {
      StripLineMarkersPlain(line[1..], false);
      if !(atLineStart && (line[0] == '+' || line[0] == '-')) {
        assert line == [line[0]] + line[1..];
      }
    }
  }

  lemma {:induction false} StripLineMarkersAcrossNewline(line: string, rest: string, atLineStart: bool)
    requires NoLineTerminator(line)
    ensures StripLineMarkers(line + "\n" + rest, atLineStart)
            == StripLineMarkers(line, atLineStart) + "\n" + StripLineMarkers(rest, true)
  {
    if |line| == 0 {
      assert line + "\n" + rest == "\n" + rest;
      assert ("\n" + rest)[1..] == rest;
    } else {
      assert (line + "\n" + rest)[1..] == line[1..] + "\n" + rest;
      StripLineMarkersAcrossNewline(line[1..], rest, false);
    }
  }

  /** When no line holds a line terminator, the multiline replacement on the
      joined text is the same as dropping one marker from each line. */
  lemma {:induction false} StripJoinedLines(lines: seq<string>)
    requires forall i :: 0 <= i < |lines| ==> NoLineTerminator(lines[i])
    ensures StripLineMarkers(Join(lines, "\n"), true)
            == Join(seq(|lines|, i requires 0 <= i < |lines| => StripMarker(lines[i])), "\n")
  {
    var stripped := seq(|lines|, i requires 0 <= i < |lines| => StripMarker(lines[i]));
    if |lines| == 1 {
      StripLineMarkersPlain(lines[0], true);
    } else if |lines| > 1 {
      StripLineMarkersAcrossNewline(lines[0], Join(lines[1..], "\n"), true);
      StripLineMarkersPlain(lines[0], true);
      StripJoinedLines(lines[1..]);
      assert stripped[1..] == seq(|lines[1..]|, i requires 0 <= i < |lines[1..]| => StripMarker(lines[1..][i]));
    }
  }

  /** The code of a modified file's hunk is its lines joined verbatim; that
      of an added or deleted file's hunk is its lines, each without one
      leading `+` or `-`, joined. */
  lemma HunkCodeByLines(lines: seq<string>, isModified: bool)
    requires forall i :: 0 <= i < |lines| ==> NoLineTerminator(lines[i])
    ensures isModified ==> HunkCode(lines, isModified) == Join(lines, "\n")
    ensures !isModified ==>
              HunkCode(lines, isModified) == Join(seq(|lines|, i requires 0 <= i < |lines| => StripMarker(lines[i])), "\n")
  {
    if !isModified {
      StripJoinedLines(lines);
    }
  }

  /** A new file `x.txt` with lines `+a` and `+b` yields the code `a\nb`
      and the language id `txt`. */
  lemma AddedFileScenario()
    ensures var ctx := BuildContext(ParsedDiff(Some(DevNull), Some("b/x.txt"), [Hunk(0, 1, ["+a", "+b"])]));
            && ctx.isAdded && !ctx.isDeleted && !ctx.isModified
            && ctx.hunkList[0].code == "a\nb" && ctx.hunkList[0].langId == "txt"
            && ctx.hunkList[0].filePath == "x.txt"
  {
    var d := ParsedDiff(Some(DevNull), Some("b/x.txt"), [Hunk(0, 1, ["+a", "+b"])]);
    AddedFileClassified(d);
    AddedCodeStripped();
  }

  lemma AddedFileClassified(d: ParsedDiff)
    requires d.oldFileName == Some(DevNull) && d.newFileName == Some("b/x.txt")
    ensures Classify(d) == FileInfo(true, false, false, "x.txt", "x.txt", "txt", "txt")
  {
    assert "b/x.txt" != DevNull;
    AddedPathMatched();
  }

  lemma AddedPathMatched()
    ensures MatchPath("b/x.txt") == Some(PathGroups("x.txt", "x.txt", "txt"))
  {
    var p := "x.txt";
    assert "b/x.txt"[2..] == p;
    LastIndexOfIs(p, '.', 1);
    NameStartIs(p, 1, 0);
    assert p[..0] == "" && p[0..] == p && p[2..] == "txt";
  }

  lemma AddedCodeStripped()
    ensures HunkCode(["+a", "+b"], false) == "a\nb"
  {
    assert Join(["+a", "+b"], "\n") == "+a\n+b";
    assert StripLineMarkers("+a\n+b", true) == "a\nb" by {
      assert "+a\n+b"[1..] == "a\n+b";
      assert "a\n+b"[1..] == "\n+b";
      assert "\n+b"[1..] == "+b";
      assert "+b"[1..] == "b";
      assert "b"[1..] == "";
    }
  }
}
