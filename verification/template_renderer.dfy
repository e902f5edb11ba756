/** The template renderer hosted in the isolated frame
    (utils/templateRenderer.ts). The template engine itself is external: it
    is a parameter that, given a template source and a context, returns the
    rendered text or the message of the error it threw. */
module TemplateRenderer {
  import opened Wrappers
  import opened Text
  import opened ParsedDiffs
  import opened Markup

  /** Compile the source, then evaluate it against the context. */
  type Engine = (string, RenderContext) -> Result<string, string>

  /** The `trimWhitespace` block helper: the block is rendered against the
      current context first and only the rendered text is trimmed. */
  function TrimWhitespaceHelper(block: RenderContext -> string, ctx: RenderContext): (r: string)
    ensures EdgesClean(r)
    ensures exists i :: FramedSlice(block(ctx), r, i)
  {
    Trim(block(ctx))
  }

  /** The `collapseWhitespace` block helper: every whitespace run of the
      rendered block becomes one space, so the output stays on one line and
      keeps the block's words and its leading and trailing whitespace. */
  function CollapseWhitespaceHelper(block: RenderContext -> string, ctx: RenderContext): (r: string)
    ensures SpacesOnly(r) && NoAdjacentWhitespace(r)
    ensures forall i :: 0 <= i < |r| ==> r[i] != '\n'
    ensures NonWhitespace(r) == NonWhitespace(block(ctx))
    ensures Words(r) == Words(block(ctx))
    ensures StartsWithWhitespace(r) <==> StartsWithWhitespace(block(ctx))
    ensures EndsWithWhitespace(r) <==> EndsWithWhitespace(block(ctx))
  {
    CollapseWhitespace(block(ctx))
  }

  /** The lines of the dummy context's two hunks. The source writes each
      hunk's code as one literal; here it is the same text, spelt as its
      lines joined by newlines. */
  const DummyLines0: seq<string> := [" line2", " line3", " line4", "-line5", " line6", " line7", " line8"]
  const DummyLines1: seq<string> := [" line12", " line13", " line14", "-line15"]

  /** The fixed context `validate` evaluates every template against. */
  const DummyContext: RenderContext := RenderContext(false, false, true, [
    HunkView(Join(DummyLines0, "\n"), "diff-txt", "text.txt", "text.txt", 2, 2, true, false),
    HunkView(Join(DummyLines1, "\n"), "diff-txt", "text.txt", "text.txt", 11, 12, false, true)])

  /** A modified `text.txt` with two hunks: the diff the dummy context
      describes. */
  const DummyDiff: ParsedDiff := ParsedDiff(Some("a/text.txt"), Some("b/text.txt"), [
    Hunk(2, 2, DummyLines0), Hunk(12, 11, DummyLines1)])

  /** The dummy context is well formed: only `isModified` holds, it has a
      first and a last hunk, and it is exactly the context the builder
      produces for a modified `text.txt`, down to the language id. */
  lemma DummyContextWellFormed()
    ensures WellFormedContext(DummyContext)
    ensures !DummyContext.isAdded && !DummyContext.isDeleted && DummyContext.isModified
    ensures |DummyContext.hunkList| == 2
    ensures DummyContext.hunkList[0].langId == LangId(true, "txt")
    ensures DummyContext == BuildContext(DummyDiff)
  {
    DummyDiffClassified();
    DummyHunks();
    BuildContextWellFormed(DummyDiff);
  }

  lemma DummyHunks()
    ensures BuildHunkList(DummyDiff.hunks, DummyFile) == DummyContext.hunkList
  {
    var hunks := BuildHunkList(DummyDiff.hunks, DummyFile);
    assert hunks[0] == DummyContext.hunkList[0] by {
      assert hunks[0].code == HunkCode(DummyLines0, true);
    }
    assert hunks[1] == DummyContext.hunkList[1] by {
      assert hunks[1].code == HunkCode(DummyLines1, true);
    }
  }

  const DummyFile: FileInfo := FileInfo(false, false, true, "text.txt", "text.txt", "txt", "diff-txt")

  /** The dummy diff is a modified text file named `text.txt`. */
  lemma DummyDiffClassified()
    ensures Classify(DummyDiff) == DummyFile
  {
    ModifiedTextClassified(DummyDiff);
  }

  /** Any diff between `a/text.txt` and `b/text.txt` is classified as the
      dummy file, whatever its hunks. */
  lemma ModifiedTextClassified(d: ParsedDiff)
    requires d.oldFileName == Some("a/text.txt") && d.newFileName == Some("b/text.txt")
    ensures Classify(d) == DummyFile
  {
    assert "a/text.txt" != DevNull && "b/text.txt" != DevNull;
    DummyPathMatched();
    ModifiedClassified(d, PathGroups("text.txt", "text.txt", "txt"));
    DummyLangId();
  }

  /** A modified `.txt` file gets the language id `diff-txt`. */
  lemma DummyLangId()
    ensures LangId(true, "txt") == "diff-txt"
  {
    assert "diff-" + "txt" == "diff-txt";
  }

  lemma DummyPathMatched()
    ensures MatchPath("b/text.txt") == Some(PathGroups("text.txt", "text.txt", "txt"))
  {
    var p := "text.txt";
    assert "b/text.txt"[2..] == p;
    LastIndexOfIs(p, '.', 4);
    NameStartIs(p, 4, 0);
    assert p[..0] == "" && p[0..] == p && p[5..] == "txt";
  }

  /** `render`: evaluates against the caller's context. */
  function Render(engine: Engine, source: string, ctx: RenderContext): Result<string, string> {
    engine(source, ctx)
  }

  /** `validate`: evaluates against the dummy context, discards the text and
      reports only whether evaluation threw, and with what message. */
  function Validate(engine: Engine, source: string): (r: Outcome<string>)
    ensures r.Pass? <==> Render(engine, source, DummyContext).Success?
    ensures r.Fail? ==> r.error == Render(engine, source, DummyContext).error
  {
    match engine(source, DummyContext)
    case Success(_) => Pass
    case Failure(e) => Fail(e)
  }

  /** `validate` depends on nothing but how the engine treats the source
      under the dummy context: two engines that agree there validate alike,
      whatever they do on any other context. */
  lemma ValidateIgnoresOtherContexts(e1: Engine, e2: Engine, source: string)
    requires e1(source, DummyContext) == e2(source, DummyContext)
    ensures Validate(e1, source) == Validate(e2, source)
  {
  }

  /** The module-level renderer slot and how many renderers were created. */
  datatype RendererSlot = RendererSlot(global: Option<nat>, created: nat)

  /** `getTemplateRenderer`: creates a renderer (numbered by creation order)
      only when the slot is empty, and returns the one in the slot. */
  function GetTemplateRenderer(slot: RendererSlot): (r: (nat, RendererSlot))
    ensures r.1.global == Some(r.0)
    ensures slot.global.Some? ==> r == (slot.global.value, slot)
    ensures slot.global.None? ==> r.1.created == slot.created + 1
  {
    match slot.global
    case Some(renderer) => (renderer, slot)
    case None => (slot.created, RendererSlot(Some(slot.created), slot.created + 1))
  }

  /** `n` calls in a row: the renderers returned, and the final slot. */
  function CallRepeatedly(slot: RendererSlot, n: nat): (seq<nat>, RendererSlot)
    decreases n
  {
    if n == 0 then ([], slot)
    else
      var (renderer, next) := GetTemplateRenderer(slot);
      var (rest, last) := CallRepeatedly(next, n - 1);
      ([renderer] + rest, last)
  }

  /** However many calls are made, at most one renderer is created and every
      call returns that same instance. */
  lemma {:induction false} RendererCreatedOnce(slot: RendererSlot, n: nat)
    requires n > 0
    decreases n
    ensures var (renderers, last) := CallRepeatedly(slot, n);
            && |renderers| == n
            && (forall i :: 0 <= i < n ==> renderers[i] == renderers[0])
            && last.global == Some(renderers[0])
            && last.created <= slot.created + 1
            && (slot.global.Some? ==> renderers[0] == slot.global.value && last == slot)
  {
    var (renderer, next) := GetTemplateRenderer(slot);
    if n > 1 {
      RendererCreatedOnce(next, n - 1);
    }
  }
}
