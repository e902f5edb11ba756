/** The template form (entrypoints/popup/components/TemplateFormModal.tsx and
    TemplateFormDialog.tsx): initialisation, submit-time validation, the
    save call and the reset on close. The two components differ only in
    the name of the body field ("content" or "source"), the message for a
    blank body, and the dialog's `isDefault` checkbox, so they share one
    model parameterised by `FormKind`. `mustache.parse` and the caller's
    `onSave` are outside the model: their outcomes are inputs. */
module TemplateForm {
  import opened Wrappers
  import opened Text

  datatype FormKind = Modal | Dialog

  /** The `Errors` object: a field is present exactly when its key was set,
      even to the empty string. */
  datatype Errors = Errors(name: Option<string>, body: Option<string>, general: Option<string>)

  const NoErrors: Errors := Errors(None, None, None)

  /** `Object.keys(newErrors).length` is non-zero. */
  predicate HasErrors(e: Errors) {
    e.name.Some? || e.body.Some? || e.general.Some?
  }

  /** How `mustache.parse(body)` ended: normally, by throwing an `Error`
      with a message, or by throwing something else. */
  datatype ParseOutcome = ParseOk | ParseThrewError(message: string) | ParseThrewOther

  /** How the caller's `onSave` promise settled. */
  datatype SaveOutcome = SaveOk | SaveThrewError(message: string) | SaveThrewOther

  const NameRequired: string := "Template name is required"
  const InvalidSyntax: string := "Invalid Mustache syntax"
  const SaveFailed: string := "Failed to save template"

  function BodyRequired(kind: FormKind): string {
    match kind
    case Modal => "Template content is required"
    case Dialog => "Template source is required"
  }

  /** The template being edited, as the form reads it. */
  datatype Editable = Editable(id: string, name: string, body: string)

  /** The component's state. The modal has no `isDefault` checkbox and
      leaves that field alone. */
  datatype FormState = FormState(name: string, body: string, isDefault: bool, validated: bool, errors: Errors)

  /** What `onSave` receives: trimmed name and body, plus the checkbox in
      the dialog. */
  datatype SaveRequest = SaveRequest(name: string, body: string, isDefault: Option<bool>)

  /** The state after a submit, what `onSave` was called with (if it was),
      and whether `onClose` was called. */
  datatype SubmitRun = SubmitRun(state: FormState, saved: Option<SaveRequest>, closed: bool)

  /** The checks of `handleSubmit`: a blank name, a blank body, and a parse
      failure, which replaces the blank-body message. */
  function Validate(kind: FormKind, name: string, body: string, parse: ParseOutcome): (e: Errors)
    ensures e.general.None?
    ensures e.name.Some? <==> Trim(name) == ""
    ensures e.name.Some? ==> e.name.value == NameRequired
    ensures parse.ParseThrewError? ==> e.body == Some(parse.message)
    ensures parse.ParseThrewOther? ==> e.body == Some(InvalidSyntax)
    ensures parse.ParseOk? ==> (e.body.Some? <==> Trim(body) == "")
    ensures parse.ParseOk? && e.body.Some? ==> e.body.value == BodyRequired(kind)
  {
    var nameError := if Trim(name) == "" then Some(NameRequired) else None;
    var blankBody := if Trim(body) == "" then Some(BodyRequired(kind)) else None;
    var bodyError := match parse
      case ParseOk => blankBody
      case ParseThrewError(m) => Some(m)
      case ParseThrewOther => Some(InvalidSyntax);
    Errors(nameError, bodyError, None)
  }

  /** `handleSubmit`: marks the form validated; with errors it shows them
      and stops; otherwise it calls `onSave` with the trimmed values, then
      `onClose` if the save resolves, or shows only a general error if it
      rejects. */
  function Submit(kind: FormKind, st: FormState, parse: ParseOutcome, save: SaveOutcome): (r: SubmitRun)
    ensures r.state.validated
    ensures r.state.name == st.name && r.state.body == st.body && r.state.isDefault == st.isDefault
    ensures r.saved.None? <==> HasErrors(Validate(kind, st.name, st.body, parse))
    ensures r.saved.None? ==> r.state.errors == Validate(kind, st.name, st.body, parse) && !r.closed
    ensures r.saved.Some? ==>
              && r.saved.value.name == Trim(st.name) && r.saved.value.body == Trim(st.body)
              && r.saved.value.isDefault == (if kind.Dialog? then Some(st.isDefault) else None)
    ensures r.closed <==> r.saved.Some? && save.SaveOk?
    ensures r.closed ==> r.state.errors == st.errors
    ensures r.saved.Some? && !r.closed ==>
              r.state.errors.name.None? && r.state.errors.body.None? && r.state.errors.general.Some?
  {
    var errors := Validate(kind, st.name, st.body, parse);
    var marked := st.(validated := true);
    if HasErrors(errors) then SubmitRun(marked.(errors := errors), None, false)
    else
      var request := SaveRequest(Trim(st.name), Trim(st.body), if kind.Dialog? then Some(st.isDefault) else None);
      match save
      case SaveOk => SubmitRun(marked, Some(request), true)
      case SaveThrewError(m) => SubmitRun(marked.(errors := Errors(None, None, Some(m))), Some(request), false)
      case SaveThrewOther => SubmitRun(marked.(errors := Errors(None, None, Some(SaveFailed))), Some(request), false)
  }

  /** `onSave` is called exactly when the trimmed name and body are both
      non-empty and the body parses. */
  lemma SubmitSavesIff(kind: FormKind, st: FormState, parse: ParseOutcome, save: SaveOutcome)
    ensures Submit(kind, st, parse, save).saved.Some?
            <==> Trim(st.name) != "" && Trim(st.body) != "" && parse.ParseOk?
  {
  }

  /** A parse error with an empty message still blocks the save: the error
      key is present even though its text is empty. */
  lemma EmptyParseMessageStillBlocks(kind: FormKind, st: FormState, save: SaveOutcome)
    ensures Submit(kind, st, ParseThrewError(""), save).saved.None?
    ensures Submit(kind, st, ParseThrewError(""), save).state.errors.body == Some("")
  {
  }

  /** The modal's `useEffect` on opening: the fields take the template's
      values (or blanks for a new one) and the errors and validation mark
      are cleared. Nothing happens while the modal is hidden. */
  function ModalOpen(show: bool, template: Option<Editable>, st: FormState): (r: FormState)
    ensures !show ==> r == st
    ensures show ==> !r.validated && r.errors == NoErrors && r.isDefault == st.isDefault
    ensures show ==> r.name == (if template.Some? then template.value.name else "")
    ensures show ==> r.body == (if template.Some? then template.value.body else "")
  {
    if !show then st
    else
      match template
      case Some(t) => st.(name := t.name, body := t.body, validated := false, errors := NoErrors)
      case None => st.(name := "", body := "", validated := false, errors := NoErrors)
  }

  /** The dialog's `useEffect`: as the modal's, and the checkbox starts
      ticked exactly when the template is the current default. A new
      template has no id, and `undefined` never equals the default id. */
  function DialogInit(template: Option<Editable>, defaultTemplateId: Option<string>): (r: FormState)
    ensures r.isDefault <==> template.Some? && defaultTemplateId == Some(template.value.id)
    ensures !r.validated && r.errors == NoErrors
    ensures r.name == (if template.Some? then template.value.name else "")
    ensures r.body == (if template.Some? then template.value.body else "")
  {
    match template
    case Some(t) => FormState(t.name, t.body, defaultTemplateId == Some(t.id), false, NoErrors)
    case None => FormState("", "", false, false, NoErrors)
  }

  /** The modal's `onHide` and the dialog's `handleClose`: every field is
      reset and `onClose` is called. */
  function Close(kind: FormKind, st: FormState): (r: (FormState, bool))
    ensures r.1
    ensures r.0.name == "" && r.0.body == "" && !r.0.validated && r.0.errors == NoErrors
    ensures kind.Dialog? ==> !r.0.isDefault
    ensures kind.Modal? ==> r.0.isDefault == st.isDefault
  {
    (FormState("", "", if kind.Dialog? then false else st.isDefault, false, NoErrors), true)
  }

  /** After a reset, submitting without typing anything is refused with
      both required-field messages, and nothing is saved. */
  lemma SubmitAfterCloseRefused(kind: FormKind, st: FormState, save: SaveOutcome)
    ensures var r := Submit(kind, Close(kind, st).0, ParseOk, save);
            && r.saved.None? && !r.closed
            && r.state.errors == Errors(Some(NameRequired), Some(BodyRequired(kind)), None)
  {
    assert Trim("") == "" by {
      assert TrimStart("") == "";
    }
  }

  /** Opening the modal on a template and submitting unchanged saves its
      name and body trimmed, once they are non-blank and parse. */
  lemma OpenThenSubmitSavesTrimmed(t: Editable, st: FormState, save: SaveOutcome)
    requires Trim(t.name) != "" && Trim(t.body) != ""
    ensures Submit(Modal, ModalOpen(true, Some(t), st), ParseOk, save).saved
            == Some(SaveRequest(Trim(t.name), Trim(t.body), None))
  {
    var shown := ModalOpen(true, Some(t), st);
    assert shown.name == t.name && shown.body == t.body;
    assert !HasErrors(Validate(Modal, t.name, t.body, ParseOk));
    SubmitWithoutErrors(Modal, shown, ParseOk, save);
  }

  /** A form that passes validation saves its trimmed values. */
  lemma SubmitWithoutErrors(kind: FormKind, st: FormState, parse: ParseOutcome, save: SaveOutcome)
    requires !HasErrors(Validate(kind, st.name, st.body, parse))
    ensures Submit(kind, st, parse, save).saved
            == Some(SaveRequest(Trim(st.name), Trim(st.body), if kind.Dialog? then Some(st.isDefault) else None))
  {
  }
}
