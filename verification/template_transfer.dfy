/** Importing templates from a file (entrypoints/popup/components/
    TemplateTransfer.tsx, `handleImport`). Reading the file and
    `JSON.parse` are outside the model: the input is the file's parse
    result. Fresh ids and clock readings are supplied per element, and
    whether the caller's `onImport` resolves is an input. */
module TemplateTransfer {
  import opened Wrappers
  import opened Text
  import opened TemplatesRepo

  /** A JSON value as `JSON.parse` produces it. Numbers are not used by the
      import and are kept as integers. */
  datatype Json =
    | JNull
    | JBool(b: bool)
    | JNumber(n: int)
    | JString(s: string)
    | JArray(items: seq<Json>)
    | JObject(fields: map<string, Json>)

  /** No file chosen, a file whose text is not JSON, or the parsed value. */
  datatype FileInput = NoFile | Unparsable | Parsed(data: Json)

  /** What one new template takes from outside: an id and two clock readings. */
  datatype Stamp = Stamp(id: string, createdAt: int, updatedAt: int)

  datatype AlertVariant = SuccessAlert | DangerAlert

  datatype Alert = Alert(variant: AlertVariant, message: string)

  /** A handled import: what `onImport` was called with, if it was called,
      and the alert shown. */
  datatype ImportRun = ImportRun(imported: Option<seq<Template>>, alert: Alert)

  const ImportFailed: string := "Failed to import templates"

  /** `typeof value?.[key] === "string"`: only an object can carry the
      property; arrays, strings and the other values have no own `name` or
      `content`. */
  predicate HasString(j: Json, key: string) {
    j.JObject? && key in j.fields && j.fields[key].JString?
  }

  /** The format check: an array whose every element has a string `name` and
      a string `content`. */
  predicate ValidImport(data: Json) {
    data.JArray? && forall i :: 0 <= i < |data.items| ==>
      HasString(data.items[i], "name") && HasString(data.items[i], "content")
  }

  /** The mapping: one new template per element, in order, keeping only the
      element's name and content. */
  function ToTemplates(data: Json, stamp: nat -> Stamp): (r: seq<Template>)
    requires ValidImport(data)
    ensures |r| == |data.items|
    ensures forall i :: 0 <= i < |r| ==>
              && r[i].name == data.items[i].fields["name"].s
              && r[i].content == data.items[i].fields["content"].s
              && !r[i].isDefault
              && r[i].id == stamp(i).id
              && r[i].createdAt == stamp(i).createdAt && r[i].updatedAt == stamp(i).updatedAt
  {
    seq(|data.items|, i requires 0 <= i < |data.items| =>
      Template(stamp(i).id, data.items[i].fields["name"].s, data.items[i].fields["content"].s,
               false, stamp(i).createdAt, stamp(i).updatedAt))
  }

  function SuccessMessage(count: nat): string {
    "Successfully imported " + NatToString(count) + " template(s)"
  }

  /** `handleImport`: nothing happens without a file; an unparsable file or
      one that fails the format check is reported without calling
      `onImport`; otherwise `onImport` receives every new template and the
      alert reports the count, or the failure if `onImport` rejects. */
  function HandleImport(file: FileInput, stamp: nat -> Stamp, onImportResolves: bool): (r: Option<ImportRun>)
    ensures r.None? <==> file.NoFile?
    ensures r.Some? && r.value.imported.None? ==> r.value.alert == Alert(DangerAlert, ImportFailed)
    ensures r.Some? && r.value.imported.Some? ==> file.Parsed? && ValidImport(file.data)
    ensures file.Parsed? && ValidImport(file.data) ==>
              && r.Some? && r.value.imported == Some(ToTemplates(file.data, stamp))
              && r.value.alert == if onImportResolves then Alert(SuccessAlert, SuccessMessage(|file.data.items|))
                                  else Alert(DangerAlert, ImportFailed)
  {
    match file
    case NoFile => None
    case Unparsable => Some(ImportRun(None, Alert(DangerAlert, ImportFailed)))
    case Parsed(data) =>
      if !ValidImport(data) then Some(ImportRun(None, Alert(DangerAlert, ImportFailed)))
      else
        var templates := ToTemplates(data, stamp);
        var alert := if onImportResolves then Alert(SuccessAlert, SuccessMessage(|templates|))
                     else Alert(DangerAlert, ImportFailed);
        Some(ImportRun(Some(templates), alert))
  }

  /** Import is all or nothing: `onImport` is called exactly when the file
      parses and passes the format check, and then with one template per
      element. */
  lemma ImportAllOrNothing(file: FileInput, stamp: nat -> Stamp, ok: bool)
    requires file != NoFile
    ensures HandleImport(file, stamp, ok).value.imported.Some?
            <==> file.Parsed? && ValidImport(file.data)
    ensures HandleImport(file, stamp, ok).value.imported.Some? ==>
              |HandleImport(file, stamp, ok).value.imported.value| == |file.data.items|
  {
  }

  /** One element with a non-string name rejects the whole file, whatever
      the other elements hold. */
  lemma OneBadElementRejectsAll(items: seq<Json>, k: nat, stamp: nat -> Stamp, ok: bool)
    requires k < |items| && !HasString(items[k], "name")
    ensures HandleImport(Parsed(JArray(items)), stamp, ok)
            == Some(ImportRun(None, Alert(DangerAlert, ImportFailed)))
  {
  }

  /** An empty array is accepted and imports nothing. */
  lemma EmptyArrayImportsNothing(stamp: nat -> Stamp)
    ensures HandleImport(Parsed(JArray([])), stamp, true)
            == Some(ImportRun(Some([]), Alert(SuccessAlert, "Successfully imported 0 template(s)")))
  {
    assert NatToString(0) == "0";
    assert SuccessMessage(0) == "Successfully imported 0 template(s)";
    var data := JArray([]);
    assert ValidImport(data);
    assert ToTemplates(data, stamp) == [];
  }

  /** The fields the export writes for a template, as they read back after
      `JSON.stringify` and `JSON.parse`. */
  function Exported(t: Template): Json {
    JObject(map[
      "id" := JString(t.id), "name" := JString(t.name), "content" := JString(t.content),
      "isDefault" := JBool(t.isDefault), "createdAt" := JNumber(t.createdAt),
      "updatedAt" := JNumber(t.updatedAt)])
  }

  /** Round trip: importing exported templates gives back their names and
      contents in order, none of them default, under the new ids and times;
      the old ids, flags and times are discarded. */
  lemma {:induction false} ExportThenImport(ts: seq<Template>, stamp: nat -> Stamp)
    ensures var data := JArray(seq(|ts|, i requires 0 <= i < |ts| => Exported(ts[i])));
            && ValidImport(data)
            && var back := ToTemplates(data, stamp);
               && |back| == |ts|
               && forall i :: 0 <= i < |ts| ==>
                    back[i] == Template(stamp(i).id, ts[i].name, ts[i].content, false,
                                        stamp(i).createdAt, stamp(i).updatedAt)
  {
    var data := JArray(seq(|ts|, i requires 0 <= i < |ts| => Exported(ts[i])));
    forall i | 0 <= i < |ts|
      ensures HasString(data.items[i], "name") && HasString(data.items[i], "content")
      ensures data.items[i].fields["name"].s == ts[i].name
      ensures data.items[i].fields["content"].s == ts[i].content
    {
      assert data.items[i] == Exported(ts[i]);
    }
  }
}
