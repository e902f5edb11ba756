/** The template service (utils/templatesService.ts): record construction on
    top of the store. The fresh id (`crypto.randomUUID`) and the clock
    readings (`Date.now`) are parameters; `createdAt` and `updatedAt` come
    from two separate clock readings and are not assumed equal. */
module TemplatesService {
  import opened Wrappers
  import opened TemplatesRepo

  const NotFound: string := "Template not found"

  /** `getAllTemplates`: every stored template once, in ascending id order. */
  function GetAllTemplates(s: Store): (r: seq<Template>)
    ensures |r| == |s.Keys|
    ensures forall i :: 0 <= i < |r| ==> GetOne(s, r[i].id) == Some(r[i])
    ensures ListsEveryKey(r, s) && IdsAscending(r)
  {
    GetAll(s)
  }

  /** `getDefaultTemplate`: a stored default template, the first by id, or
      nothing when none is default. */
  function GetDefaultTemplate(s: Store): (r: Option<Template>)
    ensures r.None? <==> DefaultIds(s) == {}
    ensures r.Some? ==> r.value.isDefault && GetOne(s, r.value.id) == r
    ensures r.Some? ==> IsLeast(r.value.id, DefaultIds(s))
  {
    GetDefault(s)
  }

  /** `deleteTemplate`: the record is gone and the others are untouched. */
  function DeleteTemplate(s: Store, id: string): (r: Store)
    ensures GetOne(r, id).None?
    ensures r.Keys == s.Keys - {id}
    ensures forall k :: k in r ==> r[k] == s[k]
  {
    Delete(s, id)
  }

  /** `setDefaultTemplate`: afterwards the target is the only default (or
      none is, when the target is not stored), and no record appears or
      disappears. Only the target and the former defaults are rewritten,
      each with nothing but its flag and `updatedAt = now` changed. */
  function SetDefaultTemplate(s: Store, id: string, now: int): (r: Store)
    ensures r.Keys == s.Keys
    ensures DefaultIds(r) == if id in s then {id} else {}
    ensures id in s ==> GetDefault(r) == GetOne(r, id)
    ensures forall k :: k in s && (s[k].isDefault == 1 || k == id) ==>
              r[k] == s[k].(isDefault := if k == id then 1 else 0, updatedAt := now)
    ensures forall k :: k in s && s[k].isDefault == 0 && k != id ==> r[k] == s[k]
  {
    SetDefault(s, id, now)
  }

  /** `createTemplate`: a new record that is not default, stored and
      returned. */
  function CreateTemplate(s: Store, name: string, content: string, id: string, createdAt: int, updatedAt: int)
    : (r: (Template, Store))
    ensures r.0.id == id && r.0.name == name && r.0.content == content && !r.0.isDefault
    ensures r.0.createdAt == createdAt && r.0.updatedAt == updatedAt
    ensures GetOne(r.1, id) == Some(r.0)
    ensures r.1.Keys == s.Keys + {id}
    ensures id !in s ==> forall k :: k in s ==> r.1[k] == s[k]
  {
    var t := Template(id, name, content, false, createdAt, updatedAt);
    (t, CreateOrUpdate(s, t))
  }

  /** `updateTemplate`: "Template not found" when the id is not stored, and
      then nothing is written; otherwise the stored record with the new name
      and content and `updatedAt = now`, stored and returned. */
  function UpdateTemplate(s: Store, id: string, name: string, content: string, now: int)
    : (r: (Result<Template, string>, Store))
    ensures r.0.Failure? <==> id !in s
    ensures r.0.Failure? ==> r.0.error == NotFound && r.1 == s
    ensures r.0.Success? ==>
              var stored := FromDB(s[id]);
              && r.0.value == Template(id, name, content, stored.isDefault, stored.createdAt, now)
              && GetOne(r.1, id) == Some(r.0.value)
              && r.1.Keys == s.Keys
              && forall k :: k in s && k != id ==> r.1[k] == s[k]
  {
    match GetOne(s, id)
    case None => (Failure(NotFound), s)
    case Some(existing) =>
      var updated := existing.(name := name, content := content, updatedAt := now);
      (Success(updated), CreateOrUpdate(s, updated))
  }

  /** Creating with an id already in use replaces that record: the fresh id
      is what keeps existing templates safe. */
  lemma CreateWithTakenIdReplaces(s: Store, name: string, content: string, id: string, createdAt: int, updatedAt: int)
    requires id in s
    ensures var (t, r) := CreateTemplate(s, name, content, id, createdAt, updatedAt);
            r.Keys == s.Keys && GetOne(r, id) == Some(t)
  {
  }

  /** No service operation can leave two defaults behind once at most one
      is stored: creation never makes a default, update keeps the flag,
      deletion removes records, and `setDefault` leaves at most one. */
  lemma ServiceKeepsAtMostOneDefault(s: Store, id: string, name: string, content: string, t0: int, t1: int)
    requires AtMostOneDefault(s)
    ensures AtMostOneDefault(CreateTemplate(s, name, content, id, t0, t1).1)
    ensures AtMostOneDefault(UpdateTemplate(s, id, name, content, t1).1)
    ensures AtMostOneDefault(DeleteTemplate(s, id))
    ensures AtMostOneDefault(SetDefaultTemplate(s, id, t1))
  {
    CreateAddsNoDefault(s, name, content, id, t0, t1);
    FewerDefaults(s, CreateTemplate(s, name, content, id, t0, t1).1);
    UpdateKeepsDefaults(s, id, name, content, t1);
    DeleteAddsNoDefault(s, id);
    FewerDefaults(s, DeleteTemplate(s, id));
    SetDefaultLeavesOne(s, id, t1);
  }

  /** Creation never adds a default. */
  lemma CreateAddsNoDefault(s: Store, name: string, content: string, id: string, t0: int, t1: int)
    ensures DefaultIds(CreateTemplate(s, name, content, id, t0, t1).1) <= DefaultIds(s)
  {
  }

  /** Deletion never adds a default. */
  lemma DeleteAddsNoDefault(s: Store, id: string)
    ensures DefaultIds(DeleteTemplate(s, id)) <= DefaultIds(s)
  {
  }

  /** `setDefaultTemplate` leaves at most one default. */
  lemma SetDefaultLeavesOne(s: Store, id: string, now: int)
    ensures AtMostOneDefault(SetDefaultTemplate(s, id, now))
  {
  }

  /** A store whose defaults are among those of a store with at most one
      default has at most one itself. */
  lemma FewerDefaults(s: Store, r: Store)
    requires AtMostOneDefault(s) && DefaultIds(r) <= DefaultIds(s)
    ensures AtMostOneDefault(r)
  {
  }

  /** An update leaves the set of defaults as it was. */
  lemma UpdateKeepsDefaults(s: Store, id: string, name: string, content: string, now: int)
    ensures DefaultIds(UpdateTemplate(s, id, name, content, now).1) == DefaultIds(s)
  {
  }
}
