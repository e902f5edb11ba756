/** The template store (utils/templatesRepo.ts). The IndexedDB object store
    "templates" has key path `id` and an index on `isDefault`; here it is an
    immutable map from id to stored record, and each operation is one
    atomic step from store to store. Reads return records in key order, as
    IndexedDB does. IndexedDB compares string keys by UTF-16 code unit;
    here they are compared character by character, which agrees with that
    order except between characters outside the Basic Multilingual Plane
    and characters from U+E000 to U+FFFF. */
module TemplatesRepo {
  import opened Wrappers

  datatype Template = Template(
    id: string, name: string, content: string, isDefault: bool, createdAt: int, updatedAt: int)

  /** A boolean is not a valid key under the W3C Indexed Database API 3.0
      (its "key" definition), so the indexed flag is stored as 0 or 1. */
  type Flag = x: int | 0 <= x <= 1

  datatype TemplateDB = TemplateDB(
    id: string, name: string, content: string, isDefault: Flag, createdAt: int, updatedAt: int)

  /** `toDB`: the same record with the flag stored as 1 or 0. */
  function ToDB(t: Template): (r: TemplateDB)
    ensures r.isDefault == 1 <==> t.isDefault
    ensures r.id == t.id && r.name == t.name && r.content == t.content
    ensures r.createdAt == t.createdAt && r.updatedAt == t.updatedAt
  {
    TemplateDB(t.id, t.name, t.content, if t.isDefault then 1 else 0, t.createdAt, t.updatedAt)
  }

  /** `fromDB`: the same record with the flag read back as a boolean. */
  function FromDB(d: TemplateDB): (r: Template)
    ensures r.isDefault <==> d.isDefault == 1
    ensures r.id == d.id && r.name == d.name && r.content == d.content
    ensures r.createdAt == d.createdAt && r.updatedAt == d.updatedAt
  {
    Template(d.id, d.name, d.content, d.isDefault != 0, d.createdAt, d.updatedAt)
  }

  /** Storing and reading back loses nothing, in either direction. */
  lemma FromToDB(t: Template)
    ensures FromDB(ToDB(t)) == t
  {
  }

  lemma ToFromDB(d: TemplateDB)
    ensures ToDB(FromDB(d)) == d
  {
  }

  // ---------------------------------------------------------------------
  // Key order

  /** The order on string keys: lexicographic on characters (IndexedDB
      compares UTF-16 code units instead; see the module comment). */
  predicate KeyLess(a: string, b: string)
    decreases |a|
  {
    if |a| == 0 then |b| > 0
    else if |b| == 0 then false
    else if a[0] != b[0] then a[0] < b[0]
    else KeyLess(a[1..], b[1..])
  }

  lemma {:induction false} KeyLessIrreflexive(a: string)
    ensures !KeyLess(a, a)
    decreases |a|
  {
    if |a| > 0 {
      KeyLessIrreflexive(a[1..]);
    }
  }

  lemma {:induction false} KeyLessAsymmetric(a: string, b: string)
    requires KeyLess(a, b)
    ensures !KeyLess(b, a)
    decreases |a|
  {
    if |a| > 0 && |b| > 0 && a[0] == b[0] {
      KeyLessAsymmetric(a[1..], b[1..]);
    }
  }

  lemma {:induction false} KeyLessTotal(a: string, b: string)
    requires a != b
    ensures KeyLess(a, b) || KeyLess(b, a)
    decreases |a|
  {
    if |a| > 0 && |b| > 0 && a[0] == b[0] {
      assert a == [a[0]] + a[1..] && b == [b[0]] + b[1..];
      KeyLessTotal(a[1..], b[1..]);
    }
  }

  lemma {:induction false} KeyLessTransitive(a: string, b: string, c: string)
    requires KeyLess(a, b) && KeyLess(b, c)
    ensures KeyLess(a, c)
    decreases |a|
  {
    if |a| > 0 && |b| > 0 && |c| > 0 && a[0] == b[0] == c[0] {
      KeyLessTransitive(a[1..], b[1..], c[1..]);
    }
  }

  /** `m` is the first of `keys` in key order. */
  predicate IsLeast(m: string, keys: set<string>) {
    m in keys && forall k :: k in keys && k != m ==> KeyLess(m, k)
  }

  lemma {:induction false} LeastExists(keys: set<string>)
    requires keys != {}
    ensures exists m :: IsLeast(m, keys)
    decreases |keys|
  {
    var x :| x in keys;
    if keys != {x} {
      var rest := keys - {x};
      LeastExists(rest);
      var m :| IsLeast(m, rest);
      if KeyLess(x, m) {
        forall k | k in keys && k != x
          ensures KeyLess(x, k)
        {
          if k != m {
            KeyLessTransitive(x, m, k);
          }
        }
        assert IsLeast(x, keys);
      } else {
        KeyLessTotal(x, m);
        assert IsLeast(m, keys);
      }
    } else {
      assert IsLeast(x, keys);
    }
  }

  lemma LeastUnique(m1: string, m2: string, keys: set<string>)
    requires IsLeast(m1, keys) && IsLeast(m2, keys)
    ensures m1 == m2
  {
    if m1 != m2 {
      KeyLessAsymmetric(m1, m2);
    }
  }

  lemma LeastUniqueAll(keys: set<string>)
    ensures forall m1, m2 :: IsLeast(m1, keys) && IsLeast(m2, keys) ==> m1 == m2
  {
    forall m1, m2 | IsLeast(m1, keys) && IsLeast(m2, keys)
      ensures m1 == m2
    {
      LeastUnique(m1, m2, keys);
    }
  }

  /** The least key of a non-empty set. */
  function MinKey(keys: set<string>): (m: string)
    requires keys != {}
    ensures IsLeast(m, keys)
  {
    LeastExists(keys);
    LeastUniqueAll(keys);
    var m :| IsLeast(m, keys);
    m
  }

  /** The keys in ascending key order. */
  function SortedKeys(keys: set<string>): (r: seq<string>)
    ensures |r| == |keys|
    ensures forall i :: 0 <= i < |r| ==> r[i] in keys
    ensures forall k :: k in keys ==> k in r
    ensures forall i, j :: 0 <= i < j < |r| ==> KeyLess(r[i], r[j])
    decreases |keys|
  {
    if keys == {} then []
    else
      var m := MinKey(keys);
      var rest := SortedKeys(keys - {m});
      assert forall k :: k in keys && k != m ==> k in rest;
      [m] + rest
  }

  // ---------------------------------------------------------------------
  // The store

  /** The object store's key path is `id`: every record sits under its own id. */
  predicate KeyedById(s: map<string, TemplateDB>) {
    forall k :: k in s ==> s[k].id == k
  }

  type Store = s: map<string, TemplateDB> | KeyedById(s)
    witness map[]

  /** The ids of the records whose stored flag is 1: what the `isDefault`
      index holds under key 1. */
  function DefaultIds(s: Store): (r: set<string>)
    ensures forall k :: k in r <==> k in s && s[k].isDefault == 1
  {
    set k | k in s && s[k].isDefault == 1
  }

  predicate AtMostOneDefault(s: Store) {
    forall a, b :: a in DefaultIds(s) && b in DefaultIds(s) ==> a == b
  }

  /** `createOrUpdate`: `put` of the stored form, which adds the record or
      replaces the one under the same id. */
  function CreateOrUpdate(s: Store, t: Template): (r: Store)
    ensures r.Keys == s.Keys + {t.id}
    ensures FromDB(r[t.id]) == t
    ensures forall k :: k in s && k != t.id ==> r[k] == s[k]
  {
    FromToDB(t);
    s[t.id := ToDB(t)]
  }

  /** `delete`: removes the record under the id, if there is one. */
  function Delete(s: Store, id: string): (r: Store)
    ensures r.Keys == s.Keys - {id}
    ensures forall k :: k in r ==> r[k] == s[k]
  {
    s - {id}
  }

  /** `getOne`: the record under the id, read back, or null. */
  function GetOne(s: Store, id: string): (r: Option<Template>)
    ensures r.Some? <==> id in s
    ensures r.Some? ==> ToDB(r.value) == s[id] && r.value.id == id
  {
    if id in s then Some(FromDB(s[id])) else None
  }

  /** The stored records under `keys`, read back, in that order. */
  function ReadBack(s: Store, keys: seq<string>): (r: seq<Template>)
    requires forall i :: 0 <= i < |keys| ==> keys[i] in s
    ensures |r| == |keys|
    ensures forall i :: 0 <= i < |r| ==> r[i].id == keys[i] && ToDB(r[i]) == s[keys[i]]
  {
    seq(|keys|, i requires 0 <= i < |keys| => FromDB(s[keys[i]]))
  }

  /** Every id stored in `s` is the id of some element of `r`. */
  predicate ListsEveryKey(r: seq<Template>, s: Store) {
    forall k :: k in s ==> exists i :: 0 <= i < |r| && r[i].id == k
  }

  /** The ids of `r` are strictly ascending in key order. */
  predicate IdsAscending(r: seq<Template>) {
    forall i, j :: 0 <= i < j < |r| ==> KeyLess(r[i].id, r[j].id)
  }

  /** `getAll`: every stored record, read back, once each, in key order. */
  function GetAll(s: Store): (r: seq<Template>)
    ensures |r| == |s.Keys|
    ensures forall i :: 0 <= i < |r| ==> r[i].id in s && ToDB(r[i]) == s[r[i].id]
    ensures ListsEveryKey(r, s)
    ensures IdsAscending(r)
  {
    var keys := SortedKeys(s.Keys);
    var r := ReadBack(s, keys);
    assert ListsEveryKey(r, s) by {
      forall k | k in s
        ensures exists i :: 0 <= i < |r| && r[i].id == k
      {
        var i :| 0 <= i < |keys| && keys[i] == k;
        assert r[i].id == k;
      }
    }
    assert IdsAscending(r);
    r
  }

  /** `getDefault`: `getFromIndex` under key 1 returns the first matching
      record in key order, or null when there is none. */
  function GetDefault(s: Store): (r: Option<Template>)
    ensures r.None? <==> DefaultIds(s) == {}
    ensures r.Some? ==> r.value.isDefault && r.value.id in s && ToDB(r.value) == s[r.value.id]
    ensures r.Some? ==> IsLeast(r.value.id, DefaultIds(s))
  {
    var d := DefaultIds(s);
    if d == {} then None else Some(FromDB(s[MinKey(d)]))
  }

  /** Rewriting a stored record through its read-back form changes only the
      rewritten fields. */
  lemma RewriteFlag(x: TemplateDB, flag: bool, now: int)
    ensures ToDB(FromDB(x).(isDefault := flag, updatedAt := now))
            == x.(isDefault := if flag then 1 else 0, updatedAt := now)
  {
  }

  /** The first pass of `setDefault`: every default other than the target is
      rewritten as not default and stamped `now`; the rest is untouched. */
  function ClearOthers(s: Store, id: string, now: int): (r: Store)
    ensures r.Keys == s.Keys
    ensures forall k :: k in s ==>
              r[k] == if s[k].isDefault == 1 && k != id then s[k].(isDefault := 0, updatedAt := now) else s[k]
  {
    var r: map<string, TemplateDB> := map k | k in s ::
      if s[k].isDefault == 1 && k != id then ToDB(FromDB(s[k]).(isDefault := false, updatedAt := now)) else s[k];
    forall k | k in s
      ensures r[k] == if s[k].isDefault == 1 && k != id then s[k].(isDefault := 0, updatedAt := now) else s[k]
    {
      RewriteFlag(s[k], false, now);
    }
    r
  }

  /** `setDefault`: first every default other than the target is rewritten
      as not default, then the target, when present, is rewritten as the
      default; each rewritten record is stamped `updatedAt = now`. */
  function SetDefault(s: Store, id: string, now: int): (r: Store)
    ensures r.Keys == s.Keys
    ensures DefaultIds(r) == if id in s then {id} else {}
    ensures forall k :: k in s && (s[k].isDefault == 1 || k == id) ==>
              r[k] == s[k].(isDefault := if k == id then 1 else 0, updatedAt := now)
    ensures forall k :: k in s && s[k].isDefault == 0 && k != id ==> r[k] == s[k]
  {
    var cleared := ClearOthers(s, id, now);
    if id in cleared then
      var t := FromDB(cleared[id]).(isDefault := true, updatedAt := now);
      RewriteFlag(cleared[id], true, now);
      var r := CreateOrUpdate(cleared, t);
      assert DefaultIds(r) == {id} by {
        forall k | k in r
          ensures r[k].isDefault == 1 <==> k == id
        {
        }
      }
      r
    else
      assert DefaultIds(cleared) == {} by {
        forall k | k in cleared
          ensures cleared[k].isDefault == 0
        {
        }
      }
      cleared
  }

  // ---------------------------------------------------------------------
  // Properties

  /** After `createOrUpdate(t)`, `getOne(t.id)` is `t` and every other id
      reads as before. */
  lemma PutThenGetOne(s: Store, t: Template, k: string)
    ensures GetOne(CreateOrUpdate(s, t), k) == if k == t.id then Some(t) else GetOne(s, k)
  {
  }

  /** After `delete(id)`, `getOne(id)` is null and every other id reads as
      before. */
  lemma DeleteThenGetOne(s: Store, id: string, k: string)
    ensures GetOne(Delete(s, id), k) == if k == id then None else GetOne(s, k)
  {
  }

  /** Deleting an id that is not stored changes nothing. */
  lemma DeleteAbsentIsNoOp(s: Store, id: string)
    requires id !in s
    ensures Delete(s, id) == s
  {
  }

  /** Reference definition of a lookup through the index: the first
      default record of a list. */
  function FirstDefault(ts: seq<Template>): (r: Option<Template>)
    decreases |ts|
  {
    if |ts| == 0 then None
    else if ts[0].isDefault then Some(ts[0])
    else FirstDefault(ts[1..])
  }

  /** `i` is the position of the first default record of `ts`. */
  predicate FirstDefaultIndex(ts: seq<Template>, i: int) {
    0 <= i < |ts| && ts[i].isDefault && forall j :: 0 <= j < i ==> !ts[j].isDefault
  }

  lemma {:induction false} FirstDefaultAt(ts: seq<Template>)
    ensures FirstDefault(ts).None? <==> forall i :: 0 <= i < |ts| ==> !ts[i].isDefault
    ensures FirstDefault(ts).Some? ==>
              exists i :: FirstDefaultIndex(ts, i) && ts[i] == FirstDefault(ts).value
    decreases |ts|
  {
    if |ts| > 0 && !ts[0].isDefault {
      FirstDefaultAt(ts[1..]);
      if FirstDefault(ts[1..]).Some? {
        var i :| FirstDefaultIndex(ts[1..], i) && ts[1..][i] == FirstDefault(ts[1..]).value;
        assert FirstDefaultIndex(ts, i + 1) by {
          forall j | 0 <= j < i + 1
            ensures !ts[j].isDefault
          {
            if j > 0 {
              assert ts[j] == ts[1..][j - 1];
            }
          }
        }
        assert ts[i + 1] == FirstDefault(ts).value;
      } else {
        forall i | 0 <= i < |ts|
          ensures !ts[i].isDefault
        {
          if i > 0 {
            assert ts[i] == ts[1..][i - 1];
          }
        }
      }
    } else if |ts| > 0 {
      assert FirstDefaultIndex(ts, 0);
    }
  }

  lemma FirstDefaultOfGetAll(s: Store, i: int)
    requires FirstDefaultIndex(GetAll(s), i)
    ensures GetDefault(s) == Some(GetAll(s)[i])
  {
    var all := GetAll(s);
    var d := DefaultIds(s);
    FirstDefaultIsLeast(all, s, i);
    LeastUnique(all[i].id, MinKey(d), d);
    FromToDB(all[i]);
  }

  /** In a read-back listing of the store in ascending id order, the first
      default record has the least id among the defaults. */
  lemma FirstDefaultIsLeast(r: seq<Template>, s: Store, i: int)
    requires forall j :: 0 <= j < |r| ==> r[j].id in s && ToDB(r[j]) == s[r[j].id]
    requires ListsEveryKey(r, s) && IdsAscending(r)
    requires FirstDefaultIndex(r, i)
    ensures IsLeast(r[i].id, DefaultIds(s))
  {
    var d := DefaultIds(s);
    forall k | k in d && k != r[i].id
      ensures KeyLess(r[i].id, k)
    {
      var j :| 0 <= j < |r| && r[j].id == k;
      assert r[j].isDefault;
      assert j > i;
    }
  }

  lemma NoDefaultInGetAll(s: Store)
    requires forall i :: 0 <= i < |GetAll(s)| ==> !GetAll(s)[i].isDefault
    ensures DefaultIds(s) == {}
  {
    var all := GetAll(s);
    forall k | k in s
      ensures s[k].isDefault == 0
    {
      var j :| 0 <= j < |all| && all[j].id == k;
      assert !all[j].isDefault;
    }
  }

  /** `getDefault` is the first default record of `getAll`: the index and
      the store agree on key order. */
  lemma GetDefaultIsFirstOfGetAll(s: Store)
    ensures GetDefault(s) == FirstDefault(GetAll(s))
  {
    var all := GetAll(s);
    FirstDefaultAt(all);
    if FirstDefault(all).Some? {
      var i :| FirstDefaultIndex(all, i) && all[i] == FirstDefault(all).value;
      FirstDefaultOfGetAll(s, i);
    } else {
      NoDefaultInGetAll(s);
    }
  }

  /** With at most one default stored, `getDefault` returns that one. */
  lemma GetDefaultReturnsTheDefault(s: Store, id: string)
    requires AtMostOneDefault(s)
    requires id in s && s[id].isDefault == 1
    ensures GetDefault(s) == Some(FromDB(s[id]))
  {
  }

  /** After `setDefault(id)` on a stored id, `getDefault` returns that
      record, freshly stamped, even if several records were default before. */
  lemma SetDefaultThenGetDefault(s: Store, id: string, now: int)
    requires id in s
    ensures AtMostOneDefault(SetDefault(s, id, now))
    ensures GetDefault(SetDefault(s, id, now))
            == Some(FromDB(s[id]).(isDefault := true, updatedAt := now))
  {
    var r := SetDefault(s, id, now);
    GetDefaultReturnsTheDefault(r, id);
  }

  /** After `setDefault(id)` on an id that is not stored, no record is
      default and `getDefault` returns null. */
  lemma SetDefaultAbsentClearsAll(s: Store, id: string, now: int)
    requires id !in s
    ensures GetDefault(SetDefault(s, id, now)).None?
    ensures forall k :: k in s ==> GetOne(SetDefault(s, id, now), k).value.isDefault == false
  {
  }

  /** Setting the same default twice at the same instant is the same as
      setting it once. */
  lemma SetDefaultIdempotent(s: Store, id: string, now: int)
    ensures SetDefault(SetDefault(s, id, now), id, now) == SetDefault(s, id, now)
  {
    var r := SetDefault(s, id, now);
    var r2 := SetDefault(r, id, now);
    assert forall k :: k in r ==> r2[k] == r[k];
  }
}
