/** The template list (entrypoints/popup/components/TemplateList.tsx): which
    view is shown, and the order of the cards. `toSorted` is a stable sort
    that returns a new array; here it is a stable insertion sort on an
    immutable sequence, driven by the source's comparator. */
module TemplateList {
  import opened Wrappers
  import opened TemplatesRepo

  /** The comparator: a default template goes first, otherwise the more
      recently updated goes first. */
  function Compare(a: Template, b: Template): (r: int)
    ensures a.isDefault ==> r < 0
    ensures !a.isDefault && b.isDefault ==> r > 0
    ensures !a.isDefault && !b.isDefault ==>
              (r < 0 <==> a.updatedAt > b.updatedAt) && (r == 0 <==> a.updatedAt == b.updatedAt)
  {
    if a.isDefault then -1
    else if b.isDefault then 1
    else b.updatedAt - a.updatedAt
  }

  /** The order the comparator means when no two templates are both
      default: defaults first, then by `updatedAt`, newest first. */
  predicate RankLe(a: Template, b: Template) {
    a.isDefault || (!b.isDefault && b.updatedAt <= a.updatedAt)
  }

  /** Away from a pair of defaults the comparator is a consistent ordering:
      antisymmetric, and its sign agrees with the intended order. */
  lemma CompareConsistent(a: Template, b: Template)
    requires !(a.isDefault && b.isDefault)
    ensures Compare(a, b) == -Compare(b, a)
    ensures Compare(a, b) <= 0 <==> RankLe(a, b)
  {
  }

  /** With two defaults the comparator says each goes before the other. */
  lemma CompareInconsistentOnTwoDefaults(a: Template, b: Template)
    requires a.isDefault && b.isDefault
    ensures Compare(a, b) < 0 && Compare(b, a) < 0
  {
  }

  predicate Ordered(s: seq<Template>) {
    forall i, j :: 0 <= i < j < |s| ==> RankLe(s[i], s[j])
  }

  /** How many templates of `s` are default. */
  function CountDefaults(s: seq<Template>): nat
    decreases |s|
  {
    if |s| == 0 then 0 else (if s[0].isDefault then 1 else 0) + CountDefaults(s[1..])
  }

  predicate AtMostOneDefaultInList(s: seq<Template>) {
    CountDefaults(s) <= 1
  }

  lemma {:induction false} CountDefaultsAppend(a: seq<Template>, b: seq<Template>)
    ensures CountDefaults(a + b) == CountDefaults(a) + CountDefaults(b)
    decreases |a|
  {
    if |a| == 0 {
      assert a + b == b;
    } else {
      assert (a + b)[1..] == a[1..] + b;
      CountDefaultsAppend(a[1..], b);
    }
  }

  /** A default at position `k` is counted. */
  lemma {:induction false} DefaultCounted(s: seq<Template>, k: int)
    requires 0 <= k < |s| && s[k].isDefault
    ensures CountDefaults(s) >= 1
    decreases |s|
  {
    if k > 0 {
      DefaultCounted(s[1..], k - 1);
    }
  }

  /** With at most one default, no two positions hold a default. */
  lemma {:induction false} SingleDefaultPosition(s: seq<Template>, i: int, j: int)
    requires AtMostOneDefaultInList(s)
    requires 0 <= i < j < |s| && s[i].isDefault
    ensures !s[j].isDefault
    decreases |s|
  {
    if i == 0 {
      if s[j].isDefault {
        DefaultCounted(s[1..], j - 1);
        assert false;
      }
    } else {
      SingleDefaultPosition(s[1..], i - 1, j - 1);
    }
  }

  /** Inserts `x` in front of the first element the comparator puts after
      it, so it lands after every element it ties with. */
  function Insert(x: Template, s: seq<Template>): (r: seq<Template>)
    requires Ordered(s)
    ensures Ordered(r)
    ensures multiset(r) == multiset(s) + multiset{x}
    ensures CountDefaults(r) == CountDefaults(s) + if x.isDefault then 1 else 0
    decreases |s|
  {
    if |s| == 0 then [x]
    else if Compare(x, s[0]) < 0 then
      assert ([x] + s)[1..] == s;
      OrderedCons(x, s);
      [x] + s
    else
      var rest := Insert(x, s[1..]);
      assert s == [s[0]] + s[1..];
      assert ([s[0]] + rest)[1..] == rest;
      HeadBeforeInserted(s[0], s[1..], x, rest);
      OrderedCons(s[0], rest);
      [s[0]] + rest
  }

  /** An element ranked before every element of an ordered list can head it. */
  lemma OrderedCons(h: Template, s: seq<Template>)
    requires Ordered(s)
    requires forall k :: 0 <= k < |s| ==> RankLe(h, s[k])
    ensures Ordered([h] + s)
  {
    var r := [h] + s;
    forall i, j | 0 <= i < j < |r|
      ensures RankLe(r[i], r[j])
    {
      assert r[j] == s[j - 1];
      if i > 0 {
        assert r[i] == s[i - 1];
      }
    }
  }

  /** An element ranked before `x` and before every element of `s` is
      ranked before every element of any rearrangement of `s` plus `x`. */
  lemma HeadBeforeInserted(h: Template, s: seq<Template>, x: Template, rest: seq<Template>)
    requires forall k :: 0 <= k < |s| ==> RankLe(h, s[k])
    requires RankLe(h, x)
    requires multiset(rest) == multiset(s) + multiset{x}
    ensures forall k :: 0 <= k < |rest| ==> RankLe(h, rest[k])
  {
    forall k | 0 <= k < |rest|
      ensures RankLe(h, rest[k])
    {
      assert rest[k] in multiset(rest);
      if rest[k] != x {
        assert rest[k] in multiset(s);
        var j :| 0 <= j < |s| && s[j] == rest[k];
      }
    }
  }

  /** `templates.toSorted(comparator)`: the elements of the input, in the
      comparator's order; the input itself is an immutable value. */
  function SortTemplates(s: seq<Template>): (r: seq<Template>)
    ensures Ordered(r)
    ensures multiset(r) == multiset(s)
    ensures CountDefaults(r) == CountDefaults(s)
    decreases |s|
  {
    if |s| == 0 then []
    else
      assert s == s[..|s| - 1] + [s[|s| - 1]];
      CountDefaultsAppend(s[..|s| - 1], [s[|s| - 1]]);
      Insert(s[|s| - 1], SortTemplates(s[..|s| - 1]))
  }

  /** With at most one default, the sorted list puts the default first, the
      rest newest first, and every pair in an order the comparator accepts. */
  lemma SortedOrder(s: seq<Template>)
    requires AtMostOneDefaultInList(s)
    ensures var r := SortTemplates(s);
            && (forall i :: 0 < i < |r| ==> !r[i].isDefault)
            && (forall i, j :: 0 <= i < j < |r| && !r[i].isDefault ==> r[i].updatedAt >= r[j].updatedAt)
            && (forall i, j :: 0 <= i < j < |r| ==> Compare(r[i], r[j]) <= 0)
  {
    var r := SortTemplates(s);
    forall i, j | 0 <= i < j < |r| && r[i].isDefault
      ensures !r[j].isDefault
    {
      SingleDefaultPosition(r, i, j);
    }
  }

  /** Appending an element the comparator puts after every other one
      leaves it at the end. */
  lemma {:induction false} InsertAtEnd(s: seq<Template>, x: Template)
    requires Ordered(s) && Ordered(s + [x])
    requires forall k :: 0 <= k < |s| ==> !(x.isDefault && s[k].isDefault)
    ensures Insert(x, s) == s + [x]
    decreases |s|
  {
    if |s| > 0 {
      assert Ordered(s[1..]) && Ordered(s[1..] + [x]) by {
        assert forall k :: 0 <= k < |s[1..]| ==> s[1..][k] == s[k + 1];
        assert forall k :: 0 <= k < |s[1..] + [x]| ==> (s[1..] + [x])[k] == (s + [x])[k + 1];
      }
      assert RankLe(s[0], x) by {
        assert (s + [x])[0] == s[0] && (s + [x])[|s|] == x;
      }
      assert Compare(x, s[0]) >= 0;
      InsertAtEnd(s[1..], x);
      assert s == [s[0]] + s[1..];
    }
  }

  /** With at most one default, sorting an already sorted list changes
      nothing; in particular sorting is idempotent. */
  lemma {:induction false} SortOrderedIsIdentity(s: seq<Template>)
    requires Ordered(s) && AtMostOneDefaultInList(s)
    ensures SortTemplates(s) == s
    decreases |s|
  {
    if |s| > 0 {
      var init := s[..|s| - 1];
      var x := s[|s| - 1];
      assert s == init + [x];
      CountDefaultsAppend(init, [x]);
      assert Ordered(init) by {
        assert forall k :: 0 <= k < |init| ==> init[k] == s[k];
      }
      forall k | 0 <= k < |init|
        ensures !(x.isDefault && init[k].isDefault)
      {
        if init[k].isDefault {
          SingleDefaultPosition(s, k, |s| - 1);
        }
      }
      SortOrderedIsIdentity(init);
      InsertAtEnd(init, x);
    }
  }

  lemma SortIdempotent(s: seq<Template>)
    requires AtMostOneDefaultInList(s)
    ensures SortTemplates(SortTemplates(s)) == SortTemplates(s)
  {
    SortOrderedIsIdentity(SortTemplates(s));
  }

  /** What the list component shows. */
  datatype ListView = Loading | ErrorAlert(message: string) | EmptyCard | Cards(templates: seq<Template>)

  /** The branches in order: the spinner while loading, then a non-empty
      error (the empty string is falsy), then the empty-state card, then the
      sorted cards. */
  function ChooseView(templates: seq<Template>, loading: bool, error: Option<string>): (r: ListView)
    ensures r.Loading? <==> loading
    ensures r.ErrorAlert? <==> !loading && error.Some? && error.value != ""
    ensures r.ErrorAlert? ==> r.message == error.value
    ensures r.EmptyCard? <==> !loading && (error.None? || error.value == "") && |templates| == 0
    ensures r.Cards? ==> multiset(r.templates) == multiset(templates) && Ordered(r.templates) && |templates| > 0
  {
    if loading then Loading
    else if error.Some? && error.value != "" then ErrorAlert(error.value)
    else if |templates| == 0 then EmptyCard
    else Cards(SortTemplates(templates))
  }
}
