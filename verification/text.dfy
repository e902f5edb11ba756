/** String operations of the JavaScript runtime that the source relies on:
    the whitespace class shared by `String.prototype.trim` and the regular
    expression escape `\s`, `trim()`, `replace(/\s+/g, " ")`,
    `Array.prototype.join` and decimal formatting of counts. */
module Text {

  /** ECMAScript WhiteSpace and LineTerminator code points. `trim()` strips
      exactly these, and `\s` matches exactly these. */
  predicate IsWhitespace(c: char) {
    || c == '\t' || c == '\n' || c == '\U{0B}' || c == '\U{0C}' || c == '\r'
    || c == ' ' || c == '\U{A0}' || c == '\U{1680}'
    || ('\U{2000}' <= c <= '\U{200A}')
    || c == '\U{2028}' || c == '\U{2029}' || c == '\U{202F}' || c == '\U{205F}'
    || c == '\U{3000}' || c == '\U{FEFF}'
  }

  /** ECMAScript LineTerminator code points: the positions after which `^`
      matches in a multiline regular expression. */
  predicate IsLineTerminator(c: char) {
    c == '\n' || c == '\r' || c == '\U{2028}' || c == '\U{2029}'
  }

  predicate AllWhitespace(s: string) {
    forall i :: 0 <= i < |s| ==> IsWhitespace(s[i])
  }

  /** Neither the first nor the last character is whitespace. */
  predicate EdgesClean(s: string) {
    |s| == 0 || (!IsWhitespace(s[0]) && !IsWhitespace(s[|s| - 1]))
  }

  /** Removes the leading whitespace run. */
  function TrimStart(s: string): (r: string)
    ensures |r| <= |s| && r == s[|s| - |r|..]
    ensures AllWhitespace(s[..|s| - |r|])
    ensures |r| == 0 || !IsWhitespace(r[0])
  {
    if |s| > 0 && IsWhitespace(s[0]) then TrimStart(s[1..]) else s
  }

  /** Removes the trailing whitespace run. */
  function TrimEnd(s: string): (r: string)
    ensures |r| <= |s| && r == s[..|r|]
    ensures AllWhitespace(s[|r|..])
    ensures |r| == 0 || !IsWhitespace(r[|r| - 1])
  {
    if |s| > 0 && IsWhitespace(s[|s| - 1]) then TrimEnd(s[..|s| - 1]) else s
  }

  /** `r` sits in `s` at offset `i`, with only whitespace before and after it. */
  predicate FramedSlice(s: string, r: string, i: int) {
    && 0 <= i <= |s| - |r| && r == s[i..i + |r|]
    && AllWhitespace(s[..i]) && AllWhitespace(s[i + |r|..])
  }

  /** `String.prototype.trim`: the input with its leading and trailing
      whitespace runs removed, i.e. a contiguous slice of the input framed by
      whitespace on both sides and with no whitespace at either edge. */
  function Trim(s: string): (r: string)
    ensures EdgesClean(r)
    ensures exists i :: FramedSlice(s, r, i)
  {
    TrimFramed(s);
    TrimEnd(TrimStart(s))
  }

  /** Stripping the leading run and then the trailing run leaves an
      edge-clean slice framed by whitespace. */
  lemma TrimFramed(s: string)
    ensures EdgesClean(TrimEnd(TrimStart(s)))
    ensures FramedSlice(s, TrimEnd(TrimStart(s)), |s| - |TrimStart(s)|)
  {
    var t := TrimStart(s);
    var r := TrimEnd(t);
    FramedByParts(s, t, r);
    assert |r| > 0 ==> r[0] == t[0];
  }

  /** A prefix `r` of a suffix `t` of `s`, with whitespace before `t` and
      after `r`, is a framed slice of `s`. */
  lemma FramedByParts(s: string, t: string, r: string)
    requires |t| <= |s| && t == s[|s| - |t|..] && AllWhitespace(s[..|s| - |t|])
    requires |r| <= |t| && r == t[..|r|] && AllWhitespace(t[|r|..])
    ensures FramedSlice(s, r, |s| - |t|)
  {
    var i := |s| - |t|;
    assert s[i + |r|..] == t[|r|..];
  }

  /** `Trim` is the only way to split a string into a whitespace prefix, an
      edge-clean middle and a whitespace suffix: the middle is what it keeps. */
  lemma {:induction false} TrimUnique(p: string, m: string, q: string)
    requires AllWhitespace(p) && AllWhitespace(q) && EdgesClean(m)
    ensures Trim(p + m + q) == m
  {
    assert p + m + q == p + (m + q);
    TrimStartSkipsWhitespace(p, m + q);
    if |m| == 0 {
      assert m + q == q + "";
      TrimStartSkipsWhitespace(q, "");
      assert TrimStart(p + m + q) == "";
    } else {
      assert (m + q)[0] == m[0];
      assert TrimStart(m + q) == m + q;
      TrimEndSkipsWhitespace(m, q);
    }
  }

  lemma {:induction false} TrimStartSkipsWhitespace(p: string, t: string)
    requires AllWhitespace(p)
    ensures TrimStart(p + t) == TrimStart(t)
  {
    if |p| > 0 {
      assert (p + t)[1..] == p[1..] + t;
      TrimStartSkipsWhitespace(p[1..], t);
    } else {
      assert p + t == t;
    }
  }

  lemma {:induction false} TrimEndSkipsWhitespace(m: string, q: string)
    requires AllWhitespace(q)
    requires |m| > 0 && !IsWhitespace(m[|m| - 1])
    ensures TrimEnd(m + q) == m
  {
    if |q| > 0 {
      assert (m + q)[..|m + q| - 1] == m + q[..|q| - 1];
      TrimEndSkipsWhitespace(m, q[..|q| - 1]);
    } else {
      assert m + q == m;
    }
  }

  /** A string that does not start with whitespace has nothing to strip. */
  lemma TrimStartClean(t: string)
    requires |t| == 0 || !IsWhitespace(t[0])
    ensures TrimStart(t) == t
  {
  }

  /** An edge-clean string is its own trim. */
  lemma TrimOfClean(m: string)
    requires EdgesClean(m)
    ensures Trim(m) == m
  {
    TrimStartClean(m);
    assert TrimEnd(m) == m;
  }

  /** Trimming an already trimmed string changes nothing. */
  lemma TrimIdempotent(s: string)
    ensures Trim(Trim(s)) == Trim(s)
  {
    TrimOfClean(Trim(s));
  }

  /** The non-whitespace characters of `s`, in order. */
  function NonWhitespace(s: string): string {
    if |s| == 0 then ""
    else if IsWhitespace(s[0]) then NonWhitespace(s[1..])
    else [s[0]] + NonWhitespace(s[1..])
  }

  lemma {:induction false} NonWhitespaceOfSuffix(s: string, k: nat)
    requires k <= |s| && AllWhitespace(s[..k])
    ensures NonWhitespace(s[k..]) == NonWhitespace(s)
  {
    if k > 0 {
      assert s[1..][..k - 1] == s[1..k];
      assert s[1..][k - 1..] == s[k..];
      NonWhitespaceOfSuffix(s[1..], k - 1);
    }
  }

  /** Every whitespace character present is a plain space. */
  predicate SpacesOnly(s: string) {
    forall i :: 0 <= i < |s| && IsWhitespace(s[i]) ==> s[i] == ' '
  }

  /** No two neighbouring characters are both whitespace. */
  predicate NoAdjacentWhitespace(s: string) {
    forall i :: 0 < i < |s| && IsWhitespace(s[i - 1]) ==> !IsWhitespace(s[i])
  }

  /** The length of the non-whitespace run that `s` starts with. */
  function WordLength(s: string): (n: nat)
    ensures n <= |s|
  {
    if |s| == 0 || IsWhitespace(s[0]) then 0 else 1 + WordLength(s[1..])
  }

  /** The run `WordLength` measures is maximal: no whitespace inside it, and
      whitespace or the end of the string right after it. */
  lemma {:induction false} WordLengthMaximal(s: string)
    ensures forall i :: 0 <= i < WordLength(s) ==> !IsWhitespace(s[i])
    ensures WordLength(s) == |s| || IsWhitespace(s[WordLength(s)])
  {
    if |s| > 0 && !IsWhitespace(s[0]) {
      WordLengthMaximal(s[1..]);
    }
  }

  /** The maximal non-whitespace runs of `s`, in order: the pieces `\s+`
      separates. */
  function Words(s: string): seq<string>
    decreases |s|
  {
    if |s| == 0 then []
    else if IsWhitespace(s[0]) then Words(s[1..])
    else
      var n := WordLength(s);
      [s[..n]] + Words(s[n..])
  }

  /** A single space when `b` holds, nothing otherwise. */
  function SpaceIf(b: bool): string {
    if b then " " else ""
  }

  predicate StartsWithWhitespace(s: string) {
    |s| > 0 && IsWhitespace(s[0])
  }

  predicate EndsWithWhitespace(s: string) {
    |s| > 0 && IsWhitespace(s[|s| - 1])
  }

  /** `replace(/\s+/g, " ")`: each maximal whitespace run becomes a single
      space. The words are kept, in order; the result starts and ends with
      whitespace exactly when the input does, and that whitespace is one
      space. */
  function CollapseWhitespace(s: string): (r: string)
    ensures |r| == 0 <==> |s| == 0
    ensures StartsWithWhitespace(r) <==> StartsWithWhitespace(s)
    ensures EndsWithWhitespace(r) <==> EndsWithWhitespace(s)
    ensures SpacesOnly(r)
    ensures NoAdjacentWhitespace(r)
    ensures NonWhitespace(r) == NonWhitespace(s)
    ensures Words(r) == Words(s)
    decreases |s|
  {
    if |s| == 0 then ""
    else if IsWhitespace(s[0]) then
      var rest := TrimStart(s);
      var y := CollapseWhitespace(rest);
      var p := s[..|s| - |rest|];
      assert p + rest == s;
      CollapseLeadingRun(p, rest, y);
      " " + y
    else
      var y := CollapseWhitespace(s[1..]);
      CollapseLeadingChar(s[0], s[1..], y);
      assert [s[0]] + s[1..] == s;
      [s[0]] + y
  }

  /** `r` has every property `CollapseWhitespace` promises for `s`. */
  predicate CollapsedFrom(s: string, r: string) {
    && (|r| == 0 <==> |s| == 0)
    && (StartsWithWhitespace(r) <==> StartsWithWhitespace(s))
    && (EndsWithWhitespace(r) <==> EndsWithWhitespace(s))
    && SpacesOnly(r) && NoAdjacentWhitespace(r)
    && NonWhitespace(r) == NonWhitespace(s)
    && Words(r) == Words(s)
  }

  /** A leading whitespace run collapses to one space in front of the
      collapsed rest. */
  lemma CollapseLeadingRun(p: string, x: string, y: string)
    requires |p| > 0 && AllWhitespace(p) && !StartsWithWhitespace(x)
    requires CollapsedFrom(x, y)
    ensures CollapsedFrom(p + x, " " + y)
  {
    var s, r := p + x, " " + y;
    SpaceBeforeCollapsed(y);
    assert IsWhitespace(s[0]) by {
      assert s[0] == p[0];
    }
    assert NonWhitespace(r) == NonWhitespace(s) by {
      assert s[..|p|] == p && s[|p|..] == x;
      NonWhitespaceOfSuffix(s, |p|);
      assert r[..1] == " " && r[1..] == y;
      NonWhitespaceOfSuffix(r, 1);
    }
    assert Words(r) == Words(s) by {
      WordsSkipsWhitespace(p, x);
      WordsSkipsWhitespace(" ", y);
    }
    assert EndsWithWhitespace(r) <==> EndsWithWhitespace(s) by {
      if |x| > 0 {
        assert s[|s| - 1] == x[|x| - 1] && r[|r| - 1] == y[|y| - 1];
      } else {
        assert s[|s| - 1] == p[|p| - 1];
      }
    }
  }

  /** A space in front of a collapsed string that starts with a word keeps
      it collapsed. */
  lemma SpaceBeforeCollapsed(y: string)
    requires SpacesOnly(y) && NoAdjacentWhitespace(y) && !StartsWithWhitespace(y)
    ensures SpacesOnly(" " + y) && NoAdjacentWhitespace(" " + y)
  {
    var r := " " + y;
    assert forall i :: 1 <= i < |r| ==> r[i] == y[i - 1];
  }

  /** A leading non-whitespace character is kept in front of the collapsed
      rest. */
  lemma CollapseLeadingChar(c: char, x: string, y: string)
    requires !IsWhitespace(c)
    requires CollapsedFrom(x, y)
    ensures CollapsedFrom([c] + x, [c] + y)
  {
    assert ([c] + y)[1..] == y;
    assert ([c] + x)[1..] == x;
    WordsKeptByChar(c, x, y);
  }

  lemma WordsKeptByChar(c: char, x: string, y: string)
    requires !IsWhitespace(c)
    requires Words(y) == Words(x) && (|y| == 0 <==> |x| == 0)
    requires StartsWithWhitespace(y) <==> StartsWithWhitespace(x)
    ensures Words([c] + y) == Words([c] + x)
  {
    WordsCons(c, x);
    WordsCons(c, y);
  }

  /** Leading whitespace does not change the words. */
  lemma {:induction false} WordsSkipsWhitespace(p: string, t: string)
    requires AllWhitespace(p)
    ensures Words(p + t) == Words(t)
  {
    if |p| > 0 {
      assert (p + t)[1..] == p[1..] + t;
      WordsSkipsWhitespace(p[1..], t);
    } else {
      assert p + t == t;
    }
  }

  lemma WordsOfTrimmed(s: string)
    ensures Words(TrimStart(s)) == Words(s)
  {
    var t := TrimStart(s);
    assert s == s[..|s| - |t|] + t;
    WordsSkipsWhitespace(s[..|s| - |t|], t);
  }

  /** The words of `[c] + x` for a non-whitespace `c`: `c` alone when `x`
      is empty or starts with whitespace, otherwise `c` glued to the first
      word of `x`. */
  lemma WordsCons(c: char, x: string)
    requires !IsWhitespace(c)
    ensures |x| == 0 ==> Words([c] + x) == [[c]]
    ensures StartsWithWhitespace(x) ==> Words([c] + x) == [[c]] + Words(x)
    ensures |x| > 0 && !IsWhitespace(x[0]) ==>
              |Words(x)| > 0 && Words([c] + x) == [[c] + Words(x)[0]] + Words(x)[1..]
  {
    var m := WordLength(x);
    WordsOfCons(c, x);
    if |x| == 0 || IsWhitespace(x[0]) {
      assert m == 0 && x[..m] == "" && x[m..] == x;
    }
  }

  /** The first word of `[c] + x` is `c` followed by the run `x` starts
      with. */
  lemma WordsOfCons(c: char, x: string)
    requires !IsWhitespace(c)
    ensures Words([c] + x) == [[c] + x[..WordLength(x)]] + Words(x[WordLength(x)..])
  {
    var s := [c] + x;
    assert s[1..] == x;
    var m := WordLength(x);
    assert WordLength(s) == 1 + m;
    assert s[..1 + m] == [c] + x[..m];
    assert s[1 + m..] == x[m..];
  }

  /** The closed form of `CollapseWhitespace`: the words joined by single
      spaces, with one space in front when the input starts with whitespace
      and one behind when it ends with whitespace after some word. */
  function CollapsedForm(s: string): string {
    var ws := Words(s);
    SpaceIf(StartsWithWhitespace(s)) + Join(ws, " ")
      + SpaceIf(EndsWithWhitespace(s) && |ws| > 0)
  }

  /** The tail of a collapsed string is collapsed. */
  lemma CollapsedTail(s: string)
    requires |s| > 0 && SpacesOnly(s) && NoAdjacentWhitespace(s)
    ensures SpacesOnly(s[1..]) && NoAdjacentWhitespace(s[1..])
  {
    var t := s[1..];
    assert forall i :: 0 <= i < |t| ==> t[i] == s[i + 1];
  }

  /** A leading whitespace run in front of a word or of nothing becomes one
      space. */
  lemma CollapseOfRun(p: string, x: string)
    requires |p| > 0 && AllWhitespace(p) && !StartsWithWhitespace(x)
    ensures CollapseWhitespace(p + x) == " " + CollapseWhitespace(x)
  {
    TrimStartSkipsWhitespace(p, x);
    TrimStartClean(x);
    assert (p + x)[0] == p[0];
  }

  /** A leading non-whitespace character is kept as it is. */
  lemma CollapseOfChar(c: char, x: string)
    requires !IsWhitespace(c)
    ensures CollapseWhitespace([c] + x) == [c] + CollapseWhitespace(x)
  {
    assert ([c] + x)[1..] == x;
  }

  /** A string that is already collapsed is left unchanged. */
  lemma {:induction false} CollapseFixpoint(s: string)
    requires SpacesOnly(s) && NoAdjacentWhitespace(s)
    ensures CollapseWhitespace(s) == s
    decreases |s|
  {
    if |s| > 0 {
      var t := s[1..];
      assert s == [s[0]] + t;
      CollapsedTail(s);
      CollapseFixpoint(t);
      if IsWhitespace(s[0]) {
        assert !StartsWithWhitespace(t) by {
          if |t| > 0 {
            assert t[0] == s[1];
          }
        }
        assert [s[0]] == " ";
        CollapseOfRun([s[0]], t);
      } else {
        CollapseOfChar(s[0], t);
      }
    }
  }

  /** Collapsing twice is the same as collapsing once. */
  lemma CollapseIdempotent(s: string)
    ensures CollapseWhitespace(CollapseWhitespace(s)) == CollapseWhitespace(s)
  {
    CollapseFixpoint(CollapseWhitespace(s));
  }

  /** `CollapseWhitespace` is the closed form: the words joined by single
      spaces, with a space at either end exactly where the input has
      whitespace. */
  lemma {:induction false} CollapseIsJoinedWords(s: string)
    ensures CollapseWhitespace(s) == CollapsedForm(s)
    decreases |s|
  {
    if |s| > 0 && IsWhitespace(s[0]) {
      var rest := TrimStart(s);
      var p := s[..|s| - |rest|];
      assert s == p + rest;
      CollapseIsJoinedWords(rest);
      CollapseOfRun(p, rest);
      FormOfRun(p, rest);
    } else if |s| > 0 {
      var c, x := s[0], s[1..];
      assert s == [c] + x;
      CollapseIsJoinedWords(x);
      CollapseOfChar(c, x);
      FormOfChar(c, x);
    }
  }

  /** The closed form turns a leading whitespace run into one space. */
  lemma FormOfRun(p: string, x: string)
    requires |p| > 0 && AllWhitespace(p) && !StartsWithWhitespace(x)
    ensures CollapsedForm(p + x) == " " + CollapsedForm(x)
  {
    var s := p + x;
    WordsSkipsWhitespace(p, x);
    assert s[0] == p[0];
    if |x| > 0 {
      assert s[|s| - 1] == x[|x| - 1];
    } else {
      assert s == p;
      assert Words(x) == [];
    }
  }

  /** The closed form keeps a leading non-whitespace character. */
  lemma FormOfChar(c: char, x: string)
    requires !IsWhitespace(c)
    ensures CollapsedForm([c] + x) == [c] + CollapsedForm(x)
  {
    var s := [c] + x;
    WordsCons(c, x);
    if |x| == 0 {
      assert s == [c];
    } else {
      assert EndsWithWhitespace(s) <==> EndsWithWhitespace(x) by {
        assert s[|s| - 1] == x[|x| - 1];
      }
      if IsWhitespace(x[0]) {
        FormOfCharBeforeRun(c, x);
      } else {
        JoinGlued(c, Words(x), " ");
      }
    }
  }

  /** The closed form of a character followed by whitespace: the character
      becomes a word of its own. */
  lemma FormOfCharBeforeRun(c: char, x: string)
    requires !IsWhitespace(c) && StartsWithWhitespace(x)
    requires Words([c] + x) == [[c]] + Words(x)
    requires EndsWithWhitespace([c] + x) <==> EndsWithWhitespace(x)
    ensures CollapsedForm([c] + x) == [c] + CollapsedForm(x)
  {
    var wx := Words(x);
    if |wx| == 0 {
      NoWordsAllWhitespace(x);
      assert EndsWithWhitespace(x);
    } else {
      assert ([[c]] + wx)[1..] == wx;
    }
  }

  /** A string without words is all whitespace. */
  lemma NoWordsAllWhitespace(s: string)
    requires Words(s) == []
    ensures AllWhitespace(s)
  {
    assert s[..|s|] == s;
  }

  /** Gluing a character to the first part glues it to the joined text. */
  lemma JoinGlued(c: char, parts: seq<string>, sep: string)
    requires |parts| > 0
    ensures Join([[c] + parts[0]] + parts[1..], sep) == [c] + Join(parts, sep)
  {
    var glued := [[c] + parts[0]] + parts[1..];
    if |parts| > 1 {
      assert glued[1..] == parts[1..];
    }
  }

  /** Any collapsed string with the input's words and the input's leading
      and trailing whitespace is the result of `CollapseWhitespace`: the
      contract determines the result. */
  lemma CollapseUnique(s: string, r: string)
    requires SpacesOnly(r) && NoAdjacentWhitespace(r)
    requires Words(r) == Words(s)
    requires StartsWithWhitespace(r) <==> StartsWithWhitespace(s)
    requires EndsWithWhitespace(r) <==> EndsWithWhitespace(s)
    ensures r == CollapseWhitespace(s)
  {
    CollapseFixpoint(r);
    CollapseIsJoinedWords(r);
    CollapseIsJoinedWords(s);
  }

  /** `Array.prototype.join(sep)`. */
  function Join(parts: seq<string>, sep: string): string {
    if |parts| == 0 then ""
    else if |parts| == 1 then parts[0]
    else parts[0] + sep + Join(parts[1..], sep)
  }

  function DigitChar(d: nat): char
    requires d < 10
  {
    "0123456789"[d]
  }

  /** Decimal notation of a count, as a template literal prints it. */
  function NatToString(n: nat): (r: string)
    ensures |r| > 0
    decreases n
  {
    if n < 10 then [DigitChar(n)] else NatToString(n / 10) + [DigitChar(n % 10)]
  }
}
