/** `Help.cleanTypeName`: strip package qualifiers from a printed type name,
    recursing into its generic arguments. */
module Help {
  import opened Wrappers

  /** `c` does not occur in `s`. */
  predicate Free(s: string, c: char) {
    forall k :: 0 <= k < |s| ==> s[k] != c
  }

  /** The first index at or after `i` holding `c`, or -1. */
  function IndexFrom(s: string, c: char, i: nat): (r: int)
    requires i <= |s|
    ensures r == -1 || i <= r < |s|
    ensures r >= 0 ==> s[r] == c && forall k :: i <= k < r ==> s[k] != c
    ensures r < 0 ==> forall k :: i <= k < |s| ==> s[k] != c
    decreases |s| - i
  {
    if i == |s| then -1
    else if s[i] == c then i
    else IndexFrom(s, c, i + 1)
  }

  /** The last index below `n` holding `c`, or -1. */
  function LastBefore(s: string, c: char, n: nat): (r: int)
    requires n <= |s|
    ensures -1 <= r < n
    ensures r >= 0 ==> s[r] == c
    ensures forall k :: r < k < n ==> s[k] != c
  {
    if n == 0 then -1
    else if s[n - 1] == c then n - 1
    else LastBefore(s, c, n - 1)
  }

  /** A search from `i` finds the first occurrence at or after `i`. */
  lemma {:induction false} FirstOccurrence(s: string, c: char, g: nat, i: nat)
    requires i <= g < |s| && s[g] == c && forall k :: i <= k < g ==> s[k] != c
    ensures IndexFrom(s, c, i) == g
    decreases g - i
  {
    if i < g {
      FirstOccurrence(s, c, g, i + 1);
    }
  }

  /** Kotlin's `indexOf(c)`. */
  function IndexOf(s: string, c: char): (i: int)
    ensures -1 <= i < |s|
    ensures i >= 0 ==> s[i] == c && Free(s[..i], c)
    ensures i < 0 ==> Free(s, c)
  {
    IndexFrom(s, c, 0)
  }

  /** Where the unqualified name starts: just past the last '.' (Kotlin's
      `lastIndexOf('.') + 1`), or 0. */
  function NameStart(s: string): (k: nat)
    ensures k <= |s| && Free(s[k..], '.')
    ensures k > 0 ==> s[k - 1] == '.'
  {
    LastBefore(s, '.', |s|) + 1
  }

  /** Where the head before the first '<' at `g` starts: just past the result of
      Kotlin's `lastIndexOf('.', startIndex = g)`, which searches `s[0..g]`
      (`s[g]` itself is '<'). */
  function HeadStart(s: string, g: nat): (k: nat)
    requires g < |s| && s[g] == '<'
    ensures k <= g && Free(s[k..g], '.')
    ensures k > 0 ==> s[k - 1] == '.'
  {
    LastBefore(s, '.', g + 1) + 1
  }

  /** `head<inner>`. */
  function Generic(head: string, inner: string): (r: string)
    ensures |r| == |head| + |inner| + 2
    ensures r[..|head|] == head && r[|head|] == '<' && r[|head| + 1..|r| - 1] == inner && r[|r| - 1] == '>'
    ensures Free(head, '.') && Free(inner, '.') ==> Free(r, '.')
  {
    head + "<" + inner + ">"
  }

  /** `head<inner>` once the inner name is cleaned; a failure inside fails the whole. */
  function Combine(head: string, inner: Option<string>): (r: Option<string>)
    ensures r.Some? <==> inner.Some?
    ensures r.Some? ==> r.value == Generic(head, inner.value)
  {
    match inner
    case None => None
    case Some(v) => Some(Generic(head, v))
  }

  /** `cleanTypeName`. Without '<', the name after the last '.'. With the
      first '<' at `g`, the unqualified head, then '<', the cleaned text
      between `g` and the LAST character (whatever it is), then '>'. `None`
      is the `substring` exception when '<' is the last character. The
      result never contains a '.' and is never longer than the input. */
  function CleanTypeName(s: string): (r: Option<string>)
    ensures r.Some? ==> Free(r.value, '.')
    ensures r.Some? ==> |r.value| <= |s|
    decreases |s|
  {
    var g := IndexOf(s, '<');
    if g < 0 then
      Some(s[NameStart(s)..])
    else if g + 1 > |s| - 1 then
      None
    else
      var head := s[HeadStart(s, g)..g];
      var inner := CleanTypeName(s[g + 1..|s| - 1]);
      Combine(head, inner)
  }

  /** A name without generics loses everything up to its last '.': the result
      is the longest dot-free suffix of the input. */
  lemma CleanWithoutGenerics(s: string)
    requires Free(s, '<')
    ensures CleanTypeName(s).Some?
    ensures var t := CleanTypeName(s).value;
      |t| <= |s| && s[|s| - |t|..] == t && Free(t, '.') && (|t| < |s| ==> s[|s| - |t| - 1] == '.')
  {
    assert IndexOf(s, '<') < 0;
  }

  /** With the first '<' at `g`: the name fails exactly when '<' is last or the
      inner part fails, and otherwise it is the unqualified head followed by
      the cleaned inner part in angle brackets. */
  lemma CleanWithGenerics(s: string, g: nat)
    requires g < |s| && s[g] == '<' && Free(s[..g], '<')
    ensures CleanTypeName(s).Some? <==> g + 1 < |s| && CleanTypeName(s[g + 1..|s| - 1]).Some?
    ensures CleanTypeName(s).Some? ==>
      CleanTypeName(s).value == s[HeadStart(s, g)..g] + "<" + CleanTypeName(s[g + 1..|s| - 1]).value + ">"
  {
    FirstOccurrence(s, '<', g, 0);
    if g + 1 < |s| {
      var inner := s[g + 1..|s| - 1];
      assert CleanTypeName(s) == Combine(s[HeadStart(s, g)..g], CleanTypeName(inner));
    }
  }

  /** The generic case always ends in '>', and its first '<' comes right after
      the head. */
  lemma CleanGenericShape(s: string, g: nat)
    requires g < |s| && s[g] == '<' && Free(s[..g], '<')
    ensures CleanTypeName(s).Some? ==>
      var r := CleanTypeName(s).value;
      var k := g - HeadStart(s, g);
      k < |r| && r[|r| - 1] == '>' && r[k] == '<' && Free(r[..k], '<')
  {
    CleanWithGenerics(s, g);
    if CleanTypeName(s).None? {
      return;
    }
    var h := HeadStart(s, g);
    var inner := CleanTypeName(s[g + 1..|s| - 1]).value;
    SliceFree(s, '<', h, g);
    assert CleanTypeName(s).value == Generic(s[h..g], inner);
  }

  lemma SliceFree(s: string, c: char, a: nat, b: nat)
    requires a <= b <= |s| && Free(s[..b], c)
    ensures Free(s[a..b], c)
  {
    forall j | 0 <= j < b - a
      ensures s[a..b][j] != c
    {
      assert s[a..b][j] == s[..b][a + j];
    }
  }

  /** A '<' that is the last character of the name, or of any nested argument,
      makes the whole name fail. */
  lemma CleanTrailingOpen(s: string)
    requires |s| > 0 && s[|s| - 1] == '<' && Free(s[..|s| - 1], '<')
    ensures CleanTypeName(s).None?
  {
    CleanWithGenerics(s, |s| - 1);
  }

  lemma CleanNestedFailure(s: string, g: nat)
    requires g + 1 < |s| && s[g] == '<' && Free(s[..g], '<')
    requires CleanTypeName(s[g + 1..|s| - 1]).None?
    ensures CleanTypeName(s).None?
  {
    CleanWithGenerics(s, g);
  }

  /** A name with neither '.' nor '<' comes back unchanged. */
  lemma CleanPlain(t: string)
    requires Free(t, '.') && Free(t, '<')
    ensures CleanTypeName(t) == Some(t)
  {
    CleanWithoutGenerics(t);
  }

  /** The closing character is dropped unchecked and a '>' written back:
      `a<b>x` cleans to `a<b>>`. */
  lemma DropsLastCharacter(a: char, b: char, last: char)
    requires a !in ".<" && b !in ".<"
    ensures CleanTypeName([a, '<', b, '>', last]) == Some([a, '<', b, '>', '>'])
  {
    var s := [a, '<', b, '>', last];
    assert s[..1] == [a];
    CleanWithGenerics(s, 1);
    assert s[2..4] == [b, '>'];
    CleanPlain([b, '>']);
    assert HeadStart(s, 1) == 0 by {
      assert LastBefore(s, '.', 2) == -1;
    }
    assert s[0..1] == [a];
    assert [a] + "<" + [b, '>'] + ">" == [a, '<', b, '>', '>'];
  }

  /** A qualifier: empty, or ending in '.', with no '<' in it. */
  predicate Qualifier(q: string) {
    Free(q, '<') && (q == [] || q[|q| - 1] == '.')
  }

  /** A simple name: neither '.' nor '<'. */
  predicate Simple(h: string) {
    Free(h, '.') && Free(h, '<')
  }

  /** `q.h` without generics cleans to `h`. */
  lemma CleanQualifiedPlain(q: string, h: string)
    requires Qualifier(q) && Simple(h)
    ensures CleanTypeName(q + h) == Some(h)
  {
    var s := q + h;
    assert s[|q|..] == h;
    CleanWithoutGenerics(s);
    var t := CleanTypeName(s).value;
    assert |t| == |h|;
  }

  /** `q.h<inner>x` cleans to `h<` + the cleaned inner + `>`, whatever `x` is:
      the qualifier goes and the inner part is cleaned on its own. */
  lemma CleanQualifiedGeneric(q: string, h: string, inner: string, last: char)
    requires Qualifier(q) && Simple(h)
    ensures CleanTypeName(q + h + ['<'] + inner + [last]) == Combine(h, CleanTypeName(inner))
  {
    var s := q + h + ['<'] + inner + [last];
    var g := |q| + |h|;
    assert s[..g] == q + h;
    CleanWithGenerics(s, g);
    assert s[g + 1..|s| - 1] == inner;
    QualifierHead(q, h, s);
    assert s[|q|..g] == h;
  }

  /** In `q.h<...`, the head starts right after the qualifier. */
  lemma QualifierHead(q: string, h: string, s: string)
    requires Qualifier(q) && Simple(h)
    requires |q| + |h| < |s| && s[..|q| + |h|] == q + h && s[|q| + |h|] == '<'
    ensures HeadStart(s, |q| + |h|) == |q|
  {
    var g := |q| + |h|;
    assert forall k :: |q| <= k < g ==> s[k] == s[..g][k] == h[k - |q|];
    assert q != [] ==> s[|q| - 1] == s[..g][|q| - 1] == '.';
  }
}
