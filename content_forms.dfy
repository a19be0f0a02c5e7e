/**
 * Logic the Services, Projects and Blog managers share, written once here:
 * `generateSlug`, the slug rule of `handleTitleChange`, the one-entry-per-line
 * text areas, and the list updates keyed by `id`.
 */
module ContentForms {
  import opened Common

  // ---------------------------------------------------------------- slugs

  predicate IsSlugChar(c: char)
  {
    'a' <= c <= 'z' || '0' <= c <= '9'
  }

  predicate SlugAlphabet(s: string)
  {
    forall i | 0 <= i < |s| :: IsSlugChar(s[i]) || s[i] == '-'
  }

  predicate NoDoubleHyphen(s: string)
  {
    forall i | 0 <= i < |s| - 1 :: !(s[i] == '-' && s[i + 1] == '-')
  }

  /** The slug pattern `^[a-z0-9-]+$` of the content schemas. */
  predicate MatchesSlugPattern(s: string)
  {
    |s| >= 1 && SlugAlphabet(s)
  }

  /**
   * `.replace(/[^a-z0-9]+/g, '-')` read left to right: `inRun` says the previous character
   * was outside `[a-z0-9]`, so a maximal run of such characters yields one hyphen, at its start.
   */
  function Collapse(s: string, inRun: bool): string
  {
    if s == [] then [] else Head(s[0], inRun) + Collapse(s[1..], !IsSlugChar(s[0]))
  }

  /** What one character contributes: itself, the hyphen opening a run, or nothing inside one. */
  function Head(c: char, inRun: bool): string
  {
    if IsSlugChar(c) then [c] else if inRun then "" else "-"
  }

  /** `.replace(/[^a-z0-9]+/g, '-')`: every maximal run outside `[a-z0-9]` becomes one hyphen. */
  function CollapseRuns(s: string): string
  {
    Collapse(s, false)
  }

  /** Whether a run outside `[a-z0-9]` is open after reading `s`, starting with `inRun`. */
  function EndsInRun(s: string, inRun: bool): bool
  {
    if s == [] then inRun else !IsSlugChar(s[|s| - 1])
  }

  /** Collapsing works piece by piece: the second piece starts inside the run the first one ends in. */
  lemma {:induction false} CollapseConcat(a: string, b: string, inRun: bool)
    ensures Collapse(a + b, inRun) == Collapse(a, inRun) + Collapse(b, EndsInRun(a, inRun))
    decreases |a|
  {
    if a == [] {
      assert a + b == b;
    } else {
      var next := !IsSlugChar(a[0]);
      CollapseConcat(a[1..], b, next);
      EndsInRunTail(a, inRun);
      ConsConcat(a, b);
      assert Collapse(a + b, inRun) == Head(a[0], inRun) + Collapse(a[1..] + b, next);
    }
  }

  lemma {:induction false} EndsInRunTail(a: string, inRun: bool)
    requires a != []
    ensures EndsInRun(a[1..], !IsSlugChar(a[0])) == EndsInRun(a, inRun)
  {
    if |a| > 1 {
      assert a[1..][|a| - 2] == a[|a| - 1];
    }
  }

  lemma {:induction false} ConsConcat(a: string, b: string)
    requires a != []
    ensures a + b != [] && (a + b)[0] == a[0] && (a + b)[1..] == a[1..] + b
  {
  }

  /** Collapsing runs works piece by piece when no run spans the seam. */
  lemma CollapseRunsConcat(a: string, b: string)
    requires a == [] || IsSlugChar(a[|a| - 1])
    ensures CollapseRuns(a + b) == CollapseRuns(a) + CollapseRuns(b)
  {
    CollapseConcat(a, b, false);
  }

  /** A whole run of characters outside `[a-z0-9]` becomes a single hyphen, or nothing inside an open run. */
  lemma {:induction false} CollapseOfSeparators(s: string, inRun: bool)
    requires s != [] && forall i | 0 <= i < |s| :: !IsSlugChar(s[i])
    ensures Collapse(s, inRun) == if inRun then "" else "-"
  {
    if |s| > 1 {
      assert forall i | 0 <= i < |s[1..]| :: s[1..][i] == s[i + 1];
      CollapseOfSeparators(s[1..], true);
    }
  }

  lemma CollapseRunOfSeparators(s: string)
    requires s != [] && forall i | 0 <= i < |s| :: !IsSlugChar(s[i])
    ensures CollapseRuns(s) == "-"
  {
    CollapseOfSeparators(s, false);
  }

  /**
   * The collapsed text is slug-shaped. Inside an open run it never starts with a hyphen;
   * otherwise it is empty iff the text is, and starts with a hyphen iff the text starts
   * outside `[a-z0-9]`.
   */
  lemma {:induction false} CollapseShape(s: string, inRun: bool)
    ensures SlugAlphabet(Collapse(s, inRun)) && NoDoubleHyphen(Collapse(s, inRun))
    ensures inRun ==> Collapse(s, inRun) == [] || Collapse(s, inRun)[0] != '-'
    ensures !inRun ==> (Collapse(s, inRun) == [] <==> s == [])
    ensures !inRun && s != [] ==> (Collapse(s, inRun)[0] == '-' <==> !IsSlugChar(s[0]))
  {
    if s != [] {
      var rt := Collapse(s[1..], !IsSlugChar(s[0]));
      CollapseShape(s[1..], !IsSlugChar(s[0]));
      PrefixShape(Head(s[0], inRun), rt);
    }
  }

  /** One character or none in front of a slug-shaped text keeps it slug-shaped, unless two hyphens meet. */
  lemma {:induction false} PrefixShape(h: string, t: string)
    requires |h| <= 1 && SlugAlphabet(h) && SlugAlphabet(t) && NoDoubleHyphen(t)
    requires h == "-" ==> t == [] || t[0] != '-'
    ensures SlugAlphabet(h + t) && NoDoubleHyphen(h + t)
  {
    assert forall i | 0 <= i < |t| :: (h + t)[i + |h|] == t[i];
  }

  lemma CollapseRunsShape(s: string)
    ensures SlugAlphabet(CollapseRuns(s)) && NoDoubleHyphen(CollapseRuns(s))
    ensures CollapseRuns(s) == [] <==> s == []
    ensures s != [] ==> (CollapseRuns(s)[0] == '-' <==> !IsSlugChar(s[0]))
  {
    CollapseShape(s, false);
  }

  /** Collapsing keeps exactly the letters and digits, in order: only the other characters are replaced. */
  lemma {:induction false} CollapseKeepsAlphanumerics(s: string, inRun: bool)
    ensures Filter(Collapse(s, inRun), IsSlugChar) == Filter(s, IsSlugChar)
  {
    if s != [] {
      CollapseKeepsAlphanumerics(s[1..], !IsSlugChar(s[0]));
      FilterConcat(Head(s[0], inRun), Collapse(s[1..], !IsSlugChar(s[0])), IsSlugChar);
    }
  }

  /** A slug-shaped text collapses to itself, unless it opens with a hyphen inside a run. */
  lemma {:induction false} CollapseFixed(s: string, inRun: bool)
    requires SlugAlphabet(s) && NoDoubleHyphen(s)
    requires inRun ==> s == [] || IsSlugChar(s[0])
    ensures Collapse(s, inRun) == s
  {
    if s != [] {
      assert forall i | 0 <= i < |s| - 1 :: s[1..][i] == s[i + 1];
      assert |s| > 1 && s[0] == '-' ==> IsSlugChar(s[1]);
      CollapseFixed(s[1..], !IsSlugChar(s[0]));
    }
  }

  /** `.replace(/(^-|-$)/g, '')`: one hyphen off each end. */
  function StripEdges(s: string): string
  {
    var t := if s != [] && s[0] == '-' then s[1..] else s;
    if t != [] && t[|t| - 1] == '-' then t[..|t| - 1] else t
  }

  /** Taking hyphens off the ends keeps the letters and digits. */
  lemma {:induction false} StripEdgesKeepsAlphanumerics(s: string)
    ensures Filter(StripEdges(s), IsSlugChar) == Filter(s, IsSlugChar)
  {
    var t := if s != [] && s[0] == '-' then s[1..] else s;
    if s != [] && s[0] == '-' {
      assert s == "-" + t;
      FilterConcat("-", t, IsSlugChar);
    }
    if t != [] && t[|t| - 1] == '-' {
      assert t == t[..|t| - 1] + "-";
      FilterConcat(t[..|t| - 1], "-", IsSlugChar);
    }
  }

  /**
   * `generateSlug(title)`: lower-case, collapse, strip. What survives is the subject of
   * `GenerateSlugKeepsAlphanumerics` and `GenerateSlugOfTwoWords`.
   */
  function GenerateSlug(title: string): (slug: string)
    ensures SlugAlphabet(slug) && NoDoubleHyphen(slug)
    ensures slug == [] || (slug[0] != '-' && slug[|slug| - 1] != '-')
    ensures slug != [] ==> MatchesSlugPattern(slug)
  {
    var c := CollapseRuns(ToLower(title));
    CollapseRunsShape(ToLower(title));
    var t := if c != [] && c[0] == '-' then c[1..] else c;
    assert SlugAlphabet(t) && NoDoubleHyphen(t) by {
      assert forall i | 0 <= i < |t| :: t[i] == c[i + |c| - |t|];
    }
    assert t != [] && t[|t| - 1] == '-' ==> |t| == 1 || t[|t| - 2] != '-';
    StripEdges(c)
  }

  /** The slug holds exactly the lower-cased title's letters and digits, in order. */
  lemma {:induction false} GenerateSlugKeepsAlphanumerics(title: string)
    ensures Filter(GenerateSlug(title), IsSlugChar) == Filter(ToLower(title), IsSlugChar)
  {
    CollapseKeepsAlphanumerics(ToLower(title), false);
    StripEdgesKeepsAlphanumerics(CollapseRuns(ToLower(title)));
  }

  lemma {:induction false} LowerConcat(x: string, y: string)
    ensures ToLower(x + y) == ToLower(x) + ToLower(y)
  {
    assert forall i | 0 <= i < |x + y| :: ToLower(x + y)[i] == (ToLower(x) + ToLower(y))[i];
  }

  lemma {:induction false} LowerSlugOnly(s: string)
    requires forall i | 0 <= i < |s| :: IsSlugChar(s[i])
    ensures ToLower(s) == s
  {
    assert forall i | 0 <= i < |s| :: ToLower(s)[i] == s[i];
  }

  lemma {:induction false} LowerOfTwoWords(a: string, sep: string, b: string)
    requires forall i | 0 <= i < |a| :: IsSlugChar(a[i])
    requires forall i | 0 <= i < |b| :: IsSlugChar(b[i])
    ensures ToLower(a + sep + b) == a + (ToLower(sep) + b)
  {
    assert a + sep + b == a + (sep + b);
    LowerConcat(a, sep + b);
    LowerSlugOnly(a);
    LowerConcat(sep, b);
    LowerSlugOnly(b);
  }

  lemma {:induction false} CollapseOfTwoWords(a: string, ls: string, b: string)
    requires a != [] && b != [] && ls != []
    requires forall i | 0 <= i < |a| :: IsSlugChar(a[i])
    requires forall i | 0 <= i < |b| :: IsSlugChar(b[i])
    requires forall i | 0 <= i < |ls| :: !IsSlugChar(ls[i])
    ensures CollapseRuns(a + (ls + b)) == a + "-" + b
  {
    CollapseFixed(a, false);
    CollapseFixed(b, true);
    CollapseOfSeparators(ls, false);
    CollapseConcat(ls, b, false);
    CollapseConcat(a, ls + b, false);
  }

  /** Two words of `[a-z0-9]` separated by anything else give `word-word`. */
  lemma {:induction false} GenerateSlugOfTwoWords(a: string, sep: string, b: string)
    requires a != [] && b != [] && sep != []
    requires forall i | 0 <= i < |a| :: IsSlugChar(a[i])
    requires forall i | 0 <= i < |b| :: IsSlugChar(b[i])
    requires forall i | 0 <= i < |sep| :: !IsSlugChar(LowerChar(sep[i]))
    ensures GenerateSlug(a + sep + b) == a + "-" + b
  {
    LowerOfTwoWords(a, sep, b);
    CollapseOfTwoWords(a, ToLower(sep), b);
    var c := a + "-" + b;
    assert c[0] == a[0] && c[|c| - 1] == b[|b| - 1];
  }

  /** A slug is its own slug, so regenerating never changes it. */
  lemma {:induction false} GenerateSlugIdempotent(title: string)
    ensures GenerateSlug(GenerateSlug(title)) == GenerateSlug(title)
  {
    var s := GenerateSlug(title);
    assert ToLower(s) == s;
    CollapseFixed(s, false);
  }

  /** `slug: draft.slug || generateSlug(title)`: a slug already set is kept, an empty one is derived from the title. */
  function SlugAfterTitleChange(currentSlug: string, title: string): (slug: string)
    ensures currentSlug != "" ==> slug == currentSlug
    ensures currentSlug == "" ==> slug == GenerateSlug(title)
  {
    if currentSlug != "" then currentSlug else GenerateSlug(title)
  }

  // ------------------------------------------------------ one per line

  /** `value.split('\n').filter(l => l.trim())`. */
  function Lines(text: string): (lines: seq<string>)
    ensures forall i | 0 <= i < |lines| :: !IsBlank(lines[i]) && '\n' !in lines[i]
    ensures forall l :: l in lines <==> l in Split(text, '\n') && !IsBlank(l)
  {
    var blank := (l: string) => !IsBlank(l);
    var lines := Filter(Split(text, '\n'), blank);
    SplitPiecesLackSeparator(text, '\n');
    forall l ensures l in lines <==> l in Split(text, '\n') && !IsBlank(l) {
      FilterMembership(Split(text, '\n'), blank, l);
    }
    lines
  }

  /** The lines are read in order: a first line is kept unless blank, and the rest follow. */
  lemma {:induction false} LinesConcat(a: string, b: string)
    requires '\n' !in a
    ensures Lines(a + "\n" + b) == Lines(a) + Lines(b)
    ensures Lines(a) == if IsBlank(a) then [] else [a]
  {
    var blank := (l: string) => !IsBlank(l);
    SplitCons(a, '\n', b);
    SplitNoSeparator(a, '\n');
    FilterConcat([a], Split(b, '\n'), blank);
  }

  /** The text area shows `list.join('\n')`; reading it back gives the same list. */
  lemma {:induction false} LinesOfJoin(lines: seq<string>)
    requires forall i | 0 <= i < |lines| :: !IsBlank(lines[i]) && '\n' !in lines[i]
    ensures Lines(Join(lines, '\n')) == lines
  {
    var blank := (l: string) => !IsBlank(l);
    if lines != [] {
      SplitJoin(lines, '\n');
      FilterKeepsAll(lines, blank);
    }
  }

  lemma {:induction false} FilterKeepsAll<T>(xs: seq<T>, p: T -> bool)
    requires forall i | 0 <= i < |xs| :: p(xs[i])
    ensures Filter(xs, p) == xs
  {
    if xs != [] {
      FilterKeepsAll(xs[1..], p);
    }
  }

  // ------------------------------------------------------ list updates

  /** `xs.map(x => x.id === id ? f(x) : x)`. */
  function MapWhereId<T>(xs: seq<T>, idOf: T -> string, id: string, f: T -> T): (r: seq<T>)
    ensures |r| == |xs|
    ensures forall i | 0 <= i < |xs| :: r[i] == if idOf(xs[i]) == id then f(xs[i]) else xs[i]
  {
    if xs == [] then []
    else [if idOf(xs[0]) == id then f(xs[0]) else xs[0]] + MapWhereId(xs[1..], idOf, id, f)
  }

  /** `xs.filter(x => x.id !== id)`. */
  function RemoveId<T(!new)>(xs: seq<T>, idOf: T -> string, id: string): (r: seq<T>)
    ensures forall x :: x in r <==> x in xs && idOf(x) != id
    ensures forall i | 0 <= i < |r| :: idOf(r[i]) != id
  {
    var keep := (x: T) => idOf(x) != id;
    var r := Filter(xs, keep);
    forall x ensures x in r <==> x in xs && idOf(x) != id {
      FilterMembership(xs, keep, x);
    }
    r
  }

  /** Deleting keeps the order of the remaining entries: removing from a concatenation removes from each part. */
  lemma RemoveIdConcat<T(!new)>(a: seq<T>, b: seq<T>, idOf: T -> string, id: string)
    ensures RemoveId(a + b, idOf, id) == RemoveId(a, idOf, id) + RemoveId(b, idOf, id)
  {
    FilterConcat(a, b, (x: T) => idOf(x) != id);
  }

  /** Removing an id that no entry has changes nothing. */
  lemma RemoveMissingId<T(!new)>(xs: seq<T>, idOf: T -> string, id: string)
    requires forall i | 0 <= i < |xs| :: idOf(xs[i]) != id
    ensures RemoveId(xs, idOf, id) == xs
  {
    FilterKeepsAll(xs, (x: T) => idOf(x) != id);
  }

  /** The list cell for technologies or tags: the first three, then a `+n` badge when there are more. */
  datatype Summary<T> = Summary(shown: seq<T>, more: nat)

  function Preview<T>(xs: seq<T>): (r: Summary<T>)
    ensures |r.shown| == if |xs| < 3 then |xs| else 3
    ensures xs == r.shown + xs[|r.shown|..]
    ensures |r.shown| + r.more == |xs|
    ensures r.more > 0 <==> |xs| > 3
  {
    if |xs| > 3 then Summary(xs[..3], |xs| - 3) else Summary(xs, 0)
  }

  // ------------------------------------------------------ saving a draft

  datatype Verb = Post | Put

  /** The method, path and JSON body of a `fetch`. */
  datatype Request<D> = Request(verb: Verb, path: string, body: D)

  /** How a save ended: a rejected call, a throw or a non-2xx status all leave the screen as it was. */
  datatype Reply<E> = Failed | Saved(entity: E)

  /**
   * The request `handleSave` sends for a draft with that id, title and slug: none without
   * a title and a slug; otherwise a PUT to the entry's own path when the draft has an id,
   * else a POST to the collection.
   */
  function SaveRequest<D>(collection: string, id: Option<string>, title: string, slug: string, body: D): (r: Option<Request<D>>)
    ensures r.None? <==> title == "" || slug == ""
    ensures r.Some? ==> r.value.body == body
    ensures r.Some? ==> (r.value.verb == Put <==> Truthy(id))
    ensures r.Some? && Truthy(id) ==> r.value.path == collection + "/" + id.value
    ensures r.Some? && !Truthy(id) ==> r.value.path == collection
  {
    if title == "" || slug == "" then None
    else if Truthy(id) then Some(Request(Put, collection + "/" + id.value, body))
    else Some(Request(Post, collection, body))
  }
}
