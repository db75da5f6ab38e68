/** Header templates: `substitute` makes one ReplaceAll pass per placeholder, in a fixed order, over
    the text the previous pass left. The passes are compared with a single simultaneous substitution. */
module Substitute {
  import opened Text

  datatype Hole = KeyHole | AccessHole | AccountHole | ProjectHole

  /** The text of a placeholder as it stands in a template. */
  function Mark(h: Hole): (m: string)
    ensures |m| > 5 && m[0] == '$' && m[1] == '{'
    ensures forall k | 0 < k < |m| :: m[k] != '$'
  {
    match h
    case KeyHole => "${key}"
    case AccessHole => "${access}"
    case AccountHole => "${accountId}"
    case ProjectHole => "${projectId}"
  }

  const DOLLAR_BRACE := "${"

  /** What a credential offers for each placeholder; empty when it has nothing to offer. */
  datatype Values = Values(key: string, access: string, account: string, project: string) {
    function At(h: Hole): string {
      match h
      case KeyHole => key
      case AccessHole => access
      case AccountHole => account
      case ProjectHole => project
    }
  }

  datatype SubstError = Missing(hole: Hole) | Unsupported

  /** Go's `strings.ReplaceAll`, for a non-empty `pat`. */
  function ReplaceAll(s: string, pat: string, rep: string): string
    requires pat != ""
  {
    if s == "" then ""
    else if pat <= s then rep + ReplaceAll(s[|pat|..], pat, rep)
    else [s[0]] + ReplaceAll(s[1..], pat, rep)
  }

  /** One guarded pass of `substitute`. */
  function Pass(out: string, h: Hole, v: Values): Result<string, SubstError> {
    if !Contains(out, Mark(h)) then Ok(out)
    else if v.At(h) == "" then Err(Missing(h))
    else Ok(ReplaceAll(out, Mark(h), v.At(h)))
  }

  /** The passes over the placeholders `hs`, in order, each on what the last one left. */
  function Passes(out: string, hs: seq<Hole>, v: Values): Result<string, SubstError>
    decreases hs
  {
    if hs == [] then Ok(out)
    else
      match Pass(out, hs[0], v)
      case Err(e) => Err(e)
      case Ok(next) => Passes(next, hs[1..], v)
  }

  const ORDER: seq<Hole> := [KeyHole, AccessHole, AccountHole, ProjectHole]

  /** The whole of `substitute`, as a function. */
  function Sequential(tmpl: string, v: Values): Result<string, SubstError> {
    match Passes(tmpl, ORDER, v)
    case Err(e) => Err(e)
    case Ok(out) => if Contains(out, DOLLAR_BRACE) then Err(Unsupported) else Ok(out)
  }

  /** `substitute` as the source runs it: `out` is reassigned pass by pass. */
  method SubstituteTemplate(tmpl: string, v: Values) returns (r: Result<string, SubstError>)
    ensures r == Sequential(tmpl, v)
    ensures r.Ok? ==> !Contains(r.value, DOLLAR_BRACE)
  {
    hide Mark;
    var out := tmpl;
    var i := 0;
    while i < |ORDER|
      invariant 0 <= i <= |ORDER|
      invariant Passes(tmpl, ORDER, v) == Passes(out, ORDER[i..], v)
    {
      var h := ORDER[i];
      assert ORDER[i..][1..] == ORDER[i + 1..];
      if Contains(out, Mark(h)) {
        if v.At(h) == "" {
          return Err(Missing(h));
        }
        out := ReplaceAll(out, Mark(h), v.At(h));
      }
      i := i + 1;
    }
    if Contains(out, DOLLAR_BRACE) {
      return Err(Unsupported);
    }
    return Ok(out);
  }

  // ---------- the reference: one simultaneous substitution ----------

  /** A template cut into placeholders and single literal characters. */
  datatype Token = Lit(c: char) | Ph(h: Hole)

  function HoleAt(s: string): (r: Option<Hole>)
    ensures r.Some? ==> Mark(r.value) <= s
    ensures r.None? ==> forall h: Hole :: !(Mark(h) <= s)
  {
    if Mark(KeyHole) <= s then Some(KeyHole)
    else if Mark(AccessHole) <= s then Some(AccessHole)
    else if Mark(AccountHole) <= s then Some(AccountHole)
    else if Mark(ProjectHole) <= s then Some(ProjectHole)
    else None
  }

  function Tokens(s: string): seq<Token> {
    if s == "" then []
    else
      match HoleAt(s)
      case Some(h) => [Ph(h)] + Tokens(s[|Mark(h)|..])
      case None => [Lit(s[0])] + Tokens(s[1..])
  }

  /** The text of one token once the placeholders in `done` have been filled in. */
  function Piece(t: Token, done: set<Hole>, v: Values): string {
    match t
    case Lit(c) => [c]
    case Ph(h) => if h in done then v.At(h) else Mark(h)
  }

  function Render(ts: seq<Token>, done: set<Hole>, v: Values): string {
    if ts == [] then "" else Piece(ts[0], done, v) + Render(ts[1..], done, v)
  }

  const ALL: set<Hole> := {KeyHole, AccessHole, AccountHole, ProjectHole}

  /** Every placeholder replaced at once: no value is ever looked at again. */
  function Simultaneous(tmpl: string, v: Values): string {
    Render(Tokens(tmpl), ALL, v)
  }

  predicate Mentions(tmpl: string, h: Hole) {
    Ph(h) in Tokens(tmpl)
  }

  /** Every placeholder the template mentions has a value. */
  predicate Covered(ts: seq<Token>, v: Values) {
    forall t | t in ts && t.Ph? :: v.At(t.h) != ""
  }

  lemma {:induction false} RenderTokens(s: string, v: Values)
    ensures Render(Tokens(s), {}, v) == s
  {
    hide Mark;
    if s != "" {
      var ts := Tokens(s);
      match HoleAt(s)
      case Some(h) =>
        RenderTokens(s[|Mark(h)|..], v);
        assert ts[1..] == Tokens(s[|Mark(h)|..]);
      case None =>
        RenderTokens(s[1..], v);
        assert ts[1..] == Tokens(s[1..]);
    }
  }

  // ---------- searching a concatenation ----------

  lemma OccursChars(s: string, k: nat, p: string)
    ensures OccursAt(s, k, p) ==> forall i | 0 <= i < |p| :: s[k + i] == p[i]
  {
    if OccursAt(s, k, p) {
      forall i | 0 <= i < |p| ensures s[k + i] == p[i] {
        assert s[k..k + |p|][i] == s[k + i];
      }
    }
  }

  lemma ContainsSuffix(u: string, w: string, p: string)
    requires Contains(w, p)
    ensures Contains(u + w, p)
  {
    var k :| 0 <= k <= |w| && OccursAt(w, k, p);
    assert (u + w)[|u| + k..|u| + k + |p|] == w[k..k + |p|];
    assert OccursAt(u + w, |u| + k, p);
  }

  lemma ContainsAfter(u: string, w: string, p: string)
    requires Contains(u + w, p) && p != ""
    requires forall k | 0 <= k < |u| :: !OccursAt(u + w, k, p)
    ensures Contains(w, p)
  {
    var k :| 0 <= k <= |u + w| && OccursAt(u + w, k, p);
    assert w[k - |u|..k - |u| + |p|] == (u + w)[k..k + |p|];
    assert OccursAt(w, k - |u|, p);
  }

  /** ReplaceAll copies a stretch in which no occurrence starts. */
  lemma {:induction false} CopyThrough(u: string, w: string, pat: string, rep: string)
    requires pat != ""
    requires forall k | 0 <= k < |u| :: !OccursAt(u + w, k, pat)
    ensures ReplaceAll(u + w, pat, rep) == u + ReplaceAll(w, pat, rep)
  {
    if u == "" {
      assert u + w == w;
    } else {
      assert !OccursAt(u + w, 0, pat);
      assert (u + w)[1..] == u[1..] + w;
      forall k | 0 <= k < |u[1..]| ensures !OccursAt(u[1..] + w, k, pat) {
        assert !OccursAt(u + w, k + 1, pat);
        assert |pat| + k <= |u[1..] + w| ==> (u[1..] + w)[k..k + |pat|] == (u + w)[k + 1..k + 1 + |pat|];
      }
      CopyThrough(u[1..], w, pat, rep);
    }
  }

  /** A stretch in which no occurrence starts is passed over, by the search and by the replacement. */
  lemma SkipOver(u: string, w: string, pat: string, rep: string)
    requires pat != ""
    requires forall k | 0 <= k < |u| :: !OccursAt(u + w, k, pat)
    ensures ReplaceAll(u + w, pat, rep) == u + ReplaceAll(w, pat, rep)
    ensures Contains(u + w, pat) <==> Contains(w, pat)
  {
    CopyThrough(u, w, pat, rep);
    if Contains(w, pat) {
      ContainsSuffix(u, w, pat);
    } else if Contains(u + w, pat) {
      ContainsAfter(u, w, pat);
    }
  }

  lemma HitHere(w: string, pat: string, rep: string)
    requires pat != ""
    ensures ReplaceAll(pat + w, pat, rep) == rep + ReplaceAll(w, pat, rep)
    ensures Contains(pat + w, pat)
  {
    assert (pat + w)[0..0 + |pat|] == pat;
    assert OccursAt(pat + w, 0, pat);
    assert (pat + w)[|pat|..] == w;
  }

  /** The text of one placeholder never begins inside that of another. */
  lemma MarksApart(h: Hole, g: Hole, w: string)
    requires h != g
    ensures forall k | 0 <= k < |Mark(h)| :: !OccursAt(Mark(h) + w, k, Mark(g))
  {
    assert Mark(h)[2] != Mark(g)[2] || Mark(h)[5] != Mark(g)[5];
    forall k | 0 <= k < |Mark(h)| ensures !OccursAt(Mark(h) + w, k, Mark(g)) {
      OccursChars(Mark(h) + w, k, Mark(g));
      assert (Mark(h) + w)[k] == Mark(h)[k];
      assert (Mark(h) + w)[2] == Mark(h)[2] && (Mark(h) + w)[5] == Mark(h)[5];
    }
  }

  // ---------- the passes follow the tokens ----------

  /** Every placeholder is covered and the simultaneous result holds no `${`. */
  predicate Clean(ts: seq<Token>, v: Values) {
    Covered(ts, v) && !Contains(Render(ts, ALL, v), DOLLAR_BRACE)
  }

  lemma CleanTail(ts: seq<Token>, v: Values)
    requires ts != [] && Clean(ts, v)
    ensures Clean(ts[1..], v)
  {
    if Contains(Render(ts[1..], ALL, v), DOLLAR_BRACE) {
      ContainsSuffix(Piece(ts[0], ALL, v), Render(ts[1..], ALL, v), DOLLAR_BRACE);
    }
  }

  /** If what follows starts with a brace in a partly filled template, it still does when all is filled. */
  lemma BraceStays(ts: seq<Token>, filled: set<Hole>, v: Values)
    requires Covered(ts, v) && Render(ts, filled, v) != "" && Render(ts, filled, v)[0] == '{'
    ensures Render(ts, ALL, v) != "" && Render(ts, ALL, v)[0] == '{'
  {
    hide Mark;
    assert ts[0] in ts;
    assert Piece(ts[0], filled, v) != "" && Piece(ts[0], filled, v)[0] == '{';
    assert ts[0].Ph? ==> ts[0].h in filled;
  }

  lemma DollarBraceAt(s: string, k: nat)
    requires k + 1 < |s|
    ensures s[k] == '$' && s[k + 1] == '{' ==> Contains(s, DOLLAR_BRACE)
  {
    if s[k] == '$' && s[k + 1] == '{' {
      assert s[k..k + 2] == DOLLAR_BRACE;
      assert OccursAt(s, k, DOLLAR_BRACE);
    }
  }

  /** Filling a piece in cannot create a placeholder where the simultaneous result has no `${`. */
  lemma NothingForms(t: Token, rest: seq<Token>, filled: set<Hole>, h: Hole, v: Values)
    requires Covered(rest, v) && (t.Ph? ==> t.h in filled)
    requires !Contains(Piece(t, filled, v) + Render(rest, ALL, v), DOLLAR_BRACE)
    ensures var u := Piece(t, filled, v);
            forall k | 0 <= k < |u| :: !OccursAt(u + Render(rest, filled, v), k, Mark(h))
  {
    hide Mark;
    var u := Piece(t, filled, v);
    var now, later := Render(rest, filled, v), Render(rest, ALL, v);
    forall k | 0 <= k < |u| ensures !OccursAt(u + now, k, Mark(h)) {
      OccursChars(u + now, k, Mark(h));
      if k + 1 == |u| && now != "" && now[0] == '{' {
        BraceStays(rest, filled, v);
      }
      if k + 1 < |u + later| {
        DollarBraceAt(u + later, k);
      }
    }
  }

  /** A pass goes over every token but its own placeholder. */
  lemma PassToken(t: Token, rest: seq<Token>, filled: set<Hole>, h: Hole, v: Values)
    requires t != Ph(h) && Covered(rest, v)
    requires !Contains(Piece(t, ALL, v) + Render(rest, ALL, v), DOLLAR_BRACE)
    ensures var u, w := Piece(t, filled, v), Render(rest, filled, v);
            && Piece(t, filled + {h}, v) == u
            && ReplaceAll(u + w, Mark(h), v.At(h)) == u + ReplaceAll(w, Mark(h), v.At(h))
            && (Contains(u + w, Mark(h)) <==> Contains(w, Mark(h)))
  {
    hide Mark;
    var u, w := Piece(t, filled, v), Render(rest, filled, v);
    if t.Ph? && t.h !in filled {
      MarksApart(t.h, h, w);
    } else {
      NothingForms(t, rest, filled, h, v);
    }
    SkipOver(u, w, Mark(h), v.At(h));
  }

  /** One pass over a partly filled template fills exactly its own placeholder. */
  lemma {:induction false} PassRender(ts: seq<Token>, filled: set<Hole>, h: Hole, v: Values)
    requires h !in filled && Clean(ts, v)
    ensures ReplaceAll(Render(ts, filled, v), Mark(h), v.At(h)) == Render(ts, filled + {h}, v)
    ensures Contains(Render(ts, filled, v), Mark(h)) <==> Ph(h) in ts
  {
    hide Mark, ReplaceAll, Contains;
    if ts == [] {
      NoneInEmpty(Mark(h), v.At(h));
    } else {
      var t, rest := ts[0], ts[1..];
      assert ts == [t] + rest;
      CleanTail(ts, v);
      PassRender(rest, filled, h, v);
      if t == Ph(h) {
        HitHere(Render(rest, filled, v), Mark(h), v.At(h));
      } else {
        PassToken(t, rest, filled, h, v);
      }
    }
  }

  lemma NoneInEmpty(pat: string, rep: string)
    requires pat != ""
    ensures ReplaceAll("", pat, rep) == "" && !Contains("", pat)
  {
  }

  lemma {:induction false} PassesRender(ts: seq<Token>, filled: set<Hole>, hs: seq<Hole>, v: Values)
    requires Clean(ts, v) && Distinct(hs) && (forall h | h in hs :: h !in filled)
    ensures Passes(Render(ts, filled, v), hs, v) == Ok(Render(ts, filled + Elements(hs), v))
    decreases hs
  {
    hide Mark;
    if hs == [] {
      assert filled + Elements(hs) == filled;
    } else {
      PassRender(ts, filled, hs[0], v);
      if Ph(hs[0]) !in ts {
        SameWithout(ts, filled, hs[0], v);
      }
      assert filled + Elements(hs) == (filled + {hs[0]}) + Elements(hs[1..]);
      PassesRender(ts, filled + {hs[0]}, hs[1..], v);
    }
  }

  lemma SameWithout(ts: seq<Token>, filled: set<Hole>, h: Hole, v: Values)
    requires Ph(h) !in ts
    ensures Render(ts, filled + {h}, v) == Render(ts, filled, v)
  {
    hide Mark;
    if ts != [] {
      SameWithout(ts[1..], filled, h, v);
    }
  }

  // ---------- a missing value is always noticed ----------

  lemma KeepsHere(w: string, g: Hole, h: Hole, x: string)
    requires g != h
    ensures Contains(ReplaceAll(Mark(h) + w, Mark(g), x), Mark(h))
  {
    hide Mark;
    MarksApart(h, g, w);
    SkipOver(Mark(h), w, Mark(g), x);
    HitHere(ReplaceAll(w, Mark(g), x), Mark(h), "");
  }

  /** A pass for one placeholder leaves every occurrence of another in the text. */
  lemma {:induction false} PassKeeps(s: string, g: Hole, h: Hole, x: string)
    requires g != h && Contains(s, Mark(h))
    ensures Contains(ReplaceAll(s, Mark(g), x), Mark(h))
  {
    hide Mark;
    if Mark(h) <= s {
      assert s == Mark(h) + s[|Mark(h)|..];
      KeepsHere(s[|Mark(h)|..], g, h, x);
    } else if Mark(g) <= s {
      var w := s[|Mark(g)|..];
      assert s == Mark(g) + w;
      MarksApart(g, h, w);
      ContainsAfter(Mark(g), w, Mark(h));
      PassKeeps(w, g, h, x);
      ContainsSuffix(x, ReplaceAll(w, Mark(g), x), Mark(h));
    } else {
      var w := s[1..];
      assert s == s[..1] + w;
      assert !OccursAt(s, 0, Mark(h));
      ContainsAfter(s[..1], w, Mark(h));
      PassKeeps(w, g, h, x);
      ContainsSuffix(s[..1], ReplaceAll(w, Mark(g), x), Mark(h));
      assert s[..1] == [s[0]];
    }
  }

  lemma {:induction false} MissingNoticed(out: string, hs: seq<Hole>, h: Hole, v: Values)
    requires h in hs && v.At(h) == "" && Contains(out, Mark(h))
    ensures Passes(out, hs, v).Err?
    decreases hs
  {
    hide Mark;
    if hs[0] != h && Pass(out, hs[0], v).Ok? {
      if Contains(out, Mark(hs[0])) {
        PassKeeps(out, hs[0], h, v.At(hs[0]));
      }
      MissingNoticed(Pass(out, hs[0], v).value, hs[1..], h, v);
    }
  }

  lemma {:induction false} MentionsOccurs(s: string, h: Hole)
    requires Mentions(s, h)
    ensures Contains(s, Mark(h))
  {
    hide Mark;
    match HoleAt(s)
    case Some(g) =>
      if g == h {
        assert OccursAt(s, 0, Mark(h));
      } else {
        MentionsOccurs(s[|Mark(g)|..], h);
        ContainsSuffix(Mark(g), s[|Mark(g)|..], Mark(h));
        assert s == Mark(g) + s[|Mark(g)|..];
      }
    case None =>
      MentionsOccurs(s[1..], h);
      ContainsSuffix(s[..1], s[1..], Mark(h));
      assert s == s[..1] + s[1..];
  }

  // ---------- main results ----------

  /** For every template and all values, `substitute` returns the simultaneous substitution exactly when
      each placeholder the template mentions has a value and that substitution holds no `${`. */
  lemma SequentialIsSimultaneous(tmpl: string, v: Values)
    ensures Sequential(tmpl, v) == Ok(Simultaneous(tmpl, v)) <==>
            Covered(Tokens(tmpl), v) && !Contains(Simultaneous(tmpl, v), DOLLAR_BRACE)
  {
    hide Mark;
    var ts := Tokens(tmpl);
    RenderTokens(tmpl, v);
    if Clean(ts, v) {
      assert {} + Elements(ORDER) == ALL;
      PassesRender(ts, {}, ORDER, v);
    } else if !Covered(ts, v) {
      var t :| t in ts && t.Ph? && v.At(t.h) == "";
      MissingIsError(tmpl, t.h, v);
    }
  }

  /** A mentioned placeholder without a value is an error whatever the other values are. */
  lemma MissingIsError(tmpl: string, h: Hole, v: Values)
    requires Mentions(tmpl, h) && v.At(h) == ""
    ensures Sequential(tmpl, v).Err?
  {
    hide Mark;
    MentionsOccurs(tmpl, h);
    MissingNoticed(tmpl, ORDER, h, v);
  }

  /** A template made of the four placeholders and `$`-free text only. */
  predicate PlainTemplate(ts: seq<Token>) {
    Lit('$') !in ts
  }

  predicate DollarFree(v: Values) {
    forall h: Hole :: '$' !in v.At(h)
  }

  lemma InAll(h: Hole)
    ensures h in ALL
  {
    match h
    case KeyHole =>
    case AccessHole =>
    case AccountHole =>
    case ProjectHole =>
  }

  lemma {:induction false} PlainRender(ts: seq<Token>, v: Values)
    requires PlainTemplate(ts) && DollarFree(v)
    ensures '$' !in Render(ts, ALL, v)
  {
    hide Mark;
    if ts != [] {
      if ts[0].Ph? {
        InAll(ts[0].h);
      }
      PlainRender(ts[1..], v);
    }
  }

  /** The documented use: with `$`-free literals and values the passes always agree with the simultaneous
      substitution, and fail exactly when a mentioned placeholder has no value. */
  lemma PlainSubstitution(tmpl: string, v: Values)
    requires PlainTemplate(Tokens(tmpl)) && DollarFree(v)
    ensures Sequential(tmpl, v).Err? <==> exists h: Hole :: Mentions(tmpl, h) && v.At(h) == ""
    ensures Sequential(tmpl, v).Ok? ==> Sequential(tmpl, v).value == Simultaneous(tmpl, v)
  {
    hide Mark;
    PlainRender(Tokens(tmpl), v);
    var s := Simultaneous(tmpl, v);
    forall k: nat ensures !OccursAt(s, k, DOLLAR_BRACE) {
      OccursChars(s, k, DOLLAR_BRACE);
      assert DOLLAR_BRACE[0] == '$' && |DOLLAR_BRACE| == 2;
    }
    SequentialIsSimultaneous(tmpl, v);
    if h: Hole :| Mentions(tmpl, h) && v.At(h) == "" {
      MissingIsError(tmpl, h, v);
    }
  }

  /** The condition is needed: a key that spells a later placeholder is itself substituted. */
  lemma ValueReread()
    ensures var v := Values("${access}", "tok", "", "");
            Sequential("${key}", v) == Ok("tok") && Simultaneous("${key}", v) == "${access}"
  {
    var v := Values("${access}", "tok", "", "");
    WholeMark(KeyHole, v);
    WholeMark(AccessHole, v);
    assert Pass("tok", AccountHole, v) == Pass("tok", ProjectHole, v) == Ok("tok");
    assert ORDER[1..][1..] == [AccountHole, ProjectHole];
    assert Passes("tok", [AccountHole, ProjectHole], v) == Passes("tok", [ProjectHole], v) == Ok("tok");
    assert Passes("${access}", ORDER[1..], v) == Ok("tok");
  }

  lemma WholeMark(h: Hole, v: Values)
    requires v.At(h) != ""
    ensures Pass(Mark(h), h, v) == Ok(v.At(h))
    ensures Simultaneous(Mark(h), v) == v.At(h)
  {
    var m := Mark(h);
    assert m[0..0 + |m|] == m;
    assert OccursAt(m, 0, m) && Contains(m, m);
    assert m[|m|..] == "";
    assert ReplaceAll(m, m, v.At(h)) == v.At(h) + ReplaceAll("", m, v.At(h)) == v.At(h) + "" == v.At(h);
    var w: string := "";
    assert m + w == m && OccursAt(m + w, 0, m);
    forall g: Hole | g != h ensures !(Mark(g) <= m) {
      MarksApart(h, g, w);
      assert !OccursAt(m + w, 0, Mark(g));
    }
    assert HoleAt(m) == Some(h);
    assert Tokens(m) == [Ph(h)] + Tokens("") == [Ph(h)];
    assert Render([Ph(h)], ALL, v) == v.At(h) + Render([], ALL, v);
  }
}
