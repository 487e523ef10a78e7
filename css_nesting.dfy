/**
 * The shape of the CSS that ColorProp::genCSS produces
 * (library/Icinga/Less/ColorProp.php:114-165): a rendering is one
 * `var(--<name>, ` opener per prop it passes through, the literal fallback
 * of the innermost colour exactly once, and one `)` per opener, so each hop
 * adds one balanced pair of parentheses. A prop never hops to itself, and
 * because genCSS restores its flags, rendering a prop again gives the same
 * text.
 */
module CssNesting {
  import opened LessTree
  import opened ResolvedRefs
  import opened ColorProps

  /**
   * The props whose genCSS a rendering of `p` runs, outermost first: `p`,
   * then its hop, and so on down to a prop that wraps a plain colour. Each
   * ranks strictly below the one before, so no prop occurs twice.
   */
  function Hops(refs: map<string, ColorProp>, g: PropGraph, rank: map<ColorProp, nat>, p: ColorProp): (s: seq<ColorProp>)
    requires Ranked(refs, g, rank) && p in g
    ensures |s| > 0 && s[0] == p
    ensures forall i :: 0 <= i < |s| ==> s[i] in g
    ensures forall i, j :: 0 <= i < j < |s| ==> rank[s[j]] < rank[s[i]]
    decreases rank[p]
  {
    assert RankedAt(refs, g, rank, p);
    match Hop(refs, g, rank, p)
    case Some(q) => [p] + Hops(refs, g, rank, q)
    case None => [p]
  }

  /** The literal fallback a rendering of `p` ends in: that of the innermost colour. */
  function Leaf(refs: map<string, ColorProp>, g: PropGraph, rank: map<ColorProp, nat>, p: ColorProp): string
    requires Ranked(refs, g, rank) && p in g
    decreases rank[p]
  {
    assert RankedAt(refs, g, rank, p);
    match Hop(refs, g, rank, p)
    case Some(q) => Leaf(refs, g, rank, q)
    case None => g[p].color.c.literal
  }

  /** The openers `var(--<name>, ` of the props `s`, in order. */
  function Openers(g: PropGraph, s: seq<ColorProp>): string
    requires forall i :: 0 <= i < |s| ==> s[i] in g
  {
    if |s| == 0 then "" else "var(--" + g[s[0]].name.GetOr("") + ", " + Openers(g, s[1..])
  }

  /** `k` closing parentheses. */
  function Closers(k: nat): string {
    if k == 0 then "" else Closers(k - 1) + ")"
  }

  /** The opener genCSS writes for `p`. */
  function Opener(g: PropGraph, p: ColorProp): string
    requires p in g
  {
    "var(--" + g[p].name.GetOr("") + ", "
  }

  /** One level of Render, Hops and Leaf at once. */
  lemma Unfold(refs: map<string, ColorProp>, g: PropGraph, rank: map<ColorProp, nat>, p: ColorProp)
    requires Ranked(refs, g, rank) && p in g
    ensures Renderable(g[p])
    ensures Hop(refs, g, rank, p).Some? ==>
      var q := Hop(refs, g, rank, p).value;
      && q in g && rank[q] < rank[p]
      && Render(refs, g, rank, p) == Opener(g, p) + Render(refs, g, rank, q) + ")"
      && Hops(refs, g, rank, p) == [p] + Hops(refs, g, rank, q)
      && Leaf(refs, g, rank, p) == Leaf(refs, g, rank, q)
    ensures Hop(refs, g, rank, p).None? ==>
      && Render(refs, g, rank, p) == Opener(g, p) + g[p].color.c.literal + ")"
      && Hops(refs, g, rank, p) == [p]
      && Leaf(refs, g, rank, p) == g[p].color.c.literal
  {
    assert RankedAt(refs, g, rank, p);
  }

  /** The openers of a sequence with a first element. */
  lemma OpenersCons(g: PropGraph, p: ColorProp, s: seq<ColorProp>)
    requires p in g && forall i :: 0 <= i < |s| ==> s[i] in g
    ensures Openers(g, [p] + s) == Opener(g, p) + Openers(g, s)
  {
    assert ([p] + s)[1..] == s;
  }

  /** Wrapping a shaped text in one more opener and closer keeps its shape. */
  lemma Nest(open: string, openers: string, leaf: string, closers: string)
    ensures open + (openers + leaf + closers) + ")" == (open + openers) + leaf + (closers + ")")
  {
  }

  /**
   * A rendering is the openers of its hops, the innermost literal once,
   * and as many closers as openers.
   */
  lemma {:induction false} RenderShape(refs: map<string, ColorProp>, g: PropGraph, rank: map<ColorProp, nat>, p: ColorProp)
    requires Ranked(refs, g, rank) && p in g
    ensures Render(refs, g, rank, p)
            == Openers(g, Hops(refs, g, rank, p)) + Leaf(refs, g, rank, p) + Closers(|Hops(refs, g, rank, p)|)
    decreases rank[p]
  {
    Unfold(refs, g, rank, p);
    var h := Hop(refs, g, rank, p);
    if h.Some? {
      var q := h.value;
      RenderShape(refs, g, rank, q);
      var rest := Hops(refs, g, rank, q);
      OpenersCons(g, p, rest);
      Nest(Opener(g, p), Openers(g, rest), Leaf(refs, g, rank, q), Closers(|rest|));
    } else {
      OpenersCons(g, p, []);
    }
  }

  /** A name that cannot unbalance a rendering: Less variable names hold no parentheses. */
  predicate ParenFree(s: string) {
    '(' !in s && ')' !in s
  }

  /** The number of occurrences of `c` in `s`. */
  function Count(s: string, c: char): nat {
    if |s| == 0 then 0 else (if s[0] == c then 1 else 0) + Count(s[1..], c)
  }

  /** Counting distributes over concatenation. */
  lemma {:induction false} CountAppend(a: string, b: string, c: char)
    ensures Count(a + b, c) == Count(a, c) + Count(b, c)
    decreases |a|
  {
    if |a| == 0 {
      assert a + b == b;
    } else {
      assert (a + b)[1..] == a[1..] + b;
      CountAppend(a[1..], b, c);
    }
  }

  /** A character that does not occur is counted zero times. */
  lemma {:induction false} CountAbsent(s: string, c: char)
    requires c !in s
    ensures Count(s, c) == 0
    decreases |s|
  {
    if |s| > 0 {
      assert s == [s[0]] + s[1..];
      CountAbsent(s[1..], c);
    }
  }

  /** The fixed text of a `var()` call holds one `(` and one `)`. */
  lemma CallTextParens()
    ensures Count("var(--", '(') == 1 && Count("var(--", ')') == 0
    ensures Count(", ", '(') == 0 && Count(", ", ')') == 0
    ensures Count(")", '(') == 0 && Count(")", ')') == 1
  {
    assert "var(--"[1..] == "ar(--";
    assert "ar(--"[1..] == "r(--";
    assert "r(--"[1..] == "(--";
    assert "(--"[1..] == "--";
    assert "--"[1..] == "-";
    assert "-"[1..] == "";
    assert ", "[1..] == " ";
    assert " "[1..] == "";
    assert ")"[1..] == "";
  }

  /** One `var(--<name>, ` ... `)` around a text adds one `(` and one `)` to it. */
  lemma CallParens(name: string, inner: string)
    requires ParenFree(name)
    ensures Count("var(--" + name + ", " + inner + ")", '(') == 1 + Count(inner, '(')
    ensures Count("var(--" + name + ", " + inner + ")", ')') == 1 + Count(inner, ')')
  {
    CallTextParens();
    CountAbsent(name, '(');
    CountAbsent(name, ')');
    var a := "var(--" + name;
    var b := a + ", ";
    var d := b + inner;
    CountAppend("var(--", name, '(');
    CountAppend("var(--", name, ')');
    CountAppend(a, ", ", '(');
    CountAppend(a, ", ", ')');
    CountAppend(b, inner, '(');
    CountAppend(b, inner, ')');
    CountAppend(d, ")", '(');
    CountAppend(d, ")", ')');
  }

  /**
   * Each hop contributes exactly one `(` and one `)`: apart from those of
   * the literal, a rendering holds as many of each as it has hops.
   */
  lemma {:induction false} ParensPerHop(refs: map<string, ColorProp>, g: PropGraph, rank: map<ColorProp, nat>, p: ColorProp)
    requires Ranked(refs, g, rank) && p in g
    requires forall q :: q in g && g[q].name.Some? ==> ParenFree(g[q].name.value)
    ensures Count(Render(refs, g, rank, p), '(') == |Hops(refs, g, rank, p)| + Count(Leaf(refs, g, rank, p), '(')
    ensures Count(Render(refs, g, rank, p), ')') == |Hops(refs, g, rank, p)| + Count(Leaf(refs, g, rank, p), ')')
    decreases rank[p]
  {
    Unfold(refs, g, rank, p);
    assert ParenFree(g[p].name.GetOr(""));
    var h := Hop(refs, g, rank, p);
    if h.Some? {
      ParensPerHop(refs, g, rank, h.value);
      CallParens(g[p].name.GetOr(""), Render(refs, g, rank, h.value));
    } else {
      CallParens(g[p].name.GetOr(""), g[p].color.c.literal);
    }
  }

  /** Every cache key that holds `p` is `@` followed by `p`'s name, as the walk stores source props. */
  predicate KeysNamed(refs: map<string, ColorProp>, g: PropGraph, p: ColorProp)
    requires p in g
  {
    forall k :: k in refs && refs[k] == p ==> g[p].name == Some(StripSigil(k))
  }

  /**
   * The guard of ColorProp.php:129 alone keeps a prop from chaining to
   * itself: when the `@`-prefixed candidate resolves to the prop, the
   * candidate without `@` is the prop's own name, so the guard fails.
   */
  lemma GuardBlocksSelfChain(refs: map<string, ColorProp>, g: PropGraph, p: ColorProp)
    requires Closed(refs, g) && p in g && g[p].name.Some? && Entered(g[p].color)
    requires HasSigil(Candidate(refs, g, p)) && KeysNamed(refs, g, p)
    requires IsRefResolved(refs.Keys, Candidate(refs, g, p)) && refs[GetValidName(Candidate(refs, g, p))] == p
    ensures !Chains(refs, g, p)
  {
    var c := Candidate(refs, g, p);
    assert GetValidName(c) == c;
    assert c == [c[0]] + Tail(c);
  }

  /**
   * The cached prop a chained prop renders inside is never the prop itself,
   * by the guard and without any ranking.
   */
  lemma NeverChainsToItself(refs: map<string, ColorProp>, g: PropGraph, p: ColorProp)
    requires Closed(refs, g) && p in g && Renderable(g[p]) && Chains(refs, g, p)
    requires HasSigil(Candidate(refs, g, p)) && KeysNamed(refs, g, p)
    ensures refs[GetValidName(Candidate(refs, g, p))] != p
  {
    var c := Candidate(refs, g, p);
    assert GetValidName(c) == c;
    assert c == [c[0]] + Tail(c);
  }

  /**
   * genCSS's own guard: a chained prop with an `@`-prefixed candidate and a
   * bare name looks up a cache key other than its own.
   */
  lemma ChainGuardAvoidsOwnKey(refs: map<string, ColorProp>, g: PropGraph, p: ColorProp)
    requires Closed(refs, g) && p in g && Renderable(g[p]) && Chains(refs, g, p)
    requires HasSigil(Candidate(refs, g, p)) && !HasSigil(g[p].name.value)
    ensures GetValidName(Candidate(refs, g, p)) != GetValidName(g[p].name.value)
  {
    var c := Candidate(refs, g, p);
    assert c == [c[0]] + Tail(c);
  }

  /**
   * The props after compiling `@primary` (at index 7) with `@primary: @base`
   * and `@base: #fff`: the prop compile returns, and the props it cached
   * under `@primary` and `@base`.
   */
  predicate AliasCache(refs: map<string, ColorProp>, g: PropGraph, rank: map<ColorProp, nat>,
                       compiled: ColorProp, primary: ColorProp, root: ColorProp) {
    var base := LessColor(Some("@base"), "#fff");
    && compiled != primary && compiled != root && primary != root
    && refs == map["@primary" := primary, "@base" := root]
    && g == map[compiled := PropState(Plain(base), Some(7), Some("primary"), Some("#fff")),
                primary := PropState(Plain(base), None, Some("primary"), Some("#fff")),
                root := PropState(Plain(base), None, Some("base"), Some("#fff"))]
    && rank == map[compiled := 2, primary := 1, root := 0]
  }

  /** In that cache the root is named after itself, so it renders its literal. */
  lemma AliasRoot(refs: map<string, ColorProp>, g: PropGraph, rank: map<ColorProp, nat>,
                  compiled: ColorProp, primary: ColorProp, root: ColorProp)
    requires AliasCache(refs, g, rank, compiled, primary, root)
    ensures Closed(refs, g) && Candidate(refs, g, root) == "@base" && !Chains(refs, g, root)
    ensures Hop(refs, g, rank, root) == None && RankedAt(refs, g, rank, root)
  {
    assert forall q :: q in g ==> WrapsIn(g, q);
    assert Tail("@base") == "base";
  }

  /** `@primary` finds `@base` through the entry cached under its own name and chains to the root. */
  lemma AliasPrimary(refs: map<string, ColorProp>, g: PropGraph, rank: map<ColorProp, nat>,
                     compiled: ColorProp, primary: ColorProp, root: ColorProp)
    requires AliasCache(refs, g, rank, compiled, primary, root) && Closed(refs, g)
    ensures Candidate(refs, g, primary) == "@base" && Chains(refs, g, primary)
    ensures Hop(refs, g, rank, primary) == Some(root) && RankedAt(refs, g, rank, primary)
    ensures Candidate(refs, g, compiled) == "@base" && Chains(refs, g, compiled)
    ensures Hop(refs, g, rank, compiled) == Some(root) && RankedAt(refs, g, rank, compiled)
  {
    assert Tail("@base") == "base";
  }

  /**
   * `@primary: @base` by example: the prop compile returns for `@primary`,
   * like the one it cached, renders inside the root `@base`, which renders
   * its literal.
   */
  lemma AliasRender(refs: map<string, ColorProp>, g: PropGraph, rank: map<ColorProp, nat>,
                    compiled: ColorProp, primary: ColorProp, root: ColorProp)
    requires AliasCache(refs, g, rank, compiled, primary, root)
    ensures Ranked(refs, g, rank)
    ensures Render(refs, g, rank, compiled) == "var(--" + "primary" + ", " + ("var(--" + "base" + ", " + "#fff" + ")") + ")"
    ensures Render(refs, g, rank, primary) == Render(refs, g, rank, compiled)
  {
    AliasRoot(refs, g, rank, compiled, primary, root);
    AliasPrimary(refs, g, rank, compiled, primary, root);
    assert forall q {:trigger RankedAt(refs, g, rank, q)} :: q in g ==> RankedAt(refs, g, rank, q) by {
      assert g.Keys == {compiled, primary, root};
    }
    Unfold(refs, g, rank, root);
    Unfold(refs, g, rank, primary);
    Unfold(refs, g, rank, compiled);
  }

  /**
   * genCSS leaves every prop's flags as it found them, so a prop rendered
   * again gives the same text again (ColorProp.php:159-164): to a second
   * output, or to the same output right after the first rendering.
   */
  method RenderTwice(p: ColorProp, ctx: Context, first: Output, second: Output, ghost g: PropGraph, ghost rank: map<ColorProp, nat>)
    requires p in g && Snapshot(g) && Ranked(ctx.resolvedVarRefs, g, rank)
    requires forall q {:trigger q.generated} :: q in g && q.generated ==> rank[p] < rank[q]
    modifies first`text, second`text, ctx`lastVarRendered, g.Keys`generated, g.Keys`closingBraces
    ensures first != second ==> first.text == old(first.text) + Render(ctx.resolvedVarRefs, g, rank, p)
    ensures first != second ==> second.text == old(second.text) + Render(ctx.resolvedVarRefs, g, rank, p)
    ensures first == second ==>
      first.text == old(first.text) + Render(ctx.resolvedVarRefs, g, rank, p) + Render(ctx.resolvedVarRefs, g, rank, p)
    ensures forall q {:trigger q.generated} :: q in g ==> q.generated == old(q.generated)
  {
    p.GenCSS(ctx, first, g, rank);
    p.GenCSS(ctx, second, g, rank);
  }
}
