/**
 * ColorProp (library/Icinga/Less/ColorProp.php): a Less colour that renders
 * as a CSS custom-property reference `var(--name, <fallback>)`, or as a
 * nested chain of them when the resolution cache links its name to another
 * cached colour.
 *
 * The PHP class keeps two pieces of static state: the resolution cache of
 * ColorPropOrVariable and the `lastVarRendered` flag of ColorProp. Both are
 * fields of one Context object here, passed to every operation that uses
 * them.
 */
module ColorProps {
  import opened LessTree
  import opened ResolvedRefs

  /** setName's normalisation: drop exactly one leading `@`. */
  function StripSigil(name: string): (r: string)
    ensures HasSigil(name) ==> name == "@" + r
    ensures !HasSigil(name) ==> r == name
  {
    if HasSigil(name) then name[1..] else name
  }

  /** PHP 8 `substr($s, 1)`: everything after the first character, "" for "". */
  function Tail(s: string): (r: string)
    ensures |s| > 0 ==> s == [s[0]] + r
    ensures |s| == 0 ==> r == ""
  {
    if |s| == 0 then "" else s[1..]
  }

  /**
   * A name stored by setName looks its cache key up again: for a key with
   * exactly one leading `@`, normalising the stripped name gives the key back.
   */
  lemma KeyRoundTrip(key: string)
    requires HasSigil(key) && !HasSigil(key[1..])
    ensures StripSigil(key) == key[1..]
    ensures GetValidName(StripSigil(key)) == key
  {
    assert key == "@" + key[1..];
  }

  /** Normalising a bare name and stripping it again gives it back. */
  lemma StripUndoesValidName(name: string)
    requires !HasSigil(name)
    ensures StripSigil(GetValidName(name)) == name
  {
    assert GetValidName(name)[1..] == name;
  }

  /** What a ColorProp wraps: a Less colour, or another ColorProp (fromColorProp). */
  datatype Wrapped = Plain(c: LessColor) | Nested(p: ColorProp)

  /** The fields of a ColorProp that genCSS does not use as scratch state. */
  datatype PropState = PropState(color: Wrapped, index: Option<int>, name: Option<string>, value: Option<string>)

  /**
   * The state fromColor gives a prop: `color` is the colour itself, `name` is
   * the colour's name through setName, `value` is copied from the colour, and
   * the index stays unset.
   */
  function FromColorState(c: LessColor): PropState {
    PropState(Plain(c), None, if c.name.Some? then Some(StripSigil(c.name.value)) else None, Some(c.literal))
  }

  class ColorProp {
    /** The colour (or prop) this prop was created from. */
    var color: Wrapped
    var index: Option<int>
    /** The variable name without its `@`. */
    var name: Option<string>
    /** The colour fields fromColor copies, reduced to the colour's text. */
    var value: Option<string>
    /** Whether a chained `var(` of this prop is waiting for its `)`. */
    var generated: bool
    /** The closer this prop still owes the output; PHP's '' and null are both "". */
    var closingBraces: string

    /** The prop's fields apart from the genCSS scratch flags. */
    function State(): PropState
      reads this`color, this`index, this`name, this`value
    {
      PropState(color, index, name, value)
    }

    /** fromColor: keep the colour, copy its fields, normalise its name. */
    constructor FromColor(c: LessColor)
      ensures State() == FromColorState(c)
      ensures !generated && closingBraces == ""
    {
      color := Plain(c);
      index := None;
      name := None;
      value := Some(c.literal);
      generated := false;
      closingBraces := "";
      new;
      if c.name.Some? {
        SetName(c.name.value);
      }
    }

    /** fromColorProp: wrap another prop and set nothing else. */
    constructor FromColorProp(q: ColorProp)
      ensures State() == PropState(Nested(q), None, None, None)
      ensures !generated && closingBraces == ""
    {
      color := Nested(q);
      index := None;
      name := None;
      value := None;
      generated := false;
      closingBraces := "";
    }

    function GetIndex(): Option<int>
      reads this`index
    {
      index
    }

    method SetIndex(i: int)
      modifies this`index
      ensures GetIndex() == Some(i)
    {
      index := Some(i);
    }

    function GetName(): Option<string>
      reads this`name
    {
      name
    }

    /** setName stores the name with one leading `@` removed. */
    method SetName(n: string)
      modifies this`name
      ensures GetName() == Some(StripSigil(n))
      ensures HasSigil(n) ==> "@" + GetName().value == n
      ensures !HasSigil(n) ==> GetName().value == n
    {
      var stored := n;
      if |stored| > 0 && stored[0] == '@' {
        stored := stored[1..];
      }
      name := Some(stored);
    }

    /**
     * The name genCSS looks up for a chain (ColorProp.php:117-127): the
     * wrapped colour's name with `@` ensured, replaced by the colour name of
     * the prop cached under this prop's own name when that one is set and
     * differs.
     */
    method TargetName(ctx: Context, ghost g: PropGraph) returns (colorPropName: string)
      requires this in g && Snapshot(g) && Closed(ctx.resolvedVarRefs, g)
      requires Entered(color) && name.Some?
      ensures colorPropName == Candidate(ctx.resolvedVarRefs, g, this)
    {
      assert State() == g[this] && WrapsIn(g, this);
      assert color.Nested? ==> color.p.State() == g[color.p];
      colorPropName := if color.Nested? then color.p.name.GetOr("") else color.c.name.value;
      if !(|colorPropName| > 0 && colorPropName[0] == '@') {
        colorPropName := "@" + colorPropName;
      }
      var own := name.value;
      if IsRefResolved(ctx.resolvedVarRefs.Keys, own) {
        var frameVar := GetResolvedRefFor(ctx.resolvedVarRefs, own).value;
        assert frameVar.State() == g[frameVar] && WrapsIn(g, frameVar);
        assert frameVar.color.Nested? ==> frameVar.color.p.State() == g[frameVar.color.p];
        var frameVarName := if frameVar.color.Nested? then frameVar.color.p.name else frameVar.color.c.name;
        if frameVarName.Some? && colorPropName != frameVarName.value {
          colorPropName := frameVarName.value;
        }
      }
    }

    /**
     * genCSS: append this prop's CSS to `output`. `g` is a snapshot of the
     * props the rendering can reach, and `rank` a termination measure for it.
     * The text appended is Render of the snapshot; afterwards every
     * `generated` flag is back to what it was (so the prop can be rendered
     * again from another output site) and `lastVarRendered` is set.
     */
    method GenCSS(ctx: Context, output: Output, ghost g: PropGraph, ghost rank: map<ColorProp, nat>)
      requires this in g && Snapshot(g) && Ranked(ctx.resolvedVarRefs, g, rank)
      requires forall q {:trigger q.generated} :: q in g && q.generated ==> rank[this] < rank[q]
      modifies output`text, ctx`lastVarRendered, g.Keys`generated, g.Keys`closingBraces
      ensures ctx.lastVarRendered
      ensures forall q {:trigger q.generated} :: q in g ==> q.generated == old(q.generated)
      ensures forall q {:trigger q.closingBraces} :: q in g && rank[this] < rank[q] ==> q.closingBraces == old(q.closingBraces)
      ensures output.text == old(output.text) + Render(ctx.resolvedVarRefs, g, rank, this)
      decreases rank[this], 2
    {
      ghost var refs := ctx.resolvedVarRefs;
      ghost var before := output.text;
      ghost var chunk := TryChain(ctx, output, g, rank);
      if !generated {
        GenVar(ctx, output, g, rank);
      }
      if ctx.lastVarRendered && closingBraces != "" {
        output.Add(closingBraces);
        generated := false;
      }
      if Chains(refs, g, this) {
        ChainedRender(refs, g, rank, this);
        AppendAssoc(before, chunk, ")");
      }
    }

    /**
     * The candidate block of genCSS (ColorProp.php:116-140): for a wrapped
     * prop or a named colour, work out the candidate name and, when it
     * chains, open the chain. Afterwards `generated` says whether it did.
     */
    method TryChain(ctx: Context, output: Output, ghost g: PropGraph, ghost rank: map<ColorProp, nat>) returns (ghost chunk: string)
      requires this in g && Snapshot(g) && Ranked(ctx.resolvedVarRefs, g, rank)
      requires forall q {:trigger q.generated} :: q in g && q.generated ==> rank[this] < rank[q]
      modifies output`text, ctx`lastVarRendered, g.Keys`generated, g.Keys`closingBraces
      ensures Renderable(g[this])
      ensures generated == Chains(ctx.resolvedVarRefs, g, this)
      ensures output.text == old(output.text) + chunk
      ensures !generated ==> chunk == ""
      ensures generated ==> GetValidName(Candidate(ctx.resolvedVarRefs, g, this)) in ctx.resolvedVarRefs
      ensures generated ==> && ctx.lastVarRendered && closingBraces == ")"
                            && chunk == "var(--" + g[this].name.value + ", "
                               + Render(ctx.resolvedVarRefs, g, rank, ctx.resolvedVarRefs[GetValidName(Candidate(ctx.resolvedVarRefs, g, this))])
      ensures forall q {:trigger q.generated} :: q in g && q != this ==> q.generated == old(q.generated)
      ensures forall q {:trigger q.closingBraces} :: q in g && rank[this] < rank[q] ==> q.closingBraces == old(q.closingBraces)
      decreases rank[this], 1
    {
      assert RankedAt(ctx.resolvedVarRefs, g, rank, this) && State() == g[this];
      chunk := "";
      if color.Nested? || color.c.name.Some? {
        var own := name.value;
        var colorPropName := TargetName(ctx, g);
        if Tail(colorPropName) != own && IsRefResolved(ctx.resolvedVarRefs.Keys, colorPropName) {
          ChainedRender(ctx.resolvedVarRefs, g, rank, this);
          chunk := "var(--" + own + ", " + Render(ctx.resolvedVarRefs, g, rank, ctx.resolvedVarRefs[GetValidName(colorPropName)]);
          OpenChain(ctx, output, colorPropName, g, rank);
        }
      }
    }

    /**
     * The chained branch of genCSS (ColorProp.php:129-138): open
     * `var(--<name>, `, mark this prop as generated with a pending `)`, and
     * render the cached prop the candidate name resolves to.
     */
    method OpenChain(ctx: Context, output: Output, colorPropName: string, ghost g: PropGraph, ghost rank: map<ColorProp, nat>)
      requires this in g && Snapshot(g) && Ranked(ctx.resolvedVarRefs, g, rank)
      requires forall q {:trigger q.generated} :: q in g && q.generated ==> rank[this] < rank[q]
      requires Renderable(g[this]) && Chains(ctx.resolvedVarRefs, g, this)
      requires colorPropName == Candidate(ctx.resolvedVarRefs, g, this)
      modifies output`text, ctx`lastVarRendered, g.Keys`generated, g.Keys`closingBraces
      ensures GetValidName(colorPropName) in ctx.resolvedVarRefs
      ensures output.text == old(output.text) + ("var(--" + g[this].name.value + ", "
                             + Render(ctx.resolvedVarRefs, g, rank, ctx.resolvedVarRefs[GetValidName(colorPropName)]))
      ensures ctx.lastVarRendered && generated && closingBraces == ")"
      ensures forall q {:trigger q.generated} :: q in g && q != this ==> q.generated == old(q.generated)
      ensures forall q {:trigger q.closingBraces} :: q in g && rank[this] < rank[q] ==> q.closingBraces == old(q.closingBraces)
      decreases rank[this], 0
    {
      ghost var refs := ctx.resolvedVarRefs;
      assert State() == g[this];
      ChainedRender(refs, g, rank, this);
      ghost var before := output.text;
      ghost var open := "var(--" + name.value;
      output.Add("var(--" + name.value);
      output.Add(", ");
      generated := true;
      closingBraces := ")";
      var fv := GetResolvedRefFor(ctx.resolvedVarRefs, colorPropName).value;
      ghost var target := Render(refs, g, rank, fv);
      fv.GenCSS(ctx, output, g, rank);
      AppendAssoc(before, open, ", ");
      AppendAssoc(before, open + ", ", target);
    }

    /**
     * The unchained branch of genCSS (ColorProp.php:142-156): render
     * `var(--<name>, <colour>)` through a Less call, set `lastVarRendered`
     * and clear the pending closing brace.
     */
    method GenVar(ctx: Context, output: Output, ghost g: PropGraph, ghost rank: map<ColorProp, nat>)
      requires this in g && Snapshot(g) && Ranked(ctx.resolvedVarRefs, g, rank)
      requires forall q {:trigger q.generated} :: q in g && q.generated ==> rank[this] < rank[q]
      requires Renderable(g[this]) && !Chains(ctx.resolvedVarRefs, g, this)
      modifies output`text, ctx`lastVarRendered, g.Keys`generated, g.Keys`closingBraces
      ensures ctx.lastVarRendered && closingBraces == ""
      ensures forall q {:trigger q.generated} :: q in g ==> q.generated == old(q.generated)
      ensures forall q {:trigger q.closingBraces} :: q in g && rank[this] < rank[q] ==> q.closingBraces == old(q.closingBraces)
      ensures output.text == old(output.text) + Render(ctx.resolvedVarRefs, g, rank, this)
      decreases rank[this], 1
    {
      VarCall(ctx, output, g, rank);
      ctx.lastVarRendered := true;
      closingBraces := "";
    }

    /**
     * `Less_Tree_Call('var', [Keyword('--' . name), color])->genCSS`
     * (ColorProp.php:143-153): `var(`, the two arguments separated by `, `,
     * then `)`; a wrapped prop renders through its own genCSS.
     */
    method VarCall(ctx: Context, output: Output, ghost g: PropGraph, ghost rank: map<ColorProp, nat>)
      requires this in g && Snapshot(g) && Ranked(ctx.resolvedVarRefs, g, rank)
      requires forall q {:trigger q.generated} :: q in g && q.generated ==> rank[this] < rank[q]
      requires Renderable(g[this]) && !Chains(ctx.resolvedVarRefs, g, this)
      modifies output`text, ctx`lastVarRendered, g.Keys`generated, g.Keys`closingBraces
      ensures forall q {:trigger q.generated} :: q in g ==> q.generated == old(q.generated)
      ensures forall q {:trigger q.closingBraces} :: q in g && rank[this] <= rank[q] ==> q.closingBraces == old(q.closingBraces)
      ensures output.text == old(output.text) + Render(ctx.resolvedVarRefs, g, rank, this)
      decreases rank[this], 0
    {
      ghost var refs := ctx.resolvedVarRefs;
      assert State() == g[this];
      UnchainedRender(refs, g, rank, this);
      ghost var inner := if color.Nested? then Render(refs, g, rank, color.p) else color.c.literal;
      ghost var before := output.text;
      output.Add("var(" + ("--" + name.GetOr("")) + ", ");
      match color {
        case Plain(c) =>
          output.Add(c.literal);
        case Nested(q) =>
          q.GenCSS(ctx, output, g, rank);
      }
      output.Add(")");
      CallText(before, name.GetOr(""), inner);
    }
  }

  /**
   * The chunks Less_Tree_Call::genCSS appends for `var(--<name>, <inner>)`
   * make up that text.
   */
  lemma CallText(before: string, name: string, inner: string)
    ensures before + ("var(" + ("--" + name) + ", ") + inner + ")" == before + ("var(--" + name + ", " + inner + ")")
  {
    assert "var(" + ("--" + name) == "var(--" + name;
  }

  /** The static state of both PHP classes for one compilation run. */
  class Context {
    /** ColorPropOrVariable::$resolvedVarRefs, read by getResolvedVarRefs. */
    var resolvedVarRefs: map<string, ColorProp>
    /** ColorProp::$lastVarRendered. */
    var lastVarRendered: bool

    constructor ()
      ensures resolvedVarRefs == map[] && !lastVarRendered
    {
      resolvedVarRefs := map[];
      lastVarRendered := false;
    }
  }

  /** genCSS enters its candidate block (ColorProp.php:116) for a wrapped prop or a named colour. */
  predicate Entered(w: Wrapped) {
    w.Nested? || w.c.name.Some?
  }

  /** The props a rendering can reach, each with its state. */
  type PropGraph = map<ColorProp, PropState>

  /** `g` agrees with the heap on every prop it holds. */
  ghost predicate Snapshot(g: PropGraph)
    reads g.Keys`color, g.Keys`index, g.Keys`name, g.Keys`value
  {
    forall q :: q in g ==> q.State() == g[q]
  }

  /** A prop of `g` that wraps another prop wraps one of `g`. */
  predicate WrapsIn(g: PropGraph, q: ColorProp) {
    q in g && g[q].color.Nested? ==> g[q].color.p in g
  }

  /** Every prop of the cache, and every prop wrapped by a prop of `g`, is in `g`. */
  predicate Closed(refs: map<string, ColorProp>, g: PropGraph) {
    && (forall k :: k in refs ==> refs[k] in g)
    && (forall q {:trigger WrapsIn(g, q)} :: q in g ==> WrapsIn(g, q))
  }

  /**
   * genCSS passes the prop's name to isRefResolved, whose parameter is a PHP
   * string: entering the candidate block with an unset name is a TypeError.
   */
  predicate Renderable(s: PropState) {
    Entered(s.color) ==> s.name.Some?
  }

  /** `$w->name` as genCSS reads it. */
  function WrappedName(g: PropGraph, w: Wrapped): Option<string>
    requires w.Nested? ==> w.p in g
  {
    match w
    case Plain(c) => c.name
    case Nested(q) => g[q].name
  }

  /**
   * The candidate target name (ColorProp.php:117-127): the wrapped colour's
   * name with `@` ensured, replaced by the colour name of the prop cached
   * under this prop's own name when that one is set and differs.
   */
  function Candidate(refs: map<string, ColorProp>, g: PropGraph, p: ColorProp): string
    requires Closed(refs, g) && p in g && g[p].name.Some?
  {
    assert WrapsIn(g, p);
    var start := GetValidName(WrappedName(g, g[p].color).GetOr(""));
    var own := g[p].name.value;
    if IsRefResolved(refs.Keys, own) then
      var cached := refs[GetValidName(own)];
      assert WrapsIn(g, cached);
      var cachedName := WrappedName(g, g[cached].color);
      if cachedName.Some? && start != cachedName.value then cachedName.value else start
    else start
  }

  /**
   * A prop chains (ColorProp.php:129) when it enters the candidate block,
   * the candidate without its first character is not the prop's own name,
   * and the candidate is resolved.
   */
  predicate Chains(refs: map<string, ColorProp>, g: PropGraph, p: ColorProp)
    requires Closed(refs, g) && p in g && Renderable(g[p])
  {
    && Entered(g[p].color)
    && Tail(Candidate(refs, g, p)) != g[p].name.value
    && IsRefResolved(refs.Keys, Candidate(refs, g, p))
  }

  /**
   * The prop whose genCSS this prop's genCSS calls: the cached target when
   * chained, otherwise the wrapped prop, if any (Less_Tree_Call renders its
   * arguments with their own genCSS).
   */
  function Hop(refs: map<string, ColorProp>, g: PropGraph, rank: map<ColorProp, nat>, p: ColorProp): (h: Option<ColorProp>)
    requires Closed(refs, g) && p in g && Renderable(g[p])
    ensures h.Some? ==> h.value in g
    ensures h.None? ==> g[p].color.Plain?
    ensures Chains(refs, g, p) ==> h == Some(refs[GetValidName(Candidate(refs, g, p))])
    ensures !Chains(refs, g, p) && g[p].color.Nested? ==> h == Some(g[p].color.p)
  {
    assert WrapsIn(g, p);
    if Chains(refs, g, p) then Some(refs[GetValidName(Candidate(refs, g, p))])
    else if g[p].color.Nested? then Some(g[p].color.p)
    else None
  }

  /**
   * At `p`, `rank` works as a termination measure for rendering: `p` can be
   * rendered without a TypeError, and its hop lands on a prop of strictly
   * smaller rank.
   */
  predicate RankedAt(refs: map<string, ColorProp>, g: PropGraph, rank: map<ColorProp, nat>, p: ColorProp)
    requires Closed(refs, g) && g.Keys <= rank.Keys
  {
    p in g ==>
      && Renderable(g[p])
      && (Hop(refs, g, rank, p).Some? ==> rank[Hop(refs, g, rank, p).value] < rank[p])
  }

  /**
   * `rank` is a termination measure for rendering every prop of `g`, which
   * rules out cycles of hops (PHP does not).
   */
  predicate Ranked(refs: map<string, ColorProp>, g: PropGraph, rank: map<ColorProp, nat>) {
    && Closed(refs, g)
    && g.Keys <= rank.Keys
    && forall p {:trigger RankedAt(refs, g, rank, p)} :: p in g ==> RankedAt(refs, g, rank, p)
  }

  /**
   * The CSS genCSS appends for `p`: `var(--<name>, <inner>)`, where `inner`
   * is the rendering of the hop, or the colour literal when there is none.
   */
  function Render(refs: map<string, ColorProp>, g: PropGraph, rank: map<ColorProp, nat>, p: ColorProp): string
    requires Ranked(refs, g, rank) && p in g
    decreases rank[p]
  {
    assert RankedAt(refs, g, rank, p);
    var inner :=
      match Hop(refs, g, rank, p)
      case Some(q) => Render(refs, g, rank, q)
      case None => g[p].color.c.literal;
    "var(--" + g[p].name.GetOr("") + ", " + inner + ")"
  }

  /**
   * An unchained prop renders as `var(--<name>, <inner>)` with the wrapped
   * prop's rendering or the colour literal inside; a wrapped prop ranks
   * below its wrapper.
   */
  lemma UnchainedRender(refs: map<string, ColorProp>, g: PropGraph, rank: map<ColorProp, nat>, p: ColorProp)
    requires Ranked(refs, g, rank) && p in g && Renderable(g[p]) && !Chains(refs, g, p)
    ensures g[p].color.Nested? ==> g[p].color.p in g && rank[g[p].color.p] < rank[p]
    ensures Render(refs, g, rank, p) == "var(--" + g[p].name.GetOr("") + ", "
              + (if g[p].color.Nested? then Render(refs, g, rank, g[p].color.p) else g[p].color.c.literal) + ")"
  {
    assert RankedAt(refs, g, rank, p);
  }

  /**
   * A chained prop renders as `var(--<name>, <target>)` around the rendering
   * of the cached prop its candidate name resolves to, which ranks below it.
   */
  lemma ChainedRender(refs: map<string, ColorProp>, g: PropGraph, rank: map<ColorProp, nat>, p: ColorProp)
    requires Ranked(refs, g, rank) && p in g && Renderable(g[p]) && Chains(refs, g, p)
    ensures GetValidName(Candidate(refs, g, p)) in refs
    ensures refs[GetValidName(Candidate(refs, g, p))] in g
    ensures rank[refs[GetValidName(Candidate(refs, g, p))]] < rank[p]
    ensures Render(refs, g, rank, p) == "var(--" + g[p].name.value + ", "
              + Render(refs, g, rank, refs[GetValidName(Candidate(refs, g, p))]) + ")"
  {
    assert RankedAt(refs, g, rank, p);
  }
}
