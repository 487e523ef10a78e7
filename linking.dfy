/**
 * ColorPropOrVariable::compile (library/Icinga/Less/ColorPropOrVariable.php):
 * evaluating a colour variable reference links it to the resolution cache.
 * When the colour was reached through an alias (`@primary: @base`), the
 * compile walks the visitor's alias trail backwards from the reference,
 * renames each frame colour after the variable it aliases, caches a
 * ColorProp for every source it accepts and, at the root of the trail, for
 * the root colour as well.
 *
 * The walk is specified by the pure functions Step and Walk over a value
 * snapshot of the frame and of the cache; Compile is proved to perform it.
 */
module Linking {
  import opened LessTree
  import opened ResolvedRefs
  import opened ColorProps

  /**
   * A value a variable evaluates to: a Less colour (a rule holding a colour),
   * a ColorProp from an earlier compile, or any other Less value, kept as
   * its `value` text.
   */
  datatype Value = ColorValue(color: LessColor) | PropValue(prop: ColorProp) | OtherValue(text: string)

  /** `->value` of an evaluated node, as the variable-variable rename reads it. */
  function ValueText(v: Value): string
    reads if v.PropValue? then {v.prop} else {}
  {
    match v
    case ColorValue(c) => c.literal
    case PropValue(p) => p.value.GetOr("")
    case OtherValue(t) => t
  }

  /** A variable reference node (Less_Tree_Variable): name with `@`, and source index. */
  class TreeVariable {
    var name: string
    var index: int

    constructor (name: string, index: int)
      ensures this.name == name && this.index == index
    {
      this.name := name;
      this.index := index;
    }
  }

  /** The last pushed evaluation frame; its `_variables` by name. */
  class Frame {
    var variables: map<string, Value>

    constructor (variables: map<string, Value>)
      ensures this.variables == variables
    {
      this.variables := variables;
    }
  }

  /**
   * Visitor::$visitorVarReferences: `source -> reference` alias edges in
   * insertion order (`@primary: @base` records `@primary -> @base`).
   */
  type Trail = seq<(string, string)>

  /** `isset(Visitor::$visitorVarReferences[$name])`. */
  predicate IsSource(trail: Trail, name: string) {
    exists k :: 0 <= k < |trail| && trail[k].0 == name
  }

  /** Less variable names, and so all names of the trail, begin with `@`. */
  predicate Sigils(trail: Trail) {
    forall k :: 0 <= k < |trail| ==> HasSigil(trail[k].0) && HasSigil(trail[k].1)
  }

  /** `$v->name[1] === '@'`: the reference is a variable variable such as `@@name`. */
  predicate IsVariableVariable(name: string) {
    |name| > 1 && name[1] == '@'
  }

  /**
   * The name compile evaluates (ColorPropOrVariable.php:82-87): for `@@x`
   * the inner variable `@x` is evaluated at index + 1 and the name becomes
   * `@` followed by its value; any other name stays.
   */
  function EffectiveName(name: string, index: int, frame: map<string, Value>): (r: Result<string, LessError>)
    reads set k | k in frame && frame[k].PropValue? :: frame[k].prop
    ensures r.Err? <==> IsVariableVariable(name) && name[1..] !in frame
    ensures r.Err? ==> r.error == UndefinedVariable(name[1..], index + 1)
    ensures !IsVariableVariable(name) ==> r == Ok(name)
    ensures r.Ok? && IsVariableVariable(name) ==> HasSigil(r.value) && r.value[1..] == ValueText(frame[name[1..]])
  {
    if !IsVariableVariable(name) then Ok(name)
    else if name[1..] !in frame then Err(UndefinedVariable(name[1..], index + 1))
    else Ok("@" + ValueText(frame[name[1..]]))
  }

  /**
   * What the walk has done so far: the frame colours (renamed), the cache
   * keys, the props it cached (by their states), `$lastVarRef`, the sources
   * it accepted in order, and whether it reached the root and broke off.
   */
  datatype WalkState = WalkState(
    frame: map<string, Value>,
    keys: set<string>,
    added: map<string, PropState>,
    last: string,
    path: seq<string>,
    stopped: bool)

  /** The walk before its first edge: `$lastVarRef = $v->name`. */
  function Init(vname: string, frame: map<string, Value>, keys: set<string>): WalkState {
    WalkState(frame, keys, map[], vname, [], false)
  }

  /** The prop cached for an accepted source: a copy of its renamed colour, named after the source. */
  function SourceProp(c: LessColor, source: string): PropState {
    FromColorState(c).(name := Some(StripSigil(source)))
  }

  /** The four skip rules of an edge (ColorPropOrVariable.php:103-113). */
  predicate Skipped(vname: string, st: WalkState, source: string) {
    || IsRefResolved(st.keys, source)
    || source !in st.frame
    || (source != vname && st.last != source)
    || !st.frame[source].ColorValue?
  }

  /**
   * An accepted edge (ColorPropOrVariable.php:115-123): rename the frame
   * colour after the reference, cache a copy named after the source, and
   * follow the reference.
   */
  function Accept(st: WalkState, source: string, reference: string): WalkState
    requires source in st.frame && st.frame[source].ColorValue?
  {
    var renamed := st.frame[source].color.(name := Some(reference));
    st.(frame := st.frame[source := ColorValue(renamed)],
        keys := st.keys + {source},
        added := st.added[source := SourceProp(renamed, source)],
        last := reference,
        path := st.path + [source])
  }

  /**
   * The root of the trail (ColorPropOrVariable.php:125-139): cache the root
   * colour under its own name when the frame holds one, then break off.
   */
  function CloseAt(st: WalkState): WalkState {
    if st.last in st.frame && st.frame[st.last].ColorValue? then
      st.(keys := st.keys + {st.last},
          added := st.added[st.last := FromColorState(st.frame[st.last].color)],
          stopped := true)
    else st.(stopped := true)
  }

  /** One edge of the reversed trail (ColorPropOrVariable.php:103-140). */
  function Step(trail: Trail, vname: string, st: WalkState, e: (string, string)): WalkState {
    var (source, reference) := e;
    if Skipped(vname, st, source) then st
    else if IsSource(trail, reference) then Accept(st, source, reference)
    else CloseAt(Accept(st, source, reference))
  }

  /**
   * The rest of the walk with the first `i` edges of the trail still to
   * visit, last edge first. A walk that broke off visits nothing more.
   * Renames keep every frame entry a colour with its literal, and leave
   * every other entry alone.
   */
  function Walk(trail: Trail, vname: string, st: WalkState, i: nat): (r: WalkState)
    requires i <= |trail|
    ensures r.frame.Keys == st.frame.Keys
    ensures forall k :: k in st.frame ==> (st.frame[k].ColorValue? <==> r.frame[k].ColorValue?)
    ensures forall k :: k in st.frame && st.frame[k].ColorValue? ==> r.frame[k].color.literal == st.frame[k].color.literal
    ensures forall k :: k in st.frame && !st.frame[k].ColorValue? ==> r.frame[k] == st.frame[k]
    decreases i
  {
    if i == 0 || st.stopped then st
    else
      var next := Step(trail, vname, st, trail[i - 1]);
      StepKeeps(trail, vname, st, trail[i - 1]);
      Walk(trail, vname, next, i - 1)
  }

  /** An edge renames at most one colour and keeps its literal. */
  lemma StepKeeps(trail: Trail, vname: string, st: WalkState, e: (string, string))
    ensures var r := Step(trail, vname, st, e);
      && r.frame.Keys == st.frame.Keys
      && (forall k :: k in st.frame ==> (st.frame[k].ColorValue? <==> r.frame[k].ColorValue?))
      && (forall k :: k in st.frame && st.frame[k].ColorValue? ==> r.frame[k].color.literal == st.frame[k].color.literal)
      && (forall k :: k in st.frame && !st.frame[k].ColorValue? ==> r.frame[k] == st.frame[k])
  {
    var (source, reference) := e;
    if !Skipped(vname, st, source) {
      assert Step(trail, vname, st, e).frame == Accept(st, source, reference).frame;
    }
  }

  /** compile's walk runs for a variable whose colour was last bound through another name (line 97). */
  predicate WalkRuns(isVariable: bool, vname: string, c: LessColor) {
    isVariable && c.name.Some? && c.name.value != vname
  }

  /** The walk compile performs, or none when it does not run. */
  function Linked(trail: Trail, isVariable: bool, vname: string, c: LessColor,
                  frame: map<string, Value>, keys: set<string>): (r: WalkState)
    ensures r.frame.Keys == frame.Keys
    ensures forall k :: k in frame && frame[k].ColorValue? ==> r.frame[k].ColorValue? && r.frame[k].color.literal == frame[k].color.literal
    ensures forall k :: k in frame && !frame[k].ColorValue? ==> r.frame[k] == frame[k]
  {
    if WalkRuns(isVariable, vname, c) then Walk(trail, vname, Init(vname, frame, keys), |trail|)
    else Init(vname, frame, keys)
  }

  /** The successor of the `j`-th accepted source: the next accepted one, or `$lastVarRef`. */
  function NextRef(st: WalkState, j: nat): string
    requires j < |st.path|
  {
    if j + 1 < |st.path| then st.path[j + 1] else st.last
  }

  /** The cache grew by exactly the props the walk added. */
  predicate CacheGrowth(keys0: set<string>, st: WalkState) {
    st.keys == keys0 + st.added.Keys
  }

  /** A source resolved before the walk was not cached by it. */
  predicate NoRecache(trail: Trail, keys0: set<string>, st: WalkState) {
    forall s :: IsSource(trail, s) && IsRefResolved(keys0, s) ==> s !in st.added
  }

  /** Only accepted sources, and the root once the walk broke off, were cached. */
  predicate AddedWalked(st: WalkState) {
    forall k :: k in st.added ==> k in st.path || (st.stopped && k == st.last)
  }

  /**
   * The accepted sources form a chain from `vname`: each is a source whose
   * frame colour is renamed after its successor and whose cached prop is a
   * copy of that colour named after it.
   */
  predicate ChainFrom(trail: Trail, vname: string, st: WalkState) {
    && (|st.path| == 0 ==> st.last == vname && !st.stopped)
    && (|st.path| > 0 ==> st.path[0] == vname)
    && (forall j :: 0 <= j < |st.path| ==>
          && IsSource(trail, st.path[j])
          && st.path[j] in st.frame && st.frame[st.path[j]].ColorValue?
          && st.frame[st.path[j]].color.name == Some(NextRef(st, j))
          && st.path[j] in st.added
          && st.added[st.path[j]] == SourceProp(st.frame[st.path[j]].color, st.path[j]))
  }

  /** The frame changed only at accepted sources. */
  predicate FrameOnPath(frame0: map<string, Value>, st: WalkState) {
    && st.frame.Keys == frame0.Keys
    && (forall k :: k in frame0 && k !in st.path ==> st.frame[k] == frame0[k])
  }

  /** A walk that broke off did so at a reference that is no source, caching its colour if it has one. */
  predicate RootCached(trail: Trail, st: WalkState) {
    st.stopped ==>
      && !IsSource(trail, st.last)
      && (st.last in st.added <==> st.last in st.frame && st.frame[st.last].ColorValue?)
      && (st.last in st.added ==> st.added[st.last] == FromColorState(st.frame[st.last].color))
  }

  /** What a walk from `Init(vname, frame0, keys0)` keeps at every step. */
  predicate Good(trail: Trail, vname: string, frame0: map<string, Value>, keys0: set<string>, st: WalkState) {
    && CacheGrowth(keys0, st)
    && NoRecache(trail, keys0, st)
    && AddedWalked(st)
    && ChainFrom(trail, vname, st)
    && FrameOnPath(frame0, st)
    && RootCached(trail, st)
  }

  lemma InitGood(trail: Trail, vname: string, frame0: map<string, Value>, keys0: set<string>)
    ensures Good(trail, vname, frame0, keys0, Init(vname, frame0, keys0))
  {
  }

  /** A name of a trail edge is normalised already. */
  lemma SourceNormal(trail: Trail, s: string)
    requires Sigils(trail) && IsSource(trail, s)
    ensures GetValidName(s) == s
  {
    var k :| 0 <= k < |trail| && trail[k].0 == s;
  }

  /**
   * The source of an accepted edge is new to the walk, and it is the
   * successor of the last accepted source.
   */
  lemma AcceptFresh(trail: Trail, vname: string, frame0: map<string, Value>, keys0: set<string>, st: WalkState, source: string)
    requires Sigils(trail) && IsSource(trail, source)
    requires Good(trail, vname, frame0, keys0, st) && !st.stopped && !Skipped(vname, st, source)
    ensures source !in st.path && source !in st.added && !IsRefResolved(keys0, source)
    ensures |st.path| > 0 ==> st.last == source
    ensures |st.path| == 0 ==> source == vname
  {
    SourceNormal(trail, source);
    if |st.path| > 0 {
      assert IsSource(trail, st.path[0]);
      SourceNormal(trail, vname);
    }
  }

  /** An accepted edge keeps the chain from `vname`. */
  lemma AcceptChain(trail: Trail, vname: string, st: WalkState, source: string, reference: string)
    requires IsSource(trail, source) && ChainFrom(trail, vname, st)
    requires source in st.frame && st.frame[source].ColorValue? && source !in st.path
    requires |st.path| > 0 ==> st.last == source
    requires |st.path| == 0 ==> source == vname
    ensures ChainFrom(trail, vname, Accept(st, source, reference))
  {
    var st1 := Accept(st, source, reference);
    forall j | 0 <= j < |st1.path|
      ensures && IsSource(trail, st1.path[j])
              && st1.path[j] in st1.frame && st1.frame[st1.path[j]].ColorValue?
              && st1.frame[st1.path[j]].color.name == Some(NextRef(st1, j))
              && st1.path[j] in st1.added
              && st1.added[st1.path[j]] == SourceProp(st1.frame[st1.path[j]].color, st1.path[j])
    {
      if j < |st.path| {
        assert st1.path[j] == st.path[j] != source;
      }
    }
  }

  /** An accepted edge keeps Good. */
  lemma AcceptGood(trail: Trail, vname: string, frame0: map<string, Value>, keys0: set<string>, st: WalkState, source: string, reference: string)
    requires Sigils(trail) && IsSource(trail, source)
    requires Good(trail, vname, frame0, keys0, st) && !st.stopped && !Skipped(vname, st, source)
    ensures Good(trail, vname, frame0, keys0, Accept(st, source, reference))
  {
    AcceptFresh(trail, vname, frame0, keys0, st, source);
    AcceptChain(trail, vname, st, source, reference);
    AcceptCache(trail, frame0, keys0, st, source, reference);
  }

  /** An accepted source that was not resolved before joins the cache and the path. */
  lemma AcceptCache(trail: Trail, frame0: map<string, Value>, keys0: set<string>, st: WalkState, source: string, reference: string)
    requires CacheGrowth(keys0, st) && NoRecache(trail, keys0, st) && AddedWalked(st) && FrameOnPath(frame0, st)
    requires !st.stopped && source in st.frame && st.frame[source].ColorValue? && !IsRefResolved(keys0, source)
    ensures var st1 := Accept(st, source, reference);
      CacheGrowth(keys0, st1) && NoRecache(trail, keys0, st1) && AddedWalked(st1) && FrameOnPath(frame0, st1) && RootCached(trail, st1)
  {
  }

  /** Breaking off keeps the chain: the root is no source, so no accepted source's entry is replaced. */
  lemma CloseChain(trail: Trail, vname: string, st: WalkState)
    requires ChainFrom(trail, vname, st) && !st.stopped && |st.path| > 0 && !IsSource(trail, st.last)
    ensures ChainFrom(trail, vname, CloseAt(st)) && st.last !in st.path
  {
    var st1 := CloseAt(st);
    forall j | 0 <= j < |st1.path|
      ensures st1.path[j] in st1.added && st1.added[st1.path[j]] == SourceProp(st1.frame[st1.path[j]].color, st1.path[j])
    {
      assert IsSource(trail, st.path[j]);
      assert st.path[j] != st.last;
    }
    forall j | 0 <= j < |st.path| ensures st.path[j] != st.last {
      assert IsSource(trail, st.path[j]);
    }
  }

  /** Breaking off at a reference that is no source keeps Good. */
  lemma CloseGood(trail: Trail, vname: string, frame0: map<string, Value>, keys0: set<string>, st: WalkState)
    requires Good(trail, vname, frame0, keys0, st) && !st.stopped && |st.path| > 0 && !IsSource(trail, st.last)
    ensures Good(trail, vname, frame0, keys0, CloseAt(st))
  {
    CloseChain(trail, vname, st);
    CloseCache(trail, keys0, st);
  }

  /** Breaking off adds at most the root, which is no source, to the cache. */
  lemma CloseCache(trail: Trail, keys0: set<string>, st: WalkState)
    requires CacheGrowth(keys0, st) && NoRecache(trail, keys0, st) && AddedWalked(st)
    requires !st.stopped && !IsSource(trail, st.last) && st.last !in st.path
    ensures CacheGrowth(keys0, CloseAt(st)) && NoRecache(trail, keys0, CloseAt(st)) && AddedWalked(CloseAt(st))
    ensures RootCached(trail, CloseAt(st))
  {
  }

  /** An edge of the trail keeps Good; `next` is the state after it. */
  lemma StepGood(trail: Trail, vname: string, frame0: map<string, Value>, keys0: set<string>, st: WalkState, i: nat)
    returns (next: WalkState)
    requires Sigils(trail) && i < |trail|
    requires Good(trail, vname, frame0, keys0, st) && !st.stopped
    ensures next == Step(trail, vname, st, trail[i])
    ensures Good(trail, vname, frame0, keys0, next)
  {
    var (source, reference) := trail[i];
    if !Skipped(vname, st, source) {
      assert IsSource(trail, source);
      AcceptGood(trail, vname, frame0, keys0, st, source, reference);
      if !IsSource(trail, reference) {
        CloseGood(trail, vname, frame0, keys0, Accept(st, source, reference));
      }
    }
    next := Step(trail, vname, st, trail[i]);
  }

  /** Good holds for the rest of a walk. */
  lemma {:induction false} WalkGood(trail: Trail, vname: string, frame0: map<string, Value>, keys0: set<string>, st: WalkState, i: nat)
    requires Sigils(trail) && i <= |trail| && Good(trail, vname, frame0, keys0, st)
    ensures Good(trail, vname, frame0, keys0, Walk(trail, vname, st, i))
    decreases i
  {
    if i > 0 && !st.stopped {
      var next := StepGood(trail, vname, frame0, keys0, st, i - 1);
      WalkGood(trail, vname, frame0, keys0, next, i - 1);
    }
  }

  /** Everything Good states holds of the walk compile performs. */
  lemma LinkedGood(trail: Trail, isVariable: bool, vname: string, c: LessColor, frame0: map<string, Value>, keys0: set<string>)
    requires Sigils(trail)
    ensures Good(trail, vname, frame0, keys0, Linked(trail, isVariable, vname, c, frame0, keys0))
  {
    InitGood(trail, vname, frame0, keys0);
    if WalkRuns(isVariable, vname, c) {
      WalkGood(trail, vname, frame0, keys0, Init(vname, frame0, keys0), |trail|);
    }
  }

  /**
   * The rename is done once: when the inner variable's value does not
   * itself begin with `@`, the new name is no variable variable, so a
   * second compile of the renamed node evaluates that name as it is.
   */
  lemma RenameSettles(name: string, index: int, frame: map<string, Value>)
    requires IsVariableVariable(name) && name[1..] in frame
    requires !HasSigil(ValueText(frame[name[1..]]))
    ensures EffectiveName(name, index, frame).Ok?
    ensures var renamed := EffectiveName(name, index, frame).value;
      && renamed == "@" + ValueText(frame[name[1..]])
      && EffectiveName(renamed, index, frame) == Ok(renamed)
  {
    var t := ValueText(frame[name[1..]]);
    if |t| > 0 {
      assert ("@" + t)[1] == t[0];
    }
  }

  /**
   * A walk over trail and frame with the usual `@` names, by example:
   * compiling `@primary` after `@primary: @base` caches `@primary`, named
   * `primary`, and the root `@base`, then breaks off at `@base`.
   */
  lemma AliasExample()
    ensures var base := LessColor(Some("@base"), "#fff");
      var frame := map["@base" := ColorValue(base), "@primary" := ColorValue(base)];
      var trail := [("@primary", "@base")];
      Linked(trail, true, "@primary", base, frame, {})
        == WalkState(frame, {"@primary", "@base"},
                     map["@primary" := PropState(Plain(base), None, Some("primary"), Some("#fff")),
                         "@base" := PropState(Plain(base), None, Some("base"), Some("#fff"))],
                     "@base", ["@primary"], true)
  {
    var base := LessColor(Some("@base"), "#fff");
    var frame := map["@base" := ColorValue(base), "@primary" := ColorValue(base)];
    var trail := [("@primary", "@base")];
    assert IsSource(trail, "@primary") by {
      assert trail[0].0 == "@primary";
    }
    assert !IsSource(trail, "@base") by {
      assert trail[0].0 != "@base";
    }
    assert StripSigil("@primary") == "primary";
    assert StripSigil("@base") == "base";
    assert frame["@primary" := ColorValue(base)] == frame;
  }

  /**
   * The prop cached for an accepted source is named after its key, so the
   * key it is stored under is the only one genCSS can reach it through by
   * its own name.
   */
  lemma CachedNamedAfterKey(trail: Trail, vname: string, w: WalkState)
    requires ChainFrom(trail, vname, w)
    ensures forall j :: 0 <= j < |w.path| ==>
      w.path[j] in w.added && w.added[w.path[j]].name == Some(StripSigil(w.path[j]))
  {
  }

  /**
   * The cache `refs` is the cache `refs0` grown to `keys` by the props
   * `added`: every added prop is there with its state, and every other
   * entry is the old one.
   */
  predicate CacheHolds(refs: map<string, ColorProp>, refs0: map<string, ColorProp>, keys: set<string>, added: map<string, PropState>)
    reads refs.Values
  {
    && refs.Keys == keys
    && (forall k :: k in added ==> k in refs && refs[k].State() == added[k])
    && (forall k :: k in refs0 && k !in added ==> k in refs && refs[k] == refs0[k])
  }

  /**
   * Insert and lookup agree: the walk caches under the raw source, genCSS
   * looks up through getValidName, and for trail names, which begin with
   * `@`, both find the prop cached for every accepted source.
   */
  lemma AcceptedResolvable(trail: Trail, vname: string, frame0: map<string, Value>, keys0: set<string>, w: WalkState,
                           refs: map<string, ColorProp>, refs0: map<string, ColorProp>)
    requires Sigils(trail) && Good(trail, vname, frame0, keys0, w)
    requires CacheHolds(refs, refs0, w.keys, w.added)
    ensures forall j :: 0 <= j < |w.path| ==>
      && GetResolvedRefFor(refs, w.path[j]).Ok?
      && GetResolvedRefFor(refs, w.path[j]).value.State() == SourceProp(w.frame[w.path[j]].color, w.path[j])
  {
    forall j | 0 <= j < |w.path|
      ensures && GetResolvedRefFor(refs, w.path[j]).Ok?
              && GetResolvedRefFor(refs, w.path[j]).value.State() == SourceProp(w.frame[w.path[j]].color, w.path[j])
    {
      SourceNormal(trail, w.path[j]);
    }
  }

  /** A walk that has not broken off visits the next edge. */
  lemma WalkUnfold(trail: Trail, vname: string, st: WalkState, i: nat)
    requires 0 < i <= |trail| && !st.stopped
    ensures Walk(trail, vname, st, i) == Walk(trail, vname, Step(trail, vname, st, trail[i - 1]), i - 1)
  {
  }

  /** Storing `p` under `k` grows the cache by `k`, with the state of `p`. */
  lemma CacheInsert(refs: map<string, ColorProp>, refs0: map<string, ColorProp>, keys: set<string>,
                    added: map<string, PropState>, k: string, p: ColorProp, s: PropState)
    requires CacheHolds(refs, refs0, keys, added) && p.State() == s
    ensures CacheHolds(refs[k := p], refs0, keys + {k}, added[k := s])
  {
  }

  /** Cache a copy of `c` named after `source` under `source` (ColorPropOrVariable.php:119-123). */
  method CacheSource(ctx: Context, source: string, c: LessColor,
                     ghost refs0: map<string, ColorProp>, ghost keys: set<string>, ghost added: map<string, PropState>)
    requires CacheHolds(ctx.resolvedVarRefs, refs0, keys, added)
    modifies ctx`resolvedVarRefs
    ensures source in ctx.resolvedVarRefs && fresh(ctx.resolvedVarRefs[source]) && !ctx.resolvedVarRefs[source].generated
    ensures ctx.resolvedVarRefs == old(ctx.resolvedVarRefs)[source := ctx.resolvedVarRefs[source]]
    ensures CacheHolds(ctx.resolvedVarRefs, refs0, keys + {source}, added[source := SourceProp(c, source)])
    ensures forall k :: k in ctx.resolvedVarRefs ==>
      || (k in old(ctx.resolvedVarRefs) && ctx.resolvedVarRefs[k] == old(ctx.resolvedVarRefs)[k])
      || (fresh(ctx.resolvedVarRefs[k]) && !ctx.resolvedVarRefs[k].generated)
  {
    ghost var refs := ctx.resolvedVarRefs;
    var cached := new ColorProp.FromColor(c);
    cached.SetName(source);
    assert cached.State() == SourceProp(c, source);
    assert CacheHolds(refs, refs0, keys, added);
    CacheInsert(refs, refs0, keys, added, source, cached, SourceProp(c, source));
    ctx.resolvedVarRefs := ctx.resolvedVarRefs[source := cached];
  }

  /** Cache a copy of the root colour `c` under `reference` (ColorPropOrVariable.php:131-135). */
  method CacheRoot(ctx: Context, reference: string, c: LessColor,
                   ghost refs0: map<string, ColorProp>, ghost keys: set<string>, ghost added: map<string, PropState>)
    requires CacheHolds(ctx.resolvedVarRefs, refs0, keys, added)
    modifies ctx`resolvedVarRefs
    ensures reference in ctx.resolvedVarRefs && fresh(ctx.resolvedVarRefs[reference]) && !ctx.resolvedVarRefs[reference].generated
    ensures ctx.resolvedVarRefs == old(ctx.resolvedVarRefs)[reference := ctx.resolvedVarRefs[reference]]
    ensures CacheHolds(ctx.resolvedVarRefs, refs0, keys + {reference}, added[reference := FromColorState(c)])
    ensures forall k :: k in ctx.resolvedVarRefs ==>
      || (k in old(ctx.resolvedVarRefs) && ctx.resolvedVarRefs[k] == old(ctx.resolvedVarRefs)[k])
      || (fresh(ctx.resolvedVarRefs[k]) && !ctx.resolvedVarRefs[k].generated)
  {
    ghost var refs := ctx.resolvedVarRefs;
    var root := new ColorProp.FromColor(c);
    assert CacheHolds(refs, refs0, keys, added);
    CacheInsert(refs, refs0, keys, added, reference, root, FromColorState(c));
    ctx.resolvedVarRefs := ctx.resolvedVarRefs[reference := root];
  }

  /** A walk with no edge left, or one that broke off, is done. */
  lemma WalkDone(trail: Trail, vname: string, st: WalkState, i: nat)
    requires i <= |trail| && (i == 0 || st.stopped)
    ensures Walk(trail, vname, st, i) == st
  {
  }

  /**
   * One iteration of the alias walk (ColorPropOrVariable.php:103-140) on the
   * edge `source -> reference`: `continue` when the edge is skipped,
   * otherwise rename, cache and advance, and report the `break` at the root.
   */
  method VisitEdge(ctx: Context, frame: Frame, trail: Trail, vname: string, source: string, reference: string,
                   lastVarRef: string, ghost refs0: map<string, ColorProp>, ghost st: WalkState)
    returns (last: string, stop: bool, ghost next: WalkState)
    requires frame.variables == st.frame && lastVarRef == st.last && !st.stopped
    requires CacheHolds(ctx.resolvedVarRefs, refs0, st.keys, st.added)
    modifies frame`variables, ctx`resolvedVarRefs
    ensures next == Step(trail, vname, st, (source, reference))
    ensures frame.variables == next.frame && last == next.last && stop == next.stopped
    ensures CacheHolds(ctx.resolvedVarRefs, refs0, next.keys, next.added)
    ensures forall k :: k in ctx.resolvedVarRefs ==>
      || (k in old(ctx.resolvedVarRefs) && ctx.resolvedVarRefs[k] == old(ctx.resolvedVarRefs)[k])
      || (fresh(ctx.resolvedVarRefs[k]) && !ctx.resolvedVarRefs[k].generated)
  {
    if IsRefResolved(ctx.resolvedVarRefs.Keys, source) || source !in frame.variables
      || (source != vname && lastVarRef != source) || !frame.variables[source].ColorValue?
    {
      return lastVarRef, false, st;
    }
    stop, next := AcceptEdge(ctx, frame, trail, vname, source, reference, refs0, st);
    last := reference;
  }

  /**
   * An edge past the skip rules (ColorPropOrVariable.php:115-140): rename
   * the frame colour, cache its copy, and at the root cache the root colour
   * and report the `break`.
   */
  method AcceptEdge(ctx: Context, frame: Frame, trail: Trail, vname: string, source: string, reference: string,
                    ghost refs0: map<string, ColorProp>, ghost st: WalkState)
    returns (stop: bool, ghost next: WalkState)
    requires frame.variables == st.frame && !st.stopped && !Skipped(vname, st, source)
    requires CacheHolds(ctx.resolvedVarRefs, refs0, st.keys, st.added)
    modifies frame`variables, ctx`resolvedVarRefs
    ensures next == Step(trail, vname, st, (source, reference))
    ensures frame.variables == next.frame && stop == next.stopped
    ensures CacheHolds(ctx.resolvedVarRefs, refs0, next.keys, next.added)
    ensures forall k :: k in ctx.resolvedVarRefs ==>
      || (k in old(ctx.resolvedVarRefs) && ctx.resolvedVarRefs[k] == old(ctx.resolvedVarRefs)[k])
      || (fresh(ctx.resolvedVarRefs[k]) && !ctx.resolvedVarRefs[k].generated)
  {
    var renamed := frame.variables[source].color.(name := Some(reference));
    frame.variables := frame.variables[source := ColorValue(renamed)];
    CacheSource(ctx, source, renamed, refs0, st.keys, st.added);
    next := Accept(st, source, reference);
    stop := false;
    if !IsSource(trail, reference) {
      next := CloseRoot(ctx, frame, reference, refs0, next);
      stop := true;
    }
  }

  /**
   * The root of the trail (ColorPropOrVariable.php:125-139): cache the root
   * colour under `reference` when the frame holds one, then break off.
   */
  method CloseRoot(ctx: Context, frame: Frame, reference: string, ghost refs0: map<string, ColorProp>, ghost st: WalkState)
    returns (ghost next: WalkState)
    requires frame.variables == st.frame && st.last == reference
    requires CacheHolds(ctx.resolvedVarRefs, refs0, st.keys, st.added)
    modifies ctx`resolvedVarRefs
    ensures next == CloseAt(st)
    ensures CacheHolds(ctx.resolvedVarRefs, refs0, next.keys, next.added)
    ensures forall k :: k in ctx.resolvedVarRefs ==>
      || (k in old(ctx.resolvedVarRefs) && ctx.resolvedVarRefs[k] == old(ctx.resolvedVarRefs)[k])
      || (fresh(ctx.resolvedVarRefs[k]) && !ctx.resolvedVarRefs[k].generated)
  {
    if reference in frame.variables && frame.variables[reference].ColorValue? {
      CacheRoot(ctx, reference, frame.variables[reference].color, refs0, st.keys, st.added);
    }
    next := CloseAt(st);
  }

  /**
   * The alias walk of compile (ColorPropOrVariable.php:99-141): the foreach
   * over the reversed trail, with `continue` for a skipped edge and `break`
   * at the root.
   */
  method LinkAliases(ctx: Context, frame: Frame, vname: string, trail: Trail)
    modifies frame`variables, ctx`resolvedVarRefs
    ensures var w := Walk(trail, vname, Init(vname, old(frame.variables), old(ctx.resolvedVarRefs).Keys), |trail|);
      && frame.variables == w.frame
      && CacheHolds(ctx.resolvedVarRefs, old(ctx.resolvedVarRefs), w.keys, w.added)
    ensures forall k :: k in ctx.resolvedVarRefs ==>
      || (k in old(ctx.resolvedVarRefs) && ctx.resolvedVarRefs[k] == old(ctx.resolvedVarRefs)[k])
      || (fresh(ctx.resolvedVarRefs[k]) && !ctx.resolvedVarRefs[k].generated)
  {
    ghost var refs0 := ctx.resolvedVarRefs;
    ghost var st := Init(vname, frame.variables, ctx.resolvedVarRefs.Keys);
    ghost var final := Walk(trail, vname, st, |trail|);
    var lastVarRef := vname;
    var i := |trail|;
    var stop := false;
    while i > 0 && !stop
      invariant 0 <= i <= |trail| && stop == st.stopped
      invariant Walk(trail, vname, st, i) == final
      invariant frame.variables == st.frame && lastVarRef == st.last
      invariant CacheHolds(ctx.resolvedVarRefs, refs0, st.keys, st.added)
      invariant forall k :: k in ctx.resolvedVarRefs ==>
        || (k in refs0 && ctx.resolvedVarRefs[k] == refs0[k])
        || (fresh(ctx.resolvedVarRefs[k]) && !ctx.resolvedVarRefs[k].generated)
    {
      var (source, reference) := trail[i - 1];
      WalkUnfold(trail, vname, st, i);
      lastVarRef, stop, st := VisitEdge(ctx, frame, trail, vname, source, reference, lastVarRef, refs0, st);
      i := i - 1;
    }
    WalkDone(trail, vname, st, i);
  }

  /** `ColorProp::fromColor($c)->setIndex($index)->setName($name)` (ColorPropOrVariable.php:144-146). */
  method WrapColor(c: LessColor, index: int, name: string) returns (p: ColorProp)
    ensures fresh(p) && !p.generated
    ensures p.State() == PropState(Plain(c), Some(index), Some(StripSigil(name)), Some(c.literal))
  {
    p := new ColorProp.FromColor(c);
    p.SetIndex(index);
    p.SetName(name);
  }

  /** A colour variable reference in a Less tree (ColorPropOrVariable). */
  class ColorPropOrVariable {
    var variable: TreeVariable
    /** Whether the node stands for a variable rather than a colour literal. */
    var isVariable: bool

    constructor (variable: TreeVariable, isVariable: bool)
      ensures this.variable == variable && this.isVariable == isVariable
    {
      this.variable := variable;
      this.isVariable := isVariable;
    }

    /**
     * compile (ColorPropOrVariable.php:78-150). The variable variable is
     * renamed in place; a missing variable is the evaluator's error; a
     * ColorProp or a non-colour value comes back as it is; a colour is
     * linked through the alias walk when it was last bound through another
     * name, and comes back wrapped in a new ColorProp. The frame colour is
     * the evaluated colour itself, so a rename by the walk shows in the
     * wrapped colour.
     */
    method Compile(ctx: Context, frame: Frame, trail: Trail) returns (r: Result<Value, LessError>)
      modifies variable`name, frame`variables, ctx`resolvedVarRefs
      ensures var named := old(EffectiveName(variable.name, variable.index, frame.variables));
        named.Err? ==>
          && r == Err(named.error)
          && variable.name == old(variable.name)
          && frame.variables == old(frame.variables) && ctx.resolvedVarRefs == old(ctx.resolvedVarRefs)
      ensures var named := old(EffectiveName(variable.name, variable.index, frame.variables));
        named.Ok? ==> variable.name == named.value
      ensures var n := variable.name;
        old(EffectiveName(variable.name, variable.index, frame.variables)).Ok? && n !in old(frame.variables) ==>
          && r == Err(UndefinedVariable(n, variable.index))
          && frame.variables == old(frame.variables) && ctx.resolvedVarRefs == old(ctx.resolvedVarRefs)
      ensures var n := variable.name;
        old(EffectiveName(variable.name, variable.index, frame.variables)).Ok? && n in old(frame.variables)
        && !old(frame.variables)[n].ColorValue? ==>
          && r == Ok(old(frame.variables)[n])
          && frame.variables == old(frame.variables) && ctx.resolvedVarRefs == old(ctx.resolvedVarRefs)
      ensures var n := variable.name;
        old(EffectiveName(variable.name, variable.index, frame.variables)).Ok? && n in old(frame.variables)
        && old(frame.variables)[n].ColorValue? ==>
          var c := old(frame.variables)[n].color;
          var w := Linked(trail, isVariable, n, c, old(frame.variables), old(ctx.resolvedVarRefs).Keys);
          && frame.variables == w.frame
          && CacheHolds(ctx.resolvedVarRefs, old(ctx.resolvedVarRefs), w.keys, w.added)
          && r.Ok? && r.value.PropValue? && fresh(r.value.prop) && !r.value.prop.generated
          && r.value.prop.State() == PropState(Plain(w.frame[n].color), Some(variable.index), Some(StripSigil(n)), Some(c.literal))
      ensures forall k :: k in ctx.resolvedVarRefs ==>
        || (k in old(ctx.resolvedVarRefs) && ctx.resolvedVarRefs[k] == old(ctx.resolvedVarRefs)[k])
        || (fresh(ctx.resolvedVarRefs[k]) && !ctx.resolvedVarRefs[k].generated)
    {
      var v := variable;
      if |v.name| > 1 && v.name[1] == '@' {
        var inner := v.name[1..];
        if inner !in frame.variables {
          return Err(UndefinedVariable(inner, v.index + 1));
        }
        v.name := "@" + ValueText(frame.variables[inner]);
      }
      if v.name !in frame.variables {
        return Err(UndefinedVariable(v.name, v.index));
      }
      var compiled := frame.variables[v.name];
      if compiled.PropValue? {
        return Ok(compiled);
      }
      if compiled.ColorValue? {
        if isVariable && compiled.color.name.Some? && compiled.color.name.value != v.name {
          LinkAliases(ctx, frame, v.name, trail);
        }
        var prop := WrapColor(frame.variables[v.name].color, v.index, v.name);
        return Ok(PropValue(prop));
      }
      return Ok(compiled);
    }
  }
}
