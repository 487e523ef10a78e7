/**
 * One compilation run end to end: `@base: #fff` and `@primary: @base`, then a
 * use of `@primary`. ColorPropOrVariable::compile
 * (library/Icinga/Less/ColorPropOrVariable.php:78-150) links the reference
 * and returns a new prop, and ColorProp::genCSS
 * (library/Icinga/Less/ColorProp.php:114-165) renders that prop through the
 * cache compile filled, using nothing but the two methods' contracts.
 */
module Walkthrough {
  import opened LessTree
  import opened ResolvedRefs
  import opened ColorProps
  import opened Linking
  import opened CssNesting

  /**
   * The declarations `@base: #fff` and `@primary: @base` in a frame, an
   * empty cache, and a use of `@primary` at index 7.
   */
  method Declare() returns (ctx: Context, frame: Frame, node: ColorPropOrVariable)
    ensures fresh(ctx) && fresh(frame) && fresh(node) && fresh(node.variable)
    ensures ctx.resolvedVarRefs == map[]
    ensures var base := LessColor(Some("@base"), "#fff");
      frame.variables == map["@base" := ColorValue(base), "@primary" := ColorValue(base)]
    ensures node.variable.name == "@primary" && node.variable.index == 7 && node.isVariable
  {
    var base := LessColor(Some("@base"), "#fff");
    ctx := new Context();
    frame := new Frame(map["@base" := ColorValue(base), "@primary" := ColorValue(base)]);
    var reference := new TreeVariable("@primary", 7);
    node := new ColorPropOrVariable(reference, true);
  }

  /**
   * Compile a use of `@primary` (at index 7) after `@base: #fff` and
   * `@primary: @base`: a new prop for `@primary` comes back, and new props
   * for `@primary` and `@base` are cached, none of them rendered yet.
   */
  method CompilePrimary() returns (ctx: Context, compiled: ColorProp)
    ensures fresh(ctx) && fresh(compiled) && !compiled.generated
    ensures ctx.resolvedVarRefs.Keys == {"@primary", "@base"}
    ensures fresh(ctx.resolvedVarRefs["@primary"]) && !ctx.resolvedVarRefs["@primary"].generated
    ensures fresh(ctx.resolvedVarRefs["@base"]) && !ctx.resolvedVarRefs["@base"].generated
    ensures var base := LessColor(Some("@base"), "#fff");
      && compiled.State() == PropState(Plain(base), Some(7), Some("primary"), Some("#fff"))
      && ctx.resolvedVarRefs["@primary"].State() == PropState(Plain(base), None, Some("primary"), Some("#fff"))
      && ctx.resolvedVarRefs["@base"].State() == PropState(Plain(base), None, Some("base"), Some("#fff"))
  {
    var base := LessColor(Some("@base"), "#fff");
    var frame, node;
    ctx, frame, node := Declare();
    var trail := [("@primary", "@base")];
    ghost var vars := frame.variables;
    assert EffectiveName("@primary", 7, vars) == Ok("@primary") by {
      assert "@primary"[1] == 'p';
    }
    assert vars["@primary"] == ColorValue(base);
    assert ctx.resolvedVarRefs.Keys == {};
    ghost var added := map["@primary" := PropState(Plain(base), None, Some("primary"), Some("#fff")),
                           "@base" := PropState(Plain(base), None, Some("base"), Some("#fff"))];
    AliasExample();
    assert Linked(trail, node.isVariable, node.variable.name, vars[node.variable.name].color, vars, ctx.resolvedVarRefs.Keys)
      == WalkState(vars, {"@primary", "@base"}, added, "@base", ["@primary"], true);
    assert StripSigil("@primary") == "primary";
    var r := node.Compile(ctx, frame, trail);
    assert node.variable.name == "@primary" && frame.variables == vars;
    assert CacheHolds(ctx.resolvedVarRefs, map[], {"@primary", "@base"}, added);
    compiled := r.value.prop;
  }

  /**
   * Render the prop compile returned for `@primary`, with the cache it
   * filled: `var(--primary, var(--base, #fff))`.
   */
  method RenderAlias(ctx: Context, compiled: ColorProp, ghost primary: ColorProp, ghost root: ColorProp,
                     ghost g: PropGraph, ghost rank: map<ColorProp, nat>) returns (css: string)
    requires AliasCache(ctx.resolvedVarRefs, g, rank, compiled, primary, root) && Snapshot(g)
    requires !compiled.generated && !primary.generated && !root.generated
    modifies ctx`lastVarRendered, compiled, primary, root
    ensures css == "var(--" + "primary" + ", " + ("var(--" + "base" + ", " + "#fff" + ")") + ")"
  {
    AliasRender(ctx.resolvedVarRefs, g, rank, compiled, primary, root);
    assert g.Keys == {compiled, primary, root};
    var output := new Output();
    compiled.GenCSS(ctx, output, g, rank);
    css := output.text;
  }

  /**
   * Compiling `@primary` caches both `@primary` and `@base`, and rendering
   * the prop compile returns gives `var(--primary, var(--base, #fff))`.
   */
  method CompileThenRender() returns (css: string, cached: set<string>)
    ensures cached == {"@primary", "@base"}
    ensures css == "var(--" + "primary" + ", " + ("var(--" + "base" + ", " + "#fff" + ")") + ")"
  {
    var base := LessColor(Some("@base"), "#fff");
    var ctx, compiled := CompilePrimary();
    cached := ctx.resolvedVarRefs.Keys;
    ghost var refs := ctx.resolvedVarRefs;
    ghost var primary := refs["@primary"];
    ghost var root := refs["@base"];
    ghost var g := map[compiled := PropState(Plain(base), Some(7), Some("primary"), Some("#fff")),
                       primary := PropState(Plain(base), None, Some("primary"), Some("#fff")),
                       root := PropState(Plain(base), None, Some("base"), Some("#fff"))];
    ghost var rank := map[compiled := 2, primary := 1, root := 0];
    assert refs == map["@primary" := primary, "@base" := root];
    assert compiled.State().index != primary.State().index && compiled.State().index != root.State().index;
    assert primary.State().name != root.State().name;
    assert AliasCache(refs, g, rank, compiled, primary, root);
    assert Snapshot(g) by {
      assert g.Keys == {compiled, primary, root};
    }
    css := RenderAlias(ctx, compiled, primary, root, g, rank);
  }
}
