# Icinga Web 2 Less colour variables, modelled in Dafny

Icinga Web 2 compiles its Less themes so that every colour variable becomes a
CSS custom property. Two classes do this work.

- `ColorPropOrVariable::compile` evaluates a reference to a colour variable.
  If the colour was reached through an alias such as `@primary: @base`, it
  walks the visitor's alias trail backwards from the reference. For each
  source it accepts, it renames the frame colour after the next variable of the
  chain and caches a `ColorProp` in the static resolution cache
  (`$resolvedVarRefs`). When the walk reaches the root colour, it caches that
  colour as well and stops. The evaluated colour is returned wrapped in a new
  `ColorProp`.
- `ColorProp::genCSS` prints a prop as `var(--name, <fallback>)`. When the
  cache links the prop's name to another cached prop, it prints a nested chain
  instead: `var(--primary, var(--base, #fff))`. The nesting is coordinated by the
  per-prop flags `generated` and `closingBraces` and by the static flag
  `lastVarRendered`.

The project has six modules:

- `LessTree` (`less_tree.dfy`) holds the Less pieces the pass uses but does not
  define: `Option`/`Result`, the thrown errors, a colour (optional provenance
  name plus an opaque literal), and the output sink.
- `ResolvedRefs` (`resolved_refs.dfy`) holds the pure static lookups
  `getValidName`, `isRefResolved` and `getResolvedRefFor`. They are functions
  of the cache.
- `ColorProps` (`color_prop.dfy`) holds `class ColorProp` with its factories,
  setters and `genCSS`, and `class Context`. `Context` carries the two PHP
  statics, `$resolvedVarRefs` and `$lastVarRendered`. This module also holds
  the specification of rendering. `Render` is a pure function over a snapshot
  `g` of the reachable props' states, and `Hop` is the prop whose `genCSS` a
  prop's `genCSS` calls. `GenCSS` is proved to append exactly `Render` and to
  put back every `generated` flag.
- `Linking` (`linking.dfy`) holds `class ColorPropOrVariable` and its
  `Compile`. The alias walk is specified by the pure `Step`/`Walk` over a
  `WalkState`. `LinkAliases`, the imperative loop, is proved to perform
  `Walk`. The lemmas about `Walk` state what it achieves (the invariant
  `Good`):
  - the cache grows by exactly the props the walk added;
  - sources resolved before are not cached again;
  - the accepted sources form a chain from the reference;
  - each accepted source's frame colour is renamed after its successor;
  - the walk stops at a root that is not a source, and caches it when the
    root is a colour.
- `CssNesting` (`css_nesting.dfy`) proves the shape of a rendering:
  - it is one opener per hop, then the innermost literal once, then as many
    `)` as openers;
  - each hop adds exactly one `(` and one `)`;
  - a prop never chains to itself;
  - rendering a prop twice gives the same text;
  - a worked `@primary: @base` example.
- `Walkthrough` (`walkthrough.dfy`) runs that example through the methods
  themselves. It compiles a use of `@primary` after `@base: #fff` and
  `@primary: @base`, then renders the prop `Compile` returned with `GenCSS`.
  It relies only on the two methods' contracts.

PHP's `static` state lives in a `Context` object passed to every operation.
Rendering recurses through the cache, and nothing in PHP guarantees that
recursion ends, so `genCSS` takes a ghost `rank` as its termination measure:
every hop must land on a prop of smaller rank (the precondition `Ranked`).
Where PHP sees `null` (an unset name, an unset `closingBraces`), the model has
`None` or `""`.

Three edge cases of the code, as modelled:

- The root is cached without a cache check (ColorPropOrVariable.php:131-135),
  so an existing entry for the root is replaced. `CacheRoot` and `Walk` model
  that.
- Only one level of variable variable is renamed (ColorPropOrVariable.php:82-87).
  There is no error for deeper ones.
- An edge is skipped when its source is neither the reference nor the last
  reference followed (ColorPropOrVariable.php:104), and when its frame entry
  is not a rule holding a colour (ColorPropOrVariable.php:111). `Skipped`
  states all four skip rules.

## Model

| member | source | states |
|---|---|---|
| ResolvedRefs.GetValidName | library/Icinga/Less/ColorPropOrVariable.php:200-207 | the result always begins with `@`; a name that already does is returned unchanged; any other name, "" included, gets `@` in front |
| ResolvedRefs.ValidNameIdempotent | library/Icinga/Less/ColorPropOrVariable.php:200-207 | normalising twice gives the same as normalising once |
| ResolvedRefs.IsRefResolved | library/Icinga/Less/ColorPropOrVariable.php:159-162 | a name with `@` is resolved exactly when it is a cache key, and a bare name exactly when `@` followed by it is one |
| ResolvedRefs.ResolvedUpToSigil | library/Icinga/Less/ColorPropOrVariable.php:159-162 | a bare name is resolved exactly when its `@`-prefixed form is (both directions) |
| ResolvedRefs.GetResolvedRefFor | library/Icinga/Less/ColorPropOrVariable.php:181-191 | fails exactly when the name is unresolved, with the error naming the normalised name; otherwise returns the cache entry under the normalised name |
| ColorProps.StripSigil | library/Icinga/Less/ColorProp.php:103-112 | exactly one leading `@` is removed (`name == "@" + r`); a name without `@` is kept |
| ColorProps.Tail | library/Icinga/Less/ColorProp.php:129 | `substr($s, 1)`: the first character splits off and the rest is the result; "" for "" |
| ColorProps.KeyRoundTrip | library/Icinga/Less/ColorProp.php:103-112 | for a cache key with exactly one `@`, the name setName stores normalises back to that key |
| ColorProps.FromColorState | library/Icinga/Less/ColorProp.php:45-59 | the fields fromColor gives a prop: the colour itself, its text as `value`, its name through setName, and no index |
| ColorProps.StripUndoesValidName | library/Icinga/Less/ColorProp.php:103-112 | stripping a normalised bare name gives the bare name back |
| ColorProps.ColorProp.FromColor | library/Icinga/Less/ColorProp.php:45-59 | the new prop keeps the colour as `color`, copies its text as `value`, takes its name through setName (unset when the colour has none), leaves the index unset, and has no pending closer |
| ColorProps.ColorProp.FromColorProp | library/Icinga/Less/ColorProp.php:61-68 | the new prop wraps the given prop and sets nothing else |
| ColorProps.ColorProp.SetIndex | library/Icinga/Less/ColorProp.php:73-88 | getIndex afterwards returns the index set |
| ColorProps.ColorProp.SetName | library/Icinga/Less/ColorProp.php:93-112 | getName afterwards returns the name with exactly one leading `@` removed, and a name without `@` unchanged |
| ColorProps.Candidate | library/Icinga/Less/ColorProp.php:116-127 | the candidate target name over the snapshot: the wrapped colour's name with `@` ensured, replaced by the colour name of the prop cached under the own name when that one is set and differs |
| ColorProps.Chains | library/Icinga/Less/ColorProp.php:116-129 | the condition for the chained branch: the candidate block is entered, the candidate without its first character is not the prop's own name, and the candidate is resolved |
| ColorProps.ColorProp.TargetName | library/Icinga/Less/ColorProp.php:116-127 | the candidate name genCSS computes from the props on the heap is exactly `Candidate` of the snapshot |
| ColorProps.Render | library/Icinga/Less/ColorProp.php:114-165 | the text genCSS appends for a prop: `var(--<name>, ` then the rendering of its hop, or the colour literal when there is none, then `)` |
| ColorProps.Hop | library/Icinga/Less/ColorProp.php:129-153 | a chained prop renders into the prop its candidate resolves to, an unchained wrapper into the prop it wraps, and a prop with neither wraps a plain colour |
| ColorProps.ColorProp.GenCSS | library/Icinga/Less/ColorProp.php:114-165 | appends exactly `Render` of the prop to the output, sets `lastVarRendered`, restores every reachable prop's `generated` flag, and leaves the closers of props ranked above untouched |
| ColorProps.ColorProp.TryChain | library/Icinga/Less/ColorProp.php:116-140 | `generated` becomes exactly `Chains`; when it chains, it has appended `var(--<name>, ` and the target's rendering, and left `)` pending; otherwise it appends nothing |
| ColorProps.ColorProp.OpenChain | library/Icinga/Less/ColorProp.php:129-139 | the candidate is a cache key; it appends `var(--<name>, ` and then the cached target's rendering, and marks the prop generated with `)` pending |
| ColorProps.ColorProp.GenVar | library/Icinga/Less/ColorProp.php:142-157 | an unchained prop appends its `var()` call, sets `lastVarRendered` and clears its pending closer, so no extra `)` follows |
| ColorProps.ColorProp.VarCall | library/Icinga/Less/ColorProp.php:143-153 | the Less call appends `var(--<name>, <colour>)`: the literal for a plain colour, or the wrapped prop's own rendering |
| ColorProps.CallText | library/Icinga/Less/ColorProp.php:143-153 | the chunks the call appends (`var(`, `--name`, `, `, argument, `)`) make up `var(--name, <argument>)` |
| ColorProps.UnchainedRender | library/Icinga/Less/ColorProp.php:142-157 | an unchained prop renders as one `var(--<name>, …)` around the wrapped prop's rendering or the literal; a wrapped prop ranks lower |
| ColorProps.ChainedRender | library/Icinga/Less/ColorProp.php:129-139 | a chained prop's candidate is a cache key whose prop ranks lower, and the prop renders as `var(--<name>, <target rendering>)` |
| ColorProps.Context.constructor | library/Icinga/Less/ColorProp.php:34 | a compilation run starts with `lastVarRendered` false (as declared here) and an empty cache (as `$resolvedVarRefs` is declared at ColorPropOrVariable.php:32) |
| LessTree.Output.Add | library/Icinga/Less/ColorProp.php:132 | the sink grows by exactly the chunk added |
| CssNesting.Hops | library/Icinga/Less/ColorProp.php:129-153 | the props a rendering passes through start at the prop, lie in the snapshot and strictly decrease in rank, so none repeats |
| CssNesting.RenderShape | library/Icinga/Less/ColorProp.php:114-165 | a rendering is the openers of its hops in order, then the innermost literal once, then as many `)` as openers |
| CssNesting.CallParens | library/Icinga/Less/ColorProp.php:143-153 | a `var(--<name>, …)` around a text adds exactly one `(` and one `)` when the name holds no parentheses |
| CssNesting.ParensPerHop | library/Icinga/Less/ColorProp.php:129-161 | apart from those of the literal, a rendering holds exactly one `(` and one `)` per hop |
| CssNesting.GuardBlocksSelfChain | library/Icinga/Less/ColorProp.php:129 | with no ranking: when the `@`-prefixed candidate resolves to the prop itself, and every key holding the prop is its name with `@`, the guard rejects the chain |
| CssNesting.NeverChainsToItself | library/Icinga/Less/ColorProp.php:129 | with no ranking: a prop that passes the guard with an `@`-prefixed candidate, and is stored only under its own name, renders inside a prop other than itself |
| CssNesting.ChainGuardAvoidsOwnKey | library/Icinga/Less/ColorProp.php:129 | with a `@`-prefixed candidate and a bare own name, the chain guard looks up a key other than the prop's own |
| CssNesting.RenderTwice | library/Icinga/Less/ColorProp.php:159-164 | rendering a prop twice appends the same text each time: once to each of two outputs, or twice in a row to one output; every `generated` flag is left as it was |
| CssNesting.AliasRoot | library/Icinga/Less/ColorProp.php:116-129 | after `@primary: @base`, with the prop compile returned for `@primary` and the two cached props, the root `@base` has itself as candidate, so it does not chain |
| CssNesting.AliasPrimary | library/Icinga/Less/ColorProp.php:116-129 | after `@primary: @base`, both the prop compile returned and the one cached for `@primary` find `@base` through the `@primary` cache entry and chain to the root |
| CssNesting.AliasRender | library/Icinga/Less/ColorProp.php:114-165 | after `@primary: @base` with `@base: #fff`, the prop compile returned renders as `var(--primary, var(--base, #fff))`, and so does the one cached for `@primary` |
| Linking.EffectiveName | library/Icinga/Less/ColorPropOrVariable.php:82-87 | the name compile evaluates: it fails exactly for a variable variable whose inner variable is undefined, with the error at index + 1; a variable variable becomes `@` followed by the inner value; any other name stays |
| Linking.Skipped | library/Icinga/Less/ColorPropOrVariable.php:103-113 | the four skip rules of an edge: the source is resolved, is absent from the frame, is neither the reference nor the last reference followed, or does not hold a colour |
| Linking.Accept | library/Icinga/Less/ColorPropOrVariable.php:115-123 | an accepted edge: the frame colour is renamed after the reference, a copy named after the source is cached under the source, and the reference becomes the last one followed |
| Linking.CloseAt | library/Icinga/Less/ColorPropOrVariable.php:125-139 | the stop at the root: the root colour is cached under its name when the frame holds a colour for it, and the walk breaks off |
| Linking.Step | library/Icinga/Less/ColorPropOrVariable.php:103-140 | one edge of the reversed trail: skipped, accepted, or accepted and then stopped when the reference is no source |
| Linking.Walk | library/Icinga/Less/ColorPropOrVariable.php:102-141 | the walk keeps every frame key, keeps colour entries colours with their literals, and leaves every other entry alone |
| Linking.StepKeeps | library/Icinga/Less/ColorPropOrVariable.php:115-117 | one edge renames at most a colour's name, never its literal or a non-colour entry |
| Linking.Linked | library/Icinga/Less/ColorPropOrVariable.php:97-141 | the walk compile performs, which runs only for a variable whose colour was last bound through another name, changes only colour names in the frame |
| Linking.AcceptFresh | library/Icinga/Less/ColorPropOrVariable.php:103-113 | an edge that passes the skip rules has a source that was neither resolved before nor accepted already; it is the reference itself or the last reference followed |
| Linking.AcceptChain | library/Icinga/Less/ColorPropOrVariable.php:115-123 | an accepted edge extends the chain of renamed and cached sources from the reference |
| Linking.AcceptCache | library/Icinga/Less/ColorPropOrVariable.php:119-123 | an accepted edge grows the cache by its source only, and changes the frame only there |
| Linking.AcceptGood | library/Icinga/Less/ColorPropOrVariable.php:103-123 | an accepted edge keeps the walk invariant `Good` |
| Linking.CloseChain | library/Icinga/Less/ColorPropOrVariable.php:125-139 | the root is none of the accepted sources, so caching it replaces no accepted source's prop |
| Linking.CloseCache | library/Icinga/Less/ColorPropOrVariable.php:131-139 | the stop caches the root exactly when the frame holds a colour for it, as a copy of that colour, and nothing else |
| Linking.CloseGood | library/Icinga/Less/ColorPropOrVariable.php:125-139 | stopping at a reference that is no source keeps `Good` |
| Linking.StepGood | library/Icinga/Less/ColorPropOrVariable.php:102-140 | every edge of the reversed trail keeps `Good` |
| Linking.WalkGood | library/Icinga/Less/ColorPropOrVariable.php:102-141 | `Good` holds for the whole walk: the cache grows by exactly the props added, sources resolved before are not cached again, only accepted sources and the root are cached, the accepted sources form a chain from the reference with each frame colour renamed after its successor, and a stopped walk stopped at a root that is no source |
| Linking.LinkedGood | library/Icinga/Less/ColorPropOrVariable.php:97-141 | `Good` holds of the walk compile performs, whether it runs or not |
| Linking.RenameSettles | library/Icinga/Less/ColorPropOrVariable.php:82-87 | a variable variable whose inner value does not begin with `@` is renamed to `@` plus that value, and the new name is not renamed again |
| Linking.AliasExample | library/Icinga/Less/ColorPropOrVariable.php:97-141 | compiling `@primary` after `@primary: @base` caches `@primary` (named `primary`) and the root `@base` (named `base`), then stops at `@base` |
| Linking.AcceptedResolvable | library/Icinga/Less/ColorPropOrVariable.php:119-123 | insert and lookup agree: getResolvedRefFor finds every accepted source, and its prop is the copy cached for it |
| Linking.CachedNamedAfterKey | library/Icinga/Less/ColorPropOrVariable.php:119-123 | the prop cached for every accepted source is named after the key it is stored under, without the `@` |
| Linking.CacheSource | library/Icinga/Less/ColorPropOrVariable.php:119-123 | a new, not yet rendered prop (a copy of the renamed colour, named after the source) is stored under the raw source key, and no other entry changes |
| Linking.CacheRoot | library/Icinga/Less/ColorPropOrVariable.php:131-135 | a new, not yet rendered prop for the root colour is stored under the reference, replacing any entry there, and no other entry changes |
| Linking.VisitEdge | library/Icinga/Less/ColorPropOrVariable.php:103-140 | one loop iteration performs `Step` on the frame, the cache and `$lastVarRef`, and reports the `break` exactly when the step stops; every cache entry is the old one or a new, unrendered prop |
| Linking.AcceptEdge | library/Icinga/Less/ColorPropOrVariable.php:115-140 | an edge past the skip rules: renames the frame colour, caches the source, and stops at the root when the reference is no source, all as `Step` says; every cache entry is the old one or a new, unrendered prop |
| Linking.CloseRoot | library/Icinga/Less/ColorPropOrVariable.php:125-139 | the stop performs `CloseAt`: the root colour is cached when the frame holds one; every cache entry is the old one or a new, unrendered prop |
| Linking.LinkAliases | library/Icinga/Less/ColorPropOrVariable.php:99-141 | the loop over the reversed trail leaves the frame and the cache as `Walk` says, and every cache entry is the one there before or a new, unrendered prop |
| Linking.WrapColor | library/Icinga/Less/ColorPropOrVariable.php:144-146 | the result is a new, unrendered prop around the colour, with the reference's index and its name without `@` |
| Linking.ColorPropOrVariable.Compile | library/Icinga/Less/ColorPropOrVariable.php:78-150 | each case of compile with its outcome. The variable-variable rename fails when the inner variable is undefined (at index + 1), and otherwise renames the node in place. An undefined reference is an error. A prop or a non-colour value is returned as it is, with nothing changed. A colour leaves the frame and the cache as the walk of `Linked` says, and comes back as a new, unrendered prop around the renamed frame colour. Every cache entry afterwards is the one there before or a new, unrendered prop |
| Walkthrough.CompilePrimary | library/Icinga/Less/ColorPropOrVariable.php:78-150 | compiling that node returns a new, unrendered prop named `primary` at index 7 around `#fff`, and caches exactly `@primary` (named `primary`) and `@base` (named `base`) as new, unrendered props |
| Walkthrough.RenderAlias | library/Icinga/Less/ColorProp.php:114-165 | genCSS on the prop compile returned, with that cache, appends `var(--primary, var(--base, #fff))` |
| Walkthrough.CompileThenRender | library/Icinga/Less/ColorProp.php:114-165 | compile followed by genCSS: the cache holds `@primary` and `@base`, and the output is `var(--primary, var(--base, #fff))` |

## Left out

- Colour objects that several frame entries share are not modelled. Less may
  bind two variables to one colour object; the model renames each frame entry
  on its own.
- The cached copies are clones in PHP and values here. The compiled colour
  and the frame colour are one object in PHP; `Compile` models that by reading
  the frame entry again after the walk.
- `Less_Tree_Variable::compile` is modelled as a lookup in the top frame's
  variables, with `UndefinedVariable` for a missing name. Less also searches
  enclosing frames and evaluates nested variable variables itself. The walk,
  like the code, looks only at the top frame.
- A frame entry whose value is a `ColorProp` is treated by the walk as a
  non-colour entry and skipped. In PHP `ColorProp` extends
  `Less_Tree_Color`, so the `instanceof` check would accept it.
- `Less_Tree_Call`, `Less_Tree_Keyword` and `Less_Tree_Color::genCSS` are
  modelled as appending their text. Less's compression and formatting options
  are not modelled.
- A colour's channel data, alpha and formatting are left out. The colour is an
  opaque literal string. `fromColor` copies only that text as `value`, plus the
  name through `setName`.
- Cycles of cached props are not modelled. PHP would recurse without end, and
  the model requires a `rank` under which every hop descends.
- The visitor that builds the alias trail is not modelled; the trail is an
  input. The lemmas that match insert keys with lookups require every trail
  name to begin with `@` (`Sigils`).
- `getIndex`, `getName` (`ColorProp.GetIndex`, `ColorProp.GetName`) and
  `getResolvedVarRefs` (the field `Context.resolvedVarRefs`) are plain field
  reads with nothing to state.
- `getVariable`, `setVariable`, `isVariable` and `setIsVariable` are the
  fields of `Linking.ColorPropOrVariable`.
- `isRefResolved` takes a PHP `string`, so genCSS throws a `TypeError` for a
  prop with an unset name that enters the candidate block. The model rules
  that case out as the precondition `Renderable` instead of modelling the
  error.
- PHP's integer overflow of `index + 1` is not modelled; indices are
  unbounded.
- RenameSettles: proves that the rename is not repeated only when the inner
  value does not begin with `@`. A value beginning with `@` gives a new
  variable variable, which a later compile of the same node renames again.
- NeverChainsToItself: covers a candidate that begins with `@`, for a prop
  stored only under its own name; `CachedNamedAfterKey` shows that the walk
  names each source prop after its key. A prop stored under a second key,
  or a candidate without `@`, is kept from chaining to itself only by the
  `rank` precondition of rendering.
- ChainGuardAvoidsOwnKey: covers a candidate that begins with `@`. A candidate
  without `@` can pass the guard and still look up the prop's own key. There
  the `rank` precondition, not the guard, rules out self-chaining
  (`NeverChainsToItself`).
