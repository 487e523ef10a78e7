/**
 * The static lookups of ColorPropOrVariable over the resolution cache
 * (`$resolvedVarRefs`): name normalisation, membership and retrieval.
 * They are pure functions of the cache, so they take it as a parameter;
 * the cache itself lives in ColorProps.Context.
 */
module ResolvedRefs {
  import opened LessTree

  /** A Less variable name begins with the sigil `@`. */
  predicate HasSigil(name: string) {
    |name| > 0 && name[0] == '@'
  }

  /**
   * getValidName: prefix `@` unless the name already begins with it.
   * PHP reads `""[0]` as "" (with a warning), so the empty name becomes "@".
   */
  function GetValidName(name: string): (r: string)
    ensures HasSigil(r)
    ensures HasSigil(name) ==> r == name
    ensures !HasSigil(name) ==> r == "@" + name
  {
    if HasSigil(name) then name else "@" + name
  }

  /**
   * isRefResolved: the normalised name is a key of the cache, so a name with
   * `@` is looked up as it is and a bare name with `@` in front.
   */
  predicate IsRefResolved(resolved: set<string>, name: string)
    ensures HasSigil(name) ==> (IsRefResolved(resolved, name) <==> name in resolved)
    ensures !HasSigil(name) ==> (IsRefResolved(resolved, name) <==> "@" + name in resolved)
  {
    GetValidName(name) in resolved
  }

  /**
   * getResolvedRefFor: the cache entry under the normalised name, or the
   * RuntimeException naming the normalised name when there is none.
   */
  function GetResolvedRefFor<V>(refs: map<string, V>, name: string): (r: Result<V, LessError>)
    ensures r.Err? <==> !IsRefResolved(refs.Keys, name)
    ensures r.Err? ==> r.error == UnresolvedReference(GetValidName(name))
    ensures r.Ok? ==> GetValidName(name) in refs && r.value == refs[GetValidName(name)]
  {
    if !IsRefResolved(refs.Keys, name) then Err(UnresolvedReference(GetValidName(name)))
    else Ok(refs[GetValidName(name)])
  }

  /** Normalising twice is normalising once. */
  lemma ValidNameIdempotent(name: string)
    ensures GetValidName(GetValidName(name)) == GetValidName(name)
  {
  }

  /** A name and its `@`-prefixed form are resolved together. */
  lemma ResolvedUpToSigil(resolved: set<string>, name: string)
    requires !HasSigil(name)
    ensures IsRefResolved(resolved, name) <==> IsRefResolved(resolved, "@" + name)
  {
    assert GetValidName("@" + name) == "@" + name;
  }
}
