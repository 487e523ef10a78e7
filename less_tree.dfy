/**
 * The pieces of the Less compiler that the colour-variable pass consumes but
 * does not define: optional and failing values, Less colour literals, the
 * errors the pass can raise, and the output sink that code generation
 * appends to.
 */
module LessTree {

  /** A PHP value that may be `null` (or an unset property). */
  datatype Option<+T> = None | Some(value: T) {
    /** The value, or `d` where PHP would see `null`. */
    function GetOr(d: T): T {
      match this
      case Some(v) => v
      case None => d
    }
  }

  /** The outcome of an operation that may throw. */
  datatype Result<+T, +E> = Ok(value: T) | Err(error: E)

  /**
   * The exceptions the modelled code can raise.
   *  - UndefinedVariable: the Less evaluator found no binding for a variable
   *    (name and source index of the failing lookup).
   *  - UnresolvedReference: the resolution cache was asked for a name that was
   *    never cached (the RuntimeException of getResolvedRefFor).
   */
  datatype LessError =
    | UndefinedVariable(name: string, index: int)
    | UnresolvedReference(name: string)

  /**
   * A Less colour (Less_Tree_Color). `name` is the variable the colour was
   * last bound through (the dynamically set `name` property, unset when the
   * colour has no provenance). `literal` stands for the channel data: it is
   * the colour's `value` text and what Less_Tree_Color::genCSS prints.
   */
  datatype LessColor = LessColor(name: Option<string>, literal: string)

  /** Concatenation regroups freely; used to match appended chunks with a rendering. */
  lemma AppendAssoc<T>(a: seq<T>, b: seq<T>, c: seq<T>)
    ensures (a + b) + c == a + (b + c)
  {
  }

  /** The CSS output collector that genCSS methods append to. */
  class Output {
    var text: string

    constructor ()
      ensures text == ""
    {
      text := "";
    }

    /** Append one chunk of CSS text. */
    method Add(s: string)
      modifies this`text
      ensures text == old(text) + s
    {
      text := text + s;
    }
  }
}
