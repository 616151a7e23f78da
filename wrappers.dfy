/** Optional values: JavaScript's `null` / `undefined` made explicit. */
module Wrappers {

  datatype Option<+T> = None | Some(value: T) {

    /** The value, or `default` when there is none (JavaScript's `??`). */
    function GetOr(default: T): T {
      match this
      case Some(v) => v
      case None => default
    }
  }
}

/**
 * JSON text as the pages use it: `JSON.stringify` and `JSON.parse`.
 * The grammar of RFC 8259 is not part of this model; a codec is a pair of
 * functions, and the property the pages rely on (parsing what was written
 * gives the value back, and what is written is never the empty string)
 * is stated by `Faithful` and assumed where it is used.
 */
module Json {
  import opened Wrappers

  datatype Codec<!T> = Codec(stringify: T -> string, parse: string -> Option<T>)

  ghost predicate Faithful<T(!new)>(c: Codec<T>) {
    forall x: T {:trigger c.stringify(x)} :: c.stringify(x) != "" && c.parse(c.stringify(x)) == Some(x)
  }
}
