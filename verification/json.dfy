/**
 JSON, as the scroll endpoint uses it, as an abstract codec over values `V`.
 `quote` is `JSON.stringify` of a string and `unquote` the storage library's
 decoding of the stored text; `parse` is `JSON.parse` (`None` when it throws) and
 `stringify` is `JSON.stringify` of a parsed value. The laws are the ones the
 endpoint relies on. `V` stands for JSON values up to what `JSON.stringify`
 prints: `JSON.parse("1e400")` gives `Infinity`, which prints as `null`, and
 `-0` prints as `0`, so for raw JavaScript values the second law holds only up
 to that identification.
 */
module Json {
  import opened Wrappers

  datatype Codec<!V> = Codec(
    nullValue: V,
    quote: string -> string,
    unquote: string -> string,
    parse: string -> Option<V>,
    stringify: V -> string)

  /** A string survives storage; parsing reads back what was serialised; `null`
      serialises as `null`. */
  ghost predicate Lawful<V(!new)>(c: Codec<V>) {
    && (forall s :: c.unquote(c.quote(s)) == s)
    && (forall v :: c.parse(c.stringify(v)) == Some(v))
    && c.stringify(c.nullValue) == "null"
  }

  /** A lawful codec parses `null` to the null value. */
  lemma NullParses<V(!new)>(c: Codec<V>)
    requires Lawful(c)
    ensures c.parse("null") == Some(c.nullValue)
  {
    assert c.parse(c.stringify(c.nullValue)) == Some(c.nullValue);
  }
}
