/** How a schema's `default` value is shown next to the schema. */
module FlattenDefaultValue {
  import opened Util
  import opened JsonValue

  /** `value?.default`, None when the schema or its default is undefined. */
  function Default(value: Option<Json>): Option<Json> {
    GetOpt(value, "default")
  }

  /** The displayed default. `stringify` is `JSON.stringify`, which is not part
      of this model; a None result is `undefined`. */
  function FlattenDefaultValue(value: Option<Json>, stringify: Json -> string): (r: Option<Json>)
    // null is shown as the text "null"
    ensures Default(value) == Some(JNull) ==> r == Some(JStr("null"))
    // a one-element array is shown as its element, before the string case
    ensures (Default(value).Some? && Default(value).value.JArr? && |Default(value).value.elems| == 1) ==>
              r == Some(Default(value).value.elems[0])
    // a string is shown JSON-quoted
    ensures (Default(value).Some? && Default(value).value.JStr?) ==> r == Some(JStr(stringify(Default(value).value)))
    // any other array is shown serialised
    ensures (Default(value).Some? && Default(value).value.JArr? && |Default(value).value.elems| != 1) ==>
              r == Some(JStr(stringify(Default(value).value)))
    // numbers, booleans, objects and undefined pass through
    ensures (Default(value).None? || Default(value).value.JNum? || Default(value).value.JBool? || Default(value).value.JObj?) ==>
              r == Default(value)
  {
    match Default(value)
    case None => None
    case Some(d) =>
      if d.JNull? then Some(JStr("null"))
      else if d.JArr? && |d.elems| == 1 then Some(d.elems[0])
      else if d.JStr? then Some(JStr(stringify(d)))
      else if d.JArr? then Some(JStr(stringify(d)))
      else Some(d)
  }

  /** Although its declared result type admits `null`, the result is null only
      when the default is the one-element array `[null]`, and it is an array
      only when the default is a one-element array holding that array. */
  lemma {:induction false} FlattenedShape(value: Option<Json>, stringify: Json -> string)
    ensures FlattenDefaultValue(value, stringify) == Some(JNull) ==> Default(value) == Some(JArr([JNull]))
    ensures (FlattenDefaultValue(value, stringify).Some? && FlattenDefaultValue(value, stringify).value.JArr?) ==>
              Default(value) == Some(JArr([FlattenDefaultValue(value, stringify).value]))
    ensures FlattenDefaultValue(value, stringify).None? <==> Default(value).None?
  {
    match Default(value)
    case None =>
    case Some(d) =>
      if d.JArr? && |d.elems| == 1 {
        assert d.elems == [d.elems[0]];
      }
  }
}
