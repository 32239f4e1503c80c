/** How the reference page names the model a schema stands for
    (`Planet`, `array Planet[]`). */
module SchemaName {
  import opened Util
  import opened JsonValue

  /** `getRefName(schema)`, which is not part of this model. */
  type RefNamer = Json -> Option<string>

  /** `if (refName)`: a ref name that is present and non-empty. */
  predicate NonEmpty(s: Option<string>) {
    s.Some? && s.value != ""
  }

  /** `getModelNameFromSchema`: the first of a truthy `title`, a truthy `name`
      and the ref name; None (null) for a falsy schema or when none exists. */
  function GetModelNameFromSchema(schema: Option<Json>, refName: RefNamer): (r: Option<string>)
    ensures (schema.None? || !Truthy(schema.value)) ==> r.None?
    ensures schema.Some? && Truthy(schema.value) && TruthyAt(schema.value, "title") ==>
              r == Some(Text(schema.value.fields["title"]))
    ensures schema.Some? && Truthy(schema.value) && !TruthyAt(schema.value, "title") && TruthyAt(schema.value, "name") ==>
              r == Some(Text(schema.value.fields["name"]))
    ensures schema.Some? && Truthy(schema.value) && !TruthyAt(schema.value, "title") && !TruthyAt(schema.value, "name") ==>
              r == (if NonEmpty(refName(schema.value)) then refName(schema.value) else None)
  {
    if schema.None? || !Truthy(schema.value) then None
    else if TruthyAt(schema.value, "title") then Some(Text(schema.value.fields["title"]))
    else if TruthyAt(schema.value, "name") then Some(Text(schema.value.fields["name"]))
    else if NonEmpty(refName(schema.value)) then refName(schema.value)
    else None
  }

  /** `formatTypeWithModel`: "<type> <model>[]" for arrays, "<type> <model>" otherwise. */
  function FormatTypeWithModel(typ: string, modelName: string): (r: string)
    ensures |r| == |typ| + 1 + |modelName| + (if typ == "array" then 2 else 0)
    ensures r[..|typ| + 1] == typ + " "
    ensures r[|typ| + 1..|typ| + 1 + |modelName|] == modelName
    ensures typ == "array" ==> r[|r| - 2..] == "[]"
  {
    if typ == "array" then typ + " " + modelName + "[]" else typ + " " + modelName
  }

  predicate StartsWith(s: string, prefix: string) {
    |prefix| <= |s| && s[..|prefix|] == prefix
  }

  const ArrayOf: string := "Array of "

  /** `getModelName`: the model name shown beside a typed schema value, or None (null). */
  function GetModelName(value: Option<Json>, hideModelNames: bool, refName: RefNamer): (r: Option<string>)
    // untyped values and hidden model names give null
    ensures !TruthyAt(OrNull(value), "type") ==> r.None?
    ensures hideModelNames ==> r.None?
  {
    var v := OrNull(value);
    if !TruthyAt(v, "type") || hideModelNames then None
    else
      var typ := v.fields["type"];
      var modelName := GetModelNameFromSchema(value, refName);
      if NonEmpty(modelName) && (TruthyAt(v, "title") || TruthyAt(v, "name")) then
        if typ == JStr("array") then Some("array " + modelName.value + "[]") else modelName
      else if typ == JStr("array") && TruthyAt(v, "items") then
        var items := v.fields["items"];
        if TruthyAt(items, "title") then Some(FormatTypeWithModel("array", Text(items.fields["title"])))
        else if TruthyAt(items, "name") then Some(FormatTypeWithModel("array", Text(items.fields["name"])))
        else
          var itemModelName := GetModelNameFromSchema(Some(items), refName);
          if NonEmpty(itemModelName) && Get(items, "type") != Some(JStr(itemModelName.value)) then
            Some(FormatTypeWithModel("array", itemModelName.value))
          else if TruthyAt(items, "type") then Some(FormatTypeWithModel("array", Text(items.fields["type"])))
          else Some(FormatTypeWithModel("array", "object"))
      else if NonEmpty(modelName) && typ != JStr(modelName.value) then
        if StartsWith(modelName.value, ArrayOf) then Some("array " + modelName.value[|ArrayOf|..] + "[]")
        else modelName
      else None
  }

  /** `value?.x` on an undefined value reads as on null. */
  function OrNull(value: Option<Json>): Json {
    if value.Some? then value.value else JNull
  }

  /** A value with its own truthy title or name is named by it: `array X[]`
      for arrays and `X` otherwise. */
  lemma OwnNameWins(value: Json, refName: RefNamer)
    requires TruthyAt(value, "type")
    requires TruthyAt(value, "title") || TruthyAt(value, "name")
    ensures var x := if TruthyAt(value, "title") then value.fields["title"] else value.fields["name"];
            Text(x) != "" ==>
              GetModelName(Some(value), false, refName) ==
                Some(if value.fields["type"] == JStr("array") then "array " + Text(x) + "[]" else Text(x))
  {
  }

  /** An array without its own title or name is named after its items: the
      items' title, name, ref name (when it differs from their type), type,
      or else `object`, always as `array T[]`. */
  lemma {:induction false} ArrayNamedByItems(value: Json, refName: RefNamer)
    requires value.JObj? && Get(value, "type") == Some(JStr("array"))
    requires !TruthyAt(value, "title") && !TruthyAt(value, "name")
    requires TruthyAt(value, "items")
    ensures var items := value.fields["items"];
            var t := if TruthyAt(items, "title") then Text(items.fields["title"])
                     else if TruthyAt(items, "name") then Text(items.fields["name"])
                     else if NonEmpty(GetModelNameFromSchema(Some(items), refName))
                             && Get(items, "type") != Some(JStr(GetModelNameFromSchema(Some(items), refName).value))
                     then GetModelNameFromSchema(Some(items), refName).value
                     else if TruthyAt(items, "type") then Text(items.fields["type"])
                     else "object";
            GetModelName(Some(value), false, refName) == Some("array " + t + "[]")
  {
    ArrayFormat();
  }

  lemma ArrayFormat()
    ensures forall m :: FormatTypeWithModel("array", m) == "array " + m + "[]"
  {
    assert "array" + " " == "array ";
  }

  /** For a non-array value named only by its ref: a name equal to the type
      gives null, and `Array of X` gives `array X[]`. */
  lemma RefNamedNonArray(value: Json, refName: RefNamer, name: string)
    requires value.JObj? && TruthyAt(value, "type") && value.fields["type"] != JStr("array")
    requires !TruthyAt(value, "title") && !TruthyAt(value, "name")
    requires refName(value) == Some(name) && name != ""
    ensures value.fields["type"] == JStr(name) ==> GetModelName(Some(value), false, refName).None?
    ensures value.fields["type"] != JStr(name) && StartsWith(name, ArrayOf) ==>
              GetModelName(Some(value), false, refName) == Some("array " + name[|ArrayOf|..] + "[]")
    ensures value.fields["type"] != JStr(name) && !StartsWith(name, ArrayOf) ==>
              GetModelName(Some(value), false, refName) == Some(name)
  {
  }

  /** Whenever an array with items gets a name, it has the form `array T[]`. */
  lemma {:induction false} ArrayWithItemsIsBracketed(value: Json, refName: RefNamer)
    requires value.JObj? && Get(value, "type") == Some(JStr("array")) && TruthyAt(value, "items")
    ensures var r := GetModelName(Some(value), false, refName);
            r.Some? && |r.value| >= 8 && r.value[..6] == "array " && r.value[|r.value| - 2..] == "[]"
  {
    var r := GetModelName(Some(value), false, refName);
    var mn := GetModelNameFromSchema(Some(value), refName);
    if NonEmpty(mn) && (TruthyAt(value, "title") || TruthyAt(value, "name")) {
      assert r == Some("array " + mn.value + "[]");
    } else {
      var items := value.fields["items"];
      var t := if TruthyAt(items, "title") then Text(items.fields["title"])
               else if TruthyAt(items, "name") then Text(items.fields["name"])
               else if NonEmpty(GetModelNameFromSchema(Some(items), refName))
                       && Get(items, "type") != Some(JStr(GetModelNameFromSchema(Some(items), refName).value))
               then GetModelNameFromSchema(Some(items), refName).value
               else if TruthyAt(items, "type") then Text(items.fields["type"])
               else "object";
      assert r == Some(FormatTypeWithModel("array", t));
    }
  }
}
