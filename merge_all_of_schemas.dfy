/** The `allOf` merger of the reference page: it folds a list of schema
    objects into one display schema. Schemas are values here (the source's
    in-place updates of the fresh `result` object become returned values).
    References are taken as already resolved (`getResolvedRef` is the
    identity). The recursion is bounded by `fuel`: every call of one merge
    function by another passes `fuel - 1`, and None means the merge nested
    deeper than the fuel allows. */
module MergeAllOfSchemas {
  import opened Util
  import opened JsonValue

  type Props = map<string, Json>

  /** The only keywords a merge writes into its top-level result. */
  const MergedKeys: set<string> := {"required", "type", "title", "description", "properties", "items"}

  function Lookup(m: Props, k: string): Option<Json> {
    if k in m then Some(m[k]) else None
  }

  function SetField(j: Json, k: string, v: Json): (r: Json)
    ensures r.JObj? && r.fields == Fields(j)[k := v]
  {
    JObj(Fields(j)[k := v])
  }

  /** A possibly undefined value is truthy. */
  predicate TruthyOpt(o: Option<Json>) {
    o.Some? && Truthy(o.value)
  }

  /** `result.properties`, or the `{}` the source creates when it is missing. */
  function PropsOf(j: Json): Props {
    if TruthyAt(j, "properties") then Fields(j.fields["properties"]) else map[]
  }

  /** `schema.required` when it is an array, else the empty list. */
  function RequiredOf(j: Json): seq<Json> {
    if Get(j, "required").Some? && Get(j, "required").value.JArr? then Get(j, "required").value.elems else []
  }

  /** The operands of a merge of two item schemas: each side's own `allOf`
      list when it has one, else the side itself. */
  function AllOfOperands(a: Json, b: Json): seq<Json> {
    (if TruthyAt(a, "allOf") then Elements(a.fields["allOf"]) else [a])
    + (if TruthyAt(b, "allOf") then Elements(b.fields["allOf"]) else [b])
  }

  /** `result.items`, or the `{}` the source creates when it is missing. */
  function CurrentItems(result: Json): Json {
    if TruthyAt(result, "items") then result.fields["items"] else JObj(map[])
  }

  /** The property names the options of a oneOf/anyOf list bring. */
  function OptionKeys(options: seq<Json>): set<string> {
    if options == [] then {}
    else (if TruthyAt(options[0], "properties") then Fields(options[0].fields["properties"]).Keys else {})
         + OptionKeys(options[1..])
  }

  /** The property names a schema brings into `result.properties`: its own
      and those of its oneOf and anyOf options. */
  function IncomingKeys(schema: Json): set<string> {
    (if TruthyAt(schema, "properties") then Fields(schema.fields["properties"]).Keys else {})
    + (if TruthyAt(schema, "oneOf") then OptionKeys(Elements(schema.fields["oneOf"])) else {})
    + (if TruthyAt(schema, "anyOf") then OptionKeys(Elements(schema.fields["anyOf"])) else {})
  }

  // ---------------------------------------------------------------------
  // Steps of mergeSchemaIntoResult that do not recurse.

  /** The first non-empty `required` list is copied; each later one makes
      `required` the order-preserving union of old and new. */
  function MergeRequired(result: Json, schema: Json): (r: Json)
    ensures r.JObj? && r.fields.Keys <= Fields(result).Keys + {"required"}
    ensures forall k :: k != "required" ==> Get(r, k) == Get(result, k)
    ensures RequiredOf(schema) == [] ==> r == JObj(Fields(result))
    ensures RequiredOf(schema) != [] ==>
              RequiredOf(r) == (if RequiredOf(result) == [] then RequiredOf(schema)
                                else Dedup(RequiredOf(result) + RequiredOf(schema)))
  {
    if RequiredOf(schema) == [] then JObj(Fields(result))
    else if RequiredOf(result) == [] then SetField(result, "required", JArr(RequiredOf(schema)))
    else SetField(result, "required", JArr(Dedup(RequiredOf(result) + RequiredOf(schema))))
  }

  /** `if (schema[key] && !result[key]) result[key] = schema[key]`. */
  function MergeFirstTruthy(result: Json, schema: Json, key: string): (r: Json)
    ensures r.JObj? && r.fields.Keys <= Fields(result).Keys + {key}
    ensures forall k :: k != key ==> Get(r, k) == Get(result, k)
    ensures TruthyAt(result, key) ==> Get(r, key) == Get(result, key)
    ensures !TruthyAt(result, key) && TruthyAt(schema, key) ==> Get(r, key) == Get(schema, key)
    ensures !TruthyAt(result, key) && !TruthyAt(schema, key) ==> r == JObj(Fields(result))
  {
    if TruthyAt(schema, key) && !TruthyAt(result, key) then SetField(result, key, schema.fields[key])
    else JObj(Fields(result))
  }

  // ---------------------------------------------------------------------
  // The mutually recursive merge functions.

  /** `mergeAllOfSchemas(schemas, rootSchema)`. */
  function MergeAllOf(schemas: Json, root: Option<Json>, fuel: nat): (r: Option<Json>)
    // a non-array or empty list gives the root schema, or {} without one
    ensures (!schemas.JArr? || schemas.elems == []) ==>
              r == Some(if root.Some? && Truthy(root.value) then root.value else JObj(map[]))
    // otherwise the result only ever holds the six merged keywords
    ensures schemas.JArr? && schemas.elems != [] && r.Some? ==>
              r.value.JObj? && r.value.fields.Keys <= MergedKeys
    decreases fuel, 0
  {
    if !schemas.JArr? || schemas.elems == [] then
      Some(if root.Some? && Truthy(root.value) then root.value else JObj(map[]))
    else if fuel == 0 then None
    else
      var acc :- MergeList(JObj(map[]), schemas.elems, fuel - 1);
      if root.Some? && Truthy(root.value) && (root.value.JObj? || root.value.JArr?) then
        if TruthyAt(root.value, "allOf") then
          var nested :- MergeAllOf(root.value.fields["allOf"], None, fuel - 1);
          MergeSchemaInto(acc, nested, fuel - 1)
        else MergeSchemaInto(acc, root.value, fuel - 1)
      else Some(acc)
  }

  /** The loop of `mergeAllOfSchemas` over its elements, left to right:
      non-objects are skipped and an element with `allOf` is merged first. */
  function MergeList(acc: Json, elems: seq<Json>, fuel: nat): (r: Option<Json>)
    ensures r.Some? && acc.JObj? && acc.fields.Keys <= MergedKeys ==>
              r.value.JObj? && r.value.fields.Keys <= MergedKeys
    decreases fuel, |elems|
  {
    if elems == [] then Some(acc)
    else if fuel == 0 then None
    else
      var e := elems[0];
      var acc' :-
        if !Truthy(e) || !(e.JObj? || e.JArr?) then Some(acc)
        else if TruthyAt(e, "allOf") then
          var nested :- MergeAllOf(e.fields["allOf"], None, fuel - 1);
          MergeSchemaInto(acc, nested, fuel - 1)
        else MergeSchemaInto(acc, e, fuel - 1);
      MergeList(acc', elems[1..], fuel)
  }

  /** `mergeSchemaIntoResult(result, schema)`. */
  function MergeSchemaInto(result: Json, schema: Json, fuel: nat): (r: Option<Json>)
    // an empty schema changes nothing
    ensures Fields(schema) == map[] ==> r == Some(result)
    // only the six merged keywords are ever written
    ensures r.Some? && Fields(schema) != map[] ==>
              r.value.JObj? && r.value.fields.Keys <= Fields(result).Keys + MergedKeys
    // no property is lost, and every property the schema and its options bring is there
    ensures r.Some? ==> PropsOf(result).Keys + IncomingKeys(schema) <= PropsOf(r.value).Keys
    // every other key keeps its value
    ensures r.Some? ==> forall k :: k !in MergedKeys ==> Get(r.value, k) == Get(result, k)
    decreases fuel, 0
  {
    if Fields(schema) == map[] then Some(result)
    else if fuel == 0 then None
    else
      MergeNested(MergeScalars(result, schema), schema, fuel - 1)
  }

  /** The steps of `mergeSchemaIntoResult` that do not recurse: required,
      type, title and description. */
  function MergeScalars(result: Json, schema: Json): (r: Json)
    ensures r.JObj? && r.fields.Keys <= Fields(result).Keys + {"required", "type", "title", "description"}
    ensures FirstTruthyWins(result, schema, r, "type")
    ensures FirstTruthyWins(result, schema, r, "title")
    ensures FirstTruthyWins(result, schema, r, "description")
    ensures RequiredOf(r) == RequiredOf(MergeRequired(result, schema))
    ensures forall k :: k !in {"required", "type", "title", "description"} ==> Get(r, k) == Get(result, k)
  {
    var r1 := MergeRequired(result, schema);
    var rt := MergeFirstTruthy(r1, schema, "type");
    var rl := MergeFirstTruthy(rt, schema, "title");
    var r := MergeFirstTruthy(rl, schema, "description");
    assert Get(r, "required") == Get(rl, "required") == Get(rt, "required") == Get(r1, "required");
    r
  }

  /** The steps of `mergeSchemaIntoResult` that may recurse: properties,
      items, then oneOf and anyOf. They write only `properties` and `items`. */
  function MergeNested(result: Json, schema: Json, fuel: nat): (r: Option<Json>)
    requires result.JObj?
    ensures r.Some? ==> r.value.JObj? && r.value.fields.Keys <= result.fields.Keys + {"items", "properties"}
    ensures r.Some? ==> forall k :: k != "items" && k != "properties" ==> Get(r.value, k) == Get(result, k)
    ensures r.Some? && (TruthyAt(schema, "properties") || TruthyAt(schema, "oneOf") || TruthyAt(schema, "anyOf")) ==>
              TruthyAt(r.value, "properties")
    ensures r.Some? ==> PropsOf(result).Keys + IncomingKeys(schema) <= PropsOf(r.value).Keys
    decreases fuel, 1
  {
    var r3 :- MergePropertiesStep(result, schema, fuel);
    var r4 :- MergeItemsStep(r3, schema, fuel);
    var r5 :- MergeOptions(r4, schema, "oneOf", fuel);
    MergeOptions(r5, schema, "anyOf", fuel)
  }

  /** `key` of the merged result: kept when the result already had a truthy
      value, taken from the schema when only the schema had one. */
  predicate FirstTruthyWins(result: Json, schema: Json, merged: Json, key: string) {
    && (TruthyAt(result, key) ==> Get(merged, key) == Get(result, key))
    && (!TruthyAt(result, key) && TruthyAt(schema, key) ==> Get(merged, key) == Get(schema, key))
    && (!TruthyAt(result, key) && !TruthyAt(schema, key) ==> Get(merged, key) == Get(result, key))
  }

  /** What one `mergeSchemaIntoResult` does to the keywords it merges:
      type, title and description are first-truthy-wins, and properties,
      oneOf or anyOf leave a properties object. */
  lemma MergeSchemaIntoKeywords(result: Json, schema: Json, fuel: nat, merged: Json, key: string)
    requires key == "type" || key == "title" || key == "description"
    requires MergeSchemaInto(result, schema, fuel) == Some(merged)
    ensures FirstTruthyWins(result, schema, merged, key)
    ensures TruthyAt(schema, "properties") || TruthyAt(schema, "oneOf") || TruthyAt(schema, "anyOf") ==>
              TruthyAt(merged, "properties")
  {
    if Fields(schema) != map[] {
      ScalarsSurviveNested(result, schema, fuel, merged);
    }
  }

  /** One `mergeSchemaIntoResult` leaves the `required` list of mergeRequired. */
  lemma MergeSchemaIntoRequired(result: Json, schema: Json, fuel: nat, merged: Json)
    requires MergeSchemaInto(result, schema, fuel) == Some(merged)
    ensures RequiredOf(merged) == RequiredOf(MergeRequired(result, schema))
  {
    if Fields(schema) != map[] {
      ScalarsSurviveNested(result, schema, fuel, merged);
      assert Get(merged, "required") == Get(MergeScalars(result, schema), "required");
    }
  }

  /** The recursive steps leave the keywords the scalar steps wrote alone. */
  lemma ScalarsSurviveNested(result: Json, schema: Json, fuel: nat, merged: Json)
    requires MergeSchemaInto(result, schema, fuel) == Some(merged) && Fields(schema) != map[]
    ensures fuel > 0 && MergeNested(MergeScalars(result, schema), schema, fuel - 1) == Some(merged)
    ensures forall k :: k != "items" && k != "properties" ==> Get(merged, k) == Get(MergeScalars(result, schema), k)
  {
  }

  /** The `properties` step of `mergeSchemaIntoResult`. */
  function MergePropertiesStep(result: Json, schema: Json, fuel: nat): (r: Option<Json>)
    requires result.JObj?
    ensures r.Some? ==> r.value.JObj? && r.value.fields.Keys <= result.fields.Keys + {"properties"}
    ensures r.Some? ==> forall k :: k != "properties" ==> Get(r.value, k) == Get(result, k)
    ensures r.Some? && TruthyAt(schema, "properties") ==> TruthyAt(r.value, "properties")
    ensures !TruthyAt(schema, "properties") ==> r == Some(result)
    // the schema's properties are merged into the result's, as mergePropertiesIntoResult does
    ensures r.Some? && TruthyAt(schema, "properties") ==>
              fuel > 0 && MergeProperties(PropsOf(result), Fields(schema.fields["properties"]), fuel - 1).Some?
              && Get(r.value, "properties")
                 == Some(JObj(MergeProperties(PropsOf(result), Fields(schema.fields["properties"]), fuel - 1).value))
    ensures r.Some? && TruthyAt(schema, "properties") ==>
              PropsOf(r.value).Keys == PropsOf(result).Keys + Fields(schema.fields["properties"]).Keys
    decreases fuel, 0
  {
    if !TruthyAt(schema, "properties") then Some(result)
    else if fuel == 0 then None
    else
      var merged :- MergeProperties(PropsOf(result), Fields(schema.fields["properties"]), fuel - 1);
      Some(SetField(result, "properties", JObj(merged)))
  }

  /** The `items` step of `mergeSchemaIntoResult`. For an array schema the
      items are merged into `result.items` (created when missing); for any
      other schema whose items carry `allOf`, only the merged items'
      properties are folded into `result.properties`. */
  function MergeItemsStep(result: Json, schema: Json, fuel: nat): (r: Option<Json>)
    requires result.JObj?
    ensures r.Some? ==> r.value.JObj? && r.value.fields.Keys <= result.fields.Keys + {"items", "properties"}
    ensures r.Some? ==> forall k :: k != "items" && k != "properties" ==> Get(r.value, k) == Get(result, k)
    ensures r.Some? && TruthyAt(result, "properties") ==> TruthyAt(r.value, "properties")
    ensures r.Some? && TruthyAt(schema, "items") && Get(schema, "type") == Some(JStr("array")) ==> "items" in r.value.fields
    ensures !TruthyAt(schema, "items") ==> r == Some(result)
    ensures r.Some? ==> PropsOf(result).Keys <= PropsOf(r.value).Keys
    // an array schema: items with allOf are merged and overlaid on `result.items`
    ensures r.Some? && TruthyAt(schema, "items") && Get(schema, "type") == Some(JStr("array"))
            && TruthyAt(schema.fields["items"], "allOf") ==>
              fuel > 0 && MergeAllOf(schema.fields["items"].fields["allOf"], None, fuel - 1).Some?
              && r.value.fields["items"]
                 == Overlay(CurrentItems(result), MergeAllOf(schema.fields["items"].fields["allOf"], None, fuel - 1).value)
    // an array schema: other items are merged into `result.items`
    ensures r.Some? && TruthyAt(schema, "items") && Get(schema, "type") == Some(JStr("array"))
            && !TruthyAt(schema.fields["items"], "allOf") ==>
              fuel > 0 && MergeItemsInto(CurrentItems(result), schema.fields["items"], fuel - 1) == Some(r.value.fields["items"])
    ensures r.Some? && Get(schema, "type") == Some(JStr("array")) ==> Get(r.value, "properties") == Get(result, "properties")
    // any other schema: only the properties of items with allOf are merged into `result.properties`
    ensures r.Some? && Get(schema, "type") != Some(JStr("array")) && !(TruthyAt(schema, "items") && TruthyAt(schema.fields["items"], "allOf")) ==>
              r.value == result
    ensures r.Some? && Get(schema, "type") != Some(JStr("array")) && TruthyAt(schema, "items")
            && TruthyAt(schema.fields["items"], "allOf") ==>
              && Get(r.value, "items") == Get(result, "items")
              && fuel > 0 && MergeAllOf(schema.fields["items"].fields["allOf"], None, fuel - 1).Some?
              && var m := MergeAllOf(schema.fields["items"].fields["allOf"], None, fuel - 1).value;
                 if TruthyAt(m, "properties") then
                   MergeProperties(PropsOf(result), Fields(m.fields["properties"]), fuel - 1) == Some(PropsOf(r.value))
                   && TruthyAt(r.value, "properties")
                 else r.value == result
    decreases fuel, 0
  {
    if !TruthyAt(schema, "items") then Some(result)
    else if fuel == 0 then None
    else
      var items := schema.fields["items"];
      if Get(schema, "type") == Some(JStr("array")) then
        var current := CurrentItems(result);
        if TruthyAt(items, "allOf") then
          var merged :- MergeAllOf(items.fields["allOf"], None, fuel - 1);
          Some(SetField(result, "items", Overlay(current, merged)))
        else
          var merged :- MergeItemsInto(current, items, fuel - 1);
          Some(SetField(result, "items", merged))
      else if TruthyAt(items, "allOf") then
        var merged :- MergeAllOf(items.fields["allOf"], None, fuel - 1);
        if TruthyAt(merged, "properties") then
          var props :- MergeProperties(PropsOf(result), Fields(merged.fields["properties"]), fuel - 1);
          Some(SetField(result, "properties", JObj(props)))
        else Some(result)
      else Some(result)
  }

  /** One of the `oneOf`/`anyOf` passes of `mergeSchemaIntoResult`: every
      option's properties are merged into `result.properties`. */
  function MergeOptions(result: Json, schema: Json, key: string, fuel: nat): (r: Option<Json>)
    requires result.JObj?
    ensures r.Some? ==> r.value.JObj? && r.value.fields.Keys <= result.fields.Keys + {"properties"}
    ensures r.Some? ==> forall k :: k != "properties" ==> Get(r.value, k) == Get(result, k)
    ensures r.Some? && (TruthyAt(schema, key) || TruthyAt(result, "properties")) ==> TruthyAt(r.value, "properties")
    ensures !TruthyAt(schema, key) ==> r == Some(result)
    // every option's properties are folded into the result's
    ensures r.Some? && TruthyAt(schema, key) ==>
              fuel > 0 && MergeOptionProperties(PropsOf(result), Elements(schema.fields[key]), fuel - 1) == Some(PropsOf(r.value))
    ensures r.Some? && TruthyAt(schema, key) ==>
              PropsOf(r.value).Keys == PropsOf(result).Keys + OptionKeys(Elements(schema.fields[key]))
    decreases fuel, 0
  {
    if !TruthyAt(schema, key) then Some(result)
    else if fuel == 0 then None
    else
      var merged :- MergeOptionProperties(PropsOf(result), Elements(schema.fields[key]), fuel - 1);
      Some(SetField(result, "properties", JObj(merged)))
  }

  function MergeOptionProperties(acc: Props, options: seq<Json>, fuel: nat): (r: Option<Props>)
    ensures r.Some? ==> r.value.Keys == acc.Keys + OptionKeys(options)
    // a property no option names keeps its value
    ensures r.Some? ==> forall k :: k in acc && k !in OptionKeys(options) ==> r.value[k] == acc[k]
    decreases fuel, |options|
  {
    if options == [] then Some(acc)
    else if fuel == 0 then None
    else
      var acc' :-
        if TruthyAt(options[0], "properties") then MergeProperties(acc, Fields(options[0].fields["properties"]), fuel - 1)
        else Some(acc);
      MergeOptionProperties(acc', options[1..], fuel)
  }

  /** `mergePropertiesIntoResult(result, properties)`: each incoming key is
      merged with the result's entry of the same name; other keys stay. */
  function MergeProperties(result: Props, properties: Props, fuel: nat): (r: Option<Props>)
    ensures r.Some? ==> r.value.Keys == result.Keys + properties.Keys
    ensures r.Some? ==> forall k :: k in result && k !in properties ==> r.value[k] == result[k]
    ensures r.Some? ==> forall k :: k in properties ==> Some(r.value[k]) == MergeProperty(Lookup(result, k), properties[k], fuel)
    ensures properties == map[] ==> r == Some(result)
    decreases fuel, 1
  {
    if properties == map[] then Some(result)
    else if forall k :: k in properties ==> MergeProperty(Lookup(result, k), properties[k], fuel).Some? then
      Some(map k | k in result.Keys + properties.Keys ::
             if k in properties then MergeProperty(Lookup(result, k), properties[k], fuel).value else result[k])
    else None
  }

  /** The loop body of `mergePropertiesIntoResult` for one key: the new value
      of `result[key]`, given its current value and the incoming one. */
  function MergeProperty(existing: Option<Json>, incoming: Json, fuel: nat): (r: Option<Json>)
    // a falsy or non-object incoming value overwrites
    ensures (!Truthy(incoming) || !(incoming.JObj? || incoming.JArr?)) ==> r == Some(incoming)
    // a new key is inserted as it is when it needs no flattening
    ensures Truthy(incoming) && (incoming.JObj? || incoming.JArr?) && (existing.None? || !Truthy(existing.value))
            && !TruthyAt(incoming, "allOf")
            && !(Get(incoming, "type") == Some(JStr("array")) && TruthyOpt(GetOpt(Get(incoming, "items"), "allOf")))
            ==> r == Some(incoming)
    // a new key with allOf is the merge of that allOf list
    ensures Truthy(incoming) && (incoming.JObj? || incoming.JArr?) && (existing.None? || !Truthy(existing.value))
            && TruthyAt(incoming, "allOf") && fuel > 0
            ==> r == MergeAllOf(incoming.fields["allOf"], None, fuel - 1)
    // a new array key whose items carry allOf: the same schema with those items merged
    ensures Truthy(incoming) && (incoming.JObj? || incoming.JArr?) && (existing.None? || !Truthy(existing.value))
            && !TruthyAt(incoming, "allOf")
            && Get(incoming, "type") == Some(JStr("array")) && TruthyOpt(GetOpt(Get(incoming, "items"), "allOf"))
            && r.Some?
            ==> r.value.JObj? && r.value.fields.Keys == Fields(incoming).Keys
                && (forall k :: k in Fields(incoming) && k != "items" ==> r.value.fields[k] == Fields(incoming)[k])
                && fuel > 0 && MergeAllOf(incoming.fields["items"].fields["allOf"], None, fuel - 1) == Some(r.value.fields["items"])
    // an existing key plus incoming allOf: merge [existing, ...allOf]
    ensures Truthy(incoming) && (incoming.JObj? || incoming.JArr?) && existing.Some? && Truthy(existing.value)
            && TruthyAt(incoming, "allOf") && fuel > 0
            ==> r == MergeAllOf(JArr([existing.value] + Elements(incoming.fields["allOf"])), None, fuel - 1)
    // an existing key plus an incoming array with items: existing fields
    // stay, type becomes 'array', the other incoming fields are dropped
    ensures Truthy(incoming) && (incoming.JObj? || incoming.JArr?) && existing.Some? && Truthy(existing.value)
            && !TruthyAt(incoming, "allOf") && Get(incoming, "type") == Some(JStr("array")) && TruthyAt(incoming, "items")
            && r.Some?
            ==> r.value.JObj? && r.value.fields.Keys == Fields(existing.value).Keys + {"type", "items"}
                && r.value.fields["type"] == JStr("array")
                && (forall k :: k in Fields(existing.value) && k != "type" && k != "items" ==> r.value.fields[k] == Fields(existing.value)[k])
                && (!TruthyAt(existing.value, "items") ==> r.value.fields["items"] == incoming.fields["items"])
    // ... and existing items are merged with the incoming ones by mergeItems
    ensures Truthy(incoming) && (incoming.JObj? || incoming.JArr?) && existing.Some? && Truthy(existing.value)
            && !TruthyAt(incoming, "allOf") && Get(incoming, "type") == Some(JStr("array")) && TruthyAt(incoming, "items")
            && TruthyAt(existing.value, "items") && r.Some?
            ==> r.value.JObj? && "items" in r.value.fields
                && fuel > 0 && MergeItems(existing.value.fields["items"], incoming.fields["items"], fuel - 1) == Some(r.value.fields["items"])
    // otherwise a shallow overlay where the incoming fields win, nested
    // properties merged when both sides have them
    ensures Truthy(incoming) && (incoming.JObj? || incoming.JArr?) && existing.Some? && Truthy(existing.value)
            && !TruthyAt(incoming, "allOf") && !(Get(incoming, "type") == Some(JStr("array")) && TruthyAt(incoming, "items"))
            && r.Some?
            ==> r.value.JObj? && r.value.fields.Keys == Fields(existing.value).Keys + Fields(incoming).Keys
                && (forall k :: k in Fields(incoming) && k != "properties" ==> r.value.fields[k] == Fields(incoming)[k])
                && (forall k :: k in Fields(existing.value) && k !in Fields(incoming) ==> r.value.fields[k] == Fields(existing.value)[k])
    // ... where the properties of both sides are merged recursively when both have them
    ensures Truthy(incoming) && (incoming.JObj? || incoming.JArr?) && existing.Some? && Truthy(existing.value)
            && !TruthyAt(incoming, "allOf") && !(Get(incoming, "type") == Some(JStr("array")) && TruthyAt(incoming, "items"))
            && TruthyAt(existing.value, "properties") && TruthyAt(incoming, "properties") && r.Some?
            ==> fuel > 0
                && MergeProperties(Fields(existing.value.fields["properties"]), Fields(incoming.fields["properties"]), fuel - 1).Some?
                && Get(r.value, "properties")
                   == Some(JObj(MergeProperties(Fields(existing.value.fields["properties"]), Fields(incoming.fields["properties"]), fuel - 1).value))
    // ... and otherwise the incoming properties value wins like any other field
    ensures Truthy(incoming) && (incoming.JObj? || incoming.JArr?) && existing.Some? && Truthy(existing.value)
            && !TruthyAt(incoming, "allOf") && !(Get(incoming, "type") == Some(JStr("array")) && TruthyAt(incoming, "items"))
            && !(TruthyAt(existing.value, "properties") && TruthyAt(incoming, "properties"))
            && "properties" in Fields(incoming) && r.Some?
            ==> Get(r.value, "properties") == Some(incoming.fields["properties"])
    decreases fuel, 0
  {
    if !Truthy(incoming) || !(incoming.JObj? || incoming.JArr?) then Some(incoming)
    else if existing.None? || !Truthy(existing.value) then
      if TruthyAt(incoming, "allOf") then
        if fuel == 0 then None else MergeAllOf(incoming.fields["allOf"], None, fuel - 1)
      else if Get(incoming, "type") == Some(JStr("array")) && TruthyOpt(GetOpt(Get(incoming, "items"), "allOf")) then
        if fuel == 0 then None
        else
          var merged :- MergeAllOf(Get(incoming, "items").value.fields["allOf"], None, fuel - 1);
          Some(Overlay(incoming, JObj(map["items" := merged])))
      else Some(incoming)
    else
      var ex := existing.value;
      if fuel == 0 then None
      else if TruthyAt(incoming, "allOf") then
        MergeAllOf(JArr([ex] + Elements(incoming.fields["allOf"])), None, fuel - 1)
      else if Get(incoming, "type") == Some(JStr("array")) && TruthyAt(incoming, "items") then
        var items :-
          if TruthyAt(ex, "items") then MergeItems(ex.fields["items"], incoming.fields["items"], fuel - 1)
          else Some(incoming.fields["items"]);
        Some(Overlay(ex, JObj(map["type" := JStr("array"), "items" := items])))
      else if TruthyAt(ex, "properties") && TruthyAt(incoming, "properties") then
        var props :- MergeProperties(Fields(ex.fields["properties"]), Fields(incoming.fields["properties"]), fuel - 1);
        Some(SetField(Overlay(ex, incoming), "properties", JObj(props)))
      else Some(Overlay(ex, incoming))
  }

  /** `mergeItemsIntoResult(result.items, items)` with the properties of both
      sides merged: the new value of `result.items`. */
  function MergeItemsInto(current: Json, items: Json, fuel: nat): (r: Option<Json>)
    // with allOf on either side: the merge of both sides' operands, overlaid
    ensures (TruthyAt(items, "allOf") || TruthyAt(current, "allOf")) && fuel > 0 ==>
              r == (var m :- MergeAllOf(JArr(AllOfOperands(current, items)), None, fuel - 1); Some(Overlay(current, m)))
    // otherwise the incoming fields win, except that the properties of both sides are merged
    ensures !(TruthyAt(items, "allOf") || TruthyAt(current, "allOf")) && r.Some? ==>
              r.value.JObj? && r.value.fields.Keys == Fields(current).Keys + Fields(items).Keys
              && (forall k :: k in Fields(items) && k != "properties" ==> r.value.fields[k] == Fields(items)[k])
              && (forall k :: k in Fields(current) && k !in Fields(items) ==> r.value.fields[k] == Fields(current)[k])
    ensures !(TruthyAt(items, "allOf") || TruthyAt(current, "allOf")) && TruthyAt(current, "properties")
            && TruthyAt(items, "properties") && r.Some? ==>
              TruthyAt(r.value, "properties")
              && Fields(r.value.fields["properties"]).Keys
                 == Fields(current.fields["properties"]).Keys + Fields(items.fields["properties"]).Keys
    // the merged properties are those of mergePropertiesIntoResult on both sides
    ensures !(TruthyAt(items, "allOf") || TruthyAt(current, "allOf")) && TruthyAt(current, "properties")
            && TruthyAt(items, "properties") && r.Some? ==>
              fuel > 0
              && MergeProperties(Fields(current.fields["properties"]), Fields(items.fields["properties"]), fuel - 1).Some?
              && Get(r.value, "properties")
                 == Some(JObj(MergeProperties(Fields(current.fields["properties"]), Fields(items.fields["properties"]), fuel - 1).value))
    // when only one side has properties, an incoming properties value wins
    ensures !(TruthyAt(items, "allOf") || TruthyAt(current, "allOf"))
            && !(TruthyAt(current, "properties") && TruthyAt(items, "properties"))
            && "properties" in Fields(items) && r.Some? ==>
              Get(r.value, "properties") == Some(items.fields["properties"])
    decreases fuel, 0
  {
    if fuel == 0 then None
    else if TruthyAt(items, "allOf") || TruthyAt(current, "allOf") then
      var merged :- MergeAllOf(JArr(AllOfOperands(current, items)), None, fuel - 1);
      Some(Overlay(current, merged))
    else
      var overlaid := Overlay(current, items);
      if TruthyAt(current, "properties") && TruthyAt(items, "properties") then
        var props :- MergeProperties(Fields(current.fields["properties"]), Fields(items.fields["properties"]), fuel - 1);
        Some(SetField(overlaid, "properties", JObj(props)))
      else Some(overlaid)
  }

  /** `mergeItems(existing, incoming)`: a new item schema. */
  function MergeItems(existing: Json, incoming: Json, fuel: nat): (r: Option<Json>)
    // with allOf on either side: the merge of both sides' operands
    ensures (TruthyAt(existing, "allOf") || TruthyAt(incoming, "allOf")) && fuel > 0 ==>
              r == MergeAllOf(JArr(AllOfOperands(existing, incoming)), None, fuel - 1)
    // otherwise an overlay where incoming wins, properties merged recursively
    ensures !(TruthyAt(existing, "allOf") || TruthyAt(incoming, "allOf")) && r.Some? ==>
              r.value.JObj? && r.value.fields.Keys == Fields(existing).Keys + Fields(incoming).Keys
              && (forall k :: k in Fields(incoming) && k != "properties" ==> r.value.fields[k] == Fields(incoming)[k])
              && (forall k :: k in Fields(existing) && k !in Fields(incoming) ==> r.value.fields[k] == Fields(existing)[k])
    ensures !(TruthyAt(existing, "allOf") || TruthyAt(incoming, "allOf")) && TruthyAt(existing, "properties")
            && TruthyAt(incoming, "properties") && r.Some? ==>
              TruthyAt(r.value, "properties")
              && Fields(r.value.fields["properties"]).Keys
                 == Fields(existing.fields["properties"]).Keys + Fields(incoming.fields["properties"]).Keys
    // the merged properties are those of mergePropertiesIntoResult on a copy of the existing ones
    ensures !(TruthyAt(existing, "allOf") || TruthyAt(incoming, "allOf")) && TruthyAt(existing, "properties")
            && TruthyAt(incoming, "properties") && r.Some? ==>
              fuel > 0
              && MergeProperties(Fields(existing.fields["properties"]), Fields(incoming.fields["properties"]), fuel - 1).Some?
              && Get(r.value, "properties")
                 == Some(JObj(MergeProperties(Fields(existing.fields["properties"]), Fields(incoming.fields["properties"]), fuel - 1).value))
    // when only one side has properties, an incoming properties value wins
    ensures !(TruthyAt(existing, "allOf") || TruthyAt(incoming, "allOf"))
            && !(TruthyAt(existing, "properties") && TruthyAt(incoming, "properties"))
            && "properties" in Fields(incoming) && r.Some? ==>
              Get(r.value, "properties") == Some(incoming.fields["properties"])
    decreases fuel, 0
  {
    if fuel == 0 then None
    else if TruthyAt(existing, "allOf") || TruthyAt(incoming, "allOf") then
      MergeAllOf(JArr(AllOfOperands(existing, incoming)), None, fuel - 1)
    else
      var merged := Overlay(existing, incoming);
      if TruthyAt(existing, "properties") && TruthyAt(incoming, "properties") then
        var props :- MergeProperties(Fields(existing.fields["properties"]), Fields(incoming.fields["properties"]), fuel - 1);
        Some(SetField(merged, "properties", JObj(props)))
      else Some(merged)
  }

  // ---------------------------------------------------------------------
  // The fold over a list of schemas that carry no nested allOf.

  /** The value of `key` in the first schema that has a truthy one. */
  function FirstTruthy(schemas: seq<Json>, key: string): (r: Option<Json>)
    ensures r.Some? ==> exists i :: 0 <= i < |schemas| && TruthyAt(schemas[i], key) && r == Get(schemas[i], key)
                                    && forall j :: 0 <= j < i ==> !TruthyAt(schemas[j], key)
    ensures r.None? ==> forall i :: 0 <= i < |schemas| ==> !TruthyAt(schemas[i], key)
  {
    if schemas == [] then None
    else if TruthyAt(schemas[0], key) then Get(schemas[0], key)
    else
      var r := FirstTruthy(schemas[1..], key);
      assert forall i :: 1 <= i < |schemas| ==> schemas[i] == schemas[1..][i - 1];
      r
  }

  function Elems(s: seq<Json>): set<Json> {
    set x | x in s
  }

  /** Every name listed in some schema's `required`. */
  function RequiredNames(schemas: seq<Json>): set<Json> {
    if schemas == [] then {} else Elems(RequiredOf(schemas[0])) + RequiredNames(schemas[1..])
  }

  predicate NoNestedAllOf(schemas: seq<Json>) {
    forall i :: 0 <= i < |schemas| ==> !TruthyAt(schemas[i], "allOf")
  }

  /** One step of the fold: a head that is not an object is skipped, and
      an object head is merged into the accumulator. */
  function FoldStep(acc: Json, e: Json, fuel: nat): Option<Json> {
    if e.JObj? || e.JArr? then MergeSchemaInto(acc, e, fuel) else Some(acc)
  }

  /** Unfolds the fold over schemas without nested allOf by one element. */
  lemma MergeListUnfold(acc: Json, elems: seq<Json>, fuel: nat) returns (next: Json)
    requires elems != [] && NoNestedAllOf(elems) && MergeList(acc, elems, fuel).Some?
    ensures fuel > 0 && NoNestedAllOf(elems[1..]) && FoldStep(acc, elems[0], fuel - 1) == Some(next)
    ensures MergeList(acc, elems, fuel) == MergeList(next, elems[1..], fuel)
  {
    var e := elems[0];
    assert !TruthyAt(e, "allOf");
    next := if e.JObj? || e.JArr? then MergeSchemaInto(acc, e, fuel - 1).value else acc;
    assert NoNestedAllOf(elems[1..]) by {
      forall i | 0 <= i < |elems[1..]| ensures !TruthyAt(elems[1..][i], "allOf") {
        assert elems[1..][i] == elems[i + 1];
      }
    }
  }

  /** In one step of the fold the accumulator's truthy type, title and
      description win over the head's. */
  lemma FoldStepKeywords(acc: Json, e: Json, fuel: nat, next: Json, key: string)
    requires key == "type" || key == "title" || key == "description"
    requires FoldStep(acc, e, fuel) == Some(next)
    ensures FirstTruthyWins(acc, e, next, key)
  {
    if e.JObj? || e.JArr? {
      MergeSchemaIntoKeywords(acc, e, fuel, next, key);
    }
  }

  /** In one step of the fold the head's required names join the
      accumulator's. */
  lemma FoldStepRequired(acc: Json, e: Json, fuel: nat, next: Json)
    requires FoldStep(acc, e, fuel) == Some(next)
    ensures Elems(RequiredOf(next)) == Elems(RequiredOf(acc)) + Elems(RequiredOf(e))
  {
    if e.JObj? || e.JArr? {
      MergeSchemaIntoRequired(acc, e, fuel, next);
      DedupSameElements(RequiredOf(acc) + RequiredOf(e));
    }
  }

  /** Folding schemas into an accumulator keeps the accumulator's truthy
      type, title or description, and otherwise takes the first truthy one
      of the schemas, in list order. */
  lemma {:induction false} MergeListFirstTruthy(acc: Json, elems: seq<Json>, fuel: nat, key: string)
    requires key == "type" || key == "title" || key == "description"
    requires NoNestedAllOf(elems)
    requires MergeList(acc, elems, fuel).Some?
    ensures Get(MergeList(acc, elems, fuel).value, key) ==
              if TruthyAt(acc, key) then Get(acc, key)
              else if FirstTruthy(elems, key).Some? then FirstTruthy(elems, key)
              else Get(acc, key)
    decreases |elems|
  {
    if elems != [] {
      var next := MergeListUnfold(acc, elems, fuel);
      FoldStepKeywords(acc, elems[0], fuel - 1, next, key);
      MergeListFirstTruthy(next, elems[1..], fuel, key);
    }
  }

  /** Folding schemas into an accumulator leaves exactly the accumulator's
      required names plus every schema's in `required`. */
  lemma {:induction false} MergeListRequired(acc: Json, elems: seq<Json>, fuel: nat)
    requires NoNestedAllOf(elems)
    requires MergeList(acc, elems, fuel).Some?
    ensures Elems(RequiredOf(MergeList(acc, elems, fuel).value)) == Elems(RequiredOf(acc)) + RequiredNames(elems)
    decreases |elems|
  {
    if elems != [] {
      var next := MergeListUnfold(acc, elems, fuel);
      FoldStepRequired(acc, elems[0], fuel - 1, next);
      MergeListRequired(next, elems[1..], fuel);
    }
  }

  /** mergeAllOfSchemas over schemas without nested allOf: the type, title
      and description come from the first schema that has a truthy one. */
  lemma MergeAllOfFirstTruthy(schemas: seq<Json>, fuel: nat, key: string)
    requires key == "type" || key == "title" || key == "description"
    requires schemas != [] && NoNestedAllOf(schemas)
    requires MergeAllOf(JArr(schemas), None, fuel).Some?
    ensures Get(MergeAllOf(JArr(schemas), None, fuel).value, key) == FirstTruthy(schemas, key)
  {
    var empty := JObj(map[]);
    assert fuel > 0;
    assert MergeAllOf(JArr(schemas), None, fuel) == MergeList(empty, schemas, fuel - 1);
    MergeListFirstTruthy(empty, schemas, fuel - 1, key);
  }

  /** mergeAllOfSchemas over schemas without nested allOf: `required` holds
      every name some schema requires, and no other. */
  lemma MergeAllOfRequired(schemas: seq<Json>, fuel: nat)
    requires schemas != [] && NoNestedAllOf(schemas)
    requires MergeAllOf(JArr(schemas), None, fuel).Some?
    ensures Elems(RequiredOf(MergeAllOf(JArr(schemas), None, fuel).value)) == RequiredNames(schemas)
  {
    var empty := JObj(map[]);
    assert fuel > 0;
    assert MergeAllOf(JArr(schemas), None, fuel) == MergeList(empty, schemas, fuel - 1);
    MergeListRequired(empty, schemas, fuel - 1);
    assert RequiredOf(empty) == [];
  }

  /** The root schema is merged last: with one, mergeAllOfSchemas is the
      merge without it with the root then merged in, so the root only fills
      in what the listed schemas left unset (MergeSchemaIntoKeywords). A
      root with its own allOf is flattened first; a falsy or primitive root
      is ignored. */
  lemma MergeAllOfWithRoot(schemas: seq<Json>, root: Json, fuel: nat)
    requires schemas != []
    requires MergeAllOf(JArr(schemas), Some(root), fuel).Some?
    ensures fuel > 0 && MergeAllOf(JArr(schemas), None, fuel).Some?
    ensures !(Truthy(root) && (root.JObj? || root.JArr?)) ==>
              MergeAllOf(JArr(schemas), Some(root), fuel) == MergeAllOf(JArr(schemas), None, fuel)
    ensures Truthy(root) && (root.JObj? || root.JArr?) && !TruthyAt(root, "allOf") ==>
              MergeAllOf(JArr(schemas), Some(root), fuel)
              == MergeSchemaInto(MergeAllOf(JArr(schemas), None, fuel).value, root, fuel - 1)
    ensures Truthy(root) && (root.JObj? || root.JArr?) && TruthyAt(root, "allOf") ==>
              MergeAllOf(root.fields["allOf"], None, fuel - 1).Some?
              && MergeAllOf(JArr(schemas), Some(root), fuel)
                 == MergeSchemaInto(MergeAllOf(JArr(schemas), None, fuel).value, MergeAllOf(root.fields["allOf"], None, fuel - 1).value, fuel - 1)
  {
    var acc := MergeList(JObj(map[]), schemas, fuel - 1).value;
    assert MergeAllOf(JArr(schemas), None, fuel) == Some(acc);
  }

  /** The property names the schemas of a list bring. */
  function IncomingKeysOf(schemas: seq<Json>): set<string> {
    if schemas == [] then {} else IncomingKeys(schemas[0]) + IncomingKeysOf(schemas[1..])
  }

  /** In one step of the fold no property is lost and the head's own and
      its options' properties are added. */
  lemma FoldStepPropertyKeys(acc: Json, e: Json, fuel: nat, next: Json)
    requires FoldStep(acc, e, fuel) == Some(next)
    ensures PropsOf(acc).Keys + IncomingKeys(e) <= PropsOf(next).Keys
  {
  }

  /** Folding schemas into an accumulator keeps its properties and adds
      every property some schema or one of its oneOf/anyOf options brings. */
  lemma {:induction false} MergeListPropertyKeys(acc: Json, elems: seq<Json>, fuel: nat)
    requires NoNestedAllOf(elems)
    requires MergeList(acc, elems, fuel).Some?
    ensures PropsOf(acc).Keys + IncomingKeysOf(elems) <= PropsOf(MergeList(acc, elems, fuel).value).Keys
    decreases |elems|
  {
    if elems != [] {
      var next := MergeListUnfold(acc, elems, fuel);
      FoldStepPropertyKeys(acc, elems[0], fuel - 1, next);
      MergeListPropertyKeys(next, elems[1..], fuel);
    }
  }

  /** mergeAllOfSchemas over schemas without nested allOf: every property
      some schema brings is a property of the merged schema. */
  lemma MergeAllOfPropertyKeys(schemas: seq<Json>, fuel: nat)
    requires schemas != [] && NoNestedAllOf(schemas)
    requires MergeAllOf(JArr(schemas), None, fuel).Some?
    ensures IncomingKeysOf(schemas) <= PropsOf(MergeAllOf(JArr(schemas), None, fuel).value).Keys
  {
    var empty := JObj(map[]);
    assert fuel > 0;
    assert MergeAllOf(JArr(schemas), None, fuel) == MergeList(empty, schemas, fuel - 1);
    MergeListPropertyKeys(empty, schemas, fuel - 1);
  }

  /** One step of the fold over an object schema without nested allOf. */
  lemma MergeListStep(acc: Json, e: Json, rest: seq<Json>, fuel: nat)
    requires e.JObj? && !TruthyAt(e, "allOf") && fuel > 0
    requires MergeSchemaInto(acc, e, fuel - 1).Some?
    ensures MergeList(acc, [e] + rest, fuel) == MergeList(MergeSchemaInto(acc, e, fuel - 1).value, rest, fuel)
  {
    assert ([e] + rest)[1..] == rest;
  }

  /** One step of the fold over an element with its own allOf: that list is
      merged on its own first, and the result is merged in. */
  lemma MergeListNestedStep(acc: Json, e: Json, rest: seq<Json>, fuel: nat)
    requires TruthyAt(e, "allOf") && fuel > 0
    requires MergeAllOf(e.fields["allOf"], None, fuel - 1).Some?
    requires MergeSchemaInto(acc, MergeAllOf(e.fields["allOf"], None, fuel - 1).value, fuel - 1).Some?
    ensures MergeList(acc, [e] + rest, fuel)
            == MergeList(MergeSchemaInto(acc, MergeAllOf(e.fields["allOf"], None, fuel - 1).value, fuel - 1).value, rest, fuel)
  {
    assert ([e] + rest)[1..] == rest;
  }

  /** An element with its own allOf contributes only that list: its other
      keywords (required, properties, type, ...) are dropped. */
  lemma NestedSiblingsIgnored(acc: Json, e: Json, rest: seq<Json>, fuel: nat)
    requires TruthyAt(e, "allOf")
    ensures MergeList(acc, [e] + rest, fuel) == MergeList(acc, [JObj(map["allOf" := e.fields["allOf"]])] + rest, fuel)
  {
    var bare := JObj(map["allOf" := e.fields["allOf"]]);
    assert TruthyAt(bare, "allOf") && bare.fields["allOf"] == e.fields["allOf"];
    assert ([e] + rest)[1..] == rest && ([bare] + rest)[1..] == rest;
  }

  function RequiresOnly(names: seq<Json>): Json {
    JObj(map["required" := JArr(names)])
  }

  lemma FirstRequiredCopied(x: Json)
    ensures MergeSchemaInto(JObj(map[]), RequiresOnly([x]), 1) == Some(RequiresOnly([x]))
  {
    assert MergeScalars(JObj(map[]), RequiresOnly([x])) == RequiresOnly([x]);
  }

  lemma SecondRequiredScalars(x: Json, y: Json)
    requires x != y
    ensures MergeScalars(RequiresOnly([x]), RequiresOnly([y])) == RequiresOnly([x, y])
  {
    var a1, s2, a2 := RequiresOnly([x]), RequiresOnly([y]), RequiresOnly([x, y]);
    assert Dedup([x, y]) == [x, y] by {
      assert Dedup([x]) == [x];
      assert [x, y][..1] == [x];
    }
    assert RequiredOf(a1) == [x] && RequiredOf(s2) == [y];
    assert RequiredOf(a1) + RequiredOf(s2) == [x, y];
    assert a1.fields["required" := JArr([x, y])] == a2.fields;
    assert MergeRequired(a1, s2) == a2;
    assert !TruthyAt(s2, "type") && !TruthyAt(s2, "title") && !TruthyAt(s2, "description");
  }

  lemma SecondRequiredAppended(x: Json, y: Json)
    requires x != y
    ensures MergeSchemaInto(RequiresOnly([x]), RequiresOnly([y]), 1) == Some(RequiresOnly([x, y]))
  {
    var s2, a2 := RequiresOnly([y]), RequiresOnly([x, y]);
    SecondRequiredScalars(x, y);
    assert !TruthyAt(s2, "properties") && !TruthyAt(s2, "items") && !TruthyAt(s2, "oneOf") && !TruthyAt(s2, "anyOf");
    assert MergeNested(a2, s2, 0) == Some(a2);
  }

  /** Two schemas that each require a different name merge into one schema
      requiring both, in order. */
  lemma RequiredListsCombine(x: Json, y: Json)
    requires x != y
    ensures MergeAllOf(JArr([RequiresOnly([x]), RequiresOnly([y])]), None, 3) == Some(RequiresOnly([x, y]))
  {
    RequiredFoldedInOrder(x, y);
  }

  lemma RequiredFoldedInOrder(x: Json, y: Json)
    requires x != y
    ensures MergeList(JObj(map[]), [RequiresOnly([x]), RequiresOnly([y])], 2) == Some(RequiresOnly([x, y]))
  {
    var e1, e2 := RequiresOnly([x]), RequiresOnly([y]);
    FoldFirstRequired(x, [e2]);
    assert [e1] + [e2] == [e1, e2];
    FoldSecondRequired(x, y);
  }

  lemma FoldFirstRequired(x: Json, rest: seq<Json>)
    ensures MergeList(JObj(map[]), [RequiresOnly([x])] + rest, 2) == MergeList(RequiresOnly([x]), rest, 2)
  {
    FirstRequiredCopied(x);
    MergeListStep(JObj(map[]), RequiresOnly([x]), rest, 2);
  }

  lemma FoldSecondRequired(x: Json, y: Json)
    requires x != y
    ensures MergeList(RequiresOnly([x]), [RequiresOnly([y])], 2) == Some(RequiresOnly([x, y]))
  {
    SecondRequiredAppended(x, y);
    MergeListStep(RequiresOnly([x]), RequiresOnly([y]), [], 2);
    assert [RequiresOnly([y])] + [] == [RequiresOnly([y])];
  }

  function PropertiesOf(props: map<string, Json>): Json {
    JObj(map["properties" := JObj(props)])
  }

  lemma PropertyAdded(acc: map<string, Json>, a: string, fuel: nat)
    requires a !in acc
    ensures MergeProperties(acc, map[a := JObj(map[])], fuel) == Some(acc[a := JObj(map[])])
  {
    assert MergeProperty(Lookup(acc, a), JObj(map[]), fuel) == Some(JObj(map[]));
    var r := MergeProperties(acc, map[a := JObj(map[])], fuel);
    assert r.Some?;
    assert r.value == acc[a := JObj(map[])];
  }

  /** A schema with nothing but properties only runs the properties step. */
  lemma NestedPropertiesOnly(base: Json, e: Json, fuel: nat)
    requires base.JObj? && !TruthyAt(e, "items") && !TruthyAt(e, "oneOf") && !TruthyAt(e, "anyOf")
    ensures MergeNested(base, e, fuel) == MergePropertiesStep(base, e, fuel)
  {
  }

  /** ... and leaves the scalar keywords of the result alone. */
  lemma ScalarsPropertiesOnly(base: Json, props: map<string, Json>)
    requires base.JObj?
    ensures MergeScalars(base, PropertiesOf(props)) == base
  {
    var e := PropertiesOf(props);
    assert RequiredOf(e) == [] && !TruthyAt(e, "type") && !TruthyAt(e, "title") && !TruthyAt(e, "description");
  }

  lemma FirstPropertyStep(a: string, fuel: nat)
    requires fuel > 0
    ensures MergePropertiesStep(JObj(map[]), PropertiesOf(map[a := JObj(map[])]), fuel) == Some(PropertiesOf(map[a := JObj(map[])]))
  {
    PropertyAdded(map[], a, fuel - 1);
    assert map[][a := JObj(map[])] == map[a := JObj(map[])];
  }

  lemma NextPropertyStep(acc: map<string, Json>, a: string, fuel: nat)
    requires a !in acc && fuel > 0
    ensures MergePropertiesStep(PropertiesOf(acc), PropertiesOf(map[a := JObj(map[])]), fuel) == Some(PropertiesOf(acc[a := JObj(map[])]))
  {
    PropertyAdded(acc, a, fuel - 1);
    assert PropsOf(PropertiesOf(acc)) == acc;
    assert PropertiesOf(acc).fields["properties" := JObj(acc[a := JObj(map[])])] == map["properties" := JObj(acc[a := JObj(map[])])];
  }

  lemma FirstPropertySchema(a: string, fuel: nat)
    requires fuel > 1
    ensures MergeSchemaInto(JObj(map[]), PropertiesOf(map[a := JObj(map[])]), fuel) == Some(PropertiesOf(map[a := JObj(map[])]))
  {
    var e := PropertiesOf(map[a := JObj(map[])]);
    ScalarsPropertiesOnly(JObj(map[]), map[a := JObj(map[])]);
    NestedPropertiesOnly(JObj(map[]), e, fuel - 1);
    FirstPropertyStep(a, fuel - 1);
  }

  lemma NextPropertySchema(acc: map<string, Json>, a: string, fuel: nat)
    requires a !in acc && fuel > 1
    ensures MergeSchemaInto(PropertiesOf(acc), PropertiesOf(map[a := JObj(map[])]), fuel) == Some(PropertiesOf(acc[a := JObj(map[])]))
  {
    var e := PropertiesOf(map[a := JObj(map[])]);
    ScalarsPropertiesOnly(PropertiesOf(acc), map[a := JObj(map[])]);
    NestedPropertiesOnly(PropertiesOf(acc), e, fuel - 1);
    NextPropertyStep(acc, a, fuel - 1);
  }

  lemma FoldFirstProperty(a: string, rest: seq<Json>, fuel: nat)
    requires fuel > 2
    ensures MergeList(JObj(map[]), [PropertiesOf(map[a := JObj(map[])])] + rest, fuel)
            == MergeList(PropertiesOf(map[a := JObj(map[])]), rest, fuel)
  {
    FirstPropertySchema(a, fuel - 1);
    MergeListStep(JObj(map[]), PropertiesOf(map[a := JObj(map[])]), rest, fuel);
  }

  lemma FoldSecondProperty(a: string, b: string, fuel: nat)
    requires a != b && fuel > 2
    ensures MergeList(PropertiesOf(map[a := JObj(map[])]), [PropertiesOf(map[b := JObj(map[])])], fuel)
            == Some(PropertiesOf(map[a := JObj(map[]), b := JObj(map[])]))
  {
    var eb := PropertiesOf(map[b := JObj(map[])]);
    NextPropertySchema(map[a := JObj(map[])], b, fuel - 1);
    MergeListStep(PropertiesOf(map[a := JObj(map[])]), eb, [], fuel);
    assert [eb] + [] == [eb];
  }

  lemma PropertiesFoldedInOrder(a: string, b: string, fuel: nat)
    requires a != b && fuel > 2
    ensures MergeList(JObj(map[]), [PropertiesOf(map[a := JObj(map[])]), PropertiesOf(map[b := JObj(map[])])], fuel)
            == Some(PropertiesOf(map[a := JObj(map[]), b := JObj(map[])]))
  {
    var ea, eb := PropertiesOf(map[a := JObj(map[])]), PropertiesOf(map[b := JObj(map[])]);
    FoldFirstProperty(a, [eb], fuel);
    assert [ea] + [eb] == [ea, eb];
    FoldSecondProperty(a, b, fuel);
  }

  /** Two schemas that each have a different property merge into one
      schema holding both properties. */
  lemma PropertyListsCombine(a: string, b: string)
    requires a != b
    ensures MergeAllOf(JArr([PropertiesOf(map[a := JObj(map[])]), PropertiesOf(map[b := JObj(map[])])]), None, 4)
            == Some(PropertiesOf(map[a := JObj(map[]), b := JObj(map[])]))
  {
    PropertiesFoldedInOrder(a, b, 3);
  }

  // ---------------------------------------------------------------------
  // mergeItemsIntoResult as written.

  /** `mergeItemsIntoResult` as written: `Object.assign(result, items)` runs
      before the properties merge, so `result.properties` is already the
      incoming properties object, which is then merged with itself. */
  function MergeItemsIntoAsWritten(current: Json, items: Json, fuel: nat): (r: Option<Json>)
    ensures !(TruthyAt(items, "allOf") || TruthyAt(current, "allOf")) && TruthyAt(items, "properties") && r.Some? ==>
              TruthyAt(r.value, "properties")
              && Fields(r.value.fields["properties"]).Keys == Fields(items.fields["properties"]).Keys
  {
    if fuel == 0 then None
    else if TruthyAt(items, "allOf") || TruthyAt(current, "allOf") then
      var merged :- MergeAllOf(JArr(AllOfOperands(current, items)), None, fuel - 1);
      Some(Overlay(current, merged))
    else
      var overlaid := Overlay(current, items);
      if TruthyAt(overlaid, "properties") && TruthyAt(items, "properties") then
        var props :- MergeProperties(Fields(overlaid.fields["properties"]), Fields(items.fields["properties"]), fuel - 1);
        Some(SetField(overlaid, "properties", JObj(props)))
      else Some(overlaid)
  }

  function PropertiesOnly(name: string, schema: Json): Json {
    JObj(map["properties" := JObj(map[name := schema])])
  }

  /** Item schemas `{properties: {a: {}}}` then `{properties: {b: {}}}`: as
      written, the merged items keep only `b`. */
  lemma ItemPropertiesOverwritten(a: string, b: string)
    requires a != b
    ensures var r := MergeItemsIntoAsWritten(PropertiesOnly(a, JObj(map[])), PropertiesOnly(b, JObj(map[])), 2);
            r.Some? && TruthyAt(r.value, "properties") && a !in Fields(r.value.fields["properties"])
  {
    var current, items := PropertiesOnly(a, JObj(map[])), PropertiesOnly(b, JObj(map[]));
    var pb := map[b := JObj(map[])];
    assert !TruthyAt(items, "allOf") && !TruthyAt(current, "allOf");
    assert Overlay(current, items) == items;
    assert MergeProperty(Some(JObj(map[])), JObj(map[]), 1).Some?;
    assert MergeProperties(pb, pb, 1).Some?;
  }

  /** The same item schemas with the properties of both sides merged: the
      merged items keep `a` and `b`. */
  lemma ItemPropertiesMerged(a: string, b: string)
    requires a != b
    ensures var r := MergeItemsInto(PropertiesOnly(a, JObj(map[])), PropertiesOnly(b, JObj(map[])), 2);
            r.Some? && TruthyAt(r.value, "properties") && Fields(r.value.fields["properties"]).Keys == {a, b}
  {
    var current, items := PropertiesOnly(a, JObj(map[])), PropertiesOnly(b, JObj(map[]));
    assert !TruthyAt(items, "allOf") && !TruthyAt(current, "allOf");
    assert MergeProperty(None, JObj(map[]), 1).Some?;
    assert MergeProperties(map[a := JObj(map[])], map[b := JObj(map[])], 1).Some?;
  }
}
