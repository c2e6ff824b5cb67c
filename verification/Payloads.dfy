/** Decoded JSON records and the identifier references in them, as both erasure paths read them
    (harness_mem/data_lifecycle.py and harness_mem/processed_source_cleanup.py). */
module Payloads {
  datatype Field = Field(name: string, value: Json)

  /** A decoded JSON value. Numbers and booleans carry the text that str() gives for them. */
  datatype Json =
    | Null
    | Scalar(text: string, falsy: bool)
    | Text(s: string)
    | List(items: seq<Json>)
    | Object(fields: seq<Field>)

  /** str() of a container, which matters only when a field that should hold an identifier holds a container. */
  type Renderer = Json -> string

  function Str(render: Renderer, value: Json): string {
    match value
    case Null => "None"
    case Scalar(text, _) => text
    case Text(s) => s
    case _ => render(value)
  }

  predicate Falsy(value: Json) {
    match value
    case Null => true
    case Scalar(_, falsy) => falsy
    case Text(s) => s == ""
    case List(items) => items == []
    case Object(fields) => fields == []
  }

  /** dict.get on the fields of an object; field names are distinct. */
  function Lookup(fields: seq<Field>, name: string): Json {
    if fields == [] then Null
    else if fields[0].name == name then fields[0].value
    else Lookup(fields[1..], name)
  }

  function Get(value: Json, name: string): Json {
    if value.Object? then Lookup(value.fields, name) else Null
  }

  /** str(payload.get(name) or ""). */
  function GetText(render: Renderer, value: Json, name: string): string {
    var found := Get(value, name);
    if Falsy(found) then "" else Str(render, found)
  }

  /** The value under a name is that of the first field with that name, and null without one. */
  lemma {:induction false} LookupExactly(fields: seq<Field>, name: string)
    ensures (exists i :: 0 <= i < |fields| && fields[i].name == name && fields[i].value == Lookup(fields, name)
                         && forall k :: 0 <= k < i ==> fields[k].name != name)
            || (Lookup(fields, name) == Null && forall k :: 0 <= k < |fields| ==> fields[k].name != name)
  {
    if fields != [] && fields[0].name != name {
      LookupExactly(fields[1..], name);
      if i :| 0 <= i < |fields[1..]| && fields[1..][i].name == name && fields[1..][i].value == Lookup(fields[1..], name)
              && forall k :: 0 <= k < i ==> fields[1..][k].name != name {
        assert fields[i + 1] == fields[1..][i];
        assert forall k :: 0 <= k < i + 1 ==> fields[k].name != name by {
          assert forall k :: 0 < k < i + 1 ==> fields[k] == fields[1..][k - 1];
        }
      }
    }
  }

  /** A text stands for itself; what is missing, null, empty or false stands for the empty text. */
  lemma TextsExactly(render: Renderer, value: Json, name: string)
    ensures var found, text := Get(value, name), GetText(render, value, name);
            && (found in {Null, Text(""), List([]), Object([])} ==> text == "")
            && (found.Text? ==> text == found.s)
            && (found.Scalar? ==> text == if found.falsy then "" else found.text)
            && (found.List? && found.items != [] ==> text == render(found))
            && (found.Object? && found.fields != [] ==> text == render(found))
    ensures !value.Object? ==> Get(value, name) == Null
  {
  }

  // ---------------------------------------------------------------- references

  datatype Schema = Schema(scalarFields: set<string>, listFields: set<string>)

  predicate IsContainer(value: Json) {
    value.List? || value.Object?
  }

  /** The identifiers that one field itself names. */
  function FieldRefs(schema: Schema, render: Renderer, field: Field): set<string> {
    if field.name in schema.scalarFields && field.value != Null && field.value != Text("") then
      {Str(render, field.value)}
    else if field.name in schema.listFields && field.value.List? then
      set item | item in field.value.items && !IsContainer(item) && item != Null && item != Text("") :: Str(render, item)
    else
      {}
  }

  /** The references collected by the recursive visit of a payload. */
  function References(schema: Schema, render: Renderer, value: Json): set<string>
    decreases value, 1
  {
    match value
    case Object(fields) => FieldsReferences(schema, render, fields)
    case List(items) => ItemsReferences(schema, render, items)
    case _ => {}
  }

  function FieldsReferences(schema: Schema, render: Renderer, fields: seq<Field>): set<string>
    decreases fields, 0
  {
    if fields == [] then {}
    else FieldRefs(schema, render, fields[0]) + References(schema, render, fields[0].value)
         + FieldsReferences(schema, render, fields[1..])
  }

  function ItemsReferences(schema: Schema, render: Renderer, items: seq<Json>): set<string>
    decreases items, 0
  {
    if items == [] then {}
    else References(schema, render, items[0]) + ItemsReferences(schema, render, items[1..])
  }

  /** The field stands somewhere inside the value, at any depth. */
  ghost predicate Contains(value: Json, field: Field) {
    match value
    case Object(fields) => field in fields || exists f :: f in fields && Contains(f.value, field)
    case List(items) => exists item :: item in items && Contains(item, field)
    case _ => false
  }

  /** An identifier is a reference exactly when some field inside the payload, at any depth, names it:
      text outside the schema's identifier fields is never followed. */
  lemma {:induction false} ReferencesAreFields(schema: Schema, render: Renderer, value: Json, id: string)
    ensures id in References(schema, render, value) <==>
              exists field :: Contains(value, field) && id in FieldRefs(schema, render, field)
    decreases value, 1
  {
    match value
    case Object(fields) => FieldsReferencesAreFields(schema, render, fields, id);
    case List(items) => ItemsReferencesAreFields(schema, render, items, id);
    case _ =>
  }

  lemma {:induction false} FieldsReferencesAreFields(schema: Schema, render: Renderer, fields: seq<Field>, id: string)
    ensures id in FieldsReferences(schema, render, fields) <==>
              exists field :: Contains(Object(fields), field) && id in FieldRefs(schema, render, field)
    decreases fields, 0
  {
    if fields != [] {
      var first, rest := fields[0], fields[1..];
      ReferencesAreFields(schema, render, first.value, id);
      FieldsReferencesAreFields(schema, render, rest, id);
      assert fields == [first] + rest;
      forall field ensures Contains(Object(fields), field) <==>
                             field == first || Contains(first.value, field) || Contains(Object(rest), field) {
      }
    }
  }

  lemma {:induction false} ItemsReferencesAreFields(schema: Schema, render: Renderer, items: seq<Json>, id: string)
    ensures id in ItemsReferences(schema, render, items) <==>
              exists field :: Contains(List(items), field) && id in FieldRefs(schema, render, field)
    decreases items, 0
  {
    if items != [] {
      var first, rest := items[0], items[1..];
      ReferencesAreFields(schema, render, first, id);
      ItemsReferencesAreFields(schema, render, rest, id);
      assert items == [first] + rest;
      forall field ensures Contains(List(items), field) <==> Contains(first, field) || Contains(List(rest), field) {
      }
    }
  }
}
