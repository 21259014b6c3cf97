/**
 * The schema model of the form: the shapes the form engine receives from the
 * server and the values it collects. The TypeScript type declarations are not
 * part of this model; these datatypes follow how the components use them.
 */
module FormTypes {

  datatype Option<+T> = None | Some(value: T)

  /** A field's value: one string, or the list of ticked options of a checkbox group. */
  datatype Value = Str(s: string) | Multi(items: seq<string>)

  datatype FieldOption = FieldOption(value: string, labelText: string)

  datatype Validation = Validation(message: string)

  /**
   * One field of a section. `fieldType` stays a string, as in the source:
   * the renderer compares it against known names and falls back for others.
   */
  datatype Field = Field(
    fieldId: string,
    fieldType: string,
    labelText: string,
    placeholder: Option<string>,
    required: bool,
    minLength: Option<nat>,
    maxLength: Option<nat>,
    options: Option<seq<FieldOption>>,
    validation: Option<Validation>)

  datatype Section = Section(title: string, description: string, fields: seq<Field>)

  datatype Schema = Schema(formId: string, formTitle: string, sections: seq<Section>)

  /** JavaScript truthiness of a `string | undefined`: present and not "". */
  predicate NonEmpty(s: Option<string>)
  {
    s.Some? && s.value != ""
  }

  /** JavaScript truthiness of a `string | string[]`: every array is truthy, only "" is not. */
  predicate Truthy(v: Value)
  {
    v.Multi? || v.s != ""
  }

  /** The value stored for `id`, or None when the key is absent (`undefined`). */
  function Lookup(data: map<string, Value>, id: string): (r: Option<Value>)
    ensures r.Some? <==> id in data
    ensures r.Some? ==> r.value == data[id]
  {
    if id in data then Some(data[id]) else None
  }

  /** No two fields of the list share an id. */
  predicate DistinctIds(fields: seq<Field>)
  {
    forall i, j :: 0 <= i < j < |fields| ==> fields[i].fieldId != fields[j].fieldId
  }
}
