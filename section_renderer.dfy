/**
 * The section renderer: lays out the fields of one section in schema order,
 * hands each its own value (or the empty value of its type) and its own
 * error, and tags every change a field reports with that field's id.
 */
module SectionRenderer {
  import opened FormTypes

  /** A change as the form receives it: `onChange(fieldId, value)`. */
  datatype FieldChange = FieldChange(fieldId: string, value: Value)

  /** What one field is given: its definition, value, error and change callback. */
  datatype FieldProps = FieldProps(
    field: Field,
    value: Value,
    error: Option<string>,
    onChange: Value -> FieldChange)

  /** The empty value of a field: no ticked box for a checkbox group, "" for the rest. */
  function EmptyValue(field: Field): Value
  {
    if field.fieldType == "checkbox" then Multi([]) else Str("")
  }

  /** `formData[fieldId] || empty`: the stored value unless it is missing or "". */
  function ValueFor(field: Field, formData: map<string, Value>): (v: Value)
    ensures field.fieldId in formData && Truthy(formData[field.fieldId]) ==> v == formData[field.fieldId]
    ensures !(field.fieldId in formData && Truthy(formData[field.fieldId])) ==> v == EmptyValue(field)
  {
    var stored := Lookup(formData, field.fieldId);
    if stored.Some? && Truthy(stored.value) then stored.value else EmptyValue(field)
  }

  /** `errors[fieldId]`: the field's own entry, or nothing. */
  function ErrorFor(field: Field, errors: map<string, string>): (e: Option<string>)
    ensures e.Some? <==> field.fieldId in errors
    ensures e.Some? ==> e.value == errors[field.fieldId]
  {
    if field.fieldId in errors then Some(errors[field.fieldId]) else None
  }

  function PropsFor(field: Field, formData: map<string, Value>, errors: map<string, string>): FieldProps
  {
    FieldProps(field, ValueFor(field, formData), ErrorFor(field, errors), (v: Value) => FieldChange(field.fieldId, v))
  }

  /**
   * `section.fields.map(...)`: one entry per schema field, in schema order,
   * each given its own value and error, each change tagged with its own id.
   */
  function RenderSection(section: Section, formData: map<string, Value>, errors: map<string, string>)
    : (r: seq<FieldProps>)
    ensures |r| == |section.fields|
    ensures forall i :: 0 <= i < |r| ==> r[i].field == section.fields[i]
    ensures forall i :: 0 <= i < |r| ==> r[i].value == ValueFor(section.fields[i], formData)
    ensures forall i :: 0 <= i < |r| ==> r[i].error == ErrorFor(section.fields[i], errors)
    ensures forall i, v :: 0 <= i < |r| ==> r[i].onChange(v) == FieldChange(section.fields[i].fieldId, v)
  {
    var fields := section.fields;
    seq(|fields|, i requires 0 <= i < |fields| => PropsFor(fields[i], formData, errors))
  }

  /**
   * The defaults: a missing value, or a stored "", reaches a checkbox group
   * as [] and any other field as "".
   */
  lemma MissingOrFalsyValueDefaults(section: Section, formData: map<string, Value>, errors: map<string, string>, i: nat)
    requires i < |section.fields|
    requires var id := section.fields[i].fieldId; id !in formData || formData[id] == Str("")
    ensures var v := RenderSection(section, formData, errors)[i].value;
      if section.fields[i].fieldType == "checkbox" then v == Multi([]) else v == Str("")
  {
  }

  /** Every list is truthy, so a stored [] is handed down as it is, even to a text field. */
  lemma StoredEmptyListIsKept(field: Field, formData: map<string, Value>)
    requires field.fieldId in formData && formData[field.fieldId] == Multi([])
    ensures ValueFor(field, formData) == Multi([])
  {
  }

  /**
   * No field sees another field's error: adding or removing the error of any
   * other id leaves what field i receives unchanged.
   */
  lemma ErrorIsLocal(section: Section, formData: map<string, Value>, errors: map<string, string>, i: nat, id: string, e: string)
    requires i < |section.fields| && id != section.fields[i].fieldId
    ensures RenderSection(section, formData, errors[id := e])[i].error == RenderSection(section, formData, errors)[i].error
    ensures RenderSection(section, formData, errors - {id})[i].error == RenderSection(section, formData, errors)[i].error
  {
  }
}
