/**
 * The form engine: the state of a loaded multi-section form (every field's
 * value, the error map, the current section, whether it was submitted) and
 * the handlers that change it: a field edit, "Next" (validate, then advance
 * or submit) and "Previous".
 */
module FormEngine {
  import opened FormTypes
  import opened TextUtil
  import SectionRenderer

  const RequiredMessage := "This field is required"

  function MinLengthMessage(m: nat): string
  {
    "Minimum length is " + NatToString(m) + " characters"
  }

  function MaxLengthMessage(m: nat): string
  {
    "Maximum length is " + NatToString(m) + " characters"
  }

  /** `field.validation?.message || fallback`: the custom message unless it is missing or "". */
  function MessageOr(field: Field, fallback: string): (r: string)
    ensures field.validation.Some? && field.validation.value.message != "" ==> r == field.validation.value.message
    ensures !(field.validation.Some? && field.validation.value.message != "") ==> r == fallback
  {
    if field.validation.Some? && field.validation.value.message != "" then field.validation.value.message else fallback
  }

  // The three rules of a field, as tested by section validation. A value is
  // `undefined` (None) when the field was never edited.

  /** Required and missing: absent, "", or a list with nothing ticked. */
  predicate RequiredFires(field: Field, value: Option<Value>)
  {
    field.required && (value.None? || !Truthy(value.value) || (value.value.Multi? && |value.value.items| == 0))
  }

  /** A non-zero minimum and a string value shorter than it; lists are never measured. */
  predicate MinLengthFires(field: Field, value: Option<Value>)
  {
    field.minLength.Some? && field.minLength.value != 0
    && value.Some? && value.value.Str? && |value.value.s| < field.minLength.value
  }

  /** A non-zero maximum and a string value longer than it; lists are never measured. */
  predicate MaxLengthFires(field: Field, value: Option<Value>)
  {
    field.maxLength.Some? && field.maxLength.value != 0
    && value.Some? && value.value.Str? && |value.value.s| > field.maxLength.value
  }

  /**
   * The if/else-if chain of section validation for one field: required,
   * then minimum length, then maximum length; the first rule that fires
   * gives the field's one message, and a field no rule fires on has none.
   */
  function FieldError(field: Field, value: Option<Value>): (r: Option<string>)
    ensures r.None? <==> !RequiredFires(field, value) && !MinLengthFires(field, value) && !MaxLengthFires(field, value)
    ensures r.Some? ==> r.value != ""
  {
    if RequiredFires(field, value) then
      Some(MessageOr(field, RequiredMessage))
    else if MinLengthFires(field, value) then
      Some(MessageOr(field, MinLengthMessage(field.minLength.value)))
    else if MaxLengthFires(field, value) then
      Some(MessageOr(field, MaxLengthMessage(field.maxLength.value)))
    else
      None
  }

  /** A required field left missing, "" or with nothing ticked gets the required message. */
  lemma RequiredMissingFails(field: Field)
    requires field.required
    ensures FieldError(field, None) == Some(MessageOr(field, RequiredMessage))
    ensures FieldError(field, Some(Str(""))) == Some(MessageOr(field, RequiredMessage))
    ensures FieldError(field, Some(Multi([]))) == Some(MessageOr(field, RequiredMessage))
  {
  }

  /**
   * The minimum-length boundary: one character short fails with the minimum
   * message, exactly long enough is not stopped by this rule.
   */
  lemma MinLengthBoundary(field: Field, s: string)
    requires field.minLength.Some? && field.minLength.value > 0
    requires !RequiredFires(field, Some(Str(s)))
    ensures |s| < field.minLength.value ==>
      FieldError(field, Some(Str(s))) == Some(MessageOr(field, MinLengthMessage(field.minLength.value)))
    ensures |s| >= field.minLength.value ==>
      FieldError(field, Some(Str(s))) == if MaxLengthFires(field, Some(Str(s)))
        then Some(MessageOr(field, MaxLengthMessage(field.maxLength.value))) else None
  {
  }

  /** Over the maximum fails with the maximum message once the earlier rules pass. */
  lemma MaxLengthOver(field: Field, s: string)
    requires field.maxLength.Some? && field.maxLength.value > 0 && |s| > field.maxLength.value
    requires !RequiredFires(field, Some(Str(s))) && !MinLengthFires(field, Some(Str(s)))
    ensures FieldError(field, Some(Str(s))) == Some(MessageOr(field, MaxLengthMessage(field.maxLength.value)))
  {
  }

  /** A list value is never measured: it fails only the required rule, and only when empty. */
  lemma ListsAreNotMeasured(field: Field, items: seq<string>)
    ensures FieldError(field, Some(Multi(items))) ==
      if field.required && |items| == 0 then Some(MessageOr(field, RequiredMessage)) else None
  {
  }

  // An independent statement of the same chain: an ordered list of rules,
  // evaluated with short circuit.

  datatype Rule = Required | MinLength | MaxLength

  const RuleOrder: seq<Rule> := [Required, MinLength, MaxLength]

  predicate Fires(rule: Rule, field: Field, value: Option<Value>)
  {
    match rule
    case Required => RequiredFires(field, value)
    case MinLength => MinLengthFires(field, value)
    case MaxLength => MaxLengthFires(field, value)
  }

  function RuleMessage(rule: Rule, field: Field): string
  {
    match rule
    case Required => RequiredMessage
    case MinLength => MinLengthMessage(if field.minLength.Some? then field.minLength.value else 0)
    case MaxLength => MaxLengthMessage(if field.maxLength.Some? then field.maxLength.value else 0)
  }

  /** The message of the first rule in the list that fires, if any. */
  function FirstFailure(rules: seq<Rule>, field: Field, value: Option<Value>): (r: Option<string>)
    ensures r.None? <==> forall k :: 0 <= k < |rules| ==> !Fires(rules[k], field, value)
  {
    if rules == [] then None
    else if Fires(rules[0], field, value) then Some(MessageOr(field, RuleMessage(rules[0], field)))
    else FirstFailure(rules[1..], field, value)
  }

  /** The chain is first-match-wins over the rules in the order required, minimum, maximum. */
  lemma FieldErrorIsFirstFailure(field: Field, value: Option<Value>)
    ensures FieldError(field, value) == FirstFailure(RuleOrder, field, value)
  {
    var afterRequired, afterMin: seq<Rule> := [MinLength, MaxLength], [MaxLength];
    assert RuleOrder[1..] == afterRequired && afterRequired[1..] == afterMin;
    if !RequiredFires(field, value) {
      assert FirstFailure(RuleOrder, field, value) == FirstFailure(afterRequired, field, value);
      if !MinLengthFires(field, value) {
        assert FirstFailure(afterRequired, field, value) == FirstFailure(afterMin, field, value);
        assert afterMin[1..] == [];
      }
    }
  }

  /** The error a field gets against the current values. */
  function ErrorOf(field: Field, formData: map<string, Value>): Option<string>
  {
    FieldError(field, Lookup(formData, field.fieldId))
  }

  /**
   * The error map a validation pass over `fields` builds, field by field in
   * order: a failing field writes its message under its id.
   */
  function SectionErrors(fields: seq<Field>, formData: map<string, Value>): (m: map<string, string>)
    ensures forall k :: k in m ==> m[k] != ""
  {
    if fields == [] then map[]
    else
      var before := SectionErrors(fields[..|fields| - 1], formData);
      var last := fields[|fields| - 1];
      match ErrorOf(last, formData)
      case Some(e) => before[last.fieldId := e]
      case None => before
  }

  /** The map holds exactly the ids of the failing fields of the section. */
  lemma {:induction false} SectionErrorsKeys(fields: seq<Field>, formData: map<string, Value>, id: string)
    ensures id in SectionErrors(fields, formData) <==>
      exists i :: 0 <= i < |fields| && fields[i].fieldId == id && ErrorOf(fields[i], formData).Some?
  {
    if fields != [] {
      var n := |fields| - 1;
      var init := fields[..n];
      SectionErrorsKeys(init, formData, id);
      if id in SectionErrors(fields, formData) {
        if !(fields[n].fieldId == id && ErrorOf(fields[n], formData).Some?) {
          var i :| 0 <= i < |init| && init[i].fieldId == id && ErrorOf(init[i], formData).Some?;
          assert fields[i] == init[i];
        }
      } else {
        forall i | 0 <= i < |fields| && fields[i].fieldId == id
          ensures ErrorOf(fields[i], formData).None?
        {
          if i < n {
            assert fields[i] == init[i];
          }
        }
      }
    }
  }

  /**
   * With distinct ids, each field of the section has an entry iff it fails,
   * and the entry is its own message.
   */
  lemma {:induction false} SectionErrorsAt(fields: seq<Field>, formData: map<string, Value>, i: nat)
    requires DistinctIds(fields) && i < |fields|
    ensures var m, id := SectionErrors(fields, formData), fields[i].fieldId;
      (id in m <==> ErrorOf(fields[i], formData).Some?)
      && (id in m ==> m[id] == ErrorOf(fields[i], formData).value)
  {
    var n := |fields| - 1;
    var init := fields[..n];
    var id := fields[i].fieldId;
    if i == n {
      SectionErrorsKeys(init, formData, id);
      forall j | 0 <= j < |init| ensures init[j].fieldId != id {
        assert init[j] == fields[j];
      }
    } else {
      assert fields[n].fieldId != id;
      assert init[i] == fields[i];
      SectionErrorsAt(init, formData, i);
    }
  }

  /** A validation pass succeeds (its map is empty) iff no field of the section fails. */
  lemma SectionErrorsEmpty(fields: seq<Field>, formData: map<string, Value>)
    ensures SectionErrors(fields, formData) == map[] <==>
      forall i :: 0 <= i < |fields| ==> ErrorOf(fields[i], formData).None?
  {
    var m := SectionErrors(fields, formData);
    if m != map[] {
      var id :| id in m;
      SectionErrorsKeys(fields, formData, id);
    } else {
      forall i | 0 <= i < |fields| ensures ErrorOf(fields[i], formData).None? {
        SectionErrorsKeys(fields, formData, fields[i].fieldId);
      }
    }
  }

  /**
   * The `forEach` of `validateSection`: starts from an empty map and runs the
   * rule chain on each field in order, writing the first failing rule's
   * message under the field's id.
   */
  method CollectErrors(fields: seq<Field>, formData: map<string, Value>) returns (newErrors: map<string, string>)
    ensures newErrors == SectionErrors(fields, formData)
  {
    newErrors := map[];
    for i := 0 to |fields|
      invariant newErrors == SectionErrors(fields[..i], formData)
    {
      var field := fields[i];
      var value := Lookup(formData, field.fieldId);
      assert fields[..i + 1][..i] == fields[..i];
      if field.required && (value.None? || !Truthy(value.value) || (value.value.Multi? && |value.value.items| == 0)) {
        newErrors := newErrors[field.fieldId := MessageOr(field, RequiredMessage)];
      } else if field.minLength.Some? && field.minLength.value != 0 && value.Some? && value.value.Str?
        && |value.value.s| < field.minLength.value
      {
        newErrors := newErrors[field.fieldId := MessageOr(field, MinLengthMessage(field.minLength.value))];
      } else if field.maxLength.Some? && field.maxLength.value != 0 && value.Some? && value.value.Str?
        && |value.value.s| > field.maxLength.value
      {
        newErrors := newErrors[field.fieldId := MessageOr(field, MaxLengthMessage(field.maxLength.value))];
      }
    }
    assert fields[..|fields|] == fields;
  }

  /**
   * An edit is what the section then shows for that field: the new value
   * (or the field's empty value when it is "") and no error.
   */
  lemma EditedFieldRendersNewValue(section: Section, formData: map<string, Value>, errors: map<string, string>,
                                   i: nat, value: Value)
    requires i < |section.fields|
    ensures var id := section.fields[i].fieldId;
      var props := SectionRenderer.RenderSection(section, formData[id := value], errors - {id})[i];
      && props.error == None
      && props.value == if Truthy(value) then value else SectionRenderer.EmptyValue(section.fields[i])
  {
  }

  /**
   * The form component once its schema has loaded. The schema is read-only;
   * the four state variables change only through the handlers below.
   */
  class DynamicForm {
    const schema: Schema
    var formData: map<string, Value>
    var errors: map<string, string>
    var currentSection: nat
    var isSubmitted: bool

    /** The current section exists, and no error message is "" (each is shown when present). */
    ghost predicate Valid()
      reads this
    {
      && 0 < |schema.sections|
      && currentSection < |schema.sections|
      && forall id :: id in errors ==> errors[id] != ""
    }

    /** The state right after the schema has loaded: no values, no errors, the first section. */
    constructor(schema: Schema)
      requires 0 < |schema.sections|
      ensures Valid()
      ensures this.schema == schema
      ensures formData == map[] && errors == map[] && currentSection == 0 && !isSubmitted
    {
      this.schema := schema;
      formData := map[];
      errors := map[];
      currentSection := 0;
      isSubmitted := false;
    }

    predicate OnLastSection()
      reads this
    {
      currentSection == |schema.sections| - 1
    }

    /** `disabled={currentSection === 0}` on the Previous button. */
    predicate PrevDisabled()
      reads this
    {
      currentSection == 0
    }

    /** The fields shown now, with their values and errors. */
    function CurrentView(): (view: seq<SectionRenderer.FieldProps>)
      reads this
      requires Valid()
      ensures var fields := schema.sections[currentSection].fields;
        && |view| == |fields|
        && forall i :: 0 <= i < |view| ==>
          && view[i].field == fields[i]
          && view[i].value == SectionRenderer.ValueFor(fields[i], formData)
          && view[i].error == SectionRenderer.ErrorFor(fields[i], errors)
    {
      SectionRenderer.RenderSection(schema.sections[currentSection], formData, errors)
    }

    /**
     * `validateSection`: replaces the whole error map with the failures of
     * the given section's fields and reports whether there were none.
     */
    method ValidateSection(section: Section) returns (ok: bool)
      requires Valid()
      modifies this`errors
      ensures Valid()
      ensures errors == SectionErrors(section.fields, formData)
      ensures ok <==> errors == map[]
      ensures ok <==> forall i :: 0 <= i < |section.fields| ==> ErrorOf(section.fields[i], formData).None?
    {
      var newErrors := CollectErrors(section.fields, formData);
      errors := newErrors;
      ok := |newErrors.Keys| == 0;
      SectionErrorsEmpty(section.fields, formData);
    }

    /**
     * `handleFieldChange`: stores the value under its id and drops that
     * field's error; every other value and error stays.
     */
    method HandleFieldChange(fieldId: string, value: Value)
      requires Valid()
      modifies this`formData, this`errors
      ensures Valid()
      ensures formData == old(formData)[fieldId := value]
      ensures errors == old(errors) - {fieldId}
      ensures forall id :: id != fieldId ==> (id in errors <==> id in old(errors))
      ensures forall id :: id in errors ==> errors[id] == old(errors)[id]
    {
      formData := formData[fieldId := value];
      if fieldId in errors && errors[fieldId] != "" {
        errors := errors - {fieldId};
      }
    }

    /**
     * `handleNext`: validates the current section; on success submits from
     * the last section and otherwise moves one section on; on failure the
     * position and the submitted flag stay as they were.
     */
    method HandleNext()
      requires Valid()
      modifies this`errors, this`currentSection, this`isSubmitted
      ensures Valid()
      ensures errors == SectionErrors(schema.sections[old(currentSection)].fields, formData)
      ensures errors != map[] ==> currentSection == old(currentSection) && isSubmitted == old(isSubmitted)
      ensures errors == map[] && old(OnLastSection()) ==> isSubmitted && currentSection == old(currentSection)
      ensures errors == map[] && !old(OnLastSection()) ==>
        currentSection == old(currentSection) + 1 && isSubmitted == old(isSubmitted)
    {
      var currentSectionData := schema.sections[currentSection];
      var ok := ValidateSection(currentSectionData);
      if ok {
        if currentSection == |schema.sections| - 1 {
          isSubmitted := true;
        } else {
          currentSection := currentSection + 1;
        }
      }
    }

    /**
     * `handlePrev`: one section back, with no validation and no change to
     * the errors. Only reachable while Previous is enabled.
     */
    method HandlePrev()
      requires Valid() && !PrevDisabled()
      modifies this`currentSection
      ensures Valid()
      ensures currentSection == old(currentSection) - 1
    {
      currentSection := currentSection - 1;
    }

    /** A press of Next. Once submitted the form shows only the success screen, with no buttons. */
    method PressNext()
      requires Valid()
      modifies this`errors, this`currentSection, this`isSubmitted
      ensures Valid()
      ensures old(isSubmitted) ==> isSubmitted && currentSection == old(currentSection) && errors == old(errors)
      ensures !old(isSubmitted) ==> errors == SectionErrors(schema.sections[old(currentSection)].fields, formData)
      ensures !old(isSubmitted) && errors != map[] ==> currentSection == old(currentSection) && !isSubmitted
      ensures !old(isSubmitted) && errors == map[] && old(OnLastSection()) ==>
        isSubmitted && currentSection == old(currentSection)
      ensures !old(isSubmitted) && errors == map[] && !old(OnLastSection()) ==>
        currentSection == old(currentSection) + 1 && !isSubmitted
    {
      if !isSubmitted {
        HandleNext();
      }
    }

    /** A press of Previous: ignored while it is disabled or after submission. */
    method PressPrev()
      requires Valid()
      modifies this`currentSection
      ensures Valid()
      ensures old(isSubmitted) || old(PrevDisabled()) ==> currentSection == old(currentSection)
      ensures !old(isSubmitted) && !old(PrevDisabled()) ==> currentSection == old(currentSection) - 1
    {
      if !isSubmitted && !PrevDisabled() {
        HandlePrev();
      }
    }
  }

  /**
   * One section with one required text field "name": Next with "" reports
   * the required message and stays; after "Alice" Next submits.
   */
  method RequiredNameScenario()
  {
    var name := Field("name", "text", "Name", None, true, None, None, None, None);
    var form := new DynamicForm(Schema("f1", "Sign up", [Section("About you", "", [name])]));
    form.HandleFieldChange("name", Str(""));
    form.HandleNext();
    assert [name][..0] == [];
    assert form.errors == map["name" := RequiredMessage];
    assert form.currentSection == 0 && !form.isSubmitted;
    form.HandleFieldChange("name", Str("Alice"));
    assert form.errors == map[];
    form.HandleNext();
    assert form.isSubmitted && form.currentSection == 0;
  }
}
