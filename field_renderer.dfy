/**
 * The field renderer: one field definition plus its current value becomes a
 * control; user input becomes a new value for the field. It keeps a local
 * error from a per-keystroke format check, which it shows in preference to
 * the error handed down by the form.
 */
module FieldRenderer {
  import opened FormTypes
  import opened TextUtil

  const EmailMessage := "Please enter a valid email address including @ and .com"
  const CityMessage := "City name must be at least 2 characters long"

  /** The input types a plain input keeps; any other type is shown as "text". */
  const AllowedInputTypes: seq<string> := ["text", "email", "tel", "date", "number", "password", "url"]

  /**
   * The per-keystroke format check. An email needs an '@' and nothing more;
   * the field with id "city" needs two characters once trimmed. A field that
   * is both is checked for the '@' first.
   */
  function ValidateField(field: Field, value: string): (r: Option<string>)
    ensures r.None? <==>
      (field.fieldType == "email" ==> '@' in value) && (field.fieldId == "city" ==> |Trim(value)| >= 2)
    ensures field.fieldType == "email" && '@' !in value ==> r == Some(EmailMessage)
    ensures (field.fieldType != "email" || '@' in value) && field.fieldId == "city" && |Trim(value)| < 2 ==>
      r == Some(CityMessage)
  {
    if field.fieldType == "email" && '@' !in value then
      Some(EmailMessage)
    else if field.fieldId == "city" && |Trim(value)| < 2 then
      Some(CityMessage)
    else
      None
  }

  /** A missing '@' is reported as such, whatever the field id: the email check comes first. */
  lemma EmailCheckComesFirst(field: Field, value: string)
    requires field.fieldType == "email" && '@' !in value
    ensures ValidateField(field, value) == Some(EmailMessage)
  {
  }

  /** The check is loose: "foo@bar" has no ".com" and still passes an email field. */
  lemma LooseEmailCheck(field: Field)
    requires field.fieldType == "email" && field.fieldId != "city"
    ensures ValidateField(field, "foo") == Some(EmailMessage)
    ensures ValidateField(field, "foo@bar") == None
  {
    assert "foo@bar"[3] == '@';
  }

  /** The city rule counts only what trimming leaves: " a " is too short. */
  lemma CityTooShortOnceTrimmed(field: Field)
    requires field.fieldId == "city" && field.fieldType != "email"
    ensures ValidateField(field, " a ") == Some(CityMessage)
  {
    var pad, word := " ", "a";
    assert AllWhitespace(pad) by { assert pad[0] == ' '; }
    assert !IsWhitespace(word[0]);
    TrimPadded(pad, word, pad);
    assert " a " == pad + word + pad;
  }

  /** Two characters between the spaces are enough: " ab " passes. */
  lemma CityLongEnoughOnceTrimmed(field: Field)
    requires field.fieldId == "city" && field.fieldType != "email"
    ensures ValidateField(field, " ab ") == None
  {
    var pad, word := " ", "ab";
    assert AllWhitespace(pad) by { assert pad[0] == ' '; }
    assert !IsWhitespace(word[0]) && !IsWhitespace(word[1]);
    TrimPadded(pad, word, pad);
    assert " ab " == pad + word + pad;
  }

  /** `values.filter(v => v !== x)`: every occurrence of `x` goes, the rest keep their order. */
  function Without(values: seq<string>, x: string): (r: seq<string>)
    ensures |r| <= |values|
    ensures forall y :: y in r <==> y in values && y != x
  {
    if values == [] then []
    else (if values[0] == x then [] else [values[0]]) + Without(values[1..], x)
  }

  /** Filtering a concatenation filters each part: the kept elements keep their relative order. */
  lemma {:induction false} WithoutConcat(a: seq<string>, b: seq<string>, x: string)
    ensures Without(a + b, x) == Without(a, x) + Without(b, x)
  {
    if a == [] {
      assert a + b == b;
    } else {
      assert (a + b)[0] == a[0];
      assert (a + b)[1..] == a[1..] + b;
      WithoutConcat(a[1..], b, x);
    }
  }

  /** Filtering out a value that is not there changes nothing. */
  lemma {:induction false} WithoutAbsent(values: seq<string>, x: string)
    requires x !in values
    ensures Without(values, x) == values
  {
    if values != [] {
      WithoutAbsent(values[1..], x);
      assert values == [values[0]] + values[1..];
    }
  }

  /** Filtering removes exactly the copies of `x`: every other element keeps its multiplicity. */
  lemma {:induction false} WithoutMultiset(values: seq<string>, x: string)
    ensures multiset(Without(values, x)) == multiset(values)[x := 0]
  {
    if values != [] {
      WithoutMultiset(values[1..], x);
      assert values == [values[0]] + values[1..];
    }
  }

  /** A change event of an input: its `target.value`, and `target.checked` for a checkbox. */
  datatype ChangeEvent = ChangeEvent(value: string, checked: bool)

  /** The list a checkbox group starts from: the current value if it is a list, else []. */
  function CurrentValues(value: Value): seq<string>
  {
    if value.Multi? then value.items else []
  }

  /**
   * The value a change of this field reports: for a checkbox group the
   * current list with the option appended (ticked) or filtered out
   * (unticked); for every other type the raw input string.
   */
  function NewValue(field: Field, value: Value, e: ChangeEvent): (r: Value)
    ensures field.fieldType != "checkbox" ==> r == Str(e.value)
    ensures field.fieldType == "checkbox" ==> r.Multi?
    ensures field.fieldType == "checkbox" && e.checked ==> r.items == CurrentValues(value) + [e.value]
    ensures field.fieldType == "checkbox" && !e.checked ==> r.items == Without(CurrentValues(value), e.value)
  {
    if field.fieldType == "checkbox" then
      var current := CurrentValues(value);
      if e.checked then Multi(current + [e.value]) else Multi(Without(current, e.value))
    else
      Str(e.value)
  }

  /** Ticking an option that is not in the list and then unticking it gives the list back. */
  lemma {:induction false} TickUntickRestores(field: Field, values: seq<string>, option: string)
    requires field.fieldType == "checkbox" && option !in values
    ensures var ticked := NewValue(field, Multi(values), ChangeEvent(option, true));
      NewValue(field, ticked, ChangeEvent(option, false)) == Multi(values)
  {
    WithoutConcat(values, [option], option);
    WithoutAbsent(values, option);
  }

  /** Ticking a, then b, then unticking a, starting from no selection, leaves [b]. */
  lemma {:induction false} TickTickUntick(field: Field, a: string, b: string)
    requires field.fieldType == "checkbox" && a != b
    ensures
      var v1 := NewValue(field, Multi([]), ChangeEvent(a, true));
      var v2 := NewValue(field, v1, ChangeEvent(b, true));
      NewValue(field, v2, ChangeEvent(a, false)) == Multi([b])
  {
    assert [] + [a] + [b] == [a, b];
    assert Without([a, b], a) == [] + Without([b], a);
    assert Without([b], a) == [b] + Without([], a);
  }

  /** `localError || error`, shown only when one of them is a non-empty string. */
  function DisplayedError(localError: Option<string>, error: Option<string>): (r: Option<string>)
    ensures r.Some? <==> NonEmpty(localError) || NonEmpty(error)
    ensures NonEmpty(localError) ==> r == localError
    ensures !NonEmpty(localError) && NonEmpty(error) ==> r == error
  {
    if !(NonEmpty(error) || NonEmpty(localError)) then None
    else if NonEmpty(localError) then localError
    else error
  }

  /** One radio button or checkbox for a schema option, and whether it is ticked. */
  datatype OptionControl = OptionControl(option: FieldOption, checked: bool)

  /** The control a field renders as. */
  datatype Control =
    | TextArea
    | Select(noSelection: string, choices: seq<FieldOption>)
    | RadioGroup(name: string, buttons: seq<OptionControl>)
    | CheckboxGroup(boxes: seq<OptionControl>)
    | Input(inputType: string)

  function OptionsOf(field: Field): seq<FieldOption>
  {
    if field.options.Some? then field.options.value else []
  }

  /** The `type` attribute of a plain input: the field's own type if it is allowed, else "text". */
  function InputType(fieldType: string): (t: string)
    ensures t in AllowedInputTypes
    ensures fieldType in AllowedInputTypes ==> t == fieldType
    ensures fieldType !in AllowedInputTypes ==> t == "text"
  {
    if fieldType in AllowedInputTypes then fieldType else "text"
  }

  /** A radio button is on when the value is exactly its option's value. */
  predicate RadioChecked(value: Value, option: FieldOption)
  {
    value == Str(option.value)
  }

  /** A checkbox is on when the value is a list holding its option's value. */
  predicate BoxChecked(value: Value, option: FieldOption)
  {
    value.Multi? && option.value in value.items
  }

  /** The switch over the field type; unknown types become a plain input. */
  function Render(field: Field, value: Value): (c: Control)
    ensures field.fieldType == "textarea" <==> c.TextArea?
    ensures field.fieldType == "dropdown" <==> c.Select?
    ensures field.fieldType == "radio" <==> c.RadioGroup?
    ensures field.fieldType == "checkbox" <==> c.CheckboxGroup?
    ensures c.Input? ==> c.inputType == InputType(field.fieldType)
    ensures c.RadioGroup? ==>
      && |c.buttons| == |OptionsOf(field)|
      && forall i :: 0 <= i < |c.buttons| ==>
        c.buttons[i].option == OptionsOf(field)[i] && (c.buttons[i].checked <==> RadioChecked(value, OptionsOf(field)[i]))
    ensures c.CheckboxGroup? ==>
      && |c.boxes| == |OptionsOf(field)|
      && forall i :: 0 <= i < |c.boxes| ==>
        c.boxes[i].option == OptionsOf(field)[i] && (c.boxes[i].checked <==> BoxChecked(value, OptionsOf(field)[i]))
  {
    var options := OptionsOf(field);
    match field.fieldType
    case "textarea" => TextArea
    case "dropdown" =>
      Select(if NonEmpty(field.placeholder) then field.placeholder.value else "Select an option", options)
    case "radio" =>
      RadioGroup(field.fieldId,
        seq(|options|, i requires 0 <= i < |options| => OptionControl(options[i], RadioChecked(value, options[i]))))
    case "checkbox" =>
      CheckboxGroup(seq(|options|, i requires 0 <= i < |options| => OptionControl(options[i], BoxChecked(value, options[i]))))
    case _ => Input(InputType(field.fieldType))
  }

  /** A type the renderer does not know, say "color", is shown as a text input, whatever the value. */
  lemma UnknownTypeIsText(field: Field, value: Value)
    requires field.fieldType !in AllowedInputTypes
    requires field.fieldType !in ["textarea", "dropdown", "radio", "checkbox"]
    ensures Render(field, value) == Input("text")
  {
  }

  /**
   * Rendering agrees with the value a checkbox change reports: after ticking
   * an option its box is on, after unticking it the box is off.
   */
  lemma TickedBoxShowsChecked(field: Field, value: Value, i: nat, checked: bool)
    requires field.fieldType == "checkbox" && i < |OptionsOf(field)|
    ensures var option := OptionsOf(field)[i];
      var c := Render(field, NewValue(field, value, ChangeEvent(option.value, checked)));
      c.CheckboxGroup? && c.boxes[i].checked == checked
  {
  }

  /**
   * The state of the field component: its local error. The field's value
   * belongs to the form and is passed in on each change.
   */
  class FieldComponent {
    const field: Field
    var localError: Option<string>

    constructor(field: Field)
      ensures this.field == field && localError == None
    {
      this.field := field;
      localError := None;
    }

    /**
     * `handleChange`: run the format check on the input's value, keep its
     * outcome as the local error, then report the field's new value.
     */
    method HandleChange(value: Value, e: ChangeEvent) returns (emitted: Value)
      modifies this
      ensures localError == ValidateField(field, e.value)
      ensures emitted == NewValue(field, value, e)
    {
      var validationError := ValidateField(field, e.value);
      localError := validationError;
      if field.fieldType == "checkbox" {
        var currentValues := CurrentValues(value);
        if e.checked {
          emitted := Multi(currentValues + [e.value]);
        } else {
          emitted := Multi(Without(currentValues, e.value));
        }
      } else {
        emitted := Str(e.value);
      }
    }

    /** The message under the field, given the error the form passes down. */
    function Shown(error: Option<string>): (r: Option<string>)
      reads this
      ensures r == DisplayedError(localError, error)
      ensures NonEmpty(localError) ==> r == localError
      ensures !NonEmpty(localError) && NonEmpty(error) ==> r == error
      ensures r.Some? <==> NonEmpty(localError) || NonEmpty(error)
    {
      DisplayedError(localError, error)
    }
  }
}
