/**
 * Client code that drives the components together the way the page does:
 * the section hands a field its props, the field turns an input event into
 * a value, the section tags it with the field's id and the form stores it.
 */
module FormScenarios {
  import opened FormTypes
  import FieldRenderer
  import FormEngine

  /** One edit of field `i` of the current section, through all three layers. */
  method Edit(form: FormEngine.DynamicForm, widget: FieldRenderer.FieldComponent, i: nat, e: FieldRenderer.ChangeEvent)
    requires form.Valid() && i < |form.schema.sections[form.currentSection].fields|
    requires widget.field == form.schema.sections[form.currentSection].fields[i]
    modifies form`formData, form`errors, widget
    ensures form.Valid()
    ensures var id := widget.field.fieldId;
      var stored := old(SectionValue(form, i));
      form.formData == old(form.formData)[id := FieldRenderer.NewValue(widget.field, stored, e)]
    ensures form.errors == old(form.errors) - {widget.field.fieldId}
    ensures widget.localError == FieldRenderer.ValidateField(widget.field, e.value)
  {
    var props := form.CurrentView()[i];
    var emitted := widget.HandleChange(props.value, e);
    var change := props.onChange(emitted);
    form.HandleFieldChange(change.fieldId, change.value);
  }

  /** The value the section hands field `i` of the current section. */
  function SectionValue(form: FormEngine.DynamicForm, i: nat): Value
    reads form
    requires form.Valid() && i < |form.schema.sections[form.currentSection].fields|
  {
    form.CurrentView()[i].value
  }

  /** Ticking a, then b, then unticking a in a required checkbox group leaves ["b"], which submits. */
  method TickTickUntickScenario()
  {
    var options := [FieldOption("a", "A"), FieldOption("b", "B")];
    var hobbies := Field("hobbies", "checkbox", "Hobbies", None, true, None, None, Some(options), None);
    var form := new FormEngine.DynamicForm(Schema("f2", "Survey", [Section("Interests", "", [hobbies])]));
    var widget := new FieldRenderer.FieldComponent(hobbies);
    Edit(form, widget, 0, FieldRenderer.ChangeEvent("a", true));
    assert form.formData["hobbies"] == Multi(["a"]);
    Edit(form, widget, 0, FieldRenderer.ChangeEvent("b", true));
    assert form.formData["hobbies"] == Multi(["a", "b"]);
    Edit(form, widget, 0, FieldRenderer.ChangeEvent("a", false));
    FieldRenderer.TickTickUntick(hobbies, "a", "b");
    assert form.formData["hobbies"] == Multi(["b"]);
    form.HandleNext();
    assert [hobbies][..0] == [];
    assert form.isSubmitted;
  }
}
