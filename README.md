# Dynamic form engine — Dafny model

This project models the form engine of a client-side dynamic form renderer.
The server supplies a schema: an ordered list of sections, each an ordered
list of fields. The engine shows one section at a time and keeps four pieces
of state. `formData` holds each field's value, either a string or the list of
ticked checkbox options. `errors` maps field ids to messages. `currentSection`
is the index of the section on screen. `isSubmitted` records submission.

The state changes in three ways:

- a field edit stores the new value and clears that field's error;
- "Next" validates the current section, then moves one section on or, from
  the last section, submits;
- "Previous" moves one section back.

Validation runs an ordered chain of rules on each field: required, then
minimum length, then maximum length. The first rule that fires gives the
field's message.

Below the engine sit two renderers:

- the section renderer hands each field its value (or the empty value of its
  type), its own error, and a change callback tagged with the field's id;
- the field renderer picks the control for the field's type, turns an input
  event into the field's new value (the checkbox list is appended to or
  filtered), and runs a per-keystroke format check whose local error is shown
  ahead of the form's error.

Files and modules:

- `form_types.dfy`, module `FormTypes`: schema, field and value datatypes, and
  JavaScript truthiness of strings and values. The TypeScript declarations in
  `src/types/form` are not part of this model; the datatypes follow how the
  components use them.
- `text_util.dfy`, module `TextUtil`: the JavaScript `trim` (stripping a fixed
  set of whitespace characters) and the decimal rendering of a length limit.
- `field_renderer.dfy`, module `FieldRenderer`: `src/components/FormField.tsx`.
  The format check, the value update, the control choice and the displayed
  error are functions. The component's `localError` state is a class.
- `section_renderer.dfy`, module `SectionRenderer`:
  `src/components/FormSection.tsx`, as pure functions.
- `form_engine.dfy`, module `FormEngine`: `src/components/DynamicForm.tsx`.
  The rule chain and the error map it builds are specification functions. The
  `forEach` of `validateSection` is a method with a loop. The component is the
  class `DynamicForm`, with one method per handler.
- `scenarios.dfy`, module `FormScenarios`: client code that drives the three
  layers together as the page does.

Where the design description and the code disagree, the model follows the code:

- Ticking a checkbox appends the option to the list; it is not a set union.
  The same option reported ticked twice would be listed twice.
- The required rule treats a stored `""` as missing, because `""` is falsy in
  JavaScript. An empty list is also missing. Any other list, even one whose
  items are empty strings, is present.
- A limit of `0` (or no limit) never fires, because `0` is falsy.

## Model

| member | source | states |
|---|---|---|
| `TextUtil.TrimIsInnerSlice` | src/components/FormField.tsx:21 | `trim` returns the slice of its input between the leading and trailing whitespace it cuts off, and the result neither starts nor ends with whitespace |
| `TextUtil.TrimPadded` | src/components/FormField.tsx:21 | any whitespace padding around a word that starts and ends with a non-space is removed exactly |
| `TextUtil.TrimIdempotent` | src/components/FormField.tsx:21 | trimming twice is the same as trimming once |
| `TextUtil.NatToStringRoundTrip` | src/components/DynamicForm.tsx:48-50 | the limit written into a length message reads back as that limit (decimal, no sign) |
| `TextUtil.NatToStringInjective` | src/components/DynamicForm.tsx:48-50 | different limits give different length messages |
| `FieldRenderer.ValidateField` | src/components/FormField.tsx:14-26 | the format check passes iff an email field's value contains '@' and the `city` field's trimmed value has at least 2 characters; a missing '@' in an email field gives the email message, and otherwise a `city` value shorter than 2 once trimmed gives the city message |
| `FieldRenderer.EmailCheckComesFirst` | src/components/FormField.tsx:15-24 | an email value without '@' gets the email message even on the `city` field: the email check returns first |
| `FieldRenderer.LooseEmailCheck` | src/components/FormField.tsx:15-19 | "foo" fails an email field and "foo@bar" passes, although it has no ".com" |
| `FieldRenderer.CityTooShortOnceTrimmed` | src/components/FormField.tsx:20-25 | for `city`, " a " fails with the city message: only the trimmed length counts |
| `FieldRenderer.CityLongEnoughOnceTrimmed` | src/components/FormField.tsx:20-25 | for `city`, " ab " passes: two characters once trimmed are enough |
| `FieldRenderer.Without` | src/components/FormField.tsx:40 | unticking keeps exactly the elements that differ from the option, and never lengthens the list |
| `FieldRenderer.WithoutConcat` | src/components/FormField.tsx:40 | filtering a concatenation filters each part, so the kept elements keep their order |
| `FieldRenderer.WithoutAbsent` | src/components/FormField.tsx:40 | filtering out an option that is not in the list returns the list unchanged |
| `FieldRenderer.WithoutMultiset` | src/components/FormField.tsx:40 | filtering removes every copy of the option and keeps every other element as often as before |
| `FieldRenderer.NewValue` | src/components/FormField.tsx:34-44 | a checkbox change reports the current list (or `[]` if the value is not a list) with the option appended when ticked, or, when unticked, that list `Without` the option (every copy removed, the rest in order); every other type reports the raw input string |
| `FieldRenderer.TickUntickRestores` | src/components/FormField.tsx:36-40 | ticking an option not in the list and then unticking it gives back the original list |
| `FieldRenderer.TickTickUntick` | src/components/FormField.tsx:36-40 | from no selection, ticking a, ticking b, then unticking a leaves `[b]` |
| `FieldRenderer.DisplayedError` | src/components/FormField.tsx:145-146 | a message is shown iff the local or the passed-down error is non-empty, and the local error wins when both are |
| `FieldRenderer.InputType` | src/components/FormField.tsx:118-119 | a plain input's type is the field's type when it is text/email/tel/date/number/password/url, and "text" otherwise |
| `FieldRenderer.Render` | src/components/FormField.tsx:47-136 | textarea, dropdown, radio and checkbox get their own controls and every other type a plain input. There is one radio button or checkbox per schema option, in order. A radio button is on iff the value equals its option. A checkbox is on iff the value is a list containing its option |
| `FieldRenderer.UnknownTypeIsText` | src/components/FormField.tsx:117-119 | a field of any type outside the switch's cases and the allowed input types is shown as a text input, whatever its value |
| `FieldRenderer.TickedBoxShowsChecked` | src/components/FormField.tsx:102-107 | after a tick the option's box renders on, and after an untick it renders off |
| `FieldRenderer.FieldComponent.constructor` | src/components/FormField.tsx:12 | a field starts with no local error |
| `FieldRenderer.FieldComponent.HandleChange` | src/components/FormField.tsx:28-45 | the local error becomes the format check's result on the input's value, and the emitted value is that of `NewValue` |
| `FieldRenderer.FieldComponent.Shown` | src/components/FormField.tsx:145-146 | the message shown under the field is `localError || error` as `DisplayedError` states it: the local error when non-empty, else the passed-down error when non-empty, else nothing |
| `SectionRenderer.ValueFor` | src/components/FormSection.tsx:28 | a field receives its stored value when present and truthy, else `[]` for a checkbox group and `""` for anything else |
| `SectionRenderer.ErrorFor` | src/components/FormSection.tsx:30 | a field receives the entry under its own id, or none when absent |
| `SectionRenderer.RenderSection` | src/components/FormSection.tsx:24-32 | one entry per schema field, in schema order. Each entry gets its own value and its own error. Each change is forwarded as `(fieldId, value)` with the field's own id |
| `SectionRenderer.MissingOrFalsyValueDefaults` | src/components/FormSection.tsx:28 | a missing value, or a stored `""`, reaches a checkbox group as `[]` and any other field as `""` |
| `SectionRenderer.StoredEmptyListIsKept` | src/components/FormSection.tsx:28 | a stored `[]` is truthy and is handed down as it is |
| `SectionRenderer.ErrorIsLocal` | src/components/FormSection.tsx:30 | adding or removing another id's error does not change the error a field receives |
| `FormEngine.MessageOr` | src/components/DynamicForm.tsx:46-50 | the custom validation message is used when it is non-empty, else the rule's default message |
| `FormEngine.FieldError` | src/components/DynamicForm.tsx:45-51 | a field has no error iff none of the three rules fires, and any error is a non-empty message |
| `FormEngine.RequiredMissingFails` | src/components/DynamicForm.tsx:45-46 | a required field whose value is missing, `""` or `[]` gets the custom message or "This field is required" |
| `FormEngine.MinLengthBoundary` | src/components/DynamicForm.tsx:47-48 | with minimum m > 0 and the required rule passing, a string shorter than m gets the minimum message ("Minimum length is m characters" by default). A string of length m or more is stopped by this rule no longer: it fails only if the maximum rule fires |
| `FormEngine.MaxLengthOver` | src/components/DynamicForm.tsx:49-50 | with maximum M > 0 and the earlier rules passing, a string longer than M gets the maximum message ("Maximum length is M characters" by default) |
| `FormEngine.ListsAreNotMeasured` | src/components/DynamicForm.tsx:45-50 | a list value fails only the required rule, and only when it is empty; its length is never checked against the limits |
| `FormEngine.FieldErrorIsFirstFailure` | src/components/DynamicForm.tsx:42-52 | the if/else-if chain equals first-match-wins over the rule list required, minimum, maximum: at most one message per field, from the first rule that fires |
| `FormEngine.SectionErrors` | src/components/DynamicForm.tsx:40-52 | every message a validation pass writes is non-empty |
| `FormEngine.SectionErrorsKeys` | src/components/DynamicForm.tsx:42-54 | after validation the error map holds an id iff some field of the section with that id fails; passing fields get no entry |
| `FormEngine.SectionErrorsAt` | src/components/DynamicForm.tsx:42-54 | with distinct ids, each field of the section has an entry iff it fails, and the entry is that field's own message |
| `FormEngine.SectionErrorsEmpty` | src/components/DynamicForm.tsx:54-55 | the error map is empty iff every field of the section passes |
| `FormEngine.CollectErrors` | src/components/DynamicForm.tsx:40-52 | the `forEach` loop builds exactly the error map of the section's validation pass |
| `FormEngine.EditedFieldRendersNewValue` | src/components/DynamicForm.tsx:58-71 | after an edit, the section shows the field's new value (or its empty value for `""`) and no error for it |
| `FormEngine.DynamicForm.constructor` | src/components/DynamicForm.tsx:10-16 | the loaded form starts with no values, no errors, section 0 and not submitted |
| `FormEngine.DynamicForm.CurrentView` | src/components/DynamicForm.tsx:137-172 | the page renders the current section's fields with the form's values and errors |
| `FormEngine.DynamicForm.ValidateSection` | src/components/DynamicForm.tsx:39-56 | the whole error map is replaced by the section's failures; the result is true iff that map is empty, iff every field passes |
| `FormEngine.DynamicForm.HandleFieldChange` | src/components/DynamicForm.tsx:58-71 | `formData[id]` becomes the value and every other key is unchanged. `errors[id]` is removed and every other error is unchanged |
| `FormEngine.DynamicForm.HandleNext` | src/components/DynamicForm.tsx:73-85 | the errors become the current section's failures. On failure the index and the submitted flag are unchanged. On success from the last section the form is submitted and the index stays. Otherwise the index goes up by exactly 1 |
| `FormEngine.DynamicForm.HandlePrev` | src/components/DynamicForm.tsx:87-89 | the index goes down by exactly 1 with no validation and no change to errors or values, and stays within the sections |
| `FormEngine.DynamicForm.PressNext` | src/components/DynamicForm.tsx:121-135 | before submission a press of Next acts exactly as `HandleNext`; once submitted, the success screen has no buttons, so the state stays submitted and nothing else changes |
| `FormEngine.DynamicForm.PressPrev` | src/components/DynamicForm.tsx:176-183 | Previous does nothing on the first section (the button is disabled) or after submission; otherwise it moves back one section |
| `FormScenarios.Edit` | src/components/FormSection.tsx:28-30 | an input event on field i of the current section is stored under that field's own id as the field renderer's new value, computed from the value the section handed down. The field's error is cleared and its local error set |

## Left out

- Loading the schema: the session-token check, the fetch, and the loading and
  error screens are network I/O and navigation. The model starts from a loaded
  schema, a read-only value given to the constructor. So the `!formStructure`
  early return of `handleNext` is never reached.
- `FormEngine.DynamicForm.constructor` requires at least one section. With none,
  the source would index past the end of the list and fail while rendering.
- `FormEngine.DynamicForm.HandlePrev` requires a current section above 0. The
  handler has no guard of its own; the source relies on the Previous button
  being disabled on the first section, and `PressPrev` models that button.
- Submission hand-off: writing the values to the console is output and is not
  modelled. `isSubmitted` becoming true is.
- Return to login, and the removal of the stored session keys, are session
  storage and navigation. The login form and the HTTP client are out of scope.
  The "Try Again" full page reload is also left out.
- Rendering details are not modelled: the progress bar width (a floating-point
  percentage), labels, styling and the `required`, `minLength` and `maxLength`
  HTML attributes (the browser's own constraint checks). Test ids are left out
  too.
- React's state updates are queued and applied at the next render. The model
  applies each handler's updates at once, and each handler runs to completion
  before the next event; `handleFieldChange` reads `errors` from the same render
  it updates, which this order preserves.
- A field component's local error is kept while the component stays mounted;
  which components React reuses across sections is not modelled.
- String length is the number of Unicode scalar values. JavaScript counts UTF-16
  code units, so the two differ for characters outside the Basic Multilingual
  Plane.
- Length limits are natural numbers. Negative or fractional limits in a schema
  are not represented.
- NatToString: matches `${n}` only for the limits the model assumes, those
  below 2^53. A JavaScript number holds integers exactly only up to 2^53, and
  a template literal writes numbers of 10^21 and more in exponent form
  (`1e+21`); `NatToString` is unbounded and always writes plain decimal digits.
