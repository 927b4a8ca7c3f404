/**
 * The two callbacks of the assessment dropdown (app.py,
 * `update_assessment_result` and `toggle_form`): a confirmation message and
 * the style of the request form, both decided by whether a value is selected.
 */
module Assessment {
  import opened Tables
  import opened Text

  const Prompt: string := "You have selected "
  const Instructions: string := ". Fill the form below to request the template."

  /** Python truthiness of the dropdown value: neither None nor the empty string. */
  predicate IsSelected(selected: Option<string>) {
    selected.Some? && selected.value != ""
  }

  /** The message under the dropdown. */
  function UpdateAssessmentResult(selected: Option<string>): (message: string)
    ensures message == "" <==> !IsSelected(selected)
  {
    if IsSelected(selected) then Prompt + selected.value + Instructions else ""
  }

  /** The style dictionary of the request form. */
  function ToggleForm(selected: Option<string>): (style: map<string, string>)
    ensures style.Keys == {"width", "margin", "display"}
    ensures style["width"] == "50%" && style["margin"] == "0 auto"
    ensures style["display"] == (if IsSelected(selected) then "block" else "none")
  {
    if IsSelected(selected) then map["width" := "50%", "margin" := "0 auto", "display" := "block"]
    else map["width" := "50%", "margin" := "0 auto", "display" := "none"]
  }

  /** The message names the selected assessment: it holds the value as a substring. */
  lemma MessageNamesSelection(selected: Option<string>)
    requires IsSelected(selected)
    ensures Contains(UpdateAssessmentResult(selected), selected.value)
  {
    var message := UpdateAssessmentResult(selected);
    assert message[|Prompt|..|Prompt| + |selected.value|] == selected.value;
    assert OccursAt(message, selected.value, |Prompt|);
    ContainsIff(message, selected.value);
  }

  /** The form is shown exactly when a message is shown, and hidden otherwise. */
  lemma FormShownIffMessage(selected: Option<string>)
    ensures ToggleForm(selected)["display"] == "block" <==> UpdateAssessmentResult(selected) != ""
    ensures ToggleForm(selected)["display"] == "none" <==> UpdateAssessmentResult(selected) == ""
  {
  }
}
