/**
 * The notebook name dialog (components/notebook/NotebookForm.tsx). `handleSubmit` is split
 * at its `await`: `BeginSubmit` validates and hands the trimmed name to `onSubmit`, and
 * `FinishSubmit` takes that call's outcome and runs the rest, `finally` included. `open`
 * stands for the parent's dialog flag that `onOpenChange(false)` clears.
 */
module NotebookForm {
  import opened Wrappers
  import opened Text
  import opened Records

  /** The submit button is disabled exactly when the trimmed name is empty or a submit runs. */
  function SubmitDisabled(name: string, isSubmitting: bool): (disabled: bool)
    ensures disabled <==> IsBlank(name) || isSubmitting
  {
    Trim(name) == "" || isSubmitting
  }

  class Form {
    var name: string
    var isSubmitting: bool
    var open: bool

    constructor (initialName: string, open: bool)
      ensures name == initialName && !isSubmitting && this.open == open
    {
      name, isSubmitting, this.open := initialName, false, open;
    }

    /** The input's `onChange`. */
    method Type(value: string)
      modifies this
      ensures name == value && isSubmitting == old(isSubmitting) && open == old(open)
    {
      name := value;
    }

    /**
     * The part of `handleSubmit` before the `await`: a blank name is ignored; otherwise the
     * form is submitting and `onSubmit` receives the name without surrounding white space.
     */
    method BeginSubmit() returns (sent: Option<string>)
      modifies this
      ensures IsBlank(old(name)) ==> sent.None? && unchanged(this)
      ensures !IsBlank(old(name)) ==>
        && sent == Some(Trim(old(name)))
        && isSubmitting && name == old(name) && open == old(open)
      ensures sent.Some? ==>
        sent.value != "" && !IsSpace(sent.value[0]) && !IsSpace(sent.value[|sent.value| - 1])
    {
      var trimmed := Trim(name);
      if trimmed == "" {
        return None;
      }
      isSubmitting := true;
      sent := Some(trimmed);
    }

    /**
     * The rest of `handleSubmit`: on success the name is cleared and the dialog closed, on
     * failure both stay; in every case the form stops submitting.
     */
    method FinishSubmit(outcome: Result<Unit, StorageError>)
      modifies this
      ensures !isSubmitting
      ensures outcome.Ok? ==> name == "" && !open
      ensures outcome.Err? ==> name == old(name) && open == old(open)
    {
      if outcome.Ok? {
        name := "";
        open := false;
      }
      isSubmitting := false;
    }
  }

  /** A button that is enabled always submits a name; while submitting it is disabled. */
  lemma EnabledButtonSubmits(name: string, isSubmitting: bool)
    ensures !SubmitDisabled(name, isSubmitting) ==> Trim(name) != "" && !isSubmitting
    ensures isSubmitting ==> SubmitDisabled(name, isSubmitting)
  {
  }
}
