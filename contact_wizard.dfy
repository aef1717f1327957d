// The three-step contact wizard of `components/Contact.tsx`: its state, the per-step checks,
// the navigation rules, submission, reset and the Escape key.

module ContactWizard {
  import opened Wrappers
  import opened JsText
  import ClientEmail

  const TotalSteps: int := 3

  /** The form's four fields; `honeypot` is the hidden field that only a bot would fill. */
  datatype FormData = FormData(name: string, email: string, message: string, honeypot: string)

  const EmptyForm := FormData("", "", "", "")

  const InvalidEmailText := "Please enter a valid email address"
  const GenericSubmitText := "Failed to send message. Please try again later."
  const NoServerText := "Cannot connect to server. Make sure the server is running."
  const NetworkText := "Network error. Please check your connection and try again."

  /** What `validateStep(step)` answers for the given form contents. */
  predicate StepValid(fd: FormData, step: int) {
    if step == 1 then !IsBlank(fd.name)
    else if step == 2 then !IsBlank(fd.email) && ClientEmail.IsValidEmail(fd.email)
    else if step == 3 then !IsBlank(fd.message)
    else true
  }

  /** `validateStep` raises the email popup only for a non-blank email of the wrong shape. */
  predicate EmailFormatRejected(fd: FormData, step: int) {
    step == 2 && !IsBlank(fd.email) && !ClientEmail.IsValidEmail(fd.email)
  }

  /** `canProceed`, evaluated at `step`. */
  predicate CanProceed(fd: FormData, step: int) {
    if step == 1 then !IsBlank(fd.name)
    else if step == 2 then !IsBlank(fd.email) && ClientEmail.IsValidEmail(fd.email)
    else if step == 3 then !IsBlank(fd.message)
    else false
  }

  /** `canNavigateToStep`. */
  predicate CanNavigateToStep(fd: FormData, step: int) {
    if step == 1 then true
    else if step == 2 then !IsBlank(fd.name)
    else if step == 3 then !IsBlank(fd.name) && !IsBlank(fd.email) && ClientEmail.IsValidEmail(fd.email)
    else false
  }

  /** On the wizard's three steps `canProceed` is `validateStep`; off them it refuses. */
  lemma CanProceedIsValidateStep(fd: FormData, step: int)
    ensures 1 <= step <= TotalSteps ==> (CanProceed(fd, step) <==> StepValid(fd, step))
    ensures !(1 <= step <= TotalSteps) ==> !CanProceed(fd, step)
  {
  }

  /** A step is reachable through `canNavigateToStep` exactly when every earlier step validates. */
  lemma CanNavigateIffEarlierStepsValid(fd: FormData, target: int)
    requires 1 <= target <= TotalSteps
    ensures CanNavigateToStep(fd, target) <==> forall s | 1 <= s < target :: StepValid(fd, s)
  {
    if CanNavigateToStep(fd, target) {
      forall s | 1 <= s < target ensures StepValid(fd, s) {
        assert s == 1 || s == 2;
      }
    }
    if forall s | 1 <= s < target :: StepValid(fd, s) {
      if target >= 2 {
        assert StepValid(fd, 1);
      }
      if target == 3 {
        assert StepValid(fd, 2);
      }
    }
  }

  /** The submit button's `disabled` test, negated: enabled only when the step in view
      validates and no submission is in flight. */
  function SubmitButtonEnabled(fd: FormData, step: int, isSubmitting: bool): (r: bool)
    ensures r <==> 1 <= step <= TotalSteps && StepValid(fd, step) && !isSubmitting
  {
    CanProceed(fd, step) && !isSubmitting
  }

  /** How the `fetch` of the send-email route ended: a parsed response (`response.ok`, the truthiness
      of `data.success`, and `data.error`), or a thrown error and its `message`. */
  datatype ServerReply =
    | Replied(ok: bool, success: bool, error: Option<string>)
    | Threw(message: Option<string>)

  predicate Succeeded(reply: ServerReply) {
    reply.Replied? && reply.ok && reply.success
  }

  /** The text put under `errors.submit` when a submission did not succeed. */
  function SubmitErrorText(reply: ServerReply): (r: string)
    requires !Succeeded(reply)
    ensures r != []
    ensures reply.Replied? && reply.error.Some? && reply.error.value != [] ==> r == reply.error.value
    ensures reply.Replied? && (reply.error.None? || reply.error.value == []) ==> r == GenericSubmitText
    ensures reply.Threw? && reply.message.Some? && Contains(reply.message.value, "fetch") ==> r == NoServerText
    ensures reply.Threw? && reply.message.Some? && reply.message.value != [] && !Contains(reply.message.value, "fetch") ==>
      r == "Error: " + reply.message.value
    ensures reply.Threw? && (reply.message.None? || reply.message.value == []) ==> r == NetworkText
  {
    match reply
    case Replied(_, _, error) =>
      if error.Some? && error.value != [] then error.value else GenericSubmitText
    case Threw(message) =>
      if message.Some? && Contains(message.value, "fetch") then NoServerText
      else if message.Some? && message.value != [] then "Error: " + message.value
      else NetworkText
  }

  /** An error text is on screen under `key` when the object holds a non-empty string there. */
  predicate ErrorShown(errors: map<string, string>, key: string) {
    key in errors && errors[key] != ""
  }

  /** The `Contact` component's state. */
  class ContactForm {
    var isStarted: bool
    var currentStep: int
    var formData: FormData
    var errors: map<string, string>
    var isSubmitting: bool
    var showEmailError: bool
    var showSuccess: bool

    /** The step stays within the wizard and nothing ever fills the hidden field. */
    ghost predicate Valid()
      reads this
    {
      1 <= currentStep <= TotalSteps && formData.honeypot == ""
    }

    /** The initial `useState` values. */
    constructor ()
      ensures Valid()
      ensures !isStarted && currentStep == 1 && formData == EmptyForm && errors == map[]
      ensures !isSubmitting && !showEmailError && !showSuccess
    {
      isStarted := false;
      currentStep := 1;
      formData := EmptyForm;
      errors := map[];
      isSubmitting := false;
      showEmailError := false;
      showSuccess := false;
    }

    /** `handleStart`. */
    method Start()
      requires Valid()
      modifies this`isStarted, this`currentStep
      ensures Valid()
      ensures isStarted && currentStep == 1
    {
      isStarted := true;
      currentStep := 1;
    }

    /** `validateStep(step)`: on success the errors are cleared; on failure it returns before
        touching them. Only a badly shaped, non-blank email raises the popup. */
    method ValidateStep(step: int) returns (ok: bool)
      requires Valid()
      modifies this`errors, this`showEmailError
      ensures Valid()
      ensures ok == StepValid(formData, step)
      ensures errors == if ok then map[] else old(errors)
      ensures showEmailError == (old(showEmailError) || EmailFormatRejected(formData, step))
    {
      if step == 1 {
        if IsBlank(formData.name) {
          return false;
        }
      }
      if step == 2 {
        if IsBlank(formData.email) {
          return false;
        }
        if !ClientEmail.IsValidEmail(formData.email) {
          showEmailError := true;
          return false;
        }
      }
      if step == 3 {
        if IsBlank(formData.message) {
          return false;
        }
      }
      errors := map[];
      return true;
    }

    /** `handleNext`: one step forward when the current step validates and is not the last. */
    method Next()
      requires Valid()
      modifies this`errors, this`showEmailError, this`currentStep
      ensures Valid()
      ensures var valid := StepValid(formData, old(currentStep));
        && currentStep == (if valid && old(currentStep) < TotalSteps then old(currentStep) + 1 else old(currentStep))
        && errors == (if valid then map[] else old(errors))
      ensures showEmailError == (old(showEmailError) || EmailFormatRejected(formData, old(currentStep)))
    {
      var ok := ValidateStep(currentStep);
      if ok && currentStep < TotalSteps {
        currentStep := currentStep + 1;
        errors := map[];
      }
    }

    /** `handlePrevious`: one step back with no validation, never below the first step. */
    method Previous()
      requires Valid()
      modifies this`currentStep
      ensures Valid()
      ensures currentStep == if old(currentStep) > 1 then old(currentStep) - 1 else old(currentStep)
    {
      if currentStep > 1 {
        currentStep := currentStep - 1;
      }
    }

    /** A click on the progress dot of `target`: backwards to any earlier step, or forwards by
        exactly one navigable step, and in both cases only if the current step validates. */
    method DotClick(target: int)
      requires Valid()
      requires 1 <= target <= TotalSteps
      modifies this`errors, this`showEmailError, this`currentStep
      ensures Valid()
      ensures var eligible := target < old(currentStep) ||
                              (target == old(currentStep) + 1 && CanNavigateToStep(formData, target));
        var moved := eligible && StepValid(formData, old(currentStep));
        && currentStep == (if moved then target else old(currentStep))
        && errors == (if moved then map[] else old(errors))
        && showEmailError == (old(showEmailError) || (eligible && EmailFormatRejected(formData, old(currentStep))))
      ensures currentStep <= old(currentStep) + 1
      ensures currentStep > old(currentStep) ==> CanNavigateToStep(formData, currentStep)
      ensures currentStep != old(currentStep) ==> StepValid(formData, old(currentStep))
    {
      if target < currentStep || (target == currentStep + 1 && CanNavigateToStep(formData, target)) {
        var ok := ValidateStep(currentStep);
        if ok {
          currentStep := target;
          errors := map[];
        }
      }
    }

    /** Typing into the name field: the field takes the new text and a shown name error is blanked. */
    method EditName(value: string)
      requires Valid()
      modifies this`formData, this`errors
      ensures Valid()
      ensures formData == old(formData).(name := value)
      ensures errors == if ErrorShown(old(errors), "name") then old(errors)["name" := ""] else old(errors)
    {
      formData := formData.(name := value);
      if ErrorShown(errors, "name") {
        errors := errors["name" := ""];
      }
    }

    /** Typing into the email field: as for the name, and a shown email error also hides the popup. */
    method EditEmail(value: string)
      requires Valid()
      modifies this`formData, this`errors, this`showEmailError
      ensures Valid()
      ensures formData == old(formData).(email := value)
      ensures errors == if ErrorShown(old(errors), "email") then old(errors)["email" := ""] else old(errors)
      ensures showEmailError == (old(showEmailError) && !ErrorShown(old(errors), "email"))
    {
      formData := formData.(email := value);
      if ErrorShown(errors, "email") {
        errors := errors["email" := ""];
        showEmailError := false;
      }
    }

    /** Typing into the message field. */
    method EditMessage(value: string)
      requires Valid()
      modifies this`formData, this`errors
      ensures Valid()
      ensures formData == old(formData).(message := value)
      ensures errors == if ErrorShown(old(errors), "message") then old(errors)["message" := ""] else old(errors)
    {
      formData := formData.(message := value);
      if ErrorShown(errors, "message") {
        errors := errors["message" := ""];
      }
    }

    /** Leaving the email field with a non-blank email of the wrong shape shows the error. */
    method BlurEmail()
      requires Valid()
      modifies this`errors, this`showEmailError
      ensures Valid()
      ensures var rejected := EmailFormatRejected(formData, 2);
        && errors == (if rejected then old(errors)["email" := InvalidEmailText] else old(errors))
        && showEmailError == (old(showEmailError) || rejected)
    {
      if !IsBlank(formData.email) && !ClientEmail.IsValidEmail(formData.email) {
        errors := errors["email" := InvalidEmailText];
        showEmailError := true;
      }
    }

    /** The popup's close button. */
    method DismissEmailError()
      requires Valid()
      modifies this`showEmailError
      ensures Valid()
      ensures !showEmailError
    {
      showEmailError := false;
    }

    /** The effect of `handleSubmit` up to the `fetch`, from the state before it to the state after:
        on the last step a valid message marks the form as submitting and yields the payload to
        post; before the last step it is `handleNext`. */
    twostate predicate Submitted(new payload: Option<FormData>)
      reads this
    {
      && (old(currentStep) == TotalSteps ==>
        var valid := StepValid(formData, TotalSteps);
        && currentStep == TotalSteps
        && errors == (if valid then map[] else old(errors))
        && showEmailError == old(showEmailError)
        && isSubmitting == (valid || old(isSubmitting))
        && payload == (if valid then Some(formData) else None))
      && (old(currentStep) != TotalSteps ==>
        var valid := StepValid(formData, old(currentStep));
        && currentStep == (if valid then old(currentStep) + 1 else old(currentStep))
        && errors == (if valid then map[] else old(errors))
        && showEmailError == (old(showEmailError) || EmailFormatRejected(formData, old(currentStep)))
        && isSubmitting == old(isSubmitting)
        && payload == None)
    }

    /** `handleSubmit` up to the `fetch`. */
    method Submit() returns (payload: Option<FormData>)
      requires Valid()
      modifies this`errors, this`showEmailError, this`currentStep, this`isSubmitting
      ensures Valid()
      ensures Submitted(payload)
      ensures payload.Some? ==> payload.value.honeypot == "" && !IsBlank(payload.value.message)
    {
      if currentStep == TotalSteps {
        var ok := ValidateStep(currentStep);
        if ok {
          isSubmitting := true;
          return Some(formData);
        }
        return None;
      }
      Next();
      return None;
    }

    /** `handleSubmit` after the `fetch` settles: success empties the form and returns to the first
        step behind the success panel; anything else leaves the form as it was and shows an error
        under `submit`. Either way the form is no longer submitting. */
    method FinishSubmit(reply: ServerReply)
      requires Valid()
      modifies this`errors, this`formData, this`currentStep, this`isSubmitting, this`showSuccess
      ensures Valid()
      ensures !isSubmitting
      ensures Succeeded(reply) ==>
        showSuccess && formData == EmptyForm && currentStep == 1 && errors == map[]
      ensures !Succeeded(reply) ==>
        && showSuccess == old(showSuccess) && formData == old(formData) && currentStep == old(currentStep)
        && errors == map["submit" := SubmitErrorText(reply)]
    {
      if Succeeded(reply) {
        showSuccess := true;
        formData := EmptyForm;
        currentStep := 1;
        errors := map[];
      } else {
        errors := map["submit" := SubmitErrorText(reply)];
      }
      isSubmitting := false;
    }

    /** `handleKeyPress`: Enter without Shift submits; any other key does nothing. */
    method KeyPress(key: string, shift: bool) returns (payload: Option<FormData>)
      requires Valid()
      modifies this`errors, this`showEmailError, this`currentStep, this`isSubmitting
      ensures Valid()
      ensures !(key == "Enter" && !shift) ==>
        && payload == None && errors == old(errors) && showEmailError == old(showEmailError)
        && currentStep == old(currentStep) && isSubmitting == old(isSubmitting)
      ensures key == "Enter" && !shift ==> Submitted(payload)
      ensures payload.Some? ==> key == "Enter" && old(currentStep) == TotalSteps && StepValid(formData, TotalSteps)
    {
      if key == "Enter" && !shift {
        payload := Submit();
      } else {
        payload := None;
      }
    }

    /** `handleReset`: back to the greeting with an empty form, dismissing the success panel. */
    method Reset()
      requires Valid()
      modifies this`isStarted, this`currentStep, this`formData, this`errors, this`isSubmitting, this`showSuccess
      ensures Valid()
      ensures !isStarted && currentStep == 1 && formData == EmptyForm && errors == map[]
      ensures !isSubmitting && !showSuccess
    {
      isStarted := false;
      currentStep := 1;
      formData := EmptyForm;
      errors := map[];
      isSubmitting := false;
      showSuccess := false;
    }

    /** The `keydown` listener: Escape after starting resets like `handleReset` but leaves the
        success panel as it is. */
    method KeyDown(key: string)
      requires Valid()
      modifies this`isStarted, this`currentStep, this`formData, this`errors, this`isSubmitting
      ensures Valid()
      ensures key == "Escape" && old(isStarted) ==>
        !isStarted && currentStep == 1 && formData == EmptyForm && errors == map[] && !isSubmitting
      ensures !(key == "Escape" && old(isStarted)) ==>
        && isStarted == old(isStarted) && currentStep == old(currentStep) && formData == old(formData)
        && errors == old(errors) && isSubmitting == old(isSubmitting)
    {
      if key == "Escape" && isStarted {
        isStarted := false;
        currentStep := 1;
        formData := EmptyForm;
        errors := map[];
        isSubmitting := false;
      }
    }
  }
}
