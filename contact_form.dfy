/**
 * The `ContactForm` component's state: the four-field form record and the
 * submission feedback (`isSubmitting`, `message`, `isError`), changed by the
 * input-change and submit handlers.
 */
module ContactForm {
  import opened Retry
  import opened Reply

  /** The `name` attributes of the form's inputs. */
  datatype Field = Name | Email | Subject | Message

  datatype FormData = FormData(name: string, email: string, subject: string, message: string)
  {
    function Get(f: Field): string
    {
      match f
      case Name => name
      case Email => email
      case Subject => subject
      case Message => message
    }

    /** The spread update `{ ...formData, [f]: v }`. */
    function With(f: Field, v: string): (r: FormData)
      ensures r.Get(f) == v
      ensures forall g :: g != f ==> r.Get(g) == Get(g)
    {
      match f
      case Name => this.(name := v)
      case Email => this.(email := v)
      case Subject => this.(subject := v)
      case Message => this.(message := v)
    }
  }

  /** Typing a field's previous value back undoes an edit. */
  lemma WithUndone(form: FormData, f: Field, v: string)
    ensures form.With(f, v).With(f, form.Get(f)) == form
  {
  }

  const EmptyForm := FormData("", "", "", "")

  const FailureMessage := "Failed to send your message. Please try again later."

  /** Attempts and base delay `handleSubmit` leaves at their defaults. */
  const Retries := 5
  const BaseDelay := 100

  /** The submission feedback as the page shows it at one moment. */
  datatype Feedback = Feedback(isSubmitting: bool, message: string, isError: bool)

  /** The parts of the form the prompt embeds. */
  datatype PromptInput = PromptInput(name: string, message: string)

  class ContactFormState {
    var formData: FormData
    var isSubmitting: bool
    var message: string
    var isError: bool

    /** A fact about every reachable state, kept by each handler (no
        contract needs it): between events no submission is in flight, and
        an error always carries the failure notice. */
    predicate Valid()
      reads this
    {
      !isSubmitting && (isError ==> message == FailureMessage)
    }

    constructor ()
      ensures Valid()
      ensures formData == EmptyForm && !isSubmitting && message == "" && !isError
    {
      formData := EmptyForm;
      isSubmitting := false;
      message := "";
      isError := false;
    }

    /** `handleChange`: only the edited field takes the new value. */
    method HandleChange(field: Field, value: string)
      requires Valid()
      modifies this
      ensures Valid()
      ensures formData.Get(field) == value
      ensures forall g :: g != field ==> formData.Get(g) == old(formData).Get(g)
      ensures isSubmitting == old(isSubmitting) && message == old(message) && isError == old(isError)
    {
      formData := formData.With(field, value);
    }

    /**
     * `handleSubmit`. `attempts` is what each request attempt would yield;
     * `inFlight` is the feedback shown while the request is awaited and
     * `sent` what the prompt was built from.
     */
    method HandleSubmit(attempts: seq<Attempt<GenerateResponse>>)
      returns (ghost inFlight: Feedback, ghost sent: PromptInput)
      requires Valid()
      requires Retries <= |attempts|
      modifies this
      ensures Valid()
      ensures inFlight == Feedback(true, "", false)
      ensures sent == PromptInput(old(formData).name, old(formData).message)
      ensures !isSubmitting
      ensures isError <==> forall j :: 0 <= j < Retries ==> !attempts[j].Ok?
      ensures isError ==> message == FailureMessage && formData == old(formData)
      ensures !isError ==>
        var k := FirstOk(attempts[..Retries]).value;
        message == ExtractReply(attempts[k].body) && formData == EmptyForm
    {
      isSubmitting := true;
      message := "";
      isError := false;
      inFlight := Feedback(isSubmitting, message, isError);

      sent := PromptInput(formData.name, formData.message);
      var result, tried, sleeps := CallApiWithRetry(attempts, Retries, BaseDelay);
      match result {
        case Returned(body) =>
          message := ExtractReply(body);
          formData := EmptyForm;
        case Thrown(_) =>
          isError := true;
          message := FailureMessage;
      }
      isSubmitting := false;
    }
  }
}
