/**
 * The waitlist form: six text fields edited one at a time, and the submit cycle that
 * posts them and shows success or an error. The request itself is abstracted to what
 * came back from it.
 */
module WaitlistForm {
  import opened JsValues

  /** The six inputs, named as in their `name` attributes. */
  datatype Field = Name | Email | Phone | Amount | Term | Notes

  /** The form's record of field values. */
  datatype WaitlistData = WaitlistData(name: string, email: string, phone: string, amount: string, term: string, notes: string)
  {
    function Get(f: Field): string {
      match f
      case Name => name
      case Email => email
      case Phone => phone
      case Amount => amount
      case Term => term
      case Notes => notes
    }

    /** `{ ...prev, [name]: value }`. */
    function With(f: Field, value: string): (d: WaitlistData)
      ensures d.Get(f) == value
      ensures forall g :: g != f ==> d.Get(g) == Get(g)
    {
      match f
      case Name => this.(name := value)
      case Email => this.(email := value)
      case Phone => this.(phone := value)
      case Amount => this.(amount := value)
      case Term => this.(term := value)
      case Notes => this.(notes := value)
    }
  }

  const EmptyForm: WaitlistData := WaitlistData("", "", "", "", "", "")

  /** Two records with the same value in every field are the same record. */
  lemma FieldsDetermineRecord(a: WaitlistData, b: WaitlistData)
    requires forall f :: a.Get(f) == b.Get(f)
    ensures a == b
  {
    assert a.Get(Name) == b.Get(Name) && a.Get(Email) == b.Get(Email) && a.Get(Phone) == b.Get(Phone);
    assert a.Get(Amount) == b.Get(Amount) && a.Get(Term) == b.Get(Term) && a.Get(Notes) == b.Get(Notes);
  }

  /** Setting a field to the value it already has changes nothing; setting it twice keeps the last value. */
  lemma WithLaws(d: WaitlistData, f: Field, v: string, w: string)
    ensures d.With(f, d.Get(f)) == d
    ensures d.With(f, v).With(f, w) == d.With(f, w)
  {
    FieldsDetermineRecord(d.With(f, d.Get(f)), d);
    FieldsDetermineRecord(d.With(f, v).With(f, w), d.With(f, w));
  }

  /** What the request came back with. */
  datatype FetchResult =
    | Rejected(message: string)                       // the request or the body read threw
    | Responded(contentType: Option<string>, ok: bool, text: string, jsonMessage: Option<string>)

  /** How the submit handler reads a response. */
  datatype Outcome =
    | Failed(message: string)    // the thrown error's message, before the catch's fallback
    | Joined

  const ServerErrorMessage: string := "Server error occurred"
  const FailedMessage: string := "Failed to join waitlist"

  /** A JSON body is read only when the content type contains "application/json". */
  predicate IsJson(contentType: Option<string>)
    ensures IsJson(contentType) ==> contentType.Some? && |contentType.value| >= |"application/json"|
  {
    contentType.Some? && ContainsFrom(contentType.value, "application/json", 0)
  }

  /** A content type with parameters still reads as JSON; HTML and a missing header do not. */
  lemma JsonContentTypes()
    ensures IsJson(Some("application/json; charset=utf-8"))
    ensures !IsJson(Some("text/html"))
    ensures !IsJson(None)
  {
    assert "application/json; charset=utf-8"[0..16] == "application/json";
  }

  /** The try block: a non-JSON body or a response that is not ok throws, otherwise the join succeeded. */
  function Classify(r: FetchResult): (o: Outcome)
    ensures r.Rejected? ==> o == Failed(r.message)
    ensures r.Responded? && !IsJson(r.contentType) ==> o == Failed(OrElse(r.text, ServerErrorMessage))
    ensures r.Responded? && IsJson(r.contentType) && !r.ok ==> o == Failed(OrElse(r.jsonMessage.GetOr(""), FailedMessage))
    ensures o == Joined <==> r.Responded? && IsJson(r.contentType) && r.ok
  {
    match r
    case Rejected(m) => Failed(m)
    case Responded(contentType, ok, text, jsonMessage) =>
      if !IsJson(contentType) then Failed(OrElse(text, ServerErrorMessage))
      else if !ok then Failed(OrElse(jsonMessage.GetOr(""), FailedMessage))
      else Joined
  }

  /** A failure shown after a non-JSON or not-ok response always carries a message. */
  lemma ResponseFailuresHaveMessage(r: FetchResult)
    requires r.Responded? && Classify(r).Failed?
    ensures Classify(r).message != ""
  {
  }

  /** The text of the error banner: the stored message, or a generic one when it is empty. */
  function ErrorBanner(errorMessage: string): (banner: string)
    ensures banner != ""
    ensures errorMessage != "" ==> banner == errorMessage
  {
    OrElse(errorMessage, "Something went wrong. Please try again.")
  }

  /** After a failed submit the stored message is never empty, so the generic banner text never shows. */
  lemma FailureBannerIsSpecific(r: FetchResult)
    requires Classify(r).Failed?
    ensures OrElse(Classify(r).message, FailedMessage) != ""
    ensures ErrorBanner(OrElse(Classify(r).message, FailedMessage)) == OrElse(Classify(r).message, FailedMessage)
  {
  }

  datatype SubmitStatus = Idle | Success | Error

  /** The form component's state. */
  class Form {
    var formData: WaitlistData
    var isSubmitting: bool
    var submitStatus: SubmitStatus
    var errorMessage: string

    constructor ()
      ensures formData == EmptyForm && !isSubmitting && submitStatus == Idle && errorMessage == ""
    {
      formData := EmptyForm;
      isSubmitting := false;
      submitStatus := Idle;
      errorMessage := "";
    }

    /** `handleInputChange`: only the named field takes the new value. */
    method HandleInputChange(name: Field, value: string)
      modifies this
      ensures formData.Get(name) == value
      ensures forall f :: f != name ==> formData.Get(f) == old(formData).Get(f)
      ensures isSubmitting == old(isSubmitting) && submitStatus == old(submitStatus)
      ensures errorMessage == old(errorMessage)
    {
      formData := formData.With(name, value);
    }

    /** The start of `handleSubmit`, before the request is sent. */
    method StartSubmit()
      modifies this
      ensures isSubmitting && submitStatus == Idle
      ensures formData == old(formData) && errorMessage == old(errorMessage)
    {
      isSubmitting := true;
      submitStatus := Idle;
    }

    /**
     * The rest of `handleSubmit` once the request has come back: success clears every
     * field, failure shows the error's message (or the fallback), and in every case
     * the form stops submitting. A success keeps the previous error message.
     */
    method FinishSubmit(r: FetchResult)
      modifies this
      ensures !isSubmitting
      ensures Classify(r) == Joined ==>
                submitStatus == Success && formData == EmptyForm && errorMessage == old(errorMessage)
      ensures Classify(r).Failed? ==>
                && submitStatus == Error && formData == old(formData)
                && errorMessage == OrElse(Classify(r).message, FailedMessage)
    {
      var outcome: Outcome;
      match r {
        case Rejected(m) =>
          outcome := Failed(m);
        case Responded(contentType, ok, text, jsonMessage) =>
          if !IsJson(contentType) {
            outcome := Failed(OrElse(text, ServerErrorMessage));
          } else if !ok {
            outcome := Failed(OrElse(jsonMessage.GetOr(""), FailedMessage));
          } else {
            outcome := Joined;
          }
      }
      if outcome == Joined {
        submitStatus := Success;
        formData := EmptyForm;
      } else {
        submitStatus := Error;
        errorMessage := OrElse(outcome.message, FailedMessage);
      }
      isSubmitting := false;
    }

    /** `handleSubmit` as a whole, for a request that comes back with `r` and no edits in between. */
    method HandleSubmit(r: FetchResult)
      modifies this
      ensures !isSubmitting
      ensures submitStatus == (if Classify(r) == Joined then Success else Error)
      ensures formData == (if Classify(r) == Joined then EmptyForm else old(formData))
      ensures Classify(r) == Joined ==> errorMessage == old(errorMessage)
      ensures Classify(r).Failed? ==> errorMessage == OrElse(Classify(r).message, FailedMessage)
    {
      StartSubmit();
      FinishSubmit(r);
    }
  }
}
