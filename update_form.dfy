/** The entry form with the waving-hand error overlay (`UpdateForm`). */
module UpdateForm {
  import opened Collections
  import opened EntryForm

  class UpdateFormView {
    var formData: FormData
    var loading: bool
    /** The object URL of the chosen poster. */
    var previewUrl: Option<string>
    var showError: bool

    constructor ()
      ensures formData == Blank && !loading && previewUrl.None? && !showError
    {
      formData := Blank;
      loading := false;
      previewUrl := None;
      showError := false;
    }

    /** `handleInputChange`: only the named field changes. */
    method InputChange(name: string, value: string)
      requires name in TextFields
      modifies this
      ensures formData == WithText(old(formData), name, value)
      ensures loading == old(loading) && previewUrl == old(previewUrl) && showError == old(showError)
    {
      formData := WithText(formData, name, value);
    }

    /** `handleFileChange`: with a file, the poster and the preview change;
        without one (the picker was cancelled), nothing does. `url` is what
        `URL.createObjectURL` returns. */
    method FileChange(file: Option<string>, url: string)
      modifies this
      ensures file.None? ==> formData == old(formData) && previewUrl == old(previewUrl)
      ensures file.Some? ==> formData == WithPoster(old(formData), file.value) && previewUrl == Some(url)
      ensures loading == old(loading) && showError == old(showError)
    {
      if file.Some? {
        formData := WithPoster(formData, file.value);
        previewUrl := Some(url);
      }
    }

    /** The synchronous part of `handleSubmit`: the spinner on, the overlay
        off, and the parts to post. */
    method BeginSubmit() returns (parts: seq<(string, Value)>)
      modifies this
      ensures loading && !showError
      ensures parts == Payload(formData)
      ensures formData == old(formData) && previewUrl == old(previewUrl)
    {
      loading := true;
      showError := false;
      parts := BuildPayload(formData);
    }

    /** The part after the request settles: on success the form and the
        preview are cleared; when the request throws the overlay shows and
        the input is kept; either way the spinner goes off. */
    method FinishSubmit(outcome: Outcome)
      modifies this
      ensures !loading
      ensures outcome == Accepted ==> formData == Blank && previewUrl.None? && showError == old(showError)
      ensures outcome == Declined ==> formData == old(formData) && previewUrl == old(previewUrl) && showError == old(showError)
      ensures outcome == Failed ==> formData == old(formData) && previewUrl == old(previewUrl) && showError
    {
      match outcome {
        case Accepted =>
          formData := Blank;
          previewUrl := None;
        case Declined =>
        case Failed =>
          showError := true;
      }
      loading := false;
    }

    /** The timer two seconds after a failure hides the overlay. */
    method ErrorTimeout()
      modifies this
      ensures !showError
      ensures formData == old(formData) && loading == old(loading) && previewUrl == old(previewUrl)
    {
      showError := false;
    }
  }

  /** A successful round leaves a blank form, which would post nothing. */
  method SubmitRound(v: UpdateFormView, outcome: Outcome) returns (parts: seq<(string, Value)>)
    modifies v
    ensures parts == Payload(old(v.formData))
    ensures !v.loading
    ensures outcome == Accepted ==> v.formData == Blank && Payload(v.formData) == []
    ensures outcome != Accepted ==> v.formData == old(v.formData)
  {
    parts := v.BeginSubmit();
    v.FinishSubmit(outcome);
    if outcome == Accepted {
      BlankPayload();
    }
  }
}
