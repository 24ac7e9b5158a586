/** The entry form that reports failure with an alert (`UpdateData`). */
module UpdateData {
  import opened Collections
  import opened EntryForm

  /** The text of the failure alert. */
  const FailureAlert: string := "提交失败，请稍后重试"

  class UpdateDataView {
    var formData: FormData
    var loading: bool
    var previewUrl: Option<string>
    /** The alerts shown so far, oldest first. */
    var alerts: seq<string>

    constructor ()
      ensures formData == Blank && !loading && previewUrl.None? && alerts == []
    {
      formData := Blank;
      loading := false;
      previewUrl := None;
      alerts := [];
    }

    /** `handleInputChange`: only the named field changes. */
    method InputChange(name: string, value: string)
      requires name in TextFields
      modifies this
      ensures formData == WithText(old(formData), name, value)
      ensures loading == old(loading) && previewUrl == old(previewUrl) && alerts == old(alerts)
    {
      formData := WithText(formData, name, value);
    }

    /** `handleFileChange`: with a file, the poster and the preview change. */
    method FileChange(file: Option<string>, url: string)
      modifies this
      ensures file.None? ==> formData == old(formData) && previewUrl == old(previewUrl)
      ensures file.Some? ==> formData == WithPoster(old(formData), file.value) && previewUrl == Some(url)
      ensures loading == old(loading) && alerts == old(alerts)
    {
      if file.Some? {
        formData := WithPoster(formData, file.value);
        previewUrl := Some(url);
      }
    }

    /** The synchronous part of `handleSubmit`: the spinner on, and the parts to post. */
    method BeginSubmit() returns (parts: seq<(string, Value)>)
      modifies this
      ensures loading
      ensures parts == Payload(formData)
      ensures formData == old(formData) && previewUrl == old(previewUrl) && alerts == old(alerts)
    {
      loading := true;
      parts := BuildPayload(formData);
    }

    /** After the request: on success the form and the preview are cleared;
        when it throws, one alert and the input kept; the spinner goes off. */
    method FinishSubmit(outcome: Outcome)
      modifies this
      ensures !loading
      ensures outcome == Accepted ==> formData == Blank && previewUrl.None? && alerts == old(alerts)
      ensures outcome == Declined ==> formData == old(formData) && previewUrl == old(previewUrl) && alerts == old(alerts)
      ensures outcome == Failed ==> formData == old(formData) && previewUrl == old(previewUrl) && alerts == old(alerts) + [FailureAlert]
    {
      match outcome {
        case Accepted =>
          formData := Blank;
          previewUrl := None;
        case Declined =>
        case Failed =>
          alerts := alerts + [FailureAlert];
      }
      loading := false;
    }
  }
}
