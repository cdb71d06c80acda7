/** The admin's "create doctor" form: field edits, the picture upload's size
    guard and removal, and the submit handler's required-field check and
    error text. Image compression and the request itself are outside the
    model; their outcomes are method parameters. */
module CreateDoctor {
  import opened JsText
  import Api

  /** Every field of the form, all `''` at first. */
  const FormFields: set<string> := {"name", "email", "password", "specialty_id", "degree",
    "experience_years", "bio", "location_id", "consultation_fee", "profile_picture"}

  /** The picture is one of the form's fields. */
  lemma PictureIsField()
    ensures "profile_picture" in FormFields
  {
  }

  /** The fields the submit handler insists on, in the order it checks them. */
  const RequiredFields: seq<string> := ["name", "email", "password", "specialty_id", "degree",
    "experience_years", "bio"]

  /** The largest picture accepted before compression: 5 MiB. */
  const MaxUploadBytes := 5 * 1024 * 1024

  /** The texts `handleFileChange` shows when it refuses a picture. */
  const SizeError := "Image size should be less than 5MB"
  const CompressedTooLargeError := "Image is too large even after compression. Please choose a smaller image."
  const CompressionError := "Failed to process image. Please try another one."

  /** `!formData[field]`: an absent or empty field. */
  predicate Missing(form: map<string, string>, field: string)
  {
    field !in form || form[field] == ""
  }

  /** The first required field, in checking order, that is missing. */
  function FirstMissing(form: map<string, string>, fields: seq<string>): Option<string>
  {
    if fields == [] then None
    else if Missing(form, fields[0]) then Some(fields[0])
    else FirstMissing(form, fields[1..])
  }

  /** `FirstMissing` names a missing field ahead of which every field is
      present, and finds none exactly when all are present. */
  lemma {:induction false} FirstMissingIsFirst(form: map<string, string>, fields: seq<string>)
    ensures FirstMissing(form, fields).None? <==> forall i :: 0 <= i < |fields| ==> !Missing(form, fields[i])
    ensures FirstMissing(form, fields).Some? ==>
      exists k :: 0 <= k < |fields| && fields[k] == FirstMissing(form, fields).value
        && Missing(form, fields[k]) && forall i :: 0 <= i < k ==> !Missing(form, fields[i])
  {
    if fields != [] && !Missing(form, fields[0]) {
      var rest := fields[1..];
      FirstMissingIsFirst(form, rest);
      if FirstMissing(form, rest).Some? {
        var k :| 0 <= k < |rest| && rest[k] == FirstMissing(form, rest).value
          && Missing(form, rest[k]) && forall i :: 0 <= i < k ==> !Missing(form, rest[i]);
        assert fields[k + 1] == rest[k];
        assert forall i :: 1 <= i < k + 1 ==> fields[i] == rest[i - 1];
      } else {
        assert forall i :: 1 <= i < |fields| ==> fields[i] == rest[i - 1];
      }
    } else if fields != [] {
      assert fields[0] == FirstMissing(form, fields).value;
    }
  }

  /** The error of a missing field: its name with the first '_' turned into
      a space, then " is required". */
  function RequiredMessage(field: string): (m: string)
    ensures |m| == |field| + |" is required"|
  {
    ReplaceFirst(field, '_', ' ') + " is required"
  }

  /** A field name without '_' is used as it is; otherwise only its first
      '_' becomes a space. */
  lemma RequiredMessageText(field: string)
    ensures (forall i :: 0 <= i < |field| ==> field[i] != '_') ==> RequiredMessage(field) == field + " is required"
    ensures forall k :: 0 <= k < |field| && field[k] == '_' && (forall i :: 0 <= i < k ==> field[i] != '_') ==>
      RequiredMessage(field) == field[..k] + " " + field[k + 1..] + " is required"
  {
    if forall i :: 0 <= i < |field| ==> field[i] != '_' {
      ReplaceFirstAbsent(field, '_', ' ');
    }
    forall k | 0 <= k < |field| && field[k] == '_' && (forall i :: 0 <= i < k ==> field[i] != '_')
      ensures RequiredMessage(field) == field[..k] + " " + field[k + 1..] + " is required"
    {
      ReplaceFirstAt(field, '_', ' ', k);
    }
  }

  /** The required-field loop of the submit handler. */
  method CheckRequired(form: map<string, string>) returns (missing: Option<string>)
    ensures missing == FirstMissing(form, RequiredFields)
  {
    missing := None;
    for i := 0 to |RequiredFields|
      invariant FirstMissing(form, RequiredFields) == FirstMissing(form, RequiredFields[i..])
    {
      var field := RequiredFields[i];
      assert RequiredFields[i..][1..] == RequiredFields[i + 1..];
      if Missing(form, field) {
        missing := Some(field);
        return;
      }
    }
  }

  /** The location, fee and picture never stop a submission. */
  lemma OptionalFieldsNotChecked(form: map<string, string>, field: string, value: string)
    requires field in {"location_id", "consultation_fee", "profile_picture"}
    ensures FirstMissing(form[field := value], RequiredFields) == FirstMissing(form, RequiredFields)
  {
    var g := form[field := value];
    assert forall i :: 0 <= i < |RequiredFields| ==> RequiredFields[i] != field;
    SameRequired(form, g, RequiredFields);
  }

  /** Two forms that agree on the checked fields give the same answer. */
  lemma {:induction false} SameRequired(f: map<string, string>, g: map<string, string>, fields: seq<string>)
    requires forall i :: 0 <= i < |fields| ==> (Missing(f, fields[i]) <==> Missing(g, fields[i]))
    ensures FirstMissing(f, fields) == FirstMissing(g, fields)
  {
    if fields != [] {
      SameRequired(f, g, fields[1..]);
    }
  }

  /** What became of a picked picture after compression. */
  datatype ImageOutcome = Compressed(dataUrl: string) | TooLargeAfterCompression | CompressionFailed

  /** How the create request ended: the response said success, the response
      said failure with its message, or the request threw (with the
      response it got, if any). */
  datatype SubmitOutcome = Created | NotCreated(message: string) | Threw(response: Option<Api.ErrorResponse>)

  /** The form's state. */
  class CreateDoctorForm {
    var form: map<string, string>
    var previewUrl: string
    var error: string
    var loading: bool
    var redirected: bool

    /** The form always holds exactly its ten fields. */
    predicate Valid()
      reads this
    {
      form.Keys == FormFields
    }

    constructor()
      ensures Valid() && forall k :: k in form ==> form[k] == ""
      ensures previewUrl == "" && error == "" && !loading && !redirected
    {
      form := map k | k in FormFields :: "";
      previewUrl := "";
      error := "";
      loading := false;
      redirected := false;
    }

    /** `handleChange`: the input's `id` names the field that takes its value. */
    method HandleChange(id: string, value: string)
      requires Valid() && id in FormFields
      modifies this
      ensures Valid() && form == old(form)[id := value]
      ensures forall k :: k in form && k != id ==> form[k] == old(form)[k]
      ensures previewUrl == old(previewUrl) && error == old(error) && redirected == old(redirected)
    {
      form := form[id := value];
    }

    /** `handleFileChange` for a picked file of `size` bytes: over 5 MiB it
        is refused before compression and the form is left as it was;
        otherwise the compressed picture becomes the preview and the
        profile picture, unless compression failed or left it too large. */
    method HandleFileChange(size: int, outcome: ImageOutcome)
      requires Valid()
      modifies this
      ensures Valid()
      ensures size > MaxUploadBytes ==>
        && form == old(form) && previewUrl == old(previewUrl)
        && error == SizeError
      ensures size <= MaxUploadBytes && outcome.Compressed? ==>
        && form == old(form)["profile_picture" := outcome.dataUrl] && previewUrl == outcome.dataUrl
        && error == old(error)
      ensures size <= MaxUploadBytes && outcome.TooLargeAfterCompression? ==>
        && form == old(form) && previewUrl == old(previewUrl)
        && error == CompressedTooLargeError
      ensures size <= MaxUploadBytes && outcome.CompressionFailed? ==>
        && form == old(form) && previewUrl == old(previewUrl)
        && error == CompressionError
      ensures redirected == old(redirected)
    {
      if size > MaxUploadBytes {
        error := SizeError;
        return;
      }
      match outcome {
        case Compressed(dataUrl) =>
          PictureIsField();
          previewUrl := dataUrl;
          form := form["profile_picture" := dataUrl];
        case TooLargeAfterCompression =>
          error := CompressedTooLargeError;
        case CompressionFailed =>
          error := CompressionError;
      }
    }

    /** `removeImage`: no preview and no picture; nothing else changes. */
    method RemoveImage()
      requires Valid()
      modifies this
      ensures Valid() && previewUrl == "" && form == old(form)["profile_picture" := ""]
      ensures error == old(error) && redirected == old(redirected)
    {
      previewUrl := "";
      PictureIsField();
      form := form["profile_picture" := ""];
    }

    /** `handleSubmit`. A missing required field stops it with that field's
        message and no request; otherwise the request's outcome decides:
        success leads to the dashboard with no error, a refusal shows the
        response's message or "Failed to create doctor", and a thrown
        request shows the message `createDoctor` raised. */
    method HandleSubmit(outcome: SubmitOutcome)
      requires Valid()
      modifies this
      ensures Valid() && form == old(form) && previewUrl == old(previewUrl) && !loading
      ensures FirstMissing(form, RequiredFields).Some? ==>
        error == RequiredMessage(FirstMissing(form, RequiredFields).value) && redirected == old(redirected)
      ensures FirstMissing(form, RequiredFields).None? ==>
        match outcome
        case Created => error == "" && redirected
        case NotCreated(message) =>
          error == (if message != "" then message else "Failed to create doctor") && redirected == old(redirected)
        case Threw(response) => error == Api.CreateDoctorError(response) && redirected == old(redirected)
    {
      loading := true;
      error := "";
      var missing := CheckRequired(form);
      if missing.Some? {
        error := RequiredMessage(missing.value);
      } else {
        match outcome {
          case Created =>
            redirected := true;
          case NotCreated(message) =>
            error := if message != "" then message else "Failed to create doctor";
          case Threw(response) =>
            error := Api.CreateDoctorError(response);
        }
      }
      loading := false;
    }
  }
}
