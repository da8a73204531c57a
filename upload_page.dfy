/**
 * The upload page's hook state and the handlers that update it: adding and
 * removing files, editing fields, `resetForm`, `validateForm` and `handleSubmit`.
 * The network, the clock, the random number, `navigator.onLine` and the build
 * mode are parameters of `HandleSubmit`.
 */
module UploadPage {
  import opened JsText
  import opened UploadForm
  import opened ResponseHandling

  datatype UploadStatus = Idle | Uploading | Success | Error

  /** The `id`s `handleInputChange` and `handleSelectChange` write into `formData`. */
  datatype FieldName = Subject | AcademicLevel | PageCount | Instructions | Email

  function WithField(form: FormFields, field: FieldName, value: string): (r: FormFields)
    ensures field == Subject ==> r == form.(subject := value)
    ensures field == AcademicLevel ==> r == form.(academicLevel := value)
    ensures field == PageCount ==> r == form.(pageCount := value)
    ensures field == Instructions ==> r == form.(instructions := value)
    ensures field == Email ==> r == form.(email := value)
  {
    match field
    case Subject => form.(subject := value)
    case AcademicLevel => form.(academicLevel := value)
    case PageCount => form.(pageCount := value)
    case Instructions => form.(instructions := value)
    case Email => form.(email := value)
  }

  /** Where `splice(index, 1)` starts on an array of `length` elements: a negative index counts from the end. */
  function SpliceStart(index: int, length: nat): nat {
    if index < 0 then (if length + index < 0 then 0 else length + index)
    else if index > length then length
    else index
  }

  /** `const copy = [...files]; copy.splice(index, 1)`: the copy without the element at the start position, if there is one. */
  function Spliced(files: seq<File>, index: int): (r: seq<File>)
    ensures SpliceStart(index, |files|) == |files| ==> r == files
  {
    var k := SpliceStart(index, |files|);
    if k < |files| then files[..k] + files[k + 1..] else files
  }

  /** Removing at a position in range drops exactly that file and keeps the others in order. */
  lemma RemovingAtValidIndex(files: seq<File>, index: int)
    requires 0 <= index < |files|
    ensures |Spliced(files, index)| == |files| - 1
    ensures multiset(Spliced(files, index)) + multiset{files[index]} == multiset(files)
    ensures forall j | 0 <= j < |files| - 1 ::
      Spliced(files, index)[j] == if j < index then files[j] else files[j + 1]
  {
    var r := Spliced(files, index);
    assert files == files[..index] + [files[index]] + files[index + 1..];
    assert r == files[..index] + files[index + 1..];
  }

  const OfflineMessage := "Please check your internet connection and try again."
  const MaxRetries: nat := 2

  function RetryingMessage(retryCount: nat): string {
    "Connection issue. Retrying (" + Decimal(retryCount) + "/" + Decimal(MaxRetries) + ")..."
  }

  class Page {
    var files: seq<File>
    var formData: FormFields
    var date: Option<Instant>
    var uploadStatus: UploadStatus
    var referenceId: string
    var errorMessage: string

    /** The initial values of the `useState` hooks. */
    constructor ()
      ensures files == [] && formData == EmptyForm && date == None
      ensures uploadStatus == Idle && referenceId == "" && errorMessage == ""
    {
      files := [];
      formData := EmptyForm;
      date := None;
      uploadStatus := Idle;
      referenceId := "";
      errorMessage := "";
    }

    /** `handleDrop` and `handleFileChange`: the new files go after the old ones. */
    method AddFiles(added: seq<File>)
      modifies this`files
      ensures files == old(files) + added
    {
      if |added| > 0 {
        files := files + added;
      }
    }

    /** `removeFile`: copy the list, splice one element out, store the copy. */
    method RemoveFile(index: int)
      modifies this`files
      ensures files == Spliced(old(files), index)
    {
      var newFiles := files;
      var start := SpliceStart(index, |newFiles|);
      if start < |newFiles| {
        newFiles := newFiles[..start] + newFiles[start + 1..];
      }
      files := newFiles;
    }

    /** `handleInputChange` and `handleSelectChange`. */
    method ChangeField(field: FieldName, value: string)
      modifies this`formData
      ensures formData == WithField(old(formData), field, value)
    {
      formData := WithField(formData, field, value);
    }

    /** The calendar's `onSelect`: the picked day goes into `date` and into `formData.deadline`. */
    method SelectDate(picked: Option<Instant>)
      modifies this`date, this`formData
      ensures date == picked && formData == old(formData).(deadline := picked)
    {
      date := picked;
      formData := formData.(deadline := picked);
    }

    /** `resetForm` */
    method ResetForm()
      modifies this`formData, this`date, this`errorMessage
      ensures formData == EmptyForm && date == None && errorMessage == ""
    {
      formData := EmptyForm;
      date := None;
      errorMessage := "";
    }

    /** `validateForm`: on failure the reason's text becomes `errorMessage`. */
    method ValidateForm() returns (valid: bool)
      modifies this`errorMessage
      ensures valid <==> Validation(files, formData, date) == None
      ensures valid ==> errorMessage == old(errorMessage)
      ensures !valid ==> errorMessage == ErrorText(Validation(files, formData, date).value)
    {
      var err := FirstValidationError(files, formData, date);
      if err.Some? {
        errorMessage := ErrorText(err.value);
        return false;
      }
      return true;
    }

    /** The setters every success path runs: status, shown id, `setFiles([])` and `resetForm()`. */
    method ShowSuccess(id: string)
      modifies this
      ensures uploadStatus == Success && referenceId == id
      ensures files == [] && formData == EmptyForm && date == None && errorMessage == ""
    {
      uploadStatus := Success;
      referenceId := id;
      files := [];
      ResetForm();
    }

    /**
     * The state a finished submission leaves: on success the shown id, an empty
     * file list and a reset form; on failure the error status and message, with
     * the files, the fields and the date kept for another try.
     */
    ghost predicate Shows(o: Outcome, files0: seq<File>, form0: FormFields, date0: Option<Instant>, id0: string)
      reads this
    {
      match o
      case Succeeded(shown) =>
        && uploadStatus == Success && referenceId == shown && errorMessage == ""
        && files == [] && formData == EmptyForm && date == None
      case Failed(message) =>
        && uploadStatus == Error && errorMessage == message && referenceId == id0
        && files == files0 && formData == form0 && date == date0
    }

    /**
     * `handleSubmit`. `online` is `navigator.onLine`; `now` and `fraction` are
     * `Date.now()` and the digits of `Math.random()`; `first` and `retry` are what
     * the two POSTs would meet; `development` is the build mode. `posted` lists the
     * bodies sent, in order.
     */
    method HandleSubmit(online: bool, now: nat, fraction: seq<Base36Digit>,
                        first: Attempt, retry: Attempt, development: bool)
      returns (posted: seq<seq<Entry>>)
      modifies this
      ensures !online ==>
        && posted == [] && errorMessage == OfflineMessage
        && files == old(files) && formData == old(formData) && date == old(date)
        && uploadStatus == old(uploadStatus) && referenceId == old(referenceId)
      ensures online && Validation(old(files), old(formData), old(date)).Some? ==>
        && posted == []
        && errorMessage == ErrorText(Validation(old(files), old(formData), old(date)).value)
        && files == old(files) && formData == old(formData) && date == old(date)
        && uploadStatus == old(uploadStatus) && referenceId == old(referenceId)
      ensures online && Validation(old(files), old(formData), old(date)) == None ==>
        var id := GenerateReferenceId(now, fraction);
        && 1 <= |posted| <= 2
        && IsSubmissionBody(posted[0], old(files), old(formData), DeadlineText(old(date)), id)
        && (forall k | 0 <= k < |posted| :: posted[k] == posted[0])
        && (|posted| == 2 <==> FirstAttempt(first, id).Failed?)
        && Shows(Decide(first, retry, development, id), old(files), old(formData), old(date), old(referenceId))
    {
      posted := [];
      errorMessage := "";
      if !online {
        errorMessage := OfflineMessage;
        return;
      }
      var valid := ValidateForm();
      if !valid {
        return;
      }
      var submissionReferenceId := GenerateReferenceId(now, fraction);
      uploadStatus := Uploading;
      posted := Upload(submissionReferenceId, first, retry, development);
    }

    /**
     * The part of `handleSubmit` after validation: build the body, post it, and on
     * failure retry once with the same body, then fall back or report.
     */
    method Upload(submissionReferenceId: string, first: Attempt, retry: Attempt, development: bool)
      returns (posted: seq<seq<Entry>>)
      modifies this
      ensures 1 <= |posted| <= 2
      ensures IsSubmissionBody(posted[0], old(files), old(formData), DeadlineText(old(date)), submissionReferenceId)
      ensures forall k | 0 <= k < |posted| :: posted[k] == posted[0]
      ensures |posted| == 2 <==> FirstAttempt(first, submissionReferenceId).Failed?
      ensures Shows(Decide(first, retry, development, submissionReferenceId),
                    old(files), old(formData), old(date), old(referenceId))
    {
      var formDataToSend := BuildSubmissionBody(files, formData, date, submissionReferenceId);
      var retryCount: nat := 0;
      posted := [formDataToSend];
      var firstOutcome := FirstAttempt(first, submissionReferenceId);
      if firstOutcome.Succeeded? {
        ShowSuccess(firstOutcome.shownId);
        return;
      }
      if retryCount < MaxRetries {
        retryCount := retryCount + 1;
        errorMessage := RetryingMessage(retryCount);
        posted := posted + [formDataToSend];
        if IsReadableOk(retry) && retry.body.json.Some? {
          // the status is set before the `referenceId` read that throws on a null body
          uploadStatus := Success;
        }
        var retried := RetryAttempt(retry, submissionReferenceId);
        if retried.Some? {
          ShowSuccess(retried.value);
          return;
        }
      }
      if development {
        ShowSuccess(submissionReferenceId);
        return;
      }
      uploadStatus := Error;
      errorMessage := firstOutcome.message;
    }

    /** The "Submit Another Assignment" button. */
    method SubmitAnother()
      modifies this`uploadStatus, this`referenceId
      ensures uploadStatus == Idle && referenceId == ""
    {
      uploadStatus := Idle;
      referenceId := "";
    }
  }
}
