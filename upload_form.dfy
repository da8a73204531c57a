/**
 * The submission logic of the upload page that does not depend on the page's
 * state: the ordered validator behind `validateForm`, the reference id made by
 * `generateReferenceId`, and the multipart field list `handleSubmit` posts.
 */
module UploadForm {
  import opened JsText

  /** A browser `File`: its `name`, its MIME `type` and its `size` in bytes. */
  datatype File = File(name: string, mimeType: string, size: nat)

  /** A day picked in the calendar, known by what its `toISOString()` returns. */
  datatype Instant = Instant(iso: string)

  /**
   * The page's `formData`. The calendar writes `deadline` together with the
   * separate `date` state; validation and the posted body read `date` only.
   */
  datatype FormFields = FormFields(
    subject: string,
    academicLevel: string,
    pageCount: string,
    deadline: Option<Instant>,
    instructions: string,
    email: string)

  const EmptyForm := FormFields("", "", "", None, "", "")

  const MiB: nat := 1024 * 1024
  const MaxFileSize: nat := 10 * MiB
  const MaxTotalSize: nat := 50 * MiB

  /** The extensions `validateForm` accepts, after lower-casing. */
  const AcceptedExtensions: seq<string> := ["pdf", "doc", "docx"]

  /** The reasons `validateForm` gives, one per early `return false`. */
  datatype ValidationError =
    | NoFiles
    | FileTooLarge(name: string)
    | UnsupportedFormat(name: string)
    | EmptyFile(name: string)
    | TotalSizeExceeded(total: nat)
    | MissingSubject
    | MissingLevel
    | MissingDeadline
    | MissingEmail
    | InvalidEmail
  {
    predicate IsFileError() {
      FileTooLarge? || UnsupportedFormat? || EmptyFile?
    }
  }

  /** `(bytes / 1024 / 1024).toFixed(1)`: the quotient is exact in binary floating point and `toFixed` rounds a tie up. */
  function MiBOneDecimal(bytes: nat): string {
    var tenths := (10 * bytes + MiB / 2) / MiB;
    Decimal(tenths / 10) + "." + Decimal(tenths % 10)
  }

  /** The text `validateForm` puts into `errorMessage` for each reason. */
  function ErrorText(e: ValidationError): string {
    match e
    case NoFiles => "Please upload at least one file"
    case FileTooLarge(name) => "File " + name + " exceeds the maximum size of 10MB"
    case UnsupportedFormat(name) => "File " + name + " is not an acceptable format. Please use PDF, DOC, or DOCX"
    case EmptyFile(name) => "File " + name + " appears to be empty or corrupted"
    case TotalSizeExceeded(total) =>
      "Total file size (" + MiBOneDecimal(total) + "MB) exceeds the maximum of 50MB. Please reduce the size or number of files."
    case MissingSubject => "Please select a subject"
    case MissingLevel => "Please select an academic level"
    case MissingDeadline => "Please select a deadline"
    case MissingEmail => "Please enter your email address"
    case InvalidEmail => "Please enter a valid email address"
  }

  /** The position just past the last '.' of the name, or 0 when it has none. */
  function AfterLastDot(name: string): (p: nat)
    ensures p <= |name|
  {
    if name == [] then 0
    else if name[|name| - 1] == '.' then |name|
    else AfterLastDot(name[..|name| - 1])
  }

  /** No '.' follows that position, and the character just before it is the '.'. */
  lemma {:induction false} AfterLastDotIsLast(name: string)
    ensures forall k | AfterLastDot(name) <= k < |name| :: name[k] != '.'
    ensures AfterLastDot(name) > 0 ==> name[AfterLastDot(name) - 1] == '.'
  {
    if name != [] && name[|name| - 1] != '.' {
      var front := name[..|name| - 1];
      AfterLastDotIsLast(front);
      assert forall k | 0 <= k < |front| :: name[k] == front[k];
    }
  }

  /**
   * `name.split('.').pop()`: the text after the last '.', or the whole name
   * when it has no '.'.
   */
  function Extension(name: string): string {
    name[AfterLastDot(name)..]
  }

  /** The extension is the dot-free tail of the name that follows its last '.', or all of it. */
  lemma ExtensionIsLastSegment(name: string)
    ensures |Extension(name)| <= |name| && Extension(name) == name[|name| - |Extension(name)|..]
    ensures '.' !in Extension(name)
    ensures '.' in name ==> |Extension(name)| < |name| && name[|name| - |Extension(name)| - 1] == '.'
    ensures '.' !in name ==> Extension(name) == name
  {
    var p := AfterLastDot(name);
    AfterLastDotIsLast(name);
    if p == 0 {
      assert '.' !in name;
    }
  }

  predicate AcceptedExtension(name: string) {
    Lower(Extension(name)) in AcceptedExtensions
  }

  /** The three checks the loop makes on one file, in their order. */
  function FileError(f: File): (e: Option<ValidationError>)
    ensures e == None <==> 0 < f.size <= MaxFileSize && AcceptedExtension(f.name)
    ensures e.Some? ==> e.value.IsFileError() && e.value.name == f.name
  {
    if f.size > MaxFileSize then Some(FileTooLarge(f.name))
    else if !AcceptedExtension(f.name) then Some(UnsupportedFormat(f.name))
    else if f.size == 0 then Some(EmptyFile(f.name))
    else None
  }

  /** The checks run in the loop's order: size first, then extension, then the empty file. */
  lemma FileCheckOrder(f: File)
    ensures f.size > MaxFileSize ==> FileError(f) == Some(FileTooLarge(f.name))
    ensures f.size <= MaxFileSize && !AcceptedExtension(f.name) ==> FileError(f) == Some(UnsupportedFormat(f.name))
    ensures f.size == 0 && AcceptedExtension(f.name) ==> FileError(f) == Some(EmptyFile(f.name))
  {
  }

  /** The complaint about the first file, in attachment order, that fails a check. */
  function FirstFileError(files: seq<File>): (e: Option<ValidationError>)
    ensures e == None <==> forall i | 0 <= i < |files| :: FileError(files[i]) == None
    ensures e.Some? ==> e.value.IsFileError()
  {
    if files == [] then None
    else
      var front := files[..|files| - 1];
      var earlier := FirstFileError(front);
      assert forall j | 0 <= j < |front| :: front[j] == files[j];
      if earlier.Some? then earlier else FileError(files[|files| - 1])
  }

  /** The complaint is about a failing file all of whose predecessors pass. */
  lemma {:induction false} FirstFileErrorIsFirst(files: seq<File>)
    requires FirstFileError(files).Some?
    ensures exists i | 0 <= i < |files| ::
      FirstFileError(files) == FileError(files[i]) && forall j | 0 <= j < i :: FileError(files[j]) == None
  {
    var front := files[..|files| - 1];
    assert forall j | 0 <= j < |front| :: front[j] == files[j];
    if FirstFileError(front).Some? {
      FirstFileErrorIsFirst(front);
      var i :| 0 <= i < |front| &&
        FirstFileError(front) == FileError(front[i]) && forall j | 0 <= j < i :: FileError(front[j]) == None;
      assert FirstFileError(files) == FileError(files[i]);
    } else {
      var i := |files| - 1;
      assert FirstFileError(files) == FileError(files[i]);
    }
  }

  /** Once a prefix is clean, the first failing file decides `FirstFileError`. */
  lemma {:induction false} FirstFileErrorAt(files: seq<File>, i: nat)
    requires i < |files|
    requires FirstFileError(files[..i]) == None
    requires FileError(files[i]).Some?
    ensures FirstFileError(files) == FileError(files[i])
    decreases |files|
  {
    if |files| == i + 1 {
      assert files[..|files| - 1] == files[..i];
    } else {
      var front := files[..|files| - 1];
      assert front[..i] == files[..i];
      FirstFileErrorAt(front, i);
    }
  }

  /** The sum of the file sizes (`totalSize`). */
  function TotalSize(files: seq<File>): nat {
    if files == [] then 0 else TotalSize(files[..|files| - 1]) + files[|files| - 1].size
  }

  /** The `[^\s@]` character class. */
  predicate IsPlain(c: char) {
    !IsWhitespace(c) && c != '@'
  }

  /**
   * The pattern `^[^\s@]+@[^\s@]+\.[^\s@]+$`, stated by positions: an '@' with at
   * least one character before it, a '.' with at least one character on each side
   * after the '@', and every other character in `[^\s@]`.
   */
  ghost predicate MatchesEmailPattern(s: string) {
    exists at, dot | 0 < at && at + 1 < dot && dot + 1 < |s| ::
      s[at] == '@' && s[dot] == '.' &&
      forall k | 0 <= k < |s| && k != at :: IsPlain(s[k])
  }

  /** The position of the first `c` in `s`. */
  function IndexOf(s: string, c: char): (r: Option<nat>)
    ensures r.None? <==> c !in s
    ensures r.Some? ==> r.value < |s| && s[r.value] == c && c !in s[..r.value]
  {
    if s == [] then None
    else if s[0] == c then Some(0)
    else
      match IndexOf(s[1..], c)
      case None => None
      case Some(k) =>
        assert s[..k + 1] == [s[0]] + s[1..][..k];
        Some(k + 1)
  }

  /** How the email check is decided: no whitespace, one '@' not in front, a '.' strictly inside the domain. */
  predicate IsValidEmail(s: string) {
    && (forall k | 0 <= k < |s| :: !IsWhitespace(s[k]))
    && match IndexOf(s, '@')
       case None => false
       case Some(at) => 0 < at && at + 4 <= |s| && '@' !in s[at + 1..] && '.' in s[at + 2..|s| - 1]
  }

  /** `IsValidEmail` accepts exactly the strings the regular expression matches. */
  lemma EmailCheckMatchesPattern(s: string)
    ensures IsValidEmail(s) <==> MatchesEmailPattern(s)
  {
    if IsValidEmail(s) {
      var at := IndexOf(s, '@').value;
      var domain := s[at + 2..|s| - 1];
      var j :| 0 <= j < |domain| && domain[j] == '.';
      var dot := at + 2 + j;
      assert s[dot] == '.';
      forall k | 0 <= k < |s| && k != at
        ensures IsPlain(s[k])
      {
        if k < at {
          assert s[k] == s[..at][k];
        } else {
          assert s[k] == s[at + 1..][k - at - 1];
        }
      }
    }
    if MatchesEmailPattern(s) {
      var at, dot :| 0 < at && at + 1 < dot && dot + 1 < |s| &&
        s[at] == '@' && s[dot] == '.' &&
        forall k | 0 <= k < |s| && k != at :: IsPlain(s[k]);
      var first := IndexOf(s, '@');
      assert first == Some(at) by {
        assert '@' in s;
        assert s[first.value] == '@';
      }
      var tail := s[at + 1..];
      assert '@' !in tail by {
        forall k | 0 <= k < |tail| ensures tail[k] != '@' {
          assert tail[k] == s[at + 1 + k];
        }
      }
      assert s[at + 2..|s| - 1][dot - at - 2] == '.';
    }
  }

  /** The required-field checks after the file checks, in their order. */
  function FieldError(form: FormFields, date: Option<Instant>): (e: Option<ValidationError>)
    ensures e == None <==>
      form.subject != "" && form.academicLevel != "" && date.Some? && form.email != "" && IsValidEmail(form.email)
    ensures e.Some? ==> e.value in {MissingSubject, MissingLevel, MissingDeadline, MissingEmail, InvalidEmail}
    ensures e == Some(MissingSubject) <==> form.subject == ""
    ensures e == Some(MissingLevel) <==> form.subject != "" && form.academicLevel == ""
    ensures e == Some(MissingDeadline) <==> form.subject != "" && form.academicLevel != "" && date.None?
    ensures e == Some(MissingEmail) <==>
      form.subject != "" && form.academicLevel != "" && date.Some? && form.email == ""
    ensures e == Some(InvalidEmail) <==>
      form.subject != "" && form.academicLevel != "" && date.Some? && form.email != "" && !IsValidEmail(form.email)
  {
    if form.subject == "" then Some(MissingSubject)
    else if form.academicLevel == "" then Some(MissingLevel)
    else if date.None? then Some(MissingDeadline)
    else if form.email == "" then Some(MissingEmail)
    else if !IsValidEmail(form.email) then Some(InvalidEmail)
    else None
  }

  /** What `validateForm` decides: `None` when it returns true, else the reason of its first `return false`. */
  function Validation(files: seq<File>, form: FormFields, date: Option<Instant>): (e: Option<ValidationError>)
    ensures files == [] ==> e == Some(NoFiles)
    ensures e.Some? && e.value.IsFileError() ==> e == FirstFileError(files)
    ensures e.Some? && e.value.TotalSizeExceeded? ==>
      FirstFileError(files) == None && e.value.total == TotalSize(files) > MaxTotalSize
    ensures e == None <==>
      files != [] && FirstFileError(files) == None && TotalSize(files) <= MaxTotalSize && FieldError(form, date) == None
    ensures files != [] && FirstFileError(files).Some? ==> e == FirstFileError(files)
    ensures files != [] && FirstFileError(files) == None && TotalSize(files) > MaxTotalSize ==>
      e == Some(TotalSizeExceeded(TotalSize(files)))
    ensures files != [] && FirstFileError(files) == None && TotalSize(files) <= MaxTotalSize ==>
      e == FieldError(form, date)
  {
    if files == [] then Some(NoFiles)
    else if FirstFileError(files).Some? then FirstFileError(files)
    else if TotalSize(files) > MaxTotalSize then Some(TotalSizeExceeded(TotalSize(files)))
    else FieldError(form, date)
  }

  /**
   * The whole acceptance condition: `validateForm` returns true exactly when there
   * is a file, every file has 1 to 10 MiB and a pdf/doc/docx extension, the files
   * add up to at most 50 MiB, subject, level and deadline are present, and the
   * email matches the pattern.
   */
  lemma ValidationAccepts(files: seq<File>, form: FormFields, date: Option<Instant>)
    ensures Validation(files, form, date) == None <==>
      && files != []
      && (forall i | 0 <= i < |files| ::
            0 < files[i].size <= MaxFileSize && Lower(Extension(files[i].name)) in AcceptedExtensions)
      && TotalSize(files) <= MaxTotalSize
      && form.subject != "" && form.academicLevel != "" && date.Some? && form.email != ""
      && MatchesEmailPattern(form.email)
  {
    EmailCheckMatchesPattern(form.email);
  }

  /** A per-file complaint names the first file, in attachment order, that fails a check. */
  lemma FileErrorNamesFirstOffender(files: seq<File>, form: FormFields, date: Option<Instant>)
    requires Validation(files, form, date).Some? && Validation(files, form, date).value.IsFileError()
    ensures exists i | 0 <= i < |files| ::
      && Validation(files, form, date) == FileError(files[i])
      && Validation(files, form, date).value.name == files[i].name
      && forall j | 0 <= j < i :: FileError(files[j]) == None
  {
    FirstFileErrorIsFirst(files);
  }

  /**
   * `validateForm` as written: the `for` loop over the files, adding each size
   * to `totalSize` and returning at the first failing check, then the total and
   * the field checks.
   */
  method FirstValidationError(files: seq<File>, form: FormFields, date: Option<Instant>)
    returns (err: Option<ValidationError>)
    ensures err == Validation(files, form, date)
  {
    if |files| == 0 {
      return Some(NoFiles);
    }
    var totalSize := 0;
    for i := 0 to |files|
      invariant totalSize == TotalSize(files[..i])
      invariant FirstFileError(files[..i]) == None
    {
      var file := files[i];
      assert files[..i + 1][..i] == files[..i];
      totalSize := totalSize + file.size;
      if file.size > MaxFileSize {
        FirstFileErrorAt(files, i);
        return Some(FileTooLarge(file.name));
      }
      if !AcceptedExtension(file.name) {
        FirstFileErrorAt(files, i);
        return Some(UnsupportedFormat(file.name));
      }
      if file.size == 0 {
        FirstFileErrorAt(files, i);
        return Some(EmptyFile(file.name));
      }
    }
    assert files[..|files|] == files;
    if totalSize > MaxTotalSize {
      return Some(TotalSizeExceeded(totalSize));
    }
    if form.subject == "" {
      return Some(MissingSubject);
    }
    if form.academicLevel == "" {
      return Some(MissingLevel);
    }
    if date.None? {
      return Some(MissingDeadline);
    }
    if form.email == "" {
      return Some(MissingEmail);
    }
    if !IsValidEmail(form.email) {
      return Some(InvalidEmail);
    }
    return None;
  }

  type Base36Digit = d: nat | d < 36

  /** `Math.random().toString(36)` for a number in [0, 1) whose base-36 fraction digits are `fraction`. */
  function RandomText(fraction: seq<Base36Digit>): string {
    if fraction == [] then "0"
    else "0." + seq(|fraction|, i requires 0 <= i < |fraction| => DigitChar(fraction[i]))
  }

  /** `Math.random().toString(36).substring(2, 6)`: the first (up to) four fraction digits. */
  function RandomPart(fraction: seq<Base36Digit>): (r: string)
    ensures |r| == if |fraction| < 4 then |fraction| else 4
    ensures forall i | 0 <= i < |r| :: r[i] == DigitChar(fraction[i])
  {
    var text := RandomText(fraction);
    assert forall i | 2 <= i < |text| :: text[i] == DigitChar(fraction[i - 2]);
    Substring(text, 2, 6)
  }

  /**
   * `generateReferenceId`: "REQ-", the clock `now` in upper-case base 36, then up
   * to four upper-cased base-36 digits of the random number.
   */
  function GenerateReferenceId(now: nat, fraction: seq<Base36Digit>): (id: string)
    ensures |id| > 4 && id[..4] == "REQ-"
    ensures forall i | 4 <= i < |id| :: IsUpperBase36(id[i])
    ensures |id| == 4 + |Radix(now, 36)| + (if |fraction| < 4 then |fraction| else 4)
  {
    var stamp := Radix(now, 36);
    var random := RandomPart(fraction);
    UpperDigitsAreUpperBase36(stamp);
    UpperDigitsAreUpperBase36(random);
    "REQ-" + Upper(stamp) + Upper(random)
  }

  lemma UpperDigitInjective(a: Base36Digit, b: Base36Digit)
    requires UpperChar(DigitChar(a)) == UpperChar(DigitChar(b))
    ensures a == b
  {
  }

  /** The clock and random parts of an id made with at least four random digits. */
  lemma ReferenceIdParts(now: nat, fraction: seq<Base36Digit>)
    requires |fraction| >= 4
    ensures var id := GenerateReferenceId(now, fraction);
      && id[4..|id| - 4] == Upper(Radix(now, 36))
      && id[|id| - 4..] == Upper(RandomPart(fraction))
  {
    var stamp, random := Upper(Radix(now, 36)), Upper(RandomPart(fraction));
    var id := GenerateReferenceId(now, fraction);
    assert id == "REQ-" + stamp + random;
    assert |random| == 4;
    assert id[4..|id| - 4] == stamp;
    assert id[|id| - 4..] == random;
  }

  /**
   * A reference id made with at least four random digits determines the clock
   * reading and those four digits; so two ids taken in the same millisecond with
   * different random digits differ.
   */
  lemma ReferenceIdDeterminesInputs(t1: nat, f1: seq<Base36Digit>, t2: nat, f2: seq<Base36Digit>)
    requires |f1| >= 4 && |f2| >= 4
    requires GenerateReferenceId(t1, f1) == GenerateReferenceId(t2, f2)
    ensures t1 == t2 && f1[..4] == f2[..4]
  {
    ReferenceIdParts(t1, f1);
    ReferenceIdParts(t2, f2);
    UpperRadixInjective(t1, t2, 36);
    var r1, r2 := Upper(RandomPart(f1)), Upper(RandomPart(f2));
    assert r1 == r2;
    forall k | 0 <= k < 4 ensures f1[k] == f2[k] {
      assert r1[k] == UpperChar(DigitChar(f1[k]));
      assert r2[k] == UpperChar(DigitChar(f2[k]));
      UpperDigitInjective(f1[k], f2[k]);
    }
  }

  /** A multipart part: the file itself or a text value. */
  datatype Part = Blob(file: File) | Text(text: string)

  /** One `formDataToSend.append(name, value)`. */
  datatype Entry = Entry(name: string, part: Part)

  function FileKey(i: nat): string {
    "file" + Decimal(i)
  }

  /** The four entries appended for the file at position `i`. */
  function FileEntries(i: nat, f: File): seq<Entry> {
    [ Entry(FileKey(i), Blob(f)),
      Entry(FileKey(i) + "_name", Text(f.name)),
      Entry(FileKey(i) + "_type", Text(f.mimeType)),
      Entry(FileKey(i) + "_size", Text(Decimal(f.size))) ]
  }

  /** `date ? date.toISOString() : ''` */
  function DeadlineText(date: Option<Instant>): string {
    if date.Some? then date.value.iso else ""
  }

  /** The eight entries appended after the files. */
  function ScalarEntries(form: FormFields, deadline: string, count: nat, id: string): seq<Entry> {
    [ Entry("subject", Text(form.subject)),
      Entry("academicLevel", Text(form.academicLevel)),
      Entry("pageCount", Text(form.pageCount)),
      Entry("deadline", Text(deadline)),
      Entry("instructions", Text(form.instructions)),
      Entry("email", Text(form.email)),
      Entry("fileCount", Text(Decimal(count))),
      Entry("referenceId", Text(id)) ]
  }

  /**
   * The layout of the posted body: four entries per file, in file order, then the
   * eight scalar entries, ending with the file count and the reference id.
   */
  ghost predicate IsSubmissionBody(body: seq<Entry>, files: seq<File>, form: FormFields, deadline: string, id: string) {
    && |body| == 4 * |files| + 8
    && (forall i | 0 <= i < |files| :: body[4 * i..4 * i + 4] == FileEntries(i, files[i]))
    && body[4 * |files|..] == ScalarEntries(form, deadline, |files|, id)
  }

  /** The `files.forEach` that appends each file and its metadata, then the form fields. */
  method BuildSubmissionBody(files: seq<File>, form: FormFields, date: Option<Instant>, id: string)
    returns (body: seq<Entry>)
    ensures IsSubmissionBody(body, files, form, DeadlineText(date), id)
    ensures body[|body| - 1] == Entry("referenceId", Text(id))
    ensures body[|body| - 2] == Entry("fileCount", Text(Decimal(|files|)))
  {
    body := [];
    for i := 0 to |files|
      invariant |body| == 4 * i
      invariant forall j | 0 <= j < i :: body[4 * j..4 * j + 4] == FileEntries(j, files[j])
    {
      var file := files[i];
      var fieldName := FileKey(i);
      ghost var before := body;
      body := body + [Entry(fieldName, Blob(file))];
      body := body + [Entry(fieldName + "_name", Text(file.name))];
      body := body + [Entry(fieldName + "_type", Text(file.mimeType))];
      body := body + [Entry(fieldName + "_size", Text(Decimal(file.size)))];
      assert body == before + FileEntries(i, file);
      forall j | 0 <= j < i ensures body[4 * j..4 * j + 4] == FileEntries(j, files[j]) {
        assert body[4 * j..4 * j + 4] == before[4 * j..4 * j + 4];
      }
    }
    var fileSection := body;
    body := body + [Entry("subject", Text(form.subject))];
    body := body + [Entry("academicLevel", Text(form.academicLevel))];
    body := body + [Entry("pageCount", Text(form.pageCount))];
    body := body + [Entry("deadline", Text(DeadlineText(date)))];
    body := body + [Entry("instructions", Text(form.instructions))];
    body := body + [Entry("email", Text(form.email))];
    body := body + [Entry("fileCount", Text(Decimal(|files|)))];
    body := body + [Entry("referenceId", Text(id))];
    assert body == fileSection + ScalarEntries(form, DeadlineText(date), |files|, id);
    forall j | 0 <= j < |files| ensures body[4 * j..4 * j + 4] == FileEntries(j, files[j]) {
      assert body[4 * j..4 * j + 4] == fileSection[4 * j..4 * j + 4];
    }
  }
}
