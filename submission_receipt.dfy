/**
 * The upload page's request as the webhook script receives it: the text parts of
 * the multipart body become body fields, in order, and the file parts arrive in
 * the binary map. What the script then detects and echoes back.
 */
module SubmissionReceipt {
  import opened JsText
  import opened UploadForm
  import opened WebhookDiscovery
  import opened WebhookAck

  /** The body fields parsed out of a posted multipart body: its text parts, in order. */
  function ReceivedBody(entries: seq<Entry>): (body: seq<(string, Value)>)
    ensures |body| <= |entries|
  {
    if entries == [] then []
    else
      var front := ReceivedBody(entries[..|entries| - 1]);
      var last := entries[|entries| - 1];
      if last.part.Text? then front + [(last.name, Str(last.part.text))] else front
  }

  /** A key the page gives a file's name, type or size: inert, and `file` followed by a digit. */
  predicate FileMetadataKey(key: string) {
    Inert(key) && |key| > 4 && key[..4] == "file" && IsDecimalDigit(key[4])
  }

  /** Every field received comes from a text part, under the part's name. */
  lemma {:induction false} ReceivedFileMetadataKeys(entries: seq<Entry>)
    requires forall m | 0 <= m < |entries| && entries[m].part.Text? :: FileMetadataKey(entries[m].name)
    ensures forall j | 0 <= j < |ReceivedBody(entries)| :: FileMetadataKey(ReceivedBody(entries)[j].0)
  {
    if entries != [] {
      var prefix := entries[..|entries| - 1];
      assert forall m | 0 <= m < |prefix| :: prefix[m] == entries[m];
      ReceivedFileMetadataKeys(prefix);
    }
  }

  /** The fields received for one more entry: its text, if it is a text part. */
  lemma ReceivedBodySnoc(entries: seq<Entry>, e: Entry)
    ensures ReceivedBody(entries + [e]) ==
      ReceivedBody(entries) + (if e.part.Text? then [(e.name, Str(e.part.text))] else [])
  {
    assert (entries + [e])[..|entries|] == entries;
  }

  lemma {:induction false} ReceivedBodyAppend(a: seq<Entry>, b: seq<Entry>)
    ensures ReceivedBody(a + b) == ReceivedBody(a) + ReceivedBody(b)
    decreases |b|
  {
    if b == [] {
      assert a + b == a;
    } else {
      var front, last := b[..|b| - 1], b[|b| - 1];
      var tail := if last.part.Text? then [(last.name, Str(last.part.text))] else [];
      calc {
        ReceivedBody(a + b);
      == { assert a + b == (a + front) + [last]; ReceivedBodySnoc(a + front, last); }
        ReceivedBody(a + front) + tail;
      == { ReceivedBodyAppend(a, front); }
        (ReceivedBody(a) + ReceivedBody(front)) + tail;
      ==
        ReceivedBody(a) + (ReceivedBody(front) + tail);
      == { assert b == front + [last]; ReceivedBodySnoc(front, last); }
        ReceivedBody(a) + ReceivedBody(b);
      }
    }
  }

  /** A body key that none of the body-field passes picks up. */
  predicate Inert(key: string) {
    MetadataIndex(key) == None && !EndsWithFileNumber(key) && key != "file"
  }

  lemma NoTrailingNumberKey(key: string)
    requires key != [] && !IsDecimalDigit(key[|key| - 1])
    ensures !EndsWithFileNumber(key)
  {
  }

  /** The metadata keys the page sends, `file<i>_name` and its siblings, are inert. */
  lemma FileFieldKeyInert(digits: string, suffix: string)
    requires |digits| > 0 && forall i | 0 <= i < |digits| :: IsDecimalDigit(digits[i])
    requires suffix == "_name" || suffix == "_type" || suffix == "_size"
    ensures FileMetadataKey("file" + digits + suffix)
  {
    var key := "file" + digits + suffix;
    forall q | 0 <= q && q + 4 < |key|
      ensures key[q] != 'f' || key[q + 4] != '_'
    {
      if q == 0 {
        assert key[4] == digits[0];
      } else if q < 4 {
        assert key[q] == "file"[q];
      } else if q < 4 + |digits| {
        assert key[q] == digits[q - 4];
      } else {
        assert key[q] == suffix[q - 4 - |digits|];
      }
    }
    NoMatchFrom(key, 0);
    assert key[|key| - 1] == 'e';
    NoTrailingNumberKey(key);
    assert key[..4] == "file" && key[4] == digits[0];
  }

  /** A key without `_` that ends in a letter and is not `file` is inert. */
  lemma PlainKeyInert(key: string)
    requires '_' !in key
    requires key != [] && !IsDecimalDigit(key[|key| - 1]) && key != "file"
    ensures Inert(key)
  {
    NoMatchFrom(key, 0);
    NoTrailingNumberKey(key);
  }

  /** The scalar fields as the script receives them. */
  function ScalarFields(form: FormFields, deadline: string, count: nat, id: string): seq<(string, Value)> {
    [ ("subject", Str(form.subject)), ("academicLevel", Str(form.academicLevel)),
      ("pageCount", Str(form.pageCount)), ("deadline", Str(deadline)),
      ("instructions", Str(form.instructions)), ("email", Str(form.email)),
      ("fileCount", Str(Decimal(count))), ("referenceId", Str(id)) ]
  }

  /** A body made only of text parts is received whole. */
  lemma {:induction false} AllTextReceived(entries: seq<Entry>)
    requires forall m | 0 <= m < |entries| :: entries[m].part.Text?
    ensures ReceivedBody(entries) ==
      seq(|entries|, m requires 0 <= m < |entries| => (entries[m].name, Str(entries[m].part.text)))
  {
    if entries != [] {
      AllTextReceived(entries[..|entries| - 1]);
    }
  }

  lemma ScalarsReceived(form: FormFields, deadline: string, count: nat, id: string)
    ensures ReceivedBody(ScalarEntries(form, deadline, count, id)) == ScalarFields(form, deadline, count, id)
  {
    AllTextReceived(ScalarEntries(form, deadline, count, id));
  }

  /** The eight scalar fields the page sends are inert. */
  lemma ScalarKeysInert(form: FormFields, deadline: string, count: nat, id: string)
    ensures forall j | 0 <= j < |ScalarFields(form, deadline, count, id)| :: Inert(ScalarFields(form, deadline, count, id)[j].0)
  {
    var f := ScalarFields(form, deadline, count, id);
    forall j | 0 <= j < |f| ensures Inert(f[j].0) {
      if j == 0 { PlainKeyInert("subject"); }
      else if j == 1 { PlainKeyInert("academicLevel"); }
      else if j == 2 { PlainKeyInert("pageCount"); }
      else if j == 3 { PlainKeyInert("deadline"); }
      else if j == 4 { PlainKeyInert("instructions"); }
      else if j == 5 { PlainKeyInert("email"); }
      else if j == 6 { PlainKeyInert("fileCount"); }
      else { PlainKeyInert("referenceId"); }
    }
  }

  /** The page's `fileCount` and `referenceId` reach the script among the scalar fields. */
  lemma ScalarLookups(form: FormFields, deadline: string, count: nat, id: string)
    ensures Lookup(ScalarFields(form, deadline, count, id), "fileCount") == Some(Str(Decimal(count)))
    ensures Lookup(ScalarFields(form, deadline, count, id), "referenceId") == Some(Str(id))
  {
    var f := ScalarFields(form, deadline, count, id);
    assert "pageCount"[0] != "fileCount"[0];
    LookupPastPrefix(f[..6], f[6..], "fileCount");
    LookupPastPrefix(f[..7], f[7..], "referenceId");
    assert f == f[..6] + f[6..] && f == f[..7] + f[7..];
  }

  /** The entry at position `m` among the file entries of a submission body. */
  lemma FileEntryAt(body: seq<Entry>, files: seq<File>, form: FormFields, deadline: string, id: string, m: nat)
    requires IsSubmissionBody(body, files, form, deadline, id)
    requires m < 4 * |files|
    ensures m / 4 < |files| && body[m] == FileEntries(m / 4, files[m / 4])[m % 4]
  {
    var i := m / 4;
    assert body[4 * i..4 * i + 4] == FileEntries(i, files[i]);
    assert body[m] == body[4 * i..4 * i + 4][m - 4 * i];
  }

  /**
   * The text parts among the file entries are named `file<i>_name`,
   * `file<i>_type` and `file<i>_size`: inert keys that start with `file` and a digit.
   */
  lemma FileTextKeys(body: seq<Entry>, files: seq<File>, form: FormFields, deadline: string, id: string, m: nat)
    requires IsSubmissionBody(body, files, form, deadline, id)
    requires m < 4 * |files| && body[m].part.Text?
    ensures FileMetadataKey(body[m].name)
  {
    FileEntryAt(body, files, form, deadline, id, m);
    var i := m / 4;
    var digits := Decimal(i);
    var e := FileEntries(i, files[i]);
    if m % 4 == 1 {
      assert body[m].name == "file" + digits + "_name" == e[1].name;
      FileFieldKeyInert(digits, "_name");
    } else if m % 4 == 2 {
      assert body[m].name == "file" + digits + "_type" == e[2].name;
      FileFieldKeyInert(digits, "_type");
    } else if m % 4 == 3 {
      assert body[m].name == "file" + digits + "_size" == e[3].name;
      FileFieldKeyInert(digits, "_size");
    }
  }

  /** What the script receives of a submission body: the file parts' text fields, then the scalar fields. */
  lemma SubmissionReceived(body: seq<Entry>, files: seq<File>, form: FormFields, deadline: string, id: string)
    requires IsSubmissionBody(body, files, form, deadline, id)
    ensures var front := ReceivedBody(body[..4 * |files|]);
      && ReceivedBody(body) == front + ScalarFields(form, deadline, |files|, id)
      && forall j | 0 <= j < |front| :: FileMetadataKey(front[j].0)
  {
    var n := |files|;
    var fileParts := body[..4 * n];
    assert body == fileParts + body[4 * n..];
    ReceivedBodyAppend(fileParts, body[4 * n..]);
    ScalarsReceived(form, deadline, n, id);
    forall m | 0 <= m < |fileParts| && fileParts[m].part.Text?
      ensures FileMetadataKey(fileParts[m].name)
    {
      assert fileParts[m] == body[m];
      FileTextKeys(body, files, form, deadline, id, m);
    }
    ReceivedFileMetadataKeys(fileParts);
  }

  /** A body whose every key is inert gives the body-field passes nothing to find. */
  lemma InertBodyDetectsNothing(body: seq<(string, Value)>)
    requires forall j | 0 <= j < |body| :: Inert(body[j].0)
    ensures FileFieldPass(body) == []
    ensures MetadataFields(Keys(body)) == []
    ensures PossibleFiles(Keys(body)) == []
  {
    LookupFindsFirst(body, "file");
    NoMetadataFields(Keys(body));
    NoPossibleFiles(Keys(body));
  }

  /** A request with inert body keys and no `data.files` is detected only through its binary map. */
  lemma InertRequestDetectsOnlyBinary(req: Request)
    requires forall j | 0 <= j < |req.body| :: Inert(req.body[j].0)
    requires req.dataFiles == NoDataFiles
    ensures DetectedFiles(req) == BinaryPass(BinaryEntries(req))
  {
    InertBodyDetectsNothing(req.body);
    var p1 := BinaryPass(BinaryEntries(req));
    assert MetadataPass([], req.body, NamesOf(p1)) == [];
    assert LegacyPass([], req.body) == [];
    assert p1 + [] + [] + [] + [] == p1;
  }

  /** Every field the script receives of a submission body has an inert key. */
  lemma SubmissionKeysInert(body: seq<Entry>, files: seq<File>, form: FormFields, deadline: string, id: string)
    requires IsSubmissionBody(body, files, form, deadline, id)
    ensures forall j | 0 <= j < |ReceivedBody(body)| :: Inert(ReceivedBody(body)[j].0)
  {
    SubmissionReceived(body, files, form, deadline, id);
    ScalarKeysInert(form, deadline, |files|, id);
    var front := ReceivedBody(body[..4 * |files|]);
    var scalars := ScalarFields(form, deadline, |files|, id);
    var received := ReceivedBody(body);
    forall j | 0 <= j < |received| ensures Inert(received[j].0) {
      if j < |front| {
        assert received[j] == front[j];
      } else {
        assert received[j] == scalars[j - |front|];
      }
    }
  }

  /**
   * The page's request is detected only through the binary map: its metadata
   * fields `file<i>_name` match neither `file_(\d+)_name` nor `file\d+$`, and it
   * sends no `file` field.
   */
  lemma SubmissionDetectedOnlyThroughBinary(body: seq<Entry>, files: seq<File>, form: FormFields, deadline: string,
                                            id: string, binary: Option<seq<(string, BinaryItem)>>, contentType: string)
    requires IsSubmissionBody(body, files, form, deadline, id)
    ensures var req := Request(binary, ReceivedBody(body), NoDataFiles, contentType);
      DetectedFiles(req) == BinaryPass(BinaryEntries(req))
  {
    SubmissionKeysInert(body, files, form, deadline, id);
    InertRequestDetectsOnlyBinary(Request(binary, ReceivedBody(body), NoDataFiles, contentType));
  }

  /** A lookup skips a prefix that does not hold the key. */
  lemma {:induction false} LookupPastPrefix(a: seq<(string, Value)>, b: seq<(string, Value)>, key: string)
    requires forall i | 0 <= i < |a| :: a[i].0 != key
    ensures Lookup(a + b, key) == Lookup(b, key)
  {
    if a == [] {
      assert a + b == b;
    } else {
      assert forall i | 0 <= i < |a[1..]| :: a[1..][i] == a[i + 1];
      LookupPastPrefix(a[1..], b, key);
      assert (a + b)[0] == a[0];
      assert (a + b)[1..] == a[1..] + b;
    }
  }

  /** The page's `fileCount` and `referenceId` fields reach the script unchanged. */
  lemma SubmissionScalarsReceived(body: seq<Entry>, files: seq<File>, form: FormFields, deadline: string, id: string)
    requires IsSubmissionBody(body, files, form, deadline, id)
    ensures Lookup(ReceivedBody(body), "fileCount") == Some(Str(Decimal(|files|)))
    ensures Lookup(ReceivedBody(body), "referenceId") == Some(Str(id))
  {
    SubmissionReceived(body, files, form, deadline, id);
    var front := ReceivedBody(body[..4 * |files|]);
    forall j | 0 <= j < |front| ensures front[j].0 != "fileCount" && front[j].0 != "referenceId" {
      var key := front[j].0;
      assert key[0] == key[..4][0] == 'f';
      assert !IsDecimalDigit("fileCount"[4]);
    }
    ScalarLookups(form, deadline, |files|, id);
    LookupPastPrefix(front, ScalarFields(form, deadline, |files|, id), "fileCount");
    LookupPastPrefix(front, ScalarFields(form, deadline, |files|, id), "referenceId");
  }

  /**
   * What the script reads from a submission body: the files come only from the
   * binary map, the expected count parses back to the number of files, and the
   * reference id is the page's.
   */
  lemma SubmissionRead(body: seq<Entry>, files: seq<File>, form: FormFields, deadline: string, id: string,
                       req: Request)
    requires IsSubmissionBody(body, files, form, deadline, id) && id != ""
    requires req.body == ReceivedBody(body) && req.dataFiles == NoDataFiles
    ensures DetectedFiles(req) == BinaryPass(BinaryEntries(req))
    ensures ParseInt(AsText(OrDefault(Lookup(req.body, "fileCount"), "0"))) == Some(|files|)
    ensures Truthy(Lookup(req.body, "referenceId")) && Lookup(req.body, "referenceId").value == Str(id)
  {
    SubmissionDetectedOnlyThroughBinary(body, files, form, deadline, id, req.binary, req.contentType);
    SubmissionScalarsReceived(body, files, form, deadline, id);
    ParseIntOfDecimal(|files|);
  }

  /**
   * A submission from the page, end to end: the body the page builds, as the
   * script receives it with the files in `binary`. The script acknowledges one
   * file per binary entry, reads back the page's file count, and echoes the
   * page's reference id.
   */
  method ReceiveSubmission(files: seq<File>, form: FormFields, date: Option<Instant>, id: string,
                           binary: Option<seq<(string, BinaryItem)>>, contentType: string,
                           timestamp: string, now: nat)
    returns (ack: Acknowledgement)
    requires id != ""
    ensures ack.success
    ensures ack.names == NamesOf(BinaryPass(if binary.Some? then binary.value else []))
    ensures ack.count == (if binary.Some? then |binary.value| else 0)
    ensures ack.diagnostics.expectedFileCount == Some(|files|)
    ensures ack.referenceId == Str(id)
  {
    var body := BuildSubmissionBody(files, form, date, id);
    var req := Request(binary, ReceivedBody(body), NoDataFiles, contentType);
    SubmissionRead(body, files, form, DeadlineText(date), id, req);
    ack := HandleWebhook(req, timestamp, now);
  }
}
