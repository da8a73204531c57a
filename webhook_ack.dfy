/**
 * The rest of the webhook script: the `formData` echo with its defaults, the
 * reference id, the diagnostics, and the acknowledgement item it returns.
 */
module WebhookAck {
  import opened JsText
  import opened WebhookDiscovery

  /** `formData` of the acknowledgement. */
  datatype FormEcho = FormEcho(
    subject: Value,
    academicLevel: Value,
    pageCount: Value,
    deadline: Value,
    instructions: Value,
    email: Value,
    fileCount: Value,
    uploadedFiles: seq<Value>)

  /** `diagnostics`; `expectedFileCount` is `None` where `parseInt` gives NaN. */
  datatype Diagnostics = Diagnostics(
    expectedFileCount: Option<int>,
    detectedFileCount: nat,
    hasBinaryData: bool,
    detectedFileKeys: seq<string>,
    contentType: string,
    bodyKeys: seq<string>)

  /** The returned item: its `json` part, and the binary map passed through. */
  datatype Acknowledgement = Acknowledgement(
    success: bool,
    referenceId: Value,
    message: string,
    timestamp: string,
    formData: FormEcho,
    count: nat,
    names: seq<Value>,
    hasBinaryData: bool,
    diagnostics: Diagnostics,
    binary: seq<(string, BinaryItem)>)

  const SuccessMessage := "Assignment uploaded successfully"
  const NoFilesDetected := Str("No files detected")

  /** `body?.key || fallback` */
  function OrDefault(v: Option<Value>, fallback: string): (r: Value)
    ensures Truthy(v) ==> r == v.value
    ensures !Truthy(v) ==> r == Str(fallback)
  {
    if Truthy(v) then v.value else Str(fallback)
  }

  /** The id the script makes up when the body has none: `REF-` and the time in upper-case base 36. */
  function FallbackReferenceId(now: nat): (id: string)
    ensures |id| > 4 && id[..4] == "REF-"
    ensures forall i | 4 <= i < |id| :: IsUpperBase36(id[i])
  {
    UpperDigitsAreUpperBase36(Radix(now, 36));
    "REF-" + Upper(Radix(now, 36))
  }

  /** Two fallback ids are equal only when they were made at the same millisecond. */
  lemma FallbackReferenceIdInjective(t1: nat, t2: nat)
    requires FallbackReferenceId(t1) == FallbackReferenceId(t2)
    ensures t1 == t2
  {
    assert Upper(Radix(t1, 36)) == FallbackReferenceId(t1)[4..] == FallbackReferenceId(t2)[4..] == Upper(Radix(t2, 36));
    UpperRadixInjective(t1, t2, 36);
  }

  /** `Object.keys(body).filter(key => key.startsWith('file'))` */
  function FileKeys(keys: seq<string>): (r: seq<string>)
    ensures |r| <= |keys|
    ensures forall i | 0 <= i < |r| :: "file" <= r[i]
  {
    if keys == [] then []
    else
      var front := FileKeys(keys[..|keys| - 1]);
      if "file" <= keys[|keys| - 1] then front + [keys[|keys| - 1]] else front
  }

  /** The filter keeps exactly the keys that start with `file`, in key order. */
  lemma {:induction false} FileKeysExactly(keys: seq<string>)
    ensures forall k :: k in FileKeys(keys) <==> k in keys && "file" <= k
  {
    if keys != [] {
      FileKeysExactly(keys[..|keys| - 1]);
      assert keys == keys[..|keys| - 1] + [keys[|keys| - 1]];
    }
  }

  /** The `formData` echo: each field or its default, and the names found or a placeholder. */
  function EchoForm(body: seq<(string, Value)>, fileNames: seq<Value>): (echo: FormEcho)
    ensures echo.subject == OrDefault(Lookup(body, "subject"), "Not specified")
    ensures echo.academicLevel == OrDefault(Lookup(body, "academicLevel"), "Not specified")
    ensures echo.pageCount == OrDefault(Lookup(body, "pageCount"), "Not specified")
    ensures echo.deadline == OrDefault(Lookup(body, "deadline"), "Not specified")
    ensures echo.instructions == OrDefault(Lookup(body, "instructions"), "None")
    ensures echo.email == OrDefault(Lookup(body, "email"), "Not provided")
    ensures echo.fileCount == OrDefault(Lookup(body, "fileCount"), "0")
    ensures |echo.uploadedFiles| > 0
    ensures fileNames != [] ==> echo.uploadedFiles == fileNames
  {
    FormEcho(
      OrDefault(Lookup(body, "subject"), "Not specified"),
      OrDefault(Lookup(body, "academicLevel"), "Not specified"),
      OrDefault(Lookup(body, "pageCount"), "Not specified"),
      OrDefault(Lookup(body, "deadline"), "Not specified"),
      OrDefault(Lookup(body, "instructions"), "None"),
      OrDefault(Lookup(body, "email"), "Not provided"),
      OrDefault(Lookup(body, "fileCount"), "0"),
      if |fileNames| > 0 then fileNames else [NoFilesDetected])
  }

  /** The item returned for a request, given the detected names, the ISO time and `Date.now()`. */
  function Acknowledge(req: Request, binaryData: seq<(string, BinaryItem)>, fileNames: seq<Value>,
                       timestamp: string, now: nat): Acknowledgement
  {
    var bodyKeys := Keys(req.body);
    var diagnostics := Diagnostics(
      ParseInt(AsText(OrDefault(Lookup(req.body, "fileCount"), "0"))),
      |fileNames|,
      |binaryData| > 0,
      FileKeys(bodyKeys),
      if req.contentType != "" then req.contentType else "unknown",
      bodyKeys);
    Acknowledgement(
      true,
      OrDefault(Lookup(req.body, "referenceId"), FallbackReferenceId(now)),
      SuccessMessage,
      timestamp,
      EchoForm(req.body, fileNames),
      |fileNames|,
      fileNames,
      |binaryData| > 0,
      diagnostics,
      binaryData)
  }

  /**
   * The whole script on one request: detect the files, then acknowledge. The
   * acknowledgement always reports success; its counts are the detected files,
   * whatever the client said it sent.
   */
  method HandleWebhook(req: Request, timestamp: string, now: nat) returns (ack: Acknowledgement)
    ensures ack.success && ack.message == SuccessMessage && ack.timestamp == timestamp
    ensures ack.names == NamesOf(DetectedFiles(req))
    ensures ack.count == ack.diagnostics.detectedFileCount == |DetectedFiles(req)|
    ensures ack.formData == EchoForm(req.body, ack.names)
    ensures ack.formData.uploadedFiles == if DetectedFiles(req) == [] then [NoFilesDetected] else ack.names
    ensures ack.binary == BinaryEntries(req)
    ensures ack.hasBinaryData == ack.diagnostics.hasBinaryData
    ensures ack.hasBinaryData <==> req.binary.Some? && |req.binary.value| > 0
    ensures ack.diagnostics.expectedFileCount == ParseInt(AsText(OrDefault(Lookup(req.body, "fileCount"), "0")))
    ensures Truthy(Lookup(req.body, "referenceId")) ==> ack.referenceId == Lookup(req.body, "referenceId").value
    ensures !Truthy(Lookup(req.body, "referenceId")) ==> ack.referenceId == Str(FallbackReferenceId(now))
    ensures ack.diagnostics.detectedFileKeys == FileKeys(Keys(req.body))
    ensures forall k :: k in ack.diagnostics.detectedFileKeys <==> k in Keys(req.body) && "file" <= k
    ensures ack.diagnostics.bodyKeys == Keys(req.body)
    ensures ack.diagnostics.contentType == if req.contentType != "" then req.contentType else "unknown"
  {
    var binaryData, fileNames, fileDetails := DiscoverFiles(req);
    assert fileNames == NamesOf(fileDetails);
    FileKeysExactly(Keys(req.body));
    ack := Acknowledge(req, binaryData, fileNames, timestamp, now);
  }

  /** An absent or empty `fileCount` is read as 0 expected files. */
  lemma MissingFileCountIsZero(req: Request)
    requires !Truthy(Lookup(req.body, "fileCount"))
    ensures ParseInt(AsText(OrDefault(Lookup(req.body, "fileCount"), "0"))) == Some(0)
  {
    ParseIntOfDecimal(0);
    assert Decimal(0) == "0";
  }
}
