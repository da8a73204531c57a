/**
 * The file discovery of the webhook script: five passes over the incoming item
 * (the binary map, a `file` body field, `file_<N>_name` metadata fields, keys
 * ending in `file<N>`, and `data.files`), each appending to the parallel arrays
 * `fileNames` and `fileDetails`.
 */
module WebhookDiscovery {
  import opened JsText

  /** A body field: a string, or an array of strings when the multipart key was repeated. */
  datatype Value = Str(s: string) | Arr(items: seq<string>)

  /** JavaScript truthiness of a body lookup: `undefined` and "" are falsy, arrays are truthy. */
  predicate Truthy(v: Option<Value>) {
    v.Some? && (v.value.Arr? || v.value.s != "")
  }

  /** `String(v)`, which `parseInt` applies to its argument. */
  function AsText(v: Value): string {
    match v
    case Str(s) => s
    case Arr(items) => Join(items, ",")
  }

  /**
   * One entry of the binary map: its `fileName` and `mimeType` ("" when absent)
   * and the length of its `data` (`None` when absent).
   */
  datatype BinaryItem = BinaryItem(fileName: string, mimeType: string, dataLength: Option<nat>)

  /**
   * `json.data.files`: absent (or falsy), present but not an array, or an array
   * of objects known by their `name` ("" when absent or falsy).
   */
  datatype DataFiles = NoDataFiles | NotAnArray | FileObjects(names: seq<string>)

  /**
   * The item the webhook hands the script: the binary map if any (keys in
   * `Object.keys` order), the body fields in `Object.keys` order, `data.files`,
   * and the `content-type` header ("" when absent).
   */
  datatype Request = Request(
    binary: Option<seq<(string, BinaryItem)>>,
    body: seq<(string, Value)>,
    dataFiles: DataFiles,
    contentType: string)

  /** The `source` tag of a detected file. */
  datatype Source = Binary | FileArray | FileSingle | Metadata | FileN | DataFilesArray

  /** The `size` of a detected file: absent, a number, or NaN from `parseInt`. */
  datatype Size = NoSize | Bytes(n: int) | NaN

  /** One element of `fileDetails`; `mimeType` is `None` where the entry has no `type`. */
  datatype FileDetail = FileDetail(name: Value, mimeType: Option<Value>, size: Size, source: Source)

  /** `body[key]` */
  function Lookup(body: seq<(string, Value)>, key: string): Option<Value> {
    if body == [] then None
    else if body[0].0 == key then Some(body[0].1)
    else Lookup(body[1..], key)
  }

  /** `body[key]` is the value of the first field named `key`, and `undefined` when there is none. */
  lemma {:induction false} LookupFindsFirst(body: seq<(string, Value)>, key: string)
    ensures Lookup(body, key).None? <==> forall i | 0 <= i < |body| :: body[i].0 != key
    ensures Lookup(body, key).Some? ==>
      exists i | 0 <= i < |body| ::
        body[i] == (key, Lookup(body, key).value) && forall j | 0 <= j < i :: body[j].0 != key
  {
    if body != [] {
      if body[0].0 == key {
        assert body[0] == (key, Lookup(body, key).value);
      } else {
        var tail := body[1..];
        LookupFindsFirst(tail, key);
        assert forall i | 1 <= i < |body| :: body[i] == tail[i - 1];
        if Lookup(tail, key).Some? {
          var i :| 0 <= i < |tail| &&
            tail[i] == (key, Lookup(tail, key).value) && forall j | 0 <= j < i :: tail[j].0 != key;
          assert body[i + 1] == (key, Lookup(body, key).value);
        }
      }
    }
  }

  /** `Object.keys(body)` */
  function Keys(body: seq<(string, Value)>): (keys: seq<string>)
    ensures |keys| == |body| && forall i | 0 <= i < |body| :: keys[i] == body[i].0
  {
    seq(|body|, i requires 0 <= i < |body| => body[i].0)
  }

  /** `fileNames`, as kept in step with `fileDetails`. */
  function NamesOf(details: seq<FileDetail>): (names: seq<Value>)
    ensures |names| == |details| && forall i | 0 <= i < |details| :: names[i] == details[i].name
  {
    seq(|details|, i requires 0 <= i < |details| => details[i].name)
  }

  lemma NamesOfAppend(a: seq<FileDetail>, b: seq<FileDetail>)
    ensures NamesOf(a + b) == NamesOf(a) + NamesOf(b)
  {
  }

  /** `fileNames.includes(v)`: an array value is a fresh object, equal to nothing already there. */
  predicate Includes(names: seq<Value>, v: Value) {
    v.Str? && v in names
  }

  // ----- pass 1: the binary map -----

  function BinaryDetail(key: string, item: BinaryItem): FileDetail {
    FileDetail(
      Str(if item.fileName != "" then item.fileName else key),
      Some(Str(if item.mimeType != "" then item.mimeType else "unknown")),
      Bytes(if item.dataLength.Some? then item.dataLength.value else 0),
      Binary)
  }

  /** One entry per binary key, in key order. */
  function BinaryPass(entries: seq<(string, BinaryItem)>): (r: seq<FileDetail>)
    ensures |r| == |entries|
    ensures forall i | 0 <= i < |entries| :: r[i] == BinaryDetail(entries[i].0, entries[i].1)
  {
    if entries == [] then []
    else BinaryPass(entries[..|entries| - 1]) + [BinaryDetail(entries[|entries| - 1].0, entries[|entries| - 1].1)]
  }

  // ----- pass 2: the `file` body field -----

  function FileArrayDetail(index: nat): FileDetail {
    FileDetail(Str("file-" + Decimal(index)), None, NoSize, FileArray)
  }

  /** `file-0` ... `file-(k-1)` for an array of k values, a single `file` for a truthy string, else nothing. */
  function FileFieldPass(body: seq<(string, Value)>): (r: seq<FileDetail>)
    ensures !Truthy(Lookup(body, "file")) ==> r == []
    ensures Truthy(Lookup(body, "file")) && Lookup(body, "file").value.Arr? ==>
      |r| == |Lookup(body, "file").value.items| &&
      forall i | 0 <= i < |r| :: r[i].name == Str("file-" + Decimal(i)) && r[i].source == FileArray
    ensures Truthy(Lookup(body, "file")) && Lookup(body, "file").value.Str? ==>
      r == [FileDetail(Str("file"), None, NoSize, FileSingle)]
  {
    var file := Lookup(body, "file");
    if !Truthy(file) then []
    else
      match file.value
      case Arr(items) => seq(|items|, i requires 0 <= i < |items| => FileArrayDetail(i))
      case Str(_) => [FileDetail(Str("file"), None, NoSize, FileSingle)]
  }

  // ----- pass 3: `file_<N>_name` metadata fields -----

  /**
   * The regular expression `file_(\d+)_name` matches `key` at position `p` with
   * `digits` as its group.
   */
  ghost predicate MetadataMatchAt(key: string, p: nat, digits: string) {
    && |digits| > 0 && (forall i | 0 <= i < |digits| :: IsDecimalDigit(digits[i]))
    && p + 10 + |digits| <= |key|
    && key[p..p + 10 + |digits|] == "file_" + digits + "_name"
  }

  /** The match attempt at one position, with the greedy `\d+`. */
  function MatchAt(key: string, p: nat): Option<string> {
    if p + 5 <= |key| && key[p..p + 5] == "file_" then
      var digits := DigitPrefix(key[p + 5..]);
      var q := p + 5 + |digits|;
      if |digits| > 0 && q + 5 <= |key| && key[q..q + 5] == "_name" then Some(digits) else None
    else None
  }

  /** A digit run followed by a non-digit is the longest digit prefix. */
  lemma {:induction false} DigitPrefixOfRun(digits: string, rest: string)
    requires forall i | 0 <= i < |digits| :: IsDecimalDigit(digits[i])
    requires rest != [] && !IsDecimalDigit(rest[0])
    ensures DigitPrefix(digits + rest) == digits
  {
    if digits != [] {
      assert (digits + rest)[1..] == digits[1..] + rest;
      DigitPrefixOfRun(digits[1..], rest);
    }
  }

  lemma MatchAtMeansPattern(key: string, p: nat, digits: string)
    ensures MatchAt(key, p) == Some(digits) <==> MetadataMatchAt(key, p, digits)
  {
    if MetadataMatchAt(key, p, digits) {
      PatternMatchFound(key, p, digits);
    }
    if MatchAt(key, p) == Some(digits) {
      MatchFoundIsPattern(key, p, digits);
    }
  }

  lemma PatternMatchFound(key: string, p: nat, digits: string)
    requires MetadataMatchAt(key, p, digits)
    ensures MatchAt(key, p) == Some(digits)
  {
    var n := |digits|;
    var window := key[p..p + 10 + n];
    assert key[p..p + 5] == window[..5] == "file_";
    assert key[p + 5..] == digits + key[p + 5 + n..] by {
      assert key[p + 5..p + 5 + n] == window[5..5 + n] == digits;
    }
    assert key[p + 5 + n] == window[5 + n] == '_';
    DigitPrefixOfRun(digits, key[p + 5 + n..]);
    assert key[p + 5 + n..p + 10 + n] == window[5 + n..] == "_name";
  }

  lemma MatchFoundIsPattern(key: string, p: nat, digits: string)
    requires MatchAt(key, p) == Some(digits)
    ensures MetadataMatchAt(key, p, digits)
  {
    var n := |digits|;
    assert key[p + 5..p + 5 + n] == digits;
    assert key[p..p + 10 + n] == key[p..p + 5] + key[p + 5..p + 5 + n] + key[p + 5 + n..p + 10 + n];
  }

  /** The leftmost match at or after position `p`. */
  function MatchFrom(key: string, p: nat): Option<string>
    decreases |key| - p
  {
    if p >= |key| then None
    else if MatchAt(key, p).Some? then MatchAt(key, p)
    else MatchFrom(key, p + 1)
  }

  /** `key.match(/file_(\d+)_name/)?.[1]` */
  function MetadataIndex(key: string): Option<string> {
    MatchFrom(key, 0)
  }

  /** With no `f` four places before a `_` from position `p` on, no match starts there or later. */
  lemma {:induction false} NoMatchFrom(key: string, p: nat)
    requires forall q | p <= q && q + 4 < |key| :: key[q] != 'f' || key[q + 4] != '_'
    ensures MatchFrom(key, p) == None
    decreases |key| - p
  {
    if p < |key| {
      if p + 5 <= |key| {
        assert key[p..p + 5][0] == key[p] && key[p..p + 5][4] == key[p + 4];
      }
      NoMatchFrom(key, p + 1);
    }
  }

  lemma {:induction false} MatchFromIsLeftmost(key: string, p: nat)
    ensures MatchFrom(key, p).None? <==> forall q, d | p <= q :: !MetadataMatchAt(key, q, d)
    ensures MatchFrom(key, p).Some? ==>
      exists q | p <= q :: MetadataMatchAt(key, q, MatchFrom(key, p).value) &&
        forall q', d | p <= q' < q :: !MetadataMatchAt(key, q', d)
    decreases |key| - p
  {
    if p >= |key| {
      forall q, d | p <= q ensures !MetadataMatchAt(key, q, d) {}
    } else {
      MatchFromIsLeftmost(key, p + 1);
      forall d ensures MatchAt(key, p) == Some(d) <==> MetadataMatchAt(key, p, d) {
        MatchAtMeansPattern(key, p, d);
      }
      if MatchAt(key, p).Some? {
        assert MetadataMatchAt(key, p, MatchAt(key, p).value);
      }
    }
  }

  /** The regular expression's semantics: `MetadataIndex` finds the group of the leftmost match. */
  lemma MetadataIndexIsLeftmostMatch(key: string)
    ensures MetadataIndex(key).None? <==> forall q, d :: !MetadataMatchAt(key, q, d)
    ensures MetadataIndex(key).Some? ==>
      exists q :: MetadataMatchAt(key, q, MetadataIndex(key).value) &&
        forall q', d | q' < q :: !MetadataMatchAt(key, q', d)
  {
    MatchFromIsLeftmost(key, 0);
  }

  /** `Object.keys(body).filter(key => metadataPattern.test(key))` */
  function MetadataFields(keys: seq<string>): (r: seq<string>)
    ensures |r| <= |keys|
    ensures forall i | 0 <= i < |r| :: MetadataIndex(r[i]).Some?
  {
    if keys == [] then []
    else
      var front := MetadataFields(keys[..|keys| - 1]);
      if MetadataIndex(keys[|keys| - 1]).Some? then front + [keys[|keys| - 1]] else front
  }

  /** The filter keeps exactly the keys the pattern matches. */
  lemma {:induction false} MetadataFieldsExactly(keys: seq<string>)
    ensures forall k :: k in MetadataFields(keys) <==> k in keys && MetadataIndex(k).Some?
  {
    if keys != [] {
      MetadataFieldsExactly(keys[..|keys| - 1]);
      assert keys == keys[..|keys| - 1] + [keys[|keys| - 1]];
    }
  }

  /** A key list with no metadata field selects nothing. */
  lemma {:induction false} NoMetadataFields(keys: seq<string>)
    requires forall j | 0 <= j < |keys| :: MetadataIndex(keys[j]) == None
    ensures MetadataFields(keys) == []
  {
    if keys != [] {
      var front := keys[..|keys| - 1];
      assert forall j | 0 <= j < |front| :: front[j] == keys[j];
      NoMetadataFields(front);
    }
  }

  /** `size ? parseInt(size, 10) : 0` */
  function SizeOf(size: Option<Value>): Size {
    if !Truthy(size) then Bytes(0)
    else
      match ParseInt(AsText(size.value))
      case None => NaN
      case Some(n) => Bytes(n)
  }

  function MetadataDetail(name: Value, index: string, body: seq<(string, Value)>): FileDetail {
    FileDetail(
      name,
      Lookup(body, "file_" + index + "_type"),
      SizeOf(Lookup(body, "file_" + index + "_size")),
      Metadata)
  }

  /**
   * The `forEach` over the metadata fields, given `seen`, the names collected by
   * the passes before it: a field adds an entry when its value is truthy and is
   * not yet among the names collected.
   */
  function MetadataPass(fields: seq<string>, body: seq<(string, Value)>, seen: seq<Value>): (r: seq<FileDetail>)
    ensures |r| <= |fields|
    ensures forall i | 0 <= i < |r| :: r[i].source == Metadata && Truthy(Some(r[i].name))
  {
    if fields == [] then []
    else
      var front := MetadataPass(fields[..|fields| - 1], body, seen);
      var field := fields[|fields| - 1];
      var name := Lookup(body, field);
      match MetadataIndex(field)
      case None => front
      case Some(index) =>
        if Truthy(name) && !Includes(seen + NamesOf(front), name.value)
        then front + [MetadataDetail(name.value, index, body)]
        else front
  }

  /** No string name of `details` is among `seen`, and none occurs twice. */
  ghost predicate FreshNames(details: seq<FileDetail>, seen: seq<Value>) {
    && (forall i | 0 <= i < |details| :: details[i].name.Str? ==> details[i].name !in seen)
    && (forall i, j | 0 <= i < j < |details| :: details[i].name.Str? ==> details[i].name != details[j].name)
  }

  /**
   * Pass 3 de-duplicates: a string name it adds was not among the names seen
   * before it, and it adds no string name twice.
   */
  lemma {:induction false} MetadataPassAddsFreshNames(fields: seq<string>, body: seq<(string, Value)>, seen: seq<Value>)
    ensures FreshNames(MetadataPass(fields, body, seen), seen)
  {
    if fields != [] {
      var front := MetadataPass(fields[..|fields| - 1], body, seen);
      MetadataPassAddsFreshNames(fields[..|fields| - 1], body, seen);
      var r := MetadataPass(fields, body, seen);
      assert r == front || (|r| == |front| + 1 && r == front + [r[|front|]]);
      if r != front {
        var d := r[|r| - 1];
        assert r == front + [d];
        assert !Includes(seen + NamesOf(front), d.name);
        forall i, j | 0 <= i < j < |r| && r[i].name.Str?
          ensures r[i].name != r[j].name
        {
          if j == |front| {
            assert (seen + NamesOf(front))[|seen| + i] == front[i].name;
          }
        }
      }
    }
  }

  /** Every entry of pass 3 comes from a metadata field holding that name, typed and sized by its sibling fields. */
  lemma {:induction false} MetadataPassSources(fields: seq<string>, body: seq<(string, Value)>, seen: seq<Value>)
    ensures forall d | d in MetadataPass(fields, body, seen) ::
      exists f | f in fields ::
        MetadataIndex(f).Some? && Lookup(body, f) == Some(d.name) &&
        d == MetadataDetail(d.name, MetadataIndex(f).value, body)
  {
    if fields != [] {
      var prefix := fields[..|fields| - 1];
      MetadataPassSources(prefix, body, seen);
      assert forall f | f in prefix :: f in fields;
      assert fields[|fields| - 1] in fields;
    }
  }

  // ----- pass 4: keys ending in `file<N>` -----

  /** The number of decimal digits at the end of `s`. */
  function TrailingDigits(s: string): (n: nat)
    ensures n <= |s|
    ensures forall i | |s| - n <= i < |s| :: IsDecimalDigit(s[i])
    ensures n < |s| ==> !IsDecimalDigit(s[|s| - n - 1])
  {
    if s == [] || !IsDecimalDigit(s[|s| - 1]) then 0
    else
      var n := TrailingDigits(s[..|s| - 1]);
      assert forall i | 0 <= i < |s| - 1 :: s[..|s| - 1][i] == s[i];
      n + 1
  }

  /** A digit run at the end, preceded by a non-digit or by nothing, is the whole trailing run. */
  lemma {:induction false} TrailingDigitsExact(s: string, k: nat)
    requires k <= |s|
    requires forall i | |s| - k <= i < |s| :: IsDecimalDigit(s[i])
    requires k < |s| ==> !IsDecimalDigit(s[|s| - k - 1])
    ensures TrailingDigits(s) == k
  {
    if s != [] && IsDecimalDigit(s[|s| - 1]) {
      var front := s[..|s| - 1];
      assert forall i | 0 <= i < |front| :: front[i] == s[i];
      TrailingDigitsExact(front, k - 1);
    }
  }

  /** The regular expression `file\d+$` matches `key` from position `p`. */
  ghost predicate LegacyMatchAt(key: string, p: nat) {
    && p + 4 < |key|
    && key[p..p + 4] == "file"
    && forall i | p + 4 <= i < |key| :: IsDecimalDigit(key[i])
  }

  /** `/file\d+$/.test(key)`, decided on the trailing digit run. */
  predicate EndsWithFileNumber(key: string) {
    var n := TrailingDigits(key);
    n > 0 && n + 4 <= |key| && key[|key| - n - 4..|key| - n] == "file"
  }

  lemma EndsWithFileNumberMeansPattern(key: string)
    ensures EndsWithFileNumber(key) <==> exists p: nat :: LegacyMatchAt(key, p)
  {
    var n := TrailingDigits(key);
    if EndsWithFileNumber(key) {
      assert LegacyMatchAt(key, |key| - n - 4);
    }
    if exists p: nat :: LegacyMatchAt(key, p) {
      var p: nat :| LegacyMatchAt(key, p);
      assert key[p + 3] == key[p..p + 4][3] == 'e';
      TrailingDigitsExact(key, |key| - p - 4);
    }
  }

  /** `Object.keys(body).filter(key => filePattern.test(key))` */
  function PossibleFiles(keys: seq<string>): (r: seq<string>)
    ensures |r| <= |keys|
    ensures forall i | 0 <= i < |r| :: EndsWithFileNumber(r[i])
  {
    if keys == [] then []
    else
      var front := PossibleFiles(keys[..|keys| - 1]);
      if EndsWithFileNumber(keys[|keys| - 1]) then front + [keys[|keys| - 1]] else front
  }

  /** The filter keeps exactly the keys the pattern matches. */
  lemma {:induction false} PossibleFilesExactly(keys: seq<string>)
    ensures forall k :: k in PossibleFiles(keys) <==> k in keys && EndsWithFileNumber(k)
  {
    if keys != [] {
      PossibleFilesExactly(keys[..|keys| - 1]);
      assert keys == keys[..|keys| - 1] + [keys[|keys| - 1]];
    }
  }

  /** A key list with no key ending in `file<N>` selects nothing. */
  lemma {:induction false} NoPossibleFiles(keys: seq<string>)
    requires forall j | 0 <= j < |keys| :: !EndsWithFileNumber(keys[j])
    ensures PossibleFiles(keys) == []
  {
    if keys != [] {
      var front := keys[..|keys| - 1];
      assert forall j | 0 <= j < |front| :: front[j] == keys[j];
      NoPossibleFiles(front);
    }
  }

  /** The `forEach` over those keys: each one whose value is truthy, named by the key, with no de-duplication. */
  function LegacyPass(keys: seq<string>, body: seq<(string, Value)>): (r: seq<FileDetail>)
    ensures |r| <= |keys|
  {
    if keys == [] then []
    else
      var front := LegacyPass(keys[..|keys| - 1], body);
      var key := keys[|keys| - 1];
      if Truthy(Lookup(body, key)) then front + [FileDetail(Str(key), None, NoSize, FileN)] else front
  }

  /** Each entry of pass 4 is named by one of the keys, and that key's value is truthy. */
  lemma {:induction false} LegacyPassEntries(keys: seq<string>, body: seq<(string, Value)>)
    ensures forall i | 0 <= i < |LegacyPass(keys, body)| ::
      var d := LegacyPass(keys, body)[i];
      d.source == FileN && d.name.Str? && d.name.s in keys && Truthy(Lookup(body, d.name.s))
  {
    if keys != [] {
      var front := keys[..|keys| - 1];
      LegacyPassEntries(front, body);
      assert forall k | k in front :: k in keys;
    }
  }

  // ----- pass 5: `data.files` -----

  function DataFileDetail(name: string): FileDetail {
    FileDetail(Str(if name != "" then name else "unnamed file"), None, NoSize, DataFilesArray)
  }

  /** One entry per object of an array `data.files`; nothing otherwise. */
  function DataFilesPass(dataFiles: DataFiles): (r: seq<FileDetail>)
    ensures !dataFiles.FileObjects? ==> r == []
    ensures dataFiles.FileObjects? ==>
      |r| == |dataFiles.names| &&
      forall i | 0 <= i < |r| :: r[i] == DataFileDetail(dataFiles.names[i])
  {
    match dataFiles
    case FileObjects(names) => seq(|names|, i requires 0 <= i < |names| => DataFileDetail(names[i]))
    case _ => []
  }

  // ----- all five passes -----

  /** What the binary map contributes: `binaryData` once the script has copied the map into it. */
  function BinaryEntries(req: Request): seq<(string, BinaryItem)> {
    if req.binary.Some? then req.binary.value else []
  }

  /** `fileDetails` after the five passes, in pass order. */
  function DetectedFiles(req: Request): seq<FileDetail> {
    var p1 := BinaryPass(BinaryEntries(req));
    var p2 := FileFieldPass(req.body);
    var p3 := MetadataPass(MetadataFields(Keys(req.body)), req.body, NamesOf(p1 + p2));
    var p4 := LegacyPass(PossibleFiles(Keys(req.body)), req.body);
    var p5 := DataFilesPass(req.dataFiles);
    p1 + p2 + p3 + p4 + p5
  }

  /**
   * The script's detection: each pass pushes onto `fileNames` and `fileDetails`
   * together, and `binaryData` is replaced by the binary map when there is one.
   */
  method DiscoverFiles(req: Request)
    returns (binaryData: seq<(string, BinaryItem)>, fileNames: seq<Value>, fileDetails: seq<FileDetail>)
    ensures binaryData == BinaryEntries(req)
    ensures fileDetails == DetectedFiles(req)
    ensures |fileNames| == |fileDetails| && forall i | 0 <= i < |fileDetails| :: fileNames[i] == fileDetails[i].name
  {
    binaryData := [];
    fileNames := [];
    fileDetails := [];
    ghost var p1 := BinaryPass(BinaryEntries(req));
    if req.binary.Some? {
      binaryData := req.binary.value;
      fileNames, fileDetails := PushBinaryFiles(binaryData, fileNames, fileDetails);
    }
    assert fileDetails == p1;
    ghost var p2 := FileFieldPass(req.body);
    fileNames, fileDetails := PushFileField(req.body, fileNames, fileDetails);
    assert fileDetails == p1 + p2;
    ghost var p3 := MetadataPass(MetadataFields(Keys(req.body)), req.body, NamesOf(p1 + p2));
    fileNames, fileDetails := PushMetadataFiles(req.body, fileNames, fileDetails);
    assert fileDetails == p1 + p2 + p3;
    ghost var p4 := LegacyPass(PossibleFiles(Keys(req.body)), req.body);
    fileNames, fileDetails := PushLegacyFiles(req.body, fileNames, fileDetails);
    assert fileDetails == p1 + p2 + p3 + p4;
    ghost var p5 := DataFilesPass(req.dataFiles);
    if req.dataFiles.FileObjects? {
      var dataFiles := DataFilesPass(req.dataFiles);
      NamesOfAppend(fileDetails, dataFiles);
      fileNames := fileNames + NamesOf(dataFiles);
      fileDetails := fileDetails + dataFiles;
    }
    assert fileDetails == p1 + p2 + p3 + p4 + p5;
  }

  /** Method 1: one entry per key of the binary map. */
  method PushBinaryFiles(binaryData: seq<(string, BinaryItem)>, names0: seq<Value>, details0: seq<FileDetail>)
    returns (fileNames: seq<Value>, fileDetails: seq<FileDetail>)
    requires names0 == NamesOf(details0)
    ensures fileDetails == details0 + BinaryPass(binaryData)
    ensures fileNames == NamesOf(fileDetails)
  {
    fileNames, fileDetails := names0, details0;
    for i := 0 to |binaryData|
      invariant fileDetails == details0 + BinaryPass(binaryData[..i])
      invariant fileNames == NamesOf(fileDetails)
    {
      var (key, item) := binaryData[i];
      var fileName := if item.fileName != "" then item.fileName else key;
      var detail := BinaryDetail(key, item);
      assert BinaryPass(binaryData[..i + 1]) == BinaryPass(binaryData[..i]) + [detail] by {
        assert binaryData[..i + 1][..i] == binaryData[..i];
      }
      assert NamesOf(fileDetails + [detail]) == fileNames + [Str(fileName)] by {
        NamesOfAppend(fileDetails, [detail]);
      }
      fileNames := fileNames + [Str(fileName)];
      fileDetails := fileDetails + [detail];
    }
    assert binaryData[..|binaryData|] == binaryData;
  }

  /** Method 2: the `file` body field, as an array or as a single value. */
  method PushFileField(body: seq<(string, Value)>, names0: seq<Value>, details0: seq<FileDetail>)
    returns (fileNames: seq<Value>, fileDetails: seq<FileDetail>)
    requires names0 == NamesOf(details0)
    ensures fileDetails == details0 + FileFieldPass(body)
    ensures fileNames == NamesOf(fileDetails)
  {
    fileNames, fileDetails := names0, details0;
    var file := Lookup(body, "file");
    if Truthy(file) {
      if file.value.Arr? {
        var items := file.value.items;
        for index := 0 to |items|
          invariant fileDetails == details0 + seq(index, i requires 0 <= i < index => FileArrayDetail(i))
          invariant fileNames == NamesOf(fileDetails)
        {
          fileNames := fileNames + [Str("file-" + Decimal(index))];
          fileDetails := fileDetails + [FileArrayDetail(index)];
        }
      } else {
        fileNames := fileNames + [Str("file")];
        fileDetails := fileDetails + [FileDetail(Str("file"), None, NoSize, FileSingle)];
      }
    }
  }

  /** One more field for pass 3: an entry for it when it matches, its value is truthy and the name is new. */
  lemma MetadataPassStep(fields: seq<string>, body: seq<(string, Value)>, seen: seq<Value>, k: nat)
    requires k < |fields|
    ensures var front := MetadataPass(fields[..k], body, seen);
      var name := Lookup(body, fields[k]);
      MetadataPass(fields[..k + 1], body, seen) ==
        if MetadataIndex(fields[k]).Some? && Truthy(name) && !Includes(seen + NamesOf(front), name.value)
        then front + [MetadataDetail(name.value, MetadataIndex(fields[k]).value, body)]
        else front
  {
    assert fields[..k + 1][..k] == fields[..k];
  }

  /** Method 3: the metadata fields, skipping names already collected. */
  method PushMetadataFiles(body: seq<(string, Value)>, names0: seq<Value>, details0: seq<FileDetail>)
    returns (fileNames: seq<Value>, fileDetails: seq<FileDetail>)
    requires names0 == NamesOf(details0)
    ensures fileDetails == details0 + MetadataPass(MetadataFields(Keys(body)), body, names0)
    ensures fileNames == NamesOf(fileDetails)
  {
    fileNames, fileDetails := names0, details0;
    var metadataFields := FilterMetadataFields(body);
    for k := 0 to |metadataFields|
      invariant fileDetails == details0 + MetadataPass(metadataFields[..k], body, names0)
      invariant fileNames == NamesOf(fileDetails)
    {
      var field := metadataFields[k];
      var index := MetadataIndex(field).value;
      var name := Lookup(body, field);
      var fileType := Lookup(body, "file_" + index + "_type");
      var size := Lookup(body, "file_" + index + "_size");
      ghost var before := MetadataPass(metadataFields[..k], body, names0);
      assert fileNames == names0 + NamesOf(before) by {
        NamesOfAppend(details0, before);
      }
      if Truthy(name) && !Includes(fileNames, name.value) {
        var detail := FileDetail(name.value, fileType, SizeOf(size), Metadata);
        assert MetadataPass(metadataFields[..k + 1], body, names0) == before + [detail] by {
          MetadataPassStep(metadataFields, body, names0, k);
        }
        assert NamesOf(fileDetails + [detail]) == fileNames + [name.value] by {
          NamesOfAppend(fileDetails, [detail]);
        }
        fileNames := fileNames + [name.value];
        fileDetails := fileDetails + [detail];
        assert fileDetails == details0 + (before + [detail]);
      } else {
        assert MetadataPass(metadataFields[..k + 1], body, names0) == before by {
          MetadataPassStep(metadataFields, body, names0, k);
        }
      }
    }
    assert metadataFields[..|metadataFields|] == metadataFields;
  }

  /** One more key for pass 4: an entry for it when its value is truthy. */
  lemma LegacyPassStep(keys: seq<string>, body: seq<(string, Value)>, k: nat)
    requires k < |keys|
    ensures LegacyPass(keys[..k + 1], body) == LegacyPass(keys[..k], body) +
      (if Truthy(Lookup(body, keys[k])) then [FileDetail(Str(keys[k]), None, NoSize, FileN)] else [])
  {
    assert keys[..k + 1][..k] == keys[..k];
  }

  /** Method 4: keys ending in `file<N>` whose value is truthy. */
  method PushLegacyFiles(body: seq<(string, Value)>, names0: seq<Value>, details0: seq<FileDetail>)
    returns (fileNames: seq<Value>, fileDetails: seq<FileDetail>)
    requires names0 == NamesOf(details0)
    ensures fileDetails == details0 + LegacyPass(PossibleFiles(Keys(body)), body)
    ensures fileNames == NamesOf(fileDetails)
  {
    fileNames, fileDetails := names0, details0;
    var possibleFiles := FilterPossibleFiles(body);
    for k := 0 to |possibleFiles|
      invariant fileDetails == details0 + LegacyPass(possibleFiles[..k], body)
      invariant fileNames == NamesOf(fileDetails)
    {
      var fileKey := possibleFiles[k];
      ghost var before := LegacyPass(possibleFiles[..k], body);
      if Truthy(Lookup(body, fileKey)) {
        var detail := FileDetail(Str(fileKey), None, NoSize, FileN);
        assert LegacyPass(possibleFiles[..k + 1], body) == before + [detail] by {
          LegacyPassStep(possibleFiles, body, k);
        }
        assert NamesOf(fileDetails + [detail]) == fileNames + [Str(fileKey)] by {
          NamesOfAppend(fileDetails, [detail]);
        }
        fileNames := fileNames + [Str(fileKey)];
        fileDetails := fileDetails + [detail];
        assert fileDetails == details0 + (before + [detail]);
      } else {
        assert LegacyPass(possibleFiles[..k + 1], body) == before by {
          LegacyPassStep(possibleFiles, body, k);
        }
      }
    }
    assert possibleFiles[..|possibleFiles|] == possibleFiles;
  }

  /** The filter of the metadata fields, written as the loop it runs. */
  method FilterMetadataFields(body: seq<(string, Value)>) returns (fields: seq<string>)
    ensures fields == MetadataFields(Keys(body))
  {
    var keys := Keys(body);
    fields := [];
    for i := 0 to |keys|
      invariant fields == MetadataFields(keys[..i])
    {
      assert keys[..i + 1][..i] == keys[..i];
      if MetadataIndex(keys[i]).Some? {
        fields := fields + [keys[i]];
      }
    }
    assert keys[..|keys|] == keys;
  }

  /** The filter of the legacy keys, written as the loop it runs. */
  method FilterPossibleFiles(body: seq<(string, Value)>) returns (fileKeys: seq<string>)
    ensures fileKeys == PossibleFiles(Keys(body))
  {
    var keys := Keys(body);
    fileKeys := [];
    for i := 0 to |keys|
      invariant fileKeys == PossibleFiles(keys[..i])
    {
      assert keys[..i + 1][..i] == keys[..i];
      if EndsWithFileNumber(keys[i]) {
        fileKeys := fileKeys + [keys[i]];
      }
    }
    assert keys[..|keys|] == keys;
  }
}

/** What the detection passes make of the two field layouts a client may send for one upload. */
module DetectionScenarios {
  import opened JsText
  import opened WebhookDiscovery

  /** A decimal index as a client writes it into a field name. */
  predicate IsIndex(n: string) {
    |n| > 0 && forall i | 0 <= i < |n| :: IsDecimalDigit(n[i])
  }

  /** `file_<n>_name`, `file_<n>_type`, `file_<n>_size`. */
  function MetadataKey(n: string, suffix: string): string {
    "file_" + n + suffix
  }

  /** `file_<n>_name` is matched, with `n` as the group. */
  lemma NameKeyMatched(n: string)
    requires IsIndex(n)
    ensures MetadataIndex(MetadataKey(n, "_name")) == Some(n)
  {
    var key := MetadataKey(n, "_name");
    assert key[0..10 + |n|] == key;
    PatternMatchFound(key, 0, n);
  }

  /** Its siblings `file_<n>_type` and `file_<n>_size` are not matched. */
  lemma SiblingKeyNotMatched(n: string, suffix: string)
    requires IsIndex(n) && (suffix == "_type" || suffix == "_size")
    ensures MetadataIndex(MetadataKey(n, suffix)) == None
    ensures !EndsWithFileNumber(MetadataKey(n, suffix))
  {
    var key := MetadataKey(n, suffix);
    assert key[5..] == n + suffix;
    DigitPrefixOfRun(n, suffix);
    assert key[..5] == "file_" && key[5 + |n|..10 + |n|] == suffix;
    forall q | 1 <= q && q + 4 < |key|
      ensures key[q] != 'f' || key[q + 4] != '_'
    {
      if q < 5 {
        assert key[q] == "file_"[q];
      } else if q < 5 + |n| {
        assert key[q] == n[q - 5];
      } else {
        assert key[q] == suffix[q - 5 - |n|];
      }
    }
    NoMatchFrom(key, 1);
    assert key[|key| - 1] == 'e';
  }

  /** The legacy key `file<n>` ends in `file<N>` and has no metadata match. */
  lemma LegacyKeyShape(n: string)
    requires IsIndex(n)
    ensures EndsWithFileNumber("file" + n)
    ensures MetadataIndex("file" + n) == None
  {
    var key := "file" + n;
    assert key[3] == 'e';
    TrailingDigitsExact(key, |n|);
    assert key[..4] == "file";
    forall i | 4 <= i < |key| ensures key[i] != '_' {
      assert key[i] == n[i - 4];
    }
    NoMatchFrom(key, 0);
  }

  /** The three metadata fields of one upload, in the order a client appends them. */
  function MetadataBody(n: string, name: string, mimeType: string, size: nat): seq<(string, Value)> {
    [ (MetadataKey(n, "_name"), Str(name)),
      (MetadataKey(n, "_type"), Str(mimeType)),
      (MetadataKey(n, "_size"), Str(Decimal(size))) ]
  }

  lemma MetadataBodyLookups(n: string, name: string, mimeType: string, size: nat)
    requires IsIndex(n)
    ensures var body := MetadataBody(n, name, mimeType, size);
      && Keys(body) == [MetadataKey(n, "_name"), MetadataKey(n, "_type"), MetadataKey(n, "_size")]
      && Lookup(body, "file") == None
      && Lookup(body, MetadataKey(n, "_name")) == Some(Str(name))
      && Lookup(body, MetadataKey(n, "_type")) == Some(Str(mimeType))
      && Lookup(body, MetadataKey(n, "_size")) == Some(Str(Decimal(size)))
  {
    var body := MetadataBody(n, name, mimeType, size);
    var k1, k2, k3 := MetadataKey(n, "_name"), MetadataKey(n, "_type"), MetadataKey(n, "_size");
    assert k1[6 + |n|] == 'n' && k2[6 + |n|] == 't' && k3[6 + |n|] == 's';
    assert body[1..][1..] == [(k3, Str(Decimal(size)))];
    assert Lookup(body[1..][1..], k3) == Some(Str(Decimal(size)));
    assert Lookup(body[1..], k2) == Some(Str(mimeType));
    assert Lookup(body[1..], k3) == Some(Str(Decimal(size)));
    LookupFindsFirst(body, "file");
    assert body[0].0 != "file" && body[1].0 != "file" && body[2].0 != "file";
  }

  /** Pass 3 over a single matching field whose value is new. */
  lemma SingleMetadataField(field: string, index: string, name: Value, body: seq<(string, Value)>, seen: seq<Value>)
    requires MetadataIndex(field) == Some(index) && Lookup(body, field) == Some(name)
    requires Truthy(Some(name)) && !Includes(seen, name)
    ensures MetadataPass([field], body, seen) == [MetadataDetail(name, index, body)]
  {
    assert [field][..0] == [];
  }

  /** With no binary map, no `file` field and no `data.files`, only passes 3 and 4 find files. */
  lemma BodyFieldsOnly(req: Request)
    requires req.binary == None && req.dataFiles == NoDataFiles && Lookup(req.body, "file") == None
    ensures DetectedFiles(req) ==
      MetadataPass(MetadataFields(Keys(req.body)), req.body, []) + LegacyPass(PossibleFiles(Keys(req.body)), req.body)
  {
    assert BinaryEntries(req) == [];
    assert NamesOf([] + []) == [];
  }

  /** Pass 3 and pass 4 on the three metadata fields of one upload. */
  lemma MetadataBodyPasses(n: string, name: string, mimeType: string, size: nat)
    requires IsIndex(n) && name != ""
    ensures var body := MetadataBody(n, name, mimeType, size);
      && MetadataFields(Keys(body)) == [MetadataKey(n, "_name")]
      && PossibleFiles(Keys(body)) == []
  {
    var keys := Keys(MetadataBody(n, name, mimeType, size));
    var k1, k2, k3 := MetadataKey(n, "_name"), MetadataKey(n, "_type"), MetadataKey(n, "_size");
    MetadataBodyLookups(n, name, mimeType, size);
    NameKeyMatched(n);
    SiblingKeyNotMatched(n, "_type");
    SiblingKeyNotMatched(n, "_size");
    assert keys[..1] == [k1] && keys[..1][..0] == [] && keys[..2] == [k1, k2] && keys[..2][..1] == [k1];
    assert MetadataFields(keys[..1]) == [k1];
    assert MetadataFields(keys[..2]) == [k1];
    assert k1[|k1| - 1] == 'e';
    NoPossibleFiles(keys);
  }

  /**
   * Metadata fields alone, with no binary part and no `file<N>` key, give exactly
   * one file, typed from its `_type` field and sized from its `_size` field.
   */
  lemma MetadataOnlyRequest(n: string, name: string, mimeType: string, size: nat)
    requires IsIndex(n) && name != ""
    ensures DetectedFiles(Request(None, MetadataBody(n, name, mimeType, size), NoDataFiles, ""))
         == [FileDetail(Str(name), Some(Str(mimeType)), Bytes(size), Metadata)]
  {
    var body := MetadataBody(n, name, mimeType, size);
    var k1 := MetadataKey(n, "_name");
    MetadataBodyLookups(n, name, mimeType, size);
    MetadataBodyPasses(n, name, mimeType, size);
    BodyFieldsOnly(Request(None, body, NoDataFiles, ""));
    NameKeyMatched(n);
    ParseIntOfDecimal(size);
    SingleMetadataField(k1, n, Str(name), body, []);
    assert MetadataDetail(Str(name), n, body) == FileDetail(Str(name), Some(Str(mimeType)), Bytes(size), Metadata);
    assert LegacyPass([], body) == [];
  }

  /** One upload sent both as a legacy `file<n>` field and as `file_<n>_name` metadata. */
  function MixedBody(n: string, content: string, name: string): seq<(string, Value)> {
    [("file" + n, Str(content)), (MetadataKey(n, "_name"), Str(name))]
  }

  lemma MixedBodyLookups(n: string, content: string, name: string)
    requires IsIndex(n)
    ensures var body := MixedBody(n, content, name);
      && Keys(body) == ["file" + n, MetadataKey(n, "_name")]
      && Lookup(body, "file" + n) == Some(Str(content))
      && Lookup(body, MetadataKey(n, "_name")) == Some(Str(name))
      && Lookup(body, MetadataKey(n, "_type")) == None
      && Lookup(body, MetadataKey(n, "_size")) == None
      && Lookup(body, "file") == None
  {
    var body := MixedBody(n, content, name);
    var legacy, meta := "file" + n, MetadataKey(n, "_name");
    assert legacy[4] == n[0] && meta[4] == '_';
    assert body[1..] == [(meta, Str(name))];
    assert Lookup(body[1..], meta) == Some(Str(name));
    var typeKey, sizeKey := MetadataKey(n, "_type"), MetadataKey(n, "_size");
    assert |typeKey| != |legacy| && typeKey[6 + |n|] != meta[6 + |n|];
    assert |sizeKey| != |legacy| && sizeKey[6 + |n|] != meta[6 + |n|];
    LookupFindsFirst(body, typeKey);
    LookupFindsFirst(body, sizeKey);
    LookupFindsFirst(body, "file");
    assert body[0].0 != "file" && body[1].0 != "file";
  }

  /** The key filters on the mixed body: one metadata field and one legacy key. */
  lemma MixedBodyFilters(n: string, content: string, name: string)
    requires IsIndex(n)
    ensures var keys := Keys(MixedBody(n, content, name));
      && MetadataFields(keys) == [MetadataKey(n, "_name")]
      && PossibleFiles(keys) == ["file" + n]
  {
    var legacy, meta := "file" + n, MetadataKey(n, "_name");
    var keys := Keys(MixedBody(n, content, name));
    MixedBodyLookups(n, content, name);
    LegacyKeyShape(n);
    NameKeyMatched(n);
    assert meta[|meta| - 1] == 'e';
    assert keys[..1] == [legacy] && keys[..1][..0] == [];
  }

  /**
   * The same upload sent as a legacy `file<n>` field and as `file_<n>_name`
   * metadata is detected twice: pass 3 only skips a name already collected, and
   * pass 4 names its entry by the key.
   */
  lemma LegacyAndMetadataBothDetected(n: string, content: string, name: string)
    requires IsIndex(n) && content != "" && name != ""
    ensures DetectedFiles(Request(None, MixedBody(n, content, name), NoDataFiles, ""))
         == [FileDetail(Str(name), None, Bytes(0), Metadata), FileDetail(Str("file" + n), None, NoSize, FileN)]
  {
    var body := MixedBody(n, content, name);
    var legacy, meta := "file" + n, MetadataKey(n, "_name");
    MixedBodyLookups(n, content, name);
    MixedBodyFilters(n, content, name);
    BodyFieldsOnly(Request(None, body, NoDataFiles, ""));
    NameKeyMatched(n);
    SingleMetadataField(meta, n, Str(name), body, []);
    assert LegacyPass([legacy], body) == [FileDetail(Str(legacy), None, NoSize, FileN)] by {
      assert [legacy][..0] == [];
    }
  }
}
