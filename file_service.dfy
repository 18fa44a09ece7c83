/**
 * The browser-side `FileService`: validation of a chosen file against the
 * allowed types, extension and type lookup by name, the retry rule for a
 * failed request, and cancellation of uploads in flight.
 */
module FileClient {
  import opened Wrappers
  import opened Text
  import opened Lists
  import S3Files

  const UPLOAD_LIMIT: int := 50 * 1024 * 1024

  /** One entry of `allowedTypes`: its key, extensions, MIME types, size cap and display name. */
  datatype TypeConfig = TypeConfig(key: string, extensions: seq<string>, mimeTypes: seq<string>, maxSize: int, name: string)

  const IMAGE: TypeConfig := TypeConfig("image", [".jpg", ".jpeg", ".png", ".gif", ".webp"],
                                        ["image/jpeg", "image/png", "image/gif", "image/webp"], 10 * 1024 * 1024, "이미지")
  const DOCUMENT: TypeConfig := TypeConfig("document", [".pdf"], ["application/pdf"], 20 * 1024 * 1024, "PDF 문서")
  /** `allowedTypes` in its property order, which is the order the loops visit. */
  const ALLOWED_TYPES: seq<TypeConfig> := [IMAGE, DOCUMENT]

  const UNKNOWN_TYPE: string := "unknown"
  const NO_FILE: string := "파일이 선택되지 않았습니다."
  const UNSUPPORTED_TYPE: string := "지원하지 않는 파일 형식입니다."
  const BAD_EXTENSION: string := "파일 확장자가 올바르지 않습니다."
  const UPLOAD_CANCELED: string := "업로드가 취소되었습니다."
  const NOTHING_TO_CANCEL: string := "취소할 업로드를 찾을 수 없습니다."
  const CANCELED_BY_USER: string := "Upload canceled by user"
  const ALL_CANCELED: string := "All uploads canceled"
  const RETRYABLE_STATUSES: seq<int> := [408, 429, 500, 502, 503, 504]

  /** The browser `File`: name (possibly missing), size in bytes, MIME type. */
  datatype FileInfo = FileInfo(name: Option<string>, size: int, mimeType: string)

  /** The `{ success, message }` object validation returns; success carries no message. */
  datatype ValidationResult = ValidationResult(success: bool, message: Option<string>)

  /**
   * `getFileExtension`: empty for a missing or empty name and for a name
   * without '.', else '.' and the lower-cased text after the last '.'.
   */
  function GetFileExtension(filename: Option<string>): (r: string)
    ensures r == "" <==> filename.None? || '.' !in filename.value
  {
    if filename.None? || filename.value == "" || '.' !in filename.value then ""
    else
      var name := filename.value;
      var k := LastIndexOf(name, '.');
      assert k >= 0 by {
        var j :| 0 <= j < |name| && name[j] == '.';
      }
      "." + Lower(name[k + 1..])
  }

  /**
   * The browser's extension is the server's `getExtension` lower-cased: the
   * same last-dot suffix, so it starts with its only '.', and it is already
   * in lower case.
   */
  lemma {:induction false} ExtensionIsLoweredSuffix(filename: Option<string>)
    ensures GetFileExtension(filename) == Lower(S3Files.GetExtension(filename))
    ensures var r := GetFileExtension(filename);
            Lower(r) == r && (r != "" ==> r[0] == '.' && '.' !in r[1..])
  {
    if filename.Some? && '.' in filename.value {
      var name := filename.value;
      var k := LastIndexOf(name, '.');
      assert k >= 0 by {
        var j :| 0 <= j < |name| && name[j] == '.';
      }
      var ext := S3Files.GetExtension(filename);
      var r := GetFileExtension(filename);
      assert ext == name[k..];
      assert r == "." + Lower(name[k + 1..]);
      assert forall i :: 0 <= i < |r| ==> r[i] == LowerChar(ext[i]) by {
        forall i | 0 <= i < |r|
          ensures r[i] == LowerChar(ext[i])
        {
          if i > 0 {
            assert r[i] == Lower(name[k + 1..])[i - 1];
          }
        }
      }
      LoweredByChars(ext, r);
    }
  }

  /** A string that is `s` lowered character by character is `Lower(s)`, already lowered, and keeps `s`'s dots. */
  lemma LoweredByChars(s: string, r: string)
    requires |r| == |s| && forall i :: 0 <= i < |r| ==> r[i] == LowerChar(s[i])
    requires s != "" ==> s[0] == '.' && '.' !in s[1..]
    ensures r == Lower(s) && Lower(r) == r
    ensures r != "" ==> r[0] == '.' && '.' !in r[1..]
  {
    assert r == Lower(s);
    LowerIdempotent(s);
    if r != "" {
      forall i | 1 <= i < |r|
        ensures r[i] != '.'
      {
        assert s[1..][i - 1] == s[i];
      }
      assert forall c :: c in r[1..] ==> c != '.';
    }
  }


  /** The first type, in order, whose MIME list holds `mime`. */
  function FirstByMime(types: seq<TypeConfig>, mime: string): (r: Option<TypeConfig>)
    ensures r.Some? ==> r.value in types && mime in r.value.mimeTypes
    ensures r.None? <==> forall t :: t in types ==> mime !in t.mimeTypes
    ensures r.Some? ==> exists i :: 0 <= i < |types| && types[i] == r.value && forall j :: 0 <= j < i ==> mime !in types[j].mimeTypes
  {
    if types == [] then None
    else if mime in types[0].mimeTypes then Some(types[0])
    else
      var rest := FirstByMime(types[1..], mime);
      if rest.Some? then
        var i :| 0 <= i < |types[1..]| && types[1..][i] == rest.value && forall j :: 0 <= j < i ==> mime !in types[1..][j].mimeTypes;
        assert types[i + 1] == rest.value && forall j :: 0 <= j < i + 1 ==> mime !in types[j].mimeTypes;
        rest
      else rest
  }

  /** The first type, in order, whose extension list holds `ext`. */
  function FirstByExtension(types: seq<TypeConfig>, ext: string): (r: Option<TypeConfig>)
    ensures r.Some? ==> r.value in types && ext in r.value.extensions
    ensures r.None? <==> forall t :: t in types ==> ext !in t.extensions
  {
    if types == [] then None
    else if ext in types[0].extensions then Some(types[0])
    else FirstByExtension(types[1..], ext)
  }

  /**
   * What `validateFile` returns; `formatFileSize` renders a byte count for
   * the size messages.
   */
  function Validation(file: Option<FileInfo>, formatFileSize: int -> string): ValidationResult {
    if file.None? then ValidationResult(false, Some(NO_FILE))
    else if file.value.size > UPLOAD_LIMIT then
      ValidationResult(false, Some("파일 크기는 " + formatFileSize(UPLOAD_LIMIT) + "를 초과할 수 없습니다."))
    else
      match FirstByMime(ALLOWED_TYPES, file.value.mimeType)
      case None => ValidationResult(false, Some(UNSUPPORTED_TYPE))
      case Some(config) =>
        if file.value.size > config.maxSize then
          ValidationResult(false, Some(config.name + " 파일은 " + formatFileSize(config.maxSize) + "를 초과할 수 없습니다."))
        else if Lower(GetFileExtension(file.value.name)) !in config.extensions then
          ValidationResult(false, Some(BAD_EXTENSION))
        else ValidationResult(true, None)
  }

  /** `validateFile`, with its loop over the allowed types. */
  method ValidateFile(file: Option<FileInfo>, formatFileSize: int -> string) returns (result: ValidationResult)
    ensures result == Validation(file, formatFileSize)
  {
    if file.None? {
      return ValidationResult(false, Some(NO_FILE));
    }
    var f := file.value;
    if f.size > UPLOAD_LIMIT {
      return ValidationResult(false, Some("파일 크기는 " + formatFileSize(UPLOAD_LIMIT) + "를 초과할 수 없습니다."));
    }
    var typeConfig: Option<TypeConfig> := None;
    var i := 0;
    while i < |ALLOWED_TYPES|
      invariant 0 <= i <= |ALLOWED_TYPES|
      invariant typeConfig.None? ==> FirstByMime(ALLOWED_TYPES, f.mimeType) == FirstByMime(ALLOWED_TYPES[i..], f.mimeType)
      invariant typeConfig.Some? ==> FirstByMime(ALLOWED_TYPES, f.mimeType) == typeConfig
    {
      var config := ALLOWED_TYPES[i];
      if f.mimeType in config.mimeTypes {
        typeConfig := Some(config);
        break;
      }
      assert ALLOWED_TYPES[i..][1..] == ALLOWED_TYPES[i + 1..];
      i := i + 1;
    }
    if typeConfig.None? {
      return ValidationResult(false, Some(UNSUPPORTED_TYPE));
    }
    if f.size > typeConfig.value.maxSize {
      return ValidationResult(false, Some(typeConfig.value.name + " 파일은 " + formatFileSize(typeConfig.value.maxSize) + "를 초과할 수 없습니다."));
    }
    var ext := GetFileExtension(f.name);
    if Lower(ext) !in typeConfig.value.extensions {
      return ValidationResult(false, Some(BAD_EXTENSION));
    }
    return ValidationResult(true, None);
  }

  /**
   * Validation accepts exactly a present file of at most 50 MB that is either
   * an image (JPEG, PNG, GIF or WebP by MIME type and by extension) of at most
   * 10 MB or a PDF of at most 20 MB named `.pdf`; every rejection carries a message.
   */
  lemma {:induction false} ValidationAcceptsExactly(file: Option<FileInfo>, formatFileSize: int -> string)
    ensures var r := Validation(file, formatFileSize);
      && (r.success <==>
            && file.Some? && file.value.size <= UPLOAD_LIMIT
            && var ext := GetFileExtension(file.value.name);
               || (file.value.mimeType in IMAGE.mimeTypes && file.value.size <= 10 * 1024 * 1024 && ext in IMAGE.extensions)
               || (file.value.mimeType == "application/pdf" && file.value.size <= 20 * 1024 * 1024 && ext == ".pdf"))
      && (r.success <==> r.message.None?)
  {
    if file.Some? {
      var ext := GetFileExtension(file.value.name);
      ExtensionIsLoweredSuffix(file.value.name);
      AllowedByMime(file.value.mimeType);
    }
  }

  /** The allowed types by MIME type: the image types, then PDF. */
  lemma AllowedByMime(mime: string)
    ensures FirstByMime(ALLOWED_TYPES, mime) ==
      if mime in IMAGE.mimeTypes then Some(IMAGE) else if mime == "application/pdf" then Some(DOCUMENT) else None
  {
    assert ALLOWED_TYPES[1..] == [DOCUMENT];
    assert ALLOWED_TYPES[1..][1..] == [];
  }

  /** The allowed types by extension: the image extensions, then `.pdf`. */
  lemma AllowedByExtension(ext: string)
    ensures FirstByExtension(ALLOWED_TYPES, ext) ==
      if ext in IMAGE.extensions then Some(IMAGE) else if ext == ".pdf" then Some(DOCUMENT) else None
  {
    assert ALLOWED_TYPES[1..] == [DOCUMENT];
    assert ALLOWED_TYPES[1..][1..] == [];
  }

  /** An accepted file's type by extension is the type its MIME type chose. */
  lemma {:induction false} AcceptedTypeAgrees(file: FileInfo, formatFileSize: int -> string)
    requires Validation(Some(file), formatFileSize).success
    ensures FirstByExtension(ALLOWED_TYPES, GetFileExtension(file.name)) == FirstByMime(ALLOWED_TYPES, file.mimeType)
  {
    var ext := GetFileExtension(file.name);
    ExtensionIsLoweredSuffix(file.name);
    AllowedByMime(file.mimeType);
    AllowedByExtension(ext);
  }

  /** `getFileType`: the key of the first type claiming the extension, `unknown` when none does or the name is empty. */
  method GetFileType(filename: Option<string>) returns (r: string)
    ensures filename.None? || filename.value == "" ==> r == UNKNOWN_TYPE
    ensures filename.Some? && filename.value != "" ==>
      var found := FirstByExtension(ALLOWED_TYPES, GetFileExtension(filename));
      r == (if found.Some? then found.value.key else UNKNOWN_TYPE)
  {
    if filename.None? || filename.value == "" {
      return UNKNOWN_TYPE;
    }
    var ext := Lower(GetFileExtension(filename));
    ExtensionIsLoweredSuffix(filename);
    var i := 0;
    while i < |ALLOWED_TYPES|
      invariant 0 <= i <= |ALLOWED_TYPES|
      invariant FirstByExtension(ALLOWED_TYPES, ext) == FirstByExtension(ALLOWED_TYPES[i..], ext)
    {
      if ext in ALLOWED_TYPES[i].extensions {
        assert ALLOWED_TYPES[i..][0] == ALLOWED_TYPES[i];
        return ALLOWED_TYPES[i].key;
      }
      assert ALLOWED_TYPES[i..][1..] == ALLOWED_TYPES[i + 1..];
      i := i + 1;
    }
    return UNKNOWN_TYPE;
  }

  /** The failed request given to `isRetryableError`: its response status, absent on a network error. */
  datatype RequestError = RequestError(responseStatus: Option<int>)

  /** `isRetryableError`. */
  predicate IsRetryableError(error: RequestError) {
    error.responseStatus.None? || error.responseStatus.value in RETRYABLE_STATUSES
  }

  /** Retrying happens on a network error, a timeout, throttling, and the 5xx statuses other than 501 up to 504. */
  lemma RetryableExactly(error: RequestError)
    ensures IsRetryableError(error) <==>
      || error.responseStatus.None?
      || error.responseStatus.value == 408 || error.responseStatus.value == 429
      || (500 <= error.responseStatus.value <= 504 && error.responseStatus.value != 501)
  {
  }

  /** The decimal text of a count, as a template literal renders it. */
  function DecimalText(n: nat): (r: string)
    ensures r != []
    ensures forall i :: 0 <= i < |r| ==> '0' <= r[i] <= '9'
  {
    var digit := [(('0' as int) + n % 10) as char];
    if n < 10 then digit else DecimalText(n / 10) + digit
  }

  /** The CancelToken source of an upload. */
  datatype CancelSource = CancelSource(id: nat)

  /** A `source.cancel(reason)` call. */
  datatype Cancellation = Cancellation(source: CancelSource, reason: string)

  /** A `{ success, message }` result of a cancellation. */
  datatype CancelResult = CancelResult(success: bool, message: string)

  /** The cancellations of the uploads named by `order`, in that order, each with `reason`. */
  function Cancellations(sources: map<string, CancelSource>, order: seq<string>, reason: string): (r: seq<Cancellation>)
    requires forall f :: f in order ==> f in sources
    ensures |r| == |order|
  {
    if order == [] then []
    else Cancellations(sources, order[..|order| - 1], reason) + [Cancellation(sources[order[|order| - 1]], reason)]
  }

  /** The `i`-th cancellation is that of the `i`-th upload visited. */
  lemma {:induction false} CancellationsAt(sources: map<string, CancelSource>, order: seq<string>, reason: string)
    requires forall f :: f in order ==> f in sources
    ensures forall i :: 0 <= i < |order| ==> Cancellations(sources, order, reason)[i] == Cancellation(sources[order[i]], reason)
  {
    if order != [] {
      var front := order[..|order| - 1];
      CancellationsAt(sources, front, reason);
      assert forall i :: 0 <= i < |front| ==> order[i] == front[i];
    }
  }

  lemma CancellationsSnoc(sources: map<string, CancelSource>, order: seq<string>, f: string, reason: string)
    requires forall g :: g in order ==> g in sources
    requires f in sources
    ensures Cancellations(sources, order + [f], reason) == Cancellations(sources, order, reason) + [Cancellation(sources[f], reason)]
  {
    assert (order + [f])[..|order|] == order;
  }

  /** Dropping the head of a duplicate-free suffix removes exactly that element. */
  lemma DistinctDrop<T>(s: seq<T>, i: int)
    requires Distinct(s) && 0 <= i < |s|
    ensures Elements(s[i + 1..]) == Elements(s[i..]) - {s[i]}
  {
    assert s[i..] == [s[i]] + s[i + 1..];
    assert s[i] !in s[i + 1..];
  }

  class FileService {
    /** `activeUploads`: file name to the source of its upload. */
    var activeUploads: map<string, CancelSource>
    /** The cancellations issued, in order. */
    var canceled: seq<Cancellation>

    constructor ()
      ensures activeUploads == map[] && canceled == []
    {
      activeUploads := map[];
      canceled := [];
    }

    /** An upload starting registers its source under the file's name. */
    method TrackUpload(filename: string, source: CancelSource)
      modifies this
      ensures activeUploads == old(activeUploads)[filename := source] && canceled == old(canceled)
    {
      activeUploads := activeUploads[filename := source];
    }

    /** `cancelUpload`: a tracked upload is canceled and forgotten; otherwise nothing happens. */
    method CancelUpload(filename: string) returns (result: CancelResult)
      modifies this
      ensures result.success <==> filename in old(activeUploads)
      ensures result.message == (if result.success then UPLOAD_CANCELED else NOTHING_TO_CANCEL)
      ensures activeUploads == old(activeUploads) - {filename} && filename !in activeUploads
      ensures canceled == old(canceled)
        + (if filename in old(activeUploads) then [Cancellation(old(activeUploads)[filename], CANCELED_BY_USER)] else [])
    {
      if filename in activeUploads {
        var source := activeUploads[filename];
        canceled := canceled + [Cancellation(source, CANCELED_BY_USER)];
        activeUploads := activeUploads - {filename};
        return CancelResult(true, UPLOAD_CANCELED);
      }
      return CancelResult(false, NOTHING_TO_CANCEL);
    }

    /**
     * `cancelAllUploads`: every tracked upload is canceled once, the map ends
     * empty, and the count is the number that were tracked.  `order` is the
     * order the entries were visited in.
     */
    method CancelAllUploads() returns (result: CancelResult, canceledCount: nat, order: seq<string>)
      modifies this
      ensures activeUploads == map[]
      ensures Distinct(order) && forall f :: f in order <==> f in old(activeUploads)
      ensures canceledCount == |old(activeUploads)| == |order|
      ensures result == CancelResult(true, DecimalText(canceledCount) + "개의 업로드가 취소되었습니다.")
      ensures canceled == old(canceled) + Cancellations(old(activeUploads), order, ALL_CANCELED)
    {
      order := CopyToList(activeUploads.Keys);
      CancelEach(order);
      canceledCount := |order|;
      result := CancelResult(true, DecimalText(canceledCount) + "개의 업로드가 취소되었습니다.");
    }

    /** The loop of `cancelAllUploads`, visiting the entries in `order`. */
    method CancelEach(order: seq<string>)
      requires Distinct(order) && forall f :: f in order <==> f in activeUploads
      modifies this
      ensures activeUploads == map[]
      ensures canceled == old(canceled) + Cancellations(old(activeUploads), order, ALL_CANCELED)
    {
      ghost var uploads0 := activeUploads;
      ghost var canceled0 := canceled;
      assert order[0..] == order;
      assert Elements(order) == activeUploads.Keys;
      var i := 0;
      while i < |order|
        invariant i <= |order|
        invariant activeUploads.Keys == Elements(order[i..])
        invariant forall f :: f in activeUploads ==> activeUploads[f] == uploads0[f]
        invariant canceled == canceled0 + Cancellations(uploads0, order[..i], ALL_CANCELED)
      {
        var filename := order[i];
        CancelEntry(filename);
        CancellationsSnoc(uploads0, order[..i], filename, ALL_CANCELED);
        assert order[..i + 1] == order[..i] + [filename];
        DistinctDrop(order, i);
        i := i + 1;
      }
      assert order[..i] == order;
    }

    /** One step of `cancelAllUploads`: cancel a tracked upload and forget it. */
    method CancelEntry(filename: string)
      requires filename in activeUploads
      modifies this
      ensures activeUploads == old(activeUploads) - {filename} && activeUploads.Keys == old(activeUploads).Keys - {filename}
      ensures canceled == old(canceled) + [Cancellation(old(activeUploads)[filename], ALL_CANCELED)]
    {
      var source := activeUploads[filename];
      canceled := canceled + [Cancellation(source, ALL_CANCELED)];
      activeUploads := activeUploads - {filename};
    }
  }
}
