/** The image upload endpoint (src/app/api/upload/image/route.ts): the
    checks on the uploaded file, in their order, and the object key and URL
    of an accepted one.  The storage configuration check, the UUID, the base
    URL and the outcome of the storage call are arguments. */
module Upload {
  import opened Common
  import opened Text

  /** 5 MiB. */
  const MaxFileSize: nat := 5 * 1024 * 1024

  const AllowedTypes: seq<Str> := ["image/jpeg", "image/jpg", "image/png", "image/gif", "image/webp"]

  const KeyPrefix: Str := "blog-images/"

  const NoFileMessage: Str := "파일이 제공되지 않았습니다."
  const TooLargeMessage: Str := "파일 크기는 5MB를 초과할 수 없습니다."
  const BadTypeMessage: Str := "지원되지 않는 파일 형식입니다. JPG, PNG, GIF, WebP만 지원됩니다."
  const CredentialsMessage: Str := "AWS 인증 정보가 올바르지 않습니다."
  const NoBucketMessage: Str := "S3 버킷을 찾을 수 없습니다."
  const UploadFailedMessage: Str := "이미지 업로드 중 오류가 발생했습니다."

  datatype File = File(name: Str, size: nat, contentType: Str)

  datatype Body =
    | Failure(error: Str)
    | Uploaded(imageUrl: Str, fileName: Str, fileSize: nat, contentType: Str)

  datatype Response = Response(status: nat, body: Body)

  /** What was thrown: an `Error` with its `name`, or something else. */
  datatype Thrown = ErrorNamed(name: Str) | NotAnError

  /** `file.name.split('.').pop()`: the text after the last `.`, or the
      whole name when it has none. */
  function Extension(name: Str): (ext: Str)
    ensures '.' !in ext
    ensures '.' !in name ==> ext == name
    ensures |ext| <= |name| && name[|name| - |ext|..] == ext
    ensures '.' in name ==> |ext| < |name| && name[|name| - |ext| - 1] == '.'
  {
    var parts := Split(name, '.');
    SplitPiecesFree(name, '.');
    assert parts[|parts| - 1] in parts;
    ExtensionSplit(name);
    parts[|parts| - 1]
  }

  /** The last piece of a split is what follows the last separator. */
  lemma ExtensionSplit(name: Str)
    ensures var parts := Split(name, '.');
            var ext := parts[|parts| - 1];
            ('.' !in name ==> |parts| == 1) &&
            (|parts| == 1 ==> ext == name) &&
            (|parts| > 1 ==> name == Join(parts[..|parts| - 1], ".") + "." + ext)
  {
    var parts := Split(name, '.');
    JoinSplit(name, '.');
    if '.' !in name {
      SplitNoSep(name, '.');
    }
    if |parts| > 1 {
      JoinLast(parts, ".");
    }
  }

  lemma {:induction false} JoinLast(parts: seq<Str>, sep: Str)
    requires |parts| > 1
    ensures Join(parts, sep) == Join(parts[..|parts| - 1], sep) + sep + parts[|parts| - 1]
  {
    if |parts| > 2 {
      JoinLast(parts[1..], sep);
      assert parts[1..][..|parts| - 2] == parts[..|parts| - 1][1..];
    } else {
      assert parts[..1] == [parts[0]];
    }
  }

  /** The object key `blog-images/<uuid>.<ext>`. */
  function ObjectKey(uuid: Str, fileName: Str): (key: Str)
    ensures StartsWith(key, KeyPrefix) && |KeyPrefix| + |uuid| <= |key| && key[|KeyPrefix|..|KeyPrefix| + |uuid|] == uuid
    ensures var ext := Extension(fileName);
            |ext| < |key| && key[|key| - |ext|..] == ext && key[|key| - |ext| - 1] == '.'
  {
    KeyPrefix + uuid + "." + Extension(fileName)
  }

  /** The response of the catch block. */
  function ThrownResponse(thrown: Thrown): (r: Response)
    ensures r.status == 500 && r.body.Failure?
    ensures thrown == ErrorNamed("CredentialsError") <==> r.body.error == CredentialsMessage
    ensures thrown == ErrorNamed("NoSuchBucket") <==> r.body.error == NoBucketMessage
    ensures thrown != ErrorNamed("CredentialsError") && thrown != ErrorNamed("NoSuchBucket") ==>
              r.body.error == UploadFailedMessage
  {
    match thrown
    case ErrorNamed(name) =>
      if name == "CredentialsError" then Response(500, Failure(CredentialsMessage))
      else if name == "NoSuchBucket" then Response(500, Failure(NoBucketMessage))
      else Response(500, Failure(UploadFailedMessage))
    case NotAnError => Response(500, Failure(UploadFailedMessage))
  }

  /** `POST`: the configuration check, then presence, size and type of the
      file; an accepted file is stored under a fresh key.  `configured` is
      whether `validateS3Config` passes (it throws a plain `Error`
      otherwise); `stored` is what the storage call threw, if anything. */
  function Post(configured: bool, file: Option<File>, uuid: Str, baseUrl: Str, stored: Option<Thrown>): (r: Response)
    ensures !configured ==> r == ThrownResponse(ErrorNamed("Error"))
    ensures configured && file.None? ==> r == Response(400, Failure(NoFileMessage))
    ensures configured && file.Some? && file.value.size > MaxFileSize ==> r == Response(400, Failure(TooLargeMessage))
    ensures configured && file.Some? && file.value.size <= MaxFileSize && file.value.contentType !in AllowedTypes ==>
              r == Response(400, Failure(BadTypeMessage))
    ensures configured && file.Some? && file.value.size <= MaxFileSize && file.value.contentType in AllowedTypes && stored.Some? ==>
              r == ThrownResponse(stored.value)
    ensures r.status == 200 <==>
              configured && file.Some? && file.value.size <= MaxFileSize && file.value.contentType in AllowedTypes && stored.None?
    ensures r.status == 200 ==>
              var key := ObjectKey(uuid, file.value.name);
              r.body == Uploaded(baseUrl + "/" + key, key, file.value.size, file.value.contentType)
  {
    if !configured then ThrownResponse(ErrorNamed("Error"))
    else if file.None? then Response(400, Failure(NoFileMessage))
    else if file.value.size > MaxFileSize then Response(400, Failure(TooLargeMessage))
    else if file.value.contentType !in AllowedTypes then Response(400, Failure(BadTypeMessage))
    else if stored.Some? then ThrownResponse(stored.value)
    else
      var key := ObjectKey(uuid, file.value.name);
      Response(200, Uploaded(baseUrl + "/" + key, key, file.value.size, file.value.contentType))
  }

  /** The size limit is inclusive: a file of exactly 5 MiB of an allowed
      type is stored, one byte more is refused whatever its type. */
  lemma SizeLimitInclusive(name: Str, contentType: Str, uuid: Str, baseUrl: Str)
    requires contentType in AllowedTypes
    ensures Post(true, Some(File(name, MaxFileSize, contentType)), uuid, baseUrl, None).status == 200
    ensures Post(true, Some(File(name, MaxFileSize + 1, contentType)), uuid, baseUrl, None) == Response(400, Failure(TooLargeMessage))
  {
  }

  /** The size check comes before the type check: an oversized file of a
      refused type gets the size message. */
  lemma SizeBeforeType(file: File, uuid: Str, baseUrl: Str, stored: Option<Thrown>)
    requires file.size > MaxFileSize && file.contentType !in AllowedTypes
    ensures Post(true, Some(file), uuid, baseUrl, stored).body == Failure(TooLargeMessage)
  {
  }

  /** An accepted file's URL ends with its key, and the key keeps the file's
      extension after a `.`. */
  lemma StoredUrlShape(file: File, uuid: Str, baseUrl: Str)
    requires file.size <= MaxFileSize && file.contentType in AllowedTypes
    ensures var r := Post(true, Some(file), uuid, baseUrl, None);
            var ext := Extension(file.name);
            r.body.Uploaded? &&
            r.body.imageUrl[|r.body.imageUrl| - |r.body.fileName|..] == r.body.fileName &&
            r.body.fileName[|r.body.fileName| - |ext|..] == ext &&
            r.body.fileName[|r.body.fileName| - |ext| - 1] == '.'
  {
    var r := Post(true, Some(file), uuid, baseUrl, None);
    var key := ObjectKey(uuid, file.name);
    var ext := Extension(file.name);
    assert r.body.imageUrl == (baseUrl + "/") + key;
    assert key == (KeyPrefix + uuid + ".") + ext;
  }
}
