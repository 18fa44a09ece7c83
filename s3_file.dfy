/**
 * `S3FileService.generatePresignedUrl`: the object key, the public URL and
 * the saved file entity for an upload.  The presigner, the file id (a random
 * UUID) and the clock are parameters.
 */
module S3Files {
  import opened Wrappers
  import opened Text

  const PRESIGNED_URL_EXPIRATION_MINUTES: int := 10

  /** `getExtension`: from the last '.' on, case kept; empty for a null name or one without '.'. */
  function GetExtension(filename: Option<string>): (r: string)
    ensures filename.None? || '.' !in filename.value ==> r == ""
    ensures filename.Some? && '.' in filename.value ==>
      && r != "" && r[0] == '.' && '.' !in r[1..]
      && |r| <= |filename.value| && filename.value[|filename.value| - |r|..] == r
  {
    if filename.None? || '.' !in filename.value then ""
    else
      var name := filename.value;
      var k := LastIndexOf(name, '.');
      assert k >= 0 by {
        var j :| 0 <= j < |name| && name[j] == '.';
      }
      assert '.' !in name[k..][1..] by {
        forall i | 0 <= i < |name[k..][1..]|
          ensures name[k..][1..][i] != '.'
        {
          assert name[k..][1..][i] == name[k + 1 + i];
        }
      }
      assert name == name[..k] + name[k..];
      name[k..]
  }

  /** `FileMetadataRequest`: the client's description of the upload. */
  datatype FileMetadata = FileMetadata(originalname: Option<string>, mimeType: string, size: int)

  /** The saved `File` entity. */
  datatype FileEntity = FileEntity(filename: string, originalname: Option<string>, mimetype: string, size: int,
                                   path: string, user: string, uploadDate: int)

  /** `PresignedUrlResponse`. */
  datatype PresignedUrlResponse = PresignedUrlResponse(url: string, accessUrl: string, expiresIn: int, file: FileEntity)

  /** The object key: `prefix/fileId` followed by the original name's extension. */
  function ObjectKey(prefix: string, fileId: string, originalname: Option<string>): string {
    prefix + "/" + fileId + GetExtension(originalname)
  }

  /**
   * The key keeps the original name's extension, as long as the file id has
   * no '.' and, for a name without an extension, the prefix has none either.
   */
  lemma {:induction false} KeyKeepsExtension(prefix: string, fileId: string, originalname: Option<string>)
    requires '.' !in fileId
    requires GetExtension(originalname) == "" ==> '.' !in prefix
    ensures GetExtension(Some(ObjectKey(prefix, fileId, originalname))) == GetExtension(originalname)
  {
    var ext := GetExtension(originalname);
    var key := ObjectKey(prefix, fileId, originalname);
    var head := prefix + "/" + fileId;
    assert key == head + ext;
    if ext == "" {
      assert '.' !in key by {
        forall i | 0 <= i < |key|
          ensures key[i] != '.'
        {
          if i < |prefix| {
            assert key[i] == prefix[i];
          } else if i > |prefix| {
            assert key[i] == fileId[i - |prefix| - 1];
          }
        }
      }
    } else {
      assert key[|head|] == '.';
      assert '.' in key;
      var k := LastIndexOf(key, '.');
      assert key[|head|..] == ext;
    }
  }

  class S3FileService {
    const bucket: string
    const cloudfrontBaseUrl: string
    /** The file repository's saved entities, in order. */
    var saved: seq<FileEntity>

    constructor (bucket: string, cloudfrontBaseUrl: string)
      ensures this.bucket == bucket && this.cloudfrontBaseUrl == cloudfrontBaseUrl && saved == []
    {
      this.bucket := bucket;
      this.cloudfrontBaseUrl := cloudfrontBaseUrl;
      saved := [];
    }

    /**
     * `generatePresignedUrl` with file id `fileId`, at instant `now`;
     * `presign` stands for the presigner, from bucket, key, content type,
     * length and lifetime in minutes to the URL.
     */
    method GeneratePresignedUrl(metadata: FileMetadata, prefix: string, uploaderId: string, fileId: string, now: int,
                                presign: (string, string, string, int, int) -> string)
      returns (response: PresignedUrlResponse)
      modifies this
      ensures var key := ObjectKey(prefix, fileId, metadata.originalname);
              var entity := FileEntity(key, metadata.originalname, metadata.mimeType, metadata.size, key, uploaderId, now);
              && saved == old(saved) + [entity]
              && response.file == entity
              && response.url == presign(bucket, key, metadata.mimeType, metadata.size, PRESIGNED_URL_EXPIRATION_MINUTES)
              && response.accessUrl == cloudfrontBaseUrl + "/" + key
              && response.expiresIn == 600
    {
      var extension := GetExtension(metadata.originalname);
      var key := prefix + "/" + fileId + extension;
      var url := presign(bucket, key, metadata.mimeType, metadata.size, PRESIGNED_URL_EXPIRATION_MINUTES);
      var fileEntity := FileEntity(key, metadata.originalname, metadata.mimeType, metadata.size, key, uploaderId, now);
      saved := saved + [fileEntity];
      var accessUrl := cloudfrontBaseUrl + "/" + key;
      response := PresignedUrlResponse(url, accessUrl, PRESIGNED_URL_EXPIRATION_MINUTES * 60, fileEntity);
    }
  }
}
