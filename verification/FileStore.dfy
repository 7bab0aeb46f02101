/**
 * The file service (`service/storage.go`): metadata rows in PostgreSQL and objects in S3, which
 * `Upload` and `Delete` change one after the other.
 */
module FileStore {
  import opened Wrappers
  import opened Text

  type Bytes = seq<bv8>

  datatype Bucket = Bucket(id: nat, maxFileSize: Option<int>, allowedMimeTypes: seq<string>)

  datatype FileKey = FileKey(bucket: nat, name: string)

  datatype File = File(size: int, mimeType: string)

  datatype Error =
    | BucketNotFound | BucketAlreadyExists
    | FileNotFound | FileAlreadyExists | FileTooLarge | MimeTypeNotAllowed | StorageUnavailable

  /** `buckets` is keyed by the UNIQUE name, `files` by the UNIQUE pair of bucket and file name. */
  datatype State = State(buckets: map<string, Bucket>, files: map<FileKey, File>, objects: map<string, Bytes>)

  function ObjectKey(bucketName: string, fileName: string): string {
    bucketName + "/" + fileName
  }

  predicate SizeAllowed(bucket: Bucket, size: int) {
    bucket.maxFileSize.Some? ==> size <= bucket.maxFileSize.value
  }

  predicate MimeAllowed(bucket: Bucket, mimeType: string) {
    bucket.allowedMimeTypes != [] ==> mimeType in bucket.allowedMimeTypes
  }

  /** An upload that gets past the checks of the bucket. */
  predicate Admitted(s: State, bucketName: string, size: int, mimeType: string) {
    && bucketName in s.buckets
    && SizeAllowed(s.buckets[bucketName], size) && MimeAllowed(s.buckets[bucketName], mimeType)
  }

  /** The bucket, the row and the object of the file are all there. */
  predicate Downloadable(s: State, bucketName: string, fileName: string) {
    && bucketName in s.buckets && FileKey(s.buckets[bucketName].id, fileName) in s.files
    && bucketName + "/" + fileName in s.objects
  }

  // ----- the service ------------------------------------------------------------------------

  class StorageService {
    var buckets: map<string, Bucket>
    var files: map<FileKey, File>
    var objects: map<string, Bytes>

    ghost function Value(): State
      reads this
    {
      State(buckets, files, objects)
    }

    method CreateBucket(name: string, id: nat, maxFileSize: Option<int>, allowedMimeTypes: seq<string>)
      returns (r: Result<Bucket, Error>)
      modifies this`buckets
      ensures name in old(buckets) ==> r == Err(BucketAlreadyExists) && Value() == old(Value())
      ensures name !in old(buckets) ==>
        r == Ok(Bucket(id, maxFileSize, allowedMimeTypes)) && Value() == old(Value()).(buckets := old(buckets)[name := r.value])
    {
      if name in buckets {
        return Err(BucketAlreadyExists);
      }
      var bucket := Bucket(id, maxFileSize, allowedMimeTypes);
      buckets := buckets[name := bucket];
      return Ok(bucket);
    }

    /** The row goes, and with it the rows of its files; the objects stay. */
    method DeleteBucket(name: string) returns (r: Result<(), Error>)
      modifies this`buckets, this`files
      ensures Value() == BucketDeleted(old(Value()), name)
      ensures buckets == old(buckets) - {name} && (name !in old(buckets) ==> files == old(files))
      ensures name in old(buckets) ==>
        && (forall k :: k in files <==> k in old(files) && k.bucket != old(buckets)[name].id)
        && (forall k :: k in files ==> files[k] == old(files)[k])
      ensures r == if name in old(buckets) then Ok(()) else Err(BucketNotFound)
    {
      if name !in buckets {
        return Err(BucketNotFound);
      }
      files := map k | k in files && k.bucket != buckets[name].id :: files[k];
      buckets := buckets - {name};
      return Ok(());
    }

    method Upload(bucketName: string, fileName: string, content: Bytes, size: int, mimeType: string, s3Works: bool)
      returns (r: Result<File, Error>)
      modifies this`files, this`objects
      ensures (Value(), r) == Uploaded(old(Value()), bucketName, fileName, content, size, mimeType, s3Works)
      ensures bucketName !in buckets ==> r == Err(BucketNotFound)
      ensures bucketName in buckets ==>
        var bucket, s3Key := buckets[bucketName], bucketName + "/" + fileName;
        var key := FileKey(bucket.id, fileName);
        if bucket.maxFileSize.Some? && size > bucket.maxFileSize.value then r == Err(FileTooLarge)
        else if bucket.allowedMimeTypes != [] && mimeType !in bucket.allowedMimeTypes then r == Err(MimeTypeNotAllowed)
        else if !s3Works then r == Err(StorageUnavailable)
        else if key in old(files) then
          r == Err(FileAlreadyExists) && files == old(files) && objects == old(objects) - {s3Key}
        else
          && r == Ok(File(size, mimeType))
          && files == old(files)[key := File(size, mimeType)] && objects == old(objects)[s3Key := content]
      ensures r.Err? && r.error != FileAlreadyExists ==> Value() == old(Value())
    {
      if bucketName !in buckets {
        return Err(BucketNotFound);
      }
      var bucket := buckets[bucketName];
      if bucket.maxFileSize.Some? && size > bucket.maxFileSize.value {
        return Err(FileTooLarge);
      }
      if |bucket.allowedMimeTypes| > 0 {
        var allowed := false;
        for k := 0 to |bucket.allowedMimeTypes|
          invariant allowed <==> mimeType in bucket.allowedMimeTypes[..k]
        {
          if bucket.allowedMimeTypes[k] == mimeType {
            allowed := true;
            break;
          }
        }
        if !allowed {
          return Err(MimeTypeNotAllowed);
        }
      }
      var s3Key := ObjectKey(bucketName, fileName);
      if !s3Works {
        return Err(StorageUnavailable);
      }
      objects := objects[s3Key := content];
      var key := FileKey(bucket.id, fileName);
      if key in files {
        // The row insert fails on the UNIQUE pair, and the object is cleaned up.
        objects := objects - {s3Key};
        assert objects == old(objects) - {s3Key};
        return Err(FileAlreadyExists);
      }
      files := files[key := File(size, mimeType)];
      return Ok(files[key]);
    }

    method Download(bucketName: string, fileName: string) returns (r: Result<(Bytes, File), Error>)
      ensures r.Ok? <==> Downloadable(Value(), bucketName, fileName)
      ensures r == Err(BucketNotFound) <==> bucketName !in buckets
      ensures r == Err(FileNotFound) <==> bucketName in buckets && FileKey(buckets[bucketName].id, fileName) !in files
      ensures r.Ok? ==>
        r.value == (objects[ObjectKey(bucketName, fileName)], files[FileKey(buckets[bucketName].id, fileName)])
      ensures r == Err(StorageUnavailable) <==>
        && bucketName in buckets && FileKey(buckets[bucketName].id, fileName) in files
        && ObjectKey(bucketName, fileName) !in objects
    {
      if bucketName !in buckets {
        return Err(BucketNotFound);
      }
      var key := FileKey(buckets[bucketName].id, fileName);
      if key !in files {
        return Err(FileNotFound);
      }
      if ObjectKey(bucketName, fileName) !in objects {
        return Err(StorageUnavailable);
      }
      return Ok((objects[ObjectKey(bucketName, fileName)], files[key]));
    }

    method Delete(bucketName: string, fileName: string, s3Works: bool) returns (r: Result<(), Error>)
      modifies this`files, this`objects
      ensures (Value(), r) == Deleted(old(Value()), bucketName, fileName, s3Works)
      ensures bucketName !in buckets ==> r == Err(BucketNotFound) && Value() == old(Value())
      ensures bucketName in buckets && !s3Works ==> r == Err(StorageUnavailable) && Value() == old(Value())
      ensures bucketName in buckets && s3Works ==>
        var key := FileKey(buckets[bucketName].id, fileName);
        && objects == old(objects) - {bucketName + "/" + fileName} && files == old(files) - {key}
        && r == (if key in old(files) then Ok(()) else Err(FileNotFound))
        && !Downloadable(Value(), bucketName, fileName)
    {
      if bucketName !in buckets {
        return Err(BucketNotFound);
      }
      if !s3Works {
        return Err(StorageUnavailable);
      }
      objects := objects - {ObjectKey(bucketName, fileName)};
      var key := FileKey(buckets[bucketName].id, fileName);
      if key !in files {
        return Err(FileNotFound);
      }
      files := files - {key};
      return Ok(());
    }
  }

  // ----- specification ----------------------------------------------------------------------

  function BucketDeleted(s: State, name: string): State {
    if name in s.buckets then
      State(s.buckets - {name}, map k | k in s.files && k.bucket != s.buckets[name].id :: s.files[k], s.objects)
    else s
  }

  function Uploaded(s: State, bucketName: string, fileName: string, content: Bytes, size: int, mimeType: string,
                    s3Works: bool): (State, Result<File, Error>)
  {
    if bucketName !in s.buckets then (s, Err(BucketNotFound))
    else if !SizeAllowed(s.buckets[bucketName], size) then (s, Err(FileTooLarge))
    else if !MimeAllowed(s.buckets[bucketName], mimeType) then (s, Err(MimeTypeNotAllowed))
    else if !s3Works then (s, Err(StorageUnavailable))
    else
      var key := FileKey(s.buckets[bucketName].id, fileName);
      if key in s.files then
        (s.(objects := s.objects - {ObjectKey(bucketName, fileName)}), Err(FileAlreadyExists))
      else
        (s.(objects := s.objects[ObjectKey(bucketName, fileName) := content],
            files := s.files[key := File(size, mimeType)]), Ok(File(size, mimeType)))
  }

  function Deleted(s: State, bucketName: string, fileName: string, s3Works: bool): (State, Result<(), Error>) {
    if bucketName !in s.buckets then (s, Err(BucketNotFound))
    else if !s3Works then (s, Err(StorageUnavailable))
    else
      var key := FileKey(s.buckets[bucketName].id, fileName);
      var emptied := s.(objects := s.objects - {ObjectKey(bucketName, fileName)});
      if key in s.files then (emptied.(files := s.files - {key}), Ok(()))
      else (emptied, Err(FileNotFound))
  }

  // ----- the outcomes of whole calls --------------------------------------------------------

  /** What a deletion leaves: without the file's row and object, and otherwise as it was. */
  lemma DeletedOutcome(s: State, bucketName: string, fileName: string, s3Works: bool)
    ensures var (after, r) := Deleted(s, bucketName, fileName, s3Works);
      if bucketName in s.buckets && s3Works then
        var key := FileKey(s.buckets[bucketName].id, fileName);
        && after == State(s.buckets, s.files - {key}, s.objects - {bucketName + "/" + fileName})
        && r == (if key in s.files then Ok(()) else Err(FileNotFound))
      else
        after == s && r == Err(if bucketName in s.buckets then StorageUnavailable else BucketNotFound)
  {
    if bucketName in s.buckets && FileKey(s.buckets[bucketName].id, fileName) !in s.files {
      assert s.files - {FileKey(s.buckets[bucketName].id, fileName)} == s.files;
    }
  }

  /** A deleted bucket takes the rows of its files along, and no object. */
  lemma BucketDeletedOutcome(s: State, name: string)
    ensures var after := BucketDeleted(s, name);
      && after.buckets == s.buckets - {name} && after.objects == s.objects
      && (forall k :: k in after.files <==> k in s.files && (name in s.buckets ==> k.bucket != s.buckets[name].id))
      && (forall k :: k in after.files ==> after.files[k] == s.files[k])
  {}

  /** An uploaded file can be downloaded; a deleted one cannot, nor any file of a deleted bucket. */
  lemma DownloadableAfter(s: State, bucketName: string, fileName: string, content: Bytes, size: int, mimeType: string)
    ensures var (after, r) := Uploaded(s, bucketName, fileName, content, size, mimeType, true);
      r.Ok? ==> Downloadable(after, bucketName, fileName) && after.objects[bucketName + "/" + fileName] == content
    ensures !Downloadable(Deleted(s, bucketName, fileName, true).0, bucketName, fileName)
    ensures !Downloadable(BucketDeleted(s, bucketName), bucketName, fileName)
  {}

  // ----- keys -------------------------------------------------------------------------------

  /** Object keys tell files apart when bucket names contain no slash. */
  lemma ObjectKeyInjective(b1: string, f1: string, b2: string, f2: string)
    requires '/' !in b1 && '/' !in b2 && ObjectKey(b1, f1) == ObjectKey(b2, f2)
    ensures b1 == b2 && f1 == f2
  {
    FindAfter(b1, f1, '/');
    FindAfter(b2, f2, '/');
    assert b1 + ['/'] + f1 == ObjectKey(b1, f1) && b2 + ['/'] + f2 == ObjectKey(b2, f2);
    assert ObjectKey(b1, f1)[..|b1|] == b1 && ObjectKey(b2, f2)[..|b2|] == b2;
    assert ObjectKey(b1, f1)[|b1| + 1..] == f1 && ObjectKey(b2, f2)[|b2| + 1..] == f2;
  }

  /** The condition is needed: with a slash in a bucket name, two files can share an object. */
  lemma ObjectKeysCollide()
    ensures ObjectKey("a", "b/c") == ObjectKey("a/b", "c")
  {}

  // ----- the two stores ---------------------------------------------------------------------

  /** Bucket names have no slash, ids are unique, and every row belongs to a bucket. */
  ghost predicate WellFormed(s: State) {
    && (forall b :: b in s.buckets ==> '/' !in b)
    && (forall a, b :: a in s.buckets && b in s.buckets && s.buckets[a].id == s.buckets[b].id ==> a == b)
    && (forall k :: k in s.files ==> exists b :: b in s.buckets && s.buckets[b].id == k.bucket)
  }

  /** The file of a bucket has its object, with the bytes that were uploaded, and obeys the limits. */
  ghost predicate FileSound(s: State, uploads: map<FileKey, Bytes>, b: string, k: FileKey)
    requires b in s.buckets && k in s.files
  {
    var key := ObjectKey(b, k.name);
    && key in s.objects && k in uploads && s.objects[key] == uploads[k]
    && (s.buckets[b].maxFileSize.Some? ==> s.files[k].size <= s.buckets[b].maxFileSize.value)
    && (s.buckets[b].allowedMimeTypes == [] || s.files[k].mimeType in s.buckets[b].allowedMimeTypes)
  }

  /** `uploads` records the content of the last successful upload for each row. */
  ghost predicate StoresAgree(s: State, uploads: map<FileKey, Bytes>) {
    forall b, k :: b in s.buckets && k in s.files && s.buckets[b].id == k.bucket ==> FileSound(s, uploads, b, k)
  }

  datatype Op =
    | DoCreateBucket(name: string, id: nat, maxFileSize: Option<int>, mimeTypes: seq<string>)
    | DoDeleteBucket(name: string)
    | DoUpload(bucket: string, file: string, content: Bytes, size: int, mimeType: string, s3Works: bool)
    | DoDelete(bucket: string, file: string, s3Works: bool)

  /** A new bucket has an unused id and, by convention, a name without a slash. */
  ghost predicate Legal(s: State, op: Op) {
    op.DoCreateBucket? ==>
      && '/' !in op.name
      && (forall b :: b in s.buckets ==> s.buckets[b].id != op.id)
      && forall k :: k in s.files ==> k.bucket != op.id
  }

  function Exec(s: State, op: Op): State {
    match op
    case DoCreateBucket(name, id, size, types) =>
      if name in s.buckets then s else s.(buckets := s.buckets[name := Bucket(id, size, types)])
    case DoDeleteBucket(name) => BucketDeleted(s, name)
    case DoUpload(b, f, content, size, mimeType, works) => Uploaded(s, b, f, content, size, mimeType, works).0
    case DoDelete(b, f, works) => Deleted(s, b, f, works).0
  }

  function Recorded(s: State, uploads: map<FileKey, Bytes>, op: Op): map<FileKey, Bytes> {
    if op.DoUpload? && op.bucket in s.buckets &&
       Uploaded(s, op.bucket, op.file, op.content, op.size, op.mimeType, op.s3Works).1.Ok?
    then uploads[FileKey(s.buckets[op.bucket].id, op.file) := op.content]
    else uploads
  }

  /** An upload over a file that exists gets as far as the failing row insert, which deletes the object. */
  ghost predicate Overwrites(s: State, op: Op) {
    && op.DoUpload? && Admitted(s, op.bucket, op.size, op.mimeType) && op.s3Works
    && FileKey(s.buckets[op.bucket].id, op.file) in s.files
  }

  lemma ExecWellFormed(s: State, op: Op)
    requires WellFormed(s) && Legal(s, op)
    ensures WellFormed(Exec(s, op))
  {
    forall k | k in Exec(s, op).files ensures exists b :: b in Exec(s, op).buckets && Exec(s, op).buckets[b].id == k.bucket {
      RowHasBucket(s, op, k);
    }
    BucketsStayDistinct(s, op);
    hide Exec, Legal;
  }

  lemma BucketsStayDistinct(s: State, op: Op)
    requires WellFormed(s) && Legal(s, op)
    ensures var after := Exec(s, op).buckets;
      && (forall b :: b in after ==> '/' !in b)
      && forall a, b :: a in after && b in after && after[a].id == after[b].id ==> a == b
  {}

  lemma RowHasBucket(s: State, op: Op, k: FileKey)
    requires WellFormed(s) && Legal(s, op) && k in Exec(s, op).files
    ensures exists b :: b in Exec(s, op).buckets && Exec(s, op).buckets[b].id == k.bucket
  {
    var after := Exec(s, op);
    if op.DoUpload? && k !in s.files {
      assert op.bucket in after.buckets && after.buckets[op.bucket].id == k.bucket;
    } else {
      var b :| b in s.buckets && s.buckets[b].id == k.bucket;
      assert b in after.buckets && after.buckets[b].id == k.bucket;
    }
  }

  /** Other objects than that of one file keep the files of other names sound. */
  lemma OthersSound(s: State, uploads: map<FileKey, Bytes>, b: string, k: FileKey, bucket: string, file: string)
    requires WellFormed(s) && b in s.buckets && bucket in s.buckets
    requires k != FileKey(s.buckets[bucket].id, file) && s.buckets[b].id == k.bucket
    ensures ObjectKey(b, k.name) != ObjectKey(bucket, file)
  {
    if ObjectKey(b, k.name) == ObjectKey(bucket, file) {
      ObjectKeyInjective(b, k.name, bucket, file);
    }
  }

  /** A call keeps the two stores in agreement exactly when it is not an upload over an existing file. */
  lemma ExecAgreesIff(s: State, uploads: map<FileKey, Bytes>, op: Op)
    requires WellFormed(s) && StoresAgree(s, uploads) && Legal(s, op)
    ensures StoresAgree(Exec(s, op), Recorded(s, uploads, op)) <==> !Overwrites(s, op)
  {
    match op
    case DoUpload(bucket, file, _, _, _, _) => UploadAgreesIff(s, uploads, op);
    case DoDelete(bucket, file, works) => DeleteAgrees(s, uploads, op);
    case _ => BucketOpAgrees(s, uploads, op);
  }

  lemma BucketOpAgrees(s: State, uploads: map<FileKey, Bytes>, op: Op)
    requires WellFormed(s) && StoresAgree(s, uploads) && Legal(s, op) && (op.DoCreateBucket? || op.DoDeleteBucket?)
    ensures StoresAgree(Exec(s, op), uploads)
  {
    var s' := Exec(s, op);
    forall b, k | b in s'.buckets && k in s'.files && s'.buckets[b].id == k.bucket ensures FileSound(s', uploads, b, k) {
      assert FileSound(s, uploads, b, k);
    }
  }

  lemma UploadAgreesIff(s: State, uploads: map<FileKey, Bytes>, op: Op)
    requires WellFormed(s) && StoresAgree(s, uploads) && op.DoUpload?
    ensures StoresAgree(Exec(s, op), Recorded(s, uploads, op)) <==> !Overwrites(s, op)
  {
    var s', u' := Exec(s, op), Recorded(s, uploads, op);
    if Overwrites(s, op) {
      assert !FileSound(s', u', op.bucket, FileKey(s.buckets[op.bucket].id, op.file));
    } else if op.bucket in s.buckets {
      forall b, k | b in s'.buckets && k in s'.files && s'.buckets[b].id == k.bucket ensures FileSound(s', u', b, k) {
        if k != FileKey(s.buckets[op.bucket].id, op.file) {
          OthersSound(s, uploads, b, k, op.bucket, op.file);
          assert FileSound(s, uploads, b, k);
        }
      }
    }
  }

  lemma DeleteAgrees(s: State, uploads: map<FileKey, Bytes>, op: Op)
    requires WellFormed(s) && StoresAgree(s, uploads) && op.DoDelete?
    ensures StoresAgree(Exec(s, op), uploads)
  {
    var s' := Exec(s, op);
    if op.bucket in s.buckets {
      forall b, k | b in s'.buckets && k in s'.files && s'.buckets[b].id == k.bucket ensures FileSound(s', uploads, b, k) {
        assert FileSound(s, uploads, b, k);
        if k != FileKey(s.buckets[op.bucket].id, op.file) {
          OthersSound(s, uploads, b, k, op.bucket, op.file);
        }
      }
    }
  }

  ghost predicate IsRun(run: seq<State>, uploads: seq<map<FileKey, Bytes>>, ops: seq<Op>) {
    && |run| == |uploads| == |ops| + 1
    && run[0] == State(map[], map[], map[]) && uploads[0] == map[]
    && forall k :: 0 <= k < |ops| ==>
         && Legal(run[k], ops[k])
         && run[k + 1] == Exec(run[k], ops[k]) && uploads[k + 1] == Recorded(run[k], uploads[k], ops[k])
  }

  /**
   * Over every run without an upload onto an existing name, every row has its object with the
   * uploaded bytes and obeys its bucket's limits.
   */
  lemma {:induction false} RunAgrees(run: seq<State>, uploads: seq<map<FileKey, Bytes>>, ops: seq<Op>, k: nat)
    requires IsRun(run, uploads, ops) && k < |run|
    requires forall l :: 0 <= l < k ==> !Overwrites(run[l], ops[l])
    ensures WellFormed(run[k]) && StoresAgree(run[k], uploads[k])
  {
    if k > 0 {
      RunAgrees(run, uploads, ops, k - 1);
      ExecWellFormed(run[k - 1], ops[k - 1]);
      ExecAgreesIff(run[k - 1], uploads[k - 1], ops[k - 1]);
    }
  }
}
