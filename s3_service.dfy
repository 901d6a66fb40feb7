/** The AWS-SDK service implementation: the operations that do more than
    forward one call to the client. Each takes the client (and, for stream
    uploads, the temp area) it works on. */
module S3Service {
  import opened Common
  import opened LocalFs
  import opened Store
  import opened BulkDelete
  import AwsUtil

  /** The canned ACL a boolean overload sets: PublicRead when the resource is
      to be public, none otherwise. */
  function AclFor(isPublicAccessible: bool): (acl: Option<CannedAcl>)
    ensures acl == Some(PublicRead) <==> isPublicAccessible
    ensures acl.None? <==> !isPublicAccessible
  {
    if isPublicAccessible then Some(PublicRead) else None
  }

  // ---------------------------------------------------------------------
  // Buckets

  method CreateBucketPublic(s3client: S3Client, bucketName: string, isPublicAccessible: bool) returns (o: Outcome)
    requires s3client.Valid()
    modifies s3client
    ensures s3client.Valid()
    ensures Reply(s3client.State(), o)
         == Step(old(s3client.State()), CreateBucket(CreateBucketRequest(bucketName, AclFor(isPublicAccessible))))
  {
    var createBucketReq := CreateBucketRequest(bucketName, None);
    if isPublicAccessible {
      createBucketReq := createBucketReq.(cannedAcl := Some(PublicRead));
    }
    o := s3client.CreateBucket(createBucketReq);
  }

  /** A summary of `Step` for a bucket creation, read off its definition.
      Creating a bucket is one call; it succeeds exactly when no bucket of
      that name exists and the call is not refused, and adds the bucket
      empty. */
  lemma CreateBucketEffect(st: StoreState, req: CreateBucketRequest)
    ensures var r := Step(st, CreateBucket(req));
      && r.state.log == st.log + [CreateBucket(req)]
      && (r.outcome.Done? <==> req.bucket !in st.objects && CreateBucket(req) !in st.rejected)
      && (r.outcome.Done? ==> r.state.objects == st.objects[req.bucket := {}])
      && (r.outcome.Threw? ==> r.state.objects == st.objects)
      && (r.outcome.Threw? && CreateBucket(req) !in st.rejected ==> r.outcome == Fail(BucketAlreadyOwnedByYou))
  {
  }

  method CleanAndDeleteBucket(s3client: S3Client, bucketName: string, page: seq<string>) returns (o: Outcome)
    requires s3client.Valid()
    modifies s3client
    ensures s3client.Valid()
    ensures Reply(s3client.State(), o) == Run(old(s3client.State()), CleanPlan(bucketName, page))
  {
    RunBracketed(s3client.State(), ListObjects(bucketName, ""), bucketName, page, DeleteBucket(bucketName));
    var listOfFiles := s3client.ListObjects(bucketName, "", page);
    if listOfFiles.Err? {
      return Threw(listOfFiles.error);
    }
    o := DeleteKeys(s3client, bucketName, listOfFiles.value);
    if o.Threw? {
      return;
    }
    o := s3client.DeleteBucket(bucketName);
  }

  // ---------------------------------------------------------------------
  // Directories

  /** The marker object of a directory: key `dirName + "/"`, no content,
      content length 0. */
  function DirectoryMarker(bucketName: string, dirName: string, cannedAcl: Option<CannedAcl>): (req: PutObjectRequest) {
    PutObjectRequest(bucketName, dirName + [Separator], Bytes([]), Some(0), cannedAcl)
  }

  method CreateDirectoryWithAcl(s3client: S3Client, bucketName: string, dirName: string, cannedAcl: Option<CannedAcl>)
    returns (o: Outcome)
    requires s3client.Valid()
    modifies s3client
    ensures s3client.Valid()
    ensures Reply(s3client.State(), o) == Step(old(s3client.State()), PutObject(DirectoryMarker(bucketName, dirName, cannedAcl)))
  {
    var putObjectRequest := PutObjectRequest(bucketName, dirName + [Separator], Bytes([]), Some(0), None);
    putObjectRequest := putObjectRequest.(cannedAcl := cannedAcl);
    o := s3client.PutObject(putObjectRequest);
  }

  method CreateDirectoryPublic(s3client: S3Client, bucketName: string, dirName: string, isPublicAccessible: bool)
    returns (o: Outcome)
    requires s3client.Valid()
    modifies s3client
    ensures s3client.Valid()
    ensures Reply(s3client.State(), o)
         == Step(old(s3client.State()), PutObject(DirectoryMarker(bucketName, dirName, AclFor(isPublicAccessible))))
  {
    var putObjectRequest := PutObjectRequest(bucketName, dirName + [Separator], Bytes([]), Some(0), None);
    if isPublicAccessible {
      putObjectRequest := putObjectRequest.(cannedAcl := Some(PublicRead));
    }
    o := s3client.PutObject(putObjectRequest);
  }

  /** The two-argument overload is the boolean one with `false`. */
  method CreateDirectory(s3client: S3Client, bucketName: string, dirName: string) returns (o: Outcome)
    requires s3client.Valid()
    modifies s3client
    ensures s3client.Valid()
    ensures Reply(s3client.State(), o)
         == Step(old(s3client.State()), PutObject(DirectoryMarker(bucketName, dirName, AclFor(false))))
  {
    o := CreateDirectoryPublic(s3client, bucketName, dirName, false);
  }

  /** A summary of `Step` for the marker put, read off the definitions.
      Creating a directory is exactly one put of an empty object of declared
      length 0 under `dirName + "/"`; it adds that key and nothing else. */
  lemma CreateDirectoryEffect(st: StoreState, bucketName: string, dirName: string, cannedAcl: Option<CannedAcl>)
    ensures var r := Step(st, PutObject(DirectoryMarker(bucketName, dirName, cannedAcl)));
      && |r.state.log| == |st.log| + 1
      && r.state.log[..|st.log|] == st.log
      && r.state.log[|st.log|].PutObject?
      && (var req := r.state.log[|st.log|].put;
          && req.bucket == bucketName && req.key == dirName + "/"
          && req.body == Bytes([]) && req.declaredLength == Some(0) && req.cannedAcl == cannedAcl)
      && (r.outcome.Done? <==>
            bucketName in st.objects && PutObject(DirectoryMarker(bucketName, dirName, cannedAcl)) !in st.rejected)
      && (r.outcome.Done? ==> r.state.objects == st.objects[bucketName := st.objects[bucketName] + {dirName + "/"}])
      && (r.outcome.Threw? ==> r.state.objects == st.objects)
  {
  }

  method DeleteDirectory(s3client: S3Client, bucketName: string, dirName: string, page: seq<string>) returns (o: Outcome)
    requires s3client.Valid()
    modifies s3client
    ensures s3client.Valid()
    ensures Reply(s3client.State(), o) == Run(old(s3client.State()), DeleteDirectoryPlan(bucketName, dirName, page))
  {
    RunBracketed(s3client.State(), ListObjects(bucketName, dirName), bucketName, page, DeleteObject(bucketName, dirName));
    var listOfFiles := s3client.ListObjects(bucketName, dirName, page);
    if listOfFiles.Err? {
      return Threw(listOfFiles.error);
    }
    o := DeleteKeys(s3client, bucketName, listOfFiles.value);
    if o.Threw? {
      return;
    }
    o := s3client.DeleteObject(bucketName, dirName);
  }

  /** Delete-directory restricted to the directory: listed under
      `dirName + "/"`, ending with the marker `dirName + "/"`. */
  method DeleteDirectoryScoped(s3client: S3Client, bucketName: string, dirName: string, page: seq<string>)
    returns (o: Outcome)
    requires s3client.Valid()
    modifies s3client
    ensures s3client.Valid()
    ensures Reply(s3client.State(), o) == Run(old(s3client.State()), ScopedDeleteDirectoryPlan(bucketName, dirName, page))
  {
    o := DeleteDirectory(s3client, bucketName, dirName + [Separator], page);
  }

  // ---------------------------------------------------------------------
  // Uploading a stream through a temp file

  /** The request for a staged file: the bytes it held when the request was
      built; its content length is left to the client to take from the
      file. */
  function StagedRequest(bucketName: string, fileName: string, tempFile: TempPath, data: seq<byte>,
                         cannedAcl: Option<CannedAcl>): (req: PutObjectRequest) {
    PutObjectRequest(bucketName, fileName, StagedFile(tempFile, data), None, cannedAcl)
  }

  datatype UploadReply = UploadReply(store: StoreState, temp: TempState, outcome: Outcome)

  /** What follows the staging: the put when there is a staged file, and in
      every case the null-safe deletion of whatever file was staged. */
  function UploadAfterStaging(store: StoreState, staged: TempStep<Result<TempPath>>,
                              bucketName: string, fileName: string, cannedAcl: Option<CannedAcl>): (r: UploadReply)
    requires staged.result.Ok? ==> staged.result.value in staged.state.files
  {
    match staged.result
    case Err(e) =>
      UploadReply(store, AwsUtil.DeleteTempSpec(staged.state, None).state, Threw(e))
    case Ok(p) =>
      var put := Step(store, PutObject(StagedRequest(bucketName, fileName, p, staged.state.files[p], cannedAcl)));
      UploadReply(put.state, AwsUtil.DeleteTempSpec(staged.state, Some(p)).state, put.outcome)
  }

  /** The corrected stream upload: stage, put, release, with the staging
      that releases its file when the copy fails. */
  function UploadStreamSpec(store: StoreState, temp: TempState, bucketName: string, fileName: string,
                            stream: InputStream, cannedAcl: Option<CannedAcl>): (r: UploadReply)
    requires TempWf(temp)
  {
    UploadAfterStaging(store, AwsUtil.StageCleanlySpec(temp, stream), bucketName, fileName, cannedAcl)
  }

  /** `uploadObject(bucket, name, stream, acl)` as written: stage with
      `createTempFileFromStream`, put, and in `finally` release whatever
      temp file the staging handed back. */
  method UploadObjectWithAcl(s3client: S3Client, temp: TempArea, bucketName: string, fileName: string,
                             inputStream: InputStream, cannedAcl: Option<CannedAcl>) returns (o: Outcome)
    requires s3client.Valid() && temp.Valid()
    modifies s3client, temp
    ensures s3client.Valid() && temp.Valid()
    ensures UploadReply(s3client.State(), temp.State(), o)
         == UploadAfterStaging(old(s3client.State()), AwsUtil.StageSpec(old(temp.State()), inputStream),
                               bucketName, fileName, cannedAcl)
  {
    var tempFile: Option<TempPath> := None;
    var staged := AwsUtil.CreateTempFileFromStream(temp, inputStream);
    if staged.Ok? {
      tempFile := Some(staged.value);
      var data := temp.Contents(staged.value);
      var putObjectRequest := StagedRequest(bucketName, fileName, staged.value, data, None);
      putObjectRequest := putObjectRequest.(cannedAcl := cannedAcl);
      o := s3client.PutObject(putObjectRequest);
    } else {
      o := Threw(staged.error);
    }
    var _ := AwsUtil.DeleteTempFile(temp, tempFile);
  }

  /** `uploadObject(bucket, name, stream, isPublicAccessible)` as written. */
  method UploadObjectPublic(s3client: S3Client, temp: TempArea, bucketName: string, fileName: string,
                            inputStream: InputStream, isPublicAccessible: bool) returns (o: Outcome)
    requires s3client.Valid() && temp.Valid()
    modifies s3client, temp
    ensures s3client.Valid() && temp.Valid()
    ensures UploadReply(s3client.State(), temp.State(), o)
         == UploadAfterStaging(old(s3client.State()), AwsUtil.StageSpec(old(temp.State()), inputStream),
                               bucketName, fileName, AclFor(isPublicAccessible))
  {
    var tempFile: Option<TempPath> := None;
    var staged := AwsUtil.CreateTempFileFromStream(temp, inputStream);
    if staged.Ok? {
      tempFile := Some(staged.value);
      var data := temp.Contents(staged.value);
      var putObjectRequest := StagedRequest(bucketName, fileName, staged.value, data, None);
      if isPublicAccessible {
        putObjectRequest := putObjectRequest.(cannedAcl := Some(PublicRead));
      }
      o := s3client.PutObject(putObjectRequest);
    } else {
      o := Threw(staged.error);
    }
    var _ := AwsUtil.DeleteTempFile(temp, tempFile);
  }

  /** The three-argument overload is the boolean one with `false`. */
  method UploadObject(s3client: S3Client, temp: TempArea, bucketName: string, fileName: string,
                      inputStream: InputStream) returns (o: Outcome)
    requires s3client.Valid() && temp.Valid()
    modifies s3client, temp
    ensures s3client.Valid() && temp.Valid()
    ensures UploadReply(s3client.State(), temp.State(), o)
         == UploadAfterStaging(old(s3client.State()), AwsUtil.StageSpec(old(temp.State()), inputStream),
                               bucketName, fileName, AclFor(false))
  {
    o := UploadObjectPublic(s3client, temp, bucketName, fileName, inputStream, false);
  }

  /** The stream upload with the staging corrected: the staging deletes its
      partly written file when the copy fails, so no exit path leaves a
      temp file behind. */
  method UploadObjectCleanly(s3client: S3Client, temp: TempArea, bucketName: string, fileName: string,
                             inputStream: InputStream, cannedAcl: Option<CannedAcl>) returns (o: Outcome)
    requires s3client.Valid() && temp.Valid()
    modifies s3client, temp
    ensures s3client.Valid() && temp.Valid()
    ensures UploadReply(s3client.State(), temp.State(), o)
         == UploadStreamSpec(old(s3client.State()), old(temp.State()), bucketName, fileName, inputStream, cannedAcl)
  {
    var tempFile: Option<TempPath> := None;
    var staged := AwsUtil.CreateTempFileFromStreamCleanly(temp, inputStream);
    if staged.Ok? {
      tempFile := Some(staged.value);
      var data := temp.Contents(staged.value);
      o := s3client.PutObject(StagedRequest(bucketName, fileName, staged.value, data, cannedAcl));
    } else {
      o := Threw(staged.error);
    }
    var _ := AwsUtil.DeleteTempFile(temp, tempFile);
  }

  /** A stream upload leaves the temp files as it found them on every exit
      path (unless the operating system refuses to delete the staged file).
      When staging fails nothing is sent; otherwise exactly one put is sent,
      carrying the stream's bytes, and the upload ends as that put does. */
  lemma UploadObjectReleasesTempFile(store: StoreState, temp: TempState, bucketName: string, fileName: string,
                                     stream: InputStream, cannedAcl: Option<CannedAcl>)
    requires TempWf(temp)
    ensures var r := UploadStreamSpec(store, temp, bucketName, fileName, stream, cannedAcl);
      var p := NextTempPath(temp, AwsUtil.TempFilePrefix, AwsUtil.TempFileSuffix);
      && (p !in temp.undeletable ==> r.temp.files == temp.files)
      && (temp.readOnly || stream.failsAfterData ==>
            r.store == store && r.outcome.Threw? && r.outcome.error.IOException?)
      && (!temp.readOnly && !stream.failsAfterData ==>
            Reply(r.store, r.outcome) == Step(store, PutObject(StagedRequest(bucketName, fileName, p, stream.data, cannedAcl))))
  {
    var p := NextTempPath(temp, AwsUtil.TempFilePrefix, AwsUtil.TempFileSuffix);
    AwsUtil.StageCleanlyNeverLeaks(temp, stream);
    AwsUtil.StageCreatesFreshFile(temp, stream);
    if !temp.readOnly && !stream.failsAfterData && p !in temp.undeletable {
      assert temp.files[p := stream.data] - {p} == temp.files;
    }
  }

  /** With staging as written, an upload whose stream fails throws, sends
      nothing, and leaves a temp file behind that was not there before:
      the release in `finally` is handed null. A read-only temp area makes
      it throw with nothing sent and nothing changed. When staging
      succeeds, exactly one put carrying the stream's bytes is sent, the
      upload ends as that put does, and the staged file is released. */
  lemma UploadObjectLeaksOnFailedCopy(store: StoreState, temp: TempState, bucketName: string, fileName: string,
                                      stream: InputStream, cannedAcl: Option<CannedAcl>)
    requires TempWf(temp)
    ensures var r := UploadAfterStaging(store, AwsUtil.StageSpec(temp, stream), bucketName, fileName, cannedAcl);
      var p := NextTempPath(temp, AwsUtil.TempFilePrefix, AwsUtil.TempFileSuffix);
      && (temp.readOnly ==>
            r.store == store && r.temp == temp && r.outcome.Threw? && r.outcome.error.IOException?)
      && (!temp.readOnly && stream.failsAfterData ==>
            && r.outcome.Threw? && r.outcome.error.IOException? && r.store == store
            && p in r.temp.files && p !in temp.files)
      && (!temp.readOnly && !stream.failsAfterData ==>
            Reply(r.store, r.outcome) == Step(store, PutObject(StagedRequest(bucketName, fileName, p, stream.data, cannedAcl))))
      && (!temp.readOnly && !stream.failsAfterData && p !in temp.undeletable ==> r.temp.files == temp.files)
  {
    var p := NextTempPath(temp, AwsUtil.TempFilePrefix, AwsUtil.TempFileSuffix);
    AwsUtil.StageCreatesFreshFile(temp, stream);
    if !temp.readOnly && !stream.failsAfterData && p !in temp.undeletable {
      assert temp.files[p := stream.data] - {p} == temp.files;
    }
  }

  // ---------------------------------------------------------------------
  // Uploading a local file or directory

  /** What is handed to the transfer manager. */
  datatype Transfer =
    | FileUpload(bucket: string, key: string, file: File)
    | DirectoryUpload(bucket: string, keyPrefix: string, directory: File, includeSubdirectories: bool)

  /** A regular file is uploaded under its own path as key; a directory is
      uploaded with its subdirectories under the given key prefix; anything
      else is refused with FileNotFoundException, and nothing is uploaded. */
  function UploadDirectoryOrFile(bucketName: string, source: File, virtualDirectoryKeyPrefix: string, disk: Disk)
    : (r: Result<Transfer>)
    ensures r.Ok? && r.value.FileUpload? <==> IsFile(disk, source)
    ensures r.Ok? && r.value.DirectoryUpload? <==> IsDirectory(disk, source)
    ensures r.Err? <==> !IsFile(disk, source) && !IsDirectory(disk, source)
    ensures r.Ok? && r.value.FileUpload? ==> r.value == FileUpload(bucketName, source.path, source)
    ensures r.Ok? && r.value.DirectoryUpload? ==>
      r.value == DirectoryUpload(bucketName, virtualDirectoryKeyPrefix, source, true)
    ensures r.Err? ==>
      r.error == FileNotFoundException("Source is neither a regular file nor a directory " + source.path)
  {
    if IsFile(disk, source) then Ok(FileUpload(bucketName, source.path, source))
    else if IsDirectory(disk, source) then Ok(DirectoryUpload(bucketName, virtualDirectoryKeyPrefix, source, true))
    else Err(FileNotFoundException("Source is neither a regular file nor a directory " + source.path))
  }

  // ---------------------------------------------------------------------
  // Permissions

  predicate HasFullControl(grantList: seq<Grant>) {
    exists i :: 0 <= i < |grantList| && grantList[i].permission == FullControl
  }

  /** Scans the grants in order and stops at the first FullControl one;
      `scanned` is how many grants were looked at. */
  method ContainsFullControlPermission(grantList: seq<Grant>) returns (hasFullControl: bool, ghost scanned: nat)
    ensures hasFullControl <==> HasFullControl(grantList)
    ensures scanned <= |grantList|
    ensures hasFullControl ==> 1 <= scanned && grantList[scanned - 1].permission == FullControl
    ensures forall j :: 0 <= j < scanned - 1 ==> grantList[j].permission != FullControl
    ensures !hasFullControl ==> scanned == |grantList|
  {
    hasFullControl := false;
    var i := 0;
    while i < |grantList|
      invariant 0 <= i <= |grantList|
      invariant forall j :: 0 <= j < i ==> grantList[j].permission != FullControl
    {
      if grantList[i].permission == FullControl {
        hasFullControl := true;
        scanned := i + 1;
        return;
      }
      i := i + 1;
    }
    scanned := i;
  }

  /** Reads the bucket's access control list and scans its grants. */
  method CheckFullControlPermission(s3client: S3Client, bucketName: string, grants: seq<Grant>)
    returns (r: Result<bool>)
    requires s3client.Valid()
    modifies s3client
    ensures s3client.Valid()
    ensures Reply(s3client.State(), OutcomeOf(r)) == Step(old(s3client.State()), GetBucketAcl(bucketName))
    ensures r.Ok? ==> (r.value <==> HasFullControl(grants))
  {
    var acl := s3client.GetBucketAcl(bucketName, grants);
    if acl.Err? {
      return Err(acl.error);
    }
    var hasFullControl, _ := ContainsFullControlPermission(acl.value);
    r := Ok(hasFullControl);
  }
}
