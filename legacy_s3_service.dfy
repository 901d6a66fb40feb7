/** The older AWS-SDK service implementation. Its bulk deletions take the
    same calls as the newer one; its directory marker carries no ACL; its
    stream upload releases the staged file with the void deletion. */
module LegacyS3Service {
  import opened Common
  import opened LocalFs
  import opened Store
  import opened BulkDelete
  import AwsUtil
  import LegacyAwsUtil
  import S3Service

  method CleanAndDeleteBucket(s3client: S3Client, bucketName: string, page: seq<string>) returns (o: Outcome)
    requires s3client.Valid()
    modifies s3client
    ensures s3client.Valid()
    ensures Reply(s3client.State(), o) == Run(old(s3client.State()), CleanPlan(bucketName, page))
  {
    RunBracketed(s3client.State(), ListObjects(bucketName, ""), bucketName, page, DeleteBucket(bucketName));
    var listOfFiles := s3client.ListObjects(bucketName, "", page);
    if listOfFiles.Err? {
      return Threw(listOfFiles.error);
    }
    o := DeleteKeys(s3client, bucketName, listOfFiles.value);
    if o.Threw? {
      return;
    }
    o := s3client.DeleteBucket(bucketName);
  }

  method DeleteDirectory(s3client: S3Client, bucketName: string, dirName: string, page: seq<string>) returns (o: Outcome)
    requires s3client.Valid()
    modifies s3client
    ensures s3client.Valid()
    ensures Reply(s3client.State(), o) == Run(old(s3client.State()), DeleteDirectoryPlan(bucketName, dirName, page))
  {
    RunBracketed(s3client.State(), ListObjects(bucketName, dirName), bucketName, page, DeleteObject(bucketName, dirName));
    var listOfFiles := s3client.ListObjects(bucketName, dirName, page);
    if listOfFiles.Err? {
      return Threw(listOfFiles.error);
    }
    o := DeleteKeys(s3client, bucketName, listOfFiles.value);
    if o.Threw? {
      return;
    }
    o := s3client.DeleteObject(bucketName, dirName);
  }

  /** The directory marker without an ACL. */
  method CreateDirectory(s3client: S3Client, bucketName: string, dirName: string) returns (o: Outcome)
    requires s3client.Valid()
    modifies s3client
    ensures s3client.Valid()
    ensures Reply(s3client.State(), o) == Step(old(s3client.State()), PutObject(S3Service.DirectoryMarker(bucketName, dirName, None)))
  {
    var putObjectRequest := PutObjectRequest(bucketName, dirName + [Separator], Bytes([]), Some(0), None);
    o := s3client.PutObject(putObjectRequest);
  }

  /** Stage as written, put without an ACL, release. */
  method UploadObject(s3client: S3Client, temp: TempArea, bucketName: string, fileName: string,
                      inputStream: InputStream) returns (o: Outcome)
    requires s3client.Valid() && temp.Valid()
    modifies s3client, temp
    ensures s3client.Valid() && temp.Valid()
    ensures S3Service.UploadReply(s3client.State(), temp.State(), o)
         == S3Service.UploadAfterStaging(old(s3client.State()), AwsUtil.StageSpec(old(temp.State()), inputStream),
                                         bucketName, fileName, None)
  {
    var tempFile: Option<TempPath> := None;
    var staged := AwsUtil.CreateTempFileFromStream(temp, inputStream);
    if staged.Ok? {
      tempFile := Some(staged.value);
      var data := temp.Contents(staged.value);
      var putObjectRequest := S3Service.StagedRequest(bucketName, fileName, staged.value, data, None);
      o := s3client.PutObject(putObjectRequest);
    } else {
      o := Threw(staged.error);
    }
    LegacyAwsUtil.DeleteTempFile(temp, tempFile);
  }
}
