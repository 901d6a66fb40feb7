# aws-s3-utils, modelled in Dafny

aws-s3-utils is a Java utility layer over the AWS SDK S3 client and the
JetS3t REST service. It comes in two generations:

- `com.github.abhinavmishra14.aws…` is the newer one, written in the model as `S3Service`, `JetS3Service` and `AwsUtil`;
- `com.abhinav.aws…` is the older one, written as `LegacyS3Service` and `LegacyAwsUtil`.

Most of its methods forward a single call to the client. This project models the few that do something of their own:

- the bulk deletions (`cleanAndDeleteBucket`, `deleteDirectory`);
- the directory marker and the choice of ACL in the boolean overloads;
- stream uploads through a temp file with release in `finally`;
- the file/directory dispatch of `uploadDirectoryOrFile`;
- the full-control grant scan;
- the JetS3 constructor guards, its `putObject` delegation chain, and its directory-to-multipart flattening;
- the static helpers of `AWSUtil`.

The model is built in layers.

- **Common** holds `Option`, `Result`, `Outcome` (`Done` or `Threw(e)`) and the Java exceptions the code raises.
- **Store** is the remote service.
  - `Step` and `Run` give the meaning of one call and of a sequence of calls, on a value `StoreState`. That value holds a map from bucket to keys, an append-only call log, and a fixed set `rejected` of calls the service refuses: access denied and dropped connections, as seen from the client.
  - `S3Client` is the client object the services call, a class with those fields. Each method is proved to change the state exactly as `Step` says.
- **LocalFs** is the local file system.
  - User files are paths on a read-only `Disk`.
  - `NewFile` is `new File(pathname)`: it keeps the pathname normalised, with runs of `/` collapsed and a trailing `/` dropped. `BaseName` is `File.getName` on such a path.
  - The temp area is the class `TempArea`, over `TempState`. Its state is the live temp files with their contents, a counter standing in for the random part of temp names, and the two ways the operating system can refuse: a read-only temp directory, and files it will not delete.
- **BulkDelete** holds the delete loop from both bulk deletions (`DeleteKeys`, a `while` loop proved against `Run`). It states their call plans as functions of the listing and proves what those plans do to the store and to the log.
- **AwsUtil / LegacyAwsUtil** hold `notNull`, `createTempFileFromStream` and the two `deleteTempFile` variants.
  - Each method is proved equal to a specification function on `TempState`.
  - Lemmas about those functions state freshness, cleanup and idempotence.
- **S3Service / LegacyS3Service / JetS3Service** are the service operations, as methods over `S3Client` (and `TempArea`). Each is proved equal to a plan run or a specification function.

## Model

Source paths are relative to the repository root.

| member | source | states |
|---|---|---|
| Store.S3Client.CreateBucket | src/main/java/com/github/abhinavmishra14/aws/s3/service/impl/AwsS3IamServiceImpl.java:175 | the client's create-bucket call changes the store as `Step` does: logged; refused or existing bucket throws and changes nothing; otherwise adds the bucket empty |
| Store.S3Client.DeleteBucket | src/main/java/com/github/abhinavmishra14/aws/s3/service/impl/AwsS3IamServiceImpl.java:183-186 | delete-bucket is one logged call; a missing bucket throws NoSuchBucket, a non-empty one BucketNotEmpty, otherwise the bucket is removed |
| Store.S3Client.ListObjects | src/main/java/com/github/abhinavmishra14/aws/s3/service/impl/AwsS3IamServiceImpl.java:583 | a listing is one logged call that changes no key; on success it answers exactly the given page |
| Store.S3Client.PutObject | src/main/java/com/github/abhinavmishra14/aws/s3/service/impl/AwsS3IamServiceImpl.java:192-196 | a put is one logged call; on an existing bucket it adds the request's key, else it throws and changes nothing |
| Store.S3Client.DeleteObject | src/main/java/com/github/abhinavmishra14/aws/s3/service/impl/AwsS3IamServiceImpl.java:556-560 | a delete is one logged call removing the key from its bucket; a missing key still succeeds |
| Store.S3Client.GetBucketAcl | src/main/java/com/github/abhinavmishra14/aws/s3/service/impl/AwsS3IamServiceImpl.java:677-678 | reading the ACL is one logged call that changes no key, answering the given grants |
| Store.S3Client.UploadObjects | src/main/java/com/github/abhinavmishra14/aws/jets3/service/impl/JetS3RESTServiceImpl.java:256-257 | the multipart batch upload is one logged call adding every upload object's key to the bucket |
| Store.Step | src/main/java/com/github/abhinavmishra14/aws/s3/service/impl/AwsS3IamServiceImpl.java:583-601 | every call is appended to the log, the refused set never changes, a refused call throws Refused, and a call that throws changes no key |
| Store.RunLog | src/main/java/com/github/abhinavmishra14/aws/s3/service/impl/AwsS3IamServiceImpl.java:597-601 | a sequence of calls appends exactly the calls made, a prefix of the sequence, and all of them when it completes |
| BulkDelete.DeleteKeys | src/main/java/com/github/abhinavmishra14/aws/s3/service/impl/AwsS3IamServiceImpl.java:584-586 | the delete loop changes the store exactly as running one `deleteObject` per listed key, in order, stopping at the first exception |
| BulkDelete.RunDeleteEach | src/main/java/com/github/abhinavmishra14/aws/s3/service/impl/AwsS3IamServiceImpl.java:598-600 | the deletes of a listing finish exactly when none is refused and then remove exactly the listed keys; nothing outside the bucket changes |
| BulkDelete.CleanAndDeleteBucketEffect | src/main/java/com/github/abhinavmishra14/aws/s3/service/impl/AwsS3IamServiceImpl.java:595-602 | clean-and-delete finishes iff the bucket exists, no call is refused and the listing covered every key; the bucket is then gone; a listing that missed keys ends in BucketNotEmpty with exactly the missed keys left; other buckets never change |
| BulkDelete.CleanAndDeleteBucketCallOrder | src/main/java/com/github/abhinavmishra14/aws/s3/service/impl/AwsS3IamServiceImpl.java:595-602 | the calls made are a prefix of list, deletes, delete-bucket; delete-bucket is only ever the last call; a finished run made one delete per listing entry, exactly one per key when the listing has no duplicates |
| BulkDelete.CleanAndDeleteBucketMissedKey | src/main/java/com/github/abhinavmishra14/aws/s3/service/impl/AwsS3IamServiceImpl.java:597 | a key the single listing page did not return survives, and the bucket delete throws BucketNotEmpty |
| BulkDelete.CleanAndDeleteBucketCompleteListing | src/main/java/com/github/abhinavmishra14/aws/s3/service/impl/AwsS3IamServiceImpl.java:595-602 | with a complete listing and no refusal the bucket is removed and nothing else changes |
| BulkDelete.DeleteDirectoryEffect | src/main/java/com/github/abhinavmishra14/aws/s3/service/impl/AwsS3IamServiceImpl.java:580-588 | delete-directory finishes iff the bucket exists and no call is refused, and then removes exactly the listed keys and `dirName`; on every path no other key and no other bucket changes |
| BulkDelete.DeleteDirectoryCallOrder | src/main/java/com/github/abhinavmishra14/aws/s3/service/impl/AwsS3IamServiceImpl.java:580-588 | the calls are a prefix of list-under-`dirName`, deletes, delete `dirName`; a finished run ends with the delete of `dirName` and made one delete per listing entry plus that one |
| BulkDelete.DeleteDirectoryRemovesPrefixMatches | src/main/java/com/github/abhinavmishra14/aws/s3/service/impl/AwsS3IamServiceImpl.java:583 | with a complete listing under the bare `dirName`, a finished run leaves exactly the keys that do not start with `dirName` |
| BulkDelete.DeleteDirectoryRemovesSibling | src/main/java/com/github/abhinavmishra14/aws/s3/service/impl/AwsS3IamServiceImpl.java:583 | deleting directory "test" removes "testdata/b.txt", which lies outside "test/" |
| BulkDelete.ScopedDeleteDirectoryKeepsOutside | src/main/java/com/github/abhinavmishra14/aws/s3/service/impl/AwsS3IamServiceImpl.java:580-588 | listing under `dirName + "/"` never removes a key outside the directory, and a finished run leaves exactly the keys outside it |
| S3Service.AclFor | src/main/java/com/github/abhinavmishra14/aws/s3/service/impl/AwsS3IamServiceImpl.java:172-174 | the boolean overloads set PublicRead iff the flag is true, and no ACL otherwise |
| S3Service.CreateBucketPublic | src/main/java/com/github/abhinavmishra14/aws/s3/service/impl/AwsS3IamServiceImpl.java:168-176 | one create-bucket call whose request carries `AclFor(isPublicAccessible)` |
| S3Service.CreateBucketEffect | src/main/java/com/github/abhinavmishra14/aws/s3/service/impl/AwsS3IamServiceImpl.java:171-175 | creating a bucket succeeds iff the name is new and the call is not refused, adds it empty, and otherwise throws BucketAlreadyOwnedByYou or Refused with no change |
| S3Service.CleanAndDeleteBucket | src/main/java/com/github/abhinavmishra14/aws/s3/service/impl/AwsS3IamServiceImpl.java:595-602 | changes the store exactly as the plan list, delete each listed key, delete bucket (whose effect is the lemmas above) |
| S3Service.CreateDirectoryWithAcl | src/main/java/com/github/abhinavmishra14/aws/s3/service/impl/AwsS3IamServiceImpl.java:519-530 | one put of the directory marker carrying the given canned ACL |
| S3Service.CreateDirectoryPublic | src/main/java/com/github/abhinavmishra14/aws/s3/service/impl/AwsS3IamServiceImpl.java:536-550 | one put of the directory marker carrying `AclFor(isPublicAccessible)` |
| S3Service.CreateDirectory | src/main/java/com/github/abhinavmishra14/aws/s3/service/impl/AwsS3IamServiceImpl.java:510-513 | the two-argument overload is the boolean one with `false`: a marker without ACL |
| S3Service.CreateDirectoryEffect | src/main/java/com/github/abhinavmishra14/aws/s3/service/impl/AwsS3IamServiceImpl.java:522-528 | creating a directory logs exactly one put, of key `dirName + "/"`, empty body, content length 0, and the given ACL; on success it adds that key and nothing else |
| S3Service.DeleteDirectory | src/main/java/com/github/abhinavmishra14/aws/s3/service/impl/AwsS3IamServiceImpl.java:580-588 | changes the store exactly as the plan list under `dirName`, delete each listed key, delete `dirName` |
| S3Service.DeleteDirectoryScoped | src/main/java/com/github/abhinavmishra14/aws/s3/service/impl/AwsS3IamServiceImpl.java:580-588 | the corrected delete-directory: runs the plan listed under `dirName + "/"` and ending with the marker |
| S3Service.UploadObjectWithAcl | src/main/java/com/github/abhinavmishra14/aws/s3/service/impl/AwsS3IamServiceImpl.java:211-226 | as written: stage with `createTempFileFromStream`, put the staged file with the given ACL, and release in `finally` whatever file the staging handed back; store, temp files and outcome equal `UploadAfterStaging` over `StageSpec` |
| S3Service.UploadObjectPublic | src/main/java/com/github/abhinavmishra14/aws/s3/service/impl/AwsS3IamServiceImpl.java:232-250 | the same as written, with the ACL `AclFor(isPublicAccessible)` |
| S3Service.UploadObject | src/main/java/com/github/abhinavmishra14/aws/s3/service/impl/AwsS3IamServiceImpl.java:202-205 | the three-argument overload is the boolean one with `false` |
| S3Service.UploadObjectCleanly | src/main/java/com/github/abhinavmishra14/aws/s3/service/impl/AwsS3IamServiceImpl.java:211-226 | the corrected stream upload: the staging deletes its partly written file on a failed copy; store, temp files and outcome equal `UploadStreamSpec` |
| S3Service.UploadObjectReleasesTempFile | src/main/java/com/github/abhinavmishra14/aws/s3/service/impl/AwsS3IamServiceImpl.java:238-248 | the corrected stream upload leaves the temp files as it found them on every exit path; a failed staging sends nothing and throws IOException; otherwise exactly one put with the stream's bytes is sent and decides the outcome |
| S3Service.UploadObjectLeaksOnFailedCopy | src/main/java/com/github/abhinavmishra14/aws/s3/service/impl/AwsS3IamServiceImpl.java:217-224 | with staging as written: a read-only temp area throws IOException and changes nothing; a stream that fails mid-copy makes the upload throw IOException, sends nothing and leaves a new temp file behind; a successful staging sends exactly one put with the stream's bytes, which decides the outcome, and the staged file is released |
| S3Service.UploadDirectoryOrFile | src/main/java/com/github/abhinavmishra14/aws/s3/service/impl/AwsS3IamServiceImpl.java:453-469 | a regular file is uploaded under its path, a directory recursively under the key prefix, anything else throws FileNotFoundException with the source's path and uploads nothing; each iff |
| S3Service.ContainsFullControlPermission | src/main/java/com/github/abhinavmishra14/aws/s3/service/impl/AwsS3IamServiceImpl.java:656-666 | true iff some grant has FullControl; the scan stops at the first such grant and looks at every grant when there is none |
| S3Service.CheckFullControlPermission | src/main/java/com/github/abhinavmishra14/aws/s3/service/impl/AwsS3IamServiceImpl.java:672-687 | one ACL read on the bucket; when it succeeds the answer is true iff one of the bucket's grants has FullControl |
| LegacyS3Service.CleanAndDeleteBucket | src/main/java/com/abhinav/aws/s3/service/impl/AwsS3IamServiceImpl.java:427-434 | the older clean-and-delete runs the same plan, so the same lemmas hold for it |
| LegacyS3Service.DeleteDirectory | src/main/java/com/abhinav/aws/s3/service/impl/AwsS3IamServiceImpl.java:412-420 | the older delete-directory runs the same plan, listed with the bare `dirName` |
| LegacyS3Service.CreateDirectory | src/main/java/com/abhinav/aws/s3/service/impl/AwsS3IamServiceImpl.java:368-379 | one put of the marker `dirName + "/"` with content length 0 and no ACL |
| LegacyS3Service.UploadObject | src/main/java/com/abhinav/aws/s3/service/impl/AwsS3IamServiceImpl.java:176-191 | as written: stage with `createTempFileFromStream`, put without ACL, release with the void deletion; equal to `UploadAfterStaging` over `StageSpec` with no ACL |
| AwsUtil.NotNull | src/main/java/com/github/abhinavmishra14/aws/util/AWSUtil.java:61-66 | throws IllegalArgumentException with the given message iff the value is null, else has no effect |
| AwsUtil.CreateTempFileFromStream | src/main/java/com/github/abhinavmishra14/aws/util/AWSUtil.java:34-39 | create a temp file, copy the stream into it, return it: the temp area changes as `StageSpec` says |
| AwsUtil.StageCreatesFreshFile | src/main/java/com/github/abhinavmishra14/aws/util/AWSUtil.java:36-38 | staging succeeds iff the temp directory is writable and the stream does not fail; the file is then new, named with "tempFile" / "s3Object", holds the stream's bytes, and is the only change; failures are IOExceptions |
| AwsUtil.StageLeaksOnFailedCopy | src/main/java/com/github/abhinavmishra14/aws/util/AWSUtil.java:36-37 | when the copy fails, staging throws and the file it created stays live |
| AwsUtil.CreateTempFileFromStreamCleanly | src/main/java/com/github/abhinavmishra14/aws/util/AWSUtil.java:34-39 | the corrected staging: the temp area changes as `StageCleanlySpec` says |
| AwsUtil.StageCleanlyNeverLeaks | src/main/java/com/github/abhinavmishra14/aws/util/AWSUtil.java:34-39 | the corrected staging succeeds exactly when the original does, with the same result, and on failure leaves the temp files unchanged |
| AwsUtil.DeleteTempFile | src/main/java/com/github/abhinavmishra14/aws/util/AWSUtil.java:47-53 | null-safe deletion: the temp area and the answer are `DeleteTempSpec`'s |
| AwsUtil.DeleteTempFileContract | src/main/java/com/github/abhinavmishra14/aws/util/AWSUtil.java:48-52 | null or missing: false and no change; true iff the file existed and the system deleted it, and then that path alone is gone |
| AwsUtil.DeleteTempFileTwice | src/main/java/com/github/abhinavmishra14/aws/util/AWSUtil.java:49-52 | a second deletion changes nothing and returns false after a successful first one |
| LegacyAwsUtil.DeleteTempFile | src/main/java/com/abhinav/aws/util/AWSUtil.java:47-51 | the void deletion changes the temp area exactly as the boolean one, its answer dropped |
| LocalFs.TempArea.CreateTempFile | src/main/java/com/github/abhinavmishra14/aws/util/AWSUtil.java:36 | creates a new empty file with the given prefix and suffix, or throws IOException in a read-only temp directory |
| LocalFs.TempArea.CopyInputStreamToFile | src/main/java/com/github/abhinavmishra14/aws/util/AWSUtil.java:37 | writes the stream's bytes into the file; a failing stream throws IOException after writing what it delivered |
| LocalFs.TempArea.FileExists | src/main/java/com/github/abhinavmishra14/aws/util/AWSUtil.java:49 | true iff the path is live; changes nothing |
| LocalFs.TempArea.Delete | src/main/java/com/github/abhinavmishra14/aws/util/AWSUtil.java:50 | removes the file unless the system refuses, answering whether it did |
| LocalFs.BaseNameIsLastSegment | src/main/java/com/github/abhinavmishra14/aws/jets3/service/impl/JetS3RESTServiceImpl.java:251 | on any path string, the base name is its last segment: no separator in it, a suffix of the path, preceded by a separator when shorter than the path (it is empty when the path ends in a separator, which a normalised path never does unless it is the root) |
| LocalFs.CollapseSeparators | src/main/java/com/github/abhinavmishra14/aws/jets3/service/impl/JetS3RESTServiceImpl.java:88 | collapsing runs of separators keeps the first character, empties only the empty path, and leaves no two separators side by side |
| LocalFs.CollapseKeepsNames | src/main/java/com/github/abhinavmishra14/aws/jets3/service/impl/JetS3RESTServiceImpl.java:88 | collapsing adds no character and keeps every character other than a separator |
| LocalFs.NormalizePath | src/main/java/com/github/abhinavmishra14/aws/jets3/service/impl/JetS3RESTServiceImpl.java:88 | the path `new File(name)` keeps is empty only for the empty name, has no doubled separator, and ends in a separator only when it is the root |
| LocalFs.NameOfNewFile | src/main/java/com/github/abhinavmishra14/aws/jets3/service/impl/JetS3RESTServiceImpl.java:88 | the name of `new File(pathname)` is the last segment of the normalised path, and is empty exactly when the pathname holds only separators |
| LocalFs.TrailingSeparatorDropped | src/main/java/com/github/abhinavmishra14/aws/jets3/service/impl/JetS3RESTServiceImpl.java:88 | `new File("x.txt/")` is the file "x.txt", named "x.txt" |
| LocalFs.BaseNameAfterSeparator | src/main/java/com/github/abhinavmishra14/aws/jets3/service/impl/JetS3RESTServiceImpl.java:251 | the name of `dir/name` is `name` whenever `name` holds no separator, whatever `dir` is |
| LocalFs.BaseNameOfPlainName | src/main/java/com/github/abhinavmishra14/aws/jets3/service/impl/JetS3RESTServiceImpl.java:251 | the name of a path without separator is the path itself |
| JetS3Service.CheckCredentials | src/main/java/com/github/abhinavmishra14/aws/jets3/service/impl/JetS3RESTServiceImpl.java:72-74 | a null access key throws "AccessKey is null!" first, then a null secret key "SecretKey is null!"; passes iff both are present |
| JetS3Service.JetS3RESTService.Create | src/main/java/com/github/abhinavmishra14/aws/jets3/service/impl/JetS3RESTServiceImpl.java:72-79 | construction fails exactly as the credential guards do, and otherwise yields a new service over the given client |
| JetS3Service.JetS3RESTService.PutObjectS3 | src/main/java/com/github/abhinavmishra14/aws/jets3/service/impl/JetS3RESTServiceImpl.java:105-110 | one put of the object; the answer is whether its data file exists, NullPointerException without one |
| JetS3Service.JetS3RESTService.PutObjectFile | src/main/java/com/github/abhinavmishra14/aws/jets3/service/impl/JetS3RESTServiceImpl.java:95-99 | putting a file is putting the object made from it |
| JetS3Service.JetS3RESTService.PutObjectByName | src/main/java/com/github/abhinavmishra14/aws/jets3/service/impl/JetS3RESTServiceImpl.java:85-89 | putting a name is putting the file `new File(name)`, whose path is the normalised name |
| JetS3Service.PutObjectByNameTrailingSeparator | src/main/java/com/github/abhinavmishra14/aws/jets3/service/impl/JetS3RESTServiceImpl.java:85-89 | putting "x.txt/" when "x.txt" is a regular file, the bucket exists and the put is not refused puts the key "x.txt" and answers true |
| JetS3Service.PutObjectFileEffect | src/main/java/com/github/abhinavmishra14/aws/jets3/service/impl/JetS3RESTServiceImpl.java:95-110 | putting a file logs one put keyed by the file's name and carrying the file; it succeeds iff the bucket exists and the call is not refused, adds that key, and answers whether the file exists |
| JetS3Service.JetS3RESTService.GetAllObjects | src/main/java/com/github/abhinavmishra14/aws/jets3/service/impl/JetS3RESTServiceImpl.java:183-186 | one listing of the whole bucket, answering the listed objects |
| JetS3Service.JetS3RESTService.CleanAndDeleteBucket | src/main/java/com/github/abhinavmishra14/aws/jets3/service/impl/JetS3RESTServiceImpl.java:220-228 | changes the store exactly as the clean-and-delete plan over the listed objects' keys |
| JetS3Service.CleanAndDeleteBucketDeletesEachObject | src/main/java/com/github/abhinavmishra14/aws/jets3/service/impl/JetS3RESTServiceImpl.java:220-228 | a finished run listed the bucket, deleted every listed object by its key in listing order, and deleted the bucket last |
| JetS3Service.JetS3RESTService.UploadDirectoryAsMultiparts | src/main/java/com/github/abhinavmishra14/aws/jets3/service/impl/JetS3RESTServiceImpl.java:245-258 | builds one upload object per traversed file, each file exactly once, and hands them to one batch upload |
| JetS3Service.JetS3RESTService.ObjectsForUpload | src/main/java/com/github/abhinavmishra14/aws/jets3/service/impl/JetS3RESTServiceImpl.java:249-254 | the loop over the traversed set builds an upload list of exactly that set |
| JetS3Service.UploadListFacts | src/main/java/com/github/abhinavmishra14/aws/jets3/service/impl/JetS3RESTServiceImpl.java:249-254 | an upload list has as many objects as files, each made from its file by the base-name mapping, every file exactly once |
| JetS3Service.UploadListExtend | src/main/java/com/github/abhinavmishra14/aws/jets3/service/impl/JetS3RESTServiceImpl.java:250-254 | adding a new file's object to an upload list gives the upload list of the larger set |
| JetS3Service.UploadListKeys | src/main/java/com/github/abhinavmishra14/aws/jets3/service/impl/JetS3RESTServiceImpl.java:251-253 | the keys uploaded are exactly the files' base names, and no object is encrypted or gzipped |
| JetS3Service.UploadListTwoFiles | src/test/java/com/github/abhinavmishra14/aws/jets3/service/JetS3RESTServiceTest.java:188-196 | a directory with two files yields exactly two objects, one per file |
| JetS3Service.UploadListSameNameSameKey | src/main/java/com/github/abhinavmishra14/aws/jets3/service/impl/JetS3RESTServiceImpl.java:251 | two files with the same base name give two objects under the same key |
| JetS3Service.NestedFilesShareName | src/main/java/com/github/abhinavmishra14/aws/jets3/service/impl/JetS3RESTServiceImpl.java:251 | "dir/x.txt" and "dir/sub/x.txt" both have the name "x.txt" |

## Left out

- Multipart splitting, part concurrency, progress reporting and waiting for completion are done inside the SDK `TransferManager` and JetS3t `MultipartUtils`. `uploadDirectoryOrFile` is modelled as the transfer it starts, and the batch upload as one store call `UploadObjects`.
- The `...AndListenProgress` and `uploadFileAsync` wrappers only wait on the SDK's asynchronous transfer and log, so they are not modelled.
- Listing pagination: a listing's answer is an input (`page`), used as the single page the code reads. The lemmas state what happens when that page is complete and when it misses a key.
- `DirectoryTraverser.getFileUris` is not part of this model. Its result is a parameter: the set of files.
- Single-call pass-throughs are not modelled:
  - `getAllBuckets`, `getObject`, `downloadObject`, `deleteObject`, `deleteObjects` and `isBucketExists`;
  - URL generation and the ACL getters and setters;
  - `createBucket(String)` and the JetS3 `createBucket`, `deleteBucket`, `deleteObject` and `uploadObjectAsMultiparts`.
  The store calls they forward to are the `S3Client` methods.
- Credentials and client construction: the service object is handed an `S3Client` (`backend`) instead of building one from the keys.
- The jets3t `S3Object(File)` constructor is modelled as `ObjectFromFile` (name, file, length). Its own checks, reading the file and computing an MD5 hash, are not modelled.
- JetS3Service.PutObjectFileEffect: the `S3Object(File)` constructor throws FileNotFoundException for a missing file before any call is made. The model still sends the put and answers `Ok(false)`, so that branch of `PutObjectSpec` (and of `putObject(bucket, File)` and `putObject(bucket, name)`) describes no run of the source.
- Java `null` is not modelled apart from the `Option` arguments of `notNull`, the credential guards and `deleteTempFile`. A null stream makes `copyInputStreamToFile` throw after the temp file was created, which is the leak of the first finding. A null grant list or file name throws NullPointerException; Dafny's types have no such value.
- `File.getName` splits on `/` only: the Windows separator is not modelled.
- The older package's `notNull`, `createTempFileFromStream`, `uploadDirectoryOrFile` and `containsFullControlPermission` are the same code as the newer package's. They are modelled once, by `AwsUtil.NotNull`, `AwsUtil.CreateTempFileFromStream`, `S3Service.UploadDirectoryOrFile` and `S3Service.ContainsFullControlPermission`.
- The older `JetS3RESTServiceImpl` and `AWSUtilConstants` are not modelled. The two error messages the constructor uses appear as `ErrMsgAccessKey` and `ErrMsgSecretKey`.
- Logging is not modelled. Network timing and concurrency are represented only by the set of refused calls.
- The store keeps keys, not object contents. A put request records the bytes or file it carries, but a later call cannot read them back.
- S3Service.CheckFullControlPermission: the source repeats the grant scan inline, and the model calls `ContainsFullControlPermission`, which is the same loop.
- The release in `finally` is modelled as a call after both the success and the exception path. Java's case where the deletion itself throws is not modelled.

## Findings

| source | as written | input that shows it | evidently intended | confidence | as-written member | corrected member |
|---|---|---|---|---|---|---|
| src/main/java/com/github/abhinavmishra14/aws/util/AWSUtil.java:36-38 | `createTempFileFromStream` creates the temp file and then copies the stream into it. When the copy throws, the exception leaves before the file is returned. The caller's `finally` (AwsS3IamServiceImpl.java:222-223) then deletes `null`, and the temp file stays on disk. | a writable temp directory and an input stream that throws during the read | a failed staging leaves no temp file behind | not executed | S3Service.UploadObjectLeaksOnFailedCopy | AwsUtil.StageCleanlyNeverLeaks |
| src/main/java/com/github/abhinavmishra14/aws/s3/service/impl/AwsS3IamServiceImpl.java:583 | `deleteDirectory` lists with the bare prefix `dirName`, so every key starting with those characters is deleted | bucket "photos" holding "test/", "test/a.txt" and "testdata/b.txt", `deleteDirectory("photos", "test")`; "testdata/b.txt" is deleted | only keys under `dirName + "/"` are deleted | not executed | BulkDelete.DeleteDirectoryRemovesSibling | BulkDelete.ScopedDeleteDirectoryKeepsOutside |

The stream uploads as written (`S3Service.UploadObjectWithAcl`, `UploadObjectPublic`, `UploadObject` and `LegacyS3Service.UploadObject`) stage with `AwsUtil.CreateTempFileFromStream`, so they have the leak. The corrected staging is `AwsUtil.StageCleanlySpec` and `AwsUtil.CreateTempFileFromStreamCleanly`. The corrected upload `S3Service.UploadObjectCleanly` uses it, and `S3Service.UploadObjectReleasesTempFile` is proved about it. The corrected delete-directory is `BulkDelete.ScopedDeleteDirectoryPlan`, run by `S3Service.DeleteDirectoryScoped`. The older package's `deleteDirectory` (src/main/java/com/abhinav/aws/s3/service/impl/AwsS3IamServiceImpl.java:415) has the same prefix defect.
