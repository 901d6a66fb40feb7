/** The JetS3t-based service: a credentials check on construction, a
    delegation chain of `putObject` overloads, clean-and-delete over the
    listed objects, and a directory upload that turns every file found
    under the directory into one multipart upload object. */
module JetS3Service {
  import opened Common
  import opened LocalFs
  import opened Store
  import opened BulkDelete
  import AwsUtil

  const ErrMsgAccessKey := "AccessKey is null!"
  const ErrMsgSecretKey := "SecretKey is null!"

  /** The constructor's guards: the access key is checked first, then the
      secret key; each missing one throws IllegalArgumentException with its
      own message. */
  function CheckCredentials(accessKey: Option<string>, secretKey: Option<string>): (o: Outcome)
    ensures accessKey.None? ==> o == Threw(IllegalArgumentException(ErrMsgAccessKey))
    ensures accessKey.Some? && secretKey.None? ==> o == Threw(IllegalArgumentException(ErrMsgSecretKey))
    ensures o.Done? <==> accessKey.Some? && secretKey.Some?
  {
    var accessKeyChecked := AwsUtil.NotNull(accessKey, ErrMsgAccessKey);
    if accessKeyChecked.Threw? then accessKeyChecked else AwsUtil.NotNull(secretKey, ErrMsgSecretKey)
  }

  /** A JetS3t object: its key, the local file holding its data (if any),
      its content length. */
  datatype S3Object = S3Object(key: string, dataInputFile: Option<File>, contentLength: nat)

  /** The object made for a local file: named after the file's last name,
      with the file as its data and the file's length as content length. */
  function ObjectFromFile(file: File, disk: Disk): (obj: S3Object) {
    S3Object(Name(file), Some(file), Length(disk, file))
  }

  function PutRequestFor(bucketName: string, obj: S3Object): (req: PutObjectRequest) {
    var body := if obj.dataInputFile.Some? then LocalFile(obj.dataInputFile.value, obj.contentLength) else Bytes([]);
    PutObjectRequest(bucketName, obj.key, body, Some(obj.contentLength), None)
  }

  datatype PutReply = PutReply(state: StoreState, result: Result<bool>)

  /** `putObject(bucket, object)`: one put; its answer is whether the
      object's data file exists afterwards. An object without a data file
      makes that check throw NullPointerException. */
  function PutObjectSpec(st: StoreState, bucketName: string, obj: S3Object, disk: Disk): (r: PutReply) {
    var put := Step(st, PutObject(PutRequestFor(bucketName, obj)));
    if put.outcome.Threw? then PutReply(put.state, Err(put.outcome.error))
    else if obj.dataInputFile.None? then PutReply(put.state, Err(NullPointerException))
    else PutReply(put.state, Ok(Exists(disk, obj.dataInputFile.value)))
  }

  /** A summary of `PutObjectSpec` for an object made from a file, read off
      the definitions. Putting a local file is one put of an object keyed by the file's last
      name and carrying the file; it succeeds exactly when the bucket exists
      and the call is not refused, and then answers whether the file exists. */
  lemma PutObjectFileEffect(st: StoreState, bucketName: string, file: File, disk: Disk)
    ensures var obj := ObjectFromFile(file, disk);
      var req := PutRequestFor(bucketName, obj);
      var r := PutObjectSpec(st, bucketName, obj, disk);
      && req.key == Name(file) && req.body == LocalFile(file, Length(disk, file))
      && r.state.log == st.log + [PutObject(req)]
      && (r.result.Ok? <==> bucketName in st.objects && PutObject(req) !in st.rejected)
      && (r.result.Ok? ==> (r.result.value <==> Exists(disk, file)))
      && (r.result.Ok? ==> r.state.objects == st.objects[bucketName := st.objects[bucketName] + {Name(file)}])
      && (r.result.Err? ==> r.state.objects == st.objects && r.result.error.AmazonServiceException?)
  {
  }

  /** Putting by the name "x.txt/" when "x.txt" is a regular file puts the
      key "x.txt" and answers true: the trailing separator is dropped
      before the name is taken. */
  lemma PutObjectByNameTrailingSeparator(st: StoreState, bucketName: string, disk: Disk)
    requires "x.txt" in disk && disk["x.txt"].RegularFile?
    requires bucketName in st.objects
    requires PutObject(PutRequestFor(bucketName, ObjectFromFile(File("x.txt"), disk))) !in st.rejected
    ensures var r := PutObjectSpec(st, bucketName, ObjectFromFile(NewFile("x.txt/"), disk), disk);
      && r.result == Ok(true)
      && r.state.objects == st.objects[bucketName := st.objects[bucketName] + {"x.txt"}]
  {
    TrailingSeparatorDropped();
  }

  /** The keys of listed objects, in listing order. */
  function KeysOf(objects: seq<S3Object>): (keys: seq<string>)
    ensures |keys| == |objects|
    ensures forall i :: 0 <= i < |objects| ==> keys[i] == objects[i].key
  {
    seq(|objects|, i requires 0 <= i < |objects| => objects[i].key)
  }

  /** A completed clean-and-delete listed the bucket, deleted every listed
      object by its key in listing order, and then deleted the bucket. */
  lemma CleanAndDeleteBucketDeletesEachObject(st: StoreState, bucketName: string, page: seq<S3Object>)
    ensures var r := Run(st, CleanPlan(bucketName, KeysOf(page)));
      var calls := r.state.log[|st.log|..];
      r.outcome.Done? ==>
        && |calls| == |page| + 2
        && calls[0] == ListObjects(bucketName, "")
        && (forall i :: 0 <= i < |page| ==> calls[i + 1] == DeleteObject(bucketName, page[i].key))
        && calls[|page| + 1] == DeleteBucket(bucketName)
  {
    BracketedCallOrder(st, ListObjects(bucketName, ""), bucketName, KeysOf(page), DeleteBucket(bucketName));
    var r := Run(st, CleanPlan(bucketName, KeysOf(page)));
    var calls := r.state.log[|st.log|..];
    if r.outcome.Done? {
      forall i | 0 <= i < |page| ensures calls[i + 1] == DeleteObject(bucketName, page[i].key) {
        assert calls[i + 1] == DeleteEach(bucketName, KeysOf(page))[i];
      }
    }
  }

  // ---------------------------------------------------------------------
  // Directory upload

  /** The upload object for a file: keyed by the file's last name, not
      encrypted, not gzipped. */
  function ObjectForUpload(file: File): (obj: StorageObject) {
    StorageObject(Name(file), file, false, false)
  }

  /** `objects` holds one upload object per file of `files`, in some order:
      the last object is made by `ObjectForUpload` from a file of the set,
      and the objects before it are an upload list of the other files. */
  predicate UploadListFor(objects: seq<StorageObject>, files: set<File>)
    decreases |objects|
  {
    if objects == [] then files == {}
    else
      var last := objects[|objects| - 1];
      && last == ObjectForUpload(last.dataFile)
      && last.dataFile in files
      && UploadListFor(objects[..|objects| - 1], files - {last.dataFile})
  }

  /** An upload list has one object per file: as many objects as files,
      each made from its file, each file of the set exactly once. */
  lemma {:induction false} UploadListFacts(objects: seq<StorageObject>, files: set<File>)
    requires UploadListFor(objects, files)
    ensures |objects| == |files|
    ensures forall i :: 0 <= i < |objects| ==> objects[i] == ObjectForUpload(objects[i].dataFile)
    ensures forall i :: 0 <= i < |objects| ==> objects[i].dataFile in files
    ensures forall i, j :: 0 <= i < j < |objects| ==> objects[i].dataFile != objects[j].dataFile
    ensures forall f :: f in files ==> exists i :: 0 <= i < |objects| && objects[i].dataFile == f
    decreases |objects|
  {
    if objects != [] {
      var init := objects[..|objects| - 1];
      var last := objects[|objects| - 1];
      var rest := files - {last.dataFile};
      UploadListFacts(init, rest);
      assert objects == init + [last];
      assert files == rest + {last.dataFile};
      ExtendKeepsShape(init, rest, last);
      ExtendKeepsDistinct(init, rest, last);
      ExtendCovers(init, rest, last);
    }
  }

  /** The keys of an upload list are the last names of the files. */
  lemma UploadListKeys(objects: seq<StorageObject>, files: set<File>)
    requires UploadListFor(objects, files)
    ensures UploadKeys(objects) == set f | f in files :: Name(f)
    ensures forall i :: 0 <= i < |objects| ==> !objects[i].encrypted && !objects[i].gzipped
  {
    UploadListFacts(objects, files);
    forall f | f in files ensures Name(f) in UploadKeys(objects) {
      var i :| 0 <= i < |objects| && objects[i].dataFile == f;
      assert objects[i] in objects;
    }
    forall u | u in objects ensures u.key in set f | f in files :: Name(f) {
      var i :| 0 <= i < |objects| && objects[i] == u;
      assert objects[i].dataFile in files;
    }
  }

  /** A directory with two files gives two upload objects, one per file. */
  lemma UploadListTwoFiles(objects: seq<StorageObject>, f1: File, f2: File)
    requires UploadListFor(objects, {f1, f2}) && f1 != f2
    ensures |objects| == 2
    ensures objects == [ObjectForUpload(f1), ObjectForUpload(f2)] || objects == [ObjectForUpload(f2), ObjectForUpload(f1)]
  {
    UploadListFacts(objects, {f1, f2});
    var i1 :| 0 <= i1 < |objects| && objects[i1].dataFile == f1;
    var i2 :| 0 <= i2 < |objects| && objects[i2].dataFile == f2;
    assert objects[0].dataFile in {f1, f2} && objects[1].dataFile in {f1, f2};
  }

  /** Two files with the same last name in different subdirectories give
      two upload objects under one key. */
  lemma UploadListSameNameSameKey(objects: seq<StorageObject>, files: set<File>, f1: File, f2: File)
    requires UploadListFor(objects, files)
    requires f1 in files && f2 in files && f1 != f2 && Name(f1) == Name(f2)
    ensures exists i, j :: 0 <= i < j < |objects| && objects[i].key == objects[j].key
  {
    UploadListFacts(objects, files);
    var i1 :| 0 <= i1 < |objects| && objects[i1].dataFile == f1;
    var i2 :| 0 <= i2 < |objects| && objects[i2].dataFile == f2;
    assert objects[i1].key == Name(f1) && objects[i2].key == Name(f2);
    if i1 < i2 {
      assert 0 <= i1 < i2 < |objects| && objects[i1].key == objects[i2].key;
    } else {
      assert 0 <= i2 < i1 < |objects| && objects[i2].key == objects[i1].key;
    }
  }

  /** Appending the object of a new file extends an upload list by that
      file. */
  lemma UploadListExtend(objects: seq<StorageObject>, files: set<File>, file: File)
    requires UploadListFor(objects, files) && file !in files
    ensures UploadListFor(objects + [ObjectForUpload(file)], files + {file})
  {
    var extended := objects + [ObjectForUpload(file)];
    assert extended[..|extended| - 1] == objects;
    assert (files + {file}) - {file} == files;
  }

  /** Appending an upload object made from its file keeps every object made
      from its file and drawn from the files. */
  lemma ExtendKeepsShape(objects: seq<StorageObject>, files: set<File>, u: StorageObject)
    requires forall i :: 0 <= i < |objects| ==> objects[i] == ObjectForUpload(objects[i].dataFile)
    requires forall i :: 0 <= i < |objects| ==> objects[i].dataFile in files
    requires u == ObjectForUpload(u.dataFile)
    ensures var extended := objects + [u];
      && (forall i :: 0 <= i < |extended| ==> extended[i] == ObjectForUpload(extended[i].dataFile))
      && (forall i :: 0 <= i < |extended| ==> extended[i].dataFile in files + {u.dataFile})
  {
  }

  /** Appending an object whose file is not among the listed ones keeps the
      files of a list distinct. */
  lemma ExtendKeepsDistinct(objects: seq<StorageObject>, files: set<File>, u: StorageObject)
    requires forall i :: 0 <= i < |objects| ==> objects[i].dataFile in files
    requires forall i, j :: 0 <= i < j < |objects| ==> objects[i].dataFile != objects[j].dataFile
    requires u.dataFile !in files
    ensures var extended := objects + [u];
      forall i, j :: 0 <= i < j < |extended| ==> extended[i].dataFile != extended[j].dataFile
  {
  }

  /** Appending an object for a file makes the list cover that file too. */
  lemma ExtendCovers(objects: seq<StorageObject>, files: set<File>, u: StorageObject)
    requires forall f :: f in files ==> exists i :: 0 <= i < |objects| && objects[i].dataFile == f
    ensures var extended := objects + [u];
      forall f :: f in files + {u.dataFile} ==> exists i :: 0 <= i < |extended| && extended[i].dataFile == f
  {
    var extended := objects + [u];
    forall f | f in files + {u.dataFile} ensures exists i :: 0 <= i < |extended| && extended[i].dataFile == f {
      if f == u.dataFile {
        assert extended[|objects|].dataFile == f;
      } else {
        var i :| 0 <= i < |objects| && objects[i].dataFile == f;
        assert extended[i] == objects[i];
      }
    }
  }

  /** Files at `dir/x.txt` and `dir/sub/x.txt` have the same last name. */
  lemma NestedFilesShareName()
    ensures Name(File("dir/x.txt")) == Name(File("dir/sub/x.txt")) == "x.txt"
  {
    assert Separator !in "x.txt";
    assert "dir/x.txt" == "dir" + [Separator] + "x.txt";
    assert "dir/sub/x.txt" == "dir/sub" + [Separator] + "x.txt";
    BaseNameAfterSeparator("dir", "x.txt");
    BaseNameAfterSeparator("dir/sub", "x.txt");
  }

  // ---------------------------------------------------------------------
  // The service object

  class JetS3RESTService {
    const s3Service: S3Client

    constructor (s3Service: S3Client)
      ensures this.s3Service == s3Service
    {
      this.s3Service := s3Service;
    }

    /** Construction with credentials: the guards of `CheckCredentials`,
        then a service over the client those credentials open. */
    static method Create(accessKey: Option<string>, secretKey: Option<string>, backend: S3Client)
      returns (r: Result<JetS3RESTService>)
      ensures r.Err? <==> CheckCredentials(accessKey, secretKey).Threw?
      ensures r.Err? ==> r.error == CheckCredentials(accessKey, secretKey).error
      ensures r.Ok? ==> fresh(r.value) && r.value.s3Service == backend
    {
      var accessKeyChecked := AwsUtil.NotNull(accessKey, ErrMsgAccessKey);
      if accessKeyChecked.Threw? {
        return Err(accessKeyChecked.error);
      }
      var secretKeyChecked := AwsUtil.NotNull(secretKey, ErrMsgSecretKey);
      if secretKeyChecked.Threw? {
        return Err(secretKeyChecked.error);
      }
      var service := new JetS3RESTService(backend);
      r := Ok(service);
    }

    method PutObjectS3(bucketName: string, s3Object: S3Object, disk: Disk) returns (r: Result<bool>)
      requires s3Service.Valid()
      modifies s3Service
      ensures s3Service.Valid()
      ensures PutReply(s3Service.State(), r) == PutObjectSpec(old(s3Service.State()), bucketName, s3Object, disk)
    {
      var put := s3Service.PutObject(PutRequestFor(bucketName, s3Object));
      if put.Threw? {
        return Err(put.error);
      }
      if s3Object.dataInputFile.None? {
        return Err(NullPointerException);
      }
      r := Ok(Exists(disk, s3Object.dataInputFile.value));
    }

    /** `putObject(bucket, file)` is `putObject(bucket, new S3Object(file))`. */
    method PutObjectFile(bucketName: string, file: File, disk: Disk) returns (r: Result<bool>)
      requires s3Service.Valid()
      modifies s3Service
      ensures s3Service.Valid()
      ensures PutReply(s3Service.State(), r) == PutObjectSpec(old(s3Service.State()), bucketName, ObjectFromFile(file, disk), disk)
    {
      r := PutObjectS3(bucketName, ObjectFromFile(file, disk), disk);
    }

    /** `putObject(bucket, name)` is `putObject(bucket, new File(name))`;
        the file keeps the normalised pathname. */
    method PutObjectByName(bucketName: string, fileName: string, disk: Disk) returns (r: Result<bool>)
      requires s3Service.Valid()
      modifies s3Service
      ensures s3Service.Valid()
      ensures PutReply(s3Service.State(), r)
           == PutObjectSpec(old(s3Service.State()), bucketName, ObjectFromFile(NewFile(fileName), disk), disk)
    {
      r := PutObjectFile(bucketName, NewFile(fileName), disk);
    }

    /** Lists the bucket; the objects answered are the parameter `page`. */
    method GetAllObjects(bucketName: string, page: seq<S3Object>) returns (r: Result<seq<S3Object>>)
      requires s3Service.Valid()
      modifies s3Service
      ensures s3Service.Valid()
      ensures Reply(s3Service.State(), OutcomeOf(r)) == Step(old(s3Service.State()), ListObjects(bucketName, ""))
      ensures r.Ok? ==> r.value == page
    {
      var listed := s3Service.ListObjects(bucketName, "", KeysOf(page));
      if listed.Err? {
        return Err(listed.error);
      }
      r := Ok(page);
    }

    method CleanAndDeleteBucket(bucketName: string, page: seq<S3Object>) returns (o: Outcome)
      requires s3Service.Valid()
      modifies s3Service
      ensures s3Service.Valid()
      ensures Reply(s3Service.State(), o) == Run(old(s3Service.State()), CleanPlan(bucketName, KeysOf(page)))
    {
      RunBracketed(s3Service.State(), ListObjects(bucketName, ""), bucketName, KeysOf(page), DeleteBucket(bucketName));
      var s3Objects := GetAllObjects(bucketName, page);
      if s3Objects.Err? {
        return Threw(s3Objects.error);
      }
      o := DeleteKeys(s3Service, bucketName, KeysOf(s3Objects.value));
      if o.Threw? {
        return;
      }
      o := s3Service.DeleteBucket(bucketName);
    }

    /** The loop of the directory upload: one upload object per file of
        the set, taken in no particular order. */
    static method ObjectsForUpload(setOfFilePath: set<File>) returns (objects: seq<StorageObject>)
      ensures UploadListFor(objects, setOfFilePath)
    {
      var remaining := setOfFilePath;
      ghost var added: set<File> := {};
      objects := [];
      while remaining != {}
        invariant added <= setOfFilePath && remaining == setOfFilePath - added
        invariant UploadListFor(objects, added)
        decreases |remaining|
      {
        var file :| file in remaining;
        ghost var nextAdded := added + {file};
        var next := objects + [ObjectForUpload(file)];
        UploadListExtend(objects, added, file);
        objects, added, remaining := next, nextAdded, remaining - {file};
      }
      assert added == setOfFilePath;
    }

    /** Builds one upload object per file found under the directory (the
        files are the parameter `setOfFilePath`, in no particular order) and
        hands them to one batch upload. */
    method UploadDirectoryAsMultiparts(bucketName: string, setOfFilePath: set<File>)
      returns (objects: seq<StorageObject>, o: Outcome)
      requires s3Service.Valid()
      modifies s3Service
      ensures s3Service.Valid()
      ensures UploadListFor(objects, setOfFilePath)
      ensures Reply(s3Service.State(), o) == Step(old(s3Service.State()), UploadObjects(bucketName, objects))
    {
      objects := ObjectsForUpload(setOfFilePath);
      o := s3Service.UploadObjects(bucketName, objects);
    }
  }
}
