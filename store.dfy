/** The remote object store, as the S3 client library presents it.

    The store maps each existing bucket to the set of keys it holds. Every
    call a client makes is appended to a call log, so the order of calls can
    be stated. A fixed set `rejected` names the calls the service refuses
    (access denied, throttling, a dropped connection); a refused call is
    logged and throws, and changes nothing.

    `Step` and `Run` give the semantics of one call and of a sequence of
    calls that stops at the first exception, on values. `S3Client` is the
    client object whose methods the services call. */
module Store {
  import opened Common
  import opened LocalFs

  datatype CannedAcl =
    | Private
    | PublicRead
    | PublicReadWrite
    | AuthenticatedRead
    | LogDeliveryWrite
    | BucketOwnerRead
    | BucketOwnerFullControl

  datatype Permission = FullControl | Read | Write | ReadAcp | WriteAcp

  /** An entry of an access control list. */
  datatype Grant = Grant(grantee: string, permission: Permission)

  /** What a put request carries: bytes held in memory, a staged temp file
      with the bytes it held when the request was built, or a user file. */
  datatype Body =
    | Bytes(data: seq<byte>)
    | StagedFile(path: TempPath, data: seq<byte>)
    | LocalFile(file: File, length: nat)

  datatype PutObjectRequest = PutObjectRequest(
    bucket: string,
    key: string,
    body: Body,
    declaredLength: Option<nat>,
    cannedAcl: Option<CannedAcl>)

  datatype CreateBucketRequest = CreateBucketRequest(bucket: string, cannedAcl: Option<CannedAcl>)

  /** An object handed to a multipart batch upload. */
  datatype StorageObject = StorageObject(key: string, dataFile: File, encrypted: bool, gzipped: bool)

  /** One call to the service. */
  datatype Op =
    | CreateBucket(create: CreateBucketRequest)
    | DeleteBucket(bucket: string)
    | ListObjects(bucket: string, prefix: string)
    | PutObject(put: PutObjectRequest)
    | DeleteObject(bucket: string, key: string)
    | GetBucketAcl(bucket: string)
    | UploadObjects(bucket: string, uploads: seq<StorageObject>)

  type Objects = map<string, set<string>>

  datatype StoreState = StoreState(objects: Objects, log: seq<Op>, rejected: set<Op>)

  datatype Reply = Reply(state: StoreState, outcome: Outcome)

  function Fail(code: ErrorCode): (o: Outcome) {
    Threw(AmazonServiceException(code))
  }

  function UploadKeys(uploads: seq<StorageObject>): (keys: set<string>) {
    set u | u in uploads :: u.key
  }

  /** One call: it is logged; a refused call throws; a call on a missing
      bucket throws NoSuchBucket; creating an existing bucket throws
      BucketAlreadyOwnedByYou; deleting a bucket that still holds keys throws
      BucketNotEmpty; deleting a missing key succeeds and changes nothing. */
  function Step(st: StoreState, op: Op): (r: Reply)
    ensures r.state.log == st.log + [op] && r.state.rejected == st.rejected
    ensures op in st.rejected ==> r.outcome == Fail(Refused)
    ensures r.outcome.Threw? ==> r.state.objects == st.objects
  {
    var logged := st.(log := st.log + [op]);
    if op in st.rejected then Reply(logged, Fail(Refused))
    else match op
      case CreateBucket(req) =>
        if req.bucket in st.objects then Reply(logged, Fail(BucketAlreadyOwnedByYou))
        else Reply(logged.(objects := st.objects[req.bucket := {}]), Done)
      case DeleteBucket(b) =>
        if b !in st.objects then Reply(logged, Fail(NoSuchBucket))
        else if st.objects[b] != {} then Reply(logged, Fail(BucketNotEmpty))
        else Reply(logged.(objects := st.objects - {b}), Done)
      case ListObjects(b, _) =>
        if b !in st.objects then Reply(logged, Fail(NoSuchBucket)) else Reply(logged, Done)
      case GetBucketAcl(b) =>
        if b !in st.objects then Reply(logged, Fail(NoSuchBucket)) else Reply(logged, Done)
      case PutObject(req) =>
        if req.bucket !in st.objects then Reply(logged, Fail(NoSuchBucket))
        else Reply(logged.(objects := st.objects[req.bucket := st.objects[req.bucket] + {req.key}]), Done)
      case DeleteObject(b, k) =>
        if b !in st.objects then Reply(logged, Fail(NoSuchBucket))
        else Reply(logged.(objects := st.objects[b := st.objects[b] - {k}]), Done)
      case UploadObjects(b, us) =>
        if b !in st.objects then Reply(logged, Fail(NoSuchBucket))
        else Reply(logged.(objects := st.objects[b := st.objects[b] + UploadKeys(us)]), Done)
  }

  /** A sequence of calls made one after the other; the first exception
      propagates and no later call is made. */
  function Run(st: StoreState, ops: seq<Op>): (r: Reply)
    ensures r.state.rejected == st.rejected
    ensures |st.log| <= |r.state.log|
    decreases |ops|
  {
    if ops == [] then Reply(st, Done)
    else
      var first := Step(st, ops[0]);
      if first.outcome.Threw? then first else Run(first.state, ops[1..])
  }

  /** How many calls of `ops` are made before the run stops. */
  function Issued(st: StoreState, ops: seq<Op>): (n: nat)
    ensures n <= |ops|
    ensures ops != [] ==> 1 <= n
    decreases |ops|
  {
    if ops == [] then 0
    else
      var first := Step(st, ops[0]);
      if first.outcome.Threw? then 1 else 1 + Issued(first.state, ops[1..])
  }

  /** Running one sequence after another is running their concatenation. */
  lemma {:induction false} RunAppend(st: StoreState, a: seq<Op>, b: seq<Op>)
    ensures Run(st, a + b) ==
      (var ra := Run(st, a); if ra.outcome.Threw? then ra else Run(ra.state, b))
    decreases |a|
  {
    if a == [] {
      assert a + b == b;
    } else {
      assert (a + b)[0] == a[0];
      assert (a + b)[1..] == a[1..] + b;
      var first := Step(st, a[0]);
      if !first.outcome.Threw? {
        RunAppend(first.state, a[1..], b);
      }
    }
  }

  /** The log grows by exactly the calls made, in order, and they are a
      prefix of the sequence; a run that completes made every call. */
  lemma {:induction false} RunLog(st: StoreState, ops: seq<Op>)
    ensures Run(st, ops).state.log == st.log + ops[..Issued(st, ops)]
    ensures Run(st, ops).outcome.Done? ==> Issued(st, ops) == |ops|
    decreases |ops|
  {
    if ops != [] {
      var first := Step(st, ops[0]);
      if first.outcome.Threw? {
        assert ops[..1] == [ops[0]];
      } else {
        RunLog(first.state, ops[1..]);
        assert ops[..Issued(st, ops)] == [ops[0]] + ops[1..][..Issued(first.state, ops[1..])];
      }
    }
  }

  /** The client object. `buckets` and the key of `objects` are the same
      set: the bucket list and the per-bucket contents never disagree. */
  class S3Client {
    var buckets: set<string>
    var objects: Objects
    var log: seq<Op>
    const rejected: set<Op>

    ghost predicate Valid()
      reads this
    {
      buckets == objects.Keys
    }

    function State(): (st: StoreState)
      reads this
    {
      StoreState(objects, log, rejected)
    }

    constructor (objects: Objects, rejected: set<Op>)
      ensures Valid() && State() == StoreState(objects, [], rejected)
    {
      this.buckets := objects.Keys;
      this.objects := objects;
      this.log := [];
      this.rejected := rejected;
    }

    method CreateBucket(req: CreateBucketRequest) returns (o: Outcome)
      requires Valid()
      modifies this
      ensures Valid()
      ensures Reply(State(), o) == Step(old(State()), Op.CreateBucket(req))
    {
      var op := Op.CreateBucket(req);
      log := log + [op];
      if op in rejected {
        return Fail(Refused);
      }
      if req.bucket in buckets {
        return Fail(BucketAlreadyOwnedByYou);
      }
      buckets := buckets + {req.bucket};
      objects := objects[req.bucket := {}];
      o := Done;
    }

    method DeleteBucket(bucket: string) returns (o: Outcome)
      requires Valid()
      modifies this
      ensures Valid()
      ensures Reply(State(), o) == Step(old(State()), Op.DeleteBucket(bucket))
    {
      var op := Op.DeleteBucket(bucket);
      log := log + [op];
      if op in rejected {
        return Fail(Refused);
      }
      if bucket !in buckets {
        return Fail(NoSuchBucket);
      }
      if objects[bucket] != {} {
        return Fail(BucketNotEmpty);
      }
      buckets := buckets - {bucket};
      objects := objects - {bucket};
      o := Done;
    }

    /** Lists the keys under `prefix`. The keys the service answers with are
        the parameter `page`: which keys, in which order and how many fit on
        one page is the service's business. */
    method ListObjects(bucket: string, prefix: string, page: seq<string>) returns (r: Result<seq<string>>)
      requires Valid()
      modifies this
      ensures Valid()
      ensures Reply(State(), OutcomeOf(r)) == Step(old(State()), Op.ListObjects(bucket, prefix))
      ensures r.Ok? ==> r.value == page
    {
      var op := Op.ListObjects(bucket, prefix);
      log := log + [op];
      if op in rejected {
        return Err(AmazonServiceException(Refused));
      }
      if bucket !in buckets {
        return Err(AmazonServiceException(NoSuchBucket));
      }
      r := Ok(page);
    }

    method PutObject(req: PutObjectRequest) returns (o: Outcome)
      requires Valid()
      modifies this
      ensures Valid()
      ensures Reply(State(), o) == Step(old(State()), Op.PutObject(req))
    {
      var op := Op.PutObject(req);
      log := log + [op];
      if op in rejected {
        return Fail(Refused);
      }
      if req.bucket !in buckets {
        return Fail(NoSuchBucket);
      }
      objects := objects[req.bucket := objects[req.bucket] + {req.key}];
      o := Done;
    }

    method DeleteObject(bucket: string, key: string) returns (o: Outcome)
      requires Valid()
      modifies this
      ensures Valid()
      ensures Reply(State(), o) == Step(old(State()), Op.DeleteObject(bucket, key))
    {
      var op := Op.DeleteObject(bucket, key);
      log := log + [op];
      if op in rejected {
        return Fail(Refused);
      }
      if bucket !in buckets {
        return Fail(NoSuchBucket);
      }
      objects := objects[bucket := objects[bucket] - {key}];
      o := Done;
    }

    /** Reads a bucket's access control list; its grants are the parameter
        `grants`, as the listing's keys are for `ListObjects`. */
    method GetBucketAcl(bucket: string, grants: seq<Grant>) returns (r: Result<seq<Grant>>)
      requires Valid()
      modifies this
      ensures Valid()
      ensures Reply(State(), OutcomeOf(r)) == Step(old(State()), Op.GetBucketAcl(bucket))
      ensures r.Ok? ==> r.value == grants
    {
      var op := Op.GetBucketAcl(bucket);
      log := log + [op];
      if op in rejected {
        return Err(AmazonServiceException(Refused));
      }
      if bucket !in buckets {
        return Err(AmazonServiceException(NoSuchBucket));
      }
      r := Ok(grants);
    }

    /** A multipart batch upload, taken as one call: how the objects are
        split into parts and sent is the library's business. */
    method UploadObjects(bucket: string, uploads: seq<StorageObject>) returns (o: Outcome)
      requires Valid()
      modifies this
      ensures Valid()
      ensures Reply(State(), o) == Step(old(State()), Op.UploadObjects(bucket, uploads))
    {
      var op := Op.UploadObjects(bucket, uploads);
      log := log + [op];
      if op in rejected {
        return Fail(Refused);
      }
      if bucket !in buckets {
        return Fail(NoSuchBucket);
      }
      objects := objects[bucket := objects[bucket] + UploadKeys(uploads)];
      o := Done;
    }
  }
}
