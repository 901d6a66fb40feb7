/** Bulk deletion: a listing is taken, every listed key is deleted in
    listing order, and a final call removes the bucket (clean-and-delete)
    or the directory's own key (delete-directory).

    The keys a listing returns are an input: the call sequences below are
    functions of the bucket, the name and the listed keys, and what they do
    to the store is stated against `Store.Run`. */
module BulkDelete {
  import opened Common
  import opened Store

  /** One delete call per listed key, in listing order. */
  function DeleteEach(bucket: string, keys: seq<string>): (ops: seq<Op>)
    ensures |ops| == |keys|
    ensures forall i :: 0 <= i < |keys| ==> ops[i] == DeleteObject(bucket, keys[i])
  {
    if keys == [] then [] else [DeleteObject(bucket, keys[0])] + DeleteEach(bucket, keys[1..])
  }

  /** The calls of clean-and-delete: list the whole bucket, delete each
      listed key, delete the bucket. */
  function CleanPlan(bucket: string, keys: seq<string>): (plan: seq<Op>) {
    Bracketed(ListObjects(bucket, ""), bucket, keys, DeleteBucket(bucket))
  }

  /** The calls of delete-directory: list under the prefix `dirName`,
      delete each listed key, delete the key `dirName`. */
  function DeleteDirectoryPlan(bucket: string, dirName: string, keys: seq<string>): (plan: seq<Op>) {
    Bracketed(ListObjects(bucket, dirName), bucket, keys, DeleteObject(bucket, dirName))
  }

  /** `keys` is everything the bucket holds under `prefix`, each once: what
      a listing returns when it fits on one page. */
  predicate IsCompletePage(st: StoreState, bucket: string, prefix: string, keys: seq<string>) {
    && bucket in st.objects
    && NoDuplicates(keys)
    && Elems(keys) == set k | k in st.objects[bucket] && IsPrefix(prefix, k)
  }

  /** None of the listed keys' delete calls is refused. */
  predicate DeletesAllowed(st: StoreState, bucket: string, keys: seq<string>) {
    forall k :: k in keys ==> DeleteObject(bucket, k) !in st.rejected
  }

  /** The delete loop shared by every bulk deletion: one `deleteObject`
      per listed key; an exception ends the loop and propagates. */
  method DeleteKeys(s3client: S3Client, bucket: string, keys: seq<string>) returns (o: Outcome)
    requires s3client.Valid()
    modifies s3client
    ensures s3client.Valid()
    ensures Reply(s3client.State(), o) == Run(old(s3client.State()), DeleteEach(bucket, keys))
  {
    var i := 0;
    while i < |keys|
      invariant 0 <= i <= |keys|
      invariant s3client.Valid()
      invariant Run(old(s3client.State()), DeleteEach(bucket, keys))
             == Run(s3client.State(), DeleteEach(bucket, keys[i..]))
    {
      ghost var before := s3client.State();
      assert keys[i..][1..] == keys[i + 1..];
      assert DeleteEach(bucket, keys[i..]) == [DeleteObject(bucket, keys[i])] + DeleteEach(bucket, keys[i + 1..]);
      RunAppend(before, [DeleteObject(bucket, keys[i])], DeleteEach(bucket, keys[i + 1..]));
      o := s3client.DeleteObject(bucket, keys[i]);
      if o.Threw? {
        return;
      }
      i := i + 1;
    }
    o := Done;
  }

  // ---------------------------------------------------------------------
  // What the delete calls do

  /** The deletes of a listing: they finish exactly when none is refused,
      and then the listed keys are gone; a refused delete stops the loop
      with only some of them gone. Nothing outside the bucket changes. */
  lemma {:induction false} RunDeleteEach(st: StoreState, bucket: string, keys: seq<string>)
    requires bucket in st.objects
    ensures var r := Run(st, DeleteEach(bucket, keys));
      && (r.outcome.Done? <==> DeletesAllowed(st, bucket, keys))
      && (r.outcome.Threw? ==> r.outcome == Fail(Refused))
      && bucket in r.state.objects
      && r.state.objects == st.objects[bucket := r.state.objects[bucket]]
      && st.objects[bucket] - Elems(keys) <= r.state.objects[bucket] <= st.objects[bucket]
      && (r.outcome.Done? ==> r.state.objects[bucket] == st.objects[bucket] - Elems(keys))
    decreases |keys|
  {
    if keys != [] {
      var op := DeleteObject(bucket, keys[0]);
      var first := Step(st, op);
      assert DeleteEach(bucket, keys)[0] == op;
      assert DeleteEach(bucket, keys)[1..] == DeleteEach(bucket, keys[1..]);
      assert Elems(keys) == {keys[0]} + Elems(keys[1..]) by {
        assert keys == [keys[0]] + keys[1..];
      }
      if !first.outcome.Threw? {
        RunDeleteEach(first.state, bucket, keys[1..]);
        assert DeletesAllowed(st, bucket, keys) <==> DeletesAllowed(first.state, bucket, keys[1..]);
      }
    }
  }

  /** Each listed key gets as many delete calls as it has entries in the
      listing. */
  lemma {:induction false} DeleteEachCount(bucket: string, keys: seq<string>, k: string)
    ensures multiset(DeleteEach(bucket, keys))[DeleteObject(bucket, k)] == multiset(keys)[k]
    decreases |keys|
  {
    if keys != [] {
      DeleteEachCount(bucket, keys[1..], k);
      assert keys == [keys[0]] + keys[1..];
      assert DeleteEach(bucket, keys) == [DeleteObject(bucket, keys[0])] + DeleteEach(bucket, keys[1..]);
    }
  }

  /** In a listing without duplicates every listed key occurs once. */
  lemma {:induction false} NoDuplicatesCount<T>(s: seq<T>, x: T)
    requires NoDuplicates(s) && x in s
    ensures multiset(s)[x] == 1
    decreases |s|
  {
    assert s == [s[0]] + s[1..];
    assert NoDuplicates(s[1..]) by {
      forall i, j | 0 <= i < j < |s[1..]| ensures s[1..][i] != s[1..][j] {
        assert s[1..][i] == s[i + 1] && s[1..][j] == s[j + 1];
      }
    }
    if s[0] == x {
      assert x !in s[1..] by {
        forall i | 0 <= i < |s[1..]| ensures s[1..][i] != x {
          assert s[1..][i] == s[i + 1];
        }
      }
    } else {
      NoDuplicatesCount(s[1..], x);
    }
  }

  /** A listing call, the deletes of the listed keys, and a final call. */
  function Bracketed(list: Op, bucket: string, keys: seq<string>, last: Op): (plan: seq<Op>) {
    [list] + DeleteEach(bucket, keys) + [last]
  }

  /** A bracketed plan runs the listing, then the deletes if the listing
      succeeded, then the final call if they all succeeded. */
  lemma RunBracketed(st: StoreState, list: Op, bucket: string, keys: seq<string>, last: Op)
    ensures Run(st, Bracketed(list, bucket, keys, last)) ==
      (var r1 := Step(st, list);
       if r1.outcome.Threw? then r1 else
       var r2 := Run(r1.state, DeleteEach(bucket, keys));
       if r2.outcome.Threw? then r2 else Step(r2.state, last))
  {
    var deletes := DeleteEach(bucket, keys);
    RunAppend(st, [list] + deletes, [last]);
    RunAppend(st, [list], deletes);
    assert Run(st, [list]) == Step(st, list);
    var r1 := Step(st, list);
    if r1.outcome.Done? {
      var r2 := Run(r1.state, deletes);
      assert Run(r2.state, [last]) == Step(r2.state, last);
    }
  }

  /** The calls a bracketed plan issues: a prefix of the plan, at least the
      listing; a run that completes issued the whole plan. */
  lemma {:induction false} BracketedCallOrder(st: StoreState, list: Op, bucket: string, keys: seq<string>, last: Op)
    ensures var plan := Bracketed(list, bucket, keys, last);
      var r := Run(st, plan);
      var calls := r.state.log[|st.log|..];
      && r.state.log == st.log + calls
      && IsPrefix(calls, plan) && 1 <= |calls| && calls[0] == list
      && (r.outcome.Done? ==> calls == plan)
  {
    var plan := Bracketed(list, bucket, keys, last);
    RunLog(st, plan);
  }

  /** In any prefix of a bracketed plan whose final call is neither the
      listing nor a delete of a key, that final call can only appear last,
      at the end of the whole plan. */
  lemma BracketedLastOnly(list: Op, bucket: string, keys: seq<string>, last: Op, calls: seq<Op>)
    requires last != list && !last.DeleteObject?
    requires IsPrefix(calls, Bracketed(list, bucket, keys, last))
    ensures forall i :: 0 <= i < |calls| && calls[i] == last ==> i == |calls| - 1 == |keys| + 1
  {
    var plan := Bracketed(list, bucket, keys, last);
    assert |plan| == |keys| + 2;
    forall i | 0 <= i < |calls| && calls[i] == last ensures i == |calls| - 1 == |keys| + 1 {
      assert calls[i] == plan[i];
    }
  }

  /** How many delete calls for `k` a bracketed plan holds: one per entry of
      `k` in the listing, and one more when the final call deletes `k`. */
  lemma {:induction false} BracketedCounts(list: Op, bucket: string, keys: seq<string>, last: Op, k: string)
    requires !list.DeleteObject?
    ensures multiset(Bracketed(list, bucket, keys, last))[DeleteObject(bucket, k)]
         == multiset(keys)[k] + (if last == DeleteObject(bucket, k) then 1 else 0)
  {
    DeleteEachCount(bucket, keys, k);
    assert multiset(Bracketed(list, bucket, keys, last))
        == multiset([list]) + multiset(DeleteEach(bucket, keys)) + multiset([last]);
  }

  /** A delete call for `k` is among the deletes of a listing exactly when
      `k` was listed. */
  lemma DeleteEachContains(bucket: string, keys: seq<string>, k: string)
    ensures DeleteObject(bucket, k) in DeleteEach(bucket, keys) <==> k in keys
  {
    var ops := DeleteEach(bucket, keys);
    if k in keys {
      var i :| 0 <= i < |keys| && keys[i] == k;
      assert ops[i] == DeleteObject(bucket, k);
    }
    if DeleteObject(bucket, k) in ops {
      var i :| 0 <= i < |ops| && ops[i] == DeleteObject(bucket, k);
      assert keys[i] == k;
    }
  }

  // ---------------------------------------------------------------------
  // Clean-and-delete

  /** Clean-and-delete finishes exactly when the bucket exists, no call is
      refused and the listing named every key the bucket held; the bucket is
      then gone. When the listing missed a key, the final call throws
      BucketNotEmpty and the missed keys remain. Other buckets are never
      touched. */
  lemma {:induction false} CleanAndDeleteBucketEffect(st: StoreState, bucket: string, keys: seq<string>)
    ensures var r := Run(st, CleanPlan(bucket, keys));
      var allowed := ListObjects(bucket, "") !in st.rejected && DeletesAllowed(st, bucket, keys)
        && DeleteBucket(bucket) !in st.rejected;
      && (r.outcome.Done? <==> bucket in st.objects && allowed && st.objects[bucket] <= Elems(keys))
      && (r.outcome.Done? ==> r.state.objects == st.objects - {bucket})
      && (bucket in st.objects && allowed && !(st.objects[bucket] <= Elems(keys)) ==>
            r.outcome == Fail(BucketNotEmpty)
            && r.state.objects == st.objects[bucket := st.objects[bucket] - Elems(keys)])
      && r.state.objects - {bucket} == st.objects - {bucket}
  {
    CleanAndDeleteBucketOutcome(st, bucket, keys);
    CleanAndDeleteBucketFrame(st, bucket, keys);
  }

  /** When clean-and-delete finishes, and what the bucket holds when only
      its final call fails. */
  lemma CleanAndDeleteBucketOutcome(st: StoreState, bucket: string, keys: seq<string>)
    ensures var r := Run(st, CleanPlan(bucket, keys));
      var allowed := ListObjects(bucket, "") !in st.rejected && DeletesAllowed(st, bucket, keys)
        && DeleteBucket(bucket) !in st.rejected;
      && (r.outcome.Done? <==> bucket in st.objects && allowed && st.objects[bucket] <= Elems(keys))
      && (r.outcome.Done? ==> r.state.objects == st.objects - {bucket})
      && (bucket in st.objects && allowed && !(st.objects[bucket] <= Elems(keys)) ==>
            r.outcome == Fail(BucketNotEmpty)
            && r.state.objects == st.objects[bucket := st.objects[bucket] - Elems(keys)])
  {
    var list := ListObjects(bucket, "");
    RunBracketed(st, list, bucket, keys, DeleteBucket(bucket));
    var r1 := Step(st, list);
    if r1.outcome.Done? {
      assert r1.state.objects == st.objects && r1.state.rejected == st.rejected;
      RunDeleteEach(r1.state, bucket, keys);
      var r2 := Run(r1.state, DeleteEach(bucket, keys));
      if r2.outcome.Done? {
        EmptyDifference(st.objects[bucket], Elems(keys));
        assert r2.state.objects == st.objects[bucket := st.objects[bucket] - Elems(keys)];
      }
    }
  }

  /** Clean-and-delete never touches another bucket. */
  lemma CleanAndDeleteBucketFrame(st: StoreState, bucket: string, keys: seq<string>)
    ensures var r := Run(st, CleanPlan(bucket, keys));
      r.state.objects - {bucket} == st.objects - {bucket}
  {
    var list := ListObjects(bucket, "");
    RunBracketed(st, list, bucket, keys, DeleteBucket(bucket));
    var r1 := Step(st, list);
    if r1.outcome.Done? {
      assert r1.state.objects == st.objects;
      RunDeleteEach(r1.state, bucket, keys);
      var r2 := Run(r1.state, DeleteEach(bucket, keys));
      UpdateKeepsOthers(st.objects, bucket, r2.state.objects[bucket]);
      if r2.outcome.Done? {
        var r3 := Step(r2.state, DeleteBucket(bucket));
        if r3.outcome.Done? {
          assert r3.state.objects == r2.state.objects - {bucket};
        }
      }
    }
  }

  /** A set has nothing left after removing another exactly when it is
      contained in it. */
  lemma EmptyDifference<T>(a: set<T>, b: set<T>)
    ensures a - b == {} <==> a <= b
  {
    if a - b == {} {
      forall x | x in a ensures x in b {
        assert x !in a - b;
      }
    }
  }

  /** The calls of clean-and-delete: a prefix of the plan starting with the
      listing; the bucket delete is issued only as the last call, after every
      listed key's delete; a run that completes issued one delete per listing
      entry, so exactly one per key when the listing holds no duplicates. */
  lemma {:induction false} CleanAndDeleteBucketCallOrder(st: StoreState, bucket: string, keys: seq<string>)
    ensures var plan := CleanPlan(bucket, keys);
      var r := Run(st, plan);
      var calls := r.state.log[|st.log|..];
      && r.state.log == st.log + calls
      && IsPrefix(calls, plan) && calls[0] == ListObjects(bucket, "")
      && (forall i :: 0 <= i < |calls| && calls[i] == DeleteBucket(bucket) ==> i == |calls| - 1 == |keys| + 1)
      && (DeleteBucket(bucket) in calls ==> calls == plan)
      && (r.outcome.Done? ==> calls == plan && calls[|calls| - 1] == DeleteBucket(bucket))
      && (r.outcome.Done? ==> forall k :: multiset(calls)[DeleteObject(bucket, k)] == multiset(keys)[k])
      && (r.outcome.Done? && NoDuplicates(keys) ==>
            forall k :: k in keys ==> multiset(calls)[DeleteObject(bucket, k)] == 1)
  {
    var plan := CleanPlan(bucket, keys);
    BracketedCallOrder(st, ListObjects(bucket, ""), bucket, keys, DeleteBucket(bucket));
    var r := Run(st, plan);
    var calls := r.state.log[|st.log|..];
    BracketedLastOnly(ListObjects(bucket, ""), bucket, keys, DeleteBucket(bucket), calls);
    if r.outcome.Done? {
      forall k ensures multiset(calls)[DeleteObject(bucket, k)] == multiset(keys)[k] {
        BracketedCounts(ListObjects(bucket, ""), bucket, keys, DeleteBucket(bucket), k);
      }
      if NoDuplicates(keys) {
        forall k | k in keys ensures multiset(calls)[DeleteObject(bucket, k)] == 1 {
          NoDuplicatesCount(keys, k);
        }
      }
    }
  }

  /** A listing that missed a key (a truncated page, a key written after the
      listing) leaves the bucket in place with that key still in it. */
  lemma CleanAndDeleteBucketMissedKey(st: StoreState, bucket: string, keys: seq<string>, missed: string)
    requires bucket in st.objects && missed in st.objects[bucket] && missed !in keys
    requires ListObjects(bucket, "") !in st.rejected && DeletesAllowed(st, bucket, keys)
    requires DeleteBucket(bucket) !in st.rejected
    ensures var r := Run(st, CleanPlan(bucket, keys));
      r.outcome == Fail(BucketNotEmpty) && bucket in r.state.objects && missed in r.state.objects[bucket]
  {
    CleanAndDeleteBucketEffect(st, bucket, keys);
  }

  /** With a complete listing and no refusal, clean-and-delete removes the
      bucket. */
  lemma CleanAndDeleteBucketCompleteListing(st: StoreState, bucket: string, keys: seq<string>)
    requires IsCompletePage(st, bucket, "", keys)
    requires ListObjects(bucket, "") !in st.rejected && DeletesAllowed(st, bucket, keys)
    requires DeleteBucket(bucket) !in st.rejected
    ensures var r := Run(st, CleanPlan(bucket, keys));
      r.outcome.Done? && r.state.objects == st.objects - {bucket}
  {
    CleanAndDeleteBucketEffect(st, bucket, keys);
    forall k | k in st.objects[bucket] ensures k in Elems(keys) {
      assert IsPrefix("", k);
    }
  }

  // ---------------------------------------------------------------------
  // Delete-directory

  /** Delete-directory finishes exactly when the bucket exists and no call is
      refused; the listed keys and the key `dirName` are then gone. On every
      path nothing but listed keys and `dirName` leaves the bucket, and other
      buckets are never touched. */
  lemma {:induction false} DeleteDirectoryEffect(st: StoreState, bucket: string, dirName: string, keys: seq<string>)
    ensures var r := Run(st, DeleteDirectoryPlan(bucket, dirName, keys));
      && (r.outcome.Done? <==>
            && bucket in st.objects
            && ListObjects(bucket, dirName) !in st.rejected
            && DeletesAllowed(st, bucket, keys)
            && DeleteObject(bucket, dirName) !in st.rejected)
      && r.state.objects - {bucket} == st.objects - {bucket}
      && (bucket in r.state.objects <==> bucket in st.objects)
      && (bucket in st.objects ==>
            st.objects[bucket] - Elems(keys) - {dirName} <= r.state.objects[bucket] <= st.objects[bucket])
      && (r.outcome.Done? ==> r.state.objects[bucket] == st.objects[bucket] - Elems(keys) - {dirName})
  {
    DeleteDirectoryOutcome(st, bucket, dirName, keys);
    DeleteDirectoryFrame(st, bucket, dirName, keys);
  }

  /** When delete-directory finishes, and what it has removed then. */
  lemma DeleteDirectoryOutcome(st: StoreState, bucket: string, dirName: string, keys: seq<string>)
    ensures var r := Run(st, DeleteDirectoryPlan(bucket, dirName, keys));
      && (r.outcome.Done? <==>
            && bucket in st.objects
            && ListObjects(bucket, dirName) !in st.rejected
            && DeletesAllowed(st, bucket, keys)
            && DeleteObject(bucket, dirName) !in st.rejected)
      && (r.outcome.Done? ==>
            bucket in r.state.objects && r.state.objects[bucket] == st.objects[bucket] - Elems(keys) - {dirName})
  {
    var list := ListObjects(bucket, dirName);
    var last := DeleteObject(bucket, dirName);
    RunBracketed(st, list, bucket, keys, last);
    var r1 := Step(st, list);
    if r1.outcome.Done? {
      assert r1.state.objects == st.objects && r1.state.rejected == st.rejected;
      RunDeleteEach(r1.state, bucket, keys);
    }
  }

  /** On every path delete-directory removes nothing but listed keys and
      `dirName`, and only from its bucket. */
  lemma DeleteDirectoryFrame(st: StoreState, bucket: string, dirName: string, keys: seq<string>)
    ensures var r := Run(st, DeleteDirectoryPlan(bucket, dirName, keys));
      && r.state.objects - {bucket} == st.objects - {bucket}
      && (bucket in r.state.objects <==> bucket in st.objects)
      && (bucket in st.objects ==>
            st.objects[bucket] - Elems(keys) - {dirName} <= r.state.objects[bucket] <= st.objects[bucket])
  {
    var list := ListObjects(bucket, dirName);
    var last := DeleteObject(bucket, dirName);
    RunBracketed(st, list, bucket, keys, last);
    var r1 := Step(st, list);
    if r1.outcome.Done? {
      assert r1.state.objects == st.objects;
      RunDeleteEach(r1.state, bucket, keys);
      var r2 := Run(r1.state, DeleteEach(bucket, keys));
      var left := r2.state.objects[bucket];
      UpdateKeepsOthers(st.objects, bucket, left);
      if r2.outcome.Done? {
        var r3 := Step(r2.state, last);
        if r3.outcome.Done? {
          assert r3.state.objects == st.objects[bucket := left - {dirName}];
          UpdateKeepsOthers(st.objects, bucket, left - {dirName});
        }
      }
    }
  }

  /** Updating one key of a map leaves the rest of the map as it was. */
  lemma UpdateKeepsOthers<K, V>(m: map<K, V>, k: K, v: V)
    ensures m[k := v] - {k} == m - {k}
  {
  }

  /** The calls of delete-directory: a prefix of the plan starting with the
      listing under `dirName`; a run that completes ends with the delete of
      `dirName` and issued one delete per listing entry, plus that last one. */
  lemma {:induction false} DeleteDirectoryCallOrder(st: StoreState, bucket: string, dirName: string, keys: seq<string>)
    ensures var plan := DeleteDirectoryPlan(bucket, dirName, keys);
      var r := Run(st, plan);
      var calls := r.state.log[|st.log|..];
      && r.state.log == st.log + calls
      && IsPrefix(calls, plan) && calls[0] == ListObjects(bucket, dirName)
      && (r.outcome.Done? ==> calls == plan && calls[|calls| - 1] == DeleteObject(bucket, dirName))
      && (r.outcome.Done? ==>
            forall k :: multiset(calls)[DeleteObject(bucket, k)]
                     == multiset(keys)[k] + (if k == dirName then 1 else 0))
  {
    var plan := DeleteDirectoryPlan(bucket, dirName, keys);
    BracketedCallOrder(st, ListObjects(bucket, dirName), bucket, keys, DeleteObject(bucket, dirName));
    var r := Run(st, plan);
    var calls := r.state.log[|st.log|..];
    if r.outcome.Done? {
      forall k ensures multiset(calls)[DeleteObject(bucket, k)] == multiset(keys)[k] + (if k == dirName then 1 else 0) {
        BracketedCounts(ListObjects(bucket, dirName), bucket, keys, DeleteObject(bucket, dirName), k);
      }
    }
  }

  /** With a complete listing under the bare prefix `dirName`, a finished
      delete-directory removes every key that starts with `dirName`, whether
      or not it lies under `dirName + "/"`. */
  lemma DeleteDirectoryRemovesPrefixMatches(st: StoreState, bucket: string, dirName: string, keys: seq<string>)
    requires IsCompletePage(st, bucket, dirName, keys)
    ensures var r := Run(st, DeleteDirectoryPlan(bucket, dirName, keys));
      && bucket in r.state.objects
      && (r.outcome.Done? ==>
            r.state.objects[bucket] == set k | k in st.objects[bucket] && !IsPrefix(dirName, k))
  {
    DeleteDirectoryEffect(st, bucket, dirName, keys);
  }

  /** The key set of a bucket whose directory "test" has a marker and one
      file, next to a directory "testdata" that shares the prefix. */
  const SiblingBucket := map["photos" := {"test/", "test/a.txt", "testdata/b.txt"}]

  /** Deleting directory "test" also deletes "testdata/b.txt", a key outside
      "test/": the listing is taken with the bare prefix "test". */
  lemma DeleteDirectoryRemovesSibling()
    ensures var st := StoreState(SiblingBucket, [], {});
      var keys := ["test/", "test/a.txt", "testdata/b.txt"];
      var r := Run(st, DeleteDirectoryPlan("photos", "test", keys));
      && IsCompletePage(st, "photos", "test", keys)
      && !IsPrefix("test/", "testdata/b.txt")
      && r.outcome.Done?
      && "photos" in r.state.objects
      && "testdata/b.txt" !in r.state.objects["photos"]
  {
    var st := StoreState(SiblingBucket, [], {});
    var keys := ["test/", "test/a.txt", "testdata/b.txt"];
    assert "testdata/b.txt"[..5] == "testd";
    assert IsPrefix("test", "test/") && IsPrefix("test", "test/a.txt") && IsPrefix("test", "testdata/b.txt");
    assert Elems(keys) == {"test/", "test/a.txt", "testdata/b.txt"};
    assert (set k | k in st.objects["photos"] && IsPrefix("test", k)) == {"test/", "test/a.txt", "testdata/b.txt"};
    assert NoDuplicates(keys);
    DeleteDirectoryEffect(st, "photos", "test", keys);
  }

  /** Delete-directory scoped to the directory: list under `dirName + "/"`
      and finish with the directory marker `dirName + "/"`. */
  function ScopedDeleteDirectoryPlan(bucket: string, dirName: string, keys: seq<string>): (plan: seq<Op>) {
    DeleteDirectoryPlan(bucket, dirName + "/", keys)
  }

  /** With a complete listing under `dirName + "/"`, the scoped plan never
      removes a key outside the directory, and when it finishes the bucket
      holds exactly the keys outside it. */
  lemma ScopedDeleteDirectoryKeepsOutside(st: StoreState, bucket: string, dirName: string, keys: seq<string>)
    requires IsCompletePage(st, bucket, dirName + "/", keys)
    ensures var r := Run(st, ScopedDeleteDirectoryPlan(bucket, dirName, keys));
      && bucket in r.state.objects
      && (forall k :: k in st.objects[bucket] && !IsPrefix(dirName + "/", k) ==> k in r.state.objects[bucket])
      && (r.outcome.Done? ==>
            r.state.objects[bucket] == set k | k in st.objects[bucket] && !IsPrefix(dirName + "/", k))
  {
    DeleteDirectoryEffect(st, bucket, dirName + "/", keys);
    assert IsPrefix(dirName + "/", dirName + "/");
  }
}
