/** The static helpers of the utility class: the null guard, staging an
    input stream in a temp file, and null-safe deletion of a temp file. */
module AwsUtil {
  import opened Common
  import opened LocalFs

  const TempFilePrefix := "tempFile"
  const TempFileSuffix := "s3Object"

  /** The null guard: throws IllegalArgumentException with the given message
      exactly when the value is null, and otherwise does nothing. */
  function NotNull<T>(value: Option<T>, errorMessage: string): (o: Outcome)
    ensures o.Threw? <==> value.None?
    ensures o.Threw? ==> o.error == IllegalArgumentException(errorMessage)
  {
    if value.None? then Threw(IllegalArgumentException(errorMessage)) else Done
  }

  // ---------------------------------------------------------------------
  // Staging a stream

  /** Staging as written: create the temp file, copy the stream into it,
      return it. When the copy throws, the exception propagates and the
      created file is left behind without anyone holding its name. */
  function StageSpec(t: TempState, stream: InputStream): (r: TempStep<Result<TempPath>>)
    requires TempWf(t)
    ensures TempWf(r.state)
    ensures r.result.Ok? ==> r.result.value in r.state.files
  {
    var created := CreateTempFileSpec(t, TempFilePrefix, TempFileSuffix);
    if created.result.Err? then created
    else
      var p := created.result.value;
      var copied := CopySpec(created.state, p, stream);
      if copied.result.Threw? then TempStep(copied.state, Err(copied.result.error))
      else TempStep(copied.state, Ok(p))
  }

  method CreateTempFileFromStream(temp: TempArea, stream: InputStream) returns (r: Result<TempPath>)
    requires temp.Valid()
    modifies temp
    ensures temp.Valid()
    ensures TempStep(temp.State(), r) == StageSpec(old(temp.State()), stream)
  {
    var created := temp.CreateTempFile(TempFilePrefix, TempFileSuffix);
    if created.Err? {
      return created;
    }
    var copied := temp.CopyInputStreamToFile(stream, created.value);
    if copied.Threw? {
      return Err(copied.error);
    }
    r := created;
  }

  /** A successful staging yields a file that did not exist before, named
      with the fixed prefix and suffix, holding exactly the stream's bytes,
      and changes no other file. Staging fails with an IOException exactly
      when the file cannot be created or the stream fails. */
  lemma StageCreatesFreshFile(t: TempState, stream: InputStream)
    requires TempWf(t)
    ensures var r := StageSpec(t, stream);
      && (r.result.Ok? <==> !t.readOnly && !stream.failsAfterData)
      && (r.result.Ok? ==>
            var p := r.result.value;
            && p.prefix == TempFilePrefix && p.suffix == TempFileSuffix
            && p !in t.files
            && r.state.files == t.files[p := stream.data])
      && (r.result.Err? ==> r.result.error.IOException?)
  {
  }

  /** When the copy fails, staging as written throws and leaves a new file
      behind: one that was not there before and whose name nobody was given. */
  lemma StageLeaksOnFailedCopy(t: TempState, stream: InputStream)
    requires TempWf(t) && !t.readOnly && stream.failsAfterData
    ensures var r := StageSpec(t, stream);
      && r.result.Err?
      && NextTempPath(t, TempFilePrefix, TempFileSuffix) in r.state.files
      && NextTempPath(t, TempFilePrefix, TempFileSuffix) !in t.files
  {
  }

  /** Staging that releases its file when the copy fails: the partially
      written file is deleted before the exception propagates. */
  function StageCleanlySpec(t: TempState, stream: InputStream): (r: TempStep<Result<TempPath>>)
    requires TempWf(t)
    ensures TempWf(r.state)
    ensures r.result.Ok? ==> r.result.value in r.state.files
  {
    var created := CreateTempFileSpec(t, TempFilePrefix, TempFileSuffix);
    if created.result.Err? then created
    else
      var p := created.result.value;
      var copied := CopySpec(created.state, p, stream);
      if copied.result.Threw? then TempStep(DeleteSpec(copied.state, p).state, Err(copied.result.error))
      else TempStep(copied.state, Ok(p))
  }

  method CreateTempFileFromStreamCleanly(temp: TempArea, stream: InputStream) returns (r: Result<TempPath>)
    requires temp.Valid()
    modifies temp
    ensures temp.Valid()
    ensures TempStep(temp.State(), r) == StageCleanlySpec(old(temp.State()), stream)
  {
    var created := temp.CreateTempFile(TempFilePrefix, TempFileSuffix);
    if created.Err? {
      return created;
    }
    var copied := temp.CopyInputStreamToFile(stream, created.value);
    if copied.Threw? {
      var _ := temp.Delete(created.value);
      return Err(copied.error);
    }
    r := created;
  }

  /** The cleaner staging succeeds exactly as the original does, and when it
      fails it leaves the temp files as they were (unless the operating
      system refuses to delete the new file). */
  lemma StageCleanlyNeverLeaks(t: TempState, stream: InputStream)
    requires TempWf(t)
    ensures var r := StageCleanlySpec(t, stream);
      && (r.result.Ok? ==> r == StageSpec(t, stream))
      && (r.result.Err? <==> StageSpec(t, stream).result.Err?)
      && (r.result.Err? && NextTempPath(t, TempFilePrefix, TempFileSuffix) !in t.undeletable ==>
            r.state.files == t.files)
  {
    var p := NextTempPath(t, TempFilePrefix, TempFileSuffix);
    if !t.readOnly && stream.failsAfterData && p !in t.undeletable {
      assert t.files[p := stream.data] - {p} == t.files;
    }
  }

  // ---------------------------------------------------------------------
  // Deleting a temp file

  /** Null-safe deletion: nothing happens for a null or missing file, and an
      existing file is deleted; the result is the delete's. */
  function DeleteTempSpec(t: TempState, tempFile: Option<TempPath>): (r: TempStep<bool>) {
    if tempFile.Some? && tempFile.value in t.files then DeleteSpec(t, tempFile.value)
    else TempStep(t, false)
  }

  method DeleteTempFile(temp: TempArea, tempFile: Option<TempPath>) returns (isDeleted: bool)
    requires temp.Valid()
    modifies temp
    ensures temp.Valid()
    ensures TempStep(temp.State(), isDeleted) == DeleteTempSpec(old(temp.State()), tempFile)
  {
    isDeleted := false;
    if tempFile.Some? {
      var live := temp.FileExists(tempFile.value);
      if live {
        isDeleted := temp.Delete(tempFile.value);
      }
    }
  }

  /** A summary of `DeleteTempSpec`, read off the definitions. Deleting a
      null or missing file returns false and changes nothing;
      true is returned exactly when the file existed and the operating system
      let it go, and then the path is no longer live and nothing else
      changed. */
  lemma DeleteTempFileContract(t: TempState, tempFile: Option<TempPath>)
    ensures var r := DeleteTempSpec(t, tempFile);
      && (tempFile.None? ==> !r.result && r.state == t)
      && (tempFile.Some? && tempFile.value !in t.files ==> !r.result && r.state == t)
      && (r.result <==> tempFile.Some? && tempFile.value in t.files && tempFile.value !in t.undeletable)
      && (r.result ==> tempFile.value !in r.state.files && r.state == t.(files := t.files - {tempFile.value}))
      && (!r.result ==> r.state == t)
  {
  }

  /** Deleting twice is deleting once: the second call changes nothing, and
      after a successful first call it returns false. */
  lemma DeleteTempFileTwice(t: TempState, tempFile: Option<TempPath>)
    ensures var first := DeleteTempSpec(t, tempFile);
      var second := DeleteTempSpec(first.state, tempFile);
      && second.state == first.state
      && (first.result ==> !second.result)
  {
  }
}
