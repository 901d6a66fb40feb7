/** The older utility class. Its null guard and stream staging are the same
    code as `AwsUtil`'s; its temp-file deletion returns nothing. */
module LegacyAwsUtil {
  import opened Common
  import opened LocalFs
  import AwsUtil

  /** Null-safe deletion whose result is dropped: a null or missing file is
      left alone, an existing one is deleted when the system allows it. */
  method DeleteTempFile(temp: TempArea, tempFile: Option<TempPath>)
    requires temp.Valid()
    modifies temp
    ensures temp.Valid()
    ensures temp.State() == AwsUtil.DeleteTempSpec(old(temp.State()), tempFile).state
  {
    if tempFile.Some? {
      var live := temp.FileExists(tempFile.value);
      if live {
        var _ := temp.Delete(tempFile.value);
      }
    }
  }
}
