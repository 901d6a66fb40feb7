/** The local side of a transfer.

    - A `File` is what `java.io.File` is: a path. What it names is looked up on
      a `Disk`, the state of the user's filesystem, which none of the modelled
      operations writes.
    - The temporary-file area is the part of the filesystem the staging code
      writes: a map from live temp paths to their contents. `TempArea` is the
      object that owns it; `TempState` is its value, on which the pure
      specifications are stated. */
module LocalFs {
  import opened Common

  const Separator := '/'

  datatype File = File(path: string)

  datatype Entry = RegularFile(length: nat) | Directory

  type Disk = map<string, Entry>

  /** `File.isFile()` */
  predicate IsFile(disk: Disk, f: File) {
    f.path in disk && disk[f.path].RegularFile?
  }

  /** `File.isDirectory()` */
  predicate IsDirectory(disk: Disk, f: File) {
    f.path in disk && disk[f.path].Directory?
  }

  /** `File.exists()` */
  predicate Exists(disk: Disk, f: File) {
    f.path in disk
  }

  /** `File.length()`: 0 for anything that is not a regular file. */
  function Length(disk: Disk, f: File): (length: nat) {
    if IsFile(disk, f) then disk[f.path].length else 0
  }

  /** The last name of a path: everything after its last separator. */
  function BaseName(path: string): (name: string) {
    if path == [] || path[|path| - 1] == Separator then []
    else BaseName(path[..|path| - 1]) + [path[|path| - 1]]
  }

  /** The last name is the longest suffix of the path that holds no
      separator: it holds none, it ends the path, and whatever precedes it
      is a separator. */
  lemma {:induction false} BaseNameIsLastSegment(path: string)
    ensures var name := BaseName(path);
      && Separator !in name
      && |name| <= |path| && name == path[|path| - |name|..]
      && (|name| < |path| ==> path[|path| - |name| - 1] == Separator)
    decreases |path|
  {
    if path != [] && path[|path| - 1] != Separator {
      var init := path[..|path| - 1];
      BaseNameIsLastSegment(init);
      var n := BaseName(init);
      assert path[|path| - |n| - 1..] == init[|init| - |n|..] + [path[|path| - 1]];
      if |n| < |init| {
        assert path[|path| - (|n| + 1) - 1] == init[|init| - |n| - 1];
      }
    }
  }

  /** A path without separators is its own last name. */
  lemma {:induction false} BaseNameOfPlainName(path: string)
    requires Separator !in path
    ensures BaseName(path) == path
    decreases |path|
  {
    if path != [] {
      assert path[|path| - 1] in path;
      var init := path[..|path| - 1];
      assert Separator !in init by {
        forall i | 0 <= i < |init| ensures init[i] != Separator {
          assert init[i] == path[i];
        }
      }
      BaseNameOfPlainName(init);
      assert path == init + [path[|path| - 1]];
    }
  }

  /** The last name of `dir/name` is `name` when `name` holds no
      separator. */
  lemma {:induction false} BaseNameAfterSeparator(dir: string, name: string)
    requires Separator !in name
    ensures BaseName(dir + [Separator] + name) == name
    decreases |name|
  {
    var path := dir + [Separator] + name;
    if name == [] {
      assert path[|path| - 1] == Separator;
    } else {
      var init := name[..|name| - 1];
      assert name[|name| - 1] in name;
      assert Separator !in init by {
        forall i | 0 <= i < |init| ensures init[i] != Separator {
          assert init[i] == name[i];
        }
      }
      assert path[..|path| - 1] == dir + [Separator] + init;
      BaseNameAfterSeparator(dir, init);
      assert name == init + [name[|name| - 1]];
    }
  }

  // ---------------------------------------------------------------------
  // Path normalisation

  /** No two separators stand next to each other. */
  predicate NoDoubleSeparator(s: string) {
    forall i :: 0 <= i < |s| - 1 ==> !(s[i] == Separator && s[i + 1] == Separator)
  }

  /** Replaces every run of separators by a single one. */
  function CollapseSeparators(s: string): (r: string)
    ensures |r| <= |s|
    ensures r == [] <==> s == []
    ensures s != [] ==> r[0] == s[0]
    ensures NoDoubleSeparator(r)
    decreases |s|
  {
    if |s| < 2 then s
    else if s[0] == Separator && s[1] == Separator then CollapseSeparators(s[1..])
    else
      var rest := CollapseSeparators(s[1..]);
      assert rest[0] == s[1];
      [s[0]] + rest
  }

  /** Collapsing only drops separators: it adds no character, and every
      character other than a separator survives. */
  lemma {:induction false} CollapseKeepsNames(s: string)
    ensures forall ch :: ch in CollapseSeparators(s) ==> ch in s
    ensures forall ch :: ch in s && ch != Separator ==> ch in CollapseSeparators(s)
    decreases |s|
  {
    if |s| >= 2 {
      CollapseKeepsNames(s[1..]);
      assert s == [s[0]] + s[1..];
    }
  }

  /** The path `java.io.File` keeps for a pathname: runs of separators
      collapsed, and a trailing separator dropped unless the path is the
      root itself. */
  function NormalizePath(pathname: string): (path: string)
    ensures path == [] <==> pathname == []
    ensures NoDoubleSeparator(path)
    ensures 1 < |path| ==> path[|path| - 1] != Separator
  {
    var c := CollapseSeparators(pathname);
    if 1 < |c| && c[|c| - 1] == Separator then
      assert c[|c| - 2] != Separator;
      c[..|c| - 1]
    else c
  }

  /** `new File(pathname)` */
  function NewFile(pathname: string): (f: File) {
    File(NormalizePath(pathname))
  }

  /** The name of a file built from a pathname is the last segment of its
      normalised path, and is empty exactly when the pathname has nothing
      but separators. */
  lemma NameOfNewFile(pathname: string)
    ensures var path := NormalizePath(pathname);
      var name := Name(NewFile(pathname));
      && (name == [] <==> forall i :: 0 <= i < |pathname| ==> pathname[i] == Separator)
      && Separator !in name
      && |name| <= |path|
      && name == path[|path| - |name|..]
      && (|name| < |path| ==> path[|path| - |name| - 1] == Separator)
  {
    var path := NormalizePath(pathname);
    var c := CollapseSeparators(pathname);
    BaseNameIsLastSegment(path);
    CollapseKeepsNames(pathname);
    assert path == c || path == c[..|c| - 1];
    if BaseName(path) == [] {
      assert path == [] || path == [Separator];
      forall i | 0 <= i < |pathname| ensures pathname[i] == Separator {
        assert pathname[i] in pathname;
      }
    } else {
      var ch := path[|path| - 1];
      assert ch in c;
      assert ch != Separator;
      assert ch in pathname;
    }
  }

  /** A trailing separator is dropped: `new File("x.txt/")` is named
      "x.txt". */
  lemma TrailingSeparatorDropped()
    ensures NewFile("x.txt/") == File("x.txt")
    ensures Name(NewFile("x.txt/")) == "x.txt"
  {
    assert CollapseSeparators("x.txt/") == "x.txt/";
    assert NormalizePath("x.txt/") == "x.txt";
    BaseNameOfPlainName("x.txt");
  }

  /** `File.getName()` */
  function Name(f: File): (name: string) {
    BaseName(f.path)
  }

  // ---------------------------------------------------------------------
  // The temporary-file area

  /** A file made by `File.createTempFile(prefix, suffix)`: its name is the
      prefix, a component chosen to be unused, and the suffix. The chosen
      component is modelled by a counter; only its freshness matters. */
  datatype TempPath = TempPath(prefix: string, id: nat, suffix: string)

  /** An input stream: the bytes it delivers, and whether reading then fails
      with an IOException instead of reaching end of stream. */
  datatype InputStream = InputStream(data: seq<byte>, failsAfterData: bool)

  /** The temp area's value. `readOnly` makes file creation fail;
      `undeletable` holds the paths whose deletion the operating system
      refuses (a file still held open, for one). */
  datatype TempState = TempState(
    files: map<TempPath, seq<byte>>,
    nextId: nat,
    readOnly: bool,
    undeletable: set<TempPath>)

  /** Every live temp file was named with a component below `nextId`. */
  predicate TempWf(t: TempState) {
    forall p :: p in t.files ==> p.id < t.nextId
  }

  datatype TempStep<+R> = TempStep(state: TempState, result: R)

  function NextTempPath(t: TempState, prefix: string, suffix: string): (p: TempPath) {
    TempPath(prefix, t.nextId, suffix)
  }

  /** `File.createTempFile(prefix, suffix)`: a new, empty, live file whose
      name was not in use, or an IOException when the area is read-only. */
  function CreateTempFileSpec(t: TempState, prefix: string, suffix: string): (r: TempStep<Result<TempPath>>)
    requires TempWf(t)
    ensures TempWf(r.state)
    ensures r.result.Ok? <==> !t.readOnly
    ensures r.result.Ok? ==>
      var p := r.result.value;
      && p.prefix == prefix && p.suffix == suffix
      && p !in t.files
      && r.state.files == t.files[p := []]
    ensures r.result.Err? ==> r.state == t && r.result.error.IOException?
  {
    if t.readOnly then TempStep(t, Err(IOException("Unable to create temporary file")))
    else
      var p := NextTempPath(t, prefix, suffix);
      TempStep(t.(files := t.files[p := []], nextId := t.nextId + 1), Ok(p))
  }

  /** `FileUtils.copyInputStreamToFile(in, p)`: the file ends up holding
      the bytes the stream delivered; a stream that fails makes the call
      throw after those bytes were written. */
  function CopySpec(t: TempState, p: TempPath, stream: InputStream): (r: TempStep<Outcome>) {
    TempStep(t.(files := t.files[p := stream.data]),
             if stream.failsAfterData then Threw(IOException("stream failed")) else Done)
  }

  /** `File.delete()`: true when the file existed and was removed. */
  function DeleteSpec(t: TempState, p: TempPath): (r: TempStep<bool>) {
    if p in t.files && p !in t.undeletable then TempStep(t.(files := t.files - {p}), true)
    else TempStep(t, false)
  }

  class TempArea {
    var files: map<TempPath, seq<byte>>
    var nextId: nat
    const readOnly: bool
    const undeletable: set<TempPath>

    ghost predicate Valid()
      reads this
    {
      TempWf(State())
    }

    function State(): (t: TempState)
      reads this
    {
      TempState(files, nextId, readOnly, undeletable)
    }

    constructor (readOnly: bool, undeletable: set<TempPath>)
      ensures Valid() && State() == TempState(map[], 0, readOnly, undeletable)
    {
      files := map[];
      nextId := 0;
      this.readOnly := readOnly;
      this.undeletable := undeletable;
    }

    method CreateTempFile(prefix: string, suffix: string) returns (r: Result<TempPath>)
      requires Valid()
      modifies this
      ensures Valid()
      ensures TempStep(State(), r) == CreateTempFileSpec(old(State()), prefix, suffix)
    {
      if readOnly {
        r := Err(IOException("Unable to create temporary file"));
        return;
      }
      var p := TempPath(prefix, nextId, suffix);
      files := files[p := []];
      nextId := nextId + 1;
      r := Ok(p);
    }

    method CopyInputStreamToFile(stream: InputStream, p: TempPath) returns (o: Outcome)
      requires Valid() && p in files
      modifies this
      ensures Valid()
      ensures TempStep(State(), o) == CopySpec(old(State()), p, stream)
    {
      files := files[p := stream.data];
      o := if stream.failsAfterData then Threw(IOException("stream failed")) else Done;
    }

    method Contents(p: TempPath) returns (data: seq<byte>)
      requires p in files
      ensures data == files[p]
    {
      data := files[p];
    }

    method FileExists(p: TempPath) returns (b: bool)
      ensures b <==> p in files
    {
      b := p in files;
    }

    method Delete(p: TempPath) returns (deleted: bool)
      requires Valid()
      modifies this
      ensures Valid()
      ensures TempStep(State(), deleted) == DeleteSpec(old(State()), p)
    {
      deleted := p in files && p !in undeletable;
      if deleted {
        files := files - {p};
      }
    }
  }
}
