/**
 * The part of the file system the config store and the backup engine touch:
 * regular files with their content and modification time. The directory
 * structure is implied by the paths; `fs::path` filename extraction and the
 * `/` operator are modelled on strings.
 */
module FileSystem {
  import opened Text

  /** A regular file: its bytes and its last write time. */
  datatype Entry = Entry(content: string, mtime: int)

  /** `fs::path(p).filename()`: the text after the last '/', empty when `p` ends in '/'. */
  function FileName(path: string): (r: string)
    ensures |r| <= |path|
    ensures |r| == |path| ==> r == path
    ensures |r| < |path| ==> r == path[|path| - |r|..] && path[|path| - |r| - 1] == '/'
    ensures forall i :: 0 <= i < |r| ==> r[i] != '/'
  {
    if path == [] || path[|path| - 1] == '/' then []
    else FileName(path[..|path| - 1]) + [path[|path| - 1]]
  }

  /** `fs::path(dir) / name` for a plain file name. */
  function Join(dir: string, name: string): string {
    if dir == [] then name
    else if dir[|dir| - 1] == '/' then dir + name
    else dir + "/" + name
  }

  /** A path the directory iterator of `dir` yields: a named entry right below `dir`. */
  predicate InDir(path: string, dir: string) {
    FileName(path) != [] && Join(dir, FileName(path)) == path
  }

  /** The filename of a path that ends in a separator followed by `name` is `name`. */
  lemma {:induction false} FileNameAfterSeparator(prefix: string, name: string)
    requires prefix == [] || prefix[|prefix| - 1] == '/'
    requires forall i :: 0 <= i < |name| ==> name[i] != '/'
    ensures FileName(prefix + name) == name
    decreases |name|
  {
    if name == [] {
      assert prefix + name == prefix;
    } else {
      var init, last := name[..|name| - 1], name[|name| - 1];
      DropLastOfAppend(prefix, name);
      FileNameStep(prefix + name);
      FileNameAfterSeparator(prefix, init);
      assert name == init + [last];
    }
  }

  /** A path whose last character is not a separator: its filename ends in that character. */
  lemma {:induction false} FileNameStep(path: string)
    requires path != [] && path[|path| - 1] != '/'
    ensures FileName(path) == FileName(path[..|path| - 1]) + [path[|path| - 1]]
  {
  }

  /** The path `prefix + name` without its last character, and that character. */
  lemma {:induction false} DropLastOfAppend(prefix: string, name: string)
    requires name != []
    ensures (prefix + name)[..|prefix + name| - 1] == prefix + name[..|name| - 1]
    ensures (prefix + name)[|prefix + name| - 1] == name[|name| - 1]
  {
  }

  /** Joining a plain name below a directory and taking the filename gives the name back. */
  lemma {:induction false} FileNameOfJoin(dir: string, name: string)
    requires forall i :: 0 <= i < |name| ==> name[i] != '/'
    ensures FileName(Join(dir, name)) == name
    ensures name != [] ==> InDir(Join(dir, name), dir)
  {
    if dir == [] {
      FileNameAfterSeparator([], name);
    } else if dir[|dir| - 1] == '/' {
      FileNameAfterSeparator(dir, name);
    } else {
      assert dir + "/" + name == (dir + "/") + name;
      FileNameAfterSeparator(dir + "/", name);
    }
  }

  /**
   * The files the process can see. `unreadable` and `unwritable` hold the paths
   * it may not open for reading or for writing (missing permissions, a
   * directory in the way); a copy needs a readable source and a writable
   * target. `clock` is the time a write stamps on the file it changes.
   */
  class Disk {
    var files: map<string, Entry>
    var unreadable: set<string>
    var unwritable: set<string>
    var clock: int

    constructor (files: map<string, Entry>, unreadable: set<string>, unwritable: set<string>, clock: int)
      ensures this.files == files && this.unreadable == unreadable && this.unwritable == unwritable
      ensures this.clock == clock
    {
      this.files := files;
      this.unreadable := unreadable;
      this.unwritable := unwritable;
      this.clock := clock;
    }

    /** `fs::copy_file(from, to)` throws: the source cannot be read, the target cannot be written, or both are one file. */
    predicate CopyRefused(from: string, to: string)
      reads this
    {
      from in unreadable || to in unwritable || from == to
    }

    /** `fs::exists`. */
    predicate Exists(path: string)
      reads this
    {
      path in files
    }

    /** An input stream on `path` opens. */
    predicate CanRead(path: string)
      reads this
    {
      path in files && path !in unreadable
    }

    /** `std::ofstream(path)`, truncating: the file now holds `content`. */
    method WriteFile(path: string, content: string) returns (ok: bool)
      modifies this`files
      ensures ok <==> path !in unwritable
      ensures files == if ok then old(files)[path := Entry(content, clock)] else old(files)
    {
      ok := path !in unwritable;
      if ok {
        files := files[path := Entry(content, clock)];
      }
    }

    /** `std::ofstream(path, std::ios::app)`: creates the file when absent and appends `text`. */
    method AppendFile(path: string, text: string) returns (ok: bool)
      modifies this`files
      ensures ok <==> path !in unwritable
      ensures ok ==> files == old(files)[path := Entry(
                (if path in old(files) then old(files)[path].content else "") + text, clock)]
      ensures !ok ==> files == old(files)
    {
      ok := path !in unwritable;
      if ok {
        var before := if path in files then files[path].content else "";
        files := files[path := Entry(before + text, clock)];
      }
    }

    /**
     * `fs::copy_file(from, to, overwrite_existing)`: fails when the source is
     * missing or cannot be read, the target cannot be written, or both name the same file; `what`
     * is the text of the exception, which the model leaves open.
     */
    method CopyFile(from: string, to: string) returns (ok: bool, what: string)
      modifies this`files
      ensures ok <==> from in old(files) && !CopyRefused(from, to)
      ensures ok ==> files == old(files)[to := Entry(old(files)[from].content, clock)]
      ensures !ok ==> files == old(files)
    {
      ok := from in files && !CopyRefused(from, to);
      what := "";
      if ok {
        files := files[to := Entry(files[from].content, clock)];
      }
    }

    /** `fs::remove`; `succeeds` is whether the operating system lets the file go. */
    method Remove(path: string, succeeds: bool) returns (ok: bool)
      modifies this`files
      ensures ok == succeeds
      ensures files == if ok then old(files) - {path} else old(files)
    {
      ok := succeeds;
      if ok {
        files := files - {path};
      }
    }

    /**
     * `xz -9e path`: replaces the file by `path + ".xz"`, keeping its time.
     * `succeeds` is the tool's own verdict; xz also refuses a missing input and
     * an output that already exists.
     */
    method Compress(path: string, succeeds: bool) returns (ok: bool)
      modifies this`files
      ensures ok <==> succeeds && path in old(files) && path + ".xz" !in old(files)
      ensures ok ==> files == (old(files) - {path})[path + ".xz" := old(files)[path]]
      ensures !ok ==> files == old(files)
    {
      ok := succeeds && path in files && path + ".xz" !in files;
      if ok {
        files := (files - {path})[path + ".xz" := files[path]];
      }
    }

    /**
     * `xz -d -k -f path` for a path ending in ".xz": writes the unpacked file next
     * to it, overwriting, and keeps the packed one.
     */
    method Decompress(path: string, succeeds: bool) returns (ok: bool)
      requires EndsWith(path, ".xz")
      modifies this`files
      ensures ok <==> succeeds && path in old(files)
      ensures ok ==> files == old(files)[path[..|path| - 3] := old(files)[path]]
      ensures !ok ==> files == old(files)
    {
      ok := succeeds && path in files;
      if ok {
        files := files[path[..|path| - 3] := files[path]];
      }
    }
  }
}
