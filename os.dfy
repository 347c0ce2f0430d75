/** The operating system as the server sees it: a filesystem that says which
    paths a process can change into and what each of those directories
    lists, and the process's working directory, which a change updates in
    place. Paths are compared verbatim: no resolution of "." or "..", no
    relative paths. */
module Os {
  import opened Protocol

  /** Every valid key is a path a directory change accepts; its value is the
      directory's entry names in the order the system yields them, or None
      when the directory cannot be opened or read. */
  datatype FileSystem = FileSystem(dirs: map<Bytes, Option<seq<Bytes>>>)

  const NUL: Byte := 0

  /** A path the system can name at all. A directory change to the empty
      path fails (no such file or directory), and so does one to a path
      holding a NUL byte (invalid argument), whatever the filesystem holds. */
  predicate ValidPath(path: Bytes) {
    path != [] && NUL !in path
  }

  predicate IsDirectory(fs: FileSystem, path: Bytes) {
    ValidPath(path) && path in fs.dirs
  }

  /** The working directory as the system reports it; the query fails once
      the directory is no longer one (removed, or never valid). */
  function WorkingDirectory(fs: FileSystem, wd: Bytes): (r: Option<Bytes>)
    ensures r.Some? <==> IsDirectory(fs, wd)
    ensures r.Some? ==> r.value == wd
  {
    if IsDirectory(fs, wd) then Some(wd) else None
  }

  /** The names of the working directory's entries: both opening "." and
      reading its names fail on a working directory that is not a readable
      directory. */
  function DirectoryNames(fs: FileSystem, wd: Bytes): (r: Option<seq<Bytes>>)
    ensures r.Some? ==> IsDirectory(fs, wd) && fs.dirs[wd] == r
    ensures IsDirectory(fs, wd) && fs.dirs[wd].Some? ==> r.Some?
  {
    if IsDirectory(fs, wd) then fs.dirs[wd] else None
  }

  /** The server process: its one working directory, shared by everything
      the process does. */
  class Process {
    const fs: FileSystem
    var wd: Bytes

    constructor (fs: FileSystem, wd: Bytes)
      ensures this.fs == fs && this.wd == wd
    {
      this.fs := fs;
      this.wd := wd;
    }

    /** Changes the working directory to path when the system accepts it. */
    method Chdir(path: Bytes) returns (ok: bool)
      modifies this
      ensures ok <==> IsDirectory(fs, path)
      ensures wd == if ok then path else old(wd)
    {
      ok := IsDirectory(fs, path);
      if ok {
        wd := path;
      }
    }

    method Getwd() returns (r: Option<Bytes>)
      ensures r.Some? <==> IsDirectory(fs, wd)
      ensures r.Some? ==> r.value == wd
    {
      r := WorkingDirectory(fs, wd);
    }

    method ReadDirNames() returns (r: Option<seq<Bytes>>)
      ensures r == DirectoryNames(fs, wd)
    {
      r := DirectoryNames(fs, wd);
    }
  }
}
