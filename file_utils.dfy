/**
 * The file system as the backup code sees it through lib/file-utils.js: files (path to
 * content) and directories, with `readdir`, `unlink`, `copyFile` and `mkdir`, each of which
 * either succeeds or fails with an errno-style code and leaves the state as described.
 */
module FileUtils {
  import opened Wrappers
  import opened Infos

  datatype FsError = FsError(code: string, path: string)

  const ENOENT: string := "ENOENT"
  const EEXIST: string := "EEXIST"
  const EISDIR: string := "EISDIR"
  const ENOTDIR: string := "ENOTDIR"

  predicate Distinct<T(==)>(s: seq<T>) {
    forall i, j :: 0 <= i < j < |s| ==> s[i] != s[j]
  }

  class FileSystem {
    var files: map<string, seq<bv8>>
    var dirs: set<string>

    constructor (files0: map<string, seq<bv8>>, dirs0: set<string>)
      ensures files == files0 && dirs == dirs0
    {
      files := files0;
      dirs := dirs0;
    }

    /** No path is both a file and a directory. */
    predicate Valid()
      reads this
    {
      files.Keys !! dirs
    }

    /** A folder exists when it was created, or is the root or the working directory. */
    predicate DirExists(folder: string)
      reads this
    {
      folder in dirs || folder == "/" || folder == "."
    }

    /**
     * The code of a path that cannot be reached: `ENOTDIR` when the path or its folder is a
     * file, `ENOENT` otherwise (only the last two segments are inspected).
     */
    function MissingCode(path: string): string
      reads this
    {
      if path in files || Dirname(path) in files then ENOTDIR else ENOENT
    }

    /** The names listed by `readdir(folder)`: the last segment of every file and directory directly inside it. */
    function Entries(folder: string): set<string>
      reads this
    {
      (set p | p in files.Keys && Dirname(p) == folder :: Basename(p)) +
      (set p | p in dirs && Dirname(p) == folder :: Basename(p))
    }

    /** `readdir`: every entry of the folder once, in an order the file system chooses. */
    method Readdir(folder: string) returns (r: Result<seq<string>, FsError>)
      ensures !DirExists(folder) ==> r == Err(FsError(MissingCode(folder), folder))
      ensures DirExists(folder) ==> r.Ok? && Distinct(r.value) && forall n :: n in r.value <==> n in Entries(folder)
    {
      if !DirExists(folder) {
        return Err(FsError(MissingCode(folder), folder));
      }
      var left := Entries(folder);
      var out: seq<string> := [];
      while left != {}
        invariant forall n :: n in Entries(folder) <==> n in out || n in left
        invariant forall n :: n in out ==> n !in left
        invariant Distinct(out)
        decreases |left|
      {
        var n :| n in left;
        out := out + [n];
        left := left - {n};
      }
      r := Ok(out);
    }

    /** `unlink`: removes a file; a directory or a missing path is an error and changes nothing. */
    method Unlink(path: string) returns (r: Result<(), FsError>)
      modifies this
      ensures path in old(files) ==> r == Ok(()) && files == old(files) - {path}
      ensures path !in old(files) ==>
        files == old(files) && r == Err(FsError(if path in old(dirs) then EISDIR else old(MissingCode(path)), path))
      ensures dirs == old(dirs)
      ensures old(Valid()) ==> Valid()
    {
      if path in files {
        files := files - {path};
        r := Ok(());
      } else if path in dirs {
        r := Err(FsError(EISDIR, path));
      } else {
        r := Err(FsError(MissingCode(path), path));
      }
    }

    /** `copyFile`: the destination (created or overwritten) gets the source's content. */
    method CopyFile(src: string, dst: string) returns (r: Result<(), FsError>)
      modifies this
      ensures r.Ok? <==> src in old(files) && old(DirExists(Dirname(dst))) && dst !in old(dirs)
      ensures r.Ok? ==> files == old(files)[dst := old(files)[src]]
      ensures r.Err? ==> files == old(files)
      ensures dirs == old(dirs)
      ensures old(Valid()) ==> Valid()
    {
      if src !in files {
        r := Err(FsError(if src in dirs then EISDIR else MissingCode(src), src));
      } else if !DirExists(Dirname(dst)) {
        r := Err(FsError(MissingCode(dst), dst));
      } else if dst in dirs {
        r := Err(FsError(EISDIR, dst));
      } else {
        files := files[dst := files[src]];
        r := Ok(());
      }
    }

    /** `mkdir` (not recursive): fails with `EEXIST` when anything is at the path, `ENOENT` (`ENOTDIR` when it is a file) without a parent. */
    method Mkdir(path: string) returns (r: Result<string, FsError>)
      modifies this
      ensures path in old(dirs) || path in old(files) ==> r == Err(FsError(EEXIST, path)) && dirs == old(dirs)
      ensures path !in old(dirs) && path !in old(files) && !old(DirExists(Dirname(path))) ==>
        r == Err(FsError(old(MissingCode(path)), path)) && dirs == old(dirs)
      ensures path !in old(dirs) && path !in old(files) && old(DirExists(Dirname(path))) ==>
        r == Ok(path) && dirs == old(dirs) + {path}
      ensures files == old(files)
      ensures old(Valid()) ==> Valid()
    {
      if path in dirs || path in files {
        r := Err(FsError(EEXIST, path));
      } else if !DirExists(Dirname(path)) {
        r := Err(FsError(MissingCode(path), path));
      } else {
        dirs := dirs + {path};
        r := Ok(path);
      }
    }

    /**
     * `fs.createWriteStream(path, {flags: 'w'})` followed by writing: the file holds `content`.
     * The stream opens only in an existing folder and not over a directory.
     */
    method WriteFile(path: string, content: seq<bv8>)
      requires DirExists(Dirname(path)) && path !in dirs
      modifies this
      ensures files == old(files)[path := content] && dirs == old(dirs)
      ensures old(Valid()) ==> Valid()
    {
      files := files[path := content];
    }
  }
}
