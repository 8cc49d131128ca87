/** The filesystem the engine works on: regular files with their contents
    and directories, keyed by path, and the FileUtils and File calls it
    makes on them. `Disk` is the one mutable filesystem shared by an object
    and the builders that write into it. */
module FileSystem {
  import opened Wrappers
  import opened Errors
  import opened Strings
  import opened JsonValues

  datatype Fs = Fs(files: map<string, string>, dirs: set<string>)

  /** The outside world the engine calls into: `JSON.parse` (None where it
      raises JSON::ParserError) and a digest of some file contents under a
      named algorithm. */
  datatype Env = Env(parse: string -> Option<Json>, digest: (string, string) -> string)

  /** `File.exist?(p)`: for a file or a directory. */
  predicate Exists(fs: Fs, p: string) {
    p in fs.files || p in fs.dirs
  }

  /** `File.directory?(p)` */
  predicate IsDirectory(fs: Fs, p: string) {
    p in fs.dirs
  }

  /** `File.read(p)` */
  function Read(fs: Fs, p: string): (r: Attempt<string>)
    ensures r.Success? <==> p in fs.files
    ensures r.Success? ==> r.value == fs.files[p]
  {
    if p in fs.files then Success(fs.files[p])
    else if p in fs.dirs then Failure(IsADirectory(p))
    else Failure(NoSuchFile(p))
  }

  /** Where `FileUtils.cp`/`mv` put `src`: into `dst` when that is a
      directory, else at `dst`. */
  function Target(fs: Fs, src: string, dst: string): string {
    if IsDirectory(fs, dst) then dst + "/" + Basename(src) else dst
  }

  /** The `ArgumentError` FileUtils raises when source and target are one file. */
  function SameFile(src: string, t: string): Error {
    ArgumentError("same file: " + src + " and " + t)
  }

  /** `FileUtils.cp(src, dst)` for a regular file `src`. It raises when the
      target is the source itself or a directory; otherwise the target
      holds the source's content, the source stays, and no other file and
      no directory changes. */
  function Copy(fs: Fs, src: string, dst: string): (r: Attempt<Fs>)
    ensures r.Success? <==>
      src in fs.files && Target(fs, src, dst) != src && Target(fs, src, dst) !in fs.dirs
    ensures Exists(fs, src) && Target(fs, src, dst) == src ==> r == Failure(SameFile(src, src))
    ensures src in fs.files && Target(fs, src, dst) != src && Target(fs, src, dst) in fs.dirs ==>
      r == Failure(IsADirectory(Target(fs, src, dst)))
    ensures r.Success? ==> var t := Target(fs, src, dst);
      && t in r.value.files && r.value.files[t] == fs.files[src]
      && src in r.value.files
      && (forall q :: q != t ==> (q in r.value.files <==> q in fs.files))
      && (forall q :: q != t && q in fs.files ==> r.value.files[q] == fs.files[q])
      && r.value.dirs == fs.dirs
  {
    var t := Target(fs, src, dst);
    if Exists(fs, src) && t == src then Failure(SameFile(src, t))
    else if src !in fs.files then (if src in fs.dirs then Failure(IsADirectory(src)) else Failure(NoSuchFile(src)))
    else if t in fs.dirs then Failure(IsADirectory(t))
    else Success(fs.(files := fs.files[t := fs.files[src]]))
  }

  /** `FileUtils.mv(src, dst)` for a regular file `src`. It raises when the
      target is the source itself or a directory; otherwise the target
      holds the source's content, the source is gone, and no other file
      and no directory changes. */
  function Move(fs: Fs, src: string, dst: string): (r: Attempt<Fs>)
    ensures r.Success? <==>
      src in fs.files && Target(fs, src, dst) != src && Target(fs, src, dst) !in fs.dirs
    ensures Exists(fs, src) && Target(fs, src, dst) == src ==> r == Failure(SameFile(src, src))
    ensures Target(fs, src, dst) != src && Target(fs, src, dst) in fs.dirs ==>
      r == Failure(FileExists(Target(fs, src, dst)))
    ensures r.Success? ==> var t := Target(fs, src, dst);
      && t in r.value.files && r.value.files[t] == fs.files[src]
      && src !in r.value.files
      && (forall q :: q != t && q != src ==> (q in r.value.files <==> q in fs.files))
      && (forall q :: q != t && q != src && q in fs.files ==> r.value.files[q] == fs.files[q])
      && r.value.dirs == fs.dirs
  {
    var t := Target(fs, src, dst);
    if Exists(fs, src) && t == src then Failure(SameFile(src, t))
    else if t in fs.dirs then Failure(FileExists(t))
    else if src in fs.files then Success(fs.(files := (fs.files - {src})[t := fs.files[src]]))
    else if src in fs.dirs then Failure(IsADirectory(src))
    else Failure(NoSuchFile(src))
  }

  /** `FileUtils.mkdir(p)`: refuses a path that exists; otherwise `p` is a
      directory afterwards and nothing else changes. */
  function MkDir(fs: Fs, p: string): (r: Attempt<Fs>)
    ensures r.Success? <==> !Exists(fs, p)
    ensures r.Success? ==>
      && IsDirectory(r.value, p)
      && r.value.files == fs.files
      && (forall q :: q != p ==> (q in r.value.dirs <==> q in fs.dirs))
  {
    if Exists(fs, p) then Failure(FileExists(p)) else Success(fs.(dirs := fs.dirs + {p}))
  }

  /** `FileUtils.mkdir_p(p)`: refuses only a regular file in the way;
      otherwise `p` is a directory afterwards, nothing else changes, and an
      existing directory is left as it is. */
  function MkDirP(fs: Fs, p: string): (r: Attempt<Fs>)
    ensures r.Success? <==> p !in fs.files
    ensures r.Success? ==>
      && IsDirectory(r.value, p)
      && r.value.files == fs.files
      && (forall q :: q != p ==> (q in r.value.dirs <==> q in fs.dirs))
    ensures IsDirectory(fs, p) && p !in fs.files ==> r == Success(fs)
  {
    if p in fs.files then Failure(FileExists(p))
    else
      assert p in fs.dirs ==> fs.dirs + {p} == fs.dirs;
      Success(fs.(dirs := fs.dirs + {p}))
  }

  /** A path at or below `p`. */
  predicate Within(q: string, p: string) {
    q == p || StartsWith(q, p + "/")
  }

  /** `FileUtils.rm_rf(p)`: removes `p` and everything below it; never raises. */
  function RmRf(fs: Fs, p: string): (r: Fs)
    ensures forall q :: q in r.files <==> q in fs.files && !Within(q, p)
    ensures forall q :: q in r.files ==> r.files[q] == fs.files[q]
    ensures forall q :: q in r.dirs <==> q in fs.dirs && !Within(q, p)
  {
    Fs(map q | q in fs.files && !Within(q, p) :: fs.files[q], set q | q in fs.dirs && !Within(q, p))
  }

  /** `FileUtils.touch(p)`: creates an empty file where nothing is. */
  function Touch(fs: Fs, p: string): (r: Fs)
    ensures Exists(r, p)
    ensures Exists(fs, p) ==> r == fs
  {
    if Exists(fs, p) then fs else fs.(files := fs.files[p := ""])
  }

  /** `File.unlink(p)`: succeeds on a file only, which is gone afterwards;
      no other file and no directory changes. */
  function Unlink(fs: Fs, p: string): (r: Attempt<Fs>)
    ensures r.Success? <==> p in fs.files
    ensures r.Success? ==>
      && p !in r.value.files
      && (forall q :: q != p ==> (q in r.value.files <==> q in fs.files))
      && (forall q :: q != p && q in fs.files ==> r.value.files[q] == fs.files[q])
      && r.value.dirs == fs.dirs
  {
    if p in fs.files then Success(fs.(files := fs.files - {p}))
    else if p in fs.dirs then Failure(IsADirectory(p))
    else Failure(NoSuchFile(p))
  }

  /** `mv` succeeds exactly where `cp` does, and is then `cp` followed by
      unlinking the source. */
  lemma MoveIsCopyThenUnlink(fs: Fs, src: string, dst: string)
    ensures Move(fs, src, dst).Success? <==> Copy(fs, src, dst).Success?
    ensures Copy(fs, src, dst).Success? ==> Move(fs, src, dst) == Unlink(Copy(fs, src, dst).value, src)
  {
    if !Copy(fs, src, dst).Success? { return; }
    var t := Target(fs, src, dst);
    var c := Copy(fs, src, dst).value;
    var u := Unlink(c, src).value;
    var m := Move(fs, src, dst).value;
    assert m.files == u.files by {
      forall q ensures (q in m.files <==> q in u.files) && (q in m.files ==> m.files[q] == u.files[q]) {
        if q == t { } else if q == src { } else { }
      }
    }
  }

  /** Unlinking a fresh copy gives back the filesystem before the copy. */
  lemma UnlinkUndoesCopy(fs: Fs, src: string, dst: string)
    requires Copy(fs, src, dst).Success? && Target(fs, src, dst) !in fs.files
    ensures Unlink(Copy(fs, src, dst).value, Target(fs, src, dst)) == Success(fs)
  {
    var t := Target(fs, src, dst);
    var u := Unlink(Copy(fs, src, dst).value, t).value;
    assert u.files == fs.files by {
      forall q ensures (q in u.files <==> q in fs.files) && (q in u.files ==> u.files[q] == fs.files[q]) {
      }
    }
  }

  /** The filesystem of a running program. */
  class Disk {
    var fs: Fs

    constructor (fs: Fs)
      ensures this.fs == fs
    {
      this.fs := fs;
    }
  }
}
