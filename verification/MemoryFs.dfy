/** The in-memory file system: files and directories keyed by cleaned path. It never replaces a file. */
module MemoryFs {
  import opened Outcomes
  import opened Text
  import opened Paths

  /** The contents of a file system. */
  datatype Fs = Fs(files: map<string, string>, dirs: set<string>) {
    predicate Has(path: string) {
      Clean(path) in files || Clean(path) in dirs
    }
  }

  datatype FileInfo = FileInfo(size: nat, isDir: bool)

  /** The paths `MkdirAll` marks for the components `stack`: one for every non-empty prefix, without a leading slash. */
  function Prefixes(stack: seq<string>): set<string> {
    PrefixesUpTo(stack, |stack|)
  }

  function PrefixesUpTo(stack: seq<string>, k: int): set<string>
    requires k <= |stack|
  {
    set n | 1 <= n <= k :: Join(stack[..n], "/")
  }

  lemma PrefixesGrow(stack: seq<string>, k: nat)
    requires k < |stack|
    ensures PrefixesUpTo(stack, k + 1) == PrefixesUpTo(stack, k) + {Join(stack[..k + 1], "/")}
  {
    hide Join;
  }

  function DirsMade(path: string): set<string> {
    Prefixes(CleanStack(path))
  }

  /** The one directory that writing a file marks. */
  function ParentMarked(path: string): set<string> {
    var dir := Dir(Clean(path));
    if dir == "." || dir == "/" then {} else {dir}
  }

  function Made(fs: Fs, path: string): Fs {
    fs.(dirs := fs.dirs + DirsMade(path))
  }

  function Written(fs: Fs, path: string, data: string): Fs {
    Fs(fs.files[Clean(path) := data], fs.dirs + ParentMarked(path))
  }

  /** Extending a prefix of a resolved path by its next component is joining with a slash. */
  lemma JoinNext(stack: seq<string>, n: nat)
    requires Normal(false, stack) && n < |stack|
    ensures Join(stack[..n + 1], "/") == if n == 0 then stack[0] else JoinPath(Join(stack[..n], "/"), stack[n])
    ensures n > 0 ==> Join(stack[..n], "/") != ""
  {
    hide CleanStack, Join;
    var next := stack[..n + 1];
    assert next == stack[..n] + [stack[n]];
    JoinOne(stack[n]);
    if n == 0 {
      assert next == [stack[0]];
    } else {
      JoinConcat(stack[..n], [stack[n]], "/");
      JoinStarts(stack[..n]);
      AssembledComponents(false, next);
    }
  }

  lemma RootedIsNormal(stack: seq<string>)
    requires Normal(true, stack)
    ensures Normal(false, stack)
  {
  }

  /** The non-empty pieces of a cleaned path are its resolved components. */
  lemma CleanedPieces(path: string) returns (skip: nat)
    requires Clean(path) != "." && Clean(path) != "/"
    ensures skip == (if IsAbs(path) then 1 else 0) && CleanStack(path) != []
    ensures Normal(false, CleanStack(path))
    ensures Components(Clean(path)) == (if IsAbs(path) then [""] else []) + CleanStack(path)
  {
    hide CleanStack, Components;
    skip := if IsAbs(path) then 1 else 0;
    CleanIsNormal(path);
    RootAndDot();
    AssembledComponents(IsAbs(path), CleanStack(path));
    assert [] + CleanStack(path) == CleanStack(path);
    if IsAbs(path) {
      RootedIsNormal(CleanStack(path));
    }
  }

  class MemoryFileSystem {
    var files: map<string, string>
    var dirs: set<string>

    function Contents(): Fs
      reads this
    {
      Fs(files, dirs)
    }

    constructor ()
      ensures Contents() == Fs(map[], {})
    {
      files, dirs := map[], {};
    }

    method ReadFile(path: string) returns (data: Option<string>)
      ensures data == if Clean(path) in files then Some(files[Clean(path)]) else None
    {
      var cleanPath := Clean(path);
      if cleanPath !in files {
        return None;
      }
      data := Some(files[cleanPath]);
    }

    method WriteFile(path: string, data: string) returns (ok: bool)
      modifies this
      ensures ok <==> Clean(path) !in old(files)
      ensures Contents() == if ok then Written(old(Contents()), path, data) else old(Contents())
    {
      hide Clean, Dir;
      var cleanPath := Clean(path);
      if cleanPath in files {
        return false;
      }
      var dir := Dir(cleanPath);
      if dir != "." && dir != "/" {
        dirs := dirs + {dir};
      }
      files := files[cleanPath := data];
      ok := true;
    }

    /** A name that is both a file and a directory is reported as a file. */
    method Stat(path: string) returns (info: Option<FileInfo>)
      ensures info.Some? <==> Contents().Has(path)
      ensures info.Some? ==> info.value.isDir == (Clean(path) !in files) &&
                             info.value.size == if Clean(path) in files then |files[Clean(path)]| else 0
    {
      var cleanPath := Clean(path);
      if cleanPath in files {
        return Some(FileInfo(|files[cleanPath]|, false));
      }
      if cleanPath in dirs {
        return Some(FileInfo(0, true));
      }
      info := None;
    }

    method MkdirAll(path: string)
      modifies this`dirs
      ensures Contents() == Made(old(Contents()), path)
    {
      hide CleanStack, Components, JoinPath, Clean, Normal, Join, PrefixesUpTo;
      var cleanPath := Clean(path);
      if cleanPath == "." || cleanPath == "/" {
        RootOrDotMakesNothing(path);
        return;
      }
      ghost var stack := CleanStack(path);
      ghost var skip := CleanedPieces(path);
      var parts := Components(cleanPath);
      var currentPath := "";
      var i := 0;
      assert dirs == dirs + PrefixesUpTo(stack, i - skip) by { NoPrefixesYet(stack, i - skip); }
      while i < |parts|
        invariant 0 <= i <= |parts|
        invariant currentPath == if i <= skip then "" else Join(stack[..i - skip], "/")
        invariant files == old(files)
        invariant dirs == old(dirs) + PrefixesUpTo(stack, i - skip)
      {
        var part := parts[i];
        if part == "" {
          assert i < skip by { PartIsNotEmpty(stack, i - skip); }
          NoPrefixesYet(stack, i - skip);
          i := i + 1;
          continue;
        }
        ghost var n := i - skip;
        JoinNext(stack, n);
        PrefixesGrow(stack, n);
        if currentPath == "" {
          currentPath := part;
        } else {
          currentPath := JoinPath(currentPath, part);
        }
        dirs := dirs + {currentPath};
        i := i + 1;
      }
    }

    method Exists(path: string) returns (found: bool)
      ensures found <==> Contents().Has(path)
    {
      var cleanPath := Clean(path);
      if cleanPath in files {
        return true;
      }
      found := cleanPath in dirs;
    }

    method IsDir(path: string) returns (found: bool)
      ensures found <==> Clean(path) in dirs
    {
      found := Clean(path) in dirs;
    }

    /** Removing forgets one key; what lies below it stays. */
    method Remove(path: string)
      modifies this
      ensures Contents() == Fs(old(files) - {Clean(path)}, old(dirs) - {Clean(path)})
    {
      var cleanPath := Clean(path);
      files := files - {cleanPath};
      dirs := dirs - {cleanPath};
    }
  }

  lemma RootOrDotMakesNothing(path: string)
    requires Clean(path) == "." || Clean(path) == "/"
    ensures DirsMade(path) == {}
  {
    CleanIdempotent(path);
    RootAndDot();
  }

  lemma NoPrefixesYet(stack: seq<string>, k: int)
    ensures k <= 0 ==> k <= |stack| && PrefixesUpTo(stack, k) == {}
    ensures k == -1 ==> PrefixesUpTo(stack, 0) == {}
  {
  }

  lemma PartIsNotEmpty(stack: seq<string>, n: int)
    requires Normal(false, stack)
    ensures 0 <= n < |stack| ==> stack[n] != ""
  {
  }
}
