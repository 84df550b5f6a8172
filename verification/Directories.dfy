/** Which directories exist after files were stored and directories made, said by the paths alone. */
module Directories {
  import opened Outcomes
  import opened Text
  import opened Paths
  import opened MemoryFs
  import opened Templates
  import opened Rendering
  import opened RenderingRuns

  /** A plain path other than "." is its components with slashes between them. */
  lemma PlainIsJoined(p: string)
    requires Plain(p) && CleanStack(p) != []
    ensures p == Join(CleanStack(p), "/") && Normal(false, CleanStack(p))
  {
    hide CleanStack, Join;
    CleanIsNormal(p);
  }

  /** The prefixes of a resolved path are plain, and they are the path and its ancestors. */
  lemma PrefixIsPlain(stack: seq<string>, n: nat)
    requires Normal(false, stack) && 1 <= n <= |stack|
    ensures Plain(Join(stack[..n], "/")) && CleanStack(Join(stack[..n], "/")) == stack[..n]
  {
    hide CleanStack, Join;
    AssembledComponents(false, stack[..n]);
  }

  /** The marks for a path's components are the path itself and its ancestors, as plain paths. */
  lemma PrefixesExactly(p: string, q: string)
    requires Normal(false, CleanStack(p))
    ensures q in DirsMade(p) <==>
            && Plain(q) && CleanStack(q) != [] && |CleanStack(q)| <= |CleanStack(p)|
            && CleanStack(q) == CleanStack(p)[..|CleanStack(q)|]
  {
    hide CleanStack, Join, Normal, Plain;
    var stack := CleanStack(p);
    if q in DirsMade(p) {
      var n :| 1 <= n <= |stack| && q == Join(stack[..n], "/");
      PrefixIsPlain(stack, n);
    }
    if Plain(q) && CleanStack(q) != [] && |CleanStack(q)| <= |stack| && CleanStack(q) == stack[..|CleanStack(q)|] {
      PlainIsJoined(q);
    }
  }

  /** Making a plain path makes it and all its ancestors, and nothing else; "." is never made. */
  lemma MkdirAllExactly(fs: Fs, p: string, q: string)
    requires Plain(p)
    ensures q in Made(fs, p).dirs <==> q in fs.dirs || (Plain(q) && CleanStack(q) != [] && (q == p || Ancestor(q, p)))
    ensures Made(fs, p).files == fs.files
  {
    hide CleanStack, Join, DirsMade;
    CleanIsNormal(p);
    PrefixesExactly(p, q);
    SameStackSamePath(p, q);
  }

  /** An absolute path makes the directories of the same path without its leading slash. */
  lemma LeadingSlashIsLost(fs: Fs, p: string)
    requires Plain(p) && Normal(true, CleanStack(p))
    ensures Made(fs, "/" + p) == Made(fs, p)
  {
    hide CleanStack, Join;
    if CleanStack(p) == [] {
      DotIsPlain(p);
      SlashDot();
      assert "/" + p == "/.";
    } else {
      PlainIsJoined(p);
      AssembledComponents(true, CleanStack(p));
    }
  }

  lemma SlashDot()
    ensures CleanStack("/.") == [] && CleanStack(".") == []
  {
    JoinedPieces(["", "."]);
    JoinOne(".");
    JoinConcat([""], ["."], "/");
    JoinOne("");
    assert [""] + ["."] == ["", "."] && "" + "/" + "." == "/.";
    RootAndDot();
    assert "/."[..1] == "/";
    assert IsAbs("/.");
    ResolveConcat(true, [], [""], ["."]);
  }

  lemma SameStackSamePath(p: string, q: string)
    requires Plain(p)
    ensures Plain(q) && |CleanStack(q)| == |CleanStack(p)| && CleanStack(q) == CleanStack(p)[..|CleanStack(q)|] ==>
        q == p
  {
    hide CleanStack;
    assert CleanStack(p)[..|CleanStack(p)|] == CleanStack(p);
  }

  /** Writing a file marks its parent, unless that is "." or "/", and no other directory. */
  lemma WritingMarksParent(fs: Fs, path: string, data: string, q: string)
    ensures var parent := Dir(Clean(path));
            q in Written(fs, path, data).dirs <==> q in fs.dirs || (q == parent && parent != "." && parent != "/")
    ensures Written(fs, path, data).files == fs.files[Clean(path) := data]
  {
    hide Clean, Dir;
  }

  lemma ParentStack(p: string)
    requires Plain(p) && CleanStack(p) != []
    ensures var front := CleanStack(p)[..|CleanStack(p)| - 1];
            Normal(false, front) && CleanStack(Dir(p)) == front && Dir(p) == if front == [] then "."
                else Join(front, "/")
  {
    hide CleanStack, Join, UpToSlash;
    CleanIsNormal(p);
    DirDropsLast(CleanStack(p));
  }

  lemma DotHasNoParent()
    ensures Dir(".") == "." && DirsMade(".") == {}
  {
    UpToLastSlash("", ".");
    assert "" + "." == ".";
    EmptyCleansToDot();
    RootAndDot();
  }

  lemma DotIsPlain(p: string)
    requires Plain(p) && CleanStack(p) == []
    ensures p == "."
  {
  }

  /** Storing a file at a plain path makes exactly its ancestors. */
  lemma StoringMakesAncestors(fs: Fs, p: string, content: string, q: string)
    requires Plain(p)
    ensures q in Stored(fs, p, content).dirs <==> q in fs.dirs || (Plain(q) && Ancestor(q, p))
  {
    hide CleanStack, Join, DirsMade, Dir;
    if CleanStack(p) == [] {
      DotIsPlain(p);
      DotHasNoParent();
    } else {
      var front := CleanStack(p)[..|CleanStack(p)| - 1];
      ParentStack(p);
      PrefixesExactly(Dir(p), q);
      if front != [] {
        PrefixesExactly(Dir(p), Dir(p));
        PrefixIsPlain(front, |front|);
        assert front[..|front|] == front;
      }
      assert |CleanStack(q)| <= |front| ==> CleanStack(p)[..|CleanStack(q)|] == front[..|CleanStack(q)|];
    }
  }

  /** What storing adds, exactly: the path itself and its ancestors. */
  lemma NewNamesExactly(p: string, q: string)
    requires Plain(p) && Plain(q)
    ensures q in NewNames(p) <==> q == p || Ancestor(q, p)
  {
    hide CleanStack, Join, DirsMade, Dir, ParentMarked, Ancestor;
    StoringMakesAncestors(Fs(map[], {}), p, "", q);
  }

  /** A file that was not there before. */
  predicate NewFile(before: Fs, after: Fs, p: string) {
    p in after.files && p !in before.files
  }

  /** The directories after are those before and the ancestors of the new files. */
  ghost predicate AncestorsAdded(before: Fs, after: Fs) {
    forall q :: q in after.dirs <==>
        q in before.dirs || (Plain(q) && exists p :: NewFile(before, after, p) && Ancestor(q, p))
  }

  lemma AncestorsAddedCompose(a: Fs, b: Fs, c: Fs)
    requires Extends(a, b) && Extends(b, c) && AncestorsAdded(a, b) && AncestorsAdded(b, c)
    ensures AncestorsAdded(a, c)
  {
    hide Plain, Ancestor;
    forall q
      ensures q in c.dirs <==> q in a.dirs || (Plain(q) && exists p :: NewFile(a, c, p) && Ancestor(q, p))
    {
      if Plain(q) && exists p :: NewFile(a, c, p) && Ancestor(q, p) {
        var p :| NewFile(a, c, p) && Ancestor(q, p);
        assert NewFile(a, b, p) || NewFile(b, c, p);
      }
      if q in c.dirs && q !in b.dirs {
        var p :| NewFile(b, c, p) && Ancestor(q, p);
        assert NewFile(a, c, p);
      }
      if q in b.dirs && q !in a.dirs {
        var p :| NewFile(a, b, p) && Ancestor(q, p);
        assert NewFile(a, c, p);
      }
    }
  }

  lemma StoringAddsAncestors(fs: Fs, p: string, content: string)
    requires Plain(p) && p !in fs.files
    ensures AncestorsAdded(fs, Stored(fs, p, content))
  {
    hide Plain, Ancestor, DirsMade, Dir, ParentMarked, Clean;
    assert Clean(p) == p by { PlainIsClean(p); }
    forall q
      ensures q in Stored(fs, p, content).dirs <==>
              q in fs.dirs || (Plain(q) && exists n :: NewFile(fs, Stored(fs, p, content), n) && Ancestor(q, n))
    {
      StoringMakesAncestors(fs, p, content, q);
      assert forall n :: NewFile(fs, Stored(fs, p, content), n) <==> n == p;
    }
  }

  lemma PlainIsClean(p: string)
    requires Plain(p)
    ensures Clean(p) == p
  {
  }

  lemma NothingAdded(fs: Fs)
    ensures Extends(fs, fs) && AncestorsAdded(fs, fs)
  {
    assert forall p :: !NewFile(fs, fs, p);
  }

  lemma {:induction false} RunAddsAncestorsFrom(job: Job, i: nat, fs: Fs, stats: Stats)
    requires job.Valid() && i <= |job.recipe.files| && !job.options.overwrite
    requires forall j | 0 <= j < |job.recipe.files| :: Plain(job.recipe.files[j].path)
    ensures AncestorsAdded(fs, RenderFrom(job, i, fs, stats).fs)
    decreases |job.recipe.files| - i
  {
    hide RenderEntry, Plain, AncestorsAdded;
    if i == |job.recipe.files| {
      NothingAdded(fs);
    } else {
      EntryAddsAncestors(job, i, fs, stats);
      EntryKeeps(job, i, fs, stats);
      match RenderEntry(job, i, fs, stats)
      case Stop(_) =>
      case Continue(fs', stats') =>
        RunAddsAncestorsFrom(job, i + 1, fs', stats');
        RunKeeps(job, i + 1, fs', stats');
        AncestorsAddedCompose(fs, fs', RenderFrom(job, i + 1, fs', stats').fs);
    }
  }

  lemma EntryAddsAncestors(job: Job, i: nat, fs: Fs, stats: Stats)
    requires job.Valid() && i < |job.recipe.files| && !job.options.overwrite && Plain(job.recipe.files[i].path)
    ensures AncestorsAdded(fs, RenderEntry(job, i, fs, stats).Result().fs)
  {
    hide Dir, Stored, Job.Attempt, AncestorsAdded, Clean, Plain;
    NothingAdded(fs);
    var path := job.recipe.files[i].path;
    PlainIsClean(path);
    if path !in fs.files && job.Attempt(i).Ok? {
      StoringAddsAncestors(fs, path, job.Attempt(i).value);
    }
  }

  /** A run that must not overwrite, of relative cleaned paths: however it ends, the directories are those before and
      exactly the ancestors of the files it added. */
  lemma RunAddsAncestorsExactly(job: Job, fs: Fs, q: string)
    requires job.Valid() && !job.options.overwrite
    requires forall j | 0 <= j < |job.recipe.files| :: Plain(job.recipe.files[j].path)
    ensures var after := Render(job, fs).fs;
            q in after.dirs <==> q in fs.dirs || (Plain(q) && exists p :: NewFile(fs, after, p) && Ancestor(q, p))
  {
    hide RenderFrom, Plain, Ancestor;
    RunAddsAncestorsFrom(job, 0, fs, Start(job));
  }
}
