/** How two runs of the same recipe compare: dry against real, first against second, overwriting against not. */
module RenderingRuns {
  import opened Outcomes
  import opened Text
  import opened Paths
  import opened MemoryFs
  import opened Templates
  import opened Rendering

  /** The same job as a dry run. */
  function DryOf(job: Job): Job {
    job.(options := job.options.(dry := true))
  }

  predicate NeverCancelled(job: Job) {
    job.ctx.cancelledFrom == None
  }

  /** The keys a file system gains when a file is stored at `path`. */
  function NewNames(path: string): set<string> {
    {Clean(path)} + DirsMade(Dir(path)) + ParentMarked(path)
  }

  lemma StoredHas(fs: Fs, path: string, content: string, q: string)
    ensures Stored(fs, path, content).Has(q) <==> fs.Has(q) || Clean(q) in NewNames(path)
  {
    hide Clean, Dir, DirsMade, ParentMarked;
  }

  /** Storing entry `a` makes the path of the later entry `b` exist, though neither existed at first. */
  predicate Clash(job: Job, fs: Fs, a: nat, b: nat)
    requires a < |job.recipe.files| && b < |job.recipe.files|
  {
    a < b && !fs.Has(job.recipe.files[a].path) && !fs.Has(job.recipe.files[b].path) &&
        job.Key(b) in NewNames(job.recipe.files[a].path)
  }

  predicate NoClashFrom(job: Job, fs: Fs, i: nat) {
    forall a, b | i <= a < b < |job.recipe.files| :: !Clash(job, fs, a, b)
  }

  /** For the entries from `i` on, the real run sees exactly the paths the dry run sees. */
  predicate SameView(job: Job, seen: Fs, fs: Fs, i: nat) {
    forall j | i <= j < |job.recipe.files| :: fs.Has(job.recipe.files[j].path) <==> seen.Has(job.recipe.files[j].path)
  }

  predicate Comparable(job: Job) {
    job.Valid() && !job.options.dry && !job.options.overwrite && NeverCancelled(job)
  }

  lemma ViewAfterStoring(job: Job, seen: Fs, fs: Fs, i: nat, content: string)
    requires i < |job.recipe.files| && SameView(job, seen, fs, i) && NoClashFrom(job, seen, i)
    requires !fs.Has(job.recipe.files[i].path)
    ensures SameView(job, seen, Stored(fs, job.recipe.files[i].path, content), i + 1)
  {
    hide Fs.Has, NewNames, Stored;
    forall j | i + 1 <= j < |job.recipe.files|
      ensures Stored(fs, job.recipe.files[i].path, content).Has(job.recipe.files[j].path) <==>
          seen.Has(job.recipe.files[j].path)
    {
      StoredHas(fs, job.recipe.files[i].path, content, job.recipe.files[j].path);
      assert !Clash(job, seen, i, j);
    }
  }

  /** Without a clash ahead and with the same view, the two runs stay in step until the real one fails. */
  lemma {:induction false} RunsAgree(job: Job, i: nat, seen: Fs, fs: Fs, stats: Stats)
    requires Comparable(job) && i <= |job.recipe.files| && SameView(job, seen, fs, i) && NoClashFrom(job, seen, i)
    ensures var actual, dry := RenderFrom(job, i, fs, stats), RenderFrom(DryOf(job), i, seen, stats);
            && (actual.error != None <==> dry.stats.failed > stats.failed)
            && (actual.error == None ==> actual.stats == dry.stats)
    decreases |job.recipe.files| - i
  {
    hide Fs.Has, NewNames, Stored, Clash, NoClashFrom, SameView, Job.Attempt, Clean, Dir;
    if i < |job.recipe.files| {
      var path := job.recipe.files[i].path;
      assert DryOf(job).Attempt(i) == job.Attempt(i) by { AttemptIgnoresDry(job, i); }
      NarrowView(job, seen, fs, i);
      if fs.Has(path) {
        RunsAgree(job, i + 1, seen, fs, stats.(skipped := stats.skipped + 1));
      } else {
        HasFile(fs, path);
        match job.Attempt(i)
        case Err(e) =>
          RunKeeps(DryOf(job), i + 1, seen, stats.(failed := stats.failed + 1));
        case Ok(content) =>
          ViewAfterStoring(job, seen, fs, i, content);
          RunsAgree(job, i + 1, seen, Stored(fs, path, content), stats.(generated := stats.generated + 1));
      }
    }
  }

  lemma AttemptIgnoresDry(job: Job, i: nat)
    requires job.Valid() && i < |job.recipe.files|
    ensures DryOf(job).Attempt(i) == job.Attempt(i)
  {
  }

  lemma NarrowView(job: Job, seen: Fs, fs: Fs, i: nat)
    requires i < |job.recipe.files| && SameView(job, seen, fs, i) && NoClashFrom(job, seen, i)
    ensures SameView(job, seen, fs, i + 1) && NoClashFrom(job, seen, i + 1)
    ensures fs.Has(job.recipe.files[i].path) <==> seen.Has(job.recipe.files[i].path)
  {
    hide Fs.Has, Clash;
  }

  lemma HasFile(fs: Fs, path: string)
    ensures Clean(path) in fs.files ==> fs.Has(path)
  {
  }

  /** A later entry exists for the real run only, now or after a clash. */
  ghost predicate Blocked(job: Job, seen: Fs, fs: Fs, i: nat) {
    || (exists j | i <= j < |job.recipe.files| ::
        fs.Has(job.recipe.files[j].path) && !seen.Has(job.recipe.files[j].path))
    || !NoClashFrom(job, seen, i)
  }

  predicate HasAll(seen: Fs, fs: Fs) {
    seen.files.Keys <= fs.files.Keys + fs.dirs && seen.dirs <= fs.files.Keys + fs.dirs
  }

  /** Where the dry run fails nowhere, the real run skips at least as much, and more when an entry is blocked. */
  lemma {:induction false} RealSkipsMore(job: Job, i: nat, seen: Fs, fs: Fs, rs: Stats, ds: Stats)
    requires Comparable(job) && i <= |job.recipe.files| && HasAll(seen, fs)
    requires RenderFrom(DryOf(job), i, seen, ds).stats.failed == ds.failed
    ensures var actual, dry := RenderFrom(job, i, fs, rs), RenderFrom(DryOf(job), i, seen, ds);
            && actual.error == None
            && actual.stats.skipped - rs.skipped >= dry.stats.skipped - ds.skipped
            && (Blocked(job, seen, fs, i) ==> actual.stats.skipped - rs.skipped > dry.stats.skipped - ds.skipped)
    decreases |job.recipe.files| - i
  {
    hide Fs.Has, NewNames, Stored, Clash, NoClashFrom, Blocked, HasAll, Job.Attempt, Clean, Dir;
    if i == |job.recipe.files| {
      NothingBlockedAtEnd(job, seen, fs);
    } else {
      var path := job.recipe.files[i].path;
      AttemptIgnoresDry(job, i);
      AllMeansHas(seen, fs, path);
      if seen.Has(path) {
        BlockedByPresent(job, seen, fs, i);
        RealSkipsMore(job, i + 1, seen, fs, rs.(skipped := rs.skipped + 1), ds.(skipped := ds.skipped + 1));
      } else {
        match job.Attempt(i)
        case Err(e) =>
          RunKeeps(DryOf(job), i + 1, seen, ds.(failed := ds.failed + 1));
          assert false;
        case Ok(content) =>
          var ds' := ds.(generated := ds.generated + 1);
          if fs.Has(path) {
            RealSkipsMore(job, i + 1, seen, fs, rs.(skipped := rs.skipped + 1), ds');
          } else {
            HasFile(fs, path);
            BlockedByStoring(job, seen, fs, i, content);
            RealSkipsMore(job, i + 1, seen, Stored(fs, path, content), rs.(generated := rs.generated + 1), ds');
          }
      }
    }
  }

  lemma NothingBlockedAtEnd(job: Job, seen: Fs, fs: Fs)
    ensures !Blocked(job, seen, fs, |job.recipe.files|)
  {
  }

  lemma AllMeansHas(seen: Fs, fs: Fs, path: string)
    requires HasAll(seen, fs)
    ensures seen.Has(path) ==> fs.Has(path)
  {
  }

  /** An entry that existed from the start blocks nothing. */
  lemma BlockedByPresent(job: Job, seen: Fs, fs: Fs, i: nat)
    requires i < |job.recipe.files| && seen.Has(job.recipe.files[i].path)
    ensures Blocked(job, seen, fs, i) ==> Blocked(job, seen, fs, i + 1)
  {
    if !NoClashFrom(job, seen, i) {
      var a, b :| i <= a < b < |job.recipe.files| && Clash(job, seen, a, b);
      assert a != i;
    }
  }

  /** Storing entry `i` makes a blocked entry out of every entry it clashes with. */
  lemma BlockedByStoring(job: Job, seen: Fs, fs: Fs, i: nat, content: string)
    requires i < |job.recipe.files| && HasAll(seen, fs) && !fs.Has(job.recipe.files[i].path)
    ensures var fs' := Stored(fs, job.recipe.files[i].path, content);
            HasAll(seen, fs') && (Blocked(job, seen, fs, i) ==> Blocked(job, seen, fs', i + 1))
  {
    hide NewNames, Clean, Dir, DirsMade, ParentMarked;
    var path := job.recipe.files[i].path;
    var fs' := Stored(fs, path, content);
    if j :| i <= j < |job.recipe.files| && fs.Has(job.recipe.files[j].path) && !seen.Has(job.recipe.files[j].path) {
      StoredHas(fs, path, content, job.recipe.files[j].path);
    } else if !NoClashFrom(job, seen, i) {
      var a, b :| i <= a < b < |job.recipe.files| && Clash(job, seen, a, b);
      if a == i {
        StoredHas(fs, path, content, job.recipe.files[b].path);
      }
    }
  }

  /** The dry run never errs or writes, and it reports the real run's counters exactly when it counts no failure and
      no two entries clash. */
  lemma DryRunPredicts(job: Job, fs: Fs)
    requires Comparable(job)
    ensures var actual, dry := Render(job, fs), Render(DryOf(job), fs);
            && dry.error == None && dry.fs == fs
            && (actual.stats == dry.stats <==> dry.stats.failed == 0 && NoClashFrom(job, fs, 0))
            && (NoClashFrom(job, fs, 0) ==> (actual.error != None <==> dry.stats.failed > 0))
            && (dry.stats.failed == 0 ==> actual.error == None)
  {
    hide RenderFrom, NoClashFrom, Fs.Has;
    DryRunCompletes(DryOf(job), 0, fs, Start(job));
    SameViewAtStart(job, fs);
    if NoClashFrom(job, fs, 0) {
      RunsAgree(job, 0, fs, fs, Start(job));
    }
    hide SameView, HasAll, Blocked;
    if Render(DryOf(job), fs).stats.failed == 0 {
      RealSkipsMore(job, 0, fs, fs, Start(job), Start(job));
    } else {
      DryFailuresShow(job, fs);
    }
  }

  lemma SameViewAtStart(job: Job, fs: Fs)
    ensures SameView(job, fs, fs, 0) && HasAll(fs, fs) && (Blocked(job, fs, fs, 0) <==> !NoClashFrom(job, fs, 0))
  {
  }

  /** A real run never has the counters of a dry run with failures: it stops before it counts templates, or fails
      nowhere. */
  lemma DryFailuresShow(job: Job, fs: Fs)
    requires Comparable(job) && Render(DryOf(job), fs).error == None && Render(DryOf(job), fs).stats.failed > 0
    ensures Render(job, fs).stats != Render(DryOf(job), fs).stats
  {
    hide RenderFrom, Extends;
    RunKeeps(job, 0, fs, Start(job));
    TemplatesCounted(job, 0, fs, Start(job));
    TemplatesCounted(DryOf(job), 0, fs, Start(job));
    RunKeeps(DryOf(job), 0, fs, Start(job));
  }

  /** Only a completed run counts templates. */
  lemma {:induction false} TemplatesCounted(job: Job, i: nat, fs: Fs, stats: Stats)
    requires job.Valid() && i <= |job.recipe.files| && stats.templatesParsed == 0
    ensures var out := RenderFrom(job, i, fs, stats);
            && (out.error != None ==> out.stats.templatesParsed == 0)
            && (out.error == None && job.recipe.files != [] ==> out.stats.templatesParsed > 0)
    decreases |job.recipe.files| - i
  {
    hide RenderEntry, TemplateNames;
    EveryEntryNamesATemplate(job.recipe.files);
    if i < |job.recipe.files| {
      EntryKeeps(job, i, fs, stats);
      EntryCountsNoTemplate(job, i, fs, stats);
      match RenderEntry(job, i, fs, stats)
      case Stop(_) =>
      case Continue(fs', stats') => TemplatesCounted(job, i + 1, fs', stats');
    }
  }

  lemma EntryCountsNoTemplate(job: Job, i: nat, fs: Fs, stats: Stats)
    requires job.Valid() && i < |job.recipe.files|
    ensures RenderEntry(job, i, fs, stats).Result().stats.templatesParsed == stats.templatesParsed
  {
    hide Clean, Dir, Stored, Fs.Has, Job.Attempt;
  }

  lemma EveryEntryNamesATemplate(files: seq<FileEntry>)
    ensures files != [] ==> |TemplateNames(files)| > 0
  {
    if files != [] {
      assert files[0].template in TemplateNames(files);
    }
  }

  // ---------------------------------------------------------------- when a real run errs

  /** The real run comes to render entry `j`, as long as it does not fail before: the path does not exist at first,
      and no entry rendered before makes it exist. */
  predicate Fresh(job: Job, fs: Fs, j: nat)
    requires j < |job.recipe.files|
  {
    !fs.Has(job.recipe.files[j].path) && forall a | 0 <= a < j && Fresh(job, fs, a) ::
        job.Key(j) !in NewNames(job.recipe.files[a].path)
  }

  /** What exists before entry `i`: what existed at first, and what storing the fresh entries made. */
  ghost predicate ExistsBy(job: Job, fs: Fs, now: Fs, i: nat)
    requires i <= |job.recipe.files|
  {
    forall q :: now.Has(q) <==>
        fs.Has(q) || exists a | 0 <= a < i :: Fresh(job, fs, a) && Clean(q) in NewNames(job.recipe.files[a].path)
  }

  lemma FreshMeansAbsent(job: Job, fs: Fs, now: Fs, i: nat)
    requires i < |job.recipe.files| && ExistsBy(job, fs, now, i)
    ensures Fresh(job, fs, i) <==> !now.Has(job.recipe.files[i].path)
    ensures !Fresh(job, fs, i) ==> ExistsBy(job, fs, now, i + 1)
  {
    hide Fs.Has, NewNames, Clean;
  }

  lemma ExistsAfterStoring(job: Job, fs: Fs, now: Fs, i: nat, content: string)
    requires i < |job.recipe.files| && ExistsBy(job, fs, now, i) && Fresh(job, fs, i)
    ensures ExistsBy(job, fs, Stored(now, job.recipe.files[i].path, content), i + 1)
  {
    hide Fs.Has, NewNames, Clean, Stored, Fresh;
    var path := job.recipe.files[i].path;
    forall q ensures Stored(now, path, content).Has(q) <==>
                     fs.Has(q) || exists a | 0 <= a < i + 1 ::
                         Fresh(job, fs, a) && Clean(q) in NewNames(job.recipe.files[a].path)
    {
      StoredHas(now, path, content, q);
    }
  }

  lemma {:induction false} ErrsFrom(job: Job, fs: Fs, i: nat, now: Fs, stats: Stats)
    requires Comparable(job) && i <= |job.recipe.files| && ExistsBy(job, fs, now, i)
    ensures RenderFrom(job, i, now, stats).error != None <==>
            exists j | i <= j < |job.recipe.files| :: Fresh(job, fs, j) && job.Attempt(j).Err?
    decreases |job.recipe.files| - i
  {
    hide Fs.Has, NewNames, Stored, Fresh, ExistsBy, Job.Attempt, Clean, Dir;
    if i < |job.recipe.files| {
      var path := job.recipe.files[i].path;
      FreshMeansAbsent(job, fs, now, i);
      HasFile(now, path);
      if !Fresh(job, fs, i) {
        ErrsFrom(job, fs, i + 1, now, stats.(skipped := stats.skipped + 1));
      } else if job.Attempt(i).Ok? {
        ExistsAfterStoring(job, fs, now, i, job.Attempt(i).value);
        ErrsFrom(job, fs, i + 1, Stored(now, path, job.Attempt(i).value), stats.(generated := stats.generated + 1));
      }
    }
  }

  /** Whatever the paths: a real run that is not cancelled and must not overwrite errs exactly when some fresh entry
      does not render. */
  lemma RealRunErrsExactly(job: Job, fs: Fs)
    requires Comparable(job)
    ensures Render(job, fs).error != None <==>
        exists j | 0 <= j < |job.recipe.files| :: Fresh(job, fs, j) && job.Attempt(j).Err?
  {
    hide RenderFrom, Fresh, Job.Attempt;
    assert ExistsBy(job, fs, fs, 0);
    ErrsFrom(job, fs, 0, fs, Start(job));
  }

  lemma {:induction false} DryRunCompletes(job: Job, i: nat, fs: Fs, stats: Stats)
    requires job.Valid() && i <= |job.recipe.files| && job.options.dry && NeverCancelled(job)
    ensures RenderFrom(job, i, fs, stats).error == None && RenderFrom(job, i, fs, stats).fs == fs
    decreases |job.recipe.files| - i
  {
    hide Fs.Has, Job.Attempt, Clean, Dir;
    if i < |job.recipe.files| {
      DryRunCompletes(job, i + 1, fs, RenderEntry(job, i, fs, stats).stats);
    }
  }

  /** A relative path in cleaned form. */
  predicate Plain(p: string) {
    Clean(p) == p && !IsAbs(p)
  }

  /** `a` is a directory on the way to `b`. */
  predicate Ancestor(a: string, b: string) {
    CleanStack(a) != [] && |CleanStack(a)| < |CleanStack(b)| && CleanStack(a) == CleanStack(b)[..|CleanStack(a)|]
  }

  lemma PrefixIsAncestor(p: string, n: nat)
    requires Plain(p) && 1 <= n < |CleanStack(p)|
    ensures Ancestor(Join(CleanStack(p)[..n], "/"), p)
  {
    hide CleanStack, Join;
    CleanIsNormal(p);
    AssembledComponents(false, CleanStack(p)[..n]);
  }

  /** Storing a file at a plain path adds that path and directories on the way to it. */
  lemma NewNamesOfPlain(p: string, q: string)
    requires Plain(p) && q in NewNames(p)
    ensures q == p || Ancestor(q, p)
  {
    hide CleanStack, Join, UpToSlash;
    var stack := CleanStack(p);
    CleanIsNormal(p);
    if stack == [] {
      RootAndDot();
      UpToLastSlash("", ".");
      assert "" + "." == ".";
      EmptyCleansToDot();
    } else {
      DirDropsLast(stack);
      var front := stack[..|stack| - 1];
      forall n | 1 <= n <= |front| ensures Ancestor(Join(front[..n], "/"), p) {
        assert front[..n] == stack[..n];
        PrefixIsAncestor(p, n);
      }
      assert front != [] ==> front[..|front|] == front;
    }
  }

  lemma EmptyCleansToDot()
    ensures Clean("") == "." && CleanStack("") == []
  {
    JoinOne("");
    JoinedPieces([""]);
    PushedAfterRoot(false, []);
    assert [] + [""] == [""];
  }

  /** Plain paths of which none is repeated and none is an ancestor of another never clash. */
  lemma PlainPathsDoNotClash(job: Job, fs: Fs)
    requires forall i | 0 <= i < |job.recipe.files| :: Plain(job.recipe.files[i].path)
    requires forall i, j | 0 <= i < |job.recipe.files| && 0 <= j < |job.recipe.files| && i != j ::
               job.recipe.files[i].path != job.recipe.files[j].path &&
                   !Ancestor(job.recipe.files[i].path, job.recipe.files[j].path)
    ensures NoClashFrom(job, fs, 0)
  {
    hide Ancestor, NewNames, Fs.Has, Clean;
    forall a, b | 0 <= a < b < |job.recipe.files| ensures !Clash(job, fs, a, b) {
      var p, q := job.recipe.files[a].path, job.recipe.files[b].path;
      assert Plain(p) && Plain(q);
      if Clean(q) in NewNames(p) {
        NewNamesOfPlain(p, q);
      }
    }
  }

  // ---------------------------------------------------------------- running twice

  lemma {:induction false} AllPresentAfter(job: Job, i: nat, fs: Fs, stats: Stats, j: nat)
    requires job.Valid() && !job.options.dry && i <= j < |job.recipe.files| &&
        RenderFrom(job, i, fs, stats).error == None
    ensures RenderFrom(job, i, fs, stats).fs.Has(job.recipe.files[j].path)
    decreases |job.recipe.files| - i
  {
    hide Clean, Dir, DirsMade, ParentMarked, Job.Attempt;
    var Continue(fs', stats') := RenderEntry(job, i, fs, stats);
    if j == i {
      RunKeeps(job, i + 1, fs', stats');
      assert fs'.Has(job.recipe.files[i].path);
    } else {
      AllPresentAfter(job, i + 1, fs', stats', j);
    }
  }

  lemma {:induction false} AllSkipped(job: Job, i: nat, fs: Fs, stats: Stats)
    requires job.Valid() && !job.options.overwrite && NeverCancelled(job) && i <= |job.recipe.files|
    requires forall j | i <= j < |job.recipe.files| :: fs.Has(job.recipe.files[j].path)
    ensures RenderFrom(job, i, fs, stats) ==
              Outcome(fs, stats.(skipped := stats.skipped + |job.recipe.files| - i,
                  templatesParsed := |TemplateNames(job.recipe.files)|), None)
    decreases |job.recipe.files| - i
  {
    hide Fs.Has, Job.Attempt, Clean, Dir;
    if i < |job.recipe.files| {
      AllSkipped(job, i + 1, fs, stats.(skipped := stats.skipped + 1));
    }
  }

  /** After a real run that succeeded, a run of the same entries that must not overwrite skips them all and changes
      nothing, whatever its templates and variables. */
  lemma SecondRunIsIdle(first: Job, second: Job, fs: Fs)
    requires first.Valid() && !first.options.dry && Render(first, fs).error == None
    requires second.Valid() && !second.options.overwrite && NeverCancelled(second) &&
        second.recipe.files == first.recipe.files
    ensures var fs' := Render(first, fs).fs;
            var n := |first.recipe.files|;
            Render(second, fs') == Outcome(fs', Stats(0, n, 0, n, |TemplateNames(first.recipe.files)|), None)
  {
    hide RenderFrom, Fs.Has;
    var fs' := Render(first, fs).fs;
    forall j | 0 <= j < |second.recipe.files| ensures fs'.Has(second.recipe.files[j].path) {
      AllPresentAfter(first, 0, fs, Start(first), j);
    }
    AllSkipped(second, 0, fs', Start(second));
  }

  // ---------------------------------------------------------------- overwriting

  /** What an overwriting run needs from entry `i` on. */
  predicate Overwritable(job: Job, i: nat, fs: Fs)
    requires job.Valid()
  {
    && (forall j | i <= j < |job.recipe.files| :: job.Attempt(j).Ok? && job.Key(j) !in fs.files)
    && (forall a, b | i <= a < b < |job.recipe.files| :: job.Key(a) != job.Key(b))
  }

  lemma {:induction false} OverwriteFrom(job: Job, i: nat, fs: Fs, stats: Stats)
    requires job.Valid() && job.options.overwrite && !job.options.dry && NeverCancelled(job) && i <= |job.recipe.files|
    ensures RenderFrom(job, i, fs, stats).error == None <==> Overwritable(job, i, fs)
    decreases |job.recipe.files| - i
  {
    hide Clean, Dir, DirsMade, ParentMarked, Job.Attempt;
    if i < |job.recipe.files| && job.Attempt(i).Ok? && job.Key(i) !in fs.files {
      var Continue(fs', stats') := RenderEntry(job, i, fs, stats);
      OverwriteFrom(job, i + 1, fs', stats');
      assert fs'.files.Keys == fs.files.Keys + {job.Key(i)};
    }
  }

  /** Asking to overwrite does not overwrite here: the run succeeds exactly when every entry renders, no entry's file
      exists yet, and no two entries have the same path. */
  lemma OverwriteNeverReplaces(job: Job, fs: Fs)
    requires job.Valid() && job.options.overwrite && !job.options.dry && NeverCancelled(job)
    ensures Render(job, fs).error == None <==> Overwritable(job, 0, fs)
  {
    OverwriteFrom(job, 0, fs, Start(job));
  }

  /** So running the same overwriting recipe again fails at its first entry, and leaves every file as the first run
      left it. */
  lemma OverwritingAgainFails(job: Job, fs: Fs)
    requires job.Valid() && job.options.overwrite && !job.options.dry && NeverCancelled(job) && job.recipe.files != []
    requires Render(job, fs).error == None
    ensures var first := Render(job, fs).fs;
            Render(job, first).error == Some(WriteFailed) && Render(job, first).fs.files == first.files
  {
    hide Clean, Dir, DirsMade, ParentMarked, Job.Attempt;
    OverwriteNeverReplaces(job, fs);
    var Continue(fs', stats') := RenderEntry(job, 0, fs, Start(job));
    RunKeeps(job, 1, fs', stats');
    assert job.Key(0) in Render(job, fs).fs.files;
  }

  /** An overwriting run that completes counts what its dry run counts. */
  lemma {:induction false} CompletedOverwriting(job: Job, i: nat, fs: Fs, seen: Fs, stats: Stats)
    requires job.Valid() && job.options.overwrite && !job.options.dry && NeverCancelled(job) && i <= |job.recipe.files|
    requires RenderFrom(job, i, fs, stats).error == None
    ensures RenderFrom(DryOf(job), i, seen, stats).stats == RenderFrom(job, i, fs, stats).stats
    decreases |job.recipe.files| - i
  {
    hide Clean, Dir, DirsMade, ParentMarked, Fs.Has, Stored, Job.Attempt;
    if i < |job.recipe.files| {
      AttemptIgnoresDry(job, i);
      var Continue(fs', stats') := RenderEntry(job, i, fs, stats);
      CompletedOverwriting(job, i + 1, fs', seen, stats');
    }
  }

  /** An overwriting dry run reports the real run's counters exactly when the real run succeeds: when every entry
      renders, no entry's file exists yet, and no two entries have the same path. */
  lemma OverwritingDryRunPredicts(job: Job, fs: Fs)
    requires job.Valid() && job.options.overwrite && !job.options.dry && NeverCancelled(job)
    ensures Render(job, fs).stats == Render(DryOf(job), fs).stats <==> Overwritable(job, 0, fs)
  {
    hide RenderFrom, Overwritable;
    OverwriteNeverReplaces(job, fs);
    if Render(job, fs).error == None {
      CompletedOverwriting(job, 0, fs, fs, Start(job));
    } else {
      StoppedHasEntries(job, fs);
      DryRunCompletes(DryOf(job), 0, fs, Start(job));
      TemplatesCounted(job, 0, fs, Start(job));
      TemplatesCounted(DryOf(job), 0, fs, Start(job));
    }
  }

  lemma StoppedHasEntries(job: Job, fs: Fs)
    requires job.Valid() && Render(job, fs).error != None
    ensures job.recipe.files != []
  {
  }

  /** An overwriting recipe of one entry that renders, whose file is there already: the dry run counts it as
      generated and no failure, the real run fails to write it. */
  lemma OverwritingDryRunMisleads(job: Job, fs: Fs)
    requires job.Valid() && job.options.overwrite && !job.options.dry && NeverCancelled(job)
    requires |job.recipe.files| == 1 && job.Attempt(0).Ok? && job.Key(0) in fs.files
    ensures Render(DryOf(job), fs).error == None && Render(DryOf(job), fs).stats.failed == 0
    ensures Render(DryOf(job), fs).stats.generated == 1 && Render(job, fs).error == Some(WriteFailed)
  {
    hide Clean, Dir, DirsMade, ParentMarked, Job.Attempt;
    AttemptIgnoresDry(job, 0);
    DryRunCompletes(DryOf(job), 0, fs, Start(job));
    var dry := Continue(fs, Start(job).(generated := 1));
    assert RenderEntry(DryOf(job), 0, fs, Start(job)) == dry;
    assert RenderFrom(DryOf(job), 1, fs, dry.stats).stats ==
        dry.stats.(templatesParsed := |TemplateNames(job.recipe.files)|);
  }
}
