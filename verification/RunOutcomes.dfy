/** How a run ends and what it counts, said by the entry at which it stopped. */
module RunOutcomes {
  import opened Outcomes
  import opened Paths
  import opened MemoryFs
  import opened Templates
  import opened Rendering
  import opened RenderingRuns

  /** The entries a real run got through. */
  function Through(stats: Stats): nat {
    stats.generated + stats.skipped
  }

  /** Why a real run stops at entry `k`. */
  function StopReason(job: Job, k: nat): RenderError
    requires job.Valid() && k < |job.recipe.files|
  {
    if job.ctx.Done(3 * k) then Cancelled
    else if job.Attempt(k).Err? then job.Attempt(k).error
    else if job.ctx.Done(3 * k + 2) then Cancelled
    else WriteFailed
  }

  ghost predicate EndsAt(job: Job, out: Outcome) {
    job.Valid() && var k := Through(out.stats);
    && k <= |job.recipe.files|
    && out.error == (if k == |job.recipe.files| then None else Some(StopReason(job, k)))
    && out.stats.failed == (if k == |job.recipe.files| || job.ctx.Done(3 * k) then 0 else 1)
    && out.stats.templatesParsed ==
         (if k == |job.recipe.files| then |set i | 0 <= i < |job.recipe.files| :: job.recipe.files[i].template| else 0)
  }

  lemma UsedTemplates(files: seq<FileEntry>)
    ensures TemplateNames(files) == set i | 0 <= i < |files| :: files[i].template
  {
    forall f | f in files ensures exists i :: 0 <= i < |files| && files[i].template == f.template {
      var i :| 0 <= i < |files| && files[i] == f;
    }
  }

  lemma {:induction false} EndsFrom(job: Job, i: nat, fs: Fs, stats: Stats)
    requires job.Valid() && i <= |job.recipe.files| && !job.options.dry
    requires Through(stats) == i && stats.failed == 0 && stats.templatesParsed == 0
    ensures EndsAt(job, RenderFrom(job, i, fs, stats))
    decreases |job.recipe.files| - i
  {
    hide Clean, Dir, Stored, Made, Fs.Has, Job.Attempt, TemplateNames;
    UsedTemplates(job.recipe.files);
    if i < |job.recipe.files| {
      match RenderEntry(job, i, fs, stats)
      case Stop(_) =>
      case Continue(fs', stats') => EndsFrom(job, i + 1, fs', stats');
    }
  }

  /** A real run succeeds exactly when it gets through all entries, and then it counts the different templates named.
      It stops at the first entry it does not get through: because it was cancelled before, because that entry did
      not render, because it was cancelled before writing, or because writing failed; all but the first count one
      failure. */
  lemma RealRunEndsExactly(job: Job, fs: Fs)
    requires job.Valid() && !job.options.dry
    ensures var out := Render(job, fs);
            var k := Through(out.stats);
            && k <= |job.recipe.files|
            && out.error == (if k == |job.recipe.files| then None else Some(StopReason(job, k)))
            && out.stats.failed == (if k == |job.recipe.files| || job.ctx.Done(3 * k) then 0 else 1)
            && out.stats.templatesParsed ==
                 (if k == |job.recipe.files| then |set i | 0 <= i < |job.recipe.files| :: job.recipe.files[i].template|
                  else 0)
  {
    hide RenderFrom;
    EndsFrom(job, 0, fs, Start(job));
  }

  // ---------------------------------------------------------------- dry runs

  predicate Skips(job: Job, fs: Fs, i: nat)
    requires i < |job.recipe.files|
  {
    !job.options.overwrite && (Clean(job.recipe.files[i].path) in fs.files ||
        Clean(job.recipe.files[i].path) in fs.dirs)
  }

  function SkippedBy(job: Job, fs: Fs, k: nat): set<nat>
    requires k <= |job.recipe.files|
  {
    set i: nat | 0 <= i < k && Skips(job, fs, i)
  }

  function FailedBy(job: Job, fs: Fs, k: nat): set<nat>
    requires job.Valid() && k <= |job.recipe.files|
  {
    set i: nat | 0 <= i < k && !Skips(job, fs, i) && job.Attempt(i).Err?
  }

  lemma {:induction false} DryRunFrom(job: Job, i: nat, fs: Fs, stats: Stats)
    requires job.Valid() && i <= |job.recipe.files| && job.options.dry && NeverCancelled(job)
    requires stats.skipped == |SkippedBy(job, fs, i)| && stats.failed == |FailedBy(job, fs, i)| && Counted(stats) == i
    ensures var n, out := |job.recipe.files|, RenderFrom(job, i, fs, stats);
            && out.stats.skipped == |SkippedBy(job, fs, n)| && out.stats.failed == |FailedBy(job, fs, n)|
            && Counted(out.stats) == n
    decreases |job.recipe.files| - i
  {
    hide RenderEntry, Skips, SkippedBy, FailedBy, Job.Attempt;
    if i < |job.recipe.files| {
      OneMoreEntry(job, i, fs);
      DryEntry(job, i, fs, stats);
      DryRunFrom(job, i + 1, fs, RenderEntry(job, i, fs, stats).stats);
    }
  }

  lemma OneMoreEntry(job: Job, i: nat, fs: Fs)
    requires job.Valid() && i < |job.recipe.files|
    ensures |SkippedBy(job, fs, i + 1)| == |SkippedBy(job, fs, i)| + if Skips(job, fs, i) then 1 else 0
    ensures |FailedBy(job, fs, i + 1)| ==
            |FailedBy(job, fs, i)| + if !Skips(job, fs, i) && job.Attempt(i).Err? then 1 else 0
  {
    hide SkippedBy, FailedBy, Skips, Job.Attempt;
    NextSkipped(job, i, fs);
    NextFailed(job, i, fs);
  }

  lemma NextSkipped(job: Job, i: nat, fs: Fs)
    requires job.Valid() && i < |job.recipe.files|
    ensures i !in SkippedBy(job, fs, i)
    ensures SkippedBy(job, fs, i + 1) == if Skips(job, fs, i) then SkippedBy(job, fs, i) + {i}
        else SkippedBy(job, fs, i)
  {
    hide Skips;
  }

  lemma NextFailed(job: Job, i: nat, fs: Fs)
    requires job.Valid() && i < |job.recipe.files|
    ensures i !in FailedBy(job, fs, i)
    ensures FailedBy(job, fs, i + 1) ==
            if !Skips(job, fs, i) && job.Attempt(i).Err? then FailedBy(job, fs, i) + {i} else FailedBy(job, fs, i)
  {
    hide Skips, Job.Attempt;
  }

  lemma DryEntry(job: Job, i: nat, fs: Fs, stats: Stats)
    requires job.Valid() && i < |job.recipe.files| && job.options.dry && NeverCancelled(job)
    ensures RenderEntry(job, i, fs, stats) ==
            Continue(fs, if Skips(job, fs, i) then stats.(skipped := stats.skipped + 1)
                         else if job.Attempt(i).Err? then stats.(failed := stats.failed + 1)
                         else stats.(generated := stats.generated + 1))
  {
    hide Fs.Has, Skips, Job.Attempt, Clean, Dir;
    SkipsWhenPresent(job, fs, i);
  }

  lemma SkipsWhenPresent(job: Job, fs: Fs, i: nat)
    requires i < |job.recipe.files|
    ensures Skips(job, fs, i) <==> fs.Has(job.recipe.files[i].path) && !job.options.overwrite
  {
  }

  /** An uncancelled dry run skips exactly the entries whose path exists (none when it may overwrite), fails exactly the
      others that do not render, and counts the rest as generated. */
  lemma DryRunCountsExactly(job: Job, fs: Fs)
    requires job.Valid() && job.options.dry && NeverCancelled(job)
    ensures var n, out := |job.recipe.files|, Render(job, fs);
            && out.stats.skipped == |SkippedBy(job, fs, n)| && out.stats.failed == |FailedBy(job, fs, n)|
            && out.stats.generated == n - out.stats.skipped - out.stats.failed
  {
    hide RenderFrom;
    assert SkippedBy(job, fs, 0) == {} && FailedBy(job, fs, 0) == {};
    DryRunFrom(job, 0, fs, Start(job));
  }
}
