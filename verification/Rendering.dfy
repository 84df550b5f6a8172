/** Rendering a recipe into the in-memory file system: what one run does, as a function of what its template look-ups
    return. */
module Rendering {
  import opened Outcomes
  import opened Paths
  import opened MemoryFs
  import opened Templates

  datatype Stats = Stats(generated: nat, skipped: nat, failed: nat, total: nat, templatesParsed: nat)

  datatype Outcome = Outcome(fs: Fs, stats: Stats, error: Option<RenderError>)

  /** A run's inputs. `loads[i]` is what looking up the template of entry `i` returns. */
  datatype Job = Job(lang: Language, recipe: Recipe, options: Options, ctx: Context,
      loads: seq<Result<Parsed, RenderError>>) {
    predicate Valid() {
      |loads| == |recipe.files|
    }

    function Key(i: nat): string
      requires i < |recipe.files|
    {
      Clean(recipe.files[i].path)
    }

    /** Later maps win: the entry's variables over the options' over the recipe's. */
    function Data(i: nat): RenderData
      requires i < |recipe.files|
    {
      var file := recipe.files[i];
      RenderData(recipe.vars + options.vars + file.overrides, file, recipe)
    }

    /** Rendering entry `i`: a poll of the context, the template, its execution. */
    function Attempt(i: nat): Result<string, RenderError>
      requires Valid() && i < |recipe.files|
    {
      if ctx.Done(3 * i + 1) then Err(Cancelled)
      else match loads[i]
        case Err(e) => Err(e)
        case Ok(t) =>
          match lang.exec(t, Data(i))
          case None => Err(ExecutionFailed)
          case Some(content) => Ok(content)
    }
  }

  function TemplateNames(files: seq<FileEntry>): set<string> {
    set f | f in files :: f.template
  }

  function Start(job: Job): Stats {
    Stats(0, 0, 0, |job.recipe.files|, 0)
  }

  /** What the loop body leaves: the state for the next entry, or the end of the run. */
  datatype Step = Continue(fs: Fs, stats: Stats) | Stop(outcome: Outcome) {
    function Result(): Outcome {
      if Stop? then outcome else Outcome(fs, stats, None)
    }
  }

  /** The loop body for entry `i`. */
  function RenderEntry(job: Job, i: nat, fs: Fs, stats: Stats): Step
    requires job.Valid() && i < |job.recipe.files|
  {
    var path := job.recipe.files[i].path;
    if job.ctx.Done(3 * i) then Stop(Outcome(fs, stats, Some(Cancelled)))
    else if fs.Has(path) && !job.options.overwrite then Continue(fs, stats.(skipped := stats.skipped + 1))
    else
      match job.Attempt(i)
      case Err(e) =>
        var failed := stats.(failed := stats.failed + 1);
        if job.options.dry then Continue(fs, failed) else Stop(Outcome(fs, failed, Some(e)))
      case Ok(content) =>
        var generated := stats.(generated := stats.generated + 1);
        if job.options.dry then Continue(fs, generated)
        else if job.ctx.Done(3 * i + 2) then Stop(Outcome(fs, stats.(failed := stats.failed + 1), Some(Cancelled)))
        else if Clean(path) in fs.files then
          Stop(Outcome(Made(fs, Dir(path)), stats.(failed := stats.failed + 1), Some(WriteFailed)))
        else Continue(Stored(fs, path, content), generated)
  }

  /** A file written by `writeFile`: its directories are made first. */
  function Stored(fs: Fs, path: string, content: string): Fs {
    Written(Made(fs, Dir(path)), path, content)
  }

  /** The run from entry `i` on. */
  function RenderFrom(job: Job, i: nat, fs: Fs, stats: Stats): Outcome
    requires job.Valid() && i <= |job.recipe.files|
    decreases |job.recipe.files| - i
  {
    if i == |job.recipe.files| then
      Outcome(fs, stats.(templatesParsed := |TemplateNames(job.recipe.files)|), None)
    else
      match RenderEntry(job, i, fs, stats)
      case Stop(outcome) => outcome
      case Continue(fs', stats') => RenderFrom(job, i + 1, fs', stats')
  }

  /** One run of `RenderRecipe`. */
  function Render(job: Job, fs: Fs): Outcome
    requires job.Valid()
  {
    RenderFrom(job, 0, fs, Start(job))
  }

  /** The state after the first `i` entries, or the end of the run if it came earlier. */
  function RunTo(job: Job, fs: Fs, i: nat): Step
    requires job.Valid() && i <= |job.recipe.files|
  {
    if i == 0 then Continue(fs, Start(job))
    else
      match RunTo(job, fs, i - 1)
      case Stop(outcome) => Stop(outcome)
      case Continue(fs', stats') => RenderEntry(job, i - 1, fs', stats')
  }

  lemma {:induction false} RunToThenFrom(job: Job, fs: Fs, i: nat)
    requires job.Valid() && i <= |job.recipe.files|
    ensures match RunTo(job, fs, i)
            case Stop(outcome) => Render(job, fs) == outcome
            case Continue(fs', stats') => Render(job, fs) == RenderFrom(job, i, fs', stats')
  {
    hide RenderEntry;
    if i > 0 {
      RunToThenFrom(job, fs, i - 1);
    }
  }

  /** The state after `i` entries depends on the look-ups of those entries only. */
  lemma {:induction false} RunToUsesPrefix(job: Job, loads: seq<Result<Parsed, RenderError>>, fs: Fs, i: nat)
    requires job.Valid() && |loads| == |job.loads| && i <= |loads| && loads[..i] == job.loads[..i]
    ensures RunTo(job.(loads := loads), fs, i) == RunTo(job, fs, i)
  {
    hide Clean, Fs.Has, Dir;
    if i > 0 {
      assert loads[..i - 1] == loads[..i][..i - 1] && job.loads[..i - 1] == job.loads[..i][..i - 1];
      assert loads[i - 1] == loads[..i][i - 1] && job.loads[i - 1] == job.loads[..i][i - 1];
      RunToUsesPrefix(job, loads, fs, i - 1);
    }
  }

  // ---------------------------------------------------------------- what every run keeps

  /** Everything `fs` holds is still there, unchanged. */
  predicate Extends(fs: Fs, fs': Fs) {
    fs.dirs <= fs'.dirs && fs.files.Keys <= fs'.files.Keys && forall p | p in fs.files :: fs'.files[p] == fs.files[p]
  }

  /** Writing a new file extends the file system by that file. */
  lemma StoringExtends(fs: Fs, path: string, content: string)
    requires Clean(path) !in fs.files
    ensures Extends(fs, Stored(fs, path, content)) && |Stored(fs, path, content).files| == |fs.files| + 1
    ensures Stored(fs, path, content).files == fs.files[Clean(path) := content]
  {
    hide Clean, Dir, DirsMade, ParentMarked;
    assert Stored(fs, path, content).files.Keys == fs.files.Keys + {Clean(path)};
  }

  /** The entries a run's counters account for. */
  function Counted(stats: Stats): nat {
    stats.generated + stats.skipped + stats.failed
  }

  /** How a run, or a part of one that handles `n` entries, may change the file system and the counters. */
  predicate Keeps(dry: bool, n: nat, fs: Fs, stats: Stats, out: Outcome) {
    && Extends(fs, out.fs)
    && (dry ==> out.fs == fs)
    && (!dry ==> |out.fs.files| == |fs.files| + (out.stats.generated - stats.generated))
    && (!dry && out.error == None ==> out.stats.failed == stats.failed)
    && out.stats.total == stats.total && stats.failed <= out.stats.failed && stats.skipped <= out.stats.skipped
    && Counted(out.stats) <= Counted(stats) + n
    && (out.error == None ==> Counted(out.stats) == Counted(stats) + n)
  }

  lemma EntryKeeps(job: Job, i: nat, fs: Fs, stats: Stats)
    requires job.Valid() && i < |job.recipe.files|
    ensures Keeps(job.options.dry, 1, fs, stats, RenderEntry(job, i, fs, stats).Result())
    ensures RenderEntry(job, i, fs, stats).Stop? ==> RenderEntry(job, i, fs, stats).outcome.error != None
  {
    hide Clean, Dir, DirsMade, ParentMarked, Job.Attempt, Stored;
    var out := RenderEntry(job, i, fs, stats).Result();
    var path := job.recipe.files[i].path;
    if job.Attempt(i).Ok? && Clean(path) !in fs.files {
      StoringExtends(fs, path, job.Attempt(i).value);
    }
    assert Extends(fs, out.fs);
  }

  lemma KeepsCompose(dry: bool, n: nat, fs: Fs, stats: Stats, fs': Fs, stats': Stats, out: Outcome)
    requires Keeps(dry, 1, fs, stats, Outcome(fs', stats', None)) && Keeps(dry, n, fs', stats', out)
    ensures Keeps(dry, n + 1, fs, stats, out)
  {
    assert forall p | p in fs.files :: p in fs'.files;
  }

  /** Whatever the options, the templates and the moment of cancellation, no existing file changes or disappears; a dry
      run changes nothing; the file count grows by the number of generated files; and the counters account for every
      entry of a completed run. */
  lemma {:induction false} RunKeeps(job: Job, i: nat, fs: Fs, stats: Stats)
    requires job.Valid() && i <= |job.recipe.files|
    ensures Keeps(job.options.dry, |job.recipe.files| - i, fs, stats, RenderFrom(job, i, fs, stats))
    decreases |job.recipe.files| - i
  {
    hide RenderEntry;
    if i < |job.recipe.files| {
      EntryKeeps(job, i, fs, stats);
      match RenderEntry(job, i, fs, stats)
      case Stop(_) =>
      case Continue(fs', stats') =>
        RunKeeps(job, i + 1, fs', stats');
        KeepsCompose(job.options.dry, |job.recipe.files| - i - 1, fs, stats, fs', stats',
            RenderFrom(job, i, fs, stats));
    }
  }

  /** A path that is only a directory is never turned into a file by a run that must not overwrite. */
  lemma {:induction false} DirectoryStays(job: Job, i: nat, fs: Fs, stats: Stats, p: string)
    requires job.Valid() && i <= |job.recipe.files| && !job.options.overwrite && p in fs.dirs && p !in fs.files
    ensures p !in RenderFrom(job, i, fs, stats).fs.files
    decreases |job.recipe.files| - i
  {
    hide Clean, Dir, DirsMade, ParentMarked, Job.Attempt;
    if i < |job.recipe.files| {
      match RenderEntry(job, i, fs, stats)
      case Stop(_) =>
      case Continue(fs', stats') => DirectoryStays(job, i + 1, fs', stats', p);
    }
  }

  /** An entry whose path a run passes over, and makes a file of later, does not exist: it would have been written
      now. */
  lemma PassedOver(job: Job, i: nat, fs: Fs, stats: Stats, p: string)
    requires job.Valid() && i < |job.recipe.files| && p !in fs.files && job.Key(i) == p
    requires RenderEntry(job, i, fs, stats).Continue? && p !in RenderEntry(job, i, fs, stats).fs.files
    ensures p !in RenderFrom(job, i, fs, stats).fs.files
  {
    hide Clean, Dir, DirsMade, ParentMarked, Job.Attempt;
    if job.options.dry {
      RunKeeps(job, i, fs, stats);
    } else {
      DirectoryStays(job, i, fs, stats, p);
    }
  }

  /** An entry adds at most one file: its own rendering under its own path. */
  lemma EntryAdds(job: Job, i: nat, fs: Fs, stats: Stats, p: string)
    requires job.Valid() && i < |job.recipe.files| && p !in fs.files
    ensures var step := RenderEntry(job, i, fs, stats);
            && (p in step.Result().fs.files ==>
                step.Continue? && job.Key(i) == p && job.Attempt(i) == Ok(step.fs.files[p]))
  {
    hide Clean, Dir, DirsMade, ParentMarked, Job.Attempt;
  }

  /** Every new file holds the rendering of the first entry with its path. */
  lemma {:induction false} NewFileIsRendered(job: Job, i: nat, fs: Fs, stats: Stats, p: string) returns (j: nat)
    requires job.Valid() && i <= |job.recipe.files| && p !in fs.files && p in RenderFrom(job, i, fs, stats).fs.files
    ensures i <= j < |job.recipe.files| && job.Key(j) == p && (forall k | i <= k < j :: job.Key(k) != p)
    ensures job.Attempt(j) == Ok(RenderFrom(job, i, fs, stats).fs.files[p])
    decreases |job.recipe.files| - i
  {
    hide Clean, RenderEntry, Job.Attempt;
    EntryAdds(job, i, fs, stats, p);
    var Continue(fs', stats') := RenderEntry(job, i, fs, stats);
    RunKeeps(job, i + 1, fs', stats');
    if p in fs'.files {
      j := i;
    } else {
      if job.Key(i) == p {
        PassedOver(job, i, fs, stats, p);
      }
      j := NewFileIsRendered(job, i + 1, fs', stats', p);
    }
  }
}
