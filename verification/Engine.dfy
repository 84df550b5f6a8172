/** The scaffold engine: validate, then render. */
module Engine {
  import opened Outcomes
  import opened Text
  import opened Paths
  import opened MemoryFs
  import opened Templates
  import opened TemplateCaching
  import opened Rendering
  import opened RenderingRuns
  import opened Renderer
  import opened Validation

  /** `out` is a run over the file system `fs` whose look-ups were all uncached loads for one of the directories
      `dirs`. */
  ghost predicate Rendered(lang: Language, tfs: TemplateFs, dirs: set<string>, recipe: Recipe, options: Options,
      ctx: Context,
                           loads: seq<Result<Parsed, RenderError>>, fs: Fs, out: Outcome)
  {
    LoadedFrom(lang, tfs, dirs, recipe.files, loads) && out == Render(Job(lang, recipe, options, ctx, loads), fs)
  }

  class ScaffoldEngine {
    const validator: SemanticValidator
    const renderer: TemplateRenderer

    ghost predicate Valid()
      reads renderer, renderer.templateCache
    {
      renderer.Valid()
    }

    /** Validator and renderer start on the same template file system. */
    constructor (lang: Language, semantic: string -> bool, templateFs: TemplateFs, fileSystem: MemoryFileSystem,
        clock: Clock, ttl: int)
      ensures Valid() && fresh(validator) && fresh(renderer) && fresh(renderer.templateCache)
      ensures renderer.fileSystem == fileSystem && renderer.clock == clock && renderer.lang == lang &&
          renderer.dirsUsed == {}
      ensures validator.lang == lang && validator.semantic == semantic
      ensures validator.templateFs == Some(templateFs) && renderer.templateFs == templateFs
    {
      validator := new SemanticValidator(lang, semantic);
      renderer := new TemplateRenderer(lang, templateFs, fileSystem, clock, ttl);
      new;
      validator.SetTemplateFS(templateFs);
    }

    method SetTemplateFS(fsys: TemplateFs)
      modifies renderer, renderer.templateCache, validator
      ensures Valid() && renderer.templateFs == fsys && validator.templateFs == Some(fsys) && renderer.dirsUsed == {}
    {
      renderer.SetTemplateFS(fsys);
      validator.SetTemplateFS(fsys);
    }

    /** Rendering is refused, before anything is touched, exactly when validation finds an issue. Template file systems
        given with the options replace the renderer's, never the validator's. */
    method RenderFS(recipe: Recipe, options: Options, checkCtx: Context, ctx: Context)
      returns (stats: Option<Stats>, error: Option<RenderError>, ghost loads: seq<Result<Parsed, RenderError>>)
      requires Valid()
      modifies renderer, renderer.templateCache, renderer.clock, renderer.fileSystem
      ensures Valid()
      ensures stats.None? <==> Issues(validator.lang, validator.semantic, validator.templateFs, recipe, checkCtx) != []
      ensures stats.None? ==>
          error == Some(ValidationFailed) && renderer.fileSystem.Contents() == old(renderer.fileSystem.Contents())
      ensures stats.Some? ==>
                && renderer.templateFs == (if options.templatesFs.Some? then options.templatesFs.value
                    else old(renderer.templateFs))
                && Rendered(renderer.lang, renderer.templateFs,
                            (if options.templatesFs.Some? then {} else old(renderer.dirsUsed)) + {recipe.templatesDir},
                            recipe, options, ctx, loads, old(renderer.fileSystem.Contents()),
                            Outcome(renderer.fileSystem.Contents(), stats.value, error))
    {
      loads := [];
      var errors := validator.Validate(recipe, checkCtx);
      if |errors| > 0 {
        return None, Some(ValidationFailed), loads;
      }
      MakingDotMakesNothing(renderer.fileSystem.Contents());
      renderer.fileSystem.MkdirAll(".");
      if options.templatesFs.Some? {
        renderer.SetTemplateFS(options.templatesFs.value);
      }
      var s, e, l := renderer.RenderRecipe(recipe, options, ctx);
      stats, error, loads := Some(s), e, l;
    }

    /** The counters and the error of the run with the same inputs that writes nothing. */
    method DryRun(recipe: Recipe, options: Options, checkCtx: Context, ctx: Context)
      returns (stats: Option<Stats>, error: Option<RenderError>, ghost loads: seq<Result<Parsed, RenderError>>)
      requires Valid()
      modifies renderer, renderer.templateCache, renderer.clock, renderer.fileSystem
      ensures Valid() && renderer.fileSystem.Contents() == old(renderer.fileSystem.Contents())
      ensures stats.None? <==> Issues(validator.lang, validator.semantic, validator.templateFs, recipe, checkCtx) != []
      ensures stats.None? ==> error == Some(ValidationFailed)
      ensures stats.Some? ==>
                && renderer.templateFs == (if options.templatesFs.Some? then options.templatesFs.value
                    else old(renderer.templateFs))
                && Rendered(renderer.lang, renderer.templateFs,
                            (if options.templatesFs.Some? then {} else old(renderer.dirsUsed)) + {recipe.templatesDir},
                            recipe, options.(dry := true), ctx, loads, old(renderer.fileSystem.Contents()),
                            Outcome(renderer.fileSystem.Contents(), stats.value, error))
    {
      hide Rendered, Issues;
      stats, error, loads := RenderFS(recipe, options.(dry := true), checkCtx, ctx);
      if stats.Some? {
        RenderedIsARun(renderer.lang, renderer.templateFs,
                       (if options.templatesFs.Some? then {} else old(renderer.dirsUsed)) + {recipe.templatesDir},
                       recipe, options.(dry := true), ctx, loads, old(renderer.fileSystem.Contents()),
                       Outcome(renderer.fileSystem.Contents(), stats.value, error));
      }
    }
  }

  lemma MakingDotMakesNothing(fs: Fs)
    ensures Made(fs, ".") == fs
  {
    RootAndDot();
    RootOrDotMakesNothing(".");
  }

  lemma RenderedIsARun(lang: Language, tfs: TemplateFs, dirs: set<string>, recipe: Recipe, options: Options,
      ctx: Context,
                       loads: seq<Result<Parsed, RenderError>>, fs: Fs, out: Outcome)
    requires Rendered(lang, tfs, dirs, recipe, options, ctx, loads, fs, out)
    ensures Extends(fs, out.fs) && (options.dry ==> out.fs == fs)
    ensures dirs == {recipe.templatesDir} ==>
        out == Render(Job(lang, recipe, options, ctx, FreshLoads(lang, tfs, recipe)), fs)
  {
    hide Render, FreshLoads;
    RunStays(Job(lang, recipe, options, ctx, loads), fs);
    OneDirectoryIsTransparent(lang, tfs, recipe, loads);
  }

  /** Scaffolding a recipe from one template file system, on a fresh engine: a recipe with issues is refused untouched;
      any other is rendered as if there were no cache, keeps every file there was, and never fails because a template is
      missing or unparsable. */
  method ScaffoldFromFS(lang: Language, semantic: string -> bool, templateFs: TemplateFs, recipe: Recipe,
      options: Options,
                        fileSystem: MemoryFileSystem, clock: Clock, checkCtx: Context, ctx: Context)
    returns (stats: Option<Stats>, error: Option<RenderError>)
    modifies fileSystem, clock
    ensures var fs := old(fileSystem.Contents());
            if Issues(lang, semantic, Some(templateFs), recipe, checkCtx) != [] then
              stats == None && error == Some(ValidationFailed) && fileSystem.Contents() == fs
            else
              stats.Some? && Outcome(fileSystem.Contents(), stats.value, error) ==
                Render(Job(lang, recipe, options.(templatesFs := Some(templateFs)), ctx,
                    FreshLoads(lang, templateFs, recipe)), fs)
    ensures error !in {Some(TemplateNotFound), Some(TemplateUnparsable)}
    ensures Extends(old(fileSystem.Contents()), fileSystem.Contents())
  {
    hide Render, Rendered, Issues, FreshLoads;
    var engine := new ScaffoldEngine(lang, semantic, templateFs, fileSystem, clock, 600_000_000_000);
    var withFs := options.(templatesFs := Some(templateFs));
    ghost var loads;
    stats, error, loads := engine.RenderFS(recipe, withFs, checkCtx, ctx);
    if stats.Some? {
      ghost var fs := old(fileSystem.Contents());
      assert {} + {recipe.templatesDir} == {recipe.templatesDir};
      RenderedIsARun(lang, templateFs, {recipe.templatesDir}, recipe, withFs, ctx, loads, fs,
                     Outcome(fileSystem.Contents(), stats.value, error));
      ValidatedRun(lang, semantic, templateFs, recipe, withFs, checkCtx, ctx, fs);
    }
  }

  lemma ValidatedRun(lang: Language, semantic: string -> bool, templateFs: TemplateFs, recipe: Recipe, options: Options,
                     checkCtx: Context, ctx: Context, fs: Fs)
    requires Issues(lang, semantic, Some(templateFs), recipe, checkCtx) == []
    ensures Render(Job(lang, recipe, options, ctx, FreshLoads(lang, templateFs, recipe)), fs).error
              !in {Some(TemplateNotFound), Some(TemplateUnparsable)}
  {
    hide Render, TemplateIssues;
    ValidationIsSound(Job(lang, recipe, options, ctx, FreshLoads(lang, templateFs, recipe)), templateFs, checkCtx, fs);
  }

  lemma RunStays(job: Job, fs: Fs)
    requires job.Valid()
    ensures Extends(fs, Render(job, fs).fs) && (job.options.dry ==> Render(job, fs).fs == fs)
  {
    RunKeeps(job, 0, fs, Start(job));
  }

  // ---------------------------------------------------------------- templates given with the options

  const TEMPLATE_ERRORS: set<RenderError> := {TemplateNotFound, TemplateUnparsable}

  predicate TemplateFails(job: Job, fs: Fs)
    requires job.Valid()
  {
    Render(job, fs).error.Some? && Render(job, fs).error.value in TEMPLATE_ERRORS
  }

  /** Entry `j` is the first one with its path. */
  predicate FirstWithPath(job: Job, j: nat)
    requires j < |job.recipe.files|
  {
    forall a | 0 <= a < j :: job.Key(a) != job.Key(j)
  }

  /** The entries before `j` all render, to paths of their own. */
  predicate Clear(job: Job, j: nat)
    requires job.Valid() && j < |job.recipe.files|
  {
    && (forall a | 0 <= a < j :: job.Attempt(a).Ok?)
    && (forall a, b | 0 <= a < b < j :: job.Key(a) != job.Key(b))
  }

  /** On some file system the run looks up the template of entry `j`: before it is cancelled, and, when it may not
      overwrite, only for the first entry of a path, because a path that exists is skipped; when it may, only if
      nothing stopped it. */
  predicate ComesTo(job: Job, j: nat)
    requires job.Valid() && j < |job.recipe.files|
  {
    !job.ctx.Done(3 * j + 1) && if job.options.overwrite then Clear(job, j) else FirstWithPath(job, j)
  }

  /** Every look-up loads or fails for want of a template. */
  predicate OnlyTemplateErrors(job: Job) {
    forall i | 0 <= i < |job.loads| :: job.loads[i].Ok? || job.loads[i].error in TEMPLATE_ERRORS
  }

  predicate ComesToLoads(job: Job)
    requires job.Valid()
  {
    forall j | 0 <= j < |job.recipe.files| && ComesTo(job, j) :: job.loads[j].Ok?
  }

  /** What a run that reaches entry `i` has behind it. */
  predicate Behind(job: Job, i: nat, fs: Fs)
    requires job.Valid() && i <= |job.recipe.files|
  {
    if job.options.overwrite then
      && (forall a | 0 <= a < i :: job.Attempt(a).Ok? && job.Key(a) in fs.files)
      && (forall a, b | 0 <= a < b < i :: job.Key(a) != job.Key(b))
    else forall a | 0 <= a < i :: job.Key(a) in fs.files || job.Key(a) in fs.dirs
  }

  lemma {:induction false} LoadedRunIsFine(job: Job, i: nat, fs: Fs, stats: Stats)
    requires job.Valid() && i <= |job.recipe.files| && !job.options.dry && ComesToLoads(job) && Behind(job, i, fs)
    ensures RenderFrom(job, i, fs, stats).error.Some? ==> RenderFrom(job, i, fs, stats).error.value !in TEMPLATE_ERRORS
    decreases |job.recipe.files| - i
  {
    hide RenderEntry, ComesToLoads, Behind, Job.Attempt;
    if i < |job.recipe.files| {
      EntryIsFine(job, i, fs, stats);
      match RenderEntry(job, i, fs, stats)
      case Stop(_) =>
      case Continue(fs', stats') => LoadedRunIsFine(job, i + 1, fs', stats');
    }
  }

  lemma EntryIsFine(job: Job, i: nat, fs: Fs, stats: Stats)
    requires job.Valid() && i < |job.recipe.files| && !job.options.dry && ComesToLoads(job) && Behind(job, i, fs)
    ensures match RenderEntry(job, i, fs, stats)
            case Stop(out) => out.error.Some? ==> out.error.value !in TEMPLATE_ERRORS
            case Continue(fs', _) => Behind(job, i + 1, fs')
  {
    hide Clean, Dir, DirsMade, ParentMarked, Job.Data;
    if !job.ctx.Done(3 * i + 1) && (job.options.overwrite || !fs.Has(job.recipe.files[i].path)) {
      assert ComesTo(job, i);
    }
  }

  /** A file system that lets the run come to entry `j`: with every other path in it, or empty for an overwriting
      run. */
  function WayTo(job: Job, j: nat): Fs
    requires j < |job.recipe.files|
  {
    if job.options.overwrite then Fs(map[], {})
    else Fs(map a | 0 <= a < |job.recipe.files| && job.Key(a) != job.Key(j) :: job.Key(a) := "", {})
  }

  /** The run is on its way to entry `j`. */
  predicate OnTheWay(job: Job, i: nat, j: nat, fs: Fs)
    requires i <= j < |job.recipe.files|
  {
    if job.options.overwrite then forall b | i <= b < j :: job.Key(b) !in fs.files
    else fs == WayTo(job, j)
  }

  lemma {:induction false} RunReaches(job: Job, i: nat, j: nat, fs: Fs, stats: Stats)
    requires job.Valid() && i <= j < |job.recipe.files| && !job.options.dry
    requires ComesTo(job, j) && OnTheWay(job, i, j, fs) && job.loads[j].Err?
    ensures RenderFrom(job, i, fs, stats).error == Some(job.loads[j].error)
    decreases j - i
  {
    hide RenderEntry, ComesTo, OnTheWay;
    if i < j {
      WayPasses(job, i, j, fs, stats);
      var Continue(fs', stats') := RenderEntry(job, i, fs, stats);
      RunReaches(job, i + 1, j, fs', stats');
    } else {
      WayEnds(job, j, fs, stats);
    }
  }

  lemma WayPasses(job: Job, i: nat, j: nat, fs: Fs, stats: Stats)
    requires job.Valid() && i < j < |job.recipe.files| && !job.options.dry && ComesTo(job, j) && OnTheWay(job, i, j, fs)
    ensures RenderEntry(job, i, fs, stats).Continue? && OnTheWay(job, i + 1, j, RenderEntry(job, i, fs, stats).fs)
  {
    hide Clean, Dir, Rendering.Stored, Job.Attempt;
    var path := job.recipe.files[i].path;
    assert !job.ctx.Done(3 * i) && !job.ctx.Done(3 * i + 2);
    if job.options.overwrite {
      var content := job.Attempt(i).value;
      assert job.Key(i) !in fs.files;
      StoringExtends(fs, path, content);
      assert RenderEntry(job, i, fs, stats).fs == Rendering.Stored(fs, path, content);
    } else {
      assert job.Key(i) in WayTo(job, j).files;
      assert fs.Has(path);
    }
  }

  lemma WayEnds(job: Job, j: nat, fs: Fs, stats: Stats)
    requires job.Valid() && j < |job.recipe.files| && !job.options.dry && ComesTo(job, j) && OnTheWay(job, j, j, fs)
    requires job.loads[j].Err?
    ensures RenderEntry(job, j, fs, stats).Stop? && RenderEntry(job, j, fs, stats).outcome.error ==
        Some(job.loads[j].error)
  {
    hide Clean, Dir, DirsMade, ParentMarked, Job.Data;
  }

  /** Whatever the options and the moment of cancellation, a run lacks no template on any file system exactly when it
      is dry or the template of every entry it may come to loads. */
  lemma TemplatesSufficeExactly(job: Job)
    requires job.Valid() && OnlyTemplateErrors(job)
    ensures (forall fs :: !TemplateFails(job, fs)) <==> job.options.dry || ComesToLoads(job)
  {
    hide RenderFrom, ComesTo, Behind, OnTheWay;
    if job.options.dry {
      forall fs ensures !TemplateFails(job, fs) {
        DryRunLacksNothing(job, 0, fs, Start(job));
      }
    } else if ComesToLoads(job) {
      forall fs ensures !TemplateFails(job, fs) {
        NothingBehind(job, fs);
        LoadedRunIsFine(job, 0, fs, Start(job));
      }
    } else {
      var j :| 0 <= j < |job.recipe.files| && ComesTo(job, j) && job.loads[j].Err?;
      WayStarts(job, j);
      RunReaches(job, 0, j, WayTo(job, j), Start(job));
      assert TemplateFails(job, WayTo(job, j));
    }
  }

  lemma NothingBehind(job: Job, fs: Fs)
    requires job.Valid()
    ensures Behind(job, 0, fs)
  {
  }

  lemma WayStarts(job: Job, j: nat)
    requires j < |job.recipe.files|
    ensures OnTheWay(job, 0, j, WayTo(job, j))
  {
  }

  lemma {:induction false} DryRunLacksNothing(job: Job, i: nat, fs: Fs, stats: Stats)
    requires job.Valid() && i <= |job.recipe.files| && job.options.dry
    ensures RenderFrom(job, i, fs, stats).error in {None, Some(Cancelled)}
    decreases |job.recipe.files| - i
  {
    hide Clean, Dir, Fs.Has, Job.Attempt;
    if i < |job.recipe.files| {
      match RenderEntry(job, i, fs, stats)
      case Stop(_) =>
      case Continue(fs', stats') => DryRunLacksNothing(job, i + 1, fs', stats');
    }
  }

  /** Templates given with the options are not the validated ones. They are safe, whatever the file system rendered
      into, exactly when the run is dry or every entry it may come to loads from them. */
  lemma OptionsTemplatesSafeExactly(lang: Language, given: TemplateFs, recipe: Recipe, options: Options, ctx: Context)
    ensures var job := Job(lang, recipe, options, ctx, FreshLoads(lang, given, recipe));
            (forall fs :: !TemplateFails(job, fs)) <==>
            || options.dry
            || forall j | 0 <= j < |recipe.files| && ComesTo(job, j) ::
                 Load(lang, given, recipe.templatesDir, recipe.files[j].template).Ok?
  {
    hide Load, TemplateFails, ComesTo;
    var job := Job(lang, recipe, options, ctx, FreshLoads(lang, given, recipe));
    forall i | 0 <= i < |job.loads| ensures job.loads[i].Ok? || job.loads[i].error in TEMPLATE_ERRORS {
      LoadErrors(lang, given, recipe.templatesDir, recipe.files[i].template);
    }
    TemplatesSufficeExactly(job);
  }

  lemma LoadErrors(lang: Language, tfs: TemplateFs, dir: string, name: string)
    ensures Load(lang, tfs, dir, name).Ok? || Load(lang, tfs, dir, name).error in TEMPLATE_ERRORS
  {
    hide JoinPath;
  }

  const TINY_RECIPE: Recipe := Recipe("1.0.0", "t", map[], [FileEntry("out", "x", map[])])

  lemma TinyRecipePasses(lang: Language, semantic: string -> bool, never: Context)
    requires semantic("1.0.0") && lang.calls("") == Some({}) && never.cancelledFrom == None
    ensures Issues(lang, semantic, Some(map["t/x" := File("")]), TINY_RECIPE, never) == []
  {
    hide JoinPath, Contains, TemplateIssues;
    NamesJoin("t", "x");
    assert "t" + "/" + "x" == "t/x";
    TemplatesCheckedExactly(lang, map["t/x" := File("")], TINY_RECIPE, never);
    ShorterHoldsNone("t", "..");
  }

  lemma FirstTemplateMissing(job: Job)
    requires job.Valid() && job.recipe.files != [] && !job.options.dry && job.ctx.cancelledFrom == None
    requires job.loads[0] == Err(TemplateNotFound)
    ensures Render(job, Fs(map[], {})).error == Some(TemplateNotFound)
  {
    hide Clean, Dir, Job.Data;
  }

  /** A recipe that passes validation and then ends for want of its template, because the options brought templates
      without it. */
  lemma OptionsBypassValidation(lang: Language, semantic: string -> bool, options: Options, never: Context)
    requires semantic("1.0.0") && lang.calls("") == Some({})
    requires !options.dry && never.cancelledFrom == None
    ensures Issues(lang, semantic, Some(map["t/x" := File("")]), TINY_RECIPE, never) == []
    ensures Render(Job(lang, TINY_RECIPE, options, never, FreshLoads(lang, map[], TINY_RECIPE)), Fs(map[], {})).error ==
        Some(TemplateNotFound)
  {
    hide Issues, Render, JoinPath;
    TinyRecipePasses(lang, semantic, never);
    FirstTemplateMissing(Job(lang, TINY_RECIPE, options, never, FreshLoads(lang, map[], TINY_RECIPE)));
  }
}
