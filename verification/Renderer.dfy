/** The template renderer: templates come through the cache, files go to the in-memory file system. */
module Renderer {
  import opened Outcomes
  import opened Paths
  import opened MemoryFs
  import opened Templates
  import opened TemplateCaching
  import opened Rendering

  /** Every cached template is what loading its name from one of the directories `dirs` returns. */
  ghost predicate Faithful(lang: Language, tfs: TemplateFs, dirs: set<string>, c: Entries<Parsed>) {
    forall name | name in c :: exists d | d in dirs :: Load(lang, tfs, d, name) == Ok(c[name].template)
  }

  /** Every look-up returned what loading the entry's template from one of the directories `dirs` returns. */
  ghost predicate LoadedFrom(lang: Language, tfs: TemplateFs, dirs: set<string>, files: seq<FileEntry>,
                             loads: seq<Result<Parsed, RenderError>>)
  {
    |loads| == |files| && forall i | 0 <= i < |loads| :: exists d | d in dirs ::
        loads[i] == Load(lang, tfs, d, files[i].template)
  }

  lemma Reloaded(lang: Language, tfs: TemplateFs, dirs: set<string>, files: seq<FileEntry>,
                 loads: seq<Result<Parsed, RenderError>>, i: nat, load: Result<Parsed, RenderError>)
    requires LoadedFrom(lang, tfs, dirs, files, loads) && i < |files|
    requires exists d | d in dirs :: load == Load(lang, tfs, d, files[i].template)
    ensures LoadedFrom(lang, tfs, dirs, files, loads[i := load])
  {
  }

  lemma StoringStaysFaithful(lang: Language, tfs: TemplateFs, dirs: set<string>, dir: string, c: Entries<Parsed>,
                             maxSize: int, name: string, template: Parsed, t1: int, t2: int, c': Entries<Parsed>)
    requires Faithful(lang, tfs, dirs, c) && dir in dirs && Load(lang, tfs, dir, name) == Ok(template)
    requires TemplateCaching.Stored(c, maxSize, name, template, t1, t2, c')
    ensures Faithful(lang, tfs, dirs, c')
  {
    var mid :| StoredOver(c, mid, maxSize, name, template, t1, t2, c');
    forall n | n in c' ensures exists d | d in dirs :: Load(lang, tfs, d, n) == Ok(c'[n].template) {
      if n != name {
        assert n in c && c'[n] == c[n];
      }
    }
  }

  /** The cache key leaves the templates directory out: an entry stored for one directory answers for every other
      one. With the directories `dirs` in use, every answer of every cache is right for directory `dir` exactly when
      whatever loads from one of them loads the same from `dir`. */
  lemma CacheAnswersExactly(lang: Language, tfs: TemplateFs, dirs: set<string>, dir: string)
    ensures (forall c: Entries<Parsed>, name | Faithful(lang, tfs, dirs, c) && name in c ::
        Load(lang, tfs, dir, name) == Ok(c[name].template)) <==>
            forall d, name | d in dirs && Load(lang, tfs, d, name).Ok? ::
                Load(lang, tfs, d, name) == Load(lang, tfs, dir, name)
  {
    hide Load;
    if d, name :| d in dirs && Load(lang, tfs, d, name).Ok? && Load(lang, tfs, d, name) != Load(lang, tfs, dir, name) {
      var c := map[name := Entry(Load(lang, tfs, d, name).value, 0, 1)];
      assert Faithful(lang, tfs, dirs, c) && name in c;
    }
  }

  lemma LoadsByName(lang: Language, tfs: TemplateFs, dir: string, name: string, source: string)
    requires Normal(true, [dir, name]) && Parses(lang, source, RENDER_FUNCTIONS)
    requires dir + "/" + name in tfs && tfs[dir + "/" + name] == File(source)
    ensures Load(lang, tfs, dir, name) == Ok(Parsed(name, source))
  {
    hide Normal, JoinPath, Parses;
    NamesJoin(dir, name);
  }

  /** Two directories with different templates of one name: after a look-up for the first one, the live entry answers a
      look-up for the second with the wrong template. */
  lemma WrongDirectoryAnswers(lang: Language, a: string, b: string, name: string, first: string, second: string,
                              ttl: int, now: int)
    requires Normal(true, [a, name]) && Normal(true, [b, name]) && a != b && first != second && ttl >= 0
    requires Parses(lang, first, RENDER_FUNCTIONS) && Parses(lang, second, RENDER_FUNCTIONS)
    ensures var tfs := map[a + "/" + name := File(first), b + "/" + name := File(second)];
            var c := map[name := Entry(Parsed(name, first), now, 1)];
            && Load(lang, tfs, a, name) == Ok(Parsed(name, first))
            && Load(lang, tfs, b, name) == Ok(Parsed(name, second))
            && TemplateCaching.Stored(map[], 100, name, Parsed(name, first), now, now, c)
            && Live(c, ttl, name, now) && Ok(c[name].template) != Load(lang, tfs, b, name)
  {
    hide Load, Parses, Normal;
    var tfs := map[a + "/" + name := File(first), b + "/" + name := File(second)];
    DifferentPaths(a, b, name);
    LoadsByName(lang, tfs, a, name, first);
    LoadsByName(lang, tfs, b, name, second);
    var c := map[name := Entry(Parsed(name, first), now, 1)];
    assert StoredOver(map[], map[], 100, name, Parsed(name, first), now, now, c);
  }

  lemma DifferentPaths(a: string, b: string, name: string)
    requires a != b
    ensures a + "/" + name != b + "/" + name
  {
    if |a| == |b| {
      assert a == (a + "/" + name)[..|a|] && b == (b + "/" + name)[..|b|];
    } else {
      assert |a + "/" + name| != |b + "/" + name|;
    }
  }

  class TemplateRenderer {
    const lang: Language
    var templateFs: TemplateFs
    const templateCache: TemplateCache<Parsed>
    const fileSystem: MemoryFileSystem
    const clock: Clock
    /** The templates directories of the look-ups since the template file system was last set. */
    ghost var dirsUsed: set<string>

    ghost predicate Valid()
      reads this, templateCache
    {
      Faithful(lang, templateFs, dirsUsed, templateCache.cache)
    }

    constructor (lang: Language, templateFs: TemplateFs, fileSystem: MemoryFileSystem, clock: Clock, ttl: int)
      ensures Valid() && dirsUsed == {} && this.lang == lang && this.templateFs == templateFs
      ensures this.fileSystem == fileSystem && this.clock == clock && fresh(templateCache)
      ensures templateCache.maxSize == 100 && templateCache.ttl == ttl
    {
      this.lang := lang;
      this.templateFs := templateFs;
      this.fileSystem := fileSystem;
      this.clock := clock;
      templateCache := new TemplateCache<Parsed>(100, ttl);
      dirsUsed := {};
    }

    method SetTemplateFS(fsys: TemplateFs)
      modifies this, templateCache
      ensures Valid() && templateFs == fsys && dirsUsed == {}
    {
      templateFs := fsys;
      templateCache.Clear();
      dirsUsed := {};
    }

    /** The result is what an uncached load returns, for the given directory or for another one used since the file
        system was set; with a single directory in use the cache cannot be noticed. */
    method GetTemplate(name: string, dir: string) returns (r: Result<Parsed, RenderError>)
      requires Valid()
      modifies this`dirsUsed, templateCache`cache, clock
      ensures Valid() && dirsUsed == old(dirsUsed) + {dir}
      ensures exists d | d in dirsUsed :: r == Load(lang, templateFs, d, name)
      ensures dirsUsed == {dir} ==> r == Load(lang, templateFs, dir, name)
    {
      hide Paths.Clean;
      ghost var before := templateCache.cache;
      dirsUsed := dirsUsed + {dir};
      var cached := templateCache.Get(name, clock);
      if cached.Some? {
        return Ok(cached.value);
      }
      var path := JoinPath(dir, name);
      if path !in templateFs || templateFs[path].Directory? {
        assert Load(lang, templateFs, dir, name) == Err(TemplateNotFound);
        return Err(TemplateNotFound);
      }
      var content := templateFs[path].content;
      if !Parses(lang, content, RENDER_FUNCTIONS) {
        assert Load(lang, templateFs, dir, name) == Err(TemplateUnparsable);
        return Err(TemplateUnparsable);
      }
      var parsed := Parsed(name, content);
      assert Faithful(lang, templateFs, dirsUsed, templateCache.cache);
      templateCache.Set(name, parsed, clock);
      ghost var t1 :| TemplateCaching.Stored(before, templateCache.maxSize, name, parsed, t1, clock.last,
          templateCache.cache);
      StoringStaysFaithful(lang, templateFs, dirsUsed, dir, before, templateCache.maxSize, name, parsed, t1, clock.last,
          templateCache.cache);
      r := Ok(parsed);
    }

    /** One of the three loops that fill the variables: the entries of `source` replace those of `base`. */
    static method Overlay(base: Vars, source: Vars) returns (vars: Vars)
      ensures vars == base + source
    {
      vars := base;
      var rest := source.Keys;
      while rest != {}
        invariant rest <= source.Keys
        invariant vars.Keys == base.Keys + (source.Keys - rest)
        invariant forall k | k in vars :: vars[k] == if k in source && k !in rest then source[k] else base[k]
      {
        var k :| k in rest;
        vars := vars[k := source[k]];
        rest := rest - {k};
      }
      assert vars.Keys == (base + source).Keys;
    }

    method PrepareRenderContext(recipe: Recipe, file: FileEntry, options: Options) returns (data: RenderData)
      ensures data == RenderData(recipe.vars + options.vars + file.overrides, file, recipe)
    {
      var vars := Overlay(map[], recipe.vars);
      assert map[] + recipe.vars == recipe.vars;
      vars := Overlay(vars, options.vars);
      vars := Overlay(vars, file.overrides);
      data := RenderData(vars, file, recipe);
    }

    method RenderTemplate(name: string, data: RenderData, ctx: Context, poll: nat)
      returns (r: Result<string, RenderError>, ghost load: Result<Parsed, RenderError>)
      requires Valid()
      modifies this`dirsUsed, templateCache`cache, clock
      ensures Valid() && old(dirsUsed) <= dirsUsed <= old(dirsUsed) + {data.recipe.templatesDir}
      ensures exists d | d in old(dirsUsed) + {data.recipe.templatesDir} :: load == Load(lang, templateFs, d, name)
      ensures old(dirsUsed) <= {data.recipe.templatesDir} ==>
          load == Load(lang, templateFs, data.recipe.templatesDir, name)
      ensures r == if ctx.Done(poll) then Err(Cancelled)
                   else match load
                     case Err(e) => Err(e)
                     case Ok(t) => match lang.exec(t, data) case None => Err(ExecutionFailed)
                         case Some(content) => Ok(content)
    {
      if ctx.Done(poll) {
        load := Load(lang, templateFs, data.recipe.templatesDir, name);
        return Err(Cancelled), load;
      }
      var tmpl := GetTemplate(name, data.recipe.templatesDir);
      load := tmpl;
      if tmpl.Err? {
        return Err(tmpl.error), load;
      }
      var content := lang.exec(tmpl.value, data);
      r := if content.None? then Err(ExecutionFailed) else Ok(content.value);
    }

    method FileExists(path: string) returns (found: bool)
      ensures found <==> fileSystem.Contents().Has(path)
    {
      var info := fileSystem.Stat(path);
      found := info.Some?;
    }

    method WriteFile(path: string, content: string, ctx: Context, poll: nat) returns (error: Option<RenderError>)
      modifies fileSystem
      ensures var fs := old(fileSystem.Contents());
              if ctx.Done(poll) then error == Some(Cancelled) && fileSystem.Contents() == fs
              else if Clean(path) in fs.files then error == Some(WriteFailed) &&
                  fileSystem.Contents() == Made(fs, Dir(path))
              else error == None && fileSystem.Contents() == Rendering.Stored(fs, path, content)
    {
      hide Paths.Clean, Paths.Dir;
      if ctx.Done(poll) {
        return Some(Cancelled);
      }
      fileSystem.MkdirAll(Dir(path));
      var ok := fileSystem.WriteFile(path, content);
      error := if ok then None else Some(WriteFailed);
    }

    /** A run is `Render` on some template look-ups; each of them returned what an uncached load returns, in the
        recipe's directory or in one the renderer was used with since its template file system was set. */
    method RenderRecipe(recipe: Recipe, options: Options, ctx: Context)
      returns (stats: Stats, error: Option<RenderError>, ghost loads: seq<Result<Parsed, RenderError>>)
      requires Valid()
      modifies this`dirsUsed, templateCache`cache, clock, fileSystem
      ensures Valid() && old(dirsUsed) <= dirsUsed <= old(dirsUsed) + {recipe.templatesDir}
      ensures LoadedFrom(lang, templateFs, old(dirsUsed) + {recipe.templatesDir}, recipe.files, loads)
      ensures Outcome(fileSystem.Contents(), stats, error) ==
          Render(Job(lang, recipe, options, ctx, loads), old(fileSystem.Contents()))
    {
      hide Paths.Clean, Paths.Dir, Load, FreshLoads, RenderEntry, RenderFrom, RunTo, LoadedFrom, Faithful, Fs.Has,
          Render, Job.Attempt, Job.Data, TemplateNames;
      ghost var fs0 := fileSystem.Contents();
      ghost var tfs := templateFs;
      ghost var dirs := dirsUsed + {recipe.templatesDir};
      loads := FreshLoads(lang, tfs, recipe);
      FreshLoadsAreLoads(lang, tfs, dirs, recipe);
      stats := Stats(0, 0, 0, |recipe.files|, 0);
      error := None;
      var templatesUsed: set<string> := {};
      var i := 0;
      NoTemplateNames(recipe.files);
      RunStarts(Job(lang, recipe, options, ctx, loads), fs0);
      while i < |recipe.files|
        invariant 0 <= i <= |recipe.files| == |loads|
        invariant Valid() && old(dirsUsed) <= dirsUsed <= dirs && templateFs == tfs
        invariant templatesUsed == TemplateNames(recipe.files[..i])
        invariant LoadedFrom(lang, tfs, dirs, recipe.files, loads)
        invariant RunTo(Job(lang, recipe, options, ctx, loads), fs0, i) == Continue(fileSystem.Contents(), stats)
      {
        var file := recipe.files[i];
        ghost var job := Job(lang, recipe, options, ctx, loads);
        ghost var fs := fileSystem.Contents();
        RunSteps(job, fs0, i, fs, stats);
        if ctx.Done(3 * i) {
          EntryCancelled(job, i, fs, stats);
          return stats, Some(Cancelled), loads;
        }
        templatesUsed := templatesUsed + {file.template};
        TemplateNamesGrow(recipe.files, i);
        var data := PrepareRenderContext(recipe, file, options);
        var present := FileExists(file.path);
        if present && !options.overwrite {
          EntrySkipped(job, i, fs, stats);
          stats := stats.(skipped := stats.skipped + 1);
          i := i + 1;
          continue;
        }
        var content, load := RenderTemplate(file.template, data, ctx, 3 * i + 1);
        Reloaded(lang, tfs, dirs, recipe.files, loads, i, load);
        RunToUsesPrefix(job, loads[i := load], fs0, i);
        loads := loads[i := load];
        job := Job(lang, recipe, options, ctx, loads);
        RunSteps(job, fs0, i, fs, stats);
        AttemptIs(job, i, data, content);
        EntryRendered(job, i, fs, stats);
        if content.Err? {
          stats := stats.(failed := stats.failed + 1);
          if options.dry {
            i := i + 1;
            continue;
          }
          return stats, Some(content.error), loads;
        }
        if !options.dry {
          var writeError := WriteFile(file.path, content.value, ctx, 3 * i + 2);
          if writeError.Some? {
            stats := stats.(failed := stats.failed + 1);
            return stats, writeError, loads;
          }
        }
        stats := stats.(generated := stats.generated + 1);
        i := i + 1;
      }
      assert recipe.files[..i] == recipe.files;
      CompletedRun(Job(lang, recipe, options, ctx, loads), fs0, fileSystem.Contents(), stats);
      stats := stats.(templatesParsed := |templatesUsed|);
    }
  }

  // The loop body's cases, one by one.

  lemma EntryCancelled(job: Job, i: nat, fs: Fs, stats: Stats)
    requires job.Valid() && i < |job.recipe.files| && job.ctx.Done(3 * i)
    ensures RenderEntry(job, i, fs, stats) == Stop(Outcome(fs, stats, Some(Cancelled)))
  {
  }

  lemma EntrySkipped(job: Job, i: nat, fs: Fs, stats: Stats)
    requires job.Valid() && i < |job.recipe.files| && !job.ctx.Done(3 * i)
    requires fs.Has(job.recipe.files[i].path) && !job.options.overwrite
    ensures RenderEntry(job, i, fs, stats) == Continue(fs, stats.(skipped := stats.skipped + 1))
  {
  }

  lemma AttemptIs(job: Job, i: nat, data: RenderData, content: Result<string, RenderError>)
    requires job.Valid() && i < |job.recipe.files|
    requires data == RenderData(job.recipe.vars + job.options.vars + job.recipe.files[i].overrides, job.recipe.files[i],
        job.recipe)
    requires content == if job.ctx.Done(3 * i + 1) then Err(Cancelled)
                        else match job.loads[i]
                          case Err(e) => Err(e)
                          case Ok(t) => match job.lang.exec(t, data) case None => Err(ExecutionFailed)
                              case Some(text) => Ok(text)
    ensures job.Attempt(i) == content
  {
  }

  lemma EntryRendered(job: Job, i: nat, fs: Fs, stats: Stats)
    requires job.Valid() && i < |job.recipe.files| && !job.ctx.Done(3 * i)
    requires !fs.Has(job.recipe.files[i].path) || job.options.overwrite
    ensures var path := job.recipe.files[i].path;
            var failed, generated := stats.(failed := stats.failed + 1), stats.(generated := stats.generated + 1);
            RenderEntry(job, i, fs, stats) ==
              match job.Attempt(i)
              case Err(e) => if job.options.dry then Continue(fs, failed) else Stop(Outcome(fs, failed, Some(e)))
              case Ok(content) =>
                if job.options.dry then Continue(fs, generated)
                else if job.ctx.Done(3 * i + 2) then Stop(Outcome(fs, failed, Some(Cancelled)))
                else if Clean(path) in fs.files then Stop(Outcome(Made(fs, Dir(path)), failed, Some(WriteFailed)))
                else Continue(Rendering.Stored(fs, path, content), generated)
  {
  }

  lemma RunStarts(job: Job, fs: Fs)
    requires job.Valid()
    ensures RunTo(job, fs, 0) == Continue(fs, Stats(0, 0, 0, |job.recipe.files|, 0))
  {
  }

  lemma RunSteps(job: Job, fs0: Fs, i: nat, fs: Fs, stats: Stats)
    requires job.Valid() && i < |job.recipe.files| && RunTo(job, fs0, i) == Continue(fs, stats)
    ensures RunTo(job, fs0, i + 1) == RenderEntry(job, i, fs, stats)
    ensures RenderEntry(job, i, fs, stats).Stop? ==> Render(job, fs0) == RenderEntry(job, i, fs, stats).outcome
  {
    hide RenderEntry, RenderFrom;
    RunToThenFrom(job, fs0, i + 1);
  }

  lemma CompletedRun(job: Job, fs0: Fs, fs: Fs, stats: Stats)
    requires job.Valid() && RunTo(job, fs0, |job.recipe.files|) == Continue(fs, stats)
    ensures Render(job, fs0) == Outcome(fs, stats.(templatesParsed := |TemplateNames(job.recipe.files)|), None)
  {
    RunToThenFrom(job, fs0, |job.recipe.files|);
  }

  lemma NoTemplateNames(files: seq<FileEntry>)
    ensures TemplateNames(files[..0]) == {}
  {
  }

  lemma TemplateNamesGrow(files: seq<FileEntry>, i: nat)
    requires i < |files|
    ensures TemplateNames(files[..i + 1]) == TemplateNames(files[..i]) + {files[i].template}
  {
    assert files[..i + 1] == files[..i] + [files[i]];
  }

  lemma FreshLoadsAreLoads(lang: Language, tfs: TemplateFs, dirs: set<string>, recipe: Recipe)
    requires recipe.templatesDir in dirs
    ensures LoadedFrom(lang, tfs, dirs, recipe.files, FreshLoads(lang, tfs, recipe))
    ensures |FreshLoads(lang, tfs, recipe)| == |recipe.files|
  {
    hide Load;
    var loads := FreshLoads(lang, tfs, recipe);
    assert forall i | 0 <= i < |loads| :: loads[i] == Load(lang, tfs, recipe.templatesDir, recipe.files[i].template);
  }

  /** With a single templates directory the cache is transparent: a run's look-ups are those without a cache. */
  lemma OneDirectoryIsTransparent(lang: Language, tfs: TemplateFs, recipe: Recipe,
      loads: seq<Result<Parsed, RenderError>>)
    ensures LoadedFrom(lang, tfs, {recipe.templatesDir}, recipe.files, loads) <==>
        loads == FreshLoads(lang, tfs, recipe)
  {
    hide Load;
    if LoadedFrom(lang, tfs, {recipe.templatesDir}, recipe.files, loads) {
      forall i | 0 <= i < |loads| ensures loads[i] == Load(lang, tfs, recipe.templatesDir, recipe.files[i].template) {
        var d :| d in {recipe.templatesDir} && loads[i] == Load(lang, tfs, d, recipe.files[i].template);
      }
    }
    FreshLoadsAreLoads(lang, tfs, {recipe.templatesDir}, recipe);
  }
}
