/** The semantic validator of recipes, and why what passes it never fails for want of a template. */
module Validation {
  import opened Outcomes
  import opened Text
  import opened Paths
  import opened MemoryFs
  import opened Templates
  import opened Rendering

  datatype Issue =
    TemplateMissing(index: nat) | TemplateUnreadable(name: string) | TemplateSyntax(name: string) | ValidationCancelled
  | BadVersion | BadDirectoryCharacters | DirectoryTraversal

  /** The check of one template's text, done once per template name. */
  function SyntaxIssues(lang: Language, tfs: TemplateFs, path: string, name: string): seq<Issue>
    requires path in tfs
  {
    if tfs[path].Directory? then [TemplateUnreadable(name)]
    else if !Parses(lang, tfs[path].content, VALIDATION_FUNCTIONS) then [TemplateSyntax(name)]
    else []
  }

  /** The issues with the templates of the entries from `i` on, when the names in `seen` have been checked already. */
  function TemplateIssues(lang: Language, tfs: TemplateFs, recipe: Recipe, ctx: Context, i: nat,
      seen: set<string>): seq<Issue>
    requires i <= |recipe.files|
    decreases |recipe.files| - i
  {
    if i == |recipe.files| then []
    else if ctx.Done(i) then [ValidationCancelled]
    else
      var name := recipe.files[i].template;
      var path := JoinPath(recipe.templatesDir, name);
      if path !in tfs then [TemplateMissing(i)] + TemplateIssues(lang, tfs, recipe, ctx, i + 1, seen)
      else if name in seen then TemplateIssues(lang, tfs, recipe, ctx, i + 1, seen)
      else SyntaxIssues(lang, tfs, path, name) + TemplateIssues(lang, tfs, recipe, ctx, i + 1, seen + {name})
  }

  /** A template that is there, is a file, and parses with the validator's functions. */
  predicate Passes(lang: Language, tfs: TemplateFs, dir: string, name: string) {
    var path := JoinPath(dir, name);
    path in tfs && tfs[path].File? && Parses(lang, tfs[path].content, VALIDATION_FUNCTIONS)
  }

  lemma {:induction false} IssuesFrom(lang: Language, tfs: TemplateFs, recipe: Recipe, ctx: Context, i: nat,
      seen: set<string>)
    requires i <= |recipe.files| && forall name | name in seen :: Passes(lang, tfs, recipe.templatesDir, name)
    ensures TemplateIssues(lang, tfs, recipe, ctx, i, seen) == [] <==>
            forall j | i <= j < |recipe.files| ::
                !ctx.Done(j) && Passes(lang, tfs, recipe.templatesDir, recipe.files[j].template)
    decreases |recipe.files| - i
  {
    hide JoinPath, Parses;
    if i < |recipe.files| {
      var name := recipe.files[i].template;
      if Passes(lang, tfs, recipe.templatesDir, name) {
        IssuesFrom(lang, tfs, recipe, ctx, i + 1, if name in seen then seen else seen + {name});
      }
    }
  }

  /** Checking templates finds no issue exactly when it was not cancelled and every entry's template passes, though each
      name is parsed only once. */
  lemma TemplatesCheckedExactly(lang: Language, tfs: TemplateFs, recipe: Recipe, ctx: Context)
    ensures TemplateIssues(lang, tfs, recipe, ctx, 0, {}) == [] <==>
            forall j | 0 <= j < |recipe.files| ::
                !ctx.Done(j) && Passes(lang, tfs, recipe.templatesDir, recipe.files[j].template)
  {
    IssuesFrom(lang, tfs, recipe, ctx, 0, {});
  }

  /** What passes the validator loads, because the renderer knows every function the validator knows. */
  lemma PassingTemplatesLoad(lang: Language, tfs: TemplateFs, dir: string, name: string)
    requires Passes(lang, tfs, dir, name)
    ensures Load(lang, tfs, dir, name).Ok?
  {
    hide JoinPath;
    assert VALIDATION_FUNCTIONS <= RENDER_FUNCTIONS;
  }

  /** The validator is stricter than the renderer: a template loads and yet does not pass exactly when it calls one
      of the renderer's own functions other than "default". */
  lemma LoadableButRejected(lang: Language, tfs: TemplateFs, dir: string, name: string)
    requires Load(lang, tfs, dir, name).Ok?
    ensures !Passes(lang, tfs, dir, name) <==>
            exists f :: f in lang.calls(tfs[JoinPath(dir, name)].content).value &&
                f in RENDER_FUNCTIONS - BUILTINS - {"default"}
  {
    hide JoinPath;
    var called := lang.calls(tfs[JoinPath(dir, name)].content).value;
    if !Passes(lang, tfs, dir, name) {
      var f :| f in called && f !in VALIDATION_FUNCTIONS + BUILTINS;
      assert f in RENDER_FUNCTIONS - BUILTINS - {"default"};
    }
  }

  /** A run whose look-ups all succeed never fails for want of a template, at whatever entry it stops. */
  lemma {:induction false} NoTemplateErrors(job: Job, i: nat, fs: Fs, stats: Stats)
    requires job.Valid() && i <= |job.recipe.files| && forall k | 0 <= k < |job.loads| :: job.loads[k].Ok?
    ensures RenderFrom(job, i, fs, stats).error !in {Some(TemplateNotFound), Some(TemplateUnparsable)}
    decreases |job.recipe.files| - i
  {
    hide Clean, Dir, Fs.Has, Stored, Job.Data;
    if i < |job.recipe.files| {
      match RenderEntry(job, i, fs, stats)
      case Stop(_) =>
      case Continue(fs', stats') => NoTemplateErrors(job, i + 1, fs', stats');
    }
  }

  /** Validation is sound for rendering: a recipe whose templates were checked on a template file system, rendered with
      uncached loads from that file system, never fails because a template is missing or unparsable. */
  lemma ValidationIsSound(job: Job, tfs: TemplateFs, checkCtx: Context, fs: Fs)
    requires TemplateIssues(job.lang, tfs, job.recipe, checkCtx, 0, {}) == []
    requires job.loads == FreshLoads(job.lang, tfs, job.recipe)
    ensures Render(job, fs).error !in {Some(TemplateNotFound), Some(TemplateUnparsable)}
    ensures forall i | 0 <= i < |job.loads| :: job.loads[i].Ok?
  {
    hide RenderFrom, Load, Passes;
    TemplatesCheckedExactly(job.lang, tfs, job.recipe, checkCtx);
    forall i | 0 <= i < |job.loads| ensures job.loads[i].Ok? {
      PassingTemplatesLoad(job.lang, tfs, job.recipe.templatesDir, job.recipe.files[i].template);
    }
    NoTemplateErrors(job, 0, fs, Start(job));
  }

  const FORBIDDEN_CHARACTERS: string := "<>:\"|?*"

  function DirectoryIssues(dir: string): seq<Issue> {
    (if exists i | 0 <= i < |dir| :: dir[i] in FORBIDDEN_CHARACTERS then [BadDirectoryCharacters] else [])
    + (if Contains(dir, "..") then [DirectoryTraversal] else [])
  }

  /** All issues with a recipe. Without a template file system the templates are not checked. `semantic` decides
      whether a version text is a semantic version. */
  function Issues(lang: Language, semantic: string -> bool, tfs: Option<TemplateFs>, recipe: Recipe,
      ctx: Context): seq<Issue> {
    (if tfs.None? then [] else TemplateIssues(lang, tfs.value, recipe, ctx, 0, {}))
    + (if recipe.scaffoldVersion == "" || !semantic(recipe.scaffoldVersion) then [BadVersion] else [])
    + DirectoryIssues(recipe.templatesDir)
  }

  class SemanticValidator {
    const lang: Language
    const semantic: string -> bool
    var templateFs: Option<TemplateFs>

    constructor (lang: Language, semantic: string -> bool)
      ensures this.lang == lang && this.semantic == semantic && templateFs == None
    {
      this.lang := lang;
      this.semantic := semantic;
      templateFs := None;
    }

    method SetTemplateFS(fsys: TemplateFs)
      modifies this
      ensures templateFs == Some(fsys)
    {
      templateFs := Some(fsys);
    }

    method CheckTemplates(recipe: Recipe, ctx: Context) returns (errors: seq<Issue>)
      ensures errors == if templateFs.None? then [] else TemplateIssues(lang, templateFs.value, recipe, ctx, 0, {})
    {
      hide JoinPath;
      errors := [];
      if templateFs.None? {
        return;
      }
      var tfs := templateFs.value;
      ghost var all := TemplateIssues(lang, tfs, recipe, ctx, 0, {});
      var templatesSeen: set<string> := {};
      var i := 0;
      while i < |recipe.files|
        invariant 0 <= i <= |recipe.files|
        invariant errors + TemplateIssues(lang, tfs, recipe, ctx, i, templatesSeen) == all
      {
        if ctx.Done(i) {
          return errors + [ValidationCancelled];
        }
        var file := recipe.files[i];
        var templatePath := JoinPath(recipe.templatesDir, file.template);
        if templatePath !in tfs {
          errors := errors + [TemplateMissing(i)];
        } else if file.template !in templatesSeen {
          templatesSeen := templatesSeen + {file.template};
          errors := errors + SyntaxIssues(lang, tfs, templatePath, file.template);
        }
        i := i + 1;
      }
    }

    method Validate(recipe: Recipe, ctx: Context) returns (errors: seq<Issue>)
      ensures errors == Issues(lang, semantic, templateFs, recipe, ctx)
    {
      errors := CheckTemplates(recipe, ctx);
      if recipe.scaffoldVersion == "" || !semantic(recipe.scaffoldVersion) {
        errors := errors + [BadVersion];
      }
      errors := errors + DirectoryIssues(recipe.templatesDir);
    }
  }
}
