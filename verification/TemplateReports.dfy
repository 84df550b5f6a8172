/** What loading and validating report, template by template. */
module TemplateReports {
  import opened Outcomes
  import opened Text
  import opened Paths
  import opened Templates
  import opened Validation

  /** Loading fails as not found exactly when the path is no file, and as unparsable exactly when the file is wrong
      or calls a function that is neither offered nor built in; otherwise it yields the file's text under the
      template's name. */
  lemma LoadsExactly(lang: Language, tfs: TemplateFs, dir: string, name: string)
    ensures var path := JoinPath(dir, name);
            var isFile := path in tfs && tfs[path].File?;
            && (Load(lang, tfs, dir, name) == Err(TemplateNotFound) <==> !isFile)
            && (Load(lang, tfs, dir, name) == Err(TemplateUnparsable) <==>
                  isFile && (lang.calls(tfs[path].content) == None
                             || exists f ::
                                 f in lang.calls(tfs[path].content).value && f !in RENDER_FUNCTIONS && f !in BUILTINS))
            && (Load(lang, tfs, dir, name).Ok? ==> Load(lang, tfs, dir, name).value == Parsed(name, tfs[path].content))
  {
    hide JoinPath;
  }

  /** A text the validator cannot parse. */
  predicate Wrong(lang: Language, source: string) {
    lang.calls(source) == None || exists f :: f in lang.calls(source).value && f != "default" && f !in BUILTINS
  }

  /** Some entry from `i` on names the template and is looked at. */
  predicate LookedAt(recipe: Recipe, ctx: Context, i: nat, name: string)
    requires i <= |recipe.files|
  {
    exists k | i <= k < |recipe.files| :: recipe.files[k].template == name && !ctx.Done(k)
  }

  predicate Missing(tfs: TemplateFs, recipe: Recipe, ctx: Context, k: nat) {
    k < |recipe.files| && !ctx.Done(k) && JoinPath(recipe.templatesDir, recipe.files[k].template) !in tfs
  }

  predicate IsDirectory(tfs: TemplateFs, recipe: Recipe, name: string) {
    var path := JoinPath(recipe.templatesDir, name);
    path in tfs && tfs[path].Directory?
  }

  predicate IsWrong(lang: Language, tfs: TemplateFs, recipe: Recipe, name: string) {
    var path := JoinPath(recipe.templatesDir, name);
    path in tfs && tfs[path].File? && Wrong(lang, tfs[path].content)
  }

  predicate CancelledFrom(recipe: Recipe, ctx: Context, i: nat) {
    exists k :: i <= k < |recipe.files| && ctx.Done(k)
  }

  /** The issue is reported for the entries from `i` on, when the names in `seen` were checked before. */
  predicate Reported(lang: Language, tfs: TemplateFs, recipe: Recipe, ctx: Context, i: nat, seen: set<string>, e: Issue)
    requires i <= |recipe.files|
  {
    match e
    case TemplateMissing(k) => i <= k && Missing(tfs, recipe, ctx, k)
    case TemplateUnreadable(name) => name !in seen && LookedAt(recipe, ctx, i, name) && IsDirectory(tfs, recipe, name)
    case TemplateSyntax(name) => name !in seen && LookedAt(recipe, ctx, i, name) && IsWrong(lang, tfs, recipe, name)
    case ValidationCancelled => CancelledFrom(recipe, ctx, i)
    case _ => false
  }

  function Once(condition: bool): nat {
    if condition then 1 else 0
  }

  lemma WrongDoesNotParse(lang: Language, source: string)
    ensures Wrong(lang, source) <==> !Parses(lang, source, VALIDATION_FUNCTIONS)
  {
  }

  lemma CountedIn(front: seq<Issue>, back: seq<Issue>, e: Issue)
    ensures multiset(front + back)[e] == multiset(front)[e] + multiset(back)[e]
  {
  }

  lemma LookedAtNext(recipe: Recipe, ctx: Context, i: nat, name: string)
    requires i < |recipe.files|
    ensures LookedAt(recipe, ctx, i, name) <==>
            (recipe.files[i].template == name && !ctx.Done(i)) || LookedAt(recipe, ctx, i + 1, name)
  {
  }

  /** The issues of entry `i` alone. */
  function IssuesAt(lang: Language, tfs: TemplateFs, recipe: Recipe, i: nat, seen: set<string>): seq<Issue>
    requires i < |recipe.files|
  {
    var name := recipe.files[i].template;
    var path := JoinPath(recipe.templatesDir, name);
    if path !in tfs then [TemplateMissing(i)]
    else if name in seen then []
    else if tfs[path].Directory? then [TemplateUnreadable(name)]
    else if Wrong(lang, tfs[path].content) then [TemplateSyntax(name)]
    else []
  }

  function SeenAfter(tfs: TemplateFs, recipe: Recipe, i: nat, seen: set<string>): set<string>
    requires i < |recipe.files|
  {
    var name := recipe.files[i].template;
    if JoinPath(recipe.templatesDir, name) in tfs then seen + {name} else seen
  }

  lemma IssuesNext(lang: Language, tfs: TemplateFs, recipe: Recipe, ctx: Context, i: nat, seen: set<string>)
    requires i < |recipe.files| && !ctx.Done(i)
    ensures TemplateIssues(lang, tfs, recipe, ctx, i, seen) ==
            IssuesAt(lang, tfs, recipe, i, seen)
            + TemplateIssues(lang, tfs, recipe, ctx, i + 1, SeenAfter(tfs, recipe, i, seen))
  {
    hide JoinPath, Parses, Wrong;
    var name := recipe.files[i].template;
    var path := JoinPath(recipe.templatesDir, name);
    if path in tfs {
      if tfs[path].File? {
        WrongDoesNotParse(lang, tfs[path].content);
      }
      assert name in seen ==> seen + {name} == seen;
    }
  }

  lemma ReportedNext(lang: Language, tfs: TemplateFs, recipe: Recipe, ctx: Context, i: nat, seen: set<string>, e: Issue)
    requires i < |recipe.files| && !ctx.Done(i)
    ensures Once(Reported(lang, tfs, recipe, ctx, i, seen, e)) ==
            Once(e in IssuesAt(lang, tfs, recipe, i, seen))
            + Once(Reported(lang, tfs, recipe, ctx, i + 1, SeenAfter(tfs, recipe, i, seen), e))
  {
    hide JoinPath, Wrong, LookedAt;
    if e.TemplateUnreadable? {
      LookedAtNext(recipe, ctx, i, e.name);
    } else if e.TemplateSyntax? {
      LookedAtNext(recipe, ctx, i, e.name);
    }
  }

  lemma IssuesAtOnce(lang: Language, tfs: TemplateFs, recipe: Recipe, i: nat, seen: set<string>, e: Issue)
    requires i < |recipe.files|
    ensures multiset(IssuesAt(lang, tfs, recipe, i, seen))[e] == if e in IssuesAt(lang, tfs, recipe, i, seen) then 1
        else 0
  {
    hide JoinPath, Wrong;
  }

  lemma CancelledReports(lang: Language, tfs: TemplateFs, recipe: Recipe, ctx: Context, i: nat, seen: set<string>,
      e: Issue)
    requires i < |recipe.files| && ctx.Done(i)
    ensures multiset(TemplateIssues(lang, tfs, recipe, ctx, i, seen))[e] ==
        Once(Reported(lang, tfs, recipe, ctx, i, seen, e))
  {
    hide JoinPath, Wrong;
    assert TemplateIssues(lang, tfs, recipe, ctx, i, seen) == [ValidationCancelled];
    assert forall k | i <= k < |recipe.files| :: ctx.Done(k);
  }

  lemma {:induction false} IssuesReported(lang: Language, tfs: TemplateFs, recipe: Recipe, ctx: Context, i: nat,
                                          seen: set<string>, e: Issue)
    requires i <= |recipe.files|
    ensures multiset(TemplateIssues(lang, tfs, recipe, ctx, i, seen))[e] ==
        Once(Reported(lang, tfs, recipe, ctx, i, seen, e))
    decreases |recipe.files| - i
  {
    if i == |recipe.files| {
      assert TemplateIssues(lang, tfs, recipe, ctx, i, seen) == [];
    } else if ctx.Done(i) {
      CancelledReports(lang, tfs, recipe, ctx, i, seen, e);
    } else {
      hide TemplateIssues, Reported, IssuesAt, SeenAfter;
      var rest := SeenAfter(tfs, recipe, i, seen);
      IssuesNext(lang, tfs, recipe, ctx, i, seen);
      ReportedNext(lang, tfs, recipe, ctx, i, seen, e);
      IssuesAtOnce(lang, tfs, recipe, i, seen, e);
      CountedIn(IssuesAt(lang, tfs, recipe, i, seen), TemplateIssues(lang, tfs, recipe, ctx, i + 1, rest), e);
      IssuesReported(lang, tfs, recipe, ctx, i + 1, rest, e);
    }
  }

  /** The check of the templates reports each entry whose template is missing, each name that is a directory, each
      name whose text is wrong, and a cancellation, once each, and nothing else; of the entries from the cancellation
      on, nothing. */
  lemma TemplateIssuesExactly(lang: Language, tfs: TemplateFs, recipe: Recipe, ctx: Context, k: nat, name: string)
    ensures var times := multiset(TemplateIssues(lang, tfs, recipe, ctx, 0, {}));
            && times[TemplateMissing(k)] == Once(Missing(tfs, recipe, ctx, k))
            && times[TemplateUnreadable(name)] == Once(LookedAt(recipe, ctx, 0, name) && IsDirectory(tfs, recipe, name))
            && times[TemplateSyntax(name)] == Once(LookedAt(recipe, ctx, 0, name) && IsWrong(lang, tfs, recipe, name))
            && times[ValidationCancelled] == Once(CancelledFrom(recipe, ctx, 0))
            && times[BadVersion] == times[BadDirectoryCharacters] == times[DirectoryTraversal] == 0
  {
    hide Missing, LookedAt, IsDirectory, IsWrong, CancelledFrom, TemplateIssues;
    IssuesReported(lang, tfs, recipe, ctx, 0, {}, TemplateMissing(k));
    IssuesReported(lang, tfs, recipe, ctx, 0, {}, TemplateUnreadable(name));
    IssuesReported(lang, tfs, recipe, ctx, 0, {}, TemplateSyntax(name));
    IssuesReported(lang, tfs, recipe, ctx, 0, {}, ValidationCancelled);
    IssuesReported(lang, tfs, recipe, ctx, 0, {}, BadVersion);
    IssuesReported(lang, tfs, recipe, ctx, 0, {}, BadDirectoryCharacters);
    IssuesReported(lang, tfs, recipe, ctx, 0, {}, DirectoryTraversal);
  }

  /** The other issues: a version that is missing or no semantic version, a templates directory with one of the
      characters < > : " | ? *, and one that holds two dots in a row. */
  lemma OtherIssuesExactly(lang: Language, semantic: string -> bool, tfs: Option<TemplateFs>, recipe: Recipe,
      ctx: Context)
    ensures var issues, dir := Issues(lang, semantic, tfs, recipe, ctx), recipe.templatesDir;
            && (BadVersion in issues <==> recipe.scaffoldVersion == "" || !semantic(recipe.scaffoldVersion))
            && (BadDirectoryCharacters in issues <==>
                  '<' in dir || '>' in dir || ':' in dir || '"' in dir || '|' in dir || '?' in dir || '*' in dir)
            && (DirectoryTraversal in issues <==> exists k :: OccursAt(dir, "..", k))
            && (forall e | e in issues && e !in {BadVersion, BadDirectoryCharacters, DirectoryTraversal} ::
                  tfs.Some? && e in TemplateIssues(lang, tfs.value, recipe, ctx, 0, {}))
  {
    hide TemplateIssues, Contains;
    if tfs.Some? {
      forall e | e in {BadVersion, BadDirectoryCharacters, DirectoryTraversal}
        ensures e !in TemplateIssues(lang, tfs.value, recipe, ctx, 0, {})
      {
        TemplateIssuesExactly(lang, tfs.value, recipe, ctx, 0, "");
        assert e !in multiset(TemplateIssues(lang, tfs.value, recipe, ctx, 0, {}));
      }
    }
    ForbiddenIn(recipe.templatesDir);
    DotsIn(recipe.templatesDir);
  }

  lemma ForbiddenIn(dir: string)
    ensures (exists i | 0 <= i < |dir| :: dir[i] in FORBIDDEN_CHARACTERS) <==>
            '<' in dir || '>' in dir || ':' in dir || '"' in dir || '|' in dir || '?' in dir || '*' in dir
  {
    assert forall c :: c in FORBIDDEN_CHARACTERS <==> c in {'<', '>', ':', '"', '|', '?', '*'};
  }

  lemma DotsIn(dir: string)
    ensures Contains(dir, "..") <==> exists k :: OccursAt(dir, "..", k)
  {
    IndexOfIsLeftmost(dir, "..");
  }
}
