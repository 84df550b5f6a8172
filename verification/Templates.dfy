/** Recipes, template file systems and what it takes to parse a template. */
module Templates {
  import opened Outcomes
  import opened Paths

  /** A variable's value; what it is matters only to the template that uses it. */
  datatype Value = Null | Flag(flag: bool) | Number(number: int) | Str(text: string) | List(items: seq<Value>)

  type Vars = map<string, Value>

  datatype FileEntry = FileEntry(path: string, template: string, overrides: Vars)

  datatype Recipe = Recipe(scaffoldVersion: string, templatesDir: string, vars: Vars, files: seq<FileEntry>)

  datatype Node = File(content: string) | Directory

  type TemplateFs = map<string, Node>

  datatype Options = Options(templatesFs: Option<TemplateFs>, dry: bool, overwrite: bool, vars: Vars)

  datatype Parsed = Parsed(name: string, source: string)

  /** What a template is executed on. */
  datatype RenderData = RenderData(vars: Vars, file: FileEntry, recipe: Recipe)

  /** The template language: the functions a source calls (None when its syntax is wrong), and execution, which may
      fail. Both depend on their arguments only, which leaves out the clock and the order in which "toYAML" lists a
      map. */
  datatype Language = Language(calls: string -> Option<set<string>>, exec: (Parsed, RenderData) -> Option<string>)

  const BUILTINS: set<string> := {
    "and", "break", "call", "continue", "eq", "ge", "gt", "html", "index", "js", "le", "len", "lt", "ne", "not", "or",
    "print", "printf", "println", "slice", "urlquery"
  }

  /** The functions the renderer offers to templates. */
  const RENDER_FUNCTIONS: set<string> := {
    "upper", "lower", "title", "trim", "default", "join", "isEmpty", "not", "isString", "isMap", "isList",
    "pathBase", "pathDir", "pathExt", "pathJoin", "pathClean", "now", "date", "dateISO", "campaignHash", "quote",
    "indent", "toYAML", "toJSON"
  }

  /** The functions the validator knows. */
  const VALIDATION_FUNCTIONS: set<string> := {"default"}

  /** Parsing needs correct syntax and a definition for every function called. */
  predicate Parses(lang: Language, source: string, functions: set<string>) {
    lang.calls(source).Some? && lang.calls(source).value <= functions + BUILTINS
  }

  datatype RenderError =
    Cancelled | TemplateNotFound | TemplateUnparsable | ExecutionFailed | WriteFailed | ValidationFailed

  /** Reading and parsing a template afresh, with no cache in between. */
  function Load(lang: Language, tfs: TemplateFs, dir: string, name: string): Result<Parsed, RenderError> {
    var path := JoinPath(dir, name);
    if path !in tfs || tfs[path].Directory? then Err(TemplateNotFound)
    else if !Parses(lang, tfs[path].content, RENDER_FUNCTIONS) then Err(TemplateUnparsable)
    else Ok(Parsed(name, tfs[path].content))
  }

  /** What the look-ups of a recipe's templates return when every template is loaded afresh. */
  function FreshLoads(lang: Language, tfs: TemplateFs, recipe: Recipe): seq<Result<Parsed, RenderError>> {
    seq(|recipe.files|, i requires 0 <= i < |recipe.files| => Load(lang, tfs, recipe.templatesDir,
        recipe.files[i].template))
  }
}
