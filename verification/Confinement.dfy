/** The confinement check of the on-disk file system: which relative paths it accepts and where they land. */
module Confinement {
  import opened Outcomes
  import opened Text
  import opened Paths

  datatype PathError = TraversalNotAllowed | AbsoluteNotAllowed | EscapesBase

  /** The base directory as the constructor leaves it: empty, or absolute and clean. */
  predicate CleanBase(base: string) {
    base == "" || (IsAbs(base) && Clean(base) == base)
  }

  function WithSep(base: string): string {
    if base != "" && base[|base| - 1] == '/' then base else base + "/"
  }

  /** `safePath`, in the working directory `cwd`. */
  function SafePath(base: string, cwd: string, path: string): Result<string, PathError> {
    var clean := Clean(path);
    if HasPrefix(clean, "..") || Contains(clean, "/..") then Err(TraversalNotAllowed)
    else if base == "" then Ok(if IsAbs(clean) then clean else Abs(cwd, clean))
    else if IsAbs(clean) then Err(AbsoluteNotAllowed)
    else
      var full := Abs(cwd, JoinPath(base, clean));
      if full != base && !HasPrefix(full, WithSep(base)) then Err(EscapesBase) else Ok(full)
  }

  /** No component of the cleaned path begins with two dots: neither "..", nor a name such as "..notes". */
  predicate NoDottedComponent(path: string) {
    forall i | 0 <= i < |CleanStack(path)| :: !HasPrefix(CleanStack(path)[i], "..")
  }

  lemma DotsAt(s: string, k: int)
    ensures OccursAt(s, "/..", k) <==> 0 <= k && k + 3 <= |s| && s[k] == '/' && s[k + 1] == '.' && s[k + 2] == '.'
  {
    if 0 <= k && k + 3 <= |s| {
      assert s[k..k + 3] == [s[k], s[k + 1], s[k + 2]];
    }
  }

  /** Where "/.." can stand in "/" + head + rest, when `rest` is empty or starts with a slash. */
  lemma DotsAfterHeadAt(head: string, rest: string, k: int)
    requires '/' !in head && (rest == "" || rest[0] == '/')
    ensures OccursAt("/" + head + rest, "/..", k) <==>
        (k == 0 && HasPrefix(head, "..")) || OccursAt(rest, "/..", k - 1 - |head|)
  {
    var s := "/" + head + rest;
    DotsAt(s, k);
    DotsAt(rest, k - 1 - |head|);
    assert HasPrefix(head, "..") <==> |head| >= 2 && head[0] == '.' && head[1] == '.';
    forall i | 1 <= i <= |head| ensures s[i] in head {
      assert s[i] == head[i - 1];
    }
  }

  lemma DotsAfterHead(head: string, rest: string)
    requires '/' !in head && (rest == "" || rest[0] == '/')
    ensures Contains("/" + head + rest, "/..") <==> HasPrefix(head, "..") || Contains(rest, "/..")
  {
    hide OccursAt, HasPrefix, IndexOf;
    var s := "/" + head + rest;
    IndexOfIsLeftmost(s, "/..");
    IndexOfIsLeftmost(rest, "/..");
    DotsAfterHeadAt(head, rest, IndexOf(s, "/.."));
    DotsAfterHeadAt(head, rest, 0);
    DotsAfterHeadAt(head, rest, 1 + |head| + IndexOf(rest, "/.."));
  }

  /** In a slash-separated path "/.." marks exactly the components that begin with two dots. */
  lemma {:induction false} DottedComponents(stack: seq<string>)
    requires forall i | 0 <= i < |stack| :: '/' !in stack[i]
    ensures Contains("/" + Join(stack, "/"), "/..") <==> exists i :: 0 <= i < |stack| && HasPrefix(stack[i], "..")
    decreases |stack|
  {
    hide Contains, HasPrefix;
    if stack == [] {
      ShorterHoldsNone("/", "/..");
      assert "/" + Join(stack, "/") == "/";
    } else {
      ShorterHoldsNone("", "/..");
      var head, tail := stack[0], stack[1..];
      DottedComponents(tail);
      var rest := if tail == [] then "" else "/" + Join(tail, "/");
      assert "/" + Join(stack, "/") == "/" + head + rest;
      DotsAfterHead(head, rest);
      if i :| 0 <= i < |tail| && HasPrefix(tail[i], "..") {
        assert stack[i + 1] == tail[i];
      }
      if i :| 1 <= i < |stack| && HasPrefix(stack[i], "..") {
        assert tail[i - 1] == stack[i];
      }
    }
  }

  lemma LeadingSlash(t: string)
    ensures Contains("/" + t, "/..") <==> HasPrefix(t, "..") || Contains(t, "/..")
  {
    var s := "/" + t;
    IndexOfIsLeftmost(s, "/..");
    IndexOfIsLeftmost(t, "/..");
    DotsAt(s, IndexOf(s, "/.."));
    DotsAt(s, 0);
    DotsAt(s, 1 + IndexOf(t, "/.."));
    DotsAt(t, IndexOf(t, "/.."));
    DotsAt(t, IndexOf(s, "/..") - 1);
    assert HasPrefix(t, "..") <==> |t| >= 2 && t[0] == '.' && t[1] == '.';
  }

  /** The two textual tests of `safePath` together reject exactly the cleaned paths with a component that begins with
      two dots. */
  lemma TraversalTest(path: string)
    ensures !HasPrefix(Clean(path), "..") && !Contains(Clean(path), "/..") <==> NoDottedComponent(path)
  {
    var stack := CleanStack(path);
    CleanIsNormal(path);
    DottedComponents(stack);
    var clean := Clean(path);
    if IsAbs(path) {
      assert clean[0] == '/';
    } else if stack == [] {
      ShorterHoldsNone(".", "/..");
    } else {
      LeadingSlash(clean);
    }
  }

  /** The path `safePath` computes for components `stack` under a clean base. */
  function Under(base: string, stack: seq<string>): string {
    if stack == [] then base else WithSep(base) + Join(stack, "/")
  }

  lemma JoinResolves(base: string, stack: seq<string>)
    requires IsAbs(base) && Normal(true, stack)
    ensures IsAbs(base + "/" + Assemble(false, stack))
    ensures CleanStack(base + "/" + Assemble(false, stack)) == CleanStack(base) + stack
  {
    hide Split, Contains, IndexOf, Assemble;
    var clean := Assemble(false, stack);
    JoinedComponents(base, clean);
    ResolveConcat(true, [], Components(base), Components(clean));
    CleanIsNormal(base);
    if stack == [] {
      RootAndDot();
      assert CleanStack(base) + stack == CleanStack(base);
    } else {
      AssembledComponents(false, stack);
      ResolvePushes(true, CleanStack(base), stack);
    }
  }

  lemma AssembleExtends(names: seq<string>, stack: seq<string>)
    requires Normal(true, names) && stack != []
    ensures Assemble(true, names + stack) == WithSep(Assemble(true, names)) + Join(stack, "/")
  {
    hide Join, Normal;
    if names == [] {
      RootAndDot();
      assert names + stack == stack;
    } else {
      JoinConcat(names, stack, "/");
      LastOfJoin(names);
    }
  }

  /** Joining names to a clean base appends them, with one slash between. */
  lemma JoinAppends(base: string, stack: seq<string>)
    requires CleanBase(base) && base != "" && Normal(true, stack)
    ensures JoinPath(base, Assemble(false, stack)) == Under(base, stack)
    ensures CleanStack(Under(base, stack)) == CleanStack(base) + stack && IsAbs(Under(base, stack))
    ensures Clean(Under(base, stack)) == Under(base, stack)
  {
    hide CleanStack;
    var names := CleanStack(base) + stack;
    CleanIsNormal(base);
    JoinResolves(base, stack);
    AssembledComponents(true, names);
    AssembledComponents(false, stack);
    if stack == [] {
      assert names == CleanStack(base);
    } else {
      AssembleExtends(CleanStack(base), stack);
    }
  }

  lemma {:induction false} LastOfJoin(stack: seq<string>)
    requires Normal(true, stack) && stack != []
    ensures var s := Join(stack, "/"); s != "" && s[|s| - 1] != '/'
    decreases |stack|
  {
    if |stack| > 1 {
      LastOfJoin(stack[1..]);
    } else {
      assert stack[0][|stack[0]| - 1] in stack[0];
    }
  }

  /** With a base directory, `safePath` accepts exactly the relative paths whose cleaned form has no component beginning
      with two dots, and maps them to the base extended by that form; the final escape check never rejects anything. */
  lemma SafePathExact(base: string, cwd: string, path: string)
    requires CleanBase(base) && base != ""
    ensures SafePath(base, cwd, path) ==
              if !NoDottedComponent(path) then Err(TraversalNotAllowed)
              else if IsAbs(path) then Err(AbsoluteNotAllowed)
              else Ok(Under(base, CleanStack(path)))
  {
    hide CleanStack, Contains, Split;
    TraversalTest(path);
    CleanIdempotent(path);
    if NoDottedComponent(path) && !IsAbs(path) {
      CleanIsNormal(path);
      DottedFree(path);
      JoinAppends(base, CleanStack(path));
    }
  }

  lemma DottedFree(path: string)
    requires NoDottedComponent(path)
    ensures Normal(true, CleanStack(path))
  {
    CleanIsNormal(path);
    assert HasPrefix("..", "..");
  }

  /** An accepted path lands at the base or below it, whatever directory names the base and the path hold: its
      position is the base's followed by the position the path denotes at the root. */
  lemma AcceptedStaysBelow(base: string, cwd: string, path: string)
    requires CleanBase(base) && base != "" && SafePath(base, cwd, path).Ok?
    ensures var full := SafePath(base, cwd, path).value;
            && Locate([], full) == Locate([], base) + Locate([], path)
            && (full == base || HasPrefix(full, WithSep(base)))
  {
    hide SafePath, CleanStack, Locate, CleanBase, NoDottedComponent;
    SafePathExact(base, cwd, path);
    DottedFree(path);
    JoinAppends(base, CleanStack(path));
    BaseHasNoUps(base);
    NamesLocateThemselves(base);
    NamesLocateThemselves(path);
    NormalConcat(CleanStack(base), CleanStack(path));
    NamesLocateThemselves(Under(base, CleanStack(path)));
  }

  lemma NormalConcat(a: seq<string>, b: seq<string>)
    requires Normal(true, a) && Normal(true, b)
    ensures Normal(true, a + b)
  {
  }

  lemma BaseHasNoUps(base: string)
    requires CleanBase(base) && base != ""
    ensures Normal(true, CleanStack(base))
  {
    CleanIsNormal(base);
  }

  /** Read at the root, a path that resolves to names denotes the position with those names. */
  lemma NamesLocateThemselves(p: string)
    requires Normal(true, CleanStack(p))
    ensures Locate([], p) == CleanStack(p)
  {
    LocateByStack([], p);
    WalkNames([], CleanStack(p));
    assert [] + CleanStack(p) == CleanStack(p);
  }

  /** Without a base directory, the same paths pass the dotted-component test, absolute ones included, and each lands
      where it points in the working directory. */
  lemma UnconfinedExact(cwd: string, path: string)
    requires IsAbs(cwd)
    ensures SafePath("", cwd, path).Ok? <==> NoDottedComponent(path)
    ensures NoDottedComponent(path) ==>
              var full := SafePath("", cwd, path).value;
              IsAbs(full) && Clean(full) == full && Locate([], full) == Locate(Locate([], cwd), path)
  {
    hide CleanStack, Contains, Split, Walk;
    TraversalTest(path);
    CleanIdempotent(path);
    CleanKeepsMeaning(Locate([], cwd), path);
    if !IsAbs(path) {
      var joined := cwd + "/" + Clean(path);
      CleanIdempotent(joined);
      CleanKeepsMeaning([], joined);
      JoinedComponents(cwd, Clean(path));
      WalkConcat([], Components(cwd), Components(Clean(path)));
    } else {
      CleanKeepsMeaning([], path);
    }
  }

  /** Cleaning the path first changes neither the verdict nor the result. */
  lemma SafePathIgnoresSpelling(base: string, cwd: string, path: string)
    requires CleanBase(base)
    ensures SafePath(base, cwd, Clean(path)) == SafePath(base, cwd, path)
  {
    CleanIdempotent(path);
  }

  /** Two accepted paths land in the same place exactly when they clean to the same path. */
  lemma SafePathInjective(base: string, cwd: string, p: string, q: string)
    requires CleanBase(base) && base != "" && SafePath(base, cwd, p).Ok? && SafePath(base, cwd, q).Ok?
    ensures SafePath(base, cwd, p) == SafePath(base, cwd, q) <==> Clean(p) == Clean(q)
  {
    SafePathExact(base, cwd, p);
    SafePathExact(base, cwd, q);
    DottedFree(p);
    DottedFree(q);
    JoinAppends(base, CleanStack(p));
    JoinAppends(base, CleanStack(q));
    var b, x, y := CleanStack(base), CleanStack(p), CleanStack(q);
    if SafePath(base, cwd, p) == SafePath(base, cwd, q) {
      assert x == (b + x)[|b|..] == (b + y)[|b|..] == y;
    }
    if Clean(p) == Clean(q) {
      CleanIdempotent(p);
      CleanIdempotent(q);
    }
  }

  lemma OneName(name: string)
    requires name != "" && name != "." && name != ".." && '/' !in name
    ensures !IsAbs(name) && CleanStack(name) == [name] && forall start: seq<string> ::
        Locate(start, name) == start + [name]
  {
    hide Split, Contains;
    assert IsAbs(name) ==> name[0] in name;
    JoinOne(name);
    JoinedPieces([name]);
    assert [] + [name] == [name];
    ResolvePushes(false, [], [name]);
    forall start: seq<string> ensures Locate(start, name) == start + [name] {
      WalkNames(start, [name]);
    }
  }

  /** The check rejects more than escapes: "..notes" stays below every base, yet it is refused. */
  lemma RejectsHarmlessName()
    ensures SafePath("/srv", "/", "..notes") == Err(TraversalNotAllowed)
    ensures forall start: seq<string> :: Locate(start, "..notes") == start + ["..notes"]
  {
    hide CleanStack, Locate, Contains;
    OneName("..notes");
    assert HasPrefix(CleanStack("..notes")[0], "..");
    TraversalTest("..notes");
  }
}
