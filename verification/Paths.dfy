/** Lexical paths: Go's `filepath.Clean`, `Join`, `Dir` and `Abs` on Unix, and the confinement check built on them. */
module Paths {
  import opened Text

  predicate IsAbs(p: string) {
    HasPrefix(p, "/")
  }

  function Components(p: string): seq<string> {
    Split(p, "/")
  }

  /** Processing one component: skip, back up, or descend. A relative path keeps the ".." it cannot resolve. */
  function Step(rooted: bool, stack: seq<string>, c: string): seq<string> {
    if c == "" || c == "." then stack
    else if c == ".." then
      if stack != [] && stack[|stack| - 1] != ".." then stack[..|stack| - 1]
      else if rooted then stack
      else stack + [".."]
    else stack + [c]
  }

  function Resolve(rooted: bool, stack: seq<string>, comps: seq<string>): seq<string>
    decreases |comps|
  {
    if comps == [] then stack else Resolve(rooted, Step(rooted, stack, comps[0]), comps[1..])
  }

  /** The components that are left after resolving "", "." and "..". */
  function CleanStack(p: string): seq<string> {
    Resolve(IsAbs(p), [], Components(p))
  }

  function Assemble(rooted: bool, stack: seq<string>): string {
    if rooted then "/" + Join(stack, "/")
    else if stack == [] then "."
    else Join(stack, "/")
  }

  /** `filepath.Clean`. */
  function Clean(p: string): string {
    Assemble(IsAbs(p), CleanStack(p))
  }

  /** `filepath.Join` of two elements; empty ones are ignored. */
  function JoinPath(a: string, b: string): string {
    if a == "" then if b == "" then "" else Clean(b)
    else if b == "" then Clean(a)
    else Clean(a + "/" + b)
  }

  /** `filepath.Abs` in the working directory `cwd`. */
  function Abs(cwd: string, p: string): string {
    if IsAbs(p) then Clean(p) else Clean(cwd + "/" + p)
  }

  /** The text of a path up to and including its last slash. */
  function UpToSlash(p: string): string {
    if p == "" || p[|p| - 1] == '/' then p else UpToSlash(p[..|p| - 1])
  }

  /** `filepath.Dir`. */
  function Dir(p: string): string {
    Clean(UpToSlash(p))
  }

  /** What resolving can leave: names, and ".." only in front and only in a relative path. */
  predicate Normal(rooted: bool, stack: seq<string>) {
    && (forall i | 0 <= i < |stack| :: stack[i] != "" && stack[i] != "." && '/' !in stack[i])
    && (rooted ==> forall i | 0 <= i < |stack| :: stack[i] != "..")
    && (forall i, j | 0 <= i < j < |stack| && stack[j] == ".." :: stack[i] == "..")
  }

  lemma {:induction false} ResolveNormal(rooted: bool, stack: seq<string>, comps: seq<string>)
    requires Normal(rooted, stack) && forall c | c in comps :: '/' !in c
    ensures Normal(rooted, Resolve(rooted, stack, comps))
    decreases |comps|
  {
    if comps != [] {
      assert '/' !in comps[0];
      ResolveNormal(rooted, Step(rooted, stack, comps[0]), comps[1..]);
    }
  }

  lemma ComponentsHoldNoSlash(p: string)
    ensures forall c | c in Components(p) :: '/' !in c
  {
    SplitPieces(p, "/");
    forall c | c in Components(p) ensures '/' !in c {
      ContainsChar(c, '/');
    }
  }

  /** Cleaning leaves no empty, "." or non-leading ".." component, and no ".." at all in an absolute path. */
  lemma CleanIsNormal(p: string)
    ensures Normal(IsAbs(p), CleanStack(p))
  {
    ComponentsHoldNoSlash(p);
    ResolveNormal(IsAbs(p), [], Components(p));
  }

  lemma {:induction false} ResolveConcat(rooted: bool, stack: seq<string>, a: seq<string>, b: seq<string>)
    ensures Resolve(rooted, stack, a + b) == Resolve(rooted, Resolve(rooted, stack, a), b)
    decreases |a|
  {
    if a == [] {
      assert a + b == b;
    } else {
      assert (a + b)[1..] == a[1..] + b;
      ResolveConcat(rooted, Step(rooted, stack, a[0]), a[1..], b);
    }
  }

  /** Resolving components that are already normal on top of the stack just pushes them. */
  lemma {:induction false} ResolvePushes(rooted: bool, stack: seq<string>, comps: seq<string>)
    requires Normal(rooted, stack + comps)
    ensures Resolve(rooted, stack, comps) == stack + comps
    decreases |comps|
  {
    if comps != [] {
      assert (stack + comps)[|stack|] == comps[0];
      assert stack != [] ==> (stack + comps)[|stack| - 1] == stack[|stack| - 1];
      assert stack + comps == (stack + [comps[0]]) + comps[1..];
      ResolvePushes(rooted, stack + [comps[0]], comps[1..]);
    } else {
      assert stack + comps == stack;
    }
  }

  /** Pieces without slashes are the components of the path they join to. */
  lemma JoinedPieces(comps: seq<string>)
    requires comps != [] && forall i | 0 <= i < |comps| :: '/' !in comps[i]
    ensures Components(Join(comps, "/")) == comps
  {
    hide Split, Contains;
    forall c | c in comps ensures !Contains(c, "/") {
      ContainsChar(c, '/');
    }
    SplitOfJoin(comps, "/");
  }

  lemma JoinStarts(stack: seq<string>)
    requires stack != [] && stack[0] != ""
    ensures Join(stack, "/") != "" && Join(stack, "/")[0] == stack[0][0]
  {
  }

  lemma SlashJoins(stack: seq<string>)
    requires stack != []
    ensures Join([""] + stack, "/") == "/" + Join(stack, "/")
  {
    JoinConcat([""], stack, "/");
  }

  /** The components of an assembled path are the ones it was assembled from. */
  lemma AssembledComponents(rooted: bool, stack: seq<string>)
    requires Normal(rooted, stack)
    ensures IsAbs(Assemble(rooted, stack)) == rooted
    ensures CleanStack(Assemble(rooted, stack)) == stack
    ensures stack != [] ==> Components(Assemble(rooted, stack)) == if rooted then [""] + stack else stack
  {
    hide Split, Join, Resolve, IsAbs;
    if stack == [] {
      RootAndDot();
    } else {
      SlashJoins(stack);
      JoinedPieces(if rooted then [""] + stack else stack);
      PushedAfterRoot(rooted, stack);
      StartsLikeStack(rooted, stack);
    }
  }

  lemma StartsLikeStack(rooted: bool, stack: seq<string>)
    requires Normal(rooted, stack) && stack != []
    ensures IsAbs(Assemble(rooted, stack)) == rooted
  {
    hide Join;
    JoinStarts(stack);
    assert stack[0][0] in stack[0];
    assert Assemble(rooted, stack)[..1] == [Assemble(rooted, stack)[0]];
  }

  lemma PushedAfterRoot(rooted: bool, stack: seq<string>)
    requires Normal(rooted, stack)
    ensures Resolve(rooted, [], stack) == stack && Resolve(rooted, [], [""] + stack) == stack
    ensures Resolve(rooted, [], stack + [""]) == stack
  {
    assert [] + stack == stack;
    ResolvePushes(rooted, [], stack);
    ResolveConcat(rooted, [], [""], stack);
    ResolveConcat(rooted, [], stack, [""]);
  }

  lemma RootAndDot()
    ensures Components("/") == ["", ""] && Components(".") == ["."] && CleanStack("/") == [] && CleanStack(".") == []
    ensures Assemble(true, []) == "/" && Assemble(false, []) == "." && IsAbs("/") && !IsAbs(".")
  {
    hide Split;
    assert "."[..1][0] == '.';
    JoinedPieces(["", ""]);
    JoinedPieces(["."]);
    assert Join(["", ""], "/") == "/" && Join(["."], "/") == ".";
    ResolveConcat(true, [], [""], [""]);
  }

  /** Cleaning is idempotent, and a cleaned path has the components the original resolved to. */
  lemma CleanIdempotent(p: string)
    ensures IsAbs(Clean(p)) == IsAbs(p) && CleanStack(Clean(p)) == CleanStack(p) && Clean(Clean(p)) == Clean(p)
  {
    CleanIsNormal(p);
    AssembledComponents(IsAbs(p), CleanStack(p));
  }

  lemma {:induction false} UpToLastSlash(head: string, tail: string)
    requires (head == "" || head[|head| - 1] == '/') && '/' !in tail
    ensures UpToSlash(head + tail) == head
    decreases |tail|
  {
    if tail == "" {
      assert head + tail == head;
    } else {
      assert (head + tail)[|head + tail| - 1] == tail[|tail| - 1];
      assert (head + tail)[..|head + tail| - 1] == head + tail[..|tail| - 1];
      UpToLastSlash(head, tail[..|tail| - 1]);
    }
  }

  /** The directory of a cleaned relative path is the path without its last component. */
  lemma DirDropsLast(stack: seq<string>)
    requires Normal(false, stack) && stack != []
    ensures CleanStack(Dir(Assemble(false, stack))) == stack[..|stack| - 1]
    ensures Dir(Assemble(false, stack)) == Assemble(false, stack[..|stack| - 1])
  {
    hide Split, Resolve, Join;
    var n := |stack| - 1;
    var front, last := stack[..n], stack[n];
    assert stack == front + [last];
    AssembledComponents(false, front);
    PushedAfterRoot(false, []);
    if n == 0 {
      RootAndDot();
      JoinOne(last);
      assert stack == [last] && front == [] && "" + last == last && [] + [""] == [""];
      UpToLastSlash("", last);
      JoinedPieces([""]);
      JoinOne("");
    } else {
      JoinConcat(front, [last], "/");
      JoinOne(last);
      UpToLastSlash(Join(front, "/") + "/", last);
      JoinConcat(front, [""], "/");
      JoinOne("");
      var head := Join(front, "/") + "/";
      assert head + "" == head;
      assert forall c | c in front[0] :: c != '/';
      JoinedPieces(front + [""]);
      JoinStarts(front);
      PushedAfterRoot(false, front);
    }
  }

  lemma JoinOne(part: string)
    ensures Join([part], "/") == part
  {
  }

  /** Joining a directory's name and a file's name puts a slash between them. */
  lemma NamesJoin(dir: string, name: string)
    requires Normal(true, [dir, name])
    ensures JoinPath(dir, name) == dir + "/" + name
  {
    hide CleanStack, Join, Normal, IsAbs;
    var path := dir + "/" + name;
    JoinOne(name);
    JoinConcat([dir], [name], "/");
    JoinOne(dir);
    assert [dir] + [name] == [dir, name];
    assert Join([dir, name], "/") == path;
    RelativeNames([dir, name]);
    AssembledComponents(false, [dir, name]);
    assert Assemble(false, [dir, name]) == path;
    NotEmptyNames(dir, name);
  }

  lemma RelativeNames(names: seq<string>)
    requires Normal(true, names)
    ensures Normal(false, names)
  {
  }

  lemma NotEmptyNames(dir: string, name: string)
    requires Normal(true, [dir, name])
    ensures dir != "" && name != ""
  {
    assert [dir, name][0] == dir && [dir, name][1] == name;
  }

  // ---------------------------------------------------------------- what a path denotes

  /** Walking one component from a position given as the names below the root; ".." at the root stays there. */
  function Move(pos: seq<string>, c: string): seq<string> {
    if c == "" || c == "." then pos
    else if c == ".." then if pos == [] then [] else pos[..|pos| - 1]
    else pos + [c]
  }

  function Walk(pos: seq<string>, comps: seq<string>): seq<string>
    decreases |comps|
  {
    if comps == [] then pos else Walk(Move(pos, comps[0]), comps[1..])
  }

  /** The position a path denotes when it is read in the directory `start`. */
  function Locate(start: seq<string>, p: string): seq<string> {
    Walk(if IsAbs(p) then [] else start, Components(p))
  }

  lemma {:induction false} WalkConcat(pos: seq<string>, a: seq<string>, b: seq<string>)
    ensures Walk(pos, a + b) == Walk(Walk(pos, a), b)
    decreases |a|
  {
    if a == [] {
      assert a + b == b;
    } else {
      assert (a + b)[1..] == a[1..] + b;
      WalkConcat(Move(pos, a[0]), a[1..], b);
    }
  }

  /** One resolving step moves the stack's position as walking the component would. */
  lemma StepMoves(start: seq<string>, rooted: bool, stack: seq<string>, c: string)
    requires Normal(rooted, stack) && (rooted ==> start == [])
    ensures Walk(start, Step(rooted, stack, c)) == Move(Walk(start, stack), c)
  {
    if c == ".." && stack != [] && stack[|stack| - 1] != ".." {
      var top := stack[|stack| - 1];
      assert stack == stack[..|stack| - 1] + [top];
      WalkConcat(start, stack[..|stack| - 1], [top]);
    } else {
      WalkConcat(start, stack, [c]);
      assert stack != [] && rooted ==> stack[|stack| - 1] != "..";
    }
  }

  lemma StepIsNormal(rooted: bool, stack: seq<string>, c: string)
    requires Normal(rooted, stack) && '/' !in c
    ensures Normal(rooted, Step(rooted, stack, c))
  {
  }

  lemma {:induction false} ResolveWalks(start: seq<string>, rooted: bool, stack: seq<string>, comps: seq<string>)
    requires Normal(rooted, stack) && (rooted ==> start == []) && forall c | c in comps :: '/' !in c
    ensures Walk(start, Resolve(rooted, stack, comps)) == Walk(Walk(start, stack), comps)
    decreases |comps|
  {
    if comps != [] {
      hide Step, Move, Normal;
      StepMoves(start, rooted, stack, comps[0]);
      StepIsNormal(rooted, stack, comps[0]);
      ResolveWalks(start, rooted, Step(rooted, stack, comps[0]), comps[1..]);
    }
  }

  /** The position of a path is the walk along its resolved components. */
  lemma LocateByStack(start: seq<string>, p: string)
    ensures Locate(start, p) == Walk(if IsAbs(p) then [] else start, CleanStack(p))
  {
    ComponentsHoldNoSlash(p);
    ResolveWalks(if IsAbs(p) then [] else start, IsAbs(p), [], Components(p));
  }

  /** Cleaning changes no path's meaning: from every directory the cleaned path denotes the same position. */
  lemma CleanKeepsMeaning(start: seq<string>, p: string)
    ensures Locate(start, Clean(p)) == Locate(start, p)
  {
    CleanIdempotent(p);
    LocateByStack(start, p);
    LocateByStack(start, Clean(p));
  }

  /** A slash between two paths separates their components. */
  lemma JoinedComponents(a: string, b: string)
    ensures Components(a + "/" + b) == Components(a) + Components(b)
  {
    SplitPieces(a, "/");
    SplitPieces(b, "/");
    JoinConcat(Components(a), Components(b), "/");
    SplitOfJoin(Components(a) + Components(b), "/");
  }

  /** A joined path denotes, from every directory, what walking the second path from the first one's position leads to,
      even when the second begins with a slash; it is clean unless both are empty. */
  lemma JoinMeansWalking(start: seq<string>, a: string, b: string)
    ensures a != "" ==> Locate(start, JoinPath(a, b)) == Walk(Locate(start, a), Components(b))
    ensures a == "" && b != "" ==> Locate(start, JoinPath(a, b)) == Locate(start, b)
    ensures a != "" || b != "" ==> Clean(JoinPath(a, b)) == JoinPath(a, b)
  {
    hide Clean, Split, Walk;
    CleanIdempotent(a);
    CleanIdempotent(b);
    CleanIdempotent(a + "/" + b);
    CleanKeepsMeaning(start, a);
    CleanKeepsMeaning(start, b);
    CleanKeepsMeaning(start, a + "/" + b);
    if b == "" {
      NothingToWalk(Locate(start, a));
    } else if a != "" {
      JoinedComponents(a, b);
      WalkConcat(if IsAbs(a) then [] else start, Components(a), Components(b));
      assert (a + "/" + b)[..1] == a[..1];
    }
  }

  lemma NothingToWalk(pos: seq<string>)
    ensures Walk(pos, Components("")) == pos
  {
    JoinOne("");
    JoinedPieces([""]);
  }

  /** One path worked out: ".." takes back a name, "." and repeated slashes do nothing. */
  lemma CleanedExample()
    ensures Clean("a/.././b//c/") == "b/c" && Locate([], "a/.././b//c/") == ["b", "c"]
  {
    hide Split, Join;
    var comps := ["a", "..", ".", "b", "", "c", ""];
    ExampleIsJoined();
    JoinedPieces(comps);
    assert Components("a/.././b//c/") == comps;
    hide Resolve, Walk;
    ExampleResolves();
    assert !IsAbs("a/.././b//c/") by { assert "a/.././b//c/"[..1] == "a"; }
    JoinOne("b");
    JoinOne("c");
    JoinConcat(["b"], ["c"], "/");
    assert ["b"] + ["c"] == ["b", "c"] && "b" + "/" + "c" == "b/c";
  }

  lemma ExampleIsJoined()
    ensures Join(["a", "..", ".", "b", "", "c", ""], "/") == "a/.././b//c/"
  {
    assert Join(["c", ""], "/") == "c/";
    assert Join(["", "c", ""], "/") == "/c/";
    assert Join(["b", "", "c", ""], "/") == "b//c/";
    assert Join([".", "b", "", "c", ""], "/") == "./b//c/";
    assert Join(["..", ".", "b", "", "c", ""], "/") == ".././b//c/";
  }

  lemma ExampleResolves()
    ensures Resolve(false, [], ["a", "..", ".", "b", "", "c", ""]) == ["b", "c"]
    ensures Walk([], ["a", "..", ".", "b", "", "c", ""]) == ["b", "c"]
  {
    var rest := ["b", "", "c", ""];
    assert Resolve(false, ["b"], ["", "c", ""]) == ["b", "c"];
    assert Resolve(false, [], rest) == ["b", "c"];
    assert Walk(["b"], ["", "c", ""]) == ["b", "c"];
    assert Walk([], rest) == ["b", "c"];
    assert [".", "b", "", "c", ""][1..] == rest;
    assert Resolve(false, [], [".", "b", "", "c", ""]) == ["b", "c"];
    assert Walk([], [".", "b", "", "c", ""]) == ["b", "c"];
  }

  /** The number of leading ".." of a normal stack. */
  function Ups(stack: seq<string>): nat {
    if stack != [] && stack[0] == ".." then 1 + Ups(stack[1..]) else 0
  }

  lemma {:induction false} UpsSplit(stack: seq<string>)
    requires Normal(false, stack)
    ensures Ups(stack) <= |stack|
    ensures forall i | 0 <= i < |stack| :: stack[i] == ".." <==> i < Ups(stack)
    decreases |stack|
  {
    if stack != [] && stack[0] == ".." {
      UpsSplit(stack[1..]);
      assert forall i | 1 <= i < |stack| :: stack[i] == stack[1..][i - 1];
    }
  }

  lemma {:induction false} WalkNames(pos: seq<string>, names: seq<string>)
    requires forall i | 0 <= i < |names| :: names[i] != "" && names[i] != "." && names[i] != ".."
    ensures Walk(pos, names) == pos + names
    decreases |names|
  {
    if names != [] {
      WalkNames(pos + [names[0]], names[1..]);
      assert pos + [names[0]] + names[1..] == pos + names;
    } else {
      assert pos + names == pos;
    }
  }

  lemma {:induction false} WalkUps(pos: seq<string>, ups: seq<string>)
    requires |ups| <= |pos| && forall i | 0 <= i < |ups| :: ups[i] == ".."
    ensures Walk(pos, ups) == pos[..|pos| - |ups|]
    decreases |ups|
  {
    if ups != [] {
      WalkUps(pos[..|pos| - 1], ups[1..]);
      assert pos[..|pos| - 1][..|pos| - |ups|] == pos[..|pos| - |ups|];
    } else {
      assert pos[..|pos|] == pos;
    }
  }

  lemma UpsAndNames(stack: seq<string>) returns (k: nat)
    requires Normal(false, stack)
    ensures k == Ups(stack) <= |stack| && stack == stack[..k] + stack[k..]
    ensures forall i | 0 <= i < k :: stack[..k][i] == ".."
    ensures forall i | 0 <= i < |stack| - k :: stack[k..][i] != "" && stack[k..][i] != "." && stack[k..][i] != ".."
  {
    UpsSplit(stack);
    k := Ups(stack);
  }

  /** From a deep enough directory a normal stack backs up its leading ".." and then descends along its names. */
  lemma WalkNormal(pos: seq<string>, stack: seq<string>)
    requires Normal(false, stack) && Ups(stack) <= |pos|
    ensures Ups(stack) <= |stack| && Walk(pos, stack) == pos[..|pos| - Ups(stack)] + stack[Ups(stack)..]
  {
    hide *;
    var k := UpsAndNames(stack);
    WalkConcat(pos, stack[..k], stack[k..]);
    WalkUps(pos, stack[..k]);
    WalkNames(pos[..|pos| - k], stack[k..]);
  }

  /** A directory `n` levels below the root, each level named `name`. */
  function Deep(name: string, n: nat): seq<string> {
    seq(n, i => name)
  }

  lemma SameLevel<T>(x: seq<T>, y: seq<T>, i: nat, j: nat, a: seq<T>, b: seq<T>)
    requires i < j <= |x| == |y| && x[..j] + a == x[..i] + b && y[..j] + a == y[..i] + b
    ensures x[i] == y[i]
  {
    assert (x[..j] + a)[i] == x[i] && (y[..j] + a)[i] == y[i];
    assert (x[..i] + b)[i] == b[0] && (y[..i] + b)[i] == b[0];
  }

  /** Equal walks from two directories that differ at every level agree there, unless they have equally many leading
      "..". */
  lemma UpsAgree(a: seq<string>, b: seq<string>, x: seq<string>, y: seq<string>)
    requires Normal(false, a) && Normal(false, b)
    requires |x| == |y| == Ups(a) + Ups(b) && Walk(x, a) == Walk(x, b) && Walk(y, a) == Walk(y, b)
    ensures Ups(a) < Ups(b) ==> x[Ups(a)] == y[Ups(a)]
  {
    hide *;
    var i, j := Ups(a), Ups(b);
    if i < j {
      WalkNormal(x, a);
      WalkNormal(x, b);
      WalkNormal(y, a);
      WalkNormal(y, b);
      var a', b' := a[i..], b[j..];
      var w, v := Walk(x, a), Walk(y, a);
      assert w == x[..j] + a' by { assert |x| - i == j; }
      assert w == x[..i] + b';
      assert v == y[..j] + a';
      assert v == y[..i] + b';
      SameLevel(x, y, i, j, a', b');
    }
  }

  /** Normal relative stacks that lead to the same place from every directory are equal. */
  lemma StacksAgree(a: seq<string>, b: seq<string>)
    requires Normal(false, a) && Normal(false, b)
    requires forall start: seq<string> :: Walk(start, a) == Walk(start, b)
    ensures a == b
  {
    hide Walk, Ups;
    var n := Ups(a) + Ups(b);
    var x, y := Deep("x", n), Deep("y", n);
    assert Walk(x, a) == Walk(x, b) && Walk(y, a) == Walk(y, b);
    UpsAgree(a, b, x, y);
    UpsAgree(b, a, x, y);
    assert Ups(a) == Ups(b);
    var k := Ups(a);
    WalkNormal(x, a);
    WalkNormal(x, b);
    UpsSplit(a);
    UpsSplit(b);
    assert a[k..] == (x[..k] + a[k..])[k..] == (x[..k] + b[k..])[k..] == b[k..];
    assert a[..k] == b[..k];
    assert a == a[..k] + a[k..] && b == b[..k] + b[k..];
  }

  /** Cleaned paths are canonical: two paths clean to the same text exactly when both or neither is absolute and they
      denote the same position from every directory. */
  lemma CleanIsCanonical(p: string, q: string)
    ensures Clean(p) == Clean(q) <==>
        IsAbs(p) == IsAbs(q) && forall start: seq<string> :: Locate(start, p) == Locate(start, q)
  {
    if Clean(p) == Clean(q) {
      CleanIdempotent(p);
      CleanIdempotent(q);
      forall start: seq<string> ensures Locate(start, p) == Locate(start, q) {
        CleanKeepsMeaning(start, p);
        CleanKeepsMeaning(start, q);
      }
    }
    if IsAbs(p) == IsAbs(q) && forall start: seq<string> :: Locate(start, p) == Locate(start, q) {
      CleanIsNormal(p);
      CleanIsNormal(q);
      if IsAbs(p) {
        LocateByStack([], p);
        LocateByStack([], q);
        WalkNames([], CleanStack(p));
        WalkNames([], CleanStack(q));
        assert [] + CleanStack(p) == CleanStack(p) && [] + CleanStack(q) == CleanStack(q);
      } else {
        forall start: seq<string> ensures Walk(start, CleanStack(p)) == Walk(start, CleanStack(q)) {
          assert Locate(start, p) == Locate(start, q);
          LocateByStack(start, p);
          LocateByStack(start, q);
        }
        StacksAgree(CleanStack(p), CleanStack(q));
      }
    }
  }
}
