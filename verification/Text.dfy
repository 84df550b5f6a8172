/** The operations of Go's `strings` package that the modelled code calls, on sequences of characters. */
module Text {

  /** `sep` stands in `s` at position `k`. */
  predicate OccursAt(s: string, sep: string, k: int) {
    0 <= k && k + |sep| <= |s| && s[k..k + |sep|] == sep
  }

  /** The leftmost position of `sep` in `s`, or -1. */
  function IndexOf(s: string, sep: string): (i: int)
    requires sep != ""
    ensures i == -1 || 0 <= i <= |s| - |sep|
  {
    if |s| < |sep| then -1
    else if s[..|sep|] == sep then 0
    else
      var r := IndexOf(s[1..], sep);
      if r < 0 then -1 else r + 1
  }

  lemma OccursInTail(s: string, sep: string, k: int)
    requires s != "" && k > 0
    ensures OccursAt(s, sep, k) <==> OccursAt(s[1..], sep, k - 1)
  {
    if k + |sep| <= |s| {
      assert s[1..][k - 1..k - 1 + |sep|] == s[k..k + |sep|];
    }
  }

  /** `IndexOf` finds an occurrence when there is one, and none lies to its left. */
  lemma {:induction false} IndexOfIsLeftmost(s: string, sep: string)
    requires sep != ""
    ensures IndexOf(s, sep) >= 0 ==> OccursAt(s, sep, IndexOf(s, sep))
    ensures forall k | OccursAt(s, sep, k) :: 0 <= IndexOf(s, sep) <= k
  {
    if |s| >= |sep| && s[..|sep|] != sep {
      IndexOfIsLeftmost(s[1..], sep);
      if IndexOf(s[1..], sep) >= 0 {
        OccursInTail(s, sep, IndexOf(s[1..], sep) + 1);
      }
      forall k | OccursAt(s, sep, k) ensures 0 <= IndexOf(s, sep) <= k {
        OccursInTail(s, sep, k);
      }
    }
  }

  predicate Contains(s: string, sep: string)
    requires sep != ""
  {
    IndexOf(s, sep) >= 0
  }

  predicate HasPrefix(s: string, prefix: string) {
    |prefix| <= |s| && s[..|prefix|] == prefix
  }

  lemma ShorterHoldsNone(s: string, sep: string)
    requires |s| < |sep|
    ensures !Contains(s, sep)
  {
  }

  /** For a one-character separator, containing it and holding the character are the same. */
  lemma ContainsChar(s: string, c: char)
    ensures Contains(s, [c]) <==> c in s
    ensures Contains(s, [c]) ==> s[IndexOf(s, [c])] == c && c !in s[..IndexOf(s, [c])]
  {
    IndexOfIsLeftmost(s, [c]);
    assert forall k | 0 <= k < |s| && s[k] == c :: OccursAt(s, [c], k);
    var i := IndexOf(s, [c]);
    assert i >= 0 ==> s[i] == s[i..i + 1][0];
  }

  lemma SliceOfSlice(s: string, a: int, b: int, i: int, j: int)
    requires 0 <= a <= b <= |s| && 0 <= i <= j <= b - a
    ensures s[a..b][i..j] == s[a + i..a + j]
  {
    var piece := s[a..b];
    assert forall k | 0 <= k < b - a :: piece[k] == s[a + k];
    assert forall k | 0 <= k < j - i :: piece[i..j][k] == s[a + i..a + j][k];
  }

  /** A text with an occurrence of `sep` in one part has one as a whole. */
  lemma SubstringContains(s: string, a: int, b: int, sep: string)
    requires 0 <= a <= b <= |s| && sep != "" && Contains(s[a..b], sep)
    ensures Contains(s, sep)
  {
    var k := IndexOf(s[a..b], sep);
    IndexOfIsLeftmost(s[a..b], sep);
    IndexOfIsLeftmost(s, sep);
    SliceOfSlice(s, a, b, k, k + |sep|);
    assert OccursAt(s, sep, a + k);
  }

  /** An occurrence that lies within the middle part is one of the middle part. */
  lemma OccursInPart(a: string, p: string, b: string, sep: string, k: int)
    requires sep != "" && OccursAt(a + p + b, sep, k) && |a| <= k && k + |sep| <= |a| + |p|
    ensures Contains(p, sep)
  {
    var s, j := a + p + b, k - |a|;
    assert s[|a|..|a| + |p|] == p;
    SliceOfSlice(s, |a|, |a| + |p|, j, j + |sep|);
    assert OccursAt(p, sep, j);
    IndexOfIsLeftmost(p, sep);
  }

  /** No occurrence of `sep` crosses a character that `sep` lacks. */
  lemma CannotCross(a: string, c: char, b: string, sep: string)
    requires sep != "" && c !in sep && Contains(a + [c] + b, sep)
    ensures Contains(a, sep) || Contains(b, sep)
  {
    var s := a + [c] + b;
    var k := IndexOf(s, sep);
    IndexOfIsLeftmost(s, sep);
    forall i | k <= i < k + |sep| ensures s[i] in sep {
      assert s[i] == s[k..k + |sep|][i - k];
    }
    assert s[|a|] == c;
    if k + |sep| <= |a| {
      assert s == "" + a + ([c] + b);
      OccursInPart("", a, [c] + b, sep, k);
    } else {
      assert s == (a + [c]) + b + "";
      OccursInPart(a + [c], b, "", sep, k);
    }
  }

  // ---------------------------------------------------------------- splitting and joining

  /** `strings.Join`. */
  function Join(parts: seq<string>, sep: string): string {
    if |parts| == 0 then ""
    else if |parts| == 1 then parts[0]
    else parts[0] + sep + Join(parts[1..], sep)
  }

  /** `strings.Split` for a non-empty separator: the pieces between leftmost, non-overlapping separators. */
  function Split(s: string, sep: string): (parts: seq<string>)
    requires sep != ""
    ensures |parts| >= 1
    decreases |s|
  {
    var i := IndexOf(s, sep);
    if i < 0 then [s] else [s[..i]] + Split(s[i + |sep|..], sep)
  }

  /** The pieces join back to the text, and none of them holds the separator. */
  lemma {:induction false} SplitPieces(s: string, sep: string)
    requires sep != ""
    ensures Join(Split(s, sep), sep) == s
    ensures forall p | p in Split(s, sep) :: !Contains(p, sep)
    decreases |s|
  {
    var i := IndexOf(s, sep);
    if i >= 0 {
      IndexOfIsLeftmost(s, sep);
      IndexOfIsLeftmost(s[..i], sep);
      var rest := Split(s[i + |sep|..], sep);
      SplitPieces(s[i + |sep|..], sep);
      assert Split(s, sep)[1..] == rest;
      assert s == s[..i] + sep + s[i + |sep|..];
      var k := IndexOf(s[..i], sep);
      assert k >= 0 ==> s[k..k + |sep|] == s[..i][k..k + |sep|];
      assert k >= 0 ==> OccursAt(s, sep, k);
    }
  }

  /** What the first step of a split leaves: the text before the first separator and the text after it. */
  lemma SplitHead(s: string, sep: string)
    requires sep != ""
    ensures |Split(s, sep)| >= 2 <==> Contains(s, sep)
    ensures Contains(s, sep) ==>
              && Split(s, sep)[0] == s[..IndexOf(s, sep)]
              && Join(Split(s, sep)[1..], sep) == s[IndexOf(s, sep) + |sep|..]
  {
    if Contains(s, sep) {
      SplitPieces(s[IndexOf(s, sep) + |sep|..], sep);
    }
  }

  /** No proper suffix of `sep` is a prefix of it, so two occurrences never overlap. */
  predicate Unbordered(sep: string) {
    forall d | 0 < d < |sep| :: sep[d..] != sep[..|sep| - d]
  }

  /** An occurrence of `sep` that starts inside `p` is inside `p`, or overlaps the separator that follows. */
  lemma EarlyOccurrence(p: string, sep: string, rest: string, k: int)
    requires sep != "" && k < |p| && OccursAt(p + sep + rest, sep, k)
    ensures Contains(p, sep) || !Unbordered(sep)
  {
    var s := p + sep + rest;
    if k + |sep| <= |p| {
      assert s == "" + p + (sep + rest);
      OccursInPart("", p, sep + rest, sep, k);
    } else {
      var d := |p| - k;
      assert sep[d..] == s[k..k + |sep|][d..] == s[|p|..k + |sep|] == sep[..|sep| - d];
    }
  }

  /** The first separator of `p + sep + rest` is the one after `p`, when `p` holds none. */
  lemma FirstSeparator(p: string, sep: string, rest: string)
    requires sep != "" && Unbordered(sep) && !Contains(p, sep)
    ensures IndexOf(p + sep + rest, sep) == |p|
  {
    var s := p + sep + rest;
    IndexOfIsLeftmost(s, sep);
    assert OccursAt(s, sep, |p|);
    if IndexOf(s, sep) < |p| {
      EarlyOccurrence(p, sep, rest, IndexOf(s, sep));
    }
  }

  /** Splitting undoes joining exactly on pieces that hold no separator. */
  lemma {:induction false} SplitOfJoin(parts: seq<string>, sep: string)
    requires sep != "" && Unbordered(sep) && parts != []
    ensures Split(Join(parts, sep), sep) == parts <==> forall p | p in parts :: !Contains(p, sep)
  {
    var s := Join(parts, sep);
    SplitPieces(s, sep);
    if |parts| == 1 {
      assert parts == [parts[0]] && parts[0] in parts;
    } else if forall p | p in parts :: !Contains(p, sep) {
      var rest := Join(parts[1..], sep);
      FirstSeparator(parts[0], sep, rest);
      assert s == parts[0] + sep + rest;
      assert s[..|parts[0]|] == parts[0];
      assert s[|parts[0]| + |sep|..] == rest;
      SplitOfJoin(parts[1..], sep);
      assert parts == [parts[0]] + parts[1..];
    }
  }

  /** Joining distributes over concatenation. */
  lemma {:induction false} JoinConcat(a: seq<string>, b: seq<string>, sep: string)
    requires a != [] && b != []
    ensures Join(a + b, sep) == Join(a, sep) + sep + Join(b, sep)
  {
    if |a| == 1 {
      assert (a + b)[1..] == b;
    } else {
      JoinConcat(a[1..], b, sep);
      assert (a + b)[1..] == a[1..] + b;
      assert a[0] + sep + (Join(a[1..], sep) + sep + Join(b, sep)) == (a[0] + sep + Join(a[1..], sep)) + sep +
          Join(b, sep);
    }
  }

  // ---------------------------------------------------------------- trimming

  /** The characters `unicode.IsSpace` accepts. */
  predicate IsSpace(c: char) {
    '\t' <= c <= '\r' || c == ' ' || c == '\U{85}' || c == '\U{A0}' || c == '\U{1680}' || '\U{2000}' <= c <= '\U{200A}'
    || c == '\U{2028}' || c == '\U{2029}' || c == '\U{202F}' || c == '\U{205F}' || c == '\U{3000}'
  }

  predicate AllSpace(s: string) {
    forall i | 0 <= i < |s| :: IsSpace(s[i])
  }

  /** Neither the first nor the last character is a space. */
  predicate Trimmed(s: string) {
    s != "" ==> !IsSpace(s[0]) && !IsSpace(s[|s| - 1])
  }

  function TrimLeft(s: string): string {
    if s != "" && IsSpace(s[0]) then TrimLeft(s[1..]) else s
  }

  function TrimRight(s: string): string {
    if s != "" && IsSpace(s[|s| - 1]) then TrimRight(s[..|s| - 1]) else s
  }

  /** `strings.TrimSpace`. */
  function TrimSpace(s: string): string {
    TrimRight(TrimLeft(s))
  }

  lemma {:induction false} TrimLeftSplits(s: string) returns (n: nat)
    ensures n <= |s| && TrimLeft(s) == s[n..] && AllSpace(s[..n]) && (n < |s| ==> !IsSpace(s[n]))
  {
    n := 0;
    if s != "" && IsSpace(s[0]) {
      n := TrimLeftSplits(s[1..]);
      assert s[1..][n..] == s[n + 1..];
      assert s[..n + 1] == [s[0]] + s[1..][..n];
      n := n + 1;
    }
  }

  lemma {:induction false} TrimRightSplits(s: string) returns (n: nat)
    ensures n <= |s| && TrimRight(s) == s[..n] && AllSpace(s[n..]) && (n > 0 ==> !IsSpace(s[n - 1]))
  {
    n := |s|;
    if s != "" && IsSpace(s[|s| - 1]) {
      var t := s[..|s| - 1];
      n := TrimRightSplits(t);
      assert t[..n] == s[..n];
      assert s[n..] == t[n..] + [s[|s| - 1]];
    }
  }

  /** Every string is its trimmed middle between two runs of spaces. */
  lemma TrimSplits(s: string) returns (a: nat, b: nat)
    ensures a <= b <= |s| && TrimSpace(s) == s[a..b] && Trimmed(s[a..b]) && AllSpace(s[..a]) && AllSpace(s[b..])
  {
    a := TrimLeftSplits(s);
    var n := TrimRightSplits(s[a..]);
    b := a + n;
    assert s[a..][..n] == s[a..b];
    assert s[a..][n..] == s[b..];
  }

  lemma {:induction false} TrimLeftPadding(left: string, s: string)
    requires AllSpace(left)
    ensures TrimLeft(left + s) == TrimLeft(s)
  {
    if left == "" {
      assert left + s == s;
    } else {
      assert (left + s)[1..] == left[1..] + s;
      TrimLeftPadding(left[1..], s);
    }
  }

  lemma {:induction false} TrimRightPadding(s: string, right: string)
    requires AllSpace(right)
    ensures TrimRight(s + right) == TrimRight(s)
  {
    if right == "" {
      assert s + right == s;
    } else {
      assert (s + right)[..|s + right| - 1] == s + right[..|right| - 1];
      TrimRightPadding(s, right[..|right| - 1]);
    }
  }

  /** Spaces around a non-empty trimmed string are what trimming removes, and all it removes. */
  lemma TrimPadded(left: string, s: string, right: string)
    requires AllSpace(left) && AllSpace(right) && Trimmed(s) && s != ""
    ensures TrimSpace(left + s + right) == s
  {
    assert left + s + right == left + (s + right);
    TrimLeftPadding(left, s + right);
    TrimRightPadding(s, right);
  }

  /** Padding with spaces adds no occurrence of a trimmed separator. */
  lemma PaddingAddsNone(left: string, s: string, right: string, sep: string)
    requires AllSpace(left) && AllSpace(right) && sep != "" && Trimmed(sep) && Contains(left + s + right, sep)
    ensures Contains(s, sep)
  {
    var t := left + s + right;
    var k := IndexOf(t, sep);
    IndexOfIsLeftmost(t, sep);
    var last := k + |sep| - 1;
    assert t[k] == t[k..k + |sep|][0];
    assert t[last] == t[k..k + |sep|][|sep| - 1];
    assert forall i | 0 <= i < |left| :: t[i] == left[i];
    assert forall i | |left| + |s| <= i < |t| :: t[i] == right[i - |left| - |s|];
    OccursInPart(left, s, right, sep, k);
  }
}
