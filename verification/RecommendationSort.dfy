/** The in-place bubble sort of recommendations is the stable sort by descending confidence. */
module RecommendationSort {

  /** What is sorted: anything with a confidence. */
  datatype Ranked<T> = Ranked(confidence: real, item: T)

  predicate Descending<T>(s: seq<Ranked<T>>) {
    forall i, j | 0 <= i < j < |s| :: s[i].confidence >= s[j].confidence
  }

  /** The elements of one confidence, in order. */
  function Rank<T>(s: seq<Ranked<T>>, c: real): seq<Ranked<T>> {
    if s == [] then []
    else if s[0].confidence == c then [s[0]] + Rank(s[1..], c)
    else Rank(s[1..], c)
  }

  /** Same elements, and equals in the same order. */
  ghost predicate SameRanks<T>(s: seq<Ranked<T>>, t: seq<Ranked<T>>) {
    forall c :: Rank(s, c) == Rank(t, c)
  }

  /** The reference: each element goes in front of the later ones it is at least equal to. */
  function Insert<T>(x: Ranked<T>, s: seq<Ranked<T>>): seq<Ranked<T>> {
    if s == [] || x.confidence >= s[0].confidence then [x] + s else [s[0]] + Insert(x, s[1..])
  }

  function StableSort<T>(s: seq<Ranked<T>>): seq<Ranked<T>> {
    if s == [] then [] else Insert(s[0], StableSort(s[1..]))
  }

  predicate AtMost<T>(s: seq<Ranked<T>>, c: real) {
    forall i | 0 <= i < |s| :: s[i].confidence <= c
  }

  lemma {:induction false} InsertDescends<T>(x: Ranked<T>, s: seq<Ranked<T>>, c: real)
    requires Descending(s) && AtMost(s, c) && x.confidence <= c
    ensures Descending(Insert(x, s)) && AtMost(Insert(x, s), c)
  {
    if s != [] && x.confidence < s[0].confidence {
      InsertDescends(x, s[1..], s[0].confidence);
    }
  }

  lemma {:induction false} InsertRanks<T>(x: Ranked<T>, s: seq<Ranked<T>>, c: real)
    requires Descending(s)
    ensures Rank(Insert(x, s), c) == if c == x.confidence then [x] + Rank(s, c) else Rank(s, c)
  {
    if s == [] || x.confidence >= s[0].confidence {
      assert ([x] + s)[1..] == s;
    } else {
      InsertRanks(x, s[1..], c);
      assert ([s[0]] + Insert(x, s[1..]))[1..] == Insert(x, s[1..]);
    }
  }

  lemma {:induction false} InsertAdds<T>(x: Ranked<T>, s: seq<Ranked<T>>)
    ensures multiset(Insert(x, s)) == multiset{x} + multiset(s)
  {
    if s != [] && x.confidence < s[0].confidence {
      InsertAdds(x, s[1..]);
      assert s == [s[0]] + s[1..];
    }
  }

  lemma {:induction false} StableSortKeeps<T>(s: seq<Ranked<T>>)
    ensures Descending(StableSort(s)) && SameRanks(StableSort(s), s) && multiset(StableSort(s)) == multiset(s)
  {
    if s != [] {
      var sorted := StableSort(s[1..]);
      StableSortKeeps(s[1..]);
      var c := if sorted == [] || s[0].confidence >= sorted[0].confidence then s[0].confidence
          else sorted[0].confidence;
      InsertDescends(s[0], sorted, c);
      InsertAdds(s[0], sorted);
      forall c ensures Rank(StableSort(s), c) == Rank(s, c) {
        InsertRanks(s[0], sorted, c);
        assert Rank(sorted, c) == Rank(s[1..], c);
      }
      assert s == [s[0]] + s[1..];
    }
  }

  lemma {:induction false} RankMembers<T>(s: seq<Ranked<T>>, c: real)
    ensures Rank(s, c) == [] <==> forall i | 0 <= i < |s| :: s[i].confidence != c
    ensures s != [] && s[0].confidence == c ==> Rank(s, c)[0] == s[0] && Rank(s, c)[1..] == Rank(s[1..], c)
  {
    if s != [] {
      RankMembers(s[1..], c);
      assert forall i | 1 <= i < |s| :: s[i] == s[1..][i - 1];
    }
  }

  /** A descending order of given ranks is unique. */
  lemma {:induction false} StableOrderIsUnique<T>(s: seq<Ranked<T>>, t: seq<Ranked<T>>)
    requires Descending(s) && Descending(t) && SameRanks(s, t)
    ensures s == t
  {
    if s == [] || t == [] {
      if s != [] { RankMembers(s, s[0].confidence); RankMembers(t, s[0].confidence); }
      if t != [] { RankMembers(s, t[0].confidence); RankMembers(t, t[0].confidence); }
    } else {
      HeadsAgree(s, t);
      forall c ensures Rank(s[1..], c) == Rank(t[1..], c) {
        RankMembers(s, c);
        RankMembers(t, c);
        assert Rank(s, c) == Rank(t, c);
      }
      StableOrderIsUnique(s[1..], t[1..]);
      assert s == [s[0]] + s[1..] && t == [t[0]] + t[1..];
    }
  }

  lemma HeadsAgree<T>(s: seq<Ranked<T>>, t: seq<Ranked<T>>)
    requires Descending(s) && Descending(t) && SameRanks(s, t) && s != [] && t != []
    ensures s[0] == t[0]
  {
    var a, b := s[0].confidence, t[0].confidence;
    RankMembers(s, a);
    RankMembers(t, a);
    RankMembers(s, b);
    RankMembers(t, b);
    assert Rank(s, a) == Rank(t, a) && Rank(s, b) == Rank(t, b);
  }

  lemma {:induction false} RankConcat<T>(s: seq<Ranked<T>>, t: seq<Ranked<T>>, c: real)
    ensures Rank(s + t, c) == Rank(s, c) + Rank(t, c)
  {
    if s == [] {
      assert s + t == t;
    } else {
      assert (s + t)[1..] == s[1..] + t;
      RankConcat(s[1..], t, c);
    }
  }

  /** Exchanging neighbours of different confidence disturbs no rank. */
  lemma SwapKeepsRanks<T>(s: seq<Ranked<T>>, j: nat)
    requires j + 1 < |s| && s[j].confidence != s[j + 1].confidence
    ensures SameRanks(s[j := s[j + 1]][j + 1 := s[j]], s)
  {
    var t := s[j := s[j + 1]][j + 1 := s[j]];
    var x, y := s[j], s[j + 1];
    assert s == s[..j] + ([x, y] + s[j + 2..]) && t == s[..j] + ([y, x] + s[j + 2..]);
    forall c ensures Rank(t, c) == Rank(s, c) {
      RankConcat(s[..j], [x, y] + s[j + 2..], c);
      RankConcat(s[..j], [y, x] + s[j + 2..], c);
      RankConcat([x, y], s[j + 2..], c);
      RankConcat([y, x], s[j + 2..], c);
      assert [x, y][1..] == [y] && [y, x][1..] == [x];
    }
  }

  lemma SameRanksCompose<T>(s: seq<Ranked<T>>, t: seq<Ranked<T>>, u: seq<Ranked<T>>)
    ensures SameRanks(s, s) && (SameRanks(s, t) && SameRanks(t, u) ==> SameRanks(s, u)) &&
        (SameRanks(s, t) && SameRanks(u, t) ==> SameRanks(s, u))
  {
    hide Rank;
    if SameRanks(s, t) && (SameRanks(t, u) || SameRanks(u, t)) {
      forall c ensures Rank(s, c) == Rank(u, c) {
        assert Rank(s, c) == Rank(t, c);
        assert SameRanks(t, u) ==> Rank(t, c) == Rank(u, c);
        assert SameRanks(u, t) ==> Rank(u, c) == Rank(t, c);
      }
    }
  }

  method SortByConfidence<T>(a: array<Ranked<T>>)
    modifies a
    ensures a[..] == StableSort(old(a[..]))
  {
    hide Rank, StableSort, SameRanks;
    var n := a.Length;
    var i := 0;
    SameRanksCompose(a[..], a[..], a[..]);
    while i < n - 1
      invariant 0 <= i <= n && (n > 0 ==> i <= n - 1)
      invariant SameRanks(a[..], old(a[..]))
      invariant forall p, q | 0 <= p < q < n && q >= n - i :: a[p].confidence >= a[q].confidence
    {
      var j := 0;
      while j < n - i - 1
        invariant 0 <= j <= n - i - 1
        invariant SameRanks(a[..], old(a[..]))
        invariant forall p, q | 0 <= p < q < n && q >= n - i :: a[p].confidence >= a[q].confidence
        invariant forall p | 0 <= p < j :: a[p].confidence >= a[j].confidence
      {
        if a[j].confidence < a[j + 1].confidence {
          SwapKeepsRanks(a[..], j);
          ghost var before := a[..];
          a[j], a[j + 1] := a[j + 1], a[j];
          assert a[..] == before[j := before[j + 1]][j + 1 := before[j]];
          SameRanksCompose(a[..], before, old(a[..]));
        }
        j := j + 1;
      }
      i := i + 1;
    }
    StableSortKeeps(old(a[..]));
    SameRanksCompose(a[..], old(a[..]), StableSort(old(a[..])));
    StableOrderIsUnique(a[..], StableSort(old(a[..])));
  }
}
