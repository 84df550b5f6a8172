/** What a corpus scan reports, path by path and once for every time the path is listed. */
module ScanReports {
  import opened Outcomes
  import opened Timestamps
  import opened CorpusIndex
  import opened CorpusScan

  /** The time a file was changed; the year 1 when it could not be stat'ed. */
  function Changed(w: World, p: string): int {
    if p in w.modTimes then w.modTimes[p] else -62_135_596_800_000_000_000
  }

  predicate ToIndex(w: World, index: Index, force: bool, p: string) {
    p !in index || force || Changed(w, p) > index[p].ns
  }

  predicate Gone(w: World, index: Index, paths: seq<string>, p: string) {
    p in index && (p !in paths || p !in w.modTimes)
  }

  lemma {:induction false} NewFilesCounted(index: Index, paths: seq<string>, p: string)
    ensures multiset(NewFiles(index, paths))[p] == if p in index then 0 else multiset(paths)[p]
  {
    if paths != [] {
      var front, last := paths[..|paths| - 1], paths[|paths| - 1];
      NewFilesCounted(index, front, p);
      assert paths == front + [last];
      Counted(front, last, p);
      Counted(NewFiles(index, front), last, p);
    }
  }

  lemma SameConditions(w: World, index: Index, force: bool, p: string)
    ensures IsModified(w, index, force, p) <==> p in index && ToIndex(w, index, force, p)
    ensures Pending(w, index, force, p) <==> ToIndex(w, index, force, p)
  {
  }

  lemma Counted<T>(front: seq<T>, last: T, x: T)
    ensures multiset(front + [last])[x] == multiset(front)[x] + if x == last then 1 else 0
  {
  }

  lemma {:induction false} ModifiedFilesCounted(w: World, index: Index, force: bool, paths: seq<string>, p: string)
    ensures multiset(ModifiedFiles(w, index, force, paths))[p] ==
            if p in index && ToIndex(w, index, force, p) then multiset(paths)[p] else 0
  {
    hide IsModified, ToIndex;
    if paths != [] {
      var front, last := paths[..|paths| - 1], paths[|paths| - 1];
      ModifiedFilesCounted(w, index, force, front, p);
      assert paths == front + [last];
      SameConditions(w, index, force, last);
      Counted(front, last, p);
      Counted(ModifiedFiles(w, index, force, front), last, p);
    }
  }

  /** The failures of one document. */
  function ErrorsOf(w: World, index: Index, force: bool, p: string): seq<ScanError> {
    if !ToIndex(w, index, force, p) then []
    else if p in w.unloadable then [LoadFailed(p)]
    else if p in w.unindexable then [IndexFailed(p)]
    else []
  }

  lemma DocumentErrorsNext(w: World, index: Index, force: bool, paths: seq<string>)
    requires paths != []
    ensures DocumentErrors(w, index, force, paths) ==
            DocumentErrors(w, index, force, paths[..|paths| - 1]) + ErrorsOf(w, index, force, paths[|paths| - 1])
  {
    hide Pending, ToIndex;
    SameConditions(w, index, force, paths[|paths| - 1]);
  }

  lemma ErrorsOfAre(w: World, index: Index, force: bool, p: string, e: ScanError)
    ensures e in ErrorsOf(w, index, force, p) ==> (e.LoadFailed? || e.IndexFailed?) && e.path == p
    ensures |ErrorsOf(w, index, force, p)| <= 1
  {
  }

  lemma CountedIn<T>(front: seq<T>, tail: seq<T>, x: T)
    requires |tail| <= 1
    ensures multiset(front + tail)[x] == multiset(front)[x] + if x in tail then 1 else 0
  {
    if tail == [] {
      assert front + tail == front;
    } else {
      assert tail == [tail[0]];
      Counted(front, tail[0], x);
    }
  }

  /** The listings at which a failure can occur. */
  function Listings(paths: seq<string>, e: ScanError): nat {
    if e.LoadFailed? || e.IndexFailed? then multiset(paths)[e.path] else 0
  }

  lemma ListingsNext(front: seq<string>, last: string, e: ScanError)
    ensures Listings(front + [last], e) ==
            Listings(front, e) + if (e.LoadFailed? || e.IndexFailed?) && e.path == last then 1 else 0
  {
    if e.LoadFailed? || e.IndexFailed? {
      Counted(front, last, e.path);
    }
  }

  /** Failures of the documents, one for each listing. */
  lemma {:induction false} DocumentErrorsCounted(w: World, index: Index, force: bool, paths: seq<string>, e: ScanError)
    ensures multiset(DocumentErrors(w, index, force, paths))[e] ==
            if (e.LoadFailed? || e.IndexFailed?) && e in ErrorsOf(w, index, force, e.path) then Listings(paths, e)
                else 0
  {
    if paths == [] {
      assert DocumentErrors(w, index, force, paths) == [];
    } else {
      hide DocumentErrors, ErrorsOf, Listings;
      var front, last := paths[..|paths| - 1], paths[|paths| - 1];
      DocumentErrorsCounted(w, index, force, front, e);
      assert paths == front + [last];
      DocumentErrorsNext(w, index, force, paths);
      ListingsNext(front, last, e);
      ErrorsOfAre(w, index, force, last, e);
      CountedIn(DocumentErrors(w, index, force, front), ErrorsOf(w, index, force, last), e);
    }
  }

  lemma {:induction false} RemovalErrorsCounted(w: World, deleted: seq<string>, p: string)
    ensures var errors := multiset(RemovalErrors(w, deleted));
            && errors[RemoveFailed(p)] == (if p in w.unremovable then multiset(deleted)[p] else 0)
            && errors[LoadFailed(p)] == errors[IndexFailed(p)] == errors[ListFailed] == 0
  {
    if deleted != [] {
      var n := |deleted| - 1;
      RemovalErrorsCounted(w, deleted[..n], p);
      assert deleted == deleted[..n] + [deleted[n]];
    }
  }

  lemma {:induction false} DistinctOnce(s: seq<string>, p: string)
    requires forall i, j | 0 <= i < j < |s| :: s[i] != s[j]
    ensures multiset(s)[p] == if p in s then 1 else 0
  {
    if s != [] {
      var front, last := s[..|s| - 1], s[|s| - 1];
      DistinctOnce(front, p);
      assert s == front + [last];
      Counted(front, last, p);
    }
  }

  lemma ListedOnce(s: seq<string>, paths: set<string>, p: string)
    requires Lists(s, paths)
    ensures multiset(s)[p] == if p in paths then 1 else 0
  {
    DistinctOnce(s, p);
  }

  /** What `PerformCorpusScan` says of its result when listing succeeds. */
  ghost predicate Reports(w: World, index: Index, dryRun: bool, force: bool, result: ScanResult) {
    w.listing.Some? && var paths := w.listing.value;
    && result.newFiles == NewFiles(index, paths)
    && result.modifiedFiles == ModifiedFiles(w, index, force, paths)
    && Lists(result.deletedFiles, Missing(w, index, paths))
    && result.errors ==
         (if dryRun then [] else DocumentErrors(w, index, force, paths) + RemovalErrors(w, result.deletedFiles))
  }

  /** A listed path is reported as new when it is unknown and as modified when it is known and changed later or
      everything is rebuilt, once for every time it is listed; a known path whose file is not listed or not there is
      reported as deleted once. A scan that is not dry reports each failure to load, to index or to remove, and no
      other; a dry one reports none. */
  lemma ReportsExactly(w: World, index: Index, dryRun: bool, force: bool, result: ScanResult, p: string)
    requires Reports(w, index, dryRun, force, result)
    ensures var paths := w.listing.value;
            var listed := multiset(paths)[p];
            && multiset(result.newFiles)[p] == (if p !in index then listed else 0)
            && multiset(result.modifiedFiles)[p] == (if p in index && ToIndex(w, index, force, p) then listed else 0)
            && multiset(result.deletedFiles)[p] == (if Gone(w, index, paths, p) then 1 else 0)
            && multiset(result.errors)[LoadFailed(p)] ==
                 (if !dryRun && ToIndex(w, index, force, p) && p in w.unloadable then listed else 0)
            && multiset(result.errors)[IndexFailed(p)] ==
                 (if !dryRun && ToIndex(w, index, force, p) && p !in w.unloadable && p in w.unindexable then listed
                     else 0)
            && multiset(result.errors)[RemoveFailed(p)] ==
                 (if !dryRun && Gone(w, index, paths, p) && p in w.unremovable then 1 else 0)
            && multiset(result.errors)[ListFailed] == 0
  {
    hide NewFiles, ModifiedFiles, DocumentErrors, RemovalErrors, ToIndex, Lists;
    var paths := w.listing.value;
    NewFilesCounted(index, paths, p);
    ModifiedFilesCounted(w, index, force, paths, p);
    DocumentErrorsCounted(w, index, force, paths, LoadFailed(p));
    DocumentErrorsCounted(w, index, force, paths, IndexFailed(p));
    DocumentErrorsCounted(w, index, force, paths, RemoveFailed(p));
    DocumentErrorsCounted(w, index, force, paths, ListFailed);
    RemovalErrorsCounted(w, result.deletedFiles, p);
    ListedOnce(result.deletedFiles, Missing(w, index, paths), p);
  }

  /** The lists follow the listing: those of a listing in two parts are those of the parts, one after the other. */
  lemma {:induction false} NewFilesFollowListing(index: Index, a: seq<string>, b: seq<string>)
    ensures NewFiles(index, a + b) == NewFiles(index, a) + NewFiles(index, b)
    decreases |b|
  {
    hide IsNew;
    if b == [] {
      assert a + b == a;
    } else {
      var n := |b| - 1;
      NewFilesFollowListing(index, a, b[..n]);
      assert (a + b)[..|a + b| - 1] == a + b[..n] && (a + b)[|a + b| - 1] == b[n];
    }
  }

  lemma {:induction false} ModifiedFilesFollowListing(w: World, index: Index, force: bool, a: seq<string>,
      b: seq<string>)
    ensures ModifiedFiles(w, index, force, a + b) == ModifiedFiles(w, index, force, a) +
        ModifiedFiles(w, index, force, b)
    decreases |b|
  {
    hide IsModified;
    if b == [] {
      assert a + b == a;
    } else {
      var n := |b| - 1;
      ModifiedFilesFollowListing(w, index, force, a, b[..n]);
      assert (a + b)[..|a + b| - 1] == a + b[..n] && (a + b)[|a + b| - 1] == b[n];
    }
  }

  lemma {:induction false} DocumentErrorsFollowListing(w: World, index: Index, force: bool, a: seq<string>,
      b: seq<string>)
    ensures DocumentErrors(w, index, force, a + b) ==
            DocumentErrors(w, index, force, a) + DocumentErrors(w, index, force, b)
    decreases |b|
  {
    if b == [] {
      assert a + b == a && DocumentErrors(w, index, force, b) == [];
    } else {
      hide DocumentErrors, ErrorsOf;
      var n := |b| - 1;
      DocumentErrorsFollowListing(w, index, force, a, b[..n]);
      assert (a + b)[..|a + b| - 1] == a + b[..n] && (a + b)[|a + b| - 1] == b[n];
      DocumentErrorsNext(w, index, force, a + b);
      DocumentErrorsNext(w, index, force, b);
    }
  }

  lemma {:induction false} RemovalsFollowDeletions(w: World, a: seq<string>, b: seq<string>)
    ensures RemovalErrors(w, a + b) == RemovalErrors(w, a) + RemovalErrors(w, b)
    decreases |b|
  {
    if b == [] {
      assert a + b == a;
    } else {
      var n := |b| - 1;
      RemovalsFollowDeletions(w, a, b[..n]);
      assert (a + b)[..|a + b| - 1] == a + b[..n] && (a + b)[|a + b| - 1] == b[n];
    }
  }
}
