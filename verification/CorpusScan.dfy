/** The incremental corpus scan: what it reports, what it writes, and when a second scan is quiet. */
module CorpusScan {
  import opened Outcomes
  import opened Timestamps
  import opened CorpusIndex

  /** The outside world of one scan: the listed paths (None when listing fails), the modification times (in
      nanoseconds) of the files that can be stat'ed, the paths whose loading, indexing or removal fails, the time at
      which the i-th listed document is indexed, and whether the metadata file can be written then. */
  datatype World = World(listing: Option<seq<string>>, modTimes: map<string, int>, unloadable: set<string>,
                         unindexable: set<string>, unremovable: set<string>, now: nat -> Stamp, writable: nat -> bool)

  datatype ScanError = ListFailed | LoadFailed(path: string) | IndexFailed(path: string) | RemoveFailed(path: string)

  datatype ScanResult = ScanResult(newFiles: seq<string>, modifiedFiles: seq<string>, deletedFiles: seq<string>,
      errors: seq<ScanError>)

  /** Go's zero time, 1 January of year 1: the modification time of a file that could not be stat'ed. */
  const ZERO_TIME: int := -62_135_596_800 * SECOND

  function ModTime(w: World, path: string): int {
    if path in w.modTimes then w.modTimes[path] else ZERO_TIME
  }

  predicate IsNew(index: Index, path: string) {
    path !in index
  }

  /** A known file is reported as modified when it changed after it was indexed, or always when rebuilding. */
  predicate IsModified(w: World, index: Index, force: bool, path: string) {
    path in index && (force || ModTime(w, path) > index[path].ns)
  }

  function NewFiles(index: Index, paths: seq<string>): seq<string> {
    if paths == [] then []
    else NewFiles(index, paths[..|paths| - 1]) + if IsNew(index, paths[|paths| - 1]) then [paths[|paths| - 1]] else []
  }

  function ModifiedFiles(w: World, index: Index, force: bool, paths: seq<string>): seq<string> {
    if paths == [] then []
    else
      ModifiedFiles(w, index, force, paths[..|paths| - 1])
      + if IsModified(w, index, force, paths[|paths| - 1]) then [paths[|paths| - 1]] else []
  }

  predicate Pending(w: World, index: Index, force: bool, path: string) {
    IsNew(index, path) || IsModified(w, index, force, path)
  }

  function DocumentErrors(w: World, index: Index, force: bool, paths: seq<string>): seq<ScanError> {
    if paths == [] then []
    else
      var p := paths[|paths| - 1];
      DocumentErrors(w, index, force, paths[..|paths| - 1])
      + if !Pending(w, index, force, p) then []
        else if p in w.unloadable then [LoadFailed(p)]
        else if p in w.unindexable then [IndexFailed(p)]
        else []
  }

  /** The document is added to the store in this scan. */
  predicate Indexed(w: World, index: Index, force: bool, path: string) {
    Pending(w, index, force, path) && path !in w.unloadable && path !in w.unindexable
  }

  /** The updates the scan makes while going through `paths`. */
  function Updates(w: World, index: Index, force: bool, paths: seq<string>): seq<(string, Stamp)> {
    if paths == [] then []
    else
      var i := |paths| - 1;
      var before := Updates(w, index, force, paths[..i]);
      if Indexed(w, index, force, paths[i]) && w.writable(i) then before + [(paths[i], w.now(i))] else before
  }

  /** The known paths that are not among the stat'ed listed files. */
  function Missing(w: World, index: Index, paths: seq<string>): set<string> {
    set p | p in index && !(p in paths && p in w.modTimes)
  }

  ghost predicate Lists(s: seq<string>, paths: set<string>) {
    (forall p :: p in s <==> p in paths) && forall i, j | 0 <= i < j < |s| :: s[i] != s[j]
  }

  function RemovalErrors(w: World, deleted: seq<string>): seq<ScanError> {
    if deleted == [] then []
    else
      var p := deleted[|deleted| - 1];
      RemovalErrors(w, deleted[..|deleted| - 1]) + if p in w.unremovable then [RemoveFailed(p)] else []
  }

  /** The metadata file after the updates, one rewrite each. */
  ghost predicate Rewrites(file: Option<string>, updates: seq<(string, Stamp)>, file': Option<string>)
    decreases |updates|
  {
    if updates == [] then file' == file
    else
      var n := |updates| - 1;
      exists mid :: Rewrites(file, updates[..n], mid) && Rewritten(mid, updates[n].0, updates[n].1, file')
  }

  class Scanner {
    const metadata: MetadataFile

    constructor (metadata: MetadataFile)
      ensures this.metadata == metadata
    {
      this.metadata := metadata;
    }

    /** The modification times of the listed files that can be stat'ed. */
    static method StatFiles(w: World, paths: seq<string>) returns (corpusFiles: map<string, int>)
      ensures corpusFiles == map p | p in paths && p in w.modTimes :: w.modTimes[p]
    {
      corpusFiles := map[];
      var i := 0;
      while i < |paths|
        invariant 0 <= i <= |paths|
        invariant corpusFiles == map p | p in paths[..i] && p in w.modTimes :: w.modTimes[p]
      {
        assert paths[..i + 1] == paths[..i] + [paths[i]];
        if paths[i] in w.modTimes {
          corpusFiles := corpusFiles[paths[i] := w.modTimes[paths[i]]];
        }
        i := i + 1;
      }
      assert paths[..i] == paths;
    }

    /** The loop over the listed files: classify, index, record. */
    method ProcessFiles(w: World, paths: seq<string>, corpusFiles: map<string, int>, embeddingsMeta: Index,
        dryRun: bool, force: bool)
      returns (newFiles: seq<string>, modifiedFiles: seq<string>, errors: seq<ScanError>)
      requires corpusFiles == map p | p in paths && p in w.modTimes :: w.modTimes[p]
      modifies metadata
      ensures newFiles == NewFiles(embeddingsMeta, paths)
      ensures modifiedFiles == ModifiedFiles(w, embeddingsMeta, force, paths)
      ensures errors == if dryRun then [] else DocumentErrors(w, embeddingsMeta, force, paths)
      ensures Rewrites(old(metadata.file), if dryRun then []
          else Updates(w, embeddingsMeta, force, paths), metadata.file)
    {
      hide Rewrites, Rewritten, Pending, Indexed, IsModified, NewFiles, ModifiedFiles, DocumentErrors, Updates;
      newFiles, modifiedFiles, errors := [], [], [];
      NothingProcessed(w, embeddingsMeta, force, metadata.file);
      var i := 0;
      while i < |paths|
        invariant 0 <= i <= |paths|
        invariant newFiles == NewFiles(embeddingsMeta, paths[..i])
        invariant modifiedFiles == ModifiedFiles(w, embeddingsMeta, force, paths[..i])
        invariant errors == if dryRun then [] else DocumentErrors(w, embeddingsMeta, force, paths[..i])
        invariant Rewrites(old(metadata.file), if dryRun then []
            else Updates(w, embeddingsMeta, force, paths[..i]), metadata.file)
      {
        var p := paths[i];
        var modTime := if p in corpusFiles then corpusFiles[p] else ZERO_TIME;
        assert modTime == ModTime(w, p);
        var needsUpdate := false;
        Classified(w, embeddingsMeta, force, p);
        OneMoreProcessed(w, embeddingsMeta, force, paths, i);
        if force {
          needsUpdate := true;
          if p in embeddingsMeta {
            modifiedFiles := modifiedFiles + [p];
          } else {
            newFiles := newFiles + [p];
          }
        } else if p !in embeddingsMeta {
          newFiles := newFiles + [p];
          needsUpdate := true;
        } else if modTime > embeddingsMeta[p].ns {
          modifiedFiles := modifiedFiles + [p];
          needsUpdate := true;
        }
        i := i + 1;
        if needsUpdate && !dryRun {
          if p in w.unloadable {
            errors := errors + [LoadFailed(p)];
            continue;
          }
          if p in w.unindexable {
            errors := errors + [IndexFailed(p)];
            continue;
          }
          ghost var before, updates := metadata.file, Updates(w, embeddingsMeta, force, paths[..i - 1]);
          var ok := metadata.UpdateEmbeddingMetadata(p, w.now(i - 1), w.writable(i - 1));
          if ok {
            RewritesGrow(old(metadata.file), updates, before, p, w.now(i - 1), metadata.file);
          }
        }
      }
      assert paths[..i] == paths;
    }

    /** The loop over the metadata: report what is gone, and remove it from the store. */
    static method ProcessDeleted(w: World, corpusFiles: map<string, int>, embeddingsMeta: Index, dryRun: bool)
      returns (deletedFiles: seq<string>, errors: seq<ScanError>)
      ensures Lists(deletedFiles, embeddingsMeta.Keys - corpusFiles.Keys)
      ensures errors == if dryRun then [] else RemovalErrors(w, deletedFiles)
    {
      deletedFiles, errors := [], [];
      var rest := embeddingsMeta.Keys;
      while rest != {}
        invariant rest <= embeddingsMeta.Keys
        invariant Lists(deletedFiles, embeddingsMeta.Keys - rest - corpusFiles.Keys)
        invariant errors == if dryRun then [] else RemovalErrors(w, deletedFiles)
      {
        var p :| p in rest;
        ghost var done := embeddingsMeta.Keys - rest - corpusFiles.Keys;
        rest := rest - {p};
        assert embeddingsMeta.Keys - rest - corpusFiles.Keys == if p in corpusFiles then done else done + {p};
        if p !in corpusFiles {
          assert (deletedFiles + [p])[..|deletedFiles|] == deletedFiles;
          deletedFiles := deletedFiles + [p];
          assert forall q :: q in deletedFiles <==> q in done + {p};
          if !dryRun && p in w.unremovable {
            errors := errors + [RemoveFailed(p)];
          }
        }
      }
    }

    /** The lists do not depend on the dry-run flag; a dry run writes nothing; otherwise the file is rewritten once
        for every document added to the store while the file could be written. */
    method PerformCorpusScan(w: World, dryRun: bool, force: bool) returns (result: ScanResult)
      modifies metadata
      ensures w.listing == None ==>
          result == ScanResult([], [], [], [ListFailed]) && metadata.file == old(metadata.file)
      ensures w.listing.Some? ==>
                var index, paths := old(Meaning(metadata.file)), w.listing.value;
                && result.newFiles == NewFiles(index, paths)
                && result.modifiedFiles == ModifiedFiles(w, index, force, paths)
                && Lists(result.deletedFiles, Missing(w, index, paths))
                && result.errors == (if dryRun then []
                    else DocumentErrors(w, index, force, paths) + RemovalErrors(w, result.deletedFiles))
                && Rewrites(old(metadata.file), if dryRun then [] else Updates(w, index, force, paths), metadata.file)
    {
      hide Meaning, Rewrites, NewFiles, ModifiedFiles, DocumentErrors, RemovalErrors, Updates;
      if w.listing.None? {
        return ScanResult([], [], [], [ListFailed]);
      }
      var paths := w.listing.value;
      var corpusFiles := StatFiles(w, paths);
      var embeddingsMeta := metadata.GetEmbeddingsMetadata();
      var newFiles, modifiedFiles, errors := ProcessFiles(w, paths, corpusFiles, embeddingsMeta, dryRun, force);
      var deletedFiles, removalErrors := ProcessDeleted(w, corpusFiles, embeddingsMeta, dryRun);
      assert Missing(w, embeddingsMeta, paths) == embeddingsMeta.Keys - corpusFiles.Keys;
      result := ScanResult(newFiles, modifiedFiles, deletedFiles, errors + removalErrors);
    }
  }

  lemma NothingProcessed(w: World, index: Index, force: bool, file: Option<string>)
    ensures NewFiles(index, []) == [] && ModifiedFiles(w, index, force, []) == [] &&
        DocumentErrors(w, index, force, []) == []
    ensures Updates(w, index, force, []) == [] && Rewrites(file, [], file)
  {
  }

  lemma OneMoreProcessed(w: World, index: Index, force: bool, paths: seq<string>, i: nat)
    requires i < |paths|
    ensures var p, before, after := paths[i], paths[..i], paths[..i + 1];
            && NewFiles(index, after) == (if p !in index then NewFiles(index, before) + [p]
                else NewFiles(index, before))
            && ModifiedFiles(w, index, force, after) ==
                 (if IsModified(w, index, force, p) then ModifiedFiles(w, index, force, before) + [p]
                     else ModifiedFiles(w, index, force, before))
            && DocumentErrors(w, index, force, after) ==
                 (if Pending(w, index, force, p) && p in w.unloadable then DocumentErrors(w, index, force, before) +
                     [LoadFailed(p)]
                  else if Pending(w, index, force, p) &&
                      p in w.unindexable then DocumentErrors(w, index, force, before) + [IndexFailed(p)]
                  else DocumentErrors(w, index, force, before))
            && Updates(w, index, force, after) ==
                 (if Indexed(w, index, force, p) && w.writable(i) then Updates(w, index, force, before) +
                     [(p, w.now(i))]
                  else Updates(w, index, force, before))
  {
    hide Pending, Indexed, IsModified;
    assert paths[..i + 1][..i] == paths[..i] && paths[..i + 1][i] == paths[i];
  }

  lemma Classified(w: World, index: Index, force: bool, p: string)
    ensures IsModified(w, index, force, p) <==> p in index && (force || ModTime(w, p) > index[p].ns)
    ensures Pending(w, index, force, p) <==> force || p !in index || ModTime(w, p) > index[p].ns
    ensures Indexed(w, index, force, p) <==> Pending(w, index, force, p) && p !in w.unloadable && p !in w.unindexable
  {
  }

  lemma RewritesGrow(file0: Option<string>, updates: seq<(string, Stamp)>, mid: Option<string>, p: string, t: Stamp,
      file': Option<string>)
    requires Rewrites(file0, updates, mid) && Rewritten(mid, p, t, file')
    ensures Rewrites(file0, updates + [(p, t)], file')
  {
    assert (updates + [(p, t)])[..|updates|] == updates;
  }

  // ---------------------------------------------------------------- two scans

  lemma {:induction false} RewritesRefine(file: Option<string>, updates: seq<(string, Stamp)>, file': Option<string>)
    requires Rewrites(file, updates, file') && forall u | u in updates :: CleanPath(u.0)
    ensures Meaning(file') == Updated(Base(Meaning(file), updates), updates)
    decreases |updates|
  {
    hide Meaning, Rewritten, Printable, FourDigitYear, Truncated, CleanPath, Surviving, Readable;
    if updates != [] {
      var n := |updates| - 1;
      var mid :| Rewrites(file, updates[..n], mid) && Rewritten(mid, updates[n].0, updates[n].1, file');
      RewritesRefine(file, updates[..n], mid);
      ReadIndexIsReadable(file);
      RewriteExtends(Meaning(file), updates[..n], mid, updates[n].0, updates[n].1, file');
      assert updates == updates[..n] + [(updates[n].0, updates[n].1)];
    }
  }

  /** The paths a scan indexes and records. */
  function Recorded(updates: seq<(string, Stamp)>): set<string> {
    set u | u in updates :: u.0
  }

  lemma {:induction false} UpdatedKeys(index: Index, updates: seq<(string, Stamp)>)
    requires forall u | u in updates :: Printable(u.1)
    ensures Updated(index, updates).Keys == index.Keys + Recorded(updates)
    ensures forall p | p in index && p !in Recorded(updates) :: Updated(index, updates)[p] == index[p]
  {
    hide Truncated, Printable;
    if updates != [] {
      var n := |updates| - 1;
      UpdatedKeys(index, updates[..n]);
      assert updates == updates[..n] + [updates[n]];
      assert Recorded(updates) == Recorded(updates[..n]) + {updates[n].0};
    }
  }

  lemma {:induction false} UpdatesAreIndexed(w: World, index: Index, force: bool, paths: seq<string>)
    ensures forall u | u in Updates(w, index, force, paths) ::
        u.0 in paths && Indexed(w, index, force, u.0) && exists i | 0 <= i < |paths| :: u.1 == w.now(i)
    ensures (forall i | 0 <= i < |paths| :: w.writable(i)) ==>
              forall p | p in paths && Indexed(w, index, force, p) :: p in Recorded(Updates(w, index, force, paths))
  {
    hide Indexed;
    if paths != [] {
      var i := |paths| - 1;
      UpdatesAreIndexed(w, index, force, paths[..i]);
      assert paths == paths[..i] + [paths[i]];
      var before := Updates(w, index, force, paths[..i]);
      assert forall u | u in before :: u in Updates(w, index, force, paths);
      assert Indexed(w, index, force, paths[i]) && w.writable(i) ==>
          (paths[i], w.now(i)) in Updates(w, index, force, paths);
    }
  }

  lemma {:induction false} NoErrorsMeansIndexed(w: World, index: Index, force: bool, paths: seq<string>)
    requires DocumentErrors(w, index, force, paths) == []
    ensures forall p | p in paths && Pending(w, index, force, p) :: Indexed(w, index, force, p)
  {
    hide Pending;
    if paths != [] {
      NoErrorsMeansIndexed(w, index, force, paths[..|paths| - 1]);
      assert paths == paths[..|paths| - 1] + [paths[|paths| - 1]];
    }
  }

  lemma {:induction false} NothingNew(index: Index, paths: seq<string>)
    ensures NewFiles(index, paths) == [] <==> forall p | p in paths :: p in index
  {
    if paths != [] {
      NothingNew(index, paths[..|paths| - 1]);
      assert paths == paths[..|paths| - 1] + [paths[|paths| - 1]];
    }
  }

  lemma {:induction false} NothingModified(w: World, index: Index, paths: seq<string>)
    ensures ModifiedFiles(w, index, false, paths) == [] <==>
        forall p | p in paths && p in index :: ModTime(w, p) <= index[p].ns
  {
    if paths != [] {
      NothingModified(w, index, paths[..|paths| - 1]);
      assert paths == paths[..|paths| - 1] + [paths[|paths| - 1]];
    }
  }

  /** A real scan whose documents all loaded and indexed and whose metadata could always be written. */
  predicate Clean(w: World, index: Index, force: bool) {
    && w.listing.Some? && DocumentErrors(w, index, force, w.listing.value) == []
    && (forall i | 0 <= i < |w.listing.value| :: w.writable(i) && Printable(w.now(i)))
    && (forall p | p in w.listing.value :: CleanPath(p))
  }

  /** Position `i` is the last one at which its path is listed. */
  predicate LastListed(paths: seq<string>, i: nat)
    requires i < |paths|
  {
    forall j | i < j < |paths| :: paths[j] != paths[i]
  }

  lemma {:induction false} HasLastListed(paths: seq<string>, p: string) returns (i: nat)
    requires p in paths
    ensures i < |paths| && paths[i] == p && LastListed(paths, i)
  {
    var n := |paths| - 1;
    if paths[n] == p {
      i := n;
    } else {
      assert paths == paths[..n] + [paths[n]];
      i := HasLastListed(paths[..n], p);
      assert paths[..n][i] == paths[i];
    }
  }

  /** A document indexed in the scan ends up with the time of its last indexing. */
  lemma {:induction false} LastUpdateCounts(w: World, index: Index, force: bool, base: Index, paths: seq<string>,
      i: nat)
    requires i < |paths| && LastListed(paths, i) && Indexed(w, index, force, paths[i]) && w.writable(i) &&
        Printable(w.now(i))
    ensures var after := Updated(base, Updates(w, index, force, paths));
            paths[i] in after && after[paths[i]] == Truncated(w.now(i))
  {
    hide Indexed, Printable, Truncated;
    var n := |paths| - 1;
    if i == n {
      UpdatedStep(base, Updates(w, index, force, paths[..n]), paths[n], w.now(n));
    } else {
      assert paths[..n][i] == paths[i];
      assert forall j | i < j < n :: paths[..n][j] == paths[j];
      LastUpdateCounts(w, index, force, base, paths[..n], i);
      if Indexed(w, index, force, paths[n]) && w.writable(n) {
        UpdatedStep(base, Updates(w, index, force, paths[..n]), paths[n], w.now(n));
      }
    }
  }

  /** A clean scan left the file `file'` where it found `file`. */
  ghost predicate Scanned(w: World, force: bool, file: Option<string>, file': Option<string>) {
    Clean(w, Meaning(file), force) && Rewrites(file, Updates(w, Meaning(file), force, w.listing.value), file')
  }

  /** The old entries as far as the scan keeps them. */
  function Kept(w: World, force: bool, before: Index): Index
    requires w.listing.Some?
  {
    Base(before, Updates(w, before, force, w.listing.value))
  }

  /** What a clean scan leaves: the kept entries, and for each document it indexed the time of the last indexing, in
      seconds. */
  lemma ScanLeaves(w: World, force: bool, file: Option<string>, file': Option<string>)
    requires w.listing.Some? && Scanned(w, force, file, file')
    ensures var before, after, paths := Meaning(file), Meaning(file'), w.listing.value;
            var kept := Kept(w, force, before);
            && after.Keys == kept.Keys + (set p | p in paths && Pending(w, before, force, p))
            && (forall p | p in kept && !(p in paths && Pending(w, before, force, p)) :: after[p] == kept[p])
            && forall i | 0 <= i < |paths| && LastListed(paths, i) && Pending(w, before, force, paths[i]) ::
                 paths[i] in after && after[paths[i]] == Truncated(w.now(i))
  {
    hide Meaning, Rewrites, Updates, DocumentErrors, Updated, Base, Printable, Truncated, CleanPath, Pending, Indexed;
    var before, after, paths := Meaning(file), Meaning(file'), w.listing.value;
    var updates := Updates(w, before, force, paths);
    UpdatesAreIndexed(w, before, force, paths);
    NoErrorsMeansIndexed(w, before, force, paths);
    RewritesRefine(file, updates, file');
    UpdatedKeys(Base(before, updates), updates);
    RecordedPaths(updates);
    IndexedArePending(w, before, force);
    forall i | 0 <= i < |paths| && LastListed(paths, i) && Pending(w, before, force, paths[i])
      ensures paths[i] in after && after[paths[i]] == Truncated(w.now(i))
    {
      LastUpdateCounts(w, before, force, Base(before, updates), paths, i);
    }
  }

  lemma IndexedArePending(w: World, index: Index, force: bool)
    ensures forall p | Indexed(w, index, force, p) :: Pending(w, index, force, p)
  {
  }

  lemma RecordedPaths(updates: seq<(string, Stamp)>)
    ensures forall p | p in Recorded(updates) :: exists u | u in updates :: u.0 == p
  {
  }

  /** The documents of the scan were all indexed at a second at or after their change. */
  predicate IndexedLater(w: World, force: bool, before: Index)
    requires w.listing.Some?
  {
    forall i | 0 <= i < |w.listing.value| && LastListed(w.listing.value, i) &&
        Pending(w, before, force, w.listing.value[i]) ::
      ModTime(w, w.listing.value[i]) <= Truncated(w.now(i)).ns
  }

  /** What a second scan of the same files finds after a clean scan, said by the first scan's inputs: no new file
      exactly when no known file was lost with its unprintable time, and no modified file exactly when every document
      was indexed at a second at or after its change and no kept time was cut below one. */
  lemma RescanExact(w: World, force: bool, file: Option<string>, file': Option<string>, again: World)
    requires w.listing.Some? && Scanned(w, force, file, file') && again.listing == w.listing &&
        again.modTimes == w.modTimes
    ensures var before, after, paths := Meaning(file), Meaning(file'), w.listing.value;
            var kept := Kept(w, force, before);
            && (NewFiles(after, paths) == [] <==> forall p | p in paths :: Pending(w, before, force, p) || p in kept)
            && (ModifiedFiles(again, after, false, paths) == [] <==>
                  && IndexedLater(w, force, before)
                  && forall p | p in paths && p in kept && !Pending(w, before, force, p) :: ModTime(w, p) <= kept[p].ns)
  {
    hide Meaning, Scanned, Kept, Truncated, NewFiles, ModifiedFiles, Pending;
    var before, after, paths := Meaning(file), Meaning(file'), w.listing.value;
    var kept := Kept(w, force, before);
    ScanLeaves(w, force, file, file');
    NothingNew(after, paths);
    NothingModified(again, after, paths);
    assert forall p | p in paths :: ModTime(again, p) == ModTime(w, p);
    if IndexedLater(w, force, before) && forall p | p in paths && p in kept && !Pending(w, before, force, p) ::
        ModTime(w, p) <= kept[p].ns {
      forall p | p in paths && p in after ensures ModTime(w, p) <= after[p].ns {
        var i := HasLastListed(paths, p);
      }
    }
  }

  /** For a file as the program leaves it: after a clean scan the known paths are the old ones and the indexed ones,
      a second scan finds no new file, and it finds no modified file exactly when every document was indexed at a
      second at or after its change. */
  lemma RescanIsQuiet(w: World, force: bool, file: Option<string>, file': Option<string>, again: World)
    requires w.listing.Some? && Scanned(w, force, file, file') && again.listing == w.listing &&
        again.modTimes == w.modTimes && Storable(Meaning(file))
    ensures var before, after, paths := Meaning(file), Meaning(file'), w.listing.value;
            && after.Keys == before.Keys + (set p | p in paths && Pending(w, before, force, p))
            && NewFiles(after, paths) == []
            && (ModifiedFiles(again, after, false, paths) == [] <==> IndexedLater(w, force, before))
            && Storable(after)
  {
    hide Meaning, Rewrites, Updates, DocumentErrors, Truncated, NewFiles, ModifiedFiles, Printable, CleanPath;
    var before, paths := Meaning(file), w.listing.value;
    StorableSurvives(before);
    RescanExact(w, force, file, file', again);
    ScanLeaves(w, force, file, file');
    var updates := Updates(w, before, force, paths);
    UpdatesAreIndexed(w, before, force, paths);
    RewritesRefine(file, updates, file');
    UpdatesAreStorable(before, updates);
  }

  /** A deleted document is reported as deleted by the next scan too, unless the file lost it: nothing is forgotten
      but a time that cannot be printed. */
  lemma DeletedStaysDeleted(w: World, force: bool, file: Option<string>, file': Option<string>, again: World, p: string)
    requires w.listing.Some? && Scanned(w, force, file, file')
    requires again.listing.Some? && p in Missing(w, Meaning(file), w.listing.value) && p !in again.listing.value
    ensures p in Missing(again, Meaning(file'), again.listing.value) <==>
            || Updates(w, Meaning(file), force, w.listing.value) == []
            || Printable(Meaning(file)[p])
            || (p in w.listing.value && Pending(w, Meaning(file), force, p))
  {
    hide Meaning, Scanned, Updates, Printable, Truncated, Pending;
    ScanLeaves(w, force, file, file');
  }

  /** Seconds are too coarse: a document indexed after its last change, but within the same second, is reported as
      modified again by a scan that follows at once. */
  lemma SameSecondIsReportedAgain(w: World, force: bool, file: Option<string>, file': Option<string>, again: World,
      i: nat)
    requires w.listing.Some? && Scanned(w, force, file, file') && again.listing == w.listing &&
        again.modTimes == w.modTimes
    requires i < |w.listing.value| && LastListed(w.listing.value, i) &&
        Pending(w, Meaning(file), force, w.listing.value[i])
    requires Truncated(w.now(i)).ns < ModTime(w, w.listing.value[i]) <= w.now(i).ns
    ensures w.listing.value[i] in ModifiedFiles(again, Meaning(file'), false, w.listing.value)
  {
    hide Meaning, Scanned, Truncated, Pending, ModifiedFiles;
    ScanLeaves(w, force, file, file');
    ReportedWhenModified(again, Meaning(file'), w.listing.value, w.listing.value[i]);
  }

  lemma {:induction false} ReportedWhenModified(w: World, index: Index, paths: seq<string>, p: string)
    requires p in paths && IsModified(w, index, false, p)
    ensures p in ModifiedFiles(w, index, false, paths)
  {
    hide IsModified;
    var n := |paths| - 1;
    if paths[n] != p {
      assert paths == paths[..n] + [paths[n]];
      ReportedWhenModified(w, index, paths[..n], p);
    }
  }
}
