/** ETLPipelineService.loadAndProcessDocuments: every Markdown file of the
    documents directory is loaded again when its hash differs from the one the
    tracker recorded, and counted as new, updated or skipped. */
module EtlPipeline {
  import opened Wrappers
  import opened Strings
  import opened DocumentTracker

  /** A directory entry: its name, its absolute path, the hash computed for it
      (None when reading the file fails) and whether loading it into the
      vector store succeeds. */
  datatype FileEntry = FileEntry(name: string, path: string, hash: Option<string>, loads: bool)

  datatype Outcome = New | Updated | Skipped | Failed

  datatype Counts = Counts(newCount: nat, updatedCount: nat, skippedCount: nat)

  datatype Report = Report(newCount: nat, updatedCount: nat, skippedCount: nat, total: nat)

  const MarkdownExtension: string := "md"

  /** File.extension: the text after the last '.', or "" without one. */
  function Extension(name: string): string {
    if '.' in name then AfterLast(name, '.') else []
  }

  predicate IsMarkdown(f: FileEntry) {
    Lower(Extension(f.name)) == MarkdownExtension
  }

  /** listFiles { it.extension.lowercase() == "md" }. */
  function MarkdownFiles(files: seq<FileEntry>): (r: seq<FileEntry>)
    ensures |r| <= |files|
    ensures forall i :: 0 <= i < |r| ==> IsMarkdown(r[i]) && r[i] in files
    ensures forall i :: 0 <= i < |files| && IsMarkdown(files[i]) ==> files[i] in r
  {
    Filter(files, IsMarkdown)
  }

  /** What one file contributes: a failure is caught and counted nowhere. */
  function Classify(hashes: map<string, string>, f: FileEntry): (r: Outcome)
    ensures r == Skipped <==> f.hash.Some? && !Changed(hashes, f.path, f.hash.value)
    ensures r == New <==> f.hash.Some? && f.loads && f.path !in hashes
    ensures r == Updated <==> f.hash.Some? && f.loads && f.path in hashes && hashes[f.path] != f.hash.value
  {
    match f.hash
    case None => Failed
    case Some(h) =>
      if !Changed(hashes, f.path, h) then Skipped
      else if !f.loads then Failed
      else if f.path in hashes then Updated
      else New
  }

  /** The tracker after one file: the hash is recorded only for a new or
      updated file, that is, after a successful load. */
  function Record(hashes: map<string, string>, f: FileEntry): map<string, string> {
    match Classify(hashes, f)
    case New => hashes[f.path := f.hash.value]
    case Updated => hashes[f.path := f.hash.value]
    case _ => hashes
  }

  function Tally(c: Counts, o: Outcome): Counts {
    match o
    case New => c.(newCount := c.newCount + 1)
    case Updated => c.(updatedCount := c.updatedCount + 1)
    case Skipped => c.(skippedCount := c.skippedCount + 1)
    case Failed => c
  }

  /** The tracker and the counters after processing the files in order. */
  function Run(hashes: map<string, string>, files: seq<FileEntry>): (map<string, string>, Counts)
    decreases |files|
  {
    if files == [] then (hashes, Counts(0, 0, 0))
    else
      var (h, c) := Run(hashes, files[..|files| - 1]);
      var f := files[|files| - 1];
      (Record(h, f), Tally(c, Classify(h, f)))
  }

  lemma RunStep(hashes: map<string, string>, files: seq<FileEntry>, i: nat)
    requires i < |files|
    ensures var (h, c) := Run(hashes, files[..i]);
      Run(hashes, files[..i + 1]) == (Record(h, files[i]), Tally(c, Classify(h, files[i])))
  {
    assert files[..i + 1][..i] == files[..i];
  }

  function Sum(c: Counts): nat {
    c.newCount + c.updatedCount + c.skippedCount
  }

  predicate Readable(files: seq<FileEntry>) {
    forall i :: 0 <= i < |files| ==> files[i].hash.Some? && files[i].loads
  }

  predicate DistinctPaths(files: seq<FileEntry>) {
    forall i, j :: 0 <= i < j < |files| ==> files[i].path != files[j].path
  }

  /** Each file increments at most one counter, and exactly one when no file
      fails to be read or loaded. */
  lemma {:induction false} RunCounts(hashes: map<string, string>, files: seq<FileEntry>)
    ensures Sum(Run(hashes, files).1) <= |files|
    ensures Readable(files) ==> Sum(Run(hashes, files).1) == |files|
    decreases |files|
  {
    if files != [] {
      var front := files[..|files| - 1];
      RunCounts(hashes, front);
      assert Readable(files) ==> Readable(front) by {
        if Readable(files) {
          forall i | 0 <= i < |front| ensures front[i].hash.Some? && front[i].loads {
            assert front[i] == files[i];
          }
        }
      }
    }
  }

  /** A path that no file loaded successfully keeps its tracked hash, or stays untracked. */
  lemma {:induction false} RunTouchesOnlyLoaded(hashes: map<string, string>, files: seq<FileEntry>, p: string)
    requires forall i :: 0 <= i < |files| && files[i].path == p ==> files[i].hash.None? || !files[i].loads
    ensures var h := Run(hashes, files).0;
      (p in h <==> p in hashes) && (p in hashes ==> h[p] == hashes[p])
    decreases |files|
  {
    if files != [] {
      var front := files[..|files| - 1];
      assert forall i :: 0 <= i < |front| ==> front[i] == files[i];
      RunTouchesOnlyLoaded(hashes, front, p);
    }
  }

  /** After a run over readable files with distinct paths, every file's hash is recorded. */
  lemma {:induction false} RunRecordsAll(hashes: map<string, string>, files: seq<FileEntry>)
    requires Readable(files) && DistinctPaths(files)
    ensures var h := Run(hashes, files).0;
      forall i :: 0 <= i < |files| ==> files[i].path in h && h[files[i].path] == files[i].hash.value
    decreases |files|
  {
    if files != [] {
      var front := files[..|files| - 1];
      assert forall i :: 0 <= i < |front| ==> front[i] == files[i];
      RunRecordsAll(hashes, front);
    }
  }

  /** Over files whose hashes are all recorded, every file is skipped and the
      tracker is left as it was. */
  lemma {:induction false} RecordedAllSkipped(hashes: map<string, string>, files: seq<FileEntry>)
    requires forall i :: 0 <= i < |files| ==>
      files[i].hash.Some? && files[i].path in hashes && hashes[files[i].path] == files[i].hash.value
    ensures Run(hashes, files) == (hashes, Counts(0, 0, |files|))
    decreases |files|
  {
    if files != [] {
      var front := files[..|files| - 1];
      assert forall i :: 0 <= i < |front| ==> front[i] == files[i];
      RecordedAllSkipped(hashes, front);
    }
  }

  /** A second run over the same unchanged files reports every file as skipped. */
  lemma SecondRunSkipsAll(hashes: map<string, string>, files: seq<FileEntry>)
    requires Readable(files) && DistinctPaths(files)
    ensures Run(Run(hashes, files).0, files).1 == Counts(0, 0, |files|)
  {
    RunRecordsAll(hashes, files);
    RecordedAllSkipped(Run(hashes, files).0, files);
  }

  /** loadAndProcessDocuments; listing is None when the directory does not exist. */
  method LoadAndProcessDocuments(tracker: Tracker, listing: Option<seq<FileEntry>>) returns (report: Report)
    modifies tracker
    ensures listing.None? ==>
      report == Report(0, 0, 0, 0) && tracker.documentHashes == old(tracker.documentHashes)
    ensures listing.Some? ==>
      var files := MarkdownFiles(listing.value);
      var (h, c) := Run(old(tracker.documentHashes), files);
      tracker.documentHashes == h
      && report == Report(c.newCount, c.updatedCount, c.skippedCount, |files|)
  {
    if listing.None? {
      return Report(0, 0, 0, 0);
    }
    var files := MarkdownFiles(listing.value);
    var newCount, updatedCount, skippedCount := 0, 0, 0;
    for i := 0 to |files|
      invariant Run(old(tracker.documentHashes), files[..i]) ==
        (tracker.documentHashes, Counts(newCount, updatedCount, skippedCount))
    {
      RunStep(old(tracker.documentHashes), files, i);
      ghost var hashes := tracker.documentHashes;
      ghost var counts := Counts(newCount, updatedCount, skippedCount);
      var file := files[i];
      if file.hash.Some? {
        var currentHash := file.hash.value;
        var wasTracked := file.path in tracker.TrackedDocuments();
        if tracker.IsDocumentChanged(file.path, currentHash) {
          if file.loads {
            tracker.UpdateDocumentHash(file.path, currentHash);
            if wasTracked {
              updatedCount := updatedCount + 1;
            } else {
              newCount := newCount + 1;
            }
          }
        } else {
          skippedCount := skippedCount + 1;
        }
      }
      assert tracker.documentHashes == Record(hashes, file);
      assert Counts(newCount, updatedCount, skippedCount) == Tally(counts, Classify(hashes, file));
    }
    assert files[..|files|] == files;
    return Report(newCount, updatedCount, skippedCount, |files|);
  }
}
