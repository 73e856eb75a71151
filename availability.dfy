/** The instant-availability side of the debrid manager: which hashes are sent to
    RealDebrid, how a result is looked up among the cached entries, and which file
    ids a batch stands for. */
module Availability {
  import opened RealDebridTypes

  /** The hashes `populateDebridHashes` sends: the magnet hash of every result that
      has one, in the order of the results, duplicates kept. */
  function MagnetHashes(results: seq<SearchResult>): (hashes: seq<string>)
    ensures |hashes| <= |results|
  {
    if results == [] then []
    else
      var rest := MagnetHashes(results[1..]);
      match results[0].magnetHash
      case Some(h) => [h] + rest
      case None => rest
  }

  /** Collecting hashes distributes over concatenation of the results: the output
      keeps the input order and drops nothing but results without a hash. */
  lemma {:induction false} MagnetHashesAppend(a: seq<SearchResult>, b: seq<SearchResult>)
    ensures MagnetHashes(a + b) == MagnetHashes(a) + MagnetHashes(b)
  {
    if a == [] {
      assert a + b == b;
    } else {
      assert (a + b)[1..] == a[1..] + b;
      MagnetHashesAppend(a[1..], b);
    }
  }

  /** A single result contributes its hash, or nothing when it has none. */
  lemma MagnetHashesSingle(r: SearchResult)
    ensures MagnetHashes([r]) == if r.magnetHash.Some? then [r.magnetHash.value] else []
  {
    assert [r][1..] == [];
  }

  /** Positions of the results whose magnet hash is `h`. */
  ghost function HashIndices(results: seq<SearchResult>, h: string): set<int>
  {
    set i | 0 <= i < |results| && results[i].magnetHash == Some(h)
  }

  /** Adding one result at the end adds its position when it carries `h`. */
  lemma HashIndicesSnoc(init: seq<SearchResult>, r: SearchResult, h: string)
    ensures |HashIndices(init + [r], h)| == |HashIndices(init, h)| + (if r.magnetHash == Some(h) then 1 else 0)
  {
    var all := init + [r];
    var n := |init|;
    assert forall i :: 0 <= i < n ==> all[i] == init[i];
    if r.magnetHash == Some(h) {
      assert HashIndices(all, h) == HashIndices(init, h) + {n};
    } else {
      assert HashIndices(all, h) == HashIndices(init, h);
    }
  }

  /** Duplicates are not collapsed: every result with hash `h` adds one `h`. */
  lemma {:induction false} MagnetHashesMultiplicity(results: seq<SearchResult>, h: string)
    ensures multiset(MagnetHashes(results))[h] == |HashIndices(results, h)|
  {
    if results == [] {
      assert HashIndices(results, h) == {};
    } else {
      var n := |results| - 1;
      var init := results[..n];
      assert results == init + [results[n]];
      MagnetHashesMultiplicity(init, h);
      MagnetHashesAppend(init, [results[n]]);
      MagnetHashesSingle(results[n]);
      HashIndicesSnoc(init, results[n], h);
    }
  }

  /** A hash is sent exactly when some result carries it. */
  lemma MagnetHashesMembership(results: seq<SearchResult>, h: string)
    ensures h in MagnetHashes(results) <==> exists i :: 0 <= i < |results| && results[i].magnetHash == Some(h)
  {
    MagnetHashesMultiplicity(results, h);
    if exists i :: 0 <= i < |results| && results[i].magnetHash == Some(h) {
      var i :| 0 <= i < |results| && results[i].magnetHash == Some(h);
      assert i in HashIndices(results, h);
    } else {
      assert HashIndices(results, h) == {};
    }
  }

  /** The loop of `populateDebridHashes` that builds the hash list. */
  method CollectHashes(results: seq<SearchResult>) returns (hashes: seq<string>)
    ensures hashes == MagnetHashes(results)
  {
    hashes := [];
    for i := 0 to |results|
      invariant hashes == MagnetHashes(results[..i])
    {
      assert results[..i + 1] == results[..i] + [results[i]];
      MagnetHashesAppend(results[..i], [results[i]]);
      MagnetHashesSingle(results[i]);
      if results[i].magnetHash.Some? {
        hashes := hashes + [results[i].magnetHash.value];
      }
    }
    assert results[..|results|] == results;
  }

  /** `i` is the position `first(where: { $0.hash == h })` stops at. */
  ghost predicate IsFirstMatch(items: seq<IA>, h: string, i: int)
  {
    0 <= i < |items| && items[i].hash == h && forall j :: 0 <= j < i ==> items[j].hash != h
  }

  /** Position of the first entry whose hash is `h`, if any. */
  function FirstMatch(items: seq<IA>, h: string): (r: Option<nat>)
    ensures r.Some? ==> IsFirstMatch(items, h, r.value)
    ensures r.None? <==> forall j :: 0 <= j < |items| ==> items[j].hash != h
  {
    if items == [] then None
    else if items[0].hash == h then Some(0)
    else
      match FirstMatch(items[1..], h)
      case None => None
      case Some(k) => Some(k + 1)
  }

  /** `selectedRealDebridItem?.batches[safe: index]`: the batch at `index` of the
      selected entry, absent when nothing is selected or the index is out of range. */
  function BatchAt(selected: Option<IA>, index: int): (b: Option<IABatch>)
    ensures b.Some? <==> selected.Some? && 0 <= index < |selected.value.batches|
    ensures b.Some? ==> b.value == selected.value.batches[index]
  {
    if selected.Some? && 0 <= index < |selected.value.batches| then Some(selected.value.batches[index]) else None
  }

  /** `batch.files.map(\.id)`. */
  function BatchFileIds(files: seq<IABatchFile>): (ids: seq<int>)
    ensures |ids| == |files|
    ensures forall k :: 0 <= k < |files| ==> ids[k] == files[k].id
  {
    if files == [] then [] else [files[0].id] + BatchFileIds(files[1..])
  }

  /** The file ids `fetchRdDownload` sends to `selectFiles`: all files (the empty
      list) when no file was picked, the ids of the picked file's batch otherwise;
      absent when that batch cannot be found, which ends the run. */
  function FileIdsToSelect(iaFile: Option<IAFile>, selected: Option<IA>): (ids: Option<seq<int>>)
  {
    if iaFile.None? then Some([])
    else
      match BatchAt(selected, iaFile.value.batchIndex)
      case None => None
      case Some(batch) => Some(BatchFileIds(batch.files))
  }

  /** The three cases of the file-id selection. */
  lemma FileIdsToSelectCases(iaFile: Option<IAFile>, selected: Option<IA>)
    ensures iaFile.None? ==> FileIdsToSelect(iaFile, selected) == Some([])
    ensures iaFile.Some? && (selected.None? || !(0 <= iaFile.value.batchIndex < |selected.value.batches|))
            ==> FileIdsToSelect(iaFile, selected).None?
    ensures iaFile.Some? && selected.Some? && 0 <= iaFile.value.batchIndex < |selected.value.batches|
            ==> var files := selected.value.batches[iaFile.value.batchIndex].files;
                var ids := FileIdsToSelect(iaFile, selected);
                ids.Some? && |ids.value| == |files| &&
                forall k :: 0 <= k < |files| ==> ids.value[k] == files[k].id
  {
  }

  /** `iaFile?.batchFileIndex ?? 0`: the index passed to `torrentInfo`. */
  function SelectedIndex(iaFile: Option<IAFile>): int
  {
    if iaFile.Some? then iaFile.value.batchFileIndex else 0
  }
}
