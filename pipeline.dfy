/** The download pipeline of `fetchRdDownload` as a reference definition: given the
    search result, the picked file, the selected availability entry and the outcome
    of every client call, the calls made, the toasts shown and the download URL set. */
module Pipeline {
  import opened RealDebridTypes
  import opened Availability

  /** What the RealDebrid client answers to each step of one run. `deleteTorrent`
      has no entry: its outcome is discarded (`try?`). */
  datatype FetchScript = FetchScript(
    addMagnet: Remote<Option<string>>,
    selectFiles: Remote<()>,
    torrentInfo: Remote<string>,
    unrestrictLink: Remote<string>)

  /** What one run leaves behind: the client calls in order, the toasts in order and
      the new `realDebridDownloadUrl` (absent when the run does not assign it). */
  datatype FetchTrace = FetchTrace(calls: seq<Call>, toasts: seq<Toast>, downloadUrl: Option<string>)

  /** The toast of the `catch` block: an info toast for a cancelled call, an error
      toast for every other error. */
  function DownloadToast(code: int): (t: Toast)
    ensures t.kind == InfoToast <==> code == CancelledCode
    ensures t.kind == InfoToast ==> t.message == DownloadCancelled
    ensures t.kind == ErrorToast ==> t.message == DownloadError(code)
  {
    if code == CancelledCode then Toast(InfoToast, DownloadCancelled) else Toast(ErrorToast, DownloadError(code))
  }

  /** The `catch` block after the torrent `id` was created: the toast for the error,
      then a single best-effort deletion of the torrent. */
  function FailAfterAdd(done: seq<Call>, id: string, code: int): FetchTrace
  {
    FetchTrace(done + [DeleteTorrent(id)], [DownloadToast(code)], None)
  }

  /** The chain selectFiles, torrentInfo, unrestrictLink for torrent `id`. */
  function ResolveTorrent(link: string, id: string, fileIds: seq<int>, index: int, s: FetchScript): FetchTrace
  {
    var afterSelect := [AddMagnet(link), SelectFiles(id, fileIds)];
    match s.selectFiles
    case Err(code) => FailAfterAdd(afterSelect, id, code)
    case Ok(_) =>
      var afterInfo := afterSelect + [TorrentInfo(id, index)];
      match s.torrentInfo
      case Err(code) => FailAfterAdd(afterInfo, id, code)
      case Ok(torrentLink) =>
        var afterUnrestrict := afterInfo + [UnrestrictLink(torrentLink)];
        match s.unrestrictLink
        case Err(code) => FailAfterAdd(afterUnrestrict, id, code)
        case Ok(downloadLink) => FetchTrace(afterUnrestrict, [], Some(downloadLink))
  }

  /** One run of `fetchRdDownload`. */
  function Fetch(result: SearchResult, iaFile: Option<IAFile>, selected: Option<IA>, s: FetchScript): FetchTrace
  {
    match result.magnetLink
    case None => FetchTrace([], [Toast(ErrorToast, InvalidMagnetLink)], None)
    case Some(link) =>
      match s.addMagnet
      case Err(code) => FetchTrace([AddMagnet(link)], [DownloadToast(code)], None)
      case Ok(realDebridId) =>
        match FileIdsToSelect(iaFile, selected)
        case None => FetchTrace([AddMagnet(link)], [], None)
        case Some(fileIds) =>
          match realDebridId
          case None => FetchTrace([AddMagnet(link)], [Toast(ErrorToast, CouldNotCache)], None)
          case Some(id) => ResolveTorrent(link, id, fileIds, SelectedIndex(iaFile), s)
  }

  /** Every client call succeeds and a torrent id comes back. */
  predicate AllSucceed(result: SearchResult, iaFile: Option<IAFile>, selected: Option<IA>, s: FetchScript)
  {
    && result.magnetLink.Some?
    && s.addMagnet.Ok? && s.addMagnet.value.Some?
    && FileIdsToSelect(iaFile, selected).Some?
    && s.selectFiles.Ok? && s.torrentInfo.Ok? && s.unrestrictLink.Ok?
  }

  /** A missing magnet link ends the run before any client call, with one toast. */
  lemma InvalidMagnetLinkMakesNoCalls(result: SearchResult, iaFile: Option<IAFile>, selected: Option<IA>, s: FetchScript)
    requires result.magnetLink.None?
    ensures var t := Fetch(result, iaFile, selected, s);
            t.calls == [] && t.toasts == [Toast(ErrorToast, InvalidMagnetLink)] && t.downloadUrl.None?
  {
  }

  /** The download URL is set exactly when every step succeeds; the calls are then
      addMagnet, selectFiles, torrentInfo, unrestrictLink in this order, with the
      created id, the chosen file ids and the chosen file index, and the URL is the
      unrestricted link. */
  lemma SuccessfulRun(result: SearchResult, iaFile: Option<IAFile>, selected: Option<IA>, s: FetchScript)
    ensures var t := Fetch(result, iaFile, selected, s);
            t.downloadUrl.Some? <==> AllSucceed(result, iaFile, selected, s)
    ensures AllSucceed(result, iaFile, selected, s) ==>
            var t := Fetch(result, iaFile, selected, s);
            var id := s.addMagnet.value.value;
            && t.calls == [AddMagnet(result.magnetLink.value),
                           SelectFiles(id, FileIdsToSelect(iaFile, selected).value),
                           TorrentInfo(id, SelectedIndex(iaFile)),
                           UnrestrictLink(s.torrentInfo.value)]
            && t.downloadUrl == Some(s.unrestrictLink.value)
            && t.toasts == []
  {
  }

  /** A run that created torrent `id` and then does not finish deletes that torrent
      exactly once, as its last call, and shows the toast of the failing step's error. */
  lemma CleanupAfterAdd(result: SearchResult, iaFile: Option<IAFile>, selected: Option<IA>, s: FetchScript, id: string)
    requires result.magnetLink.Some? && s.addMagnet == Ok(Some(id))
    requires FileIdsToSelect(iaFile, selected).Some?
    requires !AllSucceed(result, iaFile, selected, s)
    ensures var t := Fetch(result, iaFile, selected, s);
            && Count(t.calls, DeleteTorrent(id)) == 1
            && t.calls[|t.calls| - 1] == DeleteTorrent(id)
            && t.downloadUrl.None?
            && t.toasts == [DownloadToast(FirstError(s))]
  {
    var t := Fetch(result, iaFile, selected, s);
    var before := t.calls[..|t.calls| - 1];
    assert t.calls == before + [DeleteTorrent(id)];
    assert DeleteTorrent(id) !in before;
    CountSnoc(before, DeleteTorrent(id));
  }

  /** The code of the first failing step after addMagnet. */
  function FirstError(s: FetchScript): int
  {
    if s.selectFiles.Err? then s.selectFiles.code
    else if s.torrentInfo.Err? then s.torrentInfo.code
    else if s.unrestrictLink.Err? then s.unrestrictLink.code
    else 0
  }

  lemma {:induction false} CountSnoc(calls: seq<Call>, c: Call)
    requires c !in calls
    ensures Count(calls + [c], c) == 1
  {
    if calls != [] {
      assert (calls + [c])[1..] == calls[1..] + [c];
      CountSnoc(calls[1..], c);
    } else {
      assert [c][1..] == [];
    }
  }

  /** No torrent is deleted unless addMagnet returned its id; in particular a failed
      addMagnet and a batch that cannot be found delete nothing. */
  lemma DeleteOnlyCreatedTorrent(result: SearchResult, iaFile: Option<IAFile>, selected: Option<IA>, s: FetchScript, c: Call)
    requires c in Fetch(result, iaFile, selected, s).calls && c.DeleteTorrent?
    ensures s.addMagnet == Ok(Some(c.debridId))
    ensures result.magnetLink.Some? && FileIdsToSelect(iaFile, selected).Some?
  {
  }

  /** The file batch of the picked file cannot be found: the run stops right after
      addMagnet, without a toast and without deleting the torrent it created. */
  lemma MissingBatchStopsSilently(result: SearchResult, iaFile: Option<IAFile>, selected: Option<IA>, s: FetchScript)
    requires result.magnetLink.Some? && s.addMagnet.Ok?
    requires iaFile.Some?
    requires selected.None? || !(0 <= iaFile.value.batchIndex < |selected.value.batches|)
    ensures var t := Fetch(result, iaFile, selected, s);
            t.calls == [AddMagnet(result.magnetLink.value)] && t.toasts == [] && t.downloadUrl.None?
  {
  }

  /** A failing addMagnet shows the toast for its error and makes no other call. */
  lemma AddMagnetFailure(result: SearchResult, iaFile: Option<IAFile>, selected: Option<IA>, s: FetchScript)
    requires result.magnetLink.Some? && s.addMagnet.Err?
    ensures var t := Fetch(result, iaFile, selected, s);
            && t.calls == [AddMagnet(result.magnetLink.value)]
            && t.toasts == [DownloadToast(s.addMagnet.code)]
            && t.downloadUrl.None?
  {
  }

  /** A run shows at most one toast; it is an info toast only for a cancelled call. */
  lemma AtMostOneToast(result: SearchResult, iaFile: Option<IAFile>, selected: Option<IA>, s: FetchScript)
    ensures var t := Fetch(result, iaFile, selected, s);
            && |t.toasts| <= 1
            && (forall k :: 0 <= k < |t.toasts| && t.toasts[k].kind == InfoToast ==> t.toasts[k].message == DownloadCancelled)
            && (forall k :: 0 <= k < |t.toasts| && t.toasts[k].kind == InfoToast ==>
                  || s.addMagnet == Err(CancelledCode) || s.selectFiles == Err(CancelledCode)
                  || s.torrentInfo == Err(CancelledCode) || s.unrestrictLink == Err(CancelledCode))
  {
  }
}
