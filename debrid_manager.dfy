/** The `DebridManager` view model: the RealDebrid state the app observes, and the
    operations that change it. Each call into the RealDebrid client appears in the
    ghost log `calls`; the outcome of each call is an argument of the operation. */
module Manager {
  import opened RealDebridTypes
  import opened Availability
  import Pipeline

  /** The `UserDefaults` key under which the enabled flag is persisted. */
  const EnabledKey: string := "RealDebrid.Enabled"

  /** `UserDefaults.bool(forKey:)`: a missing key reads as false. */
  function StoredBool(defaults: map<string, bool>, key: string): (b: bool)
    ensures b <==> key in defaults && defaults[key]
  {
    if key in defaults then defaults[key] else false
  }

  class DebridManager {
    // UI state
    var showWebView: bool
    var showLoadingProgress: bool
    /** `currentDebridTask != nil`. */
    var currentDebridTask: bool

    // RealDebrid auth state
    var realDebridEnabled: bool
    var realDebridAuthProcessing: bool
    var realDebridAuthUrl: string

    // RealDebrid fetch state
    var realDebridHashes: seq<IA>
    var realDebridDownloadUrl: string
    var selectedRealDebridItem: Option<IA>
    var selectedRealDebridFile: Option<IAFile>

    /** Every toast handed to the toast model, oldest first. */
    var toasts: seq<Toast>
    /** Every call made on the RealDebrid client, oldest first. */
    ghost var calls: seq<Call>
    /** The persisted user defaults. */
    ghost var userDefaults: map<string, bool>

    /** The enabled flag and its persisted copy agree. */
    ghost predicate Valid()
      reads this
    {
      realDebridEnabled == StoredBool(userDefaults, EnabledKey)
    }

    /** `init`: the enabled flag is read from the user defaults. Swift does not run a
        property's `didSet` for assignments in its own class's initializer, so the
        defaults are not written. */
    constructor (defaults: map<string, bool>)
      ensures Valid()
      ensures userDefaults == defaults
      ensures realDebridEnabled == StoredBool(defaults, EnabledKey)
      ensures !showWebView && !showLoadingProgress && !currentDebridTask
      ensures !realDebridAuthProcessing && realDebridAuthUrl == ""
      ensures realDebridHashes == [] && realDebridDownloadUrl == ""
      ensures selectedRealDebridItem.None? && selectedRealDebridFile.None?
      ensures toasts == [] && calls == []
    {
      showWebView := false;
      showLoadingProgress := false;
      currentDebridTask := false;
      realDebridAuthProcessing := false;
      realDebridAuthUrl := "";
      realDebridHashes := [];
      realDebridDownloadUrl := "";
      selectedRealDebridItem := None;
      selectedRealDebridFile := None;
      toasts := [];
      calls := [];
      userDefaults := defaults;
      realDebridEnabled := StoredBool(defaults, EnabledKey);
    }

    /** An assignment to `realDebridEnabled`, with its `didSet` that persists the
        new value. */
    method SetRealDebridEnabled(enabled: bool)
      modifies this`realDebridEnabled, this`userDefaults
      ensures Valid()
      ensures realDebridEnabled == enabled
      ensures userDefaults == old(userDefaults)[EnabledKey := enabled]
    {
      realDebridEnabled := enabled;
      userDefaults := userDefaults[EnabledKey := enabled];
    }

    /** `populateDebridHashes`: query instant availability for the hashes of the
        results; `response` is the client's answer. */
    method PopulateDebridHashes(results: seq<SearchResult>, response: Remote<seq<IA>>)
      modifies this`realDebridHashes, this`toasts, this`calls
      ensures calls == old(calls) + [InstantAvailability(MagnetHashes(results))]
      ensures response.Ok? ==> realDebridHashes == response.value && toasts == old(toasts)
      ensures response.Err? ==> realDebridHashes == old(realDebridHashes)
      ensures response.Err? && response.code != CancelledCode ==>
              toasts == old(toasts) + [Toast(ErrorToast, HashError(response.code))]
      ensures response.Err? && response.code == CancelledCode ==> toasts == old(toasts)
    {
      var hashes := CollectHashes(results);
      calls := calls + [InstantAvailability(hashes)];
      match response {
        case Ok(debridHashes) =>
          realDebridHashes := debridHashes;
        case Err(code) =>
          if code != CancelledCode {
            toasts := toasts + [Toast(ErrorToast, HashError(code))];
          }
      }
    }

    /** `matchSearchResult`: how much of the result's torrent is cached, judged by
        the first entry whose hash is the result's magnet hash. */
    function MatchSearchResult(result: Option<SearchResult>): (status: IAStatus)
      reads this
      ensures status == NoMatch <==>
              || result.None?
              || result.value.magnetHash.None?
              || forall i :: 0 <= i < |realDebridHashes| ==> realDebridHashes[i].hash != result.value.magnetHash.value
      ensures status != NoMatch ==>
              exists i :: IsFirstMatch(realDebridHashes, result.value.magnetHash.value, i) &&
                          (status == Full <==> realDebridHashes[i].batches == [])
    {
      if result.None? then NoMatch
      else
        match result.value.magnetHash
        case None => NoMatch
        case Some(hash) =>
          match FirstMatch(realDebridHashes, hash)
          case None => NoMatch
          case Some(i) => if realDebridHashes[i].batches == [] then Full else Partial
    }

    /** `setSelectedRdResult`: select the first entry whose hash is the result's
        magnet hash; report through a toast when there is none. */
    method SetSelectedRdResult(result: SearchResult) returns (found: bool)
      modifies this`selectedRealDebridItem, this`toasts
      ensures found <==> result.magnetHash.Some? &&
                         exists i :: 0 <= i < |realDebridHashes| && realDebridHashes[i].hash == result.magnetHash.value
      ensures found ==> toasts == old(toasts) &&
                        exists i :: IsFirstMatch(realDebridHashes, result.magnetHash.value, i) &&
                                    selectedRealDebridItem == Some(realDebridHashes[i])
      ensures !found ==> selectedRealDebridItem == old(selectedRealDebridItem)
      ensures found <==> MatchSearchResult(Some(result)) != NoMatch
      ensures found ==> (MatchSearchResult(Some(result)) == Full <==> selectedRealDebridItem.value.batches == [])
      ensures result.magnetHash.None? ==> toasts == old(toasts) + [Toast(ErrorToast, MissingMagnetHash)]
      ensures result.magnetHash.Some? && !found ==>
              toasts == old(toasts) + [Toast(ErrorToast, NoEntryForHash(result.magnetHash.value))]
    {
      if result.magnetHash.None? {
        toasts := toasts + [Toast(ErrorToast, MissingMagnetHash)];
        return false;
      }
      var magnetHash := result.magnetHash.value;
      var match_ := FirstMatch(realDebridHashes, magnetHash);
      if match_.Some? {
        var k := match_.value;
        selectedRealDebridItem := Some(realDebridHashes[k]);
        found := true;
        assert IsFirstMatch(realDebridHashes, magnetHash, k);
      } else {
        toasts := toasts + [Toast(ErrorToast, NoEntryForHash(magnetHash))];
        found := false;
      }
    }

    /** `authenticateRd`: fetch the verification info, show its URL, then wait for
        the device credentials. `verification` and `credentials` are the client's
        answers to the two calls. */
    method AuthenticateRd(verification: Remote<VerificationResponse>, credentials: Remote<()>)
      requires Valid()
      modifies this`realDebridAuthProcessing, this`realDebridAuthUrl, this`showWebView,
               this`realDebridEnabled, this`userDefaults, this`toasts, this`calls
      ensures Valid()
      ensures realDebridAuthProcessing
      ensures verification.Err? ==>
              && calls == old(calls) + [GetVerificationInfo, CancelAuthTask]
              && toasts == old(toasts) + [Toast(ErrorToast, AuthError(verification.code))]
              && realDebridAuthUrl == old(realDebridAuthUrl) && showWebView == old(showWebView)
              && realDebridEnabled == old(realDebridEnabled) && userDefaults == old(userDefaults)
      ensures verification.Ok? ==>
              && realDebridAuthUrl == verification.value.directVerificationUrl
              && showWebView == !old(showWebView)
      ensures verification.Ok? && credentials.Ok? ==>
              && calls == old(calls) + [GetVerificationInfo, GetDeviceCredentials(verification.value.deviceCode)]
              && toasts == old(toasts)
              && realDebridEnabled
              && userDefaults == old(userDefaults)[EnabledKey := true]
      ensures verification.Ok? && credentials.Err? ==>
              && calls == old(calls) + [GetVerificationInfo, GetDeviceCredentials(verification.value.deviceCode), CancelAuthTask]
              && toasts == old(toasts) + [Toast(ErrorToast, AuthError(credentials.code))]
              && realDebridEnabled == old(realDebridEnabled) && userDefaults == old(userDefaults)
    {
      realDebridAuthProcessing := true;
      calls := calls + [GetVerificationInfo];
      var failure: Option<int> := None;
      if verification.Err? {
        failure := Some(verification.code);
      } else {
        var verificationResponse := verification.value;
        realDebridAuthUrl := verificationResponse.directVerificationUrl;
        showWebView := !showWebView;
        calls := calls + [GetDeviceCredentials(verificationResponse.deviceCode)];
        if credentials.Err? {
          failure := Some(credentials.code);
        } else {
          SetRealDebridEnabled(true);
        }
      }
      if failure.Some? {
        toasts := toasts + [Toast(ErrorToast, AuthError(failure.value))];
        calls := calls + [CancelAuthTask];
      }
    }

    /** `logoutRd`: delete the tokens; `outcome` is the client's answer. */
    method LogoutRd(outcome: Remote<()>)
      requires Valid()
      modifies this`realDebridEnabled, this`userDefaults, this`realDebridAuthProcessing, this`toasts, this`calls
      ensures Valid()
      ensures calls == old(calls) + [DeleteTokens]
      ensures outcome.Ok? ==>
              && !realDebridEnabled && !realDebridAuthProcessing
              && userDefaults == old(userDefaults)[EnabledKey := false]
              && toasts == old(toasts)
      ensures outcome.Err? ==>
              && realDebridEnabled == old(realDebridEnabled)
              && realDebridAuthProcessing == old(realDebridAuthProcessing)
              && userDefaults == old(userDefaults)
              && toasts == old(toasts) + [Toast(ErrorToast, LogoutError(outcome.code))]
    {
      calls := calls + [DeleteTokens];
      match outcome {
        case Ok(_) =>
          SetRealDebridEnabled(false);
          realDebridAuthProcessing := false;
        case Err(code) =>
          toasts := toasts + [Toast(ErrorToast, LogoutError(code))];
      }
    }

    /** `fetchRdDownload`: resolve the result (and the picked file, if any) into a
        download URL. The effect is that of `Pipeline.Fetch`, and whatever way the run
        ends, the progress flag is lowered and the task slot is empty. */
    method FetchRdDownload(searchResult: SearchResult, iaFile: Option<IAFile>, script: Pipeline.FetchScript)
      modifies this`showLoadingProgress, this`currentDebridTask, this`realDebridDownloadUrl, this`toasts, this`calls
      ensures !showLoadingProgress && !currentDebridTask
      ensures calls == old(calls) + Pipeline.Fetch(searchResult, iaFile, selectedRealDebridItem, script).calls
      ensures toasts == old(toasts) + Pipeline.Fetch(searchResult, iaFile, selectedRealDebridItem, script).toasts
      ensures var url := Pipeline.Fetch(searchResult, iaFile, selectedRealDebridItem, script).downloadUrl;
              realDebridDownloadUrl == if url.Some? then url.value else old(realDebridDownloadUrl)
    {
      showLoadingProgress := true;
      label run: {
        if searchResult.magnetLink.None? {
          toasts := toasts + [Toast(ErrorToast, InvalidMagnetLink)];
          break run;
        }
        var magnetLink := searchResult.magnetLink.value;
        var realDebridId: Option<string> := None;
        // the error that reached the `catch` block, if any
        var failure: Option<int> := None;
        label attempt: {
          calls := calls + [AddMagnet(magnetLink)];
          if script.addMagnet.Err? {
            failure := Some(script.addMagnet.code);
            break attempt;
          }
          realDebridId := script.addMagnet.value;

          var fileIds: seq<int> := [];
          if iaFile.Some? {
            var batch := BatchAt(selectedRealDebridItem, iaFile.value.batchIndex);
            if batch.None? {
              break run;
            }
            fileIds := BatchFileIds(batch.value.files);
          }

          if realDebridId.Some? {
            var id := realDebridId.value;
            calls := calls + [SelectFiles(id, fileIds)];
            if script.selectFiles.Err? {
              failure := Some(script.selectFiles.code);
              break attempt;
            }
            calls := calls + [TorrentInfo(id, SelectedIndex(iaFile))];
            if script.torrentInfo.Err? {
              failure := Some(script.torrentInfo.code);
              break attempt;
            }
            var torrentLink := script.torrentInfo.value;
            calls := calls + [UnrestrictLink(torrentLink)];
            if script.unrestrictLink.Err? {
              failure := Some(script.unrestrictLink.code);
              break attempt;
            }
            realDebridDownloadUrl := script.unrestrictLink.value;
          } else {
            toasts := toasts + [Toast(ErrorToast, CouldNotCache)];
          }
        }
        if failure.Some? {
          toasts := toasts + [Pipeline.DownloadToast(failure.value)];
          if realDebridId.Some? {
            // best effort: the outcome of deleteTorrent is discarded
            calls := calls + [DeleteTorrent(realDebridId.value)];
          }
          showLoadingProgress := false;
        }
      }
      // defer
      currentDebridTask := false;
      showLoadingProgress := false;
    }
  }

  /** Results with hashes a, a and b, cached as a fully and b partly: after the
      hashes are populated, both a results match fully, b partly, c not at all. */
  method ExamplePopulateThenMatch()
  {
    var m := new DebridManager(map[]);
    assert !m.realDebridEnabled;
    var a := SearchResult(Some("magnet:a"), Some("a"));
    var b := SearchResult(Some("magnet:b"), Some("b"));
    var c := SearchResult(Some("magnet:c"), Some("c"));
    var entryA := IA("a", [], []);
    var entryB := IA("b", [], [IABatch([IABatchFile(1, "f")])]);
    m.PopulateDebridHashes([a, a, b], Ok([entryA, entryB]));
    MagnetHashesSingle(a);
    MagnetHashesSingle(b);
    MagnetHashesAppend([a], [a]);
    MagnetHashesAppend([a, a], [b]);
    assert [a] + [a] == [a, a] && [a, a] + [b] == [a, a, b];
    assert MagnetHashes([a, a, b]) == ["a", "a", "b"];
    assert m.calls == [InstantAvailability(["a", "a", "b"])];
    assert "a" != "b" && "a" != "c" && "b" != "c";
    assert [entryA, entryB][1..] == [entryB];
    assert FirstMatch([entryB], "b") == Some(0);
    assert FirstMatch([entryA, entryB], "b") == Some(1);
    assert m.MatchSearchResult(Some(a)) == Full;
    assert m.MatchSearchResult(Some(b)) == Partial;
    assert m.MatchSearchResult(Some(c)) == NoMatch;
    assert m.MatchSearchResult(None) == NoMatch;
  }
}
