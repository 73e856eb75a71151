# Ferrite RealDebrid orchestration, modelled in Dafny

Ferrite's `DebridManager` is the view model that connects search results to the
RealDebrid debrid service. This project models its RealDebrid part:

- the **availability index**: the magnet hashes of a page of search results are sent
  to RealDebrid's instant-availability query, the answer replaces the cached list of
  entries, and a result is classified as fully cached, partly cached (it has batches
  of files to pick from) or not cached;
- the **device authorization** flow and **logout**, over the `realDebridEnabled`,
  `realDebridAuthProcessing` and `realDebridAuthUrl` fields, with the enabled flag
  mirrored into the persisted user defaults;
- the **download pipeline** `fetchRdDownload`: addMagnet, then selectFiles, then
  torrentInfo, then unrestrictLink, deleting the created torrent when a later step
  fails or is cancelled, and always lowering the progress flag and emptying the task
  slot at the end.

Files:

- `types.dfy` (module `RealDebridTypes`): search results, availability entries,
  the outcome of a client call (`Remote`: a value or an error code; `-999` is a
  cancelled call), the log of client calls and the toasts.
- `availability.dfy` (module `Availability`): the hash list sent to RealDebrid, the
  first-match lookup, the batch lookup and the file ids sent to `selectFiles`.
- `pipeline.dfy` (module `Pipeline`): `Fetch`, a reference definition of one run of
  `fetchRdDownload` as the calls made, the toasts shown and the URL set, and the
  properties of a run.
- `debrid_manager.dfy` (module `Manager`): the class `DebridManager` with the
  source's fields, a ghost log of client calls and a ghost copy of the user
  defaults. Each client call's outcome is an argument of the method that makes it.

Three behaviours of the code worth knowing:

- the hash list keeps duplicate hashes (`Availability.MagnetHashesMultiplicity`);
- an authentication error shows an error toast even when it is a cancellation;
- when the picked file's batch cannot be found after `addMagnet` created a torrent,
  the run returns without a toast and without deleting that torrent
  (`Pipeline.MissingBatchStopsSilently`, `Pipeline.DeleteOnlyCreatedTorrent`).

## Model

| member | source | states |
|---|---|---|
| `Availability.CollectHashes` | Ferrite/ViewModels/DebridManager.swift:44-50 | the loop returns exactly the hash list `MagnetHashes` of the results |
| `Availability.MagnetHashesAppend` | Ferrite/ViewModels/DebridManager.swift:44-50 | the hashes of a concatenation are the hashes of the first part followed by those of the second, so input order is kept |
| `Availability.MagnetHashesSingle` | Ferrite/ViewModels/DebridManager.swift:46-49 | a result contributes its magnet hash, or nothing when it has none |
| `Availability.MagnetHashesMultiplicity` | Ferrite/ViewModels/DebridManager.swift:44-50 | each hash occurs in the list as often as there are results carrying it: duplicates are not collapsed |
| `Availability.MagnetHashesMembership` | Ferrite/ViewModels/DebridManager.swift:44-50 | a hash is sent exactly when some result carries it |
| `Availability.FirstMatch` | Ferrite/ViewModels/DebridManager.swift:72 | returns the position of the first entry whose hash is the given one, and nothing exactly when no entry has it |
| `Availability.BatchAt` | Ferrite/ViewModels/DebridManager.swift:152 | a batch is found exactly when an item is selected and the index is within its batches, and it is the one at that index |
| `Availability.BatchFileIds` | Ferrite/ViewModels/DebridManager.swift:156 | the ids are those of the batch's files, one per file, in order |
| `Availability.FileIdsToSelectCases` | Ferrite/ViewModels/DebridManager.swift:149-157 | no picked file selects all files (empty list); a picked file selects the ids of the selected item's batch at its index; an out-of-range index or no selected item yields nothing |
| `Pipeline.DownloadToast` | Ferrite/ViewModels/DebridManager.swift:170-177 | the toast is an info "cancelled" toast exactly for code -999, an error toast with the code otherwise |
| `Pipeline.InvalidMagnetLinkMakesNoCalls` | Ferrite/ViewModels/DebridManager.swift:137-142 | a result without magnet link makes no client call, shows one toast and sets no URL |
| `Pipeline.SuccessfulRun` | Ferrite/ViewModels/DebridManager.swift:147-165 | the URL is set exactly when every step succeeds; the calls are then addMagnet, selectFiles(id, file ids), torrentInfo(id, picked index or 0), unrestrictLink(torrent link), and the URL is the unrestricted link |
| `Pipeline.CleanupAfterAdd` | Ferrite/ViewModels/DebridManager.swift:169-182 | once addMagnet returned an id and the picked file's batch was found, a run that does not succeed deletes that torrent exactly once, as its last call, sets no URL and shows the toast of the failing step's error |
| `Pipeline.DeleteOnlyCreatedTorrent` | Ferrite/ViewModels/DebridManager.swift:144-154 | a torrent is deleted only when addMagnet returned its id and the file batch was found |
| `Pipeline.MissingBatchStopsSilently` | Ferrite/ViewModels/DebridManager.swift:151-154 | a batch that cannot be found ends the run after addMagnet with no toast, no deletion and no URL |
| `Pipeline.AddMagnetFailure` | Ferrite/ViewModels/DebridManager.swift:147 | a failing addMagnet makes no further call and shows the toast for its error code |
| `Pipeline.AtMostOneToast` | Ferrite/ViewModels/DebridManager.swift:137-177 | a run shows at most one toast, and an info toast only for a cancellation |
| `Manager.DebridManager.constructor` | Ferrite/ViewModels/DebridManager.swift:39-41 | the enabled flag is loaded from the persisted key, the store is not written, every other field has its declared initial value |
| `Manager.DebridManager.SetRealDebridEnabled` | Ferrite/ViewModels/DebridManager.swift:24-28 | assigning the enabled flag writes the same value to the persisted "RealDebrid.Enabled" key, keeping the two in agreement |
| `Manager.DebridManager.PopulateDebridHashes` | Ferrite/ViewModels/DebridManager.swift:43-65 | one instant-availability call with the collected hashes; on success the cached list is replaced by the answer, on failure it is unchanged, and an error toast is shown only when the failure is not a cancellation |
| `Manager.DebridManager.MatchSearchResult` | Ferrite/ViewModels/DebridManager.swift:67-81 | no result, no hash or no entry with that hash gives the source's `.none`; otherwise the first matching entry decides: full when it has no batches, partial otherwise; reads only |
| `Manager.DebridManager.SetSelectedRdResult` | Ferrite/ViewModels/DebridManager.swift:83-96 | returns true exactly when an entry matches the result's hash, and then selects the first such entry without a toast; otherwise leaves the selection unchanged and shows the missing-hash or missing-entry toast |
| `Manager.DebridManager.AuthenticateRd` | Ferrite/ViewModels/DebridManager.swift:98-115 | the processing flag is raised; on success the auth URL is the verification URL, the web view is toggled once and the flag is enabled and persisted; on an error the enabled flag is unchanged, an error toast is shown and the auth task is cancelled |
| `Manager.DebridManager.LogoutRd` | Ferrite/ViewModels/DebridManager.swift:117-127 | after deleteTokens succeeds the enabled and processing flags are false (and false is persisted); on failure both are unchanged and an error toast is shown |
| `Manager.DebridManager.FetchRdDownload` | Ferrite/ViewModels/DebridManager.swift:129-188 | on every exit the progress flag is false and the task slot is empty; the calls, toasts and download URL are those of `Pipeline.Fetch` |

## Left out

- The RealDebrid client: `RealDebrid.swift` is not part of this model. Each call's outcome is an argument (a value or an error code); requests, JSON decoding and the device-credential polling cadence are not modelled.
- The outcome of `deleteTorrent` is not an argument: the code discards it with `try?`.
- `addMagnet`'s answer is modelled as an optional id, so that the "Could not cache this torrent" branch is covered; a client that always returns an id is the case where it is present.
- `async`/`await`, `@MainActor` and `Task`: cancellation is modelled only as the error code -999 that a call fails with. `currentDebridTask` is a boolean slot; starting the task and cancelling a previous one happen in the views, which are not modelled. Each operation is one atomic step: a field read after an `await` (such as `selectedRealDebridItem` at Ferrite/ViewModels/DebridManager.swift:152, read after `addMagnet`) is taken at the operation's start, and changes made by other tasks in between are not modelled.
- The optional `toastModel`: the model assumes it is attached. When it is nil the source drops every toast.
- Toast texts and `print` logging: a toast is modelled by its kind and a message constructor that keeps the error code.
- The presentation of the web view: only the toggle of `showWebView` is modelled.
- `UserDefaults` input and output: the store is a ghost map from key to flag, and `Manager.StoredBool` stands in for `UserDefaults.bool(forKey:)` (a missing key reads as false).
- `selectedRealDebridFile` is declared and initialised but none of the modelled operations changes it.
- The SwiftUI views (library, plugins, search appearance, search results list, default action picker): layout and bindings, outside the debrid orchestration.
