/** Values the RealDebrid orchestration of Ferrite works on: search results, the
    instant-availability records, the outcome of a call to the RealDebrid client,
    the log of calls made to that client and the toasts shown to the user. */
module RealDebridTypes {

  datatype Option<T> = None | Some(value: T)

  /** A search result from a source; only the two fields the debrid manager reads. */
  datatype SearchResult = SearchResult(magnetLink: Option<string>, magnetHash: Option<string>)

  /** One file of a cached batch (`RealDebridIABatchFile`). */
  datatype IABatchFile = IABatchFile(id: int, fileName: string)

  /** A group of files that is cached together (`RealDebridIABatch`). */
  datatype IABatch = IABatch(files: seq<IABatchFile>)

  /** A file the user picked from a partially cached torrent (`RealDebridIAFile`):
      which batch it belongs to and its index inside the torrent. */
  datatype IAFile = IAFile(name: string, batchIndex: int, batchFileIndex: int)

  /** One instant-availability entry (`RealDebridIA`): a magnet hash and the batches
      of files that are cached for it. No batches means the whole torrent is cached. */
  datatype IA = IA(hash: string, files: seq<IAFile>, batches: seq<IABatch>)

  /** `RealDebridIAStatus`; `NoMatch` is the source's `.none`. */
  datatype IAStatus = Full | Partial | NoMatch

  /** What the device-code endpoint answers. */
  datatype VerificationResponse = VerificationResponse(deviceCode: string, directVerificationUrl: string)

  /** The outcome of one call into the RealDebrid client: a value, or an error
      carrying its `NSError` code. */
  datatype Remote<T> = Ok(value: T) | Err(code: int)

  /** `NSURLErrorCancelled`: the code a cancelled network call fails with. */
  const CancelledCode: int := -999

  /** The calls the debrid manager makes on its RealDebrid client, in order. */
  datatype Call =
    | InstantAvailability(hashes: seq<string>)
    | GetVerificationInfo
    | GetDeviceCredentials(deviceCode: string)
    | CancelAuthTask
    | DeleteTokens
    | AddMagnet(magnetLink: string)
    | SelectFiles(debridId: string, fileIds: seq<int>)
    | TorrentInfo(debridId: string, selectedIndex: int)
    | UnrestrictLink(debridDownloadLink: string)
    | DeleteTorrent(debridId: string)

  datatype ToastKind = ErrorToast | InfoToast

  /** The message of a toast, one constructor per message the manager can show
      (the text itself is not modelled, the error a message embeds is kept as its code). */
  datatype Message =
    | HashError(code: int)
    | MissingMagnetHash
    | NoEntryForHash(hash: string)
    | AuthError(code: int)
    | LogoutError(code: int)
    | InvalidMagnetLink
    | CouldNotCache
    | DownloadCancelled
    | DownloadError(code: int)

  datatype Toast = Toast(kind: ToastKind, message: Message)

  /** Number of occurrences of `c` in `calls`. */
  function Count(calls: seq<Call>, c: Call): (n: nat)
    ensures n <= |calls|
    ensures n == 0 <==> c !in calls
  {
    if calls == [] then 0
    else (if calls[0] == c then 1 else 0) + Count(calls[1..], c)
  }
}
