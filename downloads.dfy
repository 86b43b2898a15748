/**
 * The packaged downloader's request handling around a download: `download_song`
 * validation and outcome, the two batch aggregators and `get_download_progress`.
 * File existence, file sizes and the results of the transfers are inputs.
 */
module Downloads {
  import opened Wrappers
  import opened Text
  import opened Tags
  import FilenamePolicy
  import Memory

  /** The `DownloadResult` dataclass. */
  datatype DownloadResult = DownloadResult(
    success: bool,
    filePath: Option<string>,
    fileSize: int,
    errorMessage: string,
    musicInfo: Option<MusicInfo>)

  function Failed(message: string, info: Option<MusicInfo>): DownloadResult {
    DownloadResult(false, None, 0, message, info)
  }

  const Qualities: seq<string> := ["standard", "exhigh", "lossless", "hires", "sky", "jyeffect", "jymaster"]

  const InvalidQualityMessage: string :=
    "无效的音质参数，支持: standard, exhigh, lossless, hires, sky, jyeffect, jymaster"
  const InvalidFormatMessage: string := "返回格式只支持 'file' 或 'json'"
  const DownloadFailedPrefix: string := "下载失败: "
  const DownloadExceptionPrefix: string := "下载异常: "
  const NotSubscriptable: string := "'MusicInfo' object is not subscriptable"
  const NoneNotAPath: string := "expected str, bytes or os.PathLike object, not NoneType"
  const FileMissingMessage: string := "文件不存在"

  /** The file name the downloader stores a song under. */
  function TargetName(info: MusicInfo): (r: string)
    ensures |r| > 0
  {
    FilenamePolicy.Sanitize(info.artists + " - " + info.name) + FilenamePolicy.DetermineExtension(info.downloadUrl, "")
  }

  /** `str(download_dir / name)`, for a directory written without a trailing separator. */
  function PathIn(dir: string, name: string): string {
    dir + "/" + name
  }

  const RequestFailedPrefix: string := "下载请求失败: "
  const TransferErrorPrefix: string := "下载过程中发生错误: "

  /**
   * How the transfer inside `download_music_file` ends: the body was written and
   * tagged (a tag error is swallowed by `_write_music_tags`), the request raised a
   * `RequestException`, or another exception was raised on the way.
   */
  datatype Transfer = Written | RequestFailed(reason: string) | TransferFailed(reason: string)

  /**
   * `download_music_file` of the packaged downloader. `present` and `sizeOf` are the
   * file system before the transfer, `sizeAfter` the sizes once it has written.
   */
  function DownloadMusicFile(info: MusicInfo, dir: string, present: string -> bool, sizeOf: string -> nat,
                             transfer: Transfer, sizeAfter: string -> nat): (r: DownloadResult)
    ensures r.success <==> present(PathIn(dir, TargetName(info))) || transfer.Written?
    ensures r.success ==> r.filePath == Some(PathIn(dir, TargetName(info))) && r.musicInfo == Some(info)
    ensures r.success && present(PathIn(dir, TargetName(info))) ==> r.fileSize == sizeOf(PathIn(dir, TargetName(info)))
    ensures r.success && !present(PathIn(dir, TargetName(info))) ==> r.fileSize == sizeAfter(PathIn(dir, TargetName(info)))
    ensures !r.success ==> r.filePath.None? && r.musicInfo.None?
    ensures !r.success ==> RequestFailedPrefix <= r.errorMessage || TransferErrorPrefix <= r.errorMessage
  {
    var path := PathIn(dir, TargetName(info));
    if present(path) then DownloadResult(true, Some(path), sizeOf(path), "", Some(info))
    else match transfer
      case Written => DownloadResult(true, Some(path), sizeAfter(path), "", Some(info))
      case RequestFailed(reason) => Failed(RequestFailedPrefix + reason, None)
      case TransferFailed(reason) => Failed(TransferErrorPrefix + reason, None)
  }

  /**
   * `download_song` of the packaged downloader. `present` and `sizeOf` stand
   * for the file system at the first `exists()`; `downloaded` is what
   * `download_music_file` returns when the file was not there yet, and
   * `presentAfter`/`sizeAfter` are the file system the later `exists()` and
   * `stat()` see once that call has written. Nothing is transferred for a
   * file that is already there, so the later checks then see `present`/`sizeOf`.
   */
  function DownloadSong(info: MusicInfo, quality: string, reFormat: string, dir: string,
                        present: string -> bool, sizeOf: string -> nat, downloaded: DownloadResult,
                        presentAfter: string -> bool, sizeAfter: string -> nat): (r: DownloadResult)
    ensures quality !in Qualities ==> r == Failed(InvalidQualityMessage, None)
    ensures quality in Qualities && reFormat != "file" && reFormat != "json" ==> r == Failed(InvalidFormatMessage, None)
    ensures !r.success ==> r.errorMessage != ""
    ensures r.success <==>
      quality in Qualities && reFormat == "file" &&
      (present(PathIn(dir, TargetName(info))) ||
       (downloaded.success && downloaded.filePath.Some? && presentAfter(downloaded.filePath.value)))
    ensures r.success ==> r.musicInfo == Some(info) && r.filePath.Some?
    ensures r.success && present(PathIn(dir, TargetName(info))) ==>
      r.filePath == Some(PathIn(dir, TargetName(info))) && r.fileSize == sizeOf(PathIn(dir, TargetName(info)))
    ensures r.success && !present(PathIn(dir, TargetName(info))) ==>
      r.filePath == downloaded.filePath && r.fileSize == sizeAfter(r.filePath.value)
    ensures quality in Qualities && (reFormat == "file" || reFormat == "json") && !present(PathIn(dir, TargetName(info))) && !downloaded.success ==>
      r == Failed(DownloadFailedPrefix + downloaded.errorMessage, Some(info))
  {
    if quality !in Qualities then Failed(InvalidQualityMessage, None)
    else if reFormat != "file" && reFormat != "json" then Failed(InvalidFormatMessage, None)
    else
      var path := PathIn(dir, TargetName(info));
      if !present(path) && !downloaded.success then Failed(DownloadFailedPrefix + downloaded.errorMessage, Some(info))
      else if !present(path) && downloaded.filePath.None? then Failed(DownloadExceptionPrefix + NoneNotAPath, None)
      else if reFormat == "json" then Failed(DownloadExceptionPrefix + NotSubscriptable, None)
      // the second `exists()`: unchanged for a file found at the first, the written file's otherwise
      else if present(path) then DownloadResult(true, Some(path), sizeOf(path), "", Some(info))
      else if !presentAfter(downloaded.filePath.value) then Failed(FileMissingMessage, None)
      else DownloadResult(true, downloaded.filePath, sizeAfter(downloaded.filePath.value), "", Some(info))
  }

  /**
   * The main path: a `file` request for a song not yet on disk runs the transfer, and
   * once it has written the file the song is served from the target path with its new
   * size; a failed transfer is reported with its own reason behind `下载失败: `.
   */
  lemma FreshDownload(info: MusicInfo, quality: string, dir: string, present: string -> bool, sizeOf: string -> nat,
                      transfer: Transfer, presentAfter: string -> bool, sizeAfter: string -> nat)
    requires quality in Qualities && !present(PathIn(dir, TargetName(info)))
    ensures var r := DownloadSong(info, quality, "file", dir, present, sizeOf,
                                  DownloadMusicFile(info, dir, present, sizeOf, transfer, sizeAfter), presentAfter, sizeAfter);
      && (transfer.Written? && presentAfter(PathIn(dir, TargetName(info))) ==>
            r == DownloadResult(true, Some(PathIn(dir, TargetName(info))), sizeAfter(PathIn(dir, TargetName(info))), "", Some(info)))
      && (transfer.Written? && !presentAfter(PathIn(dir, TargetName(info))) ==> r == Failed(FileMissingMessage, None))
      && (transfer.RequestFailed? ==> r == Failed(DownloadFailedPrefix + RequestFailedPrefix + transfer.reason, Some(info)))
      && (transfer.TransferFailed? ==> r == Failed(DownloadFailedPrefix + TransferErrorPrefix + transfer.reason, Some(info)))
  {
    var d := DownloadMusicFile(info, dir, present, sizeOf, transfer, sizeAfter);
    if transfer.RequestFailed? {
      assert d.errorMessage == RequestFailedPrefix + transfer.reason;
    } else if transfer.TransferFailed? {
      assert d.errorMessage == TransferErrorPrefix + transfer.reason;
    }
  }

  /** The json branch subscripts the dataclass, so a json request never succeeds. */
  lemma JsonNeverSucceeds(info: MusicInfo, quality: string, dir: string, present: string -> bool, sizeOf: string -> nat,
                          downloaded: DownloadResult, presentAfter: string -> bool, sizeAfter: string -> nat)
    ensures !DownloadSong(info, quality, "json", dir, present, sizeOf, downloaded, presentAfter, sizeAfter).success
  {
  }

  /** An already present file is served without looking at any download or at the later file system. */
  lemma ExistingFileServed(info: MusicInfo, quality: string, dir: string, present: string -> bool, sizeOf: string -> nat,
                           d1: DownloadResult, p1: string -> bool, s1: string -> nat,
                           d2: DownloadResult, p2: string -> bool, s2: string -> nat)
    requires quality in Qualities && present(PathIn(dir, TargetName(info)))
    ensures DownloadSong(info, quality, "file", dir, present, sizeOf, d1, p1, s1) ==
            DownloadSong(info, quality, "file", dir, present, sizeOf, d2, p2, s2)
    ensures DownloadSong(info, quality, "file", dir, present, sizeOf, d1, p1, s1) ==
            DownloadResult(true, Some(PathIn(dir, TargetName(info))), sizeOf(PathIn(dir, TargetName(info))), "", Some(info))
  {
  }

  const MissingMemoryDownload: string := "'MusicDownloader' object has no attribute 'download_music_to_memory'"

  /**
   * `async_download_multiple` of the packaged downloader. Its tasks call
   * `download_music_to_memory`, which this copy does not define, so each
   * future raises `AttributeError` and every entry is a failure. `submitted`
   * counts the tasks handed to the pool.
   */
  method AsyncDownloadMultiple(ids: seq<int>) returns (r: Result<seq<Memory.MemoryEntry>>, submitted: nat)
    ensures |ids| > Memory.BatchLimit <==> r == Failure(Memory.BatchLimitMessage)
    ensures |ids| > Memory.BatchLimit ==> submitted == 0
    ensures r.Success? ==> submitted == |ids| && |r.value| == |ids|
    ensures r.Success? ==> forall i :: 0 <= i < |ids| ==> r.value[i] == Memory.FetchFailed(ids[i], MissingMemoryDownload)
  {
    if |ids| > Memory.BatchLimit {
      return Failure(Memory.BatchLimitMessage), 0;
    }
    var futures: seq<int> := [];
    submitted := 0;
    for k := 0 to |ids|
      invariant futures == ids[..k] && submitted == k
    {
      futures := futures + [ids[k]];
      submitted := submitted + 1;
    }
    var results: seq<Memory.MemoryEntry> := [];
    for k := 0 to |futures|
      invariant |results| == k
      invariant forall j :: 0 <= j < k ==> results[j] == Memory.FetchFailed(futures[j], MissingMemoryDownload)
    {
      results := results + [Memory.FetchFailed(futures[k], MissingMemoryDownload)];
    }
    assert futures == ids;
    return Success(results), submitted;
  }

  /** What `asyncio.gather(..., return_exceptions=True)` yields for one task. */
  datatype Gathered = Returned(result: DownloadResult) | Raised(text: string)

  function BatchErrorMessage(id: int, text: string): string {
    "下载音乐ID " + IntToString(id) + " 时发生异常: " + text
  }

  /**
   * `download_batch_async` (identical in both copies): exceptions become
   * failed results naming the id, results pass through. No ceiling on the
   * number of ids is enforced here.
   */
  method DownloadBatchAsync(ids: seq<int>, gathered: seq<Gathered>) returns (r: seq<DownloadResult>)
    requires |gathered| == |ids|
    ensures |r| == |ids|
    ensures forall i :: 0 <= i < |ids| && gathered[i].Returned? ==> r[i] == gathered[i].result
    ensures forall i :: 0 <= i < |ids| && gathered[i].Raised? ==>
      r[i] == Failed(BatchErrorMessage(ids[i], gathered[i].text), None)
  {
    r := [];
    for i := 0 to |gathered|
      invariant |r| == i
      invariant forall k :: 0 <= k < i ==> r[k] == Processed(ids[k], gathered[k])
    {
      var processed := match gathered[i]
        case Raised(text) => Failed(BatchErrorMessage(ids[i], text), None)
        case Returned(result) => result;
      assert processed == Processed(ids[i], gathered[i]);
      r := r + [processed];
    }
  }

  /** The entry the batch reports for one gathered task. */
  function Processed(id: int, g: Gathered): DownloadResult {
    match g
    case Raised(text) => Failed(BatchErrorMessage(id, text), None)
    case Returned(result) => result
  }

  /** The error text of a raised task names its id. */
  lemma BatchErrorNamesId(id: int, text: string)
    ensures var m := BatchErrorMessage(id, text);
      m[..|"下载音乐ID "|] == "下载音乐ID " && m[|"下载音乐ID "|..|"下载音乐ID "| + |IntToString(id)|] == IntToString(id)
  {
  }

  /** The dictionary `get_download_progress` returns. */
  datatype ProgressReport =
    | Report(musicId: int, filename: string, totalSize: int, currentSize: nat, progress: real, completed: bool)
    | ProgressError(musicId: int, error: string, progress: real, completed: bool)

  function Min(a: real, b: real): real {
    if a <= b then a else b
  }

  /** `current_size / total_size * 100` for a positive total: never negative, below 100 exactly for a partial file. */
  function Percent(size: nat, total: int): (p: real)
    requires total > 0
    ensures p >= 0.0
    ensures p < 100.0 <==> size < total
  {
    RatioBounds(size as real, total as real);
    size as real / total as real * 100.0
  }

  /** A non-negative ratio to a positive total is non-negative, and below one exactly when the part is smaller. */
  lemma RatioBounds(x: real, t: real)
    requires t > 0.0 && x >= 0.0
    ensures x / t >= 0.0
    ensures x / t < 1.0 <==> x < t
  {
    var q := x / t;
    assert q * t == x;
    assert (q - 1.0) * t == x - t;
  }

  /**
   * `get_download_progress` (identical in both copies). `lookup` is what
   * `get_music_info` returned or the text it raised; `present` and `size`
   * describe the target file.
   */
  function DownloadProgress(musicId: int, lookup: Result<MusicInfo>, present: bool, size: nat): (r: ProgressReport)
    ensures 0.0 <= r.progress <= 100.0
    ensures lookup.Failure? ==> r == ProgressError(musicId, lookup.error, 0.0, false)
    ensures lookup.Success? ==>
      r.Report? && r.musicId == musicId && r.totalSize == lookup.value.fileSize && r.filename == TargetName(lookup.value)
    ensures lookup.Success? && !present ==> r.currentSize == 0 && r.progress == 0.0 && !r.completed
    ensures lookup.Success? && present ==>
      r.currentSize == size && (r.completed <==> size >= lookup.value.fileSize)
    ensures lookup.Success? && lookup.value.fileSize <= 0 ==> r.progress == 0.0
    ensures lookup.Success? && present && lookup.value.fileSize > 0 ==>
      r.progress == Min(Percent(size, lookup.value.fileSize), 100.0)
  {
    match lookup
    case Failure(e) => ProgressError(musicId, e, 0.0, false)
    case Success(info) =>
      var name := TargetName(info);
      if present then
        var progress := if info.fileSize > 0 then Percent(size, info.fileSize) else 0.0;
        Report(musicId, name, info.fileSize, size, Min(progress, 100.0), size >= info.fileSize)
      else Report(musicId, name, info.fileSize, 0, 0.0, false)
  }

  /** Progress reaches 100 exactly when the file is complete, for a positive declared size. */
  lemma ProgressFullIffCompleted(musicId: int, info: MusicInfo, size: nat)
    requires info.fileSize > 0
    ensures var r := DownloadProgress(musicId, Success(info), true, size);
      r.progress == 100.0 <==> r.completed
  {
  }

  /** Half of a 1000-byte file is reported as 50 per cent, not completed. */
  lemma HalfwayExample(info: MusicInfo)
    requires info.fileSize == 1000
    ensures var r := DownloadProgress(7, Success(info), true, 500);
      r.progress == 50.0 && !r.completed
  {
  }
}
