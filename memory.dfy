/**
 * In-memory downloading of the top-level downloader: the `BytesIO` buffer the
 * audio is streamed into, the tag-writing wrapper with its fallbacks, and the
 * `active_downloads` admission counter around `download_music_to_memory`.
 */
module Memory {
  import opened Wrappers
  import opened Text
  import opened Tags
  import FilenamePolicy

  /** A `BytesIO`: its contents and its read/write position. */
  class MemoryStream {
    var data: seq<Byte>
    var pos: nat

    ghost predicate Valid()
      reads this
    {
      pos <= |data|
    }

    /** `BytesIO(initial)`. */
    constructor (initial: seq<Byte>)
      ensures data == initial && pos == 0
    {
      data := initial;
      pos := 0;
    }

    /** `write(chunk)`: overwrite from the position on, extending the buffer where needed. */
    method Write(chunk: seq<Byte>)
      requires Valid()
      modifies this
      ensures Valid()
      ensures pos == old(pos) + |chunk|
      ensures data == old(data[..pos]) + chunk
        + (if old(pos) + |chunk| < |old(data)| then old(data[pos + |chunk|..]) else [])
    {
      var tail := if pos + |chunk| < |data| then data[pos + |chunk|..] else [];
      data := data[..pos] + chunk + tail;
      pos := pos + |chunk|;
    }

    /** `seek(0)`. */
    method Rewind()
      modifies this
      ensures data == old(data) && pos == 0
    {
      pos := 0;
    }

    /** `seek(0, 2)`: move to the end. */
    method SeekEnd()
      modifies this
      ensures data == old(data) && pos == |data|
    {
      pos := |data|;
    }

    /** `tell()`. */
    method Tell() returns (p: nat)
      ensures p == pos
    {
      p := pos;
    }

    /** `read()`: everything from the position on; the position moves to the end. */
    method ReadAll() returns (bytes: seq<Byte>)
      requires Valid()
      modifies this
      ensures bytes == old(data[pos..])
      ensures data == old(data) && pos == |data|
    {
      bytes := data[pos..];
      pos := |data|;
    }

    /** What the tag library's `save(fileobj=...)` leaves in the buffer. */
    method Replace(bytes: seq<Byte>)
      modifies this
      ensures data == bytes && pos == |bytes|
    {
      data := bytes;
      pos := |bytes|;
    }
  }

  /** The bytes of the streamed chunks, in order. */
  function Concat(chunks: seq<seq<Byte>>): (r: seq<Byte>)
    ensures |chunks| > 0 ==> chunks[0] <= r
  {
    if |chunks| == 0 then [] else Concat(chunks[..|chunks| - 1]) + chunks[|chunks| - 1]
  }

  /** Skipping empty chunks (`if chunk:`) does not change the downloaded bytes. */
  lemma {:induction false} ConcatSkipsEmpty(chunks: seq<seq<Byte>>, i: nat)
    requires i < |chunks| && chunks[i] == []
    ensures Concat(chunks) == Concat(chunks[..i]) + Concat(chunks[i + 1..])
    decreases |chunks|
  {
    var n := |chunks| - 1;
    if i == n {
      assert chunks[..i] == chunks[..n];
      assert chunks[i + 1..] == [];
    } else {
      ConcatSkipsEmpty(chunks[..n], i);
      assert chunks[..n][..i] == chunks[..i];
      assert chunks[..n][i + 1..] == chunks[i + 1..n];
      assert chunks[i + 1..][..|chunks[i + 1..]| - 1] == chunks[i + 1..n];
    }
  }

  /** `Concat` has the combined length of the chunks. */
  lemma {:induction false} ConcatLength(chunks: seq<seq<Byte>>)
    ensures |Concat(chunks)| == 0 <==> forall i :: 0 <= i < |chunks| ==> chunks[i] == []
  {
    if |chunks| > 0 {
      var n := |chunks| - 1;
      ConcatLength(chunks[..n]);
      assert forall i :: 0 <= i < n ==> chunks[..n][i] == chunks[i];
    }
  }

  /** The streaming loop: every non-empty chunk is written at the end of a fresh buffer. */
  method FillStream(chunks: seq<seq<Byte>>) returns (s: MemoryStream)
    ensures fresh(s) && s.Valid()
    ensures s.data == Concat(chunks) && s.pos == |s.data|
  {
    s := new MemoryStream([]);
    var i := 0;
    while i < |chunks|
      invariant 0 <= i <= |chunks|
      invariant s.data == Concat(chunks[..i]) && s.pos == |s.data|
    {
      assert chunks[..i + 1][..i] == chunks[..i];
      if chunks[i] != [] {
        s.Write(chunks[i]);
      }
      i := i + 1;
    }
    assert chunks[..|chunks|] == chunks;
  }

  /**
   * The tag library's rewrite of a FLAC buffer with a plan: the new bytes, or
   * `None` when it raises (the writer swallows the error).
   */
  type FlacEncoder = (seq<Byte>, TagPlan) -> Option<seq<Byte>>

  /** The bytes `_write_music_tags_memory` hands back for an input buffer; FLAC goes through the as-written plan. */
  function TaggedBytes(original: seq<Byte>, ext: string, info: MusicInfo, encode: FlacEncoder): (r: seq<Byte>)
    ensures |r| == 0 <==> |original| == 0
    ensures ext != ".flac" ==> r == original
  {
    if |original| == 0 then original
    else
      var written :=
        if ext == ".flac" then (match encode(original, LegacyFlacPlan(info)) case Some(b) => b case None => original)
        else original;
      if |written| == 0 then original else written
  }

  /** A non-empty buffer never comes back empty; an empty one comes back as it is. */
  lemma TaggedBytesEmptyIff(original: seq<Byte>, ext: string, info: MusicInfo, encode: FlacEncoder)
    ensures |TaggedBytes(original, ext, info, encode)| == 0 <==> |original| == 0
  {
  }

  /** Only FLAC buffers can change: MP3 and M4A writers raise before `save`. */
  lemma TaggedBytesOnlyFlacChanges(original: seq<Byte>, ext: string, info: MusicInfo, encode: FlacEncoder)
    requires ext != ".flac"
    ensures TaggedBytes(original, ext, info, encode) == original
  {
  }

  /** A successful FLAC rewrite is what comes back, unless it produced nothing. */
  lemma TaggedBytesFlacSaved(original: seq<Byte>, info: MusicInfo, encode: FlacEncoder)
    requires |original| > 0
    ensures var w := encode(original, LegacyFlacPlan(info));
      TaggedBytes(original, ".flac", info, encode) == if w.Some? && |w.value| > 0 then w.value else original
  {
  }

  /**
   * `_write_mp3_tags_memory`: after `seek(0)`, reading `music_info.artist_string`
   * raises `AttributeError` before anything is saved, and the error is swallowed.
   * Where `ID3(io)` leaves the position is the tag library's and is not stated.
   */
  method WriteMp3TagsMemory(io: MemoryStream, info: MusicInfo)
    modifies io
    ensures io.data == old(io.data)
  {
    io.Rewind();
  }

  /**
   * `_write_m4a_tags_memory`: `music_info['publishTime']` raises `TypeError`
   * (a dataclass is not subscriptable) before anything is saved; swallowed.
   * Where `MP4(io)` leaves the position is the tag library's and is not stated.
   */
  method WriteM4aTagsMemory(io: MemoryStream, info: MusicInfo)
    modifies io
    ensures io.data == old(io.data)
  {
    io.Rewind();
  }

  /**
   * `_write_flac_tags_memory`: the as-written plan (DATE holds only the year)
   * is encoded into the buffer, or the failure is swallowed.
   */
  method WriteFlacTagsMemory(io: MemoryStream, info: MusicInfo, encode: FlacEncoder)
    modifies io
    ensures io.Valid()
    ensures io.data == match encode(old(io.data), LegacyFlacPlan(info)) case Some(b) => b case None => old(io.data)
  {
    io.Rewind();
    var saved := encode(io.data, LegacyFlacPlan(info));
    if saved.Some? {
      io.Replace(saved.value);
    }
  }

  /**
   * `_write_music_tags_memory`: tag a copy of the buffer; return the original
   * (rewound) when it is empty or tagging leaves the copy empty.
   */
  method WriteTagsMemory(audio: MemoryStream, info: MusicInfo, ext: string, encode: FlacEncoder)
    returns (r: MemoryStream)
    requires audio.Valid()
    modifies audio
    ensures audio.data == old(audio.data)
    ensures r == audio || fresh(r)
    ensures r.data == TaggedBytes(old(audio.data), ext, info, encode) && r.pos == 0
    ensures |old(audio.data)| == 0 ==> r == audio
    ensures r == audio <==>
      |old(audio.data)| == 0 || (ext == ".flac" && encode(old(audio.data), LegacyFlacPlan(info)) == Some([]))
  {
    audio.SeekEnd();
    var size := audio.Tell();
    if size == 0 {
      return audio;
    }
    audio.Rewind();
    var copy := audio.ReadAll();
    var temp := new MemoryStream(copy);
    if ext == ".mp3" {
      WriteMp3TagsMemory(temp, info);
    } else if ext == ".flac" {
      WriteFlacTagsMemory(temp, info, encode);
    } else if ext == ".m4a" {
      WriteM4aTagsMemory(temp, info);
    }
    temp.SeekEnd();
    var newSize := temp.Tell();
    if newSize == 0 {
      audio.Rewind();
      return audio;
    }
    temp.Rewind();
    return temp;
  }

  function OverCapacityMessage(maxConcurrent: int): string {
    "超过最大并发下载数（" + IntToString(maxConcurrent) + "），请稍后再试"
  }

  const MemoryFailurePrefix: string := "内存下载失败: "
  const NoDownloadLink: string := "未获取到有效下载链接"

  /** The downloader's admission state: `active_downloads` against `max_concurrent`. */
  class MemoryDownloader {
    const maxConcurrent: int
    var activeDownloads: int

    ghost predicate Valid()
      reads this
    {
      0 <= activeDownloads <= maxConcurrent
    }

    /** The thread pool is created with `max_workers=max_concurrent`, which must be positive. */
    constructor (maxConcurrent: int)
      requires maxConcurrent > 0
      ensures Valid() && this.maxConcurrent == maxConcurrent && activeDownloads == 0
    {
      this.maxConcurrent := maxConcurrent;
      activeDownloads := 0;
    }

    /** The locked check at the start of `download_music_to_memory`. */
    method Acquire() returns (err: Option<string>)
      requires Valid()
      modifies this
      ensures Valid()
      ensures old(activeDownloads) >= maxConcurrent ==>
        err == Some(OverCapacityMessage(maxConcurrent)) && activeDownloads == old(activeDownloads)
      ensures old(activeDownloads) < maxConcurrent ==> err == None && activeDownloads == old(activeDownloads) + 1
    {
      if activeDownloads >= maxConcurrent {
        return Some(OverCapacityMessage(maxConcurrent));
      }
      activeDownloads := activeDownloads + 1;
      return None;
    }

    /** The locked decrement in the `finally` block. */
    method Release()
      requires Valid() && activeDownloads > 0
      modifies this
      ensures Valid() && activeDownloads == old(activeDownloads) - 1
    {
      activeDownloads := activeDownloads - 1;
    }

    /**
     * `download_music_to_memory`. The song lookup and the HTTP transfer are
     * inputs: `resolved` is what `get_music_info` returned or the text of what
     * it raised, `fetched` the response chunks or the text of the request error.
     */
    method DownloadToMemory(resolved: Result<MusicInfo>, fetched: Result<seq<seq<Byte>>>, encode: FlacEncoder)
      returns (r: Result<(MemoryStream, MusicInfo)>)
      requires Valid()
      modifies this
      ensures Valid() && activeDownloads == old(activeDownloads)
      ensures r.Failure? ==> |r.error| >= |MemoryFailurePrefix| && r.error[..|MemoryFailurePrefix|] == MemoryFailurePrefix
      ensures old(activeDownloads) >= maxConcurrent ==> r == Failure(MemoryFailurePrefix + OverCapacityMessage(maxConcurrent))
      ensures r.Success? <==>
        old(activeDownloads) < maxConcurrent && resolved.Success? && resolved.value.downloadUrl != "" && fetched.Success?
      ensures r.Failure? ==> r.error == MemoryFailurePrefix + FailureReason(resolved, fetched, old(activeDownloads) < maxConcurrent, maxConcurrent)
      ensures old(activeDownloads) < maxConcurrent && resolved.Success? && resolved.value.downloadUrl == "" ==>
        r == Failure(MemoryFailurePrefix + NoDownloadLink)
      ensures r.Success? ==>
        fresh(r.value.0) && r.value.1 == resolved.value && r.value.0.pos == 0
        && r.value.0.data == Downloaded(resolved.value, fetched.value, encode)
    {
      var admission := Acquire();
      if admission.Some? {
        return Failure(MemoryFailurePrefix + admission.value);
      }
      var outcome: Result<(MemoryStream, MusicInfo)>;
      if resolved.Failure? {
        outcome := Failure(resolved.error);
      } else if resolved.value.downloadUrl == "" {
        outcome := Failure(NoDownloadLink);
      } else if fetched.Failure? {
        outcome := Failure(fetched.error);
      } else {
        var info := resolved.value;
        var audio := FillStream(fetched.value);
        audio.Rewind();
        var ext := FilenamePolicy.DetermineExtension(info.downloadUrl, "");
        var tagged := WriteTagsMemory(audio, info, ext, encode);
        outcome := Success((tagged, info));
      }
      Release();
      if outcome.Failure? {
        return Failure(MemoryFailurePrefix + outcome.error);
      }
      return outcome;
    }

    /** One collected result of `async_download_multiple`: the download of `id`, or the text of its exception. */
    method DownloadEntry(id: int, resolved: Result<MusicInfo>, fetched: Result<seq<seq<Byte>>>, encode: FlacEncoder)
      returns (entry: MemoryEntry)
      requires Valid()
      modifies this
      ensures Valid() && activeDownloads == old(activeDownloads)
      ensures EntryFor(entry, id, resolved, fetched, old(activeDownloads) < maxConcurrent, maxConcurrent, encode)
      ensures entry.Fetched? ==> fresh(entry.audio)
    {
      var outcome := DownloadToMemory(resolved, fetched, encode);
      entry := match outcome
        case Success(v) => Fetched(id, v.0, v.1)
        case Failure(e) => FetchFailed(id, e);
    }

    /**
     * `async_download_multiple` of the top-level downloader, with the pool's
     * tasks run one after another: at most ten ids, one entry per id in
     * request order. `resolve` and `fetch` give each id's lookup and transfer.
     */
    method AsyncDownloadMultiple(ids: seq<int>, resolve: int -> Result<MusicInfo>,
                                 fetch: int -> Result<seq<seq<Byte>>>, encode: FlacEncoder)
      returns (r: Result<seq<MemoryEntry>>)
      requires Valid()
      modifies this
      ensures Valid() && activeDownloads == old(activeDownloads)
      ensures |ids| > BatchLimit <==> r == Failure(BatchLimitMessage)
      ensures r.Success? ==> |r.value| == |ids| && forall i :: 0 <= i < |ids| ==>
        EntryFor(r.value[i], ids[i], resolve(ids[i]), fetch(ids[i]), old(activeDownloads) < maxConcurrent, maxConcurrent, encode)
      ensures r.Success? ==> forall i :: 0 <= i < |ids| && r.value[i].Fetched? ==> fresh(r.value[i].audio)
    {
      if |ids| > BatchLimit {
        return Failure(BatchLimitMessage);
      }
      var results: seq<MemoryEntry> := [];
      var i := 0;
      while i < |ids|
        invariant 0 <= i <= |ids| && |results| == i
        invariant Valid() && activeDownloads == old(activeDownloads)
        invariant forall k :: 0 <= k < i ==>
          EntryFor(results[k], ids[k], resolve(ids[k]), fetch(ids[k]), old(activeDownloads) < maxConcurrent, maxConcurrent, encode)
        invariant forall k :: 0 <= k < i && results[k].Fetched? ==> fresh(results[k].audio)
      {
        var entry := DownloadEntry(ids[i], resolve(ids[i]), fetch(ids[i]), encode);
        results := results + [entry];
        i := i + 1;
      }
      return Success(results);
    }
  }

  const BatchLimit: nat := 10
  const BatchLimitMessage: string := "单次最多下载10个文件"

  /** One element of the list `async_download_multiple` returns. */
  datatype MemoryEntry =
    | Fetched(id: int, audio: MemoryStream, info: MusicInfo)   // {"id", "success": True, "data": {...}}
    | FetchFailed(id: int, error: string)                      // {"id", "success": False, "error": str(e)}

  /** The tagged buffer `download_music_to_memory` returns for a song and its response chunks. */
  function Downloaded(info: MusicInfo, chunks: seq<seq<Byte>>, encode: FlacEncoder): seq<Byte> {
    TaggedBytes(Concat(chunks), FilenamePolicy.DetermineExtension(info.downloadUrl, ""), info, encode)
  }

  /**
   * Why `download_music_to_memory` fails, in the order it checks: the
   * admission, the lookup, the download link, then the transfer. It is `""`
   * when none of them fails.
   */
  function FailureReason(resolved: Result<MusicInfo>, fetched: Result<seq<seq<Byte>>>, admitted: bool, maxConcurrent: int): string {
    if !admitted then OverCapacityMessage(maxConcurrent)
    else if resolved.Failure? then resolved.error
    else if resolved.value.downloadUrl == "" then NoDownloadLink
    else if fetched.Failure? then fetched.error
    else ""
  }

  /**
   * What the entry for `id` holds: it is a success exactly when the id was
   * admitted, resolved to a song with a link and fetched; a success carries the
   * song and a rewound buffer with the tagged download, a failure the
   * `内存下载失败: ` text with the reason.
   */
  predicate EntryFor(e: MemoryEntry, id: int, resolved: Result<MusicInfo>, fetched: Result<seq<seq<Byte>>>,
                     admitted: bool, maxConcurrent: int, encode: FlacEncoder)
    reads if e.Fetched? then {e.audio} else {}
  {
    && e.id == id
    && (e.Fetched? <==> admitted && resolved.Success? && resolved.value.downloadUrl != "" && fetched.Success?)
    && (e.Fetched? ==>
          e.info == resolved.value && e.audio.pos == 0 && e.audio.data == Downloaded(resolved.value, fetched.value, encode))
    && (e.FetchFailed? ==> e.error == MemoryFailurePrefix + FailureReason(resolved, fetched, admitted, maxConcurrent))
  }
}
