# MusicLover core, modelled in Dafny

MusicLover is a NetEase Cloud Music downloader with a web service on top. This project models the
parts of it that decide things, leaving out the parts that only move bytes:

- **File names and extensions** (`FilenamePolicy`, filename.dfy). These are the two copies of
  `_sanitize_filename` and `_determine_file_extension`.
- **Release timestamps** (`Timestamps`, timestamps.dfy). These are the downloader's and the API
  client's `_timestamp_str_to_date` acceptance rules.
- **Tag plans** (`Tags`, tags.dfy). A plan says which ID3 frames, Vorbis comments and MP4 atoms the
  tag writers fill, with which values.
- **In-memory downloads** (`Memory`, memory.dfy). This covers the `BytesIO` buffer as a class, the
  chunk-streaming loop, the memory tag writer with its fallbacks, and the `active_downloads`
  admission counter of `download_music_to_memory` and `async_download_multiple`.
- **Download requests** (`Downloads`, downloads.dfy). These are `download_song`,
  `async_download_multiple` and `download_batch_async` of the packaged downloader, and
  `get_download_progress`.
- **Cookies** (`Cookies`, cookies.dfy):
  - the tolerant `parse_cookie_string` loop over an insertion-ordered dictionary;
  - `format_cookie_string` and its round trip with the parser;
  - `validate_cookie_format` and `is_cookie_valid`;
  - the `CookieManager` object with `set_cookie_string`, `write_cookie` and `update_cookie`.
- **The NetEase API client** (`NeteaseApi`, netease.dfy):
  - `hex_digest`, and the character XOR and URL-safe steps of `netease_encrypt_id`;
  - `get_pic_url`;
  - the `MUSIC_U` extraction of `check_qr_login` and `check_login_status`, with the login-status
    field of `QRLoginManager`;
  - `_get_status_message`;
  - the 100-id batching loop of `get_playlist_detail`;
  - the `get_song_url` payload.
- **Configuration** (`Settings`, settings.dfy). This covers the loaded YAML document as a `Config`
  class with `get`, the `get_nested` walk, `is_enabled`, the default-backed properties,
  `__getitem__`/`__contains__`, and the config-path priority.
- **Web service helpers** (`Service`, service.dfy):
  - the `APIResponse` envelope and `_validate_request_params`;
  - `_extract_music_id`, `_get_quality_display_name` and the unit choice of `_format_file_size`;
  - the `get_song_info` request checks and the search-limit clamp.

Shared pieces are `Wrappers` (Option and Result, used where the source raises or returns None) and
`Text`. `Text` holds Python string operations: `strip`, `lower`, `upper`, `find`, `split`, `join`,
`str(int)` and `replace`.

Several inputs are parameters of the model rather than computed by it:
- network responses;
- file existence and sizes;
- the tag library's `save` outcome;
- MD5, base64 and the FLAC encoder.

## Model

| member | source | states |
|---|---|---|
| FilenamePolicy.ReplaceIllegal | src/music_downloader.py:142-143 | no contract of its own: `re.sub` of the illegal class by the replacement text; FilenamePolicy.ReplaceIllegalClean, ReplaceIllegalLength, ReplaceIllegalPointwise and ReplaceIllegalNone state its properties |
| FilenamePolicy.ReplaceIllegalClean | src/music_downloader.py:142-143 | after `re.sub` with a clean replacement no character of `[<>:"/\\|?*]` is left |
| FilenamePolicy.ReplaceIllegalLength | src/music_downloader.py:142-143 | each illegal character is replaced by the whole replacement text: length grows by `(|rep|-1)` per illegal character |
| FilenamePolicy.ReplaceIllegalPointwise | music_downloader.py:130-131 | with a one-character replacement, position k becomes that character iff it held an illegal one, else it is unchanged |
| FilenamePolicy.SanitizeWith | src/music_downloader.py:141-152 | result is non-empty, at most 200 characters, has no illegal character, does not start with space or dot, and is the stripped replacement cut to 200 or `"unknown"` when that is empty |
| FilenamePolicy.Sanitize | src/music_downloader.py:132-152 | the packaged copy (`" & "`) gives a non-empty, at most 200-character, clean name not starting with space or dot |
| FilenamePolicy.SanitizeLegacy | music_downloader.py:120-140 | the top-level copy (`"_"`) gives the same guarantees, and its name is never longer than the input unless it is `"unknown"` |
| FilenamePolicy.ReplaceIllegalNone | music_downloader.py:130-131 | a name without illegal characters is unchanged by the substitution |
| FilenamePolicy.SanitizeCopiesAgree | music_downloader.py:130-131 | for a name without illegal characters, both copies give the same file name |
| FilenamePolicy.SanitizeCopiesDiffer | music_downloader.py:130-131 | on `a:b` the copies differ: `a & b` in the packaged one, `a_b` in the top-level one |
| FilenamePolicy.SanitizeFallback | src/music_downloader.py:146-152 | a name that strips down to nothing becomes `"unknown"` |
| FilenamePolicy.SanitizeLegacyPointwise | music_downloader.py:130-140 | a short name with clean edges keeps its length and has exactly its illegal characters replaced by `_` |
| FilenamePolicy.DetermineExtension | src/music_downloader.py:180-207 | the extension is always one of `.flac`, `.mp3`, `.m4a` |
| FilenamePolicy.UrlTakesPriority | src/music_downloader.py:190-196 | a URL naming an extension decides alone, whatever the content type |
| FilenamePolicy.ContentTypeFallback | src/music_downloader.py:198-205 | without a URL hint the content type decides as it would for an empty URL |
| FilenamePolicy.DefaultIsMp3 | src/music_downloader.py:207 | with nothing recognisable in URL or content type the default is `.mp3` |
| Timestamps.DownloaderDate | src/music_downloader.py:154-178 | non-integers give `""`; 11-digit values raise; only 13-digit values are formatted, unchanged; anything else gives `""` |
| Timestamps.ElevenDigitStampRaises | src/music_downloader.py:166-167 | the docstring's example 13053888000 raises instead of being scaled |
| Timestamps.DownloaderDateIntended | src/music_downloader.py:165-171 | corrected version: never raises, scales 11-digit values by 100, keeps 13-digit ones, formats only 13-digit results |
| Timestamps.DownloaderDateAgreesOutside11Digits | music_downloader.py:142-166 | as-written and corrected versions agree on every input except 11-digit integers |
| Timestamps.NormalizeMillis | src/music_api.py:698-729 | accepted values lie in [0, 4102444799000]; below 10^10 and above 4102444799000 is rejected; a value is accepted exactly when it is an integer from 5·10^11 to 4102444799000, and then passes unchanged |
| Timestamps.SecondsBranchNeverAccepts | src/music_api.py:714-723 | every value reaching the seconds branch is rejected after scaling |
| Timestamps.TenDigitSecondsRejected | src/music_api.py:700-714 | the docstring's 10-digit seconds example is rejected |
| Timestamps.NormalizeMillisIntended | src/music_api.py:711-723 | corrected version: 10-digit seconds are scaled by 1000, milliseconds kept, results stay in range; accepted exactly for integer seconds from 10^9 to 4102444799 and milliseconds from 5·10^11 to 4102444799000 |
| Timestamps.NormalizeAgreesOnMillis | src/music_api.py:718-723 | both versions agree on millisecond values |
| Tags.YearPart | src/music_downloader.py:625 | the year is the text before the first `-` (no `-` in it), the whole date when there is none |
| Tags.Mp3Plan | src/music_downloader.py:605-632 | title, artist and album frames always, holding those fields; TRCK iff the track number is positive, holding it in decimal; no frame outside the ID3 set |
| Tags.Mp3PlanDateAndLyrics | src/music_downloader.py:620-640 | date frames hold the stripped date and its year iff a date is given; lyric frames hold the stripped lyrics iff given |
| Tags.FlacPlan | src/music_downloader.py:679-690 | Vorbis comments: title, artist and album always; TRACKNUMBER iff the track number is positive; no comment outside the FLAC set |
| Tags.FlacPlanDate | src/music_downloader.py:692-698 | YEAR and DATE iff a date is given; DATE holds the whole date and YEAR the text before its first `-` |
| Tags.FlacPlanLyrics | src/music_downloader.py:700-704 | LYRICS and TRANSLATEDLYRICS iff the lyrics are non-empty, holding them stripped |
| Tags.M4aPlan | src/music_downloader.py:747-772 | MP4 atoms: name, artist, album, and `trkn` as `(n, 0)` iff the track number is positive |
| Tags.LegacyMp3Plan | music_downloader.py:544-574 | the top-level writer saves only when the file has an ID3 header, then only title, artist, album and track |
| Tags.LegacyFlacPlan | music_downloader.py:576-624 | as written: same keys as the packaged FLAC plan, every field but DATE equal, DATE holding the year only |
| Tags.LegacyFlacDropsMonthAndDay | music_downloader.py:594-599 | a date `y-rest` with no `-` in `y` (such as `2011-05-15`) gets DATE `y` in the as-written plan, while the packaged plan keeps the whole date |
| Tags.YearIsPrefixOfDate | src/music_downloader.py:625-627 | in MP3 and FLAC plans the year is a `-`-free prefix of the date |
| Tags.YearOfIsoDate | src/music_downloader.py:695 | a `YYYY-...` date yields the year `YYYY` |
| Tags.YearPartOfIsoDate | src/music_downloader.py:695 | the text before the first `-` of `y-rest` is `y` when `y` has no `-` |
| Tags.PlanFor | src/music_downloader.py:585-603 | dispatch on the lower-cased suffix: a plan exactly for `.mp3`, `.flac`, `.m4a`, and the matching one |
| Memory.MemoryStream.constructor | music_downloader.py:420 | a new buffer holds its initial bytes at position 0 |
| Memory.MemoryStream.Write | music_downloader.py:423 | `write` overwrites from the position, extending the buffer, and advances the position by the chunk length |
| Memory.MemoryStream.Rewind | music_downloader.py:424 | `seek(0)` keeps the bytes and moves to 0 |
| Memory.MemoryStream.SeekEnd | music_downloader.py:665 | `seek(0, 2)` keeps the bytes and moves to the end |
| Memory.MemoryStream.Tell | music_downloader.py:666 | `tell` reports the position |
| Memory.MemoryStream.ReadAll | music_downloader.py:671-672 | `read` returns the bytes from the position on and moves to the end |
| Memory.MemoryStream.Replace | music_downloader.py:743-797 | what the tag library's save leaves: the new bytes, positioned at their end |
| Memory.ConcatSkipsEmpty | music_downloader.py:421-423 | skipping an empty chunk does not change the downloaded bytes |
| Memory.ConcatLength | music_downloader.py:421-423 | the download is empty iff every chunk is empty |
| Memory.Concat | music_downloader.py:420-423 | the downloaded bytes start with the first chunk |
| Memory.FillStream | music_downloader.py:420-423 | the streaming loop leaves a fresh buffer holding the concatenated chunks, positioned at the end |
| Memory.TaggedBytes | music_downloader.py:652-696 | the returned bytes are empty iff the input was, and only a `.flac` buffer can change (through the as-written FLAC plan) |
| Memory.TaggedBytesEmptyIff | music_downloader.py:652-696 | the tagged buffer is empty iff the input was |
| Memory.TaggedBytesOnlyFlacChanges | music_downloader.py:698-829 | MP3 and M4A buffers come back unchanged: their writers raise before saving |
| Memory.TaggedBytesFlacSaved | music_downloader.py:743-797 | a FLAC buffer comes back re-encoded with the as-written plan (DATE holding only the year) unless encoding fails or yields nothing |
| Memory.WriteMp3TagsMemory | music_downloader.py:698-741 | the MP3 memory writer leaves the bytes as they were |
| Memory.WriteM4aTagsMemory | music_downloader.py:799-829 | the M4A memory writer leaves the bytes as they were |
| Memory.WriteFlacTagsMemory | music_downloader.py:743-797 | the FLAC memory writer stores the bytes encoded with the as-written plan (DATE holding only the year), or keeps the old ones when encoding fails |
| Memory.WriteTagsMemory | music_downloader.py:652-696 | returns the original (rewound) when it is empty or tagging empties the copy, else a fresh rewound buffer with the tagged bytes (FLAC through the as-written plan); the original's bytes are never changed |
| Memory.MemoryDownloader.constructor | music_downloader.py:93-107 | a positive limit and no active downloads |
| Memory.MemoryDownloader.Acquire | music_downloader.py:399-402 | at capacity: the over-capacity error and no change; otherwise one more active download |
| Memory.MemoryDownloader.Release | music_downloader.py:433-436 | one fewer active download |
| Memory.MemoryDownloader.DownloadToMemory | music_downloader.py:395-439 | the counter is back where it was; success iff admitted, resolved with a link and fetched; a failure's text is `内存下载失败: ` followed by the first reason in check order (over capacity, lookup error, no link, transfer error); a success is a fresh rewound buffer holding the tagged concatenated chunks |
| Memory.MemoryDownloader.AsyncDownloadMultiple | music_downloader.py:441-486 | more than ten ids raise; otherwise one entry per id in order; a fetched entry holds the song and its own fresh rewound buffer with the tagged download of that id, a failed one the exact `内存下载失败: ` text of that id |
| Downloads.TargetName | src/music_downloader.py:364-366 | the stored file name is never empty |
| Downloads.PathIn | src/music_downloader.py:371 | no contract of its own: `self.download_dir / name` rendered as a string; Downloads.DownloadSong, DownloadMusicFile and FreshDownload state which path is served |
| Downloads.DownloadMusicFile | src/music_downloader.py:280-338 | succeeds exactly when the target already exists or the transfer wrote it, always at the target path with its size before or after the write; a failure has no path and carries the request or the general error prefix |
| Downloads.DownloadSong | src/music_downloader.py:341-434 | invalid quality or format fail with their messages; a success holds exactly for a `file` request whose target existed at the first check, or whose transfer succeeded with a path the second check finds; an existing target is served with its size, a downloaded one with the path and the size after the write; a failed transfer fails with its message; every failure carries a message |
| Downloads.FreshDownload | src/music_downloader.py:375-430 | a `file` request for a song not on disk is served from the target path with its new size once the transfer wrote it, fails with `文件不存在` if the file is then gone, and reports a failed transfer's reason behind `下载失败: ` |
| Downloads.JsonNeverSucceeds | src/music_downloader.py:390-401 | a `json` request never succeeds, since the dataclass is subscripted |
| Downloads.ExistingFileServed | src/music_downloader.py:375-378 | an existing file is served with its path and size, whatever the transfer or the later file system would have given |
| Downloads.AsyncDownloadMultiple | src/music_downloader.py:502-547 | more than ten ids raise with nothing submitted; otherwise every id is submitted and every entry fails on the missing memory download |
| Downloads.DownloadBatchAsync | src/music_downloader.py:553-583 | one result per id: returned results pass through, raised tasks become failures naming the id |
| Downloads.BatchErrorNamesId | src/music_downloader.py:577-579 | the error text of a raised task starts with `下载音乐ID ` followed by the id |
| Downloads.DownloadProgress | src/music_downloader.py:818-866 | progress lies in [0, 100]; lookup errors report 0; a missing file reports 0 and not completed; a present file reports the percentage capped at 100, and completed iff size ≥ total |
| Downloads.Percent | src/music_downloader.py:838 | the percentage of a positive total is never negative, and below 100 exactly when the file is smaller than the total |
| Downloads.ProgressFullIffCompleted | src/music_downloader.py:835-848 | for a positive declared size, progress is 100 iff the download is completed |
| Downloads.HalfwayExample | src/music_downloader.py:835-848 | 500 of 1000 bytes is 50 per cent, not completed |
| Cookies.KeysInMap | src/cookie_manager.py:98-109 | every listed key of an ordered dictionary is in its map |
| Cookies.Put | src/cookie_manager.py:109 | `d[k] = v` updates the map and keeps the ordered dictionary well formed |
| Cookies.Pieces | src/cookie_manager.py:90-96 | the split on `;`, else on newline, else the whole string: at least one piece |
| Cookies.SplitPair | src/cookie_manager.py:104-109 | no contract of its own: `split('=', 1)`, both halves stripped, kept when both are non-empty; Cookies.SplitPairClean states what a kept pair satisfies |
| Cookies.ParsePair | src/cookie_manager.py:99-109 | no contract of its own: a blank piece or one without `=` is skipped, else split as above; Cookies.ParsePairClean states what a kept pair satisfies |
| Cookies.SplitPairClean | src/cookie_manager.py:104-109 | a split pair, when kept, has a non-empty, stripped key without `=` and a non-empty, stripped value |
| Cookies.ParsePairClean | src/cookie_manager.py:99-109 | every pair the loop keeps is clean in that sense |
| Cookies.PairsOf | src/cookie_manager.py:98-109 | the per-piece outcomes, in order |
| Cookies.Collect | src/cookie_manager.py:98-109 | folding the outcomes gives a valid ordered dictionary |
| Cookies.PutClean | src/cookie_manager.py:108-109 | storing a clean pair keeps the dictionary clean |
| Cookies.CollectClean | src/cookie_manager.py:98-109 | a dictionary collected from clean outcomes is clean |
| Cookies.CollectNext | src/cookie_manager.py:98-109 | collecting one more outcome stores its pair, or changes nothing when it was skipped |
| Cookies.Parse | src/cookie_manager.py:71-116 | the result is a valid ordered dictionary, empty for a blank string |
| Cookies.ParseStrip | src/cookie_manager.py:80-86 | parsing strips first, so a stripped text parses like the original |
| Cookies.ParseClean | src/cookie_manager.py:80-109 | every parsed key and value is non-empty and stripped, and keys hold no `=` |
| Cookies.ParseCookieString | src/cookie_manager.py:71-116 | the loop builds exactly the parse of the string |
| Cookies.FormatPairs | src/cookie_manager.py:301 | at most one `k=v` text per key, each containing `=`; exactly which ones is stated by Cookies.FormatPairsKept |
| Cookies.Format | src/cookie_manager.py:289-301 | an empty dictionary formats as `""`; Cookies.FormatPairsKept states which `k=v` texts are joined, and Cookies.FormatEntries the text of a clean dictionary |
| Cookies.FormatPairsAll | src/cookie_manager.py:301 | with clean entries every key is kept, in order, as `k=v` |
| Cookies.KeptKeys | src/cookie_manager.py:301 | a key is kept iff it is listed, present, non-empty and has a non-empty value |
| Cookies.FormatPairsKept | src/cookie_manager.py:301 | the formatter's texts are exactly `k=v` for the kept keys, in key order: entries with an empty key or value are skipped |
| Cookies.FormatSkipsEmptyValue | src/cookie_manager.py:301 | `{"a": "", "b": "1"}` formats as `b=1` |
| Cookies.Spaced | src/cookie_manager.py:301 | the `;`-pieces of a `"; "`-join: the first part, then each later part after a space |
| Cookies.SplitJoinSpaced | src/cookie_manager.py:92 | splitting a `"; "`-join of `;`-free parts at `;` gives the spaced parts |
| Cookies.SplitPairFormatted | src/cookie_manager.py:104-106 | a clean `k=v` text splits back into `k` and `v` |
| Cookies.ParsePairFormatted | src/cookie_manager.py:99-109 | a clean `k=v` text, with or without a leading space, parses back to `(k, v)` |
| Cookies.Entries | src/cookie_manager.py:301 | one `k=v` text per key |
| Cookies.Prefix | src/cookie_manager.py:98-109 | the first i keys of a dictionary, with their values |
| Cookies.PutNextKey | src/cookie_manager.py:109 | storing the next key of a valid dictionary extends its prefix by one |
| Cookies.CollectEntries | src/cookie_manager.py:98-109 | collecting the entries in key order rebuilds the dictionary prefix by prefix |
| Cookies.FormatEntries | src/cookie_manager.py:289-301 | formatting a clean dictionary is the `"; "`-join of its entries, none containing `;` or newline |
| Cookies.FormatEnds | src/cookie_manager.py:301 | that text starts with the first key and ends with the last value |
| Cookies.FormatStripped | src/cookie_manager.py:301 | that text is non-empty and already stripped |
| Cookies.FormatPieces | src/cookie_manager.py:90-96 | the parser's pieces of that text are the spaced entries |
| Cookies.CollectAll | src/cookie_manager.py:98-109 | collecting every entry in key order gives the dictionary back |
| Cookies.PairsOfSpaced | src/cookie_manager.py:98-109 | each spaced entry parses back to its key and value |
| Cookies.RoundTrip | src/cookie_manager.py:71-301 | `parse(format(d)) == d`, key order included, for a dictionary of clean entries |
| Cookies.ValidateCookieFormat | src/cookie_manager.py:192-225 | blank text is invalid; otherwise valid iff the parse is non-empty and no name holds space, tab, CR, LF, `;` or `,` |
| Cookies.FormattedIsValid | src/cookie_manager.py:192-301 | the formatter's text for a clean, non-empty dictionary with plain names passes the validator |
| Cookies.IsCookieValidAsWritten | src/cookie_manager.py:227-257 | as written the check is False for every cookie set (`parse_cookies` does not exist) |
| Cookies.CookiesValid | src/cookie_manager.py:236-253 | no contract of its own: the check `is_cookie_valid` means to make (a non-empty set holding the six important names and a `MUSIC_U` of at least 10 characters); Cookies.ValidSurvivesRoundTrip states that it survives formatting and re-parsing |
| Cookies.ValidCookiesRejectedAsWritten | src/cookie_manager.py:233-253 | a set with all six important names and a long `MUSIC_U` is valid by the intended check but rejected as written |
| Cookies.ValidSurvivesRoundTrip | src/cookie_manager.py:236-301 | validity by the intended check survives formatting and re-parsing |
| Cookies.RestrictCons | src/cookie_manager.py:162 | restricting to a key list is restricting to its tail, then storing its head |
| Cookies.UpdateThenMerge | src/cookie_manager.py:162 | storing a key before a merge equals storing it in what is merged, when both agree on it |
| Cookies.MergeKeys | src/cookie_manager.py:162 | `update` key by key: the map is the old one overridden by the new values; old keys keep their order |
| Cookies.Merge | src/cookie_manager.py:159-162 | `existing.update(new)`: new values win, existing keys keep their order, and the keys not yet present follow in the order of the new cookies |
| Cookies.NewKeys | src/cookie_manager.py:162 | the keys `update` appends: exactly those of the new cookies not yet present, each once |
| Cookies.PutNewKeys | src/cookie_manager.py:162 | storing one key and then appending the rest's new keys appends the new keys of the whole sequence |
| Cookies.MergeKeysOrder | src/cookie_manager.py:162 | after `update` the keys are the old ones followed by the new ones, in the order they are met |
| Cookies.CookieManager.constructor | src/cookie_manager.py:36-56 | as written: the stripped configured cookie is parsed and the configuration is not kept |
| Cookies.CookieManager.WithConfig | src/cookie_manager.py:36-56 | corrected: as above, with the configuration attached |
| Cookies.CookieManager.SetCookieString | src/cookie_manager.py:59-69 | keeps the stripped text and its parse, nothing else changes |
| Cookies.WriteFailureCases | src/cookie_manager.py:118-143 | blank, invalid and config-less contents fail with their own messages; the write succeeds iff the text is valid, a configuration is held and the save succeeds; every failure carries the `写入Cookie失败: ` prefix |
| Cookies.WriteFailure | src/cookie_manager.py:118-143 | every failure text carries the `写入Cookie失败: ` prefix |
| Cookies.CookieManager.WriteCookie | src/cookie_manager.py:118-143 | blank, invalid and config-less writes fail with their messages; success iff valid, configured and saved; only a success updates the raw and parsed cookies |
| Cookies.CookieManager.UpdateCookie | src/cookie_manager.py:145-172 | empty input or no configuration gives False; success iff the formatted merge validates and is saved, and then stores the stripped text and its parse; a failure keeps the raw and parsed cookies, but a merge that validates is already in the configuration's `cookie` entry even when the save fails |
| Cookies.UpdateStoresMerge | src/cookie_manager.py:159-168 | with clean entries the stored parse is exactly the merge |
| NeteaseApi.HexDigit | src/music_api.py:157 | each digit value maps to a lowercase hex character |
| NeteaseApi.HexValue | src/music_api.py:157 | a hex character's value is below 16 and maps back to it |
| NeteaseApi.HexByte | src/music_api.py:157 | `hex(d)[2:].zfill(2)`: two characters that decode back to the byte |
| NeteaseApi.HexDigest | src/music_api.py:155-157 | n bytes give 2n lowercase hex characters |
| NeteaseApi.Unhex | src/music_api.py:155-157 | decoding 2n hex characters gives n bytes |
| NeteaseApi.UnhexHexDigest | src/music_api.py:155-157 | the digest decodes back to the bytes |
| NeteaseApi.HexDigestInjective | src/music_api.py:155-157 | different byte strings give different digests |
| NeteaseApi.MagicIsAscii | src/music_api.py:624 | the key `3go8&$8*3*3h0k(2)2` has 18 characters, all ASCII |
| NeteaseApi.XorBits | src/music_api.py:628 | the n-bit XOR stays below 2^n |
| NeteaseApi.XorBitsStep | src/music_api.py:628 | the low bit of the XOR is the sum of the low bits mod 2, and the rest is the XOR of the remaining bits |
| NeteaseApi.XorBitsTwice | src/music_api.py:628 | XOR with the same value twice gives the value back |
| NeteaseApi.Xor7 | src/music_api.py:628 | the 7-bit XOR stays below 128 |
| NeteaseApi.Xor7Twice | src/music_api.py:628 | the 7-bit XOR is an involution |
| NeteaseApi.XorChar | src/music_api.py:628 | `chr(ord(c) ^ ord(m))` for an ASCII key character changes only the low 7 bits |
| NeteaseApi.XorCharTwice | src/music_api.py:628 | applying the character XOR twice gives the character back |
| NeteaseApi.XorMask | src/music_api.py:624-628 | the XOR step keeps the length |
| NeteaseApi.XorMaskInvolution | src/music_api.py:624-628 | applying the XOR step twice gives the id back |
| NeteaseApi.XorWithMagic | src/music_api.py:625-628 | the in-place loop leaves character i XORed with key character `i mod 18` |
| NeteaseApi.UrlSafe | src/music_api.py:633 | the result holds no `/` and no `+` |
| NeteaseApi.UrlSafeExact | src/music_api.py:633 | length is kept; `/` becomes `_`, `+` becomes `-`, every other character is kept in place |
| NeteaseApi.EncryptId | src/music_api.py:612-635 | the id is XORed in place, hashed, encoded and made URL-safe: no `/` or `+` in the result |
| NeteaseApi.EncryptedId | src/music_api.py:612-635 | the encrypted id holds no `/` and no `+` |
| NeteaseApi.CoverFile | src/music_api.py:696 | the file part `{id}.jpg?param={size}y{size}` holds no `/` |
| NeteaseApi.GetPicUrl | src/music_api.py:682-696 | `""` iff there is no id; otherwise host, encrypted id, `/`, file part |
| NeteaseApi.CoverUrlSegments | src/music_api.py:696 | past the host the URL splits on `/` into exactly the encrypted id and the file part |
| NeteaseApi.MusicUValue | src/music_api.py:884 | the extracted value holds no `;` |
| NeteaseApi.MusicUValueShape | src/music_api.py:884 | the value is the text after the first `MUSIC_U=` up to the first `;`, the next `MUSIC_U=` or the end |
| NeteaseApi.LastMatch | src/music_api.py:882-884 | a found index names a piece holding the marker |
| NeteaseApi.LastMatchIsLast | src/music_api.py:882-884 | there is a match iff some piece holds the marker, and no later piece does |
| NeteaseApi.LastMusicUStep | src/music_api.py:882-884 | one more piece replaces the kept value when it holds the marker, and leaves it otherwise |
| NeteaseApi.CookiesFromHeader | src/music_api.py:880-884 | no contract of its own: the `MUSIC_U` entry of the last matching `Set-Cookie` piece, or none; NeteaseApi.ExtractMusicU, LastMatchIsLast and MusicUValue state its properties |
| NeteaseApi.ExtractMusicU | src/music_api.py:880-884 | the loop over the `", "` pieces leaves the value of the last matching piece, or no entry |
| NeteaseApi.CheckQrLogin | src/music_api.py:876-886 | the status is `code` or -1; cookies are extracted only for 803 |
| NeteaseApi.StatusMessage | src/music_api.py:935-943 | the unknown-status text is given exactly to codes outside 800 to 803 |
| NeteaseApi.StatusMessageKnownIff | src/music_api.py:935-943 | the unknown-status text is given exactly to codes outside 800 to 803 and ends with `str(code)` |
| NeteaseApi.LoginOutcome | src/music_api.py:908-933 | a failure happens only for 803, with the caught `'MUSIC_U'` text; a status reply carries the decoded code (or -1) and a cookie iff 803 |
| NeteaseApi.LoginOutcomeCases | src/music_api.py:908-933 | 803 fails iff no piece holds `MUSIC_U=`; status replies carry the code and its message, and a cookie iff 803, the last match's value |
| NeteaseApi.QrLoginManager.constructor | src/music_api.py:734-736 | no login status recorded yet |
| NeteaseApi.QrLoginManager.CheckLoginStatus | src/music_api.py:890-933 | a failure before decoding leaves the status unchanged and prefixes the error; otherwise the status is recorded and the reply is the login outcome |
| NeteaseApi.FlattenChunks | src/music_api.py:534-536 | concatenating the batches gives the id list back, in order |
| NeteaseApi.ChunkCount | src/music_api.py:535 | the number of batches is the fewest whose room of 100 each holds every id |
| NeteaseApi.ChunkSizes | src/music_api.py:535-536 | every batch holds 1 to 100 ids, all but the last exactly 100 |
| NeteaseApi.Chunks | src/music_api.py:535-536 | there are no batches iff there are no ids |
| NeteaseApi.ToTrack | src/music_api.py:544-551 | no contract of its own: the per-song dictionary with the artist names joined by `/`; NeteaseApi.ArtistsRecoverable and ToTracks state its properties |
| NeteaseApi.ToTracks | src/music_api.py:544-551 | one track per returned song, in order |
| NeteaseApi.ToTracksAppend | src/music_api.py:544-551 | converting two song lists one after the other gives the tracks of both, in order |
| NeteaseApi.ArtistsRecoverable | src/music_api.py:548 | when no artist name holds `/`, splitting the joined artists on `/` gives the names back |
| NeteaseApi.TracksOf | src/music_api.py:535-551 | a failure is the error of one of the batch requests |
| NeteaseApi.TracksOfAllSongs | src/music_api.py:535-551 | success iff every batch request succeeds; then the tracks are those of all returned songs, batch after batch |
| NeteaseApi.PlaylistTracks | src/music_api.py:534-551 | the batching loop returns the tracks of the 100-id batches, or the first failure |
| NeteaseApi.SongUrlPayload | src/music_api.py:257-266 | `immerseType` is present iff the quality is `sky`, and is then `c51`; the ids and level are those requested |
| Settings.ConfigPath | src/config.py:14-20 | the explicit argument wins, then `CONFIG_PATH`, then `config.yaml` beside the source directory |
| Settings.Truthy | src/config.py:101-117 | no contract of its own: Python truthiness, behind `if not nav_node` and `if not mysql_node` and the `if not` of src/main.py:167-172; Settings.SwitchOn and Service.ValidateRequestParams state what it decides |
| Settings.Walk | src/config.py:133-137 | no contract of its own: the descent of `get_nested`; Settings.WalkAppend and Settings.Config.GetNested state its properties |
| Settings.SwitchOn | src/config.py:101-117 | the switch is on iff the node is a map whose flag is exactly True; it fails iff the node is truthy but not a map |
| Settings.WalkAppend | src/config.py:133-137 | walking a path is walking its first part, then the rest from where that ends |
| Settings.SettingsHaveDefaults | src/config.py:56-74 | every property has a default in `_defaults` |
| Settings.Config.constructor | src/config.py:53-80 | the configuration is the loaded document |
| Settings.Config.Get | src/config.py:119-121 | no contract of its own: `dict.get`; Settings.Config.GetItemContains and Settings.Config.GetNestedFlat relate it to indexing and the nested walk |
| Settings.Config.Contains | src/config.py:208-210 | no contract of its own: `key in config`; Settings.Config.GetItemContains ties it to indexing |
| Settings.Config.GetNested | src/config.py:123-139 | the loop returns the walked value, or the default once a key is missing or a value is not a map |
| Settings.Config.GetNestedFlat | src/config.py:119-139 | for a key without `.`, `get_nested` equals `get` |
| Settings.Config.IsEnabled | src/config.py:88-117 | only `NAVIDROME` and `MYSQL`, in any case, can give anything but False |
| Settings.Config.IsEnabledIff | src/config.py:88-117 | enabled iff the case-folded kind is NAVIDROME (or MYSQL) and the `NAVIDROME` (or `mysql`) node is a map whose flag is exactly True; a truthy non-map node fails; other kinds are False |
| Settings.Config.Property | src/config.py:168-202 | the configured value when the key is present, even a null one, else the default |
| Settings.Config.GetItem | src/config.py:204-206 | a successful index gives what `get` gives |
| Settings.Config.GetItemContains | src/config.py:204-210 | indexing succeeds exactly for the keys `in` reports, and then agrees with `get`; an absent key gives `get` its default |
| Service.SuccessReply | src/main.py:57-67 | `success: True`, the status mirrored, `data` present iff not None |
| Service.ErrorReply | src/main.py:69-79 | `success: False`, the status mirrored, `error_code` present iff truthy |
| Service.RepliesDistinct | src/main.py:57-79 | no success reply equals an error reply |
| Service.ValidateRequestParams | src/main.py:167-172 | None iff every parameter is truthy; else the error naming the first falsy one |
| Service.ExtractMusicId | src/main.py:117-137 | a short link whose redirect fails gives the stripped input |
| Service.ExtractMusicIdRedirected | src/main.py:121-124 | a redirected short link is read as if its `Location` had been given directly |
| Service.ExtractMusicIdCases | src/main.py:117-137 | for text without `163cn.tv`: a `music.163.com` link with `id=` gives the text after the first `id=` up to the first `&`; any other such text is returned stripped |
| Service.QualityDisplayName | src/main.py:154-165 | the unknown-quality text is given exactly to codes outside the seven levels |
| Service.QualityDisplayNameIff | src/main.py:154-165 | the unknown-quality text is given exactly to codes outside the seven and contains the code |
| Service.Pow1024 | src/main.py:147-150 | each power of 1024 is at least 1 |
| Service.FormatFileSize | src/main.py:139-152 | 0 gives `0B`; otherwise the unit is the largest power of 1024, up to TB, not above the size |
| Service.SongInfoRequestError | src/main.py:296-310 | every rejection has status 400 |
| Service.SongInfoRequestAccepted | src/main.py:296-310 | a request passes iff it names a song and uses one of the seven levels and four types; rejections are status 400 |
| Service.ClampLimit | src/main.py:558-559 | the search limit is at most 100, and unchanged when already within |
| Text.StripCharsEnds | src/cookie_manager.py:87 | `str.strip()`: the result has no stripped character at either end |
| Text.StripCharsIdempotent | src/cookie_manager.py:87 | stripping twice is stripping once |
| Text.StripCharsPadded | src/cookie_manager.py:87 | leading padding of stripped characters before a clean text is removed exactly |
| Text.StrippedIff | src/cookie_manager.py:87 | a text is its own strip iff neither end is whitespace; a strip's result is such a text |
| Text.StripCharsSubset | src/cookie_manager.py:87 | a strip only removes characters |
| Text.Lower | src/music_downloader.py:191 | the model's ASCII fold of `str.lower()` keeps the length |
| Text.Upper | src/config.py:95 | the model's one-to-one fold of `str.upper()` keeps the length |
| Text.FindFrom | src/main.py:128 | `str.find`: -1 iff the text does not occur from `start` on, else the first index where it occurs |
| Text.ContainsIff | src/music_api.py:883 | `sub in s` iff `sub` occurs somewhere in `s` |
| Text.ContainsChar | src/cookie_manager.py:90 | for one character, `in` agrees with sequence membership |
| Text.Split | src/cookie_manager.py:91 | `str.split(sep)` gives at least one piece |
| Text.SplitJoin | src/cookie_manager.py:91 | splitting a join of separator-free parts on that separator gives the parts back |
| Text.CutAt | src/cookie_manager.py:104 | `split('=', 1)`: the text is the `=`-free head, the `=`, then the tail |
| Text.CutAtUnique | src/cookie_manager.py:104 | that head and tail are the only such decomposition |
| Text.ReplaceChar | src/music_api.py:633 | `str.replace` leaves no replaced character unless the replacement holds it, and adds no other character |
| Text.ReplaceCharSingle | src/music_api.py:633 | replacing by one character changes exactly the occurrences, in place |
| Text.NatToString | src/music_downloader.py:690 | `str(n)` of a natural number is a non-empty run of digits |
| Text.IntToStringChars | src/music_api.py:696 | `str(n)` holds only digits and a minus sign |

## Left out

- Network I/O is left out:
  - every HTTP call (song URL, detail, lyric, search, album, playlist, account and cookie checks, cover downloads, the short-link redirect);
  - the model receives these responses or their errors as parameters.
- AES-ECB, PKCS7, MD5, base64 and the mutagen encoders are function-valued parameters, not computed.
- Date formatting (`datetime.fromtimestamp(...).strftime`) is left out: an accepted timestamp is returned as the millisecond count that would be formatted.
- Files, paths, `stat`, YAML loading and saving, template copying and permission checks are inputs or outcomes, not modelled. The same holds for thread pools, semaphores, locks and timeouts.
- Memory.MemoryDownloader.AsyncDownloadMultiple runs the pool's tasks one after another. Submission and collection are merged, so the 60-second future timeout and interleavings are not modelled.
- Downloads.DownloadBatchAsync has no 10-id ceiling, since the code has none; only `async_download_multiple` limits a batch to ten ids.
- Memory.WriteMp3TagsMemory and Memory.WriteM4aTagsMemory do not state the buffer position that `ID3(io)` or `MP4(io)` leave before the error; the caller seeks to the end next, so it cannot be observed.
- Memory.WriteTagsMemory: the outer `except` of the memory tag writer is unreachable once the inner writers swallow their errors, so it is not modelled.
- Tags: a FLAC save that fails halfway is not modelled, and neither is the picture (`APIC`/`covr`) download inside the writers.
- Timestamps.DownloaderDate: a float argument is folded into `NonInteger` and gives `""`, while the source compares an in-range float like an integer and formats it. Floats are not modelled.
- Timestamps.NormalizeMillis: the same holds for a float argument, which the source would scale and format.
- Text.Strip, Text.Find, Text.IntToString and Text.Join carry no contract of their own; their properties are the lemmas in the Text rows above.
- Text.Lower folds ASCII letters only. Every other Unicode lower-case mapping is left out, including the ones that change the length (`İ` lowers to two characters). This is exact for the tokens compared (`.flac`, `.mp3`, `.m4a`, `flac`, `mpeg`, `mp3`): no other character lowers to a letter of those tokens.
- Text.Upper folds ASCII letters, `ı` and `ſ`, one character to one. The other Unicode upper-case mappings are left out, including the multi-character ones (`ß` to `SS`, `ﬁ` to `FI`), so the model's result keeps the length while Python's need not. This is exact for the tokens compared (`NAVIDROME`, `MYSQL`). No other single character uppers to one of their letters. The multi-character results (`SS`, `FF`, `FI`, `FL`, `FFI`, `FFL`, `ST`, or a letter with a mark or an apostrophe) never occur inside those tokens.
- Downloads.PathIn assumes the download directory is written without a trailing separator.
- Cookies.CookieManager.constructor takes a string. A missing `cookie` entry (`config.get` returning None, whose `strip` raises) is not modelled.
- Cookies.ParseCookieString uses the `Pieces` function to choose the separator (`;`, newline or none) rather than repeating that choice inline.
- `get_cookie_for_request`, `get_cookie_info` and `__str__` call the missing `parse_cookies` or read a missing `file_path` key. They are not modelled beyond the `is_cookie_valid` finding.
- NeteaseApi.PlaylistTracks: a failing batch request returns the request's error text. The `获取歌单详情请求失败: ` wrapping is not modelled, and neither are the other playlist fields (name, creator, cover, description).
- NeteaseApi.CheckQrLogin and QrLoginManager.CheckLoginStatus take the decoded `code` as an optional integer. A non-integer `code` in the JSON is not modelled.
- Service.FormatFileSize keeps the scaled size as the exact quotient `bytes / 1024^k`. The loop's test `size >= 1024.0` is the comparison `bytes >= 1024 * divisor`, which is exact because dividing by 1024 is exact in binary floating point. The `%.2f` rendering is not modelled.
- Service.ExtractMusicId takes a string. A non-string id (an integer from JSON, which makes `in` raise and sends it to the fallback) is not modelled.
- Settings.Yaml has no floats or dates; `is_enabled` on such nodes follows the same truthiness rules.
- Flask routes, CORS, `send_file`, logging, the QR image and the interactive `qr_login.py` are left out. `song_detail_api` reads `music_info` before assigning it, and `download_music_to_memory` is missing from the packaged downloader. Both are known-broken paths and are modelled only where a modelled operation reaches them (`Downloads.AsyncDownloadMultiple`).

## Findings

| source | as written | input that shows it | evidently intended | confidence | as-written member | corrected member |
|---|---|---|---|---|---|---|
| src/music_downloader.py:166-167 | `timestamp *= 100` reads a local that was never assigned, so an 11-digit value raises `UnboundLocalError`, which is not caught | 13053888000 (the docstring's own example) | scale the 11-digit value to 13 digits and format it | not executed | Timestamps.ElevenDigitStampRaises | Timestamps.DownloaderDateIntended |
| src/music_api.py:711-723 | values below 10^10 are rejected, so the seconds branch only sees values ≥ 10^10, which exceed the 2100 limit after ×1000; every seconds timestamp is rejected | 1305388800 (the docstring's 10-digit seconds example) | accept 10-digit seconds and scale them to milliseconds | not executed | Timestamps.TenDigitSecondsRejected | Timestamps.NormalizeMillisIntended |
| music_downloader.py:594-599 | the FLAC `DATE` comment receives the year part, like `YEAR` | publish time `2011-05-15` gives DATE `2011` | DATE holds the full date, as in the packaged writer | not executed | Tags.LegacyFlacDropsMonthAndDay | Tags.FlacPlanDate |
| src/cookie_manager.py:227-257 | `is_cookie_valid` calls an undefined `parse_cookies`; the `AttributeError` is caught and the answer is always False | a cookie set with all six important names and a 16-character `MUSIC_U` | check the parsed cookies for the important names and a `MUSIC_U` of at least 10 characters | not executed | Cookies.ValidCookiesRejectedAsWritten | Cookies.CookiesValid |
| src/cookie_manager.py:128 | `__init__` (lines 36-56) never stores `config`, so `write_cookie` fails on `self.config` for every valid cookie text | any valid cookie text, e.g. `MUSIC_U=abc` | keep the configuration object and write the cookie into it | not executed | Cookies.CookieManager.WriteCookie | Cookies.CookieManager.WithConfig |
