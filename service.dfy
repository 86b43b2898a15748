/**
 * The helpers of the web service: the response envelope, request validation, the music-id
 * extraction, the quality names, the file-size unit and the search-limit clamp. Request values
 * are JSON, read here as the same value tree as the configuration.
 */
module Service {
  import opened Wrappers
  import opened Text
  import opened Settings

  /** A response body and its HTTP status code. */
  datatype Reply = Reply(body: map<string, Yaml>, status: int)

  /** `APIResponse.success`: `data` is included unless it is `None`. */
  function SuccessReply(data: Yaml, message: string, statusCode: int): (r: Reply)
    ensures {"status", "success", "message"} <= r.body.Keys
    ensures r.status == statusCode && r.body["success"] == YBool(true) && r.body["message"] == YStr(message)
    ensures r.body["status"] == YInt(statusCode)
    ensures "data" in r.body <==> data != YNull
    ensures "data" in r.body ==> r.body["data"] == data
    ensures r.body.Keys <= {"status", "success", "message", "data"}
  {
    var body := map["status" := YInt(statusCode), "success" := YBool(true), "message" := YStr(message)];
    Reply(if data != YNull then body["data" := data] else body, statusCode)
  }

  /** `APIResponse.error`: `error_code` is included only when it is truthy (given and non-empty). */
  function ErrorReply(message: string, statusCode: int, errorCode: Option<string>): (r: Reply)
    ensures {"status", "success", "message"} <= r.body.Keys
    ensures r.status == statusCode && r.body["success"] == YBool(false) && r.body["message"] == YStr(message)
    ensures r.body["status"] == YInt(statusCode)
    ensures "error_code" in r.body <==> errorCode.Some? && errorCode.value != ""
    ensures "error_code" in r.body ==> r.body["error_code"] == YStr(errorCode.value)
    ensures r.body.Keys <= {"status", "success", "message", "error_code"}
  {
    var body := map["status" := YInt(statusCode), "success" := YBool(false), "message" := YStr(message)];
    Reply(if errorCode.Some? && errorCode.value != "" then body["error_code" := YStr(errorCode.value)] else body, statusCode)
  }

  /** A success reply and an error reply never coincide. */
  lemma RepliesDistinct(data: Yaml, m1: string, s1: int, m2: string, s2: int, code: Option<string>)
    ensures SuccessReply(data, m1, s1) != ErrorReply(m2, s2, code)
  {
    assert SuccessReply(data, m1, s1).body["success"] != ErrorReply(m2, s2, code).body["success"];
  }

  function MissingParamMessage(name: string): string {
    "参数 '" + name + "' 不能为空"
  }

  /** `_validate_request_params`: the error for the first falsy parameter in order, or `None`. */
  method ValidateRequestParams(params: seq<(string, Yaml)>) returns (r: Option<Reply>)
    ensures r.None? <==> forall i :: 0 <= i < |params| ==> Truthy(params[i].1)
    ensures r.Some? ==>
      exists i :: 0 <= i < |params| && !Truthy(params[i].1) &&
        (forall j :: 0 <= j < i ==> Truthy(params[j].1)) &&
        r.value == ErrorReply(MissingParamMessage(params[i].0), 400, None)
  {
    for i := 0 to |params|
      invariant forall j :: 0 <= j < i ==> Truthy(params[j].1)
    {
      var (name, value) := params[i];
      if !Truthy(value) {
        return Some(ErrorReply(MissingParamMessage(name), 400, None));
      }
    }
    return None;
  }

  /**
   * `_extract_music_id`. `redirect` is the outcome of following a `163cn.tv` short link: the
   * `Location` header if any, or the failure that sends the original text to the fallback.
   */
  function ExtractMusicId(idOrUrl: string, redirect: Result<Option<string>>): (r: string)
    ensures Contains(idOrUrl, "163cn.tv") && redirect.Failure? ==> r == Strip(idOrUrl)
  {
    if Contains(idOrUrl, "163cn.tv") && redirect.Failure? then Strip(idOrUrl)
    else
      var target := if Contains(idOrUrl, "163cn.tv") then redirect.value.GetOr(idOrUrl) else idOrUrl;
      if Contains(target, "music.163.com") && Find(target, "id=") + 3 > 2 then
        Split(target[Find(target, "id=") + 3..], "&")[0]
      else Strip(target)
  }

  /**
   * A `music.163.com` link with `id=` gives the text after the first `id=` up to the first `&`;
   * one without `id=`, and any other text, is returned stripped.
   */
  lemma ExtractMusicIdCases(idOrUrl: string)
    requires !Contains(idOrUrl, "163cn.tv")
    ensures var r := ExtractMusicId(idOrUrl, Failure(""));
      if Contains(idOrUrl, "music.163.com") && Contains(idOrUrl, "id=") then
        var after := idOrUrl[Find(idOrUrl, "id=") + 3..];
        |r| <= |after| && r == after[..|r|] && '&' !in r && (|r| == |after| || after[|r|] == '&')
      else r == Strip(idOrUrl)
  {
    var r := ExtractMusicId(idOrUrl, Failure(""));
    if Contains(idOrUrl, "music.163.com") && Contains(idOrUrl, "id=") {
      var after := idOrUrl[Find(idOrUrl, "id=") + 3..];
      assert r == Split(after, "&")[0];
      assert "&" == ['&'];
      SplitCharHead(after, '&');
      if '&' in after {
        assert after == r + ['&'] + after[|r| + 1..];
        assert after[|r|] == '&';
      }
    } else {
      assert r == Strip(idOrUrl);
    }
  }

  /** A short link that redirects is read as if its `Location` had been given directly. */
  lemma ExtractMusicIdRedirected(idOrUrl: string, location: string)
    requires Contains(idOrUrl, "163cn.tv") && !Contains(location, "163cn.tv")
    ensures ExtractMusicId(idOrUrl, Success(Some(location))) == ExtractMusicId(location, Failure(""))
  {
  }

  /** The accepted `level` values, in the order the error message lists them. */
  const ValidLevels: seq<string> := ["standard", "exhigh", "lossless", "hires", "sky", "jyeffect", "jymaster"]

  /** The accepted `type` values of the song-info request. */
  const ValidTypes: seq<string> := ["url", "name", "lyric", "json"]

  const UnknownQualityPrefix: string := "未知音质("

  /** `_get_quality_display_name`. */
  function QualityDisplayName(quality: string): (r: string)
    ensures UnknownQualityPrefix <= r <==> quality !in ValidLevels
  {
    assert UnknownQualityPrefix[0] == '未';
    if quality == "standard" then "标准音质"
    else if quality == "exhigh" then "极高音质"
    else if quality == "lossless" then "无损音质"
    else if quality == "hires" then "Hi-Res音质"
    else if quality == "sky" then "沉浸环绕声"
    else if quality == "jyeffect" then "高清环绕声"
    else if quality == "jymaster" then "超清母带"
    else UnknownQualityPrefix + quality + ")"
  }

  /** The seven accepted levels get fixed names; any other code is echoed inside the unknown-quality text. */
  lemma QualityDisplayNameIff(quality: string)
    ensures UnknownQualityPrefix <= QualityDisplayName(quality) <==> quality !in ValidLevels
    ensures quality !in ValidLevels ==>
      QualityDisplayName(quality) == UnknownQualityPrefix + quality + ")"
  {
    var name := QualityDisplayName(quality);
    if quality in ValidLevels {
      assert name[0] != UnknownQualityPrefix[0];
    }
  }

  /** The number `1024^k`. */
  function Pow1024(k: nat): (r: nat)
    ensures r >= 1
  {
    if k == 0 then 1 else 1024 * Pow1024(k - 1)
  }

  const Units: seq<string> := ["B", "KB", "MB", "GB", "TB"]

  /**
   * What `_format_file_size` prints, before the `%.2f` rendering: the size as the exact
   * quotient `bytes / divisor`, with `divisor` the power of 1024 of unit `unitIndex`.
   */
  datatype FileSize = ZeroBytes | Scaled(bytes: int, divisor: nat, unitIndex: nat)

  /**
   * `_format_file_size`: divide by 1024 while the size is at least 1024 and a larger unit
   * remains; the unit is then the largest power of 1024, up to TB, that fits in the size.
   * The running size `bytes / divisor` is compared as `bytes >= 1024 * divisor`.
   */
  method FormatFileSize(sizeBytes: int) returns (r: FileSize)
    ensures sizeBytes == 0 <==> r == ZeroBytes
    ensures r.Scaled? ==> r.bytes == sizeBytes && r.unitIndex < |Units| && r.divisor == Pow1024(r.unitIndex)
    ensures r.Scaled? && r.unitIndex > 0 ==> Pow1024(r.unitIndex) <= sizeBytes
    ensures r.Scaled? && r.unitIndex < |Units| - 1 ==> sizeBytes < Pow1024(r.unitIndex + 1)
  {
    if sizeBytes == 0 {
      return ZeroBytes;
    }
    var divisor: nat := 1;
    var unitIndex: nat := 0;
    while sizeBytes >= 1024 * divisor && unitIndex < |Units| - 1
      invariant unitIndex < |Units| && divisor == Pow1024(unitIndex)
      invariant unitIndex > 0 ==> divisor <= sizeBytes
      decreases |Units| - unitIndex
    {
      divisor := 1024 * divisor;
      unitIndex := unitIndex + 1;
    }
    r := Scaled(sizeBytes, divisor, unitIndex);
  }

  const MissingIdMessage: string := "必须提供 'ids'、'id' 或 'url' 参数"

  /**
   * The checks `get_song_info` makes before any request, in order: an id or url is given, the
   * level is one of the seven, the type one of the four. `songIds` is `ids or id`.
   */
  function SongInfoRequestError(songIds: Yaml, url: Yaml, level: string, infoType: string): (r: Option<Reply>)
    ensures r.Some? ==> r.value.status == 400
  {
    if !Truthy(songIds) && !Truthy(url) then Some(ErrorReply(MissingIdMessage, 400, None))
    else if level !in ValidLevels then Some(ErrorReply("无效的音质参数，支持: " + Join(ValidLevels, ", "), 400, None))
    else if infoType !in ValidTypes then Some(ErrorReply("无效的类型参数，支持: " + Join(ValidTypes, ", "), 400, None))
    else None
  }

  /** A request passes exactly when it names a song and uses an accepted level and type. */
  lemma SongInfoRequestAccepted(songIds: Yaml, url: Yaml, level: string, infoType: string)
    ensures SongInfoRequestError(songIds, url, level, infoType).None? <==>
      (Truthy(songIds) || Truthy(url)) && level in ValidLevels && infoType in ValidTypes
    ensures SongInfoRequestError(songIds, url, level, infoType).Some? ==>
      SongInfoRequestError(songIds, url, level, infoType).value.status == 400
  {
  }

  /** The search `limit` after the clamp. */
  function ClampLimit(limit: int): (r: int)
    ensures r <= 100
    ensures r == limit || (limit > 100 && r == 100)
  {
    if limit > 100 then 100 else limit
  }
}
