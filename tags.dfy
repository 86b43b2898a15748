/**
 * Which metadata fields the downloader writes, and with which values, for
 * ID3 (MP3), Vorbis comments (FLAC) and MP4 atoms (M4A). A plan is the map of
 * field name to value that the writer assigns before calling `save`; the
 * byte-level encoding is the tag library's and is not modelled.
 */
module Tags {
  import opened Wrappers
  import opened Text

  /** The `MusicInfo` dataclass. */
  datatype MusicInfo = MusicInfo(
    id: int,
    name: string,
    publishTime: string,
    artists: string,
    album: string,
    picUrl: string,
    duration: int,
    trackNumber: int,
    downloadUrl: string,
    fileType: string,
    fileSize: int,
    quality: string,
    lyric: string,
    tlyric: string)

  /** A field value: a text frame, or the `(track, total)` pair of the `trkn` atom. */
  datatype TagValue = TextValue(text: string) | TrackPair(number: int, total: int)

  /** The field names the writers assign: ID3 frames, Vorbis comments and MP4 atoms. */
  datatype Field =
    | TIT2 | TPE1 | TALB | TRCK | TYER | TDRC | USLT | USLTTranslated
    | TITLE | ARTIST | ALBUM | TRACKNUMBER | YEAR | DATE | LYRICS | TRANSLATEDLYRICS
    | Nam | Art | Alb | Trkn

  /** The key under which the writer stores each field. */
  function FieldKey(f: Field): string {
    match f
    case TIT2 => "TIT2"
    case TPE1 => "TPE1"
    case TALB => "TALB"
    case TRCK => "TRCK"
    case TYER => "TYER"
    case TDRC => "TDRC"
    case USLT => "USLT"
    case USLTTranslated => "USLT:Translated"
    case TITLE => "TITLE"
    case ARTIST => "ARTIST"
    case ALBUM => "ALBUM"
    case TRACKNUMBER => "TRACKNUMBER"
    case YEAR => "YEAR"
    case DATE => "DATE"
    case LYRICS => "LYRICS"
    case TRANSLATEDLYRICS => "TRANSLATEDLYRICS"
    case Nam => "\U{00A9}nam"
    case Art => "\U{00A9}ART"
    case Alb => "\U{00A9}alb"
    case Trkn => "trkn"
  }

  type TagPlan = map<Field, TagValue>

  /** `d.split('-')[0] if '-' in d else d`: the text before the first `-`. */
  function YearPart(d: string): (r: string)
    ensures '-' !in r
    ensures |r| <= |d| && r == d[..|r|]
    ensures |r| < |d| ==> d[|r|] == '-'
    ensures '-' !in d ==> r == d
  {
    ContainsChar(d, '-');
    SplitCharHead(d, '-');
    if Contains(d, "-") then Split(d, "-")[0] else d
  }

  const Mp3Fields: set<Field> := {TIT2, TPE1, TALB, TRCK, TYER, TDRC, USLT, USLTTranslated}
  const FlacFields: set<Field> := {TITLE, ARTIST, ALBUM, TRACKNUMBER, YEAR, DATE, LYRICS, TRANSLATEDLYRICS}
  const M4aFields: set<Field> := {Nam, Art, Alb, Trkn}

  function TrackText(info: MusicInfo): Option<TagValue> {
    if info.trackNumber > 0 then Some(TextValue(NatToString(info.trackNumber))) else None
  }

  function WhenNonEmpty(guard: string, value: string): Option<TagValue> {
    if guard != "" then Some(TextValue(value)) else None
  }

  /** The ID3 frame `_write_mp3_tags` of the packaged downloader assigns to `f`, if any. */
  function Mp3Entry(info: MusicInfo, f: Field): Option<TagValue> {
    match f
    case TIT2 => Some(TextValue(info.name))
    case TPE1 => Some(TextValue(info.artists))
    case TALB => Some(TextValue(info.album))
    case TRCK => TrackText(info)
    case TYER => WhenNonEmpty(info.publishTime, YearPart(Strip(info.publishTime)))
    case TDRC => WhenNonEmpty(info.publishTime, Strip(info.publishTime))
    case USLT => WhenNonEmpty(info.lyric, Strip(info.lyric))
    case USLTTranslated => WhenNonEmpty(info.tlyric, Strip(info.tlyric))
    case _ => None
  }

  /** ID3 frames set by `_write_mp3_tags` of the packaged downloader; the date and lyric frames are in `Mp3PlanDateAndLyrics`. */
  function Mp3Plan(info: MusicInfo): (r: TagPlan)
    ensures TIT2 in r && TPE1 in r && TALB in r
    ensures r[TIT2] == TextValue(info.name) && r[TPE1] == TextValue(info.artists) && r[TALB] == TextValue(info.album)
    ensures TRCK in r <==> info.trackNumber > 0
    ensures TRCK in r ==> r[TRCK] == TextValue(NatToString(info.trackNumber))
    ensures r.Keys <= Mp3Fields
  {
    assert TIT2 in Mp3Fields && TPE1 in Mp3Fields && TALB in Mp3Fields && TRCK in Mp3Fields;
    map f | f in Mp3Fields && Mp3Entry(info, f).Some? :: Mp3Entry(info, f).value
  }

  /** The MP3 date frames hold the stripped date and its year; the lyric frames the stripped lyrics. */
  lemma Mp3PlanDateAndLyrics(info: MusicInfo)
    ensures var r := Mp3Plan(info);
      (TYER in r <==> info.publishTime != "") && (TDRC in r <==> info.publishTime != "")
    ensures var r := Mp3Plan(info); info.publishTime != "" ==>
      r[TDRC] == TextValue(Strip(info.publishTime)) && r[TYER] == TextValue(YearPart(Strip(info.publishTime)))
    ensures var r := Mp3Plan(info);
      (USLT in r <==> info.lyric != "") && (USLT in r ==> r[USLT] == TextValue(Strip(info.lyric)))
    ensures var r := Mp3Plan(info);
      (USLTTranslated in r <==> info.tlyric != "") && (USLTTranslated in r ==> r[USLTTranslated] == TextValue(Strip(info.tlyric)))
  {
  }

  /** The Vorbis comment `_write_flac_tags` of the packaged downloader assigns to `f`, if any. */
  function FlacEntry(info: MusicInfo, f: Field): Option<TagValue> {
    match f
    case TITLE => Some(TextValue(info.name))
    case ARTIST => Some(TextValue(info.artists))
    case ALBUM => Some(TextValue(info.album))
    case TRACKNUMBER => TrackText(info)
    case YEAR => WhenNonEmpty(info.publishTime, YearPart(info.publishTime))
    case DATE => WhenNonEmpty(info.publishTime, info.publishTime)
    case LYRICS => WhenNonEmpty(info.lyric, Strip(info.lyric))
    case TRANSLATEDLYRICS => WhenNonEmpty(info.tlyric, Strip(info.tlyric))
    case _ => None
  }

  /** Vorbis comments set by `_write_flac_tags` of the packaged downloader; the date comments are in `FlacPlanDate`, the lyric comments in `FlacPlanLyrics`. */
  function FlacPlan(info: MusicInfo): (r: TagPlan)
    ensures TITLE in r && ARTIST in r && ALBUM in r
    ensures r[TITLE] == TextValue(info.name) && r[ARTIST] == TextValue(info.artists) && r[ALBUM] == TextValue(info.album)
    ensures TRACKNUMBER in r <==> info.trackNumber > 0
    ensures TRACKNUMBER in r ==> r[TRACKNUMBER] == TextValue(NatToString(info.trackNumber))
    ensures r.Keys <= FlacFields
  {
    assert TITLE in FlacFields && ARTIST in FlacFields && ALBUM in FlacFields && TRACKNUMBER in FlacFields;
    map f | f in FlacFields && FlacEntry(info, f).Some? :: FlacEntry(info, f).value
  }

  /** The FLAC date comments: present for a non-empty date, DATE holding it whole and YEAR its year. */
  lemma FlacPlanDate(info: MusicInfo)
    ensures var r := FlacPlan(info);
      (YEAR in r <==> info.publishTime != "") && (DATE in r <==> info.publishTime != "")
    ensures var r := FlacPlan(info); info.publishTime != "" ==>
      r[DATE] == TextValue(info.publishTime) && r[YEAR] == TextValue(YearPart(info.publishTime))
  {
    assert YEAR in FlacFields && DATE in FlacFields;
  }

  /** The FLAC lyric comments: present for non-empty lyrics, holding them stripped. */
  lemma FlacPlanLyrics(info: MusicInfo)
    ensures var r := FlacPlan(info);
      (LYRICS in r <==> info.lyric != "") && (LYRICS in r ==> r[LYRICS] == TextValue(Strip(info.lyric)))
    ensures var r := FlacPlan(info);
      (TRANSLATEDLYRICS in r <==> info.tlyric != "") && (TRANSLATEDLYRICS in r ==> r[TRANSLATEDLYRICS] == TextValue(Strip(info.tlyric)))
  {
    assert LYRICS in FlacFields && TRANSLATEDLYRICS in FlacFields;
  }

  /** The MP4 atom `_write_m4a_tags` (identical in both downloader copies) assigns to `f`, if any. */
  function M4aEntry(info: MusicInfo, f: Field): Option<TagValue> {
    match f
    case Nam => Some(TextValue(info.name))
    case Art => Some(TextValue(info.artists))
    case Alb => Some(TextValue(info.album))
    case Trkn => if info.trackNumber > 0 then Some(TrackPair(info.trackNumber, 0)) else None
    case _ => None
  }

  /** MP4 atoms set by `_write_m4a_tags`: no date and no lyrics. */
  function M4aPlan(info: MusicInfo): (r: TagPlan)
    ensures Nam in r && Art in r && Alb in r
    ensures r[Nam] == TextValue(info.name) && r[Art] == TextValue(info.artists) && r[Alb] == TextValue(info.album)
    ensures Trkn in r <==> info.trackNumber > 0
    ensures Trkn in r ==> r[Trkn] == TrackPair(info.trackNumber, 0)
    ensures r.Keys <= M4aFields
  {
    assert Nam in M4aFields && Art in M4aFields && Alb in M4aFields && Trkn in M4aFields;
    map f | f in M4aFields && M4aEntry(info, f).Some? :: M4aEntry(info, f).value
  }

  /**
   * `_write_mp3_tags` of the top-level downloader: `audio.tags.add(...)` on a
   * file without an ID3 header fails on `None.add`, the error is swallowed and
   * nothing is saved.
   */
  function LegacyMp3Plan(info: MusicInfo, hasId3Header: bool): (r: Option<TagPlan>)
    ensures r.Some? <==> hasId3Header
    ensures r.Some? ==> r.value.Keys == {TIT2, TPE1, TALB} + (if info.trackNumber > 0 then {TRCK} else {})
    ensures r.Some? ==> forall k :: k in r.value ==> k in Mp3Plan(info) && r.value[k] == Mp3Plan(info)[k]
  {
    if !hasId3Header then None
    else Some(map f | f in {TIT2, TPE1, TALB, TRCK} && Mp3Entry(info, f).Some? :: Mp3Entry(info, f).value)
  }

  function LegacyFlacEntry(info: MusicInfo, f: Field): Option<TagValue> {
    if f == DATE then WhenNonEmpty(info.publishTime, YearPart(info.publishTime)) else FlacEntry(info, f)
  }

  /**
   * `_write_flac_tags` and `_write_flac_tags_memory` of the top-level
   * downloader, as written: DATE receives the year part, like YEAR.
   */
  function LegacyFlacPlan(info: MusicInfo): (r: TagPlan)
    ensures info.publishTime != "" ==>
      DATE in r && YEAR in r && r[DATE] == TextValue(YearPart(info.publishTime)) && r[DATE] == r[YEAR]
    ensures forall k :: k in r && k != DATE ==> k in FlacPlan(info) && r[k] == FlacPlan(info)[k]
    ensures r.Keys == FlacPlan(info).Keys
  {
    assert forall f :: LegacyFlacEntry(info, f).Some? == FlacEntry(info, f).Some?;
    map f | f in FlacFields && LegacyFlacEntry(info, f).Some? :: LegacyFlacEntry(info, f).value
  }

  /**
   * A date `y-rest` with a month and day (such as `2011-05-15`) loses them in
   * the as-written FLAC plan, while the packaged plan keeps the whole date.
   */
  lemma LegacyFlacDropsMonthAndDay(y: string, rest: string, info: MusicInfo)
    requires '-' !in y && info.publishTime == y + "-" + rest
    ensures var legacy, plan := LegacyFlacPlan(info), FlacPlan(info);
      DATE in legacy && DATE in plan && legacy[DATE] == TextValue(y) && plan[DATE] == TextValue(info.publishTime)
    ensures y != info.publishTime
  {
    FlacPlanDate(info);
    YearPartOfIsoDate(y, rest);
    assert |info.publishTime| > |y|;
  }

  /** In the MP3 and FLAC plans the year is the date's leading part, with no `-` in it. */
  lemma YearIsPrefixOfDate(info: MusicInfo)
    requires info.publishTime != ""
    ensures var p := Mp3Plan(info);
      TYER in p && TDRC in p && p[TYER].TextValue? && p[TDRC].TextValue? && p[TYER].text <= p[TDRC].text && '-' !in p[TYER].text
    ensures var p := FlacPlan(info);
      YEAR in p && DATE in p && p[YEAR].TextValue? && p[DATE].TextValue? && p[YEAR].text <= p[DATE].text && '-' !in p[YEAR].text
  {
    Mp3PlanDateAndLyrics(info);
    FlacPlanDate(info);
  }

  /** A full date `YYYY-MM-DD` yields the year `YYYY` in both plans. */
  lemma {:induction false} YearOfIsoDate(y: string, rest: string, info: MusicInfo)
    requires '-' !in y && info.publishTime == y + "-" + rest
    ensures YEAR in FlacPlan(info) && FlacPlan(info)[YEAR] == TextValue(y)
  {
    FlacPlanDate(info);
    YearPartOfIsoDate(y, rest);
  }

  /** The year part of `y-rest` is `y` when `y` has no `-`. */
  lemma YearPartOfIsoDate(y: string, rest: string)
    requires '-' !in y
    ensures YearPart(y + "-" + rest) == y
  {
    SplitCons(y, '-', rest);
  }

  /**
   * `_write_music_tags`: dispatch on the lower-cased file suffix; an unknown
   * suffix writes nothing.
   */
  function PlanFor(suffix: string, info: MusicInfo): (r: Option<TagPlan>)
    ensures r.Some? <==> Lower(suffix) in {".mp3", ".flac", ".m4a"}
    ensures Lower(suffix) == ".mp3" ==> r == Some(Mp3Plan(info))
    ensures Lower(suffix) == ".flac" ==> r == Some(FlacPlan(info))
    ensures Lower(suffix) == ".m4a" ==> r == Some(M4aPlan(info))
  {
    var ext := Lower(suffix);
    if ext == ".mp3" then Some(Mp3Plan(info))
    else if ext == ".flac" then Some(FlacPlan(info))
    else if ext == ".m4a" then Some(M4aPlan(info))
    else None
  }
}
