/**
 * Filename and extension policy of the downloader. The two copies of the
 * downloader differ in one character: `src/music_downloader.py` replaces an
 * illegal character by `" & "`, the top-level `music_downloader.py` by `"_"`.
 */
module FilenamePolicy {
  import opened Text

  /** The character class `[<>:"/\\|?*]`. */
  const IllegalChars: set<char> := {'<', '>', ':', '"', '/', '\\', '|', '?', '*'}
  /** What `strip(' .')` removes at both ends. */
  const EdgeChars: set<char> := {' ', '.'}
  const MaxNameLength: nat := 200
  const Fallback: string := "unknown"

  /** `re.sub(illegal_chars, rep, s)`. */
  function ReplaceIllegal(s: string, rep: string): string {
    if s == [] then [] else (if s[0] in IllegalChars then rep else [s[0]]) + ReplaceIllegal(s[1..], rep)
  }

  /** The replacement leaves no illegal character behind when `rep` has none. */
  lemma {:induction false} ReplaceIllegalClean(s: string, rep: string)
    requires forall c :: c in rep ==> c !in IllegalChars
    ensures forall c :: c in ReplaceIllegal(s, rep) ==> c !in IllegalChars
  {
    if s != [] {
      ReplaceIllegalClean(s[1..], rep);
    }
  }

  /** The number of illegal characters in `s`. */
  function IllegalCount(s: string): nat {
    if s == [] then 0 else (if s[0] in IllegalChars then 1 else 0) + IllegalCount(s[1..])
  }

  /** Each illegal character is replaced by the whole of `rep`, everything else is kept. */
  lemma {:induction false} ReplaceIllegalLength(s: string, rep: string)
    ensures |ReplaceIllegal(s, rep)| == |s| + (|rep| - 1) * IllegalCount(s)
  {
    if s != [] {
      ReplaceIllegalLength(s[1..], rep);
    }
  }

  /** With a one-character replacement the result lines up with the input, position by position. */
  lemma {:induction false} ReplaceIllegalPointwise(s: string, c: char, k: nat)
    requires k < |s|
    ensures |ReplaceIllegal(s, [c])| == |s|
    ensures ReplaceIllegal(s, [c])[k] == if s[k] in IllegalChars then c else s[k]
  {
    ReplaceIllegalLength(s, [c]);
    if k > 0 {
      ReplaceIllegalPointwise(s[1..], c, k - 1);
    }
  }

  /** The common shape of both `_sanitize_filename` copies, given the replacement text. */
  function SanitizeWith(name: string, rep: string): (r: string)
    requires forall c :: c in rep ==> c !in IllegalChars
    ensures 0 < |r| <= MaxNameLength
    ensures forall c :: c in r ==> c !in IllegalChars
    ensures r[0] !in EdgeChars
    ensures var t := StripChars(ReplaceIllegal(name, rep), EdgeChars);
      if t == [] then r == Fallback else r == t[..if |t| > MaxNameLength then MaxNameLength else |t|]
  {
    var replaced := ReplaceIllegal(name, rep);
    var stripped := StripChars(replaced, EdgeChars);
    ReplaceIllegalClean(name, rep);
    StripCharsEnds(replaced, EdgeChars);
    StripCharsSubset(replaced, EdgeChars);
    var truncated := if |stripped| > MaxNameLength then stripped[..MaxNameLength] else stripped;
    if truncated == [] then Fallback else truncated
  }

  /** `_sanitize_filename` of `src/music_downloader.py`: illegal characters become `" & "`. */
  function Sanitize(name: string): (r: string)
    ensures 0 < |r| <= MaxNameLength
    ensures forall c :: c in r ==> c !in IllegalChars
    ensures r[0] != ' ' && r[0] != '.'
  {
    SanitizeWith(name, " & ")
  }

  /**
   * `_sanitize_filename` of the top-level `music_downloader.py`: illegal characters become `"_"`,
   * so unlike the `" & "` copy the name never grows, unless it falls back to `"unknown"`.
   */
  function SanitizeLegacy(name: string): (r: string)
    ensures 0 < |r| <= MaxNameLength
    ensures forall c :: c in r ==> c !in IllegalChars
    ensures r[0] != ' ' && r[0] != '.'
    ensures r == Fallback || |r| <= |name|
  {
    ReplaceIllegalLength(name, "_");
    SanitizeWith(name, "_")
  }

  /** A name without illegal characters is left alone by the replacement. */
  lemma {:induction false} ReplaceIllegalNone(s: string, rep: string)
    requires forall i :: 0 <= i < |s| ==> s[i] !in IllegalChars
    ensures ReplaceIllegal(s, rep) == s
  {
    if s != [] {
      ReplaceIllegalNone(s[1..], rep);
    }
  }

  /** The two copies differ only on illegal characters: without any, they name a song alike. */
  lemma SanitizeCopiesAgree(name: string)
    requires forall i :: 0 <= i < |name| ==> name[i] !in IllegalChars
    ensures Sanitize(name) == SanitizeLegacy(name)
  {
    ReplaceIllegalNone(name, " & ");
    ReplaceIllegalNone(name, "_");
  }

  /** An illegal character tells them apart: `a:b` is `a & b` in one copy and `a_b` in the other. */
  lemma SanitizeCopiesDiffer()
    ensures Sanitize("a:b") == "a & b"
    ensures SanitizeLegacy("a:b") == "a_b"
  {
    assert 'a' !in IllegalChars && ':' in IllegalChars && 'b' !in IllegalChars;
    assert "a:b"[1..] == ":b" && ":b"[1..] == "b" && "b"[1..] == "";
    assert ReplaceIllegal("b", " & ") == "b" && ReplaceIllegal("b", "_") == "b";
    assert ReplaceIllegal("a:b", " & ") == "a & b";
    assert ReplaceIllegal("a:b", "_") == "a_b";
    StripCharsNoop("a & b", EdgeChars);
    StripCharsNoop("a_b", EdgeChars);
  }

  /** A name whose replacement strips down to nothing falls back to `"unknown"`. */
  lemma SanitizeFallback(name: string)
    requires StripChars(ReplaceIllegal(name, " & "), EdgeChars) == []
    ensures Sanitize(name) == Fallback
  {
  }

  /** The illegal characters of a short, clean-edged name each become one `_`, and nothing else changes. */
  lemma SanitizeLegacyPointwise(name: string, k: nat)
    requires 0 < |name| <= MaxNameLength && k < |name|
    requires name[0] !in EdgeChars && name[|name| - 1] !in EdgeChars
    ensures |SanitizeLegacy(name)| == |name|
    ensures SanitizeLegacy(name)[k] == if name[k] in IllegalChars then '_' else name[k]
  {
    var replaced := ReplaceIllegal(name, "_");
    ReplaceIllegalPointwise(name, '_', k);
    ReplaceIllegalPointwise(name, '_', 0);
    ReplaceIllegalPointwise(name, '_', |name| - 1);
    StripCharsNoop(replaced, EdgeChars);
  }

  /** `_determine_file_extension`: the URL first (flac, mp3, m4a), then the content type, then `.mp3`. */
  function DetermineExtension(url: string, contentType: string): (r: string)
    ensures r == ".flac" || r == ".mp3" || r == ".m4a"
  {
    var u := Lower(url);
    if Contains(u, ".flac") then ".flac"
    else if Contains(u, ".mp3") then ".mp3"
    else if Contains(u, ".m4a") then ".m4a"
    else
      var ct := Lower(contentType);
      if Contains(ct, "flac") then ".flac"
      else if Contains(ct, "mpeg") || Contains(ct, "mp3") then ".mp3"
      else if Contains(ct, "mp4") || Contains(ct, "m4a") then ".m4a"
      else ".mp3"
  }

  /** The extension the URL alone decides, if any. */
  function UrlHint(url: string): string {
    var u := Lower(url);
    if Contains(u, ".flac") then ".flac"
    else if Contains(u, ".mp3") then ".mp3"
    else if Contains(u, ".m4a") then ".m4a"
    else ""
  }

  /** A URL that names a known extension decides alone: the content type is never consulted. */
  lemma UrlTakesPriority(url: string, ct1: string, ct2: string)
    requires UrlHint(url) != ""
    ensures DetermineExtension(url, ct1) == DetermineExtension(url, ct2) == UrlHint(url)
  {
  }

  /** When the URL names no extension the content type decides, as it would for an empty URL. */
  lemma ContentTypeFallback(url: string, ct: string)
    requires UrlHint(url) == ""
    ensures DetermineExtension(url, ct) == DetermineExtension("", ct)
  {
    assert Find(Lower(""), ".flac") == -1 && Find(Lower(""), ".mp3") == -1 && Find(Lower(""), ".m4a") == -1;
  }

  /** With nothing recognisable in either input the default is `.mp3`. */
  lemma DefaultIsMp3(url: string, ct: string)
    requires UrlHint(url) == ""
    requires !Contains(Lower(ct), "flac") && !Contains(Lower(ct), "mpeg") && !Contains(Lower(ct), "mp3")
    requires !Contains(Lower(ct), "mp4") && !Contains(Lower(ct), "m4a")
    ensures DetermineExtension(url, ct) == ".mp3"
  {
  }
}
