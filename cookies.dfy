/**
 * Cookie handling of the packaged service: the tolerant parser and the
 * serialiser of `Cookie` header text, the format validator, the validity
 * check, and the `CookieManager` object that keeps the raw and parsed forms.
 */
module Cookies {
  import opened Wrappers
  import opened Text

  /** An insertion-ordered dictionary, as a Python `dict` is. */
  datatype Dict = Dict(keys: seq<string>, m: map<string, string>)
  {
    /** The key order lists every key of the map exactly once. */
    ghost predicate Valid() {
      (forall i, j :: 0 <= i < j < |keys| ==> keys[i] != keys[j])
      && (forall k :: k in m <==> k in keys)
    }
  }

  const EmptyDict: Dict := Dict([], map[])

  /** Every listed key of a valid dictionary is in its map. */
  lemma KeysInMap(d: Dict)
    requires d.Valid()
    ensures forall i :: 0 <= i < |d.keys| ==> d.keys[i] in d.m
  {
  }

  /** `d[k] = v`: an existing key keeps its place, a new one goes last. */
  function Put(d: Dict, k: string, v: string): (r: Dict)
    ensures r.m == d.m[k := v]
    ensures d.Valid() ==> r.Valid()
  {
    if k in d.m then Dict(d.keys, d.m[k := v]) else Dict(d.keys + [k], d.m[k := v])
  }

  /** The pieces `parse_cookie_string` cuts an already stripped string into. */
  function Pieces(s: string): (r: seq<string>)
    ensures |r| >= 1
  {
    if ';' in s then Split(s, ";") else if '\n' in s then Split(s, "\n") else [s]
  }

  /** A stripped, non-empty piece holding `=`: cut at the first `=`, both halves stripped, kept when both are non-empty. */
  function SplitPair(p: string): Option<(string, string)>
    requires '=' in p
  {
    var cut := CutAt(p, '=');
    var key := Strip(cut.0);
    var value := Strip(cut.1);
    if key != "" && value != "" then Some((key, value)) else None
  }

  /** One piece: stripped, skipped when empty or without `=`, else split into a key and a value. */
  function ParsePair(pair: string): Option<(string, string)>
  {
    var p := Strip(pair);
    if p == "" || '=' !in p then None else SplitPair(p)
  }

  /** Every kept pair has a non-empty, stripped key without `=` and a non-empty, stripped value. */
  predicate CleanPair(k: string, v: string) {
    k != "" && v != "" && Stripped(k) && Stripped(v) && '=' !in k
  }

  predicate CleanOption(p: Option<(string, string)>) {
    p.Some? ==> CleanPair(p.value.0, p.value.1)
  }

  lemma SplitPairClean(p: string)
    requires '=' in p
    ensures CleanOption(SplitPair(p))
  {
    var cut := CutAt(p, '=');
    StrippedIff(cut.0);
    StrippedIff(cut.1);
    StripCharsSubset(cut.0, Whitespace);
  }

  lemma ParsePairClean(pair: string)
    ensures CleanOption(ParsePair(pair))
  {
    var p := Strip(pair);
    if p != "" && '=' in p {
      SplitPairClean(p);
    }
  }

  /** The outcome of the pair parser on each piece, in order. */
  function PairsOf(pieces: seq<string>): (r: seq<Option<(string, string)>>)
    ensures |r| == |pieces| && forall i :: 0 <= i < |r| ==> r[i] == ParsePair(pieces[i])
  {
    seq(|pieces|, i requires 0 <= i < |pieces| => ParsePair(pieces[i]))
  }

  /** The dictionary the loop builds from the parsed pieces; a later duplicate key overwrites. */
  function Collect(pairs: seq<Option<(string, string)>>): (r: Dict)
    ensures r.Valid()
  {
    if |pairs| == 0 then EmptyDict
    else
      var d := Collect(pairs[..|pairs| - 1]);
      var p := pairs[|pairs| - 1];
      if p.None? then d else Put(d, p.value.0, p.value.1)
  }

  /** Every entry is a clean pair. */
  predicate CleanDict(d: Dict) {
    forall k :: k in d.m ==> CleanPair(k, d.m[k])
  }

  /** Storing a clean pair in a dictionary of clean pairs keeps it clean. */
  lemma PutClean(d: Dict, k: string, v: string)
    requires CleanDict(d) && CleanPair(k, v)
    ensures CleanDict(Put(d, k, v))
  {
  }

  /** A dictionary collected from clean pairs has only clean entries. */
  lemma {:induction false} CollectClean(pairs: seq<Option<(string, string)>>)
    requires forall i :: 0 <= i < |pairs| ==> CleanOption(pairs[i])
    ensures CleanDict(Collect(pairs))
  {
    if |pairs| > 0 {
      var prefix := pairs[..|pairs| - 1];
      var p := pairs[|pairs| - 1];
      assert forall i :: 0 <= i < |prefix| ==> prefix[i] == pairs[i];
      CollectClean(prefix);
      var d := Collect(prefix);
      assert CleanOption(p);
      if p.Some? {
        PutClean(d, p.value.0, p.value.1);
        assert Collect(pairs) == Put(d, p.value.0, p.value.1);
      } else {
        assert Collect(pairs) == Collect(prefix);
      }
    }
  }

  /** One more pair on the collected prefix. */
  lemma CollectNext(pairs: seq<Option<(string, string)>>, i: nat)
    requires i < |pairs|
    ensures var d := Collect(pairs[..i]);
      Collect(pairs[..i + 1]) == if pairs[i].None? then d else Put(d, pairs[i].value.0, pairs[i].value.1)
  {
    assert pairs[..i + 1][..i] == pairs[..i];
  }

  /** `parse_cookie_string`. */
  function Parse(s: string): (r: Dict)
    ensures r.Valid()
    ensures Strip(s) == "" ==> r == EmptyDict
  {
    if Strip(s) == "" then EmptyDict else Collect(PairsOf(Pieces(Strip(s))))
  }

  /** Parsing strips first, so a stripped text parses like the original. */
  lemma ParseStrip(s: string)
    ensures Parse(Strip(s)) == Parse(s)
  {
    StripCharsIdempotent(s, Whitespace);
  }

  /** Keys and values of a parse are non-empty and stripped, and keys hold no `=`. */
  lemma ParseClean(s: string)
    ensures CleanDict(Parse(s))
  {
    if Strip(s) != "" {
      var pairs := PairsOf(Pieces(Strip(s)));
      forall i | 0 <= i < |pairs| ensures CleanOption(pairs[i]) {
        ParsePairClean(Pieces(Strip(s))[i]);
      }
      CollectClean(pairs);
    }
  }

  /** `parse_cookie_string`, with the dictionary filled in a loop over the pieces. */
  method ParseCookieString(s: string) returns (cookies: Dict)
    ensures cookies == Parse(s)
  {
    if Strip(s) == "" {
      return EmptyDict;
    }
    var text := Strip(s);
    var pairs := Pieces(text);
    ghost var parsed := PairsOf(pairs);
    cookies := EmptyDict;
    for i := 0 to |pairs|
      invariant cookies == Collect(parsed[..i])
    {
      CollectNext(parsed, i);
      assert parsed[i] == ParsePair(pairs[i]);
      var pair := Strip(pairs[i]);
      if pair == "" || '=' !in pair {
        continue;
      }
      var cut := CutAt(pair, '=');
      var key := Strip(cut.0);
      var value := Strip(cut.1);
      if key != "" && value != "" {
        cookies := Put(cookies, key, value);
      }
    }
    assert parsed[..|pairs|] == parsed;
  }

  /** The `k=v` texts of the entries whose key and value are both non-empty, in order. */
  function FormatPairs(keys: seq<string>, m: map<string, string>): (r: seq<string>)
    ensures |r| <= |keys|
    ensures forall i :: 0 <= i < |r| ==> '=' in r[i]
  {
    if |keys| == 0 then []
    else
      var k := keys[0];
      (if k in m && k != "" && m[k] != "" then [k + "=" + m[k]] else []) + FormatPairs(keys[1..], m)
  }

  /** `format_cookie_string`: `'; '.join(...)`, and `""` for an empty dictionary. */
  function Format(d: Dict): (r: string)
    ensures |d.keys| == 0 ==> r == ""
  {
    if |d.keys| == 0 then "" else Join(FormatPairs(d.keys, d.m), "; ")
  }

  /** The entries the round trip is stated for. */
  predicate CleanEntry(k: string, v: string) {
    k != "" && v != "" && Stripped(k) && Stripped(v)
    && ';' !in k && ';' !in v && '\n' !in k && '\n' !in v && '=' !in k
  }

  ghost predicate Clean(d: Dict) {
    d.Valid() && forall k :: k in d.m ==> CleanEntry(k, d.m[k])
  }

  /** With every entry clean, the formatter keeps every entry, in key order. */
  lemma {:induction false} FormatPairsAll(keys: seq<string>, m: map<string, string>)
    requires forall k :: k in keys ==> k in m && CleanEntry(k, m[k])
    ensures |FormatPairs(keys, m)| == |keys|
    ensures forall i :: 0 <= i < |keys| ==> FormatPairs(keys, m)[i] == keys[i] + "=" + m[keys[i]]
  {
    if |keys| > 0 {
      FormatPairsAll(keys[1..], m);
    }
  }

  /** The keys the formatter keeps, in key order: present, non-empty and with a non-empty value. */
  function KeptKeys(keys: seq<string>, m: map<string, string>): (r: seq<string>)
    ensures forall k :: k in r <==> k in keys && k in m && k != "" && m[k] != ""
  {
    if |keys| == 0 then []
    else
      var k := keys[0];
      (if k in m && k != "" && m[k] != "" then [k] else []) + KeptKeys(keys[1..], m)
  }

  /** The formatter's texts are exactly `k=v` for the kept keys, in their order: empty keys or values are skipped. */
  lemma {:induction false} FormatPairsKept(keys: seq<string>, m: map<string, string>)
    ensures var kept := KeptKeys(keys, m);
      |FormatPairs(keys, m)| == |kept|
      && forall i :: 0 <= i < |kept| ==> kept[i] in m && FormatPairs(keys, m)[i] == kept[i] + "=" + m[kept[i]]
  {
    if |keys| > 0 {
      FormatPairsKept(keys[1..], m);
    }
  }

  /** `{"a": "", "b": "1"}` formats as `b=1`. */
  lemma FormatSkipsEmptyValue()
    ensures Format(Dict(["a", "b"], map["a" := "", "b" := "1"])) == "b=1"
  {
    var m := map["a" := "", "b" := "1"];
    assert ["a", "b"][1..] == ["b"] && ["b"][1..] == [];
    assert "b" in m && m["b"] == "1" && "b" + "=" + "1" == "b=1";
    assert FormatPairs(["b"], m) == ["b=1"];
  }

  /** The pieces a `"; "`-joined text splits into at `;`: the first entry, then each later one after a space. */
  function Spaced(parts: seq<string>): (r: seq<string>)
    requires |parts| >= 1
    ensures |r| == |parts| && r[0] == parts[0]
    ensures forall i :: 1 <= i < |parts| ==> r[i] == " " + parts[i]
  {
    [parts[0]] + seq(|parts| - 1, i requires 0 <= i < |parts| - 1 => " " + parts[i + 1])
  }

  /** Splitting a `"; "`-join of `;`-free parts at `;` gives the spaced parts. */
  lemma {:induction false} SplitJoinSpaced(parts: seq<string>)
    requires |parts| >= 1
    requires forall i :: 0 <= i < |parts| ==> ';' !in parts[i]
    ensures var r := Split(Join(parts, "; "), ";");
      |r| == |parts| && r[0] == parts[0] && forall i :: 1 <= i < |parts| ==> r[i] == " " + parts[i]
  {
    assert ";" == [';'];
    if |parts| > 1 {
      var rest := Join(parts[1..], "; ");
      SplitJoinSpaced(parts[1..]);
      assert Join(parts, "; ") == parts[0] + [';'] + (" " + rest);
      SplitCons(parts[0], ';', " " + rest);
      SplitPrefix(" ", ';', rest);
      SpacedStep(parts, Split(rest, [';']), Split(Join(parts, "; "), ";"));
    } else {
      SplitNoSep(parts[0], ';');
    }
  }

  /** The step of `SplitJoinSpaced`: the pieces of the tail, with the head in front and a space glued to the next piece. */
  lemma SpacedStep(parts: seq<string>, p: seq<string>, r: seq<string>)
    requires |parts| > 1 && |p| == |parts| - 1 && p[0] == parts[1]
    requires forall i :: 1 <= i < |parts| - 1 ==> p[i] == " " + parts[i + 1]
    requires r == [parts[0]] + ([" " + p[0]] + p[1..])
    ensures |r| == |parts| && r[0] == parts[0] && forall i :: 1 <= i < |parts| ==> r[i] == " " + parts[i]
  {
    forall i | 1 <= i < |parts| ensures r[i] == " " + parts[i] {
      if i > 1 {
        assert r[i] == p[i - 1];
      }
    }
  }

  /** A join of non-empty parts starts with the first part and ends with the last. */
  lemma {:induction false} JoinEnds(parts: seq<string>, sep: string)
    requires |parts| >= 1
    ensures var j := Join(parts, sep);
      |j| >= |parts[0]| && j[..|parts[0]|] == parts[0]
      && |j| >= |parts[|parts| - 1]| && j[|j| - |parts[|parts| - 1]|..] == parts[|parts| - 1]
  {
    if |parts| > 1 {
      JoinEnds(parts[1..], sep);
      var j := Join(parts, sep);
      var rest := Join(parts[1..], sep);
      assert j == parts[0] + sep + rest;
      assert j[|j| - |rest|..] == rest;
    }
  }

  /** A clean entry's `k=v` text is cut back into its key and value. */
  lemma SplitPairFormatted(k: string, v: string)
    requires CleanEntry(k, v)
    ensures '=' in k + "=" + v && SplitPair(k + "=" + v) == Some((k, v))
  {
    var kv := k + "=" + v;
    assert kv == k + ['='] + v && kv[|k|] == '=';
    CutAtUnique(k, '=', v);
    StrippedIff(k);
    StrippedIff(v);
  }

  /** A clean entry's `k=v` text is recovered by the pair parser, with or without the leading space. */
  lemma ParsePairFormatted(k: string, v: string, pad: string)
    requires CleanEntry(k, v) && (pad == "" || pad == " ")
    ensures ParsePair(pad + (k + "=" + v)) == Some((k, v))
  {
    var kv := k + "=" + v;
    assert kv[0] == k[0] && kv[|kv| - 1] == v[|v| - 1];
    assert kv != [] && kv[0] !in Whitespace && kv[|kv| - 1] !in Whitespace;
    StripCharsPadded(pad, kv, Whitespace);
    assert Strip(pad + kv) == kv;
    SplitPairFormatted(k, v);
    assert ParsePair(pad + kv) == SplitPair(kv);
  }

  /** The `k=v` texts of all entries, in key order. */
  function Entries(d: Dict): (r: seq<string>)
    requires forall k :: k in d.keys ==> k in d.m
    ensures |r| == |d.keys|
  {
    seq(|d.keys|, i requires 0 <= i < |d.keys| => d.keys[i] + "=" + d.m[d.keys[i]])
  }

  /** The map holding the given keys of `m`. */
  function Restrict(keys: seq<string>, m: map<string, string>): map<string, string>
    requires forall k :: k in keys ==> k in m
  {
    map k | k in keys :: m[k]
  }

  /** The dictionary made of the first `i` keys of `d`. */
  function Prefix(d: Dict, i: nat): (r: Dict)
    requires forall k :: k in d.keys ==> k in d.m
    requires i <= |d.keys|
    ensures r.keys == d.keys[..i] && r.m.Keys <= d.m.Keys
  {
    Dict(d.keys[..i], Restrict(d.keys[..i], d.m))
  }

  /** Storing the next key of a valid dictionary extends its prefix by that key. */
  lemma PutNextKey(d: Dict, i: nat)
    requires d.Valid() && i < |d.keys|
    ensures Put(Prefix(d, i), d.keys[i], d.m[d.keys[i]]) == Prefix(d, i + 1)
  {
    var k := d.keys[i];
    var before, after := d.keys[..i], d.keys[..i + 1];
    assert after == before + [k];
    assert k !in before by {
      forall j | 0 <= j < i ensures before[j] != k {
        assert before[j] == d.keys[j];
      }
    }
    var grown := Restrict(before, d.m)[k := d.m[k]];
    assert forall x :: x in after <==> x in before || x == k;
    assert grown == Restrict(after, d.m);
    assert k !in Prefix(d, i).m;
  }

  /** Collecting each entry of a dictionary, in key order, rebuilds it one key at a time. */
  lemma {:induction false} CollectEntries(d: Dict, pairs: seq<Option<(string, string)>>, i: nat)
    requires d.Valid() && i <= |d.keys| && i <= |pairs|
    requires forall j :: 0 <= j < i ==> pairs[j] == Some((d.keys[j], d.m[d.keys[j]]))
    ensures Collect(pairs[..i]) == Prefix(d, i)
  {
    if i == 0 {
      assert Restrict(d.keys[..0], d.m) == map[];
    } else {
      var k := d.keys[i - 1];
      var prev := Collect(pairs[..i - 1]);
      assert prev == Prefix(d, i - 1) by { CollectEntries(d, pairs, i - 1); }
      assert Collect(pairs[..i]) == Put(prev, k, d.m[k]) by { CollectNext(pairs, i - 1); }
      PutNextKey(d, i - 1);
    }
  }

  /** The text `format_cookie_string` gives a clean, non-empty dictionary is the `"; "`-join of its entries. */
  lemma FormatEntries(d: Dict)
    requires Clean(d) && 1 <= |d.keys|
    ensures Format(d) == Join(Entries(d), "; ")
    ensures forall i :: 0 <= i < |d.keys| ==> ';' !in Entries(d)[i] && '\n' !in Entries(d)[i]
  {
    KeysInMap(d);
    FormatPairsAll(d.keys, d.m);
    var parts := Entries(d);
    assert FormatPairs(d.keys, d.m) == parts;
    forall i | 0 <= i < |parts| ensures ';' !in parts[i] && '\n' !in parts[i] {
      assert parts[i] == d.keys[i] + "=" + d.m[d.keys[i]];
    }
  }

  /** That text starts with the first key and ends with the last value. */
  lemma FormatEnds(d: Dict)
    requires Clean(d) && 1 <= |d.keys|
    ensures var s := Format(d); var kl := d.keys[|d.keys| - 1];
      s != "" && kl in d.m && d.m[kl] != "" && d.keys[0] in d.m && d.keys[0] != "" && s[0] == d.keys[0][0] && s[|s| - 1] == d.m[kl][|d.m[kl]| - 1]
  {
    KeysInMap(d);
    FormatEntries(d);
    var parts := Entries(d);
    JoinEnds(parts, "; ");
    var last := parts[|parts| - 1];
    assert last == d.keys[|d.keys| - 1] + "=" + d.m[d.keys[|d.keys| - 1]];
    assert parts[0][0] == d.keys[0][0];
  }

  /** That text is non-empty and already stripped. */
  lemma FormatStripped(d: Dict)
    requires Clean(d) && 1 <= |d.keys|
    ensures Strip(Format(d)) == Format(d) != ""
  {
    KeysInMap(d);
    FormatEnds(d);
    StrippedIff(Format(d));
  }

  /** That text splits into the spaced entries. */
  lemma FormatPieces(d: Dict)
    requires Clean(d) && 1 <= |d.keys|
    ensures Pieces(Format(d)) == Spaced(Entries(d))
  {
    FormatEntries(d);
    var parts := Entries(d);
    var s := Format(d);
    var sp := Spaced(parts);
    if |d.keys| == 1 {
      assert s == parts[0];
      assert Pieces(s) == [s] == sp;
    } else {
      SplitJoinSpaced(parts);
      assert s == parts[0] + "; " + Join(parts[1..], "; ");
      assert s[|parts[0]|] == ';';
      var r := Split(s, ";");
      assert Pieces(s) == r;
      assert forall i :: 0 <= i < |r| ==> r[i] == sp[i];
    }
  }

  /** Collecting every entry of a valid dictionary, in key order, gives the dictionary back. */
  lemma CollectAll(d: Dict, pairs: seq<Option<(string, string)>>)
    requires d.Valid() && |pairs| == |d.keys|
    requires forall j :: 0 <= j < |d.keys| ==> pairs[j] == Some((d.keys[j], d.m[d.keys[j]]))
    ensures Collect(pairs) == d
  {
    assert Restrict(d.keys, d.m) == d.m by {
      forall k | k in d.m ensures k in d.keys { }
    }
    assert pairs[..|pairs|] == pairs;
    assert d.keys[..|d.keys|] == d.keys;
    CollectEntries(d, pairs, |d.keys|);
  }

  /** Each spaced entry parses back to its key and value. */
  lemma PairsOfSpaced(d: Dict)
    requires Clean(d) && 1 <= |d.keys|
    ensures var pairs := PairsOf(Spaced(Entries(d)));
      |pairs| == |d.keys| && forall j :: 0 <= j < |d.keys| ==> pairs[j] == Some((d.keys[j], d.m[d.keys[j]]))
  {
    KeysInMap(d);
    var sp := Spaced(Entries(d));
    var pairs := PairsOf(sp);
    forall j | 0 <= j < |d.keys| ensures pairs[j] == Some((d.keys[j], d.m[d.keys[j]])) {
      var k := d.keys[j];
      ParsePairFormatted(k, d.m[k], if j == 0 then "" else " ");
      assert sp[j] == (if j == 0 then "" else " ") + (k + "=" + d.m[k]);
    }
  }

  /** `parse_cookie_string(format_cookie_string(d)) == d` for a dictionary of clean entries. */
  lemma RoundTrip(d: Dict)
    requires Clean(d)
    ensures Parse(Format(d)) == d
  {
    if |d.keys| == 0 {
      assert d.m == map[];
      StripCharsNoop("", Whitespace);
    } else {
      FormatStripped(d);
      FormatPieces(d);
      PairsOfSpaced(d);
      CollectAll(d, PairsOf(Spaced(Entries(d))));
    }
  }

  /** The characters `validate_cookie_format` forbids in a cookie name. */
  const BadNameChars: set<char> := {' ', '\t', '\n', '\r', ';', ','}

  /** `validate_cookie_format`. */
  function ValidateCookieFormat(s: string): (r: bool)
    ensures Strip(s) == "" ==> !r
    ensures r <==> |Parse(s).keys| > 0 && forall k :: k in Parse(s).m ==> forall c :: c in k ==> c !in BadNameChars
  {
    var d := Parse(s);
    KeysInMap(d);
    Strip(s) != "" && |d.keys| > 0 && forall i :: 0 <= i < |d.keys| ==> forall c :: c in d.keys[i] ==> c !in BadNameChars
  }

  /** What `format_cookie_string` produces from a clean, non-empty dictionary with plain names passes the validator. */
  lemma FormattedIsValid(d: Dict)
    requires Clean(d) && |d.keys| > 0
    requires forall k :: k in d.m ==> forall c :: c in k ==> c !in BadNameChars
    ensures ValidateCookieFormat(Format(d))
  {
    RoundTrip(d);
  }

  /** The names `is_cookie_valid` insists on. */
  const ImportantCookies: set<string> := {"MUSIC_U", "MUSIC_A", "__csrf", "NMTID", "WEVNSM", "WNMCID"}

  /**
   * `is_cookie_valid` as written: it calls an undefined `parse_cookies`, the
   * `AttributeError` is caught and the answer is False whatever the cookies are.
   */
  function IsCookieValidAsWritten(parsed: Dict): (r: bool)
    ensures !r
  {
    false
  }

  /** The check `is_cookie_valid` means to make on the parsed cookies. */
  predicate CookiesValid(d: Dict) {
    |d.keys| > 0 && ImportantCookies <= d.m.Keys && |d.m["MUSIC_U"]| >= 10
  }

  /** A cookie set with all six names and a long `MUSIC_U` is valid, yet the method as written says no. */
  lemma ValidCookiesRejectedAsWritten()
    ensures var d := Dict(["MUSIC_U", "MUSIC_A", "__csrf", "NMTID", "WEVNSM", "WNMCID"],
      map["MUSIC_U" := "0123456789abcdef", "MUSIC_A" := "a", "__csrf" := "c", "NMTID" := "n", "WEVNSM" := "w", "WNMCID" := "x"]);
      CookiesValid(d) && !IsCookieValidAsWritten(d)
  {
  }

  /** A valid cookie set stays valid through formatting and re-parsing. */
  lemma ValidSurvivesRoundTrip(d: Dict)
    requires Clean(d) && CookiesValid(d)
    ensures CookiesValid(Parse(Format(d)))
  {
    RoundTrip(d);
  }

  /** Restricting to `k` followed by more keys is restricting to the rest, then storing `k`. */
  lemma RestrictCons(ks: seq<string>, src: map<string, string>)
    requires |ks| > 0 && forall k :: k in ks ==> k in src
    ensures Restrict(ks, src) == Restrict(ks[1..], src)[ks[0] := src[ks[0]]]
  {
    forall k | k in ks ensures k == ks[0] || k in ks[1..] {
      var i :| 0 <= i < |ks| && ks[i] == k;
      if i > 0 {
        assert ks[1..][i - 1] == k;
      }
    }
  }

  /** Storing `k` before a merge equals storing it in what is merged, when both agree on `k`. */
  lemma UpdateThenMerge(m: map<string, string>, r: map<string, string>, k: string, v: string)
    requires k in r ==> r[k] == v
    ensures m[k := v] + r == m + r[k := v]
  {
  }

  /** The keys of `ks` not yet `known`, in the order of their first appearance. */
  function NewKeys(ks: seq<string>, known: set<string>): (r: seq<string>)
    ensures forall k :: k in r <==> k in ks && k !in known
    ensures forall i, j :: 0 <= i < j < |r| ==> r[i] != r[j]
    decreases |ks|
  {
    if ks == [] then []
    else if ks[0] in known then NewKeys(ks[1..], known)
    else [ks[0]] + NewKeys(ks[1..], known + {ks[0]})
  }

  /** `dict.update`: each key of `ks` in turn set to its value in `src`. */
  function MergeKeys(a: Dict, ks: seq<string>, src: map<string, string>): (r: Dict)
    requires forall k :: k in ks ==> k in src
    ensures a.Valid() ==> r.Valid()
    ensures r.m == a.m + Restrict(ks, src)
    ensures |r.keys| >= |a.keys| && r.keys[..|a.keys|] == a.keys
    decreases |ks|
  {
    if |ks| == 0 then
      assert Restrict(ks, src) == map[];
      a
    else
      var next := Put(a, ks[0], src[ks[0]]);
      var r := MergeKeys(next, ks[1..], src);
      RestrictCons(ks, src);
      UpdateThenMerge(a.m, Restrict(ks[1..], src), ks[0], src[ks[0]]);
      assert next.keys[..|a.keys|] == a.keys;
      assert r.keys[..|a.keys|] == r.keys[..|next.keys|][..|a.keys|];
      r
  }

  /** Storing the first key of `ks` and listing the rest's new keys lists the new keys of all of `ks`. */
  lemma {:induction false} PutNewKeys(a: Dict, ks: seq<string>, v: string)
    requires |ks| > 0
    ensures Put(a, ks[0], v).keys + NewKeys(ks[1..], Put(a, ks[0], v).m.Keys) == a.keys + NewKeys(ks, a.m.Keys)
  {
    var k := ks[0];
    if k in a.m {
      assert Put(a, k, v) == Dict(a.keys, a.m[k := v]);
      assert a.m[k := v].Keys == a.m.Keys;
      assert NewKeys(ks, a.m.Keys) == NewKeys(ks[1..], a.m.Keys);
    } else {
      var rest := NewKeys(ks[1..], a.m.Keys + {k});
      assert Put(a, k, v) == Dict(a.keys + [k], a.m[k := v]);
      assert a.m[k := v].Keys == a.m.Keys + {k};
      assert NewKeys(ks, a.m.Keys) == [k] + rest;
      assert (a.keys + [k]) + rest == a.keys + ([k] + rest);
    }
  }

  /** The keys `update` adds go after the existing ones, in the order they are met. */
  lemma {:induction false} MergeKeysOrder(a: Dict, ks: seq<string>, src: map<string, string>)
    requires forall k :: k in ks ==> k in src
    ensures MergeKeys(a, ks, src).keys == a.keys + NewKeys(ks, a.m.Keys)
    decreases |ks|
  {
    if |ks| > 0 {
      var next := Put(a, ks[0], src[ks[0]]);
      assert MergeKeys(a, ks, src).keys == next.keys + NewKeys(ks[1..], next.m.Keys) by {
        MergeKeysOrder(next, ks[1..], src);
      }
      PutNewKeys(a, ks, src[ks[0]]);
    } else {
      assert a.keys + [] == a.keys;
    }
  }

  /** `existing.update(new)`: the new values win, existing keys keep their order, new keys follow in `new`'s order. */
  function Merge(a: Dict, b: Dict): (r: Dict)
    requires b.Valid()
    ensures a.Valid() ==> r.Valid()
    ensures r.m == a.m + b.m
    ensures |r.keys| >= |a.keys| && r.keys[..|a.keys|] == a.keys
    ensures r.keys == a.keys + NewKeys(b.keys, a.m.Keys)
  {
    assert Restrict(b.keys, b.m) == b.m;
    MergeKeysOrder(a, b.keys, b.m);
    MergeKeys(a, b.keys, b.m)
  }

  /** How `save_config` ends. */
  datatype SaveOutcome = Saved | PermissionDenied(detail: string) | SaveFailed(text: string)

  const WritePrefix: string := "写入Cookie失败: "
  const EmptyContentMessage: string := "Cookie内容不能为空"
  const BadFormatMessage: string := "Cookie格式无效"
  const NoConfigAttribute: string := "'CookieManager' object has no attribute 'config'"
  const PermissionPrefix: string := "无权限写入config.yaml，请检查docker-compose映射的文件权限。详情："

  /** What `write_cookie` ends with: `None` for True, else the text of the exception it raises. */
  function WriteFailure(content: string, configAttached: bool, save: SaveOutcome): (r: Option<string>)
    ensures r.Some? ==> WritePrefix <= r.value
  {
    if Strip(content) == "" then Some(WritePrefix + EmptyContentMessage)
    else if !ValidateCookieFormat(content) then Some(WritePrefix + BadFormatMessage)
    else if !configAttached then Some(WritePrefix + NoConfigAttribute)
    else match save
      case PermissionDenied(detail) => Some(WritePrefix + PermissionPrefix + detail)
      case SaveFailed(error) => Some(WritePrefix + error)
      case Saved => None
  }

  /** Each rejection of `write_cookie` has its own message, and only a valid cookie written to a configuration succeeds. */
  lemma WriteFailureCases(content: string, configAttached: bool, save: SaveOutcome)
    ensures var f := WriteFailure(content, configAttached, save);
      && (Strip(content) == "" ==> f == Some(WritePrefix + EmptyContentMessage))
      && (Strip(content) != "" && !ValidateCookieFormat(content) ==> f == Some(WritePrefix + BadFormatMessage))
      && (ValidateCookieFormat(content) && !configAttached ==> f == Some(WritePrefix + NoConfigAttribute))
      && (f.None? <==> ValidateCookieFormat(content) && configAttached && save == Saved)
      && (f.Some? ==> |f.value| >= |WritePrefix| && f.value[..|WritePrefix|] == WritePrefix)
  {
  }

  class CookieManager {
    var cookieString: string
    var parsedCookies: Dict
    /** Whether the manager holds the configuration object it writes to. */
    var configAttached: bool
    /** The `cookie` entry of that configuration, as last assigned. */
    var configCookie: string

    ghost predicate Valid()
      reads this`cookieString, this`parsedCookies
    {
      parsedCookies == Parse(cookieString) && Strip(cookieString) == cookieString
    }

    /** `__init__` as written: the configuration is read but never stored. */
    constructor (configuredCookie: string)
      ensures Valid() && !configAttached
      ensures cookieString == Strip(configuredCookie)
    {
      var text := Strip(configuredCookie);
      StripCharsIdempotent(configuredCookie, Whitespace);
      assert Strip(text) == text;
      cookieString := text;
      parsedCookies := Parse(text);
      configAttached := false;
      configCookie := configuredCookie;
    }

    /** `__init__` with `self.config = config`, as `write_cookie` expects. */
    constructor WithConfig(configuredCookie: string)
      ensures Valid() && configAttached && configCookie == configuredCookie
      ensures cookieString == Strip(configuredCookie)
    {
      var text := Strip(configuredCookie);
      StripCharsIdempotent(configuredCookie, Whitespace);
      assert Strip(text) == text;
      cookieString := text;
      parsedCookies := Parse(text);
      configAttached := true;
      configCookie := configuredCookie;
    }

    /** `set_cookie_string`: keep the stripped text and its parse. */
    method SetCookieString(s: string)
      modifies this`cookieString, this`parsedCookies
      ensures Valid()
      ensures cookieString == Strip(s) && parsedCookies == Parse(Strip(s))
      ensures configAttached == old(configAttached) && configCookie == old(configCookie)
    {
      var text := Strip(s);
      StripCharsIdempotent(s, Whitespace);
      assert Strip(text) == text;
      cookieString := text;
      parsedCookies := ParseCookieString(text);
      assert parsedCookies == Parse(cookieString) && Strip(cookieString) == cookieString;
    }

    /**
     * `write_cookie`: `None` where the method returns True, else the text of
     * the `CookieException` it raises.
     */
    method WriteCookie(content: string, save: SaveOutcome) returns (failure: Option<string>)
      requires Valid()
      modifies this`cookieString, this`parsedCookies, this`configCookie
      ensures Valid()
      ensures failure == WriteFailure(content, configAttached, save)
      ensures failure.None? ==> cookieString == Strip(content) && parsedCookies == Parse(Strip(content))
      ensures failure.Some? ==> cookieString == old(cookieString) && parsedCookies == old(parsedCookies)
      ensures configCookie == if ValidateCookieFormat(content) && configAttached then Strip(content) else old(configCookie)
    {
      failure := WriteFailure(content, configAttached, save);
      var text := Strip(content);
      if ValidateCookieFormat(content) && configAttached {
        configCookie := text;
      }
      if failure.None? {
        SetCookieString(text);
        StripCharsIdempotent(content, Whitespace);
        assert cookieString == Strip(content) && parsedCookies == Parse(Strip(content));
      }
    }

    /**
     * `update_cookie`: merge into the current cookies and write the result back;
     * failures give False. A merge that validates is stored in the configuration
     * even when the save then fails.
     */
    method UpdateCookie(newCookies: Dict, save: SaveOutcome) returns (ok: bool)
      requires Valid() && newCookies.Valid()
      modifies this`cookieString, this`parsedCookies, this`configCookie
      ensures Valid()
      ensures |newCookies.keys| == 0 ==> !ok && cookieString == old(cookieString)
      ensures !configAttached ==> !ok && cookieString == old(cookieString) && parsedCookies == old(parsedCookies)
      ensures ok <==>
        |newCookies.keys| > 0 && configAttached && save == Saved && ValidateCookieFormat(Format(Merge(old(parsedCookies), newCookies)))
      ensures ok ==> cookieString == Strip(Format(Merge(old(parsedCookies), newCookies)))
      ensures ok ==> parsedCookies == Parse(Format(Merge(old(parsedCookies), newCookies)))
      ensures !ok ==> cookieString == old(cookieString) && parsedCookies == old(parsedCookies)
      ensures configCookie ==
        if |newCookies.keys| > 0 && configAttached && ValidateCookieFormat(Format(Merge(old(parsedCookies), newCookies)))
        then Strip(Format(Merge(old(parsedCookies), newCookies)))
        else old(configCookie)
    {
      if |newCookies.keys| == 0 {
        return false;
      }
      var merged := Merge(parsedCookies, newCookies);
      var text := Format(merged);
      var failure := WriteCookie(text, save);
      WriteFailureCases(text, configAttached, save);
      ParseStrip(text);
      ok := failure.None?;
      assert ok <==> ValidateCookieFormat(text) && configAttached && save == Saved;
      assert ok ==> parsedCookies == Parse(text);
    }
  }

  /** After a successful update the parsed cookies are exactly the merge, when every entry is clean. */
  lemma UpdateStoresMerge(current: Dict, newCookies: Dict)
    requires Clean(current) && Clean(newCookies)
    ensures Parse(Format(Merge(current, newCookies))) == Merge(current, newCookies)
  {
    var merged := Merge(current, newCookies);
    forall k | k in merged.m ensures CleanEntry(k, merged.m[k]) {
      if k in newCookies.m {
        assert merged.m[k] == newCookies.m[k];
      } else {
        assert merged.m[k] == current.m[k];
      }
    }
    RoundTrip(merged);
  }
}
