/**
 * The small codecs and decisions of the NetEase API client: the hex digest,
 * the picture-id obfuscation and its URL-safe alphabet, the cover URL, the
 * `MUSIC_U` extraction of the QR login, the status-message table, the
 * batching of playlist track ids and the song-URL request payload.
 */
module NeteaseApi {
  import opened Wrappers
  import opened Text

  /** A lower-case hexadecimal digit. */
  function HexDigit(d: int): (c: char)
    requires 0 <= d < 16
    ensures IsHexChar(c)
  {
    if d < 10 then ('0' as int + d) as char else ('a' as int + d - 10) as char
  }

  predicate IsHexChar(c: char) {
    '0' <= c <= '9' || 'a' <= c <= 'f'
  }

  /** The value of a lower-case hexadecimal digit. */
  function HexValue(c: char): (d: int)
    requires IsHexChar(c)
    ensures 0 <= d < 16 && HexDigit(d) == c
  {
    if c <= '9' then c as int - '0' as int else c as int - 'a' as int + 10
  }

  /** `hex(b)[2:].zfill(2)`: two lower-case digits, the high one first. */
  function HexByte(b: Byte): (r: string)
    ensures |r| == 2 && IsHexChar(r[0]) && IsHexChar(r[1])
    ensures HexValue(r[0]) * 16 + HexValue(r[1]) == b
  {
    [HexDigit(b / 16), HexDigit(b % 16)]
  }

  /** `CryptoUtils.hex_digest`: the two-digit forms of the bytes, in order. */
  function HexDigest(data: seq<Byte>): (r: string)
    ensures |r| == 2 * |data|
    ensures forall i :: 0 <= i < |r| ==> IsHexChar(r[i])
  {
    if |data| == 0 then "" else HexByte(data[0]) + HexDigest(data[1..])
  }

  /** Reads a string of lower-case digit pairs back into bytes. */
  function Unhex(s: string): (r: seq<Byte>)
    requires |s| % 2 == 0 && forall i :: 0 <= i < |s| ==> IsHexChar(s[i])
    ensures |r| == |s| / 2
  {
    if |s| == 0 then [] else [HexValue(s[0]) * 16 + HexValue(s[1])] + Unhex(s[2..])
  }

  /** Decoding the digest gives the bytes back. */
  lemma {:induction false} UnhexHexDigest(data: seq<Byte>)
    ensures Unhex(HexDigest(data)) == data
  {
    if |data| > 0 {
      var r := HexDigest(data);
      UnhexHexDigest(data[1..]);
      assert r[..2] == HexByte(data[0]);
      assert r[2..] == HexDigest(data[1..]);
    }
  }

  /** Different byte strings have different digests. */
  lemma HexDigestInjective(a: seq<Byte>, b: seq<Byte>)
    requires HexDigest(a) == HexDigest(b)
    ensures a == b
  {
    UnhexHexDigest(a);
    UnhexHexDigest(b);
  }

  /** The key `netease_encrypt_id` cycles over. */
  const Magic: string := "3go8&$8*3*3h0k(2)2"

  lemma MagicIsAscii()
    ensures |Magic| == 18 && forall i :: 0 <= i < |Magic| ==> Magic[i] as int < 128
  {
  }

  function Pow2(n: nat): (r: nat)
    ensures r >= 1
  {
    if n == 0 then 1 else 2 * Pow2(n - 1)
  }

  /** Bitwise exclusive or of two `n`-bit values, lowest bit first. */
  function XorBits(a: nat, b: nat, n: nat): (r: nat)
    requires a < Pow2(n) && b < Pow2(n)
    ensures r < Pow2(n)
  {
    if n == 0 then 0
    else
      HalfBelow(a, n);
      HalfBelow(b, n);
      (a % 2 + b % 2) % 2 + 2 * XorBits(a / 2, b / 2, n - 1)
  }

  /** The low bit and the rest of a number written as `lo + 2 * hi`. */
  lemma HalfOf(x: nat, lo: nat, hi: nat)
    requires lo < 2 && x == lo + 2 * hi
    ensures x % 2 == lo && x / 2 == hi
  {
  }

  /** Dropping the low bit of an `n`-bit value leaves an `n - 1`-bit value. */
  lemma HalfBelow(x: nat, n: nat)
    requires n > 0 && x < Pow2(n)
    ensures x / 2 < Pow2(n - 1)
  {
  }

  /** On single bits, exclusive or with the same bit twice is the identity. */
  lemma XorBitTwice(x: nat, y: nat)
    requires x < 2 && y < 2
    ensures ((x + y) % 2 + y) % 2 == x
  {
  }

  /** One step of the definition on a value already split into its low bit and the rest. */
  lemma XorBitsStep(a: nat, b: nat, n: nat, al: nat, ah: nat, bl: nat, bh: nat)
    requires n > 0 && al < 2 && bl < 2 && a == al + 2 * ah && b == bl + 2 * bh
    requires ah < Pow2(n - 1) && bh < Pow2(n - 1)
    ensures a < Pow2(n) && b < Pow2(n)
    ensures XorBits(a, b, n) == (al + bl) % 2 + 2 * XorBits(ah, bh, n - 1)
  {
    HalfOf(a, al, ah);
    HalfOf(b, bl, bh);
  }

  /** The induction step of `XorBitsTwice`, on values already split into their low bit and the rest. */
  lemma XorBitsTwiceStep(a: nat, b: nat, n: nat, al: nat, ah: nat, bl: nat, bh: nat)
    requires n > 0 && al < 2 && bl < 2 && a == al + 2 * ah && b == bl + 2 * bh
    requires ah < Pow2(n - 1) && bh < Pow2(n - 1)
    requires XorBits(XorBits(ah, bh, n - 1), bh, n - 1) == ah
    ensures a < Pow2(n) && b < Pow2(n)
    ensures XorBits(XorBits(a, b, n), b, n) == a
  {
    var rl, rh := (al + bl) % 2, XorBits(ah, bh, n - 1);
    XorBitsStep(a, b, n, al, ah, bl, bh);
    XorBitsStep(rl + 2 * rh, b, n, rl, rh, bl, bh);
    XorBitTwice(al, bl);
  }

  /** Exclusive or with the same value twice is the identity. */
  lemma {:induction false} XorBitsTwice(a: nat, b: nat, n: nat)
    requires a < Pow2(n) && b < Pow2(n)
    ensures XorBits(XorBits(a, b, n), b, n) == a
  {
    if n > 0 {
      HalfBelow(a, n);
      HalfBelow(b, n);
      XorBitsTwice(a / 2, b / 2, n - 1);
      XorBitsTwiceStep(a, b, n, a % 2, a / 2, b % 2, b / 2);
    }
  }

  /** Exclusive or of two 7-bit values. */
  function Xor7(a: int, m: int): (r: int)
    requires 0 <= a < 128 && 0 <= m < 128
    ensures 0 <= r < 128
  {
    assert Pow2(7) == 128;
    XorBits(a, m, 7)
  }

  /**
   * `chr(ord(c) ^ ord(m))` for an ASCII `m`: only the low seven bits of the
   * code point change, so the result stays in the same block of 128 code
   * points and is a character again.
   */
  function XorChar(c: char, m: char): (r: char)
    requires m as int < 128
    ensures r as int / 128 == c as int / 128
    ensures r as int % 128 == Xor7(c as int % 128, m as int)
  {
    var x := c as int;
    var low := Xor7(x % 128, m as int);
    SameBlock(x, low);
    (x / 128 * 128 + low) as char
  }

  /** Replacing the low seven bits of a code point keeps it in its block of 128, and so a code point. */
  lemma SameBlock(x: int, low: int)
    requires 0 <= x < 0xD800 || 0xE000 <= x < 0x11_0000
    requires 0 <= low < 128
    ensures var z := x / 128 * 128 + low;
      (0 <= z < 0xD800 || 0xE000 <= z < 0x11_0000) && z / 128 == x / 128 && z % 128 == low
  {
    var q := x / 128;
    assert x == q * 128 + x % 128;
    assert 0 <= q < 0x2200 && !(0x1B0 <= q < 0x1C0);
    Base128Digits(q * 128 + low, q, low);
  }

  /** A number written as `q * 128 + low` with a seven-bit `low`. */
  lemma Base128Digits(z: int, q: int, low: int)
    requires 0 <= low < 128 && z == q * 128 + low
    ensures z / 128 == q && z % 128 == low
  {
  }

  /** The text after the exclusive-or step: character `i` combined with `Magic[i % 18]`. */
  function XorMask(s: string): (r: string)
    ensures |r| == |s|
  {
    MagicIsAscii();
    seq(|s|, i requires 0 <= i < |s| => XorChar(s[i], Magic[i % |Magic|]))
  }

  lemma Xor7Twice(a: int, m: int)
    requires 0 <= a < 128 && 0 <= m < 128
    ensures Xor7(Xor7(a, m), m) == a
  {
    assert Pow2(7) == 128;
    XorBitsTwice(a, m, 7);
  }

  /** Combining a character with the same ASCII key twice gives it back. */
  lemma XorCharTwice(c: char, m: char)
    requires m as int < 128
    ensures XorChar(XorChar(c, m), m) == c
  {
    var once := XorChar(c, m);
    Xor7Twice(c as int % 128, m as int);
    var x := XorChar(once, m) as int;
    assert x / 128 == c as int / 128 && x % 128 == c as int % 128;
    assert x == x / 128 * 128 + x % 128;
  }

  /** Applying the step twice gives the text back. */
  lemma XorMaskInvolution(s: string)
    ensures XorMask(XorMask(s)) == s
  {
    MagicIsAscii();
    forall i | 0 <= i < |s| ensures XorMask(XorMask(s))[i] == s[i] {
      XorCharTwice(s[i], Magic[i % |Magic|]);
    }
  }

  /** The loop of `netease_encrypt_id` over the character list, in place. */
  method XorWithMagic(a: array<char>)
    modifies a
    ensures a[..] == XorMask(old(a[..]))
  {
    MagicIsAscii();
    for i := 0 to a.Length
      invariant forall j :: i <= j < a.Length ==> a[j] == old(a[j])
      invariant forall j :: 0 <= j < i ==> a[j] == XorChar(old(a[j]), Magic[j % |Magic|])
    {
      a[i] := XorChar(a[i], Magic[i % |Magic|]);
    }
  }

  /** An MD5 digest of the UTF-8 bytes of a text, supplied from outside the model. */
  type Md5 = string -> seq<Byte>
  /** A base64 encoder, supplied from outside the model. */
  type Base64 = seq<Byte> -> string

  /** The URL-safe alphabet of the final step: `/` becomes `_`, `+` becomes `-`. */
  function UrlSafe(s: string): (r: string)
    ensures '/' !in r && '+' !in r
  {
    ReplaceChar(ReplaceChar(s, '/', "_"), '+', "-")
  }

  /** The substitution changes those two characters and nothing else, in place. */
  lemma UrlSafeExact(s: string)
    ensures var r := UrlSafe(s);
      |r| == |s| && forall i :: 0 <= i < |s| ==> r[i] == if s[i] == '/' then '_' else if s[i] == '+' then '-' else s[i]
  {
    ReplaceCharSingle(s, '/', '_');
    ReplaceCharSingle(ReplaceChar(s, '/', "_"), '+', '-');
  }

  /** What `netease_encrypt_id` returns for `id_str`. */
  function EncryptedId(idStr: string, md5: Md5, b64: Base64): (r: string)
    ensures '/' !in r && '+' !in r
  {
    UrlSafe(b64(md5(XorMask(idStr))))
  }

  /** `netease_encrypt_id`: the character list combined with the key in place, hashed, encoded, made URL-safe. */
  method EncryptId(idStr: string, md5: Md5, b64: Base64) returns (r: string)
    ensures r == EncryptedId(idStr, md5, b64)
    ensures '/' !in r && '+' !in r
  {
    var chars := new char[|idStr|](i requires 0 <= i < |idStr| => idStr[i]);
    assert chars[..] == idStr;
    XorWithMagic(chars);
    var m := chars[..];
    var digest := md5(m);
    var encoded := b64(digest);
    r := UrlSafe(encoded);
  }

  const CoverHost: string := "https://p3.music.126.net/"

  /** The file part of a cover URL: `{pic_id}.jpg?param={size}y{size}`. */
  function CoverFile(picId: int, size: int): (r: string)
    ensures '/' !in r
  {
    IntToStringChars(picId);
    IntToStringChars(size);
    var id, edge := IntToString(picId), IntToString(size);
    assert '/' !in ".jpg?param=" && '/' !in "y";
    id + ".jpg?param=" + edge + "y" + edge
  }

  /** `get_pic_url`: `""` without an id, else the host, the encrypted id and the file part. */
  method GetPicUrl(picId: Option<int>, size: int, md5: Md5, b64: Base64) returns (url: string)
    ensures picId.None? <==> url == ""
    ensures picId.Some? ==>
      url == CoverHost + EncryptedId(IntToString(picId.value), md5, b64) + "/" + CoverFile(picId.value, size)
  {
    if picId.None? {
      return "";
    }
    var encId := EncryptId(IntToString(picId.value), md5, b64);
    url := CoverHost + encId + "/" + CoverFile(picId.value, size);
  }

  /** Past the host, a cover URL has exactly two path segments: the encrypted id, then the file part. */
  lemma CoverUrlSegments(picId: int, size: int, md5: Md5, b64: Base64)
    ensures var enc := EncryptedId(IntToString(picId), md5, b64);
      var url := CoverHost + enc + "/" + CoverFile(picId, size);
      url[..|CoverHost|] == CoverHost && Split(url[|CoverHost|..], "/") == [enc, CoverFile(picId, size)]
  {
    PathSegments(CoverHost, EncryptedId(IntToString(picId), md5, b64), CoverFile(picId, size));
  }

  /** Two slash-free parts joined by `/` after a prefix split back into those two parts. */
  lemma PathSegments(host: string, enc: string, file: string)
    requires '/' !in enc && '/' !in file
    ensures var url := host + enc + "/" + file;
      url[..|host|] == host && Split(url[|host|..], "/") == [enc, file]
  {
    var url := host + enc + "/" + file;
    assert "/" == ['/'];
    assert url[|host|..] == enc + ['/'] + file;
    SplitCons(enc, '/', file);
    SplitNoSep(file, '/');
  }

  const MusicUMarker: string := "MUSIC_U="

  /** `cookie_str.split('MUSIC_U=')[1].split(';')[0]` for a piece that holds the marker. */
  function MusicUValue(piece: string): (r: string)
    requires Contains(piece, MusicUMarker)
    ensures ';' !in r
  {
    SplitFound(piece, MusicUMarker);
    assert ";" == [';'];
    SplitCharHead(Split(piece, MusicUMarker)[1], ';');
    Split(Split(piece, MusicUMarker)[1], ";")[0]
  }

  /**
   * The value is the text after the first marker up to, and not including, the first `;`,
   * the next marker or the end of the piece, whichever comes first.
   */
  lemma MusicUValueShape(piece: string)
    requires Contains(piece, MusicUMarker)
    ensures var after := piece[Find(piece, MusicUMarker) + |MusicUMarker|..];
      var v := MusicUValue(piece);
      |v| <= |after| && v == after[..|v|] && ';' !in v &&
      (|v| == |after| || after[|v|] == ';' || OccursAt(after, MusicUMarker, |v|))
  {
    var after := piece[Find(piece, MusicUMarker) + |MusicUMarker|..];
    SplitFound(piece, MusicUMarker);
    var seg := Split(piece, MusicUMarker)[1];
    var v := MusicUValue(piece);
    assert seg == Split(after, MusicUMarker)[0] by { SplitSecond(piece, MusicUMarker); }
    assert |seg| <= |after| && seg == after[..|seg|] && (|seg| == |after| || OccursAt(after, MusicUMarker, |seg|)) by {
      SplitHead(after, MusicUMarker);
    }
    assert ';' !in v && (v == seg || (|v| < |seg| && seg[|v|] == ';' && v == seg[..|v|])) by {
      assert ";" == [';'];
      SplitCharHead(seg, ';');
      if ';' in seg {
        assert seg == v + [';'] + seg[|v| + 1..];
        assert seg[..|v|] == v;
      }
    }
    PieceWithinPiece(after, seg, v);
  }

  /**
   * A piece `v` of a piece `seg` of `after`: `v` stops where `seg` stops or at a `;`
   * of `seg`, and `seg` stops at the end of `after` or at a marker.
   */
  lemma PieceWithinPiece(after: string, seg: string, v: string)
    requires |seg| <= |after| && seg == after[..|seg|] && (|seg| == |after| || OccursAt(after, MusicUMarker, |seg|))
    requires v == seg || (|v| < |seg| && seg[|v|] == ';' && v == seg[..|v|])
    ensures |v| <= |after| && v == after[..|v|]
    ensures |v| == |after| || after[|v|] == ';' || OccursAt(after, MusicUMarker, |v|)
  {
    if v != seg {
      assert after[|v|] == seg[|v|];
    }
  }

  /** The index of the last element of `xs` satisfying `p`. */
  function LastWhere(xs: seq<string>, p: string -> bool): (r: Option<nat>)
    ensures r.Some? ==> r.value < |xs| && p(xs[r.value])
  {
    if xs == [] then None
    else if p(xs[|xs| - 1]) then Some(|xs| - 1)
    else LastWhere(xs[..|xs| - 1], p)
  }

  /** Some element satisfies `p` iff there is a last such element, and no element after it does. */
  lemma {:induction false} LastWhereIsLast(xs: seq<string>, p: string -> bool)
    ensures LastWhere(xs, p).Some? <==> exists k :: 0 <= k < |xs| && p(xs[k])
    ensures LastWhere(xs, p).Some? ==> forall j :: LastWhere(xs, p).value < j < |xs| ==> !p(xs[j])
  {
    if xs != [] {
      var n := |xs| - 1;
      var init := xs[..n];
      if !p(xs[n]) {
        assert LastWhere(xs, p) == LastWhere(init, p);
        LastWhereIsLast(init, p);
        if exists k :: 0 <= k < |xs| && p(xs[k]) {
          var k :| 0 <= k < |xs| && p(xs[k]);
          assert k < n && init[k] == xs[k];
        }
        if LastWhere(init, p).Some? {
          forall j | LastWhere(init, p).value < j < |xs| ensures !p(xs[j]) {
            if j < n { assert xs[j] == init[j]; }
          }
        }
      }
    }
  }

  predicate HasMarker(piece: string) {
    Contains(piece, MusicUMarker)
  }

  /** The index of the last piece holding the marker. */
  function LastMatch(pieces: seq<string>): (r: Option<nat>)
    ensures r.Some? ==> r.value < |pieces| && Contains(pieces[r.value], MusicUMarker)
  {
    LastWhere(pieces, HasMarker)
  }

  /** A piece holds the marker iff there is a last such piece, and no piece after it does. */
  lemma LastMatchIsLast(pieces: seq<string>)
    ensures LastMatch(pieces).Some? <==> exists k :: 0 <= k < |pieces| && Contains(pieces[k], MusicUMarker)
    ensures LastMatch(pieces).Some? ==>
      forall j :: LastMatch(pieces).value < j < |pieces| ==> !Contains(pieces[j], MusicUMarker)
  {
    LastWhereIsLast(pieces, HasMarker);
  }

  /** The `MUSIC_U` value the extraction loop keeps: that of the last piece holding the marker. */
  function LastMusicU(pieces: seq<string>): Option<string> {
    var last := LastMatch(pieces);
    if last.Some? then Some(MusicUValue(pieces[last.value])) else None
  }

  /** One more piece: it replaces the kept value when it holds the marker, and keeps it otherwise. */
  lemma LastMusicUStep(pieces: seq<string>, i: nat)
    requires i < |pieces|
    ensures LastMusicU(pieces[..i + 1]) ==
      if Contains(pieces[i], MusicUMarker) then Some(MusicUValue(pieces[i])) else LastMusicU(pieces[..i])
  {
    assert pieces[..i + 1][..i] == pieces[..i];
    assert pieces[..i + 1][i] == pieces[i];
    var last := LastMatch(pieces[..i]);
    if last.Some? {
      assert pieces[..i + 1][last.value] == pieces[..i][last.value];
    }
  }

  /** The cookie dictionary the loop builds: `{'MUSIC_U': value}` or empty. */
  function MusicUCookies(found: Option<string>): map<string, string> {
    if found.Some? then map["MUSIC_U" := found.value] else map[]
  }

  /** The pieces of the `Set-Cookie` header, `""` when it is absent. */
  function HeaderPieces(setCookie: Option<string>): seq<string> {
    Split(setCookie.GetOr(""), ", ")
  }

  /** The cookies the `Set-Cookie` header yields. */
  function CookiesFromHeader(setCookie: string): map<string, string> {
    MusicUCookies(LastMusicU(Split(setCookie, ", ")))
  }

  /** The extraction loop of `check_qr_login` and `check_login_status`. */
  method ExtractMusicU(setCookie: string) returns (cookies: map<string, string>)
    ensures cookies == CookiesFromHeader(setCookie)
    ensures cookies.Keys <= {"MUSIC_U"}
  {
    var pieces := Split(setCookie, ", ");
    cookies := map[];
    for i := 0 to |pieces|
      invariant cookies == MusicUCookies(LastMusicU(pieces[..i]))
    {
      var piece := pieces[i];
      LastMusicUStep(pieces, i);
      if Contains(piece, MusicUMarker) {
        cookies := cookies["MUSIC_U" := MusicUValue(piece)];
      }
    }
    assert pieces[..|pieces|] == pieces;
  }

  /**
   * `check_qr_login` after the response is decoded: the status is the `code` field (-1 when
   * absent) and cookies are extracted only for 803; a missing header reads as `""`.
   */
  method CheckQrLogin(code: Option<int>, setCookie: Option<string>) returns (status: int, cookies: map<string, string>)
    ensures status == code.GetOr(-1)
    ensures code == Some(803) ==> cookies == CookiesFromHeader(setCookie.GetOr(""))
    ensures code != Some(803) ==> cookies == map[]
  {
    cookies := map[];
    if code == Some(803) {
      cookies := ExtractMusicU(setCookie.GetOr(""));
    }
    status := code.GetOr(-1);
  }

  const UnknownStatusPrefix: string := "未知状态："

  /** `_get_status_message`: the fixed texts of codes 800 to 803, else the unknown-status text. */
  function StatusMessage(code: int): (r: string)
    ensures UnknownStatusPrefix <= r <==> !(800 <= code <= 803)
  {
    assert UnknownStatusPrefix[0] == '未';
    if code == 800 then "二维码已过期"
    else if code == 801 then "等待扫码中..."
    else if code == 802 then "已扫码，请在手机上确认"
    else if code == 803 then "登录成功"
    else UnknownStatusPrefix + IntToString(code)
  }

  /** The unknown-status text is given exactly to the codes outside 800 to 803, and names the code. */
  lemma StatusMessageKnownIff(code: int)
    ensures UnknownStatusPrefix <= StatusMessage(code) <==> !(800 <= code <= 803)
    ensures !(800 <= code <= 803) ==> StatusMessage(code)[|UnknownStatusPrefix|..] == IntToString(code)
  {
    if 800 <= code <= 803 {
      assert StatusMessage(code)[0] != UnknownStatusPrefix[0];
    }
  }

  const LoginErrorPrefix: string := "检查登录状态时发生错误："

  /** The dictionary `check_login_status` returns: a status reply, or `success: False` with a message. */
  datatype LoginReply =
    | StatusReply(statusCode: int, message: string, cookie: Option<string>)
    | LoginFailed(message: string)

  /**
   * The reply for a decoded response: 803 adds the extracted `MUSIC_U` cookie, and its absence
   * raises the `KeyError` whose text is `'MUSIC_U'`, caught into a failed reply.
   */
  function LoginOutcome(code: Option<int>, setCookie: Option<string>): (r: LoginReply)
    ensures r.LoginFailed? ==> code == Some(803) && r.message == LoginErrorPrefix + "'MUSIC_U'"
    ensures r.StatusReply? ==> r.statusCode == code.GetOr(-1) && (r.cookie.Some? <==> code == Some(803))
  {
    var status := code.GetOr(-1);
    if code == Some(803) then
      var cookies := CookiesFromHeader(setCookie.GetOr(""));
      if "MUSIC_U" in cookies then StatusReply(status, StatusMessage(status), Some(cookies["MUSIC_U"]))
      else LoginFailed(LoginErrorPrefix + "'MUSIC_U'")
    else StatusReply(status, StatusMessage(status), None)
  }

  /**
   * A status reply carries a cookie iff the code is 803, and then it is the value of the last
   * header piece holding the marker; 803 fails iff no piece holds it; other codes never fail.
   */
  lemma LoginOutcomeCases(code: Option<int>, setCookie: Option<string>)
    ensures LoginOutcome(code, setCookie).LoginFailed? <==>
      code == Some(803) && forall k :: 0 <= k < |HeaderPieces(setCookie)| ==> !Contains(HeaderPieces(setCookie)[k], MusicUMarker)
    ensures var r := LoginOutcome(code, setCookie);
      r.StatusReply? ==>
        (r.statusCode == code.GetOr(-1) && r.message == StatusMessage(r.statusCode) && (r.cookie.Some? <==> code == Some(803)))
    ensures var pieces := HeaderPieces(setCookie);
      var r := LoginOutcome(code, setCookie);
      r.StatusReply? && r.cookie.Some? ==>
        exists k :: 0 <= k < |pieces| && Contains(pieces[k], MusicUMarker) && r.cookie.value == MusicUValue(pieces[k]) &&
          forall j :: k < j < |pieces| ==> !Contains(pieces[j], MusicUMarker)
  {
    var pieces := HeaderPieces(setCookie);
    LastMatchIsLast(pieces);
    var found := LastMusicU(pieces);
    assert CookiesFromHeader(setCookie.GetOr("")) == MusicUCookies(found);
    if code == Some(803) && found.Some? {
      var k := LastMatch(pieces).value;
      assert LoginOutcome(code, setCookie).cookie == Some(MusicUValue(pieces[k]));
    }
  }

  /** `QRLoginManager`: `check_login_status` records the last status code it decoded. */
  class QrLoginManager {
    var loginStatus: Option<int>

    constructor()
      ensures loginStatus == None
    {
      loginStatus := None;
    }

    /**
     * `check_login_status`: `response` is the decoded `code` and `Set-Cookie` header, or the text
     * of the exception raised before `login_status` was assigned (request or JSON failure).
     */
    method CheckLoginStatus(response: Result<(Option<int>, Option<string>)>) returns (reply: LoginReply)
      modifies this
      ensures response.Failure? ==> loginStatus == old(loginStatus) && reply == LoginFailed(LoginErrorPrefix + response.error)
      ensures response.Success? ==> loginStatus == Some(response.value.0.GetOr(-1))
      ensures response.Success? ==> reply == LoginOutcome(response.value.0, response.value.1)
    {
      if response.Failure? {
        return LoginFailed(LoginErrorPrefix + response.error);
      }
      var (code, setCookie) := response.value;
      var status := code.GetOr(-1);
      loginStatus := Some(status);
      reply := StatusReply(status, StatusMessage(status), None);
      if code == Some(803) {
        var cookies := ExtractMusicU(setCookie.GetOr(""));
        if "MUSIC_U" !in cookies {
          return LoginFailed(LoginErrorPrefix + "'MUSIC_U'");
        }
        reply := reply.(cookie := Some(cookies["MUSIC_U"]));
      }
    }
  }

  /** Track ids are requested in batches of this size. */
  const BatchSize: nat := 100

  /** `ids[i:i+n]` for `i` in `range(0, len(ids), n)`. */
  function Chunks<T>(ids: seq<T>, n: nat): (r: seq<seq<T>>)
    requires n > 0
    ensures r == [] <==> ids == []
    decreases |ids|
  {
    if ids == [] then []
    else if |ids| <= n then [ids]
    else [ids[..n]] + Chunks(ids[n..], n)
  }

  function Flatten<T>(parts: seq<seq<T>>): seq<T> {
    if parts == [] then [] else parts[0] + Flatten(parts[1..])
  }

  /** Concatenating the batches gives the id list back, in order. */
  lemma {:induction false} FlattenChunks<T>(ids: seq<T>, n: nat)
    requires n > 0
    ensures Flatten(Chunks(ids, n)) == ids
    decreases |ids|
  {
    if |ids| > n {
      FlattenChunks(ids[n..], n);
      assert ids == ids[..n] + ids[n..];
    }
  }

  /** There are ceil(|ids| / n) batches: the fewest whose total room `|c| * n` holds every id. */
  lemma {:induction false} ChunkCount<T>(ids: seq<T>, n: nat)
    requires n > 0
    ensures var c := Chunks(ids, n);
      (c == [] <==> ids == []) && |ids| <= |c| * n && (ids != [] ==> (|c| - 1) * n < |ids|)
    decreases |ids|
  {
    if |ids| > n {
      ChunkCount(ids[n..], n);
      var k := |Chunks(ids[n..], n)|;
      assert |Chunks(ids, n)| == k + 1;
      assert (k + 1) * n == k * n + n;
    }
  }

  /** Every batch holds between 1 and `n` ids, and all but the last exactly `n`. */
  lemma {:induction false} ChunkSizes<T>(ids: seq<T>, n: nat)
    requires n > 0
    ensures forall i :: 0 <= i < |Chunks(ids, n)| ==> 1 <= |Chunks(ids, n)[i]| <= n
    ensures forall i :: 0 <= i < |Chunks(ids, n)| - 1 ==> |Chunks(ids, n)[i]| == n
    decreases |ids|
  {
    if |ids| > n {
      ChunkSizes(ids[n..], n);
      var c := Chunks(ids, n);
      var rest := Chunks(ids[n..], n);
      assert c == [ids[..n]] + rest;
      assert |c[0]| == n;
      forall i | 1 <= i < |c| ensures 1 <= |c[i]| <= n && (i < |c| - 1 ==> |c[i]| == n) {
        assert c[i] == rest[i - 1];
      }
    }
  }

  /** The fields of a `songs` entry of the song-detail response that a track keeps. */
  datatype Song = Song(id: int, name: string, artistNames: seq<string>, albumName: string, albumPicUrl: string)

  /** An entry of `info['tracks']`; `artists` is the artist names joined with `/`. */
  datatype Track = Track(id: int, name: string, artists: string, album: string, picUrl: string)

  function ToTrack(song: Song): Track {
    Track(song.id, song.name, Join(song.artistNames, "/"), song.albumName, song.albumPicUrl)
  }

  function ToTracks(songs: seq<Song>): (r: seq<Track>)
    ensures |r| == |songs| && forall i :: 0 <= i < |songs| ==> r[i] == ToTrack(songs[i])
  {
    seq(|songs|, i requires 0 <= i < |songs| => ToTrack(songs[i]))
  }

  /** When no artist name holds `/`, splitting the artists field on `/` gives the names back. */
  lemma ArtistsRecoverable(song: Song)
    requires |song.artistNames| >= 1
    requires forall i :: 0 <= i < |song.artistNames| ==> '/' !in song.artistNames[i]
    ensures Split(ToTrack(song).artists, "/") == song.artistNames
  {
    SplitJoin(song.artistNames, '/');
  }

  /** Tracks appended after `acc`, or the failure that ends the loop. */
  function Prepend(acc: seq<Track>, rest: Result<seq<Track>>): Result<seq<Track>> {
    if rest.Failure? then rest else Success(acc + rest.value)
  }

  /**
   * The tracks of `batches` in order; `fetch` is the song-detail request for one batch, and the
   * first failing request ends the whole call.
   */
  function TracksOf(batches: seq<seq<int>>, fetch: seq<int> -> Result<seq<Song>>): (r: Result<seq<Track>>)
    ensures r.Failure? ==> exists i :: 0 <= i < |batches| && fetch(batches[i]) == Failure(r.error)
  {
    if batches == [] then Success([])
    else
      var songs := fetch(batches[0]);
      if songs.Failure? then Failure(songs.error)
      else Prepend(ToTracks(songs.value), TracksOf(batches[1..], fetch))
  }

  /** The songs the batches' responses list, in order. */
  function AllSongs(batches: seq<seq<int>>, fetch: seq<int> -> Result<seq<Song>>): seq<Song>
    requires forall i :: 0 <= i < |batches| ==> fetch(batches[i]).Success?
  {
    if batches == [] then [] else fetch(batches[0]).value + AllSongs(batches[1..], fetch)
  }

  lemma ToTracksAppend(a: seq<Song>, b: seq<Song>)
    ensures ToTracks(a + b) == ToTracks(a) + ToTracks(b)
  {
  }

  /**
   * The call succeeds iff every batch request does, and then the tracks are those of all
   * returned songs, batch after batch.
   */
  lemma {:induction false} TracksOfAllSongs(batches: seq<seq<int>>, fetch: seq<int> -> Result<seq<Song>>)
    ensures TracksOf(batches, fetch).Success? <==> forall i :: 0 <= i < |batches| ==> fetch(batches[i]).Success?
    ensures TracksOf(batches, fetch).Success? ==> TracksOf(batches, fetch).value == ToTracks(AllSongs(batches, fetch))
    decreases |batches|
  {
    if batches != [] {
      TracksOfAllSongs(batches[1..], fetch);
      assert forall i :: 1 <= i < |batches| ==> batches[1..][i - 1] == batches[i];
      if TracksOf(batches, fetch).Success? {
        ToTracksAppend(fetch(batches[0]).value, AllSongs(batches[1..], fetch));
      }
    }
  }

  /** The batching loop of `get_playlist_detail`. */
  method PlaylistTracks(trackIds: seq<int>, fetch: seq<int> -> Result<seq<Song>>) returns (r: Result<seq<Track>>)
    ensures r == TracksOf(Chunks(trackIds, BatchSize), fetch)
  {
    var tracks: seq<Track> := [];
    var i := 0;
    assert trackIds[i..] == trackIds;
    var all := TracksOf(Chunks(trackIds, BatchSize), fetch);
    if all.Success? {
      assert tracks + all.value == all.value;
    }
    while i < |trackIds|
      invariant 0 <= i <= |trackIds|
      invariant TracksOf(Chunks(trackIds, BatchSize), fetch) == Prepend(tracks, TracksOf(Chunks(trackIds[i..], BatchSize), fetch))
      decreases |trackIds| - i
    {
      var end := if i + BatchSize < |trackIds| then i + BatchSize else |trackIds|;
      var batch := trackIds[i..end];
      assert Chunks(trackIds[i..], BatchSize) == [batch] + Chunks(trackIds[end..], BatchSize) by {
        if |trackIds[i..]| > BatchSize {
          assert trackIds[i..][..BatchSize] == batch;
          assert trackIds[i..][BatchSize..] == trackIds[end..];
        } else {
          assert batch == trackIds[i..];
          assert trackIds[end..] == [];
        }
      }
      var songs := fetch(batch);
      if songs.Failure? {
        return Failure(songs.error);
      }
      var rest := TracksOf(Chunks(trackIds[end..], BatchSize), fetch);
      if rest.Success? {
        assert tracks + (ToTracks(songs.value) + rest.value) == (tracks + ToTracks(songs.value)) + rest.value;
      }
      tracks := tracks + ToTracks(songs.value);
      i := end;
    }
    assert trackIds[i..] == [];
    r := Success(tracks);
    assert tracks + [] == tracks;
  }

  /** The JSON values of the `song/enhance/player/url/v1` payload. */
  datatype Json = JInt(int) | JStr(string) | JList(items: seq<Json>)

  /** The payload of `get_song_url`; `header` is the JSON text of the request configuration. */
  function SongUrlPayload(songId: int, quality: string, header: string): (r: map<string, Json>)
    ensures "immerseType" in r <==> quality == "sky"
    ensures "immerseType" in r ==> r["immerseType"] == JStr("c51")
    ensures r.Keys - {"immerseType"} == {"ids", "level", "encodeType", "header"}
    ensures "ids" in r && r["ids"] == JList([JInt(songId)])
    ensures "level" in r && r["level"] == JStr(quality)
  {
    var base := map["ids" := JList([JInt(songId)]), "level" := JStr(quality), "encodeType" := JStr("flac"), "header" := JStr(header)];
    if quality == "sky" then base["immerseType" := JStr("c51")] else base
  }
}
