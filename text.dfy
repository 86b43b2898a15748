/**
 * The handful of Python `str` operations the modelled code relies on:
 * `strip`, `lower`, `find`/`in`, `split`, `join`, `replace`, `str(int)` and
 * `hex(b)[2:].zfill(2)`, each written out on `seq<char>`.
 */
module Text {

  type Byte = b: int | 0 <= b < 256

  /** Python's `str.isspace()` on one character: the 29 Unicode white-space code points. */
  predicate IsSpace(c: char) {
    || c == ' ' || '\t' <= c <= '\r' || '\U{001C}' <= c <= '\U{001F}'
    || c == '\U{0085}' || c == '\U{00A0}' || c == '\U{1680}' || '\U{2000}' <= c <= '\U{200A}'
    || c == '\U{2028}' || c == '\U{2029}' || c == '\U{202F}' || c == '\U{205F}' || c == '\U{3000}'
  }

  /** The characters for which `IsSpace` holds. */
  const Whitespace: set<char> := set c: char | '\0' <= c <= '\U{3000}' && IsSpace(c)

  /** How many characters at the start of `s` are in `cs`. */
  function LeadingIn(s: string, cs: set<char>): (n: nat)
    ensures n <= |s|
  {
    if |s| > 0 && s[0] in cs then 1 + LeadingIn(s[1..], cs) else 0
  }

  /** The counted prefix is made of `cs` and is followed by a character outside it, if any. */
  lemma {:induction false} LeadingInFacts(s: string, cs: set<char>)
    ensures var n := LeadingIn(s, cs);
      (n == |s| || s[n] !in cs) && forall i :: 0 <= i < n ==> s[i] in cs
  {
    if |s| > 0 && s[0] in cs {
      LeadingInFacts(s[1..], cs);
      assert forall i :: 1 <= i <= |s| - 1 ==> s[i] == s[1..][i - 1];
    }
  }

  /** How many characters at the end of `s` are in `cs`. */
  function TrailingIn(s: string, cs: set<char>): (n: nat)
    ensures n <= |s|
  {
    if |s| > 0 && s[|s| - 1] in cs then 1 + TrailingIn(s[..|s| - 1], cs) else 0
  }

  /** The counted suffix is made of `cs` and is preceded by a character outside it, if any. */
  lemma {:induction false} TrailingInFacts(s: string, cs: set<char>)
    ensures var n := TrailingIn(s, cs);
      (n == |s| || s[|s| - 1 - n] !in cs) && forall i :: |s| - n <= i < |s| ==> s[i] in cs
  {
    if |s| > 0 && s[|s| - 1] in cs {
      TrailingInFacts(s[..|s| - 1], cs);
      assert forall i :: 0 <= i < |s| - 1 ==> s[i] == s[..|s| - 1][i];
    }
  }

  /** `s.lstrip(cs)`: drops the longest prefix made of characters in `cs`. */
  function TrimLeft(s: string, cs: set<char>): string {
    s[LeadingIn(s, cs)..]
  }

  /** `s.rstrip(cs)`: drops the longest suffix made of characters in `cs`. */
  function TrimRight(s: string, cs: set<char>): string {
    s[..|s| - TrailingIn(s, cs)]
  }

  /** `s.strip(cs)`. */
  function StripChars(s: string, cs: set<char>): string {
    TrimRight(TrimLeft(s, cs), cs)
  }

  /** `s.strip()` with no argument strips Python whitespace. */
  function Strip(s: string): string {
    StripChars(s, Whitespace)
  }

  /** A string that neither starts nor ends with a character of `cs` is its own strip. */
  lemma StripCharsNoop(s: string, cs: set<char>)
    requires s == [] || (s[0] !in cs && s[|s| - 1] !in cs)
    ensures StripChars(s, cs) == s
  {
    assert LeadingIn(s, cs) == 0;
    assert TrimLeft(s, cs) == s;
    assert TrailingIn(s, cs) == 0;
  }

  /** The result of a strip has no character of `cs` at either end. */
  lemma StripCharsEnds(s: string, cs: set<char>)
    ensures var r := StripChars(s, cs); r == [] || (r[0] !in cs && r[|r| - 1] !in cs)
  {
    var l := TrimLeft(s, cs);
    var r := TrimRight(l, cs);
    LeadingInFacts(s, cs);
    TrailingInFacts(l, cs);
    if r != [] {
      assert r[0] == l[0] == s[LeadingIn(s, cs)];
      assert r[|r| - 1] == l[|l| - 1 - TrailingIn(l, cs)];
    }
  }

  /** Stripping twice is stripping once. */
  lemma StripCharsIdempotent(s: string, cs: set<char>)
    ensures StripChars(StripChars(s, cs), cs) == StripChars(s, cs)
  {
    StripCharsEnds(s, cs);
    StripCharsNoop(StripChars(s, cs), cs);
  }

  /** Padding made of `cs` in front of a string with clean ends is stripped away exactly. */
  lemma StripCharsPadded(pad: string, s: string, cs: set<char>)
    requires forall c :: c in pad ==> c in cs
    requires s != [] && s[0] !in cs && s[|s| - 1] !in cs
    ensures StripChars(pad + s, cs) == s
  {
    var t := pad + s;
    LeadingInFacts(t, cs);
    assert t[|pad|] == s[0];
    assert forall i :: 0 <= i < |pad| ==> t[i] == pad[i];
    assert LeadingIn(t, cs) == |pad|;
    assert TrimLeft(t, cs) == s;
    StripCharsNoop(s, cs);
  }

  /** Neither end of `s` is Python whitespace: `s.strip() == s`. */
  predicate Stripped(s: string) {
    s == [] || (!IsSpace(s[0]) && !IsSpace(s[|s| - 1]))
  }

  /** `Stripped` is exactly "stripping changes nothing". */
  lemma StrippedIff(s: string)
    ensures Stripped(s) <==> Strip(s) == s
    ensures Stripped(Strip(s))
  {
    var r := Strip(s);
    StripCharsEnds(s, Whitespace);
    assert r == [] || (r[0] !in Whitespace && r[|r| - 1] !in Whitespace);
    assert Stripped(r);
    if Stripped(s) {
      assert s == [] || (s[0] !in Whitespace && s[|s| - 1] !in Whitespace);
      StripCharsNoop(s, Whitespace);
    }
  }

  /** A strip only removes characters: whatever is left was in the input. */
  lemma StripCharsSubset(s: string, cs: set<char>)
    ensures forall c :: c in StripChars(s, cs) ==> c in s
  {
    var l := TrimLeft(s, cs);
    var r := TrimRight(l, cs);
    forall c | c in r ensures c in s {
      var i :| 0 <= i < |r| && r[i] == c;
      assert l[i] == c;
      assert s[LeadingIn(s, cs) + i] == c;
    }
  }

  function LowerChar(c: char): char {
    if 'A' <= c <= 'Z' then (c as int + 32) as char else c
  }

  /** `s.lower()` on ASCII letters; other characters are kept. */
  function Lower(s: string): (r: string)
    ensures |r| == |s|
  {
    seq(|s|, i requires 0 <= i < |s| => LowerChar(s[i]))
  }

  /**
   * `c.upper()` for the characters whose upper case is an ASCII letter: `a`-`z`, the dotless
   * `ı` (to `I`) and the long `ſ` (to `S`); every other character is kept.
   */
  function UpperChar(c: char): char {
    if 'a' <= c <= 'z' then (c as int - 32) as char
    else if c == 'ı' then 'I'
    else if c == 'ſ' then 'S'
    else c
  }

  /** `s.upper()`, character by character as `UpperChar` describes. */
  function Upper(s: string): (r: string)
    ensures |r| == |s|
  {
    seq(|s|, i requires 0 <= i < |s| => UpperChar(s[i]))
  }

  ghost predicate OccursAt(s: string, sub: string, i: int) {
    0 <= i && i + |sub| <= |s| && s[i..i + |sub|] == sub
  }

  /** Python `s.find(sub, start)`: the first index at or after `start` where `sub` occurs, or -1. */
  function FindFrom(s: string, sub: string, start: nat): (r: int)
    ensures r == -1 || (start <= r && OccursAt(s, sub, r))
    ensures r == -1 ==> forall j :: start <= j ==> !OccursAt(s, sub, j)
    ensures r != -1 ==> forall j :: start <= j < r ==> !OccursAt(s, sub, j)
    decreases |s| - start
  {
    if start + |sub| > |s| then -1
    else if s[start..start + |sub|] == sub then start
    else FindFrom(s, sub, start + 1)
  }

  /** Python `s.find(sub)`. */
  function Find(s: string, sub: string): int {
    FindFrom(s, sub, 0)
  }

  /** Python `sub in s`. */
  predicate Contains(s: string, sub: string) {
    Find(s, sub) >= 0
  }

  lemma ContainsIff(s: string, sub: string)
    ensures Contains(s, sub) <==> exists i :: OccursAt(s, sub, i)
  {
    if exists i :: OccursAt(s, sub, i) {
      var i :| OccursAt(s, sub, i);
      assert 0 <= i;
    }
  }

  /** `c in s` for a single character agrees with sequence membership. */
  lemma ContainsChar(s: string, c: char)
    ensures Contains(s, [c]) <==> c in s
  {
    if c in s {
      var i :| 0 <= i < |s| && s[i] == c;
      assert s[i..i + 1] == [c];
      assert OccursAt(s, [c], i);
    }
    if Contains(s, [c]) {
      var i := Find(s, [c]);
      assert s[i..i + 1] == [c];
      assert s[i] == c;
    }
  }

  /** Python `s.split(sep)` for a non-empty separator. */
  function Split(s: string, sep: string): (r: seq<string>)
    requires |sep| > 0
    ensures |r| >= 1
    decreases |s|
  {
    var i := Find(s, sep);
    if i < 0 then [s] else [s[..i]] + Split(s[i + |sep|..], sep)
  }

  /** Python `sep.join(parts)`. */
  function Join(parts: seq<string>, sep: string): string {
    if |parts| == 0 then ""
    else if |parts| == 1 then parts[0]
    else parts[0] + sep + Join(parts[1..], sep)
  }

  /** `Split(s, [c])[0]`: the text before the first `c`, or all of `s`. */
  lemma SplitCharHead(s: string, c: char)
    ensures var h := Split(s, [c])[0];
      c !in h && (if c in s then s == h + [c] + s[|h| + 1..] else h == s)
  {
    ContainsChar(s, [c][0]);
    var i := Find(s, [c]);
    if i >= 0 {
      assert s[i] == c;
      forall j | 0 <= j < i ensures s[j] != c {
        assert !OccursAt(s, [c], j);
        assert s[j..j + 1] == [s[j]];
      }
      assert s == s[..i] + [c] + s[i + 1..];
    }
  }

  /** The first piece of a split is a prefix of `s` ending at the first separator or at the end. */
  lemma SplitHead(s: string, sep: string)
    requires |sep| > 0
    ensures var h := Split(s, sep)[0];
      |h| <= |s| && h == s[..|h|] && (|h| == |s| || OccursAt(s, sep, |h|))
  {
  }

  /** A split has a second piece exactly when the separator occurs. */
  lemma SplitFound(s: string, sep: string)
    requires |sep| > 0
    ensures |Split(s, sep)| >= 2 <==> Find(s, sep) >= 0
  {
  }

  /** The second piece of a split is the first piece of what follows the first separator. */
  lemma SplitSecond(s: string, sep: string)
    requires Find(s, sep) >= 0 && |sep| > 0
    ensures |Split(s, sep)| >= 2 && Split(s, sep)[1] == Split(s[Find(s, sep) + |sep|..], sep)[0]
  {
  }

  /** Splitting a string with no `c` in it gives the string back. */
  lemma SplitNoSep(s: string, c: char)
    requires c !in s
    ensures Split(s, [c]) == [s]
  {
    ContainsChar(s, c);
  }

  /** Splitting `pre + [c] + rest`, when `pre` has no `c`, yields `pre` first. */
  lemma SplitCons(pre: string, c: char, rest: string)
    requires c !in pre
    ensures Split(pre + [c] + rest, [c]) == [pre] + Split(rest, [c])
  {
    var s := pre + [c] + rest;
    assert s[|pre|..|pre| + 1] == [c];
    assert OccursAt(s, [c], |pre|);
    forall j | 0 <= j < |pre| ensures !OccursAt(s, [c], j) {
      assert s[j] == pre[j];
    }
    var i := Find(s, [c]);
    assert i == |pre|;
    assert s[..i] == pre;
    assert s[i + 1..] == rest;
  }

  /** Gluing `pre` onto the head of `[h] + tail`. */
  lemma GlueHead(p: seq<string>, h: string, tail: seq<string>, pre: string)
    requires p == [h] + tail
    ensures [pre + p[0]] + p[1..] == [pre + h] + tail
  {
    assert p[1..] == tail;
  }

  /** When `c` occurs, the split is the text before the first `c`, then the split of what follows it. */
  lemma SplitFirstPiece(s: string, c: char)
    requires c in s
    ensures var h := Split(s, [c])[0];
      c !in h && |h| < |s| && s == h + [c] + s[|h| + 1..] && Split(s, [c]) == [h] + Split(s[|h| + 1..], [c])
  {
    var h := Split(s, [c])[0];
    assert c !in h && s == h + [c] + s[|h| + 1..] by { SplitCharHead(s, c); }
    SplitCons(h, c, s[|h| + 1..]);
  }

  /** A prefix without `c` is glued onto the first piece of the split. */
  lemma SplitPrefix(pre: string, c: char, s: string)
    requires c !in pre
    ensures var p := Split(s, [c]); Split(pre + s, [c]) == [pre + p[0]] + p[1..]
  {
    if c in s {
      SplitPrefixFound(pre, c, s);
    } else {
      SplitNoSep(s, c);
      SplitNoSep(pre + s, c);
    }
  }

  /** `SplitPrefix` when `c` occurs in `s`. */
  lemma SplitPrefixFound(pre: string, c: char, s: string)
    requires c !in pre && c in s
    ensures var p := Split(s, [c]); Split(pre + s, [c]) == [pre + p[0]] + p[1..]
  {
    SplitFirstPiece(s, c);
    var h := Split(s, [c])[0];
    var rest := s[|h| + 1..];
    assert pre + s == (pre + h) + [c] + rest;
    SplitCons(pre + h, c, rest);
    GlueHead(Split(s, [c]), h, Split(rest, [c]), pre);
  }

  /** Splitting a join on the same one-character separator gives the parts back. */
  lemma {:induction false} SplitJoin(parts: seq<string>, c: char)
    requires |parts| >= 1
    requires forall i :: 0 <= i < |parts| ==> c !in parts[i]
    ensures Split(Join(parts, [c]), [c]) == parts
  {
    if |parts| == 1 {
      SplitNoSep(parts[0], c);
    } else {
      SplitJoin(parts[1..], c);
      assert Join(parts, [c]) == parts[0] + [c] + Join(parts[1..], [c]);
      SplitCons(parts[0], c, Join(parts[1..], [c]));
      assert parts == [parts[0]] + parts[1..];
    }
  }

  /** `s.split(c, 1)` for a string holding `c`: the text before the first `c` and the text after it. */
  function CutAt(s: string, c: char): (r: (string, string))
    requires c in s
    ensures c !in r.0 && s == r.0 + [c] + r.1
  {
    if s[0] == c then ([], s[1..])
    else
      var t := CutAt(s[1..], c);
      ([s[0]] + t.0, t.1)
  }

  /** The cut is the only way of writing `s` as a `c`-free head, `c`, and a tail. */
  lemma CutAtUnique(head: string, c: char, tail: string)
    requires c !in head
    ensures CutAt(head + [c] + tail, c) == (head, tail)
  {
    var s := head + [c] + tail;
    var r := CutAt(s, c);
    assert s[|head|] == c && s[|r.0|] == c;
    assert |r.0| == |head|;
    assert r.0 == s[..|head|] == head;
    assert r.1 == s[|head| + 1..] == tail;
  }

  /** `s.replace(c, rep)` for a single character `c`. */
  function ReplaceChar(s: string, c: char, rep: string): (r: string)
    ensures c !in rep ==> c !in r
    ensures forall x :: x in r ==> x in s || x in rep
  {
    if s == [] then [] else (if s[0] == c then rep else [s[0]]) + ReplaceChar(s[1..], c, rep)
  }

  /** Replacing by a single character changes exactly the occurrences of `c`, in place. */
  lemma {:induction false} ReplaceCharSingle(s: string, c: char, d: char)
    ensures var r := ReplaceChar(s, c, [d]);
      |r| == |s| && forall i :: 0 <= i < |s| ==> r[i] == if s[i] == c then d else s[i]
  {
    if s != [] {
      ReplaceCharSingle(s[1..], c, d);
      var r := ReplaceChar(s, c, [d]);
      assert r == [if s[0] == c then d else s[0]] + ReplaceChar(s[1..], c, [d]);
    }
  }

  function DigitChar(d: int): char
    requires 0 <= d < 10
  {
    "0123456789"[d]
  }

  /** Decimal digits of a natural number, as `str(n)` prints them. */
  function NatToString(n: nat): (r: string)
    ensures |r| >= 1
    ensures forall i :: 0 <= i < |r| ==> '0' <= r[i] <= '9'
  {
    if n < 10 then [DigitChar(n)] else NatToString(n / 10) + [DigitChar(n % 10)]
  }

  /** Python `str(n)` for an `int`. */
  function IntToString(n: int): string {
    if n < 0 then "-" + NatToString(-n) else NatToString(n)
  }

  /** `str(n)` is made of digits and at most a leading minus sign. */
  lemma IntToStringChars(n: int)
    ensures forall c :: c in IntToString(n) ==> c == '-' || '0' <= c <= '9'
  {
    var r := IntToString(n);
    forall c | c in r ensures c == '-' || '0' <= c <= '9' {
      var i :| 0 <= i < |r| && r[i] == c;
      if n < 0 {
        assert i == 0 || r[i] == NatToString(-n)[i - 1];
      }
    }
  }
}
