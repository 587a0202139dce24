/** Percent-decoding a request path into a fixed buffer (http_url_decode in src/http.c), against the
    encoding of section 2.1 of RFC 3986. */
module HttpUrl {
  import opened Wrappers
  import opened CString
  import opened JsonEscape

  const PERCENT: bv8 := 37
  const PLUS: bv8 := 43
  const SPACE: bv8 := 32

  /** The byte two hexadecimal digits stand for. */
  function HexByte(h: bv8, l: bv8): Option<bv8>
  {
    if HexValue(h).Some? && HexValue(l).Some? then Some((HexValue(h).value << 4) | HexValue(l).value) else None
  }

  lemma NibblesJoin(c: bv8)
    ensures c >> 4 < 16 && c & 15 < 16 && ((c >> 4) << 4) | (c & 15) == c
  {
  }

  type Reader = (bv8, bv8) -> Option<bv8>

  /** The byte the text starts with, and how much of the text it takes. */
  function DecodeOne(s: seq<bv8>, hex: Reader): (bv8, nat)
    requires |s| > 0
  {
    if s[0] == PERCENT && |s| >= 3 && hex(s[1], s[2]).Some? then (hex(s[1], s[2]).value, 3)
    else if s[0] == PLUS then (SPACE, 1)
    else (s[0], 1)
  }

  function DecodeWith(s: seq<bv8>, hex: Reader): seq<bv8>
    decreases |s|
  {
    if |s| == 0 then []
    else
      var (b, n) := DecodeOne(s, hex);
      [b] + DecodeWith(s[n..], hex)
  }

  /** What the text decodes to in a buffer without limit; a stray percent sign stands for itself. */
  function Decoded(s: seq<bv8>): seq<bv8> { DecodeWith(s, HexByte) }

  // ---------------------------------------------------------------- every spelling

  const LOWER_HEX: seq<bv8> := [48, 49, 50, 51, 52, 53, 54, 55, 56, 57, 97, 98, 99, 100, 101, 102]   // "0..9a..f"
  const UPPER_HEX: seq<bv8> := [48, 49, 50, 51, 52, 53, 54, 55, 56, 57, 65, 66, 67, 68, 69, 70]      // "0..9A..F"

  /** The character is the digit for v, in either case. */
  predicate IsHexFor(c: bv8, v: bv8) { v < 16 && (c == LOWER_HEX[v] || c == UPPER_HEX[v]) }

  /** The ways to write a byte: as itself, unless it is a percent or plus sign; escaped, with digits of
      either case; and a space also as a plus sign. */
  predicate Spells(text: seq<bv8>, c: bv8)
  {
    || (text == [c] && c != PERCENT && c != PLUS)
    || (text == [PLUS] && c == SPACE)
    || (|text| == 3 && text[0] == PERCENT && IsHexFor(text[1], c >> 4) && IsHexFor(text[2], c & 15))
  }

  lemma HexReadsBack(c: bv8, v: bv8)
    requires IsHexFor(c, v)
    ensures HexValue(c) == Some(v)
  {
  }

  lemma DecodesSpelling(text: seq<bv8>, c: bv8, rest: seq<bv8>)
    requires Spells(text, c)
    ensures |text| > 0 && DecodeOne(text + rest, HexByte) == (c, |text|)
  {
    if |text| == 3 {
      HexReadsBack(text[1], c >> 4);
      HexReadsBack(text[2], c & 15);
      NibblesJoin(c);
      assert (text + rest)[1] == text[1] && (text + rest)[2] == text[2];
    }
  }

  function Joined(texts: seq<seq<bv8>>): seq<bv8>
  {
    if |texts| == 0 then [] else texts[0] + Joined(texts[1..])
  }

  /** However each byte is written, the text decodes to the bytes. */
  lemma {:induction false} DecodesEverySpelling(texts: seq<seq<bv8>>, s: seq<bv8>)
    requires |texts| == |s| && forall i :: 0 <= i < |s| ==> Spells(texts[i], s[i])
    ensures Decoded(Joined(texts)) == s
  {
    if |s| > 0 {
      var text, rest := texts[0], Joined(texts[1..]);
      assert Spells(text, s[0]);
      DecodesSpelling(text, s[0], rest);
      DecodesEverySpelling(texts[1..], s[1..]);
      assert (text + rest)[|text|..] == rest;
      assert [s[0]] + s[1..] == s;
    }
  }

  /** The character is a hexadecimal digit. */
  predicate IsHex(c: bv8) { c in LOWER_HEX || c in UPPER_HEX }

  lemma HexValueIff(c: bv8)
    ensures HexValue(c).Some? <==> IsHex(c)
  {
    assert LOWER_HEX[..10] == UPPER_HEX[..10];
  }

  /** A percent sign that two hexadecimal digits do not follow stands for itself. */
  lemma StrayPercent(rest: seq<bv8>)
    requires |rest| < 2 || !IsHex(rest[0]) || !IsHex(rest[1])
    ensures Decoded([PERCENT] + rest) == [PERCENT] + Decoded(rest)
  {
    if |rest| >= 2 {
      HexValueIff(rest[0]);
      HexValueIff(rest[1]);
    }
    assert ([PERCENT] + rest)[1..] == rest;
  }

  /** The buffer ends up with the longest prefix of the decoded text that leaves room for the final
      NUL. src is a C string: it holds no NUL. */
  method UrlDecode(dst: array<bv8>, src: seq<bv8>) returns (di: nat)
    requires dst.Length > 0 && 0 !in src
    modifies dst
    ensures di < dst.Length && dst[di] == 0
    ensures dst[..di] == Prefix(Decoded(src), dst.Length - 1)
  {
    di := DecodeLoop(dst, src, HexByte);
  }

  lemma DecodeStep(done: seq<bv8>, s: seq<bv8>, hex: Reader)
    requires |s| > 0
    ensures var (b, n) := DecodeOne(s, hex); done + DecodeWith(s, hex) == (done + [b]) + DecodeWith(s[n..], hex)
  {
  }

  /** The byte at a position, and how many characters it takes. */
  method NextByte(src: seq<bv8>, at: nat, hex: Reader) returns (b: bv8, n: nat)
    requires at < |src|
    ensures (b, n) == DecodeOne(src[at..], hex) && at + n <= |src|
  {
    b, n := src[at], 1;
    if src[at] == PERCENT && at + 2 < |src| && hex(src[at + 1], src[at + 2]).Some? {
      b, n := hex(src[at + 1], src[at + 2]).value, 3;
    } else if src[at] == PLUS {
      b := SPACE;
    }
  }

  method DecodeLoop(dst: array<bv8>, src: seq<bv8>, hex: Reader) returns (di: nat)
    requires dst.Length > 0
    modifies dst
    ensures di < dst.Length && dst[di] == 0
    ensures dst[..di] == Prefix(DecodeWith(src, hex), dst.Length - 1)
  {
    di := 0;
    var at := 0;
    assert src[0..] == src && [] + DecodeWith(src, hex) == DecodeWith(src, hex);
    while at < |src| && di + 1 < dst.Length
      invariant at <= |src| && di < dst.Length
      invariant dst[..di] + DecodeWith(src[at..], hex) == DecodeWith(src, hex)
    {
      ghost var done := dst[..di];
      var b, n := NextByte(src, at, hex);
      DecodeStep(done, src[at..], hex);
      assert src[at..][n..] == src[at + n..];
      dst[di] := b;
      assert dst[..di + 1] == done + [b];
      di, at := di + 1, at + n;
    }
    assert at == |src| ==> DecodeWith(src[at..], hex) == [];
    dst[di] := 0;
  }
}
