/** Escaping a C string for a JSON string value (json_escape_string in src/databases_meta.c), and
    reading a JSON string back (section 7 of RFC 8259). */
module JsonEscape {
  import opened Wrappers

  const QUOTE: bv8 := 34
  const BACKSLASH: bv8 := 92
  const SLASH: bv8 := 47
  const LETTER_U: bv8 := 117
  const ZERO: bv8 := 48

  /** The letter of a two-character escape, for the bytes that have one. */
  function ShortEscape(c: bv8): Option<bv8>
  {
    if c == QUOTE then Some(QUOTE)
    else if c == BACKSLASH then Some(BACKSLASH)
    else if c == 8 then Some(98)
    else if c == 12 then Some(102)
    else if c == 10 then Some(110)
    else if c == 13 then Some(114)
    else if c == 9 then Some(116)
    else None
  }

  function HexDigit(v: bv8): bv8 { if v < 10 then v + 48 else v - 10 + 97 }

  function EscapeByte(c: bv8): (r: seq<bv8>)
    ensures 1 <= |r| <= 6
  {
    if ShortEscape(c).Some? then [BACKSLASH, ShortEscape(c).value]
    else if c < 0x20 then [BACKSLASH, LETTER_U, ZERO, ZERO, HexDigit(c >> 4), HexDigit(c & 15)]
    else [c]
  }

  /** The pieces f gives for the bytes of s, one after the other. */
  function Flatten(s: seq<bv8>, f: bv8 -> seq<bv8>): seq<bv8>
  {
    if |s| == 0 then [] else Flatten(s[..|s| - 1], f) + f(s[|s| - 1])
  }

  function Escape(s: seq<bv8>): seq<bv8> { Flatten(s, EscapeByte) }

  lemma FlattenGrows(s: seq<bv8>, i: nat, f: bv8 -> seq<bv8>)
    requires i < |s|
    ensures Flatten(s[..i + 1], f) == Flatten(s[..i], f) + f(s[i])
  {
    assert s[..i + 1][..i] == s[..i];
  }

  lemma {:induction false} FlattenConcat(a: seq<bv8>, b: seq<bv8>, f: bv8 -> seq<bv8>)
    ensures Flatten(a + b, f) == Flatten(a, f) + Flatten(b, f)
  {
    if |b| == 0 {
      assert a + b == a;
    } else {
      assert (a + b)[..|a + b| - 1] == a + b[..|b| - 1];
      FlattenConcat(a, b[..|b| - 1], f);
    }
  }

  lemma FlattenHead(s: seq<bv8>, f: bv8 -> seq<bv8>)
    requires |s| > 0
    ensures Flatten(s, f) == f(s[0]) + Flatten(s[1..], f)
  {
    assert s == [s[0]] + s[1..] && [s[0]][..0] == [];
    FlattenConcat([s[0]], s[1..], f);
  }

  lemma {:induction false} FlattenLength(s: seq<bv8>, f: bv8 -> seq<bv8>)
    requires forall c :: 1 <= |f(c)| <= 6
    ensures |s| <= |Flatten(s, f)| <= 6 * |s|
  {
    if |s| > 0 { FlattenLength(s[..|s| - 1], f); }
  }

  /** The escaped length is between that of the source and six times as much. */
  lemma EscapeLength(s: seq<bv8>)
    ensures |s| <= |Escape(s)| <= 6 * |s|
  {
    FlattenLength(s, EscapeByte);
  }

  lemma EscapeMonotone(s: seq<bv8>, i: nat)
    requires i <= |s|
    ensures |Escape(s[..i])| <= |Escape(s)|
  {
    assert s == s[..i] + s[i..];
    FlattenConcat(s[..i], s[i..], EscapeByte);
  }

  /** The control characters with a two-character escape: backspace, tab, line feed, form feed, return. */
  const NAMED: set<bv8> := {8, 9, 10, 12, 13}

  /** Nothing is escaped that need not be, and nothing at greater length than it must. */
  lemma EscapeWidth(s: seq<bv8>, c: bv8)
    ensures |Escape(s + [c])| == |Escape(s)| +
      if c == QUOTE || c == BACKSLASH || c in NAMED then 2 else if c < 0x20 then 6 else 1
  {
    assert (s + [c])[..|s|] == s;
  }

  /** Escaped text holds no raw control character. */
  lemma {:induction false} NoRawControls(s: seq<bv8>, i: nat)
    requires i < |Escape(s)|
    ensures Escape(s)[i] >= 0x20
  {
    var n := |s| - 1;
    if i < |Escape(s[..n])| {
      NoRawControls(s[..n], i);
    }
  }

  // ---------------------------------------------------------------- reading back

  function HexValue(c: bv8): Option<bv8>
  {
    if 48 <= c <= 57 then Some(c - 48)
    else if 97 <= c <= 102 then Some(c - 97 + 10)
    else if 65 <= c <= 70 then Some(c - 65 + 10)
    else None
  }

  function ShortMeaning(c: bv8): Option<bv8>
  {
    if c == QUOTE || c == BACKSLASH || c == SLASH then Some(c)
    else if c == 98 then Some(8)
    else if c == 102 then Some(12)
    else if c == 110 then Some(10)
    else if c == 114 then Some(13)
    else if c == 116 then Some(9)
    else None
  }

  /** One character of a JSON string: its meaning and its length. Of the four-digit escapes only
      those for ASCII are read; the escaper writes no others. */
  function ReadChar(s: seq<bv8>): Option<(bv8, nat)>
    requires |s| > 0
  {
    if s[0] < 0x20 || s[0] == QUOTE then None
    else if s[0] != BACKSLASH then Some((s[0], 1))
    else if |s| < 2 then None
    else if ShortMeaning(s[1]).Some? then Some((ShortMeaning(s[1]).value, 2))
    else if s[1] == LETTER_U && |s| >= 6 && s[2] == ZERO && s[3] == ZERO
         && HexValue(s[4]).Some? && HexValue(s[4]).value < 8 && HexValue(s[5]).Some? then
      Some(((HexValue(s[4]).value << 4) | HexValue(s[5]).value, 6))
    else None
  }

  /** A JSON string after its opening quote: its value, and what follows its closing quote. */
  function ReadString(s: seq<bv8>): Option<(seq<bv8>, seq<bv8>)>
  {
    if |s| == 0 then None
    else if s[0] == QUOTE then Some(([], s[1..]))
    else
      match ReadChar(s)
      case None => None
      case Some((c, n)) =>
        if n > |s| then None else
        match ReadString(s[n..])
        case None => None
        case Some((value, rest)) => Some(([c] + value, rest))
  }

  lemma ReadsOneBack(c: bv8, rest: seq<bv8>)
    ensures ReadChar(EscapeByte(c) + rest) == Some((c, |EscapeByte(c)|))
    ensures (EscapeByte(c) + rest)[0] != QUOTE
  {
    HexRoundTrip(c);
  }

  lemma HexRoundTrip(c: bv8)
    ensures c < 0x20 ==>
      && HexValue(HexDigit(c >> 4)) == Some(c >> 4) && c >> 4 < 8
      && HexValue(HexDigit(c & 15)) == Some(c & 15)
      && ((c >> 4) << 4) | (c & 15) == c
  {
  }

  /** Escaped text put between quotes reads back as the source string and nothing more, whatever
      follows: no quote inside it ends the string early. */
  lemma {:induction false} ReadsBack(s: seq<bv8>, rest: seq<bv8>)
    ensures ReadString(Escape(s) + [QUOTE] + rest) == Some((s, rest))
    decreases |s|
  {
    if |s| == 0 {
      assert [] + [QUOTE] + rest == [QUOTE] + rest;
    } else {
      FlattenHead(s, EscapeByte);
      var e := EscapeByte(s[0]);
      var tail := Escape(s[1..]) + [QUOTE] + rest;
      assert Escape(s) + [QUOTE] + rest == e + tail;
      ReadsOneBack(s[0], tail);
      assert (e + tail)[|e|..] == tail;
      ReadsBack(s[1..], rest);
      assert s == [s[0]] + s[1..];
    }
  }

  /** Hence two strings never escape to the same text. */
  lemma EscapeInjective(s: seq<bv8>, t: seq<bv8>)
    requires Escape(s) == Escape(t)
    ensures s == t
  {
    ReadsBack(s, []);
    ReadsBack(t, []);
  }

  // ---------------------------------------------------------------- the bounded writer

  /** One turn of the loop: writes the escape of c unless it, and a NUL after it, do not fit. */
  method PutEscaped(dst: array<bv8>, di: nat, c: bv8) returns (ok: bool, di': nat)
    requires di <= dst.Length
    modifies dst
    ensures ok <==> di + |EscapeByte(c)| < dst.Length
    ensures ok ==> di' == di + |EscapeByte(c)| && dst[di..di'] == EscapeByte(c) && dst[..di] == old(dst[..di])
  {
    di' := di;
    var esc := ShortEscape(c);
    if esc == None && c < 0x20 {
      if di + 6 >= dst.Length {
        return false, di;
      }
      dst[di], dst[di + 1], dst[di + 2], dst[di + 3] := BACKSLASH, LETTER_U, ZERO, ZERO;
      dst[di + 4], dst[di + 5], dst[di + 6] := HexDigit(c >> 4), HexDigit(c & 15), 0;
      return true, di + 6;
    }
    if esc == None {
      if di + 1 >= dst.Length {
        return false, di;
      }
      dst[di] := c;
      return true, di + 1;
    }
    if di + 2 >= dst.Length {
      return false, di;
    }
    dst[di], dst[di + 1] := BACKSLASH, esc.value;
    return true, di + 2;
  }

  /** Succeeds exactly when the escaped text and its final NUL fit; -1 stands for (size_t)-1. */
  method JsonEscapeString(dst: array<bv8>, src: seq<bv8>) returns (rc: int)
    modifies dst
    ensures rc == -1 <==> |Escape(src)| + 1 > dst.Length
    ensures rc != -1 ==> rc == |Escape(src)| && dst[..rc] == Escape(src) && dst[rc] == 0
  {
    var di: nat := 0;
    for i := 0 to |src|
      invariant di == |Escape(src[..i])| <= dst.Length
      invariant dst[..di] == Escape(src[..i])
    {
      FlattenGrows(src, i, EscapeByte);
      EscapeMonotone(src, i + 1);
      ghost var before := di;
      var ok;
      ok, di := PutEscaped(dst, di, src[i]);
      if !ok {
        return -1;
      }
      assert dst[..di] == dst[..before] + dst[before..di];
    }
    assert src[..|src|] == src;
    if di >= dst.Length {
      return -1;
    }
    dst[di] := 0;
    rc := di;
  }
}
