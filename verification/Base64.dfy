/** The Base64 decoder of src/auth.c and the encoding it must invert (section 4 of RFC 4648). */
module Base64 {
  import opened Wrappers

  const PAD: bv8 := 61   // '='

  /** The value of a character of the alphabet. */
  function Sextet(c: bv8): (v: Option<bv32>)
    ensures v.Some? ==> v.value < 64
  {
    if 65 <= c <= 90 then Some((c - 65) as bv32)
    else if 97 <= c <= 122 then Some((c - 97) as bv32 + 26)
    else if 48 <= c <= 57 then Some((c - 48) as bv32 + 52)
    else if c == 43 then Some(62)
    else if c == 47 then Some(63)
    else None
  }

  /** The character for a value. */
  function Letter(v: bv32): (c: bv8)
    requires v < 64
  {
    if v < 26 then (v + 65) as bv8
    else if v < 52 then (v - 26 + 97) as bv8
    else if v < 62 then (v - 52 + 48) as bv8
    else if v == 62 then 43
    else 47
  }

  lemma SextetOfLetter(v: bv32)
    requires v < 64
    ensures Sextet(Letter(v)) == Some(v) && Letter(v) != PAD
  {
  }

  predicate Alphanumeric(c: bv8) { 65 <= c <= 90 || 97 <= c <= 122 || 48 <= c <= 57 }

  /** The alphabet of table 1 of RFC 4648: letters and digits, with values that ascend in each run from 'A',
      'a' and '0', and '+' and '/'; no other character has a value. */
  lemma AlphabetIsStandard(c: bv8)
    ensures Sextet(c).Some? <==> Alphanumeric(c) || c == 43 || c == 47
    ensures Sextet(65) == Some(0) && Sextet(97) == Some(26) && Sextet(48) == Some(52)
    ensures Sextet(43) == Some(62) && Sextet(47) == Some(63)
    ensures Alphanumeric(c) && Alphanumeric(c + 1) ==> Sextet(c + 1).value == Sextet(c).value + 1
  {
  }

  function Join(v0: bv32, v1: bv32, v2: bv32, v3: bv32): bv32
  {
    (v0 << 18) | (v1 << 12) | (v2 << 6) | v3
  }

  function ByteOf(bits: bv32): bv8 { (bits & 0xff) as bv8 }

  // ---------------------------------------------------------------- encoding

  /** Three bytes as four sextets. */
  function Quad(a: bv8, b: bv8, c: bv8): (bv32, bv32, bv32, bv32)
  {
    ((a >> 2) as bv32,
     ((a & 3) as bv32 << 4) | (b >> 4) as bv32,
     ((b & 15) as bv32 << 2) | (c >> 6) as bv32,
     (c & 63) as bv32)
  }

  lemma QuadJoins(a: bv8, b: bv8, c: bv8)
    ensures var (p, q, r, s) := Quad(a, b, c);
      && p < 64 && q < 64 && r < 64 && s < 64
      && ByteOf(Join(p, q, r, s) >> 16) == a
      && ByteOf(Join(p, q, r, s) >> 8) == b
      && ByteOf(Join(p, q, r, s)) == c
  {
  }

  lemma QuadInRange(a: bv8, b: bv8, c: bv8)
    ensures var (p, q, r, s) := Quad(a, b, c); p < 64 && q < 64 && r < 64 && s < 64
  {
  }

  function EncodeGroup(a: bv8, b: bv8, c: bv8, pads: nat): (g: seq<bv8>)
    requires pads <= 2
    ensures |g| == 4
  {
    QuadInRange(a, b, c);
    var (p, q, r, s) := Quad(a, b, c);
    [Letter(p), Letter(q), if pads == 2 then PAD else Letter(r), if pads >= 1 then PAD else Letter(s)]
  }

  /** Groups of three bytes become four letters; a last short group is padded. */
  function Encode(bytes: seq<bv8>): seq<bv8>
  {
    if |bytes| == 0 then []
    else if |bytes| == 1 then EncodeGroup(bytes[0], 0, 0, 2)
    else if |bytes| == 2 then EncodeGroup(bytes[0], bytes[1], 0, 1)
    else EncodeGroup(bytes[0], bytes[1], bytes[2], 0) + Encode(bytes[3..])
  }

  // ---------------------------------------------------------------- decoding

  datatype Group = Bad | Group(v: seq<bv32>, pad: nat, next: nat)

  /** The padding loop: every remaining position takes one '=' if there is one. */
  function SkipPads(s: seq<bv8>, p: nat, i: nat, pad: nat): (r: (nat, nat))
    requires p <= |s|
    ensures pad <= r.0 && p <= r.1 <= |s|
    decreases if i < 4 then 4 - i else 0
  {
    if i >= 4 then (pad, p)
    else if p < |s| && s[p] == PAD then SkipPads(s, p + 1, i + 1, pad + 1)
    else SkipPads(s, p, i + 1, pad)
  }

  /** Reads up to four characters; a group cut short by the end of the text is an error. */
  function ReadGroup(s: seq<bv8>, p: nat, v: seq<bv32>): (g: Group)
    requires p <= |s| && |v| <= 4 && (v == [] ==> p < |s|)
    ensures g.Group? ==> p <= g.next <= |s| && (|v| < 4 ==> p < g.next)
    decreases 4 - |v|
  {
    if |v| == 4 then Group(v, 0, p)
    else if p == |s| then Bad
    else if s[p] == PAD then
      var (pad, next) := SkipPads(s, p + 1, |v| + 1, 1);
      Group(v, pad, next)
    else
      match Sextet(s[p])
      case None => Bad
      case Some(n) => ReadGroup(s, p + 1, v + [n])
  }

  /** Sextets a padded group lacks count as zero. */
  function At(v: seq<bv32>, i: nat): bv32 { if i < |v| then v[i] else 0 }

  /** Of a group's three bytes, those its padding leaves. */
  function Keep(a: bv8, b: bv8, c: bv8, pad: nat): seq<bv8>
  {
    if pad < 1 then [a, b, c] else if pad < 2 then [a, b] else [a]
  }

  function Emit(v: seq<bv32>, pad: nat): seq<bv8>
  {
    var bits := Join(At(v, 0), At(v, 1), At(v, 2), At(v, 3));
    Keep(ByteOf(bits >> 16), ByteOf(bits >> 8), ByteOf(bits), pad)
  }

  /** The bytes the text from p on decodes to, were the buffer unbounded. */
  function Decode(s: seq<bv8>, p: nat): Option<seq<bv8>>
    requires p <= |s|
    decreases |s| - p
  {
    if p == |s| then Some([])
    else
      match ReadGroup(s, p, [])
      case Bad => None
      case Group(v, pad, next) =>
        match Decode(s, next)
        case None => None
        case Some(rest) => Some(Emit(v, pad) + rest)
  }

  lemma ReadLetter(s: seq<bv8>, p: nat, v: seq<bv32>, n: bv32)
    requires p < |s| && |v| < 4 && n < 64 && s[p] == Letter(n)
    ensures ReadGroup(s, p, v) == ReadGroup(s, p + 1, v + [n])
  {
    SextetOfLetter(n);
  }

  lemma ReadTwo(s: seq<bv8>, p: nat, a: bv32, b: bv32)
    requires p + 2 <= |s| && a < 64 && b < 64 && s[p] == Letter(a) && s[p + 1] == Letter(b)
    ensures ReadGroup(s, p, []) == ReadGroup(s, p + 2, [a, b])
  {
    ReadLetter(s, p, [], a);
    ReadLetter(s, p + 1, [a], b);
    assert [] + [a] == [a] && [a] + [b] == [a, b];
  }

  lemma ReadPadded2(s: seq<bv8>, p: nat, v: seq<bv32>)
    requires p + 2 == |s| && |v| == 2 && s[p] == PAD && s[p + 1] == PAD
    ensures ReadGroup(s, p, v) == Group(v, 2, p + 2)
  {
    assert SkipPads(s, p + 1, 3, 1) == SkipPads(s, p + 2, 4, 2);
  }

  lemma ReadPadded1(s: seq<bv8>, p: nat, v: seq<bv32>)
    requires p + 1 == |s| && |v| == 3 && s[p] == PAD
    ensures ReadGroup(s, p, v) == Group(v, 1, p + 1)
  {
    assert SkipPads(s, p + 1, 4, 1) == (1, p + 1);
  }

  lemma ReadFour(s: seq<bv8>, p: nat, a: bv8, b: bv8, c: bv8)
    requires p + 4 <= |s| && s[p..p + 4] == EncodeGroup(a, b, c, 0)
    ensures var (q0, q1, q2, q3) := Quad(a, b, c); ReadGroup(s, p, []) == Group([q0, q1, q2, q3], 0, p + 4)
  {
    QuadInRange(a, b, c);
    var (q0, q1, q2, q3) := Quad(a, b, c);
    var g := s[p..p + 4];
    assert s[p] == g[0] && s[p + 1] == g[1] && s[p + 2] == g[2] && s[p + 3] == g[3];
    ReadTwo(s, p, q0, q1);
    ReadLetter(s, p + 2, [q0, q1], q2);
    assert [q0, q1] + [q2] == [q0, q1, q2];
    ReadLetter(s, p + 3, [q0, q1, q2], q3);
    assert [q0, q1, q2] + [q3] == [q0, q1, q2, q3];
  }

  lemma ReadThree(s: seq<bv8>, p: nat, a: bv8, b: bv8)
    requires p <= |s| && s[p..] == EncodeGroup(a, b, 0, 1)
    ensures var (q0, q1, q2, q3) := Quad(a, b, 0); ReadGroup(s, p, []) == Group([q0, q1, q2], 1, |s|)
  {
    QuadInRange(a, b, 0);
    var (q0, q1, q2, q3) := Quad(a, b, 0);
    var g := s[p..];
    assert s[p] == g[0] && s[p + 1] == g[1] && s[p + 2] == g[2] && s[p + 3] == g[3];
    ReadTwo(s, p, q0, q1);
    ReadLetter(s, p + 2, [q0, q1], q2);
    assert [q0, q1] + [q2] == [q0, q1, q2];
    ReadPadded1(s, p + 3, [q0, q1, q2]);
  }

  lemma ReadTwoPadded(s: seq<bv8>, p: nat, a: bv8)
    requires p <= |s| && s[p..] == EncodeGroup(a, 0, 0, 2)
    ensures var (q0, q1, q2, q3) := Quad(a, 0, 0); ReadGroup(s, p, []) == Group([q0, q1], 2, |s|)
  {
    QuadInRange(a, 0, 0);
    var (q0, q1, q2, q3) := Quad(a, 0, 0);
    var g := s[p..];
    assert s[p] == g[0] && s[p + 1] == g[1] && s[p + 2] == g[2] && s[p + 3] == g[3];
    ReadTwo(s, p, q0, q1);
    ReadPadded2(s, p + 2, [q0, q1]);
  }

  lemma EmitThree(a: bv8, b: bv8, c: bv8)
    ensures var (p, q, r, s) := Quad(a, b, c); Emit([p, q, r, s], 0) == [a, b, c]
  {
    QuadJoins(a, b, c);
  }

  lemma EmitTwo(a: bv8, b: bv8)
    ensures var (p, q, r, s) := Quad(a, b, 0); Emit([p, q, r], 1) == [a, b]
  {
    QuadJoins(a, b, 0);
  }

  lemma EmitOne(a: bv8)
    ensures var (p, q, r, s) := Quad(a, 0, 0); Emit([p, q], 2) == [a]
  {
    QuadJoins(a, 0, 0);
  }

  lemma DecodeLast(s: seq<bv8>, p: nat, bytes: seq<bv8>)
    requires p <= |s| && s[p..] == Encode(bytes) && 1 <= |bytes| <= 2
    ensures Decode(s, p) == Some(bytes)
  {
    assert Decode(s, |s|) == Some([]);
    if |bytes| == 2 {
      ReadThree(s, p, bytes[0], bytes[1]);
      EmitTwo(bytes[0], bytes[1]);
      assert bytes == [bytes[0], bytes[1]] + [];
    } else {
      ReadTwoPadded(s, p, bytes[0]);
      EmitOne(bytes[0]);
      assert bytes == [bytes[0]] + [];
    }
  }

  /** Decoding a group of four and then the rest. */
  lemma DecodeThree(s: seq<bv8>, p: nat, a: bv8, b: bv8, c: bv8, rest: seq<bv8>)
    requires p + 4 <= |s| && s[p..p + 4] == EncodeGroup(a, b, c, 0) && Decode(s, p + 4) == Some(rest)
    ensures Decode(s, p) == Some([a, b, c] + rest)
  {
    ReadFour(s, p, a, b, c);
    EmitThree(a, b, c);
  }

  /** Decoding inverts encoding, for every byte string. */
  lemma {:induction false} DecodeEncode(s: seq<bv8>, p: nat, bytes: seq<bv8>)
    requires p <= |s| && s[p..] == Encode(bytes)
    ensures Decode(s, p) == Some(bytes)
    decreases |bytes|
  {
    if |bytes| >= 3 {
      assert s[p..p + 4] == s[p..][..4] == EncodeGroup(bytes[0], bytes[1], bytes[2], 0);
      assert s[p + 4..] == s[p..][4..] == Encode(bytes[3..]);
      DecodeEncode(s, p + 4, bytes[3..]);
      DecodeThree(s, p, bytes[0], bytes[1], bytes[2], bytes[3..]);
      assert bytes == [bytes[0], bytes[1], bytes[2]] + bytes[3..];
    } else if |bytes| >= 1 {
      DecodeLast(s, p, bytes);
    }
  }

  lemma {:induction false} EncodeLength(bytes: seq<bv8>)
    ensures |Encode(bytes)| == (|bytes| + 2) / 3 * 4
  {
    if |bytes| >= 3 { EncodeLength(bytes[3..]); }
  }

  lemma FirstIsLetter(bytes: seq<bv8>)
    requires |bytes| > 0
    ensures |Encode(bytes)| > 0 && Sextet(Encode(bytes)[0]).Some? && Encode(bytes)[0] != PAD
  {
    var b := if |bytes| > 1 then bytes[1] else 0;
    var c := if |bytes| > 2 then bytes[2] else 0;
    QuadInRange(bytes[0], b, c);
    SextetOfLetter(Quad(bytes[0], b, c).0);
  }

  /** One character, and then the end of the text, is an error. */
  lemma LoneCharacter(s: seq<bv8>, p: nat)
    requires p + 1 == |s| && s[p] != PAD
    ensures ReadGroup(s, p, []) == Bad
  {
    match Sextet(s[p])
    case None =>
    case Some(n) => assert ReadGroup(s, p + 1, [] + [n]) == Bad;
  }

  /** An encoding cut one character into a group does not decode. */
  lemma {:induction false} CutEncoding(s: seq<bv8>, p: nat, bytes: seq<bv8>, n: nat)
    requires n < |Encode(bytes)| && n % 4 == 1 && p <= |s| && s[p..] == Encode(bytes)[..n]
    ensures Decode(s, p) == None
    decreases n
  {
    EncodeLength(bytes);
    assert s[p] == s[p..][0];
    if n == 1 {
      FirstIsLetter(bytes);
      LoneCharacter(s, p);
    } else {
      var g := EncodeGroup(bytes[0], bytes[1], bytes[2], 0);
      assert Encode(bytes)[4..] == Encode(bytes[3..]);
      assert s[p..p + 4] == s[p..][..4] == Encode(bytes)[..4] == g;
      ReadFour(s, p, bytes[0], bytes[1], bytes[2]);
      assert s[p + 4..] == s[p..][4..] == Encode(bytes[3..])[..n - 4];
      CutEncoding(s, p + 4, bytes[3..], n - 4);
    }
  }

  // ---------------------------------------------------------------- what does not decode

  predicate IsLetter(c: bv8) { Sextet(c).Some? }

  lemma {:induction false} PadsRead(s: seq<bv8>, p: nat, i: nat, pad: nat)
    requires p <= |s|
    ensures forall k :: p <= k < SkipPads(s, p, i, pad).1 ==> s[k] == PAD
    decreases if i < 4 then 4 - i else 0
  {
    if i < 4 {
      if p < |s| && s[p] == PAD { PadsRead(s, p + 1, i + 1, pad + 1); } else { PadsRead(s, p, i + 1, pad); }
    }
  }

  lemma {:induction false} GroupReads(s: seq<bv8>, p: nat, v: seq<bv32>)
    requires p <= |s| && |v| <= 4 && (v == [] ==> p < |s|) && ReadGroup(s, p, v).Group?
    ensures forall k :: p <= k < ReadGroup(s, p, v).next ==> IsLetter(s[k]) || s[k] == PAD
    decreases 4 - |v|
  {
    if |v| < 4 {
      if s[p] == PAD {
        PadsRead(s, p + 1, |v| + 1, 1);
      } else {
        GroupReads(s, p + 1, v + [Sextet(s[p]).value]);
      }
    }
  }

  /** Text with any character but letters of the alphabet and '=' does not decode. */
  lemma {:induction false} ForeignCharacter(s: seq<bv8>, p: nat, i: nat)
    requires p <= i < |s| && !IsLetter(s[i]) && s[i] != PAD
    ensures Decode(s, p) == None
    decreases |s| - p
  {
    var g := ReadGroup(s, p, []);
    if g.Group? {
      GroupReads(s, p, []);
      ForeignCharacter(s, g.next, i);
    }
  }

  predicate Letters(s: seq<bv8>, p: nat, q: nat)
    requires q <= |s|
  {
    forall k :: p <= k < q ==> IsLetter(s[k])
  }

  lemma {:induction false} GroupOfLetters(s: seq<bv8>, p: nat, v: seq<bv32>)
    requires p <= |s| && |v| <= 4 && (v == [] ==> p < |s|) && forall k :: p <= k < |s| ==> s[k] != PAD
    ensures var g, next := ReadGroup(s, p, v), p + 4 - |v|;
      && (g.Group? ==> g.next == next)
      && (g.Group? <==> next <= |s| && Letters(s, p, next))
    decreases 4 - |v|
  {
    if |v| < 4 && p < |s| && IsLetter(s[p]) { GroupOfLetters(s, p + 1, v + [Sextet(s[p]).value]); }
  }

  /** One more group of four. */
  lemma DecodeGroup(s: seq<bv8>, p: nat)
    requires p < |s| && forall k :: p <= k < |s| ==> s[k] != PAD
    ensures Decode(s, p).Some? <==> p + 4 <= |s| && Letters(s, p, p + 4) && Decode(s, p + 4).Some?
  {
    GroupOfLetters(s, p, []);
  }

  lemma FourMore(n: int)
    ensures (n - 4) % 4 == 0 <==> n % 4 == 0
  {
  }

  /** Without padding, text decodes if and only if it is whole groups of four letters. */
  lemma {:induction false} UnpaddedIff(s: seq<bv8>, p: nat)
    requires p <= |s| && forall k :: p <= k < |s| ==> s[k] != PAD
    ensures Decode(s, p).Some? <==> (|s| - p) % 4 == 0 && Letters(s, p, |s|)
    decreases |s| - p
  {
    if p < |s| {
      DecodeGroup(s, p);
      FourMore(|s| - p);
      if p + 4 <= |s| { UnpaddedIff(s, p + 4); }
    }
  }
}
