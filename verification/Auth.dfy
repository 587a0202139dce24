/** HTTP Basic authentication (src/auth.c): decode the header's Base64 payload into a fixed buffer,
    split it at the first colon and compare both halves. */
module Auth {
  import opened Wrappers
  import opened Base64
  import opened CString

  const COLON: bv8 := 58
  const SPACE: bv8 := 32
  const DECODED_SIZE: nat := 512
  const AUTH_SIZE: nat := 512

  // ---------------------------------------------------------------- the decoder

  /** What decoding from p on gives, after acc has been produced. */
  function Continue(acc: seq<bv8>, s: seq<bv8>, p: nat): Option<seq<bv8>>
    requires p <= |s|
  {
    match Decode(s, p) case None => None case Some(rest) => Some(acc + rest)
  }

  /** The padding loop. */
  method ReadPads(src: seq<bv8>, p0: nat, i0: nat) returns (pad: nat, p: nat)
    requires p0 <= |src|
    ensures (pad, p) == SkipPads(src, p0, i0, 1)
  {
    pad, p := 1, p0;
    var i: nat := i0;
    while i < 4
      invariant p <= |src| && SkipPads(src, p, i, pad) == SkipPads(src, p0, i0, 1)
      decreases if i < 4 then 4 - i else 0
    {
      if p < |src| && src[p] == PAD {
        p := p + 1;
        pad := pad + 1;
      }
      i := i + 1;
    }
  }

  /** The loop that reads up to four characters of one group. */
  method ReadUpToFour(src: seq<bv8>, p0: nat) returns (g: Group)
    requires p0 < |src|
    ensures g == ReadGroup(src, p0, [])
  {
    var v: seq<bv32> := [];
    var p: nat := p0;
    while |v| < 4
      invariant |v| <= 4 && p <= |src| && (v == [] ==> p < |src|)
      invariant ReadGroup(src, p, v) == ReadGroup(src, p0, [])
      decreases 4 - |v|
    {
      if p == |src| {
        return Bad;
      }
      if src[p] == PAD {
        var pad, next := ReadPads(src, p + 1, |v| + 1);
        return Group(v, pad, next);
      }
      var n := Sextet(src[p]);
      if n == None {
        return Bad;
      }
      v := v + [n.value];
      p := p + 1;
    }
    return Group(v, 0, p);
  }

  /** Bytes beyond the buffer are dropped, so what is written is the longest prefix that leaves
      room for the final NUL; text that is not Base64 gives -1. */
  method B64Decode(src: seq<bv8>, dst: array<bv8>) returns (rc: int)
    requires dst.Length > 0
    modifies dst
    ensures Decode(src, 0) == None <==> rc < 0
    ensures rc >= 0 ==>
      && rc < dst.Length
      && dst[..rc] == Prefix(Decode(src, 0).value, dst.Length - 1)
      && dst[rc] == 0
  {
    var out: nat := 0;
    var p: nat := 0;
    ghost var acc: seq<bv8> := [];
    assert Decode(src, 0).Some? ==> [] + Decode(src, 0).value == Decode(src, 0).value;
    while p < |src|
      invariant p <= |src| && out < dst.Length
      invariant Continue(acc, src, p) == Decode(src, 0)
      invariant dst[..out] == Prefix(acc, dst.Length - 1)
      decreases |src| - p
    {
      var g := ReadUpToFour(src, p);
      if g == Bad {
        return -1;
      }
      ghost var before := acc;
      var bits := Join(At(g.v, 0), At(g.v, 1), At(g.v, 2), At(g.v, 3));
      out := StoreGroup(dst, out, acc, ByteOf(bits >> 16), ByteOf(bits >> 8), ByteOf(bits), g.pad);
      acc := acc + Emit(g.v, g.pad);
      ContinueStep(before, acc, src, p);
      p := g.next;
    }
    assert Decode(src, |src|) == Some([]);
    dst[out] := 0;
    rc := out;
  }

  lemma ContinueStep(before: seq<bv8>, after: seq<bv8>, src: seq<bv8>, p: nat)
    requires p < |src| && ReadGroup(src, p, []).Group?
    requires var g := ReadGroup(src, p, []); after == before + Emit(g.v, g.pad)
    ensures Continue(after, src, ReadGroup(src, p, []).next) == Continue(before, src, p)
  {
    var g := ReadGroup(src, p, []);
    if Decode(src, g.next).Some? {
      var rest := Decode(src, g.next).value;
      assert before + (Emit(g.v, g.pad) + rest) == after + rest;
    }
  }

  /** The guarded stores of one group's bytes. */
  method StoreGroup(dst: array<bv8>, out: nat, ghost acc: seq<bv8>, a: bv8, b: bv8, c: bv8, pad: nat)
    returns (out': nat)
    requires out < dst.Length && dst[..out] == Prefix(acc, dst.Length - 1)
    modifies dst
    ensures out' < dst.Length && dst[..out'] == Prefix(acc + Keep(a, b, c, pad), dst.Length - 1)
  {
    out' := PutByte(dst, out, acc, a);
    assert acc + [a] + [b] == acc + [a, b] && acc + [a, b] + [c] == acc + [a, b, c];
    if pad < 2 {
      out' := PutByte(dst, out', acc + [a], b);
    }
    if pad < 1 {
      out' := PutByte(dst, out', acc + [a, b], c);
    }
  }

  method PutByte(dst: array<bv8>, out: nat, ghost acc: seq<bv8>, b: bv8) returns (out': nat)
    requires out < dst.Length && dst[..out] == Prefix(acc, dst.Length - 1)
    modifies dst
    ensures out' < dst.Length && dst[..out'] == Prefix(acc + [b], dst.Length - 1)
  {
    out' := out;
    if out < dst.Length - 1 {
      dst[out] := b;
      out' := out + 1;
    }
  }

  // ---------------------------------------------------------------- the check

  function Lower(c: bv8): bv8 { if 65 <= c <= 90 then c + 32 else c }

  const BASIC: seq<bv8> := [98, 97, 115, 105, 99, 32]   // "basic "

  /** The scheme test ignores case; the payload starts after any further spaces. */
  predicate IsBasic(hdr: seq<bv8>)
  {
    |hdr| >= 6 && forall i :: 0 <= i < 6 ==> Lower(hdr[i]) == BASIC[i]
  }

  const BASIC_UPPER: seq<bv8> := [66, 65, 83, 73, 67]   // "BASIC"

  /** Exactly the scheme "basic", each letter in either case, and a space. */
  lemma SchemeInAnyCase(hdr: seq<bv8>)
    ensures IsBasic(hdr) <==>
      |hdr| >= 6 && hdr[5] == SPACE && forall i :: 0 <= i < 5 ==> hdr[i] == BASIC[i] || hdr[i] == BASIC_UPPER[i]
  {
    if |hdr| >= 6 {
      forall i | 0 <= i < 5 ensures Lower(hdr[i]) == BASIC[i] <==> hdr[i] == BASIC[i] || hdr[i] == BASIC_UPPER[i] {}
    }
  }

  function SkipSpaces(s: seq<bv8>): seq<bv8>
  {
    if |s| > 0 && s[0] == SPACE then SkipSpaces(s[1..]) else s
  }

  /** The credentials a header carries, as the check sees them: decoded, cut to the buffer, cut at
      the first NUL. */
  function Credentials(hdr: seq<bv8>): Option<seq<bv8>>
  {
    if !IsBasic(hdr) then None
    else
      var b64 := SkipSpaces(hdr[6..]);
      match Decode(b64, 0)
      case None => None
      case Some(bytes) => Some(CView(Prefix(bytes, DECODED_SIZE - 1)))
  }

  /** With no credentials configured everyone is let in. Otherwise a header is accepted exactly
      when it carries the configured user, a colon, and the configured password; so a configured
      user with a colon in it can never log in. */
  predicate Accepts(hdr: seq<bv8>, user: seq<bv8>, pass: seq<bv8>)
  {
    (user == [] && pass == []) || (COLON !in user && Credentials(hdr) == Some(user + [COLON] + pass))
  }

  method AuthCheck(hdr: seq<bv8>, user: seq<bv8>, pass: seq<bv8>) returns (ok: bool)
    requires 0 !in user && 0 !in pass
    ensures user == [] && pass == [] ==> ok
    ensures ok <==> Accepts(hdr, user, pass)
  {
    if user == [] && pass == [] {
      return true;
    }
    if !IsBasic(hdr) {
      return false;
    }
    var b64 := hdr[6..];
    while |b64| > 0 && b64[0] == SPACE
      invariant SkipSpaces(b64) == SkipSpaces(hdr[6..])
    {
      b64 := b64[1..];
    }
    var decoded := new bv8[DECODED_SIZE];
    var rc := B64Decode(b64, decoded);
    if rc < 0 {
      return false;
    }
    var seen := CView(decoded[..rc]);
    assert Credentials(hdr) == Some(seen);
    var colon := IndexOf(seen, COLON);
    SplitDecides(seen, user, pass);
    if colon == |seen| {
      return false;
    }
    ok := seen[..colon] == user && seen[colon + 1..] == pass;
  }

  /** Comparing the halves around the first colon compares the whole with user, colon, pass. */
  lemma SplitDecides(seen: seq<bv8>, user: seq<bv8>, pass: seq<bv8>)
    ensures var k := IndexOf(seen, COLON);
      (k < |seen| && seen[..k] == user && seen[k + 1..] == pass)
        <==> (COLON !in user && seen == user + [COLON] + pass)
  {
    var k := IndexOf(seen, COLON);
    if k < |seen| {
      Rejoins(seen, k);
    }
    if COLON !in user && seen == user + [COLON] + pass {
      FirstColon(user, pass);
    }
  }

  lemma Rejoins(s: seq<bv8>, k: nat)
    requires k < |s|
    ensures s == s[..k] + [s[k]] + s[k + 1..]
  {
  }

  lemma {:induction false} FirstColon(u: seq<bv8>, p: seq<bv8>)
    requires COLON !in u
    ensures IndexOf(u + [COLON] + p, COLON) == |u|
    ensures (u + [COLON] + p)[..|u|] == u && (u + [COLON] + p)[|u| + 1..] == p
  {
    var s := u + [COLON] + p;
    if |u| > 0 {
      assert s[1..] == u[1..] + [COLON] + p;
      FirstColon(u[1..], p);
    }
  }

  /** A string splits in one way at its first colon. */
  lemma SplitIsUnique(u: seq<bv8>, p: seq<bv8>, u': seq<bv8>, p': seq<bv8>)
    requires COLON !in u && COLON !in u'
    ensures u + [COLON] + p == u' + [COLON] + p' ==> u == u' && p == p'
  {
    FirstColon(u, p);
    FirstColon(u', p');
  }

  const BASIC_SP: seq<bv8> := [66, 97, 115, 105, 99, 32]   // "Basic "

  lemma PayloadOf(payload: seq<bv8>)
    requires |payload| > 0 && payload[0] != SPACE
    ensures IsBasic(BASIC_SP + payload) && SkipSpaces((BASIC_SP + payload)[6..]) == payload
  {
    var hdr := BASIC_SP + payload;
    assert hdr[6..] == payload;
    forall i | 0 <= i < 6 ensures Lower(hdr[i]) == BASIC[i] {
      assert hdr[i] == BASIC_SP[i];
    }
  }

  lemma CredentialsOf(payload: seq<bv8>, plain: seq<bv8>)
    requires |payload| > 0 && payload[0] != SPACE && Decode(payload, 0) == Some(plain)
    requires |plain| <= DECODED_SIZE - 1
    ensures Credentials(BASIC_SP + payload) == Some(CView(plain))
  {
    PayloadOf(payload);
  }

  lemma {:induction false} SpacesSkipped(spaces: seq<bv8>, payload: seq<bv8>)
    requires forall i :: 0 <= i < |spaces| ==> spaces[i] == SPACE
    ensures SkipSpaces(spaces + payload) == SkipSpaces(payload)
  {
    if |spaces| == 0 {
      assert spaces + payload == payload;
    } else {
      assert (spaces + payload)[1..] == spaces[1..] + payload;
      SpacesSkipped(spaces[1..], payload);
    }
  }

  /** Neither the case of the scheme nor the number of spaces after it matters. */
  lemma SchemeVariants(scheme: seq<bv8>, spaces: seq<bv8>, payload: seq<bv8>)
    requires |scheme| == 5 && forall i :: 0 <= i < 5 ==> scheme[i] == BASIC[i] || scheme[i] == BASIC_UPPER[i]
    requires |spaces| > 0 && forall i :: 0 <= i < |spaces| ==> spaces[i] == SPACE
    ensures Credentials(scheme + spaces + payload) == Credentials(BASIC_SP + payload)
  {
    var hdr, plain := scheme + spaces + payload, BASIC_SP + payload;
    forall i | 0 <= i < 5 ensures hdr[i] == scheme[i] && plain[i] == BASIC_SP[i] {}
    SchemeInAnyCase(hdr);
    SchemeInAnyCase(plain);
    assert hdr[6..] == spaces[1..] + payload && plain[6..] == payload;
    SpacesSkipped(spaces[1..], payload);
  }

  lemma NoCredentials(payload: seq<bv8>)
    requires |payload| > 0 && payload[0] != SPACE && Decode(payload, 0) == None
    ensures Credentials(BASIC_SP + payload) == None
  {
    PayloadOf(payload);
  }

  lemma CViewWhole(s: seq<bv8>)
    requires 0 !in s
    ensures CView(s) == s
  {
  }

  // ---------------------------------------------------------------- what a client sends

  /** What parse_header keeps of a header value: the field of the request holds 511 bytes and a NUL. */
  function Stored(value: seq<bv8>): seq<bv8> { Prefix(value, AUTH_SIZE - 1) }

  /** The value a client builds for a user and a password by section 2 of RFC 7617. */
  function HeaderFor(u: seq<bv8>, p: seq<bv8>): seq<bv8> { BASIC_SP + Encode(u + [COLON] + p) }

  /** The value is stored whole. */
  predicate Fits(u: seq<bv8>, p: seq<bv8>) { |HeaderFor(u, p)| <= AUTH_SIZE - 1 }

  lemma FitsBytes(u: seq<bv8>, p: seq<bv8>)
    ensures Fits(u, p) <==> |u| + 1 + |p| <= 378
  {
    EncodeLength(u + [COLON] + p);
  }

  lemma PayloadStarts(u: seq<bv8>, p: seq<bv8>)
    ensures var e := Encode(u + [COLON] + p); |e| > 0 && e[0] != SPACE
  {
    FirstIsLetter(u + [COLON] + p);
  }

  lemma FittingCredentials(u: seq<bv8>, p: seq<bv8>)
    requires Fits(u, p)
    ensures Credentials(Stored(HeaderFor(u, p))) == Some(CView(u + [COLON] + p))
  {
    var plain := u + [COLON] + p;
    var payload := Encode(plain);
    PayloadStarts(u, p);
    FitsBytes(u, p);
    assert payload[0..] == payload;
    DecodeEncode(payload, 0, plain);
    CredentialsOf(payload, plain);
  }

  lemma CutCredentials(u: seq<bv8>, p: seq<bv8>)
    requires !Fits(u, p)
    ensures Credentials(Stored(HeaderFor(u, p))) == None
  {
    var plain := u + [COLON] + p;
    var n := AUTH_SIZE - 1 - |BASIC_SP|;
    var payload := Encode(plain)[..n];
    PayloadStarts(u, p);
    assert Stored(HeaderFor(u, p)) == BASIC_SP + payload;
    assert payload[0..] == Encode(plain)[..n];
    CutEncoding(payload, 0, plain, n);
    NoCredentials(payload);
  }

  /** The stored header carries exactly the pair it encodes, up to a NUL in it, when it was stored whole, and
      nothing that decodes when it was cut. */
  lemma EncodedCredentials(u: seq<bv8>, p: seq<bv8>)
    ensures Credentials(Stored(HeaderFor(u, p))) == if Fits(u, p) then Some(CView(u + [COLON] + p)) else None
    ensures 0 !in u && 0 !in p ==> CView(u + [COLON] + p) == u + [COLON] + p
  {
    if Fits(u, p) { FittingCredentials(u, p); } else { CutCredentials(u, p); }
    if 0 !in u && 0 !in p { CViewWhole(u + [COLON] + p); }
  }

  /** Basic authentication, from the value a client builds: it is let in if and only if the pair is the
      configured one and the value was stored whole, that is, the pair has at most 378 bytes with its
      colon; or everyone is, because neither is configured. */
  lemma AcceptsExactlyThePair(u: seq<bv8>, p: seq<bv8>, user: seq<bv8>, pass: seq<bv8>)
    requires 0 !in u && 0 !in p && COLON !in u
    requires 0 !in user && 0 !in pass
    ensures Accepts(Stored(HeaderFor(u, p)), user, pass)
       <==> (user == [] && pass == []) || (u == user && p == pass && Fits(u, p))
    ensures Fits(u, p) <==> |u| + 1 + |p| <= 378
  {
    EncodedCredentials(u, p);
    FitsBytes(u, p);
    if COLON !in user {
      SplitIsUnique(u, p, user, pass);
    }
  }

  /** A configured pair of 379 bytes, which its own header does not let in. */
  lemma ConfiguredPairRefused() returns (u: seq<bv8>, p: seq<bv8>)
    ensures |u| + 1 + |p| == 379 && 0 !in u && 0 !in p && COLON !in u
    ensures !Accepts(Stored(HeaderFor(u, p)), u, p)
  {
    u, p := [97], seq(377, _ => 98);
    AcceptsExactlyThePair(u, p, u, p);
  }
}
