/** Reading request headers in chunks until the blank line (read_headers in src/http.c). */
module HttpHeaders {
  import opened Wrappers

  const RAW_BUF_SIZE: nat := 8192
  const READ_SIZE: nat := 4096
  const CR: bv8 := 13
  const LF: bv8 := 10

  predicate BlankLineAt(s: seq<bv8>, i: nat)
  {
    i + 4 <= |s| && s[i] == CR && s[i + 1] == LF && s[i + 2] == CR && s[i + 3] == LF
  }

  /** Where the first blank line found from i on ends. */
  function HeadEnd(s: seq<bv8>, i: nat): (e: Option<nat>)
    ensures e.Some? ==> i + 4 <= e.value <= |s| && BlankLineAt(s, e.value - 4)
    ensures e.Some? ==> forall k: nat :: i <= k < e.value - 4 ==> !BlankLineAt(s, k)
    ensures e == None ==> forall k: nat :: i <= k ==> !BlankLineAt(s, k)
    decreases |s| - i
  {
    if i + 4 > |s| then None
    else if BlankLineAt(s, i) then Some(i + 4)
    else HeadEnd(s, i + 1)
  }

  /** Looking again at the last three bytes already searched is enough: no blank line that spans
      two reads is missed. */
  lemma RescanMissesNothing(s: seq<bv8>, prev: nat)
    requires prev <= |s| && HeadEnd(s[..prev], 0) == None
    ensures HeadEnd(s, 0) == HeadEnd(s, if prev >= 3 then prev - 3 else 0)
  {
    forall k: nat | k + 4 <= prev ensures !BlankLineAt(s, k) {
      assert !BlankLineAt(s[..prev], k);
    }
    assert HeadEnd(s, 0).Some? ==> HeadEnd(s, 0).value > prev;
  }

  /** A prefix long enough to hold the first blank line has the same head. */
  lemma HeadOfPrefix(s: seq<bv8>, n: nat)
    requires n <= |s|
    ensures HeadEnd(s[..n], 0)
         == match HeadEnd(s, 0) case Some(e) => (if e <= n then Some(e) else None) case None => None
  {
    forall k: nat ensures BlankLineAt(s[..n], k) <==> k + 4 <= n && BlankLineAt(s, k) {
    }
    var h := HeadEnd(s[..n], 0);
    if h.Some? { assert BlankLineAt(s, h.value - 4); }
    if HeadEnd(s, 0).Some? && HeadEnd(s, 0).value <= n {
      assert BlankLineAt(s[..n], HeadEnd(s, 0).value - 4);
    }
  }

  function Rescan(prev: nat): nat { if prev >= 3 then prev - 3 else 0 }

  /** After a read, scanning from the overlap finds the stream's head if it has fully arrived. */
  lemma ScanAfterRead(s: seq<bv8>, prev: nat, n: nat)
    requires prev <= n <= |s| && HeadEnd(s[..prev], 0) == None
    ensures HeadEnd(s[..n], Rescan(prev)) == HeadEnd(s[..n], 0)
    ensures HeadEnd(s[..n], 0).Some? ==> HeadEnd(s, 0) == HeadEnd(s[..n], 0)
    ensures HeadEnd(s[..n], 0) == None && HeadEnd(s, 0).Some? ==> n < HeadEnd(s, 0).value
  {
    assert s[..n][..prev] == s[..prev];
    RescanMissesNothing(s[..n], prev);
    HeadOfPrefix(s, n);
  }

  /** A connection: the bytes the peer will have sent. A read delivers any positive number of the
      next ones up to what is asked for; it delivers none at the end of the stream, or on an error,
      which a reliable connection never has. */
  class Transport {
    const reliable: bool
    var data: seq<bv8>

    constructor (data: seq<bv8>, reliable: bool)
      ensures this.data == data && this.reliable == reliable
    {
      this.data, this.reliable := data, reliable;
    }

    method Read(want: nat) returns (chunk: seq<bv8>)
      requires want > 0
      modifies this
      ensures |chunk| <= want && chunk <= old(data) && data == old(data)[|chunk|..]
      ensures reliable && old(data) != [] ==> chunk != []
    {
      var most := if |data| <= want then |data| else want;
      var n: nat :| n <= most && (reliable && data != [] ==> n > 0);
      chunk := data[..n];
      data := data[n..];
    }
  }

  /** What a call may return for a stream, however the stream is cut into reads. */
  predicate Outcome(s: seq<bv8>, max: nat, reliable: bool, rc: int)
    requires max > 0
  {
    var head := HeadEnd(s, 0);
    && (rc == -1 || (0 <= rc <= max && rc <= |s|))
    && (rc >= 0 ==> head == Some(rc) || (max - 1 <= rc && (head.Some? ==> rc < head.value)))
    && (reliable ==> (rc == -1 <==> head == None && |s| < max - 1))
    && (max == 1 ==> rc == 0)
    && (reliable && head.Some? && head.value < max ==> rc == head.value)
  }

  lemma OutcomeFound(s: seq<bv8>, max: nat, reliable: bool, e: nat)
    requires 0 < max && HeadEnd(s, 0) == Some(e) && e <= max
    ensures Outcome(s, max, reliable, e)
  {
  }

  lemma OutcomeShort(s: seq<bv8>, max: nat, reliable: bool, n: nat)
    requires n + 1 < max && n <= |s| && HeadEnd(s[..n], 0) == None && (reliable ==> n == |s|)
    ensures Outcome(s, max, reliable, -1)
  {
    assert n == |s| ==> s[..n] == s;
  }

  lemma OutcomeFull(s: seq<bv8>, max: nat, reliable: bool, n: nat)
    requires 0 < max <= n + 1 && n <= max && n <= |s| && (HeadEnd(s, 0).Some? ==> n < HeadEnd(s, 0).value)
    requires max == 1 ==> n == 0
    ensures Outcome(s, max, reliable, n)
  {
  }

  // ---------------------------------------------------------------- the loop over given reads

  /** How many bytes a read delivers that is offered `cut`: at least one and at most `most`. */
  function Delivered(cuts: seq<nat>, most: nat): (k: nat)
    requires most > 0
    ensures 1 <= k <= most
  {
    if |cuts| == 0 || cuts[0] > most then most else if cuts[0] == 0 then 1 else cuts[0]
  }

  function Rest(cuts: seq<nat>): seq<nat> { if |cuts| == 0 then cuts else cuts[1..] }

  /** The most the next read of a stream of `len` bytes may deliver. */
  function Most(len: nat, max: nat, n: nat): nat
    requires n <= len && n <= max
  {
    var want := if max - n > READ_SIZE then READ_SIZE else max - n;
    if len - n < want then len - n else want
  }

  /** What a scan finds after a read has brought the loop from one position to another. */
  type Finder = (nat, nat) -> Option<nat>

  /** What the loop returns on a reliable connection, n bytes in, when its reads deliver `cuts`. */
  function Loop(len: nat, max: nat, n: nat, cuts: seq<nat>, find: Finder): int
    requires n <= len && n <= max
    decreases max - n
  {
    if n + 1 >= max then n
    else if Most(len, max, n) == 0 then -1
    else
      var m := n + Delivered(cuts, Most(len, max, n));
      match find(n, m)
      case Some(e) => e
      case None => Loop(len, max, m, Rest(cuts), find)
  }

  /** The scan of read_headers over a stream: from three bytes before the read to its end. */
  function Scanner(s: seq<bv8>): Finder
  {
    (n: nat, m: nat) => if m <= |s| then HeadEnd(s[..m], Rescan(n)) else None
  }

  function ReadFrom(s: seq<bv8>, max: nat, n: nat, cuts: seq<nat>): int
    requires n <= |s| && n <= max
  {
    Loop(|s|, max, n, cuts, Scanner(s))
  }

  /** However the stream is cut, the loop returns one of the outcomes. */
  lemma {:induction false} ReadFromOutcome(s: seq<bv8>, max: nat, n: nat, cuts: seq<nat>)
    requires n + 1 < max && n <= |s| && HeadEnd(s[..n], 0) == None
    ensures Outcome(s, max, true, ReadFrom(s, max, n, cuts))
    decreases max - n
  {
    var most := Most(|s|, max, n);
    if most == 0 {
      OutcomeShort(s, max, true, n);
    } else {
      var m := n + Delivered(cuts, most);
      ScanAfterRead(s, n, m);
      var head := HeadEnd(s[..m], Rescan(n));
      if head.Some? {
        OutcomeFound(s, max, true, head.value);
      } else if m + 1 < max {
        ReadFromOutcome(s, max, m, Rest(cuts));
      } else {
        OutcomeFull(s, max, true, m);
        assert Loop(|s|, max, m, Rest(cuts), Scanner(s)) == m;
      }
    }
  }

  /** Whatever the reads, a head that ends before byte max is returned exactly. */
  lemma ReadsHead(s: seq<bv8>, max: nat, cuts: seq<nat>)
    requires HeadEnd(s, 0).Some? && HeadEnd(s, 0).value < max
    ensures ReadFrom(s, max, 0, cuts) == HeadEnd(s, 0).value
  {
    ReadFromOutcome(s, max, 0, cuts);
  }

  /** Reads of one byte each, then one of `last`. */
  function Bytewise(count: nat, last: nat): seq<nat>
  {
    if count == 0 then [last] else [1] + Bytewise(count - 1, last)
  }

  /** Bytewise reads that find nothing reach any position short of the end of the buffer. */
  lemma {:induction false} BytewiseReads(len: nat, max: nat, n: nat, count: nat, last: nat, find: Finder)
    requires n + count + 2 <= max <= len
    requires FindsNothing(find, n + count)
    ensures Loop(len, max, n, Bytewise(count, last), find) == Loop(len, max, n + count, [last], find)
    decreases count
  {
    if count > 0 {
      var cuts := Bytewise(count, last);
      assert cuts[0] == 1 && cuts[1..] == Bytewise(count - 1, last);
      OneByte(len, max, n, cuts, find);
      BytewiseReads(len, max, n + 1, count - 1, last, find);
    }
  }

  predicate FindsNothing(find: Finder, n: nat) { forall k, m :: 0 <= k < m <= n ==> find(k, m) == None }

  lemma OneByte(len: nat, max: nat, n: nat, cuts: seq<nat>, find: Finder)
    requires n + 2 <= max <= len && |cuts| > 0 && cuts[0] == 1 && find(n, n + 1) == None
    ensures Loop(len, max, n, cuts, find) == Loop(len, max, n + 1, cuts[1..], find)
  {
  }

  lemma LastRead(len: nat, max: nat, n: nat, last: nat, find: Finder)
    requires n + 2 == max <= len && 1 <= last <= 2 && (find(n, n + last) == None || find(n, n + last) == Some(n + last))
    ensures Loop(len, max, n, [last], find) == n + last
  {
    assert Loop(len, max, n + last, Rest([last]), find) == n + last;
  }

  /** No scan before byte max finds a head that does not end before it. */
  lemma NothingFound(s: seq<bv8>, max: nat, n: nat, m: nat)
    requires n <= m <= |s| && m <= max && n < max && !(HeadEnd(s, 0).Some? && HeadEnd(s, 0).value < max)
    ensures Scanner(s)(n, m) == None || (m == max && Scanner(s)(n, m) == Some(max))
  {
    HeadOfPrefix(s, n);
    ScanAfterRead(s, n, m);
    HeadOfPrefix(s, m);
  }

  /** The two ways to fill the buffer: a last read of one byte stops one byte short of it, a last read of
      two fills it. */
  lemma TwoResults(s: seq<bv8>, max: nat) returns (a: seq<nat>, b: seq<nat>)
    requires 2 <= max <= |s| && !(HeadEnd(s, 0).Some? && HeadEnd(s, 0).value < max)
    ensures ReadFrom(s, max, 0, a) == max - 1 && ReadFrom(s, max, 0, b) == max
  {
    a := OneResultOf(s, max, 1);
    b := OneResultOf(s, max, 2);
  }

  lemma OneResultOf(s: seq<bv8>, max: nat, last: nat) returns (cuts: seq<nat>)
    requires 2 <= max <= |s| && !(HeadEnd(s, 0).Some? && HeadEnd(s, 0).value < max) && 1 <= last <= 2
    ensures ReadFrom(s, max, 0, cuts) == max - 2 + last
  {
    forall k, m | 0 <= k < m <= max - 2 ensures Scanner(s)(k, m) == None { NothingFound(s, max, k, m); }
    NothingFound(s, max, max - 2, max - 2 + last);
    cuts := FillingReads(|s|, max, last, Scanner(s));
  }

  lemma FillingReads(len: nat, max: nat, last: nat, find: Finder) returns (cuts: seq<nat>)
    requires 2 <= max <= len && 1 <= last <= 2 && FindsNothing(find, max - 2)
    requires find(max - 2, max - 2 + last) == None || find(max - 2, max - 2 + last) == Some(max - 2 + last)
    ensures Loop(len, max, 0, cuts, find) == max - 2 + last
  {
    cuts := Bytewise(max - 2, last);
    BytewiseReads(len, max, 0, max - 2, last, find);
    LastRead(len, max, max - 2, last, find);
  }

  /** The result does not depend on how the stream is cut into reads. */
  ghost predicate FixedByStream(s: seq<bv8>, max: nat)
  {
    forall a, b :: ReadFrom(s, max, 0, a) == ReadFrom(s, max, 0, b)
  }

  lemma OneResult(s: seq<bv8>, max: nat, a: seq<nat>, b: seq<nat>)
    requires 2 <= max && ((HeadEnd(s, 0).Some? && HeadEnd(s, 0).value < max) || |s| < max)
    ensures ReadFrom(s, max, 0, a) == ReadFrom(s, max, 0, b)
  {
    ReadFromOutcome(s, max, 0, a);
    ReadFromOutcome(s, max, 0, b);
  }

  /** On a reliable connection the result is fixed by the stream alone exactly when the head ends before
      byte max, or the stream is shorter than the buffer, or the buffer is too small for any read. */
  lemma OutcomeFixedIff(s: seq<bv8>, max: nat)
    ensures FixedByStream(s, max)
       <==> ((HeadEnd(s, 0).Some? && HeadEnd(s, 0).value < max) || |s| < max || max <= 1)
  {
    if max >= 2 {
      if (HeadEnd(s, 0).Some? && HeadEnd(s, 0).value < max) || |s| < max {
        forall a, b ensures ReadFrom(s, max, 0, a) == ReadFrom(s, max, 0, b) { OneResult(s, max, a, b); }
      } else {
        var a, b := TwoResults(s, max);
      }
    }
  }

  // ---------------------------------------------------------------- the method

  /** One read appended to the buffer. */
  method Append(t: Transport, buf: array<bv8>, n: nat, want: nat, ghost s: seq<bv8>) returns (n': nat)
    requires 0 < want && n + want <= buf.Length && n <= |s| && t.data == s[n..] && buf[..n] == s[..n]
    modifies t, buf
    ensures n <= n' <= n + want && n' <= |s| && t.data == s[n'..] && buf[..n'] == s[..n']
    ensures t.reliable && n < |s| ==> n < n'
  {
    var chunk := t.Read(want);
    forall k | 0 <= k < |chunk| {
      buf[n + k] := chunk[k];
    }
    n' := n + |chunk|;
  }

  /** A head that ends within max - 1 bytes is returned exactly; a stream without one that is shorter
      than that is an error; otherwise max - 1 or max bytes come back. On a reliable connection the
      result is that of the loop over what the reads delivered. Every index, and the final NUL, stay
      inside the buffer. */
  method ReadHeaders(t: Transport, buf: array<bv8>, max: nat) returns (rc: int, ghost cuts: seq<nat>)
    requires 0 < max < buf.Length
    modifies t, buf
    ensures Outcome(old(t.data), max, t.reliable, rc)
    ensures t.reliable ==> rc == ReadFrom(old(t.data), max, 0, cuts)
    ensures rc >= 0 ==> buf[..rc] == old(t.data)[..rc] && buf[rc] == 0
  {
    ghost var s := t.data;
    var n: nat := 0;
    cuts := [];
    NoReadYet(|s|, max, Scanner(s));
    while n + 1 < max
      invariant n <= max && (max == 1 ==> n == 0) && InLoop(t, buf, s, max, cuts, n)
      decreases max - n
    {
      var done;
      done, rc, n, cuts := Turn(t, buf, max, n, s, cuts);
      if done {
        if rc >= 0 { buf[rc] := 0; }
        return;
      }
    }
    OutcomeFull(s, max, t.reliable, n);
    if t.reliable { ReadsSoFar(|s|, max, cuts, n, Scanner(s)); }
    buf[n] := 0;
    return n, cuts;
  }

  /** The loop is n bytes in, by the reads `cuts`, and has found no head. */
  ghost predicate InLoop(t: Transport, buf: array<bv8>, s: seq<bv8>, max: nat, cuts: seq<nat>, n: nat)
    reads t, buf
  {
    && n <= max < buf.Length && n <= |s| && t.data == s[n..] && buf[..n] == s[..n]
    && HeadEnd(s[..n], 0) == None && (HeadEnd(s, 0).Some? ==> n < HeadEnd(s, 0).value)
    && (t.reliable ==> LeadsTo(|s|, max, cuts, n, Scanner(s)))
  }

  /** One turn of the loop, which returns, or goes on further in. */
  method Turn(t: Transport, buf: array<bv8>, max: nat, prev: nat, ghost s: seq<bv8>, ghost before: seq<nat>)
    returns (done: bool, rc: int, n: nat, ghost cuts: seq<nat>)
    requires prev + 1 < max && InLoop(t, buf, s, max, before, prev)
    modifies t, buf
    ensures !done ==> prev < n && InLoop(t, buf, s, max, cuts, n)
    ensures done ==> Outcome(s, max, t.reliable, rc) && (t.reliable ==> rc == ReadFrom(s, max, 0, cuts))
    ensures done && rc >= 0 ==> rc <= max && buf[..rc] == s[..rc]
  {
    var found;
    n, found := ReadAndScan(t, buf, max, prev, s);
    rc, cuts := -1, before;
    if n == prev {
      OutcomeShort(s, max, t.reliable, n);
      if t.reliable { ReadsSoFar(|s|, max, cuts, n, Scanner(s)); }
      return true, rc, n, cuts;
    }
    if t.reliable { OneMoreRead(|s|, max, before, prev, n, Scanner(s)); }
    cuts := before + [n - prev];
    if found.Some? {
      rc := found.value;
      OutcomeFound(s, max, t.reliable, found.value);
    }
    done := found.Some?;
  }

  /** The reads `cuts` bring the loop n bytes in. */
  ghost predicate LeadsTo(len: nat, max: nat, cuts: seq<nat>, n: nat, find: Finder)
    requires n <= len && n <= max
  {
    forall rest :: Loop(len, max, 0, cuts + rest, find) == Loop(len, max, n, rest, find)
  }

  lemma NoReadYet(len: nat, max: nat, find: Finder)
    ensures LeadsTo(len, max, [], 0, find)
  {
    forall rest: seq<nat> ensures Loop(len, max, 0, [] + rest, find) == Loop(len, max, 0, rest, find) {
      assert [] + rest == rest;
    }
  }

  lemma OneMoreRead(len: nat, max: nat, cuts: seq<nat>, n: nat, m: nat, find: Finder)
    requires n + 1 < max && n < m <= len && m - n <= Most(len, max, n) && LeadsTo(len, max, cuts, n, find)
    ensures m <= max
    ensures find(n, m) == None ==> LeadsTo(len, max, cuts + [m - n], m, find)
    ensures find(n, m).Some? ==> Loop(len, max, 0, cuts + [m - n], find) == find(n, m).value
  {
    forall rest: seq<nat>
      ensures Loop(len, max, 0, cuts + [m - n] + rest, find)
           == match find(n, m) case Some(e) => e case None => Loop(len, max, m, rest, find)
    {
      assert cuts + [m - n] + rest == cuts + ([m - n] + rest);
      assert ([m - n] + rest)[1..] == rest;
    }
    assert cuts + [m - n] + [] == cuts + [m - n];
  }

  lemma ReadsSoFar(len: nat, max: nat, cuts: seq<nat>, n: nat, find: Finder)
    requires n <= len && n <= max && LeadsTo(len, max, cuts, n, find)
    ensures n + 1 >= max ==> Loop(len, max, 0, cuts, find) == n
    ensures n + 1 < max && n == len ==> Loop(len, max, 0, cuts, find) == -1
  {
    assert cuts + [] == cuts;
    assert Loop(len, max, 0, cuts + [], find) == Loop(len, max, n, [], find);
  }

  /** One turn of the loop: a read of at most 4096 bytes, and the search of what it brought. */
  method ReadAndScan(t: Transport, buf: array<bv8>, max: nat, prev: nat, ghost s: seq<bv8>)
    returns (n: nat, found: Option<nat>)
    requires prev + 1 < max < buf.Length && prev <= |s| && t.data == s[prev..] && buf[..prev] == s[..prev]
    requires HeadEnd(s[..prev], 0) == None
    modifies t, buf
    ensures prev <= n <= |s| && n - prev <= Most(|s|, max, prev) && t.data == s[n..] && buf[..n] == s[..n]
    ensures n == prev ==> found == None && (t.reliable ==> n == |s|)
    ensures n > prev ==> found == HeadEnd(s[..n], 0) == Scanner(s)(prev, n)
    ensures found.Some? ==> HeadEnd(s, 0) == found
    ensures found == None && HeadEnd(s, 0).Some? ==> n < HeadEnd(s, 0).value
  {
    var want := if max - prev > READ_SIZE then READ_SIZE else max - prev;
    n := Append(t, buf, prev, want, s);
    if n == prev {
      HeadOfPrefix(s, prev);
      return n, None;
    }
    found := ScanNew(buf, prev, n, s);
  }

  /** Searches what the last read brought, and the three bytes before it. */
  method ScanNew(buf: array<bv8>, prev: nat, n: nat, ghost s: seq<bv8>) returns (found: Option<nat>)
    requires prev <= n <= |s| && n <= buf.Length && buf[..n] == s[..n] && HeadEnd(s[..prev], 0) == None
    ensures found == HeadEnd(s[..n], 0) == Scanner(s)(prev, n)
    ensures found.Some? ==> HeadEnd(s, 0) == found
    ensures found == None && HeadEnd(s, 0).Some? ==> n < HeadEnd(s, 0).value
  {
    ScanAfterRead(s, prev, n);
    found := Scan(buf, Rescan(prev), n);
  }

  /** The scan over the bytes read so far. */
  method Scan(buf: array<bv8>, scan: nat, n: nat) returns (e: Option<nat>)
    requires n <= buf.Length
    ensures e == HeadEnd(buf[..n], scan)
  {
    var i := scan;
    while i + 3 < n
      invariant HeadEnd(buf[..n], scan) == HeadEnd(buf[..n], i)
    {
      if buf[i] == CR && buf[i + 1] == LF && buf[i + 2] == CR && buf[i + 3] == LF {
        return Some(i + 4);
      }
      i := i + 1;
    }
    return None;
  }
}
