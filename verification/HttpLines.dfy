/** Cutting a request head into lines in place (the line loop of http_parse_request in src/http.c). */
module HttpLines {
  import opened Wrappers
  import opened CString
  import opened HttpHeaders

  predicate CrlfAt(s: seq<bv8>, k: nat) { k + 1 < |s| && s[k] == CR && s[k + 1] == LF }

  /** The position of the first CR LF from i on, or the length. */
  function FindCrlf(s: seq<bv8>, i: nat): (k: nat)
    requires i <= |s|
    ensures i <= k <= |s| && (forall j :: i <= j < k ==> !CrlfAt(s, j)) && (k < |s| ==> CrlfAt(s, k))
    decreases |s| - i
  {
    if i == |s| || CrlfAt(s, i) then i else FindCrlf(s, i + 1)
  }

  /** The lines of a text, the last of which may lack its CR LF. */
  function Lines(s: seq<bv8>): seq<seq<bv8>>
    decreases |s|
  {
    if |s| == 0 then []
    else
      var k := FindCrlf(s, 0);
      if k == |s| then [s] else [s[..k]] + Lines(s[k + 2..])
  }

  const CRLF: seq<bv8> := [CR, LF]

  /** A request head: each line with its CR LF, then a blank line. */
  function Head(lines: seq<seq<bv8>>): seq<bv8>
  {
    if |lines| == 0 then CRLF else lines[0] + CRLF + Head(lines[1..])
  }

  predicate NoCrlf(line: seq<bv8>) { forall k :: 0 <= k < |line| ==> !CrlfAt(line, k) }

  predicate GoodLine(line: seq<bv8>) { line != [] && 0 !in line && NoCrlf(line) }

  predicate GoodLines(lines: seq<seq<bv8>>) { forall i :: 0 <= i < |lines| ==> GoodLine(lines[i]) }

  /** The first CR LF of a line followed by one is that one. */
  lemma LineEnds(line: seq<bv8>, rest: seq<bv8>)
    requires NoCrlf(line)
    ensures FindCrlf(line + CRLF + rest, 0) == |line|
    ensures (line + CRLF + rest)[..|line|] == line && (line + CRLF + rest)[|line| + 2..] == rest
  {
    var s := line + CRLF + rest;
    assert CrlfAt(s, |line|);
    forall k | 0 <= k < |line| ensures !CrlfAt(s, k) {
      assert !CrlfAt(line, k);
    }
  }

  /** The loop sees every line of a head, and the blank line after them. */
  lemma {:induction false} HeadLines(lines: seq<seq<bv8>>)
    requires GoodLines(lines)
    ensures Lines(Head(lines)) == lines + [[]]
  {
    if |lines| == 0 {
      LineEnds([], []);
      assert [] + CRLF + [] == CRLF;
    } else {
      assert GoodLine(lines[0]);
      LineEnds(lines[0], Head(lines[1..]));
      HeadLines(lines[1..]);
      assert [lines[0]] + (lines[1..] + [[]]) == lines + [[]];
    }
  }

  lemma {:induction false} HeadHasNoNul(lines: seq<seq<bv8>>)
    requires GoodLines(lines)
    ensures 0 !in Head(lines)
  {
    if |lines| > 0 {
      assert GoodLine(lines[0]);
      HeadHasNoNul(lines[1..]);
    }
  }

  lemma HeadEndIs(s: seq<bv8>, e: nat)
    requires 4 <= e <= |s| && BlankLineAt(s, e - 4) && forall k: nat :: k < e - 4 ==> !BlankLineAt(s, k)
    ensures HeadEnd(s, 0) == Some(e)
  {
  }

  /** The first blank line of a stream that starts with a head is the head's own. */
  lemma {:induction false} HeadEndsAtHead(lines: seq<seq<bv8>>, body: seq<bv8>)
    requires |lines| > 0 && GoodLines(lines)
    ensures HeadEnd(Head(lines) + body, 0) == Some(|Head(lines)|)
  {
    var line, rest := lines[0], Head(lines[1..]) + body;
    var s := Head(lines) + body;
    assert GoodLine(line);
    assert s == line + CRLF + rest;
    if |lines| == 1 {
      assert rest == CRLF + body;
      NoBlankBefore(line, rest, |line|);
      HeadEndIs(s, |line| + 4);
    } else {
      HeadEndsAtHead(lines[1..], body);
      assert GoodLine(lines[1]);
      var e := |Head(lines[1..])|;
      assert rest[..|lines[1]|] == lines[1];
      NextLineStarts(lines[1], Head(lines[1..]) + body);
      BlankShifts(line, rest, e);
      HeadEndIs(s, |line| + 2 + e);
    }
  }

  /** A line is not empty, so no blank line starts at the end of the line before it. */
  lemma NextLineStarts(line: seq<bv8>, rest: seq<bv8>)
    requires GoodLine(line) && |rest| >= |line| + 2 && rest[..|line|] == line && rest[|line|] == CR
    ensures !CrlfAt(rest, 0)
  {
    assert rest[0] == line[0];
    if |line| > 1 {
      assert rest[1] == line[1] && !CrlfAt(line, 0);
    }
  }

  lemma NoBlankBefore(line: seq<bv8>, rest: seq<bv8>, n: nat)
    requires NoCrlf(line)
    requires n <= |line|
    ensures forall k: nat :: k < n ==> !BlankLineAt(line + CRLF + rest, k)
  {
    LineEnds(line, rest);
    forall k: nat | k < n ensures !BlankLineAt(line + CRLF + rest, k) {
      assert !CrlfAt(line + CRLF + rest, k);
    }
  }

  lemma BlankShifts(line: seq<bv8>, rest: seq<bv8>, e: nat)
    requires NoCrlf(line) && !CrlfAt(rest, 0) && HeadEnd(rest, 0) == Some(e)
    ensures var s := line + CRLF + rest; var n := |line| + 2;
      BlankLineAt(s, n + e - 4) && forall k: nat :: k < n + e - 4 ==> !BlankLineAt(s, k)
  {
    var s := line + CRLF + rest;
    var n := |line| + 2;
    assert s[n..] == rest;
    NoBlankBefore(line, rest, |line|);
    forall k: nat | k < n + e - 4 ensures !BlankLineAt(s, k) {
      if k >= n { assert !BlankLineAt(rest, k - n); }
    }
    assert BlankLineAt(rest, e - 4);
  }

  /** A head that ends before byte max comes out of the reads as exactly the lines it was made of,
      however it is cut and whatever follows it. */
  lemma HeadParsesBack(lines: seq<seq<bv8>>, body: seq<bv8>, max: nat, reliable: bool, rc: int)
    requires |lines| > 0 && GoodLines(lines) && |Head(lines)| < max
    requires Outcome(Head(lines) + body, max, reliable, rc) && rc >= 0
    ensures rc == |Head(lines)| && Lines(CView((Head(lines) + body)[..rc])) == lines + [[]]
  {
    HeadEndsAtHead(lines, body);
    assert (Head(lines) + body)[..|Head(lines)|] == Head(lines);
    HeadHasNoNul(lines);
    HeadLines(lines);
    CViewAll(Head(lines));
  }

  lemma CViewAll(s: seq<bv8>)
    requires 0 !in s
    ensures CView(s) == s
  {
  }

  // ---------------------------------------------------------------- the loop

  /** c is what the string functions see of the bytes s: those before the first NUL. */
  predicate IsString(s: seq<bv8>, c: seq<bv8>)
  {
    && |c| <= |s| && s[..|c|] == c
    && (forall j :: 0 <= j < |c| ==> s[j] != 0)
    && (|c| < |s| ==> s[|c|] == 0)
  }

  lemma ViewIsString(s: seq<bv8>)
    ensures IsString(s, CView(s))
  {
    var c := CView(s);
    forall j | 0 <= j < |c| ensures s[j] != 0 { assert c[j] in c; }
  }

  lemma StringDrop(s: seq<bv8>, c: seq<bv8>, k: nat)
    requires IsString(s, c) && k <= |c|
    ensures IsString(s[k..], c[k..])
  {
    assert s[k..][..|c| - k] == c[k..];
  }

  /** A line end that starts inside a C string lies inside it. */
  lemma LineEndInside(s: seq<bv8>, c: seq<bv8>, j: nat)
    requires IsString(s, c) && j < |c|
    ensures CrlfAt(c, j) <==> CrlfAt(s, j)
  {
    assert c[j] == s[j];
    if j + 1 < |c| { assert c[j + 1] == s[j + 1]; }
  }

  /** strstr(line, "\r\n") on the string at `at`; its end when there is none. */
  method Strstr(buf: array<bv8>, at: nat, n: nat, ghost c: seq<bv8>) returns (end: nat, found: bool)
    requires at <= n < buf.Length && buf[n] == 0 && IsString(buf[at..n], c)
    ensures end <= n && FindCrlf(c, 0) == end - at && found == (end - at < |c|)
  {
    ghost var s := buf[at..n];
    end := at;
    while buf[end] != 0
      invariant at <= end <= at + |c| && FindCrlf(c, 0) == FindCrlf(c, end - at)
      decreases n - end
    {
      assert s[end - at] == buf[end];
      LineEndInside(s, c, end - at);
      if buf[end] == CR && buf[end + 1] == LF {
        assert end + 1 < n && s[end + 1 - at] == buf[end + 1];
        return end, true;
      }
      end := end + 1;
    }
    assert end < n ==> s[end - at] == buf[end];
    return end, false;
  }

  /** The first line of a string, and the string after it. */
  lemma FirstLine(c: seq<bv8>)
    requires c != []
    ensures var k := FindCrlf(c, 0); var next := if k < |c| then k + 2 else k;
      next <= |c| && Lines(c) == [c[..k]] + Lines(c[next..])
  {
    var k := FindCrlf(c, 0);
    if k == |c| {
      assert c[..k] == c && c[k..] == [] && [c] + [] == [c];
    }
  }

  /** One line, ended with a NUL written over its carriage return, and where the next one starts. */
  method TakeLine(buf: array<bv8>, at: nat, n: nat, ghost c: seq<bv8>) returns (line: seq<bv8>, next: nat)
    requires at < n < buf.Length && buf[n] == 0 && IsString(buf[at..n], c) && c != []
    modifies buf
    ensures at < next <= at + |c| && next <= n && buf[n] == 0
    ensures IsString(buf[next..n], c[next - at..]) && Lines(c) == [line] + Lines(c[next - at..])
  {
    ghost var s := buf[at..n];
    var end, found := Strstr(buf, at, n, c);
    FirstLine(c);
    line := buf[at..end];
    assert line == s[..end - at];
    assert s[..|c|][..end - at] == s[..end - at];
    next := end;
    if found {
      buf[end] := 0;
      next := end + 2;
    }
    StringDrop(s, c, next - at);
    assert buf[next..n] == s[next - at..];
  }

  /** Cuts the string of n bytes in the buffer into its lines. */
  method SplitLines(buf: array<bv8>, n: nat) returns (lines: seq<seq<bv8>>)
    requires n < buf.Length && buf[n] == 0
    modifies buf
    ensures lines == Lines(CView(old(buf[..n])))
  {
    lines := [];
    var at: nat := 0;
    ghost var c := CView(buf[..n]);
    ghost var all := Lines(c);
    ViewIsString(buf[..n]);
    assert buf[0..n] == buf[..n];
    while buf[at] != 0
      invariant at <= n && buf[n] == 0 && IsString(buf[at..n], c)
      invariant lines + Lines(c) == all
      decreases n - at
    {
      assert buf[at..n][0] == buf[at];
      var line, next := TakeLine(buf, at, n, c);
      c := c[next - at..];
      Regroup(lines, line, Lines(c));
      lines := lines + [line];
      at := next;
    }
    assert at < n ==> buf[at..n][0] == buf[at];
  }

  lemma Regroup(lines: seq<seq<bv8>>, line: seq<bv8>, rest: seq<seq<bv8>>)
    ensures lines + ([line] + rest) == (lines + [line]) + rest
  {
  }

  /** http_parse_request up to the lines it works through: reads the head into a buffer of 8192 bytes,
      then cuts it. Nothing is read, or there is an error: no lines. */
  method ParseRequest(t: Transport) returns (r: Option<seq<seq<bv8>>>)
    modifies t
    ensures t.reliable ==> exists cuts :: Parsed(old(t.data), cuts) == r
    ensures forall lines, body :: SmallHead(lines) && old(t.data) == Head(lines) + body ==>
      (r.Some? ==> r.value == lines + [[]]) && (t.reliable ==> r.Some?)
  {
    ghost var s := t.data;
    var buf := new bv8[RAW_BUF_SIZE];
    var rc, cuts := ReadHeaders(t, buf, RAW_BUF_SIZE - 1);
    forall lines, body | SmallHead(lines) && s == Head(lines) + body
      ensures (rc >= 0 ==> rc > 0 && Lines(CView(s[..rc])) == lines + [[]]) && (t.reliable ==> rc > 0)
    {
      if rc >= 0 { HeadParsesBack(lines, body, RAW_BUF_SIZE - 1, t.reliable, rc); }
      HeadEndsAtHead(lines, body);
    }
    if rc <= 0 {
      assert t.reliable ==> Parsed(s, cuts) == None;
      return None;
    }
    var lines := SplitLines(buf, rc);
    assert t.reliable ==> Parsed(s, cuts) == Some(lines);
    return Some(lines);
  }

  /** What a stream is parsed into when the reads deliver `cuts`. */
  function Parsed(s: seq<bv8>, cuts: seq<nat>): Option<seq<seq<bv8>>>
  {
    var rc := ReadFrom(s, RAW_BUF_SIZE - 1, 0, cuts);
    if 0 < rc <= |s| then Some(Lines(CView(s[..rc]))) else None
  }

  /** A request head that ends before the last byte the buffer is read into. */
  predicate SmallHead(lines: seq<seq<bv8>>)
  {
    |lines| > 0 && GoodLines(lines) && |Head(lines)| < RAW_BUF_SIZE - 1
  }
}
