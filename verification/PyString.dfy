/** The Python string operations marks2json.py relies on. */
module PyString {

  /** str.isspace for one character. */
  predicate IsSpace(c: char)
  {
    var n := c as int;
    9 <= n <= 13 || 28 <= n <= 32 || n == 0x85 || n == 0xA0 || n == 0x1680 || 0x2000 <= n <= 0x200A
    || n == 0x2028 || n == 0x2029 || n == 0x202F || n == 0x205F || n == 0x3000
  }

  function LStrip(s: string): (r: string)
    ensures |r| > 0 ==> !IsSpace(r[0])
  {
    if |s| > 0 && IsSpace(s[0]) then LStrip(s[1..]) else s
  }

  function RStrip(s: string): (r: string)
    ensures |r| > 0 ==> !IsSpace(r[|r| - 1])
    ensures r <= s
  {
    if |s| > 0 && IsSpace(s[|s| - 1]) then RStrip(s[..|s| - 1]) else s
  }

  function Strip(s: string): string { RStrip(LStrip(s)) }

  lemma StripFront(c: char, s: string)
    requires IsSpace(c)
    ensures Strip([c] + s) == Strip(s)
  {
    assert ([c] + s)[1..] == s;
  }

  lemma {:induction false} LStripBack(s: string, c: char)
    requires IsSpace(c)
    ensures LStrip(s + [c]) == if LStrip(s) == "" then "" else LStrip(s) + [c]
  {
    if |s| == 0 {
      assert (s + [c])[1..] == "";
      assert LStrip("") == "";
    } else if IsSpace(s[0]) {
      assert (s + [c])[1..] == s[1..] + [c];
      LStripBack(s[1..], c);
    }
  }

  lemma StripBack(s: string, c: char)
    requires IsSpace(c)
    ensures Strip(s + [c]) == Strip(s)
  {
    LStripBack(s, c);
    var t := LStrip(s);
    if t != "" {
      assert (t + [c])[..|t + [c]| - 1] == t;
    }
  }

  // ---------------------------------------------------------------- split("|")

  const BAR: char := '|'

  /** The pieces between bars; always at least one. */
  function SplitBar(s: string): (ps: seq<string>)
    ensures |ps| >= 1
  {
    if |s| == 0 then [""]
    else if s[0] == BAR then [""] + SplitBar(s[1..])
    else
      var ps := SplitBar(s[1..]);
      [[s[0]] + ps[0]] + ps[1..]
  }

  function JoinBar(ps: seq<string>): string
    requires |ps| >= 1
  {
    if |ps| == 1 then ps[0] else ps[0] + [BAR] + JoinBar(ps[1..])
  }

  lemma {:induction false} SplitPiece(p: string, rest: string)
    requires BAR !in p
    ensures SplitBar(p) == [p]
    ensures SplitBar(p + [BAR] + rest) == [p] + SplitBar(rest)
  {
    var s := p + [BAR] + rest;
    if |p| == 0 {
      assert s[1..] == rest;
    } else {
      SplitPiece(p[1..], rest);
      assert s[1..] == p[1..] + [BAR] + rest;
      assert [p[0]] + p[1..] == p;
      var ps := SplitBar(s[1..]);
      assert ps[0] == p[1..] && ps[1..] == SplitBar(rest);
    }
  }

  /** Splitting inverts joining for pieces without bars. */
  lemma {:induction false} SplitJoin(ps: seq<string>)
    requires |ps| >= 1 && forall i :: 0 <= i < |ps| ==> BAR !in ps[i]
    ensures SplitBar(JoinBar(ps)) == ps
  {
    if |ps| == 1 {
      SplitPiece(ps[0], "");
    } else {
      SplitPiece(ps[0], JoinBar(ps[1..]));
      SplitJoin(ps[1..]);
      assert [ps[0]] + ps[1..] == ps;
    }
  }

  /** The stripped pieces that are not empty. */
  function Parts(ps: seq<string>): seq<string>
  {
    if |ps| == 0 then []
    else (if Strip(ps[0]) != "" then [Strip(ps[0])] else []) + Parts(ps[1..])
  }

  lemma SplitFront(c: char, s: string)
    requires IsSpace(c)
    ensures Parts(SplitBar([c] + s)) == Parts(SplitBar(s))
  {
    assert ([c] + s)[1..] == s && c != BAR;
    var ps := SplitBar(s);
    StripFront(c, ps[0]);
    assert SplitBar([c] + s)[1..] == ps[1..];
  }

  /** The pieces with one more character at the end of the last. */
  function Longer(ps: seq<string>, c: char): seq<string>
    requires |ps| >= 1
  {
    ps[..|ps| - 1] + [ps[|ps| - 1] + [c]]
  }

  lemma {:induction false} SplitLonger(s: string, c: char)
    requires c != BAR
    ensures SplitBar(s + [c]) == Longer(SplitBar(s), c)
  {
    if |s| == 0 {
      SplitPiece([c], "");
      assert s + [c] == [c] && [""[..0] + [c]] == [[c]];
      assert Longer([""], c) == [[c]];
    } else {
      assert (s + [c])[1..] == s[1..] + [c];
      SplitLonger(s[1..], c);
      if s[0] == BAR {
        LongerAfterBar(SplitBar(s[1..]), c);
      } else {
        LongerAfterChar(SplitBar(s[1..]), s[0], c);
      }
    }
  }

  lemma LongerAfterBar(ps: seq<string>, c: char)
    requires |ps| >= 1
    ensures [""] + Longer(ps, c) == Longer([""] + ps, c)
  {
  }

  lemma LongerAfterChar(ps: seq<string>, d: char, c: char)
    requires |ps| >= 1
    ensures var qs := Longer(ps, c); [[d] + qs[0]] + qs[1..] == Longer([[d] + ps[0]] + ps[1..], c)
  {
    if |ps| == 1 {
      assert [d] + (ps[0] + [c]) == ([d] + ps[0]) + [c];
    }
  }

  lemma {:induction false} PartsLonger(ps: seq<string>, c: char)
    requires |ps| >= 1 && IsSpace(c)
    ensures Parts(Longer(ps, c)) == Parts(ps)
  {
    if |ps| == 1 {
      StripBack(ps[0], c);
      assert Longer(ps, c)[1..] == ps[1..];
    } else {
      assert Longer(ps, c)[1..] == Longer(ps[1..], c);
      PartsLonger(ps[1..], c);
    }
  }

  lemma SplitBack(s: string, c: char)
    requires IsSpace(c)
    ensures Parts(SplitBar(s + [c])) == Parts(SplitBar(s))
  {
    SplitLonger(s, c);
    PartsLonger(SplitBar(s), c);
  }

  lemma {:induction false} SplitLStrip(s: string)
    ensures Parts(SplitBar(LStrip(s))) == Parts(SplitBar(s))
  {
    if |s| > 0 && IsSpace(s[0]) {
      SplitLStrip(s[1..]);
      assert s == [s[0]] + s[1..];
      SplitFront(s[0], s[1..]);
    }
  }

  lemma {:induction false} SplitRStrip(s: string)
    ensures Parts(SplitBar(RStrip(s))) == Parts(SplitBar(s))
  {
    if |s| > 0 && IsSpace(s[|s| - 1]) {
      var n := |s| - 1;
      SplitRStrip(s[..n]);
      assert s == s[..n] + [s[n]];
      SplitBack(s[..n], s[n]);
    }
  }

  /** Stripping a line before splitting it changes no part. */
  lemma SplitStrip(s: string)
    ensures Parts(SplitBar(Strip(s))) == Parts(SplitBar(s))
  {
    SplitRStrip(LStrip(s));
    SplitLStrip(s);
  }

  // ---------------------------------------------------------------- split()

  /** The length of the word a string starts with. */
  function WordLength(s: string): (n: nat)
    ensures n <= |s| && (forall i :: 0 <= i < n ==> !IsSpace(s[i])) && (n < |s| ==> IsSpace(s[n]))
  {
    if |s| == 0 || IsSpace(s[0]) then 0 else 1 + WordLength(s[1..])
  }

  /** The words between runs of whitespace. */
  function Words(s: string): seq<string>
    decreases |s|
  {
    if |s| == 0 then []
    else if IsSpace(s[0]) then Words(s[1..])
    else
      var n := WordLength(s);
      [s[..n]] + Words(s[n..])
  }

  function JoinSpace(ws: seq<string>): string
  {
    if |ws| == 0 then "" else if |ws| == 1 then ws[0] else ws[0] + " " + JoinSpace(ws[1..])
  }

  predicate IsWord(w: string) { |w| > 0 && forall i :: 0 <= i < |w| ==> !IsSpace(w[i]) }

  lemma {:induction false} WordLengthIs(w: string, rest: string)
    requires forall i :: 0 <= i < |w| ==> !IsSpace(w[i])
    requires |rest| > 0 ==> IsSpace(rest[0])
    ensures WordLength(w + rest) == |w|
  {
    if |w| > 0 {
      assert (w + rest)[1..] == w[1..] + rest;
      WordLengthIs(w[1..], rest);
    } else {
      assert w + rest == rest;
    }
  }

  /** Splitting on whitespace inverts joining words with spaces. */
  lemma {:induction false} WordsOfJoin(ws: seq<string>)
    requires forall i :: 0 <= i < |ws| ==> IsWord(ws[i])
    ensures Words(JoinSpace(ws)) == ws
  {
    if |ws| > 0 {
      var w := ws[0];
      var rest := if |ws| == 1 then "" else " " + JoinSpace(ws[1..]);
      assert JoinSpace(ws) == w + rest;
      WordLengthIs(w, rest);
      assert (w + rest)[..|w|] == w && (w + rest)[|w|..] == rest;
      WordsOfJoin(ws[1..]);
      if |ws| > 1 { assert rest[1..] == JoinSpace(ws[1..]); }
      assert Words(rest) == ws[1..];
      assert [w] + ws[1..] == ws;
    }
  }

  // ---------------------------------------------------------------- in

  /** "sub in s". */
  predicate Contains(s: string, sub: string)
  {
    exists i :: 0 <= i <= |s| && sub <= s[i..]
  }

  lemma ContainsTransitive(s: string, t: string, u: string)
    requires Contains(s, t) && Contains(t, u)
    ensures Contains(s, u)
  {
    var i :| 0 <= i <= |s| && t <= s[i..];
    var k :| 0 <= k <= |t| && u <= t[k..];
    assert s[i..][k..] == s[i + k..];
    assert t[k..] <= s[i + k..];
    assert u <= s[i + k..];
  }

  lemma ContainsShifted(s: string, c: char, t: string)
    requires Contains(s, t)
    ensures Contains([c] + s, t)
  {
    var i :| 0 <= i <= |s| && t <= s[i..];
    assert ([c] + s)[i + 1..] == s[i..];
  }

  /** Every piece of a split, and its stripped form, occur in the string. */
  lemma {:induction false} PieceOccurs(s: string, i: nat)
    requires i < |SplitBar(s)|
    ensures Contains(s, SplitBar(s)[i])
    ensures i == 0 ==> SplitBar(s)[0] <= s
  {
    if |s| == 0 {
      assert "" <= s[0..];
    } else {
      var rest := s[1..];
      assert s == [s[0]] + rest;
      if i == 0 {
        if s[0] != BAR { PieceOccurs(rest, 0); }
        assert SplitBar(s)[0] <= s[0..];
      } else {
        var j := if s[0] == BAR then i - 1 else i;
        PieceOccurs(rest, j);
        assert SplitBar(s)[i] == SplitBar(rest)[j];
        ContainsShifted(rest, s[0], SplitBar(s)[i]);
      }
    }
  }

  lemma {:induction false} LStripIsSuffix(s: string)
    ensures |LStrip(s)| <= |s| && LStrip(s) == s[|s| - |LStrip(s)|..]
  {
    if |s| > 0 && IsSpace(s[0]) { LStripIsSuffix(s[1..]); }
  }

  lemma StripOccurs(s: string)
    ensures Contains(s, Strip(s))
  {
    var t := LStrip(s);
    LStripIsSuffix(s);
    assert s[|s| - |t|..] == t;
    assert Strip(s) <= s[|s| - |t|..];
  }

  /** A string that neither starts nor ends with a space is its own stripped form. */
  lemma StripSolid(s: string)
    requires |s| > 0 ==> !IsSpace(s[0]) && !IsSpace(s[|s| - 1])
    ensures Strip(s) == s
  {
  }

  lemma StripPadded(f: string)
    requires Strip(f) == f
    ensures Strip(f + " ") == f && Strip(" " + f) == f && Strip(" " + f + " ") == f
  {
    StripBack(f, ' ');
    StripFront(' ', f);
    StripBack(" " + f, ' ');
  }
}
