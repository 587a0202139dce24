/** Serving an embedded file, whole or in part: the Range branch of parse_header (src/http.c)
    followed by file_serve (src/file.c), against section 14.1.2 of RFC 9110. */
module FileServe {
  import opened Wrappers
  import opened VfsHash

  const INT64_MAX: int := 0x7fff_ffff_ffff_ffff
  const INT64_MIN: int := -0x8000_0000_0000_0000

  // ---------------------------------------------------------------- numbers

  predicate IsDigit(c: char) { '0' <= c <= '9' }

  function Digit(c: char): int requires IsDigit(c) { c as int - '0' as int }

  predicate IsBlank(c: char) { c == ' ' || '\t' <= c <= '\r' }

  /** Digits read from the front of s, continuing the number acc. */
  function ReadDigits(s: string, acc: int): int
  {
    if |s| > 0 && IsDigit(s[0]) then ReadDigits(s[1..], acc * 10 + Digit(s[0])) else acc
  }

  function SkipBlanks(s: string): string
  {
    if |s| > 0 && IsBlank(s[0]) then SkipBlanks(s[1..]) else s
  }

  /** strtoll in base 10: leading blanks, a sign, digits up to the first other character, 0 if there
      are none; None when the number does not fit 64 bits (errno set). */
  function Strtoll(s: string): Option<int>
  {
    var t := SkipBlanks(s);
    var n :=
      if |t| > 0 && t[0] == '-' then -ReadDigits(t[1..], 0)
      else if |t| > 0 && t[0] == '+' then ReadDigits(t[1..], 0)
      else ReadDigits(t, 0);
    if INT64_MIN <= n <= INT64_MAX then Some(n) else None
  }

  /** The decimal notation of a number. */
  function Decimal(n: nat): (s: string)
    ensures |s| > 0 && forall i :: 0 <= i < |s| ==> IsDigit(s[i])
  {
    var last := [(n % 10 + '0' as int) as char];
    if n < 10 then last else Decimal(n / 10) + last
  }

  lemma {:induction false} ReadDecimal(n: nat, rest: string)
    ensures ReadDigits(Decimal(n) + rest, 0) == ReadDigits(rest, n)
    decreases n
  {
    var c := (n % 10 + '0' as int) as char;
    if n < 10 {
      assert (Decimal(n) + rest)[1..] == rest;
    } else {
      ReadDecimal(n / 10, [c] + rest);
      assert Decimal(n) + rest == Decimal(n / 10) + ([c] + rest);
      assert ([c] + rest)[1..] == rest;
    }
  }

  // ---------------------------------------------------------------- parsing the header value

  /** The request's range fields; -1 in start means no range, a negative end means open-ended. */
  datatype Range = Range(start: int, end: int)

  const NO_RANGE := Range(-1, -1)

  function IndexOf(s: string, c: char): (k: nat)
    ensures k <= |s| && (k < |s| ==> s[k] == c) && c !in s[..k]
  {
    if |s| == 0 || s[0] == c then 0 else 1 + IndexOf(s[1..], c)
  }

  function OrMinusOne(n: Option<int>): int { if n.Some? then n.value else -1 }

  function RangeOf(spec: string, before: Range): Range
  {
    var dash := IndexOf(spec, '-');
    if dash == |spec| then before
    else
      Range(OrMinusOne(Strtoll(spec)),
            if dash == 0 then before.end
            else if dash + 1 == |spec| then -1
            else OrMinusOne(Strtoll(spec[dash + 1..])))
  }

  // ---------------------------------------------------------------- the response

  datatype Response =
    | Whole(body: seq<bv8>)                                        // 200
    | Partial(first: nat, last: nat, total: nat, part: seq<bv8>)   // 206
    | NotSatisfiable(total: nat)                                   // 416
    | NotModified                                                  // 304
    | NotFound                                                     // 404
    | NotAllowed                                                   // 405

  /** The part of data between two positions, both included. */
  function Slice(data: seq<bv8>, first: nat, last: nat): Response
    requires first <= last < |data|
  {
    Partial(first, last, |data|, data[first..last + 1])
  }

  /** Range normalisation and body slice of file_serve. A length fits a signed 64-bit integer. */
  method ServeRange(req: Range, data: seq<bv8>) returns (r: Response)
    requires INT64_MIN <= req.start <= INT64_MAX && INT64_MIN <= req.end <= INT64_MAX
    requires |data| <= INT64_MAX
    ensures req.start == -1 ==> r == Whole(data)
    ensures req.start != -1 ==> r.Partial? || r == NotSatisfiable(|data|)
    ensures r == RangeResponse(req, data)
    ensures r.Partial? ==> 0 <= r.first <= r.last < |data| && r == Slice(data, r.first, r.last)
  {
    var len := |data|;
    var first, last := 0, len - 1;
    var isRange := false;
    if req.start != -1 {
      if req.start < 0 {
        first := len + req.start;
        if first < 0 {
          first := 0;
        }
        last := len - 1;
      } else {
        first := req.start;
        last := if req.end >= 0 then req.end else len - 1;
      }
      if first < 0 {
        first := 0;
      }
      if last >= len {
        last := len - 1;
      }
      if first > last || first >= len {
        return NotSatisfiable(len);
      }
      isRange := true;
    }
    var body := data[first..last + 1];
    return if isRange then Partial(first, last, len, body) else Whole(body);
  }

  /** Which positions a request's fields select from a file. */
  function RangeResponse(req: Range, data: seq<bv8>): Response
  {
    var len := |data|;
    if req.start == -1 then Whole(data)
    else if req.start < 0 then
      if len == 0 then NotSatisfiable(0)
      else Slice(data, if len + req.start < 0 then 0 else len + req.start, len - 1)
    else if req.start >= len || (0 <= req.end < req.start) then NotSatisfiable(len)
    else Slice(data, req.start, if 0 <= req.end < len then req.end else len - 1)
  }

  // ---------------------------------------------------------------- RFC 9110, section 14.1.2

  datatype Spec = FromTo(first: nat, last: nat) | From(first: nat) | Suffix(length: nat)

  function SpecText(spec: Spec): string
  {
    match spec
    case FromTo(first, last) => Decimal(first) + "-" + Decimal(last)
    case From(first) => Decimal(first) + "-"
    case Suffix(length) => "-" + Decimal(length)
  }

  /** What a server that honours the range sends; None where the range is not a valid one. */
  function Required(spec: Spec, data: seq<bv8>): Option<Response>
  {
    var len := |data|;
    match spec
    case FromTo(first, last) =>
      if last < first then None
      else if first >= len then Some(NotSatisfiable(len))
      else Some(Slice(data, first, if last < len then last else len - 1))
    case From(first) =>
      if first >= len then Some(NotSatisfiable(len)) else Some(Slice(data, first, len - 1))
    case Suffix(length) =>
      if length == 0 || len == 0 then Some(NotSatisfiable(len))
      else Some(Slice(data, if length <= len then len - length else 0, len - 1))
  }

  /** The answer the two stages give to a request for a range. */
  function Answer(spec: Spec, data: seq<bv8>): Response
  {
    RangeResponse(RangeOf(SpecText(spec), NO_RANGE), data)
  }

  lemma {:induction false} IndexOfDash(digits: string, rest: string)
    requires forall i :: 0 <= i < |digits| ==> IsDigit(digits[i])
    ensures IndexOf(digits + "-" + rest, '-') == |digits|
    ensures (digits + "-" + rest)[|digits| + 1..] == rest
  {
    if |digits| > 0 {
      assert (digits + "-" + rest)[1..] == digits[1..] + "-" + rest;
      IndexOfDash(digits[1..], rest);
    }
  }

  lemma StrtollDecimal(n: nat, rest: string)
    requires |rest| > 0 ==> !IsDigit(rest[0])
    ensures Strtoll(Decimal(n) + rest) == if n <= INT64_MAX then Some(n) else None
    ensures Strtoll("-" + Decimal(n)) == if n <= -INT64_MIN then Some(0 - n) else None
  {
    ReadDecimal(n, rest);
    assert Decimal(n) + [] == Decimal(n);
    ReadDecimal(n, []);
    assert ("-" + Decimal(n))[1..] == Decimal(n);
    assert (Decimal(n) + rest)[0] == Decimal(n)[0];
  }

  predicate AllBlank(s: string)
  {
    forall i :: 0 <= i < |s| ==> s[i] in " \t\n\r" || s[i] as int == 11 || s[i] as int == 12
  }

  lemma {:induction false} BlanksSkipped(blanks: string, rest: string)
    requires AllBlank(blanks)
    ensures SkipBlanks(blanks + rest) == SkipBlanks(rest)
  {
    if |blanks| == 0 {
      assert blanks + rest == rest;
    } else {
      assert (blanks + rest)[1..] == blanks[1..] + rest;
      BlanksSkipped(blanks[1..], rest);
    }
  }

  /** Blanks and a plus sign before a number change nothing, what follows its digits is ignored, and where
      there is no digit the number is 0. */
  lemma StrtollReads(blanks: string, n: nat, rest: string)
    requires AllBlank(blanks) && (|rest| > 0 ==> !IsDigit(rest[0]))
    ensures Strtoll(blanks + (Decimal(n) + rest)) == if n <= INT64_MAX then Some(n) else None
    ensures Strtoll(blanks + ("+" + (Decimal(n) + rest))) == if n <= INT64_MAX then Some(n) else None
    ensures |rest| == 0 || !(rest[0] in "+-" || IsBlank(rest[0])) ==> Strtoll(blanks + rest) == Some(0)
  {
    BlanksSkipped(blanks, Decimal(n) + rest);
    BlanksSkipped(blanks, "+" + (Decimal(n) + rest));
    BlanksSkipped(blanks, rest);
    StrtollDecimal(n, rest);
    ReadDecimal(n, rest);
    assert ("+" + (Decimal(n) + rest))[1..] == Decimal(n) + rest;
  }

  /** The fields a range stands for: a number that does not fit 64 bits reads as absent, and a suffix
      leaves the end field alone. */
  function Fields(spec: Spec, before: Range): Range
  {
    match spec
    case FromTo(first, last) => Range(if first <= INT64_MAX then first else -1, if last <= INT64_MAX then last else -1)
    case From(first) => Range(if first <= INT64_MAX then first else -1, -1)
    case Suffix(length) => Range(if length <= -INT64_MIN then 0 - length else -1, before.end)
  }

  /** The text of every range reads back as the fields it stands for. */
  lemma ParsedFields(spec: Spec, before: Range)
    ensures RangeOf(SpecText(spec), before) == Fields(spec, before)
  {
    match spec
    case FromTo(first, last) =>
      IndexOfDash(Decimal(first), Decimal(last));
      assert Decimal(first) + "-" + Decimal(last) == Decimal(first) + ("-" + Decimal(last));
      StrtollDecimal(first, "-" + Decimal(last));
      StrtollDecimal(last, "");
      assert Decimal(last) + "" == Decimal(last);
    case From(first) =>
      assert Decimal(first) + "-" == Decimal(first) + "-" + "";
      IndexOfDash(Decimal(first), "");
      StrtollDecimal(first, "-");
    case Suffix(length) =>
      StrtollDecimal(length, "");
  }

  /** The Range branch of parse_header: a value in the standard's notation sets the fields it stands
      for, in place of those a header before it set; a value with another unit, or without a dash,
      sets none. */
  method ParseRange(value: string, before: Range) returns (r: Range)
    ensures forall spec :: value == "bytes=" + SpecText(spec) ==> r == Fields(spec, before)
    ensures !("bytes=" <= value) || '-' !in value[6..] ==> r == before
    ensures "bytes=" <= value ==> r == RangeOf(value[6..], before)
  {
    r := before;
    if "bytes=" <= value {
      var text := value[6..];
      var dash := IndexOf(text, '-');
      if dash < |text| {
        r := r.(start := OrMinusOne(Strtoll(text)));
        if dash != 0 {
          r := r.(end := if dash + 1 < |text| then OrMinusOne(Strtoll(text[dash + 1..])) else -1);
        }
      }
    }
    forall spec | value == "bytes=" + SpecText(spec) ensures r == Fields(spec, before) {
      assert value[6..] == SpecText(spec);
      ParsedFields(spec, before);
    }
  }

  /** A range with a first position is answered as required exactly when it is a valid range and
      its first position fits 64 bits; its last position may be any number. */
  lemma PositionsAnswered(spec: Spec, data: seq<bv8>)
    requires !spec.Suffix? && |data| <= INT64_MAX
    ensures Some(Answer(spec, data)) == Required(spec, data)
      <==> spec.first <= INT64_MAX && (spec.FromTo? ==> spec.first <= spec.last)
  {
    ParsedFields(spec, NO_RANGE);
  }

  /** A start at or beyond the end of the file gives 416, for every start that fits 64 bits. */
  lemma StartBeyondEnd(spec: Spec, data: seq<bv8>)
    requires !spec.Suffix? && |data| <= spec.first <= INT64_MAX
    ensures Answer(spec, data) == NotSatisfiable(|data|)
  {
    ParsedFields(spec, NO_RANGE);
  }

  /** A suffix is answered as required exactly for lengths from 2 to 2^63, and for length 0 of an empty
      file: -1 in the start field means no range, and 0 reads as a range from 0. */
  lemma SuffixAnswered(length: nat, data: seq<bv8>)
    requires |data| <= INT64_MAX
    ensures Some(Answer(Suffix(length), data)) == Required(Suffix(length), data)
      <==> 2 <= length <= -INT64_MIN || (length == 0 && data == [])
  {
    ParsedFields(Suffix(length), NO_RANGE);
  }

  // ---------------------------------------------------------------- file_serve

  /** Which file a request path names. */
  function VfsPath(path: string): string
  {
    var p := if |path| > 0 && path[0] == '/' then path[1..] else path;
    if p == "" then "index.html" else p
  }

  /** The file a request path is for: the path without its leading slash; the start page for the root. */
  predicate Names(path: string, file: string)
  {
    if path == "" || path == "/" then file == "index.html"
    else if "/" <= path then path == "/" + file
    else path == file
  }

  lemma PathNamesOne(path: string, file: string)
    ensures Names(path, file) <==> file == VfsPath(path)
  {
    if |path| > 0 && path[0] == '/' { assert path == "/" + path[1..]; }
  }

  /** Entry i is the first whose file the request path is for. */
  predicate FirstNamed(table: seq<Entry>, path: string, i: nat)
  {
    i < |table| && Names(path, table[i].path) && forall j :: 0 <= j < i ==> !Names(path, table[j].path)
  }

  lemma ScanIsFirstNamed(table: seq<Entry>, path: string)
    ensures Scan(table, VfsPath(path)) == None <==> forall j :: 0 <= j < |table| ==> !Names(path, table[j].path)
    ensures forall i: nat :: FirstNamed(table, path, i) <==> Scan(table, VfsPath(path)) == Some(i)
  {
    forall j | 0 <= j < |table| ensures Names(path, table[j].path) <==> table[j].path == VfsPath(path) {
      PathNamesOne(path, table[j].path);
    }
  }

  /** 405 exactly for other methods than GET and HEAD; 404 exactly when no embedded file has the name; 304
      exactly when the client holds the file; else, without a range, exactly the file, and with one, the
      answer to the range. */
  method FileServe(getOrHead: bool, path: string, ifNoneMatch: string, req: Range,
                   vfs: VfsHash, etag: Entry -> string) returns (r: Response)
    requires vfs.Valid()
    requires INT64_MIN <= req.start <= INT64_MAX && INT64_MIN <= req.end <= INT64_MAX
    requires forall i :: 0 <= i < vfs.table.Length ==> |vfs.table[i].data| <= INT64_MAX
    ensures r == NotAllowed <==> !getOrHead
    ensures getOrHead ==>
      (r == NotFound <==> forall j :: 0 <= j < vfs.table.Length ==> !Names(path, vfs.table[j].path))
    ensures forall i: nat :: getOrHead && FirstNamed(vfs.table[..], path, i) ==>
      && (r == NotModified <==> ifNoneMatch != "" && ifNoneMatch == etag(vfs.table[i]))
      && (r != NotModified && req.start == -1 ==> r == Whole(vfs.table[i].data))
      && (r != NotModified && req.start != -1 ==> r == RangeResponse(req, vfs.table[i].data))
  {
    if !getOrHead {
      return NotAllowed;
    }
    ScanIsFirstNamed(vfs.table[..], path);
    var p := if |path| > 0 && path[0] == '/' then path[1..] else path;
    if p == "" {
      p := "index.html";
    }
    var entry := vfs.Lookup(p);
    if entry == None {
      return NotFound;
    }
    if ifNoneMatch != "" && ifNoneMatch == etag(entry.value) {
      return NotModified;
    }
    r := ServeRange(req, entry.value.data);
  }
}
