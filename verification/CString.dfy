/** Byte strings as C code sees them. */
module CString {

  /** What a C string function sees of a buffer: the bytes before the first NUL. */
  function CView(s: seq<bv8>): (r: seq<bv8>)
    ensures r <= s && 0 !in r
    ensures r == s || s[|r|] == 0
  {
    if |s| == 0 || s[0] == 0 then [] else [s[0]] + CView(s[1..])
  }

  /** The position of the first occurrence of a byte, or the length. */
  function IndexOf(s: seq<bv8>, c: bv8): (k: nat)
    ensures k <= |s| && (k < |s| ==> s[k] == c) && c !in s[..k]
  {
    if |s| == 0 || s[0] == c then 0 else 1 + IndexOf(s[1..], c)
  }

  function Prefix(s: seq<bv8>, n: nat): (r: seq<bv8>)
    ensures r <= s && |r| == if |s| <= n then |s| else n
  {
    if |s| <= n then s else s[..n]
  }
}
