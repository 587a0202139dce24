/** The index of embedded files (src/vfs_hash.c): a probe table without deletions, which must
    answer like a scan of the file table. */
module VfsHash {
  import opened Wrappers
  import opened Sums
  import opened Probing
  import opened Division
  import opened NextPow2

  /** The knob's largest setting for which the macro's signed arithmetic does not overflow. */
  const MAX_KNOB: bv32 := 0x2000_0000

  /** VFS_HASH_CAP for a number of files the knob VFS_MAX_FILES may be set to; 20 as shipped. */
  function Capacity(maxFiles: bv32): bv32 { NextPow2.NextPow2(maxFiles * 2) }

  /** An embedded file; its hash is filled in when the index is built. */
  datatype Entry = Entry(path: string, data: seq<bv8>, contentHash: nat)

  /** The capacity is a power of two, so that masking is a remainder, and at least twice the files. */
  lemma CapacityIsPower(maxFiles: bv32) returns (k: nat)
    requires 1 <= maxFiles <= MAX_KNOB
    ensures Capacity(maxFiles) as int == Pow2(k) && maxFiles * 2 <= Capacity(maxFiles) < maxFiles * 4
  {
    k := NextPow2IsPower(maxFiles * 2);
  }

  /** A slot holds the number of a table entry, or nothing. */
  type Slots = seq<Option<nat>>

  predicate InTable(slots: Slots, n: nat)
  {
    forall s :: 0 <= s < |slots| && slots[s].Some? ==> slots[s].value < n
  }

  /** Where an insertion stops, and where a lookup of a path stops. */
  function IsFree(): Option<nat> -> bool { (s: Option<nat>) => s == None }

  function EndsLookup(table: seq<Entry>, path: string): Option<nat> -> bool
  {
    (s: Option<nat>) => s == None || (s.value < |table| && table[s.value].path == path)
  }

  function Filled(): Option<nat> -> int { (s: Option<nat>) => if s.Some? then 1 else 0 }

  function Home(hash: string -> nat, path: string, cap: nat): (h: nat)
    requires cap > 0
    ensures h < cap
  {
    hash(path) % cap
  }

  /** Entry i sits in slot s, behind slots holding only earlier entries. */
  ghost predicate SitsAt(slots: Slots, table: seq<Entry>, hash: string -> nat, i: nat, s: nat)
  {
    && s < |slots| && i < |table|
    && slots[s] == Some(i)
    && var home := Home(hash, table[i].path, |slots|);
    forall k :: 0 <= k < Offset(home, s, |slots|) ==>
      slots[Probe(home, k, |slots|)].Some? && slots[Probe(home, k, |slots|)].value < i
  }

  ghost predicate Sits(slots: Slots, table: seq<Entry>, hash: string -> nat, i: nat)
  {
    exists s: nat :: SitsAt(slots, table, hash, i, s)
  }

  /** The first n entries of the table are indexed and nothing else is. */
  ghost predicate Indexed(slots: Slots, table: seq<Entry>, hash: string -> nat, n: nat)
  {
    && n <= |table|
    && InTable(slots, n)
    && Sum(slots, Filled()) == n
    && forall i: nat :: i < n ==> Sits(slots, table, hash, i)
  }

  /** The simple thing the index must agree with: the number of the first entry with the path. */
  function Scan(table: seq<Entry>, path: string): (r: Option<nat>)
    ensures r.Some? ==> r.value < |table| && table[r.value].path == path
    ensures r.Some? ==> forall i :: 0 <= i < r.value ==> table[i].path != path
    ensures r == None <==> forall i :: 0 <= i < |table| ==> table[i].path != path
  {
    if |table| == 0 then None
    else
      var r := Scan(table[..|table| - 1], path);
      if r.Some? then r
      else if table[|table| - 1].path == path then Some(|table| - 1) else None
  }

  lemma {:induction false} FreeSlotExists(slots: Slots) returns (s: nat)
    requires Sum(slots, Filled()) < |slots|
    ensures s < |slots| && slots[s] == None
  {
    var n := |slots| - 1;
    if slots[n] == None { s := n; } else { s := FreeSlotExists(slots[..n]); }
  }

  lemma StillSits(slots: Slots, table: seq<Entry>, hash: string -> nat, i: nat, at: nat, n: nat)
    requires Sits(slots, table, hash, i) && at < |slots| && slots[at] == None
    ensures Sits(slots[at := Some(n)], table, hash, i)
  {
    var s: nat :| SitsAt(slots, table, hash, i, s);
    assert SitsAt(slots[at := Some(n)], table, hash, i, s);
  }

  /** Filling the first free probe of an entry's home extends the index by that entry. */
  lemma InsertExtends(slots: Slots, table: seq<Entry>, hash: string -> nat, n: nat)
    requires |slots| > 0 && n < |table| && n < |slots| && Indexed(slots, table, hash, n)
    ensures var home := Home(hash, table[n].path, |slots|);
      var j := FirstHit(slots, home, IsFree(), 0);
      j < |slots| && Indexed(slots[Probe(home, j, |slots|) := Some(n)], table, hash, n + 1)
  {
    var home := Home(hash, table[n].path, |slots|);
    var free := FreeSlotExists(slots);
    FirstHitFinds(slots, home, IsFree(), free);
    var j := FirstHit(slots, home, IsFree(), 0);
    var at := Probe(home, j, |slots|);
    var r := slots[at := Some(n)];
    SumUpdate(slots, at, Some(n), Filled());
    forall i: nat | i < n + 1 ensures Sits(r, table, hash, i) {
      if i == n {
        assert SitsAt(r, table, hash, n, at);
      } else {
        StillSits(slots, table, hash, i, at, n);
      }
    }
  }

  /** Looking a path up in a complete index finds the first entry with it, or stops at a free slot
      or after a full round exactly when there is none; the table may be completely full. */
  lemma LookupIsScan(slots: Slots, table: seq<Entry>, hash: string -> nat, path: string)
    requires |slots| > 0 && Indexed(slots, table, hash, |table|)
    ensures var home := Home(hash, path, |slots|);
      var j := FirstHit(slots, home, EndsLookup(table, path), 0);
      Scan(table, path) == if j == |slots| then None else slots[Probe(home, j, |slots|)]
  {
    var home := Home(hash, path, |slots|);
    var j := FirstHit(slots, home, EndsLookup(table, path), 0);
    var first := Scan(table, path);
    if first.Some? {
      var i := first.value;
      assert Sits(slots, table, hash, i);
      var s: nat :| SitsAt(slots, table, hash, i, s);
      var off := Offset(home, s, |slots|);
      assert Probe(home, off, |slots|) == s;
      FirstHitFinds(slots, home, EndsLookup(table, path), s);
    }
  }

  lemma MaskedHome(h: nat, k: nat)
    ensures And(h, Pow2(k) - 1) == h % Pow2(k) < Pow2(k)
  {
    MaskIsModulo(h, k);
  }

  /** Incrementing and masking wraps at the capacity. */
  lemma MaskedIncrement(slot: nat, k: nat)
    requires slot < Pow2(k)
    ensures And(slot + 1, Pow2(k) - 1) == if slot + 1 == Pow2(k) then 0 else slot + 1
  {
    MaskIsModulo(slot + 1, k);
    var m := Pow2(k);
    if slot + 1 == m {
      RemainderIs(slot + 1, m, 1, 0);
    } else {
      RemainderIs(slot + 1, m, 0, slot + 1);
    }
  }

  class VfsHash {
    const hash: string -> nat
    const hashData: seq<bv8> -> nat
    const table: array<Entry>
    const slots: array<Option<nat>>
    /** The number of bits of the mask. */
    ghost const bits: nat

    /** The index of a table, once built. */
    ghost predicate Valid()
      reads slots, table
    {
      slots.Length == Pow2(bits) && Indexed(slots[..], table[..], hash, table.Length)
    }

    constructor (maxFiles: bv32, table: array<Entry>, hash: string -> nat, hashData: seq<bv8> -> nat)
      requires 1 <= maxFiles <= MAX_KNOB
      ensures this.table == table && this.hash == hash && this.hashData == hashData
      ensures fresh(slots) && slots.Length == Pow2(bits) == Capacity(maxFiles) as int
      ensures maxFiles * 2 <= Capacity(maxFiles)
    {
      ghost var k := CapacityIsPower(maxFiles);
      this.hash, this.hashData, this.table := hash, hashData, table;
      slots := new Option<nat>[Capacity(maxFiles) as int](_ => None);
      bits := k;
    }

    function HashedEntry(e: Entry): Entry
    {
      if |e.data| > 0 then e.(contentHash := hashData(e.data)) else e
    }

    /** The probe loop of vfs_hash_init for one entry; the abort after a full round is never reached. */
    method InsertAt(i: nat)
      requires slots.Length == Pow2(bits) && i < table.Length && i < slots.Length
      requires Indexed(slots[..], table[..], hash, i)
      modifies slots
      ensures Indexed(slots[..], table[..], hash, i + 1) && table[..] == old(table[..])
    {
      var cap := slots.Length;
      ghost var t := slots[..];
      InsertExtends(t, table[..], hash, i);
      MaskedHome(hash(table[i].path), bits);
      var idx := And(hash(table[i].path), cap - 1);
      ghost var home := idx;
      var probes := 0;
      while slots[idx] != None
        invariant slots[..] == t && probes < cap && idx == Probe(home, probes, cap)
        invariant FirstHit(t, home, IsFree(), 0) == FirstHit(t, home, IsFree(), probes)
        decreases cap - probes
      {
        MaskedIncrement(idx, bits);
        idx := And(idx + 1, cap - 1);
        probes := probes + 1;
        if probes >= cap {
          assert false;  // InsertExtends: a free slot is hit first
        }
      }
      slots[idx] := Some(i);
      assert slots[..] == t[idx := Some(i)];
    }

    /** Completes, without aborting, exactly when the files fit the slots, and then indexes them all. */
    method Init() returns (ok: bool)
      requires slots.Length == Pow2(bits)
      modifies slots, table
      ensures ok <==> table.Length <= slots.Length
      ensures ok ==> Valid()
      ensures ok ==> forall i :: 0 <= i < table.Length ==>
        && table[i].path == old(table[i].path) && table[i].data == old(table[i].data)
        && table[i].contentHash ==
             if |table[i].data| > 0 then hashData(table[i].data) else old(table[i].contentHash)
    {
      Clear();
      var cap := slots.Length;
      var inserted := 0;
      for i := 0 to table.Length
        invariant inserted == i <= cap
        invariant Indexed(slots[..], table[..], hash, i)
        invariant forall j :: 0 <= j < i ==> table[j] == HashedEntry(old(table[j]))
        invariant forall j :: i <= j < table.Length ==> table[j] == old(table[j])
      {
        ghost var before := table[..];
        table[i] := HashedEntry(table[i]);
        SamePathsSameIndex(slots[..], before, table[..], hash, i);
        if inserted >= cap {
          return false;
        }
        InsertAt(i);
        inserted := inserted + 1;
      }
      return true;
    }

    method Clear()
      modifies slots
      ensures slots.Length > 0 ==> Indexed(slots[..], table[..], hash, 0)
      ensures table[..] == old(table[..])
    {
      for s := 0 to slots.Length
        invariant forall i :: 0 <= i < s ==> slots[i] == None
      {
        slots[s] := None;
      }
      SumZero(slots[..], Filled());
    }

    lemma SamePathsSameIndex(slots: Slots, before: seq<Entry>, after: seq<Entry>, hash: string -> nat, n: nat)
      requires |before| == |after| && forall i :: 0 <= i < |before| ==> after[i].path == before[i].path
      requires Indexed(slots, before, hash, n)
      ensures Indexed(slots, after, hash, n)
    {
      forall i: nat | i < n ensures Sits(slots, after, hash, i) {
        assert Sits(slots, before, hash, i);
        var s: nat :| SitsAt(slots, before, hash, i, s);
        assert SitsAt(slots, after, hash, i, s);
      }
    }

    /** The first entry with the path, or none exactly when no entry has it. */
    method Lookup(path: string) returns (r: Option<Entry>)
      requires Valid()
      ensures r == match Scan(table[..], path) case None => None case Some(i) => Some(table[i])
    {
      var cap := slots.Length;
      ghost var t: Slots := slots[..];
      ghost var entries := table[..];
      LookupIsScan(t, entries, hash, path);
      MaskedHome(hash(path), bits);
      var idx := And(hash(path), cap - 1);
      ghost var home := idx;
      for i := 0 to cap
        invariant idx == Probe(home, i, cap)
        invariant FirstHit(t, home, EndsLookup(entries, path), 0) == FirstHit(t, home, EndsLookup(entries, path), i)
      {
        if slots[idx] == None {
          return None;
        }
        assert t[idx].value < table.Length;
        if table[slots[idx].value].path == path {
          return Some(table[slots[idx].value]);
        }
        MaskedIncrement(idx, bits);
        idx := And(idx + 1, cap - 1);
      }
      return None;
    }
  }
}
