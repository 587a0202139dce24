/** The limiter's probe table as a value: what one accept, leave, sweep or grow does to it,
    and what every run of them keeps.

    The hash is an arbitrary function, so every result holds for any hash. */
module RateLimitTable {
  import opened Wrappers
  import opened Sums
  import opened Probing

  const INITIAL_SIZE: nat := 256
  const GROWTH_FACTOR: nat := 2
  const STALE_TIMEOUT_SECS: int := 60

  type Hash = string -> nat

  /** A table entry. A cleared or never used slot has no ip and count 0. */
  datatype Slot = Slot(ip: Option<string>, count: int, last: int)

  const ZERO_SLOT := Slot(None, 0, 0)

  predicate IsEmpty(s: Slot) { s.count == 0 && s.ip == None }

  predicate IsDormant(s: Slot) { s.count == 0 && s.ip.Some? }

  predicate IsStale(s: Slot, now: int) { IsDormant(s) && now - s.last > STALE_TIMEOUT_SECS }

  /** Where the probe loops stop: accept, leave and grow respectively. */
  function StopsFor(ip: string): Slot -> bool { (s: Slot) => IsEmpty(s) || s.ip == Some(ip) }

  function OpenFor(ip: string): Slot -> bool { (s: Slot) => s.count > 0 && s.ip == Some(ip) }

  function FreeForMove(): Slot -> bool { (s: Slot) => s.count == 0 }

  /** Weights: open connections of one ip, occupied slots, dormant slots, slots a sweep clears. */
  function OpenOf(ip: string): Slot -> int { (s: Slot) => if s.ip == Some(ip) then s.count else 0 }

  function Occupied(): Slot -> int { (s: Slot) => if s.ip.Some? then 1 else 0 }

  function Dormant(): Slot -> int { (s: Slot) => if IsDormant(s) then 1 else 0 }

  function StaleAt(now: int): Slot -> int { (s: Slot) => if IsStale(s, now) then 1 else 0 }

  datatype Limiter = Limiter(maxPerIp: int, table: seq<Slot>, used: int, lastSweep: int)

  /** What the environment decides during one accept: the two clock readings and whether the
      two allocations succeed. */
  datatype Env = Env(now: int, sweepNow: int, growOk: bool, dupOk: bool)

  // ---------------------------------------------------------------- the operations

  function SweepSlot(s: Slot, now: int): Slot
  {
    if IsStale(s, now) then s.(ip := None) else s
  }

  function SweepTable(t: seq<Slot>, now: int): (r: seq<Slot>)
    ensures |r| == |t| && forall i :: 0 <= i < |t| ==> r[i] == SweepSlot(t[i], now)
  {
    seq(|t|, i requires 0 <= i < |t| => SweepSlot(t[i], now))
  }

  ghost function Sweep(rl: Limiter, now: int): Limiter
  {
    rl.(table := SweepTable(rl.table, now), used := rl.used - Sum(rl.table, StaleAt(now)))
  }

  function Home(hash: Hash, ip: string, n: nat): (h: nat)
    requires n > 0
    ensures h < n
  {
    hash(ip) % n
  }

  /** One entry moved into a table under construction; lost when no slot is free. */
  function Move(t: seq<Slot>, hash: Hash, e: Slot): (r: seq<Slot>)
    requires |t| > 0 && e.ip.Some?
    ensures |r| == |t| && forall i :: 0 <= i < |t| ==> r[i] == t[i] || r[i] == e
  {
    var home := Home(hash, e.ip.value, |t|);
    var j := FirstHit(t, home, FreeForMove(), 0);
    if j < |t| then t[Probe(home, j, |t|) := e] else t
  }

  function ZeroSlots(size: nat): (r: seq<Slot>)
    ensures |r| == size && forall i :: 0 <= i < size ==> r[i] == ZERO_SLOT
  {
    seq(size, _ => ZERO_SLOT)
  }

  function Rehash(t: seq<Slot>, hash: Hash, size: nat): (r: seq<Slot>)
    requires size > 0 && OpenHaveIp(t)
    ensures |r| == size
  {
    if |t| == 0 then
      ZeroSlots(size)
    else
      var r := Rehash(t[..|t| - 1], hash, size);
      var e := t[|t| - 1];
      if e.count > 0 then Move(r, hash, e) else r
  }

  function Grow(rl: Limiter, hash: Hash): Limiter
    requires |rl.table| > 0 && OpenHaveIp(rl.table)
  {
    rl.(table := Rehash(rl.table, hash, |rl.table| * GROWTH_FACTOR))
  }

  predicate SweepDue(rl: Limiter, env: Env) { env.now - rl.lastSweep >= STALE_TIMEOUT_SECS }

  ghost function AfterSweep(rl: Limiter, env: Env): Limiter
  {
    if SweepDue(rl, env) then Sweep(rl, env.sweepNow).(lastSweep := env.now) else rl
  }

  predicate GrowDue(rl: Limiter) { rl.used * 4 >= |rl.table| * 3 }

  function AfterGrow(rl: Limiter, hash: Hash, env: Env): Limiter
    requires |rl.table| > 0 && OpenHaveIp(rl.table)
  {
    if GrowDue(rl) && env.growOk then Grow(rl, hash) else rl
  }

  /** The probe loop of accept: the new state, and whether the connection is admitted. */
  function Admit(rl: Limiter, hash: Hash, ip: string, env: Env): (Limiter, bool)
    requires |rl.table| > 0
  {
    var t := rl.table;
    var home := Home(hash, ip, |t|);
    var j := FirstHit(t, home, StopsFor(ip), 0);
    if j == |t| then (rl, false) else AdmitSlot(rl, Probe(home, j, |t|), ip, env)
  }

  function AdmitSlot(rl: Limiter, k: nat, ip: string, env: Env): (Limiter, bool)
    requires k < |rl.table|
  {
    var t := rl.table;
    if IsEmpty(t[k]) then
      if env.dupOk then
        (rl.(table := t[k := Slot(Some(ip), 1, env.now)], used := rl.used + 1), true)
      else
        (rl, false)
    else if t[k].count >= rl.maxPerIp then
      (rl.(table := t[k := t[k].(last := env.now)]), false)
    else
      (rl.(table := t[k := t[k].(count := t[k].count + 1, last := env.now)]), true)
  }

  ghost function Accept(rl: Limiter, hash: Hash, ip: string, env: Env): (Limiter, bool)
    requires Ok(rl)
  {
    Admit(AfterGrow(AfterSweep(rl, env), hash, env), hash, ip, env)
  }

  function Leave(rl: Limiter, hash: Hash, ip: string, now: int): Limiter
    requires |rl.table| > 0
  {
    var t := rl.table;
    var home := Home(hash, ip, |t|);
    var j := FirstHit(t, home, OpenFor(ip), 0);
    if j == |t| then rl else
      var k := Probe(home, j, |t|);
      rl.(table := t[k := t[k].(count := t[k].count - 1, last := now)])
  }

  function Create(maxPerIp: int, now: int): Limiter
  {
    Limiter(maxPerIp, ZeroSlots(INITIAL_SIZE), 0, now)
  }

  // ---------------------------------------------------------------- what is kept

  predicate OpenHaveIp(t: seq<Slot>)
  {
    forall i :: 0 <= i < |t| && t[i].count > 0 ==> t[i].ip.Some?
  }

  predicate SlotOk(s: Slot, maxPerIp: int)
  {
    0 <= s.count <= maxPerIp && (s.ip == None ==> s.count == 0)
  }

  predicate SlotsOk(t: seq<Slot>, maxPerIp: int)
  {
    forall i :: 0 <= i < |t| ==> SlotOk(t[i], maxPerIp)
  }

  /** Kept by every operation whatever happens: the per-slot bound. */
  predicate Ok(rl: Limiter)
  {
    && |rl.table| > 0
    && rl.maxPerIp > 0
    && SlotsOk(rl.table, rl.maxPerIp)
  }

  /** The open connections the table records for an ip, over all its slots. */
  ghost function Total(t: seq<Slot>, ip: string): int { Sum(t, OpenOf(ip)) }

  ghost predicate Unique(t: seq<Slot>)
  {
    forall i, j :: 0 <= i < j < |t| && t[i].ip.Some? && t[j].ip.Some? ==> t[i].ip != t[j].ip
  }

  /** No empty slot lies between an entry's home slot and the entry. */
  ghost predicate PathFull(t: seq<Slot>, hash: Hash, i: nat)
    requires i < |t| && t[i].ip.Some?
  {
    var home := Home(hash, t[i].ip.value, |t|);
    forall k :: 0 <= k < Offset(home, i, |t|) ==> t[Probe(home, k, |t|)].ip.Some?
  }

  ghost predicate Reachable(t: seq<Slot>, hash: Hash)
  {
    forall i :: 0 <= i < |t| && t[i].ip.Some? ==> PathFull(t, hash, i)
  }

  ghost predicate WellPlaced(t: seq<Slot>, hash: Hash) { Unique(t) && Reachable(t, hash) }

  /** No slot a sweep clears lies on the probe path of an entry that survives it. */
  ghost predicate SweepSafe(t: seq<Slot>, hash: Hash, now: int)
  {
    forall i :: 0 <= i < |t| && t[i].ip.Some? && !IsStale(t[i], now) ==>
      var home := Home(hash, t[i].ip.value, |t|);
      forall k :: 0 <= k < Offset(home, i, |t|) ==> !IsStale(t[Probe(home, k, |t|)], now)
  }
}
