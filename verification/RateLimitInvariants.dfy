/** What every run of the limiter keeps. */
module RateLimitInvariants {
  import opened Wrappers
  import opened Sums
  import opened Probing
  import opened RateLimitTable

  // ---------------------------------------------------------------- the per-slot bound

  lemma {:induction false} RehashSlotsOk(t: seq<Slot>, hash: Hash, size: nat, maxPerIp: int)
    requires size > 0 && OpenHaveIp(t) && SlotsOk(t, maxPerIp) && maxPerIp > 0
    ensures SlotsOk(Rehash(t, hash, size), maxPerIp)
  {
    if |t| > 0 {
      RehashSlotsOk(t[..|t| - 1], hash, size, maxPerIp);
    }
  }

  lemma AfterSweepOk(rl: Limiter, env: Env)
    requires Ok(rl)
    ensures Ok(AfterSweep(rl, env))
  {
  }

  lemma AfterGrowOk(rl: Limiter, hash: Hash, env: Env)
    requires Ok(rl)
    ensures Ok(AfterGrow(rl, hash, env))
  {
    RehashSlotsOk(rl.table, hash, |rl.table| * GROWTH_FACTOR, rl.maxPerIp);
  }

  /** No operation ever lets one slot count past the limit. */
  lemma AcceptOk(rl: Limiter, hash: Hash, ip: string, env: Env)
    requires Ok(rl)
    ensures Ok(Accept(rl, hash, ip, env).0)
  {
    AfterSweepOk(rl, env);
    AfterGrowOk(AfterSweep(rl, env), hash, env);
  }

  lemma LeaveOk(rl: Limiter, hash: Hash, ip: string, now: int)
    requires Ok(rl)
    ensures Ok(Leave(rl, hash, ip, now))
  {
  }

  // ---------------------------------------------------------------- conservation

  lemma SweepKeepsTotals(t: seq<Slot>, now: int, ip: string)
    requires forall i :: 0 <= i < |t| ==> t[i].count >= 0
    ensures Total(SweepTable(t, now), ip) == Total(t, ip)
  {
    SumEq(SweepTable(t, now), t, OpenOf(ip), OpenOf(ip));
  }

  /** The open entries of a table, as a multiset. */
  ghost function Open(t: seq<Slot>): multiset<Slot>
  {
    if |t| == 0 then multiset{}
    else Open(t[..|t| - 1]) + (if t[|t| - 1].count > 0 then multiset{t[|t| - 1]} else multiset{})
  }

  lemma {:induction false} OpenFill(t: seq<Slot>, k: nat, e: Slot)
    requires k < |t| && t[k].count <= 0 && e.count > 0
    ensures Open(t[k := e]) == Open(t) + multiset{e}
  {
    var n := |t| - 1;
    if k < n {
      assert t[k := e][..n] == t[..n][k := e];
      OpenFill(t[..n], k, e);
    } else {
      assert t[k := e][..n] == t[..n];
    }
  }

  lemma {:induction false} OpenOfZeros(size: nat)
    ensures Open(ZeroSlots(size)) == multiset{}
  {
    if size > 0 {
      assert ZeroSlots(size)[..size - 1] == ZeroSlots(size - 1);
      OpenOfZeros(size - 1);
    }
  }

  /** A table with fewer open entries than slots has a free slot. */
  lemma {:induction false} FreeSlot(t: seq<Slot>) returns (k: nat)
    requires |Open(t)| < |t|
    requires forall i :: 0 <= i < |t| ==> t[i].count >= 0
    ensures k < |t| && t[k].count == 0
  {
    var n := |t| - 1;
    if t[n].count == 0 {
      k := n;
    } else {
      k := FreeSlot(t[..n]);
    }
  }

  lemma {:induction false} OpenBound(t: seq<Slot>)
    ensures |Open(t)| <= |t|
  {
    if |t| > 0 { OpenBound(t[..|t| - 1]); }
  }

  /** While a table is rebuilt into one at least as large, each move finds a free slot. */
  lemma MoveFindsRoom(p: seq<Slot>, hash: Hash, size: nat, r: seq<Slot>, ip: string)
    requires |r| == size && |p| < size && Open(r) == Open(p)
    requires forall i :: 0 <= i < size ==> r[i].count >= 0
    ensures FirstHit(r, Home(hash, ip, size), FreeForMove(), 0) < size
  {
    OpenBound(p);
    var k := FreeSlot(r);
    FirstHitFinds(r, Home(hash, ip, size), FreeForMove(), k);
  }

  lemma MoveKeepsOpen(p: seq<Slot>, hash: Hash, r: seq<Slot>, e: Slot)
    requires |p| < |r| && Open(r) == Open(p) && e.count > 0 && e.ip.Some?
    requires forall i :: 0 <= i < |r| ==> r[i].count > 0 || r[i] == ZERO_SLOT
    ensures Open(Move(r, hash, e)) == Open(p) + multiset{e}
  {
    var home := Home(hash, e.ip.value, |r|);
    MoveFindsRoom(p, hash, |r|, r, e.ip.value);
    OpenFill(r, Probe(home, FirstHit(r, home, FreeForMove(), 0), |r|), e);
  }

  /** Growing moves every open entry and nothing else: no entry is lost, duplicated or left
      dormant, whatever the hash. */
  lemma {:induction false} RehashKeepsOpen(t: seq<Slot>, hash: Hash, size: nat)
    requires size > 0 && OpenHaveIp(t) && |t| <= size
    requires forall i :: 0 <= i < |t| ==> t[i].count >= 0
    ensures var r := Rehash(t, hash, size);
      && Open(r) == Open(t)
      && (forall i :: 0 <= i < size ==> r[i].count > 0 || r[i] == ZERO_SLOT)
  {
    if |t| == 0 {
      OpenOfZeros(size);
    } else {
      var p := t[..|t| - 1];
      var e := t[|t| - 1];
      RehashKeepsOpen(p, hash, size);
      if e.count > 0 {
        MoveKeepsOpen(p, hash, Rehash(p, hash, size), e);
      }
    }
  }

  /** The totals of a table depend only on its open entries. */
  lemma {:induction false} RehashKeepsTotals(t: seq<Slot>, hash: Hash, size: nat, ip: string)
    requires size > 0 && OpenHaveIp(t) && |t| <= size
    requires forall i :: 0 <= i < |t| ==> t[i].count >= 0
    ensures Total(Rehash(t, hash, size), ip) == Total(t, ip)
  {
    if |t| == 0 {
      SumZero(Rehash(t, hash, size), OpenOf(ip));
    } else {
      var p := t[..|t| - 1];
      var e := t[|t| - 1];
      RehashKeepsTotals(p, hash, size, ip);
      if e.count > 0 {
        var r := Rehash(p, hash, size);
        RehashKeepsOpen(p, hash, size);
        var home := Home(hash, e.ip.value, size);
        MoveFindsRoom(p, hash, size, r, e.ip.value);
        SumUpdate(r, Probe(home, FirstHit(r, home, FreeForMove(), 0), size), e, OpenOf(ip));
      }
    }
  }

  lemma AfterGrowKeepsTotals(rl: Limiter, hash: Hash, env: Env, ip: string)
    requires Ok(rl)
    ensures Total(AfterGrow(rl, hash, env).table, ip) == Total(rl.table, ip)
  {
    if GrowDue(rl) && env.growOk {
      RehashKeepsTotals(rl.table, hash, |rl.table| * GROWTH_FACTOR, ip);
    }
  }

  lemma AdmitConserves(rl: Limiter, hash: Hash, ip: string, env: Env, x: string)
    requires Ok(rl)
    ensures var (rl', admitted) := Admit(rl, hash, ip, env);
      Total(rl'.table, x) == Total(rl.table, x) + (if admitted && x == ip then 1 else 0)
  {
    var t := rl.table;
    var home := Home(hash, ip, |t|);
    var j := FirstHit(t, home, StopsFor(ip), 0);
    if j < |t| {
      var k := Probe(home, j, |t|);
      SumUpdate(t, k, Admit(rl, hash, ip, env).0.table[k], OpenOf(x));
    }
  }

  /** An accept adds one open connection to the ip it admits and changes no other total,
      in every table: well placed or not, swept, grown or full. */
  lemma AcceptConserves(rl: Limiter, hash: Hash, ip: string, env: Env, x: string)
    requires Ok(rl)
    ensures var (rl', admitted) := Accept(rl, hash, ip, env);
      Total(rl'.table, x) == Total(rl.table, x) + (if admitted && x == ip then 1 else 0)
  {
    var a := AfterSweep(rl, env);
    AfterSweepOk(rl, env);
    SweepKeepsTotals(rl.table, env.sweepNow, x);
    AfterGrowOk(a, hash, env);
    AfterGrowKeepsTotals(a, hash, env, x);
    AdmitConserves(AfterGrow(a, hash, env), hash, ip, env, x);
  }

  /** A leave removes one open connection exactly when its ip has one somewhere in the table:
      the scan runs past empty slots, so it needs no reachability. */
  lemma LeaveConserves(rl: Limiter, hash: Hash, ip: string, now: int, x: string)
    requires Ok(rl)
    ensures Total(rl.table, ip) >= 0
    ensures Total(Leave(rl, hash, ip, now).table, x)
         == Total(rl.table, x) - (if x == ip && Total(rl.table, ip) > 0 then 1 else 0)
  {
    var t := rl.table;
    var home := Home(hash, ip, |t|);
    var j := FirstHit(t, home, OpenFor(ip), 0);
    SumNonNeg(t, OpenOf(ip));
    if j == |t| {
      if Total(t, ip) > 0 {
        var i := SumPositive(t, OpenOf(ip));
        FirstHitFinds(t, home, OpenFor(ip), i);
      }
    } else {
      var k := Probe(home, j, |t|);
      SumUpdate(t, k, Leave(rl, hash, ip, now).table[k], OpenOf(x));
    }
  }

  // ---------------------------------------------------------------- placement

  /** Writing an entry for ip at the first free probe of its home keeps a table well placed,
      provided no other slot holds ip and no occupied slot is lost. */
  lemma PlaceKeepsWellPlaced(t: seq<Slot>, hash: Hash, e: Slot, j: nat)
    requires |t| > 0 && e.ip.Some? && j < |t|
    requires WellPlaced(t, hash)
    requires var home := Home(hash, e.ip.value, |t|);
      && (forall k :: 0 <= k < j ==> t[Probe(home, k, |t|)].ip.Some?)
      && (forall i :: 0 <= i < |t| && i != Probe(home, j, |t|) ==> t[i].ip != e.ip)
    ensures var home := Home(hash, e.ip.value, |t|);
      WellPlaced(t[Probe(home, j, |t|) := e], hash)
  {
    var home := Home(hash, e.ip.value, |t|);
    var s := Probe(home, j, |t|);
    var r := t[s := e];
    forall i | 0 <= i < |r| && r[i].ip.Some? ensures PathFull(r, hash, i) {
      if i != s {
        assert PathFull(t, hash, i);
      } else {
        assert Offset(home, s, |t|) == j;
      }
    }
  }

  /** Under placement, the accept probe that reaches an empty slot proves the ip absent. */
  lemma EmptyStopMeansAbsent(t: seq<Slot>, hash: Hash, ip: string, i: nat)
    requires |t| > 0 && i < |t| && WellPlaced(t, hash)
    requires var home := Home(hash, ip, |t|); var j := FirstHit(t, home, StopsFor(ip), 0);
      j < |t| && IsEmpty(t[Probe(home, j, |t|)])
    ensures t[i].ip != Some(ip)
  {
    if t[i].ip == Some(ip) {
      assert PathFull(t, hash, i);
      FirstHitFinds(t, Home(hash, ip, |t|), StopsFor(ip), i);
    }
  }

  lemma AdmitKeepsWellPlaced(rl: Limiter, hash: Hash, ip: string, env: Env)
    requires Ok(rl) && WellPlaced(rl.table, hash)
    ensures WellPlaced(Admit(rl, hash, ip, env).0.table, hash)
  {
    var t := rl.table;
    var home := Home(hash, ip, |t|);
    var j := FirstHit(t, home, StopsFor(ip), 0);
    if j < |t| {
      var s := Probe(home, j, |t|);
      var r := Admit(rl, hash, ip, env).0.table;
      if IsEmpty(t[s]) {
        forall i | 0 <= i < |t| ensures t[i].ip != Some(ip) {
          EmptyStopMeansAbsent(t, hash, ip, i);
        }
        PlaceKeepsWellPlaced(t, hash, Slot(Some(ip), 1, env.now), j);
      } else {
        SameIpsKeepWellPlaced(t, r, hash);
      }
    }
  }

  lemma SameIpsKeepWellPlaced(t: seq<Slot>, r: seq<Slot>, hash: Hash)
    requires |t| == |r| && WellPlaced(t, hash)
    requires forall i :: 0 <= i < |t| ==> r[i].ip == t[i].ip
    ensures WellPlaced(r, hash)
  {
    forall i | 0 <= i < |r| && r[i].ip.Some? ensures PathFull(r, hash, i) {
      assert PathFull(t, hash, i);
    }
  }

  lemma LeaveKeepsWellPlaced(rl: Limiter, hash: Hash, ip: string, now: int)
    requires Ok(rl) && WellPlaced(rl.table, hash)
    ensures WellPlaced(Leave(rl, hash, ip, now).table, hash)
  {
    SameIpsKeepWellPlaced(rl.table, Leave(rl, hash, ip, now).table, hash);
  }

  /** The ips of a rehashed table are ips of open entries of the old one. */
  lemma {:induction false} RehashIps(t: seq<Slot>, hash: Hash, size: nat, i: nat) returns (k: nat)
    requires size > 0 && OpenHaveIp(t) && i < size
    requires Rehash(t, hash, size)[i].ip.Some?
    ensures k < |t| && t[k] == Rehash(t, hash, size)[i]
  {
    var n := |t| - 1;
    var r := Rehash(t[..n], hash, size);
    if Rehash(t, hash, size)[i] == r[i] {
      k := RehashIps(t[..n], hash, size, i);
    } else {
      k := n;
    }
  }

  /** With unique ips, the entry about to be moved is not in the table under construction. */
  lemma RehashAbsent(t: seq<Slot>, hash: Hash, size: nat)
    requires size > 0 && OpenHaveIp(t) && Unique(t) && |t| > 0 && t[|t| - 1].ip.Some?
    ensures var r := Rehash(t[..|t| - 1], hash, size);
      forall i :: 0 <= i < size ==> r[i].ip != t[|t| - 1].ip
  {
    var n := |t| - 1;
    var r := Rehash(t[..n], hash, size);
    forall i | 0 <= i < size ensures r[i].ip != t[n].ip {
      if r[i].ip.Some? {
        var k := RehashIps(t[..n], hash, size, i);
        assert t[k].ip != t[n].ip;
      }
    }
  }

  lemma MoveKeepsWellPlaced(p: seq<Slot>, hash: Hash, r: seq<Slot>, e: Slot)
    requires |p| < |r| && Open(r) == Open(p) && e.ip.Some?
    requires OpenHaveIp(r) && forall i :: 0 <= i < |r| ==> r[i].count > 0 || r[i] == ZERO_SLOT
    requires forall i :: 0 <= i < |r| ==> r[i].ip != e.ip
    requires WellPlaced(r, hash)
    ensures WellPlaced(Move(r, hash, e), hash)
  {
    MoveFindsRoom(p, hash, |r|, r, e.ip.value);
    PlaceKeepsWellPlaced(r, hash, e, FirstHit(r, Home(hash, e.ip.value, |r|), FreeForMove(), 0));
  }

  lemma {:induction false} RehashOpenHaveIp(t: seq<Slot>, hash: Hash, size: nat)
    requires size > 0 && OpenHaveIp(t)
    ensures OpenHaveIp(Rehash(t, hash, size))
  {
    if |t| > 0 { RehashOpenHaveIp(t[..|t| - 1], hash, size); }
  }

  /** Growing re-establishes gap-free probe chains: it needs unique ips, not reachability. */
  lemma {:induction false} RehashWellPlaced(t: seq<Slot>, hash: Hash, size: nat)
    requires size > 0 && OpenHaveIp(t) && |t| <= size && Unique(t)
    requires forall i :: 0 <= i < |t| ==> t[i].count >= 0
    ensures WellPlaced(Rehash(t, hash, size), hash)
  {
    if |t| > 0 {
      var p := t[..|t| - 1];
      var e := t[|t| - 1];
      RehashWellPlaced(p, hash, size);
      if e.count > 0 {
        var r := Rehash(p, hash, size);
        RehashKeepsOpen(p, hash, size);
        RehashAbsent(t, hash, size);
        RehashOpenHaveIp(p, hash, size);
        MoveKeepsWellPlaced(p, hash, r, e);
      }
    }
  }

  /** A sweep never duplicates an ip, and it keeps every entry reachable exactly when no slot
      it clears lies on the probe path of an entry that survives. */
  lemma SweepPlacement(t: seq<Slot>, hash: Hash, now: int)
    requires |t| > 0 && WellPlaced(t, hash)
    ensures Unique(SweepTable(t, now))
    ensures WellPlaced(SweepTable(t, now), hash) <==> SweepSafe(t, hash, now)
  {
    var r := SweepTable(t, now);
    if SweepSafe(t, hash, now) {
      forall i | 0 <= i < |r| && r[i].ip.Some? ensures PathFull(r, hash, i) {
        assert PathFull(t, hash, i);
      }
    }
    if Reachable(r, hash) {
      forall i | 0 <= i < |t| && t[i].ip.Some? && !IsStale(t[i], now)
        ensures var home := Home(hash, t[i].ip.value, |t|);
          forall k :: 0 <= k < Offset(home, i, |t|) ==> !IsStale(t[Probe(home, k, |t|)], now)
      {
        assert PathFull(r, hash, i);
      }
    }
  }

  /** The sweep an accept performs, if any, is safe. */
  ghost predicate AcceptSafe(rl: Limiter, hash: Hash, env: Env)
  {
    SweepDue(rl, env) ==> SweepSafe(rl.table, hash, env.sweepNow)
  }

  lemma AcceptKeepsWellPlaced(rl: Limiter, hash: Hash, ip: string, env: Env)
    requires Ok(rl) && WellPlaced(rl.table, hash) && AcceptSafe(rl, hash, env)
    ensures WellPlaced(Accept(rl, hash, ip, env).0.table, hash)
  {
    var a := AfterSweep(rl, env);
    AfterSweepOk(rl, env);
    SweepPlacement(rl.table, hash, env.sweepNow);
    var b := AfterGrow(a, hash, env);
    AfterGrowOk(a, hash, env);
    RehashWellPlaced(a.table, hash, |a.table| * GROWTH_FACTOR);
    AdmitKeepsWellPlaced(b, hash, ip, env);
  }

  /** One slot per ip: the total is that slot's count, so the limit is a limit per ip. */
  lemma UniqueBoundsTotal(rl: Limiter, ip: string)
    requires Ok(rl) && Unique(rl.table)
    ensures 0 <= Total(rl.table, ip) <= rl.maxPerIp
    ensures forall i :: 0 <= i < |rl.table| && rl.table[i].ip == Some(ip) ==> Total(rl.table, ip) == rl.table[i].count
  {
    var t := rl.table;
    forall i | 0 <= i < |t| && t[i].ip == Some(ip) ensures Total(t, ip) == t[i].count {
      SumSingle(t, i, OpenOf(ip));
    }
    if forall i :: 0 <= i < |t| ==> t[i].ip != Some(ip) {
      SumZero(t, OpenOf(ip));
    }
  }

  /** Exactly when an accept gives one ip two slots: its probe stops at an empty slot although
      the ip sits further on. */
  lemma AdmitUnique(rl: Limiter, hash: Hash, ip: string, env: Env)
    requires Ok(rl) && Unique(rl.table)
    ensures var t := rl.table;
      var home := Home(hash, ip, |t|);
      var j := FirstHit(t, home, StopsFor(ip), 0);
      Unique(Admit(rl, hash, ip, env).0.table) <==>
        !(j < |t| && IsEmpty(t[Probe(home, j, |t|)]) && env.dupOk && exists i :: 0 <= i < |t| && t[i].ip == Some(ip))
  {
    var t := rl.table;
    var home := Home(hash, ip, |t|);
    var j := FirstHit(t, home, StopsFor(ip), 0);
    if j < |t| && IsEmpty(t[Probe(home, j, |t|)]) && env.dupOk {
      var s := Probe(home, j, |t|);
      var r := Admit(rl, hash, ip, env).0.table;
      if i :| 0 <= i < |t| && t[i].ip == Some(ip) {
        assert r[i].ip == r[s].ip && i != s;
      }
    }
  }

  /** The table an accept probes, after its sweep and its growth. */
  ghost function Probed(rl: Limiter, hash: Hash, env: Env): (b: Limiter)
    requires Ok(rl)
    ensures Ok(b) && b.maxPerIp == rl.maxPerIp
  {
    AfterSweepOk(rl, env);
    AfterGrowOk(AfterSweep(rl, env), hash, env);
    AfterGrow(AfterSweep(rl, env), hash, env)
  }

  ghost predicate StopsAtEmpty(b: Limiter, hash: Hash, ip: string)
    requires Ok(b)
  {
    var home := Home(hash, ip, |b.table|);
    var j := FirstHit(b.table, home, StopsFor(ip), 0);
    j < |b.table| && IsEmpty(b.table[Probe(home, j, |b.table|)])
  }

  /** Sweep and growth keep unique ips unique, whatever the sweep does to the probe chains. */
  lemma ProbedUnique(rl: Limiter, hash: Hash, env: Env)
    requires Ok(rl) && Unique(rl.table)
    ensures Unique(Probed(rl, hash, env).table)
  {
    var a := AfterSweep(rl, env);
    AfterSweepOk(rl, env);
    assert Unique(a.table);
    RehashWellPlaced(a.table, hash, |a.table| * GROWTH_FACTOR);
  }

  lemma ProbedTotal(rl: Limiter, hash: Hash, env: Env, ip: string)
    requires Ok(rl)
    ensures Total(Probed(rl, hash, env).table, ip) == Total(rl.table, ip)
  {
    AfterSweepOk(rl, env);
    SweepKeepsTotals(rl.table, env.sweepNow, ip);
    AfterGrowKeepsTotals(AfterSweep(rl, env), hash, env, ip);
  }

  /** Exactly when a whole accept, its sweep and growth included, gives one ip two slots. */
  lemma AcceptUniqueIff(rl: Limiter, hash: Hash, ip: string, env: Env)
    requires Ok(rl) && Unique(rl.table)
    ensures var b := Probed(rl, hash, env);
      Unique(Accept(rl, hash, ip, env).0.table) <==>
        !(StopsAtEmpty(b, hash, ip) && env.dupOk && exists i :: 0 <= i < |b.table| && b.table[i].ip == Some(ip))
  {
    ProbedUnique(rl, hash, env);
    AdmitUnique(Probed(rl, hash, env), hash, ip, env);
  }

  /** An accept that takes an ip past the limit: the ip is at its limit, and the probe stops at an
      empty slot it can take, or at one of several slots of the ip. */
  ghost predicate Overruns(rl: Limiter, hash: Hash, ip: string, env: Env)
    requires Ok(rl)
  {
    var b := Probed(rl, hash, env);
    var home := Home(hash, ip, |b.table|);
    var j := FirstHit(b.table, home, StopsFor(ip), 0);
    && Total(rl.table, ip) == rl.maxPerIp
    && j < |b.table|
    && var s := b.table[Probe(home, j, |b.table|)];
    if IsEmpty(s) then env.dupOk else s.count < rl.maxPerIp
  }

  /** In any table, an accept keeps an ip within its limit if and only if it does not overrun. */
  lemma AcceptWithinLimitIff(rl: Limiter, hash: Hash, ip: string, env: Env)
    requires Ok(rl) && Total(rl.table, ip) <= rl.maxPerIp
    ensures Total(Accept(rl, hash, ip, env).0.table, ip) <= rl.maxPerIp <==> !Overruns(rl, hash, ip, env)
  {
    var b := Probed(rl, hash, env);
    ProbedTotal(rl, hash, env, ip);
    AdmitConserves(b, hash, ip, env, ip);
  }

  /** With one slot per ip the limit is passed exactly when the ip is at it and the probe, its chain cut
      by the sweep, stops at an empty slot. */
  lemma UniqueWithinLimitIff(rl: Limiter, hash: Hash, ip: string, env: Env)
    requires Ok(rl) && Unique(rl.table)
    ensures Total(Accept(rl, hash, ip, env).0.table, ip) <= rl.maxPerIp
      <==> !(Total(rl.table, ip) == rl.maxPerIp && env.dupOk && StopsAtEmpty(Probed(rl, hash, env), hash, ip))
  {
    var b := Probed(rl, hash, env);
    UniqueBoundsTotal(rl, ip);
    AcceptWithinLimitIff(rl, hash, ip, env);
    ProbedUnique(rl, hash, env);
    ProbedTotal(rl, hash, env, ip);
    UniqueBoundsTotal(b, ip);
  }

  // ---------------------------------------------------------------- the used counter

  /** What used counts beyond the occupied slots. */
  ghost function Excess(rl: Limiter): int { rl.used - Sum(rl.table, Occupied()) }

  /** The load bound accept maintains while growth succeeds. */
  ghost predicate Roomy(rl: Limiter)
  {
    |rl.table| > 0 && |rl.table| % 4 == 0 && rl.used * 4 <= |rl.table| * 3 && Excess(rl) >= 0
  }

  lemma {:induction false} SweepOccupied(t: seq<Slot>, now: int)
    ensures Sum(SweepTable(t, now), Occupied()) == Sum(t, Occupied()) - Sum(t, StaleAt(now))
  {
    if |t| > 0 {
      assert SweepTable(t, now)[..|t| - 1] == SweepTable(t[..|t| - 1], now);
      SweepOccupied(t[..|t| - 1], now);
    }
  }

  lemma {:induction false} RehashOccupied(t: seq<Slot>, hash: Hash, size: nat)
    requires size > 0 && OpenHaveIp(t) && |t| <= size
    requires forall i :: 0 <= i < |t| ==> t[i].count >= 0
    ensures Sum(Rehash(t, hash, size), Occupied()) == Sum(t, Occupied()) - Sum(t, Dormant())
  {
    if |t| == 0 {
      SumZero(ZeroSlots(size), Occupied());
    } else {
      var p := t[..|t| - 1];
      var e := t[|t| - 1];
      RehashOccupied(p, hash, size);
      if e.count > 0 {
        MoveOccupied(p, hash, size, e);
      }
    }
  }

  lemma MoveOccupied(p: seq<Slot>, hash: Hash, size: nat, e: Slot)
    requires OpenHaveIp(p) && |p| < size && e.ip.Some?
    requires forall i :: 0 <= i < |p| ==> p[i].count >= 0
    ensures var r := Rehash(p, hash, size); Sum(Move(r, hash, e), Occupied()) == Sum(r, Occupied()) + 1
  {
    var r := Rehash(p, hash, size);
    RehashKeepsOpen(p, hash, size);
    MoveFindsRoom(p, hash, size, r, e.ip.value);
    var home := Home(hash, e.ip.value, size);
    SumUpdate(r, Probe(home, FirstHit(r, home, FreeForMove(), 0), size), e, Occupied());
  }

  /** The dormant entries an accept drops by growing. */
  ghost function DroppedBy(rl: Limiter, env: Env): int
  {
    var a := AfterSweep(rl, env);
    if GrowDue(a) && env.growOk then Sum(a.table, Dormant()) else 0
  }

  /** Growth is the only thing that moves used away from the number of occupied slots, by
      exactly the dormant entries it drops; so the counter never falls below that number, and a
      sweep never takes it below zero, whether or not allocations succeed. */
  lemma AcceptExcess(rl: Limiter, hash: Hash, ip: string, env: Env)
    requires Ok(rl)
    ensures Excess(Accept(rl, hash, ip, env).0) == Excess(rl) + DroppedBy(rl, env)
    ensures DroppedBy(rl, env) >= 0
    ensures Excess(rl) >= 0 ==> AfterSweep(rl, env).used >= 0
  {
    var a := AfterSweep(rl, env);
    AfterSweepOk(rl, env);
    SweepOccupied(rl.table, env.sweepNow);
    SumNonNeg(a.table, Dormant());
    SumNonNeg(a.table, Occupied());
    AfterGrowOk(a, hash, env);
    RehashOccupied(a.table, hash, |a.table| * GROWTH_FACTOR);
    AdmitExcess(AfterGrow(a, hash, env), hash, ip, env);
  }

  /** An accept doubles the table exactly when, after its sweep, the counter is at three quarters of it
      or above and the allocation succeeds. */
  lemma GrowsAtThreeQuarters(rl: Limiter, hash: Hash, ip: string, env: Env)
    requires Ok(rl)
    ensures |Accept(rl, hash, ip, env).0.table|
         == if env.growOk && AfterSweep(rl, env).used * 4 >= |rl.table| * 3 then |rl.table| * 2 else |rl.table|
  {
    AfterSweepOk(rl, env);
    AfterGrowOk(AfterSweep(rl, env), hash, env);
  }

  lemma AdmitExcess(rl: Limiter, hash: Hash, ip: string, env: Env)
    requires Ok(rl)
    ensures Excess(Admit(rl, hash, ip, env).0) == Excess(rl)
  {
    var t := rl.table;
    var home := Home(hash, ip, |t|);
    var j := FirstHit(t, home, StopsFor(ip), 0);
    if j < |t| {
      var k := Probe(home, j, |t|);
      SumUpdate(t, k, Admit(rl, hash, ip, env).0.table[k], Occupied());
    }
  }

  lemma LeaveExcess(rl: Limiter, hash: Hash, ip: string, now: int)
    requires Ok(rl)
    ensures Excess(Leave(rl, hash, ip, now)) == Excess(rl)
  {
    SumEq(Leave(rl, hash, ip, now).table, rl.table, Occupied(), Occupied());
  }

  lemma {:induction false} VacantSlot(t: seq<Slot>) returns (k: nat)
    requires Sum(t, Occupied()) < |t|
    ensures k < |t| && t[k].ip == None
  {
    var n := |t| - 1;
    if t[n].ip == None {
      k := n;
    } else {
      k := VacantSlot(t[..n]);
    }
  }

  lemma AfterSweepRoomy(rl: Limiter, env: Env)
    requires Ok(rl) && Roomy(rl)
    ensures Roomy(AfterSweep(rl, env))
  {
    SumNonNeg(rl.table, StaleAt(env.sweepNow));
    SweepOccupied(rl.table, env.sweepNow);
  }

  lemma AfterGrowRoomy(rl: Limiter, hash: Hash, env: Env)
    requires Ok(rl) && Roomy(rl) && env.growOk
    ensures var b := AfterGrow(rl, hash, env); Roomy(b) && b.used * 4 < |b.table| * 3
  {
    if GrowDue(rl) { GrowRoomy(rl, hash); }
  }

  lemma DoublingRoom(used: int, n: nat)
    requires n > 0 && n % 4 == 0 && used * 4 <= n * 3
    ensures (n * GROWTH_FACTOR) % 4 == 0 && used * 4 < n * GROWTH_FACTOR * 3
  {
  }

  lemma GrowRoomy(rl: Limiter, hash: Hash)
    requires Ok(rl) && Roomy(rl)
    ensures var b := Grow(rl, hash); Roomy(b) && b.used * 4 < |b.table| * 3
  {
    var n := |rl.table|;
    SumNonNeg(rl.table, Dormant());
    RehashOccupied(rl.table, hash, n * GROWTH_FACTOR);
    DoublingRoom(rl.used, n);
    assert |Grow(rl, hash).table| == n * GROWTH_FACTOR;
  }

  lemma AdmitRoomy(rl: Limiter, hash: Hash, ip: string, env: Env)
    requires Ok(rl) && Roomy(rl) && rl.used * 4 < |rl.table| * 3
    ensures Roomy(Admit(rl, hash, ip, env).0)
  {
    AdmitExcess(rl, hash, ip, env);
  }

  lemma AcceptStaysRoomy(rl: Limiter, hash: Hash, ip: string, env: Env)
    requires Ok(rl) && Roomy(rl) && env.growOk
    ensures Roomy(Accept(rl, hash, ip, env).0)
    ensures var b := AfterGrow(AfterSweep(rl, env), hash, env); Sum(b.table, Occupied()) < |b.table|
  {
    var a := AfterSweep(rl, env);
    AfterSweepOk(rl, env);
    AfterSweepRoomy(rl, env);
    AfterGrowOk(a, hash, env);
    AfterGrowRoomy(a, hash, env);
    AdmitRoomy(AfterGrow(a, hash, env), hash, ip, env);
  }

  /** While growth succeeds the table always has an empty slot, so the probe loop of accept
      never runs off its end: the table-full refusal is unreachable. */
  lemma TableNeverFull(rl: Limiter, hash: Hash, ip: string, env: Env)
    requires Ok(rl) && Roomy(rl) && env.growOk
    ensures var b := AfterGrow(AfterSweep(rl, env), hash, env);
      FirstHit(b.table, Home(hash, ip, |b.table|), StopsFor(ip), 0) < |b.table|
  {
    var a := AfterSweep(rl, env);
    var b := AfterGrow(a, hash, env);
    AfterSweepOk(rl, env);
    AfterGrowOk(a, hash, env);
    AcceptStaysRoomy(rl, hash, ip, env);
    var k := VacantSlot(b.table);
    assert SlotOk(b.table[k], b.maxPerIp);
    FirstHitFinds(b.table, Home(hash, ip, |b.table|), StopsFor(ip), k);
  }

  lemma AdmitExact(rl: Limiter, hash: Hash, ip: string, env: Env)
    requires Ok(rl) && WellPlaced(rl.table, hash) && env.dupOk
    requires FirstHit(rl.table, Home(hash, ip, |rl.table|), StopsFor(ip), 0) < |rl.table|
    ensures Admit(rl, hash, ip, env).1 <==> Total(rl.table, ip) < rl.maxPerIp
  {
    var t := rl.table;
    var home := Home(hash, ip, |t|);
    var k := Probe(home, FirstHit(t, home, StopsFor(ip), 0), |t|);
    UniqueBoundsTotal(rl, ip);
    if IsEmpty(t[k]) {
      forall i | 0 <= i < |t| ensures OpenOf(ip)(t[i]) == 0 {
        EmptyStopMeansAbsent(t, hash, ip, i);
      }
      SumZero(t, OpenOf(ip));
    }
  }

  /** The limit is exact: with growth and strdup succeeding and a safe sweep, an accept admits
      an ip if and only if it has fewer than maxPerIp open connections. */
  lemma AcceptExact(rl: Limiter, hash: Hash, ip: string, env: Env)
    requires Ok(rl) && Roomy(rl) && WellPlaced(rl.table, hash) && AcceptSafe(rl, hash, env)
    requires env.growOk && env.dupOk
    ensures Accept(rl, hash, ip, env).1 <==> Total(rl.table, ip) < rl.maxPerIp
  {
    var a := AfterSweep(rl, env);
    var b := AfterGrow(a, hash, env);
    AfterSweepOk(rl, env);
    SweepPlacement(rl.table, hash, env.sweepNow);
    SweepKeepsTotals(rl.table, env.sweepNow, ip);
    AfterGrowOk(a, hash, env);
    AfterGrowKeepsTotals(a, hash, env, ip);
    RehashWellPlaced(a.table, hash, |a.table| * GROWTH_FACTOR);
    TableNeverFull(rl, hash, ip, env);
    AdmitExact(b, hash, ip, env);
  }

  // ---------------------------------------------------------------- whole runs

  datatype Op = Accepting(ip: string, env: Env) | Leaving(ip: string, now: int)

  ghost function Step(rl: Limiter, hash: Hash, op: Op): (r: Limiter)
    requires Ok(rl)
    ensures Ok(r)
  {
    match op
    case Accepting(ip, env) => AcceptOk(rl, hash, ip, env); Accept(rl, hash, ip, env).0
    case Leaving(ip, now) => Leave(rl, hash, ip, now)
  }

  ghost function Run(rl: Limiter, hash: Hash, ops: seq<Op>): (r: Limiter)
    requires Ok(rl)
    ensures Ok(r)
  {
    if |ops| == 0 then rl else Step(Run(rl, hash, ops[..|ops| - 1]), hash, ops[|ops| - 1])
  }

  /** The successful accepts of an ip in a run, less the leaves that found one of its entries open. */
  ghost function Balance(rl: Limiter, hash: Hash, ops: seq<Op>, ip: string): int
    requires Ok(rl)
  {
    if |ops| == 0 then 0 else
      var before := Run(rl, hash, ops[..|ops| - 1]);
      Balance(rl, hash, ops[..|ops| - 1], ip) +
      match ops[|ops| - 1]
      case Accepting(who, env) => if who == ip && Accept(before, hash, who, env).1 then 1 else 0
      case Leaving(who, now) => if who == ip && Total(before.table, ip) > 0 then -1 else 0
  }

  /** Over every run, the counts an ip has in the table, summed over however many slots it
      occupies, are its successful accepts minus its effective leaves. */
  lemma {:induction false} RunConserves(rl: Limiter, hash: Hash, ops: seq<Op>, ip: string)
    requires Ok(rl)
    ensures Total(Run(rl, hash, ops).table, ip) == Total(rl.table, ip) + Balance(rl, hash, ops, ip)
  {
    if |ops| > 0 {
      var before := Run(rl, hash, ops[..|ops| - 1]);
      RunConserves(rl, hash, ops[..|ops| - 1], ip);
      match ops[|ops| - 1]
      case Accepting(who, env) => AcceptConserves(before, hash, who, env, ip);
      case Leaving(who, now) => LeaveConserves(before, hash, who, now, ip);
    }
  }

  /** Every sweep of the run is safe where it happens. */
  ghost predicate SafeRun(rl: Limiter, hash: Hash, ops: seq<Op>)
    requires Ok(rl)
  {
    |ops| > 0 ==>
      && SafeRun(rl, hash, ops[..|ops| - 1])
      && (ops[|ops| - 1].Accepting? ==> AcceptSafe(Run(rl, hash, ops[..|ops| - 1]), hash, ops[|ops| - 1].env))
  }

  lemma CreateIsGood(maxPerIp: int, hash: Hash, now: int)
    requires maxPerIp > 0
    ensures var rl := Create(maxPerIp, now);
      Ok(rl) && WellPlaced(rl.table, hash) && Roomy(rl) && Excess(rl) == 0
    ensures forall ip :: Total(Create(maxPerIp, now).table, ip) == 0
  {
    var t := Create(maxPerIp, now).table;
    SumZero(t, Occupied());
    forall ip ensures Total(t, ip) == 0 { SumZero(t, OpenOf(ip)); }
  }

  /** From a fresh limiter, a run whose sweeps are safe keeps one reachable slot per ip, and no
      ip ever has more than maxPerIp open connections. */
  lemma {:induction false} RunKeepsLimit(maxPerIp: int, start: int, hash: Hash, ops: seq<Op>, ip: string)
    requires maxPerIp > 0
    requires Ok(Create(maxPerIp, start)) && SafeRun(Create(maxPerIp, start), hash, ops)
    ensures var r := Run(Create(maxPerIp, start), hash, ops);
      WellPlaced(r.table, hash) && r.maxPerIp == maxPerIp && 0 <= Total(r.table, ip) <= maxPerIp
  {
    var rl := Create(maxPerIp, start);
    CreateIsGood(maxPerIp, hash, start);
    if |ops| > 0 {
      var before := Run(rl, hash, ops[..|ops| - 1]);
      RunKeepsLimit(maxPerIp, start, hash, ops[..|ops| - 1], ip);
      match ops[|ops| - 1]
      case Accepting(who, env) => AcceptKeepsWellPlaced(before, hash, who, env);
      case Leaving(who, now) => LeaveKeepsWellPlaced(before, hash, who, now);
    }
    UniqueBoundsTotal(Run(rl, hash, ops), ip);
  }

  ghost predicate WithinLimit(rl: Limiter) { forall ip :: Total(rl.table, ip) <= rl.maxPerIp }

  /** No accept of the run overruns where it happens. */
  ghost predicate NoOverrun(rl: Limiter, hash: Hash, ops: seq<Op>)
    requires Ok(rl)
  {
    |ops| > 0 ==>
      && NoOverrun(rl, hash, ops[..|ops| - 1])
      && (ops[|ops| - 1].Accepting? ==>
            !Overruns(Run(rl, hash, ops[..|ops| - 1]), hash, ops[|ops| - 1].ip, ops[|ops| - 1].env))
  }

  lemma StepWithinLimitIff(rl: Limiter, hash: Hash, op: Op)
    requires Ok(rl) && WithinLimit(rl)
    ensures WithinLimit(Step(rl, hash, op)) <==> (op.Accepting? ==> !Overruns(rl, hash, op.ip, op.env))
  {
    match op
    case Accepting(ip, env) =>
      AcceptWithinLimitIff(rl, hash, ip, env);
      forall x | x != ip ensures Total(Step(rl, hash, op).table, x) <= rl.maxPerIp {
        AcceptConserves(rl, hash, ip, env, x);
      }
    case Leaving(ip, now) =>
      forall x ensures Total(Step(rl, hash, op).table, x) <= rl.maxPerIp {
        LeaveConserves(rl, hash, ip, now, x);
      }
  }

  predicate AllPrefixes<T>(s: seq<T>, q: seq<T> -> bool) { forall n :: 0 <= n <= |s| ==> q(s[..n]) }

  lemma AllPrefixesSnoc<T>(s: seq<T>, x: T, q: seq<T> -> bool)
    ensures AllPrefixes(s + [x], q) <==> AllPrefixes(s, q) && q(s + [x])
  {
    var r := s + [x];
    assert r[..|r|] == r;
    assert forall n :: 0 <= n <= |s| ==> s[..n] == r[..n];
  }

  ghost function StaysWithin(rl: Limiter, hash: Hash): seq<Op> -> bool
    requires Ok(rl)
  {
    (ops: seq<Op>) => WithinLimit(Run(rl, hash, ops))
  }

  /** No ip is past the limit at any moment of a run. */
  ghost predicate AlwaysWithin(rl: Limiter, hash: Hash, ops: seq<Op>)
    requires Ok(rl)
  {
    AllPrefixes(ops, StaysWithin(rl, hash))
  }

  /** Over every run, whatever its sweeps: no ip is ever past the limit, at any moment, if and only if
      no accept of the run overruns. */
  lemma {:induction false} RunWithinLimitIff(rl: Limiter, hash: Hash, ops: seq<Op>)
    requires Ok(rl) && WithinLimit(rl)
    ensures AlwaysWithin(rl, hash, ops) <==> NoOverrun(rl, hash, ops)
    ensures NoOverrun(rl, hash, ops) ==> WithinLimit(Run(rl, hash, ops))
  {
    if |ops| == 0 {
      assert ops[..0] == [];
    } else {
      var init, op := ops[..|ops| - 1], ops[|ops| - 1];
      assert init + [op] == ops;
      RunWithinLimitIff(rl, hash, init);
      AllPrefixesSnoc(init, op, StaysWithin(rl, hash));
      if NoOverrun(rl, hash, init) {
        StepWithinLimitIff(Run(rl, hash, init), hash, op);
      }
    }
  }

  /** The same from a fresh limiter. */
  lemma FreshRunWithinLimitIff(maxPerIp: int, start: int, hash: Hash, ops: seq<Op>)
    requires maxPerIp > 0
    ensures Ok(Create(maxPerIp, start))
    ensures AlwaysWithin(Create(maxPerIp, start), hash, ops) <==> NoOverrun(Create(maxPerIp, start), hash, ops)
  {
    CreateIsGood(maxPerIp, hash, start);
    RunWithinLimitIff(Create(maxPerIp, start), hash, ops);
  }

  ghost predicate GrowthSucceeds(ops: seq<Op>)
  {
    forall i :: 0 <= i < |ops| && ops[i].Accepting? ==> ops[i].env.growOk
  }

  /** The dormant entries dropped by the growths of a run. */
  ghost function Dropped(rl: Limiter, hash: Hash, ops: seq<Op>): int
    requires Ok(rl)
  {
    if |ops| == 0 then 0 else
      var last := ops[|ops| - 1];
      Dropped(rl, hash, ops[..|ops| - 1]) +
      if last.Accepting? then DroppedBy(Run(rl, hash, ops[..|ops| - 1]), last.env) else 0
  }

  /** Over every run, used is the number of occupied slots plus the dormant entries past growths
      dropped; and while growth succeeds the load stays at or under three quarters. */
  lemma {:induction false} RunKeepsLoad(maxPerIp: int, start: int, hash: Hash, ops: seq<Op>)
    requires maxPerIp > 0 && Ok(Create(maxPerIp, start))
    ensures var r := Run(Create(maxPerIp, start), hash, ops);
      && r.used == Sum(r.table, Occupied()) + Dropped(Create(maxPerIp, start), hash, ops)
      && Dropped(Create(maxPerIp, start), hash, ops) >= 0
      && (GrowthSucceeds(ops) ==> Roomy(r))
  {
    var rl := Create(maxPerIp, start);
    CreateIsGood(maxPerIp, hash, start);
    if |ops| > 0 {
      var p := ops[..|ops| - 1];
      var before := Run(rl, hash, p);
      RunKeepsLoad(maxPerIp, start, hash, p);
      match ops[|ops| - 1]
      case Accepting(who, env) =>
        AcceptExcess(before, hash, who, env);
        if GrowthSucceeds(ops) {
          assert GrowthSucceeds(p);
          AcceptStaysRoomy(before, hash, who, env);
        }
      case Leaving(who, now) =>
        LeaveExcess(before, hash, who, now);
        if GrowthSucceeds(ops) { assert GrowthSucceeds(p); }
    }
  }

  // ---------------------------------------------------------------- the unsafe sweep

  const COLLIDING: Hash := _ => 0

  const A_ARRIVES := Accepting("a", Env(0, 0, true, true))
  const B_ARRIVES := Accepting("b", Env(0, 0, true, true))
  const A_LEAVES := Leaving("a", 0)
  const B_ARRIVES_AGAIN := Accepting("b", Env(61, 61, true, true))

  /** The table after the first two arrivals, and after the first departure. */
  function TwoIn(countOfA: int): Limiter
  {
    Limiter(1, ZeroSlots(INITIAL_SIZE)[0 := Slot(Some("a"), countOfA, 0)][1 := Slot(Some("b"), 1, 0)], 2, 0)
  }

  lemma BothArrive()
    ensures Ok(Create(1, 0)) && Step(Step(Create(1, 0), COLLIDING, A_ARRIVES), COLLIDING, B_ARRIVES) == TwoIn(1)
  {
    var r1 := Step(Create(1, 0), COLLIDING, A_ARRIVES);
    assert r1 == Limiter(1, ZeroSlots(INITIAL_SIZE)[0 := Slot(Some("a"), 1, 0)], 1, 0);
    var t := r1.table;
    assert t[0].ip != Some("b") && IsEmpty(t[1]);
    assert FirstHit(t, 0, StopsFor("b"), 0) == FirstHit(t, 0, StopsFor("b"), 1) == 1;
  }

  lemma FirstDeparts()
    ensures Ok(TwoIn(1)) && Step(TwoIn(1), COLLIDING, A_LEAVES) == TwoIn(0)
  {
    var t := TwoIn(1).table;
    assert FirstHit(t, 0, OpenFor("a"), 0) == 0;
    assert Step(TwoIn(1), COLLIDING, A_LEAVES).table == TwoIn(0).table;
  }

  /** An ip whose home slot is empty is admitted there, wherever else it may sit. */
  lemma AdmitAtEmptyHome(rl: Limiter, hash: Hash, ip: string, env: Env)
    requires Ok(rl) && env.dupOk && IsEmpty(rl.table[Home(hash, ip, |rl.table|)])
    ensures Admit(rl, hash, ip, env).1
    ensures Admit(rl, hash, ip, env).0.table == rl.table[Home(hash, ip, |rl.table|) := Slot(Some(ip), 1, env.now)]
  {
    assert FirstHit(rl.table, Home(hash, ip, |rl.table|), StopsFor(ip), 0) == 0;
  }

  lemma SecondArrivesAgain(rl: Limiter)
    requires rl == TwoIn(0)
    ensures Ok(rl) && Accept(rl, COLLIDING, "b", B_ARRIVES_AGAIN.env).1
    ensures !Unique(Accept(rl, COLLIDING, "b", B_ARRIVES_AGAIN.env).0.table)
    ensures Total(Accept(rl, COLLIDING, "b", B_ARRIVES_AGAIN.env).0.table, "b") == 2
  {
    var env := B_ARRIVES_AGAIN.env;
    var a := AfterSweep(rl, env);
    FirstSlotSwept(rl);
    AdmitAtEmptyHome(a, COLLIDING, "b", env);
    var t := Admit(a, COLLIDING, "b", env).0.table;
    assert t[0].ip == Some("b") && t[1].ip == Some("b");
    SumSingle(rl.table, 1, OpenOf("b"));
    AcceptConserves(rl, COLLIDING, "b", env, "b");
  }

  lemma FirstSlotSwept(rl: Limiter)
    requires rl == TwoIn(0)
    ensures Ok(rl)
    ensures var a := AfterSweep(rl, B_ARRIVES_AGAIN.env);
      && Ok(a) && |a.table| == INITIAL_SIZE && IsEmpty(a.table[0]) && a.table[1] == Slot(Some("b"), 1, 0)
      && AfterGrow(a, COLLIDING, B_ARRIVES_AGAIN.env) == a
  {
    var env := B_ARRIVES_AGAIN.env;
    AfterSweepOk(rl, env);
    SumNonNeg(rl.table, StaleAt(61));
  }

  lemma RunSnoc(rl: Limiter, hash: Hash, ops: seq<Op>, op: Op)
    requires Ok(rl)
    ensures Run(rl, hash, ops + [op]) == Step(Run(rl, hash, ops), hash, op)
  {
    assert (ops + [op])[..|ops|] == ops;
  }

  /** A run from a fresh limiter with limit 1, all of whose growths succeed, after which one ip
      holds two slots and two open connections: two ips with the same home slot arrive, the
      first leaves, a sweep clears its slot, and the second, still connected, is admitted again. */
  lemma SweepBreaksUniqueness() returns (rl: Limiter, ops: seq<Op>)
    ensures rl == Create(1, 0) && Ok(rl) && GrowthSucceeds(ops)
    ensures !Unique(Run(rl, COLLIDING, ops).table)
    ensures Total(Run(rl, COLLIDING, ops).table, "b") == 2
  {
    rl, ops := HalfWay();
    var half := Run(rl, COLLIDING, ops);
    SecondArrivesAgain(half);
    RunSnoc(rl, COLLIDING, ops, B_ARRIVES_AGAIN);
    ops := ops + [B_ARRIVES_AGAIN];
  }

  lemma HalfWay() returns (rl: Limiter, ops: seq<Op>)
    ensures rl == Create(1, 0) && Ok(rl) && GrowthSucceeds(ops) && Run(rl, COLLIDING, ops) == TwoIn(0)
  {
    rl := Create(1, 0);
    BothArrive();
    FirstDeparts();
    RunSnoc(rl, COLLIDING, [], A_ARRIVES);
    RunSnoc(rl, COLLIDING, [] + [A_ARRIVES], B_ARRIVES);
    RunSnoc(rl, COLLIDING, [] + [A_ARRIVES] + [B_ARRIVES], A_LEAVES);
    ops := [] + [A_ARRIVES] + [B_ARRIVES] + [A_LEAVES];
  }
}
