/** What the limiter's timestamps are for (src/ratelimit.c): which entries an operation refreshes, which
    entries a sweep or a growth forgets, and for how long a dormant entry is remembered. */
module RateLimitActivity {
  import opened Wrappers
  import opened Probing
  import opened RateLimitTable
  import opened RateLimitInvariants

  // ---------------------------------------------------------------- what an operation refreshes

  /** From t to r nothing changes but entries of one ip, and those carry the time given. */
  ghost predicate RefreshesOnly(t: seq<Slot>, r: seq<Slot>, ip: string, now: int)
  {
    |r| == |t| && forall i :: 0 <= i < |t| ==> r[i] == t[i] || (r[i].ip == Some(ip) && r[i].last == now)
  }

  /** Some entry of the ip carries the time given. */
  ghost predicate Refreshed(t: seq<Slot>, ip: string, now: int)
  {
    exists i :: 0 <= i < |t| && t[i].ip == Some(ip) && t[i].last == now
  }

  /** A leave refreshes exactly the slot whose count it lowers, and changes no other. */
  ghost predicate LeftAt(t: seq<Slot>, r: seq<Slot>, ip: string, now: int)
  {
    && RefreshesOnly(t, r, ip, now)
    && (forall i :: 0 <= i < |t| ==> r[i] == t[i] || r[i].count == t[i].count - 1)
    && (Total(t, ip) > 0 ==> Refreshed(r, ip, now))
  }

  lemma LeaveRefreshes(rl: Limiter, hash: Hash, ip: string, now: int)
    requires Ok(rl)
    ensures LeftAt(rl.table, Leave(rl, hash, ip, now).table, ip, now)
  {
    var t := rl.table;
    var j := FirstHit(t, Home(hash, ip, |t|), OpenFor(ip), 0);
    if j == |t| {
      LeaveConserves(rl, hash, ip, now, ip);
    } else {
      var k := Probe(Home(hash, ip, |t|), j, |t|);
      assert Leave(rl, hash, ip, now).table[k].last == now;
    }
  }

  lemma AdmitRefreshes(rl: Limiter, hash: Hash, ip: string, env: Env)
    requires Ok(rl)
    ensures var (r, admitted) := Admit(rl, hash, ip, env);
      && RefreshesOnly(rl.table, r.table, ip, env.now)
      && (admitted ==> Refreshed(r.table, ip, env.now))
      && ((exists i :: 0 <= i < |rl.table| && rl.table[i].ip == Some(ip)) && !StopsAtEmpty(rl, hash, ip) ==>
            Refreshed(r.table, ip, env.now))
  {
    var t := rl.table;
    var home := Home(hash, ip, |t|);
    var j := FirstHit(t, home, StopsFor(ip), 0);
    if i :| 0 <= i < |t| && t[i].ip == Some(ip) { FirstHitFinds(t, home, StopsFor(ip), i); }
    if j < |t| {
      var k := Probe(home, j, |t|);
      assert SlotOk(t[k], rl.maxPerIp);
      assert !IsEmpty(t[k]) || env.dupOk ==> Admit(rl, hash, ip, env).0.table[k].last == env.now;
    }
  }

  /** After its sweep and its growth, an accept changes no entry but one of its ip, and that one it
      refreshes: whenever it admits, and also when it turns away an ip it finds at its limit. */
  lemma AcceptRefreshes(rl: Limiter, hash: Hash, ip: string, env: Env)
    requires Ok(rl)
    ensures var b := Probed(rl, hash, env);
      var (r, admitted) := Accept(rl, hash, ip, env);
      && RefreshesOnly(b.table, r.table, ip, env.now)
      && (admitted ==> Refreshed(r.table, ip, env.now))
      && ((exists i :: 0 <= i < |b.table| && b.table[i].ip == Some(ip)) && !StopsAtEmpty(b, hash, ip) ==>
            Refreshed(r.table, ip, env.now))
  {
    AdmitRefreshes(Probed(rl, hash, env), hash, ip, env);
  }

  // ---------------------------------------------------------------- what is forgotten

  /** The accept doubles the table. */
  ghost predicate Grows(rl: Limiter, env: Env) { GrowDue(AfterSweep(rl, env)) && env.growOk }

  /** A dormant entry the accept sweeps, or drops because it grows. */
  ghost predicate Forgets(rl: Limiter, env: Env, e: Slot)
  {
    (SweepDue(rl, env) && env.sweepNow - e.last > STALE_TIMEOUT_SECS) || Grows(rl, env)
  }

  function IpOf(op: Op): string { op.ip }

  lemma SweptStays(rl: Limiter, env: Env, e: Slot)
    requires Ok(rl) && e.ip.Some? && e.count >= 0
    ensures e in AfterSweep(rl, env).table <==>
      e in rl.table && !(SweepDue(rl, env) && e.count == 0 && env.sweepNow - e.last > STALE_TIMEOUT_SECS)
  {
    var t, r := rl.table, SweepTable(rl.table, env.sweepNow);
    if e in t && !IsStale(e, env.sweepNow) {
      var i :| 0 <= i < |t| && t[i] == e;
      assert r[i] == e;
    }
    if e in r {
      var i :| 0 <= i < |r| && r[i] == e;
      assert t[i] == e;
    }
  }

  lemma {:induction false} OpenHolds(t: seq<Slot>, e: Slot)
    ensures e in Open(t) <==> e in t && e.count > 0
  {
    if |t| > 0 {
      OpenHolds(t[..|t| - 1], e);
      assert t == t[..|t| - 1] + [t[|t| - 1]];
    }
  }

  lemma GrownStays(a: Limiter, hash: Hash, env: Env, e: Slot)
    requires Ok(a) && e.ip.Some? && e.count >= 0
    ensures e in AfterGrow(a, hash, env).table <==> e in a.table && !(GrowDue(a) && env.growOk && e.count == 0)
  {
    if GrowDue(a) && env.growOk {
      var size := |a.table| * GROWTH_FACTOR;
      var r := Rehash(a.table, hash, size);
      RehashKeepsOpen(a.table, hash, size);
      OpenHolds(a.table, e);
      OpenHolds(r, e);
    }
  }

  /** A table changed only in one slot, by an operation of an ip, holds the same entries of other ips. */
  lemma OtherStays(t: seq<Slot>, k: nat, s: Slot, ip: string, e: Slot)
    requires k < |t| && (t[k].ip == None || t[k].ip == Some(ip)) && s.ip == Some(ip)
    requires e.ip.Some? && e.ip != Some(ip)
    ensures e in t[k := s] <==> e in t
  {
    var r := t[k := s];
    if e in t {
      var i :| 0 <= i < |t| && t[i] == e;
      assert r[i] == e;
    }
    if e in r {
      var i :| 0 <= i < |r| && r[i] == e;
      assert t[i] == e;
    }
  }

  lemma AdmitLeavesOthers(b: Limiter, hash: Hash, ip: string, env: Env, e: Slot)
    requires Ok(b) && e.ip.Some? && e.ip != Some(ip)
    ensures e in Admit(b, hash, ip, env).0.table <==> e in b.table
  {
    var t := b.table;
    var j := FirstHit(t, Home(hash, ip, |t|), StopsFor(ip), 0);
    if j < |t| {
      var k := Probe(Home(hash, ip, |t|), j, |t|);
      if !(IsEmpty(t[k]) && !env.dupOk) {
        OtherStays(t, k, Admit(b, hash, ip, env).0.table[k], ip, e);
      }
    }
  }

  lemma LeaveLeavesOthers(rl: Limiter, hash: Hash, ip: string, now: int, e: Slot)
    requires Ok(rl) && e.ip.Some? && e.ip != Some(ip)
    ensures e in Leave(rl, hash, ip, now).table <==> e in rl.table
  {
    var t := rl.table;
    var j := FirstHit(t, Home(hash, ip, |t|), OpenFor(ip), 0);
    if j < |t| {
      var k := Probe(Home(hash, ip, |t|), j, |t|);
      OtherStays(t, k, Leave(rl, hash, ip, now).table[k], ip, e);
    }
  }

  lemma StepStaysIff(rl: Limiter, hash: Hash, op: Op, e: Slot)
    requires Ok(rl) && e.ip.Some? && e.ip != Some(IpOf(op)) && e.count >= 0
    ensures e in Step(rl, hash, op).table <==>
      e in rl.table && (e.count > 0 || (op.Accepting? ==> !Forgets(rl, op.env, e)))
  {
    match op
    case Accepting(ip, env) =>
      AfterSweepOk(rl, env);
      SweptStays(rl, env, e);
      GrownStays(AfterSweep(rl, env), hash, env, e);
      AfterGrowOk(AfterSweep(rl, env), hash, env);
      AdmitLeavesOthers(Probed(rl, hash, env), hash, ip, env, e);
    case Leaving(ip, now) =>
      LeaveLeavesOthers(rl, hash, ip, now, e);
  }

  /** No accept of the run forgets the entry. */
  ghost predicate Remembers(rl: Limiter, hash: Hash, ops: seq<Op>, e: Slot)
    requires Ok(rl)
  {
    |ops| > 0 ==>
      && Remembers(rl, hash, ops[..|ops| - 1], e)
      && (ops[|ops| - 1].Accepting? ==> !Forgets(Run(rl, hash, ops[..|ops| - 1]), ops[|ops| - 1].env, e))
  }

  predicate LeavesAlone(ops: seq<Op>, ip: string) { forall i :: 0 <= i < |ops| ==> IpOf(ops[i]) != ip }

  /** Over every run without operations of its ip: an open entry stays as it is, whatever is swept and
      however the table grows; a dormant one stays if and only if the table never grows and no sweep
      happens more than 60 seconds after it was last touched. */
  lemma {:induction false} EntryStaysIff(rl: Limiter, hash: Hash, ops: seq<Op>, e: Slot)
    requires Ok(rl) && e in rl.table && e.ip.Some? && LeavesAlone(ops, e.ip.value)
    ensures e in Run(rl, hash, ops).table <==> e.count > 0 || Remembers(rl, hash, ops, e)
  {
    if |ops| > 0 {
      var init, op := ops[..|ops| - 1], ops[|ops| - 1];
      EntryStaysIff(rl, hash, init, e);
      assert IpOf(op) != e.ip.value;
      var k :| 0 <= k < |rl.table| && rl.table[k] == e;
      assert SlotOk(e, rl.maxPerIp);
      StepStaysIff(Run(rl, hash, init), hash, op, e);
    }
  }

  /** Every sweep of the run comes at most 60 seconds after the time given, and the table never grows. */
  ghost predicate Soon(rl: Limiter, hash: Hash, ops: seq<Op>, since: int)
    requires Ok(rl)
  {
    |ops| > 0 ==>
      && Soon(rl, hash, ops[..|ops| - 1], since)
      && (ops[|ops| - 1].Accepting? ==>
            && ops[|ops| - 1].env.sweepNow <= since + 60
            && !Grows(Run(rl, hash, ops[..|ops| - 1]), ops[|ops| - 1].env))
  }

  lemma {:induction false} SoonRemembers(rl: Limiter, hash: Hash, ops: seq<Op>, since: int, e: Slot)
    requires Ok(rl) && Soon(rl, hash, ops, since) && e.last == since
    ensures Remembers(rl, hash, ops, e)
  {
    if |ops| > 0 { SoonRemembers(rl, hash, ops[..|ops| - 1], since, e); }
  }

  /** A connection that ends leaves an entry which no sweep of the next 60 seconds clears: until the
      table grows or the ip comes back, the entry of the leave is still there. */
  lemma LeftIsRemembered(rl: Limiter, hash: Hash, ip: string, now: int, ops: seq<Op>)
    requires Ok(rl) && Total(rl.table, ip) > 0 && LeavesAlone(ops, ip)
    requires Ok(Leave(rl, hash, ip, now)) && Soon(Leave(rl, hash, ip, now), hash, ops, now)
    ensures Refreshed(Run(Leave(rl, hash, ip, now), hash, ops).table, ip, now)
  {
    var left := Leave(rl, hash, ip, now);
    LeaveRefreshes(rl, hash, ip, now);
    var k :| 0 <= k < |left.table| && left.table[k].ip == Some(ip) && left.table[k].last == now;
    var e := left.table[k];
    SoonRemembers(left, hash, ops, now, e);
    EntryStaysIff(left, hash, ops, e);
    var r := Run(left, hash, ops).table;
    var i :| 0 <= i < |r| && r[i] == e;
  }

  // ---------------------------------------------------------------- how long dormant entries are kept

  function TimeOf(op: Op): int { match op case Accepting(_, env) => env.now case Leaving(_, now) => now }

  function Clock(start: int, ops: seq<Op>): int { if |ops| == 0 then start else TimeOf(ops[|ops| - 1]) }

  /** The clock never goes back, and a sweep reads it after the accept that starts it. */
  predicate Clocked(start: int, ops: seq<Op>)
  {
    |ops| > 0 ==>
      var init, op := ops[..|ops| - 1], ops[|ops| - 1];
      && Clocked(start, init) && TimeOf(op) >= Clock(start, init)
      && (op.Accepting? ==> op.env.sweepNow >= op.env.now)
  }

  /** Every dormant entry was touched since 60 seconds before the last sweep. */
  predicate Swept(rl: Limiter)
  {
    forall i :: 0 <= i < |rl.table| && IsDormant(rl.table[i]) ==> rl.table[i].last >= rl.lastSweep - STALE_TIMEOUT_SECS
  }

  lemma ProbedSwept(rl: Limiter, hash: Hash, env: Env)
    requires Ok(rl) && Swept(rl) && env.sweepNow >= env.now >= rl.lastSweep
    ensures var b := Probed(rl, hash, env);
      Swept(b) && rl.lastSweep <= b.lastSweep <= env.now && env.now - b.lastSweep < STALE_TIMEOUT_SECS
  {
    var a := AfterSweep(rl, env);
    AfterSweepOk(rl, env);
    if GrowDue(a) && env.growOk {
      RehashKeepsOpen(a.table, hash, |a.table| * GROWTH_FACTOR);
    }
  }

  lemma StepSwept(rl: Limiter, hash: Hash, op: Op)
    requires Ok(rl) && Swept(rl) && TimeOf(op) >= rl.lastSweep
    requires op.Accepting? ==> op.env.sweepNow >= op.env.now
    ensures var r := Step(rl, hash, op);
      Swept(r) && r.lastSweep <= TimeOf(op) && (op.Accepting? ==> TimeOf(op) - r.lastSweep < STALE_TIMEOUT_SECS)
  {
    match op
    case Accepting(ip, env) =>
      var b := Probed(rl, hash, env);
      var r := Accept(rl, hash, ip, env).0;
      ProbedSwept(rl, hash, env);
      AcceptRefreshes(rl, hash, ip, env);
    case Leaving(ip, now) =>
      LeaveRefreshes(rl, hash, ip, now);
  }

  lemma {:induction false} RunSwept(rl: Limiter, hash: Hash, ops: seq<Op>)
    requires Ok(rl) && Swept(rl) && Clocked(rl.lastSweep, ops)
    ensures var r := Run(rl, hash, ops);
      && Swept(r) && r.lastSweep <= Clock(rl.lastSweep, ops)
      && (|ops| > 0 && ops[|ops| - 1].Accepting? ==> Clock(rl.lastSweep, ops) - r.lastSweep < STALE_TIMEOUT_SECS)
  {
    if |ops| > 0 {
      var n := |ops| - 1;
      RunSwept(rl, hash, ops[..n]);
      StepSwept(Run(rl, hash, ops[..n]), hash, ops[n]);
    }
  }

  /** Whatever comes and goes, after every accept each dormant entry was touched less than 120 seconds
      ago: the table does not remember ips that have long gone. */
  lemma DormantAreRecent(maxPerIp: int, start: int, hash: Hash, ops: seq<Op>, ip: string, env: Env, r: Limiter)
    requires maxPerIp > 0 && Ok(Create(maxPerIp, start)) && Clocked(start, ops + [Accepting(ip, env)])
    requires r == Run(Create(maxPerIp, start), hash, ops + [Accepting(ip, env)])
    ensures forall i :: 0 <= i < |r.table| && IsDormant(r.table[i]) ==> env.now - r.table[i].last < 120
  {
    RunSwept(Create(maxPerIp, start), hash, ops + [Accepting(ip, env)]);
  }
}
