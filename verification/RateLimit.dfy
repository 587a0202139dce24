/** Per-IP connection limiting (src/ratelimit.c): an open-addressing table updated in place.
    Each operation is proved to do to the table what RateLimitTable says; RateLimitInvariants
    says what that keeps. Every operation runs under one mutex, so it is one atomic step. */
module RateLimit {
  import opened Wrappers
  import opened Sums
  import opened Probing
  import opened RateLimitTable
  import opened RateLimitActivity
  import RateLimitInvariants

  class RateLimit {
    const maxPerIp: int
    const hash: Hash
    var table: array<Slot>
    var used: nat
    var lastSweep: int

    ghost function State(): Limiter
      reads this, table
    {
      Limiter(maxPerIp, table[..], used, lastSweep)
    }

    /** Holds after every operation, even when growth or strdup fails. */
    ghost predicate Valid()
      reads this, table
    {
      Ok(State()) && RateLimitInvariants.Excess(State()) >= 0
    }

    constructor (maxPerIp: int, hash: Hash, now: int)
      requires maxPerIp > 0
      ensures Valid() && fresh(table) && this.hash == hash
      ensures State() == Create(maxPerIp, now)
    {
      this.maxPerIp := maxPerIp;
      this.hash := hash;
      table := new Slot[INITIAL_SIZE](_ => ZERO_SLOT);
      used := 0;
      lastSweep := now;
      new;
      assert table[..] == ZeroSlots(INITIAL_SIZE);
      RateLimitInvariants.CreateIsGood(maxPerIp, hash, now);
    }

    /** The new table is filled first and swapped in last; a failed allocation changes nothing. */
    method Grow(calloced: bool) returns (ok: bool)
      requires Valid()
      modifies this`table
      ensures Ok(State()) && RateLimitInvariants.Excess(State()) >= 0
      ensures ok == calloced
      ensures ok ==> fresh(table) && State() == RateLimitTable.Grow(old(State()), hash)
      ensures !ok ==> table == old(table) && State() == old(State())
    {
      if !calloced {
        return false;
      }
      var n := table.Length;
      var newSize := n * GROWTH_FACTOR;
      var newTable := new Slot[newSize](_ => ZERO_SLOT);
      assert newTable[..] == ZeroSlots(newSize);
      for i := 0 to n
        invariant table == old(table) && table[..] == old(table[..])
        invariant newTable[..] == Rehash(table[..i], hash, newSize)
      {
        assert SlotOk(table[i], maxPerIp) && table[..i + 1][..i] == table[..i];
        if table[i].count > 0 {
          MoveInto(newTable, table[i]);
        }
      }
      assert table[..n] == table[..];
      GrownIsValid(State());
      table := newTable;
      assert State() == RateLimitTable.Grow(old(State()), hash);
      ok := true;
    }

    lemma GrownIsValid(rl: Limiter)
      requires Ok(rl) && RateLimitInvariants.Excess(rl) >= 0
      ensures var r := RateLimitTable.Grow(rl, hash); Ok(r) && RateLimitInvariants.Excess(r) >= 0
    {
      var newSize := |rl.table| * GROWTH_FACTOR;
      RateLimitInvariants.RehashOccupied(rl.table, hash, newSize);
      RateLimitInvariants.RehashSlotsOk(rl.table, hash, newSize, rl.maxPerIp);
      SumNonNeg(rl.table, Dormant());
    }

    /** The probe loop of grow for one open entry. */
    method MoveInto(newTable: array<Slot>, e: Slot)
      requires newTable.Length > 0 && e.ip.Some?
      modifies newTable
      ensures newTable[..] == Move(old(newTable[..]), hash, e)
    {
      ghost var before := newTable[..];
      var newSize := newTable.Length;
      var idx := Home(hash, e.ip.value, newSize);
      for j := 0 to newSize
        invariant newTable[..] == before
        invariant FirstHit(before, idx, FreeForMove(), 0) == FirstHit(before, idx, FreeForMove(), j)
      {
        var slot := Probe(idx, j, newSize);
        if newTable[slot].count == 0 {
          newTable[slot] := e;
          break;
        }
      }
    }

    lemma StaleWithinUsed(t: seq<Slot>, now: int, i: nat)
      requires i < |t| && IsStale(t[i], now)
      ensures Sum(t[..i], StaleAt(now)) + 1 <= Sum(t, Occupied())
    {
      SumLe(t[..i + 1], t[..i + 1], StaleAt(now), Occupied());
      SumTake(t, i, StaleAt(now));
      assert t == t[..i + 1] + t[i + 1..];
      SumConcat(t[..i + 1], t[i + 1..], Occupied());
      SumNonNeg(t[i + 1..], Occupied());
    }

    /** The decrement never takes the unsigned counter below zero. */
    method SweepStale(now: int)
      requires Valid()
      modifies this`used, table
      ensures Valid()
      ensures State() == Sweep(old(State()), now)
    {
      ghost var t := table[..];
      for i := 0 to table.Length
        invariant forall k :: 0 <= k < i ==> table[k] == SweepSlot(t[k], now)
        invariant forall k :: i <= k < table.Length ==> table[k] == t[k]
        invariant used == old(used) - Sum(t[..i], StaleAt(now))
      {
        assert table[i] == t[i];
        SumTake(t, i, StaleAt(now));
        if table[i].count == 0 && table[i].ip.Some? {
          if now - table[i].last > STALE_TIMEOUT_SECS {
            StaleWithinUsed(t, now, i);
            table[i] := table[i].(ip := None);
            used := used - 1;
          }
        }
      }
      assert t[..table.Length] == t;
      assert table[..] == SweepTable(t, now);
      RateLimitInvariants.SweepOccupied(t, now);
    }

    method Accept(ip: string, env: Env) returns (admitted: bool)
      requires Valid()
      modifies this, table
      ensures Valid() && (table == old(table) || fresh(table))
      ensures (State(), admitted) == RateLimitTable.Accept(old(State()), hash, ip, env)
      ensures admitted ==> Refreshed(table[..], ip, env.now)
    {
      RateLimitInvariants.AcceptExcess(State(), hash, ip, env);
      RateLimitInvariants.AcceptOk(State(), hash, ip, env);
      RateLimitInvariants.AfterSweepOk(State(), env);
      if env.now - lastSweep >= STALE_TIMEOUT_SECS {
        SweepStale(env.sweepNow);
        lastSweep := env.now;
      }
      assert State() == AfterSweep(old(State()), env);
      if used * 4 >= table.Length * 3 {
        var _ := Grow(env.growOk);
      }
      ghost var s := State();
      assert s == AfterGrow(AfterSweep(old(State()), env), hash, env);
      admitted := Insert(ip, env);
      AcceptRefreshes(old(State()), hash, ip, env);
    }

    /** The probe loop of accept. */
    method Insert(ip: string, env: Env) returns (admitted: bool)
      requires Valid()
      modifies this`used, table
      ensures Valid()
      ensures (State(), admitted) == Admit(old(State()), hash, ip, env)
    {
      RateLimitInvariants.AdmitExcess(State(), hash, ip, env);
      ghost var t := table[..];
      var n := table.Length;
      var idx := Home(hash, ip, n);
      for i := 0 to n
        invariant table[..] == t && used == old(used)
        invariant FirstHit(t, idx, StopsFor(ip), 0) == FirstHit(t, idx, StopsFor(ip), i)
      {
        var slot := Probe(idx, i, n);
        if table[slot].count == 0 && table[slot].ip == None {
          assert Admit(old(State()), hash, ip, env) == AdmitSlot(old(State()), slot, ip, env);
          admitted := Occupy(slot, ip, env);
          return;
        }
        assert SlotOk(t[slot], maxPerIp);
        if table[slot].ip.value == ip {
          assert Admit(old(State()), hash, ip, env) == AdmitSlot(old(State()), slot, ip, env);
          admitted := Recount(slot, ip, env);
          return;
        }
      }
      return false;
    }

    /** The probe stopped at an empty slot. */
    method Occupy(slot: nat, ip: string, env: Env) returns (admitted: bool)
      requires slot < table.Length && IsEmpty(table[slot])
      modifies this`used, table
      ensures (State(), admitted) == AdmitSlot(old(State()), slot, ip, env)
    {
      if !env.dupOk {
        return false;
      }
      table[slot] := Slot(Some(ip), 1, env.now);
      used := used + 1;
      return true;
    }

    /** The probe stopped at the ip's own slot. */
    method Recount(slot: nat, ip: string, env: Env) returns (admitted: bool)
      requires slot < table.Length && table[slot].ip == Some(ip)
      modifies table
      ensures (State(), admitted) == AdmitSlot(old(State()), slot, ip, env)
    {
      table[slot] := table[slot].(last := env.now);
      if table[slot].count >= maxPerIp {
        return false;
      }
      table[slot] := table[slot].(count := table[slot].count + 1);
      assert table[..]
          == old(table[..])[slot := old(table[slot]).(count := old(table[slot].count) + 1, last := env.now)];
      return true;
    }

    method Leave(ip: string, now: int)
      requires Valid()
      modifies table
      ensures Valid()
      ensures State() == RateLimitTable.Leave(old(State()), hash, ip, now)
      ensures LeftAt(old(table[..]), table[..], ip, now)
    {
      LeaveRefreshes(State(), hash, ip, now);
      RateLimitInvariants.LeaveExcess(State(), hash, ip, now);
      ghost var t := table[..];
      var n := table.Length;
      var idx := Home(hash, ip, n);
      for i := 0 to n
        invariant table[..] == t
        invariant FirstHit(t, idx, OpenFor(ip), 0) == FirstHit(t, idx, OpenFor(ip), i)
      {
        var slot := Probe(idx, i, n);
        if table[slot].count > 0 && table[slot].ip == Some(ip) {
          table[slot] := table[slot].(count := table[slot].count - 1, last := now);
          break;
        }
      }
    }
  }
}
