/** The tables themselves, updated in place: each method is one critical section of the
    slot machine, proved to compute the function the machine steps by.
  */
module SlotTables {
  import opened Slots

  class Tables {
    const conns: array<Conn>
    var counter: nat
    const pool: array<PoolSlot>
    var poolCount: nat
    const links: array<LinkSlot>
    var linkCount: nat

    ghost predicate Valid()
      reads this
    {
      && conns.Length == MAX_CONNS && counter < MAX_CONNS
      && pool.Length == MAX_POOL && poolCount <= MAX_POOL
      && links.Length == MAX_LINKS && linkCount <= MAX_LINKS
    }

    /** The entries in play, the values the slot machine works on. */
    ghost function Pool(): seq<PoolSlot>
      requires Valid()
      reads this, pool
    {
      pool[..poolCount]
    }

    ghost function Links(): seq<LinkSlot>
      requires Valid()
      reads this, links
    {
      links[..linkCount]
    }

    constructor ()
      ensures Valid() && fresh(conns) && fresh(pool) && fresh(links)
      ensures counter == 0 && Pool() == [] && Links() == []
      ensures forall h :: 0 <= h < MAX_CONNS ==> conns[h] == BLANK_CONN
    {
      conns := new Conn[MAX_CONNS](_ => BLANK_CONN);
      pool := new PoolSlot[MAX_POOL](_ => PoolSlot(false, false, false, 0));
      links := new LinkSlot[MAX_LINKS](_ => LinkSlot(false, false, 0));
      counter, poolCount, linkCount := 0, 0, 0;
    }

    /** connAlloc: the first inactive record at or after the rotating counter, or -1. */
    method ConnAlloc() returns (idx: int)
      requires Valid()
      modifies this`counter, conns
      ensures Valid()
      ensures var i := FirstInactive(old(conns[..]), old(counter), 0);
              if i == MAX_CONNS then idx == -1 && counter == old(counter) && conns[..] == old(conns[..])
              else
                && idx == Turn(old(counter), i)
                && counter == (idx + 1) % MAX_CONNS
                && conns[..] == old(conns[..])[idx := NEW_CONN]
    {
      var start := counter;
      var i := 0;
      while i < MAX_CONNS
        invariant i <= MAX_CONNS && start == counter == old(counter) && conns[..] == old(conns[..])
        invariant FirstInactive(old(conns[..]), start, 0) == FirstInactive(old(conns[..]), start, i)
      {
        idx := (start + i) % MAX_CONNS;
        if !conns[idx].active {
          conns[idx] := NEW_CONN;
          counter := (idx + 1) % MAX_CONNS;
          return;
        }
        i := i + 1;
      }
      idx := -1;
    }

    /** The critical section of connFree: the record is cleared and its indices returned.
        A handle outside the table is ignored. */
    method ConnTake(h: int) returns (toPool: int, fromPool: int, toLink: int, fromLink: int)
      requires Valid()
      modifies conns
      ensures Valid()
      ensures 0 <= h < MAX_CONNS ==>
                && conns[..] == old(conns[..])[h := NO_CONN]
                && Taken(old(conns[h])) ==
                   SlotOf(ToPool, toPool) + SlotOf(FromPool, fromPool) + SlotOf(ToLink, toLink) + SlotOf(FromLink, fromLink)
      ensures !(0 <= h < MAX_CONNS) ==> conns[..] == old(conns[..]) && toPool == fromPool == toLink == fromLink == -1
    {
      if h < 0 || h >= MAX_CONNS { return -1, -1, -1, -1; }
      toPool, fromPool, toLink, fromLink := conns[h].toPool, conns[h].fromPool, conns[h].toLink, conns[h].fromLink;
      conns[h] := NO_CONN;
    }

    /** poolGet up to the end of its critical section: the slot claimed (-1 if none), and
        whether its buffer is already there. */
    method PoolGet(size: nat, noPool: bool) returns (idx: int, ready: bool)
      requires Valid()
      modifies this`poolCount, pool
      ensures Valid()
      ensures size == 0 ==> idx == -1 && Pool() == old(Pool())
      ensures size > 0 ==>
                var (claim, entries) := PoolClaim(old(Pool()), size, noPool);
                && Pool() == entries
                && (claim.TableFull? <==> idx == -1)
                && (claim.Ready? <==> ready)
                && (!claim.TableFull? ==> idx == claim.idx)
    {
      ready := false;
      if size == 0 { return -1, false; }
      ghost var was := Pool();
      if !noPool {
        idx := FindReusable(size);
        if idx >= 0 {
          pool[idx] := pool[idx].(inUse := true);
          assert Pool() == was[idx := was[idx].(inUse := true)];
          return idx, true;
        }
      }
      idx := FindEmpty();
      if idx < 0 {
        if poolCount >= MAX_POOL { return; }
        idx := poolCount;
        poolCount := poolCount + 1;
      }
      var entry := PoolSlot(true, !noPool, false, size);
      pool[idx] := entry;
      assert Pool() == if idx < |was| then was[idx := entry] else was + [entry];
    }

    method FindReusable(size: nat) returns (idx: int)
      requires Valid()
      ensures idx == if FirstReusable(Pool(), size, 0) < poolCount then FirstReusable(Pool(), size, 0) else -1
    {
      var i := 0;
      while i < poolCount
        invariant i <= poolCount && FirstReusable(Pool(), size, 0) == FirstReusable(Pool(), size, i)
      {
        if !pool[i].inUse && pool[i].pooled && pool[i].created && pool[i].size == size { return i; }
        i := i + 1;
      }
      return -1;
    }

    method FindEmpty() returns (idx: int)
      requires Valid()
      ensures idx == if FirstEmpty(Pool(), 0) < poolCount then FirstEmpty(Pool(), 0) else -1
    {
      var i := 0;
      while i < poolCount
        invariant i <= poolCount && FirstEmpty(Pool(), 0) == FirstEmpty(Pool(), i)
      {
        if !pool[i].inUse && !pool[i].created { return i; }
        i := i + 1;
      }
      return -1;
    }

    /** poolFree: an index outside the table is ignored. */
    method PoolFree(idx: int)
      requires Valid()
      modifies pool
      ensures Valid()
      ensures 0 <= idx < poolCount ==> Pool() == old(Pool())[idx := ReleasedPool(old(pool[idx]))]
      ensures !(0 <= idx < poolCount) ==> Pool() == old(Pool())
    {
      if idx < 0 || idx >= poolCount { return; }
      if pool[idx].pooled {
        pool[idx] := pool[idx].(inUse := false);
      } else {
        pool[idx] := PoolSlot(false, false, false, 0);
      }
    }

    /** linkAcquire up to the end of its critical section. */
    method LinkAcquire(depth: nat) returns (idx: int, ready: bool)
      requires Valid()
      modifies this`linkCount, links
      ensures Valid()
      ensures var (claim, entries) := LinkClaim(old(Links()), depth);
              && Links() == entries
              && (claim.TableFull? <==> idx == -1)
              && (claim.Ready? <==> ready)
              && (!claim.TableFull? ==> idx == claim.idx)
    {
      ready := false;
      ghost var was := Links();
      var d := if depth == 0 then 1 else depth;
      idx := FindSameDepth(d);
      if idx >= 0 {
        links[idx] := links[idx].(inUse := true);
        assert Links() == was[idx := was[idx].(inUse := true)];
        return idx, true;
      }
      idx := FindRingless();
      if idx < 0 {
        if linkCount >= MAX_LINKS { return; }
        idx := linkCount;
        linkCount := linkCount + 1;
      }
      links[idx] := LinkSlot(true, false, d);
      assert Links() == if idx < |was| then was[idx := LinkSlot(true, false, d)] else was + [LinkSlot(true, false, d)];
    }

    method FindSameDepth(d: nat) returns (idx: int)
      requires Valid()
      ensures idx == if FirstSameDepth(Links(), d, 0) < linkCount then FirstSameDepth(Links(), d, 0) else -1
    {
      var i := 0;
      while i < linkCount
        invariant i <= linkCount && FirstSameDepth(Links(), d, 0) == FirstSameDepth(Links(), d, i)
      {
        if !links[i].inUse && links[i].created && links[i].depth == d { return i; }
        i := i + 1;
      }
      return -1;
    }

    method FindRingless() returns (idx: int)
      requires Valid()
      ensures idx == if FirstRingless(Links(), 0) < linkCount then FirstRingless(Links(), 0) else -1
    {
      var i := 0;
      while i < linkCount
        invariant i <= linkCount && FirstRingless(Links(), 0) == FirstRingless(Links(), i)
      {
        if !links[i].inUse && !links[i].created { return i; }
        i := i + 1;
      }
      return -1;
    }

    /** linkFree, its payloads already drained. */
    method LinkFree(idx: int)
      requires Valid()
      modifies links
      ensures Valid()
      ensures 0 <= idx < linkCount ==> Links() == old(Links())[idx := old(links[idx]).(inUse := false)]
      ensures !(0 <= idx < linkCount) ==> Links() == old(Links())
    {
      if idx < 0 || idx >= linkCount { return; }
      links[idx] := links[idx].(inUse := false);
    }
  }
}
