/** The three callbacks of a CID allocation as they run at one process: they
    update the allocation's context and the process's communicator table, and
    each is exactly one stage of CidRounds. */
module CidContexts {
  import opened CidRounds

  /** The process-wide array of communicator pointers. */
  class CommTable {
    var slots: Table

    constructor ()
      ensures slots == map[]
    {
      slots := map[];
    }

    /** Takes slot i if it is free. */
    method TestAndSet(i: nat, comm: nat) returns (taken: bool)
      modifies this
      ensures taken <==> i !in old(slots)
      ensures slots == if taken then old(slots)[i := comm] else old(slots)
    {
      taken := i !in slots;
      if taken { slots := slots[i := comm]; }
    }

    method SetItem(i: nat, comm: nat)
      modifies this
      ensures slots == old(slots)[i := comm]
    {
      slots := slots[i := comm];
    }

    method Clear(i: nat)
      modifies this
      ensures slots == old(slots) - {i}
    {
      slots := slots - {i};
    }
  }

  class CidContext {
    const table: CommTable
    const participates: bool
    const comm: nat
    const newcomm: nat
    var start: nat
    var nextLocal: nat
    var nextCid: nat
    var flag: bool
    var iter: nat
    var status: Status

    constructor (table: CommTable, participates: bool, comm: nat, newcomm: nat, lowestFree: nat)
      ensures this.table == table
      ensures View() == Proc(table.slots, participates, comm, newcomm, lowestFree, 0, 0, false, 0, Running)
    {
      this.table, this.participates, this.comm, this.newcomm := table, participates, comm, newcomm;
      start, nextLocal, nextCid, flag, iter, status := lowestFree, 0, 0, false, 0, Running;
    }

    ghost function View(): Proc
      reads this, table
    {
      Proc(table.slots, participates, comm, newcomm, start, nextLocal, nextCid, flag, iter, status)
    }

    /** Scans for a free slot from `start` on and takes the first it finds. */
    method TakeLowest(max: nat) returns (cid: nat, taken: bool)
      modifies table
      ensures cid == LowestFree(old(table.slots), start, max)
      ensures taken <==> cid < max
      ensures table.slots == if taken then old(table.slots)[cid := comm] else old(table.slots)
    {
      cid, taken := max, false;
      var i := start;
      while i < max
        invariant !taken && cid == max && table.slots == old(table.slots)
        invariant start <= i && (start <= max ==> i <= max)
        invariant LowestFree(table.slots, start, max) == LowestFree(table.slots, i, max)
      {
        taken := table.TestAndSet(i, comm);
        if taken {
          cid := i;
          return;
        }
        i := i + 1;
      }
    }

    method GetNextCid(max: nat)
      requires status == Running
      modifies this, table
      ensures View() == Reserve(old(View()), max)
    {
      if participates {
        var taken;
        nextLocal, taken := TakeLowest(max);
        if !taken { status := Exhausted; }
      } else {
        nextLocal := 0;
      }
    }

    method CheckCid(winner: nat)
      modifies this, table
      ensures View() == Check(old(View()), winner)
    {
      nextCid := winner;
      if !participates {
        flag := true;
      } else {
        flag := nextCid == nextLocal;
        if !flag {
          table.Clear(nextLocal);
          flag := table.TestAndSet(nextCid, comm);
        }
      }
      iter := iter + 1;
    }

    method NextCidCheckFlag(rflag: bool, max: nat)
      modifies this, table
      ensures View() == Decide(old(View()), rflag, max)
    {
      if rflag {
        if !participates {
          var taken;
          nextLocal, taken := TakeLowest(max);
          nextCid := nextLocal;
        }
        status := Committed(nextCid);
        table.SetItem(nextCid, newcomm);
        return;
      }
      if participates && flag {
        table.Clear(nextCid);
        start := nextCid + 1;
      }
      iter := iter + 1;
    }
  }
}
