/** Pins, exporter mappings and kernel mappings of a shared buffer (dma-buf.c). */
module DmaBuf {
  import opened Fences

  datatype Direction = Bidirectional | ToDevice | FromDevice

  /** What the exporter's map_dma_buf returns: a new table, NULL, or an error pointer. */
  datatype Outcome = Mapped(table: nat) | Null | Failed

  datatype Result = Table(table: nat) | Error

  /** One importer's attachment, with what the exporter has done for it. pinnable: the
      exporter has pin and unpin; caching: it wants its mapping kept; dynamic: the importer
      can follow moves; moveNotify: the kernel is configured for that. */
  class Attachment {
    const pinnable: bool
    const caching: bool
    const dynamic: bool
    const moveNotify: bool

    var sgt: Option<nat>
    var dir: Direction
    var listed: bool
    var freed: bool

    /** The exporter's side: pins taken and tables mapped. */
    var pins: nat
    var live: multiset<nat>
    /** The importer's side: tables returned to it and not yet unmapped. */
    ghost var held: multiset<nat>

    constructor (pinnable: bool, caching: bool, dynamic: bool, moveNotify: bool)
      ensures this.pinnable == pinnable && this.caching == caching && this.dynamic == dynamic
              && this.moveNotify == moveNotify
      ensures sgt == None && !listed && !freed && pins == 0 && live == held == multiset{}
    {
      this.pinnable, this.caching, this.dynamic, this.moveNotify := pinnable, caching, dynamic, moveNotify;
      sgt, dir, listed, freed, pins, live, held := None, Bidirectional, false, false, 0, multiset{}, multiset{};
    }

    /** Each mapping that is not kept in the attachment pins the buffer for itself. */
    predicate PinsPerMap() {
      pinnable && !moveNotify
    }

    /** The tables mapped at the exporter are the one kept in the attachment, which the importer
        may hold any number of times, or else exactly those that the importer holds. */
    ghost predicate MapsOk()
      reads this
    {
      match sgt
      case Some(t) => live == multiset{t} && forall x :: x in held ==> x == t
      case None => live == held
    }

    ghost predicate PinsOk()
      reads this
    {
      pins == if sgt.Some? then (if pinnable then 1 else 0) else if PinsPerMap() then |held| else 0
    }

    /** An exporter that can pin does not cache; an attachment that keeps no table got none when
        it was made, and with caching has not been mapped yet. */
    ghost predicate Valid()
      reads this
    {
      && listed && !freed && !(pinnable && caching)
      && (sgt.None? ==> dynamic == pinnable && (caching ==> held == multiset{}))
      && MapsOk() && PinsOk()
    }

    /** dma_buf_dynamic_attach, on the zeroed attachment, with the answers of the exporter. It is
        clean on failure unless pinning is what failed: then the attachment stays on the list. */
    method Attach(attachOk: bool, pinOk: bool, outcome: Outcome) returns (ok: bool)
      requires sgt == None && !listed && !freed && pins == 0 && live == held == multiset{} && !(pinnable && caching)
      modifies this
      ensures ok ==> Valid() && held == multiset{} && (sgt.Some? <==> dynamic != pinnable)
      ensures ok <==> attachOk && (dynamic != pinnable ==> (pinnable ==> pinOk) && outcome.Mapped?)
      ensures !ok ==> pins == 0 && live == multiset{}
      ensures ok && sgt.Some? ==> dir == Bidirectional
      ensures !ok ==> (freed && !listed <==> !(attachOk && dynamic != pinnable && pinnable && !pinOk))
    {
      if !attachOk {
        freed := true;
        return false;
      }
      listed := true;
      if dynamic != pinnable {
        if pinnable {
          if !pinOk {
            return false;
          }
          pins := pins + 1;
        }
        if !outcome.Mapped? {
          if pinnable {
            pins := pins - 1;
          }
          Detach();
          return false;
        }
        live := live + multiset{outcome.table};
        sgt, dir := Some(outcome.table), Bidirectional;
      }
      ok := true;
    }

    /** dma_buf_detach. It takes back what the attachment keeps; what the importer has not
        unmapped of other tables stays mapped and pinned. */
    method Detach()
      requires listed && !freed && MapsOk() && (sgt.Some? && pinnable ==> pins > 0)
      modifies this
      ensures freed && !listed && held == old(held)
      ensures live == if old(sgt).Some? then multiset{} else old(live)
      ensures pins == if old(sgt).Some? && pinnable then old(pins) - 1 else old(pins)
      ensures sgt == old(sgt) && dir == old(dir)
    {
      if sgt.Some? {
        live := live - multiset{sgt.value};
        if pinnable {
          pins := pins - 1;
        }
      }
      listed, freed := false, true;
    }

    /** dma_buf_map_attachment. The balance is kept exactly if the exporter does not answer NULL
        after a pin: that pin is never taken back. */
    method Map(d: Direction, pinOk: bool, outcome: Outcome) returns (r: Result)
      requires Valid()
      modifies this
      ensures listed && !freed && MapsOk()
      ensures Valid() <==> !(old(sgt).None? && PinsPerMap() && pinOk && outcome.Null?)
      ensures !Valid() ==> pins == old(pins) + 1
      ensures r.Table? ==> held == old(held) + multiset{r.table} && r.table in live
      ensures r.Error? ==> held == old(held) && live == old(live)
      ensures old(sgt).Some? ==> (r.Table? <==> old(dir) == d || old(dir).Bidirectional?) && live == old(live)
      ensures old(sgt).None? ==> (r.Table? <==> (PinsPerMap() ==> pinOk) && outcome.Mapped?)
      ensures r.Table? ==> if old(sgt).Some? then Some(r.table) == old(sgt) else outcome == Mapped(r.table)
      ensures sgt == if old(sgt).None? && caching && r.Table? then Some(r.table) else old(sgt)
      ensures dir == if old(sgt).None? && caching && r.Table? then d else old(dir)
    {
      if sgt.Some? {
        r := MapKept(d);
      } else {
        r := MapNew(d, pinOk, outcome);
      }
    }

    /** The table that the attachment keeps, if it has the right direction. */
    method MapKept(d: Direction) returns (r: Result)
      requires Valid() && sgt.Some?
      modifies `held
      ensures Valid()
      ensures r == if dir == d || dir.Bidirectional? then Table(sgt.value) else Error
      ensures held == if r.Table? then old(held) + multiset{sgt.value} else old(held)
    {
      if dir != d && !dir.Bidirectional? {
        return Error;
      }
      held := held + multiset{sgt.value};
      return Table(sgt.value);
    }

    method MapNew(d: Direction, pinOk: bool, outcome: Outcome) returns (r: Result)
      requires Valid() && sgt.None?
      modifies this
      ensures listed && !freed && MapsOk()
      ensures Valid() <==> !(PinsPerMap() && pinOk && outcome.Null?)
      ensures !Valid() ==> pins == old(pins) + 1
      ensures r == if (PinsPerMap() ==> pinOk) && outcome.Mapped? then Table(outcome.table) else Error
      ensures r.Table? ==> held == old(held) + multiset{r.table} && r.table in live
      ensures r.Error? ==> held == old(held) && live == old(live)
      ensures sgt == if caching && r.Table? then Some(r.table) else None
      ensures dir == if caching && r.Table? then d else old(dir)
    {
      if PinsPerMap() {
        if !pinOk {
          return Error;
        }
        pins := pins + 1;
      }
      if outcome.Null? {
        return Error;
      }
      if outcome.Failed? {
        if PinsPerMap() {
          pins := pins - 1;
        }
        return Error;
      }
      Take(outcome.table, d);
      return Table(outcome.table);
    }

    /** A new table, for which the pin has been taken. */
    method Take(table: nat, d: Direction)
      requires listed && !freed && !(pinnable && caching) && sgt.None? && dynamic == pinnable && live == held
      requires (caching ==> held == multiset{}) && pins == if PinsPerMap() then |held| + 1 else 0
      modifies `live, `held, `sgt, `dir
      ensures Valid() && held == old(held) + multiset{table} && table in live
      ensures sgt == (if caching then Some(table) else None) && dir == if caching then d else old(dir)
    {
      live := live + multiset{table};
      held := held + multiset{table};
      if caching {
        sgt, dir := Some(table), d;
      }
    }

    /** Two maps in a row, by an exporter that wants its mapping kept: the table of the first serves
        the second in the same direction, or in any if it is mapped for both. */
    method MapTwice(d1: Direction, d2: Direction, table: nat, outcome: Outcome) returns (r1: Result, r2: Result)
      requires Valid() && sgt.None? && caching
      modifies this
      ensures r1 == Table(table) && Valid() && live == multiset{table}
      ensures r2 == if d1 == d2 || d1 == Bidirectional then Table(table) else Error
      ensures held == if r2.Table? then multiset{table, table} else multiset{table}
    {
      r1 := Map(d1, true, Mapped(table));
      r2 := Map(d2, true, outcome);
    }

    /** dma_buf_unmap_attachment, of a table that the importer holds. */
    method Unmap(table: nat)
      requires Valid() && table in held
      modifies this
      ensures Valid() && held == old(held) - multiset{table} && sgt == old(sgt) && dir == old(dir)
    {
      assert sgt.Some? ==> sgt == Some(table);
      assert |held - multiset{table}| == |held| - 1;
      held := held - multiset{table};
      if sgt == Some(table) {
        return;
      }
      live := live - multiset{table};
      if PinsPerMap() {
        pins := pins - 1;
      }
    }

    /** After matched unmaps nothing is left at the exporter when the attachment goes. */
    method DetachAfterUnmaps()
      requires Valid() && (sgt.None? ==> held == multiset{})
      modifies this
      ensures freed && pins == 0 && live == multiset{}
    {
      Detach();
    }
  }

  /** The kernel mapping of a buffer: made for the first user and undone after the last. */
  class KernelMap {
    const canMap: bool
    const canUnmap: bool
    var counter: nat
    var pointer: Option<nat>
    /** Whether the exporter's mapping is in place, and the users that hold it. */
    var mapped: bool
    ghost var users: nat

    constructor (canMap: bool, canUnmap: bool)
      ensures Valid() && users == 0 && !mapped && this.canMap == canMap && this.canUnmap == canUnmap
    {
      this.canMap, this.canUnmap := canMap, canUnmap;
      counter, pointer, mapped, users := 0, None, false, 0;
    }

    ghost predicate Valid()
      reads this
    {
      && counter == users && (pointer.Some? <==> users > 0)
      && (users > 0 ==> mapped) && (canUnmap ==> (mapped <==> users > 0))
    }

    /** dma_buf_vmap, with the exporter's answer: one mapping serves all users. */
    method Vmap(answer: Option<nat>) returns (r: Option<nat>)
      requires Valid()
      modifies this
      ensures Valid()
      ensures r.Some? <==> canMap && (old(users) > 0 || answer.Some?)
      ensures r.Some? ==> r == pointer && users == old(users) + 1
      ensures r.Some? && old(users) == 0 ==> r == answer && mapped
      ensures r.None? ==> users == old(users) && pointer == old(pointer)
      ensures old(users) > 0 ==> pointer == old(pointer) && mapped == old(mapped)
    {
      if !canMap {
        return None;
      }
      if counter > 0 {
        counter := counter + 1;
        users := users + 1;
        return pointer;
      }
      if answer.None? {
        return None;
      }
      mapped := true;
      pointer, counter := answer, 1;
      users := 1;
      return pointer;
    }

    /** dma_buf_vunmap, by a user, of the mapping it was given. None of the three BUG tests can
        hit; the mapping is undone with the last user, if the exporter can undo it. */
    method Vunmap(given: nat)
      requires Valid() && users > 0 && pointer == Some(given)
      modifies this
      ensures Valid() && users == old(users) - 1
      ensures users > 0 ==> pointer == old(pointer) && mapped
      ensures users == 0 ==> mapped == !canUnmap
    {
      counter := counter - 1;
      users := users - 1;
      if counter == 0 {
        if canUnmap {
          mapped := false;
        }
        pointer := None;
      }
    }
  }
}
