/** Capability handles and the slots they stand for: what any history of opening and closing
    leaves of a handle that was live once. */
module Handles {
  const PROCESSES: nat := 8
  const SLOTS: nat := 8
  const HANDLE_NONE: nat := 0xFFFF_FFFF_FFFF_FFFF

  datatype Slot = Slot(open: bool, generation: nat, service: nat, rights: bv32, object_id: nat)

  // ----- handles -----

  function MakeHandle(pid: nat, slot: nat, generation: nat): nat {
    generation * 65536 + pid * 256 + slot
  }

  datatype Decoded = Bad | Good(pid: nat, slot: nat, generation: nat)

  function DecodeHandle(handle: nat): (d: Decoded)
    ensures d.Good? ==> d.pid < PROCESSES && d.slot < SLOTS && 0 < d.generation < 65536
  {
    var slot, pid, generation := handle % 256, handle / 256 % 256, handle / 65536 % 65536;
    if handle / 0x1_0000_0000 != 0 || pid >= PROCESSES || slot >= SLOTS || generation == 0 then Bad
    else Good(pid, slot, generation)
  }

  lemma Digits(h: nat)
    ensures h / 65536 == h / 256 / 256 && h == h / 65536 * 65536 + h / 256 % 256 * 256 + h % 256
  {
    var a := h / 256;
    assert h == a * 256 + h % 256 && a == a / 256 * 256 + a % 256;
  }

  /** Handles and (pid, slot, generation) triples correspond one to one. */
  lemma HandleRoundTrip(pid: nat, slot: nat, generation: nat)
    requires pid < PROCESSES && slot < SLOTS && 0 < generation < 65536
    ensures DecodeHandle(MakeHandle(pid, slot, generation)) == Good(pid, slot, generation)
    ensures MakeHandle(pid, slot, generation) != HANDLE_NONE
  {
    var h := MakeHandle(pid, slot, generation);
    assert h % 256 == slot && h / 256 == generation * 256 + pid;
    assert h / 256 % 256 == pid && h / 65536 == generation;
  }

  lemma HandleUnique(handle: nat)
    requires DecodeHandle(handle).Good?
    ensures var d := DecodeHandle(handle);
            handle == MakeHandle(d.pid, d.slot, d.generation)
            && d.pid < PROCESSES && d.slot < SLOTS && 0 < d.generation < 65536
  {
    Digits(handle);
    assert handle / 65536 < 65536;
  }

  /** The generation after one release: 16 bits that skip 0. */
  function NextGeneration(g: nat): nat { if g == 65535 then 1 else g + 1 }

  function GenerationAfter(g: nat, releases: nat): nat {
    if releases == 0 then g else NextGeneration(GenerationAfter(g, releases - 1))
  }

  /** Counting releases around the 65535 generations in use. */
  lemma {:induction false} GenerationCycle(g: nat, releases: nat)
    requires 0 < g < 65536
    ensures GenerationAfter(g, releases) == 1 + (g - 1 + releases) % 65535
    ensures GenerationAfter(g, releases) == g <==> releases % 65535 == 0
  {
    if releases > 0 { GenerationCycle(g, releases - 1); }
    assert (g - 1 + releases) % 65535 == (g - 1 + releases % 65535) % 65535;
  }

  // ----- the tables of all processes -----

  type Tables = seq<seq<Slot>>

  ghost predicate TablesOk(tables: Tables) {
    && |tables| == PROCESSES && (forall p | 0 <= p < PROCESSES :: |tables[p]| == SLOTS)
    && (forall p, s | 0 <= p < PROCESSES && 0 <= s < SLOTS :: 0 < tables[p][s].generation < 65536)
  }

  function SetSlot(tables: Tables, p: nat, s: nat, slot: Slot): Tables
    requires p < |tables| && s < |tables[p]|
  {
    tables[p := tables[p][s := slot]]
  }

  /** Slot `s` cleared by slot_table::release. */
  function Emptied(slot: Slot): Slot { Slot(false, NextGeneration(slot.generation), 0, 0, 0) }

  function FirstClosed(row: seq<Slot>, i: nat): (r: nat)
    requires i <= |row|
    ensures i <= r <= |row| && (r < |row| ==> !row[r].open)
    ensures forall j | i <= j < r :: row[j].open
    decreases |row| - i
  {
    if i == |row| || !row[i].open then i else FirstClosed(row, i + 1)
  }

  predicate Within(rights: bv32, allowed: bv32) { allowed & rights == rights }

  function BlankRow(): seq<Slot> { seq(SLOTS, _ => Slot(false, 1, 0, 0, 0)) }

  function BlankTables(): Tables { seq(PROCESSES, _ => BlankRow()) }


  /** The handle is the caller's, its slot open and of the right generation, and the rights enough. */
  ghost predicate ResolvesIn(tables: Tables, pid: nat, handle: nat, required: bv32)
    requires TablesOk(tables)
  {
    var d := DecodeHandle(handle);
    d.Good? && d.pid == pid && tables[pid][d.slot].open && tables[pid][d.slot].generation == d.generation
    && Within(required, tables[pid][d.slot].rights)
  }

  /** Slot `s` of the caller is open, its generation, process and position make up the handle, and its
      rights leave out none of those asked for. */
  ghost predicate OpensAt(tables: Tables, pid: nat, handle: nat, required: bv32, s: nat)
    requires TablesOk(tables) && pid < PROCESSES && s < SLOTS
  {
    && tables[pid][s].open && handle == tables[pid][s].generation * 65536 + pid * 256 + s
    && required & !tables[pid][s].rights == 0
  }

  /** A handle resolves exactly to such a slot. */
  lemma ResolvesMeans(tables: Tables, pid: nat, handle: nat, required: bv32)
    requires TablesOk(tables)
    ensures ResolvesIn(tables, pid, handle, required)
            <==> pid < PROCESSES && exists s | 0 <= s < SLOTS :: OpensAt(tables, pid, handle, required, s)
  {
    hide *;
    if ResolvesIn(tables, pid, handle, required) { ResolvedAt(tables, pid, handle, required); }
    if pid < PROCESSES {
      forall s | 0 <= s < SLOTS && OpensAt(tables, pid, handle, required, s)
        ensures ResolvesIn(tables, pid, handle, required)
      {
        OpensResolve(tables, pid, handle, required, s);
      }
    }
  }

  lemma ResolvedAt(tables: Tables, pid: nat, handle: nat, required: bv32)
    requires TablesOk(tables) && ResolvesIn(tables, pid, handle, required)
    ensures pid < PROCESSES && exists s | 0 <= s < SLOTS :: OpensAt(tables, pid, handle, required, s)
  {
    var d := DecodeHandle(handle);
    HandleUnique(handle);
    LeavesOut(required, tables[pid][d.slot].rights);
    hide DecodeHandle, Within;
    assert OpensAt(tables, pid, handle, required, d.slot);
  }

  lemma OpensResolve(tables: Tables, pid: nat, handle: nat, required: bv32, s: nat)
    requires TablesOk(tables) && pid < PROCESSES && s < SLOTS && OpensAt(tables, pid, handle, required, s)
    ensures ResolvesIn(tables, pid, handle, required)
  {
    HandleRoundTrip(pid, s, tables[pid][s].generation);
    LeavesOut(required, tables[pid][s].rights);
    hide DecodeHandle, Within;
  }

  lemma LeavesOut(rights: bv32, allowed: bv32)
    ensures rights & !allowed == 0 <==> Within(rights, allowed)
  {
  }

  // ----- histories -----

  /** All that ever happens to a table: the first closed slot is filled, or an open one emptied. */
  datatype Change = Fill(pid: nat, service: nat, rights: bv32, id: nat) | Empty(pid: nat, slot: nat)

  function Applied(tables: Tables, change: Change): (r: Tables)
    requires TablesOk(tables)
    ensures TablesOk(r)
  {
    match change
    case Fill(pid, service, rights, id) =>
      if pid >= PROCESSES || FirstClosed(tables[pid], 0) == SLOTS then tables
      else
        var s := FirstClosed(tables[pid], 0);
        SetSlot(tables, pid, s, Slot(true, tables[pid][s].generation, service, rights, id))
    case Empty(pid, s) =>
      if pid >= PROCESSES || s >= SLOTS || !tables[pid][s].open then tables
      else SetSlot(tables, pid, s, Emptied(tables[pid][s]))
  }

  function After(tables: Tables, changes: seq<Change>): (r: Tables)
    requires TablesOk(tables)
    ensures TablesOk(r)
    decreases |changes|
  {
    if |changes| == 0 then tables else Applied(After(tables, changes[..|changes| - 1]), changes[|changes| - 1])
  }

  /** How often slot `s` of `pid` is emptied on the way. */
  function Releases(tables: Tables, changes: seq<Change>, pid: nat, s: nat): nat
    requires TablesOk(tables) && pid < PROCESSES && s < SLOTS
    decreases |changes|
  {
    if |changes| == 0 then 0
    else
      var k := |changes| - 1;
      Releases(tables, changes[..k], pid, s)
      + if changes[k] == Empty(pid, s) && After(tables, changes[..k])[pid][s].open then 1 else 0
  }

  lemma GenerationChange(tables: Tables, change: Change, pid: nat, s: nat)
    requires TablesOk(tables) && pid < PROCESSES && s < SLOTS
    ensures Applied(tables, change)[pid][s].generation
            == if change == Empty(pid, s) && tables[pid][s].open then NextGeneration(tables[pid][s].generation)
               else tables[pid][s].generation
  {
  }

  lemma {:induction false} GenerationsCount(tables: Tables, changes: seq<Change>, pid: nat, s: nat)
    requires TablesOk(tables) && pid < PROCESSES && s < SLOTS
    ensures After(tables, changes)[pid][s].generation
            == GenerationAfter(tables[pid][s].generation, Releases(tables, changes, pid, s))
    decreases |changes|
  {
    if |changes| > 0 {
      var k := |changes| - 1;
      GenerationsCount(tables, changes[..k], pid, s);
      GenerationChange(After(tables, changes[..k]), changes[k], pid, s);
    }
    hide TablesOk, Applied, NextGeneration;
  }

  /** Whatever was opened and closed in between, a handle that was live resolves afterwards if and
      only if its slot is open with the rights asked for and was emptied a multiple of 65535 times:
      never before it is first closed again, and not for the next 65534 times either. */
  lemma StaleGeneration(tables: Tables, changes: seq<Change>, pid: nat, handle: nat, required: bv32)
    requires TablesOk(tables) && ResolvesIn(tables, pid, handle, 0)
    ensures var s := DecodeHandle(handle).slot; var u := After(tables, changes);
            ResolvesIn(u, pid, handle, required)
            <==> u[pid][s].open && Within(required, u[pid][s].rights)
                 && Releases(tables, changes, pid, s) % 65535 == 0
  {
    var d := DecodeHandle(handle);
    GenerationsCount(tables, changes, pid, d.slot);
    GenerationCycle(d.generation, Releases(tables, changes, pid, d.slot));
    hide After, Releases, GenerationAfter, DecodeHandle;
  }

  // ----- the handle that comes back -----

  /** The slot is closed and opened again `n` times. */
  function Reopenings(pid: nat, s: nat, fill: Change, n: nat): seq<Change> {
    if n == 0 then [] else Reopenings(pid, s, fill, n - 1) + [Empty(pid, s)] + [fill]
  }

  lemma AfterNothing(tables: Tables, pid: nat, s: nat)
    requires TablesOk(tables) && pid < PROCESSES && s < SLOTS
    ensures After(tables, []) == tables && Releases(tables, [], pid, s) == 0
  {
  }

  lemma AfterOne(tables: Tables, changes: seq<Change>, change: Change, pid: nat, s: nat)
    requires TablesOk(tables) && pid < PROCESSES && s < SLOTS
    ensures After(tables, changes + [change]) == Applied(After(tables, changes), change)
    ensures Releases(tables, changes + [change], pid, s)
            == Releases(tables, changes, pid, s)
               + if change == Empty(pid, s) && After(tables, changes)[pid][s].open then 1 else 0
  {
    assert (changes + [change])[..|changes|] == changes;
  }

  /** Slot `s` and all below it are open. */
  ghost predicate OpenUpTo(tables: Tables, pid: nat, s: nat)
    requires TablesOk(tables) && pid < PROCESSES && s < SLOTS
  {
    forall j | 0 <= j <= s :: tables[pid][j].open
  }

  lemma FirstClosedAt(row: seq<Slot>, i: nat, s: nat)
    requires i <= s < |row| && !row[s].open && forall j | i <= j < s :: row[j].open
    ensures FirstClosed(row, i) == s
    decreases s - i
  {
    if i < s { FirstClosedAt(row, i + 1, s); }
  }

  /** Emptying a slot below which all are open and filling again uses the same slot. */
  lemma ReopenSame(tables: Tables, pid: nat, s: nat, fill: Change)
    requires TablesOk(tables) && pid < PROCESSES && s < SLOTS && fill.Fill? && fill.pid == pid
    requires OpenUpTo(tables, pid, s)
    ensures var u := Applied(Applied(tables, Empty(pid, s)), fill);
            && OpenUpTo(u, pid, s)
            && u[pid][s] == Slot(true, NextGeneration(tables[pid][s].generation), fill.service, fill.rights, fill.id)
  {
    var t := Applied(tables, Empty(pid, s));
    FirstClosedAt(t[pid], 0, s);
  }

  lemma {:induction false} Reopened(tables: Tables, pid: nat, s: nat, fill: Change, n: nat)
    requires TablesOk(tables) && pid < PROCESSES && s < SLOTS && fill.Fill? && fill.pid == pid
    requires OpenUpTo(tables, pid, s)
    ensures var u := After(tables, Reopenings(pid, s, fill, n));
            && OpenUpTo(u, pid, s)
            && Releases(tables, Reopenings(pid, s, fill, n), pid, s) == n
            && (n > 0 ==> u[pid][s].rights == fill.rights && u[pid][s].object_id == fill.id)
  {
    hide After, Releases, Applied, TablesOk;
    if n == 0 {
      AfterNothing(tables, pid, s);
    } else {
      var before := Reopenings(pid, s, fill, n - 1);
      Reopened(tables, pid, s, fill, n - 1);
      ReopenSame(After(tables, before), pid, s, fill);
      AfterOne(tables, before, Empty(pid, s), pid, s);
      AfterOne(tables, before + [Empty(pid, s)], fill, pid, s);
    }
  }

  /** A handle survives reopening its slot exactly when that happens a multiple of 65535 times,
      and then it names what was opened last. */
  lemma StaleReopened(tables: Tables, pid: nat, handle: nat, fill: Change, n: nat)
    requires TablesOk(tables) && ResolvesIn(tables, pid, handle, 0) && fill.Fill? && fill.pid == pid && n > 0
    requires forall j | 0 <= j < DecodeHandle(handle).slot :: tables[pid][j].open
    ensures var s := DecodeHandle(handle).slot; var u := After(tables, Reopenings(pid, s, fill, n));
            && u[pid][s].object_id == fill.id
            && (ResolvesIn(u, pid, handle, fill.rights) <==> n % 65535 == 0)
  {
    var s := DecodeHandle(handle).slot;
    Reopened(tables, pid, s, fill, n);
    StaleGeneration(tables, Reopenings(pid, s, fill, n), pid, handle, fill.rights);
    hide After, Releases, Reopenings;
  }

  /** From boot: process 1 opens file 7, closes it and opens file 8 in its place 65535 times, and
      its first handle, long closed, now gives it file 8. */
  lemma StaleHandleReturns(rights: bv32)
    ensures var first := Applied(BlankTables(), Fill(1, 5, rights, 7));
            var handle := MakeHandle(1, 0, 1);
            var u := After(first, Reopenings(1, 0, Fill(1, 5, rights, 8), 65535));
            ResolvesIn(first, 1, handle, rights) && first[1][0].object_id == 7
            && !ResolvesIn(Applied(first, Empty(1, 0)), 1, handle, 0)
            && ResolvesIn(u, 1, handle, rights) && u[1][0].object_id == 8
  {
    var first := Applied(BlankTables(), Fill(1, 5, rights, 7));
    assert FirstClosed(BlankRow(), 0) == 0;
    HandleRoundTrip(1, 0, 1);
    assert first[1][0] == Slot(true, 1, 5, rights, 7);
    StaleReopened(first, 1, MakeHandle(1, 0, 1), Fill(1, 5, rights, 8), 65535);
    hide After, Reopenings;
  }
}
