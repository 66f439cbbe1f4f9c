/** Per-process capability tables over the shared surfaces: handles with generations, rights that
    only shrink when shared, and a reference count that always equals the number of holders. */
module Capabilities {
  import opened Handles
  import opened Surfaces

  const MAP_SLOTS: nat := 4
  const MAP_PAGES: nat := 300

  const SERVICE_FILE: nat := 5
  const SERVICE_IPC: nat := 6
  const SERVICE_SURFACE: nat := 9

  const RIGHT_WRITE: bv32 := 1
  const RIGHT_QUERY: bv32 := 2
  const RIGHT_READ: bv32 := 4
  const RIGHT_OPEN: bv32 := 8
  const RIGHT_SEND: bv32 := 16
  const RIGHT_RECEIVE: bv32 := 32

  /** What capability_open grants on each service; 0 refuses. */
  function ServiceRights(service: nat): (r: bv32)
    ensures r != 0 ==> service < 32
  {
    match service
    case 1 => RIGHT_WRITE
    case 2 => RIGHT_QUERY
    case 3 => RIGHT_QUERY
    case 4 => RIGHT_OPEN | RIGHT_QUERY
    case 7 => RIGHT_WRITE | RIGHT_QUERY
    case 8 => RIGHT_READ | RIGHT_QUERY
    case 9 => RIGHT_OPEN | RIGHT_QUERY
    case 10 => RIGHT_READ | RIGHT_QUERY
    case 11 => RIGHT_WRITE | RIGHT_QUERY
    case _ => 0
  }

  /** The same table read by rights: who may write, ask, read and open. */
  lemma RightsByRight(service: nat)
    ensures var r := ServiceRights(service);
            && (r & 1 != 0 <==> service in {1, 7, 11}) && (r & 2 != 0 <==> service in {2, 3, 4, 7, 8, 9, 10, 11})
            && (r & 4 != 0 <==> service in {8, 10}) && (r & 8 != 0 <==> service in {4, 9}) && r & !15 == 0
  {
    if service > 11 { assert ServiceRights(service) == 0; }
  }

  function EmptyAll(pid: nat, n: nat): seq<Change> { seq(n, i requires 0 <= i < n => Empty(pid, i)) }

  lemma EmptyAllStarts(tables: Tables, pid: nat)
    requires TablesOk(tables)
    ensures After(tables, EmptyAll(pid, 0)) == tables
  {
  }

  lemma EmptyAllGrows(tables: Tables, pid: nat, s: nat)
    requires TablesOk(tables) && pid < PROCESSES && s < SLOTS
    ensures After(tables, EmptyAll(pid, s + 1)) == Applied(After(tables, EmptyAll(pid, s)), Empty(pid, s))
  {
    assert EmptyAll(pid, s + 1) == EmptyAll(pid, s) + [Empty(pid, s)];
    AfterOne(tables, EmptyAll(pid, s), Empty(pid, s), pid, s);
  }

  // ----- who holds what -----

  type Maps = seq<seq<nat>>

  ghost predicate Shape(tables: Tables, maps: Maps) {
    TablesOk(tables) && |maps| == PROCESSES && forall p | 0 <= p < PROCESSES :: |maps[p]| == MAP_SLOTS
  }

  predicate Holds(s: Slot, id: nat) { s.open && s.service == SERVICE_SURFACE && s.object_id == id }

  /** Open slots that name surface `id`. */
  ghost function Holders(tables: Tables, maps: Maps, id: nat): set<(nat, nat)>
    requires Shape(tables, maps)
  {
    set p: nat, s: nat | 0 <= p < PROCESSES && 0 <= s < SLOTS && Holds(tables[p][s], id) :: (p, s)
  }

  /** Read-only mappings of surface `id`, which retain it too. */
  ghost function Mappers(tables: Tables, maps: Maps, id: nat): set<(nat, nat)>
    requires Shape(tables, maps)
  {
    set p: nat, s: nat | 0 <= p < PROCESSES && 0 <= s < MAP_SLOTS && maps[p][s] == id :: (p, s)
  }

  ghost function Live(tables: Tables, maps: Maps): set<(nat, nat)>
    requires Shape(tables, maps)
  {
    set p: nat, s: nat | 0 <= p < PROCESSES && 0 <= s < SLOTS && tables[p][s].open :: (p, s)
  }

  ghost function References(objects: seq<Surface>, id: nat): nat
    requires |objects| == LIMIT && 0 < id <= LIMIT
  {
    objects[id - 1].references
  }

  /** The count of every surface is the number of slots and mappings that name it; nothing names an
      inactive surface. */
  ghost predicate Counted(tables: Tables, maps: Maps, objects: seq<Surface>)
    requires Shape(tables, maps)
  {
    && |objects| == LIMIT
    && (forall id | 0 < id <= LIMIT :: CountedAt(tables, maps, objects, id))
    && (forall p, s | 0 <= p < PROCESSES && 0 <= s < SLOTS && tables[p][s].open && tables[p][s].service == SERVICE_SURFACE ::
          tables[p][s].object_id <= LIMIT)
    && (forall p, s | 0 <= p < PROCESSES && 0 <= s < MAP_SLOTS :: maps[p][s] <= LIMIT)
  }

  ghost predicate CountedAt(tables: Tables, maps: Maps, objects: seq<Surface>, id: nat)
    requires Shape(tables, maps) && |objects| == LIMIT && 0 < id <= LIMIT
  {
    && References(objects, id) == |Holders(tables, maps, id)| + |Mappers(tables, maps, id)|
    && (!objects[id - 1].active ==> References(objects, id) == 0)
  }

  function SetMap(maps: Maps, p: nat, s: nat, id: nat): Maps
    requires p < |maps| && s < |maps[p]|
  {
    var row: seq<nat> := maps[p][s := id];
    maps[p := row]
  }

  lemma OneElement<T>(before: set<T>, after: set<T>, x: T)
    requires before - {x} == after - {x}
    ensures |after| == |before| - (if x in before then 1 else 0) + (if x in after then 1 else 0)
  {
    var rest := before - {x};
    assert before == if x in before then rest + {x} else rest;
    assert after == if x in after then rest + {x} else rest;
  }

  /** Changing one slot changes one holder. */
  lemma HoldersChange(tables: Tables, maps: Maps, p: nat, s: nat, slot: Slot, id: nat)
    requires Shape(tables, maps) && p < PROCESSES && s < SLOTS && 0 < slot.generation < 65536
    ensures var t' := SetSlot(tables, p, s, slot);
            && Shape(t', maps) && Mappers(t', maps, id) == Mappers(tables, maps, id)
            && |Holders(t', maps, id)| == |Holders(tables, maps, id)|
               - (if Holds(tables[p][s], id) then 1 else 0) + (if Holds(slot, id) then 1 else 0)
  {
    var t' := SetSlot(tables, p, s, slot);
    var before, after := Holders(tables, maps, id), Holders(t', maps, id);
    assert forall q, r | 0 <= q < PROCESSES && 0 <= r < SLOTS && (q, r) != (p, s) :: t'[q][r] == tables[q][r];
    OneElement(before, after, (p, s));
    assert (p, s) in before <==> Holds(tables[p][s], id);
    assert (p, s) in after <==> Holds(slot, id);
  }

  lemma LiveChange(tables: Tables, maps: Maps, p: nat, s: nat, slot: Slot)
    requires Shape(tables, maps) && p < PROCESSES && s < SLOTS && 0 < slot.generation < 65536
    ensures var t' := SetSlot(tables, p, s, slot);
            && Shape(t', maps)
            && |Live(t', maps)| == |Live(tables, maps)| - (if tables[p][s].open then 1 else 0) + (if slot.open then 1 else 0)
  {
    var t' := SetSlot(tables, p, s, slot);
    var before, after := Live(tables, maps), Live(t', maps);
    assert forall q, r | 0 <= q < PROCESSES && 0 <= r < SLOTS && (q, r) != (p, s) :: t'[q][r] == tables[q][r];
    OneElement(before, after, (p, s));
    assert (p, s) in before <==> tables[p][s].open;
    assert (p, s) in after <==> slot.open;
  }

  lemma MappersChange(tables: Tables, maps: Maps, p: nat, s: nat, named: nat, id: nat)
    requires Shape(tables, maps) && p < PROCESSES && s < MAP_SLOTS
    ensures var m' := SetMap(maps, p, s, named);
            && Shape(tables, m') && Holders(tables, m', id) == Holders(tables, maps, id)
            && Live(tables, m') == Live(tables, maps)
            && |Mappers(tables, m', id)| == |Mappers(tables, maps, id)|
               - (if maps[p][s] == id then 1 else 0) + (if named == id then 1 else 0)
  {
    var m' := SetMap(maps, p, s, named);
    var before, after := Mappers(tables, maps, id), Mappers(tables, m', id);
    assert forall q, r | 0 <= q < PROCESSES && 0 <= r < MAP_SLOTS && (q, r) != (p, s) :: m'[q][r] == maps[q][r];
    OneElement(before, after, (p, s));
    assert (p, s) in before <==> maps[p][s] == id;
    assert (p, s) in after <==> named == id;
  }

  /** Retaining a surface and then storing a slot that names it keeps the count exact. */
  lemma OpenKeepsCount(tables: Tables, maps: Maps, objects: seq<Surface>, p: nat, s: nat, slot: Slot)
    requires Shape(tables, maps) && Counted(tables, maps, objects) && p < PROCESSES && s < SLOTS
    requires !tables[p][s].open && slot.open && 0 < slot.generation < 65536
    requires slot.service == SERVICE_SURFACE ==> Named(objects, slot.object_id) || slot.object_id == 0
    ensures Shape(SetSlot(tables, p, s, slot), maps)
    ensures Counted(SetSlot(tables, p, s, slot), maps,
                    if slot.service == SERVICE_SURFACE && slot.object_id != 0 then Retained(objects, slot.object_id) else objects)
  {
    var t' := SetSlot(tables, p, s, slot);
    var objects' := if slot.service == SERVICE_SURFACE && slot.object_id != 0 then Retained(objects, slot.object_id) else objects;
    LiveChange(tables, maps, p, s, slot);
    forall id | 0 < id <= LIMIT
      ensures CountedAt(t', maps, objects', id)
    {
      HoldersChange(tables, maps, p, s, slot, id);
      assert CountedAt(tables, maps, objects, id);
    }
  }

  /** Clearing a slot and then releasing what it named keeps the count exact; in particular the
      release finds the surface active and referenced. */
  lemma CloseKeepsCount(tables: Tables, maps: Maps, objects: seq<Surface>, p: nat, s: nat, slot: Slot)
    requires Shape(tables, maps) && Counted(tables, maps, objects) && p < PROCESSES && s < SLOTS
    requires tables[p][s].open && !slot.open && 0 < slot.generation < 65536
    ensures Shape(SetSlot(tables, p, s, slot), maps)
    ensures var id := tables[p][s].object_id;
            if tables[p][s].service == SERVICE_SURFACE && id != 0
            then Named(objects, id) && References(objects, id) > 0
                 && Counted(SetSlot(tables, p, s, slot), maps, Released(objects, id))
            else Counted(SetSlot(tables, p, s, slot), maps, objects)
  {
    var t' := SetSlot(tables, p, s, slot);
    var named := tables[p][s].object_id;
    LiveChange(tables, maps, p, s, slot);
    if tables[p][s].service == SERVICE_SURFACE && named != 0 {
      assert CountedAt(tables, maps, objects, named);
      assert (p, s) in Holders(tables, maps, named);
      var objects' := Released(objects, named);
      forall id | 0 < id <= LIMIT
        ensures CountedAt(t', maps, objects', id)
      {
        HoldersChange(tables, maps, p, s, slot, id);
        assert CountedAt(tables, maps, objects, id);
      }
    } else {
      forall id | 0 < id <= LIMIT
        ensures CountedAt(t', maps, objects, id)
      {
        HoldersChange(tables, maps, p, s, slot, id);
        assert CountedAt(tables, maps, objects, id);
      }
    }
  }

  lemma MapKeepsCount(tables: Tables, maps: Maps, objects: seq<Surface>, p: nat, s: nat, named: nat)
    requires Shape(tables, maps) && Counted(tables, maps, objects) && p < PROCESSES && s < MAP_SLOTS
    requires maps[p][s] == 0 && Named(objects, named)
    ensures Shape(tables, SetMap(maps, p, s, named)) && Counted(tables, SetMap(maps, p, s, named), Retained(objects, named))
  {
    MappersChange(tables, maps, p, s, named, named);
    forall id | 0 < id <= LIMIT
      ensures CountedAt(tables, SetMap(maps, p, s, named), Retained(objects, named), id)
    {
      MappersChange(tables, maps, p, s, named, id);
      assert CountedAt(tables, maps, objects, id);
    }
  }

  lemma UnmapKeepsCount(tables: Tables, maps: Maps, objects: seq<Surface>, p: nat, s: nat)
    requires Shape(tables, maps) && Counted(tables, maps, objects) && p < PROCESSES && s < MAP_SLOTS && maps[p][s] != 0
    ensures var named := maps[p][s];
            && Named(objects, named) && References(objects, named) > 0
            && Shape(tables, SetMap(maps, p, s, 0)) && Counted(tables, SetMap(maps, p, s, 0), Released(objects, named))
  {
    var named := maps[p][s];
    assert CountedAt(tables, maps, objects, named);
    assert (p, s) in Mappers(tables, maps, named);
    MappersChange(tables, maps, p, s, 0, named);
    forall id | 0 < id <= LIMIT
      ensures CountedAt(tables, SetMap(maps, p, s, 0), Released(objects, named), id)
    {
      MappersChange(tables, maps, p, s, 0, id);
      assert CountedAt(tables, maps, objects, id);
    }
  }

  function BlankMaps(): Maps { seq(PROCESSES, _ => seq(MAP_SLOTS, _ => 0)) }

  ghost predicate Mapped(maps: Maps, pid: nat, id: nat)
    requires pid < |maps|
  {
    exists s | 0 <= s < |maps[pid]| :: maps[pid][s] == id
  }

  /** A failed open leaves the surfaces alone, except that one nobody held is reclaimed. */
  ghost predicate KeptOrCleared(before: seq<Surface>, after: seq<Surface>, id: nat) {
    || after == before
    || (Named(before, id) && before[id - 1].references == 0 && after == before[id - 1 := NONE])
  }

  /** The surface exists and its count can still grow. */
  ghost predicate Retainable(objects: seq<Surface>, id: nat) {
    0 < id <= |objects| && objects[id - 1].active && objects[id - 1].references != 0xFFFF_FFFF
  }

  ghost predicate AllHeld(objects: seq<Surface>) {
    |objects| == LIMIT && forall i | 0 <= i < LIMIT && objects[i].active :: objects[i].references > 0
  }

  lemma StillHeld(before: seq<Surface>, after: seq<Surface>, id: nat)
    requires AllHeld(before)
    ensures KeptOrCleared(before, after, id) ==> after == before
    ensures Named(before, id) && after == Retained(before, id) ==> AllHeld(after)
  {
  }

  class CapabilityTables {
    var tables: Tables
    var services: seq<bv32>
    var openCount: nat
    var closedCount: nat
    var maps: Maps
    const surfaces: SurfaceTable

    ghost predicate Valid()
      reads this, surfaces, surfaces.arena
    {
      && Shape(tables, maps) && |services| == PROCESSES && surfaces.Valid()
      && Counted(tables, maps, surfaces.objects)
      && openCount - closedCount == |Live(tables, maps)|
      && (forall s | 0 <= s < SLOTS :: !tables[0][s].open)
    }

    /** capabilities_init, over surfaces none of which exists yet. */
    constructor (pixels: SurfaceTable)
      requires pixels.Valid() && forall i | 0 <= i < LIMIT :: pixels.objects[i] == NONE
      ensures Valid() && NoLeak() && surfaces == pixels
      ensures tables == BlankTables() && maps == BlankMaps() && openCount == closedCount == 0
      ensures services == [0, 0xFFFF_FFFF, 0xFFFF_FFFF, 0, 0, 0, 0, 0]
    {
      surfaces := pixels;
      tables := BlankTables();
      maps := BlankMaps();
      openCount, closedCount := 0, 0;
      services := [0, 0xFFFF_FFFF, 0xFFFF_FFFF, 0, 0, 0, 0, 0];
      new;
      forall id | 0 < id <= LIMIT
        ensures CountedAt(tables, maps, surfaces.objects, id)
      {
        assert Holders(tables, maps, id) == {} && Mappers(tables, maps, id) == {};
      }
      assert Live(tables, maps) == {};
    }

    /** No surface is active without someone holding it; this is what holds between system calls. */
    ghost predicate NoLeak()
      reads this, surfaces
    {
      AllHeld(surfaces.objects)
    }

    predicate Assigned(pid: nat, service: nat)
      requires pid < |services| && service < 32
      reads this
    {
      services[pid] & (1 << service) != 0
    }

    /** The slot a handle stands for, if it is the caller's, open and of the right generation. */
    ghost predicate Resolves(pid: nat, handle: nat, required: bv32)
      requires Shape(tables, maps)
      reads this
    {
      ResolvesIn(tables, pid, handle, required)
    }

    /** The table changed by exactly this fill, and the handle stands for the new slot. */
    ghost predicate Opens(before: Tables, after: Tables, pid: nat, handle: nat, service: nat, rights: bv32, id: nat) {
      && TablesOk(before) && TablesOk(after) && after == Applied(before, Fill(pid, service, rights, id))
      && ResolvesIn(after, pid, handle, rights) && !before[pid][DecodeHandle(handle).slot].open
      && after[pid][DecodeHandle(handle).slot] == Slot(true, DecodeHandle(handle).generation, service, rights, id)
    }

    ghost function SlotOf(handle: nat): Slot
      requires Shape(tables, maps) && DecodeHandle(handle).Good?
      reads this
    {
      tables[DecodeHandle(handle).pid][DecodeHandle(handle).slot]
    }

    method AllocateSlot(pid: nat, service: nat, rights: bv32, id: nat) returns (handle: nat)
      requires Shape(tables, maps) && surfaces.Valid() && 0 < pid < PROCESSES
      requires openCount - closedCount == |Live(tables, maps)|
      modifies this`tables, this`openCount
      ensures tables == Applied(old(tables), Fill(pid, service, rights, id))
      ensures var s := FirstClosed(old(tables)[pid], 0);
              if s == SLOTS then handle == HANDLE_NONE && tables == old(tables) && openCount == old(openCount)
              else && tables == SetSlot(old(tables), pid, s, Slot(true, old(tables)[pid][s].generation, service, rights, id))
                   && openCount == old(openCount) + 1 && handle == MakeHandle(pid, s, old(tables)[pid][s].generation)
                   && handle != HANDLE_NONE
      ensures Shape(tables, maps) && openCount - closedCount == |Live(tables, maps)|
    {
      for i := 0 to SLOTS
        invariant tables == old(tables) && openCount == old(openCount)
        invariant FirstClosed(tables[pid], 0) == FirstClosed(tables[pid], i)
      {
        if !tables[pid][i].open {
          LiveChange(tables, maps, pid, i, Slot(true, tables[pid][i].generation, service, rights, id));
          HandleRoundTrip(pid, i, tables[pid][i].generation);
          tables := tables[pid := tables[pid][i := Slot(true, tables[pid][i].generation, service, rights, id)]];
          openCount := openCount + 1;
          return MakeHandle(pid, i, tables[pid][i].generation);
        }
      }
      return HANDLE_NONE;
    }

    /** A slot that holds no counted reference; `id` is 0 for a plain service. */
    method OpenPlain(pid: nat, service: nat, rights: bv32, id: nat) returns (handle: nat)
      requires Valid() && 0 < pid < PROCESSES && (service == SERVICE_SURFACE ==> id == 0)
      modifies this`tables, this`openCount
      ensures Valid()
      ensures handle != HANDLE_NONE <==> FirstClosed(old(tables)[pid], 0) < SLOTS
      ensures handle == HANDLE_NONE ==> tables == old(tables)
      ensures handle != HANDLE_NONE ==> Opens(old(tables), tables, pid, handle, service, rights, id)
    {
      ghost var s := FirstClosed(tables[pid], 0);
      if s < SLOTS {
        OpenKeepsCount(tables, maps, surfaces.objects, pid, s, Slot(true, tables[pid][s].generation, service, rights, id));
        HandleRoundTrip(pid, s, tables[pid][s].generation);
      }
      handle := AllocateSlot(pid, service, rights, id);
    }

    /** capability_open: a service of the process's own, with the fixed rights of that service. */
    method OpenService(pid: nat, service: nat) returns (handle: nat)
      requires Valid()
      modifies this`tables, this`openCount
      ensures Valid()
      ensures handle != HANDLE_NONE <==>
                && 0 < pid < PROCESSES && ServiceRights(service) != 0 && services[pid] & (1 << service) != 0
                && FirstClosed(old(tables)[pid], 0) < SLOTS
      ensures handle == HANDLE_NONE ==> tables == old(tables)
      ensures handle != HANDLE_NONE ==>
                Opens(old(tables), tables, pid, handle, service, ServiceRights(service), 0)
    {
      var rights := ServiceRights(service);
      if pid == 0 || pid >= PROCESSES || rights == 0 || !Assigned(pid, service) { return HANDLE_NONE; }
      handle := OpenPlain(pid, service, rights, 0);
    }

    /** capability_open_file: needs no assigned service. */
    method OpenFile(pid: nat, id: nat) returns (handle: nat)
      requires Valid()
      modifies this`tables, this`openCount
      ensures Valid()
      ensures handle != HANDLE_NONE <==> 0 < pid < PROCESSES && id != 0 && FirstClosed(old(tables)[pid], 0) < SLOTS
      ensures handle == HANDLE_NONE ==> tables == old(tables)
      ensures handle != HANDLE_NONE ==>
                Opens(old(tables), tables, pid, handle,
                      SERVICE_FILE, RIGHT_READ | RIGHT_WRITE | RIGHT_QUERY, id)
    {
      if pid == 0 || pid >= PROCESSES || id == 0 { return HANDLE_NONE; }
      handle := OpenPlain(pid, SERVICE_FILE, RIGHT_READ | RIGHT_WRITE | RIGHT_QUERY, id);
    }

    /** capability_open_ipc: any nonempty choice of the channel rights, for an assigned process. */
    method OpenIpc(pid: nat, channel: nat, rights: bv32) returns (handle: nat)
      requires Valid()
      modifies this`tables, this`openCount
      ensures Valid()
      ensures handle != HANDLE_NONE <==>
                && 0 < pid < PROCESSES && channel != 0 && rights != 0
                && Within(rights, RIGHT_SEND | RIGHT_RECEIVE | RIGHT_QUERY) && services[pid] & 64 != 0
                && FirstClosed(old(tables)[pid], 0) < SLOTS
      ensures handle == HANDLE_NONE ==> tables == old(tables)
      ensures handle != HANDLE_NONE ==>
                Opens(old(tables), tables, pid, handle, SERVICE_IPC, rights, channel)
    {
      assert |services| == PROCESSES && Shape(tables, maps) && |tables| == PROCESSES && SERVICE_IPC == 6;
      hide *;
      var allowed := RIGHT_SEND | RIGHT_RECEIVE | RIGHT_QUERY;
      MaskWithin(rights, allowed);
      if pid == 0 || pid >= PROCESSES || channel == 0 || rights == 0 || rights & !allowed != 0 || !Assigned(pid, SERVICE_IPC) {
        return HANDLE_NONE;
      }
      handle := OpenPlain(pid, SERVICE_IPC, rights, channel);
    }

    /** Retain first, then allocate; a full table gives the reference back. */
    method OpenNamed(pid: nat, id: nat, rights: bv32) returns (handle: nat)
      requires Valid() && 0 < pid < PROCESSES && id != 0
      modifies this`tables, this`openCount, surfaces`objects, surfaces.arena
      ensures Valid()
      ensures handle == HANDLE_NONE ==> tables == old(tables)
      ensures handle == HANDLE_NONE ==> KeptOrCleared(old(surfaces.objects), surfaces.objects, id)
      ensures handle != HANDLE_NONE <==> Retainable(old(surfaces.objects), id) && FirstClosed(old(tables)[pid], 0) < SLOTS
      ensures handle != HANDLE_NONE ==>
                Opens(old(tables), tables, pid, handle, SERVICE_SURFACE, rights, id)
      ensures handle != HANDLE_NONE ==>
                Named(old(surfaces.objects), id) && surfaces.objects == Retained(old(surfaces.objects), id)
    {
      var retained := surfaces.Retain(id);
      if !retained { return HANDLE_NONE; }
      ghost var s := FirstClosed(tables[pid], 0);
      if s < SLOTS {
        OpenKeepsCount(tables, maps, old(surfaces.objects), pid, s,
                       Slot(true, tables[pid][s].generation, SERVICE_SURFACE, rights, id));
        HandleRoundTrip(pid, s, tables[pid][s].generation);
      }
      handle := AllocateSlot(pid, SERVICE_SURFACE, rights, id);
      if handle == HANDLE_NONE {
        var _ := surfaces.Release(id);
        if old(surfaces.objects)[id - 1].references != 0 {
          assert surfaces.objects == old(surfaces.objects);
        } else {
          UndoneRetain(tables, maps, old(surfaces.objects), id);
        }
      }
    }

    lemma UndoneRetain(t: Tables, m: Maps, objects: seq<Surface>, id: nat)
      requires Shape(t, m) && Counted(t, m, objects) && Named(objects, id) && References(objects, id) == 0
      ensures Counted(t, m, objects[id - 1 := NONE]) && Released(Retained(objects, id), id) == objects[id - 1 := NONE]
    {
      var objects' := objects[id - 1 := NONE];
      forall k | 0 < k <= LIMIT ensures CountedAt(t, m, objects', k) { assert CountedAt(t, m, objects, k); }
    }

    method OpenSurface(pid: nat, id: nat, rights: bv32) returns (handle: nat)
      requires Valid()
      modifies this`tables, this`openCount, surfaces`objects, surfaces.arena
      ensures Valid()
      ensures handle != HANDLE_NONE <==>
                && 0 < pid < PROCESSES && rights != 0 && Within(rights, RIGHT_READ | RIGHT_WRITE | RIGHT_QUERY)
                && services[pid] & 512 != 0 && Retainable(old(surfaces.objects), id)
                && FirstClosed(old(tables)[pid], 0) < SLOTS
      ensures handle != HANDLE_NONE ==> Opens(old(tables), tables, pid, handle, SERVICE_SURFACE, rights, id)
      ensures handle != HANDLE_NONE ==>
                Named(old(surfaces.objects), id) && surfaces.objects == Retained(old(surfaces.objects), id)
      ensures handle == HANDLE_NONE ==> tables == old(tables)
      ensures handle == HANDLE_NONE ==> KeptOrCleared(old(surfaces.objects), surfaces.objects, id)
    {
      assert |services| == PROCESSES && Shape(tables, maps) && |tables| == PROCESSES && SERVICE_SURFACE == 9;
      hide *;
      NotRetainable(surfaces.objects, id);
      var allowed := RIGHT_READ | RIGHT_WRITE | RIGHT_QUERY;
      MaskWithin(rights, allowed);
      if pid < PROCESSES { AssignedBits(pid); }
      if pid == 0 || pid >= PROCESSES || id == 0 || rights == 0 || rights & !allowed != 0 || !Assigned(pid, SERVICE_SURFACE) {
        return HANDLE_NONE;
      }
      handle := OpenNamed(pid, id, rights);
    }

    lemma AssignedBits(pid: nat)
      requires pid < |services|
      ensures Assigned(pid, SERVICE_IPC) <==> services[pid] & 64 != 0
      ensures Assigned(pid, SERVICE_SURFACE) <==> services[pid] & 512 != 0
    {
      assert (1 as bv32) << 6 == 64 && (1 as bv32) << 9 == 512;
    }

    lemma NotRetainable(objects: seq<Surface>, id: nat)
      ensures id == 0 ==> !Retainable(objects, id)
      ensures KeptOrCleared(objects, objects, id)
    {
    }

    lemma MaskWithin(rights: bv32, allowed: bv32)
      ensures rights & !allowed == 0 <==> Within(rights, allowed)
    {
    }

    /** What capability_resolve_object answers. */
    method Resolve(pid: nat, handle: nat, required: bv32) returns (ok: bool, service: nat, id: nat, slot: nat)
      requires Shape(tables, maps)
      ensures ok == Resolves(pid, handle, required)
      ensures ok ==> pid < PROCESSES && slot < SLOTS && DecodeHandle(handle) == Good(pid, slot, tables[pid][slot].generation)
                     && service == tables[pid][slot].service && id == tables[pid][slot].object_id
    {
      hide DecodeHandle, Within;
      var d := DecodeHandle(handle);
      if d == Bad || d.pid != pid { return false, 0, 0, 0; }
      var candidate := tables[d.pid][d.slot];
      if !candidate.open || candidate.generation != d.generation { return false, 0, 0, 0; }
      if !Within(required, candidate.rights) { return false, 0, 0, 0; }
      return true, candidate.service, candidate.object_id, d.slot;
    }

    /** The granted handle names the same surface with rights the source handle has, and never
        the right to write. */
    method Grant(sourcePid: nat, sourceHandle: nat, targetPid: nat, rights: bv32) returns (handle: nat)
      requires Valid() && NoLeak()
      modifies this`tables, this`openCount, surfaces`objects, surfaces.arena
      ensures Valid() && NoLeak()
      ensures handle != HANDLE_NONE <==>
                && 0 < targetPid < PROCESSES && rights != 0 && Within(rights, RIGHT_READ | RIGHT_QUERY)
                && services[targetPid] & 512 != 0 && old(Resolves(sourcePid, sourceHandle, rights))
                && old(SlotOf(sourceHandle)).service == SERVICE_SURFACE
                && Retainable(old(surfaces.objects), old(SlotOf(sourceHandle)).object_id)
                && FirstClosed(old(tables)[targetPid], 0) < SLOTS
      ensures handle != HANDLE_NONE ==>
                && DecodeHandle(sourceHandle).Good?
                && Opens(old(tables), tables, targetPid, handle,
                         SERVICE_SURFACE, rights, old(SlotOf(sourceHandle)).object_id)
                && SlotOf(handle).object_id == old(SlotOf(sourceHandle)).object_id
                && Within(SlotOf(handle).rights, old(SlotOf(sourceHandle)).rights)
                && Within(SlotOf(handle).rights, RIGHT_READ | RIGHT_QUERY)
                && Named(old(surfaces.objects), SlotOf(handle).object_id)
                && surfaces.objects == Retained(old(surfaces.objects), SlotOf(handle).object_id)
      ensures handle == HANDLE_NONE ==> tables == old(tables) && surfaces.objects == old(surfaces.objects)
    {
      assert |services| == PROCESSES && Shape(tables, maps) && |tables| == PROCESSES && AllHeld(surfaces.objects);
      ghost var before, objects := tables, surfaces.objects;
      hide *;
      NotRetainable(objects, 0);
      MaskWithin(rights, RIGHT_READ | RIGHT_QUERY);
      if targetPid < PROCESSES { AssignedBits(targetPid); }
      if targetPid == 0 || targetPid >= PROCESSES || rights == 0 { return HANDLE_NONE; }
      ResolvedSlot(sourcePid, sourceHandle, rights);
      var ok, service, id, slot := Resolve(sourcePid, sourceHandle, rights);
      if !ok || service != SERVICE_SURFACE || rights & !(RIGHT_READ | RIGHT_QUERY) != 0 || !Assigned(targetPid, service) {
        return HANDLE_NONE;
      }
      if id == 0 { return HANDLE_NONE; }
      handle := OpenNamed(targetPid, id, rights);
      StillHeld(objects, surfaces.objects, id);
      if handle != HANDLE_NONE { OpenedSlot(before, targetPid, handle, SERVICE_SURFACE, rights, id); }
    }

    lemma ResolvedSlot(pid: nat, handle: nat, required: bv32)
      requires Shape(tables, maps)
      ensures Resolves(pid, handle, required) ==>
                && DecodeHandle(handle).Good? && DecodeHandle(handle).pid == pid < PROCESSES
                && SlotOf(handle) == tables[pid][DecodeHandle(handle).slot] && Within(required, SlotOf(handle).rights)
    {
    }

    lemma OpenedSlot(before: Tables, pid: nat, handle: nat, service: nat, rights: bv32, id: nat)
      requires Valid() && Opens(before, tables, pid, handle, service, rights, id)
      ensures Shape(tables, maps) && DecodeHandle(handle).Good?
      ensures SlotOf(handle).object_id == id && SlotOf(handle).rights == rights
    {
    }

    /** Clears slot `s` and gives back the reference it held. */
    method ReleaseSlot(pid: nat, s: nat)
      requires Valid() && pid < PROCESSES && s < SLOTS && tables[pid][s].open
      modifies this`tables, this`closedCount, surfaces`objects, surfaces.arena
      ensures Valid()
      ensures tables == SetSlot(old(tables), pid, s, Emptied(old(tables)[pid][s])) == Applied(old(tables), Empty(pid, s))
      ensures closedCount == old(closedCount) + 1
      ensures var released := old(tables)[pid][s];
              if released.service == SERVICE_SURFACE && released.object_id != 0
              then Named(old(surfaces.objects), released.object_id)
                   && old(surfaces.objects)[released.object_id - 1].references > 0
                   && surfaces.objects == Released(old(surfaces.objects), released.object_id)
              else surfaces.objects == old(surfaces.objects)
    {
      var released := tables[pid][s];
      CloseKeepsCount(tables, maps, surfaces.objects, pid, s, Emptied(released));
      LiveChange(tables, maps, pid, s, Emptied(released));
      tables := tables[pid := tables[pid][s := Emptied(released)]];
      closedCount := closedCount + 1;
      if released.service == SERVICE_SURFACE && released.object_id != 0 {
        var _ := surfaces.Release(released.object_id);
      }
    }

    /** A closed handle stops resolving at once. */
    method Close(pid: nat, handle: nat) returns (ok: bool)
      requires Valid() && NoLeak()
      modifies this`tables, this`closedCount, surfaces`objects, surfaces.arena
      ensures Valid() && NoLeak()
      ensures ok == old(Resolves(pid, handle, 0)) && !Resolves(pid, handle, 0)
      ensures !ok ==> tables == old(tables) && closedCount == old(closedCount) && surfaces.objects == old(surfaces.objects)
      ensures ok ==> closedCount == old(closedCount) + 1 && DecodeHandle(handle).Good?
                     && tables == SetSlot(old(tables), pid, DecodeHandle(handle).slot, Emptied(old(SlotOf(handle))))
                               == Applied(old(tables), Empty(pid, DecodeHandle(handle).slot))
    {
      var resolved, _, _, slot := Resolve(pid, handle, 0);
      if !resolved { return false; }
      ReleaseSlot(pid, slot);
      return true;
    }

    method CloseSlot(pid: nat, s: nat)
      requires Valid() && NoLeak() && pid < PROCESSES && s < SLOTS
      modifies this`tables, this`closedCount, surfaces`objects, surfaces.arena
      ensures Valid() && NoLeak()
      ensures tables == Applied(old(tables), Empty(pid, s)) && |tables| == PROCESSES && |tables[pid]| == SLOTS
      ensures !tables[pid][s].open && forall k | 0 <= k < SLOTS && k != s :: tables[pid][k] == old(tables)[pid][k]
      ensures forall p | 0 <= p < PROCESSES && p != pid :: tables[p] == old(tables)[p]
    {
      if tables[pid][s].open { ReleaseSlot(pid, s); }
      hide Counted, Live, SurfaceTable.Valid;
    }

    method CloseSlots(pid: nat)
      requires Valid() && NoLeak() && pid < PROCESSES
      modifies this`tables, this`closedCount, surfaces`objects, surfaces.arena
      ensures Valid() && NoLeak() && |tables| == PROCESSES && |tables[pid]| == SLOTS
      ensures forall s | 0 <= s < SLOTS :: !tables[pid][s].open
      ensures forall p | 0 <= p < PROCESSES && p != pid :: tables[p] == old(tables)[p]
      ensures tables == After(old(tables), EmptyAll(pid, SLOTS))
    {
      assert |tables| == PROCESSES && |tables[pid]| == SLOTS && TablesOk(tables);
      ghost var before := tables;
      EmptyAllStarts(before, pid);
      hide *;
      for slot := 0 to SLOTS
        invariant Valid() && NoLeak() && |tables| == PROCESSES && |tables[pid]| == SLOTS
        invariant forall s | 0 <= s < slot :: !tables[pid][s].open
        invariant forall p | 0 <= p < PROCESSES && p != pid :: tables[p] == before[p]
        invariant tables == After(before, EmptyAll(pid, slot))
      {
        EmptyAllGrows(before, pid, slot);
        CloseSlot(pid, slot);
      }
    }

    /** Leaves the process without a single open slot. */
    method CloseAll(pid: nat)
      requires Valid() && NoLeak()
      modifies this`tables, this`closedCount, this`services, surfaces`objects, surfaces.arena
      ensures Valid() && NoLeak()
      ensures 0 < pid < PROCESSES ==> forall s | 0 <= s < SLOTS :: !tables[pid][s].open
      ensures services == if 0 < pid < PROCESSES then old(services)[pid := 0] else old(services)
      ensures forall p | 0 <= p < PROCESSES && p != pid :: tables[p] == old(tables)[p]
      ensures tables == if 0 < pid < PROCESSES then After(old(tables), EmptyAll(pid, SLOTS)) else old(tables)
    {
      hide Counted, Live, SurfaceTable.Valid, AllHeld, Applied, After, EmptyAll;
      if pid == 0 || pid >= PROCESSES { return; }
      CloseSlots(pid);
      services := services[pid := 0];
    }

    /** System call 22: a surface is either created together with its first handle or not at all. */
    method CreateSurface(pid: nat, width: nat, height: nat) returns (handle: nat)
      requires Valid() && NoLeak()
      modifies this`tables, this`openCount, surfaces`objects, surfaces.arena
      ensures Valid() && NoLeak()
      ensures handle == HANDLE_NONE ==> tables == old(tables) && SameActive(old(surfaces.objects), surfaces.objects)
      ensures handle != HANDLE_NONE <==>
                && 0 < pid < PROCESSES && 0 < width <= MAX_WIDTH && 0 < height <= MAX_HEIGHT && services[pid] & 512 != 0
                && (exists i | 0 <= i < LIMIT :: !old(surfaces.objects)[i].active)
                && (exists o: nat | o + Rounded(width * height) <= surfaces.arena.Length ::
                      Gap(old(surfaces.objects), o, Rounded(width * height)))
                && FirstClosed(old(tables)[pid], 0) < SLOTS
      ensures handle != HANDLE_NONE ==>
                DecodeHandle(handle).Good?
                && Opens(old(tables), tables, pid, handle, SERVICE_SURFACE, RIGHT_READ | RIGHT_WRITE | RIGHT_QUERY,
                         SlotOf(handle).object_id)
                && MadeSurface(old(surfaces.objects), surfaces.objects, SlotOf(handle).object_id, pid, width, height)
    {
      var all := RIGHT_READ | RIGHT_WRITE | RIGHT_QUERY;
      assert |services| == PROCESSES && Shape(tables, maps) && |tables| == PROCESSES && AllHeld(surfaces.objects);
      ghost var before, tables0 := surfaces.objects, tables;
      hide *;
      ValidParts();
      AnyRights();
      var ok, id := surfaces.Create(pid, width, height);
      if !ok { SameIsActive(before); ValidParts(); return HANDLE_NONE; }
      ghost var made := surfaces.objects;
      MadeOne(tables, maps, before, made, id);
      ValidParts();
      handle := OpenSurface(pid, id, all);
      if handle == HANDLE_NONE {
        ghost var kept := surfaces.objects;
        ValidParts();
        var _ := surfaces.Discard(id);
        MadeUndone(tables, maps, before, made, kept, surfaces.objects, id);
        ValidParts();
      } else {
        OpenedSlot(tables0, pid, handle, SERVICE_SURFACE, all, id);
        MadeHeld(before, made, id, pid, width, height);
      }
    }

    /** Valid, taken apart: the tables, the surfaces, and the counts between them. */
    ghost predicate TablesValid()
      reads this
    {
      && Shape(tables, maps) && |services| == PROCESSES && openCount - closedCount == |Live(tables, maps)|
      && (forall s | 0 <= s < SLOTS :: !tables[0][s].open)
    }

    lemma ValidParts()
      ensures Valid() <==> TablesValid() && surfaces.Valid() && Shape(tables, maps) && Counted(tables, maps, surfaces.objects)
    {
      hide Shape, Counted, Live, SurfaceTable.Valid;
    }

    /** map_surface_readonly, for a live process; `mapped` says whether the page tables could be edited. */
    method MapSurface(pid: nat, id: nat, mapped: bool) returns (ok: bool)
      requires Valid() && NoLeak() && 0 < pid < PROCESSES && id != 0
      modifies this`maps, surfaces`objects, surfaces.arena
      ensures Valid() && NoLeak()
      ensures ok <==> Mapped(old(maps), pid, id)
                      || (mapped && Mapped(old(maps), pid, 0) && Retainable(old(surfaces.objects), id)
                          && 0 < (old(surfaces.objects)[id - 1].capacity * 4 + 4095) / 4096 <= MAP_PAGES)
      ensures !ok || Mapped(old(maps), pid, id) ==> maps == old(maps) && surfaces.objects == old(surfaces.objects)
      ensures ok && !Mapped(old(maps), pid, id) ==>
                Retainable(old(surfaces.objects), id) && surfaces.objects == Retained(old(surfaces.objects), id)
                && exists s | 0 <= s < MAP_SLOTS ::
                     old(maps)[pid][s] == 0 && maps == SetMap(old(maps), pid, s, id) && forall k | 0 <= k < s :: old(maps)[pid][k] != 0
    {
      var free := MAP_SLOTS;
      for slot := 0 to MAP_SLOTS
        invariant 0 <= free <= MAP_SLOTS && (free < MAP_SLOTS ==> free < slot && maps[pid][free] == 0)
        invariant forall k | 0 <= k < slot && k < free :: maps[pid][k] != 0
        invariant forall k | 0 <= k < slot :: maps[pid][k] != id
      {
        if maps[pid][slot] == id { return true; }
        if free == MAP_SLOTS && maps[pid][slot] == 0 { free := slot; }
      }
      if free == MAP_SLOTS { return false; }
      if id > LIMIT || !surfaces.objects[id - 1].active { return false; }
      var pages := (surfaces.objects[id - 1].capacity * 4 + 4095) / 4096;
      if pages == 0 || pages > MAP_PAGES { return false; }
      var retained := surfaces.Retain(id);
      if !retained { return false; }
      if !mapped {
        var _ := surfaces.Release(id);
        assert surfaces.objects == old(surfaces.objects);
        return false;
      }
      MapKeepsCount(tables, maps, old(surfaces.objects), pid, free, id);
      MappersChange(tables, maps, pid, free, id, id);
      maps := SetMap(maps, pid, free, id);
      assert maps[pid][free] == id;
      return true;
    }

    method UnmapSlot(pid: nat, slot: nat)
      requires Valid() && NoLeak() && pid < PROCESSES && slot < MAP_SLOTS && maps[pid][slot] != 0
      modifies this`maps, surfaces`objects, surfaces.arena
      ensures Valid() && NoLeak() && maps == SetMap(old(maps), pid, slot, 0)
      ensures Named(old(surfaces.objects), old(maps)[pid][slot]) && old(surfaces.objects)[old(maps)[pid][slot] - 1].references > 0
      ensures surfaces.objects == Released(old(surfaces.objects), old(maps)[pid][slot])
    {
      var id := maps[pid][slot];
      UnmapKeepsCount(tables, maps, surfaces.objects, pid, slot);
      MappersChange(tables, maps, pid, slot, 0, id);
      maps := SetMap(maps, pid, slot, 0);
      var _ := surfaces.Release(id);
    }

    /** Process teardown: every mapping of the process goes, with its reference. */
    method UnmapAll(pid: nat)
      requires Valid() && NoLeak() && 0 < pid < PROCESSES
      modifies this`maps, surfaces`objects, surfaces.arena
      ensures Valid() && NoLeak() && forall s | 0 <= s < MAP_SLOTS :: maps[pid][s] == 0
      ensures forall p | 0 <= p < PROCESSES && p != pid :: maps[p] == old(maps)[p]
    {
      for slot := 0 to MAP_SLOTS
        invariant Valid() && NoLeak()
        invariant forall s | 0 <= s < slot :: maps[pid][s] == 0
        invariant forall p | 0 <= p < PROCESSES && p != pid :: maps[p] == old(maps)[p]
      {
        if maps[pid][slot] != 0 { UnmapSlot(pid, slot); }
      }
    }
  }

  /** One new surface of that size, held once; the others are as they were. */
  ghost predicate MadeSurface(before: seq<Surface>, after: seq<Surface>, id: nat, pid: nat, width: nat, height: nat) {
    && 0 < id <= |before| == |after| && !before[id - 1].active && after == before[id - 1 := after[id - 1]]
    && after[id - 1] == Surface(true, pid, width, height, after[id - 1].offset, Rounded(width * height), 1)
  }

  lemma NewIsUncounted(t: Tables, m: Maps, objects: seq<Surface>, id: nat, s: Surface)
    requires Shape(t, m) && Counted(t, m, objects) && 0 < id <= LIMIT && !objects[id - 1].active && s.references == 0 && s.active
    requires References(objects, id) == 0
    ensures Counted(t, m, objects[id - 1 := s])
  {
    var objects' := objects[id - 1 := s];
    forall k | 0 < k <= LIMIT ensures CountedAt(t, m, objects', k) { assert CountedAt(t, m, objects, k); }
  }

  lemma DiscardUncounted(t: Tables, m: Maps, objects: seq<Surface>, id: nat)
    requires Shape(t, m) && Counted(t, m, objects) && 0 < id <= LIMIT && References(objects, id) == 0
    ensures Counted(t, m, objects[id - 1 := NONE])
  {
    var objects' := objects[id - 1 := NONE];
    forall k | 0 < k <= LIMIT ensures CountedAt(t, m, objects', k) { assert CountedAt(t, m, objects, k); }
  }

  lemma AnyRights()
    ensures var all := RIGHT_READ | RIGHT_WRITE | RIGHT_QUERY; all != 0 && Within(all, all)
  {
  }

  lemma SameIsActive(objects: seq<Surface>)
    ensures SameActive(objects, objects)
  {
  }

  /** What surface_create hands on: an unused slot filled with a surface nobody holds yet. */
  ghost predicate Unheld(before: seq<Surface>, made: seq<Surface>, id: nat) {
    && 0 < id <= LIMIT == |before| && |made| == LIMIT && !before[id - 1].active && made == before[id - 1 := made[id - 1]]
    && made[id - 1].active && made[id - 1].references == 0
  }

  lemma MadeOne(t: Tables, m: Maps, before: seq<Surface>, made: seq<Surface>, id: nat)
    requires Shape(t, m) && Counted(t, m, before) && id == FirstInactive(before, 0) + 1 <= LIMIT && Named(made, id)
    requires made == before[id - 1 := made[id - 1]] && made[id - 1].references == 0
    ensures Unheld(before, made, id) && Retainable(made, id) && Counted(t, m, made)
  {
    assert CountedAt(t, m, before, id);
    NewIsUncounted(t, m, before, id, made[id - 1]);
    hide Counted, Shape;
  }

  lemma MadeHeld(before: seq<Surface>, made: seq<Surface>, id: nat, pid: nat, width: nat, height: nat)
    requires AllHeld(before) && Unheld(before, made, id) && Named(made, id)
    requires made[id - 1] == Surface(true, pid, width, height, made[id - 1].offset, Rounded(width * height), 0)
    ensures AllHeld(Retained(made, id)) && MadeSurface(before, Retained(made, id), id, pid, width, height)
  {
    hide Rounded;
  }

  lemma MadeUndone(t: Tables, m: Maps, before: seq<Surface>, made: seq<Surface>, kept: seq<Surface>, after: seq<Surface>, id: nat)
    requires Shape(t, m) && Counted(t, m, made) && AllHeld(before) && Unheld(before, made, id) && KeptOrCleared(made, kept, id)
    requires after == if kept[id - 1].active && kept[id - 1].references == 0 then kept[id - 1 := NONE] else kept
    ensures AllHeld(after) && SameActive(before, after) && Counted(t, m, after)
  {
    DiscardUncounted(t, m, made, id);
    assert after == made[id - 1 := NONE];
    hide Counted, Shape;
  }

  /** The same surfaces are active, with the same contents of their records. */
  ghost predicate SameActive(a: seq<Surface>, b: seq<Surface>) {
    |a| == |b| && forall i | 0 <= i < |a| :: (a[i].active || b[i].active) ==> a[i] == b[i]
  }
}
