/** The RAM filesystem in place: name checks, the slot table over a bump-allocated arena,
    directory listing by index, and the recursive disk-usage walk. */
module Ramfs {
  import opened Bytes
  import opened Options
  import opened Paths

  const DATA_MAX: nat := 196608
  const STORAGE_MAX: nat := 1048576
  const CHILD_BUFFER: nat := 256

  // ---- Names --------------------------------------------------------------------------------

  method CheckSegment(name: string, start: nat, length: nat) returns (ok: bool)
    requires start + length <= |name|
    ensures ok == ValidSegment(name[start..start + length])
  {
    ghost var s := name[start..start + length];
    if length == 0 {
      return false;
    }
    if length == 1 && name[start] == '.' {
      assert s == ".";
      return false;
    }
    if length == 2 && name[start] == '.' && name[start + 1] == '.' {
      assert s == "..";
      return false;
    }
    assert s != "" && s != "." && s != ".." by {
      assert s[0] == name[start] && (length > 1 ==> s[1] == name[start + 1]);
    }
    for i := 0 to length
      invariant forall k | 0 <= k < i :: Allowed(s[k])
    {
      assert s[i] == name[start + i];
      if !Allowed(name[start + i]) {
        return false;
      }
    }
    ok := true;
  }

  /** What is left to check from `start` on; nothing once the end has been passed. */
  ghost predicate RestValid(name: string, start: nat) { start <= |name| ==> ValidPath(name[start..]) }

  /** Checking one segment decides everything up to the next slash. */
  lemma SegmentStep(name: string, start: nat, cursor: nat)
    requires start <= cursor <= |name| && (cursor < |name| ==> name[cursor] == '/')
    requires forall k | start <= k < cursor :: name[k] != '/'
    ensures RestValid(name, start) <==>
              ValidSegment(name[start..start + (cursor - start)]) && RestValid(name, cursor + 1)
  {
    var rest := name[start..];
    SegmentEndIs(rest, cursor - start);
    assert rest[..cursor - start] == name[start..start + (cursor - start)];
    if cursor < |name| {
      assert rest[cursor - start + 1..] == name[cursor + 1..];
    }
    hide ValidSegment;
  }

  lemma BadLength(name: string)
    ensures |name| == 0 || |name| > NAME_MAX ==> !ValidName(name)
  {
  }

  lemma PastEnd(name: string)
    ensures RestValid(name, |name| + 1)
  {
  }

  lemma NameStart(name: string)
    requires 0 < |name| <= NAME_MAX
    ensures var start := if name[0] == '/' then 1 else 0;
            ValidName(name) <==> start < |name| && RestValid(name, start)
  {
    var start := if name[0] == '/' then 1 else 0;
    assert name[start..] == Strip(name);
    assert !ValidPath("");
  }

  /** The single pass over the name that checks each segment when it meets its end. */
  method CheckName(name: string) returns (ok: bool)
    ensures ok == ValidName(name)
  {
    hide *;
    BadLength(name);
    if |name| == 0 || |name| > NAME_MAX {
      return false;
    }
    var start := if name[0] == '/' then 1 else 0;
    NameStart(name);
    if start == |name| {
      return false;
    }
    ghost var end := |name| + 1;
    PastEnd(name);
    var cursor := start;
    while cursor <= |name|
      invariant start <= cursor <= |name| + 1 && (cursor == |name| + 1 ==> start == cursor)
      invariant ValidName(name) == RestValid(name, start)
      invariant forall k | start <= k < cursor && k < |name| :: name[k] != '/'
    {
      if cursor == |name| || name[cursor] == '/' {
        SegmentStep(name, start, cursor);
        var valid := CheckSegment(name, start, cursor - start);
        if !valid {
          return false;
        }
        start := cursor + 1;
      }
      cursor := cursor + 1;
    }
    assert start == end;
    ok := true;
  }

  /** Whether the name, from its first letter on, is below the directory. */
  method MatchesDir(name: string, from: nat, dir: string) returns (ok: bool)
    requires from <= |name| && dir != ""
    ensures ok == Under(name[from..], dir)
  {
    ghost var path := name[from..];
    if |name| - from <= |dir| {
      return false;
    }
    for i := 0 to |dir|
      invariant forall k | 0 <= k < i :: path[k] == dir[k]
    {
      assert path[i] == name[from + i];
      if name[from + i] != dir[i] {
        assert path[..|dir|][i] != dir[i];
        return false;
      }
    }
    assert path[..|dir|] == dir;
    ok := name[from + |dir|] == '/';
  }

  /** Cutting the rest of a path at its first slash. */
  lemma ChildCut(name: string, dir: string, start: nat, length: nat)
    requires Under(Strip(name), dir) && 0 < length && start + length <= |name|
    requires Rest(Strip(name), dir) == name[start..]
    requires forall k | start <= k < start + length :: name[k] != '/'
    requires start + length < |name| ==> name[start + length] == '/'
    ensures ChildOf(name, dir) == Some(Child(name[start..start + length], start + length == |name|))
  {
    var end := start + length;
    SegmentEndIs(name[start..], end - start);
    assert name[start..][..end - start] == name[start..end];
  }

  method NextSlash(name: string, start: nat) returns (end: nat)
    requires start <= |name|
    ensures start <= end <= |name| && (end < |name| ==> name[end] == '/')
    ensures forall k | start <= k < end :: name[k] != '/'
  {
    end := start;
    while end < |name| && name[end] != '/'
      invariant start <= end <= |name|
      invariant forall k | start <= k < end :: name[k] != '/'
    {
      end := end + 1;
    }
  }

  /** Where the part of the name below the directory begins. */
  method BelowStart(name: string, dir: string) returns (start: Option<nat>)
    ensures start.Some? <==> Under(Strip(name), dir)
    ensures start.Some? ==> start.value <= |name| && Rest(Strip(name), dir) == name[start.value..]
  {
    var from := if |name| > 0 && name[0] == '/' then 1 else 0;
    assert Strip(name) == name[from..];
    if |dir| == 0 {
      return Some(from);
    }
    var below := MatchesDir(name, from, dir);
    if !below {
      return None;
    }
    start := Some(from + |dir| + 1);
  }

  lemma NoChild(name: string, dir: string)
    requires Under(Strip(name), dir) ==> Rest(Strip(name), dir) == ""
    ensures ChildOf(name, dir) == None
  {
  }

  lemma RestStart(name: string, dir: string, start: nat)
    requires ValidName(name) && Under(Strip(name), dir)
    requires start < |name| && Rest(Strip(name), dir) == name[start..]
    ensures name[start] != '/' && ChildOf(name, dir).Some?
  {
    RestOf(Strip(name), dir);
    ValidHead(name[start..]);
  }

  /** The child of a directory, as offsets into the stored name. Stored names have no empty
      segment. */
  method FindChild(name: string, dir: string) returns (found: bool, start: nat, length: nat, leaf: bool)
    requires ValidName(name)
    ensures found <==> ChildOf(name, dir).Some?
    ensures found ==> start + length <= |name|
    ensures found ==> ChildOf(name, dir) == Some(Child(name[start..start + length], leaf))
  {
    hide *;
    found, start, length, leaf := false, 0, 0, false;
    var below := BelowStart(name, dir);
    if below == None || below.value >= |name| {
      NoChild(name, dir);
      return;
    }
    start := below.value;
    RestStart(name, dir, start);
    var end := NextSlash(name, start);
    found, length, leaf := true, end - start, end == |name|;
    ChildCut(name, dir, start, length);
  }

  // ---- The filesystem -----------------------------------------------------------------------

  /** A copied file's bytes lie in its own extent; a referenced file owns no extent. */
  ghost predicate SlotOk(s: Slot, used: nat) {
    s.File? ==>
      && ValidName(s.name)
      && (s.external.None? ==> s.length <= s.capacity <= DATA_MAX && s.offset + s.capacity <= used)
      && (s.external.Some? ==> s.capacity == 0 && s.length == |s.external.value|)
  }

  /** Two files share neither a name nor a byte of the arena. */
  ghost predicate Apart(s: Slot, t: Slot) {
    s.File? && t.File? ==>
      s.name != t.name
      && (s.capacity == 0 || t.capacity == 0 || s.offset + s.capacity <= t.offset || t.offset + t.capacity <= s.offset)
  }

  ghost predicate TableOk(table: Table, used: nat) {
    && |table| == FILES && used <= STORAGE_MAX
    && (forall i | 0 <= i < |table| :: SlotOk(table[i], used))
    && (forall i, j | 0 <= i < |table| && 0 <= j < |table| && i != j :: Apart(table[i], table[j]))
  }

  lemma TableOkValid(table: Table, used: nat)
    requires TableOk(table, used)
    ensures ValidTable(table)
  {
    forall i | 0 <= i < |table| && table[i].File? ensures ValidName(table[i].name) {
      assert SlotOk(table[i], used);
    }
  }

  lemma TableOkUpdate(table: Table, used: nat, id: nat, s: Slot, used': nat)
    requires TableOk(table, used) && id < |table| && used <= used' <= STORAGE_MAX && SlotOk(s, used')
    requires forall j | 0 <= j < |table| && j != id :: Apart(s, table[j])
    ensures TableOk(table[id := s], used')
  {
    hide ValidName;
    var t := table[id := s];
    forall i | 0 <= i < |t| ensures SlotOk(t[i], used') {
      assert SlotOk(table[i], used);
    }
    forall i, j | 0 <= i < |t| && 0 <= j < |t| && i != j ensures Apart(t[i], t[j]) {
      assert Apart(table[i], table[j]);
    }
  }

  /** The bytes of a file, wherever they are kept. */
  ghost function Content(s: Slot, storage: seq<Byte>): seq<Byte>
    requires s.File?
  {
    if s.external.Some? then s.external.value
    else if s.offset + s.length <= |storage| then storage[s.offset..s.offset + s.length] else []
  }

  lemma ContentIs(s: Slot, storage: seq<Byte>, data: seq<Byte>)
    requires s.File? && s.external.None? && s.length == |data| && s.offset + s.length <= |storage|
    requires storage[s.offset..s.offset + |data|] == data
    ensures Content(s, storage) == data
  {
  }

  lemma TableSize(table: Table, used: nat)
    requires TableOk(table, used)
    ensures |table| == FILES && used <= STORAGE_MAX
  {
  }

  /** Writing inside one file's extent leaves another file's bytes alone. */
  lemma OtherKept(s: Slot, t: Slot, used: nat, before: seq<Byte>, after: seq<Byte>)
    requires s.File? && t.File? && SlotOk(s, used) && Apart(t, s) && t.length <= t.capacity
    requires |before| == |after| && used <= |before|
    requires forall k | 0 <= k < |before| && !(t.offset <= k < t.offset + t.length) :: after[k] == before[k]
    ensures Content(s, after) == Content(s, before)
  {
  }

  predicate Known(table: Table, name: string) {
    exists i | 0 <= i < |table| :: table[i].File? && table[i].name == name
  }

  predicate HasFree(table: Table) { exists i | 0 <= i < |table| :: table[i] == Free }

  /** The file of that name holds nothing yet. */
  predicate Blank(table: Table, name: string) {
    exists i | 0 <= i < |table| :: table[i].File? && table[i].name == name
                                   && table[i].length == 0 && table[i].capacity == 0 && table[i].external == None
  }

  class RamDisk {
    var table: Table
    const storage: array<Byte>
    var used: nat

    ghost predicate Valid()
      reads this
    {
      storage.Length == STORAGE_MAX && TableOk(table, used)
    }

    ghost predicate Exists(id: nat)
      requires Valid()
      reads this
    {
      id < FILES && table[id].File?
    }

    ghost function Bytes(id: nat): seq<Byte>
      requires Valid() && Exists(id)
      reads this, storage
    {
      Content(table[id], storage[..])
    }

    constructor ()
      ensures Valid() && fresh(storage) && used == 0
      ensures forall i | 0 <= i < FILES :: table[i] == Free
    {
      table := seq(FILES, _ => Free);
      storage := new Byte[STORAGE_MAX](_ => 0);
      used := 0;
    }

    method Find(name: string) returns (id: Option<nat>)
      requires Valid()
      ensures id.Some? ==> Exists(id.value) && table[id.value].name == name
      ensures id.None? ==> name == "" || |name| > NAME_MAX
                           || forall i | 0 <= i < FILES && table[i].File? :: table[i].name != name
    {
      if |name| == 0 || |name| > NAME_MAX {
        return None;
      }
      for i := 0 to FILES
        invariant forall k | 0 <= k < i && table[k].File? :: table[k].name != name
      {
        if table[i].File? && table[i].name == name {
          return Some(i);
        }
      }
      id := None;
    }

    /** Opens by exact name, or claims the first free slot. */
    method Open(name: string, create: bool) returns (id: Option<nat>)
      requires Valid()
      modifies this`table
      ensures Valid()
      ensures id.Some? <==> ValidName(name) && (Known(old(table), name) || (create && HasFree(old(table))))
      ensures id.Some? ==> Exists(id.value) && table[id.value].name == name
      ensures id == None || Known(old(table), name) ==> table == old(table)
      ensures id.Some? && !Known(old(table), name) ==>
                && old(table[id.value]) == Free && (forall k | 0 <= k < id.value :: old(table[k]).File?)
                && table == old(table)[id.value := File(name, 0, 0, 0, None)]
    {
      var valid := CheckName(name);
      if !valid {
        return None;
      }
      id := Find(name);
      if id.Some? || !create {
        return;
      }
      for i := 0 to FILES
        invariant Valid() && table == old(table)
        invariant forall k | 0 <= k < i :: table[k].File?
      {
        if table[i] == Free {
          assert forall j | 0 <= j < |table| && j != i :: Apart(File(name, 0, 0, 0, None), table[j]);
          TableOkUpdate(table, used, i, File(name, 0, 0, 0, None), used);
          table := table[i := File(name, 0, 0, 0, None)];
          return Some(i);
        }
      }
      id := None;
    }

    method Delete(name: string) returns (ok: bool)
      requires Valid()
      modifies this`table
      ensures Valid() && used == old(used)
      ensures ok <==> ValidName(name) && exists i | 0 <= i < FILES :: old(table[i]).File? && old(table[i]).name == name
      ensures ok ==> exists i | 0 <= i < FILES ::
                old(table[i]).File? && old(table[i]).name == name && table == old(table)[i := Free]
      ensures !ok ==> table == old(table)
    {
      var valid := CheckName(name);
      if !valid {
        return false;
      }
      var id := Find(name);
      if id == None {
        return false;
      }
      TableOkUpdate(table, used, id.value, Free, used);
      table := table[id.value := Free];
      ok := true;
    }

    /** Keeps the bytes and changes only what name resolves to them. */
    method Rename(from: string, to: string) returns (ok: bool)
      requires Valid()
      modifies this`table
      ensures Valid() && used == old(used)
      ensures ok <==>
                && ValidName(from) && ValidName(to)
                && (exists i | 0 <= i < FILES :: old(table[i]).File? && old(table[i]).name == from)
                && (forall i | 0 <= i < FILES && old(table[i]).File? :: old(table[i]).name != to)
      ensures ok ==> exists i | 0 <= i < FILES ::
                old(table[i]).File? && old(table[i]).name == from
                && table == old(table)[i := old(table[i]).(name := to)]
      ensures !ok ==> table == old(table)
    {
      var valid := CheckName(from);
      if !valid {
        return false;
      }
      valid := CheckName(to);
      if !valid {
        return false;
      }
      var taken := Find(to);
      if taken.Some? {
        return false;
      }
      var id := Find(from);
      if id == None {
        return false;
      }
      var s := table[id.value];
      assert SlotOk(s, used);
      assert forall j | 0 <= j < |table| && j != id.value :: Apart(table[id.value], table[j]);
      hide ValidName;
      assert forall j | 0 <= j < |table| && j != id.value :: Apart(s.(name := to), table[j]);
      TableOkUpdate(table, used, id.value, s.(name := to), used);
      table := table[id.value := s.(name := to)];
      ok := true;
    }

    /** Registers bytes that live elsewhere under a fresh or still empty file. */
    method SeedReference(name: string, data: seq<Byte>) returns (ok: bool)
      requires Valid()
      modifies this`table
      ensures Valid() && used == old(used)
      ensures ok <==> ValidName(name)
                      && if Known(old(table), name) then Blank(old(table), name) else HasFree(old(table))
      ensures !ok ==> table == old(table)
      ensures ok ==> exists id | 0 <= id < FILES ::
                Exists(id) && table[id].name == name && Bytes(id) == data
                && forall i | 0 <= i < FILES && i != id :: table[i] == old(table[i])
      ensures forall i | 0 <= i < FILES && old(table[i]).File? :: table[i].File? && table[i].name == old(table[i]).name
      ensures forall i | 0 <= i < FILES && old(table[i]).File? && old(table[i]).length > 0 :: table[i] == old(table[i])
    {
      hide Apart, ValidName;
      var id := Open(name, true);
      if id == None {
        return false;
      }
      var s := table[id.value];
      if s.length != 0 || s.capacity != 0 || s.external.Some? {
        OneFile(table, used, id.value);
        return false;
      }
      var t := s.(external := Some(data), length := |data|);
      ReferenceOk(table, used, id.value, t);
      table := table[id.value := t];
      assert Bytes(id.value) == data;
      ok := true;
    }

    /** Overwrites in place when the data fits the file's extent, otherwise takes a new extent from
        the end of the arena. No other file's bytes change. */
    method Write(id: nat, data: seq<Byte>) returns (ok: bool)
      requires Valid()
      modifies this`table, this`used, storage
      ensures Valid()
      ensures ok <==> old(Exists(id)) && old(table[id]).external == None && |data| <= DATA_MAX
                      && (|data| <= old(table[id]).capacity || |data| <= STORAGE_MAX - old(used))
      ensures !ok ==> table == old(table) && used == old(used) && storage[..] == old(storage[..])
      ensures forall i | 0 <= i < FILES :: table[i].File? == old(table[i]).File?
      ensures forall i | 0 <= i < FILES && table[i].File? :: table[i].name == old(table[i]).name
      ensures ok ==> Bytes(id) == data
      ensures ok && |data| <= old(table[id]).capacity ==>
                used == old(used) && table[id] == old(table[id]).(length := |data|)
      ensures ok && |data| > old(table[id]).capacity ==>
                used == old(used) + |data| && table[id] == old(table[id]).(offset := old(used), capacity := |data|, length := |data|)
      ensures forall i | 0 <= i < FILES && i != id :: table[i] == old(table[i])
      ensures forall i | 0 <= i < FILES && i != id && Exists(i) :: Bytes(i) == old(Bytes(i))
    {
      hide TableOk, SlotOk, Apart, ValidName, Content;
      TableSize(table, used);
      if id >= FILES || table[id].Free? || table[id].external.Some? || |data| > DATA_MAX {
        return false;
      }
      var s := table[id];
      if |data| > s.capacity && |data| > STORAGE_MAX - used {
        return false;
      }
      var t, end := s.(length := |data|), used;
      if |data| > s.capacity {
        t := s.(offset := used, capacity := |data|, length := |data|);
        end := used + |data|;
      }
      Relocated(table, used, id, t, end);
      ghost var was, before := table, storage[..];
      CopyIn(t.offset, data);
      table, used := table[id := t], end;
      forall i | 0 <= i < FILES && i != id && table[i].File? ensures Bytes(i) == Content(was[i], before) {
        OtherKept(was[i], t, end, before, storage[..]);
      }
      ContentIs(t, storage[..], data);
      ok := true;
    }

    method CopyIn(offset: nat, data: seq<Byte>)
      requires storage.Length == STORAGE_MAX && offset + |data| <= STORAGE_MAX
      modifies storage
      ensures storage[offset..offset + |data|] == data
      ensures forall k | 0 <= k < STORAGE_MAX && !(offset <= k < offset + |data|) :: storage[k] == old(storage[k])
    {
      for i := 0 to |data|
        invariant forall k | 0 <= k < i :: storage[offset + k] == data[k]
        invariant forall k | 0 <= k < STORAGE_MAX && !(offset <= k < offset + i) :: storage[k] == old(storage[k])
      {
        storage[offset + i] := data[i];
      }
    }
  }

  lemma OneFile(table: Table, used: nat, id: nat)
    requires TableOk(table, used) && id < FILES && table[id].File?
    ensures forall j | 0 <= j < FILES && table[j].File? && table[j].name == table[id].name :: j == id
  {
    forall j | 0 <= j < FILES && table[j].File? && table[j].name == table[id].name ensures j == id {
      assert j != id ==> Apart(table[id], table[j]);
    }
  }

  lemma ReferenceOk(table: Table, used: nat, id: nat, t: Slot)
    requires TableOk(table, used) && id < FILES && table[id].File? && table[id].capacity == 0
    requires t.File? && t.name == table[id].name && t.capacity == 0
    requires t.external.Some? && t.length == |t.external.value|
    ensures TableOk(table[id := t], used)
  {
    assert SlotOk(table[id], used);
    hide ValidName;
    forall j | 0 <= j < FILES && j != id ensures Apart(t, table[j]) {
      assert Apart(table[id], table[j]);
    }
    TableOkUpdate(table, used, id, t, used);
  }

  /** The slot after a write is apart from every other one, in its old extent or in a new one. */
  lemma Relocated(table: Table, used: nat, id: nat, t: Slot, end: nat)
    requires TableOk(table, used) && id < FILES && table[id].File? && table[id].external == None
    requires t.File? && t.name == table[id].name && t.external == None && t.length <= DATA_MAX
    requires end <= STORAGE_MAX
    requires || (end == used && t.offset == table[id].offset && t.capacity == table[id].capacity
                 && t.length <= t.capacity)
             || (end == used + t.capacity && t.offset == used && t.length == t.capacity)
    ensures t.offset + t.length <= STORAGE_MAX && t.length <= t.capacity
    ensures TableOk(table[id := t], end)
    ensures forall j | 0 <= j < FILES && j != id :: Apart(t, table[j]) && SlotOk(table[j], end)
  {
    assert SlotOk(table[id], used);
    hide ValidName;
    forall j | 0 <= j < FILES && j != id ensures Apart(t, table[j]) {
      assert Apart(table[id], table[j]) && SlotOk(table[j], used);
    }
    TableOkUpdate(table, used, id, t, end);
  }

  // ---- Listing and walking ------------------------------------------------------------------

  datatype Entry = Entry(name: string, length: nat, directory: bool)

  /** What a listing says about the file in slot `i`. */
  function EntryOf(table: Table, dir: string, i: nat): Entry
    requires i < |table| && Reported(table, dir, i)
  {
    Entry(Segment(table, dir, i), if IsLeaf(table, dir, i) then table[i].length else 0, !IsLeaf(table, dir, i))
  }

  /** Entry number `index` of a directory. */
  function ListAt(table: Table, dir: string, index: nat): Option<Entry> {
    var ids := Entries(table, dir, |table|);
    if index < |ids| then Some(EntryOf(table, dir, ids[index])) else None
  }

  ghost predicate Lists(table: Table, dir: string, e: Entry) { exists k: nat :: ListAt(table, dir, k) == Some(e) }

  lemma {:induction false} ReportedAt(table: Table, dir: string, n: nat, i: nat) returns (k: nat)
    requires i < n <= |table| && Reported(table, dir, i)
    ensures k < |Entries(table, dir, n)| && Entries(table, dir, n)[k] == i
  {
    hide Reported;
    if i == n - 1 { k := |Entries(table, dir, n - 1)|; } else { k := ReportedAt(table, dir, n - 1, i); }
  }

  lemma ListsReported(table: Table, dir: string, e: Entry)
    ensures Lists(table, dir, e)
            <==> exists i | 0 <= i < |table| && Reported(table, dir, i) :: EntryOf(table, dir, i) == e
  {
    hide Reported, EntryOf, Entries;
    if i :| 0 <= i < |table| && Reported(table, dir, i) && EntryOf(table, dir, i) == e {
      var k := ReportedAt(table, dir, |table|, i);
      assert ListAt(table, dir, k) == Some(e);
    }
  }

  /** Where a child entry leads, read off the stored name. */
  lemma ChildIs(name: string, dir: string, segment: string)
    requires ValidPath(Strip(name)) && segment != "" && NoSlash(segment)
    ensures ChildOf(name, dir) == Some(Child(segment, true)) <==> Strip(name) == Join(dir, segment)
    ensures ChildOf(name, dir) == Some(Child(segment, false)) <==> Under(Strip(name), Join(dir, segment))
  {
    PrefixIsChild(name, dir, segment);
    if ChildOf(name, dir).Some? { ChildIsPrefix(name, dir); }
    hide ChildOf, Strip, Join, Under, ValidPath, NoSlash;
  }

  lemma ChildrenAre(table: Table, dir: string, segment: string)
    requires ValidTable(table) && segment != "" && NoSlash(segment)
    ensures forall i | 0 <= i < |table| && table[i].File? ::
              && (ChildOf(table[i].name, dir) == Some(Child(segment, true)) <==> Strip(table[i].name) == Join(dir, segment))
              && (ChildOf(table[i].name, dir) == Some(Child(segment, false)) <==> Under(Strip(table[i].name), Join(dir, segment)))
  {
    forall i | 0 <= i < |table| && table[i].File?
      ensures ChildOf(table[i].name, dir) == Some(Child(segment, true)) <==> Strip(table[i].name) == Join(dir, segment)
      ensures ChildOf(table[i].name, dir) == Some(Child(segment, false)) <==> Under(Strip(table[i].name), Join(dir, segment))
    {
      assert ValidName(table[i].name);
      ChildIs(table[i].name, dir, segment);
    }
  }

  /** A file is listed, with its length, exactly when some slot holds that path. */
  lemma FileListed(table: Table, dir: string, segment: string, length: nat)
    requires ValidTable(table) && segment != "" && NoSlash(segment)
    ensures Lists(table, dir, Entry(segment, length, false))
            <==> exists i | 0 <= i < |table| :: table[i].File? && Strip(table[i].name) == Join(dir, segment)
                                              && table[i].length == length
  {
    ListsReported(table, dir, Entry(segment, length, false));
    ChildrenAre(table, dir, segment);
    hide ChildOf, Strip, Join, Under, Lists, ValidTable;
    if i :| 0 <= i < |table| && table[i].File? && Strip(table[i].name) == Join(dir, segment) && table[i].length == length {
      assert Reported(table, dir, i) && EntryOf(table, dir, i) == Entry(segment, length, false);
    }
  }

  /** The file in slot `i` lies below the path, and no earlier slot holds a file below it or of that
      very path. */
  ghost predicate FirstBelow(table: Table, path: string, i: nat)
    requires i < |table|
  {
    table[i].File? && Under(Strip(table[i].name), path)
    && forall e | 0 <= e < i && table[e].File? :: !Under(Strip(table[e].name), path) && Strip(table[e].name) != path
  }

  lemma ReportedBelow(table: Table, dir: string, segment: string, i: nat)
    requires ValidTable(table) && segment != "" && NoSlash(segment) && i < |table|
    ensures FirstBelow(table, Join(dir, segment), i)
            <==> Reported(table, dir, i) && !IsLeaf(table, dir, i) && Segment(table, dir, i) == segment
  {
    ChildrenAre(table, dir, segment);
    hide ChildOf, Strip, Join, Under, ValidTable;
    var path := Join(dir, segment);
    forall e | 0 <= e < |table| && table[e].File?
      ensures Through(table, dir, e, segment) <==> Under(Strip(table[e].name), path) || Strip(table[e].name) == path
    {
      if Through(table, dir, e, segment) {
        var c := ChildOf(table[e].name, dir).value;
        assert c == Child(segment, true) || c == Child(segment, false);
      }
    }
  }

  /** A subdirectory is listed exactly when some file lies below it and no earlier slot masks it. */
  lemma DirectoryListed(table: Table, dir: string, segment: string)
    requires ValidTable(table) && segment != "" && NoSlash(segment)
    ensures Lists(table, dir, Entry(segment, 0, true))
            <==> exists i | 0 <= i < |table| :: FirstBelow(table, Join(dir, segment), i)
  {
    ListsReported(table, dir, Entry(segment, 0, true));
    forall i | 0 <= i < |table|
      ensures FirstBelow(table, Join(dir, segment), i)
              <==> Reported(table, dir, i) && EntryOf(table, dir, i) == Entry(segment, 0, true)
    {
      ReportedBelow(table, dir, segment, i);
      hide FirstBelow, Reported, IsLeaf, Join, ChildOf, Segment;
    }
    hide FirstBelow, Reported, Join, Lists, EntryOf;
  }

  /** Nothing is listed twice: entries come in slot order. */
  lemma {:induction false} ListedInOrder(table: Table, dir: string, n: nat, j: nat, k: nat)
    requires n <= |table| && j < k < |Entries(table, dir, n)|
    ensures Entries(table, dir, n)[j] < Entries(table, dir, n)[k] < n
  {
    if k < |Entries(table, dir, n - 1)| { ListedInOrder(table, dir, n - 1, j, k); }
    hide Reported;
  }

  method FirstOccurrence(table: Table, dir: string, id: nat, segment: string) returns (first: bool)
    requires ValidTable(table) && id < |table|
    ensures first <==> forall e | 0 <= e < id :: !Through(table, dir, e, segment)
  {
    hide ChildOf, Strip, ValidName;
    for e := 0 to id
      invariant forall k | 0 <= k < e :: !Through(table, dir, k, segment)
    {
      if table[e].File? {
        var found, start, length, leaf := FindChild(table[e].name, dir);
        if found && table[e].name[start..start + length] == segment {
          assert Through(table, dir, e, segment);
          return false;
        }
      }
    }
    first := true;
  }

  /** Entry number `index` of the directory, in slot order. */
  method List(table: Table, prefix: string, index: nat) returns (r: Option<Entry>)
    requires ValidTable(table)
    ensures r == ListAt(table, Strip(prefix), index)
  {
    hide *;
    var dir := Strip(prefix);
    var current := 0;
    NoEntries(table, dir);
    for id := 0 to |table|
      invariant current == EntriesBelow(table, dir, id) && current <= index
    {
      NextReported(table, dir, id);
      r := EntryAt(table, dir, id);
      if r == None {
        continue;
      }
      if current == index {
        return;
      }
      current := current + 1;
    }
    ListedAll(table, dir, index);
    r := None;
  }

  /** What slot `id` contributes to the listing of `dir`, if anything. */
  method EntryAt(table: Table, dir: string, id: nat) returns (r: Option<Entry>)
    requires ValidTable(table) && id < |table|
    ensures r == if Reported(table, dir, id) then Some(EntryOf(table, dir, id)) else None
  {
    if table[id].Free? {
      return None;
    }
    var found, start, length, leaf := FindChild(table[id].name, dir);
    hide ChildOf;
    if !found {
      return None;
    }
    var segment := table[id].name[start..start + length];
    if !leaf {
      var first := FirstOccurrence(table, dir, id, segment);
      if !first {
        return None;
      }
    }
    r := Some(Entry(segment, if leaf then table[id].length else 0, !leaf));
  }

  /** How many entries the first `n` slots give. */
  ghost function EntriesBelow(table: Table, dir: string, n: nat): nat
    requires n <= |table|
  {
    |Entries(table, dir, n)|
  }

  lemma NoEntries(table: Table, dir: string)
    ensures EntriesBelow(table, dir, 0) == 0
  {
  }

  lemma ListedAll(table: Table, dir: string, index: nat)
    requires EntriesBelow(table, dir, |table|) <= index
    ensures ListAt(table, dir, index) == None
  {
  }

  /** A reported slot is the next entry of the whole listing. */
  lemma NextReported(table: Table, dir: string, id: nat)
    requires id < |table|
    ensures EntriesBelow(table, dir, id + 1) == EntriesBelow(table, dir, id) + if Reported(table, dir, id) then 1 else 0
    ensures Reported(table, dir, id) ==>
              ListAt(table, dir, EntriesBelow(table, dir, id)) == Some(EntryOf(table, dir, id))
  {
    hide Reported;
    EntriesGrow(table, dir, id + 1, |table|);
    if Reported(table, dir, id) {
      var all, part := Entries(table, dir, |table|), Entries(table, dir, id + 1);
      assert part[|part| - 1] == id && all[|part| - 1] == part[|part| - 1];
    }
  }

  /** A listing cut off earlier is a prefix of a longer one. */
  lemma {:induction false} EntriesGrow(table: Table, dir: string, m: nat, n: nat)
    requires m <= n <= |table|
    ensures Entries(table, dir, m) <= Entries(table, dir, n)
  {
    hide Reported;
    if m < n {
      EntriesGrow(table, dir, m, n - 1);
    }
  }

  method CountBytes(table: Table) returns (total: nat)
    ensures total == BytesUsed(table)
  {
    total := 0;
    ghost var lengths := Lengths(table);
    for id := 0 to |table|
      invariant total == Sum(lengths[..id])
    {
      assert lengths[..id + 1][..id] == lengths[..id];
      if table[id].File? {
        total := total + table[id].length;
      }
    }
    assert lengths[..|table|] == lengths;
  }

  function Depth(path: string): nat {
    if |Strip(path)| <= NAME_MAX then NAME_MAX + 1 - |Strip(path)| else 0
  }

  /** The path `du` descends to. */
  function ChildPath(path: string, segment: string): string {
    if path == "" then segment
    else if path[|path| - 1] == '/' then path + segment else path + "/" + segment
  }

  /** It names the directory the listing understands. */
  lemma ChildPathIs(path: string, segment: string)
    requires segment != "" && segment[0] != '/' && (path == "/" || path == "" || path[|path| - 1] != '/')
    ensures Strip(ChildPath(path, segment)) == Join(Strip(path), segment)
    ensures |ChildPath(path, segment)| <= |Join(Strip(path), segment)| + 1
  {
  }

  /** A directory with an entry is not spelled with a trailing slash, and its entries fit. */
  lemma EntryFits(table: Table, path: string, i: nat)
    requires ValidTable(table) && i < |table| && Reported(table, Strip(path), i)
    ensures var child := ChildPath(path, Segment(table, Strip(path), i));
            && Strip(child) == Join(Strip(path), Segment(table, Strip(path), i))
            && |path| <= NAME_MAX + 1 && |child| <= NAME_MAX + 2
            && (!IsLeaf(table, Strip(path), i) ==> Depth(child) < Depth(path))
  {
    var name := table[i].name;
    var dir := Strip(path);
    ChildIsPrefix(name, dir);
    assert |Strip(name)| <= NAME_MAX;
    if dir != "" && dir[|dir| - 1] == '/' {
      NothingBelowSlash(name, dir);
    }
    assert path == "/" || path == "" || path[|path| - 1] != '/';
    var segment := Segment(table, dir, i);
    assert IsLeaf(table, dir, i) == ChildOf(name, dir).value.leaf && segment[0] != '/';
    assert |path| <= |dir| + 1;
    ChildPathIs(path, segment);
    hide ChildOf, Under, ValidPath, Reported, Join, ChildPath, Strip;
  }

  lemma EntryValue(table: Table, dir: string, i: nat)
    requires ValidTable(table) && i < |table| && Reported(table, dir, i)
    ensures var e := EntryOf(table, dir, i);
            && e.name == Segment(table, dir, i) && e.directory == !IsLeaf(table, dir, i)
            && Value(table, dir, i) == if e.directory then Total(table, Join(dir, e.name)) else e.length
  {
    hide Total, Reported;
  }

  /** What one listed entry adds: a file's length, or a walk of the subdirectory. The buffer for
      the child's path never fills, so nothing is cut off. */
  method EntryTotal(table: Table, path: string, entry: Entry, ghost i: nat) returns (value: nat)
    requires ValidTable(table) && i < |table| && Reported(table, Strip(path), i)
    requires entry == EntryOf(table, Strip(path), i)
    ensures value == Value(table, Strip(path), i)
    decreases Depth(path), 0
  {
    EntryFits(table, path, i);
    EntryValue(table, Strip(path), i);
    hide *;
    assert |path| + 2 < CHILD_BUFFER;
    var child := ChildPath(path, entry.name);
    assert |child| < CHILD_BUFFER;
    if entry.directory {
      value := DuWalk(table, child);
    } else {
      value := entry.length;
    }
  }

  /** What the first `k` entries of a listing add up to. */
  ghost function FirstTotals(table: Table, dir: string, k: nat): nat
    requires ValidTable(table) && k <= EntryCount(table, dir)
  {
    Values(table, dir, Entries(table, dir, |table|)[..k])
  }

  ghost function EntryCount(table: Table, dir: string): nat { |Entries(table, dir, |table|)| }

  lemma FirstTotalsEnds(table: Table, dir: string)
    requires ValidTable(table)
    ensures FirstTotals(table, dir, 0) == 0
    ensures FirstTotals(table, dir, EntryCount(table, dir)) == Total(table, dir)
  {
    var ids := Entries(table, dir, |table|);
    assert ids[..0] == [] && ids[..|ids|] == ids;
    hide Value, Reported, Total;
    EntriesTotal(table, dir);
  }

  lemma FirstTotalsStep(table: Table, dir: string, k: nat) returns (i: nat)
    requires ValidTable(table) && k < EntryCount(table, dir)
    ensures i < |table| && Reported(table, dir, i) && ListAt(table, dir, k) == Some(EntryOf(table, dir, i))
    ensures FirstTotals(table, dir, k + 1) == FirstTotals(table, dir, k) + Value(table, dir, i)
  {
    var ids := Entries(table, dir, |table|);
    i := ids[k];
    hide Value, Reported, Values;
    assert ids[..k + 1] == ids[..k] + [i];
    ValuesGrow(table, dir, ids[..k], i);
  }

  lemma ListEnds(table: Table, dir: string, k: nat)
    ensures ListAt(table, dir, k).Some? <==> k < EntryCount(table, dir)
  {
  }

  /** Adds up every file below the path, one listing call at a time. */
  method DuWalk(table: Table, path: string) returns (total: nat)
    requires ValidTable(table)
    ensures total == Total(table, Strip(path))
    decreases Depth(path), 1
  {
    hide *;
    ghost var dir := Strip(path);
    FirstTotalsEnds(table, dir);
    ghost var count := EntryCount(table, dir);
    total := 0;
    var index := 0;
    while true
      invariant 0 <= index <= count
      invariant total == FirstTotals(table, dir, index)
      decreases count - index
    {
      ListEnds(table, dir, index);
      var entry := List(table, path, index);
      if entry == None {
        break;
      }
      ghost var i := FirstTotalsStep(table, dir, index);
      var value := EntryTotal(table, path, entry.value, i);
      index := index + 1;
      total := total + value;
    }
  }

  /** The grand total of a walk from the root, with the exact condition for it to be the number of
      bytes stored. */
  method DuRoot(disk: RamDisk) returns (walked: nat, stored: nat)
    requires disk.Valid()
    ensures ValidTable(disk.table)
    ensures walked <= stored
    ensures walked == stored <==>
              forall i | 0 <= i < FILES && disk.table[i].File? && disk.table[i].length > 0 ::
                Unmasked(disk.table, Strip(disk.table[i].name), 0)
  {
    TableOkValid(disk.table, disk.used);
    var table := disk.table;
    walked := DuWalk(table, "");
    stored := CountBytes(table);
    WalkMisses(table);
    forall i | 0 <= i < FILES && table[i].File?
      ensures Reached(table, "", i) <==> Unmasked(table, Strip(table[i].name), 0)
    {
      ReachedUnlessMasked(table, "", i);
    }
    hide Reached, Unmasked;
  }
}
