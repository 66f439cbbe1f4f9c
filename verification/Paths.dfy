/** The flat RAMFS name table seen as a tree: which entries a listing reports, and what a
    recursive walk adds up. */
module Paths {
  import opened Bytes
  import opened Options

  const FILES: nat := 56
  const NAME_MAX: nat := 63

  datatype Slot = Free | File(name: string, offset: nat, capacity: nat, length: nat,
                              external: Option<seq<Byte>>)

  type Table = seq<Slot>

  // ---- Names --------------------------------------------------------------------------------

  predicate Allowed(c: char) {
    'a' <= c <= 'z' || 'A' <= c <= 'Z' || '0' <= c <= '9' || c == '.' || c == '_' || c == '-'
  }

  predicate ValidSegment(s: string) {
    s != "" && s != "." && s != ".." && forall i | 0 <= i < |s| :: Allowed(s[i])
  }

  /** Where the first segment ends. */
  function SegmentEnd(s: string): (e: nat)
    ensures e <= |s| && (e < |s| ==> s[e] == '/')
    ensures forall i | 0 <= i < e :: s[i] != '/'
  {
    if s == "" || s[0] == '/' then 0 else 1 + SegmentEnd(s[1..])
  }

  predicate ValidPath(s: string) {
    var e := SegmentEnd(s);
    ValidSegment(s[..e]) && (e < |s| ==> ValidPath(s[e + 1..]))
  }

  function Strip(name: string): string {
    if |name| > 0 && name[0] == '/' then name[1..] else name
  }

  predicate ValidName(name: string) { 0 < |name| <= NAME_MAX && ValidPath(Strip(name)) }

  /** The characters from `i` up to `j` are a whole segment: slashes or the ends around it, none inside. */
  ghost predicate IsPart(t: string, i: nat, j: nat) {
    && i <= j <= |t| && (i > 0 ==> t[i - 1] == '/') && (j < |t| ==> t[j] == '/')
    && forall k | i <= k < j :: t[k] != '/'
  }

  /** A segment of letters, digits, dots, dashes and underscores, and not just one or two dots. */
  ghost predicate GoodPart(t: string, i: nat, j: nat)
    requires i <= j <= |t|
  {
    && i < j && t[i..j] != ['.'] && t[i..j] != ['.', '.']
    && forall k | i <= k < j :: var c := t[k] as int;
         48 <= c <= 57 || 65 <= c <= 90 || 97 <= c <= 122 || c == 45 || c == 46 || c == 95
  }

  /** A name is valid exactly when it has 1 to 63 characters and, after one leading slash if it has
      one, every segment is good. */
  lemma NameLaw(name: string)
    ensures ValidName(name)
            <==> 0 < |name| <= 63 && var t := if name[0] == '/' then name[1..] else name;
                                     forall i: nat, j: nat | IsPart(t, i, j) :: GoodPart(t, i, j)
  {
    PathLaw(Strip(name));
    hide ValidPath, IsPart, GoodPart;
  }

  lemma {:induction false} PathLaw(s: string)
    ensures ValidPath(s) <==> forall i: nat, j: nat | IsPart(s, i, j) :: GoodPart(s, i, j)
    decreases |s|
  {
    var e := SegmentEnd(s);
    assert s[0..e] == s[..e] && IsPart(s, 0, e);
    assert ValidSegment(s[..e]) <==> GoodPart(s, 0, e) by { SegmentLaw(s, e); }
    if e < |s| {
      var t := s[e + 1..];
      PathLaw(t);
      hide GoodPart, ValidSegment;
      forall i: nat, j: nat | IsPart(t, i, j)
        ensures IsPart(s, e + 1 + i, e + 1 + j)
        ensures GoodPart(t, i, j) <==> GoodPart(s, e + 1 + i, e + 1 + j)
      {
        PartBehind(s, e, i, j);
      }
      forall i: nat, j: nat | IsPart(s, i, j)
        ensures (i == 0 && j == e) || (i > e && IsPart(t, i - e - 1, j - e - 1))
      {
        PartSplit(s, e, i, j);
      }
      PartsOfBoth(s, t, e);
    } else {
      hide GoodPart, ValidSegment;
      forall i: nat, j: nat | IsPart(s, i, j) ensures i == 0 && j == e { PartSplit(s, e, i, j); }
    }
  }

  lemma SegmentLaw(s: string, e: nat)
    requires e <= |s| && forall k | 0 <= k < e :: s[k] != '/'
    ensures ValidSegment(s[..e]) <==> GoodPart(s, 0, e)
  {
    assert s[0..e] == s[..e];
    assert forall k | 0 <= k < e :: s[..e][k] == s[k];
  }

  lemma PartBehind(s: string, e: nat, i: nat, j: nat)
    requires e < |s| && s[e] == '/' && IsPart(s[e + 1..], i, j)
    ensures IsPart(s, e + 1 + i, e + 1 + j)
    ensures GoodPart(s[e + 1..], i, j) <==> GoodPart(s, e + 1 + i, e + 1 + j)
  {
    var t := s[e + 1..];
    assert forall k | 0 <= k < |t| :: t[k] == s[e + 1 + k];
    assert t[i..j] == s[e + 1 + i..e + 1 + j];
    assert forall k | e + 1 + i <= k < e + 1 + j :: s[k] == t[k - e - 1];
  }

  lemma PartSplit(s: string, e: nat, i: nat, j: nat)
    requires IsPart(s, i, j) && e <= |s| && (e < |s| ==> s[e] == '/') && forall k | 0 <= k < e :: s[k] != '/'
    ensures (i == 0 && j == e) || (i > e && e < |s| && IsPart(s[e + 1..], i - e - 1, j - e - 1))
  {
    if i > 0 {
      var t := s[e + 1..];
      assert forall k | 0 <= k < |t| :: t[k] == s[e + 1 + k];
    }
  }

  lemma PartsOfBoth(s: string, t: string, e: nat)
    requires e < |s| && t == s[e + 1..] && IsPart(s, 0, e)
    requires forall i: nat, j: nat | IsPart(t, i, j) ::
               IsPart(s, e + 1 + i, e + 1 + j) && (GoodPart(t, i, j) <==> GoodPart(s, e + 1 + i, e + 1 + j))
    requires forall i: nat, j: nat | IsPart(s, i, j) ::
               (i == 0 && j == e) || (i > e && IsPart(t, i - e - 1, j - e - 1))
    ensures (forall i: nat, j: nat | IsPart(s, i, j) :: GoodPart(s, i, j))
            <==> GoodPart(s, 0, e) && forall i: nat, j: nat | IsPart(t, i, j) :: GoodPart(t, i, j)
  {
  }

  lemma {:induction false} ValidTail(s: string, i: nat)
    requires ValidPath(s) && i < |s| && s[i] == '/'
    ensures ValidPath(s[i + 1..])
    decreases |s|
  {
    var e := SegmentEnd(s);
    if i > e {
      ValidTail(s[e + 1..], i - e - 1);
      assert s[e + 1..][i - e..] == s[i + 1..];
    }
  }

  lemma ValidHead(s: string)
    requires ValidPath(s)
    ensures s != "" && s[0] != '/' && SegmentEnd(s) > 0
  {
    assert ValidSegment(s[..SegmentEnd(s)]);
  }

  // ---- Children -----------------------------------------------------------------------------

  datatype Child = Child(segment: string, leaf: bool)

  predicate Under(path: string, dir: string) {
    dir == "" || (|path| > |dir| && path[..|dir|] == dir && path[|dir|] == '/')
  }

  /** What is left of a path below the directory. */
  function Rest(path: string, dir: string): string
    requires Under(path, dir)
  {
    if dir == "" then path else path[|dir| + 1..]
  }

  /** The immediate child of `dir` that leads to the file, if the file is below `dir`. */
  function ChildOf(name: string, dir: string): Option<Child> {
    var path := Strip(name);
    if !Under(path, dir) || Rest(path, dir) == "" then None
    else
      var rest := Rest(path, dir);
      var e := SegmentEnd(rest);
      Some(Child(rest[..e], e == |rest|))
  }

  function Join(dir: string, segment: string): string {
    if dir == "" then segment else dir + "/" + segment
  }

  ghost predicate NoSlash(s: string) { forall i | 0 <= i < |s| :: s[i] != '/' }

  lemma SegmentEndIs(s: string, e: nat)
    requires e <= |s| && NoSlash(s[..e]) && (e < |s| ==> s[e] == '/')
    ensures SegmentEnd(s) == e
  {
    forall i | 0 <= i < e ensures s[i] != '/' {
      assert s[..e][i] == s[i];
    }
  }

  lemma RestOf(path: string, dir: string)
    requires ValidPath(path) && Under(path, dir)
    ensures path == Join(dir, Rest(path, dir)) && ValidPath(Rest(path, dir))
  {
    hide ValidPath;
    if dir != "" {
      ValidTail(path, |dir|);
      assert path == dir + "/" + Rest(path, dir);
    }
  }

  lemma JoinUnder(dir: string, segment: string, tail: string)
    requires segment != ""
    ensures Under(Join(dir, segment + "/" + tail), Join(dir, segment))
    ensures Rest(Join(dir, segment + "/" + tail), Join(dir, segment)) == tail
  {
    var joined := Join(dir, segment);
    assert Join(dir, segment + "/" + tail) == joined + "/" + tail;
  }

  lemma UnderLonger(path: string, dir: string)
    requires Under(path, dir) && dir != ""
    ensures |dir| < |path|
  {
  }

  /** How the child segment sits in the path. */
  lemma ChildParts(name: string, dir: string) returns (tail: string)
    requires ValidPath(Strip(name)) && ChildOf(name, dir).Some?
    ensures var c := ChildOf(name, dir).value;
            && c.segment != "" && NoSlash(c.segment)
            && Strip(name) == Join(dir, if c.leaf then c.segment else c.segment + "/" + tail)
  {
    var path := Strip(name);
    var rest := Rest(path, dir);
    RestOf(path, dir);
    ValidHead(rest);
    assert ChildOf(name, dir).value == Child(rest[..SegmentEnd(rest)], SegmentEnd(rest) == |rest|);
    hide ValidPath, Join, Under, ChildOf, Strip, Rest;
    tail := SplitSegment(rest);
  }

  lemma SplitSegment(rest: string) returns (tail: string)
    requires SegmentEnd(rest) > 0
    ensures var e := SegmentEnd(rest);
            && rest[..e] != "" && NoSlash(rest[..e])
            && rest == if e == |rest| then rest[..e] else rest[..e] + "/" + tail
  {
    var e := SegmentEnd(rest);
    tail := if e < |rest| then rest[e + 1..] else "";
  }

  lemma JoinLonger(dir: string, segment: string)
    requires segment != ""
    ensures |Join(dir, segment)| > |dir|
  {
  }

  /** A directory child is a proper prefix of the path, one segment longer than the directory. */
  lemma ChildIsPrefix(name: string, dir: string)
    requires ValidPath(Strip(name)) && ChildOf(name, dir).Some?
    ensures var c := ChildOf(name, dir).value; var path := Strip(name);
            && c.segment != "" && NoSlash(c.segment)
            && (c.leaf ==> path == Join(dir, c.segment))
            && (!c.leaf ==> Under(path, Join(dir, c.segment)) && |Join(dir, c.segment)| < |path|)
            && |dir| < |path| && |Join(dir, c.segment)| > |dir|
  {
    var tail := ChildParts(name, dir);
    hide ValidPath, ChildOf, Strip, NoSlash;
    var c := ChildOf(name, dir).value;
    JoinLonger(dir, c.segment);
    if !c.leaf {
      JoinUnder(dir, c.segment, tail);
      UnderLonger(Strip(name), Join(dir, c.segment));
    }
    hide Under, Join;
  }

  /** Conversely, being below a joined path means being a directory child by that segment. */
  lemma PrefixIsChild(name: string, dir: string, segment: string)
    requires segment != "" && NoSlash(segment)
    ensures Under(Strip(name), Join(dir, segment)) ==> ChildOf(name, dir) == Some(Child(segment, false))
    ensures Strip(name) == Join(dir, segment) ==> ChildOf(name, dir) == Some(Child(segment, true))
  {
    var path, joined := Strip(name), Join(dir, segment);
    if Under(path, joined) || path == joined {
      assert path[..|joined|] == joined;
      assert Under(path, dir) by {
        if dir != "" {
          assert path[..|dir|] == joined[..|dir|] == dir;
          assert path[|dir|] == joined[|dir|];
        }
      }
      var rest := Rest(path, dir);
      assert rest[..|segment|] == segment by {
        assert segment == joined[|joined| - |segment|..];
      }
      SegmentEndIs(rest, |segment|);
    }
  }

  lemma NoEmptySegment(path: string, i: nat)
    requires ValidPath(path) && i + 1 < |path| && path[i] == '/'
    ensures path[i + 1] != '/'
  {
    ValidTail(path, i);
    ValidHead(path[i + 1..]);
  }

  /** No valid name lies below a directory spelled with a trailing slash. */
  lemma NothingBelowSlash(name: string, dir: string)
    requires ValidPath(Strip(name)) && dir != "" && dir[|dir| - 1] == '/'
    ensures ChildOf(name, dir) == None
  {
    var path := Strip(name);
    if |path| > |dir| && path[..|dir|] == dir {
      assert path[|dir| - 1] == '/';
      NoEmptySegment(path, |dir| - 1);
    }
  }

  // ---- Listing ------------------------------------------------------------------------------

  ghost predicate ValidTable(table: Table) {
    forall i | 0 <= i < |table| && table[i].File? :: ValidName(table[i].name)
  }

  /** Slot `i` is reached through child `segment` of `dir`. */
  predicate Through(table: Table, dir: string, i: nat, segment: string)
    requires i < |table|
  {
    table[i].File? && ChildOf(table[i].name, dir).Some? && ChildOf(table[i].name, dir).value.segment == segment
  }

  predicate IsLeaf(table: Table, dir: string, i: nat)
    requires i < |table|
  {
    table[i].File? && ChildOf(table[i].name, dir).Some? && ChildOf(table[i].name, dir).value.leaf
  }

  /** Files are always reported, a subdirectory only at the first slot with that segment. */
  predicate Reported(table: Table, dir: string, i: nat)
    requires i < |table|
  {
    && table[i].File? && ChildOf(table[i].name, dir).Some?
    && (IsLeaf(table, dir, i)
        || forall e | 0 <= e < i :: !Through(table, dir, e, ChildOf(table[i].name, dir).value.segment))
  }

  function Segment(table: Table, dir: string, i: nat): string
    requires i < |table| && table[i].File? && ChildOf(table[i].name, dir).Some?
  {
    ChildOf(table[i].name, dir).value.segment
  }

  /** The slots a listing of `dir` reports, among the first `n`, in slot order. */
  function Entries(table: Table, dir: string, n: nat): (ids: seq<nat>)
    requires n <= |table|
    ensures forall k | 0 <= k < |ids| :: ids[k] < n && Reported(table, dir, ids[k])
  {
    if n == 0 then []
    else if Reported(table, dir, n - 1) then Entries(table, dir, n - 1) + [n - 1]
    else Entries(table, dir, n - 1)
  }

  // ---- Walking ------------------------------------------------------------------------------

  /** A subdirectory of this name is reported below slot `n`. */
  ghost predicate EntryBelow(table: Table, dir: string, n: nat, segment: string)
    requires n <= |table|
  {
    exists r | 0 <= r < n ::
      Reported(table, dir, r) && !IsLeaf(table, dir, r) && Segment(table, dir, r) == segment
  }

  lemma EntryBelowStep(table: Table, dir: string, n: nat, segment: string)
    requires n < |table|
    ensures EntryBelow(table, dir, n + 1, segment) <==>
              EntryBelow(table, dir, n, segment)
              || (Reported(table, dir, n) && !IsLeaf(table, dir, n) && Segment(table, dir, n) == segment)
  {
    hide Reported, IsLeaf, ChildOf;
  }

  /** The subdirectory is reported somewhere in the listing of its parent. */
  ghost predicate Shown(table: Table, dir: string, segment: string) {
    EntryBelow(table, dir, |table|, segment)
  }

  /** A walk that starts at `dir` and enters every reported subdirectory comes to file `i`. */
  ghost predicate Reached(table: Table, dir: string, i: nat)
    requires ValidTable(table) && i < |table| && table[i].File?
    decreases |Strip(table[i].name)| - |dir|
  {
    match ChildOf(table[i].name, dir)
    case None => false
    case Some(c) =>
      ChildIsPrefix(table[i].name, dir);
      c.leaf || (Shown(table, dir, c.segment) && Reached(table, Join(dir, c.segment), i))
  }

  function Sum(s: seq<nat>): nat {
    if s == [] then 0 else Sum(s[..|s| - 1]) + s[|s| - 1]
  }

  lemma {:induction false} SumAdd(a: seq<nat>, b: seq<nat>, c: seq<nat>)
    requires |a| == |b| == |c| && forall i | 0 <= i < |a| :: c[i] == a[i] + b[i]
    ensures Sum(c) == Sum(a) + Sum(b)
  {
    if a != [] {
      SumAdd(a[..|a| - 1], b[..|a| - 1], c[..|a| - 1]);
    }
  }

  lemma {:induction false} SumZero(s: seq<nat>)
    ensures Sum(s) == 0 <==> forall i | 0 <= i < |s| :: s[i] == 0
  {
    if s != [] {
      SumZero(s[..|s| - 1]);
    }
  }

  lemma {:induction false} SumUnit(s: seq<nat>, k: nat)
    requires k < |s| && forall i | 0 <= i < |s| && i != k :: s[i] == 0
    ensures Sum(s) == s[k]
  {
    var last := |s| - 1;
    if k == last {
      SumZero(s[..last]);
    } else {
      SumUnit(s[..last], k);
    }
  }

  /** The lengths of the files a walk from `dir` comes to, zero for the others. */
  ghost function ReachedLengths(table: Table, dir: string): seq<nat>
    requires ValidTable(table)
  {
    seq(|table|, i requires 0 <= i < |table| =>
      if table[i].File? && Reached(table, dir, i) then table[i].length else 0)
  }

  /** What a walk from `dir` must add up. */
  ghost function Total(table: Table, dir: string): nat
    requires ValidTable(table)
  {
    Sum(ReachedLengths(table, dir))
  }

  /** What one reported entry contributes. */
  ghost function Value(table: Table, dir: string, r: nat): nat
    requires ValidTable(table) && r < |table| && Reported(table, dir, r)
  {
    if IsLeaf(table, dir, r) then table[r].length else Total(table, Join(dir, Segment(table, dir, r)))
  }

  ghost function Values(table: Table, dir: string, ids: seq<nat>): nat
    requires ValidTable(table) && forall k | 0 <= k < |ids| :: ids[k] < |table| && Reported(table, dir, ids[k])
  {
    if ids == [] then 0
    else Values(table, dir, ids[..|ids| - 1]) + Value(table, dir, ids[|ids| - 1])
  }

  /** File `i` is reached through an entry reported below slot `n`. */
  ghost predicate ReachedBelow(table: Table, dir: string, n: nat, i: nat)
    requires ValidTable(table) && n <= |table| && i < |table| && table[i].File?
  {
    && ChildOf(table[i].name, dir).Some?
    && if IsLeaf(table, dir, i) then i < n
       else
         && EntryBelow(table, dir, n, Segment(table, dir, i))
         && Reached(table, Join(dir, Segment(table, dir, i)), i)
  }

  ghost function LengthsBelow(table: Table, dir: string, n: nat): seq<nat>
    requires ValidTable(table) && n <= |table|
  {
    seq(|table|, i requires 0 <= i < |table| =>
      if table[i].File? && ReachedBelow(table, dir, n, i) then table[i].length else 0)
  }

  ghost function SumBelow(table: Table, dir: string, n: nat): nat
    requires ValidTable(table) && n <= |table|
  {
    Sum(LengthsBelow(table, dir, n))
  }

  /** What a listing cut off at slot `n` adds up to. */
  ghost function ListingSum(table: Table, dir: string, n: nat): nat
    requires ValidTable(table) && n <= |table|
  {
    Values(table, dir, Entries(table, dir, n))
  }

  /** The share of file `i` in the entry at slot `r`. */
  ghost function Share(table: Table, dir: string, r: nat, i: nat): nat
    requires ValidTable(table) && r < |table| && i < |table| && Reported(table, dir, r)
  {
    if IsLeaf(table, dir, r) then (if i == r then table[i].length else 0)
    else ReachedLengths(table, Join(dir, Segment(table, dir, r)))[i]
  }

  lemma ShareSum(table: Table, dir: string, r: nat)
    requires ValidTable(table) && r < |table| && Reported(table, dir, r)
    ensures Sum(seq(|table|, i requires 0 <= i < |table| => Share(table, dir, r, i))) == Value(table, dir, r)
  {
    var shares := seq(|table|, i requires 0 <= i < |table| => Share(table, dir, r, i));
    if IsLeaf(table, dir, r) {
      SumUnit(shares, r);
    } else {
      assert shares == ReachedLengths(table, Join(dir, Segment(table, dir, r)));
    }
  }

  /** Only files whose child segment is the entry's own can share in a directory entry. */
  lemma NoShare(table: Table, dir: string, r: nat, i: nat)
    requires ValidTable(table) && r < |table| && i < |table| && table[i].File?
    requires Reported(table, dir, r) && !IsLeaf(table, dir, r)
    requires ChildOf(table[i].name, dir) != Some(Child(Segment(table, dir, r), false))
    ensures !Reached(table, Join(dir, Segment(table, dir, r)), i)
  {
    var segment := Segment(table, dir, r);
    ChildIsPrefix(table[r].name, dir);
    PrefixIsChild(table[i].name, dir, segment);
    assert !Under(Strip(table[i].name), Join(dir, segment));
  }

  /** A reported directory entry is the only one with its segment so far. */
  lemma OnlyEntry(table: Table, dir: string, r: nat, q: nat)
    requires r < |table| && q < r && Reported(table, dir, r) && !IsLeaf(table, dir, r)
    requires Reported(table, dir, q)
    ensures Segment(table, dir, q) != Segment(table, dir, r)
  {
    assert !Through(table, dir, q, Segment(table, dir, r));
  }

  lemma FullShare(table: Table, dir: string, r: nat, i: nat)
    requires ValidTable(table) && r < |table| && i < |table| && table[i].File?
    requires Reported(table, dir, r) && !IsLeaf(table, dir, r)
    requires ChildOf(table[i].name, dir) == Some(Child(Segment(table, dir, r), false))
    ensures !ReachedBelow(table, dir, r, i)
    ensures ReachedBelow(table, dir, r + 1, i) <==> Reached(table, Join(dir, Segment(table, dir, r)), i)
  {
    forall q | 0 <= q < r && Reported(table, dir, q) && !IsLeaf(table, dir, q)
      ensures Segment(table, dir, q) != Segment(table, dir, r)
    {
      OnlyEntry(table, dir, r, q);
    }
    EntryBelowStep(table, dir, r, Segment(table, dir, r));
    hide Reached, Reported, ChildOf;
  }

  /** Entries for other segments, and leaves, change nothing for this file. */
  lemma OtherEntry(table: Table, dir: string, r: nat, i: nat)
    requires ValidTable(table) && r < |table| && i < |table| && table[i].File? && Reported(table, dir, r)
    requires i != r || !IsLeaf(table, dir, r)
    requires IsLeaf(table, dir, r) || ChildOf(table[i].name, dir) != Some(Child(Segment(table, dir, r), false))
    ensures ReachedBelow(table, dir, r + 1, i) <==> ReachedBelow(table, dir, r, i)
  {
    if ChildOf(table[i].name, dir).Some? {
      EntryBelowStep(table, dir, r, Segment(table, dir, i));
    }
    hide Reached, EntryBelow, Reported, ChildOf;
  }

  /** One file, one more entry: the file is counted by exactly the entry that leads to it. */
  lemma ShareSplits(table: Table, dir: string, r: nat, i: nat)
    requires ValidTable(table) && r < |table| && i < |table| && Reported(table, dir, r)
    ensures LengthsBelow(table, dir, r + 1)[i] == LengthsBelow(table, dir, r)[i] + Share(table, dir, r, i)
  {
    if table[i].File? {
      if IsLeaf(table, dir, r) {
        if i != r {
          OtherEntry(table, dir, r, i);
        }
      } else if ChildOf(table[i].name, dir) == Some(Child(Segment(table, dir, r), false)) {
        FullShare(table, dir, r, i);
        hide ReachedBelow, Reached, Reported, ChildOf;
      } else {
        NoShare(table, dir, r, i);
        OtherEntry(table, dir, r, i);
        hide ReachedBelow, Reached, Reported, ChildOf;
      }
    }
  }

  lemma SkipSame(table: Table, dir: string, r: nat)
    requires ValidTable(table) && r < |table| && !Reported(table, dir, r)
    ensures SumBelow(table, dir, r + 1) == SumBelow(table, dir, r)
  {
    forall segment ensures EntryBelow(table, dir, r + 1, segment) <==> EntryBelow(table, dir, r, segment) {
      EntryBelowStep(table, dir, r, segment);
    }
    hide Reached, EntryBelow;
    assert LengthsBelow(table, dir, r + 1) == LengthsBelow(table, dir, r);
  }

  lemma NextEntry(table: Table, dir: string, n: nat)
    requires ValidTable(table) && n < |table| && Reported(table, dir, n)
    ensures SumBelow(table, dir, n + 1) == SumBelow(table, dir, n) + Value(table, dir, n)
  {
    var shares := seq(|table|, i requires 0 <= i < |table| => Share(table, dir, n, i));
    ShareSum(table, dir, n);
    forall i | 0 <= i < |table|
      ensures LengthsBelow(table, dir, n + 1)[i] == LengthsBelow(table, dir, n)[i] + shares[i]
    {
      ShareSplits(table, dir, n, i);
    }
    assert |LengthsBelow(table, dir, n)| == |LengthsBelow(table, dir, n + 1)| == |table|;
    hide LengthsBelow, Share, Value, Reported;
    SumAdd(LengthsBelow(table, dir, n), shares, LengthsBelow(table, dir, n + 1));
  }

  lemma ValuesGrow(table: Table, dir: string, ids: seq<nat>, r: nat)
    requires ValidTable(table) && r < |table| && Reported(table, dir, r)
    requires forall k | 0 <= k < |ids| :: ids[k] < |table| && Reported(table, dir, ids[k])
    ensures Values(table, dir, ids + [r]) == Values(table, dir, ids) + Value(table, dir, r)
  {
    hide Reported, Value;
    assert (ids + [r])[..|ids|] == ids;
  }

  lemma NoneBelow(table: Table, dir: string)
    requires ValidTable(table)
    ensures ListingSum(table, dir, 0) == SumBelow(table, dir, 0) == 0
  {
    hide Reached, Reported, ChildOf;
    SumZero(LengthsBelow(table, dir, 0));
  }

  lemma NextListed(table: Table, dir: string, n: nat)
    requires ValidTable(table) && n < |table|
    ensures Reported(table, dir, n) ==>
              ListingSum(table, dir, n + 1) == ListingSum(table, dir, n) + Value(table, dir, n)
    ensures !Reported(table, dir, n) ==> ListingSum(table, dir, n + 1) == ListingSum(table, dir, n)
  {
    hide Reported, Value, ValidTable;
    if Reported(table, dir, n) {
      ValuesGrow(table, dir, Entries(table, dir, n), n);
    }
  }

  /** Adding up the reported entries counts every reachable file once. */
  lemma {:induction false} ValuesAre(table: Table, dir: string, n: nat)
    requires ValidTable(table) && n <= |table|
    ensures ListingSum(table, dir, n) == SumBelow(table, dir, n)
  {
    hide *;
    if n == 0 {
      NoneBelow(table, dir);
    } else {
      ValuesAre(table, dir, n - 1);
      NextListed(table, dir, n - 1);
      if Reported(table, dir, n - 1) {
        NextEntry(table, dir, n - 1);
      } else {
        SkipSame(table, dir, n - 1);
      }
    }
  }

  /** The whole listing of a directory adds up to what lies below it. */
  lemma EntriesTotal(table: Table, dir: string)
    requires ValidTable(table)
    ensures ListingSum(table, dir, |table|) == Total(table, dir)
  {
    ValuesAre(table, dir, |table|);
    forall i | 0 <= i < |table|
      ensures LengthsBelow(table, dir, |table|)[i] == ReachedLengths(table, dir)[i]
    {
      if table[i].File? && ChildOf(table[i].name, dir).Some? {
        assert Reached(table, dir, i) <==>
               IsLeaf(table, dir, i)
               || (Shown(table, dir, Segment(table, dir, i)) && Reached(table, Join(dir, Segment(table, dir, i)), i));
      }
    }
    assert LengthsBelow(table, dir, |table|) == ReachedLengths(table, dir);
  }

  // ---- When a walk from the root sees everything --------------------------------------------

  ghost function Lengths(table: Table): seq<nat> {
    seq(|table|, i requires 0 <= i < |table| => if table[i].File? then table[i].length else 0)
  }

  ghost function BytesUsed(table: Table): nat { Sum(Lengths(table)) }

  ghost function HiddenLengths(table: Table): seq<nat>
    requires ValidTable(table)
  {
    seq(|table|, i requires 0 <= i < |table| =>
      if table[i].File? && !Reached(table, "", i) then table[i].length else 0)
  }

  /** A walk from the root adds up the stored bytes except those of the files it never reaches. */
  lemma WalkMisses(table: Table)
    requires ValidTable(table)
    ensures BytesUsed(table) == Total(table, "") + Sum(HiddenLengths(table))
    ensures Total(table, "") == BytesUsed(table) <==>
              forall i | 0 <= i < |table| && table[i].File? && !Reached(table, "", i) :: table[i].length == 0
  {
    SumAdd(ReachedLengths(table, ""), HiddenLengths(table), Lengths(table));
    SumZero(HiddenLengths(table));
    hide Reached;
    assert forall i | 0 <= i < |table| && table[i].File? && !Reached(table, "", i) ::
        HiddenLengths(table)[i] == table[i].length;
  }

  /** A file stored under the very name of a directory, in a slot before everything inside it. */
  ghost predicate Masked(table: Table, dir: string) {
    exists e | 0 <= e < |table| && table[e].File? && Strip(table[e].name) == dir ::
      forall i | 0 <= i < |table| && table[i].File? && Under(Strip(table[i].name), dir) :: e < i
  }

  /** The first slot that leads through a segment decides how the segment is listed. */
  lemma {:induction false} FirstThrough(table: Table, dir: string, segment: string, i: nat) returns (m: nat)
    requires i < |table| && Through(table, dir, i, segment)
    ensures m <= i && Through(table, dir, m, segment)
    ensures forall e | 0 <= e < m :: !Through(table, dir, e, segment)
  {
    m := i;
    if e: nat :| e < i && Through(table, dir, e, segment) {
      m := FirstThrough(table, dir, segment, e);
    }
  }

  lemma ThroughMeans(table: Table, dir: string, segment: string, i: nat)
    requires ValidTable(table) && i < |table| && table[i].File? && segment != "" && NoSlash(segment)
    ensures Through(table, dir, i, segment) && IsLeaf(table, dir, i) <==>
              Strip(table[i].name) == Join(dir, segment)
    ensures Through(table, dir, i, segment) && !IsLeaf(table, dir, i) <==>
              Under(Strip(table[i].name), Join(dir, segment))
  {
    PrefixIsChild(table[i].name, dir, segment);
    if ChildOf(table[i].name, dir).Some? {
      ChildIsPrefix(table[i].name, dir);
    }
    hide ValidPath, ChildOf, Under, Join;
  }

  lemma LeafFirst(table: Table, dir: string, segment: string, m: nat, r: nat)
    requires m < |table| && r < |table| && Through(table, dir, m, segment) && IsLeaf(table, dir, m)
    requires forall e | 0 <= e < m :: !Through(table, dir, e, segment)
    requires Reported(table, dir, r) && !IsLeaf(table, dir, r)
    ensures Segment(table, dir, r) != segment
  {
    assert Through(table, dir, r, Segment(table, dir, r));
    hide ChildOf;
  }

  /** A subdirectory that has files is missing from its parent's listing exactly when a file of
      its own name masks it. */
  lemma ShownUnlessMasked(table: Table, dir: string, segment: string, i: nat)
    requires ValidTable(table) && i < |table| && segment != "" && NoSlash(segment)
    requires Through(table, dir, i, segment) && !IsLeaf(table, dir, i)
    ensures Shown(table, dir, segment) <==> !Masked(table, Join(dir, segment))
  {
    var m := FirstThrough(table, dir, segment, i);
    forall k: nat | k < |table| && table[k].File? {
      ThroughMeans(table, dir, segment, k);
    }
    hide ChildOf, Under, Join, Strip, NoSlash;
    if IsLeaf(table, dir, m) {
      MaskedBy(table, dir, segment, m);
      forall r | 0 <= r < |table| && Reported(table, dir, r) && !IsLeaf(table, dir, r)
        ensures Segment(table, dir, r) != segment
      {
        LeafFirst(table, dir, segment, m, r);
      }
    } else {
      assert Reported(table, dir, m) && Segment(table, dir, m) == segment;
      NotMaskedBy(table, dir, segment, m);
    }
  }

  lemma MaskedBy(table: Table, dir: string, segment: string, m: nat)
    requires ValidTable(table) && m < |table| && segment != "" && NoSlash(segment)
    requires Through(table, dir, m, segment) && IsLeaf(table, dir, m)
    requires forall e | 0 <= e < m :: !Through(table, dir, e, segment)
    ensures Masked(table, Join(dir, segment))
  {
    forall k: nat | k < |table| && table[k].File? {
      ThroughMeans(table, dir, segment, k);
    }
    hide ChildOf, Under, Join, Strip, NoSlash;
  }

  lemma NotMaskedBy(table: Table, dir: string, segment: string, m: nat)
    requires ValidTable(table) && m < |table| && segment != "" && NoSlash(segment)
    requires Through(table, dir, m, segment) && !IsLeaf(table, dir, m)
    requires forall e | 0 <= e < m :: !Through(table, dir, e, segment)
    ensures !Masked(table, Join(dir, segment))
  {
    forall k: nat | k < |table| && table[k].File? {
      ThroughMeans(table, dir, segment, k);
    }
    hide ChildOf, Under, Join, Strip, NoSlash;
  }

  /** No directory of the path longer than `from` is masked. */
  ghost predicate Unmasked(table: Table, path: string, from: nat) {
    forall j | from < j < |path| && path[j] == '/' :: !Masked(table, path[..j])
  }

  lemma UnmaskedStep(table: Table, path: string, dir: string, segment: string)
    requires NoSlash(segment) && segment != "" && Under(path, Join(dir, segment))
    ensures Unmasked(table, path, |dir|) <==>
              !Masked(table, Join(dir, segment)) && Unmasked(table, path, |Join(dir, segment)|)
  {
    var joined := Join(dir, segment);
    UnderParts(path, dir, segment);
    assert path[..|joined|] == joined;
    hide Masked, Under, Join, NoSlash;
  }

  /** A walk misses a file exactly when some directory on its path is masked. */
  lemma {:induction false} ReachedUnlessMasked(table: Table, dir: string, i: nat)
    requires ValidTable(table) && i < |table| && table[i].File? && Under(Strip(table[i].name), dir)
    ensures Reached(table, dir, i) <==> Unmasked(table, Strip(table[i].name), |dir|)
    decreases |Strip(table[i].name)| - |dir|
  {
    var path := Strip(table[i].name);
    RestOf(path, dir);
    ValidHead(Rest(path, dir));
    var c := ChildOf(table[i].name, dir).value;
    ChildIsPrefix(table[i].name, dir);
    var joined := Join(dir, c.segment);
    assert Reached(table, dir, i) <==>
           c.leaf || (Shown(table, dir, c.segment) && Reached(table, joined, i));
    if c.leaf {
      NoSlashBetween(path, dir, c.segment);
    } else {
      assert Through(table, dir, i, c.segment) && !IsLeaf(table, dir, i);
      hide *;
      ShownUnlessMasked(table, dir, c.segment, i);
      ReachedUnlessMasked(table, joined, i);
      UnmaskedStep(table, path, dir, c.segment);
    }
  }

  /** A leaf has no slash after its directory. */
  lemma NoSlashBetween(path: string, dir: string, segment: string)
    requires NoSlash(segment) && path == Join(dir, segment)
    ensures forall j | |dir| < j < |path| :: path[j] != '/'
  {
  }

  /** Below a joined path the first slash after the directory is the one that ends the segment. */
  lemma UnderParts(path: string, dir: string, segment: string)
    requires NoSlash(segment) && segment != "" && Under(path, Join(dir, segment))
    ensures |dir| < |Join(dir, segment)| < |path| && path[|Join(dir, segment)|] == '/'
    ensures forall j | |dir| < j < |Join(dir, segment)| :: path[j] != '/'
  {
    var joined := Join(dir, segment);
    NoSlashBetween(joined, dir, segment);
    forall j | |dir| < j < |joined| ensures path[j] != '/' {
      assert path[..|joined|][j] == joined[j];
    }
  }

  /** If no stored file is named like a directory of another, the walk is exact. */
  lemma ExactWithoutPrefixes(table: Table)
    requires ValidTable(table)
    requires forall e, i | 0 <= e < |table| && 0 <= i < |table| && table[e].File? && table[i].File? ::
               !Under(Strip(table[i].name), Strip(table[e].name))
    ensures Total(table, "") == BytesUsed(table)
  {
    forall i | 0 <= i < |table| && table[i].File? ensures Reached(table, "", i) {
      ReachedUnlessMasked(table, "", i);
      var path := Strip(table[i].name);
      forall j | 0 < j < |path| && path[j] == '/' ensures !Masked(table, path[..j]) {
        assert Under(path, path[..j]);
      }
    }
    WalkMisses(table);
  }

  /** A file "a" stored before "a/b" hides the twelve bytes below it. */
  lemma WalkMissesExample()
    ensures var table := [File("a", 0, 5, 5, None), File("a/b", 5, 7, 7, None)];
            ValidTable(table) && Total(table, "") == 5 && BytesUsed(table) == 12
  {
    var first, second: Slot := File("a", 0, 5, 5, None), File("a/b", 5, 7, 7, None);
    var table := [first, second];
    SegmentEndIs("a", 1);
    SegmentEndIs("b", 1);
    SegmentEndIs("a/b", 1);
    assert "a/b"[2..] == "b" && "a/b"[..1] == "a" && "a"[..1] == "a" && "b"[..1] == "b";
    assert ValidPath("a") && ValidPath("b") && ValidPath("a/b");
    assert Strip(first.name) == "a" && Strip(second.name) == "a/b" && !Under("a", "a");
    assert table[0] == first && table[1] == second;
    assert Masked(table, "a");
    ReachedUnlessMasked(table, "", 0);
    ReachedUnlessMasked(table, "", 1);
    assert "a/b"[1] == '/';
    assert !Reached(table, "", 1) && Reached(table, "", 0);
    assert ReachedLengths(table, "") == [5, 0];
    assert Lengths(table) == [5, 7];
    assert [5, 0][..1] == [5] && [5, 7][..1] == [5] && [5][..0] == [];
    assert Sum([5]) == Sum([]) + 5;
    assert Sum([5, 0]) == 5 && Sum([5, 7]) == 12;
  }
}
