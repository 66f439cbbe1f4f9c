/** The full-screen editor as a transformation of lines and a cursor, and the one flat text
    with a gap at the cursor that it stands for. */
module EditorText {
  const MAX_LINES: nat := 200
  const CAPACITY: nat := 80

  datatype Doc = Doc(lines: seq<string>, row: nat, column: nat)

  datatype Key =
    | Char(value: char) | Enter | Backspace | Delete
    | Home | End | Left | Right | Up | Down

  /** The flat text on both sides of the cursor. */
  datatype Gap = Gap(before: string, after: string)

  predicate Clean(s: string) { forall i | 0 <= i < |s| :: s[i] != '\n' && s[i] != '\0' }

  predicate Fits(s: string) { |s| < CAPACITY && Clean(s) }

  ghost predicate Valid(d: Doc) {
    && 0 < |d.lines| <= MAX_LINES && d.row < |d.lines| && d.column <= |d.lines[d.row]|
    && forall i | 0 <= i < |d.lines| :: Fits(d.lines[i])
  }

  function Line(d: Doc): string
    requires d.row < |d.lines|
  {
    d.lines[d.row]
  }

  function Min(a: nat, b: nat): nat { if a <= b then a else b }

  // ---- The keys -----------------------------------------------------------------------------

  function InsertChar(d: Doc, c: char): Doc
    requires Valid(d)
  {
    var l := Line(d);
    if |l| + 1 >= CAPACITY then d
    else d.(lines := d.lines[d.row := l[..d.column] + [c] + l[d.column..]], column := d.column + 1)
  }

  function SplitLine(d: Doc): Doc
    requires Valid(d)
  {
    var l := Line(d);
    if |d.lines| >= MAX_LINES then d
    else Doc(d.lines[..d.row] + [l[..d.column], l[d.column..]] + d.lines[d.row + 1..], d.row + 1, 0)
  }

  function BackspaceAt(d: Doc): Doc
    requires Valid(d)
  {
    var l := Line(d);
    if d.column > 0 then
      d.(lines := d.lines[d.row := l[..d.column - 1] + l[d.column..]], column := d.column - 1)
    else if d.row == 0 then d
    else
      var previous := d.lines[d.row - 1];
      if |previous| + |l| + 1 >= CAPACITY then d
      else Doc(d.lines[..d.row - 1] + [previous + l] + d.lines[d.row + 1..], d.row - 1, |previous|)
  }

  function DeleteForward(d: Doc): Doc
    requires Valid(d)
  {
    if d.column < |Line(d)| then BackspaceAt(d.(column := d.column + 1))
    else if d.row + 1 < |d.lines| then BackspaceAt(d.(row := d.row + 1, column := 0))
    else d
  }

  function Press(d: Doc, key: Key): Doc
    requires Valid(d)
  {
    match key
    case Char(c) => if ' ' <= c <= '~' then InsertChar(d, c) else d
    case Enter => SplitLine(d)
    case Backspace => BackspaceAt(d)
    case Delete => DeleteForward(d)
    case Home => d.(column := 0)
    case End => d.(column := |Line(d)|)
    case Left =>
      if d.column > 0 then d.(column := d.column - 1)
      else if d.row > 0 then d.(row := d.row - 1, column := |d.lines[d.row - 1]|)
      else d
    case Right =>
      if d.column < |Line(d)| then d.(column := d.column + 1)
      else if d.row + 1 < |d.lines| then d.(row := d.row + 1, column := 0)
      else d
    case Up =>
      if d.row > 0 then d.(row := d.row - 1, column := Min(d.column, |d.lines[d.row - 1]|)) else d
    case Down =>
      if d.row + 1 < |d.lines| then d.(row := d.row + 1, column := Min(d.column, |d.lines[d.row + 1]|)) else d
  }

  /** The cursor stays on the text and every line stays within its row, whatever is pressed. */
  lemma PressValid(d: Doc, key: Key)
    requires Valid(d)
    ensures Valid(Press(d, key))
  {
    if key.Delete? {
      if d.column < |Line(d)| {
        BackspaceValid(d.(column := d.column + 1));
      } else if d.row + 1 < |d.lines| {
        BackspaceValid(d.(row := d.row + 1, column := 0));
      }
    } else if key.Backspace? {
      BackspaceValid(d);
    }
  }

  lemma BackspaceValid(d: Doc)
    requires Valid(d)
    ensures Valid(BackspaceAt(d))
  {
  }

  /** Any run of keys. */
  function PressAll(d: Doc, keys: seq<Key>): (e: Doc)
    requires Valid(d)
    ensures Valid(e)
  {
    if keys == [] then d
    else
      var before := PressAll(d, keys[..|keys| - 1]);
      PressValid(before, keys[|keys| - 1]);
      Press(before, keys[|keys| - 1])
  }

  predicate MovesByLine(key: Key) { key.Home? || key.End? || key.Up? || key.Down? }

  // ---- The flat text ------------------------------------------------------------------------

  /** The lines with a newline between neighbours. */
  function Flat(lines: seq<string>): string {
    if lines == [] then ""
    else if |lines| == 1 then lines[0]
    else Flat(lines[..|lines| - 1]) + "\n" + lines[|lines| - 1]
  }

  /** The text of the rows above, with its last newline. */
  function Above(lines: seq<string>, row: nat): string
    requires row <= |lines|
  {
    if row == 0 then "" else Flat(lines[..row]) + "\n"
  }

  /** The text of the rows below, with its first newline. */
  function Below(lines: seq<string>, row: nat): string
    requires row < |lines|
  {
    if row + 1 == |lines| then "" else "\n" + Flat(lines[row + 1..])
  }

  function GapOf(d: Doc): Gap
    requires Valid(d)
  {
    Gap(Above(d.lines, d.row) + Line(d)[..d.column], Line(d)[d.column..] + Below(d.lines, d.row))
  }

  lemma {:induction false} FlatFirst(first: string, rest: seq<string>)
    requires rest != []
    ensures Flat([first] + rest) == first + "\n" + Flat(rest)
  {
    var all := [first] + rest;
    var n := |rest|;
    assert all[..|all| - 1] == [first] + rest[..n - 1];
    if n == 1 {
      assert rest[..0] == [] && [first] + [] == [first];
    } else {
      FlatFirst(first, rest[..n - 1]);
    }
  }

  lemma AboveNext(lines: seq<string>, row: nat)
    requires row < |lines|
    ensures Above(lines, row + 1) == Above(lines, row) + lines[row] + "\n"
  {
    assert lines[..row + 1][..row] == lines[..row];
  }

  lemma BelowNext(lines: seq<string>, row: nat)
    requires row + 1 < |lines|
    ensures Below(lines, row) == "\n" + lines[row + 1] + Below(lines, row + 1)
  {
    if row + 2 < |lines| {
      assert lines[row + 1..] == [lines[row + 1]] + lines[row + 2..];
      FlatFirst(lines[row + 1], lines[row + 2..]);
    } else {
      assert lines[row + 1..] == [lines[row + 1]];
    }
  }

  /** Both sides of the gap together are the whole text, wherever the cursor is. */
  lemma GapIsFlat(d: Doc)
    requires Valid(d)
    ensures GapOf(d).before + GapOf(d).after == Flat(d.lines)
  {
    var l := Line(d);
    assert l[..d.column] + l[d.column..] == l;
    RowsFlat(d.lines, d.row);
    var above, below := Above(d.lines, d.row), Below(d.lines, d.row);
    assert (above + l[..d.column]) + (l[d.column..] + below) == above + (l[..d.column] + l[d.column..]) + below;
  }

  lemma {:induction false} RowsFlat(lines: seq<string>, row: nat)
    requires row < |lines|
    ensures Above(lines, row) + lines[row] + Below(lines, row) == Flat(lines)
    decreases |lines| - row
  {
    if row + 1 == |lines| {
      assert lines[..|lines| - 1] == lines[..row];
    } else {
      RowsFlat(lines, row + 1);
      AboveNext(lines, row);
      BelowNext(lines, row);
    }
  }

  // ---- The keys as edits of the flat text ---------------------------------------------------

  /** Whether an edit is refused for lack of room. A merge needs one cell more than the line. */
  predicate Refused(d: Doc, key: Key)
    requires Valid(d)
  {
    match key
    case Char(c) => |Line(d)| + 1 >= CAPACITY
    case Enter => |d.lines| >= MAX_LINES
    case Backspace => d.column == 0 && d.row > 0 && |d.lines[d.row - 1]| + |Line(d)| + 1 >= CAPACITY
    case Delete => d.column == |Line(d)| && d.row + 1 < |d.lines| && |Line(d)| + |d.lines[d.row + 1]| + 1 >= CAPACITY
    case _ => false
  }

  /** What the keys mean on a flat text with a gap: one character inserted, removed or passed. */
  function Edit(g: Gap, key: Key): Gap {
    match key
    case Char(c) => if ' ' <= c <= '~' then Gap(g.before + [c], g.after) else g
    case Enter => Gap(g.before + "\n", g.after)
    case Backspace => if g.before == "" then g else Gap(g.before[..|g.before| - 1], g.after)
    case Delete => if g.after == "" then g else Gap(g.before, g.after[1..])
    case Left =>
      if g.before == "" then g else Gap(g.before[..|g.before| - 1], [g.before[|g.before| - 1]] + g.after)
    case Right => if g.after == "" then g else Gap(g.before + [g.after[0]], g.after[1..])
    case _ => g
  }

  /** Changing one line changes the gap on that line only. */
  lemma LineGap(d: Doc, m: string, column: nat)
    requires Valid(d) && Fits(m) && column <= |m|
    ensures Valid(Doc(d.lines[d.row := m], d.row, column))
    ensures GapOf(Doc(d.lines[d.row := m], d.row, column))
         == Gap(Above(d.lines, d.row) + m[..column], m[column..] + Below(d.lines, d.row))
  {
    var lines := d.lines[d.row := m];
    assert lines[..d.row] == d.lines[..d.row] && lines[d.row + 1..] == d.lines[d.row + 1..];
    hide Flat;
  }

  /** A key pressed inside a line. */
  lemma PressInLine(d: Doc, key: Key)
    requires Valid(d) && !Refused(d, key)
    requires || key.Char? || (key.Backspace? && d.column > 0) || (key.Left? && d.column > 0)
             || (key.Right? && d.column < |Line(d)|)
    ensures GapOf(Press(d, key)) == Edit(GapOf(d), key)
  {
    hide Flat, Above, Below;
    PressValid(d, key);
    var l, e, c := Line(d), Press(d, key), d.column;
    var m := Line(e);
    assert Fits(m) && d.lines[d.row := l] == d.lines;
    LineGap(d, m, e.column);
    assert e == Doc(d.lines[d.row := m], d.row, e.column);
    if key.Char? && ' ' <= key.value <= '~' {
      assert m[..c + 1] == l[..c] + [key.value] && m[c + 1..] == l[c..];
    } else if key.Backspace? {
      assert m[..c - 1] == l[..c][..c - 1] && m[c - 1..] == l[c..];
    } else if key.Left? {
      assert l[c - 1..] == [l[c - 1]] + l[c..];
    } else if key.Right? {
      assert l[..c + 1] == l[..c] + [l[c]];
    }
  }

  lemma SplitGap(d: Doc)
    requires Valid(d) && |d.lines| < MAX_LINES
    ensures GapOf(SplitLine(d)) == Edit(GapOf(d), Enter)
  {
    PressValid(d, Enter);
    var e := SplitLine(d);
    var l := Line(d);
    assert e.lines[..d.row] == d.lines[..d.row] && e.lines[d.row] == l[..d.column];
    AboveNext(e.lines, d.row);
    assert e.lines[d.row + 2..] == d.lines[d.row + 1..];
    hide Flat;
  }

  /** The cursor at the start of a row, seen from the end of the row above. */
  lemma RowStart(lines: seq<string>, row: nat)
    requires Valid(Doc(lines, row, 0)) && row > 0
    ensures var g := GapOf(Doc(lines, row - 1, |lines[row - 1]|));
            GapOf(Doc(lines, row, 0)).before == g.before + "\n" && g.after == "\n" + GapOf(Doc(lines, row, 0)).after
  {
    hide Flat, Above, Below, Fits;
    AboveNext(lines, row - 1);
    BelowNext(lines, row - 1);
    var l, m := lines[row], lines[row - 1];
    var below := Below(lines, row);
    assert l[..0] == "" && m[|m|..] == "" && m[..|m|] == m && l[0..] == l;
    assert "" + ("\n" + l + below) == "\n" + (l + below);
  }

  lemma MergeGap(d: Doc)
    requires Valid(d) && d.row > 0 && d.column == 0 && !Refused(d, Backspace)
    ensures GapOf(BackspaceAt(d)) == Edit(GapOf(d), Backspace)
  {
    PressValid(d, Backspace);
    RowStart(d.lines, d.row);
    var e := BackspaceAt(d);
    var previous, l := d.lines[d.row - 1], Line(d);
    assert e.lines[..d.row - 1] == d.lines[..d.row - 1] && e.lines[d.row - 1] == previous + l;
    assert e.lines[d.row..] == d.lines[d.row + 1..];
    assert Line(e)[..|previous|] == previous && Line(e)[|previous|..] == l;
    hide Flat;
  }

  lemma BackspaceGap(d: Doc)
    requires Valid(d) && !Refused(d, Backspace)
    ensures GapOf(BackspaceAt(d)) == Edit(GapOf(d), Backspace)
  {
    hide Edit, Flat;
    if d.column > 0 {
      PressInLine(d, Backspace);
    } else if d.row > 0 {
      MergeGap(d);
    } else {
      StartOfText(d);
    }
  }

  lemma EndOfText(d: Doc)
    requires Valid(d) && d.column == |Line(d)| && d.row + 1 == |d.lines|
    ensures GapOf(d).after == ""
  {
  }

  lemma StartOfText(d: Doc)
    requires Valid(d) && d.column == 0 && d.row == 0
    ensures GapOf(d).before == "" && Edit(GapOf(d), Backspace) == GapOf(d)
  {
  }

  lemma RightGap(d: Doc)
    requires Valid(d)
    ensures GapOf(Press(d, Right)) == Edit(GapOf(d), Right)
  {
    hide Flat, Above, Below, Fits;
    PressValid(d, Right);
    if d.column < |Line(d)| {
      PressInLine(d, Right);
    } else if d.row + 1 < |d.lines| {
      RowStart(d.lines, d.row + 1);
    } else {
      EndOfText(d);
    }
  }

  lemma LeftGap(d: Doc)
    requires Valid(d)
    ensures GapOf(Press(d, Left)) == Edit(GapOf(d), Left)
  {
    hide Flat, Above, Below, Fits;
    PressValid(d, Left);
    if d.column > 0 {
      PressInLine(d, Left);
    } else if d.row > 0 {
      RowStart(d.lines, d.row);
    } else {
      StartOfText(d);
    }
  }

  /** Deleting forward is stepping right and deleting back. */
  lemma DeleteGap(d: Doc)
    requires Valid(d) && !Refused(d, Delete)
    ensures GapOf(DeleteForward(d)) == Edit(GapOf(d), Delete)
  {
    RightGap(d);
    PressValid(d, Right);
    var e := Press(d, Right);
    if d.column < |Line(d)| || d.row + 1 < |d.lines| {
      assert DeleteForward(d) == BackspaceAt(e) && !Refused(e, Backspace);
      AfterNotEmpty(d);
      BackspaceGap(e);
      hide GapOf, BackspaceAt, DeleteForward, Press;
      StepAndBack(GapOf(d));
    }
  }

  lemma AfterNotEmpty(d: Doc)
    requires Valid(d) && (d.column < |Line(d)| || d.row + 1 < |d.lines|)
    ensures GapOf(d).after != ""
  {
  }

  lemma StepAndBack(g: Gap)
    requires g.after != ""
    ensures Edit(Edit(g, Right), Backspace) == Edit(g, Delete)
  {
    assert (g.before + [g.after[0]])[..|g.before|] == g.before;
  }

  /** Every key that is not refused edits the flat text as its name says; Home, End, Up and Down
      leave the text as it is. */
  lemma PressEdits(d: Doc, key: Key)
    requires Valid(d) && !Refused(d, key)
    ensures Valid(Press(d, key))
    ensures key.Char? || key.Enter? || key.Backspace? || key.Delete? || key.Left? || key.Right? ==>
              GapOf(Press(d, key)) == Edit(GapOf(d), key)
    ensures MovesByLine(key) || key.Left? || key.Right? ==>
              Press(d, key).lines == d.lines
  {
    PressValid(d, key);
    hide GapOf, Edit;
    match key {
      case Char(_) => PressInLine(d, key);
      case Enter => SplitGap(d);
      case Backspace => BackspaceGap(d);
      case Delete => DeleteGap(d);
      case Left => LeftGap(d);
      case Right => RightGap(d);
      case _ =>
    }
  }

  /** A refused key leaves the text alone. All but Delete also leave the cursor; Delete, refused at
      the end of a line, has already stepped to the start of the next one. */
  lemma RefusedKeeps(d: Doc, key: Key)
    requires Valid(d) && Refused(d, key)
    ensures Press(d, key).lines == d.lines
    ensures Press(d, key) == d <==> !key.Delete?
    ensures key.Delete? ==> Press(d, key) == Press(d, Right)
  {
  }

  /** Home and End stay on the line, at its ends. */
  lemma HomeEnd(d: Doc)
    requires Valid(d)
    ensures var g := GapOf(Press(d, Home)); g.before == "" || g.before[|g.before| - 1] == '\n'
    ensures var g := GapOf(Press(d, End)); g.after == "" || g.after[0] == '\n'
    ensures Press(d, Home).row == Press(d, End).row == d.row
  {
    var l := Line(d);
    assert l[..0] == "" && l[|l|..] == "";
  }

  // ---- Undoing ------------------------------------------------------------------------------

  /** Backspace takes back a typed character exactly. */
  lemma TypingUndone(d: Doc, c: char)
    requires Valid(d) && ' ' <= c <= '~' && !Refused(d, Char(c))
    ensures Valid(Press(d, Char(c))) && Press(Press(d, Char(c)), Backspace) == d
  {
    PressValid(d, Char(c));
    var l, e := Line(d), Press(d, Char(c));
    assert Line(e)[..d.column] + Line(e)[d.column + 1..] == l;
  }

  /** Backspace takes back Enter exactly when the line had room to spare: a full line of 79 can be
      split but not joined again. */
  lemma EnterUndoneUnlessFull(d: Doc)
    requires Valid(d) && !Refused(d, Enter)
    ensures Valid(Press(d, Enter))
    ensures Press(Press(d, Enter), Backspace) == d <==> |Line(d)| + 1 < CAPACITY
  {
    PressValid(d, Enter);
    var l, e := Line(d), Press(d, Enter);
    assert e.lines[d.row] == l[..d.column] && Line(e) == l[d.column..];
    assert l[..d.column] + l[d.column..] == l;
    if |l| + 1 < CAPACITY {
      assert e.lines[..d.row] == d.lines[..d.row] && e.lines[d.row + 2..] == d.lines[d.row + 1..];
      assert d.lines[..d.row] + [l] + d.lines[d.row + 1..] == d.lines;
    }
  }

  // ---- Nothing is lost in the flat view -----------------------------------------------------

  lemma CleanPrefix(a: string, b: string, x: string, y: string)
    requires Clean(a) && Clean(b) && a + "\n" + x == b + "\n" + y
    ensures a == b && x == y
  {
    var s, t := a + "\n" + x, b + "\n" + y;
    assert s[|a|] == '\n' && t[|b|] == '\n';
    assert forall i | 0 <= i < |a| :: s[i] == a[i] && s[i] != '\n';
    assert forall i | 0 <= i < |b| :: t[i] == b[i] && t[i] != '\n';
    assert a == s[..|a|] && b == t[..|a|];
    assert x == s[|a| + 1..] && y == t[|a| + 1..];
  }

  lemma NewlineInside(a: string, b: string, y: string)
    requires Clean(a)
    ensures a != b + "\n" + y
  {
    assert (b + "\n" + y)[|b|] == '\n';
  }

  /** Different line arrays are different texts. */
  lemma {:induction false} FlatInjective(a: seq<string>, b: seq<string>)
    requires a != [] && b != [] && Flat(a) == Flat(b)
    requires (forall i | 0 <= i < |a| :: Clean(a[i])) && (forall i | 0 <= i < |b| :: Clean(b[i]))
    ensures a == b
  {
    assert a == [a[0]] + a[1..] && b == [b[0]] + b[1..];
    if |a| > 1 {
      FlatFirst(a[0], a[1..]);
    }
    if |b| > 1 {
      FlatFirst(b[0], b[1..]);
    }
    if |a| > 1 && |b| > 1 {
      CleanPrefix(a[0], b[0], Flat(a[1..]), Flat(b[1..]));
      FlatInjective(a[1..], b[1..]);
    } else if |a| > 1 {
      NewlineInside(b[0], a[0], Flat(a[1..]));
    } else if |b| > 1 {
      NewlineInside(a[0], b[0], Flat(b[1..]));
    }
  }

  lemma {:induction false} AboveGrows(lines: seq<string>, p: nat, q: nat)
    requires p < q <= |lines|
    ensures |Above(lines, p)| + |lines[p]| < |Above(lines, q)|
    decreases q
  {
    AboveNext(lines, q - 1);
    if p < q - 1 {
      AboveGrows(lines, p, q - 1);
    }
  }

  /** The gap determines the document: lines, row and column. */
  lemma GapDeterminesDoc(d: Doc, e: Doc)
    requires Valid(d) && Valid(e) && GapOf(d) == GapOf(e)
    ensures d == e
  {
    GapIsFlat(d);
    GapIsFlat(e);
    assert (forall i | 0 <= i < |d.lines| :: Clean(d.lines[i])) && (forall i | 0 <= i < |e.lines| :: Clean(e.lines[i])) by {
      assert forall i | 0 <= i < |d.lines| :: Fits(d.lines[i]);
      assert forall i | 0 <= i < |e.lines| :: Fits(e.lines[i]);
    }
    FlatInjective(d.lines, e.lines);
    assert |Above(d.lines, d.row)| + d.column == |Above(e.lines, e.row)| + e.column;
    if d.row < e.row {
      AboveGrows(d.lines, d.row, e.row);
    } else if e.row < d.row {
      AboveGrows(d.lines, e.row, d.row);
    }
  }

  // ---- Files --------------------------------------------------------------------------------

  /** What is written out: every line with a newline after it. */
  function Saved(lines: seq<string>): string {
    if lines == [] then "" else Saved(lines[..|lines| - 1]) + lines[|lines| - 1] + "\n"
  }

  /** The loading pass: finished lines, and the cells of the line being filled. */
  datatype Loading = Loading(done: seq<string>, cells: string)

  function LoadByte(s: Loading, c: char): Loading {
    if |s.done| >= MAX_LINES then s
    else if c == '\n' then Loading(s.done + [s.cells], "")
    else if |s.cells| + 1 < CAPACITY then s.(cells := s.cells + [c])
    else s
  }

  function LoadBytes(data: string): Loading {
    if data == "" then Loading([], "")
    else LoadByte(LoadBytes(data[..|data| - 1]), data[|data| - 1])
  }

  /** A line shows up to its first NUL. */
  function Shown(cells: string): string {
    if cells == "" || cells[0] == '\0' then "" else [cells[0]] + Shown(cells[1..])
  }

  function ShownAll(rows: seq<string>): seq<string> {
    seq(|rows|, i requires 0 <= i < |rows| => Shown(rows[i]))
  }

  function LoadedRows(data: string): seq<string> {
    var s := LoadBytes(data);
    var rows := if s.cells != "" && |s.done| < MAX_LINES then s.done + [s.cells] else s.done;
    if rows == [] then [""] else rows
  }

  function Loaded(data: string): seq<string> { ShownAll(LoadedRows(data)) }

  lemma {:induction false} LoadSmall(data: string)
    ensures var s := LoadBytes(data);
            |s.done| <= MAX_LINES && |s.cells| < CAPACITY
            && (forall i | 0 <= i < |s.done| :: |s.done[i]| < CAPACITY && '\n' !in s.done[i]) && '\n' !in s.cells
  {
    if data != "" {
      LoadSmall(data[..|data| - 1]);
    }
  }

  lemma {:induction false} ShownClean(cells: string)
    ensures |Shown(cells)| <= |cells| && Shown(cells) == cells[..|Shown(cells)|]
    ensures forall i | 0 <= i < |Shown(cells)| :: Shown(cells)[i] != '\0'
    ensures |Shown(cells)| < |cells| ==> cells[|Shown(cells)|] == '\0'
    ensures '\0' !in cells ==> Shown(cells) == cells
  {
    if cells != "" && cells[0] != '\0' {
      ShownClean(cells[1..]);
    }
  }

  /** Whatever bytes a file holds, loading it gives a valid document. */
  lemma LoadedValid(data: string)
    ensures Valid(Doc(Loaded(data), 0, 0))
  {
    LoadSmall(data);
    var rows := LoadedRows(data);
    forall i | 0 <= i < |rows| ensures Fits(Shown(rows[i])) {
      ShownClean(rows[i]);
    }
  }

  lemma {:induction false} LoadWord(data: string, word: string)
    requires Clean(word) && |LoadBytes(data).done| < MAX_LINES && |LoadBytes(data).cells| + |word| < CAPACITY
    ensures LoadBytes(data + word) == LoadBytes(data).(cells := LoadBytes(data).cells + word)
  {
    if word == "" {
      assert data + word == data;
    } else {
      var n := |word| - 1;
      LoadWord(data, word[..n]);
      assert (data + word)[..|data + word| - 1] == data + word[..n];
      assert word == word[..n] + [word[n]];
    }
  }

  /** A finished line and its newline, read after a finished prefix. */
  lemma LoadLine(head: string, word: string)
    requires Fits(word) && |LoadBytes(head).done| < MAX_LINES && LoadBytes(head).cells == ""
    ensures LoadBytes(head + word + "\n") == Loading(LoadBytes(head).done + [word], "")
  {
    var all := head + word + "\n";
    assert all[..|all| - 1] == head + word && all[|all| - 1] == '\n' && "" + word == word;
    assert LoadBytes(all) == LoadByte(LoadBytes(head + word), '\n');
    hide LoadBytes;
    LoadWord(head, word);
  }

  lemma {:induction false} LoadSaved(lines: seq<string>)
    requires |lines| <= MAX_LINES && forall i | 0 <= i < |lines| :: Fits(lines[i])
    ensures LoadBytes(Saved(lines)) == Loading(lines, "")
  {
    if lines != [] {
      var n := |lines| - 1;
      var word := lines[n];
      assert Fits(word) && lines == lines[..n] + [word];
      hide LoadBytes, Fits;
      LoadSaved(lines[..n]);
      LoadLine(Saved(lines[..n]), word);
    }
  }

  /** Loading a saved document restores exactly its lines. */
  lemma LoadRestores(lines: seq<string>)
    requires 0 < |lines| <= MAX_LINES && forall i | 0 <= i < |lines| :: Fits(lines[i])
    ensures Loaded(Saved(lines)) == lines
  {
    LoadSaved(lines);
    forall i | 0 <= i < |lines| ensures Shown(lines[i]) == lines[i] {
      assert Fits(lines[i]);
      ShownClean(lines[i]);
    }
  }
}
