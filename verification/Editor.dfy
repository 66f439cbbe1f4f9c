/** The editor in place: a fixed grid of NUL-terminated rows, edited by shifting loops. */
module Editor {
  import opened EditorText

  /** Row `i` of the grid spells `s`. */
  ghost predicate RowIs(cells: array2<char>, i: nat, s: string)
    reads cells
  {
    && cells.Length0 == MAX_LINES && cells.Length1 == CAPACITY && i < MAX_LINES && |s| < CAPACITY
    && cells[i, |s|] == '\0' && forall k | 0 <= k < |s| :: cells[i, k] == s[k] && s[k] != '\0'
  }

  // ---- One row ------------------------------------------------------------------------------

  method RowLength(cells: array2<char>, i: nat, ghost s: string) returns (length: nat)
    requires RowIs(cells, i, s)
    ensures length == |s|
  {
    length := 0;
    while length + 1 < CAPACITY && cells[i, length] != '\0'
      invariant 0 <= length <= |s|
    {
      length := length + 1;
    }
  }

  /** Moves the cells from `column` to the end one place to the right. */
  method ShiftRight(cells: array2<char>, i: nat, length: nat, column: nat)
    requires cells.Length0 == MAX_LINES && cells.Length1 == CAPACITY && i < MAX_LINES
    requires column <= length < CAPACITY - 1
    modifies cells
    ensures forall j | 0 <= j <= column :: cells[i, j] == old(cells[i, j])
    ensures forall j | column < j <= length :: cells[i, j] == old(cells[i, j - 1])
    ensures forall r, j | 0 <= r < MAX_LINES && 0 <= j < CAPACITY && r != i :: cells[r, j] == old(cells[r, j])
  {
    var k := length;
    while k > column
      invariant column <= k <= length
      invariant forall j | 0 <= j <= k :: cells[i, j] == old(cells[i, j])
      invariant forall j | k < j <= length :: cells[i, j] == old(cells[i, j - 1])
      invariant forall r, j | 0 <= r < MAX_LINES && 0 <= j < CAPACITY && r != i :: cells[r, j] == old(cells[r, j])
    {
      cells[i, k] := cells[i, k - 1];
      k := k - 1;
    }
  }

  method InsertInRow(cells: array2<char>, i: nat, length: nat, column: nat, c: char, ghost s: string)
    requires RowIs(cells, i, s) && length == |s| && column <= length && length + 1 < CAPACITY && c != '\0'
    modifies cells
    ensures RowIs(cells, i, s[..column] + [c] + s[column..])
    ensures forall r, t: string | 0 <= r < MAX_LINES && r != i && old(RowIs(cells, r, t)) :: RowIs(cells, r, t)
  {
    ShiftRight(cells, i, length, column);
    cells[i, column] := c;
    cells[i, length + 1] := '\0';
    ghost var t := s[..column] + [c] + s[column..];
    forall j | 0 <= j < |t| ensures cells[i, j] == t[j] && t[j] != '\0' {
      if j > column {
        assert t[j] == s[j - 1];
      }
    }
  }

  method DeleteInRow(cells: array2<char>, i: nat, length: nat, column: nat, ghost s: string)
    requires RowIs(cells, i, s) && length == |s| && 0 < column <= length
    modifies cells
    ensures RowIs(cells, i, s[..column - 1] + s[column..])
    ensures forall r, t: string | 0 <= r < MAX_LINES && r != i && old(RowIs(cells, r, t)) :: RowIs(cells, r, t)
  {
    var k := column - 1;
    while k < length
      invariant column - 1 <= k <= length
      invariant forall j | 0 <= j < column - 1 :: cells[i, j] == s[j]
      invariant forall j | column - 1 <= j < k :: cells[i, j] == if j + 1 < |s| then s[j + 1] else '\0'
      invariant forall j | k <= j < length :: cells[i, j] == s[j]
      invariant cells[i, length] == '\0'
      invariant forall r, j | 0 <= r < MAX_LINES && 0 <= j < CAPACITY && r != i :: cells[r, j] == old(cells[r, j])
    {
      cells[i, k] := cells[i, k + 1];
      k := k + 1;
    }
    ghost var t := s[..column - 1] + s[column..];
    assert forall j | column - 1 <= j < |t| :: t[j] == s[j + 1];
  }

  method CopyRow(cells: array2<char>, to: nat, from: nat, ghost s: string)
    requires RowIs(cells, from, s) && to < MAX_LINES && to != from
    modifies cells
    ensures RowIs(cells, to, s)
    ensures forall r, t: string | 0 <= r < MAX_LINES && r != to && old(RowIs(cells, r, t)) :: RowIs(cells, r, t)
  {
    for c := 0 to CAPACITY
      invariant forall j | 0 <= j < c :: cells[to, j] == old(cells[from, j])
      invariant forall r, j | 0 <= r < MAX_LINES && 0 <= j < CAPACITY && r != to :: cells[r, j] == old(cells[r, j])
    {
      cells[to, c] := cells[from, c];
    }
  }

  /** Moves the end of one row to another and cuts the first there. */
  method CutRow(cells: array2<char>, i: nat, to: nat, length: nat, column: nat, ghost s: string)
    requires RowIs(cells, i, s) && length == |s| && column <= length && to < MAX_LINES && to != i
    modifies cells
    ensures RowIs(cells, i, s[..column]) && RowIs(cells, to, s[column..])
    ensures forall r, t: string | 0 <= r < MAX_LINES && r != i && r != to && old(RowIs(cells, r, t)) :: RowIs(cells, r, t)
  {
    var copied := 0;
    while column + copied < length
      invariant 0 <= copied <= length - column
      invariant forall j | 0 <= j < copied :: cells[to, j] == s[column + j]
      invariant forall r, j | 0 <= r < MAX_LINES && 0 <= j < CAPACITY && r != to :: cells[r, j] == old(cells[r, j])
    {
      cells[to, copied] := cells[i, column + copied];
      copied := copied + 1;
    }
    cells[to, copied] := '\0';
    cells[i, column] := '\0';
  }

  method AppendRow(cells: array2<char>, to: nat, from: nat, ghost s: string, ghost t: string, m: nat, n: nat)
    requires RowIs(cells, to, s) && RowIs(cells, from, t) && to != from && m == |s| && n == |t| && m + n < CAPACITY
    modifies cells
    ensures RowIs(cells, to, s + t)
    ensures forall r, u: string | 0 <= r < MAX_LINES && r != to && old(RowIs(cells, r, u)) :: RowIs(cells, r, u)
  {
    for c := 0 to n
      invariant forall j | 0 <= j < m :: cells[to, j] == s[j]
      invariant forall j | 0 <= j < c :: cells[to, m + j] == t[j]
      invariant forall r, j | 0 <= r < MAX_LINES && 0 <= j < CAPACITY && r != to :: cells[r, j] == old(cells[r, j])
    {
      cells[to, m + c] := cells[from, c];
    }
    cells[to, m + n] := '\0';
    assert forall j | m <= j < m + n :: (s + t)[j] == t[j - m] && cells[to, m + (j - m)] == t[j - m];
  }

  // ---- The editor ---------------------------------------------------------------------------

  class Screen {
    const cells: array2<char>
    var count: nat
    var row: nat
    var column: nat
    var modified: bool
    ghost var text: seq<string>

    ghost predicate Rows()
      reads this, cells
    {
      && cells.Length0 == MAX_LINES && cells.Length1 == CAPACITY && count == |text| <= MAX_LINES
      && forall i | 0 <= i < count :: RowIs(cells, i, text[i])
    }

    ghost predicate Valid()
      reads this, cells
    {
      Rows() && EditorText.Valid(Doc(text, row, column))
    }

    ghost function View(): Doc
      reads this
    {
      Doc(text, row, column)
    }

    /** Opens a file's bytes, or an empty document when there is none. */
    constructor (data: string)
      ensures Valid() && View() == Doc(Loaded(data), 0, 0) && !modified && fresh(cells)
    {
      cells := new char[MAX_LINES, CAPACITY]((_, _) => '\0');
      count, row, column, modified := 0, 0, 0, false;
      text := [];
      new;
      Load(data);
    }

    method LineLength(i: nat) returns (length: nat)
      requires Rows() && i < count
      ensures length == |text[i]|
    {
      length := RowLength(cells, i, text[i]);
    }

    method InsertChar(c: char)
      requires Valid() && ' ' <= c <= '~'
      modifies this`column, this`modified, this`text, cells
      ensures Valid() && View() == EditorText.InsertChar(old(View()), c)
      ensures modified == (old(modified) || text != old(text))
    {
      PressValid(View(), Char(c));
      hide RowIs;
      var length := LineLength(row);
      if length + 1 >= CAPACITY {
        return;
      }
      ghost var s := text[row];
      InsertInRow(cells, row, length, column, c, s);
      text := text[row := s[..column] + [c] + s[column..]];
      column := column + 1;
      modified := true;
      assert |text[row]| == |s| + 1;
    }

    method SplitLine()
      requires Valid()
      modifies this`count, this`row, this`column, this`modified, this`text, cells
      ensures Valid() && View() == EditorText.SplitLine(old(View()))
      ensures modified == (old(modified) || old(count) < MAX_LINES)
    {
      PressValid(View(), Enter);
      hide RowIs;
      if count >= MAX_LINES {
        return;
      }
      ghost var was := text;
      OpenRow();
      assert forall k | row + 1 < k <= count :: FromAbove(k);
      var length := RowLength(cells, row, was[row]);
      label Before:
      CutRow(cells, row, row + 1, length, column, was[row]);
      ghost var t := was[..row] + [was[row][..column], was[row][column..]] + was[row + 1..];
      forall k | 0 <= k < |t| ensures RowIs(cells, k, t[k]) {
        if k > row + 1 {
          assert old@Before(FromAbove(k)) && t[k] == was[k - 1];
        }
      }
      text := t;
      count := count + 1;
      row := row + 1;
      column := 0;
      modified := true;
    }

    /** Row `k` spells the line that was above it. */
    ghost predicate FromAbove(k: nat)
      reads this, cells
    {
      0 < k <= |text| && RowIs(cells, k, text[k - 1])
    }

    /** Row `k` spells the line that was below it. */
    ghost predicate FromBelow(k: nat)
      reads this, cells
    {
      k + 1 < |text| && RowIs(cells, k, text[k + 1])
    }

    /** Shifts the rows below the cursor down by one. */
    method OpenRow()
      requires Rows() && row < count < MAX_LINES
      modifies cells
      ensures forall k | 0 <= k <= row :: RowIs(cells, k, text[k])
      ensures forall k | row + 1 < k <= count :: FromAbove(k)
    {
      hide RowIs;
      var i := count;
      while i > row + 1
        invariant row + 1 <= i <= count
        invariant forall k | 0 <= k < i :: RowIs(cells, k, text[k])
        invariant forall k | i < k <= count :: FromAbove(k)
      {
        label Before:
        CopyRow(cells, i, i - 1, text[i - 1]);
        assert FromAbove(i);
        assert forall k | i < k <= count :: old@Before(FromAbove(k)) ==> FromAbove(k);
        i := i - 1;
      }
    }

    /** Shifts the rows below the cursor up by one, over the cursor's row. */
    method CloseRow(ghost first: string)
      requires cells.Length0 == MAX_LINES && cells.Length1 == CAPACITY
      requires 0 < row < count == |text| <= MAX_LINES && RowIs(cells, row - 1, first)
      requires forall k | 0 <= k < count && k != row - 1 :: RowIs(cells, k, text[k])
      modifies cells
      ensures RowIs(cells, row - 1, first)
      ensures forall k | 0 <= k < row - 1 :: RowIs(cells, k, text[k])
      ensures forall k | row <= k < count - 1 :: FromBelow(k)
    {
      hide RowIs;
      var i := row;
      while i + 1 < count
        invariant row <= i < count
        invariant RowIs(cells, row - 1, first)
        invariant forall k | 0 <= k < row - 1 :: RowIs(cells, k, text[k])
        invariant forall k | i <= k < count :: RowIs(cells, k, text[k])
        invariant forall k | row <= k < i :: FromBelow(k)
      {
        label Before:
        CopyRow(cells, i, i + 1, text[i + 1]);
        assert FromBelow(i);
        assert forall k | row <= k < i :: old@Before(FromBelow(k)) ==> FromBelow(k);
        i := i + 1;
      }
    }

    method Backspace()
      requires Valid()
      modifies this`count, this`row, this`column, this`modified, this`text, cells
      ensures Valid() && View() == BackspaceAt(old(View()))
      ensures modified == (old(modified) || text != old(text))
    {
      PressValid(View(), Key.Backspace);
      hide RowIs;
      if column > 0 {
        EraseBefore();
        return;
      }
      if row == 0 {
        return;
      }
      MergeUp();
    }

    /** Joins the cursor's row to the one above, if the result leaves a spare cell. */
    method MergeUp()
      requires Valid() && column == 0 < row
      modifies this`count, this`row, this`column, this`modified, this`text, cells
      ensures Valid() && View() == BackspaceAt(old(View()))
      ensures modified == (old(modified) || text != old(text))
    {
      PressValid(View(), Key.Backspace);
      hide RowIs, Fits;
      var m := LineLength(row - 1);
      var n := LineLength(row);
      if m + n + 1 >= CAPACITY {
        return;
      }
      ghost var was, first := text, text[row - 1] + text[row];
      AppendRow(cells, row - 1, row, was[row - 1], was[row], m, n);
      CloseRow(first);
      ghost var t := was[..row - 1] + [first] + was[row + 1..];
      forall k | 0 <= k < |t| ensures RowIs(cells, k, t[k]) {
        if k >= row {
          assert FromBelow(k) && t[k] == was[k + 1];
        }
      }
      text := t;
      count := count - 1;
      row := row - 1;
      column := m;
      modified := true;
      assert |text| < |was|;
    }

    method EraseBefore()
      requires Valid() && column > 0
      modifies this`column, this`modified, this`text, cells
      ensures Valid() && View() == BackspaceAt(old(View())) && modified && text != old(text)
    {
      PressValid(View(), Key.Backspace);
      hide RowIs;
      ghost var s := text[row];
      var length := LineLength(row);
      DeleteInRow(cells, row, length, column, s);
      text := text[row := s[..column - 1] + s[column..]];
      column := column - 1;
      modified := true;
      assert |text[row]| < |s|;
    }

    method DeleteForward()
      requires Valid()
      modifies this`count, this`row, this`column, this`modified, this`text, cells
      ensures Valid() && View() == EditorText.DeleteForward(old(View()))
      ensures modified == (old(modified) || text != old(text))
    {
      hide RowIs, BackspaceAt;
      var length := LineLength(row);
      if column < length {
        column := column + 1;
        Backspace();
      } else if row + 1 < count {
        row := row + 1;
        column := 0;
        Backspace();
      }
    }

    /** The arrow keys, Home and End. */
    method Move(key: Key)
      requires Valid() && (MovesByLine(key) || key.Left? || key.Right?)
      modifies this`row, this`column
      ensures Valid() && View() == EditorText.Press(old(View()), key)
    {
      PressValid(View(), key);
      hide RowIs;
      var length := LineLength(row);
      match key {
        case Home => column := 0;
        case End => column := length;
        case Left =>
          if column > 0 {
            column := column - 1;
          } else if row > 0 {
            row := row - 1;
            column := LineLength(row);
          }
        case Right =>
          if column < length {
            column := column + 1;
          } else if row + 1 < count {
            row, column := row + 1, 0;
          }
        case Up =>
          if row > 0 {
            row := row - 1;
            length := LineLength(row);
            if column > length {
              column := length;
            }
          }
        case Down =>
          if row + 1 < count {
            row := row + 1;
            length := LineLength(row);
            if column > length {
              column := length;
            }
          }
      }
    }

    /** One turn of the editing loop. */
    method Press(key: Key)
      requires Valid()
      modifies this`count, this`row, this`column, this`modified, this`text, cells
      ensures Valid() && View() == EditorText.Press(old(View()), key)
      ensures modified == (old(modified) || text != old(text))
    {
      hide RowIs;
      match key {
        case Enter => SplitLine();
        case Backspace => Backspace();
        case Delete => DeleteForward();
        case Char(c) =>
          if ' ' <= c <= '~' {
            InsertChar(c);
          }
        case _ => Move(key);
      }
    }

    // ---- Files ----------------------------------------------------------------------------

    /** Row `i` holds these cells and a NUL after them; the cells may hold NULs of their own. */
    ghost predicate RawRow(i: nat, raw: string)
      reads this, cells
    {
      && cells.Length0 == MAX_LINES && cells.Length1 == CAPACITY && i < MAX_LINES && |raw| < CAPACITY
      && cells[i, |raw|] == '\0' && forall k | 0 <= k < |raw| :: cells[i, k] == raw[k]
    }

    /** A raw row shows as its text up to the first NUL. */
    lemma RawShows(i: nat, raw: string)
      requires RawRow(i, raw)
      ensures RowIs(cells, i, Shown(raw))
    {
      ShownClean(raw);
    }

    /** The loading pass over the file's bytes; fills rows until they run out. */
    method LoadRows(data: string) returns (filled: nat)
      requires cells.Length0 == MAX_LINES && cells.Length1 == CAPACITY
      modifies this`count, cells
      ensures var s := LoadBytes(data);
              && count == |s.done| <= MAX_LINES && filled == |s.cells| < CAPACITY
              && (forall k | 0 <= k < count :: RawRow(k, s.done[k]))
              && (count < MAX_LINES ==> forall j | 0 <= j < filled :: cells[count, j] == s.cells[j])
    {
      count, filled := 0, 0;
      ghost var s := LoadBytes("");
      assert data[..0] == "";
      var i := 0;
      while i < |data| && count < MAX_LINES
        invariant 0 <= i <= |data| && s == LoadBytes(data[..i])
        invariant count == |s.done| <= MAX_LINES && filled == |s.cells| < CAPACITY
        invariant forall k | 0 <= k < count :: RawRow(k, s.done[k])
        invariant count < MAX_LINES ==> forall j | 0 <= j < filled :: cells[count, j] == s.cells[j]
      {
        assert data[..i + 1][..i] == data[..i];
        s := LoadByte(s, data[i]);
        if data[i] == '\n' {
          cells[count, filled] := '\0';
          count, filled := count + 1, 0;
        } else if filled + 1 < CAPACITY {
          cells[count, filled] := data[i];
          filled := filled + 1;
        }
        i := i + 1;
      }
      RestIgnored(data, i);
      assert data[..|data|] == data;
    }

    method Load(data: string)
      requires cells.Length0 == MAX_LINES && cells.Length1 == CAPACITY
      modifies this, cells
      ensures Valid() && View() == Doc(Loaded(data), 0, 0) && !modified
    {
      var filled := LoadRows(data);
      LoadedValid(data);
      ghost var s := LoadBytes(data);
      ghost var rows := LoadedRows(data);
      if filled > 0 && count < MAX_LINES {
        cells[count, filled] := '\0';
        assert rows == s.done + [s.cells];
        count := count + 1;
      }
      if count == 0 {
        cells[0, 0] := '\0';
        count := 1;
      }
      assert count == |rows| && forall k | 0 <= k < count :: RawRow(k, rows[k]);
      text := Loaded(data);
      row, column, modified := 0, 0, false;
      forall k | 0 <= k < count ensures RowIs(cells, k, text[k]) {
        RawShows(k, rows[k]);
      }
    }

    /** Writes every line with a newline after it; the buffer always has room. `written` is whether
        the file system took the bytes. */
    method Save(written: bool) returns (buffer: array<char>, total: nat, ok: bool)
      requires Valid()
      modifies this`modified
      ensures fresh(buffer) && total <= buffer.Length && buffer[..total] == Saved(text)
      ensures Valid() && View() == old(View()) && ok == written
      ensures modified == (old(modified) && !written)
    {
      buffer := new char[MAX_LINES * CAPACITY];
      total := 0;
      for i := 0 to count
        invariant total <= i * CAPACITY && buffer[..total] == Saved(text[..i])
        modifies buffer
      {
        assert Fits(text[i]) && text[..i + 1][..i] == text[..i];
        total := SaveLine(i, buffer, total);
      }
      assert text[..count] == text;
      ok := written;
      if written {
        modified := false;
      }
    }

    method SaveLine(i: nat, buffer: array<char>, start: nat) returns (total: nat)
      requires Rows() && i < count && start + |text[i]| < buffer.Length
      modifies buffer
      ensures total == start + |text[i]| + 1 && buffer[..total] == old(buffer[..start]) + text[i] + "\n"
    {
      var length := LineLength(i);
      ghost var s := text[i];
      assert RowIs(cells, i, s);
      for c := 0 to length
        invariant buffer[..start] == old(buffer[..start])
        invariant forall j | 0 <= j < c :: buffer[start + j] == s[j]
      {
        buffer[start + c] := cells[i, c];
      }
      buffer[start + length] := '\n';
      total := start + length + 1;
    }
  }

  /** Once the rows have run out, the rest of the file changes nothing. */
  lemma {:induction false} RestIgnored(data: string, i: nat)
    requires i <= |data| && (i < |data| ==> |LoadBytes(data[..i]).done| >= MAX_LINES)
    ensures LoadBytes(data) == LoadBytes(data[..i])
  {
    if i == |data| {
      assert data[..i] == data;
    } else {
      var n := |data| - 1;
      assert data[..n][..i] == data[..i];
      RestIgnored(data[..n], i);
    }
  }

  /** Saving and opening the saved bytes gives the same lines, with the cursor at the start. */
  method Reopen(screen: Screen) returns (again: Screen)
    requires screen.Valid()
    modifies screen
    ensures screen.Valid() && screen.text == old(screen.text)
    ensures again.Valid() && again.View() == Doc(screen.text, 0, 0)
  {
    var buffer, total, ok := screen.Save(true);
    LoadRestores(screen.text);
    again := new Screen(buffer[..total]);
  }
}
