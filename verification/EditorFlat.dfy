/** The editor on one flat text with a gap: what every key does, refusals and movements by whole
    lines included, without any notion of rows; and the line editor refines it over every run. */
module EditorFlat {
  import opened EditorText

  /** The text behind the last newline. */
  function LastLine(s: string): (r: string)
    ensures |r| <= |s|
  {
    if s == "" || s[|s| - 1] == '\n' then "" else LastLine(s[..|s| - 1]) + [s[|s| - 1]]
  }

  /** The text in front of the first newline. */
  function FirstLine(s: string): (r: string)
    ensures |r| <= |s|
  {
    if s == "" || s[0] == '\n' then "" else [s[0]] + FirstLine(s[1..])
  }

  function Newlines(s: string): nat {
    if s == "" then 0 else Newlines(s[..|s| - 1]) + if s[|s| - 1] == '\n' then 1 else 0
  }

  /** Where the line of the cursor begins and ends in the text. */
  function LineStart(g: Gap): nat { |g.before| - |LastLine(g.before)| }

  function LineEnd(g: Gap): nat { |g.before| + |FirstLine(g.after)| }

  function Text(g: Gap): string { g.before + g.after }

  function MoveTo(g: Gap, pos: nat): Gap
    requires pos <= |Text(g)|
  {
    Gap(Text(g)[..pos], Text(g)[pos..])
  }

  /** The line above, if there is one. */
  function LineAbove(g: Gap): string { if LineStart(g) == 0 then "" else LastLine(g.before[..LineStart(g) - 1]) }

  /** The line below, if there is one. */
  function LineBelow(g: Gap): string {
    if LineEnd(g) == |Text(g)| then "" else FirstLine(g.after[|FirstLine(g.after)| + 1..])
  }

  /** Lines hold 79 characters, a joined line only 78, and there are at most 200 lines. */
  predicate FlatRefused(g: Gap, key: Key) {
    var line := LineEnd(g) - LineStart(g);
    match key
    case Char(c) => line + 1 >= CAPACITY
    case Enter => Newlines(Text(g)) + 1 >= MAX_LINES
    case Backspace => 0 < |g.before| == LineStart(g) && |LineAbove(g)| + line + 1 >= CAPACITY
    case Delete => |g.before| == LineEnd(g) < |Text(g)| && line + |LineBelow(g)| + 1 >= CAPACITY
    case _ => false
  }

  /** Up and Down go to the same column of the neighbouring line, or to its end when it is shorter. */
  function FlatPress(g: Gap, key: Key): Gap {
    var column := |g.before| - LineStart(g);
    if FlatRefused(g, key) then if key.Delete? then Edit(g, Right) else g
    else match key
      case Home => MoveTo(g, LineStart(g))
      case End => MoveTo(g, LineEnd(g))
      case Up =>
        if LineStart(g) == 0 then g
        else MoveTo(g, LineStart(g) - 1 - |LineAbove(g)| + Min(column, |LineAbove(g)|))
      case Down =>
        if LineEnd(g) == |Text(g)| then g
        else MoveTo(g, LineEnd(g) + 1 + Min(column, |LineBelow(g)|))
      case _ => Edit(g, key)
  }

  function FlatPressAll(g: Gap, keys: seq<Key>): Gap {
    if keys == [] then g else FlatPress(FlatPressAll(g, keys[..|keys| - 1]), keys[|keys| - 1])
  }

  // ----- lines found again in the flat text -----

  lemma {:induction false} LastLineOf(x: string, y: string)
    requires Clean(y) && (x == "" || x[|x| - 1] == '\n')
    ensures LastLine(x + y) == y
  {
    if y == "" {
      assert x + y == x;
    } else {
      var n := |y| - 1;
      LastLineOf(x, y[..n]);
      assert (x + y)[..|x + y| - 1] == x + y[..n] && (x + y)[|x + y| - 1] == y[n];
    }
  }

  lemma {:induction false} FirstLineOf(y: string, x: string)
    requires Clean(y) && (x == "" || x[0] == '\n')
    ensures FirstLine(y + x) == y
  {
    if y == "" {
      assert y + x == x;
    } else {
      FirstLineOf(y[1..], x);
      assert (y + x)[1..] == y[1..] + x && (y + x)[0] == y[0];
    }
  }

  lemma {:induction false} NewlinesConcat(a: string, b: string)
    ensures Newlines(a + b) == Newlines(a) + Newlines(b)
  {
    if b == "" {
      assert a + b == a;
    } else {
      NewlinesConcat(a, b[..|b| - 1]);
      assert (a + b)[..|a + b| - 1] == a + b[..|b| - 1];
    }
  }

  lemma {:induction false} NewlinesClean(s: string)
    requires Clean(s)
    ensures Newlines(s) == 0
  {
    if s != "" { NewlinesClean(s[..|s| - 1]); }
  }

  lemma AboveEnds(lines: seq<string>, row: nat)
    requires row <= |lines|
    ensures var a := Above(lines, row); if row == 0 then a == "" else a != "" && a[|a| - 1] == '\n'
  {
  }

  lemma BelowBegins(lines: seq<string>, row: nat)
    requires row < |lines|
    ensures var b := Below(lines, row); if row + 1 == |lines| then b == "" else b != "" && b[0] == '\n'
  {
  }

  lemma {:induction false} NewlinesFlat(lines: seq<string>)
    requires 0 < |lines| && forall i | 0 <= i < |lines| :: Clean(lines[i])
    ensures Newlines(Flat(lines)) + 1 == |lines|
  {
    var n := |lines| - 1;
    NewlinesClean(lines[n]);
    if n > 0 {
      NewlinesFlat(lines[..n]);
      NewlinesConcat(Flat(lines[..n]) + "\n", lines[n]);
      NewlinesConcat(Flat(lines[..n]), "\n");
      assert Newlines("\n") == 1;
    }
  }

  /** What the flat text shows of the line of the cursor, and of its neighbours. */
  ghost predicate Shows(d: Doc, g: Gap)
    requires Valid(d)
  {
    && LineStart(g) == |Above(d.lines, d.row)| && |g.before| == LineStart(g) + d.column
    && LineEnd(g) == LineStart(g) + |Line(d)|
    && (LineStart(g) == 0 <==> d.row == 0) && (LineEnd(g) == |Text(g)| <==> d.row + 1 == |d.lines|)
    && (d.row > 0 ==> LineAbove(g) == d.lines[d.row - 1])
    && (d.row + 1 < |d.lines| ==> LineBelow(g) == d.lines[d.row + 1])
    && Newlines(Text(g)) + 1 == |d.lines|
  }

  lemma AllClean(d: Doc)
    requires Valid(d)
    ensures forall i | 0 <= i < |d.lines| :: Clean(d.lines[i])
  {
    forall i | 0 <= i < |d.lines| ensures Clean(d.lines[i]) { assert Fits(d.lines[i]); }
  }

  lemma CleanSlice(s: string, i: nat)
    requires Clean(s) && i <= |s|
    ensures Clean(s[..i]) && Clean(s[i..])
  {
  }

  lemma OwnLine(d: Doc)
    requires Valid(d)
    ensures var g := GapOf(d);
            && LastLine(g.before) == Line(d)[..d.column] && FirstLine(g.after) == Line(d)[d.column..]
            && |g.before| == |Above(d.lines, d.row)| + d.column
            && |Text(g)| == |Above(d.lines, d.row)| + |Line(d)| + |Below(d.lines, d.row)|
  {
    AllClean(d);
    CleanSlice(Line(d), d.column);
    AboveEnds(d.lines, d.row);
    BelowBegins(d.lines, d.row);
    LastLineOf(Above(d.lines, d.row), Line(d)[..d.column]);
    FirstLineOf(Line(d)[d.column..], Below(d.lines, d.row));
    hide Above, Below, LastLine, FirstLine;
  }

  lemma DropLine(rest: string, below: string, line: string, after: string)
    requires below == "\n" + line + after
    ensures (rest + below)[|rest| + 1..] == line + after
  {
  }

  lemma TakeLine(above: string, line: string, rest: string)
    ensures (above + line + "\n" + rest)[..|above| + |line|] == above + line
  {
  }

  lemma AboveLine(d: Doc)
    requires Valid(d) && d.row > 0
    ensures LineStart(GapOf(d)) > 0 && LineAbove(GapOf(d)) == d.lines[d.row - 1]
  {
    hide Above, Below, LastLine, FirstLine, Fits;
    OwnLine(d);
    AllClean(d);
    AboveNext(d.lines, d.row - 1);
    AboveEnds(d.lines, d.row - 1);
    LastLineOf(Above(d.lines, d.row - 1), d.lines[d.row - 1]);
    TakeLine(Above(d.lines, d.row - 1), d.lines[d.row - 1], Line(d)[..d.column]);
  }

  lemma BelowLine(d: Doc)
    requires Valid(d) && d.row + 1 < |d.lines|
    ensures LineEnd(GapOf(d)) < |Text(GapOf(d))| && LineBelow(GapOf(d)) == d.lines[d.row + 1]
  {
    hide Above, Below, LastLine, FirstLine, Fits;
    OwnLine(d);
    AllClean(d);
    BelowNext(d.lines, d.row);
    BelowBegins(d.lines, d.row + 1);
    FirstLineOf(d.lines[d.row + 1], Below(d.lines, d.row + 1));
    DropLine(Line(d)[d.column..], Below(d.lines, d.row), d.lines[d.row + 1], Below(d.lines, d.row + 1));
  }

  lemma GapShows(d: Doc)
    requires Valid(d)
    ensures Shows(d, GapOf(d))
  {
    OwnLine(d);
    AboveEnds(d.lines, d.row);
    BelowBegins(d.lines, d.row);
    if d.row > 0 { AboveLine(d); }
    if d.row + 1 < |d.lines| { BelowLine(d); }
    GapIsFlat(d);
    AllClean(d);
    NewlinesFlat(d.lines);
    hide GapOf, Above, Below, LastLine, FirstLine, LineAbove, LineBelow, Newlines;
  }

  // ----- the refinement -----

  /** A key is refused for the lines exactly when it is for the flat text. */
  lemma RefusedFlat(d: Doc, key: Key)
    requires Valid(d)
    ensures Refused(d, key) <==> FlatRefused(GapOf(d), key)
  {
    GapShows(d);
    hide GapOf, Above, LineAbove, LineBelow, LineStart, LineEnd, Newlines;
  }

  /** Moving the cursor is splitting the same text elsewhere. */
  lemma MoveGap(d: Doc, e: Doc)
    requires Valid(d) && Valid(e) && e.lines == d.lines
    ensures |Above(d.lines, e.row)| + e.column <= |Text(GapOf(d))|
    ensures GapOf(e) == MoveTo(GapOf(d), |Above(d.lines, e.row)| + e.column)
  {
    GapIsFlat(d);
    GapIsFlat(e);
    OwnLine(e);
    hide Above, Below, Flat;
  }

  /** Where each moving key puts the cursor. */
  lemma Targets(d: Doc, g: Gap)
    requires Valid(d) && Shows(d, g) && |Above(d.lines, d.row)| + |Line(d)| <= |Text(g)|
    ensures FlatPress(g, Home) == MoveTo(g, |Above(d.lines, d.row)|)
    ensures FlatPress(g, End) == MoveTo(g, |Above(d.lines, d.row)| + |Line(d)|)
    ensures d.row == 0 ==> FlatPress(g, Up) == g
    ensures d.row + 1 == |d.lines| ==> FlatPress(g, Down) == g
  {
    hide Above, LineAbove, LineBelow, LineStart, LineEnd, Newlines, Text;
  }

  lemma UpTarget(d: Doc, g: Gap)
    requires Valid(d) && Shows(d, g) && d.row > 0
    ensures var pos := |Above(d.lines, d.row - 1)| + Min(d.column, |d.lines[d.row - 1]|);
            pos <= |Text(g)| && FlatPress(g, Up) == MoveTo(g, pos)
  {
    hide Above, LineAbove, LineBelow, LineStart, LineEnd, Newlines;
    AboveNext(d.lines, d.row - 1);
  }

  lemma DownTarget(d: Doc, g: Gap)
    requires Valid(d) && Shows(d, g) && d.row + 1 < |d.lines|
    ensures var pos := |Above(d.lines, d.row + 1)| + Min(d.column, |d.lines[d.row + 1]|);
            pos <= |Text(g)| ==> FlatPress(g, Down) == MoveTo(g, pos)
  {
    hide Above, LineAbove, LineBelow, LineStart, LineEnd, Newlines, Text;
    AboveNext(d.lines, d.row);
  }

  lemma LineMoves(d: Doc, key: Key)
    requires Valid(d) && MovesByLine(key)
    ensures Valid(Press(d, key)) && GapOf(Press(d, key)) == FlatPress(GapOf(d), key)
  {
    hide GapOf, Above, Shows, FlatPress, Text, MoveTo, Fits;
    PressValid(d, key);
    GapShows(d);
    MoveGap(d, Press(d, key));
    MoveGap(d, d.(column := |Line(d)|));
    Targets(d, GapOf(d));
    if d.row > 0 { UpTarget(d, GapOf(d)); }
    if d.row + 1 < |d.lines| { DownTarget(d, GapOf(d)); }
  }

  /** Every key, refused or not, does to the flat text what FlatPress says. */
  lemma PressFlat(d: Doc, key: Key)
    requires Valid(d)
    ensures Valid(Press(d, key)) && GapOf(Press(d, key)) == FlatPress(GapOf(d), key)
  {
    PressValid(d, key);
    RefusedFlat(d, key);
    if Refused(d, key) {
      RefusedKeeps(d, key);
      RightGap(d);
    } else if MovesByLine(key) {
      LineMoves(d, key);
    } else {
      PressEdits(d, key);
    }
    hide GapOf, Refused, FlatRefused, Press, Edit;
  }

  /** The line editor and the flat editor stay together over every run of keys. */
  lemma {:induction false} FlatRun(d: Doc, keys: seq<Key>)
    requires Valid(d)
    ensures GapOf(PressAll(d, keys)) == FlatPressAll(GapOf(d), keys)
  {
    if keys != [] {
      hide GapOf, FlatPress, Press;
      FlatRun(d, keys[..|keys| - 1]);
      PressFlat(PressAll(d, keys[..|keys| - 1]), keys[|keys| - 1]);
    }
  }
}
