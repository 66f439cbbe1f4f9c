/** What the editor shows of any file: its lines, cut to what the screen holds. */
module EditorLoad {
  import opened EditorText

  /** The text cut at its newlines; a last newline is followed by an empty line. */
  function Lines(data: string): (lines: seq<string>)
    ensures |lines| > 0
  {
    if data == "" then [""]
    else
      var before, c := Lines(data[..|data| - 1]), data[|data| - 1];
      if c == '\n' then before + [""] else before[|before| - 1 := before[|before| - 1] + [c]]
  }

  /** They hold no newline, and joined with newlines they are the text again. */
  lemma {:induction false} LinesJoin(data: string)
    ensures Flat(Lines(data)) == data && forall i | 0 <= i < |Lines(data)| :: '\n' !in Lines(data)[i]
  {
    if data != "" {
      var n := |data| - 1;
      var before, c := Lines(data[..n]), data[n];
      LinesJoin(data[..n]);
      var m := |before| - 1;
      if c == '\n' {
        assert (before + [""])[..|before|] == before;
        assert Flat(before + [""]) == Flat(before) + "\n" + "";
      } else {
        assert before[m := before[m] + [c]][..m] == before[..m];
        if m > 0 {
          assert Flat(before) == Flat(before[..m]) + "\n" + before[m];
          assert Flat(before[m := before[m] + [c]]) == Flat(before[..m]) + "\n" + (before[m] + [c]);
        }
      }
      assert data == data[..n] + [c];
    }
  }

  /** The first 79 characters. */
  function Cut(line: string): string { if |line| < 79 then line else line[..79] }

  function CutAll(lines: seq<string>): seq<string> { seq(|lines|, i requires 0 <= i < |lines| => Cut(lines[i])) }

  /** While a file is read: the first 200 finished lines and the line being filled, all cut. */
  lemma {:induction false} LoadingLines(data: string)
    ensures var s, lines := LoadBytes(data), Lines(data); var n := |lines| - 1;
            if n < 200 then s == Loading(CutAll(lines[..n]), Cut(lines[n])) else s == Loading(CutAll(lines[..200]), "")
  {
    if data != "" {
      var k := |data| - 1;
      LoadingLines(data[..k]);
      var before, c := Lines(data[..k]), data[k];
      var n := |before| - 1;
      if n < 200 {
        if c == '\n' {
          assert before + [""] == Lines(data) && (before + [""])[..n + 1] == before;
          assert CutAll(before) == CutAll(before[..n]) + [Cut(before[n])];
        } else {
          var after := before[n := before[n] + [c]];
          assert after[..n] == before[..n];
          assert Cut(before[n] + [c]) == if |Cut(before[n])| < 79 then Cut(before[n]) + [c] else Cut(before[n]);
        }
      } else if c == '\n' {
        assert (before + [""])[..200] == before[..200];
      } else {
        assert before[n := before[n] + [c]][..200] == before[..200];
      }
    }
  }

  /** The lines of a file without the empty one behind its last newline, at most 200 of them. */
  function Kept(data: string): seq<string> {
    var lines := Lines(data);
    var n := |lines| - 1;
    var whole := if lines[n] == "" then lines[..n] else lines;
    if |whole| <= 200 then whole else whole[..200]
  }

  /** The document loaded from any bytes shows of each of the first 200 lines the first 79 characters,
      up to the first NUL among them; an empty file is one empty line. */
  lemma LoadLaw(data: string)
    ensures var kept := Kept(data);
            Loaded(data) == if kept == [] then [""] else seq(|kept|, i requires 0 <= i < |kept| => Shown(Cut(kept[i])))
  {
    LoadingLines(data);
    var s, lines, kept := LoadBytes(data), Lines(data), Kept(data);
    var n := |lines| - 1;
    hide LoadBytes, Lines, Shown;
    if n < 200 && lines[n] != "" {
      assert kept == lines && CutAll(lines) == CutAll(lines[..n]) + [Cut(lines[n])];
    } else if n < 200 {
      assert kept == lines[..n];
    } else {
      assert kept == lines[..200];
    }
    assert LoadedRows(data) == if kept == [] then [""] else CutAll(kept);
    ShownNothing();
  }

  lemma ShownNothing()
    ensures ShownAll([""]) == [""]
  {
  }
}
