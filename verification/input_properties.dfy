/**
  What the edits of `TextInput` do to the LINES of the buffer, stated against
  the split of the text before the edit, and the round trips between them.
 */
module InputProperties {
  import opened Lines
  import opened TextInput

  lemma {:induction false} JoinWithEmptyLast(lines: seq<string>)
    requires |lines| >= 1
    ensures Join(lines + [[]]) == Join(lines) + [Newline]
  {
    JoinAppend(lines, [[]]);
  }

  // ---------------------------------------------------------------- insertion

  /** The lines after cutting line `y` of `lines` at column `x`. */
  function CutLine(lines: seq<string>, c: Coordinates): (cut: seq<string>)
    requires c.y < |lines| && c.x <= |lines[c.y]|
    ensures |cut| == |lines| + 1
  {
    lines[..c.y] + [lines[c.y][..c.x], lines[c.y][c.x..]] + lines[c.y + 1..]
  }

  lemma CutLineNoNewline(lines: seq<string>, c: Coordinates)
    requires c.y < |lines| && c.x <= |lines[c.y]| && AllNoNewline(lines)
    ensures AllNoNewline(CutLine(lines, c))
  {
  }

  lemma AddNewlineCharSingleLine(inp: Input)
    requires Valid(inp) && IsSingleLine(inp.text)
    ensures InsertDefined(inp)
    ensures var r := AddCharAtCursor(inp, Newline);
            Split(r.text) == CutLine(Split(inp.text), inp.cursor) && r.cursor == inp.cursor
  {
    var c := inp.cursor;
    SingleLine(inp.text);
    var u, v := inp.text[..c.x], inp.text[c.x..];
    NoNewlineSlices(inp.text, c.x);
    var text' := InsertAt(inp.text, c.x, Newline);
    assert text' == u + [Newline] + v;
    SplitFirstLine(u, v);
    SplitNoNewline(v);
    assert Split(text') == [u, v];
    assert CutLine(Split(inp.text), c) == [u, v];
  }

  lemma AddNewlineCharMultiLine(inp: Input)
    requires Valid(inp) && !IsSingleLine(inp.text)
    ensures InsertDefined(inp)
    ensures var r := AddCharAtCursor(inp, Newline);
            Split(r.text) == CutLine(Split(inp.text), inp.cursor) && r.cursor == inp.cursor
  {
    var lines := Split(inp.text);
    var c := inp.cursor;
    var line := lines[c.y];
    var u, v := line[..c.x], line[c.x..];
    var before, after := lines[..c.y], lines[c.y + 1..];
    var edited := lines[c.y := InsertAt(line, c.x, Newline)];
    assert edited == before + [u + [Newline] + v] + after;
    JoinSplice(before, u, v, after);
    CutLineNoNewline(lines, c);
    SplitJoin(CutLine(lines, c));
    var r := AddCharAtCursorMultiLine(inp, Newline);
    assert Split(r.text) == CutLine(lines, c);
  }

  /** Inserting a newline character cuts the cursor's line in two at the cursor column. */
  lemma AddNewlineCharSplitsLine(inp: Input)
    requires Valid(inp)
    ensures InsertDefined(inp)
    ensures var r := AddCharAtCursor(inp, Newline);
            Split(r.text) == CutLine(Split(inp.text), inp.cursor) && r.cursor == inp.cursor
  {
    if IsSingleLine(inp.text) {
      AddNewlineCharSingleLine(inp);
    } else {
      AddNewlineCharMultiLine(inp);
    }
  }

  /** Enter splits the cursor's line at the cursor and moves to the start of the second half. */
  lemma AddNewlineSplitsLine(inp: Input)
    requires Valid(inp)
    ensures InsertDefined(inp)
    ensures var lines := Split(inp.text);
            var c := inp.cursor;
            var line := lines[c.y];
            var r := AddNewlineAtCursor(inp);
            && Split(r.text) == lines[..c.y] + [line[..c.x], line[c.x..]] + lines[c.y + 1..]
            && r.cursor == Coordinates(0, c.y + 1)
  {
    AddNewlineCharSplitsLine(inp);
  }

  // ---------------------------------------------------------------- backspace

  /** Multi-line backspace inside a line removes the character before the cursor and appends an empty line. */
  lemma BackspaceWithinLine(inp: Input)
    requires Valid(inp) && !IsSingleLine(inp.text) && inp.cursor.x > 0
    ensures RemoveDefined(inp)
    ensures var lines := Split(inp.text);
            var c := inp.cursor;
            var r := RemoveCharBeforeCursor(inp);
            && Split(r.text) == lines[c.y := RemoveAt(lines[c.y], c.x - 1)] + [[]]
            && r.text == Join(lines[c.y := RemoveAt(lines[c.y], c.x - 1)]) + [Newline]
            && r.cursor == Coordinates(c.x - 1, c.y)
  {
    var lines := Split(inp.text);
    var c := inp.cursor;
    var edited := lines[c.y := RemoveAt(lines[c.y], c.x - 1)];
    var pieces := BackspacePieces(lines, c);
    assert pieces == Terminated(edited);
    ConcatTerminated(edited);
    NoNewlineRemoveAt(lines[c.y], c.x - 1);
    assert AllNoNewline(edited + [[]]);
    SplitJoin(edited + [[]]);
    JoinWithEmptyLast(edited);
    LineWithinJoin(edited + [[]], c.y);
  }

  /** The lines after fusing line `y` onto line `y-1`. */
  function FuseLine(lines: seq<string>, y: nat): (fused: seq<string>)
    requires 0 < y < |lines|
    ensures |fused| + 1 == |lines|
  {
    lines[..y - 1] + [lines[y - 1] + lines[y]] + lines[y + 1..]
  }

  lemma FuseLineNoNewline(lines: seq<string>, y: nat)
    requires 0 < y < |lines| && AllNoNewline(lines)
    ensures AllNoNewline(FuseLine(lines, y) + [[]])
  {
  }

  /** The pieces emitted by a backspace at column 0 of line `y > 0`: line `y-1` bare, every other line terminated. */
  lemma FusedPiecesShape(lines: seq<string>, c: Coordinates)
    requires c.x == 0 && 0 < c.y < |lines|
    ensures MultiLineRemovable(lines, c)
    ensures BackspacePieces(lines, c)
      == Terminated(lines[..c.y - 1]) + [lines[c.y - 1], lines[c.y] + [Newline]] + Terminated(lines[c.y + 1..])
  {
    var y := c.y;
    var pieces := BackspacePieces(lines, c);
    var fused := Terminated(lines[..y - 1]) + [lines[y - 1], lines[y] + [Newline]] + Terminated(lines[y + 1..]);
    forall i | 0 <= i < |pieces| ensures pieces[i] == fused[i] {
      if i < y - 1 {
        assert fused[i] == Terminated(lines[..y - 1])[i];
      } else if y < i {
        assert fused[i] == Terminated(lines[y + 1..])[i - y - 1];
      }
    }
  }

  /** Terminating the fused lines: the fused line is terminated like every other. */
  lemma FusedTerminated(lines: seq<string>, y: nat)
    requires 0 < y < |lines|
    ensures Terminated(FuseLine(lines, y))
      == Terminated(lines[..y - 1]) + [lines[y - 1] + lines[y] + [Newline]] + Terminated(lines[y + 1..])
  {
    var edited := FuseLine(lines, y);
    var terminated := Terminated(lines[..y - 1]) + [lines[y - 1] + lines[y] + [Newline]] + Terminated(lines[y + 1..]);
    forall i | 0 <= i < |edited| ensures Terminated(edited)[i] == terminated[i] {
      if i < y - 1 {
        assert terminated[i] == Terminated(lines[..y - 1])[i];
      } else if y - 1 < i {
        assert terminated[i] == Terminated(lines[y + 1..])[i - y];
      }
    }
  }

  /** The pieces emitted by a backspace at column 0 of line `y > 0`, laid end to end. */
  lemma FusedPieces(lines: seq<string>, c: Coordinates)
    requires c.x == 0 && 0 < c.y < |lines|
    ensures MultiLineRemovable(lines, c)
    ensures Concat(BackspacePieces(lines, c)) == Join(FuseLine(lines, c.y) + [[]])
  {
    var y := c.y;
    var before, after := Terminated(lines[..y - 1]), Terminated(lines[y + 1..]);
    var merged := lines[y - 1] + lines[y];
    FusedPiecesShape(lines, c);
    FusedTerminated(lines, y);
    ConcatAround(before, [lines[y - 1], lines[y] + [Newline]], after);
    ConcatPair(lines[y - 1], lines[y] + [Newline]);
    ConcatAround(before, [merged + [Newline]], after);
    ConcatSingle(merged + [Newline]);
    ConcatTerminated(FuseLine(lines, y));
  }

  /** Multi-line backspace at column 0 of line `y > 0` fuses it onto line `y-1`; the cursor lands at the END of the fused line. */
  lemma BackspaceJoinsLines(inp: Input)
    requires Valid(inp) && !IsSingleLine(inp.text) && inp.cursor.x == 0 && inp.cursor.y > 0
    ensures RemoveDefined(inp)
    ensures var lines := Split(inp.text);
            var y := inp.cursor.y;
            var r := RemoveCharBeforeCursor(inp);
            && Split(r.text) == FuseLine(lines, y) + [[]]
            && r.text == Join(FuseLine(lines, y)) + [Newline]
            && r.cursor == Coordinates(|lines[y - 1]| + |lines[y]|, y - 1)
  {
    var lines := Split(inp.text);
    var y := inp.cursor.y;
    var edited := FuseLine(lines, y);
    FusedPieces(lines, inp.cursor);
    var text' := Concat(BackspacePieces(lines, inp.cursor));
    FuseLineNoNewline(lines, y);
    SplitJoin(edited + [[]]);
    JoinWithEmptyLast(edited);
    assert Split(text') == edited + [[]];
    assert Split(text')[y - 1] == lines[y - 1] + lines[y];
    LineWithinJoin(edited + [[]], y - 1);
    var up := MoveUp(Input(text', inp.cursor));
    assert up.cursor == Coordinates(0, y - 1);
    var end := MoveToEndMultiLine(up);
    assert end.cursor.x == |lines[y - 1]| + |lines[y]| + 1;
  }

  /** Multi-line backspace at the very start removes nothing but still appends a newline. */
  lemma BackspaceAtOrigin(inp: Input)
    requires Valid(inp) && !IsSingleLine(inp.text) && inp.cursor == Coordinates(0, 0)
    ensures RemoveDefined(inp)
    ensures RemoveCharBeforeCursor(inp) == Input(inp.text + [Newline], inp.cursor)
  {
    var lines := Split(inp.text);
    assert BackspacePieces(lines, inp.cursor) == Terminated(lines);
    ConcatTerminated(lines);
    JoinWithEmptyLast(lines);
    JoinSplit(inp.text);
  }

  /**
    Multi-line backspace at column 0 of the row just past the last line: the
    last line is the one emitted bare, so the text comes back unchanged and the
    cursor goes to the end of the last line.
   */
  lemma BackspacePastLastLine(inp: Input)
    requires !IsSingleLine(inp.text) && inp.cursor == Coordinates(0, LineCount(inp.text))
    ensures RemoveDefined(inp)
    ensures var lines := Split(inp.text);
            RemoveCharBeforeCursor(inp) == Input(inp.text, Coordinates(|lines[|lines| - 1]|, |lines| - 1))
  {
    var lines := Split(inp.text);
    var n := |lines|;
    var init := lines[..n - 1];
    var pieces := BackspacePieces(lines, inp.cursor);
    assert pieces == Terminated(init) + [lines[n - 1]] by {
      forall i | 0 <= i < n ensures pieces[i] == (Terminated(init) + [lines[n - 1]])[i] {
        if i < n - 1 {
          assert (Terminated(init) + [lines[n - 1]])[i] == Terminated(init)[i];
        }
      }
    }
    ConcatAppend(Terminated(init), [lines[n - 1]]);
    ConcatSingle(lines[n - 1]);
    ConcatTerminated(init);
    JoinWithEmptyLast(init);
    JoinAppend(init, [lines[n - 1]]);
    assert init + [lines[n - 1]] == lines;
    JoinSplit(inp.text);
    LineWithinJoin(lines, n - 1);
  }

  // ---------------------------------------------------------------- round trips

  /** On a newline-free text, typing a character and deleting it restores text and cursor. */
  lemma SingleLineInsertThenBackspace(inp: Input, ch: char)
    requires NoNewline(inp.text) && inp.cursor.x <= |inp.text| && ch != Newline
    ensures InsertDefined(inp)
    ensures RemoveDefined(AddCharAtCursor(inp, ch))
    ensures RemoveCharBeforeCursor(AddCharAtCursor(inp, ch)) == inp
  {
    SingleLine(inp.text);
    var text' := InsertAt(inp.text, inp.cursor.x, ch);
    NoNewlineInsertAt(inp.text, inp.cursor.x, ch);
    SingleLine(text');
    RemoveAtInsertAt(inp.text, inp.cursor.x, ch);
  }

  /** On a newline-free text, deleting a character and typing it again restores text and cursor. */
  lemma SingleLineBackspaceThenInsert(inp: Input)
    requires NoNewline(inp.text) && 0 < inp.cursor.x <= |inp.text|
    ensures RemoveDefined(inp)
    ensures InsertDefined(RemoveCharBeforeCursor(inp))
    ensures AddCharAtCursor(RemoveCharBeforeCursor(inp), inp.text[inp.cursor.x - 1]) == inp
  {
    SingleLine(inp.text);
    var text' := RemoveAt(inp.text, inp.cursor.x - 1);
    NoNewlineRemoveAt(inp.text, inp.cursor.x - 1);
    SingleLine(text');
    InsertAtRemoveAt(inp.text, inp.cursor.x - 1);
    SingleLine(inp.text);
  }

  /** Fusing the two halves of a cut line gives the lines before the cut. */
  lemma FuseCutLine(lines: seq<string>, c: Coordinates)
    requires c.y < |lines| && c.x <= |lines[c.y]|
    ensures FuseLine(CutLine(lines, c), c.y + 1) == lines
  {
    var cut := CutLine(lines, c);
    assert cut[..c.y] == lines[..c.y];
    assert cut[c.y + 2..] == lines[c.y + 1..];
    assert cut[c.y] + cut[c.y + 1] == lines[c.y];
  }

  /**
    Enter followed by backspace is NOT a round trip: the lines are fused again,
    but the text gains a trailing newline and the cursor ends at the end of the
    line instead of where Enter was pressed.
   */
  lemma NewlineThenBackspace(inp: Input)
    requires Valid(inp)
    ensures InsertDefined(inp)
    ensures RemoveDefined(AddNewlineAtCursor(inp))
    ensures var y := inp.cursor.y;
            RemoveCharBeforeCursor(AddNewlineAtCursor(inp))
              == Input(inp.text + [Newline], Coordinates(|Split(inp.text)[y]|, y))
  {
    var lines := Split(inp.text);
    var c := inp.cursor;
    AddNewlineSplitsLine(inp);
    var mid := AddNewlineAtCursor(inp);
    var cut := CutLine(lines, c);
    assert Split(mid.text) == cut;
    assert Valid(mid) && !IsSingleLine(mid.text);
    BackspaceJoinsLines(mid);
    FuseCutLine(lines, c);
    JoinSplit(inp.text);
    assert |cut[c.y]| + |cut[c.y + 1]| == |lines[c.y]|;
  }

  /** Right undoes left away from column 0, and left undoes right before the end of the line. */
  lemma MoveLeftRightInverse(inp: Input)
    requires Valid(inp)
    ensures inp.cursor.x > 0 ==> MoveRight(MoveLeft(inp)) == inp
    ensures inp.cursor.x < |Split(inp.text)[inp.cursor.y]| ==> MoveLeft(MoveRight(inp)) == inp
  {
    LineWithinJoin(Split(inp.text), inp.cursor.y);
    JoinSplit(inp.text);
  }

  // ---------------------------------------------------------------- the buffer invariant

  lemma DefaultInputValid()
    ensures Valid(DefaultInput()) && IsSingleLine(DefaultInput().text)
  {
  }

  /** Every move except the two end-of-line moves keeps the cursor on the text. */
  lemma MovesPreserveValid(inp: Input)
    requires Valid(inp)
    ensures Valid(MoveLeft(inp)) && Valid(MoveRight(inp))
    ensures Valid(MoveUp(inp)) && Valid(MoveDown(inp)) && Valid(MoveToStartOfLine(inp))
  {
  }

  /** Typing any character, newline included, keeps the cursor on the text. */
  lemma AddCharPreservesValid(inp: Input, ch: char)
    requires Valid(inp)
    ensures InsertDefined(inp)
    ensures Valid(AddCharAtCursor(inp, ch))
  {
    if ch == Newline {
      AddNewlineCharSplitsLine(inp);
    } else {
      SingleLine(inp.text);
    }
  }

  /** Backspace, on either path and in every case, keeps the cursor on the text. */
  lemma RemovePreservesValid(inp: Input)
    requires Valid(inp)
    ensures RemoveDefined(inp)
    ensures Valid(RemoveCharBeforeCursor(inp))
  {
    var c := inp.cursor;
    SingleLine(inp.text);
    if IsSingleLine(inp.text) {
      SingleLineRemoveValid(inp);
    } else if c.x > 0 {
      BackspaceWithinLine(inp);
    } else if c.y > 0 {
      BackspaceJoinsLines(inp);
    } else {
      BackspaceAtOrigin(inp);
      SplitWithTrailingNewline(inp.text);
    }
  }

  lemma SingleLineRemoveValid(inp: Input)
    requires Valid(inp) && NoNewline(inp.text)
    ensures inp.cursor.x <= |inp.text|
    ensures Valid(RemoveCharBeforeCursorSingleLine(inp))
  {
    var c := inp.cursor;
    SingleLine(inp.text);
    if c.x > 0 {
      NoNewlineRemoveAt(inp.text, c.x - 1);
      SingleLine(RemoveAt(inp.text, c.x - 1));
    }
  }

  /** A trailing newline adds one empty last line. */
  lemma SplitWithTrailingNewline(s: string)
    ensures Split(s + [Newline]) == Split(s) + [[]]
  {
    var lines := Split(s);
    JoinWithEmptyLast(lines);
    JoinSplit(s);
    assert AllNoNewline(lines + [[]]);
    SplitJoin(lines + [[]]);
  }

  /** The two end-of-line moves disagree by one column on a one-line buffer. */
  lemma EndOfLineAsymmetry(inp: Input)
    requires IsSingleLine(inp.text) && inp.cursor.y == 0
    ensures MoveToEndMultiLine(inp).cursor.x == MoveToEndSingleLine(inp).cursor.x + 1
    ensures Valid(MoveToEndSingleLine(inp)) && !Valid(MoveToEndMultiLine(inp))
  {
  }

  // ---------------------------------------------------------------- worked cases

  /** Typing at the end of a one-line buffer appends and advances the cursor. */
  lemma TypeAtEndExample()
    ensures AddCharAtCursor(Input("abc", Coordinates(3, 0)), 'd') == Input("abcd", Coordinates(4, 0))
  {
    SingleLineInsertThenBackspace(Input("abc", Coordinates(3, 0)), 'd');
    assert InsertAt("abc", 3, 'd') == "abcd";
    SingleLine("abcd");
  }

  /** Backspace at the start of the second line: the fused line ends in a newline and the cursor goes to its end. */
  lemma JoinExample()
    ensures RemoveCharBeforeCursor(Input("ab\ncd", Coordinates(0, 1))) == Input("abcd\n", Coordinates(4, 0))
  {
    var inp := Input("ab\ncd", Coordinates(0, 1));
    assert inp.text == "ab" + [Newline] + "cd";
    SplitFirstLine("ab", "cd");
    SplitNoNewline("cd");
    assert Split(inp.text) == ["ab", "cd"];
    BackspaceJoinsLines(inp);
    var lines: seq<string> := ["ab", "cd"];
    assert lines[..0] == [] && lines[2..] == [];
    assert "ab" + "cd" == "abcd";
    assert FuseLine(lines, 1) == ["abcd"];
  }

  /** Moving right at the end of a one-line buffer does nothing. */
  lemma RightAtEndExample()
    ensures MoveRight(Input("hello", Coordinates(5, 0))) == Input("hello", Coordinates(5, 0))
  {
    SingleLine("hello");
  }

  /** Moving down on a one-line buffer only resets the column. */
  lemma DownOnOneLineExample()
    ensures MoveDown(Input("x", Coordinates(1, 0))) == Input("x", Coordinates(0, 0))
  {
    SingleLine("x");
  }
}
