/**
  The editable text buffer of `src/event/input.rs`: a text and a cursor
  `(x, y)`, where `y` indexes a line of the text split on newlines and `x` is a
  column in characters. Each mutating method of the Rust `Input` becomes a pure
  function from the old buffer to the new one. Insert and backspace dispatch on
  the line count to a single-line or a multi-line path, as the source does.
 */
module TextInput {
  import opened Lines

  /** The cursor (`Coordinates` in `src/app/mod.rs`); `u16` fields become `nat`. */
  datatype Coordinates = Coordinates(x: nat, y: nat)

  /** The origin, which is a valid cursor position in every text. */
  function DefaultCoordinates(): (c: Coordinates)
    ensures forall text :: Valid(Input(text, c))
  {
    Coordinates(0, 0)
  }

  datatype Input = Input(text: string, cursor: Coordinates)

  /** `Input::default`: empty text, cursor at the origin. */
  function DefaultInput(): (r: Input)
    ensures r.text == [] && r.cursor == Coordinates(0, 0)
    ensures Valid(r)
  {
    Input("", DefaultCoordinates())
  }

  function LineCount(text: string): nat {
    |Split(text)|
  }

  /** The dispatch test of insert and backspace: at most one piece after splitting. */
  predicate IsSingleLine(text: string) {
    LineCount(text) <= 1
  }

  /** The line the cursor is on, or the whole text when row `y` does not exist. */
  function CursorLine(inp: Input): string {
    var lines := Split(inp.text);
    if inp.cursor.y < |lines| then lines[inp.cursor.y] else inp.text
  }

  /** `v.clamp(0, hi)` for a non-negative `v`. */
  function Clamp(v: nat, hi: nat): (r: nat)
    ensures r <= v && r <= hi
    ensures r == v || r == hi
  {
    if v > hi then hi else v
  }

  /** The buffer invariant: the cursor is on an existing line, at most one past its end. */
  predicate Valid(inp: Input) {
    var lines := Split(inp.text);
    inp.cursor.y < |lines| && inp.cursor.x <= |lines[inp.cursor.y]|
  }

  // ---------------------------------------------------------------- cursor moves

  /** Left by one, never below 0, and never past the character count of the WHOLE text. */
  function MoveLeft(inp: Input): (r: Input)
    ensures r.text == inp.text && r.cursor.y == inp.cursor.y
    ensures r.cursor.x <= |inp.text|
    ensures inp.cursor.x == 0 ==> r == inp
    ensures 0 < inp.cursor.x <= |inp.text| + 1 ==> r.cursor.x + 1 == inp.cursor.x
    ensures inp.cursor.x > |inp.text| ==> r.cursor.x == |inp.text|
  {
    var moved := if inp.cursor.x == 0 then 0 else inp.cursor.x - 1;
    inp.(cursor := inp.cursor.(x := Clamp(moved, |inp.text|)))
  }

  /** Right by one, never past the end of the cursor's line. */
  function MoveRight(inp: Input): (r: Input)
    ensures r.text == inp.text && r.cursor.y == inp.cursor.y
    ensures r.cursor.x <= |CursorLine(inp)|
    ensures inp.cursor.x < |CursorLine(inp)| ==> r.cursor.x == inp.cursor.x + 1
    ensures inp.cursor.x == |CursorLine(inp)| ==> r == inp
    ensures inp.cursor.x >= |CursorLine(inp)| ==> r.cursor.x == |CursorLine(inp)|
  {
    inp.(cursor := inp.cursor.(x := Clamp(inp.cursor.x + 1, |CursorLine(inp)|)))
  }

  /** Up one line (not above line 0), always to column 0. */
  function MoveUp(inp: Input): (r: Input)
    ensures r.text == inp.text && r.cursor.x == 0
    ensures inp.cursor.y == 0 ==> r.cursor.y == 0
    ensures inp.cursor.y > 0 ==> r.cursor.y + 1 == inp.cursor.y
  {
    var y := inp.cursor.y - if inp.cursor.y == 0 then 0 else 1;
    Input(inp.text, Coordinates(0, y))
  }

  /** Down one line (not past the last line), always to column 0. */
  function MoveDown(inp: Input): (r: Input)
    ensures r.text == inp.text && r.cursor.x == 0
    ensures r.cursor.y < LineCount(inp.text)
    ensures inp.cursor.y + 1 < LineCount(inp.text) ==> r.cursor.y == inp.cursor.y + 1
    ensures inp.cursor.y + 1 >= LineCount(inp.text) ==> r.cursor.y + 1 == LineCount(inp.text)
  {
    // The source also guards against zero lines; a split never yields zero pieces.
    var lines := LineCount(inp.text);
    Input(inp.text, Coordinates(0, Clamp(inp.cursor.y + 1, lines - 1)))
  }

  function MoveToStartOfLine(inp: Input): (r: Input)
    ensures r.text == inp.text && r.cursor.y == inp.cursor.y && r.cursor.x == 0
  {
    inp.(cursor := inp.cursor.(x := 0))
  }

  /** End of line for single-line buffers: the character count of the whole text. */
  function MoveToEndSingleLine(inp: Input): (r: Input)
    ensures r.text == inp.text && r.cursor.y == inp.cursor.y
    ensures r.cursor.x == |inp.text|
    ensures IsSingleLine(inp.text) && inp.cursor.y == 0 ==> Valid(r) && r.cursor.x == |CursorLine(inp)|
  {
    SingleLine(inp.text);
    inp.(cursor := inp.cursor.(x := |inp.text|))
  }

  /** End of line for multi-line buffers: ONE PAST the length of the cursor's line. */
  function MoveToEndMultiLine(inp: Input): (r: Input)
    ensures r.text == inp.text && r.cursor.y == inp.cursor.y
    ensures r.cursor.x == |CursorLine(inp)| + 1
    ensures !Valid(r)
  {
    // The source adds 1 unless the line count is 0, which a split never yields.
    inp.(cursor := inp.cursor.(x := |CursorLine(inp)| + 1))
  }

  // ---------------------------------------------------------------- backspace

  /** Single-line backspace: nothing at column 0, otherwise the character before the cursor goes. */
  function RemoveCharBeforeCursorSingleLine(inp: Input): (r: Input)
    requires inp.cursor.x <= |inp.text|  // `String::remove` panics past the end
    ensures inp.cursor.x == 0 ==> r == inp
    ensures inp.cursor.x > 0 ==>
      && |r.text| + 1 == |inp.text|
      && r.text[..inp.cursor.x - 1] == inp.text[..inp.cursor.x - 1]
      && r.text[inp.cursor.x - 1..] == inp.text[inp.cursor.x..]
      && r.cursor == Coordinates(inp.cursor.x - 1, inp.cursor.y)
  {
    if inp.cursor.x == 0 then inp
    else MoveLeft(inp.(text := RemoveAt(inp.text, inp.cursor.x - 1)))
  }

  /** What the multi-line backspace may remove from: the cursor's line, when it exists. */
  predicate MultiLineRemovable(lines: seq<string>, c: Coordinates) {
    c.y < |lines| && c.x > 0 ==> c.x <= |lines[c.y]|
  }

  /**
    The text the multi-line backspace emits for line `index`: the line before
    the cursor's line is emitted bare when the cursor is at column 0 (so it
    fuses with the next one); every other line is emitted with a newline
    after it, the cursor's line losing the character before the cursor.
   */
  function BackspacePiece(index: nat, line: string, c: Coordinates): string
    requires index == c.y && c.x > 0 ==> c.x <= |line|
  {
    if index + 1 == c.y && c.x == 0 then line
    else if index != c.y || (c.x == 0 && index == 0) then line + [Newline]
    else if c.x == 0 then line + [Newline]
    else RemoveAt(line, c.x - 1) + [Newline]
  }

  function BackspacePieces(lines: seq<string>, c: Coordinates): (pieces: seq<string>)
    requires MultiLineRemovable(lines, c)
    ensures |pieces| == |lines|
  {
    seq(|lines|, i requires 0 <= i < |lines| => BackspacePiece(i, lines[i], c))
  }

  /**
    Multi-line backspace: rebuild the text piece by piece, then fix up the
    cursor. The last line is always emitted with a newline after it, so when
    the cursor is on an existing line the new text ends in a newline.
   */
  function RemoveCharBeforeCursorMultiLine(inp: Input): (r: Input)
    requires MultiLineRemovable(Split(inp.text), inp.cursor)
    ensures r.cursor.y <= inp.cursor.y
    ensures inp.cursor.y < LineCount(inp.text) ==> |r.text| > 0 && r.text[|r.text| - 1] == Newline
  {
    var lines := Split(inp.text);
    var c := inp.cursor;
    var pieces := BackspacePieces(lines, c);
    BackspaceEndsWithNewline(lines, c);
    var rebuilt := Input(Concat(pieces), c);
    var removedLine := c.x == 0 && 1 <= c.y <= |lines|;
    var joined := if removedLine then MoveToEndMultiLine(MoveUp(rebuilt)) else rebuilt;
    MoveLeft(joined)
  }

  /** The last line is never the bare one, so the rebuilt text ends in a newline. */
  lemma BackspaceEndsWithNewline(lines: seq<string>, c: Coordinates)
    requires |lines| >= 1 && MultiLineRemovable(lines, c)
    ensures var t := Concat(BackspacePieces(lines, c));
            c.y < |lines| ==> |t| > 0 && t[|t| - 1] == Newline
  {
    if c.y < |lines| {
      var pieces := BackspacePieces(lines, c);
      var n := |pieces|;
      ConcatLast(pieces);
      assert pieces[n - 1] == BackspacePiece(n - 1, lines[n - 1], c);
    }
  }

  /** When backspace does not panic: the removal index lies inside the text or line. */
  predicate RemoveDefined(inp: Input) {
    if IsSingleLine(inp.text) then inp.cursor.x <= |inp.text|
    else MultiLineRemovable(Split(inp.text), inp.cursor)
  }

  /** Backspace: on one line a no-op at column 0; on several lines the text ends in a newline. */
  function RemoveCharBeforeCursor(inp: Input): (r: Input)
    requires RemoveDefined(inp)
    ensures r.cursor.y <= inp.cursor.y
    ensures IsSingleLine(inp.text) ==> r.cursor.y == inp.cursor.y && |r.text| <= |inp.text|
    ensures IsSingleLine(inp.text) && inp.cursor.x == 0 ==> r == inp
    ensures !IsSingleLine(inp.text) && inp.cursor.y < LineCount(inp.text) ==>
      |r.text| > 0 && r.text[|r.text| - 1] == Newline
  {
    if IsSingleLine(inp.text) then RemoveCharBeforeCursorSingleLine(inp)
    else RemoveCharBeforeCursorMultiLine(inp)
  }

  // ---------------------------------------------------------------- insertion

  /**
    Single-line insert: the character lands at column `x`. On a newline-free
    text the cursor follows it, unless it was a newline, which leaves the
    cursor at the end of the first of the two new lines.
   */
  function AddCharAtCursorSingleLine(inp: Input, ch: char): (r: Input)
    requires inp.cursor.x <= |inp.text|  // `String::insert` panics past the end
    ensures var x := inp.cursor.x;
            && |r.text| == |inp.text| + 1 && r.text[x] == ch
            && r.text[..x] == inp.text[..x] && r.text[x + 1..] == inp.text[x..]
    ensures r.cursor.y == inp.cursor.y && r.cursor.x <= inp.cursor.x + 1
    ensures NoNewline(inp.text) && ch != Newline ==> Split(r.text) == [r.text] && r.cursor.x == inp.cursor.x + 1
    ensures NoNewline(inp.text) && ch == Newline && inp.cursor.y == 0 ==> r.cursor.x == inp.cursor.x
  {
    var text' := InsertAt(inp.text, inp.cursor.x, ch);
    if NoNewline(inp.text) then
      SplitInsertAt(inp.text, inp.cursor.x, ch);
      MoveRight(inp.(text := text'))
    else
      MoveRight(inp.(text := text'))
  }

  /** Where the multi-line insert may splice: inside the cursor's line, when it exists. */
  predicate MultiLineInsertable(lines: seq<string>, c: Coordinates) {
    c.y < |lines| ==> c.x <= |lines[c.y]|
  }

  /**
    Multi-line insert: splice into the cursor's line only and join the lines
    again. With no line at row `y` the text comes back unchanged.
   */
  function AddCharAtCursorMultiLine(inp: Input, ch: char): (r: Input)
    requires MultiLineInsertable(Split(inp.text), inp.cursor)
    ensures r.cursor.y == inp.cursor.y
    ensures inp.cursor.y >= LineCount(inp.text) ==> r.text == inp.text
    ensures var lines := Split(inp.text);
            var c := inp.cursor;
            c.y < |lines| && ch != Newline ==>
              Split(r.text) == lines[c.y := InsertAt(lines[c.y], c.x, ch)] && r.cursor.x == c.x + 1
  {
    var lines := Split(inp.text);
    var c := inp.cursor;
    JoinSplit(inp.text);
    SplitAfterInsert(lines, c, ch);
    var edited := if c.y < |lines| then lines[c.y := InsertAt(lines[c.y], c.x, ch)] else lines;
    MoveRight(inp.(text := Join(edited)))
  }

  /** Splicing a non-newline character into one line leaves the other lines where they were. */
  lemma SplitAfterInsert(lines: seq<string>, c: Coordinates, ch: char)
    requires |lines| >= 1 && AllNoNewline(lines) && MultiLineInsertable(lines, c)
    ensures c.y < |lines| && ch != Newline ==>
      Split(Join(lines[c.y := InsertAt(lines[c.y], c.x, ch)])) == lines[c.y := InsertAt(lines[c.y], c.x, ch)]
  {
    if c.y < |lines| && ch != Newline {
      var edited := lines[c.y := InsertAt(lines[c.y], c.x, ch)];
      NoNewlineInsertAt(lines[c.y], c.x, ch);
      assert AllNoNewline(edited);
      SplitJoin(edited);
    }
  }

  predicate InsertDefined(inp: Input) {
    if IsSingleLine(inp.text) then inp.cursor.x <= |inp.text|
    else MultiLineInsertable(Split(inp.text), inp.cursor)
  }

  /** Typing a character other than newline splices it into the cursor's line only, on either path. */
  function AddCharAtCursor(inp: Input, ch: char): (r: Input)
    requires InsertDefined(inp)
    ensures r.cursor.y == inp.cursor.y
    ensures Valid(inp) && ch != Newline ==>
      var lines := Split(inp.text);
      var c := inp.cursor;
      Split(r.text) == lines[c.y := InsertAt(lines[c.y], c.x, ch)] && r.cursor == Coordinates(c.x + 1, c.y)
  {
    SingleLine(inp.text);
    if IsSingleLine(inp.text) then AddCharAtCursorSingleLine(inp, ch)
    else AddCharAtCursorMultiLine(inp, ch)
  }

  /**
    A newline is inserted like any character, then the cursor goes to the
    start of the next line if there is one. Column 0 of an existing line is
    always a valid position, whatever the cursor was before.
   */
  function AddNewlineAtCursor(inp: Input): (r: Input)
    requires InsertDefined(inp)
    ensures r.cursor.x == 0 && Valid(r)
    ensures r.cursor.y <= inp.cursor.y + 1
    ensures inp.cursor.y + 1 < LineCount(r.text) ==> r.cursor.y == inp.cursor.y + 1
  {
    MoveDown(MoveToStartOfLine(AddCharAtCursor(inp, Newline)))
  }
}
