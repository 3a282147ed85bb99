# tuapi text buffer and editor state, in Dafny

This project models the editing core of tuapi, a terminal HTTP client. The
main part is the `Input` text buffer that backs the URL bar, the request body
and the form popups. It holds a text and a cursor `(x, y)`: `y` indexes a line
of the text split on `'\n'`, and `x` is a column counted in characters. The
buffer supports cursor moves, typing, Enter and backspace. Typing and
backspace each choose a single-line path or a multi-line path, depending on
whether the text contains a newline.

Around the buffer the model covers:

- the request tabs and screen blocks, with their integer conversions and
  cyclic navigation;
- the form fields and the visible-field selection;
- block focus and response scrolling;
- applying a submitted form to the header map or the query-parameter list;
- the mode and popup transitions of the popup key handler.

Modules (one per source file, plus two helpers):

- `Wrappers`: `Option`. It stands for a value the program unwraps or panics on.
- `Lines`: `Split` and `Join` on the newline character, with the behaviour of
  Rust's `str::split`. The empty text is one empty line. `Split` and `Join`
  are proved mutually inverse.
- `TextInput` (`src/event/input.rs`): the buffer and its operations.
  `InputProperties` holds what those operations do to the buffer's lines.
- `Forms` (`src/app/form.rs`), `AppState` (`src/app/mod.rs`),
  `BlockNavigation` (`src/event/navigation.rs`), `Popup` (`src/event/popup.rs`).

Each Rust method that mutates state becomes a pure function from the old
value to the new one. Where the Rust code would panic, the model has a
precondition: an `unwrap` on a missing value, an index out of range, or a
`u16`/`usize` subtraction below zero. The exception is the two
index-to-enum conversions, which return `None` instead.

Behaviour kept exactly as the code has it, even where a reader would expect
otherwise:

- Backspace at column 0 of line `y > 0` fuses line `y` onto line `y-1`. The
  cursor ends at the END of the fused line, not at the join point. For
  `"ab\ncd"` with the cursor at `(0, 1)`, the result is `"abcd\n"` with the
  cursor at `(4, 0)`, not `"abcd"` at `(2, 0)` (`InputProperties.JoinExample`).
- The multi-line backspace writes every line it does not fuse with a `'\n'`
  after it, so with the cursor on an existing line its result ends in a
  newline. At `(0, 0)` it removes nothing and only appends that newline.
  With the cursor on the row just past the last line, at column 0, it is the
  last line that is written without a newline, and the text comes back
  unchanged (`InputProperties.BackspacePastLastLine`).
- Enter followed by backspace therefore does not restore the buffer. The
  text gains a trailing newline, and the cursor moves to the end of the line
  (`InputProperties.NewlineThenBackspace`).
- Moving left clamps against the character count of the whole text, not of
  the current line.
- The two end-of-line moves differ by one. The single-line move goes to the
  text's length. The multi-line move goes one past the line's length, which
  is outside the buffer invariant.
- `Form` navigation bounds the selected index by the number of VISIBLE
  fields. The popup handler uses that index on ALL fields, hidden ones
  included (`Popup.FormInsertEvent` for every key, `Popup.HiddenFieldExample`
  for a concrete form).
- The block handlers in `src/event/navigation.rs` cycle over blocks 1..4, so
  they never focus the Response block. `Navigation for AppBlock` cycles over
  all five.

## Model

| member | source | states |
|---|---|---|
| Lines.Split | src/event/input.rs:51 | splitting always yields at least one line, and no line contains a newline |
| Lines.SplitCount | src/event/input.rs:51 | the number of lines is the number of newlines plus one |
| Lines.JoinSplit | src/event/input.rs:157-176 | joining the split lines with `'\n'` gives the text back |
| Lines.SplitJoin | src/event/input.rs:157-176 | splitting joined newline-free lines gives the lines back |
| Lines.SingleLine | src/event/input.rs:80 | a text is one line exactly when it has no newline, and that line is the whole text |
| TextInput.DefaultCoordinates | src/app/mod.rs:176-180 | the default cursor `(0, 0)` is a valid position in every text |
| TextInput.MoveLeft | src/event/input.rs:19-27 | `x` drops by one but not below 0, and is clamped to the whole text's char count: a cursor beyond the text lands exactly on that count; `y` and the text are unchanged; at `x = 0` nothing changes |
| TextInput.MoveRight | src/event/input.rs:29-40 | `x` rises by one but never past the cursor line's length, where the line is the whole text if row `y` is missing; a cursor at or beyond the end of the line lands exactly on that length |
| TextInput.MoveUp | src/event/input.rs:42-45 | `y` drops by one but not below 0, and `x` resets to 0 |
| TextInput.MoveDown | src/event/input.rs:47-54 | `x` resets to 0; `y` rises by one but stays below the line count |
| TextInput.MoveToStartOfLine | src/event/input.rs:56-58 | only `x` changes, to 0 |
| TextInput.MoveToEndSingleLine | src/event/input.rs:60-62 | `x` becomes the text's char count, a valid position when the text is one line |
| TextInput.MoveToEndMultiLine | src/event/input.rs:64-77 | `x` becomes the line's length plus one, which is never a valid position |
| TextInput.RemoveCharBeforeCursorSingleLine | src/event/input.rs:87-97 | no change at `x = 0`; otherwise exactly char `x-1` is removed and the cursor moves to `(x-1, y)` |
| TextInput.RemoveCharBeforeCursorMultiLine | src/event/input.rs:99-141 | the cursor never moves down, and with the cursor on an existing line the rebuilt text always ends in `'\n'` (the line-level effect is stated by the `InputProperties.Backspace*` lemmas) |
| TextInput.RemoveCharBeforeCursor | src/event/input.rs:79-85 | on a one-line text: no change at `x = 0`, the row is kept and the text never grows; on several lines with the cursor on an existing line, the text ends in `'\n'` |
| TextInput.AddCharAtCursorSingleLine | src/event/input.rs:151-155 | the char lands at position `x` with the text before and after it unchanged; on a newline-free text the cursor moves to `x+1` for an ordinary char and stays at `x` for `'\n'` on row 0 |
| TextInput.AddCharAtCursorMultiLine | src/event/input.rs:157-180 | an ordinary char is spliced into line `y` only and the cursor moves to `x+1`; with no line at row `y` the text is unchanged |
| TextInput.AddCharAtCursor | src/event/input.rs:143-180 | on a valid buffer, on either path, an ordinary char is spliced into line `y` at column `x`, the other lines stay, and the cursor becomes `(x+1, y)` |
| TextInput.AddNewlineAtCursor | src/event/input.rs:182-187 | the cursor ends at column 0 of an existing line, which is valid whatever the cursor was before, and moves down one row when the new text has a row below |
| InputProperties.AddNewlineCharSplitsLine | src/event/input.rs:143-180 | inserting `'\n'` cuts line `y` at column `x` into two lines and leaves the cursor where it was |
| InputProperties.AddNewlineSplitsLine | src/event/input.rs:182-187 | Enter cuts line `y` at `x`, leaves every other line unchanged, and puts the cursor at `(0, y+1)` |
| InputProperties.BackspaceWithinLine | src/event/input.rs:99-141 | multi-line backspace at `x > 0` removes char `x-1` of line `y` and appends an empty line; the cursor becomes `(x-1, y)` |
| InputProperties.BackspaceJoinsLines | src/event/input.rs:99-141 | multi-line backspace at `(0, y > 0)` fuses lines `y-1` and `y` and appends an empty line; the cursor goes to the end of the fused line on row `y-1` |
| InputProperties.BackspacePastLastLine | src/event/input.rs:99-141 | multi-line backspace at column 0 of the row just past the last line leaves the text unchanged, without a trailing newline, and puts the cursor at the end of the last line |
| InputProperties.BackspaceAtOrigin | src/event/input.rs:99-141 | multi-line backspace at `(0, 0)` changes no line but appends `'\n'` to the text |
| InputProperties.SingleLineInsertThenBackspace | src/event/input.rs:87-155 | on a newline-free text, typing a non-newline char and then backspace restores the text and the cursor |
| InputProperties.SingleLineBackspaceThenInsert | src/event/input.rs:87-155 | on a newline-free text, backspace and then retyping the removed char restores the text and the cursor |
| InputProperties.NewlineThenBackspace | src/event/input.rs:99-187 | Enter then backspace gives the original text plus `'\n'`, with the cursor at the end of the original line |
| InputProperties.MoveLeftRightInverse | src/event/input.rs:19-40 | right undoes left when `x > 0`, and left undoes right when `x` is before the end of the line |
| TextInput.DefaultInput | src/event/input.rs:9-16 | the default buffer has empty text and the cursor at `(0, 0)`, which is valid |
| InputProperties.DefaultInputValid | src/event/input.rs:9-16 | the default buffer is one line, with a valid cursor |
| InputProperties.MovesPreserveValid | src/event/input.rs:19-58 | left, right, up, down and start-of-line keep the cursor on an existing line, at most one past its end |
| InputProperties.AddCharPreservesValid | src/event/input.rs:143-180 | typing any char, newline included, keeps the cursor valid |
| InputProperties.RemovePreservesValid | src/event/input.rs:79-141 | backspace keeps the cursor valid, on both paths and in every case |
| InputProperties.EndOfLineAsymmetry | src/event/input.rs:60-77 | on a one-line buffer the multi-line end position is one past the single-line one, and only the single-line one is valid |
| InputProperties.TypeAtEndExample | src/event/input.rs:151-155 | `"abc"` at `(3,0)` plus `'d'` gives `"abcd"` at `(4,0)` |
| InputProperties.JoinExample | src/event/input.rs:99-141 | `"ab\ncd"` at `(0,1)` after backspace gives `"abcd\n"` at `(4,0)` |
| InputProperties.RightAtEndExample | src/event/input.rs:29-40 | `"hello"` at `(5,0)`: moving right leaves the cursor at `(5,0)` |
| InputProperties.DownOnOneLineExample | src/event/input.rs:47-54 | `"x"` at `(1,0)`: moving down gives `(0,0)` |
| Forms.NewField | src/app/form.rs:14-21 | a new field is shown, keeps its label and name, and has empty text with the cursor at `(0,0)` |
| Forms.WithValue | src/app/form.rs:24-28 | only the buffer's text changes; the cursor and the other attributes stay |
| Forms.Hide | src/app/form.rs:31-35 | only the hidden flag changes, and it becomes true |
| Forms.NewForm | src/app/form.rs:58-65 | a new form has an empty title, the given kind and fields, and field 0 selected |
| Forms.WithTitle | src/app/form.rs:68-72 | only the title changes |
| Forms.VisibleFields | src/app/form.rs:77-83 | the result holds exactly the non-hidden fields, and never more fields than the form has |
| Forms.VisibleFieldsAppend | src/app/form.rs:77-83 | filtering distributes over concatenation, so it keeps the original order |
| Forms.HideRemovesFromVisible | src/app/form.rs:31-83 | hiding field `i` removes exactly that field from the visible ones |
| Forms.NextField | src/app/form.rs:88-95 | only the selection changes, to `(s+1) mod n` over the `n` visible fields |
| Forms.PreviousField | src/app/form.rs:98-105 | only the selection changes: to `(s-1) mod n` over the `n` visible fields, and to `s-1` whenever `s > 0`, even with no visible field |
| Forms.FieldNavigationInverse | src/app/form.rs:86-106 | with at least one visible field, next and previous keep the selection below the visible count and undo each other |
| AppState.MethodName | src/app/mod.rs:25-34 | each method's name is one of `GET`, `POST`, `PUT`, `DELETE` (3 to 6 upper-case letters); with `MethodNameInjective` the four methods map one-to-one onto the four tokens |
| AppState.MethodNameInjective | src/app/mod.rs:25-34 | different methods have different names |
| AppState.TabIndex | src/app/mod.rs:62-72 | a tab's index is below 5 |
| AppState.TabFromIndex | src/app/mod.rs:74-85 | an index gives a tab exactly when it is below 5 (otherwise the source panics), and converts back to the same index |
| AppState.TabIndexRoundTrip | src/app/mod.rs:62-85 | tab to index and index to tab are mutual inverses on 0..4 |
| AppState.NextTab | src/app/mod.rs:88-98 | the next tab's index is `(i+1) mod 5` |
| AppState.PreviousTab | src/app/mod.rs:100-110 | the previous tab's index is `(i-1) mod 5` |
| AppState.TabNavigationInverse | src/app/mod.rs:87-111 | next and previous tab undo each other |
| AppState.BlockIndex | src/app/mod.rs:113-123 | a block's index lies in 1..5 |
| AppState.BlockFromIndex | src/app/mod.rs:125-136 | an index gives a block exactly when it is in 1..5 (otherwise the source panics), and converts back to the same index |
| AppState.BlockIndexRoundTrip | src/app/mod.rs:113-136 | block to index and index to block are a bijection between the five blocks and 1..5 |
| AppState.NextBlock | src/app/mod.rs:139-149 | the next block's index is `i mod 5 + 1`, so 5 wraps to 1 |
| AppState.PreviousBlock | src/app/mod.rs:151-161 | the previous block's index is `(i-2) mod 5 + 1`, so 1 wraps to 5 |
| AppState.BlockNavigationInverse | src/app/mod.rs:138-162 | next and previous block undo each other |
| AppState.DefaultApp | src/app/mod.rs:240-272 | start-up state: Normal mode, no popup, method GET, Body tab, Endpoint focused, the default endpoint at `(0, 0)` and the default (empty, one-line, valid) body, exactly the headers `Content-Type` and `Accept`, both `application/json`, no response, not loading, scroll `(0, 0)` |
| AppState.RequestFromApp | src/app/mod.rs:194-203 | the request copies the method, endpoint text, headers and body text unchanged |
| AppState.RequestIgnoresEditorState | src/app/mod.rs:194-203 | apps that agree on method, headers and texts give the same request, whatever their cursors, mode or popup |
| BlockNavigation.MoveToNextBlock | src/event/navigation.rs:3-13 | only the focus changes; indices below 4 go up by one and the rest go to Method (1), so Response is never reached |
| BlockNavigation.MoveToPreviousBlock | src/event/navigation.rs:15-25 | only the focus changes; indices above 1 go down by one, Method goes to RequestContent (4), and Response is never reached |
| BlockNavigation.BlockMovesInverse | src/event/navigation.rs:3-25 | on the four blocks other than Response, next and previous undo each other |
| BlockNavigation.ScrollUpResponse | src/event/navigation.rs:27-33 | with Response focused the vertical offset rises by 2; nothing else changes, and without Response focused nothing changes at all |
| BlockNavigation.ScrollDownResponse | src/event/navigation.rs:35-49 | with Response focused, 0 and 2 go to 0 and `v > 2` goes to `v-2`; nothing else changes (1 is excluded, as it underflows) |
| BlockNavigation.ScrollDownUndoesScrollUp | src/event/navigation.rs:27-49 | scrolling down undoes scrolling up |
| BlockNavigation.ScrollKeepsEven | src/event/navigation.rs:27-49 | even offsets stay even, so starting from 0, scrolling down never meets the underflowing value 1 |
| Popup.FormValues | src/event/popup.rs:102-106 | every field's name is a key, and every key maps to the text of some field with that name |
| Popup.FormValuesLastWins | src/event/popup.rs:102-106 | a name maps to the text of the LAST field carrying it, as collecting pairs into a `HashMap` keeps the later insert |
| Popup.FormValuesDistinctNames | src/event/popup.rs:102-106 | when names are distinct, each name maps to its own field's text |
| Popup.AddHeaderTo | src/event/popup.rs:122-127 | the header map gains `key`, mapped to `value`; every other header keeps its value |
| Popup.EditHeaderIn | src/event/popup.rs:109-121 | both branches amount to removing `current_key` and then inserting `key := value`; the keys become the old keys minus `current_key` plus `key`; when the keys match it is a plain overwrite |
| Popup.AddQueryParamTo | src/event/popup.rs:129-134 | the list grows by one, the earlier entries are unchanged, and `(key, value)` is last |
| Popup.EditQueryParamAt | src/event/popup.rs:136-141 | only the entry at `selected_query_param` changes, to `(key, value)`; the index must be in range |
| Popup.HandleForms | src/event/popup.rs:101-143 | each form kind is routed to its branch above, header forms leave the query parameters alone and vice versa, and nothing else in the app changes |
| Popup.EditSelectedField | src/event/popup.rs:56-84 | the edit goes to the buffer of `fields[selected]`, counting hidden fields too; every other field is untouched |
| Popup.MethodPopupEvent | src/event/popup.rs:88-95 | only the method and the popup can change: `j`/`k` apply `next`/`previous` to the method, Enter and Esc close the popup, every other key changes nothing |
| Popup.FormNormalEvent | src/event/popup.rs:12-28 | Enter is exactly `handle_forms` followed by closing the popup; any other key changes at most the popup and the mode; `i` enters Insert with the cursor of `fields[selected]` at its end, `j`/`k` move the selection, other keys change nothing |
| Popup.FormInsertEvent | src/event/popup.rs:30-84 | Esc only returns to Normal; Enter is exactly `handle_forms`, closing the popup and ending in Normal mode; every other key changes only the popup, applying its edit to `fields[selected]` (hidden fields included), or for Tab/BackTab moving the selection and going to the end of the newly selected field |
| Popup.HandlePopupEvent | src/event/popup.rs:9-99 | In Insert mode, Esc returns to Normal and keeps the popup open. Enter on a form, in either mode, is exactly `handle_forms` followed by closing the popup, ending in Normal mode. `i` in Normal mode enters Insert. Enter and Esc close the method popup, which otherwise changes at most the method. Any key but Enter on a form changes at most the popup and the mode, and keeps a form of the same kind open |
| Popup.HiddenFieldExample | src/event/popup.rs:77-83 | with a hidden first field, typing in Insert mode edits that hidden field, and two Tab presses cycle back to field 0 without reaching the last field |

## Left out

- Rendering (`src/ui.rs`, `src/ui/*.rs`): ratatui layout and syntect highlighting, which are presentation and foreign library calls.
- `src/main.rs`: terminal setup, the panic hook and the polling event loop, which are I/O.
- `src/request.rs` and `src/input_handling.rs`: blocking HTTP calls and JSON parsing. `input_handling.rs` is also an older version of the key handling.
- `src/event/mod.rs`: an async key dispatcher that sends over a channel and targets a free-function `Input` API from another revision. Its edit effects are the `TextInput` operations.
- `src/app.rs` and `src/cli.rs`: an older `App` definition and command-line parsing.
- `handle_requests` and the request/response channels of `App`, which are concurrency plumbing. `App` keeps every other field.
- `OrderNavigation` for `RequestMethod` is not part of this model. The method popup's `j`/`k` use whatever `next`/`previous` functions are passed to `Popup.HandlePopupEvent`.
- Byte offsets. `String::insert` and `String::remove` take byte offsets while `x` counts characters. Positions are modelled as character positions, which is exact for ASCII text. The panic on a non-character boundary is not modelled.
- `u16` and `usize` overflow: the cursor, the block and tab indices, the field selection, and the upward scroll offset are unbounded `nat`s.
- TextInput.MoveDown: the `lines == 0` guard is not modelled, because a split never yields zero lines.
- TextInput.MoveToEndMultiLine: the `lines == 0` guard is not modelled, for the same reason.
- BlockNavigation.ScrollDownResponse: scrolling down from offset 1 underflows `u16`. This is a precondition, not a modelled wrap-around.
- Forms.NextField: with no visible field, `len() - 1` underflows `usize`. This is a precondition.
- Forms.PreviousField: with no visible field and the selection at 0, `len() - 1` underflows `usize`. This is a precondition. At a selection above 0 the source only decrements, and so does the model.
- Popup.HandleForms: a missing `key`, `value` or `current_key` field, or an out-of-range `selected_query_param`, panics in the source. These are preconditions.
- `App` in `src/app/mod.rs` has no `query_params` or `selected_query_param`, but `src/event/popup.rs` uses them. The model adds them to `App` as a list of pairs and an index.
- The final `_ => {}` arm of `handle_popup_events` is not modelled, because `AppPopup` has only the two variants handled above it.
- Which forms the program builds, and with which fields, is decided by code that is not part of this model.
