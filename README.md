# Guessing game: key-event state machine and guess submission

This project models the input handling of a terminal number-guessing game.
The application has two focus modes. In **Normal** focus the user can press
`e` to start editing or `q` to quit. In **Editing** focus the user types a
guess into a text buffer with a cursor. Enter submits the guess and Esc goes
back to Normal. Submitting parses the buffer as a 32-bit signed integer. A
guess that parses is appended to the list of previous guesses, and the
hidden number minus the guess is appended to the list of deviations. Either
way the buffer is then emptied and the cursor goes back to 0.

Files and modules:

- `wrappers.dfy`, module `Wrappers`: the `Option` datatype.
- `int_parse.dfy`, module `IntParse`: Rust's `str::parse::<i32>` as the
  function `ParseI32`. `FormatI32` is its partner, the decimal notation Rust
  prints for an `i32`. Round-trip lemmas connect the two in both directions.
- `input.dfy`, module `Input`: the event and key datatypes and a `State`
  snapshot of the application.
  - The pure specification is `Dispatch` (one event), `Trace` (a run of
    events), `Submit`, and the four editing functions.
  - The class `App` holds the same state in mutable fields. Its methods
    (`Step`, `Run`, `SubmitAnswer` and the editing helpers) change the
    fields in place. Each method is proved to move its snapshot exactly as
    the specification says.
- `input_properties.dfy`, module `InputProperties`: lemmas about the
  specification.
  - The dispatch table row by row, and what a single event may change.
  - Undo laws for the editing functions.
  - What runs of events preserve: history consistency, append-only lists,
    where quitting can happen, and that non-key events are irrelevant.
  - When the deviation leaves the i32 range.

The code's deviation is `hidden_number - guess`, and the model follows it:
a guess below the hidden number gives a positive deviation.

## Model

| member | source | states |
|---|---|---|
| `IntParse.ParseI32` | src/input.rs:44 | an accepted value always lies in the i32 range |
| `IntParse.ParseAcceptsOnlyLiterals` | src/input.rs:44 | only text of the form optional sign, then one or more ASCII digits, parses |
| `IntParse.ParseRejectsWhitespace` | src/input.rs:44 | text holding a space, tab or line break never parses: no trimming |
| `IntParse.ParseRejectsEmptyAndLoneSign` | src/input.rs:44 | the empty buffer, a lone `+` and a lone `-` are parse errors |
| `IntParse.ParseIgnoresLeadingZero` | src/input.rs:44 | a leading zero after an optional sign is accepted and does not change the result |
| `IntParse.ParseNegativeZero` | src/input.rs:44 | a `-` before one or more zeros is accepted and gives 0, as do the zeros alone |
| `IntParse.ParseIgnoresPlus` | src/input.rs:44 | a leading `+` before digits gives the same result as the digits alone |
| `IntParse.ParseFormat` | src/input.rs:44 | every i32 value parses back from its own decimal notation |
| `IntParse.FormatParse` | src/input.rs:44 | canonical text that parses is exactly the notation of the value it yields |
| `IntParse.ParseBounds` | src/input.rs:44 | 2147483647 and -2147483648 are accepted; 2147483648 and -2147483649 are rejected |
| `Input.InsertChar` | src/input.rs:30 | assumed `enter_char`: the character lands at the cursor, the text around it is kept, the cursor moves past it and stays in bounds |
| `Input.DeleteBefore` | src/input.rs:31 | assumed `delete_char`: nothing at cursor 0; otherwise the character before the cursor is removed, the rest kept, and the cursor steps back |
| `Input.MoveLeft` | src/input.rs:32 | assumed `move_cursor_left`: the buffer is unchanged and the cursor steps left, stopping at 0 |
| `Input.MoveRight` | src/input.rs:33 | assumed `move_cursor_right`: the buffer is unchanged and the cursor steps right, stopping at the end of the buffer |
| `Input.Submit` | src/input.rs:43-54 | on a parse the guess is appended to the guesses and hidden minus guess to the deviations; on an error both lists stay; the buffer is empty, the cursor 0, focus and hidden number unchanged |
| `Input.Dispatch` | src/input.rs:17-38 | the dispatch table as a function of state and event; its own contract keeps the cursor within the buffer; every row is stated by the lemmas NormalEStartsEditing, NormalQQuits, NormalOtherKeysIgnored, EditingIgnoresNonPress, EditingPressRows, EditingEscAndQ and NonKeyIgnored |
| `Input.Trace` | src/input.rs:13-41 | the loop over a run of events, stopping at the first quit; its own contract keeps the cursor within the buffer after any run of edits |
| `Input.App.constructor` | src/main.rs:12 | given an i32 hidden number, a new application is in Normal focus with an empty buffer, cursor 0 and no history |
| `Input.App.EnterChar` | src/input.rs:30 | the fields move exactly as `InsertChar` says |
| `Input.App.DeleteChar` | src/input.rs:31 | the fields move exactly as `DeleteBefore` says |
| `Input.App.MoveCursorLeft` | src/input.rs:32 | the fields move exactly as `MoveLeft` says |
| `Input.App.MoveCursorRight` | src/input.rs:33 | the fields move exactly as `MoveRight` says |
| `Input.App.ResetCursor` | src/input.rs:53 | the cursor is 0 and no other field changes |
| `Input.App.SubmitAnswer` | src/input.rs:43-54 | the guess and hidden-minus-guess are pushed only when the buffer parses; the buffer is then cleared, the cursor reset, focus and hidden number kept; a consistent history stays consistent |
| `Input.App.Step` | src/input.rs:17-38 | the new fields and the quit flag are those `Dispatch` gives for the old fields; the class invariant (cursor in bounds, consistent history) is kept |
| `Input.App.Run` | src/input.rs:13-41 | the loop ends in the state and with the quit flag that `Trace` gives for the event sequence |
| `InputProperties.NormalEStartsEditing` | src/input.rs:19-22 | in Normal focus `e` of any key kind sets Editing focus and changes nothing else |
| `InputProperties.NormalQQuits` | src/input.rs:23-25 | in Normal focus `q` of any key kind ends the loop with the state unchanged |
| `InputProperties.NormalOtherKeysIgnored` | src/input.rs:26 | in Normal focus every other key leaves the state unchanged and the loop running |
| `InputProperties.EditingIgnoresNonPress` | src/input.rs:28-37 | in Editing focus a release or repeat of any key changes nothing |
| `InputProperties.EditingEscAndQ` | src/input.rs:28-35 | in Editing focus an Esc press sets Normal focus only; a `q` press is inserted and does not quit |
| `InputProperties.EditingPressRows` | src/input.rs:28-35 | in Editing focus an Enter press submits, a character press inserts it, Backspace deletes, Left and Right move the cursor, and any other key press is ignored; none of them quits |
| `InputProperties.NonKeyIgnored` | src/input.rs:17 | a non-key event changes nothing and does not end the loop |
| `InputProperties.DispatchFrame` | src/input.rs:17-38 | quitting happens exactly on `q` in Normal focus and keeps the state; focus changes only on Normal `e` or an Editing Esc press; buffer and cursor only on an Editing press of a character, Enter, Backspace, Left or Right; history only on an Editing Enter press; the hidden number never changes |
| `InputProperties.DeleteUndoesInsert` | src/input.rs:30-31 | Backspace after typing a character restores the previous state |
| `InputProperties.MovesUndoEachOther` | src/input.rs:32-33 | away from the boundaries a left move and a right move cancel out |
| `InputProperties.SubmitKeepsHistory` | src/input.rs:44-48 | guesses and deviations stay equal in length, the hidden number and the guesses stay in i32, and each deviation is the hidden number minus its guess; the guesses grow by one exactly when the buffer parses |
| `InputProperties.SubmitTenAgainstFortyTwo` | src/input.rs:43-54 | submitting "10" against hidden number 42 records guess 10 and deviation 32 |
| `InputProperties.SubmitDiscardsNonNumber` | src/input.rs:49-53 | submitting "abc" only clears the buffer and resets the cursor |
| `InputProperties.BackspaceScenario` | src/input.rs:31 | Backspace on "12" with the cursor at 1 leaves "2" with the cursor at 0 |
| `InputProperties.DeviationOverflowIff` | src/input.rs:47 | the i32 subtraction hidden minus guess overflows exactly in the two stated ranges |
| `InputProperties.SubmitMinI32Overflows` | src/input.rs:44-47 | with a non-negative hidden number, submitting "-2147483648" records a deviation outside the i32 range |
| `InputProperties.DispatchKeepsHistory` | src/input.rs:17-38 | one event keeps the history consistent |
| `InputProperties.TraceKeepsHistory` | src/input.rs:13-41 | a run of events keeps the history consistent, keeps the hidden number, and only appends to both lists |
| `InputProperties.TraceAppend` | src/input.rs:14-40 | running two event runs in sequence is running their concatenation, unless the loop returned during the first |
| `InputProperties.TraceQuitOnlyOnNormalQ` | src/input.rs:23-24 | when the loop returns, the focus is Normal, some event of the run was the `q` key, and the events before it left the loop running in exactly the returned state |
| `InputProperties.TraceStaysEditing` | src/input.rs:28-37 | from Editing focus, without an Esc press, the loop never returns and stays in Editing |
| `InputProperties.TraceIgnoresNonKey` | src/input.rs:17 | dropping all non-key events from a run changes neither its final state nor whether it quits |
| `InputProperties.SessionScenario` | src/input.rs:13-54 | a session of e, 1, 0, Enter, Esc and a released q ends with guess 10, deviation 32 and a quit |

## Left out

- Drawing (`terminal.draw`, line 15) only reads the state and is not modelled. A draw error or an `event::read` error (the `?` on lines 15 and 17) would end the loop with `Err`; this is not modelled.
- The event source is a finite sequence of events. When it runs out before a `q` in Normal focus, `Run` returns with `quit` false. The program itself would go on waiting for input.
- Key modifiers are not modelled. The source ignores them, so Ctrl+e counts as `e`. All other key codes become `Other`, and mouse, resize, focus and paste events become `NonKey`.
- IntParse.ParseI32: the error kind of a failed parse (empty, invalid digit, overflow) is not kept, because `submit_answer` discards it.
- Input.InsertChar, Input.DeleteBefore, Input.MoveLeft, Input.MoveRight, Input.App.ResetCursor: the bodies of these `App` helpers are in src/app.rs, which is not part of this model. Their contracts are assumed: character-indexed editing with the cursor kept between 0 and the length of the buffer.
- Input.App.SubmitAnswer, Input.Submit: deviations are unbounded integers. In i32, `hidden_number - guess` overflows in the cases that `DeviationOverflowIff` states; a debug build then panics and a release build wraps. Neither behaviour is modelled. `SubmitMinI32Overflows` shows the overflow is reachable.
- Input.App.constructor: `App::new`, how the hidden number is chosen, and the messages and outcome counters are in src/app.rs. The shown code never touches them. The constructor takes the hidden number as a parameter.
- src/draw.rs (layout, widgets and the floating-point deviation chart) and the terminal setup and restore in src/main.rs are not modelled.
