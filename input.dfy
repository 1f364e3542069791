/** The key-event state machine of the guessing game: the two focus modes,
    the dispatch of one event in each mode, the submission of a guess, and
    the loop that feeds events to the dispatcher until the user quits.

    The pure functions (`Dispatch`, `Trace`, `Submit` and the editing
    functions) are the specification; the class `App` holds the same state
    as mutable fields and its methods are proved to follow it. */
module Input {
  import opened Wrappers
  import opened IntParse

  datatype Focus = Normal | Editing

  /** The key codes the game distinguishes; all others are `Other`. */
  datatype KeyCode = Char(c: char) | Enter | Backspace | Left | Right | Esc | Other

  datatype KeyKind = Press | Release | Repeat

  /** A terminal event: a key event, or anything else (mouse, resize, focus, paste). */
  datatype Event = Key(code: KeyCode, kind: KeyKind) | NonKey

  /** A snapshot of the fields of the application that the loop reads or writes. */
  datatype State = State(
    focus: Focus,
    input: string,
    cursor: nat,
    previousGuesses: seq<int>,
    deviations: seq<int>,
    hiddenNumber: int)

  /** The result of handling one event, or a run of events: the new state,
      and whether the loop returned. */
  datatype Outcome = Outcome(state: State, quit: bool)

  /** The cursor is a character offset into the buffer; the editing
      helpers are assumed to keep it there. */
  predicate CursorInBounds(s: State) {
    s.cursor <= |s.input|
  }

  /** The hidden number and the guesses are i32 values, and every deviation
      is the hidden number minus the guess at the same position. */
  predicate HistoryConsistent(s: State) {
    InI32(s.hiddenNumber) &&
    |s.previousGuesses| == |s.deviations| &&
    (forall i :: 0 <= i < |s.previousGuesses| ==> InI32(s.previousGuesses[i])) &&
    forall i :: 0 <= i < |s.deviations| ==>
      s.deviations[i] == s.hiddenNumber - s.previousGuesses[i]
  }

  // ---------------------------------------------------------------------
  // Editing helpers. Their bodies are not part of this model; these are
  // the assumed character-indexed semantics.

  /** `enter_char`: insert `c` at the cursor and move the cursor past it. */
  function InsertChar(s: State, c: char): (t: State)
    requires CursorInBounds(s)
    ensures CursorInBounds(t) && t.(input := s.input, cursor := s.cursor) == s
    ensures t.cursor == s.cursor + 1 && |t.input| == |s.input| + 1 && t.input[s.cursor] == c
    ensures t.input[..s.cursor] == s.input[..s.cursor]
    ensures t.input[t.cursor..] == s.input[s.cursor..]
  {
    s.(input := s.input[..s.cursor] + [c] + s.input[s.cursor..], cursor := s.cursor + 1)
  }

  /** `delete_char`: remove the character before the cursor, if there is one. */
  function DeleteBefore(s: State): (t: State)
    requires CursorInBounds(s)
    ensures CursorInBounds(t) && t.(input := s.input, cursor := s.cursor) == s
    ensures s.cursor == 0 ==> t == s
    ensures s.cursor > 0 ==>
      t.cursor == s.cursor - 1 && |t.input| == |s.input| - 1 &&
      t.input[..t.cursor] == s.input[..t.cursor] &&
      t.input[t.cursor..] == s.input[s.cursor..]
  {
    if s.cursor == 0 then s
    else s.(input := s.input[..s.cursor - 1] + s.input[s.cursor..], cursor := s.cursor - 1)
  }

  /** `move_cursor_left`: one character to the left, stopping at 0. */
  function MoveLeft(s: State): (t: State)
    requires CursorInBounds(s)
    ensures CursorInBounds(t) && t.(cursor := s.cursor) == s
    ensures t.cursor == if s.cursor == 0 then 0 else s.cursor - 1
  {
    if s.cursor == 0 then s else s.(cursor := s.cursor - 1)
  }

  /** `move_cursor_right`: one character to the right, stopping at the end. */
  function MoveRight(s: State): (t: State)
    requires CursorInBounds(s)
    ensures CursorInBounds(t) && t.(cursor := s.cursor) == s
    ensures t.cursor == if s.cursor == |s.input| then s.cursor else s.cursor + 1
  {
    if s.cursor == |s.input| then s else s.(cursor := s.cursor + 1)
  }

  // ---------------------------------------------------------------------
  // Submission, dispatch and the loop

  /** `submit_answer`: record a guess that parses as an i32, then empty the
      buffer and put the cursor at its start. */
  function Submit(s: State): (t: State)
    ensures t.input == [] && t.cursor == 0
    ensures t.focus == s.focus && t.hiddenNumber == s.hiddenNumber
    ensures ParseI32(s.input).None? ==>
      t.previousGuesses == s.previousGuesses && t.deviations == s.deviations
    ensures ParseI32(s.input).Some? ==>
      var g := ParseI32(s.input).value;
      t.previousGuesses == s.previousGuesses + [g] &&
      t.deviations == s.deviations + [s.hiddenNumber - g]
  {
    var recorded :=
      match ParseI32(s.input)
      case Some(g) =>
        s.(previousGuesses := s.previousGuesses + [g],
           deviations := s.deviations + [s.hiddenNumber - g])
      case None => s;
    recorded.(input := [], cursor := 0)
  }

  /** One pass of the loop body, after the screen is drawn: handle one event. */
  function Dispatch(s: State, ev: Event): (o: Outcome)
    requires CursorInBounds(s)
    ensures CursorInBounds(o.state)
  {
    match ev
    case NonKey => Outcome(s, false)
    case Key(code, kind) =>
      match s.focus
      case Normal =>
        if code == Char('e') then Outcome(s.(focus := Editing), false)
        else if code == Char('q') then Outcome(s, true)
        else Outcome(s, false)
      case Editing =>
        if kind != Press then Outcome(s, false)
        else
          match code
          case Enter => Outcome(Submit(s), false)
          case Char(c) => Outcome(InsertChar(s, c), false)
          case Backspace => Outcome(DeleteBefore(s), false)
          case Left => Outcome(MoveLeft(s), false)
          case Right => Outcome(MoveRight(s), false)
          case Esc => Outcome(s.(focus := Normal), false)
          case Other => Outcome(s, false)
  }

  /** The loop over a finite run of events: handle them in order and stop at
      the first one that makes the loop return. If none does, the loop is
      still running when the events run out (`quit` is false). */
  function Trace(s: State, evs: seq<Event>): (o: Outcome)
    requires CursorInBounds(s)
    ensures CursorInBounds(o.state)
    decreases |evs|
  {
    if evs == [] then Outcome(s, false)
    else
      var first := Dispatch(s, evs[0]);
      if first.quit then first else Trace(first.state, evs[1..])
  }

  // ---------------------------------------------------------------------
  // The application object

  class App {
    var focus: Focus
    var input: string
    var cursor: nat
    var previousGuesses: seq<int>
    var deviations: seq<int>
    var hiddenNumber: int

    function Snapshot(): State
      reads this
    {
      State(focus, input, cursor, previousGuesses, deviations, hiddenNumber)
    }

    /** The class invariant: the cursor is within the buffer, and the
        history is consistent with the hidden number. */
    predicate Valid()
      reads this
    {
      CursorInBounds(Snapshot()) && HistoryConsistent(Snapshot())
    }

    /** A fresh application: Normal focus, an empty buffer and no history. */
    constructor (hidden: int)
      requires InI32(hidden)
      ensures Valid()
      ensures Snapshot() == State(Normal, [], 0, [], [], hidden)
    {
      focus := Normal;
      input := [];
      cursor := 0;
      previousGuesses := [];
      deviations := [];
      hiddenNumber := hidden;
    }

    method EnterChar(c: char)
      requires Valid()
      modifies this
      ensures Valid() && Snapshot() == InsertChar(old(Snapshot()), c)
    {
      input := input[..cursor] + [c] + input[cursor..];
      cursor := cursor + 1;
    }

    method DeleteChar()
      requires Valid()
      modifies this
      ensures Valid() && Snapshot() == DeleteBefore(old(Snapshot()))
    {
      if cursor > 0 {
        input := input[..cursor - 1] + input[cursor..];
        cursor := cursor - 1;
      }
    }

    method MoveCursorLeft()
      requires Valid()
      modifies this
      ensures Valid() && Snapshot() == MoveLeft(old(Snapshot()))
    {
      if cursor > 0 {
        cursor := cursor - 1;
      }
    }

    method MoveCursorRight()
      requires Valid()
      modifies this
      ensures Valid() && Snapshot() == MoveRight(old(Snapshot()))
    {
      if cursor < |input| {
        cursor := cursor + 1;
      }
    }

    /** `reset_cursor`: the cursor goes back to the start of the buffer. */
    method ResetCursor()
      modifies this`cursor
      ensures cursor == 0 && CursorInBounds(Snapshot())
    {
      cursor := 0;
    }

    /** `submit_answer`: on a successful parse the guess and the hidden
        number minus the guess are appended; in every case the buffer is
        emptied and the cursor reset. Nothing else changes. */
    method SubmitAnswer()
      modifies this
      ensures CursorInBounds(Snapshot())
      ensures old(HistoryConsistent(Snapshot())) ==> HistoryConsistent(Snapshot())
      ensures input == [] && cursor == 0
      ensures focus == old(focus) && hiddenNumber == old(hiddenNumber)
      ensures match ParseI32(old(input))
        case Some(g) =>
          previousGuesses == old(previousGuesses) + [g] &&
          deviations == old(deviations) + [old(hiddenNumber) - g]
        case None =>
          previousGuesses == old(previousGuesses) && deviations == old(deviations)
      ensures Snapshot() == Submit(old(Snapshot()))
    {
      match ParseI32(input) {
        case Some(guess) =>
          previousGuesses := previousGuesses + [guess];
          deviations := deviations + [hiddenNumber - guess];
        case None =>
      }
      input := [];
      ResetCursor();
    }

    /** One event: the body of the loop after drawing. `quit` is true when
        the loop returns `Ok`. */
    method Step(ev: Event) returns (quit: bool)
      requires Valid()
      modifies this
      ensures Valid()
      ensures Outcome(Snapshot(), quit) == Dispatch(old(Snapshot()), ev)
    {
      quit := false;
      match ev
      case NonKey =>
      case Key(code, kind) =>
        match focus
        case Normal =>
          if code == Char('e') {
            focus := Editing;
          } else if code == Char('q') {
            quit := true;
          }
        case Editing =>
          if kind == Press {
            match code
            case Enter => SubmitAnswer();
            case Char(c) => EnterChar(c);
            case Backspace => DeleteChar();
            case Left => MoveCursorLeft();
            case Right => MoveCursorRight();
            case Esc => focus := Normal;
            case Other =>
          }
    }

    /** The event loop over a finite run of events. Drawing reads the state
        and changes nothing, so it is left out. */
    method Run(events: seq<Event>) returns (quit: bool)
      requires Valid()
      modifies this
      ensures Valid()
      ensures Outcome(Snapshot(), quit) == Trace(old(Snapshot()), events)
    {
      quit := false;
      var i := 0;
      while i < |events| && !quit
        invariant 0 <= i <= |events|
        invariant Valid()
        invariant !quit ==> Trace(old(Snapshot()), events) == Trace(Snapshot(), events[i..])
        invariant quit ==> Trace(old(Snapshot()), events) == Outcome(Snapshot(), true)
        decreases |events| - i
      {
        assert events[i..][0] == events[i] && events[i..][1..] == events[i + 1..];
        quit := Step(events[i]);
        i := i + 1;
      }
    }
  }
}
