/** Properties of the event state machine: the dispatch table one row at a
    time, what a single event may change, what a whole run of events keeps,
    and the arithmetic of the recorded deviations. */
module InputProperties {
  import opened Wrappers
  import opened IntParse
  import opened Input

  // ---------------------------------------------------------------------
  // The dispatch table

  /** In Normal focus `e` opens the editor, whatever the key kind, and
      changes nothing else. */
  lemma NormalEStartsEditing(s: State, kind: KeyKind)
    requires CursorInBounds(s) && s.focus == Normal
    ensures Dispatch(s, Key(Char('e'), kind)) == Outcome(s.(focus := Editing), false)
  {
  }

  /** In Normal focus `q` ends the loop, whatever the key kind, and leaves
      the state as it was. */
  lemma NormalQQuits(s: State, kind: KeyKind)
    requires CursorInBounds(s) && s.focus == Normal
    ensures Dispatch(s, Key(Char('q'), kind)) == Outcome(s, true)
  {
  }

  /** In Normal focus every other key is ignored. */
  lemma NormalOtherKeysIgnored(s: State, code: KeyCode, kind: KeyKind)
    requires CursorInBounds(s) && s.focus == Normal
    requires code != Char('e') && code != Char('q')
    ensures Dispatch(s, Key(code, kind)) == Outcome(s, false)
  {
  }

  /** In Editing focus a release or repeat is ignored, whatever the key. */
  lemma EditingIgnoresNonPress(s: State, code: KeyCode, kind: KeyKind)
    requires CursorInBounds(s) && s.focus == Editing && kind != Press
    ensures Dispatch(s, Key(code, kind)) == Outcome(s, false)
  {
  }

  /** In Editing focus Esc returns to Normal, and `q` is typed into the
      buffer instead of quitting. */
  lemma EditingEscAndQ(s: State)
    requires CursorInBounds(s) && s.focus == Editing
    ensures Dispatch(s, Key(Esc, Press)) == Outcome(s.(focus := Normal), false)
    ensures Dispatch(s, Key(Char('q'), Press)) == Outcome(InsertChar(s, 'q'), false)
  {
  }

  /** In Editing focus each press does what its row says: Enter submits, a
      character is inserted, Backspace deletes, the arrows move, and any
      other key is ignored. */
  lemma EditingPressRows(s: State, c: char)
    requires CursorInBounds(s) && s.focus == Editing
    ensures Dispatch(s, Key(Enter, Press)) == Outcome(Submit(s), false)
    ensures Dispatch(s, Key(Char(c), Press)) == Outcome(InsertChar(s, c), false)
    ensures Dispatch(s, Key(Backspace, Press)) == Outcome(DeleteBefore(s), false)
    ensures Dispatch(s, Key(Left, Press)) == Outcome(MoveLeft(s), false)
    ensures Dispatch(s, Key(Right, Press)) == Outcome(MoveRight(s), false)
    ensures Dispatch(s, Key(Other, Press)) == Outcome(s, false)
  {
  }

  /** An event that is not a key event changes nothing and does not end the loop. */
  lemma NonKeyIgnored(s: State)
    requires CursorInBounds(s)
    ensures Dispatch(s, NonKey) == Outcome(s, false)
  {
  }

  /** What one event can change, and on which event: the loop returns only
      on `q` in Normal focus and then leaves the state alone; the focus
      changes only on `e` in Normal focus or an Esc press in Editing focus;
      the buffer and cursor change only on a press of a character, Enter,
      Backspace, Left or Right in Editing focus; the history
      changes only on an Enter press in Editing focus; the hidden number
      never changes. */
  lemma DispatchFrame(s: State, ev: Event)
    requires CursorInBounds(s)
    ensures var o := Dispatch(s, ev);
      o.state.hiddenNumber == s.hiddenNumber &&
      (o.quit <==> s.focus == Normal && ev.Key? && ev.code == Char('q')) &&
      (o.quit ==> o.state == s) &&
      (o.state.focus != s.focus ==>
        (s.focus == Normal && ev.Key? && ev.code == Char('e')) ||
        (s.focus == Editing && ev == Key(Esc, Press))) &&
      ((o.state.input, o.state.cursor) != (s.input, s.cursor) ==>
        s.focus == Editing && ev.Key? && ev.kind == Press &&
        (ev.code.Char? || ev.code in {Enter, Backspace, Left, Right})) &&
      ((o.state.previousGuesses, o.state.deviations) != (s.previousGuesses, s.deviations) ==>
        s.focus == Editing && ev == Key(Enter, Press))
  {
  }

  // ---------------------------------------------------------------------
  // The editing helpers undo each other

  lemma DeleteUndoesInsert(s: State, c: char)
    requires CursorInBounds(s)
    ensures DeleteBefore(InsertChar(s, c)) == s
  {
    var t := InsertChar(s, c);
    assert t.input[..s.cursor] + t.input[s.cursor + 1..] == s.input;
  }

  lemma MovesUndoEachOther(s: State)
    requires CursorInBounds(s)
    ensures s.cursor > 0 ==> MoveRight(MoveLeft(s)) == s
    ensures s.cursor < |s.input| ==> MoveLeft(MoveRight(s)) == s
  {
  }

  // ---------------------------------------------------------------------
  // Submission

  /** Every submission keeps the history consistent with the hidden number:
      the lists grow together, by at most one entry each. */
  lemma SubmitKeepsHistory(s: State)
    requires HistoryConsistent(s)
    ensures HistoryConsistent(Submit(s))
    ensures |Submit(s).previousGuesses| == |s.previousGuesses| + (if ParseI32(s.input).Some? then 1 else 0)
  {
    var t := Submit(s);
    if ParseI32(s.input).Some? {
      var g := ParseI32(s.input).value;
      assert forall i :: 0 <= i < |s.previousGuesses| ==> t.previousGuesses[i] == s.previousGuesses[i];
      assert t.previousGuesses[|s.previousGuesses|] == g;
    }
  }

  /** Submitting "10" against the hidden number 42 records the guess 10 and
      the deviation 42 - 10 = 32; in Normal focus as in Editing, the focus
      stays. */
  lemma SubmitTenAgainstFortyTwo(f: Focus)
    ensures Submit(State(f, "10", 2, [], [], 42)) == State(f, [], 0, [10], [32], 42)
  {
    DigitsValueSnoc("1", '0');
    assert "1" + ['0'] == "10";
    assert Magnitude("10") == "10";
  }

  /** Text that is not a number is discarded and only the buffer is cleared. */
  lemma SubmitDiscardsNonNumber(s: State)
    requires s.input == "abc"
    ensures Submit(s) == s.(input := [], cursor := 0)
  {
    assert !IsDigit(s.input[0]);
  }

  /** Backspace with the cursor between "1" and "2" leaves "2" and the
      cursor at the start. */
  lemma BackspaceScenario(s: State)
    requires s.focus == Editing && s.input == "12" && s.cursor == 1
    ensures Dispatch(s, Key(Backspace, Press)).state == s.(input := "2", cursor := 0)
  {
    assert s.input[..0] + s.input[1..] == "2";
  }

  // ---------------------------------------------------------------------
  // Deviations and 32-bit overflow

  /** The subtraction `hidden_number - guess` leaves the i32 range exactly
      in these cases. */
  lemma DeviationOverflowIff(h: int, g: int)
    requires InI32(h) && InI32(g)
    ensures !InI32(h - g) <==>
      (h >= 0 && g <= h - 0x8000_0000) || (h <= -2 && g >= h + 0x8000_0001)
  {
  }

  /** The overflow is reachable: with a non-negative hidden number, typing
      the smallest i32 and pressing Enter records a deviation outside i32. */
  lemma SubmitMinI32Overflows(s: State)
    requires s.input == "-2147483648" && s.hiddenNumber >= 0
    ensures |Submit(s).deviations| == |s.deviations| + 1
    ensures !InI32(Submit(s).deviations[|s.deviations|])
  {
    ParseBounds();
  }

  // ---------------------------------------------------------------------
  // Runs of events

  /** One event keeps the history consistent. */
  lemma DispatchKeepsHistory(s: State, ev: Event)
    requires CursorInBounds(s) && HistoryConsistent(s)
    ensures HistoryConsistent(Dispatch(s, ev).state)
  {
    var t := Dispatch(s, ev).state;
    DispatchFrame(s, ev);
    if s.focus == Editing && ev == Key(Enter, Press) {
      SubmitKeepsHistory(s);
      assert t == Submit(s);
    } else {
      assert (t.previousGuesses, t.deviations, t.hiddenNumber) ==
             (s.previousGuesses, s.deviations, s.hiddenNumber);
    }
  }

  /** A run of events keeps the history consistent, never changes the
      hidden number, and only appends to the two lists. */
  lemma {:induction false} TraceKeepsHistory(s: State, evs: seq<Event>)
    requires CursorInBounds(s) && HistoryConsistent(s)
    ensures var t := Trace(s, evs).state;
      HistoryConsistent(t) && t.hiddenNumber == s.hiddenNumber &&
      s.previousGuesses <= t.previousGuesses && s.deviations <= t.deviations
    decreases |evs|
  {
    if evs != [] {
      var first := Dispatch(s, evs[0]);
      DispatchKeepsHistory(s, evs[0]);
      DispatchFrame(s, evs[0]);
      if !first.quit {
        TraceKeepsHistory(first.state, evs[1..]);
      }
    }
  }

  /** Handling `a` and then `b` is handling `a + b`, unless the loop already
      returned during `a`. */
  lemma {:induction false} TraceAppend(s: State, a: seq<Event>, b: seq<Event>)
    requires CursorInBounds(s)
    ensures var o := Trace(s, a);
      Trace(s, a + b) == if o.quit then o else Trace(o.state, b)
    decreases |a|
  {
    if a == [] {
      assert a + b == b;
    } else {
      assert (a + b)[0] == a[0] && (a + b)[1..] == a[1..] + b;
      var first := Dispatch(s, a[0]);
      if !first.quit {
        TraceAppend(first.state, a[1..], b);
      }
    }
  }

  /** The loop returns only in Normal focus and only on a `q` key; the
      events before that key leave the loop running, in exactly the state
      the loop returns with. */
  lemma {:induction false} TraceQuitOnlyOnNormalQ(s: State, evs: seq<Event>)
    requires CursorInBounds(s)
    ensures Trace(s, evs).quit ==>
      Trace(s, evs).state.focus == Normal &&
      exists i :: 0 <= i < |evs| && evs[i].Key? && evs[i].code == Char('q') &&
        Trace(s, evs[..i]) == Outcome(Trace(s, evs).state, false)
    decreases |evs|
  {
    if evs != [] && Trace(s, evs).quit {
      var first := Dispatch(s, evs[0]);
      DispatchFrame(s, evs[0]);
      if first.quit {
        assert evs[..0] == [];
      } else {
        var rest := evs[1..];
        TraceQuitOnlyOnNormalQ(first.state, rest);
        var i :| 0 <= i < |rest| && rest[i].Key? && rest[i].code == Char('q') &&
          Trace(first.state, rest[..i]) == Outcome(Trace(first.state, rest).state, false);
        assert evs[i + 1] == rest[i];
        assert evs[..i + 1][0] == evs[0] && evs[..i + 1][1..] == rest[..i];
      }
    }
  }

  /** Without an Esc press the loop cannot leave Editing focus, so it never
      returns, whatever keys are typed (`q` included). */
  lemma {:induction false} TraceStaysEditing(s: State, evs: seq<Event>)
    requires CursorInBounds(s) && s.focus == Editing
    requires forall i :: 0 <= i < |evs| ==> evs[i] != Key(Esc, Press)
    ensures !Trace(s, evs).quit && Trace(s, evs).state.focus == Editing
    decreases |evs|
  {
    if evs != [] {
      DispatchFrame(s, evs[0]);
      var first := Dispatch(s, evs[0]);
      assert forall i :: 0 <= i < |evs[1..]| ==> evs[1..][i] == evs[i + 1];
      TraceStaysEditing(first.state, evs[1..]);
    }
  }

  /** The events that are key events, in order. */
  function KeyEvents(evs: seq<Event>): (r: seq<Event>)
    ensures forall i :: 0 <= i < |r| ==> r[i].Key?
    ensures |r| <= |evs|
  {
    if evs == [] then []
    else if evs[0].NonKey? then KeyEvents(evs[1..])
    else [evs[0]] + KeyEvents(evs[1..])
  }

  /** Non-key events can be dropped from any run without changing its outcome. */
  lemma {:induction false} TraceIgnoresNonKey(s: State, evs: seq<Event>)
    requires CursorInBounds(s)
    ensures Trace(s, evs) == Trace(s, KeyEvents(evs))
    decreases |evs|
  {
    if evs != [] {
      var first := Dispatch(s, evs[0]);
      if evs[0].NonKey? {
        TraceIgnoresNonKey(s, evs[1..]);
      } else {
        var k := [evs[0]] + KeyEvents(evs[1..]);
        assert k[0] == evs[0] && k[1..] == KeyEvents(evs[1..]);
        if !first.quit {
          TraceIgnoresNonKey(first.state, evs[1..]);
        }
      }
    }
  }

  /** A whole session: open the editor, type "10", submit, leave the
      editor, and let go of `q`. A key release counts in Normal focus. */
  lemma SessionScenario()
    ensures Trace(State(Normal, [], 0, [], [], 42),
      [Key(Char('e'), Press), Key(Char('e'), Release), Key(Char('1'), Press),
       Key(Char('0'), Press), Key(Enter, Press), Key(Esc, Press), Key(Char('q'), Release)])
      == Outcome(State(Normal, [], 0, [10], [32], 42), true)
  {
    var s0 := State(Normal, [], 0, [], [], 42);
    var s1 := s0.(focus := Editing);
    var s2 := s1.(input := "1", cursor := 1);
    var s3 := s1.(input := "10", cursor := 2);
    assert s2.input[..1] + ['0'] + s2.input[1..] == "10";
    SubmitTenAgainstFortyTwo(Editing);
    var s4 := State(Editing, [], 0, [10], [32], 42);
    var s5 := s4.(focus := Normal);
    assert Trace(s5, [Key(Char('q'), Release)]) == Outcome(s5, true);
    assert Trace(s4, [Key(Esc, Press), Key(Char('q'), Release)]) == Outcome(s5, true);
    assert Trace(s3, [Key(Enter, Press), Key(Esc, Press), Key(Char('q'), Release)]) == Outcome(s5, true);
    assert Trace(s2, [Key(Char('0'), Press), Key(Enter, Press), Key(Esc, Press), Key(Char('q'), Release)]) == Outcome(s5, true);
    assert Trace(s1, [Key(Char('1'), Press), Key(Char('0'), Press), Key(Enter, Press), Key(Esc, Press), Key(Char('q'), Release)]) == Outcome(s5, true);
    assert Trace(s1, [Key(Char('e'), Release), Key(Char('1'), Press), Key(Char('0'), Press), Key(Enter, Press), Key(Esc, Press), Key(Char('q'), Release)]) == Outcome(s5, true);
  }
}
