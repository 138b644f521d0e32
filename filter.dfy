/**
 * The read/rewrite loop of `fix_virtual_weight.py` as a state machine.
 *
 * Lines outside an `<event>` ... `</event>` record are copied to the output
 * at once. Lines of a record are buffered; inside its `<weights>` or
 * `<rwgt>` block the first non-marker line is captured as the virtual
 * weight. When `</event>` arrives, the record's second line (the event
 * header) gets that weight as its field 2 (XWGTUP) and the whole record is
 * written. Three conditions stop the run with an error.
 *
 * `Step` is one pass of the loop body and `Run` folds it over the input;
 * the method `Rewrite` is the loop itself, over the same local variables as
 * the script, and is proved to produce exactly what `Run` describes.
 */
module Filter {
  import opened Wrappers
  import opened Text
  import opened Fields

  const EventOpen: string := "<event>"
  const EventClose: string := "</event>"
  const WeightsOpen: string := "<weights>"
  const WeightsClose: string := "</weights>"
  const RwgtOpen: string := "<rwgt>"
  const RwgtClose: string := "</rwgt>"

  /** A line as `readline` returns it before the end of the input: never empty. */
  type Line = s: string | s != "" witness "\n"

  /** Why a run stops; the script raises `ValueError` or, for a short header, `IndexError`. */
  datatype FormatError =
    | WeightsNotClosed
    | MalformedLine(event: nat, text: string)
    | NoVirtualWeight(event: nat)
    | HeaderTooShort

  /** The verbose message: event number, old field 2 and the weight replacing it. */
  datatype Diagnostic = Diagnostic(event: nat, oldWeight: string, newWeight: string)

  /** The script's loop variables. */
  datatype State = State(
    numEvents: nat,
    inEvent: bool,
    inWeights: bool,
    virtualWeight: Option<string>,
    currentEvent: seq<string>)

  const Initial: State := State(0, false, false, None, [])

  /** Inside a record the buffer holds at least the `<event>` line. */
  predicate Valid(st: State) {
    st.inEvent ==> |st.currentEvent| >= 1
  }

  predicate ClosesWeights(line: string) {
    StartsWith(line, WeightsClose) || StartsWith(line, RwgtClose)
  }

  predicate OpensWeights(line: string) {
    StartsWith(line, WeightsOpen) || StartsWith(line, RwgtOpen)
  }

  /** The lines tested, in this order, before a line counts as content. */
  predicate IsMarker(line: string) {
    StartsWith(line, EventClose) || ClosesWeights(line) || OpensWeights(line)
  }

  /** A record line that is captured as the virtual weight. */
  predicate Captures(st: State, line: string) {
    st.inWeights && st.virtualWeight.None? && !IsMarker(line)
  }

  /** A line starting with `<event>` is no marker. */
  lemma EventOpenIsNoMarker(line: string)
    ensures StartsWith(line, EventOpen) ==> !IsMarker(line)
  {
    if StartsWith(line, EventOpen) {
      assert line[1] == 'e';
    }
  }

  /** A line starting with `<event>` resets the record variables and counts one more event. */
  function Enter(st: State, line: string): (s: State)
    ensures StartsWith(line, EventOpen) ==> s == State(st.numEvents + 1, true, false, None, [])
    ensures !StartsWith(line, EventOpen) ==> s == st
  {
    if StartsWith(line, EventOpen) then State(st.numEvents + 1, true, false, None, []) else st
  }

  /**
   * A line inside a record: the marker tests, the weight capture and the
   * append to the buffer, or the error the line raises.
   */
  function Track(st: State, line: string): (r: Result<State, FormatError>)
    requires st.inEvent
    ensures r.Err? <==> (StartsWith(line, EventClose) && st.inWeights) ||
                        (Captures(st, line) && ExtractWeight(line).None?)
    ensures StartsWith(line, EventClose) && st.inWeights ==> r == Err(WeightsNotClosed)
    ensures Captures(st, line) && ExtractWeight(line).None? ==>
              r == Err(MalformedLine(st.numEvents, Strip(line)))
    ensures r.Ok? ==> r.value.numEvents == st.numEvents &&
                      r.value.currentEvent == st.currentEvent + [line]
    ensures r.Ok? ==> (r.value.inEvent <==> !StartsWith(line, EventClose))
    ensures r.Ok? && Captures(st, line) ==> r.value.virtualWeight == ExtractWeight(line)
    ensures r.Ok? && !Captures(st, line) ==> r.value.virtualWeight == st.virtualWeight
    ensures r.Ok? && !StartsWith(line, EventClose) && ClosesWeights(line) ==> !r.value.inWeights
    ensures r.Ok? && !StartsWith(line, EventClose) && !ClosesWeights(line) && OpensWeights(line) ==> r.value.inWeights
    ensures r.Ok? && !IsMarker(line) ==> r.value.inWeights == st.inWeights
  {
    var buffered := st.currentEvent + [line];
    if StartsWith(line, EventClose) then
      if st.inWeights then Err(WeightsNotClosed)
      else Ok(st.(inEvent := false, currentEvent := buffered))
    else if ClosesWeights(line) then
      Ok(st.(inWeights := false, currentEvent := buffered))
    else if OpensWeights(line) then
      Ok(st.(inWeights := true, currentEvent := buffered))
    else if st.inWeights && st.virtualWeight.None? then
      match ExtractWeight(line)
      case None => Err(MalformedLine(st.numEvents, Strip(line)))
      case Some(w) => Ok(st.(virtualWeight := Some(w), currentEvent := buffered))
    else
      Ok(st.(currentEvent := buffered))
  }

  /** One pass of the loop body: the new state and what it writes and logs, or the error. */
  datatype Transition =
    | Next(next: State, written: seq<string>, log: seq<Diagnostic>)
    | Abort(error: FormatError)

  /**
   * A record whose `</event>` line has just been buffered: its header line
   * (index 1) rewritten and the whole buffer written, or the error.
   */
  function Close(st: State, verbose: bool): (t: Transition)
    requires |st.currentEvent| >= 2
    ensures t.Abort? <==> st.virtualWeight.None? || |Tokens(st.currentEvent[1])| < 3
    ensures st.virtualWeight.None? ==> t == Abort(NoVirtualWeight(st.numEvents))
    ensures st.virtualWeight.Some? && |Tokens(st.currentEvent[1])| < 3 ==>
              t == Abort(HeaderTooShort)
    ensures t.Next? ==>
              var w := st.virtualWeight.value;
              |t.written| == |st.currentEvent| &&
              t.written[1] == RewriteHeader(st.currentEvent[1], w).value &&
              (forall i :: 0 <= i < |t.written| && i != 1 ==> t.written[i] == st.currentEvent[i]) &&
              t.log == (if verbose then [Diagnostic(st.numEvents, Tokens(st.currentEvent[1])[2], w)] else []) &&
              t.next == st.(currentEvent := t.written)
  {
    match st.virtualWeight
    case None => Abort(NoVirtualWeight(st.numEvents))
    case Some(w) =>
      var fields := HeaderFields(st.currentEvent[1]);
      match RewriteHeader(st.currentEvent[1], w)
      case None => Abort(HeaderTooShort)
      case Some(header) =>
        var record := st.currentEvent[1 := header];
        var log := if verbose then [Diagnostic(st.numEvents, fields[2], w)] else [];
        Next(st.(currentEvent := record), record, log)
  }

  /** One line of input. */
  function Step(st: State, line: Line, verbose: bool): (t: Transition)
    requires Valid(st)
    ensures t.Next? ==> Valid(t.next)
    ensures StartsWith(line, EventOpen) ==>
              t == Next(State(st.numEvents + 1, true, false, None, [line]), [], [])
    ensures !st.inEvent && !StartsWith(line, EventOpen) ==> t == Next(st, [line], [])
    ensures t.Next? ==> t.next.numEvents == st.numEvents + (if StartsWith(line, EventOpen) then 1 else 0)
    ensures st.inEvent && !StartsWith(line, EventOpen) && !StartsWith(line, EventClose) ==>
              match t
              case Abort(e) => e == MalformedLine(st.numEvents, Strip(line))
              case Next(next, written, log) =>
                written == [] && log == [] && next.inEvent &&
                next.currentEvent == st.currentEvent + [line]
    ensures st.inEvent && StartsWith(line, EventClose) ==>
              if st.inWeights then t == Abort(WeightsNotClosed)
              else t == Close(st.(inEvent := false, currentEvent := st.currentEvent + [line]), verbose)
  {
    var entered := Enter(st, line);
    EventOpenIsNoMarker(line);
    assert StartsWith(line, EventOpen) ==> entered.currentEvent + [line] == [line];
    if !entered.inEvent then Next(entered, [line], [])
    else
      match Track(entered, line)
      case Err(e) => Abort(e)
      case Ok(tracked) =>
        if tracked.inEvent then Next(tracked, [], []) else Close(tracked, verbose)
  }

  /**
   * What a run over some lines produces: the lines written, the verbose
   * messages, the error that stopped it if any, and the state it stopped in
   * (before the failing line, after an error).
   */
  datatype Outcome = Outcome(
    written: seq<string>,
    log: seq<Diagnostic>,
    error: Option<FormatError>,
    final: State)

  /** What one step wrote and logged, ahead of the rest of the run. */
  function Emit(written: seq<string>, log: seq<Diagnostic>, rest: Outcome): Outcome {
    rest.(written := written + rest.written, log := log + rest.log)
  }

  /** The loop over all lines from state `st`. */
  function Run(st: State, lines: seq<Line>, verbose: bool): (o: Outcome)
    requires Valid(st)
    ensures Valid(o.final)
    ensures lines == [] ==> o == Outcome([], [], None, st)
    decreases |lines|
  {
    if lines == [] then Outcome([], [], None, st)
    else
      match Step(st, lines[0], verbose)
      case Abort(e) => Outcome([], [], Some(e), st)
      case Next(next, written, log) => Emit(written, log, Run(next, lines[1..], verbose))
  }

  /** Outside a record a line is written as it is. */
  lemma StepOutside(st: State, line: Line, verbose: bool)
    requires Valid(st) && !Enter(st, line).inEvent
    ensures Step(st, line, verbose) == Next(Enter(st, line), [line], [])
  {
  }

  /** Inside a record a line is tracked, and closes the record when it ends it. */
  lemma StepTracked(st: State, line: Line, verbose: bool, tracked: State)
    requires Valid(st) && Enter(st, line).inEvent
    requires Track(Enter(st, line), line) == Ok(tracked)
    ensures tracked.inEvent ==> Step(st, line, verbose) == Next(tracked, [], [])
    ensures !tracked.inEvent ==> |tracked.currentEvent| >= 2 && Step(st, line, verbose) == Close(tracked, verbose)
  {
    EventOpenIsNoMarker(line);
  }

  /** A record that closes with a weight and a long enough header is written with field 2 replaced. */
  lemma CloseRewrites(st: State, verbose: bool)
    requires |st.currentEvent| >= 2 && st.virtualWeight.Some?
    requires |HeaderFields(st.currentEvent[1])| >= 3
    ensures var fields := HeaderFields(st.currentEvent[1]);
      var w := st.virtualWeight.value;
      var record := st.currentEvent[1 := Join(fields[2 := w], " ") + "\n"];
      Close(st, verbose) ==
        Next(st.(currentEvent := record), record, if verbose then [Diagnostic(st.numEvents, fields[2], w)] else [])
  {
  }

  /** A line that `Track` rejects stops the run with the same error. */
  lemma StepTrackFails(st: State, line: Line, verbose: bool, e: FormatError)
    requires Valid(st) && Enter(st, line).inEvent
    requires Track(Enter(st, line), line) == Err(e)
    ensures Step(st, line, verbose) == Abort(e)
  {
  }

  /** A run that stops at its first line. */
  lemma RunAbort(st: State, lines: seq<Line>, verbose: bool, e: FormatError)
    requires Valid(st) && lines != [] && Step(st, lines[0], verbose) == Abort(e)
    ensures Run(st, lines, verbose) == Outcome([], [], Some(e), st)
  {
  }

  /** A run that goes past its first line: what that line wrote, then the rest. */
  lemma RunNext(st: State, lines: seq<Line>, verbose: bool, out: seq<string>, log: seq<Diagnostic>,
                next: State, written: seq<string>, logged: seq<Diagnostic>)
    requires Valid(st) && lines != [] && Step(st, lines[0], verbose) == Next(next, written, logged)
    ensures Emit(out + written, log + logged, Run(next, lines[1..], verbose)) == Emit(out, log, Run(st, lines, verbose))
  {
    var rest := Run(next, lines[1..], verbose);
    assert Run(st, lines, verbose) == Emit(written, logged, rest);
    EmitTwice(out, log, written, logged, rest);
  }

  lemma EmitTwice(out: seq<string>, log: seq<Diagnostic>, written: seq<string>, logged: seq<Diagnostic>, rest: Outcome)
    ensures Emit(out + written, log + logged, rest) == Emit(out, log, Emit(written, logged, rest))
  {
    assert out + written + rest.written == out + (written + rest.written);
    assert log + logged + rest.log == log + (logged + rest.log);
  }

  /**
   * One pass of the script's loop body (lines 41-111), over its local
   * variables: the state after the line, the lines it writes and the
   * verbose message it prints, or the error it raises.
   */
  method ProcessLine(st: State, line: Line, verbose: bool)
    returns (next: State, written: seq<string>, logged: seq<Diagnostic>, err: Option<FormatError>)
    requires Valid(st)
    ensures err.Some? ==> Step(st, line, verbose) == Abort(err.value)
    ensures err.None? ==> Step(st, line, verbose) == Next(next, written, logged)
  {
    var numEvents, inEvent, inWeights := st.numEvents, st.inEvent, st.inWeights;
    var virtualWeight, currentEvent := st.virtualWeight, st.currentEvent;
    next, written, logged, err := st, [], [], None;
    if StartsWith(line, EventOpen) {
      inEvent := true;
      inWeights := false;
      virtualWeight := None;
      currentEvent := [];
      numEvents := numEvents + 1;
    }
    ghost var entered := State(numEvents, inEvent, inWeights, virtualWeight, currentEvent);
    assert entered == Enter(st, line);
    if inEvent {
      if StartsWith(line, EventClose) {
        if inWeights {
          err := Some(WeightsNotClosed);
          StepTrackFails(st, line, verbose, err.value);
          return;
        }
        inEvent := false;
      } else if ClosesWeights(line) {
        inWeights := false;
      } else if OpensWeights(line) {
        inWeights := true;
      } else if inWeights {
        if virtualWeight.None? {
          var captured := ExtractWeight(line);
          if captured.None? {
            err := Some(MalformedLine(numEvents, Strip(line)));
            assert Captures(entered, line);
            StepTrackFails(st, line, verbose, err.value);
            return;
          }
          virtualWeight := captured;
        }
      }
      currentEvent := currentEvent + [line];
      ghost var tracked := State(numEvents, inEvent, inWeights, virtualWeight, currentEvent);
      assert Track(entered, line) == Ok(tracked);
      StepTracked(st, line, verbose, tracked);
      if !inEvent {
        if virtualWeight.None? {
          err := Some(NoVirtualWeight(numEvents));
          return;
        }
        var fields := HeaderFields(currentEvent[1]);
        if |fields| < 3 {
          err := Some(HeaderTooShort);
          return;
        }
        if verbose {
          logged := [Diagnostic(numEvents, fields[2], virtualWeight.value)];
        }
        CloseRewrites(tracked, verbose);
        fields := fields[2 := virtualWeight.value];
        currentEvent := currentEvent[1 := Join(fields, " ") + "\n"];
        written := currentEvent;
      }
    } else {
      written := [line];
      StepOutside(st, line, verbose);
    }
    next := State(numEvents, inEvent, inWeights, virtualWeight, currentEvent);
  }

  /**
   * The script's loop over the input lines. The first error stops it,
   * leaving what was already written; the lines of a record still open at
   * the end of the input are never written.
   */
  method Rewrite(lines: seq<Line>, verbose: bool)
    returns (out: seq<string>, log: seq<Diagnostic>, err: Option<FormatError>)
    ensures var o := Run(Initial, lines, verbose);
      out == o.written && log == o.log && err == o.error
  {
    var st := Initial;
    out, log, err := [], [], None;
    var i := 0;
    while i < |lines|
      invariant 0 <= i <= |lines|
      invariant Valid(st)
      invariant err == None
      invariant Emit(out, log, Run(st, lines[i..], verbose)) == Run(Initial, lines, verbose)
    {
      var line := lines[i];
      assert lines[i..][0] == line;
      var next, written, logged, failure := ProcessLine(st, line, verbose);
      if failure.Some? {
        err := failure;
        RunAbort(st, lines[i..], verbose, failure.value);
        return;
      }
      RunNext(st, lines[i..], verbose, out, log, next, written, logged);
      assert lines[i..][1..] == lines[i + 1..];
      out, log := out + written, log + logged;
      st := next;
      i := i + 1;
    }
  }
}
