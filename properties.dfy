/**
 * Properties of whole runs of the filter: how runs compose, that text
 * outside records is copied, that a record is written only when it closes
 * and then with only its header line changed, that an unfinished record is
 * never written, that a new `<event>` discards an open record, and that the
 * event counter counts `<event>` lines.
 */
module FilterProperties {
  import opened Wrappers
  import opened Text
  import opened Fields
  import opened Filter

  /** No line starts with `<event>`. */
  predicate NoEventOpen(lines: seq<Line>) {
    forall k :: 0 <= k < |lines| ==> !StartsWith(lines[k], EventOpen)
  }

  /** The lines between `<event>` and `</event>`: none of them opens or closes a record. */
  predicate IsBody(lines: seq<Line>) {
    forall k :: 0 <= k < |lines| ==> !StartsWith(lines[k], EventOpen) && !StartsWith(lines[k], EventClose)
  }

  /** The number of lines starting with `<event>`. */
  function CountOpens(lines: seq<Line>): nat {
    if lines == [] then 0
    else (if StartsWith(lines[0], EventOpen) then 1 else 0) + CountOpens(lines[1..])
  }

  /** A run over two pieces of input is the run over the first, continued over the second. */
  lemma {:induction false} RunConcat(st: State, a: seq<Line>, b: seq<Line>, verbose: bool)
    requires Valid(st)
    ensures var ra := Run(st, a, verbose);
      Run(st, a + b, verbose) ==
        if ra.error.Some? then ra else Emit(ra.written, ra.log, Run(ra.final, b, verbose))
    decreases |a|
  {
    if a == [] {
      assert a + b == b;
      var rb := Run(st, b, verbose);
      assert [] + rb.written == rb.written && [] + rb.log == rb.log;
    } else {
      assert (a + b)[0] == a[0];
      assert (a + b)[1..] == a[1..] + b;
      var t := Step(st, a[0], verbose);
      if t.Abort? {
        RunAbort(st, a, verbose, t.error);
        RunAbort(st, a + b, verbose, t.error);
      } else {
        RunConcat(t.next, a[1..], b, verbose);
        var ra' := Run(t.next, a[1..], verbose);
        if ra'.error.None? {
          EmitTwice(t.written, t.log, ra'.written, ra'.log, Run(ra'.final, b, verbose));
        }
      }
    }
  }

  /** Outside a record, lines that open no record are copied unchanged and in order. */
  lemma {:induction false} OutsideCopied(st: State, lines: seq<Line>, verbose: bool)
    requires Valid(st) && !st.inEvent && NoEventOpen(lines)
    ensures Run(st, lines, verbose) == Outcome(lines, [], None, st)
    decreases |lines|
  {
    if lines != [] {
      assert !StartsWith(lines[0], EventOpen);
      OutsideCopied(st, lines[1..], verbose);
      assert [lines[0]] + lines[1..] == lines;
    }
  }

  /** The header of a file, before its first `<event>` line, is copied as it is. */
  lemma HeaderCopied(header: seq<Line>, rest: seq<Line>, verbose: bool)
    requires NoEventOpen(header)
    ensures Run(Initial, header + rest, verbose) == Emit(header, [], Run(Initial, rest, verbose))
  {
    RunConcat(Initial, header, rest, verbose);
    OutsideCopied(Initial, header, verbose);
  }

  /**
   * Inside a record, a body line is buffered and writes nothing, or fails as
   * a malformed line; it neither drops nor replaces a weight already captured.
   */
  lemma StepBody(st: State, line: Line, verbose: bool)
    requires Valid(st) && st.inEvent && !StartsWith(line, EventOpen) && !StartsWith(line, EventClose)
    ensures var t := Step(st, line, verbose);
      (t.Abort? ==> t.error == MalformedLine(st.numEvents, Strip(line))) &&
      (t.Next? ==> t.written == [] && t.log == [] && t.next.inEvent && t.next.numEvents == st.numEvents &&
                   t.next.currentEvent == st.currentEvent + [line]) &&
      (st.virtualWeight.Some? ==> t.Next? && t.next.virtualWeight == st.virtualWeight)
  {
    if st.virtualWeight.Some? {
      var entered := Enter(st, line);
      assert entered == st;
      assert !Captures(st, line);
      var tracked := Track(entered, line).value;
      StepTracked(st, line, verbose, tracked);
    }
  }

  /**
   * Inside a record, body lines write and print nothing; they are buffered
   * in order. Only a malformed `<wgt` line can fail, and once a weight is
   * captured it stays and nothing fails.
   */
  lemma {:induction false} BodyBuffered(st: State, body: seq<Line>, verbose: bool)
    requires Valid(st) && st.inEvent && IsBody(body)
    ensures var r := Run(st, body, verbose);
      r.written == [] && r.log == [] && r.final.inEvent && r.final.numEvents == st.numEvents &&
      (r.error.None? ==> r.final.currentEvent == st.currentEvent + body) &&
      (r.error.Some? ==> r.error.value.MalformedLine? && r.error.value.event == st.numEvents) &&
      (st.virtualWeight.Some? ==> r.error.None? && r.final.virtualWeight == st.virtualWeight)
    decreases |body|
  {
    if body != [] {
      var line := body[0];
      assert !StartsWith(line, EventOpen) && !StartsWith(line, EventClose);
      StepBody(st, line, verbose);
      var t := Step(st, line, verbose);
      if t.Abort? {
        RunAbort(st, body, verbose, t.error);
      } else {
        assert IsBody(body[1..]);
        BodyBuffered(t.next, body[1..], verbose);
        RunSilent(st, body, verbose, t.next);
        assert st.currentEvent + [line] + body[1..] == st.currentEvent + body;
      }
    }
  }

  /** A run whose first line writes and logs nothing is the run over the rest. */
  lemma RunSilent(st: State, lines: seq<Line>, verbose: bool, next: State)
    requires Valid(st) && lines != [] && Step(st, lines[0], verbose) == Next(next, [], [])
    ensures Run(st, lines, verbose) == Run(next, lines[1..], verbose)
  {
    var rest := Run(next, lines[1..], verbose);
    assert [] + rest.written == rest.written && [] + rest.log == rest.log;
  }

  /** Lines of a record still open at the end of the input are never written. */
  lemma Unterminated(st: State, open: Line, body: seq<Line>, verbose: bool)
    requires Valid(st) && StartsWith(open, EventOpen) && IsBody(body)
    ensures var r := Run(st, [open] + body, verbose);
      r.written == [] && r.log == [] && r.final.inEvent
  {
    RunOpen(st, open, body, verbose);
    BodyBuffered(State(st.numEvents + 1, true, false, None, [open]), body, verbose);
  }

  /** An `<event>` line writes nothing and starts a fresh record holding just itself. */
  lemma RunOpen(st: State, open: Line, rest: seq<Line>, verbose: bool)
    requires Valid(st) && StartsWith(open, EventOpen)
    ensures Run(st, [open] + rest, verbose) ==
            Run(State(st.numEvents + 1, true, false, None, [open]), rest, verbose)
  {
    var lines := [open] + rest;
    assert lines[0] == open && lines[1..] == rest;
    var r := Run(State(st.numEvents + 1, true, false, None, [open]), rest, verbose);
    assert [] + r.written == r.written && [] + r.log == r.log;
  }

  /**
   * The `</event>` line of a record: an open weights block fails; otherwise
   * the buffered record is written with only its header line rewritten, or
   * nothing is written when there is no weight or the header is too short.
   */
  lemma RunClose(st: State, close: Line, verbose: bool)
    requires Valid(st) && st.inEvent && StartsWith(close, EventClose)
    ensures var record := st.currentEvent + [close];
      var r := Run(st, [close], verbose);
      (r.error.Some? ==> r.written == [] && r.log == [] &&
                         (r.error.value.WeightsNotClosed? || r.error.value.HeaderTooShort? || r.error.value.event == st.numEvents)) &&
      (r.error.None? ==>
         r.final.virtualWeight == st.virtualWeight && st.virtualWeight.Some? &&
         !r.final.inEvent && r.final.numEvents == st.numEvents &&
         |r.written| == |record| && RewriteHeader(record[1], st.virtualWeight.value).Some? &&
         r.written[1] == RewriteHeader(record[1], st.virtualWeight.value).value &&
         (forall i :: 0 <= i < |record| && i != 1 ==> r.written[i] == record[i]) &&
         |r.log| == (if verbose then 1 else 0))
  {
    assert !StartsWith(close, EventOpen) by {
      assert close[1] == '/';
    }
    RunSingle(st, close, verbose);
  }

  /** A run over one line is that line's step. */
  lemma RunSingle(st: State, line: Line, verbose: bool)
    requires Valid(st)
    ensures Run(st, [line], verbose) ==
      match Step(st, line, verbose)
      case Abort(e) => Outcome([], [], Some(e), st)
      case Next(next, written, logged) => Outcome(written, logged, None, next)
  {
    assert [line][1..] == [];
  }

  /**
   * A complete record, `<event>` line, body lines and `</event>` line: when it
   * succeeds it is written with all its lines in order, only line 1 (the event
   * header) rewritten with the captured weight; when it fails nothing of it
   * is written. Every error but the open weights block names the record's
   * event number.
   */
  lemma RecordRun(st: State, open: Line, body: seq<Line>, close: Line, verbose: bool)
    requires Valid(st) && StartsWith(open, EventOpen) && IsBody(body) && StartsWith(close, EventClose)
    ensures var record := [open] + body + [close];
      var r := Run(st, record, verbose);
      (r.error.Some? ==> r.written == [] && r.log == [] &&
                         (r.error.value.WeightsNotClosed? || r.error.value.HeaderTooShort? ||
                          r.error.value.event == st.numEvents + 1)) &&
      (r.error.None? ==>
         r.final.virtualWeight.Some? && !r.final.inEvent && r.final.numEvents == st.numEvents + 1 &&
         |r.written| == |record| && RewriteHeader(record[1], r.final.virtualWeight.value).Some? &&
         r.written[1] == RewriteHeader(record[1], r.final.virtualWeight.value).value &&
         (forall i :: 0 <= i < |record| && i != 1 ==> r.written[i] == record[i]) &&
         |r.log| == (if verbose then 1 else 0))
  {
    var s1 := State(st.numEvents + 1, true, false, None, [open]);
    RecordParts(st, open, body, close, verbose);
    BodyBuffered(s1, body, verbose);
    var rb := Run(s1, body, verbose);
    if rb.error.None? {
      assert rb.final.currentEvent + [close] == [open] + body + [close];
      RunClose(rb.final, close, verbose);
    }
  }

  /** A record's run is its body's run from the fresh record, then, unless that failed, its `</event>` line. */
  lemma RecordParts(st: State, open: Line, body: seq<Line>, close: Line, verbose: bool)
    requires Valid(st) && StartsWith(open, EventOpen) && IsBody(body)
    ensures var rb := Run(State(st.numEvents + 1, true, false, None, [open]), body, verbose);
      Run(st, [open] + body + [close], verbose) ==
        if rb.error.Some? then rb else Run(rb.final, [close], verbose)
  {
    var s1 := State(st.numEvents + 1, true, false, None, [open]);
    assert [open] + body + [close] == [open] + (body + [close]);
    RunOpen(st, open, body + [close], verbose);
    RunConcat(s1, body, [close], verbose);
    BodyBuffered(s1, body, verbose);
    var rb := Run(s1, body, verbose);
    if rb.error.None? {
      var rc := Run(rb.final, [close], verbose);
      assert [] + rc.written == rc.written && [] + rc.log == rc.log;
    }
  }

  /**
   * A second `<event>` line before `</event>` silently drops the open record:
   * the run continues as if the record had never started, apart from the
   * event counter.
   */
  lemma RestartDiscards(st: State, open: Line, body: seq<Line>, rest: seq<Line>, verbose: bool)
    requires Valid(st) && StartsWith(open, EventOpen) && IsBody(body)
    requires rest != [] && StartsWith(rest[0], EventOpen)
    requires Run(st, [open] + body, verbose).error.None?
    ensures Run(st, [open] + body + rest, verbose) ==
            Run(State(st.numEvents + 1, false, false, None, []), rest, verbose)
  {
    var prefix := [open] + body;
    Unterminated(st, open, body, verbose);
    RunConcat(st, prefix, rest, verbose);
    var f := Run(st, prefix, verbose).final;
    var s0 := State(st.numEvents + 1, false, false, None, []);
    assert f.numEvents == st.numEvents + 1 by {
      RunOpen(st, open, body, verbose);
      BodyBuffered(State(st.numEvents + 1, true, false, None, [open]), body, verbose);
    }
    assert Step(f, rest[0], verbose) == Step(s0, rest[0], verbose);
    var r := Run(f, rest, verbose);
    assert [] + r.written == r.written && [] + r.log == r.log;
  }

  /**
   * In a record with no weight yet, the first line after `<weights>` or
   * `<rwgt>` that is no marker becomes the weight, its value as
   * `ExtractWeight` reads it; a malformed `<wgt` line stops the run.
   */
  lemma WeightCaptured(st: State, open: Line, line: Line, verbose: bool)
    requires Valid(st) && st.inEvent && st.virtualWeight.None?
    requires StartsWith(open, WeightsOpen) || StartsWith(open, RwgtOpen)
    requires !StartsWith(line, EventOpen) && !IsMarker(line)
    ensures var r := Run(st, [open, line], verbose);
      r.written == [] && r.log == [] &&
      (r.error.Some? <==> ExtractWeight(line).None?) &&
      (r.error.Some? ==> r.error.value == MalformedLine(st.numEvents, Strip(line))) &&
      (r.error.None? ==> r.final.inWeights && r.final.inEvent && r.final.virtualWeight == ExtractWeight(line) &&
                         r.final.currentEvent == st.currentEvent + [open, line])
  {
    assert open[1] != '/' && open[1] != 'e' by {
      assert open[1] == WeightsOpen[1] || open[1] == RwgtOpen[1];
    }
    assert !StartsWith(open, EventOpen) && !ClosesWeights(open) && !StartsWith(open, EventClose);
    var inside := Track(st, open).value;
    StepTracked(st, open, verbose, inside);
    assert inside.inWeights && inside.virtualWeight.None?;
    var lines := [open, line];
    assert lines[0] == open && lines[1..] == [line];
    assert Captures(inside, line);
    if ExtractWeight(line).None? {
      StepTrackFails(inside, line, verbose, MalformedLine(st.numEvents, Strip(line)));
      RunAbort(inside, [line], verbose, MalformedLine(st.numEvents, Strip(line)));
    } else {
      var captured := Track(inside, line).value;
      StepTracked(inside, line, verbose, captured);
      assert [line][1..] == [];
      assert st.currentEvent + [open] + [line] == st.currentEvent + [open, line];
    }
  }

  /** A run that does not fail counts exactly the `<event>` lines it read. */
  lemma {:induction false} EventsCounted(st: State, lines: seq<Line>, verbose: bool)
    requires Valid(st)
    ensures var r := Run(st, lines, verbose);
      r.error.None? ==> r.final.numEvents == st.numEvents + CountOpens(lines)
    decreases |lines|
  {
    if lines != [] {
      match Step(st, lines[0], verbose)
      case Abort(e) =>
      case Next(next, written, logged) =>
        EventsCounted(next, lines[1..], verbose);
    }
  }
}
