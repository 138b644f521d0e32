# fix_virtual_weight, modelled in Dafny

`bin/Powheg/fix_virtual_weight.py` is a streaming filter over a Les Houches
Event (LHE) file. Lines outside `<event>` … `</event>` records are copied to
the output. The lines of a record are buffered. Inside a record's `<weights>`
or `<rwgt>` block, the first line that is no marker is captured as the
"virtual weight". When `</event>` arrives, that weight replaces field 2
(XWGTUP) of the record's second line, the event header, and the whole record
is written. The output file is the input path cut at `.lhe`, followed by
`_weighted.lhe`.

The model has five files:

- `wrappers.dfy`: `Option` and `Result`.
- `text.dfy` (module `Text`): the Python string operations the script uses,
  stated over `string`. These are `str.isspace` (Python's full whitespace set),
  `startswith`, `in`, `strip`, `split(sep)`, `" ".join` and
  `re.sub(r"\s+", " ", s)`. The module proves that split and join are
  inverse, and that collapsing and stripping a line leaves its tokens joined
  by single spaces.
- `fields.dfy` (module `Fields`): the three side-effect-free expressions.
  - Weight extraction (`ExtractWeight`).
  - The header rewrite (`RewriteHeader`).
  - The output path (`OutPath`).
- `filter.dfy` (module `Filter`): the loop as a state machine.
  - The state holds the script's variables `num_events`, `in_event`,
    `in_weights`, `virtual_weight` and `current_event`.
  - `Step` is one pass of the loop body, and `Run` folds it over the input
    lines.
  - The method `Rewrite` is the `while` loop itself, proved to write, log and
    fail exactly as `Run` says. `ProcessLine` is its body.
- `properties.dfy` (module `FilterProperties`): what whole runs do.
  - Header lines are copied.
  - A record is written only at its `</event>` line, with only line 1
    changed, and nothing of a failing record is written.
  - An unterminated record is never written.
  - A second `<event>` line drops the open record.
  - The first weight line is the one captured.
  - The counter counts `<event>` lines.

The input is a sequence of lines (`Line`, a non-empty string, since
`readline` returns `""` only at end of file). The output is the sequence of
strings written, the verbose messages (`Diagnostic`), and the error that
stopped the run, if any.

## Model

| member | source | states |
|---|---|---|
| Text.IsSpace | bin/Powheg/fix_virtual_weight.py:14 | the characters Python's `str.isspace()` accepts, which `\s` and `strip()` treat as whitespace: space, `\t` to `\r`, `\x1c` to `\x1f`, `\x85`, `\xa0` and the Unicode space separators |
| Text.StartsWith | bin/Powheg/fix_virtual_weight.py:42-73 | `s.startswith(prefix)`: the prefix is an initial segment of the line |
| Text.Contains | bin/Powheg/fix_virtual_weight.py:74 | `sub in s`: the text occurs at some index of the line |
| Text.Split | bin/Powheg/fix_virtual_weight.py:22 | `s.split(sep)`: the text before the first occurrence of `sep`, then the split of the text after it; the whole text when `sep` does not occur |
| Text.Join | bin/Powheg/fix_virtual_weight.py:103 | `sep.join(parts)`: the parts in order with `sep` between neighbours; empty for no parts |
| Text.Strip | bin/Powheg/fix_virtual_weight.py:68 | `s.strip()`: the slice after the leading whitespace, followed only by whitespace, empty or with non-whitespace at both ends |
| Text.Collapse | bin/Powheg/fix_virtual_weight.py:94 | `re.sub(r"\s+", " ", s)`: each maximal whitespace run becomes one space and everything else is copied; the result is empty only for an empty line, starts with whitespace exactly when the line does, has no whitespace but plain spaces and never two in a row |
| Text.Find | bin/Powheg/fix_virtual_weight.py:22 | the first index where the separator occurs, or the length when it never does; no earlier index matches |
| Text.Tokens | bin/Powheg/fix_virtual_weight.py:94-95 | every piece is a non-empty run of non-whitespace characters |
| Text.FindContains | bin/Powheg/fix_virtual_weight.py:74 | the search stops short of the end exactly when `sep in s` |
| Text.SplitSingle | bin/Powheg/fix_virtual_weight.py:22 | `split(sep)` gives one piece exactly when `sep` does not occur |
| Text.JoinSplit | bin/Powheg/fix_virtual_weight.py:22 | joining the pieces of `split(sep)` with `sep` restores the text |
| Text.SplitJoin | bin/Powheg/fix_virtual_weight.py:95-103 | splitting a join on a one-character separator that no part contains gives the parts back |
| Text.StripPadded | bin/Powheg/fix_virtual_weight.py:68 | `strip` removes exactly the whitespace around text that starts and ends with non-whitespace |
| Text.TokensEmpty | bin/Powheg/fix_virtual_weight.py:94-95 | a line has no tokens exactly when it is all whitespace |
| Text.CollapseFromWord | bin/Powheg/fix_virtual_weight.py:94 | from a non-whitespace character on, `re.sub(r"\s+", " ", s)` is the tokens joined by single spaces, plus one space when the text ends in whitespace |
| Text.CollapseFromSpace | bin/Powheg/fix_virtual_weight.py:94 | from a whitespace character on, the collapse is one space followed by the same |
| Text.CollapseTokens | bin/Powheg/fix_virtual_weight.py:94 | the collapse is the tokens joined by single spaces, with one space at each end that had whitespace |
| Text.StripCollapse | bin/Powheg/fix_virtual_weight.py:94 | collapsing and then stripping gives the tokens joined by single spaces |
| Text.CollapsedFields | bin/Powheg/fix_virtual_weight.py:94-95 | the fields of `re.sub(r"\s+", " ", s).strip().split(" ")` are the tokens, or one empty field for a blank line |
| Text.JoinTokens | bin/Powheg/fix_virtual_weight.py:103 | tokens joined by single spaces have no whitespace at the ends and no whitespace run |
| Text.TokensJoin | bin/Powheg/fix_virtual_weight.py:103 | the tokens of such a join are the joined tokens |
| Text.TokensAppendSpace | bin/Powheg/fix_virtual_weight.py:103 | the trailing newline adds no token |
| Fields.ExtractWeight | bin/Powheg/fix_virtual_weight.py:68-79 | no weight exactly when the stripped line starts with `<wgt` and lacks `</wgt>`; a line not starting with `<wgt` gives its stripped text |
| Fields.TaggedWeight | bin/Powheg/fix_virtual_weight.py:77-79 | a well-formed `<wgt` line gives the stripped text after its first `>`, cut at the next `>` and then at the next `<` |
| Fields.ExtractWgtElement | bin/Powheg/fix_virtual_weight.py:68-79 | writing a value into a `<wgt ...>` element, padded by any whitespace, and extracting it gives back the stripped value |
| Fields.ExtractPlain | bin/Powheg/fix_virtual_weight.py:68-73 | a plain value padded by whitespace is captured without the padding |
| Fields.HeaderFields | bin/Powheg/fix_virtual_weight.py:94-95 | the header's fields are its whitespace-separated tokens, or one empty field when it is blank |
| Fields.RewriteHeader | bin/Powheg/fix_virtual_weight.py:94-103 | fails exactly when the header has fewer than 3 fields; otherwise the fields with field 2 set to the weight, joined by single spaces, followed by a newline |
| Fields.RewrittenFields | bin/Powheg/fix_virtual_weight.py:94-103 | splitting the rewritten line on spaces gives as many fields as before, field 2 the weight and every other field unchanged |
| Fields.RewrittenShape | bin/Powheg/fix_virtual_weight.py:94-103 | for a one-token weight, the rewritten line has no whitespace at either end or in runs, ends in exactly one newline, and reads back as the new fields |
| Fields.RewriteIdempotent | bin/Powheg/fix_virtual_weight.py:94-103 | rewriting a rewritten line with the same weight changes nothing |
| Fields.OutPath | bin/Powheg/fix_virtual_weight.py:22 | the path up to its first `.lhe` (all of it when absent), followed by `_weighted.lhe` |
| Fields.OutPathWithoutExtension | bin/Powheg/fix_virtual_weight.py:22 | a path without `.lhe` just gets `_weighted.lhe` appended |
| Fields.OutPathOfStem | bin/Powheg/fix_virtual_weight.py:22 | `STEM.lhe` becomes `STEM_weighted.lhe` |
| Fields.OutPathDiffers | bin/Powheg/fix_virtual_weight.py:21-25 | the output path never equals the input path |
| Filter.EventOpenIsNoMarker | bin/Powheg/fix_virtual_weight.py:42-60 | an `<event>` line is none of the markers tested inside a record |
| Filter.Enter | bin/Powheg/fix_virtual_weight.py:42-48 | an `<event>` line counts one more event and resets the flags, the weight and the buffer; any other line changes nothing |
| Filter.Track | bin/Powheg/fix_virtual_weight.py:50-81 | the markers in the order `</event>`, closing, opening; the two errors raised inside a record; the capture of the first non-marker line in a weights block; the buffer grows by the line |
| Filter.Close | bin/Powheg/fix_virtual_weight.py:83-107 | fails without a weight or with a header shorter than 3 fields; otherwise writes the buffer with only line 1 rewritten, and logs the old field 2 and the weight when verbose |
| Filter.CloseRewrites | bin/Powheg/fix_virtual_weight.py:89-107 | a closing record is rewritten from the header's collapsed fields |
| Filter.Step | bin/Powheg/fix_virtual_weight.py:41-111 | one loop pass: a reset on `<event>`, a copy outside records, buffering or a malformed-line error inside, the weights-block error or the close on `</event>`; the counter grows only on `<event>` |
| Filter.StepOutside | bin/Powheg/fix_virtual_weight.py:109-111 | outside a record a line is written as it is |
| Filter.StepTracked | bin/Powheg/fix_virtual_weight.py:50-83 | a record line is buffered, or closes the record when it is `</event>` |
| Filter.StepTrackFails | bin/Powheg/fix_virtual_weight.py:53-54 | an error raised inside a record stops the pass |
| Filter.Run | bin/Powheg/fix_virtual_weight.py:33-111 | a run keeps the buffer invariant; an empty input writes nothing |
| Filter.RunAbort | bin/Powheg/fix_virtual_weight.py:33-111 | a run that fails on its first line writes nothing more |
| Filter.RunNext | bin/Powheg/fix_virtual_weight.py:33-111 | a run is what its first line wrote followed by the rest |
| Filter.ProcessLine | bin/Powheg/fix_virtual_weight.py:41-111 | the loop body over the script's variables produces exactly the pass `Step` describes, or its error |
| Filter.Rewrite | bin/Powheg/fix_virtual_weight.py:27-111 | the loop writes, logs and fails exactly as `Run` from the initial state |
| FilterProperties.RunConcat | bin/Powheg/fix_virtual_weight.py:33-111 | a run over two pieces of input is the run over the first, continued from where it stopped unless it failed |
| FilterProperties.OutsideCopied | bin/Powheg/fix_virtual_weight.py:109-111 | outside a record, lines that start no record are written unchanged and in order |
| FilterProperties.HeaderCopied | bin/Powheg/fix_virtual_weight.py:109-111 | the file header before the first `<event>` is written as it is, ahead of everything else |
| FilterProperties.StepBody | bin/Powheg/fix_virtual_weight.py:50-81 | a body line is buffered, or fails as a malformed line, and keeps a weight already captured |
| FilterProperties.BodyBuffered | bin/Powheg/fix_virtual_weight.py:50-81 | body lines write nothing and are buffered in order; only a malformed line fails; a captured weight stays and nothing fails then |
| FilterProperties.Unterminated | bin/Powheg/fix_virtual_weight.py:33-83 | a record still open at the end of the input is never written |
| FilterProperties.RunOpen | bin/Powheg/fix_virtual_weight.py:42-48 | an `<event>` line writes nothing and starts a record holding just itself |
| FilterProperties.RunClose | bin/Powheg/fix_virtual_weight.py:52-107 | the `</event>` line fails with a weights block open, or writes the record with only line 1 rewritten, or writes nothing and fails; its error names the event number unless a weights block was open or the header was too short |
| FilterProperties.RecordParts | bin/Powheg/fix_virtual_weight.py:41-107 | a record's run is its body's run, then its `</event>` line |
| FilterProperties.RecordRun | bin/Powheg/fix_virtual_weight.py:81-107 | a complete record is written all at once, in order, with only line 1 rewritten with the captured weight; a failing record writes nothing, and its error names its event number unless a weights block was open or the header was too short |
| FilterProperties.RestartDiscards | bin/Powheg/fix_virtual_weight.py:42-47 | a second `<event>` line drops the open record without error, as if it had never started, apart from the counter |
| FilterProperties.WeightCaptured | bin/Powheg/fix_virtual_weight.py:60-79 | the first non-marker line after `<weights>` or `<rwgt>` becomes the weight as `ExtractWeight` reads it, or stops the run as malformed |
| FilterProperties.EventsCounted | bin/Powheg/fix_virtual_weight.py:42-48 | a run that does not fail has counted exactly the `<event>` lines it read |

## Left out

- Argument parsing (bin/Powheg/fix_virtual_weight.py:16-19) is library
  plumbing. The path and the verbose flag are plain parameters.
- Opening, reading and closing files, and the `EOFError` handling
  (bin/Powheg/fix_virtual_weight.py:24-25, 33-39, 113-114), are I/O.
  - The input is a sequence of lines.
  - Everything written is an output sequence.
  - The end of the input ends the loop.
- The verbose `print` (bin/Powheg/fix_virtual_weight.py:97-99) is console
  output. It is modelled as a `Diagnostic` log entry holding the event
  number, the old field 2 and the weight.
- The `re` library (bin/Powheg/fix_virtual_weight.py:14, 94) is not
  modelled. `Text.Collapse` states directly what replacing each `\s+` run by
  one space does.
- The weight has no numeric meaning here, because the script never parses it
  as a number.
- Fields.RewrittenShape and Fields.RewriteIdempotent require the weight to be
  one token, because the script does not promise their conclusions for other
  weights. A blank weight leaves two spaces in a row, or a space before the
  newline. A weight with whitespace inside reads back as more fields than the
  header had. It also breaks single spacing when that whitespace is anything
  but one space. Fields.RewrittenFields only requires that the weight holds no
  space character.
- The model follows the code:
  - The `</event>`-inside-weights error carries no event number
    (`WeightsNotClosed`), like the script's message.
  - The `IndexError` on a header with fewer than 3 fields becomes the error
    `HeaderTooShort`. It carries no event number either, since the script's
    `IndexError` has none.
  - `split(">")[1]` also cuts the weight at a second `>`.
  - Lines already written stay written when a later record fails.
