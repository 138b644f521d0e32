/**
 * The side-effect-free string expressions of `fix_virtual_weight.py`:
 * reading the weight out of the first line of a weights block, rewriting
 * the XWGTUP field (field 2) of an event's header line, and deriving the
 * output path from the input path.
 */
module Fields {
  import opened Wrappers
  import opened Text

  const WgtOpen: string := "<wgt"
  const WgtClose: string := "</wgt>"
  const Extension: string := ".lhe"
  const OutSuffix: string := "_weighted.lhe"

  /** A `</wgt>` in a line means it has a `>` as well. */
  lemma ContainsTagEnd(s: string)
    requires Contains(s, WgtClose)
    ensures Contains(s, ">")
  {
    var j :| 0 <= j <= |s| && MatchAt(s, WgtClose, j);
    assert s[j + 5] == WgtClose[5];
    assert s[j + 5..j + 6] == ">";
    assert MatchAt(s, ">", j + 5);
  }

  /**
   * The captured weight of a line: the stripped line, or, when that starts
   * with `<wgt`, the stripped text after its first `>` up to the next `<`
   * or `>`. A `<wgt` line without `</wgt>` is malformed and yields `None`.
   */
  function ExtractWeight(line: string): (w: Option<string>)
    ensures w.None? <==> StartsWith(Strip(line), WgtOpen) && !Contains(Strip(line), WgtClose)
    ensures !StartsWith(Strip(line), WgtOpen) ==> w == Some(Strip(line))
  {
    var s := Strip(line);
    if !StartsWith(s, WgtOpen) then Some(s)
    else if !Contains(s, WgtClose) then None
    else
      ContainsTagEnd(s);
      FindContains(s, ">");
      SplitSecond(s, ">");
      SplitHead(Split(s, ">")[1], "<");
      Some(Strip(Split(Split(s, ">")[1], "<")[0]))
  }

  /** The second piece of a split is what follows the first separator, up to the next one. */
  lemma SplitSecond(s: string, sep: string)
    requires sep != "" && Find(s, sep) < |s|
    ensures |Split(s, sep)| >= 2
    ensures var rest := s[Find(s, sep) + |sep|..]; Split(s, sep)[1] == rest[..Find(rest, sep)]
  {
    var rest := s[Find(s, sep) + |sep|..];
    SplitCons(s, sep);
    SplitHead(rest, sep);
  }

  /**
   * For a well-formed `<wgt` line the weight is the stripped text after the
   * first `>`, cut at the next `>` and then at the next `<`.
   */
  lemma TaggedWeight(line: string)
    requires StartsWith(Strip(line), WgtOpen) && Contains(Strip(line), WgtClose)
    ensures var s := Strip(line); var k := Find(s, ">");
      k < |s| && ExtractWeight(line) == Some(Strip(Before(Before(s[k + 1..], ">"), "<")))
  {
    var s := Strip(line);
    ContainsTagEnd(s);
    FindContains(s, ">");
    SplitSecond(s, ">");
    SplitHead(Split(s, ">")[1], "<");
  }

  /** The element `<wgt ATTRS>VALUE</wgt>`. */
  function WgtElement(attrs: string, value: string): string {
    WgtOpen + attrs + ">" + value + WgtClose
  }

  /** Where the parts of a `<wgt>` element lie. */
  lemma WgtElementParts(attrs: string, value: string)
    requires '>' !in attrs
    ensures var e := WgtElement(attrs, value);
      e != "" && e[0] == '<' && e[|e| - 1] == '>' &&
      StartsWith(e, WgtOpen) && Contains(e, WgtClose) &&
      Find(e, ">") == |WgtOpen + attrs| && e[|WgtOpen + attrs| + 1..] == value + WgtClose
  {
    var e := WgtElement(attrs, value);
    assert MatchAt(e, WgtClose, |e| - 6);
    var head := WgtOpen + attrs;
    assert '>' !in head;
    var tail := ">" + value + WgtClose;
    assert e == head + tail;
    FindFirst(head, '>', tail);
  }

  /** Inside `VALUE</wgt>`, cutting at the first `>` and then at the first `<` leaves `VALUE`. */
  lemma ElementValue(value: string)
    requires '<' !in value && '>' !in value
    ensures Before(Before(value + WgtClose, ">"), "<") == value
  {
    var inner := value + "</wgt";
    var rest := inner + ">";
    assert rest == value + WgtClose;
    assert '>' !in inner;
    FindFirst(inner, '>', ">");
    assert rest[..|inner|] == inner;
    FindFirst(value, '<', "</wgt");
    assert inner[..|value|] == value;
  }

  /**
   * Writing a value into a `<wgt>` element, surrounded by any whitespace,
   * and extracting it again gives back the stripped value.
   */
  lemma ExtractWgtElement(pre: string, attrs: string, value: string, post: string)
    requires AllSpace(pre) && AllSpace(post)
    requires '>' !in attrs && '<' !in value && '>' !in value
    ensures ExtractWeight(pre + WgtElement(attrs, value) + post) == Some(Strip(value))
  {
    var e := WgtElement(attrs, value);
    var line := pre + e + post;
    WgtElementParts(attrs, value);
    StripPadded(pre, e, post);
    TaggedWeight(line);
    ElementValue(value);
  }

  /** A plain number line, surrounded by any whitespace, is captured without it. */
  lemma ExtractPlain(pre: string, value: string, post: string)
    requires AllSpace(pre) && AllSpace(post)
    requires value == "" || (!IsSpace(value[0]) && !IsSpace(value[|value| - 1]))
    requires !StartsWith(value, WgtOpen)
    ensures ExtractWeight(pre + value + post) == Some(value)
  {
    StripPadded(pre, value, post);
  }

  /**
   * The fields of an event header line after `re.sub(r"\s+", " ", line).strip().split(" ")`:
   * its whitespace-separated tokens, or one empty field when it is blank.
   */
  function HeaderFields(header: string): (fields: seq<string>)
    ensures fields == if Tokens(header) == [] then [""] else Tokens(header)
  {
    CollapsedFields(header);
    Split(Strip(Collapse(header)), " ")
  }

  /**
   * The header line with field 2 (XWGTUP) set to `w`, joined by single
   * spaces and ended by a newline; `None` when the line has fewer than three
   * fields, where the indexing `[2]` fails.
   */
  function RewriteHeader(header: string, w: string): (r: Option<string>)
    ensures r.None? <==> |Tokens(header)| < 3
    ensures r.Some? ==> r.value == Join(Tokens(header)[2 := w], " ") + "\n"
  {
    var fields := HeaderFields(header);
    if |fields| < 3 then None else Some(Join(fields[2 := w], " ") + "\n")
  }

  /**
   * Splitting the rewritten line (without its newline) on single spaces gives
   * the original fields with field 2 replaced: the same number of fields,
   * field 2 the weight, every other field as before.
   */
  lemma RewrittenFields(header: string, w: string)
    requires |Tokens(header)| >= 3 && ' ' !in w
    ensures var h := RewriteHeader(header, w).value;
      |h| >= 1 && h[|h| - 1] == '\n' && Split(h[..|h| - 1], " ") == Tokens(header)[2 := w]
  {
    var ts := Tokens(header)[2 := w];
    var body := Join(ts, " ");
    var h := body + "\n";
    assert h[..|h| - 1] == body;
    forall k | 0 <= k < |ts| ensures ' ' !in ts[k] {
      if k != 2 {
        assert IsToken(Tokens(header)[k]);
      }
    }
    SplitJoin(ts, ' ');
  }

  /**
   * Tokens joined by single spaces and ended by a newline: no whitespace at
   * either end of the text, one newline after it, and the tokens as its fields.
   */
  lemma JoinedHeader(ts: seq<string>)
    requires |ts| >= 1 && forall k :: 0 <= k < |ts| ==> IsToken(ts[k])
    ensures var h := Join(ts, " ") + "\n";
      |h| >= 2 && h[|h| - 1] == '\n' && !IsSpace(h[|h| - 2]) &&
      SingleSpaced(h[..|h| - 1]) && HeaderFields(h) == ts
  {
    var body := Join(ts, " ");
    var h := body + "\n";
    JoinTokens(ts);
    assert h[..|h| - 1] == body;
    assert h[|h| - 2] == body[|body| - 1];
    assert Tokens(h) == ts by {
      TokensAppendSpace(body, '\n');
      TokensJoin(ts);
    }
  }

  /**
   * When the weight is a single token, the rewritten line is its fields
   * joined by single spaces with no whitespace at either end, followed by
   * exactly one newline; reading its fields back gives the new fields.
   */
  lemma RewrittenShape(header: string, w: string)
    requires |Tokens(header)| >= 3 && IsToken(w)
    ensures var h := RewriteHeader(header, w).value;
      |h| >= 2 && h[|h| - 1] == '\n' && !IsSpace(h[|h| - 2]) &&
      SingleSpaced(h[..|h| - 1]) && HeaderFields(h) == Tokens(header)[2 := w]
  {
    var ts := Tokens(header)[2 := w];
    assert forall k :: 0 <= k < |ts| ==> IsToken(ts[k]);
    JoinedHeader(ts);
  }

  /** Rewriting an already rewritten line with the same weight changes nothing. */
  lemma RewriteIdempotent(header: string, w: string)
    requires |Tokens(header)| >= 3 && IsToken(w)
    ensures var h := RewriteHeader(header, w).value; RewriteHeader(h, w) == Some(h)
  {
    var h := RewriteHeader(header, w).value;
    var ts := Tokens(header)[2 := w];
    assert HeaderFields(h) == ts by {
      RewrittenShape(header, w);
    }
    assert ts[2 := w] == ts;
    assert h == Join(ts, " ") + "\n";
  }

  /** The output path: the input path cut at its first `.lhe`, followed by `_weighted.lhe`. */
  function OutPath(path: string): (out: string)
    ensures out == path[..Find(path, Extension)] + OutSuffix
  {
    SplitHead(path, Extension);
    Split(path, Extension)[0] + OutSuffix
  }

  /** Without `.lhe` in the path the suffix is simply appended. */
  lemma OutPathWithoutExtension(path: string)
    requires !Contains(path, Extension)
    ensures OutPath(path) == path + OutSuffix
  {
    FindContains(path, Extension);
  }

  /** `STEM.lhe` becomes `STEM_weighted.lhe` when the stem has no `.lhe` of its own. */
  lemma OutPathOfStem(stem: string)
    requires !Contains(stem, Extension)
    ensures OutPath(stem + Extension) == stem + OutSuffix
  {
    var p := stem + Extension;
    forall j | 0 <= j < |stem|
      ensures !MatchAt(p, Extension, j)
    {
      if j + 4 <= |stem| {
        assert stem[j..j + 4] == p[j..j + 4];
        assert MatchAt(p, Extension, j) ==> MatchAt(stem, Extension, j);
      } else {
        assert p[|stem|] == '.';
        assert p[j..j + 4][|stem| - j] == '.';
      }
    }
    assert MatchAt(p, Extension, |stem|);
    FindIs(p, Extension, |stem|);
    assert p[..|stem|] == stem;
  }

  /** The output path never names the input file itself. */
  lemma OutPathDiffers(path: string)
    ensures OutPath(path) != path
  {
    var k := Find(path, Extension);
    var out := OutPath(path);
    if k < |path| {
      assert path[k..k + 4] == Extension;
      assert path[k] == '.';
      assert out[k] == '_';
    }
  }
}
