/**
 * The Python string operations the filter relies on, over `string`
 * (a sequence of characters): `str.isspace`, `str.startswith`, `in`,
 * `str.strip`, `str.split(sep)`, `sep.join(parts)` and
 * `re.sub(r"\s+", " ", s)`, together with the lemmas that connect them:
 * split and join are inverse, and collapsing then stripping a line
 * leaves exactly its whitespace-separated tokens joined by single spaces.
 */
module Text {

  /** Python's `str.isspace()` set; `\s` in a `str` pattern matches the same characters. */
  predicate IsSpace(c: char) {
    c == ' ' || '\t' <= c <= '\r' || '\U{1c}' <= c <= '\U{1f}' ||
    c == '\U{85}' || c == '\U{a0}' || c == '\U{1680}' || '\U{2000}' <= c <= '\U{200a}' ||
    c == '\U{2028}' || c == '\U{2029}' || c == '\U{202f}' || c == '\U{205f}' || c == '\U{3000}'
  }

  predicate AllSpace(s: string) {
    forall i :: 0 <= i < |s| ==> IsSpace(s[i])
  }

  predicate NoSpace(s: string) {
    forall i :: 0 <= i < |s| ==> !IsSpace(s[i])
  }

  /** A non-empty run of non-whitespace characters. */
  predicate IsToken(t: string) {
    t != "" && NoSpace(t)
  }

  /** No whitespace at either end, and every whitespace character is one space followed by a non-whitespace one. */
  predicate SingleSpaced(b: string) {
    (b == "" || (!IsSpace(b[0]) && !IsSpace(b[|b| - 1]))) &&
    forall i :: 0 <= i < |b| - 1 && IsSpace(b[i]) ==> b[i] == ' ' && !IsSpace(b[i + 1])
  }

  /** `s.startswith(prefix)` */
  predicate StartsWith(s: string, prefix: string) {
    prefix <= s
  }

  /** `sep` occurs in `s` starting at index `j`. */
  predicate MatchAt(s: string, sep: string, j: int) {
    0 <= j && j + |sep| <= |s| && s[j..j + |sep|] == sep
  }

  /** `sub in s` */
  predicate Contains(s: string, sub: string) {
    exists j :: 0 <= j <= |s| && MatchAt(s, sub, j)
  }

  /** `s.find(sep)`, except that "not found" is `|s|`: the index of the first occurrence of `sep`. */
  function Find(s: string, sep: string): (n: nat)
    requires sep != ""
    ensures n <= |s|
    ensures n == |s| || MatchAt(s, sep, n)
    ensures forall j :: 0 <= j < n ==> !MatchAt(s, sep, j)
    decreases |s|
  {
    if s == "" || StartsWith(s, sep) then
      assert StartsWith(s, sep) ==> s[0..|sep|] == sep;
      0
    else
      var n := 1 + Find(s[1..], sep);
      assert forall j :: 1 <= j <= |s| ==> MatchAt(s, sep, j) == MatchAt(s[1..], sep, j - 1);
      assert !MatchAt(s, sep, 0);
      n
  }

  /** `s.split(sep)[0]`: the text before the first occurrence of `sep`, or all of `s` when there is none. */
  function Before(s: string, sep: string): string
    requires sep != ""
  {
    s[..Find(s, sep)]
  }

  /** `s.split(sep)`: the pieces of `s` between the occurrences of `sep`. */
  function Split(s: string, sep: string): seq<string>
    requires sep != ""
    decreases |s|
  {
    if Find(s, sep) == |s| then [s] else [s[..Find(s, sep)]] + Split(s[Find(s, sep) + |sep|..], sep)
  }

  /** `sep.join(parts)` */
  function Join(parts: seq<string>, sep: string): string
  {
    if |parts| == 0 then ""
    else if |parts| == 1 then parts[0]
    else parts[0] + sep + Join(parts[1..], sep)
  }

  /** The number of whitespace characters `s` starts with. */
  function LeadingSpace(s: string): (n: nat)
    ensures n <= |s|
    ensures forall i :: 0 <= i < n ==> IsSpace(s[i])
    ensures n == |s| || !IsSpace(s[n])
    decreases |s|
  {
    if s != "" && IsSpace(s[0]) then 1 + LeadingSpace(s[1..]) else 0
  }

  /** The number of whitespace characters `s` ends with. */
  function TrailingSpace(s: string): (n: nat)
    ensures n <= |s|
    ensures forall i :: |s| - n <= i < |s| ==> IsSpace(s[i])
    ensures n == |s| || !IsSpace(s[|s| - n - 1])
    decreases |s|
  {
    if s != "" && IsSpace(s[|s| - 1]) then 1 + TrailingSpace(s[..|s| - 1]) else 0
  }

  /** The length of the longest prefix of `s` without whitespace. */
  function WordLength(s: string): (n: nat)
    ensures n <= |s|
    ensures forall i :: 0 <= i < n ==> !IsSpace(s[i])
    ensures n == |s| || IsSpace(s[n])
    decreases |s|
  {
    if s != "" && !IsSpace(s[0]) then 1 + WordLength(s[1..]) else 0
  }

  /**
   * `s.strip()`: the part of `s` after its leading whitespace, followed only
   * by whitespace, and empty or with non-whitespace at both ends.
   */
  function Strip(s: string): (r: string)
    ensures var a := LeadingSpace(s);
      a + |r| <= |s| && r == s[a..a + |r|] && AllSpace(s[..a]) && AllSpace(s[a + |r|..]) &&
      (r == "" || (!IsSpace(r[0]) && !IsSpace(r[|r| - 1])))
  {
    var t := s[LeadingSpace(s)..];
    t[..|t| - TrailingSpace(t)]
  }

  /**
   * `re.sub(r"\s+", " ", s)`: text outside whitespace is copied, and every
   * maximal run of whitespace is replaced by one space.
   */
  function Collapse(s: string): (r: string)
    ensures r == "" <==> s == ""
    ensures r != "" ==> (IsSpace(r[0]) <==> IsSpace(s[0]))
    ensures forall i :: 0 <= i < |r| && IsSpace(r[i]) ==> r[i] == ' '
    ensures forall i :: 0 <= i < |r| - 1 && IsSpace(r[i]) ==> !IsSpace(r[i + 1])
    decreases |s|
  {
    if s == "" then ""
    else if IsSpace(s[0]) then
      var c := Collapse(s[LeadingSpace(s)..]);
      assert forall i :: 1 <= i < |c| + 1 ==> (" " + c)[i] == c[i - 1];
      " " + c
    else
      var n := WordLength(s);
      var c := Collapse(s[n..]);
      assert forall i :: n <= i < n + |c| ==> (s[..n] + c)[i] == c[i - n];
      s[..n] + c
  }

  /** The maximal runs of non-whitespace characters of `s`, in order. */
  function Tokens(s: string): (ts: seq<string>)
    ensures forall k :: 0 <= k < |ts| ==> IsToken(ts[k])
    decreases |s|
  {
    if s == "" then []
    else if IsSpace(s[0]) then Tokens(s[LeadingSpace(s)..])
    else var n := WordLength(s); [s[..n]] + Tokens(s[n..])
  }

  /** The one space that `Collapse` leaves for whitespace at an end of the line, or nothing. */
  function Pad(c: char): string {
    if IsSpace(c) then " " else ""
  }

  /** Concatenation regrouped, kept apart so that callers need not search for it. */
  lemma Regroup(a: string, b: string, c: string, d: string)
    ensures a + (b + c + d) == a + b + c + d
  {
  }

  /** `Find` is characterised by its contract: any index meeting it is the one `Find` returns. */
  lemma FindIs(s: string, sep: string, k: nat)
    requires sep != "" && k <= |s|
    requires k == |s| || MatchAt(s, sep, k)
    requires forall j :: 0 <= j < k ==> !MatchAt(s, sep, j)
    ensures Find(s, sep) == k
  {
  }

  lemma LeadingSpaceIs(s: string, k: nat)
    requires k <= |s|
    requires forall i :: 0 <= i < k ==> IsSpace(s[i])
    requires k == |s| || !IsSpace(s[k])
    ensures LeadingSpace(s) == k
  {
  }

  lemma TrailingSpaceIs(s: string, k: nat)
    requires k <= |s|
    requires forall i :: |s| - k <= i < |s| ==> IsSpace(s[i])
    requires k == |s| || !IsSpace(s[|s| - k - 1])
    ensures TrailingSpace(s) == k
  {
  }

  lemma WordLengthIs(s: string, k: nat)
    requires k <= |s|
    requires forall i :: 0 <= i < k ==> !IsSpace(s[i])
    requires k == |s| || IsSpace(s[k])
    ensures WordLength(s) == k
  {
  }

  lemma JoinCons(head: string, tail: seq<string>, sep: string)
    requires tail != []
    ensures Join([head] + tail, sep) == head + sep + Join(tail, sep)
  {
    assert ([head] + tail)[1..] == tail;
  }

  /** The first piece of a split is the text before the first separator. */
  lemma SplitHead(s: string, sep: string)
    requires sep != ""
    ensures |Split(s, sep)| >= 1 && Split(s, sep)[0] == s[..Find(s, sep)]
  {
  }

  /** A split with a separator in it is the text before it, then the split of the text after it. */
  lemma SplitCons(s: string, sep: string)
    requires sep != "" && Find(s, sep) < |s|
    ensures Split(s, sep) == [s[..Find(s, sep)]] + Split(s[Find(s, sep) + |sep|..], sep)
  {
  }

  /** There is more than one piece exactly when the separator occurs. */
  lemma SplitSingle(s: string, sep: string)
    requires sep != ""
    ensures |Split(s, sep)| == 1 <==> !Contains(s, sep)
  {
    FindContains(s, sep);
  }

  /** `Find` stops short of the end exactly when the separator occurs. */
  lemma FindContains(s: string, sep: string)
    requires sep != ""
    ensures Find(s, sep) < |s| <==> Contains(s, sep)
  {
    if Find(s, sep) < |s| {
      assert MatchAt(s, sep, Find(s, sep));
    }
  }

  /** Joining the pieces of a split restores the original text. */
  lemma {:induction false} JoinSplit(s: string, sep: string)
    requires sep != ""
    ensures Join(Split(s, sep), sep) == s
    decreases |s|
  {
    var n := Find(s, sep);
    if n < |s| {
      var rest := s[n + |sep|..];
      assert s == s[..n] + sep + rest;
      var tail := Split(rest, sep);
      assert Split(s, sep) == [s[..n]] + tail;
      SplitHead(rest, sep);
      JoinSplit(rest, sep);
      JoinCons(s[..n], tail, sep);
    }
  }

  /** The first `c` of `x + y` is at `|x|` when `x` has no `c` and `y` is empty or starts with `c`. */
  lemma FindFirst(x: string, c: char, y: string)
    requires c !in x
    requires y == "" || y[0] == c
    ensures Find(x + y, [c]) == |x|
  {
    var s := x + y;
    forall j | 0 <= j < |x|
      ensures !MatchAt(s, [c], j)
    {
      assert s[j..j + 1] == [x[j]];
    }
    if y != "" {
      assert s[|x|..|x| + 1] == [c];
    }
    FindIs(s, [c], |x|);
  }

  /** Splitting a join on a one-character separator that no part contains gives the parts back. */
  lemma {:induction false} SplitJoin(parts: seq<string>, c: char)
    requires |parts| >= 1
    requires forall k :: 0 <= k < |parts| ==> c !in parts[k]
    ensures Split(Join(parts, [c]), [c]) == parts
    decreases |parts|
  {
    if |parts| == 1 {
      FindFirst(parts[0], c, "");
      assert parts[0] + "" == parts[0];
    } else {
      var rest := Join(parts[1..], [c]);
      var s := parts[0] + ([c] + rest);
      assert Join(parts, [c]) == s;
      FindFirst(parts[0], c, [c] + rest);
      assert s[..|parts[0]|] == parts[0];
      assert s[|parts[0]| + 1..] == rest;
      SplitJoin(parts[1..], c);
    }
  }

  /** `strip` removes exactly the whitespace around a text that starts and ends with non-whitespace. */
  lemma StripPadded(a: string, m: string, b: string)
    requires AllSpace(a) && AllSpace(b)
    requires m == "" || (!IsSpace(m[0]) && !IsSpace(m[|m| - 1]))
    ensures Strip(a + m + b) == m
  {
    var s := a + m + b;
    if m == "" {
      LeadingSpaceIs(s, |s|);
    } else {
      assert s == a + (m + b);
      LeadingSpaceIs(s, |a|);
      var t := s[|a|..];
      assert t == m + b;
      TrailingSpaceIs(t, |b|);
      assert t[..|t| - |b|] == m;
    }
  }

  /** A line has no tokens exactly when it is all whitespace. */
  lemma {:induction false} TokensEmpty(s: string)
    ensures Tokens(s) == [] <==> AllSpace(s)
    decreases |s|
  {
    if s != "" && IsSpace(s[0]) {
      var n := LeadingSpace(s);
      TokensEmpty(s[n..]);
      assert forall i :: n <= i < |s| ==> s[i] == s[n..][i - n];
    }
  }

  /** A text starting with a word: the word comes off whole, both as a token and in the collapse. */
  lemma WordStep(s: string)
    requires s != "" && !IsSpace(s[0])
    ensures var n := WordLength(s);
      1 <= n && (n < |s| ==> IsSpace(s[n])) &&
      Tokens(s) == [s[..n]] + Tokens(s[n..]) && Collapse(s) == s[..n] + Collapse(s[n..])
  {
  }

  /** A text starting with whitespace: the whitespace run gives no token and one space in the collapse. */
  lemma SpaceStep(r: string)
    requires r != "" && IsSpace(r[0])
    ensures var t := r[LeadingSpace(r)..];
      (t == "" || !IsSpace(t[0])) && Tokens(r) == Tokens(t) && Collapse(r) == " " + Collapse(t)
  {
  }

  /** A word, one space and a join: the join with the word in front. */
  lemma JoinAfterWord(w: string, ts: seq<string>, p: string)
    requires ts != []
    ensures w + (" " + Join(ts, " ") + p) == Join([w] + ts, " ") + p
  {
    JoinCons(w, ts, " ");
    Regroup(w, " ", Join(ts, " "), p);
  }

  /**
   * From a non-whitespace character on, collapsing whitespace leaves the
   * tokens joined by single spaces, plus one space when the text ends in whitespace.
   */
  lemma {:induction false} CollapseFromWord(s: string)
    requires s != "" && !IsSpace(s[0])
    ensures Tokens(s) != []
    ensures Collapse(s) == Join(Tokens(s), " ") + Pad(s[|s| - 1])
    decreases |s|, 1
  {
    WordStep(s);
    var n := WordLength(s);
    var w, rest := s[..n], s[n..];
    if rest == "" {
      assert w == s;
    } else {
      assert rest[|rest| - 1] == s[|s| - 1];
      CollapseFromSpace(rest);
      if Tokens(rest) != [] {
        JoinAfterWord(w, Tokens(rest), Pad(s[|s| - 1]));
      }
    }
  }

  /** From a whitespace character on, collapsing leaves one space, then what `CollapseFromWord` describes. */
  lemma {:induction false} CollapseFromSpace(r: string)
    requires r != "" && IsSpace(r[0])
    ensures Tokens(r) == [] ==> Collapse(r) == " "
    ensures Tokens(r) != [] ==> Collapse(r) == " " + Join(Tokens(r), " ") + Pad(r[|r| - 1])
    decreases |r|, 0
  {
    SpaceStep(r);
    var t := r[LeadingSpace(r)..];
    if t != "" {
      assert t[|t| - 1] == r[|r| - 1];
      CollapseFromWord(t);
    }
  }

  /**
   * Collapsing whitespace leaves the tokens joined by single spaces, with one
   * extra space at each end of the line that had whitespace there.
   */
  lemma CollapseTokens(s: string)
    ensures Tokens(s) == [] ==> Collapse(s) == (if s == "" then "" else " ")
    ensures Tokens(s) != [] ==> Collapse(s) == Pad(s[0]) + Join(Tokens(s), " ") + Pad(s[|s| - 1])
  {
    if s != "" {
      if IsSpace(s[0]) {
        CollapseFromSpace(s);
      } else {
        CollapseFromWord(s);
        assert Pad(s[0]) + Join(Tokens(s), " ") == Join(Tokens(s), " ");
      }
    }
  }

  /** Tokens joined by single spaces are single-spaced, and non-empty when there is a token. */
  lemma {:induction false} JoinTokens(ts: seq<string>)
    requires forall k :: 0 <= k < |ts| ==> IsToken(ts[k])
    ensures SingleSpaced(Join(ts, " "))
    ensures ts != [] ==> Join(ts, " ") != ""
    decreases |ts|
  {
    if |ts| == 1 {
      assert IsToken(ts[0]);
    } else if |ts| >= 2 {
      JoinTokens(ts[1..]);
      var t, j := ts[0], Join(ts[1..], " ");
      assert IsToken(t) && IsToken(ts[1..][0]);
      var b := t + " " + j;
      assert Join(ts, " ") == b;
      forall i | 0 <= i < |b|
        ensures i < |t| ==> b[i] == t[i]
        ensures i == |t| ==> b[i] == ' '
        ensures i > |t| ==> b[i] == j[i - |t| - 1]
      {
      }
    }
  }

  /** The word at the start of `t + y` is `t` when `t` has no whitespace and `y` is empty or starts with whitespace. */
  lemma WordOf(t: string, y: string)
    requires NoSpace(t)
    requires y == "" || IsSpace(y[0])
    ensures WordLength(t + y) == |t|
  {
    WordLengthIs(t + y, |t|);
  }

  /** A token, one space and a text starting with a token: the first token comes off whole. */
  lemma TokensSpaceWord(t: string, j: string)
    requires IsToken(t)
    requires j != "" && !IsSpace(j[0])
    ensures Tokens(t + (" " + j)) == [t] + Tokens(j)
  {
    var b := t + (" " + j);
    WordOf(t, " " + j);
    assert b[..|t|] == t;
    var rest := b[|t|..];
    assert rest == " " + j;
    assert Tokens(b) == [t] + Tokens(rest);
    LeadingSpaceIs(rest, 1);
    assert rest[1..] == j;
  }

  /** Splitting tokens joined by single spaces into tokens gives them back. */
  lemma {:induction false} TokensJoin(ts: seq<string>)
    requires forall k :: 0 <= k < |ts| ==> IsToken(ts[k])
    ensures Tokens(Join(ts, " ")) == ts
    decreases |ts|
  {
    if |ts| == 1 {
      var t := ts[0];
      assert IsToken(t);
      WordOf(t, "");
      assert t + "" == t;
      assert t[..|t|] == t && t[|t|..] == "";
    } else if |ts| >= 2 {
      var t, j := ts[0], Join(ts[1..], " ");
      assert Tokens(Join(ts, " ")) == [t] + Tokens(j) by {
        assert IsToken(t);
        assert Join(ts, " ") == t + (" " + j);
        JoinTokens(ts[1..]);
        assert IsToken(ts[1..][0]);
        TokensSpaceWord(t, j);
      }
      TokensJoin(ts[1..]);
      assert ts == [t] + ts[1..];
    }
  }

  /** Trailing whitespace adds no token. */
  lemma {:induction false} TokensAppendSpace(b: string, c: char)
    requires IsSpace(c)
    ensures Tokens(b + [c]) == Tokens(b)
    decreases |b|
  {
    var s := b + [c];
    if b == "" {
      assert LeadingSpace(s) == 1;
      assert s[1..] == "";
    } else if IsSpace(b[0]) {
      var n := LeadingSpace(b);
      if n < |b| {
        LeadingSpaceIs(s, n);
        assert s[n..] == b[n..] + [c];
        TokensAppendSpace(b[n..], c);
      } else {
        assert AllSpace(s);
        TokensEmpty(s);
        TokensEmpty(b);
      }
    } else {
      var n := WordLength(b);
      assert b == b[..n] + b[n..];
      assert s == b[..n] + (b[n..] + [c]);
      WordOf(b[..n], b[n..] + [c]);
      assert s[..n] == b[..n];
      assert s[n..] == b[n..] + [c];
      TokensAppendSpace(b[n..], c);
    }
  }

  /** Collapsing and stripping a line leaves its tokens joined by single spaces. */
  lemma StripCollapse(s: string)
    ensures Strip(Collapse(s)) == Join(Tokens(s), " ")
  {
    if Tokens(s) != [] {
      var j := Join(Tokens(s), " ");
      var a, b := Pad(s[0]), Pad(s[|s| - 1]);
      assert Collapse(s) == a + j + b by {
        CollapseTokens(s);
      }
      assert Strip(a + j + b) == j by {
        JoinTokens(Tokens(s));
        StripPadded(a, j, b);
      }
    } else {
      var c := Collapse(s);
      assert AllSpace(c) by {
        CollapseTokens(s);
      }
      assert Strip(c + "" + "") == "" by {
        StripPadded(c, "", "");
      }
      assert c + "" + "" == c;
    }
  }

  /**
   * The fields `re.sub(r"\s+", " ", s).strip().split(" ")` are the tokens of
   * `s`, or the single empty field when `s` is all whitespace.
   */
  lemma CollapsedFields(s: string)
    ensures Split(Strip(Collapse(s)), " ") == if Tokens(s) == [] then [""] else Tokens(s)
  {
    StripCollapse(s);
    var ts := Tokens(s);
    if ts != [] {
      forall k | 0 <= k < |ts| ensures ' ' !in ts[k] {
        assert IsToken(ts[k]);
      }
      SplitJoin(ts, ' ');
    }
  }
}
