/**
 * The JavaScript string operations the extension relies on, stated on
 * `seq<char>`: `s.split(/\s+/, limit)`, `s.split(c)`, `lines.join(c)`,
 * `line.includes(pattern)` and `Array.prototype.filter` over lines.
 */
module TextSplit {

  /** The code points matched by the regular-expression class `\s`
      (ECMAScript WhiteSpace and LineTerminator). */
  predicate IsWhitespace(c: char) {
    var n := c as int;
    n == 0x09 || n == 0x0A || n == 0x0B || n == 0x0C || n == 0x0D || n == 0x20
    || n == 0xA0 || n == 0x1680 || (0x2000 <= n <= 0x200A) || n == 0x2028 || n == 0x2029
    || n == 0x202F || n == 0x205F || n == 0x3000 || n == 0xFEFF
  }

  predicate NoWhitespace(w: string) {
    forall i :: 0 <= i < |w| ==> !IsWhitespace(w[i])
  }

  /** Every entry is a non-empty whitespace-free word. */
  predicate Words(ws: seq<string>) {
    forall k :: 0 <= k < |ws| ==> |ws[k]| >= 1 && NoWhitespace(ws[k])
  }

  /** Length of the longest whitespace-free prefix of `s`. */
  function WordLength(s: string): (n: nat)
    ensures n <= |s|
    ensures forall i :: 0 <= i < n ==> !IsWhitespace(s[i])
    ensures n < |s| ==> IsWhitespace(s[n])
  {
    if s == [] || IsWhitespace(s[0]) then 0 else 1 + WordLength(s[1..])
  }

  /** Length of the longest all-whitespace prefix of `s`: one match of `\s+`. */
  function RunLength(s: string): (n: nat)
    ensures n <= |s|
    ensures forall i :: 0 <= i < n ==> IsWhitespace(s[i])
    ensures n < |s| ==> !IsWhitespace(s[n])
  {
    if s == [] || !IsWhitespace(s[0]) then 0 else 1 + RunLength(s[1..])
  }

  /** `s.split(/\s+/)`: the pieces between maximal whitespace runs. A leading
      or trailing run yields an empty first or last field, and the empty
      string yields one empty field. */
  function Fields(s: string): (r: seq<string>)
    ensures |r| >= 1
    ensures forall k :: 0 <= k < |r| ==> NoWhitespace(r[k])
    decreases |s|
  {
    var n := WordLength(s);
    if n == |s| then [s]
    else
      var m := RunLength(s[n..]);
      [s[..n]] + Fields(s[n + m..])
  }

  /** `s.split(/\s+/, limit)`: the first `limit` fields. */
  function SplitWhitespace(s: string, limit: nat): (r: seq<string>)
    ensures |r| <= limit && r <= Fields(s)
    ensures |r| < limit ==> r == Fields(s)
  {
    var f := Fields(s);
    if |f| <= limit then f else f[..limit]
  }

  function Concat(ws: seq<string>): string {
    if ws == [] then [] else ws[0] + Concat(ws[1..])
  }

  /** `s` with every whitespace character removed. */
  function RemoveWhitespace(s: string): string {
    if s == [] then []
    else (if IsWhitespace(s[0]) then [] else [s[0]]) + RemoveWhitespace(s[1..])
  }

  lemma {:induction false} RemoveWhitespaceAppend(a: string, b: string)
    ensures RemoveWhitespace(a + b) == RemoveWhitespace(a) + RemoveWhitespace(b)
    decreases |a|
  {
    if a == [] {
      assert a + b == b;
    } else {
      assert (a + b)[1..] == a[1..] + b;
      RemoveWhitespaceAppend(a[1..], b);
    }
  }

  lemma {:induction false} RemoveWhitespaceOfWord(w: string)
    requires NoWhitespace(w)
    ensures RemoveWhitespace(w) == w
    decreases |w|
  {
    if w != [] {
      RemoveWhitespaceOfWord(w[1..]);
    }
  }

  lemma {:induction false} RemoveWhitespaceOfRun(w: string)
    requires forall i :: 0 <= i < |w| ==> IsWhitespace(w[i])
    ensures RemoveWhitespace(w) == []
    decreases |w|
  {
    if w != [] {
      RemoveWhitespaceOfRun(w[1..]);
    }
  }

  lemma {:induction false} ConcatCons(w: string, ws: seq<string>)
    ensures Concat([w] + ws) == w + Concat(ws)
  {
    assert ([w] + ws)[1..] == ws;
  }

  /** One step of the split: a word, one whitespace run, and the rest. */
  lemma {:induction false} FieldsStep(s: string)
    requires WordLength(s) < |s|
    ensures var n := WordLength(s); var m := RunLength(s[n..]);
      m >= 1 && Fields(s) == [s[..n]] + Fields(s[n + m..])
  {
  }

  /** Splitting loses only whitespace: the fields, concatenated in order,
      are exactly the non-whitespace characters of `s`. */
  lemma {:induction false} FieldsKeepEveryOtherChar(s: string)
    ensures Concat(Fields(s)) == RemoveWhitespace(s)
    decreases |s|
  {
    var n := WordLength(s);
    if n == |s| {
      assert Fields(s) == [s];
      ConcatCons(s, []);
      RemoveWhitespaceOfWord(s);
    } else {
      FieldsStep(s);
      var m := RunLength(s[n..]);
      var rest := s[n + m..];
      FieldsKeepEveryOtherChar(rest);
      RemoveWhitespaceOfStep(s, n, m);
      ConcatCons(s[..n], Fields(rest));
    }
  }

  lemma {:induction false} RemoveWhitespaceOfStep(s: string, n: nat, m: nat)
    requires n + m <= |s|
    requires forall i :: 0 <= i < n ==> !IsWhitespace(s[i])
    requires forall i :: n <= i < n + m ==> IsWhitespace(s[i])
    ensures RemoveWhitespace(s) == s[..n] + RemoveWhitespace(s[n + m..])
  {
    var word, run, rest := s[..n], s[n..n + m], s[n + m..];
    assert s == word + (run + rest);
    RemoveWhitespaceAppend(word, run + rest);
    RemoveWhitespaceAppend(run, rest);
    RemoveWhitespaceOfWord(word);
    RemoveWhitespaceOfRun(run);
  }

  /** `ws.join(sep)`: the pieces in order with one separator between
      neighbours; the text starts with the first piece, followed by a
      separator when there is a second piece. */
  function JoinWith(ws: seq<string>, sep: char): (r: string)
    ensures |ws| >= 1 ==> ws[0] <= r
    ensures |ws| >= 2 ==> |r| > |ws[0]| && r[|ws[0]|] == sep
  {
    if |ws| == 0 then []
    else if |ws| == 1 then ws[0]
    else ws[0] + [sep] + JoinWith(ws[1..], sep)
  }

  lemma {:induction false} WordLengthOfWord(w: string, rest: string)
    requires NoWhitespace(w)
    requires rest == [] || IsWhitespace(rest[0])
    ensures WordLength(w + rest) == |w|
    decreases |w|
  {
    if w != [] {
      assert (w + rest)[1..] == w[1..] + rest;
      WordLengthOfWord(w[1..], rest);
    }
  }

  /** A non-empty all-whitespace string: one match of `\s+`. */
  predicate IsRun(g: string) {
    |g| >= 1 && forall i :: 0 <= i < |g| ==> IsWhitespace(g[i])
  }

  /** Words with a gap between each neighbouring pair:
      `ws[0] + gaps[0] + ws[1] + ... + ws[|ws| - 1]`. */
  function Interleave(ws: seq<string>, gaps: seq<string>): (r: string)
    requires |ws| >= 1 && |gaps| == |ws| - 1
    ensures ws[0] <= r
    decreases |ws|
  {
    if |ws| == 1 then ws[0] else ws[0] + gaps[0] + Interleave(ws[1..], gaps[1..])
  }

  lemma {:induction false} RunLengthOfRun(g: string, rest: string)
    requires forall i :: 0 <= i < |g| ==> IsWhitespace(g[i])
    requires rest == [] || !IsWhitespace(rest[0])
    ensures RunLength(g + rest) == |g|
    decreases |g|
  {
    if g != [] {
      assert (g + rest)[1..] == g[1..] + rest;
      RunLengthOfRun(g[1..], rest);
    }
  }

  /** A word followed by a whitespace run of any length and then by a text
      that does not start with whitespace splits into that word and the
      text's own fields: the whole run is one separator. */
  lemma {:induction false} FieldsAfterRun(w: string, run: string, rest: string)
    requires NoWhitespace(w) && IsRun(run)
    requires rest == [] || !IsWhitespace(rest[0])
    ensures Fields(w + run + rest) == [w] + Fields(rest)
  {
    var s := w + run + rest;
    assert s == w + (run + rest);
    WordLengthOfWord(w, run + rest);
    FieldsStep(s);
    assert s[..|w|] == w;
    assert s[|w|..] == run + rest;
    RunLengthOfRun(run, rest);
    assert s[|w| + |run|..] == rest;
  }

  lemma {:induction false} FieldsOfLastWord(w: string, tail: string)
    requires NoWhitespace(w)
    requires tail == [] || IsRun(tail)
    ensures Fields(w + tail) == if tail == [] then [w] else [w, []]
  {
    if tail == [] {
      assert w + tail == w;
      WordLengthOfWord(w, []);
      assert w + [] == w;
    } else {
      assert w + tail == w + tail + [];
      FieldsAfterRun(w, tail, []);
      assert Fields([]) == [[]];
    }
  }

  /** Splitting a text made of non-empty words separated by whitespace runs
      of any length and mix (a space, several spaces, `\r\n`, ...) gives
      the words back, in order; a trailing run adds one empty field. */
  lemma {:induction false} FieldsOfInterleave(ws: seq<string>, gaps: seq<string>, tail: string)
    requires |ws| >= 1 && |gaps| == |ws| - 1
    requires Words(ws)
    requires forall k :: 0 <= k < |gaps| ==> IsRun(gaps[k])
    requires tail == [] || IsRun(tail)
    ensures Fields(Interleave(ws, gaps) + tail) == if tail == [] then ws else ws + [[]]
    decreases |ws|
  {
    var w0 := ws[0];
    if |ws| == 1 {
      assert Interleave(ws, gaps) == w0;
      FieldsOfLastWord(w0, tail);
    } else {
      var more := ws[1..];
      var rest := Interleave(more, gaps[1..]) + tail;
      assert Words(more);
      assert rest[0] == more[0][0];
      assert Interleave(ws, gaps) + tail == w0 + gaps[0] + rest;
      FieldsAfterRun(w0, gaps[0], rest);
      FieldsOfInterleave(more, gaps[1..], tail);
      ConsTail(ws, tail == []);
    }
  }

  lemma {:induction false} ConsTail(ws: seq<string>, plain: bool)
    requires |ws| >= 1
    ensures [ws[0]] + (if plain then ws[1..] else ws[1..] + [[]]) == (if plain then ws else ws + [[]])
  {
    if plain {
      assert [ws[0]] + ws[1..] == ws;
    } else {
      assert [ws[0]] + (ws[1..] + [[]]) == ws + [[]];
    }
  }

  /** Index of the first `c` in `s`, or `|s|` when there is none. */
  function IndexOf(s: string, c: char): (i: nat)
    ensures i <= |s|
    ensures forall j :: 0 <= j < i ==> s[j] != c
    ensures i < |s| ==> s[i] == c
  {
    if s == [] || s[0] == c then 0 else 1 + IndexOf(s[1..], c)
  }

  /** `s.split(sep)` for a one-character separator: |r| is one more than the
      number of separators, and the empty string yields one empty piece. */
  function SplitOn(s: string, sep: char): (r: seq<string>)
    ensures |r| >= 1
    ensures forall k :: 0 <= k < |r| ==> sep !in r[k]
    decreases |s|
  {
    var i := IndexOf(s, sep);
    if i == |s| then [s] else [s[..i]] + SplitOn(s[i + 1..], sep)
  }

  /** One step of the newline split: the piece before the first separator,
      then the split of what follows it. */
  lemma {:induction false} SplitOnStep(s: string, sep: char)
    ensures var i := IndexOf(s, sep);
      if i == |s| then SplitOn(s, sep) == [s]
      else SplitOn(s, sep) == [s[..i]] + SplitOn(s[i + 1..], sep)
  {
  }

  lemma {:induction false} JoinWithCons(w: string, ws: seq<string>, sep: char)
    requires |ws| >= 1
    ensures JoinWith([w] + ws, sep) == w + [sep] + JoinWith(ws, sep)
  {
    assert ([w] + ws)[1..] == ws;
  }

  /** Joining the pieces of a split puts the text back together. */
  lemma {:induction false} JoinSplit(s: string, sep: char)
    ensures JoinWith(SplitOn(s, sep), sep) == s
    decreases |s|
  {
    var i := IndexOf(s, sep);
    SplitOnStep(s, sep);
    if i < |s| {
      var rest := s[i + 1..];
      JoinSplit(rest, sep);
      JoinWithCons(s[..i], SplitOn(rest, sep), sep);
      AroundIndex(s, i, sep);
    }
  }

  lemma {:induction false} AroundIndex(s: string, i: nat, sep: char)
    requires i < |s| && s[i] == sep
    ensures s == s[..i] + [sep] + s[i + 1..]
  {
  }

  lemma {:induction false} IndexOfJoined(a: string, sep: char, b: string)
    requires sep !in a
    ensures IndexOf(a + [sep] + b, sep) == |a|
    decreases |a|
  {
    if a != [] {
      assert (a + [sep] + b)[1..] == a[1..] + [sep] + b;
      IndexOfJoined(a[1..], sep, b);
    }
  }

  lemma {:induction false} IndexOfAbsent(a: string, sep: char)
    requires sep !in a
    ensures IndexOf(a, sep) == |a|
    decreases |a|
  {
    if a != [] {
      IndexOfAbsent(a[1..], sep);
    }
  }

  /** Splitting joined pieces that do not contain the separator gives the
      pieces back. */
  lemma {:induction false} SplitJoin(ls: seq<string>, sep: char)
    requires |ls| >= 1
    requires forall k :: 0 <= k < |ls| ==> sep !in ls[k]
    ensures SplitOn(JoinWith(ls, sep), sep) == ls
    decreases |ls|
  {
    if |ls| == 1 {
      IndexOfAbsent(ls[0], sep);
    } else {
      var rest := JoinWith(ls[1..], sep);
      var s := ls[0] + [sep] + rest;
      IndexOfJoined(ls[0], sep, rest);
      assert s[..|ls[0]|] == ls[0];
      assert s[|ls[0]| + 1..] == rest;
      SplitJoin(ls[1..], sep);
      assert [ls[0]] + ls[1..] == ls;
    }
  }

  /** `s.includes(pattern)`: the pattern occurs at some position of `s`. */
  function Contains(s: string, pattern: string): (b: bool)
    ensures b <==> exists i :: 0 <= i <= |s| && pattern <= s[i..]
    decreases |s|
  {
    if pattern <= s then assert pattern <= s[0..]; true
    else if |s| == 0 then false
    else
      var rest := Contains(s[1..], pattern);
      assert forall i :: 1 <= i <= |s| ==> s[1..][i - 1..] == s[i..];
      rest
  }

  /** `lines.filter(line => !line.includes(marker))`. */
  function KeepLinesWithout(ls: seq<string>, marker: string): (r: seq<string>)
    ensures |r| <= |ls|
    ensures forall k :: 0 <= k < |r| ==> !Contains(r[k], marker) && r[k] in ls
    ensures forall l :: l in ls && !Contains(l, marker) ==> l in r
  {
    if ls == [] then []
    else (if Contains(ls[0], marker) then [] else [ls[0]]) + KeepLinesWithout(ls[1..], marker)
  }

  /** The filter keeps lines in their original order: it distributes over
      concatenation, one line at a time. */
  lemma {:induction false} KeepLinesAppend(a: seq<string>, b: seq<string>, marker: string)
    ensures KeepLinesWithout(a + b, marker) == KeepLinesWithout(a, marker) + KeepLinesWithout(b, marker)
    decreases |a|
  {
    if a == [] {
      assert a + b == b;
    } else {
      assert (a + b)[1..] == a[1..] + b;
      KeepLinesAppend(a[1..], b, marker);
    }
  }

  /** When no line carries the marker the filter changes nothing. */
  lemma {:induction false} KeepLinesUnmarked(ls: seq<string>, marker: string)
    requires forall k :: 0 <= k < |ls| ==> !Contains(ls[k], marker)
    ensures KeepLinesWithout(ls, marker) == ls
    decreases |ls|
  {
    if ls != [] {
      KeepLinesUnmarked(ls[1..], marker);
      assert [ls[0]] + ls[1..] == ls;
    }
  }

  /** `s.split('\n').filter(line => !line.includes(marker)).join('\n')`:
      the lines of the result are the kept lines, in order; when every line
      was dropped the result is empty. */
  function DropLinesContaining(s: string, marker: string): (r: string)
    ensures var kept := KeepLinesWithout(SplitOn(s, '\n'), marker);
      if kept == [] then r == [] else SplitOn(r, '\n') == kept
  {
    var kept := KeepLinesWithout(SplitOn(s, '\n'), marker);
    SplitOnKept(SplitOn(s, '\n'), marker);
    JoinWith(kept, '\n')
  }

  /** Lines without a newline, filtered and joined, split back into the
      kept lines. */
  lemma {:induction false} SplitOnKept(ls: seq<string>, marker: string)
    requires forall k :: 0 <= k < |ls| ==> '\n' !in ls[k]
    ensures var kept := KeepLinesWithout(ls, marker);
      kept != [] ==> SplitOn(JoinWith(kept, '\n'), '\n') == kept
  {
    var kept := KeepLinesWithout(ls, marker);
    if kept != [] {
      forall k | 0 <= k < |kept| ensures '\n' !in kept[k] {
        assert kept[k] in ls;
      }
      SplitJoin(kept, '\n');
    }
  }

  /** Text without marked lines passes through the filter unchanged. */
  lemma {:induction false} DropLinesUnmarked(s: string, marker: string)
    requires forall k :: 0 <= k < |SplitOn(s, '\n')| ==> !Contains(SplitOn(s, '\n')[k], marker)
    ensures DropLinesContaining(s, marker) == s
  {
    KeepLinesUnmarked(SplitOn(s, '\n'), marker);
    JoinSplit(s, '\n');
  }

  /** Filtering twice is filtering once: no line of the filtered text
      carries a non-empty marker. */
  lemma {:induction false} DropLinesIdempotent(s: string, marker: string)
    requires marker != []
    ensures DropLinesContaining(DropLinesContaining(s, marker), marker) == DropLinesContaining(s, marker)
  {
    var d := DropLinesContaining(s, marker);
    var kept := KeepLinesWithout(SplitOn(s, '\n'), marker);
    if kept == [] {
      assert SplitOn([], '\n') == [[]];
    } else {
      KeepLinesUnmarked(kept, marker);
    }
    DropLinesUnmarked(d, marker);
  }
}
