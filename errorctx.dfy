/** The error-context renderer of src/main.cpp: `splitString`, `makeContext`
    (the text it writes to the stream, as a string) and the escaping of the
    error symbol. */
module ErrorContext {
  import opened Decimal

  /** Number of occurrences of `c` in `s`. */
  function Occurrences(s: string, c: char): nat {
    multiset(s)[c]
  }

  /** The pieces joined back with `sep` between consecutive ones. */
  function Join(pieces: seq<string>, sep: char): string
    requires |pieces| > 0
  {
    if |pieces| == 1 then pieces[0]
    else Join(pieces[..|pieces| - 1], sep) + [sep] + pieces[|pieces| - 1]
  }

  /** splitString: start with one empty piece; every byte other than `sep`
      extends the last piece, every `sep` opens a new empty one. */
  function Split(s: string, sep: char): (pieces: seq<string>)
    ensures |pieces| > 0
    decreases |s|
  {
    if |s| == 0 then [""]
    else
      var p := Split(s[..|s| - 1], sep);
      var c := s[|s| - 1];
      if c != sep then p[..|p| - 1] + [p[|p| - 1] + [c]] else p + [""]
  }

  /** One piece more than there are separators. */
  lemma {:induction false} SplitCount(s: string, sep: char)
    ensures |Split(s, sep)| == Occurrences(s, sep) + 1
    decreases |s|
  {
    if |s| > 0 {
      SplitCount(s[..|s| - 1], sep);
      assert s == s[..|s| - 1] + [s[|s| - 1]];
      assert multiset(s) == multiset(s[..|s| - 1]) + multiset{s[|s| - 1]};
    }
  }

  /** No piece contains the separator. */
  lemma {:induction false} SplitPiecesHaveNoSep(s: string, sep: char)
    ensures forall i :: 0 <= i < |Split(s, sep)| ==> sep !in Split(s, sep)[i]
    decreases |s|
  {
    if |s| > 0 {
      SplitPiecesHaveNoSep(s[..|s| - 1], sep);
      var p := Split(s[..|s| - 1], sep);
      assert forall i :: 0 <= i < |p| ==> sep !in p[i];
    }
  }

  /** Joining the pieces with the separator gives back the text. */
  lemma {:induction false} JoinSplit(s: string, sep: char)
    ensures Join(Split(s, sep), sep) == s
    decreases |s|
  {
    if |s| > 0 {
      var init := s[..|s| - 1];
      var c := s[|s| - 1];
      JoinSplit(init, sep);
      var p := Split(init, sep);
      var r := Split(s, sep);
      assert s == init + [c];
      if c != sep {
        assert r == p[..|p| - 1] + [p[|p| - 1] + [c]];
        assert r[..|r| - 1] == p[..|p| - 1];
        if |p| > 1 {
          assert Join(p, sep) == Join(p[..|p| - 1], sep) + [sep] + p[|p| - 1];
        }
      } else {
        assert r == p + [""];
        assert r[..|r| - 1] == p;
      }
    }
  }

  /** The loop of splitString, appending to `output.back()`. */
  method SplitString(source: string, sep: char) returns (output: seq<string>)
    ensures output == Split(source, sep)
  {
    output := [""];
    for k := 0 to |source|
      invariant output == Split(source[..k], sep)
    {
      var c := source[k];
      assert source[..k + 1][..k] == source[..k];
      if c != sep {
        output := output[..|output| - 1] + [output[|output| - 1] + [c]];
      } else {
        output := output + [""];
      }
    }
    assert source[..|source|] == source;
  }

  /** Splitting text that ends without `sep` only extends the last piece. */
  lemma {:induction false} SplitAppendPlain(x: string, y: string, sep: char)
    requires sep !in y
    ensures var p := Split(x, sep);
            Split(x + y, sep) == p[..|p| - 1] + [p[|p| - 1] + y]
    decreases |y|
  {
    var p := Split(x, sep);
    if |y| == 0 {
      assert x + y == x;
      assert p[|p| - 1] + y == p[|p| - 1];
      assert p == p[..|p| - 1] + [p[|p| - 1]];
    } else {
      var y' := y[..|y| - 1];
      var c := y[|y| - 1];
      assert y == y' + [c];
      SplitAppendPlain(x, y', sep);
      assert x + y == (x + y') + [c];
      SplitAfterPlain(x + y', c, sep);
      var q := Split(x + y', sep);
      assert q[..|q| - 1] == p[..|p| - 1];
      assert q[|q| - 1] + [c] == p[|p| - 1] + y;
    }
  }

  /** A byte other than the separator extends the last piece. */
  lemma SplitAfterPlain(z: string, c: char, sep: char)
    requires c != sep
    ensures var q := Split(z, sep);
            Split(z + [c], sep) == q[..|q| - 1] + [q[|q| - 1] + [c]]
  {
    assert (z + [c])[..|z|] == z;
  }

  /** Joining pieces that contain no `sep` and splitting again gives them back. */
  lemma {:induction false} SplitJoin(pieces: seq<string>, sep: char)
    requires |pieces| > 0
    requires forall i :: 0 <= i < |pieces| ==> sep !in pieces[i]
    ensures Split(Join(pieces, sep), sep) == pieces
    decreases |pieces|
  {
    if |pieces| == 1 {
      SplitAppendPlain("", pieces[0], sep);
      assert "" + pieces[0] == pieces[0];
    } else {
      var init := pieces[..|pieces| - 1];
      var last := pieces[|pieces| - 1];
      forall i | 0 <= i < |init|
        ensures sep !in init[i]
      {
        assert init[i] == pieces[i];
      }
      SplitJoin(init, sep);
      var x := Join(init, sep) + [sep];
      SplitAfterSep(Join(init, sep), sep);
      SplitAppendPlain(x, last, sep);
      assert Join(pieces, sep) == x + last;
      assert (init + [""])[..|init|] == init;
      assert "" + last == last;
      assert pieces == init + [last];
    }
  }

  /** A separator at the end opens one more, empty, piece. */
  lemma SplitAfterSep(y: string, sep: char)
    ensures Split(y + [sep], sep) == Split(y, sep) + [""]
  {
    assert (y + [sep])[..|y|] == y;
  }

  function Repeat(c: char, n: nat): (s: string)
    ensures |s| == n && forall i :: 0 <= i < n ==> s[i] == c
  {
    if n == 0 then "" else Repeat(c, n - 1) + [c]
  }

  /** Last column the caret span may reach: the token end clipped to the line. */
  function ColEnd(lineText: string, colStart: nat, tokenSize: nat): nat {
    if colStart + tokenSize <= |lineText| then colStart + tokenSize else |lineText|
  }

  function WindowFirst(line: nat): nat {
    if line >= 3 then line - 3 else 0
  }

  function WindowLast(line: nat, lineCount: nat): nat {
    if line + 3 <= lineCount then line + 3 else lineCount
  }

  /** Carets of `for (i = col_start; i <= col_end; ++i)`. */
  function InclusiveCarets(colStart: nat, colEnd: nat): nat {
    if colStart <= colEnd then colEnd - colStart + 1 else 0
  }

  /** `setw(5) << (k + 1) << " | " << ctx[k] << "\n"` */
  function LineRow(ctx: seq<string>, k: nat): string
    requires k < |ctx|
  {
    PadLeft(NatToString(k + 1), 5) + " | " + ctx[k] + "\n"
  }

  /** The row under the error line: `col_start` spaces then the carets. */
  function MarkerRow(colStart: nat, carets: nat): string {
    "      | " + Spaces(colStart) + Repeat('^', carets) + "\n"
  }

  /** The rows the loop writes for `loop` in [first, k). */
  function ContextRows(ctx: seq<string>, line: nat, colStart: nat, carets: nat, first: nat, k: nat): (rows: seq<string>)
    requires first <= k <= |ctx|
    ensures |rows| == (k - first) + (if first <= line < k then 1 else 0)
    decreases k - first
  {
    if k == first then []
    else
      ContextRows(ctx, line, colStart, carets, first, k - 1) + [LineRow(ctx, k - 1)]
      + (if k - 1 == line then [MarkerRow(colStart, carets)] else [])
  }

  function Concat(rows: seq<string>): string {
    if |rows| == 0 then "" else Concat(rows[..|rows| - 1]) + rows[|rows| - 1]
  }

  lemma ConcatSnoc(rows: seq<string>, x: string)
    ensures Concat(rows + [x]) == Concat(rows) + x
  {
    assert (rows + [x])[..|rows|] == rows;
  }

  /** The text makeContext writes for an error at `line`, `colStart`, with
      `carets` carets. */
  function Render(ctx: seq<string>, line: nat, colStart: nat, carets: nat): string
    requires line < |ctx|
  {
    Concat(ContextRows(ctx, line, colStart, carets, WindowFirst(line), WindowLast(line, |ctx|)))
  }

  /** The caret count of src/main.cpp's makeContext. */
  function SourceCarets(ctx: seq<string>, line: nat, colStart: nat, exp: string): nat
    requires line < |ctx|
  {
    InclusiveCarets(colStart, ColEnd(ctx[line], colStart, |exp|))
  }

  /** The marker row of src/main.cpp: `col_start` spaces, then a caret for
      each column of `col_start ..= col_end`. */
  method WriteMarker(colStart: nat, colEnd: nat) returns (marker: string)
    ensures marker + "\n" == MarkerRow(colStart, InclusiveCarets(colStart, colEnd))
  {
    marker := "      | ";
    for i := 0 to colStart
      invariant marker == "      | " + Spaces(i)
    {
      marker := marker + " ";
    }
    var i := colStart;
    while i <= colEnd
      invariant colStart <= i <= (if colStart <= colEnd then colEnd + 1 else colStart)
      invariant marker == "      | " + Spaces(colStart) + Repeat('^', i - colStart)
      decreases colEnd + 1 - i
    {
      marker := marker + "^";
      i := i + 1;
    }
  }

  /** Writes the line `loop` and, after the error line, the marker row. */
  method WriteRow(ctx: seq<string>, line: nat, colStart: nat, colEnd: nat, loop: nat) returns (out: string)
    requires loop < |ctx|
    ensures out == LineRow(ctx, loop)
                   + (if loop == line then MarkerRow(colStart, InclusiveCarets(colStart, colEnd)) else "")
  {
    out := PadLeft(NatToString(loop + 1), 5) + " | " + ctx[loop] + "\n";
    if loop == line {
      var marker := WriteMarker(colStart, colEnd);
      out := out + (marker + "\n");
    } else {
      assert out + "" == out;
    }
  }

  /** The loop of makeContext over the window `[first, last)`. */
  method WriteRows(ctx: seq<string>, line: nat, colStart: nat, colEnd: nat, first: nat, last: nat)
    returns (out: string)
    requires first <= last <= |ctx|
    ensures out == Concat(ContextRows(ctx, line, colStart, InclusiveCarets(colStart, colEnd), first, last))
  {
    ghost var carets := InclusiveCarets(colStart, colEnd);
    out := "";
    for loop := first to last
      invariant out == Concat(ContextRows(ctx, line, colStart, carets, first, loop))
    {
      var row := WriteRow(ctx, line, colStart, colEnd, loop);
      ContextRowsStep(ctx, line, colStart, carets, first, loop);
      out := out + row;
    }
  }

  /** makeContext. `ctx[line]` must exist. */
  method MakeContext(code: string, line: nat, colStart: nat, exp: string) returns (out: string)
    requires line < |Split(code, '\n')|
    ensures var ctx := Split(code, '\n');
            out == Render(ctx, line, colStart, SourceCarets(ctx, line, colStart, exp))
  {
    var ctx := SplitString(code, '\n');
    var colEnd := ColEnd(ctx[line], colStart, |exp|);
    out := WriteRows(ctx, line, colStart, colEnd, WindowFirst(line), WindowLast(line, |ctx|));
  }

  /** One more iteration of the row loop appends its row (and the marker row). */
  lemma ContextRowsStep(ctx: seq<string>, line: nat, colStart: nat, carets: nat, first: nat, k: nat)
    requires first <= k < |ctx|
    ensures Concat(ContextRows(ctx, line, colStart, carets, first, k + 1))
            == Concat(ContextRows(ctx, line, colStart, carets, first, k)) + LineRow(ctx, k)
               + (if k == line then MarkerRow(colStart, carets) else "")
  {
    var rows := ContextRows(ctx, line, colStart, carets, first, k);
    ConcatSnoc(rows, LineRow(ctx, k));
    if k == line {
      ConcatSnoc(rows + [LineRow(ctx, k)], MarkerRow(colStart, carets));
    } else {
      assert rows + [LineRow(ctx, k)] + [] == rows + [LineRow(ctx, k)];
    }
  }

  /** The window holds the error line, at most three lines before it and at
      most two after it, clipped to the text. */
  lemma WindowBounds(line: nat, lineCount: nat)
    requires line < lineCount
    ensures WindowFirst(line) <= line < WindowLast(line, lineCount) <= lineCount
    ensures line - WindowFirst(line) == if line < 3 then line else 3
    ensures WindowLast(line, lineCount) - line - 1 == if line + 3 <= lineCount then 2 else lineCount - line - 1
  {
  }

  /** One more loop iteration keeps the earlier rows and appends the line
      (and, after the error line, the marker row). */
  lemma ContextRowsSnoc(ctx: seq<string>, line: nat, colStart: nat, carets: nat, first: nat, k: nat)
    requires first < k <= |ctx|
    ensures var prev := ContextRows(ctx, line, colStart, carets, first, k - 1);
            var rows := ContextRows(ctx, line, colStart, carets, first, k);
            && (forall i :: 0 <= i < |prev| ==> rows[i] == prev[i])
            && rows[|prev|] == LineRow(ctx, k - 1)
            && (k - 1 == line ==> rows[|prev| + 1] == MarkerRow(colStart, carets))
  {
  }

  /** The lines up to and including the error line come first, in order. */
  lemma {:induction false} ContextRowsBefore(ctx: seq<string>, line: nat, colStart: nat, carets: nat, first: nat, k: nat)
    requires first <= k <= |ctx|
    ensures forall i :: 0 <= i < k - first && first + i <= line ==>
              ContextRows(ctx, line, colStart, carets, first, k)[i] == LineRow(ctx, first + i)
    decreases k - first
  {
    if k > first {
      ContextRowsBefore(ctx, line, colStart, carets, first, k - 1);
      ContextRowsSnoc(ctx, line, colStart, carets, first, k);
    }
  }

  /** The marker row directly follows the error line. */
  lemma {:induction false} ContextRowsMarker(ctx: seq<string>, line: nat, colStart: nat, carets: nat, first: nat, k: nat)
    requires first <= line < k <= |ctx|
    ensures ContextRows(ctx, line, colStart, carets, first, k)[line - first + 1] == MarkerRow(colStart, carets)
    decreases k - first
  {
    if k - 1 > line {
      ContextRowsMarker(ctx, line, colStart, carets, first, k - 1);
      ContextRowsSnoc(ctx, line, colStart, carets, first, k);
    } else {
      ContextRowsSnoc(ctx, line, colStart, carets, first, k);
    }
  }

  /** In a window that starts at or before the error line, the lines after
      it follow the marker row in order. */
  lemma {:induction false} ContextRowsAfter(ctx: seq<string>, line: nat, colStart: nat, carets: nat, first: nat, k: nat)
    requires first <= line && first <= k <= |ctx|
    ensures forall i :: 1 <= i <= k - first && first + i - 1 > line ==>
              ContextRows(ctx, line, colStart, carets, first, k)[i] == LineRow(ctx, first + i - 1)
    decreases k - first
  {
    if k > first {
      ContextRowsAfter(ctx, line, colStart, carets, first, k - 1);
      ContextRowsSnoc(ctx, line, colStart, carets, first, k);
      var prev := ContextRows(ctx, line, colStart, carets, first, k - 1);
      var rows := ContextRows(ctx, line, colStart, carets, first, k);
      forall i | 1 <= i <= k - first && first + i - 1 > line
        ensures rows[i] == LineRow(ctx, first + i - 1)
      {
        if i < k - first {
          assert rows[i] == prev[i];
        } else {
          assert i == |prev|;
        }
      }
    }
  }

  /** The marker row: `colStart` spaces after the gutter, then exactly
      `carets` carets. */
  lemma MarkerRowLayout(colStart: nat, carets: nat)
    ensures var m := MarkerRow(colStart, carets);
            && |m| == 8 + colStart + carets + 1
            && m[..8] == "      | "
            && (forall i :: 8 <= i < 8 + colStart ==> m[i] == ' ')
            && (forall i :: 8 + colStart <= i < 8 + colStart + carets ==> m[i] == '^')
            && m[|m| - 1] == '\n'
  {
  }

  /** A source row: the line number right-aligned in five columns (for
      numbers below 100000), then " | ", the line text and a line feed. */
  lemma LineRowLayout(ctx: seq<string>, k: nat)
    requires k < |ctx| && k + 1 < 100000
    ensures var r := LineRow(ctx, k);
            var num := NatToString(k + 1);
            && |num| <= 5
            && r[..5] == Spaces(5 - |num|) + num
            && r[5..8] == " | " && r[8..|r| - 1] == ctx[k] && r[|r| - 1] == '\n'
  {
    assert Pow10(5) == 100000;
    NatToStringLength(k + 1, 5);
    var num := NatToString(k + 1);
    var pad := PadLeft(num, 5);
    assert |pad| == 5;
    assert pad == Spaces(5 - |num|) + num;
    var r := LineRow(ctx, k);
    assert r == pad + " | " + ctx[k] + "\n";
    assert r[..5] == pad;
    assert r[5..8] == " | ";
  }

  function Pow10(k: nat): nat {
    if k == 0 then 1 else 10 * Pow10(k - 1)
  }

  lemma {:induction false} NatToStringLength(n: nat, k: nat)
    requires 0 < k && n < Pow10(k)
    ensures |NatToString(n)| <= k
    decreases k
  {
    if n >= 10 {
      NatToStringLength(n / 10, k - 1);
    }
  }

  /** The caret span covers the token's columns on the error line and one
      column more: `|exp| + 1` carets when the token fits on the line, and
      none when `colStart` is past the line's end. */
  lemma SourceCaretCount(ctx: seq<string>, line: nat, colStart: nat, exp: string)
    requires line < |ctx|
    ensures colStart + |exp| <= |ctx[line]| ==> SourceCarets(ctx, line, colStart, exp) == |exp| + 1
    ensures colStart <= |ctx[line]| < colStart + |exp| ==>
              SourceCarets(ctx, line, colStart, exp) == |ctx[line]| - colStart + 1
    ensures colStart > |ctx[line]| ==> SourceCarets(ctx, line, colStart, exp) == 0
  {
  }

  /** The `switch (e.symbol)` of src/main.cpp. */
  function EscapeSymbol(c: char): (r: string)
    ensures c !in {'\n', '\r', '\t', '\U{0B}', '\0', ' '} ==> r == [c]
    ensures |r| > 0
  {
    match c
    case '\n' => "'\\n'"
    case '\r' => "'\\r'"
    case '\t' => "'\\t'"
    case '\U{0B}' => "'\\v'"
    case '\0' => "EOF"
    case ' ' => "' '"
    case _ => [c]
  }

  /** Different symbols are never shown the same way. */
  lemma EscapeSymbolInjective(a: char, b: char)
    requires EscapeSymbol(a) == EscapeSymbol(b)
    ensures a == b
  {
    var ea := EscapeSymbol(a);
    if |ea| == 1 {
      assert [a] == ea && [b] == ea;
    } else {
      assert a in {'\n', '\r', '\t', '\U{0B}', '\0', ' '};
      assert b in {'\n', '\r', '\t', '\U{0B}', '\0', ' '};
    }
  }
}
