/** The older renderer of legacy_parser/src/Compiler/AST/makeErrorCtx.cpp:
    the same window and line format as src/main.cpp, but a caret loop with
    `<`, a token size instead of the token text, and a token-based entry
    point that prefixes an "On line" header. Its `Utils::splitString` is
    not part of this model; the same Split as src/main.cpp's is used. */
module LegacyErrorContext {
  import opened Decimal
  import opened ErrorContext

  /** Carets of `for (i = col_start; i < col_end; ++i)`. */
  function ExclusiveCarets(colStart: nat, colEnd: nat): nat {
    if colStart < colEnd then colEnd - colStart else 0
  }

  function LegacyCarets(ctx: seq<string>, line: nat, colStart: nat, symSize: nat): nat
    requires line < |ctx|
  {
    ExclusiveCarets(colStart, ColEnd(ctx[line], colStart, symSize))
  }

  /** The marker row with `for (i = col_start; i < col_end; ++i)`. */
  method WriteMarker(colStart: nat, colEnd: nat) returns (marker: string)
    ensures marker + "\n" == MarkerRow(colStart, ExclusiveCarets(colStart, colEnd))
  {
    marker := "      | ";
    for i := 0 to colStart
      invariant marker == "      | " + Spaces(i)
    {
      marker := marker + " ";
    }
    var i := colStart;
    while i < colEnd
      invariant colStart <= i && (colStart < colEnd ==> i <= colEnd) && (colEnd <= colStart ==> i == colStart)
      invariant marker == "      | " + Spaces(colStart) + Repeat('^', i - colStart)
      decreases colEnd - i
    {
      marker := marker + "^";
      i := i + 1;
    }
  }

  method WriteRow(ctx: seq<string>, line: nat, colStart: nat, colEnd: nat, loop: nat) returns (out: string)
    requires loop < |ctx|
    ensures out == LineRow(ctx, loop)
                   + (if loop == line then MarkerRow(colStart, ExclusiveCarets(colStart, colEnd)) else "")
  {
    out := PadLeft(NatToString(loop + 1), 5) + " | " + ctx[loop] + "\n";
    if loop == line {
      var marker := WriteMarker(colStart, colEnd);
      out := out + (marker + "\n");
    } else {
      assert out + "" == out;
    }
  }

  /** The row loop of the legacy makeContext over `[first, last)`. */
  method WriteRows(ctx: seq<string>, line: nat, colStart: nat, colEnd: nat, first: nat, last: nat)
    returns (out: string)
    requires first <= last <= |ctx|
    ensures out == Concat(ContextRows(ctx, line, colStart, ExclusiveCarets(colStart, colEnd), first, last))
  {
    ghost var carets := ExclusiveCarets(colStart, colEnd);
    out := "";
    for loop := first to last
      invariant out == Concat(ContextRows(ctx, line, colStart, carets, first, loop))
    {
      var row := WriteRow(ctx, line, colStart, colEnd, loop);
      ContextRowsStep(ctx, line, colStart, carets, first, loop);
      out := out + row;
    }
  }

  /** makeContext with `sym_size`. `ctx[line]` must exist. */
  method MakeContext(code: string, line: nat, colStart: nat, symSize: nat) returns (out: string)
    requires line < |Split(code, '\n')|
    ensures var ctx := Split(code, '\n');
            out == Render(ctx, line, colStart, LegacyCarets(ctx, line, colStart, symSize))
  {
    var ctx := SplitString(code, '\n');
    var colEnd := ColEnd(ctx[line], colStart, symSize);
    out := WriteRows(ctx, line, colStart, colEnd, WindowFirst(line), WindowLast(line, |ctx|));
  }

  function Header(line: nat, col: nat): string {
    "On line " + NatToString(line + 1) + ":" + NatToString(col) + "\n"
  }

  /** makeTokenBasedErrorCtx: the header, then the context of a token of `|token|` bytes (`match` in the source). */
  method MakeTokenBasedErrorCtx(token: string, line: nat, col: nat, code: string) returns (out: string)
    requires line < |Split(code, '\n')|
    ensures var ctx := Split(code, '\n');
            out == Header(line, col) + Render(ctx, line, col, LegacyCarets(ctx, line, col, |token|))
  {
    var ss := "On line " + NatToString(line + 1) + ":" + NatToString(col) + "\n";
    var ctxText := MakeContext(code, line, col, |token|);
    out := ss + ctxText;
  }

  /** The legacy caret span is exactly the token's columns that lie on the
      error line: none when `colStart` is at or past the end of the line. */
  lemma LegacyCaretCount(ctx: seq<string>, line: nat, colStart: nat, symSize: nat)
    requires line < |ctx|
    ensures colStart + symSize <= |ctx[line]| ==> LegacyCarets(ctx, line, colStart, symSize) == symSize
    ensures colStart <= |ctx[line]| < colStart + symSize ==>
              LegacyCarets(ctx, line, colStart, symSize) == |ctx[line]| - colStart
    ensures colStart >= |ctx[line]| ==> LegacyCarets(ctx, line, colStart, symSize) == 0
  {
  }

  /** src/main.cpp draws one caret more than the legacy renderer whenever the
      error column is on the line, and both draw none past its end. */
  lemma CaretsDifferByOne(ctx: seq<string>, line: nat, colStart: nat, exp: string)
    requires line < |ctx|
    ensures colStart <= |ctx[line]| ==>
              SourceCarets(ctx, line, colStart, exp) == LegacyCarets(ctx, line, colStart, |exp|) + 1
    ensures colStart > |ctx[line]| ==>
              SourceCarets(ctx, line, colStart, exp) == 0 == LegacyCarets(ctx, line, colStart, |exp|)
  {
  }

  /** The header gives the 1-based line and the column after "On line ". */
  lemma HeaderLayout(line: nat, col: nat)
    ensures var h := Header(line, col);
            var l := NatToString(line + 1);
            && h[..8] == "On line "
            && h[8..8 + |l|] == l && h[8 + |l|] == ':'
            && h[9 + |l|..|h| - 1] == NatToString(col) && h[|h| - 1] == '\n'
  {
  }
}
