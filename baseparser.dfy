/** The cursor of src/baseparser.hpp and src/baseparser.cpp: a byte buffer,
    the offset one past the current symbol, the current symbol, its row and
    column, and the diagnostic backtrack counter; `accept`, `expect`,
    `backtrack` and the greedy lexers built on them. */
module Cursor {
  import opened Wrappers
  import opened Predicates
  import opened Scan

  /** The ParseError record: message, line, column, expected text, symbol. */
  datatype ParseError = ParseError(what: string, line: nat, col: nat, expr: string, symbol: char)

  /** `EOF` (-1) stored into the `char` m_sym. */
  const EofSymbol: char := '\U{FF}'

  const EmptyInputMessage: string := "Expected symbol, got empty string"

  /** Optional '\r' then '\n', as endOfLine tries it: the position after the
      attempt and whether the '\n' was there. A lone '\r' stays consumed. */
  function EolStep(input: seq<char>, count: nat): (nat, bool)
    requires 1 <= count <= |input| + 1
  {
    var c1 := if CanAccept(input, count, IsChar('\r')) then count + 1 else count;
    if CanAccept(input, c1, IsChar('\n')) then (c1 + 1, true) else (c1, false)
  }

  /** Where endOfLine leaves the cursor: attempts repeat while they find '\n'. */
  function EolEnd(input: seq<char>, count: nat): (c: nat)
    requires 1 <= count <= |input| + 1
    ensures count <= c <= |input| + 1
    decreases |input| + 1 - count
  {
    var step := EolStep(input, count);
    if step.1 then EolEnd(input, step.0) else step.0
  }

  class BaseParser {
    const input: seq<char>
    /** The character class of IsSymbol (predicates.hpp). */
    const symbols: set<char>
    var count: nat
    var row: nat
    var col: nat
    var sym: char
    var backtrackCount: nat

    /** row, col and sym are those derived from the first `count` bytes read. */
    ghost predicate Synced()
      reads this
      requires count <= |input| + 1
    {
      row == RowAt(input, count) && col == ColAt(input, count)
      && (count >= 1 ==> sym == CharAt(input, count - 1))
    }

    ghost predicate Valid()
      reads this
    {
      1 <= count <= |input| + 1 && Synced()
    }

    /** The predicate `name` accepts: IsEither(IsAlnum, IsSymbol). */
    function NamePred(): CharPred {
      IsEither(IsAlnum, IsSymbol(symbols))
    }

    /** The name `name` reads from position `c` (empty when none starts there). */
    function NameFrom(c: nat): string
      requires 1 <= c <= |input| + 1
    {
      Consumed(input, c, Run(input, c, NamePred()))
    }

    constructor (s: seq<char>, symbols: set<char>)
      requires |s| > 0
      ensures Valid() && input == s && this.symbols == symbols
      ensures count == 1 && sym == s[0] && backtrackCount == 0
    {
      input := s;
      this.symbols := symbols;
      backtrackCount := 0;
      count := 0;
      row := 0;
      col := 0;
      sym := '\0';
      new;
      Next();
    }

    /** The constructor as a whole: an empty buffer throws. */
    static method Create(s: seq<char>, symbols: set<char>) returns (r: Result<BaseParser, ParseError>)
      ensures r.Err? <==> |s| == 0
      ensures r.Err? ==> r.error == ParseError(EmptyInputMessage, 0, 0, "", EofSymbol)
      ensures r.Ok? ==> fresh(r.value) && r.value.Valid() && r.value.input == s
                        && r.value.symbols == symbols && r.value.count == 1
                        && r.value.sym == s[0] && r.value.backtrackCount == 0
    {
      if |s| == 0 {
        return Err(ParseError(EmptyInputMessage, 0, 0, "", EofSymbol));
      }
      var p := new BaseParser(s, symbols);
      return Ok(p);
    }

    function GetCol(): nat reads this { col }
    function GetRow(): nat reads this { row }
    function GetCount(): nat reads this { count }
    function GetSize(): nat { |input| }

    /** `m_count > size || m_sym == '\0'`: past the buffer, or on a NUL byte,
        including one inside the buffer. */
    predicate IsEOF(): (b: bool)
      reads this
      ensures Valid() ==> (b <==> AtEnd(input, count))
    {
      count > |input| || sym == '\0'
    }

    /** The ParseError that `error(msg, exp)` throws. */
    function Error(msg: string, exp: string): (e: ParseError)
      reads this
      ensures ReportsCursor(e) && e.what == msg && e.expr == exp
    {
      ParseError(msg, row, col, exp, sym)
    }

    /** `e` carries the cursor's current line, column and symbol. */
    predicate ReportsCursor(e: ParseError)
      reads this
    {
      e.line == row && e.col == col && e.symbol == sym
    }

    /** Loads `m_in[m_count]` and updates row and column from it. */
    method Next()
      requires count <= |input| && Synced()
      modifies this
      ensures Valid() && count == old(count) + 1 && backtrackCount == old(backtrackCount)
    {
      sym := CharAt(input, count);
      count := count + 1;
      var previous := CharAt(input, count - 1);
      if previous == '\n' {
        row := row + 1;
        col := 0;
      } else if IsPrint.Eval(previous) {
        col := col + 1;
      }
    }

    /** Moves to offset `n` and recomputes row and column by rescanning the
        prefix `m_in[0 .. n)`. Offset 0 would read `m_in[-1]`. */
    method Backtrack(n: nat)
      requires 1 <= n <= |input| + 1
      modifies this
      ensures Valid() && count == n && backtrackCount == old(backtrackCount) + 1
    {
      backtrackCount := backtrackCount + 1;
      count := n;
      sym := CharAt(input, count - 1);
      row := 0;
      col := 0;
      for i := 0 to n
        invariant count == n && sym == CharAt(input, n - 1)
        invariant backtrackCount == old(backtrackCount) + 1
        invariant row == RowAt(input, i) && col == ColAt(input, i)
      {
        var c := CharAt(input, i);
        if c == '\n' {
          row := row + 1;
          col := 0;
        } else if IsPrint.Eval(c) {
          col := col + 1;
        }
      }
    }

    method Accept(p: CharPred, s: string) returns (ok: bool, s': string)
      requires Valid()
      modifies this
      ensures Valid() && backtrackCount == old(backtrackCount)
      ensures ok == CanAccept(input, old(count), p)
      ensures ok ==> count == old(count) + 1 && s' == s + [old(sym)]
      ensures !ok ==> count == old(count) && row == old(row) && col == old(col)
                      && sym == old(sym) && s' == s
    {
      if IsEOF() {
        return false, s;
      }
      if !p.Eval(sym) {
        return false, s;
      }
      s' := s + [sym];
      Next();
      ok := true;
    }

    /** Like accept without the end-of-input check, throwing on a mismatch.
        At offset size+1 the symbol is the terminator NUL; accepting it there
        would read past the buffer. */
    method Expect(p: CharPred, s: string) returns (r: Result<string, ParseError>)
      requires Valid()
      requires count <= |input| || !p.Eval('\0')
      modifies this
      ensures Valid() && backtrackCount == old(backtrackCount)
      ensures p.Eval(old(sym)) ==> count == old(count) + 1 && r == Ok(s + [old(sym)])
      ensures !p.Eval(old(sym)) ==> count == old(count) && row == old(row) && col == old(col)
                                    && sym == old(sym)
                                    && r == Err(ParseError("Expected " + p.Name(), row, col, [sym], sym))
    {
      if !p.Eval(sym) {
        return Err(Error("Expected " + p.Name(), [sym]));
      }
      var s' := s + [sym];
      Next();
      return Ok(s');
    }

    /** `while (accept(p, s)) ;` */
    method AcceptWhile(p: CharPred, s: string) returns (s': string)
      requires Valid()
      modifies this
      ensures Valid() && backtrackCount == old(backtrackCount)
      ensures count == old(count) + Run(input, old(count), p)
      ensures s' == s + Consumed(input, old(count), Run(input, old(count), p))
      ensures !CanAccept(input, count, p)
    {
      s' := s;
      var more := true;
      while more
        invariant Valid() && backtrackCount == old(backtrackCount)
        invariant old(count) <= count
        invariant Run(input, old(count), p) == (count - old(count)) + Run(input, count, p)
        invariant s' == s + Consumed(input, old(count), count - old(count))
        invariant !more ==> !CanAccept(input, count, p)
        decreases |input| + 1 - count, more
      {
        ghost var before := count;
        more, s' := Accept(p, s');
        if more {
          ConsumedSnoc(input, old(count), before - old(count));
        }
      }
    }

    /** `if (accept(p, s)) { while (accept(p, s)) ; return true; } return false;`,
        the shape of number, name and anyUntil. */
    method AcceptMany(p: CharPred, s: string) returns (ok: bool, s': string)
      requires Valid()
      modifies this
      ensures Valid() && backtrackCount == old(backtrackCount)
      ensures count == old(count) + Run(input, old(count), p)
      ensures ok <==> count > old(count)
      ensures s' == s + Consumed(input, old(count), Run(input, old(count), p))
      ensures !CanAccept(input, count, p)
    {
      ok, s' := Accept(p, s);
      if ok {
        ghost var c1 := count;
        s' := AcceptWhile(p, s');
        ConsumedSplit(input, old(count), 1, count - c1);
      }
    }

    /** Skips white space, appending a single ' ' however much was skipped. */
    method Space(s: string) returns (ok: bool, s': string)
      requires Valid()
      modifies this
      ensures Valid() && backtrackCount == old(backtrackCount)
      ensures count == old(count) + Run(input, old(count), IsSpace)
      ensures ok <==> count > old(count)
      ensures s' == if ok then s + " " else s
      ensures !CanAccept(input, count, IsSpace)
    {
      var ignored;
      ok, ignored := Accept(IsSpace, "");
      if ok {
        s' := s + " ";
        var _ := AcceptWhile(IsSpace, "");
      } else {
        s' := s;
      }
    }

    /** Skips spaces and tabs (not line breaks), appending a single ' '. */
    method InlineSpace(s: string) returns (ok: bool, s': string)
      requires Valid()
      modifies this
      ensures Valid() && backtrackCount == old(backtrackCount)
      ensures count == old(count) + Run(input, old(count), IsInlineSpace)
      ensures ok <==> count > old(count)
      ensures s' == if ok then s + " " else s
      ensures !CanAccept(input, count, IsInlineSpace)
    {
      var ignored;
      ok, ignored := Accept(IsInlineSpace, "");
      if ok {
        s' := s + " ";
        var _ := AcceptWhile(IsInlineSpace, "");
      } else {
        s' := s;
      }
    }

    /** `(accept('\r') || true) && accept('\n')`, repeated; appends one '\n'. */
    method EndOfLine(s: string) returns (ok: bool, s': string)
      requires Valid()
      modifies this
      ensures Valid() && backtrackCount == old(backtrackCount)
      ensures ok == EolStep(input, old(count)).1
      ensures count == EolEnd(input, old(count))
      ensures s' == if ok then s + "\n" else s
    {
      ok := EolAttempt();
      if !ok {
        return false, s;
      }
      s' := s + "\n";
      var more := true;
      while more
        invariant Valid() && backtrackCount == old(backtrackCount)
        invariant more ==> EolEnd(input, old(count)) == EolEnd(input, count)
        invariant !more ==> count == EolEnd(input, old(count))
        decreases |input| + 1 - count, more
      {
        more := EolAttempt();
      }
    }

    /** One attempt of endOfLine: an optional '\r', then '\n'. */
    method EolAttempt() returns (ok: bool)
      requires Valid()
      modifies this
      ensures Valid() && backtrackCount == old(backtrackCount)
      ensures (count, ok) == EolStep(input, old(count))
    {
      var _, _ := Accept(IsChar('\r'), "");
      var ignored;
      ok, ignored := Accept(IsChar('\n'), "");
    }

    method Number(s: string) returns (ok: bool, s': string)
      requires Valid()
      modifies this
      ensures Valid() && backtrackCount == old(backtrackCount)
      ensures count == old(count) + Run(input, old(count), IsDigit)
      ensures ok <==> count > old(count)
      ensures s' == s + Consumed(input, old(count), Run(input, old(count), IsDigit))
    {
      ok, s' := AcceptMany(IsDigit, s);
    }

    /** `return accept(IsMinus, s), number(s);`: the comma operator discards
        the first result, so a '-' without digits stays consumed. */
    method SignedNumber(s: string) returns (ok: bool, s': string)
      requires Valid()
      modifies this
      ensures Valid() && backtrackCount == old(backtrackCount)
      ensures var m := if CanAccept(input, old(count), IsMinus) then 1 else 0;
              var digits := Run(input, old(count) + m, IsDigit);
              && count == old(count) + m + digits
              && ok == (digits > 0)
              && s' == s + Consumed(input, old(count), m + digits)
    {
      var minus, s1 := Accept(IsMinus, s);
      ghost var c1 := count;
      ok, s' := Number(s1);
      ConsumedSplit(input, old(count), c1 - old(count), count - c1);
    }

    method Name(s: string) returns (ok: bool, s': string)
      requires Valid()
      modifies this
      ensures Valid() && backtrackCount == old(backtrackCount)
      ensures count == old(count) + Run(input, old(count), NamePred())
      ensures ok <==> count > old(count)
      ensures s' == s + Consumed(input, old(count), Run(input, old(count), NamePred()))
    {
      ok, s' := AcceptMany(NamePred(), s);
    }

    /** An alphanumeric byte, then alphanumerics or '_'. */
    method PackageName(s: string) returns (ok: bool, s': string)
      requires Valid()
      modifies this
      ensures Valid() && backtrackCount == old(backtrackCount)
      ensures ok == CanAccept(input, old(count), IsAlnum)
      ensures ok ==> count == old(count) + 1 + Run(input, old(count) + 1, IsEither(IsAlnum, IsChar('_')))
      ensures !ok ==> count == old(count)
      ensures s' == s + Consumed(input, old(count), count - old(count))
    {
      ok, s' := Accept(IsAlnum, s);
      if ok {
        ghost var c1 := count;
        s' := AcceptWhile(IsEither(IsAlnum, IsChar('_')), s');
        ConsumedSplit(input, old(count), 1, count - c1);
      }
    }

    /** Consumes everything up to (not including) a byte satisfying `delim`. */
    method AnyUntil(delim: CharPred, s: string) returns (ok: bool, s': string)
      requires Valid()
      modifies this
      ensures Valid() && backtrackCount == old(backtrackCount)
      ensures count == old(count) + Run(input, old(count), IsNot(delim))
      ensures ok <==> count > old(count)
      ensures s' == s + Consumed(input, old(count), Run(input, old(count), IsNot(delim)))
      ensures !CanAccept(input, count, IsNot(delim))
    {
      ok, s' := AcceptMany(IsNot(delim), s);
    }

    /** Reads a whole name into `s` (replacing it) even when it is not one of
        `words`; true iff some name was read and it is one of `words`. */
    method OneOf(words: seq<string>, s: string) returns (ok: bool, s': string)
      requires Valid()
      modifies this
      ensures Valid() && backtrackCount == old(backtrackCount)
      ensures var w := Consumed(input, old(count), Run(input, old(count), NamePred()));
              && count == old(count) + |w|
              && s' == (if |w| > 0 then w else s)
              && ok == (|w| > 0 && w in words)
    {
      var named, buffer := Name("");
      if !named {
        return false, s;
      }
      s' := buffer;
      ok := buffer in words;
    }
  }
}
