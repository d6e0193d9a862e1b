/** The older cursor of src/combinator.hpp and src/combinator.cpp. It keeps
    the same fields as BaseParser (without the backtrack counter) but its
    `accept` has no end-of-input guard, its end-of-input test uses `>=`,
    its `name` starts with a letter, and the symbol and error fields are
    `int`s. */
module Combinators {
  import opened Wrappers
  import opened Predicates
  import opened Scan
  import Cursor

  /** The legacy ParseError record: row, col and sym are plain ints. */
  datatype LegacyParseError = LegacyParseError(what: string, row: int, col: int, exp: string, sym: int)

  /** The `EOF` macro the constructor stores into the int m_sym. */
  const Eof: int := -1

  /** Some byte from position `count` on fails `p`, so repeated accepts stop
      at or before the terminator that `m_in[size]` reads. */
  ghost predicate Stops(input: seq<char>, count: nat, p: CharPred)
    requires 1 <= count <= |input| + 1
    decreases |input| + 1 - count
  {
    !p.Eval(CharAt(input, count - 1)) || (count <= |input| && Stops(input, count + 1, p))
  }

  /** Stops(input, count, p) says exactly that a failing byte lies ahead. */
  lemma {:induction false} StopsWitness(input: seq<char>, count: nat, p: CharPred)
    requires 1 <= count <= |input| + 1
    ensures Stops(input, count, p) <==> exists j :: count - 1 <= j <= |input| && !p.Eval(CharAt(input, j))
    decreases |input| + 1 - count
  {
    if p.Eval(CharAt(input, count - 1)) && count <= |input| {
      StopsWitness(input, count + 1, p);
      if exists j :: count - 1 <= j <= |input| && !p.Eval(CharAt(input, j)) {
        var j :| count - 1 <= j <= |input| && !p.Eval(CharAt(input, j));
        assert count <= j;
      }
    }
  }

  /** How many consecutive legacy `accept(p)` calls succeed from `count`:
      unlike Run, a NUL byte does not stop them unless `p` rejects it. */
  function LegacyRun(input: seq<char>, count: nat, p: CharPred): (n: nat)
    requires 1 <= count <= |input| + 1
    requires Stops(input, count, p)
    ensures count + n <= |input| + 1
    ensures n > 0 <==> p.Eval(CharAt(input, count - 1))
    decreases |input| + 1 - count
  {
    if p.Eval(CharAt(input, count - 1)) then 1 + LegacyRun(input, count + 1, p) else 0
  }

  /** A predicate that rejects NUL always stops at the terminator. */
  lemma {:induction false} NulRejectingStops(input: seq<char>, count: nat, p: CharPred)
    requires 1 <= count <= |input| + 1
    requires !p.Eval('\0')
    ensures Stops(input, count, p)
    decreases |input| + 1 - count
  {
    if count <= |input| {
      NulRejectingStops(input, count + 1, p);
    }
  }

  /** For a predicate that rejects NUL the missing end-of-input guard makes no
      difference: a legacy accept succeeds exactly where BaseParser's does. */
  lemma LegacyAcceptAgrees(input: seq<char>, count: nat, p: CharPred)
    requires 1 <= count <= |input| + 1
    requires !p.Eval('\0')
    ensures p.Eval(CharAt(input, count - 1)) == CanAccept(input, count, p)
  {
  }

  /** ... and so do whole runs of such a predicate. */
  lemma {:induction false} LegacyRunAgrees(input: seq<char>, count: nat, p: CharPred)
    requires 1 <= count <= |input| + 1
    requires !p.Eval('\0')
    ensures Stops(input, count, p)
    ensures LegacyRun(input, count, p) == Run(input, count, p)
    decreases |input| + 1 - count
  {
    NulRejectingStops(input, count, p);
    LegacyAcceptAgrees(input, count, p);
    if p.Eval(CharAt(input, count - 1)) {
      LegacyRunAgrees(input, count + 1, p);
    }
  }

  /** In general the legacy cursor runs at least as far as BaseParser. */
  lemma {:induction false} LegacyRunCoversRun(input: seq<char>, count: nat, p: CharPred)
    requires 1 <= count <= |input| + 1
    requires Stops(input, count, p)
    ensures Run(input, count, p) <= LegacyRun(input, count, p)
    decreases |input| + 1 - count
  {
    if CanAccept(input, count, p) {
      LegacyRunCoversRun(input, count + 1, p);
    }
  }

  /** An embedded NUL byte ends a BaseParser run of anyUntil(')') at once,
      while the legacy run goes through it up to the ')'. */
  lemma NulEndsOnlyBaseAnyUntil()
    ensures Run(['\0', 'a', ')'], 1, IsNot(IsChar(')'))) == 0
    ensures Stops(['\0', 'a', ')'], 1, IsNot(IsChar(')')))
    ensures LegacyRun(['\0', 'a', ')'], 1, IsNot(IsChar(')'))) == 2
  {
    var input := ['\0', 'a', ')'];
    var p := IsNot(IsChar(')'));
    assert !p.Eval(CharAt(input, 2));
    assert LegacyRun(input, 3, p) == 0;
    assert LegacyRun(input, 2, p) == 1;
  }

  class ParserCombinators {
    const input: seq<char>
    var count: nat
    var row: nat
    var col: nat
    var sym: char

    ghost predicate Synced()
      reads this
      requires count <= |input| + 1
    {
      row == RowAt(input, count) && col == ColAt(input, count)
      && (count >= 1 ==> sym == CharAt(input, count - 1))
    }

    ghost predicate Valid()
      reads this
    {
      1 <= count <= |input| + 1 && Synced()
    }

    constructor (s: seq<char>)
      requires |s| > 0
      ensures Valid() && input == s && count == 1 && sym == s[0]
    {
      input := s;
      count := 0;
      row := 0;
      col := 0;
      sym := '\0';
      new;
      Next();
    }

    /** The constructor as a whole: an empty input throws with sym == EOF. */
    static method Create(s: seq<char>) returns (r: Result<ParserCombinators, LegacyParseError>)
      ensures r.Err? <==> |s| == 0
      ensures r.Err? ==> r.error == LegacyParseError("Expected symbol, got empty string", 0, 0, "", Eof)
      ensures r.Ok? ==> fresh(r.value) && r.value.Valid() && r.value.input == s
                        && r.value.count == 1 && r.value.sym == s[0]
    {
      if |s| == 0 {
        return Err(LegacyParseError("Expected symbol, got empty string", 0, 0, "", Eof));
      }
      var p := new ParserCombinators(s);
      return Ok(p);
    }

    function GetCol(): nat reads this { col }
    function GetRow(): nat reads this { row }
    function GetCount(): nat reads this { count }
    function GetSize(): nat { |input| }

    /** `m_count >= size`: the last real byte already counts as the end, so
        this holds exactly when BaseParser's test does, or one byte earlier. */
    predicate IsEOF(): (b: bool)
      reads this
      requires Valid()
      ensures b <==> AtEnd(input, count) || count == |input|
    {
      count >= |input| || sym == '\0'
    }

    /** The error carries the cursor's row, column and symbol. */
    function Error(msg: string, exp: string): (e: LegacyParseError)
      reads this
      ensures e.what == msg && e.exp == exp && e.row == row && e.col == col && e.sym == sym as int
    {
      LegacyParseError(msg, row, col, exp, sym as int)
    }

    method Next()
      requires count <= |input| && Synced()
      modifies this
      ensures Valid() && count == old(count) + 1
    {
      sym := CharAt(input, count);
      count := count + 1;
      var previous := CharAt(input, count - 1);
      if previous == '\n' {
        row := row + 1;
        col := 0;
      } else if IsPrint.Eval(previous) {
        col := col + 1;
      }
    }

    method Backtrack(n: nat)
      requires 1 <= n <= |input| + 1
      modifies this
      ensures Valid() && count == n
    {
      count := n;
      sym := CharAt(input, count - 1);
      row := 0;
      col := 0;
      for i := 0 to n
        invariant count == n && sym == CharAt(input, n - 1)
        invariant row == RowAt(input, i) && col == ColAt(input, i)
      {
        var c := CharAt(input, i);
        if c == '\n' {
          row := row + 1;
          col := 0;
        } else if IsPrint.Eval(c) {
          col := col + 1;
        }
      }
    }

    /** No end-of-input guard: a successful accept on the terminator at
        offset size+1 would read past the buffer, hence the precondition. */
    method Accept(p: CharPred, s: string) returns (ok: bool, s': string)
      requires Valid()
      requires count <= |input| || !p.Eval(sym)
      modifies this
      ensures Valid()
      ensures ok == p.Eval(old(sym))
      ensures ok ==> count == old(count) + 1 && s' == s + [old(sym)]
      ensures !ok ==> count == old(count) && row == old(row) && col == old(col)
                      && sym == old(sym) && s' == s
    {
      if !p.Eval(sym) {
        return false, s;
      }
      s' := s + [sym];
      Next();
      ok := true;
    }

    method Expect(p: CharPred, s: string) returns (r: Result<string, LegacyParseError>)
      requires Valid()
      requires count <= |input| || !p.Eval(sym)
      modifies this
      ensures Valid()
      ensures p.Eval(old(sym)) ==> count == old(count) + 1 && r == Ok(s + [old(sym)])
      ensures !p.Eval(old(sym)) ==> count == old(count) && row == old(row) && col == old(col)
                                    && sym == old(sym)
                                    && r == Err(LegacyParseError("Expected " + p.Name(), row, col, [sym], sym as int))
    {
      if !p.Eval(sym) {
        return Err(Error("Expected " + p.Name(), [sym]));
      }
      var s' := s + [sym];
      Next();
      return Ok(s');
    }

    /** One `accept(p, s)` of a run that is known to stop. */
    method RunStep(p: CharPred, s: string) returns (ok: bool, s': string)
      requires Valid() && Stops(input, count, p)
      modifies this
      ensures Valid()
      ensures ok == p.Eval(CharAt(input, old(count) - 1))
      ensures ok ==> old(count) <= |input| && count == old(count) + 1 && s' == s + [input[old(count) - 1]]
                     && Stops(input, count, p)
                     && LegacyRun(input, old(count), p) == 1 + LegacyRun(input, count, p)
      ensures !ok ==> count == old(count) && s' == s && LegacyRun(input, old(count), p) == 0
    {
      ok, s' := Accept(p, s);
    }

    /** `while (accept(p, s)) ;` */
    method AcceptWhile(p: CharPred, s: string) returns (s': string)
      requires Valid()
      requires Stops(input, count, p)
      modifies this
      ensures Valid()
      ensures count == old(count) + LegacyRun(input, old(count), p)
      ensures s' == s + Consumed(input, old(count), LegacyRun(input, old(count), p))
    {
      s' := s;
      var more := true;
      while more
        invariant Valid()
        invariant old(count) <= count
        invariant Stops(input, count, p)
        invariant LegacyRun(input, old(count), p) == (count - old(count)) + (if more then LegacyRun(input, count, p) else 0)
        invariant s' == s + Consumed(input, old(count), count - old(count))
        decreases |input| + 1 - count, more
      {
        ghost var before := count;
        more, s' := RunStep(p, s');
        if more {
          ConsumedSnoc(input, old(count), before - old(count));
        }
      }
    }

    /** `if (accept(p, s)) { while (accept(p, s)) ; return true; } return false;` */
    method AcceptMany(p: CharPred, s: string) returns (ok: bool, s': string)
      requires Valid()
      requires Stops(input, count, p)
      modifies this
      ensures Valid()
      ensures count == old(count) + LegacyRun(input, old(count), p)
      ensures ok <==> count > old(count)
      ensures s' == s + Consumed(input, old(count), LegacyRun(input, old(count), p))
    {
      ok, s' := Accept(p, s);
      if ok {
        ghost var c1 := count;
        s' := AcceptWhile(p, s');
        ConsumedSplit(input, old(count), 1, count - c1);
      }
    }

    method Space(s: string) returns (ok: bool, s': string)
      requires Valid()
      modifies this
      ensures Valid()
      ensures count == old(count) + Run(input, old(count), IsSpace)
      ensures ok <==> count > old(count)
      ensures s' == if ok then s + " " else s
    {
      LegacyRunAgrees(input, count, IsSpace);
      var ignored;
      ok, ignored := AcceptMany(IsSpace, "");
      s' := if ok then s + " " else s;
    }

    method InlineSpace(s: string) returns (ok: bool, s': string)
      requires Valid()
      modifies this
      ensures Valid()
      ensures count == old(count) + Run(input, old(count), IsInlineSpace)
      ensures ok <==> count > old(count)
      ensures s' == if ok then s + " " else s
    {
      LegacyRunAgrees(input, count, IsInlineSpace);
      var ignored;
      ok, ignored := AcceptMany(IsInlineSpace, "");
      s' := if ok then s + " " else s;
    }

    /** One `(accept(IsChar('\r')) || true) && accept(IsChar('\n'))`. */
    method EolAttempt() returns (ok: bool)
      requires Valid()
      modifies this
      ensures Valid()
      ensures ok == Cursor.EolStep(input, old(count)).1
      ensures count == Cursor.EolStep(input, old(count)).0
    {
      LegacyAcceptAgrees(input, count, IsChar('\r'));
      var _, _ := Accept(IsChar('\r'), "");
      LegacyAcceptAgrees(input, count, IsChar('\n'));
      var ignored;
      ok, ignored := Accept(IsChar('\n'), "");
    }

    /** Same steps as BaseParser::endOfLine: both bytes it accepts reject NUL. */
    method EndOfLine(s: string) returns (ok: bool, s': string)
      requires Valid()
      modifies this
      ensures Valid()
      ensures ok == Cursor.EolStep(input, old(count)).1
      ensures count == Cursor.EolEnd(input, old(count))
      ensures s' == if ok then s + "\n" else s
    {
      ok := EolAttempt();
      if !ok {
        return false, s;
      }
      s' := s + "\n";
      var more := true;
      while more
        invariant Valid()
        invariant more ==> Cursor.EolEnd(input, old(count)) == Cursor.EolEnd(input, count)
        invariant !more ==> count == Cursor.EolEnd(input, old(count))
        decreases |input| + 1 - count, more
      {
        more := EolAttempt();
      }
    }

    method Number(s: string) returns (ok: bool, s': string)
      requires Valid()
      modifies this
      ensures Valid()
      ensures count == old(count) + Run(input, old(count), IsDigit)
      ensures ok <==> count > old(count)
      ensures s' == s + Consumed(input, old(count), Run(input, old(count), IsDigit))
    {
      LegacyRunAgrees(input, count, IsDigit);
      ok, s' := AcceptMany(IsDigit, s);
    }

    /** `return accept(IsMinus, s), number(s);`: a '-' without digits stays consumed. */
    method SignedNumber(s: string) returns (ok: bool, s': string)
      requires Valid()
      modifies this
      ensures Valid()
      ensures var m := if CanAccept(input, old(count), IsMinus) then 1 else 0;
              var digits := Run(input, old(count) + m, IsDigit);
              && count == old(count) + m + digits
              && ok == (digits > 0)
              && s' == s + Consumed(input, old(count), m + digits)
    {
      LegacyAcceptAgrees(input, count, IsMinus);
      var minus, s1 := Accept(IsMinus, s);
      ghost var c1 := count;
      ok, s' := Number(s1);
      ConsumedSplit(input, old(count), c1 - old(count), count - c1);
    }

    /** A letter, then `accept(IsAlnum) || accept(IsChar('_'))` repeatedly. */
    method Name(s: string) returns (ok: bool, s': string)
      requires Valid()
      modifies this
      ensures Valid()
      ensures ok == CanAccept(input, old(count), IsAlpha)
      ensures ok ==> count == old(count) + 1 + Run(input, old(count) + 1, IsEither(IsAlnum, IsChar('_')))
      ensures !ok ==> count == old(count)
      ensures s' == s + Consumed(input, old(count), count - old(count))
    {
      LegacyAcceptAgrees(input, count, IsAlpha);
      ok, s' := Accept(IsAlpha, s);
      if ok {
        ghost var c1 := count;
        s' := NameTail(s');
        ConsumedSplit(input, old(count), 1, count - c1);
      }
    }

    /** The repeated `accept(IsAlnum) || accept(IsChar('_'))` of `name`. */
    method NameTail(s: string) returns (s': string)
      requires Valid()
      modifies this
      ensures Valid()
      ensures count == old(count) + Run(input, old(count), IsEither(IsAlnum, IsChar('_')))
      ensures s' == s + Consumed(input, old(count), count - old(count))
    {
      s' := s;
      var more := true;
      while more
        invariant Valid() && old(count) <= count
        invariant Run(input, old(count), IsEither(IsAlnum, IsChar('_')))
                  == (count - old(count)) + (if more then Run(input, count, IsEither(IsAlnum, IsChar('_'))) else 0)
        invariant s' == s + Consumed(input, old(count), count - old(count))
        decreases |input| + 1 - count, more
      {
        ghost var before := count;
        more, s' := NameByte(s');
        if more {
          ConsumedSnoc(input, old(count), before - old(count));
        }
      }
    }

    /** `accept(IsAlnum, s) || accept(IsChar('_'), s)`, one step of `name`. */
    method NameByte(s: string) returns (ok: bool, s': string)
      requires Valid()
      modifies this
      ensures Valid()
      ensures ok == CanAccept(input, old(count), IsEither(IsAlnum, IsChar('_')))
      ensures ok ==> count == old(count) + 1 && s' == s + [input[old(count) - 1]]
                     && Run(input, old(count), IsEither(IsAlnum, IsChar('_')))
                        == 1 + Run(input, count, IsEither(IsAlnum, IsChar('_')))
      ensures !ok ==> count == old(count) && s' == s && Run(input, old(count), IsEither(IsAlnum, IsChar('_'))) == 0
    {
      LegacyAcceptAgrees(input, count, IsAlnum);
      ok, s' := Accept(IsAlnum, s);
      if !ok {
        LegacyAcceptAgrees(input, count, IsChar('_'));
        ok, s' := Accept(IsChar('_'), s');
      }
    }

    /** Consumes everything up to a byte satisfying `delim`; with no such byte
        before the terminator the source reads past the buffer. */
    method AnyUntil(delim: CharPred, s: string) returns (ok: bool, s': string)
      requires Valid()
      requires Stops(input, count, IsNot(delim))
      modifies this
      ensures Valid()
      ensures count == old(count) + LegacyRun(input, old(count), IsNot(delim))
      ensures ok <==> count > old(count)
      ensures s' == s + Consumed(input, old(count), LegacyRun(input, old(count), IsNot(delim)))
    {
      ok, s' := AcceptMany(IsNot(delim), s);
    }
  }
}
