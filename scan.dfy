/** Position arithmetic shared by both cursors (src/baseparser.cpp and
    src/combinator.cpp): what `m_in[i]` reads, the row and column that the
    cursor derives from a prefix of the buffer, and how far a run of accepted
    characters extends. Positions are the source's `m_count`, which is always
    one past the index of the current symbol. */
module Scan {
  import opened Predicates

  /** `m_in[i]` on a std::string: index `size` reads the NUL terminator. */
  function CharAt(input: seq<char>, i: nat): char
    requires i <= |input|
  {
    if i < |input| then input[i] else '\0'
  }

  /** Row after reading `CharAt(0) .. CharAt(n-1)`: one per '\n'. */
  function RowAt(input: seq<char>, n: nat): nat
    requires n <= |input| + 1
  {
    if n == 0 then 0
    else RowAt(input, n - 1) + (if CharAt(input, n - 1) == '\n' then 1 else 0)
  }

  /** Column after reading `CharAt(0) .. CharAt(n-1)`: reset by '\n',
      advanced by each printable byte, unchanged by other control bytes. */
  function ColAt(input: seq<char>, n: nat): nat
    requires n <= |input| + 1
  {
    if n == 0 then 0
    else if CharAt(input, n - 1) == '\n' then 0
    else if AsciiPrint(CharAt(input, n - 1)) then ColAt(input, n - 1) + 1
    else ColAt(input, n - 1)
  }

  /** Number of printable bytes among `CharAt(k) .. CharAt(n-1)`. */
  function PrintablesBetween(input: seq<char>, k: nat, n: nat): nat
    requires k <= n <= |input| + 1
    decreases n - k
  {
    if n == k then 0
    else PrintablesBetween(input, k, n - 1) + (if AsciiPrint(CharAt(input, n - 1)) then 1 else 0)
  }

  /** BaseParser's end-of-input test (src/baseparser.hpp:52) at position `count`. */
  predicate AtEnd(input: seq<char>, count: nat)
    requires 1 <= count <= |input| + 1
  {
    count > |input| || CharAt(input, count - 1) == '\0'
  }

  /** Whether BaseParser::accept(p) succeeds at position `count`: not at the end
      of input, and the current symbol satisfies `p`. */
  predicate CanAccept(input: seq<char>, count: nat, p: CharPred)
    requires 1 <= count <= |input| + 1
  {
    !AtEnd(input, count) && p.Eval(input[count - 1])
  }

  /** How many consecutive `accept(p)` calls succeed from position `count`. */
  function Run(input: seq<char>, count: nat, p: CharPred): (n: nat)
    requires 1 <= count <= |input| + 1
    ensures count + n <= |input| + 1
    ensures n > 0 <==> CanAccept(input, count, p)
    decreases |input| + 1 - count
  {
    if CanAccept(input, count, p) then 1 + Run(input, count + 1, p) else 0
  }

  /** The text `n` accepted characters from position `count` append. */
  function Consumed(input: seq<char>, count: nat, n: nat): (s: string)
    requires 1 <= count && count + n <= |input| + 1
    ensures |s| == n
    decreases n
  {
    if n == 0 then [] else [input[count - 1]] + Consumed(input, count + 1, n - 1)
  }

  /** Character `i` of the consumed text is the buffer's character `count - 1 + i`. */
  lemma {:induction false} ConsumedAt(input: seq<char>, count: nat, n: nat, i: nat)
    requires 1 <= count && count + n <= |input| + 1 && i < n
    ensures Consumed(input, count, n)[i] == input[count - 1 + i]
    decreases n
  {
    if i > 0 {
      ConsumedAt(input, count + 1, n - 1, i - 1);
    }
  }

  /** Consuming `m` and then `n` characters appends the two texts. */
  lemma {:induction false} ConsumedSplit(input: seq<char>, count: nat, m: nat, n: nat)
    requires 1 <= count && count + m + n <= |input| + 1
    ensures Consumed(input, count, m + n) == Consumed(input, count, m) + Consumed(input, count + m, n)
    decreases m
  {
    if m > 0 {
      ConsumedSplit(input, count + 1, m - 1, n);
      assert Consumed(input, count, m + n)
          == [input[count - 1]] + (Consumed(input, count + 1, m - 1) + Consumed(input, count + m, n));
    }
  }

  /** One more accepted character appends the symbol it accepted. */
  lemma ConsumedSnoc(input: seq<char>, count: nat, n: nat)
    requires 1 <= count && count + n + 1 <= |input| + 1
    ensures Consumed(input, count, n + 1) == Consumed(input, count, n) + [input[count - 1 + n]]
  {
    ConsumedSplit(input, count, n, 1);
    assert Consumed(input, count + n, 1) == [input[count - 1 + n]];
  }

  /** The consumed text is the slice of the buffer between the two positions. */
  lemma {:induction false} ConsumedIsSlice(input: seq<char>, count: nat, n: nat)
    requires 1 <= count && count + n <= |input| + 1
    ensures Consumed(input, count, n) == input[count - 1 .. count - 1 + n]
    decreases n
  {
    if n > 0 {
      ConsumedIsSlice(input, count + 1, n - 1);
    }
  }

  /** The row is the number of line feeds in the prefix read so far. */
  lemma {:induction false} RowCountsLineFeeds(input: seq<char>, n: nat)
    requires n <= |input| + 1
    ensures RowAt(input, n) == multiset(input[..if n <= |input| then n else |input|])['\n']
  {
    if n > 0 {
      RowCountsLineFeeds(input, n - 1);
      if n <= |input| {
        assert input[..n] == input[..n - 1] + [input[n - 1]];
      } else {
        assert CharAt(input, n - 1) == '\0';
      }
    }
  }

  /** The column is the number of printable bytes since the last line feed
      (or since the start of the buffer when there is none). */
  lemma {:induction false} ColCountsSinceLineFeed(input: seq<char>, k: nat, n: nat)
    requires k <= n <= |input| + 1
    requires k == 0 || CharAt(input, k - 1) == '\n'
    requires forall j :: k <= j < n ==> CharAt(input, j) != '\n'
    ensures ColAt(input, n) == PrintablesBetween(input, k, n)
  {
    if n > k {
      ColCountsSinceLineFeed(input, k, n - 1);
    } else if n > 0 {
      assert CharAt(input, n - 1) == '\n';
    }
  }

  /** A run consists of accepted symbols and stops at the first position where
      accept fails; its text therefore holds no NUL byte. */
  lemma {:induction false} RunIsMaximal(input: seq<char>, count: nat, p: CharPred)
    requires 1 <= count <= |input| + 1
    ensures forall j :: count - 1 <= j < count - 1 + Run(input, count, p) ==>
              j < |input| && input[j] != '\0' && p.Eval(input[j])
    ensures !CanAccept(input, count + Run(input, count, p), p)
    decreases |input| + 1 - count
  {
    var n := Run(input, count, p);
    if CanAccept(input, count, p) {
      RunIsMaximal(input, count + 1, p);
      assert n == 1 + Run(input, count + 1, p);
      assert count - 1 < |input| && input[count - 1] != '\0' && p.Eval(input[count - 1]);
      assert !CanAccept(input, count + n, p);
    } else {
      assert n == 0;
    }
  }

  /** A run of IsEither(a, b) is at least as long as a run of `a` alone. */
  lemma {:induction false} RunMonotone(input: seq<char>, count: nat, a: CharPred, b: CharPred)
    requires 1 <= count <= |input| + 1
    ensures Run(input, count, a) <= Run(input, count, IsEither(a, b))
    decreases |input| + 1 - count
  {
    if CanAccept(input, count, a) {
      RunMonotone(input, count + 1, a, b);
    }
  }
}
