/** The vocabulary of the Ark grammar (src/parser.hpp, src/parser.cpp): where
    trivia, names, numerals, strings and package names read from a position
    end, the tables of alternatives, and the shape of what each production
    builds. The productions themselves are in module Reference. */
module Syntax {
  import opened Wrappers
  import opened Predicates
  import opened Scan
  import opened Cursor
  import opened Ast
  import opened Decimal

  /** `std::optional<Node>`, with the exceptions the productions throw. */
  type Parsed = Result<Option<Node>, ParseError>

  /** How `parse` ends: the input is exhausted, an exception escaped, or the
      loop is stuck at a position where no production applies (it would spin
      there forever). */
  datatype Status = Complete | Diverges | Failed(error: ParseError)

  /** What a parse depends on besides the position: the buffer and the
      character class of IsSymbol. Positions are cursor counts, 1 to size + 1. */
  datatype Source = Source(input: seq<char>, symbols: set<char>) {
    predicate Pos(c: nat) {
      1 <= c <= |input| + 1
    }
  }

  // ---------------------------------------------------------------- trivia

  /** Where `space()` leaves the cursor. */
  function SpaceEnd(input: seq<char>, c: nat): (e: nat)
    requires 1 <= c <= |input| + 1
    ensures c <= e <= |input| + 1
  {
    c + Run(input, c, IsSpace)
  }

  /** Where `comment()` leaves the cursor when a '#' is there: after the rest
      of the line and its '\n', if any. */
  function CommentEnd(input: seq<char>, c: nat): (e: nat)
    requires 1 <= c <= |input| + 1 && CanAccept(input, c, IsChar('#'))
    ensures c < e <= |input| + 1
  {
    var body := c + 1 + Run(input, c + 1, IsNot(IsChar('\n')));
    if CanAccept(input, body, IsChar('\n')) then body + 1 else body
  }

  /** The loop of `newlineOrComment` after its first `space()`: one comment
      and the white space after it per iteration. */
  function AfterComments(input: seq<char>, c: nat): (e: nat)
    requires 1 <= c <= |input| + 1
    ensures c <= e <= |input| + 1
    decreases |input| + 1 - c
  {
    if CanAccept(input, c, IsChar('#')) then AfterComments(input, SpaceEnd(input, CommentEnd(input, c)))
    else c
  }

  /** Where `newlineOrComment()` leaves the cursor. */
  function TriviaEnd(input: seq<char>, c: nat): (e: nat)
    requires 1 <= c <= |input| + 1
    ensures c <= e <= |input| + 1
  {
    AfterComments(input, SpaceEnd(input, c))
  }

  /** Skipping trivia stops where neither white space nor a comment starts. */
  lemma {:induction false} AfterCommentsStops(input: seq<char>, c: nat)
    requires 1 <= c <= |input| + 1 && !CanAccept(input, c, IsSpace)
    ensures !CanAccept(input, AfterComments(input, c), IsSpace)
    ensures !CanAccept(input, AfterComments(input, c), IsChar('#'))
    decreases |input| + 1 - c
  {
    if CanAccept(input, c, IsChar('#')) {
      var next := SpaceEnd(input, CommentEnd(input, c));
      RunIsMaximal(input, CommentEnd(input, c), IsSpace);
      AfterCommentsStops(input, next);
    }
  }

  lemma TriviaEndStops(input: seq<char>, c: nat)
    requires 1 <= c <= |input| + 1
    ensures !CanAccept(input, TriviaEnd(input, c), IsSpace)
    ensures !CanAccept(input, TriviaEnd(input, c), IsChar('#'))
  {
    RunIsMaximal(input, c, IsSpace);
    AfterCommentsStops(input, SpaceEnd(input, c));
  }

  /** Skipping trivia twice is skipping it once. */
  lemma TriviaEndIdempotent(input: seq<char>, c: nat)
    requires 1 <= c <= |input| + 1
    ensures TriviaEnd(input, TriviaEnd(input, c)) == TriviaEnd(input, c)
  {
    TriviaEndStops(input, c);
  }

  // ---------------------------------------------------------------- words

  /** The name `name()` reads at `c`: the longest run of alphanumerics and
      IsSymbol characters, empty when none starts there. */
  function NameAt(src: Source, c: nat): (n: string)
    requires src.Pos(c)
    ensures c + |n| <= |src.input| + 1
  {
    Consumed(src.input, c, Run(src.input, c, IsEither(IsAlnum, IsSymbol(src.symbols))))
  }

  /** The name `packageName()` reads at `c`: an alphanumeric, then
      alphanumerics and '_'; empty when no alphanumeric is there. */
  function PackageAt(input: seq<char>, c: nat): (p: string)
    requires 1 <= c <= |input| + 1
    ensures c + |p| <= |input| + 1
    ensures p != "" <==> CanAccept(input, c, IsAlnum)
  {
    if CanAccept(input, c, IsAlnum) then Consumed(input, c, 1 + Run(input, c + 1, IsEither(IsAlnum, IsChar('_'))))
    else ""
  }

  // ---------------------------------------------------------------- atoms

  /** The '-' that `signedNumber` consumes, if any. */
  function MinusLength(input: seq<char>, c: nat): (m: nat)
    requires 1 <= c <= |input| + 1
    ensures m <= 1 && c + m <= |input| + 1
  {
    if CanAccept(input, c, IsMinus) then 1 else 0
  }

  /** `signedNumber` succeeds at `c`: digits after the optional '-'. */
  predicate NumeralAt(input: seq<char>, c: nat)
    requires 1 <= c <= |input| + 1
  {
    Run(input, c + MinusLength(input, c), IsDigit) > 0
  }

  /** The text `signedNumber` reads at `c`. */
  function NumeralText(input: seq<char>, c: nat): string
    requires 1 <= c <= |input| + 1
  {
    Consumed(input, c, MinusLength(input, c) + Run(input, c + MinusLength(input, c), IsDigit))
  }

  /** What the number atom hands to `std::stoi` is a signed numeral, so the
      conversion is defined. */
  lemma NumeralTextIsSigned(input: seq<char>, c: nat)
    requires 1 <= c <= |input| + 1 && NumeralAt(input, c)
    ensures IsSignedNumeral(NumeralText(input, c))
  {
    var m := MinusLength(input, c);
    var t := NumeralText(input, c);
    RunIsMaximal(input, c + m, IsDigit);
    assert forall i :: m <= i < |t| ==> IsDigitChar(t[i]) by {
      forall i | m <= i < |t| ensures IsDigitChar(t[i]) {
        ConsumedAt(input, c, |t|, i);
      }
    }
    if m == 1 {
      ConsumedAt(input, c, |t|, 0);
      assert AllDigits(t[1..]) by {
        forall i | 0 <= i < |t[1..]| ensures IsDigitChar(t[1..][i]) {
          assert t[1..][i] == t[i + 1];
        }
      }
    }
  }

  /** The body of a string literal opening at `c`: everything up to the next
      '"' (or the end of the buffer). */
  function StringBody(input: seq<char>, c: nat): string
    requires 1 <= c <= |input| && CanAccept(input, c, IsChar('"'))
  {
    Consumed(input, c + 1, Run(input, c + 1, IsNot(IsChar('"'))))
  }

  lemma StringBodyHasNoQuote(input: seq<char>, c: nat)
    requires 1 <= c <= |input| && CanAccept(input, c, IsChar('"'))
    ensures '"' !in StringBody(input, c)
  {
    RunIsMaximal(input, c + 1, IsNot(IsChar('"')));
    var b := StringBody(input, c);
    forall i | 0 <= i < |b| ensures b[i] != '"' {
      ConsumedAt(input, c + 1, |b|, i);
    }
  }

  /** No atom parser succeeds at `c`. */
  predicate NoAtomAt(src: Source, c: nat)
    requires src.Pos(c)
  {
    !NumeralAt(src.input, c) && !CanAccept(src.input, c, IsChar('"')) && NameAt(src, c) == ""
  }

  // ---------------------------------------------------------------- tables

  /** The inner productions that `wrapped` surrounds with '(' and ')'. */
  datatype Form = LetMutSetForm | FunctionForm | ConditionForm | LoopForm | MacroForm | DelForm

  /** The entries of `m_node_parsers`. */
  datatype Alternative = WrappedAlt(form: Form) | ImportAlt | BlockAlt | FunctionCallAlt | ListAlt

  /** The entries of the `parsers` table of `atom`. */
  datatype AtomKind = NumberAtom | StringAtom | FieldAtom | SymbolAtom

  /** `m_node_parsers`, tried in this order by `node`. */
  const NodeAlternatives: seq<Alternative> := [
    WrappedAlt(LetMutSetForm), WrappedAlt(FunctionForm), WrappedAlt(ConditionForm),
    WrappedAlt(LoopForm), ImportAlt, BlockAlt, WrappedAlt(MacroForm), WrappedAlt(DelForm),
    FunctionCallAlt, ListAlt
  ]

  /** The atom parsers, tried in this order by `atom`. */
  const AtomAlternatives: seq<AtomKind> := [NumberAtom, StringAtom, FieldAtom, SymbolAtom]

  const LetMutSetWords: seq<string> := ["let", "mut", "set"]

  /** The keywords each inner production recognises with `oneOf`. */
  function FormWords(f: Form): seq<string> {
    match f
    case LetMutSetForm => LetMutSetWords
    case FunctionForm => ["fun"]
    case ConditionForm => ["if"]
    case LoopForm => ["while"]
    case MacroForm => ["macro"]
    case DelForm => ["del"]
  }

  const CaptureOrderMessage: string := "Captured variables should be at the end of the argument list"
  const StarPatternMessage: string := "Star pattern can not follow a symbol to import"

  // ---------------------------------------------------------------- shapes

  predicate IsListNode(n: Node) { n.kind == List && n.value.Vec? }

  predicate IsNamed(n: Node, kind: NodeType) { n.kind == kind && n.value.Str? && |n.value.s| > 0 }

  predicate IsKeyword(n: Node, word: string) { n == NewLeaf(Keyword, word) }

  /** A list of non-empty symbols: macro arguments and imported names. */
  predicate SymbolList(n: Node) {
    IsListNode(n) && forall i :: 0 <= i < |n.value.children| ==> IsNamed(n.value.children[i], Symbol)
  }

  /** Function parameters: symbols, then captures, never a symbol after a capture. */
  predicate ParameterList(n: Node) {
    && IsListNode(n)
    && (forall i :: 0 <= i < |n.value.children| ==>
          IsNamed(n.value.children[i], Symbol) || IsNamed(n.value.children[i], Capture))
    && (forall i, j :: 0 <= i < j < |n.value.children| && n.value.children[i].kind == Capture ==>
          n.value.children[j].kind == Capture)
  }

  /** `(import pkg.sub ...)`: the package path as strings, then "*" or the imported names. */
  predicate ImportShaped(n: Node) {
    && IsListNode(n) && |n.value.children| == 3
    && IsKeyword(n.value.children[0], "import")
    && var path := n.value.children[1];
    && IsListNode(path) && |path.value.children| >= 1
    && (forall i :: 0 <= i < |path.value.children| ==> IsNamed(path.value.children[i], String))
    && (n.value.children[2] == NewLeaf(Symbol, "*") || SymbolList(n.value.children[2]))
  }

  predicate AtomKindShaped(k: AtomKind, n: Node) {
    match k
    case NumberAtom => n.kind == Number && n.value.Num?
    case StringAtom => n.kind == String && n.value.Str? && '"' !in n.value.s
    case FieldAtom =>
      n.kind == Field && n.value.Vec? && |n.value.children| >= 2
      && forall i :: 0 <= i < |n.value.children| ==> IsNamed(n.value.children[i], Symbol)
    case SymbolAtom => IsNamed(n, Symbol)
  }

  predicate AtomShaped(n: Node) {
    exists i :: 0 <= i < |AtomAlternatives| && AtomKindShaped(AtomAlternatives[i], n)
  }

  /** Something `nodeOrValue` can return: an atom, or a node whose own value
      positions hold values, all the way down. */
  predicate ValueShaped(n: Node)
    decreases n, 4
  {
    AtomShaped(n) || NodeShaped(n)
  }

  /** Something `node` can return: the shape of one of its alternatives. */
  predicate NodeShaped(n: Node)
    decreases n, 3
  {
    exists i :: 0 <= i < |NodeAlternatives| && AltShaped(NodeAlternatives[i], n)
  }

  /** The children of `n` from index `k` on are values. */
  predicate ValuesFrom(n: Node, k: nat)
    requires n.value.Vec?
    decreases n, 0
  {
    forall i :: k <= i < |n.value.children| ==> ValueShaped(n.value.children[i])
  }

  predicate AltShaped(alt: Alternative, n: Node)
    decreases n, 2
  {
    match alt
    case WrappedAlt(f) => FormShaped(f, n)
    case ImportAlt => ImportShaped(n)
    case BlockAlt =>
      IsListNode(n) && |n.value.children| >= 1 && IsKeyword(n.value.children[0], "begin") && ValuesFrom(n, 1)
    case FunctionCallAlt =>
      IsListNode(n) && |n.value.children| >= 1
      && (AtomKindShaped(SymbolAtom, n.value.children[0]) || AtomKindShaped(FieldAtom, n.value.children[0])
          || NodeShaped(n.value.children[0]))
      && ValuesFrom(n, 1)
    case ListAlt =>
      IsListNode(n) && |n.value.children| >= 1 && n.value.children[0] == NewLeaf(Symbol, "list") && ValuesFrom(n, 1)
  }

  /** What each inner production builds; every value position holds a value. */
  predicate FormShaped(f: Form, n: Node)
    decreases n, 1
  {
    IsListNode(n) &&
    var ch := n.value.children;
    match f
    case LetMutSetForm =>
      |ch| == 3 && ch[0].kind == Keyword && ch[0].value.Str? && ch[0].value.s in LetMutSetWords
      && IsNamed(ch[1], Symbol) && ValuesFrom(n, 2)
    case FunctionForm => |ch| == 3 && IsKeyword(ch[0], "fun") && ParameterList(ch[1]) && ValuesFrom(n, 2)
    case ConditionForm => (|ch| == 3 || |ch| == 4) && IsKeyword(ch[0], "if") && ValuesFrom(n, 1)
    case LoopForm => |ch| == 3 && IsKeyword(ch[0], "while") && ValuesFrom(n, 1)
    case MacroForm =>
      (|ch| == 3 || |ch| == 4) && IsKeyword(ch[0], "macro") && IsNamed(ch[1], Symbol)
      && (|ch| == 4 ==> SymbolList(ch[2])) && ValuesFrom(n, |ch| - 1)
    case DelForm => |ch| == 2 && IsKeyword(ch[0], "del") && IsNamed(ch[1], Symbol)
  }

  /** An atom's kind says which entry of the atom table built it. */
  lemma AtomKinds(n: Node)
    requires AtomShaped(n)
    ensures n.kind == Symbol ==> AtomKindShaped(SymbolAtom, n)
    ensures n.kind == Field ==> AtomKindShaped(FieldAtom, n)
    ensures n.kind in {Number, String, Symbol, Field}
  {
    var i :| 0 <= i < |AtomAlternatives| && AtomKindShaped(AtomAlternatives[i], n);
  }

  /** Every node is a list, and no atom is: `nodeOrValue` can tell which
      branch produced its result from the kind alone. */
  lemma NodesAreListsAtomsAreNot(n: Node)
    ensures NodeShaped(n) ==> n.kind == List
    ensures AtomShaped(n) ==> n.kind != List
    ensures !(NodeShaped(n) && AtomShaped(n))
  {
    if NodeShaped(n) {
      var i :| 0 <= i < |NodeAlternatives| && AltShaped(NodeAlternatives[i], n);
      var alt := NodeAlternatives[i];
      if alt.WrappedAlt? {
        assert FormShaped(alt.form, n);
      }
    }
    if AtomShaped(n) {
      var i :| 0 <= i < |AtomAlternatives| && AtomKindShaped(AtomAlternatives[i], n);
    }
  }

  /** The two shapes `macro` builds: with and without an argument list. */
  lemma MacroShapes(sym: string, args: Node, v: Node)
    requires sym != "" && ValueShaped(v)
    ensures FormShaped(MacroForm, NewList([NewLeaf(Keyword, "macro"), NewLeaf(Symbol, sym), v]))
    ensures SymbolList(args) ==>
              FormShaped(MacroForm, NewList([NewLeaf(Keyword, "macro"), NewLeaf(Symbol, sym), args, v]))
  {
    var n3 := NewList([NewLeaf(Keyword, "macro"), NewLeaf(Symbol, sym), v]);
    assert AsList(n3)[2] == v;
    var n4 := NewList([NewLeaf(Keyword, "macro"), NewLeaf(Symbol, sym), args, v]);
    assert AsList(n4)[3] == v;
  }
}
