/** The grammar of src/parser.cpp as functions of the source and a position:
    what each production returns when it starts there. Each production
    declines (std::nullopt), yields a node and the position after it, or
    throws a ParseError at some position. The Parser class is proved to
    compute exactly these results. */
module Reference {
  import opened Wrappers
  import opened Predicates
  import opened Scan
  import opened Cursor
  import opened Ast
  import opened Decimal
  import opened Syntax

  datatype Outcome = Declines | Yields(node: Node, end: nat) | Throws(error: ParseError, at: nat)

  /** One turn of a loop that reads one entry at a time: it stops with the
      cursor at `at`, or throws, or reads the entry `item` and goes on from `at`. */
  datatype Turn = Stop(at: nat) | Fail(error: ParseError, at: nat) | Next(item: Node, at: nat)

  /** A node ends after `c` and inside the input, and its payloads match its
      kinds; an error is raised inside the input. */
  predicate Advances(src: Source, c: nat, o: Outcome) {
    && (o.Yields? ==> c < o.end <= |src.input| + 1 && WellFormed(o.node))
    && (o.Throws? ==> src.Pos(o.at))
  }

  /** As Advances, for loops that may stop where they started. */
  predicate Reaches(src: Source, c: nat, o: Outcome) {
    && (o.Yields? ==> c <= o.end <= |src.input| + 1 && WellFormed(o.node))
    && (o.Throws? ==> src.Pos(o.at))
  }

  // ---------------------------------------------------------------- errors

  /** `error(what, expr)` thrown with the cursor at `at`: the row, column and
      current symbol there. */
  function ErrorAt(src: Source, at: nat, what: string, expr: string): (e: ParseError)
    requires src.Pos(at)
    ensures e.what == what && e.expr == expr && e.symbol == CharAt(src.input, at - 1)
    ensures e.line == RowAt(src.input, at) && e.col == ColAt(src.input, at)
  {
    ParseError(what, RowAt(src.input, at), ColAt(src.input, at), expr, CharAt(src.input, at - 1))
  }

  /** `errorWithNextToken(what)` at `c`: the text up to the next space or tab
      is read and becomes the error's expression. */
  function NextTokenError(src: Source, c: nat, what: string): (o: Outcome)
    requires src.Pos(c)
    ensures o.Throws? && c <= o.at <= |src.input| + 1 && o.error.what == what
    ensures o.at == c + |o.error.expr| && o.error.expr == Consumed(src.input, c, o.at - c)
    ensures !CanAccept(src.input, o.at, IsNot(IsInlineSpace))
  {
    var n := Run(src.input, c, IsNot(IsInlineSpace));
    RunIsMaximal(src.input, c, IsNot(IsInlineSpace));
    Throws(ErrorAt(src, c + n, what, Consumed(src.input, c, n)), c + n)
  }

  /** What `expect(IsChar(k))` throws at `c`: the current symbol is not `k`. */
  function ExpectError(src: Source, c: nat, k: char): (e: ParseError)
    requires src.Pos(c)
    ensures e.what == "Expected '" + [k] + "'" && e.expr == [CharAt(src.input, c - 1)]
  {
    ErrorAt(src, c, "Expected " + IsChar(k).Name(), [CharAt(src.input, c - 1)])
  }

  /** `expect(IsChar(k))` at `c` closing `n`: the node and the position after
      `k`, or the error with the cursor left at `c`. */
  function Closing(src: Source, c: nat, k: char, n: Node): (o: Outcome)
    requires src.Pos(c) && k != '\0'
    ensures o.Yields? <==> CharAt(src.input, c - 1) == k
    ensures o.Yields? ==> o == Yields(n, c + 1) && c + 1 <= |src.input| + 1 && src.input[c - 1] == k
    ensures o.Throws? ==> o == Throws(ExpectError(src, c, k), c)
    ensures !o.Declines?
  {
    if CharAt(src.input, c - 1) == k then Yields(n, c + 1) else Throws(ExpectError(src, c, k), c)
  }

  // ---------------------------------------------------------------- atoms

  function NumberAt(src: Source, c: nat): (o: Outcome)
    requires src.Pos(c)
    ensures Advances(src, c, o) && !o.Throws?
    ensures o.Declines? <==> !NumeralAt(src.input, c)
    ensures o.Yields? ==> AtomKindShaped(NumberAtom, o.node) && IsSignedNumeral(NumeralText(src.input, c))
                          && o.end == c + |NumeralText(src.input, c)|
  {
    if NumeralAt(src.input, c) then
      NumeralTextIsSigned(src.input, c);
      Yields(NewNumber(Stoi(NumeralText(src.input, c))), c + |NumeralText(src.input, c)|)
    else Declines
  }

  /** A '"', the text up to the next '"', and that '"'; a string the input
      does not close throws. */
  function StringAt(src: Source, c: nat): (o: Outcome)
    requires src.Pos(c)
    ensures Advances(src, c, o)
    ensures o.Declines? <==> !CanAccept(src.input, c, IsChar('"'))
    ensures o.Yields? ==> AtomKindShaped(StringAtom, o.node)
                          && o.node == NewLeaf(String, StringBody(src.input, c))
                          && o.end == c + |StringBody(src.input, c)| + 2
    ensures o.Throws? <==> CanAccept(src.input, c, IsChar('"'))
                           && CharAt(src.input, c + |StringBody(src.input, c)|) != '"'
  {
    if !CanAccept(src.input, c, IsChar('"')) then Declines
    else
      var body := StringBody(src.input, c);
      StringBodyHasNoQuote(src.input, c);
      Closing(src, c + 1 + |body|, '"', NewLeaf(String, body))
  }

  /** The loop of the field parser after `leaf` was read up to `c`: white
      space, then '.' and a name, again and again. A first name without a
      '.' after it declines. */
  function FieldLoop(src: Source, c: nat, leaf: Node): (o: Outcome)
    requires src.Pos(c) && FieldPrefix(leaf)
    ensures Reaches(src, c, o)
    ensures o.Declines? <==> |AsList(leaf)| == 1 && !CanAccept(src.input, SpaceEnd(src.input, c), IsChar('.'))
    ensures o.Yields? ==> AtomKindShaped(FieldAtom, o.node) && AsList(o.node)[0] == AsList(leaf)[0]
    decreases |src.input| + 1 - c
  {
    match DotTurnAt(src, SpaceEnd(src.input, c), Names, FieldNameMessage)
    case Stop(s) => if |AsList(leaf)| == 1 then Declines else Yields(leaf, s)
    case Fail(e, at) => Throws(e, at)
    case Next(item, e) =>
      FieldAdvance(leaf, item);
      FieldLoop(src, e, PushBack(leaf, item))
  }

  /** The two name readers of the cursor: `name()`, whose names become
      symbols, and `packageName()`, whose names become strings. */
  datatype Reader = Names | Packages {
    function Kind(): NodeType { if this == Names then Symbol else String }
  }

  function ReadAt(src: Source, c: nat, reader: Reader): (n: string)
    requires src.Pos(c)
    ensures c + |n| <= |src.input| + 1
    ensures reader == Names ==> n == NameAt(src, c)
  {
    if reader == Names then NameAt(src, c) else PackageAt(src.input, c)
  }

  /** `accept(IsChar('.'))` at `c`, then a name read by `reader`: without a
      '.' the turn stops at `c`; a '.' without a name after it throws
      `message` at the next token; otherwise the name is the next entry. */
  function DotTurnAt(src: Source, c: nat, reader: Reader, message: string): (t: Turn)
    requires src.Pos(c)
    ensures src.Pos(t.at)
    ensures t.Stop? <==> !CanAccept(src.input, c, IsChar('.'))
    ensures t.Stop? ==> t.at == c
    ensures t.Fail? ==> t.error.what == message
    ensures t.Next? ==> c < t.at && t.item.kind == reader.Kind() && t.item.value.Str? && t.item.value.s != ""
  {
    if !CanAccept(src.input, c, IsChar('.')) then Stop(c) else DottedAt(src, c + 1, reader, message)
  }

  /** The name after a '.': required, read by `reader`. */
  function DottedAt(src: Source, c: nat, reader: Reader, message: string): (t: Turn)
    requires src.Pos(c)
    ensures src.Pos(t.at) && !t.Stop?
    ensures t.Fail? ==> t.error.what == message
    ensures t.Next? ==> c < t.at && t.item.kind == reader.Kind() && t.item.value.Str? && t.item.value.s != ""
  {
    var n := ReadAt(src, c, reader);
    if n == "" then
      var o := NextTokenError(src, c, message);
      Fail(o.error, o.at)
    else Next(NewLeaf(reader.Kind(), n), c + |n|)
  }

  const FieldNameMessage := "Expected a field name: <symbol>.<field>"

  /** The names a field has read so far: at least one, each a non-empty symbol. */
  predicate FieldPrefix(leaf: Node) {
    && leaf.kind == Field && leaf.value.Vec? && |AsList(leaf)| >= 1 && WellFormed(leaf)
    && forall i :: 0 <= i < |AsList(leaf)| ==> IsNamed(AsList(leaf)[i], Symbol)
  }

  /** The field after its first name: a Field node holding that name alone. */
  function FieldHead(n: string): (leaf: Node)
    requires n != ""
    ensures FieldPrefix(leaf) && |AsList(leaf)| == 1 && AsList(leaf)[0] == NewLeaf(Symbol, n)
  {
    var leaf := PushBack(NewNode(Field), NewLeaf(Symbol, n));
    assert AsList(leaf) == [NewLeaf(Symbol, n)];
    leaf
  }

  /** A further symbol keeps a field prefix one, and its first name. */
  lemma FieldAdvance(leaf: Node, item: Node)
    requires FieldPrefix(leaf) && item.kind == Symbol && item.value.Str? && item.value.s != ""
    ensures var next := PushBack(leaf, item);
            FieldPrefix(next) && AsList(next)[0] == AsList(leaf)[0]
  {
    var next := PushBack(leaf, item);
    assert next.value.children == leaf.value.children + [item];
    assert IsNamed(item, Symbol) && WellFormed(item);
  }

  /** `a.b.c`: a Field holding the names in order. */
  function FieldAt(src: Source, c: nat): (o: Outcome)
    requires src.Pos(c)
    ensures Advances(src, c, o)
    ensures o.Declines? <==> (NameAt(src, c) == ""
                              || !CanAccept(src.input, SpaceEnd(src.input, c + |NameAt(src, c)|), IsChar('.')))
    ensures o.Yields? ==> AtomKindShaped(FieldAtom, o.node) && AsList(o.node)[0] == NewLeaf(Symbol, NameAt(src, c))
  {
    var n := NameAt(src, c);
    if n == "" then Declines
    else
      var o := FieldLoop(src, c + |n|, FieldHead(n));
      assert o.Declines? <==> !CanAccept(src.input, SpaceEnd(src.input, c + |n|), IsChar('.'));
      o
  }

  function SymbolAt(src: Source, c: nat): (o: Outcome)
    requires src.Pos(c)
    ensures Advances(src, c, o) && !o.Throws?
    ensures o.Declines? <==> NameAt(src, c) == ""
    ensures o.Yields? ==> o.node == NewLeaf(Symbol, NameAt(src, c)) && o.end == c + |NameAt(src, c)|
  {
    var n := NameAt(src, c);
    if n == "" then Declines else Yields(NewLeaf(Symbol, n), c + |n|)
  }

  /** One entry of the atom table. */
  function AtomKindAt(src: Source, k: AtomKind, c: nat): (o: Outcome)
    requires src.Pos(c)
    ensures Advances(src, c, o) && (o.Yields? ==> AtomKindShaped(k, o.node))
  {
    match k
    case NumberAtom => NumberAt(src, c)
    case StringAtom => StringAt(src, c)
    case FieldAtom => FieldAt(src, c)
    case SymbolAtom => SymbolAt(src, c)
  }

  /** The atom table from entry `i` on: the first entry that does not
      decline decides. */
  function FirstAtom(src: Source, c: nat, i: nat): (o: Outcome)
    requires src.Pos(c) && i <= |AtomAlternatives|
    ensures Advances(src, c, o) && (o.Yields? ==> AtomShaped(o.node))
    decreases |AtomAlternatives| - i
  {
    if i == |AtomAlternatives| then Declines
    else
      var o := AtomKindAt(src, AtomAlternatives[i], c);
      if o.Declines? then FirstAtom(src, c, i + 1) else o
  }

  /** `atom()` */
  function AtomAt(src: Source, c: nat): (o: Outcome)
    requires src.Pos(c)
    ensures Advances(src, c, o) && (o.Yields? ==> AtomShaped(o.node))
  {
    FirstAtom(src, c, 0)
  }

  // ---------------------------------------------------------------- nodes
  // The productions below call each other. Each call either starts after
  // some input was consumed or goes to a production of lower rank (the
  // second component of `decreases`).

  /** `nodeOrValue()`: an atom, else a node. */
  function ValueAt(src: Source, c: nat): (o: Outcome)
    requires src.Pos(c)
    ensures Advances(src, c, o) && (o.Yields? ==> ValueShaped(o.node))
    decreases |src.input| + 1 - c, 8, 0
  {
    var a := AtomAt(src, c);
    if a.Declines? then NodeAt(src, c) else a
  }

  /** A value the production cannot do without: declining becomes `what`. */
  function RequiredValueAt(src: Source, c: nat, what: string): (o: Outcome)
    requires src.Pos(c)
    ensures Advances(src, c, o) && !o.Declines? && (o.Yields? ==> ValueShaped(o.node))
    decreases |src.input| + 1 - c, 9, 0
  {
    var v := ValueAt(src, c);
    if v.Declines? then NextTokenError(src, c, what) else v
  }

  /** A required value, then trivia. */
  function ValueThenTriviaAt(src: Source, c: nat, what: string): (o: Outcome)
    requires src.Pos(c)
    ensures Advances(src, c, o) && !o.Declines? && (o.Yields? ==> ValueShaped(o.node))
    decreases |src.input| + 1 - c, 10, 0
  {
    var v := RequiredValueAt(src, c, what);
    if v.Yields? then Yields(v.node, TriviaEnd(src.input, v.end)) else v
  }

  /** An optional value and, when there is one, the trivia after it. */
  function OptionalValueAt(src: Source, c: nat): (o: Outcome)
    requires src.Pos(c)
    ensures Advances(src, c, o) && (o.Yields? ==> ValueShaped(o.node))
    decreases |src.input| + 1 - c, 9, 0
  {
    var v := ValueAt(src, c);
    if v.Yields? then Yields(v.node, TriviaEnd(src.input, v.end)) else v
  }

  /** `node()`: the alternatives of `m_node_parsers` in order. */
  function NodeAt(src: Source, c: nat): (o: Outcome)
    requires src.Pos(c)
    ensures Advances(src, c, o) && (o.Yields? ==> NodeShaped(o.node))
    decreases |src.input| + 1 - c, 7, 0
  {
    FirstAlt(src, c, 0)
  }

  /** The alternatives from entry `i` on: the first that does not decline decides. */
  function FirstAlt(src: Source, c: nat, i: nat): (o: Outcome)
    requires src.Pos(c) && i <= |NodeAlternatives|
    ensures Advances(src, c, o) && (o.Yields? ==> NodeShaped(o.node))
    decreases |src.input| + 1 - c, 6, |NodeAlternatives| - i
  {
    if i == |NodeAlternatives| then Declines
    else
      var o := AltAt(src, NodeAlternatives[i], c);
      if o.Declines? then FirstAlt(src, c, i + 1) else o
  }

  /** One entry of `m_node_parsers`. */
  function AltAt(src: Source, alt: Alternative, c: nat): (o: Outcome)
    requires src.Pos(c)
    ensures Advances(src, c, o) && (o.Yields? ==> AltShaped(alt, o.node))
    decreases |src.input| + 1 - c, 5, 0
  {
    match alt
    case WrappedAlt(f) => WrappedAt(src, f, '(', ')', c)
    case ImportAlt => ImportAt(src, c)
    case BlockAlt => BlockAt(src, c)
    case FunctionCallAlt => CallAt(src, c)
    case ListAlt => ListAt(src, c)
  }

  /** `wrapped(parser, prefix, suffix)`: `prefix`, trivia, the inner
      production, trivia, `suffix`; a missing `suffix` after a node throws. */
  function WrappedAt(src: Source, f: Form, prefix: char, suffix: char, c: nat): (o: Outcome)
    requires src.Pos(c)
    ensures Advances(src, c, o) && (o.Yields? ==> FormShaped(f, o.node))
    ensures o.Declines? <==> (!CanAccept(src.input, c, IsChar(prefix))
                              || NameAt(src, TriviaEnd(src.input, c + 1)) !in FormWords(f))
    decreases |src.input| + 1 - c, 4, 0
  {
    if !CanAccept(src.input, c, IsChar(prefix)) then Declines
    else InnerAt(src, f, suffix, TriviaEnd(src.input, c + 1))
  }

  /** After the prefix and trivia: the inner production, trivia and `suffix`. */
  function InnerAt(src: Source, f: Form, suffix: char, t: nat): (o: Outcome)
    requires src.Pos(t)
    ensures Advances(src, t, o) && (o.Yields? ==> FormShaped(f, o.node))
    ensures o.Declines? <==> NameAt(src, t) !in FormWords(f)
    decreases |src.input| + 1 - t, 4, 0
  {
    var inner := FormAt(src, f, t);
    if !inner.Yields? then inner else SuffixAt(src, inner.end, suffix, inner.node)
  }

  /** After the inner node `n`, at `c`: trivia, then `suffix`, else the
      "Missing '<suffix>' after node" error at the next token. */
  function SuffixAt(src: Source, c: nat, suffix: char, n: Node): (o: Outcome)
    requires src.Pos(c)
    ensures !o.Declines? && (o.Throws? ==> src.Pos(o.at) && o.error.what == "Missing '" + [suffix] + "' after node")
    ensures o.Yields? ==> o.node == n && c < o.end <= |src.input| + 1 && src.input[o.end - 2] == suffix
  {
    var e := TriviaEnd(src.input, c);
    if CanAccept(src.input, e, IsChar(suffix)) then Yields(n, e + 1)
    else NextTokenError(src, e, "Missing '" + [suffix] + "' after node")
  }

  /** The inner production a `wrapped` entry names. */
  function FormAt(src: Source, f: Form, c: nat): (o: Outcome)
    requires src.Pos(c)
    ensures Advances(src, c, o) && (o.Yields? ==> FormShaped(f, o.node))
    ensures o.Declines? <==> NameAt(src, c) !in FormWords(f)
    decreases |src.input| + 1 - c, 3, 0
  {
    match f
    case LetMutSetForm => LetMutSetAt(src, c)
    case FunctionForm => FunctionAt(src, c)
    case ConditionForm => ConditionAt(src, c)
    case LoopForm => LoopAt(src, c)
    case MacroForm => MacroAt(src, c)
    case DelForm => DelAt(src, c)
  }

  /** `let|mut|set <symbol> <value>` */
  function LetMutSetAt(src: Source, c: nat): (o: Outcome)
    requires src.Pos(c)
    ensures Advances(src, c, o) && (o.Yields? ==> FormShaped(LetMutSetForm, o.node))
    ensures o.Declines? <==> NameAt(src, c) !in LetMutSetWords
    decreases |src.input| + 1 - c, 2, 0
  {
    var kw := NameAt(src, c);
    if kw !in LetMutSetWords then Declines
    else LetMutSetBodyAt(src, TriviaEnd(src.input, c + |kw|), kw)
  }

  /** After `let`, `mut` or `set` and trivia: the symbol, trivia and the value. */
  function LetMutSetBodyAt(src: Source, t: nat, kw: string): (o: Outcome)
    requires src.Pos(t) && kw in LetMutSetWords
    ensures Reaches(src, t, o) && !o.Declines? && (o.Yields? ==> FormShaped(LetMutSetForm, o.node) && t < o.end)
    decreases |src.input| + 1 - t, 2, 0
  {
    var sym := NameAt(src, t);
    if sym == "" then NextTokenError(src, t, kw + " needs a symbol")
    else BoundValueAt(src, TriviaEnd(src.input, t + |sym|), kw, sym)
  }

  /** The value `kw sym` binds, read at `c`, and the resulting form. */
  function BoundValueAt(src: Source, c: nat, kw: string, sym: string): (o: Outcome)
    requires src.Pos(c) && kw in LetMutSetWords && sym != ""
    ensures Advances(src, c, o) && !o.Declines? && (o.Yields? ==> FormShaped(LetMutSetForm, o.node))
    decreases |src.input| + 2 - c, 0, 0
  {
    var v := RequiredValueAt(src, c, "Expected a value");
    if !v.Yields? then v
    else Yields(NewList([NewLeaf(Keyword, kw), NewLeaf(Symbol, sym), v.node]), v.end)
  }

  /** `fun (<parameters>) <body>` */
  function FunctionAt(src: Source, c: nat): (o: Outcome)
    requires src.Pos(c)
    ensures Advances(src, c, o) && (o.Yields? ==> FormShaped(FunctionForm, o.node))
    ensures o.Declines? <==> NameAt(src, c) != "fun"
    decreases |src.input| + 1 - c, 2, 0
  {
    if NameAt(src, c) != "fun" then Declines
    else FunctionBodyAt(src, TriviaEnd(src.input, c + |"fun"|))
  }

  /** After `fun` and trivia: '(' and trivia, then the parameters. */
  function FunctionBodyAt(src: Source, t: nat): (o: Outcome)
    requires src.Pos(t)
    ensures Reaches(src, t, o) && !o.Declines? && (o.Yields? ==> FormShaped(FunctionForm, o.node) && t < o.end)
    decreases |src.input| + 1 - t, 2, 0
  {
    if CharAt(src.input, t - 1) != '(' then Throws(ExpectError(src, t, '('), t)
    else
      var args := ParamsAt(src, TriviaEnd(src.input, t + 1), NewNode(List), false);
      if !args.Yields? then args
      else FunctionValueAt(src, args.end, args.node)
  }

  /** After the parameters `args`: ')' and trivia, then the body value. */
  function FunctionValueAt(src: Source, c: nat, args: Node): (o: Outcome)
    requires src.Pos(c) && ParameterList(args) && WellFormed(args)
    ensures Reaches(src, c, o) && !o.Declines? && (o.Yields? ==> FormShaped(FunctionForm, o.node) && c < o.end)
    decreases |src.input| + 1 - c, 2, 0
  {
    if CharAt(src.input, c - 1) != ')' then Throws(ExpectError(src, c, ')'), c)
    else
      var v := RequiredValueAt(src, TriviaEnd(src.input, c + 1), "Expected a value");
      if !v.Yields? then v
      else Yields(NewList([NewLeaf(Keyword, "fun"), args, v.node]), v.end)
  }

  /** `if <condition> <then> [<else>]` */
  function ConditionAt(src: Source, c: nat): (o: Outcome)
    requires src.Pos(c)
    ensures Advances(src, c, o) && (o.Yields? ==> FormShaped(ConditionForm, o.node))
    ensures o.Declines? <==> NameAt(src, c) != "if"
    decreases |src.input| + 1 - c, 2, 0
  {
    if NameAt(src, c) != "if" then Declines
    else
      var cond := ValueThenTriviaAt(src, TriviaEnd(src.input, c + |"if"|), "If need a valid condition");
      if !cond.Yields? then cond
      else BranchesAt(src, cond.end, cond.node)
  }

  /** After the condition `cond`: the value for true, then trivia, then the
      optional value for false (and trivia after it). */
  function BranchesAt(src: Source, c: nat, cond: Node): (o: Outcome)
    requires src.Pos(c) && ValueShaped(cond) && WellFormed(cond)
    ensures Reaches(src, c, o) && !o.Declines? && (o.Yields? ==> FormShaped(ConditionForm, o.node) && c < o.end)
    decreases |src.input| + 2 - c, 0, 0
  {
    var yes := ValueThenTriviaAt(src, c, "Expected a value");
    if !yes.Yields? then yes
    else
      var no := OptionalValueAt(src, yes.end);
      if no.Declines? then Yields(NewList([NewLeaf(Keyword, "if"), cond, yes.node]), yes.end)
      else if no.Yields? then Yields(NewList([NewLeaf(Keyword, "if"), cond, yes.node, no.node]), no.end)
      else no
  }

  /** `while <condition> <body>` */
  function LoopAt(src: Source, c: nat): (o: Outcome)
    requires src.Pos(c)
    ensures Advances(src, c, o) && (o.Yields? ==> FormShaped(LoopForm, o.node))
    ensures o.Declines? <==> NameAt(src, c) != "while"
    decreases |src.input| + 1 - c, 2, 0
  {
    var kw := NameAt(src, c);
    if kw != "while" then Declines
    else
      var cond := ValueThenTriviaAt(src, TriviaEnd(src.input, c + |"while"|), "While need a valid condition");
      if !cond.Yields? then cond
      else
        var body := RequiredValueAt(src, cond.end, "Expected a value");
        if !body.Yields? then body
        else Yields(NewList([NewLeaf(Keyword, kw), cond.node, body.node]), body.end)
  }

  /** `macro <symbol> [(<symbol>*)] <body>` */
  function MacroAt(src: Source, c: nat): (o: Outcome)
    requires src.Pos(c)
    ensures Advances(src, c, o) && (o.Yields? ==> FormShaped(MacroForm, o.node))
    ensures o.Declines? <==> NameAt(src, c) != "macro"
    decreases |src.input| + 1 - c, 2, 0
  {
    if NameAt(src, c) != "macro" then Declines
    else MacroBodyAt(src, TriviaEnd(src.input, c + |"macro"|))
  }

  /** After `macro` and trivia: the macro's name, then trivia and the rest. */
  function MacroBodyAt(src: Source, t: nat): (o: Outcome)
    requires src.Pos(t)
    ensures Reaches(src, t, o) && !o.Declines? && (o.Yields? ==> FormShaped(MacroForm, o.node) && t < o.end)
    decreases |src.input| + 1 - t, 2, 0
  {
    var sym := NameAt(src, t);
    if sym == "" then NextTokenError(src, t, "macro" + " needs a symbol")
    else MacroTailAt(src, TriviaEnd(src.input, t + |sym|), sym)
  }

  /** What follows `macro <symbol>` at `c`: the optional argument list, then
      the body. */
  function MacroTailAt(src: Source, c: nat, sym: string): (o: Outcome)
    requires src.Pos(c) && sym != ""
    ensures Reaches(src, c, o) && !o.Declines?
    ensures o.Yields? ==> FormShaped(MacroForm, o.node) && AsList(o.node)[..2] == [NewLeaf(Keyword, "macro"), NewLeaf(Symbol, sym)]
    decreases |src.input| + 2 - c, 1, 0
  {
    var args := MacroArgsAt(src, c);
    if args.Throws? then args
    else if args.Declines? then MacroValueAt(src, c, sym, None)
    else MacroValueAt(src, args.end, sym, Some(args.node))
  }

  /** The body of macro `sym` at `c`, after its optional arguments `args`. */
  function MacroValueAt(src: Source, c: nat, sym: string, args: Option<Node>): (o: Outcome)
    requires src.Pos(c) && sym != "" && (args.Some? ==> SymbolList(args.value) && WellFormed(args.value))
    ensures Advances(src, c, o) && !o.Declines?
    ensures o.Yields? ==> FormShaped(MacroForm, o.node) && AsList(o.node)[..2] == [NewLeaf(Keyword, "macro"), NewLeaf(Symbol, sym)]
    decreases |src.input| + 2 - c, 0, 0
  {
    var v := RequiredValueAt(src, c, "Expected a value");
    if !v.Yields? then v
    else if args.None? then
      MacroShapes(sym, v.node, v.node);
      Yields(NewList([NewLeaf(Keyword, "macro"), NewLeaf(Symbol, sym), v.node]), v.end)
    else
      MacroShapes(sym, args.value, v.node);
      Yields(NewList([NewLeaf(Keyword, "macro"), NewLeaf(Symbol, sym), args.value, v.node]), v.end)
  }

  /** `(<values>*)` and its closer, the body of block, functionCall and list. */
  function BodyAt(src: Source, c: nat, closer: char, leaf: Node): (o: Outcome)
    requires src.Pos(c) && closer != '\0' && IsListNode(leaf) && WellFormed(leaf)
    ensures Reaches(src, c, o) && !o.Declines?
    ensures o.Yields? ==> c < o.end && IsListNode(o.node) && AsList(leaf) <= AsList(o.node)
                          && (forall i :: |AsList(leaf)| <= i < |AsList(o.node)| ==> ValueShaped(AsList(o.node)[i]))
                          && src.input[o.end - 2] == closer
    decreases |src.input| + 1 - c, 11, 0
  {
    var items := ValuesAt(src, c, leaf);
    if !items.Yields? then items
    else Closing(src, TriviaEnd(src.input, items.end), closer, items.node)
  }

  /** `while (auto value = nodeOrValue()) { push_back(value); newlineOrComment(); }` */
  function ValuesAt(src: Source, c: nat, leaf: Node): (o: Outcome)
    requires src.Pos(c) && IsListNode(leaf) && WellFormed(leaf)
    ensures Reaches(src, c, o) && !o.Declines?
    ensures o.Yields? ==> IsListNode(o.node) && AsList(leaf) <= AsList(o.node)
                          && (forall i :: |AsList(leaf)| <= i < |AsList(o.node)| ==> ValueShaped(AsList(o.node)[i]))
    decreases |src.input| + 1 - c, 10, 0
  {
    var v := ValueAt(src, c);
    if v.Declines? then Yields(leaf, c)
    else if v.Throws? then v
    else
      var rest := ValuesAt(src, TriviaEnd(src.input, v.end), PushBack(leaf, v.node));
      assert rest.Yields? ==> AsList(leaf) <= AsList(PushBack(leaf, v.node)) <= AsList(rest.node);
      rest
  }

  /** How a block opens at `c`: '(' then `begin`, or '{'. The result pairs the
      bracket that closes the block with the position after the opening. */
  function BlockOpenAt(src: Source, c: nat): (open: Option<(char, nat)>)
    requires src.Pos(c)
    ensures open.Some? ==> c < open.value.1 <= |src.input| + 1
    ensures open.None? <==> if CanAccept(src.input, c, IsChar('(')) then NameAt(src, TriviaEnd(src.input, c + 1)) != "begin"
                            else !CanAccept(src.input, c, IsChar('{'))
    ensures open.Some? ==> (open.value.0 == ')' <==> CanAccept(src.input, c, IsChar('(')))
  {
    if CanAccept(src.input, c, IsChar('(')) then
      var t := TriviaEnd(src.input, c + 1);
      if NameAt(src, t) != "begin" then None else Some((')', t + 5))
    else if CanAccept(src.input, c, IsChar('{')) then Some(('}', TriviaEnd(src.input, c + 1)))
    else None
  }

  /** `(begin <value>*)` or `{<value>*}`, closed by the bracket matching its opener. */
  function BlockAt(src: Source, c: nat): (o: Outcome)
    requires src.Pos(c)
    ensures Advances(src, c, o) && (o.Yields? ==> AltShaped(BlockAlt, o.node))
    ensures o.Declines? <==> BlockOpenAt(src, c).None?
    decreases |src.input| + 1 - c, 4, 0
  {
    var open := BlockOpenAt(src, c);
    if open.None? then Declines
    else BodyAt(src, TriviaEnd(src.input, open.value.1), open.value.0, NewList([NewLeaf(Keyword, "begin")]))
  }

  /** `(<callee> <value>*)` */
  function CallAt(src: Source, c: nat): (o: Outcome)
    requires src.Pos(c)
    ensures Advances(src, c, o) && (o.Yields? ==> AltShaped(FunctionCallAlt, o.node))
    decreases |src.input| + 1 - c, 4, 0
  {
    if !CanAccept(src.input, c, IsChar('(')) then Declines
    else
      var callee := CalleeAt(src, TriviaEnd(src.input, c + 1));
      if !callee.Yields? then callee
      else BodyAt(src, TriviaEnd(src.input, callee.end), ')', NewList([callee.node]))
  }

  /** The callee: `anyAtomOf({Symbol, Field})`, else `node()` where that
      atom attempt left the cursor. */
  function CalleeAt(src: Source, c: nat): (o: Outcome)
    requires src.Pos(c)
    ensures Advances(src, c, o)
    ensures o.Yields? ==> AtomKindShaped(SymbolAtom, o.node) || AtomKindShaped(FieldAtom, o.node) || NodeShaped(o.node)
    decreases |src.input| + 1 - c, 8, 0
  {
    var a := AtomAt(src, c);
    if a.Declines? then NodeAt(src, c)
    else if a.Throws? then a
    else if a.node.kind in {Symbol, Field} then
      AtomKinds(a.node);
      a
    else NodeAt(src, a.end)
  }

  /** `[<value>*]`, read as a call of `list`. */
  function ListAt(src: Source, c: nat): (o: Outcome)
    requires src.Pos(c)
    ensures Advances(src, c, o) && (o.Yields? ==> AltShaped(ListAlt, o.node))
    ensures o.Declines? <==> !CanAccept(src.input, c, IsChar('['))
    decreases |src.input| + 1 - c, 4, 0
  {
    if !CanAccept(src.input, c, IsChar('[')) then Declines
    else BodyAt(src, TriviaEnd(src.input, c + 1), ']', NewList([NewLeaf(Symbol, "list")]))
  }

  // ---------------------------------------------------------------- argument lists

  /** One entry of the argument list of `fun` at `c`: `&` and a name is a
      capture, a name alone a symbol, which throws once captures were seen;
      without a name the list stops (a lone '&' stays consumed). */
  function ParamTurnAt(src: Source, c: nat, hasCaptures: bool): (t: Turn)
    requires src.Pos(c)
    ensures src.Pos(t.at) && c <= t.at
    ensures t.Next? ==> c < t.at && t.item.value.Str? && t.item.value.s != ""
                        && (t.item.kind == Capture || (t.item.kind == Symbol && !hasCaptures))
    ensures t.Fail? ==> t.error.what == CaptureOrderMessage && t.at == c
                        && t.error.expr == NameAt(src, c) && t.error.expr != ""
  {
    if CanAccept(src.input, c, IsChar('&')) then ListNameAt(src, c + 1, Capture, false)
    else ListNameAt(src, c, Symbol, hasCaptures)
  }

  /** A name at `c` in an argument list, as a leaf of `kind`, then trivia; no
      name stops the list, and a name where `misplaced` holds throws the
      capture-order error, pointing at the name. */
  function ListNameAt(src: Source, c: nat, kind: NodeType, misplaced: bool): (t: Turn)
    requires src.Pos(c)
    ensures src.Pos(t.at) && c <= t.at
    ensures t.Stop? <==> NameAt(src, c) == ""
    ensures t.Stop? ==> t.at == c
    ensures t.Next? ==> c < t.at && t.item == NewLeaf(kind, NameAt(src, c)) && !misplaced
    ensures t.Fail? ==> t == Fail(ErrorAt(src, c, CaptureOrderMessage, NameAt(src, c)), c) && misplaced
  {
    var n := NameAt(src, c);
    if n == "" then Stop(c)
    else if misplaced then Fail(ErrorAt(src, c, CaptureOrderMessage, n), c)
    else Next(NewLeaf(kind, n), TriviaEnd(src.input, c + |n|))
  }

  /** The argument list of `fun` from `c`: symbols, then `&`captures, up to
      the first entry that is neither. A symbol after a capture throws,
      pointing at that symbol. */
  function ParamsAt(src: Source, c: nat, args: Node, hasCaptures: bool): (o: Outcome)
    requires src.Pos(c) && ParameterList(args) && WellFormed(args)
    requires !hasCaptures ==> forall i :: 0 <= i < |AsList(args)| ==> AsList(args)[i].kind == Symbol
    ensures Reaches(src, c, o) && !o.Declines?
    ensures o.Yields? ==> ParameterList(o.node) && AsList(args) <= AsList(o.node)
    ensures o.Throws? ==> o.error.what == CaptureOrderMessage && c <= o.at
                          && o.error.expr == NameAt(src, o.at) && o.error.expr != ""
    decreases |src.input| + 1 - c
  {
    match ParamTurnAt(src, c, hasCaptures)
    case Stop(s) => Yields(args, s)
    case Fail(e, at) => Throws(e, at)
    case Next(item, e) =>
      ParamAdvance(args, hasCaptures, item);
      ParamsAt(src, e, PushBack(args, item), hasCaptures || item.kind == Capture)
  }

  /** A symbol before any capture, or a capture, keeps a parameter list one,
      and keeps its earlier entries. */
  lemma ParamAdvance(args: Node, hasCaptures: bool, item: Node)
    requires ParameterList(args) && WellFormed(args)
    requires !hasCaptures ==> forall i :: 0 <= i < |AsList(args)| ==> AsList(args)[i].kind == Symbol
    requires item.value.Str? && item.value.s != "" && (item.kind == Capture || (item.kind == Symbol && !hasCaptures))
    ensures var next := PushBack(args, item);
            && ParameterList(next) && WellFormed(next) && AsList(args) <= AsList(next)
            && (!(hasCaptures || item.kind == Capture) ==>
                  forall i :: 0 <= i < |AsList(next)| ==> AsList(next)[i].kind == Symbol)
  {
    var next := PushBack(args, item);
    assert next.value.children == args.value.children + [item];
    assert IsNamed(item, item.kind) && WellFormed(item);
  }

  /** The names of a macro's argument list from `c`, each followed by trivia;
      the result and the position after the last one. */
  function ArgumentsAt(src: Source, c: nat, args: Node): (r: (Node, nat))
    requires src.Pos(c) && SymbolList(args) && WellFormed(args)
    ensures c <= r.1 <= |src.input| + 1 && SymbolList(r.0) && WellFormed(r.0) && AsList(args) <= AsList(r.0)
    ensures NameAt(src, r.1) == ""
    decreases |src.input| + 1 - c
  {
    var t := ListNameAt(src, c, Symbol, false);
    if t.Next? then
      ArgumentAdvance(args, t.item);
      ArgumentsAt(src, t.at, PushBack(args, t.item))
    else (args, t.at)
  }

  /** A further non-empty symbol keeps a symbol list one, and its earlier names. */
  lemma ArgumentAdvance(args: Node, item: Node)
    requires SymbolList(args) && WellFormed(args) && item.kind == Symbol && item.value.Str? && item.value.s != ""
    ensures var next := PushBack(args, item);
            SymbolList(next) && WellFormed(next) && AsList(args) <= AsList(next)
  {
    var next := PushBack(args, item);
    assert next.value.children == args.value.children + [item];
    assert IsNamed(item, Symbol) && WellFormed(item);
  }

  /** The optional `(<symbol>*)` of `macro`, then the trivia after it. */
  function MacroArgsAt(src: Source, c: nat): (o: Outcome)
    requires src.Pos(c)
    ensures Advances(src, c, o) && (o.Yields? ==> SymbolList(o.node))
    ensures o.Declines? <==> !CanAccept(src.input, c, IsChar('('))
  {
    if !CanAccept(src.input, c, IsChar('(')) then Declines
    else ArgumentListAt(src, TriviaEnd(src.input, c + 1))
  }

  /** The argument names after '(', then ')' and trivia. */
  function ArgumentListAt(src: Source, c: nat): (o: Outcome)
    requires src.Pos(c)
    ensures Reaches(src, c, o) && !o.Declines? && (o.Yields? ==> SymbolList(o.node) && c < o.end)
  {
    var r := ArgumentsAt(src, c, NewNode(List));
    ArgumentsCloseAt(src, r.1, r.0)
  }

  /** After the names `args`, at `c`: ')' and the trivia after it. */
  function ArgumentsCloseAt(src: Source, c: nat, args: Node): (o: Outcome)
    requires src.Pos(c)
    ensures !o.Declines? && (o.Throws? ==> o.at == c)
    ensures o.Yields? ==> o.node == args && c < o.end <= |src.input| + 1
  {
    if CharAt(src.input, c - 1) != ')' then Throws(ExpectError(src, c, ')'), c)
    else Yields(args, TriviaEnd(src.input, c + 1))
  }

  /** `del <symbol>` */
  function DelAt(src: Source, c: nat): (o: Outcome)
    requires src.Pos(c)
    ensures Advances(src, c, o) && (o.Yields? ==> FormShaped(DelForm, o.node))
    ensures o.Declines? <==> NameAt(src, c) != "del"
  {
    var kw := NameAt(src, c);
    if kw != "del" then Declines
    else
      var t := TriviaEnd(src.input, c + |"del"|);
      var sym := NameAt(src, t);
      if sym == "" then NextTokenError(src, t, kw + " needs a symbol")
      else Yields(NewList([NewLeaf(Keyword, kw), NewLeaf(Symbol, sym)]), t + |sym|)
  }

  // ---------------------------------------------------------------- import

  /** Where the body of an import starts: after '(', trivia, the word
      `import` and the trivia after it; None when the text at `c` is not an
      import. */
  function ImportOpenAt(src: Source, c: nat): (open: Option<nat>)
    requires src.Pos(c)
    ensures open.Some? ==> c < open.value <= |src.input| + 1
    ensures open.None? <==> (!CanAccept(src.input, c, IsChar('('))
                             || NameAt(src, TriviaEnd(src.input, c + 1)) != "import")
  {
    if !CanAccept(src.input, c, IsChar('(')) then None
    else
      var t := TriviaEnd(src.input, c + 1);
      if NameAt(src, t) != "import" then None
      else Some(TriviaEnd(src.input, t + |"import"|))
  }

  /** `(import <path> ...)` */
  function ImportAt(src: Source, c: nat): (o: Outcome)
    requires src.Pos(c)
    ensures Advances(src, c, o) && (o.Yields? ==> ImportShaped(o.node))
    ensures o.Declines? <==> ImportOpenAt(src, c).None?
  {
    var open := ImportOpenAt(src, c);
    if open.None? then Declines else ImportBodyAt(src, open.value)
  }

  /** What follows `(import`: the package path, then `:*` or the imported
      names, then ')'. */
  function ImportBodyAt(src: Source, c: nat): (o: Outcome)
    requires src.Pos(c)
    ensures Advances(src, c, o) && !o.Declines? && (o.Yields? ==> ImportShaped(o.node))
  {
    var path := ImportPathAt(src, c);
    if !path.Yields? then path else ImportTailAt(src, path.end, path.node)
  }

  /** The package path: a package name, then `.`-separated package names. */
  function ImportPathAt(src: Source, c: nat): (o: Outcome)
    requires src.Pos(c)
    ensures Advances(src, c, o) && !o.Declines?
    ensures o.Yields? ==> PathShaped(o.node) && AsList(o.node)[0] == NewLeaf(String, PackageAt(src.input, c))
                          && !CanAccept(src.input, o.end, IsChar('.'))
    ensures PackageAt(src.input, c) == "" ==> o == NextTokenError(src, c, "Import expected a package name")
  {
    var p := PackageAt(src.input, c);
    if p == "" then NextTokenError(src, c, "Import expected a package name")
    else PathAt(src, c + |p|, NewList([NewLeaf(String, p)]))
  }

  /** A path node of package names (strings). */
  predicate PathShaped(path: Node) {
    IsListNode(path) && |path.value.children| >= 1 && WellFormed(path)
    && forall i :: 0 <= i < |path.value.children| ==> IsNamed(path.value.children[i], String)
  }

  const PackageNameMessage := "Package name expected after '.'"

  /** `.`-separated package names after the first. */
  function PathAt(src: Source, c: nat, path: Node): (o: Outcome)
    requires src.Pos(c) && PathShaped(path)
    ensures Reaches(src, c, o) && !o.Declines?
    ensures o.Yields? ==> PathShaped(o.node) && AsList(o.node)[0] == AsList(path)[0]
                          && !CanAccept(src.input, o.end, IsChar('.'))
    decreases |src.input| + 1 - c
  {
    match DotTurnAt(src, c, Packages, PackageNameMessage)
    case Stop(s) => Yields(path, s)
    case Fail(e, at) => Throws(e, at)
    case Next(item, e) =>
      PathAdvance(path, item);
      PathAt(src, e, PushBack(path, item))
  }

  /** A further package name keeps a path one, and its first name. */
  lemma PathAdvance(path: Node, item: Node)
    requires PathShaped(path) && item.kind == String && item.value.Str? && item.value.s != ""
    ensures var next := PushBack(path, item);
            PathShaped(next) && AsList(next)[0] == AsList(path)[0]
  {
    var next := PushBack(path, item);
    assert next.value.children == path.value.children + [item];
    assert IsNamed(item, String) && WellFormed(item);
  }

  /** After the path: `:*` and ')' after white space, or else (past a lone
      ':') the imported names, trivia and ')'. */
  function ImportTailAt(src: Source, c: nat, path: Node): (o: Outcome)
    requires src.Pos(c) && PathShaped(path)
    ensures Reaches(src, c, o) && !o.Declines? && (o.Yields? ==> ImportShaped(o.node) && c < o.end)
  {
    var kw := NewLeaf(Keyword, "import");
    if CanAccept(src.input, c, IsChar(':')) && CanAccept(src.input, c + 1, IsChar('*')) then
      Closing(src, SpaceEnd(src.input, c + 2), ')', NewList([kw, path, NewLeaf(Symbol, "*")]))
    else ImportListAt(src, if CanAccept(src.input, c, IsChar(':')) then c + 1 else c, path)
  }

  /** The imported names, then trivia and ')'. */
  function ImportListAt(src: Source, c: nat, path: Node): (o: Outcome)
    requires src.Pos(c) && PathShaped(path)
    ensures Reaches(src, c, o) && !o.Declines? && (o.Yields? ==> ImportShaped(o.node) && c < o.end)
  {
    var names := ImportNamesAt(src, c);
    if !names.Yields? then names
    else Closing(src, TriviaEnd(src.input, names.end), ')', NewList([NewLeaf(Keyword, "import"), path, names.node]))
  }

  /** `if (newlineOrComment())` the `:name` entries; no names otherwise. */
  function ImportNamesAt(src: Source, c: nat): (o: Outcome)
    requires src.Pos(c)
    ensures Reaches(src, c, o) && !o.Declines? && (o.Yields? ==> SymbolList(o.node))
  {
    var t := TriviaEnd(src.input, c);
    if t == c then Yields(NewNode(List), c) else SymbolsAt(src, t, NewNode(List))
  }

  /** The input reads ':' then '*' at positions `at` and `at + 1`. */
  predicate StarAt(input: seq<char>, at: nat) {
    1 <= at < |input| && input[at - 1] == ':' && input[at] == '*'
  }

  /** A name ending in `:*` ends with the two input characters ':' and '*'. */
  lemma StarEnding(src: Source, c: nat)
    requires src.Pos(c)
    requires var n := NameAt(src, c); |n| >= 2 && n[|n| - 2] == ':' && n[|n| - 1] == '*'
    ensures StarAt(src.input, c + |NameAt(src, c)| - 2)
  {
    var n := NameAt(src, c);
    ConsumedAt(src.input, c, |n|, |n| - 2);
    ConsumedAt(src.input, c, |n|, |n| - 1);
  }

  /** One `:name` entry: declines without a ':'; a name ending in `:*` throws,
      pointing at that ":*". */
  function ImportSymbolAt(src: Source, c: nat): (o: Outcome)
    requires src.Pos(c)
    ensures Advances(src, c, o) && (o.Yields? ==> IsNamed(o.node, Symbol))
    ensures o.Declines? <==> !CanAccept(src.input, c, IsChar(':'))
    ensures o.Throws? && o.error.what == StarPatternMessage ==>
              o.error.expr == ":*" && StarAt(src.input, o.at)
  {
    if !CanAccept(src.input, c, IsChar(':')) then Declines
    else ImportedNameAt(src, c + 1)
  }

  /** The name after an import's ':': required, and not ending in `:*`. */
  function ImportedNameAt(src: Source, c: nat): (o: Outcome)
    requires src.Pos(c)
    ensures Advances(src, c, o) && !o.Declines? && (o.Yields? ==> IsNamed(o.node, Symbol))
    ensures o.Throws? && o.error.what == StarPatternMessage ==>
              o.error.expr == ":*" && StarAt(src.input, o.at)
  {
    var n := NameAt(src, c);
    if n == "" then NextTokenError(src, c, "Expected a valid symbol to import")
    else if |n| >= 2 && n[|n| - 2] == ':' && n[|n| - 1] == '*' then
      StarEnding(src, c);
      var at := c + |n| - 2;
      Throws(ErrorAt(src, at, StarPatternMessage, ":*"), at)
    else Yields(NewLeaf(Symbol, n), c + |n|)
  }

  /** The loop over `:name` entries, each followed by trivia, until no trivia follows. */
  function SymbolsAt(src: Source, c: nat, syms: Node): (o: Outcome)
    requires src.Pos(c) && SymbolList(syms) && WellFormed(syms)
    ensures Reaches(src, c, o) && !o.Declines? && (o.Yields? ==> SymbolList(o.node) && AsList(syms) <= AsList(o.node))
    decreases |src.input| + 1 - c
  {
    var entry := ImportSymbolAt(src, c);
    if entry.Throws? then entry
    else
      var more := if entry.Yields? then PushBack(syms, entry.node) else syms;
      var e := if entry.Yields? then entry.end else c;
      var t := TriviaEnd(src.input, e);
      if t == e then Yields(more, e)
      else
        var rest := SymbolsAt(src, t, more);
        assert rest.Yields? ==> AsList(syms) <= AsList(more) <= AsList(rest.node);
        rest
  }

  // ---------------------------------------------------------------- program

  /** The nodes `parse()` appends from `c` on, and how it ends. */
  datatype Program = Program(nodes: seq<Node>, status: Status)

  /** One round of `parse()`'s loop from `c`: trivia is skipped, then either the
      input has ended (None) or one node is parsed there. */
  function StatementAt(src: Source, c: nat): (s: Option<Outcome>)
    requires src.Pos(c)
    ensures s.None? <==> AtEnd(src.input, TriviaEnd(src.input, c))
    ensures s.Some? ==> Advances(src, c, s.value) && (s.value.Yields? ==> NodeShaped(s.value.node))
  {
    var t := TriviaEnd(src.input, c);
    if AtEnd(src.input, t) then None else Some(NodeAt(src, t))
  }

  function ProgramAt(src: Source, c: nat): (p: Program)
    requires src.Pos(c)
    ensures forall i :: 0 <= i < |p.nodes| ==> NodeShaped(p.nodes[i]) && WellFormed(p.nodes[i])
    decreases |src.input| + 1 - c
  {
    if AtEnd(src.input, c) then Program([], Complete)
    else
      match StatementAt(src, c)
      case None => Program([], Complete)
      case Some(Declines) => Program([], Diverges)
      case Some(Throws(e, _)) => Program([], Failed(e))
      case Some(Yields(n, e)) =>
        var rest := ProgramAt(src, e);
        Program([n] + rest.nodes, rest.status)
  }

  /** A statement that yields a node puts it in front of the program after it. */
  lemma ProgramStep(src: Source, c: nat)
    requires src.Pos(c) && !AtEnd(src.input, c)
    requires StatementAt(src, c).Some? && StatementAt(src, c).value.Yields?
    ensures var o := StatementAt(src, c).value;
            ProgramAt(src, c) == Program([o.node] + ProgramAt(src, o.end).nodes, ProgramAt(src, o.end).status)
  {
  }

  /** A `parse()` that diverges reaches a fixed point of its loop: a position
      `t` after the last node where no trivia is left, the input has not
      ended and `node()` declines, so the next round starts at `t` again. */
  lemma {:induction false} DivergesAtFixedPoint(src: Source, c: nat)
    requires src.Pos(c) && ProgramAt(src, c).status == Diverges
    ensures exists t :: c <= t && src.Pos(t) && !AtEnd(src.input, t)
                        && TriviaEnd(src.input, t) == t && NodeAt(src, t).Declines?
    decreases |src.input| + 1 - c
  {
    TriviaEndIdempotent(src.input, c);
    var s := StatementAt(src, c);
    if s.Some? && s.value.Yields? {
      DivergesAtFixedPoint(src, s.value.end);
    } else {
      var t := TriviaEnd(src.input, c);
      assert c <= t && src.Pos(t) && !AtEnd(src.input, t) && TriviaEnd(src.input, t) == t && NodeAt(src, t).Declines?;
    }
  }
}
