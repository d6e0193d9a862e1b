/** The Ark grammar of src/parser.hpp and src/parser.cpp: a recursive-descent
    parser over the cursor of src/baseparser.cpp. Each production is proved
    to compute what the function of the same name in module Reference says:
    it declines (no node, and the caller rewinds), yields that node with the
    cursor after it, or throws that ParseError with the cursor where the
    source raises it. */
module Grammar {
  import opened Wrappers
  import opened Predicates
  import opened Scan
  import opened Cursor
  import opened Ast
  import opened Decimal
  import opened Syntax
  import opened Reference

  /** The outcome a production's result stands for when it leaves the
      cursor at `at`. */
  function Observed(r: Parsed, at: nat): (o: Outcome)
    ensures o.Declines? <==> r == Ok(None)
  {
    match r
    case Ok(None) => Declines
    case Ok(Some(n)) => Yields(n, at)
    case Err(e) => Throws(e, at)
  }

  /** As Observed, for a step that cannot decline. */
  function Settled(r: Result<Node, ParseError>, at: nat): (o: Outcome)
    ensures !o.Declines?
  {
    match r
    case Ok(n) => Yields(n, at)
    case Err(e) => Throws(e, at)
  }

  class Parser {
    const cur: BaseParser
    /** `m_ast`: a List of the top-level nodes parsed so far. */
    var ast: Node

    ghost predicate Valid()
      reads this, cur
    {
      && cur.Valid() && IsListNode(ast) && WellFormed(ast)
      && forall i :: 0 <= i < |ast.value.children| ==> NodeShaped(ast.value.children[i])
    }

    /** The buffer and symbol class the cursor reads. */
    function Src(): Source {
      Source(cur.input, cur.symbols)
    }

    /** A production's result and the cursor are those `o` describes: no
        node, or the node with the cursor after it, or the exception with
        the cursor where it was raised. */
    ghost predicate Agrees(r: Parsed, o: Outcome)
      reads cur
    {
      Observed(r, cur.count) == o
    }

    /** As Agrees, for a step that cannot decline. */
    ghost predicate Settles(r: Result<Node, ParseError>, o: Outcome)
      reads cur
    {
      Settled(r, cur.count) == o
    }

    constructor (code: string, symbols: set<char>)
      requires |code| > 0
      ensures Valid() && fresh(cur) && cur.input == code && cur.symbols == symbols
      ensures cur.count == 1 && cur.backtrackCount == 0 && ast == NewNode(List)
    {
      cur := new BaseParser(code, symbols);
      ast := NewNode(List);
    }

    /** `Parser(code, debug)`: the base constructor throws on an empty buffer. */
    static method Create(code: string, symbols: set<char>) returns (r: Result<Parser, ParseError>)
      ensures r.Err? <==> |code| == 0
      ensures r.Err? ==> r.error == ParseError(EmptyInputMessage, 0, 0, "", EofSymbol)
      ensures r.Ok? ==> fresh(r.value) && fresh(r.value.cur) && r.value.Valid()
                        && r.value.cur.input == code && r.value.cur.count == 1
                        && r.value.ast == NewNode(List)
    {
      if |code| == 0 {
        return Err(ParseError(EmptyInputMessage, 0, 0, "", EofSymbol));
      }
      var p := new Parser(code, symbols);
      return Ok(p);
    }

    method Comment() returns (ok: bool)
      requires cur.Valid()
      modifies cur
      ensures cur.Valid() && cur.backtrackCount == old(cur.backtrackCount)
      ensures ok == CanAccept(cur.input, old(cur.count), IsChar('#'))
      ensures cur.count == if ok then CommentEnd(cur.input, old(cur.count)) else old(cur.count)
    {
      var hash, ignored := cur.Accept(IsChar('#'), "");
      if !hash {
        return false;
      }
      ignored := cur.AcceptWhile(IsNot(IsChar('\n')), "");
      var _, _ := cur.Accept(IsChar('\n'), "");
      return true;
    }

    method NewlineOrComment() returns (matched: bool)
      requires cur.Valid()
      modifies cur
      ensures cur.Valid() && cur.backtrackCount == old(cur.backtrackCount)
      ensures cur.count == TriviaEnd(cur.input, old(cur.count))
      ensures matched <==> cur.count > old(cur.count)
    {
      var ignored;
      matched, ignored := cur.Space("");
      while !cur.IsEOF()
        invariant cur.Valid() && cur.backtrackCount == old(cur.backtrackCount)
        invariant old(cur.count) <= cur.count
        invariant AfterComments(cur.input, cur.count) == TriviaEnd(cur.input, old(cur.count))
        invariant !CanAccept(cur.input, cur.count, IsSpace)
        invariant matched <==> cur.count > old(cur.count)
        decreases |cur.input| + 1 - cur.count
      {
        ghost var before := cur.count;
        var c := Comment();
        if !c {
          break;
        }
        matched, ignored := cur.Space("");
        assert cur.count == SpaceEnd(cur.input, CommentEnd(cur.input, before));
        matched := true;
      }
    }

    /** Reads up to the next space or tab and throws `message` with that text. */
    method ErrorWithNextToken(message: string) returns (e: ParseError)
      requires cur.Valid()
      modifies cur
      ensures cur.Valid() && cur.backtrackCount == old(cur.backtrackCount)
      ensures Throws(e, cur.count) == NextTokenError(Src(), old(cur.count), message)
    {
      var _, token := cur.AnyUntil(IsInlineSpace, "");
      e := cur.Error(message, token);
    }

    // ------------------------------------------------------------ atoms

    method NumberLiteral() returns (r: Parsed)
      requires cur.Valid()
      modifies cur
      ensures cur.Valid() && cur.backtrackCount == old(cur.backtrackCount)
      ensures Agrees(r, NumberAt(Src(), old(cur.count)))
    {
      var ok, res := cur.SignedNumber("");
      if ok {
        assert res == NumeralText(cur.input, old(cur.count));
        NumeralTextIsSigned(cur.input, old(cur.count));
        return Ok(Some(NewNumber(Stoi(res))));
      }
      return Ok(None);
    }

    method StringLiteral() returns (r: Parsed)
      requires cur.Valid()
      modifies cur
      ensures cur.Valid() && cur.backtrackCount == old(cur.backtrackCount)
      ensures Agrees(r, StringAt(Src(), old(cur.count)))
    {
      var open, ignored := cur.Accept(IsChar('"'), "");
      if !open {
        return Ok(None);
      }
      var res := cur.AcceptWhile(IsNot(IsChar('"')), "");
      assert res == StringBody(cur.input, old(cur.count));
      ignored :- cur.Expect(IsChar('"'), "");
      return Ok(Some(NewLeaf(String, res)));
    }

    /** `a.b.c` as a Field of symbols; a lone name declines, so that the
        symbol parser reads it. */
    method FieldLiteral() returns (r: Parsed)
      requires cur.Valid()
      modifies cur
      ensures cur.Valid() && cur.backtrackCount == old(cur.backtrackCount)
      ensures Agrees(r, FieldAt(Src(), old(cur.count)))
    {
      var symbol := ReadName();
      if symbol == "" {
        return Ok(None);
      }
      r := FieldRest(FieldHead(symbol));
    }

    /** The `.name` parts after the first name of a field, appended to `leaf`. */
    method FieldRest(leaf: Node) returns (r: Parsed)
      requires cur.Valid() && FieldPrefix(leaf)
      modifies cur
      ensures cur.Valid() && cur.backtrackCount == old(cur.backtrackCount)
      ensures Agrees(r, FieldLoop(Src(), old(cur.count), leaf))
    {
      var names := leaf;
      while true
        invariant cur.Valid() && cur.backtrackCount == old(cur.backtrackCount)
        invariant FieldPrefix(names)
        invariant FieldLoop(Src(), old(cur.count), leaf) == FieldLoop(Src(), cur.count, names)
        decreases |cur.input| + 1 - cur.count
      {
        var turn := FieldTurn();
        match turn
        case Stop(_) =>
          if |AsList(names)| == 1 {
            return Ok(None);
          }
          return Ok(Some(names));
        case Fail(e, _) =>
          return Err(e);
        case Next(item, _) =>
          FieldAdvance(names, item);
          names := PushBack(names, item);
      }
    }

    /** One turn of the field loop: `space()`, then a '.' and a name. */
    method FieldTurn() returns (t: Turn)
      requires cur.Valid()
      modifies cur
      ensures cur.Valid() && cur.backtrackCount == old(cur.backtrackCount)
      ensures t == DotTurnAt(Src(), SpaceEnd(cur.input, old(cur.count)), Names, FieldNameMessage)
      ensures cur.count == t.at
    {
      ghost var s := SpaceEnd(cur.input, cur.count);
      var _, _ := cur.Space("");
      assert cur.count == s;
      t := DotTurn(Names, FieldNameMessage);
    }

    /** `accept(IsChar('.'))`, then `name()` or `packageName()`; a '.' with no
        name after it is an error at the next token. */
    method DotTurn(reader: Reader, message: string) returns (t: Turn)
      requires cur.Valid()
      modifies cur
      ensures cur.Valid() && cur.backtrackCount == old(cur.backtrackCount)
      ensures t == DotTurnAt(Src(), old(cur.count), reader, message) && cur.count == t.at
    {
      var dot, _ := cur.Accept(IsChar('.'), "");
      if !dot {
        return Stop(cur.count);
      }
      t := Dotted(reader, message);
    }

    /** The name after a '.', read by `reader`; `message` when there is none. */
    method Dotted(reader: Reader, message: string) returns (t: Turn)
      requires cur.Valid()
      modifies cur
      ensures cur.Valid() && cur.backtrackCount == old(cur.backtrackCount)
      ensures t == DottedAt(Src(), old(cur.count), reader, message) && cur.count == t.at
    {
      ghost var src, c := Src(), cur.count;
      var name := ReadWith(reader);
      assert name == ReadAt(src, c, reader);
      if name == "" {
        var e := ErrorWithNextToken(message);
        assert Throws(e, cur.count) == NextTokenError(src, c, message);
        return Fail(e, cur.count);
      }
      return Next(NewLeaf(reader.Kind(), name), cur.count);
    }

    method SymbolLiteral() returns (r: Parsed)
      requires cur.Valid()
      modifies cur
      ensures cur.Valid() && cur.backtrackCount == old(cur.backtrackCount)
      ensures Agrees(r, SymbolAt(Src(), old(cur.count)))
    {
      var res := ReadName();
      if res == "" {
        return Ok(None);
      }
      return Ok(Some(NewLeaf(Symbol, res)));
    }

    /** One entry of the atom table. */
    method TryAtom(k: AtomKind) returns (r: Parsed)
      requires cur.Valid()
      modifies cur
      ensures cur.Valid() && cur.backtrackCount == old(cur.backtrackCount)
      ensures Agrees(r, AtomKindAt(Src(), k, old(cur.count)))
    {
      match k
      case NumberAtom => r := NumberLiteral();
      case StringAtom => r := StringLiteral();
      case FieldAtom => r := FieldLiteral();
      case SymbolAtom => r := SymbolLiteral();
    }

    /** The atom parsers in order, rewinding after each one that declines. */
    method Atom() returns (r: Parsed)
      requires cur.Valid()
      modifies cur
      ensures cur.Valid()
      ensures Agrees(r, AtomAt(Src(), old(cur.count)))
      ensures r == Ok(None) ==> cur.count == old(cur.count)
                                && cur.backtrackCount == old(cur.backtrackCount) + |AtomAlternatives|
    {
      var pos := cur.GetCount();
      for i := 0 to |AtomAlternatives|
        invariant cur.Valid() && cur.count == pos
        invariant cur.backtrackCount == old(cur.backtrackCount) + i
        invariant FirstAtom(Src(), pos, 0) == FirstAtom(Src(), pos, i)
      {
        var result := TryAtom(AtomAlternatives[i]);
        if result.Err? || result.value.Some? {
          return result;
        }
        cur.Backtrack(pos);
      }
      return Ok(None);
    }

    /** An atom of one of `types`. An atom of another kind is not rewound:
        its text stays consumed. */
    method AnyAtomOf(types: set<NodeType>) returns (r: Parsed)
      requires cur.Valid()
      modifies cur
      ensures cur.Valid()
      ensures match AtomAt(Src(), old(cur.count))
              case Declines => r == Ok(None) && cur.count == old(cur.count)
              case Yields(a, e) => cur.count == e && r == if a.kind in types then Ok(Some(a)) else Ok(None)
              case Throws(err, at) => r == Err(err) && cur.count == at
    {
      var value :- Atom();
      if value.Some? && value.value.kind in types {
        return Ok(value);
      }
      return Ok(None);
    }

    // ------------------------------------------------------------ nodes
    // The productions below call each other; each call either happens after
    // some input was consumed or goes to a production of lower rank (the
    // second component of `decreases`).

    /** An atom, else a node; the cursor is unchanged when neither is there. */
    method NodeOrValue() returns (r: Parsed)
      requires cur.Valid()
      modifies cur
      decreases |cur.input| + 1 - cur.count, 7
      ensures cur.Valid()
      ensures Agrees(r, ValueAt(Src(), old(cur.count)))
      ensures r == Ok(None) ==> cur.count == old(cur.count)
    {
      var value :- Atom();
      if value.Some? {
        return Ok(value);
      }
      r := ParseNode();
    }

    /** `if (auto value = nodeOrValue(); value.has_value()) ... else
        errorWithNextToken(message);`: a value the production cannot do without. */
    method RequiredValue(message: string) returns (r: Result<Node, ParseError>)
      requires cur.Valid()
      modifies cur
      decreases |cur.input| + 1 - cur.count, 8
      ensures cur.Valid()
      ensures Settles(r, RequiredValueAt(Src(), old(cur.count), message))
    {
      var value := NodeOrValue();
      if value.Err? {
        return Err(value.error);
      }
      if value.value.None? {
        var e := ErrorWithNextToken(message);
        return Err(e);
      }
      return Ok(value.value.value);
    }

    /** `while (auto value = nodeOrValue()) { leaf.push_back(value); newlineOrComment(); }`,
        the body of block, functionCall and list. */
    method Values(leaf: Node) returns (r: Result<Node, ParseError>)
      requires cur.Valid() && IsListNode(leaf) && WellFormed(leaf)
      modifies cur
      decreases |cur.input| + 1 - cur.count, 8
      ensures cur.Valid()
      ensures Settles(r, ValuesAt(Src(), old(cur.count), leaf))
    {
      var acc := leaf;
      while true
        invariant cur.Valid() && IsListNode(acc) && WellFormed(acc)
        invariant ValuesAt(Src(), old(cur.count), leaf) == ValuesAt(Src(), cur.count, acc)
        decreases |cur.input| + 1 - cur.count
      {
        var value := NodeOrValue();
        if value.Err? {
          return Err(value.error);
        }
        if value.value.None? {
          break;
        }
        acc := PushBack(acc, value.value.value);
        var _ := NewlineOrComment();
      }
      return Ok(acc);
    }

    /** The alternatives of `m_node_parsers` in order, rewinding to the start
        after each one that declines; an exception is not caught. */
    method ParseNode() returns (r: Parsed)
      requires cur.Valid()
      modifies cur
      decreases |cur.input| + 1 - cur.count, 6
      ensures cur.Valid()
      ensures Agrees(r, NodeAt(Src(), old(cur.count)))
      ensures r == Ok(None) ==> cur.count == old(cur.count)
    {
      var position := cur.GetCount();
      for i := 0 to |NodeAlternatives|
        invariant cur.Valid() && cur.count == position
        invariant FirstAlt(Src(), position, 0) == FirstAlt(Src(), position, i)
      {
        var result := TryAlternative(NodeAlternatives[i]);
        if result.Err? || result.value.Some? {
          return result;
        }
        cur.Backtrack(position);
      }
      return Ok(None);
    }

    /** One entry of `m_node_parsers`. */
    method TryAlternative(alt: Alternative) returns (r: Parsed)
      requires cur.Valid()
      modifies cur
      decreases |cur.input| + 1 - cur.count, 5
      ensures cur.Valid()
      ensures Agrees(r, AltAt(Src(), alt, old(cur.count)))
    {
      match alt
      case WrappedAlt(f) => r := Wrapped(f, '(', ')');
      case ImportAlt => r := Import();
      case BlockAlt => r := Block();
      case FunctionCallAlt => r := FunctionCall();
      case ListAlt => r := ListLiteral();
    }

    /** `prefix`, trivia, the inner production, trivia, `suffix`. Once the
        inner production has produced a node a missing `suffix` throws. */
    method Wrapped(form: Form, prefix: char, suffix: char) returns (r: Parsed)
      requires cur.Valid()
      modifies cur
      decreases |cur.input| + 1 - cur.count, 4
      ensures cur.Valid()
      ensures Agrees(r, WrappedAt(Src(), form, prefix, suffix, old(cur.count)))
    {
      var open := OpenThenTrivia(prefix);
      if !open {
        return Ok(None);
      }
      r := Inner(form, suffix);
    }

    /** After the prefix: the inner production, then trivia and `suffix`. */
    method Inner(form: Form, suffix: char) returns (r: Parsed)
      requires cur.Valid()
      modifies cur
      decreases |cur.input| + 1 - cur.count, 4
      ensures cur.Valid()
      ensures Agrees(r, InnerAt(Src(), form, suffix, old(cur.count)))
    {
      var inner :- RunInner(form);
      if inner.None? {
        return Ok(None);
      }
      var closed :- TriviaThenSuffix(suffix, inner.value);
      return Ok(Some(closed));
    }

    /** The end of `wrapped` after the inner node `n`: trivia, then `suffix`,
        else the "Missing" error. */
    method TriviaThenSuffix(suffix: char, n: Node) returns (r: Result<Node, ParseError>)
      requires cur.Valid()
      modifies cur
      ensures cur.Valid() && cur.backtrackCount == old(cur.backtrackCount)
      ensures Settles(r, SuffixAt(Src(), old(cur.count), suffix, n))
    {
      var _ := NewlineOrComment();
      var close, ignored := cur.Accept(IsChar(suffix), "");
      if close {
        return Ok(n);
      }
      var e := ErrorWithNextToken("Missing '" + [suffix] + "' after node");
      return Err(e);
    }

    /** `(this->*parser)()`: the inner production a `wrapped` entry names. */
    method RunInner(form: Form) returns (r: Parsed)
      requires cur.Valid()
      modifies cur
      decreases |cur.input| + 1 - cur.count, 3
      ensures cur.Valid()
      ensures Agrees(r, FormAt(Src(), form, old(cur.count)))
    {
      match form
      case LetMutSetForm => r := LetMutSet();
      case FunctionForm => r := Function();
      case ConditionForm => r := Condition();
      case LoopForm => r := Loop();
      case MacroForm => r := Macro();
      case DelForm => r := Del();
    }

    // ------------------------------------------------------------ steps
    // Short sequences that recur in the productions below.

    /** `name(&s)` into an empty `s`: the name at the cursor, read. */
    method ReadName() returns (n: string)
      requires cur.Valid()
      modifies cur
      ensures cur.Valid() && cur.backtrackCount == old(cur.backtrackCount)
      ensures n == NameAt(Src(), old(cur.count)) && cur.count == old(cur.count) + |n|
    {
      var _, s := cur.Name("");
      assert s == "" + s;
      return s;
    }

    /** `packageName(&s)` into an empty `s`: the package name at the cursor, read. */
    method ReadPackage() returns (n: string)
      requires cur.Valid()
      modifies cur
      ensures cur.Valid() && cur.backtrackCount == old(cur.backtrackCount)
      ensures n == PackageAt(cur.input, old(cur.count)) && cur.count == old(cur.count) + |n|
    {
      var _, s := cur.PackageName("");
      assert s == "" + s;
      return s;
    }

    /** `name()` or `packageName()`, as `reader` says. */
    method ReadWith(reader: Reader) returns (n: string)
      requires cur.Valid()
      modifies cur
      ensures cur.Valid() && cur.backtrackCount == old(cur.backtrackCount)
      ensures n == ReadAt(Src(), old(cur.count), reader) && cur.count == old(cur.count) + |n|
    {
      if reader == Names {
        n := ReadName();
      } else {
        n := ReadPackage();
      }
    }

    /** `oneOf(words, &keyword)` and, on success, the trivia after it. */
    method KeywordThenTrivia(words: seq<string>) returns (ok: bool, keyword: string)
      requires cur.Valid()
      modifies cur
      ensures cur.Valid() && cur.backtrackCount == old(cur.backtrackCount)
      ensures ok == (NameAt(Src(), old(cur.count)) != "" && NameAt(Src(), old(cur.count)) in words)
      ensures ok ==> keyword == NameAt(Src(), old(cur.count))
                     && cur.count == TriviaEnd(cur.input, old(cur.count) + |keyword|)
    {
      ok, keyword := cur.OneOf(words, "");
      if ok {
        var _ := NewlineOrComment();
      }
    }

    /** KeywordThenTrivia for the one keyword `word`. */
    method WordThenTrivia(word: string) returns (ok: bool)
      requires cur.Valid() && word != ""
      modifies cur
      ensures cur.Valid() && cur.backtrackCount == old(cur.backtrackCount)
      ensures ok == (NameAt(Src(), old(cur.count)) == word)
      ensures ok ==> cur.count == TriviaEnd(cur.input, old(cur.count) + |word|)
    {
      var keyword;
      ok, keyword := KeywordThenTrivia([word]);
    }

    /** `accept(IsChar(c))` and, on success, the trivia after it. */
    method OpenThenTrivia(c: char) returns (ok: bool)
      requires cur.Valid()
      modifies cur
      ensures cur.Valid() && cur.backtrackCount == old(cur.backtrackCount)
      ensures ok == CanAccept(cur.input, old(cur.count), IsChar(c))
      ensures ok ==> cur.count == TriviaEnd(cur.input, old(cur.count) + 1)
      ensures !ok ==> cur.count == old(cur.count)
    {
      var ignored;
      ok, ignored := cur.Accept(IsChar(c), "");
      if ok {
        var _ := NewlineOrComment();
      }
    }

    /** `newlineOrComment(); expect(IsChar(c));` closing `n`, how bracketed
        productions end. */
    method TriviaThenClose(c: char, n: Node) returns (r: Parsed)
      requires cur.Valid() && c != '\0'
      modifies cur
      ensures cur.Valid() && cur.backtrackCount == old(cur.backtrackCount)
      ensures Agrees(r, Closing(Src(), TriviaEnd(cur.input, old(cur.count)), c, n))
    {
      var _ := NewlineOrComment();
      var closing := cur.Expect(IsChar(c), "");
      if closing.Err? {
        return Err(closing.error);
      }
      return Ok(Some(n));
    }

    /** `expect(IsChar(c)); newlineOrComment();` */
    method CloseThenTrivia(c: char) returns (r: Result<(), ParseError>)
      requires cur.Valid() && c != '\0'
      modifies cur
      ensures cur.Valid() && cur.backtrackCount == old(cur.backtrackCount)
      ensures r.Ok? <==> CharAt(cur.input, old(cur.count) - 1) == c
      ensures r.Ok? ==> cur.count == TriviaEnd(cur.input, old(cur.count) + 1)
      ensures r.Err? ==> r.error == ExpectError(Src(), old(cur.count), c) && cur.count == old(cur.count)
    {
      var closing := cur.Expect(IsChar(c), "");
      if closing.Err? {
        return Err(closing.error);
      }
      var _ := NewlineOrComment();
      return Ok(());
    }

    /** `if (!name(&symbol)) errorWithNextToken(keyword + " needs a symbol");` */
    method NeededSymbol(keyword: string) returns (r: Result<string, ParseError>)
      requires cur.Valid()
      modifies cur
      ensures cur.Valid() && cur.backtrackCount == old(cur.backtrackCount)
      ensures NameAt(Src(), old(cur.count)) != "" ==>
                r == Ok(NameAt(Src(), old(cur.count))) && cur.count == old(cur.count) + |r.value|
      ensures NameAt(Src(), old(cur.count)) == "" ==>
                r.Err? && Throws(r.error, cur.count) == NextTokenError(Src(), old(cur.count), keyword + " needs a symbol")
    {
      var symbol := ReadName();
      if symbol == "" {
        var e := ErrorWithNextToken(keyword + " needs a symbol");
        return Err(e);
      }
      return Ok(symbol);
    }

    /** NeededSymbol, then `newlineOrComment()`. */
    method SymbolThenTrivia(keyword: string) returns (r: Result<string, ParseError>)
      requires cur.Valid()
      modifies cur
      ensures cur.Valid() && cur.backtrackCount == old(cur.backtrackCount)
      ensures NameAt(Src(), old(cur.count)) != "" ==>
                r == Ok(NameAt(Src(), old(cur.count)))
                && cur.count == TriviaEnd(cur.input, old(cur.count) + |r.value|)
      ensures NameAt(Src(), old(cur.count)) == "" ==>
                r.Err? && Throws(r.error, cur.count) == NextTokenError(Src(), old(cur.count), keyword + " needs a symbol")
    {
      r := NeededSymbol(keyword);
      if r.Ok? {
        var _ := NewlineOrComment();
      }
    }

    /** `backtrack(getCount() - back); error(message, expr);`: the error
        points `back` bytes before the cursor. */
    method ErrorAtLastName(message: string, expr: string, back: nat) returns (e: ParseError)
      requires cur.Valid() && 0 < back < cur.count
      modifies cur
      ensures cur.Valid() && cur.backtrackCount == old(cur.backtrackCount) + 1
      ensures cur.count == old(cur.count) - back && e == ErrorAt(Src(), cur.count, message, expr)
    {
      cur.Backtrack(cur.GetCount() - back);
      e := cur.Error(message, expr);
    }

    // ------------------------------------------------------------ forms

    /** `let|mut|set <symbol> <value>` */
    method LetMutSet() returns (r: Parsed)
      requires cur.Valid()
      modifies cur
      decreases |cur.input| + 1 - cur.count, 2
      ensures cur.Valid()
      ensures Agrees(r, LetMutSetAt(Src(), old(cur.count)))
    {
      ghost var c := cur.count;
      var isKeyword, keyword := KeywordThenTrivia(LetMutSetWords);
      if !isKeyword {
        return Ok(None);
      }
      assert cur.count == TriviaEnd(Src().input, c + |keyword|);
      assert LetMutSetAt(Src(), c) == LetMutSetBodyAt(Src(), cur.count, keyword);
      var body := LetMutSetBody(keyword);
      if body.Err? {
        return Err(body.error);
      }
      return Ok(Some(body.value));
    }

    /** The symbol after the keyword, trivia, then the value. */
    method LetMutSetBody(keyword: string) returns (r: Result<Node, ParseError>)
      requires cur.Valid() && keyword in LetMutSetWords
      modifies cur
      decreases |cur.input| + 1 - cur.count, 2
      ensures cur.Valid()
      ensures Settles(r, LetMutSetBodyAt(Src(), old(cur.count), keyword))
    {
      ghost var t := cur.count;
      var symbol :- SymbolThenTrivia(keyword);
      assert LetMutSetBodyAt(Src(), t, keyword) == BoundValueAt(Src(), cur.count, keyword, symbol);
      r := BoundValue(keyword, symbol);
    }

    /** The value the keyword binds to `symbol`, and the resulting form. */
    method BoundValue(keyword: string, symbol: string) returns (r: Result<Node, ParseError>)
      requires cur.Valid() && keyword in LetMutSetWords && symbol != ""
      modifies cur
      decreases |cur.input| + 2 - cur.count, 0
      ensures cur.Valid()
      ensures Settles(r, BoundValueAt(Src(), old(cur.count), keyword, symbol))
    {
      var value := RequiredValue("Expected a value");
      if value.Err? {
        return Err(value.error);
      }
      return Ok(NewList([NewLeaf(Keyword, keyword), NewLeaf(Symbol, symbol), value.value]));
    }

    /** `del <symbol>` */
    method Del() returns (r: Parsed)
      requires cur.Valid()
      modifies cur
      ensures cur.Valid()
      ensures Agrees(r, DelAt(Src(), old(cur.count)))
    {
      var isKeyword := WordThenTrivia("del");
      if !isKeyword {
        return Ok(None);
      }
      var symbol :- NeededSymbol("del");
      return Ok(Some(NewList([NewLeaf(Keyword, "del"), NewLeaf(Symbol, symbol)])));
    }

    /** `if <condition> <then> [<else>]` */
    method Condition() returns (r: Parsed)
      requires cur.Valid()
      modifies cur
      decreases |cur.input| + 1 - cur.count, 2
      ensures cur.Valid()
      ensures Agrees(r, ConditionAt(Src(), old(cur.count)))
    {
      var isKeyword := WordThenTrivia("if");
      if !isKeyword {
        return Ok(None);
      }
      var condition := ValueThenTrivia("If need a valid condition");
      if condition.Err? {
        return Err(condition.error);
      }
      var node := Branches(condition.value);
      if node.Err? {
        return Err(node.error);
      }
      return Ok(Some(node.value));
    }

    /** The value for true and the optional value for false after `condition`. */
    method Branches(condition: Node) returns (r: Result<Node, ParseError>)
      requires cur.Valid() && ValueShaped(condition) && WellFormed(condition)
      modifies cur
      decreases |cur.input| + 2 - cur.count, 0
      ensures cur.Valid()
      ensures Settles(r, BranchesAt(Src(), old(cur.count), condition))
    {
      var valueIfTrue :- ValueThenTrivia("Expected a value");
      var valueIfFalse :- OptionalValueThenTrivia();
      if valueIfFalse.Some? {
        return Ok(NewList([NewLeaf(Keyword, "if"), condition, valueIfTrue, valueIfFalse.value]));
      }
      return Ok(NewList([NewLeaf(Keyword, "if"), condition, valueIfTrue]));
    }

    /** `while <condition> <body>` */
    method Loop() returns (r: Parsed)
      requires cur.Valid()
      modifies cur
      decreases |cur.input| + 1 - cur.count, 2
      ensures cur.Valid()
      ensures Agrees(r, LoopAt(Src(), old(cur.count)))
    {
      var isKeyword := WordThenTrivia("while");
      if !isKeyword {
        return Ok(None);
      }
      var condition :- ValueThenTrivia("While need a valid condition");
      var body :- RequiredValue("Expected a value");
      return Ok(Some(NewList([NewLeaf(Keyword, "while"), condition, body])));
    }

    /** A required value, then the trivia after it. */
    method ValueThenTrivia(message: string) returns (r: Result<Node, ParseError>)
      requires cur.Valid()
      modifies cur
      decreases |cur.input| + 1 - cur.count, 9
      ensures cur.Valid()
      ensures Settles(r, ValueThenTriviaAt(Src(), old(cur.count), message))
    {
      r := RequiredValue(message);
      if r.Ok? {
        var _ := NewlineOrComment();
      }
    }

    /** `nodeOrValue()` and, when it produced something, the trivia after it. */
    method OptionalValueThenTrivia() returns (r: Parsed)
      requires cur.Valid()
      modifies cur
      decreases |cur.input| + 1 - cur.count, 8
      ensures cur.Valid()
      ensures Agrees(r, OptionalValueAt(Src(), old(cur.count)))
      ensures r == Ok(None) ==> cur.count == old(cur.count)
    {
      r := NodeOrValue();
      if r.Ok? && r.value.Some? {
        var _ := NewlineOrComment();
      }
    }

    /** One entry of the argument list of `function`: `&` and a name gives a
        capture, a name alone a symbol, which throws once captures were seen;
        no name stops the list. A lone '&' stays consumed. */
    method Parameter(hasCaptures: bool) returns (t: Turn)
      requires cur.Valid()
      modifies cur
      ensures cur.Valid()
      ensures t == ParamTurnAt(Src(), old(cur.count), hasCaptures) && cur.count == t.at
    {
      var amp, ignored := cur.Accept(IsChar('&'), "");
      if amp {
        t := ListName(Capture, false);
      } else {
        t := ListName(Symbol, hasCaptures);
      }
    }

    /** The name of a parameter of `kind`, then trivia; a name where
        `misplaced` holds throws the capture-order error, pointing at it. */
    method ListName(kind: NodeType, misplaced: bool) returns (t: Turn)
      requires cur.Valid()
      modifies cur
      ensures cur.Valid()
      ensures t == ListNameAt(Src(), old(cur.count), kind, misplaced) && cur.count == t.at
    {
      var name := ReadName();
      if name == "" {
        return Stop(cur.count);
      }
      if misplaced {
        var e := ErrorAtLastName(CaptureOrderMessage, name, |name|);
        return Fail(e, cur.count);
      }
      var _ := NewlineOrComment();
      return Next(NewLeaf(kind, name), cur.count);
    }

    /** The argument list of `function`: symbols, then `&`captures, up to the
        first entry that is neither. A symbol after a capture throws,
        pointing at that symbol. */
    method FunctionParameters() returns (r: Result<Node, ParseError>)
      requires cur.Valid()
      modifies cur
      ensures cur.Valid()
      ensures Settles(r, ParamsAt(Src(), old(cur.count), NewNode(List), false))
    {
      var args := NewNode(List);
      var hasCaptures := false;
      while true
        invariant cur.Valid() && ParameterList(args) && WellFormed(args)
        invariant !hasCaptures ==> forall i :: 0 <= i < |AsList(args)| ==> AsList(args)[i].kind == Symbol
        invariant ParamsAt(Src(), old(cur.count), NewNode(List), false) == ParamsAt(Src(), cur.count, args, hasCaptures)
        decreases |cur.input| + 1 - cur.count
      {
        var turn := Parameter(hasCaptures);
        match turn
        case Stop(_) =>
          return Ok(args);
        case Fail(e, _) =>
          return Err(e);
        case Next(item, _) =>
          ParamAdvance(args, hasCaptures, item);
          hasCaptures := hasCaptures || item.kind == Capture;
          args := PushBack(args, item);
      }
    }

    /** `fun (<parameters>) <body>` */
    method Function() returns (r: Parsed)
      requires cur.Valid()
      modifies cur
      decreases |cur.input| + 1 - cur.count, 2
      ensures cur.Valid()
      ensures Agrees(r, FunctionAt(Src(), old(cur.count)))
    {
      ghost var c := cur.count;
      var isKeyword := WordThenTrivia("fun");
      if !isKeyword {
        return Ok(None);
      }
      assert cur.count == TriviaEnd(Src().input, c + |"fun"|);
      assert FunctionAt(Src(), c) == FunctionBodyAt(Src(), cur.count);
      var node := FunctionBody();
      if node.Err? {
        return Err(node.error);
      }
      return Ok(Some(node.value));
    }

    /** '(' and trivia, then the parameters and the rest of the function. */
    method FunctionBody() returns (r: Result<Node, ParseError>)
      requires cur.Valid()
      modifies cur
      decreases |cur.input| + 1 - cur.count, 2
      ensures cur.Valid()
      ensures Settles(r, FunctionBodyAt(Src(), old(cur.count)))
    {
      var opening :- CloseThenTrivia('(');
      var args :- FunctionParameters();
      r := FunctionValue(args);
    }

    /** ')' and trivia after the parameters `args`, then the body value. */
    method FunctionValue(args: Node) returns (r: Result<Node, ParseError>)
      requires cur.Valid() && ParameterList(args) && WellFormed(args)
      modifies cur
      decreases |cur.input| + 1 - cur.count, 2
      ensures cur.Valid()
      ensures Settles(r, FunctionValueAt(Src(), old(cur.count), args))
    {
      var closing :- CloseThenTrivia(')');
      var value :- RequiredValue("Expected a value");
      return Ok(NewList([NewLeaf(Keyword, "fun"), args, value]));
    }

    /** The optional `(<symbol>*)` of `macro`: the names, each followed by
        trivia, then ')' and trivia. */
    method MacroArguments() returns (r: Parsed)
      requires cur.Valid()
      modifies cur
      ensures cur.Valid()
      ensures Agrees(r, MacroArgsAt(Src(), old(cur.count)))
      ensures r == Ok(None) ==> cur.count == old(cur.count)
    {
      var open := OpenThenTrivia('(');
      if !open {
        return Ok(None);
      }
      var args := ArgumentList();
      r := if args.Ok? then Ok(Some(args.value)) else Err(args.error);
    }

    /** The argument names, then ')' and trivia. */
    method ArgumentList() returns (r: Result<Node, ParseError>)
      requires cur.Valid()
      modifies cur
      ensures cur.Valid()
      ensures Settles(r, ArgumentListAt(Src(), old(cur.count)))
    {
      var args := MacroNames();
      r := CloseArguments(args);
    }

    /** ')' and trivia after the names `args`. */
    method CloseArguments(args: Node) returns (r: Result<Node, ParseError>)
      requires cur.Valid()
      modifies cur
      ensures cur.Valid()
      ensures Settles(r, ArgumentsCloseAt(Src(), old(cur.count), args))
    {
      var closing := CloseThenTrivia(')');
      if closing.Err? {
        return Err(closing.error);
      }
      return Ok(args);
    }

    /** The names of a macro's argument list, each followed by trivia. */
    method MacroNames() returns (args: Node)
      requires cur.Valid()
      modifies cur
      ensures cur.Valid()
      ensures (args, cur.count) == ArgumentsAt(Src(), old(cur.count), NewNode(List))
    {
      args := NewNode(List);
      while true
        invariant cur.Valid() && SymbolList(args) && WellFormed(args)
        invariant ArgumentsAt(Src(), old(cur.count), NewNode(List)) == ArgumentsAt(Src(), cur.count, args)
        decreases |cur.input| + 1 - cur.count
      {
        var turn := ListName(Symbol, false);
        if !turn.Next? {
          return;
        }
        ArgumentAdvance(args, turn.item);
        args := PushBack(args, turn.item);
      }
    }

    /** `macro <symbol> [(<symbol>*)] <body>` */
    method Macro() returns (r: Parsed)
      requires cur.Valid()
      modifies cur
      decreases |cur.input| + 1 - cur.count, 2
      ensures cur.Valid()
      ensures Agrees(r, MacroAt(Src(), old(cur.count)))
    {
      var isKeyword := WordThenTrivia("macro");
      if !isKeyword {
        return Ok(None);
      }
      var node := MacroBody();
      if node.Err? {
        return Err(node.error);
      }
      return Ok(Some(node.value));
    }

    /** The macro's name and trivia, then the rest of the macro. */
    method MacroBody() returns (r: Result<Node, ParseError>)
      requires cur.Valid()
      modifies cur
      decreases |cur.input| + 1 - cur.count, 2
      ensures cur.Valid()
      ensures Settles(r, MacroBodyAt(Src(), old(cur.count)))
    {
      ghost var t := cur.count;
      var symbol :- SymbolThenTrivia("macro");
      assert MacroBodyAt(Src(), t) == MacroTailAt(Src(), cur.count, symbol);
      r := MacroTail(symbol);
    }

    /** The optional argument list of macro `symbol`, then its body. */
    method MacroTail(symbol: string) returns (r: Result<Node, ParseError>)
      requires cur.Valid() && symbol != ""
      modifies cur
      decreases |cur.input| + 2 - cur.count, 1
      ensures cur.Valid()
      ensures Settles(r, MacroTailAt(Src(), old(cur.count), symbol))
    {
      var args :- MacroArguments();
      r := MacroValue(symbol, args);
    }

    /** The body of macro `symbol` after its optional arguments `args`. */
    method MacroValue(symbol: string, args: Option<Node>) returns (r: Result<Node, ParseError>)
      requires cur.Valid() && symbol != "" && (args.Some? ==> SymbolList(args.value) && WellFormed(args.value))
      modifies cur
      decreases |cur.input| + 2 - cur.count, 0
      ensures cur.Valid()
      ensures Settles(r, MacroValueAt(Src(), old(cur.count), symbol, args))
    {
      var value :- RequiredValue("Expected a value");
      if args.Some? {
        return Ok(NewList([NewLeaf(Keyword, "macro"), NewLeaf(Symbol, symbol), args.value, value]));
      }
      return Ok(NewList([NewLeaf(Keyword, "macro"), NewLeaf(Symbol, symbol), value]));
    }

    // ------------------------------------------------------------ import

    /** The package path after `import`: a package name, then `.`-separated ones. */
    method ImportPath() returns (r: Result<Node, ParseError>)
      requires cur.Valid()
      modifies cur
      ensures cur.Valid() && cur.backtrackCount == old(cur.backtrackCount)
      ensures Settles(r, ImportPathAt(Src(), old(cur.count)))
    {
      var package := ReadPackage();
      if package == "" {
        var e := ErrorWithNextToken("Import expected a package name");
        return Err(e);
      }
      r := PackagePath(NewList([NewLeaf(String, package)]));
    }

    /** The `while (accept(IsChar('.')))` loop: each '.' must be followed by a
        package name, which is appended to `packageNode`. */
    method PackagePath(packageNode: Node) returns (r: Result<Node, ParseError>)
      requires cur.Valid() && PathShaped(packageNode)
      modifies cur
      ensures cur.Valid() && cur.backtrackCount == old(cur.backtrackCount)
      ensures Settles(r, PathAt(Src(), old(cur.count), packageNode))
    {
      var path := packageNode;
      while true
        invariant cur.Valid() && cur.backtrackCount == old(cur.backtrackCount)
        invariant PathShaped(path)
        invariant PathAt(Src(), old(cur.count), packageNode) == PathAt(Src(), cur.count, path)
        decreases |cur.input| + 1 - cur.count
      {
        var turn := DotTurn(Packages, PackageNameMessage);
        match turn
        case Stop(_) =>
          return Ok(path);
        case Fail(e, _) =>
          return Err(e);
        case Next(item, _) =>
          PathAdvance(path, item);
          path := PushBack(path, item);
      }
    }

    /** `accept(IsChar(':')) && accept(IsChar('*'))` and, when both match,
        `space(); expect(IsChar(')'));`. A ':' not followed by '*' stays consumed. */
    method StarTail() returns (star: bool, r: Result<(), ParseError>)
      requires cur.Valid()
      modifies cur
      ensures cur.Valid() && cur.backtrackCount == old(cur.backtrackCount)
      ensures var c := old(cur.count);
              var colon := CanAccept(cur.input, c, IsChar(':'));
              && star == (colon && CanAccept(cur.input, c + 1, IsChar('*')))
              && (!star ==> r.Ok? && cur.count == if colon then c + 1 else c)
              && (star ==> var s := SpaceEnd(cur.input, c + 2);
                           if CharAt(cur.input, s - 1) == ')' then r.Ok? && cur.count == s + 1
                           else r == Err(ExpectError(Src(), s, ')')) && cur.count == s)
    {
      var colon, ignored := cur.Accept(IsChar(':'), "");
      if !colon {
        return false, Ok(());
      }
      star, ignored := cur.Accept(IsChar('*'), "");
      if !star {
        return false, Ok(());
      }
      r := StarClose();
    }

    /** White space, then the ')' that must close `(import <path>:*`. */
    method StarClose() returns (r: Result<(), ParseError>)
      requires cur.Valid()
      modifies cur
      ensures cur.Valid() && cur.backtrackCount == old(cur.backtrackCount)
      ensures var s := SpaceEnd(cur.input, old(cur.count));
              if CharAt(cur.input, s - 1) == ')' then r.Ok? && cur.count == s + 1
              else r == Err(ExpectError(Src(), s, ')')) && cur.count == s
    {
      var _, _ := cur.Space("");
      var closing := cur.Expect(IsChar(')'), "");
      if closing.Err? {
        return Err(closing.error);
      }
      return Ok(());
    }

    /** One `:name` entry after the package path: `Ok(None)` when no ':'
        starts here; `:*` at the end of the name throws, pointing at that ":*". */
    method ImportSymbol() returns (r: Parsed)
      requires cur.Valid()
      modifies cur
      ensures cur.Valid()
      ensures Agrees(r, ImportSymbolAt(Src(), old(cur.count)))
      ensures r == Ok(None) ==> cur.count == old(cur.count)
    {
      var colon, ignored := cur.Accept(IsChar(':'), "");
      if !colon {
        return Ok(None);
      }
      var name := ImportedName();
      r := if name.Ok? then Ok(Some(name.value)) else Err(name.error);
    }

    /** The name after an import's ':'. */
    method ImportedName() returns (r: Result<Node, ParseError>)
      requires cur.Valid()
      modifies cur
      ensures cur.Valid()
      ensures Settles(r, ImportedNameAt(Src(), old(cur.count)))
    {
      var symbol := ReadName();
      if symbol == "" {
        var e := ErrorWithNextToken("Expected a valid symbol to import");
        return Err(e);
      }
      if |symbol| >= 2 && symbol[|symbol| - 2] == ':' && symbol[|symbol| - 1] == '*' {
        var e := ErrorAtLastName(StarPatternMessage, ":*", 2);
        return Err(e);
      }
      return Ok(NewLeaf(Symbol, symbol));
    }

    /** The `:name` entries after the package path, each followed by trivia. */
    method ImportSymbols() returns (r: Result<Node, ParseError>)
      requires cur.Valid()
      modifies cur
      ensures cur.Valid()
      ensures Settles(r, SymbolsAt(Src(), old(cur.count), NewNode(List)))
    {
      var symbols := NewNode(List);
      while true
        invariant cur.Valid() && SymbolList(symbols) && WellFormed(symbols)
        invariant SymbolsAt(Src(), old(cur.count), NewNode(List)) == SymbolsAt(Src(), cur.count, symbols)
        decreases |cur.input| + 1 - cur.count
      {
        var entry :- ImportSymbol();
        if entry.Some? {
          symbols := PushBack(symbols, entry.value);
        }
        var again := NewlineOrComment();
        if !again {
          break;
        }
      }
      return Ok(symbols);
    }

    /** `if (newlineOrComment())` then the `:name` entries; none otherwise. */
    method ImportNames() returns (r: Result<Node, ParseError>)
      requires cur.Valid()
      modifies cur
      ensures cur.Valid()
      ensures Settles(r, ImportNamesAt(Src(), old(cur.count)))
    {
      var more := NewlineOrComment();
      if !more {
        return Ok(NewNode(List));
      }
      r := ImportSymbols();
    }

    /** `(import a.b.c)`, `(import a.b :x :y)` or `(import a.b:*)`. */
    method Import() returns (r: Parsed)
      requires cur.Valid()
      modifies cur
      ensures cur.Valid()
      ensures Agrees(r, ImportAt(Src(), old(cur.count)))
    {
      var isImport := ImportOpening();
      if !isImport {
        return Ok(None);
      }
      var body := ImportBody(NewLeaf(Keyword, "import"));
      if body.Err? {
        return Err(body.error);
      }
      return Ok(Some(body.value));
    }

    /** '(' then trivia then the word `import` then trivia. */
    method ImportOpening() returns (ok: bool)
      requires cur.Valid()
      modifies cur
      ensures cur.Valid() && cur.backtrackCount == old(cur.backtrackCount)
      ensures var open := ImportOpenAt(Src(), old(cur.count));
              ok == open.Some? && (ok ==> cur.count == open.value)
    {
      ok := OpenThenTrivia('(');
      if ok {
        ok := WordThenTrivia("import");
      }
    }

    /** What follows `(import`: the path, then `*` or the imported names, then ')'. */
    method ImportBody(kw: Node) returns (r: Result<Node, ParseError>)
      requires cur.Valid() && kw == NewLeaf(Keyword, "import")
      modifies cur
      ensures cur.Valid()
      ensures Settles(r, ImportBodyAt(Src(), old(cur.count)))
    {
      var path := ImportPath();
      if path.Err? {
        return Err(path.error);
      }
      r := ImportTail(kw, path.value);
    }

    /** After the path: `:*` and ')', or the imported names, trivia and ')'. */
    method ImportTail(kw: Node, path: Node) returns (r: Result<Node, ParseError>)
      requires cur.Valid() && kw == NewLeaf(Keyword, "import") && PathShaped(path)
      modifies cur
      ensures cur.Valid()
      ensures Settles(r, ImportTailAt(Src(), old(cur.count), path))
    {
      ghost var c := cur.count;
      var star, closing := StarTail();
      if star {
        assert ImportTailAt(Src(), c, path)
            == Closing(Src(), SpaceEnd(cur.input, c + 2), ')', NewList([kw, path, NewLeaf(Symbol, "*")]));
        if closing.Err? {
          return Err(closing.error);
        }
        return Ok(NewList([kw, path, NewLeaf(Symbol, "*")]));
      }
      r := ImportList(kw, path);
    }

    /** The imported names, then trivia and ')'. */
    method ImportList(kw: Node, path: Node) returns (r: Result<Node, ParseError>)
      requires cur.Valid() && kw == NewLeaf(Keyword, "import") && PathShaped(path)
      modifies cur
      ensures cur.Valid()
      ensures Settles(r, ImportListAt(Src(), old(cur.count), path))
    {
      var symbols := ImportNames();
      if symbols.Err? {
        return Err(symbols.error);
      }
      var closed := TriviaThenClose(')', NewList([kw, path, symbols.value]));
      if closed.Err? {
        return Err(closed.error);
      }
      return Ok(NewList([kw, path, symbols.value]));
    }

    // ------------------------------------------------------------ bracketed

    /** The opening of `block`: '(' then trivia then the word `begin`, or '{'.
        `closer` is the bracket that must end the block. */
    method BlockOpening() returns (ok: bool, closer: char)
      requires cur.Valid()
      modifies cur
      ensures cur.Valid() && cur.backtrackCount == old(cur.backtrackCount)
      ensures var open := BlockOpenAt(Src(), old(cur.count));
              ok == open.Some? && (ok ==> closer == open.value.0 && cur.count == open.value.1)
    {
      var open := OpenThenTrivia('(');
      if open {
        var isBegin, _ := cur.OneOf(["begin"], "");
        return isBegin, ')';
      }
      ok := OpenThenTrivia('{');
      closer := '}';
    }

    /** `(begin <value>*)` or `{<value>*}`, closed by the bracket matching its opener. */
    method Block() returns (r: Parsed)
      requires cur.Valid()
      modifies cur
      decreases |cur.input| + 1 - cur.count, 4
      ensures cur.Valid()
      ensures Agrees(r, BlockAt(Src(), old(cur.count)))
    {
      var isBlock, closer := BlockOpening();
      if !isBlock {
        return Ok(None);
      }
      var _ := NewlineOrComment();
      r := Body(closer, NewList([NewLeaf(Keyword, "begin")]));
    }

    /** The values appended to `leaf`, then trivia and `closer`. */
    method Body(closer: char, leaf: Node) returns (r: Parsed)
      requires cur.Valid() && closer != '\0' && IsListNode(leaf) && WellFormed(leaf)
      modifies cur
      decreases |cur.input| + 1 - cur.count, 9
      ensures cur.Valid()
      ensures Agrees(r, BodyAt(Src(), old(cur.count), closer, leaf))
    {
      var items := Values(leaf);
      if items.Err? {
        return Err(items.error);
      }
      r := TriviaThenClose(closer, items.value);
    }

    /** `(<callee> <value>*)`: the callee is a symbol or field atom or else a
        node. After an atom of another kind the node is tried where that atom
        ended. */
    method FunctionCall() returns (r: Parsed)
      requires cur.Valid()
      modifies cur
      decreases |cur.input| + 1 - cur.count, 4
      ensures cur.Valid()
      ensures Agrees(r, CallAt(Src(), old(cur.count)))
    {
      var open := OpenThenTrivia('(');
      if !open {
        return Ok(None);
      }
      var func :- Callee();
      if func.None? {
        return Ok(None);
      }
      var _ := NewlineOrComment();
      r := Body(')', NewList([func.value]));
    }

    /** The callee of `functionCall`: `anyAtomOf({Symbol, Field})`, else `node()`. */
    method Callee() returns (r: Parsed)
      requires cur.Valid()
      modifies cur
      decreases |cur.input| + 1 - cur.count, 7
      ensures cur.Valid()
      ensures Agrees(r, CalleeAt(Src(), old(cur.count)))
    {
      var atom :- AnyAtomOf({Symbol, Field});
      if atom.Some? {
        return Ok(atom);
      }
      r := ParseNode();
    }

    /** `[<value>*]`, read as a call of `list`. */
    method ListLiteral() returns (r: Parsed)
      requires cur.Valid()
      modifies cur
      decreases |cur.input| + 1 - cur.count, 4
      ensures cur.Valid()
      ensures Agrees(r, ListAt(Src(), old(cur.count)))
    {
      var open := OpenThenTrivia('[');
      if !open {
        return Ok(None);
      }
      r := Body(']', NewList([NewLeaf(Symbol, "list")]));
    }

    // ------------------------------------------------------------ program

    /** `m_ast.push_back(node)`. */
    method Append(node: Node)
      requires Valid() && NodeShaped(node) && WellFormed(node)
      modifies this
      ensures Valid()
      ensures AsList(ast) == old(AsList(ast)) + [node]
    {
      ast := PushBack(ast, node);
    }

    /** One round of `parse()`'s loop: trivia, then the end of the input
        (`end`) or one node. */
    method Statement() returns (end: bool, r: Parsed)
      requires cur.Valid()
      modifies cur
      ensures cur.Valid()
      ensures var s := StatementAt(Src(), old(cur.count));
              end == s.None? && (!end ==> Agrees(r, s.value))
    {
      var _ := NewlineOrComment();
      if cur.IsEOF() {
        return true, Ok(None);
      }
      end := false;
      r := ParseNode();
    }

    /** `parse()`: trivia, then a node, until the end of input, appending the
        nodes to `ast` in order. Where `node` declines the cursor is where it
        was, so the source's loop would repeat the same step forever; the
        method reports that as Diverges. */
    method Parse() returns (status: Status)
      requires Valid()
      modifies this, cur
      ensures Valid()
      ensures AsList(ast) == old(AsList(ast)) + ProgramAt(Src(), old(cur.count)).nodes
      ensures status == ProgramAt(Src(), old(cur.count)).status
    {
      ghost var src := Src();
      ghost var whole := ProgramAt(src, cur.count);
      ghost var nodes := AsList(ast) + whole.nodes;
      while !cur.IsEOF()
        invariant Valid()
        invariant AsList(ast) + ProgramAt(src, cur.count).nodes == nodes
        invariant ProgramAt(src, cur.count).status == whole.status
        decreases |cur.input| + 1 - cur.count
      {
        ghost var before := cur.count;
        var end, n := Statement();
        if end {
          break;
        }
        if n.Err? {
          return Failed(n.error);
        }
        if n.value.None? {
          return Diverges;
        }
        ProgramStep(src, before);
        Append(n.value.value);
      }
      return Complete;
    }
  }
}

