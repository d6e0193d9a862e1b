/** Ordered choice in the grammar of src/parser.cpp. `atom` and `node` try the
    entries of their tables in order and the first entry that does not
    decline decides, with the cursor backtracked between entries;
    `nodeOrValue` tries an atom before a node, and the callee of a call
    tries a symbol or field atom before a node. */
module Choice {
  import opened Predicates
  import opened Scan
  import opened Ast
  import opened Syntax
  import opened Reference

  // ---------------------------------------------------------------- atom

  /** Past entries that all decline, the atom table from `k` answers as the
      table from `i`. */
  lemma {:induction false} FirstAtomSkips(src: Source, c: nat, k: nat, i: nat)
    requires src.Pos(c) && k <= i <= |AtomAlternatives|
    requires forall j :: k <= j < i ==> AtomKindAt(src, AtomAlternatives[j], c).Declines?
    ensures FirstAtom(src, c, k) == FirstAtom(src, c, i)
    decreases i - k
  {
    if k < i {
      FirstAtomSkips(src, c, k + 1, i);
    }
  }

  /** The atom table from `k` declines exactly when each of its entries does. */
  lemma {:induction false} FirstAtomDeclines(src: Source, c: nat, k: nat)
    requires src.Pos(c) && k <= |AtomAlternatives|
    ensures FirstAtom(src, c, k).Declines? <==>
              forall j :: k <= j < |AtomAlternatives| ==> AtomKindAt(src, AtomAlternatives[j], c).Declines?
    decreases |AtomAlternatives| - k
  {
    if k < |AtomAlternatives| {
      FirstAtomDeclines(src, c, k + 1);
    }
  }

  /** `atom()` answers with the first entry of its table that does not decline. */
  lemma AtomIsFirstAnswer(src: Source, c: nat, i: nat)
    requires src.Pos(c) && i < |AtomAlternatives|
    requires forall j :: 0 <= j < i ==> AtomKindAt(src, AtomAlternatives[j], c).Declines?
    requires !AtomKindAt(src, AtomAlternatives[i], c).Declines?
    ensures AtomAt(src, c) == AtomKindAt(src, AtomAlternatives[i], c)
  {
    FirstAtomSkips(src, c, 0, i);
  }

  /** `atom()` declines exactly when every entry of its table declines. */
  lemma AtomDeclinesIffAll(src: Source, c: nat)
    requires src.Pos(c)
    ensures AtomAt(src, c).Declines? <==>
              forall j :: 0 <= j < |AtomAlternatives| ==> AtomKindAt(src, AtomAlternatives[j], c).Declines?
  {
    FirstAtomDeclines(src, c, 0);
  }

  /** The table order written out: a numeral wins, then a string, then a
      field, then a plain symbol; "123" is a Number and never a Symbol. */
  lemma AtomPriority(src: Source, c: nat)
    requires src.Pos(c)
    ensures AtomAt(src, c) ==
              if NumeralAt(src.input, c) then NumberAt(src, c)
              else if CanAccept(src.input, c, IsChar('"')) then StringAt(src, c)
              else if !FieldAt(src, c).Declines? then FieldAt(src, c)
              else SymbolAt(src, c)
  {
    var t := AtomAlternatives;
    assert t[0] == NumberAtom && t[1] == StringAtom && t[2] == FieldAtom && t[3] == SymbolAtom;
    assert FirstAtom(src, c, 3) == (if SymbolAt(src, c).Declines? then FirstAtom(src, c, 4) else SymbolAt(src, c));
    assert FirstAtom(src, c, 2) == (if FieldAt(src, c).Declines? then FirstAtom(src, c, 3) else FieldAt(src, c));
    assert FirstAtom(src, c, 1) == (if StringAt(src, c).Declines? then FirstAtom(src, c, 2) else StringAt(src, c));
    assert FirstAtom(src, c, 0) == (if NumberAt(src, c).Declines? then FirstAtom(src, c, 1) else NumberAt(src, c));
  }

  /** `atom()` declines exactly when no numeral, no '"' and no name starts at `c`. */
  lemma AtomDeclinesIffNoAtom(src: Source, c: nat)
    requires src.Pos(c)
    ensures AtomAt(src, c).Declines? <==> NoAtomAt(src, c)
  {
    AtomPriority(src, c);
  }

  // ---------------------------------------------------------------- node

  /** Past alternatives that all decline, `node()`'s table from `k` answers as
      the table from `i`. */
  lemma {:induction false} FirstAltSkips(src: Source, c: nat, k: nat, i: nat)
    requires src.Pos(c) && k <= i <= |NodeAlternatives|
    requires forall j :: k <= j < i ==> AltAt(src, NodeAlternatives[j], c).Declines?
    ensures FirstAlt(src, c, k) == FirstAlt(src, c, i)
    decreases i - k
  {
    if k < i {
      FirstAltSkips(src, c, k + 1, i);
    }
  }

  /** The alternatives from `k` decline exactly when each of them does. */
  lemma {:induction false} FirstAltDeclines(src: Source, c: nat, k: nat)
    requires src.Pos(c) && k <= |NodeAlternatives|
    ensures FirstAlt(src, c, k).Declines? <==>
              forall j :: k <= j < |NodeAlternatives| ==> AltAt(src, NodeAlternatives[j], c).Declines?
    decreases |NodeAlternatives| - k
  {
    if k < |NodeAlternatives| {
      FirstAltDeclines(src, c, k + 1);
      var o := AltAt(src, NodeAlternatives[k], c);
      assert FirstAlt(src, c, k) == if o.Declines? then FirstAlt(src, c, k + 1) else o;
    }
  }

  /** `node()` answers with the first alternative, in the order of
      `m_node_parsers`, that does not decline: on "(let x 1)" that is the
      letMutSet entry, whatever a later entry would make of the text. */
  lemma NodeIsFirstAnswer(src: Source, c: nat, i: nat)
    requires src.Pos(c) && i < |NodeAlternatives|
    requires forall j :: 0 <= j < i ==> AltAt(src, NodeAlternatives[j], c).Declines?
    requires !AltAt(src, NodeAlternatives[i], c).Declines?
    ensures NodeAt(src, c) == AltAt(src, NodeAlternatives[i], c)
  {
    FirstAltSkips(src, c, 0, i);
  }

  /** `node()` declines exactly when every alternative declines. */
  lemma NodeDeclinesIffAll(src: Source, c: nat)
    requires src.Pos(c)
    ensures NodeAt(src, c).Declines? <==>
              forall j :: 0 <= j < |NodeAlternatives| ==> AltAt(src, NodeAlternatives[j], c).Declines?
  {
    FirstAltDeclines(src, c, 0);
  }

  // ---------------------------------------------------------------- nodeOrValue and callee

  /** `nodeOrValue()` returns the atom whenever one starts at `c`, and
      `node()`'s answer only when none does; it declines exactly when no atom
      starts there and every alternative of `node()` declines. */
  lemma ValueIsAtomFirst(src: Source, c: nat)
    requires src.Pos(c)
    ensures !NoAtomAt(src, c) ==> ValueAt(src, c) == AtomAt(src, c)
    ensures NoAtomAt(src, c) ==> ValueAt(src, c) == NodeAt(src, c)
    ensures ValueAt(src, c).Declines? <==>
              NoAtomAt(src, c) && forall j :: 0 <= j < |NodeAlternatives| ==> AltAt(src, NodeAlternatives[j], c).Declines?
  {
    AtomDeclinesIffNoAtom(src, c);
    NodeDeclinesIffAll(src, c);
  }

  /** The callee of a call when a name that is not a numeral starts at `c`:
      the symbol or field atom `anyAtomOf` reads there, or its error. */
  lemma CalleeOfName(src: Source, c: nat)
    requires src.Pos(c)
    requires !NumeralAt(src.input, c) && !CanAccept(src.input, c, IsChar('"')) && NameAt(src, c) != ""
    ensures CalleeAt(src, c) == AtomAt(src, c) && !AtomAt(src, c).Declines?
  {
    AtomPriority(src, c);
    var a := AtomAt(src, c);
    assert a == FieldAt(src, c) || a == SymbolAt(src, c);
    assert a.Yields? ==> a.node.kind in {Symbol, Field};
  }

  /** With no atom at `c`, the callee is whatever `node()` reads there. */
  lemma CalleeWithoutAtom(src: Source, c: nat)
    requires src.Pos(c) && NoAtomAt(src, c)
    ensures CalleeAt(src, c) == NodeAt(src, c)
  {
    AtomDeclinesIffNoAtom(src, c);
  }

  /** A number or a string at `c` is read by `anyAtomOf` and dropped, and the
      callee is then what `node()` reads after it. */
  lemma CalleeAfterLiteral(src: Source, c: nat)
    requires src.Pos(c)
    ensures NumeralAt(src.input, c) ==> CalleeAt(src, c) == NodeAt(src, NumberAt(src, c).end)
    ensures !NumeralAt(src.input, c) && CanAccept(src.input, c, IsChar('"')) ==>
              CalleeAt(src, c) == (if StringAt(src, c).Yields? then NodeAt(src, StringAt(src, c).end) else StringAt(src, c))
  {
    AtomPriority(src, c);
  }
}
