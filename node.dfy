/** The AST of src/node.hpp and src/node.cpp: a node kind fixed at
    construction and a payload that is a number, a string or a list of child
    nodes, and the `operator<<` serialiser. */
module Ast {

  /** The nine kinds of src/node.hpp, plus `Field`, which src/parser.cpp uses
      for dotted access chains and fills with child symbols. */
  datatype NodeType =
    | Symbol
    | Capture
    | GetField
    | Keyword
    | String
    | Number
    | List
    | Spread
    | Unused
    | Field

  /** `std::variant<double, std::string, std::vector<Node>>`, with an integer
      in place of the double. */
  datatype Value = Num(n: int) | Str(s: string) | Vec(children: seq<Node>)

  datatype Node = Node(kind: NodeType, value: Value)

  /** The kinds whose default payload, and whose printed payload, is a string. */
  predicate HasStringPayload(k: NodeType) {
    k in {Symbol, Capture, GetField, Keyword, String, Spread, Unused}
  }

  predicate HasListPayload(k: NodeType) {
    k == List || k == Field
  }

  /** The payload is the alternative the kind's accessor expects, all the way down. */
  predicate WellFormed(n: Node)
    decreases n
  {
    match n.kind
    case Number => n.value.Num?
    case List | Field =>
      n.value.Vec? && forall i :: 0 <= i < |n.value.children| ==> WellFormed(n.value.children[i])
    case _ => n.value.Str?
  }

  /** `Node(NodeType)`: an empty list for List (and Field), an empty string for
      the identifier and string kinds, zero for Number. Unused falls into the
      `default:` branch and keeps the variant's default (numeric) payload. */
  function NewNode(kind: NodeType): (r: Node)
    ensures r.kind == kind
    ensures HasListPayload(kind) ==> r.value == Vec([])
    ensures kind != Unused && HasStringPayload(kind) ==> r.value == Str("")
    ensures kind == Number ==> r.value == Num(0)
    ensures WellFormed(r) <==> kind != Unused
  {
    match kind
    case List | Field => Node(kind, Vec([]))
    case Symbol | Capture | GetField | Keyword | String | Spread => Node(kind, Str(""))
    case Number | Unused => Node(kind, Num(0))
  }

  /** `Node(NodeType, std::string)` */
  function NewLeaf(kind: NodeType, s: string): (r: Node)
    ensures r.kind == kind && r.value.Str?
    ensures AsString(r) == s
    ensures WellFormed(r) <==> HasStringPayload(kind)
  {
    Node(kind, Str(s))
  }

  /** `Node(int)` / `Node(long)` / `Node(double)` */
  function NewNumber(v: int): (r: Node)
    ensures r.kind == Number && WellFormed(r) && AsNumber(r) == v
  {
    Node(Number, Num(v))
  }

  /** `Node(std::vector<Node>)`: a List holding exactly `children`. */
  function NewList(children: seq<Node>): (r: Node)
    ensures r.kind == List && r.value.Vec? && AsList(r) == children
    ensures WellFormed(r) <==> forall i :: 0 <= i < |children| ==> WellFormed(children[i])
  {
    Node(List, Vec(children))
  }

  /** `number()`, `string()`, `list()`: `std::get` throws unless the payload
      holds that alternative. */
  function AsNumber(n: Node): int
    requires n.value.Num?
  {
    n.value.n
  }

  function AsString(n: Node): string
    requires n.value.Str?
  {
    n.value.s
  }

  function AsList(n: Node): seq<Node>
    requires n.value.Vec?
  {
    n.value.children
  }

  /** `push_back`: one more child at the end; kind and earlier children unchanged. */
  function PushBack(n: Node, c: Node): (r: Node)
    requires n.value.Vec?
    ensures r.kind == n.kind && r.value.Vec?
    ensures |AsList(r)| == |AsList(n)| + 1
    ensures AsList(r)[..|AsList(n)|] == AsList(n) && AsList(r)[|AsList(n)|] == c
    ensures WellFormed(n) && WellFormed(c) ==> WellFormed(r)
  {
    Node(n.kind, Vec(n.value.children + [c]))
  }

  /** Pushing several children one at a time lists them in order. */
  function PushAll(n: Node, cs: seq<Node>): (r: Node)
    requires n.value.Vec?
    ensures r.kind == n.kind && r.value.Vec? && AsList(r) == AsList(n) + cs
    decreases |cs|
  {
    if |cs| == 0 then n else PushAll(PushBack(n, cs[0]), cs[1..])
  }

  /** The nodes the serialiser can print: no Number (its `double` formatting
      is not modelled) and string kinds holding strings. */
  predicate Printable(n: Node)
    decreases n
  {
    match n.kind
    case Number => false
    case List | Field =>
      n.value.Vec? && forall i :: 0 <= i < |n.value.children| ==> Printable(n.value.children[i])
    case _ => n.value.Str?
  }

  function KindLabel(k: NodeType): string {
    match k
    case Symbol => "Symbol:"
    case Capture => "Capture:"
    case GetField => "GetField:"
    case Keyword => "Keyword:"
    case String => "String:"
    case Spread => "Spread:"
    case Unused => "Unused:"
    case _ => ""
  }

  /** `operator<<`. A List prints "( ", each child followed by " ", then ")".
      Field has no case in the switch and prints nothing. */
  function Print(n: Node): (r: string)
    requires Printable(n)
    decreases n, 1
  {
    match n.kind
    case List => "( " + PrintChildren(n, |n.value.children|) + ")"
    case Field => ""
    case _ => KindLabel(n.kind) + n.value.s
  }

  /** The output of the first `k` iterations of the List case's loop. */
  function PrintChildren(n: Node, k: nat): string
    requires Printable(n) && n.value.Vec? && k <= |n.value.children|
    decreases n, 0, k
  {
    if k == 0 then "" else PrintChildren(n, k - 1) + Print(n.value.children[k - 1]) + " "
  }

  lemma PrintLeaf(kind: NodeType, s: string)
    requires HasStringPayload(kind)
    ensures Printable(NewLeaf(kind, s))
    ensures Print(NewLeaf(kind, s)) == KindLabel(kind) + s
    ensures |KindLabel(kind)| > 0 && KindLabel(kind)[|KindLabel(kind)| - 1] == ':'
  {
  }

  lemma PrintEmptyList()
    ensures Printable(NewNode(List)) && Print(NewNode(List)) == "( )"
  {
  }

  /** The loop's output for the first `k` children is the same in a longer list
      that shares them. */
  lemma {:induction false} PrintChildrenPrefix(a: Node, b: Node, k: nat)
    requires Printable(a) && a.value.Vec? && Printable(b) && b.value.Vec?
    requires k <= |a.value.children| && k <= |b.value.children|
    requires a.value.children[..k] == b.value.children[..k]
    ensures PrintChildren(a, k) == PrintChildren(b, k)
  {
    if k > 0 {
      assert a.value.children[..k - 1] == b.value.children[..k - 1] by {
        assert a.value.children[..k - 1] == a.value.children[..k][..k - 1];
        assert b.value.children[..k - 1] == b.value.children[..k][..k - 1];
      }
      assert a.value.children[k - 1] == a.value.children[..k][k - 1];
      assert b.value.children[k - 1] == b.value.children[..k][k - 1];
      PrintChildrenPrefix(a, b, k - 1);
    }
  }

  /** Appending a printable child keeps a list printable. */
  lemma PushBackPrintable(l: Node, c: Node)
    requires l.kind == List && Printable(l) && Printable(c)
    ensures Printable(PushBack(l, c))
  {
    var r := PushBack(l, c);
    forall i | 0 <= i < |r.value.children|
      ensures Printable(r.value.children[i])
    {
      if i < |l.value.children| {
        assert r.value.children[i] == l.value.children[i];
      }
    }
  }

  /** Appending a child to a list inserts its text and one " " before the ")". */
  lemma PrintPushBack(l: Node, c: Node)
    requires l.kind == List && Printable(l) && Printable(c)
    ensures Printable(PushBack(l, c))
    ensures Print(PushBack(l, c)) == "( " + PrintChildren(l, |l.value.children|) + Print(c) + " )"
  {
    PushBackPrintable(l, c);
    var r := PushBack(l, c);
    var k := |l.value.children|;
    assert r.value.children[..k] == l.value.children[..k];
    assert r.value.children[k] == c;
    calc {
      Print(r);
      "( " + PrintChildren(r, k + 1) + ")";
      "( " + (PrintChildren(r, k) + Print(c) + " ") + ")";
      { PrintChildrenPrefix(l, r, k); }
      "( " + (PrintChildren(l, k) + Print(c) + " ") + ")";
      "( " + PrintChildren(l, k) + Print(c) + " )";
    }
  }

  /** Every printed List has balanced outer brackets. */
  lemma PrintListBrackets(l: Node)
    requires l.kind == List && Printable(l)
    ensures |Print(l)| >= 3 && Print(l)[..2] == "( " && Print(l)[|Print(l)| - 1] == ')'
  {
  }
}
