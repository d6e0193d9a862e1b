/** The character predicates of src/combinator.hpp: named boolean tests over
    one byte, closed under negation (IsNot) and disjunction (IsEither).
    The ctype tests are the ASCII ("C" locale) classes. */
module Predicates {

  predicate AsciiSpace(c: char) { c == ' ' || '\t' <= c <= '\r' }
  predicate AsciiDigit(c: char) { '0' <= c <= '9' }
  predicate AsciiUpper(c: char) { 'A' <= c <= 'Z' }
  predicate AsciiLower(c: char) { 'a' <= c <= 'z' }
  predicate AsciiAlpha(c: char) { AsciiUpper(c) || AsciiLower(c) }
  predicate AsciiAlnum(c: char) { AsciiAlpha(c) || AsciiDigit(c) }
  predicate AsciiPrint(c: char) { ' ' <= c <= '~' }

  /** One CharPred per predicate struct of the source. `IsSymbol` stands for
      the predicate of the same name in predicates.hpp, whose character class
      is not part of this model: it is given as a set. */
  datatype CharPred =
    | IsSpace
    | IsInlineSpace
    | IsDigit
    | IsUpper
    | IsLower
    | IsAlpha
    | IsAlnum
    | IsPrint
    | IsChar(k: char)
    | IsEither(a: CharPred, b: CharPred)
    | IsNot(p: CharPred)
    | IsAny
    | IsSymbol(chars: set<char>)
  {
    /** operator() of the predicate object */
    predicate Eval(c: char) {
      match this
      case IsSpace => AsciiSpace(c)
      case IsInlineSpace => AsciiSpace(c) && c != '\n' && c != '\r'
      case IsDigit => AsciiDigit(c)
      case IsUpper => AsciiUpper(c)
      case IsLower => AsciiLower(c)
      case IsAlpha => AsciiAlpha(c)
      case IsAlnum => AsciiAlnum(c)
      case IsPrint => AsciiPrint(c)
      case IsChar(k) => c == k
      case IsEither(a, b) => a.Eval(c) || b.Eval(c)
      case IsNot(p) => !p.Eval(c)
      case IsAny => true
      case IsSymbol(chars) => c in chars
    }

    /** The `name` member, used in "Expected <name>" messages. */
    function Name(): string {
      match this
      case IsSpace => "space"
      case IsInlineSpace => "inline space"
      case IsDigit => "digit"
      case IsUpper => "uppercase"
      case IsLower => "lowercase"
      case IsAlpha => "alphabetic"
      case IsAlnum => "alphanumeric"
      case IsPrint => "printable"
      case IsChar(k) => "'" + [k] + "'"
      case IsEither(a, b) => "(" + a.Name() + " | " + b.Name() + ")"
      case IsNot(p) => "~" + p.Name()
      case IsAny => "any"
      case IsSymbol(_) => "symbol"
    }
  }

  const IsMinus: CharPred := IsChar('-')

  /** Inline space is exactly the four horizontal white-space bytes. */
  lemma InlineSpaceChars(c: char)
    ensures IsInlineSpace.Eval(c) <==> IsSpace.Eval(c) && c != '\n' && c != '\r'
    ensures IsInlineSpace.Eval(c) <==> c == ' ' || c == '\t' || c == '\U{0B}' || c == '\U{0C}'
  {
  }

  /** Negation flips the test and prefixes the name with '~'. */
  lemma NotLaw(p: CharPred, c: char)
    ensures IsNot(p).Eval(c) == !p.Eval(c)
    ensures IsNot(IsNot(p)).Eval(c) == p.Eval(c)
    ensures IsNot(p).Name() == "~" + p.Name()
  {
  }

  /** Disjunction accepts what either side accepts; its name lists both. */
  lemma EitherLaw(a: CharPred, b: CharPred, c: char)
    ensures IsEither(a, b).Eval(c) == (a.Eval(c) || b.Eval(c))
    ensures IsEither(a, b).Eval(c) == IsEither(b, a).Eval(c)
    ensures IsEither(a, b).Name() == "(" + a.Name() + " | " + b.Name() + ")"
  {
  }

  /** IsChar(k) accepts exactly k; IsMinus is IsChar('-'); IsAny accepts all. */
  lemma CharLaw(k: char, c: char)
    ensures IsChar(k).Eval(c) <==> c == k
    ensures IsChar(k).Name() == ['\'', k, '\'']
    ensures IsMinus.Eval(c) <==> c == '-'
    ensures IsAny.Eval(c)
  {
  }

  /** No class predicate accepts the NUL terminator the cursor reads at the end
      of the buffer; only IsNot, IsAny, IsChar('\0') or a set holding it can. */
  lemma ClassesRejectNul(p: CharPred)
    requires p.IsSpace? || p.IsInlineSpace? || p.IsDigit? || p.IsUpper? || p.IsLower?
             || p.IsAlpha? || p.IsAlnum? || p.IsPrint?
    ensures !p.Eval('\0')
  {
  }
}
