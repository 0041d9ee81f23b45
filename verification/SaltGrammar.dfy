/** Tokens, syntax trees and the grammar they should follow (simulatron-salt, language.rs and parser.rs). */
module SaltGrammar {
  import opened Wrappers

  datatype TokenType =
    | KwConst | KwStatic | KwPub | KwMut | KwByte | KwHalf | KwWord | KwSizeof
    | OpenSquare | CloseSquare | OpenParen | CloseParen | Comma | Colon | DoubleDot
    | IntLiteral | FloatLiteral | CharLiteral | StringLiteral | Identifier
    | Comment | Newline | Whitespace | Unknown

  datatype Token = Token(tt: TokenType, text: string)

  datatype Kind =
    | Program | Line | ConstDecl | DataDecl | DataType | Label | Instruction | Operand | ArrayLiteral | Literal
    | Terminal(tt: TokenType)

  datatype Tree = Leaf(token: Token) | Node(kind: Kind, children: seq<Tree>)

  function KindOf(t: Tree): Kind {
    match t
    case Leaf(token) => Terminal(token.tt)
    case Node(kind, _) => kind
  }

  // ----- Leaves -----

  function Leaves(t: Tree): seq<Token>
    decreases t
  {
    match t
    case Leaf(token) => [token]
    case Node(_, children) => AllLeaves(children)
  }

  function AllLeaves(children: seq<Tree>): seq<Token>
    decreases children
  {
    if children == [] then [] else AllLeaves(children[..|children| - 1]) + Leaves(children[|children| - 1])
  }

  lemma LeavesOfMore(children: seq<Tree>, t: Tree)
    ensures AllLeaves(children + [t]) == AllLeaves(children) + Leaves(t)
  {
    assert (children + [t])[..|children|] == children;
  }

  // ----- The tokens ahead -----

  predicate IsSpace(t: Token) { t.tt == Whitespace }

  predicate AllSpace(tokens: seq<Token>) {
    forall k :: 0 <= k < |tokens| ==> IsSpace(tokens[k])
  }

  predicate SpaceBetween(tokens: seq<Token>, low: nat, high: nat)
    requires low <= high <= |tokens|
  {
    forall k :: low <= k < high ==> IsSpace(tokens[k])
  }

  /** How many whitespace tokens come first. */
  function SpaceAhead(tokens: seq<Token>): (n: nat)
    ensures n <= |tokens| && SpaceBetween(tokens, 0, n) && (n < |tokens| ==> !IsSpace(tokens[n]))
  {
    if tokens == [] || !IsSpace(tokens[0]) then 0 else 1 + SpaceAhead(tokens[1..])
  }

  /** The next token that is not whitespace. */
  function Next(tokens: seq<Token>): Option<TokenType> {
    if SpaceAhead(tokens) < |tokens| then Some(tokens[SpaceAhead(tokens)].tt) else None
  }

  /** What is left once the next token is consumed, with the whitespace before it. */
  function AfterNext(tokens: seq<Token>): (rest: seq<Token>) {
    if SpaceAhead(tokens) < |tokens| then tokens[SpaceAhead(tokens) + 1..] else []
  }

  lemma SpaceAheadIs(tokens: seq<Token>, n: nat)
    requires n <= |tokens| && SpaceBetween(tokens, 0, n) && (n < |tokens| ==> !IsSpace(tokens[n]))
    ensures SpaceAhead(tokens) == n
  {
    hide IsSpace;
  }

  /** The lexer's comments reach to the end of their line. */
  ghost predicate CommentsEndLines(tokens: seq<Token>) {
    forall k :: 0 <= k < |tokens| - 1 && tokens[k].tt == Comment ==> tokens[k + 1].tt == Newline
  }

  // ----- The grammar -----

  /** The children that are not whitespace. */
  function Significant(children: seq<Tree>): seq<Kind> {
    if children == [] then []
    else
      var last := children[|children| - 1];
      Significant(children[..|children| - 1]) + if KindOf(last) == Terminal(Whitespace) then [] else [KindOf(last)]
  }

  lemma SignificantOfMore(children: seq<Tree>, t: Tree)
    ensures Significant(children + [t]) == Significant(children) + if KindOf(t) == Terminal(Whitespace) then [] else [KindOf(t)]
  {
    assert (children + [t])[..|children|] == children;
  }

  function T(tt: TokenType): seq<Kind> { [Terminal(tt)] }

  predicate IsConstDecl(s: seq<Kind>) {
    s == T(KwConst) + T(Identifier) + [Literal] || s == T(KwPub) + T(KwConst) + T(Identifier) + [Literal]
  }

  predicate IsDataDecl(s: seq<Kind>) {
    var rest := [DataType] + T(Identifier) + [ArrayLiteral];
    || s == T(KwStatic) + rest || s == T(KwStatic) + T(KwMut) + rest
    || s == T(KwPub) + T(KwStatic) + rest || s == T(KwPub) + T(KwStatic) + T(KwMut) + rest
  }

  predicate IsBaseType(tt: TokenType) { tt == KwByte || tt == KwHalf || tt == KwWord }

  predicate IsLength(tt: TokenType) { tt == IntLiteral || tt == DoubleDot }

  /** A base type and any number of array lengths in brackets. */
  predicate IsDataType(s: seq<Kind>) {
    if |s| == 1 then s[0].Terminal? && IsBaseType(s[0].tt)
    else
      && |s| >= 4 && IsDataType(s[..|s| - 3])
      && s[|s| - 3] == Terminal(OpenSquare) && s[|s| - 2].Terminal? && IsLength(s[|s| - 2].tt)
      && s[|s| - 1] == Terminal(CloseSquare)
  }

  predicate IsLabel(s: seq<Kind>) {
    s == T(Identifier) + T(Colon) || s == T(KwPub) + T(Identifier) + T(Colon)
  }

  predicate IsInstruction(s: seq<Kind>) {
    |s| > 0 && s[0] == Terminal(Identifier) && forall k :: 1 <= k < |s| ==> s[k] == Operand
  }

  predicate IsOperand(s: seq<Kind>) { s == T(Identifier) || s == [Literal] }

  /** An open bracket and elements separated by commas, each followed by one except possibly the last. */
  predicate IsElements(s: seq<Kind>) {
    && |s| > 0 && s[0] == Terminal(OpenSquare)
    && forall k :: 1 <= k < |s| ==> s[k] == if k % 2 == 1 then ArrayLiteral else Terminal(Comma)
  }

  predicate IsArrayLiteral(s: seq<Kind>) {
    || s == [Literal] || s == T(StringLiteral) || s == T(OpenSquare) + T(CloseSquare)
    || (|s| > 1 && |s| % 2 == 1 && s[|s| - 1] == Terminal(CloseSquare) && IsElements(s[..|s| - 1]))
  }

  predicate IsLiteral(s: seq<Kind>) {
    || s == T(IntLiteral) || s == T(FloatLiteral) || s == T(CharLiteral)
    || s == T(KwSizeof) + T(OpenParen) + T(Identifier) + T(CloseParen)
  }

  predicate IsStatement(k: Kind) {
    k == ConstDecl || k == DataDecl || k == Label || k == Instruction || k == Terminal(Comment)
  }

  /** At most one statement or comment, at most one comment after it, at most one newline. */
  predicate IsLine(s: seq<Kind>) {
    exists statement: bool, comment: bool, newline: bool :: IsLineOf(s, statement, comment, newline)
  }

  predicate IsLineOf(s: seq<Kind>, statement: bool, comment: bool, newline: bool) {
    && |s| == (if statement then 1 else 0) + (if comment then 1 else 0) + (if newline then 1 else 0)
    && (statement ==> IsStatement(s[0]))
    && (comment ==> s[if statement then 1 else 0] == Terminal(Comment))
    && (newline ==> s[|s| - 1] == Terminal(Newline))
  }

  predicate Follows(kind: Kind, s: seq<Kind>) {
    match kind
    case Program => forall k :: 0 <= k < |s| ==> s[k] == Line
    case Line => IsLine(s)
    case ConstDecl => IsConstDecl(s)
    case DataDecl => IsDataDecl(s)
    case DataType => IsDataType(s)
    case Label => IsLabel(s)
    case Instruction => IsInstruction(s)
    case Operand => IsOperand(s)
    case ArrayLiteral => IsArrayLiteral(s)
    case Literal => IsLiteral(s)
    case Terminal(_) => false
  }

  /** The tree and everything in it follows the grammar. */
  predicate WellFormed(t: Tree)
    decreases t
  {
    match t
    case Leaf(_) => true
    case Node(kind, children) => Follows(kind, Significant(children)) && AllWellFormed(children)
  }

  predicate AllWellFormed(children: seq<Tree>)
    decreases children
  {
    children == [] || (AllWellFormed(children[..|children| - 1]) && WellFormed(children[|children| - 1]))
  }

  lemma WellFormedMore(children: seq<Tree>, t: Tree)
    ensures AllWellFormed(children + [t]) <==> AllWellFormed(children) && WellFormed(t)
  {
    assert (children + [t])[..|children|] == children;
  }
}
