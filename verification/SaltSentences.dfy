/** The assembly language on the level of tokens: which sequences of tokens can be read as what, decided
    from left to right, and that every sentence of the grammar can (simulatron-salt, parser.rs). */
module SaltSentences {
  import opened Wrappers
  import opened SaltGrammar

  // ----- Significant tokens -----

  /** The types of the tokens that are not whitespace. */
  function TypesOf(tokens: seq<Token>): seq<TokenType> {
    if tokens == [] then [] else (if IsSpace(tokens[0]) then [] else [tokens[0].tt]) + TypesOf(tokens[1..])
  }

  lemma TypesOfFirst(tokens: seq<Token>)
    requires tokens != []
    ensures TypesOf(tokens) == (if IsSpace(tokens[0]) then [] else [tokens[0].tt]) + TypesOf(tokens[1..])
  {}

  lemma {:induction false} TypesOfBoth(a: seq<Token>, b: seq<Token>)
    ensures TypesOf(a + b) == TypesOf(a) + TypesOf(b)
  {
    if a == [] {
      assert a + b == b;
    } else {
      TypesOfBoth(a[1..], b);
      assert (a + b)[1..] == a[1..] + b && (a + b)[0] == a[0];
      TypesOfFirst(a);
      TypesOfFirst(a + b);
      hide TypesOf, IsSpace;
    }
  }

  function First(w: seq<TokenType>): Option<TokenType> {
    if w == [] then None else Some(w[0])
  }

  function Tail(w: seq<TokenType>): seq<TokenType> {
    if w == [] then [] else w[1..]
  }

  lemma {:induction false} NextIsFirst(tokens: seq<Token>)
    ensures Next(tokens) == First(TypesOf(tokens)) && TypesOf(AfterNext(tokens)) == Tail(TypesOf(tokens))
  {
    if tokens != [] && IsSpace(tokens[0]) {
      NextIsFirst(tokens[1..]);
      assert SpaceAhead(tokens) == 1 + SpaceAhead(tokens[1..]);
      if SpaceAhead(tokens) < |tokens| {
        assert AfterNext(tokens) == AfterNext(tokens[1..]);
      }
    } else if tokens != [] {
      assert SpaceAhead(tokens) == 0;
    }
  }

  lemma {:induction false} SpaceHasNoTypes(tokens: seq<Token>)
    requires AllSpace(tokens)
    ensures TypesOf(tokens) == []
  {
    if tokens != [] {
      SpaceHasNoTypes(tokens[1..]);
    }
  }

  // ----- Reading from left to right -----

  /** What follows a token of the given type; nothing if there is none. */
  function Expect(w: seq<TokenType>, tt: TokenType): Option<seq<TokenType>> {
    if w != [] && w[0] == tt then Some(w[1..]) else None
  }

  /** Skip one token of the given type if it is there. */
  function Skip(w: seq<TokenType>, tt: TokenType): seq<TokenType> {
    if w != [] && w[0] == tt then w[1..] else w
  }

  predicate IsScalar(tt: TokenType) {
    tt == IntLiteral || tt == FloatLiteral || tt == CharLiteral
  }

  /** What follows a literal. */
  function AfterLiteral(w: seq<TokenType>): (rest: Option<seq<TokenType>>)
    ensures rest.Some? ==> |rest.value| < |w|
  {
    if w != [] && IsScalar(w[0]) then Some(w[1..])
    else
      var a :- Expect(w, KwSizeof);
      var b :- Expect(a, OpenParen);
      var c :- Expect(b, Identifier);
      Expect(c, CloseParen)
  }

  function AfterConstDecl(w: seq<TokenType>): (rest: Option<seq<TokenType>>)
    ensures rest.Some? ==> |rest.value| < |w|
  {
    var a :- Expect(Skip(w, KwPub), KwConst);
    var b :- Expect(a, Identifier);
    AfterLiteral(b)
  }

  function AfterLabel(w: seq<TokenType>): (rest: Option<seq<TokenType>>)
    ensures rest.Some? ==> |rest.value| < |w|
  {
    var a :- Expect(Skip(w, KwPub), Identifier);
    Expect(a, Colon)
  }

  /** What follows one array length in brackets. */
  function AfterLength(w: seq<TokenType>): (rest: Option<seq<TokenType>>)
    ensures rest.Some? ==> |rest.value| < |w|
  {
    var a :- Expect(w, OpenSquare);
    if a != [] && IsLength(a[0]) then Expect(a[1..], CloseSquare) else None
  }

  /** What follows the array lengths of a type; something must. */
  function AfterLengths(w: seq<TokenType>): (rest: Option<seq<TokenType>>)
    ensures rest.Some? ==> |rest.value| <= |w|
  {
    if w == [] then None
    else if w[0] != OpenSquare then Some(w)
    else
      var a :- AfterLength(w);
      AfterLengths(a)
  }

  function AfterDataType(w: seq<TokenType>): (rest: Option<seq<TokenType>>)
    ensures rest.Some? ==> |rest.value| < |w|
  {
    if w != [] && IsBaseType(w[0]) then AfterLengths(w[1..]) else None
  }

  function AfterDataStart(w: seq<TokenType>): (rest: Option<seq<TokenType>>)
    ensures rest.Some? ==> |rest.value| < |w|
  {
    var a :- Expect(Skip(w, KwPub), KwStatic);
    if a == [] then None else Some(Skip(a, KwMut))
  }

  function AfterDataDecl(w: seq<TokenType>): (rest: Option<seq<TokenType>>)
    ensures rest.Some? ==> |rest.value| < |w|
  {
    var a :- AfterDataStart(w);
    var b :- AfterDataType(a);
    var c :- Expect(b, Identifier);
    AfterArray(c)
  }

  predicate StartsOperand(tt: TokenType) {
    tt == Identifier || IsScalar(tt) || tt == KwSizeof
  }

  /** What follows one operand. */
  function AfterOperand(w: seq<TokenType>): (rest: Option<seq<TokenType>>)
    ensures rest.Some? ==> |rest.value| < |w|
  {
    if w != [] && w[0] == Identifier then Some(w[1..]) else AfterLiteral(w)
  }

  /** What follows as many operands as there are. */
  function AfterOperands(w: seq<TokenType>): (rest: Option<seq<TokenType>>)
    ensures rest.Some? ==> |rest.value| <= |w|
    decreases |w|
  {
    if w == [] || !StartsOperand(w[0]) then Some(w)
    else
      var a :- AfterOperand(w);
      AfterOperands(a)
  }

  function AfterInstruction(w: seq<TokenType>): (rest: Option<seq<TokenType>>)
    ensures rest.Some? ==> |rest.value| < |w|
  {
    var a :- Expect(w, Identifier);
    AfterOperands(a)
  }

  function AfterArray(w: seq<TokenType>): (rest: Option<seq<TokenType>>)
    ensures rest.Some? ==> |rest.value| < |w|
    decreases |w|, 0
  {
    if w == [] then None
    else if IsScalar(w[0]) || w[0] == KwSizeof then AfterLiteral(w)
    else if w[0] == StringLiteral then Some(w[1..])
    else if w[0] != OpenSquare then None
    else if First(w[1..]) == Some(CloseSquare) then Some(w[2..])
    else AfterElements(w[1..])
  }

  /** What follows elements separated by commas and a closing bracket. */
  function AfterElements(w: seq<TokenType>): (rest: Option<seq<TokenType>>)
    ensures rest.Some? ==> |rest.value| < |w|
    decreases |w|, 1
  {
    var a :- AfterArray(w);
    if a == [] then None
    else if a[0] == CloseSquare then Some(a[1..])
    else if a[0] == Comma then AfterElements(a[1..])
    else None
  }

  /** What follows the statement, or the comment, that a line starts with, if it has one. */
  function AfterStatement(w: seq<TokenType>): (rest: Option<seq<TokenType>>)
    ensures rest.Some? ==> |rest.value| <= |w| && (rest.value == w ==> First(w) == Some(Newline))
  {
    match First(w)
    case Some(KwPub) => AfterPublic(w)
    case Some(KwConst) => AfterConstDecl(w)
    case Some(KwStatic) => AfterDataDecl(w)
    case Some(Identifier) => AfterNamed(w)
    case _ => AfterBlank(w)
  }

  /** A label if the second token is a colon, and otherwise an instruction. */
  function AfterNamed(w: seq<TokenType>): (rest: Option<seq<TokenType>>)
    ensures rest.Some? ==> |rest.value| < |w|
  {
    if First(Tail(w)) == Some(Colon) then AfterLabel(w) else AfterInstruction(w)
  }

  /** A comment, or the end of an empty line, which is left. */
  function AfterBlank(w: seq<TokenType>): (rest: Option<seq<TokenType>>)
    ensures rest.Some? ==> |rest.value| <= |w| && (rest.value == w ==> First(w) == Some(Newline))
  {
    match First(w)
    case Some(Comment) => Some(w[1..])
    case Some(Newline) => Some(w)
    case _ => None
  }

  /** The token after `pub` decides. */
  function AfterPublic(w: seq<TokenType>): (rest: Option<seq<TokenType>>)
    ensures rest.Some? ==> |rest.value| < |w|
  {
    match First(Tail(w))
    case Some(KwConst) => AfterConstDecl(w)
    case Some(KwStatic) => AfterDataDecl(w)
    case Some(Identifier) => AfterLabel(w)
    case _ => None
  }

  /** What follows the end of a line: a comment, a newline, both, or the end of the program. */
  function AfterLineEnd(w: seq<TokenType>): (rest: Option<seq<TokenType>>)
    ensures rest.Some? ==> |rest.value| <= |w| && (w != [] ==> |rest.value| < |w|)
  {
    if w == [] then Some([])
    else if w[0] == Comment && |w| == 1 then Some([])
    else if w[0] == Comment then Expect(w[1..], Newline)
    else Expect(w, Newline)
  }

  function AfterLine(w: seq<TokenType>): (rest: Option<seq<TokenType>>)
    ensures rest.Some? && w != [] ==> |rest.value| < |w|
  {
    var a :- AfterStatement(w);
    AfterLineEnd(a)
  }

  /** The tokens can be read as a program, line by line. */
  predicate IsProgram(w: seq<TokenType>)
    decreases |w|
  {
    w == [] || (AfterLine(w).Some? && IsProgram(AfterLine(w).value))
  }

  // ----- The parts of a tree -----

  function WordOf(t: Tree): seq<TokenType> {
    TypesOf(Leaves(t))
  }

  /** The children that are not whitespace. */
  function Parts(children: seq<Tree>): seq<Tree> {
    if children == [] then []
    else
      var last := children[|children| - 1];
      Parts(children[..|children| - 1]) + if KindOf(last) == Terminal(Whitespace) then [] else [last]
  }

  /** What is read from part `i` on, followed by `rest`. */
  function From(parts: seq<Tree>, i: nat, rest: seq<TokenType>): seq<TokenType>
    requires i <= |parts|
    decreases |parts| - i
  {
    if i == |parts| then rest else WordOf(parts[i]) + From(parts, i + 1, rest)
  }

  ghost predicate IsPart(children: seq<Tree>, t: Tree) {
    exists j :: 0 <= j < |children| && children[j] == t
  }

  lemma {:induction false} PartsAre(children: seq<Tree>, i: nat)
    requires AllWellFormed(children) && i < |Parts(children)|
    ensures |Parts(children)| == |Significant(children)| && KindOf(Parts(children)[i]) == Significant(children)[i]
    ensures WellFormed(Parts(children)[i]) && IsPart(children, Parts(children)[i])
    ensures KindOf(Parts(children)[i]) != Terminal(Whitespace)
  {
    hide WellFormed;
    PartsCount(children);
    var before, last := children[..|children| - 1], children[|children| - 1];
    PartsCount(before);
    if i < |Parts(before)| {
      PartsAre(before, i);
      var j :| 0 <= j < |before| && before[j] == Parts(before)[i];
      assert children[j] == before[j];
    } else {
      assert Parts(children)[i] == last;
    }
  }

  lemma {:induction false} PartsCount(children: seq<Tree>)
    ensures |Parts(children)| == |Significant(children)|
  {
    if children != [] {
      PartsCount(children[..|children| - 1]);
    }
  }

  lemma {:induction false} FromMore(parts: seq<Tree>, t: Tree, i: nat, rest: seq<TokenType>)
    requires i <= |parts|
    ensures From(parts + [t], i, rest) == From(parts, i, WordOf(t) + rest)
    decreases |parts| - i
  {
    hide WordOf;
    if i < |parts| {
      FromMore(parts, t, i + 1, rest);
    } else {
      assert From(parts + [t], i + 1, rest) == rest;
    }
  }

  /** A tree's word is that of its parts. */
  lemma {:induction false} WordOfChildren(children: seq<Tree>, rest: seq<TokenType>)
    requires AllWellFormed(children)
    ensures TypesOf(AllLeaves(children)) + rest == From(Parts(children), 0, rest)
    decreases children
  {
    hide WellFormed, Leaves, TypesOf;
    if children == [] {
      NothingRead();
    } else {
      var before, last := children[..|children| - 1], children[|children| - 1];
      assert children == before + [last];
      LeavesOfMore(before, last);
      TypesOfBoth(AllLeaves(before), Leaves(last));
      WordOfChildren(before, WordOf(last) + rest);
      assert TypesOf(AllLeaves(before)) + (WordOf(last) + rest) == TypesOf(AllLeaves(children)) + rest;
      if KindOf(last) == Terminal(Whitespace) {
        SpaceIsSilent(last);
        assert WordOf(last) + rest == rest && Parts(children) == Parts(before);
      } else {
        FromMore(Parts(before), last, 0, rest);
      }
    }
  }

  lemma NothingRead()
    ensures TypesOf(AllLeaves([])) == []
  {}

  lemma SpaceIsSilent(t: Tree)
    requires WellFormed(t) && KindOf(t) == Terminal(Whitespace)
    ensures WordOf(t) == []
  {
    assert t.Leaf?;
    OneType(t.token);
  }

  lemma OneType(token: Token)
    ensures TypesOf([token]) == if IsSpace(token) then [] else [token.tt]
  {
    assert [token][1..] == [] && TypesOf([]) == [];
  }

  lemma TerminalWord(t: Tree, tt: TokenType)
    requires WellFormed(t) && KindOf(t) == Terminal(tt) && tt != Whitespace
    ensures WordOf(t) == [tt]
  {
    assert t.Leaf?;
    OneType(t.token);
  }

  /** A node's parts: their kinds, that they follow the grammar, and what is read. */
  lemma NodeParts(t: Tree, rest: seq<TokenType>)
    requires t.Node? && WellFormed(t)
    ensures var parts := Parts(t.children);
      && |parts| == |Significant(t.children)| && Follows(t.kind, Significant(t.children))
      && (forall i :: 0 <= i < |parts| ==> PartIs(t.children, i))
      && WordOf(t) + rest == From(parts, 0, rest)
  {
    hide Follows, WellFormed, TypesOf, From;
    WellFormedNode(t);
    PartsCount(t.children);
    forall i | 0 <= i < |Parts(t.children)| ensures PartIs(t.children, i) {
      PartsAre(t.children, i);
    }
    WordOfChildren(t.children, rest);
    LeavesOfNode(t);
  }

  lemma WellFormedNode(t: Tree)
    requires t.Node? && WellFormed(t)
    ensures Follows(t.kind, Significant(t.children)) && AllWellFormed(t.children)
  {}

  lemma LeavesOfNode(t: Tree)
    requires t.Node?
    ensures Leaves(t) == AllLeaves(t.children)
  {}

  ghost predicate PartIs(children: seq<Tree>, i: nat) {
    && i < |Parts(children)| && i < |Significant(children)|
    && KindOf(Parts(children)[i]) == Significant(children)[i] && KindOf(Parts(children)[i]) != Terminal(Whitespace)
    && WellFormed(Parts(children)[i]) && IsPart(children, Parts(children)[i])
  }

  /** Reading a part that is a token. */
  lemma TokenPart(children: seq<Tree>, i: nat, rest: seq<TokenType>, tt: TokenType)
    requires PartIs(children, i) && Significant(children)[i] == Terminal(tt)
    ensures var next := i + 1;
      var w := From(Parts(children), i, rest); w != [] && w[0] == tt && w[1..] == From(Parts(children), next, rest)
  {
    hide WordOf, WellFormed;
    TerminalWord(Parts(children)[i], tt);
  }

  // ----- Every sentence can be read -----

  lemma LiteralRead(t: Tree, rest: seq<TokenType>)
    requires WellFormed(t) && KindOf(t) == Literal
    ensures AfterLiteral(WordOf(t) + rest) == Some(rest)
    ensures WordOf(t) != [] && (IsScalar(WordOf(t)[0]) || WordOf(t)[0] == KwSizeof)
  {
    hide WellFormed, Significant, Parts, WordOf, PartIs, From;
    NodeParts(t, rest);
    FirstTokens(t);
    NothingLeft(Parts(t.children), rest);
    var s := Significant(t.children);
    ReadToken(t, 0, rest);
    if |s| == 4 {
      ReadToken(t, 1, rest);
      ReadToken(t, 2, rest);
      ReadToken(t, 3, rest);
    }
  }

  /** Reading token `i` of a node, if it is a token. */
  lemma ReadToken(t: Tree, i: nat, rest: seq<TokenType>)
    requires t.Node? && PartIs(t.children, i) && Significant(t.children)[i].Terminal?
    ensures var next, w := i + 1, From(Parts(t.children), i, rest);
      next <= |Parts(t.children)| && w != [] && w[0] == Significant(t.children)[i].tt && w[1..] == From(Parts(t.children), next, rest)
  {
    TokenPart(t.children, i, rest, Significant(t.children)[i].tt);
  }

  /** The first tokens of a node that starts with tokens. */
  lemma FirstTokens(t: Tree)
    requires t.Node? && WellFormed(t) && |Significant(t.children)| > 0 && Significant(t.children)[0].Terminal?
    ensures First(WordOf(t)) == Some(Significant(t.children)[0].tt)
    ensures |Significant(t.children)| > 1 && Significant(t.children)[1].Terminal? ==>
      First(Tail(WordOf(t))) == Some(Significant(t.children)[1].tt)
  {
    hide WellFormed, Significant, Parts, WordOf, PartIs, Follows;
    NodeParts(t, []);
    assert WordOf(t) + [] == WordOf(t);
    ReadToken(t, 0, []);
    if |Significant(t.children)| > 1 && Significant(t.children)[1].Terminal? {
      ReadToken(t, 1, []);
    }
  }

  lemma ConstDeclRead(t: Tree, rest: seq<TokenType>)
    requires WellFormed(t) && KindOf(t) == ConstDecl
    ensures AfterConstDecl(WordOf(t) + rest) == Some(rest)
    ensures First(WordOf(t)) == Some(KwConst) || (First(WordOf(t)) == Some(KwPub) && First(Tail(WordOf(t))) == Some(KwConst))
  {
    hide WellFormed, Significant, Parts, WordOf, PartIs, AfterLiteral, From;
    NodeParts(t, rest);
    FirstTokens(t);
    var s, parts := Significant(t.children), Parts(t.children);
    var i := if s[0] == Terminal(KwPub) then 1 else 0;
    ReadToken(t, 0, rest);
    ReadToken(t, 1, rest);
    if i == 1 {
      ReadToken(t, 2, rest);
    }
    PartIsNode(t, i + 2);
    LiteralRead(parts[i + 2], rest);
    ReadNode(t, i + 2, rest);
  }

  lemma LabelRead(t: Tree, rest: seq<TokenType>)
    requires WellFormed(t) && KindOf(t) == Label
    ensures AfterLabel(WordOf(t) + rest) == Some(rest)
    ensures (First(WordOf(t)) == Some(Identifier) && First(Tail(WordOf(t))) == Some(Colon))
         || (First(WordOf(t)) == Some(KwPub) && First(Tail(WordOf(t))) == Some(Identifier))
  {
    hide WellFormed, Significant, Parts, WordOf, PartIs, From;
    NodeParts(t, rest);
    FirstTokens(t);
    NothingLeft(Parts(t.children), rest);
    var s := Significant(t.children);
    ReadToken(t, 0, rest);
    ReadToken(t, 1, rest);
    if |s| == 3 {
      ReadToken(t, 2, rest);
    }
  }

  lemma PartIsNode(t: Tree, i: nat)
    requires t.Node? && PartIs(t.children, i)
    ensures i < |Parts(t.children)| && KindOf(Parts(t.children)[i]) == Significant(t.children)[i]
    ensures WellFormed(Parts(t.children)[i]) && IsPart(t.children, Parts(t.children)[i])
  {}

  /** Reading part `i` of a node. */
  lemma ReadNode(t: Tree, i: nat, rest: seq<TokenType>)
    requires t.Node? && i < |Parts(t.children)|
    ensures var next := i + 1; From(Parts(t.children), i, rest) == WordOf(Parts(t.children)[i]) + From(Parts(t.children), next, rest)
    ensures var next := i + 1; next == |Parts(t.children)| ==> From(Parts(t.children), next, rest) == rest
  {}

  lemma DataTypeRead(t: Tree, rest: seq<TokenType>)
    requires WellFormed(t) && KindOf(t) == DataType && rest != [] && rest[0] != OpenSquare
    ensures AfterDataType(WordOf(t) + rest) == Some(rest)
  {
    hide WellFormed, Significant, Parts, WordOf, PartIs, IsDataType;
    NodeParts(t, rest);
    var s := Significant(t.children);
    assert s[..|s|] == s;
    BaseFirst(s, |s|);
    ReadToken(t, 0, rest);
    LengthsRead(t, 1, rest);
  }

  /** A data type is a base type, and from then on three kinds at a time are a length in brackets. */
  lemma {:induction false} BaseFirst(s: seq<Kind>, n: nat)
    requires n <= |s| && IsDataType(s[..n])
    ensures n >= 1 && n % 3 == 1 && s[0].Terminal? && IsBaseType(s[0].tt)
    ensures forall i :: 1 <= i < n ==> LengthKind(s, i)
    decreases n
  {
    if n > 1 {
      assert s[..n][..n - 3] == s[..n - 3];
      BaseFirst(s, n - 3);
    }
  }

  predicate LengthKind(s: seq<Kind>, i: nat)
    requires i < |s|
  {
    && s[i].Terminal?
    && (i % 3 == 1 ==> s[i].tt == OpenSquare) && (i % 3 == 2 ==> IsLength(s[i].tt)) && (i % 3 == 0 ==> s[i].tt == CloseSquare)
  }

  lemma {:induction false} LengthsRead(t: Tree, i: nat, rest: seq<TokenType>)
    requires t.Node? && i % 3 == 1 && i <= |Significant(t.children)| == |Parts(t.children)| && |Significant(t.children)| % 3 == 1
    requires forall k :: 0 <= k < |Parts(t.children)| ==> PartIs(t.children, k)
    requires forall k :: 1 <= k < |Significant(t.children)| ==> LengthKind(Significant(t.children), k)
    requires rest != [] && rest[0] != OpenSquare
    ensures AfterLengths(From(Parts(t.children), i, rest)) == Some(rest)
    decreases |Parts(t.children)| - i
  {
    hide WellFormed, Significant, Parts, WordOf, PartIs, From, AfterLengths;
    var s := Significant(t.children);
    if i == |s| {
      NothingLeft(Parts(t.children), rest);
      NoLength(rest);
    } else {
      assert i + 3 <= |s|;
      assert LengthKind(s, i) && LengthKind(s, i + 1) && LengthKind(s, i + 2);
      ReadToken(t, i, rest);
      ReadToken(t, i + 1, rest);
      ReadToken(t, i + 2, rest);
      LengthsRead(t, i + 3, rest);
      OneLength(From(Parts(t.children), i, rest), From(Parts(t.children), i + 1, rest), From(Parts(t.children), i + 2, rest));
    }
  }

  lemma NothingLeft(parts: seq<Tree>, rest: seq<TokenType>)
    ensures From(parts, |parts|, rest) == rest
  {}

  lemma NoLength(w: seq<TokenType>)
    requires w != [] && w[0] != OpenSquare
    ensures AfterLengths(w) == Some(w)
  {}

  lemma OneLength(a: seq<TokenType>, b: seq<TokenType>, c: seq<TokenType>)
    requires a != [] && a[1..] == b && b != [] && b[1..] == c && c != []
    requires a[0] == OpenSquare && IsLength(b[0]) && c[0] == CloseSquare
    ensures AfterLengths(a) == AfterLengths(c[1..])
  {
    assert a[1] == b[0] && a[2] == c[0] && a[3..] == c[1..];
  }

  // ----- Array literals -----

  lemma {:induction false} ArrayRead(t: Tree, rest: seq<TokenType>)
    requires WellFormed(t) && KindOf(t) == ArrayLiteral
    ensures AfterArray(WordOf(t) + rest) == Some(rest)
    ensures WordOf(t) != [] && WordOf(t)[0] != CloseSquare
    decreases t, 1, 0
  {
    hide WellFormed, Significant, Parts, WordOf, PartIs, AfterLiteral, AfterElements;
    NodeParts(t, rest);
    var s, parts := Significant(t.children), Parts(t.children);
    if s == [Literal] {
      NodeParts(t, []);
      assert WordOf(t) + [] == WordOf(t);
      PartIsNode(t, 0);
      LiteralRead(parts[0], rest);
      ReadNode(t, 0, rest);
      ReadNode(t, 0, []);
    } else {
      FirstTokens(t);
      ReadToken(t, 0, rest);
      if s != T(StringLiteral) {
        if s == T(OpenSquare) + T(CloseSquare) {
          ReadToken(t, 1, rest);
        } else {
          ElementsRead(t, 1, rest);
        }
      }
    }
  }

  lemma {:induction false} ElementsRead(t: Tree, i: nat, rest: seq<TokenType>)
    requires t.Node? && i % 2 == 1 && i + 1 < |Significant(t.children)| == |Parts(t.children)|
    requires |Significant(t.children)| % 2 == 1 && Significant(t.children)[|Significant(t.children)| - 1] == Terminal(CloseSquare)
    requires forall k :: 0 <= k < |Parts(t.children)| ==> PartIs(t.children, k)
    requires IsElements(Significant(t.children)[..|Significant(t.children)| - 1])
    ensures AfterElements(From(Parts(t.children), i, rest)) == Some(rest)
    ensures var w := From(Parts(t.children), i, rest); w != [] && w[0] != CloseSquare
    decreases t, 0, |Parts(t.children)| - i
  {
    hide WellFormed, Significant, Parts, WordOf, PartIs, AfterArray;
    var s, parts := Significant(t.children), Parts(t.children);
    assert s[..|s| - 1][i] == s[i] == ArrayLiteral;
    PartIsNode(t, i);
    var j :| 0 <= j < |t.children| && t.children[j] == parts[i];
    ArrayRead(t.children[j], From(parts, i + 1, rest));
    ReadNode(t, i, rest);
    ReadToken(t, i + 1, rest);
    if i + 2 < |s| {
      assert s[..|s| - 1][i + 1] == s[i + 1] == Terminal(Comma);
      ElementsRead(t, i + 2, rest);
    }
  }

  // ----- Statements -----

  lemma DataStartRead(t: Tree, rest: seq<TokenType>) returns (i: nat)
    requires WellFormed(t) && KindOf(t) == DataDecl
    ensures i + 3 == |Parts(t.children)| == |Significant(t.children)|
    ensures Significant(t.children)[i] == DataType && Significant(t.children)[i + 1] == Terminal(Identifier)
    ensures Significant(t.children)[i + 2] == ArrayLiteral
    ensures First(From(Parts(t.children), i, rest)) != Some(KwMut) && From(Parts(t.children), i, rest) != [] ==>
      AfterDataStart(WordOf(t) + rest) == Some(From(Parts(t.children), i, rest))
    ensures First(WordOf(t)) == Some(KwStatic) || (First(WordOf(t)) == Some(KwPub) && First(Tail(WordOf(t))) == Some(KwStatic))
  {
    hide WellFormed, Significant, Parts, WordOf, PartIs, From;
    NodeParts(t, rest);
    FirstTokens(t);
    var s := Significant(t.children);
    i := |s| - 3;
    ReadToken(t, 0, rest);
    if i > 1 {
      ReadToken(t, 1, rest);
    }
    if i > 2 {
      ReadToken(t, 2, rest);
    }
  }

  lemma DataTypeFirst(t: Tree)
    requires WellFormed(t) && KindOf(t) == DataType
    ensures WordOf(t) != [] && IsBaseType(WordOf(t)[0])
  {
    hide WellFormed, Significant, Parts, WordOf, PartIs, IsDataType;
    NodeParts(t, []);
    var s := Significant(t.children);
    assert s[..|s|] == s;
    BaseFirst(s, |s|);
    FirstTokens(t);
  }

  lemma DataDeclRead(t: Tree, rest: seq<TokenType>)
    requires WellFormed(t) && KindOf(t) == DataDecl
    ensures AfterDataDecl(WordOf(t) + rest) == Some(rest)
    ensures First(WordOf(t)) == Some(KwStatic) || (First(WordOf(t)) == Some(KwPub) && First(Tail(WordOf(t))) == Some(KwStatic))
  {
    hide WellFormed, Significant, Parts, WordOf, PartIs, From, AfterDataStart, AfterDataType, AfterArray;
    NodeParts(t, rest);
    NothingLeft(Parts(t.children), rest);
    var i := DataStartRead(t, rest);
    var parts := Parts(t.children);
    PartIsNode(t, i);
    PartIsNode(t, i + 2);
    DataTypeFirst(parts[i]);
    ReadNode(t, i, rest);
    ReadToken(t, i + 1, rest);
    ReadNode(t, i + 2, rest);
    DataTypeRead(parts[i], From(parts, i + 1, rest));
    ArrayRead(parts[i + 2], rest);
  }

  lemma OperandRead(t: Tree, rest: seq<TokenType>)
    requires WellFormed(t) && KindOf(t) == Operand
    ensures AfterOperand(WordOf(t) + rest) == Some(rest)
    ensures WordOf(t) != [] && StartsOperand(WordOf(t)[0])
  {
    hide WellFormed, Significant, Parts, WordOf, PartIs, From, AfterLiteral;
    NodeParts(t, rest);
    NodeParts(t, []);
    assert WordOf(t) + [] == WordOf(t);
    NothingLeft(Parts(t.children), rest);
    NothingLeft(Parts(t.children), []);
    if Significant(t.children) == [Literal] {
      PartIsNode(t, 0);
      LiteralRead(Parts(t.children)[0], rest);
      ReadNode(t, 0, rest);
      ReadNode(t, 0, []);
    } else {
      FirstTokens(t);
      ReadToken(t, 0, rest);
    }
  }

  /** The token is none that an operand starts with. */
  predicate EndsOperands(w: seq<TokenType>) {
    w == [] || !StartsOperand(w[0])
  }

  lemma {:induction false} OperandsRead(t: Tree, i: nat, rest: seq<TokenType>)
    requires t.Node? && 1 <= i <= |Significant(t.children)| == |Parts(t.children)| && IsInstruction(Significant(t.children))
    requires forall k :: 0 <= k < |Parts(t.children)| ==> PartIs(t.children, k)
    requires EndsOperands(rest)
    ensures AfterOperands(From(Parts(t.children), i, rest)) == Some(rest)
    ensures First(From(Parts(t.children), i, rest)) == First(rest) || !EndsOperands(From(Parts(t.children), i, rest))
    decreases |Parts(t.children)| - i
  {
    hide WellFormed, Significant, Parts, WordOf, PartIs, From, AfterOperand;
    var parts := Parts(t.children);
    if i == |parts| {
      NothingLeft(parts, rest);
    } else {
      assert PartIs(t.children, i);
      PartIsNode(t, i);
      OperandRead(parts[i], From(parts, i + 1, rest));
      ReadNode(t, i, rest);
      OperandsRead(t, i + 1, rest);
    }
  }

  lemma InstructionRead(t: Tree, rest: seq<TokenType>)
    requires WellFormed(t) && KindOf(t) == Instruction && EndsOperands(rest) && First(rest) != Some(Colon)
    ensures AfterInstruction(WordOf(t) + rest) == Some(rest)
    ensures var w := WordOf(t) + rest; First(w) == Some(Identifier) && First(Tail(w)) != Some(Colon)
  {
    hide WellFormed, Significant, Parts, WordOf, PartIs, From, AfterOperands;
    NodeParts(t, rest);
    ReadToken(t, 0, rest);
    OperandsRead(t, 1, rest);
  }

  /** What may follow a statement on its line. */
  predicate EndsStatement(w: seq<TokenType>) {
    w == [] || w[0] == Comment || w[0] == Newline
  }

  /** The first two tokens of a word are those of anything that starts with it. */
  lemma FirstTwo(word: seq<TokenType>, rest: seq<TokenType>)
    requires word != []
    ensures First(word + rest) == First(word)
    ensures |word| > 1 ==> First(Tail(word + rest)) == First(Tail(word))
  {}

  lemma StatementRead(t: Tree, rest: seq<TokenType>)
    requires WellFormed(t) && IsStatement(KindOf(t)) && EndsStatement(rest)
    ensures AfterStatement(WordOf(t) + rest) == Some(rest)
  {
    hide WellFormed, Significant, Parts, WordOf, AfterConstDecl, AfterDataDecl, AfterLabel, AfterInstruction;
    match KindOf(t) {
      case ConstDecl =>
        ConstDeclRead(t, rest);
        FirstTwo(WordOf(t), rest);
      case DataDecl =>
        DataDeclRead(t, rest);
        FirstTwo(WordOf(t), rest);
      case Label =>
        LabelRead(t, rest);
        FirstTwo(WordOf(t), rest);
      case Instruction =>
        InstructionRead(t, rest);
      case Terminal(_) =>
        TerminalWord(t, Comment);
        assert ([Comment] + rest)[1..] == rest;
    }
  }

  // ----- Lines and programs -----

  /** A comment is followed by a newline or by nothing. */
  ghost predicate CommentsClosed(w: seq<TokenType>) {
    forall k :: 0 <= k < |w| && w[k] == Comment ==> ClosedAt(w, k)
  }

  predicate ClosedAt(w: seq<TokenType>, k: nat) {
    k + 1 < |w| ==> w[k + 1] == Newline
  }

  predicate EndsInNewline(t: Tree) {
    t.Node? && var s := Significant(t.children); s != [] && s[|s| - 1] == Terminal(Newline)
  }

  /** All lines of a program but the last end in a newline. */
  ghost predicate LinesEnd(children: seq<Tree>) {
    forall i :: 0 <= i < |Parts(children)| - 1 ==> EndsInNewline(Parts(children)[i])
  }

  lemma {:induction false} CommentsInTypes(tokens: seq<Token>)
    requires CommentsEndLines(tokens)
    ensures CommentsClosed(TypesOf(tokens))
  {
    var w := TypesOf(tokens);
    if tokens != [] {
      TailComments(tokens);
      CommentsInTypes(tokens[1..]);
      if !IsSpace(tokens[0]) {
        assert w[1..] == TypesOf(tokens[1..]);
        forall k | 0 <= k < |w| && w[k] == Comment ensures ClosedAt(w, k) {
          if k > 0 {
            assert ClosedAt(w[1..], k - 1);
          } else if |tokens| > 1 {
            assert tokens[1].tt == Newline && tokens[1..][0] == tokens[1];
            assert TypesOf(tokens[1..])[0] == Newline;
          }
        }
      }
    }
  }

  lemma TailComments(tokens: seq<Token>)
    requires CommentsEndLines(tokens) && tokens != []
    ensures CommentsEndLines(tokens[1..])
  {
    var tail := tokens[1..];
    forall k | 0 <= k < |tail| - 1 && tail[k].tt == Comment ensures tail[k + 1].tt == Newline {
      assert tail[k] == tokens[k + 1] && tail[k + 1] == tokens[k + 2];
    }
  }

  lemma SuffixCommentsClosed(a: seq<TokenType>, b: seq<TokenType>)
    requires CommentsClosed(a + b)
    ensures CommentsClosed(b)
  {
    forall k | 0 <= k < |b| && b[k] == Comment ensures ClosedAt(b, k) {
      assert (a + b)[|a| + k] == b[k] && ClosedAt(a + b, |a| + k);
      assert k + 1 < |b| ==> (a + b)[|a| + k + 1] == b[k + 1];
    }
  }

  /** A line can be read, if it ends in a newline or nothing follows. */
  lemma LineRead(t: Tree, rest: seq<TokenType>)
    requires WellFormed(t) && KindOf(t) == Line && (EndsInNewline(t) || rest == [])
    requires CommentsClosed(WordOf(t) + rest) && WordOf(t) + rest != []
    ensures AfterLine(WordOf(t) + rest) == Some(rest)
  {
    hide WellFormed, Significant, Parts, WordOf, PartIs, From, IsStatement, AfterStatement, IsLine;
    NodeParts(t, rest);
    NothingLeft(Parts(t.children), rest);
    var s, parts := Significant(t.children), Parts(t.children);
    var statement, comment, newline := LineShape(t);
    var w := WordOf(t) + rest;
    if statement {
      PartIsNode(t, 0);
      ReadNode(t, 0, rest);
      LineEndRead(t, 1, comment, newline, rest);
      SuffixCommentsClosed(WordOf(parts[0]), From(parts, 1, rest));
      StatementRead(parts[0], From(parts, 1, rest));
    } else if comment {
      ReadToken(t, 0, rest);
      CommentIsStatement(w);
      if newline {
        ReadToken(t, 1, rest);
      }
    } else if newline {
      ReadToken(t, 0, rest);
      NewlineIsStatement(w);
    }
  }

  lemma LineShape(t: Tree) returns (statement: bool, comment: bool, newline: bool)
    requires t.Node? && WellFormed(t) && KindOf(t) == Line
    ensures IsLineOf(Significant(t.children), statement, comment, newline)
    ensures EndsInNewline(t) ==> newline
  {
    hide WellFormed, Significant, IsLineOf;
    WellFormedNode(t);
    var s := Significant(t.children);
    statement, comment, newline :| IsLineOf(s, statement, comment, newline);
    LastIsNewline(s, statement, comment, newline);
  }

  lemma LastIsNewline(s: seq<Kind>, statement: bool, comment: bool, newline: bool)
    requires IsLineOf(s, statement, comment, newline)
    ensures s != [] && s[|s| - 1] == Terminal(Newline) ==> newline
  {}

  lemma CommentIsStatement(w: seq<TokenType>)
    requires w != [] && w[0] == Comment
    ensures AfterStatement(w) == Some(w[1..])
  {}

  lemma NewlineIsStatement(w: seq<TokenType>)
    requires w != [] && w[0] == Newline
    ensures AfterStatement(w) == Some(w)
  {}

  lemma LineEndRead(t: Tree, i: nat, comment: bool, newline: bool, rest: seq<TokenType>)
    requires t.Node? && |Parts(t.children)| == |Significant(t.children)| == i + (if comment then 1 else 0) + (if newline then 1 else 0)
    requires forall k :: 0 <= k < |Parts(t.children)| ==> PartIs(t.children, k)
    requires comment ==> Significant(t.children)[i] == Terminal(Comment)
    requires newline ==> Significant(t.children)[|Significant(t.children)| - 1] == Terminal(Newline)
    requires newline || rest == []
    ensures var w := From(Parts(t.children), i, rest); EndsStatement(w) && (CommentsClosed(w) ==> AfterLineEnd(w) == Some(rest))
  {
    hide WellFormed, Significant, Parts, WordOf, PartIs, From;
    NothingLeft(Parts(t.children), rest);
    if comment {
      assert PartIs(t.children, i);
      ReadToken(t, i, rest);
      if newline {
        ReadToken(t, i + 1, rest);
      }
    } else if newline {
      ReadToken(t, i, rest);
    }
  }

  lemma {:induction false} LinesRead(children: seq<Tree>, i: nat)
    requires i <= |Parts(children)| && LinesEnd(children) && CommentsClosed(From(Parts(children), i, []))
    requires forall k :: 0 <= k < |Parts(children)| ==> WellFormed(Parts(children)[k]) && KindOf(Parts(children)[k]) == Line
    ensures IsProgram(From(Parts(children), i, []))
    decreases |Parts(children)| - i
  {
    hide WellFormed, Parts, WordOf, AfterLine, EndsInNewline;
    var parts := Parts(children);
    if i < |parts| {
      var next := From(parts, i + 1, []);
      var w := WordOf(parts[i]) + next;
      SuffixCommentsClosed(WordOf(parts[i]), next);
      LinesRead(children, i + 1);
      if i + 1 == |parts| {
        assert next == [];
      }
      if w != [] {
        LineRead(parts[i], next);
      }
    }
  }

  /** Every program of the grammar can be read: if all lines of a well-formed tree but the last end in a
      newline, its tokens are accepted from left to right. */
  lemma ProgramRead(t: Tree)
    requires WellFormed(t) && KindOf(t) == Program && LinesEnd(t.children) && CommentsClosed(WordOf(t))
    ensures IsProgram(WordOf(t))
  {
    hide WellFormed, Parts, WordOf, Significant, LinesEnd, IsProgram;
    NodeParts(t, []);
    assert WordOf(t) + [] == WordOf(t);
    forall k | 0 <= k < |Parts(t.children)| ensures WellFormed(Parts(t.children)[k]) && KindOf(Parts(t.children)[k]) == Line {
      assert PartIs(t.children, k);
    }
    LinesRead(t.children, 0);
  }

  /** The tokens are those of a program of the grammar, whose lines but the last end in a newline, and of
      whitespace after it. */
  ghost predicate IsProgramOf(t: Tree, space: seq<Token>, tokens: seq<Token>) {
    && t.Node? && t.kind == Program && WellFormed(t) && LinesEnd(t.children)
    && AllSpace(space) && Leaves(t) + space == tokens
  }

  lemma ProgramOfRead(t: Tree, space: seq<Token>, tokens: seq<Token>)
    requires IsProgramOf(t, space, tokens) && CommentsEndLines(tokens)
    ensures IsProgram(TypesOf(tokens))
  {
    hide WellFormed, IsProgram, LinesEnd, Leaves, TypesOf;
    TypesOfBoth(Leaves(t), space);
    SpaceHasNoTypes(space);
    CommentsInTypes(tokens);
    assert TypesOf(tokens) == WordOf(t) + [] == WordOf(t);
    ProgramRead(t);
  }
}
