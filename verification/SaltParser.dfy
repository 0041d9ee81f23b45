/** The error-recovering recursive-descent parser (simulatron-salt, parser.rs and node_builder.rs). */
module SaltParser {
  import opened Wrappers
  import opened SaltGrammar
  import opened SaltSentences

  datatype Failure = WrongToken | Eof

  /** The error messages. */
  datatype Message =
    | ExpectedOpenParen | ExpectedCloseParen | ExpectedCommaOrCloseSquare | ExpectedColon
    | ExpectedCloseSquare | ExpectedArrayLength | ExpectedConst | ExpectedConstantName
    | ExpectedDataIdentifier | ExpectedDataName | ExpectedDataType | ExpectedScalar
    | ExpectedLabelName | ExpectedLiteral | ExpectedOpcode | ExpectedStatic
    | MisplacedPub | UnexpectedEof | UnexpectedAfterLine | UnexpectedAtLineStart

  datatype SequenceResult = GoAgain | GracefulEnd

  /** A node that has been started and not finished. */
  datatype Frame = Frame(kind: Option<Kind>, children: seq<Tree>)

  /** The parser's state: nodes under construction, tokens looked at, tokens not yet read. */
  datatype State = State(stack: seq<Frame>, buffer: seq<Token>, tokens: seq<Token>, errors: seq<Message>)

  function Rest(s: State): seq<Token> {
    s.buffer + s.tokens
  }

  /** The types of the significant tokens not yet consumed. */
  function Ahead(s: State): seq<TokenType> {
    TypesOf(Rest(s))
  }

  /** Parsing succeeds exactly if what is ahead can be read, and then what follows is left. */
  ghost predicate Reads<T>(expected: Option<seq<TokenType>>, r: Result<T, Failure>, now: State) {
    (r.Ok? <==> expected.Some?) && (r.Ok? ==> Ahead(now) == expected.value)
  }

  function StackLeaves(stack: seq<Frame>): seq<Token> {
    if stack == [] then [] else StackLeaves(stack[..|stack| - 1]) + AllLeaves(stack[|stack| - 1].children)
  }

  /** Every token, consumed or not, in order. */
  function Everything(s: State): seq<Token> {
    StackLeaves(s.stack) + Rest(s)
  }

  /** The children of the node being built. */
  function Top(s: State): seq<Tree> {
    if s.stack == [] then [] else s.stack[|s.stack| - 1].children
  }

  ghost predicate IsSuffix(a: seq<Token>, b: seq<Token>) {
    |a| <= |b| && b[|b| - |a|..] == a
  }

  /** What every part of the parser keeps: no token is lost or reordered, only the innermost open node
      grows, what is ahead only shrinks, and errors are never taken back. */
  ghost predicate Leads(a: State, b: State) {
    && Everything(b) == Everything(a) && IsSuffix(Rest(b), Rest(a)) && a.errors <= b.errors
    && |a.stack| > 0 && SameBelow(a.stack, b.stack) && |b.tokens| <= |a.tokens|
  }

  ghost predicate SameBelow(a: seq<Frame>, b: seq<Frame>)
    requires |a| > 0
  {
    |b| == |a| && b[..|a| - 1] == a[..|a| - 1] && b[|a| - 1].kind == a[|a| - 1].kind
  }

  lemma LeadsOn(a: State, b: State, c: State)
    requires Leads(a, b) && Leads(b, c)
    ensures Leads(a, c)
  {
    hide Everything, Rest;
    assert Rest(a)[|Rest(a)| - |Rest(c)|..] == Rest(a)[|Rest(a)| - |Rest(b)|..][|Rest(b)| - |Rest(c)|..];
  }

  lemma LeadsNowhere(a: State)
    requires |a.stack| > 0
    ensures Leads(a, a)
  {}

  // ----- Growing the innermost node -----

  function WithChild(stack: seq<Frame>, t: Tree): (grown: seq<Frame>)
    requires |stack| > 0
    ensures |grown| == |stack|
  {
    var top := stack[|stack| - 1];
    stack[..|stack| - 1] + [Frame(top.kind, top.children + [t])]
  }

  lemma WithChildLeaves(stack: seq<Frame>, t: Tree)
    requires |stack| > 0
    ensures StackLeaves(WithChild(stack, t)) == StackLeaves(stack) + Leaves(t)
    ensures SameBelow(stack, WithChild(stack, t))
  {
    hide Leaves;
    var grown := WithChild(stack, t);
    assert grown[..|stack| - 1] == stack[..|stack| - 1];
    LeavesOfMore(stack[|stack| - 1].children, t);
  }

  /** The buffer's first token becomes a leaf. */
  function Eaten(s: State): (t: State)
    requires |s.stack| > 0 && |s.buffer| > 0
  {
    s.(stack := WithChild(s.stack, Leaf(s.buffer[0])), buffer := s.buffer[1..])
  }

  lemma EatingLeads(s: State)
    requires |s.stack| > 0 && |s.buffer| > 0
    ensures Leads(s, Eaten(s))
    ensures Top(Eaten(s)) == Top(s) + [Leaf(s.buffer[0])] && Rest(Eaten(s)) == Rest(s)[1..]
  {
    hide Leaves, AllLeaves, StackLeaves;
    WithChildLeaves(s.stack, Leaf(s.buffer[0]));
    assert Leaves(Leaf(s.buffer[0])) == [s.buffer[0]] by {
      LeafLeaves(s.buffer[0]);
    }
    assert Rest(s) == [s.buffer[0]] + Rest(Eaten(s));
    assert StackLeaves(s.stack) + ([s.buffer[0]] + Rest(Eaten(s))) == StackLeaves(s.stack) + [s.buffer[0]] + Rest(Eaten(s));
  }

  lemma LeafLeaves(t: Token)
    ensures Leaves(Leaf(t)) == [t]
  {}

  function Started(s: State, kind: Kind): State {
    s.(stack := s.stack + [Frame(Some(kind), [])])
  }

  /** The innermost node is finished and becomes a child of the one around it. */
  function Finished(s: State): State
    requires |s.stack| > 1 && s.stack[|s.stack| - 1].kind.Some?
  {
    var top := s.stack[|s.stack| - 1];
    s.(stack := WithChild(s.stack[..|s.stack| - 1], Node(top.kind.value, top.children)))
  }

  /** A node started, filled and finished. */
  lemma FinishingLeads(a: State, kind: Kind, b: State)
    requires |a.stack| > 0 && Leads(Started(a, kind), b)
    ensures |b.stack| > 1 && b.stack[|b.stack| - 1].kind == Some(kind)
    ensures Leads(a, Finished(b)) && Top(Finished(b)) == Top(a) + [Node(kind, Top(b))]
    ensures Rest(Finished(b)) == Rest(b) && Finished(b).errors == b.errors
  {
    hide AllLeaves;
    var started := Started(a, kind);
    assert started.stack[..|a.stack|] == a.stack;
    assert b.stack[..|a.stack|] == a.stack;
    WithChildLeaves(a.stack, Node(kind, Top(b)));
    NodeLeaves(kind, Top(b));
    NoLeaves();
    assert StackLeaves(started.stack) == StackLeaves(a.stack) + [];
  }

  lemma NodeLeaves(kind: Kind, children: seq<Tree>)
    ensures Leaves(Node(kind, children)) == AllLeaves(children)
  {}

  lemma NoLeaves()
    ensures AllLeaves([]) == []
  {}

  // ----- Steps -----

  /** Tokens may have moved from the stream to the buffer. */
  ghost predicate Looked(a: State, b: State) {
    b == a.(buffer := b.buffer, tokens := b.tokens) && Rest(b) == Rest(a) && |b.tokens| <= |a.tokens|
  }

  /** Parsing went well from `a` to `b`: the innermost node got children of the given kinds, all of them
      following the grammar, and there are no new errors. */
  ghost predicate Grows(a: State, b: State, kinds: seq<Kind>) {
    && Leads(a, b) && b.errors == a.errors
    && Significant(Top(b)) == Significant(Top(a)) + kinds
    && (AllWellFormed(Top(a)) ==> AllWellFormed(Top(b)))
    && (kinds != [] ==> |Rest(b)| < |Rest(a)|)
  }

  /** Parsing stopped: on a wrong token an error has been recorded, and otherwise everything has
      been read, with at most one token left that is not whitespace. */
  ghost predicate Fails(a: State, b: State, failure: Failure) {
    && Leads(a, b)
    && (failure == WrongToken ==> |b.errors| > |a.errors|)
    && (failure == Eof ==> b.tokens == [] && Next(AfterNext(Rest(b))).None?)
  }

  /** What is ahead is what looking finds. */
  lemma LookAhead(a: State, b: State)
    requires Looked(a, b)
    ensures Ahead(b) == Ahead(a) && Next(Rest(b)) == First(Ahead(b)) && Next(AfterNext(Rest(b))) == First(Tail(Ahead(b)))
  {
    hide TypesOf, Next, AfterNext;
    NextIsFirst(Rest(b));
    NextIsFirst(AfterNext(Rest(b)));
  }

  lemma OtherFailure(r: Result<(), Failure>)
    ensures r.Ok? || r == Err(WrongToken) || r == Err(Eof)
  {
    match r
    case Ok(_) =>
    case Err(WrongToken) =>
    case Err(Eof) =>
  }

  lemma NextAhead(s: State)
    ensures Next(Rest(s)) == First(Ahead(s))
  {
    hide TypesOf, Next;
    NextIsFirst(Rest(s));
  }

  lemma AteAhead(a: State, b: State)
    requires Rest(b) == AfterNext(Rest(a))
    ensures Ahead(b) == Tail(Ahead(a)) && Next(Rest(a)) == First(Ahead(a))
  {
    hide TypesOf, Next, AfterNext;
    NextIsFirst(Rest(a));
  }

  lemma LookKeeps(start: State, a: State, b: State, kinds: seq<Kind>)
    requires Grows(start, a, kinds) && Looked(a, b)
    ensures Grows(start, b, kinds)
  {
    hide Rest, StackLeaves, Significant, AllWellFormed;
  }

  lemma GrowsOn(start: State, a: State, b: State, kinds: seq<Kind>, more: seq<Kind>)
    requires Grows(start, a, kinds) && Grows(a, b, more)
    ensures Grows(start, b, kinds + more)
  {
    hide Leads, Rest, Significant, AllWellFormed, Top;
    LeadsOn(start, a, b);
    LeadsShrinks(start, a);
    LeadsShrinks(a, b);
    assert Significant(Top(start)) + (kinds + more) == Significant(Top(start)) + kinds + more;
    if kinds + more != [] && more == [] {
      assert kinds + more == kinds;
    }
  }

  lemma LeadsShrinks(a: State, b: State)
    requires Leads(a, b)
    ensures |Rest(b)| <= |Rest(a)|
  {}

  lemma FailsOn(start: State, a: State, b: State, kinds: seq<Kind>, failure: Failure)
    requires Grows(start, a, kinds) && Fails(a, b, failure)
    ensures Fails(start, b, failure)
  {
    hide Everything, Rest, Significant, AllWellFormed, Top;
    LeadsOn(start, a, b);
  }

  lemma NothingYet(a: State)
    requires |a.stack| > 0
    ensures Grows(a, a, [])
  {
    hide AllWellFormed, Significant;
    assert Significant(Top(a)) + [] == Significant(Top(a));
  }

  /** Eating whitespace, or the one token that counts. */
  lemma EatingGrows(s: State)
    requires |s.stack| > 0 && |s.buffer| > 0
    ensures Grows(s, Eaten(s), if IsSpace(s.buffer[0]) then [] else [Terminal(s.buffer[0].tt)])
  {
    hide Leads, Significant, AllWellFormed, Eaten, Top;
    EatingLeads(s);
    SignificantOfMore(Top(s), Leaf(s.buffer[0]));
    WellFormedMore(Top(s), Leaf(s.buffer[0]));
    LeafIsWellFormed(s.buffer[0]);
    EatenErrors(s);
  }

  lemma EatenErrors(s: State)
    requires |s.stack| > 0 && |s.buffer| > 0
    ensures Eaten(s).errors == s.errors
  {}

  lemma LeafIsWellFormed(t: Token)
    ensures WellFormed(Leaf(t))
  {}

  class Parser {
    var stack: seq<Frame>
    var buffer: seq<Token>
    var tokens: seq<Token>
    var errors: seq<Message>

    constructor (tokens: seq<Token>)
      ensures Now() == State([Frame(None, [])], [], tokens, [])
    {
      stack, buffer, this.tokens, errors := [Frame(None, [])], [], tokens, [];
    }

    function Now(): State
      reads this
    {
      State(stack, buffer, tokens, errors)
    }

    // ----- Looking ahead -----

    /** The type of the next token that is not whitespace. */
    method PeekToken() returns (r: Option<TokenType>)
      modifies this`buffer, this`tokens
      ensures Looked(old(Now()), Now()) && r == Next(Rest(Now()))
      ensures r.None? ==> tokens == [] && AllSpace(buffer)
      ensures r.Some? ==> SpaceAhead(Rest(Now())) < |buffer|
    {
      hide SpaceAhead;
      ghost var rest := Rest(Now());
      var pos := 0;
      while pos < |buffer| || tokens != []
        invariant Looked(old(Now()), Now()) && buffer + tokens == rest && pos <= |buffer| && SpaceBetween(rest, 0, pos)
        decreases |buffer| + |tokens| - pos
      {
        if pos == |buffer| {
          Fill();
        }
        var tt := buffer[pos].tt;
        assert buffer[pos] == rest[pos];
        if tt != Whitespace {
          SpaceAheadIs(rest, pos);
          return Some(tt);
        }
        pos := pos + 1;
      }
      assert buffer == rest;
      SpaceAheadIs(rest, pos);
      return None;
    }

    /** Read one more token into the buffer. */
    method Fill()
      requires tokens != []
      modifies this`buffer, this`tokens
      ensures Looked(old(Now()), Now()) && |buffer| == |old(buffer)| + 1 && |tokens| == |old(tokens)| - 1
    {
      assert buffer + tokens == buffer + [tokens[0]] + tokens[1..];
      buffer := buffer + [tokens[0]];
      tokens := tokens[1..];
    }

    /** Look ahead in the middle of a node. */
    method Peek(ghost start: State, ghost sofar: seq<Kind>) returns (r: Option<TokenType>)
      requires Grows(start, Now(), sofar)
      modifies this`buffer, this`tokens
      ensures Grows(start, Now(), sofar) && Looked(old(Now()), Now()) && r == Next(Rest(Now()))
      ensures Ahead(Now()) == Ahead(old(Now())) && r == First(Ahead(Now()))
      ensures r.None? ==> tokens == [] && AllSpace(buffer) && Fails(start, Now(), Eof)
      ensures r.Some? ==> SpaceAhead(Rest(Now())) < |buffer|
    {
      hide Ahead, Grows, Looked, Next, SpaceAhead;
      ghost var before := Now();
      r := PeekToken();
      LookKeeps(start, before, Now(), sofar);
      LookAhead(before, Now());
      if r.None? {
        EndFails(start, Now(), sofar);
      }
    }

    /** The type of the token after the next one, whitespace not counted. */
    method DoubleLookahead(ghost start: State, ghost sofar: seq<Kind>) returns (r: Option<TokenType>)
      requires Grows(start, Now(), sofar)
      modifies this`buffer, this`tokens
      ensures Grows(start, Now(), sofar) && Looked(old(Now()), Now()) && r == Next(AfterNext(Rest(Now())))
      ensures Ahead(Now()) == Ahead(old(Now())) && r == First(Tail(Ahead(Now())))
      ensures r.None? ==> tokens == []
    {
      hide Ahead, Grows, SpaceAhead, Next, AfterNext;
      ghost var before := Now();
      ghost var rest := Rest(Now());
      var pos, seen := 0, 0;
      ghost var first := 0;
      while pos < |buffer| || tokens != []
        invariant Looked(before, Now()) && buffer + tokens == rest && pos <= |buffer| && 0 <= seen <= 1
        invariant seen == 0 ==> SpaceBetween(rest, 0, pos)
        invariant seen == 1 ==> first < pos && SpaceAhead(rest) == first && SpaceBetween(rest, first + 1, pos)
        decreases |buffer| + |tokens| - pos
      {
        if pos == |buffer| {
          Fill();
        }
        var tt := buffer[pos].tt;
        assert buffer[pos] == rest[pos];
        if tt != Whitespace {
          seen := seen + 1;
          if seen == 2 {
            SecondNext(rest, first, pos);
            LookKeeps(start, before, Now(), sofar);
            LookAhead(before, Now());
            return Some(tt);
          }
          SpaceAheadIs(rest, pos);
          first := pos;
        }
        pos := pos + 1;
      }
      LookKeeps(start, before, Now(), sofar);
      LookAhead(before, Now());
      assert buffer == rest;
      if seen == 0 {
        SpaceAheadIs(rest, pos);
        NoSecond(rest);
      } else {
        SecondNext(rest, first, pos);
      }
      return None;
    }

    // ----- Consuming -----

    method Eat() returns (tt: TokenType)
      requires |stack| > 0 && |buffer| > 0
      modifies this`stack, this`buffer
      ensures Now() == Eaten(old(Now())) && tt == old(buffer)[0].tt
    {
      tt := buffer[0].tt;
      var top := stack[|stack| - 1];
      stack := stack[..|stack| - 1] + [Frame(top.kind, top.children + [Leaf(buffer[0])])];
      buffer := buffer[1..];
    }

    /** Consume the next token that is not whitespace, and the whitespace before it. */
    method Consume(ghost start: State, ghost sofar: seq<Kind>) returns (r: Result<(), Failure>)
      requires Grows(start, Now(), sofar) && |stack| > 0
      modifies this
      ensures |stack| > 0
      ensures r.Ok? ==> AteNext(start, sofar, old(Now()), Now())
      ensures r.Err? ==> r.error == Eof && Next(Rest(old(Now()))).None? && Grows(start, Now(), sofar)
      ensures r.Err? ==> Fails(start, Now(), Eof) && Rest(Now()) == []
    {
      hide Ahead, Grows, Leads, SpaceAhead, Fails, Eaten, Top;
      ghost var before := Now();
      ghost var rest := Rest(Now());
      var next := Peek(start, sofar);
      if next.Some? {
        EatNext(start, sofar);
        StackStays(start, Now(), sofar + [Terminal(next.value)]);
        return Ok(());
      }
      while buffer != []
        invariant Grows(start, Now(), sofar) && tokens == [] && AllSpace(buffer) && |stack| > 0
        decreases |buffer|
      {
        var _ := EatOne(start, sofar);
      }
      SpaceAheadIs([], 0);
      EndFails(start, Now(), sofar);
      return Err(Eof);
    }

    /** Eat one token. */
    method EatOne(ghost start: State, ghost sofar: seq<Kind>) returns (tt: TokenType)
      requires Grows(start, Now(), sofar) && |stack| > 0 && |buffer| > 0
      modifies this`stack, this`buffer
      ensures |stack| == |old(stack)| && buffer == old(buffer)[1..] && Rest(Now()) == Rest(old(Now()))[1..] && tt == old(buffer)[0].tt
      ensures Grows(start, Now(), sofar + if IsSpace(old(buffer)[0]) then [] else [Terminal(tt)])
      ensures IsSpace(old(buffer)[0]) ==> Grows(start, Now(), sofar)
    {
      hide Ahead, Grows;
      ghost var before := Now();
      EatingGrows(before);
      tt := Eat();
      GrowsOn(start, before, Now(), sofar, if IsSpace(before.buffer[0]) then [] else [Terminal(tt)]);
      assert sofar + [] == sofar;
      assert Rest(before)[1..] == before.buffer[1..] + tokens;
    }

    /** Eat up to and including the next token that is not whitespace, which is in the buffer. */
    method EatNext(ghost start: State, ghost sofar: seq<Kind>)
      requires Grows(start, Now(), sofar) && |stack| > 0 && SpaceAhead(Rest(Now())) < |buffer|
      modifies this`stack, this`buffer
      ensures AteNext(start, sofar, old(Now()), Now())
    {
      hide Ahead, Grows;
      ghost var rest := Rest(Now());
      ghost var n := SpaceAhead(rest);
      ghost var eaten := 0;
      while true
        invariant eaten <= n && Grows(start, Now(), sofar) && |stack| > 0
        invariant Rest(Now()) == rest[eaten..] && n - eaten < |buffer|
        decreases n - eaten
      {
        hide SpaceAhead;
        assert buffer[0] == rest[eaten];
        var tt := EatOne(start, sofar);
        eaten := eaten + 1;
        if tt != Whitespace {
          SpaceAheadIs(rest, n);
          return;
        }
      }
    }

    /** Consume the next token if it is of the given type; otherwise leave it. */
    method TryConsumeExact(target: TokenType, ghost start: State, ghost sofar: seq<Kind>) returns (r: Result<(), Failure>)
      requires Grows(start, Now(), sofar) && |stack| > 0
      modifies this
      ensures |stack| > 0
      ensures r.Ok? ==> Next(Rest(old(Now()))) == Some(target) && AteNext(start, sofar, old(Now()), Now())
      ensures r.Err? ==> Grows(start, Now(), sofar)
      ensures r == Err(WrongToken) ==> Next(Rest(Now())).Some? && Next(Rest(Now())) != Some(target) && Looked(old(Now()), Now())
      ensures r == Err(Eof) ==> Fails(start, Now(), Eof) && Rest(Now()) == Rest(old(Now()))
      ensures r == Err(Eof) ==> Next(Rest(Now())).None? && tokens == []
      ensures Reads(Expect(Ahead(old(Now())), target), r, Now())
      ensures r.Err? ==> Ahead(Now()) == Ahead(old(Now()))
    {
      hide Ahead, Grows, Leads, Fails, Next, AfterNext, SpaceAhead, Top;
      var next := Peek(start, sofar);
      StackStays(start, Now(), sofar);
      if next.None? {
        return Err(Eof);
      }
      if next.value != target {
        return Err(WrongToken);
      }
      ghost var here := Now();
      r := Consume(start, sofar);
      if r.Ok? {
        StackStays(start, Now(), sofar + [Terminal(target)]);
        AteAhead(here, Now());
      }
    }

    /** Consume a token that has just been looked at. */
    method ConsumePeeked(tt: TokenType, ghost start: State, ghost sofar: seq<Kind>)
      requires Grows(start, Now(), sofar) && |stack| > 0 && Next(Rest(Now())) == Some(tt)
      modifies this
      ensures |stack| > 0 && Grows(start, Now(), sofar + [Terminal(tt)]) && Rest(Now()) == AfterNext(Rest(old(Now())))
      ensures Ahead(Now()) == Tail(Ahead(old(Now())))
    {
      hide Ahead, Grows, Leads, Fails, Next, AfterNext, SpaceAhead, Top, StackLeaves;
      ghost var here := Now();
      var _ := Consume(start, sofar);
      AteAhead(here, Now());
    }

    /** Consume a token that must be of the given type; otherwise record the error and consume it anyway. */
    method ConsumeExact(target: TokenType, message: Message, ghost start: State, ghost sofar: seq<Kind>) returns (r: Result<(), Failure>)
      requires Grows(start, Now(), sofar) && |stack| > 0
      modifies this
      ensures r.Ok? ==> |stack| > 0 && Grows(start, Now(), sofar + [Terminal(target)])
      ensures r.Err? ==> Fails(start, Now(), r.error)
      ensures Reads(Expect(Ahead(old(Now())), target), r, Now())
    {
      hide Ahead, Grows, Leads, Fails, Looked, Next, AfterNext, SpaceAhead, Top;
      r := TryConsumeExact(target, start, sofar);
      if r.Err? {
        if r.error == WrongToken {
          GrowsLeads(start, Now(), sofar);
          ErrorConsume(message, start);
        } else {
          assert r == Err(Eof);
        }
      } else {
        StackStays(start, Now(), sofar + [Terminal(target)]);
      }
    }

    /** Consume the next token, whatever it is, and record the error. */
    method ErrorConsume(message: Message, ghost start: State)
      requires Leads(start, Now())
      modifies this
      ensures |stack| > 0 && Fails(start, Now(), WrongToken) && errors == old(errors) + [message]
      ensures Next(Rest(old(Now()))).Some? ==> Rest(Now()) == AfterNext(Rest(old(Now())))
      ensures Next(Rest(old(Now()))).None? ==> Rest(Now()) == []
    {
      hide Leads, Looked, Next, AfterNext, SpaceAhead, Top, Significant, AllWellFormed;
      ghost var before := Now();
      StackAhead(start, before);
      NothingYet(before);
      var consumed := Consume(before, []);
      LeadsOn(start, before, Now());
      errors := errors + [message];
      ErrorsLead(start, State(stack, buffer, tokens, before.errors), message);
      StackAhead(start, Now());
    }

    /** Consume everything up to and including a newline. */
    method ConsumeTillNewline(ghost start: State) returns (r: Result<(), Failure>)
      requires Leads(start, Now())
      modifies this
      ensures |stack| > 0 && Leads(start, Now()) && errors == old(errors)
      ensures r.Ok? ==> |Rest(Now())| < |Rest(old(Now()))|
      ensures r.Err? ==> r.error == Eof && Next(Rest(Now())).None? && tokens == []
      decreases |buffer| + |tokens|
    {
      hide Leads, Looked, Next, AfterNext, SpaceAhead, Top, Significant, AllWellFormed;
      StackAhead(start, Now());
      ghost var before := Now();
      LeadsNowhere(before);
      while true
        invariant |stack| > 0 && Leads(start, Now()) && Leads(before, Now()) && errors == old(errors)
        decreases |buffer| + |tokens|
      {
        ghost var here := Now();
        NothingYet(here);
        r := TryConsumeExact(Newline, here, []);
        LeadsOn(start, here, Now());
        LeadsOn(before, here, Now());
        if r.Ok? {
          LeadsShrinks(before, here);
          return;
        }
        if r == Err(Eof) {
          return;
        }
        ghost var there := Now();
        NothingYet(there);
        r := Consume(there, []);
        LeadsOn(start, there, Now());
        LeadsOn(before, there, Now());
        if r.Err? {
          NothingNext();
          return;
        }
        LeadsShrinks(here, there);
      }
    }

    // ----- Nodes -----

    method StartNode(kind: Kind)
      modifies this`stack
      ensures Now() == Started(old(Now()), kind)
    {
      stack := stack + [Frame(Some(kind), [])];
    }

    /** Finish the innermost node, as happens when the parsing of a nonterminal ends in any way. */
    method FinishNode()
      requires |stack| > 1 && stack[|stack| - 1].kind.Some?
      modifies this`stack
      ensures Now() == Finished(old(Now()))
    {
      var top, below := stack[|stack| - 1], stack[..|stack| - 1];
      var parent := below[|below| - 1];
      stack := below[..|below| - 1] + [Frame(parent.kind, parent.children + [Node(top.kind.value, top.children)])];
    }

    /** A number, a character, or the size of a data item. */
    method ParseLiteral(ghost start: State, ghost sofar: seq<Kind>) returns (r: Result<(), Failure>)
      requires Grows(start, Now(), sofar) && |stack| > 0
      modifies this
      ensures r.Ok? ==> |stack| > 0 && Grows(start, Now(), sofar + [Literal])
      ensures r.Err? ==> Fails(start, Now(), r.error)
      ensures Reads(AfterLiteral(Ahead(old(Now()))), r, Now())
    {
      hide AfterLiteral, Ahead, Grows, Leads, Fails, Built, Started, Finished;
      ghost var before := Now();
      StartNode(Literal);
      JustStarted(before, Literal);
      r := LiteralBody();
      NodeEnds(start, sofar, before, Literal, Now(), r);
      FinishNode();
    }

    method LiteralBody() returns (r: Result<(), Failure>)
      requires |stack| > 0 && Top(Now()) == []
      modifies this
      ensures r.Ok? ==> Built(old(Now()), Now(), Literal)
      ensures r.Err? ==> Fails(old(Now()), Now(), r.error)
      ensures Reads(AfterLiteral(Ahead(old(Now()))), r, Now())
    {
      hide Ahead, Grows, Leads, Fails, Looked, Next, AfterNext, SpaceAhead, Significant, Top;
      ghost var start := Now();
      NothingYet(start);
      var next := Peek(start, []);
      StackStays(start, Now(), []);
      if next.None? {
        return Err(Eof);
      }
      if next.value == IntLiteral || next.value == FloatLiteral || next.value == CharLiteral {
        ConsumePeeked(next.value, start, []);
        DoneWith(start, Now(), Literal, [] + T(next.value));
        return Ok(());
      }
      if next.value == KwSizeof {
        var _ :- ParseSizeof(start);
        DoneWith(start, Now(), Literal, T(KwSizeof) + T(OpenParen) + T(Identifier) + T(CloseParen));
        return Ok(());
      }
      GrowsLeads(start, Now(), []);
      ErrorConsume(ExpectedScalar, start);
      return Err(WrongToken);
    }

    /** The keyword and a name in parentheses. */
    method ParseSizeof(ghost start: State) returns (r: Result<(), Failure>)
      requires |stack| > 0 && Grows(start, Now(), []) && Next(Rest(Now())) == Some(KwSizeof)
      modifies this
      ensures r.Ok? ==> Grows(start, Now(), T(KwSizeof) + T(OpenParen) + T(Identifier) + T(CloseParen))
      ensures r.Err? ==> Fails(start, Now(), r.error)
      ensures Reads(AfterLiteral(Ahead(old(Now()))), r, Now())
    {
      hide Ahead, Grows, Leads, Fails, Looked, Next, AfterNext, SpaceAhead, Significant, Top;
      NextAhead(Now());
      ConsumePeeked(KwSizeof, start, []);
      assert [] + T(KwSizeof) == T(KwSizeof);
      var _ :- ConsumeExact(OpenParen, ExpectedOpenParen, start, T(KwSizeof));
      var _ :- ConsumeExact(Identifier, ExpectedDataIdentifier, start, T(KwSizeof) + T(OpenParen));
      r := ConsumeExact(CloseParen, ExpectedCloseParen, start, T(KwSizeof) + T(OpenParen) + T(Identifier));
    }

    /** An optional pub, the keyword, a name and a literal. */
    method ParseConstDecl(ghost start: State, ghost sofar: seq<Kind>) returns (r: Result<(), Failure>)
      requires Grows(start, Now(), sofar) && |stack| > 0
      modifies this
      ensures r.Ok? ==> |stack| > 0 && Grows(start, Now(), sofar + [ConstDecl])
      ensures r.Err? ==> Fails(start, Now(), r.error)
      ensures Reads(AfterConstDecl(Ahead(old(Now()))), r, Now())
    {
      hide AfterConstDecl, Ahead, Grows, Leads, Fails, Built, Started, Finished;
      ghost var before := Now();
      StartNode(ConstDecl);
      JustStarted(before, ConstDecl);
      r := ConstDeclBody();
      NodeEnds(start, sofar, before, ConstDecl, Now(), r);
      FinishNode();
    }

    method ConstDeclBody() returns (r: Result<(), Failure>)
      requires |stack| > 0 && Top(Now()) == []
      modifies this
      ensures r.Ok? ==> Built(old(Now()), Now(), ConstDecl)
      ensures r.Err? ==> Fails(old(Now()), Now(), r.error)
      ensures Reads(AfterConstDecl(Ahead(old(Now()))), r, Now())
    {
      hide AfterLiteral, Ahead, Grows, Leads, Fails, Looked, Next, AfterNext, SpaceAhead, Significant, Top;
      ghost var start := Now();
      NothingYet(start);
      var next := Peek(start, []);
      StackStays(start, Now(), []);
      if next.None? {
        return Err(Eof);
      }
      ghost var kinds: seq<Kind> := [];
      if next.value == KwPub {
        ConsumePeeked(KwPub, start, []);
        kinds := [] + T(KwPub);
      }
      var _ :- ConsumeExact(KwConst, ExpectedConst, start, kinds);
      var _ :- ConsumeExact(Identifier, ExpectedConstantName, start, kinds + T(KwConst));
      var _ :- ParseLiteral(start, kinds + T(KwConst) + T(Identifier));
      assert [] + T(KwPub) == T(KwPub) && [] + T(KwConst) == T(KwConst);
      DoneWith(start, Now(), ConstDecl, kinds + T(KwConst) + T(Identifier) + [Literal]);
      return Ok(());
    }

    /** An optional pub, a name and a colon. */
    method ParseLabel(ghost start: State, ghost sofar: seq<Kind>) returns (r: Result<(), Failure>)
      requires Grows(start, Now(), sofar) && |stack| > 0
      modifies this
      ensures r.Ok? ==> |stack| > 0 && Grows(start, Now(), sofar + [Label])
      ensures r.Err? ==> Fails(start, Now(), r.error)
      ensures Reads(AfterLabel(Ahead(old(Now()))), r, Now())
    {
      hide AfterLabel, Ahead, Grows, Leads, Fails, Built, Started, Finished;
      ghost var before := Now();
      StartNode(Label);
      JustStarted(before, Label);
      r := LabelBody();
      NodeEnds(start, sofar, before, Label, Now(), r);
      FinishNode();
    }

    method LabelBody() returns (r: Result<(), Failure>)
      requires |stack| > 0 && Top(Now()) == []
      modifies this
      ensures r.Ok? ==> Built(old(Now()), Now(), Label)
      ensures r.Err? ==> Fails(old(Now()), Now(), r.error)
      ensures Reads(AfterLabel(Ahead(old(Now()))), r, Now())
    {
      hide Ahead, Grows, Leads, Fails, Looked, Next, AfterNext, SpaceAhead, Significant, Top;
      ghost var start := Now();
      NothingYet(start);
      var next := Peek(start, []);
      StackStays(start, Now(), []);
      if next.None? {
        return Err(Eof);
      }
      ghost var kinds: seq<Kind> := [];
      if next.value == KwPub {
        ConsumePeeked(KwPub, start, []);
        kinds := [] + T(KwPub);
      }
      var _ :- ConsumeExact(Identifier, ExpectedLabelName, start, kinds);
      var _ :- ConsumeExact(Colon, ExpectedColon, start, kinds + T(Identifier));
      assert [] + T(KwPub) == T(KwPub) && [] + T(Identifier) == T(Identifier);
      DoneWith(start, Now(), Label, kinds + T(Identifier) + T(Colon));
      return Ok(());
    }

    /** An optional pub, the keyword, an optional mut, a type, a name and an initialiser. */
    method ParseDataDecl(ghost start: State, ghost sofar: seq<Kind>) returns (r: Result<(), Failure>)
      requires Grows(start, Now(), sofar) && |stack| > 0
      modifies this
      ensures r.Ok? ==> |stack| > 0 && Grows(start, Now(), sofar + [DataDecl])
      ensures r.Err? ==> Fails(start, Now(), r.error)
      ensures Reads(AfterDataDecl(Ahead(old(Now()))), r, Now())
    {
      hide AfterDataDecl, Ahead, Grows, Leads, Fails, Built, Started, Finished;
      ghost var before := Now();
      StartNode(DataDecl);
      JustStarted(before, DataDecl);
      r := DataDeclBody();
      NodeEnds(start, sofar, before, DataDecl, Now(), r);
      FinishNode();
    }

    method DataDeclBody() returns (r: Result<(), Failure>)
      requires |stack| > 0 && Top(Now()) == []
      modifies this
      ensures r.Ok? ==> Built(old(Now()), Now(), DataDecl)
      ensures r.Err? ==> Fails(old(Now()), Now(), r.error)
      ensures Reads(AfterDataDecl(Ahead(old(Now()))), r, Now())
    {
      hide AfterDataStart, AfterDataType, AfterArray, Ahead, Grows, Leads, Fails, Looked, Next, AfterNext, SpaceAhead, Significant, Top;
      ghost var start := Now();
      var begun, kinds := ParseDataStart();
      if begun.Err? {
        return begun;
      }
      var _ :- ParseDataType(start, kinds);
      var _ :- ConsumeExact(Identifier, ExpectedDataName, start, kinds + [DataType]);
      var _ :- ParseArrayLiteral(start, kinds + [DataType] + T(Identifier));
      assert kinds + [DataType] + T(Identifier) + [ArrayLiteral] == kinds + ([DataType] + T(Identifier) + [ArrayLiteral]);
      DoneWith(start, Now(), DataDecl, kinds + [DataType] + T(Identifier) + [ArrayLiteral]);
      return Ok(());
    }

    /** The keywords a data declaration starts with. */
    method ParseDataStart() returns (r: Result<(), Failure>, ghost kinds: seq<Kind>)
      requires |stack| > 0
      modifies this
      ensures r.Ok? ==> |stack| > 0 && Grows(old(Now()), Now(), kinds)
      ensures r.Ok? ==> IsDataStart(kinds)
      ensures r.Err? ==> Fails(old(Now()), Now(), r.error)
      ensures Reads(AfterDataStart(Ahead(old(Now()))), r, Now())
    {
      hide Ahead, Grows, Leads, Fails, Looked, Next, AfterNext, SpaceAhead, Significant, Top;
      ghost var start := Now();
      NothingYet(start);
      kinds := [];
      var next := Peek(start, []);
      StackStays(start, Now(), []);
      if next.None? {
        return Err(Eof), kinds;
      }
      if next.value == KwPub {
        ConsumePeeked(KwPub, start, []);
        kinds := [] + T(KwPub);
      }
      r := ConsumeExact(KwStatic, ExpectedStatic, start, kinds);
      if r.Err? {
        return;
      }
      assert [] + T(KwPub) == T(KwPub) && [] + T(KwStatic) == T(KwStatic);
      kinds := kinds + T(KwStatic);
      next := Peek(start, kinds);
      StackStays(start, Now(), kinds);
      if next.None? {
        return Err(Eof), kinds;
      }
      if next.value == KwMut {
        ConsumePeeked(KwMut, start, kinds);
        kinds := kinds + T(KwMut);
      }
    }

    /** A base type and any number of array lengths. */
    method ParseDataType(ghost start: State, ghost sofar: seq<Kind>) returns (r: Result<(), Failure>)
      requires Grows(start, Now(), sofar) && |stack| > 0
      modifies this
      ensures r.Ok? ==> |stack| > 0 && Grows(start, Now(), sofar + [DataType])
      ensures r.Err? ==> Fails(start, Now(), r.error)
      ensures Reads(AfterDataType(Ahead(old(Now()))), r, Now())
    {
      hide AfterDataType, Ahead, Grows, Leads, Fails, Built, Started, Finished;
      ghost var before := Now();
      StartNode(DataType);
      JustStarted(before, DataType);
      r := DataTypeBody();
      NodeEnds(start, sofar, before, DataType, Now(), r);
      FinishNode();
    }

    method DataTypeBody() returns (r: Result<(), Failure>)
      requires |stack| > 0 && Top(Now()) == []
      modifies this
      ensures r.Ok? ==> Built(old(Now()), Now(), DataType)
      ensures r.Err? ==> Fails(old(Now()), Now(), r.error)
      ensures Reads(AfterDataType(Ahead(old(Now()))), r, Now())
    {
      hide AfterLength, Ahead, Grows, Leads, Fails, Next, AfterNext, SpaceAhead, Significant, Top;
      ghost var start := Now();
      NothingYet(start);
      var next := Peek(start, []);
      StackStays(start, Now(), []);
      if next.None? {
        return Err(Eof);
      }
      if next.value != KwByte && next.value != KwHalf && next.value != KwWord {
        GrowsLeads(start, Now(), []);
        ErrorConsume(ExpectedDataType, start);
        return Err(WrongToken);
      }
      ConsumePeeked(next.value, start, []);
      ghost var kinds := [] + T(next.value);
      next := Peek(start, kinds);
      while next == Some(OpenSquare)
        invariant Grows(start, Now(), kinds) && IsDataType(kinds) && next == Next(Rest(Now()))
        invariant next == First(Ahead(Now())) && AfterLengths(Ahead(Now())) == AfterDataType(Ahead(old(Now())))
        invariant next.None? ==> Fails(start, Now(), Eof)
        decreases |Rest(Now())|
      {
        ghost var here := Now();
        StackStays(start, here, kinds);
        var r, length := ParseLength();
        if r.Err? {
          FailsOn(start, here, Now(), kinds, r.error);
          return r;
        }
        ghost var more := T(OpenSquare) + T(length) + T(CloseSquare);
        GrowsOn(start, here, Now(), kinds, more);
        GrowsShrinks(here, Now(), more);
        DataTypeMore(kinds, length);
        kinds := kinds + more;
        next := Peek(start, kinds);
      }
      if next.None? {
        return Err(Eof);
      }
      assert kinds != [];
      DoneWith(start, Now(), DataType, kinds);
      return Ok(());
    }

    /** One array length in brackets. */
    method ParseLength() returns (r: Result<(), Failure>, ghost length: TokenType)
      requires |stack| > 0 && Next(Rest(Now())) == Some(OpenSquare)
      modifies this
      ensures r.Ok? ==> IsLength(length) && Grows(old(Now()), Now(), T(OpenSquare) + T(length) + T(CloseSquare))
      ensures r.Err? ==> Fails(old(Now()), Now(), r.error)
      ensures Reads(AfterLength(Ahead(old(Now()))), r, Now())
    {
      hide Ahead, Grows, Leads, Fails, Looked, Next, AfterNext, SpaceAhead, Significant, Top;
      ghost var start := Now();
      NothingYet(start);
      length := IntLiteral;
      NextAhead(start);
      ConsumePeeked(OpenSquare, start, []);
      assert [] + T(OpenSquare) == T(OpenSquare);
      var next := Peek(start, T(OpenSquare));
      StackStays(start, Now(), T(OpenSquare));
      if next.None? {
        return Err(Eof), length;
      }
      if next.value != IntLiteral && next.value != DoubleDot {
        GrowsLeads(start, Now(), T(OpenSquare));
        ErrorConsume(ExpectedArrayLength, start);
        return Err(WrongToken), length;
      }
      length := next.value;
      ConsumePeeked(next.value, start, T(OpenSquare));
      r := ConsumeExact(CloseSquare, ExpectedCloseSquare, start, T(OpenSquare) + T(length));
    }

    /** An opcode and any number of operands. */
    method ParseInstruction(ghost start: State, ghost sofar: seq<Kind>) returns (r: Result<(), Failure>)
      requires Grows(start, Now(), sofar) && |stack| > 0
      modifies this
      ensures r.Ok? ==> |stack| > 0 && Grows(start, Now(), sofar + [Instruction])
      ensures r.Err? ==> Fails(start, Now(), r.error)
      ensures Reads(AfterInstruction(Ahead(old(Now()))), r, Now())
    {
      hide AfterInstruction, Ahead, Grows, Leads, Fails, Built, Started, Finished;
      ghost var before := Now();
      StartNode(Instruction);
      JustStarted(before, Instruction);
      r := InstructionBody();
      NodeEnds(start, sofar, before, Instruction, Now(), r);
      FinishNode();
    }

    method InstructionBody() returns (r: Result<(), Failure>)
      requires |stack| > 0 && Top(Now()) == []
      modifies this
      ensures r.Ok? ==> Built(old(Now()), Now(), Instruction)
      ensures r.Err? ==> Fails(old(Now()), Now(), r.error)
      ensures Reads(AfterInstruction(Ahead(old(Now()))), r, Now())
    {
      hide AfterOperand, Ahead, Grows, Leads, Fails, Looked, Next, AfterNext, SpaceAhead, Significant, Top;
      ghost var start := Now();
      NothingYet(start);
      var _ :- ConsumeExact(Identifier, ExpectedOpcode, start, []);
      ghost var kinds := [] + T(Identifier);
      while true
        invariant |stack| > 0 && Grows(start, Now(), kinds) && IsInstruction(kinds)
        invariant AfterOperands(Ahead(Now())) == AfterInstruction(Ahead(old(Now())))
        decreases |Rest(Now())|
      {
        ghost var here := Now();
        NothingYet(here);
        var operand := ParseOperand(here);
        if operand.Err? {
          FailsOn(start, here, Now(), kinds, operand.error);
          return Err(operand.error);
        }
        if operand.value == GracefulEnd {
          GrowsOn(start, here, Now(), kinds, []);
          assert kinds + [] == kinds;
          break;
        }
        GrowsOn(start, here, Now(), kinds, [Operand]);
        GrowsShrinks(here, Now(), [Operand]);
        kinds := kinds + [Operand];
        StackStays(start, Now(), kinds);
      }
      DoneWith(start, Now(), Instruction, kinds);
      return Ok(());
    }

    /** One more operand, or the end of the list. */
    method ParseOperand(ghost start: State) returns (r: Result<SequenceResult, Failure>)
      requires |stack| > 0 && Grows(start, Now(), [])
      modifies this
      ensures r == Ok(GoAgain) ==> Grows(start, Now(), [Operand])
      ensures r == Ok(GracefulEnd) ==> Grows(start, Now(), [])
      ensures r.Err? ==> Fails(start, Now(), r.error)
      ensures r == Ok(GracefulEnd) <==> EndsOperands(Ahead(old(Now())))
      ensures r == Ok(GracefulEnd) ==> Ahead(Now()) == Ahead(old(Now()))
      ensures r != Ok(GracefulEnd) ==> Reads(AfterOperand(Ahead(old(Now()))), r, Now())
    {
      hide AfterOperand, Ahead, Grows, Leads, Fails, Next, AfterNext, SpaceAhead, Significant, Top;
      var next := Peek(start, []);
      StackStays(start, Now(), []);
      if next == Some(Identifier) || next == Some(IntLiteral) || next == Some(FloatLiteral) || next == Some(CharLiteral)
         || next == Some(KwSizeof) {
        var _ :- ParseOperandNode(start, []);
        assert [] + [Operand] == [Operand];
        return Ok(GoAgain);
      }
      return Ok(GracefulEnd);
    }

    /** A name or a literal. */
    method ParseOperandNode(ghost start: State, ghost sofar: seq<Kind>) returns (r: Result<(), Failure>)
      requires Grows(start, Now(), sofar) && |stack| > 0
      modifies this
      ensures r.Ok? ==> |stack| > 0 && Grows(start, Now(), sofar + [Operand])
      ensures r.Err? ==> Fails(start, Now(), r.error)
      ensures Reads(AfterOperand(Ahead(old(Now()))), r, Now())
    {
      hide AfterOperand, Ahead, Grows, Leads, Fails, Built, Started, Finished;
      ghost var before := Now();
      StartNode(Operand);
      JustStarted(before, Operand);
      r := OperandNodeBody();
      NodeEnds(start, sofar, before, Operand, Now(), r);
      FinishNode();
    }

    method OperandNodeBody() returns (r: Result<(), Failure>)
      requires |stack| > 0 && Top(Now()) == []
      modifies this
      ensures r.Ok? ==> Built(old(Now()), Now(), Operand)
      ensures r.Err? ==> Fails(old(Now()), Now(), r.error)
      ensures Reads(AfterOperand(Ahead(old(Now()))), r, Now())
    {
      hide AfterLiteral, Ahead, Grows, Leads, Fails, Looked, Next, AfterNext, SpaceAhead, Significant, Top;
      ghost var start := Now();
      NothingYet(start);
      var next := Peek(start, []);
      StackStays(start, Now(), []);
      if next == Some(Identifier) {
        ConsumePeeked(Identifier, start, []);
        assert [] + T(Identifier) == T(Identifier);
        DoneWith(start, Now(), Operand, T(Identifier));
      } else {
        var _ :- ParseLiteral(start, []);
        assert [] + [Literal] == [Literal];
        DoneWith(start, Now(), Operand, [Literal]);
      }
      return Ok(());
    }

    /** A literal, a string, or elements in brackets. */
    method ParseArrayLiteral(ghost start: State, ghost sofar: seq<Kind>) returns (r: Result<(), Failure>)
      requires Grows(start, Now(), sofar) && |stack| > 0
      modifies this
      ensures r.Ok? ==> |stack| > 0 && Grows(start, Now(), sofar + [ArrayLiteral])
      ensures r.Err? ==> Fails(start, Now(), r.error)
      ensures Reads(AfterArray(Ahead(old(Now()))), r, Now())
      decreases |Rest(Now())|, 1
    {
      hide AfterArray, Ahead, Grows, Leads, Fails, Built, Started, Finished;
      ghost var before := Now();
      StartNode(ArrayLiteral);
      JustStarted(before, ArrayLiteral);
      r := ArrayLiteralBody();
      NodeEnds(start, sofar, before, ArrayLiteral, Now(), r);
      FinishNode();
    }

    method ArrayLiteralBody() returns (r: Result<(), Failure>)
      requires |stack| > 0 && Top(Now()) == []
      modifies this
      ensures r.Ok? ==> Built(old(Now()), Now(), ArrayLiteral)
      ensures r.Err? ==> Fails(old(Now()), Now(), r.error)
      ensures Reads(AfterArray(Ahead(old(Now()))), r, Now())
      decreases |Rest(Now())|, 0
    {
      hide AfterElements, AfterLiteral, Ahead, Grows, Leads, Fails, Looked, Next, AfterNext, SpaceAhead, Significant, Top;
      ghost var start := Now();
      NothingYet(start);
      var next := Peek(start, []);
      StackStays(start, Now(), []);
      if next.None? {
        return Err(Eof);
      }
      if next.value == IntLiteral || next.value == FloatLiteral || next.value == CharLiteral || next.value == KwSizeof {
        var _ :- ParseLiteral(start, []);
        assert [] + [Literal] == [Literal];
        DoneWith(start, Now(), ArrayLiteral, [Literal]);
        return Ok(());
      }
      if next.value == StringLiteral {
        ConsumePeeked(StringLiteral, start, []);
        assert [] + T(StringLiteral) == T(StringLiteral);
        DoneWith(start, Now(), ArrayLiteral, T(StringLiteral));
        return Ok(());
      }
      if next.value != OpenSquare {
        GrowsLeads(start, Now(), []);
        ErrorConsume(ExpectedLiteral, start);
        return Err(WrongToken);
      }
      ConsumePeeked(OpenSquare, start, []);
      assert [] + T(OpenSquare) == T(OpenSquare);
      ghost var kinds := T(OpenSquare);
      next := Peek(start, kinds);
      StackStays(start, Now(), kinds);
      if next.None? {
        return Err(Eof);
      }
      if next.value != CloseSquare {
        GrowsShrinks(start, Now(), kinds);
        var r, elements := ParseElements(start);
        if r.Err? {
          return r;
        }
        kinds := elements;
      }
      ConsumePeeked(CloseSquare, start, kinds);
      ElementsClosed(kinds);
      DoneWith(start, Now(), ArrayLiteral, kinds + T(CloseSquare));
      return Ok(());
    }

    /** Elements separated by commas, up to the closing bracket. */
    method ParseElements(ghost start: State) returns (r: Result<(), Failure>, ghost kinds: seq<Kind>)
      requires |stack| > 0 && Grows(start, Now(), T(OpenSquare))
      modifies this
      ensures r.Ok? ==> |stack| > 0 && Grows(start, Now(), kinds) && IsElements(kinds) && |kinds| % 2 == 0
      ensures r.Ok? ==> Next(Rest(Now())) == Some(CloseSquare) && First(Ahead(Now())) == Some(CloseSquare)
      ensures r.Err? ==> Fails(start, Now(), r.error)
      ensures r.Ok? <==> AfterElements(Ahead(old(Now()))).Some?
      ensures r.Ok? ==> Some(Tail(Ahead(Now()))) == AfterElements(Ahead(old(Now())))
      decreases |Rest(Now())|, 2
    {
      hide AfterArray, Ahead, Grows, Leads, Fails, Next, AfterNext, SpaceAhead, Significant, Top;
      kinds := T(OpenSquare);
      while true
        invariant |stack| > 0 && Grows(start, Now(), kinds) && IsElements(kinds) && |kinds| % 2 == 1
        invariant AfterElements(Ahead(Now())) == AfterElements(Ahead(old(Now())))
        invariant |Rest(Now())| <= |Rest(old(Now()))|
        decreases |Rest(Now())|
      {
        ghost var here := Now();
        NothingYet(here);
        r := ParseArrayLiteral(here, []);
        if r.Err? {
          FailsOn(start, here, Now(), kinds, r.error);
          return;
        }
        assert [] + [ArrayLiteral] == [ArrayLiteral];
        GrowsOn(start, here, Now(), kinds, [ArrayLiteral]);
        GrowsShrinks(here, Now(), [ArrayLiteral]);
        kinds := kinds + [ArrayLiteral];
        var next := Peek(start, kinds);
        StackStays(start, Now(), kinds);
        if next.None? {
          return Err(Eof), kinds;
        }
        if next.value == CloseSquare {
          return Ok(()), kinds;
        }
        if next.value != Comma {
          GrowsLeads(start, Now(), kinds);
          ErrorConsume(ExpectedCommaOrCloseSquare, start);
          return Err(WrongToken), kinds;
        }
        ghost var there := Now();
        ConsumePeeked(Comma, start, kinds);
        AfterNextShorter(Rest(there));
        kinds := kinds + T(Comma);
      }
    }

    // ----- Lines and programs -----

    /** The statement a line starts with, if it is not empty. */
    method ParseStatement() returns (r: Result<(), Failure>, ghost kinds: seq<Kind>)
      requires |stack| > 0 && Next(Rest(Now())).Some?
      modifies this
      ensures r.Ok? ==> (kinds == [] || (|kinds| == 1 && IsStatement(kinds[0]))) && Grows(old(Now()), Now(), kinds)
      ensures r.Err? ==> Fails(old(Now()), Now(), r.error)
      ensures Reads(AfterStatement(Ahead(old(Now()))), r, Now())
    {
      hide AfterConstDecl, AfterDataDecl, AfterPublic, AfterNamed, AfterBlank;
      hide Ahead, Grows, Leads, Fails, Next, AfterNext, SpaceAhead, Significant, Top;
      ghost var start := Now();
      NothingYet(start);
      kinds := [];
      var next := Peek(start, []);
      StackStays(start, Now(), []);
      if next == Some(KwPub) {
        r, kinds := ParsePublic(start);
      } else if next == Some(KwConst) {
        r := ParseConstDecl(start, []);
        kinds := [ConstDecl];
        assert [] + [ConstDecl] == kinds;
      } else if next == Some(KwStatic) {
        r := ParseDataDecl(start, []);
        kinds := [DataDecl];
        assert [] + [DataDecl] == kinds;
      } else if next == Some(Identifier) {
        r, kinds := ParseNamed(start);
      } else {
        r, kinds := ParseBlank(start);
      }
    }

    /** A line without a statement, or one that cannot be. */
    method ParseBlank(ghost start: State) returns (r: Result<(), Failure>, ghost kinds: seq<Kind>)
      requires |stack| > 0 && Grows(start, Now(), []) && Next(Rest(Now())).Some?
      modifies this
      ensures r.Ok? ==> (kinds == [] || (|kinds| == 1 && IsStatement(kinds[0]))) && Grows(start, Now(), kinds)
      ensures r.Err? ==> Fails(start, Now(), r.error)
      ensures Reads(AfterBlank(Ahead(old(Now()))), r, Now())
    {
      hide Ahead, Grows, Leads, Fails, Next, AfterNext, SpaceAhead, Significant, Top;
      kinds := [];
      var next := Peek(start, []);
      StackStays(start, Now(), []);
      if next == Some(Comment) {
        ConsumePeeked(Comment, start, []);
        kinds := [] + [Terminal(Comment)];
        r := Ok(());
      } else if next == Some(Newline) {
        r := Ok(());
      } else {
        GrowsLeads(start, Now(), []);
        ErrorConsume(UnexpectedAtLineStart, start);
        r := Err(WrongToken);
      }
    }

    /** A public declaration or label: the second token decides. */
    method ParsePublic(ghost start: State) returns (r: Result<(), Failure>, ghost kinds: seq<Kind>)
      requires |stack| > 0 && Grows(start, Now(), [])
      modifies this
      ensures r.Ok? ==> |kinds| == 1 && IsStatement(kinds[0]) && Grows(start, Now(), kinds)
      ensures r.Err? ==> Fails(start, Now(), r.error)
      ensures Reads(AfterPublic(Ahead(old(Now()))), r, Now())
    {
      hide AfterConstDecl, AfterDataDecl, AfterLabel, Ahead, Grows, Leads, Fails, Next, AfterNext, SpaceAhead, Significant, Top;
      kinds := [];
      var second := DoubleLookahead(start, []);
      StackStays(start, Now(), []);
      if second.None? {
        OneTokenLeft(start, Now(), []);
        return Err(Eof), kinds;
      }
      if second.value == KwConst {
        r := ParseConstDecl(start, []);
        kinds := [] + [ConstDecl];
      } else if second.value == KwStatic {
        r := ParseDataDecl(start, []);
        kinds := [] + [DataDecl];
      } else if second.value == Identifier {
        r := ParseLabel(start, []);
        kinds := [] + [Label];
      } else {
        GrowsLeads(start, Now(), []);
        ErrorConsume(MisplacedPub, start);
        r := Err(WrongToken);
      }
    }

    /** A label or an instruction: the second token decides, if there is one. */
    method ParseNamed(ghost start: State) returns (r: Result<(), Failure>, ghost kinds: seq<Kind>)
      requires |stack| > 0 && Grows(start, Now(), [])
      modifies this
      ensures r.Ok? ==> |kinds| == 1 && IsStatement(kinds[0]) && Grows(start, Now(), kinds)
      ensures r.Err? ==> Fails(start, Now(), r.error)
      ensures Reads(AfterNamed(Ahead(old(Now()))), r, Now())
    {
      hide AfterLabel, AfterInstruction, Ahead, Grows, Leads, Fails, Next, AfterNext, SpaceAhead, Significant, Top;
      var second := DoubleLookahead(start, []);
      StackStays(start, Now(), []);
      if second == Some(Colon) {
        r := ParseLabel(start, []);
        kinds := [] + [Label];
      } else {
        r := ParseInstruction(start, []);
        kinds := [] + [Instruction];
      }
    }

    /** What follows a statement on its line. */
    method ParseLineEnd(ghost start: State, ghost statement: seq<Kind>) returns (r: Result<SequenceResult, Failure>)
      requires |stack| > 0 && Top(start) == [] && Grows(start, Now(), statement) && IsOneStatement(statement)
      requires CommentsEndLines(Rest(start))
      modifies this
      ensures LineDone(start, Now(), r) && ReadsLine(AfterLineEnd(Ahead(old(Now()))), start, r, Now())
    {
      hide Ahead, Grows, Leads, Fails, Next, AfterNext, SpaceAhead, Significant, Top, LineDone, CommentsEndLines;
      var next := Peek(start, statement);
      StackStays(start, Now(), statement);
      if next.None? {
        EndsGracefully(start, Now(), statement);
        return Ok(GracefulEnd);
      }
      if next.value == Comment {
        CommentAhead(start, Now(), statement);
        ConsumePeeked(Comment, start, statement);
        ghost var kinds := statement + T(Comment);
        var newline := TryConsumeExact(Newline, start, kinds);
        assert newline != Err(WrongToken);
        NextAhead(Now());
        OtherFailure(newline);
        EndsWith(start, Now(), kinds, statement, true, newline.Ok?);
        return Ok(GoAgain);
      }
      if next.value == Newline {
        ConsumePeeked(Newline, start, statement);
        EndsWith(start, Now(), statement, statement, false, true);
        return Ok(GoAgain);
      }
      ghost var before := Now();
      GrowsLeads(start, before, statement);
      ErrorConsume(UnexpectedAfterLine, start);
      r := SkipLine(start);
    }

    /** After an error, eat the rest of the line and carry on with the next. */
    method SkipLine(ghost start: State) returns (r: Result<SequenceResult, Failure>)
      requires Fails(start, Now(), WrongToken)
      modifies this
      ensures |stack| > 0 && LineDone(start, Now(), r) && |errors| > |start.errors|
    {
      ghost var before := Now();
      hide Leads, Next, AfterNext, SpaceAhead, Significant, Top;
      var newline := ConsumeTillNewline(start);
      LeadsShrinks(start, before);
      if newline.Err? {
        EndsAfterAll(Rest(Now()));
        return Err(Eof);
      }
      return Ok(GoAgain);
    }

    method LineBody() returns (r: Result<SequenceResult, Failure>)
      requires |stack| > 0 && Top(Now()) == [] && Next(Rest(Now())).Some? && CommentsEndLines(Rest(Now()))
      modifies this
      ensures LineDone(old(Now()), Now(), r) && ReadsLine(AfterLine(Ahead(old(Now()))), old(Now()), r, Now())
    {
      hide AfterStatement, AfterLineEnd;
      hide Ahead, Grows, Leads, Next, AfterNext, SpaceAhead, Significant, Top, LineDone, CommentsEndLines, Fails;
      ghost var start := Now();
      var statement, kinds := ParseStatement();
      if statement.Err? {
        if statement.error == WrongToken {
          r := SkipLine(start);
        } else {
          FailedLine(start, Now());
          r := Err(Eof);
        }
        return;
      }
      StackStays(start, Now(), kinds);
      r := ParseLineEnd(start, kinds);
    }

    /** One line. It never reports a wrong token: that is recorded and skipped. */
    method ParseLine() returns (r: Result<SequenceResult, Failure>)
      requires |stack| > 0 && CommentsEndLines(Rest(Now()))
      modifies this
      ensures |stack| > 0 && LineParsed(old(Now()), Now(), r)
      ensures ReadsOneLine(old(Now()), r, Now())
    {
      hide Ahead, Grows, Leads, Next, AfterNext, SpaceAhead, Significant, Top, LineDone, CommentsEndLines, Started, Finished, LineParsed,
        AfterLine, Looked;
      ghost var start := Now();
      NothingYet(start);
      var next := Peek(start, []);
      StackStays(start, Now(), []);
      if next.None? {
        NoLine(start, Now());
        LookedSame(start, Now());
        return Ok(GracefulEnd);
      }
      ghost var before := Now();
      LookedSame(start, before);
      StartNode(Line);
      JustStarted(before, Line);
      StartedRest(before, Line);
      StartedAhead(before, Line);
      r := LineBody();
      LineEnds(start, before, Now(), r);
      FinishNode();
    }

    /** The whole program. Afterwards nothing is unread and only whitespace is left in the buffer; all
        other tokens are the leaves of one tree, which follows the grammar if there are no errors. */
    method ParseProgram()
      requires Now() == State([Frame(None, [])], [], tokens, []) && CommentsEndLines(tokens)
      modifies this
      ensures tokens == [] && AllSpace(buffer)
      ensures |Top(Now())| == 1 && KindOf(Top(Now())[0]) == Program && Leaves(Top(Now())[0]) + buffer == old(tokens)
      ensures errors == [] ==> IsProgramOf(Top(Now())[0], buffer, old(tokens))
      ensures errors == [] <==> IsProgram(TypesOf(old(tokens)))
    {
      hide Leads, Next, AfterNext, SpaceAhead, Significant, AllWellFormed, WellFormed, Leaves, AllLeaves, LineParsed, Started, Finished,
        CommentsEndLines, LinesSoFar, Ahead, IsProgram, IsProgramOf, TypesOf, ReadsOneLine, Everything, Rest;
      ghost var before := Now();
      AllAhead(before);
      StartNode(Program);
      ghost var start := Now();
      StartedAhead(before, Program);
      JustStarted(before, Program);
      StartedRest(before, Program);
      NoLinesYet(before);
      LeadsNowhere(start);
      while true
        invariant |stack| > 0 && Leads(start, Now()) && CommentsEndLines(Rest(Now()))
        invariant errors == start.errors ==> LinesSoFar(Now())
        invariant IsProgram(Ahead(start)) <==> errors == [] && IsProgram(Ahead(Now()))
        decreases |Rest(Now())|
      {
        ghost var here := Now();
        var r := ParseLine();
        LineOn(start, here, Now(), r);
        ProgramOn(start, here, Now(), r);
        if r == Ok(GracefulEnd) {
          break;
        }
        if r.Err? {
          ghost var there := Now();
          LeadsNowhere(there);
          ErrorConsume(UnexpectedEof, there);
          FailedProgram(start, there, Now());
          break;
        }
        assert r.value.GoAgain?;
      }
      assert tokens == [];
      ghost var inner := Now();
      ProgramEnds(before, inner);
      FinishNode();
    }

    /** Parse everything: a tree that follows the grammar, or the errors. */
    method Run() returns (r: Result<Tree, seq<Message>>)
      requires Now() == State([Frame(None, [])], [], tokens, []) && CommentsEndLines(tokens)
      modifies this
      ensures r.Ok? ==> IsProgramOf(r.value, buffer, old(tokens))
      ensures r.Ok? <==> exists t, space :: IsProgramOf(t, space, old(tokens))
      ensures r.Err? ==> r.error != []
    {
      hide IsProgramOf, IsProgram, TypesOf;
      ParseProgram();
      forall t, space | IsProgramOf(t, space, old(tokens)) ensures IsProgram(TypesOf(old(tokens))) {
        ProgramOfRead(t, space, old(tokens));
      }
      if errors == [] {
        return Ok(stack[|stack| - 1].children[0]);
      }
      return Err(errors);
    }
  }

  /** The next significant token has been consumed. */
  ghost predicate AteNext(start: State, sofar: seq<Kind>, before: State, after: State) {
    && Next(Rest(before)).Some?
    && Grows(start, after, sofar + [Terminal(Next(Rest(before)).value)])
    && Rest(after) == AfterNext(Rest(before))
  }

  lemma GrowsLeads(a: State, b: State, kinds: seq<Kind>)
    requires Grows(a, b, kinds)
    ensures Leads(a, b)
  {}

  lemma StackAhead(a: State, b: State)
    requires Leads(a, b)
    ensures |b.stack| > 0
  {}

  lemma StackStays(a: State, b: State, kinds: seq<Kind>)
    requires Grows(a, b, kinds)
    ensures |b.stack| > 0
  {}

  lemma ErrorsLead(a: State, b: State, message: Message)
    requires Leads(a, b)
    ensures Fails(a, b.(errors := b.errors + [message]), WrongToken)
  {
    hide StackLeaves;
    assert Rest(b.(errors := b.errors + [message])) == Rest(b);
  }

  /** The open node has been filled according to the grammar. */
  ghost predicate Built(a: State, b: State, kind: Kind) {
    && Leads(a, b) && b.errors == a.errors && |Rest(b)| < |Rest(a)|
    && Follows(kind, Significant(Top(b))) && AllWellFormed(Top(b))
  }

  lemma DoneWith(a: State, b: State, kind: Kind, kinds: seq<Kind>)
    requires Grows(a, b, kinds) && Top(a) == [] && Follows(kind, kinds) && kinds != []
    ensures Built(a, b, kind)
  {
    hide Leads, Follows, Rest;
    assert [] + kinds == kinds;
  }

  lemma JustStarted(a: State, kind: Kind)
    ensures |Started(a, kind).stack| > 0 && Top(Started(a, kind)) == []
  {}

  /** What a finished node means for the node around it. */
  lemma NodeEnds(start: State, sofar: seq<Kind>, before: State, kind: Kind, b: State, r: Result<(), Failure>)
    requires Grows(start, before, sofar) && |before.stack| > 0 && !kind.Terminal?
    requires r.Ok? ==> Built(Started(before, kind), b, kind)
    requires r.Err? ==> Fails(Started(before, kind), b, r.error)
    ensures |b.stack| > 1 && b.stack[|b.stack| - 1].kind.Some?
    ensures r.Ok? ==> |Finished(b).stack| > 0 && Grows(start, Finished(b), sofar + [kind])
    ensures r.Err? ==> Fails(start, Finished(b), r.error)
    ensures Ahead(Started(before, kind)) == Ahead(before) && Ahead(Finished(b)) == Ahead(b)
  {
    hide Everything, Rest, Follows, Significant, AllWellFormed, IsSuffix;
    FinishingLeads(before, kind, b);
    StartedRest(before, kind);
    if r.Ok? {
      SignificantOfMore(Top(before), Node(kind, Top(b)));
      WellFormedMore(Top(before), Node(kind, Top(b)));
      NodeWellFormed(kind, Top(b));
      GrowsOn(start, before, Finished(b), sofar, [kind]);
    } else {
      FailsOn(start, before, Finished(b), sofar, r.error);
    }
  }

  lemma StartedAhead(s: State, kind: Kind)
    ensures Ahead(Started(s, kind)) == Ahead(s)
  {}

  lemma LookedSame(a: State, b: State)
    requires Looked(a, b)
    ensures b.errors == a.errors && Rest(b) == Rest(a)
  {}

  lemma StartedRest(s: State, kind: Kind)
    ensures Rest(Started(s, kind)) == Rest(s) && Started(s, kind).errors == s.errors
  {}

  lemma NodeWellFormed(kind: Kind, children: seq<Tree>)
    requires Follows(kind, Significant(children)) && AllWellFormed(children)
    ensures WellFormed(Node(kind, children))
  {}

  lemma NothingNext()
    ensures Next([]).None?
  {}

  ghost predicate IsOneStatement(kinds: seq<Kind>) {
    kinds == [] || (|kinds| == 1 && IsStatement(kinds[0]))
  }

  ghost predicate IsDataStart(kinds: seq<Kind>) {
    || kinds == T(KwStatic) || kinds == T(KwStatic) + T(KwMut)
    || kinds == T(KwPub) + T(KwStatic) || kinds == T(KwPub) + T(KwStatic) + T(KwMut)
  }

  // ----- Lines -----

  /** A line's node has been filled. If parsing goes on, something has been consumed; if it ends, nothing
      is unread; and without a new error the node follows the grammar. */
  ghost predicate LineDone(a: State, b: State, r: Result<SequenceResult, Failure>) {
    && Leads(a, b)
    && (r == Ok(GoAgain) ==> |Rest(b)| < |Rest(a)|)
    && (r == Ok(GracefulEnd) ==> b.tokens == [] && Next(Rest(b)).None?)
    && (r.Err? ==> r.error == Eof && b.tokens == [] && Next(AfterNext(Rest(b))).None?)
    && (r.Ok? && b.errors == a.errors ==>
          Follows(Line, Significant(Top(b))) && AllWellFormed(Top(b)) && (Closed(Top(b)) || Ahead(b) == []))
  }

  /** A line is parsed without error exactly if what is ahead can be read. */
  ghost predicate ReadsLine(expected: Option<seq<TokenType>>, a: State, r: Result<SequenceResult, Failure>, b: State) {
    && ((r.Ok? && b.errors == a.errors) <==> expected.Some?)
    && (expected.Some? ==> Ahead(b) == expected.value)
  }

  /** A line is parsed, unless nothing is ahead. */
  ghost predicate ReadsOneLine(a: State, r: Result<SequenceResult, Failure>, b: State) {
    if Ahead(a) == [] then r == Ok(GracefulEnd) && b.errors == a.errors && Ahead(b) == []
    else ReadsLine(AfterLine(Ahead(a)), a, r, b)
  }

  /** The line's last significant child is a newline. */
  ghost predicate Closed(children: seq<Tree>) {
    EndsInNewline(Node(Line, children))
  }

  /** The open program node holds well-formed lines only, all of them ended by newlines unless nothing is
      left. */
  ghost predicate LinesSoFar(s: State) {
    && Follows(Program, Significant(Top(s))) && AllWellFormed(Top(s)) && LinesEnd(Top(s))
    && (Ahead(s) != [] ==> AllClosed(Top(s)))
  }

  ghost predicate AllClosed(children: seq<Tree>) {
    forall i :: 0 <= i < |Parts(children)| ==> EndsInNewline(Parts(children)[i])
  }

  ghost predicate LineParsed(a: State, b: State, r: Result<SequenceResult, Failure>) {
    && Leads(a, b)
    && (r == Ok(GoAgain) ==> |Rest(b)| < |Rest(a)|)
    && (r == Ok(GracefulEnd) ==> b.tokens == [] && Next(Rest(b)).None?)
    && (r.Err? ==> r.error == Eof && b.tokens == [] && Next(AfterNext(Rest(b))).None?)
    && (r.Ok? && b.errors == a.errors && LinesSoFar(a) ==> LinesSoFar(b))
  }

  lemma LineKinds(statement: seq<Kind>, comment: bool, newline: bool)
    requires IsOneStatement(statement)
    ensures Follows(Line, statement + (if comment then T(Comment) else []) + (if newline then T(Newline) else []))
  {
    var s := statement + (if comment then T(Comment) else []) + (if newline then T(Newline) else []);
    assert IsLineOf(s, statement != [], comment, newline);
  }

  lemma EndsWith(start: State, b: State, kinds: seq<Kind>, statement: seq<Kind>, comment: bool, newline: bool)
    requires IsOneStatement(statement) && kinds == (if comment then statement + T(Comment) else statement)
    requires Grows(start, b, if newline then kinds + T(Newline) else kinds) && Top(start) == [] && (comment || newline)
    requires newline || Ahead(b) == []
    ensures LineDone(start, b, Ok(GoAgain)) && b.errors == start.errors
  {
    hide Leads, Rest, AllWellFormed, Follows, Ahead;
    LineKinds(statement, comment, newline);
    var all := if newline then kinds + T(Newline) else kinds;
    assert all == statement + (if comment then T(Comment) else []) + (if newline then T(Newline) else []);
    NoneIsWellFormed();
    assert Significant(Top(b)) == [] + all == all;
    assert all != [];
  }

  lemma EndsGracefully(start: State, b: State, statement: seq<Kind>)
    requires IsOneStatement(statement) && Grows(start, b, statement) && Top(start) == []
    requires Next(Rest(b)).None? && b.tokens == [] && Ahead(b) == []
    ensures LineDone(start, b, Ok(GracefulEnd)) && b.errors == start.errors
  {
    hide Leads, Rest, AllWellFormed, Follows, Ahead;
    LineKinds(statement, false, false);
    assert statement + [] + [] == statement;
    NoneIsWellFormed();
    assert Significant(Top(b)) == [] + statement == statement;
  }

  lemma NoneIsWellFormed()
    ensures AllWellFormed([]) && Significant([]) == []
  {}

  lemma FailedLine(start: State, b: State)
    requires Fails(start, b, Eof)
    ensures LineDone(start, b, Err(Eof))
  {
    hide Leads;
  }

  lemma EndsAfterAll(tokens: seq<Token>)
    requires Next(tokens).None?
    ensures Next(AfterNext(tokens)).None?
  {}

  lemma SuffixKeepsComments(a: seq<Token>, b: seq<Token>)
    requires IsSuffix(a, b) && CommentsEndLines(b)
    ensures CommentsEndLines(a)
  {
    var d := |b| - |a|;
    forall k | 0 <= k < |a| - 1 && a[k].tt == Comment ensures a[k + 1].tt == Newline {
      assert a[k] == b[d + k] && a[k + 1] == b[d + k + 1];
    }
  }

  /** After a comment comes a newline, or nothing. */
  lemma CommentAhead(start: State, s: State, kinds: seq<Kind>)
    requires Grows(start, s, kinds) && CommentsEndLines(Rest(start)) && Next(Rest(s)) == Some(Comment)
    ensures Next(AfterNext(Rest(s))).Some? ==> Next(AfterNext(Rest(s))) == Some(Newline)
  {
    hide Rest, Significant, AllWellFormed, Everything;
    SuffixKeepsComments(Rest(s), Rest(start));
    var tokens := Rest(s);
    var n := SpaceAhead(tokens);
    if n + 1 < |tokens| {
      assert tokens[n + 1].tt == Newline;
      SpaceAheadIs(AfterNext(tokens), 0);
    }
  }

  lemma NoLine(start: State, b: State)
    requires Grows(start, b, []) && Next(Rest(b)).None? && b.tokens == [] && Ahead(b) == [] && Looked(start, b)
    ensures LineParsed(start, b, Ok(GracefulEnd))
  {
    hide Leads, Rest, AllWellFormed, Ahead;
    assert Significant(Top(start)) + [] == Significant(Top(start));
  }

  /** At an unexpected end the last token is consumed with an error. */
  lemma FailedProgram(start: State, a: State, b: State)
    requires Leads(start, a) && a.tokens == [] && Next(AfterNext(Rest(a))).None?
    requires Fails(a, b, WrongToken)
    requires if Next(Rest(a)).Some? then Rest(b) == AfterNext(Rest(a)) else Rest(b) == []
    ensures Leads(start, b) && |b.errors| > |start.errors| && b.tokens == [] && Next(Rest(b)).None?
  {
    hide Everything, Rest, IsSuffix;
    LeadsOn(start, a, b);
    NothingNext();
  }

  /** The finished program node holds all tokens but the whitespace at the end. */
  lemma ProgramEnds(before: State, b: State)
    requires before == State([Frame(None, [])], [], before.tokens, [])
    requires Leads(Started(before, Program), b) && b.tokens == [] && Next(Rest(b)).None?
    requires b.errors == [] ==> LinesSoFar(b)
    ensures |b.stack| > 1 && b.stack[|b.stack| - 1].kind.Some? && AllSpace(b.buffer)
    ensures Top(Finished(b)) == [Node(Program, Top(b))]
    ensures Leaves(Node(Program, Top(b))) + b.buffer == before.tokens
    ensures b.errors == [] ==> IsProgramOf(Node(Program, Top(b)), b.buffer, before.tokens)
  {
    hide Significant, AllWellFormed, Leaves, AllLeaves;
    FinishingLeads(before, Program, b);
    var node := Node(Program, Top(b));
    var done := Finished(b);
    assert Top(before) == [] && [] + [node] == [node];
    OnlyLeaf(node);
    NoLeaves();
    assert done.stack == [Frame(None, [node])];
    SingleFrame(done.stack[0]);
    SingleFrame(before.stack[0]);
    assert Rest(b) == b.buffer && [] + ([] + before.tokens) == before.tokens;
    SpaceOnly(b.buffer);
    if b.errors == [] {
      NodeWellFormed(Program, Top(b));
      assert Node(Program, Top(b)).children == Top(b);
    }
  }

  lemma OnlyLeaf(t: Tree)
    ensures AllLeaves([t]) == Leaves(t)
  {
    hide Leaves;
    assert AllLeaves([]) == [];
    assert [t][..0] == [];
  }

  lemma SingleFrame(f: Frame)
    ensures StackLeaves([f]) == AllLeaves(f.children)
  {
    hide AllLeaves;
    assert StackLeaves([]) == [];
    assert [f][..0] == [];
  }

  lemma SpaceOnly(tokens: seq<Token>)
    requires Next(tokens).None?
    ensures AllSpace(tokens)
  {}

  lemma NoLinesYet(s: State)
    requires Top(Started(s, Program)) == []
    ensures LinesSoFar(Started(s, Program))
  {}

  /** One more line of a program. */
  lemma LineOn(start: State, a: State, b: State, r: Result<SequenceResult, Failure>)
    requires Leads(start, a) && LineParsed(a, b, r) && CommentsEndLines(Rest(a))
    requires a.errors == start.errors ==> LinesSoFar(a)
    ensures Leads(start, b) && CommentsEndLines(Rest(b))
    ensures r.Ok? && b.errors == start.errors ==> LinesSoFar(b)
    ensures r == Ok(GoAgain) ==> |Rest(b)| < |Rest(a)|
    ensures r == Ok(GracefulEnd) ==> b.tokens == [] && Next(Rest(b)).None?
    ensures r.Err? ==> r.error == Eof && b.tokens == [] && Next(AfterNext(Rest(b))).None?
  {
    hide Everything, Rest, LinesSoFar;
    LeadsOn(start, a, b);
    SuffixKeepsComments(Rest(b), Rest(a));
    if b.errors == start.errors {
      assert start.errors <= a.errors <= b.errors;
    }
  }

  /** The program can be read exactly if there are no errors so far and what is left can be. */
  lemma ProgramOn(start: State, a: State, b: State, r: Result<SequenceResult, Failure>)
    requires ReadsOneLine(a, r, b) && LineParsed(a, b, r) && start.errors == []
    requires IsProgram(Ahead(start)) <==> a.errors == [] && IsProgram(Ahead(a))
    ensures r == Ok(GoAgain) ==> (IsProgram(Ahead(start)) <==> b.errors == [] && IsProgram(Ahead(b)))
    ensures r == Ok(GracefulEnd) ==> (IsProgram(Ahead(start)) <==> b.errors == [])
    ensures r.Err? ==> !IsProgram(Ahead(start))
  {
    hide Everything, Rest, LinesSoFar, TypesOf, Ahead, AfterLine, SpaceAhead;
    if r == Ok(GracefulEnd) {
      NextAhead(b);
      assert Ahead(b) == [];
    }
    assert a.errors <= b.errors;
  }

  lemma AllAhead(s: State)
    requires s.buffer == []
    ensures Rest(s) == s.tokens && Ahead(s) == TypesOf(s.tokens)
  {
    hide TypesOf;
    assert [] + s.tokens == s.tokens;
  }

  lemma LineEnds(start: State, before: State, b: State, r: Result<SequenceResult, Failure>)
    requires Grows(start, before, []) && |before.stack| > 0 && LineDone(Started(before, Line), b, r)
    requires Looked(start, before) && Ahead(start) != []
    ensures |b.stack| > 1 && b.stack[|b.stack| - 1].kind.Some?
    ensures |Finished(b).stack| > 0 && LineParsed(start, Finished(b), r)
    ensures Finished(b).errors == b.errors && Ahead(Finished(b)) == Ahead(b)
  {
    hide Everything, Rest, Significant, AllWellFormed, IsSuffix, IsLine, Next, AfterNext, LinesSoFar, WellFormed, TypesOf, Parts;
    FinishingLeads(before, Line, b);
    StartedRest(before, Line);
    LeadsOn(start, before, Finished(b));
    LeadsShrinks(start, before);
    if r.Ok? && b.errors == start.errors && LinesSoFar(start) {
      NodeWellFormed(Line, Top(b));
      OneMoreLine(start, Finished(b), Node(Line, Top(b)));
    }
  }

  lemma PartsOfMore(children: seq<Tree>, t: Tree)
    requires KindOf(t) != Terminal(Whitespace)
    ensures Parts(children + [t]) == Parts(children) + [t]
  {
    assert (children + [t])[..|children|] == children;
  }

  lemma OneMoreLine(a: State, b: State, t: Tree)
    requires LinesSoFar(a) && Ahead(a) != [] && Top(b) == Top(a) + [t]
    requires WellFormed(t) && KindOf(t) == Line && (EndsInNewline(t) || Ahead(b) == [])
    ensures LinesSoFar(b)
  {
    hide WellFormed, Significant, AllWellFormed, Parts, Ahead, Top, EndsInNewline;
    SignificantOfMore(Top(a), t);
    WellFormedMore(Top(a), t);
    PartsOfMore(Top(a), t);
  }

  lemma GrowsShrinks(a: State, b: State, kinds: seq<Kind>)
    requires Grows(a, b, kinds) && kinds != []
    ensures |Rest(b)| < |Rest(a)|
  {}

  lemma AfterNextShorter(tokens: seq<Token>)
    requires Next(tokens).Some?
    ensures |AfterNext(tokens)| < |tokens|
  {}

  lemma DataTypeMore(kinds: seq<Kind>, length: TokenType)
    requires IsDataType(kinds) && IsLength(length)
    ensures IsDataType(kinds + (T(OpenSquare) + T(length) + T(CloseSquare)))
  {
    var longer := kinds + (T(OpenSquare) + T(length) + T(CloseSquare));
    assert longer[..|longer| - 3] == kinds;
  }

  lemma ElementsClosed(kinds: seq<Kind>)
    requires kinds == T(OpenSquare) || (IsElements(kinds) && |kinds| % 2 == 0)
    ensures IsArrayLiteral(kinds + T(CloseSquare))
  {
    var closed := kinds + T(CloseSquare);
    assert closed[..|closed| - 1] == kinds;
  }

  lemma EndFails(start: State, s: State, kinds: seq<Kind>)
    requires Grows(start, s, kinds) && Next(Rest(s)).None? && s.tokens == []
    ensures Fails(start, s, Eof)
  {}

  /** The end of the input comes right after the next token. */
  lemma OneTokenLeft(start: State, s: State, kinds: seq<Kind>)
    requires Grows(start, s, kinds) && Next(AfterNext(Rest(s))).None? && s.tokens == []
    ensures Fails(start, s, Eof)
  {}

  lemma SecondNext(tokens: seq<Token>, first: nat, pos: nat)
    requires first < pos <= |tokens| && SpaceAhead(tokens) == first && SpaceBetween(tokens, first + 1, pos)
    requires pos < |tokens| ==> !IsSpace(tokens[pos])
    ensures Next(AfterNext(tokens)) == if pos < |tokens| then Some(tokens[pos].tt) else None
  {
    hide SpaceAhead, IsSpace;
    var rest := AfterNext(tokens);
    var n := pos - first - 1;
    forall k | 0 <= k < n ensures IsSpace(rest[k]) {
      assert rest[k] == tokens[first + 1 + k];
    }
    SpaceAheadIs(rest, n);
  }

  lemma NoSecond(tokens: seq<Token>)
    requires SpaceAhead(tokens) == |tokens|
    ensures Next(AfterNext(tokens)).None?
  {}
}
