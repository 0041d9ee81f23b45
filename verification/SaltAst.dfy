/** The typed view of syntax trees (simulatron-salt, ast.rs): looking up children by kind. */
module SaltAst {
  import opened Wrappers
  import opened SaltGrammar

  /** The first child of a kind. */
  function FindChild(children: seq<Tree>, kind: Kind): (child: Option<Tree>)
    ensures child.Some? ==> child.value in children && KindOf(child.value) == kind
    ensures child.None? ==> forall k :: 0 <= k < |children| ==> KindOf(children[k]) != kind
  {
    if children == [] then None
    else if KindOf(children[0]) == kind then Some(children[0])
    else FindChild(children[1..], kind)
  }

  predicate Has(children: seq<Tree>, kind: Kind) {
    FindChild(children, kind).Some?
  }

  /** Every unwrapped lookup of the node's accessors finds a child, and one of the alternatives that the
      accessors distinguish is there. */
  predicate AccessorsSucceed(t: Tree) {
    match t
    case Leaf(_) => true
    case Node(kind, children) =>
      match kind
      case ConstDecl => Has(children, Terminal(Identifier)) && Has(children, Literal)
      case DataDecl => Has(children, Terminal(Identifier)) && Has(children, DataType) && Has(children, ArrayLiteral)
      case DataType =>
        Has(children, Terminal(KwByte)) || Has(children, Terminal(KwHalf)) || Has(children, Terminal(KwWord))
      case Label => Has(children, Terminal(Identifier))
      case Instruction => Has(children, Terminal(Identifier))
      case Operand => Has(children, Terminal(Identifier)) || Has(children, Literal)
      case ArrayLiteral =>
        Has(children, Literal) || Has(children, Terminal(StringLiteral)) || Has(children, Terminal(OpenSquare))
      case Literal =>
        || Has(children, Terminal(IntLiteral)) || Has(children, Terminal(FloatLiteral))
        || Has(children, Terminal(CharLiteral)) || Has(children, Terminal(Identifier))
      case _ => true
  }

  /** `t` is `root` or a part of it. */
  predicate Within(t: Tree, root: Tree)
    decreases root
  {
    t == root || match root
      case Leaf(_) => false
      case Node(_, children) => exists k :: 0 <= k < |children| && Within(t, children[k])
  }

  lemma {:induction false} EachWellFormed(children: seq<Tree>, k: nat)
    requires AllWellFormed(children) && k < |children|
    ensures WellFormed(children[k])
    decreases |children|
  {
    if k < |children| - 1 {
      EachWellFormed(children[..|children| - 1], k);
    }
  }

  lemma {:induction false} PartsAreWellFormed(t: Tree, root: Tree)
    requires WellFormed(root) && Within(t, root)
    ensures WellFormed(t)
    decreases root
  {
    hide Follows;
    if t != root {
      var k :| 0 <= k < |root.children| && Within(t, root.children[k]);
      EachWellFormed(root.children, k);
      PartsAreWellFormed(t, root.children[k]);
    }
  }

  lemma {:induction false} SignificantIsThere(children: seq<Tree>, i: nat)
    requires i < |Significant(children)|
    ensures exists k :: 0 <= k < |children| && KindOf(children[k]) == Significant(children)[i]
    decreases |children|
  {
    var before := children[..|children| - 1];
    if i < |Significant(before)| {
      SignificantIsThere(before, i);
      var k :| 0 <= k < |before| && KindOf(before[k]) == Significant(before)[i];
      assert KindOf(children[k]) == Significant(children)[i];
    } else {
      assert KindOf(children[|children| - 1]) == Significant(children)[i];
    }
  }

  lemma SignificantIsFound(children: seq<Tree>, i: nat)
    requires i < |Significant(children)|
    ensures Has(children, Significant(children)[i])
  {
    hide Significant;
    SignificantIsThere(children, i);
  }

  lemma {:induction false} DataTypeHasBase(s: seq<Kind>)
    requires IsDataType(s)
    ensures |s| > 0 && s[0].Terminal? && IsBaseType(s[0].tt)
    decreases |s|
  {
    if |s| > 1 {
      DataTypeHasBase(s[..|s| - 3]);
    }
  }

  lemma WellFormedHasChildren(t: Tree)
    requires WellFormed(t)
    ensures AccessorsSucceed(t)
  {
    hide Significant, FindChild;
    if t.Node? {
      var children := t.children;
      var s := Significant(children);
      forall i | 0 <= i < |s| ensures Has(children, s[i]) {
        SignificantIsFound(children, i);
      }
      NodeHasChildren(t.kind, children, s);
    }
  }

  /** What the grammar's rule for a kind guarantees the accessors. */
  lemma NodeHasChildren(kind: Kind, children: seq<Tree>, s: seq<Kind>)
    requires Follows(kind, s) && forall i :: 0 <= i < |s| ==> Has(children, s[i])
    ensures AccessorsSucceed(Node(kind, children))
  {
    hide Has;
    match kind {
      case ConstDecl => assert s[|s| - 2] == Terminal(Identifier) && s[|s| - 1] == Literal;
      case DataDecl =>
        assert s[|s| - 3] == DataType && s[|s| - 2] == Terminal(Identifier) && s[|s| - 1] == ArrayLiteral;
      case DataType => DataTypeHasBase(s);
      case Label => assert s[|s| - 2] == Terminal(Identifier);
      case Instruction => assert s[0] == Terminal(Identifier);
      case Operand => assert s[0] == Terminal(Identifier) || s[0] == Literal;
      case ArrayLiteral => assert s[0] == Literal || s[0] == Terminal(StringLiteral) || s[0] == Terminal(OpenSquare);
      case Literal =>
        assert |s| == 4 ==> s[2] == Terminal(Identifier);
        assert |s| == 1 ==> s[0].Terminal?;
      case _ =>
    }
  }

  /** In a tree that follows the grammar no accessor of any node can fail to find its child. */
  lemma AccessorsCannotFail(t: Tree, root: Tree)
    requires WellFormed(root) && Within(t, root)
    ensures AccessorsSucceed(t)
  {
    hide AccessorsSucceed, WellFormed, Within;
    PartsAreWellFormed(t, root);
    WellFormedHasChildren(t);
  }
}
