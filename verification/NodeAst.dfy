/** The syntax tree: nodes with a first child and a right sibling. */
module NodeAst {
  import opened Wrappers

  datatype Info = Info(ttype: int, text: string, tokenNumber: Option<int>, lineNum: int, source: string,
                         dataType: Option<int>, attributes: Option<map<string, int>>)

  /** A node with its children and the siblings to its right. */
  datatype Tree = Nil | Node(info: Info, down: Tree, right: Tree)

  /** The chain of siblings that starts at t, each without the rest of the chain. */
  function Siblings(t: Tree): seq<Tree> {
    match t
    case Nil => []
    case Node(info, down, right) => [Node(info, down, Nil)] + Siblings(right)
  }

  /** Hangs `rest` after the last sibling of t. */
  function Append(t: Tree, rest: Tree): Tree {
    match t
    case Nil => rest
    case Node(info, down, right) => Node(info, down, Append(right, rest))
  }

  /** Inserts the chain `node` between t and its next sibling. */
  function InsertSibling(t: Tree, node: Tree): Tree
    requires t.Node?
  {
    Node(t.info, t.down, Append(node, t.right))
  }

  function Alone(t: Tree): Tree {
    match t
    case Nil => Nil
    case Node(info, down, _) => Node(info, down, Nil)
  }

  /** Every node of the tree gets line l. */
  function WithLine(t: Tree, l: int): Tree {
    match t
    case Nil => Nil
    case Node(info, down, right) => Node(info.(lineNum := l), WithLine(down, l), WithLine(right, l))
  }

  /** The node, its first child, the first child of that one, and so on get line l. */
  function WithLineOnSpine(t: Tree, l: int): Tree {
    match t
    case Nil => Nil
    case Node(info, down, right) => Node(info.(lineNum := l), WithLineOnSpine(down, l), right)
  }

  function EmitNode(t: Tree): string {
    match t
    case Nil => ""
    case Node(info, down, right) => " " + info.text + EmitNode(down) + EmitNode(right)
  }

  function Emit(t: Tree): string {
    match t
    case Nil => ""
    case Node(info, down, _) => info.text + EmitNode(down)
  }

  /** The texts of the nodes: each before its children, and these before its siblings. */
  function Preorder(t: Tree): seq<string> {
    match t
    case Nil => []
    case Node(info, down, right) => [info.text] + (Preorder(down) + Preorder(right))
  }

  /** Words with a space before each. */
  function Spaced(words: seq<string>): string {
    if words == [] then "" else " " + words[0] + Spaced(words[1..])
  }

  lemma {:induction false} SpacedAppend(a: seq<string>, b: seq<string>)
    ensures Spaced(a + b) == Spaced(a) + Spaced(b)
    decreases |a|
  {
    if a == [] {
      assert a + b == b;
    } else {
      assert (a + b)[1..] == a[1..] + b;
      SpacedAppend(a[1..], b);
    }
  }

  lemma Regroup(a: string, b: string, c: string)
    ensures a + b + c == a + (b + c)
  {
  }

  lemma SpacedNode(text: string, down: seq<string>, right: seq<string>)
    ensures Spaced([text] + (down + right)) == " " + text + Spaced(down) + Spaced(right)
  {
    var all := [text] + (down + right);
    assert all[0] == text && all[1..] == down + right;
    SpacedAppend(down, right);
    Regroup(" " + text, Spaced(down), Spaced(right));
  }

  /** The text of a tree is the texts of its nodes in preorder with spaces between, without
      the siblings of the root. */
  lemma {:induction false} EmitsPreorder(t: Tree)
    ensures EmitNode(t) == Spaced(Preorder(t))
    ensures t.Node? ==> " " + Emit(t) == Spaced(Preorder(Alone(t)))
    decreases t
  {
    if t.Node? {
      EmitsPreorder(t.down);
      EmitsPreorder(t.right);
      hide Spaced;
      SpacedNode(t.info.text, Preorder(t.down), Preorder(t.right));
      RootPreorder(t);
    }
  }

  lemma RootPreorder(t: Tree)
    requires t.Node? && EmitNode(t.down) == Spaced(Preorder(t.down))
    ensures " " + Emit(t) == Spaced(Preorder(Alone(t)))
  {
    SpacedNode(t.info.text, Preorder(t.down), []);
    hide Spaced;
    Regroup(" ", t.info.text, EmitNode(t.down));
    assert Spaced([]) == "" by { SpacedAppend([], []); }
  }

  lemma {:induction false} AppendSiblings(t: Tree, rest: Tree)
    ensures Siblings(Append(t, rest)) == Siblings(t) + Siblings(rest)
  {
    match t
    case Nil =>
    case Node(info, down, right) => AppendSiblings(right, rest);
  }

  /** The chain becomes the node, all of the inserted chain, then the old rest. */
  lemma InsertSiblingOrder(t: Tree, node: Tree)
    requires t.Node?
    ensures Siblings(InsertSibling(t, node)) == Siblings(t)[..1] + Siblings(node) + Siblings(t)[1..]
  {
    AppendSiblings(node, t.right);
  }

  /** Text does not depend on lines, nor on the siblings of the root. */
  lemma EmitIgnoresLines(t: Tree, l: int)
    ensures EmitNode(WithLine(t, l)) == EmitNode(t)
    ensures Emit(WithLine(Alone(t), l)) == Emit(t)
  {
    if t.Node? {
      EmitIgnoresLines(t.down, l);
      EmitIgnoresLines(t.right, l);
    }
  }

  /** Setting the line "of the tree" without siblings misses every child but the
      first: it sets all lines exactly when no node on the spine of first
      children has a child with another line beside it. */
  lemma {:induction false} SpineIsNotWholeTree(t: Tree, l: int)
    ensures WithLineOnSpine(t, l) == WithLine(t, l) <==> RestHasLine(t, l)
  {
    match t
    case Nil =>
    case Node(info, down, right) =>
      SpineIsNotWholeTree(down, l);
      WithLineFixed(right, l);
  }

  /** Off the spine of first children, every node has line l already. */
  predicate RestHasLine(t: Tree, l: int) {
    match t
    case Nil => true
    case Node(info, down, right) => RestHasLine(down, l) && AllHaveLine(right, l)
  }

  predicate AllHaveLine(t: Tree, l: int) {
    match t
    case Nil => true
    case Node(info, down, right) => info.lineNum == l && AllHaveLine(down, l) && AllHaveLine(right, l)
  }

  lemma {:induction false} WithLineFixed(t: Tree, l: int)
    ensures WithLine(t, l) == t <==> AllHaveLine(t, l)
  {
    match t
    case Nil =>
    case Node(info, down, right) =>
      WithLineFixed(down, l);
      WithLineFixed(right, l);
  }

  /** Every line is set, and nothing else: setting the old line again restores the tree. */
  lemma {:induction false} WithLineSets(t: Tree, l: int, m: int)
    ensures AllHaveLine(WithLine(t, l), l)
    ensures AllHaveLine(t, m) ==> WithLine(WithLine(t, l), m) == t
    decreases t
  {
    if t.Node? {
      WithLineSets(t.down, l, m);
      WithLineSets(t.right, l, m);
    }
  }

  class NodeAST {
    var info: Info
    var down: NodeAST?
    var right: NodeAST?
    ghost var repr: set<NodeAST>

    ghost predicate Valid()
      reads this, repr
      decreases repr
    {
      && this in repr
      && (down != null ==> down in repr && down.repr <= repr - {this} && down.Valid())
      && (right != null ==> right in repr && right.repr <= repr - {this} && right.Valid())
      && (down != null && right != null ==> down.repr !! right.repr)
    }

    ghost function Abs(): (t: Tree)
      requires Valid()
      reads this, repr
      ensures t.Node?
      decreases repr
    {
      Node(info, if down == null then Nil else down.Abs(), if right == null then Nil else right.Abs())
    }

    constructor (info: Info)
      ensures Valid() && fresh(repr) && repr == {this} && this.info == info && down == null && right == null
    {
      this.info, down, right := info, null, null;
      repr := {this};
    }

    method DeepCopy() returns (copy: NodeAST)
      requires Valid()
      ensures copy.Valid() && fresh(copy.repr) && copy.Abs() == Alone(Abs())
    {
      copy := new NodeAST(info);
      if down != null {
        copy.down := down.DeepCopyWithRightSiblings();
        copy.repr := copy.repr + copy.down.repr;
      }
    }

    method DeepCopyWithRightSiblings() returns (copy: NodeAST)
      requires Valid()
      ensures copy.Valid() && fresh(copy.repr) && copy.Abs() == Abs()
      decreases repr
    {
      copy := new NodeAST(info);
      if down != null {
        copy.down := down.DeepCopyWithRightSiblings();
        copy.repr := copy.repr + copy.down.repr;
      }
      if right != null {
        copy.right := right.DeepCopyWithRightSiblings();
        copy.repr := copy.repr + copy.right.repr;
      }
    }

    method DeepSetLineNumWithRightSiblings(l: int)
      requires Valid()
      modifies repr
      ensures Valid() && repr == old(repr) && Abs() == WithLine(old(Abs()), l)
      decreases repr
    {
      info := info.(lineNum := l);
      if down != null {
        down.DeepSetLineNumWithRightSiblings(l);
      }
      if right != null {
        right.DeepSetLineNumWithRightSiblings(l);
      }
    }

    method DeepSetLineNum(l: int)
      requires Valid()
      modifies repr
      ensures Valid() && repr == old(repr) && Abs() == WithLineOnSpine(old(Abs()), l)
      decreases repr
    {
      info := info.(lineNum := l);
      if down != null {
        down.DeepSetLineNum(l);
      }
    }

    method GetLastSibling() returns (last: NodeAST)
      requires Valid()
      ensures last in repr && last.right == null && last.Valid()
      ensures |Siblings(Abs())| > 0 && Alone(last.Abs()) == Siblings(Abs())[|Siblings(Abs())| - 1]
      decreases repr
    {
      if right != null {
        last := right.GetLastSibling();
      } else {
        last := this;
      }
    }

    /** Sets the right sibling of the last sibling, `getLastSibling().right = next`. */
    method SetRightOfLast(next: NodeAST?)
      requires Valid() && (next != null ==> next.Valid() && next.repr !! repr)
      modifies repr
      ensures Valid() && repr == old(repr) + (if next == null then {} else next.repr)
      ensures next != null ==> next.Valid() && next.repr == old(next.repr)
      ensures Abs() == Append(old(Abs()), if next == null then Nil else old(next.Abs()))
      decreases repr
    {
      if right != null {
        right.SetRightOfLast(next);
      } else {
        right := next;
      }
      if next != null {
        repr := repr + next.repr;
      }
    }

    /** Inserts `node` and its siblings ahead of the next sibling. */
    method AddSibling(node: NodeAST?)
      requires Valid() && (node != null ==> node.Valid() && node.repr !! repr)
      modifies repr, if node == null then {} else node.repr
      ensures Valid()
      ensures repr == old(repr) + (if node == null then {} else old(node.repr))
      ensures Abs() == if node == null then old(Abs()) else InsertSibling(old(Abs()), old(node.Abs()))
    {
      if node == null {
        return;
      }
      var next := right;
      node.SetRightOfLast(next);
      right := node;
      repr := repr + node.repr;
    }

    method NumberOfChildren() returns (count: nat)
      requires Valid()
      ensures count == |Siblings(Abs().down)|
    {
      count := 0;
      var child := down;
      while child != null
        invariant child != null ==> child.Valid()
        invariant count + (if child == null then 0 else |Siblings(child.Abs())|) == |Siblings(Abs().down)|
        decreases if child == null then {} else child.repr
      {
        count := count + 1;
        child := child.right;
      }
    }

    method EmitASTNodeToString() returns (s: string)
      requires Valid()
      ensures s == EmitNode(Abs())
      decreases repr
    {
      s := " " + info.text;
      if down != null {
        var below := down.EmitASTNodeToString();
        s := s + below;
      }
      if right != null {
        var after := right.EmitASTNodeToString();
        s := s + after;
      }
    }

    method EmitTreeToString() returns (s: string)
      requires Valid()
      ensures s == Emit(Abs())
    {
      s := info.text;
      if down != null {
        var below := down.EmitASTNodeToString();
        s := s + below;
      }
    }
  }

  /** Renumbering a copy leaves the original as it was, and both emit the same text. */
  method RenumberedCopy(n: NodeAST, l: int) returns (copy: NodeAST, text: string, copied: string)
    requires n.Valid()
    ensures n.Valid() && n.repr == old(n.repr) && n.Abs() == old(n.Abs())
    ensures copy.Valid() && fresh(copy.repr) && copy.Abs() == WithLine(Alone(n.Abs()), l)
    ensures text == copied == Emit(n.Abs())
  {
    copy := n.DeepCopy();
    copy.DeepSetLineNumWithRightSiblings(l);
    text := n.EmitTreeToString();
    copied := copy.EmitTreeToString();
    EmitIgnoresLines(n.Abs(), l);
  }
}
