/** Binary trees as values: in-order listing, the insertion descent, and rotations. */
module TimerTree {
  datatype Tree<T> = Nil | Node(left: Tree<T>, item: T, right: Tree<T>)

  function InOrder<T>(t: Tree<T>): seq<T> {
    match t
    case Nil => []
    case Node(l, x, r) => InOrder(l) + [x] + InOrder(r)
  }

  ghost predicate Distinct<T>(s: seq<T>) {
    forall i, j :: 0 <= i < j < |s| ==> s[i] != s[j]
  }

  /** The tree after hanging `x` where the descent ends; `S` holds the items that send it left. */
  ghost function Graft<T>(t: Tree<T>, x: T, S: set<T>): Tree<T> {
    match t
    case Nil => Node(Nil, x, Nil)
    case Node(l, y, r) => if y in S then Node(Graft(l, x, S), y, r) else Node(l, y, Graft(r, x, S))
  }

  /** The parent at which the descent ends. */
  ghost function LastOf<T>(t: Tree<T>, S: set<T>): (y: T)
    requires t.Node?
    ensures y in InOrder(t)
  {
    var child := if t.item in S then t.left else t.right;
    if child.Nil? then t.item else LastOf(child, S)
  }

  /** When the in-order listing splits into `a`, not in `S`, and `b`, in `S`, the descent ends
      exactly at the split, whatever the shape of the tree. */
  lemma {:induction false} GraftAtSplit<T>(t: Tree<T>, x: T, S: set<T>, a: seq<T>, b: seq<T>)
    requires InOrder(t) == a + b
    requires forall y :: y in a ==> y !in S
    requires forall y :: y in b ==> y in S
    ensures InOrder(Graft(t, x, S)) == a + [x] + b
  {
    if t.Node? {
      var l, y, r := InOrder(t.left), t.item, InOrder(t.right);
      assert (a + b)[|l|] == y;
      if y in S {
        var b' := b[..|l| - |a|];
        assert l == (a + b)[..|l|] == a + b';
        assert b == (l + [y] + r)[|a|..] == b' + [y] + r;
        GraftAtSplit(t.left, x, S, a, b');
      } else {
        var a' := a[|l| + 1..];
        assert r == (a + b)[|l| + 1..] == a' + b;
        assert a == (l + [y] + r)[..|a|] == l + [y] + a';
        GraftAtSplit(t.right, x, S, a', b);
      }
    }
  }

  // ----- rotations: why relinking by a balanced-tree library leaves the listing alone

  datatype Turn = TurnLeft | TurnRight

  /** Rotates at the node reached by `path` (true = go left); leaves the tree alone where that is impossible. */
  function RotateAt<T>(t: Tree<T>, path: seq<bool>, turn: Turn): Tree<T> {
    if t.Nil? then t
    else if path != [] then
      if path[0] then Node(RotateAt(t.left, path[1..], turn), t.item, t.right)
      else Node(t.left, t.item, RotateAt(t.right, path[1..], turn))
    else if turn.TurnLeft? && t.right.Node? then
      Node(Node(t.left, t.item, t.right.left), t.right.item, t.right.right)
    else if turn.TurnRight? && t.left.Node? then
      Node(t.left.left, t.left.item, Node(t.left.right, t.item, t.right))
    else t
  }

  function Opposite(turn: Turn): Turn {
    if turn.TurnLeft? then TurnRight else TurnLeft
  }

  /** A rotation swaps a node with its child and is undone by the opposite one. */
  lemma {:induction false} RotationUndone<T>(t: Tree<T>, path: seq<bool>, turn: Turn)
    ensures forall a: Tree<T>, x: T, b: Tree<T>, y: T, c: Tree<T> :: t == Node(a, x, Node(b, y, c)) ==>
              RotateAt(t, [], TurnLeft) == Node(Node(a, x, b), y, c)
    ensures RotateAt(t, path, turn) != t ==> RotateAt(RotateAt(t, path, turn), path, Opposite(turn)) == t
  {
    if t.Node? && path != [] {
      if path[0] {
        RotationUndone(t.left, path[1..], turn);
      } else {
        RotationUndone(t.right, path[1..], turn);
      }
    }
  }

  function RotateAll<T>(t: Tree<T>, turns: seq<(seq<bool>, Turn)>): Tree<T>
    decreases |turns|
  {
    if turns == [] then t else RotateAll(RotateAt(t, turns[0].0, turns[0].1), turns[1..])
  }

  lemma {:induction false} RotationKeepsOrder<T>(t: Tree<T>, path: seq<bool>, turn: Turn)
    ensures InOrder(RotateAt(t, path, turn)) == InOrder(t)
  {
    if t.Nil? {
    } else if path != [] {
      RotationKeepsOrder(t.left, path[1..], turn);
      RotationKeepsOrder(t.right, path[1..], turn);
    }
  }

  /** Any amount of rotating keeps the listing. */
  lemma {:induction false} RotationsKeepOrder<T>(t: Tree<T>, turns: seq<(seq<bool>, Turn)>)
    ensures InOrder(RotateAll(t, turns)) == InOrder(t)
    decreases |turns|
  {
    if turns != [] {
      RotationKeepsOrder(t, turns[0].0, turns[0].1);
      RotationsKeepOrder(RotateAt(t, turns[0].0, turns[0].1), turns[1..]);
    }
  }
}
