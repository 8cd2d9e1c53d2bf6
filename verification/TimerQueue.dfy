/** The timer queue as the code keeps it: nodes linked into a search tree under 32-bit keys. */
module TimerQueue {
  import opened WrapTime
  import opened TimerTree
  import opened TimerSpec
  import opened TimerProcess

  class TimerNode {
    var left: TimerNode?
    var right: TimerNode?
    var parent: TimerNode?
    var key: Word
    var interval: int
    var active: bool

    constructor ()
      ensures !active
    {
      left, right, parent := null, null, null;
      key, interval, active := 0, 0, false;
    }
  }

  // ----- links and the tree they spell

  ghost function Members(t: Tree<TimerNode>): (m: set<TimerNode>)
    ensures forall n :: n in m ==> n in InOrder(t)
    ensures forall n :: n in InOrder(t) ==> n in m
  {
    if t.Nil? then {} else Members(t.left) + {t.item} + Members(t.right)
  }

  function RootOf(t: Tree<TimerNode>): TimerNode? {
    if t.Nil? then null else t.item
  }

  /** The link fields of one node. */
  datatype Links = Links(left: TimerNode?, right: TimerNode?, parent: TimerNode?)

  /** The links of node `n` in tree `t` hanging below `up`. */
  function LinksOf(t: Tree<TimerNode>, up: TimerNode?, n: TimerNode): Links
    requires n in InOrder(t)
  {
    if n == t.item then Links(RootOf(t.left), RootOf(t.right), up)
    else if n in InOrder(t.left) then LinksOf(t.left, t.item, n)
    else LinksOf(t.right, t.item, n)
  }

  ghost predicate Linked(t: Tree<TimerNode>, up: TimerNode?)
    reads Members(t)`left, Members(t)`right, Members(t)`parent
  {
    forall n :: n in Members(t) ==> Links(n.left, n.right, n.parent) == LinksOf(t, up, n)
  }

  lemma PartsApart<T>(l: seq<T>, x: T, r: seq<T>)
    requires Distinct(l + [x] + r)
    ensures Distinct(l) && Distinct(r) && x !in l && x !in r
    ensures forall y :: y in l ==> y !in r
  {
    var s := l + [x] + r;
    assert forall i :: 0 <= i < |l| ==> l[i] == s[i];
    assert forall i :: 0 <= i < |r| ==> r[i] == s[|l| + 1 + i];
    assert s[|l|] == x;
  }

  lemma InsertDistinct<T>(a: seq<T>, x: T, b: seq<T>)
    requires Distinct(a + b) && x !in a + b
    ensures Distinct(a + [x] + b)
  {
    var s, s' := a + b, a + [x] + b;
    assert forall i :: 0 <= i < |a| ==> s'[i] == s[i];
    assert forall i :: |a| < i < |s'| ==> s'[i] == s[i - 1];
  }

  lemma SubtreesLinked(t: Tree<TimerNode>, up: TimerNode?)
    requires t.Node? && Distinct(InOrder(t))
    ensures Distinct(InOrder(t.left)) && Distinct(InOrder(t.right))
    ensures t.item !in InOrder(t.left) && t.item !in InOrder(t.right)
    ensures forall n :: n in InOrder(t.left) ==> n !in InOrder(t.right) && LinksOf(t, up, n) == LinksOf(t.left, t.item, n)
    ensures forall n :: n in InOrder(t.right) ==> n !in InOrder(t.left) && LinksOf(t, up, n) == LinksOf(t.right, t.item, n)
  {
    PartsApart(InOrder(t.left), t.item, InOrder(t.right));
  }

  /** The tree spelled by the links below `p`. */
  function Spelled(p: TimerNode?, ghost t: Tree<TimerNode>, ghost up: TimerNode?): (r: Tree<TimerNode>)
    requires Distinct(InOrder(t)) && Linked(t, up) && p == RootOf(t)
    reads Members(t)`left, Members(t)`right, Members(t)`parent
    ensures r == t
    decreases t
  {
    if p == null then Nil
    else
      var n: TimerNode := p;
      assert n in Members(t) && LinksOf(t, up, n) == Links(n.left, n.right, n.parent);
      SubtreesLinked(t, up);
      Node(Spelled(n.left, t.left, n), n, Spelled(n.right, t.right, n))
  }

  method WriteTree(t: Tree<TimerNode>)
    modifies Members(t)`left, Members(t)`right, Members(t)`parent
    ensures Linked(t, null)
  {
    forall n | n in InOrder(t) { n.left := LinksOf(t, null, n).left; }
    forall n | n in InOrder(t) { n.right := LinksOf(t, null, n).right; }
    forall n | n in InOrder(t) { n.parent := LinksOf(t, null, n).parent; }
  }

  /** Hanging `x` where the descent ends changes one child link and nothing else. */
  lemma {:induction false} LinksAfterGraft(t: Tree<TimerNode>, up: TimerNode?, x: TimerNode, S: set<TimerNode>, n: TimerNode)
    requires t.Node? && Distinct(InOrder(t)) && x !in InOrder(t) && n in InOrder(Graft(t, x, S))
    ensures n == x || n in InOrder(t)
    ensures var y := LastOf(t, S);
            LinksOf(Graft(t, x, S), up, n) ==
              if n == x then Links(null, null, y)
              else if n != y then LinksOf(t, up, n)
              else if y in S then LinksOf(t, up, y).(left := x)
              else LinksOf(t, up, y).(right := x)
    ensures LastOf(t, S) in S ==> LinksOf(t, up, LastOf(t, S)).left == null
    ensures LastOf(t, S) !in S ==> LinksOf(t, up, LastOf(t, S)).right == null
    decreases t
  {
    SubtreesLinked(t, up);
    GraftMembers(t.left, x, S, n);
    GraftMembers(t.right, x, S, n);
    GraftMembers(t.left, x, S, x);
    GraftMembers(t.right, x, S, x);
    if t.item in S {
      if t.left.Node? {
        LinksAfterGraft(t.left, t.item, x, S, if n in InOrder(Graft(t.left, x, S)) then n else x);
      }
    } else {
      if t.right.Node? {
        LinksAfterGraft(t.right, t.item, x, S, if n in InOrder(Graft(t.right, x, S)) then n else x);
      }
    }
  }

  lemma {:induction false} GraftMembers(t: Tree<TimerNode>, x: TimerNode, S: set<TimerNode>, n: TimerNode)
    ensures n in InOrder(Graft(t, x, S)) <==> n in InOrder(t) || n == x
  {
    if t.Node? {
      GraftMembers(t.left, x, S, n);
      GraftMembers(t.right, x, S, n);
    }
  }

  // ----- sequences without one element, and trees that list a given sequence

  function Without<T(==)>(s: seq<T>, x: T): seq<T> {
    if s == [] then []
    else if s[0] == x then Without(s[1..], x)
    else [s[0]] + Without(s[1..], x)
  }

  lemma {:induction false} WithoutMember<T>(s: seq<T>, x: T, y: T)
    ensures y in Without(s, x) <==> y in s && y != x
  {
    if s != [] {
      WithoutMember(s[1..], x, y);
      assert s == [s[0]] + s[1..];
    }
  }

  lemma {:induction false} WithoutDistinct<T>(s: seq<T>, x: T)
    requires Distinct(s)
    ensures Distinct(Without(s, x))
  {
    if s != [] {
      WithoutDistinct(s[1..], x);
      var rest := Without(s[1..], x);
      forall i | 0 <= i < |rest| ensures s[0] != rest[i] {
        WithoutMember(s[1..], x, rest[i]);
      }
    }
  }

  ghost function Spine<T>(s: seq<T>): (t: Tree<T>)
    ensures InOrder(t) == s
  {
    if s == [] then Nil else Node(Nil, s[0], Spine(s[1..]))
  }

  function Ids<T>(q: seq<Entry<T>>): (ids: seq<T>)
    ensures |ids| == |q| && forall i :: 0 <= i < |q| ==> ids[i] == q[i].id
  {
    seq(|q|, i requires 0 <= i < |q| => q[i].id)
  }

  lemma {:induction false} IdsOfDrop<T>(q: seq<Entry<T>>, id: T)
    ensures Ids(Drop(q, id)) == Without(Ids(q), id)
  {
    if q != [] {
      IdsOfDrop(q[1..], id);
      assert Ids(q)[1..] == Ids(q[1..]);
    }
  }

  // ----- the queue

  /** The entry's node carries its due time as a 32-bit key, and its interval. */
  ghost predicate Holds(e: Entry<TimerNode>)
    reads e.id`key, e.id`interval
  {
    e.id.key == Key(e.due) && e.id.interval == e.interval
  }

  /** Every entry but that of `odd` is held by its node. */
  ghost predicate Booked(q: seq<Entry<TimerNode>>, known: set<TimerNode>, odd: TimerNode?)
    reads known`key, known`interval
  {
    forall i :: 0 <= i < |q| ==> q[i].id in known && (q[i].id != odd ==> Holds(q[i]))
  }

  /** A node is flagged active exactly when it is listed. */
  ghost predicate Flagged(list: seq<TimerNode>, known: set<TimerNode>)
    reads known`active
  {
    forall n :: n in known ==> (n.active <==> n in list)
  }

  lemma BookedDrop(q: seq<Entry<TimerNode>>, known: set<TimerNode>, node: TimerNode)
    requires Booked(q, known, node)
    ensures Booked(Drop(q, node), known, null)
  {
    var r := Drop(q, node);
    forall i | 0 <= i < |r| ensures r[i].id in known && Holds(r[i]) {
      DropMember(q, node, r[i]);
    }
  }

  lemma BookedInsert(q: seq<Entry<TimerNode>>, known: set<TimerNode>, e: Entry<TimerNode>)
    requires Booked(q, known, null) && e.id in known && Holds(e)
    ensures Booked(Insert(q, e), known, null)
  {
  }

  lemma IdsConcat<T>(a: seq<Entry<T>>, b: seq<Entry<T>>)
    ensures Ids(a + b) == Ids(a) + Ids(b)
  {
  }

  lemma IdsOfInsert<T>(q: seq<Entry<T>>, e: Entry<T>)
    ensures var k := Slot(q, e);
            Ids(q) == Ids(q[..k]) + Ids(q[k..]) && Ids(Insert(q, e)) == Ids(q[..k]) + [e.id] + Ids(q[k..])
  {
    var k := Slot(q, e);
    assert q == q[..k] + q[k..];
    IdsConcat(q[..k], q[k..]);
    IdsConcat(q[..k] + [e], q[k..]);
    LogAppend(q[..k], e);
  }

  /** All due times lie within 2^31 of `due`, on the right side for a signed difference. */
  ghost predicate Near<T>(q: seq<Entry<T>>, due: int) {
    forall i :: 0 <= i < |q| ==> -HALF <= due - q[i].due < HALF
  }

  /** The wrapped comparison with each pending node says on which side of the slot it lies. */
  lemma SideAgrees(s: State<TimerNode>, known: set<TimerNode>, e: Entry<TimerNode>, i: nat)
    requires WellFormed(s) && Booked(s.q, known, null) && e.born == s.next && Near(s.q, e.due) && i < |s.q|
    ensures s.q[i].id in known && (i < Slot(s.q, e) <==> Diff(Key(e.due), s.q[i].id.key) >= 0)
  {
    var k := Slot(s.q, e);
    DiffIsTrueDifference(e.due, s.q[i].due);
    if k < i {
      assert Before(s.q[k], s.q[i]);
    }
  }

  /** Where the unbounded queue puts a new timer is where the wrapped comparisons put its node. */
  lemma SplitAgrees(s: State<TimerNode>, known: set<TimerNode>, e: Entry<TimerNode>)
    requires WellFormed(s) && Booked(s.q, known, null) && e.born == s.next && Near(s.q, e.due)
    ensures forall n :: n in Ids(s.q[..Slot(s.q, e)]) ==> n in known && Diff(Key(e.due), n.key) >= 0
    ensures forall n :: n in Ids(s.q[Slot(s.q, e)..]) ==> n in known && Diff(Key(e.due), n.key) < 0
  {
    var k := Slot(s.q, e);
    var a, b := Ids(s.q[..k]), Ids(s.q[k..]);
    forall n | n in a ensures n in known && Diff(Key(e.due), n.key) >= 0 {
      var i :| 0 <= i < |a| && a[i] == n;
      SideAgrees(s, known, e, i);
    }
    forall n | n in b ensures n in known && Diff(Key(e.due), n.key) < 0 {
      var i :| 0 <= i < |b| && b[i] == n;
      SideAgrees(s, known, e, k + i);
    }
  }

  /** Callbacks use known nodes, and add only timers due after `now` and within the window. */
  ghost predicate WorldFits(world: World<TimerNode>, known: set<TimerNode>, now: int, hi: int): (fits: bool)
    ensures fits ==> WorldDueAfter(world, now)
  {
    forall k: nat, i :: 0 <= i < |world(k)| ==> world(k)[i].id in known && CmdFits(world(k)[i], now, hi)
  }

  class TimerQueue {
    var root: TimerNode?
    /** The nodes ever used with this queue. */
    ghost const known: set<TimerNode>
    /** The tree spelled by the links. */
    ghost var shape: Tree<TimerNode>
    /** The same queue over unbounded time. */
    ghost var pending: State<TimerNode>

    ghost predicate Shaped()
      reads this`root, this`shape, known`left, known`right, known`parent
    {
      && Members(shape) <= known
      && Distinct(InOrder(shape))
      && root == RootOf(shape)
      && Linked(shape, null)
    }

    /** The links list the pending timers in order, and every node but `odd` holds its timer's 32-bit due
        time. A node is flagged active exactly when it is linked. */
    ghost predicate ValidExcept(odd: TimerNode?)
      reads this, known
    {
      && Shaped()
      && WellFormed(pending)
      && InOrder(shape) == Ids(pending.q)
      && Flagged(InOrder(shape), known)
      && Booked(pending.q, known, odd)
    }

    ghost predicate Valid()
      reads this, known
    {
      ValidExcept(null)
    }

    constructor (ghost nodes: set<TimerNode>)
      requires forall n :: n in nodes ==> !n.active
      ensures Valid() && known == nodes && pending == State([], 0)
    {
      root := null;
      known := nodes;
      shape := Nil;
      pending := State([], 0);
    }

    // ----- the balanced-tree library: any relinking that keeps the listing

    /** Rebalancing: the links end up spelling some tree with the same listing. */
    method Rebalance()
      requires Shaped()
      modifies this`root, this`shape, known`left, known`right, known`parent
      ensures Shaped() && InOrder(shape) == old(InOrder(shape))
    {
      var t := Spelled(root, shape, null);
      var t' :| InOrder(t') == InOrder(t);
      assert Members(t') == Members(t);
      WriteTree(t');
      root := RootOf(t');
      shape := t';
    }

    /** ffrbt_rm: the links end up spelling some tree that lists the other nodes. It never looks at keys. */
    method Unlink(node: TimerNode)
      requires Shaped()
      modifies this`root, this`shape, known`left, known`right, known`parent
      ensures Shaped() && InOrder(shape) == Without(old(InOrder(shape)), node)
    {
      var t := Spelled(root, shape, null);
      assert InOrder(Spine(Without(InOrder(t), node))) == Without(InOrder(t), node);
      var t' :| InOrder(t') == Without(InOrder(t), node);
      WithoutDistinct(InOrder(t), node);
      forall n | n in Members(t') ensures n in known {
        WithoutMember(InOrder(t), node, n);
        assert n in Members(t);
      }
      WriteTree(t');
      root := RootOf(t');
      shape := t';
    }

    /** The descent of _fftmrq_node_insert, comparing wrapped differences. */
    method FindParent(key: Word, ghost S: set<TimerNode>) returns (parent: TimerNode, goLeft: bool)
      requires Shaped() && root != null
      requires forall n :: n in Members(shape) ==> (n in S <==> Diff(key, n.key) < 0)
      ensures shape.Node? && parent == LastOf(shape, S) && goLeft == (parent in S)
    {
      parent := root;
      goLeft := Diff(key, parent.key) < 0;
      ghost var cur, up := shape, null;
      var child := if goLeft then parent.left else parent.right;
      while child != null
        invariant cur.Node? && parent == cur.item && Distinct(InOrder(cur)) && Linked(cur, up)
        invariant Members(cur) <= Members(shape)
        invariant LastOf(cur, S) == LastOf(shape, S)
        invariant goLeft == (parent in S)
        invariant child == if goLeft then parent.left else parent.right
        decreases cur
      {
        SubtreesLinked(cur, up);
        assert LinksOf(cur, up, parent) == Links(parent.left, parent.right, parent.parent);
        cur, up := if goLeft then cur.left else cur.right, parent;
        parent := child;
        goLeft := Diff(key, parent.key) < 0;
        child := if goLeft then parent.left else parent.right;
      }
      assert LinksOf(cur, up, parent) == Links(parent.left, parent.right, parent.parent);
    }

    /** _fftmrq_node_insert: if the nodes that sort the new one to their right are listed before those
        that sort it to their left, the new node ends up listed between them. */
    method Hang(node: TimerNode, ghost a: seq<TimerNode>, ghost b: seq<TimerNode>)
      requires Shaped() && node in known && node !in InOrder(shape)
      requires InOrder(shape) == a + b
      requires forall n :: n in a ==> n in known && Diff(node.key, n.key) >= 0
      requires forall n :: n in b ==> n in known && Diff(node.key, n.key) < 0
      modifies this`root, this`shape, known`left, known`right, known`parent
      ensures Shaped() && InOrder(shape) == a + [node] + b
    {
      ghost var S := set n | n in Members(shape) && Diff(node.key, n.key) < 0;
      ghost var was := shape;
      GraftAtSplit(was, node, S, a, b);
      if root == null {
        root := node;
        node.parent := null;
      } else {
        var parent, goLeft := FindParent(node.key, S);
        if goLeft {
          parent.left := node;
        } else {
          parent.right := node;
        }
        node.parent := parent;
      }
      node.left, node.right := null, null;
      shape := Graft(was, node, S);
      forall n | n in Members(shape) ensures n in known && Links(n.left, n.right, n.parent) == LinksOf(shape, null, n) {
        if was.Node? {
          LinksAfterGraft(was, null, node, S, n);
        }
      }
      InsertDistinct(a, node, b);
    }

    /** ffrbt_insert: hang the node, then rebalance. */
    method Link(node: TimerNode, ghost a: seq<TimerNode>, ghost b: seq<TimerNode>)
      requires Shaped() && node in known && node !in InOrder(shape)
      requires InOrder(shape) == a + b
      requires forall n :: n in a ==> n in known && Diff(node.key, n.key) >= 0
      requires forall n :: n in b ==> n in known && Diff(node.key, n.key) < 0
      modifies this`root, this`shape, known`left, known`right, known`parent
      ensures Shaped() && InOrder(shape) == a + [node] + b
    {
      Hang(node, a, b);
      Rebalance();
    }

    /** ffrbt_node_min: the leftmost node is the first one listed. */
    method Min() returns (it: TimerNode?)
      requires Shaped()
      ensures it == null <==> InOrder(shape) == []
      ensures it != null ==> it == InOrder(shape)[0]
    {
      it := root;
      if it != null {
        ghost var cur, up := shape, null;
        assert it in Members(cur);
        while it.left != null
          invariant cur.Node? && it == cur.item && Distinct(InOrder(cur)) && Linked(cur, up)
          invariant InOrder(cur)[0] == InOrder(shape)[0] && it in known && Members(cur) <= known
          decreases cur
        {
          SubtreesLinked(cur, up);
          assert LinksOf(cur, up, it) == Links(it.left, it.right, it.parent);
          cur, up := cur.left, it;
          it := it.left;
        }
        assert LinksOf(cur, up, it) == Links(it.left, it.right, it.parent);
      }
    }

    // ----- the operations

    /** ffrbt_rm and `active = 0`. */
    method TakeOut(node: TimerNode)
      requires Shaped() && Flagged(InOrder(shape), known) && node in known
      modifies this`root, this`shape, known`left, known`right, known`parent, node`active
      ensures Shaped() && Flagged(InOrder(shape), known) && !node.active
      ensures InOrder(shape) == Without(old(InOrder(shape)), node)
    {
      ghost var list := InOrder(shape);
      Unlink(node);
      node.active := false;
      forall n | n in known ensures n.active <==> n in InOrder(shape) {
        WithoutMember(list, node, n);
      }
    }

    /** ffrbt_insert and `active = 1`. */
    method PutIn(node: TimerNode, ghost a: seq<TimerNode>, ghost b: seq<TimerNode>)
      requires Shaped() && Flagged(InOrder(shape), known) && node in known && !node.active
      requires InOrder(shape) == a + b
      requires forall n :: n in a ==> n in known && Diff(node.key, n.key) >= 0
      requires forall n :: n in b ==> n in known && Diff(node.key, n.key) < 0
      modifies this`root, this`shape, known`left, known`right, known`parent, node`active
      ensures Shaped() && Flagged(InOrder(shape), known) && node.active
      ensures InOrder(shape) == a + [node] + b
    {
      Link(node, a, b);
      node.active := true;
    }

    /** Take the node out, given what the unbounded queue becomes. */
    method TakeOutAs(node: TimerNode, ghost next: State<TimerNode>)
      requires Shaped() && Flagged(InOrder(shape), known) && node in known
      requires WellFormed(next) && Ids(next.q) == Without(InOrder(shape), node) && Booked(next.q, known, null)
      modifies this`root, this`shape, this`pending, known`left, known`right, known`parent, node`active
      ensures Valid() && !node.active && pending == next
    {
      TakeOut(node);
      assert Shaped() && Flagged(InOrder(shape), known);
      assert InOrder(shape) == Ids(next.q) && Booked(next.q, known, null);
      pending := next;
    }

    /** Put the node in, given what the unbounded queue becomes. */
    method PutInAs(node: TimerNode, ghost a: seq<TimerNode>, ghost b: seq<TimerNode>, ghost next: State<TimerNode>)
      requires Shaped() && Flagged(InOrder(shape), known) && node in known && !node.active
      requires InOrder(shape) == a + b
      requires forall n :: n in a ==> n in known && Diff(node.key, n.key) >= 0
      requires forall n :: n in b ==> n in known && Diff(node.key, n.key) < 0
      requires WellFormed(next) && Ids(next.q) == a + [node] + b && Booked(next.q, known, null)
      modifies this`root, this`shape, this`pending, known`left, known`right, known`parent, node`active
      ensures Valid() && node.active && pending == next
    {
      PutIn(node, a, b);
      assert Booked(next.q, known, null);
      pending := next;
    }

    method Dequeue(node: TimerNode)
      requires node in known && node.active && ValidExcept(node)
      modifies this`root, this`shape, this`pending, known`left, known`right, known`parent, node`active
      ensures Valid() && !node.active && pending == TimerSpec.Remove(old(pending), node)
    {
      DropMatches(pending, node);
      BookedDrop(pending.q, known, node);
      TakeOutAs(node, TimerSpec.Remove(pending, node));
    }

    /** fftimerqueue_remove; works on links alone, so the node's key may already be a new one. */
    method Remove(node: TimerNode) returns (removed: bool)
      requires node in known && ValidExcept(node)
      modifies this`root, this`shape, this`pending, known`left, known`right, known`parent, node`active
      ensures Valid() && !node.active
      ensures pending == TimerSpec.Remove(old(pending), node)
      ensures removed <==> old(node.active)
    {
      removed := node.active;
      if node.active {
        Dequeue(node);
      } else {
        DropMatches(pending, node);
        BookedDrop(pending.q, known, node);
      }
    }

    method Enqueue(node: TimerNode, ghost e: Entry<TimerNode>)
      requires Valid() && node in known && !node.active
      requires e.id == node && e.born == pending.next && Holds(e) && Near(pending.q, e.due)
      modifies this`root, this`shape, this`pending, known`left, known`right, known`parent, node`active
      ensures Valid() && node.active && pending == State(Insert(old(pending.q), e), old(pending.next) + 1)
    {
      ghost var a, b := InsertMatches(pending, known, e);
      BookedInsert(pending.q, known, e);
      PutInAs(node, a, b, State(Insert(pending.q, e), pending.next + 1));
    }

    /** fftimerqueue_addnode: a linked node is taken out first, although its key is already the new one. */
    method AddNode(node: TimerNode, ghost e: Entry<TimerNode>)
      requires node in known && ValidExcept(node)
      requires e.id == node && e.born == pending.next && Holds(e) && Near(Drop(pending.q, node), e.due)
      modifies this`root, this`shape, this`pending, known`left, known`right, known`parent, node`active
      ensures Valid() && node.active
      ensures pending == State(Insert(Drop(old(pending.q), node), e), old(pending.next) + 1)
    {
      var _ := Remove(node);
      Enqueue(node, e);
    }

    /** fftimerqueue_add: a fresh node, or one already pending, is due |interval| after `now`. */
    method Add(node: TimerNode, now: Word, interval: int, ghost clock: int)
      requires Valid() && node in known && now == Key(clock)
      requires Near(Drop(pending.q, node), clock + Abs(interval))
      modifies this`root, this`shape, this`pending, known`left, known`right, known`parent
      modifies node`key, node`interval, node`active
      ensures Valid() && node.active
      ensures pending == TimerSpec.Add(old(pending), node, clock, interval)
    {
      ghost var e := Added(pending, node, clock, interval);
      assert Booked(pending.q, known, node);
      node.interval := interval;
      node.key := Plus(now, Abs(interval));
      KeyPlus(clock, Abs(interval));
      assert Booked(pending.q, known, node);
      AddNode(node, e);
    }

    /** The loop's break tests in fftimerqueue_process: the first node, if the wrapped difference says it is due. */
    method Due(now: Word, ghost time: int, ghost lo: int, ghost hi: int) returns (it: TimerNode?)
      requires Valid() && now == Key(time) && Span(pending.q, time, lo, hi)
      ensures it != null <==> Expired(pending, time)
      ensures it != null ==> it == pending.q[0].id
    {
      it := Min();
      if it != null {
        assert it == Ids(pending.q)[0] && Holds(pending.q[0]);
        DiffIsTrueDifference(pending.q[0].due, time);
        if Diff(it.key, now) > 0 {
          it := null;
        }
      }
    }

    /** Re-arm the periodic node just taken out. */
    method Rearm(node: TimerNode, now: Word, ghost e: Entry<TimerNode>, ghost time: int, ghost lo: int, ghost hi: int)
      requires Valid() && node in known && !node.active && now == Key(time)
      requires e.id == node && Holds(e) && e.interval > 0
      requires Span(pending.q, time, lo, hi) && lo <= e.due <= time && time + e.interval <= hi
      modifies this`root, this`shape, this`pending, known`left, known`right, known`parent, node`key, node`active
      ensures Valid() && node.active
      ensures pending == State(Insert(old(pending.q), Rearmed(e, time, old(pending.next))), old(pending.next) + 1)
    {
      ghost var e' := Rearmed(e, time, pending.next);
      RearmKey(e.due, e.interval, time);
      NearRearmed(pending.q, e, time, lo, hi);
      NotBooked(pending.q, InOrder(shape), node);
      node.key := Max(Plus(node.key, node.interval), Plus(now, 1));
      assert Holds(e') && Booked(pending.q, known, null);
      Enqueue(node, e');
    }

    /** The rest of the loop body in fftimerqueue_process, up to the callback. */
    method FireNode(node: TimerNode, now: Word, ghost time: int, ghost lo: int, ghost hi: int)
      requires Valid() && now == Key(time) && Span(pending.q, time, lo, hi)
      requires Expired(pending, time) && node == pending.q[0].id
      modifies this`root, this`shape, this`pending, known`left, known`right, known`parent, node`key, node`active
      ensures Valid() && Span(pending.q, time, lo, hi)
      ensures pending == Fire(old(pending), time)
    {
      ghost var e := pending.q[0];
      SpanFire(pending, time, lo, hi);
      DropHead(pending.q);
      assert node in InOrder(shape) && Holds(e);
      Dequeue(node);
      if node.interval > 0 {
        Rearm(node, now, e, time, lo, hi);
      }
    }

    /** A callback: some commands on the queue. */
    method RunCallback(cs: seq<Cmd<TimerNode>>, ghost time: int, ghost lo: int, ghost hi: int)
      requires Valid() && Span(pending.q, time, lo, hi)
      requires forall i :: 0 <= i < |cs| ==> cs[i].id in known && CmdFits(cs[i], time, hi)
      modifies this`root, this`shape, this`pending, known
      ensures Valid() && Span(pending.q, time, lo, hi)
      ensures pending == ApplyAll(old(pending), cs)
    {
      for i := 0 to |cs|
        invariant Valid() && Span(pending.q, time, lo, hi)
        invariant ApplyAll(pending, cs[i..]) == ApplyAll(old(pending), cs)
      {
        SpanApply(pending, cs[i], time, lo, hi);
        SpanDrop(pending.q, cs[i].id, time, lo, hi);
        assert cs[i..][1..] == cs[i + 1..];
        match cs[i] {
          case RemoveCmd(node) =>
            var _ := Remove(node);
          case AddCmd(node, clock, interval) =>
            Add(node, Key(clock), interval, clock);
        }
      }
    }

    /** One round: fire the first node, run its callback, look for the next node due. */
    method Round(node: TimerNode, now: Word, cs: seq<Cmd<TimerNode>>, ghost time: int, ghost lo: int, ghost hi: int)
      returns (next: TimerNode?)
      requires Valid() && now == Key(time) && Span(pending.q, time, lo, hi)
      requires Expired(pending, time) && node == pending.q[0].id
      requires forall i :: 0 <= i < |cs| ==> cs[i].id in known && CmdFits(cs[i], time, hi)
      modifies this`root, this`shape, this`pending, known
      ensures Valid() && Span(pending.q, time, lo, hi)
      ensures pending == ApplyAll(Fire(old(pending), time), cs)
      ensures next != null <==> Expired(pending, time)
      ensures next != null ==> next == pending.q[0].id
    {
      FireNode(node, now, time, lo, hi);
      RunCallback(cs, time, lo, hi);
      next := Due(now, time, lo, hi);
    }

    /** fftimerqueue_process, with callbacks that issue the commands of `world`: it ends, and the nodes whose
        functions it calls, in order, their number and the queue left behind are those of the unbounded queue. */
    method Process(now: Word, world: World<TimerNode>, ghost time: int, ghost lo: int, ghost hi: int)
      returns (n: nat, calls: seq<TimerNode>)
      requires Valid() && now == Key(time) && Span(pending.q, time, lo, hi)
      requires WorldFits(world, known, time, hi)
      modifies this`root, this`shape, this`pending, known
      ensures Valid() && Span(pending.q, time, lo, hi) && !Expired(pending, time)
      ensures pending == TimerProcess.Process(old(pending), time, world, 0).state
      ensures calls == Ids(TimerProcess.Process(old(pending), time, world, 0).log)
      ensures n == |calls|
    {
      n, calls := 0, [];
      ghost var whole := TimerProcess.Process(pending, time, world, 0);
      var node := Due(now, time, lo, hi);
      while node != null
        invariant Valid() && Span(pending.q, time, lo, hi)
        invariant node != null <==> Expired(pending, time)
        invariant node != null ==> node == pending.q[0].id
        invariant Along(pending, time, world, n, calls, whole)
        decreases Lateness(pending.q, time)
      {
        AlongStep(pending, time, world, n, calls, whole);
        calls := calls + [node as TimerNode];
        node := Round(node, now, world(n), time, lo, hi);
        n := n + 1;
      }
    }
  }

  /** After `n` firings, calling `calls`, what is left to do leads to the outcome `whole`. */
  ghost predicate Along(s: State<TimerNode>, now: int, world: World<TimerNode>, n: nat, calls: seq<TimerNode>,
                        whole: Outcome<TimerNode>)
    requires WorldDueAfter(world, now)
  {
    && n == |calls|
    && TimerProcess.Process(s, now, world, n).state == whole.state
    && calls + Ids(TimerProcess.Process(s, now, world, n).log) == Ids(whole.log)
  }

  lemma AlongStep(s: State<TimerNode>, now: int, world: World<TimerNode>, n: nat, calls: seq<TimerNode>,
                  whole: Outcome<TimerNode>)
    requires WorldDueAfter(world, now) && Expired(s, now) && Along(s, now, world, n, calls, whole)
    ensures Along(AfterFiring(s, now, world, n), now, world, n + 1, calls + [s.q[0].id], whole)
    ensures Lateness(AfterFiring(s, now, world, n).q, now) < Lateness(s.q, now)
  {
    ProcessUnfold(s, now, world, n);
    IdsCons(calls, s.q[0], TimerProcess.Process(AfterFiring(s, now, world, n), now, world, n + 1).log);
  }

  lemma IdsCons<T>(calls: seq<T>, e: Entry<T>, rest: seq<Entry<T>>)
    ensures calls + Ids([e] + rest) == (calls + [e.id]) + Ids(rest)
  {
  }

  lemma LogAppend<T>(done: seq<Entry<T>>, e: Entry<T>)
    ensures Ids(done + [e]) == Ids(done) + [e.id]
  {
  }

  lemma NearRearmed(q: seq<Entry<TimerNode>>, e: Entry<TimerNode>, now: int, lo: int, hi: int)
    requires Span(q, now, lo, hi) && lo <= e.due <= now && e.interval > 0 && now + e.interval <= hi
    ensures Near(q, TimerSpec.Rearm(e.due, e.interval, now))
  {
    RearmMovesForward(e.due, e.interval, now);
  }

  lemma NotBooked(q: seq<Entry<TimerNode>>, list: seq<TimerNode>, node: TimerNode)
    requires list == Ids(q) && node !in list
    ensures forall i :: 0 <= i < |q| ==> q[i].id != node
  {
    assert forall i :: 0 <= i < |q| ==> q[i].id == list[i];
  }

  lemma InsertMatches(s: State<TimerNode>, known: set<TimerNode>, e: Entry<TimerNode>) returns (a: seq<TimerNode>, b: seq<TimerNode>)
    requires WellFormed(s) && Booked(s.q, known, null) && e.born == s.next && Near(s.q, e.due) && e.id !in Ids(s.q)
    ensures Ids(s.q) == a + b && Ids(Insert(s.q, e)) == a + [e.id] + b
    ensures forall n :: n in a ==> n in known && Diff(Key(e.due), n.key) >= 0
    ensures forall n :: n in b ==> n in known && Diff(Key(e.due), n.key) < 0
    ensures WellFormed(State(Insert(s.q, e), s.next + 1))
  {
    var k := Slot(s.q, e);
    a, b := Ids(s.q[..k]), Ids(s.q[k..]);
    SplitAgrees(s, known, e);
    IdsOfInsert(s.q, e);
    assert forall i :: 0 <= i < |s.q| ==> s.q[i].id == Ids(s.q)[i];
    InsertKeepsWellFormed(s, e);
  }

  lemma DropMatches(s: State<TimerNode>, node: TimerNode)
    requires WellFormed(s)
    ensures WellFormed(TimerSpec.Remove(s, node))
    ensures Ids(Drop(s.q, node)) == Without(Ids(s.q), node)
    ensures node !in Ids(s.q) ==> Drop(s.q, node) == s.q
  {
    RemoveWellFormed(s, node);
    IdsOfDrop(s.q, node);
    if node !in Ids(s.q) {
      assert forall i :: 0 <= i < |s.q| ==> s.q[i].id == Ids(s.q)[i];
      DropAbsent(s.q, node);
    }
  }
}
