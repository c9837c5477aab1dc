/** What it means for link fields to spell out a tree, and what the stores of a rotation do to that tree. */
module RbMemory {
  import opened Arena
  import opened RbTheory

  /** The entries in m of the nodes of t spell out t, below the node up. */
  predicate Rep(m: Memory, t: Tree, up: Ptr) {
    match t
    case Leaf => true
    case Fork(c, l, n, r) =>
      n != NULL && n in m && m[n] == Entry(Head(l), Head(r), up, c) && Rep(m, l, n) && Rep(m, r, n)
  }

  /** The entries in m of the nodes of p spell out p, around a subtree headed by hole. */
  predicate PathRep(m: Memory, p: Path, hole: Ptr, root: Ptr) {
    match p
    case Hole => root == hole
    case InLeft(c, n, r, up) =>
      n != NULL && n in m && m[n] == Entry(hole, Head(r), Above(up), c) && Rep(m, r, n) && PathRep(m, up, n, root)
    case InRight(c, l, n, up) =>
      n != NULL && n in m && m[n] == Entry(Head(l), hole, Above(up), c) && Rep(m, l, n) && PathRep(m, up, n, root)
  }

  predicate At(m: Memory, root: Ptr, p: Path, t: Tree) {
    Apart(p, t) && Rep(m, t, Above(p)) && PathRep(m, p, Head(t), root)
  }

  /** What the entries say about the head of a subtree in its place. */
  lemma AtHead(m: Memory, root: Ptr, p: Path, t: Tree)
    requires At(m, root, p, t)
    ensures t.Fork? ==> t.elm in m && m[t.elm].parent == Above(p)
    ensures p.Hole? ==> root == Head(t)
  {
  }

  // ---- one place of a tree, seen from one level up or down ----

  lemma Up(m: Memory, root: Ptr, p: Path, t: Tree)
    requires At(m, root, p, t) && !p.Hole?
    ensures At(m, root, p.up, Grow(p, t))
    ensures Whole(p.up, Grow(p, t)) == Whole(p, t)
  {
    WholeUp(p, t);
    if p.InLeft? {
      assert Rep(m, Grow(p, t), Above(p.up));
    } else {
      assert Rep(m, Grow(p, t), Above(p.up));
    }
  }

  lemma DownLeft(m: Memory, root: Ptr, p: Path, t: Tree)
    requires At(m, root, p, t) && t.Fork?
    ensures var p' := InLeft(t.color, t.elm, t.right, p); At(m, root, p', t.left) && Whole(p', t.left) == Whole(p, t)
  {
    WholeUp(InLeft(t.color, t.elm, t.right, p), t.left);
  }

  lemma DownRight(m: Memory, root: Ptr, p: Path, t: Tree)
    requires At(m, root, p, t) && t.Fork?
    ensures var p' := InRight(t.color, t.left, t.elm, p); At(m, root, p', t.right) && Whole(p', t.right) == Whole(p, t)
  {
    WholeUp(InRight(t.color, t.left, t.elm, p), t.right);
  }

  predicate Same(m: Memory, m': Memory, s: set<Ptr>) {
    forall n :: n in s && n in m ==> n in m' && m'[n] == m[n]
  }

  /** Stores outside the nodes of t leave what their entries spell out. */
  lemma {:induction false} Frame(m: Memory, m': Memory, t: Tree, up: Ptr)
    requires Rep(m, t, up) && Same(m, m', Nodes(t))
    ensures Rep(m', t, up)
  {
    if t.Fork? {
      Frame(m, m', t.left, t.elm);
      Frame(m, m', t.right, t.elm);
    }
  }

  lemma {:induction false} FramePath(m: Memory, m': Memory, p: Path, hole: Ptr, root: Ptr)
    requires PathRep(m, p, hole, root) && Same(m, m', PathNodes(p))
    ensures PathRep(m', p, hole, root)
  {
    if !p.Hole? {
      Frame(m, m', if p.InLeft? then p.right else p.left, p.elm);
      FramePath(m, m', p.up, p.elm, root);
    }
  }

  /** The link that led down from up to old' now leads to new'. */
  function Relinked(m: Memory, up: Ptr, old_: Ptr, new_: Ptr): Memory
    requires Within(m, up)
  {
    if up == NULL then m
    else if m[up].left == old_ then SetLeft(m, up, new_)
    else SetRight(m, up, new_)
  }

  function Reparented(m: Memory, child: Ptr, up: Ptr): Memory
    requires Within(m, child)
  {
    if child == NULL then m else SetParent(m, child, up)
  }

  /** The stores of RB_ROTATE_LEFT at x, in order. */
  function RotatedLeft(m: Memory, x: Ptr): Memory
    requires x in m && m[x].right in m && Within(m, m[x].parent) && Within(m, m[m[x].right].left)
    requires x != m[x].right
  {
    var y := m[x].right;
    var b := m[y].left;
    var g := m[x].parent;
    var m1 := SetParent(Reparented(SetRight(m, x, b), b, x), y, g);
    SetParent(SetLeft(Relinked(m1, g, x, y), y, x), x, y)
  }

  predicate Turn(m: Memory, x: Ptr, y: Ptr, b: Ptr, g: Ptr) {
    && x in m && y in m && Within(m, b) && Within(m, g)
    && x != y && b != x && b != y && g != x && g != y && (b == NULL || b != g)
    && m[x].parent == g
  }

  lemma RotatedLeftCells(m: Memory, x: Ptr, y: Ptr, b: Ptr, g: Ptr)
    requires Turn(m, x, y, b, g) && m[x].right == y && m[y].left == b
    ensures var m' := RotatedLeft(m, x);
      && m'.Keys == m.Keys
      && m'[x] == Entry(m[x].left, b, y, m[x].color)
      && m'[y] == Entry(x, m[y].right, g, m[y].color)
      && (b != NULL ==> m'[b] == m[b].(parent := x))
      && (g != NULL ==> m'[g] == if m[g].left == x then m[g].(left := y) else m[g].(right := y))
      && forall n :: n in m && n !in {x, y, b, g} ==> m'[n] == m[n]
  {
  }

  /** RB_ROTATE_LEFT at the head of t turns t and leaves the rest of the tree as it was. */
  lemma RotatedLeftAt(m: Memory, root: Ptr, p: Path, t: Tree)
    requires t.Fork? && t.right.Fork? && At(m, root, p, t)
    ensures Turn(m, t.elm, t.right.elm, Head(t.right.left), Above(p))
    ensures m[t.elm].right == t.right.elm && m[t.right.elm].left == Head(t.right.left)
    ensures At(RotatedLeft(m, t.elm), if p.Hole? then t.right.elm else root, p, RotL(t))
  {
    var a, x, b, y, c := t.left, t.elm, t.right.left, t.right.elm, t.right.right;
    RotLApart(p, t);
    assert Nodes(t.right) == Nodes(b) + {y} + Nodes(c);
    assert Rep(m, t.right, x) && Distinct(t.right) && Rep(m, b, y) && Distinct(b);
    RotatedLeftCells(m, x, y, Head(b), Above(p));
    var m' := RotatedLeft(m, x);
    Frame(m, m', a, x);
    Frame(m, m', c, y);
    MovedSubtree(m, m', b, y, x);
    MovedHole(m, m', p, x, root, y);
    assert Rep(m', RotL(t).left, y);
  }

  /** The head of t got a new parent and nothing else in t changed. */
  lemma MovedSubtree(m: Memory, m': Memory, t: Tree, up: Ptr, up': Ptr)
    requires Rep(m, t, up) && Distinct(t) && Same(m, m', Nodes(t) - {Head(t)})
    requires t.Fork? ==> t.elm in m' && m'[t.elm] == m[t.elm].(parent := up')
    ensures Rep(m', t, up')
  {
    if t.Fork? {
      Frame(m, m', t.left, t.elm);
      Frame(m, m', t.right, t.elm);
    }
  }

  /** The link into the hole of p changed and nothing else in p did. */
  lemma MovedHole(m: Memory, m': Memory, p: Path, hole: Ptr, root: Ptr, hole': Ptr)
    requires PathRep(m, p, hole, root) && DistinctPath(p) && Same(m, m', PathNodes(p) - {Above(p)})
    requires !p.Hole? ==> p.elm in m'
    requires !p.Hole? ==> m'[p.elm] == if p.InLeft? then m[p.elm].(left := hole') else m[p.elm].(right := hole')
    ensures PathRep(m', p, hole', if p.Hole? then hole' else root)
  {
    if !p.Hole? {
      Frame(m, m', if p.InLeft? then p.right else p.left, p.elm);
      FramePath(m, m', p.up, p.elm, root);
    }
  }

  lemma PaintedAt(m: Memory, root: Ptr, p: Path, t: Tree, c: Color)
    requires At(m, root, p, t) && t.Fork?
    ensures At(SetColor(m, t.elm, c), root, p, Paint(t, c))
  {
    var m' := SetColor(m, t.elm, c);
    Frame(m, m', t.left, t.elm);
    Frame(m, m', t.right, t.elm);
    FramePath(m, m', p, t.elm, root);
  }

  lemma PaintedLeftAt(m: Memory, root: Ptr, p: Path, t: Tree, c: Color)
    requires At(m, root, p, t) && t.Fork? && t.left.Fork?
    ensures t.left.elm in m
    ensures At(SetColor(m, t.left.elm, c), root, p, t.(left := Paint(t.left, c)))
  {
    DownLeft(m, root, p, t);
    var p' := InLeft(t.color, t.elm, t.right, p);
    PaintedAt(m, root, p', t.left, c);
    Up(SetColor(m, t.left.elm, c), root, p', Paint(t.left, c));
  }

  lemma PaintedRightAt(m: Memory, root: Ptr, p: Path, t: Tree, c: Color)
    requires At(m, root, p, t) && t.Fork? && t.right.Fork?
    ensures t.right.elm in m
    ensures At(SetColor(m, t.right.elm, c), root, p, t.(right := Paint(t.right, c)))
  {
    DownRight(m, root, p, t);
    var p' := InRight(t.color, t.left, t.elm, p);
    PaintedAt(m, root, p', t.right, c);
    Up(SetColor(m, t.right.elm, c), root, p', Paint(t.right, c));
  }

  lemma RecoloredAt(m: Memory, root: Ptr, p: Path, t: Tree)
    requires At(m, root, p, t) && !p.Hole? && !p.up.Hole?
    requires if p.up.InLeft? then p.up.right.Fork? else p.up.left.Fork?
    ensures var u := if p.up.InLeft? then p.up.right.elm else p.up.left.elm;
      && u in m && p.elm in m && p.up.elm in m
      && At(SetColor(SetColor(SetColor(m, u, Black), p.elm, Black), p.up.elm, Red), root, p.up.up, Recolored(p, t))
  {
    Up(m, root, p, t);
    var s := Grow(p, t);
    Up(m, root, p.up, s);
    var g := Grow(p.up, s);
    var q := p.up.up;
    if p.up.InLeft? {
      PaintedRightAt(m, root, q, g, Black);
      var m1 := SetColor(m, p.up.right.elm, Black);
      var g1 := g.(right := Paint(g.right, Black));
      PaintedLeftAt(m1, root, q, g1, Black);
      PaintedAt(SetColor(m1, p.elm, Black), root, q, g1.(left := Paint(g1.left, Black)), Red);
    } else {
      PaintedLeftAt(m, root, q, g, Black);
      var m1 := SetColor(m, p.up.left.elm, Black);
      var g1 := g.(left := Paint(g.left, Black));
      PaintedRightAt(m1, root, q, g1, Black);
      PaintedAt(SetColor(m1, p.elm, Black), root, q, g1.(right := Paint(g1.right, Black)), Red);
    }
  }

  // ---- the mirror image: RB_ROTATE_RIGHT ----

  /** The stores of RB_ROTATE_RIGHT at x, in order. */
  function RotatedRight(m: Memory, x: Ptr): Memory
    requires x in m && m[x].left in m && Within(m, m[x].parent) && Within(m, m[m[x].left].right)
    requires x != m[x].left
  {
    var y := m[x].left;
    var b := m[y].right;
    var g := m[x].parent;
    var m1 := SetParent(Reparented(SetLeft(m, x, b), b, x), y, g);
    SetParent(SetRight(Relinked(m1, g, x, y), y, x), x, y)
  }

  lemma RotatedRightCells(m: Memory, x: Ptr, y: Ptr, b: Ptr, g: Ptr)
    requires Turn(m, x, y, b, g) && m[x].left == y && m[y].right == b
    ensures var m' := RotatedRight(m, x);
      && m'.Keys == m.Keys
      && m'[x] == Entry(b, m[x].right, y, m[x].color)
      && m'[y] == Entry(m[y].left, x, g, m[y].color)
      && (b != NULL ==> m'[b] == m[b].(parent := x))
      && (g != NULL ==> m'[g] == if m[g].left == x then m[g].(left := y) else m[g].(right := y))
      && forall n :: n in m && n !in {x, y, b, g} ==> m'[n] == m[n]
  {
  }

  /** RB_ROTATE_RIGHT at the head of t turns t and leaves the rest of the tree as it was. */
  lemma RotatedRightAt(m: Memory, root: Ptr, p: Path, t: Tree)
    requires t.Fork? && t.left.Fork? && At(m, root, p, t)
    ensures Turn(m, t.elm, t.left.elm, Head(t.left.right), Above(p))
    ensures m[t.elm].left == t.left.elm && m[t.left.elm].right == Head(t.left.right)
    ensures At(RotatedRight(m, t.elm), if p.Hole? then t.left.elm else root, p, RotR(t))
  {
    var c, x, b, y, a := t.right, t.elm, t.left.right, t.left.elm, t.left.left;
    RotRApart(p, t);
    assert Nodes(t.left) == Nodes(a) + {y} + Nodes(b);
    assert Rep(m, t.left, x) && Distinct(t.left) && Rep(m, b, y) && Distinct(b);
    RotatedRightCells(m, x, y, Head(b), Above(p));
    var m' := RotatedRight(m, x);
    Frame(m, m', a, y);
    Frame(m, m', c, x);
    MovedSubtree(m, m', b, y, x);
    MovedHole(m, m', p, x, root, y);
    assert Rep(m', RotR(t).right, y);
  }

  /** The whole tree is there if it is there seen from one of its places. */
  lemma {:induction false} PlugAt(m: Memory, root: Ptr, p: Path, t: Tree)
    requires At(m, root, p, t)
    ensures At(m, root, Hole, Plug(p, t))
    decreases p
  {
    if !p.Hole? {
      Up(m, root, p, t);
      PlugAt(m, root, p.up, Grow(p, t));
    }
  }

  lemma {:induction false} UnplugAt(m: Memory, root: Ptr, p: Path, t: Tree)
    requires At(m, root, Hole, Plug(p, t))
    ensures At(m, root, p, t)
    decreases p
  {
    match p
    case Hole =>
    case InLeft(c, n, r, up) =>
      UnplugAt(m, root, up, Grow(p, t));
      DownLeft(m, root, up, Grow(p, t));
    case InRight(c, l, n, up) =>
      UnplugAt(m, root, up, Grow(p, t));
      DownRight(m, root, up, Grow(p, t));
  }

  /** Where the insertion loop goes next: the grandparent exists and knows on which side the parent hangs. */
  lemma Grandparent(m: Memory, root: Ptr, p: Path, t: Tree, h: int)
    requires At(m, root, p, t) && RedAt(p, t, h) && RedAbove(p)
    ensures !p.up.Hole? && p.elm in m && m[p.elm].parent == p.up.elm && p.up.elm in m
    ensures p.elm == m[p.up.elm].left <==> p.up.InLeft?
  {
    Up(m, root, p, t);
    Up(m, root, p.up, Grow(p, t));
  }

  /** What a turn of the insertion loop reads: the nodes above t, the head of the uncle, and which child t is. */
  lemma Family(m: Memory, root: Ptr, p: Path, t: Tree)
    requires At(m, root, p, t) && t.Fork? && !p.Hole? && !p.up.Hole?
    ensures t.elm in m && m[t.elm].parent == p.elm && p.elm in m && m[p.elm].parent == p.up.elm && p.up.elm in m
    ensures m[p.elm].right == t.elm <==> p.InRight?
    ensures m[p.elm].left == t.elm <==> p.InLeft?
    ensures var u := if p.up.InLeft? then p.up.right else p.up.left;
      && (if p.up.InLeft? then m[p.up.elm].right else m[p.up.elm].left) == Head(u)
      && (u.Fork? ==> u.elm != NULL && u.elm in m && m[u.elm].color == u.color)
  {
    Up(m, root, p, t);
    var u := if p.up.InLeft? then p.up.right else p.up.left;
    assert Rep(m, u, p.up.elm);
  }

  /** The insertion loop is over: painting the root black leaves a balanced tree. */
  lemma Rooted(m: Memory, root: Ptr, p: Path, t: Tree, h: int) returns (t': Tree)
    requires At(m, root, p, t) && RedAt(p, t, h) && !RedAbove(p)
    ensures root in m && At(SetColor(m, root, Black), root, Hole, t')
    ensures Balanced(t') && InOrder(t') == Whole(p, t)
  {
    var s := Plug(p, t);
    PlugAt(m, root, p, t);
    PlugWhole(p, t);
    var hh := PlugRB(p, t, h);
    assert s.Fork?;
    BlackenedBalanced(s, hh);
    PaintedAt(m, root, Hole, s, Black);
    t' := Paint(s, Black);
  }

  /** A fresh red entry hung into an empty place of a balanced tree. */
  lemma Hung(m: Memory, root: Ptr, p: Path, n: Ptr)
    requires At(m, root, p, Leaf) && n != NULL && n !in PathNodes(p)
    ensures Within(m, Above(p))
    ensures var t := Fork(Red, Leaf, n, Leaf);
      var m1 := m[n := Entry(NULL, NULL, Above(p), Red)];
      && (p.Hole? ==> At(m1, n, p, t))
      && (p.InLeft? ==> At(SetLeft(m1, p.elm, n), root, p, t))
      && (p.InRight? ==> At(SetRight(m1, p.elm, n), root, p, t))
  {
    var t := Fork(Red, Leaf, n, Leaf);
    var m1 := m[n := Entry(NULL, NULL, Above(p), Red)];
    var m' := if p.Hole? then m1 else if p.InLeft? then SetLeft(m1, p.elm, n) else SetRight(m1, p.elm, n);
    assert Nodes(t) == {} + {n} + {};
    MovedHole(m, m', p, NULL, root, n);
  }

  lemma {:induction false} NodesInOrder(t: Tree)
    ensures forall n :: n in Nodes(t) <==> n in InOrder(t)
  {
    if t.Fork? {
      NodesInOrder(t.left);
      NodesInOrder(t.right);
    }
  }

  lemma {:induction false} PlugNodes(p: Path, t: Tree)
    ensures Nodes(Plug(p, t)) == PathNodes(p) + Nodes(t)
    decreases p
  {
    if !p.Hole? {
      PlugNodes(p.up, Grow(p, t));
    }
  }

  lemma PaintedRightRightAt(m: Memory, root: Ptr, p: Path, t: Tree, c: Color)
    requires At(m, root, p, t) && t.Fork? && t.right.Fork? && t.right.right.Fork?
    ensures t.right.right.elm in m
    ensures At(SetColor(m, t.right.right.elm, c), root, p, t.(right := t.right.(right := Paint(t.right.right, c))))
  {
    DownRight(m, root, p, t);
    var p' := InRight(t.color, t.left, t.elm, p);
    PaintedRightAt(m, root, p', t.right, c);
    Up(SetColor(m, t.right.right.elm, c), root, p', t.right.(right := Paint(t.right.right, c)));
  }

  lemma PaintedRightLeftAt(m: Memory, root: Ptr, p: Path, t: Tree, c: Color)
    requires At(m, root, p, t) && t.Fork? && t.right.Fork? && t.right.left.Fork?
    ensures t.right.left.elm in m
    ensures At(SetColor(m, t.right.left.elm, c), root, p, t.(right := t.right.(left := Paint(t.right.left, c))))
  {
    DownRight(m, root, p, t);
    var p' := InRight(t.color, t.left, t.elm, p);
    PaintedLeftAt(m, root, p', t.right, c);
    Up(SetColor(m, t.right.left.elm, c), root, p', t.right.(left := Paint(t.right.left, c)));
  }

  lemma PaintedLeftLeftAt(m: Memory, root: Ptr, p: Path, t: Tree, c: Color)
    requires At(m, root, p, t) && t.Fork? && t.left.Fork? && t.left.left.Fork?
    ensures t.left.left.elm in m
    ensures At(SetColor(m, t.left.left.elm, c), root, p, t.(left := t.left.(left := Paint(t.left.left, c))))
  {
    DownLeft(m, root, p, t);
    var p' := InLeft(t.color, t.elm, t.right, p);
    PaintedLeftAt(m, root, p', t.left, c);
    Up(SetColor(m, t.left.left.elm, c), root, p', t.left.(left := Paint(t.left.left, c)));
  }

  lemma PaintedLeftRightAt(m: Memory, root: Ptr, p: Path, t: Tree, c: Color)
    requires At(m, root, p, t) && t.Fork? && t.left.Fork? && t.left.right.Fork?
    ensures t.left.right.elm in m
    ensures At(SetColor(m, t.left.right.elm, c), root, p, t.(left := t.left.(right := Paint(t.left.right, c))))
  {
    DownLeft(m, root, p, t);
    var p' := InLeft(t.color, t.elm, t.right, p);
    PaintedRightAt(m, root, p', t.left, c);
    Up(SetColor(m, t.left.right.elm, c), root, p', t.left.(right := Paint(t.left.right, c)));
  }

  /** The root is outside every subtree but the whole. */
  lemma {:induction false} RootAbove(m: Memory, p: Path, hole: Ptr, root: Ptr)
    requires PathRep(m, p, hole, root) && !p.Hole?
    ensures root in PathNodes(p) && root != NULL
  {
    if !p.up.Hole? {
      RootAbove(m, p.up, p.elm, root);
    }
  }

  /** The colours the removal loop tests, at the place (up, g). */
  lemma Nephews(m: Memory, root: Ptr, up: Path, g: Tree)
    requires At(m, root, up, g) && g.Fork?
    ensures g.elm in m && m[g.elm].left == Head(g.left) && m[g.elm].right == Head(g.right) && m[g.elm].color == g.color
    ensures forall s :: s == g.left || s == g.right ==> (s.Fork? <==> Head(s) != NULL) && HeadSeen(m, s)
    ensures forall s :: (s == g.left || s == g.right) && s.Fork? ==> HeadSeen(m, s.left) && HeadSeen(m, s.right)
  {
    assert Rep(m, g.left, g.elm) && Rep(m, g.right, g.elm);
    if g.left.Fork? {
      assert Rep(m, g.left.left, g.left.elm) && Rep(m, g.left.right, g.left.elm);
    }
    if g.right.Fork? {
      assert Rep(m, g.right.left, g.right.elm) && Rep(m, g.right.right, g.right.elm);
    }
  }

  predicate HeadSeen(m: Memory, t: Tree) {
    t.Leaf? || (t.elm != NULL && t.elm in m &&
                m[t.elm].color == t.color && m[t.elm].left == Head(t.left) && m[t.elm].right == Head(t.right))
  }

  /** The removal loop is over: painting the head black, if there is one, leaves a balanced tree. */
  lemma Settle(m: Memory, root: Ptr, p: Path, t: Tree, h: int) returns (t': Tree)
    requires At(m, root, p, t) && Short(p, t, h) && (p.Hole? || IsRed(t))
    ensures t.Fork? ==> t.elm in m && At(SetColor(m, t.elm, Black), root, Hole, t')
    ensures t.Leaf? ==> At(m, root, Hole, t')
    ensures Balanced(t') && InOrder(t') == Whole(p, t)
  {
    if t.Leaf? {
      t' := t;
      PlugWhole(p, t);
      assert RB(t', 0);
    } else {
      var b := Paint(t, Black);
      var k := if IsRed(t) then h + 1 else h;
      assert RB(b, k);
      PaintedAt(m, root, p, t, Black);
      PlugAt(SetColor(m, t.elm, Black), root, p, b);
      assert InOrder(b) == InOrder(t);
      PlugWhole(p, b);
      var hh := PlugRB(p, b, k);
      t' := Plug(p, b);
    }
  }

  lemma {:induction false} UpPath(m: Memory, root: Ptr, q: Path, base: Path, u: Tree)
    requires At(m, root, Append(q, base), u)
    ensures At(m, root, base, Plug(q, u))
    decreases q
  {
    if !q.Hole? {
      Up(m, root, Append(q, base), u);
      UpPath(m, root, q.up, base, Grow(q, u));
    }
  }

  lemma {:induction false} DownPath(m: Memory, root: Ptr, q: Path, base: Path, u: Tree)
    requires At(m, root, base, Plug(q, u))
    ensures At(m, root, Append(q, base), u)
    decreases q
  {
    match q
    case Hole =>
    case InLeft(c, n, r, up) =>
      DownPath(m, root, up, base, Grow(q, u));
      DownLeft(m, root, Append(up, base), Grow(q, u));
    case InRight(c, l, n, up) =>
      DownPath(m, root, up, base, Grow(q, u));
      DownRight(m, root, Append(up, base), Grow(q, u));
  }

  /** A node with at most the child ct taken out: its child hangs where it hung. */
  lemma UnlinkedAt(m: Memory, root: Ptr, p: Path, t: Tree, ct: Tree)
    requires At(m, root, p, t) && t.Fork?
    requires (t.left.Leaf? && ct == t.right) || (t.right.Leaf? && ct == t.left)
    ensures t.elm in m && m[t.elm].parent == Above(p) && Within(m, Head(ct)) && Within(m, Above(p))
    ensures t.elm !in Nodes(ct) && t.elm !in PathNodes(p)
    ensures var m' := Relinked(Reparented(m, Head(ct), Above(p)), Above(p), t.elm, Head(ct));
      && At(m', if p.Hole? then Head(ct) else root, p, ct)
      && t.elm in m' && m'[t.elm] == m[t.elm]
  {
    assert Rep(m, ct, t.elm);
    var m1 := Reparented(m, Head(ct), Above(p));
    var m' := Relinked(m1, Above(p), t.elm, Head(ct));
    MovedSubtree(m, m', ct, t.elm, Above(p));
    MovedHole(m, m', p, t.elm, root, Head(ct));
  }

  /** The stores that put the node n in the place of x: its entry, and the links of its neighbours. */
  function Replaced(m: Memory, x: Ptr, n: Ptr): Memory
    requires x in m && Within(m, m[x].parent) && Within(m, m[x].left) && Within(m, m[x].right)
  {
    var m1 := Relinked(m[n := m[x]], m[x].parent, x, n);
    Reparented(Reparented(m1, m1[x].left, n), m1[x].right, n)
  }

  lemma ReplacedAt(m: Memory, root: Ptr, p: Path, t: Tree, n: Ptr)
    requires At(m, root, p, t) && t.Fork? && n != NULL && n !in Nodes(t) && n !in PathNodes(p)
    ensures var x := t.elm;
      && x in m && m[x].parent == Above(p) && m[x].left == Head(t.left) && m[x].right == Head(t.right)
      && Within(m, m[x].parent) && Within(m, m[x].left) && Within(m, m[x].right)
    ensures At(Replaced(m, t.elm, n), if p.Hole? then n else root, p, t.(elm := n))
  {
    HeadEntry(m, root, p, t);
    var x, l, r := t.elm, t.left, t.right;
    var m' := Replaced(m, x, n);
    Apart4(p, t, n);
    ReplacedCells(m, x, n, Head(l), Head(r), Above(p));
    hide Replaced;
    assert Rep(m, l, x) && Rep(m, r, x) && Distinct(l) && Distinct(r);
    ReplacedSub(m, m', l, x, n, Head(r), Above(p));
    ReplacedSub(m, m', r, x, n, Head(l), Above(p));
    MovedHole(m, m', p, x, root, n);
    RenamedApart(p, t, n);
  }

  lemma ReplacedSub(m: Memory, m': Memory, t: Tree, up: Ptr, up': Ptr, y: Ptr, z: Ptr)
    requires Rep(m, t, up) && Distinct(t) && up' !in Nodes(t)
    requires (y == NULL || y !in Nodes(t)) && (z == NULL || z !in Nodes(t))
    requires t.Fork? ==> t.elm in m' && m'[t.elm] == m[t.elm].(parent := up')
    requires forall x :: x in m && x !in {up', Head(t), y, z} ==> x in m' && m'[x] == m[x]
    ensures Rep(m', t, up')
  {
    NotNull(m, t, up);
    NodesInOrder(t);
    assert Same(m, m', Nodes(t) - {Head(t)});
    MovedSubtree(m, m', t, up, up');
  }

  lemma HeadEntry(m: Memory, root: Ptr, p: Path, t: Tree)
    requires At(m, root, p, t) && t.Fork?
    ensures t.elm != NULL && t.elm in m && m[t.elm] == Entry(Head(t.left), Head(t.right), Above(p), t.color)
    ensures Within(m, Above(p)) && Within(m, Head(t.left)) && Within(m, Head(t.right))
  {
    assert Rep(m, t.left, t.elm) && Rep(m, t.right, t.elm);
  }

  /** The nodes next to the head of t are different nodes, and n is none of them. */
  lemma Apart4(p: Path, t: Tree, n: Ptr)
    requires Apart(p, t) && t.Fork? && n != NULL && n !in Nodes(t) && n !in PathNodes(p)
    ensures var x, l, r, g := t.elm, Head(t.left), Head(t.right), Above(p);
      && n !in {x, l, r, g, NULL} && (l == NULL || (x != l && l != r)) && (r == NULL || x != r)
      && (g == NULL || (x != g && g != l && g != r))
  {
  }

  lemma ReplacedCells(m: Memory, x: Ptr, n: Ptr, l: Ptr, r: Ptr, g: Ptr)
    requires x in m && m[x].left == l && m[x].right == r && m[x].parent == g
    requires Within(m, l) && Within(m, r) && Within(m, g)
    requires n !in {x, l, r, g, NULL} && x != l && x != r && x != g && (l == NULL || l != r)
    requires g == NULL || (g != l && g != r)
    ensures var m' := Replaced(m, x, n);
      && n in m' && m'[n] == m[x]
      && (l != NULL ==> l in m' && m'[l] == m[l].(parent := n))
      && (r != NULL ==> r in m' && m'[r] == m[r].(parent := n))
      && (g != NULL ==> g in m' && m'[g] == if m[g].left == x then m[g].(left := n) else m[g].(right := n))
      && forall y :: y in m && y !in {n, l, r, g} ==> y in m' && m'[y] == m[y]
  {
  }

  /** u is where the walk to the successor stands: leftmost so far in the subtree r that hangs at base. */
  predicate Leftmost(m: Memory, root: Ptr, base: Path, r: Tree, q: Path, u: Tree, k: int) {
    var at := Append(q, base);
    && At(m, root, at, u) && RB(u, k) && Fits(at, k) && (RedAbove(at) ==> !IsRed(u))
    && !base.Hole? && u.Fork? && Before(q) == [] && Plug(q, u) == r
  }

  lemma LeftmostDown(m: Memory, root: Ptr, base: Path, r: Tree, q: Path, u: Tree, k: int)
    requires Leftmost(m, root, base, r, q, u, k)
    ensures u.elm in m && m[u.elm].left == Head(u.left) && (u.left.Fork? <==> Head(u.left) != NULL)
    ensures u.left.Fork? ==>
        Leftmost(m, root, base, r, InLeft(u.color, u.elm, u.right, q), u.left, Below(u.color, k))
  {
    Nephews(m, root, Append(q, base), u);
    var at := Append(q, base);
    DownLeft(m, root, at, u);
    assert !at.Hole?;
    assert Fits(InLeft(u.color, u.elm, u.right, at), Below(u.color, k));
  }

  /** The place of the node n in a balanced tree, and what is before and after it. */
  lemma PlaceOf(m: Memory, root: Ptr, tree: Tree, n: Ptr) returns (p: Path, t: Tree, h: int)
    requires At(m, root, Hole, tree) && Balanced(tree) && n in InOrder(tree)
    ensures At(m, root, p, t) && t.Fork? && t.elm == n
    ensures RB(t, h) && Fits(p, h) && (RedAbove(p) || p.Hole? ==> !IsRed(t))
    ensures InOrder(tree) == (Before(p) + InOrder(t.left)) + [n] + (InOrder(t.right) + After(p))
  {
    NodesInOrder(tree);
    p, t := Focus(tree, n, Hole);
    UnplugAt(m, root, p, t);
    PlugWhole(p, t);
    WholeSplit(p, t);
    var hh :| RB(tree, hh);
    h := UnplugRB(p, t, hh);
  }

  /** On which side of its parent the head of t hangs. */
  lemma WhichSide(m: Memory, root: Ptr, p: Path, t: Tree)
    requires At(m, root, p, t) && t.Fork?
    ensures t.elm in m && m[t.elm].parent == Above(p) && (p.Hole? <==> Above(p) == NULL)
    ensures !p.Hole? ==> p.elm in m
    ensures !p.Hole? ==> (m[p.elm].right == t.elm <==> p.InRight?)
    ensures !p.Hole? ==> (m[p.elm].left == t.elm <==> p.InLeft?)
  {
    if !p.Hole? {
      var sib := if p.InLeft? then p.right else p.left;
      assert Rep(m, sib, p.elm);
      assert sib.Fork? ==> sib.elm in Nodes(sib);
    }
  }

  lemma NextAfter(p: Path)
    ensures p.InLeft? ==> After(p) == [p.elm] + (InOrder(p.right) + After(p.up))
    ensures p.InRight? ==> After(p) == After(p.up)
  {
  }

  lemma {:induction false} NotNull(m: Memory, t: Tree, up: Ptr)
    requires Rep(m, t, up)
    ensures forall n :: n in InOrder(t) ==> n != NULL && n in m
  {
    if t.Fork? {
      NotNull(m, t.left, t.elm);
      NotNull(m, t.right, t.elm);
    }
  }
}
