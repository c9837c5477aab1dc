/** The red-black tree over the arena: RB_INSERT, RB_REMOVE and their fix-up loops. */
module RbTrees {
  import opened Arena
  import opened RbTheory
  import opened RbMemory

  class RbTree {
    var root: Ptr
    var mem: Memory
    // The key field of every node in memory.
    var key: map<Ptr, nat>
    // The tree the entries spell out.
    ghost var tree: Tree

    ghost predicate Valid()
      reads this
    {
      At(mem, root, Hole, tree) && Balanced(tree) && Sorted(key, InOrder(tree))
    }

    /** The nodes of the tree, by increasing key. */
    ghost function Contents(): seq<Ptr>
      reads this
    {
      InOrder(tree)
    }

    lemma NoNull()
      requires Valid()
      ensures NULL !in Contents()
    {
      NotNull(mem, tree, NULL);
    }

    /** RB_INIT. */
    constructor ()
      ensures Valid() && Contents() == [] && key == map[]
    {
      root, mem, key, tree := NULL, map[], map[], Leaf;
      new;
      assert RB(tree, 0);
    }

    /** The key field of a node outside the tree is written. */
    method SetKey(n: Ptr, k: nat)
      requires Valid() && n !in Contents()
      modifies this`key
      ensures Valid() && key == old(key)[n := k] && Contents() == old(Contents())
    {
      hide At, RB, InOrder;
      key := key[n := k];
    }

    method RotateLeft(elm: Ptr, ghost p: Path, ghost t: Tree)
      requires t.Fork? && t.right.Fork? && t.elm == elm && At(mem, root, p, t)
      modifies this`root, this`mem
      ensures At(mem, root, p, RotL(t))
    {
      RotatedLeftAt(mem, root, p, t);
      var tmp := mem[elm].right;
      mem := SetRight(mem, elm, mem[tmp].left);
      if mem[elm].right != NULL {
        mem := SetParent(mem, mem[tmp].left, elm);
      }
      mem := SetParent(mem, tmp, mem[elm].parent);
      if mem[tmp].parent != NULL {
        if elm == mem[mem[elm].parent].left {
          mem := SetLeft(mem, mem[elm].parent, tmp);
        } else {
          mem := SetRight(mem, mem[elm].parent, tmp);
        }
      } else {
        root := tmp;
      }
      mem := SetLeft(mem, tmp, elm);
      mem := SetParent(mem, elm, tmp);
    }

    method RotateRight(elm: Ptr, ghost p: Path, ghost t: Tree)
      requires t.Fork? && t.left.Fork? && t.elm == elm && At(mem, root, p, t)
      modifies this`root, this`mem
      ensures At(mem, root, p, RotR(t))
    {
      RotatedRightAt(mem, root, p, t);
      var tmp := mem[elm].left;
      mem := SetLeft(mem, elm, mem[tmp].right);
      if mem[elm].left != NULL {
        mem := SetParent(mem, mem[tmp].right, elm);
      }
      mem := SetParent(mem, tmp, mem[elm].parent);
      if mem[tmp].parent != NULL {
        if elm == mem[mem[elm].parent].left {
          mem := SetLeft(mem, mem[elm].parent, tmp);
        } else {
          mem := SetRight(mem, mem[elm].parent, tmp);
        }
      } else {
        root := tmp;
      }
      mem := SetRight(mem, tmp, elm);
      mem := SetParent(mem, elm, tmp);
    }

    /** The last rotation of RB_INSERT_COLOR, for an outer left child: parent black, grandparent red, rotate right. */
    method FinishLeft(parent: Ptr, gparent: Ptr, ghost p: Path, ghost t: Tree)
      requires At(mem, root, p, t) && p.InLeft? && p.up.InLeft? && parent == p.elm && gparent == p.up.elm
      modifies this`root, this`mem
      ensures At(mem, root, Settled(p), t)
    {
      ghost var up := p.up.up;
      Up(mem, root, p, t);
      Up(mem, root, p.up, Grow(p, t));
      ghost var g := Grow(p.up, Grow(p, t));
      PaintedLeftAt(mem, root, up, g, Black);
      mem := SetColor(mem, parent, Black);
      g := g.(left := Paint(g.left, Black));
      PaintedAt(mem, root, up, g, Red);
      mem := SetColor(mem, gparent, Red);
      g := Paint(g, Red);
      RotateRight(gparent, up, g);
      DownLeft(mem, root, up, RotR(g));
    }

    method FinishRight(parent: Ptr, gparent: Ptr, ghost p: Path, ghost t: Tree)
      requires At(mem, root, p, t) && p.InRight? && p.up.InRight? && parent == p.elm && gparent == p.up.elm
      modifies this`root, this`mem
      ensures At(mem, root, Settled(p), t)
    {
      ghost var up := p.up.up;
      Up(mem, root, p, t);
      Up(mem, root, p.up, Grow(p, t));
      ghost var g := Grow(p.up, Grow(p, t));
      PaintedRightAt(mem, root, up, g, Black);
      mem := SetColor(mem, parent, Black);
      g := g.(right := Paint(g.right, Black));
      PaintedAt(mem, root, up, g, Red);
      mem := SetColor(mem, gparent, Red);
      g := Paint(g, Red);
      RotateLeft(gparent, up, g);
      DownRight(mem, root, up, RotL(g));
    }

    /** Red parent and red uncle, on either side. */
    method Recolor(tmp: Ptr, parent: Ptr, gparent: Ptr, ghost p: Path, ghost t: Tree)
      requires At(mem, root, p, t) && !p.Hole? && !p.up.Hole? && parent == p.elm && gparent == p.up.elm
      requires var u := if p.up.InLeft? then p.up.right else p.up.left; u.Fork? && tmp == u.elm
      modifies this`root, this`mem
      ensures At(mem, root, p.up.up, Recolored(p, t))
    {
      RecoloredAt(mem, root, p, t);
      mem := SetColor(mem, tmp, Black);
      mem := SetColor(mem, parent, Black);
      mem := SetColor(mem, gparent, Red);
    }

    /** One turn of the RB_INSERT_COLOR loop when the red parent is a left child. */
    method InsertStepLeft(elm: Ptr, ghost p: Path, ghost t: Tree, ghost h: int)
      returns (next: Ptr, ghost p': Path, ghost t': Tree, ghost h': int)
      requires At(mem, root, p, t) && RedAt(p, t, h) && elm == t.elm
      requires RedAbove(p) && p.up.InLeft?
      modifies this`root, this`mem
      ensures At(mem, root, p', t') && RedAt(p', t', h') && next == t'.elm
      ensures Whole(p', t') == Whole(p, t) && Depth(p') < Depth(p)
    {
      hide At, RB, Fits, Whole, InOrder;
      RecoloredRedAt(p, t, h);
      Family(mem, root, p, t);
      AtHead(mem, root, p, t);
      var parent := mem[elm].parent;
      var gparent := mem[parent].parent;
      var tmp := mem[gparent].right;
      if tmp != NULL && mem[tmp].color.Red? {
        RecoloredInOrder(p, t);
        Recolor(tmp, parent, gparent, p, t);
        return gparent, p.up.up, Recolored(p, t), h + 1;
      }
      ghost var q, s := p, t;
      next := elm;
      if mem[parent].right == elm {
        InnerRedAt(p, t, h);
        Up(mem, root, p, t);
        ghost var r := RotL(Grow(p, t));
        RotateLeft(parent, p.up, Grow(p, t));
        DownLeft(mem, root, p.up, r);
        q, s := InLeft(Red, r.elm, r.right, p.up), r.left;
        parent, next := elm, parent;
      }
      SettledRedAt(q, s, h);
      FinishLeft(parent, gparent, q, s);
      p', t', h' := Settled(q), s, h;
    }

    method InsertStepRight(elm: Ptr, ghost p: Path, ghost t: Tree, ghost h: int)
      returns (next: Ptr, ghost p': Path, ghost t': Tree, ghost h': int)
      requires At(mem, root, p, t) && RedAt(p, t, h) && elm == t.elm
      requires RedAbove(p) && p.up.InRight?
      modifies this`root, this`mem
      ensures At(mem, root, p', t') && RedAt(p', t', h') && next == t'.elm
      ensures Whole(p', t') == Whole(p, t) && Depth(p') < Depth(p)
    {
      hide At, RB, Fits, Whole, InOrder;
      RecoloredRedAt(p, t, h);
      Family(mem, root, p, t);
      AtHead(mem, root, p, t);
      var parent := mem[elm].parent;
      var gparent := mem[parent].parent;
      var tmp := mem[gparent].left;
      if tmp != NULL && mem[tmp].color.Red? {
        RecoloredInOrder(p, t);
        Recolor(tmp, parent, gparent, p, t);
        return gparent, p.up.up, Recolored(p, t), h + 1;
      }
      ghost var q, s := p, t;
      next := elm;
      if mem[parent].left == elm {
        InnerRedAt(p, t, h);
        Up(mem, root, p, t);
        ghost var r := RotR(Grow(p, t));
        RotateRight(parent, p.up, Grow(p, t));
        DownRight(mem, root, p.up, r);
        q, s := InRight(Red, r.left, r.elm, p.up), r.right;
        parent, next := elm, parent;
      }
      SettledRedAt(q, s, h);
      FinishRight(parent, gparent, q, s);
      p', t', h' := Settled(q), s, h;
    }

    /** RB_INSERT_COLOR. */
    method InsertColor(elm: Ptr, ghost p: Path, ghost t: Tree, ghost h: int) returns (ghost t': Tree)
      requires At(mem, root, p, t) && RedAt(p, t, h) && elm == t.elm
      modifies this`root, this`mem
      ensures At(mem, root, Hole, t') && Balanced(t') && InOrder(t') == Whole(p, t)
    {
      var e := elm;
      ghost var q, s, k := p, t, h;
      while mem[e].parent != NULL && mem[mem[e].parent].color.Red?
        invariant At(mem, root, q, s) && RedAt(q, s, k) && e == s.elm && Whole(q, s) == Whole(p, t)
        decreases Depth(q)
      {
        Grandparent(mem, root, q, s, k);
        var parent := mem[e].parent;
        var gparent := mem[parent].parent;
        if parent == mem[gparent].left {
          e, q, s, k := InsertStepLeft(e, q, s, k);
        } else {
          e, q, s, k := InsertStepRight(e, q, s, k);
        }
      }
      t' := Rooted(mem, root, q, s, k);
      mem := SetColor(mem, root, Black);
    }

    /** The walk down that RB_FIND and RB_INSERT share: to the node with key k, or to where it would hang. */
    method Descend(k: nat) returns (tmp: Ptr, parent: Ptr, less: bool, ghost q: Path, ghost s: Tree, ghost steps: nat)
      requires Valid()
      ensures At(mem, root, q, s) && Plug(q, s) == tree && Head(s) == tmp && Above(q) == parent
      ensures Between(key, Before(q), k, After(q)) && Whole(q, s) == Contents()
      ensures tmp != NULL ==> tmp in Contents() && tmp in key && key[tmp] == k
      ensures tmp == NULL ==> Contents() == Before(q) + After(q) && forall n :: n in Contents() ==> key[n] != k
      ensures !q.Hole? ==> (less <==> q.InLeft?)
      ensures (s.Leaf? <==> tmp == NULL) && steps == Depth(q) + (if s.Leaf? then 0 else 1)
    {
      tmp, parent, less, q, s, steps := root, NULL, false, Hole, tree, 0;
      assert Whole(q, s) == Contents();
      while tmp != NULL
        invariant At(mem, root, q, s) && Plug(q, s) == tree && Head(s) == tmp && Above(q) == parent
        invariant Between(key, Before(q), k, After(q)) && Whole(q, s) == Contents()
        invariant !q.Hole? ==> (less <==> q.InLeft?)
        invariant steps == Depth(q)
        decreases s
      {
        steps := steps + 1;
        Narrow(key, q, s, k);
        DownLeft(mem, root, q, s);
        DownRight(mem, root, q, s);
        if k < key[tmp] {
          parent, less := tmp, true;
          tmp, q, s := mem[tmp].left, InLeft(s.color, s.elm, s.right, q), s.left;
        } else if k > key[tmp] {
          parent, less := tmp, false;
          tmp, q, s := mem[tmp].right, InRight(s.color, s.left, s.elm, q), s.right;
        } else {
          SearchDone(key, q, s, k);
          return;
        }
      }
      SearchDone(key, q, s, k);
    }

    /** RB_FIND: the node with key k or NULL, after at most 2 log2(n + 1) comparisons. */
    method Find(k: nat) returns (r: Ptr, ghost steps: nat)
      requires Valid()
      ensures r == NULL <==> forall n :: n in Contents() ==> key[n] != k
      ensures r != NULL ==> r in Contents() && key[r] == k
      ensures Pow2(steps) <= Square(|Contents()| + 1)
    {
      ghost var q, s;
      var parent, less;
      r, parent, less, q, s, steps := Descend(k);
      WalkBound(tree, q, s, steps);
    }

    /** RB_MIN. */
    method Min() returns (parent: Ptr)
      requires Valid()
      ensures parent == if |Contents()| == 0 then NULL else Contents()[0]
    {
      var tmp := root;
      parent := NULL;
      ghost var q, s := Hole, tree;
      assert Whole(q, s) == Contents();
      while tmp != NULL
        invariant At(mem, root, q, s) && Head(s) == tmp && Above(q) == parent && Before(q) == []
        invariant Whole(q, s) == Contents() && (q.Hole? || q.InLeft?) && (q.Hole? <==> Above(q) == NULL)
        decreases s
      {
        DownLeft(mem, root, q, s);
        parent := tmp;
        tmp := mem[tmp].left;
        q, s := InLeft(s.color, s.elm, s.right, q), s.left;
      }
      MinDone(q, s);
    }

    /** RB_NEXT of the node at position i. */
    method Next(elm: Ptr, ghost i: nat) returns (r: Ptr)
      requires Valid() && i < |Contents()| && Contents()[i] == elm
      ensures r == if i + 1 < |Contents()| then Contents()[i + 1] else NULL
    {
      ghost var p, t, h := PlaceOf(mem, root, tree, elm);
      ghost var lo, hi := Before(p) + InOrder(t.left), InOrder(t.right) + After(p);
      SortedDistinct(key, Contents(), i, |lo|);
      assert hi == Contents()[i + 1..];
      Nephews(mem, root, p, t);
      if mem[elm].right != NULL {
        ghost var q, u, k;
        r, q, u, k := Successor(elm, p, t, h);
        FirstInOrder(q, u);
      } else {
        assert InOrder(t.right) == [];
        WhichSide(mem, root, p, t);
        if mem[elm].parent != NULL && elm == mem[mem[elm].parent].left {
          NextAfter(p);
          r := mem[elm].parent;
        } else {
          r := Climb(elm, p, t);
        }
      }
    }

    /** RB_NEXT: up from a node as long as it is a right child, and one further. */
    method Climb(elm: Ptr, ghost p: Path, ghost t: Tree) returns (r: Ptr)
      requires At(mem, root, p, t) && t.Fork? && elm == t.elm
      ensures r == if After(p) == [] then NULL else After(p)[0]
    {
      r := elm;
      ghost var q, s := p, t;
      WhichSide(mem, root, q, s);
      while mem[r].parent != NULL && r == mem[mem[r].parent].right
        invariant At(mem, root, q, s) && s.Fork? && r == s.elm && After(q) == After(p)
        invariant r in mem && mem[r].parent == Above(q) && (!q.Hole? ==> q.elm in mem)
        decreases q
      {
        WhichSide(mem, root, q, s);
        NextAfter(q);
        Up(mem, root, q, s);
        r := mem[r].parent;
        q, s := q.up, Grow(q, s);
        WhichSide(mem, root, q, s);
      }
      WhichSide(mem, root, q, s);
      NextAfter(q);
      r := mem[r].parent;
    }

    /** RB_FOREACH as count_node uses it: every node once, by increasing key. */
    method Count() returns (n: nat, ghost visited: seq<Ptr>)
      requires Valid()
      ensures visited == Contents() && n == |visited|
    {
      n, visited := 0, [];
      NotNull(mem, tree, NULL);
      var table := Min();
      while table != NULL
        invariant n <= |Contents()| && visited == Contents()[..n]
        invariant table == if n < |Contents()| then Contents()[n] else NULL
        invariant forall i :: 0 <= i < |Contents()| ==> Contents()[i] != NULL
        decreases |Contents()| - n
      {
        visited := visited + [table];
        table := Next(table, n);
        n := n + 1;
      }
    }

    /** The second half of RB_INSERT: RB_SET, the link down from parent, and the fix-up. */
    method Attach(elm: Ptr, parent: Ptr, less: bool, ghost q: Path, ghost h: int) returns (ghost t': Tree)
      requires At(mem, root, q, Leaf) && Fits(q, 0) && elm != NULL && elm !in PathNodes(q)
      requires Above(q) == parent && (!q.Hole? ==> (less <==> q.InLeft?))
      modifies this`root, this`mem
      ensures At(mem, root, Hole, t') && Balanced(t') && InOrder(t') == Before(q) + [elm] + After(q)
    {
      Hung(mem, root, q, elm);
      mem := mem[elm := Entry(NULL, NULL, parent, Red)];
      if parent != NULL {
        if less {
          mem := SetLeft(mem, parent, elm);
        } else {
          mem := SetRight(mem, parent, elm);
        }
      } else {
        root := elm;
      }
      ghost var t := Fork(Red, Leaf, elm, Leaf);
      SingleRed(elm);
      t' := InsertColor(elm, q, t, 0);
    }

    /** RB_INSERT: r is the node that already holds elm's key, or NULL when elm went in at position i. */
    method Insert(elm: Ptr) returns (r: Ptr, ghost i: nat)
      requires Valid() && elm != NULL && elm in key
      modifies this`root, this`mem, this`tree
      ensures Valid()
      ensures r == NULL <==> forall n :: n in old(Contents()) ==> key[n] != key[elm]
      ensures r == NULL ==> i <= |old(Contents())| && Contents() == old(Contents())[..i] + [elm] + old(Contents())[i..]
      ensures r != NULL ==> r in Contents() && key[r] == key[elm]
      ensures r != NULL ==> root == old(root) && mem == old(mem) && tree == old(tree)
    {
      ghost var q, s;
      var parent, less;
      ghost var steps;
      r, parent, less, q, s, steps := Descend(key[elm]);
      i := |Before(q)|;
      if r != NULL {
        return;
      }
      InsertSorted(key, Before(q), elm, After(q));
      PlugNodes(q, s);
      NodesInOrder(tree);
      ghost var hh :| RB(tree, hh);
      ghost var h := UnplugRB(q, s, hh);
      tree := Attach(elm, parent, less, q, h);
    }

    /** After the last rotation the whole tree is balanced again. */
    lemma Paid(up: Path, g: Tree, h: int) returns (q: Path, s: Tree, k: int)
      requires At(mem, root, up, g) && RB(g, h) && Fits(up, h) && (RedAbove(up) ==> !IsRed(g))
      ensures At(mem, root, q, s) && q.Hole? && Short(q, s, k) && Whole(q, s) == Whole(up, g)
    {
      PlugAt(mem, root, up, g);
      PlugWhole(up, g);
      k := PlugRB(up, g, h);
      q, s := Hole, Plug(up, g);
      PlugWhole(q, s);
    }

    /** RB_REMOVE_COLOR, red sibling: sibling black, parent red, rotate. */
    method LowerLeft(tmp: Ptr, parent: Ptr, ghost up: Path, ghost g: Tree)
      requires At(mem, root, up, g) && g.Fork? && g.right.Fork? && parent == g.elm && tmp == g.right.elm
      modifies this`root, this`mem
      ensures At(mem, root, up, LoweredLeft(g))
    {
      PaintedRightAt(mem, root, up, g, Black);
      mem := SetColor(mem, tmp, Black);
      ghost var g1 := g.(right := Paint(g.right, Black));
      PaintedAt(mem, root, up, g1, Red);
      mem := SetColor(mem, parent, Red);
      RotateLeft(parent, up, Paint(g1, Red));
    }

    /** RB_REMOVE_COLOR, red inner child of a black sibling: rotate it above the sibling. */
    method TurnLeft(tmp: Ptr, ghost up: Path, ghost g: Tree)
      requires At(mem, root, up, g) && g.Fork? && g.right.Fork? && g.right.left.Fork? && tmp == g.right.elm
      modifies this`root, this`mem
      ensures At(mem, root, up, TurnedLeft(g))
    {
      Nephews(mem, root, up, g);
      var oleft := mem[tmp].left;
      if oleft != NULL {
        PaintedRightLeftAt(mem, root, up, g, Black);
        mem := SetColor(mem, oleft, Black);
      }
      ghost var g1 := g.(right := g.right.(left := Paint(g.right.left, Black)));
      PaintedRightAt(mem, root, up, g1, Red);
      mem := SetColor(mem, tmp, Red);
      ghost var g2 := g1.(right := Paint(g1.right, Red));
      DownRight(mem, root, up, g2);
      ghost var q := InRight(g2.color, g2.left, g2.elm, up);
      RotateRight(tmp, q, g2.right);
      Up(mem, root, q, RotR(g2.right));
    }

    /** RB_REMOVE_COLOR, red outer child of a black sibling: the last rotation. */
    method PayLeft(tmp: Ptr, parent: Ptr, ghost up: Path, ghost g: Tree)
      requires At(mem, root, up, g) && g.Fork? && g.right.Fork? && g.right.right.Fork?
      requires parent == g.elm && tmp == g.right.elm
      modifies this`root, this`mem
      ensures At(mem, root, up, PaidLeft(g))
    {
      PaintedRightAt(mem, root, up, g, g.color);
      mem := SetColor(mem, tmp, mem[parent].color);
      ghost var g1 := g.(right := Paint(g.right, g.color));
      PaintedAt(mem, root, up, g1, Black);
      mem := SetColor(mem, parent, Black);
      ghost var g2 := Paint(g1, Black);
      Nephews(mem, root, up, g2);
      PaintedRightRightAt(mem, root, up, g2, Black);
      if mem[tmp].right != NULL {
        mem := SetColor(mem, mem[tmp].right, Black);
      }
      RotateLeft(parent, up, g2.(right := g2.right.(right := Paint(g2.right.right, Black))));
    }

    /** The rest of a turn of RB_REMOVE_COLOR, once the sibling is black. */
    method BlackSiblingLeft(parent: Ptr, ghost up: Path, ghost g: Tree, ghost h: int)
      returns (elm: Ptr, above: Ptr, ghost q: Path, ghost s: Tree, ghost k: int)
      requires At(mem, root, up, g) && ShortLeft(up, g, h) && !IsRed(g.right) && parent == g.elm
      modifies this`root, this`mem
      ensures At(mem, root, q, s) && Short(q, s, k) && elm == Head(s) && above == Above(q)
        && Whole(q, s) == Whole(up, g)
      ensures q.Hole? || (q == up && (IsRed(g) ==> IsRed(s)))
    {
      hide RB, Fits, Level, InOrder, At;
      ShortLeftSibling(up, g, h);
      Nephews(mem, root, up, g);
      var tmp := mem[parent].right;
      if (mem[tmp].left == NULL || mem[mem[tmp].left].color.Black?) &&
         (mem[tmp].right == NULL || mem[mem[tmp].right].color.Black?) {
        RaisedLeftShort(up, g, h);
        PaintedRightAt(mem, root, up, g, Red);
        mem := SetColor(mem, tmp, Red);
        q, s, k := up, g.(right := Paint(g.right, Red)), HeightOver(g.color, h);
        AtHead(mem, root, q, s);
        elm := parent;
        above := mem[elm].parent;
      } else {
        ghost var g1 := g;
        if mem[tmp].right == NULL || mem[mem[tmp].right].color.Black? {
          TurnedLeftShort(up, g, h);
          TurnLeft(tmp, up, g);
          g1 := TurnedLeft(g);
          Nephews(mem, root, up, g1);
          tmp := mem[parent].right;
        }
        PaidLeftDone(up, g1, h);
        PayLeft(tmp, parent, up, g1);
        q, s, k := Paid(up, PaidLeft(g1), HeightOver(g1.color, h + 1));
        AtHead(mem, root, q, s);
        elm, above := root, NULL;
      }
    }

    /** RB_REMOVE_COLOR, red sibling: sibling black, parent red, rotate. */
    method LowerRight(tmp: Ptr, parent: Ptr, ghost up: Path, ghost g: Tree)
      requires At(mem, root, up, g) && g.Fork? && g.left.Fork? && parent == g.elm && tmp == g.left.elm
      modifies this`root, this`mem
      ensures At(mem, root, up, LoweredRight(g))
    {
      PaintedLeftAt(mem, root, up, g, Black);
      mem := SetColor(mem, tmp, Black);
      ghost var g1 := g.(left := Paint(g.left, Black));
      PaintedAt(mem, root, up, g1, Red);
      mem := SetColor(mem, parent, Red);
      RotateRight(parent, up, Paint(g1, Red));
    }

    /** RB_REMOVE_COLOR, red inner child of a black sibling: rotate it above the sibling. */
    method TurnRight(tmp: Ptr, ghost up: Path, ghost g: Tree)
      requires At(mem, root, up, g) && g.Fork? && g.left.Fork? && g.left.right.Fork? && tmp == g.left.elm
      modifies this`root, this`mem
      ensures At(mem, root, up, TurnedRight(g))
    {
      Nephews(mem, root, up, g);
      var oright := mem[tmp].right;
      if oright != NULL {
        PaintedLeftRightAt(mem, root, up, g, Black);
        mem := SetColor(mem, oright, Black);
      }
      ghost var g1 := g.(left := g.left.(right := Paint(g.left.right, Black)));
      PaintedLeftAt(mem, root, up, g1, Red);
      mem := SetColor(mem, tmp, Red);
      ghost var g2 := g1.(left := Paint(g1.left, Red));
      DownLeft(mem, root, up, g2);
      ghost var q := InLeft(g2.color, g2.elm, g2.right, up);
      RotateLeft(tmp, q, g2.left);
      Up(mem, root, q, RotL(g2.left));
    }

    /** RB_REMOVE_COLOR, red outer child of a black sibling: the last rotation. */
    method PayRight(tmp: Ptr, parent: Ptr, ghost up: Path, ghost g: Tree)
      requires At(mem, root, up, g) && g.Fork? && g.left.Fork? && g.left.left.Fork?
      requires parent == g.elm && tmp == g.left.elm
      modifies this`root, this`mem
      ensures At(mem, root, up, PaidRight(g))
    {
      PaintedLeftAt(mem, root, up, g, g.color);
      mem := SetColor(mem, tmp, mem[parent].color);
      ghost var g1 := g.(left := Paint(g.left, g.color));
      PaintedAt(mem, root, up, g1, Black);
      mem := SetColor(mem, parent, Black);
      ghost var g2 := Paint(g1, Black);
      Nephews(mem, root, up, g2);
      PaintedLeftLeftAt(mem, root, up, g2, Black);
      if mem[tmp].left != NULL {
        mem := SetColor(mem, mem[tmp].left, Black);
      }
      RotateRight(parent, up, g2.(left := g2.left.(left := Paint(g2.left.left, Black))));
    }

    /** The rest of a turn of RB_REMOVE_COLOR, once the sibling is black. */
    method BlackSiblingRight(parent: Ptr, ghost up: Path, ghost g: Tree, ghost h: int)
      returns (elm: Ptr, above: Ptr, ghost q: Path, ghost s: Tree, ghost k: int)
      requires At(mem, root, up, g) && ShortRight(up, g, h) && !IsRed(g.left) && parent == g.elm
      modifies this`root, this`mem
      ensures At(mem, root, q, s) && Short(q, s, k) && elm == Head(s) && above == Above(q)
        && Whole(q, s) == Whole(up, g)
      ensures q.Hole? || (q == up && (IsRed(g) ==> IsRed(s)))
    {
      hide RB, Fits, Level, InOrder, At;
      ShortRightSibling(up, g, h);
      Nephews(mem, root, up, g);
      var tmp := mem[parent].left;
      if (mem[tmp].right == NULL || mem[mem[tmp].right].color.Black?) &&
         (mem[tmp].left == NULL || mem[mem[tmp].left].color.Black?) {
        RaisedRightShort(up, g, h);
        PaintedLeftAt(mem, root, up, g, Red);
        mem := SetColor(mem, tmp, Red);
        q, s, k := up, g.(left := Paint(g.left, Red)), HeightOver(g.color, h);
        AtHead(mem, root, q, s);
        elm := parent;
        above := mem[elm].parent;
      } else {
        ghost var g1 := g;
        if mem[tmp].left == NULL || mem[mem[tmp].left].color.Black? {
          TurnedRightShort(up, g, h);
          TurnRight(tmp, up, g);
          g1 := TurnedRight(g);
          Nephews(mem, root, up, g1);
          tmp := mem[parent].left;
        }
        PaidRightDone(up, g1, h);
        PayRight(tmp, parent, up, g1);
        q, s, k := Paid(up, PaidRight(g1), HeightOver(g1.color, h + 1));
        AtHead(mem, root, q, s);
        elm, above := root, NULL;
      }
    }

    /** One turn of the RB_REMOVE_COLOR loop when the short side is a left child. */
    method RemoveStepLeft(parent: Ptr, ghost p: Path, ghost t: Tree, ghost h: int)
      returns (elm: Ptr, above: Ptr, ghost q: Path, ghost s: Tree, ghost k: int)
      requires At(mem, root, p, t) && Short(p, t, h) && !IsRed(t) && p.InLeft? && parent == p.elm
      modifies this`root, this`mem
      ensures At(mem, root, q, s) && Short(q, s, k) && elm == Head(s) && above == Above(q) && Whole(q, s) == Whole(p, t)
      ensures IsRed(s) || Depth(q) < Depth(p)
    {
      ghost var up, g := p.up, Grow(p, t);
      Up(mem, root, p, t);
      ShortLeftSibling(up, g, h);
      Nephews(mem, root, up, g);
      var tmp := mem[parent].right;
      if mem[tmp].color.Red? {
        LoweredLeftShort(up, g, h);
        LowerLeft(tmp, parent, up, g);
        ghost var r := LoweredLeft(g);
        DownLeft(mem, root, up, r);
        up, g := InLeft(r.color, r.elm, r.right, up), r.left;
      }
      elm, above, q, s, k := BlackSiblingLeft(parent, up, g, h);
    }

    /** One turn of the RB_REMOVE_COLOR loop when the short side is a right child. */
    method RemoveStepRight(parent: Ptr, ghost p: Path, ghost t: Tree, ghost h: int)
      returns (elm: Ptr, above: Ptr, ghost q: Path, ghost s: Tree, ghost k: int)
      requires At(mem, root, p, t) && Short(p, t, h) && !IsRed(t) && p.InRight? && parent == p.elm
      modifies this`root, this`mem
      ensures At(mem, root, q, s) && Short(q, s, k) && elm == Head(s) && above == Above(q) && Whole(q, s) == Whole(p, t)
      ensures IsRed(s) || Depth(q) < Depth(p)
    {
      ghost var up, g := p.up, Grow(p, t);
      Up(mem, root, p, t);
      ShortRightSibling(up, g, h);
      Nephews(mem, root, up, g);
      var tmp := mem[parent].left;
      if mem[tmp].color.Red? {
        LoweredRightShort(up, g, h);
        LowerRight(tmp, parent, up, g);
        ghost var r := LoweredRight(g);
        DownRight(mem, root, up, r);
        up, g := InRight(r.color, r.left, r.elm, up), r.right;
      }
      elm, above, q, s, k := BlackSiblingRight(parent, up, g, h);
    }

    /** RB_REMOVE_COLOR. */
    method RemoveColor(parent: Ptr, elm: Ptr, ghost p: Path, ghost t: Tree, ghost h: int) returns (ghost t': Tree)
      requires At(mem, root, p, t) && Short(p, t, h) && elm == Head(t) && parent == Above(p)
      modifies this`root, this`mem
      ensures At(mem, root, Hole, t') && Balanced(t') && InOrder(t') == Whole(p, t)
    {
      var e, above := elm, parent;
      ghost var q, s, k := p, t, h;
      Outside(q, s, k);
      while (e == NULL || mem[e].color.Black?) && e != root
        invariant At(mem, root, q, s) && Short(q, s, k) && e == Head(s) && above == Above(q)
        invariant Whole(q, s) == Whole(p, t)
        invariant e == root <==> q.Hole?
        invariant e != NULL ==> e in mem && mem[e].color == s.color
        invariant !q.Hole? ==> above in mem && (mem[above].left == e <==> q.InLeft?)
        decreases if IsRed(s) then 0 else Depth(q) + 1
      {
        if mem[above].left == e {
          e, above, q, s, k := RemoveStepLeft(above, q, s, k);
        } else {
          e, above, q, s, k := RemoveStepRight(above, q, s, k);
        }
        Outside(q, s, k);
      }
      t' := Settle(mem, root, q, s, k);
      if e != NULL {
        mem := SetColor(mem, e, Black);
      }
    }

    /** What the removal loop tests at the place (q, s). */
    lemma Outside(q: Path, s: Tree, k: int)
      requires At(mem, root, q, s) && Short(q, s, k)
      ensures Head(s) == root <==> q.Hole?
      ensures s.Fork? <==> Head(s) != NULL
      ensures s.Fork? ==> s.elm in mem && mem[s.elm].color == s.color
      ensures !q.Hole? ==> q.elm in mem
      ensures !q.Hole? ==> (mem[q.elm].left == Head(s) <==> q.InLeft?)
    {
      if !q.Hole? {
        RootAbove(mem, q, Head(s), root);
        if s.Fork? {
          HeightNonNegative(s.left, Below(s.color, k));
        }
        ghost var sib := if q.InLeft? then q.right else q.left;
        HeightNonNegative(sib, k + 1);
        assert Rep(mem, sib, q.elm);
      }
    }

    /** RB_REMOVE: child takes the place of elm under parent. */
    method Unlink(elm: Ptr, child: Ptr, parent: Ptr, ghost p: Path, ghost t: Tree, ghost ct: Tree)
      requires At(mem, root, p, t) && t.Fork? && elm == t.elm && child == Head(ct) && parent == Above(p)
      requires (t.left.Leaf? && ct == t.right) || (t.right.Leaf? && ct == t.left)
      modifies this`root, this`mem
      ensures At(mem, root, p, ct) && elm in mem && mem[elm].parent == parent
      ensures elm != NULL && elm !in Nodes(ct) && elm !in PathNodes(p)
    {
      UnlinkedAt(mem, root, p, t, ct);
      if child != NULL {
        mem := SetParent(mem, child, parent);
      }
      if parent != NULL {
        if mem[parent].left == elm {
          mem := SetLeft(mem, parent, child);
        } else {
          mem := SetRight(mem, parent, child);
        }
      } else {
        root := child;
      }
    }

    /** RB_REMOVE: the successor elm, already taken out, takes over the entry and the neighbours of old'. */
    method Replace(old_: Ptr, elm: Ptr, ghost p: Path, ghost t: Tree)
      requires At(mem, root, p, t) && t.Fork? && t.left.Fork? && old_ == t.elm
      requires elm != NULL && elm !in Nodes(t) && elm !in PathNodes(p)
      modifies this`root, this`mem
      ensures At(mem, root, p, t.(elm := elm))
    {
      ReplacedAt(mem, root, p, t, elm);
      assert Rep(mem, t.left, old_);
      mem := mem[elm := mem[old_]];
      if mem[old_].parent != NULL {
        if mem[mem[old_].parent].left == old_ {
          mem := SetLeft(mem, mem[old_].parent, elm);
        } else {
          mem := SetRight(mem, mem[old_].parent, elm);
        }
      } else {
        root := elm;
      }
      mem := SetParent(mem, mem[old_].left, elm);
      if mem[old_].right != NULL {
        mem := SetParent(mem, mem[old_].right, elm);
      }
    }

    /** The end of RB_REMOVE: a black node taken out above ct leaves it short; a red one leaves no trace. */
    method Rebalance(color: Color, parent: Ptr, child: Ptr, ghost p: Path, ghost ct: Tree, ghost h: int)
      returns (ghost t': Tree)
      requires At(mem, root, p, ct) && child == Head(ct) && parent == Above(p)
      requires if color.Black? then Short(p, ct, h) else Balanced(Plug(p, ct))
      modifies this`root, this`mem
      ensures At(mem, root, Hole, t') && Balanced(t') && InOrder(t') == Whole(p, ct)
    {
      t' := Plug(p, ct);
      PlugAt(mem, root, p, ct);
      PlugWhole(p, ct);
      if color.Black? {
        t' := RemoveColor(parent, child, p, ct, h);
      }
    }

    /** RB_REMOVE of a node with at most one child. */
    method RemoveOuter(elm: Ptr, child: Ptr, ghost p: Path, ghost t: Tree, ghost ct: Tree, ghost h: int)
      returns (ghost t': Tree)
      requires At(mem, root, p, t) && t.Fork? && elm == t.elm && child == Head(ct)
      requires (t.left.Leaf? && ct == t.right) || (t.right.Leaf? && ct == t.left)
      requires RB(t, h) && Fits(p, h) && (RedAbove(p) || p.Hole? ==> !IsRed(t))
      modifies this`root, this`mem
      ensures At(mem, root, Hole, t') && Balanced(t')
      ensures InOrder(t') == (Before(p) + InOrder(t.left)) + (InOrder(t.right) + After(p))
    {
      assert elm in mem && mem[elm].parent == Above(p) && mem[elm].color == t.color;
      Unlinked(p, t, ct, h);
      UnlinkedWhole(p, t, ct);
      var parent := mem[elm].parent;
      var color := mem[elm].color;
      Unlink(elm, child, parent, p, t, ct);
      t' := Rebalance(color, parent, child, p, ct, h - 1);
    }

    /** RB_REMOVE: the walk from a node with two children to its successor. */
    method Successor(old_: Ptr, ghost p: Path, ghost t: Tree, ghost h: int)
      returns (elm: Ptr, ghost q: Path, ghost u: Tree, ghost k: int)
      requires At(mem, root, p, t) && t.Fork? && t.right.Fork? && old_ == t.elm
      requires RB(t, h) && Fits(p, h) && (RedAbove(p) || p.Hole? ==> !IsRed(t))
      ensures Leftmost(mem, root, InRight(t.color, t.left, old_, p), t.right, q, u, k) && u.left.Leaf? && elm == u.elm
    {
      ghost var base := InRight(t.color, t.left, old_, p);
      DownRight(mem, root, p, t);
      elm, q, u, k := mem[old_].right, Hole, t.right, Below(t.color, h);
      LeftmostDown(mem, root, base, t.right, q, u, k);
      while mem[elm].left != NULL
        invariant Leftmost(mem, root, base, t.right, q, u, k) && elm == u.elm && elm in mem
        invariant mem[elm].left == Head(u.left) && (u.left.Fork? <==> Head(u.left) != NULL)
        decreases u
      {
        LeftmostDown(mem, root, base, t.right, q, u, k);
        elm := mem[elm].left;
        q, u, k := InLeft(u.color, u.elm, u.right, q), u.left, Below(u.color, k);
        LeftmostDown(mem, root, base, t.right, q, u, k);
      }
    }

    /** RB_REMOVE: the successor, taken out of its own place, takes the place of old'. */
    method Succeed(old_: Ptr, elm: Ptr, child: Ptr, parent: Ptr, color: Color,
                   ghost p: Path, ghost t: Tree, ghost q: Path, ghost u: Tree, ghost k: int)
      returns (ghost t': Tree)
      requires t.Fork? && t.left.Fork? && old_ == t.elm && u.Fork? && u.left.Leaf?
      requires Before(q) == [] && Plug(q, u) == t.right
      requires elm == u.elm && child == Head(u.right) && color == u.color && parent == if q.Hole? then elm else q.elm
      requires var at := Append(q, InRight(t.color, t.left, old_, p));
        && At(mem, root, at, u.right) && elm != NULL && elm !in Nodes(u.right) && elm !in PathNodes(at)
        && RB(u, k) && Fits(at, k) && (RedAbove(at) ==> !IsRed(u))
      modifies this`root, this`mem
      ensures At(mem, root, Hole, t') && Balanced(t')
      ensures InOrder(t') == (Before(p) + InOrder(t.left)) + (InOrder(t.right) + After(p))
    {
      ghost var base, base' := InRight(t.color, t.left, old_, p), InRight(t.color, t.left, elm, p);
      ghost var r := Plug(q, u.right);
      ghost var t1 := t.(right := r);
      UpPath(mem, root, q, base, u.right);
      Up(mem, root, base, r);
      PlugNodes(q, u.right);
      AppendNodes(q, base);
      assert Nodes(t1) == Nodes(t.left) + {old_} + Nodes(r);
      Replace(old_, elm, p, t1);
      DownRight(mem, root, p, t1.(elm := elm));
      DownPath(mem, root, q, base', u.right);
      FitsAppend(q, t.color, t.left, old_, elm, p, k);
      AppendHole(q, t.color, t.left, elm, p);
      Unlinked(Append(q, base'), u, u.right, k);
      t' := Rebalance(color, parent, child, Append(q, base'), u.right, k - 1);
      SucceededContents(p, t, q, u);
    }

    /** RB_REMOVE of a node with two children: its successor, the leftmost node to its right, takes its place. */
    method RemoveInner(old_: Ptr, ghost p: Path, ghost t: Tree, ghost h: int) returns (ghost t': Tree)
      requires At(mem, root, p, t) && t.Fork? && t.left.Fork? && t.right.Fork? && old_ == t.elm
      requires RB(t, h) && Fits(p, h) && (RedAbove(p) || p.Hole? ==> !IsRed(t))
      modifies this`root, this`mem
      ensures At(mem, root, Hole, t') && Balanced(t')
      ensures InOrder(t') == (Before(p) + InOrder(t.left)) + (InOrder(t.right) + After(p))
    {
      ghost var base := InRight(t.color, t.left, old_, p);
      var elm;
      ghost var q, u, k;
      elm, q, u, k := Successor(old_, p, t, h);
      Nephews(mem, root, Append(q, base), u);
      if !q.Hole? {
        AppendDistinct(q, base, old_);
      }
      ghost var ru := u.right;
      AppendHole(q, t.color, t.left, old_, p);
      AppendHole(q, t.color, t.left, elm, p);
      Unlinked(Append(q, base), u, ru, k);
      assert mem[elm].parent == Above(Append(q, base)) && mem[elm].color == u.color && mem[elm].right == Head(ru);
      var child := mem[elm].right;
      var parent := mem[elm].parent;
      var color := mem[elm].color;
      Unlink(elm, child, parent, Append(q, base), u, ru);
      if mem[elm].parent == old_ {
        parent := elm;
      }
      t' := Succeed(old_, elm, child, parent, color, p, t, q, u, k);
    }

    /** RB_REMOVE at the place (p, t): the three cases. */
    method RemoveAt(elm: Ptr, ghost p: Path, ghost t: Tree, ghost h: int) returns (ghost t': Tree)
      requires At(mem, root, p, t) && t.Fork? && elm == t.elm
      requires RB(t, h) && Fits(p, h) && (RedAbove(p) || p.Hole? ==> !IsRed(t))
      modifies this`root, this`mem
      ensures At(mem, root, Hole, t') && Balanced(t')
      ensures InOrder(t') == (Before(p) + InOrder(t.left)) + (InOrder(t.right) + After(p))
    {
      Nephews(mem, root, p, t);
      var left, right := mem[elm].left, mem[elm].right;
      if left == NULL {
        t' := RemoveOuter(elm, right, p, t, t.right, h);
      } else if right == NULL {
        t' := RemoveOuter(elm, left, p, t, t.left, h);
      } else {
        t' := RemoveInner(elm, p, t, h);
      }
    }

    /** RB_REMOVE. */
    method Remove(elm: Ptr) returns (old_: Ptr, ghost i: nat)
      requires Valid() && elm in Contents()
      modifies this`root, this`mem, this`tree
      ensures Valid() && old_ == elm
      ensures i < |old(Contents())| && old(Contents())[i] == elm
      ensures Contents() == old(Contents())[..i] + old(Contents())[i + 1..]
    {
      hide At, RB, Fits;
      old_ := elm;
      ghost var c := Contents();
      ghost var p, t, h := PlaceOf(mem, root, tree, elm);
      ghost var lo, hi := Before(p) + InOrder(t.left), InOrder(t.right) + After(p);
      i := |lo|;
      assert c[..i] == lo && c[i] == elm && c[i + 1..] == hi;
      RemoveSorted(key, lo, elm, hi);
      tree := RemoveAt(elm, p, t, h);
    }
  }
}
