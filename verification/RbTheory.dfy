/** The shape of a red-black tree and of a tree with a hole, as values: what the link fields are meant to spell out. */
module RbTheory {
  import opened Arena

  datatype Tree = Leaf | Fork(color: Color, left: Tree, elm: Ptr, right: Tree)

  /** A tree with one subtree taken out, described from the hole up to the root. */
  datatype Path =
    | Hole
    | InLeft(color: Color, elm: Ptr, right: Tree, up: Path)
    | InRight(color: Color, left: Tree, elm: Ptr, up: Path)

  function Head(t: Tree): Ptr {
    if t.Leaf? then NULL else t.elm
  }

  function Above(p: Path): Ptr {
    if p.Hole? then NULL else p.elm
  }

  /** The subtree t seen one level up. */
  function Grow(p: Path, t: Tree): Tree
    requires !p.Hole?
  {
    match p
    case InLeft(c, n, r, _) => Fork(c, t, n, r)
    case InRight(c, l, n, _) => Fork(c, l, n, t)
  }

  function Plug(p: Path, t: Tree): Tree
    decreases p
  {
    if p.Hole? then t else Plug(p.up, Grow(p, t))
  }

  function Append(q: Path, base: Path): Path {
    match q
    case Hole => base
    case InLeft(c, n, r, up) => InLeft(c, n, r, Append(up, base))
    case InRight(c, l, n, up) => InRight(c, l, n, Append(up, base))
  }

  function Depth(p: Path): nat {
    if p.Hole? then 0 else 1 + Depth(p.up)
  }

  function Nodes(t: Tree): set<Ptr> {
    match t
    case Leaf => {}
    case Fork(_, l, n, r) => Nodes(l) + {n} + Nodes(r)
  }

  function PathNodes(p: Path): set<Ptr> {
    match p
    case Hole => {}
    case InLeft(_, n, r, up) => PathNodes(up) + {n} + Nodes(r)
    case InRight(_, l, n, up) => PathNodes(up) + {n} + Nodes(l)
  }

  // ---- every node occurs once ----

  predicate Distinct(t: Tree) {
    match t
    case Leaf => true
    case Fork(_, l, n, r) =>
      n !in Nodes(l) && n !in Nodes(r) && Nodes(l) !! Nodes(r) && Distinct(l) && Distinct(r)
  }

  predicate DistinctPath(p: Path) {
    match p
    case Hole => true
    case InLeft(_, n, r, up) =>
      n !in PathNodes(up) && n !in Nodes(r) && Nodes(r) !! PathNodes(up) && Distinct(r) && DistinctPath(up)
    case InRight(_, l, n, up) =>
      n !in PathNodes(up) && n !in Nodes(l) && Nodes(l) !! PathNodes(up) && Distinct(l) && DistinctPath(up)
  }

  predicate Apart(p: Path, t: Tree) {
    Distinct(t) && DistinctPath(p) && PathNodes(p) !! Nodes(t)
  }

  // ---- in-order contents ----

  function InOrder(t: Tree): seq<Ptr> {
    match t
    case Leaf => []
    case Fork(_, l, n, r) => InOrder(l) + [n] + InOrder(r)
  }

  /** What comes before, and after, the hole in order. */
  function Before(p: Path): seq<Ptr> {
    match p
    case Hole => []
    case InLeft(_, _, _, up) => Before(up)
    case InRight(_, l, n, up) => Before(up) + InOrder(l) + [n]
  }

  function After(p: Path): seq<Ptr> {
    match p
    case Hole => []
    case InLeft(_, n, r, up) => [n] + InOrder(r) + After(up)
    case InRight(_, _, _, up) => After(up)
  }

  function Whole(p: Path, t: Tree): seq<Ptr> {
    Before(p) + InOrder(t) + After(p)
  }

  // ---- colours and black heights ----

  predicate IsRed(t: Tree) {
    t.Fork? && t.color.Red?
  }

  predicate RedAbove(p: Path) {
    !p.Hole? && p.color.Red?
  }

  function Below(c: Color, h: int): int {
    if c.Black? then h - 1 else h
  }

  /** t has h black nodes on every way down and no red node with a red child. */
  predicate RB(t: Tree, h: int) {
    match t
    case Leaf => h == 0
    case Fork(c, l, _, r) =>
      RB(l, Below(c, h)) && RB(r, Below(c, h)) && (c.Red? ==> !IsRed(l) && !IsRed(r))
  }

  /** The hole of p wants a subtree of black height h. */
  predicate Fits(p: Path, h: int)
    decreases p
  {
    if p.Hole? then true
    else
      var sib := if p.InLeft? then p.right else p.left;
      RB(sib, h) &&
      (p.color.Red? ==> !IsRed(sib) && !p.up.Hole? && !RedAbove(p.up)) &&
      Fits(p.up, if p.color.Black? then h + 1 else h)
  }

  ghost predicate Balanced(t: Tree) {
    !IsRed(t) && exists h :: RB(t, h)
  }

  function Paint(t: Tree, c: Color): Tree
    requires t.Fork?
  {
    t.(color := c)
  }

  function RotL(t: Tree): Tree
    requires t.Fork? && t.right.Fork?
  {
    Fork(t.right.color, Fork(t.color, t.left, t.elm, t.right.left), t.right.elm, t.right.right)
  }

  function RotR(t: Tree): Tree
    requires t.Fork? && t.left.Fork?
  {
    Fork(t.left.color, t.left.left, t.left.elm, Fork(t.color, t.left.right, t.elm, t.right))
  }

  lemma RotLApart(p: Path, t: Tree)
    requires t.Fork? && t.right.Fork? && Apart(p, t)
    ensures Nodes(RotL(t)) == Nodes(t) && Apart(p, RotL(t))
  {
    var l := RotL(t).left;
    assert Nodes(t.right) == Nodes(t.right.left) + {t.right.elm} + Nodes(t.right.right);
    assert Nodes(l) == Nodes(t.left) + {t.elm} + Nodes(t.right.left);
    assert Distinct(t.right) && Distinct(l);
  }

  lemma RenamedApart(p: Path, t: Tree, n: Ptr)
    requires t.Fork? && Apart(p, t) && n !in Nodes(t) && n !in PathNodes(p)
    ensures Apart(p, t.(elm := n))
    ensures !p.Hole? ==> p.elm in PathNodes(p)
    ensures t.left.Fork? ==> t.left.elm in Nodes(t.left)
    ensures t.right.Fork? ==> t.right.elm in Nodes(t.right)
  {
    assert Nodes(t.(elm := n)) == Nodes(t.left) + {n} + Nodes(t.right);
  }

  lemma RotRApart(p: Path, t: Tree)
    requires t.Fork? && t.left.Fork? && Apart(p, t)
    ensures Nodes(RotR(t)) == Nodes(t) && Apart(p, RotR(t))
  {
    var r := RotR(t).right;
    assert Nodes(t.left) == Nodes(t.left.left) + {t.left.elm} + Nodes(t.left.right);
    assert Nodes(r) == Nodes(t.left.right) + {t.elm} + Nodes(t.right);
    assert Distinct(t.left) && Distinct(r);
  }

  /** Two ways to bracket a sequence of three parts and two elements. */
  lemma Rebracket<A>(a: seq<A>, m: A, b: seq<A>, n: A, c: seq<A>)
    ensures (a + [m] + b) + [n] + c == a + [m] + (b + [n] + c)
  {
  }

  /** Something standing around one part and one element. */
  lemma Around<A>(b: seq<A>, x: seq<A>, n: A, y: seq<A>, a: seq<A>)
    ensures b + (x + [n] + y) + a == b + x + ([n] + y + a)
    ensures b + (x + [n] + y) + a == (b + x + [n]) + y + a
  {
  }

  lemma WholeUp(p: Path, t: Tree)
    requires !p.Hole?
    ensures Whole(p.up, Grow(p, t)) == Whole(p, t)
  {
    match p
    case InLeft(_, n, r, up) =>
      Around(Before(up), InOrder(t), n, InOrder(r), After(up));
    case InRight(_, l, n, up) =>
      Around(Before(up), InOrder(l), n, InOrder(t), After(up));
  }

  lemma RotLInOrder(t: Tree)
    requires t.Fork? && t.right.Fork?
    ensures InOrder(RotL(t)) == InOrder(t)
  {
    var r := t.right;
    var a, b, c := InOrder(t.left), InOrder(r.left), InOrder(r.right);
    var l := Fork(t.color, t.left, t.elm, r.left);
    assert InOrder(r) == b + [r.elm] + c && InOrder(l) == a + [t.elm] + b;
    Rebracket(a, t.elm, b, r.elm, c);
  }

  lemma RotRInOrder(t: Tree)
    requires t.Fork? && t.left.Fork?
    ensures InOrder(RotR(t)) == InOrder(t)
  {
    var l := t.left;
    var a, b, c := InOrder(l.left), InOrder(l.right), InOrder(t.right);
    var r := Fork(t.color, l.right, t.elm, t.right);
    assert InOrder(l) == a + [l.elm] + b && InOrder(r) == b + [t.elm] + c;
    Rebracket(a, l.elm, b, t.elm, c);
  }

  // ---- insertion: what one turn of the fix-up loop does to colours and heights ----

  /** A red head of black height h, in a place where only its own redness can be wrong. */
  predicate RedAt(p: Path, t: Tree, h: int) {
    IsRed(t) && RB(t, h) && Fits(p, h)
  }

  /** Red parent and red uncle: both black, the grandparent red. */
  function Recolored(p: Path, t: Tree): Tree
    requires !p.Hole? && !p.up.Hole?
    requires if p.up.InLeft? then p.up.right.Fork? else p.up.left.Fork?
  {
    var s := Paint(Grow(p, t), Black);
    if p.up.InLeft? then Fork(Red, s, p.up.elm, Paint(p.up.right, Black))
    else Fork(Red, Paint(p.up.left, Black), p.up.elm, s)
  }

  lemma RecoloredInOrder(p: Path, t: Tree)
    requires !p.Hole? && !p.up.Hole?
    requires if p.up.InLeft? then p.up.right.Fork? else p.up.left.Fork?
    ensures Whole(p.up.up, Recolored(p, t)) == Whole(p, t)
  {
    var s := Grow(p, t);
    WholeUp(p, t);
    WholeUp(p.up, s);
    assert InOrder(Paint(s, Black)) == InOrder(s);
    var u := if p.up.InLeft? then p.up.right else p.up.left;
    assert InOrder(Paint(u, Black)) == InOrder(u);
  }

  lemma RecoloredRedAt(p: Path, t: Tree, h: int)
    requires RedAt(p, t, h) && RedAbove(p)
    ensures !p.up.Hole?
    ensures IsRed(if p.up.InLeft? then p.up.right else p.up.left) ==> RedAt(p.up.up, Recolored(p, t), h + 1)
  {
    var u := if p.up.InLeft? then p.up.right else p.up.left;
    assert Fits(p.up, h);
    if IsRed(u) {
      assert Fits(p.up.up, h + 1);
      assert RB(Paint(u, Black), h + 1);
      assert RB(Paint(Grow(p, t), Black), h + 1);
    }
  }

  /** Black uncle and an inner red child: the rotation at the parent makes the old parent an outer red child. */
  lemma InnerRedAt(p: Path, t: Tree, h: int)
    requires RedAt(p, t, h) && RedAbove(p)
    ensures p.InRight? ==>
        var r := RotL(Grow(p, t));
        && RedAt(InLeft(Red, r.elm, r.right, p.up), r.left, h)
        && Whole(InLeft(Red, r.elm, r.right, p.up), r.left) == Whole(p, t)
    ensures p.InLeft? ==>
        var r := RotR(Grow(p, t));
        && RedAt(InRight(Red, r.left, r.elm, p.up), r.right, h)
        && Whole(InRight(Red, r.left, r.elm, p.up), r.right) == Whole(p, t)
  {
    WholeUp(p, t);
    assert Fits(p.up, h);
    if p.InRight? {
      var r := RotL(Grow(p, t));
      RotLInOrder(Grow(p, t));
      WholeUp(InLeft(Red, r.elm, r.right, p.up), r.left);
    } else {
      var r := RotR(Grow(p, t));
      RotRInOrder(Grow(p, t));
      WholeUp(InRight(Red, r.left, r.elm, p.up), r.right);
    }
  }

  /** The place of an outer red child after the rotation at the black grandparent: under a black parent. */
  function Settled(p: Path): Path
    requires !p.Hole? && !p.up.Hole?
  {
    match p
    case InLeft(_, n, d, g) => InLeft(Black, n, Fork(Red, d, g.elm, if g.InLeft? then g.right else g.left), g.up)
    case InRight(_, d, n, g) => InRight(Black, Fork(Red, if g.InRight? then g.left else g.right, g.elm, d), n, g.up)
  }

  lemma SettledRedAt(p: Path, t: Tree, h: int)
    requires RedAt(p, t, h) && RedAbove(p) && !p.up.Hole?
    requires if p.InLeft? then p.up.InLeft? && !IsRed(p.up.right) else p.up.InRight? && !IsRed(p.up.left)
    ensures RedAt(Settled(p), t, h) && Whole(Settled(p), t) == Whole(p, t)
  {
    assert Fits(p.up, h);
    WholeUp(p, t);
    WholeUp(p.up, Grow(p, t));
    WholeUp(Settled(p), t);
    if p.InLeft? {
      RotRInOrder(Grow(p.up, Grow(p, t)));
    } else {
      RotLInOrder(Grow(p.up, Grow(p, t)));
    }
  }

  // ---- a tree and its places ----

  lemma {:induction false} PlugWhole(p: Path, t: Tree)
    ensures InOrder(Plug(p, t)) == Whole(p, t)
    decreases p
  {
    if p.Hole? {
      assert Whole(p, t) == [] + InOrder(t) + [];
    } else {
      WholeUp(p, t);
      PlugWhole(p.up, Grow(p, t));
    }
  }

  lemma {:induction false} PlugRB(p: Path, t: Tree, h: int) returns (hh: int)
    requires RB(t, h) && Fits(p, h) && (RedAbove(p) ==> !IsRed(t))
    ensures RB(Plug(p, t), hh) && (p.Hole? ==> Plug(p, t) == t) && (!p.Hole? ==> !IsRed(Plug(p, t)))
    decreases p
  {
    if p.Hole? {
      hh := h;
    } else {
      var k := if p.color.Black? then h + 1 else h;
      assert RB(Grow(p, t), k);
      hh := PlugRB(p.up, Grow(p, t), k);
    }
  }

  lemma {:induction false} UnplugRB(p: Path, t: Tree, hh: int) returns (h: int)
    requires RB(Plug(p, t), hh) && !IsRed(Plug(p, t))
    ensures RB(t, h) && Fits(p, h) && (RedAbove(p) || p.Hole? ==> !IsRed(t))
    decreases p
  {
    if p.Hole? {
      h := hh;
    } else {
      var k := UnplugRB(p.up, Grow(p, t), hh);
      h := Below(p.color, k);
    }
  }

  lemma BlackenedBalanced(t: Tree, h: int)
    requires t.Fork? && RB(t, h)
    ensures Balanced(Paint(t, Black)) && InOrder(Paint(t, Black)) == InOrder(t)
  {
    assert RB(Paint(t, Black), if t.color.Red? then h + 1 else h);
  }

  // ---- order ----

  predicate Keyed(key: map<Ptr, nat>, s: seq<Ptr>) {
    forall n :: n in s ==> n in key
  }

  predicate Sorted(key: map<Ptr, nat>, s: seq<Ptr>) {
    Keyed(key, s) && forall i, j :: 0 <= i < j < |s| ==> key[s[i]] < key[s[j]]
  }

  /** k lies between the keys of lo and the keys of hi. */
  predicate Between(key: map<Ptr, nat>, lo: seq<Ptr>, k: nat, hi: seq<Ptr>) {
    Keyed(key, lo) && Keyed(key, hi) &&
    (forall n :: n in lo ==> key[n] < k) && (forall n :: n in hi ==> k < key[n])
  }

  lemma SplitSorted(key: map<Ptr, nat>, lo: seq<Ptr>, n: Ptr, hi: seq<Ptr>)
    requires Sorted(key, lo + [n] + hi)
    ensures n in key && Between(key, lo, key[n], hi)
  {
    var w := lo + [n] + hi;
    assert w[|lo|] == n;
    assert forall x :: x in lo || x in hi ==> x in w;
    assert forall i :: 0 <= i < |lo| ==> w[i] == lo[i];
    assert forall i :: 0 <= i < |hi| ==> w[|lo| + 1 + i] == hi[i];
  }

  /** The head of t splits what p and t hold. */
  lemma WholeSplit(p: Path, t: Tree)
    requires t.Fork?
    ensures Whole(p, t) == (Before(p) + InOrder(t.left)) + [t.elm] + (InOrder(t.right) + After(p))
  {
  }

  /** Turning left or right at the head of t, as the comparison says, keeps k between what is left and what is right. */
  lemma Narrow(key: map<Ptr, nat>, p: Path, t: Tree, k: nat)
    requires t.Fork? && Sorted(key, Whole(p, t)) && Between(key, Before(p), k, After(p))
    ensures t.elm in key
    ensures k < key[t.elm] ==> Between(key, Before(p), k, [t.elm] + InOrder(t.right) + After(p))
    ensures key[t.elm] < k ==> Between(key, Before(p) + InOrder(t.left) + [t.elm], k, After(p))
  {
    var b, l, r, a := Before(p), InOrder(t.left), InOrder(t.right), After(p);
    WholeSplit(p, t);
    SplitSorted(key, b + l, t.elm, r + a);
    assert forall x :: x in [t.elm] + r + a ==> x == t.elm || x in r + a;
    assert forall x :: x in b + l + [t.elm] ==> x == t.elm || x in b + l;
  }

  /** Inserting k's node between lo and hi keeps them sorted. */
  lemma InsertSorted(key: map<Ptr, nat>, lo: seq<Ptr>, n: Ptr, hi: seq<Ptr>)
    requires Sorted(key, lo + hi) && n in key && Between(key, lo, key[n], hi)
    ensures Sorted(key, lo + [n] + hi)
    ensures forall x :: x in lo + hi ==> key[x] != key[n]
  {
    var s, s' := lo + hi, lo + [n] + hi;
    forall i, j | 0 <= i < j < |s'|
      ensures key[s'[i]] < key[s'[j]]
    {
      if i < |lo| {
        assert s'[i] == s[i] && s'[i] in lo;
      } else if i > |lo| {
        assert s'[i] == s[i - 1] && s'[i] in hi;
      }
      if j < |lo| {
        assert s'[j] == s[j] && s'[j] in lo;
      } else if j > |lo| {
        assert s'[j] == s[j - 1] && s'[j] in hi;
      }
    }
  }

  lemma SingleRed(n: Ptr)
    ensures var t := Fork(Red, Leaf, n, Leaf); RB(t, 0) && InOrder(t) == [n] && Nodes(t) == {n}
  {
    var l := Leaf;
    assert !IsRed(l) && InOrder(l) == [] && Nodes(l) == {};
    assert InOrder(Fork(Red, l, n, l)) == [] + [n] + [];
  }

  /** At the end of a search for k: either no node of the whole has key k, or the head of t is one that has. */
  lemma SearchDone(key: map<Ptr, nat>, p: Path, t: Tree, k: nat)
    requires Between(key, Before(p), k, After(p))
    ensures t.Leaf? ==> Whole(p, t) == Before(p) + After(p) && forall n :: n in Whole(p, t) ==> n in key && key[n] != k
    ensures t.Fork? ==> t.elm in Whole(p, t)
  {
    if t.Fork? {
      WholeSplit(p, t);
    } else {
      assert InOrder(t) == [];
    }
  }

  // ---- removal: what one turn of the fix-up loop does to colours and heights ----

  lemma {:induction false} HeightNonNegative(t: Tree, h: int)
    requires RB(t, h)
    ensures 0 <= h && (t.Leaf? <==> h == 0 && !IsRed(t))
  {
    if t.Fork? {
      HeightNonNegative(t.left, Below(t.color, h));
    }
  }

  /** As RB, except that a red head may have red children. */
  predicate Level(t: Tree, h: int) {
    match t
    case Leaf => h == 0
    case Fork(c, l, _, r) => RB(l, Below(c, h)) && RB(r, Below(c, h))
  }

  /** t is one black node short of what the hole of p wants. */
  predicate Short(p: Path, t: Tree, h: int) {
    Level(t, h) && Fits(p, h + 1)
  }

  /** The black height of a tree with head colour c whose subtrees have height h. */
  function HeightOver(c: Color, h: int): int {
    if c.Black? then h + 1 else h
  }

  /** The left subtree of g, in up, is black and one black node short. */
  predicate ShortLeft(up: Path, g: Tree, h: int) {
    g.Fork? && !IsRed(g.left) && RB(g.left, h) && Fits(InLeft(g.color, g.elm, g.right, up), h + 1)
  }

  lemma ShortLeftSibling(up: Path, g: Tree, h: int)
    requires ShortLeft(up, g, h)
    ensures g.right.Fork? && 0 <= h
    ensures !IsRed(g.right) && IsRed(g.right.right) ==> g.right.right.Fork?
  {
    HeightNonNegative(g.left, h);
    HeightNonNegative(g.right, h + 1);
  }

  /** Red sibling: sibling black, parent red, rotate; the short side gets a black sibling. */
  function LoweredLeft(g: Tree): Tree
    requires g.Fork? && g.right.Fork?
  {
    RotL(Paint(g.(right := Paint(g.right, Black)), Red))
  }

  lemma LoweredLeftShort(up: Path, g: Tree, h: int)
    requires ShortLeft(up, g, h) && IsRed(g.right)
    ensures var r := LoweredLeft(g);
      ShortLeft(InLeft(r.color, r.elm, r.right, up), r.left, h) && !IsRed(r.left.right) && r.left.color.Red?
    ensures InOrder(LoweredLeft(g)) == InOrder(g)
  {
    var g1 := Paint(g.(right := Paint(g.right, Black)), Red);
    assert InOrder(g1.right) == InOrder(g.right) && InOrder(g1) == InOrder(g);
    RotLInOrder(g1);
    assert Fits(up, h + 2);
    var r := LoweredLeft(g);
    assert RB(r.right, h + 1) && RB(r.left.right, h + 1);
    assert Fits(InLeft(r.color, r.elm, r.right, up), h + 1);
  }

  /** Black sibling with black children: painted red, it makes the whole of g short. */
  lemma RaisedLeftShort(up: Path, g: Tree, h: int)
    requires ShortLeft(up, g, h) && g.right.Fork? && !IsRed(g.right)
    requires !IsRed(g.right.left) && !IsRed(g.right.right)
    ensures Short(up, g.(right := Paint(g.right, Red)), HeightOver(g.color, h))
    ensures InOrder(g.(right := Paint(g.right, Red))) == InOrder(g)
  {
    assert RB(Paint(g.right, Red), h);
    assert InOrder(Paint(g.right, Red)) == InOrder(g.right);
  }

  /** Red inner child of a black sibling: moved above the sibling, it makes the outer child red. */
  function TurnedLeft(g: Tree): Tree
    requires g.Fork? && g.right.Fork? && g.right.left.Fork?
  {
    g.(right := RotR(Paint(g.right.(left := Paint(g.right.left, Black)), Red)))
  }

  lemma TurnedLeftShort(up: Path, g: Tree, h: int)
    requires ShortLeft(up, g, h) && g.right.Fork? && !IsRed(g.right)
    requires IsRed(g.right.left) && !IsRed(g.right.right)
    ensures var g' := TurnedLeft(g);
      ShortLeft(up, g', h) && g'.right.Fork? && !IsRed(g'.right) && IsRed(g'.right.right) && InOrder(g') == InOrder(g)
  {
    var s := g.right;
    var s1 := Paint(s.(left := Paint(s.left, Black)), Red);
    assert InOrder(s1.left) == InOrder(s.left) && InOrder(s1) == InOrder(s);
    RotRInOrder(s1);
    assert RB(s.left, h) && RB(s.right, h);
    assert RB(RotR(s1).right, h);
  }

  /** Red outer child of a black sibling: the last rotation pays the missing black node. */
  function PaidLeft(g: Tree): Tree
    requires g.Fork? && g.right.Fork? && g.right.right.Fork?
  {
    var s := Paint(g.right, g.color);
    RotL(Paint(g, Black).(right := s.(right := Paint(s.right, Black))))
  }

  lemma PaidLeftDone(up: Path, g: Tree, h: int)
    requires ShortLeft(up, g, h) && g.right.Fork? && !IsRed(g.right) && IsRed(g.right.right)
    ensures var k := HeightOver(g.color, h + 1);
      RB(PaidLeft(g), k) && Fits(up, k) && (RedAbove(up) || up.Hole? ==> !IsRed(PaidLeft(g)))
    ensures InOrder(PaidLeft(g)) == InOrder(g)
  {
    var s := g.right;
    assert RB(s.left, h) && RB(s.right, h);
    var s0, g0 := Paint(s, g.color), Paint(g, Black);
    assert s0.Fork? && g0.Fork?;
    var s1 := s0.(right := Paint(s.right, Black));
    assert InOrder(s1.right) == InOrder(s.right) && InOrder(s1) == InOrder(s);
    var g1 := g0.(right := s1);
    assert InOrder(g1) == InOrder(g);
    RotLInOrder(g1);
    assert RB(Paint(s.right, Black), h + 1) && RB(RotL(g1).left, h + 1);
  }

  /** The right subtree of g, in up, is black and one black node short. */
  predicate ShortRight(up: Path, g: Tree, h: int) {
    g.Fork? && !IsRed(g.right) && RB(g.right, h) && Fits(InRight(g.color, g.left, g.elm, up), h + 1)
  }

  lemma ShortRightSibling(up: Path, g: Tree, h: int)
    requires ShortRight(up, g, h)
    ensures g.left.Fork? && 0 <= h
    ensures !IsRed(g.left) && IsRed(g.left.left) ==> g.left.left.Fork?
  {
    HeightNonNegative(g.right, h);
    HeightNonNegative(g.left, h + 1);
  }

  /** Red sibling: sibling black, parent red, rotate; the short side gets a black sibling. */
  function LoweredRight(g: Tree): Tree
    requires g.Fork? && g.left.Fork?
  {
    RotR(Paint(g.(left := Paint(g.left, Black)), Red))
  }

  lemma LoweredRightShort(up: Path, g: Tree, h: int)
    requires ShortRight(up, g, h) && IsRed(g.left)
    ensures var r := LoweredRight(g);
      ShortRight(InRight(r.color, r.left, r.elm, up), r.right, h) && !IsRed(r.right.left) && r.right.color.Red?
    ensures InOrder(LoweredRight(g)) == InOrder(g)
  {
    var g1 := Paint(g.(left := Paint(g.left, Black)), Red);
    assert InOrder(g1.left) == InOrder(g.left) && InOrder(g1) == InOrder(g);
    RotRInOrder(g1);
    assert Fits(up, h + 2);
    var r := LoweredRight(g);
    assert RB(r.left, h + 1) && RB(r.right.left, h + 1);
    assert Fits(InRight(r.color, r.left, r.elm, up), h + 1);
  }

  /** Black sibling with black children: painted red, it makes the whole of g short. */
  lemma RaisedRightShort(up: Path, g: Tree, h: int)
    requires ShortRight(up, g, h) && g.left.Fork? && !IsRed(g.left)
    requires !IsRed(g.left.right) && !IsRed(g.left.left)
    ensures Short(up, g.(left := Paint(g.left, Red)), HeightOver(g.color, h))
    ensures InOrder(g.(left := Paint(g.left, Red))) == InOrder(g)
  {
    assert RB(Paint(g.left, Red), h);
    assert InOrder(Paint(g.left, Red)) == InOrder(g.left);
  }

  /** Red inner child of a black sibling: moved above the sibling, it makes the outer child red. */
  function TurnedRight(g: Tree): Tree
    requires g.Fork? && g.left.Fork? && g.left.right.Fork?
  {
    g.(left := RotL(Paint(g.left.(right := Paint(g.left.right, Black)), Red)))
  }

  lemma TurnedRightShort(up: Path, g: Tree, h: int)
    requires ShortRight(up, g, h) && g.left.Fork? && !IsRed(g.left)
    requires IsRed(g.left.right) && !IsRed(g.left.left)
    ensures var g' := TurnedRight(g);
      ShortRight(up, g', h) && g'.left.Fork? && !IsRed(g'.left) && IsRed(g'.left.left) && InOrder(g') == InOrder(g)
  {
    var s := g.left;
    var s1 := Paint(s.(right := Paint(s.right, Black)), Red);
    assert InOrder(s1.right) == InOrder(s.right) && InOrder(s1) == InOrder(s);
    RotLInOrder(s1);
    assert RB(s.right, h) && RB(s.left, h);
    assert RB(RotL(s1).left, h);
  }

  /** Red outer child of a black sibling: the last rotation pays the missing black node. */
  function PaidRight(g: Tree): Tree
    requires g.Fork? && g.left.Fork? && g.left.left.Fork?
  {
    var s := Paint(g.left, g.color);
    RotR(Paint(g, Black).(left := s.(left := Paint(s.left, Black))))
  }

  lemma PaidRightDone(up: Path, g: Tree, h: int)
    requires ShortRight(up, g, h) && g.left.Fork? && !IsRed(g.left) && IsRed(g.left.left)
    ensures var k := HeightOver(g.color, h + 1);
      RB(PaidRight(g), k) && Fits(up, k) && (RedAbove(up) || up.Hole? ==> !IsRed(PaidRight(g)))
    ensures InOrder(PaidRight(g)) == InOrder(g)
  {
    var s := g.left;
    assert RB(s.right, h) && RB(s.left, h);
    var s0, g0 := Paint(s, g.color), Paint(g, Black);
    assert s0.Fork? && g0.Fork?;
    var s1 := s0.(left := Paint(s.left, Black));
    assert InOrder(s1.left) == InOrder(s.left) && InOrder(s1) == InOrder(s);
    var g1 := g0.(left := s1);
    assert InOrder(g1) == InOrder(g);
    RotRInOrder(g1);
    assert RB(Paint(s.left, Black), h + 1) && RB(RotR(g1).right, h + 1);
  }

  // ---- removal: finding places and putting paths together ----

  /** The place of the node n in t. */
  lemma {:induction false} Focus(t: Tree, n: Ptr, base: Path) returns (p: Path, s: Tree)
    requires n in Nodes(t)
    ensures Plug(p, s) == Plug(base, t) && s.Fork? && s.elm == n
  {
    if n == t.elm {
      p, s := base, t;
    } else if n in Nodes(t.left) {
      p, s := Focus(t.left, n, InLeft(t.color, t.elm, t.right, base));
    } else {
      p, s := Focus(t.right, n, InRight(t.color, t.left, t.elm, base));
    }
  }

  lemma {:induction false} PlugAppend(q: Path, base: Path, u: Tree)
    ensures Plug(Append(q, base), u) == Plug(base, Plug(q, u))
  {
    if !q.Hole? {
      PlugAppend(q.up, base, Grow(q, u));
    }
  }

  lemma {:induction false} AppendNodes(q: Path, base: Path)
    ensures PathNodes(Append(q, base)) == PathNodes(q) + PathNodes(base)
  {
    if !q.Hole? {
      AppendNodes(q.up, base);
    }
  }

  /** The heights a path wants do not depend on which node stands at its base. */
  lemma {:induction false} FitsAppend(q: Path, c: Color, l: Tree, n: Ptr, n': Ptr, p: Path, h: int)
    requires Fits(Append(q, InRight(c, l, n, p)), h)
    ensures Fits(Append(q, InRight(c, l, n', p)), h)
    ensures RedAbove(Append(q, InRight(c, l, n', p))) == RedAbove(Append(q, InRight(c, l, n, p)))
  {
    if !q.Hole? {
      FitsAppend(q.up, c, l, n, n', p, if q.color.Black? then h + 1 else h);
    }
  }

  lemma AppendHole(q: Path, c: Color, l: Tree, n: Ptr, p: Path)
    ensures !Append(q, InRight(c, l, n, p)).Hole?
    ensures Above(Append(q, InRight(c, l, n, p))) == if q.Hole? then n else q.elm
  {
  }

  /** Black height after a node with at most the child ct is taken out. */
  lemma Unlinked(p: Path, t: Tree, ct: Tree, h: int)
    requires t.Fork? && ((t.left.Leaf? && ct == t.right) || (t.right.Leaf? && ct == t.left))
    requires RB(t, h) && Fits(p, h) && (RedAbove(p) ==> !IsRed(t)) && (p.Hole? ==> !IsRed(t))
    ensures t.color.Black? ==> Short(p, ct, h - 1)
    ensures t.color.Red? ==> Balanced(Plug(p, ct))
  {
    if t.color.Red? {
      var hh := PlugRB(p, ct, h);
    }
  }

  lemma UnlinkedWhole(p: Path, t: Tree, ct: Tree)
    requires t.Fork? && ((t.left.Leaf? && ct == t.right) || (t.right.Leaf? && ct == t.left))
    ensures Whole(p, t) == (Before(p) + InOrder(t.left)) + [t.elm] + (InOrder(t.right) + After(p))
    ensures Whole(p, ct) == (Before(p) + InOrder(t.left)) + (InOrder(t.right) + After(p))
  {
    WholeSplit(p, t);
    Beside(Before(p), InOrder(ct), After(p));
  }

  lemma Beside<A>(b: seq<A>, x: seq<A>, a: seq<A>)
    ensures b + x + a == (b + []) + (x + a) && b + x + a == (b + x) + ([] + a)
  {
  }

  /** u's head, with nothing before it in q, comes first. */
  lemma FirstInOrder(q: Path, u: Tree)
    requires u.Fork? && u.left.Leaf? && Before(q) == []
    ensures InOrder(Plug(q, u)) == [u.elm] + InOrder(Plug(q, u.right))
  {
    PlugWhole(q, u);
    PlugWhole(q, u.right);
    assert InOrder(u.left) == [] && InOrder(u) == [] + [u.elm] + InOrder(u.right);
    Front(u.elm, InOrder(u.right), After(q));
  }

  lemma Front<A>(x: A, r: seq<A>, a: seq<A>)
    ensures [] + ([] + [x] + r) + a == [x] + ([] + r + a)
  {
  }

  /** Contents when the successor, first of the right subtree, takes the place of the node n. */
  lemma SucceededWhole(p: Path, t: Tree, n: Ptr, r: Tree)
    requires t.Fork? && InOrder(t.right) == [n] + InOrder(r)
    ensures Whole(p, t.(elm := n, right := r)) == (Before(p) + InOrder(t.left)) + (InOrder(t.right) + After(p))
  {
    WholeSplit(p, t.(elm := n, right := r));
    Pushed(Before(p) + InOrder(t.left), n, InOrder(r), After(p));
  }

  lemma Pushed<A>(b: seq<A>, n: A, s: seq<A>, a: seq<A>)
    ensures b + [n] + (s + a) == b + (([n] + s) + a)
  {
  }

  lemma RemoveSorted(key: map<Ptr, nat>, lo: seq<Ptr>, n: Ptr, hi: seq<Ptr>)
    requires Sorted(key, lo + [n] + hi)
    ensures Sorted(key, lo + hi)
  {
    var w, w' := lo + [n] + hi, lo + hi;
    assert forall i :: 0 <= i < |w'| ==> w'[i] == w[if i < |lo| then i else i + 1];
  }

  /** Contents after the successor, u's head, has taken the place of t's head. */
  lemma SucceededContents(p: Path, t: Tree, q: Path, u: Tree)
    requires t.Fork? && u.Fork? && u.left.Leaf? && Before(q) == [] && Plug(q, u) == t.right
    ensures Whole(Append(q, InRight(t.color, t.left, u.elm, p)), u.right)
            == (Before(p) + InOrder(t.left)) + (InOrder(t.right) + After(p))
  {
    var base', r := InRight(t.color, t.left, u.elm, p), Plug(q, u.right);
    PlugWhole(Append(q, base'), u.right);
    PlugAppend(q, base', u.right);
    PlugWhole(base', r);
    WholeUp(base', r);
    FirstInOrder(q, u);
    SucceededWhole(p, t, u.elm, r);
  }

  lemma AppendDistinct(q: Path, base: Path, n: Ptr)
    requires DistinctPath(Append(q, base)) && !q.Hole? && n in PathNodes(base)
    ensures q.elm != n
  {
    var at := Append(q.up, base);
    AppendNodes(q.up, base);
    assert n in PathNodes(at);
    if q.InLeft? {
      assert Append(q, base) == InLeft(q.color, q.elm, q.right, at);
    } else {
      assert Append(q, base) == InRight(q.color, q.left, q.elm, at);
    }
  }

  // ---- how deep a balanced tree is ----

  function Height(t: Tree): nat {
    if t.Leaf? then 0 else 1 + (if Height(t.left) < Height(t.right) then Height(t.right) else Height(t.left))
  }

  function Pow2(n: nat): nat {
    if n == 0 then 1 else 2 * Pow2(n - 1)
  }

  function Square(n: nat): nat {
    n * n
  }

  lemma {:induction false} Pow2Monotone(a: nat, b: nat)
    requires a <= b
    ensures 1 <= Pow2(a) <= Pow2(b)
  {
    if b > 0 {
      Pow2Monotone(if a < b then a else a - 1, b - 1);
    }
  }

  lemma {:induction false} Pow2Double(b: nat)
    ensures Pow2(2 * b) == Square(Pow2(b))
  {
    if b > 0 {
      Pow2Double(b - 1);
      var x := Pow2(b - 1);
      assert Pow2(2 * b) == 2 * Pow2(2 * b - 1) == 2 * (2 * Pow2(2 * b - 2));
      assert (2 * x) * (2 * x) == 4 * (x * x);
    }
  }

  /** A tree of black height h is at most twice as high, and a red head adds one. */
  lemma {:induction false} HeightBound(t: Tree, h: int)
    requires RB(t, h)
    ensures Height(t) <= 2 * h + (if IsRed(t) then 1 else 0)
  {
    if t.Fork? {
      HeightBound(t.left, Below(t.color, h));
      HeightBound(t.right, Below(t.color, h));
    }
  }

  /** A tree of black height h has at least 2^h - 1 nodes. */
  lemma {:induction false} SizeBound(t: Tree, h: int)
    requires RB(t, h)
    ensures 0 <= h && Pow2(h) <= |InOrder(t)| + 1
  {
    HeightNonNegative(t, h);
    if t.Fork? {
      SizeBound(t.left, Below(t.color, h));
      SizeBound(t.right, Below(t.color, h));
    }
  }

  lemma {:induction false} DepthBound(p: Path, t: Tree)
    ensures Depth(p) + Height(t) <= Height(Plug(p, t))
    decreases p
  {
    if !p.Hole? {
      DepthBound(p.up, Grow(p, t));
    }
  }

  /** In a balanced tree of n nodes no walk down is longer than 2 log2(n + 1). */
  lemma WalkBound(tree: Tree, p: Path, t: Tree, steps: nat)
    requires Balanced(tree) && Plug(p, t) == tree
    requires steps == Depth(p) + (if t.Leaf? then 0 else 1)
    ensures Pow2(steps) <= Square(|InOrder(tree)| + 1)
  {
    var n := |InOrder(tree)|;
    var h :| RB(tree, h);
    hide RB, InOrder, Pow2, Square, Depth, Plug;
    DepthBound(p, t);
    HeightBound(tree, h);
    SizeBound(tree, h);
    assert steps <= 2 * h;
    Pow2Monotone(steps, 2 * h);
    Pow2Double(h);
    SquareMonotone(Pow2(h), n + 1);
  }

  lemma SquareMonotone(a: nat, b: nat)
    requires a <= b
    ensures Square(a) <= Square(b)
  {
    assert a * a <= a * b <= b * b;
  }

  lemma SortedDistinct(key: map<Ptr, nat>, s: seq<Ptr>, i: nat, j: nat)
    requires Sorted(key, s) && i < |s| && j < |s| && s[i] == s[j]
    ensures i == j
  {
    assert !(key[s[i]] < key[s[j]]);
  }

  /** Where the walk to the left ends: at the first node, if there is one. */
  lemma MinDone(p: Path, t: Tree)
    requires t.Leaf? && Before(p) == [] && (p.Hole? || p.InLeft?)
    ensures Whole(p, t) == After(p)
    ensures p.Hole? ==> |After(p)| == 0
    ensures p.InLeft? ==> |After(p)| > 0 && After(p)[0] == p.elm
  {
    assert InOrder(t) == [];
    if p.InLeft? {
      assert After(p) == [p.elm] + InOrder(p.right) + After(p.up);
    }
  }
}
