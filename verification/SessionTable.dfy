/** The doubly indexed session table: the same nodes in two red-black trees, one by LAN key and one by WAN key. */
module SessionTables {
  import opened Arena
  import opened RbTheory
  import opened RbMemory
  import opened RbTrees
  import opened Sessions

  /** The mappings that the nodes in s hold. */
  function Held(node: map<Ptr, Mapping>, s: set<Ptr>): set<Mapping>
    requires s <= node.Keys
  {
    set n | n in s :: node[n]
  }

  function Elements(s: seq<Ptr>): set<Ptr> {
    set n | n in s
  }

  lemma {:induction false} Cardinality(s: seq<Ptr>)
    requires forall i, j :: 0 <= i < j < |s| ==> s[i] != s[j]
    ensures |Elements(s)| == |s|
  {
    if s != [] {
      var k := |s| - 1;
      Cardinality(s[..k]);
      assert s == s[..k] + [s[k]];
      assert Elements(s) == Elements(s[..k]) + {s[k]};
    }
  }

  class SessionTable {
    const l2w: RbTree
    const w2l: RbTree
    // The mapping each allocated node holds.
    var node: map<Ptr, Mapping>

    ghost predicate Valid()
      reads this, l2w, w2l
    {
      && l2w != w2l && l2w.Valid() && w2l.Valid()
      && l2w.key.Keys == node.Keys && w2l.key.Keys == node.Keys
      && (forall n :: n in node ==> l2w.key[n] == LanKey(node[n]) && w2l.key[n] == WanKey(node[n]))
      && (forall n :: n in l2w.Contents() <==> n in w2l.Contents())
    }

    /** The nodes in the table. */
    ghost function Members(): set<Ptr>
      reads this, l2w, w2l
    {
      Elements(l2w.Contents())
    }

    /** The mappings in the table. */
    ghost function Table(): set<Mapping>
      reads this, l2w, w2l
      requires Valid()
    {
      Held(node, Members())
    }

    /** s_init. */
    constructor ()
      ensures Valid() && Members() == {} && fresh(l2w) && fresh(w2l)
    {
      l2w := new RbTree();
      w2l := new RbTree();
      node := map[];
    }

    /** Members are told apart by either key alone. */
    lemma Apart(m: Ptr, n: Ptr)
      requires Valid() && m in Members() && n in Members()
      ensures l2w.key[m] == l2w.key[n] <==> m == n
      ensures w2l.key[m] == w2l.key[n] <==> m == n
    {
      var s, t := l2w.Contents(), w2l.Contents();
      var i :| 0 <= i < |s| && s[i] == m;
      var j :| 0 <= j < |s| && s[j] == n;
      var k :| 0 <= k < |t| && t[k] == m;
      var l :| 0 <= l < |t| && t[l] == n;
    }

    /** The table is a bijection between LAN endpoints and WAN endpoints. */
    lemma TableBijective()
      requires Valid()
      ensures Bijective(Table())
    {
      hide Pack, At, RB, InOrder;
      forall x, y | x in Table() && y in Table() && (LanKey(x) == LanKey(y) || WanKey(x) == WanKey(y))
        ensures x == y
      {
        var m :| m in Members() && node[m] == x;
        var n :| n in Members() && node[n] == y;
        Apart(m, n);
      }
    }

    /** A new node, not yet in the table: malloc, the address fields and the two keys. */
    method Allocate(n: Ptr, m: Mapping)
      requires Valid() && n != NULL && n !in Members()
      modifies this`node, l2w`key, w2l`key
      ensures Valid() && node == old(node)[n := m] && Members() == old(Members())
      ensures l2w.Contents() == old(l2w.Contents()) && w2l.Contents() == old(w2l.Contents())
    {
      node := node[n := m];
      l2w.SetKey(n, LanKey(m));
      w2l.SetKey(n, WanKey(m));
    }

    lemma Spliced(c: seq<Ptr>, i: nat, n: Ptr)
      requires i <= |c|
      ensures forall x :: x in c[..i] + [n] + c[i..] <==> x in c || x == n
      ensures |c[..i] + [n] + c[i..]| == |c| + 1 && (c[..i] + [n] + c[i..])[i] == n
    {
      assert c == c[..i] + c[i..];
    }

    lemma BackOut(c: seq<Ptr>, i: nat, n: Ptr)
      requires i <= |c|
      ensures var s := c[..i] + [n] + c[i..]; s[..i] + s[i + 1..] == c
    {
    }

    /** The rollback of s_insert: taking the node out of the LAN tree undoes its insertion. */
    method Rollback(n: Ptr, ghost c: seq<Ptr>, ghost i: nat)
      requires l2w.Valid() && i <= |c| && l2w.Contents() == c[..i] + [n] + c[i..]
      modifies l2w`root, l2w`mem, l2w`tree
      ensures l2w.Valid() && l2w.Contents() == c
    {
      ghost var s := l2w.Contents();
      Spliced(c, i, n);
      hide At, RB, InOrder;
      ghost var k;
      var gone;
      gone, k := l2w.Remove(n);
      SortedDistinct(l2w.key, s, i, k);
      BackOut(c, i, n);
    }

    /** The second half of s_insert: the node, at position i of the LAN tree, goes into the WAN tree or out again. */
    method InsertWan(n: Ptr, ghost c: seq<Ptr>, ghost i: nat) returns (r: Ptr)
      requires l2w != w2l && l2w.Valid() && w2l.Valid() && n != NULL && n in w2l.key
      requires i <= |c| && l2w.Contents() == c[..i] + [n] + c[i..]
      modifies l2w`root, l2w`mem, l2w`tree, w2l`root, w2l`mem, w2l`tree
      ensures l2w.Valid() && w2l.Valid()
      ensures r == NULL <==> forall x :: x in old(w2l.Contents()) ==> w2l.key[x] != w2l.key[n]
      ensures r == NULL ==> l2w.Contents() == old(l2w.Contents())
      ensures r == NULL ==> forall x :: x in w2l.Contents() <==> x in old(w2l.Contents()) || x == n
      ensures r != NULL ==> l2w.Contents() == c && w2l.Contents() == old(w2l.Contents())
      ensures r != NULL ==> r in w2l.Contents() && w2l.key[r] == w2l.key[n]
    {
      ghost var j;
      ghost var d := w2l.Contents();
      r, j := w2l.Insert(n);
      if r != NULL {
        Rollback(n, c, i);
      } else {
        Spliced(d, j, n);
      }
    }

    /** s_insert: the node goes into both trees or into neither; r is the member in its way. */
    method Insert(n: Ptr) returns (r: Ptr)
      requires Valid() && n != NULL && n in node
      modifies l2w`root, l2w`mem, l2w`tree, w2l`root, w2l`mem, w2l`tree
      ensures Valid()
      ensures r == NULL <==>
              forall x :: x in old(Members()) ==>
                LanKey(node[x]) != LanKey(node[n]) && WanKey(node[x]) != WanKey(node[n])
      ensures r == NULL ==> Members() == old(Members()) + {n}
      ensures r != NULL ==> l2w.Contents() == old(l2w.Contents()) && w2l.Contents() == old(w2l.Contents())
      ensures r != NULL ==> r in Members() && (LanKey(node[r]) == LanKey(node[n]) || WanKey(node[r]) == WanKey(node[n]))
    {
      hide At, RB, InOrder, Pack, Balanced;
      ghost var i;
      ghost var c := l2w.Contents();
      r, i := l2w.Insert(n);
      if r == NULL {
        Spliced(c, i, n);
        r := InsertWan(n, c, i);
      }
    }

    /** What a request_ack does with the table: a node for the mapping is allocated at n and goes in by s_insert. */
    method InsertMapping(n: Ptr, m: Mapping) returns (r: Ptr)
      requires Valid() && n != NULL && n !in Members()
      modifies this`node, l2w, w2l
      ensures Valid() && Table() == Inserted(old(Table()), m)
      ensures r == NULL <==> !LanTaken(old(Table()), m) && !WanTaken(old(Table()), m)
      ensures node == old(node)[n := m] && Members() == if r == NULL then old(Members()) + {n} else old(Members())
    {
      ghost var t, s, old_ := Table(), Members(), node;
      Allocate(n, m);
      r := Insert(n);
      HeldInserted(old_, s, n, m);
    }

    static lemma HeldInserted(node: map<Ptr, Mapping>, s: set<Ptr>, n: Ptr, m: Mapping)
      requires s <= node.Keys && n !in s
      ensures Held(node[n := m], s) == Held(node, s)
      ensures Held(node[n := m], s + {n}) == Held(node, s) + {m}
      ensures (forall x :: x in s ==> LanKey(node[x]) != LanKey(m) && WanKey(node[x]) != WanKey(m))
              <==> !LanTaken(Held(node, s), m) && !WanTaken(Held(node, s), m)
    {
      var t := Held(node, s);
      assert forall x :: x in s ==> node[x] in t;
      forall y | y in Held(node[n := m], s + {n})
        ensures y in t + {m}
      {
        var x :| x in s + {n} && node[n := m][x] == y;
      }
    }

    /** RB_FIND by LAN key. */
    method FindL2W(protocol: U8, lan: Endpoint) returns (r: Ptr)
      requires Valid()
      ensures r == NULL <==> forall x :: x in Members() ==> LanKey(node[x]) != Pack(protocol, lan)
      ensures r != NULL ==> r in Members() && node[r].protocol == protocol && node[r].lan == lan
    {
      ghost var steps;
      r, steps := l2w.Find(Pack(protocol, lan));
      if r != NULL {
        PackInjective(node[r].protocol, node[r].lan, protocol, lan);
      }
    }

    /** RB_FIND by WAN key. */
    method FindW2L(protocol: U8, wan: Endpoint) returns (r: Ptr)
      requires Valid()
      ensures r == NULL <==> forall x :: x in Members() ==> WanKey(node[x]) != Pack(protocol, wan)
      ensures r != NULL ==> r in Members() && node[r].protocol == protocol && node[r].wan == wan
    {
      ghost var steps;
      r, steps := w2l.Find(Pack(protocol, wan));
      if r != NULL {
        PackInjective(node[r].protocol, node[r].wan, protocol, wan);
      }
    }

    /** RB_REMOVE, told by membership. */
    static method TakeOut(t: RbTree, n: Ptr) returns (r: Ptr)
      requires t.Valid() && n in t.Contents()
      modifies t`root, t`mem, t`tree
      ensures t.Valid() && r == n
      ensures forall x :: x in t.Contents() <==> x in old(t.Contents()) && x != n
    {
      ghost var i;
      ghost var c := t.Contents();
      r, i := t.Remove(n);
      Cut(t.key, c, i);
    }

    /** s_delete_for_point. */
    method DeleteForPoint(n: Ptr) returns (r: Ptr)
      requires Valid() && n in Members()
      modifies l2w`root, l2w`mem, l2w`tree, w2l`root, w2l`mem, w2l`tree
      ensures Valid() && r == n != NULL && Members() == old(Members()) - {n}
    {
      l2w.NoNull();
      var a := TakeOut(l2w, n);
      var b := TakeOut(w2l, n);
      r := NULL;
      if a == b {
        r := a;
      }
    }

    static lemma Cut(key: map<Ptr, nat>, c: seq<Ptr>, i: nat)
      requires Sorted(key, c) && i < |c|
      ensures forall x :: x in c[..i] + c[i + 1..] <==> x in c && x != c[i]
    {
      var s := c[..i] + c[i + 1..];
      assert forall k :: 0 <= k < |s| ==> s[k] == c[if k < i then k else k + 1];
      assert forall k :: 0 <= k < |c| && k != i ==> c[k] == s[if k < i then k else k - 1];
    }

    /** s_delete_for_value: only a node with both keys of m goes out. */
    method DeleteForValue(m: Mapping) returns (r: Ptr)
      requires Valid()
      modifies l2w`root, l2w`mem, l2w`tree, w2l`root, w2l`mem, w2l`tree
      ensures Valid()
      ensures r == NULL <==> m !in old(Table())
      ensures r == NULL ==> Members() == old(Members())
      ensures r != NULL ==> r in old(Members()) && node[r] == m && Members() == old(Members()) - {r}
      ensures Table() == old(Table()) - {m}
    {
      hide Pack, Sorted;
      ghost var t, s := Table(), Members();
      var a := FindL2W(m.protocol, m.lan);
      var b := FindW2L(m.protocol, m.wan);
      r := NULL;
      if a != NULL && b != NULL && a == b {
        HeldDeleted(a);
        r := DeleteForPoint(a);
      } else {
        Absent(m, a, b);
      }
    }

    lemma HeldDeleted(n: Ptr)
      requires Valid() && n in Members()
      ensures Held(node, Members() - {n}) == Table() - {node[n]}
    {
      var t := Held(node, Members() - {n});
      forall y | y in Table() && y != node[n]
        ensures y in t
      {
        var x :| x in Members() && node[x] == y;
        assert x in Members() - {n};
      }
      forall y | y in t
        ensures y in Table() && y != node[n]
      {
        var x :| x in Members() - {n} && node[x] == y;
        Apart(x, n);
      }
    }

    lemma Absent(m: Mapping, a: Ptr, b: Ptr)
      requires Valid()
      requires a == NULL <==> forall x :: x in Members() ==> LanKey(node[x]) != LanKey(m)
      requires a != NULL ==> a in Members() && LanKey(node[a]) == LanKey(m)
      requires b == NULL <==> forall x :: x in Members() ==> WanKey(node[x]) != WanKey(m)
      requires b != NULL ==> b in Members() && WanKey(node[b]) == WanKey(m)
      requires a == NULL || b == NULL || a != b
      ensures m !in Table()
    {
      if m in Table() {
        var x :| x in Members() && node[x] == m;
        Apart(x, a);
        Apart(x, b);
      }
    }

    /** count_node. */
    method Count() returns (n: nat)
      requires Valid()
      ensures n == |Members()|
    {
      ghost var visited;
      n, visited := l2w.Count();
      Cardinality(visited);
    }
  }
}
