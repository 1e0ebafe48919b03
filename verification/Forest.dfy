/** The shape of the directory graph, on listings alone: who lists whom. */
module Forest {
  import opened Bytes
  import opened Dir
  import opened Paths
  import opened TreeFree

  /** What each allocated inode lists: its entries if it is a directory, nothing otherwise. */
  type Listings = map<nat, seq<DirEntry>>

  /** Witnesses of tree shape: a parent and a depth for every inode, and a bound on the depths. */
  datatype Shape = Shape(up: map<nat, nat>, depth: map<nat, nat>, top: nat)

  predicate Dotted(e: DirEntry)
  {
    e.name == DOT || e.name == DOTDOT
  }

  /** Entry e of directory j: a dot names j, two dots name its parent, any other name a child. */
  predicate EntryFits(ls: Listings, s: Shape, j: nat, e: DirEntry)
  {
    && j in s.up && j in s.depth && e.inum as nat in ls
    && (e.name == DOT ==> e.inum as nat == j)
    && (e.name == DOTDOT ==> e.inum as nat == s.up[j])
    && (!Dotted(e) ==>
         ROOTINUM < e.inum && e.inum as nat in s.up && e.inum as nat in s.depth
         && s.up[e.inum as nat] == j && s.depth[e.inum as nat] == s.depth[j] + 1)
  }

  /** Directory p lists j under a name other than "." and "..". */
  predicate ListsKid(ls: Listings, p: nat, j: nat)
  {
    p in ls && exists m :: 0 <= m < |ls[p]| && ls[p][m].inum as nat == j && !Dotted(ls[p][m])
  }

  /** No inode is listed twice by the same directory. */
  predicate KidsOnce(es: seq<DirEntry>)
  {
    forall a, b :: 0 <= a < b < |es| && !Dotted(es[a]) && !Dotted(es[b]) ==> es[a].inum != es[b].inum
  }

  /** The directories form trees: every inode is a child of at most one directory, once; dots lead where they should;
      and a directory that lists anything is a child of its parent, unless it is the root. */
  ghost predicate IsForest(ls: Listings, s: Shape)
  {
    && (forall j :: j in ls ==> j in s.up && j in s.depth && s.depth[j] <= s.top)
    && (forall j, m :: j in ls && 0 <= m < |ls[j]| ==> EntryFits(ls, s, j, ls[j][m]))
    && (forall j :: j in ls ==> KidsOnce(ls[j]))
    && (forall j :: j in ls && j > ROOTINUM as nat && ls[j] != [] ==> ListsKid(ls, s.up[j], j))
    && (forall j :: j in ls && j <= ROOTINUM as nat ==> s.up[j] <= ROOTINUM as nat)
  }

  // ---------- subtrees ----------

  /** t is the subtree below t.inum as the listings have it. */
  ghost predicate ListTree(ls: Listings, t: Tree)
  {
    && t.inum as nat in ls
    && var ks := Kids(ls[t.inum as nat]);
    && |t.kids| == |ks|
    && forall q :: 0 <= q < |ks| ==> t.kids[q].inum == ks[q] && ListTree(ls, t.kids[q])
  }

  ghost function TreeFrom(ls: Listings, i: u32, fuel: nat): Tree
    decreases fuel
  {
    if fuel == 0 || i as nat !in ls then Node(i, [])
    else
      var ks := Kids(ls[i as nat]);
      Node(i, seq(|ks|, m requires 0 <= m < |ks| => TreeFrom(ls, ks[m], fuel - 1)))
  }

  /** A child in a listing is an entry of it. */
  lemma {:induction false} KidEntry(es: seq<DirEntry>, m: nat) returns (x: nat)
    requires m < |Kids(es)|
    ensures x < |es| && es[x].inum == Kids(es)[m] && !Dotted(es[x])
  {
    var n := |es| - 1;
    if m < |Kids(es[..n])| {
      x := KidEntry(es[..n], m);
    } else {
      x := n;
    }
  }

  lemma {:induction false} EntryKid(es: seq<DirEntry>, x: nat) returns (m: nat)
    requires x < |es| && !Dotted(es[x])
    ensures m < |Kids(es)| && es[x].inum == Kids(es)[m]
  {
    var n := |es| - 1;
    if x < n {
      m := EntryKid(es[..n], x);
    } else {
      m := |Kids(es[..n])|;
    }
  }

  lemma {:induction false} KidsDiffer(es: seq<DirEntry>, a: nat, b: nat)
    requires KidsOnce(es) && a < b < |Kids(es)|
    ensures Kids(es)[a] != Kids(es)[b]
  {
    var n := |es| - 1;
    var rest := es[..n];
    assert forall x :: 0 <= x < n ==> rest[x] == es[x];
    if b < |Kids(rest)| {
      KidsDiffer(rest, a, b);
    } else {
      var x := KidEntry(rest, a);
      assert es[x].inum != es[n].inum;
    }
  }

  lemma {:induction false} InumsOfMember(ts: seq<Tree>, x: nat) returns (m: nat)
    requires x in InumsOf(ts)
    ensures m < |ts| && x in Inums(ts[m])
  {
    var n := |ts| - 1;
    if x in Inums(ts[n]) {
      m := n;
    } else {
      m := InumsOfMember(ts[..n], x);
    }
  }

  lemma MemberOfInums(ts: seq<Tree>, m: nat)
    requires m < |ts|
    ensures Inums(ts[m]) <= InumsOf(ts)
  {
    SplitInums(ts, m);
  }

  /** Everything in the subtree is listed, lies below i, has its parent in the subtree unless it is i itself, and so
      have its children. */
  ghost predicate Below(ls: Listings, s: Shape, i: nat, below: set<nat>)
  {
    && i in below
    && (forall x :: x in below ==> x in ls && x in s.depth && x in s.up && i in s.depth)
    && (forall x :: x in below && x != i ==>
         x > ROOTINUM as nat && s.up[x] in below && s.depth[x] == s.depth[s.up[x]] + 1 && s.depth[x] > s.depth[i])
    && (forall x, m :: x in below && 0 <= m < |ls[x]| && !Dotted(ls[x][m]) ==> ls[x][m].inum as nat in below)
  }

  /** A forest has a subtree at every inode. */
  lemma {:induction false} TreeFromIsTree(ls: Listings, s: Shape, i: u32, fuel: nat)
    requires IsForest(ls, s) && i as nat in ls && s.depth[i as nat] + fuel >= s.top
    ensures var t := TreeFrom(ls, i, fuel); t.inum == i && ListTree(ls, t) && Below(ls, s, i, Inums(t)) && Distinct(t)
    decreases fuel
  {
    hide IsForest, EntryFits, Kids, Below, ListTree, Distinct, Inums;
    var ks, t := Kids(ls[i as nat]), TreeFrom(ls, i, fuel);
    forall m: nat | m < |ks| ensures KidFacts(ls, s, i, ks[m]) && fuel > 0 {
      KidIsBelow(ls, s, i, m);
    }
    if |ks| > 0 {
      assert KidFacts(ls, s, i, ks[0]);
    }
    assert |t.kids| == |ks|;
    forall m: nat | m < |ks|
      ensures t.kids[m].inum == ks[m] && ListTree(ls, t.kids[m]) && Below(ls, s, ks[m], Inums(t.kids[m]))
      ensures Distinct(t.kids[m])
    {
      assert KidFacts(ls, s, i, ks[m]);
      TreeFromIsTree(ls, s, ks[m], fuel - 1);
    }
    KidsBelowOne(ls, s, i, t);
    KidsApart(ls, s, i, t);
    PrefixDistinct(t.kids, |t.kids|);
    assert t.kids[..|t.kids|] == t.kids;
    TreeAssembles(ls, t);
  }

  lemma TreeAssembles(ls: Listings, t: Tree)
    requires t.inum as nat in ls && |t.kids| == |Kids(ls[t.inum as nat])|
    requires forall m: nat :: m < |t.kids| ==> t.kids[m].inum == Kids(ls[t.inum as nat])[m] && ListTree(ls, t.kids[m])
    requires t.inum as nat !in InumsOf(t.kids) && AllDistinct(t.kids)
    ensures ListTree(ls, t) && Distinct(t)
  {
  }

  lemma KidIsBelow(ls: Listings, s: Shape, i: u32, m: nat)
    requires IsForest(ls, s) && i as nat in ls && m < |Kids(ls[i as nat])|
    ensures var k := Kids(ls[i as nat])[m]; KidFacts(ls, s, i, k) && s.depth[k as nat] <= s.top
  {
    var x := KidEntry(ls[i as nat], m);
    assert EntryFits(ls, s, i, ls[i as nat][x]);
  }

  predicate KidFacts(ls: Listings, s: Shape, i: u32, k: u32)
  {
    && i as nat in s.depth && k as nat in ls && k as nat in s.up && k as nat in s.depth
    && ROOTINUM < k && s.up[k as nat] == i as nat && s.depth[k as nat] == s.depth[i as nat] + 1
  }

  /** The subtrees of the children together with i. */
  lemma KidsBelowOne(ls: Listings, s: Shape, i: u32, t: Tree)
    requires IsForest(ls, s) && i as nat in ls && t.inum == i && |t.kids| == |Kids(ls[i as nat])|
    requires forall m: nat :: m < |t.kids| ==>
      KidFacts(ls, s, i, t.kids[m].inum) && t.kids[m].inum == Kids(ls[i as nat])[m]
    requires forall m: nat :: m < |t.kids| ==> Below(ls, s, t.kids[m].inum, Inums(t.kids[m]))
    ensures Below(ls, s, i, Inums(t)) && i as nat !in InumsOf(t.kids)
  {
    hide IsForest, EntryFits, Kids, InumsOf;
    ForestHas(ls, s, i);
    var all := Inums(t);
    assert all == {i as nat} + InumsOf(t.kids);
    forall x | x in InumsOf(t.kids)
      ensures x in ls && x in s.depth && x in s.up && x > ROOTINUM as nat && s.up[x] in all && s.up[x] in s.depth
      ensures s.depth[x] == s.depth[s.up[x]] + 1 && s.depth[x] > s.depth[i as nat]
    {
      var m := InumsOfMember(t.kids, x);
      MemberOfInums(t.kids, m);
      assert KidFacts(ls, s, i, t.kids[m].inum);
    }
    forall x, m | x in all && 0 <= m < |ls[x]| && !Dotted(ls[x][m]) ensures ls[x][m].inum as nat in all {
      if x == i as nat {
        var a := EntryKid(ls[x], m);
        MemberOfInums(t.kids, a);
      } else {
        var a := InumsOfMember(t.kids, x);
        MemberOfInums(t.kids, a);
      }
    }
  }

  lemma ForestHas(ls: Listings, s: Shape, i: nat)
    requires IsForest(ls, s) && i in ls
    ensures i in s.up && i in s.depth && s.depth[i] <= s.top && KidsOnce(ls[i])
  {
  }

  /** The subtrees of two children have nothing in common: the parent of a common inode would be common too. */
  lemma KidsApart(ls: Listings, s: Shape, i: u32, t: Tree)
    requires IsForest(ls, s) && i as nat in ls && |t.kids| == |Kids(ls[i as nat])|
    requires forall m: nat :: m < |t.kids| ==>
      KidFacts(ls, s, i, t.kids[m].inum) && t.kids[m].inum == Kids(ls[i as nat])[m]
    requires forall m: nat :: m < |t.kids| ==> Below(ls, s, t.kids[m].inum, Inums(t.kids[m]))
    ensures forall a: nat, b: nat :: a < b < |t.kids| ==> Inums(t.kids[a]) !! Inums(t.kids[b])
  {
    hide IsForest, EntryFits, Kids;
    ForestHas(ls, s, i);
    forall a: nat, b: nat | a < b < |t.kids| ensures Inums(t.kids[a]) !! Inums(t.kids[b]) {
      assert KidFacts(ls, s, i, t.kids[a].inum) && KidFacts(ls, s, i, t.kids[b].inum);
      KidsDiffer(ls[i as nat], a, b);
      forall x | x in Inums(t.kids[a]) ensures x !in Inums(t.kids[b]) {
        NotCommon(ls, s, i, t.kids[a].inum, t.kids[b].inum, Inums(t.kids[a]), Inums(t.kids[b]), x);
      }
    }
  }

  lemma {:induction false} NotCommon(ls: Listings, s: Shape, i: u32, a: u32, b: u32, xs: set<nat>, ys: set<nat>, x: nat)
    requires KidFacts(ls, s, i, a) && KidFacts(ls, s, i, b) && a != b
    requires Below(ls, s, a, xs) && Below(ls, s, b, ys) && x in xs
    ensures x !in ys
    decreases s.depth[x]
  {
    if x in ys && x != a as nat && x != b as nat {
      NotCommon(ls, s, i, a, b, xs, ys, s.up[x]);
    }
  }

  lemma {:induction false} PrefixDistinct(ts: seq<Tree>, n: nat)
    requires n <= |ts| && (forall m: nat :: m < |ts| ==> Distinct(ts[m]))
    requires forall a: nat, b: nat :: a < b < |ts| ==> Inums(ts[a]) !! Inums(ts[b])
    ensures AllDistinct(ts[..n])
  {
    if n > 0 {
      PrefixDistinct(ts, n - 1);
      var front := ts[..n - 1];
      assert ts[..n][..n - 1] == front;
      forall x | x in InumsOf(front) ensures x !in Inums(ts[n - 1]) {
        var m := InumsOfMember(front, x);
        assert front[m] == ts[m];
      }
    }
  }

  /** From outside, a subtree is referred to only by the entry of its root in its parent. */
  lemma OutsideRefersOnce(ls: Listings, s: Shape, n: nat, below: set<nat>, j: nat, m: nat)
    requires IsForest(ls, s) && Below(ls, s, n, below) && n > ROOTINUM as nat
    requires j in ls && j !in below && m < |ls[j]| && ls[j][m].inum as nat in below
    ensures j == s.up[n] && ls[j][m].inum as nat == n && !Dotted(ls[j][m])
  {
    assert EntryFits(ls, s, j, ls[j][m]);
    assert j > ROOTINUM as nat ==> ListsKid(ls, s.up[j], j);
  }

  // ---------- what the operations do to a forest ----------

  /** s2 says of the inodes in ls what s says. */
  ghost predicate Agree(ls: Listings, s: Shape, s2: Shape)
  {
    forall x :: x in ls ==>
      && x in s.up && x in s2.up && s2.up[x] == s.up[x]
      && x in s.depth && x in s2.depth && s2.depth[x] == s.depth[x]
  }

  lemma FitsStill(ls: Listings, s: Shape, ls': Listings, s': Shape, j: nat, m: nat)
    requires IsForest(ls, s) && Agree(ls, s, s') && j in ls && m < |ls[j]| && ls[j][m].inum as nat in ls'
    ensures EntryFits(ls', s', j, ls[j][m])
  {
    assert EntryFits(ls, s, j, ls[j][m]);
  }

  lemma ForestParts(ls: Listings, s: Shape, j: nat)
    requires IsForest(ls, s) && j in ls
    ensures j in s.up && j in s.depth && s.depth[j] <= s.top && KidsOnce(ls[j])
    ensures j <= ROOTINUM as nat ==> s.up[j] <= ROOTINUM as nat
    ensures j > ROOTINUM as nat && ls[j] != [] ==> ListsKid(ls, s.up[j], j)
    ensures forall m :: 0 <= m < |ls[j]| ==> ls[j][m].inum as nat in ls
  {
    forall m | 0 <= m < |ls[j]| ensures ls[j][m].inum as nat in ls {
      assert EntryFits(ls, s, j, ls[j][m]);
    }
  }

  lemma ForestAssembles(ls: Listings, s: Shape)
    requires forall j :: j in ls ==> j in s.up && j in s.depth && s.depth[j] <= s.top
    requires forall j, m :: j in ls && 0 <= m < |ls[j]| ==> EntryFits(ls, s, j, ls[j][m])
    requires forall j :: j in ls ==> KidsOnce(ls[j])
    requires forall j :: j in ls && j > ROOTINUM as nat && ls[j] != [] ==> ListsKid(ls, s.up[j], j)
    requires forall j :: j in ls && j <= ROOTINUM as nat ==> s.up[j] <= ROOTINUM as nat
    ensures IsForest(ls, s)
  {
  }

  /** A new inode, in no directory yet. */
  lemma AddLoose(ls: Listings, s: Shape, i: nat)
    requires IsForest(ls, s) && i !in ls && i > ROOTINUM as nat
    ensures IsForest(ls[i := []], Shape(s.up[i := 0], s.depth[i := 0], s.top))
  {
    hide IsForest, EntryFits, ListsKid, KidsOnce;
    var ls', s' := ls[i := []], Shape(s.up[i := 0], s.depth[i := 0], s.top);
    assert KidsOnce([]) by { NothingTwice(); }
    forall j | j in ls ensures j in s.up && j in s.depth { ForestParts(ls, s, j); }
    assert Agree(ls, s, s');
    forall j | j in ls'
      ensures j in s'.up && j in s'.depth && s'.depth[j] <= s'.top && KidsOnce(ls'[j])
      ensures j <= ROOTINUM as nat ==> s'.up[j] <= ROOTINUM as nat
      ensures j > ROOTINUM as nat && ls'[j] != [] ==> ListsKid(ls', s'.up[j], j)
      ensures forall m :: 0 <= m < |ls'[j]| ==> EntryFits(ls', s', j, ls'[j][m])
    {
      if j != i {
        ForestParts(ls, s, j);
        forall m | 0 <= m < |ls'[j]| ensures EntryFits(ls', s', j, ls'[j][m]) { FitsStill(ls, s, ls', s', j, m); }
        if j > ROOTINUM as nat && ls'[j] != [] {
          ListsStill(ls, ls', s.up[j], j);
        }
      }
    }
    ForestAssembles(ls', s');
  }

  lemma NothingTwice()
    ensures KidsOnce([])
  {
  }

  /** A directory whose listing is as before lists the same children. */
  lemma ListsStill(ls: Listings, ls': Listings, u: nat, j: nat)
    requires ListsKid(ls, u, j) && u in ls' && ls'[u] == ls[u]
    ensures ListsKid(ls', u, j)
  {
  }

  /** A listing that grows in the middle still lists what it did. */
  lemma ListsStillLonger(ls: Listings, ls': Listings, u: nat, j: nat, before: seq<DirEntry>, e: DirEntry,
                         after: seq<DirEntry>)
    requires ListsKid(ls, u, j) && ls[u] == before + after && u in ls' && ls'[u] == before + [e] + after
    ensures ListsKid(ls', u, j)
  {
    var m :| 0 <= m < |ls[u]| && ls[u][m].inum as nat == j && !Dotted(ls[u][m]);
    assert ls'[u][if m < |before| then m else m + 1] == ls[u][m];
  }

  /** ... and so does one that loses an entry of another child. */
  lemma ListsStillShorter(ls: Listings, ls': Listings, u: nat, j: nat, before: seq<DirEntry>, e: DirEntry,
                          after: seq<DirEntry>)
    requires ListsKid(ls, u, j) && ls[u] == before + [e] + after && e.inum as nat != j && u in ls'
    requires ls'[u] == before + after
    ensures ListsKid(ls', u, j)
  {
    var m :| 0 <= m < |ls[u]| && ls[u][m].inum as nat == j && !Dotted(ls[u][m]);
    assert ls[u][|before|] == e;
    assert ls'[u][if m < |before| then m else m - 1] == ls[u][m];
  }

  /** One entry more, of a child that was not there. */
  lemma OneMoreOnce(before: seq<DirEntry>, e: DirEntry, after: seq<DirEntry>)
    requires KidsOnce(before + after) && forall m :: 0 <= m < |before + after| ==> (before + after)[m].inum != e.inum
    ensures KidsOnce(before + [e] + after)
  {
    var es, all, n := before + after, before + [e] + after, |before|;
    forall a, b | 0 <= a < b < |all| && !Dotted(all[a]) && !Dotted(all[b]) ensures all[a].inum != all[b].inum {
      assert a != n ==> all[a] == es[if a < n then a else a - 1];
      assert b != n ==> all[b] == es[if b < n then b else b - 1];
    }
  }

  lemma OneLessOnce(before: seq<DirEntry>, e: DirEntry, after: seq<DirEntry>)
    requires KidsOnce(before + [e] + after)
    ensures KidsOnce(before + after)
  {
    var es, all, n := before + after, before + [e] + after, |before|;
    forall a, b | 0 <= a < b < |es| && !Dotted(es[a]) && !Dotted(es[b]) ensures es[a].inum != es[b].inum {
      assert es[a] == all[if a < n then a else a + 1] && es[b] == all[if b < n then b else b + 1];
    }
  }

  /** A new inode i, listed by directory p under a name that is not a dot. */
  lemma AddLeaf(ls: Listings, s: Shape, p: nat, i: nat, before: seq<DirEntry>, e: DirEntry, after: seq<DirEntry>)
    requires IsForest(ls, s) && i !in ls && i > ROOTINUM as nat && p in ls && ls[p] == before + after
    requires e.inum as nat == i && !Dotted(e) && (p <= ROOTINUM as nat || ListsKid(ls, s.up[p], p))
    ensures p in s.depth
    ensures IsForest(ls[i := []][p := before + [e] + after],
                     Shape(s.up[i := p], s.depth[i := s.depth[p] + 1], s.top + 1))
  {
    hide IsForest, ListsKid, KidsOnce, EntryFits;
    ForestParts(ls, s, p);
    var es := before + [e] + after;
    var ls', s' := ls[i := []][p := es], Shape(s.up[i := p], s.depth[i := s.depth[p] + 1], s.top + 1);
    forall j | j in ls ensures j in s.up && j in s.depth { ForestParts(ls, s, j); }
    assert Agree(ls, s, s');
    assert KidsOnce([]) by { NothingTwice(); }
    OneMoreOnce(before, e, after);
    forall j | j in ls'
      ensures j in s'.up && j in s'.depth && s'.depth[j] <= s'.top && KidsOnce(ls'[j])
      ensures j <= ROOTINUM as nat ==> s'.up[j] <= ROOTINUM as nat
      ensures j > ROOTINUM as nat && ls'[j] != [] ==> ListsKid(ls', s'.up[j], j)
    {
      if j != i {
        ForestParts(ls, s, j);
        if j > ROOTINUM as nat && ls'[j] != [] {
          if s.up[j] == p {
            ListsStillLonger(ls, ls', p, j, before, e, after);
          } else {
            ListsOther(ls, s.up[j], j);
            ListsStill(ls, ls', s.up[j], j);
          }
        }
      }
    }
    forall j, m | j in ls' && 0 <= m < |ls'[j]| ensures EntryFits(ls', s', j, ls'[j][m]) {
      if j == p {
        LeafFits(ls, s, ls', s', p, i, before, e, after, m);
      } else {
        ForestParts(ls, s, j);
        FitsStill(ls, s, ls', s', j, m);
      }
    }
    ForestAssembles(ls', s');
  }

  lemma ListsOther(ls: Listings, u: nat, j: nat)
    requires ListsKid(ls, u, j)
    ensures u in ls
  {
  }

  lemma LeafFits(ls: Listings, s: Shape, ls': Listings, s': Shape, p: nat, i: nat, before: seq<DirEntry>, e: DirEntry,
                 after: seq<DirEntry>, m: nat)
    requires IsForest(ls, s) && Agree(ls, s, s') && p in ls && ls[p] == before + after && i !in ls
    requires i > ROOTINUM as nat
    requires e.inum as nat == i && !Dotted(e) && ls'.Keys == ls.Keys + {i}
    requires i in s'.up && s'.up[i] == p && i in s'.depth && p in s.depth && s'.depth[i] == s.depth[p] + 1
    requires m < |before + [e] + after|
    ensures EntryFits(ls', s', p, (before + [e] + after)[m])
  {
    hide IsForest;
    var all, n := before + [e] + after, |before|;
    if m != n {
      var m0 := if m < n then m else m - 1;
      assert all[m] == ls[p][m0];
      ForestParts(ls, s, p);
      FitsStill(ls, s, ls', s', p, m0);
    }
  }

  /** The dot entries of a new directory. */
  lemma AddDots(ls: Listings, s: Shape, p: nat, i: nat, dot: DirEntry, dotdot: DirEntry)
    requires IsForest(ls, s) && i in ls && ls[i] == [] && p in ls && i in s.up && s.up[i] == p && ListsKid(ls, p, i)
    requires p != i
    requires i > ROOTINUM as nat
    requires dot.name == DOT && dot.inum as nat == i && dotdot.name == DOTDOT && dotdot.inum as nat == p
    ensures IsForest(ls[i := [dot, dotdot]], s)
  {
    hide IsForest, ListsKid;
    var ls' := ls[i := [dot, dotdot]];
    forall j | j in ls ensures j in s.up && j in s.depth { ForestParts(ls, s, j); }
    assert Agree(ls, s, s);
    forall j | j in ls'
      ensures j in s.up && j in s.depth && s.depth[j] <= s.top && KidsOnce(ls'[j])
      ensures j <= ROOTINUM as nat ==> s.up[j] <= ROOTINUM as nat
      ensures j > ROOTINUM as nat && ls'[j] != [] ==> ListsKid(ls', s.up[j], j)
    {
      ForestParts(ls, s, j);
      if j > ROOTINUM as nat && ls'[j] != [] {
        ListsOther(ls, s.up[j], j);
        ListsSome(ls, s.up[j], j);
        ListsStill(ls, ls', s.up[j], j);
      }
    }
    forall j, m | j in ls' && 0 <= m < |ls'[j]| ensures EntryFits(ls', s, j, ls'[j][m]) {
      if j != i {
        ForestParts(ls, s, j);
        FitsStill(ls, s, ls', s, j, m);
      } else {
        ForestParts(ls, s, i);
      }
    }
    ForestAssembles(ls', s);
  }

  lemma ListsSome(ls: Listings, u: nat, j: nat)
    requires ListsKid(ls, u, j)
    ensures u in ls && ls[u] != []
  {
  }

  /** A subtree goes, and with it its entry in the parent. */
  lemma DropSubtree(ls: Listings, s: Shape, n: nat, below: set<nat>, p: nat, before: seq<DirEntry>, e: DirEntry,
                    after: seq<DirEntry>)
    requires IsForest(ls, s) && Below(ls, s, n, below) && n > ROOTINUM as nat && p in ls && p !in below
    requires ls[p] == before + [e] + after && e.inum as nat == n
    ensures IsForest((ls - below)[p := before + after], s)
  {
    hide IsForest, ListsKid, KidsOnce, EntryFits, Below;
    var ls' := (ls - below)[p := before + after];
    RootIsBelow(ls, s, n, below);
    forall j | j in ls ensures j in s.up && j in s.depth { ForestParts(ls, s, j); }
    assert Agree(ls, s, s);
    ForestParts(ls, s, p);
    OneLessOnce(before, e, after);
    forall j | j in ls'
      ensures j in s.up && j in s.depth && s.depth[j] <= s.top && KidsOnce(ls'[j])
      ensures j <= ROOTINUM as nat ==> s.up[j] <= ROOTINUM as nat
      ensures j > ROOTINUM as nat && ls'[j] != [] ==> ListsKid(ls', s.up[j], j)
    {
      ForestParts(ls, s, j);
      if j > ROOTINUM as nat && ls'[j] != [] {
        var u := s.up[j];
        ListsOther(ls, u, j);
        StaysListed(ls, s, n, below, u, j);
        if u == p {
          ListsStillShorter(ls, ls', p, j, before, e, after);
        } else {
          ListsStill(ls, ls', u, j);
        }
      }
    }
    forall j, m | j in ls' && 0 <= m < |ls'[j]| ensures EntryFits(ls', s, j, ls'[j][m]) {
      DropFits(ls, s, n, below, p, before, e, after, ls', j, m);
    }
    ForestAssembles(ls', s);
  }

  lemma RootIsBelow(ls: Listings, s: Shape, n: nat, below: set<nat>)
    requires Below(ls, s, n, below)
    ensures n in below
  {
  }

  /** What is not in the subtree is not listed there. */
  lemma StaysListed(ls: Listings, s: Shape, n: nat, below: set<nat>, u: nat, j: nat)
    requires Below(ls, s, n, below) && ListsKid(ls, u, j) && j !in below
    ensures u !in below
  {
  }

  lemma DropFits(ls: Listings, s: Shape, n: nat, below: set<nat>, p: nat, before: seq<DirEntry>, e: DirEntry,
                 after: seq<DirEntry>, ls': Listings, j: nat, m: nat)
    requires IsForest(ls, s) && Below(ls, s, n, below) && n > ROOTINUM as nat && p in ls && p !in below
    requires Agree(ls, s, s)
    requires ls[p] == before + [e] + after && e.inum as nat == n && ls' == (ls - below)[p := before + after]
    requires j in ls' && m < |ls'[j]|
    ensures EntryFits(ls', s, j, ls'[j][m])
  {
    hide IsForest, Below, EntryFits;
    var k := |before|;
    var m0 := if j == p && m >= k then m + 1 else m;
    assert ls'[j][m] == ls[j][m0];
    RootIsBelow(ls, s, n, below);
    ForestParts(ls, s, j);
    if ls[j][m0].inum as nat in below {
      OutsideRefersOnce(ls, s, n, below, j, m0);
      assert ls[p][k] == e;
      OutsideRefersOnce(ls, s, n, below, p, k);
      assert false;
    }
    FitsStill(ls, s, ls', s, j, m0);
  }
}
