/** Link counts over a graph of inodes: which inodes the root reaches, and how many
    entries of reachable directories name each of them. */
module LinkGraph {
  const ROOT: nat := 1

  /** An inode as link counting sees it; `names` has the inode of every live entry, and
      is empty unless the inode is a directory. */
  datatype Vertex = Vertex(typ: int, nlink: int, names: multiset<nat>)

  type Graph = seq<Vertex>

  /** An entry of d names k. */
  ghost predicate Edge(g: Graph, d: nat, k: nat) { d < |g| && k in g[d].names }

  ghost predicate Closed(g: Graph, s: set<nat>) {
    ROOT in s && forall d, k :: d in s && Edge(g, d, k) ==> k in s
  }

  /** s is what the root reaches: the least closed set. */
  ghost predicate Reach(g: Graph, s: set<nat>) {
    Closed(g, s) && forall t :: Closed(g, t) ==> s <= t
  }

  /** Entries that name k in those of the first n inodes that are in s. */
  ghost function Named(g: Graph, s: set<nat>, k: nat, n: nat): nat
    requires n <= |g|
  {
    if n == 0 then 0 else Named(g, s, k, n - 1) + if n - 1 in s then g[n - 1].names[k] else 0
  }

  /** Every reachable inode's link count is the number of entries that name it in
      reachable directories. */
  ghost predicate Counted(g: Graph, s: set<nat>) {
    forall k :: k in s && k < |g| ==> g[k].nlink == Named(g, s, k, |g|)
  }

  lemma {:induction false} NamedSame(g: Graph, g': Graph, s: set<nat>, k: nat, n: nat)
    requires n <= |g| == |g'| && forall d :: d in s && d < n ==> g'[d].names == g[d].names
    ensures Named(g', s, k, n) == Named(g, s, k, n)
  {
    if n > 0 {
      NamedSame(g, g', s, k, n - 1);
    }
  }

  /** Inodes outside a closed set are named by none of its directories. */
  lemma {:induction false} NotNamed(g: Graph, s: set<nat>, j: nat, n: nat)
    requires Closed(g, s) && j !in s && n <= |g|
    ensures Named(g, s, j, n) == 0
  {
    if n > 0 {
      assert n - 1 in s ==> !Edge(g, n - 1, j);
      NotNamed(g, s, j, n - 1);
    }
  }

  ghost predicate SameBut(g: Graph, g': Graph, j: nat) {
    |g'| == |g| && forall k :: 0 <= k < |g| && k != j ==> g'[k] == g[k]
  }

  /** What happens to an unreachable inode, short of losing entries, concerns no
      reachable one. */
  lemma Orphan(g: Graph, g': Graph, s: set<nat>, j: nat)
    requires Reach(g, s) && Counted(g, s) && j !in s && j < |g| && SameBut(g, g', j) && g[j].names <= g'[j].names
    ensures Reach(g', s) && Counted(g', s)
  {
    forall d, k | d in s && Edge(g', d, k) ensures k in s {
      assert Edge(g, d, k);
    }
    forall t | Closed(g', t) ensures s <= t {
      forall d, k | d in t && Edge(g, d, k) ensures k in t {
        assert Edge(g', d, k);
      }
      assert Closed(g, t);
    }
    forall k | k in s && k < |g| ensures g'[k].nlink == Named(g', s, k, |g|) {
      NamedSame(g, g', s, k, |g|);
    }
  }

  ghost function Adopt(g: Graph, p: nat, j: nat): Graph
    requires p < |g|
  {
    g[p := g[p].(names := g[p].names + multiset{j})]
  }

  ghost function One(b: bool): nat { if b then 1 else 0 }

  lemma {:induction false} AdoptedNamed(g: Graph, s: set<nat>, p: nat, j: nat, k: nat, n: nat)
    requires p < |g| && j < |g| && j !in s && p in s && n <= |g|
    ensures Named(Adopt(g, p, j), s + {j}, k, n) ==
            Named(g, s, k, n) + One(k == j && p < n) + if j < n then g[j].names[k] else 0
  {
    if n > 0 {
      AdoptedNamed(g, s, p, j, k, n - 1);
    }
  }

  /** An unreachable inode that names only itself and reachable ones becomes reachable
      when a reachable directory gets an entry for it. */
  lemma AdoptedReach(g: Graph, s: set<nat>, p: nat, j: nat)
    requires Reach(g, s) && p in s && p < |g| && j < |g| && j !in s
    requires forall k :: Edge(g, j, k) ==> k == j || k in s
    ensures Reach(Adopt(g, p, j), s + {j})
  {
    var g' := Adopt(g, p, j);
    forall d, k | d in s + {j} && Edge(g', d, k) ensures k in s + {j} {
      assert Edge(g, d, k) || (d == p && k == j);
    }
    forall t | Closed(g', t) ensures s + {j} <= t {
      forall d, k | d in t && Edge(g, d, k) ensures k in t {
        assert Edge(g', d, k);
      }
      assert Closed(g, t);
      assert Edge(g', p, j);
    }
  }

  ghost function Count1(g: Graph, j: nat): Graph
    requires j < |g|
  {
    g[j := g[j].(nlink := g[j].nlink + 1)]
  }

  lemma {:induction false} NamedCount1(g: Graph, j: nat, s: set<nat>, k: nat, n: nat)
    requires j < |g| && n <= |g|
    ensures Named(Count1(g, j), s, k, n) == Named(g, s, k, n)
  {
    NamedSame(g, Count1(g, j), s, k, n);
  }

  lemma ReachCount1(g: Graph, j: nat, s: set<nat>)
    requires j < |g| && Reach(g, s)
    ensures Reach(Count1(g, j), s)
  {
    forall d, k | d in s && Edge(Count1(g, j), d, k) ensures k in s {
      assert Edge(g, d, k);
    }
    forall t | Closed(Count1(g, j), t) ensures s <= t {
      forall d, k | d in t && Edge(g, d, k) ensures k in t {
        assert Edge(Count1(g, j), d, k);
      }
      assert Closed(g, t);
    }
  }

  /** Entry and count of a new file: linked into p, one link. */
  lemma FileAdopted(g: Graph, s: set<nat>, p: nat, j: nat)
    requires Reach(g, s) && Counted(g, s) && p < |g| && j < |g| && j !in s && p != j
    requires g[j].names == multiset{} && g[j].nlink == 0
    ensures var g' := Count1(Adopt(g, p, j), j);
            exists s' :: Reach(g', s') && Counted(g', s')
  {
    var a, g' := Adopt(g, p, j), Count1(Adopt(g, p, j), j);
    if p in s {
      var s' := s + {j};
      AdoptedReach(g, s, p, j);
      ReachCount1(a, j, s');
      forall k | k in s' && k < |g| ensures g'[k].nlink == Named(g', s', k, |g|) {
        AdoptedNamed(g, s, p, j, k, |g|);
        NamedCount1(a, j, s', k, |g|);
        NotNamed(g, s, j, |g|);
      }
      assert Reach(g', s') && Counted(g', s');
    } else {
      Orphan(g, a, s, p);
      Orphan(a, g', s, j);
      assert Reach(g', s) && Counted(g', s);
    }
  }

  /** Entry and counts of a new directory: linked into p, two links of its own, one more
      for p. */
  lemma DirAdopted(g: Graph, s: set<nat>, p: nat, j: nat)
    requires Reach(g, s) && Counted(g, s) && p < |g| && j < |g| && j !in s && p != j
    requires g[j].names == multiset{j, p} && g[j].nlink == 1
    ensures var g' := Count1(Count1(Adopt(g, p, j), j), p);
            exists s' :: Reach(g', s') && Counted(g', s')
  {
    var a := Adopt(g, p, j);
    var b, g' := Count1(a, j), Count1(Count1(a, j), p);
    if p in s {
      var s' := s + {j};
      AdoptedReach(g, s, p, j);
      ReachCount1(a, j, s');
      ReachCount1(b, p, s');
      forall k | k in s' && k < |g| ensures g'[k].nlink == Named(g', s', k, |g|) {
        AdoptedNamed(g, s, p, j, k, |g|);
        NamedCount1(a, j, s', k, |g|);
        NamedCount1(b, p, s', k, |g|);
        NotNamed(g, s, j, |g|);
      }
      assert Reach(g', s') && Counted(g', s');
    } else {
      Orphan(g, a, s, p);
      Orphan(a, b, s, j);
      Orphan(b, g', s, p);
      assert Reach(g', s) && Counted(g', s);
    }
  }

  /** Least sets are unique. */
  lemma ReachUnique(g: Graph, s: set<nat>, t: set<nat>)
    requires Reach(g, s) && Reach(g, t)
    ensures s == t
  {
  }

  // ---- Bounds -------------------------------------------------------------------

  /** How many of the first n inodes exist. */
  ghost function Existing(g: Graph, n: nat): (c: nat)
    requires n <= |g|
    ensures c <= n
  {
    if n == 0 then 0 else Existing(g, n - 1) + One(g[n - 1].typ != 0)
  }

  lemma {:induction false} ExistingAfter(g: Graph, g': Graph, j: nat, n: nat)
    requires j < |g| && SameBut(g, g', j) && n <= |g|
    ensures Existing(g', n) + One(j < n && g[j].typ != 0) == Existing(g, n) + One(j < n && g'[j].typ != 0)
  {
    if n > 0 {
      ExistingAfter(g, g', j, n - 1);
    }
  }
}
