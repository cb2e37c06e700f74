/** A site's public tree as a map from paths to entries, its subtrees, and what they weigh. */
module FileTrees {
  type Path = seq<string>

  datatype Entry = File(size: nat) | Dir | Link | Special

  type Tree = map<Path, Entry>

  const MAX_DEPTH := 64
  const MAX_ENTRIES := 10_000
  const MAX_BYTES := 0x1000_0000

  /** Every entry but the root lies in a directory. */
  ghost predicate WellFormed(fs: Tree) {
    forall p :: p in fs && p != [] ==> p[..|p| - 1] in fs && fs[p[..|p| - 1]] == Dir
  }

  function Children(fs: Tree, p: Path): set<Path> {
    set q | q in fs.Keys && |q| == |p| + 1 && p <= q
  }

  function Subtree(fs: Tree, p: Path): set<Path> {
    set q | q in fs.Keys && p <= q
  }

  /** p and everything below the children in done. */
  ghost function Covered(fs: Tree, p: Path, done: set<Path>): set<Path> {
    set q | q in fs.Keys && p <= q && (q == p || q[..|p| + 1] in done)
  }

  /** What the walks accept: the entry exists, and everything in it is a file or a directory within
      reach. */
  ghost predicate Removable(fs: Tree, p: Path, depth: nat) {
    && p in fs
    && forall q :: q in fs && p <= q ==> (fs[q].File? || fs[q].Dir?) && depth + |q| - |p| <= MAX_DEPTH
  }

  function Size(fs: Tree, p: Path): nat {
    if p in fs && fs[p].File? then fs[p].size else 0
  }

  ghost function Total(fs: Tree, s: set<Path>): nat {
    if s == {} then 0 else var q :| q in s; Size(fs, q) + Total(fs, s - {q})
  }

  predicate Related(p: Path, q: Path) {
    p <= q || q <= p
  }

  /** The selections of one request: none inside another, and none named twice. */
  ghost predicate Antichain(paths: seq<Path>) {
    forall i, j :: 0 <= i < j < |paths| ==> !Related(paths[i], paths[j])
  }

  lemma {:induction false} TotalWithout(fs: Tree, s: set<Path>, q: Path)
    requires q in s
    ensures Total(fs, s) == Size(fs, q) + Total(fs, s - {q})
  {
    var r :| r in s && Total(fs, s) == Size(fs, r) + Total(fs, s - {r});
    if r != q {
      TotalWithout(fs, s - {r}, q);
      TotalWithout(fs, s - {q}, r);
      assert s - {r} - {q} == s - {q} - {r};
    }
  }

  lemma {:induction false} TotalOfUnion(fs: Tree, a: set<Path>, b: set<Path>)
    requires a !! b
    ensures Total(fs, a + b) == Total(fs, a) + Total(fs, b)
  {
    if a == {} {
      assert a + b == b;
    } else {
      var q :| q in a;
      TotalOfUnion(fs, a - {q}, b);
      TotalWithout(fs, a, q);
      TotalWithout(fs, a + b, q);
      assert a + b - {q} == (a - {q}) + b;
    }
  }

  lemma {:induction false} PrefixInTree(fs: Tree, q: Path, n: nat)
    requires WellFormed(fs) && q in fs && n <= |q|
    ensures q[..n] in fs && (n < |q| ==> fs[q[..n]] == Dir)
    decreases |q| - n
  {
    if n == |q| {
      assert q[..n] == q;
    } else {
      PrefixInTree(fs, q, n + 1);
      assert q[..n + 1][..n] == q[..n];
    }
  }

  lemma ThroughChild(fs: Tree, p: Path, q: Path)
    requires WellFormed(fs) && q in fs && p <= q && p != q
    ensures q[..|p| + 1] in Children(fs, p) && p in fs && fs[p] == Dir
  {
    PrefixInTree(fs, q, |p| + 1);
    PrefixInTree(fs, q, |p|);
    assert q[..|p|] == p;
  }

  /** A directory's subtree is the directory and the subtrees of its children. */
  lemma AllCovered(fs: Tree, p: Path)
    requires WellFormed(fs) && p in fs
    ensures Covered(fs, p, Children(fs, p)) == Subtree(fs, p) && p in Subtree(fs, p)
    ensures fs[p] != Dir ==> Children(fs, p) == {} && Subtree(fs, p) == {p}
  {
    forall q | q in Subtree(fs, p) && q != p ensures q[..|p| + 1] in Children(fs, p) && fs[p] == Dir {
      ThroughChild(fs, p, q);
    }
    forall c | c in Children(fs, p) ensures fs[p] == Dir {
      ThroughChild(fs, p, c);
    }
  }

  /** A path whose parent is p is one of its children. */
  lemma ChildrenComplete(fs: Tree, p: Path)
    ensures forall q :: q in fs && q != [] && q[..|q| - 1] == p ==> q in Children(fs, p)
  {
  }

  lemma CoverNone(fs: Tree, p: Path)
    requires p in fs
    ensures Covered(fs, p, {}) == {p} && {p} <= Subtree(fs, p)
    ensures Total(fs, {p}) == Size(fs, p)
  {
    TotalWithout(fs, {p}, p);
    assert {p} - {p} == {};
  }

  lemma CoveredWithin(fs: Tree, p: Path, done: set<Path>)
    ensures Covered(fs, p, done) <= Subtree(fs, p)
  {
  }

  /** One more child covers exactly its subtree on top. */
  lemma CoverChild(fs: Tree, p: Path, done: set<Path>, c: Path)
    requires c in Children(fs, p) && c !in done && done <= Children(fs, p)
    ensures Covered(fs, p, done + {c}) == Covered(fs, p, done) + Subtree(fs, c)
    ensures Covered(fs, p, done) !! Subtree(fs, c)
  {
    forall q | q in fs.Keys ensures c <= q <==> p <= q && q != p && q[..|p| + 1] == c {
      if c <= q { assert q[..|p|] == c[..|p|] == p; }
    }
  }

  lemma Card(a: set<Path>, b: set<Path>)
    requires a !! b
    ensures |a + b| == |a| + |b|
  {
  }

  lemma RemovableChild(fs: Tree, p: Path, c: Path, depth: nat)
    requires Removable(fs, p, depth) && c in Children(fs, p)
    ensures Removable(fs, c, depth + 1)
  {
    forall q | q in fs && c <= q ensures p <= q { assert q[..|p|] == c[..|p|]; }
  }

  /** A directory is removable when it is within reach and its children are. */
  lemma RemovableFromChildren(fs: Tree, p: Path, depth: nat)
    requires WellFormed(fs) && p in fs && (fs[p].Dir? || fs[p].File?) && depth <= MAX_DEPTH
    requires forall c :: c in Children(fs, p) ==> Removable(fs, c, depth + 1)
    ensures Removable(fs, p, depth)
  {
    AllCovered(fs, p);
    forall q | q in fs && p <= q ensures (fs[q].File? || fs[q].Dir?) && depth + |q| - |p| <= MAX_DEPTH {
      if q != p {
        assert q in Covered(fs, p, Children(fs, p));
        assert q[..|p| + 1] <= q;
      }
    }
  }

  /** Taking an unrelated subtree away leaves this one as it is. */
  lemma UnrelatedKept(fs: Tree, fs': Tree, p: Path, depth: nat)
    requires forall q :: p <= q ==> (q in fs <==> q in fs') && (q in fs ==> fs'[q] == fs[q])
    ensures Subtree(fs', p) == Subtree(fs, p) && (Removable(fs', p, depth) <==> Removable(fs, p, depth))
  {
    assert p <= p;
  }

  lemma PrefixesRelated(p: Path, q: Path, r: Path)
    requires p <= r && q <= r
    ensures Related(p, q)
  {
    if |p| <= |q| {
      assert q[..|p|] == r[..|p|] == p;
    } else {
      assert p[..|q|] == r[..|q|] == q;
    }
  }

  // ----- a tree from which a part of the subtree of p has been removed -----

  ghost predicate Within(was: Tree, cur: Tree, p: Path) {
    && WellFormed(cur)
    && (forall q :: q in cur ==> q in was && cur[q] == was[q])
    && (forall q :: q in was && q !in cur ==> p <= q)
  }

  /** The children in done are gone, the rest is whole. */
  ghost predicate ChildrenGone(was: Tree, cur: Tree, p: Path, done: set<Path>) {
    && WellFormed(cur) && p in cur
    && done <= Children(was, p)
    && cur == was - (Covered(was, p, done) - {p})
  }

  lemma NoChildGone(was: Tree, p: Path)
    requires WellFormed(was) && p in was
    ensures ChildrenGone(was, was, p, {})
  {
    CoverNone(was, p);
    assert was - ({p} - {p}) == was;
  }

  /** A child that has not been removed yet is still whole. */
  lemma ChildWhole(was: Tree, cur: Tree, p: Path, done: set<Path>, c: Path, depth: nat)
    requires ChildrenGone(was, cur, p, done) && c in Children(was, p) && c !in done
    ensures Subtree(cur, c) == Subtree(was, c)
    ensures Removable(cur, c, depth) <==> Removable(was, c, depth)
  {
    CoverChild(was, p, done, c);
    forall q | c <= q ensures (q in was <==> q in cur) && (q in was ==> cur[q] == was[q]) {
      if q in was { assert q in Subtree(was, c); }
    }
    UnrelatedKept(was, cur, c, depth);
  }

  lemma OneMoreGone(was: Tree, mid: Tree, cur: Tree, p: Path, done: set<Path>, c: Path)
    requires ChildrenGone(was, mid, p, done) && c in Children(was, p) && c !in done
    requires WellFormed(cur) && cur == mid - Subtree(mid, c)
    ensures ChildrenGone(was, cur, p, done + {c})
  {
    CoverChild(was, p, done, c);
    ChildWhole(was, mid, p, done, c, 0);
    assert cur == was - (Covered(was, p, done + {c}) - {p});
  }

  lemma StuckInChild(was: Tree, mid: Tree, cur: Tree, p: Path, done: set<Path>, c: Path)
    requires ChildrenGone(was, mid, p, done) && c in Children(was, p) && Within(mid, cur, c)
    ensures Within(was, cur, p)
  {
    forall q | q in was && q !in cur ensures p <= q {
      if q in mid { assert q[..|p|] == c[..|p|] == p; }
    }
  }

  lemma AllChildrenGone(was: Tree, cur: Tree, p: Path)
    requires WellFormed(was) && ChildrenGone(was, cur, p, Children(was, p))
    ensures p in cur && Children(cur, p) == {} && cur - {p} == was - Subtree(was, p)
    ensures Within(was, cur, p) && (WellFormed(cur - {p}) ==> Within(was, cur - {p}, p))
  {
    AllCovered(was, p);
  }
}
