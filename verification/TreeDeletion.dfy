/** Bulk deletion: every selection is measured before anything is removed. */
module TreeDeletion {
  import opened Faults
  import opened FileTrees

  class Budget {
    var entries: nat
    var bytes: nat

    constructor ()
      ensures entries == 0 && bytes == 0
    {
      entries, bytes := 0, 0;
    }

    /** The limits, and a deadline that calm weather never reaches. */
    method Add(size: nat, calm: bool) returns (ok: bool)
      modifies this
      ensures entries == old(entries) + 1 && bytes == old(bytes) + size
      ensures ok ==> entries <= MAX_ENTRIES && bytes <= MAX_BYTES
      ensures calm ==> (ok <==> entries <= MAX_ENTRIES && bytes <= MAX_BYTES)
    {
      entries, bytes := entries + 1, bytes + size;
      var o := Draw(calm);
      return entries <= MAX_ENTRIES && bytes <= MAX_BYTES && o.Done?;
    }
  }

  /** How a bulk deletion ends; the two failures carry different messages. */
  datatype Ending = Completed | PreflightFailed | RemovalFailed

  class Public {
    var fs: Tree
    var calm: bool

    constructor (fs: Tree)
      ensures this.fs == fs
    {
      this.fs, calm := fs, false;
    }

    /** Walks the subtree and adds it up; in calm weather it succeeds exactly on removable subtrees that
        fit the budget. */
    method MeasureEntry(p: Path, budget: Budget, depth: nat) returns (ok: bool)
      requires WellFormed(fs) && depth <= MAX_DEPTH + 1
      modifies budget
      ensures ok ==> Removable(fs, p, depth) && budget.entries <= MAX_ENTRIES && budget.bytes <= MAX_BYTES
      ensures ok ==> budget.entries == old(budget.entries) + |Subtree(fs, p)|
      ensures ok ==> budget.bytes == old(budget.bytes) + Total(fs, Subtree(fs, p))
      ensures calm && Removable(fs, p, depth) ==>
                (ok <==> old(budget.entries) + |Subtree(fs, p)| <= MAX_ENTRIES
                         && old(budget.bytes) + Total(fs, Subtree(fs, p)) <= MAX_BYTES)
      decreases MAX_DEPTH + 1 - depth
    {
      hide Subtree, Total;
      OutOfReach(fs, p, depth);
      if depth > MAX_DEPTH || p !in fs { return false; }
      match fs[p]
      case Link => return false;
      case Special => return false;
      case File(size) =>
        ok := budget.Add(size, calm);
        AllCovered(fs, p);
        CoverNone(fs, p);
        RemovableFromChildren(fs, p, depth);
      case Dir =>
        ok := MeasureDirectory(p, budget, depth);
    }

    lemma OutOfReach(fs: Tree, p: Path, depth: nat)
      ensures depth > MAX_DEPTH || p !in fs || fs[p].Link? || fs[p].Special? ==> !Removable(fs, p, depth)
    {
      assert p <= p;
    }

    method MeasureDirectory(p: Path, budget: Budget, depth: nat) returns (ok: bool)
      requires WellFormed(fs) && depth <= MAX_DEPTH && p in fs && fs[p].Dir?
      modifies budget
      ensures ok ==> Removable(fs, p, depth) && budget.entries <= MAX_ENTRIES && budget.bytes <= MAX_BYTES
      ensures ok ==> budget.entries == old(budget.entries) + |Subtree(fs, p)|
      ensures ok ==> budget.bytes == old(budget.bytes) + Total(fs, Subtree(fs, p))
      ensures calm && Removable(fs, p, depth) ==>
                (ok <==> old(budget.entries) + |Subtree(fs, p)| <= MAX_ENTRIES
                         && old(budget.bytes) + Total(fs, Subtree(fs, p)) <= MAX_BYTES)
      decreases MAX_DEPTH + 1 - depth, 0
    {
      hide Subtree, Covered, Total, Removable, WellFormed, Children;
      ghost var done: set<Path> := {};
      AllCovered(fs, p);
      CoverNone(fs, p);
      WeightOfPart(fs, p, {p});
      ok := budget.Add(0, calm);
      if !ok { return; }
      var todo := Children(fs, p);
      while todo != {}
        invariant todo !! done && todo + done == Children(fs, p)
        invariant forall c :: c in done ==> Removable(fs, c, depth + 1)
        invariant budget.entries == old(budget.entries) + |Covered(fs, p, done)| <= MAX_ENTRIES
        invariant budget.bytes == old(budget.bytes) + Total(fs, Covered(fs, p, done)) <= MAX_BYTES
        decreases |todo|
      {
        var c :| c in todo;
        todo := todo - {c};
        if Removable(fs, p, depth) { RemovableChild(fs, p, c, depth); }
        OneMoreMeasured(fs, p, done, c);
        done := done + {c};
        ok := MeasureEntry(c, budget, depth + 1);
        if !ok { return; }
      }
      assert done == Children(fs, p);
      RemovableFromChildren(fs, p, depth);
    }

    /** What one more child adds, and that the sum stays within the subtree. */
    lemma OneMoreMeasured(fs: Tree, p: Path, done: set<Path>, c: Path)
      requires c in Children(fs, p) && c !in done && done <= Children(fs, p)
      ensures var part, more := Covered(fs, p, done), Covered(fs, p, done + {c});
              |more| == |part| + |Subtree(fs, c)| && Total(fs, more) == Total(fs, part) + Total(fs, Subtree(fs, c))
              && |more| <= |Subtree(fs, p)| && Total(fs, more) <= Total(fs, Subtree(fs, p))
    {
      hide Total;
      CoverChild(fs, p, done, c);
      Card(Covered(fs, p, done), Subtree(fs, c));
      TotalOfUnion(fs, Covered(fs, p, done), Subtree(fs, c));
      CoveredWithin(fs, p, done + {c});
      WeightOfPart(fs, p, Covered(fs, p, done + {c}));
    }

    /** A part of a subtree weighs no more than the subtree. */
    lemma WeightOfPart(fs: Tree, p: Path, part: set<Path>)
      requires part <= Subtree(fs, p)
      ensures |part| <= |Subtree(fs, p)| && Total(fs, part) <= Total(fs, Subtree(fs, p))
    {
      var rest := Subtree(fs, p) - part;
      assert part + rest == Subtree(fs, p);
      Card(part, rest);
      TotalOfUnion(fs, part, rest);
    }

    /** Removes the subtree, children before their directory. */
    method RemoveEntry(p: Path, depth: nat) returns (ok: bool)
      requires WellFormed(fs) && depth <= MAX_DEPTH + 1
      modifies `fs
      ensures Within(old(fs), fs, p)
      ensures ok ==> p in old(fs) && fs == old(fs) - Subtree(old(fs), p)
      ensures calm && Removable(old(fs), p, depth) ==> ok
      decreases MAX_DEPTH + 1 - depth
    {
      hide Subtree, Removable;
      OutOfReach(fs, p, depth);
      if depth > MAX_DEPTH || p !in fs { return false; }
      AllCovered(fs, p);
      match fs[p]
      case Link => return false;
      case Special => return false;
      case File(_) =>
        ok := Unlink(p);
      case Dir =>
        ok := RemoveDirectory(p, depth);
    }

    /** unlinkat: it refuses a directory that still has entries. */
    method Unlink(p: Path) returns (ok: bool)
      requires WellFormed(fs) && p in fs
      modifies `fs
      ensures WellFormed(fs) && fs == if ok then old(fs) - {p} else old(fs)
      ensures calm && Children(old(fs), p) == {} ==> ok
    {
      var o := Draw(calm);
      if Children(fs, p) != {} || !o.Done? { return false; }
      ChildrenComplete(fs, p);
      fs := fs - {p};
      return true;
    }

    method RemoveDirectory(p: Path, depth: nat) returns (ok: bool)
      requires WellFormed(fs) && depth <= MAX_DEPTH && p in fs && fs[p].Dir?
      modifies `fs
      ensures Within(old(fs), fs, p)
      ensures ok ==> fs == old(fs) - Subtree(old(fs), p)
      ensures calm && Removable(old(fs), p, depth) ==> ok
      decreases MAX_DEPTH + 1 - depth, 0
    {
      hide Subtree, Removable, WellFormed, Covered, ChildrenGone, Within, Children;
      ghost var was, done := fs, {};
      NoChildGone(fs, p);
      var todo := Children(fs, p);
      while todo != {}
        invariant todo !! done && todo + done == Children(was, p)
        invariant WellFormed(fs) && ChildrenGone(was, fs, p, done)
        decreases |todo|
      {
        var c :| c in todo;
        todo := todo - {c};
        ChildWhole(was, fs, p, done, c, depth + 1);
        if Removable(was, p, depth) { RemovableChild(was, p, c, depth); }
        ghost var before := fs;
        ok := RemoveEntry(c, depth + 1);
        if !ok {
          StuckInChild(was, before, fs, p, done, c);
          return;
        }
        StillWellFormed(before, fs, c);
        OneMoreGone(was, before, fs, p, done, c);
        done := done + {c};
      }
      assert done == Children(was, p);
      AllChildrenGone(was, fs, p);
      ok := Unlink(p);
    }

    lemma StillWellFormed(was: Tree, cur: Tree, p: Path)
      requires Within(was, cur, p)
      ensures WellFormed(cur)
    {
    }

    /** Everything in the first k selections. */
    ghost function Selected(was: Tree, paths: seq<Path>, k: nat): set<Path>
      requires k <= |paths|
    {
      if k == 0 then {} else Selected(was, paths, k - 1) + Subtree(was, paths[k - 1])
    }

    lemma {:induction false} InSelected(was: Tree, paths: seq<Path>, k: nat, q: Path)
      requires k <= |paths|
      ensures q in Selected(was, paths, k) <==> q in was && exists i :: 0 <= i < k && paths[i] <= q
    {
      if k > 0 { InSelected(was, paths, k - 1, q); }
    }

    /** A later selection is untouched by the removal of the earlier ones. */
    lemma LaterKept(was: Tree, paths: seq<Path>, k: nat, n: nat)
      requires Antichain(paths) && k <= n < |paths|
      ensures var cur := was - Selected(was, paths, k);
              Subtree(cur, paths[n]) == Subtree(was, paths[n])
              && (Removable(cur, paths[n], 0) <==> Removable(was, paths[n], 0))
      ensures Selected(was, paths, k) !! Subtree(was, paths[n])
    {
      var cur := was - Selected(was, paths, k);
      forall q | q in Selected(was, paths, k) ensures !(paths[n] <= q) {
        InSelected(was, paths, k, q);
        var i :| 0 <= i < k && paths[i] <= q;
        if paths[n] <= q { PrefixesRelated(paths[i], paths[n], q); }
      }
      UnrelatedKept(was, cur, paths[n], 0);
    }

    /** Success of the preflight means that every selection is removable and that all fit one budget. */
    method Preflight(paths: seq<Path>) returns (ok: bool)
      requires WellFormed(fs) && Antichain(paths)
      ensures ok ==> Measurable(fs, paths)
      ensures calm && Measurable(fs, paths) ==> ok
    {
      hide Subtree, Total, Removable, WellFormed, Antichain;
      NothingSelected(fs, paths);
      var budget := new Budget();
      for k := 0 to |paths|
        invariant fresh(budget)
        invariant forall i :: 0 <= i < k ==> Removable(fs, paths[i], 0)
        invariant budget.entries == |Selected(fs, paths, k)| <= MAX_ENTRIES
        invariant budget.bytes == Total(fs, Selected(fs, paths, k)) <= MAX_BYTES
      {
        LaterKept(fs, paths, k, k);
        Card(Selected(fs, paths, k), Subtree(fs, paths[k]));
        TotalOfUnion(fs, Selected(fs, paths, k), Subtree(fs, paths[k]));
        SelectedGrows(fs, paths, k + 1, |paths|);
        ok := MeasureEntry(paths[k], budget, 0);
        if !ok { return; }
      }
      return true;
    }

    lemma {:induction false} SelectedGrows(was: Tree, paths: seq<Path>, k: nat, n: nat)
      requires k <= n <= |paths|
      ensures |Selected(was, paths, k)| <= |Selected(was, paths, n)|
      ensures Total(was, Selected(was, paths, k)) <= Total(was, Selected(was, paths, n))
    {
      var part, whole := Selected(was, paths, k), Selected(was, paths, n);
      forall q | q in part ensures q in whole {
        InSelected(was, paths, k, q);
        InSelected(was, paths, n, q);
      }
      assert part + (whole - part) == whole;
      Card(part, whole - part);
      TotalOfUnion(was, part, whole - part);
    }

    ghost predicate Measurable(was: Tree, paths: seq<Path>) {
      && (forall i :: 0 <= i < |paths| ==> Removable(was, paths[i], 0))
      && |Selected(was, paths, |paths|)| <= MAX_ENTRIES && Total(was, Selected(was, paths, |paths|)) <= MAX_BYTES
    }

    /** The first k selections are gone and, of the rest, at most a part of selection k. */
    ghost predicate StoppedAt(was: Tree, cur: Tree, paths: seq<Path>, k: nat) {
      && k <= |paths|
      && (forall q :: q in cur ==> q in was && cur[q] == was[q] && q !in Selected(was, paths, k))
      && (forall q :: q in was && q !in cur && q !in Selected(was, paths, k) ==> k < |paths| && paths[k] <= q)
    }

    lemma NothingSelected(was: Tree, paths: seq<Path>)
      ensures Selected(was, paths, 0) == {} && Total(was, {}) == 0 && was - {} == was
    {
    }

    lemma SelectionGone(was: Tree, mid: Tree, cur: Tree, paths: seq<Path>, k: nat)
      requires Antichain(paths) && k < |paths| && mid == was - Selected(was, paths, k)
      requires cur == mid - Subtree(mid, paths[k])
      ensures cur == was - Selected(was, paths, k + 1)
    {
      LaterKept(was, paths, k, k);
    }

    lemma SelectionStuck(was: Tree, mid: Tree, cur: Tree, paths: seq<Path>, k: nat)
      requires k < |paths| && mid == was - Selected(was, paths, k) && Within(mid, cur, paths[k])
      ensures StoppedAt(was, cur, paths, k)
    {
    }

    /** Bulk delete. A preflight that fails, for whatever reason, changes nothing; after a successful one only
        an I/O error can stop the removal, and success removes exactly the selected subtrees. */
    method DeleteFiles(paths: seq<Path>) returns (changed: nat, end: Ending)
      requires WellFormed(fs) && Antichain(paths)
      modifies `fs
      ensures WellFormed(fs)
      ensures end.Completed? ==> changed == |paths| && fs == old(fs) - Selected(old(fs), paths, |paths|)
      ensures end.PreflightFailed? ==> changed == 0 && fs == old(fs)
      ensures end.RemovalFailed? ==> Measurable(old(fs), paths) && StoppedAt(old(fs), fs, paths, changed)
      ensures !Measurable(old(fs), paths) ==> end.PreflightFailed?
      ensures calm && Measurable(old(fs), paths) ==> end.Completed?
    {
      hide Subtree, Total, Removable, WellFormed, Antichain, Selected, Within, StoppedAt, Measurable;
      ghost var was := fs;
      changed := 0;
      NothingSelected(was, paths);
      var ok := Preflight(paths);
      if !ok { return changed, PreflightFailed; }
      while changed < |paths|
        invariant changed <= |paths| && WellFormed(fs)
        invariant fs == was - Selected(was, paths, changed)
      {
        LaterKept(was, paths, changed, changed);
        if Measurable(was, paths) { MeasurableAt(was, paths, changed); }
        ghost var before := fs;
        ok := RemoveEntry(paths[changed], 0);
        StillWellFormed(before, fs, paths[changed]);
        if !ok {
          SelectionStuck(was, before, fs, paths, changed);
          return changed, RemovalFailed;
        }
        SelectionGone(was, before, fs, paths, changed);
        changed := changed + 1;
      }
      end := Completed;
    }

    lemma MeasurableAt(was: Tree, paths: seq<Path>, k: nat)
      requires Measurable(was, paths) && k < |paths|
      ensures Removable(was, paths[k], 0)
    {
    }
  }
}
