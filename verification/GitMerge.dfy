/** Three-way merge of file maps and of commits. */
module GitMerge {
  import opened Codec
  import opened GitObjects
  import opened GitTrees
  import opened GitBuild
  import opened GitHistory

  datatype Kind = AddAdd | ModifyModify | ModifyDelete | FileDirectory

  /** None stands for the zero id: this side has no file at the path. */
  datatype Conflict = Conflict(kind: Kind, ours: Option<Id>, theirs: Option<Id>)

  datatype Verdict = Take(file: Option<Id>) | Clash(conflict: Conflict)

  /** The three-way rule: take the side that changed; if both did, they must agree. */
  function ThreeWay(base: Option<Id>, ours: Option<Id>, theirs: Option<Id>): Verdict
  {
    if ours == theirs || theirs == base then Take(ours)
    else if ours == base then Take(theirs)
    else
      var kind := if ours.None? || theirs.None? then ModifyDelete else if base.None? then AddAdd else ModifyModify;
      Clash(Conflict(kind, ours, theirs))
  }

  /** Who changed a path from the base. */
  predicate Changed(base: Option<Id>, side: Option<Id>)
  {
    side != base
  }

  /** The rule in terms of changes: a change made on one side only is kept, a change both made
      alike is kept, and what nobody changed stays.  Only changes that differ clash, and the
      conflict shows both sides and whether the file was new, deleted on a side, or modified on
      both. */
  lemma ThreeWayMeans(base: Option<Id>, ours: Option<Id>, theirs: Option<Id>)
    ensures var v := ThreeWay(base, ours, theirs);
            (v.Clash? <==> Changed(base, ours) && Changed(base, theirs) && ours != theirs) &&
            (v.Take? && Changed(base, ours) ==> v.file == ours) && (v.Take? && Changed(base, theirs) ==> v.file == theirs) &&
            (!Changed(base, ours) && !Changed(base, theirs) ==> v == Take(base)) &&
            (v.Clash? ==> v.conflict.ours == ours && v.conflict.theirs == theirs &&
                          (v.conflict.kind == AddAdd <==> base.None?) &&
                          (v.conflict.kind == ModifyDelete <==> base.Some? && (ours.None? || theirs.None?)) &&
                          (v.conflict.kind == ModifyModify <==> base.Some? && ours.Some? && theirs.Some?))
  {
  }

  /** What a path comes to: a file on one side under which the other side has files is a
      conflict; otherwise the three-way rule. */
  ghost function Outcome(base: Files, ours: Files, theirs: Files, p: Path): Verdict
  {
    if p in ours && HasUnder(theirs, p) then Clash(Conflict(FileDirectory, Some(ours[p]), None))
    else if p in theirs && HasUnder(ours, p) then Clash(Conflict(FileDirectory, None, Some(theirs[p])))
    else ThreeWay(At(base, p), At(ours, p), At(theirs, p))
  }

  // ---- paths as strings ----

  lemma {:induction false} JoinConcat(p: Path, r: Path)
    requires p != [] && r != []
    ensures Join(p + r) == Join(p) + "/" + Join(r)
    decreases |p|
  {
    if |p| == 1 {
      assert (p + r)[1..] == r;
    } else {
      assert (p + r)[1..] == p[1..] + r;
      JoinConcat(p[1..], r);
    }
  }

  lemma {:induction false} SplitFirst(n: Name, r: string)
    requires GoodName(n)
    ensures Split(n + "/" + r) == [n] + Split(r)
  {
    var rest := "/" + r;
    assert n + "/" + r == n + rest && "" + n == n && rest[1..] == r;
    SplitName(n, rest, "");
  }

  lemma {:induction false} SplitConcat(p: Path, r: string)
    requires GoodPath(p)
    ensures Split(Join(p) + "/" + r) == p + Split(r)
    decreases |p|
  {
    hide Split;
    assert GoodName(p[0]);
    if |p| == 1 {
      SplitFirst(p[0], r);
    } else {
      var more := Join(p[1..]) + "/" + r;
      SplitFirst(p[0], more);
      SlashAssoc(p[0], Join(p[1..]), r);
      TailGood(p);
      SplitConcat(p[1..], r);
      assert p == [p[0]] + p[1..];
    }
  }

  lemma {:induction false} SlashAssoc(a: string, b: string, c: string)
    ensures a + "/" + b + "/" + c == a + "/" + (b + "/" + c)
  {
  }

  lemma {:induction false} TailGood(p: Path)
    requires GoodPath(p) && |p| > 1
    ensures GoodPath(p[1..])
  {
    forall i | 0 <= i < |p[1..]| ensures GoodName(p[1..][i]) { assert p[1..][i] == p[i + 1]; }
  }

  /** A path's string with a slash begins another's exactly when the other lies below it. */
  lemma {:induction false} SlashPrefix(p: Path, q: Path)
    requires GoodPath(p) && GoodPath(q)
    ensures Join(p) + "/" <= Join(q) <==> p <= q && p != q
  {
    hide Split;
    var s := Join(p) + "/";
    if p <= q && p != q {
      var r := q[|p|..];
      assert q == p + r;
      JoinConcat(p, r);
    }
    if s <= Join(q) {
      var r := Join(q)[|s|..];
      assert Join(q) == Join(p) + "/" + r;
      SplitConcat(p, r);
      SplitJoin(q);
    }
  }

  lemma {:induction false} Between(s: string, y: string, x: string)
    requires !Less(y, s) && !Less(x, y) && s <= x
    ensures s <= y
  {
    if s != "" {
      assert s[0] == x[0];
      Between(s[1..], y[1..], x[1..]);
      assert y == [y[0]] + y[1..] && s == [s[0]] + s[1..];
    }
  }

  lemma {:induction false} PrefixNotLess(s: string, x: string)
    requires s <= x
    ensures !Less(x, s)
  {
    if s != "" {
      PrefixNotLess(s[1..], x[1..]);
    }
  }

  /** The ordered map's lower bound of a prefix tells whether any key has the prefix. */
  lemma {:induction false} LowerBoundFinds(keys: set<string>, s: string, y: string)
    requires y in keys && !Less(y, s) && forall k | k in keys && !Less(k, s) :: !Less(k, y)
    ensures s <= y <==> exists k :: k in keys && s <= k
  {
    hide Less;
    if k :| k in keys && s <= k {
      PrefixNotLess(s, k);
      Between(s, y, k);
    }
  }

  // ---- the merge of one path ----

  method UsesAsDirectory(files: Files, p: Path) returns (r: bool)
    ensures r <==> HasUnder(files, p)
  {
    var todo := files.Keys;
    while todo != {}
      invariant todo <= files.Keys
      invariant forall q | q in files && q !in todo :: !(p <= q && p != q)
      decreases |todo|
    {
      var q :| q in todo;
      if p <= q && p != q {
        return true;
      }
      todo := todo - {q};
    }
    r := false;
  }

  /** The branches of the merge loop, in the order they are tried. */
  method MergePath(base: Files, ours: Files, theirs: Files, p: Path) returns (v: Verdict)
    ensures v == Outcome(base, ours, theirs, p)
  {
    hide HasUnder;
    var theirsBelow := UsesAsDirectory(theirs, p);
    if p in ours && theirsBelow {
      return Clash(Conflict(FileDirectory, Some(ours[p]), None));
    }
    var oursBelow := UsesAsDirectory(ours, p);
    if p in theirs && oursBelow {
      return Clash(Conflict(FileDirectory, None, Some(theirs[p])));
    }
    var inBase, inOurs, inTheirs := p in base, p in ours, p in theirs;
    var baseId, oursId, theirsId := At(base, p), At(ours, p), At(theirs, p);
    var oursChanged := inOurs != inBase || (inOurs && inBase && oursId != baseId);
    var theirsChanged := inTheirs != inBase || (inTheirs && inBase && theirsId != baseId);
    if !oursChanged && !theirsChanged {
      return Take(baseId);
    }
    if oursChanged && !theirsChanged {
      return Take(oursId);
    }
    if !oursChanged && theirsChanged {
      return Take(theirsId);
    }
    if inOurs && inTheirs {
      if oursId == theirsId {
        return Take(oursId);
      }
      return Clash(Conflict(if !inBase then AddAdd else ModifyModify, oursId, theirsId));
    }
    if inOurs || inTheirs {
      return Clash(Conflict(ModifyDelete, oursId, theirsId));
    }
    v := Take(None);
  }

  /** Every path of the three maps, in any order. */
  method MergeFiles(base: Files, ours: Files, theirs: Files) returns (merged: Files, conflicts: map<Path, Conflict>)
    ensures forall p :: p in conflicts <==> Outcome(base, ours, theirs, p).Clash?
    ensures forall p | p in conflicts :: conflicts[p] == Outcome(base, ours, theirs, p).conflict
    ensures forall p :: Outcome(base, ours, theirs, p).Take? ==> At(merged, p) == Outcome(base, ours, theirs, p).file
    ensures forall p :: Outcome(base, ours, theirs, p).Clash? ==> p !in merged
  {
    hide HasUnder;
    merged, conflicts := map[], map[];
    var all := base.Keys + ours.Keys + theirs.Keys;
    var todo := all;
    assert forall p | p !in all :: Outcome(base, ours, theirs, p) == Take(None);
    hide Outcome;
    while todo != {}
      invariant todo <= all
      invariant forall p | p in todo :: p !in conflicts && p !in merged
      invariant forall p | p !in todo :: (p in conflicts <==> Outcome(base, ours, theirs, p).Clash?) &&
                                         (p in conflicts ==> conflicts[p] == Outcome(base, ours, theirs, p).conflict)
      invariant forall p | p !in todo :: (Outcome(base, ours, theirs, p).Take? ==> At(merged, p) == Outcome(base, ours, theirs, p).file) &&
                                         (Outcome(base, ours, theirs, p).Clash? ==> p !in merged)
      decreases |todo|
    {
      var p :| p in todo;
      var v := MergePath(base, ours, theirs, p);
      match v {
        case Take(None) =>
        case Take(Some(id)) => merged := merged[p := id];
        case Clash(c) => conflicts := conflicts[p := c];
      }
      todo := todo - {p};
    }
  }

  // ---- swapping the sides ----

  function SwapConflict(c: Conflict): Conflict
  {
    Conflict(c.kind, c.theirs, c.ours)
  }

  function SwapVerdict(v: Verdict): Verdict
  {
    match v
    case Take(f) => Take(f)
    case Clash(c) => Clash(SwapConflict(c))
  }

  /** Merging theirs into ours and ours into theirs give the same files, and the same conflicts
      with their sides swapped. */
  lemma {:induction false} OutcomeSymmetric(base: Files, ours: Files, theirs: Files, p: Path)
    requires PrefixFree(ours) && PrefixFree(theirs)
    ensures Outcome(base, theirs, ours, p) == SwapVerdict(Outcome(base, ours, theirs, p))
  {
  }

  // ---- nothing is dropped ----

  /** Without conflicts, no merged file lies under another, so building the tree drops none. */
  lemma {:induction false} MergedPrefixFree(base: Files, ours: Files, theirs: Files, merged: Files)
    requires PrefixFree(ours) && PrefixFree(theirs)
    requires forall p :: Outcome(base, ours, theirs, p).Take? && At(merged, p) == Outcome(base, ours, theirs, p).file
    ensures PrefixFree(merged)
  {
    forall p, q | p in merged && q in merged && p != q
      ensures !(p <= q)
    {
      FromASide(base, ours, theirs, merged, p);
      FromASide(base, ours, theirs, merged, q);
      assert Outcome(base, ours, theirs, p).Take?;
      assert p <= q && q in ours ==> HasUnder(ours, p);
      assert p <= q && q in theirs ==> HasUnder(theirs, p);
    }
  }

  lemma {:induction false} FromASide(base: Files, ours: Files, theirs: Files, merged: Files, p: Path)
    requires p in merged && Outcome(base, ours, theirs, p).Take? && At(merged, p) == Outcome(base, ours, theirs, p).file
    ensures p in ours || p in theirs
  {
    hide HasUnder;
  }

  // ---- the merge of two commits ----

  datatype MergeError = OursUnreadable | TheirsUnreadable | NoCommonAncestor | CorruptTree

  datatype MergeResult =
    | Failed(error: MergeError)
    | AlreadyUpToDate(base: Id)
    | FastForward(base: Id, tree: Id)
    | Merged(base: Id, tree: Id)
    | Conflicted(base: Id, conflicts: map<Path, Conflict>)

  predicate IsCommit(store: set<Id>, c: Id)
  {
    c in store && c.Commit?
  }

  /** Commits of the store have well-formed trees. */
  ghost predicate GoodStore(store: set<Id>)
  {
    forall c | c in store && c.Commit? && c.tree.Tree? :: GoodTree(c.tree)
  }

  // ---- what a merge is, said of trees ----

  /** Some file of the tree lies properly under `p`. */
  ghost predicate Below(t: Id, p: Path)
  {
    exists q: Path :: FileAt(t, q).Some? && p <= q && p != q
  }

  /** What a path comes to, said of the three trees. */
  ghost function TreeOutcome(base: Id, ours: Id, theirs: Id, p: Path): Verdict
  {
    if FileAt(ours, p).Some? && Below(theirs, p) then Clash(Conflict(FileDirectory, FileAt(ours, p), None))
    else if FileAt(theirs, p).Some? && Below(ours, p) then Clash(Conflict(FileDirectory, None, FileAt(theirs, p)))
    else ThreeWay(FileAt(base, p), FileAt(ours, p), FileAt(theirs, p))
  }

  /** No path clashes and `tree` holds at every path what it comes to. */
  ghost predicate IsMerge(base: Id, ours: Id, theirs: Id, tree: Id)
  {
    GoodTree(tree) && Canonical(tree) && forall p: Path :: TreeOutcome(base, ours, theirs, p) == Take(FileAt(tree, p))
  }

  /** The conflicts are exactly the paths that clash, and there is one. */
  ghost predicate AreConflicts(base: Id, ours: Id, theirs: Id, conflicts: map<Path, Conflict>)
  {
    conflicts != map[] &&
    forall p: Path :: if p in conflicts then TreeOutcome(base, ours, theirs, p) == Clash(conflicts[p])
                      else TreeOutcome(base, ours, theirs, p).Take?
  }

  ghost predicate SomeClash(base: Id, ours: Id, theirs: Id)
  {
    exists p: Path :: TreeOutcome(base, ours, theirs, p).Clash?
  }

  /** The files of a tree and its paths below one another. */
  lemma {:induction false} FlatBelow(t: Id, files: Files, p: Path)
    requires Flat(t, files)
    ensures At(files, p) == FileAt(t, p) && (HasUnder(files, p) <==> Below(t, p))
  {
    hide FileAt;
    assert FileAt(t, p) == if p in files then Some(files[p]) else None;
    if HasUnder(files, p) {
      var q :| q in files && p <= q && p != q;
      assert FileAt(t, q).Some?;
    }
    if Below(t, p) {
      var q :| FileAt(t, q).Some? && p <= q && p != q;
      assert q in files;
    }
  }

  lemma {:induction false} OutcomeOfTrees(base: Id, ours: Id, theirs: Id, b: Files, o: Files, t: Files, p: Path)
    requires Flat(base, b) && Flat(ours, o) && Flat(theirs, t)
    ensures Outcome(b, o, t, p) == TreeOutcome(base, ours, theirs, p)
  {
    hide FileAt, HasUnder, Below, Flat;
    FlatBelow(base, b, p);
    FlatBelow(ours, o, p);
    FlatBelow(theirs, t, p);
  }

  // ---- the result, case by case ----

  /** Both commits are readable and neither contains the other. */
  ghost predicate Diverged(store: set<Id>, ours: Id, theirs: Id)
  {
    IsCommit(store, ours) && IsCommit(store, theirs) && !Ancestor(store, ours, theirs) && !Ancestor(store, theirs, ours)
  }

  /** The base is a readable commit and all three trees can be read. */
  ghost predicate AllReadable(store: set<Id>, base: Id, ours: Id, theirs: Id)
  {
    IsCommit(store, base) && ours.Commit? && theirs.Commit? &&
    Readable(store, base.tree) && Readable(store, ours.tree) && Readable(store, theirs.tree)
  }

  /** There is a base, but it or one of the trees cannot be read. */
  ghost predicate Broken(less: (Id, Id) -> bool, store: set<Id>, ours: Id, theirs: Id)
  {
    Diverged(store, ours, theirs) &&
    exists base :: IsBase(less, store, ours, theirs, base) && !AllReadable(store, base, ours, theirs)
  }

  /** Everything can be read and some path clashes. */
  ghost predicate Clashing(less: (Id, Id) -> bool, store: set<Id>, ours: Id, theirs: Id)
  {
    Diverged(store, ours, theirs) &&
    exists base :: IsBase(less, store, ours, theirs, base) && AllReadable(store, base, ours, theirs) &&
                   SomeClash(base.tree, ours.tree, theirs.tree)
  }

  /** Everything can be read and no path clashes. */
  ghost predicate Mergeable(less: (Id, Id) -> bool, store: set<Id>, ours: Id, theirs: Id)
  {
    Diverged(store, ours, theirs) &&
    exists base :: IsBase(less, store, ours, theirs, base) && AllReadable(store, base, ours, theirs) &&
                   !SomeClash(base.tree, ours.tree, theirs.tree)
  }

  /** What each result says.  The cases exclude each other, and each determines its result. */
  ghost predicate IsResult(less: (Id, Id) -> bool, store: set<Id>, ours: Id, theirs: Id, r: MergeResult)
  {
    match r
    case Failed(OursUnreadable) => !IsCommit(store, ours)
    case Failed(TheirsUnreadable) => IsCommit(store, ours) && !IsCommit(store, theirs)
    case AlreadyUpToDate(base) => IsCommit(store, ours) && IsCommit(store, theirs) && Ancestor(store, ours, theirs) && base == theirs
    case FastForward(base, tree) =>
      IsCommit(store, ours) && IsCommit(store, theirs) && !Ancestor(store, ours, theirs) && Ancestor(store, theirs, ours) &&
      base == ours && tree == theirs.tree
    case Failed(NoCommonAncestor) => Diverged(store, ours, theirs) && forall x :: !Common(store, ours, theirs, x)
    case Failed(CorruptTree) => Broken(less, store, ours, theirs)
    case Merged(base, tree) =>
      Diverged(store, ours, theirs) && IsBase(less, store, ours, theirs, base) && AllReadable(store, base, ours, theirs) &&
      IsMerge(base.tree, ours.tree, theirs.tree, tree)
    case Conflicted(base, conflicts) =>
      Diverged(store, ours, theirs) && IsBase(less, store, ours, theirs, base) && AllReadable(store, base, ours, theirs) &&
      AreConflicts(base.tree, ours.tree, theirs.tree, conflicts)
  }

  method ReadFiles(store: set<Id>, t: Id) returns (ok: bool, files: Files)
    requires t.Tree? ==> GoodTree(t)
    ensures ok <==> Readable(store, t)
    ensures ok ==> Flat(t, files) && GoodPaths(files) && PrefixFree(files)
  {
    hide GoodTree, Readable;
    ok, files := FlattenTree(store, t, [], map[]);
    if ok {
      ReadableTree(store, t);
      forall p: Path ensures At(files, p) == FileAt(t, p) { assert At(files, p) == Over(map[], [], t, p); assert p[0..] == p; }
      FlatPrefixFree(t, files);
      FlatGoodPaths(t, files);
    }
  }

  lemma {:induction false} ReadableTree(store: set<Id>, t: Id)
    requires Readable(store, t)
    ensures t.Tree?
  {
  }

  lemma {:induction false} FlatGoodPaths(t: Id, files: Files)
    requires GoodTree(t) && Flat(t, files)
    ensures GoodPaths(files)
  {
    forall p | p in files
      ensures GoodPath(p)
    {
      assert FileAt(t, p).Some?;
      FileGoodPath(t, p);
    }
  }

  /** `mergeCommits`: every outcome arises exactly when its case says, and is determined by it. */
  method MergeCommits(less: (Id, Id) -> bool, store: set<Id>, ours: Id, theirs: Id) returns (r: MergeResult, store': set<Id>)
    requires StrictTotal(less) && GoodStore(store)
    ensures store <= store'
    ensures IsResult(less, store, ours, theirs, r)
    ensures forall r' | IsResult(less, store, ours, theirs, r') :: r' == r
    ensures r == Failed(CorruptTree) <==> Broken(less, store, ours, theirs)
    ensures r.Conflicted? <==> Clashing(less, store, ours, theirs)
    ensures r.Merged? <==> Mergeable(less, store, ours, theirs)
    ensures r.Merged? ==> Readable(store', r.tree)
  {
    hide Ancestor, IsBase, StrictTotal, Readable, GoodTree, IsMerge, Common, AreConflicts, SomeClash;
    r, store' := MergeByCases(less, store, ours, theirs);
    forall r' | IsResult(less, store, ours, theirs, r')
      ensures r' == r
    {
      ResultUnique(less, store, ours, theirs, r, r');
    }
    ResultKinds(less, store, ours, theirs, r);
  }

  method MergeByCases(less: (Id, Id) -> bool, store: set<Id>, ours: Id, theirs: Id) returns (r: MergeResult, store': set<Id>)
    requires StrictTotal(less) && GoodStore(store)
    ensures store <= store'
    ensures IsResult(less, store, ours, theirs, r)
    ensures r.Merged? ==> Readable(store', r.tree)
  {
    hide Ancestor, IsBase, StrictTotal, Readable, GoodTree, IsMerge, Common, AreConflicts, GoodStore;
    store' := store;
    if !IsCommit(store, ours) {
      return Failed(OursUnreadable), store';
    }
    if !IsCommit(store, theirs) {
      return Failed(TheirsUnreadable), store';
    }
    var oursAncestors := AllAncestors(store, ours);
    var theirsAncestors := AllAncestors(store, theirs);
    if theirs in oursAncestors {
      return AlreadyUpToDate(theirs), store';
    }
    if ours in theirsAncestors {
      return FastForward(ours, theirs.tree), store';
    }
    var base := ChooseBase(less, store, ours, theirs, oursAncestors, theirsAncestors);
    if base.None? {
      return Failed(NoCommonAncestor), store';
    }
    if !IsCommit(store, base.value) {
      return Failed(CorruptTree), store';
    }
    r, store' := MergeTrees(store, base.value, ours, theirs);
  }

  /** The part of the merge after the base is known. */
  method MergeTrees(store: set<Id>, base: Id, ours: Id, theirs: Id) returns (r: MergeResult, store': set<Id>)
    requires GoodStore(store) && IsCommit(store, base) && IsCommit(store, ours) && IsCommit(store, theirs)
    ensures store <= store'
    ensures if !AllReadable(store, base, ours, theirs) then r == Failed(CorruptTree)
            else (r.Merged? && r.base == base && IsMerge(base.tree, ours.tree, theirs.tree, r.tree) && Readable(store', r.tree)) ||
                 (r.Conflicted? && r.base == base && AreConflicts(base.tree, ours.tree, theirs.tree, r.conflicts))
  {
    hide Readable, GoodTree, Flat, PrefixFree, GoodPaths, Outcome, IsMerge, HasUnder, AreConflicts;
    store' := store;
    var okBase, b := ReadFiles(store, base.tree);
    var okOurs, o := ReadFiles(store, ours.tree);
    var okTheirs, t := ReadFiles(store, theirs.tree);
    if !okBase || !okOurs || !okTheirs {
      return Failed(CorruptTree), store';
    }
    var merged, conflicts := MergeFiles(b, o, t);
    if conflicts != map[] {
      FilesConflict(base.tree, ours.tree, theirs.tree, b, o, t, conflicts);
      return Conflicted(base, conflicts), store';
    }
    MergedPrefixFree(b, o, t, merged);
    MergedGoodPaths(b, o, t, merged);
    var tree;
    tree, store' := BuildTree(merged, store);
    NothingDropped(merged, tree);
    TreeIsMerge(base.tree, ours.tree, theirs.tree, tree, b, o, t, merged);
    r := Merged(base, tree);
  }

  lemma {:induction false} FilesConflict(base: Id, ours: Id, theirs: Id, b: Files, o: Files, t: Files, conflicts: map<Path, Conflict>)
    requires Flat(base, b) && Flat(ours, o) && Flat(theirs, t) && conflicts != map[]
    requires forall p :: p in conflicts <==> Outcome(b, o, t, p).Clash?
    requires forall p | p in conflicts :: conflicts[p] == Outcome(b, o, t, p).conflict
    ensures AreConflicts(base, ours, theirs, conflicts)
  {
    hide Outcome, TreeOutcome, Flat;
    forall p: Path
      ensures if p in conflicts then TreeOutcome(base, ours, theirs, p) == Clash(conflicts[p])
              else TreeOutcome(base, ours, theirs, p).Take?
    {
      OutcomeOfTrees(base, ours, theirs, b, o, t, p);
    }
  }

  lemma {:induction false} MergedGoodPaths(base: Files, ours: Files, theirs: Files, merged: Files)
    requires GoodPaths(ours) && GoodPaths(theirs)
    requires forall p :: Outcome(base, ours, theirs, p).Take? && At(merged, p) == Outcome(base, ours, theirs, p).file
    ensures GoodPaths(merged)
  {
    hide Outcome;
    forall p | p in merged
      ensures GoodPath(p)
    {
      FromASide(base, ours, theirs, merged, p);
    }
  }

  lemma {:induction false} TreeIsMerge(base: Id, ours: Id, theirs: Id, tree: Id, b: Files, o: Files, t: Files, merged: Files)
    requires Flat(base, b) && Flat(ours, o) && Flat(theirs, t) && Flat(tree, merged) && GoodTree(tree) && Canonical(tree)
    requires forall p :: Outcome(b, o, t, p).Take? && At(merged, p) == Outcome(b, o, t, p).file
    ensures IsMerge(base, ours, theirs, tree)
  {
    hide FileAt, GoodTree, Canonical, Outcome, TreeOutcome, Flat, HasUnder, Below;
    forall p: Path
      ensures TreeOutcome(base, ours, theirs, p) == Take(FileAt(tree, p))
    {
      OutcomeOfTrees(base, ours, theirs, b, o, t, p);
      FlatBelow(tree, merged, p);
    }
  }

  // ---- the result is determined ----

  /** A path clashes or not; the merge and the conflicts are determined by the trees. */
  lemma {:induction false} MergeDetermined(base: Id, ours: Id, theirs: Id)
    ensures forall t, t' | IsMerge(base, ours, theirs, t) && IsMerge(base, ours, theirs, t') :: t == t'
    ensures forall c, c' | AreConflicts(base, ours, theirs, c) && AreConflicts(base, ours, theirs, c') :: c == c'
    ensures forall t | IsMerge(base, ours, theirs, t) :: !SomeClash(base, ours, theirs)
    ensures forall c | AreConflicts(base, ours, theirs, c) :: SomeClash(base, ours, theirs)
  {
    hide TreeOutcome, FileAt, GoodTree, Canonical;
    forall t, t' | IsMerge(base, ours, theirs, t) && IsMerge(base, ours, theirs, t')
      ensures t == t'
    {
      forall p: Path ensures FileAt(t, p) == FileAt(t', p) { assert TreeOutcome(base, ours, theirs, p) == Take(FileAt(t, p)); }
      SameTree(t, t');
    }
    forall c, c' | AreConflicts(base, ours, theirs, c) && AreConflicts(base, ours, theirs, c')
      ensures c == c'
    {
      assert forall p :: p in c <==> TreeOutcome(base, ours, theirs, p).Clash?;
      assert forall p :: p in c' <==> TreeOutcome(base, ours, theirs, p).Clash?;
    }
    forall c | AreConflicts(base, ours, theirs, c)
      ensures SomeClash(base, ours, theirs)
    {
      var p :| p in c;
      assert TreeOutcome(base, ours, theirs, p).Clash?;
    }
  }

  lemma {:induction false} ResultUnique(less: (Id, Id) -> bool, store: set<Id>, ours: Id, theirs: Id, r: MergeResult, r': MergeResult)
    requires StrictTotal(less) && IsResult(less, store, ours, theirs, r) && IsResult(less, store, ours, theirs, r')
    ensures r == r'
  {
    hide Ancestor, StrictTotal, AllReadable, IsMerge, AreConflicts, SomeClash, IsBase, Common;
    OneBase(less, store, ours, theirs);
    if r.Merged? || r.Conflicted? {
      ReadableCommits(store, r.base, ours, theirs);
      MergeDetermined(r.base.tree, ours.tree, theirs.tree);
    }
  }

  /** There is at most one base, and it is a common ancestor. */
  lemma {:induction false} OneBase(less: (Id, Id) -> bool, store: set<Id>, a: Id, b: Id)
    requires StrictTotal(less)
    ensures forall x, y | IsBase(less, store, a, b, x) && IsBase(less, store, a, b, y) :: x == y
    ensures forall x | IsBase(less, store, a, b, x) :: Common(store, a, b, x)
  {
    hide Ancestor, Common;
    forall x, y | IsBase(less, store, a, b, x) && IsBase(less, store, a, b, y)
      ensures x == y
    {
      assert less(x, y) && less(y, x) ==> less(x, x);
    }
  }

  /** When each kind of merge arises. */
  lemma {:induction false} ResultKinds(less: (Id, Id) -> bool, store: set<Id>, ours: Id, theirs: Id, r: MergeResult)
    requires StrictTotal(less) && IsResult(less, store, ours, theirs, r)
    ensures r == Failed(CorruptTree) <==> Broken(less, store, ours, theirs)
    ensures r.Conflicted? <==> Clashing(less, store, ours, theirs)
    ensures r.Merged? <==> Mergeable(less, store, ours, theirs)
  {
    hide Ancestor, StrictTotal, Readable, IsMerge, AreConflicts, SomeClash, IsBase, Common;
    OneBase(less, store, ours, theirs);
    if r.Merged? || r.Conflicted? {
      MergeDetermined(r.base.tree, ours.tree, theirs.tree);
    }
  }

  // ---- merging the other way round ----

  function SwapConflicts(conflicts: map<Path, Conflict>): map<Path, Conflict>
  {
    map p | p in conflicts :: SwapConflict(conflicts[p])
  }

  /** What the merge of ours into theirs answers when the merge of theirs into ours answers `r`. */
  function SwapResult(r: MergeResult): MergeResult
  {
    match r
    case Conflicted(base, conflicts) => Conflicted(base, SwapConflicts(conflicts))
    case _ => r
  }

  lemma {:induction false} TreeOutcomeSymmetric(base: Id, ours: Id, theirs: Id, p: Path)
    ensures TreeOutcome(base, theirs, ours, p) == SwapVerdict(TreeOutcome(base, ours, theirs, p))
  {
    hide FileAt, Below;
    NotBoth(ours, p);
    NotBoth(theirs, p);
  }

  lemma {:induction false} NotBoth(t: Id, p: Path)
    ensures !(FileAt(t, p).Some? && Below(t, p))
  {
    hide FileAt;
    if FileAt(t, p).Some? && Below(t, p) {
      var q :| FileAt(t, q).Some? && p <= q && p != q;
      FileIsNoDirectory(t, p, q);
    }
  }

  lemma {:induction false} SwappedMerge(base: Id, ours: Id, theirs: Id)
    ensures forall t | IsMerge(base, ours, theirs, t) :: IsMerge(base, theirs, ours, t)
    ensures forall c | AreConflicts(base, ours, theirs, c) :: AreConflicts(base, theirs, ours, SwapConflicts(c))
  {
    hide TreeOutcome, FileAt, GoodTree, Canonical;
    forall p: Path
      ensures TreeOutcome(base, theirs, ours, p) == SwapVerdict(TreeOutcome(base, ours, theirs, p))
    {
      TreeOutcomeSymmetric(base, ours, theirs, p);
    }
    forall c | AreConflicts(base, ours, theirs, c)
      ensures AreConflicts(base, theirs, ours, SwapConflicts(c))
    {
      var p :| p in c;
      assert p in SwapConflicts(c);
    }
  }

  lemma {:induction false} SwappedHistory(less: (Id, Id) -> bool, store: set<Id>, a: Id, b: Id)
    ensures Diverged(store, a, b) ==> Diverged(store, b, a)
    ensures forall x :: Common(store, a, b, x) <==> Common(store, b, a, x)
    ensures forall x | IsBase(less, store, a, b, x) :: IsBase(less, store, b, a, x)
    ensures forall x | AllReadable(store, x, a, b) :: AllReadable(store, x, b, a)
  {
    hide Ancestor, Readable;
    assert forall x :: Lowest(store, a, b, x) <==> Lowest(store, b, a, x);
  }

  /** Diverged commits merged the other way round: the same kind of outcome over the same base,
      the very same tree, or the same conflicts with their sides swapped. */
  lemma {:induction false} MergeSymmetric(less: (Id, Id) -> bool, store: set<Id>, ours: Id, theirs: Id, r: MergeResult, r': MergeResult)
    requires StrictTotal(less) && IsResult(less, store, ours, theirs, r) && IsResult(less, store, theirs, ours, r')
    requires Diverged(store, ours, theirs)
    ensures r' == SwapResult(r)
  {
    hide Ancestor, StrictTotal, AllReadable, IsMerge, AreConflicts, IsBase, Common;
    SwappedHistory(less, store, ours, theirs);
    SwappedHistory(less, store, theirs, ours);
    if r.Merged? || r.Conflicted? {
      assert AllReadable(store, r.base, ours, theirs);
      ReadableCommits(store, r.base, ours, theirs);
      SwappedMerge(r.base.tree, ours.tree, theirs.tree);
    }
    assert IsResult(less, store, theirs, ours, SwapResult(r));
    ResultUnique(less, store, theirs, ours, r', SwapResult(r));
  }

  lemma {:induction false} ReadableCommits(store: set<Id>, base: Id, ours: Id, theirs: Id)
    requires AllReadable(store, base, ours, theirs)
    ensures base.Commit? && ours.Commit? && theirs.Commit?
  {
    hide Readable;
  }

  /** Commits one of which contains the other: fast-forward one way is up to date the other. */
  lemma {:induction false} ContainedSymmetric(less: (Id, Id) -> bool, store: set<Id>, ours: Id, theirs: Id, r: MergeResult, r': MergeResult)
    requires IsResult(less, store, ours, theirs, r) && IsResult(less, store, theirs, ours, r')
    ensures r.FastForward? ==> r' == AlreadyUpToDate(ours)
    ensures r.AlreadyUpToDate? ==> r' == FastForward(theirs, ours.tree) || (r' == AlreadyUpToDate(ours) && Ancestor(store, theirs, ours))
  {
    hide Ancestor, IsBase, Common, IsMerge, AreConflicts, AllReadable;
  }
}
