/** The difference of two trees. */
module GitDiff {
  import opened Codec
  import opened GitObjects
  import opened GitTrees
  import opened GitBuild

  datatype Change = Added(newId: Id) | Removed(oldId: Id) | Modified(from: Id, to: Id)

  datatype DiffEntry = DiffEntry(path: Path, change: Change)

  /** What happened to one path. */
  function Expected(before: Option<Id>, after: Option<Id>): Option<Change>
  {
    match (before, after)
    case (None, None) => None
    case (None, Some(b)) => Some(Added(b))
    case (Some(a), None) => Some(Removed(a))
    case (Some(a), Some(b)) => if a == b then None else Some(Modified(a, b))
  }

  /** The file at path `q` below an entry that may be absent; `[]` is the entry itself. */
  function FileIn(e: Option<Entry>, q: Path): Option<Id>
  {
    match e
    case None => None
    case Some(x) => if x.isDirectory then FileAt(x.id, q) else if q == [] then Some(x.id) else None
  }

  /** The entry of a directory under a name. */
  function EntryOf(t: Id, n: Name): Option<Entry>
  {
    if !t.Tree? then None
    else
      var i := Find(t.entries, n);
      if i == |t.entries| then None else Some(t.entries[i])
  }

  function Child(e: Option<Entry>, n: Name): Option<Entry>
  {
    if e.Some? && e.value.isDirectory then EntryOf(e.value.id, n) else None
  }

  /** `loadTree` succeeds. */
  predicate Loads(store: set<Id>, t: Id)
  {
    t.Tree? && t in store
  }

  predicate Blocked(store: set<Id>, e: Option<Entry>)
  {
    e.Some? && e.value.isDirectory && !Loads(store, e.value.id)
  }

  /** On the way to `q` stands a directory that cannot be loaded, on either side. */
  predicate Cut(store: set<Id>, o: Option<Entry>, w: Option<Entry>, q: Path)
    decreases q
  {
    q != [] && (Blocked(store, o) || Blocked(store, w) || Cut(store, Child(o, q[0]), Child(w, q[0]), q[1..]))
  }

  ghost function ChangeIn(store: set<Id>, o: Option<Entry>, w: Option<Entry>, q: Path): Option<Change>
  {
    if Cut(store, o, w, q) then None else Expected(FileIn(o, q), FileIn(w, q))
  }

  /** Trees with distinct, good names, wherever there are trees. */
  ghost predicate Orderly(t: Id)
  {
    t.Tree? ==> DistinctNames(t.entries) && forall e | e in t.entries :: GoodName(e.name) && (e.isDirectory ==> Orderly(e.id))
  }

  ghost predicate DistinctPaths(out: seq<DiffEntry>)
  {
    forall i, j | 0 <= i < j < |out| :: out[i].path != out[j].path
  }

  ghost predicate Reports(out: seq<DiffEntry>, p: Path)
  {
    exists i :: 0 <= i < |out| && out[i].path == p
  }

  /** `out` lists, once each and under `prefix`, exactly the changes at the paths in `scope`. */
  ghost predicate Exact(store: set<Id>, out: seq<DiffEntry>, prefix: Path, o: Option<Entry>, w: Option<Entry>, scope: iset<Path>)
  {
    DistinctPaths(out) &&
    (forall i | 0 <= i < |out| :: prefix <= out[i].path && out[i].path[|prefix|..] in scope &&
                                  ChangeIn(store, o, w, out[i].path[|prefix|..]) == Some(out[i].change)) &&
    (forall q: Path | q in scope && ChangeIn(store, o, w, q).Some? :: Reports(out, prefix + q))
  }

  ghost function Everywhere(): iset<Path>
  {
    iset q: Path | |q| >= 0
  }

  ghost function Under(names: set<Name>): iset<Path>
  {
    iset q: Path | q != [] && q[0] in names
  }

  /** Pieces of a report over separate scopes put together. */
  lemma {:induction false} ExactJoin(store: set<Id>, a: seq<DiffEntry>, b: seq<DiffEntry>, prefix: Path, o: Option<Entry>, w: Option<Entry>,
                                     s: iset<Path>, t: iset<Path>)
    requires Exact(store, a, prefix, o, w, s) && Exact(store, b, prefix, o, w, t) && s !! t
    ensures Exact(store, a + b, prefix, o, w, s + t)
  {
    hide ChangeIn;
    var all := a + b;
    forall i, j | 0 <= i < j < |all|
      ensures all[i].path != all[j].path
    {
      if i < |a| <= j {
        assert all[i] == a[i] && all[j] == b[j - |a|];
        assert a[i].path[|prefix|..] in s && b[j - |a|].path[|prefix|..] in t;
      }
    }
    forall q: Path | q in s + t && ChangeIn(store, o, w, q).Some?
      ensures Reports(all, prefix + q)
    {
      if q in s {
        assert Reports(a, prefix + q);
        var i :| 0 <= i < |a| && a[i].path == prefix + q;
        assert all[i].path == prefix + q;
      } else {
        assert Reports(b, prefix + q);
        var i :| 0 <= i < |b| && b[i].path == prefix + q;
        assert all[|a| + i].path == prefix + q;
      }
    }
  }

  /** Going down by one name. */
  ghost predicate Descends(store: set<Id>, n: Name, o: Option<Entry>, w: Option<Entry>, o': Option<Entry>, w': Option<Entry>)
  {
    forall q: Path :: ChangeIn(store, o, w, [n] + q) == ChangeIn(store, o', w', q)
  }

  /** A report on one name of two directories is a report on the directories at that name. */
  lemma {:induction false} ExactBelow(store: set<Id>, out: seq<DiffEntry>, prefix: Path, n: Name, o: Option<Entry>,
                                      w: Option<Entry>, o': Option<Entry>, w': Option<Entry>)
    requires Exact(store, out, prefix + [n], o', w', Everywhere()) && Descends(store, n, o, w, o', w')
    ensures Exact(store, out, prefix, o, w, Under({n}))
  {
    hide ChangeIn, Under;
    forall i | 0 <= i < |out|
      ensures prefix <= out[i].path && out[i].path[|prefix|..] in Under({n})
      ensures ChangeIn(store, o, w, out[i].path[|prefix|..]) == Some(out[i].change)
    {
      var q := out[i].path[|prefix + [n]|..];
      SuffixBelow(prefix, n, out[i].path);
      assert ChangeIn(store, o, w, [n] + q) == ChangeIn(store, o', w', q);
    }
    forall q: Path | q in Under({n}) && ChangeIn(store, o, w, q).Some?
      ensures Reports(out, prefix + q)
    {
      FirstName(n, q);
      assert ChangeIn(store, o, w, [n] + q[1..]) == ChangeIn(store, o', w', q[1..]);
      assert q[1..] in Everywhere();
      assert Reports(out, prefix + [n] + q[1..]);
      assert prefix + [n] + q[1..] == prefix + ([n] + q[1..]);
    }
  }

  lemma {:induction false} SuffixBelow(prefix: Path, n: Name, p: Path)
    requires prefix + [n] <= p
    ensures prefix <= p && p[|prefix|..] == [n] + p[|prefix + [n]|..] && p[|prefix|..] in Under({n})
  {
    PathUnder(prefix, n, p);
  }

  lemma {:induction false} FirstName(n: Name, q: Path)
    requires q in Under({n})
    ensures q != [] && q == [n] + q[1..]
  {
  }

  /** Nothing to report. */
  lemma {:induction false} ExactNothing(store: set<Id>, prefix: Path, o: Option<Entry>, w: Option<Entry>, scope: iset<Path>)
    requires forall q: Path | q in scope :: ChangeIn(store, o, w, q) == None
    ensures Exact(store, [], prefix, o, w, scope)
  {
  }

  lemma {:induction false} ExactOne(store: set<Id>, path: Path, o: Option<Entry>, w: Option<Entry>, c: Change)
    requires ChangeIn(store, o, w, []) == Some(c) && forall q: Path | q != [] :: ChangeIn(store, o, w, q) == None
    ensures Exact(store, [DiffEntry(path, c)], path, o, w, Everywhere())
  {
    var out := [DiffEntry(path, c)];
    assert out[0].path[|path|..] == [];
    assert path + [] == path;
    assert Reports(out, path);
  }

  function AsEntry(t: Id): Option<Entry>
  {
    Some(Entry("", t, true))
  }

  lemma {:induction false} BelowName(store: set<Id>, a: Id, b: Id, n: Name)
    requires Loads(store, a) && Loads(store, b)
    ensures Descends(store, n, AsEntry(a), AsEntry(b), EntryOf(a, n), EntryOf(b, n))
  {
    forall q: Path
      ensures ChangeIn(store, AsEntry(a), AsEntry(b), [n] + q) == ChangeIn(store, EntryOf(a, n), EntryOf(b, n), q)
    {
      assert ([n] + q)[0] == n && ([n] + q)[1..] == q;
      assert FileIn(AsEntry(a), [n] + q) == FileIn(EntryOf(a, n), q);
      assert FileIn(AsEntry(b), [n] + q) == FileIn(EntryOf(b, n), q);
    }
  }

  lemma {:induction false} ExactWiden(store: set<Id>, out: seq<DiffEntry>, prefix: Path, o: Option<Entry>, w: Option<Entry>, scope: iset<Path>)
    requires Exact(store, out, prefix, o, w, scope) && forall q: Path | q !in scope :: ChangeIn(store, o, w, q) == None
    ensures Exact(store, out, prefix, o, w, Everywhere())
  {
    hide ChangeIn;
  }

  lemma {:induction false} UnderMore(names: set<Name>, n: Name)
    ensures Under(names) + Under({n}) == Under(names + {n}) && (n !in names ==> Under(names) !! Under({n}))
  {
  }

  /** One more name of two directories. */
  lemma {:induction false} NameDone(store: set<Id>, out: seq<DiffEntry>, more: seq<DiffEntry>, prefix: Path, names: set<Name>, n: Name,
                                    o: Option<Entry>, w: Option<Entry>, o': Option<Entry>, w': Option<Entry>)
    requires Exact(store, out, prefix, o, w, Under(names)) && n !in names && Exact(store, more, prefix + [n], o', w', Everywhere())
    requires Descends(store, n, o, w, o', w')
    ensures Exact(store, out + more, prefix, o, w, Under(names + {n}))
  {
    hide Exact, Descends, Under, Everywhere;
    ExactBelow(store, more, prefix, n, o, w, o', w');
    UnderMore(names, n);
    ExactJoin(store, out, more, prefix, o, w, Under(names), Under({n}));
  }

  // ---- one side only ----

  function Side(present: bool, e: Entry): Option<Entry>
  {
    if present then Some(e) else None
  }

  /** `emitAllAdded` and `emitAllRemoved`: everything below an entry. */
  method EmitAll(store: set<Id>, e: Entry, path: Path, added: bool) returns (out: seq<DiffEntry>)
    requires e.isDirectory ==> Orderly(e.id)
    ensures Exact(store, out, path, Side(!added, e), Side(added, e), Everywhere())
    decreases e
  {
    hide Exact, Under, Everywhere, Descends;
    if !e.isDirectory {
      var c := if added then Added(e.id) else Removed(e.id);
      ExactOne(store, path, Side(!added, e), Side(added, e), c);
      return [DiffEntry(path, c)];
    }
    if !Loads(store, e.id) {
      ExactNothing(store, path, Side(!added, e), Side(added, e), Everywhere());
      return [];
    }
    out := [];
    var children, i := e.id.entries, 0;
    ghost var names: set<Name> := {};
    StartUnder(store, path, Side(!added, e), Side(added, e));
    while i < |children|
      invariant 0 <= i <= |children|
      invariant names == (set j | 0 <= j < i :: children[j].name)
      invariant Exact(store, out, path, Side(!added, e), Side(added, e), Under(names))
    {
      var child := children[i];
      assert child in children;
      assert forall j | 0 <= j < i :: children[j].name != children[i].name;
      var more := EmitAll(store, child, path + [child.name], added);
      ChildBelow(store, e, i, added);
      NameDone(store, out, more, path, names, child.name, Side(!added, e), Side(added, e), Side(!added, child), Side(added, child));
      out := out + more;
      names := names + {child.name};
      i := i + 1;
    }
    NothingElse(store, e, names, added);
    ExactWiden(store, out, path, Side(!added, e), Side(added, e), Under(names));
  }

  lemma {:induction false} StartUnder(store: set<Id>, path: Path, o: Option<Entry>, w: Option<Entry>)
    ensures Exact(store, [], path, o, w, Under({}))
  {
    hide ChangeIn;
    ExactNothing(store, path, o, w, Under({}));
  }

  lemma {:induction false} ChildBelow(store: set<Id>, e: Entry, i: nat, added: bool)
    requires e.isDirectory && Loads(store, e.id) && Orderly(e.id) && i < |e.id.entries|
    ensures var child := e.id.entries[i];
            Descends(store, child.name, Side(!added, e), Side(added, e), Side(!added, child), Side(added, child))
  {
    var child := e.id.entries[i];
    assert Find(e.id.entries, child.name) == i;
    forall q: Path
      ensures ChangeIn(store, Side(!added, e), Side(added, e), [child.name] + q)
           == ChangeIn(store, Side(!added, child), Side(added, child), q)
    {
      var p := [child.name] + q;
      assert p[0] == child.name && p[1..] == q;
      assert FileIn(Some(e), p) == FileIn(Some(child), q);
    }
  }

  lemma {:induction false} NothingElse(store: set<Id>, e: Entry, names: set<Name>, added: bool)
    requires e.isDirectory && e.id.Tree? && names == (set j | 0 <= j < |e.id.entries| :: e.id.entries[j].name)
    ensures forall q: Path | q !in Under(names) :: ChangeIn(store, Side(!added, e), Side(added, e), q) == None
  {
    forall q: Path | q !in Under(names)
      ensures FileAt(e.id, q) == None
    {
    }
  }

  // ---- both sides ----

  function NamesOf(t: Id): set<Name>
  {
    if t.Tree? then set e | e in t.entries :: e.name else {}
  }

  /** What one name contributes. */
  method DiffName(store: set<Id>, o: Option<Entry>, w: Option<Entry>, path: Path, ghost bound: Id) returns (out: seq<DiffEntry>)
    requires o.Some? || w.Some?
    requires o.Some? && o.value.isDirectory ==> Orderly(o.value.id)
    requires w.Some? && w.value.isDirectory ==> Orderly(w.value.id)
    requires o.Some? ==> o.value.id < bound
    ensures Exact(store, out, path, o, w, Everywhere())
    decreases bound, 0
  {
    hide Exact, Everywhere, Orderly;
    if w.None? {
      out := EmitAll(store, o.value, path, false);
    } else if o.None? {
      out := EmitAll(store, w.value, path, true);
    } else if o.value.isDirectory != w.value.isDirectory {
      var removed := EmitAll(store, o.value, path, false);
      var added := EmitAll(store, w.value, path, true);
      out := removed + added;
      BothKinds(store, removed, added, path, o.value, w.value);
    } else if o.value.isDirectory {
      if o.value.id == w.value.id {
        out := [];
        ExactNothing(store, path, o, w, Everywhere());
      } else {
        out := DiffRecursive(store, o.value.id, w.value.id, path);
        SameEntry(store, out, path, o.value, w.value);
      }
    } else if o.value.id == w.value.id {
      out := [];
      ExactNothing(store, path, o, w, Everywhere());
    } else {
      out := [DiffEntry(path, Modified(o.value.id, w.value.id))];
      ExactOne(store, path, o, w, Modified(o.value.id, w.value.id));
    }
  }

  lemma {:induction false} SameEntry(store: set<Id>, out: seq<DiffEntry>, path: Path, o: Entry, w: Entry)
    requires o.isDirectory && w.isDirectory && Exact(store, out, path, AsEntry(o.id), AsEntry(w.id), Everywhere())
    ensures Exact(store, out, path, Some(o), Some(w), Everywhere())
  {
    assert forall q: Path :: ChangeIn(store, AsEntry(o.id), AsEntry(w.id), q) == ChangeIn(store, Some(o), Some(w), q);
    hide ChangeIn;
  }

  /** A file where there was a directory, or the other way round: the file is at the path
      itself and the rest below it. */
  lemma {:induction false} BothKinds(store: set<Id>, removed: seq<DiffEntry>, added: seq<DiffEntry>, path: Path, o: Entry, w: Entry)
    requires o.isDirectory != w.isDirectory
    requires Exact(store, removed, path, Some(o), None, Everywhere()) && Exact(store, added, path, None, Some(w), Everywhere())
    ensures Exact(store, removed + added, path, Some(o), Some(w), Everywhere())
  {
    var self := iset q: Path | |q| == 0;
    var below := iset q: Path | |q| > 0;
    var s, t := if o.isDirectory then below else self, if w.isDirectory then below else self;
    OneSided(store, removed, path, Some(o), None, Some(o), Some(w), s);
    OneSided(store, added, path, None, Some(w), Some(o), Some(w), t);
    hide ChangeIn;
    ExactJoin(store, removed, added, path, Some(o), Some(w), s, t);
    assert s + t == Everywhere();
  }

  lemma {:induction false} OneSided(store: set<Id>, out: seq<DiffEntry>, path: Path, o: Option<Entry>, w: Option<Entry>,
                                    o': Option<Entry>, w': Option<Entry>, scope: iset<Path>)
    requires Exact(store, out, path, o, w, Everywhere())
    requires forall q: Path :: if q in scope then ChangeIn(store, o', w', q) == ChangeIn(store, o, w, q) else ChangeIn(store, o, w, q) == None
    ensures Exact(store, out, path, o', w', scope)
  {
    hide ChangeIn;
  }

  /** `diffRecursive`: every name of either tree once, in any order. */
  method DiffRecursive(store: set<Id>, old_: Id, new_: Id, prefix: Path) returns (out: seq<DiffEntry>)
    requires Orderly(old_) && Orderly(new_)
    ensures Exact(store, out, prefix, AsEntry(old_), AsEntry(new_), Everywhere())
    decreases old_, 1
  {
    hide Exact, Under, Everywhere, FileIn, EntryOf, NamesOf, Orderly, Descends;
    out := [];
    if !Loads(store, old_) || !Loads(store, new_) {
      CutOff(store, old_, new_);
      ExactNothing(store, prefix, AsEntry(old_), AsEntry(new_), Everywhere());
      return;
    }
    var all := NamesOf(old_) + NamesOf(new_);
    var todo := all;
    ghost var done: set<Name> := {};
    StartUnder(store, prefix, AsEntry(old_), AsEntry(new_));
    while todo != {}
      invariant done == all - todo && todo <= all
      invariant Exact(store, out, prefix, AsEntry(old_), AsEntry(new_), Under(done))
      decreases |todo|
    {
      var n :| n in todo;
      var o, w := EntryOf(old_, n), EntryOf(new_, n);
      Entries(old_, n);
      Entries(new_, n);
      var more := DiffName(store, o, w, prefix + [n], old_);
      BelowName(store, old_, new_, n);
      NameDone(store, out, more, prefix, done, n, AsEntry(old_), AsEntry(new_), o, w);
      out := out + more;
      done := done + {n};
      todo := todo - {n};
    }
    assert done == all;
    Unchanged(store, old_, new_, all);
    ExactWiden(store, out, prefix, AsEntry(old_), AsEntry(new_), Under(done));
  }

  /** Two directories of which one cannot be loaded: nothing is reported below them. */
  lemma {:induction false} CutOff(store: set<Id>, a: Id, b: Id)
    requires !Loads(store, a) || !Loads(store, b)
    ensures forall q: Path :: ChangeIn(store, AsEntry(a), AsEntry(b), q) == None
  {
  }

  lemma {:induction false} Entries(t: Id, n: Name)
    requires t.Tree? && Orderly(t)
    ensures n in NamesOf(t) <==> EntryOf(t, n).Some?
    ensures EntryOf(t, n).Some? ==> EntryOf(t, n).value in t.entries && EntryOf(t, n).value.id < t
    ensures EntryOf(t, n).Some? && EntryOf(t, n).value.isDirectory ==> Orderly(EntryOf(t, n).value.id)
  {
    if EntryOf(t, n).Some? {
      assert t.entries[Find(t.entries, n)] in t.entries;
    }
  }

  lemma {:induction false} Elsewhere(t: Id, names: set<Name>)
    requires t.Tree? && NamesOf(t) <= names
    ensures forall q: Path | q !in Under(names) :: FileIn(AsEntry(t), q) == None
  {
    assert forall j | 0 <= j < |t.entries| :: t.entries[j] in t.entries && t.entries[j].name in names;
    forall q: Path | q !in Under(names)
      ensures FileAt(t, q) == None
    {
    }
  }

  lemma {:induction false} Unchanged(store: set<Id>, a: Id, b: Id, names: set<Name>)
    requires a.Tree? && b.Tree? && NamesOf(a) <= names && NamesOf(b) <= names
    ensures forall q: Path | q !in Under(names) :: ChangeIn(store, AsEntry(a), AsEntry(b), q) == None
  {
    hide FileIn, Under, NamesOf;
    Elsewhere(a, names);
    Elsewhere(b, names);
  }

  // ---- the whole diff ----

  ghost predicate SortedPaths(out: seq<DiffEntry>)
  {
    forall i, j | 0 <= i < j < |out| :: Less(Join(out[i].path), Join(out[j].path))
  }

  lemma {:induction false} JoinInjective(p: Path, q: Path)
    requires GoodPath(p) && GoodPath(q) && Join(p) == Join(q)
    ensures p == q
  {
    SplitJoin(p);
    SplitJoin(q);
  }

  ghost predicate AllGoodPaths(out: seq<DiffEntry>)
  {
    forall i | 0 <= i < |out| :: GoodPath(out[i].path)
  }

  method InsertChange(out: seq<DiffEntry>, e: DiffEntry) returns (r: seq<DiffEntry>)
    requires SortedPaths(out) && forall i | 0 <= i < |out| :: Join(out[i].path) != Join(e.path)
    ensures SortedPaths(r) && forall x :: x in r <==> x in out || x == e
  {
    hide Join;
    var k := 0;
    while k < |out| && Less(Join(out[k].path), Join(e.path))
      invariant 0 <= k <= |out|
      invariant forall i | 0 <= i < k :: Less(Join(out[i].path), Join(e.path))
    {
      k := k + 1;
    }
    forall i | k <= i < |out|
      ensures Less(Join(e.path), Join(out[i].path))
    {
      Trichotomy(Join(out[k].path), Join(e.path));
      if k < i {
        LessTrans(Join(e.path), Join(out[k].path), Join(out[i].path));
      }
    }
    r := out[..k] + [e] + out[k..];
    assert out == out[..k] + out[k..];
  }

  method SortChanges(out: seq<DiffEntry>) returns (r: seq<DiffEntry>)
    requires DistinctPaths(out) && AllGoodPaths(out)
    ensures SortedPaths(r) && forall x :: x in r <==> x in out
  {
    hide Join, Less;
    r := [];
    var i := 0;
    while i < |out|
      invariant 0 <= i <= |out| && SortedPaths(r)
      invariant forall x :: x in r <==> x in out[..i]
    {
      forall j | 0 <= j < |r|
        ensures Join(r[j].path) != Join(out[i].path)
      {
        assert r[j] in out[..i];
        var k :| 0 <= k < i && out[k] == r[j];
        if Join(r[j].path) == Join(out[i].path) {
          JoinInjective(r[j].path, out[i].path);
        }
      }
      assert out[..i + 1] == out[..i] + [out[i]];
      r := InsertChange(r, out[i]);
      i := i + 1;
    }
    assert out[..i] == out;
  }

  /** The list is the difference: each changed path that can be got at, with what happened
      to it. */
  ghost predicate IsDiff(store: set<Id>, out: seq<DiffEntry>, a: Id, b: Id)
  {
    forall p: Path, c: Change ::
      DiffEntry(p, c) in out <==> !Missed(store, a, b, p) && Expected(FileAt(a, p), FileAt(b, p)) == Some(c)
  }

  /** The path lies below a directory that the store has lost. */
  predicate Missed(store: set<Id>, a: Id, b: Id, p: Path)
  {
    Cut(store, AsEntry(a), AsEntry(b), p)
  }

  lemma {:induction false} ExactIsDiff(store: set<Id>, out: seq<DiffEntry>, a: Id, b: Id)
    requires Exact(store, out, [], AsEntry(a), AsEntry(b), Everywhere())
    ensures IsDiff(store, out, a, b)
  {
    hide FileAt, Cut;
    forall p: Path, c: Change
      ensures DiffEntry(p, c) in out <==> !Missed(store, a, b, p) && Expected(FileAt(a, p), FileAt(b, p)) == Some(c)
    {
      assert p[0..] == p && [] + p == p && p in Everywhere();
      var seen := ChangeIn(store, AsEntry(a), AsEntry(b), p);
      if seen.Some? {
        assert Reports(out, [] + p);
        var i :| 0 <= i < |out| && out[i].path == p;
        assert out[i] == DiffEntry(p, seen.value);
      }
    }
  }

  lemma {:induction false} OrderlyPath(t: Id, p: Path)
    requires Orderly(t) && FileAt(t, p).Some?
    ensures GoodPath(p)
    decreases p
  {
    var i := Find(t.entries, p[0]);
    var e := t.entries[i];
    assert e in t.entries;
    if e.isDirectory {
      OrderlyPath(e.id, p[1..]);
      assert p == [p[0]] + p[1..];
    }
  }

  lemma {:induction false} ChangedGoodPaths(store: set<Id>, out: seq<DiffEntry>, a: Id, b: Id)
    requires Orderly(a) && Orderly(b) && IsDiff(store, out, a, b)
    ensures AllGoodPaths(out)
  {
    hide FileAt, Orderly, Missed;
    forall i | 0 <= i < |out|
      ensures GoodPath(out[i].path)
    {
      var p := out[i].path;
      assert DiffEntry(p, out[i].change) in out;
      if FileAt(a, p).Some? {
        OrderlyPath(a, p);
      } else {
        OrderlyPath(b, p);
      }
    }
  }

  /** `diffTrees`: the sorted list of exactly the changed paths that can be got at, each
      once.  Equal trees are not even read. */
  method DiffTrees(store: set<Id>, a: Id, b: Id) returns (out: seq<DiffEntry>)
    requires a != b ==> Orderly(a) && Orderly(b)
    ensures IsDiff(store, out, a, b) && SortedPaths(out)
  {
    hide FileAt, Exact, Orderly, IsDiff, Less, Join, DistinctPaths;
    if a == b {
      SameTreesNoDiff(store, a);
      return [];
    }
    var found := DiffRecursive(store, a, b, []);
    ExactIsDiff(store, found, a, b);
    ExactDistinct(store, found, a, b);
    ChangedGoodPaths(store, found, a, b);
    out := SortChanges(found);
    SameEntries(store, found, out, a, b);
  }

  lemma {:induction false} SameTreesNoDiff(store: set<Id>, a: Id)
    ensures IsDiff(store, [], a, a)
  {
    hide FileAt, Missed;
  }

  lemma {:induction false} ExactDistinct(store: set<Id>, out: seq<DiffEntry>, a: Id, b: Id)
    requires Exact(store, out, [], AsEntry(a), AsEntry(b), Everywhere())
    ensures DistinctPaths(out)
  {
  }

  lemma {:induction false} SameEntries(store: set<Id>, found: seq<DiffEntry>, out: seq<DiffEntry>, a: Id, b: Id)
    requires IsDiff(store, found, a, b) && forall x :: x in out <==> x in found
    ensures IsDiff(store, out, a, b)
  {
    hide FileAt, Missed;
  }

  /** Nothing is missed between trees that can be read to the bottom. */
  lemma {:induction false} ReadableNotCut(store: set<Id>, o: Option<Entry>, w: Option<Entry>, q: Path)
    requires o.Some? && o.value.isDirectory ==> Readable(store, o.value.id)
    requires w.Some? && w.value.isDirectory ==> Readable(store, w.value.id)
    ensures !Cut(store, o, w, q)
    decreases q
  {
    if q != [] {
      ReadableChild(store, o, q[0]);
      ReadableChild(store, w, q[0]);
      ReadableNotCut(store, Child(o, q[0]), Child(w, q[0]), q[1..]);
    }
  }

  lemma {:induction false} ReadableChild(store: set<Id>, e: Option<Entry>, n: Name)
    requires e.Some? && e.value.isDirectory ==> Readable(store, e.value.id)
    ensures Child(e, n).Some? && Child(e, n).value.isDirectory ==> Readable(store, Child(e, n).value.id)
  {
    if Child(e, n).Some? {
      var es := e.value.id.entries;
      assert es[Find(es, n)] in es;
    }
  }

  // ---- applying a diff ----

  function Patch(files: Files, out: seq<DiffEntry>): Files
  {
    if out == [] then files
    else
      var e := out[|out| - 1];
      var before := Patch(files, out[..|out| - 1]);
      match e.change
      case Added(n) => before[e.path := n]
      case Modified(_, n) => before[e.path := n]
      case Removed(_) => before - {e.path}
  }

  function NewId(c: Change): Option<Id>
  {
    match c
    case Added(n) => Some(n)
    case Modified(_, n) => Some(n)
    case Removed(_) => None
  }

  lemma {:induction false} PatchAt(files: Files, out: seq<DiffEntry>, p: Path)
    requires SortedPaths(out)
    ensures !Reports(out, p) ==> At(Patch(files, out), p) == At(files, p)
    ensures forall c | DiffEntry(p, c) in out :: At(Patch(files, out), p) == NewId(c)
  {
    hide Less, Join, Patch, Reports;
    if out == [] {
      PatchNothing(files);
    } else {
      var n := |out| - 1;
      var init := out[..n];
      PatchAt(files, init, p);
      PatchLast(files, out, p);
      LastIsNew(out, p);
      assert out == init + [out[n]];
    }
  }

  lemma {:induction false} PatchNothing(files: Files)
    ensures Patch(files, []) == files
  {
  }

  lemma {:induction false} PatchLast(files: Files, out: seq<DiffEntry>, p: Path)
    requires out != []
    ensures var e := out[|out| - 1];
            At(Patch(files, out), p) == if e.path == p then NewId(e.change) else At(Patch(files, out[..|out| - 1]), p)
  {
  }

  lemma {:induction false} LastIsNew(out: seq<DiffEntry>, p: Path)
    requires out != [] && SortedPaths(out)
    ensures var init, e := out[..|out| - 1], out[|out| - 1];
            (Reports(out, p) <==> Reports(init, p) || e.path == p) && (Reports(init, p) ==> e.path != p) &&
            forall c | DiffEntry(p, c) in init :: Reports(init, p)
  {
    hide Less, Join;
    var n := |out| - 1;
    var init := out[..n];
    if Reports(init, p) {
      var i :| 0 <= i < n && init[i].path == p;
      assert out[i].path == p;
      Trichotomy(Join(out[i].path), Join(out[n].path));
    }
  }

  /** Every changed path is reported. */
  ghost predicate NothingMissed(store: set<Id>, a: Id, b: Id)
  {
    forall p: Path | Missed(store, a, b, p) :: FileAt(a, p) == FileAt(b, p)
  }

  lemma {:induction false} PatchedPath(store: set<Id>, a: Id, b: Id, files: Files, out: seq<DiffEntry>, p: Path)
    requires Flat(a, files) && IsDiff(store, out, a, b) && SortedPaths(out)
    ensures At(Patch(files, out), p) == if Missed(store, a, b, p) then FileAt(a, p) else FileAt(b, p)
  {
    hide FileAt, Patch, SortedPaths, Missed;
    PatchAt(files, out, p);
    assert FileAt(a, p) == At(files, p);
    var c := Expected(FileAt(a, p), FileAt(b, p));
    if c.Some? && !Missed(store, a, b, p) {
      assert DiffEntry(p, c.value) in out;
    } else {
      NotReported(store, out, a, b, p);
    }
  }

  /** Applying the diff to the old files gives the new files if and only if no changed path
      was missed. */
  lemma {:induction false} PatchGivesNew(store: set<Id>, a: Id, b: Id, files: Files, out: seq<DiffEntry>)
    requires Flat(a, files) && IsDiff(store, out, a, b) && SortedPaths(out)
    ensures Flat(b, Patch(files, out)) <==> NothingMissed(store, a, b)
    ensures Readable(store, a) && Readable(store, b) ==> Flat(b, Patch(files, out))
  {
    hide FileAt, Patch, SortedPaths, Missed, IsDiff, Readable;
    forall p: Path
      ensures At(Patch(files, out), p) == if Missed(store, a, b, p) then FileAt(a, p) else FileAt(b, p)
    {
      PatchedPath(store, a, b, files, out, p);
    }
    if Readable(store, a) && Readable(store, b) {
      forall p: Path
        ensures !Missed(store, a, b, p)
      {
        NotMissed(store, a, b, p);
      }
    }
  }

  lemma {:induction false} NotMissed(store: set<Id>, a: Id, b: Id, p: Path)
    requires Readable(store, a) && Readable(store, b)
    ensures !Missed(store, a, b, p)
  {
    ReadableNotCut(store, AsEntry(a), AsEntry(b), p);
  }

  lemma {:induction false} NotReported(store: set<Id>, out: seq<DiffEntry>, a: Id, b: Id, p: Path)
    requires IsDiff(store, out, a, b) && (Missed(store, a, b, p) || Expected(FileAt(a, p), FileAt(b, p)) == None)
    ensures !Reports(out, p)
  {
    hide FileAt, Missed;
    forall i | 0 <= i < |out|
      ensures out[i].path != p
    {
      assert DiffEntry(out[i].path, out[i].change) in out;
    }
  }

  /** A new file that is not reported: the old directory beside it is lost from the store. */
  lemma LostDirectoryHidesChange(file: Id)
    ensures var old', new' := Tree([]), Tree([Entry("f", file, false)]);
            var a, b := Tree([Entry("d", old', true)]), Tree([Entry("d", new', true)]);
            var store := {a, b, new'};
            Orderly(a) && Orderly(b) && Readable(store, b) && !Readable(store, a) &&
            Expected(FileAt(a, ["d", "f"]), FileAt(b, ["d", "f"])) == Some(Added(file)) &&
            Missed(store, a, b, ["d", "f"]) && !NothingMissed(store, a, b)
  {
    var old', new' := Tree([]), Tree([Entry("f", file, false)]);
    var a, b := Tree([Entry("d", old', true)]), Tree([Entry("d", new', true)]);
    var store, p := {a, b, new'}, ["d", "f"];
    assert p[1..] == ["f"];
    assert a.entries[0] in a.entries && !Readable(store, old');
    assert Find(a.entries, "d") == 0 && Find(b.entries, "d") == 0 && Find(new'.entries, "f") == 0;
    assert FileAt(b, p) == FileAt(new', ["f"]) == Some(file);
    assert FileAt(a, p) == FileAt(old', ["f"]) == None;
    assert Blocked(store, Child(AsEntry(a), "d"));
    assert Cut(store, Child(AsEntry(a), "d"), Child(AsEntry(b), "d"), p[1..]);
  }
}
