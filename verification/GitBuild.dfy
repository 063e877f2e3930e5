/** Building a tree from a flat file map: paths go into a trie, and the trie is written out as
    tree objects, children first. */
module GitBuild {
  import opened Codec
  import opened GitObjects
  import opened GitTrees

  datatype Trie = Trie(files: map<Name, Id>, dirs: map<Name, Trie>)

  function Child(t: Trie, n: Name): Trie
  {
    if n in t.dirs then t.dirs[n] else Trie(map[], map[])
  }

  /** `insertPath`: a directory of the same name wins over a file. */
  function Insert(t: Trie, p: Path, blob: Id): Trie
    requires p != []
    decreases p
  {
    if |p| == 1 then
      if p[0] in t.dirs then t else Trie(t.files[p[0] := blob], t.dirs)
    else
      Trie(t.files - {p[0]}, t.dirs[p[0] := Insert(Child(t, p[0]), p[1..], blob)])
  }

  function TrieAt(t: Trie, p: Path): Option<Id>
    decreases p
  {
    if p == [] then None
    else if |p| == 1 then (if p[0] in t.files then Some(t.files[p[0]]) else None)
    else if p[0] in t.dirs then TrieAt(t.dirs[p[0]], p[1..])
    else None
  }

  ghost predicate IsDir(t: Trie, p: Path)
    decreases p
  {
    p == [] || (p[0] in t.dirs && IsDir(t.dirs[p[0]], p[1..]))
  }

  lemma {:induction false} Nothing(p: Path)
    ensures TrieAt(Trie(map[], map[]), p) == None && (IsDir(Trie(map[], map[]), p) <==> p == [])
  {
  }

  /** What an insertion changes: the path itself, unless it is a directory, and the files it
      turns into directories. */
  lemma {:induction false} InsertAt(t: Trie, p: Path, blob: Id, q: Path)
    requires p != []
    ensures TrieAt(Insert(t, p, blob), q) ==
              if q == p then (if IsDir(t, p) then TrieAt(t, p) else Some(blob))
              else if q <= p then None
              else TrieAt(t, q)
    ensures IsDir(Insert(t, p, blob), q) <==> IsDir(t, q) || (q <= p && q != p)
    decreases p
  {
    if q != [] {
      if |p| == 1 {
        assert p[1..] == [] && p == [p[0]];
      } else if q[0] == p[0] {
        InsertAt(Child(t, p[0]), p[1..], blob, q[1..]);
        Nothing(q[1..]);
        Nothing(p[1..]);
        HeadPrefix(q, p);
      }
    }
  }

  lemma {:induction false} HeadPrefix(q: Path, p: Path)
    requires q != [] && p != [] && q[0] == p[0]
    ensures (q <= p <==> q[1..] <= p[1..]) && (q == p <==> q[1..] == p[1..])
  {
    assert q == [q[0]] + q[1..] && p == [p[0]] + p[1..];
    if q[1..] <= p[1..] {
      assert p[..|q|] == [p[0]] + p[1..][..|q| - 1];
    }
  }

  /** Some file of `files` lies properly under `q`. */
  ghost predicate HasUnder(files: Files, q: Path)
  {
    exists p :: p in files && q <= p && q != p
  }

  /** The trie holds exactly the files of `files` under which no other lies. */
  ghost predicate Holds(t: Trie, files: Files)
  {
    forall q: Path ::
      TrieAt(t, q) == (if q in files && !HasUnder(files, q) then Some(files[q]) else None) &&
      (IsDir(t, q) <==> q == [] || HasUnder(files, q))
  }

  lemma {:induction false} InsertHolds(t: Trie, files: Files, p: Path, blob: Id)
    requires Holds(t, files) && p != [] && p !in files
    ensures Holds(Insert(t, p, blob), files[p := blob])
  {
    var more := files[p := blob];
    forall q: Path
      ensures TrieAt(Insert(t, p, blob), q) == (if q in more && !HasUnder(more, q) then Some(more[q]) else None)
      ensures IsDir(Insert(t, p, blob), q) <==> q == [] || HasUnder(more, q)
    {
      InsertAt(t, p, blob, q);
      UnderMore(files, p, blob, q);
      hide HasUnder, Insert, TrieAt, IsDir;
      assert HasUnder(more, q) <==> HasUnder(files, q) || (q <= p && q != p);
    }
  }

  lemma {:induction false} UnderMore(files: Files, p: Path, blob: Id, q: Path)
    ensures HasUnder(files[p := blob], q) <==> HasUnder(files, q) || (q <= p && q != p)
  {
    var more := files[p := blob];
    if HasUnder(files, q) {
      var r :| r in files && q <= r && q != r;
      assert r in more;
    }
    if q <= p && q != p {
      assert p in more;
    }
  }

  // ---- writing the trie ----

  ghost predicate GoodTrie(t: Trie)
    decreases t
  {
    (forall n | n in t.files :: GoodName(n) && n !in t.dirs) &&
    (forall n | n in t.dirs :: GoodName(n) && GoodTrie(t.dirs[n]))
  }

  lemma {:induction false} InsertGood(t: Trie, p: Path, blob: Id)
    requires GoodTrie(t) && GoodPath(p)
    ensures GoodTrie(Insert(t, p, blob))
    decreases p
  {
    assert GoodName(p[0]);
    if |p| > 1 {
      assert GoodPath(p[1..]) by { forall i | 0 <= i < |p[1..]| ensures GoodName(p[1..][i]) { assert p[1..][i] == p[i + 1]; } }
      InsertGood(Child(t, p[0]), p[1..], blob);
    }
  }

  ghost predicate SameFiles(id: Id, t: Trie)
  {
    GoodTree(id) && forall q: Path :: FileAt(id, q) == TrieAt(t, q)
  }

  ghost predicate EntryOk(e: Entry, t: Trie)
  {
    GoodName(e.name) &&
    if e.isDirectory then e.name in t.dirs && SameFiles(e.id, t.dirs[e.name])
    else e.name in t.files && e.id == t.files[e.name]
  }

  ghost predicate Empty(t: Trie)
  {
    t.files == map[] && t.dirs == map[]
  }

  /** No directory of the trie is empty. */
  ghost predicate Full(t: Trie)
    decreases t
  {
    forall n | n in t.dirs :: !Empty(t.dirs[n]) && Full(t.dirs[n])
  }

  lemma {:induction false} InsertFull(t: Trie, p: Path, blob: Id)
    requires Full(t) && p != []
    ensures Full(Insert(t, p, blob)) && !Empty(Insert(t, p, blob))
    decreases p
  {
    if |p| > 1 {
      InsertFull(Child(t, p[0]), p[1..], blob);
    } else if p[0] !in t.dirs {
      assert p[0] in Insert(t, p, blob).files;
    }
  }

  /** The one form in which a set of files is written: names in order, no empty directories. */
  ghost predicate Canonical(id: Id)
    decreases id
  {
    id.Tree? && SortedNames(id.entries) &&
    forall e | e in id.entries && e.isDirectory :: e.id.Tree? && e.id.entries != [] && Canonical(e.id)
  }

  /** Entries standing for children of the trie, in some order. */
  ghost predicate Lists(es: seq<Entry>, t: Trie)
  {
    DistinctNames(es) && forall i | 0 <= i < |es| :: EntryOk(es[i], t)
  }

  ghost predicate Names(es: seq<Entry>, n: Name)
  {
    exists i :: 0 <= i < |es| && es[i].name == n
  }

  lemma {:induction false} ListedTree(es: seq<Entry>, t: Trie)
    requires GoodTrie(t) && Lists(es, t) && forall n | n in t.files || n in t.dirs :: Names(es, n)
    ensures SameFiles(Tree(es), t)
  {
    forall e | e in es
      ensures GoodName(e.name) && (e.isDirectory ==> GoodTree(e.id))
    {
      var i :| 0 <= i < |es| && es[i] == e;
      assert EntryOk(es[i], t);
    }
    forall q: Path
      ensures FileAt(Tree(es), q) == TrieAt(t, q)
    {
      if q != [] {
        var i := Find(es, q[0]);
        if i < |es| {
          assert EntryOk(es[i], t);
          assert |q| == 1 ==> q[1..] == [];
        } else {
          assert !Names(es, q[0]);
        }
      }
    }
  }

  function Less(a: string, b: string): bool
  {
    if b == "" then false else if a == "" then true
    else if a[0] != b[0] then a[0] < b[0]
    else Less(a[1..], b[1..])
  }

  /** `a` comes first: at the first place where they differ it has the smaller character, or it
      ends there. */
  ghost predicate ComesFirst(a: string, b: string, k: nat)
  {
    k <= |a| && k < |b| && a[..k] == b[..k] && (k == |a| || a[k] < b[k])
  }

  lemma {:induction false} LessMeans(a: string, b: string)
    ensures Less(a, b) <==> exists k: nat :: ComesFirst(a, b, k)
  {
    if a != "" && b != "" && a[0] == b[0] {
      LessMeans(a[1..], b[1..]);
      if k: nat :| ComesFirst(a, b, k) {
        assert k > 0;
        assert a[1..][..k - 1] == a[..k][1..] && b[1..][..k - 1] == b[..k][1..];
        assert ComesFirst(a[1..], b[1..], k - 1);
      }
      if k: nat :| ComesFirst(a[1..], b[1..], k) {
        assert a[..k + 1] == [a[0]] + a[1..][..k] && b[..k + 1] == [b[0]] + b[1..][..k];
        assert ComesFirst(a, b, k + 1);
      }
    } else {
      LessApart(a, b);
    }
  }

  lemma LessApart(a: string, b: string)
    requires a == "" || b == "" || a[0] != b[0]
    ensures Less(a, b) <==> ComesFirst(a, b, 0)
    ensures forall k: nat | ComesFirst(a, b, k) :: k == 0
  {
    forall k: nat | ComesFirst(a, b, k)
      ensures k == 0
    {
    }
  }

  ghost predicate SortedNames(es: seq<Entry>)
  {
    forall i, j | 0 <= i < j < |es| :: Less(es[i].name, es[j].name)
  }

  lemma {:induction false} Trichotomy(a: string, b: string)
    ensures a == b || Less(a, b) || Less(b, a)
    ensures Less(a, b) ==> !Less(b, a) && a != b
  {
    if a != "" && b != "" && a[0] == b[0] {
      Trichotomy(a[1..], b[1..]);
      assert a == [a[0]] + a[1..] && b == [b[0]] + b[1..];
    }
  }

  lemma {:induction false} LessTrans(a: string, b: string, c: string)
    requires Less(a, b) && Less(b, c)
    ensures Less(a, c)
  {
    if a != "" && a[0] == b[0] == c[0] {
      LessTrans(a[1..], b[1..], c[1..]);
    }
  }

  /** Puts an entry with a new name in its place. */
  method InsertSorted(es: seq<Entry>, e: Entry) returns (r: seq<Entry>)
    requires SortedNames(es) && !Names(es, e.name)
    ensures SortedNames(r) && |r| == |es| + 1
    ensures forall x :: x in r <==> x in es || x == e
  {
    var k := 0;
    while k < |es| && Less(es[k].name, e.name)
      invariant 0 <= k <= |es|
      invariant forall i | 0 <= i < k :: Less(es[i].name, e.name)
    {
      k := k + 1;
    }
    forall i | k <= i < |es|
      ensures Less(e.name, es[i].name)
    {
      Trichotomy(es[k].name, e.name);
      assert es[k].name != e.name;
      if k < i {
        LessTrans(e.name, es[k].name, es[i].name);
      }
    }
    r := es[..k] + [e] + es[k..];
    assert es == es[..k] + es[k..];
  }

  /** The order in which a tree is serialized. */
  method SortEntries(es: seq<Entry>) returns (r: seq<Entry>)
    requires DistinctNames(es)
    ensures SortedNames(r) && |r| == |es|
    ensures forall x :: x in r <==> x in es
  {
    r := [];
    var i := 0;
    hide Less;
    while i < |es|
      invariant 0 <= i <= |es| && |r| == i
      invariant SortedNames(r)
      invariant forall x :: x in r <==> x in es[..i]
    {
      assert !Names(r, es[i].name) by {
        forall j | 0 <= j < |r| ensures r[j].name != es[i].name {
          assert r[j] in es[..i];
          var k :| 0 <= k < i && es[k] == r[j];
        }
      }
      assert es[..i + 1] == es[..i] + [es[i]];
      r := InsertSorted(r, es[i]);
      i := i + 1;
    }
    assert es[..i] == es;
  }

  lemma {:induction false} SortedLists(es: seq<Entry>, r: seq<Entry>, t: Trie)
    requires Lists(es, t) && SortedNames(r) && (forall x :: x in r <==> x in es)
    ensures Lists(r, t) && forall n | Names(es, n) :: Names(r, n)
  {
    hide EntryOk, Less;
    forall i, j | 0 <= i < j < |r|
      ensures r[i].name != r[j].name
    {
      Trichotomy(r[i].name, r[j].name);
    }
    forall i | 0 <= i < |r|
      ensures EntryOk(r[i], t)
    {
      assert r[i] in es;
    }
    forall n | Names(es, n)
      ensures Names(r, n)
    {
      var i :| 0 <= i < |es| && es[i].name == n;
      assert es[i] in r;
      var j :| 0 <= j < |r| && r[j] == es[i];
      assert r[j].name == n;
    }
  }

  lemma {:induction false} OneMore(es: seq<Entry>, t: Trie, e: Entry)
    requires Lists(es, t) && EntryOk(e, t) && !Names(es, e.name)
    ensures Lists(es + [e], t) && forall n :: Names(es + [e], n) <==> Names(es, n) || n == e.name
  {
    hide EntryOk;
    var all := es + [e];
    forall n
      ensures Names(all, n) <==> Names(es, n) || n == e.name
    {
      if Names(es, n) {
        var i :| 0 <= i < |es| && es[i].name == n;
        assert all[i].name == n;
      }
      assert all[|es|].name == e.name;
    }
  }

  /** The file entries of a node. */
  method FileEntries(t: Trie) returns (es: seq<Entry>)
    requires GoodTrie(t)
    ensures Lists(es, t) && forall n :: Names(es, n) <==> n in t.files
  {
    es := [];
    var todo := t.files.Keys;
    hide Lists, Names;
    assert Lists([], t) && forall n :: !Names([], n) by { NoEntries(t); }
    while todo != {}
      invariant todo <= t.files.Keys && Lists(es, t)
      invariant forall n :: Names(es, n) <==> n in t.files && n !in todo
      decreases |todo|
    {
      var n :| n in todo;
      OneMore(es, t, Entry(n, t.files[n], false));
      es := es + [Entry(n, t.files[n], false)];
      todo := todo - {n};
    }
  }

  lemma NoEntries(t: Trie)
    ensures Lists([], t) && forall n :: !Names([], n)
  {
  }

  /** `writeTrieAsTree`: writes the children, then the node; every object it refers to is then
      readable. */
  method WriteTrie(t: Trie, store: set<Id>) returns (id: Id, store': set<Id>)
    requires GoodTrie(t) && Full(t)
    ensures store <= store' && Readable(store', id) && SameFiles(id, t)
    ensures Canonical(id) && (!Empty(t) ==> id.entries != [])
    decreases t
  {
    hide Lists, Names, SameFiles, GoodTree, Readable, Canonical, Ready, SortedNames;
    store' := store;
    var es := FileEntries(t);
    OnlyFiles(store, es, t);
    var todo := t.dirs.Keys;
    while todo != {}
      invariant todo <= t.dirs.Keys && Lists(es, t) && store <= store'
      invariant forall n :: Names(es, n) <==> n in t.files || (n in t.dirs && n !in todo)
      invariant Ready(store', es)
      decreases |todo|
    {
      var n :| n in todo;
      ghost var was := store';
      var child;
      child, store' := WriteTrie(t.dirs[n], store');
      CanonicalTree(child);
      ReadyMore(was, store', es, Entry(n, child, true));
      OneMore(es, t, Entry(n, child, true));
      es := es + [Entry(n, child, true)];
      todo := todo - {n};
    }
    assert DistinctNames(es) by { ListsDistinct(es, t); }
    var sorted := SortEntries(es);
    SortedLists(es, sorted, t);
    ListedTree(sorted, t);
    id := Tree(sorted);
    ghost var was := store';
    store' := store' + {id};
    NowReadable(was, store', es, sorted);
    SomethingListed(es, t);
  }

  lemma {:induction false} CanonicalTree(id: Id)
    requires Canonical(id)
    ensures id.Tree?
  {
  }

  lemma {:induction false} SomethingListed(es: seq<Entry>, t: Trie)
    requires forall n | n in t.files || n in t.dirs :: Names(es, n)
    ensures !Empty(t) ==> es != []
  {
    if !Empty(t) {
      var n :| n in t.files || n in t.dirs;
      assert Names(es, n);
    }
  }

  /** Every directory among the entries is written, canonical and not empty. */
  ghost predicate Ready(store: set<Id>, es: seq<Entry>)
  {
    forall i | 0 <= i < |es| && es[i].isDirectory ::
      Readable(store, es[i].id) && es[i].id.Tree? && es[i].id.entries != [] && Canonical(es[i].id)
  }

  lemma {:induction false} OnlyFiles(store: set<Id>, es: seq<Entry>, t: Trie)
    requires GoodTrie(t) && Lists(es, t) && forall n :: Names(es, n) <==> n in t.files
    ensures Ready(store, es)
  {
    forall i | 0 <= i < |es|
      ensures !es[i].isDirectory
    {
      assert EntryOk(es[i], t) && Names(es, es[i].name);
    }
  }

  lemma {:induction false} ListsDistinct(es: seq<Entry>, t: Trie)
    requires Lists(es, t)
    ensures DistinctNames(es)
  {
  }

  lemma {:induction false} ReadableMore(store: set<Id>, store': set<Id>, t: Id)
    requires Readable(store, t) && store <= store'
    ensures Readable(store', t)
    decreases t
  {
    forall e | e in t.entries && e.isDirectory
      ensures Readable(store', e.id)
    {
      ReadableMore(store, store', e.id);
    }
  }

  lemma {:induction false} ReadyMore(store: set<Id>, store': set<Id>, es: seq<Entry>, e: Entry)
    requires store <= store' && Ready(store, es) && Readable(store', e.id) && e.id.Tree? && e.id.entries != [] && Canonical(e.id)
    ensures Ready(store', es + [e])
  {
    hide Readable, Canonical;
    forall i | 0 <= i < |es| && es[i].isDirectory
      ensures Readable(store', es[i].id)
    {
      ReadableMore(store, store', es[i].id);
    }
  }

  lemma {:induction false} NowReadable(store: set<Id>, store': set<Id>, es: seq<Entry>, sorted: seq<Entry>)
    requires store <= store' && Tree(sorted) in store' && Ready(store, es) && SortedNames(sorted) && forall x :: x in sorted <==> x in es
    ensures Readable(store', Tree(sorted)) && Canonical(Tree(sorted))
  {
    hide Less;
    forall e | e in sorted && e.isDirectory
      ensures Readable(store', e.id) && e.id.Tree? && e.id.entries != [] && Canonical(e.id)
    {
      var i :| 0 <= i < |es| && es[i] == e;
      ReadableMore(store, store', e.id);
    }
  }

  // ---- the whole builder ----

  ghost predicate GoodPaths(files: Files)
  {
    forall p | p in files :: GoodPath(p)
  }

  /** `buildTreeFromPaths`: the tree holds exactly the files under which no other file lies. */
  method BuildTree(files: Files, store: set<Id>) returns (id: Id, store': set<Id>)
    requires GoodPaths(files)
    ensures store <= store' && Readable(store', id) && GoodTree(id) && Canonical(id)
    ensures forall q: Path :: FileAt(id, q) == if q in files && !HasUnder(files, q) then Some(files[q]) else None
  {
    assert [] !in files;
    var root := InsertAll(files);
    id, store' := WriteTrie(root, store);
  }

  /** The insertion loop, in any order of the paths. */
  method InsertAll(files: Files) returns (root: Trie)
    requires GoodPaths(files) && [] !in files
    ensures Holds(root, files) && GoodTrie(root) && Full(root)
  {
    hide Holds, GoodTrie, Full;
    root := Trie(map[], map[]);
    var todo, done := files, map[];
    EmptyGood();
    while todo != map[]
      invariant forall p | p in files :: p in done || p in todo
      invariant forall p | p in todo :: p in files && todo[p] == files[p] && p !in done
      invariant forall p | p in done :: p in files && done[p] == files[p]
      invariant Holds(root, done) && GoodTrie(root) && Full(root)
      decreases |todo|
    {
      var p :| p in todo;
      InsertHolds(root, done, p, todo[p]);
      InsertGood(root, p, todo[p]);
      InsertFull(root, p, todo[p]);
      root := Insert(root, p, todo[p]);
      done := done[p := todo[p]];
      todo := todo - {p};
    }
    assert done == files;
  }

  lemma EmptyGood()
    ensures GoodTrie(Trie(map[], map[])) && Full(Trie(map[], map[])) && Holds(Trie(map[], map[]), map[])
  {
    var root := Trie(map[], map[]);
    forall q: Path ensures TrieAt(root, q) == None && (IsDir(root, q) <==> q == []) { Nothing(q); }
  }

  /** On files none of which lies under another nothing is dropped. */
  lemma NothingDropped(files: Files, id: Id)
    requires PrefixFree(files)
    requires forall q: Path :: FileAt(id, q) == if q in files && !HasUnder(files, q) then Some(files[q]) else None
    ensures Flat(id, files)
  {
    forall q: Path
      ensures FileAt(id, q) == if q in files then Some(files[q]) else None
    {
      assert q in files ==> !HasUnder(files, q);
    }
  }

  // ---- one tree for one set of files ----

  lemma {:induction false} SortedUnique(es: seq<Entry>, fs: seq<Entry>)
    requires SortedNames(es) && SortedNames(fs) && forall x :: x in es <==> x in fs
    ensures es == fs
  {
    hide Less;
    assert fs != [] ==> fs[0] in fs;
    if es != [] {
      assert es[0] in fs;
      var i :| 0 <= i < |fs| && fs[i] == es[0];
      assert fs[0] in es;
      var j :| 0 <= j < |es| && es[j] == fs[0];
      Trichotomy(es[0].name, fs[0].name);
      assert es[0] == fs[0];
      TailSame(es, fs);
      SortedUnique(es[1..], fs[1..]);
      assert es == [es[0]] + es[1..] && fs == [fs[0]] + fs[1..];
    }
  }

  lemma {:induction false} TailSame(es: seq<Entry>, fs: seq<Entry>)
    requires SortedNames(es) && SortedNames(fs) && (forall x :: x in es <==> x in fs) && es != [] && fs != [] && es[0] == fs[0]
    ensures SortedNames(es[1..]) && SortedNames(fs[1..]) && forall x :: x in es[1..] <==> x in fs[1..]
  {
    hide Less;
    InTail(es);
    InTail(fs);
  }

  lemma {:induction false} InTail(es: seq<Entry>)
    requires SortedNames(es) && es != []
    ensures SortedNames(es[1..]) && forall x :: x in es[1..] <==> x in es && x != es[0]
  {
    hide Less;
    forall i | 0 < i < |es|
      ensures es[i] != es[0]
    {
      Trichotomy(es[0].name, es[i].name);
    }
    assert es == [es[0]] + es[1..];
  }

  /** A non-empty canonical tree holds a file. */
  lemma {:induction false} SomeFile(id: Id) returns (p: Path)
    requires GoodTree(id) && Canonical(id) && id.entries != []
    ensures FileAt(id, p).Some?
    decreases id
  {
    var e := id.entries[0];
    assert e in id.entries;
    if e.isDirectory {
      var q := SomeFile(e.id);
      p := [e.name] + q;
      assert p[1..] == q;
    } else {
      p := [e.name];
    }
    FileUnder(id, 0, p);
  }

  /** Its entry in another tree with the same files. */
  lemma {:induction false} Counterpart(a: Id, b: Id, i: nat) returns (j: nat)
    requires GoodTree(a) && GoodTree(b) && Canonical(a) && i < |a.entries|
    requires forall p: Path :: FileAt(a, p) == FileAt(b, p)
    ensures j < |b.entries|
    ensures a.entries[i].name == b.entries[j].name && a.entries[i].isDirectory == b.entries[j].isDirectory
    ensures !a.entries[i].isDirectory ==> a.entries[i] == b.entries[j]
    ensures a.entries[i].isDirectory ==> GoodTree(a.entries[i].id) && GoodTree(b.entries[j].id) && Canonical(a.entries[i].id) &&
                                         forall q: Path :: FileAt(a.entries[i].id, q) == FileAt(b.entries[j].id, q)
  {
    var e := a.entries[i];
    assert e in a.entries;
    var p := [e.name];
    if e.isDirectory {
      var q := SomeFile(e.id);
      p := [e.name] + q;
      assert p[1..] == q;
    }
    FileUnder(a, i, p);
    j := Find(b.entries, e.name);
    assert FileAt(b, p).Some?;
    assert b.entries[j] in b.entries;
    if e.isDirectory {
      forall q: Path
        ensures FileAt(e.id, q) == FileAt(b.entries[j].id, q)
      {
        var r := [e.name] + q;
        assert r[1..] == q && FileAt(a, r) == FileAt(b, r);
        FileUnder(a, i, r);
      }
    }
  }

  /** Trees written by the builder are equal as soon as they hold the same files. */
  lemma {:induction false} SameTree(a: Id, b: Id)
    requires GoodTree(a) && GoodTree(b) && Canonical(a) && Canonical(b)
    requires forall p: Path :: FileAt(a, p) == FileAt(b, p)
    ensures a == b
    decreases a
  {
    hide FileAt, Less;
    forall i: nat | i < |a.entries|
      ensures a.entries[i] in b.entries
    {
      var j := Counterpart(a, b, i);
      assert b.entries[j] in b.entries && a.entries[i] in a.entries;
      if a.entries[i].isDirectory {
        SameTree(a.entries[i].id, b.entries[j].id);
      }
    }
    forall j: nat | j < |b.entries|
      ensures b.entries[j] in a.entries
    {
      var i := Counterpart(b, a, j);
      assert a.entries[i] in b.entries;
      var k :| 0 <= k < |b.entries| && b.entries[k] == a.entries[i];
      assert k == j;
    }
    SortedUnique(a.entries, b.entries);
  }
}
