/** Trees and flat file maps: flattening a stored tree, and building a tree from a file map. */
module GitTrees {
  import opened Codec
  import opened GitObjects

  // ---- flattening ----

  /** Every tree object the flattening needs is in the store. */
  ghost predicate Readable(store: set<Id>, t: Id)
    decreases t
  {
    t.Tree? && t in store && forall e | e in t.entries && e.isDirectory :: Readable(store, e.id)
  }

  function At(files: Files, p: Path): Option<Id>
  {
    if p in files then Some(files[p]) else None
  }

  /** What `p` means in `files` after the files of tree `t` were put in under `prefix`. */
  ghost function Over(files: Files, prefix: Path, t: Id, p: Path): Option<Id>
  {
    if prefix <= p && FileAt(t, p[|prefix|..]).Some? then FileAt(t, p[|prefix|..]) else At(files, p)
  }

  lemma {:induction false} FindSnoc(es: seq<Entry>, e: Entry, n: Name)
    ensures Find(es + [e], n) == if Find(es, n) < |es| then Find(es, n) else if e.name == n then |es| else |es| + 1
  {
    if es == [] {
      assert es + [e] == [e] && [e][1..] == [];
    } else {
      assert (es + [e])[1..] == es[1..] + [e];
      FindSnoc(es[1..], e, n);
    }
  }

  /** One more entry with a new name adds the files under that name. */
  lemma {:induction false} FileAtSnoc(es: seq<Entry>, e: Entry, q: Path)
    requires DistinctNames(es + [e])
    ensures FileAt(Tree(es + [e]), q) ==
              if q != [] && q[0] == e.name then
                (if e.isDirectory then FileAt(e.id, q[1..]) else if |q| == 1 then Some(e.id) else None)
              else FileAt(Tree(es), q)
  {
    var all := es + [e];
    if q != [] {
      FindSnoc(es, e, q[0]);
      if q[0] == e.name {
        assert forall j | 0 <= j < |es| :: all[j] == es[j] && all[j].name != all[|es|].name;
      }
    }
  }

  lemma {:induction false} GoodPrefix(t: Id, i: nat)
    requires GoodTree(t) && i < |t.entries|
    ensures DistinctNames(t.entries[..i + 1]) && t.entries[..i + 1] == t.entries[..i] + [t.entries[i]]
    ensures GoodName(t.entries[i].name) && (t.entries[i].isDirectory ==> GoodTree(t.entries[i].id))
  {
    assert t.entries[i] in t.entries;
  }

  /** `flattenTree`: fails exactly when some tree under `t` cannot be read. */
  method FlattenTree(store: set<Id>, t: Id, prefix: Path, out: Files) returns (ok: bool, files: Files)
    ensures ok <==> Readable(store, t)
    ensures ok && GoodTree(t) ==> forall p: Path :: At(files, p) == Over(out, prefix, t, p)
    decreases t
  {
    files := out;
    if !t.Tree? || t !in store {
      return false, files;
    }
    var i := 0;
    ghost var good := GoodTree(t);
    hide GoodTree, FileAt;
    assert t.entries[..0] == [];
    EmptyTree();
    while i < |t.entries|
      invariant 0 <= i <= |t.entries|
      invariant forall j | 0 <= j < i :: t.entries[j].isDirectory ==> Readable(store, t.entries[j].id)
      invariant good ==> forall p: Path :: At(files, p) == Over(out, prefix, Tree(t.entries[..i]), p)
    {
      var e := t.entries[i];
      var path := prefix + [e.name];
      ghost var was := files;
      if e.isDirectory {
        ok, files := FlattenTree(store, e.id, path, files);
        if !ok {
          assert e in t.entries;
          return false, files;
        }
      } else {
        files := files[path := e.id];
      }
      if good {
        EntryDone(out, prefix, t, i, was, files);
      }
      i := i + 1;
    }
    assert t.entries[..i] == t.entries;
    ok := true;
  }

  lemma EmptyTree()
    ensures forall p: Path :: FileAt(Tree([]), p) == None
  {
  }

  lemma {:induction false} EntryDone(out: Files, prefix: Path, t: Id, i: nat, was: Files, files: Files)
    requires GoodTree(t) && i < |t.entries|
    requires forall p: Path :: At(was, p) == Over(out, prefix, Tree(t.entries[..i]), p)
    requires var e, path := t.entries[i], prefix + [t.entries[i].name];
             if e.isDirectory then (GoodTree(e.id) ==> forall p: Path :: At(files, p) == Over(was, path, e.id, p))
             else files == was[path := e.id]
    ensures forall p: Path :: At(files, p) == Over(out, prefix, Tree(t.entries[..i + 1]), p)
  {
    var e, path := t.entries[i], prefix + [t.entries[i].name];
    GoodPrefix(t, i);
    forall p: Path
      ensures At(files, p) == Over(out, prefix, Tree(t.entries[..i + 1]), p)
    {
      OnePath(out, prefix, t.entries[..i], e, was, files, p);
    }
  }

  lemma {:induction false} OnePath(out: Files, prefix: Path, es: seq<Entry>, e: Entry, was: Files, files: Files, p: Path)
    requires DistinctNames(es + [e]) && At(was, p) == Over(out, prefix, Tree(es), p)
    requires if e.isDirectory then At(files, p) == Over(was, prefix + [e.name], e.id, p)
             else files == was[prefix + [e.name] := e.id]
    ensures At(files, p) == Over(out, prefix, Tree(es + [e]), p)
  {
    var path := prefix + [e.name];
    PathUnder(prefix, e.name, p);
    if prefix <= p {
      var q := p[|prefix|..];
      FileAtSnoc(es, e, q);
      assert p == prefix + q;
      if q != [] && q[0] == e.name {
        assert path <= p && p[|path|..] == q[1..];
        NewName(es, e, q);
        assert |q| == 1 ==> p == path;
      }
    }
    hide FileAt;
  }

  lemma {:induction false} PathUnder(prefix: Path, n: Name, p: Path)
    ensures prefix + [n] <= p <==> prefix <= p && |p| > |prefix| && p[|prefix|] == n
  {
    if prefix <= p && |p| > |prefix| && p[|prefix|] == n {
      assert p[..|prefix| + 1] == prefix + [n];
    }
    assert prefix + [n] <= p ==> p[..|prefix|] == (prefix + [n])[..|prefix|] && p[|prefix|] == (prefix + [n])[|prefix|];
  }

  lemma {:induction false} NewName(es: seq<Entry>, e: Entry, q: Path)
    requires DistinctNames(es + [e]) && q != [] && q[0] == e.name
    ensures FileAt(Tree(es), q) == None
  {
    var all := es + [e];
    assert forall j | 0 <= j < |es| :: all[j] == es[j] && all[j].name != all[|es|].name;
  }
}
