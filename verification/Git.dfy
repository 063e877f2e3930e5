/** The object model of the version store.  An id stands for the content it is the hash of, so
    equal ids mean equal content and nothing can contain its own id.  A path is the sequence
    of names between its slashes. */
module GitObjects {
  import opened Codec

  type Name = string

  type Path = seq<Name>

  datatype Id = Blob(n: nat) | Tree(entries: seq<Entry>) | Commit(tree: Id, parents: seq<Id>, note: nat)

  datatype Entry = Entry(name: Name, id: Id, isDirectory: bool)

  // ---- path strings ----

  predicate GoodName(n: Name)
  {
    n != "" && '/' !in n
  }

  predicate GoodPath(p: Path)
  {
    p != [] && forall i | 0 <= i < |p| :: GoodName(p[i])
  }

  function Join(p: Path): string
  {
    if p == [] then "" else if |p| == 1 then p[0] else p[0] + "/" + Join(p[1..])
  }

  /** The names of `s` after a first name that starts with `current`. */
  function SplitFrom(s: string, current: string): Path
  {
    if s == "" then (if current == "" then [] else [current])
    else if s[0] == '/' then (if current == "" then [] else [current]) + SplitFrom(s[1..], "")
    else SplitFrom(s[1..], current + [s[0]])
  }

  function Split(s: string): Path
  {
    SplitFrom(s, "")
  }

  /** `splitPath`: one pass over the characters. */
  method SplitPath(path: string) returns (segments: Path)
    ensures segments == Split(path)
  {
    segments := [];
    var current, i := "", 0;
    while i < |path|
      invariant 0 <= i <= |path|
      invariant segments + SplitFrom(path[i..], current) == Split(path)
    {
      assert path[i..][1..] == path[i + 1..];
      if path[i] == '/' {
        if current != "" {
          segments := segments + [current];
          current := "";
        }
      } else {
        current := current + [path[i]];
      }
      i := i + 1;
    }
    if current != "" {
      segments := segments + [current];
    }
  }

  lemma {:induction false} SplitName(n: Name, rest: string, current: string)
    requires '/' !in n && (rest == "" || rest[0] == '/')
    ensures SplitFrom(n + rest, current) == SplitFrom(rest, current + n)
    decreases |n|
  {
    if n == "" {
      assert n + rest == rest && current + n == current;
    } else {
      assert (n + rest)[1..] == n[1..] + rest;
      assert current + [n[0]] + n[1..] == current + n;
      SplitName(n[1..], rest, current + [n[0]]);
    }
  }

  /** Splitting undoes joining, so strings carry exactly the paths. */
  lemma {:induction false} SplitJoin(p: Path)
    requires GoodPath(p)
    ensures Split(Join(p)) == p
  {
    if |p| == 1 {
      assert p[0] + "" == p[0] && "" + p[0] == p[0];
      SplitName(p[0], "", "");
    } else {
      assert GoodName(p[0]);
      assert GoodPath(p[1..]) by { forall i | 0 <= i < |p[1..]| ensures GoodName(p[1..][i]) { assert p[1..][i] == p[i + 1]; } }
      var rest := "/" + Join(p[1..]);
      assert p[0] + "/" + Join(p[1..]) == p[0] + rest && "" + p[0] == p[0];
      SplitName(p[0], rest, "");
      assert rest[1..] == Join(p[1..]);
      SplitJoin(p[1..]);
    }
  }

  /** A slash separates, whatever is on either side of it; a string without one is a name, or
      nothing if it is empty.  This says what splitting is on every string. */
  lemma {:induction false} SplitAtSlash(a: string, b: string)
    ensures Split(a + "/" + b) == Split(a) + Split(b)
  {
    SplitFromSlash(a, b, "");
  }

  lemma {:induction false} SplitFromSlash(a: string, b: string, current: string)
    ensures SplitFrom(a + "/" + b, current) == SplitFrom(a, current) + Split(b)
    decreases |a|
  {
    var s := a + "/" + b;
    if a == "" {
      assert s[0] == '/' && s[1..] == b;
    } else {
      assert s[0] == a[0] && s[1..] == a[1..] + "/" + b;
      SplitFromSlash(a[1..], b, if a[0] == '/' then "" else current + [a[0]]);
    }
  }

  lemma SplitPlain(n: string)
    requires '/' !in n
    ensures Split(n) == if n == "" then [] else [n]
  {
    assert n + "" == n && "" + n == n;
    SplitName(n, "", "");
  }

  // ---- trees ----

  ghost predicate DistinctNames(entries: seq<Entry>)
  {
    forall i, j | 0 <= i < j < |entries| :: entries[i].name != entries[j].name
  }

  /** Names are distinct, non-empty and without slashes, and every directory entry is a good
      tree. */
  ghost predicate GoodTree(t: Id)
    decreases t
  {
    t.Tree? && DistinctNames(t.entries) &&
    forall e | e in t.entries :: GoodName(e.name) && (e.isDirectory ==> GoodTree(e.id))
  }

  /** The index of a name among the entries, or their number. */
  function Find(entries: seq<Entry>, n: Name): (i: nat)
    ensures i <= |entries|
    ensures i < |entries| ==> entries[i].name == n
    ensures i == |entries| ==> forall j | 0 <= j < |entries| :: entries[j].name != n
  {
    if entries == [] then 0 else if entries[0].name == n then 0
    else
      var i := Find(entries[1..], n);
      assert forall j | 0 < j < |entries| :: entries[j] == entries[1..][j - 1];
      1 + i
  }

  /** The blob a path names in a tree, if it names a file. */
  function FileAt(t: Id, p: Path): Option<Id>
    decreases p
  {
    if !t.Tree? || p == [] then None
    else
      var i := Find(t.entries, p[0]);
      if i == |t.entries| then None
      else if t.entries[i].isDirectory then FileAt(t.entries[i].id, p[1..])
      else if |p| == 1 then Some(t.entries[i].id)
      else None
  }

  type Files = map<Path, Id>

  /** The map holds exactly the tree's files. */
  ghost predicate Flat(t: Id, files: Files)
  {
    forall p: Path :: FileAt(t, p) == if p in files then Some(files[p]) else None
  }

  /** Paths under a directory of a tree. */
  lemma FileUnder(t: Id, i: nat, p: Path)
    requires GoodTree(t) && i < |t.entries| && p != [] && p[0] == t.entries[i].name
    ensures FileAt(t, p) == if t.entries[i].isDirectory then FileAt(t.entries[i].id, p[1..])
                            else if |p| == 1 then Some(t.entries[i].id) else None
  {
    assert Find(t.entries, p[0]) == i;
  }

  /** No file lies under another. */
  ghost predicate PrefixFree(files: Files)
  {
    forall p, q | p in files && q in files && p != q :: !(p <= q)
  }

  lemma {:induction false} FileIsNoDirectory(t: Id, p: Path, q: Path)
    requires FileAt(t, p).Some? && FileAt(t, q).Some? && p <= q
    ensures p == q
    decreases p
  {
    if p[0] == q[0] {
      var i := Find(t.entries, p[0]);
      if t.entries[i].isDirectory {
        FileIsNoDirectory(t.entries[i].id, p[1..], q[1..]);
      }
    }
  }

  /** The files of any tree are prefix-free. */
  lemma FlatPrefixFree(t: Id, files: Files)
    requires Flat(t, files)
    ensures PrefixFree(files)
  {
    forall p, q | p in files && q in files && p != q
      ensures !(p <= q)
    {
      assert FileAt(t, p).Some? && FileAt(t, q).Some?;
      if p <= q {
        FileIsNoDirectory(t, p, q);
      }
    }
  }

  lemma {:induction false} FileGoodPath(t: Id, p: Path)
    requires GoodTree(t) && FileAt(t, p).Some?
    ensures GoodPath(p)
    decreases p
  {
    var e := t.entries[Find(t.entries, p[0])];
    assert e in t.entries;
    if e.isDirectory {
      FileGoodPath(e.id, p[1..]);
      assert p == [p[0]] + p[1..];
    }
  }
}
