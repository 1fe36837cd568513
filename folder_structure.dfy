/** GetFolderStructureByDatacenter: a depth-first walk of a datacenter's VM
    folder that lists every nested folder with its "a/b/c" path, then orders
    the list by path. The inventory, which the source reads one GetView at a
    time, is given as a tree. */
module FolderStructure {
  import opened Wrappers

  /** A managed entity: its MoRef type and value, its name, and the entities
      of its ChildEntity list. */
  datatype Entity = Entity(entityType: string, id: string, name: string, children: seq<Entity>)

  /** The FolderWithPath record one listed folder becomes. */
  datatype FolderWithPath = FolderWithPath(name: string, id: string, path: string)

  predicate IsFolder(e: Entity)
  {
    e.entityType == "Folder"
  }

  /** The path of a child named `name` below `currentPath`: the bare name at
      the top (empty path), else the parent path, "/" and the name. */
  function ChildPath(currentPath: string, name: string): string
  {
    if IsNullOrEmpty(Some(currentPath)) then name else currentPath + "/" + name
  }

  /** The entry a Folder child becomes below `currentPath`. */
  function Entry(child: Entity, currentPath: string): FolderWithPath
  {
    FolderWithPath(child.name, child.id, ChildPath(currentPath, child.name))
  }

  /** The folders below a list of sibling entities, in depth-first preorder:
      each Folder child, then everything below it; other children add
      nothing. */
  function Walk(children: seq<Entity>, currentPath: string): seq<FolderWithPath>
    decreases children
  {
    if children == [] then []
    else WalkOne(children[0], currentPath) + Walk(children[1..], currentPath)
  }

  function WalkOne(child: Entity, currentPath: string): seq<FolderWithPath>
    decreases child
  {
    if IsFolder(child) then
      [Entry(child, currentPath)] + Walk(child.children, ChildPath(currentPath, child.name))
    else []
  }

  /** The number of Folder entities reachable from the siblings through
      Folders only. */
  function FolderCount(children: seq<Entity>): nat
    decreases children
  {
    if children == [] then 0
    else FolderCountOne(children[0]) + FolderCount(children[1..])
  }

  function FolderCountOne(child: Entity): nat
    decreases child
  {
    if IsFolder(child) then 1 + FolderCount(child.children) else 0
  }

  lemma {:induction false} WalkAppend(a: seq<Entity>, b: seq<Entity>, currentPath: string)
    ensures Walk(a + b, currentPath) == Walk(a, currentPath) + Walk(b, currentPath)
    decreases a
  {
    if a == [] {
      assert a + b == b;
    } else {
      assert (a + b)[1..] == a[1..] + b;
      WalkAppend(a[1..], b, currentPath);
    }
  }

  /** ListVmFolders: appends the folders below `folder` to `folderList`, each
      folder before the folders inside it, and returns the list. */
  method ListVmFolders(folder: Entity, folderList: seq<FolderWithPath>, currentPath: string)
    returns (result: seq<FolderWithPath>)
    ensures result == folderList + Walk(folder.children, currentPath)
    decreases folder
  {
    result := folderList;
    var i := 0;
    while i < |folder.children|
      invariant 0 <= i <= |folder.children|
      invariant result == folderList + Walk(folder.children[..i], currentPath)
    {
      var childEntity := folder.children[i];
      if IsFolder(childEntity) {
        var newFolder := FolderWithPath(childEntity.name, childEntity.id,
                                        ChildPath(currentPath, childEntity.name));
        result := result + [newFolder];
        result := ListVmFolders(childEntity, result, newFolder.path);
      }
      assert folder.children[..i + 1] == folder.children[..i] + [childEntity];
      WalkAppend(folder.children[..i], [childEntity], currentPath);
      assert Walk([childEntity], currentPath) == WalkOne(childEntity, currentPath) by {
        assert [childEntity][1..] == [];
      }
      i := i + 1;
    }
    assert folder.children[..i] == folder.children;
  }

  /** One entry per reachable Folder, whatever the path prefix. */
  lemma {:induction false} WalkLength(children: seq<Entity>, currentPath: string)
    ensures |Walk(children, currentPath)| == FolderCount(children)
    decreases children
  {
    if children != [] {
      var c := children[0];
      if IsFolder(c) {
        WalkLength(c.children, ChildPath(currentPath, c.name));
      }
      WalkLength(children[1..], currentPath);
    }
  }

  /** Non-Folder siblings contribute nothing: the walk of a list equals the
      walk of its Folder members alone. */
  function FoldersOnly(children: seq<Entity>): (r: seq<Entity>)
    ensures forall e :: e in r ==> IsFolder(e) && e in children
  {
    if children == [] then []
    else if IsFolder(children[0]) then [children[0]] + FoldersOnly(children[1..])
    else FoldersOnly(children[1..])
  }

  lemma {:induction false} OnlyFoldersWalked(children: seq<Entity>, currentPath: string)
    ensures Walk(children, currentPath) == Walk(FoldersOnly(children), currentPath)
  {
    if children != [] {
      OnlyFoldersWalked(children[1..], currentPath);
      var rest := FoldersOnly(children[1..]);
      if IsFolder(children[0]) {
        assert ([children[0]] + rest)[0] == children[0];
        assert ([children[0]] + rest)[1..] == rest;
      }
    }
  }

  predicate EndsWith(s: string, suffix: string)
  {
    |suffix| <= |s| && s[|s| - |suffix|..] == suffix
  }

  /** Every path ends with the folder's own name; below a non-empty path it
      is that path, "/", then more; each direct Folder child is listed with
      the parent path, "/" and its name as path, or its bare name at the top
      (empty path). */
  lemma {:induction false} WalkPaths(children: seq<Entity>, currentPath: string)
    ensures forall f :: f in Walk(children, currentPath) ==> EndsWith(f.path, f.name)
    ensures currentPath != "" ==>
      forall f :: f in Walk(children, currentPath) ==> StartsWith(f.path, currentPath + "/")
    ensures forall c :: c in children && IsFolder(c) ==>
      FolderWithPath(c.name, c.id, ChildPath(currentPath, c.name)) in Walk(children, currentPath)
    decreases children
  {
    if children != [] {
      var c := children[0];
      WalkPaths(children[1..], currentPath);
      if IsFolder(c) {
        var p := ChildPath(currentPath, c.name);
        WalkPaths(c.children, p);
        if currentPath != "" {
          assert p[..|currentPath + "/"|] == currentPath + "/";
          forall f | f in Walk(c.children, p) ensures StartsWith(f.path, currentPath + "/") {
            assert p != "";
            assert f.path[..|p + "/"|] == p + "/";
            assert f.path[..|currentPath + "/"|] == (p + "/")[..|currentPath + "/"|];
          }
        }
        assert p[|p| - |c.name|..] == c.name;
      }
      forall d | d in children && IsFolder(d)
        ensures FolderWithPath(d.name, d.id, ChildPath(currentPath, d.name)) in Walk(children, currentPath)
      {
        if d != c {
          assert d in children[1..];
        }
      }
    }
  }

  /* ----- Ordering by path ----- */

  /** Ordinal string order: a prefix comes first, else the first differing
      character decides. */
  predicate PathLe(a: string, b: string)
  {
    if a == [] then true
    else if b == [] then false
    else if a[0] != b[0] then a[0] < b[0]
    else PathLe(a[1..], b[1..])
  }

  lemma {:induction false} PathLeTotal(a: string, b: string)
    ensures PathLe(a, b) || PathLe(b, a)
  {
    if a != [] && b != [] && a[0] == b[0] {
      PathLeTotal(a[1..], b[1..]);
    }
  }

  lemma {:induction false} PathLeTransitive(a: string, b: string, c: string)
    requires PathLe(a, b) && PathLe(b, c)
    ensures PathLe(a, c)
  {
    if a != [] && b != [] && c != [] && a[0] == b[0] && b[0] == c[0] {
      PathLeTransitive(a[1..], b[1..], c[1..]);
    }
  }

  lemma {:induction false} PathLeAntisymmetric(a: string, b: string)
    requires PathLe(a, b) && PathLe(b, a)
    ensures a == b
  {
    if a != [] && b != [] {
      PathLeAntisymmetric(a[1..], b[1..]);
      assert a == [a[0]] + a[1..] && b == [b[0]] + b[1..];
    }
  }

  predicate SortedByPath(s: seq<FolderWithPath>)
  {
    forall i, j :: 0 <= i < j < |s| ==> PathLe(s[i].path, s[j].path)
  }

  /** Inserts `x` into a list sorted by path, after every entry whose path is
      not greater than its own. */
  function Insert(sorted: seq<FolderWithPath>, x: FolderWithPath): seq<FolderWithPath>
  {
    if sorted == [] then [x]
    else if PathLe(sorted[0].path, x.path) then [sorted[0]] + Insert(sorted[1..], x)
    else [x] + sorted
  }

  /** `OrderBy(o => o.Path)`: a stable sort by path. */
  function SortByPath(s: seq<FolderWithPath>): seq<FolderWithPath>
  {
    if s == [] then [] else Insert(SortByPath(s[..|s| - 1]), s[|s| - 1])
  }

  lemma {:induction false} InsertPermutes(sorted: seq<FolderWithPath>, x: FolderWithPath)
    ensures multiset(Insert(sorted, x)) == multiset(sorted) + multiset{x}
  {
    if sorted != [] && PathLe(sorted[0].path, x.path) {
      InsertPermutes(sorted[1..], x);
      assert sorted == [sorted[0]] + sorted[1..];
    }
  }

  lemma {:induction false} InsertSorted(sorted: seq<FolderWithPath>, x: FolderWithPath)
    requires SortedByPath(sorted)
    ensures SortedByPath(Insert(sorted, x))
  {
    if sorted == [] {
    } else if PathLe(sorted[0].path, x.path) {
      InsertSorted(sorted[1..], x);
      InsertPermutes(sorted[1..], x);
      var r := Insert(sorted, x);
      var tail := Insert(sorted[1..], x);
      forall j | 0 < j < |r| ensures PathLe(r[0].path, r[j].path) {
        assert r[j] == tail[j - 1];
        assert r[j] in multiset(tail);
        assert r[j] in multiset(sorted[1..]) || r[j] == x;
        if r[j] != x {
          var k :| 0 <= k < |sorted[1..]| && sorted[1..][k] == r[j];
          assert sorted[k + 1] == r[j];
        }
      }
    } else {
      PathLeTotal(sorted[0].path, x.path);
      forall j | 0 <= j < |sorted| ensures PathLe(x.path, sorted[j].path) {
        if j > 0 {
          PathLeTransitive(x.path, sorted[0].path, sorted[j].path);
        }
      }
    }
  }

  /** The entries with path `p`, in order. */
  function WithPath(s: seq<FolderWithPath>, p: string): seq<FolderWithPath>
  {
    if s == [] then []
    else (if s[0].path == p then [s[0]] else []) + WithPath(s[1..], p)
  }

  lemma {:induction false} WithPathAppend(a: seq<FolderWithPath>, b: seq<FolderWithPath>, p: string)
    ensures WithPath(a + b, p) == WithPath(a, p) + WithPath(b, p)
  {
    if a == [] {
      assert a + b == b;
    } else {
      assert (a + b)[1..] == a[1..] + b;
      WithPathAppend(a[1..], b, p);
    }
  }

  /** Inserting lands `x` after every entry of its own path. */
  lemma {:induction false} InsertStable(sorted: seq<FolderWithPath>, x: FolderWithPath, p: string)
    requires SortedByPath(sorted)
    ensures WithPath(Insert(sorted, x), p) == WithPath(sorted, p) + WithPath([x], p)
  {
    assert [x][1..] == [];
    if sorted == [] {
    } else if PathLe(sorted[0].path, x.path) {
      InsertStable(sorted[1..], x, p);
    } else {
      // every entry is greater than x, so none has x's path
      assert WithPath(Insert(sorted, x), p) == WithPath([x], p) + WithPath(sorted, p) by {
        assert Insert(sorted, x) == [x] + sorted;
        WithPathAppend([x], sorted, p);
      }
      if x.path == p {
        NoneWithPath(sorted, x.path);
      }
    }
  }

  lemma {:induction false} NoneWithPath(sorted: seq<FolderWithPath>, p: string)
    requires SortedByPath(sorted)
    requires sorted != [] && !PathLe(sorted[0].path, p)
    ensures WithPath(sorted, p) == []
  {
    if sorted[0].path == p {
      PathLeTotal(p, p);
    }
    if |sorted| > 1 {
      if PathLe(sorted[1].path, p) {
        PathLeTransitive(sorted[0].path, sorted[1].path, p);
      }
      NoneWithPath(sorted[1..], p);
    }
  }

  /** The sorted list is ordered by path, holds exactly the walked entries,
      and keeps the walk order among entries of equal path (OrderBy is
      stable). */
  lemma {:induction false} SortByPathCorrect(s: seq<FolderWithPath>)
    ensures SortedByPath(SortByPath(s))
    ensures multiset(SortByPath(s)) == multiset(s)
    ensures forall p :: WithPath(SortByPath(s), p) == WithPath(s, p)
  {
    if s != [] {
      var init := s[..|s| - 1];
      var last := s[|s| - 1];
      SortByPathCorrect(init);
      InsertSorted(SortByPath(init), last);
      InsertPermutes(SortByPath(init), last);
      assert s == init + [last];
      forall p ensures WithPath(SortByPath(s), p) == WithPath(s, p) {
        InsertStable(SortByPath(init), last, p);
        WithPathAppend(init, [last], p);
      }
    }
  }

  /** GetFolderStructureByDatacenter.Run from the datacenter lookup on:
      `datacenter` is the datacenter's VM folder, None when the datacenter is
      not found. */
  method Run(datacenter: Option<Entity>, showOutcomeForNoResults: bool)
    returns (result: StepResult<seq<FolderWithPath>>)
    ensures datacenter.None? ==> result == if showOutcomeForNoResults then NoResults else Done([])
    ensures datacenter.Some? ==> result == Done(SortByPath(Walk(datacenter.value.children, "")))
  {
    if datacenter.Some? {
      var folderList := ListVmFolders(datacenter.value, [], "");
      assert folderList == Walk(datacenter.value.children, "");
      result := Done(SortByPath(folderList));
    } else if showOutcomeForNoResults {
      result := NoResults;
    } else {
      result := Done([]);
    }
  }
}
