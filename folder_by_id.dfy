/** GetFolderByID: a depth-first search below a datacenter's VM folder for the
    folder with a given ID, returning it with the path the folder listing
    would give it. */
module FolderById {
  import opened Wrappers
  import opened FolderStructure

  /** GetFolder: the first Folder below `children`, in depth-first preorder,
      whose MoRef value is `targetFolderId` (a null target matches nothing).
      The folder whose children are searched is not itself compared. */
  function GetFolder(children: seq<Entity>, targetFolderId: Option<string>, currentPath: string)
    : (r: Option<FolderWithPath>)
    ensures r.Some? ==> targetFolderId == Some(r.value.id)
    decreases children
  {
    if children == [] then None
    else
      var childEntity := children[0];
      if IsFolder(childEntity) then
        var newPath := ChildPath(currentPath, childEntity.name);
        if targetFolderId == Some(childEntity.id) then
          Some(FolderWithPath(childEntity.name, childEntity.id, newPath))
        else
          var result := GetFolder(childEntity.children, targetFolderId, newPath);
          if result.Some? then result
          else GetFolder(children[1..], targetFolderId, currentPath)
      else GetFolder(children[1..], targetFolderId, currentPath)
  }

  /** The first entry of a folder list with the given ID. */
  function FirstWithId(s: seq<FolderWithPath>, targetFolderId: Option<string>): Option<FolderWithPath>
  {
    if s == [] then None
    else if targetFolderId == Some(s[0].id) then Some(s[0])
    else FirstWithId(s[1..], targetFolderId)
  }

  lemma {:induction false} FirstWithIdIsFirst(s: seq<FolderWithPath>, targetFolderId: Option<string>)
    ensures FirstWithId(s, targetFolderId).None? <==>
      forall i :: 0 <= i < |s| ==> targetFolderId != Some(s[i].id)
    ensures FirstWithId(s, targetFolderId).Some? ==>
      exists i :: 0 <= i < |s| && s[i] == FirstWithId(s, targetFolderId).value &&
        targetFolderId == Some(s[i].id) &&
        forall j :: 0 <= j < i ==> targetFolderId != Some(s[j].id)
  {
    if s != [] && targetFolderId != Some(s[0].id) {
      FirstWithIdIsFirst(s[1..], targetFolderId);
      if FirstWithId(s, targetFolderId).Some? {
        var i :| 0 <= i < |s[1..]| && s[1..][i] == FirstWithId(s, targetFolderId).value &&
          targetFolderId == Some(s[1..][i].id) &&
          forall j :: 0 <= j < i ==> targetFolderId != Some(s[1..][j].id);
        assert s[i + 1] == s[1..][i];
        forall j | 0 <= j < i + 1 ensures targetFolderId != Some(s[j].id) {
          if j > 0 { assert s[j] == s[1..][j - 1]; }
        }
      } else {
        forall i | 0 <= i < |s| ensures targetFolderId != Some(s[i].id) {
          if i > 0 { assert s[i] == s[1..][i - 1]; }
        }
      }
    } else if s != [] {
      assert targetFolderId == Some(s[0].id);
    }
  }

  lemma {:induction false} FirstWithIdAppend(a: seq<FolderWithPath>, b: seq<FolderWithPath>,
                                             targetFolderId: Option<string>)
    ensures FirstWithId(a + b, targetFolderId) ==
      if FirstWithId(a, targetFolderId).Some? then FirstWithId(a, targetFolderId)
      else FirstWithId(b, targetFolderId)
  {
    if a == [] {
      assert a + b == b;
    } else {
      assert (a + b)[0] == a[0];
      assert (a + b)[1..] == a[1..] + b;
      FirstWithIdAppend(a[1..], b, targetFolderId);
    }
  }

  /** The search finds exactly the first entry with that ID in the folder
      listing of the same tree, path included. */
  lemma {:induction false} GetFolderIsFirstListed(children: seq<Entity>, targetFolderId: Option<string>,
                                                  currentPath: string)
    ensures GetFolder(children, targetFolderId, currentPath) ==
      FirstWithId(Walk(children, currentPath), targetFolderId)
    decreases children
  {
    if children != [] {
      var c := children[0];
      FirstWithIdAppend(WalkOne(c, currentPath), Walk(children[1..], currentPath), targetFolderId);
      GetFolderIsFirstListed(children[1..], targetFolderId, currentPath);
      if IsFolder(c) {
        var newPath := ChildPath(currentPath, c.name);
        GetFolderIsFirstListed(c.children, targetFolderId, newPath);
        assert ([Entry(c, currentPath)] + Walk(c.children, newPath))[1..] == Walk(c.children, newPath);
      }
    }
  }

  /** Null exactly when no listed folder below the root has the ID; otherwise
      a listed folder with that ID preceded by none. */
  lemma NotFoundIffUnlisted(children: seq<Entity>, targetFolderId: Option<string>)
    ensures var listed := Walk(children, "");
      && (GetFolder(children, targetFolderId, "").None? <==>
            forall f :: f in listed ==> targetFolderId != Some(f.id))
      && (GetFolder(children, targetFolderId, "").Some? ==>
            exists i :: 0 <= i < |listed| && listed[i] == GetFolder(children, targetFolderId, "").value &&
              forall j :: 0 <= j < i ==> targetFolderId != Some(listed[j].id))
  {
    GetFolderIsFirstListed(children, targetFolderId, "");
    FirstWithIdIsFirst(Walk(children, ""), targetFolderId);
  }

  /** GetFolderByID.Run from the datacenter lookup on. `datacenter` is the
      datacenter's VM folder (None when not found); Done(None) stands for the
      FolderWithPath whose fields are all null. */
  method Run(datacenter: Option<Entity>, folderId: Option<string>, showOutcomeForNoResults: bool)
    returns (result: StepResult<Option<FolderWithPath>>)
    ensures datacenter.None? ==> result == if showOutcomeForNoResults then NoResults else Done(None)
    ensures datacenter.Some? ==>
      var found := FirstWithId(Walk(datacenter.value.children, ""), folderId);
      result == if found.None? && showOutcomeForNoResults then NoResults else Done(found)
  {
    var folder: Option<FolderWithPath> := None;
    if datacenter.Some? {
      var found := GetFolder(datacenter.value.children, folderId, "");
      GetFolderIsFirstListed(datacenter.value.children, folderId, "");
      if found.Some? {
        folder := found;
      } else if showOutcomeForNoResults {
        return NoResults;
      }
    } else if showOutcomeForNoResults {
      return NoResults;
    }
    result := Done(folder);
  }
}
