/** The folder service: create, move and delete as transactions on one store, the creation of links beside
    them, and every run of all four. */
module FolderService {
  import opened Common
  import opened FolderTree
  import opened FolderDeletion

  // ---------------------------------------------------------------- the transactions as steps

  datatype Request =
    | Create(parent: nat, user: nat)
    | Upload(parent: nat, user: nat)
    | Move(user: nat, target: nat, folders: seq<nat>, links: seq<nat>, admin: bool)
    | Delete(roots: seq<nat>, user: nat, admin: bool, limit: nat)

  ghost predicate Granted(s: Store, request: Request) {
    match request
    case Create(parent, user) => ValidDestination(s.folders, parent, user)
    case Upload(parent, user) => ValidDestination(s.folders, parent, user)
    case Move(user, target, folders, links, admin) => MayMove(s, user, admin, target, folders, links)
    case Delete(roots, user, admin, limit) =>
      0 < |roots| <= limit && ValidRoots(s, roots, user, admin) && MayDelete(s, Elements(roots), user, admin)
  }

  ghost function Apply(s: Store, request: Request): Store {
    if !Granted(s, request) then s
    else
      match request
      case Create(parent, user) => WithFolder(s, parent, user)
      case Upload(parent, user) => WithLink(s, parent, user)
      case Move(_, target, folders, links, _) => Moved(s, target, folders, links)
      case Delete(roots, _, _, _) => Deleted(s, Elements(roots))
  }

  ghost function Run(s: Store, requests: seq<Request>): Store {
    if requests == [] then s else Apply(Run(s, requests[..|requests| - 1]), requests[|requests| - 1])
  }

  lemma {:induction false} CreateRooted(s: Store, parent: nat, user: nat, f: nat, n: nat)
    requires Allocated(s) && RootedIn(s.folders, f, n)
    ensures RootedIn(WithFolder(s, parent, user).folders, f, n)
    decreases n
  {
    if f == 0 {
    } else {
      CreateRooted(s, parent, user, s.folders[f].parent, n - 1);
    }
  }

  lemma CreateKeepsForest(s: Store, parent: nat, user: nat)
    requires Sound(s) && ValidDestination(s.folders, parent, user)
    ensures Sound(WithFolder(s, parent, user))
    ensures Housed(s) ==> Housed(WithFolder(s, parent, user))
  {
    var after := WithFolder(s, parent, user).folders;
    forall f | f in after ensures Rooted(after, f) {
      if f == s.nextFolder {
        if parent == 0 {
          assert RootedIn(after, f, 1);
        } else {
          var n: nat :| RootedIn(s.folders, parent, n);
          CreateRooted(s, parent, user, parent, n);
          assert RootedIn(after, f, n + 1);
        }
      } else {
        var n: nat :| RootedIn(s.folders, f, n);
        CreateRooted(s, parent, user, f, n);
      }
    }
  }

  /** Over every run of requests, granted or refused, of any users: each live folder and each live link
      hangs under the root or a live folder of its own owner, and no folder is ever cut off from the root. */
  lemma {:induction false} ForestForever(s: Store, requests: seq<Request>)
    requires Sound(s)
    ensures Sound(Run(s, requests))
    ensures Housed(s) ==> Housed(Run(s, requests))
  {
    if requests == [] {
    } else {
      var front, last := requests[..|requests| - 1], requests[|requests| - 1];
      ForestForever(s, front);
      var mid := Run(s, front);
      if Granted(mid, last) {
        match last
        case Create(parent, user) => CreateKeepsForest(mid, parent, user);
        case Upload(parent, user) =>
        case Move(user, target, folders, links, admin) => MoveKeepsForest(mid, user, admin, target, folders, links);
        case Delete(roots, user, admin, limit) => DeleteKeepsForest(mid, Elements(roots));
      }
    }
  }

  /** The rows of one owner. */
  function Owned(rows: map<nat, Row>, owner: nat): map<nat, Row> {
    map x | x in rows && rows[x].owner == owner :: rows[x]
  }

  /** The request is neither an administrator's nor this user's. */
  predicate Foreign(request: Request, user: nat) {
    match request
    case Create(_, caller) => caller != user
    case Upload(_, caller) => caller != user
    case Move(caller, _, _, _, admin) => caller != user && !admin
    case Delete(_, caller, admin, _) => caller != user && !admin
  }

  lemma OthersStep(s: Store, request: Request, user: nat)
    requires Allocated(s) && Foreign(request, user)
    ensures Owned(Apply(s, request).folders, user) == Owned(s.folders, user)
    ensures Owned(Apply(s, request).links, user) == Owned(s.links, user)
  {
    hide Under, Above, Rooted;
  }

  /** Over any run of requests of other users, none of them an administrator, a user's folders and links are
      exactly what and where they were. */
  lemma {:induction false} OthersUntouched(s: Store, requests: seq<Request>, user: nat)
    requires Sound(s) && forall i | 0 <= i < |requests| :: Foreign(requests[i], user)
    ensures Owned(Run(s, requests).folders, user) == Owned(s.folders, user)
    ensures Owned(Run(s, requests).links, user) == Owned(s.links, user)
  {
    if requests == [] {
    } else {
      var front, last := requests[..|requests| - 1], requests[|requests| - 1];
      OthersUntouched(s, front, user);
      ForestForever(s, front);
      OthersStep(Run(s, front), last, user);
    }
  }

  lemma SetSize(ids: seq<nat>)
    requires Distinct(ids)
    ensures |Elements(ids)| == |ids|
  {
    if ids == [] {
    } else {
      var front, last := ids[..|ids| - 1], ids[|ids| - 1];
      SetSize(front);
      assert ids == front + [last];
      assert last !in front;
      assert Elements(ids) == Elements(front) + {last};
    }
  }

  // ---------------------------------------------------------------- the service

  const DELETION_BATCH_SIZE: nat := 500

  class FolderService {
    var folders: Folders
    var links: Links
    var nextFolder: nat
    var nextLink: nat

    ghost function State(): Store
      reads this
    {
      Store(folders, links, nextFolder, nextLink)
    }

    constructor ()
      ensures State() == Store(map[], map[], 1, 1) && Sound(State()) && Housed(State())
    {
      folders, links, nextFolder, nextLink := map[], map[], 1, 1;
    }

    method CreateFolder(parent: nat, user: nat) returns (status: Status, id: nat)
      requires Allocated(State())
      modifies this
      ensures status.OK? <==> Granted(old(State()), Create(parent, user))
      ensures status.OK? <==> parent == 0 || (parent in old(folders) && old(folders)[parent].owner == user)
      ensures State() == Apply(old(State()), Create(parent, user))
      ensures status.OK? ==> id !in old(folders) && folders == old(folders)[id := Row(parent, user)]
      ensures links == old(links) && (!status.OK? ==> folders == old(folders))
    {
      if parent != 0 && (parent !in folders || folders[parent].owner != user) { return BadRequest, 0; }
      id := nextFolder;
      folders := folders[nextFolder := Row(parent, user)];
      nextFolder := nextFolder + 1;
      status := OK;
    }

    /** The transaction at the end of an upload, a clone or a remote fetch: the link is created where its
        user may put it. */
    method CreateLink(parent: nat, user: nat) returns (status: Status, id: nat)
      requires Allocated(State())
      modifies this
      ensures status.OK? <==> Granted(old(State()), Upload(parent, user))
      ensures status.OK? <==> parent == 0 || (parent in old(folders) && old(folders)[parent].owner == user)
      ensures State() == Apply(old(State()), Upload(parent, user))
      ensures status.OK? ==> id !in old(links) && links == old(links)[id := Row(parent, user)]
      ensures folders == old(folders) && (!status.OK? ==> links == old(links))
    {
      if parent != 0 && (parent !in folders || folders[parent].owner != user) { return BadRequest, 0; }
      id := nextLink;
      links := links[nextLink := Row(parent, user)];
      nextLink := nextLink + 1;
      status := OK;
    }

    /** Validate the whole selection against the tree as it is, then move it row by row. */
    method MoveItems(user: nat, target: nat, folderIds: seq<nat>, linkIds: seq<nat>, admin: bool)
      returns (status: Status)
      requires Allocated(State())
      modifies this
      ensures status.OK? <==> Granted(old(State()), Move(user, target, folderIds, linkIds, admin))
      ensures State() == Apply(old(State()), Move(user, target, folderIds, linkIds, admin))
      ensures status.OK? ==> Gathered(old(folders), folders, folderIds, target)
      ensures status.OK? ==> Gathered(old(links), links, linkIds, target)
      ensures status.OK? ==> forall f | f in folderIds :: Above(folders, target, f)
      ensures !status.OK? ==> folders == old(folders) && links == old(links)
    {
      hide Above, Rooted;
      if |folderIds| == 0 && |linkIds| == 0 { return BadRequest; }
      if target > 0 && (target !in folders || (!admin && folders[target].owner != user)) { return BadRequest; }
      status := ValidateFolders(user, target, folderIds, admin);
      if status != OK { return; }
      status := ValidateLinks(user, target, linkIds, admin);
      if status != OK { return; }
      assert folderIds + linkIds != [];
      MoveGathers(folders, folderIds, target);
      MoveGathers(links, linkIds, target);
      folders := MoveRows(folders, folderIds, target);
      links := MoveRows(links, linkIds, target);
      forall f | f in folderIds ensures Above(folders, target, f) { TargetAbove(folders, folderIds, target, f); }
    }

    method ValidateFolders(user: nat, target: nat, folderIds: seq<nat>, admin: bool) returns (status: Status)
      requires Allocated(State())
      requires target > 0 ==> target in folders
      ensures status.OK? <==> forall f | f in folderIds ::
                && f != target && f in folders && (admin || folders[f].owner == user)
                && (target > 0 ==> folders[f].owner == folders[target].owner
                                   && !Above(folders, f, target) && Rooted(folders, target))
    {
      hide Above, Rooted;
      for i := 0 to |folderIds|
        invariant forall k | 0 <= k < i ::
                    && folderIds[k] != target && folderIds[k] in folders
                    && (admin || folders[folderIds[k]].owner == user)
                    && (target > 0 ==> folders[folderIds[k]].owner == folders[target].owner
                                       && !Above(folders, folderIds[k], target) && Rooted(folders, target))
      {
        var folderId := folderIds[i];
        assert folderId in folderIds;
        if folderId == target { return BadRequest; }
        if folderId !in folders || (!admin && folders[folderId].owner != user) { return BadRequest; }
        if target > 0 && folders[folderId].owner != folders[target].owner { return BadRequest; }
        if target > 0 {
          var answer := FolderContainsFolder(folders, folderId, target);
          if answer.Cyclic? || answer.Missing? { return InternalServerError; }
          if answer.Contains? { return BadRequest; }
        }
      }
      status := OK;
    }

    method ValidateLinks(user: nat, target: nat, linkIds: seq<nat>, admin: bool) returns (status: Status)
      requires target > 0 ==> target in folders
      ensures status.OK? <==> forall l | l in linkIds ::
                && l in links && (admin || links[l].owner == user)
                && (target > 0 ==> links[l].owner == folders[target].owner)
    {
      for i := 0 to |linkIds|
        invariant forall k | 0 <= k < i ::
                    && linkIds[k] in links && (admin || links[linkIds[k]].owner == user)
                    && (target > 0 ==> links[linkIds[k]].owner == folders[target].owner)
      {
        var linkId := linkIds[i];
        assert linkId in linkIds;
        if linkId !in links || (!admin && links[linkId].owner != user) { return BadRequest; }
        if target > 0 && links[linkId].owner != folders[target].owner { return BadRequest; }
      }
      status := OK;
    }

    /** Collect, then delete links, then folders; nothing changes unless all of it succeeds, and a
        deletion that got past the collection always does. */
    method DeleteFolders(roots: seq<nat>, user: nat, admin: bool, limit: nat) returns (status: Status)
      requires Allocated(State())
      modifies this
      ensures status.OK? <==> Granted(old(State()), Delete(roots, user, admin, limit))
      ensures State() == Apply(old(State()), Delete(roots, user, admin, limit))
      ensures Sound(old(State())) && Housed(old(State())) ==>
                (status.OK? <==> 0 < |roots| <= limit && Siblings(old(folders), roots, user, admin))
      ensures if status.OK? then Emptied(old(State()), State(), roots) else State() == old(State())
    {
      SiblingsExact(State(), roots, user, admin);
      if Sound(State()) && Housed(State()) && ValidRoots(State(), roots, user, admin) {
        OwnRootsSuffice(State(), roots, user, admin);
      }
      hide Under;
      if |roots| == 0 { return BadRequest; }
      if |roots| > limit { return BadRequest; }
      var collection, doomed, doomedLinks :=
        CollectFolderDeletion(Store(folders, links, nextFolder, nextLink), roots, user, admin, DELETION_BATCH_SIZE);
      if collection != OK { return collection; }
      CollectedOwned(State(), Elements(roots), user, admin, doomed, doomedLinks);
      status, links := DeleteRows(links, doomedLinks, user, admin);
      status, folders := DeleteRows(folders, doomed, user, admin);
      assert folders == Deleted(old(State()), Elements(roots)).folders;
      assert links == Deleted(old(State()), Elements(roots)).links;
      DeletionEmpties(old(State()), roots);
    }
  }

  /** Rewrite the parent of each named row, one after the other. */
  method MoveRows(rows: map<nat, Row>, ids: seq<nat>, target: nat) returns (moved: map<nat, Row>)
    requires forall x | x in ids :: x in rows
    ensures moved == Reparent(rows, Elements(ids), target)
  {
    moved := rows;
    for i := 0 to |ids|
      invariant moved == Reparent(rows, Elements(ids[..i]), target)
    {
      assert ids[i] in ids;
      assert Elements(ids[..i + 1]) == Elements(ids[..i]) + {ids[i]};
      moved := moved[ids[i] := moved[ids[i]].(parent := target)];
    }
    assert ids[..|ids|] == ids;
  }

  /** Delete the named rows in batches; each batch must match as many rows as it names. */
  method DeleteRows(rows: map<nat, Row>, ids: seq<nat>, user: nat, admin: bool)
    returns (status: Status, rest: map<nat, Row>)
    requires Distinct(ids)
    ensures status.OK? <==> forall x | x in ids :: x in rows && (admin || rows[x].owner == user)
    ensures status.OK? ==> rest == rows - Elements(ids)
  {
    var start := 0;
    rest := rows;
    assert rows - Elements(ids[..0]) == rows;
    while start < |ids|
      invariant 0 <= start <= |ids|
      invariant rest == rows - Elements(ids[..start])
      invariant forall x | x in ids[..start] :: x in rows && (admin || rows[x].owner == user)
    {
      var stop := if start + DELETION_BATCH_SIZE < |ids| then start + DELETION_BATCH_SIZE else |ids|;
      BatchSplit(ids, start, stop);
      DistinctSlice(ids, start, stop);
      var matched, remaining := DeleteBatch(rest, ids[start..stop], user, admin);
      hide Distinct;
      if matched != stop - start {
        ghost var x :| x in ids[start..stop] && !(x in rest && (admin || rest[x].owner == user));
        assert x in Elements(ids[start..stop]) && x in Elements(ids);
        return Forbidden, rows;
      }
      BatchRest(rows, rest, ids, start, stop);
      assert forall x | x in ids[..stop] :: x in Elements(ids[..stop]);
      rest := remaining;
      start := stop;
    }
    assert ids[..|ids|] == ids;
    status := OK;
  }

  /** Different live folders that stand side by side and are the caller's. */
  predicate Siblings(folders: Folders, roots: seq<nat>, user: nat, admin: bool) {
    && (forall i, k | 0 <= i < k < |roots| :: roots[i] != roots[k])
    && (forall r | r in roots :: r in folders && (admin || folders[r].owner == user))
    && (forall r, q | r in roots && q in roots :: folders[r].parent == folders[q].parent)
  }

  lemma SiblingsExact(s: Store, roots: seq<nat>, user: nat, admin: bool)
    ensures Siblings(s.folders, roots, user, admin) <==> ValidRoots(s, roots, user, admin)
  {
    if Siblings(s.folders, roots, user, admin) {
      assert forall i | 0 <= i < |roots| :: roots[i] in roots;
    }
  }

  lemma BatchRest(rows: map<nat, Row>, rest: map<nat, Row>, ids: seq<nat>, start: nat, stop: nat)
    requires start <= stop <= |ids| && Distinct(ids)
    requires rest == rows - Elements(ids[..start])
    ensures rest - Elements(ids[start..stop]) == rows - Elements(ids[..stop])
  {
    BatchSplit(ids, start, stop);
    hide Distinct, Elements;
  }

  /** One statement: the rows it matches go, and it reports their number. */
  method DeleteBatch(rows: map<nat, Row>, batch: seq<nat>, user: nat, admin: bool)
    returns (affected: nat, rest: map<nat, Row>)
    requires Distinct(batch)
    ensures affected == |batch| <==> forall x | x in batch :: x in rows && (admin || rows[x].owner == user)
    ensures affected == |batch| ==> rest == rows - Elements(batch)
  {
    var matched := set x | x in batch && x in rows && (admin || rows[x].owner == user);
    MatchAll(batch, matched);
    affected := |matched|;
    rest := rows - matched;
    hide Distinct;
    if matched == Elements(batch) {
      assert forall x | x in batch :: x in matched;
    }
  }

  lemma DistinctSlice(ids: seq<nat>, start: nat, stop: nat)
    requires start <= stop <= |ids| && Distinct(ids)
    ensures Distinct(ids[start..stop])
  {
  }

  /** As many matched rows as ids means every id matched. */
  lemma MatchAll(batch: seq<nat>, matched: set<nat>)
    requires Distinct(batch) && matched <= Elements(batch)
    ensures |matched| == |batch| <==> matched == Elements(batch)
  {
    SetSize(batch);
    if matched != Elements(batch) {
      var rest := Elements(batch) - matched;
      assert Elements(batch) == matched + rest;
    }
  }

  lemma CollectedOwned(s: Store, roots: set<nat>, user: nat, admin: bool, folders: seq<nat>, links: seq<nat>)
    requires Collected(s, roots, folders, links) && MayDelete(s, roots, user, admin)
    ensures forall f | f in folders :: f in s.folders && (admin || s.folders[f].owner == user)
    ensures forall l | l in links :: l in s.links && (admin || s.links[l].owner == user)
  {
  }
}
