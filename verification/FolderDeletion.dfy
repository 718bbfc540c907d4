/** Recursive deletion: which folders and links go, found level by level and in batches. */
module FolderDeletion {
  import opened Common
  import opened FolderTree

  /** Under one of the roots: itself a root or below one. */
  ghost predicate Under(folders: Folders, roots: set<nat>, f: nat) {
    exists k: nat :: Ancestor(folders, f, k).Some? && Ancestor(folders, f, k).value in roots
  }

  lemma UnderChild(folders: Folders, roots: set<nat>, f: nat)
    requires f in folders && Under(folders, roots, folders[f].parent)
    ensures Under(folders, roots, f)
  {
    var k: nat :|
      Ancestor(folders, folders[f].parent, k).Some? && Ancestor(folders, folders[f].parent, k).value in roots;
    AncestorShift(folders, f, k);
  }

  lemma UnderRoot(folders: Folders, roots: set<nat>, f: nat)
    requires f in roots
    ensures Under(folders, roots, f)
  {
    assert Ancestor(folders, f, 0) == Some(f);
  }

  lemma UnderLive(folders: Folders, roots: set<nat>, f: nat)
    requires roots <= folders.Keys && Under(folders, roots, f)
    ensures f in folders
  {
    var k: nat :| Ancestor(folders, f, k).Some? && Ancestor(folders, f, k).value in roots;
    if k > 0 { HeadLive(folders, f, k); }
  }

  /** A set that holds the roots and every child of its members holds everything under the roots. */
  lemma {:induction false} ClosedHoldsUnder(folders: Folders, roots: set<nat>, closed: set<nat>, f: nat, k: nat)
    requires roots <= closed
    requires forall c | c in folders && folders[c].parent in closed :: c in closed
    requires Ancestor(folders, f, k).Some? && Ancestor(folders, f, k).value in roots
    ensures f in closed
    decreases k
  {
    if k == 0 {
    } else {
      HeadLive(folders, f, k);
      AncestorShift(folders, f, k - 1);
      ClosedHoldsUnder(folders, roots, closed, folders[f].parent, k - 1);
    }
  }

  /** Rows whose parent lies in the batch, in row order. */
  function ChildFolders(folders: Folders, batch: set<nat>, n: nat): (ids: seq<nat>)
    ensures forall c: nat :: c in ids <==> c < n && c in folders && folders[c].parent in batch
    ensures Distinct(ids)
  {
    if n == 0 then []
    else
      var ids := ChildFolders(folders, batch, n - 1);
      if n - 1 in folders && folders[n - 1].parent in batch then ids + [n - 1] else ids
  }

  function ChildLinks(links: Links, batch: set<nat>, n: nat): (ids: seq<nat>)
    ensures forall l: nat :: l in ids <==> l < n && l in links && links[l].parent in batch
    ensures Distinct(ids)
  {
    if n == 0 then []
    else
      var ids := ChildLinks(links, batch, n - 1);
      if n - 1 in links && links[n - 1].parent in batch then ids + [n - 1] else ids
  }

  datatype Status = OK | BadRequest | Forbidden | InternalServerError | TooManyRequests

  /** Roots must be distinct live folders of the user with one common parent. */
  predicate ValidRoots(s: Store, roots: seq<nat>, user: nat, admin: bool) {
    && Distinct(roots)
    && (forall i | 0 <= i < |roots| ::
          roots[i] in s.folders && (admin || s.folders[roots[i]].owner == user))
    && (forall i | 0 <= i < |roots| :: s.folders[roots[i]].parent == s.folders[roots[0]].parent)
  }

  /** Everything below the roots is the caller's to delete. */
  ghost predicate MayDelete(s: Store, roots: set<nat>, user: nat, admin: bool) {
    admin || (
      && (forall f | f in s.folders && Under(s.folders, roots, f) :: s.folders[f].owner == user)
      && (forall l | l in s.links && Under(s.folders, roots, s.links[l].parent) :: s.links[l].owner == user))
  }

  /** The folder half of the search: `listed` folders are known, those in `done` are expanded. */
  ghost predicate FolderSearch(s: Store, roots: set<nat>, user: nat, admin: bool,
                               done: set<nat>, listed: seq<nat>, visited: set<nat>)
  {
    && Distinct(listed) && visited == Elements(listed) && visited <= s.folders.Keys
    && roots <= visited
    && (forall f | f in visited :: Under(s.folders, roots, f) && (admin || s.folders[f].owner == user))
    && (forall c | c in s.folders && s.folders[c].parent in done :: c in visited)
  }

  /** The link half: exactly the links of expanded folders, each once. */
  ghost predicate LinkSearch(s: Store, user: nat, admin: bool, done: set<nat>, links: seq<nat>) {
    && Distinct(links)
    && (forall l :: l in links <==> l in s.links && s.links[l].parent in done)
    && (forall l | l in links :: admin || s.links[l].owner == user)
  }

  lemma DistinctAppend(ids: seq<nat>, x: nat)
    requires Distinct(ids) && x !in ids
    ensures Distinct(ids + [x]) && Elements(ids + [x]) == Elements(ids) + {x}
  {
  }

  lemma DistinctJoin(a: seq<nat>, b: seq<nat>)
    requires Distinct(a) && Distinct(b) && forall x | x in b :: x !in a
    ensures Distinct(a + b)
  {
    forall i, k | 0 <= i < k < |a + b| ensures (a + b)[i] != (a + b)[k] {
      if k >= |a| { assert b[k - |a|] in b; }
      if i < |a| { assert a[i] in a; }
    }
  }

  /** Append the batch's links, unless one belongs to somebody else. */
  method CollectLinks(s: Store, user: nat, admin: bool, batch: seq<nat>, ghost done: set<nat>, links: seq<nat>)
    returns (foreign: Option<nat>, more: seq<nat>)
    requires Allocated(s) && LinkSearch(s, user, admin, done, links) && Elements(batch) !! done
    ensures foreign.None? ==> LinkSearch(s, user, admin, done + Elements(batch), more)
    ensures foreign.Some? ==>
      && foreign.value in s.links && s.links[foreign.value].parent in Elements(batch)
      && !admin && s.links[foreign.value].owner != user
  {
    var childLinks := ChildLinks(s.links, Elements(batch), s.nextLink);
    for i := 0 to |childLinks|
      invariant forall k | 0 <= k < i :: admin || s.links[childLinks[k]].owner == user
    {
      assert childLinks[i] in childLinks;
      if !admin && s.links[childLinks[i]].owner != user { return Some(childLinks[i]), []; }
    }
    more := links + childLinks;
    DistinctJoin(links, childLinks);
    foreign := None;
  }

  /** List the batch's unvisited children, unless one belongs to somebody else. */
  method ListChildren(s: Store, ghost roots: set<nat>, user: nat, admin: bool, batch: seq<nat>,
                      ghost done: set<nat>, ghost listed: seq<nat>, visited: set<nat>)
    returns (foreign: Option<nat>, next: seq<nat>, visited': set<nat>)
    requires Allocated(s) && FolderSearch(s, roots, user, admin, done, listed, visited)
    requires Elements(batch) <= visited
    ensures foreign.None? ==> FolderSearch(s, roots, user, admin, done + Elements(batch), listed + next, visited')
    ensures foreign.Some? ==>
      && foreign.value in s.folders && Under(s.folders, roots, foreign.value)
      && !admin && s.folders[foreign.value].owner != user
  {
    hide Under;
    next, visited' := [], visited;
    assert listed + [] == listed;
    var children := ChildFolders(s.folders, Elements(batch), s.nextFolder);
    for i := 0 to |children|
      invariant FolderSearch(s, roots, user, admin, done, listed + next, visited') && visited <= visited'
      invariant forall k | 0 <= k < i :: children[k] in visited'
    {
      var child := children[i];
      assert child in children;
      UnderChild(s.folders, roots, child);
      if !admin && s.folders[child].owner != user { return Some(child), [], visited; }
      if child !in visited' {
        DistinctAppend(listed + next, child);
        assert listed + (next + [child]) == (listed + next) + [child];
        visited' := visited' + {child};
        next := next + [child];
      }
    }
    foreign := None;
  }

  /** The roots as the request names them, each checked in turn. */
  method CheckRoots(s: Store, roots: seq<nat>, user: nat, admin: bool) returns (ok: bool)
    ensures ok <==> ValidRoots(s, roots, user, admin)
  {
    for i := 0 to |roots|
      invariant ValidRoots(s, roots[..i], user, admin)
    {
      var root := roots[i];
      assert roots[..i + 1] == roots[..i] + [root];
      if root in roots[..i] {
        ghost var k :| 0 <= k < i && roots[k] == root;
        return false;
      }
      if root !in s.folders || (!admin && s.folders[root].owner != user) { return false; }
      if i > 0 && s.folders[root].parent != s.folders[roots[0]].parent { return false; }
      DistinctAppend(roots[..i], root);
    }
    assert roots[..|roots|] == roots;
    ok := true;
  }

  /** Expand a whole frontier, batch by batch. */
  method ExpandLevel(s: Store, ghost roots: set<nat>, user: nat, admin: bool, frontier: seq<nat>, batchSize: nat,
                     ghost done: set<nat>, listed: seq<nat>, visited: set<nat>, links: seq<nat>)
    returns (ok: bool, next: seq<nat>, visited': set<nat>, links': seq<nat>)
    requires batchSize > 0 && Allocated(s)
    requires FolderSearch(s, roots, user, admin, done, listed, visited) && LinkSearch(s, user, admin, done, links)
    requires Distinct(frontier) && Elements(frontier) <= visited && Elements(frontier) !! done
    ensures ok ==> FolderSearch(s, roots, user, admin, done + Elements(frontier), listed + next, visited')
                   && LinkSearch(s, user, admin, done + Elements(frontier), links')
    ensures !ok ==> !MayDelete(s, roots, user, admin)
  {
    hide FolderSearch, LinkSearch;
    next, visited', links' := [], visited, links;
    var start := 0;
    assert listed + [] == listed && done + Elements(frontier[..0]) == done;
    while start < |frontier|
      invariant 0 <= start <= |frontier| && visited <= visited'
      invariant FolderSearch(s, roots, user, admin, done + Elements(frontier[..start]), listed + next, visited')
      invariant LinkSearch(s, user, admin, done + Elements(frontier[..start]), links')
    {
      var stop := if start + batchSize < |frontier| then start + batchSize else |frontier|;
      var batch := frontier[start..stop];
      BatchSplit(frontier, start, stop);
      ghost var before := done + Elements(frontier[..start]);
      assert before + Elements(batch) == done + Elements(frontier[..stop]);
      var foreignLink, more := CollectLinks(s, user, admin, batch, before, links');
      if foreignLink.Some? {
        ForeignLink(s, roots, user, admin, before, listed + next, visited', foreignLink.value);
        return false, [], visited, links;
      }
      var foreignFolder, found, seen := ListChildren(s, roots, user, admin, batch, before, listed + next, visited');
      if foreignFolder.Some? { return false, [], visited, links; }
      assert listed + (next + found) == (listed + next) + found;
      VisitedGrows(s, roots, user, admin, before, done + Elements(frontier[..stop]), listed + next, found,
                   visited', seen);
      next, visited', links' := next + found, seen, more;
      start := stop;
    }
    assert frontier[..|frontier|] == frontier;
    ok := true;
  }

  lemma VisitedGrows(s: Store, roots: set<nat>, user: nat, admin: bool, done: set<nat>, done': set<nat>,
                     listed: seq<nat>, found: seq<nat>, visited: set<nat>, visited': set<nat>)
    requires FolderSearch(s, roots, user, admin, done, listed, visited)
    requires FolderSearch(s, roots, user, admin, done', listed + found, visited')
    ensures visited <= visited'
  {
    assert forall x | x in listed :: x in listed + found;
  }

  lemma ForeignLink(s: Store, roots: set<nat>, user: nat, admin: bool, done: set<nat>, listed: seq<nat>,
                    visited: set<nat>, l: nat)
    requires FolderSearch(s, roots, user, admin, done, listed, visited)
    requires l in s.links && s.links[l].parent in visited && !admin && s.links[l].owner != user
    ensures !MayDelete(s, roots, user, admin)
  {
  }

  lemma BatchSplit(frontier: seq<nat>, start: nat, stop: nat)
    requires start <= stop <= |frontier| && Distinct(frontier)
    ensures Elements(frontier[..stop]) == Elements(frontier[..start]) + Elements(frontier[start..stop])
    ensures Elements(frontier[start..stop]) !! Elements(frontier[..start])
    ensures Elements(frontier[start..stop]) <= Elements(frontier)
  {
    assert frontier[..stop] == frontier[..start] + frontier[start..stop];
    forall x | x in frontier[start..stop] ensures x !in frontier[..start] && x in frontier {
      var k :| 0 <= k < stop - start && frontier[start..stop][k] == x;
      assert frontier[start + k] == x;
    }
  }

  /** What a deletion collects: each folder under the roots once, each link in one of them once. */
  ghost predicate Collected(s: Store, roots: set<nat>, folders: seq<nat>, links: seq<nat>) {
    && Distinct(folders) && Distinct(links)
    && (forall f :: f in folders <==> f in s.folders && Under(s.folders, roots, f))
    && (forall l :: l in links <==> l in s.links && Under(s.folders, roots, s.links[l].parent))
  }

  /** Breadth-first collection on any parent graph, cycles included. It succeeds exactly when the
      roots are valid and everything under them is the caller's, and the result does not depend on
      the batch size. */
  method CollectFolderDeletion(s: Store, roots: seq<nat>, user: nat, admin: bool, batchSize: nat)
    returns (status: Status, folders: seq<nat>, links: seq<nat>)
    requires batchSize > 0 && Allocated(s)
    ensures status.OK? <==> ValidRoots(s, roots, user, admin) && MayDelete(s, Elements(roots), user, admin)
    ensures status.OK? ==> Collected(s, Elements(roots), folders, links)
    ensures !ValidRoots(s, roots, user, admin) ==> status.BadRequest?
  {
    hide Under, MayDelete;
    var valid := CheckRoots(s, roots, user, admin);
    if !valid { return BadRequest, [], []; }
    ghost var targets := Elements(roots);
    var visited := Elements(roots);
    var frontier := roots;
    folders, links := [], [];
    StartSearch(s, roots, user, admin);
    ghost var done: set<nat> := {};
    while |frontier| > 0
      invariant FolderSearch(s, targets, user, admin, done, folders + frontier, visited)
      invariant LinkSearch(s, user, admin, done, links)
      invariant done == Elements(folders)
      decreases s.folders.Keys - done
    {
      FrontierFacts(s, targets, user, admin, done, folders, frontier, visited);
      folders := folders + frontier;
      var ok, nextFrontier, seen, found :=
        ExpandLevel(s, targets, user, admin, frontier, batchSize, done, folders, visited, links);
      if !ok { return Forbidden, [], []; }
      hide FolderSearch, LinkSearch;
      done := done + Elements(frontier);
      visited, links, frontier := seen, found, nextFrontier;
    }
    assert folders + frontier == folders;
    SearchComplete(s, targets, user, admin, done, folders, visited, links);
    status := OK;
  }

  lemma StartSearch(s: Store, roots: seq<nat>, user: nat, admin: bool)
    requires ValidRoots(s, roots, user, admin)
    ensures FolderSearch(s, Elements(roots), user, admin, {}, [] + roots, Elements(roots))
    ensures LinkSearch(s, user, admin, {}, [])
  {
    hide Under;
    assert [] + roots == roots;
    forall f | f in Elements(roots)
      ensures Under(s.folders, Elements(roots), f) && f in s.folders && (admin || s.folders[f].owner == user)
    {
      UnderRoot(s.folders, Elements(roots), f);
      var i :| 0 <= i < |roots| && roots[i] == f;
    }
  }

  /** A frontier is listed but not expanded, so expanding it makes progress. */
  lemma FrontierFacts(s: Store, roots: set<nat>, user: nat, admin: bool, done: set<nat>, folders: seq<nat>,
                      frontier: seq<nat>, visited: set<nat>)
    requires FolderSearch(s, roots, user, admin, done, folders + frontier, visited)
    requires done == Elements(folders)
    ensures Distinct(frontier) && Elements(frontier) <= visited && Elements(frontier) !! done
    ensures Elements(folders + frontier) == done + Elements(frontier) <= s.folders.Keys
    ensures frontier != [] ==> frontier[0] in Elements(frontier)
  {
    hide Under;
    var all := folders + frontier;
    assert forall i | 0 <= i < |frontier| :: frontier[i] == all[|folders| + i];
    forall x | x in frontier ensures x !in folders {
      var i :| 0 <= i < |frontier| && frontier[i] == x;
      assert all[|folders| + i] == x;
      assert forall k | 0 <= k < |folders| :: all[k] == folders[k];
    }
  }

  lemma SearchComplete(s: Store, roots: set<nat>, user: nat, admin: bool, done: set<nat>, folders: seq<nat>,
                       visited: set<nat>, links: seq<nat>)
    requires FolderSearch(s, roots, user, admin, done, folders, visited) && LinkSearch(s, user, admin, done, links)
    requires done == Elements(folders) && roots <= s.folders.Keys
    ensures Collected(s, roots, folders, links) && MayDelete(s, roots, user, admin)
  {
    forall f ensures f in done <==> f in s.folders && Under(s.folders, roots, f) {
      if f in s.folders && Under(s.folders, roots, f) {
        var k: nat :| Ancestor(s.folders, f, k).Some? && Ancestor(s.folders, f, k).value in roots;
        ClosedHoldsUnder(s.folders, roots, done, f, k);
      }
    }
    forall l | l in s.links ensures s.links[l].parent in done <==> Under(s.folders, roots, s.links[l].parent) {
      if Under(s.folders, roots, s.links[l].parent) { UnderLive(s.folders, roots, s.links[l].parent); }
    }
    hide Under;
  }

  // ---------------------------------------------------------------- the deletion itself

  ghost function Deleted(s: Store, roots: set<nat>): Store {
    s.(folders := map f | f in s.folders && !Under(s.folders, roots, f) :: s.folders[f],
       links := map l | l in s.links && !Under(s.folders, roots, s.links[l].parent) :: s.links[l])
  }

  /** What remains stands on what remains. */
  lemma {:induction false} RemainingRooted(s: Store, roots: set<nat>, f: nat, n: nat)
    requires Allocated(s) && roots <= s.folders.Keys
    requires RootedIn(s.folders, f, n) && !Under(s.folders, roots, f)
    ensures RootedIn(Deleted(s, roots).folders, f, n)
    decreases n
  {
    if f == 0 {
    } else {
      if Under(s.folders, roots, s.folders[f].parent) { UnderChild(s.folders, roots, f); }
      RemainingRooted(s, roots, s.folders[f].parent, n - 1);
    }
  }

  lemma DeleteKeepsForest(s: Store, roots: set<nat>)
    requires Sound(s) && roots <= s.folders.Keys
    ensures Sound(Deleted(s, roots))
    ensures forall l | l in Deleted(s, roots).links && s.links[l].parent in s.folders ::
              s.links[l].parent in Deleted(s, roots).folders
    ensures Housed(s) ==> Housed(Deleted(s, roots))
  {
    var after := Deleted(s, roots).folders;
    forall f | f in after
      ensures Rooted(after, f)
      ensures after[f].parent != 0 ==> after[f].parent in after && after[after[f].parent].owner == after[f].owner
    {
      var n: nat :| RootedIn(s.folders, f, n);
      RemainingRooted(s, roots, f, n);
      if Under(s.folders, roots, s.folders[f].parent) { UnderChild(s.folders, roots, f); }
    }
  }

  /** What a deletion does to the two tables: the roots go, what stood in a folder that goes goes with it, and
      every other row stays as it was. */
  predicate Emptied(before: Store, after: Store, roots: seq<nat>) {
    && (forall f | f in roots :: f !in after.folders)
    && (forall f | f in before.folders ::
          f !in after.folders
          <==> f in roots || (before.folders[f].parent in before.folders && before.folders[f].parent !in after.folders))
    && (forall l | l in before.links ::
          l !in after.links <==> before.links[l].parent in before.folders && before.links[l].parent !in after.folders)
    && (forall f | f in after.folders :: f in before.folders && after.folders[f] == before.folders[f])
    && (forall l | l in after.links :: l in before.links && after.links[l] == before.links[l])
    && after.nextFolder == before.nextFolder && after.nextLink == before.nextLink
  }

  lemma DeletionEmpties(s: Store, roots: seq<nat>)
    requires Elements(roots) <= s.folders.Keys
    ensures Emptied(s, Deleted(s, Elements(roots)), roots)
  {
    var targets := Elements(roots);
    forall f | f in s.folders
      ensures Under(s.folders, targets, f) <==> f in roots || Under(s.folders, targets, s.folders[f].parent)
    {
      if f in roots { UnderRoot(s.folders, targets, f); }
      if Under(s.folders, targets, s.folders[f].parent) { UnderChild(s.folders, targets, f); }
      if Under(s.folders, targets, f) && f !in roots { UnderParent(s.folders, targets, f); }
    }
    forall x | Under(s.folders, targets, x) ensures x in s.folders { UnderLive(s.folders, targets, x); }
    hide Under;
  }

  lemma UnderParent(folders: Folders, roots: set<nat>, f: nat)
    requires f in folders && f !in roots && Under(folders, roots, f)
    ensures Under(folders, roots, folders[f].parent)
  {
    var k: nat :| Ancestor(folders, f, k).Some? && Ancestor(folders, f, k).value in roots;
    AncestorShift(folders, f, k - 1);
  }

  /** In a forest everything on a parent chain has one owner. */
  lemma {:induction false} ChainOwner(folders: Folders, f: nat, k: nat)
    requires Forest(folders) && Ancestor(folders, f, k).Some? && Ancestor(folders, f, k).value in folders
    ensures f in folders && folders[Ancestor(folders, f, k).value].owner == folders[f].owner
    decreases k
  {
    if k == 0 {
    } else {
      HeadLive(folders, f, k);
      AncestorShift(folders, f, k - 1);
      ChainOwner(folders, folders[f].parent, k - 1);
    }
  }

  /** So whoever owns the roots owns all that goes with them, and the ownership checks on the way never fail. */
  lemma OwnRootsSuffice(s: Store, roots: seq<nat>, user: nat, admin: bool)
    requires Sound(s) && Housed(s) && ValidRoots(s, roots, user, admin)
    ensures MayDelete(s, Elements(roots), user, admin)
  {
    var targets := Elements(roots);
    forall f | Under(s.folders, targets, f) && !admin ensures f in s.folders && s.folders[f].owner == user {
      var k: nat :| Ancestor(s.folders, f, k).Some? && Ancestor(s.folders, f, k).value in targets;
      var i :| 0 <= i < |roots| && roots[i] == Ancestor(s.folders, f, k).value;
      ChainOwner(s.folders, f, k);
    }
    hide Under;
  }
}
