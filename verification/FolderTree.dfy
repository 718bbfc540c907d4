/** The folder tree: parent chains, containment, and what create, move and delete do to it. */
module FolderTree {
  import opened Common

  /** What a folder row and a link row have in common: the folder they are in, and their owner. */
  datatype Row = Row(parent: nat, owner: nat)

  type Folders = map<nat, Row>
  type Links = map<nat, Row>

  // ---------------------------------------------------------------- parent chains

  /** The k-th folder up the parent chain of x; None once the chain has left the live folders. */
  function Ancestor(folders: Folders, x: nat, k: nat): Option<nat> {
    if k == 0 then Some(x)
    else
      match Ancestor(folders, x, k - 1)
      case None => None
      case Some(y) => if y in folders then Some(folders[y].parent) else None
  }

  /** `a` is above x: on its parent chain, at distance one or more. */
  ghost predicate Above(folders: Folders, a: nat, x: nat) {
    exists k: nat :: k >= 1 && Ancestor(folders, x, k) == Some(a)
  }

  /** The chain of x ends at the root within n steps. */
  predicate RootedIn(folders: Folders, x: nat, n: nat)
    decreases n
  {
    x == 0 || (n > 0 && x in folders && RootedIn(folders, folders[x].parent, n - 1))
  }

  ghost predicate Rooted(folders: Folders, x: nat) { exists n: nat :: RootedIn(folders, x, n) }

  /** Every live folder hangs under the root or a live folder of the same owner, and every parent
      chain reaches the root. */
  ghost predicate Forest(folders: Folders) {
    && 0 !in folders
    && (forall f | f in folders :: folders[f].parent != 0 ==>
          folders[f].parent in folders && folders[folders[f].parent].owner == folders[f].owner)
    && (forall f | f in folders :: Rooted(folders, f))
  }

  lemma {:induction false} RootedMore(folders: Folders, x: nat, n: nat, m: nat)
    requires RootedIn(folders, x, n) && n <= m
    ensures RootedIn(folders, x, m)
    decreases n
  {
    if x == 0 {
    } else {
      RootedMore(folders, folders[x].parent, n - 1, m - 1);
    }
  }

  lemma {:induction false} AncestorShift(folders: Folders, x: nat, k: nat)
    requires x in folders
    ensures Ancestor(folders, x, k + 1) == Ancestor(folders, folders[x].parent, k)
  {
    if k == 0 {
    } else {
      AncestorShift(folders, x, k - 1);
    }
  }

  /** Equal points of a chain continue equally. */
  lemma {:induction false} ChainRepeats(folders: Folders, x: nat, i: nat, k: nat, n: nat)
    requires Ancestor(folders, x, i) == Ancestor(folders, x, k)
    ensures Ancestor(folders, x, i + n) == Ancestor(folders, x, k + n)
  {
    if n == 0 {
    } else {
      ChainRepeats(folders, x, i, k, n - 1);
    }
  }

  /** On a chain that has come back to an earlier point everything has been seen already. */
  lemma {:induction false} CycleSeen(folders: Folders, x: nat, i: nat, k: nat, n: nat)
    requires i < k && Ancestor(folders, x, i) == Ancestor(folders, x, k)
    requires 1 <= n
    ensures exists m: nat :: 1 <= m <= k && Ancestor(folders, x, n) == Ancestor(folders, x, m)
    decreases n
  {
    if n <= k {
    } else {
      ChainRepeats(folders, x, i, k, n - k);
      CycleSeen(folders, x, i, k, n - (k - i));
    }
  }

  /** A chain that has ended or left the live folders does not continue. */
  lemma {:induction false} ChainEnds(folders: Folders, x: nat, k: nat, n: nat)
    requires Ancestor(folders, x, k).Some? && Ancestor(folders, x, k).value !in folders
    requires n > k
    ensures Ancestor(folders, x, n) == None
  {
    if n == k + 1 {
    } else {
      ChainEnds(folders, x, k, n - 1);
    }
  }

  /** A chain whose k-th point is the root is rooted. */
  lemma {:induction false} ReachesRoot(folders: Folders, x: nat, k: nat)
    requires Ancestor(folders, x, k) == Some(0)
    ensures RootedIn(folders, x, k)
    decreases k
  {
    if k == 0 || x == 0 {
    } else {
      HeadLive(folders, x, k);
      AncestorShift(folders, x, k - 1);
      ReachesRoot(folders, folders[x].parent, k - 1);
    }
  }

  lemma {:induction false} HeadLive(folders: Folders, x: nat, k: nat)
    requires k > 0 && Ancestor(folders, x, k).Some?
    ensures x in folders
  {
    if k == 1 {
    } else {
      HeadLive(folders, x, k - 1);
    }
  }

  /** A rooted chain has the root on it, and nothing live stays on it for ever. */
  lemma {:induction false} RootedChain(folders: Folders, x: nat, n: nat)
    requires RootedIn(folders, x, n) && 0 !in folders
    ensures exists k: nat :: k <= n && Ancestor(folders, x, k) == Some(0)
    decreases n
  {
    if x == 0 {
      assert Ancestor(folders, x, 0) == Some(0);
    } else {
      RootedChain(folders, folders[x].parent, n - 1);
      var k: nat :| k <= n - 1 && Ancestor(folders, folders[x].parent, k) == Some(0);
      AncestorShift(folders, x, k);
    }
  }

  /** The root is met at most at one distance, so a chain through a missing folder is not rooted. */
  lemma MissingNotRooted(folders: Folders, x: nat, k: nat)
    requires 0 !in folders
    requires forall i: nat :: i < k ==> Ancestor(folders, x, i).Some? && Ancestor(folders, x, i).value in folders
    requires Ancestor(folders, x, k).Some? && Ancestor(folders, x, k).value !in folders
    requires Ancestor(folders, x, k).value != 0
    ensures !Rooted(folders, x)
  {
    if n: nat :| RootedIn(folders, x, n) {
      RootedChain(folders, x, n);
      var m: nat :| m <= n && Ancestor(folders, x, m) == Some(0);
      if m > k { ChainEnds(folders, x, k, m); }
    }
  }

  lemma CycleNotRooted(folders: Folders, x: nat, i: nat, k: nat)
    requires 0 !in folders && i < k && Ancestor(folders, x, i) == Ancestor(folders, x, k)
    requires forall j: nat :: j < k ==> Ancestor(folders, x, j).Some? && Ancestor(folders, x, j).value in folders
    ensures !Rooted(folders, x)
  {
    if n: nat :| RootedIn(folders, x, n) {
      RootedChain(folders, x, n);
      var m: nat :| m <= n && Ancestor(folders, x, m) == Some(0);
      if m >= 1 { CycleSeen(folders, x, i, k, m); }
    }
  }

  datatype Containment = Contains | Apart | Cyclic | Missing

  /** Walk up from `searching` looking for `folder`. On any parent graph whatever the walk says
      yes exactly when the folder is above; the other answers say how the chain ends. */
  method FolderContainsFolder(folders: Folders, folder: nat, searching: nat) returns (answer: Containment)
    requires 0 !in folders
    ensures answer.Contains? <==> Above(folders, folder, searching) && searching != 0
    ensures answer.Apart? ==> Rooted(folders, searching)
    ensures answer.Missing? ==> !Rooted(folders, searching)
    ensures answer.Cyclic? ==> !Rooted(folders, searching)
  {
    var visited: set<nat> := {};
    var current := searching;
    ghost var k := 0;
    while current > 0
      invariant Ancestor(folders, searching, k) == Some(current)
      invariant visited <= folders.Keys
      invariant forall v :: v in visited ==> exists i: nat :: i < k && Ancestor(folders, searching, i) == Some(v)
      invariant forall i: nat :: 1 <= i <= k ==> Ancestor(folders, searching, i) != Some(folder)
      invariant forall i: nat :: i < k ==>
        Ancestor(folders, searching, i).Some? && Ancestor(folders, searching, i).value in folders
      invariant searching == 0 ==> k == 0
      decreases folders.Keys - visited
    {
      if current in visited {
        ghost var i: nat :| i < k && Ancestor(folders, searching, i) == Some(current);
        forall n: nat | n >= 1 ensures Ancestor(folders, searching, n) != Some(folder) {
          CycleSeen(folders, searching, i, k, n);
        }
        CycleNotRooted(folders, searching, i, k);
        return Cyclic;
      }
      visited := visited + {current};
      if current !in folders {
        forall n: nat | n > k ensures Ancestor(folders, searching, n) != Some(folder) {
          ChainEnds(folders, searching, k, n);
        }
        MissingNotRooted(folders, searching, k);
        return Missing;
      }
      assert Ancestor(folders, searching, k + 1) == Some(folders[current].parent);
      if folders[current].parent == folder { return Contains; }
      current := folders[current].parent;
      k := k + 1;
    }
    forall n: nat | n > k ensures Ancestor(folders, searching, n) != Some(folder) {
      ChainEnds(folders, searching, k, n);
    }
    ReachesRoot(folders, searching, k);
    return Apart;
  }

  // ---------------------------------------------------------------- the three operations

  /** Both tables, and the next identifier of each. */
  datatype Store = Store(folders: Folders, links: Links, nextFolder: nat, nextLink: nat)

  /** Identifiers of live rows have been handed out; the next ones have not. */
  predicate Allocated(s: Store) {
    && 0 < s.nextFolder && 0 !in s.folders && (forall f | f in s.folders :: f < s.nextFolder)
    && 0 < s.nextLink && 0 !in s.links && (forall l | l in s.links :: l < s.nextLink)
  }

  /** Every live link is in the root or in a live folder of its owner. */
  predicate Housed(s: Store) {
    forall l | l in s.links :: ValidDestination(s.folders, s.links[l].parent, s.links[l].owner)
  }

  ghost predicate Sound(s: Store) { Allocated(s) && Forest(s.folders) }

  function WithFolder(s: Store, parent: nat, owner: nat): Store {
    s.(folders := s.folders[s.nextFolder := Row(parent, owner)], nextFolder := s.nextFolder + 1)
  }

  function WithLink(s: Store, parent: nat, owner: nat): Store {
    s.(links := s.links[s.nextLink := Row(parent, owner)], nextLink := s.nextLink + 1)
  }

  /** The destination is the root or a live folder of the user. */
  predicate ValidDestination(folders: Folders, parent: nat, user: nat) {
    parent == 0 || (parent in folders && folders[parent].owner == user)
  }

  function Reparent(rows: map<nat, Row>, moved: set<nat>, target: nat): map<nat, Row> {
    map x | x in rows :: if x in moved then rows[x].(parent := target) else rows[x]
  }

  /** What the whole selection is checked against before anything moves: only the old tree. */
  ghost predicate MayMove(s: Store, user: nat, admin: bool, target: nat, folders: seq<nat>, links: seq<nat>) {
    && folders + links != []
    && (target > 0 ==> target in s.folders && (admin || s.folders[target].owner == user))
    && (forall f | f in folders ::
          && f != target && f in s.folders && (admin || s.folders[f].owner == user)
          && (target > 0 ==> s.folders[f].owner == s.folders[target].owner
                             && !Above(s.folders, f, target) && Rooted(s.folders, target)))
    && (forall l | l in links ::
          && l in s.links && (admin || s.links[l].owner == user)
          && (target > 0 ==> s.links[l].owner == s.folders[target].owner))
  }

  function Elements(ids: seq<nat>): set<nat> { set x | x in ids }

  function Moved(s: Store, target: nat, folders: seq<nat>, links: seq<nat>): Store {
    s.(folders := Reparent(s.folders, Elements(folders), target),
       links := Reparent(s.links, Elements(links), target))
  }

  // ---------------------------------------------------------------- moving keeps the forest

  /** A chain that meets no moved folder is the same in both trees. */
  lemma {:induction false} UnmovedRooted(folders: Folders, moved: set<nat>, target: nat, x: nat, n: nat)
    requires RootedIn(folders, x, n)
    requires x !in moved && forall m | m in moved :: !Above(folders, m, x)
    ensures RootedIn(Reparent(folders, moved, target), x, n)
    decreases n
  {
    if x == 0 {
    } else {
      var p := folders[x].parent;
      assert Ancestor(folders, x, 0) == Some(x);
      assert Ancestor(folders, x, 1) == Some(p);
      assert p !in moved;
      forall m | m in moved ensures !Above(folders, m, p) {
        if k: nat :| k >= 1 && Ancestor(folders, p, k) == Some(m) {
          AncestorShift(folders, x, k);
          assert Above(folders, m, x);
        }
      }
      UnmovedRooted(folders, moved, target, p, n - 1);
    }
  }

  /** Any old chain, cut at the first moved folder, continues along the target's. */
  lemma {:induction false} MovedRooted(folders: Folders, moved: set<nat>, target: nat, x: nat, n: nat, d: nat)
    requires RootedIn(folders, x, n)
    requires RootedIn(Reparent(folders, moved, target), target, d)
    ensures RootedIn(Reparent(folders, moved, target), x, n + d)
    decreases n
  {
    var after := Reparent(folders, moved, target);
    if x == 0 {
    } else {
      if x in moved {
        RootedMore(after, target, d, n + d - 1);
      } else {
        MovedRooted(folders, moved, target, folders[x].parent, n - 1, d);
      }
    }
  }

  /** However many folders one call moves, checking each against the old tree is enough. */
  lemma MoveKeepsForest(s: Store, user: nat, admin: bool, target: nat, folders: seq<nat>, links: seq<nat>)
    requires Sound(s) && MayMove(s, user, admin, target, folders, links)
    ensures Sound(Moved(s, target, folders, links))
    ensures Housed(s) ==> Housed(Moved(s, target, folders, links))
  {
    var moved := Elements(folders);
    var after := Reparent(s.folders, moved, target);
    assert exists d: nat :: RootedIn(after, target, d) by {
      if target == 0 {
        assert RootedIn(after, 0, 0);
      } else {
        var n: nat :| RootedIn(s.folders, target, n);
        UnmovedRooted(s.folders, moved, target, target, n);
      }
    }
    forall f | f in after ensures Rooted(after, f) {
      var d: nat :| RootedIn(after, target, d);
      var n: nat :| RootedIn(s.folders, f, n);
      MovedRooted(s.folders, moved, target, f, n, d);
    }
  }

  /** What a move does to a table: the named rows are in the target, the others are as they were. */
  predicate Gathered(before: map<nat, Row>, after: map<nat, Row>, ids: seq<nat>, target: nat) {
    && after.Keys == before.Keys
    && (forall x | x in ids :: x in after && after[x].parent == target && after[x].owner == before[x].owner)
    && (forall x | x in before && x !in ids :: after[x] == before[x])
  }

  lemma MoveGathers(rows: map<nat, Row>, ids: seq<nat>, target: nat)
    requires forall x | x in ids :: x in rows
    ensures Gathered(rows, Reparent(rows, Elements(ids), target), ids, target)
  {
  }

  lemma TargetAbove(rows: map<nat, Row>, ids: seq<nat>, target: nat, x: nat)
    requires x in ids && x in rows && rows[x].parent == target
    ensures Above(rows, target, x)
  {
    assert Ancestor(rows, x, 0) == Some(x);
    assert Ancestor(rows, x, 1) == Some(target);
  }

  /** Below a moved folder every chain leads to the target. */
  lemma {:induction false} LeadsToTarget(folders: Folders, moved: set<nat>, target: nat, x: nat, k: nat, n: nat)
    requires 0 !in folders && Ancestor(folders, x, k).Some? && Ancestor(folders, x, k).value in moved
    requires moved <= folders.Keys && RootedIn(Reparent(folders, moved, target), x, n)
    ensures n > 0 && exists m: nat :: m < n && RootedIn(Reparent(folders, moved, target), target, m)
    decreases k
  {
    if x in moved {
      assert RootedIn(Reparent(folders, moved, target), target, n - 1);
    } else {
      HeadLive(folders, x, k);
      AncestorShift(folders, x, k - 1);
      LeadsToTarget(folders, moved, target, folders[x].parent, k - 1, n - 1);
    }
  }

  /** So a target at or below a moved folder is cut off from the root. */
  lemma {:induction false} CutOff(folders: Folders, moved: set<nat>, target: nat, k: nat, n: nat)
    requires 0 !in folders && Ancestor(folders, target, k).Some? && Ancestor(folders, target, k).value in moved
    requires moved <= folders.Keys
    ensures !RootedIn(Reparent(folders, moved, target), target, n)
    decreases n
  {
    if RootedIn(Reparent(folders, moved, target), target, n) {
      LeadsToTarget(folders, moved, target, target, k, n);
      var m: nat :| m < n && RootedIn(Reparent(folders, moved, target), target, m);
      CutOff(folders, moved, target, k, m);
    }
  }

  /** The caller may touch the whole selection and the target. */
  predicate MayTouch(s: Store, user: nat, admin: bool, target: nat, folders: seq<nat>, links: seq<nat>) {
    && folders + links != []
    && (target > 0 ==> target in s.folders && (admin || s.folders[target].owner == user))
    && (forall f | f in folders :: f in s.folders && (admin || s.folders[f].owner == user))
    && (forall l | l in links :: l in s.links && (admin || s.links[l].owner == user))
  }

  /** Rights aside, a move is refused exactly when it would break the forest or a link's housing. */
  lemma MoveExact(s: Store, user: nat, admin: bool, target: nat, folders: seq<nat>, links: seq<nat>)
    requires Sound(s) && Housed(s) && MayTouch(s, user, admin, target, folders, links)
    ensures MayMove(s, user, admin, target, folders, links)
       <==> Sound(Moved(s, target, folders, links)) && Housed(Moved(s, target, folders, links))
  {
    var after := Moved(s, target, folders, links);
    if MayMove(s, user, admin, target, folders, links) {
      MoveKeepsForest(s, user, admin, target, folders, links);
    } else if Sound(after) && Housed(after) {
      SoundMoveAllowed(s, target, folders, links);
      assert false;
    }
  }

  lemma SoundMoveAllowed(s: Store, target: nat, folders: seq<nat>, links: seq<nat>)
    requires Sound(s) && (target > 0 ==> target in s.folders)
    requires (forall f | f in folders :: f in s.folders) && (forall l | l in links :: l in s.links)
    requires Sound(Moved(s, target, folders, links)) && Housed(Moved(s, target, folders, links))
    ensures target > 0 ==>
              && (forall f | f in folders ::
                    && f != target && s.folders[f].owner == s.folders[target].owner
                    && !Above(s.folders, f, target) && Rooted(s.folders, target))
              && (forall l | l in links :: s.links[l].owner == s.folders[target].owner)
  {
    var after := Moved(s, target, folders, links);
    if target > 0 {
      MoveGathers(s.folders, folders, target);
      MoveGathers(s.links, links, target);
      forall f | f in folders
        ensures f != target && s.folders[f].owner == s.folders[target].owner && !Above(s.folders, f, target)
      {
        assert after.folders[f].parent == target;
        var n: nat :| RootedIn(after.folders, target, n);
        if k: nat :| Ancestor(s.folders, target, k) == Some(f) {
          CutOff(s.folders, Elements(folders), target, k, n);
        }
        assert Ancestor(s.folders, target, 0) == Some(target);
      }
      forall l | l in links ensures s.links[l].owner == s.folders[target].owner {
        assert after.links[l].parent == target;
      }
    }
  }
}
