/** Cache generations: promotions carry the file version they read, invalidation moves the version on. */
module CacheGenerations {
  import opened Common
  import opened CacheTable

  datatype File = File(version: nat, deleted: bool)

  /** The file and version a promotion was started with; it may be tried any number of times. */
  datatype Ticket = Ticket(file: nat, version: nat)

  datatype State = State(files: map<nat, File>, rows: Rows, tickets: seq<Ticket>)

  datatype Action =
    | AddFile(file: nat)
    | DeleteFile(file: nat)
    | Open(file: nat)
    | Commit(ticket: nat, entry: Entry)
    | Invalidate(file: nat)
    | Cutover(file: nat)
    | Drop(id: nat)
    | Touch(id: nat, at: int)

  predicate LiveFile(files: map<nat, File>, file: nat) { file in files && !files[file].deleted }

  function Bumped(files: map<nat, File>, file: nat): map<nat, File> {
    if file in files then files[file := files[file].(version := files[file].version + 1)] else files
  }

  /** All entries of the file deleted. */
  function WithoutFile(rows: Rows, file: nat): Rows {
    seq(|rows|, i requires 0 <= i < |rows| => if rows[i].file == file then rows[i].(live := false) else rows[i])
  }

  /** The transaction of a promotion: the file must still exist with the version read before. */
  predicate Current(files: map<nat, File>, file: nat, version: nat) {
    LiveFile(files, file) && files[file].version == version
  }

  function Step(s: State, a: Action): State {
    match a
    case AddFile(file) => if file == 0 || file in s.files then s else s.(files := s.files[file := File(0, false)])
    case DeleteFile(file) =>
      if file in s.files then s.(files := s.files[file := s.files[file].(deleted := true)]) else s
    case Open(file) =>
      if LiveFile(s.files, file) then s.(tickets := s.tickets + [Ticket(file, s.files[file].version)]) else s
    case Commit(ticket, entry) =>
      if ticket >= |s.tickets| then s
      else
        var t := s.tickets[ticket];
        if Current(s.files, t.file, t.version) then
          s.(rows := Upsert(s.rows, entry.(file := t.file, version := t.version, live := true)))
        else s
    case Invalidate(file) =>
      if file == 0 then s else s.(files := Bumped(s.files, file), rows := WithoutFile(s.rows, file))
    case Cutover(file) => if LiveFile(s.files, file) then s.(files := Bumped(s.files, file)) else s
    case Drop(id) => if id < |s.rows| then s.(rows := Removed(s.rows, id)) else s
    case Touch(id, at) => if id < |s.rows| then s.(rows := s.rows[id := s.rows[id].(accessed := at)]) else s
  }

  function Run(s: State, actions: seq<Action>): State {
    if actions == [] then s else Step(Run(s, actions[..|actions| - 1]), actions[|actions| - 1])
  }

  const INITIAL := State(map[], [], [])

  ghost predicate Reachable(s: State) { exists actions :: s == Run(INITIAL, actions) }

  /** The entry is one that a lookup for its key may serve. */
  predicate Served(s: State, id: nat) {
    id < |s.rows| && s.rows[id].live && Current(s.files, s.rows[id].file, s.rows[id].version)
  }

  function Lookup(s: State, key: Key): Option<nat> {
    match Find(s.rows, key)
    case None => None
    case Some(id) => if Served(s, id) then Some(id) else None
  }

  // ---------------------------------------------------------------- invariants

  predicate KnownVersion(files: map<nat, File>, file: nat, version: nat) {
    file in files && version <= files[file].version
  }

  /** Versions in tickets and entries are the file's, now or earlier; every entry has its ticket. */
  ghost predicate Inv(s: State) {
    && (forall i | 0 <= i < |s.tickets| :: KnownVersion(s.files, s.tickets[i].file, s.tickets[i].version))
    && (forall i | 0 <= i < |s.rows| :: KnownVersion(s.files, s.rows[i].file, s.rows[i].version))
    && (forall i | 0 <= i < |s.rows| :: Promoted(s, i))
    && KeysUnique(s.rows)
  }

  /** A ticket for what the row says. */
  ghost predicate Promoted(s: State, id: nat)
    requires id < |s.rows|
  {
    exists k :: 0 <= k < |s.tickets| && s.tickets[k] == Ticket(s.rows[id].file, s.rows[id].version)
  }

  lemma PromotedStep(s: State, a: Action, i: nat)
    requires Inv(s) && i < |Step(s, a).rows|
    ensures Promoted(Step(s, a), i)
  {
    var next := Step(s, a);
    if a.Commit? && a.ticket < |s.tickets| {
      var t := s.tickets[a.ticket];
      UpsertShape(s.rows, a.entry.(file := t.file, version := t.version, live := true));
    }
    if i < |s.rows| && s.rows[i].file == next.rows[i].file && s.rows[i].version == next.rows[i].version {
      assert Promoted(s, i);
      var k :| 0 <= k < |s.tickets| && s.tickets[k] == Ticket(s.rows[i].file, s.rows[i].version);
      assert next.tickets[k] == s.tickets[k];
    }
  }

  lemma StepKeeps(s: State, a: Action)
    requires Inv(s)
    ensures Inv(Step(s, a))
    ensures forall file | file in s.files ::
              file in Step(s, a).files && s.files[file].version <= Step(s, a).files[file].version
    ensures s.tickets <= Step(s, a).tickets
  {
    if a.Commit? && a.ticket < |s.tickets| {
      var t := s.tickets[a.ticket];
      UpsertShape(s.rows, a.entry.(file := t.file, version := t.version, live := true));
    }
    forall i | 0 <= i < |Step(s, a).rows| ensures Promoted(Step(s, a), i) { PromotedStep(s, a, i); }
  }

  /** Along every run versions only grow and tickets stay. */
  lemma {:induction false} RunKeeps(s: State, actions: seq<Action>)
    requires Inv(s)
    ensures Inv(Run(s, actions))
    ensures forall file | file in s.files ::
              file in Run(s, actions).files && s.files[file].version <= Run(s, actions).files[file].version
    ensures s.tickets <= Run(s, actions).tickets
  {
    hide Inv, Step;
    if actions == [] {
    } else {
      RunKeeps(s, actions[..|actions| - 1]);
      StepKeeps(Run(s, actions[..|actions| - 1]), actions[|actions| - 1]);
    }
  }

  lemma ReachableInv(s: State)
    requires Reachable(s)
    ensures Inv(s)
  {
    var actions :| s == Run(INITIAL, actions);
    RunKeeps(INITIAL, actions);
  }

  // ---------------------------------------------------------------- freshness

  /** Moves the version of the file on. */
  predicate Bumps(s: State, a: Action, file: nat) {
    (a == Invalidate(file) && file != 0 && file in s.files) || (a == Cutover(file) && LiveFile(s.files, file))
  }

  /** A promotion that read its version before the file's version moved on never gets an entry in
      afterwards, however often it is tried. */
  lemma StalePromotion(s: State, a: Action, actions: seq<Action>, ticket: nat, entry: Entry)
    requires Inv(s) && ticket < |s.tickets| && Bumps(s, a, s.tickets[ticket].file)
    ensures var now := Run(Step(s, a), actions);
      Step(now, Commit(ticket, entry)) == now
  {
    StepKeeps(s, a);
    RunKeeps(Step(s, a), actions);
  }

  /** What is served after the version moved on was promoted with a version read since. */
  lemma ServedSince(s: State, a: Action, actions: seq<Action>, id: nat)
    requires Inv(s)
    requires Served(Run(Step(s, a), actions), id) && Bumps(s, a, Run(Step(s, a), actions).rows[id].file)
    ensures var now := Run(Step(s, a), actions);
      exists k :: |s.tickets| <= k < |now.tickets|
        && now.tickets[k] == Ticket(now.rows[id].file, now.rows[id].version)
  {
    StepKeeps(s, a);
    RunKeeps(Step(s, a), actions);
    var now := Run(Step(s, a), actions);
    assert Promoted(now, id);
    forall k | 0 <= k < |s.tickets|
      ensures now.tickets[k].file == now.rows[id].file ==> now.tickets[k].version < now.rows[id].version
    {
      assert now.tickets[k] == s.tickets[k];
      assert KnownVersion(s.files, s.tickets[k].file, s.tickets[k].version);
    }
  }

  /** Every live entry of the file carries its current version. */
  predicate AllFresh(s: State, file: nat) {
    forall i | 0 <= i < |s.rows| && s.rows[i].live && s.rows[i].file == file ::
      file in s.files && s.rows[i].version == s.files[file].version
  }

  lemma FreshStep(s: State, a: Action, file: nat)
    requires Inv(s) && a != Cutover(file) && (AllFresh(s, file) || (a == Invalidate(file) && file != 0))
    ensures AllFresh(Step(s, a), file)
  {
    if a.Commit? && a.ticket < |s.tickets| {
      var t := s.tickets[a.ticket];
      UpsertShape(s.rows, a.entry.(file := t.file, version := t.version, live := true));
    }
  }

  /** From an invalidation on, and from the start, the live entries of a file stay fresh until the file
      is cut over to another mount. */
  lemma {:induction false} FreshRun(s: State, actions: seq<Action>, file: nat)
    requires Inv(s) && AllFresh(s, file) && Cutover(file) !in actions
    ensures AllFresh(Run(s, actions), file)
  {
    hide Inv, Step, AllFresh;
    if actions == [] {
    } else {
      var n := |actions| - 1;
      assert actions[n] in actions;
      FreshRun(s, actions[..n], file);
      RunKeeps(s, actions[..n]);
      FreshStep(Run(s, actions[..n]), actions[n], file);
    }
  }

  lemma FreshSinceInvalidation(s: State, actions: seq<Action>, file: nat)
    requires Inv(s) && file != 0 && Cutover(file) !in actions
    ensures AllFresh(Run(Step(s, Invalidate(file)), actions), file)
  {
    FreshStep(s, Invalidate(file), file);
    StepKeeps(s, Invalidate(file));
    FreshRun(Step(s, Invalidate(file)), actions, file);
  }

  /** The cutover moves the version on without deleting entries: freshness survives it exactly when no
      entry has been promoted since the invalidation before it. */
  lemma CutoverFresh(s: State, file: nat)
    requires AllFresh(s, file) && LiveFile(s.files, file)
    ensures AllFresh(Step(s, Cutover(file)), file)
        <==> forall i | 0 <= i < |s.rows| :: !(s.rows[i].live && s.rows[i].file == file)
  {
    var next := Step(s, Cutover(file));
    assert next.files[file].version == s.files[file].version + 1;
    if i :| 0 <= i < |s.rows| && s.rows[i].live && s.rows[i].file == file {
      assert next.rows[i].live && next.rows[i].version != next.files[file].version;
    }
  }

  lemma {:induction false} ReachableStep(s: State, a: Action)
    requires Reachable(s)
    ensures Reachable(Step(s, a))
  {
    var actions :| s == Run(INITIAL, actions);
    assert (actions + [a])[..|actions|] == actions;
    assert Step(s, a) == Run(INITIAL, actions + [a]);
  }

  /** An entry that slipped in there stays live with an old version, but is not served. */
  lemma CutoverLeavesStale(e: Entry) returns (s: State)
    ensures Reachable(s) && |s.rows| == 1 && !AllFresh(s, s.rows[0].file)
    ensures s.rows[0].live && !Served(s, 0)
  {
    s := INITIAL;
    assert s == Run(INITIAL, []);
    ReachableStep(s, AddFile(1));
    s := Step(s, AddFile(1));
    ReachableStep(s, Invalidate(1));
    s := Step(s, Invalidate(1));
    ReachableStep(s, Open(1));
    s := Step(s, Open(1));
    ReachableStep(s, Commit(0, e));
    s := Step(s, Commit(0, e));
    assert s.rows == [e.(file := 1, version := 1, live := true)];
    ReachableStep(s, Cutover(1));
    s := Step(s, Cutover(1));
  }

  // ---------------------------------------------------------------- a drop that comes later than its lookup

  /** The step writes the row of this key as a promotion. */
  predicate CommitsKey(s: State, a: Action, key: Key) {
    && a.Commit? && a.entry.key == key && a.ticket < |s.tickets|
    && Current(s.files, s.tickets[a.ticket].file, s.tickets[a.ticket].version)
  }

  /** The same entry, whenever last read, and live or not. */
  predicate SameEntry(a: Entry, b: Entry) { a.(accessed := 0, live := true) == b.(accessed := 0, live := true) }

  lemma RowStays(s: State, a: Action, id: nat)
    requires KeysUnique(s.rows) && id < |s.rows| && !CommitsKey(s, a, s.rows[id].key)
    ensures id < |Step(s, a).rows| && SameEntry(Step(s, a).rows[id], s.rows[id])
  {
    if a.Commit? && a.ticket < |s.tickets| {
      var t := s.tickets[a.ticket];
      FindExact(s.rows, a.entry.key);
      UpsertShape(s.rows, a.entry.(file := t.file, version := t.version, live := true));
    }
  }

  /** A row looked up is still the same entry when it is dropped, after any run without a promotion of its
      key. */
  lemma {:induction false} DropsWhatWasFound(s: State, actions: seq<Action>, id: nat)
    requires Inv(s) && id < |s.rows|
    requires forall i | 0 <= i < |actions| :: !CommitsKey(Run(s, actions[..i]), actions[i], s.rows[id].key)
    ensures id < |Run(s, actions).rows| && SameEntry(Run(s, actions).rows[id], s.rows[id])
  {
    hide Step, CommitsKey;
    if actions == [] {
    } else {
      var front, last := actions[..|actions| - 1], actions[|actions| - 1];
      forall i | 0 <= i < |front| ensures !CommitsKey(Run(s, front[..i]), front[i], s.rows[id].key) {
        assert front[..i] == actions[..i];
      }
      DropsWhatWasFound(s, front, id);
      RunKeeps(s, front);
      assert actions[..|front|] == front;
      RowStays(Run(s, front), last, id);
    }
  }

  /** A promotion of the key in between is what the drop hits: its entry, current as it is, is gone. */
  lemma LateDrop(s: State, a: Action, id: nat)
    requires Inv(s) && id < |s.rows| && CommitsKey(s, a, s.rows[id].key)
    ensures Lookup(Step(s, a), s.rows[id].key) == Some(id)
    ensures Lookup(Step(Step(s, a), Drop(id)), s.rows[id].key) == None
  {
    var t := s.tickets[a.ticket];
    var e := a.entry.(file := t.file, version := t.version, live := true);
    FindExact(s.rows, e.key);
    UpsertShape(s.rows, e);
    StepKeeps(s, a);
    FindExact(Step(s, a).rows, e.key);
    FindExact(Step(Step(s, a), Drop(id)).rows, e.key);
  }

  /** A lookup finds exactly the entry that may be served for its key. */
  lemma LookupExact(s: State, key: Key, id: nat)
    requires KeysUnique(s.rows)
    ensures Lookup(s, key) == Some(id) <==> Served(s, id) && s.rows[id].key == key
  {
    FindExact(s.rows, key);
  }

  /** A promotion whose ticket is current is what its key is served from then on. */
  lemma PromotionServed(s: State, ticket: nat, entry: Entry)
    requires Inv(s) && ticket < |s.tickets| && Current(s.files, s.tickets[ticket].file, s.tickets[ticket].version)
    ensures var (t, next) := (s.tickets[ticket], Step(s, Commit(ticket, entry)));
      var found := Lookup(next, entry.key);
      && found.Some? && found.value < |next.rows|
      && next.rows[found.value] == entry.(file := t.file, version := t.version, live := true)
      && Written(s.rows, next.rows, next.rows[found.value])
  {
    var t := s.tickets[ticket];
    var e := entry.(file := t.file, version := t.version, live := true);
    UpsertWrites(s.rows, e);
    UpsertShape(s.rows, e);
    StepKeeps(s, Commit(ticket, entry));
    var next := Step(s, Commit(ticket, entry));
    assert exists i :: 0 <= i < |next.rows| && next.rows[i] == e by {
      match Find(s.rows, e.key)
      case None => assert next.rows[|s.rows|] == e;
      case Some(id) => assert next.rows[id] == e;
    }
    FindExact(next.rows, entry.key);
  }

  /** The step can take this entry out of service. */
  predicate Ends(s: State, a: Action, id: nat)
    requires id < |s.rows|
  {
    || a == Invalidate(s.rows[id].file) || a == Cutover(s.rows[id].file) || a == DeleteFile(s.rows[id].file)
    || a == Drop(id) || CommitsKey(s, a, s.rows[id].key)
  }

  lemma ServedStep(s: State, a: Action, id: nat)
    requires Inv(s) && Served(s, id) && !Ends(s, a, id)
    ensures Served(Step(s, a), id) && SameEntry(Step(s, a).rows[id], s.rows[id])
  {
    RowStays(s, a, id);
    if a.Commit? && a.ticket < |s.tickets| {
      var t := s.tickets[a.ticket];
      FindExact(s.rows, a.entry.key);
      UpsertShape(s.rows, a.entry.(file := t.file, version := t.version, live := true));
    }
  }

  /** Over any run an entry in service stays in service, unchanged, unless its own file is invalidated, cut over
      or deleted, it is dropped itself, or its key is promoted again. */
  lemma {:induction false} ServedUntil(s: State, actions: seq<Action>, id: nat)
    requires Inv(s) && Served(s, id)
    requires forall i | 0 <= i < |actions| ::
               id < |Run(s, actions[..i]).rows| && Run(s, actions[..i]).rows[id].file == s.rows[id].file ==>
                 !Ends(Run(s, actions[..i]), actions[i], id)
    ensures Served(Run(s, actions), id) && SameEntry(Run(s, actions).rows[id], s.rows[id])
  {
    hide Step, Ends, Inv;
    if actions == [] {
    } else {
      var front, last := actions[..|actions| - 1], actions[|actions| - 1];
      forall i | 0 <= i < |front| ensures front[..i] == actions[..i] && front[i] == actions[i] {}
      ServedUntil(s, front, id);
      RunKeeps(s, front);
      assert actions[..|front|] == front;
      ServedStep(Run(s, front), last, id);
    }
  }
}
