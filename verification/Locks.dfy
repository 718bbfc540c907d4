/** The keyed lock table under concurrent callers, each making one call at a time: retain the entry,
    lock it, and later unlock it and give the entry back. */
module Locks {
  import opened Names
  import opened LockKeys

  datatype Mode = Read | Write

  datatype Call = ReadLock(id: string) | WriteLock(id: string) | ReadLocks(ids: seq<string>)

  /** Where a caller is: about to retain its next key or, with all keys held, back in its own code;
      blocked on an entry's lock; releasing from the last key down; unlocked but still counted. */
  datatype Phase = Idle | Entering | Waiting(entry: nat) | Leaving | Dropping(entry: nat)

  /** `held[i]` is the entry locked for `keys[i]`. */
  datatype Caller = Caller(mode: Mode, keys: seq<string>, held: seq<nat>, phase: Phase)

  /** The lock map, and the reference counts of the entries; an entry's number stands for its address,
      and `next` is the address of the next one created. */
  datatype Table = Table(locks: map<string, nat>, refs: map<nat, int>, next: nat)

  datatype State = State(callers: seq<Caller>, table: Table)

  datatype Action =
    | Begin(t: nat, call: Call)
    | Retain(t: nat)
    | Acquire(t: nat)
    | Leave(t: nat)
    | Unlock(t: nat)
    | Release(t: nat)
    | End(t: nat)

  // ---------------------------------------------------------------- the table

  function Refs(table: Table, entry: nat): int { if entry in table.refs then table.refs[entry] else 0 }

  /** The entry for a key: the one in the map, or a new one. */
  function EntryFor(table: Table, key: string): nat {
    if key in table.locks then table.locks[key] else table.next
  }

  function RetainEntry(table: Table, key: string): Table {
    var entry := EntryFor(table, key);
    Table(table.locks[key := entry], table.refs[entry := Refs(table, entry) + 1],
          if key in table.locks then table.next else table.next + 1)
  }

  function ReleaseEntry(table: Table, key: string, entry: nat): Table {
    var left := Refs(table, entry) - 1;
    table.(locks := if left == 0 && key in table.locks && table.locks[key] == entry then table.locks - {key}
                    else table.locks,
           refs := table.refs[entry := left])
  }

  // ---------------------------------------------------------------- the steps

  function KeysOf(call: Call): seq<string> {
    match call
    case ReadLock(id) => [id]
    case WriteLock(id) => [id]
    case ReadLocks(ids) => UniqueKeys(ids)
  }

  function ModeOf(call: Call): Mode { if call.WriteLock? then Write else Read }

  predicate Holds(c: Caller, entry: nat) { entry in c.held }

  /** The caller counts in the entry's references. */
  predicate Retains(c: Caller, entry: nat) {
    Holds(c, entry) || ((c.phase.Waiting? || c.phase.Dropping?) && c.phase.entry == entry)
  }

  /** A reader gets in unless a writer is in; a writer gets in when nobody is. */
  predicate Admits(callers: seq<Caller>, mode: Mode, entry: nat) {
    forall u | 0 <= u < |callers| :: Holds(callers[u], entry) ==> mode.Read? && callers[u].mode.Read?
  }

  predicate Enabled(s: State, a: Action) {
    && a.t < |s.callers|
    && var c := s.callers[a.t];
      match a
      case Begin(_, _) => c.phase.Idle?
      case Retain(_) => c.phase.Entering? && |c.held| < |c.keys|
      case Acquire(_) => c.phase.Waiting? && Admits(s.callers, c.mode, c.phase.entry)
      case Leave(_) => c.phase.Entering? && |c.held| >= |c.keys|
      case Unlock(_) => c.phase.Leaving? && c.held != []
      case Release(_) => c.phase.Dropping? && |c.held| < |c.keys|
      case End(_) => c.phase.Leaving? && c.held == []
  }

  function NextCaller(s: State, a: Action): Caller
    requires Enabled(s, a)
  {
    var c := s.callers[a.t];
    match a
    case Begin(_, call) => Caller(ModeOf(call), KeysOf(call), [], Entering)
    case Retain(_) => c.(phase := Waiting(EntryFor(s.table, c.keys[|c.held|])))
    case Acquire(_) => c.(held := c.held + [c.phase.entry], phase := Entering)
    case Leave(_) => c.(phase := Leaving)
    case Unlock(_) => c.(held := c.held[..|c.held| - 1], phase := Dropping(c.held[|c.held| - 1]))
    case Release(_) => c.(phase := Leaving)
    case End(_) => c.(keys := [], phase := Idle)
  }

  function NextTable(s: State, a: Action): Table
    requires Enabled(s, a)
  {
    var c := s.callers[a.t];
    match a
    case Retain(_) => RetainEntry(s.table, c.keys[|c.held|])
    case Release(_) => ReleaseEntry(s.table, c.keys[|c.held|], c.phase.entry)
    case _ => s.table
  }

  function Step(s: State, a: Action): State
    requires Enabled(s, a)
  {
    State(s.callers[a.t := NextCaller(s, a)], NextTable(s, a))
  }

  /** A run: actions that are not possible when they come up do nothing. */
  function Run(s: State, actions: seq<Action>): State {
    if actions == [] then s
    else
      var before := Run(s, actions[..|actions| - 1]);
      var a := actions[|actions| - 1];
      if Enabled(before, a) then Step(before, a) else before
  }

  function Initial(n: nat): State { State(seq(n, _ => Caller(Read, [], [], Idle)), Table(map[], map[], 0)) }

  ghost predicate Reachable(s: State) {
    exists n, actions :: s == Run(Initial(n), actions)
  }

  // ---------------------------------------------------------------- the invariant

  /** Everything a caller holds, waits for or still counts in is the map's entry for that key. */
  predicate CallerOk(locks: map<string, nat>, c: Caller) {
    && Ascending(c.keys) && |c.held| <= |c.keys|
    && (c.phase.Idle? ==> c.keys == [])
    && (forall i | 0 <= i < |c.held| :: c.keys[i] in locks && locks[c.keys[i]] == c.held[i])
    && (c.phase.Waiting? || c.phase.Dropping? ==>
          |c.held| < |c.keys| && c.keys[|c.held|] in locks && locks[c.keys[|c.held|]] == c.phase.entry)
  }

  function Retainers(callers: seq<Caller>, entry: nat): set<nat> {
    set t | 0 <= t < |callers| && Retains(callers[t], entry)
  }

  ghost predicate Listed(locks: map<string, nat>, entry: nat) { exists k :: k in locks && locks[k] == entry }

  ghost predicate TableOk(callers: seq<Caller>, table: Table) {
    && (forall k | k in table.locks :: table.locks[k] < table.next)
    && (forall j, k | j in table.locks && k in table.locks && j != k :: table.locks[j] != table.locks[k])
    && (forall e: nat :: Refs(table, e) == |Retainers(callers, e)|)
    && (forall e: nat :: Refs(table, e) > 0 <==> Listed(table.locks, e))
  }

  /** A writer is alone on its entry. */
  ghost predicate Exclusive(callers: seq<Caller>) {
    forall t, u, e | 0 <= t < |callers| && 0 <= u < |callers| && t != u && Holds(callers[t], e) && Holds(callers[u], e)
      :: callers[t].mode.Read?
  }

  ghost predicate Inv(s: State) {
    && (forall t | 0 <= t < |s.callers| :: CallerOk(s.table.locks, s.callers[t]))
    && TableOk(s.callers, s.table)
    && Exclusive(s.callers)
  }

  lemma KeysAscend(call: Call)
    ensures Ascending(KeysOf(call))
  {
    if call.ReadLocks? { UniqueKeysExact(call.ids); }
  }

  lemma HeldOnce(locks: map<string, nat>, c: Caller, i: nat, j: nat)
    requires CallerOk(locks, c) && i < j < |c.keys|
    ensures c.keys[i] != c.keys[j]
  {
    BelowTotal(c.keys[i], c.keys[j]);
  }

  /** A caller's next key is not one it has already. */
  lemma NextNotHeld(s: State, c: Caller)
    requires CallerOk(s.table.locks, c) && TableOk(s.callers, s.table)
    requires |c.held| < |c.keys| && c.keys[|c.held|] in s.table.locks
    ensures !Holds(c, s.table.locks[c.keys[|c.held|]])
  {
    forall i | 0 <= i < |c.held| ensures c.held[i] != s.table.locks[c.keys[|c.held|]] {
      HeldOnce(s.table.locks, c, i, |c.held|);
    }
  }

  lemma RetainersStep(callers: seq<Caller>, t: nat, c: Caller, e: nat)
    requires t < |callers|
    ensures Retains(c, e) == Retains(callers[t], e) ==> Retainers(callers[t := c], e) == Retainers(callers, e)
    ensures |Retainers(callers[t := c], e)| == |Retainers(callers, e)|
         + (if Retains(c, e) then 1 else 0) - (if Retains(callers[t], e) then 1 else 0)
  {
    var rest := Retainers(callers, e) - {t};
    assert Retainers(callers, e) == if Retains(callers[t], e) then rest + {t} else rest;
    assert Retainers(callers[t := c], e) == if Retains(c, e) then rest + {t} else rest;
  }

  /** An entry that is retained is in the map. */
  lemma RetainedListed(s: State, t: nat, e: nat)
    requires Inv(s) && t < |s.callers| && Retains(s.callers[t], e)
    ensures Refs(s.table, e) >= 1 && Listed(s.table.locks, e)
  {
    assert t in Retainers(s.callers, e);
  }

  /** Steps that leave the table alone and retain what they retained. */
  lemma QuietKeeps(s: State, a: Action)
    requires Inv(s) && Enabled(s, a) && !a.Retain? && !a.Release?
    ensures TableOk(Step(s, a).callers, Step(s, a).table)
    ensures forall t | 0 <= t < |s.callers| :: CallerOk(s.table.locks, Step(s, a).callers[t])
  {
    var c := NextCaller(s, a);
    if a.Begin? { KeysAscend(a.call); }
    forall t | 0 <= t < |s.callers| ensures CallerOk(s.table.locks, Step(s, a).callers[t]) {
      assert CallerOk(s.table.locks, s.callers[t]);
    }
    QuietRetains(s, a);
    hide CallerOk, Exclusive, Retains, NextCaller, Enabled;
    forall e: nat ensures Retainers(Step(s, a).callers, e) == Retainers(s.callers, e) {
      RetainersStep(s.callers, a.t, c, e);
    }
  }

  /** Such a step retains what the caller retained. */
  lemma QuietRetains(s: State, a: Action)
    requires Enabled(s, a) && !a.Retain? && !a.Release?
    requires CallerOk(s.table.locks, s.callers[a.t])
    ensures forall e :: Retains(NextCaller(s, a), e) == Retains(s.callers[a.t], e)
  {
    if a.Unlock? {
      var held := s.callers[a.t].held;
      assert held == held[..|held| - 1] + [held[|held| - 1]];
    }
  }

  lemma RetainCallers(s: State, a: Action)
    requires Inv(s) && Enabled(s, a) && a.Retain?
    ensures forall t | 0 <= t < |s.callers| :: CallerOk(Step(s, a).table.locks, Step(s, a).callers[t])
  {
    forall t | 0 <= t < |s.callers| ensures CallerOk(Step(s, a).table.locks, Step(s, a).callers[t]) {
      assert CallerOk(s.table.locks, s.callers[t]);
    }
  }

  lemma RetainKeeps(s: State, a: Action)
    requires Inv(s) && Enabled(s, a) && a.Retain?
    ensures TableOk(Step(s, a).callers, Step(s, a).table)
  {
    var c, next := s.callers[a.t], NextCaller(s, a);
    var key := c.keys[|c.held|];
    var entry := EntryFor(s.table, key);
    assert !Retains(c, entry) by {
      if key in s.table.locks { NextNotHeld(s, c); }
      if key !in s.table.locks && Retains(c, entry) { RetainedListed(s, a.t, entry); }
    }
    forall e: nat
      ensures |Retainers(Step(s, a).callers, e)| == |Retainers(s.callers, e)| + if e == entry then 1 else 0
    {
      RetainersStep(s.callers, a.t, next, e);
    }
    forall e: nat ensures Listed(RetainEntry(s.table, key).locks, e) <==> Listed(s.table.locks, e) || e == entry {
      RetainListed(s.table, key, e);
    }
  }

  lemma RetainListed(table: Table, key: string, e: nat)
    ensures Listed(RetainEntry(table, key).locks, e) <==> Listed(table.locks, e) || e == EntryFor(table, key)
  {
    var locks := RetainEntry(table, key).locks;
    assert key in locks;
    if Listed(table.locks, e) {
      var k :| k in table.locks && table.locks[k] == e;
      assert k in locks;
    }
  }

  lemma ReleaseCallers(s: State, a: Action)
    requires Inv(s) && Enabled(s, a) && a.Release?
    ensures forall t | 0 <= t < |s.callers| :: CallerOk(Step(s, a).table.locks, Step(s, a).callers[t])
  {
    var locks := Step(s, a).table.locks;
    forall t | 0 <= t < |s.callers| ensures CallerOk(locks, Step(s, a).callers[t]) {
      if t != a.t && locks != s.table.locks { LastGone(s, a, t); }
      if t == a.t { NextNotHeld(s, s.callers[t]); }
    }
  }

  lemma ReleaseKeeps(s: State, a: Action)
    requires Inv(s) && Enabled(s, a) && a.Release?
    ensures TableOk(Step(s, a).callers, Step(s, a).table)
  {
    var c, next := s.callers[a.t], NextCaller(s, a);
    var key, entry := c.keys[|c.held|], c.phase.entry;
    assert !Retains(next, entry) by { NextNotHeld(s, c); }
    forall e: nat
      ensures |Retainers(Step(s, a).callers, e)| == |Retainers(s.callers, e)| - if e == entry then 1 else 0
    {
      RetainersStep(s.callers, a.t, next, e);
    }
    var locks := Step(s, a).table.locks;
    forall e: nat ensures Refs(Step(s, a).table, e) > 0 <==> Listed(locks, e) {
      assert s.table.locks[key] == entry;
      if Listed(s.table.locks, e) && e != entry {
        var k :| k in s.table.locks && s.table.locks[k] == e;
        assert k in locks;
      }
    }
  }

  /** When the last reference goes, no other caller is on the key. */
  lemma LastGone(s: State, a: Action, t: nat)
    requires Inv(s) && Enabled(s, a) && a.Release? && t < |s.callers| && t != a.t
    requires Refs(s.table, s.callers[a.t].phase.entry) == 1
    ensures !Retains(s.callers[t], s.callers[a.t].phase.entry)
  {
    var entry := s.callers[a.t].phase.entry;
    var all := Retainers(s.callers, entry);
    assert a.t in all;
    assert |all - {a.t}| == 0 && t !in all - {a.t};
  }

  /** What a caller holds after a step it held before, unless the step has just admitted it. */
  lemma HoldsBefore(s: State, a: Action, t: nat, e: nat)
    requires Enabled(s, a) && t < |s.callers| && Holds(Step(s, a).callers[t], e)
    ensures s.callers[t].mode == Step(s, a).callers[t].mode || a.Begin?
    ensures Holds(s.callers[t], e) || (a == Acquire(t) && s.callers[t].phase.entry == e)
    ensures a.Begin? ==> a.t != t
  {
  }

  lemma ExclusiveKeeps(s: State, a: Action)
    requires Inv(s) && Enabled(s, a)
    ensures Exclusive(Step(s, a).callers)
  {
    var callers := Step(s, a).callers;
    forall t, u, e |
      0 <= t < |callers| && 0 <= u < |callers| && t != u && Holds(callers[t], e) && Holds(callers[u], e)
      ensures callers[t].mode.Read?
    {
      HoldsBefore(s, a, t, e);
      HoldsBefore(s, a, u, e);
    }
  }

  lemma StepKeeps(s: State, a: Action)
    requires Inv(s) && Enabled(s, a)
    ensures Inv(Step(s, a))
  {
    ExclusiveKeeps(s, a);
    if a.Retain? {
      RetainCallers(s, a);
      RetainKeeps(s, a);
    } else if a.Release? {
      ReleaseKeeps(s, a);
      ReleaseCallers(s, a);
    } else {
      QuietKeeps(s, a);
    }
  }

  lemma {:induction false} RunKeeps(s: State, actions: seq<Action>)
    requires Inv(s)
    ensures Inv(Run(s, actions))
  {
    hide Inv, Step, Enabled;
    if actions == [] {
    } else {
      var a := actions[|actions| - 1];
      RunKeeps(s, actions[..|actions| - 1]);
      if Enabled(Run(s, actions[..|actions| - 1]), a) { StepKeeps(Run(s, actions[..|actions| - 1]), a); }
    }
  }

  lemma ReachableInv(s: State)
    requires Reachable(s)
    ensures Inv(s)
  {
    var n, actions :| s == Run(Initial(n), actions);
    assert Inv(Initial(n)) by {
      forall e: nat ensures Retainers(Initial(n).callers, e) == {} {}
    }
    RunKeeps(Initial(n), actions);
  }

  // ---------------------------------------------------------------- what every run keeps

  /** The caller has the key or is at it, through this entry. */
  predicate At(c: Caller, key: string, entry: nat) {
    || (exists i | 0 <= i < |c.held| && i < |c.keys| :: c.keys[i] == key && c.held[i] == entry)
    || ((c.phase.Waiting? || c.phase.Dropping?) && |c.held| < |c.keys|
        && c.keys[|c.held|] == key && c.phase.entry == entry)
  }

  predicate Has(c: Caller, key: string) {
    exists i | 0 <= i < |c.held| && i < |c.keys| :: c.keys[i] == key
  }

  /** All holders and waiters of a key are on the one entry that the map has for it. */
  lemma SharedEntry(s: State, t: nat, key: string, entry: nat)
    requires Inv(s) && t < |s.callers| && At(s.callers[t], key, entry)
    ensures key in s.table.locks && s.table.locks[key] == entry
  {
    assert CallerOk(s.table.locks, s.callers[t]);
  }

  /** A key that a writer has, nobody else has. */
  lemma WriterAlone(s: State, t: nat, u: nat, key: string)
    requires Inv(s) && t < |s.callers| && u < |s.callers| && t != u
    requires Has(s.callers[t], key) && Has(s.callers[u], key)
    ensures s.callers[t].mode.Read? && s.callers[u].mode.Read?
  {
    assert CallerOk(s.table.locks, s.callers[t]) && CallerOk(s.table.locks, s.callers[u]);
    var e := s.table.locks[key];
    assert Holds(s.callers[t], e) && Holds(s.callers[u], e);
  }

  function CallersAt(s: State, key: string, entry: nat): set<nat> {
    set t | 0 <= t < |s.callers| && At(s.callers[t], key, entry)
  }

  /** The map has a key exactly while a caller is at it, and the entry's count is the number of them. */
  lemma TableExact(s: State, key: string)
    requires Inv(s)
    ensures key in s.table.locks <==> exists t, e :: 0 <= t < |s.callers| && At(s.callers[t], key, e)
    ensures key in s.table.locks ==>
              Refs(s.table, s.table.locks[key]) == |CallersAt(s, key, s.table.locks[key])| > 0
  {
    if key in s.table.locks {
      var e := s.table.locks[key];
      forall t | 0 <= t < |s.callers| ensures Retains(s.callers[t], e) <==> At(s.callers[t], key, e) {
        assert CallerOk(s.table.locks, s.callers[t]);
      }
      assert CallersAt(s, key, e) == Retainers(s.callers, e);
      assert Listed(s.table.locks, e);
      var t :| t in CallersAt(s, key, e);
    }
    forall t, e | 0 <= t < |s.callers| && At(s.callers[t], key, e) ensures key in s.table.locks {
      SharedEntry(s, t, key, e);
    }
  }

  /** When every call has ended the map is empty. */
  lemma NothingLeaks(s: State)
    requires Inv(s)
    requires forall t | 0 <= t < |s.callers| :: s.callers[t].phase.Idle?
    ensures s.table.locks == map[]
  {
    forall key ensures key !in s.table.locks {
      TableExact(s, key);
      assert forall t | 0 <= t < |s.callers| :: CallerOk(s.table.locks, s.callers[t]);
    }
  }

  /** A waiting caller may go in exactly when whoever has the key reads, as it does itself, or nobody has it. */
  lemma EntryExact(s: State, t: nat)
    requires Inv(s) && t < |s.callers| && s.callers[t].phase.Waiting?
    ensures var c := s.callers[t];
      && |c.held| < |c.keys|
      && (Enabled(s, Acquire(t)) <==>
            forall u | 0 <= u < |s.callers| && Has(s.callers[u], c.keys[|c.held|]) ::
              c.mode.Read? && s.callers[u].mode.Read?)
  {
    var c := s.callers[t];
    assert CallerOk(s.table.locks, c);
    var key := c.keys[|c.held|];
    forall u | 0 <= u < |s.callers| ensures Holds(s.callers[u], c.phase.entry) <==> Has(s.callers[u], key) {
      assert CallerOk(s.table.locks, s.callers[u]);
    }
  }

  predicate Asked(call: Call, key: string) {
    match call
    case ReadLock(id) => key == id
    case WriteLock(id) => key == id
    case ReadLocks(ids) => key in ids && key != ""
  }

  /** The caller is done, or at work on this call. */
  ghost predicate Serving(c: Caller, call: Call) {
    c.phase.Idle? || (c.mode.Write? == call.WriteLock? && forall k :: k in c.keys <==> Asked(call, k))
  }

  lemma CallTaken(s: State, t: nat, call: Call)
    requires Enabled(s, Begin(t, call))
    ensures Serving(Step(s, Begin(t, call)).callers[t], call)
  {
    if call.ReadLocks? { UniqueKeysExact(call.ids); }
  }

  lemma {:induction false} ServingRun(s: State, actions: seq<Action>, t: nat, call: Call)
    requires t < |s.callers| && Serving(s.callers[t], call)
    requires forall a | a in actions :: !(a.Begin? && a.t == t)
    ensures t < |Run(s, actions).callers| && Serving(Run(s, actions).callers[t], call)
  {
    if actions == [] {
    } else {
      assert actions[|actions| - 1] in actions;
      ServingRun(s, actions[..|actions| - 1], t, call);
      hide Asked, Admits;
    }
  }

  /** While the caller is back in its own code it has every key its call asked for, alone if it asked to write,
      and otherwise together with readers only. */
  lemma LockedAsAsked(s: State, actions: seq<Action>, t: nat, call: Call, key: string)
    requires Inv(s) && Enabled(s, Begin(t, call)) && Asked(call, key)
    requires forall a | a in actions :: !(a.Begin? && a.t == t)
    ensures var later := Run(Step(s, Begin(t, call)), actions);
      Enabled(later, Leave(t)) ==>
        && Has(later.callers[t], key)
        && forall u | 0 <= u < |later.callers| && u != t && Has(later.callers[u], key) ::
             !call.WriteLock? && later.callers[u].mode.Read?
  {
    CallTaken(s, t, call);
    ServingRun(Step(s, Begin(t, call)), actions, t, call);
    StepKeeps(s, Begin(t, call));
    RunKeeps(Step(s, Begin(t, call)), actions);
    var later := Run(Step(s, Begin(t, call)), actions);
    hide Step, Run;
    if Enabled(later, Leave(t)) {
      assert CallerOk(later.table.locks, later.callers[t]);
      assert key in later.callers[t].keys && Has(later.callers[t], key);
      forall u | 0 <= u < |later.callers| && u != t && Has(later.callers[u], key)
        ensures !call.WriteLock? && later.callers[u].mode.Read?
      {
        WriterAlone(later, t, u, key);
      }
    }
  }

  // ---------------------------------------------------------------- no deadlock

  /** The step happens even when waiting writers keep new readers out: only a reader behind a waiting
      writer may be made to wait longer. */
  predicate Certain(s: State, a: Action) {
    && Enabled(s, a) && !a.Begin?
    && (a.Acquire? && s.callers[a.t].mode.Read? ==>
          forall u | 0 <= u < |s.callers| ::
            s.callers[u].phase == s.callers[a.t].phase ==> s.callers[u].mode.Read?)
  }

  lemma {:induction false} HighestWaiting(callers: seq<Caller>, n: nat) returns (t: nat)
    requires 0 < n <= |callers|
    requires forall u | 0 <= u < |callers| :: callers[u].phase.Waiting? ==> |callers[u].held| < |callers[u].keys|
    requires exists u :: 0 <= u < n && callers[u].phase.Waiting?
    ensures t < n && callers[t].phase.Waiting?
    ensures forall u | 0 <= u < n && callers[u].phase.Waiting? ::
              !Below(callers[t].keys[|callers[t].held|], callers[u].keys[|callers[u].held|])
  {
    var last := callers[n - 1];
    if exists u :: 0 <= u < n - 1 && callers[u].phase.Waiting? {
      t := HighestWaiting(callers, n - 1);
      var top := callers[t].keys[|callers[t].held|];
      if last.phase.Waiting? && Below(top, last.keys[|last.held|]) {
        forall u | 0 <= u < n && callers[u].phase.Waiting?
          ensures !Below(last.keys[|last.held|], callers[u].keys[|callers[u].held|])
        {
          var key := callers[u].keys[|callers[u].held|];
          BelowTotal(key, key);
          if Below(last.keys[|last.held|], key) { BelowTransitive(top, last.keys[|last.held|], key); }
        }
        t := n - 1;
      }
    } else {
      t := n - 1;
      BelowTotal(last.keys[|last.held|], last.keys[|last.held|]);
    }
  }

  /** The key that the highest waiting caller wants is free. */
  lemma HighestIsFree(s: State, t: nat)
    requires Inv(s) && t < |s.callers| && s.callers[t].phase.Waiting?
    requires forall u | 0 <= u < |s.callers| :: s.callers[u].phase.Idle? || s.callers[u].phase.Waiting?
    requires forall u | 0 <= u < |s.callers| :: CallerOk(s.table.locks, s.callers[u])
    requires forall u | 0 <= u < |s.callers| && s.callers[u].phase.Waiting? ::
              !Below(s.callers[t].keys[|s.callers[t].held|], s.callers[u].keys[|s.callers[u].held|])
    ensures forall u | 0 <= u < |s.callers| :: !Holds(s.callers[u], s.callers[t].phase.entry)
  {
    forall u | 0 <= u < |s.callers| ensures !Holds(s.callers[u], s.callers[t].phase.entry) {
      var c := s.callers[u];
      var top := s.callers[t].keys[|s.callers[t].held|];
      if c.phase.Waiting? {
        assert |c.held| < |c.keys|;
        forall i | 0 <= i < |c.held| ensures c.held[i] != s.callers[t].phase.entry {
          assert s.table.locks[c.keys[i]] == c.held[i] && s.table.locks[top] == s.callers[t].phase.entry;
          assert Below(c.keys[i], c.keys[|c.held|]);
        }
      }
    }
  }

  /** Callers that make one call at a time never deadlock. */
  lemma NoDeadlock(s: State, t: nat) returns (a: Action)
    requires Inv(s) && t < |s.callers| && !s.callers[t].phase.Idle?
    ensures Certain(s, a)
  {
    assert forall u | 0 <= u < |s.callers| :: CallerOk(s.table.locks, s.callers[u]);
    if u :| 0 <= u < |s.callers| && !s.callers[u].phase.Idle? && !s.callers[u].phase.Waiting? {
      a := OwnStep(s, u);
    } else {
      var top := HighestWaiting(s.callers, |s.callers|);
      HighestIsFree(s, top);
      if w :| 0 <= w < |s.callers| && s.callers[w].phase == s.callers[top].phase && s.callers[w].mode.Write? {
        a := Acquire(w);
      } else {
        a := Acquire(top);
      }
    }
  }

  function OwnStep(s: State, t: nat): (a: Action)
    requires t < |s.callers| && CallerOk(s.table.locks, s.callers[t])
    requires !s.callers[t].phase.Idle? && !s.callers[t].phase.Waiting?
    ensures Certain(s, a)
  {
    var c := s.callers[t];
    if c.phase.Entering? then (if |c.held| < |c.keys| then Retain(t) else Leave(t))
    else if c.phase.Dropping? then Release(t)
    else if c.held == [] then End(t)
    else Unlock(t)
  }

  /** What a caller still has to do. */
  function Work(c: Caller): nat {
    match c.phase
    case Idle => 0
    case Entering => 2 + 2 * |c.held| + 4 * (if |c.held| < |c.keys| then |c.keys| - |c.held| else 0)
    case Waiting(_) => 1 + 2 * |c.held| + 4 * (if |c.held| < |c.keys| then |c.keys| - |c.held| else 0)
    case Leaving => 1 + 2 * |c.held|
    case Dropping(_) => 2 + 2 * |c.held|
  }

  function TotalWork(callers: seq<Caller>): nat {
    if callers == [] then 0 else TotalWork(callers[..|callers| - 1]) + Work(callers[|callers| - 1])
  }

  lemma {:induction false} TotalWorkStep(callers: seq<Caller>, t: nat, c: Caller)
    requires t < |callers|
    ensures TotalWork(callers[t := c]) == TotalWork(callers) - Work(callers[t]) + Work(c)
  {
    var n := |callers| - 1;
    if t < n {
      assert callers[t := c][..n] == callers[..n][t := c];
      TotalWorkStep(callers[..n], t, c);
    } else {
      assert callers[t := c][..n] == callers[..n];
    }
  }

  /** Every step but a new call brings the callers closer to having ended: with NoDeadlock, calls that
      are left to themselves all end. */
  lemma StepShrinks(s: State, a: Action)
    requires Inv(s) && Enabled(s, a) && !a.Begin?
    ensures TotalWork(Step(s, a).callers) < TotalWork(s.callers)
  {
    assert CallerOk(s.table.locks, s.callers[a.t]);
    TotalWorkStep(s.callers, a.t, NextCaller(s, a));
  }

  lemma {:induction false} RunFrom(s: State, a: Action, actions: seq<Action>)
    requires Enabled(s, a)
    ensures Run(s, [a] + actions) == Run(Step(s, a), actions)
  {
    var all := [a] + actions;
    if actions == [] {
      assert all[..0] == [];
    } else {
      assert all[..|all| - 1] == [a] + actions[..|actions| - 1];
      RunFrom(s, a, actions[..|actions| - 1]);
    }
  }

  /** From every reachable state the calls in progress can all be brought to their end, with no help
      from new calls, and the map is then empty. */
  lemma {:induction false} Drains(s: State) returns (actions: seq<Action>)
    requires Inv(s)
    ensures forall a | a in actions :: !a.Begin?
    ensures var end := Run(s, actions);
      && end.table.locks == map[]
      && forall t | 0 <= t < |end.callers| :: end.callers[t].phase.Idle?
    decreases TotalWork(s.callers)
  {
    if t :| 0 <= t < |s.callers| && !s.callers[t].phase.Idle? {
      var a := NoDeadlock(s, t);
      StepShrinks(s, a);
      StepKeeps(s, a);
      var rest := Drains(Step(s, a));
      RunFrom(s, a, rest);
      actions := [a] + rest;
    } else {
      NothingLeaks(s);
      actions := [];
    }
  }
}
