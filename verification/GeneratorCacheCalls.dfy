/** What a single call of the generator cache comes to, whatever other callers, crashes and changes of
    files do meanwhile: which calls may answer from the cache, and what a finished call leaves. */
module GeneratorCacheCalls {
  import opened Wrappers
  import opened GeneratorCache

  /** Nobody takes the lock as `c`: whatever `c` does belongs to its present call. */
  predicate SameCall(actions: seq<Action>, c: CallerId) {
    forall a <- actions :: !TakesLock(a, c)
  }

  predicate TakesLock(a: Action, c: CallerId) {
    a.Acquire? && a.c == c
  }

  // ------------------------------------------------------------------ forced rebuilds and commands

  /** A forced rebuild is never on the way to an answer from the cache. */
  predicate MustGenerate(phase: Phase) {
    && !phase.Reading? && !phase.Comparing?
    && (phase.Locked? || phase.Keying? || phase.Keyed? ==> phase.rebuild)
  }

  predicate HasRun(phase: Phase) {
    && !phase.Locked? && !phase.Keying? && !phase.Keyed? && !phase.Reading? && !phase.Comparing?
    && !phase.Missed? && !phase.Generating?
  }

  /** A command of `c` ended after this position of the log. */
  ghost predicate OwnCommand(log: seq<Event>, c: CallerId, since: nat) {
    exists m: nat :: since < m < |log| && log[m].CommandRan? && log[m].caller == c
  }

  /** `c` is in the call it began at position `since`, or no longer in it. */
  ghost predicate InCall(s: State, c: CallerId, rebuild: bool, since: nat) {
    s.lock == Some(c) ==>
      && since < |s.log|
      && (rebuild ==> MustGenerate(s.phase))
      && (HasRun(s.phase) ==> OwnCommand(s.log, c, since))
  }

  lemma CommandStays(log: seq<Event>, more: seq<Event>, c: CallerId, since: nat)
    requires log <= more && OwnCommand(log, c, since)
    ensures OwnCommand(more, c, since)
  {
    var m: nat :| since < m < |log| && log[m].CommandRan? && log[m].caller == c;
    assert more[m] == log[m];
  }

  lemma InsideKeepsCall(s: State, a: Action, t: State, c: CallerId, rebuild: bool, since: nat)
    requires IsInside(a) && s.lock == Some(a.c) && StepInside(s, a) == Some(t)
    requires a.c == c && InCall(s, c, rebuild, since)
    ensures InCall(t, c, rebuild, since)
  {
    InsideFrame(s, a, t);
    PhaseMoves(s, a, t);
    if HasRun(s.phase) {
      CommandStays(s.log, t.log, c, since);
    } else if a.RunCommand? {
      assert t.log[|s.log|].CommandRan?;
    }
  }

  /** How phases follow each other, as far as answering from the cache and running the command go. */
  lemma PhaseMoves(s: State, a: Action, t: State)
    requires IsInside(a) && StepInside(s, a) == Some(t)
    ensures t.lock.Some? && MustGenerate(s.phase) ==> MustGenerate(t.phase)
    ensures t.lock.Some? && HasRun(t.phase) ==> HasRun(s.phase) || a.RunCommand?
  {
    if IsLookup(a) {
      LookupMoves(s, a, t);
    } else {
      WritingMoves(s, a, t);
    }
  }

  lemma LookupMoves(s: State, a: Action, t: State)
    requires IsLookup(a) && StepInside(s, a) == Some(t)
    ensures t.lock.Some? && MustGenerate(s.phase) ==> MustGenerate(t.phase)
    ensures HasRun(t.phase) ==> HasRun(s.phase)
  {
    if a.ListInputs? || a.HashFile? || a.ComputeKey? {
      KeyingMoves(s, a, t);
    }
  }

  lemma KeyingMoves(s: State, a: Action, t: State)
    requires (a.ListInputs? || a.HashFile? || a.ComputeKey?) && StepInside(s, a) == Some(t)
    ensures MustGenerate(s.phase) ==> MustGenerate(t.phase)
    ensures HasRun(t.phase) ==> HasRun(s.phase)
  {
    if a.HashFile? {
      HashResult(s, a, t);
    }
  }

  lemma WritingMoves(s: State, a: Action, t: State)
    requires StepWriting(s, a) == Some(t)
    ensures t.lock.Some? ==> MustGenerate(t.phase)
    ensures HasRun(t.phase) ==> HasRun(s.phase) || a.RunCommand?
  {
    if a.RecheckKey? || a.ConfirmKey? {
      ConfirmingMoves(s, a, t);
    } else if a.Prepare? || a.RunCommand? || a.HashOutput? {
      GeneratingMoves(s, a, t);
    } else if !a.StageRecord? && !a.ClearBackup? && !a.MoveOldAside? && !a.MoveNewIn? && !a.MoveNewInFails? {
      PublishingMoves(s, a, t);
    }
  }

  lemma GeneratingMoves(s: State, a: Action, t: State)
    requires (a.Prepare? || a.RunCommand? || a.HashOutput?) && StepWriting(s, a) == Some(t)
    ensures t.lock.Some? ==> MustGenerate(t.phase)
    ensures HasRun(t.phase) ==> HasRun(s.phase) || a.RunCommand?
  {
  }

  lemma ConfirmingMoves(s: State, a: Action, t: State)
    requires (a.RecheckKey? || a.ConfirmKey?) && StepWriting(s, a) == Some(t)
    ensures t.lock.Some? ==> MustGenerate(t.phase)
    ensures HasRun(s.phase)
  {
  }

  lemma PublishingMoves(s: State, a: Action, t: State)
    requires StepPublishing(s, a) == Some(t)
    ensures t.lock.Some? ==> MustGenerate(t.phase)
    ensures HasRun(t.phase) ==> HasRun(s.phase)
  {
  }

  lemma StepKeepsCall(s: State, a: Action, t: State, c: CallerId, rebuild: bool, since: nat)
    requires Step(s, a) == Some(t) && !TakesLock(a, c) && InCall(s, c, rebuild, since)
    ensures InCall(t, c, rebuild, since)
    ensures rebuild ==> a != ReturnCached(c)
  {
    if !IsInside(a) {
      OutsideKeepsCall(s, a, t, c, rebuild, since);
    } else if s.lock == Some(c) {
      InsideKeepsCall(s, a, t, c, rebuild, since);
      CachedComesFromComparing(s, a, t);
    } else {
      InsideFrame(s, a, t);
    }
  }

  lemma OutsideKeepsCall(s: State, a: Action, t: State, c: CallerId, rebuild: bool, since: nat)
    requires !IsInside(a) && Step(s, a) == Some(t) && !TakesLock(a, c) && InCall(s, c, rebuild, since)
    ensures InCall(t, c, rebuild, since)
  {
    OutsideLeavesCall(s, a, t, c);
  }

  lemma OutsideLeavesCall(s: State, a: Action, t: State, c: CallerId)
    requires !IsInside(a) && Step(s, a) == Some(t) && !TakesLock(a, c)
    ensures t.lock == Some(c) ==> s.lock == Some(c) && t.phase == s.phase && t.log == s.log
  {
    if a.Acquire? {
      OtherTakesLock(s, a, t, c);
    }
  }

  lemma OtherTakesLock(s: State, a: Action, t: State, c: CallerId)
    requires a.Acquire? && a.c != c && Step(s, a) == Some(t)
    ensures t.lock != Some(c)
  {
  }

  lemma CachedComesFromComparing(s: State, a: Action, t: State)
    requires IsInside(a) && StepInside(s, a) == Some(t)
    ensures a.ReturnCached? ==> s.phase.Comparing?
  {
  }

  lemma {:induction false} RunKeepsCall(s: State, actions: seq<Action>, t: State, c: CallerId, rebuild: bool,
                                        since: nat)
    requires Run(s, actions) == Some(t) && SameCall(actions, c) && InCall(s, c, rebuild, since)
    ensures InCall(t, c, rebuild, since)
    ensures rebuild ==> ReturnCached(c) !in actions
    decreases |actions|
  {
    if actions != [] {
      var a, next := actions[0], Step(s, actions[0]).value;
      assert a in actions && actions == [a] + actions[1..];
      StepKeepsCall(s, a, next, c, rebuild, since);
      RunKeepsCall(next, actions[1..], t, c, rebuild, since);
    }
  }

  /** A call that forces a rebuild is never answered from the cache, whatever happens before it or
      meanwhile. */
  lemma RebuildNeverAnswersFromCache(s: State, c: CallerId, request: Request, taken: State, actions: seq<Action>,
                                     t: State)
    requires Step(s, Acquire(c, true, request)) == Some(taken)
    requires Run(taken, actions) == Some(t) && SameCall(actions, c)
    ensures ReturnCached(c) !in actions && Step(t, ReturnCached(c)).None?
  {
    RunKeepsCall(taken, actions, t, c, true, |s.log|);
    if Step(t, ReturnCached(c)).Some? {
      StepKeepsCall(t, ReturnCached(c), Step(t, ReturnCached(c)).value, c, true, |s.log|);
    }
  }

  /** A call that returns fresh outputs has run its command, after it took the lock. */
  lemma FreshReturnRanItsCommand(s: State, c: CallerId, rebuild: bool, request: Request, taken: State,
                                 actions: seq<Action>, t: State)
    requires Step(s, Acquire(c, rebuild, request)) == Some(taken)
    requires Run(taken, actions) == Some(t) && SameCall(actions, c)
    requires Step(t, ReturnFresh(c)).Some?
    ensures taken.log == s.log + [Acquired(c)]
    ensures exists m :: |s.log| < m < |t.log| && t.log[m].CommandRan? && t.log[m].caller == c
  {
    RunKeepsCall(taken, actions, t, c, rebuild, |s.log|);
    ReturnsWhenPublished(t, c);
    assert OwnCommand(t.log, c, |s.log|);
  }

  lemma ReturnsWhenPublished(t: State, c: CallerId)
    requires Step(t, ReturnFresh(c)).Some?
    ensures t.lock == Some(c) && t.phase.Published?
  {
  }

  // ------------------------------------------------------------------ the lock

  lemma LockOnceLost(s: State, a: Action, t: State, c: CallerId)
    requires Step(s, a) == Some(t) && !TakesLock(a, c)
    ensures t.lock == Some(c) ==> s.lock == Some(c) && !a.Acquire? && (IsInside(a) ==> a.c == c)
  {
    if IsInside(a) {
      InsideFrame(s, a, t);
    } else {
      OutsideLeavesCall(s, a, t, c);
    }
  }

  lemma {:induction false} LockHeldBefore(s: State, actions: seq<Action>, t: State, c: CallerId)
    requires Run(s, actions) == Some(t) && SameCall(actions, c) && t.lock == Some(c)
    ensures s.lock == Some(c)
    decreases |actions|
  {
    if actions != [] {
      assert actions[0] in actions;
      LockHeldBefore(Step(s, actions[0]).value, actions[1..], t, c);
      LockOnceLost(s, actions[0], Step(s, actions[0]).value, c);
    }
  }

  /** While a call holds the lock, all steps of the protocol are its own. */
  lemma {:induction false} HolderActsAlone(s: State, actions: seq<Action>, t: State, c: CallerId)
    requires Run(s, actions) == Some(t) && SameCall(actions, c) && t.lock == Some(c)
    ensures forall a <- actions :: !a.Acquire? && (IsInside(a) ==> a.c == c)
    decreases |actions|
  {
    if actions != [] {
      assert actions[0] in actions && actions == [actions[0]] + actions[1..];
      LockHeldBefore(Step(s, actions[0]).value, actions[1..], t, c);
      LockOnceLost(s, actions[0], Step(s, actions[0]).value, c);
      HolderActsAlone(Step(s, actions[0]).value, actions[1..], t, c);
    }
  }

  // ------------------------------------------------------------------ what a call leaves

  /** The digests of the declared outputs in the tree a command has written. */
  function DigestsOf(tree: Tree, names: set<string>): map<string, Digest> {
    map name | name in names :: OutputDigest(tree, name)
  }

  /** A call under way: the record it is about to leave, the outputs its command has written, and the
      outputs and the record that were there before. */
  datatype Work = Work(key: Key, names: set<string>, tree: Tree, published: Option<Tree>, record: Option<Record>)

  function Due(w: Work): Record {
    Record(w.key, DigestsOf(w.tree, w.names))
  }

  predicate Untouched(s: State, w: Work) {
    s.published == w.published && s.record == w.record
  }

  predicate Written(s: State, c: CallerId, w: Work) {
    c in s.temporaries && s.temporaries[c] == w.tree
  }

  predicate StagedFor(s: State, c: CallerId, record: Record) {
    c in s.stagedRecords && s.stagedRecords[c] == record
  }

  /** The old outputs are where a failed swap finds them. */
  predicate OldAt(backups: map<nat, Tree>, process: nat, former: Option<Tree>) {
    if former.Some? then process in backups && backups[process] == former.value else process !in backups
  }

  predicate OldRecordAt(backups: map<nat, Record>, process: nat, former: Option<Record>) {
    if former.Some? then process in backups && backups[process] == former.value else process !in backups
  }

  predicate HashesFor(hashed: map<string, Digest>, w: Work) {
    hashed.Keys <= w.names && forall name <- hashed :: hashed[name] == OutputDigest(w.tree, name)
  }

  /** From the end of the command on, step by step. */
  predicate AtWork(s: State, c: CallerId, w: Work) {
    match s.phase
    case Hashing(key, _, _, names, hashed) =>
      key == w.key && names == w.names && HashesFor(hashed, w) && Written(s, c, w) && Untouched(s, w)
    case Confirming(key, _, _, hashed, _) =>
      key == w.key && hashed == DigestsOf(w.tree, w.names) && Written(s, c, w) && Untouched(s, w)
    case Verified(record) => record == Due(w) && Written(s, c, w) && Untouched(s, w)
    case Staged(record) => record == Due(w) && Written(s, c, w) && StagedFor(s, c, record) && Untouched(s, w)
    case BackupCleared(record) =>
      record == Due(w) && Written(s, c, w) && StagedFor(s, c, record) && Untouched(s, w) && c.process !in s.backups
    case OldAside(record) =>
      && record == Due(w) && Written(s, c, w) && StagedFor(s, c, record)
      && s.published.None? && s.record == w.record && OldAt(s.backups, c.process, w.published)
    case Swapped(record) =>
      record == Due(w) && StagedFor(s, c, record) && s.published == Some(w.tree) && s.record == w.record
    case SwapCleaned(record) =>
      record == Due(w) && StagedFor(s, c, record) && s.published == Some(w.tree) && s.record == w.record
    case RecordAside(record) =>
      && record == Due(w) && StagedFor(s, c, record) && s.published == Some(w.tree)
      && s.record.None? && OldRecordAt(s.recordBackups, c.process, w.record)
    case Published(record) => record == Due(w) && s.published == Some(w.tree) && s.record == Some(record)
    case _ => false
  }

  ghost predicate Working(s: State, c: CallerId, w: Work) {
    s.lock == Some(c) ==> AtWork(s, c, w)
  }

  /** Nothing but the protocol's own steps touches the outputs, this call's temporary ones or the record. */
  predicate LeavesAlone(a: Action, c: CallerId) {
    !a.AlterOutputs? && !a.DeleteRecord? && !(a.AlterTemporary? && a.c == c)
  }

  lemma WritingKeepsWork(s: State, a: Action, t: State, c: CallerId, w: Work)
    requires IsInside(a) && a.c == c && s.lock == Some(c) && StepWriting(s, a) == Some(t) && AtWork(s, c, w)
    ensures t.lock == s.lock ==> AtWork(t, c, w)
  {
    if a.HashOutput? || a.RecheckKey? {
      HashingKeepsWork(s, a, t, c, w);
    } else if a.ConfirmKey? || a.StageRecord? || a.ClearBackup? {
      StagingKeepsWork(s, a, t, c, w);
    } else if a.MoveOldAside? || a.MoveNewIn? || a.MoveNewInFails? {
      SwappingKeepsWork(s, a, t, c, w);
    } else if !a.Prepare? && !a.RunCommand? {
      PublishingKeepsWork(s, a, t, c, w);
    }
  }

  lemma HashingKeepsWork(s: State, a: Action, t: State, c: CallerId, w: Work)
    requires (a.HashOutput? || a.RecheckKey?) && a.c == c && StepWriting(s, a) == Some(t) && AtWork(s, c, w)
    ensures AtWork(t, c, w)
  {
    if a.RecheckKey? {
      assert s.phase.hashed == DigestsOf(w.tree, w.names);
    }
  }

  lemma StagingKeepsWork(s: State, a: Action, t: State, c: CallerId, w: Work)
    requires (a.ConfirmKey? || a.StageRecord? || a.ClearBackup?) && a.c == c
    requires s.lock == Some(c) && StepWriting(s, a) == Some(t) && AtWork(s, c, w)
    ensures t.lock == Some(c) ==> AtWork(t, c, w)
  {
  }

  lemma SwappingKeepsWork(s: State, a: Action, t: State, c: CallerId, w: Work)
    requires (a.MoveOldAside? || a.MoveNewIn? || a.MoveNewInFails?) && a.c == c
    requires s.lock == Some(c) && StepWriting(s, a) == Some(t) && AtWork(s, c, w)
    ensures t.lock == Some(c) ==> AtWork(t, c, w)
  {
  }

  lemma PublishingKeepsWork(s: State, a: Action, t: State, c: CallerId, w: Work)
    requires HasCaller(a) && a.c == c
    requires s.lock == Some(c) && StepPublishing(s, a) == Some(t) && AtWork(s, c, w)
    ensures t.lock == Some(c) ==> AtWork(t, c, w)
  {
  }

  lemma NotLookingUp(s: State, a: Action, c: CallerId, w: Work)
    requires IsLookup(a) && AtWork(s, c, w) && StepInside(s, a).Some?
    ensures a.HashFile? && s.phase.Confirming?
  {
  }

  lemma RereadingKeepsWork(s: State, a: Action, t: State, c: CallerId, w: Work)
    requires a.HashFile? && s.phase.Confirming? && AtWork(s, c, w) && StepInside(s, a) == Some(t)
    ensures AtWork(t, c, w)
  {
  }

  lemma OutsideKeepsWork(s: State, a: Action, t: State, c: CallerId, w: Work)
    requires !IsInside(a) && Step(s, a) == Some(t) && !TakesLock(a, c) && LeavesAlone(a, c) && Working(s, c, w)
    ensures Working(t, c, w)
  {
  }

  lemma StepKeepsWork(s: State, a: Action, t: State, c: CallerId, w: Work)
    requires Step(s, a) == Some(t) && !TakesLock(a, c) && LeavesAlone(a, c) && Working(s, c, w)
    ensures Working(t, c, w)
  {
    if !IsInside(a) {
      OutsideKeepsWork(s, a, t, c, w);
    } else {
      InsideFrame(s, a, t);
      if s.lock == Some(c) {
        if IsLookup(a) {
          NotLookingUp(s, a, c, w);
          RereadingKeepsWork(s, a, t, c, w);
        } else {
          WritingKeepsWork(s, a, t, c, w);
        }
      }
    }
  }

  lemma {:induction false} RunKeepsWork(s: State, actions: seq<Action>, t: State, c: CallerId, w: Work)
    requires Run(s, actions) == Some(t) && SameCall(actions, c) && (forall a <- actions :: LeavesAlone(a, c))
    requires Working(s, c, w)
    ensures Working(t, c, w)
    decreases |actions|
  {
    if actions != [] {
      var a, next := actions[0], Step(s, actions[0]).value;
      assert a in actions;
      StepKeepsWork(s, a, next, c, w);
      RunKeepsWork(next, actions[1..], t, c, w);
    }
  }

  /** A call whose files have other digests after its command fails, and only such a call: outputs and
      record stay, and nothing temporary is left. */
  lemma RejectedExactly(s: State, c: CallerId, t: State)
    requires Reachable(s) && Step(s, ConfirmKey(c)) == Some(t)
    ensures s.phase.Confirming?
    ensures t.lock.None? <==> s.phase.read != s.phase.key.files
    ensures t.published == s.published && t.record == s.record
    ensures t.lock.None? ==> c !in t.temporaries && c !in t.stagedRecords
  {
    ConfirmsFrom(s, c, t);
    ReachableInv(s);
    ConfirmingKeyFits(s, c);
  }

  lemma ConfirmsFrom(s: State, c: CallerId, t: State)
    requires Step(s, ConfirmKey(c)) == Some(t)
    ensures s.lock == Some(c) && s.phase.Confirming?
    ensures t.lock.None? <==> Key(s.request.settings, s.phase.read) != s.phase.key
    ensures t.published == s.published && t.record == s.record
    ensures t.lock.None? ==> c !in t.temporaries && c !in t.stagedRecords
  {
  }

  /** From the end of a command to the end of its call, nobody else touching the outputs or the record:
      a fresh return leaves exactly what the command wrote, and the record of its declared outputs; a
      failed swap that could be undone leaves outputs and record as they were; a failed record swap
      that could be undone leaves the old record. */
  lemma CallLeaves(s: State, c: CallerId, tree: Tree, ran: State, actions: seq<Action>, t: State, end: Action, u: State)
    requires Step(s, RunCommand(c, tree)) == Some(ran)
    requires Run(ran, actions) == Some(t) && SameCall(actions, c) && forall a <- actions :: LeavesAlone(a, c)
    requires Step(t, end) == Some(u)
    ensures s.phase.Generating?
    ensures end == ReturnFresh(c) ==>
              && u.published == Some(tree)
              && u.record == Some(Record(s.phase.key, map name | name in s.phase.names :: OutputDigest(tree, name)))
    ensures end == MoveNewInFails(c, true) ==> u.published == s.published && u.record == s.record
    ensures end == MoveRecordInFails(c, true) ==> u.published == Some(tree) && u.record == s.record
  {
    CommandWorks(s, c, tree, ran);
    var w := Work(s.phase.key, s.phase.names, tree, s.published, s.record);
    RunKeepsWork(ran, actions, t, c, w);
    if end == ReturnFresh(c) {
      FreshStays(t, c, u, w);
    } else if end == MoveNewInFails(c, true) {
      SwapIsUndone(t, c, u, w);
    } else if end == MoveRecordInFails(c, true) {
      RecordIsPutBack(t, c, u, w);
    }
  }

  lemma CommandWorks(s: State, c: CallerId, tree: Tree, ran: State)
    requires Step(s, RunCommand(c, tree)) == Some(ran)
    ensures s.phase.Generating?
    ensures Working(ran, c, Work(s.phase.key, s.phase.names, tree, s.published, s.record))
  {
  }

  lemma FreshStays(t: State, c: CallerId, u: State, w: Work)
    requires Step(t, ReturnFresh(c)) == Some(u) && Working(t, c, w)
    ensures u.published == Some(w.tree) && u.record == Some(Due(w))
  {
  }

  lemma SwapIsUndone(t: State, c: CallerId, u: State, w: Work)
    requires Step(t, MoveNewInFails(c, true)) == Some(u) && Working(t, c, w)
    ensures u.published == w.published && u.record == w.record
  {
  }

  lemma RecordIsPutBack(t: State, c: CallerId, u: State, w: Work)
    requires Step(t, MoveRecordInFails(c, true)) == Some(u) && Working(t, c, w)
    ensures u.published == Some(w.tree) && u.record == w.record
  {
  }
}
