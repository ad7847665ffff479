/** Runs of the generator cache: the cache does hit, and what its keys miss. */
module GeneratorCacheRuns {
  import opened Wrappers
  import opened GeneratorCache

  // ------------------------------------------------------------------ the cache hits

  /** Nobody inside, and for this request the key of the record and on disk its outputs and nothing else. */
  predicate Settled(s: State, request: Request, record: Record) {
    && s.lock.None? && s.record == Some(record) && CurrentKey(s.files, request) == Some(record.key)
    && Matches(s.published, record.outputs)
  }

  /** After a fresh return the cache is settled, provided the command left exactly the declared
      output directories and neither outputs, record nor covered files were touched meanwhile. */
  lemma FreshReturnSettles(s: State, c: CallerId, t: State)
    requires Reachable(s) && Step(s, ReturnFresh(c)) == Some(t)
    requires !s.tampered && s.record.Some? && CurrentKey(s.files, s.request) == Some(s.phase.record.key)
    requires s.published.Some? && ListsExactly(s.published.value, s.phase.record.outputs.Keys)
    ensures Settled(t, t.request, s.phase.record)
  {
    FreshReturn(s, c, t);
    assert DigestsAgree(s.published.value, s.phase.record.outputs) && s.record.value == s.phase.record by {
      ReachableInv(s);
      SwappedHolder(s, c);
    }
  }

  lemma FreshReturn(s: State, c: CallerId, t: State)
    requires Step(s, ReturnFresh(c)) == Some(t)
    ensures s.lock == Some(c) && s.phase.Published? && t == Release(s)
  {
  }

  lemma {:induction false} RunAppend(s: State, actions: seq<Action>, t: State, more: seq<Action>)
    requires Run(s, actions) == Some(t)
    ensures Run(s, actions + more) == Run(t, more)
    decreases |actions|
  {
    if actions == [] {
      assert actions + more == more;
    } else {
      assert (actions + more)[1..] == actions[1..] + more;
      RunAppend(Step(s, actions[0]).value, actions[1..], t, more);
    }
  }

  /** A log that only grew by other events than commands. */
  predicate NoCommands(log: seq<Event>, more: seq<Event>) {
    log <= more && forall m :: |log| <= m < |more| ==> !more[m].CommandRan?
  }

  /** Reading the listed files gets through all of them and gives the current key. */
  lemma KeyingSucceeds(s: State, c: CallerId, rest: set<string>) returns (actions: seq<Action>, t: State)
    requires s.lock == Some(c) && s.phase.Keying? && s.phase.listed <= s.files.Keys
    requires s.phase.read.Keys + rest == s.phase.listed && s.phase.read.Keys !! rest
    requires forall name <- s.phase.read :: name in s.files && s.phase.read[name] == s.files[name]
    ensures Run(s, actions) == Some(t) && NoCommands(s.log, t.log)
    ensures t == s.(phase := Keying(s.phase.rebuild, s.phase.listed,
                                    map name | name in s.phase.listed :: s.files[name]),
                    log := t.log)
    decreases rest
  {
    if rest == {} {
      actions, t := [], s;
      assert s.phase.read == map name | name in s.phase.listed :: s.files[name];
    } else {
      var name :| name in rest;
      var next := Step(s, HashFile(c, name)).value;
      assert next.phase.Keying? && next.phase.read.Keys == s.phase.read.Keys + {name};
      actions, t := KeyingSucceeds(next, c, rest - {name});
      actions := [HashFile(c, name)] + actions;
    }
  }

  /** Comparing outputs that match gets through all of them. */
  lemma ComparisonSucceeds(s: State, c: CallerId, rest: set<string>) returns (actions: seq<Action>, t: State)
    requires s.lock == Some(c) && s.phase.Comparing? && Matches(s.published, s.phase.record.outputs)
    requires s.phase.observed.Keys + rest == s.phase.record.outputs.Keys && s.phase.observed.Keys !! rest
    ensures Run(s, actions) == Some(t)
    ensures t.lock == Some(c) && t.phase.Comparing? && t.phase.record == s.phase.record
    ensures t.phase.observed.Keys == t.phase.record.outputs.Keys
    decreases rest
  {
    if rest == {} {
      actions, t := [], s;
    } else {
      var name :| name in rest;
      var next := Step(s, CompareOutput(c, name)).value;
      assert next.phase.Comparing? && next.phase.observed.Keys == s.phase.observed.Keys + {name};
      actions, t := ComparisonSucceeds(next, c, rest - {name});
      actions := [CompareOutput(c, name)] + actions;
    }
  }

  /** Taking the lock, listing and reading leads to the current key. */
  lemma KeyIsCurrentKey(s: State, request: Request, c: CallerId) returns (actions: seq<Action>, t: State)
    requires s.lock.None? && CurrentKey(s.files, request).Some?
    ensures Run(s, actions) == Some(t)
    ensures t == s.(lock := Some(c), request := request, tampered := false, log := t.log, phase := t.phase)
    ensures t.phase.Keyed? && !t.phase.rebuild && Some(t.phase.key) == CurrentKey(s.files, request)
    ensures NoCommands(s.log, t.log)
  {
    var s1 := Step(s, Acquire(c, false, request)).value;
    var s2 := Step(s1, ListInputs(c)).value;
    RunTwo(s, Acquire(c, false, request), s1, ListInputs(c), s2);
    var hashing, s3 := KeyingSucceeds(s2, c, s2.phase.listed);
    t := Step(s3, ComputeKey(c)).value;
    RunOne(s3, ComputeKey(c), t);
    RunAppend(s2, hashing, s3, [ComputeKey(c)]);
    RunAppend(s, [Acquire(c, false, request), ListInputs(c)], s2, hashing + [ComputeKey(c)]);
    actions := [Acquire(c, false, request), ListInputs(c)] + (hashing + [ComputeKey(c)]);
  }

  lemma RunOne(s: State, a: Action, t: State)
    requires Step(s, a) == Some(t)
    ensures Run(s, [a]) == Some(t)
  {
    assert [a][1..] == [] && Run(t, []) == Some(t);
  }

  lemma RunTwo(s: State, a: Action, t: State, b: Action, u: State)
    requires Step(s, a) == Some(t) && Step(t, b) == Some(u)
    ensures Run(s, [a, b]) == Some(u)
  {
    RunOne(t, b, u);
    assert [a, b][1..] == [b];
  }

  lemma RunNext(s: State, actions: seq<Action>, t: State, a: Action, u: State)
    requires Run(s, actions) == Some(t) && Step(t, a) == Some(u)
    ensures Run(s, actions + [a]) == Some(u)
  {
    RunOne(t, a, u);
    RunAppend(s, actions, t, [a]);
  }

  /** The cache does hit: from a settled state a caller with that request that does not ask for a
      rebuild can follow its own steps, with no others, to a cached return. */
  lemma SettledHits(s: State, request: Request, record: Record, c: CallerId) returns (actions: seq<Action>)
    requires Settled(s, request, record)
    ensures Run(s, actions).Some? && |actions| > 0 && actions[|actions| - 1] == ReturnCached(c)
  {
    var opening, s1 := KeyIsCurrentKey(s, request, c);
    var s2 := Step(s1, ReadRecord(c)).value;
    var s3 := Step(s2, ListOutputs(c)).value;
    RunTwo(s1, ReadRecord(c), s2, ListOutputs(c), s3);
    var comparing, t := ComparisonSucceeds(s3, c, record.outputs.Keys);
    RunOne(t, ReturnCached(c), Step(t, ReturnCached(c)).value);
    var closing := comparing + [ReturnCached(c)];
    RunAppend(s3, comparing, t, [ReturnCached(c)]);
    RunAppend(s1, [ReadRecord(c), ListOutputs(c)], s3, closing);
    RunAppend(s, opening, s1, [ReadRecord(c), ListOutputs(c)] + closing);
    actions := opening + ([ReadRecord(c), ListOutputs(c)] + closing);
  }

  // ------------------------------------------------------------------ what the key misses

  const BEFORE: map<string, Digest> := map["a" := 1]
  const BOTH: Request := Request(0, iset{"a", "b"}, {})
  const GENERATED: Tree := map["out" := Folder(7)]

  lemma KeyBefore()
    ensures CurrentKey(BEFORE, BOTH) == Some(Key(0, BEFORE))
  {
    assert Listed(BEFORE, BOTH) == {"a"} == BEFORE.Keys;
    assert (map name | name in Listed(BEFORE, BOTH) :: BEFORE[name]) == BEFORE;
  }

  /** A call lists and reads `a` and finds no record. */
  lemma FirstCallMisses(s: State, c: CallerId) returns (actions: seq<Action>, t: State)
    requires Initial(s) && s.files == BEFORE
    ensures Run(s, actions) == Some(t) && t.lock == Some(c) && t.request == BOTH && t.files == BEFORE
    ensures t.phase.Missed? && t.phase.key == Key(0, BEFORE) && NoCommands([], t.log)
  {
    KeyBefore();
    var opening, s1 := KeyIsCurrentKey(s, BOTH, c);
    t := Step(s1, ReadRecord(c)).value;
    RunNext(s, opening, s1, ReadRecord(c), t);
    actions := opening + [ReadRecord(c)];
  }

  /** Its command ends when there are any files at all, and then these. */
  lemma CommandSeesAnything(s: State, c: CallerId, during: map<string, Digest>, later: map<string, Digest>)
    returns (actions: seq<Action>, t: State, changes: nat)
    requires s.lock == Some(c) && s.request == BOTH && s.phase.Missed? && s.phase.key == Key(0, BEFORE)
    ensures Run(s, actions) == Some(t) && t.lock == Some(c) && t.request == BOTH && t.files == later
    ensures t.phase == Hashing(Key(0, BEFORE), s.phase.keyedAt, |s.log|, {"out"}, map[])
    ensures t.log == s.log + [CommandRan(c, during, changes)]
    ensures c in t.temporaries && t.temporaries[c] == GENERATED
  {
    var s1 := PreparingSucceeds(s, c);
    var s2 := s1.(files := during, changes := s1.changes + 1);
    RunTwo(s, Prepare(c, {"out"}), s1, ChangeFiles(during), s2);
    var s3 := CommandSucceeds(s2, c);
    t := s3.(files := later, changes := s3.changes + 1);
    RunTwo(s2, RunCommand(c, GENERATED), s3, ChangeFiles(later), t);
    RunAppend(s, [Prepare(c, {"out"}), ChangeFiles(during)], s2, [RunCommand(c, GENERATED), ChangeFiles(later)]);
    actions := [Prepare(c, {"out"}), ChangeFiles(during)] + [RunCommand(c, GENERATED), ChangeFiles(later)];
    changes := s2.changes;
  }

  lemma PreparingSucceeds(s: State, c: CallerId) returns (t: State)
    requires s.lock == Some(c) && s.phase.Missed?
    ensures Step(s, Prepare(c, {"out"})) == Some(t)
    ensures t == s.(phase := Generating(s.phase.key, s.phase.keyedAt, {"out"}), temporaries := t.temporaries)
  {
    t := Step(s, Prepare(c, {"out"})).value;
  }

  lemma CommandSucceeds(s: State, c: CallerId) returns (t: State)
    requires s.lock == Some(c) && s.phase.Generating?
    ensures Step(s, RunCommand(c, GENERATED)) == Some(t)
    ensures t == s.(phase := Hashing(s.phase.key, s.phase.keyedAt, |s.log|, s.phase.names, map[]),
                    temporaries := s.temporaries[c := GENERATED],
                    log := s.log + [CommandRan(c, s.files, s.changes)])
  {
    t := Step(s, RunCommand(c, GENERATED)).value;
  }

  /** The key is confirmed all the same: only `a` is read again. */
  lemma KeyIsConfirmed(s: State, c: CallerId) returns (actions: seq<Action>, t: State)
    requires s.lock == Some(c) && s.request == BOTH && "a" in s.files && s.files["a"] == 1
    requires s.phase.Hashing? && s.phase == Hashing(Key(0, BEFORE), s.phase.keyedAt, s.phase.ranAt, {"out"}, map[])
    requires c in s.temporaries && s.temporaries[c] == GENERATED
    ensures Run(s, actions) == Some(t) && NoCommands(s.log, t.log)
    ensures t == s.(log := t.log, phase := Verified(Record(Key(0, BEFORE), map["out" := 7])))
  {
    var s1 := Step(s, HashOutput(c, "out")).value;
    var s2 := Step(s1, RecheckKey(c)).value;
    RunTwo(s, HashOutput(c, "out"), s1, RecheckKey(c), s2);
    var again;
    again, t := ReadingAConfirms(s2, c);
    RunAppend(s, [HashOutput(c, "out"), RecheckKey(c)], s2, again);
    actions := [HashOutput(c, "out"), RecheckKey(c)] + again;
  }

  lemma ReadingAConfirms(s: State, c: CallerId) returns (actions: seq<Action>, t: State)
    requires s.lock == Some(c) && s.request == BOTH && "a" in s.files && s.files["a"] == 1 && s.phase.Confirming?
    requires s.phase.key == Key(0, BEFORE) && s.phase.read == map[]
    ensures Run(s, actions) == Some(t) && NoCommands(s.log, t.log)
    ensures t == s.(log := t.log, phase := Verified(Record(Key(0, BEFORE), s.phase.hashed)))
  {
    var s1 := Step(s, HashFile(c, "a")).value;
    assert s1.phase.Confirming? && s1.phase.read == BEFORE;
    t := Step(s1, ConfirmKey(c)).value;
    RunTwo(s, HashFile(c, "a"), s1, ConfirmKey(c), t);
    actions := [HashFile(c, "a"), ConfirmKey(c)];
  }

  /** From there the call can put its outputs in place. */
  lemma SwapSucceeds(s: State, c: CallerId) returns (actions: seq<Action>, t: State)
    requires s.lock == Some(c) && s.phase.BackupCleared? && c in s.temporaries
    ensures Run(s, actions) == Some(t)
    ensures t == s.(phase := SwapCleaned(s.phase.record), published := Some(s.temporaries[c]),
                    temporaries := t.temporaries, backups := t.backups)
  {
    var s1 := Step(s, MoveOldAside(c)).value;
    var s2 := Step(s1, MoveNewIn(c)).value;
    RunTwo(s, MoveOldAside(c), s1, MoveNewIn(c), s2);
    t := s2.(phase := SwapCleaned(s2.phase.record), backups := s2.backups - {c.process});
    DropSucceeds(s2, c);
    RunNext(s, [MoveOldAside(c), MoveNewIn(c)], s2, DropBackup(c), t);
    actions := [MoveOldAside(c), MoveNewIn(c)] + [DropBackup(c)];
  }

  lemma DropSucceeds(s: State, c: CallerId)
    requires s.lock == Some(c) && s.phase.Swapped?
    ensures Step(s, DropBackup(c)) == Some(s.(phase := SwapCleaned(s.phase.record), backups := s.backups - {c.process}))
  {
  }

  lemma StagingSucceeds(s: State, c: CallerId) returns (actions: seq<Action>, t: State)
    requires s.lock == Some(c) && s.phase.Verified?
    ensures Run(s, actions) == Some(t)
    ensures t == s.(phase := BackupCleared(s.phase.record), stagedRecords := s.stagedRecords[c := s.phase.record],
                    backups := t.backups)
  {
    var s1 := Step(s, StageRecord(c)).value;
    t := Step(s1, ClearBackup(c)).value;
    RunTwo(s, StageRecord(c), s1, ClearBackup(c), t);
    actions := [StageRecord(c), ClearBackup(c)];
  }

  lemma RecordingSucceeds(s: State, c: CallerId) returns (actions: seq<Action>, t: State)
    requires s.lock == Some(c) && s.phase.SwapCleaned? && c in s.stagedRecords
    ensures Run(s, actions) == Some(t)
    ensures t == s.(lock := None, phase := t.phase, record := Some(s.stagedRecords[c]),
                    stagedRecords := t.stagedRecords)
  {
    var s1 := Step(s, SwapRecord(c)).value;
    t := Step(s1, ReturnFresh(c)).value;
    RunTwo(s, SwapRecord(c), s1, ReturnFresh(c), t);
    actions := [SwapRecord(c), ReturnFresh(c)];
  }

  lemma PublishingSucceeds(s: State, c: CallerId) returns (actions: seq<Action>, t: State)
    requires s.lock == Some(c) && s.phase.Verified? && c in s.temporaries
    ensures Run(s, actions) == Some(t) && t.lock.None? && t.record == Some(s.phase.record)
    ensures t.published == Some(s.temporaries[c]) && t.log == s.log && t.files == s.files
  {
    var staging, s1 := StagingSucceeds(s, c);
    var swapping, s2 := SwapSucceeds(s1, c);
    var recording;
    recording, t := RecordingSucceeds(s2, c);
    RunAppend(s1, swapping, s2, recording);
    RunAppend(s, staging, s1, swapping + recording);
    actions := staging + (swapping + recording);
  }

  /** Whatever files there are when the command ends: as long as `a` has its content again when it is
      read a second time, the call records its outputs under the key of `a` alone. */
  lemma AnythingIsRecorded(s: State, c: CallerId, during: map<string, Digest>, later: map<string, Digest>)
    returns (actions: seq<Action>, t: State, ranAt: nat)
    requires Initial(s) && s.files == BEFORE && "a" in later && later["a"] == 1
    ensures Run(s, actions) == Some(t) && t.lock.None? && t.files == later
    ensures t.record == Some(Record(Key(0, BEFORE), map["out" := 7])) && t.published == Some(GENERATED)
    ensures ranAt < |t.log| && t.log[ranAt].CommandRan? && t.log[ranAt].files == during
    ensures forall m :: 0 <= m < |t.log| && t.log[m].CommandRan? ==> m == ranAt
  {
    var missing, s1 := FirstCallMisses(s, c);
    var running, s2, changes := CommandSeesAnything(s1, c, during, later);
    var confirming, s3 := KeyIsConfirmed(s2, c);
    var publishing;
    publishing, t := PublishingSucceeds(s3, c);
    ranAt := |s1.log|;
    assert s2.log[ranAt] == CommandRan(c, during, changes) && s3.log[ranAt] == s2.log[ranAt];
    RunAppend(s2, confirming, s3, publishing);
    RunAppend(s1, running, s2, confirming + publishing);
    RunAppend(s, missing, s1, running + (confirming + publishing));
    actions := missing + (running + (confirming + publishing));
  }

  /** And once there is `a` alone, the next caller is handed these outputs, although the only command
      ended with other files. */
  lemma AnythingIsHandedOut(s: State, c: CallerId, d: CallerId, during: map<string, Digest>, later: map<string, Digest>)
    returns (first: seq<Action>, u: State, ranAt: nat, second: seq<Action>)
    requires Initial(s) && s.files == BEFORE && "a" in later && later["a"] == 1
    ensures Run(s, first) == Some(u) && u.files == BEFORE
    ensures u.record.Some? && Some(u.record.value.key) == CurrentKey(u.files, BOTH)
    ensures ranAt < |u.log| && u.log[ranAt].CommandRan? && u.log[ranAt].files == during
    ensures forall m :: 0 <= m < |u.log| && u.log[m].CommandRan? ==> m == ranAt
    ensures Run(u, second).Some? && |second| > 0 && second[|second| - 1] == ReturnCached(d)
  {
    var whole, t;
    whole, t, ranAt := AnythingIsRecorded(s, c, during, later);
    u := t.(files := BEFORE, changes := t.changes + 1);
    RunNext(s, whole, t, ChangeFiles(BEFORE), u);
    first := whole + [ChangeFiles(BEFORE)];
    KeyBefore();
    second := SettledHits(u, BOTH, Record(Key(0, BEFORE), map["out" := 7]), d);
  }

  /** A matching file that is there while the command runs goes unnoticed. */
  lemma AppearedFileIsMissed(s: State, c: CallerId, d: CallerId)
    returns (first: seq<Action>, u: State, ranAt: nat, second: seq<Action>)
    requires Initial(s) && s.files == BEFORE
    ensures Run(s, first) == Some(u) && u.files == BEFORE
    ensures u.record.Some? && Some(u.record.value.key) == CurrentKey(BEFORE, BOTH)
    ensures ranAt < |u.log| && u.log[ranAt].CommandRan? && u.log[ranAt].files == map["a" := 1, "b" := 2]
    ensures forall m :: 0 <= m < |u.log| && u.log[m].CommandRan? ==> m == ranAt
    ensures Run(u, second).Some? && |second| > 0 && second[|second| - 1] == ReturnCached(d)
  {
    var more := map["a" := 1, "b" := 2];
    first, u, ranAt, second := AnythingIsHandedOut(s, c, d, more, more);
  }

  /** So does a listed file that is edited while the command runs and restored before it is read again;
      the key is then the current one at every moment at which it is looked at. */
  lemma RestoredFileIsMissed(s: State, c: CallerId, d: CallerId)
    returns (first: seq<Action>, u: State, ranAt: nat, second: seq<Action>)
    requires Initial(s) && s.files == BEFORE
    ensures Run(s, first) == Some(u) && u.files == BEFORE
    ensures u.record.Some? && Some(u.record.value.key) == CurrentKey(BEFORE, BOTH)
    ensures ranAt < |u.log| && u.log[ranAt].CommandRan? && u.log[ranAt].files == map["a" := 2]
    ensures forall m :: 0 <= m < |u.log| && u.log[m].CommandRan? ==> m == ranAt
    ensures Run(u, second).Some? && |second| > 0 && second[|second| - 1] == ReturnCached(d)
  {
    first, u, ranAt, second := AnythingIsHandedOut(s, c, d, map["a" := 2], BEFORE);
  }
}
