/** The inputs a generator really ran with. Its key covers the files it listed; this is about the
    files there were when its command ended, and about what a user has to leave alone for the two to
    agree. */
module GeneratorCacheInputs {
  import opened Wrappers
  import opened GeneratorCache

  // ------------------------------------------------------------------ calls in the log

  predicate ListedAt(log: seq<Event>, c: CallerId, l: int) {
    0 <= l < |log| && log[l].FilesListed? && log[l].caller == c
  }

  predicate KeyedWith(log: seq<Event>, c: CallerId, i: int) {
    0 <= i < |log| && log[i].KeyComputed? && log[i].caller == c
  }

  predicate EndedAt(log: seq<Event>, c: CallerId, j: int) {
    0 <= j < |log| && log[j].CommandRan? && log[j].caller == c
  }

  /** The listing of the call that `c` is in the middle of. */
  predicate CallSince(log: seq<Event>, c: CallerId, l: int) {
    ListedAt(log, c, l) && NoneAcquired(log, c, l, |log|)
  }

  /** One call lists its files, then computes its key. */
  predicate ListsThenKeys(log: seq<Event>, c: CallerId, l: int, i: int) {
    ListedAt(log, c, l) && l < i && KeyedWith(log, c, i) && NoneAcquired(log, c, l, i)
  }

  /** One call lists its files, computes its key and runs its command. */
  predicate ListsThenRuns(log: seq<Event>, c: CallerId, l: int, i: int, j: int) {
    ListedAt(log, c, l) && l < i && KeyedWith(log, c, i) && i < j && EndedAt(log, c, j) && NoneAcquired(log, c, l, j)
  }

  /** No file changed between these two events. */
  predicate Undisturbed(log: seq<Event>, l: int, j: int)
    requires 0 <= l < |log| && log[l].FilesListed? && 0 <= j < |log| && log[j].CommandRan?
  {
    log[l].changes == log[j].changes
  }

  /** When the command ended there were exactly the files of its call's key. */
  predicate RanOnKey(log: seq<Event>, c: CallerId, l: int, i: int, j: int)
    requires ListsThenRuns(log, c, l, i, j)
  {
    CurrentKey(log[j].files, log[l].request) == Some(log[i].key)
  }

  // ------------------------------------------------------------------ the invariant

  /** A key covers files that its call's request asks for. */
  ghost predicate KeysFit(log: seq<Event>) {
    forall c, l, i :: ListsThenKeys(log, c, l, i) ==>
      log[i].key.settings == log[l].request.settings && Fits(log[i].key.files.Keys, log[l].request)
  }

  /** Every key was computed after a listing in the same call. */
  ghost predicate KeysListed(log: seq<Event>) {
    forall c, i :: KeyedWith(log, c, i) ==> exists l :: ListsThenKeys(log, c, l, i)
  }

  /** A command that nothing disturbed since the listing ran on its key. */
  ghost predicate CommandsRanOnKeys(log: seq<Event>) {
    forall c, l, i, j :: ListsThenRuns(log, c, l, i, j) && Undisturbed(log, l, j) ==> RanOnKey(log, c, l, i, j)
  }

  ghost predicate LogTells(log: seq<Event>) {
    KeysFit(log) && KeysListed(log) && CommandsRanOnKeys(log)
  }

  predicate Bounded(log: seq<Event>, changes: nat) {
    forall l :: 0 <= l < |log| && log[l].FilesListed? ==> log[l].changes <= changes
  }

  /** While nothing has changed since the call of `c` listed its files, its key is the current one. */
  ghost predicate KeyHolds(log: seq<Event>, request: Request, files: map<string, Digest>, changes: nat, c: CallerId) {
    && (forall l :: CallSince(log, c, l) ==> log[l].request == request)
    && forall l, i :: CallSince(log, c, l) && l < i && KeyedWith(log, c, i) && log[l].changes == changes ==>
         CurrentKey(files, request) == Some(log[i].key)
  }

  /** Likewise for what the call has listed and read so far. */
  ghost predicate PhaseHolds(log: seq<Event>, request: Request, files: map<string, Digest>, changes: nat, phase: Phase,
                             c: CallerId) {
    match phase
    case Locked(_) => forall l :: !CallSince(log, c, l)
    case Keying(_, listed, read) =>
      && (exists l :: CallSince(log, c, l))
      && forall l :: CallSince(log, c, l) && log[l].changes == changes ==>
           listed == Listed(files, request) && Agrees(read, files)
    case _ => exists l :: CallSince(log, c, l)
  }

  predicate Agrees(read: map<string, Digest>, files: map<string, Digest>) {
    forall name <- read :: name in files && files[name] == read[name]
  }

  ghost predicate InputsInv(s: State) {
    && LogTells(s.log) && Bounded(s.log, s.changes)
    && (s.lock.Some? ==>
          && KeyHolds(s.log, s.request, s.files, s.changes, s.lock.value)
          && PhaseHolds(s.log, s.request, s.files, s.changes, s.phase, s.lock.value))
  }

  // ------------------------------------------------------------------ one more event

  lemma CallSinceNow(log: seq<Event>, event: Event, c: CallerId, l: int)
    ensures CallSince(log + [event], c, l) <==>
              (event != Acquired(c) && CallSince(log, c, l)) || (l == |log| && ListedAt(log + [event], c, l))
  {
    var more := log + [event];
    if 0 <= l < |log| {
      assert more[l] == log[l];
      assert NoneAcquired(more, c, l, |more|) <==> NoneAcquired(log, c, l, |log|) && event != Acquired(c) by {
        assert forall m :: l < m < |log| ==> more[m] == log[m];
        assert more[|log|] == event;
      }
    }
  }

  lemma ListsThenKeysNow(log: seq<Event>, event: Event, c: CallerId, l: int, i: int)
    ensures ListsThenKeys(log + [event], c, l, i) <==>
              ListsThenKeys(log, c, l, i) || (i == |log| && KeyedWith(log + [event], c, i) && CallSince(log, c, l))
  {
    var more := log + [event];
    assert forall m :: 0 <= m < |log| ==> more[m] == log[m];
    if 0 <= l < i <= |log| {
      assert NoneAcquired(more, c, l, i) <==> NoneAcquired(log, c, l, i);
    }
  }

  lemma ListsThenRunsNow(log: seq<Event>, event: Event, c: CallerId, l: int, i: int, j: int)
    ensures ListsThenRuns(log + [event], c, l, i, j) <==>
              ListsThenRuns(log, c, l, i, j)
              || (j == |log| && EndedAt(log + [event], c, j) && CallSince(log, c, l) && l < i && KeyedWith(log, c, i))
  {
    var more := log + [event];
    assert forall m :: 0 <= m < |log| ==> more[m] == log[m];
    if 0 <= l < j <= |log| {
      assert NoneAcquired(more, c, l, j) <==> NoneAcquired(log, c, l, j);
    }
  }

  /** A new key fits the request of its call, which has listed its files. */
  ghost predicate KeyIsDue(log: seq<Event>, event: Event) {
    event.KeyComputed? ==>
      && (exists l :: CallSince(log, event.caller, l))
      && forall l :: CallSince(log, event.caller, l) ==>
           event.key.settings == log[l].request.settings && Fits(event.key.files.Keys, log[l].request)
  }

  /** A command that ends undisturbed ends on its key. */
  ghost predicate EndIsDue(log: seq<Event>, event: Event) {
    event.CommandRan? ==>
      forall l, i :: CallSince(log, event.caller, l) && l < i && KeyedWith(log, event.caller, i)
                     && log[l].changes == event.changes ==>
        CurrentKey(event.files, log[l].request) == Some(log[i].key)
  }

  lemma KeysStayFit(log: seq<Event>, event: Event)
    requires KeysFit(log) && KeyIsDue(log, event)
    ensures KeysFit(log + [event])
  {
    var more := log + [event];
    forall c, l, i | ListsThenKeys(more, c, l, i)
      ensures more[i].key.settings == more[l].request.settings && Fits(more[i].key.files.Keys, more[l].request)
    {
      ListsThenKeysNow(log, event, c, l, i);
      assert more[l] == log[l];
    }
  }

  lemma KeysStayListed(log: seq<Event>, event: Event)
    requires KeysListed(log) && KeyIsDue(log, event)
    ensures KeysListed(log + [event])
  {
    var more := log + [event];
    forall c, i | KeyedWith(more, c, i)
      ensures exists l :: ListsThenKeys(more, c, l, i)
    {
      if i < |log| {
        assert KeyedWith(log, c, i);
        var l :| ListsThenKeys(log, c, l, i);
        ListsThenKeysNow(log, event, c, l, i);
      } else {
        var l :| CallSince(log, event.caller, l);
        ListsThenKeysNow(log, event, c, l, i);
      }
    }
  }

  lemma CommandsStayOnKeys(log: seq<Event>, event: Event)
    requires CommandsRanOnKeys(log) && EndIsDue(log, event)
    ensures CommandsRanOnKeys(log + [event])
  {
    var more := log + [event];
    forall c, l, i, j | ListsThenRuns(more, c, l, i, j) && Undisturbed(more, l, j)
      ensures RanOnKey(more, c, l, i, j)
    {
      ListsThenRunsNow(log, event, c, l, i, j);
      assert more[l] == log[l] && more[i] == log[i];
      if j < |log| {
        assert more[j] == log[j];
        assert Undisturbed(log, l, j) && RanOnKey(log, c, l, i, j);
      }
    }
  }

  lemma LogStillTells(log: seq<Event>, event: Event)
    requires LogTells(log) && KeyIsDue(log, event) && EndIsDue(log, event)
    ensures LogTells(log + [event])
  {
    KeysStayFit(log, event);
    KeysStayListed(log, event);
    CommandsStayOnKeys(log, event);
  }

  /** What holds of a call goes on holding when it does something else than listing. */
  lemma KeyStillHolds(log: seq<Event>, event: Event, request: Request, files: map<string, Digest>, changes: nat,
                      c: CallerId)
    requires KeyHolds(log, request, files, changes, c) && event != Acquired(c) && !event.FilesListed?
    requires event.KeyComputed? && event.caller == c ==>
               forall l :: CallSince(log, c, l) && log[l].changes == changes ==>
                             CurrentKey(files, request) == Some(event.key)
    ensures KeyHolds(log + [event], request, files, changes, c)
  {
    var more := log + [event];
    forall l | CallSince(more, c, l)
      ensures more[l].request == request
    {
      CallSinceNow(log, event, c, l);
      assert more[l] == log[l];
    }
    forall l, i | CallSince(more, c, l) && l < i && KeyedWith(more, c, i) && more[l].changes == changes
      ensures CurrentKey(files, request) == Some(more[i].key)
    {
      CallSinceNow(log, event, c, l);
      assert more[l] == log[l];
      if i < |log| {
        assert more[i] == log[i] && KeyedWith(log, c, i);
      }
    }
  }

  lemma CallStays(log: seq<Event>, event: Event, c: CallerId)
    requires event != Acquired(c) && exists l :: CallSince(log, c, l)
    ensures exists l :: CallSince(log + [event], c, l)
  {
    var l :| CallSince(log, c, l);
    CallSinceNow(log, event, c, l);
  }

  // ------------------------------------------------------------------ every step

  lemma AcquireKeepsInputs(s: State, a: Action, t: State)
    requires InputsInv(s) && a.Acquire? && Step(s, a) == Some(t)
    ensures InputsInv(t)
  {
    LogStillTells(s.log, Acquired(a.c));
    forall l
      ensures !CallSince(t.log, a.c, l)
    {
      CallSinceNow(s.log, Acquired(a.c), a.c, l);
    }
  }

  lemma ChangeKeepsInputs(s: State, a: Action, t: State)
    requires InputsInv(s) && a.ChangeFiles? && Step(s, a) == Some(t)
    ensures InputsInv(t)
  {
  }

  lemma OthersKeepInputs(s: State, a: Action, t: State)
    requires InputsInv(s) && Step(s, a) == Some(t)
    requires a.AlterOutputs? || a.AlterTemporary? || a.DeleteRecord? || a.Crash? || a.Fail?
    ensures InputsInv(t)
  {
  }

  lemma ListingKeepsInputs(s: State, a: Action, t: State)
    requires InputsInv(s) && a.ListInputs? && s.lock == Some(a.c) && StepInside(s, a) == Some(t)
    ensures InputsInv(t)
  {
    var event := FilesListed(a.c, s.request, s.changes);
    assert s.phase.Locked? && t.log == s.log + [event];
    LogStillTells(s.log, event);
    forall l
      ensures CallSince(t.log, a.c, l) <==> l == |s.log|
    {
      CallSinceNow(s.log, event, a.c, l);
    }
  }

  lemma ReadingKeepsInputs(s: State, a: Action, t: State)
    requires InputsInv(s) && a.HashFile? && s.lock == Some(a.c) && StepInside(s, a) == Some(t)
    ensures InputsInv(t)
  {
    assert s.phase.Keying? || s.phase.Confirming?;
    var event := FileRead(a.c, a.name, s.files[a.name]);
    if s.phase.Keying? {
      var read := s.phase.read[a.name := s.files[a.name]];
      assert t == s.(log := s.log + [event], phase := Keying(s.phase.rebuild, s.phase.listed, read));
      ListingStillHolds(s.log, event, s.request, s.files, s.changes, s.phase.listed, s.phase.read, a.c);
      FileReadKeepsInputs(s, event, a.c, t);
    } else {
      assert t == s.(log := s.log + [event], phase := t.phase) && t.phase.Confirming?;
      FileReadKeepsInputs(s, event, a.c, t);
    }
  }

  lemma FileReadKeepsInputs(s: State, event: Event, c: CallerId, t: State)
    requires InputsInv(s) && s.lock == Some(c) && event.FileRead? && (s.phase.Keying? || s.phase.Confirming?)
    requires t == s.(log := s.log + [event], phase := t.phase)
    requires t.phase.Confirming? || t.phase.Keying?
    requires t.phase.Keying? ==>
               forall l :: CallSince(t.log, c, l) && t.log[l].changes == t.changes ==>
                 t.phase.listed == Listed(t.files, t.request) && Agrees(t.phase.read, t.files)
    ensures InputsInv(t)
  {
    LogStillTells(s.log, event);
    KeyStillHolds(s.log, event, s.request, s.files, s.changes, c);
    CallStays(s.log, event, c);
  }

  /** What was listed and read so far, with one more file. */
  lemma ListingStillHolds(log: seq<Event>, event: Event, request: Request, files: map<string, Digest>, changes: nat,
                          listed: set<string>, read: map<string, Digest>, c: CallerId)
    requires event.FileRead? && event.name in files && event.digest == files[event.name]
    requires forall l :: CallSince(log, c, l) && log[l].changes == changes ==>
               listed == Listed(files, request) && Agrees(read, files)
    ensures forall l :: CallSince(log + [event], c, l) && (log + [event])[l].changes == changes ==>
              listed == Listed(files, request) && Agrees(read[event.name := event.digest], files)
  {
    forall l | CallSince(log + [event], c, l) && (log + [event])[l].changes == changes
      ensures listed == Listed(files, request) && Agrees(read[event.name := event.digest], files)
    {
      CallSinceNow(log, event, c, l);
      assert (log + [event])[l] == log[l];
    }
  }

  /** Reading every listed file undisturbed gives the current key. */
  lemma ReadKeyIsCurrent(files: map<string, Digest>, request: Request, read: map<string, Digest>)
    requires read.Keys == Listed(files, request) && Agrees(read, files)
    ensures CurrentKey(files, request) == Some(Key(request.settings, read))
  {
    assert (map name | name in Listed(files, request) :: files[name]) == read;
  }

  lemma KeyingKeepsInputs(s: State, a: Action, t: State)
    requires Inv(s) && InputsInv(s) && a.ComputeKey? && s.lock == Some(a.c) && StepInside(s, a) == Some(t)
    ensures InputsInv(t)
  {
    var key := Key(s.request.settings, s.phase.read);
    var event := KeyComputed(a.c, key);
    assert t.log == s.log + [event] && s.phase.Keying? && s.phase.read.Keys == s.phase.listed;
    assert Fits(s.phase.listed, s.request);
    LogStillTells(s.log, event);
    forall l | CallSince(s.log, a.c, l) && s.log[l].changes == s.changes
      ensures CurrentKey(s.files, s.request) == Some(key)
    {
      ReadKeyIsCurrent(s.files, s.request, s.phase.read);
    }
    KeyStillHolds(s.log, event, s.request, s.files, s.changes, a.c);
    CallStays(s.log, event, a.c);
  }

  /** Any other step of the lock's holder. */
  lemma RestKeepsInputs(s: State, a: Action, t: State)
    requires InputsInv(s) && IsInside(a) && !a.ListInputs? && !a.HashFile? && !a.ComputeKey?
    requires s.lock == Some(a.c) && StepInside(s, a) == Some(t)
    ensures InputsInv(t)
  {
    InsideFrame(s, a, t);
    FramedStepKeepsInputs(s, a, t);
  }

  lemma FramedStepKeepsInputs(s: State, a: Action, t: State)
    requires InputsInv(s) && !a.ListInputs? && !a.HashFile? && !a.ComputeKey? && HasCaller(a) && s.lock == Some(a.c)
    requires Frame(s, a, t)
    ensures InputsInv(t)
  {
    if t.log != s.log {
      var event := t.log[|s.log|];
      assert t.log == s.log + [event];
      LogStillTells(s.log, event);
      KeyStillHolds(s.log, event, s.request, s.files, s.changes, a.c);
      CallStays(s.log, event, a.c);
    }
  }

  lemma StepKeepsInputs(s: State, a: Action, t: State)
    requires Inv(s) && InputsInv(s) && Step(s, a) == Some(t)
    ensures InputsInv(t)
  {
    if a.Acquire? {
      AcquireKeepsInputs(s, a, t);
    } else if a.ChangeFiles? {
      ChangeKeepsInputs(s, a, t);
    } else if !IsInside(a) {
      OthersKeepInputs(s, a, t);
    } else if a.ListInputs? {
      ListingKeepsInputs(s, a, t);
    } else if a.HashFile? {
      ReadingKeepsInputs(s, a, t);
    } else if a.ComputeKey? {
      KeyingKeepsInputs(s, a, t);
    } else {
      RestKeepsInputs(s, a, t);
    }
  }

  lemma {:induction false} RunKeepsInputs(s: State, actions: seq<Action>, t: State)
    requires Inv(s) && InputsInv(s) && Run(s, actions) == Some(t)
    ensures InputsInv(t)
    decreases |actions|
  {
    if actions != [] {
      var next := Step(s, actions[0]).value;
      StepKeepsInv(s, actions[0], next);
      StepKeepsInputs(s, actions[0], next);
      RunKeepsInputs(next, actions[1..], t);
    }
  }

  lemma ReachableInputs(s: State)
    requires Reachable(s)
    ensures Inv(s) && InputsInv(s)
  {
    var init, actions :| Initial(init) && Run(init, actions) == Some(s);
    ReachableInv(s);
    RunKeepsInputs(init, actions, s);
  }

  // ------------------------------------------------------------------ the theorems

  /** When a command ends, the files there are those of its key exactly when the listed files have
      their keyed content and no other matching file is there. */
  lemma CommandEndsOnKey(s: State, c: CallerId, tree: Tree, t: State)
    requires Reachable(s) && Step(s, RunCommand(c, tree)) == Some(t)
    ensures s.phase.Generating? && t.log == s.log + [CommandRan(c, s.files, s.changes)]
    ensures CurrentKey(s.files, s.request) == Some(s.phase.key)
            <==> ListedUnchanged(s.files, s.phase.key) && !Appeared(s.files, s.request, s.phase.key)
  {
    CommandAdds(s, c, tree, t);
    assert s.phase.key.settings == s.request.settings && Fits(s.phase.key.files.Keys, s.request) by {
      ReachableInv(s);
      GeneratingKeyFits(s, c);
    }
    CurrentKeyIs(s.files, s.request, s.phase.key);
  }

  lemma CommandAdds(s: State, c: CallerId, tree: Tree, t: State)
    requires Step(s, RunCommand(c, tree)) == Some(t)
    ensures s.lock == Some(c) && s.phase.Generating? && t.log == s.log + [CommandRan(c, s.files, s.changes)]
  {
  }

  lemma GeneratingKeyFits(s: State, c: CallerId)
    requires Inv(s) && s.lock == Some(c) && s.phase.Generating?
    ensures s.phase.key.settings == s.request.settings && Fits(s.phase.key.files.Keys, s.request)
  {
  }

  /** The same of every command in the log; and if no file changed from the listing to the command's
      end, the command ran on its key, all the time. */
  lemma CommandsRunOnKeys(s: State, c: CallerId, l: int, i: int, j: int)
    requires Reachable(s) && ListsThenRuns(s.log, c, l, i, j)
    ensures RanOnKey(s.log, c, l, i, j)
            <==> ListedUnchanged(s.log[j].files, s.log[i].key)
                 && !Appeared(s.log[j].files, s.log[l].request, s.log[i].key)
    ensures Undisturbed(s.log, l, j) ==> RanOnKey(s.log, c, l, i, j)
  {
    ReachableInputs(s);
    assert ListsThenKeys(s.log, c, l, i);
    CurrentKeyIs(s.log[j].files, s.log[l].request, s.log[i].key);
  }

  /** The record was made by this call, from its listing to its confirmation. */
  ghost predicate MadeBy(log: seq<Event>, record: Record, d: CallerId, l: int, i: nat, j: nat, k: nat) {
    CompletedRun(log, record, d, i, j, k) && ListsThenRuns(log, d, l, i, j)
  }

  lemma RecordIsMade(s: State, record: Record) returns (d: CallerId, l: int, i: nat, j: nat, k: nat)
    requires Reachable(s) && Justified(s.log, record)
    ensures MadeBy(s.log, record, d, l, i, j, k)
  {
    ReachableInputs(s);
    d, i, j, k :| CompletedRun(s.log, record, d, i, j, k);
    assert KeyedWith(s.log, d, i);
    l :| ListsThenKeys(s.log, d, l, i);
  }

  /** No call ever had a file change between its listing and its command's end: what a user can see to. */
  ghost predicate NeverDisturbed(log: seq<Event>) {
    forall d, l, i, j :: ListsThenRuns(log, d, l, i, j) ==> Undisturbed(log, l, j)
  }

  /** The outputs a cached return for key K hands out were made by a command that ended with exactly
      the files of K, if and only if the files of K had their content then and no other matching file
      was there; and it is so whenever no file changed between that call's listing and the end of its
      command. */
  lemma CachedOutputsWereMade(s: State, c: CallerId, t: State)
    returns (d: CallerId, l: int, i: nat, j: nat, k: nat)
    requires Reachable(s) && Step(s, ReturnCached(c)) == Some(t)
    ensures s.phase.Comparing? && s.phase.record.key == s.phase.key
    ensures MadeBy(s.log, s.phase.record, d, l, i, j, k)
    ensures RanOnKey(s.log, d, l, i, j) <==> CurrentKey(s.log[j].files, s.log[l].request) == Some(s.phase.key)
    ensures RanOnKey(s.log, d, l, i, j)
            <==> ListedUnchanged(s.log[j].files, s.phase.key)
                 && !Appeared(s.log[j].files, s.log[l].request, s.phase.key)
    ensures Undisturbed(s.log, l, j) || NeverDisturbed(s.log) ==> RanOnKey(s.log, d, l, i, j)
  {
    CachedReturnIsSound(s, c, t);
    d, l, i, j, k := RecordIsMade(s, s.phase.record);
    CommandsRunOnKeys(s, d, l, i, j);
  }

  // ------------------------------------------------------------------ leaving the files alone

  lemma {:induction false} QuietRun(s: State, actions: seq<Action>, t: State)
    requires Run(s, actions) == Some(t) && forall a <- actions :: !a.ChangeFiles?
    ensures s.log <= t.log && t.changes == s.changes
    ensures forall l :: |s.log| <= l < |t.log| && t.log[l].FilesListed? ==> t.log[l].changes == s.changes
    decreases |actions|
  {
    if actions != [] {
      var a, next := actions[0], Step(s, actions[0]).value;
      assert a in actions;
      QuietStep(s, a, next);
      QuietRun(next, actions[1..], t);
      assert forall l :: |s.log| <= l < |next.log| ==> t.log[l] == next.log[l];
    }
  }

  lemma QuietStep(s: State, a: Action, t: State)
    requires Step(s, a) == Some(t) && !a.ChangeFiles?
    ensures s.log <= t.log && t.changes == s.changes
    ensures forall l :: |s.log| <= l < |t.log| && t.log[l].FilesListed? ==> t.log[l].changes == s.changes
  {
    if IsInside(a) {
      InsideFrame(s, a, t);
    } else {
      OutsideIsQuiet(s, a, t);
    }
  }

  lemma OutsideIsQuiet(s: State, a: Action, t: State)
    requires Step(s, a) == Some(t) && !a.ChangeFiles? && !IsInside(a)
    ensures t.changes == s.changes && t.log == s.log + if a.Acquire? then [Acquired(a.c)] else []
  {
  }

  /** While nobody changes a file from before a call's listing until its command ends, the command
      runs with exactly the files of its key. */
  lemma QuietCommandRunsOnKey(s: State, c: CallerId, actions: seq<Action>, u: State, tree: Tree)
    requires Reachable(s) && s.lock == Some(c) && s.phase.Locked?
    requires Run(s, actions) == Some(u) && forall a <- actions :: !a.ChangeFiles?
    requires Step(u, RunCommand(c, tree)).Some?
    ensures u.phase.Generating? && CurrentKey(u.files, u.request) == Some(u.phase.key)
  {
    assert InputsInv(s) && Inv(u) && InputsInv(u) by {
      ReachableInputs(s);
      RunKeepsInv(s, actions, u);
      RunKeepsInputs(s, actions, u);
    }
    QuietRun(s, actions, u);
    CommandAdds(u, c, tree, Step(u, RunCommand(c, tree)).value);
    var l := CallIsKeyed(u, c);
    ListedSinceLocked(s, c, u.log, l);
  }

  /** The call of someone who has just taken the lock has no listing yet. */
  lemma ListedSinceLocked(s: State, c: CallerId, more: seq<Event>, l: int)
    requires InputsInv(s) && s.lock == Some(c) && s.phase.Locked? && s.log <= more && CallSince(more, c, l)
    ensures |s.log| <= l
  {
    if l < |s.log| {
      assert s.log[l] == more[l];
      assert CallSince(s.log, c, l);
    }
  }

  lemma CallIsKeyed(u: State, c: CallerId) returns (l: int)
    requires Inv(u) && InputsInv(u) && u.lock == Some(c) && u.phase.Generating?
    ensures CallSince(u.log, c, l)
    ensures u.log[l].changes == u.changes ==> CurrentKey(u.files, u.request) == Some(u.phase.key)
  {
    var i := u.phase.keyedAt;
    assert KeyedAt(u.log, c, u.phase.key, i);
    assert KeyedWith(u.log, c, i);
    l :| ListsThenKeys(u.log, c, l, i);
    assert CallSince(u.log, c, l);
  }
}
