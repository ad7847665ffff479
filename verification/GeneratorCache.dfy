/** The content-addressed generator cache (`run_generator`) as a transition system.

    Any number of callers contend for one generator's lock. Each filesystem step is a step of
    the system, and between any two steps a caller may crash, the published outputs may be
    altered, and input files may appear, change and vanish. A command takes any time: the step
    `RunCommand` is its end. Digests are identified with what they digest. */
module GeneratorCache {
  import opened Wrappers

  type Digest = nat

  /** The digest of a tree without files, also of one that is missing or not a directory. */
  const EMPTY_DIGEST: Digest := 0

  /** A direct entry of the output root: a directory, by the digest of its tree, or anything else. */
  datatype Entry = Folder(digest: Digest) | Stray

  type Tree = map<string, Entry>

  /** What a key digests: the settings a caller knows (the generator and its environment), and the
      files it hashes, by path. */
  datatype Key = Key(settings: Digest, files: map<string, Digest>)

  /** What a caller asks for. Its inputs are the files at the paths the patterns match; the
      companions, the executable and the state files of dependencies, are hashed as well. */
  datatype Request = Request(settings: Digest, patterns: iset<string>, companions: set<string>)

  datatype Record = Record(key: Key, outputs: map<string, Digest>)

  /** A process and a number that is unique in it: the names of its temporary paths. */
  datatype CallerId = CallerId(process: nat, sequence: nat)

  datatype Event =
    | Acquired(caller: CallerId)
    | FilesListed(caller: CallerId, request: Request, changes: nat)
    | FileRead(caller: CallerId, name: string, digest: Digest)
    | KeyComputed(caller: CallerId, key: Key)
    | CommandRan(caller: CallerId, files: map<string, Digest>, changes: nat)   // with the files there were
    | KeyConfirmed(caller: CallerId, key: Key, outputs: map<string, Digest>)

  /** Where the caller inside the locked section stands. `keyedAt` and `ranAt` are positions in the event log. */
  datatype Phase =
    | Locked(rebuild: bool)
    | Keying(rebuild: bool, listed: set<string>, read: map<string, Digest>)
    | Keyed(rebuild: bool, key: Key, keyedAt: nat)
    | Reading(key: Key, keyedAt: nat, record: Record)
    | Comparing(key: Key, keyedAt: nat, record: Record, observed: map<string, Digest>)
    | Missed(key: Key, keyedAt: nat)
    | Generating(key: Key, keyedAt: nat, names: set<string>)
    | Hashing(key: Key, keyedAt: nat, ranAt: nat, names: set<string>, hashed: map<string, Digest>)
    | Confirming(key: Key, keyedAt: nat, ranAt: nat, hashed: map<string, Digest>, read: map<string, Digest>)
    | Verified(record: Record)
    | Staged(record: Record)
    | BackupCleared(record: Record)
    | OldAside(record: Record)
    | Swapped(record: Record)
    | SwapCleaned(record: Record)
    | RecordAside(record: Record)
    | Published(record: Record)

  datatype State = State(
    files: map<string, Digest>,              // the files keys can cover, by path
    changes: nat,                            // how often they have changed
    published: Option<Tree>,                 // the generator's output root
    backups: map<nat, Tree>,                 // old output roots, by process
    temporaries: map<CallerId, Tree>,
    record: Option<Record>,                  // the state file
    recordBackups: map<nat, Record>,
    stagedRecords: map<CallerId, Record>,
    lock: Option<CallerId>,
    request: Request,                        // of the lock's holder, while there is one
    phase: Phase,                            // likewise
    tampered: bool,                          // whether outputs were altered since the lock was last taken
    log: seq<Event>)

  datatype Action =
    | Acquire(c: CallerId, rebuild: bool, request: Request)
    | ListInputs(c: CallerId)
    | HashFile(c: CallerId, name: string)
    | ComputeKey(c: CallerId)
    | ReadRecord(c: CallerId)
    | ListOutputs(c: CallerId)
    | CompareOutput(c: CallerId, name: string)
    | ReturnCached(c: CallerId)
    | Prepare(c: CallerId, names: set<string>)
    | RunCommand(c: CallerId, tree: Tree)
    | HashOutput(c: CallerId, name: string)
    | RecheckKey(c: CallerId)
    | ConfirmKey(c: CallerId)
    | StageRecord(c: CallerId)
    | ClearBackup(c: CallerId)
    | MoveOldAside(c: CallerId)
    | MoveNewIn(c: CallerId)
    | MoveNewInFails(c: CallerId, restored: bool)
    | DropBackup(c: CallerId)
    | SwapRecord(c: CallerId)
    | MoveRecordAside(c: CallerId)
    | MoveRecordIn(c: CallerId)
    | MoveRecordInFails(c: CallerId, restored: bool)
    | ReturnFresh(c: CallerId)
    | Fail(c: CallerId, cleaned: bool)
    | Crash(c: CallerId)
    | AlterOutputs(altered: Option<Tree>)
    | AlterTemporary(c: CallerId, tree: Tree)
    | ChangeFiles(files: map<string, Digest>)
    | DeleteRecord

  /** The files a caller lists before anything else. */
  function Listed(files: map<string, Digest>, request: Request): set<string> {
    (set name | name in files && name in request.patterns) + request.companions
  }

  /** The key that a caller with this request would compute if nothing changed meanwhile. */
  function CurrentKey(files: map<string, Digest>, request: Request): Option<Key> {
    if request.companions <= files.Keys
    then Some(Key(request.settings, map name | name in Listed(files, request) :: files[name]))
    else None
  }

  function Move(s: State, phase: Phase): State {
    s.(phase := phase)
  }

  function OutputDigest(tree: Tree, name: string): Digest {
    if name in tree && tree[name].Folder? then tree[name].digest else EMPTY_DIGEST
  }

  predicate FolderHasDigest(published: Option<Tree>, name: string, digest: Digest) {
    && published.Some? && name in published.value && published.value[name].Folder?
    && OutputDigest(published.value, name) == digest
  }

  /** The listing half of `generator_outputs_match`: only directories, with exactly these names. */
  predicate ListsExactly(tree: Tree, names: set<string>) {
    tree.Keys == names && forall name <- tree :: tree[name].Folder?
  }

  /** The tree has exactly the recorded outputs, each with exactly the recorded digest. */
  predicate Matches(published: Option<Tree>, outputs: map<string, Digest>) {
    && published.Some? && ListsExactly(published.value, outputs.Keys)
    && forall name <- outputs :: OutputDigest(published.value, name) == outputs[name]
  }

  function Release(s: State): State {
    s.(lock := None)
  }

  function CleanUp(s: State, c: CallerId): State {
    s.(temporaries := s.temporaries - {c}, stagedRecords := s.stagedRecords - {c})
  }

  /** One step. `None` when the action is not enabled. */
  function Step(s: State, a: Action): Option<State> {
    match a
    case AlterOutputs(altered) => Some(s.(published := altered, tampered := true))
    case AlterTemporary(c, tree) =>
      Some(s.(temporaries := s.temporaries[c := tree], tampered := s.tampered || s.lock == Some(c)))
    case ChangeFiles(files) => Some(s.(files := files, changes := s.changes + 1))
    case DeleteRecord => Some(s.(record := None))
    case Crash(c) => if s.lock == Some(c) then Some(Release(s)) else None
    case Fail(c, cleaned) =>
      if s.lock == Some(c) then Some(Release(if cleaned then CleanUp(s, c) else s)) else None
    case Acquire(c, rebuild, request) =>
      if s.lock.Some? then None
      else Some(s.(lock := Some(c), request := request, phase := Locked(rebuild), tampered := false,
                   log := s.log + [Acquired(c)]))
    case _ => if s.lock == Some(a.c) then StepInside(s, a) else None
  }

  /** The steps a caller takes between taking and dropping the lock. */
  function StepInside(s: State, a: Action): Option<State> {
    match a
    case ListInputs(c) =>
      match s.phase {
        case Locked(rebuild) =>
          Some(Move(s, Keying(rebuild, Listed(s.files, s.request), map[]))
               .(log := s.log + [FilesListed(c, s.request, s.changes)]))
        case _ => None
      }
    case HashFile(c, name) =>
      if name !in s.files then None
      else
        var read := s.(log := s.log + [FileRead(c, name, s.files[name])]);
        match s.phase {
          case Keying(rebuild, listed, known) =>
            if name in listed && name !in known
            then Some(Move(read, Keying(rebuild, listed, known[name := s.files[name]])))
            else None
          case Confirming(key, keyedAt, ranAt, hashed, known) =>
            if name in key.files && name !in known
            then Some(Move(read, Confirming(key, keyedAt, ranAt, hashed, known[name := s.files[name]])))
            else None
          case _ => None
        }
    case ComputeKey(c) =>
      match s.phase {
        case Keying(rebuild, listed, read) =>
          if read.Keys != listed then None
          else
            var key := Key(s.request.settings, read);
            Some(Move(s, Keyed(rebuild, key, |s.log|)).(log := s.log + [KeyComputed(c, key)]))
        case _ => None
      }
    case ReadRecord(c) =>
      match s.phase {
        case Keyed(rebuild, key, keyedAt) =>
          Some(Move(s, if !rebuild && s.record.Some? && s.record.value.key == key
                          then Reading(key, keyedAt, s.record.value) else Missed(key, keyedAt)))
        case _ => None
      }
    case ListOutputs(c) =>
      match s.phase {
        case Reading(key, keyedAt, record) =>
          Some(Move(s, if s.published.Some? && ListsExactly(s.published.value, record.outputs.Keys)
                          then Comparing(key, keyedAt, record, map[]) else Missed(key, keyedAt)))
        case _ => None
      }
    case CompareOutput(c, name) =>
      match s.phase {
        case Comparing(key, keyedAt, record, observed) =>
          if name !in record.outputs || name in observed then None
          else Some(Move(s, if FolderHasDigest(s.published, name, record.outputs[name])
                            then Comparing(key, keyedAt, record,
                                           observed[name := OutputDigest(s.published.value, name)])
                            else Missed(key, keyedAt)))
        case _ => None
      }
    case ReturnCached(c) =>
      match s.phase {
        case Comparing(key, keyedAt, record, observed) =>
          if observed.Keys == record.outputs.Keys then Some(Release(s)) else None
        case _ => None
      }
    case _ => StepWriting(s, a)
  }

  /** The steps of a caller that has to generate. */
  function StepWriting(s: State, a: Action): Option<State> {
    match a
    case Prepare(c, names) =>
      match s.phase {
        case Missed(key, keyedAt) =>
          Some(Move(s, Generating(key, keyedAt, names))
               .(temporaries := s.temporaries[c := map name | name in names :: Folder(EMPTY_DIGEST)]))
        case _ => None
      }
    case RunCommand(c, tree) =>
      match s.phase {
        case Generating(key, keyedAt, names) =>
          Some(Move(s, Hashing(key, keyedAt, |s.log|, names, map[]))
               .(temporaries := s.temporaries[c := tree], log := s.log + [CommandRan(c, s.files, s.changes)]))
        case _ => None
      }
    case HashOutput(c, name) =>
      match s.phase {
        case Hashing(key, keyedAt, ranAt, names, hashed) =>
          if name !in names || name in hashed || c !in s.temporaries then None
          else Some(Move(s, Hashing(key, keyedAt, ranAt, names, hashed[name := OutputDigest(s.temporaries[c], name)])))
        case _ => None
      }
    case RecheckKey(c) =>
      match s.phase {
        case Hashing(key, keyedAt, ranAt, names, hashed) =>
          if hashed.Keys != names then None else Some(Move(s, Confirming(key, keyedAt, ranAt, hashed, map[])))
        case _ => None
      }
    case ConfirmKey(c) =>
      match s.phase {
        case Confirming(key, keyedAt, ranAt, hashed, read) =>
          if read.Keys != key.files.Keys then None
          else if Key(s.request.settings, read) != key then Some(Release(CleanUp(s, c)))
          else Some(Move(s, Verified(Record(key, hashed))).(log := s.log + [KeyConfirmed(c, key, hashed)]))
        case _ => None
      }
    case StageRecord(c) =>
      match s.phase {
        case Verified(record) => Some(Move(s, Staged(record)).(stagedRecords := s.stagedRecords[c := record]))
        case _ => None
      }
    case ClearBackup(c) =>
      match s.phase {
        case Staged(record) => Some(Move(s, BackupCleared(record)).(backups := s.backups - {c.process}))
        case _ => None
      }
    case MoveOldAside(c) =>
      match s.phase {
        case BackupCleared(record) =>
          Some(Move(s, OldAside(record))
               .(published := None,
                 backups := if s.published.Some? then s.backups[c.process := s.published.value] else s.backups))
        case _ => None
      }
    case MoveNewIn(c) =>
      match s.phase {
        case OldAside(record) =>
          if c !in s.temporaries then None
          else Some(Move(s, Swapped(record)).(published := Some(s.temporaries[c]), temporaries := s.temporaries - {c}))
        case _ => None
      }
    case MoveNewInFails(c, restored) =>
      match s.phase {
        case OldAside(record) =>
          Some(Release(CleanUp(if restored && c.process in s.backups
                               then s.(published := Some(s.backups[c.process]), backups := s.backups - {c.process})
                               else s, c)))
        case _ => None
      }
    case _ => StepPublishing(s, a)
  }

  /** The steps after the new outputs are in place. */
  function StepPublishing(s: State, a: Action): Option<State> {
    match a
    case DropBackup(c) =>
      match s.phase {
        case Swapped(record) => Some(Move(s, SwapCleaned(record)).(backups := s.backups - {c.process}))
        case _ => None
      }
    case SwapRecord(c) =>
      match s.phase {
        case SwapCleaned(record) => PlaceRecord(s, c, false)
        case _ => None
      }
    case MoveRecordAside(c) =>
      match s.phase {
        case SwapCleaned(record) =>
          Some(Move(s, RecordAside(record))
               .(record := None,
                 recordBackups := if s.record.Some? then s.recordBackups[c.process := s.record.value]
                                  else s.recordBackups - {c.process}))
        case _ => None
      }
    case MoveRecordIn(c) =>
      match s.phase {
        case RecordAside(record) => PlaceRecord(s, c, true)
        case _ => None
      }
    case MoveRecordInFails(c, restored) =>
      match s.phase {
        case RecordAside(record) =>
          Some(Release((if restored && c.process in s.recordBackups
                        then s.(record := Some(s.recordBackups[c.process]),
                                recordBackups := s.recordBackups - {c.process})
                        else s)
                       .(stagedRecords := s.stagedRecords - {c})))
        case _ => None
      }
    case ReturnFresh(c) =>
      match s.phase {
        case Published(record) => Some(Release(s))
        case _ => None
      }
    case _ => None
  }

  /** The staged record becomes the state file; the fallback path then drops the old one. */
  function PlaceRecord(s: State, c: CallerId, dropBackup: bool): Option<State>
    requires s.phase.SwapCleaned? || s.phase.RecordAside?
  {
    if c !in s.stagedRecords then None
    else Some(Move(s, Published(s.phase.record))
              .(record := Some(s.stagedRecords[c]), stagedRecords := s.stagedRecords - {c},
                recordBackups := if dropBackup then s.recordBackups - {c.process} else s.recordBackups))
  }

  // ------------------------------------------------------------------ every run

  /** An empty disk and nobody at work. */
  predicate Initial(s: State) {
    && s.published.None? && s.record.None? && s.lock.None?
    && s.backups == map[] && s.temporaries == map[] && s.recordBackups == map[] && s.stagedRecords == map[]
    && s.log == []
  }

  function Run(s: State, actions: seq<Action>): Option<State>
    decreases |actions|
  {
    if actions == [] then Some(s)
    else
      var next :- Step(s, actions[0]);
      Run(next, actions[1..])
  }

  /** `c` read these digests before position `i`, and did not start over between. */
  ghost predicate AllReadBefore(log: seq<Event>, c: CallerId, files: map<string, Digest>, i: nat) {
    forall name <- files :: ReadBefore(log, c, name, files[name], i)
  }

  ghost predicate ReadBefore(log: seq<Event>, c: CallerId, name: string, digest: Digest, i: nat) {
    exists p: nat :: p < i <= |log| && log[p] == FileRead(c, name, digest) && NoneAcquired(log, c, p, i)
  }

  /** `c` read these digests strictly between two positions. */
  ghost predicate AllReadBetween(log: seq<Event>, c: CallerId, files: map<string, Digest>, j: nat, k: nat) {
    forall name <- files :: ReadBetween(log, c, name, files[name], j, k)
  }

  ghost predicate ReadBetween(log: seq<Event>, c: CallerId, name: string, digest: Digest, j: nat, k: nat) {
    exists p: nat :: j < p < k <= |log| && log[p] == FileRead(c, name, digest)
  }

  predicate NoneAcquired(log: seq<Event>, c: CallerId, i: nat, k: nat)
    requires k <= |log|
  {
    forall m :: i < m < k ==> log[m] != Acquired(c)
  }

  /** The log holds a completed call for this record: every file of its key was read with the keyed
      digest, the key was computed, then the command ran, then every one of these files was read
      again with the same digest, and the key confirmed with these output digests, all by one caller
      that did not start over in between. */
  ghost predicate Justified(log: seq<Event>, record: Record) {
    exists c, i, j, k :: CompletedRun(log, record, c, i, j, k)
  }

  ghost predicate CompletedRun(log: seq<Event>, record: Record, c: CallerId, i: nat, j: nat, k: nat) {
    && i < j < k < |log|
    && log[i] == KeyComputed(c, record.key)
    && log[j].CommandRan? && log[j].caller == c
    && log[k] == KeyConfirmed(c, record.key, record.outputs)
    && NoneAcquired(log, c, i, k)
    && AllReadBefore(log, c, record.key.files, i) && AllReadBetween(log, c, record.key.files, j, k)
  }

  // ------------------------------------------------------------------ the invariant

  /** `c` computed `key` at position `i` of the log, from files it had just read, and has not taken
      the lock again since. */
  ghost predicate KeyedAt(log: seq<Event>, c: CallerId, key: Key, i: nat) {
    && i < |log| && log[i] == KeyComputed(c, key)
    && NoneAcquired(log, c, i, |log|) && AllReadBefore(log, c, key.files, i)
  }

  /** The paths are companions or match the request's patterns, and no companion is missing. */
  ghost predicate Fits(names: set<string>, request: Request) {
    request.companions <= names && forall name <- names :: name in request.companions || name in request.patterns
  }

  ghost predicate KeyOk(log: seq<Event>, request: Request, c: CallerId, key: Key, keyedAt: nat) {
    KeyedAt(log, c, key, keyedAt) && key.settings == request.settings && Fits(key.files.Keys, request)
  }

  ghost predicate RanAfter(log: seq<Event>, c: CallerId, keyedAt: nat, ranAt: nat) {
    keyedAt < ranAt < |log| && log[ranAt].CommandRan? && log[ranAt].caller == c
  }

  /** What the log says of the steps the lock's holder `c` has taken, in each phase. */
  ghost predicate LogOk(log: seq<Event>, request: Request, phase: Phase, c: CallerId) {
    match phase
    case Locked(_) => true
    case Keying(_, listed, read) => read.Keys <= listed && Fits(listed, request) && AllReadBefore(log, c, read, |log|)
    case Keyed(_, key, keyedAt) => KeyOk(log, request, c, key, keyedAt)
    case Reading(key, keyedAt, record) => KeyOk(log, request, c, key, keyedAt) && record.key == key
      && Justified(log, record)
    case Comparing(key, keyedAt, record, observed) =>
      && KeyOk(log, request, c, key, keyedAt) && record.key == key && Justified(log, record)
      && forall name <- observed :: name in record.outputs && observed[name] == record.outputs[name]
    case Missed(key, keyedAt) => KeyOk(log, request, c, key, keyedAt)
    case Generating(key, keyedAt, _) => KeyOk(log, request, c, key, keyedAt)
    case Hashing(key, keyedAt, ranAt, names, hashed) =>
      KeyOk(log, request, c, key, keyedAt) && hashed.Keys <= names && RanAfter(log, c, keyedAt, ranAt)
    case Confirming(key, keyedAt, ranAt, hashed, read) =>
      && KeyOk(log, request, c, key, keyedAt) && RanAfter(log, c, keyedAt, ranAt)
      && read.Keys <= key.files.Keys && AllReadBetween(log, c, read, ranAt, |log|)
    case _ => Justified(log, phase.record)
  }

  predicate DigestsAgree(tree: Tree, outputs: map<string, Digest>) {
    forall name <- outputs :: OutputDigest(tree, name) == outputs[name]
  }

  /** The part of the recorded outputs a comparison has got through, still on disk. */
  predicate Agreeing(published: Option<Tree>, record: Record, observed: map<string, Digest>) {
    && published.Some? && ListsExactly(published.value, record.outputs.Keys)
    && DigestsAgree(published.value, observed)
  }

  /** What is on disk in each phase of the lock's holder `c`. */
  predicate DiskOk(s: State, c: CallerId) {
    match s.phase
    case Comparing(_, _, record, observed) => !s.tampered ==> Agreeing(s.published, record, observed)
    case Hashing(_, _, _, _, hashed) => HasTemporary(s, c, hashed)
    case Confirming(_, _, _, hashed, _) => HasTemporary(s, c, hashed)
    case Verified(record) => HasTemporary(s, c, record.outputs)
    case Staged(record) => HasTemporary(s, c, record.outputs) && HasStaged(s, c, record)
    case BackupCleared(record) => HasTemporary(s, c, record.outputs) && HasStaged(s, c, record)
    case OldAside(record) => HasTemporary(s, c, record.outputs) && HasStaged(s, c, record)
    case Swapped(record) => HasSwapped(s, record) && HasStaged(s, c, record)
    case SwapCleaned(record) => HasSwapped(s, record) && HasStaged(s, c, record)
    case RecordAside(record) => HasSwapped(s, record) && HasStaged(s, c, record)
    case Published(record) => HasSwapped(s, record) && (s.record.Some? ==> s.record.value == record)
    case _ => true
  }

  predicate HasTemporary(s: State, c: CallerId, outputs: map<string, Digest>) {
    c in s.temporaries && (!s.tampered ==> DigestsAgree(s.temporaries[c], outputs))
  }

  predicate HasStaged(s: State, c: CallerId, record: Record) {
    c in s.stagedRecords && s.stagedRecords[c] == record
  }

  predicate HasSwapped(s: State, record: Record) {
    !s.tampered ==> s.published.Some? && DigestsAgree(s.published.value, record.outputs)
  }

  /** Every record on disk, whatever its path, comes from a completed run. */
  ghost predicate RecordsJustified(s: State) {
    && (s.record.Some? ==> Justified(s.log, s.record.value))
    && (forall c <- s.stagedRecords :: Justified(s.log, s.stagedRecords[c]))
    && (forall p <- s.recordBackups :: Justified(s.log, s.recordBackups[p]))
  }

  ghost predicate Inv(s: State) {
    RecordsJustified(s) && (s.lock.Some? ==> LogOk(s.log, s.request, s.phase, s.lock.value) && DiskOk(s, s.lock.value))
  }

  lemma ReadsStay(log: seq<Event>, more: seq<Event>, c: CallerId, files: map<string, Digest>, i: nat, j: nat, k: nat)
    requires log <= more && i <= |log| && k <= |log|
    ensures AllReadBefore(log, c, files, i) ==> AllReadBefore(more, c, files, i)
    ensures AllReadBetween(log, c, files, j, k) ==> AllReadBetween(more, c, files, j, k)
  {
    forall name | name in files && ReadBefore(log, c, name, files[name], i)
      ensures ReadBefore(more, c, name, files[name], i)
    {
      var p: nat :| p < i && log[p] == FileRead(c, name, files[name]) && NoneAcquired(log, c, p, i);
      assert more[p] == log[p] && NoneAcquired(more, c, p, i);
    }
    forall name | name in files && ReadBetween(log, c, name, files[name], j, k)
      ensures ReadBetween(more, c, name, files[name], j, k)
    {
      var p: nat :| j < p < k && log[p] == FileRead(c, name, files[name]);
      assert more[p] == log[p];
    }
  }

  /** An event of a caller that holds the lock does not undo what it has read. */
  lemma ReadsReachFurther(log: seq<Event>, event: Event, c: CallerId, files: map<string, Digest>, j: nat)
    requires event != Acquired(c)
    ensures AllReadBefore(log, c, files, |log|) ==> AllReadBefore(log + [event], c, files, |log| + 1)
    ensures AllReadBetween(log, c, files, j, |log|) ==> AllReadBetween(log + [event], c, files, j, |log| + 1)
  {
    var more := log + [event];
    forall name | name in files && ReadBefore(log, c, name, files[name], |log|)
      ensures ReadBefore(more, c, name, files[name], |more|)
    {
      var p: nat :| p < |log| && log[p] == FileRead(c, name, files[name]) && NoneAcquired(log, c, p, |log|);
      assert more[p] == log[p] && NoneAcquired(more, c, p, |more|);
    }
    forall name | name in files && ReadBetween(log, c, name, files[name], j, |log|)
      ensures ReadBetween(more, c, name, files[name], j, |more|)
    {
      var p: nat :| j < p < |log| && log[p] == FileRead(c, name, files[name]);
      assert more[p] == log[p];
    }
  }

  lemma KeyedStays(log: seq<Event>, event: Event, c: CallerId, key: Key, i: nat)
    requires KeyedAt(log, c, key, i) && event != Acquired(c)
    ensures KeyedAt(log + [event], c, key, i)
  {
    ReadsStay(log, log + [event], c, key.files, i, 0, 0);
  }

  lemma JustifiedStays(log: seq<Event>, more: seq<Event>, record: Record)
    requires Justified(log, record) && log <= more
    ensures Justified(more, record)
  {
    var c, i, j, k :| CompletedRun(log, record, c, i, j, k);
    ReadsStay(log, more, c, record.key.files, i, j, k);
    assert CompletedRun(more, record, c, i, j, k);
  }

  /** The records stay justified while the log grows. */
  lemma RecordsStayJustified(s: State, t: State)
    requires RecordsJustified(s) && s.log <= t.log
    requires t.record == s.record && t.stagedRecords == s.stagedRecords && t.recordBackups == s.recordBackups
    ensures RecordsJustified(t)
  {
    forall r | Justified(s.log, r)
      ensures Justified(t.log, r)
    {
      JustifiedStays(s.log, t.log, r);
    }
  }

  lemma AcquireKeepsInv(s: State, a: Action, t: State)
    requires Inv(s) && Step(s, a) == Some(t)
    requires a.Acquire?
    ensures Inv(t)
  {
    RecordsStayJustified(s, t);
  }

  lemma EndKeepsInv(s: State, a: Action, t: State)
    requires Inv(s) && Step(s, a) == Some(t)
    requires a.Crash? || a.Fail?
    ensures Inv(t)
  {
    if a.Fail? && a.cleaned {
      RejectionKeepsInv(s, a.c, t);
    } else {
      assert t == Release(s);
    }
  }

  lemma AlterationKeepsInv(s: State, a: Action, t: State)
    requires Inv(s) && Step(s, a) == Some(t)
    requires a.AlterOutputs? || a.AlterTemporary?
    ensures Inv(t)
  {
  }

  lemma ChangeKeepsInv(s: State, a: Action, t: State)
    requires Inv(s) && Step(s, a) == Some(t)
    requires a.ChangeFiles? || a.DeleteRecord?
    ensures Inv(t)
  {
  }

  lemma ListKeepsInv(s: State, a: Action, t: State)
    requires Inv(s) && a.ListInputs?
    requires s.lock == Some(a.c) && StepInside(s, a) == Some(t)
    ensures Inv(t)
  {
    RecordsStayJustified(s, t);
  }

  /** Reading a file to compute the key. */
  lemma KeyingReads(log: seq<Event>, request: Request, c: CallerId, phase: Phase, name: string, digest: Digest)
    requires phase.Keying? && LogOk(log, request, phase, c) && name in phase.listed
    ensures LogOk(log + [FileRead(c, name, digest)], request,
                  Keying(phase.rebuild, phase.listed, phase.read[name := digest]), c)
  {
    var more := log + [FileRead(c, name, digest)];
    ReadsReachFurther(log, FileRead(c, name, digest), c, phase.read, 0);
    assert more[|log|] == FileRead(c, name, digest) && NoneAcquired(more, c, |log|, |more|);
    assert ReadBefore(more, c, name, digest, |more|);
  }

  /** Reading it again to confirm the key. */
  lemma ConfirmingReads(log: seq<Event>, request: Request, c: CallerId, phase: Phase, name: string, digest: Digest)
    requires phase.Confirming? && LogOk(log, request, phase, c) && name in phase.key.files
    ensures LogOk(log + [FileRead(c, name, digest)], request,
                  Confirming(phase.key, phase.keyedAt, phase.ranAt, phase.hashed, phase.read[name := digest]), c)
  {
    var more, ranAt := log + [FileRead(c, name, digest)], phase.ranAt;
    KeyedStays(log, FileRead(c, name, digest), c, phase.key, phase.keyedAt);
    ReadsReachFurther(log, FileRead(c, name, digest), c, phase.read, ranAt);
    assert more[|log|] == FileRead(c, name, digest) && more[ranAt] == log[ranAt];
    assert ReadBetween(more, c, name, digest, ranAt, |more|);
  }

  lemma HashKeepsInv(s: State, a: Action, t: State)
    requires Inv(s) && a.HashFile?
    requires s.lock == Some(a.c) && StepInside(s, a) == Some(t)
    ensures Inv(t)
  {
    if s.phase.Keying? {
      KeyingReads(s.log, s.request, a.c, s.phase, a.name, s.files[a.name]);
    } else {
      ConfirmingReads(s.log, s.request, a.c, s.phase, a.name, s.files[a.name]);
    }
    ReadingKeepsInv(s, a.c, t, FileRead(a.c, a.name, s.files[a.name]));
  }

  lemma ReadingKeepsInv(s: State, c: CallerId, t: State, event: Event)
    requires Inv(s) && s.lock == Some(c) && t == s.(phase := t.phase, log := s.log + [event])
    requires LogOk(t.log, t.request, t.phase, c)
    requires (s.phase.Keying? && t.phase.Keying?)
             || (s.phase.Confirming? && t.phase.Confirming? && t.phase.hashed == s.phase.hashed)
    ensures Inv(t)
  {
    RecordsStayJustified(s, t);
  }

  lemma ComputeKeepsInv(s: State, a: Action, t: State)
    requires Inv(s) && a.ComputeKey?
    requires s.lock == Some(a.c) && StepInside(s, a) == Some(t)
    ensures Inv(t)
  {
    RecordsStayJustified(s, t);
    ReadsStay(s.log, t.log, a.c, s.phase.read, |s.log|, 0, 0);
  }

  lemma LookupKeepsInv(s: State, a: Action, t: State)
    requires Inv(s) && (a.ReadRecord? || a.ListOutputs?)
    requires s.lock == Some(a.c) && StepInside(s, a) == Some(t)
    ensures Inv(t)
  {
  }

  lemma CompareKeepsInv(s: State, a: Action, t: State)
    requires Inv(s) && (a.CompareOutput? || a.ReturnCached?)
    requires s.lock == Some(a.c) && StepInside(s, a) == Some(t)
    ensures Inv(t)
  {
  }

  lemma PrepareKeepsInv(s: State, a: Action, t: State)
    requires Inv(s) && (a.Prepare? || a.HashOutput? || a.RecheckKey?)
    requires s.lock == Some(a.c) && StepWriting(s, a) == Some(t)
    ensures Inv(t)
  {
  }

  lemma CommandKeepsInv(s: State, a: Action, t: State)
    requires Inv(s) && a.RunCommand?
    requires s.lock == Some(a.c) && StepWriting(s, a) == Some(t)
    ensures Inv(t)
  {
    RecordsStayJustified(s, t);
    KeyedStays(s.log, CommandRan(a.c, s.files, s.changes), a.c, s.phase.key, s.phase.keyedAt);
  }

  lemma ConfirmKeepsInv(s: State, a: Action, t: State)
    requires Inv(s) && a.ConfirmKey?
    requires s.lock == Some(a.c) && StepWriting(s, a) == Some(t)
    ensures Inv(t)
  {
    assert s.phase.Confirming?;
    ConfirmingKeyFits(s, a.c);
    ConfirmationCases(s, a, t);
    if s.phase.read == s.phase.key.files {
      AcceptanceKeepsInv(s, a.c, t);
    } else {
      RejectionKeepsInv(s, a.c, t);
    }
  }

  lemma ConfirmationCases(s: State, a: Action, t: State)
    requires a.ConfirmKey? && StepWriting(s, a) == Some(t) && s.phase.Confirming?
    requires s.phase.key.settings == s.request.settings
    ensures t == if s.phase.read != s.phase.key.files then Release(CleanUp(s, a.c))
                 else s.(phase := Verified(Record(s.phase.key, s.phase.hashed)),
                         log := s.log + [KeyConfirmed(a.c, s.phase.key, s.phase.hashed)])
  {
  }

  lemma RejectionKeepsInv(s: State, c: CallerId, t: State)
    requires Inv(s) && t == Release(CleanUp(s, c))
    ensures Inv(t)
  {
  }

  lemma AcceptanceKeepsInv(s: State, c: CallerId, t: State)
    requires Inv(s) && s.lock == Some(c) && s.phase.Confirming? && s.phase.read == s.phase.key.files
    requires t == s.(phase := Verified(Record(s.phase.key, s.phase.hashed)),
                     log := s.log + [KeyConfirmed(c, s.phase.key, s.phase.hashed)])
    ensures Inv(t)
  {
    RecordsStayJustified(s, t);
    ConfirmationCompletes(s.log, s.request, s.phase, c);
  }

  lemma ConfirmationCompletes(log: seq<Event>, request: Request, phase: Phase, c: CallerId)
    requires phase.Confirming? && LogOk(log, request, phase, c) && phase.read == phase.key.files
    ensures Justified(log + [KeyConfirmed(c, phase.key, phase.hashed)], Record(phase.key, phase.hashed))
  {
    var more := log + [KeyConfirmed(c, phase.key, phase.hashed)];
    assert phase.keyedAt < phase.ranAt < |log|;
    ReadsStay(log, more, c, phase.key.files, phase.keyedAt, phase.ranAt, |log|);
    assert CompletedRun(more, Record(phase.key, phase.hashed), c, phase.keyedAt, phase.ranAt, |log|);
  }

  lemma StageKeepsInv(s: State, a: Action, t: State)
    requires Inv(s) && a.StageRecord?
    requires s.lock == Some(a.c) && StepWriting(s, a) == Some(t)
    ensures Inv(t)
  {
  }

  lemma ClearKeepsInv(s: State, a: Action, t: State)
    requires Inv(s) && a.ClearBackup?
    requires s.lock == Some(a.c) && StepWriting(s, a) == Some(t)
    ensures Inv(t)
  {
  }

  lemma AsideKeepsInv(s: State, a: Action, t: State)
    requires Inv(s) && a.MoveOldAside?
    requires s.lock == Some(a.c) && StepWriting(s, a) == Some(t)
    ensures Inv(t)
  {
  }

  lemma SwapKeepsInv(s: State, a: Action, t: State)
    requires Inv(s) && (a.MoveNewIn? || a.MoveNewInFails?)
    requires s.lock == Some(a.c) && StepWriting(s, a) == Some(t)
    ensures Inv(t)
  {
  }

  lemma DropKeepsInv(s: State, a: Action, t: State)
    requires Inv(s) && (a.DropBackup? || a.ReturnFresh?)
    requires s.lock == Some(a.c) && StepPublishing(s, a) == Some(t)
    ensures Inv(t)
  {
  }

  lemma PublishKeepsInv(s: State, a: Action, t: State)
    requires Inv(s) && (a.SwapRecord? || a.MoveRecordIn?)
    requires s.lock == Some(a.c) && StepPublishing(s, a) == Some(t)
    ensures Inv(t)
  {
  }

  lemma FallbackKeepsInv(s: State, a: Action, t: State)
    requires Inv(s) && a.MoveRecordAside?
    requires s.lock == Some(a.c) && StepPublishing(s, a) == Some(t)
    ensures Inv(t)
  {
  }

  lemma RestoreKeepsInv(s: State, a: Action, t: State)
    requires Inv(s) && a.MoveRecordInFails?
    requires s.lock == Some(a.c) && StepPublishing(s, a) == Some(t)
    ensures Inv(t)
  {
  }

  lemma PublishingKeepsInv(s: State, a: Action, t: State)
    requires Inv(s) && HasCaller(a) && s.lock == Some(a.c) && StepPublishing(s, a) == Some(t)
    ensures Inv(t)
  {
    if a.DropBackup? || a.ReturnFresh? {
      DropKeepsInv(s, a, t);
    } else if a.SwapRecord? || a.MoveRecordIn? {
      PublishKeepsInv(s, a, t);
    } else if a.MoveRecordAside? {
      FallbackKeepsInv(s, a, t);
    } else {
      RestoreKeepsInv(s, a, t);
    }
  }

  lemma WritingKeepsInv(s: State, a: Action, t: State)
    requires Inv(s) && HasCaller(a) && s.lock == Some(a.c) && StepWriting(s, a) == Some(t)
    ensures Inv(t)
  {
    if a.Prepare? || a.HashOutput? || a.RecheckKey? {
      PrepareKeepsInv(s, a, t);
    } else if a.RunCommand? {
      CommandKeepsInv(s, a, t);
    } else if a.ConfirmKey? {
      ConfirmKeepsInv(s, a, t);
    } else if a.StageRecord? {
      StageKeepsInv(s, a, t);
    } else if a.ClearBackup? {
      ClearKeepsInv(s, a, t);
    } else if a.MoveOldAside? {
      AsideKeepsInv(s, a, t);
    } else if a.MoveNewIn? || a.MoveNewInFails? {
      SwapKeepsInv(s, a, t);
    } else {
      PublishingKeepsInv(s, a, t);
    }
  }

  lemma InsideKeepsInv(s: State, a: Action, t: State)
    requires Inv(s) && HasCaller(a) && s.lock == Some(a.c) && StepInside(s, a) == Some(t)
    ensures Inv(t)
  {
    if a.ListInputs? {
      ListKeepsInv(s, a, t);
    } else if a.HashFile? {
      HashKeepsInv(s, a, t);
    } else if a.ComputeKey? {
      ComputeKeepsInv(s, a, t);
    } else if a.ReadRecord? || a.ListOutputs? {
      LookupKeepsInv(s, a, t);
    } else if a.CompareOutput? || a.ReturnCached? {
      CompareKeepsInv(s, a, t);
    } else {
      WritingKeepsInv(s, a, t);
    }
  }

  /** Actions of a caller, as opposed to what happens to the disk. */
  predicate HasCaller(a: Action) {
    !a.AlterOutputs? && !a.ChangeFiles? && !a.DeleteRecord?
  }

  lemma StepKeepsInv(s: State, a: Action, t: State)
    requires Inv(s) && Step(s, a) == Some(t)
    ensures Inv(t)
  {
    if a.Acquire? {
      AcquireKeepsInv(s, a, t);
    } else if a.Crash? || a.Fail? {
      EndKeepsInv(s, a, t);
    } else if a.AlterOutputs? || a.AlterTemporary? {
      AlterationKeepsInv(s, a, t);
    } else if a.ChangeFiles? || a.DeleteRecord? {
      ChangeKeepsInv(s, a, t);
    } else {
      InsideKeepsInv(s, a, t);
    }
  }

  /** The invariant holds after every run: any callers, any crashes, any tampering. */
  lemma {:induction false} RunKeepsInv(s: State, actions: seq<Action>, t: State)
    requires Inv(s) && Run(s, actions) == Some(t)
    ensures Inv(t)
    decreases |actions|
  {
    if actions != [] {
      var next := Step(s, actions[0]).value;
      StepKeepsInv(s, actions[0], next);
      RunKeepsInv(next, actions[1..], t);
    }
  }

  ghost predicate Reachable(s: State) {
    exists init, actions :: Initial(init) && Run(init, actions) == Some(s)
  }

  lemma ReachableInv(s: State)
    requires Reachable(s)
    ensures Inv(s)
  {
    var init, actions :| Initial(init) && Run(init, actions) == Some(s);
    RunKeepsInv(init, actions, s);
  }

  // ------------------------------------------------------------------ the theorems

  /** A cached return for key K is never false: its caller read every file of K with the keyed
      digest in this call; the record it trusts comes from a completed run that read each of these
      files with that digest before and again after the command; every recorded output was seen on
      disk with its recorded digest during this very call; and unless the outputs were altered while
      the call was looking, the tree on disk has exactly the recorded outputs when it returns. */
  lemma CachedReturnIsSound(s: State, c: CallerId, t: State)
    requires Reachable(s) && Step(s, ReturnCached(c)) == Some(t)
    ensures s.phase.Comparing? && KeyOk(s.log, s.request, c, s.phase.key, s.phase.keyedAt)
    ensures s.phase.record.key == s.phase.key && Justified(s.log, s.phase.record)
    ensures s.phase.observed == s.phase.record.outputs
    ensures !s.tampered ==> Matches(t.published, s.phase.record.outputs)
  {
    ReachableInv(s);
  }

  /** A freshly generated result is recorded truthfully: the state file, if nobody deleted it,
      holds the key and digests of this run, and untampered outputs are on disk with them. */
  lemma FreshReturnIsRecorded(s: State, c: CallerId, t: State)
    requires Reachable(s) && Step(s, ReturnFresh(c)) == Some(t)
    ensures s.phase.Published? && Justified(t.log, s.phase.record)
    ensures t.record.Some? ==> t.record.value == s.phase.record
    ensures !s.tampered ==> t.published.Some? && DigestsAgree(t.published.value, s.phase.record.outputs)
  {
    assert t == Release(s) && s.phase.Published?;
    assert Inv(s) by {
      ReachableInv(s);
    }
  }

  // ------------------------------------------------------------------ the confirmed key

  /** Every file of the key is there with its keyed digest. */
  predicate ListedUnchanged(files: map<string, Digest>, key: Key) {
    forall name <- key.files :: name in files && files[name] == key.files[name]
  }

  /** A file matches the patterns that is not in the key: it appeared after the listing. */
  predicate Appeared(files: map<string, Digest>, request: Request, key: Key) {
    exists name :: name in files && name in request.patterns && name !in key.files
  }

  /** The confirmation asks for less than a new computation would: a confirmed key is the key a new
      caller computes exactly when the listed files are still unchanged and no matching file has
      appeared since the listing. */
  lemma ConfirmedKeyIsCurrent(s: State, c: CallerId, t: State)
    requires Reachable(s) && Step(s, ConfirmKey(c)) == Some(t) && t.lock.Some?
    ensures t.phase == Verified(Record(s.phase.key, s.phase.hashed))
    ensures CurrentKey(t.files, t.request) == Some(s.phase.key)
            <==> ListedUnchanged(t.files, s.phase.key) && !Appeared(t.files, t.request, s.phase.key)
  {
    ReachableInv(s);
    ConfirmingKeyFits(s, c);
    CurrentKeyIs(s.files, s.request, s.phase.key);
    ConfirmationAccepts(s, c, t);
  }

  lemma ConfirmingKeyFits(s: State, c: CallerId)
    requires Inv(s) && s.lock == Some(c) && s.phase.Confirming?
    ensures s.phase.key.settings == s.request.settings && Fits(s.phase.key.files.Keys, s.request)
  {
  }

  lemma ConfirmationAccepts(s: State, c: CallerId, t: State)
    requires Step(s, ConfirmKey(c)) == Some(t) && t.lock.Some?
    ensures t.files == s.files && t.request == s.request && t.phase == Verified(Record(s.phase.key, s.phase.hashed))
  {
  }

  lemma CurrentKeyIs(files: map<string, Digest>, request: Request, key: Key)
    requires key.settings == request.settings && Fits(key.files.Keys, request)
    ensures CurrentKey(files, request) == Some(key) <==> ListedUnchanged(files, key) && !Appeared(files, request, key)
  {
    if ListedUnchanged(files, key) && !Appeared(files, request, key) {
      forall name
        ensures name in Listed(files, request) <==> name in key.files
      {
      }
      assert CurrentKey(files, request).value.files == key.files;
    } else if ListedUnchanged(files, key) {
      var name :| name in files && name in request.patterns && name !in key.files;
      assert name in Listed(files, request);
    }
  }

  // ------------------------------------------------------------------ torn swaps

  /** Nothing but the protocol's own steps touches the outputs. */
  predicate Untampered(a: Action) {
    !a.AlterOutputs? && !a.AlterTemporary?
  }

  predicate ReplacesOutputs(a: Action) {
    a.AlterOutputs? || a.MoveOldAside? || a.MoveNewIn? || a.MoveNewInFails?
  }

  lemma {:induction false} UntamperedRun(s: State, actions: seq<Action>, t: State)
    requires Run(s, actions) == Some(t) && forall a <- actions :: Untampered(a)
    requires s.lock.Some? ==> !s.tampered
    ensures t.lock.Some? ==> !t.tampered
    decreases |actions|
  {
    if actions != [] {
      var a, next := actions[0], Step(s, actions[0]).value;
      assert a in actions;
      UntamperedStep(s, a, next);
      UntamperedRun(next, actions[1..], t);
    }
  }

  lemma UntamperedStep(s: State, a: Action, t: State)
    requires Step(s, a) == Some(t) && Untampered(a) && (s.lock.Some? ==> !s.tampered)
    ensures t.lock.Some? ==> !t.tampered
  {
    if IsInside(a) {
      InsideFrame(s, a, t);
    }
  }

  /** The actions of the lock's holder that `StepInside` describes. */
  predicate IsInside(a: Action) {
    HasCaller(a) && !a.AlterTemporary? && !a.Acquire? && !a.Crash? && !a.Fail?
  }

  /** What such an action leaves alone, and what it adds to the log. */
  predicate Frame(s: State, a: Action, t: State) {
    && t.tampered == s.tampered && (!ReplacesOutputs(a) ==> t.published == s.published)
    && t.files == s.files && t.changes == s.changes && t.request == s.request && (t.lock == s.lock || t.lock.None?)
    && (t.lock.Some? && !a.ListInputs? && !a.HashFile? ==> !t.phase.Locked? && !t.phase.Keying?)
    && (s.phase.Locked? <==> a.ListInputs?)
    && NewEvents(s, a, t)
  }

  predicate NewEvents(s: State, a: Action, t: State) {
    match a
    case ListInputs(c) => t.log == s.log + [FilesListed(c, s.request, s.changes)]
    case HashFile(c, name) => name in s.files && t.log == s.log + [FileRead(c, name, s.files[name])]
    case ComputeKey(c) => t.phase.Keyed? && t.log == s.log + [KeyComputed(c, t.phase.key)]
    case RunCommand(c, _) => t.log == s.log + [CommandRan(c, s.files, s.changes)]
    case ConfirmKey(c) => t.log == s.log || (t.phase.Verified? && t.log == s.log + [Confirmation(c, t.phase.record)])
    case _ => t.log == s.log
  }

  function Confirmation(c: CallerId, record: Record): Event {
    KeyConfirmed(c, record.key, record.outputs)
  }

  /** The actions up to a cached return or a miss. */
  predicate IsLookup(a: Action) {
    a.ListInputs? || a.HashFile? || a.ComputeKey? || a.ReadRecord? || a.ListOutputs? || a.CompareOutput?
      || a.ReturnCached?
  }

  lemma InsideFrame(s: State, a: Action, t: State)
    requires IsInside(a) && StepInside(s, a) == Some(t)
    ensures Frame(s, a, t)
  {
    if IsLookup(a) {
      LookupFrame(s, a, t);
    } else {
      WritingFrame(s, a, t);
    }
  }

  lemma LookupFrame(s: State, a: Action, t: State)
    requires IsLookup(a) && StepInside(s, a) == Some(t)
    ensures Frame(s, a, t)
  {
    if a.ListInputs? || a.HashFile? || a.ComputeKey? {
      KeyingFrame(s, a, t);
    }
  }

  lemma KeyingFrame(s: State, a: Action, t: State)
    requires a.ListInputs? || a.HashFile? || a.ComputeKey?
    requires StepInside(s, a) == Some(t)
    ensures Frame(s, a, t)
  {
    if a.HashFile? {
      HashFrame(s, a, t);
    }
  }

  lemma HashFrame(s: State, a: Action, t: State)
    requires a.HashFile? && StepInside(s, a) == Some(t)
    ensures Frame(s, a, t)
  {
    HashResult(s, a, t);
  }

  lemma HashResult(s: State, a: Action, t: State)
    requires a.HashFile? && StepInside(s, a) == Some(t)
    ensures a.name in s.files && (s.phase.Keying? || s.phase.Confirming?)
    ensures t == s.(log := s.log + [FileRead(a.c, a.name, s.files[a.name])], phase := t.phase)
  {
  }

  lemma WritingFrame(s: State, a: Action, t: State)
    requires IsInside(a) && StepWriting(s, a) == Some(t)
    ensures Frame(s, a, t)
  {
    if a.Prepare? || a.RunCommand? || a.HashOutput? || a.RecheckKey? || a.ConfirmKey? {
      GenerationFrame(s, a, t);
    } else if a.StageRecord? || a.ClearBackup? || a.MoveOldAside? || a.MoveNewIn? || a.MoveNewInFails? {
      SwapFrame(s, a, t);
    } else {
      PublishingFrame(s, a, t);
    }
  }

  lemma GenerationFrame(s: State, a: Action, t: State)
    requires a.Prepare? || a.RunCommand? || a.HashOutput? || a.RecheckKey? || a.ConfirmKey?
    requires StepWriting(s, a) == Some(t)
    ensures Frame(s, a, t)
  {
    if a.RunCommand? {
      CommandFrame(s, a, t);
    } else if a.ConfirmKey? {
      ConfirmFrame(s, a, t);
    }
  }

  lemma CommandFrame(s: State, a: Action, t: State)
    requires a.RunCommand? && StepWriting(s, a) == Some(t)
    ensures Frame(s, a, t)
  {
  }

  lemma ConfirmFrame(s: State, a: Action, t: State)
    requires a.ConfirmKey? && StepWriting(s, a) == Some(t)
    ensures Frame(s, a, t)
  {
    ConfirmResult(s, a, t);
    ConfirmFrameFrom(s, a, t);
  }

  lemma ConfirmResult(s: State, a: Action, t: State)
    requires a.ConfirmKey? && StepWriting(s, a) == Some(t)
    ensures s.phase.Confirming?
    ensures var record := Record(s.phase.key, s.phase.hashed);
            t == Release(CleanUp(s, a.c))
            || t == s.(phase := Verified(record), log := s.log + [Confirmation(a.c, record)])
  {
  }

  lemma ConfirmFrameFrom(s: State, a: Action, t: State)
    requires a.ConfirmKey? && s.phase.Confirming?
    requires var record := Record(s.phase.key, s.phase.hashed);
             t == Release(CleanUp(s, a.c))
             || t == s.(phase := Verified(record), log := s.log + [Confirmation(a.c, record)])
    ensures Frame(s, a, t)
  {
  }

  lemma SwapFrame(s: State, a: Action, t: State)
    requires a.StageRecord? || a.ClearBackup? || a.MoveOldAside? || a.MoveNewIn? || a.MoveNewInFails?
    requires StepWriting(s, a) == Some(t)
    ensures Frame(s, a, t)
  {
  }

  lemma PublishingFrame(s: State, a: Action, t: State)
    requires IsInside(a) && StepPublishing(s, a) == Some(t)
    ensures Frame(s, a, t)
  {
  }

  lemma {:induction false} OutputsStay(s: State, actions: seq<Action>, t: State)
    requires Run(s, actions) == Some(t) && forall a <- actions :: !ReplacesOutputs(a)
    ensures t.published == s.published
    decreases |actions|
  {
    if actions != [] {
      var a, next := actions[0], Step(s, actions[0]).value;
      assert a in actions;
      OutputsStayOnce(s, a, next);
      OutputsStay(next, actions[1..], t);
    }
  }

  lemma OutputsStayOnce(s: State, a: Action, t: State)
    requires Step(s, a) == Some(t) && !ReplacesOutputs(a)
    ensures t.published == s.published
  {
    if IsInside(a) {
      InsideFrame(s, a, t);
    }
  }

  /** Outputs with the digests of one record match another only where the records agree. */
  lemma RecordsOfOneTree(tree: Tree, torn: map<string, Digest>, trusted: map<string, Digest>)
    requires DigestsAgree(tree, torn) && Matches(Some(tree), trusted)
    ensures forall name :: name in torn && name in trusted ==> trusted[name] == torn[name]
    ensures ListsExactly(tree, torn.Keys) ==> trusted == torn
  {
  }

  lemma SwappedHolder(s: State, c: CallerId)
    requires Inv(s) && s.lock == Some(c) && !s.tampered
    requires s.phase.Swapped? || s.phase.SwapCleaned? || s.phase.Published?
    ensures s.published.Some? && DigestsAgree(s.published.value, s.phase.record.outputs)
    ensures s.phase.Published? && s.record.Some? ==> s.record.value == s.phase.record
  {
  }

  lemma TrustedRecord(s: State, c: CallerId, t: State)
    requires Inv(s) && Step(s, ReturnCached(c)) == Some(t) && !s.tampered
    ensures s.phase.Comparing? && Justified(s.log, s.phase.record) && Matches(s.published, s.phase.record.outputs)
    ensures t.published == s.published
  {
  }

  /** A caller that dies between the two swaps leaves new outputs beside the old record. However many
      callers come after it, a cached return is true of the tree on disk; and while nobody has
      replaced the torn outputs, the record it trusts has for every output the digest that the dead
      caller was about to record, so that its outputs are those a finished swap would have left. */
  lemma TornSwapIsHarmless(s: State, c: CallerId, t: State, actions: seq<Action>, u: State, d: CallerId, v: State)
    requires Reachable(s) && !s.tampered && s.lock == Some(c)
    requires s.phase.Swapped? || s.phase.SwapCleaned?
    requires Step(s, Crash(c)) == Some(t)
    requires Run(t, actions) == Some(u) && forall a <- actions :: Untampered(a)
    requires Step(u, ReturnCached(d)) == Some(v)
    ensures Justified(u.log, u.phase.record) && Matches(v.published, u.phase.record.outputs)
    ensures (forall a <- actions :: !ReplacesOutputs(a)) ==>
              && v.published == s.published
              && (forall name :: name in s.phase.record.outputs && name in u.phase.record.outputs
                                 ==> u.phase.record.outputs[name] == s.phase.record.outputs[name])
              && (ListsExactly(s.published.value, s.phase.record.outputs.Keys) ==>
                    u.phase.record.outputs == s.phase.record.outputs)
  {
    var torn := s.phase.record;
    assert t == Release(s);
    assert s.published.Some? && DigestsAgree(s.published.value, torn.outputs) by {
      ReachableInv(s);
      SwappedHolder(s, c);
    }
    TrustedAfterCrash(s, c, t, actions, u, d, v);
    if forall a <- actions :: !ReplacesOutputs(a) {
      OutputsStay(t, actions, u);
      RecordsOfOneTree(s.published.value, torn.outputs, u.phase.record.outputs);
    }
  }

  lemma TrustedAfterCrash(s: State, c: CallerId, t: State, actions: seq<Action>, u: State, d: CallerId, v: State)
    requires Reachable(s) && Step(s, Crash(c)) == Some(t)
    requires Run(t, actions) == Some(u) && forall a <- actions :: Untampered(a)
    requires Step(u, ReturnCached(d)) == Some(v)
    ensures u.phase.Comparing? && Justified(u.log, u.phase.record) && Matches(u.published, u.phase.record.outputs)
    ensures v.published == u.published
  {
    UntamperedRun(t, actions, u);
    assert Inv(u) by {
      ReachableInv(s);
      StepKeepsInv(s, Crash(c), t);
      RunKeepsInv(t, actions, u);
    }
    TrustedRecord(u, d, v);
  }
}
