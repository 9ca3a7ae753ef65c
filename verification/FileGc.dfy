/**
 * Deleting obsolete files while readers, a flush and a compaction are under way (db/db_impl.cc, DeleteObsoleteFiles
 * and its callers; db/version_set.cc, AppendVersion and AddLiveFiles). The steps are the stretches of code that hold the
 * mutex; what happens while it is released may be interleaved with any reader and writer. All background work is done
 * by one thread, but a compaction stops for a flush.
 */
module FileGc {
  import opened Wrappers

  /** A version in the list: the numbers of its table files, and its reference count. */
  datatype Version = Version(files: set<nat>, refs: nat)

  datatype Flush =
    | NoFlush
    | Building(number: nat, base: nat, written: bool)     // the table is being written
    | Built(table: Option<nat>)                           // no longer pending, in no version yet
    | InstallingFlush(table: Option<nat>, files: set<nat>, logNumber: nat)
    | FlushInstalled

  datatype Compaction =
    | NoCompaction
    | Merging(input: nat, deleted: set<nat>, outputs: set<nat>, written: set<nat>)  // outputs opened, those finished
    | InstallingMerge(input: nat, outputs: set<nat>, files: set<nat>)
    | Merged(input: nat, outputs: set<nat>)               // installed or given up
    | CleanedUp
    | InstallingMove(files: set<nat>)

  datatype State = State(
    versions: map<nat, Version>,
    current: nat,
    nextVersion: nat,
    readers: multiset<nat>,       // the version each reader holds
    tables: set<nat>,             // the table files on disk
    logs: set<nat>,               // the log files on disk
    pending: set<nat>,            // pending_outputs_
    nextFileNumber: nat,
    logFile: nat,                 // the log of the memtable
    immLog: Option<nat>,          // the log of the immutable memtable, if there is one
    logNumber: nat,               // VersionSet::LogNumber
    prevLogNumber: nat,           // VersionSet::PrevLogNumber, of databases written by earlier releases
    manifests: set<nat>,          // the manifests on disk
    manifestNumber: nat,          // the one in use
    temps: set<nat>,              // temporary files on disk
    flush: Flush,
    compaction: Compaction,
    backgroundError: bool)
  {
    function FlushHolds(): multiset<nat> {
      if flush.Building? then multiset{flush.base} else multiset{}
    }

    function CompactionHolds(): multiset<nat> {
      if compaction.Merging? || compaction.InstallingMerge? || compaction.Merged? then multiset{compaction.input}
      else multiset{}
    }

    /** What holds references to versions. */
    function Holders(): multiset<nat> {
      multiset{current} + readers + FlushHolds() + CompactionHolds()
    }

    /** VersionSet::AddLiveFiles. */
    function LiveFiles(): set<nat> {
      set v, n | v in versions && n in versions[v].files :: n
    }

    function FlushWork(): set<nat> {
      match flush
      case Building(number, _, written) => if written then {number} else {}
      case Built(table) => if table.Some? then {table.value} else {}
      case InstallingFlush(table, _, _) => if table.Some? then {table.value} else {}
      case _ => {}
    }

    function CompactionWork(): set<nat> {
      match compaction
      case Merging(_, _, outputs, _) => outputs
      case InstallingMerge(_, outputs, _) => outputs
      case Merged(_, outputs) => outputs
      case _ => {}
    }

    /** The files of the work under way: outputs of a merge from when they are opened, half written or not. */
    function InWork(): set<nat> { FlushWork() + CompactionWork() }

    ghost predicate Inv() {
      && RefsOk(versions, Holders(), nextVersion) && FilesOk() && NumbersOk() && PendingOk() && LogsOk() && InstallsOk()
      && manifestNumber in manifests
    }

    /** The files of the versions in the list and of the work under way are on disk. */
    ghost predicate FilesOk() { LiveFiles() + InWork() <= tables }

    ghost predicate NumbersOk() {
      forall n :: n in tables || n in pending || n in logs ==> n < nextFileNumber
    }

    /** The table a flush is writing, and the outputs of a merge until it has cleaned up. */
    function BeingWritten(): set<nat> { (if flush.Building? then {flush.number} else {}) + CompactionWork() }

    /** What is being written is pending, and nothing else; and only a merge stops for a flush. */
    ghost predicate PendingOk() {
      && pending == BeingWritten()
      && (flush.Building? ==> flush.number in pending)
      && (compaction.Merging? ==>
            compaction.written <= compaction.outputs <= pending && (flush.Building? ==> flush.number !in compaction.outputs))
      && (compaction.InstallingMerge? || compaction.Merged? ==> compaction.outputs <= pending)
      && (!flush.NoFlush? ==> compaction.NoCompaction? || compaction.Merging?)
    }

    /** The logs of the memtables are on disk, and not older than those to be kept. */
    ghost predicate LogsOk() {
      && logFile in logs && logNumber <= logFile
      && (immLog.Some? ==> immLog.value in logs && logNumber <= immLog.value < logFile)
      && (!flush.NoFlush? && !flush.FlushInstalled? ==> immLog.Some?)
      && (flush.InstallingFlush? ==> flush.logNumber == logFile)
    }

    /** A version to be installed is made of files that are there. */
    ghost predicate InstallsOk() {
      && (flush.InstallingFlush? ==> flush.files <= tables)
      && (compaction.InstallingMerge? ==> compaction.files <= tables)
      && (compaction.InstallingMove? ==> compaction.files <= tables)
    }
  }

  /** The versions in the list are those somebody holds, each counted as often as it is held. */
  ghost predicate RefsOk(versions: map<nat, Version>, holders: multiset<nat>, next: nat) {
    && (forall v :: v in versions <==> v in holders)
    && (forall v :: v in versions ==> versions[v].refs == holders[v] && v < next)
  }

  datatype Step =
    | StartReader
    | EndReader(v: nat)
    | SwitchLog                       // a new log and memtable; the old ones become immutable
    | StartFlush
    | WriteTable
    | EndBuild(ok: bool)
    | LogFlush                        // LogAndApply until it releases the mutex
    | InstallFlush(ok: bool)          // and from when it has it again
    | StartCompaction(deleted: set<nat>)
    | OpenOutput
    | FinishOutput(n: nat)
    | LogMerge
    | InstallMerge(ok: bool)
    | CleanUp
    | LogMove
    | InstallMove(ok: bool)
    | DeleteObsoleteFiles
    | BackgroundFails

  ghost predicate Allowed(s: State, step: Step) {
    match step
    case StartReader => s.current in s.versions
    case EndReader(v) => v in s.readers && v in s.versions
    case SwitchLog => s.immLog.None?
    case StartFlush =>
      && s.flush.NoFlush? && s.immLog.Some? && (s.compaction.NoCompaction? || s.compaction.Merging?) && !s.backgroundError
      && s.current in s.versions
    case WriteTable => s.flush.Building? && !s.flush.written
    case EndBuild(ok) => s.flush.Building? && s.flush.base in s.versions
    case LogFlush => s.flush.Built? && s.current in s.versions
    case InstallFlush(_) => s.flush.InstallingFlush? && s.current in s.versions
    case StartCompaction(deleted) =>
      && s.compaction.NoCompaction? && s.flush.NoFlush? && !s.backgroundError && s.current in s.versions
      && deleted <= s.versions[s.current].files
    case OpenOutput => s.compaction.Merging? && s.flush.NoFlush?
    case FinishOutput(n) => s.compaction.Merging? && s.flush.NoFlush? && n in s.compaction.outputs
    case LogMerge =>
      && s.compaction.Merging? && s.flush.NoFlush? && s.compaction.written == s.compaction.outputs
      && s.current in s.versions
    case InstallMerge(_) => s.compaction.InstallingMerge? && s.current in s.versions
    case CleanUp =>
      && s.flush.NoFlush? && (s.compaction.Merged? || (s.compaction.Merging? && s.backgroundError))
      && s.compaction.input in s.versions
    case LogMove =>
      && s.compaction.NoCompaction? && s.flush.NoFlush? && !s.backgroundError && s.current in s.versions
    case InstallMove(_) => s.compaction.InstallingMove? && s.current in s.versions
    case BackgroundFails => true
    case DeleteObsoleteFiles => s.flush.FlushInstalled? || (s.flush.NoFlush? && s.compaction.CleanedUp?)
  }

  /** Version::Ref and Version::Unref, which takes a version without references out of the list. */
  function Ref(versions: map<nat, Version>, v: nat): map<nat, Version>
    requires v in versions
  {
    versions[v := versions[v].(refs := versions[v].refs + 1)]
  }

  function Unref(versions: map<nat, Version>, v: nat): map<nat, Version>
    requires v in versions
  {
    if versions[v].refs <= 1 then versions - {v} else versions[v := versions[v].(refs := versions[v].refs - 1)]
  }

  /** AppendVersion: the new version becomes the current one, and the old one loses a reference. */
  function Append(s: State, files: set<nat>): State
    requires s.current in s.versions
  {
    s.(versions := Unref(s.versions, s.current)[s.nextVersion := Version(files, 1)],
       current := s.nextVersion, nextVersion := s.nextVersion + 1)
  }

  function KeptLogs(s: State): set<nat> {
    set n | n in s.logs && (n >= s.logNumber || n == s.prevLogNumber)
  }

  /** The manifest in use, and those of any newer incarnation. */
  function KeptManifests(s: State): set<nat> {
    set n | n in s.manifests && n >= s.manifestNumber
  }

  /** What DeleteObsoleteFiles keeps; after a background error it deletes nothing. */
  function Collected(s: State): State {
    if s.backgroundError then s
    else
      s.(tables := s.tables * (s.pending + s.LiveFiles()), logs := KeptLogs(s), manifests := KeptManifests(s),
         temps := s.temps * (s.pending + s.LiveFiles()))
  }

  ghost function Apply(s: State, step: Step): State
    requires Allowed(s, step)
  {
    match step
    case StartReader => s.(versions := Ref(s.versions, s.current), readers := s.readers + multiset{s.current})
    case EndReader(v) => s.(versions := Unref(s.versions, v), readers := s.readers - multiset{v})
    case SwitchLog =>
      s.(immLog := Some(s.logFile), logFile := s.nextFileNumber, logs := s.logs + {s.nextFileNumber},
         nextFileNumber := s.nextFileNumber + 1)
    case StartFlush =>
      s.(flush := Building(s.nextFileNumber, s.current, false), pending := s.pending + {s.nextFileNumber},
         nextFileNumber := s.nextFileNumber + 1, versions := Ref(s.versions, s.current))
    case WriteTable => s.(flush := s.flush.(written := true), tables := s.tables + {s.flush.number})
    case EndBuild(ok) =>
      var t := s.(pending := s.pending - {s.flush.number}, versions := Unref(s.versions, s.flush.base));
      if ok then t.(flush := Built(if s.flush.written then Some(s.flush.number) else None))
      else t.(flush := NoFlush, backgroundError := true)
    case LogFlush =>
      var added := if s.flush.table.Some? then {s.flush.table.value} else {};
      s.(flush := InstallingFlush(s.flush.table, s.versions[s.current].files + added, s.logFile))
    case InstallFlush(ok) =>
      if ok then
        Append(s, s.flush.files).(flush := FlushInstalled, logNumber := s.flush.logNumber, prevLogNumber := 0,
                                         immLog := None)
      else s.(flush := NoFlush, backgroundError := true)
    case StartCompaction(deleted) =>
      s.(compaction := Merging(s.current, deleted, {}, {}), versions := Ref(s.versions, s.current))
    case OpenOutput =>
      var c := s.compaction;
      s.(compaction := Merging(c.input, c.deleted, c.outputs + {s.nextFileNumber}, c.written),
         pending := s.pending + {s.nextFileNumber}, tables := s.tables + {s.nextFileNumber},
         nextFileNumber := s.nextFileNumber + 1)
    case FinishOutput(n) =>
      var c := s.compaction;
      s.(compaction := Merging(c.input, c.deleted, c.outputs, c.written + {n}))
    case LogMerge =>
      s.(compaction := InstallingMerge(s.compaction.input, s.compaction.outputs,
           s.versions[s.current].files - s.compaction.deleted + s.compaction.outputs))
    case InstallMerge(ok) =>
      var merged := Merged(s.compaction.input, s.compaction.outputs);
      if ok then Append(s, s.compaction.files).(compaction := merged)
      else s.(compaction := merged, backgroundError := true)
    case CleanUp =>
      s.(compaction := CleanedUp, pending := s.pending - s.compaction.outputs,
         versions := Unref(s.versions, s.compaction.input))
    case LogMove => s.(compaction := InstallingMove(s.versions[s.current].files))
    case InstallMove(ok) =>
      if ok then Append(s, s.compaction.files).(compaction := NoCompaction)
      else s.(compaction := NoCompaction, backgroundError := true)
    case BackgroundFails => s.(backgroundError := true)
    case DeleteObsoleteFiles =>
      var t := Collected(s);
      if s.flush.FlushInstalled? then t.(flush := NoFlush) else t.(compaction := NoCompaction)
  }

  // References

  ghost predicate SameFiles(from: map<nat, Version>, to: map<nat, Version>) {
    forall w :: w in to ==> w in from && to[w].files == from[w].files
  }

  lemma RefKeeps(versions: map<nat, Version>, holders: multiset<nat>, next: nat, v: nat)
    requires RefsOk(versions, holders, next) && v in versions
    ensures RefsOk(Ref(versions, v), holders + multiset{v}, next) && SameFiles(versions, Ref(versions, v))
  {
  }

  lemma UnrefKeeps(versions: map<nat, Version>, holders: multiset<nat>, next: nat, v: nat)
    requires RefsOk(versions, holders, next) && v in versions
    ensures RefsOk(Unref(versions, v), holders - multiset{v}, next) && SameFiles(versions, Unref(versions, v))
  {
  }

  lemma NewVersionKeeps(versions: map<nat, Version>, holders: multiset<nat>, next: nat, files: set<nat>)
    requires RefsOk(versions, holders, next)
    ensures RefsOk(versions[next := Version(files, 1)], holders + multiset{next}, next + 1)
  {
    assert next !in versions;
  }

  lemma FewerLive(s: State, t: State)
    requires SameFiles(s.versions, t.versions)
    ensures t.LiveFiles() <= s.LiveFiles()
  {
  }

  lemma CurrentIsLive(s: State)
    requires s.Inv()
    ensures s.current in s.versions && s.versions[s.current].files <= s.tables
  {
    assert s.current in s.Holders();
    assert s.versions[s.current].files <= s.LiveFiles();
  }

  /** The references and files after a new version has become current. */
  lemma AppendKeeps(s: State, files: set<nat>)
    requires s.Inv() && s.current in s.versions
    ensures var t := Append(s, files);
            && RefsOk(t.versions, s.Holders() - multiset{s.current} + multiset{t.current}, t.nextVersion)
            && t.LiveFiles() <= s.LiveFiles() + files
  {
    UnrefKeeps(s.versions, s.Holders(), s.nextVersion, s.current);
    NewVersionKeeps(Unref(s.versions, s.current), s.Holders() - multiset{s.current}, s.nextVersion, files);
    hide RefsOk, Unref;
    AppendLive(s, files);
  }

  lemma AppendLive(s: State, files: set<nat>)
    requires s.current in s.versions && SameFiles(s.versions, Unref(s.versions, s.current))
    ensures Append(s, files).LiveFiles() <= s.LiveFiles() + files
  {
  }

  predicate Refs(step: Step) {
    step.StartReader? || step.StartFlush? || step.StartCompaction?
  }

  /** The version whose reference a step gives up. */
  function Unrefs(s: State, step: Step): Option<nat> {
    if step.EndReader? then Some(step.v)
    else if step.EndBuild? && s.flush.Building? then Some(s.flush.base)
    else if step.CleanUp? && (s.compaction.Merging? || s.compaction.Merged?) then Some(s.compaction.input)
    else None
  }

  predicate Installs(step: Step) {
    step == InstallFlush(true) || step == InstallMerge(true) || step == InstallMove(true)
  }

  function Installed(s: State, step: Step): set<nat>
    requires Installs(step)
  {
    if step.InstallFlush? && s.flush.InstallingFlush? then s.flush.files
    else if s.compaction.InstallingMerge? then s.compaction.files
    else if s.compaction.InstallingMove? then s.compaction.files
    else {}
  }

  /** Every step accounts for the references it takes and gives up. */
  lemma HoldersAfter(s: State, step: Step)
    requires Allowed(s, step)
    ensures Refs(step) ==> Apply(s, step).Holders() == s.Holders() + multiset{s.current}
    ensures Unrefs(s, step).Some? ==> Apply(s, step).Holders() == s.Holders() - multiset{Unrefs(s, step).value}
    ensures Installs(step) ==>
      Apply(s, step).Holders() == s.Holders() - multiset{s.current} + multiset{Apply(s, step).current}
    ensures !Refs(step) && Unrefs(s, step).None? && !Installs(step) ==> Apply(s, step).Holders() == s.Holders()
  {
    hide Allowed, Apply, State.Holders;
    if Refs(step) {
      RefsHold(s, step);
    } else if Unrefs(s, step).Some? {
      UnrefsLetGo(s, step);
    } else if Installs(step) {
      InstallsHold(s, step);
    } else {
      OthersHold(s, step);
    }
  }

  /** Who holds what after a step that takes a reference to the current version. */
  lemma HoldsOne(s: State, step: Step)
    requires Allowed(s, step) && Refs(step)
    ensures var t, one := Apply(s, step), multiset{s.current};
            && t.current == s.current
            && t.readers == (if step.StartReader? then s.readers + one else s.readers)
            && t.FlushHolds() == (if step.StartFlush? then one else s.FlushHolds())
            && t.CompactionHolds() == (if step.StartCompaction? then one else s.CompactionHolds())
            && (step.StartFlush? ==> s.FlushHolds() == multiset{})
            && (step.StartCompaction? ==> s.CompactionHolds() == multiset{})
  {
    hide Ref, State.LiveFiles;
  }

  lemma RefsHold(s: State, step: Step)
    requires Allowed(s, step) && Refs(step)
    ensures Apply(s, step).Holders() == s.Holders() + multiset{s.current}
  {
    hide Apply, Allowed, State.FlushHolds, State.CompactionHolds;
    HoldsOne(s, step);
  }

  lemma UnrefsLetGo(s: State, step: Step)
    requires Allowed(s, step) && Unrefs(s, step).Some?
    ensures Apply(s, step).Holders() == s.Holders() - multiset{Unrefs(s, step).value}
  {
    match step
    case EndReader(v) => ReaderLetsGo(s, v);
    case EndBuild(ok) => FlushLetsGo(s, ok);
    case CleanUp => CompactionLetsGo(s);
  }

  lemma ReaderLetsGo(s: State, v: nat)
    requires Allowed(s, EndReader(v))
    ensures Apply(s, EndReader(v)).Holders() == s.Holders() - multiset{v}
  {
    hide Unref, State.LiveFiles;
    LetsGo(s.readers, v, multiset{s.current} + s.FlushHolds() + s.CompactionHolds());
  }

  lemma FlushLetsGo(s: State, ok: bool)
    requires Allowed(s, EndBuild(ok))
    ensures Apply(s, EndBuild(ok)).Holders() == s.Holders() - multiset{s.flush.base}
  {
    hide Unref, State.LiveFiles, State.CompactionHolds;
    assert Apply(s, EndBuild(ok)).CompactionHolds() == s.CompactionHolds() by { EndBuildCompaction(s, ok); }
    LetsGo(s.FlushHolds(), s.flush.base, multiset{s.current} + s.readers + s.CompactionHolds());
  }

  lemma EndBuildCompaction(s: State, ok: bool)
    requires Allowed(s, EndBuild(ok))
    ensures Apply(s, EndBuild(ok)).CompactionHolds() == s.CompactionHolds()
  {
  }

  lemma CompactionLetsGo(s: State)
    requires Allowed(s, CleanUp)
    ensures Apply(s, CleanUp).Holders() == s.Holders() - multiset{s.compaction.input}
  {
    hide Apply, State.Holders, State.FlushHolds, State.CompactionHolds;
    var t := Apply(s, CleanUp);
    CleanUpFlush(s);
    HoldersAre(s);
    HoldersAre(t);
    LetsGo(s.CompactionHolds(), s.compaction.input, multiset{s.current} + s.readers + s.FlushHolds());
  }

  lemma CleanUpFlush(s: State)
    requires Allowed(s, CleanUp)
    ensures var t := Apply(s, CleanUp);
            t.CompactionHolds() == multiset{} && t.FlushHolds() == s.FlushHolds() && t.readers == s.readers
            && t.current == s.current && s.CompactionHolds() == multiset{s.compaction.input}
  {
    hide Unref, State.LiveFiles, State.Holders;
  }

  lemma LetsGo(holds: multiset<nat>, v: nat, others: multiset<nat>)
    requires v in holds
    ensures holds - multiset{v} + others == holds + others - multiset{v}
  {
  }

  lemma InstallsHold(s: State, step: Step)
    requires Allowed(s, step) && Installs(step)
    ensures Apply(s, step).Holders() == s.Holders() - multiset{s.current} + multiset{Apply(s, step).current}
  {
    hide Apply, State.FlushHolds, State.CompactionHolds;
    InstallTakesOver(s, step);
    HoldersAre(s);
    HoldersAre(Apply(s, step));
    LetsGo(multiset{s.current}, s.current, s.readers + s.FlushHolds() + s.CompactionHolds());
  }

  lemma InstallTakesOver(s: State, step: Step)
    requires Allowed(s, step) && Installs(step)
    ensures var t := Apply(s, step);
            t.readers == s.readers && t.FlushHolds() == s.FlushHolds() && t.CompactionHolds() == s.CompactionHolds()
  {
    hide Unref, State.LiveFiles, State.Holders;
    match step
    case InstallFlush(_) =>
    case InstallMerge(_) =>
    case InstallMove(_) =>
  }

  lemma OthersHold(s: State, step: Step)
    requires Allowed(s, step) && !Refs(step) && Unrefs(s, step).None? && !Installs(step)
    ensures Apply(s, step).Holders() == s.Holders()
  {
    hide Ref, Unref, KeptLogs, State.LiveFiles;
    hide State.Holders;
    CurrentKept(s, step);
    FlushKept(s, step);
    CompactionKept(s, step);
    HoldersAre(s);
    HoldersAre(Apply(s, step));
  }

  lemma HoldersAre(s: State)
    ensures s.Holders() == multiset{s.current} + s.readers + s.FlushHolds() + s.CompactionHolds()
  {
  }

  lemma CurrentKept(s: State, step: Step)
    requires Allowed(s, step) && !Refs(step) && Unrefs(s, step).None? && !Installs(step)
    ensures Apply(s, step).current == s.current && Apply(s, step).readers == s.readers
  {
    hide Ref, Unref, KeptLogs, State.LiveFiles;
  }

  lemma FlushKept(s: State, step: Step)
    requires Allowed(s, step) && !Refs(step) && Unrefs(s, step).None? && !Installs(step)
    ensures Apply(s, step).FlushHolds() == s.FlushHolds()
  {
    hide Ref, Unref, KeptLogs, State.LiveFiles;
  }

  lemma CompactionKept(s: State, step: Step)
    requires Allowed(s, step) && !Refs(step) && Unrefs(s, step).None? && !Installs(step)
    ensures Apply(s, step).CompactionHolds() == s.CompactionHolds()
  {
    hide Ref, Unref, KeptLogs, State.LiveFiles;
  }

  lemma VersionsAfter(s: State, step: Step)
    requires Allowed(s, step)
    ensures Refs(step) ==> s.current in s.versions && Apply(s, step).versions == Ref(s.versions, s.current)
    ensures Unrefs(s, step).Some? ==>
      Unrefs(s, step).value in s.versions && Apply(s, step).versions == Unref(s.versions, Unrefs(s, step).value)
    ensures !Refs(step) && Unrefs(s, step).None? && !Installs(step) ==> Apply(s, step).versions == s.versions
    ensures !Installs(step) ==> Apply(s, step).nextVersion == s.nextVersion
  {
    hide Ref, Unref, State.LiveFiles, KeptLogs;
    if Unrefs(s, step).Some? {
      UnrefsVersions(s, step);
    } else if !Refs(step) && !Installs(step) {
      OthersKeepVersions(s, step);
    }
  }

  lemma UnrefsVersions(s: State, step: Step)
    requires Allowed(s, step) && Unrefs(s, step).Some?
    ensures Unrefs(s, step).value in s.versions
    ensures Apply(s, step).versions == Unref(s.versions, Unrefs(s, step).value)
    ensures Apply(s, step).nextVersion == s.nextVersion
  {
    hide Ref, Unref, State.LiveFiles, KeptLogs;
    match step
    case EndReader(_) =>
    case EndBuild(_) =>
    case CleanUp =>
  }

  lemma OthersKeepVersions(s: State, step: Step)
    requires Allowed(s, step) && !Refs(step) && Unrefs(s, step).None? && !Installs(step)
    ensures Apply(s, step).versions == s.versions && Apply(s, step).nextVersion == s.nextVersion
  {
    hide Ref, Unref, State.LiveFiles, KeptLogs;
  }

  lemma InstalledAfter(s: State, step: Step)
    requires Allowed(s, step) && Installs(step)
    ensures var t := Apply(s, step);
            && s.current in s.versions && t.versions == Append(s, Installed(s, step)).versions
            && t.current == Append(s, Installed(s, step)).current && t.nextVersion == s.nextVersion + 1
  {
    hide Ref, Unref, State.LiveFiles;
  }

  lemma RefsKept(s: State, step: Step)
    requires s.Inv() && Allowed(s, step)
    ensures var t := Apply(s, step); RefsOk(t.versions, t.Holders(), t.nextVersion)
    ensures var t := Apply(s, step);
            t.LiveFiles() <= s.LiveFiles() + if Installs(step) then Installed(s, step) else {}
  {
    hide RefsOk, Ref, Unref, Allowed, State.Holders;
    var t := Apply(s, step);
    CurrentIsLive(s);
    HoldersAfter(s, step);
    VersionsAfter(s, step);
    if Installs(step) {
      InstalledAfter(s, step);
      AppendKeeps(s, Installed(s, step));
      assert t.LiveFiles() == Append(s, Installed(s, step)).LiveFiles();
    } else if Refs(step) {
      RefKeeps(s.versions, s.Holders(), s.nextVersion, s.current);
      FewerLive(s, t);
    } else if Unrefs(s, step).Some? {
      UnrefKeeps(s.versions, s.Holders(), s.nextVersion, Unrefs(s, step).value);
      FewerLive(s, t);
    } else {
      FewerLive(s, t);
    }
  }

  // The files

  lemma NumbersKept(s: State, step: Step)
    requires Allowed(s, step) && s.NumbersOk() && s.PendingOk()
    ensures Apply(s, step).NumbersOk()
  {
    hide Ref, Unref, State.LiveFiles;
  }

  lemma PendingKept(s: State, step: Step)
    requires Allowed(s, step) && s.NumbersOk() && s.PendingOk()
    ensures Apply(s, step).PendingOk()
  {
    hide Apply, Allowed;
    ExactlyPending(s, step);
    WrittenIsPending(s, step);
    MergeStopsForFlush(s, step);
  }

  lemma ExactlyPending(s: State, step: Step)
    requires Allowed(s, step) && s.NumbersOk() && s.PendingOk()
    ensures Apply(s, step).pending == Apply(s, step).BeingWritten()
  {
    hide Ref, Unref, KeptLogs, State.LiveFiles;
    match step
    case StartFlush =>
    case EndBuild(_) =>
    case OpenOutput =>
    case CleanUp =>
    case _ =>
  }

  lemma WrittenIsPending(s: State, step: Step)
    requires Allowed(s, step) && s.NumbersOk() && s.PendingOk()
    ensures var t := Apply(s, step);
            && (t.flush.Building? ==> t.flush.number in t.pending)
            && (t.compaction.Merging? ==> t.compaction.written <= t.compaction.outputs <= t.pending
                                          && (t.flush.Building? ==> t.flush.number !in t.compaction.outputs))
            && (t.compaction.InstallingMerge? || t.compaction.Merged? ==> t.compaction.outputs <= t.pending)
  {
    ExactlyPending(s, step);
    hide State.LiveFiles, State.NumbersOk, State.PendingOk;
    WrittenIsOpen(s, step);
    hide Apply, Allowed;
  }

  lemma WrittenIsOpen(s: State, step: Step)
    requires Allowed(s, step) && s.NumbersOk() && s.PendingOk()
    ensures var t := Apply(s, step);
            t.compaction.Merging? ==> t.compaction.written <= t.compaction.outputs
                                      && (t.flush.Building? ==> t.flush.number !in t.compaction.outputs)
  {
    hide Ref, Unref, KeptLogs, State.LiveFiles;
  }

  lemma MergeStopsForFlush(s: State, step: Step)
    requires Allowed(s, step) && s.PendingOk()
    ensures var t := Apply(s, step); !t.flush.NoFlush? ==> t.compaction.NoCompaction? || t.compaction.Merging?
  {
    hide Ref, Unref, KeptLogs, State.LiveFiles;
  }

  lemma LogsKept(s: State, step: Step)
    requires Allowed(s, step) && s.NumbersOk() && s.PendingOk() && s.LogsOk()
    ensures Apply(s, step).LogsOk()
  {
    hide Ref, Unref, State.LiveFiles;
  }

  lemma InstallsKept(s: State, step: Step)
    requires s.Inv() && Allowed(s, step)
    ensures Apply(s, step).InstallsOk()
  {
    hide RefsOk, State.Holders, State.LiveFiles, State.LogsOk, State.NumbersOk, State.InWork;
    match step
    case LogFlush => CurrentIsLive(s); FinishedIsOnDisk(s);
    case LogMerge => CurrentIsLive(s); FinishedIsOnDisk(s);
    case LogMove => CurrentIsLive(s);
    case DeleteObsoleteFiles =>
    case _ => TablesGrow(s, step); InstallingKept(s, step);
  }

  /** What is to be installed is decided when it is logged. */
  lemma InstallingKept(s: State, step: Step)
    requires Allowed(s, step) && !step.LogFlush? && !step.LogMerge? && !step.LogMove?
    ensures var t := Apply(s, step);
            && (t.flush.InstallingFlush? ==> t.flush == s.flush)
            && (t.compaction.InstallingMerge? || t.compaction.InstallingMove? ==> t.compaction == s.compaction)
  {
    hide Ref, Unref, KeptLogs, State.LiveFiles;
  }

  lemma FinishedIsOnDisk(s: State)
    requires s.FilesOk()
    ensures s.flush.Built? && s.flush.table.Some? ==> s.flush.table.value in s.tables
    ensures s.compaction.Merging? ==> s.compaction.outputs <= s.tables
  {
    hide State.LiveFiles;
    assert s.InWork() <= s.tables;
    assert s.flush.Built? && s.flush.table.Some? ==> s.flush.table.value in s.InWork();
    assert s.compaction.Merging? ==> s.compaction.outputs <= s.InWork();
  }

  /** No file is deleted but by DeleteObsoleteFiles. */
  lemma TablesGrow(s: State, step: Step)
    requires Allowed(s, step) && !step.DeleteObsoleteFiles?
    ensures s.tables <= Apply(s, step).tables
  {
    hide Ref, Unref, KeptLogs, State.LiveFiles;
  }

  lemma WorkIsOnDisk(s: State, step: Step)
    requires s.InWork() <= s.tables && Allowed(s, step) && !step.DeleteObsoleteFiles?
    ensures Apply(s, step).InWork() <= Apply(s, step).tables
  {
    hide State.FlushWork, State.CompactionWork;
    TablesGrow(s, step);
    FlushWorkOnDisk(s, step);
    CompactionWorkOnDisk(s, step);
  }

  lemma FlushWorkOnDisk(s: State, step: Step)
    requires s.FlushWork() <= s.tables && Allowed(s, step) && !step.DeleteObsoleteFiles?
    ensures Apply(s, step).FlushWork() <= Apply(s, step).tables
  {
    hide Ref, Unref, KeptLogs, State.LiveFiles;
    TablesGrow(s, step);
    match step
    case StartFlush =>
    case WriteTable =>
    case EndBuild(_) =>
    case LogFlush =>
    case InstallFlush(_) =>
    case _ =>
  }

  lemma CompactionWorkOnDisk(s: State, step: Step)
    requires s.CompactionWork() <= s.tables && Allowed(s, step) && !step.DeleteObsoleteFiles?
    ensures Apply(s, step).CompactionWork() <= Apply(s, step).tables
  {
    hide Ref, Unref, KeptLogs, State.LiveFiles;
    if !CompactionStep(step) {
      hide Apply, Allowed, State.CompactionWork;
      OtherStepsKeepWork(s, step);
    }
  }

  predicate CompactionStep(step: Step) {
    || step.StartCompaction? || step.OpenOutput? || step.FinishOutput? || step.LogMerge? || step.InstallMerge?
    || step.CleanUp? || step.LogMove? || step.InstallMove? || step.DeleteObsoleteFiles?
  }

  lemma OtherStepsKeepWork(s: State, step: Step)
    requires Allowed(s, step) && !CompactionStep(step)
    ensures Apply(s, step).compaction == s.compaction && s.tables <= Apply(s, step).tables
    ensures Apply(s, step).CompactionWork() == s.CompactionWork()
  {
    hide Ref, Unref, KeptLogs, State.LiveFiles;
  }

  lemma InstalledIsOnDisk(s: State, step: Step)
    requires s.InstallsOk() && Allowed(s, step) && Installs(step)
    ensures Installed(s, step) <= s.tables
  {
  }

  /**
   * DeleteObsoleteFiles never deletes a file of a version that a reader, the current state or the work under way needs,
   * nor an output of a merge that stopped for a flush, even if it is only half written, nor the log of a memtable that
   * is not flushed yet or the manifest in use; and, without an error in the background, it leaves nothing behind that
   * nobody needs.
   */
  lemma DeletionIsSafe(s: State)
    requires s.Inv() && Allowed(s, DeleteObsoleteFiles)
    ensures var t := Apply(s, DeleteObsoleteFiles);
            && s.LiveFiles() + s.InWork() <= t.tables
            && s.logFile in t.logs && (s.immLog.Some? ==> s.immLog.value in t.logs)
            && (s.prevLogNumber in s.logs ==> s.prevLogNumber in t.logs) && s.manifestNumber in t.manifests
            && (!s.backgroundError ==>
                  && t.tables + t.temps <= s.pending + s.LiveFiles()
                  && (forall n :: n in t.logs ==> n >= s.logNumber || n == s.prevLogNumber)
                  && forall n :: n in t.manifests ==> n >= s.manifestNumber)
  {
    hide RefsOk, State.Holders, State.LiveFiles;
    assert s.InWork() <= s.pending;
  }

  lemma FilesKept(s: State, step: Step)
    requires s.Inv() && Allowed(s, step)
    ensures Apply(s, step).FilesOk()
  {
    var t := Apply(s, step);
    RefsKept(s, step);
    hide RefsOk, State.Holders, State.LiveFiles, Apply, Allowed, State.InWork;
    if step.DeleteObsoleteFiles? {
      DeletionIsSafe(s);
      LessInWork(s);
    } else {
      TablesGrow(s, step);
      WorkIsOnDisk(s, step);
      if Installs(step) { InstalledIsOnDisk(s, step); }
    }
  }

  lemma LessInWork(s: State)
    requires Allowed(s, DeleteObsoleteFiles)
    ensures Apply(s, DeleteObsoleteFiles).InWork() <= s.InWork()
  {
    hide KeptLogs, State.LiveFiles;
  }

  lemma StepKeepsInv(s: State, step: Step)
    requires s.Inv() && Allowed(s, step)
    ensures Apply(s, step).Inv()
  {
    hide Apply, Allowed, RefsOk, State.Holders, State.FilesOk, State.NumbersOk, State.PendingOk, State.LogsOk;
    hide State.InstallsOk;
    RefsKept(s, step);
    FilesKept(s, step);
    NumbersKept(s, step);
    PendingKept(s, step);
    LogsKept(s, step);
    InstallsKept(s, step);
    ManifestKept(s, step);
  }

  lemma ManifestKept(s: State, step: Step)
    requires Allowed(s, step) && s.manifestNumber in s.manifests
    ensures Apply(s, step).manifestNumber in Apply(s, step).manifests
  {
    hide Ref, Unref, KeptLogs, State.LiveFiles;
  }

  // Runs

  /** A database just opened: one version, its files on disk, and an empty log. */
  ghost predicate IsNew(s: State) {
    && s.versions.Keys == {s.current} && s.versions[s.current].refs == 1
    && s.current < s.nextVersion && s.readers == multiset{}
    && s.LiveFiles() <= s.tables && s.NumbersOk() && s.pending == {} && s.manifestNumber in s.manifests
    && s.logFile in s.logs && s.logNumber <= s.logFile && s.immLog.None?
    && s.flush.NoFlush? && s.compaction.NoCompaction?
  }

  lemma NewIsInOrder(s: State)
    requires IsNew(s)
    ensures s.Inv()
  {
    assert s.Holders() == multiset{s.current};
    assert s.InWork() == {} && s.BeingWritten() == {};
  }

  ghost predicate IsRun(s: State, steps: seq<Step>)
    decreases |steps|
  {
    steps != [] ==> Allowed(s, steps[0]) && IsRun(Apply(s, steps[0]), steps[1..])
  }

  ghost function EndOf(s: State, steps: seq<Step>): State
    requires IsRun(s, steps)
    decreases |steps|
  {
    if steps == [] then s else EndOf(Apply(s, steps[0]), steps[1..])
  }

  lemma {:induction false} RunKeepsInv(s: State, steps: seq<Step>)
    requires s.Inv() && IsRun(s, steps)
    ensures EndOf(s, steps).Inv()
    decreases |steps|
  {
    hide Apply, Allowed, State.Inv;
    if steps != [] {
      StepKeepsInv(s, steps[0]);
      RunKeepsInv(Apply(s, steps[0]), steps[1..]);
    }
  }

  /**
   * Over any run, whatever readers, writers and the background thread interleave: every file of a version somebody
   * holds is on disk, so is every output of the work under way, half written or not, and so are the logs of both
   * memtables and the manifest.
   */
  lemma NoNeededFileIsLost(s: State, steps: seq<Step>, v: nat)
    requires IsNew(s) && IsRun(s, steps)
    ensures var end := EndOf(s, steps);
            && (v in end.Holders() ==> v in end.versions && end.versions[v].files <= end.tables)
            && end.InWork() <= end.tables
            && end.logFile in end.logs && (end.immLog.Some? ==> end.immLog.value in end.logs)
            && end.manifestNumber in end.manifests
  {
    NewIsInOrder(s);
    RunKeepsInv(s, steps);
    var end := EndOf(s, steps);
    if v in end.Holders() {
      assert end.versions[v].files <= end.LiveFiles();
    }
  }

  /**
   * Whatever came before: the numbers that are pending are those of the table and the outputs being written, and without
   * a background error the tables that are left when obsolete files are deleted are those of the versions somebody holds
   * and the outputs of a merge under way, and no others.
   */
  lemma OnlyWorkIsPending(s: State, steps: seq<Step>)
    requires IsNew(s) && IsRun(s, steps)
    ensures var end := EndOf(s, steps);
            && end.pending == end.BeingWritten()
            && (Allowed(end, DeleteObsoleteFiles) && !end.backgroundError ==>
                  Apply(end, DeleteObsoleteFiles).tables == end.LiveFiles() + end.CompactionWork())
  {
    NewIsInOrder(s);
    RunKeepsInv(s, steps);
    var end := EndOf(s, steps);
    if Allowed(end, DeleteObsoleteFiles) && !end.backgroundError { LeftOnDisk(end); }
  }

  lemma LeftOnDisk(s: State)
    requires s.Inv() && Allowed(s, DeleteObsoleteFiles) && !s.backgroundError
    ensures Apply(s, DeleteObsoleteFiles).tables == s.LiveFiles() + s.CompactionWork()
  {
    hide RefsOk, State.Holders, State.LiveFiles, State.LogsOk, State.NumbersOk;
    DeletionIsSafe(s);
    assert s.pending == s.CompactionWork();
    assert s.CompactionWork() <= s.InWork();
  }

  const TO_THE_WINDOW: seq<Step> := [SwitchLog, StartFlush, WriteTable, EndBuild(true)]

  /**
   * It matters that only the background thread collects files. Between the end of a flush and the installation of its
   * version the new table is neither pending nor in a version: a collection there would delete it.
   */
  lemma UnsafeBeforeInstalling(s: State)
    requires IsNew(s) && !s.backgroundError
    ensures IsRun(s, TO_THE_WINDOW)
    ensures var end := EndOf(s, TO_THE_WINDOW); !(end.InWork() <= Collected(end).tables)
  {
    NewIsInOrder(s);
    CurrentIsLive(s);
    var s1 := Apply(s, SwitchLog);
    var s2 := Apply(s1, StartFlush);
    var s3 := Apply(s2, WriteTable);
    var number := s1.nextFileNumber;
    assert s3.flush == Building(number, s.current, true) && s3.versions == Ref(s.versions, s.current);
    var s4 := Apply(s3, EndBuild(true));
    assert s4.LiveFiles() <= s.LiveFiles() && number !in s4.LiveFiles();
    assert number in s4.InWork() && number !in s4.pending;
    RunOfFour(s, SwitchLog, StartFlush, WriteTable, EndBuild(true));
  }

  lemma RunOfFour(s: State, a: Step, b: Step, c: Step, d: Step)
    requires Allowed(s, a) && Allowed(Apply(s, a), b) && Allowed(Apply(Apply(s, a), b), c)
    requires Allowed(Apply(Apply(Apply(s, a), b), c), d)
    ensures IsRun(s, [a, b, c, d]) && EndOf(s, [a, b, c, d]) == Apply(Apply(Apply(Apply(s, a), b), c), d)
  {
    hide Apply, Allowed;
    var s1 := Apply(s, a);
    var s2 := Apply(s1, b);
    var s3 := Apply(s2, c);
    var s4 := Apply(s3, d);
    assert [a, b, c, d][1..] == [b, c, d] && [b, c, d][1..] == [c, d] && [c, d][1..] == [d] && [d][1..] == [];
    assert IsRun(s4, []) && EndOf(s4, []) == s4;
    assert IsRun(s3, [d]) && EndOf(s3, [d]) == s4;
    assert IsRun(s2, [c, d]) && EndOf(s2, [c, d]) == s4;
    assert IsRun(s1, [b, c, d]) && EndOf(s1, [b, c, d]) == s4;
  }
}
