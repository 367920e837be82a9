/** No revision of a project is ever published automatically once it has been published. */
module BackupOnce {
  import opened Json
  import opened AutomaticBackup
  import opened BackupProtocol

  const EPOCH: Time := 0

  /** Every save is newer than the one before it, and none is older than `earliest`. */
  ghost predicate SavesForward(s: State, action: Action, earliest: Time) {
    action.Save? ==>
      action.time >= earliest && (action.project in s.disk ==> s.disk[action.project] < action.time)
  }

  ghost predicate Orderly(s: State, actions: seq<Action>, earliest: Time)
    decreases |actions|
  {
    actions != [] ==>
      var last := |actions| - 1;
      && Orderly(s, actions[..last], earliest)
      && (Run(s, actions[..last]).Some? ==> SavesForward(Run(s, actions[..last]).value, actions[last], earliest))
  }

  // -------------------------------------------------------------- invariant

  ghost predicate PublishedUpTo(published: seq<Publication>, name: string, bound: Time) {
    forall i :: 0 <= i < |published| && published[i].project == name && published[i].revision.Some? ==>
      published[i].revision.value <= bound
  }

  ghost predicate Stored(revision: FileRevision) {
    revision.nanoseconds < SECOND
  }

  function TimeOf(revision: FileRevision): Time {
    revision.seconds * SECOND + revision.nanoseconds
  }

  /** Everything the state says about one project. */
  datatype View = View(
    running: bool, disk: Option<Time>, durable: Option<FileRevision>, attempt: Option<FileRevision>,
    scheduled: Option<Time>, status: Option<Status>, transfer: Option<Transfer>)

  function ViewOf(s: State, name: string): View {
    View(s.running, Get(s.disk, name), Get(s.durable, name), Get(s.attempts, name), Get(s.scheduler, name),
         if name in s.projects then Some(s.projects[name].status) else None, Get(s.transfers, name))
  }

  predicate SameMarks(v: View, w: View) {
    && v.running == w.running && v.disk == w.disk && v.durable == w.durable
    && v.attempt == w.attempt && v.scheduled == w.scheduled
  }

  // The last save, what the state file says and what memory says move forward together.
  ghost predicate Marks(v: View, published: seq<Publication>, name: string) {
    && (v.disk.Some? ==> v.disk.value >= 0)
    && (v.durable.Some? ==> Stored(v.durable.value) && v.disk.Some? && TimeOf(v.durable.value) <= v.disk.value)
    && PublishedUpTo(published, name, if v.durable.Some? then TimeOf(v.durable.value) else -1)
    && (v.running ==>
          && (v.scheduled.Some? ==> v.disk.Some? && 0 <= v.scheduled.value <= v.disk.value)
          && v.attempt == (if v.scheduled.Some? then FromSystemTime(v.scheduled.value) else None)
          && (v.durable.Some? ==> v.scheduled.Some? && TimeOf(v.durable.value) <= v.scheduled.value))
  }

  ghost predicate InFlight(v: View, published: seq<Publication>, name: string) {
    v.transfer.Some? ==>
      var (start, phase) := (v.transfer.value.start, v.transfer.value.phase);
      && v.running && v.status == Some(Syncing)
      && (phase.Prepared? && phase.revision.Some? ==>
            && v.disk.Some? && 0 <= phase.revision.value <= v.disk.value
            && (v.scheduled.Some? ==> v.scheduled.value <= phase.revision.value))
      && (phase.Recorded? && phase.revision.Some? ==>
            && phase.revision.value >= 0
            && v.scheduled == phase.revision
            && v.durable == FromSystemTime(phase.revision.value))
      && (start.AfterQuietPeriod? && !phase.Uploaded? ==>
            && PublishedUpTo(published, name, start.qualified - 1)
            && (phase.Prepared? || phase.Recorded? ==> phase.revision == Some(start.qualified)))
  }

  ghost predicate NameInvariant(s: State, name: string) {
    Marks(ViewOf(s, name), s.published, name) && InFlight(ViewOf(s, name), s.published, name)
  }

  /** An automatic publication is newer than everything of its project published before it. */
  ghost predicate AutomaticallyNewer(published: seq<Publication>) {
    forall i, j :: 0 <= i < j < |published| ==> Newer(published[i], published[j])
  }

  ghost predicate Newer(earlier: Publication, later: Publication) {
    later.start.AfterQuietPeriod? && later.project == earlier.project && earlier.revision.Some? ==>
      later.revision.Some? && earlier.revision.value < later.revision.value
  }

  ghost predicate Invariant(s: State) {
    s.persistent && (forall name :: NameInvariant(s, name)) && AutomaticallyNewer(s.published)
  }

  // ------------------------------------------------------------------ steps

  lemma StoredExactly(time: Time)
    requires time >= 0
    ensures FromSystemTime(time).Some? && Stored(FromSystemTime(time).value)
    ensures TimeOf(FromSystemTime(time).value) == time
    ensures ToSystemTime(FromSystemTime(time).value) == Some(time)
  {
  }

  lemma StoredBack(revision: FileRevision)
    requires Stored(revision)
    ensures ToSystemTime(revision) == Some(TimeOf(revision)) && TimeOf(revision) >= 0
    ensures FromSystemTime(TimeOf(revision)) == Some(revision)
  {
  }

  // A poll selects only a save newer than anything recorded, so than anything published.
  lemma PollKeeps(s: State, now: Time, facts: map<string, Facts>, name: string)
    requires s.running && FactsFor(s, facts) && NameInvariant(s, name)
    ensures NameInvariant(Polled(s, now, facts), name)
  {
    var v, w := ViewOf(s, name), ViewOf(Polled(s, now, facts), name);
    if name in facts {
      PolledView(s, now, facts, name);
      PolledOutcome(v.scheduled, name, s.projects[name], v.disk, facts[name], now);
      ViewKept(v, w, s.published, name);
    } else {
      assert w == v;
    }
  }

  lemma PolledView(s: State, now: Time, facts: map<string, Facts>, name: string)
    requires s.running && FactsFor(s, facts) && name in facts
    ensures var (project, chosen) := Polling(s, now, facts, name);
            ViewOf(Polled(s, now, facts), name) == ViewOf(s, name).(
              status := Some(project.status),
              transfer := if chosen.Some? then Some(Transfer(AfterQuietPeriod(chosen.value), Preparing))
                          else Get(s.transfers, name))
    ensures Polled(s, now, facts).published == s.published
  {
  }

  // A transfer in progress is left alone; a new one is of the last save, never attempted.
  lemma PolledOutcome(
    attempted: Option<Time>, name: string, project: Project, modifiedAt: Option<Time>, facts: Facts, now: Time)
    ensures var (polled, chosen) := PolledProject(attempted, name, project, modifiedAt, facts, now);
            && (project.status.Syncing? ==> polled.status.Syncing? && chosen.None?)
            && (chosen.Some? ==> polled.status.Syncing? && modifiedAt == chosen && attempted != chosen)
  {
  }

  lemma ViewKept(v: View, w: View, published: seq<Publication>, name: string)
    requires Marks(v, published, name) && InFlight(v, published, name) && v.running
    requires SameMarks(v, w)
    requires v.status == Some(Syncing) ==> w.status == v.status && w.transfer == v.transfer
    requires w.transfer == v.transfer ||
             (w.status == Some(Syncing) && v.disk.Some? && v.scheduled != v.disk &&
              w.transfer == Some(Transfer(AfterQuietPeriod(v.disk.value), Preparing)))
    ensures Marks(w, published, name) && InFlight(w, published, name)
  {
  }

  lemma SaveKeeps(s: State, action: Action, name: string)
    requires action.Save? && SavesForward(s, action, EPOCH) && NameInvariant(s, name)
    ensures NameInvariant(Next(s, action).value, name)
  {
    var v, w := ViewOf(s, name), ViewOf(Next(s, action).value, name);
    assert w == if name == action.project then v.(disk := Some(action.time)) else v;
  }

  // The steps of a transfer change what is said of its own project only.
  ghost predicate TransferStep(v: View, w: View, action: Action) {
    && SameMarks(v, w)
    && (|| w.transfer.None?
        || (action.Begin? && w.status == Some(Syncing) && w.transfer == Some(Transfer(Immediate, Preparing)))
        || (action.Prepare? && w.status == v.status && v.transfer.Some? &&
            w.transfer == Some(v.transfer.value.(phase := Prepared(v.disk))) &&
            Accepts(v.transfer.value.start, v.disk)))
  }

  lemma TransferSteps(s: State, action: Action, name: string)
    requires action.Begin? || action.Prepare? || action.Finish?
    requires Next(s, action).Some?
    ensures Next(s, action).value.published == s.published
    ensures name != action.project ==> ViewOf(Next(s, action).value, name) == ViewOf(s, name)
    ensures name == action.project ==> TransferStep(ViewOf(s, name), ViewOf(Next(s, action).value, name), action)
  {
    match action
    case Begin(_) => BeginSteps(s, action, name);
    case Prepare(_, _, _) => PrepareSteps(s, action, name);
    case Finish(_, _, _) => FinishSteps(s, action, name);
    case _ =>
  }

  lemma BeginSteps(s: State, action: Action, name: string)
    requires action.Begin? && Next(s, action).Some?
    ensures Next(s, action).value.published == s.published
    ensures name != action.project ==> ViewOf(Next(s, action).value, name) == ViewOf(s, name)
    ensures name == action.project ==> TransferStep(ViewOf(s, name), ViewOf(Next(s, action).value, name), action)
  {
  }

  lemma EndedView(s: State, ended: string, after: Status, name: string)
    ensures var t := Ended(s, ended, after);
            var v, w := ViewOf(s, name), ViewOf(t, name);
            && t.published == s.published
            && SameMarks(v, w)
            && (name != ended ==> w == v)
            && (name == ended ==> w.transfer == None)
  {
    var middle := s.(transfers := s.transfers - {ended});
    StatusView(middle, ended, after, name);
    assert SameMarks(ViewOf(s, name), ViewOf(middle, name));
  }

  lemma StatusView(s: State, changed: string, status: Status, name: string)
    ensures var t := SetStatus(s, changed, status);
            var v, w := ViewOf(s, name), ViewOf(t, name);
            && t.published == s.published && t.transfers == s.transfers
            && SameMarks(v, w) && w.transfer == v.transfer
            && (name != changed ==> w == v)
  {
  }

  lemma PhaseView(s: State, moved: string, transfer: Transfer, name: string)
    ensures var t := s.(transfers := s.transfers[moved := transfer]);
            && t.published == s.published
            && ViewOf(t, name) ==
               if name == moved then ViewOf(s, name).(transfer := Some(transfer)) else ViewOf(s, name)
  {
  }

  lemma PrepareSteps(s: State, action: Action, name: string)
    requires action.Prepare? && Next(s, action).Some?
    ensures Next(s, action).value.published == s.published
    ensures name != action.project ==> ViewOf(Next(s, action).value, name) == ViewOf(s, name)
    ensures name == action.project ==> TransferStep(ViewOf(s, name), ViewOf(Next(s, action).value, name), action)
  {
    EndedView(s, action.project, action.after, name);
    PhaseView(s, action.project, s.transfers[action.project].(phase := Prepared(Get(s.disk, action.project))), name);
  }

  lemma FinishSteps(s: State, action: Action, name: string)
    requires action.Finish? && Next(s, action).Some?
    ensures Next(s, action).value.published == s.published
    ensures name != action.project ==> ViewOf(Next(s, action).value, name) == ViewOf(s, name)
    ensures name == action.project ==> TransferStep(ViewOf(s, name), ViewOf(Next(s, action).value, name), action)
  {
    EndedView(s, action.project, action.after, name);
  }

  lemma TransferKeeps(s: State, action: Action, name: string)
    requires action.Begin? || action.Prepare? || action.Finish?
    requires Next(s, action).Some? && NameInvariant(s, name)
    ensures NameInvariant(Next(s, action).value, name)
  {
    TransferSteps(s, action, name);
    if action.Begin? && name == action.project {
      assert s.running;
    }
    if action.Prepare? && name == action.project {
      assert InPhase(s, name, Preparing);
    }
  }

  lemma RecordView(s: State, action: Action, name: string)
    requires action.Record? && s.persistent && Next(s, action).Some?
    requires InFlight(ViewOf(s, action.project), s.published, action.project)
    ensures var t := Next(s, action).value;
            var v, w := ViewOf(s, name), ViewOf(t, name);
            && t.published == s.published
            && w.running && w.disk == v.disk
            && w.durable == (if action.saved then w.attempt else v.durable)
            && (name != action.project ==>
                  w.(durable := v.durable) == v)
            && (name == action.project ==>
                  && v.transfer.Some? && v.transfer.value.phase.Prepared?
                  && var revision := v.transfer.value.phase.revision;
                     && w.scheduled == (if revision.Some? then revision else v.scheduled)
                     && w.attempt == (if revision.Some? then FromSystemTime(revision.value) else v.attempt)
                     && (w.transfer.None? ||
                         (action.saved && w.status == v.status &&
                          w.transfer == Some(v.transfer.value.(phase := Recorded(revision))))))
  {
    var revision := s.transfers[action.project].phase.revision;
    var recorded := RecordBackupRevision(s, action.project, revision, action.saved);
    if action.saved {
      PhaseView(recorded, action.project, s.transfers[action.project].(phase := Recorded(revision)), name);
    } else {
      EndedView(recorded, action.project, action.after, name);
    }
  }

  lemma RecordKeeps(s: State, action: Action, name: string)
    requires action.Record? && s.persistent && Next(s, action).Some?
    requires NameInvariant(s, name) && NameInvariant(s, action.project)
    ensures NameInvariant(Next(s, action).value, name)
  {
    RecordView(s, action, name);
    var w := ViewOf(Next(s, action).value, name);
    if w.scheduled.Some? {
      StoredExactly(w.scheduled.value);
    }
  }

  lemma SaveStateKeeps(s: State, action: Action, name: string)
    requires action.SaveState? && Next(s, action).Some? && NameInvariant(s, name)
    ensures NameInvariant(Next(s, action).value, name)
  {
    var v, w := ViewOf(s, name), ViewOf(Next(s, action).value, name);
    assert w == v.(durable := v.attempt);
    if v.scheduled.Some? {
      StoredExactly(v.scheduled.value);
    }
  }

  lemma RestartKeeps(s: State, action: Action, name: string)
    requires action.Crash? || action.Restart?
    requires Next(s, action).Some? && NameInvariant(s, name)
    ensures NameInvariant(Next(s, action).value, name)
  {
    if name in s.durable {
      StoredBack(s.durable[name]);
    }
  }

  lemma UploadView(s: State, action: Action, name: string)
    requires action.Upload? && Next(s, action).Some?
    ensures var t := Next(s, action).value;
            var v, w := ViewOf(s, name), ViewOf(t, name);
            && (name != action.project ==> w == v)
            && (name == action.project ==>
                  && v.transfer.Some? && v.transfer.value.phase.Recorded?
                  && w == v.(transfer := Some(v.transfer.value.(phase := Uploaded))))
    ensures var transfer := s.transfers[action.project];
            Next(s, action).value.published ==
            if action.committed
            then
              var entry :=
                Publication(action.project, transfer.start, transfer.phase.revision, Get(s.durable, action.project));
              s.published + [entry]
            else s.published
  {
    PhaseView(s, action.project, s.transfers[action.project].(phase := Uploaded), name);
  }

  lemma UploadKeeps(s: State, action: Action, name: string)
    requires action.Upload? && Next(s, action).Some? && NameInvariant(s, name)
    ensures NameInvariant(Next(s, action).value, name)
  {
    UploadView(s, action, name);
    if name == action.project {
      var revision := s.transfers[name].phase.revision;
      if revision.Some? {
        StoredExactly(revision.value);
      }
    }
  }

  lemma UploadNewer(s: State, action: Action)
    requires action.Upload? && Next(s, action).Some? && Invariant(s)
    ensures AutomaticallyNewer(Next(s, action).value.published)
  {
    var name := action.project;
    assert NameInvariant(s, name);
    var entry := Publication(name, s.transfers[name].start, s.transfers[name].phase.revision, Get(s.durable, name));
    forall i | 0 <= i < |s.published| ensures Newer(s.published[i], entry) {
    }
  }

  lemma StepKeeps(s: State, action: Action)
    requires Invariant(s) && SavesForward(s, action, EPOCH) && Next(s, action).Some?
    ensures Invariant(Next(s, action).value)
  {
    SelectionsGrow(s, action);
    forall name ensures NameInvariant(Next(s, action).value, name) {
      assert NameInvariant(s, name);
      match action
      case Save(_, _) => SaveKeeps(s, action, name);
      case Poll(now, facts) => PollKeeps(s, now, facts, name);
      case Begin(_) => TransferKeeps(s, action, name);
      case Prepare(_, _, _) => TransferKeeps(s, action, name);
      case Record(_, _, _) =>
        assert NameInvariant(s, action.project);
        RecordKeeps(s, action, name);
      case Upload(_, _) => UploadKeeps(s, action, name);
      case Finish(_, _, _) => TransferKeeps(s, action, name);
      case SaveState => SaveStateKeeps(s, action, name);
      case Crash => RestartKeeps(s, action, name);
      case Restart(_) => RestartKeeps(s, action, name);
    }
    if action.Upload? {
      UploadNewer(s, action);
    }
  }

  lemma {:induction false} RunKeeps(s: State, actions: seq<Action>)
    requires Init(s) && s.persistent && (forall name :: name in s.disk ==> s.disk[name] >= 0)
    requires Run(s, actions).Some? && Orderly(s, actions, EPOCH)
    ensures Invariant(Run(s, actions).value)
    decreases |actions|
  {
    if actions != [] {
      var last := |actions| - 1;
      RunKeeps(s, actions[..last]);
      StepKeeps(Run(s, actions[..last]).value, actions[last]);
    }
  }

  /**
   * With a state file to write, saves that move forward and nothing older than
   * the epoch, no run publishes a revision automatically a second time: each
   * automatic publication is newer than all of its project's before it.
   */
  lemma NeverTwice(s: State, actions: seq<Action>, i: nat, j: nat)
    requires Init(s) && s.persistent && (forall name :: name in s.disk ==> s.disk[name] >= 0)
    requires Run(s, actions).Some? && Orderly(s, actions, EPOCH)
    requires i < j < |Run(s, actions).value.published|
    ensures var (p, q) := (Run(s, actions).value.published[i], Run(s, actions).value.published[j]);
            q.start.AfterQuietPeriod? && q.project == p.project ==> p.revision != q.revision
  {
    RunKeeps(s, actions);
    EveryRunIsSafe(s, actions);
    var published := Run(s, actions).value.published;
    assert Newer(published[i], published[j]) && PublishedProperly(Run(s, actions).value, published[j]);
  }
}
