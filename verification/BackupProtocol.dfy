/**
 * The backup driver as a machine of steps: saves, polls, preparation, the
 * durable record, publication, and crashes anywhere in between.
 */
module BackupProtocol {
  import opened Json
  import opened AutomaticBackup

  // ---------------------------------------------------------------- the state

  datatype Status = NeverBackedUp | NotDownloaded | Downloaded | Syncing | LocalAhead | UpstreamAhead | Conflicted

  predicate StartsTransfer(status: Status) {
    status.NeverBackedUp? || status.NotDownloaded? || status.LocalAhead? || status.UpstreamAhead?
  }

  predicate Blocked(status: Status) {
    status.NotDownloaded? || status.Syncing? || status.UpstreamAhead? || status.Conflicted?
  }

  datatype Project = Project(status: Status, modifiedAt: Option<Time>, backedUpAt: Option<Time>)

  datatype Start = Immediate | AfterQuietPeriod(qualified: Time)

  predicate Accepts(start: Start, prepared: Option<Time>) {
    start.Immediate? || prepared == Some(start.qualified)
  }

  datatype Phase = Preparing | Prepared(revision: Option<Time>) | Recorded(revision: Option<Time>) | Uploaded

  datatype Transfer = Transfer(start: Start, phase: Phase)

  // History: what polls selected, and what was published, with what the state
  // file said about the project at that moment.
  datatype Selection = Selection(project: string, revision: Time, now: Time, onDisk: Option<Time>)

  datatype Publication = Publication(
    project: string, start: Start, revision: Option<Time>, durable: Option<FileRevision>)

  /**
   * `disk` holds each project file's last save and `durable` the state file's
   * attempts; `attempts`, `scheduler`, `projects` and `transfers` are lost in a
   * crash. Without `persistent` there is nowhere to write the state file.
   */
  datatype State = State(
    running: bool,
    persistent: bool,
    disk: map<string, Time>,
    durable: map<string, FileRevision>,
    attempts: map<string, FileRevision>,
    scheduler: map<string, Time>,
    projects: map<string, Project>,
    transfers: map<string, Transfer>,
    selected: seq<Selection>,
    published: seq<Publication>)

  // What a look at a project's sidecar and providers says.
  datatype Facts = Facts(status: Status, backedUpAt: Option<Time>, connected: bool, destination: bool)

  predicate OnDisk(facts: Facts) {
    facts.status.NeverBackedUp? || facts.status.Downloaded? || facts.status.LocalAhead?
  }

  datatype Action =
    | Save(project: string, time: Time)
    | Poll(now: Time, facts: map<string, Facts>)
    | Begin(project: string)
    | Prepare(project: string, readable: bool, after: Status)
    | Record(project: string, saved: bool, after: Status)
    | Upload(project: string, committed: bool)
    | Finish(project: string, after: Status, backedUpAt: Option<Time>)
    | SaveState
    | Crash
    | Restart(found: map<string, Facts>)

  // ------------------------------------------------------------------ polling

  function Refreshed(project: Project, modifiedAt: Option<Time>, facts: Facts): Project {
    var seen := project.(modifiedAt := modifiedAt);
    if Blocked(seen.status) then seen else seen.(status := facts.status, backedUpAt := facts.backedUpAt)
  }

  function Observed(name: string, project: Project, facts: Facts): Observation {
    Observation(name, project.modifiedAt, project.backedUpAt, project.backedUpAt.Some? && facts.connected,
                Blocked(project.status))
  }

  /** What a poll makes of one project, and the revision it starts to back up. */
  function PolledProject(attempted: Option<Time>, name: string, project: Project, modifiedAt: Option<Time>,
                         facts: Facts, now: Time): (Project, Option<Time>)
  {
    var current := Refreshed(project, modifiedAt, facts);
    match Due(attempted, Observed(name, current, facts), now)
    case None => (current, None)
    case Some(candidate) =>
      var marked := if candidate.reason.SavedDuringPreviousBackup? && current.status.Downloaded?
                    then current.(status := LocalAhead) else current;
      if facts.destination && StartsTransfer(marked.status)
      then (marked.(status := Syncing), Some(candidate.qualified))
      else (marked, None)
  }

  predicate FactsFor(s: State, facts: map<string, Facts>) {
    facts.Keys == s.projects.Keys && forall name :: name in facts ==> OnDisk(facts[name])
  }

  function Polling(s: State, now: Time, facts: map<string, Facts>, name: string): (Project, Option<Time>)
    requires FactsFor(s, facts) && name in facts
  {
    PolledProject(Get(s.scheduler, name), name, s.projects[name], Get(s.disk, name), facts[name], now)
  }

  // Several projects may be selected at once; `order` is the order they are in.
  ghost function Polled(s: State, now: Time, facts: map<string, Facts>): State
    requires FactsFor(s, facts)
  {
    s.(projects := map name | name in facts :: Polling(s, now, facts, name).0,
       transfers := s.transfers +
         map name | name in facts && Polling(s, now, facts, name).1.Some?
             :: Transfer(AfterQuietPeriod(Polling(s, now, facts, name).1.value), Preparing),
       selected := s.selected + Selections(s, now, facts, Sorted(facts.Keys)))
  }

  ghost function Selections(s: State, now: Time, facts: map<string, Facts>, names: seq<string>): seq<Selection>
    requires FactsFor(s, facts)
  {
    if names == [] then []
    else
      (if names[0] in facts && Polling(s, now, facts, names[0]).1.Some?
       then [Selection(names[0], Polling(s, now, facts, names[0]).1.value, now, Get(s.disk, names[0]))] else [])
      + Selections(s, now, facts, names[1..])
  }

  // -------------------------------------------------------------------- steps

  function SetStatus(s: State, name: string, status: Status): State {
    if name in s.projects then s.(projects := s.projects[name := s.projects[name].(status := status)]) else s
  }

  // The transfer is over; its project leaves `Syncing`.
  function Ended(s: State, name: string, status: Status): State {
    SetStatus(s.(transfers := s.transfers - {name}), name, status)
  }

  function RecordAttempt(attempts: map<string, FileRevision>, name: string, revision: Option<Time>)
    : map<string, FileRevision>
  {
    if revision.Some? && FromSystemTime(revision.value).Some?
    then attempts[name := FromSystemTime(revision.value).value] else attempts
  }

  /** The attempt is remembered, then the state file written; only then may publication follow. */
  function RecordBackupRevision(s: State, name: string, revision: Option<Time>, saved: bool): State {
    var remembered := s.(
      scheduler := if revision.Some? then s.scheduler[name := revision.value] else s.scheduler,
      attempts := RecordAttempt(s.attempts, name, revision));
    if s.persistent && saved then remembered.(durable := remembered.attempts) else remembered
  }

  predicate InPhase(s: State, name: string, phase: Phase) {
    s.running && name in s.transfers && s.transfers[name].phase == phase
  }

  function Restored(durable: map<string, FileRevision>): map<string, Time> {
    map name | name in durable && ToSystemTime(durable[name]).Some? :: ToSystemTime(durable[name]).value
  }

  // Preparation reads the file as it is now; an automatic start insists on the revision polled.
  function PrepareStep(s: State, name: string, readable: bool, after: Status): Option<State> {
    if !InPhase(s, name, Preparing) || after.Syncing? then None
    else if !readable || !Accepts(s.transfers[name].start, Get(s.disk, name)) then Some(Ended(s, name, after))
    else
      var prepared := s.transfers[name].(phase := Prepared(Get(s.disk, name)));
      Some(s.(transfers := s.transfers[name := prepared]))
  }

  function RecordStep(s: State, name: string, saved: bool, after: Status): Option<State> {
    if !(s.running && name in s.transfers && s.transfers[name].phase.Prepared?) || after.Syncing? then None
    else
      var revision := s.transfers[name].phase.revision;
      var recorded := RecordBackupRevision(s, name, revision, saved);
      if s.persistent && !saved then Some(Ended(recorded, name, after))
      else Some(recorded.(transfers := s.transfers[name := s.transfers[name].(phase := Recorded(revision))]))
  }

  function UploadStep(s: State, name: string, committed: bool): Option<State> {
    if !(s.running && name in s.transfers && s.transfers[name].phase.Recorded?) then None
    else
      var transfer := s.transfers[name];
      var uploaded := s.(transfers := s.transfers[name := transfer.(phase := Uploaded)]);
      if !committed then Some(uploaded)
      else
        var entry := Publication(name, transfer.start, transfer.phase.revision, Get(s.durable, name));
        Some(uploaded.(published := s.published + [entry]))
  }

  function FinishStep(s: State, name: string, after: Status, backedUpAt: Option<Time>): Option<State> {
    if !InPhase(s, name, Uploaded) || after.Syncing? then None
    else
      var ended := Ended(s, name, after);
      Some(if name in ended.projects
           then ended.(projects := ended.projects[name := ended.projects[name].(backedUpAt := backedUpAt)]) else ended)
  }

  ghost function Next(s: State, action: Action): Option<State> {
    match action
    case Save(name, time) => Some(s.(disk := s.disk[name := time]))
    case Poll(now, facts) => if s.running && FactsFor(s, facts) then Some(Polled(s, now, facts)) else None
    case Begin(name) =>
      if s.running && name in s.projects && StartsTransfer(s.projects[name].status) then
        Some(SetStatus(s.(transfers := s.transfers[name := Transfer(Immediate, Preparing)]), name, Syncing))
      else None
    case Prepare(name, readable, after) => PrepareStep(s, name, readable, after)
    case Record(name, saved, after) => RecordStep(s, name, saved, after)
    case Upload(name, committed) => UploadStep(s, name, committed)
    case Finish(name, after, backedUpAt) => FinishStep(s, name, after, backedUpAt)
    case SaveState => if s.running && s.persistent then Some(s.(durable := s.attempts)) else None
    case Crash =>
      Some(s.(running := false, attempts := map[], scheduler := map[], projects := map[], transfers := map[]))
    case Restart(found) =>
      if s.running || exists name :: name in found && !OnDisk(found[name]) then None
      else
        Some(s.(
          running := true,
          attempts := s.durable,
          scheduler := Restored(s.durable),
          projects := map name | name in found ::
            Project(found[name].status, Get(s.disk, name), found[name].backedUpAt),
          transfers := map[]))
  }

  /** Files may be there already; nothing has been attempted or published yet. */
  ghost predicate Init(s: State) {
    && !s.running && s.durable == map[] && s.attempts == map[] && s.scheduler == map[]
    && s.projects == map[] && s.transfers == map[] && s.selected == [] && s.published == []
  }

  /** The state after `actions`, if every one of them was possible. */
  ghost function Run(s: State, actions: seq<Action>): Option<State>
    decreases |actions|
  {
    if actions == [] then Some(s)
    else
      match Run(s, actions[..|actions| - 1])
      case None => None
      case Some(middle) => Next(middle, actions[|actions| - 1])
  }

  // ------------------------------------- what is published, in every run

  ghost predicate QuietSelection(selected: seq<Selection>, name: string, revision: Time) {
    exists i :: 0 <= i < |selected| && selected[i].project == name && selected[i].revision == revision
  }

  // What was selected was the file's last save, five minutes old at the poll.
  ghost predicate Quiet(x: Selection) {
    x.onDisk == Some(x.revision) && x.now - x.revision >= QUIET_PERIOD
  }

  ghost predicate SelectionsQuiet(s: State) {
    forall i :: 0 <= i < |s.selected| ==> Quiet(s.selected[i])
  }

  // A transfer begun by a poll carries the revision that poll selected, and
  // nothing else gets past preparation.
  ghost predicate Carries(selected: seq<Selection>, name: string, transfer: Transfer) {
    transfer.start.AfterQuietPeriod? ==>
      && QuietSelection(selected, name, transfer.start.qualified)
      && (transfer.phase.Prepared? || transfer.phase.Recorded? ==>
            transfer.phase.revision == Some(transfer.start.qualified))
  }

  ghost predicate TransfersSelected(s: State) {
    AllCarry(s.selected, s.transfers)
  }

  ghost predicate AllCarry(selected: seq<Selection>, transfers: map<string, Transfer>) {
    forall name :: name in transfers ==> Carries(selected, name, transfers[name])
  }

  // What a recorded transfer's project has in the state file.
  ghost predicate RecordedDurably(s: State) {
    && (s.persistent && s.running ==> forall name :: name in s.transfers && s.transfers[name].phase.Recorded? ==>
          AttemptWritten(s.durable, s.attempts, name, s.transfers[name].phase.revision))
    && (!s.persistent ==> s.durable == map[])
  }

  ghost predicate AttemptWritten(durable: map<string, FileRevision>, attempts: map<string, FileRevision>, name: string,
                                 revision: Option<Time>)
  {
    revision.Some? && revision.value >= 0 ==>
      Get(durable, name) == FromSystemTime(revision.value) && Get(attempts, name) == FromSystemTime(revision.value)
  }

  /** An automatic publication is of a revision some poll found quiet, recorded beforehand. */
  ghost predicate PublishedProperly(s: State, p: Publication) {
    && (p.start.AfterQuietPeriod? ==>
          p.revision == Some(p.start.qualified) && QuietSelection(s.selected, p.project, p.start.qualified))
    && (p.revision.Some? && p.revision.value >= 0 && s.persistent ==> p.durable == FromSystemTime(p.revision.value))
    && (!s.persistent ==> p.durable == None)
  }

  ghost predicate Safe(s: State) {
    && SelectionsQuiet(s) && TransfersSelected(s) && RecordedDurably(s)
    && forall i :: 0 <= i < |s.published| ==> PublishedProperly(s, s.published[i])
  }

  lemma {:induction false} SelectionMembers(s: State, now: Time, facts: map<string, Facts>, names: seq<string>)
    requires FactsFor(s, facts)
    ensures forall x :: x in Selections(s, now, facts, names) ==> Quiet(x) && x.now == now
    ensures forall name :: name in names && name in facts && Polling(s, now, facts, name).1.Some? ==>
      Selection(name, Polling(s, now, facts, name).1.value, now, Get(s.disk, name)) in Selections(s, now, facts, names)
  {
    if names != [] {
      SelectionMembers(s, now, facts, names[1..]);
    }
  }

  lemma SelectionKept(before: seq<Selection>, after: seq<Selection>, name: string, revision: Time)
    requires before <= after && QuietSelection(before, name, revision)
    ensures QuietSelection(after, name, revision)
  {
    var i :| 0 <= i < |before| && before[i].project == name && before[i].revision == revision;
    assert after[i] == before[i];
  }

  lemma PollSelects(s: State, now: Time, facts: map<string, Facts>, name: string)
    requires FactsFor(s, facts) && name in facts && Polling(s, now, facts, name).1.Some?
    ensures QuietSelection(Polled(s, now, facts).selected, name, Polling(s, now, facts, name).1.value)
  {
    var t, names := Polled(s, now, facts), Sorted(facts.Keys);
    var chosen := Selections(s, now, facts, names);
    assert name in Elements(names);
    SelectionMembers(s, now, facts, names);
    var x := Selection(name, Polling(s, now, facts, name).1.value, now, Get(s.disk, name));
    var j :| 0 <= j < |chosen| && chosen[j] == x;
    assert t.selected[|s.selected| + j] == x;
  }

  lemma PollSelectionsQuiet(s: State, now: Time, facts: map<string, Facts>)
    requires SelectionsQuiet(s) && FactsFor(s, facts)
    ensures SelectionsQuiet(Polled(s, now, facts))
  {
    var t, chosen := Polled(s, now, facts), Selections(s, now, facts, Sorted(facts.Keys));
    SelectionMembers(s, now, facts, Sorted(facts.Keys));
    forall i | 0 <= i < |t.selected| ensures Quiet(t.selected[i]) {
      if i >= |s.selected| {
        assert t.selected[i] == chosen[i - |s.selected|] && t.selected[i] in chosen;
      }
    }
  }

  lemma PollTransfers(s: State, now: Time, facts: map<string, Facts>)
    requires TransfersSelected(s) && FactsFor(s, facts)
    ensures TransfersSelected(Polled(s, now, facts))
  {
    var t := Polled(s, now, facts);
    forall name | name in t.transfers ensures Carries(t.selected, name, t.transfers[name]) {
      if name in facts && Polling(s, now, facts, name).1.Some? {
        PollSelects(s, now, facts, name);
      } else {
        assert Carries(s.selected, name, s.transfers[name]);
        if s.transfers[name].start.AfterQuietPeriod? {
          SelectionKept(s.selected, t.selected, name, s.transfers[name].start.qualified);
        }
      }
    }
  }

  // Publications stay proper as long as selections are only added.
  lemma PublishedKept(s: State, t: State, i: nat)
    requires i < |s.published| && PublishedProperly(s, s.published[i])
    requires s.selected <= t.selected && s.persistent == t.persistent
    ensures PublishedProperly(t, s.published[i])
  {
    var p := s.published[i];
    if p.start.AfterQuietPeriod? {
      SelectionKept(s.selected, t.selected, p.project, p.start.qualified);
    }
  }

  // A transfer that moves on keeps its start, and its revision once it has one.
  ghost predicate Moved(s: State, name: string, after: map<string, Transfer>) {
    || after == s.transfers - {name}
    || (name in s.transfers && exists phase: Phase ::
          && Follows(s, s.transfers[name], phase, name)
          && after == s.transfers[name := s.transfers[name].(phase := phase)])
  }

  // The phases a transfer may move to.
  predicate Follows(s: State, transfer: Transfer, phase: Phase, name: string) {
    match phase
    case Preparing => false
    case Prepared(revision) => Accepts(transfer.start, revision) && revision == Get(s.disk, name)
    case Recorded(revision) => transfer.phase == Prepared(revision)
    case Uploaded => true
  }

  lemma PrepareMoves(s: State, name: string, readable: bool, after: Status)
    requires PrepareStep(s, name, readable, after).Some?
    ensures var t := PrepareStep(s, name, readable, after).value;
            t == s.(projects := t.projects, transfers := t.transfers) && Moved(s, name, t.transfers)
  {
    assert Accepts(s.transfers[name].start, Get(s.disk, name)) ==>
      Follows(s, s.transfers[name], Prepared(Get(s.disk, name)), name);
  }

  lemma RecordMoves(s: State, name: string, saved: bool, after: Status)
    requires RecordStep(s, name, saved, after).Some?
    ensures var t := RecordStep(s, name, saved, after).value;
            && t == s.(projects := t.projects, transfers := t.transfers, scheduler := t.scheduler,
                       attempts := t.attempts, durable := t.durable)
            && Moved(s, name, t.transfers)
  {
    assert Follows(s, s.transfers[name], Recorded(s.transfers[name].phase.revision), name);
  }

  lemma UploadMoves(s: State, name: string, committed: bool)
    requires UploadStep(s, name, committed).Some?
    ensures var t := UploadStep(s, name, committed).value;
            t == s.(transfers := t.transfers, published := t.published) && Moved(s, name, t.transfers)
  {
    assert Follows(s, s.transfers[name], Uploaded, name);
  }

  lemma FinishMoves(s: State, name: string, after: Status, backedUpAt: Option<Time>)
    requires FinishStep(s, name, after, backedUpAt).Some?
    ensures var t := FinishStep(s, name, after, backedUpAt).value;
            t == s.(projects := t.projects, transfers := t.transfers) && Moved(s, name, t.transfers)
  {
  }

  predicate Moves(action: Action) {
    action.Prepare? || action.Record? || action.Upload? || action.Finish?
  }

  lemma StepMoves(s: State, action: Action)
    requires Next(s, action).Some? && Moves(action)
    ensures var t := Next(s, action).value;
            && Moved(s, action.project, t.transfers)
            && t == s.(projects := t.projects, transfers := t.transfers, scheduler := t.scheduler,
                       attempts := t.attempts, durable := t.durable, published := t.published)
            && (!action.Upload? ==> t.published == s.published)
            && (!action.Record? ==> t.durable == s.durable && t.attempts == s.attempts && t.scheduler == s.scheduler)
  {
    match action
    case Prepare(name, readable, after) => PrepareMoves(s, name, readable, after);
    case Record(name, saved, after) => RecordMoves(s, name, saved, after);
    case Upload(name, committed) => UploadMoves(s, name, committed);
    case Finish(name, after, backedUpAt) => FinishMoves(s, name, after, backedUpAt);
    case _ =>
  }

  lemma SelectionsGrow(s: State, action: Action)
    requires Next(s, action).Some?
    ensures var t := Next(s, action).value;
            && s.selected <= t.selected && s.persistent == t.persistent
            && (!action.Poll? ==> t.selected == s.selected)
            && (!action.Upload? ==> t.published == s.published)
  {
    if Moves(action) {
      StepMoves(s, action);
    }
  }

  lemma MovedCarry(s: State, name: string, after: map<string, Transfer>)
    requires TransfersSelected(s) && Moved(s, name, after)
    ensures AllCarry(s.selected, after)
  {
    assert name in s.transfers ==> Carries(s.selected, name, s.transfers[name]);
  }

  lemma StepTransfers(s: State, action: Action)
    requires TransfersSelected(s) && Next(s, action).Some?
    ensures TransfersSelected(Next(s, action).value)
  {
    if action.Poll? {
      PollTransfers(s, action.now, action.facts);
    } else {
      SelectionsGrow(s, action);
      if Moves(action) {
        StepMoves(s, action);
        MovedCarry(s, action.project, Next(s, action).value.transfers);
      }
    }
  }

  lemma MovedRecorded(s: State, name: string, t: State)
    requires RecordedDurably(s) && s.running && Moved(s, name, t.transfers)
    requires t.running == s.running && t.persistent == s.persistent
    requires t.durable == s.durable && t.attempts == s.attempts
    requires name in t.transfers ==> !t.transfers[name].phase.Recorded?
    ensures RecordedDurably(t)
  {
  }

  lemma RecordRecorded(s: State, name: string, saved: bool, after: Status)
    requires RecordedDurably(s) && RecordStep(s, name, saved, after).Some?
    ensures RecordedDurably(RecordStep(s, name, saved, after).value)
  {
    RecordMoves(s, name, saved, after);
  }

  lemma StepRecorded(s: State, action: Action)
    requires RecordedDurably(s) && Next(s, action).Some?
    ensures RecordedDurably(Next(s, action).value)
  {
    if action.Record? {
      RecordRecorded(s, action.project, action.saved, action.after);
    } else if Moves(action) {
      StepMoves(s, action);
      MovedRecorded(s, action.project, Next(s, action).value);
    }
  }

  lemma StepPublished(s: State, action: Action)
    requires Safe(s) && Next(s, action).Some?
    ensures var t := Next(s, action).value;
            forall i :: 0 <= i < |t.published| ==> PublishedProperly(t, t.published[i])
  {
    var t := Next(s, action).value;
    SelectionsGrow(s, action);
    forall i | 0 <= i < |t.published| ensures PublishedProperly(t, t.published[i]) {
      if i < |s.published| {
        assert t.published[i] == s.published[i];
        PublishedKept(s, t, i);
      }
    }
  }

  lemma StepIsSafe(s: State, action: Action)
    requires Safe(s) && Next(s, action).Some?
    ensures Safe(Next(s, action).value)
  {
    SelectionsGrow(s, action);
    if action.Poll? {
      PollSelectionsQuiet(s, action.now, action.facts);
    }
    StepTransfers(s, action);
    StepRecorded(s, action);
    StepPublished(s, action);
  }

  /**
   * In every run, with crashes anywhere: whatever is published automatically is
   * the revision a poll had found quiet for five minutes, and the state file
   * already held it.
   */
  lemma {:induction false} EveryRunIsSafe(s: State, actions: seq<Action>)
    requires Init(s) && Run(s, actions).Some?
    ensures Safe(Run(s, actions).value)
    decreases |actions|
  {
    if actions != [] {
      var last := |actions| - 1;
      EveryRunIsSafe(s, actions[..last]);
      StepIsSafe(Run(s, actions[..last]).value, actions[last]);
    }
  }
}
