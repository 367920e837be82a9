/** What a poll does to one project, how a transfer ends, and that a quiet save does get published. */
module BackupRules {
  import opened Json
  import opened AutomaticBackup
  import opened BackupProtocol
  import opened BackupTwice

  // ------------------------------------------------------------------ one poll

  /**
   * A project whose status says more than its file's time keeps it, and begins
   * nothing. Any other takes its status and backup time from the facts; it is
   * ready when its last save has been quiet for five minutes, is not the one
   * attempted, and is newer than the backup or than an earlier attempt.
   */
  ghost predicate AsPolled(attempted: Option<Time>, before: Project, modifiedAt: Option<Time>, facts: Facts, now: Time,
                           after: Project, begun: Option<Time>)
  {
    && after.modifiedAt == modifiedAt
    && if before.status in {NotDownloaded, Syncing, UpstreamAhead, Conflicted} then
         after.status == before.status && after.backedUpAt == before.backedUpAt && begun == None
       else
         var ready :=
           && facts.connected && facts.backedUpAt.Some? && modifiedAt.Some?
           && facts.status in {NeverBackedUp, Downloaded, LocalAhead}
           && attempted != modifiedAt
           && (attempted.Some? || modifiedAt.value > facts.backedUpAt.value)
           && now - modifiedAt.value >= 300_000_000_000;
         var late := ready && modifiedAt.value <= facts.backedUpAt.value;
         && after.backedUpAt == facts.backedUpAt
         && (begun.Some? <==> ready && facts.destination && (facts.status == Downloaded ==> late))
         && (begun.Some? ==> begun == modifiedAt)
         && after.status == if begun.Some? then Syncing
                            else if late && facts.status == Downloaded then LocalAhead
                            else facts.status
  }

  /** What a poll makes of a project is exactly that. */
  lemma PolledExactly(attempted: Option<Time>, name: string, before: Project, modifiedAt: Option<Time>, facts: Facts,
                      now: Time, after: Project, begun: Option<Time>)
    ensures PolledProject(attempted, name, before, modifiedAt, facts, now) == (after, begun) <==>
            AsPolled(attempted, before, modifiedAt, facts, now, after, begun)
  {
    var (project, chosen) := PolledProject(attempted, name, before, modifiedAt, facts, now);
    assert project == Project(project.status, project.modifiedAt, project.backedUpAt);
  }

  /** The project and its transfer after a poll, given both before it. */
  ghost predicate PollLeaves(
    attempted: Option<Time>, before: Project, was: Option<Transfer>, modifiedAt: Option<Time>, facts: Facts, now: Time,
    after: Project, transfer: Option<Transfer>)
  {
    exists begun: Option<Time> ::
      && AsPolled(attempted, before, modifiedAt, facts, now, after, begun)
      && transfer == if begun.Some? then Some(Transfer(AfterQuietPeriod(begun.value), Preparing)) else was
  }

  lemma PolledLeaves(attempted: Option<Time>, name: string, before: Project, was: Option<Transfer>,
                     modifiedAt: Option<Time>, facts: Facts, now: Time)
    ensures var (project, begun) := PolledProject(attempted, name, before, modifiedAt, facts, now);
            PollLeaves(attempted, before, was, modifiedAt, facts, now, project,
                       if begun.Some? then Some(Transfer(AfterQuietPeriod(begun.value), Preparing)) else was)
  {
    var (project, begun) := PolledProject(attempted, name, before, modifiedAt, facts, now);
    PolledExactly(attempted, name, before, modifiedAt, facts, now, project, begun);
  }

  /** What the state file says a project's last attempt was, after a start. */
  lemma RestoredExactly(durable: map<string, FileRevision>, name: string, time: Time)
    ensures Get(Restored(durable), name) == Some(time) <==>
            && name in durable && durable[name].nanoseconds < 1_000_000_000
            && time == durable[name].seconds * 1_000_000_000 + durable[name].nanoseconds
  {
  }

  // ------------------------------------------------------------- how it goes on

  /** A backup asked for by hand begins from any status that leaves something to transfer. */
  lemma BegunExactly(s: State, name: string)
    ensures Next(s, Begin(name)).Some? <==>
            && s.running && name in s.projects
            && s.projects[name].status in {NeverBackedUp, NotDownloaded, LocalAhead, UpstreamAhead}
    ensures Next(s, Begin(name)).Some? ==>
      Next(s, Begin(name)).value == s.(transfers := s.transfers[name := Transfer(Immediate, Preparing)],
                                       projects := Left(s.projects, name, Syncing))
  {
  }

  /** The projects once a transfer has left one of them with the status found. */
  function Left(projects: map<string, Project>, name: string, status: Status): map<string, Project> {
    if name in projects then projects[name := projects[name].(status := status)] else projects
  }

  /** A preparation that cannot read the file, or reads another save than the one selected, ends the transfer. */
  lemma PreparedExactly(s: State, name: string, readable: bool, after: Status)
    requires Next(s, Prepare(name, readable, after)).Some?
    ensures s.running && name in s.transfers && s.transfers[name].phase == Preparing
    ensures var t, start := Next(s, Prepare(name, readable, after)).value, s.transfers[name].start;
            if readable && (start.Immediate? || Get(s.disk, name) == Some(start.qualified)) then
              t == s.(transfers := s.transfers[name := Transfer(start, Prepared(Get(s.disk, name)))])
            else
              t == s.(transfers := s.transfers - {name}, projects := Left(s.projects, name, after))
  {
  }

  /** The attempt is remembered; where there is a state file, the transfer goes on only once it is written. */
  lemma RecordedExactly(s: State, name: string, saved: bool, after: Status)
    requires Next(s, Record(name, saved, after)).Some?
    ensures s.running && name in s.transfers && s.transfers[name].phase.Prepared?
    ensures var t, revision := Next(s, Record(name, saved, after)).value, s.transfers[name].phase.revision;
            && t.scheduler == (if revision.Some? then s.scheduler[name := revision.value] else s.scheduler)
            && t.attempts == (if revision.Some? && revision.value >= 0
                              then s.attempts[name := FileRevision(revision.value / 1_000_000_000,
                                                                   revision.value % 1_000_000_000)]
                              else s.attempts)
            && t.durable == (if s.persistent && saved then t.attempts else s.durable)
            && (if saved || !s.persistent
                then t.transfers == s.transfers[name := Transfer(s.transfers[name].start, Recorded(revision))]
                     && t.projects == s.projects
                else t.transfers == s.transfers - {name} && t.projects == Left(s.projects, name, after))
  {
  }

  /** An upload that commits publishes the recorded revision, with what the state file says then. */
  lemma UploadedExactly(s: State, name: string, committed: bool)
    requires Next(s, Upload(name, committed)).Some?
    ensures s.running && name in s.transfers && s.transfers[name].phase.Recorded?
    ensures var (t, transfer) := (Next(s, Upload(name, committed)).value, s.transfers[name]);
            t == s.(transfers := s.transfers[name := Transfer(transfer.start, Uploaded)],
                    published := s.published +
                      if committed
                      then [Publication(name, transfer.start, transfer.phase.revision, Get(s.durable, name))]
                      else [])
  {
    assert s.published + [] == s.published;
  }

  /** A finished upload ends the transfer; the project has the status and the backup time found. */
  lemma FinishedExactly(s: State, name: string, after: Status, backedUpAt: Option<Time>)
    requires Next(s, Finish(name, after, backedUpAt)).Some?
    ensures s.running && name in s.transfers && s.transfers[name].phase == Uploaded
    ensures var t := Next(s, Finish(name, after, backedUpAt)).value;
            t == s.(transfers := s.transfers - {name},
                    projects := if name in s.projects
                                then s.projects[name := Project(after, s.projects[name].modifiedAt, backedUpAt)]
                                else s.projects)
  {
    var t := Next(s, Finish(name, after, backedUpAt)).value;
    if name in s.projects {
      assert t.projects == s.projects[name := Project(after, s.projects[name].modifiedAt, backedUpAt)];
    }
  }

  // --------------------------------------------------------------- it does happen

  // A project that a poll begins to back up.
  ghost predicate Due(s: State, name: string, facts: Facts, now: Time) {
    && s.running && name in s.projects && name in s.disk
    && s.projects[name].status !in {NotDownloaded, Syncing, UpstreamAhead, Conflicted}
    && facts.connected && facts.destination && facts.backedUpAt.Some?
    && Get(s.scheduler, name) != Some(s.disk[name])
    && (name in s.scheduler || s.disk[name] > facts.backedUpAt.value)
    && now - s.disk[name] >= 300_000_000_000
    && (facts.status in {NeverBackedUp, LocalAhead} ||
          (facts.status == Downloaded && s.disk[name] <= facts.backedUpAt.value))
  }

  lemma Selected(s: State, name: string, now: Time, facts: map<string, Facts>) returns (t: State)
    requires FactsFor(s, facts) && name in facts && Due(s, name, facts[name], now)
    ensures t == Polled(s, now, facts)
    ensures t.running && t.disk == s.disk && t.persistent == s.persistent && t.published == s.published
    ensures t.durable == s.durable && t.attempts == s.attempts && t.scheduler == s.scheduler
    ensures Get(t.transfers, name) == Some(Transfer(AfterQuietPeriod(s.disk[name]), Preparing))
  {
    t := Polled(s, now, facts);
    var (after, begun) := Polling(s, now, facts, name);
    PolledExactly(Get(s.scheduler, name), name, s.projects[name], Get(s.disk, name), facts[name], now, after, begun);
    assert begun == Some(s.disk[name]);
  }

  lemma Through(s: State, name: string, after: Status) returns (p: State, r: State, u: State)
    requires s.running && name in s.disk && after != Syncing
    requires Get(s.transfers, name) == Some(Transfer(AfterQuietPeriod(s.disk[name]), Preparing))
    ensures PrepareStep(s, name, true, after) == Some(p)
    ensures RecordStep(p, name, true, after) == Some(r)
    ensures UploadStep(r, name, true) == Some(u)
    ensures var revision := s.disk[name];
            var stored := if s.persistent && revision >= 0
                          then Some(FileRevision(revision / 1_000_000_000, revision % 1_000_000_000))
                          else Get(if s.persistent then s.attempts else s.durable, name);
            u.published == s.published + [Publication(name, AfterQuietPeriod(revision), Some(revision), stored)]
  {
    p := PrepareStep(s, name, true, after).value;
    r := RecordStep(p, name, true, after).value;
    u := UploadStep(r, name, true).value;
  }

  function Backup(name: string, now: Time, facts: map<string, Facts>, after: Status): seq<Action> {
    [Poll(now, facts)] + ([Prepare(name, true, after)] + ([Record(name, true, after)] + [Upload(name, true)]))
  }

  /**
   * A save found quiet is published, unless something fails, and by then the
   * state file holds it: the four steps are always possible.
   */
  lemma QuietSaveIsPublished(s: State, name: string, now: Time, facts: map<string, Facts>, after: Status)
    returns (u: State)
    requires FactsFor(s, facts) && name in facts && Due(s, name, facts[name], now) && after != Syncing
    requires s.persistent && s.disk[name] >= 0
    ensures Run(s, Backup(name, now, facts, after)) == Some(u)
    ensures var revision := s.disk[name];
            u.published == s.published + [Publication(
              name, AfterQuietPeriod(revision), Some(revision),
              Some(FileRevision(revision / 1_000_000_000, revision % 1_000_000_000)))]
  {
    var t := Selected(s, name, now, facts);
    var p, r;
    p, r, u := Through(t, name, after);
    PollIsStep(s, now, facts);
    TheirSteps(t, p, r, name, after);
    FourSteps(s, Poll(now, facts), t, Prepare(name, true, after), p, Record(name, true, after), r,
              Upload(name, true), u);
  }

  lemma PollIsStep(s: State, now: Time, facts: map<string, Facts>)
    requires s.running && FactsFor(s, facts)
    ensures Next(s, Poll(now, facts)) == Some(Polled(s, now, facts))
  {
  }

  lemma TheirSteps(s: State, p: State, r: State, name: string, after: Status)
    ensures Next(s, Prepare(name, true, after)) == PrepareStep(s, name, true, after)
    ensures Next(p, Record(name, true, after)) == RecordStep(p, name, true, after)
    ensures Next(r, Upload(name, true)) == UploadStep(r, name, true)
  {
  }

  lemma FourSteps(s: State, poll: Action, t: State, prepare: Action, p: State, record: Action, r: State,
                  upload: Action, u: State)
    requires Next(s, poll) == Some(t) && Next(t, prepare) == Some(p)
    requires Next(p, record) == Some(r) && Next(r, upload) == Some(u)
    ensures Run(s, [poll] + ([prepare] + ([record] + [upload]))) == Some(u)
  {
    RunStep(s, poll, [prepare] + ([record] + [upload]));
    RunStep(t, prepare, [record] + [upload]);
    RunStep(p, record, [upload]);
    RunOne(r, upload);
  }
}
