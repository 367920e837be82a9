/** The driver's own loops and updates, tied to the steps of the protocol. */
module BackupDriver {
  import opened Json
  import opened AutomaticBackup
  import opened BackupProtocol
  import R = BackupRules

  // The stored attempts that still stand for a time.
  method BackupAttempts(durable: map<string, FileRevision>) returns (revisions: seq<(string, Time)>)
    ensures Collected(revisions) == Restored(durable)
  {
    var names := CollectKeys(durable, []);
    revisions := [];
    var i := 0;
    while i < |names|
      invariant 0 <= i <= |names|
      invariant Collected(revisions) == RestoredOf(durable, Elements(names[..i]))
    {
      assert names[..i + 1] == names[..i] + [names[i]] && names[i] in Elements(names);
      var time := ToSystemTime(durable[names[i]]);
      RestoredMore(durable, names[..i], names[i]);
      if time.Some? {
        CollectedMore(revisions, (names[i], time.value));
        revisions := revisions + [(names[i], time.value)];
      }
      i := i + 1;
    }
    assert names[..i] == names;
  }

  ghost function RestoredOf(durable: map<string, FileRevision>, names: set<string>): map<string, Time> {
    map name | name in durable && name in names && ToSystemTime(durable[name]).Some? ::
      ToSystemTime(durable[name]).value
  }

  lemma RestoredMore(durable: map<string, FileRevision>, names: seq<string>, name: string)
    requires name in durable
    ensures RestoredOf(durable, Elements(names + [name])) ==
            match ToSystemTime(durable[name])
            case None => RestoredOf(durable, Elements(names))
            case Some(time) => RestoredOf(durable, Elements(names))[name := time]
  {
  }

  lemma CollectedMore(revisions: seq<(string, Time)>, last: (string, Time))
    ensures Collected(revisions + [last]) == Collected(revisions)[last.0 := last.1]
  {
    assert (revisions + [last])[..|revisions|] == revisions;
  }

  class Driver {
    const persistent: bool
    const scheduler: AutomaticBackupScheduler
    var attempts: map<string, FileRevision>
    var durable: map<string, FileRevision>
    var projects: map<string, Project>
    var transfers: map<string, Transfer>

    /** A start of the program: what has been attempted is what the state file says. */
    constructor (persistent: bool, durable: map<string, FileRevision>, projects: map<string, Project>)
      ensures fresh(scheduler) && scheduler.attempted == Restored(durable)
      ensures this.persistent == persistent && this.projects == projects && transfers == map[]
      ensures this.durable == durable && attempts == durable
    {
      var revisions := BackupAttempts(durable);
      var started := new AutomaticBackupScheduler.FromAttemptedRevisions(revisions);
      this.persistent, scheduler := persistent, started;
      this.durable, attempts, this.projects, transfers := durable, durable, projects, map[];
    }

    /** The attempt is in memory whatever happens; success means the state file holds it too. */
    method RecordBackupRevision(name: string, revision: Option<Time>) returns (ok: bool)
      modifies this`attempts, this`durable, scheduler
      ensures scheduler.attempted ==
              if revision.Some? then old(scheduler.attempted)[name := revision.value] else old(scheduler.attempted)
      ensures attempts ==
              if revision.Some? && revision.value >= 0
              then old(attempts)[name := FileRevision(revision.value / SECOND, revision.value % SECOND)]
              else old(attempts)
      ensures durable == if persistent && ok then attempts else old(durable)
      ensures !persistent ==> ok
    {
      scheduler.RecordBackupAttempt(name, revision);
      var stored := if revision.Some? then FromSystemTime(revision.value) else None;
      if stored.Some? {
        attempts := attempts[name := stored.value];
      }
      ok := SaveChecked();
    }

    method SaveChecked() returns (ok: bool)
      modifies this`durable
      ensures durable == if persistent && ok then attempts else old(durable)
      ensures !persistent ==> ok
    {
      if !persistent {
        return true;
      }
      ok := *;
      if ok {
        durable := attempts;
      }
    }

    method BeginTransfer(name: string) returns (begun: bool)
      requires name in projects
      modifies this`projects
      ensures begun <==> old(projects)[name].status in {NeverBackedUp, NotDownloaded, LocalAhead, UpstreamAhead}
      ensures projects ==
        if begun then old(projects)[name := old(projects)[name].(status := Syncing)] else old(projects)
    {
      begun := StartsTransfer(projects[name].status);
      if begun {
        projects := projects[name := projects[name].(status := Syncing)];
      }
    }

    // Every project's file state, looked at again.
    method Refresh(names: seq<string>, disk: map<string, Time>, facts: map<string, Facts>)
      requires Listed(names, facts) && projects.Keys == facts.Keys
      modifies this`projects
      ensures projects.Keys == facts.Keys
      ensures forall name :: name in facts ==>
        projects[name] ==
        if old(projects)[name].status in {NotDownloaded, Syncing, UpstreamAhead, Conflicted}
        then old(projects)[name].(modifiedAt := Get(disk, name))
        else Project(facts[name].status, Get(disk, name), facts[name].backedUpAt)
    {
      var i := 0;
      while i < |names|
        invariant 0 <= i <= |names| && projects.Keys == facts.Keys
        invariant forall j :: 0 <= j < i ==>
          projects[names[j]] == Refreshed(old(projects)[names[j]], Get(disk, names[j]), facts[names[j]])
        invariant forall j :: i <= j < |names| ==> projects[names[j]] == old(projects)[names[j]]
      {
        var name := names[i];
        projects := projects[name := Refreshed(projects[name], Get(disk, name), facts[name])];
        i := i + 1;
      }
      forall name | name in facts
        ensures projects[name] == Refreshed(old(projects)[name], Get(disk, name), facts[name])
      {
        var j :| 0 <= j < |names| && names[j] == name;
      }
    }

    method Observe(names: seq<string>, facts: map<string, Facts>) returns (observations: seq<Observation>)
      requires Listed(names, facts) && projects.Keys == facts.Keys
      ensures observations == Observations(names, projects, facts)
      ensures |observations| == |names| && forall i :: 0 <= i < |names| ==>
        var project := projects[names[i]];
        observations[i] == Observation(
          names[i], project.modifiedAt, project.backedUpAt, project.backedUpAt.Some? && facts[names[i]].connected,
          project.status in {NotDownloaded, Syncing, UpstreamAhead, Conflicted})
    {
      observations := [];
      for i := 0 to |names|
        invariant observations == Observations(names[..i], projects, facts)
      {
        observations := observations + [Observed(names[i], projects[names[i]], facts[names[i]])];
        assert names[..i + 1] == names[..i] + [names[i]];
      }
      assert names[..|names|] == names;
    }

    // One candidate of the poll: marked, and begun if it can be.
    method StartCandidate(candidate: Candidate, facts: map<string, Facts>)
      requires candidate.project in projects && candidate.project in facts
      modifies this`projects, this`transfers
      ensures var name := candidate.project;
              var (project, begun) := Started(old(projects)[name], candidate, facts[name]);
              && projects == old(projects)[name := project]
              && transfers == if begun
                              then old(transfers)[name := Transfer(AfterQuietPeriod(candidate.qualified), Preparing)]
                              else old(transfers)
    {
      var name := candidate.project;
      if candidate.reason.SavedDuringPreviousBackup? && projects[name].status.Downloaded? {
        projects := projects[name := projects[name].(status := LocalAhead)];
      }
      if facts[name].destination {
        var begun := BeginTransfer(name);
        if begun {
          transfers := transfers[name := Transfer(AfterQuietPeriod(candidate.qualified), Preparing)];
        }
      }
    }

    /** A whole poll leaves the projects and transfers as the protocol's poll step does. */
    method PollAutomaticBackups(now: Time, names: seq<string>, disk: map<string, Time>, facts: map<string, Facts>)
      requires Listed(names, facts) && projects.Keys == facts.Keys
      modifies this`projects, this`transfers
      ensures projects.Keys == facts.Keys
      // The poll is the protocol's poll step.
      ensures forall name :: name in facts ==>
        var (project, chosen) :=
          PolledProject(Get(scheduler.attempted, name), name, old(projects)[name], Get(disk, name), facts[name], now);
        projects[name] == project && Get(transfers, name) == Transferred(Get(old(transfers), name), chosen)
      // Said of the statuses, times and facts themselves.
      ensures forall name :: name in facts ==>
        R.PollLeaves(Get(scheduler.attempted, name), old(projects)[name], Get(old(transfers), name), Get(disk, name),
                     facts[name], now, projects[name], Get(transfers, name))
      ensures forall name :: name !in facts ==> Get(transfers, name) == Get(old(transfers), name)
    {
      Refresh(names, disk, facts);
      var observations := Observe(names, facts);
      var ready := scheduler.Poll(now, observations);
      DueForEach(scheduler.attempted, names, projects, facts, now);
      ghost var seen := projects;
      StartAll(ready, facts);
      forall name | name in facts
        ensures Outcome(Handled(ready, name), seen[name], facts[name]) ==
                PolledProject(Get(scheduler.attempted, name), name, old(projects)[name], Get(disk, name),
                    facts[name], now)
      {
        PolledIsOutcome(Get(scheduler.attempted, name), name, old(projects)[name], Get(disk, name), facts[name], now);
      }
      forall name | name in facts
        ensures R.PollLeaves(Get(scheduler.attempted, name), old(projects)[name], Get(old(transfers), name),
                             Get(disk, name), facts[name], now, projects[name], Get(transfers, name))
      {
        R.PolledLeaves(Get(scheduler.attempted, name), name, old(projects)[name], Get(old(transfers), name),
                       Get(disk, name), facts[name], now);
      }
    }

    // The candidates in turn; each project is among them at most once.
    method StartAll(ready: seq<Candidate>, facts: map<string, Facts>)
      requires projects.Keys == facts.Keys && OncePerProject(ready, facts)
      modifies this`projects, this`transfers
      ensures projects.Keys == facts.Keys
      ensures forall name :: name in facts ==>
        && projects[name] == Outcome(Handled(ready, name), old(projects)[name], facts[name]).0
        && Get(transfers, name) == Transferred(
             Get(old(transfers), name), Outcome(Handled(ready, name), old(projects)[name], facts[name]).1)
      ensures forall name :: name !in facts ==> Get(transfers, name) == Get(old(transfers), name)
    {
      var i := 0;
      while i < |ready|
        invariant 0 <= i <= |ready| && projects.Keys == facts.Keys
        invariant forall name :: name in facts ==>
          && projects[name] == Outcome(Handled(ready[..i], name), old(projects)[name], facts[name]).0
          && Get(transfers, name) == Transferred(
               Get(old(transfers), name), Outcome(Handled(ready[..i], name), old(projects)[name], facts[name]).1)
        invariant forall name :: name !in facts ==> Get(transfers, name) == Get(old(transfers), name)
      {
        ghost var (before, was) := (projects, transfers);
        HandledNext(ready, facts, i);
        StartCandidate(ready[i], facts);
        forall name | name in facts && name != ready[i].project
          ensures projects[name] == before[name] && Get(transfers, name) == Get(was, name)
        {
        }
        i := i + 1;
      }
      assert ready[..i] == ready;
    }
  }

  ghost predicate OncePerProject(ready: seq<Candidate>, facts: map<string, Facts>) {
    && (forall i :: 0 <= i < |ready| ==> ready[i].project in facts)
    && forall i, j :: 0 <= i < j < |ready| ==> ready[i].project != ready[j].project
  }

  // What becomes of a project, and the revision begun, given its candidate if it has one.
  function Outcome(candidate: Option<Candidate>, project: Project, facts: Facts): (Project, Option<Time>) {
    match candidate
    case None => (project, None)
    case Some(c) =>
      var (started, begun) := Started(project, c, facts);
      (started, if begun then Some(c.qualified) else None)
  }

  lemma PolledIsOutcome(
    attempted: Option<Time>, name: string, project: Project, modifiedAt: Option<Time>, facts: Facts, now: Time)
    ensures var seen := Refreshed(project, modifiedAt, facts);
            PolledProject(attempted, name, project, modifiedAt, facts, now) ==
            Outcome(Due(attempted, Observed(name, seen, facts), now), seen, facts)
  {
  }

  function Transferred(before: Option<Transfer>, begun: Option<Time>): Option<Transfer> {
    if begun.Some? then Some(Transfer(AfterQuietPeriod(begun.value), Preparing)) else before
  }

  ghost predicate Listed(names: seq<string>, facts: map<string, Facts>) {
    && (forall name :: name in names <==> name in facts)
    && forall i, j :: 0 <= i < j < |names| ==> names[i] != names[j]
  }

  function Observations(names: seq<string>, projects: map<string, Project>, facts: map<string, Facts>): seq<Observation>
    requires forall name :: name in names ==> name in projects && name in facts
  {
    seq(|names|, i requires 0 <= i < |names| => Observed(names[i], projects[names[i]], facts[names[i]]))
  }

  function Started(project: Project, candidate: Candidate, facts: Facts): (Project, bool) {
    var marked := if candidate.reason.SavedDuringPreviousBackup? && project.status.Downloaded?
                  then project.(status := LocalAhead) else project;
    if facts.destination && StartsTransfer(marked.status) then (marked.(status := Syncing), true) else (marked, false)
  }

  // The candidate for a name among those handled.
  ghost function Handled(ready: seq<Candidate>, name: string): Option<Candidate> {
    if ready == [] then None
    else
      var last := |ready| - 1;
      if ready[last].project == name then Some(ready[last]) else Handled(ready[..last], name)
  }

  lemma HandledNext(ready: seq<Candidate>, facts: map<string, Facts>, i: nat)
    requires i < |ready| && OncePerProject(ready, facts)
    ensures Handled(ready[..i], ready[i].project) == None
    ensures Handled(ready[..i + 1], ready[i].project) == Some(ready[i])
    ensures forall name ::
      name != ready[i].project ==> Handled(ready[..i + 1], name) == Handled(ready[..i], name)
  {
    assert ready[..i + 1][..i] == ready[..i];
    HandledMember(ready[..i], ready[i].project);
  }

  lemma {:induction false} HandledMember(ready: seq<Candidate>, name: string)
    ensures Handled(ready, name).Some? <==> exists c :: c in ready && c.project == name
    ensures Handled(ready, name).Some? ==>
      Handled(ready, name).value in ready && Handled(ready, name).value.project == name
  {
    if ready != [] {
      HandledMember(ready[..|ready| - 1], name);
      assert ready == ready[..|ready| - 1] + [ready[|ready| - 1]];
    }
  }

  // The poll's candidates are each project's own, one at most.
  lemma DueForEach(
    attempted: map<string, Time>, names: seq<string>, projects: map<string, Project>, facts: map<string, Facts>,
    now: Time)
    requires Listed(names, facts) && projects.Keys == facts.Keys
    ensures var ready := AllDue(attempted, Observations(names, projects, facts), now);
            && OncePerProject(ready, facts)
            && forall name :: name in facts ==>
                 Handled(ready, name) == Due(Get(attempted, name), Observed(name, projects[name], facts[name]), now)
  {
    DueInOrder(attempted, names, projects, facts, now);
    var ready := AllDue(attempted, Observations(names, projects, facts), now);
    forall i | 0 <= i < |ready| ensures ready[i].project in facts {
      assert ready[i] in ready;
    }
    forall name | name in facts
      ensures Handled(ready, name) == Due(Get(attempted, name), Observed(name, projects[name], facts[name]), now)
    {
      HandledMember(ready, name);
    }
  }

  ghost function DueOf(attempted: map<string, Time>, name: string, projects: map<string, Project>,
                       facts: map<string, Facts>, now: Time): Option<Candidate>
  {
    if name in projects && name in facts
    then Due(Get(attempted, name), Observed(name, projects[name], facts[name]), now) else None
  }

  lemma {:induction false} DueInOrder(
    attempted: map<string, Time>, names: seq<string>, projects: map<string, Project>, facts: map<string, Facts>,
    now: Time)
    requires forall name :: name in names ==> name in projects && name in facts
    requires forall i, j :: 0 <= i < j < |names| ==> names[i] != names[j]
    ensures var ready := AllDue(attempted, Observations(names, projects, facts), now);
            && (forall i, j :: 0 <= i < j < |ready| ==> ready[i].project != ready[j].project)
            && (forall c :: c in ready ==> c.project in names)
            && (forall c :: c in ready ==> Some(c) == DueOf(attempted, c.project, projects, facts, now))
            && (forall name :: name in names ==>
                  DueOf(attempted, name, projects, facts, now).Some? ==>
                  DueOf(attempted, name, projects, facts, now).value in ready)
    decreases |names|
  {
    if names != [] {
      assert names == [names[0]] + names[1..];
      assert Observations(names, projects, facts)[1..] == Observations(names[1..], projects, facts);
      DueInOrder(attempted, names[1..], projects, facts, now);
      var rest := AllDue(attempted, Observations(names[1..], projects, facts), now);
      forall c | c in rest ensures c.project != names[0] {
        var j :| 0 <= j < |names[1..]| && names[1..][j] == c.project;
        assert names[j + 1] == c.project;
      }
    }
  }
}
