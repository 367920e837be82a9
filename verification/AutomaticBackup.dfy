/** Which projects are due for an automatic backup, and the revisions already handed over. */
module AutomaticBackup {
  import opened Json

  // Nanoseconds since the epoch; a file may be older than that.
  type Time = int

  const SECOND: int := 1_000_000_000

  const QUIET_PERIOD: int := 5 * 60 * SECOND

  // ------------------------------------------------------- stored revisions

  datatype FileRevision = FileRevision(seconds: nat, nanoseconds: nat)

  function FromSystemTime(time: Time): Option<FileRevision> {
    if time < 0 then None else Some(FileRevision(time / SECOND, time % SECOND))
  }

  function ToSystemTime(revision: FileRevision): Option<Time> {
    if revision.nanoseconds >= SECOND then None else Some(revision.seconds * SECOND + revision.nanoseconds)
  }

  /** A revision is stored exactly, unless it is older than the epoch. */
  lemma RevisionRoundTrip(time: Time)
    ensures FromSystemTime(time).Some? <==> time >= 0
    ensures time >= 0 ==> ToSystemTime(FromSystemTime(time).value) == Some(time)
  {
  }

  // ------------------------------------------------------------- the policy

  datatype Observation = Observation(
    project: string, modifiedAt: Option<Time>, backedUpAt: Option<Time>, destinationReady: bool, blocked: bool)

  datatype Reason = SavedAfterLastBackup | SavedDuringPreviousBackup

  datatype Candidate = Candidate(project: string, reason: Reason, qualified: Time)

  /** What one observation amounts to, given the revision last attempted. */
  function Due(attempted: Option<Time>, o: Observation, now: Time): Option<Candidate> {
    if !o.destinationReady || o.blocked || o.modifiedAt.None? || o.backedUpAt.None? then None
    else
      var modified, backedUp := o.modifiedAt.value, o.backedUpAt.value;
      var changed := attempted.Some? && attempted.value != modified;
      if attempted == Some(modified) || (modified <= backedUp && !changed) || now - modified < QUIET_PERIOD then None
      else
        Some(Candidate(
          o.project, if modified <= backedUp then SavedDuringPreviousBackup else SavedAfterLastBackup, modified))
  }

  function AllDue(attempted: map<string, Time>, observations: seq<Observation>, now: Time): seq<Candidate> {
    if observations == [] then []
    else
      var first := Due(Get(attempted, observations[0].project), observations[0], now);
      (if first.Some? then [first.value] else []) + AllDue(attempted, observations[1..], now)
  }

  /**
   * The project is linked and free, its last save is not the one attempted and
   * five minutes old, and newer than the backup or than an attempt made of an
   * earlier save.
   */
  predicate Ready(attempted: Option<Time>, o: Observation, now: Time) {
    && o.destinationReady && !o.blocked && o.modifiedAt.Some? && o.backedUpAt.Some?
    && attempted != o.modifiedAt
    && (o.modifiedAt.value > o.backedUpAt.value || attempted.Some?)
    && now >= o.modifiedAt.value + 300 * SECOND
  }

  // What a poll hands over, in whatever order.
  ghost predicate Selects(c: Candidate, attempted: map<string, Time>, o: Observation, now: Time) {
    && Ready(Get(attempted, o.project), o, now)
    && c.project == o.project && o.modifiedAt == Some(c.qualified)
    && (c.reason.SavedDuringPreviousBackup? <==> o.modifiedAt.value <= o.backedUpAt.value)
  }

  /** A poll selects exactly the projects that are ready, each with its last save and the reason. */
  lemma {:induction false} PollExactly(
    attempted: map<string, Time>, observations: seq<Observation>, now: Time, c: Candidate)
    ensures c in AllDue(attempted, observations, now) <==>
            exists i :: 0 <= i < |observations| && Selects(c, attempted, observations[i], now)
  {
    if observations != [] {
      var o, rest := observations[0], observations[1..];
      PollExactly(attempted, rest, now, c);
      assert Due(Get(attempted, o.project), o, now) == Some(c) <==> Selects(c, attempted, o, now);
      if i :| 0 <= i < |rest| && Selects(c, attempted, rest[i], now) {
        assert observations[i + 1] == rest[i];
      }
      if i :| 1 <= i < |observations| && Selects(c, attempted, observations[i], now) {
        assert rest[i - 1] == observations[i];
      }
    }
  }

  // Where the projects that are ready are, from index `i` on.
  ghost function ReadyPlaces(attempted: map<string, Time>, observations: seq<Observation>, now: Time, i: nat): seq<nat>
    requires i <= |observations|
    decreases |observations| - i
  {
    if i == |observations| then []
    else
      (if Ready(Get(attempted, observations[i].project), observations[i], now) then [i] else [])
      + ReadyPlaces(attempted, observations, now, i + 1)
  }

  /** The candidates come in the order of their observations, one for each that is ready. */
  lemma {:induction false} CandidatesInOrder(
    attempted: map<string, Time>, observations: seq<Observation>, now: Time, i: nat)
    requires i <= |observations|
    ensures var (places, all) :=
              (ReadyPlaces(attempted, observations, now, i), AllDue(attempted, observations[i..], now));
            && |places| == |all|
            && (forall j :: 0 <= j < |places| ==>
                  i <= places[j] < |observations| && Selects(all[j], attempted, observations[places[j]], now))
            && forall j, k :: 0 <= j < k < |places| ==> places[j] < places[k]
    decreases |observations| - i
  {
    if i < |observations| {
      CandidatesInOrder(attempted, observations, now, i + 1);
      assert observations[i..][0] == observations[i] && observations[i..][1..] == observations[i + 1..];
    }
  }

  /** Recording an attempt silences its revision, and no other save. */
  lemma AttemptSilencesItsRevision(attempted: Option<Time>, recorded: Time, o: Observation, now: Time)
    requires Due(attempted, o, now).Some?
    ensures Due(Some(recorded), o, now).None? <==> o.modifiedAt == Some(recorded)
  {
  }

  function Collected(revisions: seq<(string, Time)>): map<string, Time> {
    if revisions == [] then map[]
    else
      var last := |revisions| - 1;
      Collected(revisions[..last])[revisions[last].0 := revisions[last].1]
  }

  /** What was collected for a project is the last revision listed for it. */
  lemma {:induction false} CollectedExactly(revisions: seq<(string, Time)>, project: string, time: Time)
    ensures Get(Collected(revisions), project) == Some(time) <==>
            exists i :: 0 <= i < |revisions| && revisions[i] == (project, time)
              && forall j :: i < j < |revisions| ==> revisions[j].0 != project
  {
    if revisions != [] {
      var last := |revisions| - 1;
      CollectedExactly(revisions[..last], project, time);
      if revisions[last].0 != project {
        if i :| 0 <= i < last && revisions[..last][i] == (project, time)
                && forall j :: i < j < last ==> revisions[..last][j].0 != project {
          assert revisions[i] == (project, time);
          forall j | i < j < |revisions| ensures revisions[j].0 != project {
            assert j < last ==> revisions[..last][j] == revisions[j];
          }
        }
        if i :| 0 <= i < |revisions| && revisions[i] == (project, time)
                && forall j :: i < j < |revisions| ==> revisions[j].0 != project {
          assert revisions[..last][i] == (project, time);
        }
      } else if revisions[last].1 == time {
        assert revisions[last] == (project, time);
      }
    }
  }

  // What the poll has found, and what the next observation adds to it.
  lemma NextDue(
    attempted: map<string, Time>, observations: seq<Observation>, now: Time, i: nat, ready: seq<Candidate>)
    requires i < |observations|
    ensures var first := Due(Get(attempted, observations[i].project), observations[i], now);
            ready + AllDue(attempted, observations[i..], now) ==
            (if first.Some? then ready + [first.value] else ready) + AllDue(attempted, observations[i + 1..], now)
  {
    assert observations[i..][0] == observations[i] && observations[i..][1..] == observations[i + 1..];
  }

  class AutomaticBackupScheduler {
    var attempted: map<string, Time>

    constructor FromAttemptedRevisions(revisions: seq<(string, Time)>)
      ensures attempted == Collected(revisions)
    {
      attempted := map[];
      new;
      for i := 0 to |revisions|
        invariant attempted == Collected(revisions[..i])
      {
        assert revisions[..i + 1][..i] == revisions[..i];
        attempted := attempted[revisions[i].0 := revisions[i].1];
      }
      assert revisions[..|revisions|] == revisions;
    }

    method RecordBackupAttempt(project: string, modifiedAt: Option<Time>)
      modifies this
      ensures attempted == if modifiedAt.Some? then old(attempted)[project := modifiedAt.value] else old(attempted)
    {
      if modifiedAt.Some? {
        attempted := attempted[project := modifiedAt.value];
      }
    }

    method Poll(now: Time, observations: seq<Observation>) returns (ready: seq<Candidate>)
      ensures ready == AllDue(attempted, observations, now)
    {
      ready := [];
      var i := 0;
      while i < |observations|
        invariant 0 <= i <= |observations|
        invariant ready + AllDue(attempted, observations[i..], now) == AllDue(attempted, observations, now)
      {
        var o := observations[i];
        NextDue(attempted, observations, now, i, ready);
        i := i + 1;
        if !o.destinationReady || o.blocked || o.modifiedAt.None? || o.backedUpAt.None? {
          continue;
        }
        var modified, backedUp := o.modifiedAt.value, o.backedUpAt.value;
        var revision := Get(attempted, o.project);
        var already := revision == Some(modified);
        var changed := revision.Some? && revision.value != modified;
        if already || (modified <= backedUp && !changed) {
          continue;
        }
        if now >= modified && now - modified >= QUIET_PERIOD {
          var reason := if modified <= backedUp && changed then SavedDuringPreviousBackup else SavedAfterLastBackup;
          ready := ready + [Candidate(o.project, reason, modified)];
        }
      }
    }
  }
}
