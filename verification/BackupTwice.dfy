/** When exactly a revision can be published automatically a second time. */
module BackupTwice {
  import opened Json
  import opened AutomaticBackup
  import opened BackupProtocol
  import opened BackupOnce

  ghost predicate RepeatAt(published: seq<Publication>, i: nat, j: nat) {
    && i < j < |published| && published[j].start.AfterQuietPeriod?
    && published[i].project == published[j].project && published[i].revision == published[j].revision
  }

  ghost predicate Repeats(s: State, actions: seq<Action>, earliest: Time) {
    && Orderly(s, actions, earliest) && Run(s, actions).Some?
    && exists i, j :: RepeatAt(Run(s, actions).value.published, i, j)
  }

  // A project one save ahead of its backup.
  function Ahead(name: string, time: Time): map<string, Facts> {
    map[name := Facts(LocalAhead, Some(time - 1), true, true)]
  }

  // The program starts, backs the project up, and stops before the sidecar hears of it.
  function Cycle(name: string, time: Time): seq<Action> {
    [Restart(Ahead(name, time))] + ([Poll(time + QUIET_PERIOD, Ahead(name, time))] + (Sending(name) + [Crash]))
  }

  function Sending(name: string): seq<Action> {
    [Prepare(name, true, LocalAhead)] + ([Record(name, true, LocalAhead)] + [Upload(name, true)])
  }

  // Stopped, and the project's last save is one that the state file will not hold.
  ghost predicate Forgetful(s: State, name: string, time: Time) {
    !s.running && Unrecorded(s, time) && Get(s.disk, name) == Some(time)
  }

  ghost predicate Unrecorded(s: State, time: Time) {
    s.durable == map[] && (s.persistent ==> time < EPOCH)
  }

  lemma Started(s: State, name: string, time: Time) returns (t: State)
    requires Forgetful(s, name, time)
    ensures Next(s, Restart(Ahead(name, time))) == Some(t)
    ensures t == s.(running := true, attempts := map[], scheduler := map[], transfers := map[],
                    projects := map[name := Project(LocalAhead, Some(time), Some(time - 1))])
  {
    t := Next(s, Restart(Ahead(name, time))).value;
    assert t.projects == map[name := Project(LocalAhead, Some(time), Some(time - 1))];
    assert t.scheduler == map[];
  }

  lemma Chosen(s: State, name: string, time: Time) returns (t: State)
    requires s.running && Get(s.disk, name) == Some(time) && s.scheduler == map[] && s.transfers == map[]
    requires s.projects == map[name := Project(LocalAhead, Some(time), Some(time - 1))]
    ensures Next(s, Poll(time + QUIET_PERIOD, Ahead(name, time))) == Some(t)
    ensures t == s.(projects := t.projects, selected := t.selected, transfers := t.transfers)
    ensures t.transfers == map[name := Transfer(AfterQuietPeriod(time), Preparing)]
  {
    var facts := Ahead(name, time);
    assert FactsFor(s, facts);
    AheadIsDue(name, time);
    assert Polling(s, time + QUIET_PERIOD, facts, name).1 == Some(time);
    t := Polled(s, time + QUIET_PERIOD, facts);
    OnlyTransfer(s, name, time, facts);
  }

  lemma AheadIsDue(name: string, time: Time)
    ensures PolledProject(None, name, Project(LocalAhead, Some(time), Some(time - 1)), Some(time),
                          Facts(LocalAhead, Some(time - 1), true, true), time + QUIET_PERIOD).1 == Some(time)
  {
  }

  lemma OnlyTransfer(s: State, name: string, time: Time, facts: map<string, Facts>)
    requires FactsFor(s, facts) && s.transfers == map[] && facts.Keys == {name}
    requires Polling(s, time + QUIET_PERIOD, facts, name).1 == Some(time)
    ensures Polled(s, time + QUIET_PERIOD, facts).transfers == map[name := Transfer(AfterQuietPeriod(time), Preparing)]
  {
  }

  lemma Sent(s: State, name: string, time: Time) returns (p: State, r: State, t: State)
    requires s.running && Unrecorded(s, time) && s.attempts == map[] && Get(s.disk, name) == Some(time)
    requires s.transfers == map[name := Transfer(AfterQuietPeriod(time), Preparing)]
    ensures PrepareStep(s, name, true, LocalAhead) == Some(p)
    ensures RecordStep(p, name, true, LocalAhead) == Some(r)
    ensures UploadStep(r, name, true) == Some(t)
    ensures t.published == s.published + [Publication(name, AfterQuietPeriod(time), Some(time), None)]
    ensures t.persistent == s.persistent && t.durable == map[] && t.disk == s.disk
  {
    p := PrepareStep(s, name, true, LocalAhead).value;
    r := RecordStep(p, name, true, LocalAhead).value;
    t := UploadStep(r, name, true).value;
  }

  lemma SendingRuns(s: State, name: string, p: State, r: State, t: State)
    requires PrepareStep(s, name, true, LocalAhead) == Some(p)
    requires RecordStep(p, name, true, LocalAhead) == Some(r)
    requires UploadStep(r, name, true) == Some(t)
    ensures Run(s, Sending(name)) == Some(t)
  {
    RunStep(s, Prepare(name, true, LocalAhead), [Record(name, true, LocalAhead)] + [Upload(name, true)]);
    RunStep(p, Record(name, true, LocalAhead), [Upload(name, true)]);
    RunOne(r, Upload(name, true));
  }

  lemma {:induction false} RunAppend(s: State, p: seq<Action>, q: seq<Action>)
    requires Run(s, p).Some?
    ensures Run(s, p + q) == Run(Run(s, p).value, q)
    decreases |q|
  {
    if q == [] {
      assert p + q == p;
    } else {
      var last := |q| - 1;
      assert (p + q)[..|p + q| - 1] == p + q[..last];
      RunAppend(s, p, q[..last]);
    }
  }

  lemma RunOne(s: State, action: Action)
    ensures Run(s, [action]) == Next(s, action)
  {
    assert [action][..0] == [];
  }

  lemma RunStep(s: State, action: Action, rest: seq<Action>)
    requires Next(s, action).Some?
    ensures Run(s, [action] + rest) == Run(Next(s, action).value, rest)
  {
    RunOne(s, action);
    RunAppend(s, [action], rest);
  }

  // One cycle publishes the save, and leaves no trace of it that outlives the crash.
  lemma CycleRuns(s: State, name: string, time: Time) returns (t: State)
    requires Forgetful(s, name, time)
    ensures Run(s, Cycle(name, time)) == Some(t) && Forgetful(t, name, time)
    ensures t.published == s.published + [Publication(name, AfterQuietPeriod(time), Some(time), None)]
  {
    var started := Started(s, name, time);
    var chosen := Chosen(started, name, time);
    var prepared, recorded, sent := Sent(chosen, name, time);
    SendingRuns(chosen, name, prepared, recorded, sent);
    CycleSteps(s, name, started, chosen, sent, time);
    t := Crashed(sent);
  }

  function Crashed(s: State): State {
    s.(running := false, attempts := map[], scheduler := map[], projects := map[], transfers := map[])
  }

  lemma CycleSteps(s: State, name: string, started: State, chosen: State, sent: State, time: Time)
    requires Next(s, Restart(Ahead(name, time))) == Some(started)
    requires Next(started, Poll(time + QUIET_PERIOD, Ahead(name, time))) == Some(chosen)
    requires Run(chosen, Sending(name)) == Some(sent)
    ensures Run(s, Cycle(name, time)) == Some(Crashed(sent))
  {
    RunStep(s, Restart(Ahead(name, time)), [Poll(time + QUIET_PERIOD, Ahead(name, time))] + (Sending(name) + [Crash]));
    RunStep(started, Poll(time + QUIET_PERIOD, Ahead(name, time)), Sending(name) + [Crash]);
    RunAppend(chosen, Sending(name), [Crash]);
    RunOne(sent, Crash);
  }

  lemma {:induction false} OrderlyAppend(s: State, p: seq<Action>, q: seq<Action>, earliest: Time)
    requires Orderly(s, p, earliest) && forall action :: action in q ==> !action.Save?
    ensures Orderly(s, p + q, earliest)
    decreases |q|
  {
    if q == [] {
      assert p + q == p;
    } else {
      var last := |q| - 1;
      assert (p + q)[..|p + q| - 1] == p + q[..last];
      assert forall action :: action in q[..last] ==> action in q;
      OrderlyAppend(s, p, q[..last], earliest);
      assert q[last] in q;
    }
  }

  lemma {:induction false} LaterIsOrderly(s: State, actions: seq<Action>, earliest: Time)
    requires Orderly(s, actions, earliest) && earliest >= EPOCH
    ensures Orderly(s, actions, EPOCH)
    decreases |actions|
  {
    if actions != [] {
      LaterIsOrderly(s, actions[..|actions| - 1], earliest);
    }
  }

  lemma TwoCyclesOrderly(s: State, name: string, time: Time)
    requires name !in s.disk
    ensures Orderly(s, [Save(name, time)] + Cycle(name, time) + Cycle(name, time), time)
  {
    var save := [Save(name, time)];
    assert save[..0] == [] && Run(s, []) == Some(s);
    assert Orderly(s, save, time);
    OrderlyAppend(s, save, Cycle(name, time), time);
    OrderlyAppend(s, save + Cycle(name, time), Cycle(name, time), time);
  }

  // There is always a project that has not been saved yet.
  lemma {:induction false} Longest(names: set<string>) returns (n: nat)
    ensures forall name :: name in names ==> |name| < n
    decreases |names|
  {
    if names == {} {
      n := 0;
    } else {
      var name :| name in names;
      n := Longest(names - {name});
      n := if |name| < n then n else |name| + 1;
    }
  }

  /** Without a state file, or with a save older than the epoch, an orderly run publishes a revision twice. */
  lemma RepeatsUnrecorded(s: State, time: Time) returns (actions: seq<Action>)
    requires Init(s) && (s.persistent ==> time < EPOCH)
    ensures Repeats(s, actions, time)
  {
    var n := Longest(s.disk.Keys);
    var name := seq(n, _ => 'x');
    var (save, cycle) := ([Save(name, time)], Cycle(name, time));
    RunOne(s, save[0]);
    var t := Run(s, save).value;
    var u := CycleRuns(t, name, time);
    var v := CycleRuns(u, name, time);
    RunAppend(s, save, cycle);
    RunAppend(s, save + cycle, cycle);
    actions := save + cycle + cycle;
    TwoCyclesOrderly(s, name, time);
    assert Run(s, actions) == Some(v);
    assert v.published == [Publication(name, AfterQuietPeriod(time), Some(time), None),
                         Publication(name, AfterQuietPeriod(time), Some(time), None)];
    assert RepeatAt(v.published, 0, 1);
  }

  /**
   * While saves move forward and none is older than `earliest`, no run
   * publishes a revision automatically again if and only if there is a state
   * file to write and no save can be older than the epoch.
   */
  lemma NeverTwiceExactly(s: State, earliest: Time)
    requires Init(s) && forall name :: name in s.disk ==> s.disk[name] >= earliest
    ensures (forall actions :: !Repeats(s, actions, earliest)) <==> s.persistent && earliest >= EPOCH
  {
    if s.persistent && earliest >= EPOCH {
      forall actions ensures !Repeats(s, actions, earliest) {
        if Repeats(s, actions, earliest) {
          var i, j :| RepeatAt(Run(s, actions).value.published, i, j);
          LaterIsOrderly(s, actions, earliest);
          NeverTwice(s, actions, i, j);
          assert false;
        }
      }
    } else {
      var actions := RepeatsUnrecorded(s, earliest);
    }
  }
}
