/** What the rows of a structured diff hold: which there are, for which difference, with which values. */
module ClipRules {
  import opened Json
  import opened ClipDiff
  import opened ClipTotals

  // -------------------------------------------------------------- who is matched

  function Called(name: Option<string>, otherwise: string): string {
    if name.Some? then name.value else otherwise
  }

  /** The clip that counts for an id: the last one with it. */
  ghost predicate Stands(clips: seq<Clip>, id: string, c: Clip) {
    exists i :: 0 <= i < |clips| && clips[i] == c && c.id == Some(id)
      && forall j :: i < j < |clips| ==> clips[j].id != Some(id)
  }

  ghost predicate Paired(a: Channel, b: Channel, c: Clip, d: Clip) {
    exists id :: Stands(a.clips, id, c) && Stands(b.clips, id, d)
  }

  // A clip with an id that no clip of the other side has.
  ghost predicate Alone(c: Clip, others: seq<Clip>) {
    c.id.Some? && forall d :: d in others ==> d.id != c.id
  }

  lemma {:induction false} StandsExactly(clips: seq<Clip>, id: string, c: Clip)
    ensures Get(ClipMap(clips), id) == Some(c) <==> Stands(clips, id, c)
  {
    if clips != [] {
      var last := |clips| - 1;
      StandsExactly(clips[..last], id, c);
      if clips[last].id == Some(id) {
        if clips[last] == c {
          assert Stands(clips, id, c);
        }
      } else {
        if i :| 0 <= i < last && clips[..last][i] == c && c.id == Some(id)
                && forall j :: i < j < last ==> clips[..last][j].id != Some(id) {
          forall j | i < j < |clips| ensures clips[j].id != Some(id) {
            assert j < last ==> clips[..last][j] == clips[j];
          }
          assert clips[i] == c;
        }
        if i :| 0 <= i < |clips| && clips[i] == c && c.id == Some(id)
                && forall j :: i < j < |clips| ==> clips[j].id != Some(id) {
          assert clips[..last][i] == c;
        }
      }
    }
  }

  // ------------------------------------------------------------- rows of one clip

  ghost predicate Changed<T>(a: Option<T>, b: Option<T>, before: T, after: T) {
    a == Some(before) && b == Some(after) && before != after
  }

  /** The rows of a matched clip: old value first, new value second, under its present name. */
  ghost predicate ClipShows(row: Row, c: Clip, d: Clip) {
    var name := Called(d.name, "Untitled clip");
    match row
    case Renamed(was, becomes) => was == Called(c.name, "Untitled clip") && becomes == name && was != becomes
    case Moved(target, before, after) => target == name && Changed(c.position, d.position, before, after)
    case Length(target, before, after) => target == name && Changed(c.length, d.length, before, after)
    case ClipBpm(target, before, after) => target == name && Changed(c.bpm, d.bpm, before, after)
    case Warp(target, was, becomes) => target == name && Changed(c.warp, d.warp, was, becomes)
    case Pitch(target, before, after) => target == name && Changed(c.pitch, d.pitch, before, after)
    case Loop(target, enabled) =>
      && target == name
      && (enabled <==> d.looping == Some(true)) && (enabled <==> c.looping != Some(true))
    case _ => false
  }

  lemma ClipRowsExactly(row: Row, c: Clip, d: Clip)
    ensures row in ClipChangeRows(c, d) <==> ClipShows(row, c, d)
  {
    match row
    case Renamed(_, _) =>
    case Moved(_, _, _) =>
    case Length(_, _, _) =>
    case ClipBpm(_, _, _) =>
    case Warp(_, _, _) =>
    case Pitch(_, _, _) =>
    case Loop(_, _) =>
    case _ =>
  }

  lemma {:induction false} ChangesExactly(
    row: Row, card: Card, order: seq<string>, a: map<string, Clip>, b: map<string, Clip>)
    ensures row in WithChanges(card, order, a, b).rows <==>
            || row in card.rows
            || exists id :: id in order && id in a && id in b && a[id] != b[id] && ClipShows(row, a[id], b[id])
  {
    if order != [] {
      var last, less := order[|order| - 1], order[..|order| - 1];
      assert order == less + [last];
      ChangesExactly(row, card, less, a, b);
      if Changes(last, a, b) {
        ClipRowsExactly(row, a[last], b[last]);
      }
    }
  }

  lemma NothingShown(row: Row, c: Clip)
    ensures !ClipShows(row, c, c)
  {
  }

  // --------------------------------------------------------- clips that come and go

  lemma {:induction false} FreshExactly(clips: seq<Clip>, others: seq<Clip>, c: Clip)
    ensures c in FreshList(clips, ClipIds(others)) <==> c in clips && Alone(c, others)
  {
    if clips != [] {
      FreshExactly(clips[1..], others, c);
      assert clips == [clips[0]] + clips[1..];
    }
  }

  lemma {:induction false} RowsOfExactly(row: Row, clips: seq<Clip>, status: Status)
    ensures row in RowsOf(clips, status) <==>
            exists c :: c in clips && row == if status == Add then AddedRow(c) else RemovedRow(c)
  {
    if row in RowsOf(clips, status) {
      var i :| 0 <= i < |clips| && RowsOf(clips, status)[i] == row;
      assert clips[i] in clips;
    }
    if c :| c in clips && row == if status == Add then AddedRow(c) else RemovedRow(c) {
      var i :| 0 <= i < |clips| && clips[i] == c;
      assert RowsOf(clips, status)[i] == row;
    }
  }

  ghost predicate ClipComes(row: Row, clips: seq<Clip>, others: seq<Clip>) {
    && row.Added?
    && exists c ::
         && c in clips && Alone(c, others) && row.target == Called(c.name, "Untitled clip")
         && row.at == if c.position.Some? then c.position.value else 0.0
  }

  ghost predicate ClipGoes(row: Row, clips: seq<Clip>, others: seq<Clip>) {
    && row.Removed?
    && exists c :: c in clips && Alone(c, others) && row.target == Called(c.name, "Untitled clip")
  }

  lemma ComesExactly(row: Row, clips: seq<Clip>, others: seq<Clip>)
    ensures row in RowsOf(FreshList(clips, ClipIds(others)), Add) <==> ClipComes(row, clips, others)
    ensures row in RowsOf(FreshList(clips, ClipIds(others)), Remove) <==> ClipGoes(row, clips, others)
  {
    RowsOfExactly(row, FreshList(clips, ClipIds(others)), Add);
    RowsOfExactly(row, FreshList(clips, ClipIds(others)), Remove);
    forall c ensures c in FreshList(clips, ClipIds(others)) <==> c in clips && Alone(c, others) {
      FreshExactly(clips, others, c);
    }
  }

  // ------------------------------------------------------------ rows of a channel

  function Plugins(channel: Channel): seq<string> {
    seq(|channel.effects|, i requires 0 <= i < |channel.effects| => Called(channel.effects[i].name, "Unknown plugin"))
  }

  function Instrument(channel: Channel): Option<string> {
    match channel.instrument
    case None => None
    case Some(plugin) => plugin.name
  }

  /** The rows of a matched channel's own mix, effects and instrument. */
  ghost predicate ChannelShows(row: Row, a: Channel, b: Channel) {
    match row
    case Volume(before, after) => Changed(a.volume, b.volume, before, after)
    case Pan(before, after) => Changed(a.pan, b.pan, before, after)
    case Muted(was, becomes) => a.muted == was && b.muted == becomes && was != becomes
    case Solo(was, becomes) => a.solo == was && b.solo == becomes && was != becomes
    case FxAdded(name) => name in Plugins(b) && name !in Plugins(a)
    case FxRemoved(name) => name in Plugins(a) && name !in Plugins(b)
    case FxReordered => Plugins(a) != Plugins(b) && multiset(Plugins(a)) == multiset(Plugins(b))
    case InstrumentChanged(was, becomes) => Instrument(a) == was && Instrument(b) == becomes && was != becomes
    case _ => false
  }

  lemma {:induction false} MissingExactly(names: seq<string>, others: seq<string>, name: string)
    ensures name in Missing(names, others) <==> name in names && name !in others
  {
    if names != [] {
      MissingExactly(names[1..], others, name);
      assert names == [names[0]] + names[1..];
    }
  }

  lemma FxAddedRows(row: Row, names: seq<string>)
    ensures row in AddedFx(names) <==> row.FxAdded? && row.target in names
    ensures row in RemovedFx(names) <==> row.FxRemoved? && row.target in names
  {
    if row.FxAdded? && row.target in names {
      var i :| 0 <= i < |names| && names[i] == row.target;
      assert AddedFx(names)[i] == row;
    }
    if row.FxRemoved? && row.target in names {
      var i :| 0 <= i < |names| && names[i] == row.target;
      assert RemovedFx(names)[i] == row;
    }
  }

  lemma ChannelRowsExactly(row: Row, a: Channel, b: Channel)
    ensures row in ChannelRows(a, b) <==> ChannelShows(row, a, b)
  {
    assert PluginNames(a.effects) == Plugins(a) && PluginNames(b.effects) == Plugins(b);
    var (p, q) := (Plugins(a), Plugins(b));
    FxAddedRows(row, Missing(q, p));
    FxAddedRows(row, Missing(p, q));
    if row.FxAdded? || row.FxRemoved? {
      MissingExactly(q, p, row.target);
      MissingExactly(p, q, row.target);
    }
    MixExactly(row, a, b);
  }

  lemma MixExactly(row: Row, a: Channel, b: Channel)
    ensures row in MixRows(a, b) <==>
            match row
            case Volume(before, after) => Changed(a.volume, b.volume, before, after)
            case Pan(before, after) => Changed(a.pan, b.pan, before, after)
            case Muted(was, becomes) => a.muted == was && b.muted == becomes && was != becomes
            case Solo(was, becomes) => a.solo == was && b.solo == becomes && was != becomes
            case _ => false
  {
  }

  // ------------------------------------------------------ the card of a matched channel

  /**
   * A row is on the card of a matched channel for a clip only one side has, for
   * a part of a matched clip that differs, or for a part of the channel.
   */
  ghost predicate Shows(row: Row, a: Channel, b: Channel) {
    || (row.Renamed? && row.was != row.becomes
          && row.was == Called(a.name, "Untitled") && row.becomes == Called(b.name, "Untitled"))
    || ClipComes(row, b.clips, a.clips)
    || ClipGoes(row, a.clips, b.clips)
    || (exists c, d :: Paired(a, b, c, d) && ClipShows(row, c, d))
    || ChannelShows(row, a, b)
  }

  ghost predicate SomeClipShows(row: Row, a: map<string, Clip>, b: map<string, Clip>) {
    exists id :: id in a && id in b && a[id] != b[id] && ClipShows(row, a[id], b[id])
  }

  lemma PairsExactly(row: Row, a: Channel, b: Channel)
    ensures (exists c, d :: Paired(a, b, c, d) && ClipShows(row, c, d)) <==>
            SomeClipShows(row, ClipMap(a.clips), ClipMap(b.clips))
  {
    var (p, q) := (ClipMap(a.clips), ClipMap(b.clips));
    if c, d :| Paired(a, b, c, d) && ClipShows(row, c, d) {
      var id :| Stands(a.clips, id, c) && Stands(b.clips, id, d);
      StandsExactly(a.clips, id, c);
      StandsExactly(b.clips, id, d);
      assert id in p && id in q && p[id] == c && q[id] == d && c != d by {
        NothingShown(row, c);
      }
    }
    if id :| id in p && id in q && p[id] != q[id] && ClipShows(row, p[id], q[id]) {
      StandsExactly(a.clips, id, p[id]);
      StandsExactly(b.clips, id, q[id]);
      assert Paired(a, b, p[id], q[id]);
    }
  }

  // A card's rows before, among and behind those of its matched clips.
  lemma CardParts(row: Row, a: Channel, b: Channel, order: seq<string>)
    requires Visits(order, ClipIds(b.clips))
    ensures row in ModifiedCardOf(a, b, order).rows <==>
            || row in NameRows(a, b)
            || row in RowsOf(FreshList(b.clips, ClipIds(a.clips)), Add)
            || row in RowsOf(FreshList(a.clips, ClipIds(b.clips)), Remove)
            || SomeClipShows(row, ClipMap(a.clips), ClipMap(b.clips))
            || row in ChannelRows(a, b)
  {
    var (p, q) := (ClipMap(a.clips), ClipMap(b.clips));
    var added := WithClips(Blank(b, Modify).(rows := NameRows(a, b)), FreshList(b.clips, ClipIds(a.clips)), Add);
    var removed := WithClips(added, FreshList(a.clips, ClipIds(b.clips)), Remove);
    ChangesExactly(row, removed, order, p, q);
    ClipMapKeys(b.clips);
    assert forall id :: id in order <==> id in q;
    var front := NameRows(a, b) + RowsOf(FreshList(b.clips, ClipIds(a.clips)), Add);
    assert removed.rows == front + RowsOf(FreshList(a.clips, ClipIds(b.clips)), Remove);
  }

  /** The rows of a matched channel's card, whatever order its clips were visited in. */
  lemma CardRowsExactly(row: Row, card: Card, a: Channel, b: Channel)
    requires IsModifiedCard(card, a, b)
    ensures row in card.rows <==> Shows(row, a, b)
  {
    var order :| Visits(order, ClipIds(b.clips)) && card == ModifiedCardOf(a, b, order);
    CardParts(row, a, b, order);
    ComesExactly(row, b.clips, a.clips);
    ComesExactly(row, a.clips, b.clips);
    PairsExactly(row, a, b);
    ChannelRowsExactly(row, a, b);
    NameRowExactly(row, a, b);
  }

  lemma NameRowExactly(row: Row, a: Channel, b: Channel)
    ensures row in NameRows(a, b) <==>
            && row.Renamed? && row.was != row.becomes
            && row.was == Called(a.name, "Untitled") && row.becomes == Called(b.name, "Untitled")
  {
  }

  /** How many of the clips are alone. */
  ghost function Newcomers(clips: seq<Clip>, others: seq<Clip>): nat {
    if clips == [] then 0 else (if Alone(clips[0], others) then 1 else 0) + Newcomers(clips[1..], others)
  }

  lemma {:induction false} NewcomersAreFresh(clips: seq<Clip>, others: seq<Clip>)
    ensures FreshClips(clips, ClipIds(others)) == Newcomers(clips, others)
  {
    if clips != [] {
      NewcomersAreFresh(clips[1..], others);
      assert Alone(clips[0], others) <==> clips[0].id.Some? && clips[0].id.value !in ClipIds(others);
    }
  }

  // The ids whose clips differ.
  ghost predicate AreChanged(ids: set<string>, a: Channel, b: Channel) {
    forall id :: id in ids <==> exists c, d :: Stands(a.clips, id, c) && Stands(b.clips, id, d) && c != d
  }

  lemma ChangedExactly(a: Channel, b: Channel)
    ensures AreChanged(ChangedIds(a, b), a, b)
  {
    var (p, q) := (ClipMap(a.clips), ClipMap(b.clips));
    ClipMapKeys(b.clips);
    forall id ensures id in ChangedIds(a, b) <==>
      exists c, d :: Stands(a.clips, id, c) && Stands(b.clips, id, d) && c != d
    {
      if id in ChangedIds(a, b) {
        StandsExactly(a.clips, id, p[id]);
        StandsExactly(b.clips, id, q[id]);
      }
      if c, d :| Stands(a.clips, id, c) && Stands(b.clips, id, d) && c != d {
        StandsExactly(a.clips, id, c);
        StandsExactly(b.clips, id, d);
      }
    }
  }

  /** What the card of a matched channel is called and what it counts. */
  lemma CardCountsExactly(card: Card, a: Channel, b: Channel) returns (ids: set<string>)
    requires IsModifiedCard(card, a, b)
    ensures card.name == Called(b.name, "Untitled") && card.status == Modify
    ensures card.added == Newcomers(b.clips, a.clips) && card.removed == Newcomers(a.clips, b.clips)
    ensures AreChanged(ids, a, b) && card.modified == |ids|
  {
    var order :| Visits(order, ClipIds(b.clips)) && card == ModifiedCardOf(a, b, order);
    NewcomersAreFresh(b.clips, a.clips);
    NewcomersAreFresh(a.clips, b.clips);
    ModifiedCounts(a, b, order);
    NameKept(Blank(b, Modify), order, ClipMap(a.clips), ClipMap(b.clips));
    ids := ChangedIds(a, b);
    ChangedExactly(a, b);
    CardNamed(a, b, order);
  }

  lemma {:induction false} NameKept(card: Card, order: seq<string>, a: map<string, Clip>, b: map<string, Clip>)
    ensures WithChanges(card, order, a, b).name == card.name
  {
    if order != [] {
      NameKept(card, order[..|order| - 1], a, b);
    }
  }

  lemma CardNamed(a: Channel, b: Channel, order: seq<string>)
    ensures ModifiedCardOf(a, b, order).name == Called(b.name, "Untitled")
  {
    var added := WithClips(Blank(b, Modify).(rows := NameRows(a, b)), FreshList(b.clips, ClipIds(a.clips)), Add);
    var removed := WithClips(added, FreshList(a.clips, ClipIds(b.clips)), Remove);
    NameKept(removed, order, ClipMap(a.clips), ClipMap(b.clips));
  }

  // ---------------------------------------------------------------- the rows' order

  // Where a row comes on its card; renamings are apart, since a clip's and the channel's look alike.
  function Stage(row: Row): nat {
    match row
    case Renamed(_, _) => 0
    case Added(_, _) => 1
    case Removed(_) => 2
    case Volume(_, _) => 4
    case Pan(_, _) => 5
    case Muted(_, _) => 6
    case Solo(_, _) => 7
    case FxAdded(_) => 8
    case FxRemoved(_) => 9
    case FxReordered => 10
    case InstrumentChanged(_, _) => 11
    case _ => 3
  }

  ghost predicate Staged(rows: seq<Row>, low: nat, high: nat) {
    && (forall i :: 0 <= i < |rows| && !rows[i].Renamed? ==> low <= Stage(rows[i]) <= high)
    && forall i, j :: 0 <= i < j < |rows| && !rows[i].Renamed? && !rows[j].Renamed? ==> Stage(rows[i]) <= Stage(rows[j])
  }

  lemma StagedAppend(p: seq<Row>, low: nat, middle: nat, q: seq<Row>, next: nat, high: nat)
    requires Staged(p, low, middle) && Staged(q, next, high) && low <= middle <= next <= high
    ensures Staged(p + q, low, high)
  {
  }

  lemma {:induction false} ChangesStaged(card: Card, order: seq<string>, a: map<string, Clip>, b: map<string, Clip>)
    requires Staged(card.rows, 1, 2)
    ensures Staged(WithChanges(card, order, a, b).rows, 1, 3)
  {
    if order != [] {
      var last, less := order[|order| - 1], order[..|order| - 1];
      ChangesStaged(card, less, a, b);
      if Changes(last, a, b) {
        var rows := ClipChangeRows(a[last], b[last]);
        forall i | 0 <= i < |rows| && !rows[i].Renamed? ensures Stage(rows[i]) == 3 {
          ClipRowsExactly(rows[i], a[last], b[last]);
        }
        StagedAppend(WithChanges(card, less, a, b).rows, 1, 3, rows, 3, 3);
      }
    }
  }

  lemma MixStaged(a: Channel, b: Channel)
    ensures Staged(MixRows(a, b), 4, 7)
  {
  }

  lemma FxStaged(p: seq<string>, q: seq<string>, reordered: seq<Row>)
    requires reordered == [] || reordered == [FxReordered]
    ensures Staged(AddedFx(p) + RemovedFx(q) + reordered, 8, 10)
  {
    StagedAppend(AddedFx(p), 8, 8, RemovedFx(q), 9, 9);
    StagedAppend(AddedFx(p) + RemovedFx(q), 8, 9, reordered, 10, 10);
  }

  lemma ChannelStaged(a: Channel, b: Channel)
    ensures Staged(ChannelRows(a, b), 4, 11)
  {
    var (p, q) := (PluginNames(a.effects), PluginNames(b.effects));
    var (mix, fx) := (MixRows(a, b), FxRows(a, b));
    FxStaged(Missing(q, p), Missing(p, q), if multiset(p) == multiset(q) && p != q then [FxReordered] else []);
    MixStaged(a, b);
    InstrumentLast(mix, fx, if InstrumentName(a) != InstrumentName(b)
                            then [InstrumentChanged(InstrumentName(a), InstrumentName(b))] else []);
  }

  lemma InstrumentLast(mix: seq<Row>, fx: seq<Row>, changed: seq<Row>)
    requires Staged(mix, 4, 7) && Staged(fx, 8, 10)
    requires changed == [] || (|changed| == 1 && changed[0].InstrumentChanged?)
    ensures Staged(mix + fx + changed, 4, 11)
  {
    StagedAppend(mix, 4, 7, fx, 8, 10);
    StagedAppend(mix + fx, 4, 10, changed, 11, 11);
  }

  // What a card starts with.
  ghost function Begun(a: Channel, b: Channel): Card {
    WithClips(WithClips(Blank(b, Modify).(rows := NameRows(a, b)), FreshList(b.clips, ClipIds(a.clips)), Add),
              FreshList(a.clips, ClipIds(b.clips)), Remove)
  }

  lemma BegunStaged(a: Channel, b: Channel)
    ensures Staged(Begun(a, b).rows, 1, 2) && NameRows(a, b) <= Begun(a, b).rows
  {
    var (comes, goes) := (RowsOf(FreshList(b.clips, ClipIds(a.clips)), Add),
                          RowsOf(FreshList(a.clips, ClipIds(b.clips)), Remove));
    OneSidedLast(NameRows(a, b), comes, goes);
  }

  lemma OneSidedLast(names: seq<Row>, comes: seq<Row>, goes: seq<Row>)
    requires forall row :: row in names ==> row.Renamed?
    requires forall row :: row in comes ==> row.Added?
    requires forall row :: row in goes ==> row.Removed?
    ensures Staged(names + comes + goes, 1, 2)
  {
    StagedAppend(names, 1, 1, comes, 1, 1);
    StagedAppend(names + comes, 1, 1, goes, 2, 2);
  }

  /**
   * A card tells the channel's new name first, then clips that come, clips that
   * go, parts of clips, the mix, the effects and the instrument.
   */
  lemma CardInOrder(card: Card, a: Channel, b: Channel)
    requires IsModifiedCard(card, a, b)
    ensures Staged(card.rows, 1, 11)
    ensures var (was, becomes) := (Called(a.name, "Untitled"), Called(b.name, "Untitled"));
            was != becomes ==> [Renamed(was, becomes)] <= card.rows
  {
    var order :| Visits(order, ClipIds(b.clips)) && card == ModifiedCardOf(a, b, order);
    var (p, q) := (ClipMap(a.clips), ClipMap(b.clips));
    var changed := WithChanges(Begun(a, b), order, p, q);
    BegunStaged(a, b);
    ChangesStaged(Begun(a, b), order, p, q);
    ChangesCounted(Begun(a, b), order, p, q);
    ChannelStaged(a, b);
    assert card.rows == changed.rows + ChannelRows(a, b);
    StagedAppend(changed.rows, 1, 3, ChannelRows(a, b), 4, 11);
    NameFirst(NameRows(a, b), Begun(a, b).rows, changed.rows, ChannelRows(a, b));
  }

  lemma NameFirst(names: seq<Row>, begun: seq<Row>, changed: seq<Row>, channel: seq<Row>)
    requires names <= begun <= changed
    ensures names <= changed + channel
  {
  }
}
