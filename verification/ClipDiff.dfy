/** The structured diff of two native snapshots: a card per channel, a row per change it has words for. */
module ClipDiff {
  import opened Json

  // ------------------------------------------------------------ the snapshots

  // What the diff compares of a clip, each part absent if the clip does not
  // have it; `rest` is everything else, the notes among it.
  datatype Clip = Clip(
    id: Option<string>, name: Option<string>, position: Option<real>, length: Option<real>, bpm: Option<real>,
    warp: Option<string>, pitch: Option<real>, looping: Option<bool>, rest: int)

  // A plugin's name, or else its id.
  datatype Plugin = Plugin(name: Option<string>, rest: int)

  datatype Channel = Channel(
    id: Option<string>, name: Option<string>, clips: seq<Clip>, volume: Option<real>, pan: Option<real>,
    muted: Option<bool>, solo: Option<bool>, effects: seq<Plugin>, instrument: Option<Plugin>, rest: int)

  datatype Snapshot = Snapshot(
    bpm: Option<real>, numerator: Option<nat>, denominator: Option<nat>, scale: Option<int>, automation: Option<int>,
    notes: Option<int>, channels: seq<Channel>)

  // ----------------------------------------------------------------- the diff

  datatype Row =
    | Added(target: string, at: real)
    | Removed(target: string)
    | Renamed(was: string, becomes: string)
    | Moved(target: string, before: real, after: real)
    | Length(target: string, before: real, after: real)
    | ClipBpm(target: string, before: real, after: real)
    | Warp(target: string, was: string, becomes: string)
    | Pitch(target: string, before: real, after: real)
    | Loop(target: string, enabled: bool)
    | Volume(before: real, after: real)
    | Pan(before: real, after: real)
    | Muted(wasSet: Option<bool>, isSet: Option<bool>)
    | Solo(wasSet: Option<bool>, isSet: Option<bool>)
    | FxAdded(target: string)
    | FxRemoved(target: string)
    | FxReordered
    | InstrumentChanged(previous: Option<string>, present: Option<string>)

  datatype Status = Add | Remove | Modify

  datatype Card = Card(name: string, status: Status, added: nat, removed: nat, modified: nat, rows: seq<Row>)

  datatype Change =
    | Tempo(before: Option<real>, after: Option<real>)
    | TimeSignature(previous: (nat, nat), present: (nat, nat))
    | Scale
    | Automation
    | Notes

  datatype ProjectDiff = ProjectDiff(changes: seq<Change>, timeSig: (nat, nat), cards: seq<Card>)

  // ----------------------------------------------------------- rows of changes

  function Or<T>(value: Option<T>, otherwise: T): T {
    if value.Some? then value.value else otherwise
  }

  // Most parts are compared only where both sides have them.
  predicate Differ<T(==)>(a: Option<T>, b: Option<T>) {
    a.Some? && b.Some? && a.value != b.value
  }

  function ClipName(c: Clip): string {
    Or(c.name, "Untitled clip")
  }

  function ClipChangeRows(a: Clip, b: Clip): seq<Row> {
    var target := ClipName(b);
    (if ClipName(a) != target then [Renamed(ClipName(a), target)] else [])
    + (if Differ(a.position, b.position) then [Moved(target, a.position.value, b.position.value)] else [])
    + (if Differ(a.length, b.length) then [Length(target, a.length.value, b.length.value)] else [])
    + (if Differ(a.bpm, b.bpm) then [ClipBpm(target, a.bpm.value, b.bpm.value)] else [])
    + (if Differ(a.warp, b.warp) then [Warp(target, a.warp.value, b.warp.value)] else [])
    + (if Differ(a.pitch, b.pitch) then [Pitch(target, a.pitch.value, b.pitch.value)] else [])
    + (if Or(a.looping, false) != Or(b.looping, false) then [Loop(target, Or(b.looping, false))] else [])
  }

  /** No part of the clip the diff has words for has changed. */
  predicate Unworded(a: Clip, b: Clip) {
    && ClipName(a) == ClipName(b)
    && !Differ(a.position, b.position) && !Differ(a.length, b.length) && !Differ(a.bpm, b.bpm)
    && !Differ(a.warp, b.warp) && !Differ(a.pitch, b.pitch)
    && Or(a.looping, false) == Or(b.looping, false)
  }

  function ChannelName(c: Channel): string {
    Or(c.name, "Untitled")
  }

  function NameRows(a: Channel, b: Channel): seq<Row> {
    if ChannelName(a) != ChannelName(b) then [Renamed(ChannelName(a), ChannelName(b))] else []
  }

  // An unset mute or solo is told from one that is off.
  function MixRows(a: Channel, b: Channel): seq<Row> {
    (if Differ(a.volume, b.volume) then [Volume(a.volume.value, b.volume.value)] else [])
    + (if Differ(a.pan, b.pan) then [Pan(a.pan.value, b.pan.value)] else [])
    + (if a.muted != b.muted then [Muted(a.muted, b.muted)] else [])
    + (if a.solo != b.solo then [Solo(a.solo, b.solo)] else [])
  }

  function PluginNames(plugins: seq<Plugin>): seq<string> {
    seq(|plugins|, i requires 0 <= i < |plugins| => Or(plugins[i].name, "Unknown plugin"))
  }

  // The names another list does not have, in order.
  function Missing(names: seq<string>, others: seq<string>): seq<string> {
    if names == [] then [] else (if names[0] in others then [] else [names[0]]) + Missing(names[1..], others)
  }

  function AddedFx(names: seq<string>): seq<Row> {
    seq(|names|, i requires 0 <= i < |names| => FxAdded(names[i]))
  }

  function RemovedFx(names: seq<string>): seq<Row> {
    seq(|names|, i requires 0 <= i < |names| => FxRemoved(names[i]))
  }

  function FxRows(a: Channel, b: Channel): seq<Row> {
    var (p, q) := (PluginNames(a.effects), PluginNames(b.effects));
    AddedFx(Missing(q, p)) + RemovedFx(Missing(p, q))
    + (if multiset(p) == multiset(q) && p != q then [FxReordered] else [])
  }

  function InstrumentName(c: Channel): Option<string> {
    if c.instrument.Some? then c.instrument.value.name else None
  }

  function ChannelRows(a: Channel, b: Channel): seq<Row> {
    MixRows(a, b) + FxRows(a, b)
    + (if InstrumentName(a) != InstrumentName(b) then [InstrumentChanged(InstrumentName(a), InstrumentName(b))] else [])
  }

  function Blank(channel: Channel, status: Status): Card {
    Card(ChannelName(channel), status, 0, 0, 0, [])
  }

  function AddedRow(c: Clip): Row {
    Added(ClipName(c), Or(c.position, 0.0))
  }

  function RemovedRow(c: Clip): Row {
    Removed(ClipName(c))
  }

  // ------------------------------------------------------------ lists with ids

  function ClipIds(clips: seq<Clip>): set<string> {
    set c | c in clips && c.id.Some? :: c.id.value
  }

  function ChannelIds(channels: seq<Channel>): set<string> {
    set c | c in channels && c.id.Some? :: c.id.value
  }

  // A map collected by id: of several equal ids the last wins.
  function ClipMap(clips: seq<Clip>): map<string, Clip> {
    if clips == [] then map[]
    else
      var last := clips[|clips| - 1];
      if last.id.Some? then ClipMap(clips[..|clips| - 1])[last.id.value := last] else ClipMap(clips[..|clips| - 1])
  }

  function ChannelMap(channels: seq<Channel>): map<string, Channel> {
    if channels == [] then map[]
    else
      var last := channels[|channels| - 1];
      if last.id.Some? then ChannelMap(channels[..|channels| - 1])[last.id.value := last]
      else ChannelMap(channels[..|channels| - 1])
  }

  lemma {:induction false} ClipMapKeys(clips: seq<Clip>)
    ensures ClipMap(clips).Keys == ClipIds(clips)
  {
    if clips != [] {
      ClipMapKeys(clips[..|clips| - 1]);
      assert clips == clips[..|clips| - 1] + [clips[|clips| - 1]];
    }
  }

  lemma {:induction false} ChannelMapKeys(channels: seq<Channel>)
    ensures ChannelMap(channels).Keys == ChannelIds(channels)
  {
    if channels != [] {
      ChannelMapKeys(channels[..|channels| - 1]);
      assert channels == channels[..|channels| - 1] + [channels[|channels| - 1]];
    }
  }

  method CollectClips(clips: seq<Clip>) returns (m: map<string, Clip>)
    ensures m == ClipMap(clips)
  {
    m := map[];
    for i := 0 to |clips|
      invariant m == ClipMap(clips[..i])
    {
      assert clips[..i + 1][..i] == clips[..i];
      if clips[i].id.Some? {
        m := m[clips[i].id.value := clips[i]];
      }
    }
    assert clips[..|clips|] == clips;
  }

  method CollectChannels(channels: seq<Channel>) returns (m: map<string, Channel>)
    ensures m == ChannelMap(channels)
  {
    m := map[];
    for i := 0 to |channels|
      invariant m == ChannelMap(channels[..i])
    {
      assert channels[..i + 1][..i] == channels[..i];
      if channels[i].id.Some? {
        m := m[channels[i].id.value := channels[i]];
      }
    }
    assert channels[..|channels|] == channels;
  }

  // ---------------------------------------------------------- what the diff is

  /** How many clips have an id that is not known. */
  function FreshClips(clips: seq<Clip>, known: set<string>): nat {
    if clips == [] then 0
    else (if clips[0].id.Some? && clips[0].id.value !in known then 1 else 0) + FreshClips(clips[1..], known)
  }

  /** The clips whose id is not known, in order. */
  function FreshList(clips: seq<Clip>, known: set<string>): (listed: seq<Clip>)
    ensures |listed| == FreshClips(clips, known)
  {
    if clips == [] then []
    else (if clips[0].id.Some? && clips[0].id.value !in known then [clips[0]] else []) + FreshList(clips[1..], known)
  }

  function RowsOf(clips: seq<Clip>, status: Status): seq<Row> {
    seq(|clips|, i requires 0 <= i < |clips| => if status == Add then AddedRow(clips[i]) else RemovedRow(clips[i]))
  }

  // A card with a row more, and one more counted, for each of the clips.
  function WithClips(card: Card, clips: seq<Clip>, status: Status): Card {
    if status == Add then card.(added := card.added + |clips|, rows := card.rows + RowsOf(clips, status))
    else card.(removed := card.removed + |clips|, rows := card.rows + RowsOf(clips, status))
  }

  lemma WithClipsStep(card: Card, clips: seq<Clip>, clip: Clip, status: Status)
    ensures var so := WithClips(card, clips, status);
            WithClips(card, clips + [clip], status) ==
            if status == Add then so.(added := so.added + 1, rows := so.rows + [AddedRow(clip)])
            else so.(removed := so.removed + 1, rows := so.rows + [RemovedRow(clip)])
  {
    assert RowsOf(clips + [clip], status) == RowsOf(clips, status) + RowsOf([clip], status);
  }

  predicate Changes(id: string, a: map<string, Clip>, b: map<string, Clip>) {
    id in a && id in b && a[id] != b[id]
  }

  // A card with the changes of matched clips, in the order they are visited.
  function WithChanges(card: Card, order: seq<string>, a: map<string, Clip>, b: map<string, Clip>): Card {
    if order == [] then card
    else
      var last := order[|order| - 1];
      var so := WithChanges(card, order[..|order| - 1], a, b);
      if !Changes(last, a, b) then so
      else so.(modified := so.modified + 1, rows := so.rows + ClipChangeRows(a[last], b[last]))
  }

  // A visit of every id, once each, in some order.
  ghost predicate Visits(order: seq<string>, ids: set<string>) {
    NoRepeats(order) && forall id :: id in order <==> id in ids
  }

  lemma VisitsMore(order: seq<string>, ids: set<string>, rest: set<string>, id: string)
    requires rest <= ids && id in rest && Visits(order, ids - rest)
    ensures Visits(order + [id], ids - (rest - {id}))
    ensures (order + [id])[..|order|] == order
  {
  }

  function ClipRows(card: Card, a: Channel, b: Channel, order: seq<string>): Card {
    var added := WithClips(card, FreshList(b.clips, ClipIds(a.clips)), Add);
    var removed := WithClips(added, FreshList(a.clips, ClipIds(b.clips)), Remove);
    WithChanges(removed, order, ClipMap(a.clips), ClipMap(b.clips))
  }

  function ModifiedCardOf(a: Channel, b: Channel, order: seq<string>): Card {
    var card := ClipRows(Blank(b, Modify).(rows := NameRows(a, b)), a, b, order);
    card.(rows := card.rows + ChannelRows(a, b))
  }

  /** The card of a matched channel that changed, for some order of visiting its clips. */
  ghost predicate IsModifiedCard(card: Card, a: Channel, b: Channel) {
    exists order :: Visits(order, ClipIds(b.clips)) && card == ModifiedCardOf(a, b, order)
  }

  // A card without rows is not shown.
  ghost predicate Dropped(a: Channel, b: Channel) {
    exists card :: IsModifiedCard(card, a, b) && card.rows == []
  }

  // What visiting one id adds to the cards.
  ghost predicate MatchedStep(
    cards: seq<Card>, front: seq<Card>, id: string, a: map<string, Channel>, b: map<string, Channel>)
  {
    if !(id in a && id in b && a[id] != b[id]) then cards == front
    else
      || (cards == front && Dropped(a[id], b[id]))
      || exists card :: cards == front + [card] && IsModifiedCard(card, a[id], b[id]) && card.rows != []
  }

  /** A card for each matched channel that changed and has something to show, in the order visited. */
  ghost predicate IsMatchedCards(
    cards: seq<Card>, order: seq<string>, a: map<string, Channel>, b: map<string, Channel>)
    decreases |order|
  {
    if order == [] then cards == []
    else
      var last, less := order[|order| - 1], order[..|order| - 1];
      || (IsMatchedCards(cards, less, a, b) && MatchedStep(cards, cards, last, a, b))
      || (cards != [] && IsMatchedCards(cards[..|cards| - 1], less, a, b) &&
          MatchedStep(cards, cards[..|cards| - 1], last, a, b))
  }

  function OneSidedCardsOf(channels: seq<Channel>, known: set<string>, status: Status): seq<Card> {
    if channels == [] then []
    else
      (if channels[0].id.Some? && channels[0].id.value !in known
       then [WithClips(Blank(channels[0], status), channels[0].clips, status)] else [])
      + OneSidedCardsOf(channels[1..], known, status)
  }

  /**
   * The cards: added channels, removed channels, then matched channels that
   * changed, in whatever order the map of current channels is visited. A
   * matched card without rows is dropped.
   */
  ghost predicate IsDiff(cards: seq<Card>, ancestor: seq<Channel>, current: seq<Channel>) {
    exists order, matched :: DiffParts(cards, ancestor, current, order, matched)
  }

  ghost predicate DiffParts(cards: seq<Card>, ancestor: seq<Channel>, current: seq<Channel>,
                            order: seq<string>, matched: seq<Card>)
  {
    && Visits(order, ChannelIds(current))
    && cards == OneSidedCardsOf(current, ChannelIds(ancestor), Add)
              + OneSidedCardsOf(ancestor, ChannelIds(current), Remove) + matched
    && IsMatchedCards(matched, order, ChannelMap(ancestor), ChannelMap(current))
  }

  // ----------------------------------------------------------------- the loops

  method PushClipRows(card: Card, a: Channel, b: Channel)
    returns (filled: Card)
    ensures exists order :: Visits(order, ClipIds(b.clips)) && filled == ClipRows(card, a, b, order)
  {
    var ancestors := CollectClips(a.clips);
    var currents := CollectClips(b.clips);
    ClipMapKeys(a.clips);
    ClipMapKeys(b.clips);
    filled := PushOneSided(card, b.clips, ancestors.Keys, Add);
    filled := PushOneSided(filled, a.clips, currents.Keys, Remove);
    ghost var pushed := filled;
    filled := PushModifiedClips(filled, ancestors, currents);
    ghost var order :|
      Visits(order, currents.Keys) && filled == WithChanges(pushed, order, ancestors, currents);
    assert filled == ClipRows(card, a, b, order);
  }

  lemma FreshNext(clips: seq<Clip>, i: nat, known: set<string>)
    requires i < |clips|
    ensures FreshList(clips[i..], known) ==
            (if clips[i].id.Some? && clips[i].id.value !in known then [clips[i]] else [])
            + FreshList(clips[i + 1..], known)
  {
    assert clips[i..][1..] == clips[i + 1..];
  }

  // A row for every clip whose id the other side lacks.
  method PushOneSided(card: Card, clips: seq<Clip>, known: set<string>, status: Status) returns (filled: Card)
    requires status != Modify
    ensures filled == WithClips(card, FreshList(clips, known), status)
  {
    filled := card;
    var i := 0;
    ghost var pushed: seq<Clip> := [];
    while i < |clips|
      invariant 0 <= i <= |clips| && pushed + FreshList(clips[i..], known) == FreshList(clips, known)
      invariant filled == WithClips(card, pushed, status)
    {
      var clip := clips[i];
      FreshNext(clips, i, known);
      if clip.id.Some? && clip.id.value !in known {
        WithClipsStep(card, pushed, clip, status);
        Rejoin(pushed, [clip], FreshList(clips[i + 1..], known));
        pushed := pushed + [clip];
        filled := if status == Add then filled.(added := filled.added + 1, rows := filled.rows + [AddedRow(clip)])
                  else filled.(removed := filled.removed + 1, rows := filled.rows + [RemovedRow(clip)]);
      }
      i := i + 1;
    }
    assert pushed == FreshList(clips, known);
  }

  // Matched clips, in whatever order the map yields them.
  method PushModifiedClips(card: Card, ancestors: map<string, Clip>, currents: map<string, Clip>)
    returns (filled: Card)
    ensures exists order :: Visits(order, currents.Keys) && filled == WithChanges(card, order, ancestors, currents)
  {
    filled := card;
    ghost var order: seq<string> := [];
    var rest := currents.Keys;
    while rest != {}
      invariant rest <= currents.Keys && Visits(order, currents.Keys - rest)
      invariant filled == WithChanges(card, order, ancestors, currents)
      decreases |rest|
    {
      var id :| id in rest;
      VisitsMore(order, currents.Keys, rest, id);
      rest := rest - {id};
      order := order + [id];
      if id in ancestors && ancestors[id] != currents[id] {
        var rows := filled.rows + ClipChangeRows(ancestors[id], currents[id]);
        filled := filled.(modified := filled.modified + 1, rows := rows);
      }
    }
  }

  method DiffChannels(ancestor: seq<Channel>, current: seq<Channel>)
    returns (cards: seq<Card>)
    ensures IsDiff(cards, ancestor, current)
  {
    var ancestors := CollectChannels(ancestor);
    var currents := CollectChannels(current);
    ChannelMapKeys(ancestor);
    ChannelMapKeys(current);
    var added := OneSidedCards(current, ancestors.Keys, Add);
    var removed := OneSidedCards(ancestor, currents.Keys, Remove);
    var matched := MatchedCards(ancestors, currents);
    ghost var order :| Visits(order, currents.Keys) && IsMatchedCards(matched, order, ancestors, currents);
    cards := added + removed + matched;
    assert DiffParts(cards, ancestor, current, order, matched);
  }

  lemma OneSidedNext(channels: seq<Channel>, i: nat, known: set<string>, status: Status)
    requires i < |channels|
    ensures OneSidedCardsOf(channels[i..], known, status) ==
            (if channels[i].id.Some? && channels[i].id.value !in known
             then [WithClips(Blank(channels[i], status), channels[i].clips, status)] else [])
            + OneSidedCardsOf(channels[i + 1..], known, status)
  {
    assert channels[i..][1..] == channels[i + 1..];
  }

  // A card for every channel whose id the other side lacks; all its clips come, or go.
  method OneSidedCards(channels: seq<Channel>, known: set<string>, status: Status) returns (cards: seq<Card>)
    requires status != Modify
    ensures cards == OneSidedCardsOf(channels, known, status)
  {
    cards := [];
    var i := 0;
    while i < |channels|
      invariant 0 <= i <= |channels|
      invariant cards + OneSidedCardsOf(channels[i..], known, status) == OneSidedCardsOf(channels, known, status)
    {
      var channel := channels[i];
      OneSidedNext(channels, i, known, status);
      Rejoin(cards, [], OneSidedCardsOf(channels[i + 1..], known, status));
      if channel.id.Some? && channel.id.value !in known {
        var card := OneSidedCard(channel, status);
        Rejoin(cards, [card], OneSidedCardsOf(channels[i + 1..], known, status));
        cards := cards + [card];
      }
      i := i + 1;
    }
  }

  lemma Rejoin<X>(p: seq<X>, q: seq<X>, r: seq<X>)
    ensures p + (q + r) == p + q + r && [] + r == r && p + [] == p
  {
  }

  method OneSidedCard(channel: Channel, status: Status) returns (card: Card)
    requires status != Modify
    ensures card == WithClips(Blank(channel, status), channel.clips, status)
  {
    card := Blank(channel, status);
    for i := 0 to |channel.clips|
      invariant card == WithClips(Blank(channel, status), channel.clips[..i], status)
    {
      var clip := channel.clips[i];
      WithClipsStep(Blank(channel, status), channel.clips[..i], clip, status);
      assert channel.clips[..i + 1] == channel.clips[..i] + [clip];
      card := if status == Add then card.(added := card.added + 1, rows := card.rows + [AddedRow(clip)])
              else card.(removed := card.removed + 1, rows := card.rows + [RemovedRow(clip)]);
    }
    assert channel.clips[..|channel.clips|] == channel.clips;
  }

  method MatchedCards(ancestors: map<string, Channel>, currents: map<string, Channel>)
    returns (cards: seq<Card>)
    ensures exists order :: Visits(order, currents.Keys) && IsMatchedCards(cards, order, ancestors, currents)
  {
    cards := [];
    ghost var order: seq<string> := [];
    var rest := currents.Keys;
    while rest != {}
      invariant rest <= currents.Keys && Visits(order, currents.Keys - rest)
      invariant IsMatchedCards(cards, order, ancestors, currents)
      decreases |rest|
    {
      var id :| id in rest;
      VisitsMore(order, currents.Keys, rest, id);
      ghost var (front, less) := (cards, order);
      rest := rest - {id};
      order := order + [id];
      if id in ancestors && ancestors[id] != currents[id] {
        var card := ModifiedCard(ancestors[id], currents[id]);
        if card.rows != [] {
          cards := cards + [card];
        }
      }
      assert MatchedStep(cards, front, id, ancestors, currents);
      NextMatched(cards, front, less, id, ancestors, currents);
    }
    assert currents.Keys - rest == currents.Keys;
  }

  lemma NextMatched(
    cards: seq<Card>, front: seq<Card>, order: seq<string>, id: string, a: map<string, Channel>,
    b: map<string, Channel>)
    requires IsMatchedCards(front, order, a, b) && MatchedStep(cards, front, id, a, b)
    ensures IsMatchedCards(cards, order + [id], a, b)
  {
    assert (order + [id])[..|order|] == order;
    if cards != front {
      var card :| cards == front + [card] && IsModifiedCard(card, a[id], b[id]) && card.rows != [];
      assert cards[..|cards| - 1] == front;
    }
  }

  method ModifiedCard(a: Channel, b: Channel) returns (card: Card)
    ensures IsModifiedCard(card, a, b)
  {
    card := Blank(b, Modify).(rows := NameRows(a, b));
    var filled := PushClipRows(card, a, b);
    ghost var order :| Visits(order, ClipIds(b.clips)) && filled == ClipRows(card, a, b, order);
    card := filled.(rows := filled.rows + ChannelRows(a, b));
    assert card == ModifiedCardOf(a, b, order);
  }

  // The rows of the channel's effects: the chains are compared by their plugins' names.
  method PushFxRows(rows: seq<Row>, a: Channel, b: Channel) returns (out: seq<Row>)
    ensures out == rows + FxRows(a, b)
  {
    var p, q := PluginNames(a.effects), PluginNames(b.effects);
    if a.effects == b.effects {
      NoneMissing(p, p);
      return rows;
    }
    var news := PushFxAdded(rows, p, q);
    var gone := PushFxRemoved(news, p, q);
    out := gone;
    if multiset(p) == multiset(q) && p != q {
      out := gone + [FxReordered];
    }
  }

  method PushFxAdded(rows: seq<Row>, p: seq<string>, q: seq<string>) returns (out: seq<Row>)
    ensures out == rows + AddedFx(Missing(q, p))
  {
    out := rows;
    var i := 0;
    ghost var news: seq<string> := [];
    while i < |q|
      invariant 0 <= i <= |q| && news + Missing(q[i..], p) == Missing(q, p)
      invariant out == rows + AddedFx(news)
    {
      MissingNext(q, i, p);
      if q[i] !in p {
        Rejoin(news, [q[i]], Missing(q[i + 1..], p));
        out := out + [FxAdded(q[i])];
        news := news + [q[i]];
      }
      i := i + 1;
    }
    assert news == Missing(q, p);
  }

  method PushFxRemoved(rows: seq<Row>, p: seq<string>, q: seq<string>) returns (out: seq<Row>)
    ensures out == rows + RemovedFx(Missing(p, q))
  {
    out := rows;
    var i := 0;
    ghost var gone: seq<string> := [];
    while i < |p|
      invariant 0 <= i <= |p| && gone + Missing(p[i..], q) == Missing(p, q)
      invariant out == rows + RemovedFx(gone)
    {
      MissingNext(p, i, q);
      if p[i] !in q {
        Rejoin(gone, [p[i]], Missing(p[i + 1..], q));
        out := out + [FxRemoved(p[i])];
        gone := gone + [p[i]];
      }
      i := i + 1;
    }
    assert gone == Missing(p, q);
  }

  lemma MissingNext(names: seq<string>, i: nat, others: seq<string>)
    requires i < |names|
    ensures Missing(names[i..], others) ==
            (if names[i] in others then [] else [names[i]]) + Missing(names[i + 1..], others)
  {
    assert names[i..][1..] == names[i + 1..];
  }

  lemma {:induction false} NoneMissing(names: seq<string>, others: seq<string>)
    ensures Missing(names, others) == [] <==> forall name :: name in names ==> name in others
  {
    if names != [] {
      assert names == [names[0]] + names[1..];
      NoneMissing(names[1..], others);
    }
  }

  // -------------------------------------------------------- the whole project

  const WORD: nat := 0x1_0000_0000

  function Signature(s: Snapshot): (nat, nat) {
    (Or(s.numerator, 4), Or(s.denominator, 4))
  }

  // At least one, cut to 32 bits.
  function Cut(n: nat): nat {
    (if n == 0 then 1 else n) % WORD
  }

  function ProjectChanges(a: Snapshot, b: Snapshot): seq<Change> {
    (if a.bpm != b.bpm then [Tempo(a.bpm, b.bpm)] else [])
    + (if Signature(a) != Signature(b) then [TimeSignature(Signature(a), Signature(b))] else [])
    + (if a.scale != b.scale then [Scale] else [])
    + (if a.automation != b.automation then [Automation] else [])
    + (if a.notes != b.notes then [Notes] else [])
  }

  /** A change is told when the two snapshots differ in it: the ancestor's value first, an unset meter being 4/4. */
  predicate ProjectShows(change: Change, a: Snapshot, b: Snapshot) {
    match change
    case Tempo(before, after) => before == a.bpm && after == b.bpm && before != after
    case TimeSignature(previous, present) =>
      && previous.0 == (if a.numerator.Some? then a.numerator.value else 4)
      && previous.1 == (if a.denominator.Some? then a.denominator.value else 4)
      && present.0 == (if b.numerator.Some? then b.numerator.value else 4)
      && present.1 == (if b.denominator.Some? then b.denominator.value else 4)
      && previous != present
    case Scale => a.scale != b.scale
    case Automation => a.automation != b.automation
    case Notes => a.notes != b.notes
  }

  function Rank(change: Change): nat {
    match change
    case Tempo(_, _) => 0
    case TimeSignature(_, _) => 1
    case Scale => 2
    case Automation => 3
    case Notes => 4
  }

  lemma ChangesShown(a: Snapshot, b: Snapshot)
    ensures forall change :: change in ProjectChanges(a, b) <==> ProjectShows(change, a, b)
    ensures var changes := ProjectChanges(a, b);
            forall i, j :: 0 <= i < j < |changes| ==> Rank(changes[i]) < Rank(changes[j])
  {
  }

  // The project's own changes.
  method CollectChanges(ancestor: Snapshot, current: Snapshot) returns (changes: seq<Change>)
    ensures changes == ProjectChanges(ancestor, current)
  {
    changes := if ancestor.bpm != current.bpm then [Tempo(ancestor.bpm, current.bpm)] else [];
    if Signature(ancestor) != Signature(current) {
      changes := changes + [TimeSignature(Signature(ancestor), Signature(current))];
    }
    if ancestor.scale != current.scale {
      changes := changes + [Scale];
    }
    if ancestor.automation != current.automation {
      changes := changes + [Automation];
    }
    if ancestor.notes != current.notes {
      changes := changes + [Notes];
    }
  }

  /** The project's own changes, and the cards of its channels. */
  method StructuredDiff(ancestor: Snapshot, current: Snapshot) returns (diff: ProjectDiff)
    ensures forall change :: change in diff.changes <==> ProjectShows(change, ancestor, current)
    ensures forall i, j :: 0 <= i < j < |diff.changes| ==> Rank(diff.changes[i]) < Rank(diff.changes[j])
    ensures diff.timeSig.0 ==
            (match current.numerator case None => 4 case Some(n) => if n == 0 then 1 else n % 0x1_0000_0000)
    ensures diff.timeSig.1 ==
            (match current.denominator case None => 4 case Some(n) => if n == 0 then 1 else n % 0x1_0000_0000)
    ensures IsDiff(diff.cards, ancestor.channels, current.channels)
  {
    var changes := CollectChanges(ancestor, current);
    ChangesShown(ancestor, current);
    var cards := DiffChannels(ancestor.channels, current.channels);
    diff := ProjectDiff(changes, (Cut(Signature(current).0), Cut(Signature(current).1)), cards);
  }
}
