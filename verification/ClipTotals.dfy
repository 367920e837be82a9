/** What the totals of a structured diff account for: clips that come and go, and clips that were modified. */
module ClipTotals {
  import opened Json
  import opened ClipDiff

  // -------------------------------------------------------------------- counts

  /** All clips of the channels whose id is not known. */
  function ClipsOfFresh(channels: seq<Channel>, known: set<string>): nat {
    if channels == [] then 0
    else
      (if channels[0].id.Some? && channels[0].id.value !in known then |channels[0].clips| else 0)
      + ClipsOfFresh(channels[1..], known)
  }

  function ClipCount(channels: seq<Channel>): nat {
    if channels == [] then 0 else |channels[0].clips| + ClipCount(channels[1..])
  }

  function ClipsAdded(a: Channel, b: Channel): nat {
    FreshClips(b.clips, ClipIds(a.clips))
  }

  function ClipsRemoved(a: Channel, b: Channel): nat {
    FreshClips(a.clips, ClipIds(b.clips))
  }

  function TotalAdded(cards: seq<Card>): nat {
    if cards == [] then 0 else TotalAdded(cards[..|cards| - 1]) + cards[|cards| - 1].added
  }

  function TotalRemoved(cards: seq<Card>): nat {
    if cards == [] then 0 else TotalRemoved(cards[..|cards| - 1]) + cards[|cards| - 1].removed
  }

  function TotalModified(cards: seq<Card>): nat {
    if cards == [] then 0 else TotalModified(cards[..|cards| - 1]) + cards[|cards| - 1].modified
  }

  lemma TotalsAppend(cards: seq<Card>, card: Card)
    ensures TotalModified(cards + [card]) == TotalModified(cards) + card.modified
    ensures TotalAdded(cards + [card]) == TotalAdded(cards) + card.added
    ensures TotalRemoved(cards + [card]) == TotalRemoved(cards) + card.removed
  {
    assert (cards + [card])[..|cards|] == cards;
  }

  // The sum over matched channels, in the order they are visited.
  function Matched(order: seq<string>, a: map<string, Channel>, b: map<string, Channel>): (int, int) {
    if order == [] then (0, 0)
    else
      var last := order[|order| - 1];
      var (added, removed) := Matched(order[..|order| - 1], a, b);
      if last in a && last in b then (added + ClipsAdded(a[last], b[last]), removed + ClipsRemoved(a[last], b[last]))
      else (added, removed)
  }

  /** Modified clips are counted once each, in whatever order they are visited; nothing else is counted. */
  lemma {:induction false} ChangesCounted(
    card: Card, order: seq<string>, a: map<string, Clip>, b: map<string, Clip>)
    requires NoRepeats(order)
    ensures var filled := WithChanges(card, order, a, b);
            && filled.status == card.status && filled.added == card.added && filled.removed == card.removed
            && card.rows <= filled.rows
            && filled.modified == card.modified + |set id | id in order && Changes(id, a, b)|
  {
    if order != [] {
      var (last, less) := (order[|order| - 1], order[..|order| - 1]);
      ChangesCounted(card, less, a, b);
      assert order == less + [last];
      var (few, all) := (set id | id in less && Changes(id, a, b), set id | id in order && Changes(id, a, b));
      assert last !in less;
      assert all == few + (if Changes(last, a, b) then {last} else {});
    }
  }

  lemma {:induction false} NoneFreshOf(clips: seq<Clip>, known: set<string>)
    requires forall c :: c in clips && c.id.Some? ==> c.id.value in known
    ensures FreshClips(clips, known) == 0
  {
    if clips != [] {
      NoneFreshOf(clips[1..], known);
    }
  }

  lemma NoneFresh(clips: seq<Clip>)
    ensures FreshClips(clips, ClipIds(clips)) == 0
  {
    NoneFreshOf(clips, ClipIds(clips));
  }

  lemma {:induction false} NoOneSided(channels: seq<Channel>, known: set<string>, status: Status)
    ensures OneSidedCardsOf(channels, known, status) == [] <==>
            forall c :: c in channels && c.id.Some? ==> c.id.value in known
  {
    if channels != [] {
      assert channels == [channels[0]] + channels[1..];
      NoOneSided(channels[1..], known, status);
    }
  }

  // What a modified card counts; a card without rows counts no clip that comes or goes.
  lemma ModifiedCounts(a: Channel, b: Channel, order: seq<string>)
    requires Visits(order, ClipIds(b.clips))
    ensures var card := ModifiedCardOf(a, b, order);
            && card.status == Modify && card.added == ClipsAdded(a, b) && card.removed == ClipsRemoved(a, b)
            && card.modified == |ChangedIds(a, b)|
            && |card.rows| >= card.added + card.removed
  {
    var added := WithClips(Blank(b, Modify).(rows := NameRows(a, b)), FreshList(b.clips, ClipIds(a.clips)), Add);
    var removed := WithClips(added, FreshList(a.clips, ClipIds(b.clips)), Remove);
    ChangesCounted(removed, order, ClipMap(a.clips), ClipMap(b.clips));
    assert (set id | id in order && Changes(id, ClipMap(a.clips), ClipMap(b.clips))) == ChangedIds(a, b);
  }

  lemma {:induction false} RowsOfChanges(
    card: Card, order: seq<string>, a: map<string, Clip>, b: map<string, Clip>)
    ensures WithChanges(card, order, a, b).rows == [] <==>
            card.rows == [] && forall id :: id in order && Changes(id, a, b) ==> Unworded(a[id], b[id])
  {
    if order != [] {
      var (last, less) := (order[|order| - 1], order[..|order| - 1]);
      RowsOfChanges(card, less, a, b);
      assert order == less + [last];
    }
  }

  /** Nothing of the channel but its clips has changed that the diff has words for. */
  ghost predicate ChannelUnworded(a: Channel, b: Channel) {
    var (p, q) := (PluginNames(a.effects), PluginNames(b.effects));
    && ChannelName(a) == ChannelName(b)
    && !Differ(a.volume, b.volume) && !Differ(a.pan, b.pan) && a.muted == b.muted && a.solo == b.solo
    && (forall name :: name in p <==> name in q) && (multiset(p) == multiset(q) ==> p == q)
    && InstrumentName(a) == InstrumentName(b)
  }

  // The clips of two versions of a channel that differ.
  ghost function ChangedIds(a: Channel, b: Channel): set<string> {
    set id | id in ClipIds(b.clips) && Changes(id, ClipMap(a.clips), ClipMap(b.clips))
  }

  /** No clip came or went, and there are no words for whatever else has changed. */
  ghost predicate Silent(a: Channel, b: Channel) {
    && ClipsAdded(a, b) == 0 && ClipsRemoved(a, b) == 0 && ChannelUnworded(a, b)
    && forall id :: id in ChangedIds(a, b) ==> Unworded(ClipMap(a.clips)[id], ClipMap(b.clips)[id])
  }

  lemma ChannelRowsNone(a: Channel, b: Channel)
    ensures NameRows(a, b) == [] && ChannelRows(a, b) == [] <==> ChannelUnworded(a, b)
  {
    NoneMissing(PluginNames(a.effects), PluginNames(b.effects));
    NoneMissing(PluginNames(b.effects), PluginNames(a.effects));
  }

  /**
   * A matched channel that changed leaves no card exactly when it is silent:
   * clips may have been modified all the same, and are then not reported.
   */
  lemma DroppedExactly(a: Channel, b: Channel, card: Card)
    requires IsModifiedCard(card, a, b)
    ensures card.rows == [] <==> Silent(a, b)
  {
    var order :| Visits(order, ClipIds(b.clips)) && card == ModifiedCardOf(a, b, order);
    ClipRowsNone(Blank(b, Modify).(rows := NameRows(a, b)), a, b, order);
    ChannelRowsNone(a, b);
  }

  lemma ClipRowsNone(card: Card, a: Channel, b: Channel, order: seq<string>)
    requires Visits(order, ClipIds(b.clips))
    ensures ClipRows(card, a, b, order).rows == [] <==>
      && card.rows == [] && ClipsAdded(a, b) == 0 && ClipsRemoved(a, b) == 0
      && forall id :: id in ChangedIds(a, b) ==> Unworded(ClipMap(a.clips)[id], ClipMap(b.clips)[id])
  {
    var added := WithClips(card, FreshList(b.clips, ClipIds(a.clips)), Add);
    var removed := WithClips(added, FreshList(a.clips, ClipIds(b.clips)), Remove);
    RowsOfChanges(removed, order, ClipMap(a.clips), ClipMap(b.clips));
    assert |removed.rows| == |card.rows| + ClipsAdded(a, b) + ClipsRemoved(a, b);
    assert forall id :: id in order && Changes(id, ClipMap(a.clips), ClipMap(b.clips)) <==> id in ChangedIds(a, b);
  }

  lemma {:induction false} TotalsConcat(p: seq<Card>, q: seq<Card>)
    ensures TotalModified(p + q) == TotalModified(p) + TotalModified(q)
    ensures TotalAdded(p + q) == TotalAdded(p) + TotalAdded(q)
    ensures TotalRemoved(p + q) == TotalRemoved(p) + TotalRemoved(q)
    decreases |q|
  {
    if q == [] {
      assert p + q == p;
    } else {
      var last := |q| - 1;
      TotalsConcat(p, q[..last]);
      assert p + q == (p + q[..last]) + [q[last]] && q == q[..last] + [q[last]];
      TotalsAppend(p + q[..last], q[last]);
      TotalsAppend(q[..last], q[last]);
    }
  }

  lemma {:induction false} OneSidedTotals(channels: seq<Channel>, known: set<string>, status: Status)
    requires status != Modify
    ensures var cards := OneSidedCardsOf(channels, known, status);
            && TotalAdded(cards) == (if status == Add then ClipsOfFresh(channels, known) else 0)
            && TotalRemoved(cards) == (if status == Remove then ClipsOfFresh(channels, known) else 0)
            && TotalModified(cards) == 0
  {
    if channels != [] {
      var card := WithClips(Blank(channels[0], status), channels[0].clips, status);
      var rest := OneSidedCardsOf(channels[1..], known, status);
      OneSidedTotals(channels[1..], known, status);
      OneSidedCounts(channels[0], status);
      TotalsConcat([card], rest);
      assert [] + rest == rest;
    }
  }

  lemma OneSidedCounts(channel: Channel, status: Status)
    requires status != Modify
    ensures var cards := [WithClips(Blank(channel, status), channel.clips, status)];
            && TotalAdded(cards) == (if status == Add then |channel.clips| else 0)
            && TotalRemoved(cards) == (if status == Remove then |channel.clips| else 0)
            && TotalModified(cards) == 0
  {
    var card := WithClips(Blank(channel, status), channel.clips, status);
    TotalsAppend([], card);
    assert [] + [card] == [card];
  }

  // What the last channel visited comes to.
  lemma LastMatched(cards: seq<Card>, order: seq<string>, a: map<string, Channel>, b: map<string, Channel>)
    returns (front: seq<Card>, shown: seq<Card>)
    requires order != [] && IsMatchedCards(cards, order, a, b)
    ensures cards == front + shown && IsMatchedCards(front, order[..|order| - 1], a, b)
    ensures StepShows(shown, order[|order| - 1], a, b)
  {
    var last, less := order[|order| - 1], order[..|order| - 1];
    front := if IsMatchedCards(cards, less, a, b) && MatchedStep(cards, cards, last, a, b) then cards
             else cards[..|cards| - 1];
    shown := StepShown(cards, front, last, a, b);
  }

  ghost predicate StepShows(shown: seq<Card>, id: string, a: map<string, Channel>, b: map<string, Channel>) {
    if id in a && id in b && !Silent(a[id], b[id]) then |shown| == 1 && Counts(shown[0], a[id], b[id]) && a[id] != b[id]
    else shown == []
  }

  lemma StepShown(cards: seq<Card>, front: seq<Card>, id: string, a: map<string, Channel>, b: map<string, Channel>)
    returns (shown: seq<Card>)
    requires MatchedStep(cards, front, id, a, b)
    ensures cards == front + shown && StepShows(shown, id, a, b)
  {
    shown := [];
    assert front + [] == front;
    if id in a && id in b {
      if a[id] == b[id] {
        SameIsSilent(a[id]);
      } else if cards == front && Dropped(a[id], b[id]) {
        DroppedIsSilent(a[id], b[id]);
      } else {
        var card :| cards == front + [card] && IsModifiedCard(card, a[id], b[id]) && card.rows != [];
        shown := [card];
        DroppedExactly(a[id], b[id], card);
        ModifiedCardCounts(card, a[id], b[id]);
      }
    }
  }

  ghost predicate Counts(card: Card, a: Channel, b: Channel) {
    card.added == ClipsAdded(a, b) && card.removed == ClipsRemoved(a, b) && card.modified == |ChangedIds(a, b)|
  }

  lemma DroppedIsSilent(a: Channel, b: Channel)
    requires Dropped(a, b)
    ensures Silent(a, b)
  {
    var card :| IsModifiedCard(card, a, b) && card.rows == [];
    DroppedExactly(a, b, card);
  }

  lemma SameIsSilent(c: Channel)
    ensures ChangedIds(c, c) == {} && Silent(c, c)
  {
    NoneFresh(c.clips);
  }

  lemma TotalsOne(front: seq<Card>, shown: seq<Card>)
    requires |shown| <= 1
    ensures TotalAdded(front + shown) == TotalAdded(front) + (if shown == [] then 0 else shown[0].added)
    ensures TotalRemoved(front + shown) == TotalRemoved(front) + (if shown == [] then 0 else shown[0].removed)
    ensures TotalModified(front + shown) == TotalModified(front) + (if shown == [] then 0 else shown[0].modified)
  {
    if shown == [] {
      assert front + shown == front;
    } else {
      assert shown == [shown[0]];
      TotalsAppend(front, shown[0]);
    }
  }

  // What one visit contributes to the totals.
  lemma ShownTotals(front: seq<Card>, shown: seq<Card>, id: string, a: map<string, Channel>, b: map<string, Channel>)
    requires StepShows(shown, id, a, b)
    ensures var both := id in a && id in b;
            && TotalAdded(front + shown) == TotalAdded(front) + (if both then ClipsAdded(a[id], b[id]) else 0)
            && TotalRemoved(front + shown) == TotalRemoved(front) + (if both then ClipsRemoved(a[id], b[id]) else 0)
            && TotalModified(front + shown) ==
               TotalModified(front) + (if both && !Silent(a[id], b[id]) then |ChangedIds(a[id], b[id])| else 0)
            && (front + shown == [] <==> front == [] && (both ==> Silent(a[id], b[id])))
  {
    TotalsOne(front, shown);
  }

  // Dropping cards without rows drops no clip that came or went.
  lemma {:induction false} MatchedTotals(
    cards: seq<Card>, order: seq<string>, a: map<string, Channel>, b: map<string, Channel>)
    requires IsMatchedCards(cards, order, a, b)
    ensures TotalAdded(cards) == Matched(order, a, b).0 && TotalRemoved(cards) == Matched(order, a, b).1
    decreases |order|
  {
    if order != [] {
      var front, shown := LastMatched(cards, order, a, b);
      MatchedTotals(front, order[..|order| - 1], a, b);
      ShownTotals(front, shown, order[|order| - 1], a, b);
    }
  }

  lemma {:induction false} SameMatched(cards: seq<Card>, order: seq<string>, a: map<string, Channel>)
    requires IsMatchedCards(cards, order, a, a)
    ensures cards == []
    decreases |order|
  {
    if order != [] {
      var front, shown := LastMatched(cards, order, a, a);
      SameMatched(front, order[..|order| - 1], a);
    }
  }

  lemma ModifiedCardCounts(card: Card, a: Channel, b: Channel)
    requires IsModifiedCard(card, a, b)
    ensures card.added == ClipsAdded(a, b) && card.removed == ClipsRemoved(a, b) && card.modified == |ChangedIds(a, b)|
    ensures |card.rows| >= card.added + card.removed
  {
    var order :| Visits(order, ClipIds(b.clips)) && card == ModifiedCardOf(a, b, order);
    ModifiedCounts(a, b, order);
  }

  predicate ClipsOnce(clips: seq<Clip>) {
    && (forall i :: 0 <= i < |clips| ==> clips[i].id.Some?)
    && forall i, j :: 0 <= i < j < |clips| ==> clips[i].id != clips[j].id
  }

  predicate ClipsIdentified(channel: Channel) {
    ClipsOnce(channel.clips)
  }

  /** Every channel has a unique id, and every clip an id unique in its channel. */
  predicate Identified(channels: seq<Channel>) {
    && (forall i :: 0 <= i < |channels| ==> channels[i].id.Some? && ClipsIdentified(channels[i]))
    && forall i, j :: 0 <= i < j < |channels| ==> channels[i].id != channels[j].id
  }

  // With unique ids, counting unknown clips is counting unknown ids.
  lemma {:induction false} FreshIsDifference(clips: seq<Clip>, known: set<string>)
    requires ClipsOnce(clips)
    ensures FreshClips(clips, known) == |ClipIds(clips) - known|
    ensures |clips| == |ClipIds(clips)|
  {
    if clips == [] {
      assert ClipIds(clips) == {};
    } else {
      var (id, rest) := (clips[0].id.value, ClipIds(clips[1..]));
      FreshIsDifference(clips[1..], known);
      FirstClipId(clips);
      DifferenceStep(id, rest, known);
    }
  }

  lemma DifferenceStep(id: string, rest: set<string>, known: set<string>)
    requires id !in rest
    ensures |{id} + rest| == 1 + |rest|
    ensures |({id} + rest) - known| == (if id in known then 0 else 1) + |rest - known|
  {
    if id in known {
      assert ({id} + rest) - known == rest - known;
    } else {
      assert ({id} + rest) - known == {id} + (rest - known);
    }
  }

  lemma FirstClipId(clips: seq<Clip>)
    requires clips != [] && ClipsOnce(clips)
    ensures ClipIds(clips) == {clips[0].id.value} + ClipIds(clips[1..])
    ensures clips[0].id.value !in ClipIds(clips[1..])
  {
    assert clips == [clips[0]] + clips[1..];
    forall c | c in clips[1..] ensures c.id != clips[0].id {
      var j :| 0 <= j < |clips[1..]| && clips[1..][j] == c;
      assert clips[j + 1] == c;
    }
  }

  /** In a matched channel, clips added less clips removed is the change in its clip count. */
  lemma ChannelConserves(a: Channel, b: Channel)
    requires ClipsIdentified(a) && ClipsIdentified(b)
    ensures ClipsAdded(a, b) - ClipsRemoved(a, b) == |b.clips| - |a.clips|
  {
    var (p, q) := (ClipIds(a.clips), ClipIds(b.clips));
    FreshIsDifference(a.clips, q);
    FreshIsDifference(b.clips, p);
    assert p - q == p - p * q && q - p == q - p * q;
  }

  // Clips per id, summed over a list of ids.
  function Weigh(ids: seq<string>, m: map<string, Channel>): nat {
    if ids == [] then 0
    else Weigh(ids[..|ids| - 1], m) + (if ids[|ids| - 1] in m then |m[ids[|ids| - 1]].clips| else 0)
  }

  lemma {:induction false} WeighWithout(ids: seq<string>, m: map<string, Channel>, k: nat)
    requires k < |ids|
    ensures Weigh(ids, m) == Weigh(ids[..k] + ids[k + 1..], m) + (if ids[k] in m then |m[ids[k]].clips| else 0)
  {
    var last := |ids| - 1;
    if k == last {
      assert ids[..k] + ids[k + 1..] == ids[..last];
    } else {
      WeighWithout(ids[..last], m, k);
      var less := ids[..k] + ids[k + 1..];
      assert less[..|less| - 1] == ids[..last][..k] + ids[..last][k + 1..];
      assert less[|less| - 1] == ids[last];
    }
  }

  lemma SomethingIn(ids: seq<string>)
    ensures ids != [] <==> exists id :: id in ids
  {
    if ids != [] {
      assert ids[0] in ids;
    }
  }

  /** The order of visiting does not matter to a sum. */
  lemma {:induction false} WeighAnyOrder(p: seq<string>, q: seq<string>, m: map<string, Channel>)
    requires NoRepeats(p) && NoRepeats(q) && forall id :: id in p <==> id in q
    ensures Weigh(p, m) == Weigh(q, m)
    decreases |p|
  {
    if p == [] {
      SomethingIn(q);
    } else {
      var last := |p| - 1;
      assert p[last] in p;
      var k :| 0 <= k < |q| && q[k] == p[last];
      var less := q[..k] + q[k + 1..];
      WeighWithout(q, m, k);
      forall id ensures id in p[..last] <==> id in less {
        if id in p[..last] {
          assert id in p && id != p[last];
          var j :| 0 <= j < |q| && q[j] == id;
          assert j != k && less[if j < k then j else j - 1] == id;
        }
        if id in less {
          assert id in q && id in p;
          var j :| 0 <= j < |p| && p[j] == id;
          assert j != last && p[..last][j] == id;
        }
      }
      WeighAnyOrder(p[..last], less, m);
    }
  }

  function IdsOf(channels: seq<Channel>): seq<string>
    requires forall i :: 0 <= i < |channels| ==> channels[i].id.Some?
  {
    seq(|channels|, i requires 0 <= i < |channels| => channels[i].id.value)
  }

  lemma {:induction false} MapHolds(channels: seq<Channel>, i: nat)
    requires Identified(channels) && i < |channels|
    ensures channels[i].id.value in ChannelMap(channels) && ChannelMap(channels)[channels[i].id.value] == channels[i]
  {
    var last := |channels| - 1;
    if i < last {
      MapHolds(channels[..last], i);
    }
  }

  lemma {:induction false} CountIsWeight(channels: seq<Channel>, m: map<string, Channel>)
    requires forall i :: 0 <= i < |channels| ==>
      channels[i].id.Some? && channels[i].id.value in m && m[channels[i].id.value] == channels[i]
    ensures ClipCount(channels) == Weigh(IdsOf(channels), m)
  {
    if channels != [] {
      CountIsWeight(channels[1..], m);
      var ids := IdsOf(channels);
      WeighWithout(ids, m, 0);
      assert ids[..0] + ids[1..] == IdsOf(channels[1..]);
    }
  }

  // The clips of unknown channels are what known ones leave over.
  lemma {:induction false} FreshAndKnown(channels: seq<Channel>, m: map<string, Channel>, known: set<string>)
    requires forall i :: 0 <= i < |channels| ==>
      channels[i].id.Some? && channels[i].id.value in m && m[channels[i].id.value] == channels[i]
    ensures ClipCount(channels) == ClipsOfFresh(channels, known) + Weigh(Among(IdsOf(channels), known), m)
  {
    if channels != [] {
      FreshAndKnown(channels[1..], m, known);
      var ids := IdsOf(channels);
      assert ids[1..] == IdsOf(channels[1..]);
      AmongFirst(ids, m, known);
    }
  }

  lemma AmongFirst(ids: seq<string>, m: map<string, Channel>, known: set<string>)
    requires ids != [] && ids[0] in m
    ensures Weigh(Among(ids, known), m) ==
            (if ids[0] in known then |m[ids[0]].clips| else 0) + Weigh(Among(ids[1..], known), m)
  {
    var (some, rest) := (Among(ids, known), Among(ids[1..], known));
    if ids[0] in known {
      assert some == [ids[0]] + rest;
      WeighWithout(some, m, 0);
      assert some[..0] + some[1..] == rest;
    } else {
      assert some == rest;
    }
  }

  function Among(ids: seq<string>, known: set<string>): seq<string> {
    if ids == [] then [] else (if ids[0] in known then [ids[0]] else []) + Among(ids[1..], known)
  }

  lemma {:induction false} AmongMembers(ids: seq<string>, known: set<string>)
    requires NoRepeats(ids)
    ensures NoRepeats(Among(ids, known))
    ensures forall id :: id in Among(ids, known) <==> id in ids && id in known
  {
    if ids != [] {
      AmongMembers(ids[1..], known);
      assert ids == [ids[0]] + ids[1..];
    }
  }

  // What the matched channels add less what they remove is their change in clips.
  lemma {:induction false} MatchedConserves(order: seq<string>, a: map<string, Channel>, b: map<string, Channel>)
    requires forall id :: id in a ==> ClipsIdentified(a[id])
    requires forall id :: id in b ==> ClipsIdentified(b[id])
    requires forall id :: id in order ==> id in a && id in b
    ensures Matched(order, a, b).0 - Matched(order, a, b).1 == Weigh(order, b) - Weigh(order, a)
  {
    if order != [] {
      var last := |order| - 1;
      assert order[last] in order && forall id :: id in order[..last] ==> id in order;
      MatchedConserves(order[..last], a, b);
      ChannelConserves(a[order[last]], b[order[last]]);
    }
  }

  lemma {:induction false} UnmatchedAddNothing(order: seq<string>, a: map<string, Channel>, b: map<string, Channel>)
    requires forall id :: id in order ==> id in b
    ensures Matched(order, a, b) == Matched(Among(order, a.Keys), a, b)
  {
    if order != [] {
      var last := |order| - 1;
      assert order == order[..last] + [order[last]] && order[last] in order;
      UnmatchedAddNothing(order[..last], a, b);
      AmongLast(order[..last], order[last], a.Keys);
      MatchedMore(order[..last], order[last], a, b);
      MatchedMore(Among(order[..last], a.Keys), order[last], a, b);
      if order[last] !in a {
        assert Among(order, a.Keys) == Among(order[..last], a.Keys);
      }
    }
  }

  lemma MatchedMore(order: seq<string>, last: string, a: map<string, Channel>, b: map<string, Channel>)
    ensures var (added, removed) := Matched(order, a, b);
            Matched(order + [last], a, b) ==
            if last in a && last in b
            then (added + ClipsAdded(a[last], b[last]), removed + ClipsRemoved(a[last], b[last]))
            else (added, removed)
  {
    assert (order + [last])[..|order|] == order;
  }

  lemma {:induction false} AmongLast(ids: seq<string>, last: string, known: set<string>)
    ensures Among(ids + [last], known) == Among(ids, known) + (if last in known then [last] else [])
  {
    if ids == [] {
      assert [last][1..] == [] && [] + [last] == [last];
    } else {
      assert (ids + [last])[1..] == ids[1..] + [last] && (ids + [last])[0] == ids[0];
      AmongLast(ids[1..], last, known);
      Rejoin(if ids[0] in known then [ids[0]] else [], Among(ids[1..], known), if last in known then [last] else []);
    }
  }

  lemma {:induction false} MapValues(channels: seq<Channel>, id: string)
    requires id in ChannelMap(channels)
    ensures ChannelMap(channels)[id] in channels
  {
    var last := |channels| - 1;
    if channels[last].id != Some(id) {
      MapValues(channels[..last], id);
    }
  }

  // The sums of a diff, for an order of visiting the matched channels.
  lemma SumsConserve(ancestor: seq<Channel>, current: seq<Channel>, order: seq<string>)
    requires Identified(ancestor) && Identified(current)
    requires NoRepeats(order) && forall id :: id in order <==> id in ChannelIds(current)
    ensures var (added, removed) := Matched(order, ChannelMap(ancestor), ChannelMap(current));
            ClipsOfFresh(current, ChannelIds(ancestor)) + added
            - (ClipsOfFresh(ancestor, ChannelIds(current)) + removed)
            == ClipCount(current) - ClipCount(ancestor)
  {
    var a, b := ChannelMap(ancestor), ChannelMap(current);
    ChannelMapKeys(ancestor);
    ChannelMapKeys(current);
    forall i | 0 <= i < |ancestor| ensures ancestor[i].id.value in a && a[ancestor[i].id.value] == ancestor[i] {
      MapHolds(ancestor, i);
    }
    forall i | 0 <= i < |current| ensures current[i].id.value in b && b[current[i].id.value] == current[i] {
      MapHolds(current, i);
    }
    FreshAndKnown(ancestor, a, b.Keys);
    FreshAndKnown(current, b, a.Keys);
    MatchedOrder(ancestor, current, order);
  }

  lemma MatchedOrder(ancestor: seq<Channel>, current: seq<Channel>, order: seq<string>)
    requires Identified(ancestor) && Identified(current)
    requires NoRepeats(order) && forall id :: id in order <==> id in ChannelIds(current)
    ensures var (a, b) := (ChannelMap(ancestor), ChannelMap(current));
            Matched(order, a, b).0 - Matched(order, a, b).1 ==
            Weigh(Among(IdsOf(current), a.Keys), b) - Weigh(Among(IdsOf(ancestor), b.Keys), a)
  {
    var (a, b) := (ChannelMap(ancestor), ChannelMap(current));
    var shared := Among(order, a.Keys);
    ChannelMapKeys(ancestor);
    ChannelMapKeys(current);
    IdsMembers(ancestor);
    IdsMembers(current);
    AmongMembers(order, a.Keys);
    AmongMembers(IdsOf(current), a.Keys);
    AmongMembers(IdsOf(ancestor), b.Keys);
    UnmatchedAddNothing(order, a, b);
    forall id | id in a ensures ClipsIdentified(a[id]) {
      MapValues(ancestor, id);
    }
    forall id | id in b ensures ClipsIdentified(b[id]) {
      MapValues(current, id);
    }
    MatchedConserves(shared, a, b);
    WeighAnyOrder(shared, Among(IdsOf(current), a.Keys), b);
    WeighAnyOrder(shared, Among(IdsOf(ancestor), b.Keys), a);
  }

  lemma IdsMembers(channels: seq<Channel>)
    requires Identified(channels)
    ensures NoRepeats(IdsOf(channels)) && forall id :: id in IdsOf(channels) <==> id in ChannelIds(channels)
  {
    forall id ensures id in IdsOf(channels) <==> id in ChannelIds(channels) {
      if id in IdsOf(channels) {
        var i :| 0 <= i < |channels| && IdsOf(channels)[i] == id;
        assert channels[i] in channels;
      }
      if id in ChannelIds(channels) {
        var c :| c in channels && c.id == Some(id);
        var i :| 0 <= i < |channels| && channels[i] == c;
        assert IdsOf(channels)[i] == id;
      }
    }
  }

  lemma DiffTotals(
    cards: seq<Card>, ancestor: seq<Channel>, current: seq<Channel>, order: seq<string>, matched: seq<Card>)
    requires DiffParts(cards, ancestor, current, order, matched)
    ensures var (added, removed) := Matched(order, ChannelMap(ancestor), ChannelMap(current));
            && TotalAdded(cards) == ClipsOfFresh(current, ChannelIds(ancestor)) + added
            && TotalRemoved(cards) == ClipsOfFresh(ancestor, ChannelIds(current)) + removed
    ensures ancestor == current ==> cards == []
  {
    var news := OneSidedCardsOf(current, ChannelIds(ancestor), Add);
    var gone := OneSidedCardsOf(ancestor, ChannelIds(current), Remove);
    OneSidedTotals(current, ChannelIds(ancestor), Add);
    OneSidedTotals(ancestor, ChannelIds(current), Remove);
    MatchedTotals(matched, order, ChannelMap(ancestor), ChannelMap(current));
    TotalsConcat(news, gone);
    TotalsConcat(news + gone, matched);
    if ancestor == current {
      SameMatched(matched, order, ChannelMap(ancestor));
      NoOneSided(current, ChannelIds(current), Add);
      NoOneSided(current, ChannelIds(current), Remove);
    }
  }

  /**
   * Clips added less clips removed is the change in the number of clips,
   * whatever order the matched channels were visited in.
   */
  lemma ClipConservation(cards: seq<Card>, ancestor: seq<Channel>, current: seq<Channel>)
    requires Identified(ancestor) && Identified(current) && IsDiff(cards, ancestor, current)
    ensures TotalAdded(cards) - TotalRemoved(cards) == ClipCount(current) - ClipCount(ancestor)
  {
    var order, matched :| DiffParts(cards, ancestor, current, order, matched);
    DiffTotals(cards, ancestor, current, order, matched);
    SumsConserve(ancestor, current, order);
  }

  /** A snapshot does not differ from itself. */
  lemma SameHasNoCards(cards: seq<Card>, x: seq<Channel>)
    requires IsDiff(cards, x, x)
    ensures cards == []
  {
    var order, matched :| DiffParts(cards, x, x, order, matched);
    DiffTotals(cards, x, x, order, matched);
  }

  // ----------------------------------------------------------- modified clips

  /** Every clip both snapshots have in a channel both have, and in which it differs. */
  ghost function Differing(a: map<string, Channel>, b: map<string, Channel>): set<(string, string)> {
    DifferingOf(a.Keys * b.Keys, a, b)
  }

  ghost function DifferingOf(ids: set<string>, a: map<string, Channel>, b: map<string, Channel>): set<(string, string)>
    requires ids <= a.Keys * b.Keys
  {
    set id, clip | id in ids && clip in ChangedIds(a[id], b[id]) :: (id, clip)
  }

  ghost function InChannel(id: string, clips: set<string>): set<(string, string)> {
    set clip | clip in clips :: (id, clip)
  }

  lemma {:induction false} InChannelSize(id: string, clips: set<string>)
    ensures |InChannel(id, clips)| == |clips|
    decreases |clips|
  {
    if clips == {} {
      assert InChannel(id, clips) == {};
    } else {
      var clip :| clip in clips;
      InChannelSize(id, clips - {clip});
      assert InChannel(id, clips) == InChannel(id, clips - {clip}) + {(id, clip)};
    }
  }

  lemma OneChannelMore(ids: set<string>, id: string, a: map<string, Channel>, b: map<string, Channel>)
    requires ids + {id} <= a.Keys * b.Keys && id !in ids
    ensures |DifferingOf(ids + {id}, a, b)| == |DifferingOf(ids, a, b)| + |ChangedIds(a[id], b[id])|
  {
    var these := InChannel(id, ChangedIds(a[id], b[id]));
    InChannelSize(id, ChangedIds(a[id], b[id]));
    assert DifferingOf(ids + {id}, a, b) == DifferingOf(ids, a, b) + these;
    assert DifferingOf(ids, a, b) !! these;
  }

  // The matched channels among those visited.
  ghost function Visited(order: seq<string>, a: map<string, Channel>, b: map<string, Channel>): set<string> {
    set id | id in order && id in a && id in b
  }

  // The modified clips of channels that leave no card.
  ghost function Unreported(order: seq<string>, a: map<string, Channel>, b: map<string, Channel>): nat {
    if order == [] then 0
    else
      var last := order[|order| - 1];
      Unreported(order[..|order| - 1], a, b) +
      if last in a && last in b && Silent(a[last], b[last]) then |ChangedIds(a[last], b[last])| else 0
  }

  lemma {:induction false} UnreportedNone(order: seq<string>, a: map<string, Channel>, b: map<string, Channel>)
    ensures Unreported(order, a, b) == 0 <==>
            forall id :: id in Visited(order, a, b) && Silent(a[id], b[id]) ==> ChangedIds(a[id], b[id]) == {}
  {
    if order != [] {
      var last, less := order[|order| - 1], order[..|order| - 1];
      assert order == less + [last];
      UnreportedNone(less, a, b);
      assert Visited(order, a, b) == Visited(less, a, b) + (if last in a && last in b then {last} else {});
    }
  }

  // Cards report what they do not drop.
  lemma {:induction false} MatchedModified(
    cards: seq<Card>, order: seq<string>, a: map<string, Channel>, b: map<string, Channel>)
    requires IsMatchedCards(cards, order, a, b) && NoRepeats(order)
    ensures TotalModified(cards) + Unreported(order, a, b) == |DifferingOf(Visited(order, a, b), a, b)|
    decreases |order|
  {
    if order == [] {
      assert DifferingOf({}, a, b) == {} && Visited(order, a, b) == {};
    } else {
      var last, less := order[|order| - 1], order[..|order| - 1];
      var front, shown := LastMatched(cards, order, a, b);
      MatchedModified(front, less, a, b);
      ShownTotals(front, shown, last, a, b);
      DifferingMore(order, a, b);
    }
  }

  lemma DifferingMore(order: seq<string>, a: map<string, Channel>, b: map<string, Channel>)
    requires order != [] && NoRepeats(order)
    ensures var (last, less) := (order[|order| - 1], order[..|order| - 1]);
            && NoRepeats(less)
            && |DifferingOf(Visited(order, a, b), a, b)| ==
               |DifferingOf(Visited(less, a, b), a, b)|
               + if last in a && last in b then |ChangedIds(a[last], b[last])| else 0
  {
    var last, less := order[|order| - 1], order[..|order| - 1];
    VisitedMore(order, a, b);
    if last in a && last in b {
      OneChannelMore(Visited(less, a, b), last, a, b);
    }
  }

  lemma {:induction false} NoMatchedCards(
    cards: seq<Card>, order: seq<string>, a: map<string, Channel>, b: map<string, Channel>)
    requires IsMatchedCards(cards, order, a, b) && NoRepeats(order)
    ensures cards == [] <==> forall id :: id in Visited(order, a, b) ==> Silent(a[id], b[id])
    decreases |order|
  {
    if order != [] {
      var last, less := order[|order| - 1], order[..|order| - 1];
      var front, shown := LastMatched(cards, order, a, b);
      NoMatchedCards(front, less, a, b);
      ShownTotals(front, shown, last, a, b);
      VisitedMore(order, a, b);
    }
  }

  lemma VisitedMore(order: seq<string>, a: map<string, Channel>, b: map<string, Channel>)
    requires order != [] && NoRepeats(order)
    ensures var (last, less) := (order[|order| - 1], order[..|order| - 1]);
            && NoRepeats(less) && last !in Visited(less, a, b)
            && Visited(order, a, b) ==
               if last in a && last in b then Visited(less, a, b) + {last} else Visited(less, a, b)
  {
    assert order == order[..|order| - 1] + [order[|order| - 1]];
  }

  lemma PartsModified(
    cards: seq<Card>, ancestor: seq<Channel>, current: seq<Channel>, order: seq<string>, matched: seq<Card>)
    requires DiffParts(cards, ancestor, current, order, matched)
    ensures TotalModified(cards) == TotalModified(matched)
    ensures cards == [] <==> ChannelIds(ancestor) == ChannelIds(current) && matched == []
  {
    var news := OneSidedCardsOf(current, ChannelIds(ancestor), Add);
    var gone := OneSidedCardsOf(ancestor, ChannelIds(current), Remove);
    OneSidedTotals(current, ChannelIds(ancestor), Add);
    OneSidedTotals(ancestor, ChannelIds(current), Remove);
    TotalsConcat(news, gone);
    TotalsConcat(news + gone, matched);
    NoOneSided(current, ChannelIds(ancestor), Add);
    NoOneSided(ancestor, ChannelIds(current), Remove);
  }

  /**
   * The modified clips counted are at most those that differ, and all of them
   * if and only if no channel holding one is silent.
   */
  lemma ModifiedAccounted(cards: seq<Card>, ancestor: seq<Channel>, current: seq<Channel>)
    requires IsDiff(cards, ancestor, current)
    ensures var (a, b) := (ChannelMap(ancestor), ChannelMap(current));
            && TotalModified(cards) <= |Differing(a, b)|
            && (TotalModified(cards) == |Differing(a, b)| <==>
                  forall id :: id in a && id in b && ChangedIds(a[id], b[id]) != {} ==> !Silent(a[id], b[id]))
  {
    var order, matched :| DiffParts(cards, ancestor, current, order, matched);
    var a, b := ChannelMap(ancestor), ChannelMap(current);
    PartsModified(cards, ancestor, current, order, matched);
    ChannelMapKeys(current);
    assert Visited(order, a, b) == a.Keys * b.Keys;
    MatchedModified(matched, order, a, b);
    UnreportedNone(order, a, b);
  }

  /** There is no card if and only if the channels are the same ones and every one of them is silent. */
  lemma NoCardsExactly(cards: seq<Card>, ancestor: seq<Channel>, current: seq<Channel>)
    requires IsDiff(cards, ancestor, current)
    ensures var (a, b) := (ChannelMap(ancestor), ChannelMap(current));
            cards == [] <==> a.Keys == b.Keys && forall id :: id in a && id in b ==> Silent(a[id], b[id])
  {
    var order, matched :| DiffParts(cards, ancestor, current, order, matched);
    var a, b := ChannelMap(ancestor), ChannelMap(current);
    PartsModified(cards, ancestor, current, order, matched);
    ChannelMapKeys(ancestor);
    ChannelMapKeys(current);
    assert Visited(order, a, b) == a.Keys * b.Keys;
    NoMatchedCards(matched, order, a, b);
  }

  lemma OneInMap(x: Channel)
    requires x.id.Some?
    ensures ChannelMap([x]) == map[x.id.value := x]
  {
    assert [x][..0] == [] && ChannelMap([x][..0]) == map[];
  }

  lemma OneClip(c: Clip, known: set<string>)
    requires c.id.Some? && c.id.value in known
    ensures ClipMap([c]) == map[c.id.value := c] && ClipIds([c]) == {c.id.value} && FreshClips([c], known) == 0
  {
    assert [c][..0] == [] && ClipMap([c][..0]) == map[] && [c][1..] == [];
  }

  /** Changing only the notes of a clip is a modification the diff does not report. */
  lemma NoteEditIsDropped(x: Channel, c: Clip, notes: int, cards: seq<Card>)
    requires x.id.Some? && c.id.Some? && x.clips == [c] && notes != c.rest
    requires IsDiff(cards, [x], [x.(clips := [c.(rest := notes)])])
    ensures cards == [] && TotalModified(cards) == 0
    ensures |Differing(ChannelMap([x]), ChannelMap([x.(clips := [c.(rest := notes)])]))| == 1
  {
    var d, id, clip := c.(rest := notes), x.id.value, c.id.value;
    var y := x.(clips := [d]);
    OneInMap(x);
    OneInMap(y);
    NoteEditIsSilent(x, c, notes);
    NoCardsExactly(cards, [x], [y]);
    assert Differing(ChannelMap([x]), ChannelMap([y])) == {(id, clip)};
  }

  lemma NoteEditIsSilent(x: Channel, c: Clip, notes: int)
    requires c.id.Some? && x.clips == [c] && notes != c.rest
    ensures var y := x.(clips := [c.(rest := notes)]); ChangedIds(x, y) == {c.id.value} && Silent(x, y)
  {
    var d, clip := c.(rest := notes), c.id.value;
    var y := x.(clips := [d]);
    OneClip(c, {clip});
    OneClip(d, {clip});
    assert ChangedIds(x, y) == {clip};
    assert ChannelUnworded(x, y) && Unworded(c, d);
  }
}
