/** Which cards a structured diff has: one for each channel with something to show, and no other. */
module ClipCards {
  import opened Json
  import opened ClipDiff
  import opened ClipRules

  // ------------------------------------------------------------------ what a card is

  /** The card of a matched channel: its present name, what it counts, and exactly the rows there are. */
  ghost predicate IsCardOf(card: Card, a: Channel, b: Channel) {
    && card.name == Called(b.name, "Untitled") && card.status == Modify
    && card.added == Newcomers(b.clips, a.clips) && card.removed == Newcomers(a.clips, b.clips)
    && (exists ids :: AreChanged(ids, a, b) && card.modified == |ids|)
    && forall row :: row in card.rows <==> Shows(row, a, b)
  }

  /** The card of a channel only one side has: a row, and one counted, for each of its clips in turn. */
  ghost predicate IsCardOfOne(card: Card, channel: Channel, status: Status) {
    && card.name == Called(channel.name, "Untitled") && card.status == status && card.modified == 0
    && card.added == (if status == Add then |channel.clips| else 0)
    && card.removed == (if status == Add then 0 else |channel.clips|)
    && |card.rows| == |channel.clips|
    && forall i :: 0 <= i < |channel.clips| ==> IsRowOf(card.rows[i], channel.clips[i], status)
  }

  ghost predicate IsRowOf(row: Row, clip: Clip, status: Status) {
    if status == Add then
      row == Added(Called(clip.name, "Untitled clip"), if clip.position.Some? then clip.position.value else 0.0)
    else
      row == Removed(Called(clip.name, "Untitled clip"))
  }

  lemma CardIs(card: Card, a: Channel, b: Channel)
    requires IsModifiedCard(card, a, b)
    ensures IsCardOf(card, a, b)
  {
    var ids := CardCountsExactly(card, a, b);
    forall row ensures row in card.rows <==> Shows(row, a, b) {
      CardRowsExactly(row, card, a, b);
    }
  }

  lemma RowIs(clip: Clip, status: Status)
    ensures IsRowOf(if status == Add then AddedRow(clip) else RemovedRow(clip), clip, status)
  {
  }

  lemma CardOfOneIs(channel: Channel, status: Status)
    requires status != Modify
    ensures IsCardOfOne(WithClips(Blank(channel, status), channel.clips, status), channel, status)
  {
    var rows := RowsOf(channel.clips, status);
    assert [] + rows == rows;
    forall i | 0 <= i < |channel.clips| ensures IsRowOf(rows[i], channel.clips[i], status) {
      RowIs(channel.clips[i], status);
    }
  }

  ghost predicate AloneChannel(c: Channel, others: seq<Channel>) {
    c.id.Some? && forall d :: d in others ==> d.id != c.id
  }

  /** The channel that counts for an id: the last one with it. */
  ghost predicate StandsChannel(channels: seq<Channel>, id: string, c: Channel) {
    exists i :: 0 <= i < |channels| && channels[i] == c && c.id == Some(id)
      && forall j :: i < j < |channels| ==> channels[j].id != Some(id)
  }

  lemma {:induction false} StandsChannelExactly(channels: seq<Channel>, id: string, c: Channel)
    ensures Get(ChannelMap(channels), id) == Some(c) <==> StandsChannel(channels, id, c)
  {
    if channels != [] {
      var last := |channels| - 1;
      StandsChannelExactly(channels[..last], id, c);
      if channels[last].id == Some(id) {
        if channels[last] == c {
          assert StandsChannel(channels, id, c);
        }
      } else {
        if i :| 0 <= i < last && channels[..last][i] == c && c.id == Some(id)
                && forall j :: i < j < last ==> channels[..last][j].id != Some(id) {
          forall j | i < j < |channels| ensures channels[j].id != Some(id) {
            assert j < last ==> channels[..last][j] == channels[j];
          }
          assert channels[i] == c;
        }
        if i :| 0 <= i < |channels| && channels[i] == c && c.id == Some(id)
                && forall j :: i < j < |channels| ==> channels[j].id != Some(id) {
          assert channels[..last][i] == c;
        }
      }
    }
  }

  ghost predicate CardOfOneAmong(card: Card, channels: seq<Channel>, others: seq<Channel>, status: Status) {
    exists c :: c in channels && AloneChannel(c, others) && IsCardOfOne(card, c, status)
  }

  lemma {:induction false} OneSidedExactly(channels: seq<Channel>, others: seq<Channel>, status: Status)
    requires status != Modify
    ensures var cards := OneSidedCardsOf(channels, ChannelIds(others), status);
            && |cards| == Loners(channels, others)
            && (forall card :: card in cards ==> CardOfOneAmong(card, channels, others, status))
            && forall c :: c in channels && AloneChannel(c, others) ==>
                 exists card :: card in cards && IsCardOfOne(card, c, status)
  {
    if channels != [] {
      OneSidedExactly(channels[1..], others, status);
      CardOfOneIs(channels[0], status);
      assert channels == [channels[0]] + channels[1..];
      var rest := OneSidedCardsOf(channels[1..], ChannelIds(others), status);
      forall card | card in rest ensures CardOfOneAmong(card, channels, others, status) {
        var c :| c in channels[1..] && AloneChannel(c, others) && IsCardOfOne(card, c, status);
        assert c in channels;
      }
      assert AloneChannel(channels[0], others) <==>
        channels[0].id.Some? && channels[0].id.value !in ChannelIds(others);
      if AloneChannel(channels[0], others) {
        var card := WithClips(Blank(channels[0], status), channels[0].clips, status);
        assert card in [card] + rest;
        assert CardOfOneAmong(card, channels, others, status);
      }
    }
  }

  /** How many of the channels are alone. */
  ghost function Loners(channels: seq<Channel>, others: seq<Channel>): nat {
    if channels == [] then 0 else (if AloneChannel(channels[0], others) then 1 else 0) + Loners(channels[1..], others)
  }

  // A matched channel that changed in a way there are words for.
  ghost predicate Speaks(a: Channel, b: Channel) {
    a != b && exists row :: Shows(row, a, b)
  }

  lemma SilentWhenDropped(a: Channel, b: Channel, card: Card)
    requires IsModifiedCard(card, a, b)
    ensures card.rows == [] <==> forall row :: !Shows(row, a, b)
  {
    forall row ensures row in card.rows <==> Shows(row, a, b) {
      CardRowsExactly(row, card, a, b);
    }
    if card.rows != [] {
      assert card.rows[0] in card.rows;
    }
  }

  // The cards one channel adds.
  ghost predicate AddsCards(shown: seq<Card>, id: string, a: map<string, Channel>, b: map<string, Channel>) {
    if id in a && id in b && Speaks(a[id], b[id]) then |shown| == 1 && IsCardOf(shown[0], a[id], b[id])
    else shown == []
  }

  lemma StepAdds(cards: seq<Card>, front: seq<Card>, id: string, a: map<string, Channel>, b: map<string, Channel>)
    returns (shown: seq<Card>)
    requires MatchedStep(cards, front, id, a, b)
    ensures cards == front + shown && AddsCards(shown, id, a, b)
  {
    shown := [];
    assert front + [] == front;
    if id in a && id in b && a[id] != b[id] {
      if cards == front && Dropped(a[id], b[id]) {
        var card :| IsModifiedCard(card, a[id], b[id]) && card.rows == [];
        SilentWhenDropped(a[id], b[id], card);
      } else {
        var card :| cards == front + [card] && IsModifiedCard(card, a[id], b[id]) && card.rows != [];
        shown := [card];
        SilentWhenDropped(a[id], b[id], card);
        CardIs(card, a[id], b[id]);
      }
    }
  }

  lemma LastStep(cards: seq<Card>, order: seq<string>, a: map<string, Channel>, b: map<string, Channel>)
    returns (front: seq<Card>, shown: seq<Card>)
    requires order != [] && IsMatchedCards(cards, order, a, b)
    ensures cards == front + shown && IsMatchedCards(front, order[..|order| - 1], a, b)
    ensures AddsCards(shown, order[|order| - 1], a, b)
  {
    var last, less := order[|order| - 1], order[..|order| - 1];
    front := if IsMatchedCards(cards, less, a, b) && MatchedStep(cards, cards, last, a, b) then cards
             else cards[..|cards| - 1];
    shown := StepAdds(cards, front, last, a, b);
  }

  lemma OnlyShown(shown: seq<Card>, id: string, a: map<string, Channel>, b: map<string, Channel>, card: Card)
    requires AddsCards(shown, id, a, b) && card in shown
    ensures id in a && id in b && Speaks(a[id], b[id]) && IsCardOf(card, a[id], b[id])
  {
    assert shown != [] && shown[0] == card;
  }

  // The channel a card is of.
  lemma {:induction false} CardIsDue(
    cards: seq<Card>, order: seq<string>, a: map<string, Channel>, b: map<string, Channel>, card: Card)
    returns (id: string)
    requires IsMatchedCards(cards, order, a, b) && card in cards
    ensures id in order && id in a && id in b && Speaks(a[id], b[id]) && IsCardOf(card, a[id], b[id])
    decreases |order|
  {
    var front, shown := LastStep(cards, order, a, b);
    if card in front {
      id := CardIsDue(front, order[..|order| - 1], a, b, card);
    } else {
      id := order[|order| - 1];
      OnlyShown(shown, id, a, b, card);
    }
  }

  // The card of a channel.
  lemma {:induction false} ChangeHasCard(
    cards: seq<Card>, order: seq<string>, a: map<string, Channel>, b: map<string, Channel>, id: string)
    returns (card: Card)
    requires IsMatchedCards(cards, order, a, b)
    requires id in order && id in a && id in b && Speaks(a[id], b[id])
    ensures card in cards && IsCardOf(card, a[id], b[id])
    decreases |order|
  {
    var front, shown := LastStep(cards, order, a, b);
    if id == order[|order| - 1] {
      card := shown[0];
    } else {
      card := ChangeHasCard(front, order[..|order| - 1], a, b, id);
    }
  }

  ghost function Spoken(order: seq<string>, a: map<string, Channel>, b: map<string, Channel>): set<string> {
    set id | id in order && id in a && id in b && Speaks(a[id], b[id])
  }

  lemma SpokenMore(less: seq<string>, last: string, a: map<string, Channel>, b: map<string, Channel>)
    requires last !in less
    ensures |Spoken(less + [last], a, b)| ==
            |Spoken(less, a, b)| + (if last in a && last in b && Speaks(a[last], b[last]) then 1 else 0)
  {
    var more: set<string> := if last in a && last in b && Speaks(a[last], b[last]) then {last} else {};
    assert Spoken(less + [last], a, b) == Spoken(less, a, b) + more;
  }

  // One card each.
  lemma {:induction false} CardsCounted(
    cards: seq<Card>, order: seq<string>, a: map<string, Channel>, b: map<string, Channel>)
    requires IsMatchedCards(cards, order, a, b) && NoRepeats(order)
    ensures |cards| == |Spoken(order, a, b)|
    decreases |order|
  {
    if order != [] {
      var last, less := order[|order| - 1], order[..|order| - 1];
      assert order == less + [last] && last !in less;
      var front, shown := LastStep(cards, order, a, b);
      CardsCounted(front, less, a, b);
      SpokenMore(less, last, a, b);
    }
  }

  // A pair of matched channels that changed in a way there are words for.
  ghost predicate Speaking(ancestor: seq<Channel>, current: seq<Channel>, id: string, a: Channel, b: Channel) {
    StandsChannel(ancestor, id, a) && StandsChannel(current, id, b) && Speaks(a, b)
  }

  /** Every card is that of a channel only one side has, or of a matched one with something to say. */
  ghost predicate EveryCardIsDue(cards: seq<Card>, ancestor: seq<Channel>, current: seq<Channel>) {
    forall card :: card in cards ==>
      || CardOfOneAmong(card, current, ancestor, Add)
      || CardOfOneAmong(card, ancestor, current, Remove)
      || exists id, a, b :: Speaking(ancestor, current, id, a, b) && IsCardOf(card, a, b)
  }

  /** Every such channel has its card. */
  ghost predicate EveryChangeHasCard(cards: seq<Card>, ancestor: seq<Channel>, current: seq<Channel>) {
    && (forall c :: c in current && AloneChannel(c, ancestor) ==>
          exists card :: card in cards && IsCardOfOne(card, c, Add))
    && (forall c :: c in ancestor && AloneChannel(c, current) ==>
          exists card :: card in cards && IsCardOfOne(card, c, Remove))
    && forall id, a, b :: Speaking(ancestor, current, id, a, b) ==>
         exists card :: card in cards && IsCardOf(card, a, b)
  }

  lemma SpeakingExactly(ancestor: seq<Channel>, current: seq<Channel>, id: string, a: Channel, b: Channel)
    ensures var (p, q) := (ChannelMap(ancestor), ChannelMap(current));
            Speaking(ancestor, current, id, a, b) <==>
            id in ChannelIds(current) && id in p && id in q && p[id] == a && q[id] == b && Speaks(a, b)
  {
    ChannelMapKeys(current);
    StandsChannelExactly(ancestor, id, a);
    StandsChannelExactly(current, id, b);
  }

  lemma CardsAreDue(cards: seq<Card>, ancestor: seq<Channel>, current: seq<Channel>)
    requires IsDiff(cards, ancestor, current)
    ensures EveryCardIsDue(cards, ancestor, current)
  {
    var order, matched :| DiffParts(cards, ancestor, current, order, matched);
    var (p, q) := (ChannelMap(ancestor), ChannelMap(current));
    OneSidedExactly(current, ancestor, Add);
    OneSidedExactly(ancestor, current, Remove);
    forall card | card in matched
      ensures exists id, a, b :: Speaking(ancestor, current, id, a, b) && IsCardOf(card, a, b)
    {
      var id := CardIsDue(matched, order, p, q, card);
      SpeakingExactly(ancestor, current, id, p[id], q[id]);
    }
  }

  lemma ChangesHaveCards(cards: seq<Card>, ancestor: seq<Channel>, current: seq<Channel>)
    requires IsDiff(cards, ancestor, current)
    ensures EveryChangeHasCard(cards, ancestor, current)
  {
    var order, matched :| DiffParts(cards, ancestor, current, order, matched);
    OneSidedExactly(current, ancestor, Add);
    OneSidedExactly(ancestor, current, Remove);
    var added := OneSidedCardsOf(current, ChannelIds(ancestor), Add);
    var removed := OneSidedCardsOf(ancestor, ChannelIds(current), Remove);
    assert forall card :: card in cards <==> card in added || card in removed || card in matched;
    forall id, a, b | Speaking(ancestor, current, id, a, b)
      ensures exists card :: card in cards && IsCardOf(card, a, b)
    {
      SpeakingExactly(ancestor, current, id, a, b);
      var card := ChangeHasCard(matched, order, ChannelMap(ancestor), ChannelMap(current), id);
    }
  }

  /**
   * The diff has one card for each channel that came, went or changed with
   * something to say, with exactly the rows its differences call for.
   */
  lemma DiffExactly(cards: seq<Card>, ancestor: seq<Channel>, current: seq<Channel>) returns (spoken: set<string>)
    requires IsDiff(cards, ancestor, current)
    ensures EveryCardIsDue(cards, ancestor, current) && EveryChangeHasCard(cards, ancestor, current)
    ensures forall id :: id in spoken <==> exists a, b :: Speaking(ancestor, current, id, a, b)
    ensures |cards| == Loners(current, ancestor) + Loners(ancestor, current) + |spoken|
  {
    CardsAreDue(cards, ancestor, current);
    ChangesHaveCards(cards, ancestor, current);
    var order, matched :| DiffParts(cards, ancestor, current, order, matched);
    OneSidedExactly(current, ancestor, Add);
    OneSidedExactly(ancestor, current, Remove);
    spoken := CountSpoken(matched, ancestor, current, order);
  }

  lemma CountSpoken(matched: seq<Card>, ancestor: seq<Channel>, current: seq<Channel>, order: seq<string>)
    returns (spoken: set<string>)
    requires Visits(order, ChannelIds(current))
    requires IsMatchedCards(matched, order, ChannelMap(ancestor), ChannelMap(current))
    ensures forall id :: id in spoken <==> exists a, b :: Speaking(ancestor, current, id, a, b)
    ensures |matched| == |spoken|
  {
    var (p, q) := (ChannelMap(ancestor), ChannelMap(current));
    CardsCounted(matched, order, p, q);
    spoken := Spoken(order, p, q);
    forall id ensures id in spoken <==> exists a, b :: Speaking(ancestor, current, id, a, b) {
      if id in spoken {
        SpeakingExactly(ancestor, current, id, p[id], q[id]);
      }
      if a, b :| Speaking(ancestor, current, id, a, b) {
        SpeakingExactly(ancestor, current, id, a, b);
      }
    }
  }
}
