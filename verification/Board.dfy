/** The board's columns, also after an optimistic status move
    (frontend/src/components/KanbanBoard.tsx:69-80, frontend/src/pages/ProjectPage.tsx:88-97). */
module Board {
  datatype Status = Todo | InProgress | InReview | Finished

  datatype Card = Card(id: nat, status: Status, position: int)

  function Filter(cards: seq<Card>, status: Status): seq<Card> {
    if cards == [] then []
    else Filter(cards[..|cards| - 1], status) + if cards[|cards| - 1].status == status then [cards[|cards| - 1]] else []
  }

  /** Where a stable sort puts one more card: after every card whose position is not greater. */
  function Place(card: Card, sorted: seq<Card>): seq<Card> {
    if sorted == [] || sorted[|sorted| - 1].position <= card.position then sorted + [card]
    else Place(card, sorted[..|sorted| - 1]) + [sorted[|sorted| - 1]]
  }

  function SortByPosition(cards: seq<Card>): seq<Card> {
    if cards == [] then [] else Place(cards[|cards| - 1], SortByPosition(cards[..|cards| - 1]))
  }

  /** A comparator that always answers 0 leaves a stable sort nothing to do. */
  function Column(cards: seq<Card>, status: Status, keepServerOrder: bool): seq<Card> {
    if keepServerOrder then Filter(cards, status) else SortByPosition(Filter(cards, status))
  }

  ghost predicate ByPosition(cards: seq<Card>) {
    forall i, j :: 0 <= i < j < |cards| ==> cards[i].position <= cards[j].position
  }

  lemma {:induction false} PlaceAdds(card: Card, sorted: seq<Card>)
    ensures multiset(Place(card, sorted)) == multiset(sorted) + multiset{card}
  {
    if sorted != [] && sorted[|sorted| - 1].position > card.position {
      assert sorted == sorted[..|sorted| - 1] + [sorted[|sorted| - 1]];
      PlaceAdds(card, sorted[..|sorted| - 1]);
    }
  }

  lemma {:induction false} PlaceKeeps(card: Card, sorted: seq<Card>)
    requires ByPosition(sorted)
    ensures ByPosition(Place(card, sorted))
  {
    if sorted != [] && sorted[|sorted| - 1].position > card.position {
      var shorter, last := sorted[..|sorted| - 1], sorted[|sorted| - 1];
      PlaceKeeps(card, shorter);
      PlaceAdds(card, shorter);
      var r := Place(card, shorter);
      forall i | 0 <= i < |r| ensures r[i].position <= last.position {
        assert r[i] in multiset(shorter) + multiset{card};
      }
    }
  }

  lemma {:induction false} SortKeeps(cards: seq<Card>)
    ensures multiset(SortByPosition(cards)) == multiset(cards) && ByPosition(SortByPosition(cards))
  {
    if cards != [] {
      assert cards == cards[..|cards| - 1] + [cards[|cards| - 1]];
      SortKeeps(cards[..|cards| - 1]);
      PlaceKeeps(cards[|cards| - 1], SortByPosition(cards[..|cards| - 1]));
      PlaceAdds(cards[|cards| - 1], SortByPosition(cards[..|cards| - 1]));
    }
  }

  lemma {:induction false} FilterCounts(cards: seq<Card>, status: Status, card: Card)
    ensures multiset(Filter(cards, status))[card] == if card.status == status then multiset(cards)[card] else 0
  {
    if cards != [] {
      assert cards == cards[..|cards| - 1] + [cards[|cards| - 1]];
      FilterCounts(cards[..|cards| - 1], status, card);
    }
  }

  /** The four columns share out the list: every card is in its own column as often as in the
      list, and in no other, in both orderings. */
  lemma ColumnsPartition(cards: seq<Card>, card: Card, status: Status, keepServerOrder: bool)
    ensures multiset(Column(cards, status, keepServerOrder))[card]
         == if card.status == status then multiset(cards)[card] else 0
  {
    FilterCounts(cards, status, card);
    SortKeeps(Filter(cards, status));
  }

  lemma {:induction false} FilterKeepsOrder(cards: seq<Card>, status: Status)
    requires ByPosition(cards)
    ensures ByPosition(Filter(cards, status))
    ensures forall c :: c in Filter(cards, status) ==> c in cards
  {
    if cards != [] {
      var shorter, last := cards[..|cards| - 1], cards[|cards| - 1];
      FilterKeepsOrder(shorter, status);
      forall c | c in Filter(shorter, status) ensures c.position <= last.position { assert c in shorter; }
    }
  }

  lemma {:induction false} SortIsIdentity(cards: seq<Card>)
    requires ByPosition(cards)
    ensures SortByPosition(cards) == cards
  {
    if cards != [] {
      var shorter, last := cards[..|cards| - 1], cards[|cards| - 1];
      SortIsIdentity(shorter);
      if shorter != [] { assert shorter[|shorter| - 1] == cards[|cards| - 2]; }
      PlaceLast(last, shorter);
      assert cards == shorter + [last];
    }
  }

  lemma PlaceLast(card: Card, sorted: seq<Card>)
    requires sorted == [] || sorted[|sorted| - 1].position <= card.position
    ensures Place(card, sorted) == sorted + [card]
  {
  }

  /** setQueryData's map over the cached items. */
  function Move(cards: seq<Card>, id: nat, status: Status): seq<Card> {
    seq(|cards|, i requires 0 <= i < |cards| => if cards[i].id == id then cards[i].(status := status) else cards[i])
  }

  /** On a list in position order, also after an optimistic move, re-sorting a column in the
      browser changes nothing. */
  lemma ResortIsIdentity(cards: seq<Card>, id: nat, status: Status, column: Status)
    requires ByPosition(cards)
    ensures Column(cards, column, false) == Filter(cards, column)
    ensures Column(Move(cards, id, status), column, false) == Filter(Move(cards, id, status), column)
  {
    FilterKeepsOrder(cards, column);
    SortIsIdentity(Filter(cards, column));
    FilterKeepsOrder(Move(cards, id, status), column);
    SortIsIdentity(Filter(Move(cards, id, status), column));
  }

  // ---------------------------------------------------------------- the order in a column

  ghost predicate Rising(indices: seq<nat>) {
    forall i, j :: 0 <= i < j < |indices| ==> indices[i] < indices[j]
  }

  function Picked(cards: seq<Card>, indices: seq<nat>): seq<Card>
    requires forall n :: 0 <= n < |indices| ==> indices[n] < |cards|
  {
    seq(|indices|, n requires 0 <= n < |indices| => cards[indices[n]])
  }

  /** The places in the list of the cards with this status, from front to back. */
  ghost predicate PlacesOf(cards: seq<Card>, status: Status, indices: seq<nat>) {
    Rising(indices) && forall k: nat :: k in indices <==> k < |cards| && cards[k].status == status
  }

  lemma PlacesNext(cards: seq<Card>, status: Status, before: seq<nat>)
    requires cards != [] && PlacesOf(cards[..|cards| - 1], status, before)
    ensures var n := |cards| - 1;
            PlacesOf(cards, status, if cards[n].status == status then before + [n] else before)
  {
    var n := |cards| - 1;
    var indices := if cards[n].status == status then before + [n] else before;
    forall k: nat ensures k in indices <==> k < |cards| && cards[k].status == status {
      assert k in indices <==> k in before || (k == n && cards[n].status == status);
    }
    forall i | 0 <= i < |before| ensures before[i] < n { assert before[i] in before; }
  }

  lemma Inside(cards: seq<Card>, status: Status, indices: seq<nat>)
    requires PlacesOf(cards, status, indices)
    ensures forall n :: 0 <= n < |indices| ==> indices[n] < |cards|
  {
    forall n | 0 <= n < |indices| ensures indices[n] < |cards| { assert indices[n] in indices; }
  }

  lemma {:induction false} FilterPicks(cards: seq<Card>, status: Status) returns (indices: seq<nat>)
    ensures PlacesOf(cards, status, indices) && forall n :: 0 <= n < |indices| ==> indices[n] < |cards|
    ensures Filter(cards, status) == Picked(cards, indices)
  {
    if cards == [] {
      indices := [];
    } else {
      var shorter, last := cards[..|cards| - 1], cards[|cards| - 1];
      var before := FilterPicks(shorter, status);
      indices := if last.status == status then before + [|shorter|] else before;
      PlacesNext(cards, status, before);
      Inside(cards, status, indices);
      assert Picked(cards, before) == Picked(shorter, before);
    }
  }

  /** The cards at one position, in the order they come. */
  function AtPosition(cards: seq<Card>, position: int): seq<Card> {
    if cards == [] then []
    else AtPosition(cards[..|cards| - 1], position)
         + if cards[|cards| - 1].position == position then [cards[|cards| - 1]] else []
  }

  lemma {:induction false} PlaceIsStable(card: Card, sorted: seq<Card>, position: int)
    requires ByPosition(sorted)
    ensures AtPosition(Place(card, sorted), position)
         == AtPosition(sorted, position) + if card.position == position then [card] else []
  {
    if sorted == [] || sorted[|sorted| - 1].position <= card.position {
      assert (sorted + [card])[..|sorted|] == sorted;
    } else {
      var shorter, last := sorted[..|sorted| - 1], sorted[|sorted| - 1];
      PlaceIsStable(card, shorter, position);
      assert (Place(card, shorter) + [last])[..|Place(card, shorter)|] == Place(card, shorter);
    }
  }

  lemma {:induction false} SortIsStable(cards: seq<Card>, position: int)
    ensures AtPosition(SortByPosition(cards), position) == AtPosition(cards, position)
  {
    if cards != [] {
      SortIsStable(cards[..|cards| - 1], position);
      SortKeeps(cards[..|cards| - 1]);
      PlaceIsStable(cards[|cards| - 1], SortByPosition(cards[..|cards| - 1]), position);
    }
  }

  /** For every list: with the server's order kept, a column shows its cards from front to back of the
      list; otherwise in position order, and cards at the same position from front to back. */
  lemma ColumnOrder(cards: seq<Card>, status: Status, position: int) returns (indices: seq<nat>)
    ensures PlacesOf(cards, status, indices) && forall n :: 0 <= n < |indices| ==> indices[n] < |cards|
    ensures Column(cards, status, true) == Picked(cards, indices)
    ensures ByPosition(Column(cards, status, false))
    ensures AtPosition(Column(cards, status, false), position) == AtPosition(Picked(cards, indices), position)
  {
    indices := FilterPicks(cards, status);
    SortKeeps(Filter(cards, status));
    SortIsStable(Filter(cards, status), position);
  }
}
