/** The viewer's status buttons: marking one card as to-learn or known. */
module FlashcardViewer {
  import opened FlashcardAlgorithm

  /** `handleStatusChange`: the card at `index` gets `newStatus`; the list is
      otherwise the same. The source dereferences `flashcards[index]`, so an
      index outside the list is a caller error. */
  function SetStatus(cards: seq<Card>, index: nat, newStatus: Status): (r: seq<Card>)
    requires index < |cards|
    ensures |r| == |cards|
    ensures r[index].status == newStatus
    ensures r[index].question == cards[index].question
    ensures r[index].answer == cards[index].answer
    ensures forall j :: 0 <= j < |cards| && j != index ==> r[j] == cards[j]
  {
    cards[index := cards[index].(status := newStatus)]
  }

  /** Choosing the status a card already has leaves the list as it was. */
  lemma {:induction false} SetStatusUnchanged(cards: seq<Card>, index: nat)
    requires index < |cards|
    ensures SetStatus(cards, index, cards[index].status) == cards
  {
  }

  /** Pressing the same button twice is the same as pressing it once. */
  lemma {:induction false} SetStatusIdempotent(cards: seq<Card>, index: nat, newStatus: Status)
    requires index < |cards|
    ensures SetStatus(SetStatus(cards, index, newStatus), index, newStatus)
         == SetStatus(cards, index, newStatus)
  {
  }

  /** A status change moves exactly one card between the two groups that the
      balancing order deals from, or none when the status was already set. */
  lemma {:induction false} SetStatusMovesOneCard(cards: seq<Card>, index: nat, newStatus: Status)
    requires index < |cards|
    ensures var r := SetStatus(cards, index, newStatus);
      var moved := if cards[index].status == newStatus then 0 else 1;
      && |Filter(r, newStatus)| == |Filter(cards, newStatus)| + moved
      && |Filter(r, cards[index].status)| + moved == |Filter(cards, cards[index].status)|
  {
    var r := SetStatus(cards, index, newStatus);
    var front, back := cards[..index], cards[index + 1..];
    assert cards == front + [cards[index]] + back;
    assert r == front + [r[index]] + back;
    forall s: Status
      ensures Filter(cards, s) == Filter(front, s) + Filter([cards[index]], s) + Filter(back, s)
      ensures Filter(r, s) == Filter(front, s) + Filter([r[index]], s) + Filter(back, s)
    {
      FilterAppend(front + [cards[index]], back, s);
      FilterAppend(front, [cards[index]], s);
      FilterAppend(front + [r[index]], back, s);
      FilterAppend(front, [r[index]], s);
    }
  }
}
