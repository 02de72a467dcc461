/**
  Flashcards and the balancing order: the cards still to learn and the cards
  already known are separated, each keeping its order, and then dealt
  alternately, a card to learn first.
 */
module FlashcardAlgorithm {

  datatype Status = NeedToLearn | AlreadyKnow

  datatype Card = Card(question: string, answer: string, status: Status)

  /** `cards.filter(card => card.status === s)`. */
  function Filter(cards: seq<Card>, s: Status): (r: seq<Card>)
    ensures |r| <= |cards|
  {
    if cards == [] then []
    else (if cards[0].status == s then [cards[0]] else []) + Filter(cards[1..], s)
  }

  /** Every card a filter keeps has the status filtered for. */
  lemma {:induction false} FilterStatus(cards: seq<Card>, s: Status)
    ensures forall i :: 0 <= i < |Filter(cards, s)| ==> Filter(cards, s)[i].status == s
  {
    if cards != [] {
      FilterStatus(cards[1..], s);
      var head := if cards[0].status == s then [cards[0]] else [];
      assert Filter(cards, s) == head + Filter(cards[1..], s);
    }
  }

  /** The two groups dealt one for one, `a` first; what is left of the longer
      group follows in order. */
  function Interleave(a: seq<Card>, b: seq<Card>): (r: seq<Card>)
    ensures |r| == |a| + |b|
    decreases |a| + |b|
  {
    if a == [] then b
    else if b == [] then a
    else [a[0], b[0]] + Interleave(a[1..], b[1..])
  }

  /** Interleaving loses and adds no card. */
  lemma {:induction false} InterleavePermutes(a: seq<Card>, b: seq<Card>)
    ensures multiset(Interleave(a, b)) == multiset(a) + multiset(b)
    decreases |a| + |b|
  {
    if a != [] && b != [] {
      InterleavePermutes(a[1..], b[1..]);
      assert a == [a[0]] + a[1..] && b == [b[0]] + b[1..];
    }
  }

  /** `balanceFlashcards`. */
  function Balance(cards: seq<Card>): (r: seq<Card>)
    ensures |r| == |cards|
    ensures multiset(r) == multiset(cards)
    ensures Filter(r, NeedToLearn) == Filter(cards, NeedToLearn)
    ensures Filter(r, AlreadyKnow) == Filter(cards, AlreadyKnow)
  {
    var need := Filter(cards, NeedToLearn);
    var know := Filter(cards, AlreadyKnow);
    FilterPartition(cards);
    FilterPermutes(cards);
    FilterStatus(cards, NeedToLearn);
    FilterStatus(cards, AlreadyKnow);
    FilterInterleave(need, know);
    InterleavePermutes(need, know);
    Interleave(need, know)
  }

  lemma {:induction false} FilterAppend(a: seq<Card>, b: seq<Card>, s: Status)
    ensures Filter(a + b, s) == Filter(a, s) + Filter(b, s)
  {
    if a != [] {
      assert (a + b)[0] == a[0];
      assert (a + b)[1..] == a[1..] + b;
      FilterAppend(a[1..], b, s);
      assert Filter(a, s) == (if a[0].status == s then [a[0]] else []) + Filter(a[1..], s);
    } else {
      assert a + b == b;
    }
  }

  /** The two filters split the input: every card lands in exactly one group. */
  lemma {:induction false} FilterPartition(cards: seq<Card>)
    ensures |Filter(cards, NeedToLearn)| + |Filter(cards, AlreadyKnow)| == |cards|
  {
    if cards != [] {
      FilterPartition(cards[1..]);
    }
  }

  /** Together the two groups hold each card exactly as often as the input. */
  lemma {:induction false} FilterPermutes(cards: seq<Card>)
    ensures multiset(Filter(cards, NeedToLearn)) + multiset(Filter(cards, AlreadyKnow)) == multiset(cards)
  {
    if cards != [] {
      var c, rest := cards[0], cards[1..];
      FilterPermutes(rest);
      assert Filter(cards, NeedToLearn) == (if c.status == NeedToLearn then [c] else []) + Filter(rest, NeedToLearn);
      assert Filter(cards, AlreadyKnow) == (if c.status == AlreadyKnow then [c] else []) + Filter(rest, AlreadyKnow);
      assert cards == [c] + rest;
    }
  }

  /** A group whose cards all have status `s` is its own `s`-filter, and its
      filter by the other status is empty. */
  lemma {:induction false} FilterUniform(cards: seq<Card>, s: Status)
    requires forall i :: 0 <= i < |cards| ==> cards[i].status == s
    ensures Filter(cards, s) == cards
    ensures forall t :: t != s ==> Filter(cards, t) == []
  {
    if cards != [] {
      FilterUniform(cards[1..], s);
    }
  }

  /** Filtering a need card, a known card and then `rest`. */
  lemma {:induction false} FilterPair(x: Card, y: Card, rest: seq<Card>)
    requires x.status == NeedToLearn && y.status == AlreadyKnow
    ensures Filter([x, y] + rest, NeedToLearn) == [x] + Filter(rest, NeedToLearn)
    ensures Filter([x, y] + rest, AlreadyKnow) == [y] + Filter(rest, AlreadyKnow)
  {
    var z := [x, y] + rest;
    assert z[0] == x && z[1..] == [y] + rest;
    assert z[1..][0] == y && z[1..][1..] == rest;
  }

  /** Filtering an interleaving of the two groups gives each group back. */
  lemma {:induction false} FilterInterleave(need: seq<Card>, know: seq<Card>)
    requires forall i :: 0 <= i < |need| ==> need[i].status == NeedToLearn
    requires forall i :: 0 <= i < |know| ==> know[i].status == AlreadyKnow
    ensures Filter(Interleave(need, know), NeedToLearn) == need
    ensures Filter(Interleave(need, know), AlreadyKnow) == know
    decreases |need| + |know|
  {
    if need == [] {
      assert Interleave(need, know) == know;
      FilterUniform(know, AlreadyKnow);
    } else if know == [] {
      assert Interleave(need, know) == need;
      FilterUniform(need, NeedToLearn);
    } else {
      var r := Interleave(need[1..], know[1..]);
      assert Interleave(need, know) == [need[0], know[0]] + r;
      FilterInterleave(need[1..], know[1..]);
      FilterPair(need[0], know[0], r);
      assert need == [need[0]] + need[1..];
      assert know == [know[0]] + know[1..];
    }
  }

  function Min(x: nat, y: nat): nat {
    if x < y then x else y
  }

  /** While both groups last, position `2i` holds `a[i]` and position
      `2i+1` holds `b[i]`. */
  predicate Paired(r: seq<Card>, a: seq<Card>, b: seq<Card>)
    requires |r| == |a| + |b|
  {
    forall i :: 0 <= i < Min(|a|, |b|) ==> r[2 * i] == a[i] && r[2 * i + 1] == b[i]
  }

  /** The balanced order described position by position: the pairs, then what
      remains of the longer group. */
  predicate Dealt(r: seq<Card>, a: seq<Card>, b: seq<Card>) {
    var m := Min(|a|, |b|);
    && |r| == |a| + |b|
    && Paired(r, a, b)
    && r[2 * m..] == a[m..] + b[m..]
  }

  lemma {:induction false} PairedStep(x: Card, y: Card, a: seq<Card>, b: seq<Card>, r: seq<Card>)
    requires |r| == |a| + |b| && Paired(r, a, b)
    ensures Paired([x, y] + r, [x] + a, [y] + b)
  {
    var r', a', b' := [x, y] + r, [x] + a, [y] + b;
    forall i | 0 <= i < Min(|a'|, |b'|)
      ensures r'[2 * i] == a'[i] && r'[2 * i + 1] == b'[i]
    {
      if i > 0 {
        assert r'[2 * i] == r[2 * (i - 1)];
        assert r'[2 * i + 1] == r[2 * (i - 1) + 1];
      }
    }
  }

  lemma {:induction false} DealtStep(x: Card, y: Card, a: seq<Card>, b: seq<Card>, r: seq<Card>)
    requires Dealt(r, a, b)
    ensures Dealt([x, y] + r, [x] + a, [y] + b)
  {
    PairedStep(x, y, a, b, r);
    var m := Min(|a|, |b|);
    assert ([x, y] + r)[2 * (m + 1)..] == r[2 * m..];
    assert ([x] + a)[m + 1..] == a[m..];
    assert ([y] + b)[m + 1..] == b[m..];
  }

  /** With one group empty, the other is dealt as it stands. */
  lemma {:induction false} DealtAlone(a: seq<Card>, b: seq<Card>)
    requires a == [] || b == []
    ensures Dealt(a + b, a, b)
  {
    assert Min(|a|, |b|) == 0;
    assert (a + b)[0..] == a[0..] + b[0..];
  }

  lemma {:induction false} InterleaveDealt(a: seq<Card>, b: seq<Card>)
    ensures Dealt(Interleave(a, b), a, b)
    decreases |a| + |b|
  {
    if a == [] || b == [] {
      assert Interleave(a, b) == a + b;
      DealtAlone(a, b);
    } else {
      var r := Interleave(a[1..], b[1..]);
      assert Interleave(a, b) == [a[0], b[0]] + r;
      InterleaveDealt(a[1..], b[1..]);
      DealtStep(a[0], b[0], a[1..], b[1..], r);
      assert [a[0]] + a[1..] == a && [b[0]] + b[1..] == b;
    }
  }

  /** `Balance` deals the two groups as `Dealt` describes. */
  lemma {:induction false} BalanceDealt(cards: seq<Card>)
    ensures Dealt(Balance(cards), Filter(cards, NeedToLearn), Filter(cards, AlreadyKnow))
  {
    InterleaveDealt(Filter(cards, NeedToLearn), Filter(cards, AlreadyKnow));
  }

  /** When every card has the same status the order is left as it was. */
  lemma {:induction false} BalanceUniform(cards: seq<Card>, s: Status)
    requires forall i :: 0 <= i < |cards| ==> cards[i].status == s
    ensures Balance(cards) == cards
  {
    FilterUniform(cards, s);
  }

  /** Balancing a balanced order changes nothing. */
  lemma {:induction false} BalanceIdempotent(cards: seq<Card>)
    ensures Balance(Balance(cards)) == Balance(cards)
  {
  }

  /** If any card is still to learn, the balanced order starts with one. */
  lemma {:induction false} BalanceStartsWithNeed(cards: seq<Card>)
    requires exists i :: 0 <= i < |cards| && cards[i].status == NeedToLearn
    ensures Balance(cards)[0].status == NeedToLearn
  {
    var i :| 0 <= i < |cards| && cards[i].status == NeedToLearn;
    FilterMember(cards, i);
    FilterStatus(cards, NeedToLearn);
  }

  lemma {:induction false} FilterMember(cards: seq<Card>, i: nat)
    requires i < |cards|
    ensures cards[i] in Filter(cards, cards[i].status)
  {
    if i > 0 {
      FilterMember(cards[1..], i - 1);
    }
  }
}
