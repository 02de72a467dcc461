/**
  The multiple-choice quiz. `Math.random` is replaced by explicit choices:
  `picks` are the pool indices the option loop draws, in order, and `swaps`
  are the Fisher–Yates indices, `swaps[i]` being the index drawn in `[0, i]`
  at step `i`. A finite `picks` that runs out before four options exist
  stands for the loop still drawing: the result is then `None`.
 */
module QuizGenerator {
  import opened Wrappers
  import opened FlashcardAlgorithm

  /** The number of options every question shows. */
  const OptionCount: nat := 4

  /** One question: the prompt and its shuffled options, `None` while the
      option loop has not finished. */
  datatype Question = Question(prompt: string, options: Option<seq<string>>)

  /** The random choices spent on one question. */
  datatype Draws = Draws(picks: seq<nat>, swaps: seq<nat>)

  /** Every answer in the pool. */
  function Answers(pool: seq<Card>): set<string> {
    set i | 0 <= i < |pool| :: pool[i].answer
  }

  predicate Distinct<T(==)>(xs: seq<T>) {
    forall i, j :: 0 <= i < j < |xs| ==> xs[i] != xs[j]
  }

  /** Each draw is `Math.floor(Math.random() * flashcards.length)`. */
  predicate ValidPicks(pool: seq<Card>, picks: seq<nat>) {
    forall k :: 0 <= k < |picks| ==> picks[k] < |pool|
  }

  /** A Fisher–Yates index sequence for an array of length `n`. */
  predicate ValidSwaps(swaps: seq<nat>, n: nat) {
    && |swaps| == n
    && forall i :: 0 <= i < n ==> swaps[i] <= i
  }

  predicate ValidDraws(pool: seq<Card>, d: Draws) {
    ValidPicks(pool, d.picks) && ValidSwaps(d.swaps, OptionCount)
  }

  /** `generateRandomOption`: the answer of the card at the drawn index. */
  function RandomOption(pool: seq<Card>, k: nat): (r: string)
    requires k < |pool|
    ensures r in Answers(pool)
  {
    pool[k].answer
  }

  /** The `while (options.length < 4)` loop: each draw is added unless it is
      already an option. */
  function FillOptions(options: seq<string>, pool: seq<Card>, picks: seq<nat>): (r: Option<seq<string>>)
    requires ValidPicks(pool, picks)
    requires |options| <= OptionCount && Distinct(options)
    ensures r.Some? ==> && |r.value| == OptionCount
                        && Distinct(r.value)
                        && options <= r.value
                        && forall k :: |options| <= k < OptionCount ==> r.value[k] in Answers(pool)
    decreases |picks|
  {
    if |options| == OptionCount then Some(options)
    else if picks == [] then None
    else
      var candidate := RandomOption(pool, picks[0]);
      FillOptions(if candidate in options then options else options + [candidate], pool, picks[1..])
  }

  function Swap<T>(a: seq<T>, i: nat, j: nat): (r: seq<T>)
    requires i < |a| && j < |a|
    ensures |r| == |a| && r[i] == a[j] && r[j] == a[i]
    ensures forall k :: 0 <= k < |a| && k != i && k != j ==> r[k] == a[k]
  {
    a[i := a[j]][j := a[i]]
  }

  /** A swap exchanges two elements and keeps every one. */
  lemma {:induction false} SwapPermutes<T>(a: seq<T>, i: nat, j: nat)
    requires i < |a| && j < |a|
    ensures multiset(Swap(a, i, j)) == multiset(a)
  {
  }

  lemma {:induction false} SwapDistinct<T>(a: seq<T>, i: nat, j: nat)
    requires i < |a| && j < |a| && Distinct(a)
    ensures Distinct(Swap(a, i, j))
  {
    var r := Swap(a, i, j);
    forall p, q | 0 <= p < q < |r|
      ensures r[p] != r[q]
    {
      var p' := if p == i then j else if p == j then i else p;
      var q' := if q == i then j else if q == j then i else q;
      assert r[p] == a[p'] && r[q] == a[q'] && p' != q';
    }
  }

  lemma {:induction false} SwapSelf<T>(a: seq<T>, i: nat)
    requires i < |a|
    ensures Swap(a, i, i) == a
  {
  }

  /** Fisher–Yates steps `i`, `i - 1`, …, `1`. */
  function ShuffleFrom<T>(a: seq<T>, swaps: seq<nat>, i: nat): (r: seq<T>)
    requires i < |a| && ValidSwaps(swaps, |a|)
    ensures |r| == |a|
    decreases i
  {
    if i == 0 then a else ShuffleFrom(Swap(a, i, swaps[i]), swaps, i - 1)
  }

  lemma {:induction false} ShuffleFromPermutes<T>(a: seq<T>, swaps: seq<nat>, i: nat)
    requires i < |a| && ValidSwaps(swaps, |a|)
    ensures multiset(ShuffleFrom(a, swaps, i)) == multiset(a)
    decreases i
  {
    if i > 0 {
      SwapPermutes(a, i, swaps[i]);
      ShuffleFromPermutes(Swap(a, i, swaps[i]), swaps, i - 1);
    }
  }

  lemma {:induction false} ShuffleFromDistinct<T>(a: seq<T>, swaps: seq<nat>, i: nat)
    requires i < |a| && ValidSwaps(swaps, |a|) && Distinct(a)
    ensures Distinct(ShuffleFrom(a, swaps, i))
    decreases i
  {
    if i > 0 {
      SwapDistinct(a, i, swaps[i]);
      ShuffleFromDistinct(Swap(a, i, swaps[i]), swaps, i - 1);
    }
  }

  /** `shuffleArray`: a permutation of its input for every choice of swaps. */
  function Shuffle<T>(a: seq<T>, swaps: seq<nat>): (r: seq<T>)
    requires ValidSwaps(swaps, |a|)
    ensures |r| == |a| && multiset(r) == multiset(a)
  {
    if |a| == 0 then a
    else
      ShuffleFromPermutes(a, swaps, |a| - 1);
      ShuffleFrom(a, swaps, |a| - 1)
  }

  /** Shuffling never brings two equal options together. */
  lemma {:induction false} ShuffleDistinct<T>(a: seq<T>, swaps: seq<nat>)
    requires ValidSwaps(swaps, |a|) && Distinct(a)
    ensures Distinct(Shuffle(a, swaps))
  {
    if |a| > 0 {
      ShuffleFromDistinct(a, swaps, |a| - 1);
    }
  }

  lemma {:induction false} ShuffleFromIdentity<T>(a: seq<T>, swaps: seq<nat>, i: nat)
    requires i < |a| && ValidSwaps(swaps, |a|)
    requires forall k :: 0 <= k < |a| ==> swaps[k] == k
    ensures ShuffleFrom(a, swaps, i) == a
    decreases i
  {
    if i > 0 {
      assert swaps[i] == i;
      SwapSelf(a, i);
      ShuffleFromIdentity(a, swaps, i - 1);
    }
  }

  /** Drawing `j == i` at every step swaps each element with itself. */
  lemma {:induction false} ShuffleIdentity<T>(a: seq<T>, swaps: seq<nat>)
    requires ValidSwaps(swaps, |a|)
    requires forall k :: 0 <= k < |a| ==> swaps[k] == k
    ensures Shuffle(a, swaps) == a
  {
    if |a| > 0 {
      ShuffleFromIdentity(a, swaps, |a| - 1);
    }
  }

  /** `generateOptions`: the correct answer and three distinct drawn answers,
      shuffled. */
  function GenerateOptions(correct: string, pool: seq<Card>, d: Draws): (r: Option<seq<string>>)
    requires ValidDraws(pool, d)
    ensures r.Some? <==> FillOptions([correct], pool, d.picks).Some?
    ensures r.Some? ==> && |r.value| == OptionCount
                        && Distinct(r.value)
                        && correct in r.value
                        && forall x :: x in r.value ==> x == correct || x in Answers(pool)
  {
    match FillOptions([correct], pool, d.picks)
    case None => None
    case Some(o) =>
      assert o[0] == correct;
      assert forall x :: x in o ==> x == correct || x in Answers(pool) by {
        forall x | x in o
          ensures x == correct || x in Answers(pool)
        {
          var k :| 0 <= k < |o| && o[k] == x;
        }
      }
      var r := Shuffle(o, d.swaps);
      ShuffleDistinct(o, d.swaps);
      assert forall x :: x in r <==> x in multiset(r);
      Some(r)
  }

  /** `generateQuiz`: one question per flashcard, in order, each with options
      drawn from the answers of the whole pool. */
  function GenerateQuiz(pool: seq<Card>, draws: seq<Draws>): (r: seq<Question>)
    requires |draws| == |pool|
    requires forall i :: 0 <= i < |pool| ==>
               ValidPicks(pool, draws[i].picks) && ValidSwaps(draws[i].swaps, OptionCount)
    ensures |r| == |pool|
    ensures forall i :: 0 <= i < |pool| ==> r[i].prompt == pool[i].question
    ensures forall i :: 0 <= i < |pool| ==>
              (r[i].options.Some? <==> FillOptions([pool[i].answer], pool, draws[i].picks).Some?)
    ensures forall i :: 0 <= i < |pool| && r[i].options.Some? ==>
              && |r[i].options.value| == OptionCount
              && Distinct(r[i].options.value)
              && pool[i].answer in r[i].options.value
              && forall x :: x in r[i].options.value ==> x in Answers(pool)
  {
    seq(|pool|, i requires 0 <= i < |pool| =>
      Question(pool[i].question, GenerateOptions(pool[i].answer, pool, draws[i])))
  }

  lemma {:induction false} DistinctCardinality<T>(xs: seq<T>)
    requires Distinct(xs)
    ensures |set x | x in xs| == |xs|
  {
    if xs != [] {
      var tail := xs[1..];
      DistinctCardinality(tail);
      assert (set x | x in xs) == (set x | x in tail) + {xs[0]};
      assert xs[0] !in tail;
    }
  }

  /** With fewer than four distinct answers in reach, no sequence of draws
      ends the option loop. */
  lemma {:induction false} FillNeedsFourAnswers(correct: string, pool: seq<Card>, picks: seq<nat>)
    requires ValidPicks(pool, picks)
    requires |Answers(pool) + {correct}| < OptionCount
    ensures FillOptions([correct], pool, picks) == None
  {
    var r := FillOptions([correct], pool, picks);
    if r.Some? {
      var o := r.value;
      DistinctCardinality(o);
      assert (set x | x in o) <= Answers(pool) + {correct} by {
        forall x | x in o
          ensures x in Answers(pool) + {correct}
        {
          var k :| 0 <= k < |o| && o[k] == x;
          assert k == 0 ==> o[k] == correct;
        }
      }
      SubsetCardinality((set x | x in o), Answers(pool) + {correct});
      assert false;
    }
  }

  lemma {:induction false} SubsetCardinality<T>(a: set<T>, b: set<T>)
    requires a <= b
    ensures |a| <= |b|
  {
    if a != {} {
      var x :| x in a;
      SubsetCardinality(a - {x}, b - {x});
    }
  }

  lemma {:induction false} PickThree(s: set<string>) returns (x1: string, x2: string, x3: string)
    requires |s| >= 3
    ensures x1 in s && x2 in s && x3 in s
    ensures x1 != x2 && x1 != x3 && x2 != x3
  {
    x1 :| x1 in s;
    assert |s - {x1}| == |s| - 1;
    x2 :| x2 in s - {x1};
    assert |s - {x1} - {x2}| == |s| - 2;
    x3 :| x3 in s - {x1} - {x2};
  }

  /** One round of the option loop that draws an answer not yet offered. */
  lemma {:induction false} FillStep(options: seq<string>, pool: seq<Card>, k: nat, rest: seq<nat>)
    requires k < |pool| && ValidPicks(pool, rest)
    requires |options| < OptionCount && Distinct(options)
    requires pool[k].answer !in options
    ensures Distinct(options + [pool[k].answer])
    ensures FillOptions(options, pool, [k] + rest) == FillOptions(options + [pool[k].answer], pool, rest)
  {
    assert ([k] + rest)[0] == k && ([k] + rest)[1..] == rest;
  }

  /** Three draws of three new, distinct answers finish the loop. */
  lemma {:induction false} FillWithThree(correct: string, pool: seq<Card>, k1: nat, k2: nat, k3: nat)
    requires k1 < |pool| && k2 < |pool| && k3 < |pool|
    requires pool[k1].answer != correct && pool[k2].answer != correct && pool[k3].answer != correct
    requires pool[k1].answer != pool[k2].answer && pool[k1].answer != pool[k3].answer
    requires pool[k2].answer != pool[k3].answer
    ensures FillOptions([correct], pool, [k1, k2, k3]).Some?
  {
    var x1, x2, x3 := pool[k1].answer, pool[k2].answer, pool[k3].answer;
    var o1, o2, o3 := [correct], [correct, x1], [correct, x1, x2];
    assert o1 + [x1] == o2 && o2 + [x2] == o3;
    FillStep(o1, pool, k1, [k2, k3]);
    FillStep(o2, pool, k2, [k3]);
    FillStep(o3, pool, k3, []);
    assert [k1] + [k2, k3] == [k1, k2, k3] && [k2] + [k3] == [k2, k3] && [k3] + [] == [k3];
    assert |o3 + [x3]| == OptionCount;
  }

  /** An answer in the pool is the answer of some card. */
  lemma {:induction false} AnswerAt(pool: seq<Card>, x: string) returns (k: nat)
    requires x in Answers(pool)
    ensures k < |pool| && pool[k].answer == x
  {
    var i :| 0 <= i < |pool| && pool[i].answer == x;
    k := i;
  }

  /** With four distinct answers in reach, some sequence of three draws ends
      the option loop. */
  lemma {:induction false} FourAnswersSuffice(correct: string, pool: seq<Card>)
    requires |Answers(pool) + {correct}| >= OptionCount
    ensures exists picks :: ValidPicks(pool, picks) && FillOptions([correct], pool, picks).Some?
  {
    var others := Answers(pool) - {correct};
    assert Answers(pool) + {correct} == others + {correct};
    var x1, x2, x3 := PickThree(others);
    var k1 := AnswerAt(pool, x1);
    var k2 := AnswerAt(pool, x2);
    var k3 := AnswerAt(pool, x3);
    FillWithThree(correct, pool, k1, k2, k3);
    assert ValidPicks(pool, [k1, k2, k3]);
  }

  /** The option loop can finish exactly when the pool together with the
      correct answer holds at least four distinct answers. */
  lemma {:induction false} OptionsReachable(correct: string, pool: seq<Card>)
    ensures (exists picks :: ValidPicks(pool, picks) && FillOptions([correct], pool, picks).Some?)
        <==> |Answers(pool) + {correct}| >= OptionCount
  {
    if |Answers(pool) + {correct}| >= OptionCount {
      FourAnswersSuffice(correct, pool);
    } else {
      forall picks | ValidPicks(pool, picks)
        ensures FillOptions([correct], pool, picks) == None
      {
        FillNeedsFourAnswers(correct, pool, picks);
      }
    }
  }

  /** A pool with fewer than four distinct answers leaves every question of
      the quiz without options, whatever the draws. */
  lemma {:induction false} SmallPoolNeverCompletes(pool: seq<Card>, draws: seq<Draws>)
    requires |draws| == |pool|
    requires forall i :: 0 <= i < |pool| ==>
               ValidPicks(pool, draws[i].picks) && ValidSwaps(draws[i].swaps, OptionCount)
    requires |Answers(pool)| < OptionCount
    ensures forall i :: 0 <= i < |pool| ==> GenerateQuiz(pool, draws)[i].options == None
  {
    forall i | 0 <= i < |pool|
      ensures GenerateQuiz(pool, draws)[i].options == None
    {
      assert pool[i].answer in Answers(pool);
      assert Answers(pool) + {pool[i].answer} == Answers(pool);
      FillNeedsFourAnswers(pool[i].answer, pool, draws[i].picks);
    }
  }
}
