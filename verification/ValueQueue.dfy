/**
 The values queued under one path of names, each to be handed out `count` times.
 */
module ValueQueue {

  // A queued record's value and its node's refcount.
  datatype Item = Item(value: int, count: int)

  // The first item has been handed out once more: -1 becomes -2, below that nothing changes.
  function Pop(q: seq<Item>): seq<Item>
    requires q != []
  {
    if q[0].count == 1 then q[1..]
    else if q[0].count > -2 then q[0 := q[0].(count := q[0].count - 1)]
    else q
  }

  // Value number k of the run-length expansion: a positive count repeats a value that often, a
  // negative one for ever.
  function Nth(q: seq<Item>, k: nat): (v: seq<int>)
    ensures |v| <= 1
  {
    if q == [] then []
    else if q[0].count < 0 || k < q[0].count then [q[0].value]
    else Nth(q[1..], k - q[0].count)
  }

  predicate NonZero(q: seq<Item>) {
    forall i :: 0 <= i < |q| ==> q[i].count != 0
  }

  // The queue after k gets.
  function After(q: seq<Item>, k: nat): seq<Item>
    decreases k
  {
    if k == 0 || q == [] then q else After(Pop(q), k - 1)
  }

  // k gets can be served.
  predicate Serves(q: seq<Item>, k: nat)
    decreases k
  {
    k == 0 || (q != [] && Serves(Pop(q), k - 1))
  }

  lemma {:induction false} NthPop(q: seq<Item>, k: nat)
    requires q != [] && NonZero(q)
    ensures NonZero(Pop(q)) && Nth(q, 0) == [q[0].value] && Nth(q, k + 1) == Nth(Pop(q), k)
  {
  }

  // The head of the queue after k gets is value number k of the expansion.
  lemma {:induction false} NthIsHead(q: seq<Item>, k: nat)
    requires NonZero(q)
    ensures Serves(q, k) ==> Nth(q, k) == if After(q, k) == [] then [] else [After(q, k)[0].value]
    decreases k
  {
    if q != [] {
      if k == 0 {
        NthPop(q, 0);
      } else {
        NthPop(q, k - 1);
        NthIsHead(Pop(q), k - 1);
      }
    }
  }

  lemma {:induction false} AfterNonZero(q: seq<Item>, k: nat)
    requires NonZero(q)
    ensures NonZero(After(q, k))
    decreases k
  {
    if k > 0 && q != [] {
      NthPop(q, 0);
      AfterNonZero(Pop(q), k - 1);
    }
  }

  // What is queued behind does not matter to the gets already served.
  lemma {:induction false} AfterAppend(q: seq<Item>, k: nat, item: Item)
    requires Serves(q, k)
    ensures Serves(q + [item], k) && After(q + [item], k) == After(q, k) + [item]
    decreases k
  {
    if k > 0 {
      assert Pop(q + [item]) == Pop(q) + [item];
      AfterAppend(Pop(q), k - 1, item);
    }
  }

  lemma {:induction false} AfterOneMore(q: seq<Item>, k: nat)
    requires Serves(q, k) && After(q, k) != []
    ensures Serves(q, k + 1) && After(q, k + 1) == Pop(After(q, k))
    decreases k
  {
    if k > 0 {
      AfterOneMore(Pop(q), k - 1);
    }
  }

  lemma {:induction false} NthAppend(q: seq<Item>, k: nat, item: Item)
    requires Nth(q, k) != []
    ensures Nth(q + [item], k) == Nth(q, k)
    decreases |q|
  {
    if q[0].count >= 0 && k >= q[0].count {
      assert (q + [item])[1..] == q[1..] + [item];
      NthAppend(q[1..], k - q[0].count, item);
    }
  }

  // ---------- Histories ----------

  datatype Put = Put(path: seq<string>, item: Item)

  datatype Answer = Answer(path: seq<string>, value: int)

  function PutsOn(puts: seq<Put>, path: seq<string>): seq<Item> {
    if puts == [] then []
    else
      var p := puts[|puts| - 1];
      PutsOn(puts[..|puts| - 1], path) + if p.path == path then [p.item] else []
  }

  function AnswersOn(answers: seq<Answer>, path: seq<string>): seq<int> {
    if answers == [] then []
    else
      var a := answers[|answers| - 1];
      AnswersOn(answers[..|answers| - 1], path) + if a.path == path then [a.value] else []
  }

  // One path's whole history: what was queued, what was handed out, and what is queued now.
  ghost predicate Faithful(queued: seq<Item>, answers: seq<int>, now: seq<Item>) {
    && NonZero(queued)
    && Serves(queued, |answers|)
    && now == After(queued, |answers|)
    && forall i :: 0 <= i < |answers| ==> Nth(queued, i) == [answers[i]]
  }

  lemma FaithfulAfterPut(queued: seq<Item>, answers: seq<int>, now: seq<Item>, item: Item)
    requires Faithful(queued, answers, now) && item.count != 0
    ensures Faithful(queued + [item], answers, now + [item])
  {
    AfterAppend(queued, |answers|, item);
    forall i | 0 <= i < |answers| ensures Nth(queued + [item], i) == [answers[i]] {
      NthAppend(queued, i, item);
    }
  }

  lemma FaithfulAfterGet(queued: seq<Item>, answers: seq<int>, now: seq<Item>)
    requires Faithful(queued, answers, now) && now != []
    ensures Faithful(queued, answers + [now[0].value], Pop(now))
  {
    NthIsHead(queued, |answers|);
    AfterOneMore(queued, |answers|);
  }

  // ---------- Leftover values ----------

  // The first item goes if it is an "always" value that has been returned at least once.
  function Trimmed(q: seq<Item>): seq<Item> {
    if q != [] && q[0].count < -1 then q[1..] else q
  }

  // A queue that does not fail the test.
  predicate Settled(q: seq<Item>) {
    q == [] || (|q| == 1 && q[0].count < -1)
  }
}
