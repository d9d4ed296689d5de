/**
 cmocka's call-order checker. expect_function_call queues (function, count); function_called
 walks the circular list. A count below -1 marks an entry that may be skipped; -1 demands one
 call and then becomes skippable.
 */
module CallOrder {
  import opened CircularList

  datatype Expectation = Expectation(function_: string, count: int)

  // The checker's answer to one call: go on, fail the test, or dereference the sentinel's NULL value.
  datatype Verdict = Accepted | Rejected | Crashed

  predicate Skippable(e: Expectation) {
    e.count < -1
  }

  // ---------- The checker on sequences ----------

  // Length of the longest prefix of skippable entries for other functions.
  function Skipped(q: seq<Expectation>, f: string): (k: nat)
    ensures k <= |q|
    ensures forall i :: 0 <= i < k ==> Skippable(q[i]) && q[i].function_ != f
    ensures k < |q| ==> !Skippable(q[k]) || q[k].function_ == f
  {
    if q == [] || !Skippable(q[0]) || q[0].function_ == f then 0 else 1 + Skipped(q[1..], f)
  }

  // An entry that has been matched once more.
  function Consume(q: seq<Expectation>, k: nat): seq<Expectation>
    requires k < |q|
  {
    if Skippable(q[k]) then q
    else if q[k].count == 1 then q[..k] + q[k + 1..]
    else q[k := q[k].(count := q[k].count - 1)]
  }

  // Skip the longest skippable prefix, then match or fail.
  function Called(q: seq<Expectation>, f: string): (Verdict, seq<Expectation>) {
    var k := Skipped(q, f);
    if k == 1 == |q| then (Crashed, q)
    else if k == |q| || q[k].function_ != f then (Rejected, q)
    else (Accepted, Consume(q, k))
  }

  // ---------- The checker on the linked list ----------

  ghost predicate IsOrderList(head: ListNode<string>, nodes: seq<ListNode<string>>)
    reads head, nodes
  {
    && Ring(head, nodes)
    && head.value == Null && head.refcount == 1
    && forall i {:trigger nodes[i].value} :: 0 <= i < |nodes| ==> nodes[i].value.To?
  }

  ghost function Entries(head: ListNode<string>, nodes: seq<ListNode<string>>): (q: seq<Expectation>)
    requires IsOrderList(head, nodes)
    reads head, nodes
    ensures |q| == |nodes|
    ensures forall i :: 0 <= i < |q| ==> q[i] == Expectation(nodes[i].value.target, nodes[i].refcount)
  {
    seq(|nodes|, i requires 0 <= i < |nodes| && nodes[i].value.To? reads nodes =>
      Expectation(nodes[i].value.target, nodes[i].refcount))
  }

  // _expect_function_call
  method ExpectFunctionCall(head: ListNode<string>, f: string, count: int, ghost nodes: seq<ListNode<string>>)
    returns (node: ListNode<string>)
    requires IsOrderList(head, nodes) && count != 0
    modifies head, NodeSet(nodes)
    ensures fresh(node) && IsOrderList(head, nodes + [node])
    ensures Entries(head, nodes + [node]) == old(Entries(head, nodes)) + [Expectation(f, count)]
  {
    node := new ListNode<string>.Unlinked(f, count);
    ListAdd(head, node, nodes);
  }

  lemma {:induction false} SkippedIs(q: seq<Expectation>, f: string, k: nat)
    requires k <= |q|
    requires forall i :: 0 <= i < k ==> Skippable(q[i]) && q[i].function_ != f
    requires k < |q| ==> !Skippable(q[k]) || q[k].function_ == f
    ensures Skipped(q, f) == k
    decreases k
  {
  }

  // The search part of _function_called: the node it settles on, or the verdict that ends the test.
  method Search(head: ListNode<string>, f: string, ghost nodes: seq<ListNode<string>>)
    returns (verdict: Verdict, node: ListNode<string>, ghost k: nat)
    requires IsOrderList(head, nodes)
    ensures k == Skipped(Entries(head, nodes), f)
    ensures verdict == Called(Entries(head, nodes), f).0
    ensures verdict.Accepted? ==> k < |nodes| && node == nodes[k]
  {
    ghost var q := Entries(head, nodes);
    k := 0;
    if head.next == head {
      return Rejected, head, 0;
    }
    var first := head.next;
    node := first;
    var cmp := node.value.target == f;
    if node.refcount < -1 && !cmp {
      node := node.next;
      k := 1;
      if node.value == Null {
        SkippedIs(q, f, 1);
        return Crashed, node, 1;
      }
      cmp := node.value.target == f;
      while node.refcount < -1 && !cmp && node != first.prev
        invariant 1 <= k <= |nodes| && node == At(head, nodes, k) && |nodes| >= 2
        invariant forall i :: 0 <= i < k ==> Skippable(q[i]) && q[i].function_ != f
        invariant k < |nodes| ==> cmp == (node.value.target == f)
        decreases |nodes| - k
      {
        node := node.next;
        k := k + 1;
        if node.value.To? {
          cmp := node.value.target == f;
        }
      }
      SkippedIs(q, f, k);
      if node == first.prev {
        return Rejected, node, k;
      }
    } else {
      SkippedIs(q, f, 0);
    }
    return if cmp then Accepted else Rejected, node, k;
  }

  // list_remove_free on an entry.
  method Unlink(head: ListNode<string>, node: ListNode<string>, ghost nodes: seq<ListNode<string>>, ghost k: nat)
    requires IsOrderList(head, nodes) && k < |nodes| && node == nodes[k]
    modifies head, NodeSet(nodes)
    ensures NodeSet(Without(nodes, k)) <= NodeSet(nodes) && IsOrderList(head, Without(nodes, k))
    ensures Entries(head, Without(nodes, k)) == old(Without(Entries(head, nodes), k))
    ensures node.next == old(node.next)
  {
    ghost var q := Entries(head, nodes);
    ghost var nodes' := Without(nodes, k);
    assert forall i :: 0 <= i < |nodes'| ==> nodes'[i] == nodes[if i < k then i else i + 1];
    ListRemove(node, head, nodes, k);
    forall i | 0 <= i < |nodes'| ensures nodes'[i].value.To? && Expectation(nodes'[i].value.target, nodes'[i].refcount) == Without(q, k)[i] {
      assert nodes'[i].value == old(nodes'[i].value);
    }
  }

  // The end of _function_called: count the match, and unlink the entry when its count is used up.
  method CountMatch(head: ListNode<string>, node: ListNode<string>, ghost nodes: seq<ListNode<string>>, ghost k: nat)
    returns (ghost nodes': seq<ListNode<string>>)
    requires IsOrderList(head, nodes) && k < |nodes| && node == nodes[k]
    modifies head, NodeSet(nodes)
    ensures NodeSet(nodes') <= NodeSet(nodes) && IsOrderList(head, nodes')
    ensures Entries(head, nodes') == old(Consume(Entries(head, nodes), k))
  {
    ghost var q := Entries(head, nodes);
    nodes' := nodes;
    if node.refcount > -2 {
      node.refcount := node.refcount - 1;
      assert Entries(head, nodes) == q[k := q[k].(count := q[k].count - 1)];
      if node.refcount == 0 {
        Unlink(head, node, nodes, k);
        nodes' := Without(nodes, k);
        assert Entries(head, nodes') == Without(q, k);
      }
    } else {
      assert Entries(head, nodes) == q;
    }
  }

  // _function_called
  method FunctionCalled(head: ListNode<string>, f: string, ghost nodes: seq<ListNode<string>>)
    returns (verdict: Verdict, ghost nodes': seq<ListNode<string>>)
    requires IsOrderList(head, nodes)
    modifies head, NodeSet(nodes)
    ensures NodeSet(nodes') <= NodeSet(nodes) && IsOrderList(head, nodes')
    ensures (verdict, Entries(head, nodes')) == old(Called(Entries(head, nodes), f))
  {
    var node: ListNode<string>;
    ghost var k: nat;
    verdict, node, k := Search(head, f, nodes);
    nodes' := nodes;
    if verdict.Accepted? {
      nodes' := CountMatch(head, node, nodes, k);
    }
  }

  // ---------- The check at the end of a test ----------

  // The entries that still demand a call.
  function Required(q: seq<Expectation>): seq<Expectation> {
    if q == [] then []
    else (if Skippable(q[0]) then [] else [q[0]]) + Required(q[1..])
  }

  lemma SplitFirst(kept: seq<Expectation>, rest: seq<Expectation>)
    requires rest != []
    ensures Without(kept + rest, |kept|) == kept + rest[1..]
    ensures kept + rest == kept + [rest[0]] + rest[1..]
  {
  }

  // One turn of the loop below: `kept` has been walked over, and `current` carries rest[0].
  method VisitEntry(head: ListNode<string>, current: ListNode<string>, ghost nodes: seq<ListNode<string>>,
                    ghost kept: seq<Expectation>, ghost rest: seq<Expectation>)
    returns (next: ListNode<string>, ghost nodes': seq<ListNode<string>>, ghost kept': seq<Expectation>)
    requires IsOrderList(head, nodes) && Entries(head, nodes) == kept + rest && rest != []
    requires current == nodes[|kept|]
    modifies head, NodeSet(nodes)
    ensures NodeSet(nodes') <= NodeSet(nodes) && IsOrderList(head, nodes')
    ensures Entries(head, nodes') == kept' + rest[1..] && next == At(head, nodes', |kept'|)
    ensures kept' == if Skippable(rest[0]) then kept else kept + [rest[0]]
  {
    ghost var k := |kept|;
    assert Entries(head, nodes)[k] == rest[0];
    SplitFirst(kept, rest);
    next := current.next;
    if current.refcount < -1 {
      Unlink(head, current, nodes, k);
      nodes', kept' := Without(nodes, k), kept;
    } else {
      nodes', kept' := nodes, kept + [rest[0]];
    }
  }

  lemma Associate(a: seq<Expectation>, b: seq<Expectation>, c: seq<Expectation>)
    ensures a + (b + c) == (a + b) + c
  {
  }

  lemma RequiredFirst(kept: seq<Expectation>, rest: seq<Expectation>)
    requires rest != []
    ensures kept + Required(rest) == (if Skippable(rest[0]) then kept else kept + [rest[0]]) + Required(rest[1..])
  {
    var more := Required(rest[1..]);
    if Skippable(rest[0]) {
      assert [] + more == more;
    } else {
      Associate(kept, [rest[0]], more);
    }
  }

  // remove_always_return_values_from_list: unlink the skippable entries while walking the list.
  method RemoveSkippable(head: ListNode<string>, ghost nodes: seq<ListNode<string>>)
    returns (ghost nodes': seq<ListNode<string>>)
    requires IsOrderList(head, nodes)
    modifies head, NodeSet(nodes)
    ensures NodeSet(nodes') <= NodeSet(nodes) && IsOrderList(head, nodes')
    ensures Entries(head, nodes') == old(Required(Entries(head, nodes)))
  {
    ghost var kept: seq<Expectation>, rest := [], Entries(head, nodes);
    ghost var q := rest;
    nodes' := nodes;
    var current := head.next;
    while current != head
      invariant NodeSet(nodes') <= NodeSet(nodes) && IsOrderList(head, nodes')
      invariant Entries(head, nodes') == kept + rest && current == At(head, nodes', |kept|)
      invariant Required(q) == kept + Required(rest)
      decreases |rest|
    {
      RequiredFirst(kept, rest);
      current, nodes', kept := VisitEntry(head, current, nodes', kept, rest);
      rest := rest[1..];
    }
  }

  // ---------- Whole runs ----------

  // The calls are all accepted and nothing that demands a call is left over.
  predicate Passes(q: seq<Expectation>, calls: seq<string>)
    decreases |calls|
  {
    if calls == [] then Required(q) == []
    else Called(q, calls[0]).0.Accepted? && Passes(Called(q, calls[0]).1, calls[1..])
  }

  // The calls are all accepted, and what is then left of the expectations.
  predicate Accepts(q: seq<Expectation>, calls: seq<string>)
    decreases |calls|
  {
    calls == [] || (Called(q, calls[0]).0.Accepted? && Accepts(Called(q, calls[0]).1, calls[1..]))
  }

  function Left(q: seq<Expectation>, calls: seq<string>): seq<Expectation>
    decreases |calls|
  {
    if calls == [] then q else Left(Called(q, calls[0]).1, calls[1..])
  }

  lemma {:induction false} PassesIffLeft(q: seq<Expectation>, calls: seq<string>)
    ensures Passes(q, calls) <==> Accepts(q, calls) && Required(Left(q, calls)) == []
    decreases |calls|
  {
    if calls != [] {
      PassesIffLeft(Called(q, calls[0]).1, calls[1..]);
    }
  }

  // One more call.
  lemma {:induction false} OneMoreCall(q: seq<Expectation>, calls: seq<string>, i: nat)
    requires i < |calls|
    ensures var before := Left(q, calls[..i]);
            && (Accepts(q, calls[..i + 1]) <==> Accepts(q, calls[..i]) && Called(before, calls[i]).0.Accepted?)
            && Left(q, calls[..i + 1]) == Called(before, calls[i]).1
    decreases i
  {
    if i == 0 {
      assert calls[..0] == [] && calls[..1][1..] == [];
    } else {
      assert calls[..i][1..] == calls[1..][..i - 1] && calls[..i + 1][1..] == calls[1..][..i];
      OneMoreCall(Called(q, calls[0]).1, calls[1..], i - 1);
    }
  }

  // Call number i is the first that is not accepted, and it dereferences NULL.
  predicate CrashesAt(q: seq<Expectation>, calls: seq<string>, i: int) {
    0 <= i < |calls| && Accepts(q, calls[..i]) && Called(Left(q, calls[..i]), calls[i]).0.Crashed?
  }

  lemma {:induction false} AcceptsPrefix(q: seq<Expectation>, calls: seq<string>, i: nat, j: nat)
    requires i <= j <= |calls| && Accepts(q, calls[..j])
    ensures Accepts(q, calls[..i])
    decreases j
  {
    if i < j {
      OneMoreCall(q, calls, j - 1);
      AcceptsPrefix(q, calls, i, j - 1);
    }
  }

  // A run crashes at no other call than the first that is not accepted.
  lemma OnlyFirst(q: seq<Expectation>, calls: seq<string>, i: nat, j: int)
    requires i < |calls| && Accepts(q, calls[..i]) && !Accepts(q, calls[..i + 1]) && CrashesAt(q, calls, j)
    ensures j == i
  {
    if j < i {
      AcceptsPrefix(q, calls, j + 1, i);
      OneMoreCall(q, calls, j);
    } else if i < j {
      AcceptsPrefix(q, calls, i + 1, j);
    }
  }

  // The same, stated without the list: `allowed` are the functions that may be called at any
  // time from now on; the first demanding entry must be called next by any other function.
  predicate Fits(allowed: set<string>, q: seq<Expectation>, calls: seq<string>)
    decreases |calls|, |q|
  {
    if q != [] && Skippable(q[0]) then Fits(allowed + {q[0].function_}, q[1..], calls)
    else if calls == [] then q == []
    else if calls[0] in allowed then Fits(allowed, q, calls[1..])
    else if q == [] || q[0].function_ != calls[0] then false
    else if q[0].count == 1 then Fits(allowed, q[1..], calls[1..])
    else if q[0].count == -1 then Fits(allowed + {q[0].function_}, q[1..], calls[1..])
    else Fits(allowed, q[0 := q[0].(count := q[0].count - 1)], calls[1..])
  }

  // check_for_leftover_values_list, after the skippable entries are gone: how many are left.
  method CountLeftovers(head: ListNode<string>, ghost nodes: seq<ListNode<string>>)
    returns (leftover: nat, ghost nodes': seq<ListNode<string>>)
    requires IsOrderList(head, nodes)
    modifies head, NodeSet(nodes)
    ensures NodeSet(nodes') <= NodeSet(nodes) && IsOrderList(head, nodes')
    ensures leftover == old(|Required(Entries(head, nodes))|)
  {
    nodes' := RemoveSkippable(head, nodes);
    leftover := 0;
    var node := head.next;
    while node != head
      invariant 0 <= leftover <= |nodes'| && node == At(head, nodes', leftover)
      decreases |nodes'| - leftover
    {
      node := node.next;
      leftover := leftover + 1;
    }
  }

  // The first i calls have been accepted and have left these expectations.
  predicate Progress(q: seq<Expectation>, calls: seq<string>, i: int, left: seq<Expectation>) {
    0 <= i <= |calls| && Accepts(q, calls[..i]) && left == Left(q, calls[..i])
  }

  // Call number i is the first that is not accepted.
  predicate StopsAt(q: seq<Expectation>, calls: seq<string>, i: int, verdict: Verdict) {
    && 0 <= i < |calls| && Accepts(q, calls[..i])
    && verdict == Called(Left(q, calls[..i]), calls[i]).0 && !verdict.Accepted?
  }

  method MakeCall(head: ListNode<string>, calls: seq<string>, ghost nodes: seq<ListNode<string>>,
                  ghost q: seq<Expectation>, i: nat)
    returns (verdict: Verdict, ghost nodes': seq<ListNode<string>>)
    requires IsOrderList(head, nodes) && i < |calls| && Progress(q, calls, i, Entries(head, nodes))
    modifies head, NodeSet(nodes)
    ensures NodeSet(nodes') <= NodeSet(nodes) && IsOrderList(head, nodes')
    ensures !verdict.Accepted? ==> StopsAt(q, calls, i, verdict)
    ensures verdict.Accepted? ==> Progress(q, calls, i + 1, Entries(head, nodes'))
  {
    OneMoreCall(q, calls, i);
    verdict, nodes' := FunctionCalled(head, calls[i], nodes);
  }

  // The calls up to the first that is not accepted.
  method MakeCalls(head: ListNode<string>, calls: seq<string>, ghost nodes: seq<ListNode<string>>, ghost q: seq<Expectation>)
    returns (i: nat, verdict: Verdict, ghost nodes': seq<ListNode<string>>)
    requires IsOrderList(head, nodes) && q == Entries(head, nodes)
    modifies head, NodeSet(nodes)
    ensures NodeSet(nodes') <= NodeSet(nodes) && IsOrderList(head, nodes')
    ensures i < |calls| ==> StopsAt(q, calls, i, verdict)
    ensures i >= |calls| ==> Progress(q, calls, |calls|, Entries(head, nodes'))
  {
    i, nodes', verdict := 0, nodes, Accepted;
    while i < |calls|
      invariant i <= |calls| && NodeSet(nodes') <= NodeSet(nodes) && IsOrderList(head, nodes')
      invariant Progress(q, calls, i, Entries(head, nodes'))
    {
      verdict, nodes' := MakeCall(head, calls, nodes', q, i);
      if !verdict.Accepted? {
        return;
      }
      i := i + 1;
    }
  }

  lemma StoppedAt(q: seq<Expectation>, calls: seq<string>, i: nat, verdict: Verdict)
    requires StopsAt(q, calls, i, verdict)
    ensures !Accepts(q, calls)
    ensures forall j :: CrashesAt(q, calls, j) <==> j == i && verdict.Crashed?
  {
    OneMoreCall(q, calls, i);
    if Accepts(q, calls) {
      assert calls[..|calls|] == calls;
      AcceptsPrefix(q, calls, i + 1, |calls|);
    }
    forall j | CrashesAt(q, calls, j) ensures j == i {
      OnlyFirst(q, calls, i, j);
    }
  }

  lemma NeverStopped(q: seq<Expectation>, calls: seq<string>)
    requires Accepts(q, calls)
    ensures forall j :: !CrashesAt(q, calls, j)
  {
    assert calls[..|calls|] == calls;
    forall j | 0 <= j < |calls| ensures !CrashesAt(q, calls, j) {
      AcceptsPrefix(q, calls, j + 1, |calls|);
      OneMoreCall(q, calls, j);
    }
  }

  // A whole test against the list: every call is checked, then the leftovers are counted. A call
  // that dereferences NULL ends the run there.
  method CheckCalls(head: ListNode<string>, calls: seq<string>, ghost nodes: seq<ListNode<string>>)
    returns (pass: bool, crash: int, ghost nodes': seq<ListNode<string>>)
    requires IsOrderList(head, nodes)
    modifies head, NodeSet(nodes)
    ensures NodeSet(nodes') <= NodeSet(nodes) && IsOrderList(head, nodes')
    ensures pass <==> old(Passes(Entries(head, nodes), calls))
    ensures crash != -1 ==> CrashesAt(old(Entries(head, nodes)), calls, crash)
    ensures crash == -1 ==> forall i :: !CrashesAt(old(Entries(head, nodes)), calls, i)
  {
    ghost var q := Entries(head, nodes);
    var i;
    var verdict;
    i, verdict, nodes' := MakeCalls(head, calls, nodes, q);
    PassesIffLeft(q, calls);
    if i < |calls| {
      StoppedAt(q, calls, i, verdict);
      return false, if verdict.Crashed? then i else -1, nodes';
    }
    assert calls[..|calls|] == calls;
    NeverStopped(q, calls);
    var leftover;
    leftover, nodes' := CountLeftovers(head, nodes');
    return leftover == 0, -1, nodes';
  }

  predicate AllSkippable(q: seq<Expectation>) {
    forall i :: 0 <= i < |q| ==> Skippable(q[i])
  }

  ghost function Names(q: seq<Expectation>): set<string> {
    set i | 0 <= i < |q| :: q[i].function_
  }

  lemma {:induction false} NothingRequired(q: seq<Expectation>)
    ensures Required(q) == [] <==> AllSkippable(q)
    decreases |q|
  {
    if q != [] {
      NothingRequired(q[1..]);
      assert AllSkippable(q) <==> Skippable(q[0]) && AllSkippable(q[1..]);
    }
  }

  // A call that a skippable entry at the front matches changes nothing.
  lemma SoftCall(soft: seq<Expectation>, q: seq<Expectation>, f: string)
    requires AllSkippable(soft) && f in Names(soft)
    ensures Called(soft + q, f) == (Accepted, soft + q)
  {
    var k := Skipped(soft + q, f);
    var i :| 0 <= i < |soft| && soft[i].function_ == f;
    assert (soft + q)[i] == soft[i];
    assert k <= i;
    assert (soft + q)[k] == soft[k];
  }

  // A call that no skippable entry at the front matches meets the first demanding entry.
  lemma HardCall(soft: seq<Expectation>, q: seq<Expectation>, f: string)
    requires AllSkippable(soft) && f !in Names(soft) && (q != [] ==> !Skippable(q[0]))
    ensures var r := Called(soft + q, f);
            if q == [] || q[0].function_ != f then !r.0.Accepted?
            else r == (Accepted, soft + Consume(q, 0))
  {
    forall i | 0 <= i < |soft| ensures Skippable((soft + q)[i]) && (soft + q)[i].function_ != f {
      assert soft[i].function_ in Names(soft);
    }
    SkippedIs(soft + q, f, |soft|);
    if q != [] && q[0].function_ == f {
      assert Consume(soft + q, |soft|) == soft + Consume(q, 0);
    }
  }

  lemma {:induction false} PassesIffFits(soft: seq<Expectation>, q: seq<Expectation>, calls: seq<string>)
    requires AllSkippable(soft)
    ensures Passes(soft + q, calls) <==> Fits(Names(soft), q, calls)
    decreases |calls|, |q|
  {
    if q != [] && Skippable(q[0]) {
      MoveFront(soft, q, q[0], calls);
    } else if calls == [] {
      NothingRequired(soft + q);
      if q != [] {
        assert (soft + q)[|soft|] == q[0];
      }
    } else if calls[0] in Names(soft) {
      SoftCall(soft, q, calls[0]);
      PassesIffFits(soft, q, calls[1..]);
    } else {
      HardCall(soft, q, calls[0]);
      if q != [] && q[0].function_ == calls[0] {
        assert q[..0] + q[1..] == q[1..];
        if q[0].count == -1 {
          MoveFront(soft, Consume(q, 0), q[0].(count := -2), calls[1..]);
        } else {
          PassesIffFits(soft, Consume(q, 0), calls[1..]);
        }
      }
    }
  }

  // A skippable first entry joins the skippable ones before it.
  lemma {:induction false} MoveFront(soft: seq<Expectation>, q: seq<Expectation>, e: Expectation, calls: seq<string>)
    requires AllSkippable(soft) && q != [] && q[0] == e && Skippable(e)
    ensures Passes(soft + q, calls) <==> Fits(Names(soft) + {e.function_}, q[1..], calls)
    decreases |calls|, |q|, 0
  {
    var soft' := soft + [e];
    assert soft + q == soft' + q[1..];
    assert soft'[|soft|].function_ in Names(soft');
    assert forall i :: 0 <= i < |soft| ==> soft'[i].function_ == soft[i].function_;
    assert Names(soft') == Names(soft) + {e.function_};
    PassesIffFits(soft', q[1..], calls);
  }

  // ---------- Main results ----------

  // Any expectations: the walk over the list passes exactly the call sequences that fit them.
  lemma OrderMeaning(q: seq<Expectation>, calls: seq<string>)
    ensures Passes(q, calls) <==> Fits({}, q, calls)
  {
    assert [] + q == q && Names([]) == {};
    PassesIffFits([], q, calls);
  }

  function Repeated(f: string, n: int): seq<string> {
    if n <= 0 then [] else [f] + Repeated(f, n - 1)
  }

  // f1 repeated c1 times, then f2 repeated c2 times, and so on.
  function Expansion(q: seq<Expectation>): seq<string> {
    if q == [] then []
    else Repeated(q[0].function_, q[0].count) + Expansion(q[1..])
  }

  // What is left of positive expectations after the first call.
  function Rest(q: seq<Expectation>): seq<Expectation>
    requires q != []
  {
    if q[0].count == 1 then q[1..] else q[0 := q[0].(count := q[0].count - 1)]
  }

  lemma RepeatedFirst(f: string, c: int, tail: seq<string>)
    requires c > 0
    ensures Repeated(f, c) + tail == [f] + (Repeated(f, c - 1) + tail)
  {
  }

  lemma ExpansionFirst(q: seq<Expectation>)
    requires q != [] && q[0].count > 0
    ensures Expansion(q) == [q[0].function_] + Expansion(Rest(q))
  {
    var f, c := q[0].function_, q[0].count;
    if c == 1 {
      assert Repeated(f, 1) == [f];
    } else {
      assert Rest(q)[1..] == q[1..];
      RepeatedFirst(f, c, Expansion(q[1..]));
    }
  }

  lemma SameFirst(calls: seq<string>, f: string, more: seq<string>)
    requires calls != []
    ensures calls == [f] + more <==> calls[0] == f && calls[1..] == more
  {
  }

  lemma {:induction false} PositiveFits(q: seq<Expectation>, calls: seq<string>)
    requires forall i :: 0 <= i < |q| ==> q[i].count > 0
    ensures Fits({}, q, calls) <==> calls == Expansion(q)
    decreases |calls|
  {
    if q != [] {
      ExpansionFirst(q);
      if calls != [] {
        PositiveFits(Rest(q), calls[1..]);
        SameFirst(calls, q[0].function_, Expansion(Rest(q)));
      }
    }
  }

  // Positive counts only: exactly one call sequence passes.
  lemma {:induction false} PositiveCountsMeaning(q: seq<Expectation>, calls: seq<string>)
    requires forall i :: 0 <= i < |q| ==> q[i].count > 0
    ensures Passes(q, calls) <==> calls == Expansion(q)
  {
    OrderMeaning(q, calls);
    PositiveFits(q, calls);
  }

  lemma {:induction false} OnlyAllowed(allowed: set<string>, calls: seq<string>)
    ensures Fits(allowed, [], calls) <==> forall i :: 0 <= i < |calls| ==> calls[i] in allowed
    decreases |calls|
  {
    if calls != [] {
      OnlyAllowed(allowed, calls[1..]);
      assert forall i :: 1 <= i < |calls| ==> calls[i] == calls[1..][i - 1];
    }
  }

  // A single entry with count -1: at least one call, and only to that function.
  lemma {:induction false} AtLeastOnce(f: string, calls: seq<string>)
    ensures Passes([Expectation(f, -1)], calls) <==> calls != [] && forall i :: 0 <= i < |calls| ==> calls[i] == f
  {
    OrderMeaning([Expectation(f, -1)], calls);
    if calls != [] && calls[0] == f {
      assert {} + {f} == {f};
      OnlyAllowed({f}, calls[1..]);
      assert forall i :: 1 <= i < |calls| ==> calls[i] == calls[1..][i - 1];
    }
  }

  // ---------- Which runs dereference NULL ----------

  predicate NonZero(q: seq<Expectation>) {
    forall i :: 0 <= i < |q| ==> q[i].count != 0
  }

  // The functions whose entries never leave the list.
  function Lasting(q: seq<Expectation>): seq<string> {
    if q == [] then [] else (if q[0].count < 0 then [q[0].function_] else []) + Lasting(q[1..])
  }

  lemma {:induction false} LastingUpdate(q: seq<Expectation>, k: nat, e: Expectation)
    requires k < |q| && e.function_ == q[k].function_ && (e.count < 0 <==> q[k].count < 0)
    ensures Lasting(q[k := e]) == Lasting(q)
    decreases k
  {
    if k == 0 {
      assert q[0 := e][1..] == q[1..];
    } else {
      assert q[k := e][1..] == q[1..][k - 1 := e];
      LastingUpdate(q[1..], k - 1, e);
    }
  }

  lemma {:induction false} LastingDrop(q: seq<Expectation>, k: nat)
    requires k < |q| && q[k].count >= 0
    ensures Lasting(q[..k] + q[k + 1..]) == Lasting(q)
    decreases k
  {
    var q' := q[..k] + q[k + 1..];
    if k == 0 {
      assert q' == q[1..];
    } else {
      assert q'[1..] == q[1..][..k - 1] + q[1..][k..];
      LastingDrop(q[1..], k - 1);
    }
  }

  lemma ConsumeKeepsLasting(q: seq<Expectation>, k: nat)
    requires k < |q| && NonZero(q)
    ensures NonZero(Consume(q, k)) && Lasting(Consume(q, k)) == Lasting(q)
  {
    if q[k].count == 1 {
      LastingDrop(q, k);
    } else if !Skippable(q[k]) {
      LastingUpdate(q, k, q[k].(count := q[k].count - 1));
    }
  }

  lemma {:induction false} LeftKeepsLasting(q: seq<Expectation>, calls: seq<string>)
    requires NonZero(q) && Accepts(q, calls)
    ensures NonZero(Left(q, calls)) && Lasting(Left(q, calls)) == Lasting(q)
    decreases |calls|
  {
    if calls != [] {
      ConsumeKeepsLasting(q, Skipped(q, calls[0]));
      LeftKeepsLasting(Called(q, calls[0]).1, calls[1..]);
    }
  }

  lemma {:induction false} AllLasting(q: seq<Expectation>)
    requires AllSkippable(q)
    ensures |Lasting(q)| == |q| && forall i :: 0 <= i < |q| ==> Lasting(q)[i] == q[i].function_
    decreases |q|
  {
    if q != [] {
      AllLasting(q[1..]);
    }
  }

  lemma CalledCrashes(q: seq<Expectation>, f: string)
    ensures Called(q, f).0.Crashed? <==> |q| == 1 && Skippable(q[0]) && q[0].function_ != f
  {
  }

  // A run dereferences NULL at call i if and only if the calls before it would have passed the
  // whole test, exactly one expectation has a negative count, and call i is to another function.
  lemma CrashIff(q: seq<Expectation>, calls: seq<string>, i: nat)
    requires NonZero(q) && i < |calls|
    ensures CrashesAt(q, calls, i) <==>
              Passes(q, calls[..i]) && |Lasting(q)| == 1 && Lasting(q)[0] != calls[i]
  {
    var left := Left(q, calls[..i]);
    PassesIffLeft(q, calls[..i]);
    NothingRequired(left);
    CalledCrashes(left, calls[i]);
    if Accepts(q, calls[..i]) && AllSkippable(left) {
      LeftKeepsLasting(q, calls[..i]);
      AllLasting(left);
    }
  }

  // ---------- Which expectations can be met ----------

  // No entry that demands a call comes after an entry with a negative count for the same
  // function: that one stays in the list and takes all the calls.
  predicate Meetable(q: seq<Expectation>) {
    forall i, j :: 0 <= i < j < |q| && q[i].count < 0 && q[i].function_ == q[j].function_ ==> Skippable(q[j])
  }

  // The same along the list, where the functions in `allowed` are taken already.
  predicate MeetableFrom(allowed: set<string>, q: seq<Expectation>)
    decreases |q|
  {
    q == []
    || if Skippable(q[0]) then MeetableFrom(allowed + {q[0].function_}, q[1..])
       else
         && q[0].function_ !in allowed
         && MeetableFrom(if q[0].count < 0 then allowed + {q[0].function_} else allowed, q[1..])
  }

  lemma {:induction false} MeetableAlong(allowed: set<string>, q: seq<Expectation>)
    ensures MeetableFrom(allowed, q) <==>
              Meetable(q) && forall j :: 0 <= j < |q| && q[j].function_ in allowed ==> Skippable(q[j])
    decreases |q|
  {
    if q != [] {
      var e, rest := q[0], q[1..];
      assert forall j :: 1 <= j < |q| ==> q[j] == rest[j - 1];
      MeetableAlong(if e.count < 0 then allowed + {e.function_} else allowed, rest);
      assert Meetable(q) ==> Meetable(rest);
    }
  }

  lemma {:induction false} FitsMeetable(allowed: set<string>, q: seq<Expectation>, calls: seq<string>)
    requires NonZero(q) && Fits(allowed, q, calls)
    ensures MeetableFrom(allowed, q)
    decreases |calls|, |q|
  {
    if q != [] && Skippable(q[0]) {
      FitsMeetable(allowed + {q[0].function_}, q[1..], calls);
    } else if calls != [] && calls[0] in allowed {
      FitsMeetable(allowed, q, calls[1..]);
    } else if q != [] {
      if q[0].count == 1 {
        FitsMeetable(allowed, q[1..], calls[1..]);
      } else if q[0].count == -1 {
        FitsMeetable(allowed + {q[0].function_}, q[1..], calls[1..]);
      } else {
        FitsMeetable(allowed, q[0 := q[0].(count := q[0].count - 1)], calls[1..]);
      }
    }
  }

  // The fewest calls that meet the expectations.
  function Demanded(q: seq<Expectation>): seq<string> {
    if q == [] then []
    else (if Skippable(q[0]) then [] else if q[0].count < 0 then [q[0].function_] else Repeated(q[0].function_, q[0].count))
         + Demanded(q[1..])
  }

  lemma {:induction false} RepeatedFits(allowed: set<string>, q: seq<Expectation>, c: int, more: seq<string>)
    requires q != [] && q[0].count == c > 0 && q[0].function_ !in allowed && Fits(allowed, q[1..], more)
    ensures Fits(allowed, q, Repeated(q[0].function_, c) + more)
    decreases c
  {
    var f := q[0].function_;
    RepeatedFirst(f, c, more);
    var rest := Repeated(f, c - 1) + more;
    assert ([f] + rest)[1..] == rest;
    if c == 1 {
      assert rest == more;
    } else {
      var q' := q[0 := q[0].(count := c - 1)];
      assert q'[1..] == q[1..];
      RepeatedFits(allowed, q', c - 1, more);
    }
  }

  lemma {:induction false} DemandedFits(allowed: set<string>, q: seq<Expectation>)
    requires NonZero(q) && MeetableFrom(allowed, q)
    ensures Fits(allowed, q, Demanded(q))
    decreases |q|, 0
  {
    if q != [] {
      var f, more := q[0].function_, Demanded(q[1..]);
      if Skippable(q[0]) {
        assert [] + more == more;
        DemandedFits(allowed + {f}, q[1..]);
      } else if q[0].count < 0 {
        assert ([f] + more)[1..] == more;
        DemandedFits(allowed + {f}, q[1..]);
      } else {
        DemandedFits(allowed, q[1..]);
        RepeatedFits(allowed, q, q[0].count, more);
      }
    }
  }

  // Some call sequence passes the test if and only if the expectations can be met.
  lemma PassableIff(q: seq<Expectation>)
    requires NonZero(q)
    ensures (exists calls :: Passes(q, calls)) <==> Meetable(q)
  {
    MeetableAlong({}, q);
    forall calls | Passes(q, calls) ensures Meetable(q) {
      OrderMeaning(q, calls);
      FitsMeetable({}, q, calls);
    }
    if Meetable(q) {
      DemandedFits({}, q);
      OrderMeaning(q, Demanded(q));
    }
  }

  // Some run dereferences NULL if and only if the expectations can be met and exactly one of
  // them has a negative count.
  lemma CrashPossibleIff(q: seq<Expectation>)
    requires NonZero(q)
    ensures (exists calls, i :: CrashesAt(q, calls, i)) <==> Meetable(q) && |Lasting(q)| == 1
  {
    PassableIff(q);
    forall calls, i | CrashesAt(q, calls, i) ensures Meetable(q) && |Lasting(q)| == 1 {
      CrashIff(q, calls, i);
    }
    if Meetable(q) && |Lasting(q)| == 1 {
      var w :| Passes(q, w);
      var other := Lasting(q)[0] + "x";
      var calls := w + [other];
      assert calls[..|w|] == w && calls[|w|] == other && |other| != |Lasting(q)[0]|;
      CrashIff(q, calls, |w|);
    }
  }
}
