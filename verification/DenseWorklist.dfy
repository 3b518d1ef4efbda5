/**
  The compiler's worklist of dense ids: a queue or a stack that refuses an id while it is pending. The class
  is proved against an abstract worklist whose history is kept: what was accepted and what was popped.
*/
module DenseWorklist {
  import opened Prelude

  datatype Order = FIFO | LIFO

  datatype Op = Push(id: nat) | Pop

  datatype State = State(pending: seq<nat>, accepted: seq<nat>, popped: seq<nat>, peak: nat)

  predicate Accepts(count: nat, s: State, id: nat) {
    id != INVALID_INDEX && id < count && id !in s.pending
  }

  function Max(a: nat, b: nat): nat { if a < b then b else a }

  function Apply(order: Order, count: nat, s: State, op: Op): State {
    match op
    case Push(id) =>
      if Accepts(count, s, id)
      then State(s.pending + [id], s.accepted + [id], s.popped, Max(s.peak, |s.pending| + 1))
      else s
    case Pop =>
      if s.pending == [] then s
      else if order == FIFO
      then s.(pending := s.pending[1..], popped := s.popped + [s.pending[0]])
      else
        var last := |s.pending| - 1;
        s.(pending := s.pending[..last], popped := s.popped + [s.pending[last]])
  }

  function Run(order: Order, count: nat, ops: seq<Op>): State {
    if ops == [] then State([], [], [], 0)
    else Apply(order, count, Run(order, count, ops[..|ops| - 1]), ops[|ops| - 1])
  }

  ghost predicate Distinct(s: seq<nat>) { forall i, j :: 0 <= i < j < |s| ==> s[i] != s[j] }

  ghost predicate Below(s: seq<nat>, count: nat) { forall i :: 0 <= i < |s| ==> s[i] < count }

  // Distinct ids below a count are at most that many.
  lemma {:induction false} Pigeonhole(s: seq<nat>, count: nat)
    requires Distinct(s) && Below(s, count)
    ensures |s| <= count
    decreases count
  {
    if s != [] {
      assert s[0] < count;
    }
    if count == 0 {
    } else if i :| 0 <= i < |s| && s[i] == count - 1 {
      var rest := s[..i] + s[i + 1..];
      assert forall k :: 0 <= k < |rest| ==> rest[k] == s[if k < i then k else k + 1];
      Pigeonhole(rest, count - 1);
    } else {
      Pigeonhole(s, count - 1);
    }
  }

  // No id is pending twice, and the pending ids never outnumber the ids there are.
  lemma {:induction false} PendingIsDistinct(order: Order, count: nat, ops: seq<Op>)
    ensures var s := Run(order, count, ops);
      Distinct(s.pending) && Below(s.pending, count) && |s.pending| <= s.peak <= count
  {
    if ops != [] {
      var before, op := Run(order, count, ops[..|ops| - 1]), ops[|ops| - 1];
      PendingIsDistinct(order, count, ops[..|ops| - 1]);
      ApplyKeepsDistinct(order, count, before, op);
      Pigeonhole(Apply(order, count, before, op).pending, count);
    }
  }

  lemma ApplyKeepsDistinct(order: Order, count: nat, s: State, op: Op)
    requires Distinct(s.pending) && Below(s.pending, count) && |s.pending| <= s.peak
    ensures var s' := Apply(order, count, s, op);
      Distinct(s'.pending) && Below(s'.pending, count) && |s'.pending| <= s'.peak
      && s.peak <= s'.peak && (s'.peak == s.peak || s'.peak == |s'.pending|)
  {
  }

  // A push is accepted exactly when the id is valid, below the count and not pending.
  lemma AcceptedPushes(order: Order, count: nat, ops: seq<Op>, id: nat)
    ensures var s, s' := Run(order, count, ops), Run(order, count, ops + [Push(id)]);
      if id != INVALID_INDEX && id < count && id !in s.pending then
        s'.pending == s.pending + [id] && s'.accepted == s.accepted + [id] && s'.popped == s.popped
      else s' == s
  {
    assert (ops + [Push(id)])[..|ops|] == ops;
  }

  // A queue loses, adds and reorders nothing: the accepted ids are the popped ones and then the pending.
  lemma {:induction false} QueueKeepsOrder(count: nat, ops: seq<Op>)
    ensures var s := Run(FIFO, count, ops); s.accepted == s.popped + s.pending
  {
    if ops != [] {
      QueueKeepsOrder(count, ops[..|ops| - 1]);
    }
  }

  // In either order every acceptance is accounted for: popped or still pending, as often as accepted.
  lemma {:induction false} AcceptedIsPoppedOrPending(order: Order, count: nat, ops: seq<Op>)
    ensures var s := Run(order, count, ops);
      && multiset(s.accepted) == multiset(s.popped) + multiset(s.pending)
      && |s.accepted| == |s.popped| + |s.pending|
  {
    if ops != [] {
      AcceptedIsPoppedOrPending(order, count, ops[..|ops| - 1]);
      ApplyConserves(order, count, Run(order, count, ops[..|ops| - 1]), ops[|ops| - 1]);
    }
  }

  lemma ApplyConserves(order: Order, count: nat, s: State, op: Op)
    requires multiset(s.accepted) == multiset(s.popped) + multiset(s.pending)
    requires |s.accepted| == |s.popped| + |s.pending|
    ensures var s' := Apply(order, count, s, op);
      && multiset(s'.accepted) == multiset(s'.popped) + multiset(s'.pending)
      && |s'.accepted| == |s'.popped| + |s'.pending|
  {
    if op.Pop? && s.pending != [] {
      var last := |s.pending| - 1;
      if order == FIFO {
        assert s.pending == [s.pending[0]] + s.pending[1..];
        MoveOne(s.popped, s.pending, s.pending[0], s.pending[1..]);
      } else {
        assert s.pending == s.pending[..last] + [s.pending[last]];
        MoveOne(s.popped, s.pending, s.pending[last], s.pending[..last]);
      }
    }
  }

  lemma MoveOne(popped: seq<nat>, before: seq<nat>, id: nat, after: seq<nat>)
    requires before == [id] + after || before == after + [id]
    ensures multiset(popped) + multiset(before) == multiset(popped + [id]) + multiset(after)
  {
  }

  // The peak is the greatest number of ids that were pending at any moment of the history.
  lemma {:induction false} PeakIsTheMaximum(order: Order, count: nat, ops: seq<Op>) returns (moment: nat)
    ensures moment <= |ops| && |Run(order, count, ops[..moment]).pending| == Run(order, count, ops).peak
    ensures forall k: nat :: k <= |ops| ==> |Run(order, count, ops[..k]).pending| <= Run(order, count, ops).peak
  {
    hide Apply, Distinct, Below;
    var s := Run(order, count, ops);
    assert ops[..|ops|] == ops;
    PendingIsDistinct(order, count, ops);
    if ops == [] {
      moment := 0;
    } else {
      var before := ops[..|ops| - 1];
      moment := PeakIsTheMaximum(order, count, before);
      PendingIsDistinct(order, count, before);
      ApplyKeepsDistinct(order, count, Run(order, count, before), ops[|ops| - 1]);
      forall k: nat | k <= |before|
        ensures ops[..k] == before[..k]
      {
      }
      if s.peak != Run(order, count, before).peak {
        moment := |ops|;
      }
    }
  }

  class DenseWorklist {
    var items: seq<nat>
    const queued: array<bool>
    var head: nat
    var processedCount: nat
    var peakPendingCount: nat
    const order: Order
    ghost var accepted: seq<nat>
    ghost var popped: seq<nat>

    ghost predicate Valid()
      reads this, queued
    {
      && head <= |items| && (order == LIFO ==> head == 0)
      && Distinct(items[head..]) && Below(items[head..], queued.Length)
      && (forall i :: 0 <= i < queued.Length ==> (queued[i] <==> i in items[head..]))
      && processedCount == |popped|
      && |items[head..]| <= peakPendingCount <= queued.Length
    }

    ghost function View(): State
      reads this
    {
      State(if head <= |items| then items[head..] else [], accepted, popped, peakPendingCount)
    }

    constructor (idCount: nat, order: Order)
      ensures Valid() && fresh(queued) && queued.Length == idCount && this.order == order
      ensures View() == State([], [], [], 0)
    {
      items, head, processedCount, peakPendingCount := [], 0, 0, 0;
      queued := new bool[idCount](_ => false);
      this.order := order;
      accepted, popped := [], [];
    }

    function PendingCount(): (n: nat)
      requires head <= |items|
      reads this
      ensures n == |View().pending|
    {
      |items| - head
    }

    method PushId(id: nat)
      requires Valid()
      modifies this`items, this`peakPendingCount, this`accepted, queued
      ensures Valid() && View() == Apply(order, queued.Length, old(View()), Push(id))
      ensures var before := old(View());
        if id != INVALID_INDEX && id < queued.Length && id !in before.pending then
          View().pending == before.pending + [id] && View().accepted == before.accepted + [id]
        else View() == before
    {
      if id == INVALID_INDEX || id >= queued.Length || queued[id] {
        return;
      }
      queued[id] := true;
      ghost var before := items[head..];
      items := items + [id];
      assert items[head..] == before + [id];
      PushKeepsDistinct(before, id, queued.Length);
      peakPendingCount := Max(peakPendingCount, PendingCount());
      accepted := accepted + [id];
    }

    method PopId() returns (r: Option<nat>)
      requires Valid()
      modifies this`items, this`head, this`processedCount, this`popped, queued
      ensures Valid() && View() == Apply(order, queued.Length, old(View()), Pop)
      ensures r == if old(View()).pending == [] then None else Some(View().popped[|View().popped| - 1])
      ensures r.Some? && order == FIFO ==> old(View()).pending == [r.value] + View().pending
      ensures r.Some? && order == LIFO ==> old(View()).pending == View().pending + [r.value]
    {
      if head == |items| {
        return None;
      }
      ghost var before := items[head..];
      var index: nat;
      if order == FIFO {
        index := head;
        head := head + 1;
      } else {
        index := |items| - 1;
      }
      var id := items[index];
      if order == LIFO {
        items := items[..|items| - 1];
      }
      ghost var after := items[head..];
      assert order == FIFO ==> after == before[1..] && id == before[0];
      assert order == LIFO ==> after == before[..|before| - 1] && id == before[|before| - 1];
      PopKeepsDistinct(before, id, after, queued.Length);
      queued[id] := false;
      processedCount := processedCount + 1;
      popped := popped + [id];
      return Some(id);
    }
  }

  lemma PushKeepsDistinct(before: seq<nat>, id: nat, count: nat)
    requires Distinct(before) && Below(before, count) && id < count && id !in before
    ensures Distinct(before + [id]) && Below(before + [id], count) && |before| + 1 <= count
    ensures forall i :: i in before + [id] <==> i in before || i == id
  {
    Pigeonhole(before + [id], count);
  }

  lemma PopKeepsDistinct(before: seq<nat>, id: nat, after: seq<nat>, count: nat)
    requires Distinct(before) && Below(before, count) && |before| > 0
    requires
      || (id == before[0] && after == before[1..])
      || (id == before[|before| - 1] && after == before[..|before| - 1])
    ensures Distinct(after) && Below(after, count) && id < count
    ensures forall i :: i in after <==> i in before && i != id
  {
    var last := |before| - 1;
    assert before == [before[0]] + before[1..];
    assert before == before[..last] + [before[last]];
  }
}
