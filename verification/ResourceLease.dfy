// The resource lease of the ABI-2 runtime: tokens for the operations and transfers in progress, a counter of open
// payload transports, and the order closing, quiescent, destroyed.
module ResourceLease {
  import opened Prelude

  datatype LeaseState = Available | Leased | LeaseClosing | LeaseClosed

  // `tokens` are the generations of the active records, so the counter `active` is |tokens|.
  datatype Lease = Lease(
    exclusive: bool,
    state: LeaseState,
    tokens: set<nat>,
    nextGeneration: nat,
    transports: nat)

  function NewLease(exclusive: bool): Lease { Lease(exclusive, Available, {}, 1, 0) }

  // `record` says that the record of the token can be allocated.
  function Acquire(l: Lease, record: bool): (Lease, Option<nat>) {
    if l.state == LeaseClosing || l.state == LeaseClosed then (l, None)
    else if l.exclusive && l.state != Available then (l, None)
    else if |l.tokens| == WORD32 - 1 || l.nextGeneration == WORD64 - 1 then (l, None)
    else if !record then (l.(state := if l.tokens == {} then Available else Leased), None)
    else
      (l.(state := Leased, tokens := l.tokens + {l.nextGeneration}, nextGeneration := l.nextGeneration + 1),
       Some(l.nextGeneration))
  }

  function ReleaseToken(l: Lease, g: nat): Lease {
    if g !in l.tokens then l
    else
      var left := l.tokens - {g};
      l.(tokens := left, state := if l.state == Leased && left == {} then Available else l.state)
  }

  function BeginLeaseClose(l: Lease): Lease {
    if l.state == LeaseClosed || l.state == LeaseClosing then l else l.(state := LeaseClosing)
  }

  // The second result is true for the status OK.
  function Quiesce(l: Lease): (Lease, bool) {
    if l.state == LeaseClosed then (l, true)
    else if l.state != LeaseClosing || l.tokens != {} then (l, false)
    else (l.(state := LeaseClosed), true)
  }

  predicate MayDestroy(l: Lease) { l.state == LeaseClosed && l.tokens == {} && l.transports == 0 }

  function AddTransport(l: Lease): (Lease, bool) {
    if l.state == LeaseClosing || l.state == LeaseClosed then (l, false)
    else (l.(transports := if l.transports + 1 == WORD32 then 0 else l.transports + 1), true)
  }

  function DropTransport(l: Lease): Lease {
    l.(transports := if l.transports == 0 then WORD32 - 1 else l.transports - 1)
  }

  predicate Ended(l: Lease) { l.state == LeaseClosing || l.state == LeaseClosed }

  ghost predicate FewTokens(l: Lease) { |l.tokens| < WORD32 && (l.exclusive ==> |l.tokens| <= 1) }

  ghost predicate LeaseInv(l: Lease) {
    && (forall g :: g in l.tokens ==> 0 < g < l.nextGeneration)
    && 0 < l.nextGeneration < WORD64
    && (l.state == Available || l.state == LeaseClosed ==> l.tokens == {})
    && (l.state == Leased ==> l.tokens != {})
    && FewTokens(l)
  }

  // What a token takes: nobody has ended the lease, an exclusive one has no other user, and both counters have room.
  ghost predicate TokenFree(l: Lease) {
    && (l.state == Available || l.state == Leased)
    && (l.exclusive ==> l.tokens == {})
    && |l.tokens| < WORD32 - 1 && l.nextGeneration < WORD64 - 1
  }

  // A token is granted exactly when one is free and its record can be allocated. It is a fresh generation, and a
  // refusal changes nothing.
  lemma AcquireKeepsLease(l: Lease, record: bool)
    requires LeaseInv(l)
    ensures var (l', token) := Acquire(l, record);
      && LeaseInv(l')
      && (token.Some? <==> record && TokenFree(l))
      && (token.None? ==> l' == l)
      && (token.Some? ==>
            && token.value == l.nextGeneration && token.value !in l.tokens
            && l' == Lease(l.exclusive, Leased, l.tokens + {token.value}, token.value + 1, l.transports))
  {
  }

  // Ending and quieting change the state only.
  lemma EndingKeepsLease(l: Lease)
    requires LeaseInv(l)
    ensures BeginLeaseClose(l) == l.(state := if l.state == LeaseClosed then LeaseClosed else LeaseClosing)
    ensures Quiesce(l).1 <==> (l.state == LeaseClosing || l.state == LeaseClosed) && l.tokens == {}
    ensures Quiesce(l).0 == if Quiesce(l).1 then l.(state := LeaseClosed) else l
    ensures LeaseInv(BeginLeaseClose(l)) && LeaseInv(Quiesce(l).0)
  {
  }

  lemma ExclusiveMeansOne(l: Lease, g: nat, h: nat)
    requires LeaseInv(l) && l.exclusive && g in l.tokens && h in l.tokens
    ensures g == h
  {
    assert |l.tokens - {g}| == 0;
    assert h !in l.tokens - {g};
  }

  // Only the token given back is dropped, and only a lease that has no other becomes available again.
  lemma ReleaseKeepsLease(l: Lease, g: nat)
    requires LeaseInv(l)
    ensures var l' := ReleaseToken(l, g);
      && LeaseInv(l') && l'.tokens == l.tokens - {g} && l'.exclusive == l.exclusive
      && l'.nextGeneration == l.nextGeneration && l'.transports == l.transports
      && (l'.state == l.state || (l.tokens == {g} && l.state == Leased && l'.state == Available))
  {
    if g in l.tokens {
      assert |l.tokens - {g}| == |l.tokens| - 1;
    } else {
      assert l.tokens - {g} == l.tokens;
    }
  }
}

// Every history of one lease, and when destroying it is safe for its transports.
module LeaseHistories {
  import opened Prelude
  import opened ResourceLease

  // `held` are the tokens handed out and not yet given back, `open` the transports created and not yet
  // destroyed, as a number that does not wrap; `many` records that the counter behind it has wrapped around,
  // `stranded` that a transport has used a destroyed lease.
  datatype State = State(lease: Option<Lease>, held: set<nat>, open: nat, many: bool, stranded: bool)

  datatype Action =
    | Take(record: bool)
    | Give(token: nat)
    | OpenTransport
    | CloseTransport
    | BeginClose
    | MakeQuiet
    | Destroy

  ghost predicate Init(s: State) {
    exists exclusive :: s == State(Some(NewLease(exclusive)), {}, 0, false, false)
  }

  // Users hold a lease until it is destroyed; transports may be destroyed at any time.
  predicate Enabled(s: State, a: Action) {
    match a
    case CloseTransport => s.open > 0
    case _ => s.lease.Some?
  }

  function Step(s: State, a: Action): State
    requires Enabled(s, a)
  {
    match a
    case Take(record) =>
      var (l, token) := Acquire(s.lease.value, record);
      s.(lease := Some(l), held := if token.Some? then s.held + {token.value} else s.held)
    case Give(g) => s.(lease := Some(ReleaseToken(s.lease.value, g)), held := s.held - {g})
    case OpenTransport =>
      var (l, added) := AddTransport(s.lease.value);
      if !added then s else s.(lease := Some(l), open := s.open + 1, many := s.many || s.open + 1 == WORD32)
    case CloseTransport =>
      if s.lease.None? then s.(open := s.open - 1, stranded := true)
      else s.(lease := Some(DropTransport(s.lease.value)), open := s.open - 1)
    case BeginClose => s.(lease := Some(BeginLeaseClose(s.lease.value)))
    case MakeQuiet => s.(lease := Some(Quiesce(s.lease.value).0))
    case Destroy => if MayDestroy(s.lease.value) then s.(lease := None) else s
  }

  ghost predicate Runs(s: State, actions: seq<Action>, s': State)
    decreases |actions|
  {
    if actions == [] then s' == s
    else Enabled(s, actions[0]) && Runs(Step(s, actions[0]), actions[1..], s')
  }

  ghost predicate Inv(s: State) {
    && (s.lease.Some? ==> LeaseInv(s.lease.value) && s.lease.value.transports == s.open % WORD32)
    && s.held == (if s.lease.Some? then s.lease.value.tokens else {})
    && (s.open >= WORD32 ==> s.many)
    && (!s.many ==> !s.stranded && (s.lease.None? ==> s.open == 0))
  }

  lemma WrapUp(n: nat)
    ensures (n + 1) % WORD32 == if n % WORD32 + 1 == WORD32 then 0 else n % WORD32 + 1
  {
  }

  lemma WrapDown(n: nat)
    requires n > 0
    ensures (n - 1) % WORD32 == if n % WORD32 == 0 then WORD32 - 1 else n % WORD32 - 1
  {
  }

  lemma StepKeepsInv(s: State, a: Action)
    requires Inv(s) && Enabled(s, a)
    ensures Inv(Step(s, a))
  {
    hide Acquire, ReleaseToken;
    match a {
      case Take(record) =>
        AcquireKeepsLease(s.lease.value, record);
        var (l, token) := Acquire(s.lease.value, record);
        assert Step(s, a) == s.(lease := Some(l), held := if token.Some? then s.held + {token.value} else s.held);
      case Give(g) => ReleaseKeepsLease(s.lease.value, g);
      case OpenTransport => WrapUp(s.open);
      case CloseTransport => WrapDown(s.open);
      case _ =>
    }
  }

  lemma {:induction false} RunKeepsInv(s: State, actions: seq<Action>, s': State)
    requires Inv(s) && Runs(s, actions, s')
    ensures Inv(s')
    decreases |actions|
  {
    if actions != [] {
      StepKeepsInv(s, actions[0]);
      RunKeepsInv(Step(s, actions[0]), actions[1..], s');
    }
  }

  ghost predicate Reachable(s: State) {
    exists s0, actions :: Init(s0) && Runs(s0, actions, s)
  }

  lemma StepKeepsPolicy(s: State, a: Action)
    requires Enabled(s, a) && Step(s, a).lease.Some?
    ensures s.lease.Some? && Step(s, a).lease.value.exclusive == s.lease.value.exclusive
  {
  }

  lemma {:induction false} PolicyIsFixed(s: State, actions: seq<Action>, s': State)
    requires Runs(s, actions, s') && s'.lease.Some?
    ensures s.lease.Some? && s'.lease.value.exclusive == s.lease.value.exclusive
    decreases |actions|
  {
    hide Enabled, Step;
    if actions != [] {
      PolicyIsFixed(Step(s, actions[0]), actions[1..], s');
      StepKeepsPolicy(s, actions[0]);
    }
  }

  // In every history at most one token of an exclusive lease is in use, whoever holds it.
  lemma ExclusiveIsExclusive(exclusive: bool, actions: seq<Action>, s: State)
    requires Runs(State(Some(NewLease(exclusive)), {}, 0, false, false), actions, s)
    ensures exclusive ==> |s.held| <= 1
    ensures s.lease.Some? ==> s.lease.value.exclusive == exclusive && s.held == s.lease.value.tokens
    ensures s.lease.None? ==> s.held == {}
  {
    var s0 := State(Some(NewLease(exclusive)), {}, 0, false, false);
    RunKeepsInv(s0, actions, s);
    if s.lease.Some? {
      PolicyIsFixed(s0, actions, s);
    }
  }

  // What a lease answers in every history: a token exactly when one may be had, a transport exactly before a
  // close has begun, and OK to quiesce exactly when a close has begun and every token has been given back.
  lemma LeaseAnswers(s: State, record: bool)
    requires Reachable(s) && s.lease.Some?
    ensures var l := s.lease.value;
      && (Acquire(l, record).1.Some? <==>
            && record && !Ended(l) && (l.exclusive ==> s.held == {})
            && |s.held| < WORD32 - 1 && l.nextGeneration < WORD64 - 1)
      && (Acquire(l, record).1.Some? ==> Acquire(l, record).1.value !in s.held)
      && (AddTransport(l).1 <==> l.state == Available || l.state == Leased)
      && (Quiesce(l).1 <==> (l.state == LeaseClosing || l.state == LeaseClosed) && s.held == {})
      && Quiesce(l).0 == (if Quiesce(l).1 then l.(state := LeaseClosed) else l)
      && BeginLeaseClose(l).state == (if l.state == LeaseClosed then LeaseClosed else LeaseClosing)
      && BeginLeaseClose(l).tokens == s.held
      && (l.state == Available || l.state == Leased ==> (l.state == Available <==> s.held == {}))
  {
    var s0, actions :| Init(s0) && Runs(s0, actions, s);
    RunKeepsInv(s0, actions, s);
    AcquireKeepsLease(s.lease.value, record);
  }

  // The lease is destroyed if and only if it is closed, no token is active, and the number of open transports
  // is a multiple of 2^32. While fewer than that are open at once no transport outlives its lease.
  lemma DestroyResult(s: State)
    requires Reachable(s)
    ensures s.lease.Some? ==>
      (MayDestroy(s.lease.value) <==>
         s.lease.value.state == LeaseClosed && s.held == {} && s.open % WORD32 == 0)
    ensures s.lease.Some? && !s.many ==>
      (MayDestroy(s.lease.value) <==> s.lease.value.state == LeaseClosed && s.open == 0)
    ensures !s.many ==> !s.stranded && (s.lease.None? ==> s.open == 0)
  {
    var s0, actions :| Init(s0) && Runs(s0, actions, s);
    RunKeepsInv(s0, actions, s);
  }

  lemma StepExtendsRun(s: State, a: Action, actions: seq<Action>, s': State)
    requires Enabled(s, a) && Runs(Step(s, a), actions, s')
    ensures Runs(s, [a] + actions, s')
  {
    assert ([a] + actions)[1..] == actions;
  }

  // From a lease that takes transports: open n more, close it, destroy it, and let one transport use it.
  lemma {:induction false} OpenAndStrand(s: State, n: nat) returns (actions: seq<Action>, s': State)
    requires Inv(s) && s.lease.Some? && s.lease.value.state == Available
    requires s.open + n == WORD32
    ensures Runs(s, actions, s') && s'.lease.None? && s'.stranded && s'.open == WORD32 - 1
    decreases n
  {
    if n > 0 {
      StepKeepsInv(s, OpenTransport);
      var rest;
      rest, s' := OpenAndStrand(Step(s, OpenTransport), n - 1);
      StepExtendsRun(s, OpenTransport, rest, s');
      actions := [OpenTransport] + rest;
    } else {
      var closing := Step(s, BeginClose);
      var quiet := Step(closing, MakeQuiet);
      var gone := Step(quiet, Destroy);
      s' := Step(gone, CloseTransport);
      assert Runs(s', [], s');
      StepExtendsRun(gone, CloseTransport, [], s');
      StepExtendsRun(quiet, Destroy, [CloseTransport], s');
      StepExtendsRun(closing, MakeQuiet, [Destroy, CloseTransport], s');
      StepExtendsRun(s, BeginClose, [MakeQuiet, Destroy, CloseTransport], s');
      actions := [BeginClose] + [MakeQuiet, Destroy, CloseTransport];
    }
  }

  // The bound is sharp: with 2^32 transports open the counter is zero and a lease in use can be destroyed.
  lemma ManyTransportsOutliveTheLease(s0: State) returns (actions: seq<Action>, s: State)
    requires Init(s0)
    ensures Runs(s0, actions, s) && s.lease.None? && s.stranded
  {
    actions, s := OpenAndStrand(s0, WORD32);
  }
}
