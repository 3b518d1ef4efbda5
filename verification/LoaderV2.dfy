// The ABI-2 component loader. Provider calls run outside the module's mutex, so an invocation and a close each consist
// of two critical sections; owner references and a resource lease keep the module alive. Release takes no mutex at all.
module LoaderV2 {
  import opened Prelude
  import opened ResourceLease

  // ----- The critical sections of the module -----

  // Which allocation of an operation fails, if any.
  datatype Memory = Enough | NoOperation | NoRecord

  function BeginOperation(l: Lease, memory: Memory): (Lease, Option<nat>) {
    if memory == NoOperation then (l, None) else Acquire(l, memory != NoRecord)
  }

  datatype Status = Ok | PlatformError | Closing | OperationFailed | NotReady | DescriptorMismatch

  // A `None` lease is the null pointer.
  datatype Fields = Fields(
    library: bool,
    lease: Option<Lease>,
    closing: bool,
    closed: bool,
    closeRunning: bool,
    activeInvocations: nat,
    ownerReferences: nat)
  {
    ghost predicate WellTyped() { activeInvocations < WORD64 && ownerReferences < WORD64 }
  }

  // What the caller passes: a transport or not, and whether it fits the module's descriptor.
  datatype Request = Request(hasTransport: bool, kindMatches: bool, digestMatches: bool)

  datatype Start = Refused(status: Status) | Started(token: nat)

  function BeginInvoke(f: Fields, q: Request, memory: Memory): (r: (Fields, Start))
    ensures f.WellTyped() ==> r.0.WellTyped()
  {
    if f.closing || f.closed then (f, Refused(Closing))
    else if q.hasTransport && !q.kindMatches then (f, Refused(DescriptorMismatch))
    else if q.hasTransport && !q.digestMatches then (f, Refused(DescriptorMismatch))
    else if f.lease.None? then (f, Refused(NotReady))
    else
      var (l, token) := BeginOperation(f.lease.value, memory);
      if token.None? then (f.(lease := Some(l)), Refused(NotReady))
      else (f.(lease := Some(l), activeInvocations := Inc64(f.activeInvocations)), Started(token.value))
  }

  // `settles`: the failed operation was still armed and not held by the provider, so completing it
  // releases its token.
  function EndInvoke(f: Fields, token: nat, providerOk: bool, settles: bool): (r: (Fields, Status))
    ensures f.WellTyped() ==> r.0.WellTyped()
  {
    var g := f.(activeInvocations := Dec64(f.activeInvocations));
    if providerOk then (g, Ok)
    else if settles && f.lease.Some? then
      (g.(lease := Some(ReleaseToken(f.lease.value, token))), OperationFailed)
    else (g, OperationFailed)
  }

  datatype CloseStart = Return(status: Status) | CallProvider

  function BeginClose(f: Fields): (r: (Fields, CloseStart))
    ensures f.WellTyped() ==> r.0.WellTyped()
  {
    if f.closed then (f, Return(Ok))
    else
      var g := f.(closing := true,
                  lease := if f.lease.Some? then Some(BeginLeaseClose(f.lease.value)) else None);
      if f.activeInvocations != 0 || f.closeRunning then (g, Return(NotReady))
      else (g.(closeRunning := true), CallProvider)
  }

  function EndClose(f: Fields, providerOk: bool): (r: (Fields, Status))
    ensures f.WellTyped() ==> r.0.WellTyped()
  {
    var g := f.(closeRunning := false);
    if !providerOk then (g, PlatformError)
    else if f.ownerReferences != 0 || f.lease.None? then (g, NotReady)
    else
      var (l, quiet) := Quiesce(f.lease.value);
      if !quiet || !MayDestroy(l) then (g.(lease := Some(l)), NotReady)
      else (g.(lease := None, library := false, closed := true), Ok)
  }

  function RetainOwner(f: Fields): (r: (Fields, bool))
    ensures f.WellTyped() ==> r.0.WellTyped()
  {
    if f.closed || (f.closing && f.ownerReferences == 0) then (f, false)
    else (f.(ownerReferences := Inc64(f.ownerReferences)), true)
  }

  function ReleaseOwner(f: Fields): (r: Fields)
    ensures f.WellTyped() ==> r.WellTyped()
  {
    if f.ownerReferences != 0 then f.(ownerReferences := f.ownerReferences - 1) else f
  }

  // ----- The module object -----

  class ComponentModule {
    var library: bool
    var lease: Option<Lease>
    var closing: bool
    var closed: bool
    var closeRunning: bool
    var activeInvocations: nat
    var ownerReferences: nat

    function View(): Fields
      reads this
    {
      Fields(library, lease, closing, closed, closeRunning, activeInvocations, ownerReferences)
    }

    constructor (exclusive: bool)
      ensures View() == Fields(true, Some(NewLease(exclusive)), false, false, false, 0, 0)
    {
      library, lease := true, Some(NewLease(exclusive));
      closing, closed, closeRunning := false, false, false;
      activeInvocations, ownerReferences := 0, 0;
    }

    method StartInvocation(q: Request, memory: Memory) returns (r: Start)
      modifies this`lease, this`activeInvocations
      ensures (View(), r) == BeginInvoke(old(View()), q, memory)
    {
      if closing || closed {
        return Refused(Closing);
      }
      if q.hasTransport && !q.kindMatches {
        return Refused(DescriptorMismatch);
      }
      if q.hasTransport && !q.digestMatches {
        return Refused(DescriptorMismatch);
      }
      if lease.None? {
        return Refused(NotReady);
      }
      var (l, token) := BeginOperation(lease.value, memory);
      lease := Some(l);
      if token.None? {
        return Refused(NotReady);
      }
      activeInvocations := Inc64(activeInvocations);
      return Started(token.value);
    }

    method FinishInvocation(token: nat, providerOk: bool, settles: bool) returns (status: Status)
      modifies this`lease, this`activeInvocations
      ensures (View(), status) == EndInvoke(old(View()), token, providerOk, settles)
    {
      activeInvocations := Dec64(activeInvocations);
      if !providerOk {
        if settles && lease.Some? {
          lease := Some(ReleaseToken(lease.value, token));
        }
        return OperationFailed;
      }
      return Ok;
    }

    method StartClose() returns (r: CloseStart)
      modifies this`lease, this`closing, this`closeRunning
      ensures (View(), r) == BeginClose(old(View()))
    {
      if closed {
        return Return(Ok);
      }
      closing := true;
      if lease.Some? {
        lease := Some(BeginLeaseClose(lease.value));
      }
      if activeInvocations != 0 || closeRunning {
        return Return(NotReady);
      }
      closeRunning := true;
      return CallProvider;
    }

    method FinishClose(providerOk: bool) returns (status: Status)
      modifies this`library, this`lease, this`closed, this`closeRunning
      ensures (View(), status) == EndClose(old(View()), providerOk)
    {
      closeRunning := false;
      if !providerOk {
        return PlatformError;
      }
      if ownerReferences != 0 || lease.None? {
        return NotReady;
      }
      var (l, quiet) := Quiesce(lease.value);
      lease := Some(l);
      if !quiet || !MayDestroy(l) {
        return NotReady;
      }
      lease := None;
      library := false;
      closed := true;
      return Ok;
    }

    method Retain() returns (retained: bool)
      modifies this`ownerReferences
      ensures (View(), retained) == RetainOwner(old(View()))
      ensures retained <==> !old(closed) && (old(closing) ==> old(ownerReferences) > 0)
      ensures ownerReferences ==
        if !retained then old(ownerReferences)
        else if old(ownerReferences) == WORD64 - 1 then 0
        else old(ownerReferences) + 1
    {
      if closed || (closing && ownerReferences == 0) {
        return false;
      }
      ownerReferences := Inc64(ownerReferences);
      return true;
    }

    method Unretain()
      modifies this`ownerReferences
      ensures View() == ReleaseOwner(old(View()))
      ensures ownerReferences == if old(ownerReferences) > 0 then old(ownerReferences) - 1 else 0
    {
      if ownerReferences != 0 {
        ownerReferences := ownerReferences - 1;
      }
    }

    // The whole invocation, as one thread sees it that is alone with the module: each answer for its cause. It
    // leaves one token more, that of the operation it hands out, or none, and the count of invocations as it was.
    method Invoke(q: Request, memory: Memory, providerOk: bool, settles: bool)
      returns (status: Status, operation: Option<nat>)
      requires FieldsInv(View())
      modifies this`lease, this`activeInvocations
      ensures FieldsInv(View()) && activeInvocations == old(activeInvocations)
      ensures status == Ok <==> operation.Some?
      ensures operation.Some? ==>
        && operation.value !in old(TokensOf(View()))
        && TokensOf(View()) == old(TokensOf(View())) + {operation.value}
      ensures status != Ok && (status == OperationFailed ==> settles) ==> TokensOf(View()) == old(TokensOf(View()))
      ensures status == Closing <==> old(closing)
      ensures status == DescriptorMismatch <==>
        !old(closing) && q.hasTransport && !(q.kindMatches && q.digestMatches)
      ensures status == NotReady <==>
        && !old(closing) && (q.hasTransport ==> q.kindMatches && q.digestMatches)
        && !old(OperationCanBegin(View(), memory))
      ensures status == Ok || status == OperationFailed <==>
        && !old(closing) && (q.hasTransport ==> q.kindMatches && q.digestMatches)
        && old(OperationCanBegin(View(), memory))
      ensures status == OperationFailed ==> !providerOk
      ensures status == Ok ==> providerOk
    {
      StartAnswers(View(), q, memory);
      InvokeAlone(View(), q, memory, providerOk, settles);
      hide BeginInvoke, EndInvoke, FieldsInv, TokensOf, OperationCanBegin;
      var start := StartInvocation(q, memory);
      if start.Refused? {
        return start.status, None;
      }
      status := FinishInvocation(start.token, providerOk, settles);
      operation := if status == Ok then Some(start.token) else None;
    }

    // The whole close: OK means closed for good, and anything else leaves the module closing.
    method CloseModule(providerOk: bool) returns (status: Status)
      requires FieldsInv(View())
      modifies this`library, this`lease, this`closing, this`closed, this`closeRunning
      ensures FieldsInv(View()) && closing
      ensures status == Ok <==>
        || old(closed)
        || (&& providerOk && old(activeInvocations) == 0 && !old(closeRunning)
            && old(ownerReferences) == 0 && old(TokensOf(View())) == {})
      ensures status == Ok <==> View() == Fields(false, None, true, true, false, 0, 0)
      ensures status != Ok ==> library && TokensOf(View()) == old(TokensOf(View()))
    {
      CloseAlone(View(), providerOk);
      hide BeginClose, EndClose, FieldsInv, TokensOf;
      var start := StartClose();
      if start.Return? {
        return start.status;
      }
      status := FinishClose(providerOk);
    }
  }

  // An operation takes its own memory, and a token that the lease grants.
  ghost predicate OperationCanBegin(f: Fields, memory: Memory) {
    f.lease.Some? && memory == Enough && TokenFree(f.lease.value)
  }

  // Why a start is refused, and when it succeeds.
  lemma StartAnswers(f: Fields, q: Request, memory: Memory)
    requires FieldsInv(f)
    ensures var r := BeginInvoke(f, q, memory).1;
      && (r == Refused(Closing) <==> f.closing)
      && (r == Refused(DescriptorMismatch) <==> !f.closing && q.hasTransport && !(q.kindMatches && q.digestMatches))
      && (r == Refused(NotReady) <==>
            && !f.closing && (q.hasTransport ==> q.kindMatches && q.digestMatches)
            && !OperationCanBegin(f, memory))
      && (r.Started? <==>
            && !f.closing && (q.hasTransport ==> q.kindMatches && q.digestMatches)
            && OperationCanBegin(f, memory))
  {
    if f.lease.Some? {
      OperationKeepsLease(f.lease.value, memory);
    }
    hide BeginOperation, TokenFree, LeaseInv;
  }

  lemma InvokeAlone(f: Fields, q: Request, memory: Memory, providerOk: bool, settles: bool)
    requires FieldsInv(f)
    ensures var (f1, r) := BeginInvoke(f, q, memory);
      match r
      case Refused(status) =>
        && FieldsInv(f1) && f1.activeInvocations == f.activeInvocations && TokensOf(f1) == TokensOf(f)
        && status != Ok && status != OperationFailed && (status == Closing <==> f1.closing)
      case Started(token) =>
        var (f2, status) := EndInvoke(f1, token, providerOk, settles);
        && FieldsInv(f2) && f2.activeInvocations == f.activeInvocations && !f2.closing
        && token !in TokensOf(f)
        && (status == Ok || status == OperationFailed) && (status == Ok <==> providerOk)
        && TokensOf(f2) == if status == OperationFailed && settles then TokensOf(f) else TokensOf(f) + {token}
  {
    if f.lease.Some? {
      OperationKeepsLease(f.lease.value, memory);
    }
    hide BeginOperation;
  }

  lemma CloseAlone(f: Fields, providerOk: bool)
    requires FieldsInv(f)
    ensures var (f1, r) := BeginClose(f);
      match r
      case Return(status) =>
        && FieldsInv(f1) && f1.closing && (status == Ok <==> f.closed)
        && (f.closed || f.activeInvocations != 0 || f.closeRunning) && TokensOf(f1) == TokensOf(f)
        && (status == Ok <==> f1 == Fields(false, None, true, true, false, 0, 0)) && (status != Ok ==> f1.library)
      case CallProvider =>
        var (f2, status) := EndClose(f1, providerOk);
        && FieldsInv(f2) && f2.closing && !f.closed && f.activeInvocations == 0 && !f.closeRunning
        && (status == Ok <==> providerOk && f.ownerReferences == 0 && TokensOf(f) == {})
        && (status == Ok <==> f2 == Fields(false, None, true, true, false, 0, 0))
        && (status != Ok ==> f2.library && TokensOf(f2) == TokensOf(f))
  {
  }

  // ----- Interleavings -----

  type ThreadId = nat

  // A thread is inside the provider's invoke, inside the provider's close, about to delete the module, or none
  // of these.
  datatype Place = Idle | Invoking(token: nat) | ClosingProvider | Deleting

  // A locked section that a thread asks for.
  datatype Call =
    | ToInvoke(request: Request, memory: Memory)
    | ToEndInvoke(providerOk: bool, settles: bool)
    | ToClose
    | ToEndClose(providerOk: bool)
    | ToRetain
    | ToUnretain
  {
    // The second section of a call whose provider part has returned.
    predicate Continues() { ToEndInvoke? || ToEndClose? }
  }

  // `waiting` are the threads that ask for the mutex, `holder` is the one that has run its section and not yet
  // unlocked; `outstanding` are the lease tokens handed out and not yet released by their operations, `owners`
  // the owner references retained and not yet given back, and `manyOwners` records that the counter behind them
  // has wrapped around. `fault` records a use of unloaded code or of a destroyed lease, `dangling` one of the
  // deleted module.
  datatype State = State(
    fields: Fields,
    places: map<ThreadId, Place>,
    waiting: map<ThreadId, Call>,
    holder: Option<ThreadId>,
    outstanding: set<nat>,
    owners: nat,
    manyOwners: bool,
    unloadCount: nat,
    released: bool,
    fault: bool,
    dangling: bool)

  // Owner references and operation completions can be used from any code, provider included.
  datatype Action =
    | Ask(t: ThreadId, call: Call)
    | Serve(t: ThreadId)
    | Unlock
    | Settle(token: nat)
    | Release(t: ThreadId)
    | Delete(t: ThreadId)

  ghost predicate Init(s: State) {
    && (exists exclusive: bool ::
          s.fields == Fields(true, Some(NewLease(exclusive)), false, false, false, 0, 0))
    && (forall t :: t in s.places ==> s.places[t] == Idle)
    && |s.places| < WORD64
    && s.waiting == map[] && s.holder == None && s.outstanding == {} && s.owners == 0 && !s.manyOwners
    && s.unloadCount == 0 && !s.released && !s.fault && !s.dangling
  }

  predicate MayAsk(p: Place, call: Call) {
    match call
    case ToInvoke(_, _) => p.Idle?
    case ToClose => p.Idle?
    case ToEndInvoke(_, _) => p.Invoking?
    case ToEndClose(_) => p.ClosingProvider?
    case _ => !p.Deleting?
  }

  // The thread runs no section of the module and asks for none.
  predicate Outside(s: State, t: ThreadId) { t in s.places && t !in s.waiting && s.holder != Some(t) }

  // A deleted mutex stops nobody.
  predicate Enabled(s: State, a: Action) {
    match a
    case Ask(t, call) => Outside(s, t) && MayAsk(s.places[t], call)
    case Serve(t) => t in s.waiting && t in s.places && MayAsk(s.places[t], s.waiting[t])
                     && (s.released || s.holder.None?)
    case Unlock => s.holder.Some?
    case Settle(g) => g in s.outstanding
    case Release(t) => Outside(s, t) && s.places[t].Idle?
    case Delete(t) => Outside(s, t) && s.places[t].Deleting?
  }

  function InvokeSection(s: State, t: ThreadId, q: Request, memory: Memory): State {
    var (f, r) := BeginInvoke(s.fields, q, memory);
    if r.Refused? then s.(fields := f)
    else s.(fields := f, places := s.places[t := Invoking(r.token)],
            outstanding := s.outstanding + {r.token}, fault := s.fault || !f.library)
  }

  function EndInvokeSection(s: State, t: ThreadId, providerOk: bool, settles: bool): State
    requires t in s.places && s.places[t].Invoking?
  {
    var token := s.places[t].token;
    s.(fields := EndInvoke(s.fields, token, providerOk, settles).0, places := s.places[t := Idle],
       outstanding := if !providerOk && settles then s.outstanding - {token} else s.outstanding,
       fault := s.fault || !s.fields.library || s.fields.lease.None?)
  }

  function CloseSection(s: State, t: ThreadId): State {
    var (f, r) := BeginClose(s.fields);
    if r.Return? then s.(fields := f)
    else s.(fields := f, places := s.places[t := ClosingProvider], fault := s.fault || !f.library)
  }

  function EndCloseSection(s: State, t: ThreadId, providerOk: bool): State {
    var f := EndClose(s.fields, providerOk).0;
    s.(fields := f, places := s.places[t := Idle],
       unloadCount := s.unloadCount + (if s.fields.library && !f.library then 1 else 0),
       fault := s.fault || !s.fields.library)
  }

  function RetainSection(s: State): State {
    var (f, retained) := RetainOwner(s.fields);
    if !retained then s
    else s.(fields := f, owners := s.owners + 1, manyOwners := s.manyOwners || s.owners + 1 == WORD64)
  }

  function UnretainSection(s: State): State {
    s.(fields := ReleaseOwner(s.fields), owners := if s.owners > 0 then s.owners - 1 else 0)
  }

  function Section(s: State, t: ThreadId, call: Call): State
    requires t in s.places && MayAsk(s.places[t], call)
  {
    match call
    case ToInvoke(q, memory) => InvokeSection(s, t, q, memory)
    case ToEndInvoke(providerOk, settles) => EndInvokeSection(s, t, providerOk, settles)
    case ToClose => CloseSection(s, t)
    case ToEndClose(providerOk) => EndCloseSection(s, t, providerOk)
    case ToRetain => RetainSection(s)
    case ToUnretain => UnretainSection(s)
  }

  function SettleToken(s: State, g: nat): State {
    if s.fields.lease.None? then s.(fault := true)
    else
      s.(fields := s.fields.(lease := Some(ReleaseToken(s.fields.lease.value, g))),
         outstanding := s.outstanding - {g})
  }

  // Release reads `closed` without the mutex and deletes the module when it is set.
  function LiveStep(s: State, a: Action): State
    requires Enabled(s, a)
  {
    match a
    case Ask(t, call) => s.(waiting := s.waiting[t := call])
    case Serve(t) => Section(s, t, s.waiting[t]).(waiting := s.waiting - {t}, holder := Some(t))
    case Unlock => s.(holder := None)
    case Settle(g) => SettleToken(s, g)
    case Release(t) => if s.fields.closed then s.(places := s.places[t := Deleting]) else s
    case Delete(t) => s.(places := s.places[t := Idle], released := true)
  }

  // Settling a token uses the lease; every other step on a deleted module uses freed memory, and nothing more is
  // said about what it does.
  function Step(s: State, a: Action): State
    requires Enabled(s, a)
  {
    if s.released && !a.Settle? then s.(dangling := true) else LiveStep(s, a)
  }

  ghost predicate Runs(s: State, actions: seq<Action>, s': State)
    decreases |actions|
  {
    if actions == [] then s' == s
    else Enabled(s, actions[0]) && Runs(Step(s, actions[0]), actions[1..], s')
  }

  ghost function Invokers(s: State): set<ThreadId> {
    set t | t in s.places && s.places[t].Invoking?
  }

  ghost function Closers(s: State): set<ThreadId> {
    set t | t in s.places && s.places[t].ClosingProvider?
  }

  // ----- The inductive invariant -----

  // The module's lease never leaves the loader, so no transport is opened on it.
  ghost predicate FieldsInv(f: Fields) {
    && f.WellTyped()
    && f.library == !f.closed
    && f.lease.Some? == !f.closed
    && (f.closed ==>
          f.closing && f.activeInvocations == 0 && f.ownerReferences == 0 && !f.closeRunning)
    && (f.closeRunning ==> f.closing && f.activeInvocations == 0)
    && (f.lease.Some? ==> LeaseInv(f.lease.value) && f.lease.value.transports == 0)
    && (f.lease.Some? ==> (f.closing <==> Ended(f.lease.value)))
  }

  ghost function TokensOf(f: Fields): set<nat> { if f.lease.Some? then f.lease.value.tokens else {} }

  // Who is inside the provider, as the fields count them, and who is about to delete.
  ghost predicate PlacesAgree(s: State) {
    && |s.places| < WORD64
    && s.fields.activeInvocations == |Invokers(s)|
    && (s.fields.closeRunning <==> Closers(s) != {})
    && (forall t, u :: t in Closers(s) && u in Closers(s) ==> t == u)
    && (forall t :: t in s.places && s.places[t].Deleting? ==> s.fields.closed)
  }

  // What waits can be served.
  ghost predicate WaitingAgrees(s: State) {
    && (forall t :: t in s.waiting ==> t in s.places && MayAsk(s.places[t], s.waiting[t]) && s.holder != Some(t))
    && (s.holder.Some? ==> s.holder.value in s.places && !s.places[s.holder.value].Deleting?)
  }

  ghost predicate OwnersAgree(f: Fields, owners: nat, many: bool) {
    !many ==> f.ownerReferences == owners < WORD64
  }

  ghost predicate Inv(s: State) {
    && FieldsInv(s.fields)
    && PlacesAgree(s)
    && WaitingAgrees(s)
    && OwnersAgree(s.fields, s.owners, s.manyOwners)
    && s.outstanding == TokensOf(s.fields)
    && s.unloadCount == (if s.fields.closed then 1 else 0)
    && (s.released ==> s.fields.closed)
    && !s.fault
  }

  // ----- What the sections do to the fields -----

  lemma OperationKeepsLease(l: Lease, memory: Memory)
    requires LeaseInv(l)
    ensures var (l', token) := BeginOperation(l, memory);
      && LeaseInv(l') && l'.transports == l.transports && (Ended(l') <==> Ended(l))
      && (token.Some? <==> memory == Enough && TokenFree(l))
      && match token
         case None => l' == l
         case Some(g) => g == l.nextGeneration && g !in l.tokens && l'.tokens == l.tokens + {g}
  {
    AcquireKeepsLease(l, memory != NoRecord);
  }

  // A start changes the count of invocations and the tokens together, or neither.
  lemma InvokeOutcome(f: Fields, q: Request, memory: Memory)
    requires FieldsInv(f) && f.activeInvocations < WORD64 - 1
    ensures var (f', r) := BeginInvoke(f, q, memory);
      && FieldsInv(f') && f'.ownerReferences == f.ownerReferences
      && f'.closed == f.closed && f'.closing == f.closing && f'.closeRunning == f.closeRunning
      && (r.Refused? ==> f'.activeInvocations == f.activeInvocations && TokensOf(f') == TokensOf(f))
      && (r.Started? ==>
            && f.library && !f.closing && f'.library && f'.activeInvocations == f.activeInvocations + 1
            && r.token !in TokensOf(f) && TokensOf(f') == TokensOf(f) + {r.token})
  {
    if f.lease.Some? {
      OperationKeepsLease(f.lease.value, memory);
    }
    hide LeaseInv, BeginOperation;
  }

  lemma EndInvokeOutcome(f: Fields, token: nat, providerOk: bool, settles: bool)
    requires FieldsInv(f) && f.activeInvocations > 0
    ensures var f' := EndInvoke(f, token, providerOk, settles).0;
      && FieldsInv(f') && f'.ownerReferences == f.ownerReferences
      && f.library && f.lease.Some?
      && f'.closed == f.closed && f'.closing == f.closing && f'.closeRunning == f.closeRunning
      && f'.activeInvocations == f.activeInvocations - 1
      && TokensOf(f') == (if !providerOk && settles then TokensOf(f) - {token} else TokensOf(f))
  {
  }

  lemma CloseOutcome(f: Fields)
    requires FieldsInv(f)
    ensures var (f', r) := BeginClose(f);
      && FieldsInv(f') && f'.ownerReferences == f.ownerReferences
      && f'.closed == f.closed && f'.activeInvocations == f.activeInvocations && TokensOf(f') == TokensOf(f)
      && f'.closing
      && (r.Return? ==> f'.closeRunning == f.closeRunning)
      && (r.CallProvider? ==> !f.closeRunning && f'.closeRunning && f'.library && !f.closed)
  {
  }

  lemma EndCloseOutcome(f: Fields, providerOk: bool)
    requires FieldsInv(f) && f.closeRunning
    ensures var f' := EndClose(f, providerOk).0;
      && FieldsInv(f') && f'.ownerReferences == f.ownerReferences
      && f.library && !f.closed && f.closing && f'.closing && !f'.closeRunning
      && f'.activeInvocations == f.activeInvocations
      && TokensOf(f') == TokensOf(f)
      && (f'.closed <==> !f'.library)
  {
  }

  ghost predicate OwnersChanged(f: Fields, f': Fields) {
    && FieldsInv(f') && f' == f.(ownerReferences := f'.ownerReferences)
    && (f.closing && f.ownerReferences == 0 ==> f'.ownerReferences == 0)
  }

  lemma OwnersOutcome(f: Fields)
    requires FieldsInv(f)
    ensures OwnersChanged(f, RetainOwner(f).0) && OwnersChanged(f, ReleaseOwner(f))
  {
    hide LeaseInv;
  }

  lemma SettleOutcome(f: Fields, g: nat)
    requires FieldsInv(f) && f.lease.Some?
    ensures var f' := f.(lease := Some(ReleaseToken(f.lease.value, g)));
      FieldsInv(f') && TokensOf(f') == TokensOf(f) - {g}
  {
  }

  // ----- The threads -----

  lemma PlaceUpdate(s: State, t: ThreadId, p: Place)
    requires t in s.places
    ensures var s' := s.(places := s.places[t := p]);
      && |s'.places| == |s.places|
      && Invokers(s') == (if p.Invoking? then Invokers(s) + {t} else Invokers(s) - {t})
      && Closers(s') == (if p.ClosingProvider? then Closers(s) + {t} else Closers(s) - {t})
  {
    var s' := s.(places := s.places[t := p]);
    assert s'.places.Keys == s.places.Keys;
    assert |s'.places.Keys| == |s'.places| && |s.places.Keys| == |s.places|;
  }

  lemma SamePlaces(s: State, s': State)
    requires s'.places == s.places
    ensures Invokers(s') == Invokers(s) && Closers(s') == Closers(s)
  {
  }

  lemma Moved(s: State, t: ThreadId, p: Place, s': State)
    requires t in s.places && s'.places == s.places[t := p]
    ensures |s'.places| == |s.places|
    ensures Invokers(s') == (if p.Invoking? then Invokers(s) + {t} else Invokers(s) - {t})
    ensures Closers(s') == (if p.ClosingProvider? then Closers(s) + {t} else Closers(s) - {t})
  {
    hide Invokers, Closers;
    PlaceUpdate(s, t, p);
    SamePlaces(s.(places := s.places[t := p]), s');
  }

  lemma InsideIsCounted(s: State, t: ThreadId)
    requires t in s.places
    ensures t in Invokers(s) <==> s.places[t].Invoking?
    ensures t in Closers(s) <==> s.places[t].ClosingProvider?
    ensures t in Invokers(s) ==> |Invokers(s)| > 0
  {
  }

  // A thread outside the provider leaves room for one more invocation.
  lemma IdleIsOutside(s: State, t: ThreadId)
    requires t in s.places && s.places[t].Idle? && |s.places| < WORD64
    ensures t !in Invokers(s) && t !in Closers(s) && |Invokers(s)| < WORD64 - 1
  {
    SubsetCardinality(Invokers(s) + {t}, s.places.Keys);
    assert |s.places.Keys| == |s.places|;
  }

  // ----- Every section keeps the invariant, and with closing set only lets go -----

  // The part of the invariant that speaks of fields and places.
  ghost predicate Core(s: State) {
    && FieldsInv(s.fields) && PlacesAgree(s) && OwnersAgree(s.fields, s.owners, s.manyOwners)
    && s.outstanding == TokensOf(s.fields)
    && s.unloadCount == (if s.fields.closed then 1 else 0) && !s.fault
  }

  ghost predicate Shrinks(s: State, s': State) {
    && s'.fields.closing && (s.fields.closed ==> s'.fields.closed)
    && Invokers(s') <= Invokers(s) && s'.outstanding <= s.outstanding
    && (s.fields.ownerReferences == 0 ==> s'.fields.ownerReferences == 0)
  }

  lemma RefusedInvokeKeepsCore(s: State, q: Request, memory: Memory)
    requires Core(s) && s.fields.activeInvocations < WORD64 - 1 && BeginInvoke(s.fields, q, memory).1.Refused?
    ensures var s' := s.(fields := BeginInvoke(s.fields, q, memory).0);
      Core(s') && (s.fields.closing ==> Shrinks(s, s'))
  {
    hide BeginInvoke, FieldsInv, TokensOf, Invokers, Closers;
    InvokeOutcome(s.fields, q, memory);
    SamePlaces(s, s.(fields := BeginInvoke(s.fields, q, memory).0));
  }

  lemma StartedInvokeKeepsCore(s: State, t: ThreadId, q: Request, memory: Memory)
    requires Core(s) && t in s.places && s.places[t].Idle? && BeginInvoke(s.fields, q, memory).1.Started?
    ensures !s.fields.closing && BeginInvoke(s.fields, q, memory).0.library
    ensures var (f, r) := BeginInvoke(s.fields, q, memory);
      Core(s.(fields := f, places := s.places[t := Invoking(r.token)], outstanding := s.outstanding + {r.token}))
  {
    hide BeginInvoke, FieldsInv, TokensOf, Invokers, Closers;
    var (f, r) := BeginInvoke(s.fields, q, memory);
    var s' := s.(fields := f, places := s.places[t := Invoking(r.token)], outstanding := s.outstanding + {r.token});
    IdleIsOutside(s, t);
    InvokeOutcome(s.fields, q, memory);
    Moved(s, t, Invoking(r.token), s');
    OpenModule(s.fields);
  }

  lemma InvokeKeepsCore(s: State, t: ThreadId, q: Request, memory: Memory)
    requires Core(s) && t in s.places && s.places[t].Idle?
    ensures Core(InvokeSection(s, t, q, memory))
    ensures s.fields.closing ==> Shrinks(s, InvokeSection(s, t, q, memory))
  {
    IdleIsOutside(s, t);
    hide BeginInvoke, FieldsInv, TokensOf, Invokers, Closers, Shrinks;
    if BeginInvoke(s.fields, q, memory).1.Started? {
      StartedInvokeKeepsCore(s, t, q, memory);
    } else {
      RefusedInvokeKeepsCore(s, q, memory);
    }
  }

  lemma OpenModule(f: Fields)
    requires FieldsInv(f)
    ensures f.closed == !f.library && (f.closed ==> f.closing) && f.lease.Some? == !f.closed
  {
  }

  lemma EndInvokeKeepsCore(s: State, t: ThreadId, providerOk: bool, settles: bool)
    requires Core(s) && t in s.places && s.places[t].Invoking?
    ensures var s' := EndInvokeSection(s, t, providerOk, settles);
      && Core(s') && Invokers(s') == Invokers(s) - {t} && t in Invokers(s)
      && (s.fields.closing ==> Shrinks(s, s'))
  {
    hide EndInvoke, FieldsInv, TokensOf, Invokers, Closers;
    var s' := EndInvokeSection(s, t, providerOk, settles);
    InsideIsCounted(s, t);
    EndInvokeOutcome(s.fields, s.places[t].token, providerOk, settles);
    Moved(s, t, Idle, s');
  }

  lemma RefusedCloseKeepsCore(s: State, f: Fields)
    requires Core(s) && BeginClose(s.fields).0 == f && BeginClose(s.fields).1.Return?
    ensures Core(s.(fields := f)) && Shrinks(s, s.(fields := f))
  {
    hide BeginClose, FieldsInv, TokensOf, Invokers, Closers;
    CloseOutcome(s.fields);
    SamePlaces(s, s.(fields := f));
  }

  lemma StartedCloseKeepsCore(s: State, t: ThreadId, f: Fields)
    requires Core(s) && t in s.places && s.places[t].Idle?
    requires BeginClose(s.fields).0 == f && BeginClose(s.fields).1.CallProvider?
    ensures var s' := s.(fields := f, places := s.places[t := ClosingProvider]);
      Core(s') && Shrinks(s, s') && f.library
  {
    hide BeginClose, FieldsInv, TokensOf, Invokers, Closers;
    var s' := s.(fields := f, places := s.places[t := ClosingProvider]);
    IdleIsOutside(s, t);
    CloseOutcome(s.fields);
    Moved(s, t, ClosingProvider, s');
    assert Closers(s') == {t} && Invokers(s') == Invokers(s);
  }

  lemma CloseKeepsCore(s: State, t: ThreadId)
    requires Core(s) && t in s.places && s.places[t].Idle?
    ensures Core(CloseSection(s, t)) && Shrinks(s, CloseSection(s, t))
  {
    hide BeginClose, Core, Shrinks;
    var (f, r) := BeginClose(s.fields);
    if r.CallProvider? {
      StartedCloseKeepsCore(s, t, f);
    } else {
      RefusedCloseKeepsCore(s, f);
    }
  }

  lemma EndCloseKeepsCore(s: State, t: ThreadId, providerOk: bool)
    requires Core(s) && t in s.places && s.places[t].ClosingProvider?
    ensures var s' := EndCloseSection(s, t, providerOk);
      && Core(s') && Closers(s') == {} && Invokers(s') == Invokers(s) && Shrinks(s, s')
  {
    hide EndClose, FieldsInv, TokensOf, Invokers, Closers;
    var s' := EndCloseSection(s, t, providerOk);
    InsideIsCounted(s, t);
    EndCloseOutcome(s.fields, providerOk);
    Moved(s, t, Idle, s');
    assert Closers(s) == {t};
  }

  lemma OwnersKeepCore(s: State, s': State)
    requires Core(s) && OwnersChanged(s.fields, s'.fields) && OwnersAgree(s'.fields, s'.owners, s'.manyOwners)
    requires s' == s.(fields := s'.fields, owners := s'.owners, manyOwners := s'.manyOwners)
    ensures Core(s') && (s.fields.closing ==> Shrinks(s, s'))
  {
    hide FieldsInv, Invokers, Closers;
    SamePlaces(s, s');
  }

  lemma RetainKeepsCore(s: State)
    requires Core(s)
    ensures Core(RetainSection(s)) && (s.fields.closing ==> Shrinks(s, RetainSection(s)))
  {
    hide FieldsInv, PlacesAgree, Shrinks;
    OwnersOutcome(s.fields);
    hide OwnersChanged;
    OwnersKeepCore(s, RetainSection(s));
  }

  lemma UnretainKeepsCore(s: State)
    requires Core(s)
    ensures Core(UnretainSection(s)) && (s.fields.closing ==> Shrinks(s, UnretainSection(s)))
  {
    hide FieldsInv, PlacesAgree, Shrinks;
    OwnersOutcome(s.fields);
    hide OwnersChanged;
    OwnersKeepCore(s, UnretainSection(s));
  }

  lemma SectionKeepsCore(s: State, t: ThreadId, call: Call)
    requires Core(s) && t in s.places && MayAsk(s.places[t], call)
    ensures Core(Section(s, t, call)) && (s.fields.closing ==> Shrinks(s, Section(s, t, call)))
  {
    hide Core, Shrinks, InvokeSection, EndInvokeSection, CloseSection, EndCloseSection, RetainSection,
      UnretainSection;
    match call {
      case ToInvoke(q, memory) => InvokeKeepsCore(s, t, q, memory);
      case ToEndInvoke(providerOk, settles) => EndInvokeKeepsCore(s, t, providerOk, settles);
      case ToClose => CloseKeepsCore(s, t);
      case ToEndClose(providerOk) => EndCloseKeepsCore(s, t, providerOk);
      case ToRetain => RetainKeepsCore(s);
      case ToUnretain => UnretainKeepsCore(s);
    }
  }

  // A section moves its own thread at most, and leaves the queue for the mutex and the deletion alone.
  lemma SectionFrame(s: State, t: ThreadId, call: Call)
    requires t in s.places && MayAsk(s.places[t], call)
    ensures var s' := Section(s, t, call);
      && s'.waiting == s.waiting && s'.holder == s.holder && s'.released == s.released && s'.dangling == s.dangling
      && t in s'.places && s'.places == s.places[t := s'.places[t]]
      && (s.places[t].Deleting? <==> s'.places[t].Deleting?)
  {
    hide BeginInvoke, EndInvoke, BeginClose, EndClose, RetainOwner, ReleaseOwner;
    assert s.places[t := s.places[t]] == s.places;
    match call {
      case ToInvoke(_, _) =>
      case ToEndInvoke(_, _) =>
      case ToClose =>
      case ToEndClose(_) =>
      case _ =>
    }
  }

  lemma ServeKeepsInv(s: State, t: ThreadId)
    requires Inv(s) && Enabled(s, Serve(t)) && !s.released
    ensures Inv(LiveStep(s, Serve(t))) && (s.fields.closing ==> Shrinks(s, LiveStep(s, Serve(t))))
    ensures Invokers(LiveStep(s, Serve(t))) == Invokers(Section(s, t, s.waiting[t]))
    ensures Closers(LiveStep(s, Serve(t))) == Closers(Section(s, t, s.waiting[t]))
  {
    hide FieldsInv, OwnersAgree, TokensOf, Section, Invokers, Closers, MayAsk;
    var s1, s' := Section(s, t, s.waiting[t]), LiveStep(s, Serve(t));
    SectionKeepsCore(s, t, s.waiting[t]);
    SectionFrame(s, t, s.waiting[t]);
    SamePlaces(s1, s');
    NeverDeletesWhileAsking(s.places[t], s.waiting[t]);
  }

  lemma NeverDeletesWhileAsking(p: Place, call: Call)
    requires MayAsk(p, call)
    ensures !p.Deleting?
  {
  }

  lemma AskKeepsInv(s: State, a: Action)
    requires Inv(s) && Enabled(s, a) && (a.Ask? || a.Unlock?)
    ensures Inv(LiveStep(s, a)) && (s.fields.closing ==> Shrinks(s, LiveStep(s, a)))
  {
    hide FieldsInv, OwnersAgree, TokensOf, Invokers, Closers, MayAsk;
    SamePlaces(s, LiveStep(s, a));
  }

  lemma SettleKeepsInv(s: State, g: nat)
    requires Inv(s) && g in s.outstanding
    ensures Inv(SettleToken(s, g)) && (s.fields.closing ==> Shrinks(s, SettleToken(s, g)))
    ensures SettleToken(s, g).outstanding == s.outstanding - {g}
  {
    assert s.fields.lease.Some?;
    SettleOutcome(s.fields, g);
    hide FieldsInv, Invokers, Closers, MayAsk;
    SamePlaces(s, SettleToken(s, g));
  }

  lemma PlaceStaysServed(s: State, t: ThreadId, p: Place)
    requires WaitingAgrees(s) && Outside(s, t)
    ensures WaitingAgrees(s.(places := s.places[t := p]))
  {
    hide MayAsk;
  }

  lemma SetsTurn(s: State, t: ThreadId, p: Place)
    requires t in s.places && (s.places[t].Idle? || s.places[t].Deleting?) && (p.Idle? || p.Deleting?)
    ensures var s' := s.(places := s.places[t := p]);
      && |s'.places| == |s.places| && s'.places.Keys == s.places.Keys
      && Invokers(s') == Invokers(s) && Closers(s') == Closers(s)
  {
    hide Invokers, Closers;
    InsideIsCounted(s, t);
    PlaceUpdate(s, t, p);
    assert Invokers(s) - {t} == Invokers(s) && Closers(s) - {t} == Closers(s);
  }

  lemma PlacesTurn(s: State, t: ThreadId, p: Place)
    requires PlacesAgree(s) && t in s.places && s.fields.closed
    requires (s.places[t].Idle? || s.places[t].Deleting?) && (p.Idle? || p.Deleting?)
    ensures PlacesAgree(s.(places := s.places[t := p]))
  {
    hide Invokers, Closers;
    SetsTurn(s, t, p);
  }

  // A closed module's thread goes from outside to the deletion or back.
  lemma TurnKeepsInv(s: State, t: ThreadId, p: Place)
    requires Inv(s) && Outside(s, t) && s.fields.closed && s.fields.closing
    requires (s.places[t].Idle? || s.places[t].Deleting?) && (p.Idle? || p.Deleting?)
    ensures var s' := s.(places := s.places[t := p]); Inv(s') && Shrinks(s, s')
  {
    hide FieldsInv, PlacesAgree, OwnersAgree, TokensOf, Invokers, Closers, WaitingAgrees;
    PlaceStaysServed(s, t, p);
    PlacesTurn(s, t, p);
    SetsTurn(s, t, p);
  }

  lemma ReleasedKeepsInv(s: State)
    requires Inv(s) && s.fields.closed
    ensures Inv(s.(released := true)) && Invokers(s.(released := true)) == Invokers(s)
  {
    hide FieldsInv, OwnersAgree, TokensOf, Invokers, Closers, MayAsk;
    SamePlaces(s, s.(released := true));
  }

  lemma SameShrinks(s: State)
    requires s.fields.closing
    ensures Shrinks(s, s)
  {
  }

  lemma DeleteKeepsInv(s: State, a: Action)
    requires Inv(s) && Enabled(s, a) && (a.Release? || a.Delete?)
    ensures Inv(LiveStep(s, a)) && (s.fields.closing ==> Shrinks(s, LiveStep(s, a)))
  {
    DeletingIsClosed(s, a.t);
    hide Inv, Invokers;
    if a.Delete? {
      var turned := s.(places := s.places[a.t := Idle]);
      TurnKeepsInv(s, a.t, Idle);
      ReleasedKeepsInv(turned);
    } else if s.fields.closed {
      TurnKeepsInv(s, a.t, Deleting);
    } else if s.fields.closing {
      SameShrinks(s);
    }
  }

  lemma DeletingIsClosed(s: State, t: ThreadId)
    requires Inv(s)
    ensures t in s.places && s.places[t].Deleting? ==> s.fields.closed
    ensures s.fields.closed ==> s.fields.closing
  {
    hide WaitingAgrees;
  }

  // Marking a use of the deleted module changes nothing else.
  lemma DanglingKeepsInv(s: State)
    requires Inv(s)
    ensures Inv(s.(dangling := true)) && (s.fields.closing ==> Shrinks(s, s.(dangling := true)))
  {
    hide FieldsInv, Invokers, Closers, MayAsk;
    SamePlaces(s, s.(dangling := true));
  }

  lemma StepKeepsInv(s: State, a: Action)
    requires Inv(s) && Enabled(s, a)
    ensures Inv(Step(s, a)) && (s.fields.closing ==> Shrinks(s, Step(s, a)))
  {
    hide Inv, Shrinks, Section, MayAsk;
    if s.released && !a.Settle? {
      DanglingKeepsInv(s);
    } else {
      match a {
        case Ask(_, _) => AskKeepsInv(s, a);
        case Serve(t) => ServeKeepsInv(s, t);
        case Unlock => AskKeepsInv(s, a);
        case Settle(g) => SettleKeepsInv(s, g);
        case Release(_) => DeleteKeepsInv(s, a);
        case Delete(_) => DeleteKeepsInv(s, a);
      }
    }
  }

  lemma {:induction false} RunKeepsInv(s: State, actions: seq<Action>, s': State)
    requires Inv(s) && Runs(s, actions, s')
    ensures Inv(s')
    decreases |actions|
  {
    hide Inv, Enabled, Step, Shrinks;
    if actions != [] {
      StepKeepsInv(s, actions[0]);
      RunKeepsInv(Step(s, actions[0]), actions[1..], s');
    }
  }

  // ----- What holds in every run -----

  ghost predicate Reachable(s: State) {
    exists s0, actions :: Init(s0) && Runs(s0, actions, s)
  }

  lemma InitHasInv(s: State)
    requires Init(s)
    ensures Inv(s)
  {
    assert Invokers(s) == {} && Closers(s) == {};
  }

  lemma ReachableStatesKeepInv(s: State)
    requires Reachable(s)
    ensures Inv(s)
  {
    hide Inv, Init;
    var s0, actions :| Init(s0) && Runs(s0, actions, s);
    InitHasInv(s0);
    RunKeepsInv(s0, actions, s);
  }

  lemma InsideMeansLoaded(s: State, t: ThreadId)
    requires Inv(s) && (t in Invokers(s) || t in Closers(s))
    ensures s.fields.library && s.fields.lease.Some?
    ensures t in Closers(s) ==> Invokers(s) == {} && Closers(s) == {t}
  {
    hide LeaseInv, MayAsk, WaitingAgrees;
    assert t in Invokers(s) ==> |Invokers(s)| > 0;
  }

  lemma CloserIsAlone(s: State, t: ThreadId, u: ThreadId)
    requires Inv(s) && t in Closers(s) && u in s.places && u != t
    ensures s.places[u].Idle?
  {
    InsideMeansLoaded(s, t);
    InsideIsCounted(s, u);
    hide LeaseInv, MayAsk, WaitingAgrees, Invokers, Closers;
  }

  // Provider code never runs on an unloaded library, a provider close excludes every other provider call,
  // tokens never outlive their lease, and the library is unloaded at most once. While fewer than 2^64 owner
  // references have been live at once, the reference count is their number, and a live one keeps the library. An
  // exclusive module has at most one operation outstanding.
  lemma EveryRunIsSafe(s: State)
    requires Reachable(s)
    ensures s.fields.activeInvocations == |Invokers(s)|
    ensures forall t, u :: t in Closers(s) && u in s.places && u != t ==> s.places[u].Idle?
    ensures forall t :: t in Invokers(s) || t in Closers(s) ==> s.fields.library && s.fields.lease.Some?
    ensures s.outstanding != {} ==>
      s.fields.lease.Some? && s.fields.lease.value.tokens == s.outstanding
    ensures s.unloadCount <= 1 && (s.unloadCount == 1 <==> !s.fields.library)
    ensures !s.fault
    ensures !s.manyOwners ==> s.fields.ownerReferences == s.owners && (s.owners > 0 ==> s.fields.library)
    ensures forall g, h ::
      s.fields.lease.Some? && s.fields.lease.value.exclusive && g in s.outstanding && h in s.outstanding ==> g == h
  {
    hide Reachable, Invokers, Closers, LeaseInv, MayAsk, WaitingAgrees;
    ReachableStatesKeepInv(s);
    forall t, u | t in Closers(s) && u in s.places && u != t
      ensures s.places[u].Idle?
    {
      CloserIsAlone(s, t, u);
    }
    forall t | t in Invokers(s) || t in Closers(s)
      ensures s.fields.library && s.fields.lease.Some?
    {
      InsideMeansLoaded(s, t);
    }
    if s.fields.lease.Some? && s.fields.lease.value.exclusive {
      forall g, h | g in s.outstanding && h in s.outstanding
        ensures g == h
      {
        ExclusiveMeansOne(s.fields.lease.value, g, h);
      }
    }
  }

  // What an invocation is answered at its first section, in every run: it is refused exactly when the module is
  // closing, its transport does not fit, or no operation can begin for want of memory, room, or, in an exclusive
  // module, because another one is outstanding. Otherwise it enters the provider with a token of its own.
  lemma InvokeResult(s: State, t: ThreadId, q: Request, memory: Memory)
    requires Reachable(s) && t in s.places && s.places[t].Idle?
    ensures var (f, r) := BeginInvoke(s.fields, q, memory);
      && (r == Refused(Closing) <==> s.fields.closing)
      && (r == Refused(DescriptorMismatch) <==>
            !s.fields.closing && q.hasTransport && !(q.kindMatches && q.digestMatches))
      && (r.Started? <==>
            && !s.fields.closing && (q.hasTransport ==> q.kindMatches && q.digestMatches)
            && memory == Enough && s.fields.lease.Some? && (s.fields.lease.value.exclusive ==> s.outstanding == {})
            && |s.outstanding| < WORD32 - 1 && s.fields.lease.value.nextGeneration < WORD64 - 1)
      && (r.Refused? ==> r.status in {Closing, DescriptorMismatch, NotReady})
      && (r.Started? ==>
            && r.token !in s.outstanding
            && InvokeSection(s, t, q, memory) == s.(fields := f, places := s.places[t := Invoking(r.token)],
                                                    outstanding := s.outstanding + {r.token}))
  {
    hide Reachable, PlacesAgree, MayAsk, WaitingAgrees, BeginInvoke, LeaseInv;
    ReachableStatesKeepInv(s);
    StartAnswers(s.fields, q, memory);
    CanEnter(s, t);
    InvokeOutcome(s.fields, q, memory);
  }

  // An owner reference is counted exactly when the module is not closed, nor closing with none left, and giving one
  // back takes one away; nothing else changes.
  lemma OwnerResult(s: State)
    requires Reachable(s) && !s.manyOwners
    ensures
      if !s.fields.closed && (s.fields.closing ==> s.owners > 0) then
        RetainSection(s).fields
          == s.fields.(ownerReferences := if s.owners == WORD64 - 1 then 0 else s.owners + 1)
        && RetainSection(s).owners == s.owners + 1
      else RetainSection(s) == s
    ensures UnretainSection(s).owners == (if s.owners > 0 then s.owners - 1 else 0)
    ensures UnretainSection(s).fields == s.fields.(ownerReferences := UnretainSection(s).owners)
  {
    hide Reachable, PlacesAgree, WaitingAgrees, LeaseInv;
    ReachableStatesKeepInv(s);
  }

  lemma CanEnter(s: State, t: ThreadId)
    requires PlacesAgree(s) && t in s.places && s.places[t].Idle?
    ensures s.fields.activeInvocations < WORD64 - 1
  {
    IdleIsOutside(s, t);
  }

  lemma NobodyInsideClosed(s: State)
    requires Inv(s) && s.fields.closed
    ensures Invokers(s) == {} && Closers(s) == {} && s.outstanding == {}
  {
    hide MayAsk, WaitingAgrees;
    assert |Invokers(s)| == 0;
  }

  lemma ClosedStays(s: State, a: Action)
    requires Inv(s) && s.fields.closed && Enabled(s, a)
    ensures Step(s, a).fields == s.fields && Step(s, a).unloadCount == s.unloadCount
    ensures Step(s, a).owners <= s.owners
  {
    NobodyInsideClosed(s);
    hide Inv, PlacesAgree;
    assert a.Serve? ==> a.t !in Invokers(s) && a.t !in Closers(s);
    ClosedFields(s);
  }

  lemma ClosedFields(s: State)
    requires Inv(s) && s.fields.closed
    ensures s.fields == Fields(false, None, true, true, false, 0, 0) && s.unloadCount == 1
  {
  }

  // A closed module has let go of everything, and no later step changes that.
  lemma {:induction false} ClosedIsTerminal(s: State, actions: seq<Action>, s': State)
    requires Inv(s) && s.fields.closed && Runs(s, actions, s')
    ensures s'.fields == s.fields && s'.unloadCount == 1
    ensures s'.fields == Fields(false, None, true, true, false, 0, 0)
    ensures s'.owners <= s.owners
    ensures Invokers(s') == {} && Closers(s') == {} && s'.outstanding == {}
    decreases |actions|
  {
    hide Inv, Step, Enabled, Shrinks;
    ClosedFields(s);
    NobodyInsideClosed(s);
    if actions != [] {
      StepKeepsInv(s, actions[0]);
      ClosedStays(s, actions[0]);
      ClosedIsTerminal(Step(s, actions[0]), actions[1..], s');
    }
  }

  // Once closing is set nothing new starts: invocations and lease tokens only disappear, and owner
  // references that have reached zero stay there.
  lemma {:induction false} ClosingOnlyShrinks(s: State, actions: seq<Action>, s': State)
    requires Inv(s) && s.fields.closing && Runs(s, actions, s')
    ensures s'.fields.closing
    ensures Invokers(s') <= Invokers(s) && s'.outstanding <= s.outstanding
    ensures s.fields.ownerReferences == 0 ==> s'.fields.ownerReferences == 0
    decreases |actions|
  {
    hide Inv, Step, Enabled, Invokers;
    if actions != [] {
      StepKeepsInv(s, actions[0]);
      ClosingOnlyShrinks(Step(s, actions[0]), actions[1..], s');
    }
  }

  lemma CloseAnswer(f: Fields, providerOk: bool)
    requires FieldsInv(f) && f.closeRunning
    ensures var (f', status) := EndClose(f, providerOk);
      && (status == Ok <==> f'.closed)
      && (status == Ok <==> providerOk && f.ownerReferences == 0 && TokensOf(f) == {})
      && (status == PlatformError <==> !providerOk)
      && (status != Ok ==> f'.library && f'.lease.Some? && f'.closing && !f'.closeRunning)
  {
  }

  // The answer of a close whose provider part has returned, in both directions: it is OK, and the module
  // closed, exactly when the provider agreed and no owner or operation is left.
  lemma CloseResult(s: State, t: ThreadId, providerOk: bool)
    requires Reachable(s) && t in s.places && s.places[t].ClosingProvider?
    ensures var (f, status) := EndClose(s.fields, providerOk);
      && (status == Ok <==> f.closed)
      && (status == Ok <==> providerOk && s.fields.ownerReferences == 0 && s.outstanding == {})
      && (!s.manyOwners ==> (status == Ok <==> providerOk && s.owners == 0 && s.outstanding == {}))
      && (status == PlatformError <==> !providerOk)
      && (status != Ok ==> f.library && f.lease.Some? && f.closing && !f.closeRunning)
  {
    hide Reachable, Invokers, Closers, EndClose, FieldsInv, TokensOf, MayAsk;
    ReachableStatesKeepInv(s);
    InsideIsCounted(s, t);
    CloseAnswer(s.fields, providerOk);
  }

  // A close attempt reaches the provider exactly when nobody else is inside it; otherwise it asks for a
  // retry and has changed nothing that a retry depends on.
  lemma CloseStartResult(s: State)
    requires Reachable(s) && !s.fields.closed
    ensures var (f, r) := BeginClose(s.fields);
      && (r.CallProvider? <==> Invokers(s) == {} && Closers(s) == {})
      && (!r.CallProvider? ==> r == Return(NotReady) && f.closeRunning == s.fields.closeRunning)
      && f.closing && f.lease.Some? && f.lease.value.tokens == s.outstanding
  {
    hide MayAsk, WaitingAgrees, Reachable;
    ReachableStatesKeepInv(s);
    assert |Invokers(s)| == 0 <==> Invokers(s) == {};
  }

  // ----- Retrying until the module is closed -----

  lemma StepExtendsRun(s: State, a: Action, actions: seq<Action>, s': State)
    requires Enabled(s, a) && Runs(Step(s, a), actions, s')
    ensures Runs(s, [a] + actions, s')
  {
    assert ([a] + actions)[1..] == actions;
  }

  lemma {:induction false} RunsConcat(s: State, first: seq<Action>, m: State, second: seq<Action>, s': State)
    requires Runs(s, first, m) && Runs(m, second, s')
    ensures Runs(s, first + second, s')
    decreases |first|
  {
    hide Step, Enabled;
    if first == [] {
      assert first + second == second;
    } else {
      assert (first + second)[1..] == first[1..] + second;
      RunsConcat(Step(s, first[0]), first[1..], m, second, s');
    }
  }

  // A waiting thread gets the mutex, runs its section and unlocks.
  lemma ServeWaiting(s: State, t: ThreadId) returns (s': State)
    requires !s.released && s.holder.None? && t in s.waiting && t in s.places && MayAsk(s.places[t], s.waiting[t])
    ensures Runs(s, [Serve(t), Unlock], s')
    ensures s' == Section(s, t, s.waiting[t]).(waiting := s.waiting - {t})
  {
    SectionFrame(s, t, s.waiting[t]);
    hide Section, MayAsk;
    var served := Step(s, Serve(t));
    s' := Step(served, Unlock);
    assert Runs(s', [], s');
    StepExtendsRun(served, Unlock, [], s');
    StepExtendsRun(s, Serve(t), [Unlock], s');
  }

  // A thread outside makes a whole locked call.
  lemma ServeCall(s: State, t: ThreadId, call: Call) returns (s': State)
    requires !s.released && s.holder.None? && Outside(s, t) && MayAsk(s.places[t], call)
    ensures Runs(s, [Ask(t, call), Serve(t), Unlock], s')
    ensures s' == Section(s, t, call)
  {
    var asked := Step(s, Ask(t, call));
    s' := ServeWaiting(asked, t);
    StepExtendsRun(s, Ask(t, call), [Serve(t), Unlock], s');
    assert asked.waiting - {t} == s.waiting;
    SectionIgnoresQueue(s, t, call, asked.waiting);
  }

  lemma CallsIgnoreQueue(s: State, t: ThreadId, call: Call, waiting: map<ThreadId, Call>)
    requires t in s.places && MayAsk(s.places[t], call) && (call.ToInvoke? || call.ToEndInvoke?)
    ensures Section(s.(waiting := waiting), t, call) == Section(s, t, call).(waiting := waiting)
  {
    hide BeginInvoke, EndInvoke, CloseSection, EndCloseSection, RetainSection, UnretainSection;
  }

  lemma ClosesIgnoreQueue(s: State, t: ThreadId, call: Call, waiting: map<ThreadId, Call>)
    requires t in s.places && MayAsk(s.places[t], call) && (call.ToClose? || call.ToEndClose?)
    ensures Section(s.(waiting := waiting), t, call) == Section(s, t, call).(waiting := waiting)
  {
    hide BeginClose, EndClose, InvokeSection, EndInvokeSection, RetainSection, UnretainSection, CloseSection,
      EndCloseSection;
    match call {
      case ToClose => CloseIgnoresQueue(s, t, waiting);
      case ToEndClose(providerOk) => EndCloseIgnoresQueue(s, t, providerOk, waiting);
    }
  }

  lemma CloseIgnoresQueue(s: State, t: ThreadId, waiting: map<ThreadId, Call>)
    ensures CloseSection(s.(waiting := waiting), t) == CloseSection(s, t).(waiting := waiting)
  {
    hide BeginClose;
  }

  lemma EndCloseIgnoresQueue(s: State, t: ThreadId, providerOk: bool, waiting: map<ThreadId, Call>)
    ensures EndCloseSection(s.(waiting := waiting), t, providerOk)
         == EndCloseSection(s, t, providerOk).(waiting := waiting)
  {
    hide EndClose;
  }

  lemma OwnersIgnoreQueue(s: State, t: ThreadId, call: Call, waiting: map<ThreadId, Call>)
    requires t in s.places && MayAsk(s.places[t], call) && (call.ToRetain? || call.ToUnretain?)
    ensures Section(s.(waiting := waiting), t, call) == Section(s, t, call).(waiting := waiting)
  {
    hide InvokeSection, EndInvokeSection, CloseSection, EndCloseSection, RetainSection, UnretainSection;
    OwnerSectionsIgnoreQueue(s, waiting);
  }

  lemma OwnerSectionsIgnoreQueue(s: State, waiting: map<ThreadId, Call>)
    ensures RetainSection(s.(waiting := waiting)) == RetainSection(s).(waiting := waiting)
    ensures UnretainSection(s.(waiting := waiting)) == UnretainSection(s).(waiting := waiting)
  {
    hide RetainOwner, ReleaseOwner;
  }

  lemma SectionIgnoresQueue(s: State, t: ThreadId, call: Call, waiting: map<ThreadId, Call>)
    requires t in s.places && MayAsk(s.places[t], call)
    ensures Section(s.(waiting := waiting), t, call) == Section(s, t, call).(waiting := waiting)
  {
    hide Section;
    match call {
      case ToInvoke(_, _) => CallsIgnoreQueue(s, t, call, waiting);
      case ToEndInvoke(_, _) => CallsIgnoreQueue(s, t, call, waiting);
      case ToClose => ClosesIgnoreQueue(s, t, call, waiting);
      case ToEndClose(_) => ClosesIgnoreQueue(s, t, call, waiting);
      case _ => OwnersIgnoreQueue(s, t, call, waiting);
    }
  }

  // What still holds the module: calls inside the provider, owners and operations.
  ghost function Load(s: State): nat {
    |Invokers(s)| + |Closers(s)| + s.fields.ownerReferences + |s.outstanding|
  }

  // A waiting thread counts twice, as its section may take a reference or enter the provider's close.
  ghost function Obstacles(s: State): nat { 2 * |s.waiting| + Load(s) }

  ghost predicate Open(s: State) { Inv(s) && !s.released && s.fields.closing && !s.fields.closed }

  lemma CloseLoads(s: State, t: ThreadId)
    requires Open(s) && t in s.places && s.places[t].Idle?
    ensures Load(CloseSection(s, t)) <= Load(s) + 1
  {
    hide BeginClose, FieldsInv, TokensOf, Invokers, Closers, WaitingAgrees;
    var s' := CloseSection(s, t);
    IdleIsOutside(s, t);
    CloseOutcome(s.fields);
    if s'.places == s.places {
      SamePlaces(s, s');
    } else {
      Moved(s, t, ClosingProvider, s');
    }
  }

  lemma EndInvokeUnloads(s: State, t: ThreadId, providerOk: bool, settles: bool)
    requires Open(s) && t in s.places && s.places[t].Invoking?
    ensures Load(EndInvokeSection(s, t, providerOk, settles)) < Load(s)
  {
    var s' := EndInvokeSection(s, t, providerOk, settles);
    EndInvokeKeepsCore(s, t, providerOk, settles);
    hide FieldsInv, TokensOf, Invokers, Closers, WaitingAgrees, MayAsk;
    InsideIsCounted(s, t);
    EndInvokeOutcome(s.fields, s.places[t].token, providerOk, settles);
    Moved(s, t, Idle, s');
    SubsetCardinality(s'.outstanding, s.outstanding);
  }

  lemma EndCloseUnloads(s: State, t: ThreadId, providerOk: bool)
    requires Open(s) && t in s.places && s.places[t].ClosingProvider?
    ensures Load(EndCloseSection(s, t, providerOk)) < Load(s)
    ensures !providerOk ==> !EndCloseSection(s, t, providerOk).fields.closed
  {
    var s' := EndCloseSection(s, t, providerOk);
    EndCloseKeepsCore(s, t, providerOk);
    InsideIsCounted(s, t);
    EndCloseOutcome(s.fields, providerOk);
    hide FieldsInv, TokensOf, Invokers, Closers, WaitingAgrees, MayAsk;
    assert |Closers(s)| > 0;
  }

  lemma RefusedInvokeLoads(s: State, t: ThreadId, q: Request, memory: Memory)
    requires s.fields.closing
    ensures InvokeSection(s, t, q, memory) == s
  {
  }

  lemma OwnersLoad(s: State)
    requires Open(s)
    ensures Load(RetainSection(s)) <= Load(s) + 1 && Load(UnretainSection(s)) <= Load(s)
    ensures s.fields.ownerReferences > 0 ==> Load(UnretainSection(s)) < Load(s)
  {
    hide FieldsInv, TokensOf, Invokers, Closers, WaitingAgrees, MayAsk;
    SamePlaces(s, RetainSection(s));
    SamePlaces(s, UnretainSection(s));
  }

  lemma SectionLoads(s: State, t: ThreadId, call: Call)
    requires Open(s) && t in s.places && MayAsk(s.places[t], call)
    ensures Load(Section(s, t, call)) <= Load(s) + 1
    ensures call.Continues() ==> Load(Section(s, t, call)) < Load(s)
    ensures call == ToUnretain && s.fields.ownerReferences > 0 ==> Load(Section(s, t, call)) < Load(s)
    ensures call != ToEndClose(true) ==> !Section(s, t, call).fields.closed
  {
    hide Load, InvokeSection, EndInvokeSection, CloseSection, EndCloseSection, RetainSection, UnretainSection, Inv;
    StaysOpen(s, t, call);
    match call {
      case ToInvoke(q, memory) => RefusedInvokeLoads(s, t, q, memory);
      case ToEndInvoke(providerOk, settles) => EndInvokeUnloads(s, t, providerOk, settles);
      case ToClose => CloseLoads(s, t);
      case ToEndClose(providerOk) => EndCloseUnloads(s, t, providerOk);
      case _ => OwnersLoad(s);
    }
  }

  lemma StaysOpen(s: State, t: ThreadId, call: Call)
    requires Open(s) && t in s.places && MayAsk(s.places[t], call)
    ensures call != ToEndClose(true) ==> !Section(s, t, call).fields.closed
  {
    hide Inv, BeginOperation, BeginLeaseClose, ReleaseToken, Quiesce;
    match call {
      case ToInvoke(_, _) =>
      case ToEndInvoke(_, _) =>
      case ToClose =>
      case ToEndClose(_) =>
      case _ =>
    }
  }

  // One unit of work: the module is closed, or less holds it than before.
  ghost predicate Progress(s: State, actions: seq<Action>, s': State) {
    && Runs(s, actions, s') && |actions| <= 3
    && Inv(s') && !s'.released && s'.fields.closing && s'.holder.None? && s'.places.Keys == s.places.Keys
    && (s'.fields.closed || Obstacles(s') < Obstacles(s))
  }

  lemma RunKeepsShape(s: State, actions: seq<Action>, s': State)
    requires Inv(s) && Runs(s, actions, s')
    ensures Inv(s')
  {
    RunKeepsInv(s, actions, s');
  }

  // A section that lightens the load, by a thread outside.
  lemma CallProgresses(s: State, t: ThreadId, call: Call) returns (actions: seq<Action>, s': State)
    requires Open(s) && s.holder.None? && Outside(s, t) && MayAsk(s.places[t], call)
    requires call.Continues() || (call == ToUnretain && s.fields.ownerReferences > 0)
    ensures Progress(s, actions, s')
  {
    hide Section, Load, MayAsk, Shrinks;
    SectionLoads(s, t, call);
    SectionFrame(s, t, call);
    SectionKeepsCore(s, t, call);
    actions := [Ask(t, call), Serve(t), Unlock];
    s' := ServeCall(s, t, call);
    hide Inv, Step, Enabled;
    RunKeepsInv(s, actions, s');
    ShrinksCloses(s, s');
  }

  lemma ShrinksCloses(s: State, s': State)
    requires Shrinks(s, s')
    ensures s'.fields.closing
  {
  }

  lemma WaitingProgresses(s: State, t: ThreadId) returns (actions: seq<Action>, s': State)
    requires Open(s) && s.holder.None? && t in s.waiting
    ensures Progress(s, actions, s')
  {
    hide Section, Load, Shrinks, MayAsk;
    SectionLoads(s, t, s.waiting[t]);
    SectionFrame(s, t, s.waiting[t]);
    SectionKeepsCore(s, t, s.waiting[t]);
    actions := [Serve(t), Unlock];
    s' := ServeWaiting(s, t);
    hide Inv, Step, Enabled;
    RunKeepsInv(s, actions, s');
    ShrinksCloses(s, Section(s, t, s.waiting[t]));
    LoadIgnoresQueue(Section(s, t, s.waiting[t]), s');
    assert (s.waiting - {t}).Keys == s.waiting.Keys - {t};
    assert |(s.waiting - {t}).Keys| == |s.waiting - {t}| && |s.waiting.Keys| == |s.waiting|;
  }

  lemma LoadIgnoresQueue(s: State, s': State)
    requires s'.places == s.places && s'.fields == s.fields && s'.outstanding == s.outstanding
    ensures Load(s') == Load(s)
  {
    hide Invokers, Closers;
    SamePlaces(s, s');
  }

  lemma SettleUnloads(s: State, g: nat)
    requires Open(s) && g in s.outstanding
    ensures Load(SettleToken(s, g)) < Load(s)
    ensures var s' := SettleToken(s, g);
      && s'.waiting == s.waiting && s'.fields.closing && !s'.fields.closed && s'.holder == s.holder
      && s'.places == s.places && s'.released == s.released
  {
    SettleKeepsInv(s, g);
    hide Inv, Invokers, Closers, ReleaseToken;
    SamePlaces(s, SettleToken(s, g));
    assert |s.outstanding - {g}| < |s.outstanding|;
  }

  lemma SettleProgresses(s: State, g: nat) returns (actions: seq<Action>, s': State)
    requires Open(s) && s.holder.None? && g in s.outstanding
    ensures Progress(s, actions, s')
  {
    SettleKeepsInv(s, g);
    SettleUnloads(s, g);
    hide Inv, Load, SettleToken;
    s' := Step(s, Settle(g));
    actions := [Settle(g)];
    assert Runs(s', [], s') && [Settle(g)] + [] == [Settle(g)];
    StepExtendsRun(s, Settle(g), [], s');
  }

  // While something still holds the module there is a call that lets go of it.
  lemma RemoveObstacle(s: State) returns (actions: seq<Action>, s': State)
    requires Open(s) && s.holder.None? && Obstacles(s) > 0 && s.places.Keys != {}
    ensures Progress(s, actions, s')
  {
    hide Progress;
    NobodyDeletes(s);
    if s.waiting != map[] {
      var t :| t in s.waiting;
      actions, s' := WaitingProgresses(s, t);
    } else if Invokers(s) != {} {
      var t :| t in Invokers(s);
      actions, s' := CallProgresses(s, t, ToEndInvoke(true, false));
    } else if Closers(s) != {} {
      var t :| t in Closers(s);
      actions, s' := CallProgresses(s, t, ToEndClose(false));
    } else if s.outstanding != {} {
      var g :| g in s.outstanding;
      actions, s' := SettleProgresses(s, g);
    } else {
      var t :| t in s.places.Keys;
      actions, s' := CallProgresses(s, t, ToUnretain);
    }
  }

  lemma NobodyDeletes(s: State)
    requires Open(s)
    ensures forall t :: t in s.places ==> !s.places[t].Deleting?
  {
    hide FieldsInv, WaitingAgrees;
  }

  // A module that nothing holds any more is closed by the next attempt.
  lemma CloseAttempt(s: State, t: ThreadId) returns (actions: seq<Action>, s': State)
    requires !s.released && Outside(s, t) && s.places[t].Idle? && s.holder.None? && !s.fields.closed
    requires s.fields.library && s.fields.lease.Some? && s.fields.lease.value.transports == 0
    requires s.fields.activeInvocations == 0 && !s.fields.closeRunning && s.fields.ownerReferences == 0
    requires s.fields.lease.value.tokens == {}
    ensures actions == [Ask(t, ToClose), Serve(t), Unlock, Ask(t, ToEndClose(true)), Serve(t)]
    ensures Runs(s, actions, s') && s'.fields.closed
    ensures s' == s.(fields := s'.fields, holder := Some(t), unloadCount := s.unloadCount + 1)
  {
    var begun := ServeCall(s, t, ToClose);
    assert begun.fields.closeRunning && begun.places[t].ClosingProvider?;
    var asked := Step(begun, Ask(t, ToEndClose(true)));
    s' := Step(asked, Serve(t));
    assert s'.places == s.places && s'.waiting == s.waiting;
    hide LiveStep, Section, BeginClose, EndClose;
    assert Runs(s', [], s');
    StepExtendsRun(asked, Serve(t), [], s');
    StepExtendsRun(begun, Ask(t, ToEndClose(true)), [Serve(t)], s');
    RunsConcat(s, [Ask(t, ToClose), Serve(t), Unlock], begun, [Ask(t, ToEndClose(true)), Serve(t)], s');
    actions := [Ask(t, ToClose), Serve(t), Unlock] + [Ask(t, ToEndClose(true)), Serve(t)];
  }

  lemma NothingHolds(s: State, t: ThreadId)
    requires Open(s) && Obstacles(s) == 0 && t in s.places && s.holder.None?
    ensures Outside(s, t) && s.places[t].Idle? && s.fields.library && s.fields.lease.Some?
    ensures s.fields.lease.value.transports == 0 && s.fields.lease.value.tokens == {}
    ensures s.fields.activeInvocations == 0 && !s.fields.closeRunning && s.fields.ownerReferences == 0
  {
    NobodyDeletes(s);
    InsideIsCounted(s, t);
    hide MayAsk;
    assert |Closers(s)| == 0 && |Invokers(s)| == 0 && |s.waiting| == 0;
  }

  lemma ScheduleClose(s: State) returns (actions: seq<Action>, s': State)
    requires Open(s) && s.holder.None? && s.places.Keys != {}
    ensures Runs(s, actions, s') && s'.fields.closed
    ensures |actions| <= 3 * Obstacles(s) + 5
    decreases Obstacles(s)
  {
    hide Step, Enabled, Runs, Load, Inv;
    if Obstacles(s) == 0 {
      var t :| t in s.places.Keys;
      NothingHolds(s, t);
      actions, s' := CloseAttempt(s, t);
    } else {
      var first, middle := RemoveObstacle(s);
      if middle.fields.closed {
        actions, s' := first, middle;
      } else {
        var rest, end := ScheduleClose(middle);
        RunsConcat(s, first, middle, rest, end);
        actions, s' := first + rest, end;
      }
    }
  }

  // Retrying close is worth it: from every reachable closing state some schedule of calls, returns from the
  // provider and completions of operations, of a length bounded by what still holds the module, closes it.
  lemma CloseCanFinish(s: State)
    requires Reachable(s) && !s.released && s.fields.closing && !s.fields.closed && s.places.Keys != {}
    ensures exists actions, s' :: Runs(s, actions, s') && s'.fields.closed && |actions| <= 3 * Obstacles(s) + 6
  {
    ReachableStatesKeepInv(s);
    if s.holder.Some? {
      StepKeepsInv(s, Unlock);
      var free := Step(s, Unlock);
      LoadIgnoresQueue(s, free);
      hide Inv, Step, Load;
      var rest, s' := ScheduleClose(free);
      StepExtendsRun(s, Unlock, rest, s');
    } else {
      hide Inv, Step, Load;
      var actions, s' := ScheduleClose(s);
    }
  }

  // ----- When deleting the module is safe -----

  // The clients begin no new call; threads inside the loader go on.
  ghost predicate NoNewCalls(actions: seq<Action>) {
    forall i :: 0 <= i < |actions| ==> (actions[i].Ask? ==> actions[i].call.Continues()) && !actions[i].Release?
  }

  // Some continuation of the threads that are inside the loader uses the deleted module.
  ghost predicate CanDangle(s: State) {
    exists actions, s' :: Runs(s, actions, s') && NoNewCalls(actions) && s'.dangling
  }

  // Nobody else is inside the provider, waits for the mutex, holds it, or is about to delete the module.
  ghost predicate Alone(s: State, t: ThreadId) {
    && (forall u :: u in s.places && u != t ==> s.places[u].Idle? && u !in s.waiting)
    && (s.holder.Some? ==> s.holder == Some(t))
  }

  lemma OneStepDangles(s: State, a: Action)
    requires s.released && Enabled(s, a) && !a.Settle? && !a.Release? && (a.Ask? ==> a.call.Continues())
    ensures CanDangle(s)
  {
    var s' := Step(s, a);
    assert Runs(s', [], s');
    assert [a][1..] == [];
    assert Runs(s, [a], s') && NoNewCalls([a]);
  }

  lemma DeletedWithOthersDangles(s: State, t: ThreadId)
    requires Inv(s) && s.released && Outside(s, t) && !Alone(s, t)
    ensures CanDangle(s)
  {
    hide FieldsInv, PlacesAgree, CanDangle;
    if s.holder.Some? {
      OneStepDangles(s, Unlock);
    } else {
      var u :| u in s.places && u != t && (!s.places[u].Idle? || u in s.waiting);
      if u in s.waiting {
        OneStepDangles(s, Serve(u));
      } else {
        OneStepDangles(s, match s.places[u]
                          case Invoking(_) => Ask(u, ToEndInvoke(true, false))
                          case ClosingProvider => Ask(u, ToEndClose(false))
                          case _ => Delete(u));
      }
    }
  }

  lemma IdleThreadsDoNothing(s: State, actions: seq<Action>, s': State)
    requires Inv(s) && s.fields.closed && Runs(s, actions, s') && NoNewCalls(actions)
    requires (forall u :: u in s.places ==> s.places[u].Idle? && u !in s.waiting) && s.holder.None?
    ensures s' == s
  {
    NobodyInsideClosed(s);
    WaitersAreThreads(s);
    hide Inv;
    if actions != [] {
      NothingContinues(s, actions[0]);
    }
  }

  lemma NothingContinues(s: State, a: Action)
    requires s.outstanding == {} && s.holder.None? && forall t :: t in s.waiting ==> t in s.places
    requires forall u :: u in s.places ==> s.places[u].Idle? && u !in s.waiting
    requires (a.Ask? ==> a.call.Continues()) && !a.Release?
    ensures !Enabled(s, a)
  {
  }

  lemma WaitersAreThreads(s: State)
    requires Inv(s)
    ensures forall t :: t in s.waiting ==> t in s.places
  {
    hide FieldsInv, PlacesAgree, MayAsk;
  }

  // A thread that has read `closed` can safely delete the module if and only if nobody else is inside the
  // loader. On a closed module that is: no thread waits for the mutex or holds it, and no other one has read
  // `closed` as well.
  lemma DeleteIsSafeExactlyAlone(s: State, t: ThreadId)
    requires Reachable(s) && Enabled(s, Delete(t)) && !s.released && !s.dangling
    ensures Alone(s, t) <==>
      s.waiting == map[] && s.holder.None? && forall u :: u in s.places && s.places[u].Deleting? ==> u == t
    ensures CanDangle(Step(s, Delete(t))) <==> !Alone(s, t)
  {
    hide Reachable, CanDangle, FieldsInv;
    ReachableStatesKeepInv(s);
    DeletingIsClosed(s, t);
    NobodyInsideClosed(s);
    assert forall u :: u in s.places ==> u !in Invokers(s) && u !in Closers(s);
    WaitersAreThreads(s);
    DeletionDecides(s, t);
  }

  lemma DeletionDecides(s: State, t: ThreadId)
    requires Inv(s) && Enabled(s, Delete(t)) && !s.released && !s.dangling
    ensures CanDangle(Step(s, Delete(t))) <==> !Alone(s, t)
  {
    StepKeepsInv(s, Delete(t));
    DeletingIsClosed(s, t);
    var deleted := Step(s, Delete(t));
    hide Inv;
    if !Alone(s, t) {
      assert !Alone(deleted, t);
      DeletedWithOthersDangles(deleted, t);
    } else if CanDangle(deleted) {
      var actions, s' :| Runs(deleted, actions, s') && NoNewCalls(actions) && s'.dangling;
      IdleThreadsDoNothing(deleted, actions, s');
    }
  }

  // Clients that call release only when no other thread is inside the loader, and begin nothing else until it
  // has been refused.
  ghost predicate Orderly(s: State, a: Action) {
    (a.Ask? && !a.call.Continues()) || a.Release? ==>
      && !s.released
      && (forall u :: u in s.places ==> !s.places[u].Deleting?)
      && (a.Release? ==> Alone(s, a.t))
  }

  ghost predicate OrderlyRun(s: State, actions: seq<Action>)
    decreases |actions|
  {
    actions != [] ==>
      Enabled(s, actions[0]) && Orderly(s, actions[0]) && OrderlyRun(Step(s, actions[0]), actions[1..])
  }

  // A thread about to delete is alone, and after the deletion everybody is outside.
  ghost predicate Quiet(s: State) {
    && (forall t :: t in s.places && s.places[t].Deleting? ==> Alone(s, t) && Outside(s, t))
    && (s.released ==> s.holder.None? && forall t :: t in s.places ==> s.places[t].Idle? && t !in s.waiting)
    && (forall t :: t in s.waiting ==> t in s.places)
    && !s.dangling
  }

  lemma OrderlyStepStaysQuiet(s: State, a: Action)
    requires Quiet(s) && Enabled(s, a) && Orderly(s, a)
    ensures Quiet(Step(s, a))
  {
    hide Section, ReleaseToken;
    if a.Serve? {
      SectionFrame(s, a.t, s.waiting[a.t]);
    }
  }

  lemma {:induction false} OrderlyRunStaysQuiet(s: State, actions: seq<Action>, s': State)
    requires Quiet(s) && Runs(s, actions, s') && OrderlyRun(s, actions)
    ensures Quiet(s')
    decreases |actions|
  {
    hide Quiet, Enabled, Step, Orderly;
    if actions != [] {
      OrderlyStepStaysQuiet(s, actions[0]);
      OrderlyRunStaysQuiet(Step(s, actions[0]), actions[1..], s');
    }
  }

  // With such clients no thread ever uses the deleted module.
  lemma OrderlyClientsAreSafe(s0: State, actions: seq<Action>, s: State)
    requires Init(s0) && Runs(s0, actions, s) && OrderlyRun(s0, actions)
    ensures !s.dangling
  {
    OrderlyRunStaysQuiet(s0, actions, s);
  }

  lemma FreshModule(s: State)
    requires Init(s)
    ensures s.fields.library && s.fields.lease.Some? && s.fields.lease.value.transports == 0
    ensures s.fields.lease.value.tokens == {} && !s.fields.closed
    ensures s.fields.activeInvocations == 0 && !s.fields.closeRunning && s.fields.ownerReferences == 0
  {
  }

  // One way to fail: a release that reads `closed` before the closer has unlocked deletes a mutex still held.
  lemma ReleaseCanRaceWithClose(s0: State, t: ThreadId, u: ThreadId) returns (actions: seq<Action>, s: State)
    requires Init(s0) && t in s0.places && u in s0.places && t != u
    ensures Runs(s0, actions, s) && s.dangling
  {
    FreshModule(s0);
    var closing, closed := CloseAttempt(s0, t);
    var read := Step(closed, Release(u));
    var deleted := Step(read, Delete(u));
    s := Step(deleted, Unlock);
    assert Runs(s, [], s);
    StepExtendsRun(deleted, Unlock, [], s);
    StepExtendsRun(read, Delete(u), [Unlock], s);
    StepExtendsRun(closed, Release(u), [Delete(u), Unlock], s);
    hide Step, Enabled;
    RunsConcat(s0, closing, closed, [Release(u), Delete(u), Unlock], s);
    actions := closing + [Release(u), Delete(u), Unlock];
  }

  // Another: a closer that still waits when the module is closed, unlocked and released gets a deleted mutex,
  // although nobody holds it.
  lemma ReleaseCanRaceWithWaiter(s0: State, t: ThreadId, u: ThreadId) returns (actions: seq<Action>, s: State)
    requires Init(s0) && t in s0.places && u in s0.places && t != u
    ensures Runs(s0, actions, s) && s.dangling
  {
    FreshModule(s0);
    var asked := Step(s0, Ask(u, ToClose));
    var closing, closed := CloseAttempt(asked, t);
    var unlocked := Step(closed, Unlock);
    var read := Step(unlocked, Release(t));
    var deleted := Step(read, Delete(t));
    s := Step(deleted, Serve(u));
    assert Runs(s, [], s);
    StepExtendsRun(deleted, Serve(u), [], s);
    StepExtendsRun(read, Delete(t), [Serve(u)], s);
    StepExtendsRun(unlocked, Release(t), [Delete(t), Serve(u)], s);
    StepExtendsRun(closed, Unlock, [Release(t), Delete(t), Serve(u)], s);
    hide LiveStep;
    RunsConcat(asked, closing, closed, [Unlock, Release(t), Delete(t), Serve(u)], s);
    StepExtendsRun(s0, Ask(u, ToClose), closing + [Unlock, Release(t), Delete(t), Serve(u)], s);
    actions := [Ask(u, ToClose)] + (closing + [Unlock, Release(t), Delete(t), Serve(u)]);
  }
}
