/**
  The payload transport of the ABI-2 runtime: a bounded queue of payloads between senders and receivers.

  Each side works in two phases under a token that holds the transport's resource lease, and move and drop callbacks
  run outside the mutex. The state machine interleaves any number of senders, receivers and closers, and other users
  of the lease.
*/
module PayloadTransport {
  import opened Prelude
  import opened ResourceLease
  import PayloadQueue

  type Payload = PayloadQueue.Payload

  // The fields that the transport's mutex protects, and the lease it shares with other users.
  datatype Fields = Fields(
    capacity: nat,
    typed: bool,
    queue: seq<Payload>,
    size: nat,
    reservations: nat,
    closed: bool,
    quiesced: bool,
    callbacks: nat,
    lease: Lease)

  // ----- The critical sections -----

  // Which allocation of a token fails, if any.
  datatype Memory = Enough | NoToken | NoRecord

  function AcquireToken(f: Fields, memory: Memory): (Fields, Option<nat>) {
    if memory == NoToken then (f, None)
    else
      var (l, token) := Acquire(f.lease, memory != NoRecord);
      (f.(lease := l), token)
  }

  // The sum is one of 64-bit words.
  predicate IsFull(f: Fields) { (f.size + f.reservations) % WORD64 >= f.capacity }

  function SendPrepare(f: Fields, memory: Memory): (Fields, Option<nat>) {
    if f.closed || IsFull(f) then (f, None)
    else
      var (g, token) := AcquireToken(f, memory);
      if token.None? then (g, None) else (g.(reservations := Inc64(f.reservations)), token)
  }

  // The second section of a commit: the payload that was moved meanwhile is appended.
  function SendCommit(f: Fields, payload: Payload): Fields {
    f.(queue := f.queue + [payload], size := Inc64(f.size), reservations := Dec64(f.reservations))
  }

  function SendCancel(f: Fields): Fields {
    f.(reservations := if f.reservations > 0 then f.reservations - 1 else 0)
  }

  // A head for which no token can be had goes back where it was.
  function ReceiveAcquire(f: Fields, memory: Memory): (r: (Fields, Option<nat>))
    ensures r.1.Some? ==> f.queue != []
  {
    if f.queue == [] then (f, None)
    else
      var (g, token) := AcquireToken(f, memory);
      if token.None? then (g, None) else (g.(queue := f.queue[1..], size := Dec64(f.size)), token)
  }

  // The second result says whether the caller has to drop what was queued.
  function CloseStart(f: Fields): (Fields, bool) {
    if f.quiesced then (f, false)
    else
      var g := if f.closed then f else f.(closed := true, lease := BeginLeaseClose(f.lease));
      if g.callbacks != 0 || g.lease.tokens != {} then (g, false)
      else (g.(queue := [], size := 0, callbacks := Inc64(g.callbacks)), true)
  }

  // The second result is true for the status OK.
  function CloseEnd(f: Fields): (Fields, bool) {
    var (l, quiet) := Quiesce(f.lease);
    (f.(callbacks := Dec64(f.callbacks), lease := l, quiesced := f.quiesced || quiet), quiet)
  }

  predicate MayDestroyTransport(f: Fields) { f.quiesced && f.lease.tokens == {} && f.size == 0 }

  // ----- Interleavings -----

  // A token under its lease generation. A commit that finds the transport closed is Cancelling, one whose payload
  // is being moved is Moving; a receiver that has settled its payload is Ending.
  datatype Token =
    | Prepared(source: Payload)
    | Cancelling
    | Moving(source: Payload)
    | Acquired(position: nat, payload: Payload)
    | Ending
  {
    predicate Sends() { Prepared? || Cancelling? || Moving? }
  }

  datatype Fate = Received | Dropped

  // `sent` are all payloads committed, `taken` all payloads handed to receivers, in order, and `fates` says for a
  // position of `sent` what became of it. While the queue is being dropped, `drain` is the next position.
  // `others` and `returned` are the lease tokens of other users and those given back. `fault` records a second
  // fate, a lease token returned twice, or the use of a destroyed transport.
  datatype State = State(
    fields: Fields,
    tokens: map<nat, Token>,
    sent: seq<Payload>,
    taken: seq<Payload>,
    fates: map<nat, Fate>,
    drain: Option<nat>,
    others: set<nat>,
    returned: set<nat>,
    destroyed: bool,
    fault: bool)

  datatype Action =
    | Prepare(source: Payload, memory: Memory)
    | StartCommit(token: nat, enough: bool)
    | EndCommit(token: nat)
    | Cancel(token: nat)
    | Receive(memory: Memory)
    | Deliver(token: nat)
    | Take(token: nat)
    | Drop(token: nat)
    | End(token: nat)
    | StartClose
    | DropNext
    | EndClose
    | Destroy
    | OtherAcquires(record: bool)
    | OtherReleases(token: nat)
    | OtherEndsLease
    | OtherQuietsLease

  ghost predicate Init(s: State) {
    && (exists exclusive :: s.fields.lease == AddTransport(NewLease(exclusive)).0)
    && s.fields == Fields(s.fields.capacity, s.fields.typed, [], 0, 0, false, false, 0, s.fields.lease)
    && 0 < s.fields.capacity < WORD64
    && s.tokens == map[] && s.sent == [] && s.taken == [] && s.fates == map[] && s.drain == None
    && s.others == {} && s.returned == {} && !s.destroyed && !s.fault
  }

  // Calls with the transport's handle end with its destruction; those with a token go on. Untyped payloads are
  // received by copy, typed ones are taken.
  predicate Enabled(s: State, a: Action) {
    match a
    case Prepare(_, _) => !s.destroyed
    case StartCommit(g, _) => g in s.tokens && s.tokens[g].Prepared?
    case EndCommit(g) => g in s.tokens && s.tokens[g].Moving?
    case Cancel(g) => g in s.tokens && (s.tokens[g].Prepared? || s.tokens[g].Cancelling?)
    case Receive(_) => !s.destroyed
    case Deliver(g) => g in s.tokens && s.tokens[g].Acquired? && !s.fields.typed
    case Take(g) => g in s.tokens && s.tokens[g].Acquired? && s.fields.typed
    case Drop(g) => g in s.tokens && s.tokens[g].Acquired?
    case End(g) => g in s.tokens && s.tokens[g].Ending?
    case StartClose => !s.destroyed
    case DropNext => s.drain.Some? && s.drain.value < |s.sent|
    case EndClose => s.drain.Some? && s.drain.value >= |s.sent|
    case Destroy => !s.destroyed
    case OtherReleases(g) => g in s.others
    case _ => true
  }

  // The position of the queue's head.
  function Next(s: State): nat {
    if |s.fields.queue| <= |s.sent| then |s.sent| - |s.fields.queue| else 0
  }

  // A token goes, with its lease token.
  function Return(s: State, g: nat): State {
    s.(fields := s.fields.(lease := ReleaseToken(s.fields.lease, g)), tokens := s.tokens - {g},
       returned := s.returned + {g}, fault := s.fault || g !in s.fields.lease.tokens || s.destroyed)
  }

  function Settle(s: State, i: nat, fate: Fate): State {
    s.(fates := s.fates[i := fate], fault := s.fault || i in s.fates || s.destroyed)
  }

  function Prepares(s: State, source: Payload, memory: Memory): State {
    var (f, token) := SendPrepare(s.fields, memory);
    if token.None? then s.(fields := f) else s.(fields := f, tokens := s.tokens[token.value := Prepared(source)])
  }

  function StartsCommit(s: State, g: nat, enough: bool): State
    requires g in s.tokens && s.tokens[g].Prepared?
  {
    if s.fields.closed then s.(tokens := s.tokens[g := Cancelling])
    else if !enough then s
    else s.(tokens := s.tokens[g := Moving(s.tokens[g].source)])
  }

  function Commits(s: State, g: nat, payload: Payload): State {
    Return(s.(fields := SendCommit(s.fields, payload), sent := s.sent + [payload]), g)
  }

  function Receives(s: State, memory: Memory): State {
    var (f, token) := ReceiveAcquire(s.fields, memory);
    if token.None? then s.(fields := f)
    else s.(fields := f, taken := s.taken + [s.fields.queue[0]],
            tokens := s.tokens[token.value := Acquired(Next(s), s.fields.queue[0])])
  }

  function StartsClose(s: State): State {
    var (f, drains) := CloseStart(s.fields);
    if drains then s.(fields := f, drain := Some(Next(s))) else s.(fields := f)
  }

  function Destroys(s: State): State {
    if !MayDestroyTransport(s.fields) then s
    else s.(fields := s.fields.(lease := DropTransport(s.fields.lease)), destroyed := true)
  }

  function OthersAcquire(s: State, record: bool): State {
    var (l, token) := Acquire(s.fields.lease, record);
    s.(fields := s.fields.(lease := l), others := if token.None? then s.others else s.others + {token.value})
  }

  function OthersRelease(s: State, g: nat): State {
    s.(fields := s.fields.(lease := ReleaseToken(s.fields.lease, g)), others := s.others - {g},
       returned := s.returned + {g}, fault := s.fault || g !in s.fields.lease.tokens)
  }

  function WithLease(s: State, l: Lease): State { s.(fields := s.fields.(lease := l)) }

  function Step(s: State, a: Action): State
    requires Enabled(s, a)
  {
    match a
    case Prepare(source, memory) => Prepares(s, source, memory)
    case StartCommit(g, enough) => StartsCommit(s, g, enough)
    case EndCommit(g) => Commits(s, g, s.tokens[g].source)
    case Cancel(g) => Return(s.(fields := SendCancel(s.fields)), g)
    case Receive(memory) => Receives(s, memory)
    case Deliver(g) => Return(Settle(s, s.tokens[g].position, Received), g)
    case Take(g) => Settle(s, s.tokens[g].position, Received).(tokens := s.tokens[g := Ending])
    case Drop(g) => Settle(s, s.tokens[g].position, Dropped).(tokens := s.tokens[g := Ending])
    case End(g) => Return(s, g)
    case StartClose => StartsClose(s)
    case DropNext => Settle(s, s.drain.value, Dropped).(drain := Some(s.drain.value + 1))
    case EndClose => s.(fields := CloseEnd(s.fields).0, drain := None)
    case Destroy => Destroys(s)
    case OtherAcquires(record) => OthersAcquire(s, record)
    case OtherReleases(g) => OthersRelease(s, g)
    case OtherEndsLease => WithLease(s, BeginLeaseClose(s.fields.lease))
    case OtherQuietsLease => WithLease(s, Quiesce(s.fields.lease).0)
  }

  ghost predicate Runs(s: State, actions: seq<Action>, s': State)
    decreases |actions|
  {
    if actions == [] then s' == s
    else Enabled(s, actions[0]) && Runs(Step(s, actions[0]), actions[1..], s')
  }

  // ----- The inductive invariant -----

  ghost function Senders(tokens: map<nat, Token>): set<nat> {
    set g | g in tokens && tokens[g].Sends()
  }

  ghost predicate Holds(tokens: map<nat, Token>, g: nat, i: nat) {
    g in tokens && tokens[g].Acquired? && tokens[g].position == i
  }

  // Every generation handed out is active, here or with others, or has been given back, and only one of these.
  ghost predicate LeasePart(l: Lease, tokens: map<nat, Token>, others: set<nat>, returned: set<nat>) {
    && LeaseInv(l) && l.nextGeneration >= 1
    && l.tokens == tokens.Keys + others && tokens.Keys !! others
    && returned !! l.tokens
    && (forall g: nat :: 1 <= g < l.nextGeneration <==> g in returned || g in l.tokens)
  }

  ghost predicate RoomPart(f: Fields, tokens: map<nat, Token>) {
    && f.size == |f.queue|
    && f.reservations == |Senders(tokens)|
    && f.size + f.reservations <= f.capacity < WORD64
  }

  // The positions below are out of the queue and settled, or in the hands of a receiver.
  function Gone(s: State): nat { if s.drain.Some? then s.drain.value else Next(s) }

  ghost predicate QueuePart(s: State) {
    && |s.taken| <= Gone(s) <= Next(s) && |s.fields.queue| <= |s.sent|
    && s.fields.queue == s.sent[Next(s)..]
    && s.taken == s.sent[..|s.taken|]
  }

  ghost predicate FatePart(s: State) {
    && (forall g :: g in s.tokens && s.tokens[g].Acquired? ==>
          s.tokens[g].position < |s.taken| && s.tokens[g].payload == s.taken[s.tokens[g].position])
    && (forall g, i :: Holds(s.tokens, g, i) ==> i !in s.fates)
    && (forall g, h, i :: Holds(s.tokens, g, i) && Holds(s.tokens, h, i) ==> g == h)
    && (forall i :: 0 <= i < |s.taken| ==> i in s.fates || exists g :: Holds(s.tokens, g, i))
    && (forall i :: i in s.fates ==> i < Gone(s))
    && (forall i :: |s.taken| <= i < Gone(s) ==> i in s.fates && s.fates[i] == Dropped)
  }

  // From the moment the queue is taken away no token is active.
  ghost predicate ClosePart(s: State) {
    && s.fields.callbacks == (if s.drain.Some? then 1 else 0)
    && (s.fields.closed ==> Ended(s.fields.lease))
    && (s.drain.Some? || Next(s) > |s.taken| ==> s.fields.closed && s.fields.queue == [] && s.fields.lease.tokens == {})
    && (s.fields.quiesced ==>
          s.fields.closed && s.fields.queue == [] && s.drain.None? && s.fields.lease.state == LeaseClosed)
    && (s.destroyed ==> s.fields.quiesced)
    && s.fields.lease.transports == (if s.destroyed then 0 else 1)
  }

  // Everything but the counts.
  ghost predicate Rest(s: State) {
    && LeasePart(s.fields.lease, s.tokens, s.others, s.returned)
    && QueuePart(s) && FatePart(s) && ClosePart(s) && !s.fault
  }

  ghost predicate Inv(s: State) { Rest(s) && RoomPart(s.fields, s.tokens) }

  // ----- Tokens and the lease -----

  lemma SendersAfter(tokens: map<nat, Token>, g: nat, token: Token)
    ensures Senders(tokens[g := token]) == if token.Sends() then Senders(tokens) + {g} else Senders(tokens) - {g}
  {
  }

  lemma SendersWithout(tokens: map<nat, Token>, g: nat)
    ensures Senders(tokens - {g}) == Senders(tokens) - {g}
    ensures g in Senders(tokens) <==> g in tokens && tokens[g].Sends()
  {
  }

  lemma GrownLeasePart(
      l: Lease, l': Lease, tokens: map<nat, Token>, others: set<nat>, returned: set<nat>, token: Token)
    requires LeasePart(l, tokens, others, returned) && LeaseInv(l')
    requires l'.tokens == l.tokens + {l.nextGeneration} && l'.nextGeneration == l.nextGeneration + 1
    ensures var g := l.nextGeneration;
      && g !in tokens && g !in others
      && LeasePart(l', tokens[g := token], others, returned) && LeasePart(l', tokens, others + {g}, returned)
  {
    hide LeaseInv;
    var g := l.nextGeneration;
    assert g !in l.tokens && g !in returned;
    assert tokens[g := token].Keys == tokens.Keys + {g};
    assert tokens.Keys + {g} + others == l'.tokens && tokens.Keys + (others + {g}) == l'.tokens;
  }

  lemma AcquireKeepsLeasePart(
      l: Lease, tokens: map<nat, Token>, others: set<nat>, returned: set<nat>, record: bool, token: Token)
    requires LeasePart(l, tokens, others, returned)
    ensures Acquire(l, record).0.transports == l.transports
    ensures var (l', g) := Acquire(l, record);
      match g
      case None => LeasePart(l', tokens, others, returned) && (Ended(l) ==> l' == l) && l'.tokens == l.tokens
      case Some(g) =>
        && !Ended(l) && g !in tokens && g !in others
        && LeasePart(l', tokens[g := token], others, returned)
        && LeasePart(l', tokens, others + {g}, returned)
  {
    AcquireKeepsLease(l, record);
    hide Acquire, LeaseInv;
    var (l', g) := Acquire(l, record);
    if g.Some? {
      GrownLeasePart(l, l', tokens, others, returned, token);
      hide LeasePart;
    }
  }

  lemma ReleaseKeepsLeasePart(l: Lease, tokens: map<nat, Token>, others: set<nat>, returned: set<nat>, g: nat)
    requires LeasePart(l, tokens, others, returned) && (g in tokens || g in others)
    ensures g in l.tokens && (Ended(l) ==> Ended(ReleaseToken(l, g)))
    ensures ReleaseToken(l, g).tokens == l.tokens - {g} && ReleaseToken(l, g).transports == l.transports
    ensures l.state == LeaseClosed ==> ReleaseToken(l, g).state == LeaseClosed
    ensures g in tokens ==> LeasePart(ReleaseToken(l, g), tokens - {g}, others, returned + {g})
    ensures g in others ==> LeasePart(ReleaseToken(l, g), tokens, others - {g}, returned + {g})
  {
    hide ReleaseToken, LeaseInv;
    ReleaseKeepsLease(l, g);
    assert (tokens - {g}).Keys == tokens.Keys - {g};
  }

  lemma SameKeysKeepLeasePart(
      l: Lease, tokens: map<nat, Token>, others: set<nat>, returned: set<nat>, tokens': map<nat, Token>)
    requires LeasePart(l, tokens, others, returned) && tokens'.Keys == tokens.Keys
    ensures LeasePart(l, tokens', others, returned)
  {
  }

  // Closing and quiescing change the state only.
  lemma EndingKeepsLeasePart(l: Lease, tokens: map<nat, Token>, others: set<nat>, returned: set<nat>)
    requires LeasePart(l, tokens, others, returned)
    ensures LeasePart(BeginLeaseClose(l), tokens, others, returned) && Ended(BeginLeaseClose(l))
    ensures LeasePart(Quiesce(l).0, tokens, others, returned)
    ensures BeginLeaseClose(l).tokens == l.tokens && Quiesce(l).0.tokens == l.tokens
    ensures BeginLeaseClose(l).transports == l.transports && Quiesce(l).0.transports == l.transports
    ensures Ended(l) ==> Ended(Quiesce(l).0) && (Quiesce(l).1 <==> l.tokens == {})
    ensures Quiesce(l).1 ==> Quiesce(l).0.state == LeaseClosed
    ensures l.state == LeaseClosed ==> BeginLeaseClose(l) == l && Quiesce(l).0 == l
  {
  }

  // ----- Where the payloads are -----

  // The receivers' tokens, unchanged.
  ghost predicate SameHolders(tokens: map<nat, Token>, tokens': map<nat, Token>) {
    forall g :: (g in tokens && tokens[g].Acquired?) || (g in tokens' && tokens'[g].Acquired?) ==>
      g in tokens && g in tokens' && tokens'[g] == tokens[g]
  }

  lemma SameHoldersAfter(tokens: map<nat, Token>, g: nat, token: Token)
    requires !token.Acquired? && (g in tokens ==> !tokens[g].Acquired?)
    ensures SameHolders(tokens, tokens[g := token]) && SameHolders(tokens, tokens - {g})
    ensures SameHolders(tokens, tokens)
  {
  }

  lemma SameHoldersHold(tokens: map<nat, Token>, tokens': map<nat, Token>, g: nat, i: nat)
    requires SameHolders(tokens, tokens')
    ensures Holds(tokens', g, i) <==> Holds(tokens, g, i)
  {
  }

  lemma SameFates(s: State, s': State)
    requires FatePart(s) && SameHolders(s.tokens, s'.tokens)
    requires s'.taken == s.taken && s'.fates == s.fates && Gone(s') == Gone(s)
    ensures FatePart(s')
  {
    forall g, i
      ensures Holds(s'.tokens, g, i) <==> Holds(s.tokens, g, i)
    {
      SameHoldersHold(s.tokens, s'.tokens, g, i);
    }
    hide Holds, Gone;
  }

  // A new head has been handed to a receiver.
  lemma TakenFates(s: State, s': State, g: nat)
    requires QueuePart(s) && FatePart(s) && s.drain.None? && Next(s) == |s.taken| && s.fields.queue != []
    requires g !in s.tokens && s'.tokens == s.tokens[g := Acquired(Next(s), s.fields.queue[0])]
    requires s'.taken == s.taken + [s.fields.queue[0]] && s'.fates == s.fates && s'.drain.None?
    requires Next(s') == Next(s) + 1
    ensures FatePart(s')
  {
    forall h, i
      ensures Holds(s'.tokens, h, i) <==> Holds(s.tokens, h, i) || (h == g && i == |s.taken|)
    {
    }
    assert forall h :: h in s.tokens && s.tokens[h].Acquired? ==> s'.tokens[h] == s.tokens[h];
    forall i | 0 <= i < |s'.taken|
      ensures i in s'.fates || exists h :: Holds(s'.tokens, h, i)
    {
      if i == |s.taken| {
        assert Holds(s'.tokens, g, i);
      } else if i !in s.fates {
        var h :| Holds(s.tokens, h, i);
        assert Holds(s'.tokens, h, i);
      }
    }
    hide Holds;
  }

  // A receiver has settled its payload, and its token holds it no more.
  lemma SettledFates(s: State, s': State, g: nat, i: nat)
    requires FatePart(s) && Holds(s.tokens, g, i) && i < Gone(s)
    requires s'.taken == s.taken && s'.fates.Keys == s.fates.Keys + {i} && Gone(s') == Gone(s)
    requires forall j :: j in s.fates && j != i ==> s'.fates[j] == s.fates[j]
    requires forall h :: h != g ==> (h in s'.tokens <==> h in s.tokens)
    requires forall h :: h != g && h in s.tokens ==> s'.tokens[h] == s.tokens[h]
    requires g in s'.tokens ==> s'.tokens[g].Ending?
    ensures FatePart(s') && i !in s.fates
  {
    forall h, j
      ensures Holds(s'.tokens, h, j) <==> Holds(s.tokens, h, j) && h != g
    {
    }
    forall j | 0 <= j < |s'.taken|
      ensures j in s'.fates || exists h :: Holds(s'.tokens, h, j)
    {
      if j != i && j !in s.fates {
        var h :| Holds(s.tokens, h, j);
        assert Holds(s'.tokens, h, j);
      }
    }
    assert i < |s.taken|;
    hide Holds, Gone;
  }

  // The next payload of the queue taken away has been dropped.
  lemma DrainedFates(s: State, s': State)
    requires FatePart(s) && s.drain.Some? && |s.taken| <= s.drain.value
    requires s'.tokens == s.tokens && s'.taken == s.taken
    requires s'.fates == s.fates[s.drain.value := Dropped] && Gone(s') == s.drain.value + 1
    ensures FatePart(s') && s.drain.value !in s.fates
  {
    assert forall g: nat, i: nat :: Holds(s.tokens, g, i) ==> i < |s.taken|;
    hide Holds;
  }

  // ----- Every step keeps the invariant -----

  lemma ReservedRoom(f: Fields, tokens: map<nat, Token>, g: nat, source: Payload, l: Lease)
    requires RoomPart(f, tokens) && !IsFull(f) && g !in tokens
    ensures RoomPart(f.(lease := l, reservations := Inc64(f.reservations)), tokens[g := Prepared(source)])
  {
    SendersAfter(tokens, g, Prepared(source));
    SendersWithout(tokens, g);
  }

  lemma FreedRoom(f: Fields, tokens: map<nat, Token>, g: nat, payload: Payload)
    requires RoomPart(f, tokens) && g in tokens && tokens[g].Sends()
    ensures RoomPart(SendCancel(f), tokens - {g}) && RoomPart(SendCommit(f, payload), tokens - {g})
  {
    SendersWithout(tokens, g);
  }

  lemma SameRoom(f: Fields, tokens: map<nat, Token>, g: nat)
    requires RoomPart(f, tokens) && g in tokens && !tokens[g].Sends()
    ensures RoomPart(f, tokens - {g})
  {
    SendersWithout(tokens, g);
    assert Senders(tokens) - {g} == Senders(tokens);
  }

  lemma TakenRoom(f: Fields, tokens: map<nat, Token>, g: nat, held: Token, l: Lease)
    requires RoomPart(f, tokens) && f.queue != [] && g !in tokens && !held.Sends()
    ensures RoomPart(f.(lease := l, queue := f.queue[1..], size := Dec64(f.size)), tokens[g := held])
  {
    SendersAfter(tokens, g, held);
    SendersWithout(tokens, g);
    assert Senders(tokens) - {g} == Senders(tokens);
  }

  lemma RoomIgnoresLease(f: Fields, tokens: map<nat, Token>, l: Lease)
    ensures RoomPart(f.(lease := l), tokens) <==> RoomPart(f, tokens)
  {
    hide Senders;
  }

  // A token that can be had means an open lease, with nothing drained.
  lemma OpenLease(s: State)
    requires QueuePart(s) && ClosePart(s) && !Ended(s.fields.lease)
    ensures !s.fields.closed && s.drain.None? && Next(s) == |s.taken| && !s.fields.quiesced && !s.destroyed
  {
  }

  // Only the lease has changed, and not back.
  ghost predicate LeaseMoved(s: State, s': State) {
    var l, l' := s.fields.lease, s'.fields.lease;
    && s'.fields == s.fields.(lease := l', reservations := s'.fields.reservations)
    && s'.sent == s.sent && s'.taken == s.taken && s'.drain == s.drain && s'.destroyed == s.destroyed
    && (Ended(l) ==> Ended(l') && (l.tokens == {} ==> l'.tokens == {})) && l'.transports == l.transports
    && (l.state == LeaseClosed ==> l'.state == LeaseClosed)
  }

  lemma LeaseMoveKeepsClose(s: State, s': State)
    requires QueuePart(s) && ClosePart(s) && LeaseMoved(s, s')
    ensures QueuePart(s') && ClosePart(s')
  {
  }

  lemma LeaseMoveKeepsFates(s: State, s': State)
    requires FatePart(s) && LeaseMoved(s, s') && SameHolders(s.tokens, s'.tokens) && s'.fates == s.fates
    ensures FatePart(s')
  {
    hide FatePart, SameHolders;
    SameFates(s, s');
  }

  lemma LeaseOnly(s: State, l: Lease)
    requires Inv(s) && LeasePart(l, s.tokens, s.others, s.returned) && LeaseMoved(s, WithLease(s, l))
    ensures Inv(WithLease(s, l))
  {
    SameHoldersAfter(map[], 0, Ending);
    RoomIgnoresLease(s.fields, s.tokens, l);
    hide LeasePart, QueuePart, ClosePart, FatePart, RoomPart;
    LeaseMoveKeepsClose(s, WithLease(s, l));
    LeaseMoveKeepsFates(s, WithLease(s, l));
  }

  lemma ReservedKeepsInv(s: State, g: nat, source: Payload, l: Lease)
    requires Inv(s) && !IsFull(s.fields) && g !in s.tokens && !Ended(s.fields.lease)
    requires LeasePart(l, s.tokens[g := Prepared(source)], s.others, s.returned)
    requires l.transports == s.fields.lease.transports
    ensures Inv(s.(fields := s.fields.(lease := l, reservations := Inc64(s.fields.reservations)),
                   tokens := s.tokens[g := Prepared(source)]))
  {
    var s' := s.(fields := s.fields.(lease := l, reservations := Inc64(s.fields.reservations)),
                 tokens := s.tokens[g := Prepared(source)]);
    SameHoldersAfter(s.tokens, g, Prepared(source));
    hide SameHolders, LeasePart, FatePart, RoomPart, QueuePart, ClosePart, IsFull;
    ReservedRoom(s.fields, s.tokens, g, source, l);
    LeaseMoveKeepsClose(s, s');
    LeaseMoveKeepsFates(s, s');
  }

  lemma TokenRefused(s: State, memory: Memory)
    requires LeasePart(s.fields.lease, s.tokens, s.others, s.returned) && AcquireToken(s.fields, memory).1.None?
    ensures var (f, g) := AcquireToken(s.fields, memory);
      && f == s.fields.(lease := f.lease) && LeaseMoved(s, WithLease(s, f.lease))
      && LeasePart(f.lease, s.tokens, s.others, s.returned)
  {
    AcquireKeepsLeasePart(s.fields.lease, s.tokens, s.others, s.returned, memory != NoRecord, Ending);
    hide Acquire, LeasePart, LeaseMoved;
    EndedOrFree(s, AcquireToken(s.fields, memory).0.lease);
  }

  lemma EndedOrFree(s: State, l: Lease)
    requires (Ended(s.fields.lease) ==> l == s.fields.lease) && l.transports == s.fields.lease.transports
    ensures LeaseMoved(s, WithLease(s, l))
  {
  }

  lemma NoTokenKeepsInv(s: State, memory: Memory)
    requires Inv(s) && AcquireToken(s.fields, memory).1.None?
    ensures Inv(s.(fields := AcquireToken(s.fields, memory).0))
  {
    TokenRefused(s, memory);
    hide Inv, AcquireToken, LeasePart, LeaseMoved;
    LeaseOnly(s, AcquireToken(s.fields, memory).0.lease);
  }

  lemma TokenOutcome(s: State, memory: Memory, token: Token)
    requires Inv(s) && AcquireToken(s.fields, memory).1.Some?
    ensures var (f, g) := AcquireToken(s.fields, memory);
      && f == s.fields.(lease := f.lease) && g.value !in s.tokens && !Ended(s.fields.lease)
      && LeasePart(f.lease, s.tokens[g.value := token], s.others, s.returned)
      && f.lease.transports == s.fields.lease.transports
  {
    AcquireKeepsLeasePart(s.fields.lease, s.tokens, s.others, s.returned, memory != NoRecord, token);
    hide Acquire, LeasePart, FatePart, RoomPart, QueuePart, ClosePart;
  }

  lemma PrepareKeepsInv(s: State, source: Payload, memory: Memory)
    requires Inv(s)
    ensures Inv(Prepares(s, source, memory))
  {
    hide AcquireToken, Inv, IsFull;
    var (f, token) := AcquireToken(s.fields, memory);
    if !s.fields.closed && !IsFull(s.fields) {
      if token.None? {
        NoTokenKeepsInv(s, memory);
      } else {
        TokenOutcome(s, memory, Prepared(source));
        ReservedKeepsInv(s, token.value, source, f.lease);
      }
    }
  }

  lemma RetokenKeepsInv(s: State, g: nat, token: Token)
    requires Inv(s) && g in s.tokens && s.tokens[g].Sends() && token.Sends()
    ensures Inv(s.(tokens := s.tokens[g := token]))
  {
    var s' := s.(tokens := s.tokens[g := token]);
    SendersAfter(s.tokens, g, token);
    SendersWithout(s.tokens, g);
    assert Senders(s.tokens) + {g} == Senders(s.tokens);
    SameKeysKeepLeasePart(s.fields.lease, s.tokens, s.others, s.returned, s'.tokens);
    hide LeasePart, Senders, FatePart;
    SameFates(s, s');
  }

  lemma StartCommitKeepsInv(s: State, g: nat, enough: bool)
    requires Inv(s) && g in s.tokens && s.tokens[g].Prepared?
    ensures Inv(StartsCommit(s, g, enough))
  {
    hide Inv;
    RetokenKeepsInv(s, g, Cancelling);
    RetokenKeepsInv(s, g, Moving(s.tokens[g].source));
  }

  lemma ActiveToken(s: State, g: nat)
    requires Rest(s) && g in s.tokens
    ensures g in s.fields.lease.tokens && !s.destroyed && s.drain.None? && Next(s) == |s.taken|
    ensures s.fields.lease.state != LeaseClosed && !s.fields.quiesced
  {
    hide FatePart;
  }

  lemma ReturnKeepsInv(s: State, g: nat)
    requires Rest(s) && g in s.tokens && !s.tokens[g].Acquired? && RoomPart(s.fields, s.tokens - {g})
    ensures Inv(Return(s, g))
  {
    var s' := Return(s, g);
    ActiveToken(s, g);
    ReleaseKeepsLeasePart(s.fields.lease, s.tokens, s.others, s.returned, g);
    SameHoldersAfter(s.tokens, g, Ending);
    RoomIgnoresLease(s.fields, s.tokens - {g}, s'.fields.lease);
    hide LeasePart, RoomPart, FatePart, ReleaseToken, QueuePart, ClosePart, SameHolders;
    LeaseMoveKeepsClose(s, s');
    LeaseMoveKeepsFates(s, s');
  }

  lemma EndCommitKeepsInv(s: State, g: nat)
    requires Inv(s) && g in s.tokens && s.tokens[g].Moving?
    ensures Inv(Commits(s, g, s.tokens[g].source))
  {
    var payload := s.tokens[g].source;
    var appended := s.(fields := SendCommit(s.fields, payload), sent := s.sent + [payload]);
    ActiveToken(s, g);
    FreedRoom(s.fields, s.tokens, g, payload);
    AppendKeepsRest(s, payload);
    hide Rest, RoomPart, SendCommit;
    ReturnKeepsInv(appended, g);
  }

  lemma AppendKeepsRest(s: State, payload: Payload)
    requires Rest(s) && s.drain.None? && Next(s) == |s.taken| && !s.fields.quiesced
    ensures Rest(s.(fields := SendCommit(s.fields, payload), sent := s.sent + [payload]))
  {
    var s' := s.(fields := SendCommit(s.fields, payload), sent := s.sent + [payload]);
    hide LeasePart, FatePart;
    assert s'.sent[Next(s')..] == s.sent[Next(s)..] + [payload];
    assert s'.sent[..|s.taken|] == s.sent[..|s.taken|];
    SameFates(s, s');
  }

  lemma CancelKeepsInv(s: State, g: nat)
    requires Inv(s) && g in s.tokens && (s.tokens[g].Prepared? || s.tokens[g].Cancelling?)
    ensures Inv(Return(s.(fields := SendCancel(s.fields)), g))
  {
    var cancelled := s.(fields := SendCancel(s.fields));
    FreedRoom(s.fields, s.tokens, g, []);
    hide LeasePart, FatePart, RoomPart;
    SameFates(s, cancelled);
    ReturnKeepsInv(cancelled, g);
  }

  lemma TakenQueue(s: State, s': State)
    requires QueuePart(s) && ClosePart(s) && !Ended(s.fields.lease) && s.fields.queue != []
    requires s'.fields == s.fields.(queue := s.fields.queue[1..], size := s'.fields.size, lease := s'.fields.lease)
    requires s'.taken == s.taken + [s.fields.queue[0]] && s'.sent == s.sent
    requires s'.drain == s.drain && s'.destroyed == s.destroyed
    requires s'.fields.lease.transports == s.fields.lease.transports
    ensures QueuePart(s') && ClosePart(s') && Next(s') == Next(s) + 1
  {
    OpenLease(s);
    assert s.sent[Next(s)..][1..] == s.sent[Next(s) + 1..];
    assert s.sent[..|s.taken| + 1] == s.sent[..|s.taken|] + [s.sent[|s.taken|]];
  }

  lemma TakenKeepsInv(s: State, g: nat, l: Lease)
    requires Inv(s) && s.fields.queue != [] && g !in s.tokens && !Ended(s.fields.lease)
    requires LeasePart(l, s.tokens[g := Acquired(Next(s), s.fields.queue[0])], s.others, s.returned)
    requires l.transports == s.fields.lease.transports
    ensures Inv(s.(fields := s.fields.(lease := l, queue := s.fields.queue[1..], size := Dec64(s.fields.size)),
                   taken := s.taken + [s.fields.queue[0]],
                   tokens := s.tokens[g := Acquired(Next(s), s.fields.queue[0])]))
  {
    var held := Acquired(Next(s), s.fields.queue[0]);
    var s' := s.(fields := s.fields.(lease := l, queue := s.fields.queue[1..], size := Dec64(s.fields.size)),
                 taken := s.taken + [s.fields.queue[0]], tokens := s.tokens[g := held]);
    hide LeasePart, FatePart, RoomPart, QueuePart, ClosePart;
    OpenLease(s);
    TakenRoom(s.fields, s.tokens, g, held, l);
    TakenQueue(s, s');
    TakenFates(s, s', g);
  }

  lemma ReceiveKeepsInv(s: State, memory: Memory)
    requires Inv(s)
    ensures Inv(Receives(s, memory))
  {
    hide AcquireToken, Inv;
    var (f, token) := AcquireToken(s.fields, memory);
    if s.fields.queue != [] {
      if token.None? {
        NoTokenKeepsInv(s, memory);
      } else {
        TokenOutcome(s, memory, Acquired(Next(s), s.fields.queue[0]));
        TakenKeepsInv(s, token.value, f.lease);
      }
    }
  }

  lemma HeldPosition(s: State, g: nat)
    requires Inv(s) && g in s.tokens && s.tokens[g].Acquired?
    ensures Holds(s.tokens, g, s.tokens[g].position) && s.tokens[g].position < Gone(s)
    ensures s.tokens[g].position !in s.fates
  {
    hide LeasePart, RoomPart, ClosePart;
  }

  lemma EndingRoom(f: Fields, tokens: map<nat, Token>, g: nat)
    requires RoomPart(f, tokens) && g in tokens && !tokens[g].Sends()
    ensures RoomPart(f, tokens[g := Ending])
  {
    SendersAfter(tokens, g, Ending);
    SendersWithout(tokens, g);
    assert Senders(tokens) - {g} == Senders(tokens);
  }

  lemma SettleKeepsInv(s: State, g: nat, fate: Fate)
    requires Inv(s) && g in s.tokens && s.tokens[g].Acquired?
    ensures Inv(Settle(s, s.tokens[g].position, fate).(tokens := s.tokens[g := Ending]))
  {
    var i := s.tokens[g].position;
    var s' := Settle(s, i, fate).(tokens := s.tokens[g := Ending]);
    ActiveToken(s, g);
    HeldPosition(s, g);
    EndingRoom(s.fields, s.tokens, g);
    SameKeysKeepLeasePart(s.fields.lease, s.tokens, s.others, s.returned, s'.tokens);
    hide LeasePart, FatePart, RoomPart, QueuePart, ClosePart;
    LeaseMoveKeepsClose(s, s');
    SettledFates(s, s', g, i);
  }

  lemma EndKeepsInv(s: State, g: nat)
    requires Inv(s) && g in s.tokens && s.tokens[g].Ending?
    ensures Inv(Return(s, g))
  {
    SameRoom(s.fields, s.tokens, g);
    hide LeasePart, FatePart, RoomPart, QueuePart, ClosePart;
    ReturnKeepsInv(s, g);
  }

  // Receiving by copy settles the payload and ends the token at once.
  lemma DeliverKeepsInv(s: State, g: nat)
    requires Inv(s) && g in s.tokens && s.tokens[g].Acquired?
    ensures Inv(Return(Settle(s, s.tokens[g].position, Received), g))
  {
    var settled := Settle(s, s.tokens[g].position, Received);
    SettleKeepsInv(s, g, Received);
    assert settled.tokens == s.tokens;
    hide Inv, Settle, Return;
    EndKeepsInv(settled.(tokens := settled.tokens[g := Ending]), g);
    ReturnForgetsToken(settled, g, Ending);
  }

  lemma ReturnForgetsToken(s: State, g: nat, token: Token)
    ensures Return(s.(tokens := s.tokens[g := token]), g) == Return(s, g)
  {
    assert s.tokens[g := token] - {g} == s.tokens - {g};
  }

  // The transport no longer takes payloads, and its lease no more users.
  lemma MarkedClosed(s: State)
    requires Inv(s)
    ensures Inv(s.(fields := s.fields.(closed := true, lease := BeginLeaseClose(s.fields.lease))))
  {
    var s' := s.(fields := s.fields.(closed := true, lease := BeginLeaseClose(s.fields.lease)));
    EndingKeepsLeasePart(s.fields.lease, s.tokens, s.others, s.returned);
    hide LeasePart, Senders, FatePart, BeginLeaseClose;
    SameFates(s, s');
  }

  lemma DrainStarts(s: State)
    requires Inv(s) && s.fields.closed && !s.fields.quiesced && s.fields.callbacks == 0 && s.fields.lease.tokens == {}
    ensures Inv(s.(fields := s.fields.(queue := [], size := 0, callbacks := 1), drain := Some(Next(s))))
  {
    var s' := s.(fields := s.fields.(queue := [], size := 0, callbacks := 1), drain := Some(Next(s)));
    NoTokensNoSenders(s);
    hide LeasePart, Senders, FatePart;
    SameFates(s, s');
  }

  lemma StartCloseKeepsInv(s: State)
    requires Inv(s)
    ensures Inv(StartsClose(s))
  {
    var marked :=
      if s.fields.closed then s
      else s.(fields := s.fields.(closed := true, lease := BeginLeaseClose(s.fields.lease)));
    MarkedClosed(s);
    if !s.fields.quiesced && marked.fields.callbacks == 0 && marked.fields.lease.tokens == {} {
      QuiescedIsClosed(s);
      DrainStarts(marked);
    }
    hide Inv, BeginLeaseClose;
  }

  lemma QuiescedIsClosed(s: State)
    requires Inv(s)
    ensures s.fields.quiesced ==> s.fields.closed
  {
    hide LeasePart, FatePart, RoomPart, QueuePart;
  }

  lemma QuietLeaseIsEmpty(l: Lease)
    requires LeaseInv(l) && l.state == LeaseClosed
    ensures l.tokens == {}
  {
  }

  lemma NoTokensNoSenders(s: State)
    requires LeasePart(s.fields.lease, s.tokens, s.others, s.returned)
    ensures s.fields.lease.tokens == {} ==> s.tokens == map[] && Senders(s.tokens) == {}
  {
    assert s.tokens.Keys == {} ==> s.tokens == map[];
  }

  lemma DropNextKeepsInv(s: State)
    requires Inv(s) && s.drain.Some? && s.drain.value < |s.sent|
    ensures Inv(Settle(s, s.drain.value, Dropped).(drain := Some(s.drain.value + 1)))
  {
    var s' := Settle(s, s.drain.value, Dropped).(drain := Some(s.drain.value + 1));
    hide LeasePart, Senders, FatePart;
    DrainedFates(s, s');
  }

  lemma EndCloseKeepsInv(s: State)
    requires Inv(s) && s.drain.Some? && s.drain.value >= |s.sent|
    ensures Inv(s.(fields := CloseEnd(s.fields).0, drain := None))
    ensures CloseEnd(s.fields).1 && CloseEnd(s.fields).0.quiesced
  {
    var s' := s.(fields := CloseEnd(s.fields).0, drain := None);
    EndingKeepsLeasePart(s.fields.lease, s.tokens, s.others, s.returned);
    hide LeasePart, Senders, FatePart, Quiesce;
    SameFates(s, s');
  }

  lemma DestroyKeepsInv(s: State)
    requires Inv(s) && !s.destroyed
    ensures Inv(Destroys(s))
    ensures MayDestroyTransport(s.fields) <==> s.fields.quiesced
  {
    var s' := Destroys(s);
    hide Senders, FatePart;
    SameFates(s, s');
  }

  lemma OthersKeepInv(s: State, record: bool)
    requires Inv(s)
    ensures Inv(OthersAcquire(s, record))
  {
    var s' := OthersAcquire(s, record);
    AcquireKeepsLeasePart(s.fields.lease, s.tokens, s.others, s.returned, record, Ending);
    SameHoldersAfter(map[], 0, Ending);
    RoomIgnoresLease(s.fields, s.tokens, s'.fields.lease);
    hide LeasePart, RoomPart, FatePart, Acquire, QueuePart, ClosePart, SameHolders;
    LeaseMoveKeepsClose(s, s');
    LeaseMoveKeepsFates(s, s');
  }

  lemma OtherReleaseKeepsInv(s: State, g: nat)
    requires Inv(s) && g in s.others
    ensures Inv(OthersRelease(s, g))
  {
    var s' := OthersRelease(s, g);
    ReleaseKeepsLeasePart(s.fields.lease, s.tokens, s.others, s.returned, g);
    SameHoldersAfter(map[], 0, Ending);
    RoomIgnoresLease(s.fields, s.tokens, s'.fields.lease);
    hide LeasePart, RoomPart, FatePart, ReleaseToken, QueuePart, ClosePart;
    LeaseMoveKeepsClose(s, s');
    LeaseMoveKeepsFates(s, s');
  }

  lemma LeaseEndKeepsInv(s: State)
    requires Inv(s)
    ensures Inv(WithLease(s, BeginLeaseClose(s.fields.lease))) && Inv(WithLease(s, Quiesce(s.fields.lease).0))
  {
    EndingKeepsLeasePart(s.fields.lease, s.tokens, s.others, s.returned);
    hide LeasePart, FatePart, QueuePart, ClosePart, RoomPart, Quiesce, BeginLeaseClose;
    LeaseOnly(s, BeginLeaseClose(s.fields.lease));
    LeaseOnly(s, Quiesce(s.fields.lease).0);
  }

  lemma StepKeepsInv(s: State, a: Action)
    requires Inv(s) && Enabled(s, a)
    ensures Inv(Step(s, a))
  {
    hide Inv, Prepares, StartsCommit, Commits, Return, Receives, Settle, StartsClose, Destroys, OthersAcquire,
      OthersRelease, WithLease, CloseEnd, SendCancel;
    match a {
      case Prepare(source, memory) => PrepareKeepsInv(s, source, memory);
      case StartCommit(g, enough) => StartCommitKeepsInv(s, g, enough);
      case EndCommit(g) => EndCommitKeepsInv(s, g);
      case Cancel(g) => CancelKeepsInv(s, g);
      case Receive(memory) => ReceiveKeepsInv(s, memory);
      case Deliver(g) => DeliverKeepsInv(s, g);
      case Take(g) => SettleKeepsInv(s, g, Received);
      case Drop(g) => SettleKeepsInv(s, g, Dropped);
      case End(g) => EndKeepsInv(s, g);
      case StartClose => StartCloseKeepsInv(s);
      case DropNext => DropNextKeepsInv(s);
      case EndClose => EndCloseKeepsInv(s);
      case Destroy => DestroyKeepsInv(s);
      case OtherAcquires(record) => OthersKeepInv(s, record);
      case OtherReleases(g) => OtherReleaseKeepsInv(s, g);
      case OtherEndsLease => LeaseEndKeepsInv(s);
      case OtherQuietsLease => LeaseEndKeepsInv(s);
    }
  }

  lemma {:induction false} RunKeepsInv(s: State, actions: seq<Action>, s': State)
    requires Inv(s) && Runs(s, actions, s')
    ensures Inv(s')
    decreases |actions|
  {
    hide Inv, Step, Enabled;
    if actions != [] {
      StepKeepsInv(s, actions[0]);
      RunKeepsInv(Step(s, actions[0]), actions[1..], s');
    }
  }

  ghost predicate Reachable(s: State) {
    exists s0, actions :: Init(s0) && Runs(s0, actions, s)
  }

  lemma InitHasInv(s: State)
    requires Init(s)
    ensures Inv(s)
  {
    assert s.tokens.Keys + s.others == {} && Senders(s.tokens) == {};
  }

  lemma ReachableStatesKeepInv(s: State)
    requires Reachable(s)
    ensures Inv(s)
  {
    hide Inv, Init;
    var s0, actions :| Init(s0) && Runs(s0, actions, s);
    InitHasInv(s0);
    RunKeepsInv(s0, actions, s);
  }

  // ----- What holds in every run -----

  // The queue and the reservations never exceed the capacity, and the counters are what they count.
  lemma RoomIsBounded(s: State)
    requires Reachable(s)
    ensures |s.fields.queue| + |Senders(s.tokens)| <= s.fields.capacity
    ensures s.fields.size == |s.fields.queue| && s.fields.reservations == |Senders(s.tokens)|
    ensures IsFull(s.fields) <==> |s.fields.queue| + |Senders(s.tokens)| == s.fields.capacity
  {
    hide LeasePart, FatePart, QueuePart, ClosePart, Senders, Reachable;
    ReachableStatesKeepInv(s);
  }

  // Receivers get the payloads in the order of the commits, without gaps, and what waits is the end of that list.
  lemma PayloadsKeepTheirOrder(s: State)
    requires Reachable(s)
    ensures s.taken <= s.sent
    ensures |s.fields.queue| <= |s.sent| && s.fields.queue == s.sent[|s.sent| - |s.fields.queue|..]
    ensures !s.fields.closed ==> s.sent == s.taken + s.fields.queue
  {
    hide LeasePart, FatePart, RoomPart, Reachable;
    ReachableStatesKeepInv(s);
  }

  ghost predicate Queued(s: State, i: nat) { i >= Next(s) }

  ghost predicate Draining(s: State, i: nat) { s.drain.Some? && s.drain.value <= i }

  ghost predicate InHands(s: State, i: nat) { exists g :: Holds(s.tokens, g, i) }

  // Every payload committed is in exactly one place: waiting, being dropped by a close, in the hands of one
  // receiver, or settled.
  lemma EveryPayloadIsSomewhere(s: State, i: nat)
    requires Reachable(s) && i < |s.sent|
    ensures Queued(s, i) || Draining(s, i) || InHands(s, i) || i in s.fates
    ensures Queued(s, i) ==> !Draining(s, i) && !InHands(s, i) && i !in s.fates
    ensures Draining(s, i) ==> !InHands(s, i) && i !in s.fates
    ensures InHands(s, i) ==> i !in s.fates
    ensures forall g, h :: Holds(s.tokens, g, i) && Holds(s.tokens, h, i) ==> g == h
  {
    ReachableStatesKeepInv(s);
    hide LeasePart, RoomPart, Reachable;
    assert InHands(s, i) ==> i < |s.taken|;
  }

  // Orders grow at their ends, and settled is settled.
  ghost predicate Grows(s: State, s': State) {
    && (forall i :: i in s.fates ==> i in s'.fates && s'.fates[i] == s.fates[i])
    && s.sent <= s'.sent && s.taken <= s'.taken && s.returned <= s'.returned
  }

  lemma SettleGrows(s: State, i: nat, fate: Fate, s': State)
    requires i !in s.fates && s'.fates == s.fates[i := fate]
    requires s'.sent == s.sent && s'.taken == s.taken && s.returned <= s'.returned
    ensures Grows(s, s')
  {
  }

  lemma DrainIsUnsettled(s: State)
    requires Inv(s) && s.drain.Some?
    ensures s.drain.value !in s.fates
  {
    hide LeasePart, RoomPart, QueuePart, ClosePart;
  }

  lemma StepGrows(s: State, a: Action)
    requires Inv(s) && Enabled(s, a)
    ensures Grows(s, Step(s, a))
  {
    match a {
      case Deliver(g) => HeldPosition(s, g);
      case Take(g) => HeldPosition(s, g);
      case Drop(g) => HeldPosition(s, g);
      case DropNext => DrainIsUnsettled(s);
      case _ =>
    }
    hide Inv, SendPrepare, SendCommit, SendCancel, ReceiveAcquire, CloseStart, CloseEnd, Acquire, ReleaseToken, Grows;
    match a {
      case Deliver(g) => SettleGrows(s, s.tokens[g].position, Received, Step(s, a));
      case Take(g) => SettleGrows(s, s.tokens[g].position, Received, Step(s, a));
      case Drop(g) => SettleGrows(s, s.tokens[g].position, Dropped, Step(s, a));
      case DropNext => SettleGrows(s, s.drain.value, Dropped, Step(s, a));
      case _ => OthersGrow(s, a);
    }
  }

  lemma OthersGrow(s: State, a: Action)
    requires Enabled(s, a) && !a.Deliver? && !a.Take? && !a.Drop? && !a.DropNext?
    ensures Grows(s, Step(s, a))
  {
    hide SendPrepare, SendCommit, SendCancel, ReceiveAcquire, CloseStart, CloseEnd, Acquire, ReleaseToken, Settle;
  }

  lemma GrowsTransitively(s: State, m: State, s': State)
    requires Grows(s, m) && Grows(m, s')
    ensures Grows(s, s')
  {
  }

  // What became of a payload does not change, and neither do the orders or a token given back.
  lemma {:induction false} FatesAreFinal(s: State, actions: seq<Action>, s': State)
    requires Inv(s) && Runs(s, actions, s')
    ensures Grows(s, s')
    decreases |actions|
  {
    hide Inv, Step, Enabled;
    if actions != [] {
      hide Grows;
      StepKeepsInv(s, actions[0]);
      StepGrows(s, actions[0]);
      FatesAreFinal(Step(s, actions[0]), actions[1..], s');
      GrowsTransitively(s, Step(s, actions[0]), s');
    } else {
      GrowsIsReflexive(s);
    }
  }

  lemma GrowsIsReflexive(s: State)
    ensures Grows(s, s)
  {
  }

  // Every lease token handed out is active, in one place, or has been given back; no step gives one back twice.
  // On an exclusive lease at most one token is active, here or with others.
  lemma EveryTokenReturnsOnce(s: State, g: nat, h: nat)
    requires Reachable(s)
    ensures 1 <= g < s.fields.lease.nextGeneration <==> g in s.tokens || g in s.others || g in s.returned
    ensures g in s.tokens ==> g !in s.others
    ensures g in s.returned ==> g !in s.tokens && g !in s.others && g !in s.fields.lease.tokens
    ensures g in s.tokens ==> g in s.fields.lease.tokens && !s.destroyed
    ensures s.fields.lease.exclusive && g in s.tokens.Keys + s.others && h in s.tokens.Keys + s.others ==> g == h
    ensures !s.fault
  {
    hide RoomPart, FatePart, Reachable, LeaseInv;
    ReachableStatesKeepInv(s);
    var l := s.fields.lease;
    if l.state == LeaseClosed {
      QuietLeaseIsEmpty(l);
    }
    if l.exclusive && g in l.tokens && h in l.tokens {
      ExclusiveMeansOne(l, g, h);
    }
  }

  lemma CloseStartResult(s: State)
    requires Inv(s)
    ensures CloseStart(s.fields).1 <==>
      !s.fields.quiesced && s.drain.None? && s.tokens == map[] && s.others == {}
  {
    NoTokensNoSenders(s);
    hide RoomPart, FatePart, QueuePart, Senders;
    var l := s.fields.lease;
    assert l.tokens == s.tokens.Keys + s.others;
    assert l.tokens == {} <==> s.tokens == map[] && s.others == {} by {
      assert l.tokens == {} ==> s.others <= l.tokens;
    }
    hide LeasePart;
  }

  // A close marks the transport and its lease. It takes the queue away, to drop it from its head on, exactly when
  // no token is active and no other close is at it, and then it ends with the transport quiescent.
  lemma CloseResult(s: State)
    requires Reachable(s)
    ensures !s.destroyed ==>
      var s' := Step(s, StartClose);
      && s'.fields.closed && Ended(s'.fields.lease)
      && s'.sent == s.sent && s'.tokens == s.tokens && s'.fates == s.fates
      && if !s.fields.quiesced && s.drain.None? && s.tokens == map[] && s.others == {} then
           s'.fields.queue == [] && s'.drain == Some(|s.sent| - |s.fields.queue|)
         else s'.fields.queue == s.fields.queue && s'.drain == s.drain
    ensures Enabled(s, EndClose) ==> CloseEnd(s.fields).1 && Step(s, EndClose).fields.quiesced
  {
    hide Inv, Reachable, CloseEnd, Quiesce;
    ReachableStatesKeepInv(s);
    CloseStartResult(s);
    if !s.destroyed {
      CloseMarks(s);
    }
    if Enabled(s, EndClose) {
      EndCloseKeepsInv(s);
    }
  }

  lemma CloseMarks(s: State)
    requires Inv(s) && !s.destroyed
    ensures var s' := Step(s, StartClose);
      && s'.fields.closed && Ended(s'.fields.lease)
      && s'.sent == s.sent && s'.tokens == s.tokens && s'.fates == s.fates && |s.fields.queue| <= |s.sent|
      && if CloseStart(s.fields).1 then s'.fields.queue == [] && s'.drain == Some(|s.sent| - |s.fields.queue|)
         else s'.fields.queue == s.fields.queue && s'.drain == s.drain
  {
    hide LeasePart, FatePart, RoomPart;
  }

  // The transport is destroyed exactly when it is quiescent, and then every payload ever committed has been
  // received or dropped, those that no receiver got were dropped, no token is left, and the lease can be destroyed.
  lemma DestroyResult(s: State)
    requires Reachable(s)
    ensures !s.destroyed ==> (Step(s, Destroy).destroyed <==> s.fields.quiesced)
    ensures s.destroyed ==>
      && s.tokens == map[] && s.fields.queue == [] && MayDestroy(s.fields.lease)
      && (forall i: nat :: i < |s.sent| <==> i in s.fates)
      && (forall i: nat :: |s.taken| <= i < |s.sent| ==> s.fates[i] == Dropped)
  {
    hide RoomPart, Reachable, LeaseInv, Senders;
    ReachableStatesKeepInv(s);
    if !s.destroyed {
      DestroyKeepsInv(s);
    } else {
      QuietLeaseIsEmpty(s.fields.lease);
      NoTokensNoSenders(s);
      assert s.tokens == map[] && Gone(s) == |s.sent|;
      assert forall g: nat, i: nat :: !Holds(s.tokens, g, i);
    }
  }

  // ----- What each call answers -----

  // The lease grants a token: nobody has ended it, an exclusive one has no user, and its counters have room.
  ghost predicate CanHaveToken(s: State, memory: Memory) {
    var l := s.fields.lease;
    && memory == Enough && (l.state == Available || l.state == Leased)
    && (l.exclusive ==> s.tokens == map[] && s.others == {})
    && |l.tokens| < WORD32 - 1 && l.nextGeneration < WORD64 - 1
  }

  lemma AcquireResult(s: State, memory: Memory)
    requires Inv(s)
    ensures var (f, token) := AcquireToken(s.fields, memory);
      && (token.Some? <==> CanHaveToken(s, memory))
      && (token.None? ==> f == s.fields)
      && (token.Some? ==> token == Some(s.fields.lease.nextGeneration) && f == s.fields.(lease := f.lease))
  {
    AcquireKeepsLease(s.fields.lease, memory != NoRecord);
    NoTokensAtAll(s);
    hide Inv, Acquire;
  }

  lemma NoTokensAtAll(s: State)
    requires LeasePart(s.fields.lease, s.tokens, s.others, s.returned)
    ensures LeaseInv(s.fields.lease)
    ensures s.fields.lease.tokens == {} <==> s.tokens == map[] && s.others == {}
  {
    hide LeaseInv;
    if s.fields.lease.tokens == {} {
      NoTokensNoSenders(s);
      assert s.others <= s.fields.lease.tokens;
    }
  }

  // A send is accepted exactly when the transport is open, fewer payloads wait or are promised than it holds,
  // and the lease grants a token; a refused one changes nothing.
  lemma SendResult(s: State, source: Payload, memory: Memory)
    requires Reachable(s) && !s.destroyed
    ensures var s', g := Step(s, Prepare(source, memory)), s.fields.lease.nextGeneration;
      if !s.fields.closed && |s.fields.queue| + |Senders(s.tokens)| < s.fields.capacity && CanHaveToken(s, memory) then
        && g !in s.tokens && s'.tokens == s.tokens[g := Prepared(source)]
        && s'.fields.reservations == s.fields.reservations + 1 && s'.fields.queue == s.fields.queue
        && s'.sent == s.sent
      else s' == s
  {
    hide AcquireToken, Reachable, CanHaveToken, Senders, IsFull, FatePart, QueuePart, ClosePart, LeaseInv;
    ReachableStatesKeepInv(s);
    RoomIsBounded(s);
    AcquireResult(s, memory);
  }

  // A commit is turned away exactly when the transport has been closed meanwhile; otherwise the payload is moved
  // if the memory suffices, and then becomes the last of the queue.
  lemma CommitResult(s: State, g: nat, enough: bool)
    requires Reachable(s) && g in s.tokens && s.tokens[g].Prepared?
    ensures var s', source := Step(s, StartCommit(g, enough)), s.tokens[g].source;
      && (s'.tokens[g] == Cancelling <==> s.fields.closed)
      && (s'.tokens[g] == Moving(source) <==> !s.fields.closed && enough)
      && (s'.tokens[g] == Prepared(source) <==> !s.fields.closed && !enough)
      && s' == s.(tokens := s.tokens[g := s'.tokens[g]])
  {
    if !s.fields.closed && !enough {
      assert s.tokens == s.tokens[g := s.tokens[g]];
    }
    hide Reachable;
  }

  lemma MovedResult(s: State, g: nat)
    requires Reachable(s) && g in s.tokens && s.tokens[g].Moving?
    ensures var s', source := Step(s, EndCommit(g)), s.tokens[g].source;
      && s'.sent == s.sent + [source] && s'.fields.queue == s.fields.queue + [source]
      && s'.fields.size == s.fields.size + 1 && s'.fields.reservations == s.fields.reservations - 1
      && s'.tokens == s.tokens - {g} && s'.taken == s.taken && s'.fates == s.fates
  {
    SenderHasRoom(s, g);
    hide Reachable;
  }

  // Giving up a send frees its place and leaves the queue alone.
  lemma CancelResult(s: State, g: nat)
    requires Reachable(s) && Enabled(s, Cancel(g))
    ensures var s' := Step(s, Cancel(g));
      && s'.tokens == s.tokens - {g} && s'.fields.reservations == s.fields.reservations - 1
      && s'.fields.queue == s.fields.queue && s'.sent == s.sent && s'.fates == s.fates
  {
    SenderHasRoom(s, g);
    hide Reachable;
  }

  lemma SenderHasRoom(s: State, g: nat)
    requires Reachable(s) && g in s.tokens && s.tokens[g].Sends()
    ensures 0 < s.fields.reservations && s.fields.size + s.fields.reservations < WORD64
  {
    hide Reachable, LeasePart, FatePart, QueuePart, ClosePart;
    ReachableStatesKeepInv(s);
    assert g in Senders(s.tokens);
  }

  // A receiver gets the oldest payload not yet handed out, exactly when one waits and the lease grants a token;
  // otherwise nothing changes.
  lemma ReceiveResult(s: State, memory: Memory)
    requires Reachable(s) && !s.destroyed
    ensures var s', g, i := Step(s, Receive(memory)), s.fields.lease.nextGeneration, |s.taken|;
      if s.fields.queue != [] && CanHaveToken(s, memory) then
        && i < |s.sent| && s'.taken == s.taken + [s.sent[i]] && s'.fields.queue == s.fields.queue[1..]
        && s'.fields.size == |s.fields.queue| - 1
        && g !in s.tokens && s'.tokens == s.tokens[g := Acquired(i, s.sent[i])] && s'.fates == s.fates
      else s' == s
  {
    hide AcquireToken, Reachable, CanHaveToken, Inv;
    ReachableStatesKeepInv(s);
    AcquireResult(s, memory);
    if s.fields.queue != [] && CanHaveToken(s, memory) {
      OldestWaits(s, memory);
    }
  }

  lemma OldestWaits(s: State, memory: Memory)
    requires Inv(s) && s.fields.queue != [] && CanHaveToken(s, memory)
    ensures s.fields.lease.nextGeneration !in s.tokens && s.fields.size == |s.fields.queue| < WORD64
    ensures Next(s) == |s.taken| < |s.sent| && s.fields.queue[0] == s.sent[|s.taken|]
  {
    hide LeaseInv, FatePart, Senders;
    OpenLease(s);
  }

  // What a receiver makes of its payload: a copy or a take is Received, a cancelled one is Dropped, each the
  // payload of its position and never before settled. A take or a drop gives its token back in a section of its own.
  lemma SettleResult(s: State, g: nat)
    requires Reachable(s) && g in s.tokens && s.tokens[g].Acquired?
    ensures var i := s.tokens[g].position;
      && i < |s.sent| && s.tokens[g].payload == s.sent[i] && i !in s.fates
      && (!s.fields.typed ==>
            && Step(s, Deliver(g)).fates == s.fates[i := Received]
            && Step(s, Deliver(g)).tokens == s.tokens - {g})
      && (s.fields.typed ==>
            && Step(s, Take(g)).fates == s.fates[i := Received]
            && Step(s, Take(g)).tokens == s.tokens[g := Ending])
      && Step(s, Drop(g)).fates == s.fates[i := Dropped] && Step(s, Drop(g)).tokens == s.tokens[g := Ending]
  {
    hide Reachable, LeasePart, RoomPart;
    ReachableStatesKeepInv(s);
    HeldPosition(s, g);
  }

  // Another user of the lease gets a token under the same conditions.
  lemma OthersAcquireResult(s: State, record: bool)
    requires Reachable(s)
    ensures var s', n := OthersAcquire(s, record), s.fields.lease.nextGeneration;
      if CanHaveToken(s, if record then Enough else NoRecord) then
        n !in s.others && s'.others == s.others + {n} && s'.tokens == s.tokens
      else s' == s
  {
    hide Reachable, Inv, CanHaveToken, Acquire;
    ReachableStatesKeepInv(s);
    AcquireResult(s, if record then Enough else NoRecord);
    OthersGetFresh(s);
  }

  lemma OthersGetFresh(s: State)
    requires Inv(s)
    ensures s.fields.lease.nextGeneration !in s.others
  {
    hide LeaseInv, RoomPart, FatePart, QueuePart, ClosePart;
  }

  // Ending and quieting the lease from elsewhere changes its state only.
  lemma OthersEndResult(s: State)
    requires Reachable(s)
    ensures var s' := Step(s, OtherEndsLease);
      Ended(s'.fields.lease) && s' == s.(fields := s.fields.(lease := s.fields.lease.(state := s'.fields.lease.state)))
    ensures var s' := Step(s, OtherQuietsLease);
      && (s'.fields.lease.state == LeaseClosed <==> Ended(s.fields.lease) && s.tokens == map[] && s.others == {})
      && s' == s.(fields := s.fields.(lease := s.fields.lease.(state := s'.fields.lease.state)))
  {
    hide Reachable, Inv, Quiesce, BeginLeaseClose, LeaseInv;
    ReachableStatesKeepInv(s);
    UsersAreTokens(s);
    EndingKeepsLease(s.fields.lease);
  }

  lemma UsersAreTokens(s: State)
    requires Inv(s)
    ensures LeaseInv(s.fields.lease)
    ensures s.fields.lease.tokens == {} <==> s.tokens == map[] && s.others == {}
    ensures s.fields.lease.state == LeaseClosed ==> s.tokens == map[] && s.others == {}
  {
    hide RoomPart, FatePart, QueuePart, ClosePart;
    NoTokensAtAll(s);
    hide LeasePart;
  }

  // ----- A transport can always be closed and destroyed -----

  lemma StepExtendsRun(s: State, a: Action, actions: seq<Action>, s': State)
    requires Enabled(s, a) && Runs(Step(s, a), actions, s')
    ensures Runs(s, [a] + actions, s')
  {
    assert ([a] + actions)[1..] == actions;
  }

  // Tokens weigh three: two steps to end one, and a payload that a commit may still append.
  ghost function Load(s: State): nat {
    3 * |s.fields.lease.tokens|
    + if s.drain.Some? && s.drain.value <= |s.sent| then |s.sent| - s.drain.value else |s.fields.queue|
  }

  // One unit of work lightens the load.
  ghost predicate Lightens(s: State, actions: seq<Action>, s': State) {
    Runs(s, actions, s') && Inv(s') && !s'.destroyed && Load(s') + |actions| <= Load(s) && s'.drain == s.drain
  }

  lemma ReleasedCardinality(l: Lease, g: nat)
    requires g in l.tokens
    ensures |ReleaseToken(l, g).tokens| == |l.tokens| - 1
  {
  }

  lemma OneStep(s: State, a: Action)
    requires Inv(s) && Enabled(s, a)
    ensures Runs(s, [a], Step(s, a)) && Inv(Step(s, a))
  {
    StepKeepsInv(s, a);
    hide Inv, Step, Enabled;
    var s' := Step(s, a);
    assert Runs(s', [], s') && [a] + [] == [a];
    StepExtendsRun(s, a, [], s');
  }

  lemma TokenIsActive(s: State, g: nat)
    requires Inv(s) && (g in s.tokens || g in s.others)
    ensures g in s.fields.lease.tokens
    ensures g in s.tokens ==> !s.destroyed && s.drain.None?
    ensures |s.fields.queue| <= |s.sent|
  {
    hide FatePart, RoomPart;
  }

  lemma SenderEnds(s: State, g: nat) returns (actions: seq<Action>, s': State)
    requires Inv(s) && !s.destroyed && g in s.tokens && s.tokens[g].Sends()
    ensures Lightens(s, actions, s') && actions != []
  {
    hide Inv, Runs, ReleaseToken;
    TokenIsActive(s, g);
    ReleasedCardinality(s.fields.lease, g);
    var a := if s.tokens[g].Moving? then EndCommit(g) else Cancel(g);
    OneStep(s, a);
    actions, s' := [a], Step(s, a);
  }

  lemma EndingEnds(s: State, g: nat) returns (s': State)
    requires Inv(s) && !s.destroyed && g in s.tokens && s.tokens[g].Ending?
    ensures Lightens(s, [End(g)], s') && Load(s') + 3 <= Load(s)
  {
    hide Inv, Runs, ReleaseToken;
    TokenIsActive(s, g);
    ReleasedCardinality(s.fields.lease, g);
    OneStep(s, End(g));
    s' := Step(s, End(g));
  }

  lemma ReceiverEnds(s: State, g: nat) returns (actions: seq<Action>, s': State)
    requires Inv(s) && !s.destroyed && g in s.tokens && s.tokens[g].Acquired?
    ensures Lightens(s, actions, s') && actions != []
  {
    hide Inv, Runs;
    OneStep(s, Drop(g));
    var dropped := Step(s, Drop(g));
    s' := EndingEnds(dropped, g);
    assert Load(dropped) == Load(s) && dropped.drain == s.drain;
    hide Step, Enabled, Load;
    RunsConcat(s, [Drop(g)], dropped, [End(g)], s');
    actions := [Drop(g)] + [End(g)];
  }

  lemma OtherEnds(s: State, g: nat) returns (actions: seq<Action>, s': State)
    requires Inv(s) && !s.destroyed && g in s.others
    ensures Lightens(s, actions, s') && actions != []
  {
    hide Inv, Runs, ReleaseToken;
    TokenIsActive(s, g);
    ReleasedCardinality(s.fields.lease, g);
    OneStep(s, OtherReleases(g));
    actions, s' := [OtherReleases(g)], Step(s, OtherReleases(g));
  }

  lemma {:induction false} RunsConcat(s: State, first: seq<Action>, m: State, second: seq<Action>, s': State)
    requires Runs(s, first, m) && Runs(m, second, s')
    ensures Runs(s, first + second, s')
    decreases |first|
  {
    hide Step, Enabled;
    if first == [] {
      assert first + second == second;
    } else {
      assert (first + second)[1..] == first[1..] + second;
      RunsConcat(Step(s, first[0]), first[1..], m, second, s');
    }
  }

  lemma ActiveIsSomebodys(s: State, g: nat)
    requires Inv(s) && g in s.fields.lease.tokens
    ensures g in s.tokens || g in s.others
  {
    hide FatePart, RoomPart, QueuePart, ClosePart;
  }

  lemma ActiveTokenEnds(s: State) returns (actions: seq<Action>, s': State)
    requires Inv(s) && !s.destroyed && s.fields.lease.tokens != {}
    ensures Lightens(s, actions, s') && actions != []
  {
    hide Inv, Lightens;
    var g :| g in s.fields.lease.tokens;
    ActiveIsSomebodys(s, g);
    if g !in s.tokens {
      actions, s' := OtherEnds(s, g);
    } else if s.tokens[g].Acquired? {
      actions, s' := ReceiverEnds(s, g);
    } else if s.tokens[g].Ending? {
      s' := EndingEnds(s, g);
      actions := [End(g)];
    } else {
      actions, s' := SenderEnds(s, g);
    }
  }

  // All tokens end, one after the other.
  lemma AllTokensEnd(s: State) returns (actions: seq<Action>, s': State)
    requires Inv(s) && !s.destroyed
    ensures Lightens(s, actions, s') && s'.fields.lease.tokens == {}
    decreases Load(s)
  {
    hide Inv, Step, Enabled, Load;
    if s.fields.lease.tokens == {} {
      actions, s' := [], s;
    } else {
      var first, middle := ActiveTokenEnds(s);
      var rest;
      rest, s' := AllTokensEnd(middle);
      RunsConcat(s, first, middle, rest, s');
      actions := first + rest;
    }
  }

  // A queue taken away is dropped to its end, and the close completes.
  lemma DrainEnds(s: State) returns (actions: seq<Action>, s': State)
    requires Inv(s) && s.drain.Some? && s.drain.value <= |s.sent|
    ensures Runs(s, actions, s') && Inv(s') && s'.fields.quiesced && !s'.destroyed
    ensures |actions| <= |s.sent| - s.drain.value + 1
    decreases |s.sent| - s.drain.value
  {
    hide Inv, Runs, Quiesce;
    DrainIsAlive(s);
    if s.drain.value == |s.sent| {
      EndCloseKeepsInv(s);
      OneStep(s, EndClose);
      actions, s' := [EndClose], Step(s, EndClose);
    } else {
      OneStep(s, DropNext);
      var next := Step(s, DropNext);
      var rest;
      rest, s' := DrainEnds(next);
      RunsConcat(s, [DropNext], next, rest, s');
      actions := [DropNext] + rest;
    }
  }

  lemma DrainIsAlive(s: State)
    requires Inv(s) && s.drain.Some?
    ensures !s.destroyed && s.drain.value <= |s.sent|
  {
    hide LeasePart, FatePart, RoomPart;
  }

  lemma DestroyEnds(s: State) returns (s': State)
    requires Inv(s) && s.fields.quiesced && !s.destroyed
    ensures Runs(s, [Destroy], s') && s'.destroyed
  {
    DestroyKeepsInv(s);
    OneStep(s, Destroy);
    s' := Step(s, Destroy);
  }

  // Without active tokens a close drains or finds that another has, and the transport can be destroyed.
  lemma QuietTransportEnds(s: State) returns (actions: seq<Action>, s': State)
    requires Inv(s) && !s.destroyed && s.fields.lease.tokens == {}
    ensures Runs(s, actions, s') && s'.destroyed && |actions| <= Load(s) + 3
  {
    if s.fields.quiesced {
      s' := DestroyEnds(s);
      actions := [Destroy];
    } else if s.drain.Some? {
      DrainIsAlive(s);
      hide Inv, Step, Enabled, Runs;
      var drains, quiet := DrainEnds(s);
      s' := DestroyEnds(quiet);
      RunsConcat(s, drains, quiet, [Destroy], s');
      actions := drains + [Destroy];
    } else {
      NoTokensNoSenders(s);
      QuietCloseDrains(s);
      OneStep(s, StartClose);
      var closing := Step(s, StartClose);
      hide Inv, Step, Enabled, Runs;
      var drains, quiet := DrainEnds(closing);
      s' := DestroyEnds(quiet);
      RunsConcat(closing, drains, quiet, [Destroy], s');
      RunsConcat(s, [StartClose], closing, drains + [Destroy], s');
      actions := [StartClose] + (drains + [Destroy]);
    }
  }

  lemma QuietCloseDrains(s: State)
    requires Inv(s) && !s.destroyed && !s.fields.quiesced && s.drain.None? && s.fields.lease.tokens == {}
    ensures var s' := Step(s, StartClose);
      && s'.drain.Some? && s'.drain.value <= |s'.sent| && |s'.sent| - s'.drain.value == |s.fields.queue|
  {
    hide LeasePart, FatePart, RoomPart;
  }

  // From every reachable state some schedule of the token holders and of one closer, of a length bounded by the
  // active tokens and the payloads that wait, ends with the transport destroyed.
  lemma TransportCanBeDestroyed(s: State)
    requires Reachable(s) && !s.destroyed
    ensures exists actions, s' :: Runs(s, actions, s') && s'.destroyed && |actions| <= Load(s) + 3
  {
    hide Inv, Step, Enabled, Runs, Load, Reachable;
    ReachableStatesKeepInv(s);
    var ends, quiet := AllTokensEnd(s);
    var closes, s' := QuietTransportEnds(quiet);
    RunsConcat(s, ends, quiet, closes, s');
  }
}
