// How the language server matches query results to client requests. A query is registered after the compiler service
// has issued its internal id, so its result may arrive first; both orders go through three maps under one lock. The
// state machine interleaves any number of requests and completions.
module LanguageServer {
  import opened Prelude
  import opened RequestIds

  type RequestId = nat

  datatype Status = Succeeded | Cancelled | Stale | Failed

  datatype Kind = Hover | Completion | DocumentSymbols | PrepareRename | Rename | Locations

  // `present` says that a hover or a rename was found; `payload` is the rendering of what was found.
  datatype Outcome = Outcome(status: Status, kind: Kind, present: bool, error: string, payload: string)

  // What is sent to the client for an outcome.
  datatype Reply = Error(code: int, message: string) | Null | Result(payload: string)

  function ReplyTo(o: Outcome): Reply {
    match o.status
    case Cancelled => Error(-32800, "Request cancelled")
    case Stale => Error(-32801, "Content modified")
    case Failed => Error(-32603, if o.error == "" then "compiler language query failed" else o.error)
    case Succeeded =>
      if o.present then Result(o.payload)
      else
        match o.kind
        case Hover => Null
        case PrepareRename => Null
        case Rename => Error(-32602, if o.error == "" then "the selected symbol cannot be renamed" else o.error)
        case _ => Result(o.payload)
  }

  // What each reply means: every one for exactly its causes, and every error with its message.
  ghost predicate Answers(o: Outcome, r: Reply) {
    var found := o.status == Succeeded && o.present;
    && (r == Result(o.payload) <==>
          found || (o.status == Succeeded && o.kind != Hover && o.kind != PrepareRename && o.kind != Rename))
    && (r == Null <==> o.status == Succeeded && !found && (o.kind == Hover || o.kind == PrepareRename))
    && (r == Error(-32800, "Request cancelled") <==> o.status == Cancelled)
    && (r == Error(-32801, "Content modified") <==> o.status == Stale)
    && (r.Error? && r.code == -32603 <==> o.status == Failed)
    && (r.Error? && r.code == -32602 <==> o.status == Succeeded && !found && o.kind == Rename)
    && (o.status == Failed ==> r.message == if o.error == "" then "compiler language query failed" else o.error)
    && (r.Error? && o.status == Succeeded ==>
          r.message == if o.error == "" then "the selected symbol cannot be renamed" else o.error)
  }

  lemma ReplyAnswers(o: Outcome)
    ensures forall r :: Answers(o, r) <==> r == ReplyTo(o)
  {
    forall r
      ensures Answers(o, r) <==> r == ReplyTo(o)
    {
    }
  }

  // One more message, to this client, with the reply for this outcome.
  ghost predicate SentReply(before: seq<(Id, Reply)>, after: seq<(Id, Reply)>, id: Id, o: Outcome) {
    && |after| == |before| + 1 && after[..|before|] == before
    && after[|before|].0 == id && Answers(o, after[|before|].1)
  }

  // The maps that request_mutex_ protects.
  datatype Fields = Fields(client: map<string, RequestId>, internal: map<RequestId, Id>, early: map<RequestId, Outcome>)

  // ----- The critical sections -----

  function RegisterSection(f: Fields, id: Id, n: RequestId): (Fields, Option<Outcome>) {
    var client := f.client[IdKey(id) := n];
    var internal := if n in f.internal then f.internal else f.internal[n := id];
    if n in f.early then (Fields(client, internal, f.early - {n}), Some(f.early[n]))
    else (Fields(client, internal, f.early), None)
  }

  function CompleteSection(f: Fields, n: RequestId, o: Outcome): (Fields, Option<Id>) {
    if n !in f.internal then (f.(early := f.early[n := o]), None)
    else
      var id := f.internal[n];
      (f.(client := f.client - {IdKey(id)}, internal := f.internal - {n}), Some(id))
  }

  // The request that a cancellation is passed on for; 0 when there is none.
  function Lookup(f: Fields, id: Id): RequestId {
    if IdKey(id) in f.client then f.client[IdKey(id)] else 0
  }

  class Server {
    var clientRequests: map<string, RequestId>
    var internalRequests: map<RequestId, Id>
    var earlyResults: map<RequestId, Outcome>
    var sent: seq<(Id, Reply)>

    function View(): Fields
      reads this
    {
      Fields(clientRequests, internalRequests, earlyResults)
    }

    constructor ()
      ensures View() == Fields(map[], map[], map[]) && sent == []
    {
      clientRequests, internalRequests, earlyResults, sent := map[], map[], map[], [];
    }

    method CompleteQuery(n: RequestId, o: Outcome)
      modifies this
      ensures View() == CompleteSection(old(View()), n, o).0
      ensures n in old(internalRequests) ==> SentReply(old(sent), sent, old(internalRequests)[n], o)
      ensures n !in old(internalRequests) ==> sent == old(sent) && earlyResults == old(earlyResults)[n := o]
    {
      if n !in internalRequests {
        earlyResults := earlyResults[n := o];
        return;
      }
      var clientId := internalRequests[n];
      clientRequests := clientRequests - {IdKey(clientId)};
      internalRequests := internalRequests - {n};
      if o.status == Cancelled {
        sent := sent + [(clientId, Error(-32800, "Request cancelled"))];
        return;
      }
      if o.status == Stale {
        sent := sent + [(clientId, Error(-32801, "Content modified"))];
        return;
      }
      if o.status != Succeeded {
        sent := sent + [(clientId, Error(-32603, if o.error == "" then "compiler language query failed" else o.error))];
        return;
      }
      if (o.kind == Hover || o.kind == PrepareRename) && !o.present {
        sent := sent + [(clientId, Null)];
        return;
      }
      if o.kind == Rename && !o.present {
        var message := if o.error == "" then "the selected symbol cannot be renamed" else o.error;
        sent := sent + [(clientId, Error(-32602, message))];
        return;
      }
      sent := sent + [(clientId, Result(o.payload))];
    }

    method RegisterQuery(clientId: Id, n: RequestId)
      modifies this
      ensures var (f, early) := RegisterSection(old(View()), clientId, n);
        match early
        case None => View() == f
        case Some(o) => View() == CompleteSection(f, n, o).0
      ensures n !in old(earlyResults) ==>
        && sent == old(sent) && clientRequests == old(clientRequests)[IdKey(clientId) := n]
        && internalRequests
           == (if n in old(internalRequests) then old(internalRequests) else old(internalRequests)[n := clientId])
      ensures n in old(earlyResults) ==>
        SentReply(old(sent), sent, if n in old(internalRequests) then old(internalRequests)[n] else clientId,
                  old(earlyResults)[n])
    {
      var early: Option<Outcome> := None;
      var key := IdKey(clientId);
      clientRequests := clientRequests[key := n];
      if n !in internalRequests {
        internalRequests := internalRequests[n := clientId];
      }
      if n in earlyResults {
        early := Some(earlyResults[n]);
        earlyResults := earlyResults - {n};
      }
      if early.Some? {
        CompleteQuery(n, early.value);
      }
    }

    method CancelTarget(id: Id) returns (n: RequestId)
      ensures n == Lookup(View(), id)
    {
      n := 0;
      if IdKey(id) in clientRequests {
        n := clientRequests[IdKey(id)];
      }
    }
  }

  // ----- Interleavings -----

  datatype Response = Response(request: RequestId, client: Id, reply: Reply)

  // issued: every request the service has accepted, with the id of its client.
  // unregistered: issued but not yet registered. unfinished: not yet completed by the service.
  // replaying: early results on their way back into completeQuery. sending: answers not yet written.
  // outcomes: what the service reported.
  datatype State = State(
    fields: Fields,
    issued: map<RequestId, Id>,
    unregistered: set<RequestId>,
    unfinished: set<RequestId>,
    replaying: map<RequestId, Outcome>,
    sending: map<RequestId, Response>,
    outcomes: map<RequestId, Outcome>,
    responses: seq<Response>)

  datatype Action =
    | Issue(n: RequestId, id: Id)
    | Register(n: RequestId)
    | Complete(n: RequestId, outcome: Outcome)
    | Replay(n: RequestId)
    | Send(n: RequestId)

  ghost predicate Init(s: State) {
    s == State(Fields(map[], map[], map[]), map[], {}, {}, map[], map[], map[], [])
  }

  // The service never reuses an id and completes each id once.
  predicate Enabled(s: State, a: Action) {
    match a
    case Issue(n, _) => n !in s.issued && n != 0
    case Register(n) => n in s.unregistered && n in s.issued
    case Complete(n, _) => n in s.unfinished
    case Replay(n) => n in s.replaying
    case Send(n) => n in s.sending
  }

  function Deliver(s: State, n: RequestId, o: Outcome): State {
    var (f, id) := CompleteSection(s.fields, n, o);
    s.(fields := f, sending := if id.Some? then s.sending[n := Response(n, id.value, ReplyTo(o))] else s.sending)
  }

  function Step(s: State, a: Action): State
    requires Enabled(s, a)
  {
    match a
    case Issue(n, id) =>
      s.(issued := s.issued[n := id], unregistered := s.unregistered + {n}, unfinished := s.unfinished + {n})
    case Register(n) =>
      var (f, early) := RegisterSection(s.fields, s.issued[n], n);
      s.(fields := f, unregistered := s.unregistered - {n},
         replaying := if early.Some? then s.replaying[n := early.value] else s.replaying)
    case Complete(n, o) =>
      Deliver(s.(unfinished := s.unfinished - {n}, outcomes := s.outcomes[n := o]), n, o)
    case Replay(n) => Deliver(s.(replaying := s.replaying - {n}), n, s.replaying[n])
    case Send(n) => s.(sending := s.sending - {n}, responses := s.responses + [s.sending[n]])
  }

  ghost predicate Runs(s: State, actions: seq<Action>, s': State)
    decreases |actions|
  {
    if actions == [] then s' == s
    else Enabled(s, actions[0]) && Runs(Step(s, actions[0]), actions[1..], s')
  }

  ghost predicate Reachable(s: State) {
    exists s0, actions :: Init(s0) && Runs(s0, actions, s)
  }

  ghost predicate Answered(s: State, n: RequestId) {
    exists r :: r in s.responses && r.request == n
  }

  // ----- The inductive invariant -----

  // Every issued request is in exactly one place.
  ghost predicate InOnePlace(s: State, n: RequestId) {
    && (n in s.issued <==>
      n in s.unregistered || n in s.fields.internal || n in s.sending || Answered(s, n))
    && (n in s.unregistered ==> n !in s.fields.internal && n !in s.sending && !Answered(s, n))
    && (n in s.fields.internal ==> n !in s.sending && !Answered(s, n))
    && (n in s.sending ==> !Answered(s, n))
  }

  // Where its result is.
  ghost predicate ResultInOnePlace(s: State, n: RequestId) {
    && (n in s.unfinished ==> n in s.unregistered || n in s.fields.internal)
    && (n in s.outcomes <==> n in s.issued && n !in s.unfinished)
    && (n in s.fields.early <==> n in s.unregistered && n !in s.unfinished)
    && (n in s.replaying <==> n in s.fields.internal && n !in s.unfinished)
  }

  ghost predicate Matches(s: State, r: Response, n: RequestId) {
    n in s.issued && n in s.outcomes && r == Response(n, s.issued[n], ReplyTo(s.outcomes[n]))
  }

  ghost predicate Agrees(s: State, n: RequestId) {
    && (n in s.fields.internal ==> n in s.issued && s.fields.internal[n] == s.issued[n])
    && (n in s.fields.early ==> n in s.outcomes && s.fields.early[n] == s.outcomes[n])
    && (n in s.replaying ==> n in s.outcomes && s.replaying[n] == s.outcomes[n])
    && (n in s.sending ==> Matches(s, s.sending[n], n))
  }

  ghost predicate OneResponseEach(s: State) {
    && (forall r :: r in s.responses ==> Matches(s, r, r.request))
    && forall i, j :: 0 <= i < j < |s.responses| ==> s.responses[i].request != s.responses[j].request
  }

  ghost predicate Inv(s: State) {
    && (forall n :: InOnePlace(s, n))
    && (forall n :: ResultInOnePlace(s, n))
    && (forall n :: Agrees(s, n))
    && OneResponseEach(s)
    && 0 !in s.issued
  }

  lemma StepKeepsInv(s: State, a: Action)
    requires Inv(s) && Enabled(s, a)
    ensures Inv(Step(s, a))
  {
    var s' := Step(s, a);
    forall n
      ensures InOnePlace(s', n) && ResultInOnePlace(s', n) && Agrees(s', n)
    {
      StepKeepsEach(s, a, n);
    }
    StepKeepsResponses(s, a);
  }

  lemma AnsweredNext(s: State, a: Action, n: RequestId)
    requires Enabled(s, a)
    ensures Answered(Step(s, a), n) <==> Answered(s, n) || (a.Send? && s.sending[a.n].request == n)
  {
  }

  lemma StepKeepsEach(s: State, a: Action, n: RequestId)
    requires Inv(s) && Enabled(s, a)
    ensures var s' := Step(s, a); InOnePlace(s', n) && ResultInOnePlace(s', n) && Agrees(s', n)
  {
    AnsweredNext(s, a, n);
    assert InOnePlace(s, n) && ResultInOnePlace(s, n) && Agrees(s, n);
    assert InOnePlace(s, a.n) && ResultInOnePlace(s, a.n) && Agrees(s, a.n);
    assert a.Send? ==> s.sending[a.n].request == a.n;
    hide Answered, OneResponseEach, Inv, IdKey;
  }

  lemma StepKeepsResponses(s: State, a: Action)
    requires Inv(s) && Enabled(s, a)
    ensures OneResponseEach(Step(s, a)) && 0 !in Step(s, a).issued
  {
    var s' := Step(s, a);
    assert InOnePlace(s, a.n) && ResultInOnePlace(s, a.n) && Agrees(s, a.n);
    forall r | r in s.responses ensures Matches(s', r, r.request) {
      assert Answered(s, r.request) && InOnePlace(s, r.request) && ResultInOnePlace(s, r.request);
    }
  }

  lemma {:induction false} RunKeepsInv(s: State, actions: seq<Action>, s': State)
    requires Inv(s) && Runs(s, actions, s')
    ensures Inv(s')
    decreases |actions|
  {
    hide Inv;
    if actions != [] {
      StepKeepsInv(s, actions[0]);
      RunKeepsInv(Step(s, actions[0]), actions[1..], s');
    }
  }

  lemma ReachableStatesKeepInv(s: State)
    requires Reachable(s)
    ensures Inv(s)
  {
    var s0, actions :| Init(s0) && Runs(s0, actions, s);
    assert Inv(s0);
    RunKeepsInv(s0, actions, s);
  }

  // ----- What holds in every run -----

  // Whatever the interleaving: no request is answered twice, and every answer carries the client's own id
  // and the outcome that the service reported for that request.
  lemma NoResponseIsWrong(s: State, i: nat, j: nat)
    requires Reachable(s) && i < |s.responses| && j < |s.responses|
    ensures s.responses[i].request == s.responses[j].request ==> i == j
    ensures var r := s.responses[i];
      && r.request in s.issued && r.client == s.issued[r.request]
      && r.request in s.outcomes && Answers(s.outcomes[r.request], r.reply)
  {
    ReachableStatesKeepInv(s);
    ReplyAnswers(s.outcomes[s.responses[i].request]);
    hide ReplyTo, Answers;
    assert s.responses[i] in s.responses;
  }

  // Nothing but a new request can happen.
  ghost predicate Settled(s: State) {
    forall a :: Enabled(s, a) ==> a.Issue?
  }

  // When nothing is left to do every request has been answered, and no result or registration is left over.
  lemma SettledMeansAnswered(s: State)
    requires Reachable(s) && Settled(s)
    ensures forall n :: n in s.issued <==> Answered(s, n)
    ensures s.fields.internal == map[] && s.fields.early == map[]
  {
    ReachableStatesKeepInv(s);
    forall n
      ensures n !in s.unregistered && n !in s.unfinished && n !in s.replaying && n !in s.sending
    {
      assert InOnePlace(s, n) && ResultInOnePlace(s, n);
      assert !Enabled(s, Register(n)) && !Enabled(s, Replay(n)) && !Enabled(s, Send(n));
      assert !Enabled(s, Complete(n, Outcome(Failed, Hover, false, "", "")));
    }
    forall n
      ensures n !in s.fields.internal && n !in s.fields.early && (n in s.issued <==> Answered(s, n))
    {
      assert InOnePlace(s, n) && ResultInOnePlace(s, n);
    }
  }

  // The steps that the requests issued so far still need, at most.
  function Weight(s: State): nat {
    |s.unregistered| + 3 * |s.unfinished| + 2 * |s.fields.early| + 2 * |s.replaying| + |s.sending|
  }

  lemma RemoveKey<T>(m: map<RequestId, T>, n: RequestId)
    requires n in m
    ensures |m - {n}| == |m| - 1
  {
    assert (m - {n}).Keys == m.Keys - {n};
    assert |(m - {n}).Keys| == |m - {n}| && |m.Keys| == |m|;
  }

  lemma AddKey<T>(m: map<RequestId, T>, n: RequestId, v: T)
    ensures n !in m ==> |m[n := v]| == |m| + 1
    ensures n in m ==> |m[n := v]| == |m|
  {
    assert m[n := v].Keys == m.Keys + {n};
    assert |m[n := v].Keys| == |m[n := v]| && |m.Keys| == |m|;
    if n in m {
      assert m.Keys + {n} == m.Keys;
    }
  }

  lemma StepLightens(s: State, a: Action)
    requires Inv(s) && Enabled(s, a) && !a.Issue?
    ensures Weight(Step(s, a)) < Weight(s)
  {
    assert InOnePlace(s, a.n) && ResultInOnePlace(s, a.n);
    hide InOnePlace, Answered, Agrees, OneResponseEach, IdKey, Deliver;
    match a {
      case Register(n) => RegisterLightens(s, n);
      case Complete(n, o) =>
        DeliverWeighs(s.(unfinished := s.unfinished - {n}, outcomes := s.outcomes[n := o]), n, o);
      case Replay(n) =>
        RemoveKey(s.replaying, n);
        DeliverWeighs(s.(replaying := s.replaying - {n}), n, s.replaying[n]);
      case Send(n) =>
        RemoveKey(s.sending, n);
    }
  }

  lemma RegisterLightens(s: State, n: RequestId)
    requires Enabled(s, Register(n))
    ensures Weight(Step(s, Register(n))) < Weight(s)
  {
    hide IdKey;
    if n in s.fields.early {
      RemoveKey(s.fields.early, n);
      AddKey(s.replaying, n, s.fields.early[n]);
    }
  }

  lemma DeliverWeighs(s: State, n: RequestId, o: Outcome)
    ensures Weight(Deliver(s, n, o)) <= Weight(s) + if n in s.fields.internal then 1 else 2
  {
    if n in s.fields.internal {
      AddKey(s.sending, n, Response(n, s.fields.internal[n], ReplyTo(o)));
    } else {
      AddKey(s.fields.early, n, o);
    }
  }

  // Without new requests every run ends, after at most Weight(s) steps, under any scheduling.
  lemma {:induction false} RunsEnd(s: State, actions: seq<Action>, s': State)
    requires Inv(s) && Runs(s, actions, s') && forall a :: a in actions ==> !a.Issue?
    ensures |actions| + Weight(s') <= Weight(s)
    decreases |actions|
  {
    hide Inv, Weight;
    if actions != [] {
      var a := actions[0];
      StepKeepsInv(s, a);
      StepLightens(s, a);
      RunsEnd(Step(s, a), actions[1..], s');
    }
  }

  // A settled server is one in which nothing weighs anything.
  lemma SettledIsWeightless(s: State)
    requires Inv(s)
    ensures Settled(s) <==> Weight(s) == 0
  {
    if Settled(s) {
      forall n
        ensures n !in s.unregistered && n !in s.unfinished && n !in s.replaying && n !in s.sending
        ensures n !in s.fields.early
      {
        assert InOnePlace(s, n) && ResultInOnePlace(s, n);
        assert !Enabled(s, Register(n)) && !Enabled(s, Replay(n)) && !Enabled(s, Send(n));
        assert !Enabled(s, Complete(n, Outcome(Failed, Hover, false, "", "")));
      }
      assert s.fields.early == map[] && s.replaying == map[] && s.sending == map[];
    } else {
      var a :| Enabled(s, a) && !a.Issue?;
      assert InOnePlace(s, a.n) && ResultInOnePlace(s, a.n);
      StepLightens(s, a);
    }
  }

  lemma {:induction false} RunsConcat(s: State, first: seq<Action>, s': State, second: seq<Action>, s'': State)
    requires Runs(s, first, s') && Runs(s', second, s'')
    ensures Runs(s, first + second, s'')
    decreases |first|
  {
    hide Step, Enabled;
    if first == [] {
      assert first + second == second;
    } else {
      RunsConcat(Step(s, first[0]), first[1..], s', second, s'');
      assert (first + second)[0] == first[0];
      assert (first + second)[1..] == first[1..] + second;
    }
  }

  lemma StepExtendsRun(s: State, a: Action, actions: seq<Action>, s': State)
    requires Enabled(s, a) && Runs(Step(s, a), actions, s')
    ensures Runs(s, [a] + actions, s')
  {
    assert ([a] + actions)[1..] == actions;
  }

  // Any step that is not a new request can be the first of a schedule that settles the server.
  lemma {:induction false} ScheduleSettling(s: State) returns (actions: seq<Action>, s': State)
    requires Inv(s)
    ensures Runs(s, actions, s') && (forall a :: a in actions ==> !a.Issue?)
    ensures Settled(s') && s'.issued == s.issued && |actions| <= Weight(s)
    decreases Weight(s)
  {
    hide Inv, Weight, Step, Enabled;
    SettledIsWeightless(s);
    if Settled(s) {
      actions, s' := [], s;
    } else {
      var a :| Enabled(s, a) && !a.Issue?;
      StepKeepsInv(s, a);
      StepLightens(s, a);
      IssuedStays(s, a);
      var rest, end := ScheduleSettling(Step(s, a));
      StepExtendsRun(s, a, rest, end);
      actions, s' := [a] + rest, end;
    }
  }

  lemma IssuedStays(s: State, a: Action)
    requires Enabled(s, a) && !a.Issue?
    ensures Step(s, a).issued == s.issued
  {
  }

  // Exactly one response of the history is for the request, and it is the right one.
  ghost predicate AnsweredOnce(s: State, n: RequestId) {
    && n in s.issued && n in s.outcomes
    && exists i :: 0 <= i < |s.responses| && s.responses[i].request == n
        && s.responses[i].client == s.issued[n] && Answers(s.outcomes[n], s.responses[i].reply)
        && forall j :: 0 <= j < |s.responses| && s.responses[j].request == n ==> j == i
  }

  lemma AnsweredMeansOnce(s: State, n: RequestId)
    requires Inv(s) && Answered(s, n)
    ensures AnsweredOnce(s, n)
  {
    var r :| r in s.responses && r.request == n;
    assert Matches(s, r, n);
    ReplyAnswers(s.outcomes[n]);
    hide ReplyTo, Answers;
    var i :| 0 <= i < |s.responses| && s.responses[i] == r;
    assert forall j :: 0 <= j < |s.responses| && s.responses[j].request == n ==> j == i;
  }

  // From every reachable state at most Weight(s) steps, none of them a new request, settle the server, and
  // then every request issued so far has exactly one response: to its client's id and with the reply for the
  // outcome that the service reported. No other run without new requests is longer.
  lemma EveryRequestIsAnsweredOnce(s: State) returns (actions: seq<Action>, s': State)
    requires Reachable(s)
    ensures Runs(s, actions, s') && (forall a :: a in actions ==> !a.Issue?) && |actions| <= Weight(s)
    ensures Settled(s') && s'.issued == s.issued && forall n :: n in s.issued ==> AnsweredOnce(s', n)
  {
    ReachableStatesKeepInv(s);
    actions, s' := ScheduleSettling(s);
    RunKeepsInv(s, actions, s');
    var s0, before :| Init(s0) && Runs(s0, before, s);
    RunsConcat(s0, before, s, actions, s');
    assert Reachable(s');
    SettledMeansAnswered(s');
    hide Inv, Answered, AnsweredOnce, Runs;
    forall n | n in s.issued ensures AnsweredOnce(s', n) {
      AnsweredMeansOnce(s', n);
    }
  }

  // ----- Client ids -----

  ghost predicate Outstanding(s: State, n: RequestId) {
    n in s.issued && (n in s.unregistered || n in s.fields.internal)
  }

  // The client gives a new request an id whose key no outstanding request has.
  ghost predicate Courteous(s: State, a: Action) {
    a.Issue? ==> forall m :: Outstanding(s, m) ==> IdKey(s.issued[m]) != IdKey(a.id)
  }

  ghost predicate CourteousRuns(s: State, actions: seq<Action>, s': State)
    decreases |actions|
  {
    if actions == [] then s' == s
    else
      && Enabled(s, actions[0]) && Courteous(s, actions[0])
      && CourteousRuns(Step(s, actions[0]), actions[1..], s')
  }

  // For integers and strings that is what the protocol asks: the ids of outstanding requests differ.
  lemma DistinctIdsAreCourteous(s: State, n: RequestId, id: Id)
    requires IsProper(id)
    ensures Courteous(s, Issue(n, id)) <==> forall m :: Outstanding(s, m) ==> s.issued[m] != id
  {
    forall m | Outstanding(s, m)
      ensures IdKey(s.issued[m]) != IdKey(id) <==> s.issued[m] != id
    {
      KeysTellIdsApart(s.issued[m], id);
    }
  }

  // The client map and the internal map are inverse to each other.
  ghost predicate Inverse(f: Fields) {
    && (forall key :: key in f.client ==>
      f.client[key] in f.internal && IdKey(f.internal[f.client[key]]) == key)
    && forall n :: n in f.internal ==>
      IdKey(f.internal[n]) in f.client && f.client[IdKey(f.internal[n])] == n
  }

  ghost predicate KeysDiffer(s: State) {
    forall m, n :: Outstanding(s, m) && Outstanding(s, n) && m != n ==> IdKey(s.issued[m]) != IdKey(s.issued[n])
  }

  lemma OutstandingNext(s: State, a: Action, n: RequestId)
    requires Inv(s) && Enabled(s, a)
    ensures Outstanding(Step(s, a), n) ==> Outstanding(s, n) || (a.Issue? && n == a.n)
    ensures n in s.issued ==> n in Step(s, a).issued && Step(s, a).issued[n] == s.issued[n]
  {
    assert InOnePlace(s, a.n) && Agrees(s, a.n);
    hide InOnePlace, Answered, ResultInOnePlace, OneResponseEach, IdKey;
  }

  lemma KeysKeepDiffering(s: State, a: Action)
    requires Inv(s) && Enabled(s, a) && Courteous(s, a) && KeysDiffer(s)
    ensures KeysDiffer(Step(s, a))
  {
    var s' := Step(s, a);
    forall m, n | Outstanding(s', m) && Outstanding(s', n) && m != n
      ensures IdKey(s'.issued[m]) != IdKey(s'.issued[n])
    {
      OutstandingNext(s, a, m);
      OutstandingNext(s, a, n);
      assert a.Issue? ==> s'.issued[a.n] == a.id;
      hide Step, Inv, IdKey;
    }
  }

  lemma RegisterKeepsInverse(f: Fields, id: Id, n: RequestId)
    requires Inverse(f) && n !in f.internal
    requires forall m :: m in f.internal ==> IdKey(f.internal[m]) != IdKey(id)
    ensures Inverse(RegisterSection(f, id, n).0)
  {
    hide IdKey;
    var g := RegisterSection(f, id, n).0;
    assert g.internal == f.internal[n := id] && g.client == f.client[IdKey(id) := n];
    assert IdKey(id) !in f.client;
  }

  lemma CompleteKeepsInverse(f: Fields, n: RequestId, o: Outcome)
    requires Inverse(f)
    ensures Inverse(CompleteSection(f, n, o).0)
  {
    hide IdKey;
    var g := CompleteSection(f, n, o).0;
    if n in f.internal {
      assert g.internal == f.internal - {n} && g.client == f.client - {IdKey(f.internal[n])};
      forall key | key in g.client
        ensures g.client[key] in g.internal && IdKey(g.internal[g.client[key]]) == key
      {
        assert f.client[key] != n;
      }
    }
  }

  // No request that is registered has the key of the one being registered.
  ghost predicate KeyIsFree(s: State, a: Action)
    requires Enabled(s, a)
  {
    a.Register? ==> forall m :: m in s.fields.internal ==> IdKey(s.fields.internal[m]) != IdKey(s.issued[a.n])
  }

  lemma FreeKeyKeepsInverse(s: State, a: Action)
    requires Inv(s) && Enabled(s, a) && KeyIsFree(s, a) && Inverse(s.fields)
    ensures Inverse(Step(s, a).fields)
  {
    assert InOnePlace(s, a.n);
    match a {
      case Register(n) =>
        hide Inverse, Inv;
        RegisterKeepsInverse(s.fields, s.issued[n], n);
      case Complete(n, o) =>
        hide Inverse, Inv;
        CompleteKeepsInverse(s.fields, n, o);
      case Replay(n) =>
        hide Inverse, Inv;
        CompleteKeepsInverse(s.fields, n, s.replaying[n]);
      case _ =>
    }
  }

  lemma CourteousKeyIsFree(s: State, a: Action)
    requires Inv(s) && KeysDiffer(s) && Enabled(s, a)
    ensures KeyIsFree(s, a)
  {
    if a.Register? {
      assert InOnePlace(s, a.n);
      forall m | m in s.fields.internal
        ensures IdKey(s.fields.internal[m]) != IdKey(s.issued[a.n])
      {
        assert InOnePlace(s, m) && Agrees(s, m) && Outstanding(s, m) && Outstanding(s, a.n);
      }
    }
  }

  lemma StepKeepsInverse(s: State, a: Action)
    requires Inv(s) && Enabled(s, a) && KeysDiffer(s) && Inverse(s.fields)
    ensures Inverse(Step(s, a).fields)
  {
    CourteousKeyIsFree(s, a);
    FreeKeyKeepsInverse(s, a);
  }

  lemma {:induction false} CourteousRunKeepsInverse(s: State, actions: seq<Action>, s': State)
    requires Inv(s) && KeysDiffer(s) && Inverse(s.fields) && CourteousRuns(s, actions, s')
    ensures Inv(s') && KeysDiffer(s') && Inverse(s'.fields)
    decreases |actions|
  {
    hide Inv, KeysDiffer, Inverse, Courteous;
    if actions != [] {
      StepKeepsInv(s, actions[0]);
      KeysKeepDiffering(s, actions[0]);
      StepKeepsInverse(s, actions[0]);
      CourteousRunKeepsInverse(Step(s, actions[0]), actions[1..], s');
    }
  }

  ghost predicate CourteouslyReachable(s: State) {
    exists s0, actions :: Init(s0) && CourteousRuns(s0, actions, s)
  }

  // With distinct outstanding ids the two maps stay inverse to each other, so a cancellation finds
  // exactly the registered request it names, and a settled server has three empty maps.
  lemma CancellationFindsItsRequest(s: State, n: RequestId)
    requires CourteouslyReachable(s) && n in s.issued
    ensures Inverse(s.fields)
    ensures n in s.fields.internal <==> Lookup(s.fields, s.issued[n]) == n
    ensures Settled(s) ==> s.fields == Fields(map[], map[], map[])
  {
    var s0, actions :| Init(s0) && CourteousRuns(s0, actions, s);
    assert Inv(s0);
    CourteousRunKeepsInverse(s0, actions, s);
    assert InOnePlace(s, n) && Agrees(s, n) && n != 0;
    CourteousRunsAreRuns(s0, actions, s);
    hide Inv, IdKey;
    assert Reachable(s);
    if Settled(s) {
      SettledMeansAnswered(s);
      assert s.fields.client == map[];
    }
  }

  lemma {:induction false} CourteousRunsAreRuns(s: State, actions: seq<Action>, s': State)
    requires CourteousRuns(s, actions, s')
    ensures Runs(s, actions, s')
    decreases |actions|
  {
    if actions != [] {
      CourteousRunsAreRuns(Step(s, actions[0]), actions[1..], s');
    }
  }

  // ----- Exactly when a cancellation finds its request -----

  // Every registered request is found under the id of its client.
  ghost predicate AllFound(f: Fields) {
    forall n :: n in f.internal ==> Lookup(f, f.internal[n]) == n
  }

  // So it is at every state of the run.
  ghost predicate FoundThroughout(s: State, actions: seq<Action>)
    decreases |actions|
  {
    && AllFound(s.fields)
    && (actions != [] ==> Enabled(s, actions[0]) && FoundThroughout(Step(s, actions[0]), actions[1..]))
  }

  ghost predicate FreeKeysThroughout(s: State, actions: seq<Action>)
    decreases |actions|
  {
    actions != [] ==>
      && Enabled(s, actions[0]) && KeyIsFree(s, actions[0])
      && FreeKeysThroughout(Step(s, actions[0]), actions[1..])
  }

  lemma InverseFindsAll(f: Fields)
    requires Inverse(f)
    ensures AllFound(f)
  {
    hide IdKey;
  }

  // Registering with a key in use loses the request that used it.
  lemma SharedKeyIsLost(s: State, a: Action)
    requires Inv(s) && Enabled(s, a) && !KeyIsFree(s, a)
    ensures !AllFound(Step(s, a).fields)
  {
    assert InOnePlace(s, a.n);
    var m :| m in s.fields.internal && IdKey(s.fields.internal[m]) == IdKey(s.issued[a.n]);
    var f := Step(s, a).fields;
    hide IdKey;
    assert m != a.n && m in f.internal && f.internal[m] == s.fields.internal[m];
    assert Lookup(f, f.internal[m]) == a.n;
  }

  // Over every run: each registered request is found at each state if and only if no request was ever
  // registered under the key of one that still was.
  lemma {:induction false} FoundExactlyWithFreeKeys(s: State, actions: seq<Action>, s': State)
    requires Inv(s) && Inverse(s.fields) && Runs(s, actions, s')
    ensures FoundThroughout(s, actions) <==> FreeKeysThroughout(s, actions)
    decreases |actions|
  {
    hide Inv, Inverse, AllFound, KeyIsFree, Step;
    InverseFindsAll(s.fields);
    if actions != [] {
      var a := actions[0];
      if KeyIsFree(s, a) {
        StepKeepsInv(s, a);
        FreeKeyKeepsInverse(s, a);
        FoundExactlyWithFreeKeys(Step(s, a), actions[1..], s');
      } else {
        SharedKeyIsLost(s, a);
      }
    }
  }

  // From the start of the server the condition needs no further assumption.
  lemma CancellationIsExact(s0: State, actions: seq<Action>, s: State)
    requires Init(s0) && Runs(s0, actions, s)
    ensures FoundThroughout(s0, actions) <==> FreeKeysThroughout(s0, actions)
  {
    assert Inv(s0) && Inverse(s0.fields);
    FoundExactlyWithFreeKeys(s0, actions, s);
  }

  // A client that follows the protocol: every id is an integer or a string and is not the id of a request
  // that is outstanding.
  ghost predicate FollowsProtocol(s: State, actions: seq<Action>)
    decreases |actions|
  {
    actions != [] ==>
      && Enabled(s, actions[0])
      && (actions[0].Issue? ==>
        IsProper(actions[0].id) && forall m :: Outstanding(s, m) ==> s.issued[m] != actions[0].id)
      && FollowsProtocol(Step(s, actions[0]), actions[1..])
  }

  lemma {:induction false} ProtocolIsCourteous(s: State, actions: seq<Action>, s': State)
    requires Runs(s, actions, s') && FollowsProtocol(s, actions)
    ensures CourteousRuns(s, actions, s')
    decreases |actions|
  {
    hide IdKey, Step;
    if actions != [] {
      var a := actions[0];
      if a.Issue? {
        DistinctIdsAreCourteous(s, a.n, a.id);
      }
      ProtocolIsCourteous(Step(s, a), actions[1..], s');
    }
  }

  lemma {:induction false} CourteousRunHasFreeKeys(s: State, actions: seq<Action>, s': State)
    requires Inv(s) && KeysDiffer(s) && CourteousRuns(s, actions, s')
    ensures FreeKeysThroughout(s, actions)
    decreases |actions|
  {
    hide Inv, KeysDiffer, Courteous, KeyIsFree, Step;
    if actions != [] {
      StepKeepsInv(s, actions[0]);
      KeysKeepDiffering(s, actions[0]);
      CourteousKeyIsFree(s, actions[0]);
      CourteousRunHasFreeKeys(Step(s, actions[0]), actions[1..], s');
    }
  }

  // With a client that follows the protocol every registered request is found at every state.
  lemma ProtocolMakesCancellationWork(s0: State, actions: seq<Action>, s: State)
    requires Init(s0) && Runs(s0, actions, s) && FollowsProtocol(s0, actions)
    ensures FoundThroughout(s0, actions) && CourteouslyReachable(s)
  {
    assert Inv(s0) && KeysDiffer(s0);
    ProtocolIsCourteous(s0, actions, s);
    CourteousRunHasFreeKeys(s0, actions, s);
    CancellationIsExact(s0, actions, s);
  }

  // Without it there are two ways to fail. Registering a request takes over the entry of the registered one
  // with the same key, and completing either of them erases the entry for both: then the other is the only
  // request registered and is not found.
  lemma SharedKeyFails(s0: State, a: Id, b: Id, o: Outcome) returns (taken: State, erased: State)
    requires Init(s0) && IdKey(a) == IdKey(b)
    ensures Runs(s0, [Issue(1, a), Register(1), Issue(2, b), Register(2)], taken)
    ensures Runs(taken, [Complete(2, o)], erased)
    ensures taken.fields.internal == map[1 := a, 2 := b] && Lookup(taken.fields, a) == 2
    ensures erased.fields.internal == map[1 := a] && Lookup(erased.fields, a) == 0
  {
    hide IdKey;
    var s1 := Step(s0, Issue(1, a));
    var s2 := Step(s1, Register(1));
    var s3 := Step(s2, Issue(2, b));
    taken := Step(s3, Register(2));
    erased := Step(taken, Complete(2, o));
    assert s1.issued == map[1 := a] && s1.unregistered == {1};
    assert s2.fields == Fields(map[IdKey(a) := 1], map[1 := a], map[]) && s2.unregistered == {};
    assert s3.unregistered == {2} && s3.unfinished == {1, 2};
    assert taken.fields == Fields(map[IdKey(a) := 2], map[1 := a, 2 := b], map[]) && taken.unfinished == {1, 2};
    assert erased.fields.internal == map[1 := a] && erased.fields.client == map[];
    StepExtendsRun(taken, Complete(2, o), [], erased);
    StepExtendsRun(s3, Register(2), [], taken);
    StepExtendsRun(s2, Issue(2, b), [Register(2)], taken);
    StepExtendsRun(s1, Register(1), [Issue(2, b), Register(2)], taken);
    StepExtendsRun(s0, Issue(1, a), [Register(1), Issue(2, b), Register(2)], taken);
    assert [Complete(2, o)] + [] == [Complete(2, o)] && [Action.Register(2)] + [] == [Register(2)];
    assert [Issue(2, b)] + [Register(2)] == [Issue(2, b), Register(2)];
    assert [Register(1)] + [Issue(2, b), Register(2)] == [Register(1), Issue(2, b), Register(2)];
    assert [Issue(1, a)] + [Register(1), Issue(2, b), Register(2)]
      == [Issue(1, a), Register(1), Issue(2, b), Register(2)];
  }
}
