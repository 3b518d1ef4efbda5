// The ABI-1 component loader: many threads call, close and release one module. A critical section is a function of the
// fields its mutex protects; a class runs the sections on real fields, a state machine interleaves them over threads.
module LoaderV1 {
  import opened Prelude
  import opened Exports

  datatype Status =
    | Ok
    | InvalidArgument
    | PlatformError
    | ExportNotFound
    | Closing
    | InvokeFailed
    | BufferTooSmall

  // The fields of chtholly_component_module_v1 that its mutex protects. A `None` descriptor is the null pointer.
  datatype Fields = Fields(
    library: bool,
    descriptor: Option<seq<Export>>,
    activeCalls: nat,
    closing: bool,
    closed: bool)
  {
    ghost predicate WellTyped() { activeCalls < WORD64 }
  }

  // ----- The critical sections -----

  datatype Admission = Rejected(status: Status) | Admitted(entry: nat) | NullDescriptor

  function AdmitCall(f: Fields, id: Digest): (r: (Fields, Admission))
    ensures f.WellTyped() ==> r.0.WellTyped()
  {
    if f.closing then (f, Rejected(Closing))
    else if f.descriptor.None? then (f, NullDescriptor)
    else
      match FirstMatch(f.descriptor.value, id)
      case None => (f, Rejected(ExportNotFound))
      case Some(k) => (f.(activeCalls := Inc64(f.activeCalls)), Admitted(k))
  }

  // The second result says whether the condition variable is notified.
  function FinishCall(f: Fields): (r: (Fields, bool))
    ensures f.WellTyped() ==> r.0.WellTyped()
  {
    var left := Dec64(f.activeCalls);
    (f.(activeCalls := left), left == 0)
  }

  datatype CloseStep = Sleep | Return(status: Status)

  // The part of close that follows a wake-up. `unloads` is the platform's answer to the unload request.
  function ResumeClose(f: Fields, unloads: bool): (r: (Fields, CloseStep))
    ensures f.WellTyped() ==> r.0.WellTyped()
  {
    if f.activeCalls != 0 then (f, Sleep)
    else if f.closed then (f, Return(Ok))
    else if f.library && !unloads then (f, Return(PlatformError))
    else (f.(library := false, descriptor := None, closed := true), Return(Ok))
  }

  function BeginClose(f: Fields, unloads: bool): (r: (Fields, CloseStep))
    ensures f.WellTyped() ==> r.0.WellTyped()
  {
    ResumeClose(f.(closing := true), unloads)
  }

  // Whether a close section sent an unload request that the platform granted.
  predicate Unloads(before: Fields, after: Fields) { before.library && !after.library }

  datatype Answer = Answered(status: Status, value: nat) | NullDereference

  function ExportCount(f: Fields): Answer {
    if f.closing then Answered(Closing, 0)
    else if f.descriptor.None? then NullDereference
    else Answered(Ok, |f.descriptor.value|)
  }

  // What is copied out of an export's entry.
  datatype Details = Details(flags: nat, exportId: Digest, signatureDigest: Digest, nameSize: nat)

  // The status, the details if they were written, and the name buffer afterwards.
  datatype Info = Informed(status: Status, details: Option<Details>, buffer: Option<seq<byte>>) | NullInfo

  // `buffer` is None when the caller passes no name buffer, otherwise its bytes before the call.
  function ExportInfo(f: Fields, index: nat, buffer: Option<seq<byte>>): Info {
    if f.closing then Informed(Closing, None, buffer)
    else if f.descriptor.None? then NullInfo
    else if index >= |f.descriptor.value| then Informed(ExportNotFound, None, buffer)
    else
      var entry := f.descriptor.value[index];
      var size := |NameOf(entry)|;
      var details := Some(Details(entry.flags, entry.exportId, entry.signatureDigest, size));
      if buffer.None? || |buffer.value| <= size then Informed(BufferTooSmall, details, buffer)
      else
        var copied := NameOf(entry) + buffer.value[size..];
        Informed(Ok, details, Some(copied[size := 0]))
  }

  // The C string in a buffer: the bytes before its first zero.
  function CString(buffer: seq<byte>): seq<byte> {
    if buffer == [] || buffer[0] == 0 then [] else [buffer[0]] + CString(buffer[1..])
  }

  lemma {:induction false} CStringOf(name: seq<byte>, rest: seq<byte>)
    ensures CString(name + [0] + rest) == name <==> 0 !in name
  {
    if name == [] {
      assert name + [0] + rest == [0] + rest;
    } else {
      assert (name + [0] + rest)[1..] == name[1..] + [0] + rest;
      CStringOf(name[1..], rest);
      assert name == [name[0]] + name[1..];
    }
  }

  predicate MayRelease(f: Fields) { f.closed && f.activeCalls == 0 }

  // ----- The module object -----

  class ComponentModule {
    var library: bool
    var descriptor: Option<seq<Export>>
    var activeCalls: nat
    var closing: bool
    var closed: bool

    function View(): Fields
      reads this
    {
      Fields(library, descriptor, activeCalls, closing, closed)
    }

    // A module that the loader has just handed out.
    constructor (exports: seq<Export>)
      ensures View() == Fields(true, Some(exports), 0, false, false)
    {
      library := true;
      descriptor := Some(exports);
      activeCalls := 0;
      closing := false;
      closed := false;
    }

    method Admit(id: Digest) returns (r: Admission)
      modifies this`activeCalls
      ensures (View(), r) == AdmitCall(old(View()), id)
    {
      if closing {
        return Rejected(Closing);
      }
      if descriptor.None? {
        return NullDescriptor;
      }
      var exports := descriptor.value;
      var index := 0;
      while index < |exports|
        invariant 0 <= index <= |exports|
        invariant forall k :: 0 <= k < index ==> exports[k].exportId != id
      {
        if exports[index].exportId == id {
          activeCalls := Inc64(activeCalls);
          return Admitted(index);
        }
        index := index + 1;
      }
      return Rejected(ExportNotFound);
    }

    method Finish() returns (notify: bool)
      modifies this`activeCalls
      ensures (View(), notify) == FinishCall(old(View()))
      ensures notify <==> activeCalls == 0
    {
      activeCalls := Dec64(activeCalls);
      notify := activeCalls == 0;
    }

    // The whole invocation, as one thread sees it that is alone with the module. `accepts` is the answer of the
    // export, and `called` the export that ran.
    method Invoke(id: Digest, accepts: bool) returns (status: Status, called: Option<nat>)
      requires activeCalls < WORD64 && (descriptor.None? ==> closing)
      modifies this`activeCalls
      ensures View() == old(View())
      ensures status == Closing <==> closing
      ensures status == ExportNotFound <==>
        !closing && forall k :: 0 <= k < |descriptor.value| ==> descriptor.value[k].exportId != id
      ensures status == Ok <==> called.Some? && accepts
      ensures status == InvokeFailed <==> called.Some? && !accepts
      ensures called.Some? ==>
        && !closing && called.value < |descriptor.value| && descriptor.value[called.value].exportId == id
        && forall k :: 0 <= k < called.value ==> descriptor.value[k].exportId != id
    {
      var admission := Admit(id);
      if admission.Rejected? {
        return admission.status, None;
      }
      var notify := Finish();
      return if accepts then Ok else InvokeFailed, Some(admission.entry);
    }

    method CloseLibrary(unloads: bool) returns (ok: bool)
      modifies this`library
      ensures ok == (!old(library) || unloads)
      ensures library == (old(library) && !ok)
    {
      ok := true;
      if library {
        ok := unloads;
      }
      if ok {
        library := false;
      }
    }

    method Resume(unloads: bool) returns (r: CloseStep)
      modifies this`library, this`descriptor, this`closed
      ensures (View(), r) == ResumeClose(old(View()), unloads)
    {
      if activeCalls != 0 {
        return Sleep;
      }
      if !closed {
        var ok := CloseLibrary(unloads);
        if !ok {
          return Return(PlatformError);
        }
        descriptor := None;
        closed := true;
      }
      return Return(Ok);
    }

    method Close(unloads: bool) returns (r: CloseStep)
      modifies this`closing, this`library, this`descriptor, this`closed
      ensures (View(), r) == BeginClose(old(View()), unloads)
    {
      closing := true;
      r := Resume(unloads);
    }
  }

  // ----- Interleavings -----

  type ThreadId = nat

  // What a thread asks the loader for.
  datatype Call =
    | ToInvoke(id: Digest)
    | ToClose
    | ToCount
    | ToInfo(index: nat, buffer: Option<seq<byte>>)
    | ToRelease

  // Where a thread stands. A thread that has entered the loader and not yet left the mutex again is Queued. A
  // call passes through Accepted, Inside and Leaving; a closer that waits is Asleep until a notification (or a
  // spurious wake-up) makes it Woken; a thread whose release was granted is Deleting until it deletes.
  datatype Place =
    | Idle
    | Queued(call: Call)
    | Accepted(entry: nat, id: Digest)
    | Inside(entry: nat, id: Digest)
    | Leaving
    | Asleep
    | Woken
    | Deleting
  {
    predicate InCall() { Accepted? || Inside? || Leaving? }
    predicate WaitsToClose() { Asleep? || Woken? }
  }

  // `unloadCount` counts granted unload requests; `fault` records a use of a null descriptor or of code
  // that is no longer loaded, `dangling` a use of the deleted module.
  datatype State = State(
    fields: Fields,
    exports: seq<Export>,
    places: map<ThreadId, Place>,
    unloadCount: nat,
    released: bool,
    fault: bool,
    dangling: bool)

  datatype Action =
    | Begin(t: ThreadId, call: Call)
    | Serve(t: ThreadId, unloads: bool)
    | Enter(t: ThreadId)
    | Leave(t: ThreadId)
    | Finish(t: ThreadId)
    | Wake(t: ThreadId)
    | Resume(t: ThreadId, unloads: bool)
    | Delete(t: ThreadId)

  ghost predicate Init(s: State) {
    && s.fields == Fields(true, Some(s.exports), 0, false, false)
    && (forall t :: t in s.places ==> s.places[t] == Idle)
    && |s.places| < WORD64
    && s.unloadCount == 0 && !s.released && !s.fault && !s.dangling
  }

  predicate Enabled(s: State, a: Action) {
    && a.t in s.places
    && match a
       case Begin(t, _) => s.places[t].Idle?
       case Serve(t, _) => s.places[t].Queued?
       case Enter(t) => s.places[t].Accepted?
       case Leave(t) => s.places[t].Inside?
       case Finish(t) => s.places[t].Leaving?
       case Wake(t) => s.places[t].Asleep?
       case Resume(t, _) => s.places[t].Woken?
       case Delete(t) => s.places[t].Deleting?
  }

  function At(s: State, t: ThreadId, p: Place): State { s.(places := s.places[t := p]) }

  function Notified(places: map<ThreadId, Place>): map<ThreadId, Place> {
    map t | t in places :: if places[t].Asleep? then Woken else places[t]
  }

  function AfterClose(s: State, t: ThreadId, r: (Fields, CloseStep)): State {
    At(s, t, if r.1.Sleep? then Asleep else Idle).(
      fields := r.0, unloadCount := s.unloadCount + if Unloads(s.fields, r.0) then 1 else 0)
  }

  function AfterAdmission(s: State, t: ThreadId, id: Digest): State {
    var (f, r) := AdmitCall(s.fields, id);
    match r
    case Admitted(k) => At(s, t, Accepted(k, id)).(fields := f)
    case Rejected(_) => At(s, t, Idle)
    case NullDescriptor => At(s, t, Idle).(fault := true)
  }

  // The section of the call that the thread has entered.
  function Section(s: State, t: ThreadId, call: Call, unloads: bool): State {
    match call
    case ToInvoke(id) => AfterAdmission(s, t, id)
    case ToClose => AfterClose(s, t, BeginClose(s.fields, unloads))
    case ToCount => At(s, t, Idle).(fault := s.fault || ExportCount(s.fields).NullDereference?)
    case ToInfo(index, buffer) =>
      At(s, t, Idle).(fault := s.fault || ExportInfo(s.fields, index, buffer).NullInfo?)
    case ToRelease => At(s, t, if MayRelease(s.fields) then Deleting else Idle)
  }

  function LiveStep(s: State, a: Action): State
    requires Enabled(s, a)
  {
    match a
    case Begin(t, call) => At(s, t, Queued(call))
    case Serve(t, unloads) => Section(s, t, s.places[t].call, unloads)
    case Enter(t) =>
      At(s, t, Inside(s.places[t].entry, s.places[t].id)).(fault := s.fault || !s.fields.library)
    case Leave(t) => At(s, t, Leaving).(fault := s.fault || !s.fields.library)
    case Finish(t) =>
      var (f, notify) := FinishCall(s.fields);
      var places := s.places[t := Idle];
      s.(fields := f, places := if notify then Notified(places) else places)
    case Wake(t) => At(s, t, Woken)
    case Resume(t, unloads) => AfterClose(s, t, ResumeClose(s.fields, unloads))
    case Delete(t) => At(s, t, Idle).(released := true)
  }

  // A step of a thread on a deleted module uses freed memory, and nothing more is said about what it does.
  function Step(s: State, a: Action): State
    requires Enabled(s, a)
  {
    if s.released then s.(dangling := true) else LiveStep(s, a)
  }

  ghost predicate Runs(s: State, actions: seq<Action>, s': State)
    decreases |actions|
  {
    if actions == [] then s' == s
    else Enabled(s, actions[0]) && Runs(Step(s, actions[0]), actions[1..], s')
  }

  ghost function CallsInFlight(s: State): set<ThreadId> {
    set t | t in s.places && s.places[t].InCall()
  }

  // ----- The inductive invariant -----

  ghost predicate PlacesAgree(s: State) {
    forall t :: t in s.places ==>
      match s.places[t]
      case Accepted(k, id) => k < |s.exports| && s.exports[k].exportId == id
      case Inside(k, id) => k < |s.exports| && s.exports[k].exportId == id
      case Asleep => s.fields.closing && s.fields.activeCalls > 0
      case Woken => s.fields.closing
      case Deleting => s.fields.closed
      case _ => true
  }

  ghost predicate FieldsAgree(f: Fields, exports: seq<Export>) {
    && f.WellTyped()
    && f.library == !f.closed
    && f.descriptor == (if f.closed then None else Some(exports))
    && (f.closed ==> f.closing && f.activeCalls == 0)
  }

  ghost predicate Inv(s: State) {
    && |s.places| < WORD64
    && FieldsAgree(s.fields, s.exports)
    && s.fields.activeCalls == |CallsInFlight(s)|
    && PlacesAgree(s)
    && s.unloadCount == (if s.fields.closed then 1 else 0)
    && (s.released ==> s.fields.closed)
    && !s.fault
  }

  lemma CallsBounded(s: State)
    requires |s.places| < WORD64
    ensures |CallsInFlight(s)| <= |s.places.Keys| < WORD64
  {
    SubsetCardinality(CallsInFlight(s), s.places.Keys);
    assert |s.places.Keys| == |s.places|;
  }

  lemma SamePlacesCount(places: map<ThreadId, Place>, t: ThreadId, p: Place)
    requires t in places
    ensures |places[t := p]| == |places|
  {
    assert places[t := p].Keys == places.Keys;
    assert |places[t := p].Keys| == |places[t := p]|;
    assert |places.Keys| == |places|;
  }

  // Moving one thread between two places outside a call.
  lemma MovedAside(s: State, t: ThreadId, s': State)
    requires t in s.places && t in s'.places && s'.places == s.places[t := s'.places[t]]
    requires s.places[t].InCall() <==> s'.places[t].InCall()
    ensures CallsInFlight(s') == CallsInFlight(s) && |s'.places| == |s.places|
  {
    SamePlacesCount(s.places, t, s'.places[t]);
  }

  lemma AdmissionKeepsInv(s: State, t: ThreadId, id: Digest)
    requires Inv(s) && t in s.places && !s.places[t].InCall()
    ensures Inv(AfterAdmission(s, t, id))
  {
    var s' := AfterAdmission(s, t, id);
    var (f, r) := AdmitCall(s.fields, id);
    if r.Admitted? {
      SamePlacesCount(s.places, t, Accepted(r.entry, id));
      assert CallsInFlight(s') == CallsInFlight(s) + {t};
      CallsBounded(s');
    } else {
      MovedAside(s, t, s');
    }
  }

  lemma FinishKeepsInv(s: State, a: Action)
    requires Inv(s) && Enabled(s, a) && a.Finish?
    ensures Inv(LiveStep(s, a))
    ensures CallsInFlight(LiveStep(s, a)) == CallsInFlight(s) - {a.t} && a.t in CallsInFlight(s)
  {
    var s' := LiveStep(s, a);
    assert a.t in CallsInFlight(s);
    SamePlacesCount(s.places, a.t, Idle);
    var places := s.places[a.t := Idle];
    assert Notified(places).Keys == places.Keys;
    assert |Notified(places).Keys| == |Notified(places)| && |places.Keys| == |places|;
    assert CallsInFlight(s') == CallsInFlight(s) - {a.t};
  }

  lemma CloseKeepsInv(s: State, t: ThreadId, unloads: bool)
    requires Inv(s) && t in s.places && !s.places[t].InCall()
    ensures Inv(AfterClose(s, t, BeginClose(s.fields, unloads)))
    ensures s.fields.closing ==> Inv(AfterClose(s, t, ResumeClose(s.fields, unloads)))
  {
    MovedAside(s, t, AfterClose(s, t, BeginClose(s.fields, unloads)));
    MovedAside(s, t, AfterClose(s, t, ResumeClose(s.fields, unloads)));
  }

  lemma MoveKeepsInv(s: State, a: Action)
    requires Inv(s) && Enabled(s, a) && (a.Begin? || a.Enter? || a.Leave? || a.Wake? || a.Delete?)
    ensures Inv(LiveStep(s, a)) && CallsInFlight(LiveStep(s, a)) == CallsInFlight(s)
  {
    MovedAside(s, a.t, LiveStep(s, a));
    assert a.Enter? || a.Leave? ==> a.t in CallsInFlight(s);
  }

  lemma SectionKeepsInv(s: State, t: ThreadId, call: Call, unloads: bool)
    requires Inv(s) && t in s.places && s.places[t] == Queued(call)
    ensures Inv(Section(s, t, call, unloads))
  {
    match call {
      case ToInvoke(id) => AdmissionKeepsInv(s, t, id);
      case ToClose => CloseKeepsInv(s, t, unloads);
      case _ => MovedAside(s, t, Section(s, t, call, unloads));
    }
  }

  lemma StepKeepsInv(s: State, a: Action)
    requires Inv(s) && Enabled(s, a)
    ensures Inv(Step(s, a))
  {
    if s.released {
      assert CallsInFlight(Step(s, a)) == CallsInFlight(s);
    } else {
      hide FieldsAgree, Section, AfterClose;
      match a {
        case Serve(t, unloads) => SectionKeepsInv(s, t, s.places[t].call, unloads);
        case Finish(_) => FinishKeepsInv(s, a);
        case Resume(t, unloads) => CloseKeepsInv(s, t, unloads);
        case _ => MoveKeepsInv(s, a);
      }
    }
  }

  lemma {:induction false} RunKeepsInv(s: State, actions: seq<Action>, s': State)
    requires Inv(s) && Runs(s, actions, s')
    ensures Inv(s')
    decreases |actions|
  {
    if actions != [] {
      StepKeepsInv(s, actions[0]);
      RunKeepsInv(Step(s, actions[0]), actions[1..], s');
    }
  }

  // ----- What holds in every run -----

  ghost predicate Reachable(s: State) {
    exists s0, actions :: Init(s0) && Runs(s0, actions, s)
  }

  lemma ReachableStatesKeepInv(s: State)
    requires Reachable(s)
    ensures Inv(s)
  {
    var s0, actions :| Init(s0) && Runs(s0, actions, s);
    assert CallsInFlight(s0) == {};
    RunKeepsInv(s0, actions, s);
  }

  // Call accounting, lifetime of the loaded code, single unload, no use of a null descriptor.
  lemma EveryRunIsSafe(s0: State, actions: seq<Action>, s: State)
    requires Init(s0) && Runs(s0, actions, s)
    ensures s.fields.activeCalls == |CallsInFlight(s)|
    ensures forall t :: t in CallsInFlight(s) ==>
      s.fields.library && s.fields.descriptor == Some(s0.exports)
    ensures forall t :: t in s.places && s.places[t].Inside? ==>
      s.places[t].entry < |s0.exports| && s0.exports[s.places[t].entry].exportId == s.places[t].id
    ensures s.unloadCount <= 1 && (s.unloadCount == 1 <==> !s.fields.library)
    ensures !s.fault
  {
    assert CallsInFlight(s0) == {};
    RunKeepsInv(s0, actions, s);
    ExportsAreFixed(s0, actions, s);
    forall t | t in CallsInFlight(s)
      ensures s.fields.library
    {
      assert CallsInFlight(s) != {};
    }
  }

  lemma StepKeepsThreads(s: State, a: Action)
    requires Enabled(s, a)
    ensures Step(s, a).exports == s.exports && Step(s, a).places.Keys == s.places.Keys
  {
    hide AdmitCall, FinishCall, ResumeClose, BeginClose, ExportCount, ExportInfo;
  }

  lemma {:induction false} ExportsAreFixed(s: State, actions: seq<Action>, s': State)
    requires Runs(s, actions, s')
    ensures s'.exports == s.exports && s'.places.Keys == s.places.Keys
    decreases |actions|
  {
    if actions != [] {
      StepKeepsThreads(s, actions[0]);
      ExportsAreFixed(Step(s, actions[0]), actions[1..], s');
    }
  }

  // A closer that sleeps without a pending notification always has a call to wait for, and the section that ends
  // a call wakes it exactly when no other call is left.
  lemma NoLostWakeup(s: State, t: ThreadId)
    requires Reachable(s) && !s.released && t in s.places && s.places[t].Asleep?
    ensures CallsInFlight(s) != {}
    ensures forall u: ThreadId :: Enabled(s, Finish(u)) ==>
      Step(s, Finish(u)).places[t] == if CallsInFlight(s) == {u} then Woken else Asleep
  {
    ReachableStatesKeepInv(s);
    assert |CallsInFlight(s)| > 0;
    forall u: ThreadId | Enabled(s, Finish(u))
      ensures Step(s, Finish(u)).places[t] == if CallsInFlight(s) == {u} then Woken else Asleep
    {
      var calls := CallsInFlight(s);
      assert u in calls && |calls - {u}| == |calls| - 1;
      assert calls == {u} <==> calls - {u} == {};
    }
  }

  function Finishes(actions: seq<Action>): nat {
    if actions == [] then 0
    else (if actions[0].Finish? then 1 else 0) + Finishes(actions[1..])
  }

  lemma SectionWhileClosing(s: State, t: ThreadId, call: Call, unloads: bool)
    requires Inv(s) && s.fields.closing && t in s.places && s.places[t] == Queued(call)
    ensures Section(s, t, call, unloads).fields.closing
    ensures CallsInFlight(Section(s, t, call, unloads)) == CallsInFlight(s)
  {
    hide PlacesAgree, FieldsAgree, CallsInFlight;
    var s' := Section(s, t, call, unloads);
    match call {
      case ToInvoke(id) => AdmissionWhileClosing(s, t, id);
      case _ => MovedAside(s, t, s');
    }
  }

  lemma AdmissionWhileClosing(s: State, t: ThreadId, id: Digest)
    requires s.fields.closing && t in s.places && !s.places[t].InCall()
    ensures AfterAdmission(s, t, id) == At(s, t, Idle)
    ensures CallsInFlight(At(s, t, Idle)) == CallsInFlight(s)
  {
    MovedAside(s, t, At(s, t, Idle));
  }

  // A module that is not yet deleted, closing and making progress.
  lemma StepWhileClosing(s: State, a: Action)
    requires Inv(s) && s.fields.closing && Enabled(s, a) && !s.released
    ensures Inv(Step(s, a)) && Step(s, a).fields.closing
    ensures CallsInFlight(Step(s, a)) == CallsInFlight(s) - (if a.Finish? then {a.t} else {})
    ensures a.Finish? ==> a.t in CallsInFlight(s)
  {
    hide PlacesAgree, FieldsAgree, Section, CallsInFlight;
    StepKeepsInv(s, a);
    match a {
      case Serve(t, unloads) => SectionWhileClosing(s, t, s.places[t].call, unloads);
      case Finish(_) => FinishKeepsInv(s, a);
      case Resume(t, _) => MovedAside(s, t, Step(s, a));
      case _ => MoveKeepsInv(s, a);
    }
  }

  lemma NothingAfterDelete(s: State, a: Action)
    requires Inv(s) && s.released && Enabled(s, a)
    ensures Inv(Step(s, a)) && Step(s, a) == s.(dangling := true) && CallsInFlight(Step(s, a)) == {}
    ensures CallsInFlight(s) == {} && !a.Finish?
  {
    hide PlacesAgree;
    assert |CallsInFlight(s)| == 0;
    assert a.Finish? ==> a.t in CallsInFlight(s);
    assert CallsInFlight(Step(s, a)) == CallsInFlight(s);
    StepKeepsInv(s, a);
  }

  // Once closing is set it stays set and every finished call is gone for good: the calls in flight plus
  // the calls finished since then are a constant, so no call was admitted.
  lemma {:induction false} ClosingDrains(s: State, actions: seq<Action>, s': State)
    requires Inv(s) && s.fields.closing && Runs(s, actions, s')
    ensures s'.fields.closing
    ensures CallsInFlight(s') <= CallsInFlight(s)
    ensures |CallsInFlight(s')| + Finishes(actions) == |CallsInFlight(s)|
    decreases |actions|
  {
    if actions != [] {
      var a := actions[0];
      if s.released {
        NothingAfterDelete(s, a);
      } else {
        StepWhileClosing(s, a);
      }
      ClosingDrains(Step(s, a), actions[1..], s');
    }
  }

  lemma ClosedStays(s: State, a: Action)
    requires Inv(s) && s.fields.closed && Enabled(s, a)
    ensures Step(s, a).fields == s.fields && Step(s, a).unloadCount == s.unloadCount
  {
    assert |CallsInFlight(s)| == 0;
    assert a.Finish? ==> a.t in CallsInFlight(s);
  }

  // Closed is terminal: nothing that a thread can still do changes a field or unloads again.
  lemma {:induction false} ClosedIsTerminal(s: State, actions: seq<Action>, s': State)
    requires Inv(s) && s.fields.closed && Runs(s, actions, s')
    ensures s'.fields == s.fields && s'.unloadCount == s.unloadCount
    ensures CallsInFlight(s') == {}
    decreases |actions|
  {
    assert |CallsInFlight(s)| == 0;
    if actions != [] {
      var a := actions[0];
      if s.released {
        NothingAfterDelete(s, a);
      } else {
        StepWhileClosing(s, a);
        ClosedStays(s, a);
      }
      ClosedIsTerminal(Step(s, a), actions[1..], s');
    }
  }

  // What the end of a close section means, in both directions.
  lemma CloseResult(s: State, unloads: bool)
    requires Reachable(s)
    ensures var (f, r) := BeginClose(s.fields, unloads);
      && (r == Return(Ok) <==> f.closed)
      && (r == Sleep <==> CallsInFlight(s) != {})
      && (r == Return(PlatformError) <==> CallsInFlight(s) == {} && !s.fields.closed && !unloads)
      && (r == Return(PlatformError) ==> f == s.fields.(closing := true))
  {
    ReachableStatesKeepInv(s);
    assert |CallsInFlight(s)| == 0 <==> CallsInFlight(s) == {};
  }

  // An invocation is turned away exactly when the module is closing, or when no export has the id; otherwise the
  // first one that has it is entered, and one more call counted.
  lemma AdmissionResult(s: State, t: ThreadId, id: Digest)
    requires Reachable(s) && t in s.places && s.places[t] == Queued(ToInvoke(id))
    ensures var (f, r) := AdmitCall(s.fields, id);
      && (r == Rejected(Closing) <==> s.fields.closing)
      && (r == Rejected(ExportNotFound) <==>
            !s.fields.closing && forall k :: 0 <= k < |s.exports| ==> s.exports[k].exportId != id)
      && (r.Rejected? ==>
            (r.status == Closing || r.status == ExportNotFound) && AfterAdmission(s, t, id) == At(s, t, Idle))
      && !r.NullDescriptor?
      && (r.Admitted? ==>
            && r.entry < |s.exports| && s.exports[r.entry].exportId == id
            && (forall k :: 0 <= k < r.entry ==> s.exports[k].exportId != id)
            && AfterAdmission(s, t, id) == At(s, t, Accepted(r.entry, id)).(
                 fields := s.fields.(activeCalls := |CallsInFlight(s)| + 1)))
  {
    hide Reachable, PlacesAgree;
    ReachableStatesKeepInv(s);
    OutsiderLeavesRoom(s, t);
  }

  lemma OutsiderLeavesRoom(s: State, t: ThreadId)
    requires t in s.places && !s.places[t].InCall() && |s.places| < WORD64
    ensures |CallsInFlight(s)| + 1 < WORD64
  {
    SubsetCardinality(CallsInFlight(s) + {t}, s.places.Keys);
    assert |s.places.Keys| == |s.places|;
  }

  // Introspection answers from the loaded descriptor until closing is set: the number of exports, and for
  // an index that export's flags, id, signature and name size. With a buffer one byte larger than the name
  // the name arrives, zero-terminated, and no other byte of the buffer changes; the string a C caller reads
  // there is the name exactly when the name holds no zero byte.
  lemma IntrospectionResult(s: State, index: nat, buffer: Option<seq<byte>>)
    requires Reachable(s)
    ensures s.fields.closing ==>
      && ExportCount(s.fields) == Answered(Closing, 0)
      && ExportInfo(s.fields, index, buffer) == Informed(Closing, None, buffer)
    ensures !s.fields.closing ==> ExportCount(s.fields) == Answered(Ok, |s.exports|)
    ensures !s.fields.closing ==>
      var r := ExportInfo(s.fields, index, buffer);
      && r.Informed? && (r.status == ExportNotFound <==> index >= |s.exports|)
      && (r.status == ExportNotFound ==> r.details.None?) && (r.status != Ok ==> r.buffer == buffer)
      && (index < |s.exports| ==>
        var e, size := s.exports[index], |NameOf(s.exports[index])|;
        && r.details == Some(Details(e.flags, e.exportId, e.signatureDigest, size))
        && (r.status == Ok <==> buffer.Some? && size + 1 <= |buffer.value|)
        && (r.status == BufferTooSmall <==> r.status != Ok)
        && (r.status == Ok ==>
          && r.buffer == Some(NameOf(e) + [0] + buffer.value[size + 1..])
          && (CString(r.buffer.value) == NameOf(e) <==> 0 !in NameOf(e))))
  {
    ReachableStatesKeepInv(s);
    if !s.fields.closing && index < |s.exports| && buffer.Some? && |NameOf(s.exports[index])| < |buffer.value| {
      var name := NameOf(s.exports[index]);
      CStringOf(name, buffer.value[|name| + 1..]);
      assert (name + buffer.value[|name|..])[|name| := 0] == name + [0] + buffer.value[|name| + 1..];
    }
  }

  // Release is granted exactly on a closed module, and then no call is in flight and no closer is asleep.
  lemma ReleaseExactlyWhenClosed(s: State, t: ThreadId, unloads: bool)
    requires Reachable(s) && !s.released && t in s.places && s.places[t] == Queued(ToRelease)
    ensures Step(s, Serve(t, unloads)).places[t] == if s.fields.closed then Deleting else Idle
    ensures s.fields.closed ==>
      && !s.fields.library && s.unloadCount == 1
      && forall u :: u in s.places ==> !s.places[u].InCall() && !s.places[u].Asleep?
  {
    ReachableStatesKeepInv(s);
    if s.fields.closed {
      NobodyInsideClosed(s);
    }
  }

  lemma NobodyInsideClosed(s: State)
    requires Inv(s) && s.fields.closed
    ensures forall u :: u in s.places ==> !s.places[u].InCall() && !s.places[u].Asleep?
  {
    assert |CallsInFlight(s)| == 0;
    forall u | u in s.places
      ensures !s.places[u].InCall() && !s.places[u].Asleep?
    {
      assert u !in CallsInFlight(s);
    }
  }

  lemma {:induction false} RunsConcat(s: State, first: seq<Action>, s': State, second: seq<Action>, s'': State)
    requires Runs(s, first, s') && Runs(s', second, s'')
    ensures Runs(s, first + second, s'')
    decreases |first|
  {
    hide Step, Enabled;
    if first == [] {
      assert first + second == second;
    } else {
      RunsConcat(Step(s, first[0]), first[1..], s', second, s'');
      assert (first + second)[0] == first[0];
      assert (first + second)[1..] == first[1..] + second;
    }
  }

  // How many of its own steps a call has behind it.
  function Progress(p: Place): nat {
    match p
    case Inside(_, _) => 1
    case Leaving => 2
    case _ => 0
  }

  function OwnStep(p: Place, u: ThreadId): Action {
    if p.Accepted? then Enter(u) else if p.Inside? then Leave(u) else Finish(u)
  }

  lemma CallProgresses(s: State, u: ThreadId)
    requires Inv(s) && !s.released && u in CallsInFlight(s)
    ensures var a := OwnStep(s.places[u], u);
      && Enabled(s, a)
      && var s' := Step(s, a);
      && Inv(s') && !s'.released && s'.fields.closing == s.fields.closing
      && (if a.Finish? then CallsInFlight(s') == CallsInFlight(s) - {u}
          else CallsInFlight(s') == CallsInFlight(s) && Progress(s'.places[u]) == Progress(s.places[u]) + 1)
      && (forall t :: t in s.places && s.places[t].WaitsToClose() ==>
            t in s'.places && s'.places[t].WaitsToClose())
  {
    var a := OwnStep(s.places[u], u);
    if a.Finish? {
      FinishKeepsInv(s, a);
    } else {
      MoveKeepsInv(s, a);
    }
  }

  // Finishing one call in flight takes at most three steps of its thread.
  lemma FinishOneCall(s: State, u: ThreadId) returns (actions: seq<Action>, s': State)
    requires Inv(s) && !s.released && u in CallsInFlight(s)
    ensures Runs(s, actions, s') && |actions| <= 3 - Progress(s.places[u]) && Inv(s') && !s'.released
    ensures CallsInFlight(s') == CallsInFlight(s) - {u}
    ensures s'.fields.closing == s.fields.closing
    ensures forall t :: t in s.places && s.places[t].WaitsToClose() ==>
      t in s'.places && s'.places[t].WaitsToClose()
    decreases 3 - Progress(s.places[u])
  {
    hide Inv, Step;
    CallProgresses(s, u);
    var a := OwnStep(s.places[u], u);
    var next := Step(s, a);
    if a.Finish? {
      assert Runs(next, [], next);
      actions, s' := [a], next;
    } else {
      var rest, end := FinishOneCall(next, u);
      actions, s' := [a] + rest, end;
      assert actions[1..] == rest;
    }
  }

  lemma ScheduleWaitingCloser(s: State, t: ThreadId) returns (actions: seq<Action>, s': State)
    requires Inv(s) && !s.released && t in s.places && s.places[t].WaitsToClose()
    ensures Runs(s, actions, s') && s'.fields.closed
    ensures t in s'.places && s'.places[t].Idle?
    ensures |actions| <= 3 * |CallsInFlight(s)| + 1
    decreases |CallsInFlight(s)|
  {
    if CallsInFlight(s) == {} {
      assert |CallsInFlight(s)| == 0;
      assert s.places[t].Woken?;
      var a := Action.Resume(t, true);
      s' := Step(s, a);
      actions := [a];
      assert Runs(s', [], s');
    } else {
      var u :| u in CallsInFlight(s);
      var first, middle := FinishOneCall(s, u);
      var rest, end := ScheduleWaitingCloser(middle, t);
      RunsConcat(s, first, middle, rest, end);
      actions, s' := first + rest, end;
    }
  }

  // A waiting closer is never stuck: from every reachable state some schedule of the calls in flight and
  // of the closer itself, of bounded length, unloads the library.
  lemma WaitingCloserCanFinish(s: State, t: ThreadId)
    requires Reachable(s) && !s.released && t in s.places && s.places[t] in {Asleep, Woken}
    ensures exists actions, s' ::
      Runs(s, actions, s') && s'.fields.closed && |actions| <= 3 * |CallsInFlight(s)| + 1
  {
    ReachableStatesKeepInv(s);
    var actions, s' := ScheduleWaitingCloser(s, t);
  }

  // A refused unload leaves the module as it was, and a later close may still succeed.
  lemma FailedUnloadCanBeRetried(s: State, t: ThreadId, u: ThreadId)
    requires Reachable(s) && !s.released && !s.fields.closed && CallsInFlight(s) == {}
    requires t in s.places && s.places[t] == Queued(ToClose) && u in s.places && s.places[u].Idle?
    ensures var failed := Step(s, Serve(t, false));
      && failed.fields == s.fields.(closing := true) && failed.unloadCount == 0 && Enabled(failed, Begin(u, ToClose))
      && var again := Step(failed, Begin(u, ToClose));
      && Enabled(again, Serve(u, true))
      && Step(again, Serve(u, true)).fields.closed && Step(again, Serve(u, true)).unloadCount == 1
  {
    ReachableStatesKeepInv(s);
    assert |CallsInFlight(s)| == 0;
  }

  // ----- When deleting the module is safe -----

  // The clients begin no new call; threads inside the loader go on.
  ghost predicate NoNewCalls(actions: seq<Action>) {
    forall i :: 0 <= i < |actions| ==> !actions[i].Begin?
  }

  // Some continuation of the threads that are inside the loader uses the deleted module.
  ghost predicate CanDangle(s: State) {
    exists actions, s' :: Runs(s, actions, s') && NoNewCalls(actions) && s'.dangling
  }

  ghost predicate Alone(s: State, t: ThreadId) {
    forall u :: u in s.places && u != t ==> s.places[u].Idle?
  }

  lemma DeletedWithOthersDangles(s: State, u: ThreadId)
    requires s.released && u in s.places && !s.places[u].Idle?
    ensures CanDangle(s)
  {
    var a :=
      match s.places[u]
      case Queued(_) => Serve(u, false)
      case Accepted(_, _) => Enter(u)
      case Inside(_, _) => Leave(u)
      case Leaving => Finish(u)
      case Asleep => Wake(u)
      case Woken => Action.Resume(u, false)
      case _ => Delete(u);
    var s' := Step(s, a);
    assert Runs(s', [], s');
    assert [a][1..] == [];
    assert Runs(s, [a], s');
  }

  lemma {:induction false} IdleThreadsDoNothing(s: State, actions: seq<Action>, s': State)
    requires Runs(s, actions, s') && NoNewCalls(actions) && forall u :: u in s.places ==> s.places[u].Idle?
    ensures s' == s
  {
  }

  // A thread whose release was granted can safely delete the module if and only if nobody else is inside the
  // loader: no caller waits for the mutex, no woken closer has still to take it again, and no other release was
  // granted. There can be nobody else: a closed module has no call in flight and no closer asleep.
  lemma DeleteIsSafeExactlyAlone(s: State, t: ThreadId)
    requires Reachable(s) && Enabled(s, Delete(t)) && !s.released && !s.dangling
    ensures Alone(s, t) <==>
      forall u :: u in s.places && u != t ==>
        !s.places[u].Queued? && !s.places[u].Woken? && !s.places[u].Deleting?
    ensures CanDangle(Step(s, Delete(t))) <==> !Alone(s, t)
  {
    ReachableStatesKeepInv(s);
    NobodyInsideClosed(s);
    var deleted := Step(s, Delete(t));
    if !Alone(s, t) {
      var u :| u in s.places && u != t && !s.places[u].Idle?;
      DeletedWithOthersDangles(deleted, u);
    } else if CanDangle(deleted) {
      var actions, s' :| Runs(deleted, actions, s') && NoNewCalls(actions) && s'.dangling;
      IdleThreadsDoNothing(deleted, actions, s');
    }
  }

  lemma StepExtendsRun(s: State, a: Action, actions: seq<Action>, s': State)
    requires Enabled(s, a) && Runs(Step(s, a), actions, s')
    ensures Runs(s, [a] + actions, s')
  {
    assert ([a] + actions)[1..] == actions;
  }

  lemma TwoSteps(s: State, a: Action, b: Action) returns (s': State)
    requires Enabled(s, a) && Enabled(Step(s, a), b)
    ensures s' == Step(Step(s, a), b) && Runs(s, [a, b], s')
  {
    hide Step, Enabled;
    s' := Step(Step(s, a), b);
    assert Runs(s', [], s');
    StepExtendsRun(Step(s, a), b, [], s');
    StepExtendsRun(s, a, [b], s');
  }

  lemma CallIsAdmitted(s: State, c: ThreadId, id: Digest) returns (s': State)
    requires c in s.places && s.places[c].Idle? && !s.released && !s.fields.closing
    requires s.fields.descriptor.Some? && FirstMatch(s.fields.descriptor.value, id).Some?
    ensures Runs(s, [Begin(c, ToInvoke(id)), Serve(c, false)], s')
    ensures c in s'.places && s'.places[c].Accepted?
    ensures s' == At(s, c, s'.places[c]).(fields := s.fields.(activeCalls := Inc64(s.fields.activeCalls)))
  {
    assert s.places[c := Queued(ToInvoke(id))][c := Idle] == s.places[c := Idle];
    s' := TwoSteps(s, Begin(c, ToInvoke(id)), Serve(c, false));
    assert s'.places == s.places[c := s'.places[c]];
  }

  lemma CloserSleeps(s: State, t: ThreadId) returns (s': State)
    requires t in s.places && s.places[t].Idle? && !s.released && s.fields.activeCalls > 0
    ensures Runs(s, [Begin(t, ToClose), Serve(t, false)], s')
    ensures s' == At(s, t, Asleep).(fields := s.fields.(closing := true))
  {
    s' := TwoSteps(s, Begin(t, ToClose), Serve(t, false));
    assert s'.places == s.places[t := Asleep];
  }

  lemma LastCallEnds(s: State, c: ThreadId) returns (s': State)
    requires c in s.places && s.places[c].Accepted? && !s.released && s.fields.library && s.fields.activeCalls == 1
    ensures Runs(s, [Enter(c), Leave(c), Finish(c)], s')
    ensures s' == s.(fields := s.fields.(activeCalls := 0), places := Notified(s.places[c := Idle]))
  {
    var inside := Step(s, Enter(c));
    s' := TwoSteps(inside, Leave(c), Finish(c));
    assert s'.places == Notified(s.places[c := Idle]) by {
      assert inside.places[c := Leaving][c := Idle] == s.places[c := Idle];
    }
    StepExtendsRun(s, Enter(c), [Leave(c), Finish(c)], s');
  }

  // Two closers wait for one call, and its end wakes both.
  lemma TwoClosersWoken(s0: State, c: ThreadId, t: ThreadId, u: ThreadId, id: Digest)
    returns (actions: seq<Action>, s: State)
    requires Init(s0) && FirstMatch(s0.exports, id).Some?
    requires c in s0.places && t in s0.places && u in s0.places && c != t && c != u && t != u
    ensures Runs(s0, actions, s) && !s.released
    ensures s.fields == Fields(true, Some(s0.exports), 0, true, false)
    ensures t in s.places && u in s.places && s.places[t].Woken? && s.places[u].Woken?
  {
    var s1 := CallIsAdmitted(s0, c, id);
    var s2 := CloserSleeps(s1, t);
    var s3 := CloserSleeps(s2, u);
    s := LastCallEnds(s3, c);
    hide Runs, Enabled, Step;
    var first := [Begin(c, ToInvoke(id)), Serve(c, false)] + [Begin(t, ToClose), Serve(t, false)];
    RunsConcat(s0, [Begin(c, ToInvoke(id)), Serve(c, false)], s1, [Begin(t, ToClose), Serve(t, false)], s2);
    RunsConcat(s0, first, s2, [Begin(u, ToClose), Serve(u, false)], s3);
    RunsConcat(s0, first + [Begin(u, ToClose), Serve(u, false)], s3, [Enter(c), Leave(c), Finish(c)], s);
    actions := first + [Begin(u, ToClose), Serve(u, false)] + [Enter(c), Leave(c), Finish(c)];
  }

  // One of them closes the module and releases it; the other has still to take the mutex again.
  lemma WokenCloserMeetsDelete(s: State, t: ThreadId, u: ThreadId) returns (s': State)
    requires !s.released && s.fields.closing && !s.fields.closed && s.fields.activeCalls == 0
    requires t in s.places && s.places[t].Woken? && u in s.places && s.places[u].Woken? && t != u
    ensures s'.dangling && Runs(
      s, [Action.Resume(t, true), Begin(t, ToRelease), Serve(t, false), Delete(t), Action.Resume(u, true)], s')
  {
    var closed := Step(s, Action.Resume(t, true));
    assert closed.fields.closed && closed.fields.activeCalls == 0;
    hide ResumeClose;
    var asked := Step(closed, Begin(t, ToRelease));
    var granted := Step(asked, Serve(t, false));
    var deleted := Step(granted, Delete(t));
    s' := Step(deleted, Action.Resume(u, true));
    assert Runs(s', [], s');
    StepExtendsRun(deleted, Action.Resume(u, true), [], s');
    StepExtendsRun(granted, Delete(t), [Action.Resume(u, true)], s');
    StepExtendsRun(asked, Serve(t, false), [Delete(t), Action.Resume(u, true)], s');
    StepExtendsRun(closed, Begin(t, ToRelease), [Serve(t, false), Delete(t), Action.Resume(u, true)], s');
    StepExtendsRun(s, Action.Resume(t, true),
                   [Begin(t, ToRelease), Serve(t, false), Delete(t), Action.Resume(u, true)], s');
  }

  // From the start: a module can be deleted under a closer that only waits for the calls to end.
  lemma ReleaseCanRaceWithCloser(s0: State, c: ThreadId, t: ThreadId, u: ThreadId, id: Digest)
    returns (actions: seq<Action>, s: State)
    requires Init(s0) && FirstMatch(s0.exports, id).Some?
    requires c in s0.places && t in s0.places && u in s0.places && c != t && c != u && t != u
    ensures Runs(s0, actions, s) && s.dangling
  {
    hide Step, Enabled;
    var first, woken := TwoClosersWoken(s0, c, t, u, id);
    s := WokenCloserMeetsDelete(woken, t, u);
    var second := [Action.Resume(t, true), Begin(t, ToRelease), Serve(t, false), Delete(t), Action.Resume(u, true)];
    RunsConcat(s0, first, woken, second, s);
    actions := first + second;
  }

  // Clients that call release only when no other thread is inside the loader, and begin nothing else until it
  // has been refused.
  ghost predicate Orderly(s: State, a: Action) {
    a.Begin? ==>
      && !s.released
      && (forall u :: u in s.places ==> !s.places[u].Deleting? && s.places[u] != Queued(ToRelease))
      && (a.call == ToRelease ==> Alone(s, a.t))
  }

  ghost predicate OrderlyRun(s: State, actions: seq<Action>)
    decreases |actions|
  {
    actions != [] ==>
      Enabled(s, actions[0]) && Orderly(s, actions[0]) && OrderlyRun(Step(s, actions[0]), actions[1..])
  }

  // The thread inside release is alone, and after the deletion everybody is outside.
  ghost predicate Quiet(s: State) {
    && (forall t :: t in s.places && (s.places[t].Deleting? || s.places[t] == Queued(ToRelease)) ==> Alone(s, t))
    && (s.released ==> forall t :: t in s.places ==> s.places[t].Idle?)
    && !s.dangling
  }

  lemma OrderlyStepStaysQuiet(s: State, a: Action)
    requires Quiet(s) && Enabled(s, a) && Orderly(s, a)
    ensures Quiet(Step(s, a))
  {
    hide AdmitCall, FinishCall, ResumeClose, BeginClose, ExportCount, ExportInfo;
  }

  lemma {:induction false} OrderlyRunStaysQuiet(s: State, actions: seq<Action>, s': State)
    requires Quiet(s) && Runs(s, actions, s') && OrderlyRun(s, actions)
    ensures Quiet(s')
    decreases |actions|
  {
    hide Quiet, Enabled, Step, Orderly;
    if actions != [] {
      OrderlyStepStaysQuiet(s, actions[0]);
      OrderlyRunStaysQuiet(Step(s, actions[0]), actions[1..], s');
    }
  }

  // With such clients no thread ever uses the deleted module.
  lemma OrderlyClientsAreSafe(s0: State, actions: seq<Action>, s: State)
    requires Init(s0) && Runs(s0, actions, s) && OrderlyRun(s0, actions)
    ensures !s.dangling
  {
    OrderlyRunStaysQuiet(s0, actions, s);
  }
}
