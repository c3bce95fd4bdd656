/**
 A session of the advertiser: a sequence of public calls and delegate callbacks, applied
 one after another as the serial delegate queue delivers them.  A force-unwrap that
 fails ends the session with `Crashed`, keeping the calls made by the earlier steps.
 */
module AdvertiserSession {
  import opened Wrappers
  import opened Text
  import opened Uuid
  import opened Utf8
  import opened BleAdvertiser

  datatype Op =
    | SetListenerOp(listener: Listener)
    | StartAdvertisingOp(deviceName: string)
    | AddServiceOp(serviceUuid: string, entries: seq<ConfigEntry>)
    | WriteOp(requests: seq<Request>)
    | ReadOp(request: Request)
    | NotifyOp(uuid: string, text: string)
    | SetReadValueOp(uuid: string, text: string)

  /** The step does not trap: every value it force-unwraps is present */
  predicate Enabled(s: Server, op: Op) {
    match op
    case AddServiceOp(uuid, entries) => WellFormed(uuid) && EntryUuidsWellFormed(entries)
    case WriteOp(requests) => CarriesValue(requests) ==> s.listener.Some?
    case NotifyOp(uuid, _) => uuid in s.characteristics
    case _ => true
  }

  function Apply(s: Server, op: Op): (r: Step)
    requires Enabled(s, op)
    ensures !op.SetListenerOp? ==> r.server.listener == s.listener
    ensures !op.AddServiceOp? ==> r.server.serviceUuids == s.serviceUuids
    ensures op.AddServiceOp? ==> r.server.serviceUuids == s.serviceUuids + [Canonical(op.serviceUuid)]
    ensures Valid(s) ==> Valid(r.server)
  {
    match op
    case SetListenerOp(l) => SetListener(s, l)
    case StartAdvertisingOp(name) => StartAdvertisingStep(s, name)
    case AddServiceOp(uuid, entries) =>
      ValidConfigsWellFormed(entries);
      if Valid(s) then AddServiceToManagerPreservesValid(s, uuid, ValidConfigs(entries)); AddServiceStep(s, uuid, entries)
      else AddServiceStep(s, uuid, entries)
    case WriteOp(requests) => OnWrite(s, requests)
    case ReadOp(request) => OnRead(s, request)
    case NotifyOp(uuid, text) => SendNotifyValue(s, uuid, text)
    case SetReadValueOp(uuid, text) => SetReadValue(s, uuid, text)
  }

  datatype Outcome = Finished(server: Server, calls: seq<Call>) | Crashed(calls: seq<Call>)

  function Run(s: Server, ops: seq<Op>): Outcome
    decreases |ops|
  {
    if ops == [] then Finished(s, [])
    else if !Enabled(s, ops[0]) then Crashed([])
    else
      var step := Apply(s, ops[0]);
      Prefixed(step.calls, Run(step.server, ops[1..]))
  }

  /** An outcome with earlier calls in front of its own */
  function Prefixed(calls: seq<Call>, o: Outcome): (r: Outcome)
    ensures r.Finished? == o.Finished?
    ensures r.calls == calls + o.calls
    ensures r.Finished? ==> r.server == o.server
  {
    match o
    case Finished(t, later) => Finished(t, calls + later)
    case Crashed(later) => Crashed(calls + later)
  }

  lemma PrefixedTwice(x: seq<Call>, y: seq<Call>, o: Outcome)
    ensures Prefixed(x, Prefixed(y, o)) == Prefixed(x + y, o)
  {
  }

  /** A run whose first step is enabled: that step's calls, then the run of the rest */
  lemma RunUnfold(s: Server, ops: seq<Op>)
    requires ops != [] && Enabled(s, ops[0])
    ensures Run(s, ops) == Prefixed(Apply(s, ops[0]).calls, Run(Apply(s, ops[0]).server, ops[1..]))
  {
  }

  /** A trap ends the session: whatever follows a sequence that crashes is never run */
  lemma {:induction false} RunCrashStops(s: Server, a: seq<Op>, b: seq<Op>)
    requires Run(s, a).Crashed?
    ensures Run(s, a + b) == Run(s, a)
    decreases |a|
  {
    assert a != [];
    assert (a + b)[0] == a[0];
    if Enabled(s, a[0]) {
      assert (a + b)[1..] == a[1..] + b;
      var step := Apply(s, a[0]);
      RunUnfold(s, a);
      RunUnfold(s, a + b);
      RunCrashStops(step.server, a[1..], b);
    }
  }

  /** Running two sequences back to back is running their concatenation */
  lemma {:induction false} RunAppend(s: Server, a: seq<Op>, b: seq<Op>)
    requires Run(s, a).Finished?
    ensures Run(s, a + b) == Prefixed(Run(s, a).calls, Run(Run(s, a).server, b))
    decreases |a|
  {
    if a == [] {
      assert a + b == b;
      assert Run(s, a) == Finished(s, []);
      assert [] + Run(s, b).calls == Run(s, b).calls;
    } else {
      assert Enabled(s, a[0]);
      var step := Apply(s, a[0]);
      RunUnfold(s, a);
      RunAppend(step.server, a[1..], b);
      RunAppendStep(s, a, b);
    }
  }

  /** The inductive step of RunAppend: the first step's calls, then the rest appended */
  lemma RunAppendStep(s: Server, a: seq<Op>, b: seq<Op>)
    requires a != [] && Enabled(s, a[0])
    requires Run(Apply(s, a[0]).server, a[1..]).Finished?
    requires var t := Apply(s, a[0]).server; var rest := Run(t, a[1..]);
      Run(t, a[1..] + b) == Prefixed(rest.calls, Run(rest.server, b))
    ensures Run(s, a).Finished?
    ensures Run(s, a + b) == Prefixed(Run(s, a).calls, Run(Run(s, a).server, b))
  {
    var step := Apply(s, a[0]);
    var rest := Run(step.server, a[1..]);
    RunUnfold(s, a);
    RunUnfoldAppend(s, a, b);
    PrefixedThen(step.calls, rest, Run(rest.server, b));
  }

  /** A run of `a + b` whose first step is enabled: that step's calls, then the run of the rest */
  lemma RunUnfoldAppend(s: Server, a: seq<Op>, b: seq<Op>)
    requires a != [] && Enabled(s, a[0])
    ensures Run(s, a + b) == Prefixed(Apply(s, a[0]).calls, Run(Apply(s, a[0]).server, a[1..] + b))
  {
    assert (a + b)[0] == a[0];
    assert (a + b)[1..] == a[1..] + b;
    RunUnfold(s, a + b);
  }

  /** Calls put in front of a finished outcome, then in front of what follows it */
  lemma PrefixedThen(calls: seq<Call>, rest: Outcome, tail: Outcome)
    requires rest.Finished?
    ensures Prefixed(calls, rest).Finished? && Prefixed(calls, rest).server == rest.server
    ensures Prefixed(calls, Prefixed(rest.calls, tail)) == Prefixed(Prefixed(calls, rest).calls, tail)
  {
    PrefixedTwice(calls, rest.calls, tail);
  }

  /** Every step keeps the advertiser's own state well formed */
  lemma {:induction false} RunPreservesValid(s: Server, ops: seq<Op>)
    requires Valid(s)
    requires Run(s, ops).Finished?
    ensures Valid(Run(s, ops).server)
    decreases |ops|
  {
    if ops != [] {
      RunPreservesValid(Apply(s, ops[0]).server, ops[1..]);
    }
  }

  /** The canonical UUIDs of the services a sequence adds, in order */
  function AddedServices(ops: seq<Op>): seq<string> {
    if ops == [] then []
    else (if ops[0].AddServiceOp? then [Uppercased(ops[0].serviceUuid)] else []) + AddedServices(ops[1..])
  }

  /** The service list after one step: extended by the canonical UUID of an added service */
  lemma ApplyServiceUuids(s: Server, op: Op)
    requires Enabled(s, op)
    ensures Apply(s, op).server.serviceUuids == s.serviceUuids + AddedServices([op])
  {
    assert [op][1..] == [];
    if op.AddServiceOp? {
      assert Canonical(op.serviceUuid) == Uppercased(op.serviceUuid);
    } else {
      assert s.serviceUuids + [] == s.serviceUuids;
    }
  }

  /** A run that finishes took its first step and finished the rest from there */
  lemma RunFirstStep(s: Server, ops: seq<Op>)
    requires ops != [] && Run(s, ops).Finished?
    ensures Enabled(s, ops[0])
    ensures Run(Apply(s, ops[0]).server, ops[1..]).Finished?
    ensures Run(s, ops).server == Run(Apply(s, ops[0]).server, ops[1..]).server
  {
  }

  lemma AddedServicesCons(ops: seq<Op>)
    requires ops != []
    ensures AddedServices(ops) == AddedServices([ops[0]]) + AddedServices(ops[1..])
  {
    assert [ops[0]][1..] == [];
    assert AddedServices([ops[0]][1..]) == [];
  }

  /** The advertised-service list grows by exactly the added services, in the order they were added */
  lemma {:induction false} RunServiceUuids(s: Server, ops: seq<Op>)
    requires Run(s, ops).Finished?
    ensures Run(s, ops).server.serviceUuids == s.serviceUuids + AddedServices(ops)
    decreases |ops|
  {
    if ops == [] {
      assert s.serviceUuids + [] == s.serviceUuids;
    } else {
      RunFirstStep(s, ops);
      var next := Apply(s, ops[0]).server;
      RunServiceUuids(next, ops[1..]);
      ApplyServiceUuids(s, ops[0]);
      AddedServicesCons(ops);
      var first, later := AddedServices([ops[0]]), AddedServices(ops[1..]);
      assert (s.serviceUuids + first) + later == s.serviceUuids + (first + later);
    }
  }

  /** Advertising after a setup names exactly the services the setup added, in order */
  lemma AdvertisesEveryAddedService(ops: seq<Op>, deviceName: string)
    requires Run(Initial, ops).Finished?
    ensures Run(Initial, ops + [StartAdvertisingOp(deviceName)]).Finished?
    ensures var calls := Run(Initial, ops + [StartAdvertisingOp(deviceName)]).calls;
      |calls| >= 1 && calls[|calls| - 1] == StartAdvertising(deviceName, AddedServices(ops))
  {
    var setup := Run(Initial, ops);
    RunAppend(Initial, ops, [StartAdvertisingOp(deviceName)]);
    RunServiceUuids(Initial, ops);
    assert [StartAdvertisingOp(deviceName)][1..] == [];
    assert Run(setup.server, [StartAdvertisingOp(deviceName)])
        == Finished(setup.server, [StartAdvertising(deviceName, setup.server.serviceUuids)]);
  }

  predicate SetsNoListener(ops: seq<Op>) {
    forall i :: 0 <= i < |ops| ==> !ops[i].SetListenerOp?
  }

  /** Calls a step makes to a listener go to the one in the slot when the step runs */
  lemma ApplyDispatchesToCurrentListener(s: Server, op: Op)
    requires Enabled(s, op)
    ensures forall c :: c in Apply(s, op).calls && c.Dispatch? ==> Some(c.listener) == s.listener
  {
    if op.WriteOp? {
      OnWriteCallsOnlyCurrentListener(s, op.requests);
    }
  }

  /** With no further `setListener`, every forwarded write reaches the listener in the slot */
  lemma {:induction false} RunDispatchesToCurrentListener(s: Server, ops: seq<Op>)
    requires SetsNoListener(ops)
    ensures forall c :: c in Run(s, ops).calls && c.Dispatch? ==> Some(c.listener) == s.listener
    decreases |ops|
  {
    if ops != [] && Enabled(s, ops[0]) {
      var step := Apply(s, ops[0]);
      ApplyDispatchesToCurrentListener(s, ops[0]);
      assert SetsNoListener(ops[1..]);
      RunDispatchesToCurrentListener(step.server, ops[1..]);
    }
  }

  /** Registration is last-write-wins: after `setListener(l)`, only `l` hears of writes until the next replacement */
  lemma NewestListenerReceivesEverything(s: Server, l: Listener, ops: seq<Op>)
    requires SetsNoListener(ops)
    ensures forall c :: c in Run(s, [SetListenerOp(l)] + ops).calls && c.Dispatch? ==> c.listener == l
  {
    assert ([SetListenerOp(l)] + ops)[1..] == ops;
    RunDispatchesToCurrentListener(SetListener(s, l).server, ops);
  }

  /** Notifying under a spelling that is not canonical UUID text always traps */
  lemma NotifyOnNonCanonicalKeyCrashes(s: Server, uuid: string, text: string)
    requires Valid(s)
    requires !IsCanonical(uuid)
    ensures Run(s, [NotifyOp(uuid, text)]).Crashed?
  {
    if uuid in s.characteristics {
      NotifyKeyIsCanonical(s, uuid);
    }
  }

  /**
   Three writes with values "a", "b", "c" delivered as one batch reach the listener as
   "a", "b", "c", in that order, and all three are answered with success.
   */
  lemma WriteBatchExample(s: Server, l: Listener, h: Characteristic)
    requires s.listener == Some(l)
    ensures var requests := [Request(h, Some(Encode("a"))), Request(h, Some(Encode("b"))), Request(h, Some(Encode("c")))];
      var calls := OnWrite(s, requests).calls;
      && Dispatched(calls) == ["a", "b", "c"]
      && Answered(calls) == requests
      && forall c :: c in calls ==> c.Respond? || (c.Dispatch? && c.listener == l)
  {
    var requests := [Request(h, Some(Encode("a"))), Request(h, Some(Encode("b"))), Request(h, Some(Encode("c")))];
    OnWriteDispatchesWrittenTexts(s, requests);
    OnWriteAnswersEveryRequest(s, requests);
    OnWriteCallsOnlyCurrentListener(s, requests);
    DecodeEncode("a");
    DecodeEncode("b");
    DecodeEncode("c");
    assert requests[1..][1..][1..] == [];
    assert WrittenTexts(requests[2..]) == ["c"];
    assert WrittenTexts(requests[1..]) == ["b", "c"];
  }
}
