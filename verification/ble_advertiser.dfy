/**
 The GATT-server bookkeeping of `BleAdvertiser`.  The server state is an immutable
 record: the advertised service UUIDs, the live characteristic handles and the cached
 read responses (both keyed by UUID text), and the single listener slot.  Every public
 operation and delegate callback is a step function returning the new state and the
 calls made outward, to the radio stack or to the listener, in the order they are made.
 All callbacks arrive on one serial queue, so steps happen one at a time.
 */
module BleAdvertiser {
  import opened Wrappers
  import opened Text
  import opened Uuid
  import opened Utf8
  import opened CharacteristicConfig

  /**
   The object identity of a `CBMutableCharacteristic`: which `addServiceToManager` call
   built it (counting from zero, one per added service) and its position among that
   call's configs.  Each call builds fresh objects, so two handles with equal contents
   but different identities are different objects to the radio stack.
   */
  datatype HandleId = HandleId(service: nat, position: nat)

  /** A `CBMutableCharacteristic`: the live handle the radio stack serves */
  datatype Characteristic = Characteristic(
    id: HandleId,
    uuid: string,
    properties: set<Property>,
    value: Option<Bytes>,
    permissions: set<Permission>)

  /** A primary `CBMutableService` */
  datatype Service = Service(uuid: string, primary: bool, characteristics: seq<Characteristic>)

  /** A `CBATTRequest`: the characteristic addressed and the bytes it carries */
  datatype Request = Request(characteristic: Characteristic, value: Option<Bytes>)

  /** The `CBATTError.Code` of a response; the advertiser only ever answers with success */
  datatype AttResult = Success

  /** The identity of a closure passed to `setListener` */
  type Listener = nat

  /** A call the advertiser makes outward */
  datatype Call =
    | AddService(service: Service)
    | StartAdvertising(localName: string, serviceUuids: seq<string>)
    | Respond(request: Request, result: AttResult)
      /** `updateValue(_:for:onSubscribedCentrals: nil)`: to every subscribed central */
    | UpdateValue(value: Bytes, characteristic: Characteristic)
      /** A call of the registered `eventDispatcher` closure */
    | Dispatch(listener: Listener, text: string)

  datatype Server = Server(
    serviceUuids: seq<string>,
    characteristics: map<string, Characteristic>,
    readResponses: map<string, string>,
    listener: Option<Listener>)

  datatype Step = Step(server: Server, calls: seq<Call>)

  /** The state right after construction: nothing registered, no listener */
  const Initial := Server([], map[], map[], None)

  /**
   Service UUIDs are canonical, each handle is filed under its own canonical UUID, and
   each was built by one of the services added so far
   */
  predicate Valid(s: Server) {
    && (forall i :: 0 <= i < |s.serviceUuids| ==> IsCanonical(s.serviceUuids[i]))
    && (forall k :: k in s.characteristics ==>
          IsCanonical(k) && s.characteristics[k].uuid == k && s.characteristics[k].id.service < |s.serviceUuids|)
  }

  lemma InitialIsValid()
    ensures Valid(Initial)
  {
  }

  // ---------------------------------------------------------------------------
  // setListener and startAdvertising
  // ---------------------------------------------------------------------------

  /** `setListener`: the slot holds the newest listener only */
  function SetListener(s: Server, listener: Listener): (r: Step)
    ensures r.server.listener == Some(listener)
    ensures r.server.serviceUuids == s.serviceUuids
    ensures r.server.characteristics == s.characteristics
    ensures r.server.readResponses == s.readResponses
    ensures r.calls == []
  {
    Step(s.(listener := Some(listener)), [])
  }

  /** `startAdvertising`: advertise the device name with every service added so far */
  function StartAdvertisingStep(s: Server, deviceName: string): (r: Step)
    ensures r.server == s
    ensures |r.calls| == 1 && r.calls[0].StartAdvertising?
    ensures r.calls[0].localName == deviceName && r.calls[0].serviceUuids == s.serviceUuids
  {
    Step(s, [StartAdvertising(deviceName, s.serviceUuids)])
  }

  // ---------------------------------------------------------------------------
  // addService: from `[[String: Any?]]` dictionaries to configs
  // ---------------------------------------------------------------------------

  /** A value of a `[String: Any?]` dictionary, as far as the `as?` casts can tell */
  datatype AnyValue =
    | StringValue(text: string)
    | StringArray(items: seq<string>)
    | NilValue
    | OtherValue

  type ConfigEntry = map<string, AnyValue>

  /** `entry[key] as? String` */
  function StringField(entry: ConfigEntry, key: string): (r: Option<string>)
    ensures r.Some? <==> key in entry && entry[key].StringValue?
    ensures r.Some? ==> r.value == entry[key].text
  {
    if key in entry && entry[key].StringValue? then Some(entry[key].text) else None
  }

  /** `entry[key] as? [String]` */
  function StringArrayField(entry: ConfigEntry, key: string): (r: Option<seq<string>>)
    ensures r.Some? <==> key in entry && entry[key].StringArray?
    ensures r.Some? ==> r.value == entry[key].items
  {
    if key in entry && entry[key].StringArray? then Some(entry[key].items) else None
  }

  /** The `if let` of `addService`: a config with no initial value when all three fields have the expected types */
  function ParseEntry(entry: ConfigEntry): (r: Option<Config>)
    ensures r.Some? <==>
      && StringField(entry, "uuid").Some?
      && StringArrayField(entry, "properties").Some?
      && StringArrayField(entry, "permissions").Some?
    ensures r.Some? ==>
      && r.value.rawUuid == entry["uuid"].text
      && r.value.rawProperties == entry["properties"].items
      && r.value.rawPermissions == entry["permissions"].items
      && r.value.rawInitialValue == None
  {
    match (StringField(entry, "uuid"), StringArrayField(entry, "properties"), StringArrayField(entry, "permissions"))
    case (Some(uuid), Some(properties), Some(permissions)) =>
      Some(Config(uuid, properties, None, permissions))
    case _ => None
  }

  /** The configs `addService` keeps: one per well-typed entry, in input order */
  function ValidConfigs(entries: seq<ConfigEntry>): (configs: seq<Config>)
    ensures |configs| <= |entries|
    ensures forall c :: c in configs ==> c.rawInitialValue == None
    ensures forall c :: c in configs ==> exists i :: 0 <= i < |entries| && ParseEntry(entries[i]) == Some(c)
    ensures forall i :: 0 <= i < |entries| && ParseEntry(entries[i]).Some? ==> ParseEntry(entries[i]).value in configs
    decreases |entries|
  {
    if entries == [] then []
    else
      var rest := ValidConfigs(entries[1..]);
      assert forall i :: 1 <= i < |entries| ==> entries[i] == entries[1..][i - 1];
      match ParseEntry(entries[0])
      case Some(c) => [c] + rest
      case None => rest
  }

  /** Filtering distributes over concatenation, so the kept configs stay in input order */
  lemma {:induction false} ValidConfigsAppend(a: seq<ConfigEntry>, b: seq<ConfigEntry>)
    ensures ValidConfigs(a + b) == ValidConfigs(a) + ValidConfigs(b)
  {
    if a == [] {
      assert a + b == b;
    } else {
      assert (a + b)[0] == a[0];
      assert (a + b)[1..] == a[1..] + b;
      ValidConfigsAppend(a[1..], b);
    }
  }

  /** A single entry is kept exactly when it is well typed */
  lemma ValidConfigsSingle(entry: ConfigEntry)
    ensures ValidConfigs([entry]) == if ParseEntry(entry).Some? then [ParseEntry(entry).value] else []
  {
    assert [entry][1..] == [];
  }

  /** The UUID text of every well-typed entry parses: the force-unwraps in `addServiceToManager` succeed */
  predicate EntryUuidsWellFormed(entries: seq<ConfigEntry>) {
    forall i :: 0 <= i < |entries| && ParseEntry(entries[i]).Some? ==> WellFormed(ParseEntry(entries[i]).value.rawUuid)
  }

  predicate ConfigUuidsWellFormed(configs: seq<Config>) {
    forall i :: 0 <= i < |configs| ==> WellFormed(configs[i].rawUuid)
  }

  lemma ValidConfigsWellFormed(entries: seq<ConfigEntry>)
    requires EntryUuidsWellFormed(entries)
    ensures ConfigUuidsWellFormed(ValidConfigs(entries))
  {
    var configs := ValidConfigs(entries);
    forall k | 0 <= k < |configs|
      ensures WellFormed(configs[k].rawUuid)
    {
      assert configs[k] in configs;
    }
  }

  // ---------------------------------------------------------------------------
  // addServiceToManager: registering the handles
  // ---------------------------------------------------------------------------

  /** The `CBMutableCharacteristic` built for a config, as the object `id` */
  function MakeCharacteristic(config: Config, id: HandleId): (h: Characteristic)
    requires WellFormed(config.rawUuid)
    ensures IsCanonical(h.uuid) && h.id == id
  {
    Characteristic(id, ConfigUuid(config), Properties(config), config.rawInitialValue, Permissions(config))
  }

  /** The fresh handles the `service`-th `addServiceToManager` call builds, one per config */
  function MakeCharacteristics(configs: seq<Config>, service: nat): (hs: seq<Characteristic>)
    requires ConfigUuidsWellFormed(configs)
    ensures |hs| == |configs|
    ensures forall i :: 0 <= i < |configs| ==> hs[i] == MakeCharacteristic(configs[i], HandleId(service, i))
  {
    seq(|configs|, i requires 0 <= i < |configs| && WellFormed(configs[i].rawUuid) =>
      MakeCharacteristic(configs[i], HandleId(service, i)))
  }

  /** No handle after position `i` has the same UUID as the one at `i` */
  predicate IsLastWithItsUuid(hs: seq<Characteristic>, i: int)
    requires 0 <= i < |hs|
  {
    forall j :: i < j < |hs| ==> hs[j].uuid != hs[i].uuid
  }

  /** `charactaristics[config.uuid.uuidString] = newCharacteristic` for each handle in turn */
  function Register(m: map<string, Characteristic>, hs: seq<Characteristic>): (r: map<string, Characteristic>)
    ensures forall i :: 0 <= i < |hs| ==> hs[i].uuid in r
    ensures forall k :: k in r <==> k in m || exists i :: 0 <= i < |hs| && hs[i].uuid == k
    decreases |hs|
  {
    if hs == [] then m
    else
      var r := Register(m[hs[0].uuid := hs[0]], hs[1..]);
      TailPositions(hs);
      r
  }

  /** Position `i` of `hs` is position `i - 1` of its tail, and stays the last with its UUID there */
  lemma TailPositions(hs: seq<Characteristic>)
    requires hs != []
    ensures forall i :: 1 <= i < |hs| ==> hs[i] == hs[1..][i - 1]
    ensures forall i :: 1 <= i < |hs| && IsLastWithItsUuid(hs, i) ==> IsLastWithItsUuid(hs[1..], i - 1)
  {
    forall i | 1 <= i < |hs| && IsLastWithItsUuid(hs, i)
      ensures IsLastWithItsUuid(hs[1..], i - 1)
    {
      forall j | i - 1 < j < |hs[1..]|
        ensures hs[1..][j].uuid != hs[1..][i - 1].uuid
      {
        assert hs[1..][j] == hs[j + 1];
      }
    }
  }

  /** A key no handle names keeps the value it had */
  lemma {:induction false} RegisterKeepsOthers(m: map<string, Characteristic>, hs: seq<Characteristic>, k: string)
    requires k in m
    requires forall i :: 0 <= i < |hs| ==> hs[i].uuid != k
    ensures Register(m, hs)[k] == m[k]
    decreases |hs|
  {
    if hs != [] {
      assert hs[0].uuid != k;
      TailPositions(hs);
      RegisterKeepsOthers(m[hs[0].uuid := hs[0]], hs[1..], k);
    }
  }

  /** The last handle naming a key is the one filed under it */
  lemma {:induction false} RegisterLastWins(m: map<string, Characteristic>, hs: seq<Characteristic>, i: int)
    requires 0 <= i < |hs| && IsLastWithItsUuid(hs, i)
    ensures Register(m, hs)[hs[i].uuid] == hs[i]
    decreases |hs|
  {
    var m' := m[hs[0].uuid := hs[0]];
    TailPositions(hs);
    if i == 0 {
      forall j | 0 <= j < |hs[1..]|
        ensures hs[1..][j].uuid != hs[0].uuid
      {
        assert hs[1..][j] == hs[j + 1];
      }
      RegisterKeepsOthers(m', hs[1..], hs[0].uuid);
    } else {
      RegisterLastWins(m', hs[1..], i - 1);
    }
  }

  /** The primary service `addServiceToManager` builds */
  function MakeService(serviceUuid: string, configs: seq<Config>, ordinal: nat): (service: Service)
    requires WellFormed(serviceUuid)
    requires ConfigUuidsWellFormed(configs)
    ensures service.uuid == Canonical(serviceUuid) && service.primary
    ensures |service.characteristics| == |configs|
    ensures forall i :: 0 <= i < |configs| ==>
      && service.characteristics[i].id == HandleId(ordinal, i)
      && service.characteristics[i].uuid == ConfigUuid(configs[i])
      && service.characteristics[i].properties == Properties(configs[i])
      && service.characteristics[i].permissions == Permissions(configs[i])
      && service.characteristics[i].value == configs[i].rawInitialValue
  {
    Service(Canonical(serviceUuid), true, MakeCharacteristics(configs, ordinal))
  }

  /** `addServiceToManager`: remember the service's UUID, file its handles, hand it to the radio stack */
  function AddServiceToManager(s: Server, serviceUuid: string, configs: seq<Config>): (r: Step)
    requires WellFormed(serviceUuid)
    requires ConfigUuidsWellFormed(configs)
    ensures r.server.serviceUuids == s.serviceUuids + [Canonical(serviceUuid)]
    ensures r.server.readResponses == s.readResponses && r.server.listener == s.listener
    ensures r.calls == [AddService(MakeService(serviceUuid, configs, |s.serviceUuids|))]
  {
    var service := MakeService(serviceUuid, configs, |s.serviceUuids|);
    Step(s.(serviceUuids := s.serviceUuids + [service.uuid],
            characteristics := Register(s.characteristics, service.characteristics)),
         [AddService(service)])
  }

  /** After registration every config's canonical UUID resolves to a handle */
  lemma AddServiceToManagerResolvesEveryConfig(s: Server, serviceUuid: string, configs: seq<Config>)
    requires WellFormed(serviceUuid)
    requires ConfigUuidsWellFormed(configs)
    ensures forall i :: 0 <= i < |configs| ==>
      ConfigUuid(configs[i]) in AddServiceToManager(s, serviceUuid, configs).server.characteristics
  {
    var hs := MakeService(serviceUuid, configs, |s.serviceUuids|).characteristics;
    assert forall i :: 0 <= i < |configs| ==> hs[i].uuid == ConfigUuid(configs[i]);
  }

  /** Registration only adds keys: earlier handles stay resolvable, and new keys come from the configs */
  lemma AddServiceToManagerKeys(s: Server, serviceUuid: string, configs: seq<Config>)
    requires WellFormed(serviceUuid)
    requires ConfigUuidsWellFormed(configs)
    ensures var m := AddServiceToManager(s, serviceUuid, configs).server.characteristics;
      && s.characteristics.Keys <= m.Keys
      && forall k :: k in m && k !in s.characteristics ==> exists i :: 0 <= i < |configs| && ConfigUuid(configs[i]) == k
  {
    var hs := MakeService(serviceUuid, configs, |s.serviceUuids|).characteristics;
    assert forall i :: 0 <= i < |configs| ==> hs[i].uuid == ConfigUuid(configs[i]);
  }

  /** Handles under keys that no config names are left exactly as they were */
  lemma AddServiceToManagerKeepsOtherHandles(s: Server, serviceUuid: string, configs: seq<Config>, k: string)
    requires WellFormed(serviceUuid)
    requires ConfigUuidsWellFormed(configs)
    requires k in s.characteristics
    requires forall i :: 0 <= i < |configs| ==> ConfigUuid(configs[i]) != k
    ensures AddServiceToManager(s, serviceUuid, configs).server.characteristics[k] == s.characteristics[k]
  {
    var hs := MakeService(serviceUuid, configs, |s.serviceUuids|).characteristics;
    assert forall i :: 0 <= i < |configs| ==> hs[i].uuid == ConfigUuid(configs[i]);
    RegisterKeepsOthers(s.characteristics, hs, k);
  }

  /** Duplicate UUIDs: the handle of the last config naming a key is the one filed under it */
  lemma AddServiceToManagerLastWriteWins(s: Server, serviceUuid: string, configs: seq<Config>, i: int)
    requires WellFormed(serviceUuid)
    requires ConfigUuidsWellFormed(configs)
    requires 0 <= i < |configs|
    requires forall j :: i < j < |configs| ==> ConfigUuid(configs[j]) != ConfigUuid(configs[i])
    ensures AddServiceToManager(s, serviceUuid, configs).server.characteristics[ConfigUuid(configs[i])]
         == MakeCharacteristic(configs[i], HandleId(|s.serviceUuids|, i))
  {
    var hs := MakeService(serviceUuid, configs, |s.serviceUuids|).characteristics;
    assert IsLastWithItsUuid(hs, i);
    RegisterLastWins(s.characteristics, hs, i);
  }

  /**
   Registering a key that already resolves files a new object under it: the handle the
   new service carries replaces the earlier one, which no key reaches any more through
   this map although the earlier service still holds it
   */
  lemma AddServiceToManagerReplacesHandles(s: Server, serviceUuid: string, configs: seq<Config>, i: int)
    requires WellFormed(serviceUuid)
    requires ConfigUuidsWellFormed(configs)
    requires Valid(s)
    requires 0 <= i < |configs| && ConfigUuid(configs[i]) in s.characteristics
    ensures var r := AddServiceToManager(s, serviceUuid, configs);
      && r.server.characteristics[ConfigUuid(configs[i])] != s.characteristics[ConfigUuid(configs[i])]
      && r.server.characteristics[ConfigUuid(configs[i])].id.service == |s.serviceUuids|
      && r.server.characteristics[ConfigUuid(configs[i])] in r.calls[0].service.characteristics
  {
    var hs := MakeService(serviceUuid, configs, |s.serviceUuids|).characteristics;
    var last := LastIndexWithUuid(hs, i);
    RegisterLastWins(s.characteristics, hs, last);
    assert hs[last].id == HandleId(|s.serviceUuids|, last);
    assert s.characteristics[ConfigUuid(configs[i])].id.service < |s.serviceUuids|;
  }

  lemma AddServiceToManagerPreservesValid(s: Server, serviceUuid: string, configs: seq<Config>)
    requires WellFormed(serviceUuid)
    requires ConfigUuidsWellFormed(configs)
    requires Valid(s)
    ensures Valid(AddServiceToManager(s, serviceUuid, configs).server)
  {
    var hs := MakeService(serviceUuid, configs, |s.serviceUuids|).characteristics;
    var m := Register(s.characteristics, hs);
    forall k | k in m
      ensures IsCanonical(k) && m[k].uuid == k
      ensures m[k].id.service <= |s.serviceUuids|
    {
      if i :| 0 <= i < |hs| && hs[i].uuid == k {
        var last := LastIndexWithUuid(hs, i);
        RegisterLastWins(s.characteristics, hs, last);
        assert hs[last].uuid == ConfigUuid(configs[last]);
        assert hs[last].id == HandleId(|s.serviceUuids|, last);
      } else {
        RegisterKeepsOthers(s.characteristics, hs, k);
      }
    }
    var r := AddServiceToManager(s, serviceUuid, configs).server;
    assert r.characteristics == m;
    forall i | 0 <= i < |r.serviceUuids|
      ensures IsCanonical(r.serviceUuids[i])
    {
      if i < |s.serviceUuids| {
        assert r.serviceUuids[i] == s.serviceUuids[i];
      }
    }
  }

  /** The last position holding the same UUID as position `i` */
  function LastIndexWithUuid(hs: seq<Characteristic>, i: int): (j: int)
    requires 0 <= i < |hs|
    ensures i <= j < |hs| && hs[j].uuid == hs[i].uuid
    ensures IsLastWithItsUuid(hs, j)
    decreases |hs| - i
  {
    if exists j :: i < j < |hs| && hs[j].uuid == hs[i].uuid then
      var j :| i < j < |hs| && hs[j].uuid == hs[i].uuid;
      LastIndexWithUuid(hs, j)
    else
      i
  }

  /**
   `addService`: keep the well-typed entries, then register them.  The service list grows
   by the canonical service UUID, the read cache and the listener stay, and the one call
   made adds a service with a characteristic per well-typed entry.
   */
  function AddServiceStep(s: Server, serviceUuid: string, entries: seq<ConfigEntry>): (r: Step)
    requires WellFormed(serviceUuid)
    requires EntryUuidsWellFormed(entries)
    ensures ConfigUuidsWellFormed(ValidConfigs(entries))
    ensures r.server.serviceUuids == s.serviceUuids + [Canonical(serviceUuid)]
    ensures r.server.readResponses == s.readResponses && r.server.listener == s.listener
    ensures |r.calls| == 1 && r.calls[0].AddService?
    ensures r.calls[0].service.uuid == Canonical(serviceUuid)
    ensures |r.calls[0].service.characteristics| == |ValidConfigs(entries)| <= |entries|
    ensures r == AddServiceToManager(s, serviceUuid, ValidConfigs(entries))
  {
    ValidConfigsWellFormed(entries);
    AddServiceToManager(s, serviceUuid, ValidConfigs(entries))
  }

  /** Every well-typed entry is registered, and none of the handles has an initial value */
  lemma AddServiceRegistersWellTypedEntries(s: Server, serviceUuid: string, entries: seq<ConfigEntry>)
    requires WellFormed(serviceUuid)
    requires EntryUuidsWellFormed(entries)
    ensures var r := AddServiceStep(s, serviceUuid, entries);
      && (forall i :: 0 <= i < |entries| && ParseEntry(entries[i]).Some? ==>
            ConfigUuid(ParseEntry(entries[i]).value) in r.server.characteristics)
      && (forall h :: h in r.calls[0].service.characteristics ==> h.value == None)
  {
    var configs := ValidConfigs(entries);
    ValidConfigsWellFormed(entries);
    WellTypedEntriesResolve(s, serviceUuid, entries);
    NoInitialValues(serviceUuid, configs, |s.serviceUuids|);
  }

  /**
   The keys after `addService` are the earlier keys together with the canonical UUIDs of
   the well-typed entries, and nothing else
   */
  lemma AddServiceStepKeys(s: Server, serviceUuid: string, entries: seq<ConfigEntry>, k: string)
    requires WellFormed(serviceUuid)
    requires EntryUuidsWellFormed(entries)
    ensures k in AddServiceStep(s, serviceUuid, entries).server.characteristics <==>
      || k in s.characteristics
      || exists i :: 0 <= i < |entries| && ParseEntry(entries[i]).Some? && Canonical(ParseEntry(entries[i]).value.rawUuid) == k
  {
    var configs := ValidConfigs(entries);
    var m := AddServiceStep(s, serviceUuid, entries).server.characteristics;
    AddServiceToManagerKeys(s, serviceUuid, configs);
    WellTypedEntriesResolve(s, serviceUuid, entries);
    if k in m && k !in s.characteristics {
      var j :| 0 <= j < |configs| && ConfigUuid(configs[j]) == k;
      assert configs[j] in configs;
      var i :| 0 <= i < |entries| && ParseEntry(entries[i]) == Some(configs[j]);
      assert ParseEntry(entries[i]).Some? && Canonical(ParseEntry(entries[i]).value.rawUuid) == k;
    }
  }

  lemma WellTypedEntriesResolve(s: Server, serviceUuid: string, entries: seq<ConfigEntry>)
    requires WellFormed(serviceUuid)
    requires EntryUuidsWellFormed(entries)
    ensures forall i :: 0 <= i < |entries| && ParseEntry(entries[i]).Some? ==>
      ConfigUuid(ParseEntry(entries[i]).value) in AddServiceStep(s, serviceUuid, entries).server.characteristics
  {
    var configs := ValidConfigs(entries);
    var m := AddServiceStep(s, serviceUuid, entries).server.characteristics;
    AddServiceToManagerResolvesEveryConfig(s, serviceUuid, configs);
    forall i | 0 <= i < |entries| && ParseEntry(entries[i]).Some?
      ensures ConfigUuid(ParseEntry(entries[i]).value) in m
    {
      var k :| 0 <= k < |configs| && configs[k] == ParseEntry(entries[i]).value;
    }
  }

  lemma NoInitialValues(serviceUuid: string, configs: seq<Config>, ordinal: nat)
    requires WellFormed(serviceUuid)
    requires ConfigUuidsWellFormed(configs)
    requires forall c :: c in configs ==> c.rawInitialValue == None
    ensures forall h :: h in MakeService(serviceUuid, configs, ordinal).characteristics ==> h.value == None
  {
    var hs := MakeService(serviceUuid, configs, ordinal).characteristics;
    forall h | h in hs
      ensures h.value == None
    {
      var k :| 0 <= k < |configs| && hs[k] == h;
      assert configs[k] in configs;
    }
  }

  // ---------------------------------------------------------------------------
  // Write requests
  // ---------------------------------------------------------------------------

  /** The requests a trace answers, in order */
  function Answered(calls: seq<Call>): seq<Request> {
    if calls == [] then []
    else (if calls[0].Respond? then [calls[0].request] else []) + Answered(calls[1..])
  }

  /** The texts a trace hands to the listener, in order */
  function Dispatched(calls: seq<Call>): seq<string> {
    if calls == [] then []
    else (if calls[0].Dispatch? then [calls[0].text] else []) + Dispatched(calls[1..])
  }

  lemma {:induction false} AnsweredAppend(a: seq<Call>, b: seq<Call>)
    ensures Answered(a + b) == Answered(a) + Answered(b)
  {
    if a == [] {
      assert a + b == b;
    } else {
      assert (a + b)[0] == a[0];
      assert (a + b)[1..] == a[1..] + b;
      AnsweredAppend(a[1..], b);
    }
  }

  lemma {:induction false} DispatchedAppend(a: seq<Call>, b: seq<Call>)
    ensures Dispatched(a + b) == Dispatched(a) + Dispatched(b)
  {
    if a == [] {
      assert a + b == b;
    } else {
      assert (a + b)[0] == a[0];
      assert (a + b)[1..] == a[1..] + b;
      DispatchedAppend(a[1..], b);
    }
  }

  /** The UTF-8 decoded payloads of the requests that carry one, in order */
  function WrittenTexts(requests: seq<Request>): seq<string> {
    if requests == [] then []
    else (if requests[0].value.Some? then [Decode(requests[0].value.value)] else []) + WrittenTexts(requests[1..])
  }

  /** Some request of the batch carries a value, so the listener closure will be called */
  predicate CarriesValue(requests: seq<Request>) {
    exists i :: 0 <= i < |requests| && requests[i].value.Some?
  }

  /**
   `peripheralManager(_:didReceiveWrite:)`: for each request in order, hand its decoded
   value (if any) to the listener, then answer it with success.  The listener slot is an
   implicitly unwrapped optional, so a value arriving while it is empty traps.
   */
  function OnWrite(s: Server, requests: seq<Request>): (r: Step)
    requires CarriesValue(requests) ==> s.listener.Some?
    ensures r.server == s
    ensures |r.calls| >= |requests|
    decreases |requests|
  {
    if requests == [] then Step(s, [])
    else
      assert CarriesValue(requests[1..]) ==> CarriesValue(requests);
      Step(s, RequestCalls(s, requests[0]) + OnWrite(s, requests[1..]).calls)
  }

  /** The calls made for one write request: forward its value, if any, then answer it */
  function RequestCalls(s: Server, request: Request): (calls: seq<Call>)
    requires request.value.Some? ==> s.listener.Some?
  {
    (if request.value.Some? then [Dispatch(s.listener.value, Decode(request.value.value))] else [])
    + [Respond(request, Success)]
  }

  /** A batch is its first request's calls followed by the rest of the batch */
  lemma OnWriteCons(s: Server, requests: seq<Request>)
    requires requests != []
    requires CarriesValue(requests) ==> s.listener.Some?
    ensures CarriesValue(requests[1..]) ==> s.listener.Some?
    ensures requests[0].value.Some? ==> s.listener.Some?
    ensures OnWrite(s, requests).calls == RequestCalls(s, requests[0]) + OnWrite(s, requests[1..]).calls
  {
    assert CarriesValue(requests[1..]) ==> CarriesValue(requests);
    assert requests[0].value.Some? ==> CarriesValue(requests);
  }

  /** One request is answered once, and its value, if any, forwarded */
  lemma RequestCallsTrace(s: Server, request: Request)
    requires request.value.Some? ==> s.listener.Some?
    ensures Answered(RequestCalls(s, request)) == [request]
    ensures Dispatched(RequestCalls(s, request)) == if request.value.Some? then [Decode(request.value.value)] else []
  {
    var calls := RequestCalls(s, request);
    var answer := [Respond(request, Success)];
    assert answer[1..] == [];
    assert Answered(answer) == [request] && Dispatched(answer) == [];
    if request.value.Some? {
      assert calls[1..] == answer;
    } else {
      assert calls == answer;
    }
  }

  /** Every request of a batch is answered with success, once, in delivery order */
  lemma {:induction false} OnWriteAnswersEveryRequest(s: Server, requests: seq<Request>)
    requires CarriesValue(requests) ==> s.listener.Some?
    ensures Answered(OnWrite(s, requests).calls) == requests
    ensures |Answered(OnWrite(s, requests).calls)| == |requests|
    decreases |requests|
  {
    if requests != [] {
      OnWriteCons(s, requests);
      AnsweredAppend(RequestCalls(s, requests[0]), OnWrite(s, requests[1..]).calls);
      RequestCallsTrace(s, requests[0]);
      OnWriteAnswersEveryRequest(s, requests[1..]);
      assert [requests[0]] + requests[1..] == requests;
    }
  }

  /** The listener receives the decoded value of every request that carries one, in delivery order */
  lemma {:induction false} OnWriteDispatchesWrittenTexts(s: Server, requests: seq<Request>)
    requires CarriesValue(requests) ==> s.listener.Some?
    ensures Dispatched(OnWrite(s, requests).calls) == WrittenTexts(requests)
    decreases |requests|
  {
    if requests != [] {
      OnWriteCons(s, requests);
      DispatchedAppend(RequestCalls(s, requests[0]), OnWrite(s, requests[1..]).calls);
      RequestCallsTrace(s, requests[0]);
      OnWriteDispatchesWrittenTexts(s, requests[1..]);
    }
  }

  /** A write batch calls only the listener currently in the slot, and otherwise only answers */
  lemma {:induction false} OnWriteCallsOnlyCurrentListener(s: Server, requests: seq<Request>)
    requires CarriesValue(requests) ==> s.listener.Some?
    ensures forall c :: c in OnWrite(s, requests).calls ==> c.Respond? || (c.Dispatch? && Some(c.listener) == s.listener)
    decreases |requests|
  {
    if requests != [] {
      assert CarriesValue(requests[1..]) ==> CarriesValue(requests);
      OnWriteCallsOnlyCurrentListener(s, requests[1..]);
    }
  }

  /** Each forwarded text is followed at once by the success answer to a request carrying that text */
  predicate ForwardsBeforeAnswering(calls: seq<Call>) {
    forall j :: 0 <= j < |calls| && calls[j].Dispatch? ==>
      && j + 1 < |calls|
      && calls[j + 1].Respond?
      && calls[j + 1].request.value.Some?
      && Decode(calls[j + 1].request.value.value) == calls[j].text
  }

  /** Each forwarded value is followed at once by the success answer to the request that carried it */
  lemma {:induction false} OnWriteForwardsBeforeAnswering(s: Server, requests: seq<Request>)
    requires CarriesValue(requests) ==> s.listener.Some?
    ensures ForwardsBeforeAnswering(OnWrite(s, requests).calls)
    decreases |requests|
  {
    if requests != [] {
      assert CarriesValue(requests[1..]) ==> CarriesValue(requests);
      var block := RequestCalls(s, requests[0]);
      var rest := OnWrite(s, requests[1..]).calls;
      OnWriteForwardsBeforeAnswering(s, requests[1..]);
      var calls := block + rest;
      forall j | 0 <= j < |calls| && calls[j].Dispatch?
        ensures j + 1 < |calls| && calls[j + 1].Respond? && calls[j + 1].request.value.Some?
        ensures Decode(calls[j + 1].request.value.value) == calls[j].text
      {
        if j >= |block| {
          var k := j - |block|;
          assert calls[j] == rest[k];
          assert rest[k].Dispatch?;
          assert ForwardsBeforeAnswering(rest);
          assert k + 1 < |rest|;
          assert calls[j + 1] == rest[k + 1];
        } else {
          assert requests[0].value.Some? && j == 0;
          assert calls[1] == Respond(requests[0], Success);
        }
      }
    }
  }

  // ---------------------------------------------------------------------------
  // Read requests, notifications, cached read values
  // ---------------------------------------------------------------------------

  /**
   `peripheralManager(_:didReceiveRead:)`: answer with the cached value of the
   characteristic's UUID text, UTF-8 encoded; when nothing is cached, make no call at all.
   */
  function OnRead(s: Server, request: Request): (r: Step)
    ensures r.server == s
    ensures |r.calls| <= 1
    ensures r.calls != [] <==> request.characteristic.uuid in s.readResponses
    ensures r.calls != [] ==>
      && r.calls[0].Respond?
      && r.calls[0].request.characteristic == request.characteristic
      && r.calls[0].request.value.Some?
      && Decode(r.calls[0].request.value.value) == s.readResponses[request.characteristic.uuid]
  {
    var key := request.characteristic.uuid;
    if key in s.readResponses then
      DecodeEncode(s.readResponses[key]);
      Step(s, [Respond(request.(value := Some(Encode(s.readResponses[key]))), Success)])
    else
      Step(s, [])
  }

  /**
   `sendNotifyValue`: push the UTF-8 bytes of the text to every subscriber of the handle
   filed under `uuid`.  The lookup is force-unwrapped, so the key must be registered.
   */
  function SendNotifyValue(s: Server, uuid: string, text: string): (r: Step)
    requires uuid in s.characteristics
    ensures r.server == s
    ensures |r.calls| == 1 && r.calls[0].UpdateValue?
    ensures r.calls[0].characteristic == s.characteristics[uuid]
    ensures Decode(r.calls[0].value) == text
  {
    DecodeEncode(text);
    Step(s, [UpdateValue(Encode(text), s.characteristics[uuid])])
  }

  /** `setReadValueForCharactaristic`: cache the text under the key exactly as given */
  function SetReadValue(s: Server, uuid: string, text: string): (r: Step)
    ensures r.server.readResponses.Keys == s.readResponses.Keys + {uuid}
    ensures r.server.readResponses[uuid] == text
    ensures forall k :: k in s.readResponses && k != uuid ==> r.server.readResponses[k] == s.readResponses[k]
    ensures r.server.serviceUuids == s.serviceUuids
    ensures r.server.characteristics == s.characteristics
    ensures r.server.listener == s.listener
    ensures r.calls == []
  {
    Step(s.(readResponses := s.readResponses[uuid := text]), [])
  }

  /** A read right after caching a value under the characteristic's UUID text is answered with that value */
  lemma ReadAfterSetReadValue(s: Server, uuid: string, text: string, request: Request)
    requires request.characteristic.uuid == uuid
    ensures var calls := OnRead(SetReadValue(s, uuid, text).server, request).calls;
      && |calls| == 1 && calls[0].Respond? && calls[0].request.value.Some?
      && Decode(calls[0].request.value.value) == text
  {
  }

  /** Caching a value under one key does not change how reads of any other key are answered */
  lemma SetReadValueLeavesOtherReads(s: Server, uuid: string, text: string, request: Request)
    requires request.characteristic.uuid != uuid
    ensures OnRead(SetReadValue(s, uuid, text).server, request).calls == OnRead(s, request).calls
  {
  }

  lemma SetReadValueIdempotent(s: Server, uuid: string, text: string)
    ensures SetReadValue(SetReadValue(s, uuid, text).server, uuid, text) == SetReadValue(s, uuid, text)
  {
  }

  /**
   The cache key is stored as given, but reads look up the characteristic's canonical
   UUID text: a value cached under a spelling with a lower-case letter is never served.
   */
  lemma LowerCaseReadKeyIsNeverServed(s: Server, uuid: string, text: string, request: Request)
    requires IsCanonical(request.characteristic.uuid)
    requires !HasNoLowerLetter(uuid)
    ensures OnRead(SetReadValue(s, uuid, text).server, request).calls == OnRead(s, request).calls
  {
    assert request.characteristic.uuid != uuid;
  }

  /** Handles are filed only under canonical text, so notifying under any other spelling traps */
  lemma NotifyKeyIsCanonical(s: Server, uuid: string)
    requires Valid(s)
    requires uuid in s.characteristics
    ensures IsCanonical(uuid)
  {
  }
}
