/**
 The app that drives the advertiser: one service with a notify, a read and a write
 characteristic, a cached read value "#00FF00", a listener that repaints the background
 with every colour written to the phone, and a button that notifies subscribers of a
 freshly generated colour code.
 */
module ColorServer {
  import opened Wrappers
  import opened Text
  import opened Uuid
  import opened Utf8
  import opened CharacteristicConfig
  import opened BleAdvertiser
  import opened AdvertiserSession
  import opened HexColor
  import opened RandomColor
  import opened AppConstants

  const InitialReadValue := "#00FF00"
  const DeviceName := "iPhone"

  /** The closure `configureCharactaristicsAndServices` registers */
  const AppListener: Listener := 0

  // ---------------------------------------------------------------------------
  // configureCharactaristicsAndServices and onScanForDevicesPressed
  // ---------------------------------------------------------------------------

  function Entry(uuid: string, properties: seq<string>, permissions: seq<string>): ConfigEntry {
    map["uuid" := StringValue(uuid), "properties" := StringArray(properties), "permissions" := StringArray(permissions)]
  }

  /** The three dictionaries passed to `addService` */
  function Entries(u: AppUuids): seq<ConfigEntry> {
    [
      Entry(u.notify, ["NOTIFY"], ["READABLE", "WRITABLE"]),
      Entry(u.read, ["READ"], ["READABLE"]),
      Entry(u.write, ["WRITE"], ["WRITABLE"])
    ]
  }

  /** The configs the three dictionaries become */
  function Configs(u: AppUuids): seq<Config> {
    [
      Config(u.notify, ["NOTIFY"], None, ["READABLE", "WRITABLE"]),
      Config(u.read, ["READ"], None, ["READABLE"]),
      Config(u.write, ["WRITE"], None, ["WRITABLE"])
    ]
  }

  /** `configureCharactaristicsAndServices()` */
  function ConfigureOps(u: AppUuids): seq<Op> {
    [
      AddServiceOp(u.service, Entries(u)),
      SetReadValueOp(u.read, InitialReadValue),
      SetListenerOp(AppListener)
    ]
  }

  /** `onScanForDevicesPressed`: configure, then advertise as "iPhone" */
  function ScanOps(u: AppUuids): seq<Op> {
    ConfigureOps(u) + [StartAdvertisingOp(DeviceName)]
  }

  /** A dictionary built by `Entry` is well typed and parses back to its parts */
  lemma EntryParses(uuid: string, properties: seq<string>, permissions: seq<string>)
    ensures ParseEntry(Entry(uuid, properties, permissions)) == Some(Config(uuid, properties, None, permissions))
  {
    var e := Entry(uuid, properties, permissions);
    assert StringField(e, "uuid") == Some(uuid);
    assert StringArrayField(e, "properties") == Some(properties);
    assert StringArrayField(e, "permissions") == Some(permissions);
  }

  /** A well-typed entry in front keeps its config in front */
  lemma ValidConfigsCons(e: ConfigEntry, rest: seq<ConfigEntry>)
    requires ParseEntry(e).Some?
    ensures ValidConfigs([e] + rest) == [ParseEntry(e).value] + ValidConfigs(rest)
  {
    assert ([e] + rest)[0] == e && ([e] + rest)[1..] == rest;
  }

  /** Three well-typed entries keep all three configs, in order */
  lemma ValidConfigsOfThree(e0: ConfigEntry, e1: ConfigEntry, e2: ConfigEntry)
    requires ParseEntry(e0).Some? && ParseEntry(e1).Some? && ParseEntry(e2).Some?
    ensures ValidConfigs([e0, e1, e2]) == [ParseEntry(e0).value, ParseEntry(e1).value, ParseEntry(e2).value]
  {
    ValidConfigsCons(e2, []);
    assert [e2] + [] == [e2];
    ValidConfigsCons(e1, [e2]);
    assert [e1] + [e2] == [e1, e2];
    ValidConfigsCons(e0, [e1, e2]);
    assert [e0] + [e1, e2] == [e0, e1, e2];
  }

  /** The three dictionaries become the three configs, and their UUID texts all parse */
  lemma EntriesParse(u: AppUuids)
    requires Usable(u)
    ensures ValidConfigs(Entries(u)) == Configs(u)
    ensures EntryUuidsWellFormed(Entries(u))
  {
    var e0 := Entry(u.notify, ["NOTIFY"], ["READABLE", "WRITABLE"]);
    var e1 := Entry(u.read, ["READ"], ["READABLE"]);
    var e2 := Entry(u.write, ["WRITE"], ["WRITABLE"]);
    EntryParses(u.notify, ["NOTIFY"], ["READABLE", "WRITABLE"]);
    EntryParses(u.read, ["READ"], ["READABLE"]);
    EntryParses(u.write, ["WRITE"], ["WRITABLE"]);
    ValidConfigsOfThree(e0, e1, e2);
    assert Entries(u) == [e0, e1, e2];
    forall i | 0 <= i < 3
      ensures WellFormed(ParseEntry([e0, e1, e2][i]).value.rawUuid)
    {
    }
  }

  lemma PropertyFlagsOfOne(token: string, f: Property)
    requires PropertyOf(token) == Some(f)
    ensures PropertyFlags([token]) == {f}
  {
    var flags := PropertyFlags([token]);
    assert f in flags;
    forall g | g in flags
      ensures g == f
    {
    }
  }

  lemma PermissionFlagsOfOne(token: string, f: Permission)
    requires PermissionOf(token) == Some(f)
    ensures PermissionFlags([token]) == {f}
  {
    var flags := PermissionFlags([token]);
    assert f in flags;
    forall g | g in flags
      ensures g == f
    {
    }
  }

  lemma BothPermissions()
    ensures PermissionFlags(["READABLE", "WRITABLE"]) == {Readable, Writeable}
  {
    var flags := PermissionFlags(["READABLE", "WRITABLE"]);
    assert Readable in flags && Writeable in flags;
    forall g | g in flags
      ensures g == Readable || g == Writeable
    {
    }
  }

  /** The handle built for each config: the flags its tokens name, no initial value */
  lemma ConfigHandles(u: AppUuids)
    requires Usable(u)
    ensures ConfigUuidsWellFormed(Configs(u))
    ensures MakeCharacteristic(Configs(u)[0], HandleId(0, 0)) == NotifyHandle(u)
    ensures MakeCharacteristic(Configs(u)[1], HandleId(0, 1)) == ReadHandle(u)
    ensures MakeCharacteristic(Configs(u)[2], HandleId(0, 2)) == WriteHandle(u)
  {
    PropertyFlagsOfOne("NOTIFY", Notify);
    PropertyFlagsOfOne("READ", Read);
    PropertyFlagsOfOne("WRITE", Write);
    PermissionFlagsOfOne("READABLE", Readable);
    PermissionFlagsOfOne("WRITABLE", Writeable);
    BothPermissions();
  }

  /** The three handles the first `configureCharactaristicsAndServices()` builds */
  function NotifyHandle(u: AppUuids): Characteristic {
    Characteristic(HandleId(0, 0), u.notify, {Notify}, None, {Readable, Writeable})
  }

  function ReadHandle(u: AppUuids): Characteristic {
    Characteristic(HandleId(0, 1), u.read, {Read}, None, {Readable})
  }

  function WriteHandle(u: AppUuids): Characteristic {
    Characteristic(HandleId(0, 2), u.write, {Write}, None, {Writeable})
  }

  /** The state after `configureCharactaristicsAndServices()` on a fresh advertiser */
  predicate Configured(u: AppUuids, s: Server) {
    && s.serviceUuids == [u.service]
    && s.characteristics.Keys == {u.notify, u.read, u.write}
    && s.characteristics[u.notify] == NotifyHandle(u)
    && s.characteristics[u.read] == ReadHandle(u)
    && s.characteristics[u.write] == WriteHandle(u)
    && s.readResponses == map[u.read := InitialReadValue]
    && s.listener == Some(AppListener)
  }

  /** No two configs name the same UUID */
  predicate DistinctUuids(configs: seq<Config>)
    requires ConfigUuidsWellFormed(configs)
  {
    forall i, j :: 0 <= i < j < |configs| ==> ConfigUuid(configs[i]) != ConfigUuid(configs[j])
  }

  /** With distinct UUIDs, every config's handle is the one filed under its key */
  lemma RegisterDistinct(s: Server, serviceUuid: string, configs: seq<Config>, i: int)
    requires WellFormed(serviceUuid) && ConfigUuidsWellFormed(configs) && DistinctUuids(configs)
    requires 0 <= i < |configs|
    ensures AddServiceToManager(s, serviceUuid, configs).server.characteristics[ConfigUuid(configs[i])]
         == MakeCharacteristic(configs[i], HandleId(|s.serviceUuids|, i))
  {
    AddServiceToManagerLastWriteWins(s, serviceUuid, configs, i);
  }

  /** The keys after registration: the earlier ones and those the configs name */
  lemma RegisteredKeys(s: Server, serviceUuid: string, configs: seq<Config>)
    requires WellFormed(serviceUuid) && ConfigUuidsWellFormed(configs)
    ensures AddServiceToManager(s, serviceUuid, configs).server.characteristics.Keys
         == s.characteristics.Keys + set i | 0 <= i < |configs| :: ConfigUuid(configs[i])
  {
    AddServiceToManagerResolvesEveryConfig(s, serviceUuid, configs);
    AddServiceToManagerKeys(s, serviceUuid, configs);
  }

  lemma ThreeKeys(configs: seq<Config>)
    requires ConfigUuidsWellFormed(configs) && |configs| == 3
    ensures (set i | 0 <= i < |configs| :: ConfigUuid(configs[i]))
         == {ConfigUuid(configs[0]), ConfigUuid(configs[1]), ConfigUuid(configs[2])}
  {
    var keys := set i | 0 <= i < |configs| :: ConfigUuid(configs[i]);
    var three := {ConfigUuid(configs[0]), ConfigUuid(configs[1]), ConfigUuid(configs[2])};
    forall k | k in keys
      ensures k in three
    {
      var i :| 0 <= i < 3 && k == ConfigUuid(configs[i]);
      assert i == 0 || i == 1 || i == 2;
    }
    assert ConfigUuid(configs[0]) in keys && ConfigUuid(configs[1]) in keys && ConfigUuid(configs[2]) in keys;
  }

  /** Each config names its own characteristic's UUID, and no two the same */
  lemma ConfigUuids(u: AppUuids)
    requires Usable(u)
    ensures ConfigUuidsWellFormed(Configs(u))
    ensures ConfigUuid(Configs(u)[0]) == u.notify
    ensures ConfigUuid(Configs(u)[1]) == u.read
    ensures ConfigUuid(Configs(u)[2]) == u.write
    ensures DistinctUuids(Configs(u))
  {
  }

  /** Registering the three configs on a fresh advertiser files exactly their three handles */
  lemma ConfigsRegistered(u: AppUuids)
    requires Usable(u)
    ensures ConfigUuidsWellFormed(Configs(u))
    ensures var m := AddServiceToManager(Initial, u.service, Configs(u)).server.characteristics;
      && m.Keys == {u.notify, u.read, u.write}
      && m[u.notify] == MakeCharacteristic(Configs(u)[0], HandleId(0, 0))
      && m[u.read] == MakeCharacteristic(Configs(u)[1], HandleId(0, 1))
      && m[u.write] == MakeCharacteristic(Configs(u)[2], HandleId(0, 2))
  {
    var configs := Configs(u);
    ConfigUuids(u);
    RegisterDistinct(Initial, u.service, configs, 0);
    RegisterDistinct(Initial, u.service, configs, 1);
    RegisterDistinct(Initial, u.service, configs, 2);
    RegisteredKeys(Initial, u.service, configs);
    ThreeKeys(configs);
  }

  /** Adding the service registers exactly the three handles under their canonical keys */
  lemma AddServiceRegistersThreeHandles(u: AppUuids)
    requires Usable(u)
    ensures WellFormed(u.service) && EntryUuidsWellFormed(Entries(u))
    ensures var r := AddServiceStep(Initial, u.service, Entries(u));
      && r.server.serviceUuids == [u.service]
      && r.server.characteristics.Keys == {u.notify, u.read, u.write}
      && r.server.characteristics[u.notify] == NotifyHandle(u)
      && r.server.characteristics[u.read] == ReadHandle(u)
      && r.server.characteristics[u.write] == WriteHandle(u)
      && r.server.readResponses == map[] && r.server.listener == None
  {
    EntriesParse(u);
    ConfigHandles(u);
    CanonicalFixedPoint(u.service);
    ConfigsRegistered(u);
  }

  /** A run that starts with an enabled step is that step followed by the run of the rest */
  lemma RunCons(s: Server, op: Op, rest: seq<Op>)
    requires Enabled(s, op)
    ensures Run(s, [op] + rest) == Prefixed(Apply(s, op).calls, Run(Apply(s, op).server, rest))
  {
    assert ([op] + rest)[0] == op && ([op] + rest)[1..] == rest;
  }

  /** Caching the read value and setting the listener on the registered server */
  lemma CacheAndListen(u: AppUuids, s: Server)
    requires s.readResponses == map[] && s.listener == None
    ensures Run(s, [SetReadValueOp(u.read, InitialReadValue), SetListenerOp(AppListener)])
         == Finished(s.(readResponses := map[u.read := InitialReadValue], listener := Some(AppListener)), [])
  {
    var s2 := SetReadValue(s, u.read, InitialReadValue).server;
    RunCons(s, SetReadValueOp(u.read, InitialReadValue), [SetListenerOp(AppListener)]);
    RunCons(s2, SetListenerOp(AppListener), []);
    assert [SetListenerOp(AppListener)] + [] == [SetListenerOp(AppListener)];
  }

  /** The configuration is the service step followed by the two steps that make no calls */
  lemma ConfigureOpsSplit(u: AppUuids)
    ensures ConfigureOps(u)
         == [AddServiceOp(u.service, Entries(u))] + [SetReadValueOp(u.read, InitialReadValue), SetListenerOp(AppListener)]
  {
  }

  /** The run of the configuration: the service step, then two steps that make no calls */
  lemma ConfigureRun(u: AppUuids)
    requires Usable(u)
    ensures WellFormed(u.service) && EntryUuidsWellFormed(Entries(u))
    ensures var step := AddServiceStep(Initial, u.service, Entries(u));
      Run(Initial, ConfigureOps(u))
        == Finished(step.server.(readResponses := map[u.read := InitialReadValue], listener := Some(AppListener)), step.calls)
  {
    EntriesParse(u);
    ConfigureOpsSplit(u);
    var op := AddServiceOp(u.service, Entries(u));
    var step := AddServiceStep(Initial, u.service, Entries(u));
    assert Apply(Initial, op) == step;
    RunCons(Initial, op, [SetReadValueOp(u.read, InitialReadValue), SetListenerOp(AppListener)]);
    CacheAndListen(u, step.server);
    assert step.calls + [] == step.calls;
  }

  /** Configuring a fresh advertiser never traps and reaches the configured state */
  lemma ConfigureReachesConfigured(u: AppUuids)
    requires Usable(u)
    ensures Run(Initial, ConfigureOps(u)).Finished?
    ensures Configured(u, Run(Initial, ConfigureOps(u)).server)
  {
    ConfigureRun(u);
    AddServiceRegistersThreeHandles(u);
  }

  /** The configuration adds one service, the app's */
  lemma ConfigureAddsOneService(u: AppUuids)
    requires Usable(u)
    ensures AddedServices(ConfigureOps(u)) == [u.service]
  {
    UppercasedFixedPoint(u.service);
    var ops := ConfigureOps(u);
    assert ops[1..][1..][1..] == [];
    assert AddedServices(ops[1..][1..]) == [];
    assert AddedServices(ops[1..]) == [];
  }

  /** The advertisement names the one service the app added */
  lemma ScanAdvertisesTheService(u: AppUuids)
    requires Usable(u)
    ensures Run(Initial, ScanOps(u)).Finished?
    ensures var calls := Run(Initial, ScanOps(u)).calls;
      |calls| >= 1 && calls[|calls| - 1] == StartAdvertising(DeviceName, [u.service])
  {
    ConfigureReachesConfigured(u);
    AdvertisesEveryAddedService(ConfigureOps(u), DeviceName);
    ConfigureAddsOneService(u);
  }

  /**
   Pressing Scan again configures again: the second service's notify handle, a new object,
   replaces the first one under the notify key, so notifications reach only the centrals
   subscribed to the second service's characteristic
   */
  lemma RescanReplacesNotifyHandle(u: AppUuids, s: Server, text: string)
    requires Usable(u) && Configured(u, s)
    ensures WellFormed(u.service) && EntryUuidsWellFormed(Entries(u))
    ensures var r := AddServiceStep(s, u.service, Entries(u));
      && r.server.characteristics[u.notify] == NotifyHandle(u).(id := HandleId(1, 0))
      && SendNotifyValue(r.server, u.notify, text).calls[0].characteristic != NotifyHandle(u)
  {
    EntriesParse(u);
    ConfigUuids(u);
    ConfigHandles(u);
    RegisterDistinct(s, u.service, Configs(u), 0);
  }

  /** "#00FF00" is pure green */
  lemma InitialReadValueIsGreen()
    ensures HexStringToColor(InitialReadValue) == Rgb(0, 0xFF, 0)
  {
    var code := "00FF00";
    assert InitialReadValue == "#" + code;
    assert IsColorCode(code);
    ColorOfColorCode(code);
    GreenIsSpelled(code);
  }

  lemma GreenIsSpelled(code: string)
    requires code == "00FF00"
    ensures AllHexDigits(code) && SpelledColor(code) == Rgb(0, 0xFF, 0)
  {
    HexPairValue(code[..2], '0', '0');
    HexPairValue(code[2..4], 'F', 'F');
    HexPairValue(code[4..], '0', '0');
  }

  /** A central reading the read characteristic of a configured advertiser gets "#00FF00", pure green */
  lemma ReadCharacteristicServesGreen(u: AppUuids, s: Server, request: Request)
    requires Configured(u, s)
    requires request.characteristic.uuid == u.read
    ensures var calls := OnRead(s, request).calls;
      && |calls| == 1 && calls[0].Respond? && calls[0].request.value.Some?
      && Decode(calls[0].request.value.value) == InitialReadValue
      && HexStringToColor(Decode(calls[0].request.value.value)) == Rgb(0, 0xFF, 0)
  {
    InitialReadValueIsGreen();
  }

  /** Reads of the two other characteristics get no answer: nothing is cached for them */
  lemma OtherReadsGoUnanswered(u: AppUuids, s: Server, request: Request)
    requires Usable(u) && Configured(u, s)
    requires request.characteristic.uuid in {u.notify, u.write}
    ensures OnRead(s, request).calls == []
  {
  }

  // ---------------------------------------------------------------------------
  // onSendColorPressed and the listener
  // ---------------------------------------------------------------------------

  /** `onSendColorPressed`: notify subscribers of the notify characteristic of "#" and a fresh colour code */
  method OnSendColorPressed(s: Server) returns (r: Step)
    requires NotifyUuid in s.characteristics
    ensures r.server == s
    ensures |r.calls| == 1 && r.calls[0].UpdateValue?
    ensures r.calls[0].characteristic == s.characteristics[NotifyUuid]
    ensures var text := Decode(r.calls[0].value);
      && |text| == 7 && text[0] == '#' && IsColorCode(text[1..])
      && HexStringToColor(text) == SpelledColor(text[1..])
  {
    var palette := GenerateRandomPalette(1);
    var code := palette[0];
    var color := "#" + code;
    r := SendNotifyValue(s, NotifyUuid, color);
    assert color[1..] == code;
    ColorOfColorCode(code);
  }

  /** Sending a colour before configuring traps: the notify handle is not registered yet */
  lemma SendBeforeConfigureCrashes(u: AppUuids, text: string)
    ensures Run(Initial, [NotifyOp(u.notify, text)]).Crashed?
  {
  }

  /**
   The background colour after the listener has seen a trace: the colour of the last
   text dispatched to the app's listener, or `current` if there is none.
   */
  function Background(current: Color, calls: seq<Call>): Color
    decreases |calls|
  {
    if calls == [] then current
    else
      var next := if calls[0].Dispatch? && calls[0].listener == AppListener then HexStringToColor(calls[0].text) else current;
      Background(next, calls[1..])
  }

  /** The last text of a trace: from its tail if the tail has one, else from its first call */
  lemma LastDispatched(calls: seq<Call>)
    requires calls != []
    ensures var texts, later := Dispatched(calls), Dispatched(calls[1..]);
      && (texts == [] <==> later == [] && !calls[0].Dispatch?)
      && (later != [] ==> texts[|texts| - 1] == later[|later| - 1])
      && (later == [] && calls[0].Dispatch? ==> texts[|texts| - 1] == calls[0].text)
  {
    var head := if calls[0].Dispatch? then [calls[0].text] else [];
    assert Dispatched(calls) == head + Dispatched(calls[1..]);
  }

  /** The background is set only by the listener: it is the colour of the last text it was handed */
  lemma {:induction false} BackgroundIsLastDispatched(current: Color, calls: seq<Call>)
    requires forall c :: c in calls && c.Dispatch? ==> c.listener == AppListener
    ensures var texts := Dispatched(calls);
      Background(current, calls) == if texts == [] then current else HexStringToColor(texts[|texts| - 1])
    decreases |calls|
  {
    if calls != [] {
      var rest := calls[1..];
      assert forall c :: c in rest ==> c in calls;
      assert calls[0] in calls;
      var next := if calls[0].Dispatch? then HexStringToColor(calls[0].text) else current;
      assert Background(current, calls) == Background(next, rest);
      BackgroundIsLastDispatched(next, rest);
      LastDispatched(calls);
    }
  }

  /**
   Once configured, a batch of writes repaints the background with the colour of the last
   value written, and every request is answered.
   */
  lemma WritesRepaintBackground(u: AppUuids, s: Server, current: Color, requests: seq<Request>)
    requires Configured(u, s)
    ensures var r := OnWrite(s, requests);
      var texts := WrittenTexts(requests);
      && Answered(r.calls) == requests
      && Background(current, r.calls) == if texts == [] then current else HexStringToColor(texts[|texts| - 1])
  {
    OnWriteAnswersEveryRequest(s, requests);
    OnWriteDispatchesWrittenTexts(s, requests);
    OnWriteCallsOnlyCurrentListener(s, requests);
    BackgroundIsLastDispatched(current, OnWrite(s, requests).calls);
  }
}
