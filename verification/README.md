# BLEColorSimulator in Dafny

This project models the iOS app "RandomColorBleServer" from BLEColorSimulator. The app is a
Bluetooth LE peripheral. It has one GATT service with three characteristics:

- a notify characteristic, which pushes a random colour code such as `#3FA09C` to subscribers;
- a read characteristic, which always answers `#00FF00`;
- a write characteristic, which repaints the app's background with whatever colour code a
  central writes.

The model has three parts, and each comes with the properties proved about it.

- **Characteristic configs** (`characteristic_config.dfy`). `CharactaristicConfig` turns
  property and permission tokens into flag sets.
  - Each flag is present exactly when its token occurs.
  - Unknown or wrongly cased tokens are ignored.
  - Order and repetition do not matter, and concatenation gives the union.
  - `uuid` is defined only for well-formed UUID text.
- **The advertiser** (`ble_advertiser.dfy`, `advertiser_session.dfy`). The GATT server
  bookkeeping of `BleAdvertiser` is an immutable record holding:
  - the service UUID list;
  - the characteristic handles keyed by UUID text. Each handle carries an object identity:
    which `addServiceToManager` call built it and its position in that call. A second
    registration of the same config is therefore a different object, as a new
    `CBMutableCharacteristic` is in the app;
  - the cached read responses;
  - the single listener slot.

  Every operation and delegate callback is a step function. It returns the new state and
  the calls made outward, in order: to the radio stack (`AddService`, `StartAdvertising`,
  `Respond`, `UpdateValue`) or to the listener (`Dispatch`). A session is a sequence of
  steps. A failed force-unwrap ends it as `Crashed`.
- **Colours and the app wiring** (`hex_color.dfy`, `random_color.dfy`, `app_constants.dfy`,
  `color_server.dfy`).
  - `hexStringToUIColor` normalises, guards on length, scans hexadecimal and splits with
    masks and shifts.
  - The random colour generator is modelled with nondeterministic draws.
  - `configureCharactaristicsAndServices` is proved to reach the expected configured state
    from a fresh advertiser.
  - The send button, the read characteristic and the listener are related back to colours.

Supporting modules:

- `wrappers.dfy`: `Option`.
- `text.dfy`: character classes, ASCII upper-casing and white-space trimming.
- `uuid.dfy`: 8-4-4-4-12 UUID text and its canonical upper-case spelling.
- `utf8.dfy`: a UTF-8 encoder and decoder following section 3 of RFC 3629, with
  `Decode(Encode(s)) == s` proved.

Three force-unwraps and one silent miss in the code decide what the model does at the edges:

- `eventDispatcher` is an implicitly unwrapped optional (BleAdvertiser.swift:31). A write
  that carries a value while no listener is set therefore traps when the dispatcher is
  called (BleAdvertiser.swift:140). `OnWrite` requires a listener in that case, and a
  session ends `Crashed`.
- A read of a characteristic with no cached value makes no call at all: the `if let` at
  BleAdvertiser.swift:148-151 has no `else`. `OnRead` returns no calls then.
- `sendNotifyValue` force-unwraps the handle it looks up (BleAdvertiser.swift:160).
  Notifying a characteristic that was never registered traps. `SendNotifyValue` requires
  the key, and a session ends `Crashed`.
- `UUID(uuidString:)` is force-unwrapped (CharacteristicConfig.swift:17-19,
  BleAdvertiser.swift:94). Malformed UUID text traps. `ConfigUuid` and
  `AddServiceToManager` require well-formed text.

## Model

| member | source | states |
|---|---|---|
| CharacteristicConfig.Collect | CharacteristicConfig.swift:24-35 | a flag is in the collected set exactly when some token of the list maps to it |
| CharacteristicConfig.PropertyFlags | CharacteristicConfig.swift:21-38 | notify, write and read are each present exactly when "NOTIFY", "WRITE" or "READ" occurs among the tokens |
| CharacteristicConfig.PermissionFlags | CharacteristicConfig.swift:40-55 | readable and writeable are each present exactly when "READABLE" or "WRITABLE" occurs among the tokens |
| CharacteristicConfig.ConfigUuid | CharacteristicConfig.swift:17-19 | defined only for well-formed UUID text; the result is canonical, and canonical input comes back unchanged |
| CharacteristicConfig.CollectAppend | CharacteristicConfig.swift:24-35 | the flags of a concatenated token list are the union of the flags of the two parts |
| CharacteristicConfig.CollectDependsOnlyOnTokenSet | CharacteristicConfig.swift:24-35 | two token lists with the same tokens give the same flags |
| CharacteristicConfig.CollectSkipsUnknown | CharacteristicConfig.swift:32-33 | a token without a flag contributes nothing, wherever it stands |
| CharacteristicConfig.PropertyFlagsAppend | CharacteristicConfig.swift:24-35 | property flags of a + b are those of a united with those of b |
| CharacteristicConfig.PermissionFlagsAppend | CharacteristicConfig.swift:43-52 | permission flags of a + b are those of a united with those of b |
| CharacteristicConfig.PropertyFlagsIgnoreOrderAndRepetition | CharacteristicConfig.swift:24-35 | reordering or repeating property tokens does not change the flags |
| CharacteristicConfig.PermissionFlagsIgnoreOrderAndRepetition | CharacteristicConfig.swift:43-52 | reordering or repeating permission tokens does not change the flags |
| CharacteristicConfig.PropertyFlagsSkipUnknown | CharacteristicConfig.swift:25-33 | inserting any token other than the three property tokens leaves the flags unchanged |
| CharacteristicConfig.PermissionFlagsSkipUnknown | CharacteristicConfig.swift:44-50 | inserting any token other than the two permission tokens leaves the flags unchanged |
| CharacteristicConfig.TokensAreCaseSensitive | CharacteristicConfig.swift:25-31 | lower-case and mixed-case spellings (and "WRITEABLE") set no flag |
| CharacteristicConfig.EmptyTokensGiveNoFlags | CharacteristicConfig.swift:22-37 | no tokens give no property and no permission flags |
| Uuid.Canonical | CharacteristicConfig.swift:17-19 | `UUID(uuidString:)!.uuidString` is canonical text of the same length |
| Uuid.CanonicalFixedPoint | RandomColorBleServer/BleAdvertiser.swift:108 | text is its own canonical spelling exactly when it is already canonical |
| Uuid.CanonicalIdempotent | RandomColorBleServer/BleAdvertiser.swift:108 | canonicalising twice is canonicalising once |
| Utf8.Encode | RandomColorBleServer/BleAdvertiser.swift:149 | the UTF-8 form of a text takes between one and four bytes per character |
| Utf8.Decode | RandomColorBleServer/BleAdvertiser.swift:140 | decoding yields at most one character per byte |
| Utf8.DecodeEncode | RandomColorBleServer/BleAdvertiser.swift:137-163 | text sent as UTF-8 decodes back to the same text |
| Utf8.EncodeAppend | RandomColorBleServer/BleAdvertiser.swift:159 | the encoding of a concatenation is the concatenation of the encodings |
| Text.Uppercased | RandomColorBleServer/ViewController.swift:91 | upper-casing keeps the length and position of every character, raising each lower-case ASCII letter by one case and keeping all other characters |
| Text.UppercasedHasNoLowerLetter | RandomColorBleServer/ViewController.swift:91 | no lower-case letter is left after upper-casing |
| Text.UppercasedFixedPoint | RandomColorBleServer/ViewController.swift:14-21 | upper-casing leaves text unchanged exactly when it has no lower-case letter |
| Text.Trimmed | RandomColorBleServer/ViewController.swift:91 | the trimmed text is a slice of the input that neither starts nor ends with white space, with only white space cut off either side |
| Text.TrimmedNoOp | RandomColorBleServer/ViewController.swift:91 | text without white space at either end is left alone |
| BleAdvertiser.InitialIsValid | RandomColorBleServer/BleAdvertiser.swift:26-49 | the freshly constructed advertiser files every handle under its own canonical UUID, and every handle was built by a service already added |
| BleAdvertiser.SetListener | RandomColorBleServer/BleAdvertiser.swift:51-53 | the slot holds the new listener; nothing else changes and no call is made |
| BleAdvertiser.StartAdvertisingStep | RandomColorBleServer/BleAdvertiser.swift:58-65 | one advertise call with the device name and exactly the current service UUIDs; no state change |
| BleAdvertiser.ParseEntry | RandomColorBleServer/BleAdvertiser.swift:73-87 | an entry yields a config exactly when uuid is a string and properties and permissions are string arrays; the config carries those values and no initial value |
| BleAdvertiser.ValidConfigs | RandomColorBleServer/BleAdvertiser.swift:70-89 | every kept config comes from a well-typed entry, every well-typed entry is kept, and none has an initial value |
| BleAdvertiser.ValidConfigsAppend | RandomColorBleServer/BleAdvertiser.swift:72-88 | filtering distributes over concatenation, so kept configs stay in input order |
| BleAdvertiser.ValidConfigsSingle | RandomColorBleServer/BleAdvertiser.swift:73-87 | a single entry is kept exactly when it is well typed |
| BleAdvertiser.MakeService | RandomColorBleServer/BleAdvertiser.swift:94-111 | a primary service under the canonical UUID, with one fresh handle per config in order, identified by the service's ordinal and its position, carrying that config's UUID, flags and initial value |
| BleAdvertiser.Register | RandomColorBleServer/BleAdvertiser.swift:100-110 | the keys afterwards are the earlier keys plus the UUID of every handle |
| BleAdvertiser.RegisterKeepsOthers | RandomColorBleServer/BleAdvertiser.swift:108 | a key no handle names keeps its handle |
| BleAdvertiser.RegisterLastWins | RandomColorBleServer/BleAdvertiser.swift:108 | the last handle with a given UUID, that very object, is the one filed under it |
| BleAdvertiser.AddServiceToManager | RandomColorBleServer/BleAdvertiser.swift:93-113 | the canonical service UUID is appended once after the earlier ones; the read cache and listener are unchanged; exactly one add-service call is made |
| BleAdvertiser.AddServiceToManagerResolvesEveryConfig | RandomColorBleServer/BleAdvertiser.swift:100-110 | every config's canonical UUID is a key afterwards |
| BleAdvertiser.AddServiceToManagerKeys | RandomColorBleServer/BleAdvertiser.swift:100-110 | earlier keys stay, and every new key is some config's canonical UUID |
| BleAdvertiser.AddServiceToManagerKeepsOtherHandles | RandomColorBleServer/BleAdvertiser.swift:100-110 | handles under keys no config names are unchanged |
| BleAdvertiser.AddServiceToManagerLastWriteWins | RandomColorBleServer/BleAdvertiser.swift:100-110 | with duplicate UUIDs, the handle this call built for the last config naming a key is the one filed, identified by this call's ordinal and that config's position |
| BleAdvertiser.AddServiceToManagerReplacesHandles | RandomColorBleServer/BleAdvertiser.swift:100-110 | registering a key that already resolves files the new service's handle under it, a different object from the one filed before |
| BleAdvertiser.AddServiceToManagerPreservesValid | RandomColorBleServer/BleAdvertiser.swift:93-113 | registration keeps service UUIDs canonical, every handle under its own canonical UUID, and every handle's builder among the services added |
| BleAdvertiser.AddServiceStep | RandomColorBleServer/BleAdvertiser.swift:70-91 | the service list grows by the canonical service UUID, the read cache and listener are kept, and one add-service call is made for that UUID with one characteristic per well-typed entry and never more than there are entries |
| BleAdvertiser.AddServiceStepKeys | RandomColorBleServer/BleAdvertiser.swift:70-113 | afterwards a key resolves exactly when it resolved before or is the canonical UUID of a well-typed entry |
| BleAdvertiser.AddServiceRegistersWellTypedEntries | RandomColorBleServer/BleAdvertiser.swift:70-113 | every well-typed entry's UUID resolves afterwards, and no registered handle has an initial value |
| BleAdvertiser.OnWrite | RandomColorBleServer/BleAdvertiser.swift:137-144 | callable only with a listener when some request carries a value; the state is unchanged; at least one call per request |
| BleAdvertiser.OnWriteAnswersEveryRequest | RandomColorBleServer/BleAdvertiser.swift:137-144 | the answered requests are exactly the batch, in delivery order, each once with success |
| BleAdvertiser.OnWriteDispatchesWrittenTexts | RandomColorBleServer/BleAdvertiser.swift:138-141 | the listener receives the decoded value of every request carrying one, in delivery order |
| BleAdvertiser.OnWriteCallsOnlyCurrentListener | RandomColorBleServer/BleAdvertiser.swift:138-143 | every call is an answer or a dispatch to the listener currently in the slot |
| BleAdvertiser.OnWriteForwardsBeforeAnswering | RandomColorBleServer/BleAdvertiser.swift:138-143 | each forwarded text is followed at once by the success answer to a request carrying that text |
| BleAdvertiser.OnRead | RandomColorBleServer/BleAdvertiser.swift:146-152 | one success answer carrying the cached text exactly when the UUID text is cached, otherwise no call; the state is unchanged |
| BleAdvertiser.SendNotifyValue | RandomColorBleServer/BleAdvertiser.swift:157-163 | requires a registered key; one update call to that handle whose bytes decode to the text; the state is unchanged |
| BleAdvertiser.SetReadValue | RandomColorBleServer/BleAdvertiser.swift:168-170 | only the given key changes, stored as given; handles, services and listener are unchanged; no call |
| BleAdvertiser.ReadAfterSetReadValue | RandomColorBleServer/BleAdvertiser.swift:146-170 | a read right after caching a text under the characteristic's UUID is answered with that text |
| BleAdvertiser.SetReadValueLeavesOtherReads | RandomColorBleServer/BleAdvertiser.swift:146-170 | caching under one key does not change how reads of other keys are answered |
| BleAdvertiser.SetReadValueIdempotent | RandomColorBleServer/BleAdvertiser.swift:168-170 | caching the same text twice is caching it once |
| BleAdvertiser.LowerCaseReadKeyIsNeverServed | RandomColorBleServer/BleAdvertiser.swift:147-169 | a value cached under a spelling with a lower-case letter is never served, because reads look up canonical text |
| BleAdvertiser.NotifyKeyIsCanonical | RandomColorBleServer/BleAdvertiser.swift:108-160 | only canonical UUID text can name a registered handle |
| AdvertiserSession.Apply | RandomColorBleServer/BleAdvertiser.swift:51-170 | one step: only setListener changes the slot, only addService extends the service list (by its canonical UUID), and validity is kept |
| AdvertiserSession.RunAppend | RandomColorBleServer/BleAdvertiser.swift:137-170 | running two sessions back to back is running their concatenation |
| AdvertiserSession.RunCrashStops | RandomColorBleServer/BleAdvertiser.swift:137-170 | once a sequence traps, appending anything to it changes neither the outcome nor the calls made |
| AdvertiserSession.RunPreservesValid | RandomColorBleServer/BleAdvertiser.swift:51-170 | every session that finishes keeps the state valid |
| AdvertiserSession.RunServiceUuids | RandomColorBleServer/BleAdvertiser.swift:94-96 | the service list grows by exactly the added services' canonical UUIDs, in order |
| AdvertiserSession.AdvertisesEveryAddedService | RandomColorBleServer/BleAdvertiser.swift:58-65 | advertising after a setup names exactly the services the setup added, in order |
| AdvertiserSession.RunDispatchesToCurrentListener | RandomColorBleServer/BleAdvertiser.swift:137-144 | without a further setListener, every forwarded write reaches the listener in the slot |
| AdvertiserSession.NewestListenerReceivesEverything | RandomColorBleServer/BleAdvertiser.swift:51-53 | after setListener(l), only l hears of writes until the slot is replaced |
| AdvertiserSession.NotifyOnNonCanonicalKeyCrashes | RandomColorBleServer/BleAdvertiser.swift:157-163 | notifying under text that is not canonical UUID text always traps |
| AdvertiserSession.WriteBatchExample | RandomColorBleServer/BleAdvertiser.swift:137-144 | a batch writing "a", "b", "c" reaches the listener in that order and all three are answered |
| HexColor.ExtractField | RandomColorBleServer/ViewController.swift:105-106 | masking with n one-bits at bit k and shifting right by k gives the n-bit field of the value at bit k |
| HexColor.BitAndLowMask | RandomColorBleServer/ViewController.swift:107 | masking with n low one-bits keeps the value modulo 2^n |
| HexColor.Channels | RandomColorBleServer/ViewController.swift:104-107 | the three masked and shifted channels are bytes 2, 1 and 0 of the value |
| HexColor.ChannelsRecombine | RandomColorBleServer/ViewController.swift:104-107 | for a 24-bit value the channels are below 256 and recombine to the value |
| HexColor.ChannelsOfBytes | RandomColorBleServer/ViewController.swift:104-107 | splitting a value built from three bytes gives back those bytes |
| HexColor.Accumulate | RandomColorBleServer/ViewController.swift:102 | the scanned value never exceeds the largest UInt64 |
| HexColor.AccumulateExact | RandomColorBleServer/ViewController.swift:102 | while no overflow can occur, the scanner shifts in each digit exactly |
| HexColor.ScanHexInt64 | RandomColorBleServer/ViewController.swift:101-102 | the scanned value fits in a UInt64 |
| HexColor.ScanHexDigits | RandomColorBleServer/ViewController.swift:101-102 | one to sixteen hex digits scan to their positional value |
| HexColor.Normalised | RandomColorBleServer/ViewController.swift:91-95 | the result is the trimmed text with one leading '#' dropped, character by character upper-cased; no lower-case letter remains |
| HexColor.HexStringToColor | RandomColorBleServer/ViewController.swift:90-110 | gray exactly when the normalised text is not six characters long; otherwise three channels below 256 |
| HexColor.HexStringToColorValue | RandomColorBleServer/ViewController.swift:90-110 | any text that trims, upper-cases and loses one '#' down to six hex digits is painted with the colour those digits spell, two per channel, red first, whatever their case or surrounding white space |
| HexColor.NormalisedColorCode | RandomColorBleServer/ViewController.swift:91-95 | "#" and six upper-case hex digits normalise to the six digits |
| HexColor.ColorCodeScans | RandomColorBleServer/ViewController.swift:97-107 | "#RRGGBB" is split from the six-digit number RRGGBB |
| HexColor.ColorOfColorCode | RandomColorBleServer/ViewController.swift:90-110 | the colour of "#RRGGBB" is red RR, green GG and blue BB, read as hex numbers |
| HexColor.ColorCodeIsNeverGray | RandomColorBleServer/ViewController.swift:93-99 | a generated code with its '#' passes the length guard |
| HexColor.DoubleHashIsGray | RandomColorBleServer/ViewController.swift:93-99 | only one '#' is removed: "##ABCDEF" keeps seven characters and is gray |
| RandomColor.DigitString | RandomColorBleServer/ViewController.swift:83 | `String(n)` of a number below ten is the one decimal digit worth n |
| RandomColor.CharacterFor | RandomColorBleServer/ViewController.swift:76-87 | nil exactly when the coin is 2 or more; otherwise one upper-case hex digit, decimal exactly for coin 0, worth the second draw (plus ten for a letter) |
| RandomColor.CharacterForCovers | RandomColorBleServer/ViewController.swift:76-87 | every digit of 0-9A-F is produced by some pair of draws |
| RandomColor.CharacterForInjective | RandomColorBleServer/ViewController.swift:80-85 | different pairs of draws produce different characters |
| RandomColor.RandomCharacter | RandomColorBleServer/ViewController.swift:76-87 | never nil, and always one character of 0-9A-F |
| RandomColor.ConcatOfCharacters | RandomColorBleServer/ViewController.swift:114-120 | joining one-character strings gives the string of those characters, in order |
| RandomColor.ConcatAppend | RandomColorBleServer/ViewController.swift:114-120 | joining two arrays one after the other is joining each and concatenating |
| RandomColor.CharacterArrayToHexString | RandomColorBleServer/ViewController.swift:114-120 | the loop computes the in-order join of the strings ("" for none) |
| RandomColor.GenerateRandomColor | RandomColorBleServer/ViewController.swift:123-129 | exactly six characters, each from 0-9A-F |
| RandomColor.GenerateRandomPalette | RandomColorBleServer/ViewController.swift:132-138 | requires amount >= 1 (the range traps otherwise); exactly amount colour codes |
| AppConstants.SpelledUuid | RandomColorBleServer/ViewController.swift:14-21 | 8-4-4-4-12 hex groups joined by hyphens are well-formed UUID text whose upper-casing is canonical |
| AppConstants.ServiceUuidIsCanonical | RandomColorBleServer/ViewController.swift:14-15 | the upper-cased service UUID constant is canonical UUID text |
| AppConstants.NotifyUuidIsCanonical | RandomColorBleServer/ViewController.swift:16-17 | the upper-cased notify UUID constant is canonical UUID text |
| AppConstants.ReadUuidIsCanonical | RandomColorBleServer/ViewController.swift:18-19 | the upper-cased read UUID constant is canonical UUID text |
| AppConstants.WriteUuidIsCanonical | RandomColorBleServer/ViewController.swift:20-21 | the upper-cased write UUID constant is canonical UUID text |
| AppConstants.AppIsUsable | RandomColorBleServer/ViewController.swift:14-21 | the four constants are canonical and the three characteristic UUIDs differ |
| ColorServer.EntriesParse | RandomColorBleServer/ViewController.swift:42-61 | the three dictionaries are all well typed and become the three configs, in order |
| ColorServer.ConfigHandles | RandomColorBleServer/ViewController.swift:44-60 | the handles get notify with readable and writeable, read with readable, and write with writeable |
| ColorServer.ConfigsRegistered | RandomColorBleServer/ViewController.swift:42-61 | a fresh advertiser files exactly the three handles, each under its own UUID |
| ColorServer.AddServiceRegistersThreeHandles | RandomColorBleServer/ViewController.swift:42-61 | adding the service on a fresh advertiser lists the service and files exactly the three expected handles |
| ColorServer.ConfigureRun | RandomColorBleServer/ViewController.swift:41-71 | the configuration does not trap; it caches the read value and sets the listener after adding the service |
| ColorServer.ConfigureReachesConfigured | RandomColorBleServer/ViewController.swift:41-71 | configuring a fresh advertiser does not trap and reaches the configured state |
| ColorServer.ConfigureAddsOneService | RandomColorBleServer/ViewController.swift:42-43 | the configuration adds exactly one service, the app's |
| ColorServer.ScanAdvertisesTheService | RandomColorBleServer/ViewController.swift:36-39 | scanning ends with one advertisement as "iPhone" naming exactly the app's service |
| ColorServer.RescanReplacesNotifyHandle | RandomColorBleServer/ViewController.swift:36-39 | pressing Scan again files the second service's notify handle under the notify key, so a later notification goes to that object and not to the first service's |
| ColorServer.InitialReadValueIsGreen | RandomColorBleServer/ViewController.swift:63-66 | "#00FF00" is red 0, green 255, blue 0 |
| ColorServer.ReadCharacteristicServesGreen | RandomColorBleServer/ViewController.swift:63-66 | once configured, a read of the read characteristic is answered with "#00FF00", pure green |
| ColorServer.OtherReadsGoUnanswered | RandomColorBleServer/ViewController.swift:63-66 | reads of the notify and write characteristics get no answer |
| ColorServer.OnSendColorPressed | RandomColorBleServer/ViewController.swift:28-34 | one update to the notify handle whose text is '#' plus a six-digit code, which the receiver parses into that code's colour |
| ColorServer.SendBeforeConfigureCrashes | RandomColorBleServer/ViewController.swift:28-34 | pressing send before configuring traps, since no handle is registered |
| ColorServer.BackgroundIsLastDispatched | RandomColorBleServer/ViewController.swift:68-70 | the background is the colour of the last text handed to the listener, or unchanged if none |
| ColorServer.WritesRepaintBackground | RandomColorBleServer/ViewController.swift:68-70 | once configured, a write batch answers every request and repaints with the colour of the last value written |

## Left out

- CoreBluetooth itself: the peripheral manager, services, requests and their delivery are
  not modelled. Only the calls made to the radio stack are recorded, as trace events.
- `peripheralManagerDidUpdateState` (BleAdvertiser.swift:118-135) is not modelled. It only
  logs the radio state and changes nothing.
- The singleton `shared` and the private initialiser (BleAdvertiser.swift:16, 43-49, 175-180)
  are not modelled. The model starts from the empty state `Initial` instead.
- MinLog.swift is not part of this model. It only prints, including the message for a
  dropped config entry.
- UIKit is not modelled. This covers `UIColor`, the outlets, `viewDidLoad`, and the division
  of each channel by 255.0 into `CGFloat`. Colours stop at integer channels. The
  background is a function of the trace (`ColorServer.Background`), not a view property.
- Closures are not modelled as code. A listener is an identity (`Listener`), and what the
  app's closure does is given by `Background`.
- Randomness: `arc4random_uniform(n)` is a nondeterministic choice of a value below n. The
  pure step `CharacterFor` takes the drawn values as parameters.
- Text.Uppercased: maps ASCII letters only. `String.uppercased()` also maps other scripts
  and can change length: "ß" becomes "SS", and the ligature "\u{FB00}" becomes "FF". The
  app's own UUIDs and the colour codes it sends are ASCII, so nothing changes for them. A
  central, however, can write any text, and there the model can disagree with the app.
- Text.Trimmed: uses a fixed list of Unicode white-space and newline scalars in place of
  Foundation's character set.
- HexColor.HexStringToColor: counts Unicode scalars where Swift's `count` counts grapheme
  clusters. The two agree on text without combining marks. Because upper-casing is
  ASCII-only (see Text.Uppercased), the colour of written text with non-ASCII letters that
  Swift upper-cases to hex digits is not modelled. The app paints "#\u{FB00}0000" red and
  "#ßABCD" black, but the model gives gray for both, since five characters remain.
- HexColor.ScanHexInt64: follows the Foundation scanner only in outline. It skips leading
  white space, takes an optional "0x" or "0X", reads the longest run of hex digits and
  saturates at the largest UInt64. Every six-character normalised text reaches it,
  including "GGGGGG", " ABCDE" and "0X12AB". Only the bound holds for all of them. Exact
  values are proved only for six hex digits.
- Utf8.Decode: replaces each ill-formed byte by U+FFFD. Swift's `String(decoding:as:)`
  replaces each maximal ill-formed subsequence. The two agree on the well-formed UTF-8 that
  the app itself sends.
- Uuid.Canonical: checks only the 8-4-4-4-12 shape and upper-cases. Foundation's parser
  accepts the same shape. Other inputs are outside the model, since the source
  force-unwraps. The model also takes `CBUUID.uuidString` to be the full 36-character
  upper-case text. CoreBluetooth reports a UUID built on the Bluetooth Base UUID
  (xxxxxxxx-0000-1000-8000-00805F9B34FB) in its short 16- or 32-bit form instead. For such
  keys, `Canonical`'s length clause and the key lookups in `NotifyKeyIsCanonical`,
  `NotifyOnNonCanonicalKeyCrashes` and `LowerCaseReadKeyIsNeverServed` do not describe the
  app. The app's own four UUIDs are not of this kind.
- AdvertiserSession.Run: a step that traps records none of its own calls, even though
  `didReceiveWrite` may have dispatched and answered earlier requests of the batch before
  the trap.
- ColorServer.OnSendColorPressed: requires the notify handle to be registered. This is the
  source's force-unwrap. `SendBeforeConfigureCrashes` covers the other case.
