# esp-mqtt-logger: the sequential core, modelled in Dafny

The program in `app.py` is a MicroPython agent. It polls DS18x20 one-wire
temperature sensors, keeps the last reading of each sensor in a shared
dictionary keyed by the sensor's hex address, and publishes every new or
changed reading to an MQTT broker on topic `<prefix>/<ADDRESS>`.

This project models the sequential logic inside that program:

- `hex.dfy` (module `Hex`): `bytes_to_hex`. Each byte becomes two uppercase
  Base16 digits (the alphabet of section 8 of RFC 4648), and the pieces are
  joined by an optional separator. A decoder `HexToBytes` is the reference
  partner. It is proved to invert the unseparated rendering in both
  directions, which makes sensor addresses and client ids injective.
- `config.dfy` (module `Config`): the configuration defaults and the shallow
  `dict.update` with the decoded `config.json`. Also the broker client
  settings: the library defaults updated with the `mqtt` dict, the client id
  `ESP_` + hex(MAC), and the connect hook.
- `store.dfy` (module `Store`): what one poll cycle does to the reading store,
  written as the specification function `ApplyReadings`. It is proved that a
  cycle adds exactly the scanned addresses, that the last write wins, and that
  other keys are untouched.
- `publish.dfy` (module `Publish`): change selection. `Changed` is the set of
  addresses that are new or hold a different value, by exact equality.
  `Expected` is the set of messages for them. `SelectChanges` is the loop over
  the store's items, proved to emit exactly the expected messages, each once.
- `app.dfy` (module `App`): the `Application` object. Its `data` field is the
  store, which `PollCycle` updates in place. `Snapshot` is `data.copy()`, and
  `ChangedMessages` is the publishing half of `_send_data`. `SamplingRound`
  composes snapshot, poll cycle and selection, the way one publisher round
  sees one poll cycle during its sleep.
- `scenarios.dfy` (module `Scenarios`): the worked rounds (a new sensor
  published and an unchanged one not; no sensors; a message under a
  configuration that names a broker), what the publish lookups give on the
  default `mqtt` dict, and the consequence of the shallow configuration merge.

Sensor values are a type parameter `V` with equality. Their text form,
`'{}'.format(value)`, is a function parameter `show`. The readings of a cycle
are an input sequence of `(rom, value)` pairs. What the `try` block merged from `config.json`
is an input `Option`: the key/value pairs `update` applied before anything raised, or
None when nothing was applied. The device MAC and the
MQTT library's default settings are inputs too.

Two behaviours of the code worth knowing:

- Missing configuration fields do not all fall back to their defaults. The
  update is shallow, so a file `mqtt` object replaces the whole default
  `mqtt` dict. A file that gives only the broker address loses the default
  topic, qos and retain. Every round that has something to publish then fails
  on the missing key (`Scenarios.ShallowMergeDropsTopic`).
- The defaults alone never publish. Each supervisor round first looks up
  `config['mqtt']['server']` (app.py:56), and the default `mqtt` dict has no
  `server`, so the lookup raises and the round restarts before the publisher
  runs. Only a file `mqtt` dict can supply `server`, and by the shallow update
  it then replaces the default topic, qos and retain
  (`Config.BrokerAddressOnlyFromFile`).
- A failed sensor read is not recovered per address. `read_temp` has no `try`
  around it, so an exception ends the poller task. The model has no read-error
  path; see "Left out".

## Model

| member | source | states |
|---|---|---|
| `Hex.ByteToHex` | app.py:12 | `"%02X" % b` is exactly two uppercase hex digits, and they decode to the high and the low nibble of `b` |
| `Hex.JoinLength` | app.py:12 | joining n >= 1 two-character pieces gives 2n + \|sep\|·(n − 1) characters; no pieces give the empty string |
| `Hex.HexLength` | app.py:11-12 | `bytes_to_hex(data, sep)` has length 2·\|data\| + \|sep\|·(\|data\| − 1) for non-empty data, is empty for empty data, and has length 2·\|data\| with the default separator |
| `Hex.JoinAt` | app.py:12 | in a join of two-character pieces, piece i sits at offset i·(2 + \|sep\|) and each piece but the last is followed by one separator |
| `Hex.HexLayout` | app.py:11-12 | the separated rendering is the byte pieces joined by the separator: byte i's two digits at offset i·(2 + \|sep\|), the separator between neighbours |
| `Hex.UnseparatedCons` | app.py:12 | with the empty separator the rendering is the first byte's digits followed by the rendering of the rest (fixed width, no delimiters) |
| `Hex.HexCharset` | app.py:12 | every character of `bytes_to_hex(data)` is one of 0-9, A-F |
| `Hex.HexToBytes` | app.py:12 | the reference decoder: when it accepts a string, the string has two characters per decoded byte |
| `Hex.DecodeEncode` | app.py:11-12 | decoding `bytes_to_hex(data)` gives back `data` |
| `Hex.EncodeDecode` | app.py:11-12 | any string the decoder accepts is exactly the rendering of what it decodes to |
| `Hex.HexInjective` | app.py:11-12 | two byte strings have the same unseparated rendering if and only if they are equal |
| `Config.Update` | app.py:30 | `dict.update`: the keys are the union, every key of the update takes its new value, every other key keeps its old one |
| `Config.LoadConfigMerge` | app.py:18-34 | without a file the defaults stand; with one, each top-level file key overrides its default (a file `mqtt` replaces the whole default `mqtt` dict), every other default is kept, and ssid, password, ds_pin and mqtt are always present |
| `Config.BrokerAddress` | app.py:56 | the broker address lookup succeeds if and only if the configuration's `mqtt` entry is a dict holding `server`, and then gives that value |
| `Config.BrokerAddressOnlyFromFile` | app.py:21-30 | the lookup fails on the defaults with a missing `server`, and when it succeeds the file supplied the `mqtt` dict, which replaced the default one whole |
| `Config.ClientIdShape` | app.py:45 | the client id is `ESP_` followed by 2 uppercase hex digits per MAC byte, and distinct MACs give distinct ids |
| `Config.ClientConfig` | app.py:39-46 | the client settings exist if and only if the configuration's `mqtt` entry is a dict: the library defaults updated with it, plus `client_id` = `ESP_`+hex(MAC) and the connect hook; otherwise the error the constructor raises |
| `Store.AddressInjective` | app.py:103 | distinct ROM codes are stored under distinct addresses |
| `Store.ApplyKeys` | app.py:101-104 | after a cycle the store's keys are the old keys plus the scanned addresses; no key is removed |
| `Store.ApplyUntouched` | app.py:101-104 | an address no reading of the cycle maps to keeps its old value, or stays absent |
| `Store.ApplyLastWins` | app.py:101-104 | a scanned address holds the value of the last reading for it, whatever came before |
| `Publish.PublishSettings` | app.py:86-89 | publishing can read its settings if and only if `config['mqtt']` is a dict holding a string `topic`, a `qos` and a `retain`; the settings are those values |
| `Publish.TopicInjective` | app.py:86 | under one prefix, `prefix/address` topics of distinct addresses are distinct |
| `Publish.ExpectedIff` | app.py:81-89 | the message for an address of the current store (topic `prefix/address`, payload the value's text, configured qos and retain) is expected if and only if the address is absent from the snapshot or its value differs |
| `Publish.ExpectedCount` | app.py:81-89 | there are exactly as many expected messages as changed addresses |
| `Publish.NothingChanged` | app.py:79-82 | a store compared with an equal snapshot selects no address and publishes nothing |
| `Publish.SelectChanges` | app.py:81-90 | the loop over the store's items emits exactly the expected messages, none twice |
| `App.Application.constructor` | app.py:16-17 | a new application starts with an empty store and the given configuration |
| `App.Application.PollCycle` | app.py:98-105 | one poll cycle leaves the store equal to the old store with the readings applied in order; with no sensors the store is unchanged |
| `App.Application.Snapshot` | app.py:79 | the snapshot equals the store at the time it is taken |
| `App.Application.ChangedMessages` | app.py:81-90 | nothing changed: nothing is published; something changed and the mqtt settings are missing: the lookup error; settings present: exactly the expected messages, none twice |
| `App.NewApplication` | app.py:16-48 | constructing the application fails when the client settings cannot be built; otherwise the store is empty, the configuration is the merged one and the client settings are those of `ClientConfig` |
| `App.SamplingRound` | app.py:79-90 | a publisher round with one poll cycle during its sleep compares against the store from before the cycle: the store becomes the cycle's result and the messages are exactly those for addresses the cycle made new or changed, none twice |
| `App.ChangedAfterPoll` | app.py:79-104 | only addresses scanned in the cycle can be published; every scanned address is in the store afterwards |
| `App.RepeatedReadingsChangeNothing` | app.py:81-82 | readings that repeat the stored values leave the store as it was, so nothing is published |
| `Scenarios.DefaultPublishSettings` | app.py:21-25 | the publish lookups at app.py:86-89 on the default `mqtt` dict give `esp`, qos 1 and retain off |
| `Scenarios.ConfiguredMessage` | app.py:85-89 | with a file `mqtt` dict that names a broker and gives prefix `esp`, qos 1, retain off, the broker lookup succeeds and address 28FF1122 is sent on `esp/28FF1122` with the value's text, qos 1, retain off |
| `Scenarios.ScenarioAddresses` | app.py:103 | ROM codes 28 FF 11 22 and 28 FF 33 AA are stored under `28FF1122` and `28FF33AA` |
| `Scenarios.NewSensorOnlyPublished` | app.py:79-104 | a sensor that repeats its value is not published, a newly seen sensor is, and that is the only message |
| `Scenarios.ShallowMergeDropsTopic` | app.py:30 | a file `mqtt` object with only a broker address replaces the default `mqtt` dict: the application still starts, but the topic lookup of a publish fails |
| `Scenarios.NoSensorsNothingPublished` | app.py:98 | with no sensor found the store stays empty and nothing is published |

## Left out

- Wi-Fi association and status polling (`_connect_wifi`, app.py:59-74): network I/O behind a foreign driver.
- Time synchronisation (`ntptime.settime`, app.py:116): a foreign network call.
- The MQTT client (`MQTTClient`, `connect`, `publish`, app.py:48, 57, 85): foreign library I/O. The dict lookup of the broker address before the connect (app.py:56) is modelled by `Config.BrokerAddress`. The model produces the publish calls as `Message` values and keeps the client only as the settings it is built with.
- The `on_mqtt_connect` coroutine (app.py:52-53): it only logs; the client settings carry it as `ConnectHook`.
- The supervisor loop, task creation and every `asyncio.sleep` (app.py:107, 109-123): cooperative concurrency and timing. One publisher round against one poll cycle is modelled by `App.SamplingRound`.
- Interleaving of the poller with the publisher while the publisher awaits a publish inside its loop (app.py:81-85): a concurrency hazard, not sequential logic. The selection runs against a fixed current store.
- A publish that fails part-way through a round (app.py:85): the messages sent before the failure are not modelled. The round is modelled as the full set of messages it would send.
- The one-wire driver (`scan`, `convert_temp`, `read_temp`, app.py:95-102): the readings of a cycle are an input. An exception from `read_temp` ends the poller task in the source; the model has no read-error path.
- Reading and decoding `config.json` (app.py:29-30): the input is `Some` of the key/value pairs `update` applied before anything raised (all of a decoded object, or the leading pairs of a decoded array whose later element was malformed), or None when nothing was applied (the file could not be read or decoded, or the first element was rejected); the defaults then stand.
- Creating the sensor object on pin `ds_pin` (app.py:36-38): hardware setup.
- Logging (`print`) throughout.
- Float temperature values and their text form (app.py:87): a type parameter with equality and a `show` function.
- Publish.PublishSettings: a `topic` that is not a string is formatted by `str()` in the source; the model reports it as `UnrenderedTopic` instead.
- Config.ClientConfig: an `mqtt` value that is not a dict but an iterable of key/value pairs would be accepted by `dict.update`; the model treats every non-dict as the constructor's failure.
- App.NewApplication: the sensor bus objects (`Pin`, `OneWire`, `DS18X20`, app.py:36-38), the network interface (app.py:42-43) and `MQTTClient` (app.py:48) are assumed to be built without raising; in the source `Pin` raises on an unusable `ds_pin` and the client library may reject its settings (for instance a missing server), which the model does not capture.
