/** The `Application` object of app.py: the shared reading store it updates in
    place, the configuration it loads once, and the sequential bodies of its
    poller and publisher loops. */
module App {
  import opened Wrappers
  import opened Config
  import opened Store
  import opened Publish
  import Hex

  class Application<V(==)> {
    /** `self.data`: sensor address to the last value read for it. */
    var data: map<string, V>
    /** `self.config` once the constructor has merged `config.json` into it. */
    const config: map<string, Value>
    /** The settings the broker client `self.mqtt` is built with. */
    const clientConfig: map<string, Value>

    constructor (config: map<string, Value>, clientConfig: map<string, Value>)
      ensures data == map[]
      ensures this.config == config && this.clientConfig == clientConfig
    {
      data := map[];
      this.config := config;
      this.clientConfig := clientConfig;
    }

    /** One pass of the poller's loop body: when any sensor was found, write
        each reading into the store under its ROM's address, in scan order;
        with no sensors the store is left alone. */
    method PollCycle(readings: seq<(Rom, V)>)
      modifies this
      ensures data == ApplyReadings(old(data), readings)
      ensures readings == [] ==> data == old(data)
    {
      if |readings| > 0 {
        for i := 0 to |readings|
          invariant data == ApplyReadings(old(data), readings[..i])
        {
          var (rom, value) := readings[i];
          var address := Hex.BytesToHex(rom, "");
          data := data[address := value];
          assert readings[..i + 1][..i] == readings[..i];
        }
        assert readings[..|readings|] == readings;
      }
    }

    /** `self.data.copy()`: a value that later writes to the store leave as it is. */
    method Snapshot() returns (s: map<string, V>)
      ensures s == data
    {
      s := data;
    }

    /** The publishing half of one `_send_data` round: compare the store with
        the snapshot and produce the messages to publish. The topic prefix,
        qos and retain are looked up only when a changed address is reached,
        so a configuration without them fails the round only when something
        changed. */
    method ChangedMessages(snapshot: map<string, V>, show: V -> string)
      returns (r: Result<seq<Message>, ConfigError>)
      ensures Changed(snapshot, data) == {} ==> r == Success([])
      ensures Changed(snapshot, data) != {} && PublishSettings(config).Failure? ==>
                r == Failure(PublishSettings(config).error)
      ensures PublishSettings(config).Success? ==>
                && r.Success?
                && (forall m :: m in r.value <==> m in Expected(snapshot, data, PublishSettings(config).value, show))
                && (forall i, j :: 0 <= i < j < |r.value| ==> r.value[i] != r.value[j])
    {
      if Changed(snapshot, data) == {} {
        return Success([]);
      }
      match PublishSettings(config)
      case Failure(e) =>
        r := Failure(e);
      case Success(settings) =>
        var msgs := SelectChanges(snapshot, data, settings, show);
        r := Success(msgs);
    }
  }

  /** `Application()`: an empty store, the defaults merged with what the
      `try` block applied from `config.json` (None when nothing was applied),
      and the broker client settings built from the device MAC and the
      library's defaults. Fails where building those settings raises: a
      configuration whose `mqtt` entry is not a dict. The sensor, network and
      broker client objects the constructor also creates are assumed to be
      built without raising. */
  method NewApplication<V(==)>(file: Option<map<string, Value>>, libDefaults: map<string, Value>, mac: seq<Hex.Byte>)
    returns (r: Result<Application<V>, ConfigError>)
    ensures r.Failure? <==> ClientConfig(LoadConfig(file), libDefaults, mac).Failure?
    ensures r.Failure? ==> r.error == ClientConfig(LoadConfig(file), libDefaults, mac).error
    ensures r.Success? ==>
      && fresh(r.value)
      && r.value.data == map[]
      && r.value.config == LoadConfig(file)
      && r.value.clientConfig == ClientConfig(LoadConfig(file), libDefaults, mac).value
  {
    var config := LoadConfig(file);
    match ClientConfig(config, libDefaults, mac)
    case Failure(e) =>
      r := Failure(e);
    case Success(clientConfig) =>
      var app := new Application(config, clientConfig);
      r := Success(app);
  }

  /** One round of `_send_data` with the poller running during its sleep:
      snapshot the store, let one poll cycle write its readings, then select
      what changed. The snapshot is a copy, so the comparison is against the
      store as it was before the cycle. */
  method SamplingRound<V(==)>(app: Application<V>, readings: seq<(Rom, V)>, show: V -> string)
    returns (r: Result<seq<Message>, ConfigError>)
    modifies app
    ensures app.data == ApplyReadings(old(app.data), readings)
    ensures Changed(old(app.data), app.data) == {} ==> r == Success([])
    ensures Changed(old(app.data), app.data) != {} && PublishSettings(app.config).Failure? ==>
              r == Failure(PublishSettings(app.config).error)
    ensures PublishSettings(app.config).Success? ==>
              && r.Success?
              && (forall m :: m in r.value <==>
                    m in Expected(old(app.data), app.data, PublishSettings(app.config).value, show))
              && (forall i, j :: 0 <= i < j < |r.value| ==> r.value[i] != r.value[j])
  {
    var snapshot := app.Snapshot();
    app.PollCycle(readings);
    r := app.ChangedMessages(snapshot, show);
  }

  /** What a poll cycle can make the publisher send: only scanned addresses.
      That is the first ensures; the second only notes that every scanned
      address is in the store afterwards and spells out `Changed` for it. */
  lemma ChangedAfterPoll<V>(store: map<string, V>, readings: seq<(Rom, V)>)
    ensures Changed(store, ApplyReadings(store, readings)) <= Scanned(readings)
    ensures forall a :: a in Scanned(readings) ==>
              a in ApplyReadings(store, readings)
              && (a in Changed(store, ApplyReadings(store, readings))
                  <==> a !in store || store[a] != ApplyReadings(store, readings)[a])
  {
    var after := ApplyReadings(store, readings);
    ApplyKeys(store, readings);
    forall a | a in Changed(store, after) ensures a in Scanned(readings) {
      if a !in Scanned(readings) {
        forall i | 0 <= i < |readings| ensures Address(readings[i].0) != a {
          assert Address(readings[i].0) in Scanned(readings);
        }
        ApplyUntouched(store, readings, a);
      }
    }
  }

  /** Readings that repeat what the store already holds leave it unchanged,
      so the publisher sends nothing for them. */
  lemma {:induction false} RepeatedReadingsChangeNothing<V>(store: map<string, V>, readings: seq<(Rom, V)>)
    requires forall i :: 0 <= i < |readings| ==>
               Address(readings[i].0) in store && store[Address(readings[i].0)] == readings[i].1
    ensures ApplyReadings(store, readings) == store
    ensures Changed(store, ApplyReadings(store, readings)) == {}
    decreases |readings|
  {
    if readings != [] {
      RepeatedReadingsChangeNothing(store, readings[..|readings| - 1]);
    }
  }
}
