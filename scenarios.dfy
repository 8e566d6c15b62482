/** Worked rounds of the publisher, and what the configuration merge means
    for them. */
module Scenarios {
  import opened Wrappers
  import opened Config
  import opened Store
  import opened Publish

  /** The publish lookups on the default `mqtt` dict give prefix "esp",
      qos 1 and retain off. They are never reached with the defaults alone:
      the broker address lookup fails first (`BrokerAddressOnlyFromFile`). */
  lemma DefaultPublishSettings()
    ensures PublishSettings(LoadConfig(None)) == Success(Settings("esp", Int(1), Bool(false)))
  {
    assert LoadConfig(None)["mqtt"].fields["topic"] == Str("esp");
  }

  /** A `config.json` whose `mqtt` dict names a broker and repeats the
      default prefix "esp", qos 1 and retain off: the broker can be looked up,
      and a reading at address 28FF1122 is sent on topic "esp/28FF1122" with
      the value's text as payload, qos 1 and retain off. */
  lemma ConfiguredMessage<V>(value: V, show: V -> string)
    ensures
      var mqtt := Dict(map["server" := Str("192.168.1.2"), "topic" := Str("esp"),
                           "qos" := Int(1), "retain" := Bool(false)]);
      var config := LoadConfig(Some(map["mqtt" := mqtt]));
      && BrokerAddress(config) == Success(Str("192.168.1.2"))
      && PublishSettings(config) == Success(Settings("esp", Int(1), Bool(false)))
      && MessageFor(PublishSettings(config).value, "28FF1122", value, show)
           == Message("esp/28FF1122", show(value), Int(1), Bool(false))
  {
    var mqtt := Dict(map["server" := Str("192.168.1.2"), "topic" := Str("esp"),
                         "qos" := Int(1), "retain" := Bool(false)]);
    var config := LoadConfig(Some(map["mqtt" := mqtt]));
    assert config["mqtt"] == mqtt;
    assert Topic("esp", "28FF1122") == "esp/28FF1122";
  }

  /** A four-byte ROM code renders as the digits of its bytes, in order. */
  lemma AddressOfFour(a: Hex.Byte, b: Hex.Byte, c: Hex.Byte, d: Hex.Byte)
    ensures Address([a, b, c, d]) == Hex.ByteToHex(a) + Hex.ByteToHex(b) + Hex.ByteToHex(c) + Hex.ByteToHex(d)
  {
    var rom: Rom := [a, b, c, d];
    Hex.UnseparatedCons(rom);
    Hex.UnseparatedCons(rom[1..]);
    Hex.UnseparatedCons(rom[2..]);
    Hex.UnseparatedCons(rom[3..]);
    assert rom[1..][1..] == rom[2..] && rom[2..][1..] == rom[3..] && rom[3..][1..] == [];
  }

  /** The addresses of the two sensors of the worked round. */
  lemma ScenarioAddresses()
    ensures Address([0x28, 0xFF, 0x11, 0x22]) == "28FF1122"
    ensures Address([0x28, 0xFF, 0x33, 0xAA]) == "28FF33AA"
  {
    AddressOfFour(0x28, 0xFF, 0x11, 0x22);
    AddressOfFour(0x28, 0xFF, 0x33, 0xAA);
    assert Hex.ByteToHex(0x28) == "28" && Hex.ByteToHex(0xFF) == "FF";
    assert Hex.ByteToHex(0x11) == "11" && Hex.ByteToHex(0x22) == "22";
    assert Hex.ByteToHex(0x33) == "33" && Hex.ByteToHex(0xAA) == "AA";
  }

  /** The poll cycle of the worked round: the known sensor is rewritten with
      its old value and the new sensor is added. */
  lemma ScenarioPoll<V>(known: V, added: V)
    ensures
      var romKnown: Rom := [0x28, 0xFF, 0x11, 0x22];
      var romNew: Rom := [0x28, 0xFF, 0x33, 0xAA];
      ApplyReadings(map["28FF1122" := known], [(romKnown, known), (romNew, added)])
        == map["28FF1122" := known, "28FF33AA" := added]
  {
    var romKnown: Rom := [0x28, 0xFF, 0x11, 0x22];
    var romNew: Rom := [0x28, 0xFF, 0x33, 0xAA];
    ScenarioAddresses();
    var readings: seq<(Rom, V)> := [(romKnown, known), (romNew, added)];
    var store := map["28FF1122" := known];
    var first := readings[..1];
    assert first == [(romKnown, known)] && first[..0] == [];
    assert ApplyReadings(store, first) == store;
    assert ApplyReadings(store, readings) == store["28FF33AA" := added];
  }

  /** A store holding one sensor is polled again: the known sensor repeats
      its value and a second sensor appears. Only the new sensor is published. */
  lemma NewSensorOnlyPublished<V>(known: V, added: V, show: V -> string)
    ensures
      var romKnown: Rom := [0x28, 0xFF, 0x11, 0x22];
      var romNew: Rom := [0x28, 0xFF, 0x33, 0xAA];
      var store := map["28FF1122" := known];
      var after := ApplyReadings(store, [(romKnown, known), (romNew, added)]);
      var settings := Settings("esp", Int(1), Bool(false));
      && after == map["28FF1122" := known, "28FF33AA" := added]
      && Changed(store, after) == {"28FF33AA"}
      && Expected(store, after, settings, show) == {Message("esp/28FF33AA", show(added), Int(1), Bool(false))}
  {
    ScenarioPoll(known, added);
    var store := map["28FF1122" := known];
    var after := map["28FF1122" := known, "28FF33AA" := added];
    assert "28FF1122" != "28FF33AA";
    assert Changed(store, after) == {"28FF33AA"};
    var settings := Settings("esp", Int(1), Bool(false));
    assert Topic("esp", "28FF33AA") == "esp/28FF33AA";
    assert Expected(store, after, settings, show) == {MessageFor(settings, "28FF33AA", added, show)};
  }

  /** Shallow merge: a `config.json` that supplies the broker address in its
      own `mqtt` object replaces the whole default `mqtt` dict, so the topic
      prefix, qos and retain defaults are gone. The application still starts,
      but any round with a change fails on the missing topic. */
  lemma ShallowMergeDropsTopic(libDefaults: map<string, Value>, mac: seq<Hex.Byte>)
    ensures
      var file := map["mqtt" := Dict(map["server" := Str("192.168.1.2")])];
      var config := LoadConfig(Some(file));
      && config["mqtt"] == Dict(map["server" := Str("192.168.1.2")])
      && ClientConfig(config, libDefaults, mac).Success?
      && PublishSettings(config) == Failure(MissingKey("topic"))
  {
    var file := map["mqtt" := Dict(map["server" := Str("192.168.1.2")])];
    assert LoadConfig(Some(file))["mqtt"] == file["mqtt"];
  }

  /** With no sensor on the bus every cycle writes nothing: the store stays
      empty and no round has anything to publish. */
  lemma NoSensorsNothingPublished<V>(settings: Settings, show: V -> string)
    ensures var empty: map<string, V> := map[];
            && ApplyReadings(empty, []) == empty
            && Expected(empty, ApplyReadings(empty, []), settings, show) == {}
  {
    var empty: map<string, V> := map[];
    NothingChanged(empty, settings, show);
  }
}
