/** The application's settings (app.py:18-30) and the broker client's
    settings derived from them (app.py:39-46). */
module Config {
  import opened Wrappers
  import Hex

  /** A setting as it appears in the default dict or in a decoded
      `config.json` (a JSON number with a fraction or exponent is a Float).
      ConnectHook stands for the `on_mqtt_connect` coroutine the client
      settings carry. */
  datatype Value =
    | Null
    | Bool(b: bool)
    | Int(i: int)
    | Float(f: real)
    | Str(s: string)
    | List(items: seq<Value>)
    | Dict(fields: map<string, Value>)
    | ConnectHook

  /** Why reading a setting would raise: a missing key (KeyError), a value
      indexed or merged as a dict that is not one, or a topic prefix that is
      not a string. */
  datatype ConfigError = MissingKey(key: string) | NotADict(key: string) | UnrenderedTopic

  /** The defaults the constructor starts from. */
  function Defaults(): map<string, Value> {
    map[
      "ssid" := Str("OpenWRT"),
      "password" := Str("qwerty"),
      "ds_pin" := Int(12),
      "mqtt" := Dict(map["topic" := Str("esp"), "qos" := Int(1), "retain" := Bool(false)])
    ]
  }

  /** `d.update(u)`: every key of u takes u's value, every other key of d
      keeps its own, and no key is dropped. */
  function Update(d: map<string, Value>, u: map<string, Value>): (r: map<string, Value>)
    ensures r.Keys == d.Keys + u.Keys
    ensures forall k :: k in u ==> r[k] == u[k]
    ensures forall k :: k in d && k !in u ==> r[k] == d[k]
  {
    d + u
  }

  /** The configuration after the constructor's `try` block: the defaults,
      shallow-updated by the key/value pairs the `update` applied before
      anything raised (all of a decoded object, or the leading pairs of a
      decoded array whose later element was malformed). None when no pair was
      applied: the file could not be read or decoded, or its first element
      was rejected. */
  function LoadConfig(file: Option<map<string, Value>>): map<string, Value> {
    match file
    case None => Defaults()
    case Some(f) => Update(Defaults(), f)
  }

  /** After the merge, every top-level key of the file overrides its default
      (a file `mqtt` entry replaces the whole default `mqtt` dict), every other
      default is kept, and without a file the defaults are used as they are. */
  lemma LoadConfigMerge(file: Option<map<string, Value>>)
    ensures file.None? ==> LoadConfig(file) == Defaults()
    ensures file.Some? ==> LoadConfig(file).Keys == Defaults().Keys + file.value.Keys
    ensures file.Some? ==> forall k :: k in file.value ==> LoadConfig(file)[k] == file.value[k]
    ensures forall k :: k in Defaults() && (file.None? || k !in file.value) ==> LoadConfig(file)[k] == Defaults()[k]
    ensures file.Some? && "mqtt" in file.value ==> LoadConfig(file)["mqtt"] == file.value["mqtt"]
    ensures "ssid" in LoadConfig(file) && "password" in LoadConfig(file)
    ensures "ds_pin" in LoadConfig(file) && "mqtt" in LoadConfig(file)
  {
  }

  /** `config['mqtt']['server']`, which `_connect_mqtt` looks up before it
      connects: a KeyError when the `mqtt` dict has no `server`. */
  function BrokerAddress(config: map<string, Value>): (r: Result<Value, ConfigError>)
    ensures r.Success? <==> "mqtt" in config && config["mqtt"].Dict? && "server" in config["mqtt"].fields
    ensures r.Success? ==> r.value == config["mqtt"].fields["server"]
  {
    if "mqtt" !in config then Failure(MissingKey("mqtt"))
    else if !config["mqtt"].Dict? then Failure(NotADict("mqtt"))
    else if "server" !in config["mqtt"].fields then Failure(MissingKey("server"))
    else Success(config["mqtt"].fields["server"])
  }

  /** The default `mqtt` dict has no `server`, so the broker address lookup
      fails under the defaults; it succeeds only when the file supplies its
      own `mqtt` dict, which then replaces the default one whole. */
  lemma BrokerAddressOnlyFromFile(file: Option<map<string, Value>>)
    ensures BrokerAddress(LoadConfig(None)) == Failure(MissingKey("server"))
    ensures BrokerAddress(LoadConfig(file)).Success? ==>
              file.Some? && "mqtt" in file.value && LoadConfig(file)["mqtt"] == file.value["mqtt"]
  {
    assert "server" !in Defaults()["mqtt"].fields;
  }

  /** The broker client identifier `'ESP_' + bytes_to_hex(mac)`. */
  function ClientId(mac: seq<Hex.Byte>): string {
    "ESP_" + Hex.BytesToHex(mac, "")
  }

  /** The identifier is the tag `ESP_` followed by two uppercase hex digits per
      MAC byte, and distinct MACs give distinct identifiers. */
  lemma ClientIdShape(mac: seq<Hex.Byte>, other: seq<Hex.Byte>)
    ensures |ClientId(mac)| == 4 + 2 * |mac| && ClientId(mac)[..4] == "ESP_"
    ensures forall i :: 4 <= i < |ClientId(mac)| ==> Hex.IsHexDigit(ClientId(mac)[i])
    ensures ClientId(mac) == ClientId(other) <==> mac == other
  {
    Hex.HexLength(mac, "");
    Hex.HexCharset(mac);
    var h := Hex.BytesToHex(mac, "");
    assert forall i :: 4 <= i < |ClientId(mac)| ==> ClientId(mac)[i] == h[i - 4];
    if ClientId(mac) == ClientId(other) {
      assert Hex.BytesToHex(mac, "") == ClientId(mac)[4..] == ClientId(other)[4..] == Hex.BytesToHex(other, "");
    }
    Hex.HexInjective(mac, other);
  }

  /** The settings the broker client is built with: a copy of the library's
      defaults updated with the configuration's `mqtt` dict, then the client
      identifier and the connect hook. Fails as the constructor would raise:
      when there is no `mqtt` entry or it is not a dict. */
  function ClientConfig(config: map<string, Value>, libDefaults: map<string, Value>, mac: seq<Hex.Byte>)
    : (r: Result<map<string, Value>, ConfigError>)
    ensures r.Success? <==> "mqtt" in config && config["mqtt"].Dict?
    ensures "mqtt" !in config ==> r == Failure(MissingKey("mqtt"))
    ensures "mqtt" in config && !config["mqtt"].Dict? ==> r == Failure(NotADict("mqtt"))
    ensures r.Success? ==>
      var fields := config["mqtt"].fields;
      && r.value.Keys == libDefaults.Keys + fields.Keys + {"client_id", "connect_coro"}
      && r.value["client_id"] == Str(ClientId(mac))
      && r.value["connect_coro"] == ConnectHook
      && (forall k :: k in fields && k != "client_id" && k != "connect_coro" ==> r.value[k] == fields[k])
      && (forall k :: k in libDefaults && k !in fields && k != "client_id" && k != "connect_coro"
            ==> r.value[k] == libDefaults[k])
  {
    if "mqtt" !in config then Failure(MissingKey("mqtt"))
    else match config["mqtt"]
      case Dict(fields) =>
        var con := Update(libDefaults, fields);
        Success(con["client_id" := Str(ClientId(mac))]["connect_coro" := ConnectHook])
      case _ => Failure(NotADict("mqtt"))
  }
}
