/** Change selection for publishing (app.py:79-90): which addresses of the
    store are published after a sampling interval, and the message each one
    becomes. */
module Publish {
  import opened Wrappers
  import opened Config

  /** What each publish reads from `config['mqtt']`. */
  datatype Settings = Settings(topic: string, qos: Value, retain: Value)

  /** One `publish(topic, payload, qos=..., retain=...)` call. */
  datatype Message = Message(topic: string, payload: string, qos: Value, retain: Value)

  /** Looks up `config['mqtt']['topic']`, then `['qos']`, then `['retain']`, in
      the order the publish call evaluates them, failing on the first lookup
      that would raise. */
  function PublishSettings(config: map<string, Value>): (r: Result<Settings, ConfigError>)
    ensures r.Success? <==>
      && "mqtt" in config && config["mqtt"].Dict?
      && "topic" in config["mqtt"].fields && config["mqtt"].fields["topic"].Str?
      && "qos" in config["mqtt"].fields && "retain" in config["mqtt"].fields
    ensures r.Success? ==>
      var fields := config["mqtt"].fields;
      r.value == Settings(fields["topic"].s, fields["qos"], fields["retain"])
  {
    if "mqtt" !in config then Failure(MissingKey("mqtt"))
    else if !config["mqtt"].Dict? then Failure(NotADict("mqtt"))
    else
      var fields := config["mqtt"].fields;
      if "topic" !in fields then Failure(MissingKey("topic"))
      else if !fields["topic"].Str? then Failure(UnrenderedTopic)
      else if "qos" !in fields then Failure(MissingKey("qos"))
      else if "retain" !in fields then Failure(MissingKey("retain"))
      else Success(Settings(fields["topic"].s, fields["qos"], fields["retain"]))
  }

  /** `'{}/{}'.format(prefix, address)`. */
  function Topic(prefix: string, address: string): string {
    prefix + "/" + address
  }

  /** Under one prefix, distinct addresses get distinct topics. */
  lemma TopicInjective(prefix: string, a: string, b: string)
    ensures Topic(prefix, a) == Topic(prefix, b) <==> a == b
  {
    if Topic(prefix, a) == Topic(prefix, b) {
      assert a == Topic(prefix, a)[|prefix| + 1..];
      assert b == Topic(prefix, b)[|prefix| + 1..];
    }
  }

  /** The message for one address and its current value; `show` is the
      value's string form (`'{}'.format(value)`). */
  function MessageFor<V>(settings: Settings, address: string, value: V, show: V -> string): Message {
    Message(Topic(settings.topic, address), show(value), settings.qos, settings.retain)
  }

  /** The addresses of `current` that are new or whose value differs from
      the snapshot, by exact equality. */
  function Changed<V(==)>(snapshot: map<string, V>, current: map<string, V>): set<string> {
    set a | a in current && (a !in snapshot || snapshot[a] != current[a])
  }

  /** The messages one sampling round should publish. */
  function Expected<V(==)>(snapshot: map<string, V>, current: map<string, V>, settings: Settings, show: V -> string)
    : set<Message>
  {
    set a | a in Changed(snapshot, current) :: MessageFor(settings, a, current[a], show)
  }

  /** The message for an address of the current store is expected if and only
      if the address is new or its value changed; its topic names only that
      address, so there is one expected message per changed address. */
  lemma ExpectedIff<V>(snapshot: map<string, V>, current: map<string, V>, settings: Settings, show: V -> string, a: string)
    requires a in current
    ensures MessageFor(settings, a, current[a], show) in Expected(snapshot, current, settings, show)
            <==> (a !in snapshot || snapshot[a] != current[a])
  {
    var m := MessageFor(settings, a, current[a], show);
    if m in Expected(snapshot, current, settings, show) {
      var b :| b in Changed(snapshot, current) && m == MessageFor(settings, b, current[b], show);
      TopicInjective(settings.topic, a, b);
    }
  }

  /** One message per changed address: the expected set is as large as the
      set of changed addresses. */
  lemma ExpectedCount<V>(snapshot: map<string, V>, current: map<string, V>, settings: Settings, show: V -> string)
    ensures |Expected(snapshot, current, settings, show)| == |Changed(snapshot, current)|
  {
    MessagesCount(Changed(snapshot, current), current, settings, show);
  }

  /** Messages for distinct addresses are distinct, so a set of addresses
      yields as many messages as it has members. */
  lemma {:induction false} MessagesCount<V>(addrs: set<string>, current: map<string, V>, settings: Settings, show: V -> string)
    requires addrs <= current.Keys
    ensures |set a | a in addrs :: MessageFor(settings, a, current[a], show)| == |addrs|
    decreases |addrs|
  {
    if addrs != {} {
      var x :| x in addrs;
      var rest := addrs - {x};
      MessagesCount(rest, current, settings, show);
      var m := MessageFor(settings, x, current[x], show);
      var image := set a | a in rest :: MessageFor(settings, a, current[a], show);
      assert (set a | a in addrs :: MessageFor(settings, a, current[a], show)) == image + {m};
      if m in image {
        var b :| b in rest && m == MessageFor(settings, b, current[b], show);
        TopicInjective(settings.topic, x, b);
      }
    }
  }

  /** A store compared with itself publishes nothing. */
  lemma NothingChanged<V>(store: map<string, V>, settings: Settings, show: V -> string)
    ensures Changed(store, store) == {}
    ensures Expected(store, store, settings, show) == {}
  {
  }

  /** The loop over `self.data.items()`: one message for each address that is
      new or changed, none for the rest, each at most once. Iteration order of
      the store is not specified, so the order of the messages is not either. */
  method SelectChanges<V(==)>(snapshot: map<string, V>, current: map<string, V>, settings: Settings, show: V -> string)
    returns (msgs: seq<Message>)
    ensures forall m :: m in msgs <==> m in Expected(snapshot, current, settings, show)
    ensures forall i, j :: 0 <= i < j < |msgs| ==> msgs[i] != msgs[j]
  {
    var remaining := current.Keys;
    msgs := [];
    ghost var addrs: seq<string> := [];
    while remaining != {}
      invariant remaining <= current.Keys
      invariant |addrs| == |msgs|
      invariant forall i :: 0 <= i < |addrs| ==>
        addrs[i] in Changed(snapshot, current) && addrs[i] !in remaining
        && msgs[i] == MessageFor(settings, addrs[i], current[addrs[i]], show)
      invariant forall a :: a in Changed(snapshot, current) && a !in remaining ==> a in addrs
      invariant forall i, j :: 0 <= i < j < |addrs| ==> addrs[i] != addrs[j]
      decreases remaining
    {
      var a :| a in remaining;
      if a !in snapshot || snapshot[a] != current[a] {
        msgs := msgs + [MessageFor(settings, a, current[a], show)];
        addrs := addrs + [a];
      }
      remaining := remaining - {a};
    }
    forall i, j | 0 <= i < j < |msgs| ensures msgs[i] != msgs[j] {
      TopicInjective(settings.topic, addrs[i], addrs[j]);
    }
    forall m | m in Expected(snapshot, current, settings, show) ensures m in msgs {
      var a :| a in Changed(snapshot, current) && m == MessageFor(settings, a, current[a], show);
      var i :| 0 <= i < |addrs| && addrs[i] == a;
      assert msgs[i] == m;
    }
  }
}
