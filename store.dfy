/** The shared reading store `self.data` (app.py:17) and what one poll cycle
    does to it (app.py:98-105), as functions on map values. */
module Store {
  import Hex

  /** A one-wire ROM code as returned by the bus scan. */
  type Rom = seq<Hex.Byte>

  /** The store key of a sensor: its ROM rendered without separator. */
  function Address(rom: Rom): string {
    Hex.BytesToHex(rom, "")
  }

  /** Distinct ROM codes are stored under distinct addresses. */
  lemma AddressInjective(a: Rom, b: Rom)
    ensures Address(a) == Address(b) <==> a == b
  {
    Hex.HexInjective(a, b);
  }

  /** The addresses written by a cycle that read the given (rom, value) pairs. */
  function Scanned<V>(readings: seq<(Rom, V)>): set<string> {
    set i | 0 <= i < |readings| :: Address(readings[i].0)
  }

  /** The store after writing `data[address] = value` for each reading, in order. */
  function ApplyReadings<V>(store: map<string, V>, readings: seq<(Rom, V)>): map<string, V>
    decreases |readings|
  {
    if readings == [] then store
    else
      var last := readings[|readings| - 1];
      ApplyReadings(store, readings[..|readings| - 1])[Address(last.0) := last.1]
  }

  /** A cycle adds exactly the scanned addresses and removes no key. */
  lemma {:induction false} ApplyKeys<V>(store: map<string, V>, readings: seq<(Rom, V)>)
    ensures ApplyReadings(store, readings).Keys == store.Keys + Scanned(readings)
    decreases |readings|
  {
    if readings != [] {
      var init := readings[..|readings| - 1];
      ApplyKeys(store, init);
      assert Scanned(readings) == Scanned(init) + {Address(readings[|readings| - 1].0)} by {
        forall a | a in Scanned(readings) ensures a in Scanned(init) + {Address(readings[|readings| - 1].0)} {
          var i :| 0 <= i < |readings| && a == Address(readings[i].0);
          if i < |readings| - 1 {
            assert init[i] == readings[i];
          }
        }
        forall a | a in Scanned(init) ensures a in Scanned(readings) {
          var i :| 0 <= i < |init| && a == Address(init[i].0);
          assert readings[i] == init[i];
        }
      }
    }
  }

  /** Addresses that were not scanned keep their old entry, or stay absent. */
  lemma {:induction false} ApplyUntouched<V>(store: map<string, V>, readings: seq<(Rom, V)>, a: string)
    requires forall i :: 0 <= i < |readings| ==> Address(readings[i].0) != a
    ensures a in ApplyReadings(store, readings) <==> a in store
    ensures a in store ==> ApplyReadings(store, readings)[a] == store[a]
    decreases |readings|
  {
    if readings != [] {
      ApplyUntouched(store, readings[..|readings| - 1], a);
    }
  }

  /** Last write wins: a scanned address holds the value of the last reading
      for it, whatever was stored before and whatever earlier readings gave. */
  lemma {:induction false} ApplyLastWins<V>(store: map<string, V>, readings: seq<(Rom, V)>, i: nat)
    requires i < |readings|
    requires forall j :: i < j < |readings| ==> Address(readings[j].0) != Address(readings[i].0)
    ensures Address(readings[i].0) in ApplyReadings(store, readings)
    ensures ApplyReadings(store, readings)[Address(readings[i].0)] == readings[i].1
    decreases |readings|
  {
    if i < |readings| - 1 {
      ApplyLastWins(store, readings[..|readings| - 1], i);
    }
  }
}
