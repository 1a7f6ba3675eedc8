/**
 * The MQTT ingestion side: the connect, disconnect and message callbacks. They
 * keep the client's own `connected` flag equal to the store's connectivity
 * flag, and turn each message into at most one append to the store. The
 * transport itself (broker connection, TLS, credentials, subscription, the
 * network loop) is outside the model; so is the decoding of the payload bytes,
 * which is passed in as a function.
 */
module Ingestion {
  import opened Wrappers
  import opened Models
  import opened Storage

  /**
   * Decoding a payload: UTF-8, JSON, field presence and types, field aliases.
   * None stands for any failure along that way.
   */
  type Decoder = seq<bv8> -> Option<Record>

  /**
   * The reading a message yields, or None when decoding fails or a field is
   * out of bounds. An omitted timestamp is filled in with `now`, a given one is
   * kept, and an explicit null leaves the reading without a timestamp.
   */
  function Admit(payload: seq<bv8>, decode: Decoder, now: Time): (r: Option<Reading>)
    ensures r.Some? <==> decode(payload).Some? && Valid(decode(payload).value.data)
    ensures r.Some? ==> r.value.data == decode(payload).value.data
    ensures r.Some? ==> match decode(payload).value.timestamp
                        case Omitted => r.value.timestamp == Some(now)
                        case Null => r.value.timestamp == None
                        case Given(t) => r.value.timestamp == Some(t)
  {
    match decode(payload)
    case None => None
    case Some(rec) => Construct(rec, now)
  }

  /** A store that holds only valid readings still does after a valid one is appended. */
  lemma AppendKeepsValid(s: seq<Reading>, cap: nat, x: Reading)
    requires |s| <= cap && Valid(x.data)
    ensures AllValid(s) ==> AllValid(Appended(s, cap, x))
  {
    var t := s + [x];
    var r := Appended(s, cap, x);
    assert r == t[|t| - |r|..];
    if AllValid(s) {
      forall i | 0 <= i < |r| ensures Valid(r[i].data) {
        var j := |t| - |r| + i;
        assert r[i] == t[j];
        if j < |s| { assert t[j] == s[j]; }
      }
    }
  }

  class MqttClient {
    var connected: bool
    /** The store the client writes into and whose connectivity flag it maintains. */
    const store: WeatherDataStore

    /** Both flags agree. */
    ghost predicate Synced()
      reads this, store
    {
      connected == store.mqttConnected
    }

    constructor (store: WeatherDataStore)
      ensures this.store == store && !connected
      ensures Synced() <==> !store.mqttConnected
    {
      this.store := store;
      connected := false;
    }

    /** Result code 0 is a successful connection; anything else a refused one. */
    method OnConnect(rc: int)
      modifies this`connected, store`mqttConnected
      ensures connected == (rc == 0) && Synced()
    {
      if rc == 0 {
        connected := true;
        store.mqttConnected := true;
      } else {
        connected := false;
        store.mqttConnected := false;
      }
    }

    /** Any disconnection, whatever its result code, clears both flags. */
    method OnDisconnect(rc: int)
      modifies this`connected, store`mqttConnected
      ensures !connected && Synced()
    {
      connected := false;
      store.mqttConnected := false;
    }

    /**
     * A message that decodes to a valid reading is appended to the store, once;
     * any other message is dropped and leaves the store as it was. Nothing is
     * raised either way.
     */
    method OnMessage(payload: seq<bv8>, decode: Decoder, now: Time)
      requires store.Valid()
      modifies store`readings
      ensures store.Valid()
      ensures Admit(payload, decode, now).None? ==> store.readings == old(store.readings)
      ensures Admit(payload, decode, now).Some? ==>
        store.readings == Appended(old(store.readings), store.maxReadings, Admit(payload, decode, now).value)
      ensures AllValid(old(store.readings)) ==> AllValid(store.readings)
    {
      var decoded := decode(payload);
      if decoded.None? {
        return;
      }
      var reading := Construct(decoded.value, now);
      if reading.None? {
        return;
      }
      AppendKeepsValid(store.readings, store.maxReadings, reading.value);
      store.AddReading(reading.value);
    }
  }
}
