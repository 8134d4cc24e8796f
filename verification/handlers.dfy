/** The MQTT-to-CEC direction: the two control topics the bridge subscribes
    to and the decisions of their handlers. The send lock the handlers take is
    not modelled; each handler call is one atomic step here. */
module Handlers {
  import opened Text
  import opened Topics
  import opened Actions

  /** A JSON value as encoding/json decodes it into an interface{}; numbers are
      taken as already integral. */
  datatype JsonValue =
    | JNull
    | JBool(b: bool)
    | JNumber(n: int)
    | JString(s: string)
    | JArray(items: seq<JsonValue>)
    | JObject(fields: map<string, JsonValue>)

  /** What json.Unmarshal did with a key-send payload: it failed, or it filled the
      handler's map (a JSON null leaves the map nil, which reads as empty). */
  datatype Decoding = ParseError | Decoded(members: map<string, JsonValue>)

  /** The two unchecked type assertions of the key-send handler, in program order. */
  datatype Assertion = AddressIsNumber | KeyIsString

  /** A handler call either runs to its end or panics at a failed type assertion. */
  datatype Outcome = Completed(actions: seq<Action>) | Panicked(failed: Assertion)

  // ----- Command handler -----

  /** onCommandSend: an empty payload is dropped; any other is acknowledged with
      an empty, non-retained publication on cec/command/tx and then handed to
      Transmit verbatim. */
  function OnCommandSend(prefix: string, payload: string): (r: seq<Action>)
    ensures payload == "" <==> r == []
    ensures payload != "" ==>
      && |r| == 2
      && r[0] == Publish(Prefixify(prefix, CommandTx), "", false)
      && r[1] == Transmit(payload)
  {
    if payload == "" then [] else [PublishMQTT(prefix, CommandTx, "", false), Transmit(payload)]
  }

  // ----- Key handler -----

  /** The map the handler indexes: after a failed Unmarshal it is still nil. */
  function Fields(decoding: Decoding): map<string, JsonValue> {
    match decoding
    case ParseError => map[]
    case Decoded(members) => members
  }

  /** Reference condition: a decoded object whose `address` is a number and whose `key` is a string. */
  ghost predicate WellTyped(decoding: Decoding) {
    && decoding.Decoded?
    && "address" in decoding.members && decoding.members["address"].JNumber?
    && "key" in decoding.members && decoding.members["key"].JString?
  }

  /** onKeySend as written: after the empty-payload check, a parse failure is
      only logged, so control reaches `payload["address"].(float64)` and
      `payload["key"].(string)` whatever Unmarshal did. A missing or mistyped
      field panics there; a well-typed request with a non-empty key is
      acknowledged on cec/key/send and then sent with Key. */
  function OnKeySend(prefix: string, payload: string, decoding: Decoding): (o: Outcome)
    ensures payload == "" ==> o == Completed([])
    ensures o.Panicked? <==> payload != "" && !WellTyped(decoding)
    ensures payload != "" && decoding.ParseError? ==> o == Panicked(AddressIsNumber)
    ensures (&& payload != "" && decoding.Decoded?
             && !("address" in decoding.members && decoding.members["address"].JNumber?))
            ==> o == Panicked(AddressIsNumber)
    ensures (&& payload != "" && decoding.Decoded?
             && "address" in decoding.members && decoding.members["address"].JNumber?
             && !("key" in decoding.members && decoding.members["key"].JString?))
            ==> o == Panicked(KeyIsString)
    ensures payload != "" && WellTyped(decoding) ==>
      var address, key := decoding.members["address"].n, decoding.members["key"].s;
      && (key == "" ==> o == Completed([]))
      && (key != "" ==> o == Completed([Publish(Prefixify(prefix, KeySendRequest), "", false), KeySend(address, key)]))
  {
    if payload == "" then Completed([])
    else
      var fields := Fields(decoding);
      if !("address" in fields && fields["address"].JNumber?) then Panicked(AddressIsNumber)
      else if !("key" in fields && fields["key"].JString?) then Panicked(KeyIsString)
      else
        var address, key := fields["address"].n, fields["key"].s;
        if key != "" then
          Completed([PublishMQTT(prefix, KeySendRequest, "", false), KeySend(address, key)])
        else
          Completed([])
  }

  /** A payload that is not JSON at all takes the handler down at the address
      assertion, before any acknowledgement or CEC call. */
  lemma ParseFailureFallsThrough(prefix: string, payload: string)
    requires payload != ""
    ensures OnKeySend(prefix, payload, ParseError) == Panicked(AddressIsNumber)
    ensures OnKeySend(prefix, payload, ParseError) == OnKeySend(prefix, payload, Decoded(map[]))
  {}

  /** The key handler as its log message says it should behave: a request that
      cannot be read is logged and dropped, never a panic. That takes two
      corrections: the missing `return` after the parse-failure log, and
      checked (comma-ok) forms of the two field assertions, so that a decoded
      object with a missing or mistyped field is dropped too. */
  function OnKeySendIntended(prefix: string, payload: string, decoding: Decoding): (r: seq<Action>)
    ensures payload == "" ==> r == []
    ensures !WellTyped(decoding) ==> r == []
    ensures WellTyped(decoding) && decoding.members["key"].s == "" ==> r == []
    ensures payload != "" && WellTyped(decoding) && decoding.members["key"].s != "" ==>
      r == [Publish(Prefixify(prefix, KeySendRequest), "", false),
            KeySend(decoding.members["address"].n, decoding.members["key"].s)]
  {
    if payload == "" then []
    else
      match decoding
      case ParseError => []
      case Decoded(members) =>
        if "address" in members && members["address"].JNumber? && "key" in members && members["key"].JString? then
          var address, key := members["address"].n, members["key"].s;
          if key != "" then [PublishMQTT(prefix, KeySendRequest, "", false), KeySend(address, key)] else []
        else []
  }

  /** The corrected handler does exactly what the written one does on every
      request the written one survives, and nothing on the ones it dies on. */
  lemma IntendedAgreesUnlessPanic(prefix: string, payload: string, decoding: Decoding)
    ensures OnKeySend(prefix, payload, decoding).Completed? ==>
      OnKeySendIntended(prefix, payload, decoding) == OnKeySend(prefix, payload, decoding).actions
    ensures OnKeySend(prefix, payload, decoding).Panicked? ==>
      OnKeySendIntended(prefix, payload, decoding) == []
  {}

  /** A request that is valid JSON but carries the address as a string still
      panics as written; the corrected handler drops it. */
  lemma IllTypedRequestPanics(prefix: string)
    ensures OnKeySend(prefix, "{\"address\":\"4\",\"key\":\"k\"}",
                      Decoded(map["address" := JString("4"), "key" := JString("k")]))
         == Panicked(AddressIsNumber)
    ensures OnKeySendIntended(prefix, "{\"address\":\"4\",\"key\":\"k\"}",
                              Decoded(map["address" := JString("4"), "key" := JString("k")]))
         == []
  {}

  // ----- Shape shared by both handlers -----

  /** Nothing, or an empty non-retained acknowledgement on `ackTopic` followed by one CEC call. */
  ghost predicate AckThenCall(actions: seq<Action>, ackTopic: string) {
    || actions == []
    || (&& |actions| == 2
        && actions[0] == Publish(ackTopic, "", false)
        && (actions[1].Transmit? || actions[1].KeySend?))
  }

  /** Every handler call that completes makes at most one CEC call, and only
      after acknowledging on the topic the request came in on. */
  lemma HandlersAckBeforeCall(prefix: string, payload: string, decoding: Decoding)
    ensures AckThenCall(OnCommandSend(prefix, payload), Prefixify(prefix, CommandTx))
    ensures OnKeySend(prefix, payload, decoding).Completed? ==>
      AckThenCall(OnKeySend(prefix, payload, decoding).actions, Prefixify(prefix, KeySendRequest))
    ensures AckThenCall(OnKeySendIntended(prefix, payload, decoding), Prefixify(prefix, KeySendRequest))
  {}

  // ----- Subscriptions -----

  datatype Handler = KeySendHandler | CommandSendHandler

  /** NewCecMQTTBridge subscribes each handler on its namespaced control topic. */
  function Subscriptions(prefix: string): (subs: map<string, Handler>)
    ensures subs.Keys == {Prefixify(prefix, KeySendRequest), Prefixify(prefix, CommandTx)}
    ensures subs[Prefixify(prefix, KeySendRequest)] == KeySendHandler
    ensures subs[Prefixify(prefix, CommandTx)] == CommandSendHandler
  {
    PrefixifyInjective(prefix, KeySendRequest, CommandTx);
    map[Prefixify(prefix, KeySendRequest) := KeySendHandler, Prefixify(prefix, CommandTx) := CommandSendHandler]
  }

  /** Delivery of one inbound message to the handler subscribed on its topic,
      matched by equality (no MQTT wildcards); `decoding` is what Unmarshal
      makes of the payload. */
  function Deliver(prefix: string, topic: string, payload: string, decoding: Decoding): (o: Outcome)
    ensures topic == Prefixify(prefix, CommandTx) ==> o == Completed(OnCommandSend(prefix, payload))
    ensures topic == Prefixify(prefix, KeySendRequest) ==> o == OnKeySend(prefix, payload, decoding)
    ensures topic != Prefixify(prefix, CommandTx) && topic != Prefixify(prefix, KeySendRequest) ==> o == Completed([])
  {
    var subs := Subscriptions(prefix);
    if topic !in subs then Completed([])
    else match subs[topic]
      case CommandSendHandler => Completed(OnCommandSend(prefix, payload))
      case KeySendHandler => OnKeySend(prefix, payload, decoding)
  }

  /** The acknowledgements land on the bridge's own subscriptions, and coming
      back with their empty payload they trigger nothing: no echo loop. */
  lemma AcksComeBackInert(prefix: string, payload: string, decoding: Decoding, echo: Decoding)
    ensures forall a :: a in OnCommandSend(prefix, payload) && a.Publish? ==>
      a.topic in Subscriptions(prefix) && Deliver(prefix, a.topic, a.payload, echo) == Completed([])
    ensures OnKeySend(prefix, payload, decoding).Completed? ==>
      forall a :: a in OnKeySend(prefix, payload, decoding).actions && a.Publish? ==>
        a.topic in Subscriptions(prefix) && Deliver(prefix, a.topic, a.payload, echo) == Completed([])
  {}

  /** The key-send scenario: address 4, key "0x41" gives the acknowledgement, then the key. */
  lemma KeySendScenario(prefix: string)
    ensures OnKeySend(prefix, "{\"address\": 4, \"key\": \"0x41\"}",
                      Decoded(map["address" := JNumber(4), "key" := JString("0x41")]))
         == Completed([Publish(Prefixify(prefix, "cec/key/send"), "", false), KeySend(4, "0x41")])
  {}
}
