/** The CEC-to-MQTT direction: the retained snapshot published once at
    construction, and one iteration of each of the four forwarding loops as a
    pure function of the event received. */
module Forwarding {
  import opened Text
  import opened Topics
  import opened Actions
  import opened Classifier

  /** One entry of the CEC connection's device list. */
  datatype Device = Device(
    logicalAddress: int,
    activeSource: bool,
    osdName: string,
    physicalAddress: string,
    powerStatus: string,
    vendor: string)

  datatype Command = Command(commandString: string)

  /** Duration 0 marks the end of a press; other durations are repeats while held. */
  datatype KeyPress = KeyPress(keyCode: int, duration: int)

  datatype SourceActivation = SourceActivation(logicalAddress: int, state: bool)

  // ----- Startup snapshot -----

  /** The three retained publications for one device: active flag, OSD name, power status. */
  function DeviceActions(prefix: string, d: Device): (r: seq<Action>)
    ensures |r| == 3
    ensures forall i :: 0 <= i < 3 ==> r[i].Publish? && r[i].retained
    ensures r[0].topic == Prefixify(prefix, SourceTopic(d.logicalAddress, Active))
    ensures r[0].payload == "true" <==> d.activeSource
    ensures r[0].payload == "false" <==> !d.activeSource
    ensures r[1].topic == Prefixify(prefix, SourceTopic(d.logicalAddress, Name))
    ensures r[1].payload == d.osdName
    ensures r[2].topic == Prefixify(prefix, SourceTopic(d.logicalAddress, Power))
    ensures r[2].payload == d.powerStatus
  {
    [ PublishMQTT(prefix, SourceTopic(d.logicalAddress, Active), FormatBool(d.activeSource), true),
      PublishMQTT(prefix, SourceTopic(d.logicalAddress, Name), d.osdName, true),
      PublishMQTT(prefix, SourceTopic(d.logicalAddress, Power), d.powerStatus, true) ]
  }

  /** initialize: every listed device in turn. */
  function Initialize(prefix: string, devices: seq<Device>): (r: seq<Action>)
    ensures |r| == 3 * |devices|
    ensures forall i :: 0 <= i < |r| ==> r[i].Publish? && r[i].retained
  {
    var step := d => DeviceActions(prefix, d);
    ForwardLength(step, devices, 3);
    ForwardEvery(step, devices, (a: Action) => a.Publish? && a.retained);
    Forward(step, devices)
  }

  /** The snapshot of a non-empty list: the first device's publications, then the rest's. */
  lemma InitializeCons(prefix: string, devices: seq<Device>)
    requires devices != []
    ensures Initialize(prefix, devices) == DeviceActions(prefix, devices[0]) + Initialize(prefix, devices[1..])
  {}

  /** Device i's publications sit, in order, at positions 3i, 3i+1 and 3i+2. */
  lemma SnapshotLayout(prefix: string, devices: seq<Device>, i: nat)
    requires i < |devices|
    ensures Initialize(prefix, devices)[3 * i..3 * i + 3] == DeviceActions(prefix, devices[i])
  {
    ForwardLayout(d => DeviceActions(prefix, d), devices, 3, i);
  }

  /** The topics a device's snapshot and activation updates use. */
  ghost predicate IsDeviceTopic(prefix: string, address: int, topic: string) {
    || topic == Prefixify(prefix, SourceTopic(address, Active))
    || topic == Prefixify(prefix, SourceTopic(address, Name))
    || topic == Prefixify(prefix, SourceTopic(address, Power))
  }

  lemma DeviceTopicsApart(prefix: string, a: int, x: string, b: int, y: string)
    requires a != b || x != y
    ensures Prefixify(prefix, SourceTopic(a, x)) != Prefixify(prefix, SourceTopic(b, y))
  {
    PrefixifyInjective(prefix, SourceTopic(a, x), SourceTopic(b, y));
    SourceTopicInjective(a, x, b, y);
  }

  /** Two logical addresses share no topic. */
  lemma DeviceTopicsDisjoint(prefix: string, a: int, b: int, topic: string)
    requires a != b && IsDeviceTopic(prefix, a, topic)
    ensures !IsDeviceTopic(prefix, b, topic)
  {
    forall x, y | x in [Active, Name, Power] && y in [Active, Name, Power]
      ensures Prefixify(prefix, SourceTopic(a, x)) != Prefixify(prefix, SourceTopic(b, y))
    {
      DeviceTopicsApart(prefix, a, x, b, y);
    }
  }

  /** A device's publications touch its own three topics only. */
  lemma DeviceActionsAvoid(prefix: string, d: Device, topic: string)
    ensures !IsDeviceTopic(prefix, d.logicalAddress, topic) ==> !Touches(DeviceActions(prefix, d), topic)
  {}

  /** A snapshot publishes on no topic of an address it does not list. */
  lemma {:induction false} SnapshotAvoids(prefix: string, devices: seq<Device>, address: int, topic: string)
    requires IsDeviceTopic(prefix, address, topic)
    requires forall j :: 0 <= j < |devices| ==> devices[j].logicalAddress != address
    ensures !Touches(Initialize(prefix, devices), topic)
    decreases |devices|
  {
    if devices != [] {
      var rest := devices[1..];
      DeviceTopicsDisjoint(prefix, address, devices[0].logicalAddress, topic);
      DeviceActionsAvoid(prefix, devices[0], topic);
      assert forall j :: 0 <= j < |rest| ==> rest[j].logicalAddress != address by {
        forall j | 0 <= j < |rest|
          ensures rest[j].logicalAddress != address
        {
          assert rest[j] == devices[j + 1];
        }
      }
      SnapshotAvoids(prefix, rest, address, topic);
      InitializeCons(prefix, devices);
      TouchesAppend(DeviceActions(prefix, devices[0]), Initialize(prefix, rest), topic);
    }
  }

  ghost predicate DistinctAddresses(devices: seq<Device>) {
    forall i, j :: 0 <= i < j < |devices| ==> devices[i].logicalAddress != devices[j].logicalAddress
  }

  /** The retained state a late subscriber is handed for device `d`. */
  ghost predicate Reflects(store: map<string, string>, prefix: string, d: Device) {
    && Shows(store, Prefixify(prefix, SourceTopic(d.logicalAddress, Active)), FormatBool(d.activeSource))
    && Shows(store, Prefixify(prefix, SourceTopic(d.logicalAddress, Name)), d.osdName)
    && Shows(store, Prefixify(prefix, SourceTopic(d.logicalAddress, Power)), d.powerStatus)
  }

  /** A device's own three publications leave its three topics showing its state. */
  lemma DeviceActionsReflect(prefix: string, d: Device, store: map<string, string>)
    ensures Reflects(Retain(store, DeviceActions(prefix, d)), prefix, d)
  {
    var head := DeviceActions(prefix, d);
    var a := d.logicalAddress;
    DeviceTopicsApart(prefix, a, Active, a, Name);
    DeviceTopicsApart(prefix, a, Active, a, Power);
    DeviceTopicsApart(prefix, a, Name, a, Power);
    var s1 := ApplyRetained(store, head[0]);
    var s2 := ApplyRetained(s1, head[1]);
    var s3 := ApplyRetained(s2, head[2]);
    ApplyShows(store, head[0]);
    ApplyKeeps(s1, head[1], head[0].topic, head[0].payload);
    ApplyShows(s1, head[1]);
    ApplyKeeps(s2, head[2], head[0].topic, head[0].payload);
    ApplyKeeps(s2, head[2], head[1].topic, head[1].payload);
    ApplyShows(s2, head[2]);
    RetainThree(store, head);
  }

  /** After the snapshot, whatever the broker held before, every listed device's
      three topics show that device's state, provided no two entries share a
      logical address. */
  lemma {:induction false} SnapshotRetainedState(prefix: string, devices: seq<Device>, store: map<string, string>)
    requires DistinctAddresses(devices)
    ensures forall i :: 0 <= i < |devices| ==> Reflects(Retain(store, Initialize(prefix, devices)), prefix, devices[i])
    decreases |devices|
  {
    if devices != [] {
      var d := devices[0];
      var rest := devices[1..];
      var head := DeviceActions(prefix, d);
      var tail := Initialize(prefix, rest);
      var mid := Retain(store, head);
      var last := Retain(mid, tail);
      InitializeCons(prefix, devices);
      RetainAppend(store, head, tail);
      SnapshotRetainedState(prefix, rest, mid);
      assert forall j :: 0 <= j < |rest| ==> rest[j].logicalAddress != d.logicalAddress by {
        forall j | 0 <= j < |rest|
          ensures rest[j].logicalAddress != d.logicalAddress
        {
          assert rest[j] == devices[j + 1];
        }
      }
      DeviceActionsReflect(prefix, d, store);
      var a := d.logicalAddress;
      SnapshotAvoids(prefix, rest, a, Prefixify(prefix, SourceTopic(a, Active)));
      SnapshotAvoids(prefix, rest, a, Prefixify(prefix, SourceTopic(a, Name)));
      SnapshotAvoids(prefix, rest, a, Prefixify(prefix, SourceTopic(a, Power)));
      TouchesCoversRetains(tail, Prefixify(prefix, SourceTopic(a, Active)));
      TouchesCoversRetains(tail, Prefixify(prefix, SourceTopic(a, Name)));
      TouchesCoversRetains(tail, Prefixify(prefix, SourceTopic(a, Power)));
      RetainKeepsShows(mid, tail, Prefixify(prefix, SourceTopic(a, Active)), FormatBool(d.activeSource));
      RetainKeepsShows(mid, tail, Prefixify(prefix, SourceTopic(a, Name)), d.osdName);
      RetainKeepsShows(mid, tail, Prefixify(prefix, SourceTopic(a, Power)), d.powerStatus);
      assert Reflects(last, prefix, d);
      forall i | 0 <= i < |devices|
        ensures Reflects(last, prefix, devices[i])
      {
        if i > 0 {
          assert devices[i] == rest[i - 1];
        }
      }
    }
  }

  // ----- One iteration of each forwarding loop -----

  /** PublishCommands: each command string, verbatim and not retained, on cec/command/rx. */
  function OnCommand(prefix: string, c: Command): (r: seq<Action>)
    ensures |r| == 1 && r[0].Publish? && !r[0].retained
    ensures r[0].topic == Prefixify(prefix, CommandRx) && r[0].payload == c.commandString
  {
    [PublishMQTT(prefix, CommandRx, c.commandString, false)]
  }

  /** PublishKeyPresses: a finished press (duration 0) is published, not retained,
      on cec/key as its decimal key code; a repeat produces nothing. */
  function OnKeyPress(prefix: string, k: KeyPress): (r: seq<Action>)
    ensures |r| == 1 <==> k.duration == 0
    ensures k.duration != 0 ==> r == []
    ensures k.duration == 0 ==>
      && r[0].Publish? && !r[0].retained
      && r[0].topic == Prefixify(prefix, KeyPressed)
      && r[0].payload == Itoa(k.keyCode)
      && ParseInt(r[0].payload) == Some(k.keyCode)
  {
    ItoaRoundTrip(k.keyCode);
    if k.duration == 0 then [PublishMQTT(prefix, KeyPressed, Itoa(k.keyCode), false)] else []
  }

  /** PublishSourceActivations: the new state, retained, on the device's active topic. */
  function OnSourceActivation(prefix: string, s: SourceActivation): (r: seq<Action>)
    ensures |r| == 1 && r[0].Publish? && r[0].retained
    ensures r[0].topic == Prefixify(prefix, SourceTopic(s.logicalAddress, Active))
    ensures r[0].payload == "true" <==> s.state
    ensures r[0].payload == "false" <==> !s.state
  {
    [PublishMQTT(prefix, SourceTopic(s.logicalAddress, Active), FormatBool(s.state), true)]
  }

  /** An activation publishes exactly what the snapshot publishes first for a
      device in that state, so both feed the same retained topic the same way. */
  lemma ActivationMatchesSnapshot(prefix: string, d: Device)
    ensures OnSourceActivation(prefix, SourceActivation(d.logicalAddress, d.activeSource))
         == DeviceActions(prefix, d)[..1]
  {}

  /** After an activation the device's active topic shows the new state, and
      every other topic keeps its retained message. */
  lemma ActivationRetainedState(prefix: string, s: SourceActivation, store: map<string, string>, other: string)
    requires other != Prefixify(prefix, SourceTopic(s.logicalAddress, Active))
    ensures Shows(Retain(store, OnSourceActivation(prefix, s)),
                  Prefixify(prefix, SourceTopic(s.logicalAddress, Active)), FormatBool(s.state))
    ensures other in Retain(store, OnSourceActivation(prefix, s)) <==> other in store
    ensures other in store ==> Retain(store, OnSourceActivation(prefix, s))[other] == store[other]
  {}

  /** The topic the hex capture goes to, chosen by the direction marker. */
  function HexTopic(d: Direction): (t: string)
    ensures t == HexRx <==> d == Inbound
    ensures t == HexTx <==> d == Outbound
  {
    match d
    case Inbound => HexRx
    case Outbound => HexTx
  }

  /** PublishMessages: unless logOnly, the line verbatim and not retained on
      cec/message; then, for a line the pattern accepts, its hex capture,
      retained, on cec/message/hex/rx (`<<`) or cec/message/hex/tx (`>>`). */
  function OnMessage(prefix: string, logOnly: bool, message: string): (r: seq<Action>)
    ensures |r| <= 2
    ensures !logOnly ==> |r| >= 1 && r[0] == Publish(Prefixify(prefix, MessageLog), message, false)
    ensures var hex := if logOnly then r else r[1..];
      && (Classify(message).NoMatch? ==> hex == [])
      && (Classify(message).Match? ==>
            hex == [Publish(Prefixify(prefix, HexTopic(Classify(message).direction)), Classify(message).hex, true)])
  {
    var log := if logOnly then [] else [PublishMQTT(prefix, MessageLog, message, false)];
    var hex := match Classify(message)
      case NoMatch => []
      case Match(d, h) => [PublishMQTT(prefix, HexTopic(d), h, true)];
    log + hex
  }

  /** A line yields a retained publication, other than the log copy, exactly
      when it starts with a marker, a `\s` character and two hex digits. */
  lemma MessageHexPublication(prefix: string, logOnly: bool, message: string)
    ensures (exists i :: 0 <= i < |OnMessage(prefix, logOnly, message)| && OnMessage(prefix, logOnly, message)[i].retained)
      <==> && |message| >= 5
           && (message[..2] == ">>" || message[..2] == "<<")
           && IsRegexSpace(message[2])
           && IsHexDigit(message[3]) && IsHexDigit(message[4])
  {
    var r := OnMessage(prefix, logOnly, message);
    if Classify(message).Match? {
      assert r[|r| - 1].retained;
    } else {
      assert forall i :: 0 <= i < |r| ==> !r[i].retained;
    }
  }

  /** The hex publication goes to the marker's topic and carries the longest
      HH(:HH)* word that follows the white space. */
  lemma MessageHexPayload(prefix: string, logOnly: bool, message: string)
    requires Classify(message).Match?
    ensures var r, h := OnMessage(prefix, logOnly, message), Classify(message).hex;
      && r[|r| - 1] == Publish(Prefixify(prefix, if message[..2] == "<<" then HexRx else HexTx), h, true)
      && IsHexOctets(h)
      && message[3..3 + |h|] == h
      && forall k :: |h| < k <= |message| - 3 ==> !IsHexOctets(message[3..][..k])
  {
    ClassifyCapture(message);
  }

  // ----- Whole loops -----

  /** The key codes of finished presses, in arrival order. */
  function Releases(events: seq<KeyPress>): seq<int> {
    if events == [] then []
    else (if events[0].duration == 0 then [events[0].keyCode] else []) + Releases(events[1..])
  }

  /** Key-press collapsing over a whole channel: one cec/key publication per
      finished press, in order, and nothing for repeats. */
  lemma {:induction false} KeyPressesCollapse(prefix: string, events: seq<KeyPress>)
    ensures var out := Forward(k => OnKeyPress(prefix, k), events);
      && |out| == |Releases(events)|
      && forall i :: 0 <= i < |out| ==>
           out[i] == Publish(Prefixify(prefix, KeyPressed), Itoa(Releases(events)[i]), false)
    decreases |events|
  {
    if events != [] {
      var e := events[0];
      var rest := events[1..];
      var f := (code: int) => Publish(Prefixify(prefix, KeyPressed), Itoa(code), false);
      var head := OnKeyPress(prefix, e);
      var codes := if e.duration == 0 then [e.keyCode] else [];
      assert |head| == |codes| && forall i :: 0 <= i < |head| ==> head[i] == f(codes[i]);
      KeyPressesCollapse(prefix, rest);
      var tail := Forward(k => OnKeyPress(prefix, k), rest);
      MapConcat(f, head, codes, tail, Releases(rest));
      assert Forward(k => OnKeyPress(prefix, k), events) == head + tail;
      assert Releases(events) == codes + Releases(rest);
    }
  }

  /** The command loop over a whole channel: one publication per command, in
      arrival order, each carrying its command string verbatim. */
  lemma {:induction false} CommandsVerbatim(prefix: string, commands: seq<Command>)
    ensures var out := Forward(c => OnCommand(prefix, c), commands);
      && |out| == |commands|
      && forall i :: 0 <= i < |out| ==>
           out[i] == Publish(Prefixify(prefix, CommandRx), commands[i].commandString, false)
    decreases |commands|
  {
    if commands != [] {
      var f := (c: Command) => Publish(Prefixify(prefix, CommandRx), c.commandString, false);
      var head := OnCommand(prefix, commands[0]);
      assert head[0] == f(commands[0]);
      CommandsVerbatim(prefix, commands[1..]);
      var tail := Forward(c => OnCommand(prefix, c), commands[1..]);
      MapConcat(f, head, [commands[0]], tail, commands[1..]);
      assert Forward(c => OnCommand(prefix, c), commands) == head + tail;
      assert commands == [commands[0]] + commands[1..];
    }
  }

  /** The message loop never publishes more than twice per line. */
  lemma {:induction false} MessagesBounded(prefix: string, logOnly: bool, lines: seq<string>)
    ensures |Forward(m => OnMessage(prefix, logOnly, m), lines)| <= 2 * |lines|
    decreases |lines|
  {
    if lines != [] {
      MessagesBounded(prefix, logOnly, lines[1..]);
    }
  }
}
