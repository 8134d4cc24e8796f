/** What the bridge does to its two collaborators, as values: a publication on
    the MQTT client, or one of the two outbound calls on the CEC connection.
    Every translation step of the bridge returns the ordered list of these. */
module Actions {
  import opened Text
  import opened Topics

  datatype Action =
    | Publish(topic: string, payload: string, retained: bool)  // MQTT client Publish, QoS 0
    | Transmit(command: string)                                // CEC connection Transmit
    | KeySend(address: int, key: string)                       // CEC connection Key

  /** PublishMQTT: namespaces the subtopic once and hands payload and retained flag through. */
  function PublishMQTT(prefix: string, subtopic: string, message: string, retained: bool): (a: Action)
    ensures a.Publish? && a.payload == message && a.retained == retained
    ensures Blank(prefix) ==> a.topic == subtopic
    ensures !Blank(prefix) ==> a.topic == prefix + "/" + subtopic
  {
    Publish(Prefixify(prefix, subtopic), message, retained)
  }

  /** One forwarding loop over a channel: each event in turn, its actions in order. */
  function Forward<E>(step: E -> seq<Action>, events: seq<E>): seq<Action>
  {
    if events == [] then [] else step(events[0]) + Forward(step, events[1..])
  }

  /** Forwarding keeps the channel's FIFO order: the output for a stream that
      is one batch then another is the first batch's output then the second's. */
  lemma {:induction false} ForwardAppend<E>(step: E -> seq<Action>, a: seq<E>, b: seq<E>)
    ensures Forward(step, a + b) == Forward(step, a) + Forward(step, b)
    decreases |a|
  {
    if a != [] {
      assert (a + b)[1..] == a[1..] + b;
      ForwardAppend(step, a[1..], b);
    } else {
      assert a + b == b;
    }
  }

  /** A step that always gives `n` actions gives `n` per event over a stream. */
  lemma {:induction false} ForwardLength<E>(step: E -> seq<Action>, events: seq<E>, n: nat)
    requires forall e :: |step(e)| == n
    ensures |Forward(step, events)| == n * |events|
    decreases |events|
  {
    if events != [] {
      ForwardLength(step, events[1..], n);
    }
  }

  /** With such a step, event i's actions sit, in order, at positions n*i to n*i+n-1. */
  lemma {:induction false} ForwardLayout<E>(step: E -> seq<Action>, events: seq<E>, n: nat, i: nat)
    requires forall e :: |step(e)| == n
    requires i < |events|
    ensures n * i + n <= |Forward(step, events)|
    ensures Forward(step, events)[n * i..n * i + n] == step(events[i])
    decreases i
  {
    ForwardLength(step, events, n);
    var head := step(events[0]);
    var tail := Forward(step, events[1..]);
    assert Forward(step, events) == head + tail;
    if i > 0 {
      ForwardLayout(step, events[1..], n, i - 1);
      assert events[1..][i - 1] == events[i];
      assert n * i == n * (i - 1) + n;
      assert tail[n * (i - 1)..n * (i - 1) + n] == (head + tail)[n * i..n * i + n];
    } else {
      assert (head + tail)[..n] == head;
    }
  }

  /** A property every action of every step has, every action of the stream has. */
  lemma {:induction false} ForwardEvery<E>(step: E -> seq<Action>, events: seq<E>, p: Action -> bool)
    requires forall e, j :: 0 <= j < |step(e)| ==> p(step(e)[j])
    ensures forall j :: 0 <= j < |Forward(step, events)| ==> p(Forward(step, events)[j])
    decreases |events|
  {
    if events != [] {
      ForwardEvery(step, events[1..], p);
      var head := step(events[0]);
      var tail := Forward(step, events[1..]);
      forall j | 0 <= j < |head + tail|
        ensures p((head + tail)[j])
      {
        if j >= |head| {
          assert (head + tail)[j] == tail[j - |head|];
        }
      }
    }
  }

  /** Two action lists that are pointwise images of two value lists concatenate
      to the pointwise image of the concatenated values. */
  lemma MapConcat<T>(f: T -> Action, a: seq<Action>, xs: seq<T>, b: seq<Action>, ys: seq<T>)
    requires |a| == |xs| && forall i :: 0 <= i < |a| ==> a[i] == f(xs[i])
    requires |b| == |ys| && forall i :: 0 <= i < |b| ==> b[i] == f(ys[i])
    ensures |a + b| == |xs + ys|
    ensures forall i :: 0 <= i < |a + b| ==> (a + b)[i] == f((xs + ys)[i])
  {}

  // ----- What a late subscriber sees -----
  // The broker keeps the last retained message per topic, and a retained
  // publication with an empty payload removes it (section 3.3.1.3 of MQTT 3.1.1).
  // Non-retained publications and CEC calls leave that store alone.

  function ApplyRetained(store: map<string, string>, a: Action): map<string, string> {
    if a.Publish? && a.retained then
      if a.payload == [] then store - {a.topic} else store[a.topic := a.payload]
    else store
  }

  function Retain(store: map<string, string>, actions: seq<Action>): map<string, string>
    decreases |actions|
  {
    if actions == [] then store else Retain(ApplyRetained(store, actions[0]), actions[1..])
  }

  /** A subscriber to `topic` is handed `payload` on subscribing (nothing, for an empty payload). */
  ghost predicate Shows(store: map<string, string>, topic: string, payload: string) {
    if payload == [] then topic !in store else topic in store && store[topic] == payload
  }

  ghost predicate Touches(actions: seq<Action>, topic: string) {
    exists i :: 0 <= i < |actions| && actions[i].Publish? && actions[i].topic == topic
  }

  /** Some retained publication in `actions` goes to `topic`; only these change its retained message. */
  ghost predicate RetainsOn(actions: seq<Action>, topic: string) {
    exists i :: 0 <= i < |actions| && actions[i].Publish? && actions[i].retained && actions[i].topic == topic
  }

  lemma TouchesCoversRetains(actions: seq<Action>, topic: string)
    ensures RetainsOn(actions, topic) ==> Touches(actions, topic)
  {}

  lemma TouchesAppend(a: seq<Action>, b: seq<Action>, topic: string)
    ensures Touches(a + b, topic) <==> Touches(a, topic) || Touches(b, topic)
  {
    if Touches(a + b, topic) {
      var i :| 0 <= i < |a + b| && (a + b)[i].Publish? && (a + b)[i].topic == topic;
      if i >= |a| {
        assert (a + b)[i] == b[i - |a|];
      }
    }
    if Touches(b, topic) {
      var i :| 0 <= i < |b| && b[i].Publish? && b[i].topic == topic;
      assert (a + b)[i + |a|] == b[i];
    }
    if Touches(a, topic) {
      var i :| 0 <= i < |a| && a[i].Publish? && a[i].topic == topic;
      assert (a + b)[i] == a[i];
    }
  }

  lemma {:induction false} RetainAppend(store: map<string, string>, a: seq<Action>, b: seq<Action>)
    ensures Retain(store, a + b) == Retain(Retain(store, a), b)
    decreases |a|
  {
    if a != [] {
      assert (a + b)[1..] == a[1..] + b;
      RetainAppend(ApplyRetained(store, a[0]), a[1..], b);
    } else {
      assert a + b == b;
    }
  }

  /** Publications elsewhere, and non-retained ones anywhere, leave a topic's
      retained message as it was. */
  lemma {:induction false} RetainFrame(store: map<string, string>, actions: seq<Action>, topic: string)
    requires !RetainsOn(actions, topic)
    ensures topic in Retain(store, actions) <==> topic in store
    ensures topic in store ==> Retain(store, actions)[topic] == store[topic]
    decreases |actions|
  {
    if actions != [] {
      assert !RetainsOn(actions[1..], topic) by {
        forall i | 0 <= i < |actions[1..]|
          ensures !(actions[1..][i].Publish? && actions[1..][i].retained && actions[1..][i].topic == topic)
        {
          assert actions[1..][i] == actions[i + 1];
        }
      }
      assert !(actions[0].Publish? && actions[0].retained && actions[0].topic == topic);
      RetainFrame(ApplyRetained(store, actions[0]), actions[1..], topic);
    }
  }

  lemma ApplyShows(store: map<string, string>, a: Action)
    requires a.Publish? && a.retained
    ensures Shows(ApplyRetained(store, a), a.topic, a.payload)
  {}

  lemma ApplyKeeps(store: map<string, string>, a: Action, topic: string, payload: string)
    requires a.Publish? && a.retained ==> a.topic != topic
    requires Shows(store, topic, payload)
    ensures Shows(ApplyRetained(store, a), topic, payload)
  {}

  lemma RetainThree(store: map<string, string>, actions: seq<Action>)
    requires |actions| == 3
    ensures Retain(store, actions)
         == ApplyRetained(ApplyRetained(ApplyRetained(store, actions[0]), actions[1]), actions[2])
  {
    var s1 := ApplyRetained(store, actions[0]);
    var s2 := ApplyRetained(s1, actions[1]);
    assert actions[1..][0] == actions[1];
    assert actions[1..][1..][0] == actions[2];
    assert actions[1..][1..][1..] == [];
    assert Retain(store, actions) == Retain(s1, actions[1..]);
    assert Retain(s1, actions[1..]) == Retain(s2, actions[1..][1..]);
  }

  /** What a topic shows survives publications elsewhere and non-retained ones. */
  lemma RetainKeepsShows(store: map<string, string>, actions: seq<Action>, topic: string, payload: string)
    requires !RetainsOn(actions, topic) && Shows(store, topic, payload)
    ensures Shows(Retain(store, actions), topic, payload)
  {
    RetainFrame(store, actions, topic);
  }

  /** The last retained publication on a topic decides what it shows, whatever
      non-retained publications follow it there. */
  lemma RetainLast(store: map<string, string>, a: Action, rest: seq<Action>)
    requires a.Publish? && a.retained && !RetainsOn(rest, a.topic)
    ensures Shows(Retain(store, [a] + rest), a.topic, a.payload)
  {
    RetainAppend(store, [a], rest);
    RetainFrame(ApplyRetained(store, a), rest, a.topic);
  }

  /** A live publication after a retained one on the same topic does not displace it. */
  lemma LiveAfterRetained(store: map<string, string>, t: string, p: string, q: string)
    ensures Shows(Retain(store, [Publish(t, p, true), Publish(t, q, false)]), t, p)
  {
    var rest := [Publish(t, q, false)];
    assert !RetainsOn(rest, t);
    RetainLast(store, Publish(t, p, true), rest);
    assert [Publish(t, p, true)] + rest == [Publish(t, p, true), Publish(t, q, false)];
  }
}
