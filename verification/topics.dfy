/** The MQTT topic surface of the bridge and its namespacing by a configured prefix. */
module Topics {
  import opened Text

  // Subtopics the bridge publishes to.
  const CommandRx: string := "cec/command/rx"
  const KeyPressed: string := "cec/key"
  const MessageLog: string := "cec/message"
  const HexRx: string := "cec/message/hex/rx"
  const HexTx: string := "cec/message/hex/tx"

  // Subtopics the bridge subscribes to; it also acknowledges on them.
  const CommandTx: string := "cec/command/tx"
  const KeySendRequest: string := "cec/key/send"

  // Per-device attributes under cec/source/<logical address>/.
  const Active: string := "active"
  const Name: string := "name"
  const Power: string := "power"

  /** prefixify: a prefix that is empty or all white space leaves the subtopic
      alone; any other prefix is joined to it, untrimmed, with a '/'. */
  function Prefixify(prefix: string, subtopic: string): (t: string)
    ensures Blank(prefix) ==> t == subtopic
    ensures !Blank(prefix) ==> t == prefix + "/" + subtopic
  {
    TrimSpaceEmptyIffBlank(prefix);
    if |TrimSpace(prefix)| > 0 then prefix + "/" + subtopic else subtopic
  }

  /** No prefix, a prefix of spaces only, and a two-level prefix. */
  lemma PrefixifyExamples()
    ensures Prefixify("", KeyPressed) == "cec/key"
    ensures Prefixify("  ", "x") == "x"
    ensures Prefixify("home/tv", KeyPressed) == "home/tv/cec/key"
  {}

  /** Whatever the prefix, the topic ends with the subtopic. */
  lemma PrefixifyEndsWithSubtopic(prefix: string, subtopic: string)
    ensures var t := Prefixify(prefix, subtopic);
      |subtopic| <= |t| && t[|t| - |subtopic|..] == subtopic
  {}

  /** Under one prefix, distinct subtopics stay distinct. */
  lemma PrefixifyInjective(prefix: string, a: string, b: string)
    ensures Prefixify(prefix, a) == Prefixify(prefix, b) ==> a == b
  {
    if !Blank(prefix) && Prefixify(prefix, a) == Prefixify(prefix, b) {
      var n := |prefix| + 1;
      assert a == (prefix + "/" + a)[n..];
      assert b == (prefix + "/" + b)[n..];
    }
  }

  /** Index of the first '/' in `s`, or |s| when there is none. */
  function SlashIndex(s: string): (n: nat)
    ensures n <= |s|
    ensures forall i :: 0 <= i < n ==> s[i] != '/'
    ensures n < |s| ==> s[n] == '/'
  {
    if s == [] then 0 else if s[0] == '/' then 0 else 1 + SlashIndex(s[1..])
  }

  /** Reference decoder for device topics: "cec/source/", a decimal address up
      to the first '/', then the attribute. */
  function ParseSourceTopic(t: string): Option<(int, string)> {
    if |t| < 11 || t[..11] != "cec/source/" then None
    else
      var rest := t[11..];
      var n := SlashIndex(rest);
      if n == |rest| then None
      else match ParseInt(rest[..n])
        case None => None
        case Some(address) => Some((address, rest[n + 1..]))
  }

  /** cec/source/<logical address>/<attribute>, the address rendered by strconv.Itoa. */
  function SourceTopic(address: int, attribute: string): (t: string)
    ensures |t| == 12 + |Itoa(address)| + |attribute|
  {
    "cec/source/" + (Itoa(address) + "/" + attribute)
  }

  /** The reference decoder reads the address and the attribute back from a source topic. */
  lemma SourceTopicParses(address: int, attribute: string)
    ensures ParseSourceTopic(SourceTopic(address, attribute)) == Some((address, attribute))
  {
    var w := Itoa(address) + "/" + attribute;
    var t := SourceTopic(address, attribute);
    ItoaHasNoSlash(address);
    ItoaRoundTrip(address);
    assert t[..11] == "cec/source/" && t[11..] == w;
    SlashFirst(Itoa(address), attribute);
  }

  /** The first '/' of a slash-free head joined to a tail is the joining one. */
  lemma SlashFirst(p: string, x: string)
    requires forall i :: 0 <= i < |p| ==> p[i] != '/'
    ensures SlashIndex(p + "/" + x) == |p|
    ensures (p + "/" + x)[..|p|] == p && (p + "/" + x)[|p| + 1..] == x
  {
    SlashIndexOfClean(p, "/" + x);
    assert p + "/" + x == p + ("/" + x);
  }

  lemma {:induction false} SlashIndexOfClean(p: string, y: string)
    requires forall i :: 0 <= i < |p| ==> p[i] != '/'
    requires y != [] && y[0] == '/'
    ensures SlashIndex(p + y) == |p|
    decreases |p|
  {
    if p != [] {
      assert (p + y)[1..] == p[1..] + y;
      SlashIndexOfClean(p[1..], y);
    } else {
      assert p + y == y;
    }
  }

  /** The address and the attribute can be read back from a source topic. */
  lemma SourceTopicInjective(a: int, x: string, b: int, y: string)
    ensures SourceTopic(a, x) == SourceTopic(b, y) ==> a == b && x == y
  {
    SourceTopicParses(a, x);
    SourceTopicParses(b, y);
  }
}
