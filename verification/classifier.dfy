/** Recogniser for the raw-message pattern of the message loop,
      ^(>>|<<)\s([0-9A-Fa-f]{2}(?::[0-9A-Fa-f]{2})*)
    as Go's regexp evaluates it with FindStringSubmatch: anchored at the start
    of the line, not at its end, `\s` being RE2's Perl class, and the greedy
    star taking as many `:HH` groups as the line offers. */
module Classifier {

  predicate IsHexDigit(c: char) {
    '0' <= c <= '9' || 'A' <= c <= 'F' || 'a' <= c <= 'f'
  }

  /** RE2's `\s`: tab, newline, form feed, carriage return and space; not vertical tab. */
  predicate IsRegexSpace(c: char) {
    c == '\t' || c == '\n' || c == '\U{0C}' || c == '\r' || c == ' '
  }

  /** `<<` is traffic the adapter received, `>>` traffic it sent. */
  datatype Direction = Inbound | Outbound

  datatype Classification = NoMatch | Match(direction: Direction, hex: string)

  /** Reference definition of the capture group's language HH(:HH)*:
      hex-digit pairs joined by single colons. */
  ghost predicate IsHexOctets(t: string) {
    && |t| % 3 == 2
    && forall i :: 0 <= i < |t| ==> if i % 3 == 2 then t[i] == ':' else IsHexDigit(t[i])
  }

  /** Length of the longest run of `:HH` groups at the start of `s`. */
  function ColonOctets(s: string): (n: nat)
    ensures n <= |s| && n % 3 == 0
    decreases |s|
  {
    if 3 <= |s| && s[0] == ':' && IsHexDigit(s[1]) && IsHexDigit(s[2]) then
      3 + ColonOctets(s[3..])
    else
      0
  }

  /** Length of the longest HH(:HH)* prefix of `s`, or 0 when `s` does not start with two hex digits. */
  function OctetRun(s: string): (n: nat)
    ensures n <= |s|
    ensures n == 0 || n % 3 == 2
  {
    if 2 <= |s| && IsHexDigit(s[0]) && IsHexDigit(s[1]) then 2 + ColonOctets(s[2..]) else 0
  }

  /** FindStringSubmatch with the pattern above: the marker selects the direction,
      the capture is the octet run right after the one white-space character. */
  function Classify(line: string): (c: Classification)
    ensures c.Match? <==>
      && |line| >= 5
      && (line[..2] == ">>" || line[..2] == "<<")
      && IsRegexSpace(line[2])
      && IsHexDigit(line[3]) && IsHexDigit(line[4])
  {
    if 3 <= |line| && (line[..2] == ">>" || line[..2] == "<<") && IsRegexSpace(line[2]) then
      var n := OctetRun(line[3..]);
      if n == 0 then NoMatch
      else Match(if line[..2] == "<<" then Inbound else Outbound, line[3..3 + n])
    else
      NoMatch
  }

  // ----- The run is a word of the language, and the longest one -----

  lemma {:induction false} ColonOctetsSound(s: string)
    ensures IsHexOctets("00" + s[..ColonOctets(s)])
    decreases |s|
  {
    var n := ColonOctets(s);
    var t := "00" + s[..n];
    if n > 0 {
      var s' := s[3..];
      ColonOctetsSound(s');
      var t' := "00" + s'[..n - 3];
      assert t == "00" + s[..3] + s'[..n - 3];
      forall i | 0 <= i < |t|
        ensures if i % 3 == 2 then t[i] == ':' else IsHexDigit(t[i])
      {
        if i >= 5 {
          assert t[i] == t'[i - 3];
        }
      }
    }
  }

  lemma OctetRunSound(s: string)
    requires OctetRun(s) > 0
    ensures IsHexOctets(s[..OctetRun(s)])
  {
    var n := OctetRun(s);
    ColonOctetsSound(s[2..]);
    var t := "00" + s[2..][..n - 2];
    assert s[..n] == s[..2] + s[2..][..n - 2];
    forall i | 0 <= i < n
      ensures if i % 3 == 2 then s[..n][i] == ':' else IsHexDigit(s[..n][i])
    {
      if i >= 2 {
        assert s[..n][i] == t[i];
      }
    }
  }

  lemma {:induction false} ColonOctetsMaximal(s: string, k: nat)
    requires k <= |s| && IsHexOctets("00" + s[..k])
    ensures k <= ColonOctets(s)
    decreases |s|
  {
    if k > 0 {
      var t := "00" + s[..k];
      assert |t| == k + 2;
      assert k % 3 == 0;
      assert t[2] == s[0] && t[3] == s[1] && t[4] == s[2];
      assert s[0] == ':' && IsHexDigit(s[1]) && IsHexDigit(s[2]);
      var s' := s[3..];
      var t' := "00" + s'[..k - 3];
      forall i | 0 <= i < |t'|
        ensures if i % 3 == 2 then t'[i] == ':' else IsHexDigit(t'[i])
      {
        if i >= 2 {
          assert t'[i] == t[i + 3];
          assert (i + 3) % 3 == i % 3;
        }
      }
      ColonOctetsMaximal(s', k - 3);
    }
  }

  /** No longer prefix of `s` is in the language than the one OctetRun takes. */
  lemma OctetRunMaximal(s: string, k: nat)
    requires k <= |s| && IsHexOctets(s[..k])
    ensures k <= OctetRun(s)
  {
    var t := s[..k];
    assert t[0] == s[0] && t[1] == s[1];
    var t' := "00" + s[2..][..k - 2];
    forall i | 0 <= i < |t'|
      ensures if i % 3 == 2 then t'[i] == ':' else IsHexDigit(t'[i])
    {
      if i >= 2 {
        assert t'[i] == t[i];
      }
    }
    ColonOctetsMaximal(s[2..], k - 2);
  }

  // ----- Classify against the pattern -----

  /** On a match the direction is read off the marker, and the capture is the
      longest HH(:HH)* word right after the white space, excluding the marker. */
  lemma ClassifyCapture(line: string)
    requires Classify(line).Match?
    ensures Classify(line).direction == Inbound <==> line[..2] == "<<"
    ensures Classify(line).direction == Outbound <==> line[..2] == ">>"
    ensures var h := Classify(line).hex;
      && 3 + |h| <= |line| && line[3..3 + |h|] == h
      && IsHexOctets(h)
      && forall k :: |h| < k <= |line| - 3 ==> !IsHexOctets(line[3..][..k])
  {
    var s := line[3..];
    OctetRunSound(s);
    assert s[..OctetRun(s)] == Classify(line).hex;
    forall k | OctetRun(s) < k <= |s|
      ensures !IsHexOctets(s[..k])
    {
      if IsHexOctets(s[..k]) {
        OctetRunMaximal(s, k);
      }
    }
  }

  /** Text after the octets is ignored. */
  lemma ClassifyIgnoresTrailingText()
    ensures Classify(">> 10:8F x") == Match(Outbound, "10:8F")
  {
    var line := ">> 10:8F x";
    assert line[..2] == ">>";
    assert line[3..] == "10:8F x";
    assert "10:8F x"[2..] == ":8F x";
    assert ":8F x"[3..] == " x";
    assert ColonOctets(" x") == 0;
    assert ColonOctets(":8F x") == 3;
    assert line[3..3 + 5] == "10:8F";
  }

  /** A colon whose octet lacks its second digit ends the capture before it. */
  lemma ClassifyStopsAtHalfOctet()
    ensures Classify(">> 10:8") == Match(Outbound, "10")
  {
    var line := ">> 10:8";
    assert line[..2] == ">>";
    assert line[3..] == "10:8";
    assert "10:8"[2..] == ":8";
    assert ColonOctets(":8") == 0;
    assert line[3..3 + 2] == "10";
  }

  /** A single octet of received traffic. */
  lemma ClassifyInbound()
    ensures Classify("<< 04") == Match(Inbound, "04")
  {}

  /** No white space after the marker, half an octet, a vertical tab (not in
      RE2's `\s`), and ordinary text all fail to match. */
  lemma ClassifyRejects()
    ensures Classify(">>10:8F") == NoMatch
    ensures Classify(">> 1") == NoMatch
    ensures Classify(">>\U{0B}10") == NoMatch
    ensures Classify("hello world") == NoMatch
  {}
}
