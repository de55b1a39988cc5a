/** The user-space decoder of admitted packets, and when it recognises a question the filter let through. */
module PacketChallenge {
  import opened Bytes
  import Text
  import opened DnsName
  import opened Dns
  import opened PacketFilter

  datatype Transport = Unknown | OverUdp | OverTcp

  datatype Sighting = Sighting(transport: Transport, matched: bool, complete: bool)

  /** Where the DNS message is: nowhere to be had, an empty segment, or a range of the packet. */
  datatype Located = Broken(transport: Transport) | Empty | Message(transport: Transport, from: nat, to: nat)

  function TcpHeader(p: seq<Byte>, h: nat): nat
    requires h + 12 < |p|
  {
    p[h + 12] / 16 * 4
  }

  function Locate(p: seq<Byte>): (l: Located)
    ensures l.Message? ==> l.from <= l.to <= |p|
  {
    if |p| < 20 || p[0] / 16 != 4 then Broken(Unknown)
    else
      var h, total := HeaderLength(p), U16(p, 2);
      if h < 20 || total > |p| || total < h || U16(p, 6) % 16384 != 0 then Broken(Unknown)
      else if p[9] == UDP then
        if total < h + 8 then Broken(OverUdp) else Message(OverUdp, h + 8, total)
      else if p[9] == TCP then
        if total < h + 20 then Broken(OverTcp)
        else
          var start := h + TcpHeader(p, h);
          if start < h + 20 || total < start then Broken(OverTcp)
          else if total == start then Empty
          else if total < start + 2 || U16(p, start) < 12 || start + 2 + U16(p, start) > total then Broken(OverTcp)
          else Message(OverTcp, start + 2, start + 2 + U16(p, start))
      else Broken(Unknown)
  }

  /** A query whose name is the nonce is a match; responses and empty segments are complete non-matches. */
  function Seen(p: seq<Byte>, nonce: seq<Byte>): Sighting {
    match Locate(p)
    case Broken(t) => Sighting(t, false, false)
    case Empty => Sighting(OverTcp, false, true)
    case Message(t, from, to) =>
      SeenIn(p[from..to], t, nonce)
  }

  /** What is seen of a message. */
  function SeenIn(payload: seq<Byte>, t: Transport, nonce: seq<Byte>): Sighting {
    if |payload| < 12 then Sighting(t, false, false)
    else if payload[2] >= 128 then Sighting(t, false, true)
    else
      match Decoded(payload, 12)
      case None => Sighting(t, false, false)
      case Some((name, _)) => Sighting(t, name == nonce, true)
  }

  /** Narrows the capture to the IP packet, then to the payload, then to the message in it. */
  method FindMessage(data: seq<Byte>) returns (l: Located)
    ensures l == Locate(data)
  {
    if |data| < 20 || data[0] / 16 != 4 {
      return Broken(Unknown);
    }
    And0F(data[0]);
    And3FFF(U16(data, 6));
    var h, total := BitAnd(data[0], 15) * 4, U16(data, 2);
    if h < 20 || total > |data| || total < h || BitAnd(U16(data, 6), 0x3fff) != 0 {
      return Broken(Unknown);
    }
    var packet := data[..total];
    if packet[9] == 17 {
      if |packet| < h + 8 {
        return Broken(OverUdp);
      }
      return Message(OverUdp, h + 8, |packet|);
    } else if packet[9] == 6 {
      if |packet| < h + 20 {
        return Broken(OverTcp);
      }
      var header := packet[h + 12] / 16 * 4;
      if header < 20 || |packet| < h + header {
        return Broken(OverTcp);
      }
      var payload := packet[h + header..];
      if |payload| == 0 {
        return Empty;
      }
      if |payload| < 2 {
        return Broken(OverTcp);
      }
      assert payload[0] == data[h + header] && payload[1] == data[h + header + 1];
      var n := U16(payload, 0);
      if n < 12 || n > |payload| - 2 {
        return Broken(OverTcp);
      }
      return Message(OverTcp, h + header + 2, h + header + 2 + n);
    }
    return Broken(Unknown);
  }

  method Challenge(data: seq<Byte>, nonce: seq<Byte>) returns (r: Sighting)
    ensures r == Seen(data, nonce)
  {
    var l := FindMessage(data);
    match l {
      case Broken(transport) => return Sighting(transport, false, false);
      case Empty => return Sighting(OverTcp, false, true);
      case Message(transport, from, to) =>
        r := ChallengeIn(data[from..to], transport, nonce);
    }
  }

  method ChallengeIn(payload: seq<Byte>, transport: Transport, nonce: seq<Byte>) returns (r: Sighting)
    ensures r == SeenIn(payload, transport, nonce)
  {
    if |payload| < 12 {
      return Sighting(transport, false, false);
    }
    ResponseBit(payload);
    if BitAnd(U16(payload, 2), 0x8000) != 0 {
      return Sighting(transport, false, true);
    }
    var name := DecodeName(payload, 12);
    if name.None? {
      return Sighting(transport, false, false);
    }
    return Sighting(transport, name.value.0 == nonce, true);
  }

  lemma ResponseBit(payload: seq<Byte>)
    requires |payload| >= 4
    ensures BitAnd(U16(payload, 2), 0x8000) != 0 <==> payload[2] >= 128
  {
    TopBit(U16(payload, 2));
    assert 0x8000 <= U16(payload, 2) <==> payload[2] >= 128;
  }

  // ----- from admission to recognition

  /** Where the message of an admitted packet starts. */
  function MessageStart(p: seq<Byte>): nat
    requires |p| >= 20 && (p[9] == UDP || HeaderLength(p) + 12 < |p|)
  {
    if p[9] == UDP then HeaderLength(p) + 8 else HeaderLength(p) + TcpHeader(p, HeaderLength(p)) + 2
  }

  /** What a caller can check about an admitted packet before decoding it. */
  predicate Plain(p: seq<Byte>, question: seq<Byte>) {
    && |p| >= 20 && HeaderLength(p) >= 20 && U16(p, 2) <= |p| && (p[9] == UDP || HeaderLength(p) + 12 < |p|)
    && MessageStart(p) + 2 < |p| && p[MessageStart(p) + 2] < 128
    && (p[9] != UDP ==>
          var n := U16(p, MessageStart(p) - 2);
          12 + |question| <= n + 4 && MessageStart(p) + n <= U16(p, 2))
  }

  lemma AdmittedShape(s: Scope, p: seq<Byte>)
    requires Verdict(s, p) == ADMIT
    ensures InScope(s, p) && U16(p, 6) % 16384 == 0 && (p[9] == UDP || HeaderLength(p) + 12 < |p|)
    ensures Slice(p, MessageStart(p) + 12, s.question)
    ensures MessageStart(p) + 12 + |s.question| <= U16(p, 2)
    ensures p[9] != UDP ==> TcpHeader(p, HeaderLength(p)) >= 20
  {
  }

  /**
   A packet the filter admits is recognised exactly when the nonce is spelled canonically and the packet is plain:
   a full header, captured to its stated end, a query, and over TCP a length prefix that covers the name and fits.
   */
  lemma AdmittedIsRecognised(s: Scope, p: seq<Byte>, nonce: seq<Byte>)
    requires QueryDomain(nonce) && s.question == QuestionOf(nonce) && Verdict(s, p) == ADMIT
    ensures Seen(p, nonce) == Sighting(if p[9] == UDP then OverUdp else OverTcp, true, true) <==>
            nonce == Canonical(nonce) && Plain(p, s.question)
    ensures Seen(p, nonce).matched ==> Seen(p, nonce).complete
  {
    AdmittedShape(s, p);
    AdmittedLocated(s, p);
    if Locate(p).Message? {
      MessageSeen(p, nonce);
      LocatedIsRecognised(p, s.question, nonce);
    } else {
      QuestionIsLong(nonce);
      BrokenIsNotPlain(p, s.question, nonce);
    }
  }

  lemma QuestionIsLong(nonce: seq<Byte>)
    requires QueryDomain(nonce)
    ensures |QuestionOf(nonce)| >= 5
  {
  }

  lemma BrokenIsNotPlain(p: seq<Byte>, q: seq<Byte>, nonce: seq<Byte>)
    requires |p| >= 20 && (p[9] == UDP || HeaderLength(p) + 12 < |p|) && Locate(p).Broken?
    requires 5 <= |q| && MessageStart(p) + 12 + |q| <= U16(p, 2)
    requires HeaderLength(p) >= 20 && U16(p, 2) <= |p| ==>
               p[9] != UDP && (U16(p, MessageStart(p) - 2) < 12
                               || U16(p, 2) < MessageStart(p) + U16(p, MessageStart(p) - 2))
    ensures !Seen(p, nonce).complete && !Seen(p, nonce).matched && !Plain(p, q)
  {
  }

  /** The transport, the start and the end of the message of an admitted packet. */
  function Expected(p: seq<Byte>): Located
    requires |p| >= 20 && (p[9] == UDP || HeaderLength(p) + 12 < |p|) && MessageStart(p) <= |p|
  {
    var from := MessageStart(p);
    if p[9] == UDP then Message(OverUdp, from, U16(p, 2)) else Message(OverTcp, from, from + U16(p, from - 2))
  }

  lemma LocatedIsRecognised(p: seq<Byte>, q: seq<Byte>, nonce: seq<Byte>)
    requires |p| >= 20 && HeaderLength(p) >= 20 && U16(p, 2) <= |p| && (p[9] == UDP || HeaderLength(p) + 12 < |p|)
    requires MessageStart(p) + 12 + |q| <= U16(p, 2) && Locate(p) == Expected(p)
    requires var l := Locate(p);
             l.from + 12 <= l.to && Seen(p, nonce) == SeenName(p, l.transport, l.from, l.to, q, nonce)
    ensures Seen(p, nonce) == Sighting(if p[9] == UDP then OverUdp else OverTcp, true, true) <==>
            nonce == Canonical(nonce) && Plain(p, q)
    ensures Seen(p, nonce).matched ==> Seen(p, nonce).complete
  {
  }

  /** What is seen of a message that begins like the query for the nonce. */
  function SeenName(p: seq<Byte>, t: Transport, from: nat, to: nat, q: seq<Byte>, nonce: seq<Byte>): Sighting
    requires from + 12 <= to <= |p|
  {
    if p[from + 2] >= 128 then Sighting(t, false, true)
    else if 12 + |q| <= to - from + 4 then Sighting(t, Canonical(nonce) == nonce, true)
    else Sighting(t, false, false)
  }

  /** Where the message of an admitted packet lies, when it can be located. */
  lemma AdmittedLocated(s: Scope, p: seq<Byte>)
    requires Verdict(s, p) == ADMIT && InScope(s, p) && (p[9] == UDP || HeaderLength(p) + 12 < |p|)
    requires MessageStart(p) + 12 + |s.question| <= U16(p, 2) && (p[9] != UDP ==> TcpHeader(p, HeaderLength(p)) >= 20)
    requires U16(p, 6) % 16384 == 0
    ensures Locate(p).Message? <==>
            HeaderLength(p) >= 20 && U16(p, 2) <= |p|
            && (p[9] == UDP ||
                (12 <= U16(p, MessageStart(p) - 2) && MessageStart(p) + U16(p, MessageStart(p) - 2) <= U16(p, 2)))
    ensures Locate(p).Message? ==> MessageStart(p) <= |p| && Locate(p) == Expected(p)
    ensures !Locate(p).Message? ==> Locate(p).Broken?
  {
  }

  lemma MessageSeen(p: seq<Byte>, nonce: seq<Byte>)
    requires QueryDomain(nonce) && Locate(p).Message?
    requires var l := Locate(p); l.from + 12 <= l.to && Slice(p, l.from + 12, QuestionOf(nonce))
    ensures var l := Locate(p); Seen(p, nonce) == SeenName(p, l.transport, l.from, l.to, QuestionOf(nonce), nonce)
  {
    var l := Locate(p);
    if 12 + |QuestionOf(nonce)| <= l.to - l.from + 4 {
      NameDecodes(p, l.from, l.to, nonce);
    } else {
      NameCut(p, l.from, l.to, nonce);
    }
  }

  /** The name is decoded even when the message ends inside the type and class that follow it. */
  lemma NameDecodes(p: seq<Byte>, from: nat, to: nat, nonce: seq<Byte>)
    requires QueryDomain(nonce) && Slice(p, from + 12, QuestionOf(nonce))
    requires from + 12 + |QuestionOf(nonce)| - 4 <= to <= |p|
    ensures Decoded(p[from..to], 12) == Some((Canonical(nonce), 12 + |QuestionOf(nonce)| - 4))
  {
    var labels, w := Labels(nonce), Wire(Labels(nonce));
    NameBytes(p, from, to, nonce, |w| + 1);
    var data := p[from..to];
    var name := data[12..12 + |w| + 1];
    assert name == w + [0];
    assert data[12 + |w|] == name[|w|];
    Slices(data, 12, 12 + |w| + 1, 0, |w|);
    NameFacts(nonce);
    WireDecodes(data, 12, labels, STEPS);
    CanonicalIsLower(nonce);
  }

  lemma NameFacts(nonce: seq<Byte>)
    requires QueryDomain(nonce)
    ensures forall i :: 0 <= i < |Labels(nonce)| ==> WireLabel(Labels(nonce)[i])
    ensures JoinDots(Labels(nonce)) == Canonical(nonce) && |Labels(nonce)| < STEPS
  {
    var labels := Labels(nonce);
    LabelsAreWire(nonce);
    Text.JoinSplit(Canonical(nonce), DOT);
    JoinLength(labels);
  }

  /** The first n bytes of the name field, seen from inside the message. */
  lemma NameBytes(p: seq<Byte>, from: nat, to: nat, nonce: seq<Byte>, n: nat)
    requires QueryDomain(nonce) && Slice(p, from + 12, QuestionOf(nonce))
    requires n <= |Wire(Labels(nonce))| + 1 && from + 12 + n <= to <= |p|
    ensures p[from..to][12..12 + n] == (Wire(Labels(nonce)) + [0])[..n]
  {
    var q := QuestionOf(nonce);
    var w := Wire(Labels(nonce)) + [0];
    assert q == w + INTERNET && q[0..n] == w[..n];
    Slices(p, from, to, 12, 12 + n);
    Slices(p, from + 12, from + 12 + |q|, 0, n);
  }

  /** A message that ends inside the name has no name. */
  lemma NameCut(p: seq<Byte>, from: nat, to: nat, nonce: seq<Byte>)
    requires QueryDomain(nonce) && Slice(p, from + 12, QuestionOf(nonce))
    requires from + 12 <= to < from + 12 + |QuestionOf(nonce)| - 4 && to <= |p|
    ensures Decoded(p[from..to], 12) == None
  {
    var data := p[from..to];
    NameBytes(p, from, to, nonce, |data| - 12);
    NameFacts(nonce);
    WireCut(data, 12, Labels(nonce), STEPS);
  }

  lemma {:induction false} WireCut(data: seq<Byte>, off: nat, labels: seq<Label>, steps: nat)
    requires forall i :: 0 <= i < |labels| ==> WireLabel(labels[i])
    requires off <= |data| <= off + |Wire(labels)|
    requires data[off..|data|] == (Wire(labels) + [0])[..|data| - off]
    ensures NameAt(data, off, steps) == None
    decreases |labels|
  {
    if labels != [] && steps > 0 && off < |data| {
      var l, w := labels[0], Wire(labels[1..]);
      assert Wire(labels) + [0] == [|l|] + l + (w + [0]);
      CutFront(data, off, l, w + [0]);
      if off + 1 + |l| <= |data| {
        WireCut(data, off + 1 + |l|, labels[1..], steps - 1);
      }
    }
  }

  lemma CutFront(data: seq<Byte>, off: nat, l: Label, w: seq<Byte>)
    requires off < |data| <= off + 1 + |l| + |w| && data[off..|data|] == ([|l|] + l + w)[..|data| - off]
    ensures data[off] == |l|
    ensures var next := off + 1 + |l|; next <= |data| ==> data[next..|data|] == w[..|data| - next]
  {
    var here, full := data[off..|data|], [|l|] + l + w;
    assert data[off] == here[0] == full[0];
    var next := off + 1 + |l|;
    if next <= |data| {
      assert full[1 + |l|..] == w;
      assert here[1 + |l|..|here|] == w[..|data| - next];
      Slices(data, off, |data|, 1 + |l|, |here|);
    }
  }
}
