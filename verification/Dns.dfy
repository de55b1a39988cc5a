/** DNS queries and responses: sections 4.1.1 and 4.1.2 of RFC 1035, OPT of RFC 6891, extended errors of RFC 8914. */
module Dns {
  import opened Bytes
  import opened Text
  import opened DnsName

  predicate Kelvin(s: seq<Byte>) {
    |s| >= 3 && s[0] == 0xE2 && s[1] == 0x84 && s[2] == 0xAA
  }

  predicate DottedI(s: seq<Byte>) {
    |s| >= 2 && s[0] == 0xC4 && s[1] == 0xB0
  }

  /**
   Lower case of UTF-8 text as far as it is ASCII: the Kelvin sign and the capital I with a dot above have ASCII letters
   as their lower case. Bytes of any other character stay beyond ASCII, and no domain or printable name holds such a
   byte.
   */
  function ToLower(s: seq<Byte>): seq<Byte>
    decreases |s|
  {
    if s == [] then [] else [LowerFirst(s)] + ToLower(s[Unit(s)..])
  }

  /** The bytes of s that are lowered together, and what they become. */
  function Unit(s: seq<Byte>): (n: nat)
    requires s != []
    ensures 1 <= n <= |s|
  {
    if Kelvin(s) then 3 else if DottedI(s) then 2 else 1
  }

  function LowerFirst(s: seq<Byte>): Byte
    requires s != []
  {
    if Kelvin(s) then 107 else if DottedI(s) then 105 else Lower(s[0])
  }

  /** A domain as a query spells it: without one trailing dot, in lower case. */
  function Canonical(domain: seq<Byte>): seq<Byte> {
    ToLower(WithoutDot(domain))
  }

  function WithoutDot(domain: seq<Byte>): seq<Byte> {
    if |domain| > 0 && domain[|domain| - 1] == DOT then domain[..|domain| - 1] else domain
  }

  predicate QueryByte(b: Byte) {
    97 <= b <= 122 || 48 <= b <= 57 || b == 45
  }

  predicate QueryLabel(l: seq<Byte>) {
    1 <= |l| <= 63 && forall i :: 0 <= i < |l| ==> QueryByte(l[i])
  }

  /** The domains a query can be made for. */
  predicate QueryDomain(domain: seq<Byte>) {
    && 1 <= |Canonical(domain)| <= 253
    && forall i :: 0 <= i < |Split(Canonical(domain), DOT)| ==> QueryLabel(Split(Canonical(domain), DOT)[i])
  }

  function Labels(domain: seq<Byte>): (labels: seq<Label>)
    requires QueryDomain(domain)
  {
    Split(Canonical(domain), DOT)
  }

  const INTERNET: seq<Byte> := [0, 1, 0, 1]
  const QUERY_OPT: seq<Byte> := [0, 0, 41, 4, 208, 0, 0, 0, 0, 0, 0]

  function Header(id: nat, flags: nat, additional: nat): (h: seq<Byte>)
    requires id < 0x1_0000 && flags < 0x1_0000 && additional < 0x1_0000
    ensures |h| == 12
  {
    Put16(id) + Put16(flags) + [0, 1, 0, 0, 0, 0] + Put16(additional)
  }

  /** Name, type and class of the one question. */
  function QuestionOf(domain: seq<Byte>): seq<Byte>
    requires QueryDomain(domain)
  {
    Wire(Labels(domain)) + [0] + INTERNET
  }

  function QueryBytes(domain: seq<Byte>, id: nat): seq<Byte>
    requires QueryDomain(domain) && id < 0x1_0000
  {
    Header(id, 0x100, 1) + QuestionOf(domain) + QUERY_OPT
  }

  lemma {:induction false} WireAppend(labels: seq<Label>, l: Label)
    ensures Wire(labels + [l]) == Wire(labels) + [|l|] + l
  {
    if labels == [] {
      assert Wire([l]) == [|l|] + l + Wire([]);
    } else {
      assert (labels + [l])[1..] == labels[1..] + [l];
      WireAppend(labels[1..], l);
    }
  }

  method FitsLabel(part: seq<Byte>) returns (ok: bool)
    ensures ok <==> QueryLabel(part)
  {
    if |part| == 0 || |part| > 63 {
      return false;
    }
    var k := 0;
    while k < |part|
      invariant 0 <= k <= |part| && forall j :: 0 <= j < k ==> QueryByte(part[j])
    {
      if (part[k] < 97 || part[k] > 122) && (part[k] < 48 || part[k] > 57) && part[k] != 45 {
        return false;
      }
      k := k + 1;
    }
    return true;
  }

  method DnsQuery(domain: seq<Byte>, id: nat) returns (r: Option<seq<Byte>>)
    requires id < 0x1_0000
    ensures r.Some? <==> QueryDomain(domain)
    ensures r.Some? ==> r.value == QueryBytes(domain, id)
  {
    var name := Canonical(domain);
    if |name| > 253 || |name| == 0 {
      return None;
    }
    var q: seq<Byte> := Header(id, 0x100, 1);
    var labels := AppendLabels(Split(name, DOT));
    if labels.None? {
      return None;
    }
    q := q + labels.value;
    q := q + [0, 0, 1, 0, 1];
    q := q + [0, 0, 41, 4, 208, 0, 0, 0, 0, 0, 0];
    assert QuestionOf(domain) == labels.value + [0, 0, 1, 0, 1];
    return Some(q);
  }

  /** The labels of a name one after the other, each behind its length; None when one of them is no label. */
  method AppendLabels(parts: seq<seq<Byte>>) returns (r: Option<seq<Byte>>)
    ensures r.Some? <==> forall j :: 0 <= j < |parts| ==> QueryLabel(parts[j])
    ensures r.Some? ==> r.value == Wire(parts)
  {
    var q: seq<Byte> := [];
    ghost var done: seq<Label> := [];
    var i := 0;
    while i < |parts|
      invariant 0 <= i <= |parts| && done == parts[..i] && q == Wire(done)
      invariant forall j :: 0 <= j < i ==> QueryLabel(parts[j])
    {
      var part := parts[i];
      var fits := FitsLabel(part);
      if !fits {
        return None;
      }
      WireAppend(done, part);
      done := done + [part];
      q := q + [|part|];
      q := q + part;
      i := i + 1;
    }
    assert done == parts;
    return Some(q);
  }

  /** The question's name decodes, from any message that has the question at off, to the canonical domain. */
  lemma QuestionDecodes(data: seq<Byte>, off: nat, domain: seq<Byte>)
    requires QueryDomain(domain)
    requires off + |QuestionOf(domain)| <= |data| && data[off..off + |QuestionOf(domain)|] == QuestionOf(domain)
    ensures Decoded(data, off) == Some((Canonical(domain), off + |QuestionOf(domain)| - 4))
    ensures data[off + |QuestionOf(domain)| - 4..off + |QuestionOf(domain)|] == INTERNET
  {
    var labels, w := Labels(domain), Wire(Labels(domain));
    Parts(data, off, w, INTERNET);
    LabelsAreWire(domain);
    JoinSplit(Canonical(domain), DOT);
    JoinLength(labels);
    WireDecodes(data, off, labels, STEPS);
    CanonicalIsLower(domain);
  }

  lemma LabelsAreWire(domain: seq<Byte>)
    requires QueryDomain(domain)
    ensures forall i :: 0 <= i < |Labels(domain)| ==> WireLabel(Labels(domain)[i])
  {
    forall i | 0 <= i < |Labels(domain)|
      ensures WireLabel(Labels(domain)[i])
    {
      assert QueryLabel(Labels(domain)[i]);
    }
  }

  /** A name, its zero byte and what follows, taken apart where they lie. */
  lemma Parts(data: seq<Byte>, off: nat, w: seq<Byte>, t: seq<Byte>)
    requires off + |w| + 1 + |t| <= |data| && data[off..off + |w| + 1 + |t|] == w + [0] + t
    ensures data[off..off + |w|] == w && data[off + |w|] == 0 && data[off + |w| + 1..off + |w| + 1 + |t|] == t
  {
    var q := w + [0] + t;
    assert q[..|w|] == w && q[|w|] == 0 && q[|w| + 1..|q|] == t;
    Slices(data, off, off + |q|, 0, |w|);
    Slices(data, off, off + |q|, |w| + 1, |q|);
    assert data[off + |w|] == data[off..off + |q|][|w|];
  }

  lemma Middle(h: seq<Byte>, q: seq<Byte>, o: seq<Byte>)
    ensures (h + q + o)[|h|..|h| + |q|] == q
  {
  }

  lemma {:induction false} LowerIsLower(s: seq<Byte>)
    ensures LowerAll(ToLower(s)) == ToLower(s)
    decreases |s|
  {
    if s != [] {
      LowerIsLower(s[Unit(s)..]);
    }
  }

  lemma CanonicalIsLower(domain: seq<Byte>)
    ensures LowerAll(Canonical(domain)) == Canonical(domain)
  {
    LowerIsLower(WithoutDot(domain));
  }

  /** A dot at the end counts for itself. */
  lemma {:induction false} LowerDot(s: seq<Byte>)
    requires s != [] && s[|s| - 1] == DOT
    ensures |ToLower(s)| == |ToLower(s[..|s| - 1])| + 1
    decreases |s|
  {
    var n, front := Unit(s), s[..|s| - 1];
    if front != [] {
      assert Unit(front) == n < |s|;
      assert front[n..] == s[n..][..|s[n..]| - 1];
      LowerDot(s[n..]);
    } else {
      assert s[1..] == [];
    }
  }

  /** A trailing dot, which a query drops, stays in the lower case of a domain. */
  lemma DotStays(domain: seq<Byte>)
    requires domain != []
    ensures Canonical(domain) == ToLower(domain) <==> domain[|domain| - 1] != DOT
  {
    if domain[|domain| - 1] == DOT {
      LowerDot(domain);
    }
  }

  /** A query decodes at offset 12 to the canonical domain; the step bound 128 is needed for 127 labels only. */
  lemma QueryDecodes(domain: seq<Byte>, id: nat)
    requires QueryDomain(domain) && id < 0x1_0000
    ensures Decoded(QueryBytes(domain, id), 12) == Some((Canonical(domain), |QueryBytes(domain, id)| - 15))
    ensures |QuestionOf(domain)| == |Canonical(domain)| + 6
    ensures |Labels(domain)| <= 127
    ensures forall steps: nat ::
              NameAt(QueryBytes(domain, id), 12, steps).Some? <==> steps > |Labels(domain)|
  {
    var q := QueryBytes(domain, id);
    Middle(Header(id, 0x100, 1), QuestionOf(domain), QUERY_OPT);
    QuestionDecodes(q, 12, domain);
    QuestionLength(domain);
    StepsNeeded(q, 12, domain);
  }

  /**
   The fixed fields of a query: the identifier, recursion desired and nothing else, one question for an Internet
   address, and one additional record, an empty OPT at the root that offers 1232 bytes.
   */
  lemma QueryFields(domain: seq<Byte>, id: nat)
    requires QueryDomain(domain) && id < 0x1_0000
    ensures var q := QueryBytes(domain, id);
            var off := |q| - 15;
            && off >= 12 && U16(q, 0) == id && U16(q, 2) == 0x100 && U16(q, 4) == 1 && U16(q, 6) == 0 && U16(q, 8) == 0
            && U16(q, 10) == 1 && U16(q, off) == 1 && U16(q, off + 2) == 1
            && q[off + 4] == 0 && U16(q, off + 5) == 41 && U16(q, off + 7) == 1232 && U16(q, off + 9) == 0
            && U16(q, off + 11) == 0 && U16(q, off + 13) == 0
  {
    var q, h, w := QueryBytes(domain, id), Header(id, 0x100, 1), Wire(Labels(domain));
    QuestionLength(domain);
    var off := |q| - 15;
    HeaderStarts(id);
    assert q[..12] == h;
    assert q[off..] == INTERNET + QUERY_OPT;
    Head16(q, 12, id);
    Tail16(q, off);
  }

  lemma HeaderStarts(id: nat)
    requires id < 0x1_0000
    ensures var h := Header(id, 0x100, 1);
            && U16(h, 0) == id && U16(h, 2) == 0x100 && U16(h, 4) == 1 && U16(h, 6) == 0 && U16(h, 8) == 0
            && U16(h, 10) == 1
  {
    var h := Header(id, 0x100, 1);
    assert h[0] == Put16(id)[0] && h[1] == Put16(id)[1];
    assert h[2..] == [1, 0, 0, 1, 0, 0, 0, 0, 0, 1];
    assert forall i :: 2 <= i < 12 ==> h[i] == h[2..][i - 2];
  }

  lemma Head16(q: seq<Byte>, n: nat, id: nat)
    requires n == 12 <= |q| && id < 0x1_0000 && q[..n] == Header(id, 0x100, 1)
    ensures U16(q, 0) == id && U16(q, 2) == 0x100 && U16(q, 4) == 1 && U16(q, 6) == 0 && U16(q, 8) == 0
    ensures U16(q, 10) == 1
  {
    HeaderStarts(id);
    assert forall i :: 0 <= i < 12 ==> q[i] == q[..n][i];
  }

  lemma Tail16(q: seq<Byte>, off: nat)
    requires off + 15 == |q| && q[off..] == INTERNET + QUERY_OPT
    ensures U16(q, off) == 1 && U16(q, off + 2) == 1 && q[off + 4] == 0 && U16(q, off + 5) == 41
    ensures U16(q, off + 7) == 1232 && U16(q, off + 9) == 0 && U16(q, off + 11) == 0 && U16(q, off + 13) == 0
  {
    assert forall i :: 0 <= i < 15 ==> q[off + i] == (INTERNET + QUERY_OPT)[i];
  }

  lemma QuestionLength(domain: seq<Byte>)
    requires QueryDomain(domain)
    ensures |QuestionOf(domain)| == |Canonical(domain)| + 6 && |Labels(domain)| <= 127
  {
    LabelsAreWire(domain);
    JoinSplit(Canonical(domain), DOT);
    JoinLength(Labels(domain));
    WireLength(Labels(domain));
  }

  /** The name of the question, wherever it lies, takes one step more than it has labels. */
  lemma StepsNeeded(data: seq<Byte>, off: nat, domain: seq<Byte>)
    requires QueryDomain(domain)
    requires off + |QuestionOf(domain)| <= |data| && data[off..off + |QuestionOf(domain)|] == QuestionOf(domain)
    ensures forall steps: nat :: NameAt(data, off, steps).Some? <==> steps > |Labels(domain)|
  {
    LabelsAreWire(domain);
    Parts(data, off, Wire(Labels(domain)), INTERNET);
    forall steps: nat
      ensures NameAt(data, off, steps).Some? <==> steps > |Labels(domain)|
    {
      WireDecodes(data, off, Labels(domain), steps);
    }
  }

  // ----- the longest chain of labels

  function Ones(n: nat): (labels: seq<Label>)
    ensures |labels| == n && forall i :: 0 <= i < n ==> labels[i] == [97]
  {
    if n == 0 then [] else [[97]] + Ones(n - 1)
  }

  lemma {:induction false} PlainIsLower(s: seq<Byte>)
    requires forall i :: 0 <= i < |s| ==> QueryByte(s[i]) || s[i] == DOT
    ensures ToLower(s) == s
  {
    if s != [] {
      PlainFirst(s);
      PlainIsLower(s[1..]);
      assert s == [s[0]] + s[1..];
    }
  }

  lemma PlainFirst(s: seq<Byte>)
    requires s != [] && (QueryByte(s[0]) || s[0] == DOT)
    ensures Unit(s) == 1 && LowerFirst(s) == s[0]
  {
  }

  lemma {:induction false} OnesJoined(n: nat)
    requires n > 0
    ensures var s := JoinDots(Ones(n)); |s| == 2 * n - 1 && forall i :: 0 <= i < |s| ==> s[i] == 97 || s[i] == DOT
  {
    if n > 1 {
      assert Ones(n)[1..] == Ones(n - 1);
      OnesJoined(n - 1);
      assert JoinDots(Ones(n)) == [97] + [DOT] + JoinDots(Ones(n - 1));
    }
  }

  /** For every number of labels up to 127 a domain has that many; with 127, only the 128th step finds its name. */
  lemma LongestDomain(n: nat, id: nat)
    requires 1 <= n <= 127 && id < 0x1_0000
    ensures var domain := JoinDots(Ones(n));
            && |domain| == 2 * n - 1 && QueryDomain(domain) && |Labels(domain)| == n
            && forall steps: nat :: NameAt(QueryBytes(domain, id), 12, steps).Some? <==> steps > n
  {
    OnesDomain(n);
    QueryDecodes(JoinDots(Ones(n)), id);
  }

  lemma OnesDomain(n: nat)
    requires 1 <= n <= 127
    ensures var domain := JoinDots(Ones(n)); |domain| == 2 * n - 1 && QueryDomain(domain) && Labels(domain) == Ones(n)
  {
    var labels := Ones(n);
    var domain := JoinDots(labels);
    OnesJoined(n);
    OnesEnd(n);
    PlainIsLower(domain);
    SplitJoin(labels, DOT);
    LabelsOf(domain, labels);
  }

  /** A domain in lower case, given by its labels. */
  lemma LabelsOf(domain: seq<Byte>, labels: seq<Label>)
    requires 1 <= |domain| <= 253 && domain[|domain| - 1] != DOT && ToLower(domain) == domain
    requires Split(domain, DOT) == labels && forall i :: 0 <= i < |labels| ==> QueryLabel(labels[i])
    ensures QueryDomain(domain) && Labels(domain) == labels
  {
  }

  lemma {:induction false} OnesEnd(n: nat)
    requires n > 0
    ensures var s := JoinDots(Ones(n)); s != [] && s[|s| - 1] == 97
  {
    if n > 1 {
      assert Ones(n)[1..] == Ones(n - 1);
      OnesEnd(n - 1);
      assert JoinDots(Ones(n)) == [97] + [DOT] + JoinDots(Ones(n - 1));
    }
  }
}
