/** DNS names: presentation form, wire form and the decoder with compression pointers (RFC 1035, 4.1.4). */
module DnsName {
  import opened Bytes
  import opened Text

  const DOT: Byte := 46
  const STEPS: nat := 128

  /** A label's length fits the low six bits of its length byte. */
  type Label = l: seq<Byte> | |l| < 64 witness []

  function Lower(b: Byte): Byte {
    if 65 <= b <= 90 then b + 32 else b
  }

  function LowerAll(s: seq<Byte>): (r: seq<Byte>)
    ensures |r| == |s|
  {
    seq(|s|, i requires 0 <= i < |s| => Lower(s[i]))
  }

  function JoinDots(labels: seq<Label>): seq<Byte> {
    Join(labels, [DOT])
  }

  predicate Printable(s: seq<Byte>) {
    forall i :: 0 <= i < |s| ==> 33 <= s[i] <= 126
  }

  predicate WireLabel(l: Label) {
    |l| >= 1 && Printable(l)
  }

  /** Length-prefixed labels, without the terminating zero byte. */
  function Wire(labels: seq<Label>): seq<Byte> {
    if labels == [] then [] else [|labels[0]|] + labels[0] + Wire(labels[1..])
  }

  datatype Name = Name(labels: seq<Label>, end: nat)

  /** The two high bits of a length byte: 192 marks a pointer, 0 a label. */
  function Tag(n: nat): (tag: nat)
    requires n < 256
    ensures tag == 192 <==> n >= 192
    ensures tag == 0 <==> n < 64
  {
    AndC0(n);
    TopBits(n, n / 64);
    BitAnd(n, 192)
  }

  lemma TopBits(n: nat, top: nat)
    requires n < 256 && top == n / 64
    ensures top % 4 * 64 == 192 <==> n >= 192
    ensures top % 4 * 64 == 0 <==> n < 64
  {
  }

  /** The 14-bit offset in a pointer. */
  function Target(high: nat, low: Byte): (off: nat)
    ensures off == high % 64 * 256 + low
  {
    And3F(high);
    BitAnd(high, 63) * 256 + low
  }

  /** Where decoding continues after the label or pointer at off; None where a name ends or breaks. */
  function Successor(data: seq<Byte>, off: nat): Option<nat> {
    if off >= |data| then None
    else
      var n: nat := data[off];
      if n >= 192 then
        if off + 1 < |data| then Some(Target(n, data[off + 1])) else None
      else if n == 0 || n >= 64 || off + 1 + n > |data| || !Printable(data[off + 1..off + 1 + n]) then None
      else Some(off + 1 + n)
  }

  function AtEnd(rest: Option<Name>, end: nat): Option<Name> {
    match rest
    case None => None
    case Some(n) => Some(n.(end := end))
  }

  function WithLabel(l: Label, rest: Option<Name>): Option<Name> {
    match rest
    case None => None
    case Some(n) => Some(n.(labels := [l] + n.labels))
  }

  /** The name that starts at off, read with at most the given number of labels, pointers and terminators. */
  function NameAt(data: seq<Byte>, off: nat, steps: nat): Option<Name>
    decreases |data|, steps
  {
    if steps == 0 || off >= |data| then None
    else if data[off] == 0 then Some(Name([], off + 1))
    else
      match Successor(data, off)
      case None => None
      case Some(next) =>
        if data[off] >= 192 then AtEnd(NameAt(data, next, steps - 1), off + 2)
        else WithLabel(data[off + 1..next], NameAt(data, next, steps - 1))
  }

  /** What the decoder answers: the lower-case name and the offset after its first, uncompressed part. */
  function Decoded(data: seq<Byte>, off: nat): Option<(seq<Byte>, nat)> {
    match NameAt(data, off, STEPS)
    case None => None
    case Some(n) => if |JoinDots(n.labels)| > 253 then None else Some((LowerAll(JoinDots(n.labels)), n.end))
  }

  // ----- offsets that repeat never lead to a name

  predicate Leads(data: seq<Byte>, from: nat, to: nat, k: nat)
    decreases k
  {
    if k == 0 then from == to
    else Successor(data, from).Some? && Leads(data, Successor(data, from).value, to, k - 1)
  }

  ghost predicate LeadsBack(data: seq<Byte>, from: nat, to: nat) {
    exists k: nat :: k > 0 && Leads(data, from, to, k)
  }

  lemma {:induction false} LeadsOn(data: seq<Byte>, from: nat, to: nat, k: nat)
    requires Leads(data, from, to, k) && Successor(data, to).Some?
    ensures Leads(data, from, Successor(data, to).value, k + 1)
    decreases k
  {
    if k > 0 {
      LeadsOn(data, Successor(data, from).value, to, k - 1);
    }
  }

  lemma {:induction false} LeadsToName(data: seq<Byte>, from: nat, to: nat, k: nat, steps: nat)
    requires Leads(data, from, to, k) && NameAt(data, from, steps).Some?
    ensures steps > k && NameAt(data, to, steps - k).Some?
    decreases k
  {
    if k > 0 {
      LeadsToName(data, Successor(data, from).value, to, k - 1, steps - 1);
    }
  }

  /** A cycle has no name in it, whatever the number of steps allowed. */
  lemma {:induction false} CycleHasNoName(data: seq<Byte>, off: nat, k: nat, steps: nat)
    requires k > 0 && Leads(data, off, off, k)
    ensures NameAt(data, off, steps).None?
    decreases steps
  {
    if NameAt(data, off, steps).Some? {
      LeadsToName(data, off, off, k, steps);
      CycleHasNoName(data, off, k, steps - k);
    }
  }

  function Prepend(labels: seq<Label>, end: int, rest: Option<Name>): Option<Name> {
    match rest
    case None => None
    case Some(n) => Some(Name(labels + n.labels, if end >= 0 then end else n.end))
  }

  lemma PrependNothing(rest: Option<Name>)
    ensures Prepend([], -1, rest) == rest
  {
    if rest.Some? {
      assert [] + rest.value.labels == rest.value.labels;
    }
  }

  lemma PrependPointer(labels: seq<Label>, end: int, at: nat, rest: Option<Name>)
    requires end >= -1
    ensures Prepend(labels, end, AtEnd(rest, at)) ==
            Prepend(labels, if end < 0 then at else end, rest)
  {
  }

  lemma PrependLabel(labels: seq<Label>, end: int, l: Label, rest: Option<Name>)
    ensures Prepend(labels, end, WithLabel(l, rest)) ==
            Prepend(labels + [l], end, rest)
  {
    if rest.Some? {
      assert labels + ([l] + rest.value.labels) == (labels + [l]) + rest.value.labels;
    }
  }

  ghost predicate AllLeadBack(data: seq<Byte>, seen: set<nat>, off: nat) {
    forall s :: s in seen ==> LeadsBack(data, s, off)
  }

  lemma LeadBackOn(data: seq<Byte>, seen: set<nat>, here: nat)
    requires AllLeadBack(data, seen, here) && Successor(data, here).Some?
    ensures AllLeadBack(data, seen + {here}, Successor(data, here).value)
  {
    var next := Successor(data, here).value;
    assert Leads(data, next, next, 0) && Leads(data, here, next, 1);
    forall s | s in seen
      ensures LeadsBack(data, s, next)
    {
      var k: nat :| k > 0 && Leads(data, s, here, k);
      LeadsOn(data, s, here, k);
      assert Leads(data, s, next, k + 1);
    }
  }

  lemma PointerStep(data: seq<Byte>, off: nat, left: nat)
    requires off + 1 < |data| && data[off] >= 192 && left > 0
    ensures Successor(data, off) == Some(Target(data[off], data[off + 1]))
    ensures NameAt(data, off, left) == AtEnd(NameAt(data, Target(data[off], data[off + 1]), left - 1), off + 2)
  {
  }

  lemma LabelStep(data: seq<Byte>, off: nat, n: nat, left: nat)
    requires off < |data| && data[off] == n && 0 < n < 64 && left > 0
    requires off + 1 + n <= |data| && Printable(data[off + 1..off + 1 + n])
    ensures Successor(data, off) == Some(off + 1 + n)
    ensures NameAt(data, off, left) == WithLabel(data[off + 1..off + 1 + n], NameAt(data, off + 1 + n, left - 1))
  {
  }

  lemma BrokenStep(data: seq<Byte>, off: nat, n: nat, left: nat)
    requires off < |data| ==> data[off] == n
    requires off >= |data| || (n >= 192 && off + 1 >= |data|) || (64 <= n < 192) ||
             (0 < n < 64 && (off + 1 + n > |data| || !Printable(data[off + 1..off + 1 + n])))
    ensures NameAt(data, off, left).None?
  {
  }

  /** What the whole name is, given what was read of it and what is left to read. */
  ghost predicate Reading(data: seq<Byte>, start: nat, labels: seq<Label>, end: int, off: nat, left: nat) {
    end >= -1 && NameAt(data, start, STEPS) == Prepend(labels, end, NameAt(data, off, left))
  }

  lemma ReadPointer(data: seq<Byte>, start: nat, labels: seq<Label>, end: int, off: nat, left: nat)
    requires Reading(data, start, labels, end, off, left) && off + 1 < |data| && data[off] >= 192 && left > 0
    ensures Reading(data, start, labels, if end < 0 then off + 2 else end, Target(data[off], data[off + 1]), left - 1)
    ensures Successor(data, off) == Some(Target(data[off], data[off + 1]))
  {
    PointerStep(data, off, left);
    PrependPointer(labels, end, off + 2, NameAt(data, Target(data[off], data[off + 1]), left - 1));
  }

  lemma ReadLabel(data: seq<Byte>, start: nat, labels: seq<Label>, end: int, off: nat, n: nat, left: nat)
    requires Reading(data, start, labels, end, off, left) && off < |data| && data[off] == n && 0 < n < 64 && left > 0
    requires off + 1 + n <= |data| && Printable(data[off + 1..off + 1 + n])
    ensures Reading(data, start, labels + [data[off + 1..off + 1 + n]], end, off + 1 + n, left - 1)
    ensures Successor(data, off) == Some(off + 1 + n)
  {
    LabelStep(data, off, n, left);
    PrependLabel(labels, end, data[off + 1..off + 1 + n], NameAt(data, off + 1 + n, left - 1));
  }

  lemma ReadEnd(data: seq<Byte>, start: nat, labels: seq<Label>, end: int, off: nat, left: nat)
    requires Reading(data, start, labels, end, off, left) && off < |data| && data[off] == 0 && left > 0
    ensures NameAt(data, start, STEPS) == Some(Name(labels, if end < 0 then off + 1 else end))
  {
    assert NameAt(data, off, left) == Some(Name([], off + 1)) && labels + [] == labels;
  }

  lemma ReadCycle(data: seq<Byte>, seen: set<nat>, off: nat, left: nat)
    requires AllLeadBack(data, seen, off) && off in seen
    ensures NameAt(data, off, left).None?
  {
    var k: nat :| k > 0 && Leads(data, off, off, k);
    CycleHasNoName(data, off, k, left);
  }

  lemma NoAnswer(data: seq<Byte>, start: nat, labels: seq<Label>, end: int, off: nat, left: nat)
    requires Reading(data, start, labels, end, off, left) && NameAt(data, off, left).None?
    ensures Decoded(data, start).None?
  {
  }

  /** One label, pointer or terminator; the rest of the loop body keeps count. */
  method ReadOne(data: seq<Byte>, start: nat, was: seq<Label>, ended: int, here: nat, left: nat)
    returns (done: bool, r: Option<(seq<Byte>, nat)>, labels: seq<Label>, end: int, off: nat)
    requires Reading(data, start, was, ended, here, left) && left > 0
    ensures done ==> r == Decoded(data, start)
    ensures !done ==> Reading(data, start, labels, end, off, left - 1) && Successor(data, here) == Some(off)
  {
    done, r, labels, end, off := true, None, was, ended, here;
    if off >= |data| {
      BrokenStep(data, off, 0, left);
      NoAnswer(data, start, was, ended, here, left);
      return;
    }
    var n := data[off] as nat;
    if Tag(n) == 192 {
      if off + 1 >= |data| {
        BrokenStep(data, off, n, left);
        NoAnswer(data, start, was, ended, here, left);
        return;
      }
      ReadPointer(data, start, labels, end, off, left);
      if end < 0 {
        end := off + 2;
      }
      off := Target(n, data[off + 1]);
    } else {
      if Tag(n) != 0 || off + 1 + n > |data| {
        BrokenStep(data, off, n, left);
        NoAnswer(data, start, was, ended, here, left);
        return;
      }
      off := off + 1;
      if n == 0 {
        ReadEnd(data, start, was, ended, here, left);
        if end < 0 {
          end := off;
        }
        var name := JoinDots(labels);
        if |name| <= 253 {
          r := Some((LowerAll(name), end));
        }
        return;
      }
      var clean := AllPrintable(data[off..off + n]);
      if !clean {
        BrokenStep(data, here, n, left);
        NoAnswer(data, start, was, ended, here, left);
        return;
      }
      ReadLabel(data, start, was, ended, here, n, left);
      labels := labels + [data[off..off + n]];
      off := off + n;
    }
    done := false;
  }

  /**
   The decoder: a bounded loop that also gives up at an offset it has seen before.
   Its answer is that of the reference decoder, which only counts steps.
   */
  method DecodeName(data: seq<Byte>, start: nat) returns (r: Option<(seq<Byte>, nat)>)
    ensures r == Decoded(data, start)
  {
    var off: nat := start;
    var labels: seq<Label> := [];
    var end: int := -1;
    var seen: set<nat> := {};
    var count := 0;
    PrependNothing(NameAt(data, start, STEPS));
    while count < STEPS
      invariant 0 <= count <= STEPS && Reading(data, start, labels, end, off, STEPS - count)
      invariant AllLeadBack(data, seen, off)
    {
      if off in seen {
        ReadCycle(data, seen, off, STEPS - count);
        NoAnswer(data, start, labels, end, off, STEPS - count);
        return None;
      }
      var here := off;
      var done, answer;
      done, answer, labels, end, off := ReadOne(data, start, labels, end, off, STEPS - count);
      if done {
        return answer;
      }
      LeadBackOn(data, seen, here);
      seen := seen + {here};
      count := count + 1;
    }
    OutOfSteps(data, start, labels, end, off);
    return None;
  }

  lemma OutOfSteps(data: seq<Byte>, start: nat, labels: seq<Label>, end: int, off: nat)
    requires Reading(data, start, labels, end, off, 0)
    ensures Decoded(data, start).None?
  {
  }

  method AllPrintable(s: seq<Byte>) returns (ok: bool)
    ensures ok <==> Printable(s)
  {
    var i := 0;
    while i < |s|
      invariant 0 <= i <= |s| && Printable(s[..i])
    {
      if s[i] < 33 || s[i] > 126 {
        return false;
      }
      i := i + 1;
    }
    assert s[..i] == s;
    return true;
  }

  // ----- wire form and back

  /** Wire form decodes to its labels exactly when the step bound exceeds their number. */
  lemma {:induction false} WireDecodes(data: seq<Byte>, off: nat, labels: seq<Label>, steps: nat)
    requires forall i :: 0 <= i < |labels| ==> WireLabel(labels[i])
    requires off + |Wire(labels)| < |data|
    requires data[off..off + |Wire(labels)|] == Wire(labels) && data[off + |Wire(labels)|] == 0
    ensures NameAt(data, off, steps) ==
            if steps > |labels| then Some(Name(labels, off + |Wire(labels)| + 1)) else None
    decreases |labels|
  {
    if labels != [] && steps > 0 {
      var l, w := labels[0], Wire(labels[1..]);
      var next := off + 1 + |l|;
      WireHead(data, off, labels);
      WireDecodes(data, next, labels[1..], steps - 1);
      assert [l] + labels[1..] == labels;
    }
  }

  lemma WireHead(data: seq<Byte>, off: nat, labels: seq<Label>)
    requires |labels| >= 1 && off + |Wire(labels)| < |data|
    requires data[off..off + |Wire(labels)|] == Wire(labels)
    ensures data[off] == |labels[0]| && data[off + 1..off + 1 + |labels[0]|] == labels[0]
    ensures off + |Wire(labels)| == off + 1 + |labels[0]| + |Wire(labels[1..])|
    ensures data[off + 1 + |labels[0]|..off + |Wire(labels)|] == Wire(labels[1..])
  {
    Pieces(data, off, |labels[0]|, labels[0], Wire(labels[1..]));
  }

  lemma Pieces(data: seq<Byte>, off: nat, n: Byte, l: seq<Byte>, w: seq<Byte>)
    requires off + 1 + |l| + |w| <= |data|
    requires data[off..off + 1 + |l| + |w|] == [n] + l + w
    ensures data[off] == n && data[off + 1..off + 1 + |l|] == l
    ensures data[off + 1 + |l|..off + 1 + |l| + |w|] == w
  {
    var here := data[off..off + 1 + |l| + |w|];
    assert data[off] == here[0];
    assert here[1..1 + |l|] == l && here[1 + |l|..1 + |l| + |w|] == w;
    Slices(data, off, off + |here|, 1, 1 + |l|);
    Slices(data, off, off + |here|, 1 + |l|, 1 + |l| + |w|);
  }

  /** Non-empty labels joined by dots: a name of at most 253 bytes has at most 127 labels. */
  lemma {:induction false} JoinLength(labels: seq<Label>)
    requires |labels| >= 1 && forall i :: 0 <= i < |labels| ==> |labels[i]| >= 1
    ensures |JoinDots(labels)| >= 2 * |labels| - 1
  {
    if |labels| > 1 {
      JoinLength(labels[1..]);
    }
  }

  /** Wire form takes one byte more than the dotted form. */
  lemma {:induction false} WireLength(labels: seq<Label>)
    requires |labels| >= 1 && forall i :: 0 <= i < |labels| ==> |labels[i]| >= 1
    ensures |Wire(labels)| == |JoinDots(labels)| + 1
  {
    if |labels| > 1 {
      WireLength(labels[1..]);
    } else {
      assert Wire(labels[1..]) == [];
    }
  }
}
