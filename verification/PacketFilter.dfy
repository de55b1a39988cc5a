/** The scoped packet filter: its generator with back-patched jumps, and what the generated program decides. */
module PacketFilter {
  import opened Bytes
  import opened Bpf

  const ADMIT: nat := 4096
  const META: nat := 1
  const DROP: nat := 0
  const UDP: nat := 17
  const TCP: nat := 6

  /** Source and destination address, destination port and the exact question bytes of interest. */
  datatype Scope = Scope(src: nat, dst: nat, port: nat, question: seq<Byte>)

  predicate ValidScope(s: Scope) {
    s.src < WORD && s.dst < WORD && s.port < 0x1_0000 && 1 <= |s.question| <= 96
  }

  // ----- the verdict, stated on header fields

  predicate Slice(p: seq<Byte>, at: nat, s: seq<Byte>) {
    at + |s| <= |p| && p[at..at + |s|] == s
  }

  /** IPv4, the scope's addresses, and UDP or TCP. */
  predicate InScope(s: Scope, p: seq<Byte>) {
    |p| >= 20 && p[0] / 16 == 4 && U32(p, 12) == s.src && U32(p, 16) == s.dst && (p[9] == UDP || p[9] == TCP)
  }

  function HeaderLength(p: seq<Byte>): nat
    requires |p| >= 20
  {
    4 * (p[0] % 16)
  }

  /** A payload of the stated length that starts at the given offset, with the question at a further offset in it. */
  function PayloadVerdict(s: Scope, p: seq<Byte>, start: nat, question: nat): nat
    requires |p| >= 20
  {
    var total := U16(p, 2);
    if total < start || total - start < question + |s.question| then META
    else if Slice(p, start + question, s.question) then ADMIT
    else DROP
  }

  function Verdict(s: Scope, p: seq<Byte>): nat {
    if !InScope(s, p) then DROP
    else if U16(p, 6) % 16384 != 0 then META
    else
      var h := HeaderLength(p);
      if h + 4 > |p| || U16(p, h + 2) != s.port then DROP
      else if p[9] == UDP then PayloadVerdict(s, p, h, 20)
      else if h + 13 > |p| then DROP
      else
        var t := p[h + 12] / 16 * 4;
        if t < 20 then META
        else if U16(p, 2) == h + t then DROP
        else PayloadVerdict(s, p, h + t, 14)
  }

  // ----- the program

  /** Width of the next comparison when n question bytes are left. */
  function Width(n: nat): nat {
    if n >= 4 then 4 else if n >= 2 then 2 else 1
  }

  function LoadCode(width: nat): nat {
    if width == 4 then 0x40 else if width == 2 then 0x48 else 0x50
  }

  function Value(q: seq<Byte>, pos: nat): nat
    requires pos < |q|
  {
    var w := Width(|q| - pos);
    if w == 4 then U32(q, pos) else if w == 2 then U16(q, pos) else q[pos]
  }

  /** Number of instructions that compare n bytes. */
  function CompareSize(n: nat): (size: nat)
    ensures 2 * size <= n + 6 && size <= 2 * n
  {
    if n == 0 then 0 else 2 + CompareSize(n - Width(n))
  }

  /** Compare the question from pos on, the first load at index base; leave to drop on a difference. */
  function Compare(q: seq<Byte>, pos: nat, offset: nat, base: nat, drop: nat): (code: seq<Insn>)
    requires pos <= |q| && base + CompareSize(|q| - pos) <= drop < base + 256
    ensures |code| == CompareSize(|q| - pos)
    decreases |q| - pos
  {
    if pos == |q| then []
    else
      var w := Width(|q| - pos);
      [Insn(LoadCode(w), 0, 0, offset + pos), Insn(0x15, 0, drop - base - 2, Value(q, pos))]
      + Compare(q, pos + w, offset, base + 2, drop)
  }

  function Head(s: Scope, udp: nat, drop: nat, meta: nat): (code: seq<Insn>)
    requires 17 <= udp <= 255 && 15 <= drop <= 254 && 12 <= meta <= 255
    ensures |code| == 17
  {
    [Insn(0x30, 0, 0, 0), Insn(0x54, 0, 0, 0xf0), Insn(0x15, 0, drop - 3, 0x40),
     Insn(0x20, 0, 0, 12), Insn(0x15, 0, drop - 5, s.src),
     Insn(0x20, 0, 0, 16), Insn(0x15, 0, drop - 7, s.dst),
     Insn(0x30, 0, 0, 9), Insn(0x15, 1, 0, 17), Insn(0x15, 0, drop - 10, 6),
     Insn(0x28, 0, 0, 6), Insn(0x45, meta - 12, 0, 0x3fff),
     Insn(0xb1, 0, 0, 0), Insn(0x48, 0, 0, 2), Insn(0x15, 0, drop - 15, s.port),
     Insn(0x30, 0, 0, 9), Insn(0x15, udp - 17, 0, 17)]
  }

  function TcpHead(n: nat, drop: nat, meta: nat): (code: seq<Insn>)
    requires 28 <= drop <= 254 && 28 <= meta <= 255
    ensures |code| == 11
  {
    [Insn(0x50, 0, 0, 12), Insn(0x54, 0, 0, 0xf0), Insn(0x74, 0, 0, 2), Insn(0x35, 0, meta - 21, 20),
     Insn(0x0c, 0, 0, 0), Insn(0x07, 0, 0, 0), Insn(0x28, 0, 0, 2), Insn(0x3d, 0, meta - 25, 0),
     Insn(0x1c, 0, 0, 0), Insn(0x15, drop - 27, 0, 0), Insn(0x35, 0, meta - 28, 14 + n)]
  }

  function UdpHead(n: nat, udp: nat, meta: nat): (code: seq<Insn>)
    requires udp + 4 <= meta <= 255
    ensures |code| == 4
  {
    [Insn(0x28, 0, 0, 2), Insn(0x3d, 0, meta - udp - 2, 0), Insn(0x1c, 0, 0, 0), Insn(0x35, 0, meta - udp - 4, 20 + n)]
  }

  function UdpIndex(s: Scope): nat {
    29 + CompareSize(|s.question|)
  }

  function DropIndex(s: Scope): nat {
    34 + 2 * CompareSize(|s.question|)
  }

  /** The patched program. */
  function Program(s: Scope): (code: seq<Insn>)
    requires ValidScope(s)
    ensures |code| == DropIndex(s) + 2 <= 138
  {
    var n, drop := |s.question|, DropIndex(s);
    Head(s, UdpIndex(s), drop, drop + 1)
    + TcpHead(n, drop, drop + 1) + Compare(s.question, 0, 14, 28, drop) + [Insn(0x06, 0, 0, ADMIT)]
    + UdpHead(n, UdpIndex(s), drop + 1) + Compare(s.question, 0, 20, UdpIndex(s) + 4, drop) + [Insn(0x06, 0, 0, ADMIT)]
    + [Insn(0x06, 0, 0, DROP), Insn(0x06, 0, 0, META)]
  }

  // ----- generating it

  function Clear(code: seq<Insn>): (r: seq<Insn>)
    ensures |r| == |code|
  {
    seq(|code|, i requires 0 <= i < |code| => code[i].(jt := 0, jf := 0))
  }

  function RawCompare(q: seq<Byte>, pos: nat, offset: nat): (code: seq<Insn>)
    requires pos <= |q|
    ensures |code| == CompareSize(|q| - pos)
    decreases |q| - pos
  {
    if pos == |q| then []
    else
      var w := Width(|q| - pos);
      [Insn(LoadCode(w), 0, 0, offset + pos), Insn(0x15, 0, 0, Value(q, pos))] + RawCompare(q, pos + w, offset)
  }

  /** Where the conditional jumps of a comparison of n bytes are, the first load being at index base. */
  function JumpIndices(n: nat, base: nat): seq<nat> {
    if n == 0 then [] else [base + 1] + JumpIndices(n - Width(n), base + 2)
  }

  lemma {:induction false} RawCompareIsCleared(q: seq<Byte>, pos: nat, offset: nat, base: nat, drop: nat)
    requires pos <= |q| && base + CompareSize(|q| - pos) <= drop < base + 256
    ensures RawCompare(q, pos, offset) == Clear(Compare(q, pos, offset, base, drop))
    decreases |q| - pos
  {
    if pos < |q| {
      RawCompareIsCleared(q, pos + Width(|q| - pos), offset, base + 2, drop);
    }
  }

  lemma {:induction false} JumpIndicesAreOdd(n: nat, base: nat, i: nat)
    ensures i in JumpIndices(n, base) <==> base <= i < base + CompareSize(n) && (i - base) % 2 == 1
  {
    if n > 0 {
      JumpIndicesAreOdd(n - Width(n), base + 2, i);
      CompareSizeIsEven(n - Width(n));
    }
  }

  lemma {:induction false} CompareSizeIsEven(n: nat)
    ensures CompareSize(n) % 2 == 0
  {
    if n > 0 {
      CompareSizeIsEven(n - Width(n));
    }
  }

  lemma {:induction false} CompareJumps(q: seq<Byte>, pos: nat, offset: nat, base: nat, drop: nat, k: nat)
    requires pos <= |q| && base + CompareSize(|q| - pos) <= drop < base + 256
    requires k < CompareSize(|q| - pos)
    ensures var i := Compare(q, pos, offset, base, drop)[k];
            i.jt == 0 && i.jf == if k % 2 == 1 then drop - (base + k) - 1 else 0
    decreases k
  {
    if k >= 2 {
      var rest := Compare(q, pos + Width(|q| - pos), offset, base + 2, drop);
      assert Compare(q, pos, offset, base, drop)[k] == rest[k - 2];
      CompareJumps(q, pos + Width(|q| - pos), offset, base + 2, drop, k - 2);
    }
  }

  function DropFalse(s: Scope): seq<nat> {
    [2, 4, 6, 9, 14] + JumpIndices(|s.question|, 28) + JumpIndices(|s.question|, UdpIndex(s) + 4)
  }

  function MetaFalse(s: Scope): seq<nat> {
    [20, 24, 27, UdpIndex(s) + 1, UdpIndex(s) + 3]
  }

  const ADMITTED: seq<Insn> := [Insn(0x06, 0, 0, ADMIT)]
  const EXITS: seq<Insn> := [Insn(0x06, 0, 0, DROP), Insn(0x06, 0, 0, META)]

  /** Where each piece of the program sits. */
  ghost predicate Placed(p: seq<Insn>, s: Scope) {
    ValidScope(s)
    && var n, u, d := |s.question|, UdpIndex(s), DropIndex(s);
       && |p| == d + 2
       && Holds(p, 0, Head(s, u, d, d + 1)) && Holds(p, 17, TcpHead(n, d, d + 1))
       && Holds(p, 28, Compare(s.question, 0, 14, 28, d)) && Holds(p, u - 1, ADMITTED)
       && Holds(p, u, UdpHead(n, u, d + 1)) && Holds(p, u + 4, Compare(s.question, 0, 20, u + 4, d))
       && Holds(p, d - 1, ADMITTED) && Holds(p, d, EXITS)
  }

  lemma Layout(s: Scope)
    requires ValidScope(s)
    ensures Placed(Program(s), s)
  {
    var n, d := |s.question|, DropIndex(s);
    Assembles(Head(s, UdpIndex(s), d, d + 1), TcpHead(n, d, d + 1), Compare(s.question, 0, 14, 28, d),
              UdpHead(n, UdpIndex(s), d + 1),
              Compare(s.question, 0, 20, UdpIndex(s) + 4, d));
  }

  /** The five pieces one after the other, each comparison followed by its admission. */
  ghost predicate Assembled(p: seq<Insn>, a: seq<Insn>, b: seq<Insn>, c: seq<Insn>, e: seq<Insn>, f: seq<Insn>) {
    var i, j := |a| + |b| + |c|, |a| + |b| + |c| + 1 + |e| + |f|;
    && |p| == j + 3 && Holds(p, 0, a) && Holds(p, |a|, b) && Holds(p, |a| + |b|, c) && Holds(p, i, ADMITTED)
    && Holds(p, i + 1, e) && Holds(p, i + 1 + |e|, f) && Holds(p, j, ADMITTED) && Holds(p, j + 1, EXITS)
  }

  lemma Assembles(a: seq<Insn>, b: seq<Insn>, c: seq<Insn>, e: seq<Insn>, f: seq<Insn>)
    ensures Assembled(a + b + c + ADMITTED + e + f + ADMITTED + EXITS, a, b, c, e, f)
  {
    Within([], a, b + c + ADMITTED + e + f + ADMITTED + EXITS);
    Within(a, b, c + ADMITTED + e + f + ADMITTED + EXITS);
    Within(a + b, c, ADMITTED + e + f + ADMITTED + EXITS);
    Within(a + b + c, ADMITTED, e + f + ADMITTED + EXITS);
    Within(a + b + c + ADMITTED, e, f + ADMITTED + EXITS);
    Within(a + b + c + ADMITTED + e, f, ADMITTED + EXITS);
    Within(a + b + c + ADMITTED + e + f, ADMITTED, EXITS);
    Within(a + b + c + ADMITTED + e + f + ADMITTED, EXITS, []);
    Chain(a, b, c, ADMITTED, e, f, EXITS);
  }

  lemma Within(front: seq<Insn>, code: seq<Insn>, back: seq<Insn>)
    ensures Holds(front + code + back, |front|, code)
  {
  }

  /** One program, however it is split. */
  lemma Chain(a: seq<Insn>, b: seq<Insn>, c: seq<Insn>, r: seq<Insn>, e: seq<Insn>, f: seq<Insn>, x: seq<Insn>)
    ensures var all := a + b + c + r + e + f + r + x;
            && all == [] + a + (b + c + r + e + f + r + x) && all == a + b + (c + r + e + f + r + x)
            && all == (a + b) + c + (r + e + f + r + x) && all == (a + b + c) + r + (e + f + r + x)
            && all == (a + b + c + r) + e + (f + r + x) && all == (a + b + c + r + e) + f + (r + x)
            && all == (a + b + c + r + e + f) + r + x && all == (a + b + c + r + e + f + r) + x + []
  {
    assert r + x == r + x + [];
    Step(f, r, x);
    Step(e, f + r, x);
    Step(e, f, r);
    Step(r, e + f + r, x);
  }

  lemma Step(a: seq<Insn>, b: seq<Insn>, c: seq<Insn>)
    ensures (a + b) + c == a + (b + c)
  {
  }

  /** Where instruction i jumps: to an exit, past the TCP test, to the UDP part, or just on. */
  predicate JumpsAsListed(s: Scope, i: nat, insn: Insn) {
    && insn.jf == (if i in DropFalse(s) then DropIndex(s) - i - 1
                   else if i in MetaFalse(s) then DropIndex(s) + 1 - i - 1 else 0)
    && insn.jt == (if i == 26 then DropIndex(s) - i - 1 else if i == 11 then DropIndex(s) + 1 - i - 1
                   else if i == 16 then UdpIndex(s) - 17 else if i == 8 then 1 else 0)
  }

  lemma ListedIndices(s: Scope, i: nat)
    ensures i in DropFalse(s) <==> i in {2, 4, 6, 9, 14} || (28 <= i < UdpIndex(s) - 1 && i % 2 == 1)
                                   || (UdpIndex(s) + 4 <= i < DropIndex(s) - 1 && i % 2 == 0)
    ensures UdpIndex(s) % 2 == 1
    ensures i in DropFalse(s) ==> i !in MetaFalse(s) && i < DropIndex(s)
  {
    var n, u := |s.question|, UdpIndex(s);
    CompareSizeIsEven(n);
    DropIndices(n, u + 4, i);
    MetaIndices(u, i);
  }

  lemma DropIndices(n: nat, base: nat, i: nat)
    ensures i in [2, 4, 6, 9, 14] + JumpIndices(n, 28) + JumpIndices(n, base) <==>
            i in {2, 4, 6, 9, 14} || (28 <= i < 28 + CompareSize(n) && (i - 28) % 2 == 1)
            || (base <= i < base + CompareSize(n) && (i - base) % 2 == 1)
  {
    JumpIndicesAreOdd(n, 28, i);
    JumpIndicesAreOdd(n, base, i);
    var five := [2, 4, 6, 9, 14];
    assert i in five <==> i in {2, 4, 6, 9, 14};
  }

  lemma MetaIndices(u: nat, i: nat)
    ensures i in [20, 24, 27, u + 1, u + 3] <==> i == 20 || i == 24 || i == 27 || i == u + 1 || i == u + 3
  {
  }

  lemma HeadJumps(s: Scope, i: nat)
    requires ValidScope(s) && i < 17
    ensures JumpsAsListed(s, i, Program(s)[i])
  {
    var u, d := UdpIndex(s), DropIndex(s);
    Layout(s);
    ListedIndices(s, i);
    HoldsAt(Program(s), 0, Head(s, u, d, d + 1), i);
  }

  lemma TransportJumps(s: Scope, i: nat)
    requires ValidScope(s) && (17 <= i < 28 || UdpIndex(s) <= i < UdpIndex(s) + 4)
    ensures JumpsAsListed(s, i, Program(s)[i])
  {
    Layout(s);
    if i < 28 {
      TcpHeadJumps(Program(s), s, i);
    } else {
      UdpHeadJumps(Program(s), s, i);
    }
  }

  lemma TcpHeadJumps(p: seq<Insn>, s: Scope, i: nat)
    requires ValidScope(s) && 17 <= i < 28 && Holds(p, 17, TcpHead(|s.question|, DropIndex(s), DropIndex(s) + 1))
    ensures JumpsAsListed(s, i, p[i])
  {
    ListedIndices(s, i);
    HoldsAt(p, 17, TcpHead(|s.question|, DropIndex(s), DropIndex(s) + 1), i - 17);
  }

  lemma UdpHeadJumps(p: seq<Insn>, s: Scope, i: nat)
    requires ValidScope(s) && UdpIndex(s) <= i < UdpIndex(s) + 4
    requires Holds(p, UdpIndex(s), UdpHead(|s.question|, UdpIndex(s), DropIndex(s) + 1))
    ensures JumpsAsListed(s, i, p[i])
  {
    ListedIndices(s, i);
    HoldsAt(p, UdpIndex(s), UdpHead(|s.question|, UdpIndex(s), DropIndex(s) + 1), i - UdpIndex(s));
  }

  lemma ComparisonJumps(s: Scope, i: nat)
    requires ValidScope(s) && (28 <= i < UdpIndex(s) - 1 || UdpIndex(s) + 4 <= i < DropIndex(s) - 1)
    ensures JumpsAsListed(s, i, Program(s)[i])
  {
    Layout(s);
    if i < UdpIndex(s) {
      ComparisonJumpsAt(Program(s), s, 14, 28, i);
    } else {
      ComparisonJumpsAt(Program(s), s, 20, UdpIndex(s) + 4, i);
    }
  }

  lemma ComparisonJumpsAt(p: seq<Insn>, s: Scope, offset: nat, base: nat, i: nat)
    requires ValidScope(s) && (base == 28 || base == UdpIndex(s) + 4) && base <= i < base + CompareSize(|s.question|)
    requires Holds(p, base, Compare(s.question, 0, offset, base, DropIndex(s)))
    ensures JumpsAsListed(s, i, p[i])
  {
    ComparisonJump(p, s.question, offset, base, DropIndex(s), i - base);
    ComparisonListed(s, i, i - base, p[i]);
  }

  lemma ComparisonListed(s: Scope, i: nat, k: nat, insn: Insn)
    requires k < CompareSize(|s.question|) && (i == 28 + k || i == UdpIndex(s) + 4 + k)
    requires insn.jt == 0 && insn.jf == if k % 2 == 1 then DropIndex(s) - i - 1 else 0
    ensures JumpsAsListed(s, i, insn)
  {
    ListedIndices(s, i);
    CompareSizeIsEven(|s.question|);
    ComparisonParity(s, i, k);
    assert i !in MetaFalse(s) && i !in {8, 11, 16, 26};
  }

  lemma ComparisonParity(s: Scope, i: nat, k: nat)
    requires k < CompareSize(|s.question|) && CompareSize(|s.question|) % 2 == 0
    requires i == 28 + k || i == UdpIndex(s) + 4 + k
    ensures k % 2 == 1 <==> i in {2, 4, 6, 9, 14} || (28 <= i < UdpIndex(s) - 1 && i % 2 == 1)
                            || (UdpIndex(s) + 4 <= i < DropIndex(s) - 1 && i % 2 == 0)
  {
  }

  lemma ComparisonJump(p: seq<Insn>, q: seq<Byte>, offset: nat, base: nat, drop: nat, k: nat)
    requires base + CompareSize(|q|) <= drop < base + 256 && k < CompareSize(|q|)
    requires Holds(p, base, Compare(q, 0, offset, base, drop))
    ensures p[base + k].jt == 0 && p[base + k].jf == if k % 2 == 1 then drop - (base + k) - 1 else 0
  {
    HoldsAt(p, base, Compare(q, 0, offset, base, drop), k);
    CompareJumps(q, 0, offset, base, drop, k);
  }

  lemma JumpTable(s: Scope, i: nat)
    requires ValidScope(s) && i < |Program(s)|
    ensures JumpsAsListed(s, i, Program(s)[i])
    ensures i in DropFalse(s) ==> i !in MetaFalse(s) && i < DropIndex(s)
    ensures i in MetaFalse(s) ==> i < DropIndex(s)
  {
    var u, d := UdpIndex(s), DropIndex(s);
    ListedIndices(s, i);
    CompareSizeIsEven(|s.question|);
    Layout(s);
    if i < 17 {
      HeadJumps(s, i);
    } else if i < 28 || u <= i < u + 4 {
      TransportJumps(s, i);
    } else if i < u - 1 || u + 4 <= i < d - 1 {
      ComparisonJumps(s, i);
    } else {
      ReturnsAt(s, Program(s), i);
    }
  }

  /** What is left besides the heads and the comparisons only returns. */
  lemma ReturnsAt(s: Scope, p: seq<Insn>, i: nat)
    requires Placed(p, s) && (i == UdpIndex(s) - 1 || DropIndex(s) - 1 <= i < |p|)
    ensures p[i] == Insn(0x06, 0, 0, if i == DropIndex(s) then DROP else if i == DropIndex(s) + 1 then META else ADMIT)
  {
    var d := DropIndex(s);
    if i == UdpIndex(s) - 1 {
      HoldsAt(p, i, ADMITTED, 0);
    } else if i == d - 1 {
      HoldsAt(p, d - 1, ADMITTED, 0);
    } else {
      HoldsAt(p, d, EXITS, i - d);
    }
  }

  /** Every jump is forward and inside, and the program is far from the 255-instruction limit. */
  lemma ProgramWellFormed(s: Scope)
    requires ValidScope(s)
    ensures WellFormed(Program(s))
  {
    var p := Program(s);
    Layout(s);
    ReturnsAt(s, p, DropIndex(s));
    ReturnsAt(s, p, DropIndex(s) + 1);
    forall i | 0 <= i < |p| && IsJump(p[i])
      ensures i + 1 + p[i].jt < |p| && i + 1 + p[i].jf < |p|
    {
      JumpTable(s, i);
    }
  }
}
