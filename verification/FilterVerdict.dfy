/** Running the generated filter program gives the verdict stated on header fields. */
module FilterVerdict {
  import opened Bytes
  import opened Bpf
  import opened PacketFilter

  // ----- the program, instruction by instruction

  predicate Exits(prog: seq<Insn>, drop: nat) {
    |prog| == drop + 2 && prog[drop] == Insn(0x06, 0, 0, DROP) && prog[drop + 1] == Insn(0x06, 0, 0, META)
  }

  predicate AddressLaid(prog: seq<Insn>, s: Scope, drop: nat) {
    && Exits(prog, drop) && 34 <= drop < 254
    && prog[0] == Insn(0x30, 0, 0, 0) && prog[1] == Insn(0x54, 0, 0, 0xf0) && prog[2] == Insn(0x15, 0, drop - 3, 0x40)
    && prog[3] == Insn(0x20, 0, 0, 12) && prog[4] == Insn(0x15, 0, drop - 5, s.src)
    && prog[5] == Insn(0x20, 0, 0, 16) && prog[6] == Insn(0x15, 0, drop - 7, s.dst)
  }

  predicate ProtocolLaid(prog: seq<Insn>, drop: nat) {
    && Exits(prog, drop) && 34 <= drop < 254
    && prog[7] == Insn(0x30, 0, 0, 9) && prog[8] == Insn(0x15, 1, 0, 17) && prog[9] == Insn(0x15, 0, drop - 10, 6)
    && prog[10] == Insn(0x28, 0, 0, 6) && prog[11] == Insn(0x45, drop - 11, 0, 0x3fff)
  }

  predicate PortLaid(prog: seq<Insn>, port: nat, udp: nat, drop: nat) {
    && Exits(prog, drop) && 29 <= udp < drop < 254
    && prog[12] == Insn(0xb1, 0, 0, 0) && prog[13] == Insn(0x48, 0, 0, 2) && prog[14] == Insn(0x15, 0, drop - 15, port)
    && prog[15] == Insn(0x30, 0, 0, 9) && prog[16] == Insn(0x15, udp - 17, 0, 17)
  }

  predicate TcpHeaderLaid(prog: seq<Insn>, drop: nat) {
    && Exits(prog, drop) && 34 <= drop < 254
    && prog[17] == Insn(0x50, 0, 0, 12) && prog[18] == Insn(0x54, 0, 0, 0xf0) && prog[19] == Insn(0x74, 0, 0, 2)
    && prog[20] == Insn(0x35, 0, drop - 20, 20) && prog[21] == Insn(0x0c, 0, 0, 0) && prog[22] == Insn(0x07, 0, 0, 0)
    && prog[23] == Insn(0x28, 0, 0, 2) && prog[24] == Insn(0x3d, 0, drop - 24, 0)
  }

  ghost predicate TcpPayloadLaid(prog: seq<Insn>, q: seq<Byte>, drop: nat) {
    && Exits(prog, drop) && 34 <= drop < 254
    && prog[25] == Insn(0x1c, 0, 0, 0) && prog[26] == Insn(0x15, drop - 27, 0, 0)
    && prog[27] == Insn(0x35, 0, drop - 27, 14 + |q|)
    && Decides(prog, q, 14, 28)
  }

  predicate UdpHeadLaid(prog: seq<Insn>, n: nat, udp: nat, drop: nat) {
    && Exits(prog, drop) && 29 <= udp && udp + 4 <= drop < 254
    && prog[udp] == Insn(0x28, 0, 0, 2) && prog[udp + 1] == Insn(0x3d, 0, drop - udp - 1, 0)
    && prog[udp + 2] == Insn(0x1c, 0, 0, 0) && prog[udp + 3] == Insn(0x35, 0, drop - udp - 3, 20 + n)
  }

  ghost predicate UdpLaid(prog: seq<Insn>, q: seq<Byte>, udp: nat, drop: nat) {
    UdpHeadLaid(prog, |q|, udp, drop) && Decides(prog, q, 20, udp + 4)
  }

  /** From pc on the question decides, wherever in the packet's first 120 bytes the payload starts. */
  ghost predicate Decides(prog: seq<Insn>, q: seq<Byte>, offset: nat, pc: nat) {
    forall a: nat, x: nat, p :: x <= 120 ==>
      Run(prog, Machine(pc, a, x), p) == if Slice(p, x + offset, q) then ADMIT else DROP
  }

  lemma ExitsPlaced(prog: seq<Insn>, s: Scope)
    requires Placed(prog, s)
    ensures Exits(prog, DropIndex(s))
  {
    HoldsAt(prog, DropIndex(s), EXITS, 0);
    HoldsAt(prog, DropIndex(s), EXITS, 1);
  }

  lemma HeadLaid(prog: seq<Insn>, s: Scope)
    requires Placed(prog, s)
    ensures AddressLaid(prog, s, DropIndex(s)) && ProtocolLaid(prog, DropIndex(s))
    ensures PortLaid(prog, s.port, UdpIndex(s), DropIndex(s))
  {
    ExitsPlaced(prog, s);
    HeadAt(prog, Head(s, UdpIndex(s), DropIndex(s), DropIndex(s) + 1));
  }

  lemma HeadAt(prog: seq<Insn>, code: seq<Insn>)
    requires |code| == 17 && Holds(prog, 0, code)
    ensures forall i: nat :: i < 17 ==> prog[i] == code[i]
  {
    forall i: nat | i < 17
      ensures prog[i] == code[i]
    {
      HoldsAt(prog, 0, code, i);
    }
  }

  lemma TcpLaid(prog: seq<Insn>, s: Scope)
    requires Placed(prog, s)
    ensures TcpHeaderLaid(prog, DropIndex(s)) && TcpPayloadLaid(prog, s.question, DropIndex(s))
  {
    ExitsPlaced(prog, s);
    TcpHeadAt(prog, TcpHead(|s.question|, DropIndex(s), DropIndex(s) + 1));
    QuestionDecides(prog, s.question, 14, 28, DropIndex(s));
  }

  lemma TcpHeadAt(prog: seq<Insn>, code: seq<Insn>)
    requires |code| == 11 && Holds(prog, 17, code)
    ensures prog[17] == code[0] && prog[18] == code[1] && prog[19] == code[2] && prog[20] == code[3]
            && prog[21] == code[4]
    ensures prog[22] == code[5] && prog[23] == code[6] && prog[24] == code[7] && prog[25] == code[8]
            && prog[26] == code[9]
    ensures prog[27] == code[10]
  {
    forall i: nat | i < 11
      ensures prog[17 + i] == code[i]
    {
      HoldsAt(prog, 17, code, i);
    }
    assert prog[17 + 0] == code[0] && prog[17 + 1] == code[1] && prog[17 + 2] == code[2] && prog[17 + 3] == code[3];
    assert prog[17 + 4] == code[4] && prog[17 + 5] == code[5] && prog[17 + 6] == code[6] && prog[17 + 7] == code[7];
    assert prog[17 + 8] == code[8] && prog[17 + 9] == code[9] && prog[17 + 10] == code[10];
  }

  lemma UdpPlaced(prog: seq<Insn>, s: Scope)
    requires Placed(prog, s)
    ensures UdpLaid(prog, s.question, UdpIndex(s), DropIndex(s))
  {
    ExitsPlaced(prog, s);
    var code := UdpHead(|s.question|, UdpIndex(s), DropIndex(s) + 1);
    HoldsAt(prog, UdpIndex(s), code, 0);
    HoldsAt(prog, UdpIndex(s), code, 1);
    HoldsAt(prog, UdpIndex(s), code, 2);
    HoldsAt(prog, UdpIndex(s), code, 3);
    QuestionDecides(prog, s.question, 20, UdpIndex(s) + 4, DropIndex(s));
  }

  // ----- running it

  /** What is left of a comparison from pos on, with its two exits. */
  ghost predicate Comparing(prog: seq<Insn>, q: seq<Byte>, pos: nat, offset: nat, pc: nat, drop: nat) {
    && pos <= |q| && pc + CompareSize(|q| - pos) <= drop < pc + 256
    && Holds(prog, pc, Compare(q, pos, offset, pc, drop)) && Holds(prog, pc + CompareSize(|q| - pos), ADMITTED)
    && Holds(prog, drop, EXITS)
  }

  /** The same, instruction by instruction. */
  ghost predicate Chained(prog: seq<Insn>, q: seq<Byte>, pos: nat, offset: nat, pc: nat, drop: nat)
    requires pos <= |q|
    decreases |q| - pos
  {
    && pc < drop < |prog| && drop < pc + 256 && prog[drop] == Insn(0x06, 0, 0, DROP)
    && if pos == |q| then prog[pc] == Insn(0x06, 0, 0, ADMIT)
       else
         var w := Width(|q| - pos);
         && prog[pc] == Insn(LoadCode(w), 0, 0, offset + pos)
         && pc + 1 < drop && prog[pc + 1] == Insn(0x15, 0, drop - pc - 2, Value(q, pos))
         && Chained(prog, q, pos + w, offset, pc + 2, drop)
  }

  lemma {:induction false} ComparingIsChained(prog: seq<Insn>, q: seq<Byte>, pos: nat, offset: nat, pc: nat, drop: nat)
    requires Comparing(prog, q, pos, offset, pc, drop) && pc < drop
    ensures Chained(prog, q, pos, offset, pc, drop)
    decreases |q| - pos
  {
    HoldsAt(prog, drop, EXITS, 0);
    if pos == |q| {
      HoldsAt(prog, pc, ADMITTED, 0);
    } else {
      CompareFirst(prog, q, pos, offset, pc, drop);
      ComparingIsChained(prog, q, pos + Width(|q| - pos), offset, pc + 2, drop);
    }
  }

  lemma {:induction false} CompareRuns(prog: seq<Insn>, q: seq<Byte>, pos: nat, offset: nat, drop: nat, m: Machine,
                                       p: seq<Byte>)
    requires pos <= |q| && Chained(prog, q, pos, offset, m.pc, drop)
    requires m.x + offset + |q| < WORD && (pos == |q| ==> m.x + offset + pos <= |p|)
    ensures Run(prog, m, p) == if Slice(p, m.x + offset + pos, q[pos..]) then ADMIT else DROP
    decreases |q| - pos
  {
    if pos == |q| {
      Stops(prog, m, ADMIT, p);
      assert q[pos..] == [] && p[m.x + offset + pos..m.x + offset + pos] == [];
    } else {
      var w, at := Width(|q| - pos), m.x + offset + pos;
      CompareStep(prog, w, offset + pos, Value(q, pos), drop, m, p);
      SliceFirst(p, at, q, pos);
      if at + w <= |p| && Loaded(p, at, w) == Value(q, pos) {
        CompareRuns(prog, q, pos + w, offset, drop, Machine(m.pc + 2, Value(q, pos), m.x), p);
      }
    }
  }

  lemma CompareFirst(prog: seq<Insn>, q: seq<Byte>, pos: nat, offset: nat, base: nat, drop: nat)
    requires pos < |q| && base + CompareSize(|q| - pos) <= drop < base + 256
    requires Holds(prog, base, Compare(q, pos, offset, base, drop))
    ensures var w := Width(|q| - pos);
            && prog[base] == Insn(LoadCode(w), 0, 0, offset + pos)
            && prog[base + 1] == Insn(0x15, 0, drop - base - 2, Value(q, pos))
            && Holds(prog, base + 2, Compare(q, pos + w, offset, base + 2, drop))
  {
    var w := Width(|q| - pos);
    var code := Compare(q, pos, offset, base, drop);
    HoldsAt(prog, base, code, 0);
    HoldsAt(prog, base, code, 1);
    HoldsSplit(prog, base, code[..2], Compare(q, pos + w, offset, base + 2, drop));
  }

  lemma SliceFirst(p: seq<Byte>, at: nat, q: seq<Byte>, pos: nat)
    requires pos < |q|
    ensures var w := Width(|q| - pos);
            Slice(p, at, q[pos..]) <==>
            at + w <= |p| && Loaded(p, at, w) == Value(q, pos) && Slice(p, at + w, q[pos + w..])
  {
    var w := Width(|q| - pos);
    if at + w <= |p| {
      SliceSplits(p, at, q, pos, w);
      CompareValue(p, at, q, pos);
    }
  }

  /** The whole comparison, when the payload starts inside the packet's first 120 bytes. */
  lemma QuestionDecides(prog: seq<Insn>, q: seq<Byte>, offset: nat, pc: nat, drop: nat)
    requires 1 <= |q| <= 96 && offset <= 20 && Comparing(prog, q, 0, offset, pc, drop)
    ensures Decides(prog, q, offset, pc)
  {
    ComparingIsChained(prog, q, 0, offset, pc, drop);
    forall a: nat, x: nat, p | x <= 120
      ensures Run(prog, Machine(pc, a, x), p) == if Slice(p, x + offset, q) then ADMIT else DROP
    {
      assert q[0..] == q;
      CompareRuns(prog, q, 0, offset, drop, Machine(pc, a, x), p);
    }
  }

  /** One comparison: out of range or different ends in DROP, equal goes on. */
  lemma CompareStep(prog: seq<Insn>, w: nat, k: nat, value: nat, drop: nat, m: Machine, p: seq<Byte>)
    requires (w == 1 || w == 2 || w == 4) && m.x + k < WORD
    requires m.pc + 1 < drop < |prog| && drop < m.pc + 256
    requires prog[m.pc] == Insn(LoadCode(w), 0, 0, k) && prog[m.pc + 1] == Insn(0x15, 0, drop - m.pc - 2, value)
    requires prog[drop] == Insn(0x06, 0, 0, DROP)
    ensures Run(prog, m, p) ==
            if m.x + k + w <= |p| && Loaded(p, m.x + k, w) == value then Run(prog, Machine(m.pc + 2, value, m.x), p)
            else DROP
  {
    var at := m.x + k;
    if at + w <= |p| {
      var loaded := Machine(m.pc + 1, Loaded(p, at, w), m.x);
      assert Run(prog, m, p) == Run(prog, loaded, p);
      if loaded.a == value {
        assert Run(prog, loaded, p) == Run(prog, loaded.(pc := m.pc + 2), p);
      } else {
        assert Run(prog, loaded, p) == Run(prog, loaded.(pc := drop), p) == DROP;
      }
    }
  }

  function Loaded(p: seq<Byte>, at: nat, w: nat): nat
    requires at + w <= |p| && (w == 1 || w == 2 || w == 4)
  {
    if w == 4 then U32(p, at) else if w == 2 then U16(p, at) else p[at]
  }

  lemma SliceSplits(p: seq<Byte>, at: nat, q: seq<Byte>, pos: nat, w: nat)
    requires pos + w <= |q| && at + w <= |p|
    ensures Slice(p, at, q[pos..]) <==> p[at..at + w] == q[pos..pos + w] && Slice(p, at + w, q[pos + w..])
  {
    var n := |q| - pos;
    if at + n <= |p| {
      assert p[at..at + n] == p[at..at + w] + p[at + w..at + n];
      assert q[pos..] == q[pos..pos + w] + q[pos + w..];
    }
  }

  lemma CompareValue(p: seq<Byte>, at: nat, q: seq<Byte>, pos: nat)
    requires pos < |q| && at + Width(|q| - pos) <= |p|
    ensures Loaded(p, at, Width(|q| - pos)) == Value(q, pos) <==>
            p[at..at + Width(|q| - pos)] == q[pos..pos + Width(|q| - pos)]
  {
    var w := Width(|q| - pos);
    if w == 4 {
      SameU32(p, at, q, pos);
    } else if w == 2 {
      SameU16(p, at, q, pos);
    } else {
      assert p[at..at + 1] == [p[at]] && q[pos..pos + 1] == [q[pos]];
    }
  }

  /** UDP: the payload test, then the comparison. */
  lemma UdpRuns(prog: seq<Insn>, s: Scope, udp: nat, drop: nat, h: nat, a: nat, p: seq<Byte>)
    requires UdpLaid(prog, s.question, udp, drop)
    requires ValidScope(s) && |p| >= 20 && h <= 60
    ensures Run(prog, Machine(udp, a, h), p) == PayloadVerdict(s, p, h, 20)
  {
    UdpLengthRuns(prog, |s.question|, udp, drop, h, a, p);
    var length, first := U16(p, 2) - h, Run(prog, Machine(udp, a, h), p);
    assert first == if length < 20 + |s.question| then META else if Slice(p, h + 20, s.question) then ADMIT else DROP;
    UdpVerdict(s, p, h, first);
  }

  lemma UdpVerdict(s: Scope, p: seq<Byte>, h: nat, verdict: nat)
    requires |p| >= 20
    requires verdict == if U16(p, 2) - h < 20 + |s.question| then META
                        else if Slice(p, h + 20, s.question) then ADMIT else DROP
    ensures verdict == PayloadVerdict(s, p, h, 20)
  {
  }

  lemma UdpLengthRuns(prog: seq<Insn>, n: nat, udp: nat, drop: nat, h: nat, a: nat, p: seq<Byte>)
    requires UdpHeadLaid(prog, n, udp, drop) && |p| >= 20 && h <= 60
    ensures Run(prog, Machine(udp, a, h), p) ==
            if U16(p, 2) < h || U16(p, 2) - h < 20 + n then META else Run(prog, Machine(udp + 4, U16(p, 2) - h, h), p)
  {
    var total := U16(p, 2);
    Steps(prog, Machine(udp, a, h), Machine(udp + 1, total, h), p);
    if total >= h {
      Steps(prog, Machine(udp + 1, total, h), Machine(udp + 2, total, h), p);
      Steps(prog, Machine(udp + 2, total, h), Machine(udp + 3, total - h, h), p);
      if total - h >= 20 + n {
        Steps(prog, Machine(udp + 3, total - h, h), Machine(udp + 4, total - h, h), p);
      } else {
        Steps(prog, Machine(udp + 3, total - h, h), Machine(drop + 1, total - h, h), p);
        Stops(prog, Machine(drop + 1, total - h, h), META, p);
      }
    } else {
      Steps(prog, Machine(udp + 1, total, h), Machine(drop + 1, total, h), p);
      Stops(prog, Machine(drop + 1, total, h), META, p);
    }
  }

  function TcpVerdict(s: Scope, p: seq<Byte>, h: nat): nat
    requires |p| >= 20
  {
    if h + 13 > |p| then DROP
    else
      var t := p[h + 12] / 16 * 4;
      if t < 20 then META
      else if U16(p, 2) == h + t then DROP
      else PayloadVerdict(s, p, h + t, 14)
  }

  lemma TcpRuns(prog: seq<Insn>, s: Scope, drop: nat, h: nat, a: nat, p: seq<Byte>)
    requires TcpHeaderLaid(prog, drop) && TcpPayloadLaid(prog, s.question, drop)
    requires ValidScope(s) && |p| >= 20 && h <= 60
    ensures Run(prog, Machine(17, a, h), p) == TcpVerdict(s, p, h)
  {
    TcpHeaderRuns(prog, drop, h, a, p);
    if h + 13 <= |p| && p[h + 12] / 16 * 4 >= 20 {
      TcpPayloadRuns(prog, s, drop, h, p[h + 12] / 16 * 4, p);
    }
  }

  lemma TcpHeaderRuns(prog: seq<Insn>, drop: nat, h: nat, a: nat, p: seq<Byte>)
    requires TcpHeaderLaid(prog, drop) && h <= 60
    ensures Run(prog, Machine(17, a, h), p) ==
            if h + 13 > |p| then DROP
            else if p[h + 12] / 16 * 4 < 20 then META
            else Run(prog, Machine(21, p[h + 12] / 16 * 4, h), p)
  {
    if h + 13 <= |p| {
      var b := p[h + 12];
      var t := b / 16 * 4;
      NibbleOfByte(b);
      Steps(prog, Machine(17, a, h), Machine(18, b, h), p);
      MaskStep(prog, 18, b, h, p);
      ShiftStep(prog, 19, t, h, p);
      if t >= 20 {
        Steps(prog, Machine(20, t, h), Machine(21, t, h), p);
      } else {
        Steps(prog, Machine(20, t, h), Machine(drop + 1, t, h), p);
        Stops(prog, Machine(drop + 1, t, h), META, p);
      }
    }
  }

  /** Masking the high nibble of a byte. */
  lemma MaskStep(prog: seq<Insn>, pc: nat, b: Byte, x: nat, p: seq<Byte>)
    requires pc < |prog| && prog[pc] == Insn(0x54, 0, 0, 0xf0)
    ensures Run(prog, Machine(pc, b, x), p) == Run(prog, Machine(pc + 1, HighNibble(b), x), p)
  {
    AndF0(b);
    Steps(prog, Machine(pc, b, x), Machine(pc + 1, b / 16 % 16 * 16, x), p);
  }

  function HighNibble(b: nat): nat {
    b / 16 % 16 * 16
  }

  lemma NibbleOfByte(b: Byte)
    ensures HighNibble(b) == b / 16 * 16
  {
  }

  /** Dividing by four. */
  lemma ShiftStep(prog: seq<Insn>, pc: nat, n: nat, x: nat, p: seq<Byte>)
    requires pc < |prog| && prog[pc] == Insn(0x74, 0, 0, 2)
    ensures Run(prog, Machine(pc, 4 * n, x), p) == Run(prog, Machine(pc + 1, n, x), p)
  {
    ShiftTwo(n);
    Steps(prog, Machine(pc, 4 * n, x), Machine(pc + 1, n, x), p);
  }

  lemma ShiftTwo(n: nat)
    ensures ShiftRight(4 * n, 2) == n
  {
    assert 4 * n / 2 == 2 * n && 2 * n / 2 == n;
    assert ShiftRight(4 * n, 2) == ShiftRight(2 * n, 1) == ShiftRight(n, 0);
  }

  lemma TcpPayloadRuns(prog: seq<Insn>, s: Scope, drop: nat, h: nat, t: nat, p: seq<Byte>)
    requires TcpHeaderLaid(prog, drop) && TcpPayloadLaid(prog, s.question, drop)
    requires ValidScope(s) && |p| >= 20 && h <= 60 && 20 <= t <= 60
    ensures Run(prog, Machine(21, t, h), p) ==
            if U16(p, 2) == h + t then DROP else PayloadVerdict(s, p, h + t, 14)
  {
    var start, total := h + t, U16(p, 2);
    Steps(prog, Machine(21, t, h), Machine(22, start, h), p);
    Steps(prog, Machine(22, start, h), Machine(23, start, start), p);
    Steps(prog, Machine(23, start, start), Machine(24, total, start), p);
    if total >= start {
      Steps(prog, Machine(24, total, start), Machine(25, total, start), p);
      TcpQuestionRuns(prog, s, drop, start, p);
    } else {
      Steps(prog, Machine(24, total, start), Machine(drop + 1, total, start), p);
      Stops(prog, Machine(drop + 1, total, start), META, p);
    }
  }

  lemma TcpQuestionRuns(prog: seq<Insn>, s: Scope, drop: nat, start: nat, p: seq<Byte>)
    requires TcpPayloadLaid(prog, s.question, drop)
    requires ValidScope(s) && |p| >= 20 && start <= 120 && U16(p, 2) >= start
    ensures Run(prog, Machine(25, U16(p, 2), start), p) ==
            if U16(p, 2) == start then DROP else PayloadVerdict(s, p, start, 14)
  {
    var length := U16(p, 2) - start;
    TcpLengthRuns(prog, |s.question|, drop, start, U16(p, 2), p);
  }

  lemma TcpLengthRuns(prog: seq<Insn>, n: nat, drop: nat, start: nat, total: nat, p: seq<Byte>)
    requires Exits(prog, drop) && 34 <= drop < 254
    requires prog[25] == Insn(0x1c, 0, 0, 0) && prog[26] == Insn(0x15, drop - 27, 0, 0)
    requires prog[27] == Insn(0x35, 0, drop - 27, 14 + n)
    requires start <= total < WORD
    ensures Run(prog, Machine(25, total, start), p) ==
            if total == start then DROP
            else if total - start < 14 + n then META else Run(prog, Machine(28, total - start, start), p)
  {
    var length := total - start;
    Steps(prog, Machine(25, total, start), Machine(26, length, start), p);
    if length == 0 {
      Steps(prog, Machine(26, length, start), Machine(drop, length, start), p);
      Stops(prog, Machine(drop, length, start), DROP, p);
    } else {
      Steps(prog, Machine(26, length, start), Machine(27, length, start), p);
      if length >= 14 + n {
        Steps(prog, Machine(27, length, start), Machine(28, length, start), p);
      } else {
        Steps(prog, Machine(27, length, start), Machine(drop + 1, length, start), p);
        Stops(prog, Machine(drop + 1, length, start), META, p);
      }
    }
  }

  /** From the port test on: the destination port, then the transport. */
  lemma PortRuns(prog: seq<Insn>, s: Scope, udp: nat, drop: nat, a: nat, p: seq<Byte>)
    requires PortLaid(prog, s.port, udp, drop) && UdpLaid(prog, s.question, udp, drop)
    requires TcpHeaderLaid(prog, drop) && TcpPayloadLaid(prog, s.question, drop)
    requires ValidScope(s) && |p| >= 20 && (p[9] == UDP || p[9] == TCP)
    ensures Run(prog, Machine(12, a, 0), p) ==
            var h := HeaderLength(p);
            if h + 4 > |p| || U16(p, h + 2) != s.port then DROP
            else if p[9] == UDP then PayloadVerdict(s, p, h, 20) else TcpVerdict(s, p, h)
  {
    PortTestRuns(prog, s.port, udp, drop, a, p);
    if p[9] == UDP {
      UdpRuns(prog, s, udp, drop, HeaderLength(p), p[9], p);
    } else {
      TcpRuns(prog, s, drop, HeaderLength(p), p[9], p);
    }
  }

  /** The header length goes into X; the port decides between the transports and the drop exit. */
  lemma PortTestRuns(prog: seq<Insn>, port: nat, udp: nat, drop: nat, a: nat, p: seq<Byte>)
    requires PortLaid(prog, port, udp, drop) && |p| >= 20
    ensures Run(prog, Machine(12, a, 0), p) ==
            var h := HeaderLength(p);
            if h + 4 > |p| || U16(p, h + 2) != port then DROP
            else Run(prog, Machine(if p[9] == UDP then udp else 17, p[9], h), p)
  {
    var h := HeaderLength(p);
    And0F(p[0]);
    Steps(prog, Machine(12, a, 0), Machine(13, a, h), p);
    if h + 4 <= |p| {
      var v: nat := U16(p, h + 2);
      Steps(prog, Machine(13, a, h), Machine(14, v, h), p);
      if v != port {
        Steps(prog, Machine(14, v, h), Machine(drop, v, h), p);
        Stops(prog, Machine(drop, v, h), DROP, p);
      } else {
        Steps(prog, Machine(14, v, h), Machine(15, v, h), p);
        Steps(prog, Machine(15, v, h), Machine(16, p[9], h), p);
      }
    }
  }

  lemma FragmentRuns(prog: seq<Insn>, s: Scope, drop: nat, a: nat, p: seq<Byte>)
    requires ProtocolLaid(prog, drop)
    requires ValidScope(s) && |p| >= 20
    ensures Run(prog, Machine(10, a, 0), p) ==
            if U16(p, 6) % 16384 != 0 then META else Run(prog, Machine(12, U16(p, 6), 0), p)
  {
    var f := U16(p, 6);
    And3FFF(f);
    Steps(prog, Machine(10, a, 0), Machine(11, f, 0), p);
    if f % 16384 != 0 {
      Steps(prog, Machine(11, f, 0), Machine(drop + 1, f, 0), p);
      Stops(prog, Machine(drop + 1, f, 0), META, p);
    } else {
      Steps(prog, Machine(11, f, 0), Machine(12, f, 0), p);
    }
  }

  lemma ProtocolRuns(prog: seq<Insn>, s: Scope, drop: nat, a: nat, p: seq<Byte>)
    requires ProtocolLaid(prog, drop)
    requires ValidScope(s) && |p| >= 20
    ensures Run(prog, Machine(7, a, 0), p) ==
            if p[9] == UDP || p[9] == TCP then Run(prog, Machine(10, p[9], 0), p) else DROP
  {
    Steps(prog, Machine(7, a, 0), Machine(8, p[9], 0), p);
    if p[9] == UDP {
      Steps(prog, Machine(8, p[9], 0), Machine(10, p[9], 0), p);
    } else {
      Steps(prog, Machine(8, p[9], 0), Machine(9, p[9], 0), p);
      if p[9] == TCP {
        Steps(prog, Machine(9, p[9], 0), Machine(10, p[9], 0), p);
      } else {
        Steps(prog, Machine(9, p[9], 0), Machine(drop, p[9], 0), p);
        Stops(prog, Machine(drop, p[9], 0), DROP, p);
      }
    }
  }

  /** One address test: load a word, leave when it differs. */
  lemma AddressRuns(prog: seq<Insn>, s: Scope, drop: nat, pc: nat, a: nat, p: seq<Byte>)
    requires AddressLaid(prog, s, drop)
    requires ValidScope(s) && (pc == 3 || pc == 5)
    ensures var at, want := if pc == 3 then 12 else 16, if pc == 3 then s.src else s.dst;
            Run(prog, Machine(pc, a, 0), p) ==
            if at + 4 <= |p| && U32(p, at) == want then Run(prog, Machine(pc + 2, want, 0), p) else DROP
  {
    var at, want := if pc == 3 then 12 else 16, if pc == 3 then s.src else s.dst;
    if at + 4 <= |p| {
      var v: nat := U32(p, at);
      Steps(prog, Machine(pc, a, 0), Machine(pc + 1, v, 0), p);
      if v == want {
        Steps(prog, Machine(pc + 1, v, 0), Machine(pc + 2, v, 0), p);
      } else {
        Steps(prog, Machine(pc + 1, v, 0), Machine(drop, v, 0), p);
        Stops(prog, Machine(drop, v, 0), DROP, p);
      }
    } else {
      Stops(prog, Machine(pc, a, 0), DROP, p);
    }
  }

  lemma VersionRuns(prog: seq<Insn>, s: Scope, drop: nat, p: seq<Byte>)
    requires AddressLaid(prog, s, drop)
    requires ValidScope(s)
    ensures Run(prog, Machine(0, 0, 0), p) ==
            if |p| >= 1 && p[0] / 16 == 4 then Run(prog, Machine(3, 0x40, 0), p) else DROP
  {
    if |p| >= 1 {
      var v := p[0] / 16 * 16;
      NibbleOfByte(p[0]);
      Steps(prog, Machine(0, 0, 0), Machine(1, p[0], 0), p);
      MaskStep(prog, 1, p[0], 0, p);
      if v == 0x40 {
        Steps(prog, Machine(2, v, 0), Machine(3, v, 0), p);
      } else {
        Steps(prog, Machine(2, v, 0), Machine(drop, v, 0), p);
        Stops(prog, Machine(drop, v, 0), DROP, p);
      }
    } else {
      Stops(prog, Machine(0, 0, 0), DROP, p);
    }
  }

  /** The program computes the verdict, for every scope and every packet. */
  lemma ProgramComputesVerdict(s: Scope, p: seq<Byte>)
    requires ValidScope(s)
    ensures Run(Program(s), Machine(0, 0, 0), p) == Verdict(s, p)
  {
    var prog := Program(s);
    Layout(s);
    HeadLaid(prog, s);
    TcpLaid(prog, s);
    UdpPlaced(prog, s);
    LaidComputesVerdict(prog, s, UdpIndex(s), DropIndex(s), p);
  }

  /** The version and the two addresses. */
  lemma AddressesRun(prog: seq<Insn>, s: Scope, drop: nat, p: seq<Byte>)
    requires ValidScope(s) && AddressLaid(prog, s, drop)
    ensures Run(prog, Machine(0, 0, 0), p) ==
            if |p| >= 20 && p[0] / 16 == 4 && U32(p, 12) == s.src && U32(p, 16) == s.dst
            then Run(prog, Machine(7, s.dst, 0), p)
            else DROP
  {
    VersionRuns(prog, s, drop, p);
    if |p| >= 1 && p[0] / 16 == 4 {
      AddressRuns(prog, s, drop, 3, 0x40, p);
      AddressRuns(prog, s, drop, 5, s.src, p);
    }
  }

  /** The protocol and the fragment test. */
  lemma TransportRuns(prog: seq<Insn>, s: Scope, drop: nat, p: seq<Byte>)
    requires ValidScope(s) && ProtocolLaid(prog, drop) && |p| >= 20
    ensures Run(prog, Machine(7, s.dst, 0), p) ==
            if p[9] != UDP && p[9] != TCP then DROP
            else if U16(p, 6) % 16384 != 0 then META
            else Run(prog, Machine(12, U16(p, 6), 0), p)
  {
    ProtocolRuns(prog, s, drop, s.dst, p);
    FragmentRuns(prog, s, drop, p[9], p);
  }

  lemma LaidComputesVerdict(prog: seq<Insn>, s: Scope, udp: nat, drop: nat, p: seq<Byte>)
    requires ValidScope(s)
    requires AddressLaid(prog, s, drop) && ProtocolLaid(prog, drop) && PortLaid(prog, s.port, udp, drop)
    requires TcpHeaderLaid(prog, drop) && TcpPayloadLaid(prog, s.question, drop) && UdpLaid(prog, s.question, udp, drop)
    ensures Run(prog, Machine(0, 0, 0), p) == Verdict(s, p)
  {
    AddressesRun(prog, s, drop, p);
    if |p| >= 20 {
      TransportRuns(prog, s, drop, p);
      if InScope(s, p) {
        PortRuns(prog, s, udp, drop, U16(p, 6), p);
        VerdictAfterPort(s, p);
      }
    }
  }

  /** The stated verdict once the packet is in scope. */
  lemma VerdictAfterPort(s: Scope, p: seq<Byte>)
    requires InScope(s, p)
    ensures Verdict(s, p) ==
            if U16(p, 6) % 16384 != 0 then META
            else
              var h := HeaderLength(p);
              if h + 4 > |p| || U16(p, h + 2) != s.port then DROP
              else if p[9] == UDP then PayloadVerdict(s, p, h, 20) else TcpVerdict(s, p, h)
  {
  }
}
