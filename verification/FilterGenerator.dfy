/** The generator itself: instructions are appended, jump slots are listed, and the jumps are patched at the end. */
module FilterGenerator {
  import opened Bytes
  import opened Bpf
  import opened Dns
  import opened PacketFilter
  import opened FilterVerdict

  datatype Error = Invalid | Unsupported

  datatype Outcome = Generated(program: seq<Insn>) | Refused(error: Error)

  /** f is target without its jumps, and the lists say where those jumps go. */
  ghost predicate Patchable(f: seq<Insn>, target: seq<Insn>, dropFalse: seq<nat>, metaFalse: seq<nat>, udp: nat,
                            drop: nat) {
    && |f| == |target| && 34 <= drop && drop + 1 < |f| <= 255 && 17 <= udp < 255
    && (forall i :: i in dropFalse || i in metaFalse ==> i < drop)
    && (forall i :: i in dropFalse ==> i !in metaFalse)
    && (forall i :: 0 <= i < |f| ==> f[i] == target[i].(jt := if i == 8 then 1 else 0, jf := 0))
    && (forall i :: 0 <= i < |f| ==>
          target[i].jf == if i in dropFalse then drop - i - 1 else if i in metaFalse then drop - i else 0)
    && (forall i :: 0 <= i < |f| ==>
          target[i].jt == if i == 26 then drop - i - 1 else if i == 11 then drop - i
                          else if i == 16 then udp - 17 else if i == 8 then 1 else 0)
  }

  lemma Regroup<T>(a: seq<T>, b: seq<T>, c: seq<T>)
    ensures (a + b) + c == a + (b + c)
  {
  }

  /** One comparison moved from what is to come to what is there. */
  lemma ComparedOne(q: seq<Byte>, pos: nat, offset: nat, f: seq<Insn>, listed: seq<nat>)
    requires pos < |q|
    ensures var w := Width(|q| - pos);
            && f + RawCompare(q, pos, offset) ==
               f + [Insn(LoadCode(w), 0, 0, offset + pos), Insn(0x15, 0, 0, Value(q, pos))]
               + RawCompare(q, pos + w, offset)
            && listed + JumpIndices(|q| - pos, |f|) ==
               listed + [|f| + 1] + JumpIndices(|q| - (pos + w), |f| + 2)
  {
    var w := Width(|q| - pos);
    var step := [Insn(LoadCode(w), 0, 0, offset + pos), Insn(0x15, 0, 0, Value(q, pos))];
    Regroup(f, step, RawCompare(q, pos + w, offset));
    Regroup(listed, [|f| + 1], JumpIndices(|q| - (pos + w), |f| + 2));
  }

  class Generator {
    var f: seq<Insn>
    var dropFalse: seq<nat>
    var dropTrue: seq<nat>
    var metaTrue: seq<nat>
    var metaFalse: seq<nat>

    constructor (head: seq<Insn>)
      ensures f == head && dropFalse == [2, 4, 6, 9, 14] && dropTrue == [] && metaTrue == [11] && metaFalse == []
    {
      f, dropFalse, dropTrue, metaTrue, metaFalse := head, [2, 4, 6, 9, 14], [], [11], [];
    }

    method Emit(code: nat, k: nat) returns (i: nat)
      modifies this`f
      ensures i == old(|f|) && f == old(f) + [Insn(code, 0, 0, k)]
    {
      i := |f|;
      f := f + [Insn(code, 0, 0, k)];
    }

    /** One comparison of up to four bytes. */
    method MatchOne(q: seq<Byte>, pos: nat, offset: nat) returns (width: nat)
      requires pos < |q|
      modifies this`f, this`dropFalse
      ensures width == Width(|q| - pos)
      ensures f == old(f) + [Insn(LoadCode(width), 0, 0, offset + pos), Insn(0x15, 0, 0, Value(q, pos))]
      ensures dropFalse == old(dropFalse) + [old(|f|) + 1]
    {
      var code, value: nat;
      if |q| - pos >= 4 {
        width, code, value := 4, 0x40, U32(q, pos);
      } else if |q| - pos >= 2 {
        width, code, value := 2, 0x48, U16(q, pos);
      } else {
        width, code, value := 1, 0x50, q[pos];
      }
      var _ := Emit(code, offset + pos);
      var j := Emit(0x15, value);
      dropFalse := dropFalse + [j];
    }

    /** Loads and compares the question in steps of four, two and one bytes. */
    method Match(q: seq<Byte>, offset: nat)
      modifies this`f, this`dropFalse
      ensures f == old(f) + RawCompare(q, 0, offset) + [Insn(0x06, 0, 0, ADMIT)]
      ensures dropFalse == old(dropFalse) + JumpIndices(|q|, old(|f|))
    {
      var pos := 0;
      while pos < |q|
        invariant 0 <= pos <= |q|
        invariant f + RawCompare(q, pos, offset) == old(f) + RawCompare(q, 0, offset)
        invariant dropFalse + JumpIndices(|q| - pos, |f|) == old(dropFalse) + JumpIndices(|q|, old(|f|))
      {
        ghost var before, listed := f, dropFalse;
        var width := MatchOne(q, pos, offset);
        ComparedOne(q, pos, offset, before, listed);
        pos := pos + width;
      }
      assert f + RawCompare(q, |q|, offset) == f && dropFalse + JumpIndices(0, |f|) == dropFalse;
      var _ := Emit(0x06, ADMIT);
    }

    /** Sets the false branch of every listed jump; the offset is stored in eight bits. */
    method PatchFalse(list: seq<nat>, target: nat)
      requires forall i :: i in list ==> i < |f|
      modifies this`f
      ensures |f| == old(|f|)
      ensures forall i :: 0 <= i < |f| ==>
                f[i] == if i in list then old(f)[i].(jf := (target - i - 1) % 256) else old(f)[i]
    {
      var n := 0;
      while n < |list|
        invariant 0 <= n <= |list| && |f| == old(|f|)
        invariant forall i :: 0 <= i < |f| ==>
                    f[i] == if i in list[..n] then old(f)[i].(jf := (target - i - 1) % 256) else old(f)[i]
      {
        var i := list[n];
        assert i in list;
        f := f[i := f[i].(jf := (target - i - 1) % 256)];
        assert list[..n + 1] == list[..n] + [i];
        n := n + 1;
      }
      assert list[..n] == list;
    }

    method PatchTrue(list: seq<nat>, target: nat)
      requires forall i :: i in list ==> i < |f|
      modifies this`f
      ensures |f| == old(|f|)
      ensures forall i :: 0 <= i < |f| ==>
                f[i] == if i in list then old(f)[i].(jt := (target - i - 1) % 256) else old(f)[i]
    {
      var n := 0;
      while n < |list|
        invariant 0 <= n <= |list| && |f| == old(|f|)
        invariant forall i :: 0 <= i < |f| ==>
                    f[i] == if i in list[..n] then old(f)[i].(jt := (target - i - 1) % 256) else old(f)[i]
      {
        var i := list[n];
        assert i in list;
        f := f[i := f[i].(jt := (target - i - 1) % 256)];
        assert list[..n + 1] == list[..n] + [i];
        n := n + 1;
      }
      assert list[..n] == list;
    }

    /** Back-patching turns the instructions as emitted into the target, given where the target jumps. */
    method PatchAll(udp: nat, drop: nat, meta: nat, ghost target: seq<Insn>)
      requires dropTrue == [26] && metaTrue == [11] && meta == drop + 1
      requires Patchable(f, target, dropFalse, metaFalse, udp, drop)
      modifies this`f
      ensures f == target
    {
      f := f[16 := f[16].(jt := (udp - 17) % 256)];
      PatchFalse(dropFalse, drop);
      PatchTrue(dropTrue, drop);
      PatchTrue(metaTrue, meta);
      PatchFalse(metaFalse, meta);
    }

    /** The instructions that find the TCP payload. */
    method EmitTcpHead(n: nat)
      requires |f| == 17 && dropTrue == [] && metaFalse == []
      modifies this`f, this`dropTrue, this`metaFalse
      ensures f == old(f) + RawTcpHead(n) && dropTrue == [26] && metaFalse == [20, 24, 27]
    {
      var i := Emit(0x50, 12);
      i := Emit(0x54, 0xf0);
      i := Emit(0x74, 2);
      i := Emit(0x35, 20);
      metaFalse := metaFalse + [i];
      i := Emit(0x0c, 0);
      i := Emit(0x07, 0);
      i := Emit(0x28, 2);
      i := Emit(0x3d, 0);
      metaFalse := metaFalse + [i];
      i := Emit(0x1c, 0);
      i := Emit(0x15, 0);
      dropTrue := dropTrue + [i];
      i := Emit(0x35, 14 + n);
      metaFalse := metaFalse + [i];
    }

    method EmitTcp(q: seq<Byte>)
      requires |f| == 17 && dropTrue == [] && metaFalse == []
      modifies this
      ensures f == old(f) + RawTcpHead(|q|) + (RawCompare(q, 0, 14) + [Insn(0x06, 0, 0, ADMIT)])
      ensures dropFalse == old(dropFalse) + JumpIndices(|q|, 28)
      ensures dropTrue == [26] && metaTrue == old(metaTrue) && metaFalse == [20, 24, 27]
    {
      EmitTcpHead(|q|);
      ghost var head := f;
      Match(q, 14);
      Regroup(head, RawCompare(q, 0, 14), [Insn(0x06, 0, 0, ADMIT)]);
    }

    method EmitUdp(q: seq<Byte>) returns (udp: nat)
      modifies this
      ensures udp == old(|f|)
      ensures f == old(f) + RawUdpHead(|q|) + (RawCompare(q, 0, 20) + [Insn(0x06, 0, 0, ADMIT)])
      ensures dropFalse == old(dropFalse) + JumpIndices(|q|, udp + 4)
      ensures dropTrue == old(dropTrue) && metaTrue == old(metaTrue) && metaFalse == old(metaFalse) + [udp + 1, udp + 3]
    {
      udp := |f|;
      var i := Emit(0x28, 2);
      i := Emit(0x3d, 0);
      metaFalse := metaFalse + [i];
      i := Emit(0x1c, 0);
      i := Emit(0x35, 20 + |q|);
      metaFalse := metaFalse + [i];
      assert f == old(f) + RawUdpHead(|q|);
      ghost var head := f;
      Match(q, 20);
      assert f == head + (RawCompare(q, 0, 20) + [Insn(0x06, 0, 0, ADMIT)]);
    }
  }

  /** The instructions before the comparisons, as they are first written down. */
  function RawHead(s: Scope): seq<Insn> {
    [Insn(0x30, 0, 0, 0), Insn(0x54, 0, 0, 0xf0), Insn(0x15, 0, 0, 0x40),
     Insn(0x20, 0, 0, 12), Insn(0x15, 0, 0, s.src),
     Insn(0x20, 0, 0, 16), Insn(0x15, 0, 0, s.dst),
     Insn(0x30, 0, 0, 9), Insn(0x15, 1, 0, 17), Insn(0x15, 0, 0, 6),
     Insn(0x28, 0, 0, 6), Insn(0x45, 0, 0, 0x3fff),
     Insn(0xb1, 0, 0, 0), Insn(0x48, 0, 0, 2), Insn(0x15, 0, 0, s.port),
     Insn(0x30, 0, 0, 9), Insn(0x15, 0, 0, 17)]
  }

  function RawTcpHead(n: nat): seq<Insn> {
    [Insn(0x50, 0, 0, 12), Insn(0x54, 0, 0, 0xf0), Insn(0x74, 0, 0, 2), Insn(0x35, 0, 0, 20),
     Insn(0x0c, 0, 0, 0), Insn(0x07, 0, 0, 0), Insn(0x28, 0, 0, 2), Insn(0x3d, 0, 0, 0),
     Insn(0x1c, 0, 0, 0), Insn(0x15, 0, 0, 0), Insn(0x35, 0, 0, 14 + n)]
  }

  function RawUdpHead(n: nat): seq<Insn> {
    [Insn(0x28, 0, 0, 2), Insn(0x3d, 0, 0, 0), Insn(0x1c, 0, 0, 0), Insn(0x35, 0, 0, 20 + n)]
  }

  /** All instructions before patching. */
  function Raw(s: Scope): (code: seq<Insn>)
    ensures |code| == DropIndex(s) + 2
  {
    RawHead(s) + RawTcpHead(|s.question|) + (RawCompare(s.question, 0, 14) + [Insn(0x06, 0, 0, ADMIT)])
    + RawUdpHead(|s.question|) + (RawCompare(s.question, 0, 20) + [Insn(0x06, 0, 0, ADMIT)])
    + [Insn(0x06, 0, 0, DROP), Insn(0x06, 0, 0, META)]
  }

  /** Where each piece sits before patching. */
  ghost predicate RawPlaced(r: seq<Insn>, s: Scope) {
    var n, u, d := |s.question|, UdpIndex(s), DropIndex(s);
    && |r| == d + 2
    && Holds(r, 0, RawHead(s)) && Holds(r, 17, RawTcpHead(n)) && Holds(r, 28, RawCompare(s.question, 0, 14))
    && Holds(r, u - 1, ADMITTED) && Holds(r, u, RawUdpHead(n)) && Holds(r, u + 4, RawCompare(s.question, 0, 20))
    && Holds(r, d - 1, ADMITTED) && Holds(r, d, EXITS)
  }

  lemma RawLayout(s: Scope)
    ensures RawPlaced(Raw(s), s)
  {
    var a, b, c := RawHead(s), RawTcpHead(|s.question|), RawCompare(s.question, 0, 14);
    var e, f := RawUdpHead(|s.question|), RawCompare(s.question, 0, 20);
    Assembles(a, b, c, e, f);
    InParts(a, b, c, ADMITTED, e, f, EXITS);
    assert Raw(s) == a + b + (c + ADMITTED) + e + (f + ADMITTED) + EXITS;
  }

  lemma InParts(a: seq<Insn>, b: seq<Insn>, c: seq<Insn>, r: seq<Insn>, e: seq<Insn>, f: seq<Insn>, x: seq<Insn>)
    ensures a + b + (c + r) + e + (f + r) + x == a + b + c + r + e + f + r + x
  {
    Regroup(a + b, c, r);
    Regroup(a + b + c + r + e, f, r);
  }

  /** Cleared pieces at the same place make cleared instructions. */
  lemma ClearedAt(raw: seq<Insn>, code: seq<Insn>, base: nat, piece: seq<Insn>, i: nat)
    requires Holds(raw, base, Clear(piece)) && Holds(code, base, piece) && base <= i < base + |piece|
    ensures raw[i] == code[i].(jt := 0, jf := 0)
  {
    HoldsAt(raw, base, Clear(piece), i - base);
    HoldsAt(code, base, piece, i - base);
  }

  lemma HeadIsCleared(s: Scope, i: nat)
    requires ValidScope(s) && i < 17
    ensures Raw(s)[i] == Program(s)[i].(jt := if i == 8 then 1 else 0, jf := 0)
  {
    var u, d := UdpIndex(s), DropIndex(s);
    Layout(s);
    RawLayout(s);
    HoldsAt(Program(s), 0, Head(s, u, d, d + 1), i);
    HoldsAt(Raw(s), 0, RawHead(s), i);
  }

  lemma TransportHeadsAreCleared(n: nat, udp: nat, drop: nat)
    requires 29 <= udp && udp + 5 <= drop <= 254
    ensures RawTcpHead(n) == Clear(TcpHead(n, drop, drop + 1)) && RawUdpHead(n) == Clear(UdpHead(n, udp, drop + 1))
  {
  }

  lemma TransportIsCleared(s: Scope, i: nat)
    requires ValidScope(s) && (17 <= i < 28 || UdpIndex(s) <= i < UdpIndex(s) + 4)
    ensures Raw(s)[i] == Program(s)[i].(jt := 0, jf := 0)
  {
    var n, u, d := |s.question|, UdpIndex(s), DropIndex(s);
    Layout(s);
    RawLayout(s);
    TransportHeadsAreCleared(n, u, d);
    if i < 28 {
      ClearedAt(Raw(s), Program(s), 17, TcpHead(n, d, d + 1), i);
    } else {
      ClearedAt(Raw(s), Program(s), u, UdpHead(n, u, d + 1), i);
    }
  }

  lemma ComparisonIsCleared(raw: seq<Insn>, code: seq<Insn>, q: seq<Byte>, offset: nat, base: nat, drop: nat, i: nat)
    requires base + CompareSize(|q|) <= drop < base + 256 && base <= i < base + CompareSize(|q|)
    requires Holds(raw, base, RawCompare(q, 0, offset)) && Holds(code, base, Compare(q, 0, offset, base, drop))
    ensures raw[i] == code[i].(jt := 0, jf := 0)
  {
    RawCompareIsCleared(q, 0, offset, base, drop);
    ClearedAt(raw, code, base, Compare(q, 0, offset, base, drop), i);
  }

  lemma ComparisonsAreCleared(s: Scope, i: nat)
    requires ValidScope(s) && (28 <= i < UdpIndex(s) - 1 || UdpIndex(s) + 4 <= i < DropIndex(s) - 1)
    ensures Raw(s)[i] == Program(s)[i].(jt := 0, jf := 0)
  {
    Layout(s);
    RawLayout(s);
    if i < UdpIndex(s) {
      ComparisonIsCleared(Raw(s), Program(s), s.question, 14, 28, DropIndex(s), i);
    } else {
      ComparisonIsCleared(Raw(s), Program(s), s.question, 20, UdpIndex(s) + 4, DropIndex(s), i);
    }
  }

  lemma RawReturnsAt(s: Scope, r: seq<Insn>, i: nat)
    requires RawPlaced(r, s) && (i == UdpIndex(s) - 1 || DropIndex(s) - 1 <= i < |r|)
    ensures r[i] == Insn(0x06, 0, 0, if i == DropIndex(s) then DROP else if i == DropIndex(s) + 1 then META else ADMIT)
  {
    var d := DropIndex(s);
    if i == UdpIndex(s) - 1 {
      HoldsAt(r, i, ADMITTED, 0);
    } else if i == d - 1 {
      HoldsAt(r, d - 1, ADMITTED, 0);
    } else {
      HoldsAt(r, d, EXITS, i - d);
    }
  }

  /** Unpatched, an instruction differs from the final one in its jumps only. */
  lemma RawIsCleared(s: Scope, i: nat)
    requires ValidScope(s) && i < |Program(s)|
    ensures Raw(s)[i] == Program(s)[i].(jt := if i == 8 then 1 else 0, jf := 0)
  {
    RawLayout(s);
    Layout(s);
    if i < 17 {
      HeadIsCleared(s, i);
    } else if i < 28 || UdpIndex(s) <= i < UdpIndex(s) + 4 {
      TransportIsCleared(s, i);
    } else if i < UdpIndex(s) - 1 || UdpIndex(s) + 4 <= i < DropIndex(s) - 1 {
      ComparisonsAreCleared(s, i);
    } else {
      ReturnsAt(s, Program(s), i);
      RawReturnsAt(s, Raw(s), i);
    }
  }

  /** The scope a nonce describes. */
  function ScopeOf(src: seq<Byte>, dst: seq<Byte>, port: nat, nonce: seq<Byte>): Scope
    requires |src| == 4 && |dst| == 4 && QueryDomain(nonce)
  {
    Scope(U32(src, 0), U32(dst, 0), port, QuestionOf(nonce))
  }

  lemma QuestionSlice(nonce: seq<Byte>, id: nat)
    requires QueryDomain(nonce) && id < 0x1_0000
    ensures |QueryBytes(nonce, id)| >= 23
    ensures QueryBytes(nonce, id)[12..|QueryBytes(nonce, id)| - 11] == QuestionOf(nonce)
  {
  }

  /**
   The filter for a nonce: refused when the nonce is no domain or its question is longer than 96 bytes,
   otherwise a well-formed program that computes the verdict for every packet.
   */
  method ScopedPacketFilter(src: seq<Byte>, dst: seq<Byte>, port: nat, nonce: seq<Byte>, id: nat)
    returns (r: Outcome)
    requires |src| == 4 && |dst| == 4 && port < 0x1_0000 && id < 0x1_0000
    ensures r == Refused(Invalid) <==> !QueryDomain(nonce)
    ensures r == Refused(Unsupported) <==> QueryDomain(nonce) && |QuestionOf(nonce)| > 96
    ensures r.Generated? ==>
              QueryDomain(nonce) && r.program == Program(ScopeOf(src, dst, port, nonce)) && WellFormed(r.program)
    ensures r.Generated? ==> forall p: seq<Byte> ::
                Run(r.program, Machine(0, 0, 0), p) == Verdict(ScopeOf(src, dst, port, nonce), p)
  {
    var query := DnsQuery(nonce, id);
    if query.None? {
      return Refused(Invalid);
    }
    QuestionSlice(nonce, id);
    var question := query.value[12..|query.value| - 11];
    if |question| > 96 {
      return Refused(Unsupported);
    }
    r := Assemble(ScopeOf(src, dst, port, nonce));
  }

  /** Emits and patches the program of a scope. */
  method Assemble(s: Scope) returns (r: Outcome)
    requires ValidScope(s)
    ensures r == Generated(Program(s)) && WellFormed(Program(s))
    ensures forall p: seq<Byte> :: Run(Program(s), Machine(0, 0, 0), p) == Verdict(s, p)
  {
    var g := new Generator(RawHead(s));
    g.EmitTcp(s.question);
    var udp := g.EmitUdp(s.question);
    var drop := g.Emit(0x06, 0);
    var meta := g.Emit(0x06, 1);
    EmittedIsRaw(s, g.f);
    if |g.f| > 255 {
      return Refused(Unsupported);
    }
    PatchTargets(s, g.f);
    assert g.dropFalse == DropFalse(s) && g.metaFalse == MetaFalse(s) && udp == UdpIndex(s) && drop == DropIndex(s);
    g.PatchAll(udp, drop, meta, Program(s));
    FilterMeaning(s);
    return Generated(g.f);
  }

  lemma EmittedIsRaw(s: Scope, f: seq<Insn>)
    requires f == RawHead(s) + RawTcpHead(|s.question|) + (RawCompare(s.question, 0, 14) + [Insn(0x06, 0, 0, ADMIT)])
                  + RawUdpHead(|s.question|) + (RawCompare(s.question, 0, 20) + [Insn(0x06, 0, 0, ADMIT)])
                  + [Insn(0x06, 0, 0, 0)] + [Insn(0x06, 0, 0, 1)]
    ensures f == Raw(s)
  {
  }

  lemma PatchTargets(s: Scope, f: seq<Insn>)
    requires ValidScope(s) && f == Raw(s)
    ensures Patchable(f, Program(s), DropFalse(s), MetaFalse(s), UdpIndex(s), DropIndex(s))
  {
    RawLayout(s);
    forall i: nat
      ensures i in DropFalse(s) ==> i !in MetaFalse(s) && i < DropIndex(s)
      ensures i < |f| ==> JumpsAsListed(s, i, Program(s)[i])
      ensures i < |f| ==> f[i] == Program(s)[i].(jt := if i == 8 then 1 else 0, jf := 0)
    {
      ListedIndices(s, i);
      if i < |f| {
        JumpTable(s, i);
        RawIsCleared(s, i);
      }
    }
  }

  lemma FilterMeaning(s: Scope)
    requires ValidScope(s)
    ensures WellFormed(Program(s))
    ensures forall p: seq<Byte> :: Run(Program(s), Machine(0, 0, 0), p) == Verdict(s, p)
  {
    ProgramWellFormed(s);
    forall p: seq<Byte>
      ensures Run(Program(s), Machine(0, 0, 0), p) == Verdict(s, p)
    {
      ProgramComputesVerdict(s, p);
    }
  }
}
