/** The summary in the presence of prefixes: when what it says of one source is true. */
module LinuxPrefix {
  import opened Bytes
  import opened Nftables
  import opened LinuxPolicy

  /** A rule over addresses and prefixes: matches first, then a verdict. */
  predicate PlainRule(lib: Library, rule: seq<Expr>) {
    MatchThenVerdict(rule) && forall i :: 0 <= i < |rule| ==> PlainMatch(lib, rule[i]) && Equality(rule[i])
  }

  predicate Equality(e: Expr) {
    e.Match? && e.left.Payload? ==> e.op == "=="
  }

  /** A prefix that does not hold the packet's address. */
  predicate Misses(lib: Library, e: Expr, p: Packet) {
    && e.Match? && e.left in {Payload("ip", "saddr"), Payload("ip", "daddr")} && lib.prefix(e.right).Some?
    && !Covers(lib, e, p)
  }

  /** A prefix that holds the packet's address, narrowed to that address. */
  function Narrow(lib: Library, e: Expr, p: Packet): Expr {
    if Covers(lib, e, p) then e.(right := lib.text(AddressOf(e.left, p))) else e
  }

  function Narrowed(lib: Library, rule: seq<Expr>, p: Packet): (r: seq<Expr>)
    ensures |r| == |rule| && forall i :: 0 <= i < |r| ==> r[i] == Narrow(lib, rule[i], p)
  {
    if rule == [] then [] else [Narrow(lib, rule[0], p)] + Narrowed(lib, rule[1..], p)
  }

  /** The rule as it concerns one packet: nothing is left of a rule with a prefix that does not hold its addresses. */
  function Special(lib: Library, rule: seq<Expr>, p: Packet): seq<Expr> {
    if exists i :: 0 <= i < |rule| && Misses(lib, rule[i], p) then [] else Narrowed(lib, rule, p)
  }

  function Specials(lib: Library, rules: seq<seq<Expr>>, p: Packet): (r: seq<seq<Expr>>)
    ensures |r| == |rules|
  {
    if rules == [] then []
    else Specials(lib, rules[..|rules| - 1], p) + [Special(lib, rules[|rules| - 1], p)]
  }

  lemma NarrowTests(w: World, e: Expr, p: Packet)
    requires Lawful(w.lib) && e.Match? && PlainMatch(w.lib, e) && Equality(e)
    ensures Test(w, Narrow(w.lib, e, p), p) == Test(w, e, p)
    ensures LiteralMatch(w.lib, Narrow(w.lib, e, p), p) || w.lib.text(AddressOf(e.left, p)) == ""
    ensures Misses(w.lib, e, p) ==> !Test(w, e, p)
  {
    var a := AddressOf(e.left, p);
    assert w.lib.address(w.lib.text(a)) == Some(a);
    if e.left in {Payload("ip", "saddr"), Payload("ip", "daddr")} {
      assert Test(w, e, p) == AddressTest(w, e, e.right, a, p);
    }
  }

  lemma {:induction false} NarrowedActs(w: World, rule: seq<Expr>, p: Packet, mark: nat)
    requires Lawful(w.lib) && forall i :: 0 <= i < |rule| ==> PlainMatch(w.lib, rule[i]) && Equality(rule[i])
    ensures Evaluate(w, Narrowed(w.lib, rule, p), p, mark) == Evaluate(w, rule, p, mark)
    decreases |rule|
  {
    if rule != [] {
      var e, rest := rule[0], rule[1..];
      assert Narrowed(w.lib, rule, p)[1..] == Narrowed(w.lib, rest, p);
      match e {
        case Match(_, _, _) =>
          NarrowTests(w, e, p);
          NarrowedActs(w, rest, p, mark);
        case Mangle(key, value) =>
          NarrowedActs(w, rest, p, if key == "mark" && value.Some? then value.value else mark);
        case _ => NarrowedActs(w, rest, p, mark);
      }
    }
  }

  lemma {:induction false} MissedIdles(w: World, rule: seq<Expr>, i: nat, p: Packet, mark: nat)
    requires Lawful(w.lib) && PlainRule(w.lib, rule) && i < |rule| && Misses(w.lib, rule[i], p)
    ensures Evaluate(w, rule, p, mark) == Continue(mark)
    decreases |rule|
  {
    if i == 0 {
      NarrowTests(w, rule[0], p);
    } else {
      assert rule[0].Match? || rule[0].Note?;
      Tails(rule);
      assert rule[1..][i - 1] == rule[i];
      MissedIdles(w, rule[1..], i - 1, p, mark);
    }
  }

  lemma SpecialActs(w: World, rule: seq<Expr>, p: Packet, mark: nat)
    requires Lawful(w.lib) && PlainRule(w.lib, rule)
    ensures Evaluate(w, Special(w.lib, rule, p), p, mark) == Evaluate(w, rule, p, mark)
  {
    if i :| 0 <= i < |rule| && Misses(w.lib, rule[i], p) {
      MissedIdles(w, rule, i, p, mark);
    } else {
      NarrowedActs(w, rule, p, mark);
    }
  }

  lemma SpecialIsLiteral(w: World, rule: seq<Expr>, p: Packet)
    requires Lawful(w.lib) && PlainRule(w.lib, rule) && w.lib.text(p.src) != "" && w.lib.text(p.dst) != ""
    ensures LiteralRule(w.lib, Special(w.lib, rule, p), p)
  {
    var r := Narrowed(w.lib, rule, p);
    forall i | 0 <= i < |rule|
      ensures LiteralMatch(w.lib, r[i], p)
    {
      if rule[i].Match? {
        NarrowTests(w, rule[i], p);
      }
    }
    assert forall i :: 0 <= i < |r| ==>
      (r[i].Match? <==> rule[i].Match?) && (r[i].Note? <==> rule[i].Note?) && (r[i].Verdict? <==> rule[i].Verdict?);
  }

  /** Narrowing the rules to one packet changes nothing for it. */
  lemma {:induction false} SpecialsMatch(w: World, rules: seq<seq<Expr>>, p: Packet, mark: nat)
    requires Lawful(w.lib) && w.lib.text(p.src) != "" && w.lib.text(p.dst) != ""
    requires forall i :: 0 <= i < |rules| ==> PlainRule(w.lib, rules[i])
    ensures FirstMatch(w, Specials(w.lib, rules, p), p, mark) == FirstMatch(w, rules, p, mark)
    ensures forall i :: 0 <= i < |rules| ==> LiteralRule(w.lib, Specials(w.lib, rules, p)[i], p)
  {
    if rules != [] {
      var n := |rules| - 1;
      var all := Specials(w.lib, rules, p);
      SpecialsMatch(w, rules[..n], p, mark);
      SpecialActs(w, rules[n], p, FirstMatch(w, rules[..n], p, mark).1);
      SpecialIsLiteral(w, rules[n], p);
      assert all[..n] == Specials(w.lib, rules[..n], p) && all[n] == Special(w.lib, rules[n], p);
    }
  }

  // ----- the summary a packet's own rules have

  /** What a narrowed rule says of one packet: about its source and target alone, or nothing. */
  function Resolved(lib: Library, rule: seq<Expr>, p: Packet): Facts {
    var f := FactsOf(NO_FACTS, Special(lib, rule, p));
    if Hits(lib, f, p) then f.(source := lib.text(p.src), destination := lib.text(p.dst), guardInterface := "")
    else NO_FACTS
  }

  /** The summariser over rules resolved to one packet. */
  function ForPacket(lib: Library, rules: seq<seq<Expr>>, p: Packet, target: string): Policy {
    if rules == [] then EMPTY
    else
      var n := |rules| - 1;
      Apply(ForPacket(lib, rules[..n], p, target), Resolved(lib, rules[n], p), target)
  }

  /** Narrowing changes operands only. */
  lemma {:induction false} NarrowedKnown(lib: Library, f: Facts, g: Facts, rule: seq<Expr>, p: Packet)
    requires f == g.(source := f.source, destination := f.destination)
    ensures FactsOf(f, Narrowed(lib, rule, p)).known == FactsOf(g, rule).known
    decreases |rule|
  {
    if rule != [] {
      var e := Narrow(lib, rule[0], p);
      assert Narrowed(lib, rule, p)[1..] == Narrowed(lib, rule[1..], p);
      NarrowNotes(lib, f, g, rule[0], p);
      NarrowedKnown(lib, Note1(f, e), Note1(g, rule[0]), rule[1..], p);
    }
  }

  lemma NarrowNotes(lib: Library, f: Facts, g: Facts, e: Expr, p: Packet)
    requires f == g.(source := f.source, destination := f.destination)
    ensures var a, b := Note1(f, Narrow(lib, e, p)), Note1(g, e);
            a == b.(source := a.source, destination := a.destination)
  {
    if Covers(lib, e, p) {
      AddressNotes(f, g, e.op, e.left, Narrow(lib, e, p).right, e.right);
    } else {
      SameNotes(f, g, e);
    }
  }

  lemma AddressNotes(f: Facts, g: Facts, op: string, left: Left, x: string, y: string)
    requires f == g.(source := f.source, destination := f.destination)
    requires left in {Payload("ip", "saddr"), Payload("ip", "daddr")}
    ensures var a, b := Note1(f, Match(op, left, x)), Note1(g, Match(op, left, y));
            a == b.(source := a.source, destination := a.destination)
  {
    if op == "==" {
      assert Note1(f, Match(op, left, x)) == Address1(f, left.field, x);
      assert Note1(g, Match(op, left, y)) == Address1(g, left.field, y);
    }
  }

  lemma SameNotes(f: Facts, g: Facts, e: Expr)
    requires f == g.(source := f.source, destination := f.destination)
    ensures var a, b := Note1(f, e), Note1(g, e); a == b.(source := a.source, destination := a.destination)
  {
    if e.Match? {
      SameMatches(f, g, e.op, e.left, e.right);
    }
  }

  lemma SameMatches(f: Facts, g: Facts, op: string, left: Left, right: string)
    requires f == g.(source := f.source, destination := f.destination)
    ensures var a, b := Match1(f, op, left, right), Match1(g, op, left, right);
            a == b.(source := a.source, destination := a.destination)
  {
  }

  lemma ResolvedActs(w: World, rule: seq<Expr>, p: Packet, m: nat)
    requires Lawful(w.lib) && PlainRule(w.lib, rule) && FactsOf(NO_FACTS, rule).known
    requires w.lib.text(p.src) != "" && w.lib.text(p.dst) != ""
    ensures var f := Resolved(w.lib, rule, p);
            && Evaluate(w, rule, p, m) == Outcome(f, m) && f.known && !(f.deny && f.accept)
            && (f == NO_FACTS || OneHost(f, w.lib.text(p.src), w.lib.text(p.dst)))
  {
    var special := Special(w.lib, rule, p);
    NarrowedKnown(w.lib, NO_FACTS, NO_FACTS, rule, p);
    assert FactsOf(NO_FACTS, special).known;
    SpecialIsLiteral(w, rule, p);
    SpecialActs(w, rule, p, m);
    FactsMeaning(w, NO_FACTS, special, p, m);
  }

  predicate OneHost(f: Facts, src: string, target: string) {
    f.source == src && f.destination == target && f.guardInterface == ""
  }

  lemma ResolvedFits(s: Policy, f: Facts, src: string, target: string)
    requires s.supported && f.known && !(f.deny && f.accept) && src != "" && target != ""
    requires f == NO_FACTS || OneHost(f, src, target)
    ensures Apply(s, f, target).supported
  {
  }

  lemma AppliedWasSupported(s: Policy, f: Facts, target: string)
    requires Apply(s, f, target).supported
    ensures s.supported && f.known
  {
  }

  /**
   The summary of the rules resolved to a packet is true of first-match evaluation, and always understood when theirs
   is.
   */
  lemma {:induction false} ForPacketTrue(w: World, rules: seq<seq<Expr>>, p: Packet, target: string, mark: nat)
    requires Lawful(w.lib) && target == w.lib.text(p.dst) && target != "" && w.lib.text(p.src) != ""
    requires forall i :: 0 <= i < |rules| ==> PlainRule(w.lib, rules[i])
    requires Summary(EMPTY, rules, target).supported
    ensures var t := ForPacket(w.lib, rules, p, target);
            t.supported && True(t, w.lib.text(p.src), p.oif, mark, FirstMatch(w, rules, p, mark))
  {
    if rules != [] {
      var front, rule := rules[..|rules| - 1], rules[|rules| - 1];
      AppliedWasSupported(Summary(EMPTY, front, target), FactsOf(NO_FACTS, rule), target);
      ForPacketTrue(w, front, p, target, mark);
      var t, f, got := ForPacket(w.lib, front, p, target), Resolved(w.lib, rule, p), FirstMatch(w, front, p, mark);
      ResolvedActs(w, rule, p, got.1);
      ResolvedFits(t, f, w.lib.text(p.src), target);
      ApplyTrue(t, f, target, w.lib.text(p.src), p.oif, mark, got, Outcome(f, got.1));
    }
  }

  // ----- the summary of the rules as they are

  /** Nothing is left of a rule that reaches the packet through a prefix. */
  function Literal(lib: Library, rule: seq<Expr>, p: Packet): seq<Expr> {
    if exists i :: 0 <= i < |rule| && Covers(lib, rule[i], p) then [] else rule
  }

  function Literals(lib: Library, rules: seq<seq<Expr>>, p: Packet): seq<seq<Expr>> {
    if rules == [] then []
    else Literals(lib, rules[..|rules| - 1], p) + [Literal(lib, rules[|rules| - 1], p)]
  }

  /** An understood rule has the operand of each of its address matches. */
  lemma {:induction false} OperandKept(f: Facts, rule: seq<Expr>, i: nat)
    requires FactsOf(f, rule).known && i < |rule| && rule[i].Match? && rule[i].op == "=="
    requires rule[i].left in {Payload("ip", "saddr"), Payload("ip", "daddr")}
    ensures var g := FactsOf(f, rule);
            rule[i].right == if rule[i].left == Payload("ip", "saddr") then g.source else g.destination
    decreases |rule|
  {
    var next := Note1(f, rule[0]);
    FactsKeep(next, rule[1..]);
    if i > 0 {
      OperandKept(next, rule[1..], i - 1);
    } else {
      assert next == Address1(f, rule[0].left.field, rule[0].right);
    }
  }

  lemma HostIsNoPrefix(lib: Library, a: Ip)
    requires Lawful(lib)
    ensures lib.prefix(lib.text(a)).None?
  {
    assert lib.address(lib.text(a)) == Some(a);
  }

  lemma PrefixIsOther(lib: Library, rule: seq<Expr>, i: nat, p: Packet)
    requires Lawful(lib) && PlainRule(lib, rule) && FactsOf(NO_FACTS, rule).known && i < |rule|
             && Covers(lib, rule[i], p)
    ensures var f := FactsOf(NO_FACTS, rule); f.source != lib.text(p.src) || f.destination != lib.text(p.dst)
  {
    OperandKept(NO_FACTS, rule, i);
    HostIsNoPrefix(lib, p.src);
    HostIsNoPrefix(lib, p.dst);
  }

  /**
   What the summary says of a source is what first-match evaluation does without the rules that reach the packet through
   a prefix.
   */
  lemma {:induction false} PrefixesIgnored(w: World, rules: seq<seq<Expr>>, p: Packet, target: string, mark: nat)
    requires Lawful(w.lib) && target == w.lib.text(p.dst) && target != "" && w.lib.text(p.src) != ""
    requires forall i :: 0 <= i < |rules| ==> PlainRule(w.lib, rules[i])
    requires Summary(EMPTY, rules, target).supported
    ensures True(Summary(EMPTY, rules, target), w.lib.text(p.src), p.oif, mark,
                 FirstMatch(w, Literals(w.lib, rules, p), p, mark))
  {
    if rules != [] {
      var front, rule := rules[..|rules| - 1], rules[|rules| - 1];
      var s, f := Summary(EMPTY, front, target), FactsOf(NO_FACTS, rule);
      AppliedWasSupported(s, f, target);
      PrefixesIgnored(w, front, p, target, mark);
      var all := Literals(w.lib, rules, p);
      assert all[..|all| - 1] == Literals(w.lib, front, p);
      var got := FirstMatch(w, Literals(w.lib, front, p), p, mark);
      if i :| 0 <= i < |rule| && Covers(w.lib, rule[i], p) {
        PrefixIsOther(w.lib, rule, i, p);
        OtherRule(s, f, target, w.lib.text(p.src), p.oif, mark, got);
      } else {
        assert LiteralRule(w.lib, rule, p);
        FactsMeaning(w, NO_FACTS, rule, p, got.1);
        ApplyTrue(s, f, target, w.lib.text(p.src), p.oif, mark, got,
                  if Hits(w.lib, f, p) then Outcome(f, got.1) else Continue(got.1));
      }
    }
  }

  /** What a summary says of a source, for packets that leave by oif. */
  datatype Said = SaysDrop | SaysAccept | SaysNothing

  function SaidOf(s: Policy, src: string, oif: string): Said {
    if src in s.denied || !LeavesBy(Passed(s, src), oif) then SaysDrop
    else if src in s.forwarded then SaysAccept
    else SaysNothing
  }

  function FlowOf(said: Said): Flow {
    match said
    case SaysDrop => Dropped
    case SaysAccept => Accepted
    case SaysNothing => Returned
  }

  /**
   First-match evaluation does with a packet what the summary of the rules resolved to it says; the summary of the rules
   themselves says what evaluation without the rules that reach the packet through a prefix does. So it is right exactly
   when leaving those out changes nothing.
   */
  lemma PrefixExact(w: World, rules: seq<seq<Expr>>, p: Packet, target: string, mark: nat)
    requires Lawful(w.lib) && target == w.lib.text(p.dst) && target != "" && w.lib.text(p.src) != ""
    requires forall i :: 0 <= i < |rules| ==> PlainRule(w.lib, rules[i])
    requires Summary(EMPTY, rules, target).supported
    ensures var s, t, src := Summary(EMPTY, rules, target), ForPacket(w.lib, rules, p, target), w.lib.text(p.src);
            var flow, without := FirstMatch(w, rules, p, mark).0, FirstMatch(w, Literals(w.lib, rules, p), p, mark).0;
            && t.supported && flow == FlowOf(SaidOf(t, src, p.oif))
            && without == FlowOf(SaidOf(s, src, p.oif))
            && (FlowOf(SaidOf(s, src, p.oif)) == flow <==> without == flow)
  {
    ForPacketTrue(w, rules, p, target, mark);
    PrefixesIgnored(w, rules, p, target, mark);
  }

  /** A drop of a whole target prefix is skipped, and a later accept for a host inside it is reported. */
  lemma TargetPrefixMisleads(w: World, p: Packet, prefix: string, target: string, mark: nat)
    requires Lawful(w.lib) && target == w.lib.text(p.dst) && target != "" && w.lib.text(p.src) != "" && prefix != ""
    requires w.lib.prefix(prefix).Some? && InPrefix(w.lib.prefix(prefix).value.0, w.lib.prefix(prefix).value.1, p.dst)
    ensures var src := w.lib.text(p.src);
            var to := Match("==", Payload("ip", "daddr"), target);
            var rules := [[Match("==", Payload("ip", "daddr"), prefix), Verdict("drop")],
                          [Match("==", Payload("ip", "saddr"), src), to, Verdict("accept")]];
            var s := Summary(EMPTY, rules, target);
            && s.supported && src in s.forwarded && Passed(s, src) == {}
            && (forall i :: 0 <= i < |rules| ==> PlainRule(w.lib, rules[i]))
            && FirstMatch(w, rules, p, mark) == (Dropped, mark)
  {
    var src := w.lib.text(p.src);
    var wide, to := Match("==", Payload("ip", "daddr"), prefix), Match("==", Payload("ip", "daddr"), target);
    var host := Match("==", Payload("ip", "saddr"), src);
    var first, second := [wide, Verdict("drop")], [host, to, Verdict("accept")];
    var rules := [first, second];
    assert w.lib.address(src) == Some(p.src) && w.lib.address(target) == Some(p.dst);
    ThreeFacts(host, to, Verdict("accept"));
    assert first[1..] == [Verdict("drop")];
    assert FactsOf(NO_FACTS, first) == FactsOf(Note1(NO_FACTS, wide), [Verdict("drop")]);
    assert FactsOf(Note1(NO_FACTS, wide), [Verdict("drop")]) == Note1(Note1(NO_FACTS, wide), Verdict("drop"));
    assert rules[..1] == [first];
    assert Summary(EMPTY, [first], target) == Apply(EMPTY, FactsOf(NO_FACTS, first), target) == EMPTY;
    assert Evaluate(w, first, p, mark) == Evaluate(w, first[1..], p, mark) == Decide(Dropped, mark);
    assert FirstMatch(w, [first], p, mark) == (Dropped, mark);
  }
}
