/** The first-match summary of one chain, and its soundness for literal host rules. */
module LinuxPolicy {
  import opened Bytes
  import opened Nftables
  import OpenWrtRules

  /** What one rule says, as far as it is understood. */
  datatype Facts = Facts(source: string, destination: string, guardInterface: string, mark: Option<nat>,
                         deny: bool, accept: bool, known: bool, selectors: set<string>)

  const NO_FACTS := Facts("", "", "", None, false, false, true, {})

  function Note1(f: Facts, e: Expr): Facts {
    match e
    case Match(op, left, right) => Match1(f, op, left, right)
    case Mangle(key, value) => if key != "mark" || value.None? then f.(known := false) else f.(mark := value)
    case Verdict(kind) =>
      if kind == "drop" || kind == "reject" then f.(deny := true)
      else if kind == "accept" then f.(accept := true)
      else f.(known := false)
    case Note(kind) => if kind == "counter" then f else f.(known := false)
    case Jump(_) => f.(known := false)
    case Other => f.(known := false)
  }

  function Match1(f: Facts, op: string, left: Left, right: string): Facts {
    if op == "!=" && left == Meta("oifname") && OpenWrtRules.NativeName(right) then
      f.(known := f.known && f.guardInterface == "", guardInterface := right)
    else if op != "==" || left.Meta? || (left.protocol != "ip" && left.protocol != "ip6") then f.(known := false)
    else Address1(f, left.field, right)
  }

  function Address1(f: Facts, field: string, right: string): Facts {
    var g := f.(known := f.known && field !in f.selectors, selectors := f.selectors + {field});
    if field == "saddr" then g.(source := right)
    else if field == "daddr" then g.(destination := right)
    else g.(known := false)
  }

  function FactsOf(f: Facts, rule: seq<Expr>): Facts
    decreases |rule|
  {
    if rule == [] then f else FactsOf(Note1(f, rule[0]), rule[1..])
  }

  /**
   The summary by source. passed is history the code does not keep: per source, the interfaces of all guards met
   before a final verdict.
   */
  datatype Policy = Policy(supported: bool, denied: set<string>, forwarded: set<string>, guards: map<string, string>,
                           marks: map<string, nat>, terminated: set<string>, passed: map<string, set<string>>)

  const EMPTY := Policy(true, {}, {}, map[], map[], {}, map[])

  function Passed(p: Policy, s: string): set<string> {
    if s in p.passed then p.passed[s] else {}
  }

  function Apply(p: Policy, f: Facts, target: string): Policy {
    if !f.known then p.(supported := false)
    else if f.destination == "" && (f.deny || f.accept || f.mark.Some?) then p.(supported := false)
    else if f.destination != target then p
    else if f.source == "" then p.(supported := false)
    else if f.source in p.terminated then p
    else if (f.deny && f.accept) || (f.guardInterface != "" && (!f.deny || f.mark.Some?)) then p.(supported := false)
    else
      var s := f.source;
      var p1 := if f.deny && f.guardInterface != "" then
                  p.(guards := p.guards[s := f.guardInterface],
                     passed := p.passed[s := Passed(p, s) + {f.guardInterface}])
                else if f.deny then p.(denied := p.denied + {s}, terminated := p.terminated + {s})
                else p;
      var p2 := if f.accept then p1.(forwarded := p1.forwarded + {s}, terminated := p1.terminated + {s}) else p1;
      if f.mark.Some? then p2.(marks := p2.marks[s := f.mark.value]) else p2
  }

  function Summary(p: Policy, rules: seq<seq<Expr>>, target: string): Policy {
    if rules == [] then p
    else Apply(Summary(p, rules[..|rules| - 1], target), FactsOf(NO_FACTS, rules[|rules| - 1]), target)
  }

  /** The summariser: maps and flags updated rule by rule. */
  method NormalizeNft(rules: seq<seq<Expr>>, target: string, hasChain: bool) returns (p: Policy)
    ensures p == Summary(EMPTY, rules, target).(
                   supported := Summary(EMPTY, rules, target).supported && hasChain, passed := map[])
  {
    var supported, denied, forwarded, terminated: set<string> := true, {}, {}, {};
    var guards: map<string, string>, marks: map<string, nat> := map[], map[];
    ghost var passed: map<string, set<string>> := map[];
    var n := 0;
    while n < |rules|
      invariant 0 <= n <= |rules|
      invariant Policy(supported, denied, forwarded, guards, marks, terminated, passed) ==
                Summary(EMPTY, rules[..n], target)
    {
      var rule := rules[n];
      assert rules[..n + 1][..n] == rules[..n] && rules[..n + 1][n] == rule;
      n := n + 1;
      var f := NO_FACTS;
      var k := 0;
      while k < |rule|
        invariant 0 <= k <= |rule| && FactsOf(NO_FACTS, rule) == FactsOf(f, rule[k..])
      {
        assert rule[k..][0] == rule[k] && rule[k..][1..] == rule[k + 1..];
        f := Note1(f, rule[k]);
        k := k + 1;
      }
      assert rule[k..] == [];
      if !f.known {
        supported := false;
        continue;
      }
      if f.destination == "" && (f.deny || f.accept || f.mark.Some?) {
        supported := false;
        continue;
      }
      if f.destination != target {
        continue;
      }
      var s := f.source;
      if s == "" {
        supported := false;
        continue;
      }
      if s in terminated {
        continue;
      }
      if (f.deny && f.accept) || (f.guardInterface != "" && (!f.deny || f.mark.Some?)) {
        supported := false;
        continue;
      }
      if f.deny {
        if f.guardInterface != "" {
          guards := guards[s := f.guardInterface];
          passed := passed[s := (if s in passed then passed[s] else {}) + {f.guardInterface}];
        } else {
          denied := denied + {s};
          terminated := terminated + {s};
        }
      }
      if f.accept {
        terminated := terminated + {s};
        forwarded := forwarded + {s};
      }
      if f.mark.Some? {
        marks := marks[s := f.mark.value];
      }
    }
    assert rules[..n] == rules;
    p := Policy(supported && hasChain, denied, forwarded, guards, marks, terminated, map[]);
  }

  // ----- soundness

  /** A match on the output interface, or on an IPv4 address or prefix. */
  predicate PlainMatch(lib: Library, e: Expr) {
    e.Match? ==>
      || e.left == Meta("oifname")
      || (&& e.left.Payload? && e.left.protocol == "ip" && e.right != ""
          && (lib.address(e.right).Some? || lib.prefix(e.right).Some?))
  }

  /** The operand is a prefix that holds the packet's address. */
  predicate Covers(lib: Library, e: Expr, p: Packet) {
    && e.Match? && e.left in {Payload("ip", "saddr"), Payload("ip", "daddr")} && lib.prefix(e.right).Some?
    && lib.prefix(e.right).value.1 <= 32
    && InPrefix(lib.prefix(e.right).value.0, lib.prefix(e.right).value.1, AddressOf(e.left, p))
  }

  function AddressOf(left: Left, p: Packet): Ip {
    if left == Payload("ip", "saddr") then p.src else p.dst
  }

  /** For this packet as good as literal: prefixes are allowed when they do not hold its addresses. */
  predicate LiteralMatch(lib: Library, e: Expr, p: Packet) {
    PlainMatch(lib, e) && !Covers(lib, e, p)
  }

  /** Matches come first, and nothing follows a verdict. */
  predicate MatchThenVerdict(rule: seq<Expr>) {
    && (forall i, j :: 0 <= i < j < |rule| && rule[j].Match? ==> rule[i].Match? || rule[i].Note?)
    && (forall i :: 0 <= i < |rule| - 1 ==> !rule[i].Verdict?)
  }

  predicate LiteralRule(lib: Library, rule: seq<Expr>, p: Packet) {
    MatchThenVerdict(rule) && forall i :: 0 <= i < |rule| ==> LiteralMatch(lib, rule[i], p)
  }

  /** The packet meets the selectors found so far. */
  predicate Hits(lib: Library, f: Facts, p: Packet) {
    && (f.source == "" || lib.text(p.src) == f.source) && (f.destination == "" || lib.text(p.dst) == f.destination)
    && (f.guardInterface == "" || p.oif != f.guardInterface)
  }

  function Outcome(f: Facts, mark: nat): Effect {
    var m := if f.mark.Some? then f.mark.value else mark;
    if f.deny then Decide(Dropped, m) else if f.accept then Decide(Accepted, m) else Continue(m)
  }

  predicate FreshFacts(f: Facts) {
    ("saddr" !in f.selectors ==> f.source == "") && ("daddr" !in f.selectors ==> f.destination == "")
  }

  /** What was understood so far stays. */
  predicate Keeps(f: Facts, g: Facts) {
    && f.known && f.selectors <= g.selectors && (f.deny ==> g.deny) && (f.accept ==> g.accept)
    && ("saddr" in f.selectors ==> g.source == f.source)
    && ("daddr" in f.selectors ==> g.destination == f.destination)
    && (f.guardInterface != "" ==> g.guardInterface == f.guardInterface)
  }

  lemma NoteKeeps(f: Facts, e: Expr)
    requires Note1(f, e).known
    ensures Keeps(f, Note1(f, e))
  {
  }

  lemma {:induction false} FactsKeep(f: Facts, rule: seq<Expr>)
    requires FactsOf(f, rule).known
    ensures Keeps(f, FactsOf(f, rule))
    decreases |rule|
  {
    if rule != [] {
      FactsKeep(Note1(f, rule[0]), rule[1..]);
      NoteKeeps(f, rule[0]);
    }
  }

  lemma StaysFresh(f: Facts, e: Expr)
    requires e.Match? && Note1(f, e).known && FreshFacts(f)
    ensures FreshFacts(Note1(f, e))
  {
  }

  lemma OneMatch(w: World, f: Facts, e: Expr, p: Packet)
    requires Lawful(w.lib) && e.Match? && LiteralMatch(w.lib, e, p) && Note1(f, e).known && FreshFacts(f)
             && Hits(w.lib, f, p)
    ensures Test(w, e, p) <==> Hits(w.lib, Note1(f, e), p)
    ensures FreshFacts(Note1(f, e))
  {
    StaysFresh(f, e);
    if e.left.Payload? {
      AddressNoted(w.lib, f, e, p);
      AddressHit(w, e, p);
    } else {
      InterfaceHit(w, f, e, p);
    }
  }

  lemma AddressNoted(lib: Library, f: Facts, e: Expr, p: Packet)
    requires e.Match? && e.left.Payload? && e.right != "" && Note1(f, e).known && FreshFacts(f) && Hits(lib, f, p)
    requires e.left.protocol == "ip"
    ensures e.op == "==" && e.left in {Payload("ip", "saddr"), Payload("ip", "daddr")}
    ensures Hits(lib, Note1(f, e), p) <==> lib.text(AddressOf(e.left, p)) == e.right
  {
    assert Note1(f, e) == Address1(f, e.left.field, e.right);
    assert e.left.field == "saddr" || e.left.field == "daddr";
  }

  lemma InterfaceHit(w: World, f: Facts, e: Expr, p: Packet)
    requires e.Match? && e.left.Meta? && Note1(f, e).known && Hits(w.lib, f, p)
    ensures Test(w, e, p) <==> Hits(w.lib, Note1(f, e), p)
  {
    assert e.left == Meta("oifname") && e.op == "!=" && OpenWrtRules.NativeName(e.right);
    assert NameTest(e.right, p.oif) <==> p.oif == e.right;
  }

  /** An operand that is as good as literal holds exactly for the host it names. */
  lemma AddressHit(w: World, e: Expr, p: Packet)
    requires Lawful(w.lib) && e.Match? && e.op == "==" && LiteralMatch(w.lib, e, p)
    requires e.left in {Payload("ip", "saddr"), Payload("ip", "daddr")}
    ensures Test(w, e, p) <==> w.lib.text(AddressOf(e.left, p)) == e.right
  {
    var a := AddressOf(e.left, p);
    assert w.lib.address(w.lib.text(a)) == Some(a);
    assert Test(w, e, p) <==> AddressTest(w, e, e.right, a, p);
  }

  predicate Idle(f: Facts) {
    f.mark.None? && !f.deny && !f.accept
  }

  /** Once the matches are over, the rest of the rule acts. */
  lemma {:induction false} ActionMeaning(w: World, f: Facts, rule: seq<Expr>, p: Packet, mark: nat)
    requires FactsOf(f, rule).known && MatchThenVerdict(rule) && !f.deny && !f.accept
    requires forall i :: 0 <= i < |rule| ==> !rule[i].Match?
    ensures var g := FactsOf(f, rule);
            && Evaluate(w, rule, p, if f.mark.Some? then f.mark.value else mark) == Outcome(g, mark)
            && g.source == f.source && g.destination == f.destination && g.guardInterface == f.guardInterface
            && !(g.deny && g.accept)
    decreases |rule|
  {
    if rule != [] {
      var next := Note1(f, rule[0]);
      FactsKeep(next, rule[1..]);
      Tails(rule);
      if rule[0].Verdict? {
        assert rule[1..] == [];
      } else {
        ActionMeaning(w, next, rule[1..], p, mark);
      }
    }
  }

  lemma Tails(rule: seq<Expr>)
    requires rule != [] && MatchThenVerdict(rule)
    ensures MatchThenVerdict(rule[1..]) && (rule[0].Verdict? ==> |rule| == 1)
    ensures !rule[0].Match? && !rule[0].Note? ==> forall i :: 0 <= i < |rule| ==> !rule[i].Match?
    ensures forall i :: 0 <= i < |rule[1..]| ==> rule[1..][i] == rule[i + 1]
  {
    forall i, j | 0 <= i < j < |rule[1..]| && rule[1..][j].Match?
      ensures rule[1..][i].Match? || rule[1..][i].Note?
    {
      assert rule[i + 1].Match? || rule[i + 1].Note?;
    }
  }

  lemma IdleMatch(f: Facts, e: Expr)
    requires e.Match?
    ensures var g := Note1(f, e); g.mark == f.mark && g.deny == f.deny && g.accept == f.accept
  {
  }

  /** A selector that does not hold never does again. */
  lemma MissStays(lib: Library, f: Facts, e: Expr, g: Facts, p: Packet)
    requires e.Match? && Hits(lib, f, p) && !Hits(lib, Note1(f, e), p) && Keeps(Note1(f, e), g)
    ensures !Hits(lib, g, p)
  {
  }

  /** A literal rule that is understood: all selectors hold and it acts, or nothing happens. */
  lemma {:induction false} FactsMeaning(w: World, f: Facts, rule: seq<Expr>, p: Packet, mark: nat)
    requires Lawful(w.lib) && LiteralRule(w.lib, rule, p) && FactsOf(f, rule).known
    requires FreshFacts(f) && Idle(f) && Hits(w.lib, f, p)
    ensures var g := FactsOf(f, rule);
            && Evaluate(w, rule, p, mark) == (if Hits(w.lib, g, p) then Outcome(g, mark) else Continue(mark))
            && !(g.deny && g.accept)
    decreases |rule|
  {
    if rule != [] {
      var e, next := rule[0], Note1(f, rule[0]);
      FactsKeep(next, rule[1..]);
      LiteralTail(w.lib, rule, p);
      if e.Match? {
        OneMatch(w, f, e, p);
        IdleMatch(f, e);
        if Hits(w.lib, next, p) {
          FactsMeaning(w, next, rule[1..], p, mark);
        } else {
          MissStays(w.lib, f, e, FactsOf(next, rule[1..]), p);
          NeverBoth(next, rule[1..]);
        }
      } else if e.Note? {
        FactsMeaning(w, next, rule[1..], p, mark);
      } else {
        Tails(rule);
        ActionMeaning(w, f, rule, p, mark);
      }
    }
  }

  lemma LiteralTail(lib: Library, rule: seq<Expr>, p: Packet)
    requires rule != [] && LiteralRule(lib, rule, p)
    ensures LiteralMatch(lib, rule[0], p) && LiteralRule(lib, rule[1..], p) && MatchThenVerdict(rule[1..])
  {
    Tails(rule);
    forall i | 0 <= i < |rule[1..]|
      ensures LiteralMatch(lib, rule[1..][i], p)
    {
      assert LiteralMatch(lib, rule[i + 1], p);
    }
  }

  lemma {:induction false} NeverBoth(f: Facts, rule: seq<Expr>)
    requires MatchThenVerdict(rule) && !f.deny && !f.accept
    ensures !(FactsOf(f, rule).deny && FactsOf(f, rule).accept)
    decreases |rule|
  {
    if rule != [] {
      Tails(rule);
      if !rule[0].Verdict? {
        NeverBoth(Note1(f, rule[0]), rule[1..]);
      } else {
        assert rule[1..] == [];
      }
    }
  }

  predicate LeavesBy(interfaces: set<string>, oif: string) {
    forall i :: i in interfaces ==> oif == i
  }

  /** First-match evaluation of the rules, without calls. */
  function FirstMatch(w: World, rules: seq<seq<Expr>>, p: Packet, mark: nat): (Flow, nat) {
    if rules == [] then (Returned, mark)
    else
      var (flow, m) := FirstMatch(w, rules[..|rules| - 1], p, mark);
      if flow != Returned then (flow, m)
      else
        match Evaluate(w, rules[|rules| - 1], p, m)
        case Continue(n) => (Returned, n)
        case Decide(decided, n) => (decided, n)
        case Call(_, n) => (Returned, n)
  }

  /**
   What the summary says of one source. A packet to the target that leaves by another interface than some guard's is
   dropped; any other is dropped when denied, accepted when forwarded, and otherwise falls through. Its mark is the
   summary's.
   */
  ghost predicate True(s: Policy, src: string, oif: string, mark: nat, got: (Flow, nat)) {
    && (src in s.terminated <==> src in s.denied || src in s.forwarded)
    && !(src in s.denied && src in s.forwarded)
    && (src in s.guards ==> s.guards[src] in Passed(s, src)) && (Passed(s, src) != {} ==> src in s.guards)
    && (if !LeavesBy(Passed(s, src), oif) then got.0 == Dropped
        else && got.0 == (if src in s.denied then Dropped else if src in s.forwarded then Accepted else Returned)
             && got.1 == if src in s.marks then s.marks[src] else mark)
  }

  lemma {:induction false} SummaryTrue(w: World, rules: seq<seq<Expr>>, p: Packet, target: string, mark: nat)
    requires Lawful(w.lib) && target == w.lib.text(p.dst) && target != "" && w.lib.text(p.src) != ""
    requires forall i :: 0 <= i < |rules| ==> LiteralRule(w.lib, rules[i], p)
    requires Summary(EMPTY, rules, target).supported
    ensures True(Summary(EMPTY, rules, target), w.lib.text(p.src), p.oif, mark, FirstMatch(w, rules, p, mark))
  {
    if rules != [] {
      var front, rule := rules[..|rules| - 1], rules[|rules| - 1];
      SummaryTrue(w, front, p, target, mark);
      var got := FirstMatch(w, front, p, mark);
      FactsMeaning(w, NO_FACTS, rule, p, got.1);
      var f := FactsOf(NO_FACTS, rule);
      ApplyTrue(Summary(EMPTY, front, target), f, target, w.lib.text(p.src), p.oif, mark, got,
                if Hits(w.lib, f, p) then Outcome(f, got.1) else Continue(got.1));
    }
  }

  function Combine(got: (Flow, nat), effect: Effect): (Flow, nat) {
    if got.0 != Returned then got
    else
      match effect
      case Continue(n) => (Returned, n)
      case Decide(decided, n) => (decided, n)
      case Call(_, n) => (Returned, n)
  }

  /** One rule: it concerns another source, or this one. */
  lemma ApplyTrue(s: Policy, f: Facts, target: string, src: string, oif: string, mark: nat, got: (Flow, nat),
                  effect: Effect)
    requires True(s, src, oif, mark, got) && target != "" && src != ""
    requires Apply(s, f, target).supported && !(f.deny && f.accept)
    requires effect == if (f.source == "" || src == f.source) && (f.destination == "" || target == f.destination)
                          && (f.guardInterface == "" || oif != f.guardInterface)
                       then Outcome(f, got.1) else Continue(got.1)
    ensures True(Apply(s, f, target), src, oif, mark, Combine(got, effect))
  {
    if f.destination == target && f.source == src && src !in s.terminated {
      OwnRule(s, f, target, src, oif, mark, got);
    } else {
      OtherRule(s, f, target, src, oif, mark, got);
    }
  }

  lemma OtherRule(s: Policy, f: Facts, target: string, src: string, oif: string, mark: nat, got: (Flow, nat))
    requires True(s, src, oif, mark, got) && target != "" && src != "" && Apply(s, f, target).supported
    requires !(f.destination == target && f.source == src && src !in s.terminated)
    ensures True(Apply(s, f, target), src, oif, mark, got)
    ensures f.destination == "" ==> !f.deny && !f.accept && f.mark.None?
    ensures f.destination == target ==> f.source != ""
  {
    var t := Apply(s, f, target);
    assert Passed(t, src) == Passed(s, src);
    assert src in t.guards <==> src in s.guards;
    assert src in t.marks <==> src in s.marks;
  }

  lemma OwnRule(s: Policy, f: Facts, target: string, src: string, oif: string, mark: nat, got: (Flow, nat))
    requires True(s, src, oif, mark, got) && target != "" && src != "" && Apply(s, f, target).supported
    requires f.destination == target && f.source == src && src !in s.terminated && !(f.deny && f.accept)
    ensures True(Apply(s, f, target), src, oif, mark,
                 Combine(got, if f.guardInterface == "" || oif != f.guardInterface then Outcome(f, got.1)
                              else Continue(got.1)))
  {
    var t := Apply(s, f, target);
    if f.deny && f.guardInterface != "" {
      assert Passed(t, src) == Passed(s, src) + {f.guardInterface};
      assert f.guardInterface in Passed(t, src);
    } else {
      assert Passed(t, src) == Passed(s, src);
    }
  }

  /** The three readings of the summary that are used as facts. */
  lemma SummaryMeans(w: World, rules: seq<seq<Expr>>, p: Packet, target: string, mark: nat)
    requires Lawful(w.lib) && target == w.lib.text(p.dst) && target != "" && w.lib.text(p.src) != ""
    requires forall i :: 0 <= i < |rules| ==> LiteralRule(w.lib, rules[i], p)
    requires Summary(EMPTY, rules, target).supported
    ensures var s, src, flow := Summary(EMPTY, rules, target), w.lib.text(p.src), FirstMatch(w, rules, p, mark).0;
            && (src in s.denied ==> flow == Dropped)
            && (src in s.guards && p.oif != s.guards[src] ==> flow == Dropped)
            && (src in s.forwarded ==> flow == if LeavesBy(Passed(s, src), p.oif) then Accepted else Dropped)
  {
    SummaryTrue(w, rules, p, target, mark);
  }

  /** With prefixes the summary misleads: an earlier accept of a prefix is not seen by a host inside it. */
  lemma PrefixMisleads(w: World, p: Packet, prefix: string, target: string, mark: nat)
    requires Lawful(w.lib) && target == w.lib.text(p.dst) && target != "" && w.lib.text(p.src) != "" && prefix != ""
    requires w.lib.prefix(prefix).Some? && InPrefix(w.lib.prefix(prefix).value.0, w.lib.prefix(prefix).value.1, p.src)
    ensures var src := w.lib.text(p.src);
            var to := Match("==", Payload("ip", "daddr"), target);
            var rules := [[Match("==", Payload("ip", "saddr"), prefix), to, Verdict("accept")],
                          [Match("==", Payload("ip", "saddr"), src), to, Verdict("drop")]];
            var s := Summary(EMPTY, rules, target);
            s.supported && src in s.denied && FirstMatch(w, rules, p, mark) == (Accepted, mark)
  {
    var src := w.lib.text(p.src);
    var to := Match("==", Payload("ip", "daddr"), target);
    var wide, host := Match("==", Payload("ip", "saddr"), prefix), Match("==", Payload("ip", "saddr"), src);
    var first, second := [wide, to, Verdict("accept")], [host, to, Verdict("drop")];
    var rules := [first, second];
    assert w.lib.address(src) == Some(p.src) && w.lib.address(target) == Some(p.dst);
    ThreeFacts(wide, to, Verdict("accept"));
    ThreeFacts(host, to, Verdict("drop"));
    assert rules[..1] == [first];
    assert Summary(EMPTY, [first], target) == Apply(EMPTY, FactsOf(NO_FACTS, first), target);
    assert first[1..] == [to, Verdict("accept")] && [to, Verdict("accept")][1..] == [Verdict("accept")];
    assert Evaluate(w, first, p, mark) == Evaluate(w, first[1..], p, mark) == Decide(Accepted, mark);
    assert FirstMatch(w, [first], p, mark) == (Accepted, mark);
  }

  // ----- rules that are understood

  /** What a rule for one host and the target does. */
  datatype Act = Deny(kind: string) | Allow | Tag(n: nat) | Guarded(oif: string)

  predicate Sensible(a: Act) {
    match a
    case Deny(kind) => kind == "drop" || kind == "reject"
    case Guarded(oif) => OpenWrtRules.NativeName(oif)
    case _ => true
  }

  function ActExprs(a: Act): seq<Expr> {
    match a
    case Deny(kind) => [Note("counter"), Verdict(kind)]
    case Allow => [Note("counter"), Verdict("accept")]
    case Tag(n) => [Note("counter"), Mangle("mark", Some(n))]
    case Guarded(oif) => [Match("!=", Meta("oifname"), oif), Verdict("drop")]
  }

  function HostRule(source: string, target: string, a: Act): seq<Expr> {
    [Match("==", Payload("ip", "saddr"), source), Match("==", Payload("ip", "daddr"), target)] + ActExprs(a)
  }

  function ActFacts(f: Facts, a: Act): Facts {
    match a
    case Deny(_) => f.(deny := true)
    case Allow => f.(accept := true)
    case Tag(n) => f.(mark := Some(n))
    case Guarded(oif) => f.(deny := true, guardInterface := oif)
  }

  lemma HostFacts(source: string, target: string, a: Act)
    requires Sensible(a)
    ensures FactsOf(NO_FACTS, HostRule(source, target, a)) ==
            ActFacts(Facts(source, target, "", None, false, false, true, {"saddr", "daddr"}), a)
  {
    var r, e := HostRule(source, target, a), ActExprs(a);
    var f := Note1(Note1(NO_FACTS, r[0]), r[1]);
    assert f == Facts(source, target, "", None, false, false, true, {"saddr", "daddr"});
    assert r[1..][1..] == e && e[1..][1..] == [];
    assert FactsOf(NO_FACTS, r) == FactsOf(Note1(NO_FACTS, r[0]), r[1..]) == FactsOf(f, e);
    assert FactsOf(f, e) == FactsOf(Note1(f, e[0]), e[1..]) == FactsOf(Note1(Note1(f, e[0]), e[1]), []);
  }

  function HostRules(acts: seq<(string, Act)>, target: string): seq<seq<Expr>> {
    seq(|acts|, i requires 0 <= i < |acts| => HostRule(acts[i].0, target, acts[i].1))
  }

  /** Rules of this form, whatever their order, are always summarised. */
  lemma {:induction false} HostRulesSupported(acts: seq<(string, Act)>, target: string)
    requires target != "" && forall i :: 0 <= i < |acts| ==> acts[i].0 != "" && Sensible(acts[i].1)
    ensures Summary(EMPTY, HostRules(acts, target), target).supported
  {
    if acts != [] {
      var n, rules := |acts| - 1, HostRules(acts, target);
      assert rules[..n] == HostRules(acts[..n], target);
      HostRulesSupported(acts[..n], target);
      HostFacts(acts[n].0, target, acts[n].1);
    }
  }

  lemma ThreeFacts(a: Expr, b: Expr, c: Expr)
    ensures FactsOf(NO_FACTS, [a, b, c]) == Note1(Note1(Note1(NO_FACTS, a), b), c)
  {
    assert [a, b, c][1..] == [b, c] && [b, c][1..] == [c] && [c][1..] == [];
    var f := Note1(NO_FACTS, a);
    assert FactsOf(NO_FACTS, [a, b, c]) == FactsOf(f, [b, c]);
    assert FactsOf(f, [b, c]) == FactsOf(Note1(f, b), [c]);
    assert FactsOf(Note1(f, b), [c]) == FactsOf(Note1(Note1(f, b), c), []);
  }
}
