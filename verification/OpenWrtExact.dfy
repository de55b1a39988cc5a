/**
 When the evidence is right: what is read of all base chains for the interface a packet leaves by is what the kernel
 does, and the evidence tells the same of every packet but those whose interface a jump or return names that was taken,
 or whose ingress a pattern covers. And inputs where it does not.
 */
module OpenWrtExact {
  import opened Bytes
  import opened Nftables
  import opened OpenWrtRules
  import opened OpenWrtWalk
  import opened OpenWrtSound
  import opened OpenWrtFollow
  import opened OpenWrtNormalize

  // ----- the kernel and the readings, over all base chains

  /** Classifier base chains one after the other, each with the mark the previous ones left. */
  function Prerouting(w: World, listed: Chains, roots: seq<Chain>, p: Packet, mark: nat): Option<(Flow, nat)> {
    if roots == [] then Some((Accepted, mark))
    else if roots[0].bound.role != Classifier then Prerouting(w, listed, roots[1..], p, mark)
    else
      match Kernel(w, listed, roots[0], p, mark)
      case None => None
      case Some((flow, end)) =>
        if flow == Dropped then Some((Dropped, end)) else Prerouting(w, listed, roots[1..], p, end)
  }

  function ReadClassifiers(ctx: Context, table: ChainTable, roots: seq<Chain>, oif: string, mark: nat): Reading {
    if roots == [] then Passes(mark)
    else if roots[0].bound.role != Classifier then ReadClassifiers(ctx, table, roots[1..], oif, mark)
    else
      match ReadChain(ctx, table, roots[0], oif, mark)
      case Passes(m) => ReadClassifiers(ctx, table, roots[1..], oif, m)
      case other => other
  }

  ghost predicate Roots(table: ChainTable, roots: seq<Chain>) {
    forall i :: 0 <= i < |roots| ==> Root(table, roots[i])
  }

  lemma {:induction false} ClassifiersExact(ctx: Context, w: World, table: ChainTable, listed: Chains, p: Packet,
                                            roots: seq<Chain>, mark: nat)
    requires Setting(ctx, w, table, listed, p) && Roots(table, roots)
    requires !ReadClassifiers(ctx, table, roots, p.oif, mark).Open?
    ensures Prerouting(w, listed, roots, p, mark).Some?
    ensures match ReadClassifiers(ctx, table, roots, p.oif, mark)
            case Passes(m) => Prerouting(w, listed, roots, p, mark) == Some((Accepted, m))
            case _ => Prerouting(w, listed, roots, p, mark).value.0 == Dropped
    decreases |roots|
  {
    if roots != [] {
      assert Roots(table, roots[1..]);
      if roots[0].bound.role != Classifier {
        ClassifiersExact(ctx, w, table, listed, p, roots[1..], mark);
      } else {
        ReadingExact(ctx, w, table, listed, p, roots[0], mark);
        var read := ReadChain(ctx, table, roots[0], p.oif, mark);
        if read.Passes? {
          ClassifiersExact(ctx, w, table, listed, p, roots[1..], read.mark);
        }
      }
    }
  }

  /** The base chains of the forward hook that count: forwarding chains, or these and guards. */
  predicate Counts(c: Chain, forwardingOnly: bool) {
    c.bound.role != Classifier && (forwardingOnly ==> c.bound.role == Forwarding)
  }

  predicate Drops(w: World, listed: Chains, c: Chain, p: Packet, mark: nat) {
    Kernel(w, listed, c, p, mark).Some? && Kernel(w, listed, c, p, mark).value.0 == Dropped
  }

  /** A packet passes the forward hook only if none of its base chains drops it. */
  predicate SomeDrops(w: World, listed: Chains, roots: seq<Chain>, p: Packet, mark: nat, forwardingOnly: bool) {
    exists c :: c in roots && Counts(c, forwardingOnly) && Drops(w, listed, c, p, mark)
  }

  predicate SomeRead(ctx: Context, table: ChainTable, roots: seq<Chain>, oif: string, mark: nat, forwardingOnly: bool) {
    exists c :: c in roots && Counts(c, forwardingOnly) && ReadChain(ctx, table, c, oif, mark).Stops?
  }

  /** All these base chains are read for packets that leave by oif. */
  predicate Settled(ctx: Context, table: ChainTable, roots: seq<Chain>, oif: string, mark: nat) {
    forall c :: c in roots && Counts(c, false) ==> !ReadChain(ctx, table, c, oif, mark).Open?
  }

  /** Forwarding chains, or these and guards, drop a packet exactly when one of them is read so. */
  lemma ForwardExact(ctx: Context, w: World, table: ChainTable, listed: Chains, p: Packet, roots: seq<Chain>, mark: nat,
                     only: bool)
    requires Setting(ctx, w, table, listed, p) && Roots(table, roots) && Settled(ctx, table, roots, p.oif, mark)
    ensures SomeDrops(w, listed, roots, p, mark, only) <==> SomeRead(ctx, table, roots, p.oif, mark, only)
  {
    forall c | c in roots && Counts(c, only)
      ensures ReadChain(ctx, table, c, p.oif, mark).Stops? <==> Drops(w, listed, c, p, mark)
    {
      assert Counts(c, false) && Root(table, c);
      ReadingExact(ctx, w, table, listed, p, c, mark);
    }
  }

  /** One that is read so is enough for a drop, whether the others can be read or not. */
  lemma ForwardStops(ctx: Context, w: World, table: ChainTable, listed: Chains, p: Packet, roots: seq<Chain>, mark: nat,
                     only: bool)
    requires Setting(ctx, w, table, listed, p) && Roots(table, roots) && SomeRead(ctx, table, roots, p.oif, mark, only)
    ensures SomeDrops(w, listed, roots, p, mark, only)
  {
    var c :| c in roots && Counts(c, only) && ReadChain(ctx, table, c, p.oif, mark).Stops?;
    assert Root(table, c);
    ReadingExact(ctx, w, table, listed, p, c, mark);
  }

  // ----- the code's two passes and the readings

  /** The classifier pass, when supported with a known mark, has what is read of the classifiers. */
  lemma {:induction false} ClassifyReads(ctx: Context, w: World, p: Packet, table: ChainTable, roots: seq<Chain>,
                                         acc: Pass, mark: nat)
    requires Faithful(ctx, w, p) && Uncovered(ctx, table) && Roots(table, roots)
    requires MarkAgrees(acc.walk, mark) && acc.walk.skipped <= {p.oif}
    requires var r := Classify(ctx, table, roots, acc); r.supported && r.walk.markKnown && p.oif !in r.walk.taken
    ensures var r := Classify(ctx, table, roots, acc);
            ReadClassifiers(ctx, table, roots, p.oif, mark) == if r.walk.skipped <= {p.oif} then Passes(r.walk.mark)
              else Stops
    decreases |roots|
  {
    if roots != [] {
      var c := roots[0];
      assert Roots(table, roots[1..]);
      if c.bound.role != Classifier {
        ClassifyReads(ctx, w, p, table, roots[1..], acc, mark);
      } else {
        ClassifyGrows(ctx, table, roots[1..], acc.(supported := false));
        var (t, answer) := WalkChain(ctx, table, c, 1, {}, acc.walk);
        ClassifyGrows(ctx, table, roots[1..], acc.(walk := t));
        RootReads(ctx, w, p, table, c, acc.walk, mark);
        if t.skipped <= {p.oif} {
          ClassifyReads(ctx, w, p, table, roots[1..], acc.(walk := t), ReadChain(ctx, table, c, p.oif, mark).mark);
        }
      }
    }
  }

  lemma SettledStep(ctx: Context, table: ChainTable, roots: seq<Chain>, oif: string, mark: nat)
    requires roots != []
    ensures Settled(ctx, table, roots, oif, mark) <==>
            (Counts(roots[0], false) ==> !ReadChain(ctx, table, roots[0], oif, mark).Open?)
            && Settled(ctx, table, roots[1..], oif, mark)
  {
    assert roots == [roots[0]] + roots[1..];
  }

  lemma SomeReadStep(ctx: Context, table: ChainTable, roots: seq<Chain>, oif: string, mark: nat, only: bool)
    requires roots != []
    ensures SomeRead(ctx, table, roots, oif, mark, only) <==>
            (Counts(roots[0], only) && ReadChain(ctx, table, roots[0], oif, mark).Stops?)
            || SomeRead(ctx, table, roots[1..], oif, mark, only)
  {
    assert roots == [roots[0]] + roots[1..];
  }

  /**
   The forward pass, when supported: for packets leaving by the interface of every drop stepped over, forwarding is
   denied exactly when a forwarding chain is read so; for any other, some chain is read as a drop. With a guard, some
   chain is, for every interface but the VPN's.
   */
  lemma {:induction false} ForwardReads(ctx: Context, w: World, p: Packet, table: ChainTable, roots: seq<Chain>,
                                        acc: Pass, mark: nat)
    requires Faithful(ctx, w, p) && Uncovered(ctx, table) && Roots(table, roots)
    requires MarkAgrees(acc.walk, mark) && acc.walk.skipped <= {p.oif}
    requires var r := Forward(ctx, table, roots, acc); r.supported && p.oif !in r.walk.taken
    ensures var r := Forward(ctx, table, roots, acc);
            && (if r.walk.skipped <= {p.oif}
                then && r.forwardAllowed == (acc.forwardAllowed && !SomeRead(ctx, table, roots, p.oif, mark, true))
                     && Settled(ctx, table, roots, p.oif, mark)
                else SomeRead(ctx, table, roots, p.oif, mark, false))
            && (GuardKept(ctx, acc.walk) && r.walk.guard && p.oif != ctx.vpnInterface ==>
                  SomeRead(ctx, table, roots, p.oif, mark, false))
    decreases |roots|
  {
    if roots != [] {
      var c := roots[0];
      assert Roots(table, roots[1..]);
      SomeReadStep(ctx, table, roots, p.oif, mark, true);
      SomeReadStep(ctx, table, roots, p.oif, mark, false);
      SettledStep(ctx, table, roots, p.oif, mark);
      if c.bound.role == Classifier {
        ForwardReads(ctx, w, p, table, roots[1..], acc, mark);
      } else {
        ForwardGrows(ctx, table, roots[1..], acc.(supported := false));
        var (t, answer) := WalkChain(ctx, table, c, 1, {}, acc.walk);
        var next := Next(c, acc, t, answer);
        ForwardGrows(ctx, table, roots[1..], next);
        ChainGrows(ctx, table, c, 1, {}, acc.walk);
        RootReads(ctx, w, p, table, c, acc.walk, mark);
        if GuardKept(ctx, acc.walk) {
          ChainKeepsGuard(ctx, table, c, 1, {}, acc.walk);
        }
        if t.skipped <= {p.oif} {
          ForwardReads(ctx, w, p, table, roots[1..], next, mark);
        }
      }
    }
  }

  // ----- the evidence

  /** What the evidence tells of packets that leave by oif, against what is read for them. */
  predicate EvidenceTells(ctx: Context, table: ChainTable, roots: seq<Chain>, readable: bool, routing: Routing,
                          oif: string, start: nat, mark: nat) {
    var e := Conclude(ctx, table, roots, readable, routing);
    && (e.markKnown ==>
          ReadClassifiers(ctx, table, roots, oif, start) ==
          if Marked(ctx, table, roots, readable).walk.skipped <= {oif} then Passes(e.mark) else Stops)
    && (e.forwarding.Some? ==>
          if FinalWalk(ctx, table, roots, readable, routing).skipped <= {oif}
          then e.forwarding.value <==> !SomeRead(ctx, table, roots, oif, mark, true)
          else SomeRead(ctx, table, roots, oif, mark, false))
    && (e.guard && oif != ctx.vpnInterface ==> SomeRead(ctx, table, roots, oif, mark, false))
  }

  /**
   What the evidence claims of a packet. Classifiers: by the interface of every drop stepped over it passes them with
   the mark that is known, by any other it is dropped. Forwarding: likewise it passes the forwarding chains exactly when
   forwarding is allowed, or is dropped. Guard: it is dropped by every interface but the VPN's.
   */
  ghost predicate RootsTrue(w: World, listed: Chains, p: Packet, ctx: Context, table: ChainTable, roots: seq<Chain>,
                               readable: bool, routing: Routing, start: nat, mark: nat) {
    var e := Conclude(ctx, table, roots, readable, routing);
    && (e.markKnown ==>
          var got := Prerouting(w, listed, roots, p, start);
          if Marked(ctx, table, roots, readable).walk.skipped <= {p.oif} then got == Some((Accepted, e.mark))
          else got.Some? && got.value.0 == Dropped)
    && (e.forwarding.Some? ==>
          if FinalWalk(ctx, table, roots, readable, routing).skipped <= {p.oif}
          then e.forwarding.value <==> !SomeDrops(w, listed, roots, p, mark, true)
          else SomeDrops(w, listed, roots, p, mark, false))
    && (e.guard && p.oif != ctx.vpnInterface ==> SomeDrops(w, listed, roots, p, mark, false))
  }

  /**
   For interfaces no jump or return it took names, and ingresses no pattern covers, the evidence tells what is read.
   */
  lemma EvidenceReads(ctx: Context, w: World, p: Packet, table: ChainTable, roots: seq<Chain>, readable: bool,
                      routing: Routing, start: nat, mark: nat)
    requires Faithful(ctx, w, p) && Uncovered(ctx, table) && Roots(table, roots)
    requires var e := Conclude(ctx, table, roots, readable, routing); e.supported && (e.markKnown ==> mark == e.mark)
    requires p.oif !in FinalWalk(ctx, table, roots, readable, routing).taken
    ensures EvidenceTells(ctx, table, roots, readable, routing, p.oif, start, mark)
    ensures FinalWalk(ctx, table, roots, readable, routing).skipped <= {p.oif} ==>
              Settled(ctx, table, roots, p.oif, mark)
  {
    var begin := Pass(START, readable, false, true);
    var first := Marked(ctx, table, roots, readable);
    var second := Second(ctx, first, routing);
    ClassifyGrows(ctx, table, roots, begin);
    ForwardGrows(ctx, table, roots, second);
    if first.walk.markKnown {
      ClassifyReads(ctx, w, p, table, roots, begin, start);
    }
    ClassifyLeavesForwarding(ctx, table, roots, begin);
    ForwardReads(ctx, w, p, table, roots, second, mark);
  }

  /**
   Supported evidence is true of every packet of the client but those whose interface a jump or return names that was
   taken, or whose ingress a pattern covers.
   */
  lemma RootsSound(ctx: Context, w: World, table: ChainTable, listed: Chains, p: Packet, roots: seq<Chain>,
                      readable: bool, routing: Routing, start: nat, mark: nat)
    requires Setting(ctx, w, table, listed, p) && Roots(table, roots)
    requires var e := Conclude(ctx, table, roots, readable, routing); e.supported && (e.markKnown ==> mark == e.mark)
    ensures RootsTrue(w, listed, p, ctx, table, roots, readable, routing, start, mark)
            || p.oif in FinalWalk(ctx, table, roots, readable, routing).taken || !Uncovered(ctx, table)
  {
    if Uncovered(ctx, table) && p.oif !in FinalWalk(ctx, table, roots, readable, routing).taken {
      EvidenceReads(ctx, w, p, table, roots, readable, routing, start, mark);
      if Conclude(ctx, table, roots, readable, routing).markKnown {
        ClassifiersExact(ctx, w, table, listed, p, roots, start);
      }
      if Settled(ctx, table, roots, p.oif, mark) {
        ForwardExact(ctx, w, table, listed, p, roots, mark, true);
      }
      if SomeRead(ctx, table, roots, p.oif, mark, false) {
        ForwardStops(ctx, w, table, listed, p, roots, mark, false);
      }
    }
  }

  /** For all the others it is true exactly when it tells what is read for their interface. */
  lemma RootsExact(ctx: Context, w: World, table: ChainTable, listed: Chains, p: Packet, roots: seq<Chain>,
                      readable: bool, routing: Routing, start: nat, mark: nat)
    requires Setting(ctx, w, table, listed, p) && Roots(table, roots)
    requires Conclude(ctx, table, roots, readable, routing).markKnown ==>
               !ReadClassifiers(ctx, table, roots, p.oif, start).Open?
    requires Settled(ctx, table, roots, p.oif, mark)
    ensures RootsTrue(w, listed, p, ctx, table, roots, readable, routing, start, mark) <==>
            EvidenceTells(ctx, table, roots, readable, routing, p.oif, start, mark)
  {
    if Conclude(ctx, table, roots, readable, routing).markKnown {
      ClassifiersExact(ctx, w, table, listed, p, roots, start);
    }
    ForwardExact(ctx, w, table, listed, p, roots, mark, true);
    ForwardExact(ctx, w, table, listed, p, roots, mark, false);
  }

  // ----- where the evidence is not true

  const SUB := Key("inet", "fw4", "sub")
  const TOP := Key("inet", "fw4", "forward")

  const SUB_CHAIN: Chain := Chain(Bound(SUB, Forwarding, "", 0), false, [Rule("", "", "", "", "drop", "", 0, true)],
                                  true)
  const TOP_CHAIN: Chain := Chain(Bound(TOP, Forwarding, "forward", 0), false,
                                  [Rule("", "", "", "wan", "jump", "sub", 0, true)], true)
  const JUMP_RULE: seq<Expr> := [Match("!=", Meta("oifname"), "wan"), Jump("sub")]

  lemma JumpListingRead()
    ensures Parsed(JUMP_RULE) == TOP_CHAIN.rules[0] && Parsed([Verdict("drop")]) == SUB_CHAIN.rules[0]
  {
    var m, j := Match("!=", Meta("oifname"), "wan"), Jump("sub");
    assert Steps(EMPTY, [Verdict("drop")]) == Steps(Step(EMPTY, Verdict("drop")), []);
    var one := Step(EMPTY, m);
    assert [m, j][1..] == [j] && [j][1..] == [];
    assert Steps(EMPTY, [m, j]) == Steps(one, [j]) == Steps(Step(one, j), []);
  }

  lemma JumpWalked(ctx: Context, c: Chain)
    requires c.bound == TOP_CHAIN.bound && c.valid && c.rules != [] && c.rules[0] == TOP_CHAIN.rules[0]
    ensures var table := map[SUB := SUB_CHAIN, TOP := c];
            && WalkChain(ctx, table, c, 1, {}, START).1 == Known(Dropped)
            && WalkChain(ctx, table, c, 1, {}, START).0.skipped == {}
  {
    var table := map[SUB := SUB_CHAIN, TOP := c];
    var entered := START.(reached := {TOP}, taken := {"wan"});
    assert TOP.(name := "sub") == SUB;
    var (back, answer) := WalkChain(ctx, table, SUB_CHAIN, 2, {TOP}, entered);
    assert answer == Known(Dropped) && back.skipped == {};
  }

  lemma JumpTraversed(w: World, listed: Chains, c: Chain, p: Packet, mark: nat)
    requires p.oif == "wan" && TOP in listed && listed[TOP] == [JUMP_RULE] && c.bound.key == TOP && !c.policyDrop
    ensures Kernel(w, listed, c, p, mark) == Some((Accepted, mark))
  {
    assert Evaluate(w, JUMP_RULE, p, mark) == Continue(mark);
    assert listed[TOP][1..] == [];
    assert Traverse(w, listed, TOP, listed[TOP], p, mark, MAX_DEPTH) == Some((Returned, mark));
  }

  /** A jump that depends on the output interface is followed as if it always applied. */
  lemma FollowedJumpMisleads(ctx: Context, w: World, p: Packet, mark: nat)
    requires Faithful(ctx, w, p) && p.oif == "wan"
    ensures var table := map[SUB := SUB_CHAIN, TOP := TOP_CHAIN];
            var listed := map[SUB := [[Verdict("drop")]], TOP := [JUMP_RULE]];
            && ReadFrom(table, listed) && Roots(table, [TOP_CHAIN])
            && WalkChain(ctx, table, TOP_CHAIN, 1, {}, START).1 == Known(Dropped)
            && WalkChain(ctx, table, TOP_CHAIN, 1, {}, START).0.skipped == {}
            && Kernel(w, listed, TOP_CHAIN, p, mark) == Some((Accepted, mark))
  {
    JumpListingRead();
    JumpWalked(ctx, TOP_CHAIN);
    JumpTraversed(w, map[SUB := [[Verdict("drop")]], TOP := [JUMP_RULE]], TOP_CHAIN, p, mark);
  }

  const EXCEPT_VPN: seq<Expr> := [Match("!=", Meta("oifname"), "vpn"), Verdict("accept")]
  const WIDE_CHAIN: Chain := TOP_CHAIN.(rules := TOP_CHAIN.rules + [Rule("", "", "", "vpn", "accept", "", 0, true)])

  lemma AcceptListingRead()
    ensures Parsed(EXCEPT_VPN) == WIDE_CHAIN.rules[1]
  {
    var m, v := Match("!=", Meta("oifname"), "vpn"), Verdict("accept");
    var one := Step(EMPTY, m);
    assert [m, v][1..] == [v] && [v][1..] == [];
    assert Steps(EMPTY, [m, v]) == Steps(one, [v]) == Steps(Step(one, v), []);
  }

  lemma AcceptListed()
    ensures ReadFrom(map[SUB := SUB_CHAIN, TOP := WIDE_CHAIN],
                     map[SUB := [[Verdict("drop")]], TOP := [JUMP_RULE, EXCEPT_VPN]])
  {
    JumpListingRead();
    AcceptListingRead();
    assert LiteralRule(JUMP_RULE) && LiteralRule(EXCEPT_VPN) && LiteralRule([Verdict("drop")]);
  }

  lemma AcceptRead(ctx: Context, mark: nat)
    ensures ReadChain(ctx, map[SUB := SUB_CHAIN, TOP := WIDE_CHAIN], WIDE_CHAIN, "wan", mark) == Passes(mark)
  {
    var table := map[SUB := SUB_CHAIN, TOP := WIDE_CHAIN];
    var rules := WIDE_CHAIN.rules;
    assert Applies(ctx, "wan", rules[0]) == Some(false) && Applies(ctx, "wan", rules[1]) == Some(true);
    assert Follow(ctx, "wan", table, TOP, rules[1..], mark, MAX_DEPTH) == Some((Accepted, mark));
  }

  /**
   Where the jump is not for a packet, a rule the code refuses can decide: an accept that depends on the output
   interface.
   */
  lemma AcceptBehindMisleads(ctx: Context, w: World, p: Packet, mark: nat)
    requires Faithful(ctx, w, p) && p.oif == "wan"
    ensures var table := map[SUB := SUB_CHAIN, TOP := WIDE_CHAIN];
            var listed := map[SUB := [[Verdict("drop")]], TOP := [JUMP_RULE, EXCEPT_VPN]];
            && ReadFrom(table, listed) && Roots(table, [WIDE_CHAIN])
            && WalkChain(ctx, table, WIDE_CHAIN, 1, {}, START).1 == Known(Dropped)
            && ReadChain(ctx, table, WIDE_CHAIN, p.oif, mark) == Passes(mark)
            && Kernel(w, listed, WIDE_CHAIN, p, mark) == Some((Accepted, mark))
  {
    AcceptListed();
    JumpWalked(ctx, WIDE_CHAIN);
    AcceptRead(ctx, mark);
    ReadingExact(ctx, w, map[SUB := SUB_CHAIN, TOP := WIDE_CHAIN],
                 map[SUB := [[Verdict("drop")]], TOP := [JUMP_RULE, EXCEPT_VPN]], p, WIDE_CHAIN, mark);
  }

  // ----- a guard behind such a jump

  const GUARD_TOP: Chain := TOP_CHAIN.(bound := Bound(TOP, Guard, "forward", 0))

  /** A guard for the client's traffic: whatever leaves by another interface than the VPN's is dropped. */
  function GuardRule(ctx: Context): Rule {
    Rule(ctx.source, ctx.target, ctx.ingress, "vpn", "drop", "", 0, true)
  }

  function GuardListing(ctx: Context): seq<Expr> {
    [Match("==", Payload("ip", "saddr"), ctx.source), Match("==", Payload("ip", "daddr"), ctx.target),
     Match("==", Meta("iifname"), ctx.ingress), Match("!=", Meta("oifname"), "vpn"), Verdict("drop")]
  }

  function GuardTable(ctx: Context): ChainTable {
    map[SUB := Chain(Bound(SUB, Guard, "", 0), false, [GuardRule(ctx)], true), TOP := GUARD_TOP]
  }

  lemma GuardListingRead(ctx: Context)
    ensures Parsed(GuardListing(ctx)) == GuardRule(ctx)
  {
    var e := GuardListing(ctx);
    assert e[1..][1..] == e[2..] && e[2..][1..] == e[3..] && e[3..][1..] == e[4..] && e[4..][1..] == [];
    var a := Step(EMPTY, e[0]);
    var b := Step(a, e[1]);
    var c := Step(b, e[2]);
    var d := Step(c, e[3]);
    assert a == Parse(EMPTY.rule.(source := ctx.source), {"saddr"}, false);
    assert b == Parse(a.rule.(destination := ctx.target), {"saddr", "daddr"}, false);
    assert c == Parse(b.rule.(ingress := ctx.ingress), {"saddr", "daddr", "iifname"}, false);
    assert NativeName("vpn");
    assert d == Parse(c.rule.(oifNot := "vpn"), {"saddr", "daddr", "iifname", "oifname"}, false);
    assert Steps(EMPTY, e) == Steps(a, e[1..]) == Steps(b, e[2..]) == Steps(c, e[3..]) == Steps(d, e[4..])
        == Steps(Step(d, e[4]), []);
  }

  lemma GuardRuleWalked(ctx: Context, w: World, p: Packet, s: Walk)
    requires Faithful(ctx, w, p) && ctx.source != "" && ctx.target != "" && ctx.ingress != ""
    requires ctx.boundVpn && ctx.vpnInterface == "vpn"
    ensures var after := s.(guard := true, reached := s.reached + {SUB}, skipped := s.skipped + {"vpn"});
            WalkChain(ctx, GuardTable(ctx), GuardTable(ctx)[SUB], 2, {TOP}, s) == (after, Known(Returned))
  {
    var table, r := GuardTable(ctx), GuardRule(ctx);
    var c := table[SUB];
    assert RuleMatches(ctx, r) == (true, true) && GuardsPath(ctx, c, r);
    var inside := s.(reached := s.reached + {SUB});
    var passed := inside.(guard := true, skipped := s.skipped + {"vpn"});
    assert WalkRules(ctx, table, c, 1, 2, {TOP} + {SUB}, passed) == (passed, Known(Returned));
    assert WalkRules(ctx, table, c, 0, 2, {TOP} + {SUB}, inside) == (passed, Known(Returned));
    assert SUB !in {TOP};
  }

  /** The guard is seen behind the jump, although packets the jump is not for never come to it. */
  lemma GuardWalked(ctx: Context, w: World, p: Packet)
    requires Faithful(ctx, w, p) && ctx.source != "" && ctx.target != "" && ctx.ingress != ""
    requires ctx.boundVpn && ctx.vpnInterface == "vpn"
    ensures var (t, answer) := WalkChain(ctx, GuardTable(ctx), GUARD_TOP, 1, {}, START);
            answer == Known(Returned) && t.guard && t.reached == {TOP, SUB}
  {
    var table := GuardTable(ctx);
    assert TOP.(name := "sub") == SUB;
    var inside := START.(reached := START.reached + {TOP});
    var entered := inside.(taken := inside.taken + {"wan"});
    GuardRuleWalked(ctx, w, p, entered);
    var passed := entered.(guard := true, reached := entered.reached + {SUB}, skipped := entered.skipped + {"vpn"});
    var stack: set<Key> := {};
    assert stack + {TOP} == {TOP};
    assert WalkRules(ctx, table, GUARD_TOP, 1, 1, {TOP}, passed) == (passed, Known(Returned));
    JumpWalks(ctx, table, GUARD_TOP, 0, 1, {TOP}, inside);
  }

  lemma GuardConcluded(ctx: Context, w: World, p: Packet, routing: Routing)
    requires Faithful(ctx, w, p) && ctx.source != "" && ctx.target != "" && ctx.ingress != ""
    requires ctx.boundVpn && ctx.vpnInterface == "vpn"
    ensures var e := Conclude(ctx, GuardTable(ctx), [GUARD_TOP], true, routing); e.guard && e.supported
  {
    var table, roots := GuardTable(ctx), [GUARD_TOP];
    GuardWalked(ctx, w, p);
    assert roots[1..] == [];
    var start := Pass(START, true, false, true);
    assert Classify(ctx, table, roots, start) == Classify(ctx, table, [], start) == start;
    assert Second(ctx, start, routing) == start;
    var t := WalkChain(ctx, table, GUARD_TOP, 1, {}, START).0;
    assert Forward(ctx, table, roots, start) == Forward(ctx, table, [], start.(walk := t)) == start.(walk := t);
    assert table.Keys == {SUB, TOP};
  }

  lemma GuardListed(ctx: Context)
    requires ctx.source != "" && ctx.target != "" && ctx.ingress != ""
    ensures ReadFrom(GuardTable(ctx), map[SUB := [GuardListing(ctx)], TOP := [JUMP_RULE]])
  {
    JumpListingRead();
    GuardListingRead(ctx);
    assert LiteralRule(GuardListing(ctx)) && LiteralRule(JUMP_RULE);
  }

  /** A guard is reported, and a packet that leaves by another interface than the VPN's passes it. */
  lemma GuardMisleads(ctx: Context, w: World, p: Packet, mark: nat, routing: Routing)
    requires Faithful(ctx, w, p) && ctx.source != "" && ctx.target != "" && ctx.ingress != ""
    requires ctx.boundVpn && ctx.vpnInterface == "vpn" && p.oif == "wan"
    ensures var table, roots := GuardTable(ctx), [GUARD_TOP];
            var listed := map[SUB := [GuardListing(ctx)], TOP := [JUMP_RULE]];
            && ReadFrom(table, listed) && Roots(table, roots)
            && Conclude(ctx, table, roots, true, routing).guard && Conclude(ctx, table, roots, true, routing).supported
            && p.oif != ctx.vpnInterface && !SomeDrops(w, listed, roots, p, mark, false)
  {
    GuardListed(ctx);
    GuardConcluded(ctx, w, p, routing);
    JumpTraversed(w, map[SUB := [GuardListing(ctx)], TOP := [JUMP_RULE]], GUARD_TOP, p, mark);
  }

  /** An interface pattern is compared as a plain name, so a rule that applies is taken not to. */
  lemma WildcardIngressMisleads(ctx: Context, w: World, p: Packet, mark: nat)
    requires Faithful(ctx, w, p) && p.iif == "br0"
    ensures var rule := [Match("==", Meta("iifname"), "br*"), Verdict("drop")];
            && Parsed(rule).valid && RuleMatches(ctx, Parsed(rule)) == (false, true)
            && Evaluate(w, rule, p, mark) == Decide(Dropped, mark)
  {
    var m, v := Match("==", Meta("iifname"), "br*"), Verdict("drop");
    assert [m, v][1..] == [v] && [v][1..] == [];
    var one := Step(EMPTY, m);
    assert Steps(EMPTY, [m, v]) == Steps(one, [v]) == Steps(Step(one, v), []);
    assert "br*"[..2] == "br" <= "br0";
  }
}
