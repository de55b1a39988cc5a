/** Facts about the code's walk: what it knows of a match, what it adds to its state, and when it sees guards. */
module OpenWrtSound {
  import opened Bytes
  import opened Nftables
  import opened OpenWrtRules
  import opened OpenWrtWalk

  /** The table was read from these listings, and the listings are literal. */
  ghost predicate ReadFrom(table: ChainTable, listed: Chains) {
    forall k :: k in table ==>
      table[k].bound.key == k && (table[k].valid ==> k in listed && SameRules(table[k].rules, listed[k]))
  }

  predicate SameRules(rules: seq<Rule>, listed: seq<seq<Expr>>) {
    |rules| == |listed| && forall i :: 0 <= i < |rules| ==> rules[i] == Parsed(listed[i]) && LiteralRule(listed[i])
  }

  /** The packet is the client's: from its address and ingress to the target, in a world the sample is true of. */
  ghost predicate Faithful(ctx: Context, w: World, p: Packet) {
    && ctx.lib == w.lib && Lawful(w.lib)
    && ctx.source == w.lib.text(p.src) && ctx.target == w.lib.text(p.dst) && ctx.ingress == p.iif
    && (ctx.setName.Some? && ctx.setKnown ==> w.sets(ctx.setName.value, p.dst) == ctx.setMember)
  }

  lemma SameAddressMeans(ctx: Context, w: World, p: Packet, text: string, want: string, a: Ip, e: Expr)
    requires ctx.lib == w.lib && Lawful(w.lib) && want == w.lib.text(a)
    ensures SameAddress(ctx, text, want) ==> AddressTest(w, e, text, a, p)
    ensures !SameAddress(ctx, text, want) && (w.lib.address(text).Some? || HostPrefix(ctx, text)) ==>
              !AddressTest(w, e, text, a, p)
  {
    assert w.lib.address(w.lib.text(a)) == Some(a);
    if HostPrefix(ctx, text) {
      var base := w.lib.prefix(text).value.0;
      assert w.lib.address(w.lib.text(base)) == Some(base);
      assert Nftables.Pow2(0) == 1;
    }
  }

  /** Source and destination select the packet. */
  predicate Addressed(w: World, r: Rule, p: Packet) {
    AddressHolds(w, "saddr", r.source, p.src, p) && AddressHolds(w, "daddr", r.destination, p.dst, p)
  }

  /** What the code knows of a match is true of the client's packets unless a pattern covers their interface. */
  lemma MatchSound(ctx: Context, w: World, p: Packet, r: Rule)
    requires Faithful(ctx, w, p) && RuleMatches(ctx, r).1
    ensures (RuleMatches(ctx, r).0 <==> Selects(w, r, p)) <==> !(Covers(r.ingress, p.iif) && Addressed(w, r, p))
    ensures RuleMatches(ctx, r).0 ==> Selects(w, r, p)
  {
    var se := Match("==", Payload("ip", "saddr"), r.source);
    var de := Match("==", Payload("ip", "daddr"), r.destination);
    SameAddressMeans(ctx, w, p, r.source, ctx.source, p.src, se);
    SameAddressMeans(ctx, w, p, r.destination, ctx.target, p.dst, de);
    if r.destination != "" && r.destination[0] == '@' && ctx.setName.Some?
       && r.destination == "@" + ctx.setName.value {
      assert r.destination[1..] == ctx.setName.value;
    }
  }

  /**
   A jump that is taken: the chain it names is walked, and where that ends without a verdict, the rest of this one.
   */
  lemma JumpWalks(ctx: Context, table: ChainTable, c: Chain, i: nat, depth: nat,
                  stack: set<Key>, s: Walk)
    requires i < |c.rules| && depth <= MAX_DEPTH
    requires RuleMatches(ctx, c.rules[i]) == (true, true) && c.rules[i].action == "jump"
    requires Callable(table, c, c.bound.key.(name := c.rules[i].jump))
    ensures var r := c.rules[i];
            var (back, answer) := WalkChain(ctx, table, table[c.bound.key.(name := r.jump)], depth + 1, stack,
                                            s.(taken := s.taken + Operand(r)));
            WalkRules(ctx, table, c, i, depth, stack, s) ==
            if answer == Known(Returned) then WalkRules(ctx, table, c, i + 1, depth, stack, back)
            else (back, answer)
  {
  }

  // ----- the walk only adds to its history, and only classifiers set the mark, only guards are guards

  predicate Grows(role: Role, s: Walk, t: Walk) {
    && s.skipped <= t.skipped && s.taken <= t.taken && (s.guard ==> t.guard) && (s.markKnown ==> t.markKnown)
    && (role != Guard ==> t.guard == s.guard)
    && (role != Classifier ==> t.mark == s.mark && t.markKnown == s.markKnown)
  }

  lemma {:induction false} RulesGrow(ctx: Context, table: ChainTable, c: Chain, i: nat, depth: nat,
                                     stack: set<Key>, s: Walk)
    requires i <= |c.rules| && depth <= MAX_DEPTH
    ensures Grows(c.bound.role, s, WalkRules(ctx, table, c, i, depth, stack, s).0)
    decreases MAX_DEPTH + 1 - depth, 0, |c.rules| - i
  {
    if i < |c.rules| {
      var r := c.rules[i];
      var (matches, known) := RuleMatches(ctx, r);
      if known {
        if !matches {
          RulesGrow(ctx, table, c, i + 1, depth, stack, s);
        } else if r.action == "mark" && c.bound.role == Classifier {
          RulesGrow(ctx, table, c, i + 1, depth, stack, s.(mark := r.mark, markKnown := true));
        } else if r.action == "jump" && Callable(table, c, c.bound.key.(name := r.jump)) {
          JumpGrows(ctx, table, c, i, depth, stack, s);
        } else if r.action == "drop" || r.action == "reject" {
          DropGrows(ctx, table, c, i, depth, stack, s);
        }
      }
    }
  }

  lemma {:induction false} DropGrows(ctx: Context, table: ChainTable, c: Chain, i: nat, depth: nat,
                                     stack: set<Key>, s: Walk)
    requires i < |c.rules| && depth <= MAX_DEPTH
    requires RuleMatches(ctx, c.rules[i]) == (true, true) && c.rules[i].action in {"drop", "reject"}
    ensures Grows(c.bound.role, s, WalkRules(ctx, table, c, i, depth, stack, s).0)
    decreases MAX_DEPTH + 1 - depth, 0, |c.rules| - i, 0
  {
    var r := c.rules[i];
    var seen := s.(guard := s.guard || GuardsPath(ctx, c, r));
    RulesGrow(ctx, table, c, i + 1, depth, stack, seen.(skipped := s.skipped + {r.oifNot}));
  }

  lemma {:induction false} JumpGrows(ctx: Context, table: ChainTable, c: Chain, i: nat, depth: nat,
                                     stack: set<Key>, s: Walk)
    requires i < |c.rules| && depth <= MAX_DEPTH
    requires RuleMatches(ctx, c.rules[i]) == (true, true) && c.rules[i].action == "jump"
    requires Callable(table, c, c.bound.key.(name := c.rules[i].jump))
    ensures Grows(c.bound.role, s, WalkRules(ctx, table, c, i, depth, stack, s).0)
    decreases MAX_DEPTH + 1 - depth, 0, |c.rules| - i, 0
  {
    var r := c.rules[i];
    JumpWalks(ctx, table, c, i, depth, stack, s);
    var callee := table[c.bound.key.(name := r.jump)];
    var entered := s.(taken := s.taken + Operand(r));
    ChainGrows(ctx, table, callee, depth + 1, stack, entered);
    RulesGrow(ctx, table, c, i + 1, depth, stack,
              WalkChain(ctx, table, callee, depth + 1, stack, entered).0);
  }

  lemma {:induction false} ChainGrows(ctx: Context, table: ChainTable, c: Chain, depth: nat,
                                      stack: set<Key>, s: Walk)
    ensures Grows(c.bound.role, s, WalkChain(ctx, table, c, depth, stack, s).0)
    decreases if depth <= MAX_DEPTH then MAX_DEPTH + 1 - depth else 0, 1, 0
  {
    if depth <= MAX_DEPTH {
      RulesGrow(ctx, table, c, 0, depth, stack + {c.bound.key}, s.(reached := s.reached + {c.bound.key}));
    }
  }

  /** Answers do not depend on the state a walk starts in, and neither do the guards it adds. */
  lemma {:induction false} RulesForget(ctx: Context, table: ChainTable, c: Chain, i: nat,
                                       depth: nat, stack: set<Key>, s: Walk, u: Walk, g: bool)
    requires i <= |c.rules| && depth <= MAX_DEPTH && s.guard == (g || u.guard)
    ensures var (a, x) := WalkRules(ctx, table, c, i, depth, stack, s);
            var (b, y) := WalkRules(ctx, table, c, i, depth, stack, u);
            x == y && a.guard == (g || b.guard)
    decreases MAX_DEPTH + 1 - depth, 0, |c.rules| - i
  {
    if i < |c.rules| {
      var r := c.rules[i];
      if RuleMatches(ctx, r) == (false, true) {
        RulesForget(ctx, table, c, i + 1, depth, stack, s, u, g);
      } else if RuleMatches(ctx, r) == (true, true) {
        if r.action == "mark" {
          MarkForgets(ctx, table, c, i, depth, stack, s, u, g);
        } else if r.action == "jump" && Callable(table, c, c.bound.key.(name := r.jump)) {
          JumpForgets(ctx, table, c, i, depth, stack, s, u, g);
        } else if r.action == "drop" || r.action == "reject" {
          DropForgets(ctx, table, c, i, depth, stack, s, u, g);
        }
      }
    }
  }

  lemma {:induction false} MarkForgets(ctx: Context, table: ChainTable, c: Chain, i: nat,
                                       depth: nat, stack: set<Key>, s: Walk, u: Walk, g: bool)
    requires i < |c.rules| && depth <= MAX_DEPTH && s.guard == (g || u.guard)
    requires RuleMatches(ctx, c.rules[i]) == (true, true) && c.rules[i].action == "mark"
    ensures var (a, x) := WalkRules(ctx, table, c, i, depth, stack, s);
            var (b, y) := WalkRules(ctx, table, c, i, depth, stack, u);
            x == y && a.guard == (g || b.guard)
    decreases MAX_DEPTH + 1 - depth, 0, |c.rules| - i, 0
  {
    var r := c.rules[i];
    RulesForget(ctx, table, c, i + 1, depth, stack, s.(mark := r.mark, markKnown := true),
                u.(mark := r.mark, markKnown := true), g);
  }

  lemma {:induction false} DropForgets(ctx: Context, table: ChainTable, c: Chain, i: nat,
                                       depth: nat, stack: set<Key>, s: Walk, u: Walk, g: bool)
    requires i < |c.rules| && depth <= MAX_DEPTH && s.guard == (g || u.guard)
    requires RuleMatches(ctx, c.rules[i]) == (true, true) && c.rules[i].action in {"drop", "reject"}
    ensures var (a, x) := WalkRules(ctx, table, c, i, depth, stack, s);
            var (b, y) := WalkRules(ctx, table, c, i, depth, stack, u);
            x == y && a.guard == (g || b.guard)
    decreases MAX_DEPTH + 1 - depth, 0, |c.rules| - i, 0
  {
    var r := c.rules[i];
    var guards := GuardsPath(ctx, c, r);
    RulesForget(ctx, table, c, i + 1, depth, stack,
                s.(guard := s.guard || guards, skipped := s.skipped + {r.oifNot}),
                u.(guard := u.guard || guards, skipped := u.skipped + {r.oifNot}), g);
  }

  lemma {:induction false} JumpForgets(ctx: Context, table: ChainTable, c: Chain, i: nat,
                                       depth: nat, stack: set<Key>, s: Walk, u: Walk, g: bool)
    requires i < |c.rules| && depth <= MAX_DEPTH && s.guard == (g || u.guard)
    requires RuleMatches(ctx, c.rules[i]) == (true, true) && c.rules[i].action == "jump"
    requires Callable(table, c, c.bound.key.(name := c.rules[i].jump))
    ensures var (a, x) := WalkRules(ctx, table, c, i, depth, stack, s);
            var (b, y) := WalkRules(ctx, table, c, i, depth, stack, u);
            x == y && a.guard == (g || b.guard)
    decreases MAX_DEPTH + 1 - depth, 0, |c.rules| - i, 0
  {
    var r := c.rules[i];
    var callee := table[c.bound.key.(name := r.jump)];
    JumpWalks(ctx, table, c, i, depth, stack, s);
    JumpWalks(ctx, table, c, i, depth, stack, u);
    var s', u' := s.(taken := s.taken + Operand(r)), u.(taken := u.taken + Operand(r));
    ChainForgets(ctx, table, callee, depth + 1, stack, s', u', g);
    var (a, x) := WalkChain(ctx, table, callee, depth + 1, stack, s');
    var (b, y) := WalkChain(ctx, table, callee, depth + 1, stack, u');
    if x == Known(Returned) {
      RulesForget(ctx, table, c, i + 1, depth, stack, a, b, g);
    }
  }

  lemma {:induction false} ChainForgets(ctx: Context, table: ChainTable, c: Chain, depth: nat,
                                        stack: set<Key>, s: Walk, u: Walk, g: bool)
    requires s.guard == (g || u.guard)
    ensures var (a, x) := WalkChain(ctx, table, c, depth, stack, s);
            var (b, y) := WalkChain(ctx, table, c, depth, stack, u);
            x == y && a.guard == (g || b.guard)
    decreases if depth <= MAX_DEPTH then MAX_DEPTH + 1 - depth else 0, 1, 0
  {
    if depth <= MAX_DEPTH {
      RulesForget(ctx, table, c, 0, depth, stack + {c.bound.key}, s.(reached := s.reached + {c.bound.key}),
                  u.(reached := u.reached + {c.bound.key}), g);
    }
  }

  // ----- guards

  /** A guard seen so far is either behind a drop that was stepped over at the VPN interface, or not seen at all. */
  predicate GuardKept(ctx: Context, s: Walk) {
    s.guard ==> ctx.vpnInterface in s.skipped
  }

  lemma {:induction false} RulesKeepGuard(ctx: Context, table: ChainTable, c: Chain, i: nat,
                                          depth: nat, stack: set<Key>, s: Walk)
    requires i <= |c.rules| && depth <= MAX_DEPTH && GuardKept(ctx, s)
    ensures var (t, answer) := WalkRules(ctx, table, c, i, depth, stack, s);
            answer.Known? && answer.flow != Dropped ==> GuardKept(ctx, t)
    decreases MAX_DEPTH + 1 - depth, 0, |c.rules| - i
  {
    if i < |c.rules| {
      var r := c.rules[i];
      if RuleMatches(ctx, r) == (true, true) {
        if r.action == "mark" {
          RulesKeepGuard(ctx, table, c, i + 1, depth, stack, s.(mark := r.mark, markKnown := true));
        } else if r.action == "jump" && c.bound.key.(name := r.jump) in table {
          var callee := table[c.bound.key.(name := r.jump)];
          var entered := s.(taken := s.taken + Operand(r));
          ChainKeepsGuard(ctx, table, callee, depth + 1, stack, entered);
          var (back, answer) := WalkChain(ctx, table, callee, depth + 1, stack, entered);
          if answer == Known(Returned) {
            RulesKeepGuard(ctx, table, c, i + 1, depth, stack, back);
          }
        } else if (r.action == "drop" || r.action == "reject") && r.oifNot != "" {
          var seen := s.(guard := s.guard || GuardsPath(ctx, c, r));
          RulesKeepGuard(ctx, table, c, i + 1, depth, stack, seen.(skipped := s.skipped + {r.oifNot}));
        }
      } else if RuleMatches(ctx, r) == (false, true) {
        RulesKeepGuard(ctx, table, c, i + 1, depth, stack, s);
      }
    }
  }

  lemma {:induction false} ChainKeepsGuard(ctx: Context, table: ChainTable, c: Chain, depth: nat,
                                           stack: set<Key>, s: Walk)
    requires GuardKept(ctx, s)
    ensures var (t, answer) := WalkChain(ctx, table, c, depth, stack, s);
            answer.Known? && answer.flow != Dropped ==> GuardKept(ctx, t)
    decreases if depth <= MAX_DEPTH then MAX_DEPTH + 1 - depth else 0, 1, 0
  {
    if depth <= MAX_DEPTH {
      RulesKeepGuard(ctx, table, c, 0, depth, stack + {c.bound.key}, s.(reached := s.reached + {c.bound.key}));
    }
  }
}
