/** What supported evidence has covered, and profiles for which the walk finds an answer. */
module OpenWrtCoverage {
  import opened Bytes
  import opened Nftables
  import opened OpenWrtRules
  import opened OpenWrtWalk
  import opened OpenWrtSound
  import opened OpenWrtNormalize
  import RoutePolicy

  /** Some rule of some chain jumps to a chain. */
  predicate Called(table: ChainTable, k: Key) {
    exists from, i :: from in table && 0 <= i < |table[from].rules| && table[from].rules[i].action == "jump"
                      && k == from.(name := table[from].rules[i].jump)
  }

  /** Each chain is listed under its own key. */
  predicate Keyed(table: ChainTable) {
    forall k :: k in table ==> table[k].bound.key == k
  }

  ghost predicate ReachesOnly(table: ChainTable, s: Walk, t: Walk) {
    forall k :: k in t.reached ==> k in s.reached || Called(table, k)
  }

  lemma {:induction false} RulesReach(ctx: Context, table: ChainTable, c: Chain, i: nat, depth: nat, stack: set<Key>,
                                      s: Walk)
    requires Keyed(table) && c.bound.key in table && table[c.bound.key] == c && i <= |c.rules| && depth <= MAX_DEPTH
    ensures ReachesOnly(table, s, WalkRules(ctx, table, c, i, depth, stack, s).0)
    decreases MAX_DEPTH + 1 - depth, 0, |c.rules| - i
  {
    if i < |c.rules| {
      var r := c.rules[i];
      var (matches, known) := RuleMatches(ctx, r);
      if known {
        if !matches {
          RulesReach(ctx, table, c, i + 1, depth, stack, s);
        } else if r.action == "mark" && c.bound.role == Classifier {
          RulesReach(ctx, table, c, i + 1, depth, stack, s.(mark := r.mark, markKnown := true));
        } else if r.action == "jump" && Callable(table, c, c.bound.key.(name := r.jump)) {
          JumpReaches(ctx, table, c, i, depth, stack, s);
        } else if r.action == "drop" || r.action == "reject" {
          DropReaches(ctx, table, c, i, depth, stack, s);
        }
      }
    }
  }

  lemma {:induction false} DropReaches(ctx: Context, table: ChainTable, c: Chain, i: nat, depth: nat, stack: set<Key>,
                                       s: Walk)
    requires Keyed(table) && c.bound.key in table && table[c.bound.key] == c && i < |c.rules| && depth <= MAX_DEPTH
    requires RuleMatches(ctx, c.rules[i]) == (true, true) && c.rules[i].action in {"drop", "reject"}
    ensures ReachesOnly(table, s, WalkRules(ctx, table, c, i, depth, stack, s).0)
    decreases MAX_DEPTH + 1 - depth, 0, |c.rules| - i, 0
  {
    var r := c.rules[i];
    var seen := s.(guard := s.guard || GuardsPath(ctx, c, r));
    RulesReach(ctx, table, c, i + 1, depth, stack, seen.(skipped := s.skipped + {r.oifNot}));
  }

  lemma {:induction false} JumpReaches(ctx: Context, table: ChainTable, c: Chain, i: nat, depth: nat, stack: set<Key>,
                                       s: Walk)
    requires Keyed(table) && c.bound.key in table && table[c.bound.key] == c && i < |c.rules| && depth <= MAX_DEPTH
    requires RuleMatches(ctx, c.rules[i]) == (true, true) && c.rules[i].action == "jump"
    requires Callable(table, c, c.bound.key.(name := c.rules[i].jump))
    ensures ReachesOnly(table, s, WalkRules(ctx, table, c, i, depth, stack, s).0)
    decreases MAX_DEPTH + 1 - depth, 0, |c.rules| - i, 0
  {
    var r := c.rules[i];
    JumpWalks(ctx, table, c, i, depth, stack, s);
    var callee := table[c.bound.key.(name := r.jump)];
    assert Called(table, callee.bound.key);
    var entered := s.(taken := s.taken + Operand(r));
    ChainReaches(ctx, table, callee, depth + 1, stack, entered);
    RulesReach(ctx, table, c, i + 1, depth, stack, WalkChain(ctx, table, callee, depth + 1, stack, entered).0);
  }

  /** A walk of a chain reaches that chain and otherwise only chains that are jumped to. */
  lemma {:induction false} ChainReaches(ctx: Context, table: ChainTable, c: Chain, depth: nat, stack: set<Key>, s: Walk)
    requires Keyed(table) && c.bound.key in table && table[c.bound.key] == c
    ensures forall k :: k in WalkChain(ctx, table, c, depth, stack, s).0.reached ==>
              k in s.reached || k == c.bound.key || Called(table, k)
    decreases if depth <= MAX_DEPTH then MAX_DEPTH + 1 - depth else 0, 1, 0
  {
    if depth <= MAX_DEPTH {
      RulesReach(ctx, table, c, 0, depth, stack + {c.bound.key}, s.(reached := s.reached + {c.bound.key}));
    }
  }

  /** The chain is a walked base chain or is jumped to. */
  predicate Reachable(table: ChainTable, roots: seq<Chain>, k: Key) {
    Called(table, k) || exists c :: c in roots && c.bound.key == k
  }

  ghost predicate Bases(table: ChainTable, roots: seq<Chain>) {
    && Keyed(table)
    && forall i :: 0 <= i < |roots| ==> roots[i].bound.key in table && table[roots[i].bound.key] == roots[i]
  }

  ghost predicate PassReaches(table: ChainTable, roots: seq<Chain>, s: Walk, t: Walk) {
    forall k :: k in t.reached ==> k in s.reached || Reachable(table, roots, k)
  }

  lemma {:induction false} ClassifyReaches(ctx: Context, table: ChainTable, roots: seq<Chain>, acc: Pass)
    requires Bases(table, roots)
    ensures PassReaches(table, roots, acc.walk, Classify(ctx, table, roots, acc).walk)
    decreases |roots|
  {
    if roots != [] {
      var c, rest := roots[0], roots[1..];
      assert roots == [c] + rest;
      if c.bound.role == Classifier && c.bound.hook == "prerouting" {
        ChainReaches(ctx, table, c, 1, {}, acc.walk);
        ClassifyReaches(ctx, table, rest, acc.(walk := WalkChain(ctx, table, c, 1, {}, acc.walk).0));
      } else {
        ClassifyReaches(ctx, table, rest, if c.bound.role != Classifier then acc else acc.(supported := false));
      }
    }
  }

  lemma {:induction false} ForwardReaches(ctx: Context, table: ChainTable, roots: seq<Chain>, acc: Pass)
    requires Bases(table, roots)
    ensures PassReaches(table, roots, acc.walk, Forward(ctx, table, roots, acc).walk)
    decreases |roots|
  {
    if roots != [] {
      var c, rest := roots[0], roots[1..];
      assert roots == [c] + rest;
      if c.bound.role != Classifier && c.bound.hook == "forward" {
        ChainReaches(ctx, table, c, 1, {}, acc.walk);
        var (t, answer) := WalkChain(ctx, table, c, 1, {}, acc.walk);
        ForwardReaches(ctx, table, rest, Next(c, acc, t, answer));
      } else {
        ForwardReaches(ctx, table, rest, if c.bound.role == Classifier then acc else acc.(supported := false));
      }
    }
  }

  lemma {:induction false} ForwardSeen(ctx: Context, table: ChainTable, roots: seq<Chain>, acc: Pass)
    requires Forward(ctx, table, roots, acc).supported
    ensures Forward(ctx, table, roots, acc).forwardSeen <==>
            acc.forwardSeen || exists c :: c in roots && c.bound.role == Forwarding
    decreases |roots|
  {
    if roots != [] {
      var c, rest := roots[0], roots[1..];
      assert roots == [c] + rest;
      if c.bound.role == Classifier {
        ForwardSeen(ctx, table, rest, acc);
      } else if c.bound.hook != "forward" {
        ForwardGrows(ctx, table, rest, acc.(supported := false));
      } else {
        var (t, answer) := WalkChain(ctx, table, c, 1, {}, acc.walk);
        ForwardGrows(ctx, table, rest, Next(c, acc, t, answer));
        ForwardSeen(ctx, table, rest, Next(c, acc, t, answer));
      }
    }
  }

  lemma {:induction false} ClassifySeesNone(ctx: Context, table: ChainTable, roots: seq<Chain>, acc: Pass)
    ensures Classify(ctx, table, roots, acc).forwardSeen == acc.forwardSeen
  {
    if roots != [] {
      ClassifySeesNone(ctx, table, roots[1..], acc);
      ClassifySeesNone(ctx, table, roots[1..], acc.(supported := false));
      ClassifySeesNone(ctx, table, roots[1..], acc.(walk := WalkChain(ctx, table, roots[0], 1, {}, acc.walk).0));
    }
  }

  /**
   What the evidence says of itself. It is supported only when every registered chain is a base chain that is walked or
   is jumped to; it then tells about forwarding exactly when there is a forwarding base chain. What is missing is named:
   the route exactly when the mark is known and selects none, the policy exactly when the evidence is not supported.
   */
  lemma SupportedMeans(ctx: Context, table: ChainTable, roots: seq<Chain>, readable: bool, routing: Routing)
    requires Bases(table, roots)
    ensures var e := Conclude(ctx, table, roots, readable, routing);
            && (e.supported ==> readable && forall k :: k in table ==> Reachable(table, roots, k))
            && (e.forwarding.Some? <==> e.supported && exists c :: c in roots && c.bound.role == Forwarding)
            && (e.supported && e.markKnown ==> e.routed) && (!e.markKnown ==> e.mark == 0)
            && (NO_ROUTE in e.missing <==> e.markKnown && !e.routed) && (NO_POLICY in e.missing <==> !e.supported)
  {
    var begin, first := Pass(START, readable, false, true), Marked(ctx, table, roots, readable);
    var second := Second(ctx, first, routing);
    ClassifyGrows(ctx, table, roots, begin);
    ClassifyReaches(ctx, table, roots, begin);
    ClassifySeesNone(ctx, table, roots, begin);
    ForwardGrows(ctx, table, roots, second);
    ForwardReaches(ctx, table, roots, second);
    if Forward(ctx, table, roots, second).supported {
      ForwardSeen(ctx, table, roots, second);
    }
    assert NO_ROUTE[8] != NO_POLICY[8];
  }

  // ----- profiles the walk understands

  /** Selectors that name host addresses, or nothing. */
  predicate Understood(ctx: Context, r: Rule) {
    && r.valid && (r.source == "" || ctx.lib.address(r.source).Some? || HostPrefix(ctx, r.source))
    && (r.destination == "" || (r.destination[0] != '@' && ctx.lib.address(r.destination).Some?))
  }

  /** A rule of a chain that calls no other: a mark where marks may be set, an accept for every interface, or a drop. */
  predicate Plain(ctx: Context, c: Chain, r: Rule) {
    && Understood(ctx, r)
    && (|| (r.action == "mark" && Classifies(ctx, c, r)) || (r.action == "accept" && r.oifNot == "")
        || r.action == "drop" || r.action == "reject")
  }

  predicate Matches(ctx: Context, r: Rule) {
    RuleMatches(ctx, r).0
  }

  /** A rule that matches and ends the walk of its chain. */
  predicate Ends(ctx: Context, r: Rule) {
    Matches(ctx, r) && r.action != "mark" && r.oifNot == ""
  }

  /** The first rules up to one that sets the mark do not end the walk. */
  predicate Marks(ctx: Context, c: Chain, from: nat, at: nat) {
    && from <= at < |c.rules| && Matches(ctx, c.rules[at]) && c.rules[at].action == "mark"
    && forall k :: from <= k < at ==> !Ends(ctx, c.rules[k])
  }

  ghost predicate MarksFrom(ctx: Context, c: Chain, from: nat) {
    exists at: nat :: Marks(ctx, c, from, at)
  }

  predicate NeverDrops(ctx: Context, c: Chain) {
    && !c.policyDrop
    && forall i :: 0 <= i < |c.rules| && Matches(ctx, c.rules[i]) ==> c.rules[i].action !in {"drop", "reject"}
  }

  lemma UnderstoodIsKnown(ctx: Context, r: Rule)
    requires Understood(ctx, r)
    ensures RuleMatches(ctx, r).1
  {
  }

  /** What the walk of such a chain finds. */
  ghost predicate Finds(ctx: Context, c: Chain, from: nat, s: Walk, t: Walk, answer: Answer) {
    && answer.Known? && t.reached == s.reached
    && (t.markKnown <==> s.markKnown || MarksFrom(ctx, c, from))
    && (NeverDrops(ctx, c) ==> answer.flow != Dropped)
  }

  lemma {:induction false} PlainRules(ctx: Context, table: ChainTable, c: Chain, i: nat, depth: nat, stack: set<Key>,
                                      s: Walk)
    requires i <= |c.rules| && depth <= MAX_DEPTH && forall k :: 0 <= k < |c.rules| ==> Plain(ctx, c, c.rules[k])
    ensures var (t, answer) := WalkRules(ctx, table, c, i, depth, stack, s); Finds(ctx, c, i, s, t, answer)
    decreases |c.rules| - i
  {
    if i < |c.rules| {
      var r := c.rules[i];
      UnderstoodIsKnown(ctx, r);
      MarksFirst(ctx, c, i);
      if !Matches(ctx, r) {
        PlainRules(ctx, table, c, i + 1, depth, stack, s);
      } else if r.action == "mark" {
        PlainRules(ctx, table, c, i + 1, depth, stack, s.(mark := r.mark, markKnown := true));
      } else if r.oifNot != "" {
        var seen := s.(guard := s.guard || GuardsPath(ctx, c, r));
        PlainRules(ctx, table, c, i + 1, depth, stack, seen.(skipped := s.skipped + {r.oifNot}));
      }
    }
  }

  lemma MarksFirst(ctx: Context, c: Chain, i: nat)
    requires i < |c.rules|
    ensures MarksFrom(ctx, c, i) <==>
            || (Matches(ctx, c.rules[i]) && c.rules[i].action == "mark")
            || (!Ends(ctx, c.rules[i]) && MarksFrom(ctx, c, i + 1))
  {
    var next := i + 1;
    if Matches(ctx, c.rules[i]) && c.rules[i].action == "mark" {
      assert Marks(ctx, c, i, i);
    }
    if !Ends(ctx, c.rules[i]) && MarksFrom(ctx, c, next) {
      var at: nat :| Marks(ctx, c, next, at);
      assert Marks(ctx, c, i, at);
    }
    if MarksFrom(ctx, c, i) {
      var at: nat :| Marks(ctx, c, i, at);
      assert at > i ==> Marks(ctx, c, next, at);
    }
  }

  ghost predicate PlainChain(ctx: Context, c: Chain) {
    && c.valid && (forall k :: 0 <= k < |c.rules| ==> Plain(ctx, c, c.rules[k]))
    && (if c.bound.role == Classifier then c.bound.hook == "prerouting" && NeverDrops(ctx, c)
        else c.bound.hook == "forward")
  }

  ghost predicate AllPlain(ctx: Context, roots: seq<Chain>) {
    forall i :: 0 <= i < |roots| ==> PlainChain(ctx, roots[i])
  }

  ghost predicate SomeMarks(ctx: Context, roots: seq<Chain>) {
    exists c :: c in roots && c.bound.role == Classifier && MarksFrom(ctx, c, 0)
  }

  lemma PlainRoot(ctx: Context, table: ChainTable, c: Chain, s: Walk)
    requires PlainChain(ctx, c)
    ensures var (t, answer) := WalkChain(ctx, table, c, 1, {}, s);
            && answer.Known? && t.reached == s.reached + {c.bound.key}
            && (t.markKnown <==> s.markKnown || MarksFrom(ctx, c, 0))
            && (NeverDrops(ctx, c) ==> answer.flow != Dropped)
  {
    PlainRules(ctx, table, c, 0, 1, {} + {c.bound.key}, s.(reached := s.reached + {c.bound.key}));
  }

  lemma {:induction false} PlainClassify(ctx: Context, table: ChainTable, roots: seq<Chain>, acc: Pass)
    requires AllPlain(ctx, roots)
    ensures var r := Classify(ctx, table, roots, acc);
            && r.supported == acc.supported && (r.walk.markKnown <==> acc.walk.markKnown || SomeMarks(ctx, roots))
            && acc.walk.reached <= r.walk.reached
            && forall c :: c in roots && c.bound.role == Classifier ==> c.bound.key in r.walk.reached
    decreases |roots|
  {
    if roots != [] {
      var c, rest := roots[0], roots[1..];
      assert roots == [c] + rest;
      assert SomeMarks(ctx, roots) <==>
             (c.bound.role == Classifier && MarksFrom(ctx, c, 0)) || SomeMarks(ctx, rest);
      if c.bound.role != Classifier {
        PlainClassify(ctx, table, rest, acc);
      } else {
        PlainRoot(ctx, table, c, acc.walk);
        PlainClassify(ctx, table, rest, acc.(walk := WalkChain(ctx, table, c, 1, {}, acc.walk).0));
      }
    }
  }

  lemma {:induction false} PlainForward(ctx: Context, table: ChainTable, roots: seq<Chain>, acc: Pass)
    requires AllPlain(ctx, roots)
    ensures var r := Forward(ctx, table, roots, acc);
            && r.supported == acc.supported && acc.walk.reached <= r.walk.reached
            && forall c :: c in roots && c.bound.role != Classifier ==> c.bound.key in r.walk.reached
    decreases |roots|
  {
    if roots != [] {
      var c, rest := roots[0], roots[1..];
      assert roots == [c] + rest;
      if c.bound.role == Classifier {
        PlainForward(ctx, table, rest, acc);
      } else {
        PlainRoot(ctx, table, c, acc.walk);
        var (t, answer) := WalkChain(ctx, table, c, 1, {}, acc.walk);
        PlainForward(ctx, table, rest, Next(c, acc, t, answer));
      }
    }
  }

  /**
   A profile of base chains on the hooks of their roles, whose rules name hosts and call nothing, is supported exactly
   when a mark that is known selects a route, and its mark is known exactly when a classifier rule for the client sets
   one before the walk of its chain ends.
   */
  lemma PlainProfile(ctx: Context, table: ChainTable, roots: seq<Chain>, readable: bool, routing: Routing)
    requires readable && AllPlain(ctx, roots) && forall k :: k in table ==> exists c :: c in roots && c.bound.key == k
    ensures var e := Conclude(ctx, table, roots, readable, routing);
            && (e.markKnown <==> SomeMarks(ctx, roots)) && (e.supported <==> (e.markKnown ==> e.routed))
  {
    var begin, first := Pass(START, readable, false, true), Marked(ctx, table, roots, readable);
    var second := Second(ctx, first, routing);
    PlainClassify(ctx, table, roots, begin);
    PlainForward(ctx, table, roots, second);
    var reached := Forward(ctx, table, roots, second).walk.reached;
    forall k | k in table
      ensures k in reached
    {
      var c :| c in roots && c.bound.key == k;
    }
  }
}
