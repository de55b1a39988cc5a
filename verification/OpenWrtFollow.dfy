/**
 What readable chains do with one packet, decided rule by rule for the interface it leaves by; that this is what the
 kernel does; and how far the code's walk, which looks at no output interface, agrees with it.
 */
module OpenWrtFollow {
  import opened Bytes
  import opened Nftables
  import opened OpenWrtRules
  import opened OpenWrtWalk
  import opened OpenWrtSound

  // ----- following a packet

  /** Whether an address selector holds, where its text says so. */
  function AddressIs(ctx: Context, text: string, want: string): Option<bool> {
    if text == "" then Some(true)
    else if ctx.lib.address(text).Some? then Some(text == want)
    else
      match ctx.lib.prefix(text)
      case None => None
      case Some((base, bits)) =>
        if bits > 32 || ctx.lib.address(want).None? then None
        else Some(InPrefix(base, bits, ctx.lib.address(want).value))
  }

  /** The same for the destination, which may be the set whose members the sample knows. */
  function DestinationIs(ctx: Context, text: string): Option<bool> {
    if text == "" || text[0] != '@' then AddressIs(ctx, text, ctx.target)
    else if ctx.setName.None? || text != "@" + ctx.setName.value || !ctx.setKnown then None
    else Some(ctx.setMember)
  }

  /** A rule that is not for packets leaving by oif. */
  predicate PassesBy(r: Rule, oif: string) {
    r.oifNot != "" && r.oifNot == oif
  }

  /** Whether a rule applies to the client's packets that leave by oif. */
  function Applies(ctx: Context, oif: string, r: Rule): Option<bool> {
    if !r.valid then None
    else
      var s, d := AddressIs(ctx, r.source, ctx.source), DestinationIs(ctx, r.destination);
      if PassesBy(r, oif) || (r.ingress != "" && !NameTest(r.ingress, ctx.ingress)) || s == Some(false)
        || d == Some(false)
      then Some(false)
      else if s.None? || d.None? then None
      else Some(true)
  }

  /**
   The remaining rules of a chain, for packets leaving by oif. None where it comes upon a rule that cannot be decided, a
   chain that is not readable, or calls nested deeper than the limit.
   */
  function Follow(ctx: Context, oif: string, table: ChainTable, key: Key, rules: seq<Rule>, mark: nat, limit: nat)
    : Option<(Flow, nat)>
    decreases limit, |rules|
  {
    if rules == [] then Some((Returned, mark))
    else
      match Applies(ctx, oif, rules[0])
      case None => None
      case Some(false) => Follow(ctx, oif, table, key, rules[1..], mark, limit)
      case Some(true) =>
        match EffectOf(rules[0], mark)
        case Continue(m) => Follow(ctx, oif, table, key, rules[1..], m, limit)
        case Decide(flow, m) => Some((flow, m))
        case Call(target, m) =>
          var callee := key.(name := target);
          if limit == 0 || callee !in table || !table[callee].valid then None
          else
            match Follow(ctx, oif, table, callee, table[callee].rules, m, limit - 1)
            case Some((Returned, back)) => Follow(ctx, oif, table, key, rules[1..], back, limit)
            case other => other
  }

  // ----- it is what the kernel does

  /** What is assumed of the rest of the world. */
  ghost predicate Setting(ctx: Context, w: World, table: ChainTable, listed: Chains, p: Packet) {
    ReadFrom(table, listed) && Faithful(ctx, w, p)
  }

  lemma AddressIsTrue(ctx: Context, w: World, p: Packet, text: string, a: Ip, e: Expr)
    requires ctx.lib == w.lib && Lawful(w.lib) && text != ""
    ensures var holds := AddressIs(ctx, text, w.lib.text(a));
            holds.Some? ==> holds.value == AddressTest(w, e, text, a, p)
  {
    assert w.lib.address(w.lib.text(a)) == Some(a);
  }

  lemma AppliesSound(ctx: Context, w: World, p: Packet, r: Rule)
    requires Faithful(ctx, w, p) && Applies(ctx, p.oif, r).Some?
    ensures r.valid && (Applies(ctx, p.oif, r).value <==> Selects(w, r, p) && OutputHolds(r, p))
  {
    if r.source != "" {
      AddressIsTrue(ctx, w, p, r.source, p.src, Match("==", Payload("ip", "saddr"), r.source));
    }
    if r.destination != "" {
      if r.destination[0] != '@' {
        AddressIsTrue(ctx, w, p, r.destination, p.dst, Match("==", Payload("ip", "daddr"), r.destination));
      } else if ctx.setName.Some? && r.destination == "@" + ctx.setName.value {
        assert r.destination[1..] == ctx.setName.value;
      }
    }
  }

  /** Wherever a packet can be followed, chain traversal does the same with it. */
  lemma {:induction false} FollowSound(ctx: Context, w: World, table: ChainTable, listed: Chains, p: Packet,
                                       key: Key, rules: seq<Rule>, list: seq<seq<Expr>>, mark: nat, limit: nat)
    requires Setting(ctx, w, table, listed, p) && SameRules(rules, list)
    requires Follow(ctx, p.oif, table, key, rules, mark, limit).Some?
    ensures Traverse(w, listed, key, list, p, mark, limit) == Follow(ctx, p.oif, table, key, rules, mark, limit)
    decreases limit, |rules|
  {
    if rules != [] {
      var r := rules[0];
      AppliesSound(ctx, w, p, r);
      RuleMeaning(w, list[0], p, mark);
      assert SameRules(rules[1..], list[1..]);
      if !Applies(ctx, p.oif, r).value {
        FollowSound(ctx, w, table, listed, p, key, rules[1..], list[1..], mark, limit);
      } else {
        match EffectOf(r, mark) {
          case Continue(m) => FollowSound(ctx, w, table, listed, p, key, rules[1..], list[1..], m, limit);
          case Decide(_, _) =>
          case Call(target, m) =>
            var callee := key.(name := target);
            FollowSound(ctx, w, table, listed, p, callee, table[callee].rules, listed[callee], m, limit - 1);
            var got := Follow(ctx, p.oif, table, callee, table[callee].rules, m, limit - 1);
            if got.value.0 == Returned {
              FollowSound(ctx, w, table, listed, p, key, rules[1..], list[1..], got.value.1, limit);
            }
        }
      }
    }
  }

  // ----- one base chain

  /** The base chain as the kernel runs it. */
  function Kernel(w: World, listed: Chains, c: Chain, p: Packet, mark: nat): Option<(Flow, nat)> {
    if c.bound.key in listed then Base(w, listed, c.bound.key, c.policyDrop, p, mark, MAX_DEPTH) else None
  }

  predicate Root(table: ChainTable, c: Chain) {
    c.bound.key in table && table[c.bound.key] == c && c.bound.hook != ""
  }

  datatype Reading = Open | Stops | Passes(mark: nat)

  /** What is read of one base chain for packets that leave by oif and come with a mark. */
  function ReadChain(ctx: Context, table: ChainTable, c: Chain, oif: string, mark: nat): Reading {
    if !c.valid then Open
    else
      match Follow(ctx, oif, table, c.bound.key, c.rules, mark, MAX_DEPTH)
      case None => Open
      case Some((flow, m)) => if flow == Dropped || (flow == Returned && c.policyDrop) then Stops else Passes(m)
  }

  /** What is read of a base chain is what the kernel does, for every packet. */
  lemma ReadingExact(ctx: Context, w: World, table: ChainTable, listed: Chains, p: Packet, c: Chain, mark: nat)
    requires Setting(ctx, w, table, listed, p) && Root(table, c) && !ReadChain(ctx, table, c, p.oif, mark).Open?
    ensures Kernel(w, listed, c, p, mark).Some?
    ensures match ReadChain(ctx, table, c, p.oif, mark)
            case Passes(m) => Kernel(w, listed, c, p, mark) == Some((Accepted, m))
            case _ => Kernel(w, listed, c, p, mark).value.0 == Dropped
  {
    FollowSound(ctx, w, table, listed, p, c.bound.key, c.rules, listed[c.bound.key], mark, MAX_DEPTH);
  }

  // ----- the code's walk

  /** No pattern in the table covers the client's interface. */
  ghost predicate Uncovered(ctx: Context, table: ChainTable) {
    && (forall k :: k in table ==> table[k].bound.key == k)
    && forall k, i :: k in table && 0 <= i < |table[k].rules| ==> !Covers(table[k].rules[i].ingress, ctx.ingress)
  }

  function WithPolicy(c: Chain, flow: Flow): Flow {
    if flow == Returned && c.bound.hook != "" && c.policyDrop then Dropped else flow
  }

  ghost predicate MarkAgrees(s: Walk, mark: nat) {
    s.markKnown ==> mark == s.mark
  }

  /**
   What the code's answer says of packets leaving by oif: by the interface of every drop that was stepped over, the
   answer and the mark, if the walk knows one; by any other, a drop.
   */
  ghost predicate Says(c: Chain, t: Walk, answer: Answer, oif: string, flow: Flow, mark: nat) {
    answer.Known? &&
    if t.skipped <= {oif} then WithPolicy(c, flow) == answer.flow && MarkAgrees(t, mark) else flow == Dropped
  }

  /** A match the code knows can be decided, and is what the code says but for the output interface. */
  lemma MatchApplies(ctx: Context, w: World, p: Packet, r: Rule)
    requires Faithful(ctx, w, p) && RuleMatches(ctx, r).1 && !Covers(r.ingress, p.iif)
    ensures Applies(ctx, p.oif, r) == Some(RuleMatches(ctx, r).0 && !PassesBy(r, p.oif))
  {
    assert w.lib.address(w.lib.text(p.src)) == Some(p.src) && w.lib.address(w.lib.text(p.dst)) == Some(p.dst);
    MatchSound(ctx, w, p, r);
    KnownDecides(ctx, w, p, r);
    AppliesSound(ctx, w, p, r);
  }

  lemma KnownDecides(ctx: Context, w: World, p: Packet, r: Rule)
    requires Faithful(ctx, w, p) && RuleMatches(ctx, r).1 && !Covers(r.ingress, p.iif)
    ensures Applies(ctx, p.oif, r).Some?
  {
    HostDecides(ctx, w, r.source, p.src);
    HostDecides(ctx, w, r.destination, p.dst);
  }

  /** A text the code compares as an address decides, and if it names another host it excludes. */
  lemma HostDecides(ctx: Context, w: World, text: string, a: Ip)
    requires ctx.lib == w.lib && Lawful(w.lib)
    ensures var want := w.lib.text(a);
            && (text == "" || SameAddress(ctx, text, want) ==> AddressIs(ctx, text, want) == Some(true))
            && (text != "" && !SameAddress(ctx, text, want) && (w.lib.address(text).Some? || HostPrefix(ctx, text)) ==>
                  AddressIs(ctx, text, want) == Some(false))
  {
    assert w.lib.address(w.lib.text(a)) == Some(a);
    if HostPrefix(ctx, text) {
      var base := w.lib.prefix(text).value.0;
      assert w.lib.address(w.lib.text(base)) == Some(base);
      assert Pow2(0) == 1;
    }
  }

  /**
   The code's walk from any rule on, when known: for packets leaving by an interface that no jump or return it took is
   not for, it says what following them gives.
   */
  lemma {:induction false} RulesFollowed(ctx: Context, w: World, p: Packet, table: ChainTable, c: Chain, i: nat,
                                         depth: nat, stack: set<Key>, s: Walk, mark: nat, limit: nat)
    requires Faithful(ctx, w, p) && Uncovered(ctx, table) && i <= |c.rules| && depth <= MAX_DEPTH
    requires c.bound.key in table && table[c.bound.key] == c
    requires MAX_DEPTH - depth <= limit && MarkAgrees(s, mark) && s.skipped <= {p.oif}
    requires var (t, answer) := WalkRules(ctx, table, c, i, depth, stack, s); answer.Known? && p.oif !in t.taken
    ensures var (t, answer) := WalkRules(ctx, table, c, i, depth, stack, s);
            var got := Follow(ctx, p.oif, table, c.bound.key, c.rules[i..], mark, limit);
            got.Some? && Says(c, t, answer, p.oif, got.value.0, got.value.1)
    decreases MAX_DEPTH + 1 - depth, 0, |c.rules| - i
  {
    if i < |c.rules| {
      var r := c.rules[i];
      assert c.rules[i..][0] == r && c.rules[i..][1..] == c.rules[i + 1..];
      MatchApplies(ctx, w, p, r);
      if !RuleMatches(ctx, r).0 {
        RulesFollowed(ctx, w, p, table, c, i + 1, depth, stack, s, mark, limit);
      } else if r.action == "mark" {
        var marked := s.(mark := r.mark, markKnown := true);
        RulesFollowed(ctx, w, p, table, c, i + 1, depth, stack, marked, r.mark, limit);
      } else if r.action == "jump" {
        JumpFollowed(ctx, w, p, table, c, i, depth, stack, s, mark, limit);
      } else if r.action == "drop" || r.action == "reject" {
        DropFollowed(ctx, w, p, table, c, i, depth, stack, s, mark, limit);
      }
    }
  }

  /** A drop, or one for other interfaces that is stepped over. */
  lemma {:induction false} DropFollowed(ctx: Context, w: World, p: Packet, table: ChainTable, c: Chain, i: nat,
                                        depth: nat, stack: set<Key>, s: Walk, mark: nat, limit: nat)
    requires Faithful(ctx, w, p) && Uncovered(ctx, table) && i < |c.rules| && depth <= MAX_DEPTH
    requires c.bound.key in table && table[c.bound.key] == c
    requires MAX_DEPTH - depth <= limit && MarkAgrees(s, mark) && s.skipped <= {p.oif}
    requires RuleMatches(ctx, c.rules[i]) == (true, true) && c.rules[i].action in {"drop", "reject"}
    requires Applies(ctx, p.oif, c.rules[i]) == Some(!PassesBy(c.rules[i], p.oif))
    requires var (t, answer) := WalkRules(ctx, table, c, i, depth, stack, s); answer.Known? && p.oif !in t.taken
    ensures var (t, answer) := WalkRules(ctx, table, c, i, depth, stack, s);
            var got := Follow(ctx, p.oif, table, c.bound.key, c.rules[i..], mark, limit);
            got.Some? && Says(c, t, answer, p.oif, got.value.0, got.value.1)
    decreases MAX_DEPTH + 1 - depth, 0, |c.rules| - i, 0
  {
    var r := c.rules[i];
    assert c.rules[i..][0] == r && c.rules[i..][1..] == c.rules[i + 1..];
    if r.oifNot != "" {
      var over := s.(guard := s.guard || GuardsPath(ctx, c, r), skipped := s.skipped + {r.oifNot});
      RulesGrow(ctx, table, c, i + 1, depth, stack, over);
      if p.oif == r.oifNot {
        RulesFollowed(ctx, w, p, table, c, i + 1, depth, stack, over, mark, limit);
      }
    }
  }

  /** A jump: the chain it names, and where that decides nothing, the rest of this one. */
  lemma {:induction false} JumpFollowed(ctx: Context, w: World, p: Packet, table: ChainTable, c: Chain, i: nat,
                                        depth: nat, stack: set<Key>, s: Walk, mark: nat, limit: nat)
    requires Faithful(ctx, w, p) && Uncovered(ctx, table) && i < |c.rules| && depth <= MAX_DEPTH
    requires c.bound.key in table && table[c.bound.key] == c
    requires MAX_DEPTH - depth <= limit && MarkAgrees(s, mark) && s.skipped <= {p.oif}
    requires RuleMatches(ctx, c.rules[i]) == (true, true) && c.rules[i].action == "jump"
    requires Applies(ctx, p.oif, c.rules[i]) == Some(!PassesBy(c.rules[i], p.oif))
    requires var (t, answer) := WalkRules(ctx, table, c, i, depth, stack, s); answer.Known? && p.oif !in t.taken
    ensures var (t, answer) := WalkRules(ctx, table, c, i, depth, stack, s);
            var got := Follow(ctx, p.oif, table, c.bound.key, c.rules[i..], mark, limit);
            got.Some? && Says(c, t, answer, p.oif, got.value.0, got.value.1)
    decreases MAX_DEPTH + 1 - depth, 0, |c.rules| - i, 1
  {
    var r := c.rules[i];
    var k := c.bound.key.(name := r.jump);
    assert Callable(table, c, k);
    JumpWalks(ctx, table, c, i, depth, stack, s);
    var entered := s.(taken := s.taken + Operand(r));
    var (back, answer) := WalkChain(ctx, table, table[k], depth + 1, stack, entered);
    JumpTaken(ctx, table, c, i, depth, stack, s, p.oif);
    ChainFollowed(ctx, w, p, table, table[k], depth + 1, stack, entered, mark, limit - 1);
    CallFollows(ctx, p.oif, table, c.bound.key, c.rules, i, mark, limit);
    ReturnFollowed(ctx, w, p, table, c, i, depth, stack, table[k], back, answer,
                   Follow(ctx, p.oif, table, k, table[k].rules, mark, limit - 1), limit);
  }

  /** What a taken jump excludes stays excluded to the end of the walk. */
  lemma JumpTaken(ctx: Context, table: ChainTable, c: Chain, i: nat, depth: nat, stack: set<Key>, s: Walk, oif: string)
    requires i < |c.rules| && depth <= MAX_DEPTH
    requires RuleMatches(ctx, c.rules[i]) == (true, true) && c.rules[i].action == "jump"
    requires Callable(table, c, c.bound.key.(name := c.rules[i].jump))
    requires var (t, answer) := WalkRules(ctx, table, c, i, depth, stack, s); answer.Known? && oif !in t.taken
    ensures var r := c.rules[i];
            var (back, answer) := WalkChain(ctx, table, table[c.bound.key.(name := r.jump)], depth + 1, stack,
                                            s.(taken := s.taken + Operand(r)));
            answer.Known? && oif !in back.taken && !PassesBy(r, oif)
  {
    var r := c.rules[i];
    var k, entered := c.bound.key.(name := r.jump), s.(taken := s.taken + Operand(r));
    JumpWalks(ctx, table, c, i, depth, stack, s);
    ChainGrows(ctx, table, table[k], depth + 1, stack, entered);
    var (back, answer) := WalkChain(ctx, table, table[k], depth + 1, stack, entered);
    if answer == Known(Returned) {
      RulesGrow(ctx, table, c, i + 1, depth, stack, back);
    }
  }

  lemma CallFollows(ctx: Context, oif: string, table: ChainTable, key: Key, rules: seq<Rule>, i: nat, mark: nat,
                    limit: nat)
    requires i < |rules| && limit > 0 && Applies(ctx, oif, rules[i]) == Some(true) && rules[i].action == "jump"
    requires key.(name := rules[i].jump) in table && table[key.(name := rules[i].jump)].valid
    ensures var k := key.(name := rules[i].jump);
            var got := Follow(ctx, oif, table, k, table[k].rules, mark, limit - 1);
            Follow(ctx, oif, table, key, rules[i..], mark, limit) ==
            if got.Some? && got.value.0 == Returned then Follow(ctx, oif, table, key, rules[i + 1..], got.value.1,
                                                                limit)
            else got
  {
    assert rules[i..][0] == rules[i] && rules[i..][1..] == rules[i + 1..];
  }

  /** After the call: its verdict, or what follows the jump. */
  lemma {:induction false} ReturnFollowed(ctx: Context, w: World, p: Packet, table: ChainTable, c: Chain, i: nat,
                                          depth: nat, stack: set<Key>, callee: Chain, back: Walk, answer: Answer,
                                          got: Option<(Flow, nat)>, limit: nat)
    requires Faithful(ctx, w, p) && Uncovered(ctx, table) && i < |c.rules| && depth <= MAX_DEPTH
    requires c.bound.key in table && table[c.bound.key] == c && MAX_DEPTH - depth <= limit
    requires callee.bound.hook == "" && got.Some? && Says(callee, back, answer, p.oif, got.value.0, got.value.1)
    requires answer == Known(Returned) ==>
               var (t, last) := WalkRules(ctx, table, c, i + 1, depth, stack, back); last.Known? && p.oif !in t.taken
    ensures var (t, last) := if answer == Known(Returned) then WalkRules(ctx, table, c, i + 1, depth, stack, back)
                             else (back, answer);
            var end := if got.value.0 == Returned
                       then Follow(ctx, p.oif, table, c.bound.key, c.rules[i + 1..], got.value.1, limit) else got;
            end.Some? && Says(c, t, last, p.oif, end.value.0, end.value.1)
    decreases MAX_DEPTH + 1 - depth, 0, |c.rules| - i, 0
  {
    if answer == Known(Returned) {
      RulesGrow(ctx, table, c, i + 1, depth, stack, back);
      if got.value.0 == Returned {
        RulesFollowed(ctx, w, p, table, c, i + 1, depth, stack, back, got.value.1, limit);
      }
    }
  }

  lemma {:induction false} ChainFollowed(ctx: Context, w: World, p: Packet, table: ChainTable, c: Chain, depth: nat,
                                         stack: set<Key>, s: Walk, mark: nat, limit: nat)
    requires Faithful(ctx, w, p) && Uncovered(ctx, table) && c.bound.key in table && table[c.bound.key] == c
    requires MAX_DEPTH - depth <= limit && MarkAgrees(s, mark) && s.skipped <= {p.oif}
    requires var (t, answer) := WalkChain(ctx, table, c, depth, stack, s); answer.Known? && p.oif !in t.taken
    ensures var (t, answer) := WalkChain(ctx, table, c, depth, stack, s);
            var got := Follow(ctx, p.oif, table, c.bound.key, c.rules, mark, limit);
            c.valid && depth <= MAX_DEPTH && got.Some? && Says(c, t, answer, p.oif, got.value.0, got.value.1)
    decreases if depth <= MAX_DEPTH then MAX_DEPTH + 1 - depth else 0, 1, 0
  {
    assert c.rules[0..] == c.rules;
    RulesFollowed(ctx, w, p, table, c, 0, depth, stack + {c.bound.key}, s.(reached := s.reached + {c.bound.key}), mark,
                  limit);
  }

  /** What the code has for one base chain is what is read, for every interface that no jump or return it took names. */
  predicate Tells(t: Walk, answer: Answer, oif: string, read: Reading) {
    && !read.Open?
    && if t.skipped <= {oif} then (read.Stops? <==> answer == Known(Dropped))
                                  && (read.Passes? && t.markKnown ==> read.mark == t.mark)
       else read.Stops?
  }

  lemma RootReads(ctx: Context, w: World, p: Packet, table: ChainTable, c: Chain, s: Walk, mark: nat)
    requires Faithful(ctx, w, p) && Uncovered(ctx, table) && Root(table, c)
    requires MarkAgrees(s, mark) && s.skipped <= {p.oif}
    requires var (t, answer) := WalkChain(ctx, table, c, 1, {}, s); answer.Known? && p.oif !in t.taken
    ensures var (t, answer) := WalkChain(ctx, table, c, 1, {}, s);
            Tells(t, answer, p.oif, ReadChain(ctx, table, c, p.oif, mark))
  {
    ChainFollowed(ctx, w, p, table, c, 1, {}, s, mark, MAX_DEPTH);
  }

  /** The same of what the kernel does. */
  predicate Right(t: Walk, answer: Answer, oif: string, kernel: Option<(Flow, nat)>) {
    && kernel.Some?
    && var (flow, mark) := kernel.value;
       if t.skipped <= {oif} then (flow == Dropped <==> answer == Known(Dropped))
                                  && (flow == Accepted && t.markKnown ==> mark == t.mark)
       else flow == Dropped
  }

  /**
   What the code has for one base chain is right for a packet unless a jump or return it took names the packet's
   interface or a pattern covers its ingress; and where what the chain does can be read, it is right exactly when it
   tells that.
   */
  lemma RootExact(ctx: Context, w: World, table: ChainTable, listed: Chains, p: Packet, c: Chain, s: Walk, mark: nat)
    requires Setting(ctx, w, table, listed, p) && Root(table, c)
    requires MarkAgrees(s, mark) && s.skipped <= {p.oif} && WalkChain(ctx, table, c, 1, {}, s).1.Known?
    ensures var (t, answer) := WalkChain(ctx, table, c, 1, {}, s);
            var read, kernel := ReadChain(ctx, table, c, p.oif, mark), Kernel(w, listed, c, p, mark);
            && (Right(t, answer, p.oif, kernel) || p.oif in t.taken || !Uncovered(ctx, table))
            && (!read.Open? ==> (Right(t, answer, p.oif, kernel) <==> Tells(t, answer, p.oif, read)))
  {
    var (t, answer) := WalkChain(ctx, table, c, 1, {}, s);
    if Uncovered(ctx, table) && p.oif !in t.taken {
      RootReads(ctx, w, p, table, c, s, mark);
    }
    if !ReadChain(ctx, table, c, p.oif, mark).Open? {
      ReadingExact(ctx, w, table, listed, p, c, mark);
    }
  }
}
