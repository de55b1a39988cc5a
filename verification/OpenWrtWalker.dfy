/** The walker as it runs: fields updated in place, one recursive method, and the reading of chain listings. */
module OpenWrtWalker {
  import opened Bytes
  import opened Nftables
  import opened OpenWrtRules
  import opened OpenWrtWalk
  import opened OpenWrtSound
  import opened OpenWrtNormalize
  import Sorting
  import RoutePolicy

  // ----- listings

  /** One entry of a chain listing, after JSON decoding. */
  datatype Entry =
    | MetaInfo
    | ChainEntry(key: Key, hook: string, kind: string, policy: string, priority: Option<int>)
    | RuleEntry(key: Key, exprs: seq<Expr>)
    | BadEntry

  const MAX_ENTRIES: nat := 258
  const MAX_EXPRS: nat := 32

  predicate GoodEntry(b: Bound, e: Entry) {
    match e
    case MetaInfo => true
    case ChainEntry(key, hook, kind, policy, priority) =>
      key == b.key && hook == b.hook
      && (b.hook != "" ==> kind == "filter" && priority == Some(b.priority) && (policy == "accept" || policy == "drop"))
    case RuleEntry(key, exprs) => key == b.key && |exprs| <= MAX_EXPRS
    case BadEntry => false
  }

  /** The rules of this chain in the listing. */
  function RulesOf(b: Bound, entries: seq<Entry>): seq<seq<Expr>> {
    if entries == [] then []
    else
      var last := entries[|entries| - 1];
      RulesOf(b, entries[..|entries| - 1]) + if last.RuleEntry? && GoodEntry(b, last) then [last.exprs] else []
  }

  /** The policies of the chain descriptions in the listing. */
  function Policies(entries: seq<Entry>): seq<string> {
    if entries == [] then []
    else
      var last := entries[|entries| - 1];
      Policies(entries[..|entries| - 1]) + if last.ChainEntry? then [last.policy] else []
  }

  /** A listing is readable when it is short, every entry belongs to the chain, and the chain is described once. */
  predicate ReadableListing(b: Bound, entries: seq<Entry>) {
    |entries| <= MAX_ENTRIES && |Policies(entries)| == 1 && forall i :: 0 <= i < |entries| ==> GoodEntry(b, entries[i])
  }

  /** The chain a listing describes: its rules one by one and its policy. */
  ghost predicate Describes(b: Bound, entries: seq<Entry>, c: Chain) {
    && c.bound == b && (c.valid <==> ReadableListing(b, entries))
    && (c.valid ==> c.policyDrop == (Policies(entries)[0] == "drop"))
    && (c.valid ==> |c.rules| == |RulesOf(b, entries)|)
    && (c.valid ==> forall i :: 0 <= i < |c.rules| ==> c.rules[i] == Parsed(RulesOf(b, entries)[i]))
  }

  /** A table read from listings of literal rules is the table soundness speaks about. */
  lemma ListingsRead(table: ChainTable, listings: map<Key, seq<Entry>>)
    requires forall k :: k in table ==>
               k in listings && table[k].bound.key == k && Describes(table[k].bound, listings[k], table[k])
               && forall i :: 0 <= i < |RulesOf(table[k].bound, listings[k])| ==>
                  LiteralRule(RulesOf(table[k].bound, listings[k])[i])
    ensures ReadFrom(table, map k | k in table :: RulesOf(table[k].bound, listings[k]))
  {
  }

  /** The description of a chain as registered: a base chain with type, priority and policy, or one that is not. */
  predicate DescribesBound(b: Bound, e: Entry) {
    && e.ChainEntry? && e.key == b.key && e.hook == b.hook
    && (b.hook == "" || (e.kind == "filter" && e.priority == Some(b.priority)
                         && (e.policy == "accept" || e.policy == "drop")))
  }

  function Listed(head: seq<Entry>, key: Key, rules: seq<seq<Expr>>): seq<Entry> {
    head + seq(|rules|, i requires 0 <= i < |rules| => RuleEntry(key, rules[i]))
  }

  /** A listing of meta information, one description and rules gives a valid chain of that policy and those rules. */
  lemma {:induction false} ListingReadsBack(b: Bound, head: seq<Entry>, at: nat, rules: seq<seq<Expr>>)
    requires at < |head| && DescribesBound(b, head[at]) && |head| + |rules| <= MAX_ENTRIES
    requires forall i :: 0 <= i < |head| && i != at ==> head[i] == MetaInfo
    requires forall i :: 0 <= i < |rules| ==> |rules[i]| <= MAX_EXPRS
    ensures ReadableListing(b, Listed(head, b.key, rules)) && RulesOf(b, Listed(head, b.key, rules)) == rules
    ensures Policies(Listed(head, b.key, rules)) == [head[at].policy]
    decreases |rules|
  {
    var all := Listed(head, b.key, rules);
    if rules == [] {
      assert all == head;
      HeadReads(b, head, at);
    } else {
      var n := |rules| - 1;
      assert all[..|all| - 1] == Listed(head, b.key, rules[..n]);
      ListingReadsBack(b, head, at, rules[..n]);
      assert rules[..n] + [rules[n]] == rules;
      assert forall i :: 0 <= i < |all| - 1 ==> all[i] == all[..|all| - 1][i];
    }
  }

  lemma {:induction false} HeadReads(b: Bound, head: seq<Entry>, at: nat)
    requires at < |head| <= MAX_ENTRIES && DescribesBound(b, head[at])
    requires forall i :: 0 <= i < |head| && i != at ==> head[i] == MetaInfo
    ensures ReadableListing(b, head) && RulesOf(b, head) == [] && Policies(head) == [head[at].policy]
  {
    var front := head[..|head| - 1];
    if at == |front| {
      OnlyMeta(b, front);
    } else {
      HeadReads(b, front, at);
    }
  }

  lemma {:induction false} OnlyMeta(b: Bound, entries: seq<Entry>)
    requires forall i :: 0 <= i < |entries| ==> entries[i] == MetaInfo
    ensures RulesOf(b, entries) == [] && Policies(entries) == []
  {
    if entries != [] {
      OnlyMeta(b, entries[..|entries| - 1]);
    }
  }

  /** Any other entry makes the chain invalid: of another chain, unknown, too long, or a second description. */
  lemma ListingHolds(b: Bound, entries: seq<Entry>)
    requires ReadableListing(b, entries)
    ensures |entries| <= MAX_ENTRIES && exists at :: 0 <= at < |entries| && OnlyDescription(b, entries, at)
  {
    var at := DescriptionIn(b, entries);
    assert OnlyDescription(b, entries, at);
  }

  predicate OnlyDescription(b: Bound, entries: seq<Entry>, at: nat) {
    && at < |entries| && DescribesBound(b, entries[at])
    && forall i :: 0 <= i < |entries| && i != at ==>
         entries[i] == MetaInfo
         || (entries[i].RuleEntry? && entries[i].key == b.key && |entries[i].exprs| <= MAX_EXPRS)
  }

  lemma {:induction false} DescriptionIn(b: Bound, entries: seq<Entry>) returns (at: nat)
    requires |Policies(entries)| == 1 && forall i :: 0 <= i < |entries| ==> GoodEntry(b, entries[i])
    ensures OnlyDescription(b, entries, at)
    decreases |entries|
  {
    var n := |entries| - 1;
    if entries[n].ChainEntry? {
      NoDescription(entries[..n]);
      at := n;
    } else {
      at := DescriptionIn(b, entries[..n]);
      assert forall i :: 0 <= i < n ==> entries[i] == entries[..n][i];
    }
    assert forall i :: 0 <= i < n ==> GoodEntry(b, entries[i]);
  }

  lemma {:induction false} NoDescription(entries: seq<Entry>)
    requires Policies(entries) == []
    ensures forall i :: 0 <= i < |entries| ==> !entries[i].ChainEntry?
  {
    if entries != [] {
      NoDescription(entries[..|entries| - 1]);
      assert forall i :: 0 <= i < |entries| - 1 ==> entries[i] == entries[..|entries| - 1][i];
    }
  }

  /** What has been read of a listing: its rules so far, the last policy, and how many descriptions of the chain. */
  ghost predicate SoFar(b: Bound, entries: seq<Entry>, c: Chain, metadata: nat) {
    && c.bound == b && metadata == |Policies(entries)| && |c.rules| == |RulesOf(b, entries)|
    && (c.valid <==> forall j :: 0 <= j < |entries| ==> GoodEntry(b, entries[j]))
    && (forall k :: 0 <= k < |c.rules| ==> c.rules[k] == Parsed(RulesOf(b, entries)[k]))
    && (metadata > 0 ==> c.policyDrop == (Policies(entries)[metadata - 1] == "drop"))
  }

  /** After one more entry. */
  function After(b: Bound, c: Chain, e: Entry): Chain {
    match e
    case RuleEntry(_, exprs) =>
      if GoodEntry(b, e) then c.(rules := c.rules + [Parsed(exprs)]) else c.(valid := false)
    case ChainEntry(_, _, _, policy, _) => c.(valid := c.valid && GoodEntry(b, e), policyDrop := policy == "drop")
    case _ => c.(valid := c.valid && GoodEntry(b, e))
  }

  lemma ReadOn(b: Bound, front: seq<Entry>, e: Entry, c: Chain, metadata: nat)
    requires SoFar(b, front, c, metadata)
    ensures SoFar(b, front + [e], After(b, c, e), metadata + if e.ChainEntry? then 1 else 0)
  {
    var all := front + [e];
    assert all[..|all| - 1] == front;
    assert forall j :: 0 <= j < |front| ==> all[j] == front[j];
    assert all[|front|] == e;
  }

  method ParseChain(b: Bound, entries: seq<Entry>) returns (c: Chain)
    ensures Describes(b, entries, c)
  {
    c := Chain(b, false, [], true);
    if |entries| > MAX_ENTRIES {
      return c.(valid := false);
    }
    var metadata := 0;
    var i := 0;
    while i < |entries|
      invariant 0 <= i <= |entries| && SoFar(b, entries[..i], c, metadata)
    {
      assert entries[..i + 1] == entries[..i] + [entries[i]];
      ReadOn(b, entries[..i], entries[i], c, metadata);
      match entries[i] {
        case MetaInfo =>
        case ChainEntry(key, hook, kind, policy, priority) =>
          if key != b.key || hook != b.hook
             || (b.hook != "" && (kind != "filter" || priority != Some(b.priority)
                                  || (policy != "accept" && policy != "drop")))
          {
            c := c.(valid := false);
          }
          metadata := metadata + 1;
          c := c.(policyDrop := policy == "drop");
        case RuleEntry(key, exprs) =>
          if key != b.key || |exprs| > MAX_EXPRS {
            c := c.(valid := false);
          } else {
            var r := ParseRule(exprs);
            c := c.(rules := c.rules + [r]);
          }
        case BadEntry =>
          c := c.(valid := false);
      }
      i := i + 1;
    }
    assert entries[..i] == entries;
    c := c.(valid := c.valid && metadata == 1);
  }

  // ----- the walker

  class Walker {
    const ctx: Context
    const table: ChainTable
    var mark: nat
    var markKnown: bool
    var guard: bool
    var reached: set<Key>
    ghost var skipped: set<string>
    ghost var taken: set<string>

    constructor (c: Context, t: ChainTable)
      ensures ctx == c && table == t && State() == START
    {
      ctx, table := c, t;
      mark, markKnown, guard, reached := 0, false, false, {};
      skipped, taken := {}, {};
    }

    ghost function State(): Walk
      reads this
    {
      Walk(mark, markKnown, guard, reached, skipped, taken)
    }

    /** Walks one chain; a chain that jumps back into itself, directly or not, is unknown. */
    method Run(c: Chain, depth: nat, stack: set<Key>) returns (answer: Answer)
      modifies this
      ensures (State(), answer) == WalkChain(ctx, table, c, depth, stack, old(State()))
      decreases if depth <= MAX_DEPTH then MAX_DEPTH + 1 - depth else 0, 1
    {
      var key := c.bound.key;
      if depth > MAX_DEPTH || key in stack || !c.valid {
        return Unknown;
      }
      reached := reached + {key};
      var i := 0;
      while i < |c.rules|
        invariant 0 <= i <= |c.rules|
        invariant WalkChain(ctx, table, c, depth, stack, old(State())) ==
                  WalkRules(ctx, table, c, i, depth, stack + {key}, State())
      {
        var done;
        done, answer := Apply(c, i, depth, stack + {key});
        if done {
          return;
        }
        i := i + 1;
      }
      if c.bound.hook != "" && c.policyDrop {
        return Known(Dropped);
      }
      return Known(Returned);
    }

    /** One rule: it ends the walk of its chain with an answer, or the walk goes on behind it. */
    method Apply(c: Chain, i: nat, depth: nat, stack: set<Key>) returns (done: bool, answer: Answer)
      requires i < |c.rules| && depth <= MAX_DEPTH
      modifies this
      ensures WalkRules(ctx, table, c, i, depth, stack, old(State())) ==
              if done then (State(), answer) else WalkRules(ctx, table, c, i + 1, depth, stack, State())
      decreases MAX_DEPTH + 1 - depth, 0
    {
      var r := c.rules[i];
      var (matches, known) := RuleMatches(ctx, r);
      if !known {
        return true, Unknown;
      }
      if !matches {
        return false, Unknown;
      }
      if r.action == "mark" {
        if c.bound.role != Classifier || r.source == "" || r.destination == "" || r.ingress == "" || r.oifNot != ""
           || !ctx.sourceLogical
        {
          return true, Unknown;
        }
        mark := r.mark;
        markKnown := true;
        return false, Unknown;
      }
      if r.action == "jump" {
        var callee := c.bound.key.(name := r.jump);
        if callee !in table || table[callee].bound.hook != "" || table[callee].bound.role != c.bound.role {
          return true, Unknown;
        }
        JumpWalks(ctx, table, c, i, depth, stack, State());
        taken := taken + Operand(r);
        answer := Run(table[callee], depth + 1, stack);
        return answer != Known(Returned), answer;
      }
      if r.action == "return" {
        if c.bound.hook != "" {
          return true, Unknown;
        }
        taken := taken + Operand(r);
        return true, Known(Returned);
      }
      if r.action == "accept" {
        return true, if r.oifNot != "" then Unknown else Known(Accepted);
      }
      if r.action == "drop" || r.action == "reject" {
        if GuardsPath(ctx, c, r) {
          guard := true;
        }
        if r.oifNot == "" {
          return true, Known(Dropped);
        }
        skipped := skipped + {r.oifNot};
        return false, Unknown;
      }
      return true, Unknown;
    }
  }

  /** The first pass: classifier base chains in order, until one is unknown or drops. */
  method MarkPass(x: Walker, roots: seq<Chain>, readable: bool) returns (supported: bool)
    requires x.State() == START
    modifies x
    ensures Pass(x.State(), supported, false, true) == Marked(x.ctx, x.table, roots, readable)
  {
    supported := readable;
    ghost var whole := Marked(x.ctx, x.table, roots, readable);
    var i := 0;
    while i < |roots|
      invariant 0 <= i <= |roots|
      invariant whole == Classify(x.ctx, x.table, roots[i..], Pass(x.State(), supported, false, true))
    {
      var root := roots[i];
      assert roots[i..][0] == root && roots[i..][1..] == roots[i + 1..];
      i := i + 1;
      if root.bound.role != Classifier {
        continue;
      }
      if root.bound.hook != "prerouting" {
        supported := false;
        continue;
      }
      var answer := x.Run(root, 1, {});
      if answer.Unknown? {
        x.markKnown := false;
        return false;
      }
      if answer.flow == Dropped {
        x.markKnown := false;
        return;
      }
    }
    assert roots[i..] == [];
  }

  /** The second pass: all other base chains. */
  method ForwardPass(x: Walker, roots: seq<Chain>, start: bool) returns (supported: bool, seen: bool, allowed: bool)
    modifies x
    ensures Pass(x.State(), supported, seen, allowed) ==
            Forward(x.ctx, x.table, roots, Pass(old(x.State()), start, false, true))
  {
    supported, seen, allowed := start, false, true;
    ghost var whole := Forward(x.ctx, x.table, roots, Pass(x.State(), start, false, true));
    var i := 0;
    while i < |roots|
      invariant 0 <= i <= |roots|
      invariant whole == Forward(x.ctx, x.table, roots[i..], Pass(x.State(), supported, seen, allowed))
    {
      var root := roots[i];
      assert roots[i..][0] == root && roots[i..][1..] == roots[i + 1..];
      i := i + 1;
      if root.bound.role == Classifier {
        continue;
      }
      if root.bound.hook != "forward" {
        supported := false;
        continue;
      }
      var answer := x.Run(root, 1, {});
      if answer.Unknown? {
        supported := false;
        continue;
      }
      if root.bound.role == Forwarding {
        seen := true;
        if answer.flow == Dropped {
          allowed := false;
        }
      }
    }
    assert roots[i..] == [];
  }

  /** The device policy routing selects for a mark that is known, and whether it is the VPN's. */
  method SelectRoute(ctx: Context, routing: Routing, marked: bool, mark: nat) returns (device: Option<string>,
                                                                                       vpn: bool)
    ensures device == if marked then Device(ctx, routing, mark) else None
    ensures vpn == (device.Some? && ctx.boundVpn && ctx.vpnInterface != "" && device.value == ctx.vpnInterface)
  {
    device, vpn := None, false;
    if marked {
      device := RoutePolicy.Explain(ctx.lib, routing.route, routing.rows,
                                    RoutePolicy.Asked(ctx.source, ctx.target, ctx.ingress, mark));
      if device.Some? {
        vpn := ctx.boundVpn && ctx.vpnInterface != "" && device.value == ctx.vpnInterface;
      }
    }
  }

  /**
   The evidence for base chains read in any order: sorted, walked in two passes, and unsupported when two of them
   have the same hook and priority.
   */
  method Normalize(ctx: Context, table: ChainTable, order: seq<Chain>, routing: Routing) returns (e: Evidence)
    ensures e == Evidenced(ctx, table, order, routing)
  {
    var roots := Sorting.Sort(order, Rank);
    var readable := Readable(table, roots);
    var x := new Walker(ctx, table);
    var supported := MarkPass(x, roots, readable);
    var marked := supported && x.markKnown;
    var mark := if marked then x.mark else 0;
    var device, vpn := SelectRoute(ctx, routing, marked, mark);
    var missing: seq<string> := [];
    if marked && device.None? {
      supported := false;
      missing := missing + [NO_ROUTE];
    }
    x.skipped := {};
    assert Pass(x.State(), supported, false, true) == Second(ctx, Marked(ctx, table, roots, readable), routing);
    var seen, allowed;
    supported, seen, allowed := ForwardPass(x, roots, supported);
    supported := supported && table.Keys <= x.reached;
    if !supported {
      missing := missing + [NO_POLICY];
    }
    return Evidence(marked, mark, device.Some?, vpn, x.guard, if seen && supported then Some(allowed)
                    else None, supported,
                    routing.closed && supported && marked && device.Some?, missing);
  }
}
