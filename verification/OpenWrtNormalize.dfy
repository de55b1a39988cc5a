/**
 The evidence drawn from all chains of a profile and from policy routing, and what it says of the client's packets.
 */
module OpenWrtNormalize {
  import opened Bytes
  import opened Nftables
  import opened OpenWrtWalk
  import opened OpenWrtSound
  import Sorting
  import RoutePolicy

  const START := Walk(0, false, false, {}, {}, {})

  datatype Pass = Pass(walk: Walk, supported: bool, forwardSeen: bool, forwardAllowed: bool)

  /** Classifier base chains in order; stops at an unknown answer and at a drop, and then knows no mark. */
  function Classify(ctx: Context, table: ChainTable, roots: seq<Chain>, acc: Pass): Pass {
    if roots == [] then acc
    else if roots[0].bound.role != Classifier then Classify(ctx, table, roots[1..], acc)
    else if roots[0].bound.hook != "prerouting" then Classify(ctx, table, roots[1..], acc.(supported := false))
    else
      var (t, answer) := WalkChain(ctx, table, roots[0], 1, {}, acc.walk);
      if answer.Unknown? then acc.(walk := t.(markKnown := false), supported := false)
      else if answer.flow == Dropped then acc.(walk := t.(markKnown := false))
      else Classify(ctx, table, roots[1..], acc.(walk := t))
  }

  /** After the walk of one base chain on the forward hook. */
  function Next(c: Chain, acc: Pass, t: Walk, answer: Answer): Pass {
    if answer.Unknown? then acc.(walk := t, supported := false)
    else if c.bound.role == Forwarding then Pass(t, acc.supported, true, acc.forwardAllowed && answer.flow != Dropped)
    else acc.(walk := t)
  }

  /** All other base chains, which have to be on the forward hook. */
  function Forward(ctx: Context, table: ChainTable, roots: seq<Chain>, acc: Pass): Pass {
    if roots == [] then acc
    else if roots[0].bound.role == Classifier then Forward(ctx, table, roots[1..], acc)
    else if roots[0].bound.hook != "forward" then Forward(ctx, table, roots[1..], acc.(supported := false))
    else
      var (t, answer) := WalkChain(ctx, table, roots[0], 1, {}, acc.walk);
      Forward(ctx, table, roots[1..], Next(roots[0], acc, t, answer))
  }

  /** The routes and routing rules of the sample, and whether the sample was closed. */
  datatype Routing = Routing(route: seq<RoutePolicy.Route>, rows: seq<RoutePolicy.Row>, closed: bool)

  /** The device policy routing selects for the client's packets with a mark. */
  function Device(ctx: Context, routing: Routing, mark: nat): Option<string> {
    RoutePolicy.Device(ctx.lib, routing.route, routing.rows,
                       RoutePolicy.Asked(ctx.source, ctx.target, ctx.ingress, mark))
  }

  datatype Evidence = Evidence(markKnown: bool, mark: nat, routed: bool, vpn: bool, guard: bool,
                               forwarding: Option<bool>, supported: bool, coverage: bool, missing: seq<string>)

  const NO_ROUTE := "openwrt_rpdb_coverage"
  const NO_POLICY := "openwrt_unsupported_or_unreachable_policy"

  /** Base chains are walked by hook name, then by priority. */
  function HookRank(hook: string): nat {
    if hook == "forward" then 0 else if hook == "output" then 1 else 2
  }

  function Rank(c: Chain): int {
    HookRank(c.bound.hook) * 0x1_0000_0000 + c.bound.priority
  }

  predicate Tied(roots: seq<Chain>) {
    exists i, j :: 0 <= i < j < |roots| && Rank(roots[i]) == Rank(roots[j])
  }

  /** The first walk and its consequences, for base chains already in order. */
  function Marked(ctx: Context, table: ChainTable, roots: seq<Chain>, readable: bool): Pass {
    Classify(ctx, table, roots, Pass(START, readable, false, true))
  }

  /** Where the second walk starts; its history of drops stepped over is its own. */
  function Second(ctx: Context, first: Pass, routing: Routing): Pass {
    first.(supported := first.supported && (first.walk.markKnown ==> Device(ctx, routing, first.walk.mark).Some?),
           walk := first.walk.(skipped := {}))
  }

  /**
   What is known at the end: the mark, the route it selects, guards, forwarding, and whether all chains were covered.
   */
  function Conclude(ctx: Context, table: ChainTable, roots: seq<Chain>, readable: bool, routing: Routing): Evidence {
    var first := Marked(ctx, table, roots, readable);
    var marked := first.supported && first.walk.markKnown;
    var device := if marked then Device(ctx, routing, first.walk.mark) else None;
    var last := Forward(ctx, table, roots, Second(ctx, first, routing));
    var supported := last.supported && table.Keys <= last.walk.reached;
    Evidence(marked, if marked then first.walk.mark else 0, device.Some?,
             device.Some? && ctx.boundVpn && ctx.vpnInterface != "" && device.value == ctx.vpnInterface,
             last.walk.guard, if last.forwardSeen && supported then Some(last.forwardAllowed) else None, supported,
             routing.closed && supported && device.Some?,
             (if marked && device.None? then [NO_ROUTE] else []) + if supported then [] else [NO_POLICY])
  }

  predicate Readable(table: ChainTable, roots: seq<Chain>) {
    && table != map[] && !Tied(roots)
    && forall k :: k in table ==> k.family != "ip6" && table[k].valid
  }

  /** The evidence for base chains read in some order. */
  function Evidenced(ctx: Context, table: ChainTable, order: seq<Chain>, routing: Routing): Evidence {
    var roots := Sorting.Sort(order, Rank);
    Conclude(ctx, table, roots, Readable(table, roots), routing)
  }

  // ----- order

  /** The order in which the map of chains is read does not matter: without ties there is one order of base chains. */
  lemma RootsForgetMapOrder(a: seq<Chain>, b: seq<Chain>)
    requires multiset(a) == multiset(b)
    ensures Tied(Sorting.Sort(a, Rank)) <==> Tied(Sorting.Sort(b, Rank))
    ensures !Tied(Sorting.Sort(a, Rank)) ==> Sorting.Sort(a, Rank) == Sorting.Sort(b, Rank)
  {
    Sorting.SortSorts(a, Rank);
    Sorting.SortSorts(b, Rank);
    var x, y := Sorting.Sort(a, Rank), Sorting.Sort(b, Rank);
    if !Tied(x) {
      UntiedUnique(x, y);
    }
    if !Tied(y) {
      UntiedUnique(y, x);
    }
  }

  lemma UntiedUnique(x: seq<Chain>, y: seq<Chain>)
    requires Sorting.Sorted(x, Rank) && Sorting.Sorted(y, Rank) && multiset(x) == multiset(y) && !Tied(x)
    ensures x == y
  {
    assert Sorting.TellsApart(Rank, x);
    Sorting.SortedUnique(x, y, Rank);
  }

  predicate SeesGuard(ctx: Context, table: ChainTable, c: Chain) {
    c.bound.role != Classifier && c.bound.hook == "forward" && WalkChain(ctx, table, c, 1, {}, START).0.guard
  }

  /** Whatever else happens on the way, the second pass sees the guards of all its base chains. */
  lemma {:induction false} ForwardSeesGuards(ctx: Context, table: ChainTable, roots: seq<Chain>, acc: Pass)
    ensures Forward(ctx, table, roots, acc).walk.guard <==>
            acc.walk.guard || exists c :: c in roots && SeesGuard(ctx, table, c)
    decreases |roots|
  {
    if roots != [] {
      var c := roots[0];
      assert roots == [c] + roots[1..];
      if c.bound.role == Classifier {
        ForwardSeesGuards(ctx, table, roots[1..], acc);
      } else if c.bound.hook != "forward" {
        ForwardSeesGuards(ctx, table, roots[1..], acc.(supported := false));
      } else {
        ChainForgets(ctx, table, c, 1, {}, acc.walk, START, acc.walk.guard);
        var (t, answer) := WalkChain(ctx, table, c, 1, {}, acc.walk);
        var next := Next(c, acc, t, answer);
        assert next.walk.guard <==> acc.walk.guard || SeesGuard(ctx, table, c);
        ForwardSeesGuards(ctx, table, roots[1..], next);
      }
    }
  }

  /** The evidence does not depend on the order in which the map of chains is read, ties or not. */
  lemma EvidenceForgetsMapOrder(ctx: Context, table: ChainTable, a: seq<Chain>, b: seq<Chain>, routing: Routing)
    requires multiset(a) == multiset(b)
    ensures Evidenced(ctx, table, a, routing) == Evidenced(ctx, table, b, routing)
  {
    RootsForgetMapOrder(a, b);
    var x, y := Sorting.Sort(a, Rank), Sorting.Sort(b, Rank);
    if Tied(x) {
      TiedEvidence(ctx, table, x, routing);
      TiedEvidence(ctx, table, y, routing);
      Sorting.SortSorts(a, Rank);
      Sorting.SortSorts(b, Rank);
      assert forall c :: c in x <==> c in multiset(x);
      assert forall c :: c in y <==> c in multiset(y);
    }
  }

  /** With a tie nothing is known but the guards that were seen. */
  lemma TiedEvidence(ctx: Context, table: ChainTable, roots: seq<Chain>, routing: Routing)
    ensures Conclude(ctx, table, roots, false, routing) ==
            Evidence(false, 0, false, false, exists c :: c in roots && SeesGuard(ctx, table, c), None, false, false,
                     [NO_POLICY])
  {
    var start := Pass(START, false, false, true);
    ClassifyGrows(ctx, table, roots, start);
    var second := Second(ctx, Marked(ctx, table, roots, false), routing);
    ForwardGrows(ctx, table, roots, second);
    ForwardSeesGuards(ctx, table, roots, second);
  }

  // ----- what the passes add

  lemma {:induction false} ClassifyGrows(ctx: Context, table: ChainTable, roots: seq<Chain>, acc: Pass)
    ensures var r := Classify(ctx, table, roots, acc);
            && acc.walk.skipped <= r.walk.skipped && acc.walk.taken <= r.walk.taken && (r.supported ==> acc.supported)
            && r.walk.guard == acc.walk.guard
  {
    if roots != [] && roots[0].bound.role == Classifier && roots[0].bound.hook == "prerouting" {
      ChainGrows(ctx, table, roots[0], 1, {}, acc.walk);
      var (t, answer) := WalkChain(ctx, table, roots[0], 1, {}, acc.walk);
      ClassifyGrows(ctx, table, roots[1..], acc.(walk := t));
    } else if roots != [] {
      ClassifyGrows(ctx, table, roots[1..], acc);
      ClassifyGrows(ctx, table, roots[1..], acc.(supported := false));
    }
  }

  lemma {:induction false} ForwardGrows(ctx: Context, table: ChainTable, roots: seq<Chain>, acc: Pass)
    ensures var r := Forward(ctx, table, roots, acc);
            && acc.walk.skipped <= r.walk.skipped && acc.walk.taken <= r.walk.taken && (r.supported ==> acc.supported)
            && (acc.walk.guard ==> r.walk.guard)
  {
    if roots != [] && roots[0].bound.role != Classifier && roots[0].bound.hook == "forward" {
      ChainGrows(ctx, table, roots[0], 1, {}, acc.walk);
      var (t, answer) := WalkChain(ctx, table, roots[0], 1, {}, acc.walk);
      ForwardGrows(ctx, table, roots[1..], Next(roots[0], acc, t, answer));
    } else if roots != [] {
      ForwardGrows(ctx, table, roots[1..], if roots[0].bound.role == Classifier then acc else acc.(supported := false));
    }
  }

  /** The end of the second walk, with its history. */
  function FinalWalk(ctx: Context, table: ChainTable, roots: seq<Chain>, readable: bool, routing: Routing): Walk {
    Forward(ctx, table, roots, Second(ctx, Marked(ctx, table, roots, readable), routing)).walk
  }

  lemma {:induction false} ClassifyLeavesForwarding(ctx: Context, table: ChainTable, roots: seq<Chain>, acc: Pass)
    ensures Classify(ctx, table, roots, acc).forwardAllowed == acc.forwardAllowed
  {
    if roots != [] {
      ClassifyLeavesForwarding(ctx, table, roots[1..], acc);
      ClassifyLeavesForwarding(ctx, table, roots[1..], acc.(supported := false));
      ClassifyLeavesForwarding(ctx, table, roots[1..],
                               acc.(walk := WalkChain(ctx, table, roots[0], 1, {}, acc.walk).0));
    }
  }

  /**
   The route that is reported: it is selected exactly when the mark is known and the routing rules, all of them read,
   hold one that applies to the client's packets with that mark and looks up the table of the reported route.
   */
  lemma RoutedMeans(ctx: Context, w: World, table: ChainTable, p: Packet, roots: seq<Chain>, readable: bool,
                    routing: Routing)
    requires Faithful(ctx, w, p)
    ensures var e := Conclude(ctx, table, roots, readable, routing);
            var q := RoutePolicy.Asked(ctx.source, ctx.target, ctx.ingress, e.mark);
            var marked := RoutePolicy.Flow(p.src, p.dst, p.iif, e.mark);
            var selected := RoutePolicy.Selected(routing.route);
            && (e.routed <==>
                  && e.markKnown && selected.Some? && |routing.rows| <= RoutePolicy.MAX_ROWS
                  && RoutePolicy.AllRead(w.lib, routing.rows, q)
                  && exists i :: 0 <= i < |routing.rows| && RoutePolicy.Applies(w.lib, routing.rows[i], marked)
                                 && RoutePolicy.TableId(routing.rows[i].table) == selected)
            && (e.vpn <==> e.routed && ctx.boundVpn && ctx.vpnInterface != "" && |routing.route| == 1
                           && routing.route[0].dev == ctx.vpnInterface)
            && (e.coverage <==> routing.closed && e.supported && e.routed)
  {
    var e := Conclude(ctx, table, roots, readable, routing);
    var q := RoutePolicy.Asked(ctx.source, ctx.target, ctx.ingress, e.mark);
    var marked := RoutePolicy.Flow(p.src, p.dst, p.iif, e.mark);
    var selected := RoutePolicy.Selected(routing.route);
    if e.markKnown && selected.Some? && RoutePolicy.AllRead(w.lib, routing.rows, q) {
      RoutePolicy.ExplainedMeans(w.lib, routing.rows, q, marked, _ => true, selected.value);
    }
  }
}
