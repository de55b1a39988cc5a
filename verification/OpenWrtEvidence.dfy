/**
 The evidence against the kernel's own order: on each hook the base chains of a profile run by ascending priority,
 whatever the order in which they are listed or walked.
 */
module OpenWrtEvidence {
  import opened Bytes
  import opened Nftables
  import opened OpenWrtRules
  import opened OpenWrtWalk
  import opened OpenWrtSound
  import opened OpenWrtFollow
  import opened OpenWrtNormalize
  import opened OpenWrtExact
  import Sorting
  import RoutePolicy

  // ----- the order of base chains

  /** The hooks, priorities and roles a profile may give its base chains. */
  predicate ValidBase(b: Bound) {
    && (b.hook == "prerouting" || b.hook == "forward" || b.hook == "output")
    && -0x8000_0000 <= b.priority < 0x8000_0000
    && !(b.role == Classifier && b.hook == "forward") && !(b.role == Forwarding && b.hook != "forward")
  }

  predicate ValidBases(order: seq<Chain>) {
    forall i :: 0 <= i < |order| ==> ValidBase(order[i].bound)
  }

  /** The order of texts by their characters. */
  predicate Before(a: string, b: string) {
    b != "" && (a == "" || a[0] < b[0] || (a[0] == b[0] && Before(a[1..], b[1..])))
  }

  /** By the name of the hook, and on one hook by priority. */
  predicate InOrder(a: Bound, b: Bound) {
    Before(a.hook, b.hook) || (a.hook == b.hook && a.priority <= b.priority)
  }

  lemma {:induction false} NotBeforeItself(a: string)
    ensures !Before(a, a)
  {
    if a != "" {
      NotBeforeItself(a[1..]);
    }
  }

  lemma HookOrder(a: Bound, b: Bound)
    requires ValidBase(a) && ValidBase(b)
    ensures HookRank(a.hook) < HookRank(b.hook) <==> Before(a.hook, b.hook)
    ensures HookRank(a.hook) == HookRank(b.hook) <==> a.hook == b.hook
  {
    NotBeforeItself(a.hook);
    assert "forward"[0] == 'f' && "output"[0] == 'o' && "prerouting"[0] == 'p';
  }

  lemma RankOrder(a: Chain, b: Chain)
    requires ValidBase(a.bound) && ValidBase(b.bound)
    ensures Rank(a) <= Rank(b) <==> InOrder(a.bound, b.bound)
    ensures Rank(a) == Rank(b) <==> SamePlace(a.bound, b.bound)
  {
    HookOrder(a.bound, b.bound);
    HookOrder(b.bound, a.bound);
  }

  predicate SamePlace(a: Bound, b: Bound) {
    a.hook == b.hook && a.priority == b.priority
  }

  /** Two base chains of a profile on one hook with one priority. */
  predicate Clash(order: seq<Chain>) {
    exists i, j :: 0 <= i < j < |order| && SamePlace(order[i].bound, order[j].bound)
  }

  /** The base chains that are walked: all of them, in the order of hook names, and on one hook by priority. */
  lemma WalkedInOrder(order: seq<Chain>)
    requires ValidBases(order)
    ensures var roots := Sorting.Sort(order, Rank);
            && multiset(roots) == multiset(order)
            && (forall i, j :: 0 <= i < j < |roots| ==> InOrder(roots[i].bound, roots[j].bound))
            && (Tied(roots) <==> Clash(order))
  {
    var roots := Sorting.Sort(order, Rank);
    Sorting.SortSorts(order, Rank);
    StillValid(order, roots);
    forall i, j | 0 <= i < j < |roots|
      ensures InOrder(roots[i].bound, roots[j].bound)
    {
      RankOrder(roots[i], roots[j]);
    }
    TiesAre(order);
    TiesAre(roots);
    assert (exists c, d :: TieIn(order, c, d)) <==> (exists c, d :: TieIn(roots, c, d)) by {
      assert forall c, d :: TieIn(order, c, d) <==> TieIn(roots, c, d);
    }
    ClashIsTie(order);
  }

  lemma StillValid(a: seq<Chain>, b: seq<Chain>)
    requires ValidBases(a) && multiset(a) == multiset(b)
    ensures ValidBases(b)
  {
    forall i | 0 <= i < |b|
      ensures ValidBase(b[i].bound)
    {
      assert b[i] in multiset(a);
    }
  }

  predicate TieIn(s: seq<Chain>, c: Chain, d: Chain) {
    multiset{c, d} <= multiset(s) && Rank(c) == Rank(d)
  }

  /** A tie is about which chains there are, not where they stand. */
  lemma TiesAre(s: seq<Chain>)
    ensures Tied(s) <==> exists c, d :: TieIn(s, c, d)
  {
    if Tied(s) {
      var i, j :| 0 <= i < j < |s| && Rank(s[i]) == Rank(s[j]);
      PairIn(s, i, j);
      assert TieIn(s, s[i], s[j]);
    }
    if c, d :| TieIn(s, c, d) {
      var i, j := PlacesOf(s, c, d);
      assert Rank(s[i]) == Rank(s[j]);
    }
  }

  lemma PairIn(s: seq<Chain>, i: nat, j: nat)
    requires i < j < |s|
    ensures multiset{s[i], s[j]} <= multiset(s)
  {
    assert s == s[..i] + [s[i]] + s[i + 1..j] + [s[j]] + s[j + 1..];
  }

  lemma {:induction false} PlacesOf(s: seq<Chain>, c: Chain, d: Chain) returns (i: nat, j: nat)
    requires multiset{c, d} <= multiset(s)
    ensures i < j < |s| && ((s[i] == c && s[j] == d) || (s[i] == d && s[j] == c))
  {
    assert s != [] by {
      assert c in multiset(s);
    }
    var rest := s[1..];
    assert s == [s[0]] + rest;
    if s[0] == c || s[0] == d {
      var other := if s[0] == c then d else c;
      assert multiset(s) == multiset{s[0]} + multiset(rest);
      assert other in multiset(rest);
      var k :| 0 <= k < |rest| && rest[k] == other;
      i, j := 0, k + 1;
    } else {
      var k, l := PlacesOf(rest, c, d);
      i, j := k + 1, l + 1;
    }
  }

  lemma ClashIsTie(order: seq<Chain>)
    requires ValidBases(order)
    ensures Clash(order) <==> Tied(order)
  {
    forall i, j | 0 <= i < j < |order|
      ensures Rank(order[i]) == Rank(order[j]) <==> SamePlace(order[i].bound, order[j].bound)
    {
      RankOrder(order[i], order[j]);
    }
  }

  // ----- the kernel's order

  /** The base chains of one hook as the kernel runs them: each as often as it is listed, by ascending priority. */
  ghost predicate KernelOrder(order: seq<Chain>, hook: string, run: seq<Chain>) {
    && (forall c: Chain :: multiset(run)[c] == if c.bound.hook == hook then multiset(order)[c] else 0)
    && forall i, j :: 0 <= i < j < |run| ==> run[i].bound.priority <= run[j].bound.priority
  }

  /** A packet goes through base chains until one drops it, with the mark the earlier ones left. */
  function Through(w: World, listed: Chains, run: seq<Chain>, p: Packet, mark: nat): Option<(Flow, nat)> {
    if run == [] then Some((Accepted, mark))
    else
      match Kernel(w, listed, run[0], p, mark)
      case None => None
      case Some((flow, end)) => if flow == Dropped then Some((Dropped, end)) else Through(w, listed, run[1..], p, end)
  }

  function OnHook(roots: seq<Chain>, hook: string): seq<Chain> {
    if roots == [] then []
    else if roots[0].bound.hook == hook then [roots[0]] + OnHook(roots[1..], hook)
    else OnHook(roots[1..], hook)
  }

  lemma {:induction false} OnHookCounts(roots: seq<Chain>, hook: string, c: Chain)
    ensures multiset(OnHook(roots, hook))[c] == if c.bound.hook == hook then multiset(roots)[c] else 0
  {
    if roots != [] {
      assert roots == [roots[0]] + roots[1..];
      OnHookCounts(roots[1..], hook, c);
    }
  }

  lemma {:induction false} OnHookAscends(roots: seq<Chain>, hook: string)
    requires forall i, j :: 0 <= i < j < |roots| ==> InOrder(roots[i].bound, roots[j].bound)
    ensures Sorting.Sorted(OnHook(roots, hook), (c: Chain) => c.bound.priority)
  {
    if roots != [] {
      OnHookAscends(roots[1..], hook);
      if roots[0].bound.hook == hook {
        FirstIsLeast(roots, hook);
      }
    }
  }

  lemma FirstIsLeast(roots: seq<Chain>, hook: string)
    requires forall i, j :: 0 <= i < j < |roots| ==> InOrder(roots[i].bound, roots[j].bound)
    requires roots != [] && roots[0].bound.hook == hook
    ensures forall i :: 0 <= i < |OnHook(roots[1..], hook)| ==>
              roots[0].bound.priority <= OnHook(roots[1..], hook)[i].bound.priority
  {
    var rest := OnHook(roots[1..], hook);
    forall i | 0 <= i < |rest|
      ensures roots[0].bound.priority <= rest[i].bound.priority
    {
      OnHookCounts(roots[1..], hook, rest[i]);
      assert rest[i] in multiset(rest);
      assert rest[i] in multiset(roots[1..]);
      var j :| 0 <= j < |roots[1..]| && roots[1..][j] == rest[i];
      assert roots[j + 1] == rest[i];
      NotBeforeItself(hook);
    }
  }

  /** Without a clash the kernel has one order on each hook, and it is the order of the walk. */
  lemma KernelWalks(order: seq<Chain>, hook: string, run: seq<Chain>)
    requires ValidBases(order) && !Clash(order) && KernelOrder(order, hook, run)
    ensures run == OnHook(Sorting.Sort(order, Rank), hook)
  {
    var roots := Sorting.Sort(order, Rank);
    var here := OnHook(roots, hook);
    var priority := (c: Chain) => c.bound.priority;
    WalkedInOrder(order);
    OnHookAscends(roots, hook);
    forall c: Chain
      ensures multiset(run)[c] == multiset(here)[c]
    {
      OnHookCounts(roots, hook, c);
    }
    assert multiset(run) == multiset(here);
    PrioritiesTellApart(order, hook, run);
    Sorting.SortedUnique(run, here, priority);
  }

  lemma PrioritiesTellApart(order: seq<Chain>, hook: string, run: seq<Chain>)
    requires ValidBases(order) && !Clash(order) && KernelOrder(order, hook, run)
    ensures Sorting.TellsApart((c: Chain) => c.bound.priority, run)
  {
    forall i, j | 0 <= i < |run| && 0 <= j < |run| && run[i].bound.priority == run[j].bound.priority
      ensures run[i] == run[j]
    {
      var c, d := run[i], run[j];
      assert c in multiset(run) && d in multiset(run);
      assert multiset(run)[c] > 0 && multiset(run)[d] > 0;
      if c != d {
        assert multiset{c, d} <= multiset(order);
        var k, l := PlacesOf(order, c, d);
      }
    }
  }

  lemma {:induction false} PreroutingIsThrough(w: World, listed: Chains, roots: seq<Chain>, p: Packet, mark: nat)
    requires forall i :: 0 <= i < |roots| ==>
               (roots[i].bound.role == Classifier <==> roots[i].bound.hook == "prerouting")
    ensures Prerouting(w, listed, roots, p, mark) == Through(w, listed, OnHook(roots, "prerouting"), p, mark)
    decreases |roots|
  {
    if roots != [] {
      if roots[0].bound.role == Classifier && Kernel(w, listed, roots[0], p, mark).Some? {
        PreroutingIsThrough(w, listed, roots[1..], p, Kernel(w, listed, roots[0], p, mark).value.1);
      }
      PreroutingIsThrough(w, listed, roots[1..], p, mark);
    }
  }

  // ----- supported evidence has every chain on the hook of its role

  lemma {:induction false} ClassifierHooks(ctx: Context, table: ChainTable, roots: seq<Chain>, acc: Pass)
    requires var r := Classify(ctx, table, roots, acc); r.supported && r.walk.markKnown
    ensures forall i :: 0 <= i < |roots| && roots[i].bound.role == Classifier ==> roots[i].bound.hook == "prerouting"
    decreases |roots|
  {
    if roots != [] {
      var c, rest := roots[0], roots[1..];
      assert forall i :: 1 <= i < |roots| ==> roots[i] == rest[i - 1];
      if c.bound.role != Classifier {
        ClassifierHooks(ctx, table, rest, acc);
      } else if c.bound.hook != "prerouting" {
        ClassifyGrows(ctx, table, rest, acc.(supported := false));
      } else {
        ClassifierHooks(ctx, table, rest, acc.(walk := WalkChain(ctx, table, c, 1, {}, acc.walk).0));
      }
    }
  }

  lemma {:induction false} ForwardHooks(ctx: Context, table: ChainTable, roots: seq<Chain>, acc: Pass)
    requires Forward(ctx, table, roots, acc).supported
    ensures forall i :: 0 <= i < |roots| && roots[i].bound.role != Classifier ==> roots[i].bound.hook == "forward"
    decreases |roots|
  {
    if roots != [] {
      var c, rest := roots[0], roots[1..];
      assert forall i :: 1 <= i < |roots| ==> roots[i] == rest[i - 1];
      if c.bound.role == Classifier {
        ForwardHooks(ctx, table, rest, acc);
      } else if c.bound.hook != "forward" {
        ForwardGrows(ctx, table, rest, acc.(supported := false));
      } else {
        var (t, answer) := WalkChain(ctx, table, c, 1, {}, acc.walk);
        ForwardHooks(ctx, table, rest, Next(c, acc, t, answer));
      }
    }
  }

  // ----- the evidence for a profile

  /** The list of base chains of a profile: each once, in any order. */
  ghost predicate Profile(table: ChainTable, order: seq<Chain>) {
    ValidBases(order) && forall c: Chain :: multiset(order)[c] == if Root(table, c) then 1 else 0
  }

  function Walked(order: seq<Chain>): seq<Chain> {
    Sorting.Sort(order, Rank)
  }

  /** The interfaces of the drops the classifier pass stepped over; then the walk at the end, with both histories. */
  function ClassifiersSkip(ctx: Context, table: ChainTable, order: seq<Chain>): set<string> {
    Marked(ctx, table, Walked(order), Readable(table, Walked(order))).walk.skipped
  }

  function Last(ctx: Context, table: ChainTable, order: seq<Chain>, routing: Routing): Walk {
    FinalWalk(ctx, table, Walked(order), Readable(table, Walked(order)), routing)
  }

  /** Some base chain of the forward hook, or some forwarding chain on it, drops the packet. */
  predicate ForwardDrops(w: World, listed: Chains, order: seq<Chain>, p: Packet, mark: nat, forwardingOnly: bool) {
    exists c :: c in order && c.bound.hook == "forward" && (forwardingOnly ==> c.bound.role == Forwarding)
                && Drops(w, listed, c, p, mark)
  }

  /**
   What the evidence claims of a packet, in the kernel's terms. Prerouting, its base chains run by ascending priority:
   by the interface of every drop stepped over it passes them with the mark that is known, by any other it is dropped.
   Forwarding: likewise it passes the forwarding chains exactly when forwarding is allowed, or is dropped. Guard: it is
   dropped by every interface but the VPN's.
   */
  ghost predicate EvidenceTrue(w: World, listed: Chains, p: Packet, ctx: Context, table: ChainTable, order: seq<Chain>,
                               routing: Routing, start: nat, mark: nat) {
    var e := Evidenced(ctx, table, order, routing);
    && (e.markKnown ==>
          forall run :: KernelOrder(order, "prerouting", run) ==>
            var got := Through(w, listed, run, p, start);
            if ClassifiersSkip(ctx, table, order) <= {p.oif} then got == Some((Accepted, e.mark))
            else got.Some? && got.value.0 == Dropped)
    && (e.forwarding.Some? ==>
          if Last(ctx, table, order, routing).skipped <= {p.oif}
          then e.forwarding.value <==> !ForwardDrops(w, listed, order, p, mark, true)
          else ForwardDrops(w, listed, order, p, mark, false))
    && (e.guard && p.oif != ctx.vpnInterface ==> ForwardDrops(w, listed, order, p, mark, false))
  }

  lemma ProfileRoots(table: ChainTable, order: seq<Chain>)
    requires Profile(table, order)
    ensures Roots(table, Walked(order)) && ValidBases(Walked(order))
    ensures forall c :: c in order <==> c in Walked(order)
  {
    var roots := Walked(order);
    WalkedInOrder(order);
    StillValid(order, roots);
    forall c
      ensures c in order <==> c in roots
    {
      assert c in order <==> c in multiset(order);
      assert c in roots <==> c in multiset(roots);
    }
    forall i | 0 <= i < |roots|
      ensures Root(table, roots[i])
    {
      assert roots[i] in multiset(order);
    }
  }

  /** In supported evidence the two passes have looked at exactly the chains the kernel runs on the two hooks. */
  lemma SupportedHooks(ctx: Context, table: ChainTable, order: seq<Chain>, routing: Routing)
    requires Profile(table, order) && Evidenced(ctx, table, order, routing).supported
    ensures !Clash(order)
    ensures var roots := Walked(order);
            && (forall i :: 0 <= i < |roots| ==>
                  (roots[i].bound.role != Classifier <==> roots[i].bound.hook == "forward"))
            && (Evidenced(ctx, table, order, routing).markKnown ==>
                  forall i :: 0 <= i < |roots| ==>
                    (roots[i].bound.role == Classifier <==> roots[i].bound.hook == "prerouting"))
  {
    var roots := Walked(order);
    var readable := Readable(table, roots);
    ProfileRoots(table, order);
    WalkedInOrder(order);
    var begin, first := Pass(START, readable, false, true), Marked(ctx, table, roots, readable);
    ForwardHooks(ctx, table, roots, Second(ctx, first, routing));
    ForwardGrows(ctx, table, roots, Second(ctx, first, routing));
    ClassifyGrows(ctx, table, roots, begin);
    if first.walk.markKnown {
      ClassifierHooks(ctx, table, roots, begin);
    }
  }

  lemma DropsOnHook(w: World, listed: Chains, order: seq<Chain>, roots: seq<Chain>, p: Packet, mark: nat, only: bool)
    requires forall c :: c in order <==> c in roots
    requires forall i :: 0 <= i < |roots| ==> (roots[i].bound.role != Classifier <==> roots[i].bound.hook == "forward")
    ensures SomeDrops(w, listed, roots, p, mark, only) <==> ForwardDrops(w, listed, order, p, mark, only)
  {
  }

  /** For supported evidence the claims about the walked base chains and about the kernel's are the same. */
  lemma SameClaims(ctx: Context, w: World, table: ChainTable, listed: Chains, p: Packet, order: seq<Chain>,
                   routing: Routing, start: nat, mark: nat)
    requires Profile(table, order) && Evidenced(ctx, table, order, routing).supported
    ensures EvidenceTrue(w, listed, p, ctx, table, order, routing, start, mark) <==>
            RootsTrue(w, listed, p, ctx, table, Walked(order), Readable(table, Walked(order)), routing, start, mark)
  {
    var roots := Walked(order);
    ProfileRoots(table, order);
    SupportedHooks(ctx, table, order, routing);
    DropsOnHook(w, listed, order, roots, p, mark, true);
    DropsOnHook(w, listed, order, roots, p, mark, false);
    if Evidenced(ctx, table, order, routing).markKnown {
      KernelPrerouting(w, listed, order, p, start);
    }
  }

  /** Every kernel order of the prerouting hook, of which there is one, does what the walked classifiers do. */
  lemma KernelPrerouting(w: World, listed: Chains, order: seq<Chain>, p: Packet, start: nat)
    requires ValidBases(order) && !Clash(order)
    requires forall i :: 0 <= i < |order| ==>
               (Walked(order)[i].bound.role == Classifier <==> Walked(order)[i].bound.hook == "prerouting")
    ensures exists run :: KernelOrder(order, "prerouting", run)
    ensures forall run :: KernelOrder(order, "prerouting", run) ==>
              Through(w, listed, run, p, start) == Prerouting(w, listed, Walked(order), p, start)
  {
    PreroutingIsThrough(w, listed, Walked(order), p, start);
    OneKernelOrder(order, "prerouting");
    forall run | KernelOrder(order, "prerouting", run)
      ensures Through(w, listed, run, p, start) == Prerouting(w, listed, Walked(order), p, start)
    {
      KernelWalks(order, "prerouting", run);
    }
  }

  /** There is a kernel order. */
  lemma OneKernelOrder(order: seq<Chain>, hook: string)
    requires ValidBases(order)
    ensures KernelOrder(order, hook, OnHook(Walked(order), hook))
  {
    WalkedInOrder(order);
    OnHookAscends(Walked(order), hook);
    forall c: Chain
      ensures multiset(OnHook(Walked(order), hook))[c] == if c.bound.hook == hook then multiset(order)[c] else 0
    {
      OnHookCounts(Walked(order), hook, c);
    }
  }

  /**
   Supported evidence is true of every packet of the client, with the base chains of each hook run in the kernel's
   order, but those whose interface a jump or return names that was taken, or whose ingress a pattern covers.
   */
  lemma EvidenceSound(ctx: Context, w: World, table: ChainTable, listed: Chains, p: Packet, order: seq<Chain>,
                      routing: Routing, start: nat, mark: nat)
    requires Setting(ctx, w, table, listed, p) && Profile(table, order)
    requires var e := Evidenced(ctx, table, order, routing); e.supported && (e.markKnown ==> mark == e.mark)
    ensures EvidenceTrue(w, listed, p, ctx, table, order, routing, start, mark)
            || p.oif in Last(ctx, table, order, routing).taken || !Uncovered(ctx, table)
  {
    ProfileRoots(table, order);
    SameClaims(ctx, w, table, listed, p, order, routing, start, mark);
    RootsSound(ctx, w, table, listed, p, Walked(order), Readable(table, Walked(order)), routing, start, mark);
  }

  /** For all the others it is true exactly when it tells what is read for their interface. */
  lemma EvidenceExact(ctx: Context, w: World, table: ChainTable, listed: Chains, p: Packet, order: seq<Chain>,
                      routing: Routing, start: nat, mark: nat)
    requires Setting(ctx, w, table, listed, p) && Profile(table, order)
    requires Evidenced(ctx, table, order, routing).supported
    requires Evidenced(ctx, table, order, routing).markKnown ==>
               !ReadClassifiers(ctx, table, Walked(order), p.oif, start).Open?
    requires Settled(ctx, table, Walked(order), p.oif, mark)
    ensures EvidenceTrue(w, listed, p, ctx, table, order, routing, start, mark) <==>
            EvidenceTells(ctx, table, Walked(order), Readable(table, Walked(order)), routing, p.oif, start, mark)
  {
    ProfileRoots(table, order);
    SameClaims(ctx, w, table, listed, p, order, routing, start, mark);
    RootsExact(ctx, w, table, listed, p, Walked(order), Readable(table, Walked(order)), routing, start, mark);
  }

  /** Supported evidence is about a profile of readable chains that are not only for IPv6, in one kernel order. */
  lemma SupportedProfile(ctx: Context, table: ChainTable, order: seq<Chain>, routing: Routing)
    requires Profile(table, order) && Evidenced(ctx, table, order, routing).supported
    ensures table != map[] && !Clash(order) && forall k :: k in table ==> k.family != "ip6" && table[k].valid
  {
    SupportedHooks(ctx, table, order, routing);
    var roots := Walked(order);
    ForwardGrows(ctx, table, roots, Second(ctx, Marked(ctx, table, roots, Readable(table, roots)), routing));
    ClassifyGrows(ctx, table, roots, Pass(START, Readable(table, roots), false, true));
  }
}
