/** The three-valued walk over chains for one forwarded client, as the code makes it. */
module OpenWrtWalk {
  import opened Bytes
  import opened Nftables
  import opened OpenWrtRules

  datatype Role = Classifier | Forwarding | Guard

  datatype Bound = Bound(key: Key, role: Role, hook: string, priority: int)

  datatype Chain = Chain(bound: Bound, policyDrop: bool, rules: seq<Rule>, valid: bool)

  /** The question and the sample, as far as the walk looks at them. */
  datatype Context = Context(
    lib: Library, source: string, ingress: string, target: string,
    setName: Option<string>, setKnown: bool, setSupported: bool, setMember: bool,
    boundVpn: bool, vpnInterface: string, sourceLogical: bool)

  /**
   What the walk updates. The last two fields are history the code does not keep: the output-interface operands of
   the drops it stepped over, and those of the jumps and returns it took.
   */
  datatype Walk = Walk(mark: nat, markKnown: bool, guard: bool, reached: set<Key>,
                       skipped: set<string>, taken: set<string>)

  datatype Answer = Unknown | Known(flow: Flow)

  const MAX_DEPTH: nat := 4

  predicate SameAddress(ctx: Context, text: string, want: string) {
    match ctx.lib.prefix(text)
    case Some((base, bits)) => bits == 32 && ctx.lib.text(base) == want
    case None => text == want
  }

  predicate HostPrefix(ctx: Context, text: string) {
    ctx.lib.prefix(text).Some? && ctx.lib.prefix(text).value.1 == 32
  }

  /** Whether the rule selects the client's packets, and whether that is known. */
  function RuleMatches(ctx: Context, r: Rule): (bool, bool) {
    if !r.valid then (false, false)
    else if r.source != "" && !SameAddress(ctx, r.source, ctx.source) then
      (false, ctx.lib.address(r.source).Some? || HostPrefix(ctx, r.source))
    else if r.ingress != "" && r.ingress != ctx.ingress then (false, true)
    else if r.destination == "" then (true, true)
    else if r.destination[0] == '@' then
      if ctx.setName.None? || r.destination != "@" + ctx.setName.value || !ctx.setKnown || !ctx.setSupported
      then (false, false)
      else (ctx.setMember, true)
    else if SameAddress(ctx, r.destination, ctx.target) then (true, true)
    else (false, ctx.lib.address(r.destination).Some?)
  }

  predicate GuardsPath(ctx: Context, c: Chain, r: Rule) {
    && c.bound.role == Guard && r.source != "" && r.destination != "" && r.ingress != ""
    && (r.oifNot == "" || (ctx.boundVpn && ctx.vpnInterface != "" && r.oifNot == ctx.vpnInterface))
  }

  predicate Classifies(ctx: Context, c: Chain, r: Rule) {
    && c.bound.role == Classifier && r.source != "" && r.destination != "" && r.ingress != "" && r.oifNot == ""
    && ctx.sourceLogical
  }

  /** The chain a jump from c names may be walked: it is known, no base chain, and of c's role. */
  predicate Callable(table: ChainTable, c: Chain, key: Key) {
    key in table && table[key].bound.hook == "" && table[key].bound.role == c.bound.role
  }

  function Operand(r: Rule): set<string> {
    if r.oifNot == "" then {} else {r.oifNot}
  }

  /** The chains of the profile by key. */
  type ChainTable = map<Key, Chain>

  /** The rules of c from index i on. */
  function WalkRules(ctx: Context, table: ChainTable, c: Chain, i: nat, depth: nat,
                     stack: set<Key>, s: Walk): (Walk, Answer)
    requires i <= |c.rules| && depth <= MAX_DEPTH
    decreases MAX_DEPTH + 1 - depth, 0, |c.rules| - i
  {
    if i == |c.rules| then (s, Known(if c.bound.hook != "" && c.policyDrop then Dropped else Returned))
    else
      var r := c.rules[i];
      var (matches, known) := RuleMatches(ctx, r);
      if !known then (s, Unknown)
      else if !matches then WalkRules(ctx, table, c, i + 1, depth, stack, s)
      else
        match r.action
        case "mark" =>
          if !Classifies(ctx, c, r) then (s, Unknown)
          else WalkRules(ctx, table, c, i + 1, depth, stack, s.(mark := r.mark, markKnown := true))
        case "jump" =>
          var callee := c.bound.key.(name := r.jump);
          if !Callable(table, c, callee) then (s, Unknown)
          else
            var entered := s.(taken := s.taken + Operand(r));
            var (back, answer) := WalkChain(ctx, table, table[callee], depth + 1, stack, entered);
            if answer == Known(Returned) then WalkRules(ctx, table, c, i + 1, depth, stack, back)
            else (back, answer)
        case "return" =>
          if c.bound.hook != "" then (s, Unknown) else (s.(taken := s.taken + Operand(r)), Known(Returned))
        case "accept" =>
          if r.oifNot != "" then (s, Unknown) else (s, Known(Accepted))
        case "drop" | "reject" =>
          var seen := s.(guard := s.guard || GuardsPath(ctx, c, r));
          if r.oifNot != ""
          then WalkRules(ctx, table, c, i + 1, depth, stack, seen.(skipped := s.skipped + {r.oifNot}))
          else (seen, Known(Dropped))
        case _ => (s, Unknown)
  }

  /** A whole chain; unknown below depth four, on a chain already being walked, and on an unreadable chain. */
  function WalkChain(ctx: Context, table: ChainTable, c: Chain, depth: nat,
                     stack: set<Key>, s: Walk): (Walk, Answer)
    decreases if depth <= MAX_DEPTH then MAX_DEPTH + 1 - depth else 0, 1, 0
  {
    if depth > MAX_DEPTH || c.bound.key in stack || !c.valid then (s, Unknown)
    else WalkRules(ctx, table, c, 0, depth, stack + {c.bound.key}, s.(reached := s.reached + {c.bound.key}))
  }
}
