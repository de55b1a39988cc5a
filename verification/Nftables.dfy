/** A small concrete semantics of nftables chains: what a rule set does to one packet. */
module Nftables {
  import opened Bytes

  /** IPv4 addresses as numbers; how their texts, and the texts of prefixes, read; and which texts are of IPv6. */
  type Ip = nat
  datatype Library = Library(address: string -> Option<Ip>, prefix: string -> Option<(Ip, nat)>, text: Ip -> string,
                             foreign: string -> bool)

  /**
   What the code relies on: IPv4 texts are canonical, no prefixes, and no set references; prefixes have at most 32
   bits; texts of IPv6 are neither.
   */
  ghost predicate Lawful(lib: Library) {
    && (forall t: string :: lib.address(t).Some? ==> lib.text(lib.address(t).value) == t)
    && (forall a: Ip :: lib.address(lib.text(a)) == Some(a))
    && (forall t: string :: lib.prefix(t).Some? ==> lib.address(t).None? && lib.prefix(t).value.1 <= 32)
    && (forall t: string :: lib.foreign(t) ==> lib.address(t).None? && lib.prefix(t).None?)
    && (forall t: string :: t != "" && t[0] == '@' ==> lib.address(t).None? && lib.prefix(t).None?)
  }

  datatype Left = Payload(protocol: string, field: string) | Meta(key: string)

  /** One element of a rule. Whatever is not one of the readable forms is Other. */
  datatype Expr =
    | Match(op: string, left: Left, right: string)
    | Mangle(key: string, value: Option<nat>)
    | Verdict(kind: string)
    | Jump(target: string)
    | Note(kind: string)
    | Other

  datatype Packet = Packet(src: Ip, dst: Ip, iif: string, oif: string)

  /** The parts of the world a rule can depend on besides the packet: named sets, and tests not modelled here. */
  datatype World = World(lib: Library, sets: (string, Ip) -> bool, other: (Expr, Packet) -> bool)

  function InPrefix(base: Ip, bits: nat, a: Ip): bool
    requires bits <= 32
  {
    base / Pow2(32 - bits) == a / Pow2(32 - bits)
  }

  function Pow2(n: nat): (p: nat)
    ensures p > 0
  {
    if n == 0 then 1 else 2 * Pow2(n - 1)
  }

  function AddressTest(w: World, e: Expr, right: string, a: Ip, p: Packet): bool {
    match w.lib.address(right)
    case Some(b) => a == b
    case None =>
      match w.lib.prefix(right)
      case Some((base, bits)) => if bits <= 32 then InPrefix(base, bits, a) else false
      case None => if right != "" && right[0] == '@' then w.sets(right[1..], a) else w.other(e, p)
  }

  /** An interface operand ending in a star matches every name with that beginning. */
  function NameTest(right: string, name: string): bool {
    if right != "" && right[|right| - 1] == '*' then right[..|right| - 1] <= name else name == right
  }

  function Test(w: World, e: Expr, p: Packet): bool
    requires e.Match?
  {
    var hit :=
      if e.left == Meta("iifname") then NameTest(e.right, p.iif)
      else if e.left == Meta("oifname") then NameTest(e.right, p.oif)
      else if e.left == Payload("ip", "saddr") then AddressTest(w, e, e.right, p.src, p)
      else if e.left == Payload("ip", "daddr") then AddressTest(w, e, e.right, p.dst, p)
      else w.other(e, p);
    if e.op == "==" then hit else if e.op == "!=" then !hit else w.other(e, p)
  }

  datatype Flow = Accepted | Dropped | Returned

  /** What one rule does: go on, decide, or call another chain; a mark it sets stays set either way. */
  datatype Effect = Continue(mark: nat) | Decide(flow: Flow, mark: nat) | Call(target: string, mark: nat)

  function Evaluate(w: World, rule: seq<Expr>, p: Packet, mark: nat): Effect {
    if rule == [] then Continue(mark)
    else
      match rule[0]
      case Match(_, _, _) => if Test(w, rule[0], p) then Evaluate(w, rule[1..], p, mark) else Continue(mark)
      case Mangle(key, value) =>
        Evaluate(w, rule[1..], p, if key == "mark" && value.Some? then value.value else mark)
      case Verdict(kind) =>
        if kind == "accept" then Decide(Accepted, mark)
        else if kind == "drop" || kind == "reject" then Decide(Dropped, mark)
        else Decide(Returned, mark)
      case Jump(target) => Call(target, mark)
      case Note(_) => Evaluate(w, rule[1..], p, mark)
      case Other => if w.other(rule[0], p) then Evaluate(w, rule[1..], p, mark) else Continue(mark)
  }

  datatype Key = Key(family: string, table: string, name: string)

  type Chains = map<Key, seq<seq<Expr>>>

  /** The remaining rules of a chain; None when calls nest deeper than the limit or name no chain of the table. */
  function Traverse(w: World, chains: Chains, key: Key, rules: seq<seq<Expr>>, p: Packet, mark: nat, limit: nat)
    : Option<(Flow, nat)>
    decreases limit, |rules|
  {
    if rules == [] then Some((Returned, mark))
    else
      match Evaluate(w, rules[0], p, mark)
      case Continue(m) => Traverse(w, chains, key, rules[1..], p, m, limit)
      case Decide(flow, m) => Some((flow, m))
      case Call(target, m) =>
        var callee := key.(name := target);
        if limit == 0 || callee !in chains then None
        else
          match Traverse(w, chains, callee, chains[callee], p, m, limit - 1)
          case None => None
          case Some((Returned, back)) => Traverse(w, chains, key, rules[1..], p, back, limit)
          case Some(decided) => Some(decided)
  }

  /** A base chain: falling off its end is its policy. */
  function Base(w: World, chains: Chains, key: Key, policyDrop: bool, p: Packet, mark: nat,
                limit: nat): Option<(Flow, nat)>
    requires key in chains
  {
    match Traverse(w, chains, key, chains[key], p, mark, limit)
    case Some((Returned, m)) => Some((if policyDrop then Dropped else Accepted, m))
    case other => other
  }

  /** The laws have a model: addresses written in unary, one letter each, and prefixes marked by a slash. */
  lemma LawsHaveModel()
    ensures exists lib: Library ::
              && Lawful(lib) && (exists t: string :: lib.prefix(t).Some?) && exists t: string :: lib.foreign(t)
  {
    var lib := Library(
      (t: string) => if Unary(t) then Some(|t|) else None,
      (t: string) => if t == "/" then Some((0, 32)) else None,
      (a: Ip) => Ones(a),
      (t: string) => t == ":");
    forall t: string | lib.address(t).Some?
      ensures lib.text(lib.address(t).value) == t
    {
      UnaryIsOnes(t);
    }
    forall a: Ip
      ensures lib.address(lib.text(a)) == Some(a)
    {
      OnesAreUnary(a);
    }
    assert lib.prefix("/").Some? && lib.foreign(":");
    assert Lawful(lib);
  }

  predicate Unary(t: string) {
    t == "" || (t[0] == '1' && Unary(t[1..]))
  }

  function Ones(a: nat): string {
    if a == 0 then "" else "1" + Ones(a - 1)
  }

  lemma {:induction false} UnaryIsOnes(t: string)
    requires Unary(t)
    ensures Ones(|t|) == t
  {
    if t != "" {
      UnaryIsOnes(t[1..]);
    }
  }

  lemma {:induction false} OnesAreUnary(a: nat)
    ensures Unary(Ones(a)) && |Ones(a)| == a
  {
    if a > 0 {
      OnesAreUnary(a - 1);
    }
  }
}
