/** Reading chain listings into rule states, and what a readable rule does. */
module OpenWrtRules {
  import opened Nftables

  /** One rule as its selectors and its action; an empty selector selects everything. */
  datatype Rule = Rule(source: string, destination: string, ingress: string, oifNot: string,
                       action: string, jump: string, mark: nat, valid: bool)

  datatype Parse = Parse(rule: Rule, seen: set<string>, acted: bool)

  const EMPTY := Parse(Rule("", "", "", "", "", "", 0, true), {}, false)

  predicate NativeChar(c: char) {
    'A' <= c <= 'Z' || 'a' <= c <= 'z' || '0' <= c <= '9' || c == '_'
  }

  predicate NativeName(s: string) {
    1 <= |s| <= 64 && NativeChar(s[0]) && forall i :: 1 <= i < |s| ==> NativeChar(s[i]) || s[i] == '.' || s[i] == '-'
  }

  predicate ChainName(s: string) {
    1 <= |s| <= 48 && !('0' <= s[0] <= '9') && forall i :: 0 <= i < |s| ==> NativeChar(s[i])
  }

  function Field(l: Left): string {
    match l
    case Payload(_, field) => field
    case Meta(key) => key
  }

  function Act(st: Parse, action: string, ok: bool): Parse {
    Parse(st.rule.(action := action, valid := st.rule.valid && ok && !st.acted), st.seen, true)
  }

  function Select(r: Rule, field: string, right: string): Rule {
    if field == "saddr" then r.(source := right)
    else if field == "daddr" then r.(destination := right)
    else if field == "iifname" then r.(ingress := right)
    else if field == "oifname" then r.(oifNot := right)
    else r
  }

  predicate GoodMatch(op: string, left: Left, right: string) {
    && (left.Payload? ==> left.protocol == "ip") && Field(left) in {"saddr", "daddr", "iifname", "oifname"}
    && (if Field(left) == "oifname" then op == "!=" && NativeName(right) else op == "==")
  }

  function Step(st: Parse, e: Expr): Parse {
    match e
    case Note(_) => st
    case Match(op, left, right) =>
      var ok := GoodMatch(op, left, right) && !st.acted && Field(left) !in st.seen;
      Parse(Select(st.rule, Field(left), right).(valid := st.rule.valid && ok), st.seen + {Field(left)}, st.acted)
    case Mangle(key, value) =>
      var marked := Act(st, "mark", key == "mark" && value.Some?);
      marked.(rule := marked.rule.(mark := if value.Some? then value.value else 0))
    case Verdict(kind) => Act(st, kind, kind in {"accept", "drop", "reject", "return"})
    case Jump(target) =>
      var jumped := Act(st, "jump", ChainName(target));
      jumped.(rule := jumped.rule.(jump := target))
    case Other => st.(rule := st.rule.(valid := false))
  }

  function Steps(st: Parse, exprs: seq<Expr>): Parse
    decreases |exprs|
  {
    if exprs == [] then st else Steps(Step(st, exprs[0]), exprs[1..])
  }

  function Parsed(exprs: seq<Expr>): Rule {
    var r := Steps(EMPTY, exprs).rule;
    r.(valid := r.valid && r.action != "")
  }

  method ParseRule(exprs: seq<Expr>) returns (r: Rule)
    ensures r == Parsed(exprs)
  {
    r := Rule("", "", "", "", "", "", 0, true);
    var seen: set<string> := {};
    var acted := false;
    var i := 0;
    while i < |exprs|
      invariant 0 <= i <= |exprs|
      invariant Steps(EMPTY, exprs) == Steps(Parse(r, seen, acted), exprs[i..])
    {
      assert exprs[i..][0] == exprs[i] && exprs[i..][1..] == exprs[i + 1..];
      match exprs[i] {
        case Note(_) =>
        case Match(op, left, right) =>
          if acted || (left.Payload? && left.protocol != "ip") || Field(left) in seen {
            r := r.(valid := false);
          }
          seen := seen + {Field(left)};
          if Field(left) == "saddr" {
            r := r.(source := right);
          } else if Field(left) == "daddr" {
            r := r.(destination := right);
          } else if Field(left) == "iifname" {
            r := r.(ingress := right);
          } else if Field(left) == "oifname" {
            if op != "!=" || !NativeName(right) {
              r := r.(valid := false);
            }
            r := r.(oifNot := right);
          } else {
            r := r.(valid := false);
          }
          if Field(left) != "oifname" && op != "==" {
            r := r.(valid := false);
          }
        case Mangle(key, value) =>
          if acted || key != "mark" || value.None? {
            r := r.(valid := false);
          }
          acted := true;
          r := r.(mark := if value.Some? then value.value else 0, action := "mark");
        case Verdict(kind) =>
          if acted || !(kind == "accept" || kind == "drop" || kind == "reject" || kind == "return") {
            r := r.(valid := false);
          }
          acted := true;
          r := r.(action := kind);
        case Jump(target) =>
          if acted || !ChainName(target) {
            r := r.(valid := false);
          }
          acted := true;
          r := r.(action := "jump", jump := target);
        case Other =>
          r := r.(valid := false);
      }
      i := i + 1;
    }
    assert exprs[i..] == [];
    if r.action == "" {
      r := r.(valid := false);
    }
  }

  // ----- what a readable rule does

  /** Operands as a listing prints them: not empty, and each field in its own kind of match. */
  predicate Literal(e: Expr) {
    e.Match? ==>
      && e.right != ""
      && (e.left.Payload? ==> Field(e.left) != "iifname" && Field(e.left) != "oifname")
      && (e.left.Meta? ==> Field(e.left) != "saddr" && Field(e.left) != "daddr")
  }

  predicate LiteralRule(exprs: seq<Expr>) {
    forall i :: 0 <= i < |exprs| ==> Literal(exprs[i])
  }

  predicate AddressHolds(w: World, field: string, right: string, a: Ip, p: Packet) {
    right == "" || AddressTest(w, Match("==", Payload("ip", field), right), right, a, p)
  }

  /** The selectors that do not look at the output interface. */
  predicate Selects(w: World, r: Rule, p: Packet) {
    && AddressHolds(w, "saddr", r.source, p.src, p)
    && AddressHolds(w, "daddr", r.destination, p.dst, p)
    && (r.ingress == "" || NameTest(r.ingress, p.iif))
  }

  predicate OutputHolds(r: Rule, p: Packet) {
    r.oifNot == "" || p.oif != r.oifNot
  }

  function EffectOf(r: Rule, mark: nat): Effect {
    match r.action
    case "mark" => Continue(r.mark)
    case "jump" => Call(r.jump, mark)
    case "accept" => Decide(Accepted, mark)
    case "return" => Decide(Returned, mark)
    case _ => Decide(Dropped, mark)
  }

  /** Fields not yet seen are still unset. */
  predicate Fresh(st: Parse) {
    && ("saddr" !in st.seen ==> st.rule.source == "") && ("daddr" !in st.seen ==> st.rule.destination == "")
    && ("iifname" !in st.seen ==> st.rule.ingress == "") && ("oifname" !in st.seen ==> st.rule.oifNot == "")
  }

  /** What was seen stays as it was, in a rule that ends up valid. */
  lemma {:induction false} StepsKeep(st: Parse, exprs: seq<Expr>)
    requires Steps(st, exprs).rule.valid
    ensures st.rule.valid && st.seen <= Steps(st, exprs).seen
    ensures var r := Steps(st, exprs).rule;
            && ("saddr" in st.seen ==> r.source == st.rule.source)
            && ("daddr" in st.seen ==> r.destination == st.rule.destination)
            && ("iifname" in st.seen ==> r.ingress == st.rule.ingress)
            && ("oifname" in st.seen ==> r.oifNot == st.rule.oifNot)
            && (st.acted ==> r == st.rule)
    decreases |exprs|
  {
    if exprs != [] {
      StepsKeep(Step(st, exprs[0]), exprs[1..]);
    }
  }

  lemma {:induction false} ActedContinues(w: World, st: Parse, exprs: seq<Expr>, p: Packet, mark: nat)
    requires st.acted && Steps(st, exprs).rule.valid
    ensures Evaluate(w, exprs, p, mark) == Continue(mark)
    decreases |exprs|
  {
    if exprs != [] {
      StepsKeep(Step(st, exprs[0]), exprs[1..]);
      ActedContinues(w, Step(st, exprs[0]), exprs[1..], p, mark);
    }
  }

  lemma MatchMeaning(w: World, e: Expr, st: Parse, p: Packet)
    requires e.Match? && Literal(e) && GoodMatch(e.op, e.left, e.right) && Field(e.left) !in st.seen
    requires Fresh(st) && Selects(w, st.rule, p) && OutputHolds(st.rule, p)
    ensures Test(w, e, p) <==> Selects(w, Step(st, e).rule, p) && OutputHolds(Step(st, e).rule, p)
    ensures Fresh(Step(st, e))
  {
  }

  /** A selector that does not hold is a selector of the whole rule. */
  lemma MissMeaning(w: World, e: Expr, st: Parse, r: Rule, p: Packet)
    requires e.Match? && GoodMatch(e.op, e.left, e.right)
    requires Selects(w, st.rule, p) && OutputHolds(st.rule, p)
    requires var next := Step(st, e).rule; !(Selects(w, next, p) && OutputHolds(next, p))
    requires var next := Step(st, e).rule;
             && (Field(e.left) == "saddr" ==> r.source == next.source)
             && (Field(e.left) == "daddr" ==> r.destination == next.destination)
             && (Field(e.left) == "iifname" ==> r.ingress == next.ingress)
             && (Field(e.left) == "oifname" ==> r.oifNot == next.oifNot)
    ensures !(Selects(w, r, p) && OutputHolds(r, p))
  {
  }

  /** What a rule does by its reading. */
  function Acts(w: World, r: Rule, p: Packet, mark: nat): Effect {
    if Selects(w, r, p) && OutputHolds(r, p) then EffectOf(r, mark) else Continue(mark)
  }

  /** The action of a readable rule, once all its selectors hold; nothing follows it. */
  lemma ActionMeaning(w: World, st: Parse, exprs: seq<Expr>, p: Packet, mark: nat)
    requires exprs != [] && !st.acted && (exprs[0].Mangle? || exprs[0].Verdict? || exprs[0].Jump?)
    requires Steps(st, exprs).rule.valid && Selects(w, st.rule, p) && OutputHolds(st.rule, p)
    ensures Evaluate(w, exprs, p, mark) == Acts(w, Steps(st, exprs).rule, p, mark)
  {
    var next := Step(st, exprs[0]);
    StepsKeep(next, exprs[1..]);
    if exprs[0].Mangle? {
      ActedContinues(w, next, exprs[1..], p, exprs[0].value.value);
    }
  }

  /** A readable rule: all selectors hold and it acts, or nothing happens. */
  lemma {:induction false} SuffixMeaning(w: World, st: Parse, exprs: seq<Expr>, p: Packet, mark: nat)
    requires LiteralRule(exprs) && Fresh(st) && !st.acted
    requires Steps(st, exprs).rule.valid && Steps(st, exprs).rule.action != "" && st.rule.action == ""
    requires Selects(w, st.rule, p) && OutputHolds(st.rule, p)
    ensures Evaluate(w, exprs, p, mark) == Acts(w, Steps(st, exprs).rule, p, mark)
    decreases |exprs|
  {
    if exprs != [] {
      var e, next := exprs[0], Step(st, exprs[0]);
      StepsKeep(next, exprs[1..]);
      assert Literal(exprs[0]) && forall i :: 0 <= i < |exprs[1..]| ==> exprs[1..][i] == exprs[i + 1];
      match e {
        case Match(_, _, _) => MatchSuffix(w, st, exprs, p, mark);
        case Note(_) => SuffixMeaning(w, next, exprs[1..], p, mark);
        case Other => assert false;
        case _ => ActionMeaning(w, st, exprs, p, mark);
      }
    }
  }

  lemma {:induction false} MatchSuffix(w: World, st: Parse, exprs: seq<Expr>, p: Packet, mark: nat)
    requires LiteralRule(exprs) && Fresh(st) && !st.acted && exprs != [] && exprs[0].Match?
    requires Steps(st, exprs).rule.valid && Steps(st, exprs).rule.action != "" && st.rule.action == ""
    requires Selects(w, st.rule, p) && OutputHolds(st.rule, p)
    ensures Evaluate(w, exprs, p, mark) == Acts(w, Steps(st, exprs).rule, p, mark)
    decreases |exprs|, 0
  {
    var e, next := exprs[0], Step(st, exprs[0]);
    StepsKeep(next, exprs[1..]);
    MatchMeaning(w, e, st, p);
    if Test(w, e, p) {
      assert forall i :: 0 <= i < |exprs[1..]| ==> exprs[1..][i] == exprs[i + 1];
      SuffixMeaning(w, next, exprs[1..], p, mark);
    } else {
      MissMeaning(w, e, st, Steps(next, exprs[1..]).rule, p);
    }
  }

  /** A pattern that covers an interface without being its name. */
  predicate Covers(pattern: string, iif: string) {
    pattern != "" && pattern[|pattern| - 1] == '*' && pattern[..|pattern| - 1] <= iif && iif != pattern
  }

  lemma RuleMeaning(w: World, exprs: seq<Expr>, p: Packet, mark: nat)
    requires LiteralRule(exprs) && Parsed(exprs).valid
    ensures Evaluate(w, exprs, p, mark) == Acts(w, Parsed(exprs), p, mark)
  {
    SuffixMeaning(w, EMPTY, exprs, p, mark);
  }
}
