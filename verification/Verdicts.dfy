/** The verdict on a question: which facts count, and what they add up to. */
module Verdicts {
  import opened Bytes
  import opened Registry
  import opened QuestionDigest
  import opened Sorting

  datatype Assurance = RuntimeValidated | SyntheticRuntime | OperatorAttested | OtherAssurance

  /** Times are numbers and zero is the unset time. */
  datatype Window = Window(target: Ref, start: int, end: int)
  datatype Fact = Fact(id: string, property: string, target: Ref, tuple: Option<Tuple>, value: bool, scope: seq<Ref>,
                       policies: seq<Ref>, observedAt: int, validUntil: int, windowStart: int, windowEnd: int,
                       assurance: Assurance, windows: seq<Window>, validated: bool)

  const TEN_MINUTES: int := 600

  method SameRefs(a: seq<Ref>, b: seq<Ref>, hash: Ref -> int) returns (same: bool)
    requires Injective(hash)
    ensures same <==> multiset(a) == multiset(b)
  {
    if |a| != |b| {
      assert |multiset(a)| == |a| && |multiset(b)| == |b|;
      return false;
    }
    var x, y := Sort(a, hash), Sort(b, hash);
    SortedAlike(a, b, hash);
    var i := 0;
    while i < |x|
      invariant 0 <= i <= |x| && x[..i] == y[..i]
    {
      if x[i] != y[i] {
        return false;
      }
      i := i + 1;
    }
    assert x == x[..i] && y == y[..i];
    return true;
  }

  predicate WindowFits(w: Window, q: Request, observedAt: int) {
    w.start != 0 && w.start <= w.end <= observedAt && w.target in q.objects
  }

  /**
   A fact counts when it was checked, is about exactly this question, is current, and its windows lie before it was
   observed.
   */
  predicate Valid(f: Fact, q: Request, now: int, fixture: bool) {
    && f.validated && f.target == q.target && multiset(f.scope) == multiset(q.objects)
    && multiset(f.policies) == multiset(q.policies)
    && f.observedAt <= now <= f.validUntil <= f.observedAt + TEN_MINUTES
    && !f.assurance.OtherAssurance? && (f.assurance.SyntheticRuntime? ==> fixture)
    && (f.windowEnd != 0 ==> f.windowStart != 0 && f.windowStart <= f.windowEnd <= f.observedAt)
    && forall i :: 0 <= i < |f.windows| ==> WindowFits(f.windows[i], q, f.observedAt)
  }

  method ValidFact(f: Fact, q: Request, now: int, fixture: bool, hash: Ref -> int) returns (ok: bool)
    requires Injective(hash)
    ensures ok <==> Valid(f, q, now, fixture)
  {
    var scope := SameRefs(f.scope, q.objects, hash);
    var policies := SameRefs(f.policies, q.policies, hash);
    if !f.validated || f.target != q.target || !scope || !policies || f.observedAt > now || f.validUntil < now
       || f.validUntil > f.observedAt + TEN_MINUTES {
      return false;
    }
    if f.assurance == SyntheticRuntime && !fixture {
      return false;
    }
    if f.assurance != RuntimeValidated && f.assurance != SyntheticRuntime && f.assurance != OperatorAttested {
      return false;
    }
    if f.windowEnd != 0 && (f.windowStart == 0 || f.windowEnd < f.windowStart || f.windowEnd > f.observedAt) {
      return false;
    }
    var i := 0;
    while i < |f.windows|
      invariant 0 <= i <= |f.windows|
      invariant forall j :: 0 <= j < i ==> WindowFits(f.windows[j], q, f.observedAt)
    {
      var w := f.windows[i];
      if w.start == 0 || w.end < w.start || w.end > f.observedAt {
        return false;
      }
      var found, k := false, 0;
      while k < |q.objects|
        invariant 0 <= k <= |q.objects| && (found <==> w.target in q.objects[..k])
      {
        if q.objects[k] == w.target {
          found := true;
        }
        k := k + 1;
      }
      assert q.objects[..k] == q.objects;
      if !found {
        return false;
      }
      i := i + 1;
    }
    return true;
  }

  // ----- what a question requires

  function Properties(operation: string, path: bool, closed: bool): seq<string> {
    if operation == "gateway" then ["gateway.binding", "gateway.interface_binding", "gateway.reader",
                                    "gateway.policy_scope"]
    else if operation == "vpn" then
      ["vpn.binding", "vpn.peer_binding", "vpn.session_freshness", "vpn.route_ownership"]
      + (if path then ["vpn.path_selection"] else []) + if closed then ["vpn.fail_closed_guard"] else []
    else []
  }

  predicate ProfileValid(q: Request) {
    (q.operation == "gateway" || q.operation == "vpn") ==>
      && q.required == Properties(q.operation, "vpn.path_selection" in q.required,
                                  "vpn.fail_closed_guard" in q.required)
      && q.tuples == []
  }

  predicate Finite(q: Request) {
    q.required != [] && ProfileValid(q)
  }

  const ZERO_TUPLE: Tuple := Tuple(NO_REF, NO_REF, "", "", "", 0, "")

  /** The scopes a question asks about: each tuple, or the question as a whole. */
  function Scopes(q: Request): seq<Option<Tuple>> {
    if q.tuples == [] then [None] else seq(|q.tuples|, i requires 0 <= i < |q.tuples| => Some(q.tuples[i]))
  }

  /** The properties required in one scope; key gives the text under which a tuple's list is stored. */
  function RequiredIn(q: Request, scope: Option<Tuple>, key: Tuple -> string): seq<string> {
    if |q.tupleRequired| == 0 then q.required
    else
      var k := key(if scope.Some? then scope.value else ZERO_TUPLE);
      if k in q.tupleRequired then q.tupleRequired[k] else []
  }

  /** A fact that speaks for a property in a scope. */
  predicate Speaks(f: Fact, property: string, scope: Option<Tuple>, q: Request, now: int, fixture: bool) {
    f.property == property && Valid(f, q, now, fixture) && f.tuple == scope
      && (scope.Some? ==> scope.value.mode == "direct")
  }

  datatype Verdict = Verified | Violated | Unverified
  datatype State = Absent | Pass | Contradicted
  datatype Result = Result(property: string, scope: Option<Tuple>, state: State, evidence: seq<string>,
                           assurance: seq<Assurance>)
  datatype Assessment = Assessment(verdict: Verdict, results: seq<Result>, missing: seq<string>, evidence: seq<Fact>)

  /** The facts that speak for the property, in order. */
  function Speakers(facts: seq<Fact>, property: string, scope: Option<Tuple>, q: Request, now: int,
                    fixture: bool): seq<Fact> {
    if facts == [] then []
    else
      var n := |facts| - 1;
      Speakers(facts[..n], property, scope, q, now, fixture)
      + if Speaks(facts[n], property, scope, q, now, fixture) then [facts[n]] else []
  }

  lemma {:induction false} SpeakersAre(facts: seq<Fact>, property: string, scope: Option<Tuple>, q: Request, now: int,
                                       fixture: bool, f: Fact)
    ensures f in Speakers(facts, property, scope, q, now, fixture) <==>
            f in facts && Speaks(f, property, scope, q, now, fixture)
  {
    if facts != [] {
      var n := |facts| - 1;
      SpeakersAre(facts[..n], property, scope, q, now, fixture, f);
      assert facts == facts[..n] + [facts[n]];
    }
  }

  function Ids(facts: seq<Fact>): seq<string> {
    seq(|facts|, i requires 0 <= i < |facts| => facts[i].id)
  }

  function Assurances(facts: seq<Fact>): seq<Assurance> {
    seq(|facts|, i requires 0 <= i < |facts| => facts[i].assurance)
  }

  /** Some fact that speaks for the property says no. */
  predicate Denied(facts: seq<Fact>, property: string, scope: Option<Tuple>, q: Request, now: int, fixture: bool) {
    exists i :: 0 <= i < |facts| && Speaks(facts[i], property, scope, q, now, fixture) && !facts[i].value
  }

  /** Some fact speaks for the property. */
  predicate Shown(facts: seq<Fact>, property: string, scope: Option<Tuple>, q: Request, now: int, fixture: bool) {
    exists i :: 0 <= i < |facts| && Speaks(facts[i], property, scope, q, now, fixture)
  }

  function StateOf(facts: seq<Fact>, property: string, scope: Option<Tuple>, q: Request, now: int,
                   fixture: bool): State {
    if Denied(facts, property, scope, q, now, fixture) then Contradicted
    else if Shown(facts, property, scope, q, now, fixture) then Pass
    else Absent
  }

  lemma StateStep(facts: seq<Fact>, k: nat, property: string, scope: Option<Tuple>, q: Request, now: int, fixture: bool)
    requires k < |facts|
    ensures var was, f := StateOf(facts[..k], property, scope, q, now, fixture), facts[k];
            StateOf(facts[..k + 1], property, scope, q, now, fixture) ==
            if !Speaks(f, property, scope, q, now, fixture) then was
            else if !f.value || was.Contradicted? then Contradicted else Pass
  {
    var a, b := facts[..k], facts[..k + 1];
    assert b == a + [facts[k]];
    assert b[k] == facts[k] && forall i :: 0 <= i < k ==> b[i] == a[i];
  }

  /** What the facts say of one property: its state, and the facts that speak for it. */
  function ResultOf(facts: seq<Fact>, property: string, scope: Option<Tuple>, q: Request, now: int,
                    fixture: bool): Result {
    var spoken := Speakers(facts, property, scope, q, now, fixture);
    Result(property, scope, StateOf(facts, property, scope, q, now, fixture), Ids(spoken), Assurances(spoken))
  }

  /** Weighs every fact for one property. */
  method Judge(facts: seq<Fact>, property: string, scope: Option<Tuple>, q: Request, now: int, fixture: bool,
               hash: Ref -> int)
    returns (r: Result, spoken: seq<Fact>)
    requires Injective(hash)
    ensures r == ResultOf(facts, property, scope, q, now, fixture)
    ensures spoken == Speakers(facts, property, scope, q, now, fixture)
  {
    r, spoken := Result(property, scope, Absent, [], []), [];
    var k := 0;
    while k < |facts|
      invariant 0 <= k <= |facts| && r == ResultOf(facts[..k], property, scope, q, now, fixture)
      invariant spoken == Speakers(facts[..k], property, scope, q, now, fixture)
    {
      var f := facts[k];
      StateStep(facts, k, property, scope, q, now, fixture);
      assert facts[..k + 1][..k] == facts[..k] && facts[..k + 1][k] == f;
      var valid := ValidFact(f, q, now, fixture, hash);
      if f.property == property && valid && f.tuple == scope && (f.tuple.None? || f.tuple.value.mode == "direct") {
        spoken := spoken + [f];
        r := r.(evidence := r.evidence + [f.id], assurance := r.assurance + [f.assurance],
                state := if !f.value then Contradicted else if r.state.Contradicted? then Contradicted else Pass);
      }
      k := k + 1;
    }
    assert facts[..k] == facts;
  }

  // ----- the verdict

  function Claimed(scope: Option<Tuple>, required: seq<string>): seq<(Option<Tuple>, string)> {
    seq(|required|, i requires 0 <= i < |required| => (scope, required[i]))
  }

  /** Every scope with every property required in it, in order. */
  function Claims(q: Request, scopes: seq<Option<Tuple>>, key: Tuple -> string): seq<(Option<Tuple>, string)> {
    if scopes == [] then []
    else
      var n := |scopes| - 1;
      Claims(q, scopes[..n], key) + Claimed(scopes[n], RequiredIn(q, scopes[n], key))
  }

  /** One result for each claim, with the state the facts give it. */
  predicate Judged(results: seq<Result>, claims: seq<(Option<Tuple>, string)>, facts: seq<Fact>, q: Request, now: int,
                   fixture: bool) {
    && |results| == |claims|
    && forall i :: 0 <= i < |claims| ==>
         results[i] == ResultOf(facts, claims[i].1, claims[i].0, q, now, fixture)
  }

  /** The claims nothing speaks for, in order. */
  function Unmet(facts: seq<Fact>, scope: Option<Tuple>, required: seq<string>, q: Request, now: int,
                 fixture: bool): seq<string> {
    if required == [] then []
    else
      var n := |required| - 1;
      Unmet(facts, scope, required[..n], q, now, fixture)
      + if Shown(facts, required[n], scope, q, now, fixture) then [] else [required[n]]
  }

  /** What speaks for the claims, in order. */
  function Spoken(facts: seq<Fact>, scope: Option<Tuple>, required: seq<string>, q: Request, now: int,
                  fixture: bool): seq<Fact> {
    if required == [] then []
    else
      var n := |required| - 1;
      Spoken(facts, scope, required[..n], q, now, fixture) + Speakers(facts, required[n], scope, q, now, fixture)
  }

  /** What is missing in each scope: any requirement at all, or something that speaks for one. */
  function Missing(facts: seq<Fact>, scopes: seq<Option<Tuple>>, q: Request, now: int, fixture: bool,
                   key: Tuple -> string): seq<string> {
    if scopes == [] then []
    else
      var n := |scopes| - 1;
      var required := RequiredIn(q, scopes[n], key);
      Missing(facts, scopes[..n], q, now, fixture, key)
      + if required == [] then ["tuple_property_scope"] else Unmet(facts, scopes[n], required, q, now, fixture)
  }

  function Heard(facts: seq<Fact>, scopes: seq<Option<Tuple>>, q: Request, now: int, fixture: bool,
                 key: Tuple -> string): seq<Fact> {
    if scopes == [] then []
    else
      var n := |scopes| - 1;
      Heard(facts, scopes[..n], q, now, fixture, key)
      + Spoken(facts, scopes[n], RequiredIn(q, scopes[n], key), q, now, fixture)
  }

  predicate AnyIs(results: seq<Result>, state: State) {
    exists i :: 0 <= i < |results| && results[i].state == state
  }

  predicate Unscoped(q: Request, scopes: seq<Option<Tuple>>, key: Tuple -> string) {
    exists i :: 0 <= i < |scopes| && RequiredIn(q, scopes[i], key) == []
  }

  function Summed(contradicted: bool, lacking: bool): Verdict {
    if contradicted then Violated else if lacking then Unverified else Verified
  }

  /** The running verdict and the missing list agree with the results so far. */
  predicate Tallied(a: Assessment, unscoped: bool) {
    && a.verdict == Summed(AnyIs(a.results, Contradicted), unscoped || AnyIs(a.results, Absent))
    && (a.missing == [] <==> !unscoped && !AnyIs(a.results, Absent))
  }

  lemma AnyAppend(results: seq<Result>, r: Result, state: State)
    ensures AnyIs(results + [r], state) <==> AnyIs(results, state) || r.state == state
  {
    var more := results + [r];
    assert more[|results|] == r && forall i :: 0 <= i < |results| ==> more[i] == results[i];
  }

  const START: Assessment := Assessment(Verified, [], [], [])

  /** Something is missing. */
  function Lacks(a: Assessment, what: string): Assessment {
    a.(missing := a.missing + [what], verdict := if a.verdict == Violated then Violated else Unverified)
  }

  /** One more result, and the facts behind it. */
  function Noted(a: Assessment, r: Result, spoken: seq<Fact>): Assessment {
    var b := a.(results := a.results + [r], evidence := a.evidence + spoken);
    match r.state
    case Contradicted => b.(verdict := Violated)
    case Pass => b
    case Absent => Lacks(b, r.property)
  }

  /** The properties of one scope, one after the other. */
  function ScopeJudged(was: Assessment, facts: seq<Fact>, scope: Option<Tuple>, required: seq<string>, q: Request,
                       now: int, fixture: bool): Assessment {
    if required == [] then was
    else
      var n := |required| - 1;
      Noted(ScopeJudged(was, facts, scope, required[..n], q, now, fixture),
            ResultOf(facts, required[n], scope, q, now, fixture),
            Speakers(facts, required[n], scope, q, now, fixture))
  }

  /** All scopes, one after the other. */
  function AllJudged(facts: seq<Fact>, scopes: seq<Option<Tuple>>, q: Request, now: int, fixture: bool,
                     key: Tuple -> string): Assessment {
    if scopes == [] then START
    else
      var n := |scopes| - 1;
      var required, was := RequiredIn(q, scopes[n], key), AllJudged(facts, scopes[..n], q, now, fixture, key);
      ScopeJudged(if |q.tupleRequired| > 0 && required == [] then Lacks(was, "tuple_property_scope") else was,
                  facts, scopes[n], required, q, now, fixture)
  }

  method JudgeScope(was: Assessment, facts: seq<Fact>, scope: Option<Tuple>, required: seq<string>, q: Request,
                    now: int, fixture: bool, hash: Ref -> int)
    returns (a: Assessment)
    requires Injective(hash)
    ensures a == ScopeJudged(was, facts, scope, required, q, now, fixture)
  {
    a := was;
    var i := 0;
    while i < |required|
      invariant 0 <= i <= |required| && a == ScopeJudged(was, facts, scope, required[..i], q, now, fixture)
    {
      var r, spoken := Judge(facts, required[i], scope, q, now, fixture, hash);
      assert required[..i + 1][..i] == required[..i] && required[..i + 1][i] == required[i];
      ghost var after := Noted(a, r, spoken);
      a := a.(evidence := a.evidence + spoken);
      if r.state == Contradicted {
        a := a.(verdict := Violated);
      }
      if r.state == Absent {
        a := a.(missing := a.missing + [required[i]]);
        if a.verdict != Violated {
          a := a.(verdict := Unverified);
        }
      }
      a := a.(results := a.results + [r]);
      assert a == after;
      i := i + 1;
    }
    assert required[..i] == required;
  }

  /** Weighs the facts against everything a question requires. */
  method Evaluate(q: Request, facts: seq<Fact>, now: int, cleanup: bool, fixture: bool, hash: Ref -> int,
                  key: Tuple -> string)
    returns (a: Assessment)
    requires Injective(hash)
    ensures a.verdict == VerdictOf(q, facts, now, cleanup, fixture, key)
    ensures a.missing == [] <==> Finite(q) && Complete(q, facts, now, fixture, key) && cleanup
    ensures a.missing == if !Finite(q) then ["finite_profile"]
                         else Missing(facts, Scopes(q), q, now, fixture, key) + if cleanup then [] else ["cleanup"]
    ensures a.evidence == if Finite(q) then Heard(facts, Scopes(q), q, now, fixture, key) else []
    ensures Finite(q) ==> Judged(a.results, Claims(q, Scopes(q), key), facts, q, now, fixture)
  {
    a := START;
    if |q.required| == 0 || !ProfileValid(q) {
      return a.(missing := ["finite_profile"], verdict := Unverified);
    }
    a := JudgeScopes(q, facts, now, fixture, hash, key);
    AllTallied(facts, Scopes(q), q, now, fixture, key);
    AllMissing(facts, Scopes(q), q, now, fixture, key);
    AllResults(facts, Scopes(q), q, now, fixture, key);
    ContradictionMeans(q, facts, now, fixture, key, a.results);
    CompletenessMeans(q, facts, now, fixture, key, a.results);
    if !cleanup {
      a := a.(missing := a.missing + ["cleanup"]);
      if a.verdict != Violated {
        a := a.(verdict := Unverified);
      }
    }
  }

  method JudgeScopes(q: Request, facts: seq<Fact>, now: int, fixture: bool, hash: Ref -> int, key: Tuple -> string)
    returns (a: Assessment)
    requires Injective(hash)
    ensures a == AllJudged(facts, Scopes(q), q, now, fixture, key)
  {
    a := START;
    var scopes := Scopes(q);
    var i := 0;
    while i < |scopes|
      invariant 0 <= i <= |scopes| && a == AllJudged(facts, scopes[..i], q, now, fixture, key)
    {
      assert scopes[..i + 1][..i] == scopes[..i] && scopes[..i + 1][i] == scopes[i];
      var required := RequiredIn(q, scopes[i], key);
      if |q.tupleRequired| > 0 && |required| == 0 {
        a := a.(missing := a.missing + ["tuple_property_scope"]);
        if a.verdict != Violated {
          a := a.(verdict := Unverified);
        }
      }
      a := JudgeScope(a, facts, scopes[i], required, q, now, fixture, hash);
      i := i + 1;
    }
    assert scopes[..i] == scopes;
  }

  // ----- what the running assessment holds

  lemma {:induction false} ScopeTallied(was: Assessment, unscoped: bool, facts: seq<Fact>, scope: Option<Tuple>,
                                        required: seq<string>, q: Request, now: int, fixture: bool)
    requires Tallied(was, unscoped)
    ensures Tallied(ScopeJudged(was, facts, scope, required, q, now, fixture), unscoped)
    decreases |required|
  {
    if required != [] {
      var n := |required| - 1;
      ScopeTallied(was, unscoped, facts, scope, required[..n], q, now, fixture);
      NotedTallied(ScopeJudged(was, facts, scope, required[..n], q, now, fixture), unscoped,
                   ResultOf(facts, required[n], scope, q, now, fixture),
                   Speakers(facts, required[n], scope, q, now, fixture));
    }
  }

  lemma NotedTallied(a: Assessment, unscoped: bool, r: Result, spoken: seq<Fact>)
    requires Tallied(a, unscoped)
    ensures Tallied(Noted(a, r, spoken), unscoped)
  {
    AnyAppend(a.results, r, Contradicted);
    AnyAppend(a.results, r, Absent);
  }

  lemma {:induction false} AllTallied(facts: seq<Fact>, scopes: seq<Option<Tuple>>, q: Request, now: int,
                                      fixture: bool, key: Tuple -> string)
    requires q.required != []
    ensures Tallied(AllJudged(facts, scopes, q, now, fixture, key), Unscoped(q, scopes, key))
    decreases |scopes|
  {
    if scopes != [] {
      var n := |scopes| - 1;
      var front, required := scopes[..n], RequiredIn(q, scopes[n], key);
      AllTallied(facts, front, q, now, fixture, key);
      var was := AllJudged(facts, front, q, now, fixture, key);
      assert Unscoped(q, scopes, key) <==> Unscoped(q, front, key) || required == [] by {
        assert forall i :: 0 <= i < n ==> scopes[i] == front[i];
      }
      assert required == [] ==> |q.tupleRequired| > 0;
      ScopeTallied(if required == [] then Lacks(was, "tuple_property_scope") else was, Unscoped(q, scopes, key),
                   facts, scopes[n], required, q, now, fixture);
    }
  }

  lemma {:induction false} ScopeMissing(was: Assessment, facts: seq<Fact>, scope: Option<Tuple>, required: seq<string>,
                                        q: Request, now: int, fixture: bool)
    ensures var a := ScopeJudged(was, facts, scope, required, q, now, fixture);
            && a.missing == was.missing + Unmet(facts, scope, required, q, now, fixture)
            && a.evidence == was.evidence + Spoken(facts, scope, required, q, now, fixture)
    decreases |required|
  {
    if required != [] {
      var n := |required| - 1;
      ScopeMissing(was, facts, scope, required[..n], q, now, fixture);
      var spoken := Speakers(facts, required[n], scope, q, now, fixture);
      NotedAdds(ScopeJudged(was, facts, scope, required[..n], q, now, fixture),
                ResultOf(facts, required[n], scope, q, now, fixture), spoken);
      var unmet := if Shown(facts, required[n], scope, q, now, fixture) then [] else [required[n]];
      Grouped(was.missing, Unmet(facts, scope, required[..n], q, now, fixture), unmet);
      Grouped(was.evidence, Spoken(facts, scope, required[..n], q, now, fixture), spoken);
    }
  }

  lemma NotedAdds(a: Assessment, r: Result, spoken: seq<Fact>)
    ensures Noted(a, r, spoken).missing == a.missing + if r.state == Absent then [r.property] else []
    ensures Noted(a, r, spoken).evidence == a.evidence + spoken
  {
  }

  lemma Grouped<T>(a: seq<T>, b: seq<T>, c: seq<T>)
    ensures (a + b) + c == a + (b + c)
  {
  }

  lemma {:induction false} AllMissing(facts: seq<Fact>, scopes: seq<Option<Tuple>>, q: Request, now: int, fixture: bool,
                                      key: Tuple -> string)
    requires q.required != []
    ensures var a := AllJudged(facts, scopes, q, now, fixture, key);
            && a.missing == Missing(facts, scopes, q, now, fixture, key)
            && a.evidence == Heard(facts, scopes, q, now, fixture, key)
    decreases |scopes|
  {
    if scopes != [] {
      var n := |scopes| - 1;
      var required, was := RequiredIn(q, scopes[n], key), AllJudged(facts, scopes[..n], q, now, fixture, key);
      AllMissing(facts, scopes[..n], q, now, fixture, key);
      assert required == [] ==> |q.tupleRequired| > 0;
      ScopeMissing(if required == [] then Lacks(was, "tuple_property_scope") else was, facts, scopes[n], required, q,
                   now, fixture);
    }
  }

  lemma {:induction false} ScopeResults(was: Assessment, facts: seq<Fact>, scope: Option<Tuple>, required: seq<string>,
                                        q: Request, now: int, fixture: bool, claims: seq<(Option<Tuple>, string)>)
    requires Judged(was.results, claims, facts, q, now, fixture)
    ensures Judged(ScopeJudged(was, facts, scope, required, q, now, fixture).results,
                   claims + Claimed(scope, required), facts, q, now, fixture)
    decreases |required|
  {
    if required != [] {
      var n := |required| - 1;
      ScopeResults(was, facts, scope, required[..n], q, now, fixture, claims);
      ClaimedLast(scope, required);
      Grouped(claims, Claimed(scope, required[..n]), [(scope, required[n])]);
      JudgedMore(ScopeJudged(was, facts, scope, required[..n], q, now, fixture).results,
                 claims + Claimed(scope, required[..n]), required[n], scope, facts, q, now, fixture);
    }
  }

  lemma ClaimedLast(scope: Option<Tuple>, required: seq<string>)
    requires required != []
    ensures var n := |required| - 1;
            Claimed(scope, required) == Claimed(scope, required[..n]) + [(scope, required[n])]
  {
  }

  lemma JudgedMore(results: seq<Result>, claims: seq<(Option<Tuple>, string)>, property: string, scope: Option<Tuple>,
                   facts: seq<Fact>, q: Request, now: int, fixture: bool)
    requires Judged(results, claims, facts, q, now, fixture)
    ensures Judged(results + [ResultOf(facts, property, scope, q, now, fixture)], claims + [(scope, property)],
                   facts, q, now, fixture)
  {
  }

  lemma {:induction false} AllResults(facts: seq<Fact>, scopes: seq<Option<Tuple>>, q: Request, now: int, fixture: bool,
                                      key: Tuple -> string)
    ensures Judged(AllJudged(facts, scopes, q, now, fixture, key).results, Claims(q, scopes, key), facts, q, now,
                   fixture)
    decreases |scopes|
  {
    if scopes != [] {
      var n := |scopes| - 1;
      var required, was := RequiredIn(q, scopes[n], key), AllJudged(facts, scopes[..n], q, now, fixture, key);
      AllResults(facts, scopes[..n], q, now, fixture, key);
      ScopeResults(if |q.tupleRequired| > 0 && required == [] then Lacks(was, "tuple_property_scope") else was, facts,
                   scopes[n], required, q, now, fixture, Claims(q, scopes[..n], key));
    }
  }

  /** Every scope has requirements, and some valid fact speaks for each. */
  ghost predicate Complete(q: Request, facts: seq<Fact>, now: int, fixture: bool, key: Tuple -> string) {
    forall s :: s in Scopes(q) ==>
      && RequiredIn(q, s, key) != []
      && forall p :: p in RequiredIn(q, s, key) ==> Shown(facts, p, s, q, now, fixture)
  }

  /** Some valid fact denies a required property. */
  ghost predicate Contradicts(q: Request, facts: seq<Fact>, now: int, fixture: bool, key: Tuple -> string) {
    exists s, p :: s in Scopes(q) && p in RequiredIn(q, s, key) && Denied(facts, p, s, q, now, fixture)
  }

  ghost function VerdictOf(q: Request, facts: seq<Fact>, now: int, cleanup: bool, fixture: bool,
                           key: Tuple -> string): Verdict {
    if !Finite(q) then Unverified
    else if Contradicts(q, facts, now, fixture, key) then Violated
    else if Complete(q, facts, now, fixture, key) && cleanup then Verified
    else Unverified
  }

  lemma {:induction false} ClaimsAre(q: Request, scopes: seq<Option<Tuple>>, key: Tuple -> string, s: Option<Tuple>,
                                     p: string)
    ensures (s, p) in Claims(q, scopes, key) <==> s in scopes && p in RequiredIn(q, s, key)
    decreases |scopes|
  {
    if scopes != [] {
      var n := |scopes| - 1;
      ClaimsAre(q, scopes[..n], key, s, p);
      assert scopes == scopes[..n] + [scopes[n]];
      var required := RequiredIn(q, scopes[n], key);
      if s == scopes[n] && p in required {
        var i :| 0 <= i < |required| && required[i] == p;
        assert Claimed(s, required)[i] == (s, p);
      }
    }
  }

  lemma ClaimAt(q: Request, scopes: seq<Option<Tuple>>, key: Tuple -> string, s: Option<Tuple>,
                p: string) returns (i: nat)
    requires s in scopes && p in RequiredIn(q, s, key)
    ensures i < |Claims(q, scopes, key)| && Claims(q, scopes, key)[i] == (s, p)
  {
    ClaimsAre(q, scopes, key, s, p);
    i :| 0 <= i < |Claims(q, scopes, key)| && Claims(q, scopes, key)[i] == (s, p);
  }

  lemma ClaimFrom(q: Request, scopes: seq<Option<Tuple>>, key: Tuple -> string, i: nat)
    requires i < |Claims(q, scopes, key)|
    ensures var (s, p) := Claims(q, scopes, key)[i]; s in scopes && p in RequiredIn(q, s, key)
  {
    var (s, p) := Claims(q, scopes, key)[i];
    ClaimsAre(q, scopes, key, s, p);
  }

  lemma ContradictionMeans(q: Request, facts: seq<Fact>, now: int, fixture: bool, key: Tuple -> string,
                           results: seq<Result>)
    requires Judged(results, Claims(q, Scopes(q), key), facts, q, now, fixture)
    ensures AnyIs(results, Contradicted) <==> Contradicts(q, facts, now, fixture, key)
  {
    if AnyIs(results, Contradicted) {
      var i :| 0 <= i < |results| && results[i].state == Contradicted;
      ClaimFrom(q, Scopes(q), key, i);
    }
    if Contradicts(q, facts, now, fixture, key) {
      var s, p :| s in Scopes(q) && p in RequiredIn(q, s, key) && Denied(facts, p, s, q, now, fixture);
      var i := ClaimAt(q, Scopes(q), key, s, p);
      assert results[i].state == Contradicted;
    }
  }

  lemma CompletenessMeans(q: Request, facts: seq<Fact>, now: int, fixture: bool, key: Tuple -> string,
                          results: seq<Result>)
    requires Judged(results, Claims(q, Scopes(q), key), facts, q, now, fixture)
    ensures !AnyIs(results, Absent) && !Unscoped(q, Scopes(q), key) <==> Complete(q, facts, now, fixture, key)
  {
    if AnyIs(results, Absent) {
      var i :| 0 <= i < |results| && results[i].state == Absent;
      ClaimFrom(q, Scopes(q), key, i);
    } else {
      forall s, p | s in Scopes(q) && p in RequiredIn(q, s, key)
        ensures Shown(facts, p, s, q, now, fixture)
      {
        var i := ClaimAt(q, Scopes(q), key, s, p);
        assert results[i].state != Absent;
      }
    }
  }

  /**
   Verified exactly when the profile is finite, everything required is shown and nothing required is denied, and cleanup
   held.
   */
  lemma VerifiedMeans(q: Request, facts: seq<Fact>, now: int, cleanup: bool, fixture: bool, key: Tuple -> string)
    ensures VerdictOf(q, facts, now, cleanup, fixture, key) == Verified <==>
            && Finite(q) && cleanup
            && forall s :: s in Scopes(q) ==>
                 && RequiredIn(q, s, key) != []
                 && forall p :: p in RequiredIn(q, s, key) ==>
                      Shown(facts, p, s, q, now, fixture) && !Denied(facts, p, s, q, now, fixture)
  {
  }

  /** The same question with its references and its facts' references in any order. */
  predicate Reordered(q: Request, p: Request) {
    p == q.(objects := p.objects, policies := p.policies) && multiset(q.objects) == multiset(p.objects)
    && multiset(q.policies) == multiset(p.policies)
  }

  predicate SameFact(f: Fact, g: Fact) {
    g == f.(scope := g.scope, policies := g.policies) && multiset(f.scope) == multiset(g.scope)
    && multiset(f.policies) == multiset(g.policies)
  }

  /** Each fact of a has a counterpart in b. */
  predicate Mirrored(a: seq<Fact>, b: seq<Fact>) {
    forall i :: 0 <= i < |a| ==> exists j :: 0 <= j < |b| && SameFact(a[i], b[j])
  }

  lemma SpeaksAlike(f: Fact, g: Fact, q: Request, p: Request, property: string, s: Option<Tuple>, now: int,
                    fixture: bool)
    requires SameFact(f, g) && Reordered(q, p)
    ensures Speaks(f, property, s, q, now, fixture) <==> Speaks(g, property, s, p, now, fixture)
  {
    forall w: Window
      ensures WindowFits(w, q, f.observedAt) <==> WindowFits(w, p, f.observedAt)
    {
      assert w.target in q.objects <==> w.target in multiset(q.objects);
      assert w.target in p.objects <==> w.target in multiset(p.objects);
    }
  }

  lemma MirroredSpeaks(a: seq<Fact>, b: seq<Fact>, q: Request, p: Request, property: string, s: Option<Tuple>, now: int,
                       fixture: bool)
    requires Mirrored(a, b) && Reordered(q, p)
    ensures Shown(a, property, s, q, now, fixture) ==> Shown(b, property, s, p, now, fixture)
    ensures Denied(a, property, s, q, now, fixture) ==> Denied(b, property, s, p, now, fixture)
  {
    forall i | 0 <= i < |a| && Speaks(a[i], property, s, q, now, fixture)
      ensures exists j :: 0 <= j < |b| && Speaks(b[j], property, s, p, now, fixture) && b[j].value == a[i].value
    {
      var j :| 0 <= j < |b| && SameFact(a[i], b[j]);
      SpeaksAlike(a[i], b[j], q, p, property, s, now, fixture);
    }
  }

  lemma MirroredContradicts(a: seq<Fact>, b: seq<Fact>, q: Request, p: Request, now: int, fixture: bool,
                            key: Tuple -> string)
    requires Mirrored(a, b) && Reordered(q, p)
    ensures Contradicts(q, a, now, fixture, key) ==> Contradicts(p, b, now, fixture, key)
  {
    if Contradicts(q, a, now, fixture, key) {
      var s, property :| s in Scopes(q) && property in RequiredIn(q, s, key) && Denied(a, property, s, q, now, fixture);
      MirroredSpeaks(a, b, q, p, property, s, now, fixture);
      SameScopes(q, p, s, key);
    }
  }

  lemma SameScopes(q: Request, p: Request, s: Option<Tuple>, key: Tuple -> string)
    requires Reordered(q, p)
    ensures (s in Scopes(q) <==> s in Scopes(p)) && RequiredIn(q, s, key) == RequiredIn(p, s, key)
  {
    assert Scopes(q) == Scopes(p);
  }

  lemma MirroredComplete(a: seq<Fact>, b: seq<Fact>, q: Request, p: Request, now: int, fixture: bool,
                         key: Tuple -> string)
    requires Mirrored(a, b) && Reordered(q, p) && Complete(q, a, now, fixture, key)
    ensures Complete(p, b, now, fixture, key)
  {
    forall s | s in Scopes(p)
      ensures RequiredIn(p, s, key) != [] && forall x :: x in RequiredIn(p, s, key) ==> Shown(b, x, s, p, now, fixture)
    {
      SameScopes(q, p, s, key);
      forall x | x in RequiredIn(p, s, key)
        ensures Shown(b, x, s, p, now, fixture)
      {
        MirroredSpeaks(a, b, q, p, x, s, now, fixture);
      }
    }
  }

  lemma FiniteAlike(q: Request, p: Request)
    requires Reordered(q, p)
    ensures Finite(q) <==> Finite(p)
  {
    assert q.required == p.required && q.operation == p.operation && q.tuples == p.tuples;
  }

  lemma ContradictsAlike(q: Request, p: Request, a: seq<Fact>, b: seq<Fact>, now: int, fixture: bool,
                         key: Tuple -> string)
    requires Reordered(q, p) && Mirrored(a, b) && Mirrored(b, a)
    ensures Contradicts(q, a, now, fixture, key) <==> Contradicts(p, b, now, fixture, key)
  {
    MirroredContradicts(a, b, q, p, now, fixture, key);
    MirroredContradicts(b, a, p, q, now, fixture, key);
  }

  lemma CompleteAlike(q: Request, p: Request, a: seq<Fact>, b: seq<Fact>, now: int, fixture: bool, key: Tuple -> string)
    requires Reordered(q, p) && Mirrored(a, b) && Mirrored(b, a)
    ensures Complete(q, a, now, fixture, key) <==> Complete(p, b, now, fixture, key)
  {
    if Complete(q, a, now, fixture, key) {
      MirroredComplete(a, b, q, p, now, fixture, key);
    } else if Complete(p, b, now, fixture, key) {
      MirroredComplete(b, a, p, q, now, fixture, key);
    }
  }

  /**
   The verdict does not depend on the order of the facts, of repeated facts, or of the references inside them or the
   question.
   */
  lemma VerdictIgnoresOrder(q: Request, p: Request, a: seq<Fact>, b: seq<Fact>, now: int, cleanup: bool, fixture: bool,
                            key: Tuple -> string)
    requires Reordered(q, p) && Mirrored(a, b) && Mirrored(b, a)
    ensures VerdictOf(q, a, now, cleanup, fixture, key) == VerdictOf(p, b, now, cleanup, fixture, key)
  {
    FiniteAlike(q, p);
    ContradictsAlike(q, p, a, b, now, fixture, key);
    CompleteAlike(q, p, a, b, now, fixture, key);
  }
}
