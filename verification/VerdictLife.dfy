/** Facts as the readers make them: for which questions and how long they count, and the verdicts they lead to. */
module VerdictLife {
  import opened Bytes
  import opened Registry
  import opened QuestionDigest
  import opened Verdicts

  /** A fact made for a question at a time. */
  function MadeFact(property: string, q: Request, scope: Option<Tuple>, value: bool, assurance: Assurance, at: int,
                    id: string): Fact {
    Fact(id, property, q.target, scope, value, q.objects, q.policies, at, at + 600, 0, 0, assurance, [], true)
  }

  predicate SameSubject(p: Request, q: Request) {
    p.target == q.target && multiset(p.objects) == multiset(q.objects) && multiset(p.policies) == multiset(q.policies)
  }

  /** Between two times, in order and not after the fact was observed. */
  predicate Observed(start: int, end: int, observedAt: int) {
    start != 0 && start <= end && end <= observedAt
  }

  /**
   A fact made for one question counts for another exactly when both are about the same target, objects and policies,
   within ten minutes of being made, with a known assurance, a synthetic one only for a fixture, and with every window,
   its own and those of its observers, closed before it was made, the latter at objects of the question.
   */
  lemma MadeFactCounts(property: string, p: Request, scope: Option<Tuple>, value: bool, assurance: Assurance, at: int,
                       id: string, q: Request, now: int, fixture: bool, start: int, end: int, windows: seq<Window>)
    ensures var f := MadeFact(property, p, scope, value, assurance, at, id);
            Valid(f.(windowStart := start, windowEnd := end, windows := windows), q, now, fixture) <==>
            && SameSubject(p, q) && at <= now && now <= at + 600
            && (assurance == RuntimeValidated || assurance == OperatorAttested
                || (assurance == SyntheticRuntime && fixture))
            && (end == 0 || Observed(start, end, at))
            && forall i :: 0 <= i < |windows| ==>
                 Observed(windows[i].start, windows[i].end, at) && windows[i].target in q.objects
  {
    var f := MadeFact(property, p, scope, value, assurance, at, id).(windowStart := start, windowEnd := end,
                                                                     windows := windows);
    assert forall i :: 0 <= i < |windows| ==>
        (WindowFits(windows[i], q, at) <==>
         Observed(windows[i].start, windows[i].end, at) && windows[i].target in q.objects);
    assert f.windows == windows;
  }

  /** A fact whose lifetime is longer than ten minutes never counts, nor does one that was not checked. */
  lemma OverlongNeverCounts(f: Fact, q: Request, now: int, fixture: bool)
    requires f.validUntil > f.observedAt + 600 || !f.validated
    ensures !Valid(f, q, now, fixture)
  {
  }

  /** The facts answer everything the question requires, each made at one time and with one assurance. */
  ghost predicate Answers(q: Request, facts: seq<Fact>, assurance: Assurance, at: int, key: Tuple -> string) {
    && (forall s, p :: s in Scopes(q) && p in RequiredIn(q, s, key) ==> Answered(facts, s, p))
    && forall i :: 0 <= i < |facts| ==>
         facts[i] == MadeFact(facts[i].property, q, facts[i].tuple, facts[i].value, assurance, at, facts[i].id)
  }

  predicate Answered(facts: seq<Fact>, s: Option<Tuple>, p: string) {
    exists i :: 0 <= i < |facts| && facts[i].property == p && facts[i].tuple == s
  }

  ghost predicate Direct(q: Request, key: Tuple -> string) {
    forall s :: s in Scopes(q) ==> RequiredIn(q, s, key) != [] && (s.Some? ==> s.value.mode == "direct")
  }

  lemma MadeSpeaks(q: Request, f: Fact, assurance: Assurance, at: int, now: int, fixture: bool)
    requires f == MadeFact(f.property, q, f.tuple, f.value, assurance, at, f.id)
    ensures Valid(f, q, now, fixture) <==>
            at <= now <= at + 600 && !assurance.OtherAssurance? && (assurance.SyntheticRuntime? ==> fixture)
  {
    MadeFactCounts(f.property, q, f.tuple, f.value, assurance, at, f.id, q, now, fixture, 0, 0, []);
    assert f.(windowStart := 0, windowEnd := 0, windows := []) == f;
  }

  /**
   A question about direct traffic that was answered completely is verified for exactly ten minutes when all answers are
   yes and the cleanup held, and violated for exactly these ten minutes when some required answer is no.
   */
  lemma AnsweredForTenMinutes(q: Request, facts: seq<Fact>, assurance: Assurance, at: int, now: int, cleanup: bool,
                              fixture: bool, key: Tuple -> string)
    requires Finite(q) && Direct(q, key) && Answers(q, facts, assurance, at, key)
    requires !assurance.OtherAssurance? && (assurance.SyntheticRuntime? ==> fixture)
    ensures VerdictOf(q, facts, now, cleanup, fixture, key) ==
            if !(at <= now <= at + 600) then Unverified
            else if exists i :: 0 <= i < |facts| && !facts[i].value && facts[i].tuple in Scopes(q)
                                && facts[i].property in RequiredIn(q, facts[i].tuple, key)
            then Violated
            else if cleanup then Verified else Unverified
  {
    forall i | 0 <= i < |facts|
      ensures Valid(facts[i], q, now, fixture) <==> at <= now <= at + 600
    {
      MadeSpeaks(q, facts[i], assurance, at, now, fixture);
    }
    if at <= now <= at + 600 {
      InTime(q, facts, assurance, at, now, fixture, key);
    } else {
      TooLate(q, facts, now, fixture, key);
    }
  }

  lemma InTime(q: Request, facts: seq<Fact>, assurance: Assurance, at: int, now: int, fixture: bool,
               key: Tuple -> string)
    requires Direct(q, key) && Answers(q, facts, assurance, at, key)
    requires forall i :: 0 <= i < |facts| ==> Valid(facts[i], q, now, fixture)
    ensures Complete(q, facts, now, fixture, key)
    ensures Contradicts(q, facts, now, fixture, key) <==>
            exists i :: 0 <= i < |facts| && !facts[i].value && facts[i].tuple in Scopes(q)
                        && facts[i].property in RequiredIn(q, facts[i].tuple, key)
  {
    forall s, p | s in Scopes(q) && p in RequiredIn(q, s, key)
      ensures Shown(facts, p, s, q, now, fixture)
    {
      assert Answered(facts, s, p);
      var i :| 0 <= i < |facts| && facts[i].property == p && facts[i].tuple == s;
      assert Speaks(facts[i], p, s, q, now, fixture);
    }
    forall i | 0 <= i < |facts| && !facts[i].value && facts[i].tuple in Scopes(q)
               && facts[i].property in RequiredIn(q, facts[i].tuple, key)
      ensures Denied(facts, facts[i].property, facts[i].tuple, q, now, fixture)
    {
      assert Speaks(facts[i], facts[i].property, facts[i].tuple, q, now, fixture);
    }
  }

  lemma TooLate(q: Request, facts: seq<Fact>, now: int, fixture: bool, key: Tuple -> string)
    requires Finite(q) && Direct(q, key) && forall i :: 0 <= i < |facts| ==> !Valid(facts[i], q, now, fixture)
    ensures !Contradicts(q, facts, now, fixture, key) && !Complete(q, facts, now, fixture, key)
  {
    var s := Scopes(q)[0];
    assert s in Scopes(q);
    var p := RequiredIn(q, s, key)[0];
    assert p in RequiredIn(q, s, key) && !Shown(facts, p, s, q, now, fixture);
  }

  /** The profiles a question about a gateway or a VPN may require. */
  lemma ProfilesAre(q: Request)
    ensures q.operation == "gateway" ==>
              (Finite(q) <==> q.tuples == [] && q.required == ["gateway.binding", "gateway.interface_binding",
                                                               "gateway.reader", "gateway.policy_scope"])
    ensures q.operation == "vpn" && Finite(q) ==>
              && q.tuples == [] && 4 <= |q.required| <= 6
              && q.required[..4] == ["vpn.binding", "vpn.peer_binding", "vpn.session_freshness", "vpn.route_ownership"]
              && forall i :: 4 <= i < |q.required| ==>
                   q.required[i] == "vpn.path_selection" || q.required[i] == "vpn.fail_closed_guard"
  {
  }
}
