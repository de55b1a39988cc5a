/** Access rules over tuples: canonical tuples, rules that never overlap, and which rule a tuple resolves to. */
module PolicyRules {
  import opened Bytes
  import opened Registry
  import opened QuestionDigest

  datatype Error = Invalid | Absent | Stale | Conflict
  datatype Outcome<+T> = Ok(value: T) | Err(error: Error)

  datatype ResolvedTuple = ResolvedTuple(tuple: Tuple, policy: Ref, decision: string, path: Ref, failClosed: bool,
                                         filtering: bool)

  const MAX_TUPLES: nat := 256
  const MAX_REALM: nat := 64

  /** Parsing of an address, true for IPv4; and the digest that names the realm of an endpoint revision. */
  datatype Library = Library(isIPv4: string -> Option<bool>, seal: (Ref, string) -> string) {
    /** Sealed realm names are longer than any plain one. */
    ghost predicate Lawful() {
      forall e: Ref, name: string :: |seal(e, name)| > MAX_REALM
    }
  }

  /** A tuple with its references at their current revisions and its realm sealed. */
  function Canonical(lib: Library, objects: seq<Object>, t: Tuple): Outcome<Tuple> {
    var i, j := Position(objects, Network, t.source.id), Position(objects, Service, t.endpoint.id);
    if i == |objects| || j == |objects| then Err(Absent)
    else
      var s, e := objects[i], objects[j];
      if (t.source.revision != 0 && t.source != s.ref) || (t.endpoint.revision != 0 && t.endpoint != e.ref)
      then Err(Stale)
      else if (t.family != "ipv4" && t.family != "ipv6") || (t.transport != "udp" && t.transport != "tcp")
              || (t.mode != "direct" && t.mode != "mediated") || t.port != e.binding.port then Err(Invalid)
      else if lib.isIPv4(e.binding.target) != Some(t.family == "ipv4") then Err(Invalid)
      else
        var realm := lib.seal(e.ref, e.binding.realm);
        if t.realm != e.binding.realm && t.realm != realm then Err(Invalid)
        else Ok(t.(source := s.ref, endpoint := e.ref, realm := realm))
  }

  function CanonicalAll(lib: Library, objects: seq<Object>, tuples: seq<Tuple>): Outcome<seq<Tuple>> {
    if tuples == [] then Ok([])
    else
      var n := |tuples| - 1;
      match CanonicalAll(lib, objects, tuples[..n])
      case Err(e) => Err(e)
      case Ok(front) =>
        match Canonical(lib, objects, tuples[n])
        case Err(e) => Err(e)
        case Ok(c) => if c in front then Err(Conflict) else Ok(front + [c])
  }

  function BoundPath(objects: seq<Object>, path: Ref): Outcome<Ref> {
    if path.id == "" then Ok(path)
    else
      var i := Position(objects, VPN, path.id);
      if i == |objects| then Err(Absent)
      else if path.revision != 0 && path != objects[i].ref then Err(Stale)
      else Ok(objects[i].ref)
  }

  function Normalized(lib: Library, objects: seq<Object>, r: Rule): Outcome<Rule> {
    if !Name(r.alias) || (r.decision != "allow" && r.decision != "deny") || |r.tuples| == 0 || |r.tuples| > MAX_TUPLES
    then Err(Invalid)
    else
      match CanonicalAll(lib, objects, r.tuples)
      case Err(e) => Err(e)
      case Ok(tuples) =>
        match BoundPath(objects, r.path)
        case Err(e) => Err(e)
        case Ok(path) => Ok(r.(tuples := tuples, path := path))
  }

  method CanonicalTuple(lib: Library, objects: seq<Object>, t: Tuple) returns (r: Outcome<Tuple>)
    ensures r == Canonical(lib, objects, t)
  {
    var s := Find(objects, Network, t.source.id);
    if s.None? {
      return Err(Absent);
    }
    var e := Find(objects, Service, t.endpoint.id);
    if e.None? {
      return Err(Absent);
    }
    var source, endpoint := s.value, e.value;
    if (t.source.revision != 0 && t.source != source.ref) || (t.endpoint.revision != 0 && t.endpoint != endpoint.ref) {
      return Err(Stale);
    }
    if (t.family != "ipv4" && t.family != "ipv6") || (t.transport != "udp" && t.transport != "tcp")
       || (t.mode != "direct" && t.mode != "mediated") || t.port != endpoint.binding.port {
      return Err(Invalid);
    }
    var address := lib.isIPv4(endpoint.binding.target);
    if address.None? || (t.family == "ipv4") != address.value {
      return Err(Invalid);
    }
    var realm := lib.seal(endpoint.ref, endpoint.binding.realm);
    if t.realm != endpoint.binding.realm && t.realm != realm {
      return Err(Invalid);
    }
    return Ok(t.(source := source.ref, endpoint := endpoint.ref, realm := realm));
  }

  method NormalizeTuples(lib: Library, objects: seq<Object>, given: seq<Tuple>) returns (r: Outcome<seq<Tuple>>)
    ensures r == CanonicalAll(lib, objects, given)
  {
    var tuples: seq<Tuple> := [];
    var seen: set<Tuple> := {};
    var i := 0;
    while i < |given|
      invariant 0 <= i <= |given| && CanonicalAll(lib, objects, given[..i]) == Ok(tuples)
      invariant seen == set t | t in tuples
    {
      var c := CanonicalTuple(lib, objects, given[i]);
      NextCanonical(lib, objects, given, i, tuples);
      if c.Err? {
        return Err(c.error);
      }
      if c.value in seen {
        return Err(Conflict);
      }
      seen := seen + {c.value};
      tuples := tuples + [c.value];
      i := i + 1;
    }
    assert given[..i] == given;
    return Ok(tuples);
  }

  lemma NextCanonical(lib: Library, objects: seq<Object>, given: seq<Tuple>, i: nat, front: seq<Tuple>)
    requires i < |given| && CanonicalAll(lib, objects, given[..i]) == Ok(front)
    ensures var c := Canonical(lib, objects, given[i]);
            if c.Err? then CanonicalAll(lib, objects, given) == Err(c.error)
            else if c.value in front then CanonicalAll(lib, objects, given) == Err(Conflict)
            else CanonicalAll(lib, objects, given[..i + 1]) == Ok(front + [c.value])
  {
    assert given[..i + 1][..i] == given[..i];
    if CanonicalAll(lib, objects, given[..i + 1]).Err? {
      FailureSpreads(lib, objects, given, i + 1);
    }
  }

  method NormalizeRule(lib: Library, objects: seq<Object>, r: Rule) returns (result: Outcome<Rule>)
    ensures result == Normalized(lib, objects, r)
  {
    if !Name(r.alias) || (r.decision != "allow" && r.decision != "deny") || |r.tuples| == 0 || |r.tuples| > 256 {
      return Err(Invalid);
    }
    var tuples := NormalizeTuples(lib, objects, r.tuples);
    if tuples.Err? {
      return Err(tuples.error);
    }
    var path := r.path;
    if path.id != "" {
      var o := Find(objects, VPN, path.id);
      if o.None? {
        return Err(Absent);
      }
      if path.revision != 0 && path != o.value.ref {
        return Err(Stale);
      }
      path := o.value.ref;
    }
    return Ok(r.(tuples := tuples.value, path := path));
  }

  lemma {:induction false} FailureSpreads(lib: Library, objects: seq<Object>, tuples: seq<Tuple>, n: nat)
    requires n <= |tuples| && CanonicalAll(lib, objects, tuples[..n]).Err?
    ensures CanonicalAll(lib, objects, tuples) == Err(CanonicalAll(lib, objects, tuples[..n]).error)
    decreases |tuples|
  {
    if n == |tuples| {
      assert tuples[..n] == tuples;
    } else {
      var front := tuples[..|tuples| - 1];
      assert front[..n] == tuples[..n];
      FailureSpreads(lib, objects, front, n);
    }
  }

  // ----- rules that do not overlap

  /** All declared tuples in order. */
  function Declared(rules: seq<Rule>): seq<Tuple> {
    if rules == [] then [] else Declared(rules[..|rules| - 1]) + rules[|rules| - 1].tuples
  }

  predicate NoRepeats<T(==)>(s: seq<T>) {
    forall i, j :: 0 <= i < j < |s| ==> s[i] != s[j]
  }

  method Overlap(rules: seq<Rule>) returns (clash: bool)
    ensures clash <==> !NoRepeats(Declared(rules))
  {
    var seen: set<Tuple> := {};
    var i := 0;
    while i < |rules|
      invariant 0 <= i <= |rules| && NoRepeats(Declared(rules[..i]))
      invariant seen == set t | t in Declared(rules[..i])
    {
      var r := rules[i];
      ghost var before := Declared(rules[..i]);
      assert rules[..i + 1][..i] == rules[..i];
      var k := 0;
      while k < |r.tuples|
        invariant 0 <= k <= |r.tuples| && NoRepeats(before + r.tuples[..k])
        invariant seen == set t | t in before + r.tuples[..k]
      {
        ghost var all := before + r.tuples[..k];
        assert before + r.tuples[..k + 1] == all + [r.tuples[k]];
        if r.tuples[k] in seen {
          RepeatSpreads(rules, i, k);
          return true;
        }
        seen := seen + {r.tuples[k]};
        k := k + 1;
      }
      assert r.tuples[..k] == r.tuples;
      i := i + 1;
    }
    assert rules[..i] == rules;
    return false;
  }

  lemma {:induction false} DeclaredPrefix(rules: seq<Rule>, n: nat)
    requires n <= |rules|
    ensures Declared(rules[..n]) <= Declared(rules)
    decreases |rules|
  {
    if n == |rules| {
      assert rules[..n] == rules;
    } else {
      var front := rules[..|rules| - 1];
      assert front[..n] == rules[..n];
      DeclaredPrefix(front, n);
    }
  }

  lemma RepeatSpreads(rules: seq<Rule>, i: nat, k: nat)
    requires i < |rules| && k < |rules[i].tuples| && rules[i].tuples[k] in Declared(rules[..i]) + rules[i].tuples[..k]
    ensures !NoRepeats(Declared(rules))
  {
    var before, all := Declared(rules[..i]), Declared(rules);
    assert rules[..i + 1][..i] == rules[..i];
    DeclaredPrefix(rules, i + 1);
    var upto := before + rules[i].tuples;
    assert upto <= all;
    var front := before + rules[i].tuples[..k];
    var j :| 0 <= j < |front| && front[j] == rules[i].tuples[k];
    assert all[j] == front[j] && all[|before| + k] == rules[i].tuples[k];
  }

  // ----- storing a rule

  /** The position of the rule with an alias; the length when there is none. */
  function AliasPlace(rules: seq<Rule>, alias: string): (i: nat)
    ensures i <= |rules|
    ensures i < |rules| ==> rules[i].alias == alias
    ensures forall j :: 0 <= j < i ==> rules[j].alias != alias
  {
    if rules == [] || rules[0].alias == alias then 0
    else
      var i := AliasPlace(rules[1..], alias);
      assert forall j :: 1 <= j <= i ==> rules[j] == rules[1..][j - 1];
      i + 1
  }

  /** The rules with a new one in place of its namesake, at the next revision, or at the end. */
  function WithRule(rules: seq<Rule>, n: Rule, id: string): (seq<Rule>, Rule) {
    var i := AliasPlace(rules, n.alias);
    if i < |rules| then
      var m := n.(ref := Ref(rules[i].ref.id, rules[i].ref.revision + 1));
      (rules[i := m], m)
    else
      var m := n.(ref := Ref(id, 1));
      (rules + [m], m)
  }

  function Put(lib: Library, objects: seq<Object>, rules: seq<Rule>, r: Rule, id: string): Outcome<(seq<Rule>, Rule)> {
    if r.ref != NO_REF then Err(Invalid)
    else
      match Normalized(lib, objects, r)
      case Err(e) => Err(e)
      case Ok(n) =>
        var (next, stored) := WithRule(rules, n, id);
        if !NoRepeats(Declared(next)) then Err(Conflict) else Ok((next, stored))
  }

  class Book {
    var rules: seq<Rule>

    constructor ()
      ensures rules == []
    {
      rules := [];
    }

    /** Stores a rule; an attempt that fails leaves the book as it was. */
    method PutRule(lib: Library, objects: seq<Object>, r: Rule, id: string) returns (result: Outcome<Rule>)
      modifies this
      ensures var next := Put(lib, objects, old(rules), r, id);
              && rules == (if next.Ok? then next.value.0 else old(rules))
              && result == match next { case Ok((_, stored)) => Ok(stored) case Err(e) => Err(e) }
    {
      if r.ref.id != "" || r.ref.revision != 0 {
        return Err(Invalid);
      }
      var normalized := NormalizeRule(lib, objects, r);
      if normalized.Err? {
        return Err(normalized.error);
      }
      var n, next := normalized.value.(ref := Ref(id, 1)), rules;
      var i := 0;
      while i < |next| && next[i].alias != r.alias
        invariant 0 <= i <= |next| && forall j :: 0 <= j < i ==> next[j].alias != r.alias
      {
        i := i + 1;
      }
      if i < |next| {
        n := n.(ref := Ref(next[i].ref.id, next[i].ref.revision + 1));
        next := next[i := n];
      } else {
        next := next + [n];
      }
      assert (next, n) == WithRule(rules, normalized.value, id);
      var clash := Overlap(next);
      if clash {
        return Err(Conflict);
      }
      rules := next;
      return Ok(n);
    }
  }

  /** A stored tuple: fixed revisions and a sealed realm. */
  predicate Sealed(t: Tuple) {
    t.source.revision != 0 && t.endpoint.revision != 0 && |t.realm| > MAX_REALM
  }

  predicate RuleSealed(r: Rule) {
    forall k :: 0 <= k < |r.tuples| ==> Sealed(r.tuples[k])
  }

  /** No tuple is declared twice, every declared tuple is sealed, and no two rules share an alias or an identifier. */
  predicate Sound(rules: seq<Rule>) {
    && NoRepeats(Declared(rules)) && (forall i :: 0 <= i < |rules| ==> RuleSealed(rules[i]))
    && forall i, j :: 0 <= i < j < |rules| ==> rules[i].alias != rules[j].alias && rules[i].ref.id != rules[j].ref.id
  }

  /** A registry whose realm names are plain. */
  ghost predicate Plain(objects: seq<Object>, fits: Object -> bool) {
    Consistent(objects, fits) && forall i :: 0 <= i < |objects| ==> |objects[i].binding.realm| <= MAX_REALM
  }

  lemma CanonicalIsSealed(lib: Library, objects: seq<Object>, fits: Object -> bool, t: Tuple)
    requires lib.Lawful() && Plain(objects, fits) && Canonical(lib, objects, t).Ok?
    ensures Sealed(Canonical(lib, objects, t).value)
  {
    assert Acceptable(objects[Position(objects, Network, t.source.id)], fits);
    assert Acceptable(objects[Position(objects, Service, t.endpoint.id)], fits);
  }

  lemma {:induction false} CanonicalAllIsSealed(lib: Library, objects: seq<Object>, fits: Object -> bool,
                                                tuples: seq<Tuple>)
    requires lib.Lawful() && Plain(objects, fits) && CanonicalAll(lib, objects, tuples).Ok?
    ensures forall k :: 0 <= k < |CanonicalAll(lib, objects, tuples).value| ==>
            Sealed(CanonicalAll(lib, objects, tuples).value[k])
    decreases |tuples|
  {
    if tuples != [] {
      CanonicalAllIsSealed(lib, objects, fits, tuples[..|tuples| - 1]);
      CanonicalIsSealed(lib, objects, fits, tuples[|tuples| - 1]);
    }
  }

  /**
   Storing a rule keeps the book sound; a rule that replaces its namesake keeps the identifier and moves on one
   revision.
   */
  lemma PutKeeps(lib: Library, objects: seq<Object>, fits: Object -> bool, rules: seq<Rule>, r: Rule, id: string)
    requires lib.Lawful() && Plain(objects, fits) && Sound(rules) && Put(lib, objects, rules, r, id).Ok?
    requires forall i :: 0 <= i < |rules| ==> rules[i].ref.id != id
    ensures var (next, stored) := Put(lib, objects, rules, r, id).value;
            && Sound(next) && stored in next && stored.alias == r.alias
            && forall i :: 0 <= i < |rules| && rules[i].alias != r.alias ==> next[i] == rules[i]
    ensures var (next, stored) := Put(lib, objects, rules, r, id).value;
            forall i :: 0 <= i < |rules| && rules[i].alias == r.alias ==>
              next[i] == stored && stored.ref == Ref(rules[i].ref.id, rules[i].ref.revision + 1)
  {
    CanonicalAllIsSealed(lib, objects, fits, r.tuples);
    var n := Normalized(lib, objects, r).value;
    assert RuleSealed(n);
    WithRuleKeeps(rules, n, id);
  }

  lemma WithRuleKeeps(rules: seq<Rule>, n: Rule, id: string)
    requires Sound(rules) && RuleSealed(n) && NoRepeats(Declared(WithRule(rules, n, id).0))
    requires forall i :: 0 <= i < |rules| ==> rules[i].ref.id != id
    ensures var (next, stored) := WithRule(rules, n, id);
            && Sound(next) && stored in next
            && (forall i :: 0 <= i < |rules| && rules[i].alias != n.alias ==> next[i] == rules[i])
            && forall i :: 0 <= i < |rules| && rules[i].alias == n.alias ==>
                 next[i] == stored && stored.ref == Ref(rules[i].ref.id, rules[i].ref.revision + 1)
  {
    var i := AliasPlace(rules, n.alias);
    var (next, stored) := WithRule(rules, n, id);
    assert next[i] == stored;
    assert RuleSealed(stored);
  }

  // ----- resolving a tuple

  function Places(rules: seq<Rule>): seq<(Rule, Tuple)> {
    if rules == [] then []
    else
      var r := rules[|rules| - 1];
      Places(rules[..|rules| - 1]) + seq(|r.tuples|, k requires 0 <= k < |r.tuples| => (r, r.tuples[k]))
  }

  function FoundId(objects: seq<Object>, kind: Kind, id: string): string {
    var i := Position(objects, kind, id);
    if i < |objects| then objects[i].ref.id else ""
  }

  /** A declared tuple that no longer has a canonical form and is about the same traffic. */
  predicate StaleClash(lib: Library, objects: seq<Object>, d: Tuple, t: Tuple) {
    && Canonical(lib, objects, d).Err? && FoundId(objects, Network, d.source.id) == t.source.id
    && FoundId(objects, Service, d.endpoint.id) == t.endpoint.id
    && d.transport == t.transport && d.port == t.port && d.family == t.family && d.mode == t.mode
  }

  function Match(t: Tuple, r: Rule): ResolvedTuple {
    ResolvedTuple(t, r.ref, r.decision, r.path, r.failClosed, r.filtering)
  }

  /** The matches among declared tuples, unless one of them is stale or its rule no longer normalises. */
  function Scanned(lib: Library, objects: seq<Object>, places: seq<(Rule, Tuple)>,
                   t: Tuple): Outcome<seq<ResolvedTuple>> {
    if places == [] then Ok([])
    else
      var n := |places| - 1;
      match Scanned(lib, objects, places[..n], t)
      case Err(e) => Err(e)
      case Ok(matches) =>
        var (r, d) := places[n];
        if StaleClash(lib, objects, d, t) then Err(Stale)
        else if Canonical(lib, objects, d) != Ok(t) then Ok(matches)
        else
          match Normalized(lib, objects, r)
          case Err(e) => Err(e)
          case Ok(m) => Ok(matches + [Match(t, m)])
  }

  function Resolved(lib: Library, objects: seq<Object>, rules: seq<Rule>, input: Tuple): Outcome<ResolvedTuple> {
    match Canonical(lib, objects, input)
    case Err(e) => Err(e)
    case Ok(t) =>
      match Scanned(lib, objects, Places(rules), t)
      case Err(e) => Err(e)
      case Ok(matches) => if |matches| != 1 then Err(Conflict) else Ok(matches[0])
  }

  lemma {:induction false} ScanFails(lib: Library, objects: seq<Object>, places: seq<(Rule, Tuple)>, n: nat, t: Tuple)
    requires n <= |places| && Scanned(lib, objects, places[..n], t).Err?
    ensures Scanned(lib, objects, places, t) == Scanned(lib, objects, places[..n], t)
    decreases |places|
  {
    if n == |places| {
      assert places[..n] == places;
    } else {
      var front := places[..|places| - 1];
      assert front[..n] == places[..n];
      ScanFails(lib, objects, front, n, t);
    }
  }

  method ResolveTuple(lib: Library, objects: seq<Object>, rules: seq<Rule>,
                      input: Tuple) returns (r: Outcome<ResolvedTuple>)
    ensures r == Resolved(lib, objects, rules, input)
  {
    var c := CanonicalTuple(lib, objects, input);
    if c.Err? {
      return Err(c.error);
    }
    var t := c.value;
    var places := Places(rules);
    var count, found := 0, Match(t, Rule(NO_REF, "", "", [], NO_REF, false, false));
    var i := 0;
    while i < |places|
      invariant 0 <= i <= |places| && count >= 0
      invariant Scanned(lib, objects, places[..i], t).Ok?
      invariant var m := Scanned(lib, objects, places[..i], t).value;
                |m| == count && (count > 0 ==> m[count - 1] == found)
    {
      var (rule, declared) := places[i];
      assert places[..i + 1][..i] == places[..i];
      var scope := CanonicalTuple(lib, objects, declared);
      if scope.Err? {
        if FoundId(objects, Network, declared.source.id) == t.source.id
          && FoundId(objects, Service, declared.endpoint.id) == t.endpoint.id
           && declared.transport == t.transport && declared.port == t.port && declared.family == t.family
           && declared.mode == t.mode {
          ScanFails(lib, objects, places, i + 1, t);
          return Err(Stale);
        }
      } else if scope.value == t {
        var normalized := NormalizeRule(lib, objects, rule);
        if normalized.Err? {
          ScanFails(lib, objects, places, i + 1, t);
          return Err(normalized.error);
        }
        count, found := count + 1, Match(t, normalized.value);
      }
      i := i + 1;
    }
    assert places[..i] == places;
    if count != 1 {
      return Err(Conflict);
    }
    return Ok(found);
  }

  method ResolveTuples(lib: Library, objects: seq<Object>, rules: seq<Rule>,
                       tuples: seq<Tuple>) returns (r: Outcome<seq<ResolvedTuple>>)
    ensures r.Ok? ==> 1 <= |tuples| <= MAX_TUPLES && |r.value| == |tuples|
                      && forall i :: 0 <= i < |tuples| ==> Resolved(lib, objects, rules, tuples[i]) == Ok(r.value[i])
    ensures r.Err? ==> |tuples| == 0 || |tuples| > MAX_TUPLES
                       || exists i :: 0 <= i < |tuples| && Resolved(lib, objects, rules, tuples[i]) == Err(r.error)
  {
    if |tuples| == 0 || |tuples| > 256 {
      return Err(Invalid);
    }
    var result: seq<ResolvedTuple> := [];
    var i := 0;
    while i < |tuples|
      invariant 0 <= i <= |tuples| && |result| == i
      invariant forall j :: 0 <= j < i ==> Resolved(lib, objects, rules, tuples[j]) == Ok(result[j])
    {
      var one := ResolveTuple(lib, objects, rules, tuples[i]);
      if one.Err? {
        return Err(one.error);
      }
      result := result + [one.value];
      i := i + 1;
    }
    return Ok(result);
  }

  // ----- what a tuple resolves to

  /** A sealed tuple that still has a canonical form is its own canonical form. */
  lemma SealedIsCanonical(lib: Library, objects: seq<Object>, fits: Object -> bool, d: Tuple)
    requires lib.Lawful() && Plain(objects, fits) && Sealed(d) && Canonical(lib, objects, d).Ok?
    ensures Canonical(lib, objects, d) == Ok(d)
  {
  }

  lemma {:induction false} PlacesAreDeclared(rules: seq<Rule>)
    ensures |Places(rules)| == |Declared(rules)|
    ensures forall k :: 0 <= k < |Places(rules)| ==>
              Places(rules)[k].1 == Declared(rules)[k] && Places(rules)[k].0 in rules
                && Places(rules)[k].1 in Places(rules)[k].0.tuples
    decreases |rules|
  {
    if rules != [] {
      PlacesAreDeclared(rules[..|rules| - 1]);
    }
  }

  /** A scan of one more place adds its rule exactly when it declares the tuple. */
  lemma ScanOne(lib: Library, objects: seq<Object>, fits: Object -> bool, places: seq<(Rule, Tuple)>, t: Tuple)
    requires lib.Lawful() && Plain(objects, fits) && places != [] && Scanned(lib, objects, places, t).Ok?
    requires Sealed(places[|places| - 1].1) && Canonical(lib, objects, t) == Ok(t)
    ensures var n := |places| - 1;
            var front, r := Scanned(lib, objects, places[..n], t), places[n].0;
            && front.Ok?
            && if places[n].1 == t then Normalized(lib, objects, r).Ok?
                                        && Scanned(lib, objects, places, t) ==
                                           Ok(front.value + [Match(t, Normalized(lib, objects, r).value)])
               else Scanned(lib, objects, places, t) == front
  {
    var d := places[|places| - 1].1;
    if Canonical(lib, objects, d).Ok? {
      SealedIsCanonical(lib, objects, fits, d);
    }
  }

  predicate DistinctPlaces(places: seq<(Rule, Tuple)>) {
    && (forall k :: 0 <= k < |places| ==> Sealed(places[k].1))
    && forall j, k :: 0 <= j < k < |places| ==> places[j].1 != places[k].1
  }

  /** No place declares the tuple, and there is no match. */
  lemma {:induction false} ScanMisses(lib: Library, objects: seq<Object>, fits: Object -> bool,
                                      places: seq<(Rule, Tuple)>, t: Tuple)
    requires lib.Lawful() && Plain(objects, fits) && Scanned(lib, objects, places, t).Ok?
    requires DistinctPlaces(places) && Canonical(lib, objects, t) == Ok(t)
    requires forall k :: 0 <= k < |places| ==> places[k].1 != t
    ensures Scanned(lib, objects, places, t) == Ok([])
    decreases |places|
  {
    if places != [] {
      ScanOne(lib, objects, fits, places, t);
      ScanMisses(lib, objects, fits, places[..|places| - 1], t);
    }
  }

  /** Place k declares the tuple, and its rule is the only match. */
  lemma {:induction false} ScanFinds(lib: Library, objects: seq<Object>, fits: Object -> bool,
                                     places: seq<(Rule, Tuple)>, t: Tuple, k: nat)
    requires lib.Lawful() && Plain(objects, fits) && Scanned(lib, objects, places, t).Ok?
    requires DistinctPlaces(places) && Canonical(lib, objects, t) == Ok(t) && k < |places| && places[k].1 == t
    ensures Normalized(lib, objects, places[k].0).Ok?
    ensures Scanned(lib, objects, places, t) == Ok([Match(t, Normalized(lib, objects, places[k].0).value)])
    decreases |places|
  {
    var n := |places| - 1;
    ScanOne(lib, objects, fits, places, t);
    if k == n {
      ScanMisses(lib, objects, fits, places[..n], t);
      assert [] + [Match(t, Normalized(lib, objects, places[k].0).value)] ==
             [Match(t, Normalized(lib, objects, places[k].0).value)];
    } else {
      ScanFinds(lib, objects, fits, places[..n], t, k);
    }
  }

  /** No declaration of the same traffic is stale, and whatever declares the tuple still normalises. */
  predicate Healthy(lib: Library, objects: seq<Object>, places: seq<(Rule, Tuple)>, t: Tuple) {
    forall k :: 0 <= k < |places| ==> HealthyAt(lib, objects, places[k], t)
  }

  predicate HealthyAt(lib: Library, objects: seq<Object>, place: (Rule, Tuple), t: Tuple) {
    !StaleClash(lib, objects, place.1, t) && (place.1 == t ==> Normalized(lib, objects, place.0).Ok?)
  }

  lemma {:induction false} ScanSucceeds(lib: Library, objects: seq<Object>, fits: Object -> bool,
                                        places: seq<(Rule, Tuple)>, t: Tuple)
    requires lib.Lawful() && Plain(objects, fits) && DistinctPlaces(places) && Canonical(lib, objects, t) == Ok(t)
    ensures Scanned(lib, objects, places, t).Ok? <==> Healthy(lib, objects, places, t)
    decreases |places|
  {
    if places != [] {
      var n := |places| - 1;
      var front := places[..n];
      ScanSucceeds(lib, objects, fits, front, t);
      HealthyLast(lib, objects, places, t);
      if Canonical(lib, objects, places[n].1).Ok? {
        SealedIsCanonical(lib, objects, fits, places[n].1);
      }
    }
  }

  lemma HealthyLast(lib: Library, objects: seq<Object>, places: seq<(Rule, Tuple)>, t: Tuple)
    requires places != []
    ensures Healthy(lib, objects, places, t) <==>
            Healthy(lib, objects, places[..|places| - 1], t) && HealthyAt(lib, objects, places[|places| - 1], t)
  {
    var front := places[..|places| - 1];
    forall k | 0 <= k < |front| && Healthy(lib, objects, places, t)
      ensures HealthyAt(lib, objects, front[k], t)
    {
      assert HealthyAt(lib, objects, places[k], t);
    }
    forall k | 0 <= k < |front| && Healthy(lib, objects, front, t)
      ensures HealthyAt(lib, objects, places[k], t)
    {
      assert HealthyAt(lib, objects, front[k], t);
    }
  }

  lemma PlacesAreDistinct(rules: seq<Rule>)
    requires Sound(rules)
    ensures DistinctPlaces(Places(rules))
  {
    PlacesAreDeclared(rules);
    var places := Places(rules);
    forall k | 0 <= k < |places|
      ensures Sealed(places[k].1)
    {
      var i :| 0 <= i < |rules| && rules[i] == places[k].0;
      assert RuleSealed(rules[i]);
    }
  }

  /** The canonical form of a canonical tuple is itself. */
  lemma CanonicalOnce(lib: Library, objects: seq<Object>, fits: Object -> bool, t: Tuple)
    requires lib.Lawful() && Plain(objects, fits) && Canonical(lib, objects, t).Ok?
    ensures var c := Canonical(lib, objects, t).value; Canonical(lib, objects, c) == Ok(c)
  {
    var c := Canonical(lib, objects, t).value;
    var i, j := Position(objects, Network, t.source.id), Position(objects, Service, t.endpoint.id);
    PositionOfId(objects, fits, i);
    PositionOfId(objects, fits, j);
  }

  lemma PositionOfId(objects: seq<Object>, fits: Object -> bool, i: nat)
    requires Consistent(objects, fits) && i < |objects|
    ensures Position(objects, objects[i].kind, objects[i].ref.id) == i
  {
    var j := Position(objects, objects[i].kind, objects[i].ref.id);
    assert Acceptable(objects[i], fits) && Acceptable(objects[j], fits);
    NameIsNotIdentifier(objects[i].ref.id);
    assert objects[j].ref.id == objects[i].ref.id;
  }

  /** The rule at place k is what the tuple resolves to. */
  predicate ResolvesAt(lib: Library, objects: seq<Object>, places: seq<(Rule, Tuple)>, t: Tuple,
                       r: Outcome<ResolvedTuple>, k: nat) {
    k < |places| && places[k].1 == t && Normalized(lib, objects, places[k].0).Ok?
    && r == Ok(Match(t, Normalized(lib, objects, places[k].0).value))
  }

  /** Declared once and healthy, a tuple resolves to its declaring rule. */
  lemma DeclaredResolves(lib: Library, objects: seq<Object>, fits: Object -> bool, rules: seq<Rule>, input: Tuple,
                         k: nat)
    requires lib.Lawful() && Plain(objects, fits) && Sound(rules) && Canonical(lib, objects, input).Ok?
    requires k < |Places(rules)| && Places(rules)[k].1 == Canonical(lib, objects, input).value
    requires Healthy(lib, objects, Places(rules), Canonical(lib, objects, input).value)
    ensures ResolvesAt(lib, objects, Places(rules), Canonical(lib, objects, input).value,
                       Resolved(lib, objects, rules, input), k)
  {
    var t := Canonical(lib, objects, input).value;
    CanonicalOnce(lib, objects, fits, input);
    PlacesAreDistinct(rules);
    ScanSucceeds(lib, objects, fits, Places(rules), t);
    ScanFinds(lib, objects, fits, Places(rules), t, k);
  }

  lemma OthersDoNotResolve(lib: Library, objects: seq<Object>, fits: Object -> bool, rules: seq<Rule>, input: Tuple)
    requires lib.Lawful() && Plain(objects, fits) && Sound(rules) && Canonical(lib, objects, input).Ok?
    requires var t, places := Canonical(lib, objects, input).value, Places(rules);
             !Healthy(lib, objects, places, t) || forall k :: 0 <= k < |places| ==> places[k].1 != t
    ensures Resolved(lib, objects, rules, input).Err?
  {
    var t, places := Canonical(lib, objects, input).value, Places(rules);
    CanonicalOnce(lib, objects, fits, input);
    PlacesAreDistinct(rules);
    ScanSucceeds(lib, objects, fits, places, t);
    if Healthy(lib, objects, places, t) {
      ScanMisses(lib, objects, fits, places, t);
    }
  }

  /**
   In a sound book a tuple resolves exactly when its canonical form is declared, the declaring rule still normalises,
   and no stale declaration is about the same traffic; the answer is that rule, and no other place declares the tuple.
   */
  lemma ResolvesToTheDeclaringRule(lib: Library, objects: seq<Object>, fits: Object -> bool, rules: seq<Rule>,
                                   input: Tuple)
    requires lib.Lawful() && Plain(objects, fits) && Sound(rules) && Canonical(lib, objects, input).Ok?
    ensures var t, places := Canonical(lib, objects, input).value, Places(rules);
            var r := Resolved(lib, objects, rules, input);
            && (r.Ok? <==> Healthy(lib, objects, places, t) && exists k: nat :: k < |places| && places[k].1 == t)
            && (forall k: nat :: r.Ok? && k < |places| && places[k].1 == t ==>
                ResolvesAt(lib, objects, places, t, r, k))
            && forall j, k :: 0 <= j < k < |places| ==> !(places[j].1 == t && places[k].1 == t)
  {
    var t, places, r := Canonical(lib, objects, input).value, Places(rules), Resolved(lib, objects, rules, input);
    PlacesAreDistinct(rules);
    if !Healthy(lib, objects, places, t) || forall k :: 0 <= k < |places| ==> places[k].1 != t {
      OthersDoNotResolve(lib, objects, fits, rules, input);
    }
    forall k: nat | Healthy(lib, objects, places, t) && k < |places| && places[k].1 == t
      ensures ResolvesAt(lib, objects, places, t, r, k)
    {
      DeclaredResolves(lib, objects, fits, rules, input, k);
    }
  }
}
