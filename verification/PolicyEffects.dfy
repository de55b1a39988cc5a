/** What storing a rule achieves: when it succeeds, what is stored, and what its tuples resolve to from then on. */
module PolicyEffects {
  import opened Bytes
  import opened Registry
  import opened RegistryEffects
  import opened QuestionDigest
  import opened PolicyRules

  // ----- canonical tuples

  /** A reference leads to an object: by name or identifier, and if it has a revision, to exactly that one. */
  predicate LeadsTo(ref: Ref, kind: Kind, o: Object) {
    o.kind == kind && (o.alias == ref.id || o.ref.id == ref.id) && (ref.revision == 0 || ref == o.ref)
  }

  /** The tuple with current references and the sealed realm, for a source and an endpoint it may have. */
  predicate Becomes(lib: Library, t: Tuple, s: Object, e: Object, c: Tuple) {
    && LeadsTo(t.source, Network, s) && LeadsTo(t.endpoint, Service, e)
    && (t.family == "ipv4" || t.family == "ipv6") && (t.transport == "udp" || t.transport == "tcp")
    && (t.mode == "direct" || t.mode == "mediated") && t.port == e.binding.port
    && lib.isIPv4(e.binding.target) == Some(t.family == "ipv4")
    && (t.realm == e.binding.realm || t.realm == lib.seal(e.ref, e.binding.realm))
    && c == t.(source := s.ref, endpoint := e.ref, realm := lib.seal(e.ref, e.binding.realm))
  }

  /** A tuple has a canonical form exactly when its references lead to objects of the registry it fits. */
  lemma CanonicalMeans(lib: Library, objects: seq<Object>, t: Tuple, c: Tuple)
    requires Told(objects)
    ensures Canonical(lib, objects, t) == Ok(c) <==>
            exists i, j :: 0 <= i < |objects| && 0 <= j < |objects| && Becomes(lib, t, objects[i], objects[j], c)
  {
    var i, j := Position(objects, Network, t.source.id), Position(objects, Service, t.endpoint.id);
    if Canonical(lib, objects, t) == Ok(c) {
      assert Becomes(lib, t, objects[i], objects[j], c);
    }
    forall k, l | 0 <= k < |objects| && 0 <= l < |objects| && Becomes(lib, t, objects[k], objects[l], c)
      ensures Canonical(lib, objects, t) == Ok(c)
    {
      OneAnswers(objects, Network, t.source.id, k);
      OneAnswers(objects, Service, t.endpoint.id, l);
    }
  }

  // ----- which rules clash

  lemma {:induction false} DeclaredIn(rules: seq<Rule>, t: Tuple)
    ensures t in Declared(rules) <==> exists i :: 0 <= i < |rules| && t in rules[i].tuples
    decreases |rules|
  {
    if rules != [] {
      var n := |rules| - 1;
      DeclaredIn(rules[..n], t);
      assert forall i :: 0 <= i < n ==> rules[i] == rules[..n][i];
    }
  }

  lemma RepeatsAcross<T>(a: seq<T>, b: seq<T>)
    ensures NoRepeats(a + b) <==> NoRepeats(a) && NoRepeats(b) && forall x :: x in a ==> x !in b
  {
    var s := a + b;
    if NoRepeats(s) {
      forall i, j | 0 <= i < j < |a|
        ensures a[i] != a[j]
      {
        assert s[i] != s[j];
      }
      forall i, j | 0 <= i < j < |b|
        ensures b[i] != b[j]
      {
        assert s[|a| + i] != s[|a| + j];
      }
      forall i, j | 0 <= i < |a| && 0 <= j < |b|
        ensures a[i] != b[j]
      {
        ApartIn(a, b, i, j);
      }
    } else if NoRepeats(a) && NoRepeats(b) && forall x :: x in a ==> x !in b {
      forall i, j | 0 <= i < j < |s|
        ensures s[i] != s[j]
      {
        assert i < |a| ==> s[i] in a;
        assert j >= |a| ==> s[j] in b;
      }
    }
  }

  lemma ApartIn<T>(a: seq<T>, b: seq<T>, i: nat, j: nat)
    requires NoRepeats(a + b) && i < |a| && j < |b|
    ensures a[i] != b[j]
  {
    var s := a + b;
    assert s[i] != s[|a| + j];
  }

  /** No tuple twice in a rule, and none in two rules. */
  predicate Disjoint(rules: seq<Rule>) {
    && (forall i :: 0 <= i < |rules| ==> NoRepeats(rules[i].tuples))
    && forall i, j :: 0 <= i < j < |rules| ==> forall t :: t in rules[i].tuples ==> t !in rules[j].tuples
  }

  lemma {:induction false} NoRepeatsMeans(rules: seq<Rule>)
    ensures NoRepeats(Declared(rules)) <==> Disjoint(rules)
    decreases |rules|
  {
    if rules != [] {
      var n := |rules| - 1;
      var front, last := rules[..n], rules[n];
      NoRepeatsMeans(front);
      RepeatsAcross(Declared(front), last.tuples);
      OneMore(rules);
    }
  }

  lemma OneMore(rules: seq<Rule>)
    requires rules != []
    ensures var n := |rules| - 1;
            Disjoint(rules) <==>
            Disjoint(rules[..n]) && NoRepeats(rules[n].tuples)
            && forall t :: t in Declared(rules[..n]) ==> t !in rules[n].tuples
  {
    var n := |rules| - 1;
    assert forall i :: 0 <= i < n ==> rules[i] == rules[..n][i];
    forall t
      ensures t in Declared(rules[..n]) <==> exists i :: 0 <= i < n && t in rules[i].tuples
    {
      DeclaredIn(rules[..n], t);
    }
  }

  // ----- what is stored

  lemma {:induction false} CanonicalEach(lib: Library, objects: seq<Object>, tuples: seq<Tuple>)
    requires CanonicalAll(lib, objects, tuples).Ok?
    ensures var c := CanonicalAll(lib, objects, tuples).value;
            && |c| == |tuples| && NoRepeats(c)
            && forall k :: 0 <= k < |c| ==> Canonical(lib, objects, tuples[k]) == Ok(c[k])
    decreases |tuples|
  {
    if tuples != [] {
      CanonicalEach(lib, objects, tuples[..|tuples| - 1]);
    }
  }

  /** The stored rule says what the given one said, about its tuples in canonical form and along its path. */
  predicate Keeps(lib: Library, objects: seq<Object>, r: Rule, stored: Rule) {
    && stored == r.(ref := stored.ref, tuples := stored.tuples, path := stored.path)
    && |stored.tuples| == |r.tuples|
    && (forall k :: 0 <= k < |r.tuples| ==> Canonical(lib, objects, r.tuples[k]) == Ok(stored.tuples[k]))
    && (if r.path.id == "" then stored.path == r.path
        else exists i :: 0 <= i < |objects| && LeadsTo(r.path, VPN, objects[i]) && stored.path == objects[i].ref)
  }

  lemma NormalizedKeeps(lib: Library, objects: seq<Object>, r: Rule)
    requires Normalized(lib, objects, r).Ok?
    ensures Keeps(lib, objects, r, Normalized(lib, objects, r).value)
    ensures NoRepeats(Normalized(lib, objects, r).value.tuples)
  {
    CanonicalEach(lib, objects, r.tuples);
    if r.path.id != "" {
      assert LeadsTo(r.path, VPN, objects[Position(objects, VPN, r.path.id)]);
    }
  }

  /**
   A rule is stored exactly when it comes without a reference, normalises, and shares no tuple with a rule of another
   name. It then says what was given, under its namesake's identifier at the next revision or under the new one.
   */
  lemma PutStores(lib: Library, objects: seq<Object>, rules: seq<Rule>, r: Rule, id: string)
    requires Sound(rules)
    ensures Put(lib, objects, rules, r, id).Ok? <==>
            && r.ref == NO_REF && Normalized(lib, objects, r).Ok?
            && forall i :: 0 <= i < |rules| && rules[i].alias != r.alias ==>
                 forall t :: t in Normalized(lib, objects, r).value.tuples ==> t !in rules[i].tuples
    ensures Put(lib, objects, rules, r, id).Ok? ==>
              var (next, stored) := Put(lib, objects, rules, r, id).value;
              && Keeps(lib, objects, r, stored) && stored in next
              && (if exists i :: 0 <= i < |rules| && rules[i].alias == r.alias then |next| == |rules|
                  else next == rules + [stored] && stored.ref == Ref(id, 1))
  {
    if r.ref == NO_REF && Normalized(lib, objects, r).Ok? {
      var n := Normalized(lib, objects, r).value;
      var (next, stored) := WithRule(rules, n, id);
      NormalizedKeeps(lib, objects, r);
      NoRepeatsMeans(rules);
      NoRepeatsMeans(next);
      ClashesWithOthers(rules, n, id);
      assert next[AliasPlace(rules, n.alias)] == stored;
    }
  }

  lemma ClashesWithOthers(rules: seq<Rule>, n: Rule, id: string)
    requires Disjoint(rules) && NoRepeats(n.tuples)
    requires forall i, j :: 0 <= i < j < |rules| ==> rules[i].alias != rules[j].alias
    ensures Disjoint(WithRule(rules, n, id).0) <==>
            forall i :: 0 <= i < |rules| && rules[i].alias != n.alias ==>
              forall t :: t in n.tuples ==> t !in rules[i].tuples
  {
    var at, next := AliasPlace(rules, n.alias), WithRule(rules, n, id).0;
    if Disjoint(next) {
      forall i, t | 0 <= i < |rules| && rules[i].alias != n.alias && t in n.tuples
        ensures t !in rules[i].tuples
      {
        assert next[i] == rules[i] && next[at].tuples == n.tuples;
        assert i != at;
      }
    }
  }

  // ----- what a stored rule resolves

  lemma {:induction false} CanonicalAllOnce(lib: Library, objects: seq<Object>, tuples: seq<Tuple>)
    requires NoRepeats(tuples) && forall k :: 0 <= k < |tuples| ==> Canonical(lib, objects, tuples[k]) == Ok(tuples[k])
    ensures CanonicalAll(lib, objects, tuples) == Ok(tuples)
    decreases |tuples|
  {
    if tuples != [] {
      var n := |tuples| - 1;
      CanonicalAllOnce(lib, objects, tuples[..n]);
      assert tuples[..n] + [tuples[n]] == tuples;
    }
  }

  /** A stored rule normalises to itself as long as the registry stays. */
  lemma NormalizedOnce(lib: Library, objects: seq<Object>, fits: Object -> bool, r: Rule, ref: Ref)
    requires lib.Lawful() && Plain(objects, fits) && Normalized(lib, objects, r).Ok?
    ensures var n := Normalized(lib, objects, r).value.(ref := ref); Normalized(lib, objects, n) == Ok(n)
  {
    TuplesOnce(lib, objects, fits, r.tuples);
    PathOnce(objects, fits, r.path);
  }

  lemma TuplesOnce(lib: Library, objects: seq<Object>, fits: Object -> bool, tuples: seq<Tuple>)
    requires lib.Lawful() && Plain(objects, fits) && CanonicalAll(lib, objects, tuples).Ok?
    ensures var c := CanonicalAll(lib, objects, tuples).value;
            |c| == |tuples| && CanonicalAll(lib, objects, c) == Ok(c)
  {
    var c := CanonicalAll(lib, objects, tuples).value;
    CanonicalEach(lib, objects, tuples);
    forall k | 0 <= k < |c|
      ensures Canonical(lib, objects, c[k]) == Ok(c[k])
    {
      CanonicalOnce(lib, objects, fits, tuples[k]);
    }
    CanonicalAllOnce(lib, objects, c);
  }

  lemma PathOnce(objects: seq<Object>, fits: Object -> bool, path: Ref)
    requires Consistent(objects, fits) && BoundPath(objects, path).Ok?
    ensures BoundPath(objects, BoundPath(objects, path).value) == BoundPath(objects, path)
  {
    if path.id != "" {
      PositionOfId(objects, fits, Position(objects, VPN, path.id));
    }
  }

  lemma {:induction false} PlaceOf(rules: seq<Rule>, r: Rule, t: Tuple) returns (k: nat)
    requires r in rules && t in r.tuples
    ensures k < |Places(rules)| && Places(rules)[k] == (r, t)
    decreases |rules|
  {
    var n := |rules| - 1;
    if rules[n] == r {
      var j :| 0 <= j < |r.tuples| && r.tuples[j] == t;
      k := |Places(rules[..n])| + j;
    } else {
      assert rules == rules[..n] + [rules[n]];
      k := PlaceOf(rules[..n], r, t);
    }
  }

  /** Nothing stale is declared about the same traffic. */
  predicate NoneStale(lib: Library, objects: seq<Object>, rules: seq<Rule>, t: Tuple) {
    forall i, d :: 0 <= i < |rules| && d in rules[i].tuples ==> !StaleClash(lib, objects, d, t)
  }

  /**
   Every tuple a rule was stored with resolves to what that rule said, from the moment it is stored, unless some other
   declaration of the same traffic has gone stale.
   */
  lemma PutResolves(lib: Library, objects: seq<Object>, fits: Object -> bool, rules: seq<Rule>, r: Rule, id: string,
                    k: nat)
    requires lib.Lawful() && Plain(objects, fits) && Sound(rules) && Put(lib, objects, rules, r, id).Ok?
    requires k < |r.tuples| && forall i :: 0 <= i < |rules| ==> rules[i].ref.id != id
    requires Canonical(lib, objects, r.tuples[k]).Ok? ==>
               NoneStale(lib, objects, Put(lib, objects, rules, r, id).value.0,
                         Canonical(lib, objects, r.tuples[k]).value)
    ensures var (next, stored) := Put(lib, objects, rules, r, id).value;
            && k < |stored.tuples|
            && Resolved(lib, objects, next, r.tuples[k]) ==
               Ok(ResolvedTuple(stored.tuples[k], stored.ref, r.decision, stored.path, r.failClosed, r.filtering))
  {
    var (next, stored) := Put(lib, objects, rules, r, id).value;
    PutKeeps(lib, objects, fits, rules, r, id);
    PutStores(lib, objects, rules, r, id);
    NormalizedOnce(lib, objects, fits, r, stored.ref);
    StoredResolves(lib, objects, fits, next, stored, r.tuples[k], stored.tuples[k]);
  }

  lemma StoredResolves(lib: Library, objects: seq<Object>, fits: Object -> bool, rules: seq<Rule>, stored: Rule,
                       input: Tuple, t: Tuple)
    requires lib.Lawful() && Plain(objects, fits) && Sound(rules) && stored in rules && t in stored.tuples
    requires Normalized(lib, objects, stored) == Ok(stored) && Canonical(lib, objects, input) == Ok(t)
    requires NoneStale(lib, objects, rules, t)
    ensures Resolved(lib, objects, rules, input) == Ok(Match(t, stored))
  {
    var at := PlaceOf(rules, stored, t);
    HealthyWhenStored(lib, objects, rules, t, at);
    DeclaredResolves(lib, objects, fits, rules, input, at);
  }

  lemma HealthyWhenStored(lib: Library, objects: seq<Object>, rules: seq<Rule>, t: Tuple, at: nat)
    requires Sound(rules) && NoneStale(lib, objects, rules, t) && at < |Places(rules)| && Places(rules)[at].1 == t
    requires Normalized(lib, objects, Places(rules)[at].0).Ok?
    ensures Healthy(lib, objects, Places(rules), t)
  {
    var places := Places(rules);
    PlacesAreDistinct(rules);
    PlacesAreDeclared(rules);
    forall k | 0 <= k < |places|
      ensures HealthyAt(lib, objects, places[k], t)
    {
      var i :| 0 <= i < |rules| && rules[i] == places[k].0;
      assert places[k].1 in rules[i].tuples;
    }
  }
}
