/** Questions over the registry: the request that is formed, and what later changes of the registry do to it. */
module Questions {
  import opened Bytes
  import opened Registry
  import opened Closure
  import opened QuestionDigest
  import opened Sorting

  /**
   A question whose operation has been settled: the references its objects start from, empty ones standing for none, the
   rules it cites, and the fields it hands on.
   */
  datatype Asked = Asked(operation: string, target: Ref, source: Ref, roots: seq<Ref>, policies: seq<Ref>,
                         tuples: seq<Tuple>, required: seq<string>, tupleRequired: map<string, seq<string>>)

  /** A closed set that holds whatever the references name. */
  predicate Reaches(objects: seq<Object>, refs: seq<Ref>, c: set<Object>) {
    Closed(objects, c) && forall i :: 0 <= i < |refs| ==> Leads(objects, refs[i], c)
  }

  /** The objects a question covers: the least such set. */
  ghost predicate Covers(objects: seq<Object>, refs: seq<Ref>, t: set<Object>) {
    && Reaches(objects, refs, t) && (forall o :: o in t ==> o in objects && o.ref.id != "")
    && forall c: set<Object> :: Reaches(objects, refs, c) ==> t <= c
  }

  /** The cited rule, without its name. */
  function RuleAt(rules: seq<Rule>, ref: Ref): Option<Rule> {
    if rules == [] then None
    else if rules[0].ref == ref then Some(rules[0].(alias := ""))
    else RuleAt(rules[1..], ref)
  }

  function RulesFor(rules: seq<Rule>, refs: seq<Ref>): Option<seq<Rule>> {
    if refs == [] then Some([])
    else
      var n := |refs| - 1;
      var front, last := RulesFor(rules, refs[..n]), RuleAt(rules, refs[n]);
      if front.None? || last.None? then None else Some(front.value + [last.value])
  }

  function RefsOf(nodes: seq<Node>): (r: seq<Ref>)
    ensures |r| == |nodes| && forall i :: 0 <= i < |r| ==> r[i] == nodes[i].ref
  {
    if nodes == [] then [] else [nodes[0].ref] + RefsOf(nodes[1..])
  }

  function RuleById(o: Orders): Rule -> int {
    (r: Rule) => o.id(r.ref.id)
  }

  /** The request over the covered objects, found in any order, and the cited rules. */
  function Built(a: Asked, nodes: seq<Node>, cited: seq<Rule>, o: Orders): Request {
    var sorted := Sort(nodes, ById(o));
    Request(a.operation, a.target, a.source, RefsOf(sorted), a.policies, a.tuples, a.required, a.tupleRequired,
            Metadata(sorted, Sort(cited, RuleById(o))))
  }

  /** The question has this request. */
  ghost predicate Asks(objects: seq<Object>, rules: seq<Rule>, a: Asked, o: Orders, q: Request) {
    exists t: set<Object>, nodes: seq<Node> :: AsksWith(objects, rules, a, o, q, t, nodes)
  }

  ghost predicate AsksWith(objects: seq<Object>, rules: seq<Rule>, a: Asked, o: Orders, q: Request,
                           t: set<Object>, nodes: seq<Node>) {
    && Covers(objects, a.roots, t) && Enumerates(nodes, t) && |nodes| <= MAX_SELECTED
    && RulesFor(rules, a.policies).Some? && q == Built(a, nodes, RulesFor(rules, a.policies).value, o)
  }

  // ----- forming the request

  method ResolveRoots(objects: seq<Object>, refs: seq<Ref>) returns (roots: Option<seq<Object>>)
    ensures roots.None? ==> forall c: set<Object> :: !Reaches(objects, refs, c)
    ensures roots.Some? ==> forall i :: 0 <= i < |roots.value| ==> Rooted(objects, roots.value[i])
    ensures roots.Some? ==>
              forall c: set<Object> :: Closed(objects, c) && Holds(SetOf(roots.value), c) <==> Reaches(objects, refs, c)
  {
    var found: seq<Object> := [];
    var i := 0;
    while i < |refs|
      invariant 0 <= i <= |refs| && forall j :: 0 <= j < |found| ==> Rooted(objects, found[j])
      invariant forall c: set<Object> ::
                  Holds(SetOf(found), c) <==> forall j :: 0 <= j < i ==> Leads(objects, refs[j], c)
    {
      var ref := refs[i];
      if ref.id != "" {
        var r := ResolveRef(objects, ref);
        if !r.Found? {
          assert forall c: set<Object> :: !Leads(objects, refs[i], c);
          return None;
        }
        ResolvedMeans(objects, ref);
        SetOfAppend(found, r.o);
        forall c: set<Object>
          ensures Holds(SetOf(found + [r.o]), c) <==> Holds(SetOf(found), c) && Leads(objects, ref, c)
        {
        }
        found := found + [r.o];
      }
      i := i + 1;
    }
    return Some(found);
  }

  /** The nodes of the selection, in the order in which a map yields them. */
  method ListNodes(t: set<Object>) returns (nodes: seq<Node>)
    requires forall x, y :: x in t && y in t && x.ref.id == y.ref.id ==> x == y
    ensures Enumerates(nodes, t) && |nodes| == |t|
  {
    nodes := [];
    var rest := t;
    while rest != {}
      invariant rest <= t && Enumerates(nodes, t - rest) && |nodes| == |t| - |rest|
    {
      var o :| o in rest;
      SetOfAppend(nodes, NodeOf(o));
      NodesAppend(t - rest, o);
      assert t - (rest - {o}) == (t - rest) + {o};
      assert forall i :: 0 <= i < |nodes| ==> nodes[i] in SetOf(nodes);
      nodes := nodes + [NodeOf(o)];
      rest := rest - {o};
    }
    assert t - rest == t;
  }

  lemma NodesAppend(t: set<Object>, o: Object)
    ensures Nodes(t + {o}) == Nodes(t) + {NodeOf(o)}
  {
    assert o in t + {o};
    forall x | x in t
      ensures NodeOf(x) in Nodes(t + {o})
    {
      assert x in t + {o};
    }
  }

  method CiteRules(rules: seq<Rule>, refs: seq<Ref>) returns (cited: Option<seq<Rule>>)
    ensures cited == RulesFor(rules, refs)
  {
    var found: seq<Rule> := [];
    var i := 0;
    while i < |refs|
      invariant 0 <= i <= |refs| && RulesFor(rules, refs[..i]) == Some(found)
    {
      assert refs[..i + 1][..i] == refs[..i];
      var k := 0;
      while k < |rules| && rules[k].ref != refs[i]
        invariant 0 <= k <= |rules| && RuleAt(rules, refs[i]) == RuleAt(rules[k..], refs[i])
      {
        k := k + 1;
      }
      if k == |rules| {
        NoneFrom(rules, refs, i + 1);
        return None;
      }
      found := found + [rules[k].(alias := "")];
      i := i + 1;
    }
    assert refs[..i] == refs;
    return Some(found);
  }

  lemma {:induction false} NoneFrom(rules: seq<Rule>, refs: seq<Ref>, i: nat)
    requires i <= |refs| && RulesFor(rules, refs[..i]).None?
    ensures RulesFor(rules, refs).None?
    decreases |refs|
  {
    if i == |refs| {
      assert refs[..i] == refs;
    } else {
      assert refs[..|refs| - 1][..i] == refs[..i];
      NoneFrom(rules, refs[..|refs| - 1], i);
    }
  }

  /**
   A question succeeds exactly when its roots lead to a closed set of at most 64 objects and all cited rules are there.
   */
  method Question(objects: seq<Object>, rules: seq<Rule>, a: Asked, o: Orders) returns (q: Option<Request>)
    requires Distinct(objects)
    ensures q.Some? ==> Asks(objects, rules, a, o, q.value)
    ensures q.Some? <==>
              && (exists c: set<Object> :: Reaches(objects, a.roots, c) && |c| <= MAX_SELECTED)
              && RulesFor(rules, a.policies).Some?
  {
    var roots := ResolveRoots(objects, a.roots);
    if roots.None? {
      return None;
    }
    var ok, t := Select(objects, roots.value);
    if !ok {
      return None;
    }
    assert Covers(objects, a.roots, t);
    forall x, y | x in t && y in t && x.ref.id == y.ref.id
      ensures x == y
    {
      SameId(objects, x, y);
    }
    var nodes := ListNodes(t);
    var cited := CiteRules(rules, a.policies);
    if cited.None? {
      return None;
    }
    q := Some(Built(a, nodes, cited.value, o));
    assert AsksWith(objects, rules, a, o, q.value, t, nodes);
  }

  // ----- one question, one request

  lemma CoversOnce(objects: seq<Object>, refs: seq<Ref>, t: set<Object>, u: set<Object>)
    requires Covers(objects, refs, t) && Covers(objects, refs, u)
    ensures t == u
  {
  }

  /** A question has one request, whatever the order in which maps yield what was selected. */
  lemma OneRequest(objects: seq<Object>, rules: seq<Rule>, a: Asked, o: Orders, q: Request, p: Request)
    requires Distinct(objects) && o.Lawful() && Asks(objects, rules, a, o, q) && Asks(objects, rules, a, o, p)
    ensures q == p
  {
    var t: set<Object>, nodes: seq<Node> :| AsksWith(objects, rules, a, o, q, t, nodes);
    var u: set<Object>, others: seq<Node> :| AsksWith(objects, rules, a, o, p, u, others);
    CoversOnce(objects, a.roots, t, u);
    forall x, y | x in t && y in t && x.ref.id == y.ref.id
      ensures x == y
    {
      SameId(objects, x, y);
    }
    MetadataFollowsNodes(nodes, t, others, u, o);
  }

  // ----- after changes of the registry

  /** All references are at their current revisions. */
  predicate Current(objects: seq<Object>, refs: seq<Ref>) {
    forall i :: 0 <= i < |refs| ==> Resolved(objects, refs[i]).Found?
  }

  /** What has become of an object of the registry that still has its revision: at most its name is new. */
  lemma StillThere(objects: seq<Object>, later: seq<Object>, x: Object)
    requires Distinct(objects) && Distinct(later) && Grows(objects, later) && x in objects
    requires Resolved(later, x.ref).Found?
    ensures var y := Resolved(later, x.ref).o;
            y in later && y.ref == x.ref && NodeOf(y) == NodeOf(x) && Links(y) == Links(x)
  {
    var i :| 0 <= i < |objects| && objects[i] == x;
    ResolvedMeans(later, x.ref);
    SameId(later, Resolved(later, x.ref).o, later[i]);
  }

  /** The selected objects as they are now. */
  function Now(later: seq<Object>, t: set<Object>): set<Object> {
    set x | x in t && Resolved(later, x.ref).Found? :: Resolved(later, x.ref).o
  }

  predicate AllThere(later: seq<Object>, t: set<Object>) {
    forall x :: x in t ==> Resolved(later, x.ref).Found?
  }

  /** The part of the selection that is now in c. */
  function Back(later: seq<Object>, t: set<Object>, c: set<Object>): set<Object> {
    set x | x in t && Resolved(later, x.ref).Found? && Resolved(later, x.ref).o in c
  }

  lemma LeadsBack(objects: seq<Object>, later: seq<Object>, ref: Ref, t: set<Object>, c: set<Object>)
    requires Leads(objects, ref, t) && Leads(later, ref, c)
    ensures Leads(objects, ref, Back(later, t, c))
  {
    ResolvedMeans(objects, ref);
  }

  /** What the old selection shares with a set that is closed now was closed before. */
  lemma ReachesBack(objects: seq<Object>, later: seq<Object>, refs: seq<Ref>, t: set<Object>, c: set<Object>)
    requires Distinct(objects) && Distinct(later) && Grows(objects, later)
    requires Covers(objects, refs, t) && Reaches(later, refs, c)
    ensures Reaches(objects, refs, Back(later, t, c)) && Back(later, t, c) == t
  {
    var d := Back(later, t, c);
    forall x, k | x in d && 0 <= k < 4
      ensures Leads(objects, Links(x)[k], d)
    {
      StillThere(objects, later, x);
      var y := Resolved(later, x.ref).o;
      assert Leads(later, Links(y)[k], c) && Leads(objects, Links(x)[k], t);
      LeadsBack(objects, later, Links(x)[k], t, c);
    }
    forall i | 0 <= i < |refs|
      ensures Leads(objects, refs[i], d)
    {
      LeadsBack(objects, later, refs[i], t, c);
    }
  }

  lemma LeadsNow(objects: seq<Object>, later: seq<Object>, ref: Ref, t: set<Object>)
    requires Leads(objects, ref, t) && AllThere(later, t)
    ensures Leads(later, ref, Now(later, t))
  {
    if ref.id != "" {
      ResolvedMeans(objects, ref);
      assert Resolved(later, Resolved(objects, ref).o.ref).o in Now(later, t);
    }
  }

  /** A selection whose objects all have their revisions is the selection still, under the present names. */
  lemma CoversNow(objects: seq<Object>, later: seq<Object>, refs: seq<Ref>, t: set<Object>)
    requires Distinct(objects) && Distinct(later) && Grows(objects, later)
    requires Covers(objects, refs, t) && AllThere(later, t)
    ensures Covers(later, refs, Now(later, t)) && Nodes(Now(later, t)) == Nodes(t)
  {
    var now := Now(later, t);
    forall y, k | y in now && 0 <= k < 4
      ensures Leads(later, Links(y)[k], now)
    {
      var x :| x in t && Resolved(later, x.ref).Found? && y == Resolved(later, x.ref).o;
      StillThere(objects, later, x);
      LeadsNow(objects, later, Links(x)[k], t);
    }
    forall i | 0 <= i < |refs|
      ensures Leads(later, refs[i], now)
    {
      LeadsNow(objects, later, refs[i], t);
    }
    forall x | x in t
      ensures Resolved(later, x.ref).o in now && NodeOf(Resolved(later, x.ref).o) == NodeOf(x)
      ensures Resolved(later, x.ref).o in later && Resolved(later, x.ref).o.ref.id != ""
    {
      StillThere(objects, later, x);
    }
    forall c: set<Object> | Reaches(later, refs, c)
      ensures now <= c
    {
      ReachesBack(objects, later, refs, t, c);
    }
  }

  /** The objects a request lists are those selected. */
  lemma RequestListsSelection(later: seq<Object>, rules: seq<Rule>, a: Asked, o: Orders, q: Request,
                              objects: seq<Object>, t: set<Object>, nodes: seq<Node>)
    requires AsksWith(objects, rules, a, o, q, t, nodes)
    ensures Current(later, q.objects) <==> AllThere(later, t)
    ensures SetOf(q.metadata.nodes) == Nodes(t)
  {
    var sorted := q.metadata.nodes;
    SortSorts(nodes, ById(o));
    SameMembers(sorted, nodes);
    if Current(later, q.objects) {
      forall x | x in t
        ensures Resolved(later, x.ref).Found?
      {
        assert NodeOf(x) in SetOf(sorted);
        var i :| 0 <= i < |sorted| && sorted[i] == NodeOf(x);
        assert q.objects[i] == x.ref;
      }
    }
    if AllThere(later, t) {
      forall i | 0 <= i < |q.objects|
        ensures Resolved(later, q.objects[i]).Found?
      {
        assert sorted[i] in Nodes(t);
      }
    }
  }

  /**
   The same question asked again after the registry has changed. It has a request exactly when all objects the first one
   listed still have their revisions, and then it is that request.
   */
  lemma AskedAgain(objects: seq<Object>, later: seq<Object>, rules: seq<Rule>, newer: seq<Rule>, a: Asked, o: Orders,
                   q: Request)
    requires Distinct(objects) && Distinct(later) && Grows(objects, later) && o.Lawful()
             && Asks(objects, rules, a, o, q)
    requires RulesFor(newer, a.policies) == RulesFor(rules, a.policies)
    ensures Current(later, q.objects) <==> exists p :: Asks(later, newer, a, o, p)
    ensures forall p :: Asks(later, newer, a, o, p) ==> p == q
  {
    var t: set<Object>, nodes: seq<Node> :| AsksWith(objects, rules, a, o, q, t, nodes);
    RequestListsSelection(later, rules, a, o, q, objects, t, nodes);
    if Current(later, q.objects) {
      CoversNow(objects, later, a.roots, t);
      assert AsksWith(later, newer, a, o, q, Now(later, t), nodes);
      assert Asks(later, newer, a, o, q);
    }
    forall p | Asks(later, newer, a, o, p)
      ensures Current(later, q.objects) && p == q
    {
      var u: set<Object>, others: seq<Node> :| AsksWith(later, newer, a, o, p, u, others);
      ReachesBack(objects, later, a.roots, t, u);
      CoversNow(objects, later, a.roots, t);
      assert AsksWith(later, newer, a, o, q, Now(later, t), nodes);
      OneRequest(later, newer, a, o, p, q);
    }
  }

  /** Once an object the request lists has been rebound, no question whatsoever has its digest. */
  lemma ReboundDiffers(objects: seq<Object>, later: seq<Object>, rules: seq<Rule>, newer: seq<Rule>, a: Asked, b: Asked,
                       o: Orders, q: Request, p: Request, x: string, y: string)
    requires Distinct(later) && o.Lawful() && Asks(objects, rules, a, o, q) && Asks(later, newer, b, o, p)
    requires !Current(later, q.objects)
    ensures DigestOf(p, x, o) != DigestOf(q, y, o)
  {
    var t: set<Object>, nodes: seq<Node> :| AsksWith(objects, rules, a, o, q, t, nodes);
    var u: set<Object>, others: seq<Node> :| AsksWith(later, newer, b, o, p, u, others);
    RequestListsSelection(later, rules, a, o, q, objects, t, nodes);
    RequestListsSelection(later, newer, b, o, p, later, u, others);
    DigestDetermines(p, q, x, y, o);
    if p.metadata == q.metadata {
      var z :| z in t && !Resolved(later, z.ref).Found?;
      assert NodeOf(z) in Nodes(u);
      var v :| v in u && NodeOf(v) == NodeOf(z);
      var i :| 0 <= i < |later| && later[i] == v;
      ResolvedIsTheObject(later, i, v.ref);
    }
  }

  /** Over every run of changes, the digest of a question asked again is the same, or the question fails. */
  lemma DigestAfterChanges(objects: seq<Object>, changes: seq<Change>, fits: Object -> bool, rules: seq<Rule>, a: Asked,
                           o: Orders, q: Request, capability: string)
    requires Inv(objects, fits) && o.Lawful() && Asks(objects, rules, a, o, q)
    ensures var later := AppliedAll(objects, changes, fits);
            && (Current(later, q.objects) <==> exists p :: Asks(later, rules, a, o, p))
            && (forall p :: Asks(later, rules, a, o, p) ==> DigestOf(p, capability, o) == DigestOf(q, capability, o))
            && (forall b, p, other :: !Current(later, q.objects) && Asks(later, rules, b, o, p) ==>
                  DigestOf(p, other, o) != DigestOf(q, capability, o))
  {
    var later := AppliedAll(objects, changes, fits);
    ChangesKeep(objects, changes, fits);
    ConsistentIsDistinct(objects, fits);
    ConsistentIsDistinct(later, fits);
    AskedAgain(objects, later, rules, rules, a, o, q);
    forall b, p, other | !Current(later, q.objects) && Asks(later, rules, b, o, p)
      ensures DigestOf(p, other, o) != DigestOf(q, capability, o)
    {
      ReboundDiffers(objects, later, rules, rules, a, b, o, q, p, other, capability);
    }
  }

  lemma ConsistentIsDistinct(objects: seq<Object>, fits: Object -> bool)
    requires Consistent(objects, fits)
    ensures Distinct(objects)
  {
    forall i, j | 0 <= i < j < |objects|
      ensures objects[i].ref.id != objects[j].ref.id
    {
      assert Apart(objects[i], objects[j]);
    }
  }

  /** Renames leave every reference where it is. */
  lemma {:induction false} RenamesKeepRefs(objects: seq<Object>, changes: seq<Change>, fits: Object -> bool)
    requires Inv(objects, fits) && forall i :: 0 <= i < |changes| ==> changes[i].Rename?
    ensures var later := AppliedAll(objects, changes, fits);
            |later| == |objects| && forall i :: 0 <= i < |objects| ==> later[i].ref == objects[i].ref
    decreases |changes|
  {
    if changes != [] {
      var c := changes[0];
      var next := Applied(objects, c, fits);
      if next != objects {
        RenameChangesOnlyTheAlias(objects, c.kind, c.name, c.alias, fits);
      }
      RenameKeeps(objects, c.kind, c.name, c.alias, fits);
      RenamesKeepRefs(next, changes[1..], fits);
    }
  }

  /** However objects are renamed, every question keeps its digest. */
  lemma RenamesKeepTheDigest(objects: seq<Object>, changes: seq<Change>, fits: Object -> bool, rules: seq<Rule>,
                             a: Asked, o: Orders, q: Request)
    requires Inv(objects, fits) && o.Lawful() && Asks(objects, rules, a, o, q)
    requires forall i :: 0 <= i < |changes| ==> changes[i].Rename?
    ensures Asks(AppliedAll(objects, changes, fits), rules, a, o, q)
  {
    var later := AppliedAll(objects, changes, fits);
    DigestAfterChanges(objects, changes, fits, rules, a, o, q, "");
    RenamesKeepRefs(objects, changes, fits);
    var t: set<Object>, nodes: seq<Node> :| AsksWith(objects, rules, a, o, q, t, nodes);
    RequestListsSelection(later, rules, a, o, q, objects, t, nodes);
    ChangesKeep(objects, changes, fits);
    ConsistentIsDistinct(later, fits);
    forall x | x in t
      ensures Resolved(later, x.ref).Found?
    {
      var i :| 0 <= i < |objects| && objects[i] == x;
      ResolvedIsTheObject(later, i, x.ref);
    }
    ConsistentIsDistinct(objects, fits);
    AskedAgain(objects, later, rules, rules, a, o, q);
  }

  /**
   A successful rebinding of an object the request lists: asked again the question fails, and no other has its digest.
   */
  lemma RebindChangesTheDigest(objects: seq<Object>, kind: Kind, name: string, binding: Binding, fits: Object -> bool,
                               rules: seq<Rule>, a: Asked, o: Orders, q: Request, b: Asked, p: Request, x: string,
                               y: string)
    requires Inv(objects, fits) && o.Lawful() && Asks(objects, rules, a, o, q)
    requires var edited := Edited(objects, kind, name, Rebinding(binding));
             edited.Some? && Consistent(edited.value, fits) && objects[Position(objects, kind, name)].ref in q.objects
    ensures var later := Applied(objects, Rebind(kind, name, binding), fits);
            && (forall again :: !Asks(later, rules, a, o, again))
            && (Asks(later, rules, b, o, p) ==> DigestOf(p, x, o) != DigestOf(q, y, o))
  {
    var change := Rebind(kind, name, binding);
    var later := Applied(objects, change, fits);
    var i := Position(objects, kind, name);
    assert AppliedAll(objects, [change], fits) == AppliedAll(later, [], fits) == later;
    ConsistentIsDistinct(later, fits);
    ResolvedIsTheObject(later, i, objects[i].ref);
    assert !Current(later, q.objects);
    DigestAfterChanges(objects, [change], fits, rules, a, o, q, y);
  }
}
