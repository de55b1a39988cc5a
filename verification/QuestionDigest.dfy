/** The digest of a request, and the metadata of the covered objects and cited rules it binds. */
module QuestionDigest {
  import opened Registry
  import opened Closure
  import opened Sorting

  // ----- the metadata

  /** An object as the digest sees it: its name is left out. */
  datatype Node = Node(ref: Ref, kind: Kind, binding: Binding)

  function NodeOf(o: Object): Node {
    Node(o.ref, o.kind, o.binding)
  }

  function Nodes(t: set<Object>): set<Node> {
    set o | o in t :: NodeOf(o)
  }

  /** The nodes of a selection in any order, as iterating over a map yields them. */
  predicate Enumerates(s: seq<Node>, t: set<Object>) {
    (forall i, j :: 0 <= i < j < |s| ==> s[i] != s[j]) && SetOf(s) == Nodes(t)
  }

  lemma {:induction false} OnceEach<T>(s: seq<T>)
    requires forall i, j :: 0 <= i < j < |s| ==> s[i] != s[j]
    ensures multiset(s) == multiset(SetOf(s))
    decreases |s|
  {
    if s != [] {
      var n := |s| - 1;
      OnceEach(s[..n]);
      assert s == s[..n] + [s[n]];
      SetOfAppend(s[..n], s[n]);
    }
  }

  lemma SameMembers<T>(a: seq<T>, b: seq<T>)
    requires multiset(a) == multiset(b)
    ensures SetOf(a) == SetOf(b)
  {
    assert forall x :: x in SetOf(a) <==> x in multiset(a);
    assert forall x :: x in SetOf(b) <==> x in multiset(b);
  }

  /** By identifier, in the order of their bytes. */
  function ById(o: Orders): Node -> int {
    (n: Node) => o.id(n.ref.id)
  }

  /** Sorted by identifier, the nodes depend only on the selection, so they tell selections apart. */
  lemma MetadataFollowsNodes(a: seq<Node>, t: set<Object>, b: seq<Node>, u: set<Object>, o: Orders)
    requires Enumerates(a, t) && Enumerates(b, u) && o.Lawful()
    requires forall x, y :: x in t && y in t && x.ref.id == y.ref.id ==> x == y
    ensures Sort(a, ById(o)) == Sort(b, ById(o)) <==> Nodes(t) == Nodes(u)
  {
    var byId := ById(o);
    OnceEach(a);
    OnceEach(b);
    SortSorts(a, byId);
    SortSorts(b, byId);
    if Nodes(t) == Nodes(u) {
      forall x, y | x in a && y in a && byId(x) == byId(y)
        ensures x == y
      {
        assert x in SetOf(a) && y in SetOf(a);
      }
      SortForgetsOrder(a, b, byId);
    }
    if Sort(a, byId) == Sort(b, byId) {
      SameMembers(a, b);
    }
  }

  // ----- the request digest

  datatype Tuple = Tuple(source: Ref, endpoint: Ref, realm: string, family: string, transport: string, port: nat,
                         mode: string)
  datatype Rule = Rule(ref: Ref, alias: string, decision: string, tuples: seq<Tuple>, path: Ref, failClosed: bool,
                       filtering: bool)

  /** The covered objects and the cited rules, as they are hashed; the digest of a value is as good as the value. */
  datatype Metadata = Metadata(nodes: seq<Node>, rules: seq<Rule>)

  datatype Request = Request(operation: string, target: Ref, source: Ref, objects: seq<Ref>, policies: seq<Ref>,
                             tuples: seq<Tuple>, required: seq<string>, tupleRequired: map<string, seq<string>>,
                             metadata: Metadata)

  /** The orders in which lists are put: the numeric value of a hash, or the place of a name or identifier. */
  datatype Orders = Orders(ref: Ref -> int, tuple: Tuple -> int, name: string -> int, id: string -> int) {
    /** Different values hash differently. */
    ghost predicate Lawful() {
      Injective(ref) && Injective(tuple) && Injective(name) && Injective(id)
    }
  }

  datatype Digest = Digested(request: Request, capability: string, maximumSeconds: nat)

  function DigestOf(q: Request, capability: string, o: Orders): Digest {
    var canonical := q.(objects := Sort(q.objects, o.ref), policies := Sort(q.policies, o.ref),
                        required := Sort(q.required, o.name),
                        tuples := Sort(q.tuples, o.tuple));
    Digested(canonical, capability, 100)
  }

  predicate SameUpToOrder(q: Request, p: Request) {
    && multiset(q.objects) == multiset(p.objects) && multiset(q.policies) == multiset(p.policies)
    && multiset(q.tuples) == multiset(p.tuples) && multiset(q.required) == multiset(p.required)
    && q.operation == p.operation && q.target == p.target && q.source == p.source && q.tupleRequired == p.tupleRequired
    && q.metadata == p.metadata
  }

  lemma SortedAlike<T(!new)>(a: seq<T>, b: seq<T>, rank: T -> int)
    requires Injective(rank)
    ensures Sort(a, rank) == Sort(b, rank) <==> multiset(a) == multiset(b)
  {
    SortSorts(a, rank);
    SortSorts(b, rank);
    if multiset(a) == multiset(b) {
      SortForgetsOrder(a, b, rank);
    }
  }

  /**
   Two requests have one digest exactly when the capability and every field agree up to the order of the four lists; the
   lists inside the per-tuple requirements are compared in order.
   */
  lemma DigestDetermines(q: Request, p: Request, a: string, b: string, o: Orders)
    requires o.Lawful()
    ensures DigestOf(q, a, o) == DigestOf(p, b, o) <==> a == b && SameUpToOrder(q, p)
  {
    SortedAlike(q.objects, p.objects, o.ref);
    SortedAlike(q.policies, p.policies, o.ref);
    SortedAlike(q.tuples, p.tuples, o.tuple);
    SortedAlike(q.required, p.required, o.name);
    var x, y := DigestOf(q, a, o), DigestOf(p, b, o);
    if x == y {
      assert x.request.objects == y.request.objects && x.request.policies == y.request.policies;
      assert x.request.tuples == y.request.tuples && x.request.required == y.request.required;
    }
  }
}
