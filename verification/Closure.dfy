/** The objects a question covers: everything reachable from its roots through references. */
module Closure {
  import opened Registry

  const MAX_SELECTED: nat := 64

  datatype Resolution = Found(o: Object) | Stale | Missing

  /** The object a reference names, at exactly its current revision. */
  function Resolved(objects: seq<Object>, ref: Ref): Resolution {
    if objects == [] then Missing
    else if objects[0].ref.id == ref.id then
      if objects[0].ref == ref then Found(objects[0]) else Stale
    else Resolved(objects[1..], ref)
  }

  method ResolveRef(objects: seq<Object>, ref: Ref) returns (r: Resolution)
    ensures r == Resolved(objects, ref)
  {
    var i := 0;
    while i < |objects|
      invariant 0 <= i <= |objects| && Resolved(objects, ref) == Resolved(objects[i..], ref)
    {
      if objects[i].ref.id == ref.id {
        return if objects[i].ref == ref then Found(objects[i]) else Stale;
      }
      i := i + 1;
    }
    return Missing;
  }

  lemma {:induction false} ResolvedMeans(objects: seq<Object>, ref: Ref)
    ensures Resolved(objects, ref).Found? ==> Resolved(objects, ref).o in objects && Resolved(objects, ref).o.ref == ref
    ensures Resolved(objects, ref).Missing? <==> forall i :: 0 <= i < |objects| ==> objects[i].ref.id != ref.id
    decreases |objects|
  {
    if objects != [] {
      ResolvedMeans(objects[1..], ref);
      assert forall i :: 1 <= i < |objects| ==> objects[i] == objects[1..][i - 1];
    }
  }

  predicate Distinct(objects: seq<Object>) {
    forall i, j :: 0 <= i < j < |objects| ==> objects[i].ref.id != objects[j].ref.id
  }

  lemma {:induction false} ResolvedIsTheObject(objects: seq<Object>, i: nat, ref: Ref)
    requires Distinct(objects) && i < |objects| && objects[i].ref.id == ref.id
    ensures Resolved(objects, ref) == if objects[i].ref == ref then Found(objects[i]) else Stale
    decreases |objects|
  {
    if i > 0 {
      ResolvedIsTheObject(objects[1..], i - 1, ref);
    }
  }

  /** The four references in the order they are followed. */
  function Links(o: Object): seq<Ref> {
    [o.binding.gateway, o.binding.vpn, o.binding.source, o.binding.control]
  }

  /** A reference that is empty or resolves to an object in the set. */
  predicate Leads(objects: seq<Object>, ref: Ref, t: set<Object>) {
    ref.id == "" || (Resolved(objects, ref).Found? && Resolved(objects, ref).o in t)
  }

  /** A set that holds everything its members refer to. */
  predicate Closed(objects: seq<Object>, t: set<Object>) {
    forall o, k :: o in t && 0 <= k < 4 ==> Leads(objects, Links(o)[k], t)
  }

  /** The members of t whose references are all in s. */
  predicate Covered(objects: seq<Object>, t: set<Object>, s: set<Object>) {
    forall o, k :: o in t && 0 <= k < 4 ==> Leads(objects, Links(o)[k], s)
  }

  /** A root or a child: an object of the registry, or the empty object that stands for none. */
  predicate Rooted(objects: seq<Object>, o: Object) {
    o.ref.id == "" || o in objects
  }

  /** Objects of a registry are the same when their identifiers are. */
  lemma SameId(objects: seq<Object>, a: Object, b: Object)
    requires Distinct(objects) && a in objects && b in objects && a.ref.id == b.ref.id
    ensures a == b
  {
    var i :| 0 <= i < |objects| && objects[i] == a;
    var j :| 0 <= j < |objects| && objects[j] == b;
    assert i <= j && j <= i;
  }

  function Ids(t: set<Object>): set<string> {
    set o | o in t :: o.ref.id
  }

  /**
   From seen to t: t adds objects of the registry that every closed superset of seen holding o must have, and t covers
   all it adds.
   */
  ghost predicate Explored(objects: seq<Object>, seen: set<Object>, roots: set<Object>, t: set<Object>) {
    && seen <= t && (forall o :: o in t ==> o in objects && o.ref.id != "")
    && (forall o :: o in roots && o.ref.id != "" ==> o in t) && Covered(objects, t - seen, t) && |t| <= MAX_SELECTED
    && forall c: set<Object> :: Closed(objects, c) && seen <= c && Holds(roots, c) ==> t <= c
  }

  predicate Holds(roots: set<Object>, c: set<Object>) {
    forall o :: o in roots && o.ref.id != "" ==> o in c
  }

  /** No closed set of at most 64 objects holds what is selected and the roots. */
  ghost predicate Hopeless(objects: seq<Object>, seen: set<Object>, roots: set<Object>) {
    forall c: set<Object> :: Closed(objects, c) && seen <= c && Holds(roots, c) ==> |c| > MAX_SELECTED
  }

  predicate Selection(objects: seq<Object>, seen: set<Object>) {
    |seen| <= MAX_SELECTED && forall o :: o in seen ==> o in objects && o.ref.id != ""
  }

  /** Visits an object and, first, everything it refers to that has not been selected. */
  method Walk(objects: seq<Object>, seen: set<Object>, o: Object) returns (ok: bool, t: set<Object>)
    requires Distinct(objects) && Selection(objects, seen) && Rooted(objects, o)
    ensures ok ==> Explored(objects, seen, {o}, t)
    ensures !ok ==> Hopeless(objects, seen, {o})
    decreases MAX_SELECTED - |seen|, 0
  {
    if o.ref.id == "" {
      return true, seen;
    }
    if o.ref.id in Ids(seen) {
      ghost var x :| x in seen && x.ref.id == o.ref.id;
      SameId(objects, x, o);
      return true, seen;
    }
    if |seen| >= 64 {
      TooMany(objects, seen, o);
      return false, seen;
    }
    ok, t := WalkLinks(objects, seen + {o}, o, 0);
    if ok {
      VisitedAll(objects, seen, o, t);
    } else {
      HopelessFrom(objects, seen, o);
    }
  }

  /** Follows the references of a selected object from the k-th on. */
  method WalkLinks(objects: seq<Object>, seen: set<Object>, o: Object, k: nat) returns (ok: bool, t: set<Object>)
    requires Distinct(objects) && Selection(objects, seen) && o in seen && k <= 4
    ensures ok ==> Followed(objects, seen, o, k, t)
    ensures !ok ==> Hopeless(objects, seen, {})
    decreases MAX_SELECTED - |seen|, 4 - k
  {
    if k == 4 {
      return true, seen;
    }
    var ref := Links(o)[k];
    ok, t := true, seen;
    if ref.id != "" {
      var child := ResolveRef(objects, ref);
      if !child.Found? {
        NoWayOn(objects, seen, o, k);
        return false, seen;
      }
      ResolvedMeans(objects, ref);
      ok, t := Walk(objects, seen, child.o);
      if !ok {
        ChildHopeless(objects, seen, o, k);
        return;
      }
      ChildExplored(objects, seen, o, k, t);
    }
    var mid := t;
    SubsetSize(seen, mid);
    ok, t := WalkLinks(objects, mid, o, k + 1);
    if ok {
      FollowedStep(objects, seen, mid, o, k, t);
    } else {
      LaterHopeless(objects, seen, mid);
    }
  }

  /** After the references of o from the k-th on have been followed. */
  ghost predicate Followed(objects: seq<Object>, seen: set<Object>, o: Object, k: nat, t: set<Object>)
    requires k <= 4
  {
    && Explored(objects, seen, {}, t) && o in t
    && forall j :: k <= j < 4 ==> Leads(objects, Links(o)[j], t)
  }

  lemma SubsetSize<T>(a: set<T>, b: set<T>)
    requires a <= b
    ensures |a| <= |b|
  {
    assert b == a + (b - a);
  }

  lemma TooMany(objects: seq<Object>, seen: set<Object>, o: Object)
    requires |seen| >= MAX_SELECTED && o !in seen && o.ref.id != ""
    ensures Hopeless(objects, seen, {o})
  {
    forall c: set<Object> | Closed(objects, c) && seen <= c && Holds({o}, c)
      ensures |c| > MAX_SELECTED
    {
      SubsetSize(seen + {o}, c);
    }
  }

  lemma VisitedAll(objects: seq<Object>, seen: set<Object>, o: Object, t: set<Object>)
    requires o.ref.id != "" && Followed(objects, seen + {o}, o, 0, t)
    ensures Explored(objects, seen, {o}, t)
  {
    forall x, k | x in t - seen && 0 <= k < 4
      ensures Leads(objects, Links(x)[k], t)
    {
      assert x == o || x in t - (seen + {o});
    }
  }

  lemma HopelessFrom(objects: seq<Object>, seen: set<Object>, o: Object)
    requires o.ref.id != "" && Hopeless(objects, seen + {o}, {})
    ensures Hopeless(objects, seen, {o})
  {
    forall c: set<Object> | Closed(objects, c) && seen <= c && Holds({o}, c)
      ensures |c| > MAX_SELECTED
    {
      assert Holds({}, c) && seen + {o} <= c;
    }
  }

  lemma NoWayOn(objects: seq<Object>, seen: set<Object>, o: Object, k: nat)
    requires o in seen && k < 4 && Links(o)[k].id != "" && !Resolved(objects, Links(o)[k]).Found?
    ensures Hopeless(objects, seen, {})
  {
    forall c: set<Object> | seen <= c
      ensures !Closed(objects, c)
    {
      assert !Leads(objects, Links(o)[k], c);
    }
  }

  lemma ChildHopeless(objects: seq<Object>, seen: set<Object>, o: Object, k: nat)
    requires o in seen && k < 4 && Links(o)[k].id != "" && Resolved(objects, Links(o)[k]).Found?
    requires Hopeless(objects, seen, {Resolved(objects, Links(o)[k]).o})
    ensures Hopeless(objects, seen, {})
  {
    forall c: set<Object> | Closed(objects, c) && seen <= c
      ensures |c| > MAX_SELECTED
    {
      assert Leads(objects, Links(o)[k], c);
      assert Holds({Resolved(objects, Links(o)[k]).o}, c);
    }
  }

  lemma ChildExplored(objects: seq<Object>, seen: set<Object>, o: Object, k: nat, t: set<Object>)
    requires o in seen && k < 4 && Links(o)[k].id != "" && Resolved(objects, Links(o)[k]).Found?
    requires Resolved(objects, Links(o)[k]).o.ref.id != ""
             && Explored(objects, seen, {Resolved(objects, Links(o)[k]).o}, t)
    ensures Explored(objects, seen, {}, t) && Leads(objects, Links(o)[k], t)
  {
    forall c: set<Object> | Closed(objects, c) && seen <= c
      ensures t <= c
    {
      assert Leads(objects, Links(o)[k], c);
      assert Holds({Resolved(objects, Links(o)[k]).o}, c);
    }
  }

  lemma ExploredTrans(objects: seq<Object>, seen: set<Object>, mid: set<Object>, t: set<Object>, a: set<Object>,
                      b: set<Object>)
    requires Explored(objects, seen, a, mid) && Explored(objects, mid, b, t)
    ensures Explored(objects, seen, a + b, t)
  {
    forall x, k | x in t - seen && 0 <= k < 4
      ensures Leads(objects, Links(x)[k], t)
    {
      assert x in t - mid || (x in mid - seen && Leads(objects, Links(x)[k], mid));
    }
    forall c: set<Object> | Closed(objects, c) && seen <= c && Holds(a + b, c)
      ensures t <= c
    {
      assert Holds(a, c) && Holds(b, c);
    }
  }

  lemma FollowedStep(objects: seq<Object>, seen: set<Object>, mid: set<Object>, o: Object, k: nat, t: set<Object>)
    requires k < 4 && Explored(objects, seen, {}, mid) && Leads(objects, Links(o)[k], mid)
             && Followed(objects, mid, o, k + 1, t)
    ensures Followed(objects, seen, o, k, t)
  {
    var none: set<Object> := {};
    ExploredTrans(objects, seen, mid, t, none, none);
    assert none + none == none;
  }

  lemma LaterHopeless(objects: seq<Object>, seen: set<Object>, mid: set<Object>)
    requires Explored(objects, seen, {}, mid) && Hopeless(objects, mid, {})
    ensures Hopeless(objects, seen, {})
  {
    forall c: set<Object> | Closed(objects, c) && seen <= c
      ensures |c| > MAX_SELECTED
    {
      assert Holds({}, c);
    }
  }

  // ----- the whole selection

  function SetOf<T>(s: seq<T>): set<T> {
    set i | 0 <= i < |s| :: s[i]
  }

  /** The least closed set that holds the roots. */
  ghost predicate Least(objects: seq<Object>, roots: set<Object>, t: set<Object>) {
    && Closed(objects, t) && Holds(roots, t) && (forall o :: o in t ==> o in objects && o.ref.id != "")
    && forall c: set<Object> :: Closed(objects, c) && Holds(roots, c) ==> t <= c
  }

  /**
   The objects a question covers. It succeeds exactly when some closed set of at most 64 objects holds the roots, and
   then returns the least one; references may form cycles.
   */
  method Select(objects: seq<Object>, roots: seq<Object>) returns (ok: bool, t: set<Object>)
    requires Distinct(objects) && forall i :: 0 <= i < |roots| ==> Rooted(objects, roots[i])
    ensures ok <==> exists c: set<Object> :: Closed(objects, c) && Holds(SetOf(roots), c) && |c| <= MAX_SELECTED
    ensures ok ==> Least(objects, SetOf(roots), t) && |t| <= MAX_SELECTED
  {
    ok, t := true, {};
    var i := 0;
    while i < |roots|
      invariant 0 <= i <= |roots| && Explored(objects, {}, SetOf(roots[..i]), t)
    {
      ghost var before := t;
      ok, t := Walk(objects, t, roots[i]);
      assert SetOf(roots[..i + 1]) == SetOf(roots[..i]) + {roots[i]} by {
        assert roots[..i + 1] == roots[..i] + [roots[i]];
        SetOfAppend(roots[..i], roots[i]);
      }
      if !ok {
        RootHopeless(objects, before, roots, i);
        return;
      }
      ExploredTrans(objects, {}, before, t, SetOf(roots[..i]), {roots[i]});
      i := i + 1;
    }
    assert roots[..i] == roots && t - {} == t;
    assert Closed(objects, t) && Holds(SetOf(roots), t);
    ok := true;
  }

  lemma SetOfAppend<T>(s: seq<T>, x: T)
    ensures SetOf(s + [x]) == SetOf(s) + {x}
  {
    var u := s + [x];
    assert u[|s|] == x;
    forall y | y in SetOf(s)
      ensures y in SetOf(u)
    {
      var i :| 0 <= i < |s| && s[i] == y;
      assert u[i] == y;
    }
  }

  lemma RootHopeless(objects: seq<Object>, before: set<Object>, roots: seq<Object>, i: nat)
    requires i < |roots| && Explored(objects, {}, SetOf(roots[..i]), before) && Hopeless(objects, before, {roots[i]})
    ensures forall c: set<Object> :: Closed(objects, c) && Holds(SetOf(roots), c) ==> |c| > MAX_SELECTED
  {
    forall c: set<Object> | Closed(objects, c) && Holds(SetOf(roots), c)
      ensures |c| > MAX_SELECTED
    {
      assert forall j :: 0 <= j < i ==> roots[..i][j] == roots[j];
      assert Holds(SetOf(roots[..i]), c);
      assert roots[i] in SetOf(roots);
      assert Holds({roots[i]}, c);
    }
  }
}
