/** What a single change of the registry achieves, and exactly when it succeeds. */
module RegistryEffects {
  import opened Bytes
  import opened Registry

  /** The reference as it is stored: empty as it was, or fixed to the object that answers to its name now. */
  predicate Fixed(objects: seq<Object>, ref: Ref, kind: Kind, bound: Ref) {
    if ref.id == "" then bound == ref
    else
      (exists i :: 0 <= i < |objects| && objects[i].kind == kind && objects[i].ref == bound
                   && (objects[i].alias == ref.id || objects[i].ref.id == ref.id))
      && (ref.revision == 0 || ref.revision == bound.revision)
  }

  predicate AllFixed(objects: seq<Object>, b: Binding, bound: Binding) {
    && Fixed(objects, b.gateway, Gateway, bound.gateway) && Fixed(objects, b.vpn, VPN, bound.vpn)
    && Fixed(objects, b.source, Network, bound.source) && Fixed(objects, b.control, Service, bound.control)
    && bound == b.(gateway := bound.gateway, vpn := bound.vpn, source := bound.source, control := bound.control)
  }

  /** Names and identifiers are apart, so that at most one object answers to a text. */
  predicate Told(objects: seq<Object>) {
    && (forall i :: 0 <= i < |objects| ==> Name(objects[i].alias) && Identifier(objects[i].ref.id))
    && forall i, j :: 0 <= i < j < |objects| ==>
         objects[i].ref.id != objects[j].ref.id
         && !(objects[i].kind == objects[j].kind && objects[i].alias == objects[j].alias)
  }

  lemma BoundMeans(objects: seq<Object>, ref: Ref, kind: Kind, bound: Ref)
    requires Told(objects)
    ensures Bound(objects, ref, kind) == Some(bound) <==> Fixed(objects, ref, kind, bound)
  {
    if ref.id != "" {
      NameIsNotIdentifier(ref.id);
      var i := Position(objects, kind, ref.id);
      forall j | 0 <= j < |objects| && Answers(objects[j], kind, ref.id)
        ensures j == i
      {
      }
    }
  }

  lemma BoundAllMeans(objects: seq<Object>, b: Binding, bound: Binding)
    requires Told(objects)
    ensures BoundAll(objects, b) == Some(bound) <==> AllFixed(objects, b, bound)
  {
    BoundMeans(objects, b.gateway, Gateway, bound.gateway);
    BoundMeans(objects, b.vpn, VPN, bound.vpn);
    BoundMeans(objects, b.source, Network, bound.source);
    BoundMeans(objects, b.control, Service, bound.control);
  }

  lemma ConsistentTold(objects: seq<Object>, fits: Object -> bool)
    requires Consistent(objects, fits)
    ensures Told(objects)
  {
    forall i, j | 0 <= i < j < |objects|
      ensures objects[i].ref.id != objects[j].ref.id
      ensures !(objects[i].kind == objects[j].kind && objects[i].alias == objects[j].alias)
    {
      assert Apart(objects[i], objects[j]);
    }
    forall i | 0 <= i < |objects|
      ensures Name(objects[i].alias) && Identifier(objects[i].ref.id)
    {
      assert Acceptable(objects[i], fits);
    }
  }

  /** An object that may join the others. */
  predicate Joins(objects: seq<Object>, o: Object, fits: Object -> bool) {
    Acceptable(o, fits) && forall i :: 0 <= i < |objects| ==> Apart(objects[i], o)
  }

  lemma JoinedConsistent(objects: seq<Object>, o: Object, fits: Object -> bool)
    requires Consistent(objects, fits)
    ensures Consistent(objects + [o], fits) <==> Joins(objects, o, fits)
  {
    var all := objects + [o];
    if Consistent(all, fits) {
      forall i | 0 <= i < |objects|
        ensures Apart(objects[i], o)
      {
        assert Apart(all[i], all[|objects|]);
      }
      assert Acceptable(all[|objects|], fits);
    }
  }

  /** The new object: what was given, at revision 1 under its identifier, with its references fixed. */
  predicate Entered(objects: seq<Object>, o: Object, id: string, made: Object) {
    made == Object(Ref(id, 1), o.kind, o.alias, made.binding) && AllFixed(objects, o.binding, made.binding)
  }

  /**
   Creating succeeds exactly when the object comes without a reference of its own, all its references can be fixed, and
   the result may join the others; it is then added, and otherwise nothing changes.
   */
  lemma CreateAdds(objects: seq<Object>, o: Object, id: string, fits: Object -> bool, made: Object)
    requires Consistent(objects, fits)
    ensures o.ref.id == "" && o.ref.revision == 0 && Entered(objects, o, id, made) && Joins(objects, made, fits) ==>
              Stored(objects, Added(objects, o, id), fits) == objects + [made]
    ensures var next := Stored(objects, Added(objects, o, id), fits);
            next == objects
            || (|next| == |objects| + 1 && next[..|objects|] == objects && Entered(objects, o, id, next[|objects|])
                && Joins(objects, next[|objects|], fits) && o.ref == NO_REF)
  {
    ConsistentTold(objects, fits);
    BoundAllMeans(objects, o.binding, made.binding);
    JoinedConsistent(objects, made, fits);
    var added := Added(objects, o, id);
    if added.Some? {
      var last := added.value[|objects|];
      BoundAllMeans(objects, o.binding, last.binding);
      JoinedConsistent(objects, last, fits);
      assert added.value == objects + [last];
    }
  }

  /** The object at a place under its next revision, with a new binding whose references are fixed. */
  predicate Rebound(objects: seq<Object>, at: nat, b: Binding, next: seq<Object>) {
    && at < |objects| && |next| == |objects|
    && next[at] == Object(Ref(objects[at].ref.id, objects[at].ref.revision + 1), objects[at].kind, objects[at].alias,
                          next[at].binding)
    && (forall i :: 0 <= i < |objects| && i != at ==> next[i] == objects[i])
    && AllFixed(objects[at := next[at].(binding := b)], b, next[at].binding)
  }

  /** A rebinding gives one object its next revision and exactly the new binding, or changes nothing. */
  lemma RebindSets(objects: seq<Object>, at: nat, kind: Kind, name: string, b: Binding, fits: Object -> bool,
                   made: seq<Object>)
    requires Consistent(objects, fits) && at < |objects| && Answers(objects[at], kind, name)
    ensures Rebound(objects, at, b, made) && Consistent(made, fits) ==>
              Stored(objects, Edited(objects, kind, name, Rebinding(b)), fits) == made
    ensures var next := Stored(objects, Edited(objects, kind, name, Rebinding(b)), fits);
            next == objects || Rebound(objects, at, b, next)
  {
    ConsistentTold(objects, fits);
    OneAnswers(objects, kind, name, at);
    var mid := objects[at := Rebinding(b)(objects[at])];
    assert Told(mid);
    if at < |made| {
      BoundAllMeans(mid, b, made[at].binding);
      assert Rebound(objects, at, b, made) ==> mid == objects[at := made[at].(binding := b)];
    }
    var edited := Edited(objects, kind, name, Rebinding(b));
    if edited.Some? {
      BoundAllMeans(mid, b, edited.value[at].binding);
      assert mid == objects[at := edited.value[at].(binding := b)];
    }
    if Rebound(objects, at, b, made) {
      assert made == mid[at := mid[at].(binding := made[at].binding)];
    }
  }

  lemma OneAnswers(objects: seq<Object>, kind: Kind, name: string, at: nat)
    requires Told(objects) && at < |objects| && Answers(objects[at], kind, name)
    ensures Position(objects, kind, name) == at
  {
    NameIsNotIdentifier(name);
  }

  /** A change that names no object changes nothing. */
  lemma UnknownChangesNothing(objects: seq<Object>, kind: Kind, name: string, edit: Object -> Object)
    requires forall i :: 0 <= i < |objects| ==> !Answers(objects[i], kind, name)
    ensures Edited(objects, kind, name, edit).None?
  {
  }

  predicate Free(objects: seq<Object>, at: nat, kind: Kind, alias: string) {
    forall i :: 0 <= i < |objects| && i != at ==> !(objects[i].kind == kind && objects[i].alias == alias)
  }

  /**
   A rename succeeds exactly when the new name is a name no other object of the kind has and suits the object, and the
   object's references are all current.
   */
  lemma RenameSucceeds(objects: seq<Object>, at: nat, kind: Kind, name: string, alias: string, fits: Object -> bool)
    requires Inv(objects, fits) && at < |objects| && Answers(objects[at], kind, name)
    ensures var next := Edited(objects, kind, name, Renaming(alias));
            next.Some? && Consistent(next.value, fits) <==>
            && Name(alias) && fits(objects[at].(alias := alias)) && CurrentRefs(objects, objects[at].binding)
            && Free(objects, at, kind, alias)
  {
    ConsistentTold(objects, fits);
    OneAnswers(objects, kind, name, at);
    var next := Edited(objects, kind, name, Renaming(alias));
    if next.Some? && Consistent(next.value, fits) {
      RenameNeeds(objects, at, kind, name, alias, fits);
    } else if && Name(alias) && fits(objects[at].(alias := alias)) && CurrentRefs(objects, objects[at].binding)
              && Free(objects, at, kind, alias) {
      RenameEnough(objects, at, kind, name, alias, fits);
    }
  }

  lemma RenameNeeds(objects: seq<Object>, at: nat, kind: Kind, name: string, alias: string, fits: Object -> bool)
    requires Inv(objects, fits) && at < |objects| && Answers(objects[at], kind, name)
    requires Position(objects, kind, name) == at
    requires var next := Edited(objects, kind, name, Renaming(alias)); next.Some? && Consistent(next.value, fits)
    ensures Name(alias) && fits(objects[at].(alias := alias)) && Free(objects, at, kind, alias)
    ensures CurrentRefs(objects, objects[at].binding)
  {
    var mid := objects[at := objects[at].(alias := alias)];
    RenameChangesOnlyTheAlias(objects, kind, name, alias, fits);
    assert Acceptable(mid[at], fits);
    forall i | 0 <= i < |objects| && i != at
      ensures !(objects[i].kind == kind && objects[i].alias == alias)
    {
      assert if i < at then Apart(mid[i], mid[at]) else Apart(mid[at], mid[i]);
    }
    ConsistentTold(mid, fits);
    BoundAllMeans(mid, mid[at].binding, mid[at].binding);
    assert Edited(objects, kind, name, Renaming(alias)).value[at] == mid[at];
    WasCurrent(objects, mid, mid[at].binding);
  }

  lemma RenameEnough(objects: seq<Object>, at: nat, kind: Kind, name: string, alias: string, fits: Object -> bool)
    requires Inv(objects, fits) && at < |objects| && Answers(objects[at], kind, name)
    requires Position(objects, kind, name) == at
    requires Name(alias) && fits(objects[at].(alias := alias)) && Free(objects, at, kind, alias)
    requires CurrentRefs(objects, objects[at].binding)
    ensures var next := Edited(objects, kind, name, Renaming(alias)); next.Some? && Consistent(next.value, fits)
  {
    var mid := objects[at := objects[at].(alias := alias)];
    RenamedConsistent(objects, at, alias, fits);
    ConsistentTold(mid, fits);
    StillCurrent(objects, mid, objects[at].binding);
    BoundAllMeans(mid, mid[at].binding, mid[at].binding);
    assert mid[at := mid[at].(binding := mid[at].binding)] == mid;
  }

  /** All references are at the revisions their objects have now. */
  predicate CurrentRefs(objects: seq<Object>, b: Binding) {
    && Current(objects, b.gateway, Gateway) && Current(objects, b.vpn, VPN) && Current(objects, b.source, Network)
    && Current(objects, b.control, Service)
  }

  predicate Current(objects: seq<Object>, ref: Ref, kind: Kind) {
    ref.id == "" || exists i :: 0 <= i < |objects| && objects[i].kind == kind && objects[i].ref == ref
  }

  lemma StillCurrent(objects: seq<Object>, mid: seq<Object>, b: Binding)
    requires CurrentRefs(objects, b) && |mid| == |objects|
    requires forall i :: 0 <= i < |objects| ==> mid[i].ref == objects[i].ref && mid[i].kind == objects[i].kind
    ensures AllFixed(mid, b, b)
  {
    StillFixed(objects, mid, b.gateway, Gateway);
    StillFixed(objects, mid, b.vpn, VPN);
    StillFixed(objects, mid, b.source, Network);
    StillFixed(objects, mid, b.control, Service);
  }

  lemma WasCurrent(objects: seq<Object>, mid: seq<Object>, b: Binding)
    requires AllFixed(mid, b, b) && |mid| == |objects|
    requires forall i :: 0 <= i < |objects| ==> mid[i].ref == objects[i].ref && mid[i].kind == objects[i].kind
    ensures CurrentRefs(objects, b)
  {
    WasFixed(objects, mid, b.gateway, Gateway);
    WasFixed(objects, mid, b.vpn, VPN);
    WasFixed(objects, mid, b.source, Network);
    WasFixed(objects, mid, b.control, Service);
  }

  lemma WasFixed(objects: seq<Object>, mid: seq<Object>, ref: Ref, kind: Kind)
    requires Fixed(mid, ref, kind, ref) && |mid| == |objects|
    requires forall i :: 0 <= i < |objects| ==> mid[i].ref == objects[i].ref && mid[i].kind == objects[i].kind
    ensures Current(objects, ref, kind)
  {
    if ref.id != "" {
      var i :| && 0 <= i < |mid| && mid[i].kind == kind && mid[i].ref == ref
               && (mid[i].alias == ref.id || mid[i].ref.id == ref.id);
      assert objects[i].ref == ref;
    }
  }

  lemma StillFixed(objects: seq<Object>, mid: seq<Object>, ref: Ref, kind: Kind)
    requires Current(objects, ref, kind) && |mid| == |objects|
    requires forall i :: 0 <= i < |objects| ==> mid[i].ref == objects[i].ref && mid[i].kind == objects[i].kind
    ensures Fixed(mid, ref, kind, ref)
  {
    if ref.id != "" {
      var i :| 0 <= i < |objects| && objects[i].kind == kind && objects[i].ref == ref;
      assert mid[i].ref == ref;
    }
  }

  lemma RenamedConsistent(objects: seq<Object>, at: nat, alias: string, fits: Object -> bool)
    requires Consistent(objects, fits) && at < |objects| && Name(alias) && fits(objects[at].(alias := alias))
    requires forall i :: 0 <= i < |objects| && i != at ==>
               !(objects[i].kind == objects[at].kind && objects[i].alias == alias)
    ensures Consistent(objects[at := objects[at].(alias := alias)], fits)
  {
    var mid := objects[at := objects[at].(alias := alias)];
    forall i | 0 <= i < |mid|
      ensures Acceptable(mid[i], fits)
    {
      assert Acceptable(objects[i], fits);
    }
    forall i, j | 0 <= i < j < |mid|
      ensures Apart(mid[i], mid[j])
    {
      assert Apart(objects[i], objects[j]);
    }
  }
}
