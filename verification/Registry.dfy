/** The object registry: named objects that refer to each other at fixed revisions. */
module Registry {
  import opened Bytes

  datatype Ref = Ref(id: string, revision: nat)
  datatype Kind = Gateway | Network | VPN | Service

  /** The four references of an object, the endpoint a service claims, and the text of everything else. */
  datatype Binding = Binding(gateway: Ref, vpn: Ref, source: Ref, control: Ref, realm: string, target: string,
                             port: nat, details: string)
  datatype Object = Object(ref: Ref, kind: Kind, alias: string, binding: Binding)

  const NO_REF: Ref := Ref("", 0)

  predicate NameChar(c: char) {
    'a' <= c <= 'z' || '0' <= c <= '9' || c == '-'
  }

  /** A lower-case name; never an identifier, which contains an underscore. */
  predicate Name(s: string) {
    1 <= |s| <= 64 && 'a' <= s[0] <= 'z' && forall i :: 0 <= i < |s| ==> NameChar(s[i])
  }

  predicate Identifier(s: string) {
    |s| >= 4 && s[..4] == "net_"
  }

  lemma NameIsNotIdentifier(s: string)
    ensures !(Name(s) && Identifier(s))
  {
    if Identifier(s) {
      assert s[..4][3] == '_';
    }
  }

  /** fits stands for the checks on an object's own fields. */
  predicate Acceptable(o: Object, fits: Object -> bool) {
    Name(o.alias) && fits(o) && Identifier(o.ref.id) && o.ref.revision != 0
  }

  /** Acceptable objects with distinct identifiers, distinct names within a kind, and distinct service endpoints. */
  predicate Consistent(objects: seq<Object>, fits: Object -> bool) {
    && (forall i :: 0 <= i < |objects| ==> Acceptable(objects[i], fits))
    && forall i, j :: 0 <= i < j < |objects| ==> Apart(objects[i], objects[j])
  }

  predicate Apart(a: Object, b: Object) {
    && a.ref.id != b.ref.id && !(a.kind == b.kind && a.alias == b.alias)
    && !(a.kind.Service? && b.kind.Service? && Endpoint(a) == Endpoint(b))
  }

  function Endpoint(o: Object): (string, string, nat) {
    (o.binding.realm, o.binding.target, o.binding.port)
  }

  predicate Answers(o: Object, kind: Kind, name: string) {
    o.kind == kind && (o.alias == name || o.ref.id == name)
  }

  /** The position of the first object that answers to a kind and a name. */
  function Position(objects: seq<Object>, kind: Kind, name: string): (i: nat)
    ensures i <= |objects|
    ensures i < |objects| ==> Answers(objects[i], kind, name)
    ensures forall j :: 0 <= j < i ==> !Answers(objects[j], kind, name)
  {
    if objects == [] || Answers(objects[0], kind, name) then 0
    else
      var i := Position(objects[1..], kind, name);
      assert forall j :: 1 <= j <= i ==> objects[j] == objects[1..][j - 1];
      i + 1
  }

  method Find(objects: seq<Object>, kind: Kind, name: string) returns (r: Option<Object>)
    ensures var i := Position(objects, kind, name); r == if i < |objects| then Some(objects[i]) else None
  {
    var i := 0;
    while i < |objects|
      invariant 0 <= i <= |objects|
      invariant forall j :: 0 <= j < i ==> !Answers(objects[j], kind, name)
    {
      if objects[i].kind == kind && (objects[i].alias == name || objects[i].ref.id == name) {
        return Some(objects[i]);
      }
      i := i + 1;
    }
    return None;
  }

  /** A reference fixed to the current revision of what it names; one that names an older revision is stale. */
  function Bound(objects: seq<Object>, ref: Ref, kind: Kind): Option<Ref> {
    if ref.id == "" then Some(ref)
    else
      var i := Position(objects, kind, ref.id);
      if i == |objects| || (ref.revision != 0 && ref.revision != objects[i].ref.revision) then None
      else Some(objects[i].ref)
  }

  function BoundAll(objects: seq<Object>, b: Binding): Option<Binding> {
    var g, v, s, c := Bound(objects, b.gateway, Gateway), Bound(objects, b.vpn, VPN), Bound(objects, b.source, Network),
                      Bound(objects, b.control, Service);
    if g.None? || v.None? || s.None? || c.None? then None
    else Some(b.(gateway := g.value, vpn := v.value, source := s.value, control := c.value))
  }

  method BindOne(objects: seq<Object>, ref: Ref, kind: Kind) returns (r: Option<Ref>)
    ensures r == Bound(objects, ref, kind)
  {
    if ref.id == "" {
      return Some(ref);
    }
    var o := Find(objects, kind, ref.id);
    if o.None? || (ref.revision != 0 && ref.revision != o.value.ref.revision) {
      return None;
    }
    return Some(o.value.ref);
  }

  method BindRefs(objects: seq<Object>, b: Binding) returns (r: Option<Binding>)
    ensures r == BoundAll(objects, b)
  {
    var bound := b;
    var ref := BindOne(objects, b.gateway, Gateway);
    if ref.None? {
      return None;
    }
    bound := bound.(gateway := ref.value);
    ref := BindOne(objects, b.vpn, VPN);
    if ref.None? {
      return None;
    }
    bound := bound.(vpn := ref.value);
    ref := BindOne(objects, b.source, Network);
    if ref.None? {
      return None;
    }
    bound := bound.(source := ref.value);
    ref := BindOne(objects, b.control, Service);
    if ref.None? {
      return None;
    }
    return Some(bound.(control := ref.value));
  }

  /** What was seen of a checked prefix. */
  ghost predicate Checked(objects: seq<Object>, n: nat, refs: set<string>, aliases: set<(Kind, string)>,
                          ends: set<(string, string, nat)>, fits: Object -> bool)
    requires n <= |objects|
  {
    && Consistent(objects[..n], fits)
    && refs == (set i | 0 <= i < n :: objects[i].ref.id)
    && aliases == (set i | 0 <= i < n :: (objects[i].kind, objects[i].alias))
    && ends == (set i | 0 <= i < n && objects[i].kind.Service? :: Endpoint(objects[i]))
  }

  lemma CheckedStep(objects: seq<Object>, n: nat, refs: set<string>, aliases: set<(Kind, string)>,
                    ends: set<(string, string, nat)>, fits: Object -> bool)
    requires n < |objects| && Checked(objects, n, refs, aliases, ends, fits) && Acceptable(objects[n], fits)
    ensures var o := objects[n];
            var isFresh := o.ref.id !in refs && (o.kind, o.alias) !in aliases
              && !(o.kind.Service? && Endpoint(o) in ends);
            && (isFresh ==> Checked(objects, n + 1, refs + {o.ref.id}, aliases + {(o.kind, o.alias)},
                                    if o.kind.Service? then ends + {Endpoint(o)} else ends, fits))
            && (!isFresh ==> !Consistent(objects, fits))
  {
    var o := objects[n];
    assert objects[..n + 1] == objects[..n] + [o];
    if o.ref.id in refs {
      var i :| 0 <= i < n && objects[i].ref.id == o.ref.id;
      assert !Apart(objects[i], objects[n]);
    } else if (o.kind, o.alias) in aliases {
      var i :| 0 <= i < n && (objects[i].kind, objects[i].alias) == (o.kind, o.alias);
      assert !Apart(objects[i], objects[n]);
    } else if o.kind.Service? && Endpoint(o) in ends {
      var i :| 0 <= i < n && objects[i].kind.Service? && Endpoint(objects[i]) == Endpoint(o);
      assert !Apart(objects[i], objects[n]);
    } else {
      forall i | 0 <= i < n
        ensures Apart(objects[i], o)
      {
        assert objects[i].ref.id in refs && (objects[i].kind, objects[i].alias) in aliases;
      }
    }
  }

  method ValidateObjects(objects: seq<Object>, fits: Object -> bool) returns (ok: bool)
    ensures ok <==> Consistent(objects, fits)
  {
    var refs: set<string>, aliases: set<(Kind, string)>, ends: set<(string, string, nat)> := {}, {}, {};
    var i := 0;
    while i < |objects|
      invariant 0 <= i <= |objects| && Checked(objects, i, refs, aliases, ends, fits)
    {
      var o := objects[i];
      if !Acceptable(o, fits) {
        return false;
      }
      CheckedStep(objects, i, refs, aliases, ends, fits);
      if o.ref.id in refs || (o.kind, o.alias) in aliases {
        return false;
      }
      refs, aliases := refs + {o.ref.id}, aliases + {(o.kind, o.alias)};
      if o.kind.Service? {
        if Endpoint(o) in ends {
          return false;
        }
        ends := ends + {Endpoint(o)};
      }
      i := i + 1;
    }
    assert objects[..i] == objects;
    return true;
  }

  // ----- changes

  /** One object edited and its references bound again, in the first position that answers. */
  function Edited(objects: seq<Object>, kind: Kind, name: string, edit: Object -> Object): Option<seq<Object>> {
    var i := Position(objects, kind, name);
    if i == |objects| then None
    else
      var next := objects[i := edit(objects[i])];
      match BoundAll(next, next[i].binding)
      case None => None
      case Some(b) => Some(next[i := next[i].(binding := b)])
  }

  function Added(objects: seq<Object>, o: Object, id: string): Option<seq<Object>> {
    if o.ref != NO_REF then None
    else
      match BoundAll(objects, o.binding)
      case None => None
      case Some(b) => Some(objects + [o.(ref := Ref(id, 1), binding := b)])
  }

  function Renaming(alias: string): Object -> Object {
    (o: Object) => o.(alias := alias)
  }

  function Rebinding(b: Binding): Object -> Object {
    (o: Object) => o.(binding := b, ref := Ref(o.ref.id, o.ref.revision + 1))
  }

  /** The stored state after a change is attempted: checked as a whole, and kept as it was when the check fails. */
  function Stored(objects: seq<Object>, next: Option<seq<Object>>, fits: Object -> bool): seq<Object> {
    if next.Some? && Consistent(next.value, fits) then next.value else objects
  }

  class Store {
    var objects: seq<Object>
    const fits: Object -> bool

    constructor (fits: Object -> bool)
      ensures objects == [] && this.fits == fits
    {
      objects, this.fits := [], fits;
    }

    method Mutate(next: Option<seq<Object>>) returns (ok: bool)
      modifies this
      ensures objects == Stored(old(objects), next, fits) && (ok <==> next.Some? && Consistent(next.value, fits))
    {
      ok := false;
      if next.Some? {
        ok := ValidateObjects(next.value, fits);
        if ok {
          objects := next.value;
        }
      }
    }

    method Create(o: Object, id: string) returns (ok: bool)
      modifies this
      ensures var next := Added(old(objects), o, id);
              objects == Stored(old(objects), next, fits) && (ok <==> next.Some? && Consistent(next.value, fits))
    {
      if o.ref.id != "" || o.ref.revision != 0 {
        return false;
      }
      var b := BindRefs(objects, o.binding);
      if b.None? {
        return false;
      }
      ok := Mutate(Some(objects + [o.(ref := Ref(id, 1), binding := b.value)]));
    }

    method Change(kind: Kind, name: string, edit: Object -> Object) returns (ok: bool)
      modifies this
      ensures var next := Edited(old(objects), kind, name, edit);
              objects == Stored(old(objects), next, fits) && (ok <==> next.Some? && Consistent(next.value, fits))
    {
      var i := 0;
      while i < |objects|
        invariant 0 <= i <= |objects| && objects == old(objects)
        invariant forall j :: 0 <= j < i ==> !Answers(objects[j], kind, name)
      {
        if objects[i].kind == kind && (objects[i].alias == name || objects[i].ref.id == name) {
          break;
        }
        i := i + 1;
      }
      if i == |objects| {
        return false;
      }
      FirstIsPosition(objects, kind, name, i);
      var next := objects[i := edit(objects[i])];
      var b := BindRefs(next, next[i].binding);
      if b.None? {
        return false;
      }
      ok := Mutate(Some(next[i := next[i].(binding := b.value)]));
    }

    method Rename(kind: Kind, name: string, alias: string) returns (ok: bool)
      modifies this
      ensures var next := Edited(old(objects), kind, name, Renaming(alias));
              objects == Stored(old(objects), next, fits) && (ok <==> next.Some? && Consistent(next.value, fits))
    {
      ok := Change(kind, name, Renaming(alias));
    }

    method Rebind(kind: Kind, name: string, b: Binding) returns (ok: bool)
      modifies this
      ensures var next := Edited(old(objects), kind, name, Rebinding(b));
              objects == Stored(old(objects), next, fits) && (ok <==> next.Some? && Consistent(next.value, fits))
    {
      ok := Change(kind, name, Rebinding(b));
    }
  }

  lemma FirstIsPosition(objects: seq<Object>, kind: Kind, name: string, i: nat)
    requires i < |objects| && Answers(objects[i], kind, name)
    requires forall j :: 0 <= j < i ==> !Answers(objects[j], kind, name)
    ensures Position(objects, kind, name) == i
  {
  }

  // ----- what every change keeps

  /** A reference names an object of its kind, at a revision that object has had. */
  predicate Known(objects: seq<Object>, ref: Ref, kind: Kind) {
    ref.id == "" || exists i :: 0 <= i < |objects| && Has(objects[i], ref, kind)
  }

  predicate Has(o: Object, ref: Ref, kind: Kind) {
    o.kind == kind && o.ref.id == ref.id && 1 <= ref.revision <= o.ref.revision
  }

  predicate AllKnown(objects: seq<Object>, b: Binding) {
    Known(objects, b.gateway, Gateway) && Known(objects, b.vpn, VPN) && Known(objects, b.source, Network)
    && Known(objects, b.control, Service)
  }

  predicate Inv(objects: seq<Object>, fits: Object -> bool) {
    Consistent(objects, fits) && forall i :: 0 <= i < |objects| ==> AllKnown(objects, objects[i].binding)
  }

  /** Objects stay, under the same identifier and kind, and revisions never fall. */
  predicate Stays(a: seq<Object>, b: seq<Object>) {
    && |a| <= |b|
    && forall i :: 0 <= i < |a| ==>
         b[i].ref.id == a[i].ref.id && b[i].kind == a[i].kind && a[i].ref.revision <= b[i].ref.revision
  }

  /** Besides, one revision is one binding. */
  predicate Grows(a: seq<Object>, b: seq<Object>) {
    Stays(a, b) && forall i :: 0 <= i < |a| && b[i].ref == a[i].ref ==> b[i].binding == a[i].binding
  }

  lemma StaysKeepsKnown(a: seq<Object>, b: seq<Object>, ref: Ref, kind: Kind)
    requires Stays(a, b) && Known(a, ref, kind)
    ensures Known(b, ref, kind)
  {
    if ref.id != "" {
      var i :| 0 <= i < |a| && Has(a[i], ref, kind);
      assert Has(b[i], ref, kind);
    }
  }

  lemma StaysKeepsAllKnown(a: seq<Object>, b: seq<Object>, binding: Binding)
    requires Stays(a, b) && AllKnown(a, binding)
    ensures AllKnown(b, binding)
  {
    StaysKeepsKnown(a, b, binding.gateway, Gateway);
    StaysKeepsKnown(a, b, binding.vpn, VPN);
    StaysKeepsKnown(a, b, binding.source, Network);
    StaysKeepsKnown(a, b, binding.control, Service);
  }

  /** A bound reference is known, and is at the current revision. */
  lemma BoundIsKnown(objects: seq<Object>, ref: Ref, kind: Kind)
    requires Bound(objects, ref, kind).Some? && forall i :: 0 <= i < |objects| ==> objects[i].ref.revision != 0
    ensures Known(objects, Bound(objects, ref, kind).value, kind)
  {
    if ref.id != "" {
      assert Has(objects[Position(objects, kind, ref.id)], Bound(objects, ref, kind).value, kind);
    }
  }

  lemma BoundAllIsKnown(objects: seq<Object>, b: Binding)
    requires BoundAll(objects, b).Some? && forall i :: 0 <= i < |objects| ==> objects[i].ref.revision != 0
    ensures AllKnown(objects, BoundAll(objects, b).value)
  {
    BoundIsKnown(objects, b.gateway, Gateway);
    BoundIsKnown(objects, b.vpn, VPN);
    BoundIsKnown(objects, b.source, Network);
    BoundIsKnown(objects, b.control, Service);
  }

  lemma AddKeeps(objects: seq<Object>, o: Object, id: string, fits: Object -> bool)
    requires Inv(objects, fits)
    ensures var next := Stored(objects, Added(objects, o, id), fits); Inv(next, fits) && Grows(objects, next)
  {
    var next := Stored(objects, Added(objects, o, id), fits);
    if next != objects {
      BoundAllIsKnown(objects, o.binding);
      forall i | 0 <= i < |next|
        ensures AllKnown(next, next[i].binding)
      {
        StaysKeepsAllKnown(objects, next, next[i].binding);
      }
    }
  }

  /** An object under another name. */
  lemma AliasKeeps(objects: seq<Object>, i: nat, alias: string, fits: Object -> bool)
    requires Inv(objects, fits) && i < |objects| && Consistent(objects[i := objects[i].(alias := alias)], fits)
    ensures var next := objects[i := objects[i].(alias := alias)]; Inv(next, fits) && Grows(objects, next)
  {
    var next := objects[i := objects[i].(alias := alias)];
    forall j | 0 <= j < |next|
      ensures AllKnown(next, next[j].binding)
    {
      assert next[j].binding == objects[j].binding;
      StaysKeepsAllKnown(objects, next, objects[j].binding);
    }
  }

  lemma RenameKeeps(objects: seq<Object>, kind: Kind, name: string, alias: string, fits: Object -> bool)
    requires Inv(objects, fits)
    ensures var next := Stored(objects, Edited(objects, kind, name, Renaming(alias)), fits);
            Inv(next, fits) && Grows(objects, next)
  {
    var edited := Edited(objects, kind, name, Renaming(alias));
    if edited.Some? && Consistent(edited.value, fits) {
      RenameChangesOnlyTheAlias(objects, kind, name, alias, fits);
      AliasKeeps(objects, Position(objects, kind, name), alias, fits);
    }
  }

  /** An object at its next revision, with references that are bound. */
  lemma RevisionKeeps(objects: seq<Object>, i: nat, o: Object, bound: Binding, fits: Object -> bool)
    requires Inv(objects, fits) && i < |objects| && o.kind == objects[i].kind
    requires o.ref == Ref(objects[i].ref.id, objects[i].ref.revision + 1)
    requires BoundAll(objects[i := o], o.binding) == Some(bound)
    requires Consistent(objects[i := o.(binding := bound)], fits)
    ensures var next := objects[i := o.(binding := bound)]; Inv(next, fits) && Grows(objects, next)
  {
    var mid, next := objects[i := o], objects[i := o.(binding := bound)];
    assert forall j :: 0 <= j < |mid| ==> mid[j].ref == next[j].ref && Acceptable(next[j], fits);
    BoundAllIsKnown(mid, o.binding);
    forall j | 0 <= j < |next|
      ensures AllKnown(next, next[j].binding)
    {
      StaysKeepsAllKnown(if j == i then mid else objects, next, next[j].binding);
    }
  }

  lemma RebindKeeps(objects: seq<Object>, kind: Kind, name: string, b: Binding, fits: Object -> bool)
    requires Inv(objects, fits)
    ensures var next := Stored(objects, Edited(objects, kind, name, Rebinding(b)), fits);
            Inv(next, fits) && Grows(objects, next)
  {
    var edited := Edited(objects, kind, name, Rebinding(b));
    if edited.Some? && Consistent(edited.value, fits) {
      var i := Position(objects, kind, name);
      var o := Rebinding(b)(objects[i]);
      var bound := BoundAll(objects[i := o], b).value;
      assert edited.value == objects[i := o.(binding := bound)];
      RevisionKeeps(objects, i, o, bound, fits);
    }
  }

  datatype Change =
    | Create(o: Object, id: string)
    | Rename(kind: Kind, name: string, alias: string)
    | Rebind(kind: Kind, name: string, b: Binding)

  function Applied(objects: seq<Object>, c: Change, fits: Object -> bool): seq<Object> {
    match c
    case Create(o, id) => Stored(objects, Added(objects, o, id), fits)
    case Rename(kind, name, alias) => Stored(objects, Edited(objects, kind, name, Renaming(alias)), fits)
    case Rebind(kind, name, b) => Stored(objects, Edited(objects, kind, name, Rebinding(b)), fits)
  }

  function AppliedAll(objects: seq<Object>, changes: seq<Change>, fits: Object -> bool): seq<Object>
    decreases |changes|
  {
    if changes == [] then objects else AppliedAll(Applied(objects, changes[0], fits), changes[1..], fits)
  }

  lemma GrowsTrans(a: seq<Object>, b: seq<Object>, c: seq<Object>)
    requires Grows(a, b) && Grows(b, c)
    ensures Grows(a, c)
  {
  }

  /**
   Whatever is created, renamed and rebound, identifiers, names and endpoints stay distinct, every stored reference
   names an object of its kind at a revision it has had, and no object is lost or goes back a revision.
   */
  lemma {:induction false} ChangesKeep(objects: seq<Object>, changes: seq<Change>, fits: Object -> bool)
    requires Inv(objects, fits)
    ensures Inv(AppliedAll(objects, changes, fits), fits) && Grows(objects, AppliedAll(objects, changes, fits))
    decreases |changes|
  {
    if changes != [] {
      match changes[0] {
        case Create(o, id) => AddKeeps(objects, o, id, fits);
        case Rename(kind, name, alias) => RenameKeeps(objects, kind, name, alias, fits);
        case Rebind(kind, name, b) => RebindKeeps(objects, kind, name, b, fits);
      }
      var next := Applied(objects, changes[0], fits);
      ChangesKeep(next, changes[1..], fits);
      GrowsTrans(objects, next, AppliedAll(objects, changes, fits));
    }
  }

  /** A reference that binds is already at the current revision, so binding a stored one changes nothing. */
  lemma RebindingIsIdle(objects: seq<Object>, mid: seq<Object>, ref: Ref, kind: Kind, fits: Object -> bool)
    requires Inv(objects, fits) && Known(objects, ref, kind) && Bound(mid, ref, kind).Some?
    requires |mid| == |objects|
    requires forall i :: 0 <= i < |mid| ==>
               mid[i].ref == objects[i].ref && mid[i].kind == objects[i].kind && Name(mid[i].alias)
    ensures Bound(mid, ref, kind) == Some(ref)
  {
    if ref.id != "" {
      var j :| 0 <= j < |objects| && Has(objects[j], ref, kind);
      assert Acceptable(objects[j], fits);
      NameIsNotIdentifier(ref.id);
      var i := Position(mid, kind, ref.id);
      assert mid[i].ref.id == ref.id;
    }
  }

  lemma RebindingAllIsIdle(objects: seq<Object>, mid: seq<Object>, b: Binding, fits: Object -> bool)
    requires Inv(objects, fits) && AllKnown(objects, b) && BoundAll(mid, b).Some? && |mid| == |objects|
    requires forall i :: 0 <= i < |mid| ==>
      mid[i].ref == objects[i].ref && mid[i].kind == objects[i].kind && Name(mid[i].alias)
    ensures BoundAll(mid, b) == Some(b)
  {
    RebindingIsIdle(objects, mid, b.gateway, Gateway, fits);
    RebindingIsIdle(objects, mid, b.vpn, VPN, fits);
    RebindingIsIdle(objects, mid, b.source, Network, fits);
    RebindingIsIdle(objects, mid, b.control, Service, fits);
  }

  /** A rename changes one alias and nothing else. */
  lemma RenameChangesOnlyTheAlias(objects: seq<Object>, kind: Kind, name: string, alias: string, fits: Object -> bool)
    requires Inv(objects, fits)
    requires var edited := Edited(objects, kind, name, Renaming(alias)); edited.Some? && Consistent(edited.value, fits)
    ensures var i := Position(objects, kind, name);
            && i < |objects|
            && Edited(objects, kind, name, Renaming(alias)) == Some(objects[i := objects[i].(alias := alias)])
  {
    var i := Position(objects, kind, name);
    var o := objects[i].(alias := alias);
    var mid, next := objects[i := o], Edited(objects, kind, name, Renaming(alias)).value;
    forall j | 0 <= j < |mid|
      ensures mid[j].ref == objects[j].ref && mid[j].kind == objects[j].kind && Name(mid[j].alias)
    {
      assert Acceptable(next[j], fits) && next[j].alias == mid[j].alias;
    }
    RebindingAllIsIdle(objects, mid, o.binding, fits);
    assert next == mid[i := o] == mid;
  }
}
