/** Every run of lease calls, with lost and unseen writes, signer failures and edited configurations. */
module LeaseRuns {
  import opened Bytes
  import opened Lease
  import ShellWords

  /** The stored state, the requests that reached the signer, who approved each lease, and the latest time seen. */
  datatype World = World(disk: Disk, signed: seq<SignRequest>, approvers: map<string, Actor>, clock: int)

  /** One service call by a process that started with configuration c. */
  datatype Event =
    | Open(a: Actor, c: Config, q: OpenRequest, id: string, now: int, save: Save)
    | Get(a: Actor, id: string, now: int, save: Save)
    | List(a: Actor, objective: string, at: string -> int, now: int, save: Save)
    | Approve(a: Actor, c: Config, id: string, authorized: bool, now: int, save: Save)
    | Close(a: Actor, id: string, state: Status, reason: string, now: int, later: int, save: Save)
    | Issue(a: Actor, c: Config, id: string, key: Option<string>, o: Outside)

  /** Clocks do not run back, new identifiers are fresh, and services run only valid configurations. */
  ghost predicate Legal(w: World, e: Event) {
    match e
    case Open(_, c, _, id, now, _) => ValidConfig(c) && now >= w.clock && id !in w.disk.leases && id !in w.approvers
    case Get(_, _, now, _) => now >= w.clock
    case List(_, _, _, now, _) => now >= w.clock
    case Approve(_, c, _, _, now, _) => ValidConfig(c) && now >= w.clock
    case Close(_, _, _, _, now, later, _) => w.clock <= now <= later
    case Issue(_, c, _, _, o) =>
      ValidConfig(c) && (o.current.Some? ==> ValidConfig(o.current.value)) && w.clock <= o.now <= o.later
  }

  function Kept(w: World, next: Option<(Disk, Lease)>, save: Save, now: int): World {
    match next
    case None => w.(clock := now)
    case Some((d, _)) => w.(disk := Written(w.disk, d, save), clock := now)
  }

  ghost function Step(w: World, e: Event): World {
    match e
    case Open(a, c, q, id, now, save) => Kept(w, Opened(w.disk, c, a, q, id, now), save, now)
    case Get(a, id, now, save) => Kept(w, Got(w.disk, a, id, now), save, now)
    case List(a, objective, at, now, save) =>
      w.(disk := Written(w.disk, w.disk.(leases := w.disk.leases + ListedLeases(w.disk, a, objective, at)), save),
         clock := now)
    case Approve(a, c, id, authorized, now, save) =>
      var next := Approved(w.disk, c, a, id, authorized, now);
      var approvers := if next.Some? && !save.Lost? then w.approvers[id := a] else w.approvers;
      Kept(w, next, save, now).(approvers := approvers)
    case Close(a, id, state, reason, now, later, save) =>
      Kept(w, Closed(w.disk, a, id, state, reason, now, later), save, later)
    case Issue(a, c, id, key, o) =>
      var r := Issued(w.disk, c, a, id, key, o);
      w.(disk := r.disk, signed := if r.asked.Some? then w.signed + [r.asked.value] else w.signed, clock := o.later)
  }

  // ----- what every run keeps

  /** Preapproved without explicit approval, or approved by an approver who is not the requester. */
  predicate Cleared(l: Lease, approvers: map<string, Actor>) {
    || (l.requester in l.policy.requesters && l.policy.requesters[l.requester].Preapproved?
        && !l.policy.explicitApproval)
    || (l.id in approvers && approvers[l.id].canApprove && approvers[l.id].id != l.requesterId
        && l.approvedBy == approvers[l.id].id)
  }

  predicate Sound(id: string, l: Lease, approvers: map<string, Actor>, clock: int) {
    && l.id == id && l.requesterId != "" && l.openedAt <= clock && l.hardExpiresAt <= l.openedAt + l.policy.maxLease
    && l.policy.maxLease == Ceiling(l.digest.policy, l.requester)
    && l.principal == Principal(l.workspace, l.hostId, l.roleId)
    && (l.policy.user == "root" ==> l.policy.explicitApproval) && (l.status.Active? ==> Cleared(l, approvers))
  }

  predicate KeysUnique(leases: map<string, Lease>) {
    forall x, y :: x in leases && y in leases && leases[x].key == leases[y].key ==> x == y
  }

  predicate SerialsRise(signed: seq<SignRequest>, top: nat) {
    && (forall i, j :: 0 <= i < j < |signed| ==> signed[i].serial < signed[j].serial)
    && (forall i :: 0 <= i < |signed| ==> signed[i].serial <= top)
  }

  predicate Recorded(i: Issuance, signed: seq<SignRequest>) {
    exists k :: && 0 <= k < |signed| && signed[k].serial == i.serial && signed[k].leaseId == i.leaseId
                && signed[k].validBefore == i.validBefore && signed[k].validAfter == i.validAfter
  }

  predicate Backed(i: Issuance, w: World) {
    && Recorded(i, w.signed) && i.leaseId in w.disk.leases
    && w.disk.leases[i.leaseId].openedAt <= i.issuedAt < i.validBefore <= w.disk.leases[i.leaseId].hardExpiresAt
  }

  predicate LeasesSound(w: World) {
    forall id :: id in w.disk.leases ==> Sound(id, w.disk.leases[id], w.approvers, w.clock)
  }

  predicate IssuancesBacked(w: World) {
    forall k :: 0 <= k < |w.disk.issuances| ==> Backed(w.disk.issuances[k], w)
  }

  predicate Inv(w: World) {
    && LeasesSound(w) && KeysUnique(w.disk.leases) && SerialsRise(w.signed, w.disk.nextSerial) && IssuancesBacked(w)
    && w.disk.nextSerial <= MAX_SERIAL
  }

  /**
   A lease record only moves forward: its grant is fixed, a closed one is fixed entirely, an active one is never pending
   again.
   */
  predicate Moves(l: Lease, m: Lease) {
    && m == l.(status := m.status, closedAt := m.closedAt, reason := m.reason, approvedBy := m.approvedBy)
    && (!Live(l) ==> m == l) && (l.status.Active? ==> !m.status.PendingApproval? && m.approvedBy == l.approvedBy)
  }

  predicate LeasesMove(a: map<string, Lease>, b: map<string, Lease>) {
    forall id :: id in a ==> id in b && Moves(a[id], b[id])
  }

  /** What was stored or signed stays. */
  predicate Extends(w: World, v: World) {
    && LeasesMove(w.disk.leases, v.disk.leases) && w.disk.nextSerial <= v.disk.nextSerial && w.signed <= v.signed
    && w.disk.issuances <= v.disk.issuances
  }

  predicate SameLedger(w: World, v: World) {
    v.signed == w.signed && v.disk.issuances == w.disk.issuances && v.disk.nextSerial == w.disk.nextSerial
  }

  lemma LedgerKeeps(w: World, v: World)
    requires Inv(w) && SameLedger(w, v) && LeasesMove(w.disk.leases, v.disk.leases)
    ensures SerialsRise(v.signed, v.disk.nextSerial) && IssuancesBacked(v) && Extends(w, v)
            && v.disk.nextSerial <= MAX_SERIAL
  {
    forall k | 0 <= k < |v.disk.issuances|
      ensures Backed(v.disk.issuances[k], v)
    {
      assert Backed(w.disk.issuances[k], w);
    }
  }

  /** One record replaced by a later form of itself. */
  lemma ReplaceKeeps(w: World, v: World, id: string, m: Lease)
    requires Inv(w) && SameLedger(w, v) && v.clock >= w.clock
    requires id in w.disk.leases && v.disk.leases == w.disk.leases[id := m] && Moves(w.disk.leases[id], m)
    requires m.status.Active? ==> Cleared(m, v.approvers)
    requires forall x :: x in w.disk.leases && x != id && x in w.approvers ==>
               x in v.approvers && v.approvers[x] == w.approvers[x]
    ensures Inv(v) && Extends(w, v)
  {
    var a, b := w.disk.leases, v.disk.leases;
    forall x | x in a
      ensures x in b && Moves(a[x], b[x])
    {
    }
    LedgerKeeps(w, v);
    forall x | x in b
      ensures Sound(x, b[x], v.approvers, v.clock)
    {
      assert Sound(x, a[x], w.approvers, w.clock);
    }
    forall x, y | x in b && y in b && b[x].key == b[y].key
      ensures x == y
    {
      assert a[x].key == a[y].key;
    }
  }

  lemma UnchangedKeeps(w: World, v: World)
    requires Inv(w) && v == w.(clock := v.clock) && v.clock >= w.clock
    ensures Inv(v) && Extends(w, v)
  {
    forall x | x in v.disk.leases
      ensures Sound(x, v.disk.leases[x], v.approvers, v.clock) && Moves(w.disk.leases[x], v.disk.leases[x])
    {
      assert Sound(x, w.disk.leases[x], w.approvers, w.clock);
    }
    LedgerKeeps(w, v);
  }

  lemma ExpireMoves(l: Lease, now: int)
    ensures Moves(l, Expire(l, now)) && (Expire(l, now).status.Active? ==> Expire(l, now) == l)
  {
  }

  lemma OpenKeeps(w: World, e: Event)
    requires e.Open? && Inv(w) && Legal(w, e)
    ensures Inv(Step(w, e)) && Extends(w, Step(w, e))
  {
    var v := Step(w, e);
    var r := Opened(w.disk, e.c, e.a, e.q, e.id, e.now);
    if e.save.Lost? || r.None? || KeyTaken(w.disk.leases, e.q.key.value) {
      UnchangedKeeps(w, v);
    } else {
      var l := r.value.1;
      RoleLimits(e.c, e.a, e.q.hostId, e.q.roleId);
      assert Sound(e.id, l, v.approvers, v.clock);
      AddKeeps(w, v, e.id, l);
    }
  }

  lemma AddKeeps(w: World, v: World, id: string, l: Lease)
    requires Inv(w) && SameLedger(w, v) && v.clock >= w.clock && v.approvers == w.approvers
    requires id !in w.disk.leases && v.disk.leases == w.disk.leases[id := l] && Sound(id, l, v.approvers, v.clock)
    requires !KeyTaken(w.disk.leases, l.key)
    ensures Inv(v) && Extends(w, v)
  {
    var a, b := w.disk.leases, v.disk.leases;
    forall x | x in a
      ensures x in b && Moves(a[x], b[x])
    {
    }
    LedgerKeeps(w, v);
    forall x | x in b
      ensures Sound(x, b[x], v.approvers, v.clock)
    {
      if x != id {
        assert Sound(x, a[x], w.approvers, w.clock);
      }
    }
  }

  lemma GetKeeps(w: World, e: Event)
    requires e.Get? && Inv(w) && Legal(w, e)
    ensures Inv(Step(w, e)) && Extends(w, Step(w, e))
  {
    var v := Step(w, e);
    var r := Got(w.disk, e.a, e.id, e.now);
    if e.save.Lost? || r.None? {
      UnchangedKeeps(w, v);
    } else {
      ExpireMoves(w.disk.leases[e.id], e.now);
      assert Sound(e.id, w.disk.leases[e.id], w.approvers, w.clock);
      ReplaceKeeps(w, v, e.id, r.value.1);
    }
  }

  lemma ApproveKeeps(w: World, e: Event)
    requires e.Approve? && Inv(w) && Legal(w, e)
    ensures Inv(Step(w, e)) && Extends(w, Step(w, e))
  {
    var v := Step(w, e);
    var r := Approved(w.disk, e.c, e.a, e.id, e.authorized, e.now);
    if e.save.Lost? || r.None? {
      UnchangedKeeps(w, v);
    } else {
      ExpireMoves(w.disk.leases[e.id], e.now);
      assert Sound(e.id, w.disk.leases[e.id], w.approvers, w.clock);
      ReplaceKeeps(w, v, e.id, r.value.1);
    }
  }

  lemma CloseKeeps(w: World, e: Event)
    requires e.Close? && Inv(w) && Legal(w, e)
    ensures Inv(Step(w, e)) && Extends(w, Step(w, e))
  {
    var v := Step(w, e);
    var r := Closed(w.disk, e.a, e.id, e.state, e.reason, e.now, e.later);
    if e.save.Lost? || r.None? {
      UnchangedKeeps(w, v);
    } else {
      ExpireMoves(w.disk.leases[e.id], e.now);
      ReplaceKeeps(w, v, e.id, r.value.1);
    }
  }

  lemma ListKeeps(w: World, e: Event)
    requires e.List? && Inv(w) && Legal(w, e)
    ensures Inv(Step(w, e)) && Extends(w, Step(w, e))
  {
    var v := Step(w, e);
    if e.save.Lost? {
      UnchangedKeeps(w, v);
    } else {
      var a, b := w.disk.leases, v.disk.leases;
      forall x | x in a
        ensures x in b && Moves(a[x], b[x]) && (b[x].status.Active? ==> b[x] == a[x])
      {
        ExpireMoves(a[x], e.at(x));
      }
      LedgerKeeps(w, v);
      forall x | x in b
        ensures Sound(x, b[x], v.approvers, v.clock)
      {
        assert Sound(x, a[x], w.approvers, w.clock);
      }
      forall x, y | x in b && y in b && b[x].key == b[y].key
        ensures x == y
      {
        assert a[x].key == a[y].key;
      }
    }
  }

  // ----- issuing

  /** What entitles an issue, and the bounds on the lifetime it may ask for. */
  lemma EntitledBounds(d: Disk, own: Config, a: Actor, id: string, key: Option<string>, o: Outside)
    requires Entitled(d, own, a, id, key, o).Some?
    ensures var (l, r, before) := Entitled(d, own, a, id, key, o).value;
            && id in d.leases && l == d.leases[id] && l.status.Active? && Some(l.key) == key && l.requesterId == a.id
            && o.authorized && o.current.Some? && l.digest == ScopeDigest(o.current.value, l.hostId, l.roleId)
            && RoleFor(o.current.value, a, l.hostId, l.roleId) == Some(r)
            && o.now < before <= l.hardExpiresAt && before <= o.now + own.ttl && before <= o.now + r.maxCertTtl
  {
  }

  lemma SameLease(d: Disk, id: string)
    requires id in d.leases
    ensures d.leases[id := d.leases[id]] == d.leases
  {
  }

  lemma ReserveKeeps(w: World, v: World)
    requires Inv(w) && v.clock >= w.clock && w.disk.nextSerial < MAX_SERIAL
    requires v == w.(disk := w.disk.(nextSerial := w.disk.nextSerial + 1), clock := v.clock)
    ensures Inv(v) && Extends(w, v)
    ensures forall i :: 0 <= i < |v.signed| ==> v.signed[i].serial < v.disk.nextSerial
  {
    var u := w.(clock := v.clock);
    UnchangedKeeps(w, u);
    forall k | 0 <= k < |v.disk.issuances|
      ensures Backed(v.disk.issuances[k], v)
    {
      assert Backed(u.disk.issuances[k], u);
    }
  }

  /** A request that carries the newest serial. */
  lemma AskKeeps(w: World, v: World, q: SignRequest)
    requires Inv(w) && v == w.(signed := w.signed + [q]) && q.serial == w.disk.nextSerial
    requires forall i :: 0 <= i < |w.signed| ==> w.signed[i].serial < q.serial
    ensures Inv(v) && Extends(w, v) && v.signed[|w.signed|] == q
  {
    forall k | 0 <= k < |v.disk.issuances|
      ensures Backed(v.disk.issuances[k], v)
    {
      var i := w.disk.issuances[k];
      assert Backed(i, w);
      var j :| 0 <= j < |w.signed| && w.signed[j].serial == i.serial && w.signed[j].leaseId == i.leaseId
               && w.signed[j].validBefore == i.validBefore && w.signed[j].validAfter == i.validAfter;
      assert v.signed[j] == w.signed[j];
    }
    SameLeasesMove(w.disk.leases);
  }

  lemma SameLeasesMove(leases: map<string, Lease>)
    ensures LeasesMove(leases, leases)
  {
  }

  lemma RecordKeeps(w: World, v: World, i: Issuance)
    requires Inv(w) && v == w.(disk := w.disk.(issuances := w.disk.issuances + [i])) && Backed(i, w)
    ensures Inv(v) && Extends(w, v)
  {
    forall k | 0 <= k < |v.disk.issuances|
      ensures Backed(v.disk.issuances[k], v)
    {
      assert k < |w.disk.issuances| ==> Backed(w.disk.issuances[k], w);
    }
    SameLeasesMove(w.disk.leases);
  }

  /** Without a request to the signer nothing but a serial can have been used up. */
  lemma UnaskedLeaves(d: Disk, own: Config, a: Actor, id: string, key: Option<string>, o: Outside)
    requires Issued(d, own, a, id, key, o).asked.None?
    ensures var after := Issued(d, own, a, id, key, o).disk;
            after == d || (d.nextSerial < MAX_SERIAL && after == d.(nextSerial := d.nextSerial + 1))
  {
    if Entitled(d, own, a, id, key, o).Some? {
      EntitledBounds(d, own, a, id, key, o);
      SameLease(d, id);
    }
  }

  lemma IssueKeeps(w: World, e: Event)
    requires e.Issue? && Inv(w) && Legal(w, e)
    ensures Inv(Step(w, e)) && Extends(w, Step(w, e))
  {
    var r := Issued(w.disk, e.c, e.a, e.id, e.key, e.o);
    if r.asked.None? {
      UnaskedLeaves(w.disk, e.c, e.a, e.id, e.key, e.o);
      var v := w.(disk := r.disk, clock := e.o.later);
      assert Step(w, e) == v;
      if r.disk == w.disk {
        UnchangedKeeps(w, v);
      } else {
        ReserveKeeps(w, v);
      }
    } else {
      AskedFrom(w.disk, e.c, e.a, e.id, e.key, e.o);
      var w1 := w.(disk := w.disk.(nextSerial := w.disk.nextSerial + 1), clock := e.o.later);
      ReserveKeeps(w, w1);
      AskedKeeps(w, w1, e);
    }
  }

  /** From the reservation on, once the signer has been asked. */
  lemma AskedKeeps(w: World, w1: World, e: Event)
    requires e.Issue? && Inv(w) && Legal(w, e) && Inv(w1) && Extends(w, w1)
    requires Issued(w.disk, e.c, e.a, e.id, e.key, e.o).asked.Some?
    requires w1 == w.(disk := w.disk.(nextSerial := w.disk.nextSerial + 1), clock := e.o.later)
    requires forall i :: 0 <= i < |w1.signed| ==> w1.signed[i].serial < w1.disk.nextSerial
    ensures Inv(Step(w, e)) && Extends(w, Step(w, e))
  {
    var r := Issued(w.disk, e.c, e.a, e.id, e.key, e.o);
    AskedFrom(w.disk, e.c, e.a, e.id, e.key, e.o);
    var q := r.asked.value;
    var w2, v := w1.(signed := w1.signed + [q]), w1.(signed := w1.signed + [q], disk := r.disk);
    assert Step(w, e) == v;
    AskKeeps(w1, w2, q);
    ExtendsTrans(w, w1, w2);
    if r.disk != w1.disk {
      var i := r.disk.issuances[|w.disk.issuances|];
      assert Sound(e.id, w.disk.leases[e.id], w.approvers, w.clock);
      assert w2.signed[|w.signed|] == q && Recorded(i, w2.signed);
      RecordKeeps(w2, v, i);
      ExtendsTrans(w, w2, v);
    }
  }

  /** The request that reaches the signer, and the record that may follow it. */
  lemma AskedFrom(d: Disk, own: Config, a: Actor, id: string, key: Option<string>, o: Outside)
    requires Issued(d, own, a, id, key, o).asked.Some?
    ensures var r, entitled := Issued(d, own, a, id, key, o), Entitled(d, own, a, id, key, o);
            && entitled.Some? && d.nextSerial < MAX_SERIAL && o.reserve.Saved? && id in d.leases
            && entitled.value.0 == d.leases[id]
            && var (l, role, before) := entitled.value;
               var q, reserved := r.asked.value, d.(nextSerial := d.nextSerial + 1);
               && q.serial == d.nextSerial + 1 && q.leaseId == id && q.key == l.key && q.principal == l.principal
               && q.permits == role.permits && q.validBefore == before && q.validAfter == o.now - own.skew
               && Some(q.force) == Forced(role, l, o.digest) && o.now < before <= l.hardExpiresAt
               && (r.disk == reserved
                   || exists certificate ::
                     var i := Issuance(id, q.serial, certificate, q.validAfter, before, o.now);
                     r.disk == reserved.(issuances := d.issuances + [i]))
  {
    EntitledBounds(d, own, a, id, key, o);
    SameLease(d, id);
  }

  lemma MovesTrans(l: Lease, m: Lease, n: Lease)
    requires Moves(l, m) && Moves(m, n)
    ensures Moves(l, n)
  {
  }

  lemma ExtendsTrans(u: World, v: World, w: World)
    requires Extends(u, v) && Extends(v, w)
    ensures Extends(u, w)
  {
    var a, b, c := u.disk.leases, v.disk.leases, w.disk.leases;
    forall id | id in a
      ensures id in c && Moves(a[id], c[id])
    {
      MovesTrans(a[id], b[id], c[id]);
    }
  }

  // ----- whole runs

  const START: World := World(Disk(0, map[], []), [], map[], 0)

  ghost function Run(w: World, events: seq<Event>): World
    decreases |events|
  {
    if events == [] then w else Run(Step(w, events[0]), events[1..])
  }

  ghost predicate LegalRun(w: World, events: seq<Event>)
    decreases |events|
  {
    events == [] || (Legal(w, events[0]) && LegalRun(Step(w, events[0]), events[1..]))
  }

  lemma StepKeeps(w: World, e: Event)
    requires Inv(w) && Legal(w, e)
    ensures Inv(Step(w, e)) && Extends(w, Step(w, e))
  {
    match e
    case Open(_, _, _, _, _, _) => OpenKeeps(w, e);
    case Get(_, _, _, _) => GetKeeps(w, e);
    case List(_, _, _, _, _) => ListKeeps(w, e);
    case Approve(_, _, _, _, _, _) => ApproveKeeps(w, e);
    case Close(_, _, _, _, _, _, _) => CloseKeeps(w, e);
    case Issue(_, _, _, _, _) => IssueKeeps(w, e);
  }

  /** Every legal run keeps the invariant and only extends what was stored and signed. */
  lemma {:induction false} RunKeeps(w: World, events: seq<Event>)
    requires Inv(w) && LegalRun(w, events)
    ensures Inv(Run(w, events)) && Extends(w, Run(w, events))
    decreases |events|
  {
    if events == [] {
      UnchangedKeeps(w, w);
    } else {
      var v := Step(w, events[0]);
      StepKeeps(w, events[0]);
      RunKeeps(v, events[1..]);
      ExtendsTrans(w, v, Run(v, events[1..]));
    }
  }

  /**
   Serials that reach the signer rise strictly over a whole run, so none is used twice, and all are reserved on disk.
   */
  lemma SerialsNeverReused(events: seq<Event>, i: nat, j: nat)
    requires LegalRun(START, events)
    requires i < |Run(START, events).signed| && j < |Run(START, events).signed|
    ensures var w := Run(START, events);
            (i < j ==> w.signed[i].serial < w.signed[j].serial) && (w.signed[i].serial == w.signed[j].serial ==> i == j)
            && w.signed[i].serial <= w.disk.nextSerial <= MAX_SERIAL
  {
    RunKeeps(START, events);
  }

  /**
   In every reachable state no two leases share a key, and every active lease was cleared; a root lease only by an
   approver.
   */
  lemma ActiveWasCleared(events: seq<Event>, id: string)
    requires LegalRun(START, events) && id in Run(START, events).disk.leases
    ensures var w := Run(START, events);
            var l := w.disk.leases[id];
            && (l.status.Active? ==> Cleared(l, w.approvers))
            && (l.status.Active? && l.policy.user == "root" ==>
                  id in w.approvers && w.approvers[id].canApprove && l.approvedBy == w.approvers[id].id
                    && l.approvedBy != l.requesterId)
            && forall other :: other in w.disk.leases && w.disk.leases[other].key == l.key ==> other == id
  {
    RunKeeps(START, events);
    var w := Run(START, events);
    assert Sound(id, w.disk.leases[id], w.approvers, w.clock);
  }

  /** A lease that is no longer live is never changed again, and no later call gets the signer asked for it. */
  lemma ClosedStaysClosed(w: World, events: seq<Event>, id: string, e: Event)
    requires Inv(w) && LegalRun(w, events) && id in w.disk.leases && !Live(w.disk.leases[id])
    requires e.Issue? && e.id == id
    ensures var v := Run(w, events);
            id in v.disk.leases && v.disk.leases[id] == w.disk.leases[id] && Step(v, e).signed == v.signed
  {
    RunKeeps(w, events);
    var v := Run(w, events);
    assert Moves(w.disk.leases[id], v.disk.leases[id]);
  }

  /** The certificate is on record, for an active lease with the pinned key that the caller requested. */
  predicate ForLease(w: World, v: World, e: Event, l: Lease, i: Issuance)
    requires e.Issue?
  {
    && i in v.disk.issuances && i.leaseId == e.id && e.id in v.disk.leases && v.disk.leases[e.id] == l
    && l.status.Active? && Cleared(l, w.approvers) && l.requesterId == e.a.id && Some(l.key) == e.key
  }

  /** It expires after it was handed out and within every ceiling. */
  predicate Within(e: Event, l: Lease, i: Issuance)
    requires e.Issue? && e.o.current.Some? && RoleFor(e.o.current.value, e.a, l.hostId, l.roleId).Some?
  {
    && e.o.now <= e.o.later < i.validBefore <= l.hardExpiresAt
    && l.hardExpiresAt <= l.openedAt + Ceiling(l.digest.policy, l.requester)
    && i.validBefore <= e.o.now + e.c.ttl
    && i.validBefore <= e.o.now + RoleFor(e.o.current.value, e.a, l.hostId, l.roleId).value.maxCertTtl
  }

  /** What a certificate handed out was made from. */
  lemma IssuedFrom(d: Disk, own: Config, a: Actor, id: string, key: Option<string>, o: Outside)
    requires Issued(d, own, a, id, key, o).issued.Some?
    ensures var entitled, i := Entitled(d, own, a, id, key, o), Issued(d, own, a, id, key, o).issued.value;
            && entitled.Some? && o.final.Some? && i.validBefore == entitled.value.2 && o.later < i.validBefore
            && i.serial == d.nextSerial + 1
            && entitled.value.0.digest == ScopeDigest(o.final.value, entitled.value.0.hostId, entitled.value.0.roleId)
  {
  }

  lemma IssuedIsForLease(w: World, e: Event)
    requires Inv(w) && Legal(w, e) && e.Issue? && Issued(w.disk, e.c, e.a, e.id, e.key, e.o).issued.Some?
    ensures e.id in w.disk.leases
    ensures ForLease(w, Step(w, e), e, w.disk.leases[e.id], Issued(w.disk, e.c, e.a, e.id, e.key, e.o).issued.value)
  {
    AskedFrom(w.disk, e.c, e.a, e.id, e.key, e.o);
    EntitledBounds(w.disk, e.c, e.a, e.id, e.key, e.o);
    var r := Issued(w.disk, e.c, e.a, e.id, e.key, e.o);
    assert Sound(e.id, w.disk.leases[e.id], w.approvers, w.clock);
    assert r.issued.value == r.disk.issuances[|r.disk.issuances| - 1];
  }

  /** Everything a certificate handed out promises. */
  lemma IssuedIsBounded(w: World, e: Event)
    requires Inv(w) && Legal(w, e) && e.Issue? && Issued(w.disk, e.c, e.a, e.id, e.key, e.o).issued.Some?
    ensures e.id in w.disk.leases && e.o.current.Some? && e.o.final.Some?
    ensures var i, l := Issued(w.disk, e.c, e.a, e.id, e.key, e.o).issued.value, w.disk.leases[e.id];
            && RoleFor(e.o.current.value, e.a, l.hostId, l.roleId).Some?
            && ForLease(w, Step(w, e), e, l, i) && Within(e, l, i)
            && l.digest == ScopeDigest(e.o.current.value, l.hostId, l.roleId)
            && l.digest == ScopeDigest(e.o.final.value, l.hostId, l.roleId)
            && forall k :: 0 <= k < |w.signed| ==> w.signed[k].serial < i.serial
  {
    IssuedIsForLease(w, e);
    IssuedFrom(w.disk, e.c, e.a, e.id, e.key, e.o);
    EntitledBounds(w.disk, e.c, e.a, e.id, e.key, e.o);
    assert Sound(e.id, w.disk.leases[e.id], w.approvers, w.clock);
  }

  /**
   Asking again with a key on record succeeds exactly when it repeats the request of a live lease, which it returns
   unchanged.
   */
  lemma RetryReturnsTheLease(w: World, id: string, c: Config, a: Actor, q: OpenRequest, unused: string, now: int)
    requires Inv(w) && id in w.disk.leases && q.key == Some(w.disk.leases[id].key)
    ensures var l, r := w.disk.leases[id], Opened(w.disk, c, a, q, unused, now);
            (r.Some? <==> Granted(c, a, q).Some? && Retries(c, a, q, l, now)) && (r.Some? ==> r.value == (w.disk, l))
  {
    assert KeyTaken(w.disk.leases, q.key.value);
  }

  // ----- the lifetime ceiling

  /**
   The lifetime is capped by the configuration the service started with, not by the current one whose digest the lease
   pins. It stays within the current ceiling exactly when neither the own lifetime, nor the role's, nor what is left of
   the lease exceeds the current lifetime by a whole second.
   */
  lemma CurrentCeiling(d: Disk, own: Config, a: Actor, id: string, key: Option<string>, o: Outside)
    requires Entitled(d, own, a, id, key, o).Some?
    ensures var (l, r, before) := Entitled(d, own, a, id, key, o).value;
            var ttl := o.current.value.ttl;
            before <= o.now + Min(ttl, r.maxCertTtl) <==>
            Min(o.now + Min(own.ttl, r.maxCertTtl), l.hardExpiresAt) < Truncate(o.now + ttl) + SECOND
  {
    var (l, r, before) := Entitled(d, own, a, id, key, o).value;
    TruncateMin(o.now + Min(own.ttl, r.maxCertTtl), l.hardExpiresAt);
    TruncateBelow(Min(o.now + Min(own.ttl, r.maxCertTtl), l.hardExpiresAt), o.now + o.current.value.ttl);
  }

  lemma TruncateMin(x: int, y: int)
    ensures Truncate(Min(x, y)) == if y < Truncate(x) then Truncate(y) else Truncate(x)
  {
    if Truncate(x) <= y < x {
      assert y / SECOND == x / SECOND;
    }
  }

  lemma TruncateBelow(x: int, y: int)
    ensures Truncate(x) <= y <==> x < Truncate(y) + SECOND
  {
  }

  /**
   A service with configuration own issues for an hour on a lease just opened under a current lifetime of a minute.
   */
  ghost predicate Overshoots(e: Event, own: Config, o: Outside) {
    && e.Open? && Legal(START, e) && ValidConfig(own) && o.current == Some(e.c)
    && var entitled := Entitled(Step(START, e).disk, own, e.a, e.id, e.q.key, o);
       && entitled.Some? && entitled.value.0.digest.ttl == 60 * SECOND
       && var issued := Issued(Step(START, e).disk, own, e.a, e.id, e.q.key, o).issued;
          issued.Some? && issued.value.validBefore == o.now + HOUR
  }

  const HOUR: int := 3600 * SECOND

  /** A configuration with one host, one role and one preapproved requester. */
  function Sample(ttl: int): Config {
    Config("acme", "ca", ttl, SECOND, 0, map["web" := Host("web", "", map["ops" := SampleRole()])])
  }

  function SampleRole(): Role {
    Role("deploy", HOUR, HOUR, HOUR, map["bot" := Preapproved], map[], false, Flags(false, false, false, false), None)
  }

  function SampleRequest(): OpenRequest {
    OpenRequest("web", "ops", "agent", "task", "deploy", None, None, Some("key"))
  }

  lemma SampleIsValid(ttl: int)
    requires SECOND < ttl <= HOUR
    ensures ValidConfig(Sample(ttl))
    ensures RoleFor(Sample(ttl), Actor("7", "bot", false), "web", "ops") == Some(SampleRole())
  {
    assert ValidRole(SampleRole());
  }

  lemma SampleOpens(ttl: int)
    requires SECOND < ttl <= HOUR
    ensures var (c, a, q) := (Sample(ttl), Actor("7", "bot", false), SampleRequest());
            Opened(START.disk, c, a, q, "1", 0) ==
            Some((START.disk.(leases := map["1" := NewLease(c, a, q, SampleRole(), HOUR, "1", 0)]),
                  NewLease(c, a, q, SampleRole(), HOUR, "1", 0)))
  {
    SampleIsValid(ttl);
    ShortPurpose();
    assert Granted(Sample(ttl), Actor("7", "bot", false), SampleRequest()) == Some((SampleRole(), HOUR));
  }

  /**
   A service that started before the lifetime was cut from an hour to a minute still issues for an hour, on a lease
   opened after.
   */
  lemma OldLifetimeOvershoots()
    ensures exists e: Event, own: Config, o: Outside :: Overshoots(e, own, o)
  {
    var own, current, a, q := Sample(HOUR), Sample(60 * SECOND), Actor("7", "bot", false), SampleRequest();
    SampleIsValid(HOUR);
    SampleIsValid(60 * SECOND);
    SampleOpens(60 * SECOND);
    var e := Open(a, current, q, "1", 0, Saved);
    var l := NewLease(current, a, q, SampleRole(), HOUR, "1", 0);
    var o := SampleOutside(current);
    assert Step(START, e).disk.leases == map["1" := l];
    SampleIssues(Step(START, e).disk, own, current, l);
    assert Overshoots(e, own, o);
  }

  /** Everything outside works, and the signer answers. */
  function SampleOutside(current: Config): Outside {
    Outside(0, 0, true, true, Some(current), Some(current), Saved, Some(request => Some("certificate")), Saved,
            rules => "")
  }

  lemma SampleIssues(d: Disk, own: Config, current: Config, l: Lease)
    requires own == Sample(HOUR) && current == Sample(60 * SECOND) && d.nextSerial == 0 && d.leases == map["1" := l]
    requires l == NewLease(current, Actor("7", "bot", false), SampleRequest(), SampleRole(), HOUR, "1", 0)
    ensures var a, o := Actor("7", "bot", false), SampleOutside(current);
            && Entitled(d, own, a, "1", Some("key"), o) == Some((l, SampleRole(), HOUR))
            && var issued := Issued(d, own, a, "1", Some("key"), o).issued;
               issued.Some? && issued.value.validBefore == HOUR
  {
    SampleIsValid(HOUR);
    SampleIsValid(60 * SECOND);
  }

  lemma ShortPurpose()
    ensures 1 <= ShellWords.Utf8("deploy") <= 256 && ShellWords.SafeText("deploy")
  {
    assert "deploy"[1..] == "eploy" && "eploy"[1..] == "ploy" && "ploy"[1..] == "loy" && "loy"[1..] == "oy"
           && "oy"[1..] == "y";
    assert ShellWords.Utf8("oy") == 2;
    assert ShellWords.Utf8("ploy") == 4;
  }
}
