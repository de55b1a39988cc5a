/** What a single lease call achieves, and what stays true after it for every later run. */
module LeaseEffects {
  import opened Bytes
  import opened Lease
  import opened LeaseRuns
  import ShellGate

  /** One record may differ; all others, the serial and the certificates on record are as they were. */
  predicate OnlyLease(d: Disk, e: Disk, id: string) {
    && e.leases.Keys == d.leases.Keys + {id}
    && (forall x :: x in d.leases && x != id ==> e.leases[x] == d.leases[x])
    && e.nextSerial == d.nextSerial && e.issuances == d.issuances
  }

  // ----- closing

  predicate MayClose(d: Disk, a: Actor, id: string, state: Status, reason: string) {
    && (state == Completed || state == Cancelled || (state == Revoked && a.canApprove))
    && (|| reason == "complete" || reason == "cancelled" || reason == "revoked" || reason == "blocked"
        || reason == "shutdown" || reason == "lost_client")
    && id in d.leases && (d.leases[id].requesterId == a.id || a.canApprove)
  }

  /** Open to use at a time. */
  predicate LiveAt(l: Lease, now: int) {
    (l.status == Active || l.status == PendingApproval) && now < l.hardExpiresAt
  }

  /**
   A close is granted exactly to the requester or an approver, revocation only to an approver. Once written, a lease
   that was live has the asked status, reason and closing time, whatever else it holds stays, and so does every other
   lease. One that was not live ends up expired or as it was.
   */
  lemma CloseCloses(w: World, e: Event)
    requires e.Close?
    ensures Closed(w.disk, e.a, e.id, e.state, e.reason, e.now, e.later).Some? <==>
            MayClose(w.disk, e.a, e.id, e.state, e.reason)
    ensures e.save.Lost? || !MayClose(w.disk, e.a, e.id, e.state, e.reason) ==> Step(w, e).disk == w.disk
    ensures !e.save.Lost? && MayClose(w.disk, e.a, e.id, e.state, e.reason) ==>
              var v, l := Step(w, e), w.disk.leases[e.id];
              && OnlyLease(w.disk, v.disk, e.id) && v.signed == w.signed && !Live(v.disk.leases[e.id])
              && (LiveAt(l, e.now) ==>
                    v.disk.leases[e.id] == l.(status := e.state, closedAt := Some(e.later), reason := e.reason))
              && (Live(l) && !LiveAt(l, e.now) ==>
                    v.disk.leases[e.id] == l.(status := Expired, closedAt := Some(e.now),
                                              reason := "authorization_window_expired"))
              && (!Live(l) ==> v.disk.leases[e.id] == l)
  {
  }

  /** No request for the lease is added to those that reached the signer. */
  predicate Silent(w: World, v: World, id: string) {
    && w.signed <= v.signed && forall i :: |w.signed| <= i < |v.signed| ==> v.signed[i].leaseId != id
  }

  lemma StepSilent(w: World, e: Event, id: string)
    requires Inv(w) && Legal(w, e) && id in w.disk.leases && !Live(w.disk.leases[id])
    ensures Silent(w, Step(w, e), id)
  {
    if e.Issue? && Issued(w.disk, e.c, e.a, e.id, e.key, e.o).asked.Some? {
      AskedFrom(w.disk, e.c, e.a, e.id, e.key, e.o);
      EntitledBounds(w.disk, e.c, e.a, e.id, e.key, e.o);
    }
  }

  /** Once a lease is not live, no later run asks the signer for it. */
  lemma {:induction false} RunSilent(w: World, events: seq<Event>, id: string)
    requires Inv(w) && LegalRun(w, events) && id in w.disk.leases && !Live(w.disk.leases[id])
    ensures Silent(w, Run(w, events), id)
    decreases |events|
  {
    if events != [] {
      var v := Step(w, events[0]);
      StepKeeps(w, events[0]);
      StepSilent(w, events[0], id);
      assert Moves(w.disk.leases[id], v.disk.leases[id]);
      RunSilent(v, events[1..], id);
      SilentTrans(w, v, Run(v, events[1..]), id);
    }
  }

  lemma SilentTrans(u: World, v: World, w: World, id: string)
    requires Silent(u, v, id) && Silent(v, w, id)
    ensures Silent(u, w, id)
  {
    forall i | |u.signed| <= i < |w.signed|
      ensures w.signed[i].leaseId != id
    {
      assert i < |v.signed| ==> w.signed[i] == v.signed[i];
    }
  }

  /**
   After a close that was granted and written, every later run leaves the record as the close left it, and none of its
   requests to the signer is for that lease.
   */
  lemma CloseSilences(w: World, e: Event, events: seq<Event>)
    requires Inv(w) && e.Close? && Legal(w, e) && MayClose(w.disk, e.a, e.id, e.state, e.reason) && !e.save.Lost?
    requires LegalRun(Step(w, e), events)
    ensures var v, last := Step(w, e), Run(Step(w, e), events);
            && Silent(w, last, e.id) && e.id in last.disk.leases
            && last.disk.leases[e.id] == v.disk.leases[e.id]
            && (LiveAt(w.disk.leases[e.id], e.now) ==>
                  last.disk.leases[e.id] ==
                  w.disk.leases[e.id].(status := e.state, closedAt := Some(e.later), reason := e.reason))
  {
    var v := Step(w, e);
    CloseCloses(w, e);
    StepKeeps(w, e);
    CloseIsSilent(w, e);
    RunSilent(v, events, e.id);
    SilentTrans(w, v, Run(v, events), e.id);
    RunKeeps(v, events);
    assert Moves(v.disk.leases[e.id], Run(v, events).disk.leases[e.id]);
  }

  lemma CloseIsSilent(w: World, e: Event)
    requires e.Close?
    ensures Silent(w, Step(w, e), e.id)
  {
  }

  // ----- reading

  /** A read shows the requester or an approver the lease as it is, or expired once its window is over. */
  lemma GetShows(w: World, e: Event)
    requires e.Get?
    ensures Got(w.disk, e.a, e.id, e.now).Some? <==>
            e.id in w.disk.leases && (w.disk.leases[e.id].requesterId == e.a.id || e.a.canApprove)
    ensures Got(w.disk, e.a, e.id, e.now).Some? ==>
              var l, shown, v := w.disk.leases[e.id], Got(w.disk, e.a, e.id, e.now).value.1, Step(w, e);
              && OnlyLease(w.disk, v.disk, e.id) && v.signed == w.signed
              && (e.save.Lost? ==> v.disk == w.disk) && (!e.save.Lost? ==> v.disk.leases[e.id] == shown)
              && (LiveAt(l, e.now) || !Live(l) ==> shown == l)
              && (Live(l) && e.now >= l.hardExpiresAt ==> shown.status == Expired && shown.closedAt == Some(e.now))
  {
  }

  /** A listing shows exactly the visible leases of the objective, and expires exactly those whose window is over. */
  lemma ListShows(w: World, e: Event, id: string)
    requires e.List? && id in w.disk.leases
    ensures var (l, shown, v) := (w.disk.leases[id], ListedLeases(w.disk, e.a, e.objective, e.at), Step(w, e));
            && (id in shown <==> (l.requesterId == e.a.id || e.a.canApprove)
                                 && (e.objective == "" || e.objective == l.objective))
            && (id in shown ==> (shown[id] == l <==> LiveAt(l, e.at(id)) || !Live(l)))
            && (id in shown && shown[id] != l ==> shown[id].status == Expired)
            && id in v.disk.leases
            && v.disk.leases[id] == (if id in shown && !e.save.Lost? then shown[id] else l)
            && v.disk.nextSerial == w.disk.nextSerial && v.signed == w.signed
  {
  }

  // ----- approving

  /**
   An approval is granted exactly to an authorised approver other than the requester, for a lease that is pending, still
   open and under an unchanged scope. Once written, the lease is active and names the approver.
   */
  lemma ApproveActivates(w: World, e: Event)
    requires e.Approve?
    ensures Approved(w.disk, e.c, e.a, e.id, e.authorized, e.now).Some? <==>
            && e.id in w.disk.leases && e.a.canApprove && e.a.id != w.disk.leases[e.id].requesterId && e.authorized
            && w.disk.leases[e.id].status == PendingApproval && e.now < w.disk.leases[e.id].hardExpiresAt
            && w.disk.leases[e.id].digest == ScopeDigest(e.c, w.disk.leases[e.id].hostId, w.disk.leases[e.id].roleId)
    ensures Approved(w.disk, e.c, e.a, e.id, e.authorized, e.now).Some? && !e.save.Lost? ==>
              var v := Step(w, e);
              && OnlyLease(w.disk, v.disk, e.id) && v.signed == w.signed
              && v.disk.leases[e.id] == w.disk.leases[e.id].(status := Active, approvedBy := e.a.id)
  {
  }

  // ----- opening

  /** The longest a requester may hold a lease and a certificate under a role. */
  function HoldLimit(r: Role, name: string): int {
    if name in r.requesterMax && r.requesterMax[name] < r.maxLease then r.requesterMax[name] else r.maxLease
  }

  predicate MayUse(c: Config, a: Actor, host: string, role: string) {
    host in c.hosts && role in c.hosts[host].roles && a.id != "" && a.name in c.hosts[host].roles[role].requesters
  }

  /** Who has a role, and how the requester's own ceiling lowers its limits. */
  lemma RoleForMeans(c: Config, a: Actor, host: string, role: string)
    requires ValidConfig(c)
    ensures RoleFor(c, a, host, role).Some? <==> MayUse(c, a, host, role)
    ensures MayUse(c, a, host, role) ==>
              var all, mine := c.hosts[host].roles[role], RoleFor(c, a, host, role).value;
              var limit := HoldLimit(all, a.name);
              && mine == all.(maxLease := limit, defaultLease := mine.defaultLease, maxCertTtl := mine.maxCertTtl)
              && mine.defaultLease == Min(all.defaultLease, limit) && mine.maxCertTtl == Min(all.maxCertTtl, limit)
  {
    if MayUse(c, a, host, role) {
      assert ValidRole(c.hosts[host].roles[role]);
    }
  }

  predicate MayOpen(c: Config, a: Actor, q: OpenRequest) {
    && q.key.Some? && Worded(q) && MayUse(c, a, q.hostId, q.roleId)
    && (q.max.Some? ==> 0 < q.max.value <= HoldLimit(c.hosts[q.hostId].roles[q.roleId], a.name))
    && (q.estimated.Some? ==> 0 < q.estimated.value <= MAX_DURATION)
  }

  /** How long the lease runs: as long as asked, or the role's default within the requester's ceiling. */
  function Window(c: Config, a: Actor, q: OpenRequest): int
    requires MayOpen(c, a, q)
  {
    var all := c.hosts[q.hostId].roles[q.roleId];
    if q.max.Some? then q.max.value else Min(all.defaultLease, HoldLimit(all, a.name))
  }

  lemma GrantedMeans(c: Config, a: Actor, q: OpenRequest)
    requires ValidConfig(c)
    ensures Granted(c, a, q).Some? <==> MayOpen(c, a, q)
    ensures MayOpen(c, a, q) ==> Granted(c, a, q) ==
                                   Some((RoleFor(c, a, q.hostId, q.roleId).value, Window(c, a, q)))
  {
    RoleForMeans(c, a, q.hostId, q.roleId);
    if MayUse(c, a, q.hostId, q.roleId) {
      assert ValidRole(c.hosts[q.hostId].roles[q.roleId]);
    }
  }

  /** What was asked for and by whom, under today's scope, running from now. */
  predicate Asks(c: Config, a: Actor, q: OpenRequest, id: string, now: int, l: Lease)
    requires MayOpen(c, a, q)
  {
    var all := c.hosts[q.hostId].roles[q.roleId];
    && l.id == id && l.requesterId == a.id && l.requester == a.name && l.key == q.key.value
    && l.hostId == q.hostId && l.roleId == q.roleId && l.agentClass == q.agentClass && l.objective == q.objective
    && l.purpose == q.purpose && l.user == all.user && l.workspace == c.workspace
    && l.digest == ScopeDigest(c, q.hostId, q.roleId) && l.openedAt == now && l.hardExpiresAt == now + Window(c, a, q)
    && l.closedAt.None? && l.approvedBy == ""
    && l.status == (if all.requesters[a.name].Preapproved? && !all.explicitApproval then Active else PendingApproval)
    && 0 <= l.renewBefore < Min(c.ttl, Min(all.maxCertTtl, HoldLimit(all, a.name)))
  }

  /**
   With a new key a lease is opened exactly on a request within the requester's limits, for the asked or the default
   time; it is active at once exactly when the requester is preapproved and the role asks for no explicit approval.
   */
  lemma OpenGrants(w: World, e: Event)
    requires e.Open? && Legal(w, e) && (e.q.key.Some? ==> !KeyTaken(w.disk.leases, e.q.key.value))
    ensures Opened(w.disk, e.c, e.a, e.q, e.id, e.now).Some? <==> MayOpen(e.c, e.a, e.q)
    ensures e.save.Lost? || !MayOpen(e.c, e.a, e.q) ==> Step(w, e).disk == w.disk
    ensures !e.save.Lost? && MayOpen(e.c, e.a, e.q) ==>
              var v := Step(w, e);
              && OnlyLease(w.disk, v.disk, e.id) && v.signed == w.signed
              && Asks(e.c, e.a, e.q, e.id, e.now, v.disk.leases[e.id])
  {
    GrantedMeans(e.c, e.a, e.q);
    RoleForMeans(e.c, e.a, e.q.hostId, e.q.roleId);
    if MayOpen(e.c, e.a, e.q) {
      assert ValidRole(e.c.hosts[e.q.hostId].roles[e.q.roleId]);
    }
  }

  // ----- issuing

  /** When a certificate asked for now would expire. */
  function Ends(own: Config, role: Role, name: string, l: Lease, now: int): int {
    Truncate(Min(now + Min(own.ttl, Min(role.maxCertTtl, HoldLimit(role, name))), l.hardExpiresAt))
  }

  predicate MayIssue(d: Disk, own: Config, a: Actor, id: string, key: Option<string>, o: Outside) {
    && id in d.leases && d.leases[id].requesterId == a.id && d.leases[id].status == Active
    && o.now < d.leases[id].hardExpiresAt && key == Some(d.leases[id].key) && o.authorized && o.current.Some?
    && var (l, c) := (d.leases[id], o.current.value);
       && MayUse(c, a, l.hostId, l.roleId) && l.digest == ScopeDigest(c, l.hostId, l.roleId)
       && o.now < Ends(own, c.hosts[l.hostId].roles[l.roleId], a.name, l, o.now)
  }

  /** An issue is entitled exactly under these conditions, and to the earliest of three ends in whole seconds. */
  lemma EntitledMeans(d: Disk, own: Config, a: Actor, id: string, key: Option<string>, o: Outside)
    requires o.current.Some? ==> ValidConfig(o.current.value)
    ensures Entitled(d, own, a, id, key, o).Some? <==> MayIssue(d, own, a, id, key, o)
    ensures MayIssue(d, own, a, id, key, o) ==>
              var (l, c) := (d.leases[id], o.current.value);
              Entitled(d, own, a, id, key, o) ==
              Some((l, RoleFor(c, a, l.hostId, l.roleId).value,
                    Ends(own, c.hosts[l.hostId].roles[l.roleId], a.name, l, o.now)))
  {
    if id in d.leases && o.current.Some? {
      var (l, c) := (d.leases[id], o.current.value);
      RoleForMeans(c, a, l.hostId, l.roleId);
      if MayUse(c, a, l.hostId, l.roleId) {
        TruncateMin(o.now + Min(own.ttl, RoleFor(c, a, l.hostId, l.roleId).value.maxCertTtl), l.hardExpiresAt);
      }
    }
  }

  /** What the signer is asked to sign. */
  predicate Reaches(d: Disk, own: Config, id: string, o: Outside, role: Role, l: Lease, ends: int, q: SignRequest) {
    && q.serial == d.nextSerial + 1 && q.leaseId == id && q.key == l.key && q.principal == l.principal
    && q.keyId == "21pins:" + id + ":" + l.agentClass + ":" + l.objective && q.permits == role.permits
    && q.validAfter == o.now - own.skew && q.validBefore == ends && Some(q.force) == Forced(role, l, o.digest)
  }

  /**
   The signer is asked exactly when the issue is entitled, a serial is left and reserved on disk, and the forced command
   can be made.
   */
  lemma IssueAsks(d: Disk, own: Config, a: Actor, id: string, key: Option<string>, o: Outside)
    requires o.current.Some? ==> ValidConfig(o.current.value)
    ensures Issued(d, own, a, id, key, o).asked.Some? <==>
            && MayIssue(d, own, a, id, key, o) && d.nextSerial < MAX_SERIAL && o.reserve.Saved? && o.signer.Some?
            && Forced(RoleFor(o.current.value, a, d.leases[id].hostId, d.leases[id].roleId).value, d.leases[id],
                      o.digest).Some?
    ensures Issued(d, own, a, id, key, o).asked.Some? ==>
              var (l, c) := (d.leases[id], o.current.value);
              Reaches(d, own, id, o, RoleFor(c, a, l.hostId, l.roleId).value, l,
                      Ends(own, c.hosts[l.hostId].roles[l.roleId], a.name, l, o.now),
                      Issued(d, own, a, id, key, o).asked.value)
  {
    EntitledMeans(d, own, a, id, key, o);
  }

  /** The signer answered, and lease, scope and time still allow what it signed. */
  predicate Answered(o: Outside, l: Lease, q: SignRequest) {
    && o.signer.Some? && o.signer.value(q).Some? && o.final.Some? && o.later < q.validBefore && o.stillAuthorized
    && l.digest == ScopeDigest(o.final.value, l.hostId, l.roleId)
  }

  /**
   Once the signer has been asked, its certificate goes on record exactly when it answered, everything still holds and
   the write was not lost, and is handed out exactly when that write was also seen to succeed.
   */
  lemma IssueRecords(d: Disk, own: Config, a: Actor, id: string, key: Option<string>, o: Outside)
    requires Issued(d, own, a, id, key, o).asked.Some?
    ensures id in d.leases
    ensures var (r, q, l) := (Issued(d, own, a, id, key, o), Issued(d, own, a, id, key, o).asked.value, d.leases[id]);
            && r.disk.leases == d.leases && r.disk.nextSerial == d.nextSerial + 1
            && (r.issued.Some? <==> Answered(o, l, q) && o.finish.Saved?)
            && (!Answered(o, l, q) || o.finish.Lost? ==> r.disk.issuances == d.issuances)
            && (Answered(o, l, q) && !o.finish.Lost? ==>
                  r.disk.issuances ==
                  d.issuances + [Issuance(id, q.serial, o.signer.value(q).value, q.validAfter, q.validBefore, o.now)])
            && (r.issued.Some? ==>
                  r.issued.value ==
                  Issuance(id, q.serial, o.signer.value(q).value, q.validAfter, q.validBefore, o.now))
  {
    EntitledBounds(d, own, a, id, key, o);
    SameLease(d, id);
  }
}
