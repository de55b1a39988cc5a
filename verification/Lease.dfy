/** Leases of SSH authority: configuration, records, and what each service call makes of the stored state. */
module Lease {
  import opened Bytes
  import ShellGate
  import ShellWords

  /** Times and durations are in nanoseconds; a duration text that does not parse is any number that is not positive. */
  const SECOND: int := 1_000_000_000
  const MAX_DURATION: int := 30 * 24 * 3600 * SECOND
  const MAX_SKEW: int := 120 * SECOND
  const MAX_SERIAL: nat := 0xFFFF_FFFF_FFFF_FFFF

  predicate Bounded(d: int) {
    0 < d <= MAX_DURATION
  }

  function Truncate(t: int): int {
    t - t % SECOND
  }

  function Min(a: int, b: int): int {
    if b < a then b else a
  }

  datatype Actor = Actor(id: string, name: string, canApprove: bool)
  datatype Mode = Approval | Preapproved
  datatype Flags = Flags(pty: bool, portForwarding: bool, agentForwarding: bool, x11: bool)
  datatype Role = Role(user: string, defaultLease: int, maxLease: int, maxCertTtl: int, requesters: map<string, Mode>,
                       requesterMax: map<string, int>, explicitApproval: bool, permits: Flags,
                       authority: Option<ShellGate.Authority>)
  datatype Host = Host(alias: string, jump: string, roles: map<string, Role>)
  datatype Config = Config(workspace: string, ca: string, ttl: int, renewBefore: int, skew: int,
                           hosts: map<string, Host>)

  const NO_ROLE: Role := Role("", 0, 0, 0, map[], map[], false, Flags(false, false, false, false), None)
  const NO_HOST: Host := Host("", "", map[])

  predicate ValidRole(r: Role) {
    && ShellGate.Identifier(r.user) && Bounded(r.maxLease) && Bounded(r.defaultLease) && r.defaultLease <= r.maxLease
    && Bounded(r.maxCertTtl) && r.maxCertTtl <= r.maxLease
    && (forall u :: u in r.requesterMax ==>
          Bounded(r.requesterMax[u]) && r.requesterMax[u] <= r.maxLease && u in r.requesters)
    && (forall u :: u in r.requesters ==> ShellGate.Identifier(u))
    && (r.user == "root" && r.requesters != map[] ==> r.explicitApproval)
    && (r.authority.Some? ==> r.user != "root" && r.permits == Flags(false, false, false, false))
  }

  predicate ValidConfig(c: Config) {
    && ShellGate.Identifier(c.workspace) && Bounded(c.ttl) && Bounded(c.renewBefore) && c.renewBefore < c.ttl
    && 0 <= c.skew <= MAX_SKEW
    && forall h :: h in c.hosts ==> forall n :: n in c.hosts[h].roles ==> ValidRole(c.hosts[h].roles[n])
  }

  /** Everything a scope digest covers; equal digests mean equal contents. */
  datatype Digest = Digest(workspace: string, host: string, role: string, alias: string, jump: string, policy: Role,
                           ca: string, ttl: int, skew: int)

  function ScopeDigest(c: Config, host: string, role: string): Digest {
    var h := if host in c.hosts then c.hosts[host] else NO_HOST;
    var r := if role in h.roles then h.roles[role] else NO_ROLE;
    Digest(c.workspace, host, role, h.alias, h.jump, r, c.ca, c.ttl, c.skew)
  }

  datatype Status = PendingApproval | Active | Completed | Cancelled | Revoked | Expired
  datatype Lease = Lease(id: string, workspace: string, requesterId: string, requester: string, agentClass: string,
                         hostId: string, roleId: string, user: string, renewBefore: int, objective: string,
                         purpose: string, key: string, principal: string, digest: Digest, openedAt: int,
                         hardExpiresAt: int, closedAt: Option<int>, status: Status, reason: string, approvedBy: string,
                         policy: Role)
  datatype Issuance = Issuance(leaseId: string, serial: nat, certificate: string, validAfter: int, validBefore: int,
                               issuedAt: int)
  datatype Disk = Disk(nextSerial: nat, leases: map<string, Lease>, issuances: seq<Issuance>)
  datatype OpenRequest = OpenRequest(hostId: string, roleId: string, agentClass: string, objective: string,
                                     purpose: string, estimated: Option<int>, max: Option<int>, key: Option<string>)
  datatype SignRequest = SignRequest(key: string, leaseId: string, serial: nat, principal: string, keyId: string,
                                     validAfter: int, validBefore: int, force: string, permits: Flags)

  /** A write of the whole state: seen to succeed, lost, or done without the caller seeing it. */
  datatype Save = Saved | Lost | Unseen

  function Written(old_: Disk, new_: Disk, save: Save): Disk {
    if save.Lost? then old_ else new_
  }

  predicate Live(l: Lease) {
    l.status.Active? || l.status.PendingApproval?
  }

  /** The role as it binds one requester: the requester's own ceiling lowers every limit above it. */
  function RoleFor(c: Config, a: Actor, host: string, role: string): Option<Role> {
    if host !in c.hosts || role !in c.hosts[host].roles then None
    else
      var r := c.hosts[host].roles[role];
      if a.id == "" || a.name !in r.requesters then None
      else if a.name !in r.requesterMax then Some(r)
      else
        var limit := r.requesterMax[a.name];
        if !Bounded(limit) || !Bounded(r.defaultLease) || !Bounded(r.maxCertTtl) then None
        else Some(r.(maxLease := limit, defaultLease := Min(r.defaultLease, limit),
                     maxCertTtl := Min(r.maxCertTtl, limit)))
  }

  /** The longest lease a requester may hold under a role. */
  function Ceiling(r: Role, name: string): int {
    if name in r.requesterMax then r.requesterMax[name] else r.maxLease
  }

  lemma RoleLimits(c: Config, a: Actor, host: string, role: string)
    requires ValidConfig(c) && RoleFor(c, a, host, role).Some?
    ensures var r := RoleFor(c, a, host, role).value;
            && Bounded(r.maxLease) && 0 < r.defaultLease <= r.maxLease && 0 < r.maxCertTtl <= r.maxLease
            && r.maxLease == Ceiling(ScopeDigest(c, host, role).policy, a.name)
            && a.id != "" && a.name in r.requesters && (r.user == "root" ==> r.explicitApproval)
  {
    assert ValidRole(c.hosts[host].roles[role]);
  }

  // ----- opening

  predicate Worded(q: OpenRequest) {
    ShellGate.Identifier(q.agentClass) && ShellGate.Identifier(q.objective) && 1 <= ShellWords.Utf8(q.purpose) <= 256
    && ShellWords.SafeText(q.purpose)
  }

  /** The role and the window a request is granted. */
  function Granted(c: Config, a: Actor, q: OpenRequest): Option<(Role, int)> {
    if q.key.None? || !Worded(q) then None
    else
      match RoleFor(c, a, q.hostId, q.roleId)
      case None => None
      case Some(r) =>
        var window := if q.max.Some? then q.max.value else r.defaultLease;
        if q.max.Some? && (!Bounded(window) || window > r.maxLease) then None
        else if q.estimated.Some? && !Bounded(q.estimated.value) then None
        else Some((r, window))
  }

  function RenewWindow(c: Config, r: Role): int {
    var ttl := if Bounded(r.maxCertTtl) then Min(c.ttl, r.maxCertTtl) else c.ttl;
    if c.renewBefore >= ttl then ttl / 3 else c.renewBefore
  }

  function Principal(workspace: string, host: string, role: string): string {
    "21pins:" + workspace + ":" + host + ":" + role
  }

  function NewLease(c: Config, a: Actor, q: OpenRequest, r: Role, window: int, id: string, now: int): Lease
    requires q.key.Some?
  {
    var preapproved := a.name in r.requesters && r.requesters[a.name].Preapproved? && !r.explicitApproval;
    Lease(id, c.workspace, a.id, a.name, q.agentClass, q.hostId, q.roleId, r.user, RenewWindow(c, r), q.objective,
          q.purpose, q.key.value, Principal(c.workspace, q.hostId, q.roleId), ScopeDigest(c, q.hostId, q.roleId),
          now, now + window, None, if preapproved then Active else PendingApproval, "", "", r)
  }

  /** A request that asks again for a lease it already holds. */
  predicate Retries(c: Config, a: Actor, q: OpenRequest, l: Lease, now: int) {
    && l.requesterId == a.id && l.hostId == q.hostId && l.roleId == q.roleId && l.objective == q.objective
    && l.purpose == q.purpose && l.agentClass == q.agentClass && l.digest == ScopeDigest(c, q.hostId, q.roleId)
    && Live(l) && now < l.hardExpiresAt
  }

  ghost predicate KeyTaken(leases: map<string, Lease>, key: string) {
    exists id :: id in leases && leases[id].key == key
  }

  ghost function KeyHolder(leases: map<string, Lease>, key: string): (id: string)
    requires KeyTaken(leases, key)
    ensures id in leases && leases[id].key == key
  {
    var id :| id in leases && leases[id].key == key;
    id
  }

  /** The state and the lease a request leads to before the state is saved; None when it is denied. */
  ghost function Opened(d: Disk, c: Config, a: Actor, q: OpenRequest, id: string, now: int): Option<(Disk, Lease)> {
    match Granted(c, a, q)
    case None => None
    case Some((r, window)) =>
      if KeyTaken(d.leases, q.key.value) then
        var held := d.leases[KeyHolder(d.leases, q.key.value)];
        if Retries(c, a, q, held, now) then Some((d, held)) else None
      else
        var l := NewLease(c, a, q, r, window, id, now);
        Some((d.(leases := d.leases[id := l]), l))
  }

  // ----- reading, approving and closing

  function Expire(l: Lease, now: int): Lease {
    if Live(l) && now >= l.hardExpiresAt
    then l.(status := Expired, closedAt := Some(now), reason := "authorization_window_expired")
    else l
  }

  predicate Visible(a: Actor, l: Lease) {
    l.requesterId == a.id || a.canApprove
  }

  function Got(d: Disk, a: Actor, id: string, now: int): Option<(Disk, Lease)> {
    if id !in d.leases || !Visible(a, d.leases[id]) then None
    else
      var l := Expire(d.leases[id], now);
      Some((d.(leases := d.leases[id := l]), l))
  }

  predicate Listed(a: Actor, objective: string, l: Lease) {
    Visible(a, l) && (objective == "" || objective == l.objective)
  }

  /** The leases a listing shows, each expired at the time it was read. */
  function ListedLeases(d: Disk, a: Actor, objective: string, at: string -> int): map<string, Lease> {
    map id | id in d.leases && Listed(a, objective, d.leases[id]) :: Expire(d.leases[id], at(id))
  }

  function Approved(d: Disk, c: Config, a: Actor, id: string, authorized: bool, now: int): Option<(Disk, Lease)> {
    if id !in d.leases || !a.canApprove || a.id == d.leases[id].requesterId || !authorized then None
    else
      var l := Expire(d.leases[id], now);
      if !l.status.PendingApproval? || l.digest != ScopeDigest(c, l.hostId, l.roleId) then None
      else
        var m := l.(status := Active, approvedBy := a.id);
        Some((d.(leases := d.leases[id := m]), m))
  }

  predicate Closing(s: Status) {
    s.Completed? || s.Cancelled? || s.Revoked?
  }

  function Closed(d: Disk, a: Actor, id: string, state: Status, reason: string, now: int,
                  later: int): Option<(Disk, Lease)> {
    if !Closing(state) || (state.Revoked? && !a.canApprove) then None
    else if reason !in {"complete", "cancelled", "revoked", "blocked", "shutdown", "lost_client"} then None
    else if id !in d.leases || !Visible(a, d.leases[id]) then None
    else
      var l := Expire(d.leases[id], now);
      var m := if Live(l) then l.(status := state, closedAt := Some(later), reason := reason) else l;
      Some((d.(leases := d.leases[id := m]), m))
  }

  // ----- issuing

  /**
   What the outside supplies during one issue: clock readings, authorization answers, reloaded configurations, writes
   and the signer.
   */
  datatype Outside = Outside(now: int, later: int, authorized: bool, stillAuthorized: bool, current: Option<Config>,
                             final: Option<Config>, reserve: Save, signer: Option<SignRequest -> Option<string>>,
                             finish: Save, digest: seq<ShellGate.Rule> -> string)

  function Expiry(now: int, ttl: int, l: Lease): int {
    var before := Truncate(now + ttl);
    if l.hardExpiresAt < before then Truncate(l.hardExpiresAt) else before
  }

  function Forced(r: Role, l: Lease, digest: seq<ShellGate.Rule> -> string): Option<string> {
    match r.authority
    case None => Some("")
    case Some(authority) =>
      ShellGate.ForcedCommand(authority, ShellGate.Scope(l.workspace, l.hostId, l.roleId, l.user), digest)
  }

  /** The lease, role and lifetime an issue may use; own is the configuration the service started with. */
  function Entitled(d: Disk, own: Config, a: Actor, id: string, key: Option<string>,
                    o: Outside): Option<(Lease, Role, int)> {
    if key.None? || id !in d.leases || d.leases[id].requesterId != a.id then None
    else
      var l := Expire(d.leases[id], o.now);
      if !l.status.Active? || l.key != key.value || o.current.None? then None
      else
        match RoleFor(o.current.value, a, l.hostId, l.roleId)
        case None => None
        case Some(r) =>
          if !o.authorized || l.digest != ScopeDigest(o.current.value, l.hostId, l.roleId) then None
          else
            var before := Expiry(o.now, Min(own.ttl, r.maxCertTtl), l);
            if before <= o.now then None else Some((l, r, before))
  }

  function Asked(own: Config, id: string, l: Lease, r: Role, before: int, serial: nat, force: string,
                 now: int): SignRequest {
    SignRequest(l.key, id, serial, l.principal, "21pins:" + id + ":" + l.agentClass + ":" + l.objective, now - own.skew,
                before,
                force, r.permits)
  }

  /** What one issue leaves: the stored state, the request that reached the signer, and the certificate handed out. */
  datatype Outcome = Outcome(disk: Disk, asked: Option<SignRequest>, issued: Option<Issuance>)

  function Issued(d: Disk, own: Config, a: Actor, id: string, key: Option<string>, o: Outside): Outcome {
    match Entitled(d, own, a, id, key, o)
    case None => Outcome(d, None, None)
    case Some((l, r, before)) =>
      if d.nextSerial >= MAX_SERIAL then Outcome(d, None, None)
      else
        var serial := d.nextSerial + 1;
        var reserved := d.(nextSerial := serial, leases := d.leases[id := l]);
        if !o.reserve.Saved? then Outcome(Written(d, reserved, o.reserve), None, None)
        else if o.signer.None? then Outcome(reserved, None, None)
        else
          match Forced(r, l, o.digest)
          case None => Outcome(reserved, None, None)
          case Some(force) => Signed(reserved, l, Asked(own, id, l, r, before, serial, force, o.now), o)
  }

  function Signed(reserved: Disk, l: Lease, q: SignRequest, o: Outside): Outcome
    requires o.signer.Some?
  {
    match o.signer.value(q)
    case None => Outcome(reserved, Some(q), None)
    case Some(certificate) =>
      if o.final.None? || o.later >= q.validBefore || !o.stillAuthorized
        || l.digest != ScopeDigest(o.final.value, l.hostId, l.roleId) then
        Outcome(reserved, Some(q), None)
      else
        var i := Issuance(q.leaseId, q.serial, certificate, q.validAfter, q.validBefore, o.now);
        var done := reserved.(issuances := reserved.issuances + [i]);
        Outcome(Written(reserved, done, o.finish), Some(q), if o.finish.Saved? then Some(i) else None)
  }
}
