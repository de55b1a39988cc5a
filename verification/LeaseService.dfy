/** The lease service: each call reads the stored state, changes its copy, and writes it back whole. */
module LeaseService {
  import opened Bytes
  import opened Lease
  import LeaseRuns

  class Service {
    const config: Config
    var disk: Disk
    ghost var signed: seq<SignRequest>

    constructor (c: Config, stored: Disk)
      ensures config == c && disk == stored && signed == []
    {
      config, disk, signed := c, stored, [];
    }

    /** Writes the state back; true when the caller sees the write succeed. */
    method SaveState(d: Disk, save: Save) returns (ok: bool)
      modifies this`disk
      ensures disk == Written(old(disk), d, save) && ok == save.Saved?
    {
      if !save.Lost? {
        disk := d;
      }
      ok := save.Saved?;
    }

    /** A lease for the requester, or the one it already holds for that key. */
    method Open(a: Actor, q: OpenRequest, id: string, now: int, save: Save) returns (r: Option<Lease>)
      requires LeaseRuns.KeysUnique(disk.leases)
      modifies this`disk
      ensures var next := Opened(old(disk), config, a, q, id, now);
              && disk == (if next.None? then old(disk) else Written(old(disk), next.value.0, save))
              && r == if next.Some? && save.Saved? then Some(next.value.1) else None
    {
      var granted := Granted(config, a, q);
      if granted.None? {
        return None;
      }
      var d, key := disk, q.key.value;
      var left := d.leases.Keys;
      while left != {}
        invariant left <= d.leases.Keys
        invariant forall x :: x in d.leases && x !in left ==> d.leases[x].key != key
        decreases |left|
      {
        var x :| x in left;
        var existing := d.leases[x];
        if existing.key == key {
          HolderIs(d.leases, key, x);
          if !Retries(config, a, q, existing, now) {
            return None;
          }
          var ok := SaveState(d, save);
          return if ok then Some(existing) else None;
        }
        left := left - {x};
      }
      assert !KeyTaken(d.leases, key);
      var l := NewLease(config, a, q, granted.value.0, granted.value.1, id, now);
      d := d.(leases := d.leases[id := l]);
      var ok := SaveState(d, save);
      return if ok then Some(l) else None;
    }

    method Get(a: Actor, id: string, now: int, save: Save) returns (r: Option<Lease>)
      modifies this`disk
      ensures var next := Got(old(disk), a, id, now);
              && disk == (if next.None? then old(disk) else Written(old(disk), next.value.0, save))
              && r == if next.Some? && save.Saved? then Some(next.value.1) else None
    {
      var d := disk;
      if id !in d.leases {
        return None;
      }
      var l := d.leases[id];
      if l.requesterId != a.id && !a.canApprove {
        return None;
      }
      l := Expire(l, now);
      d := d.(leases := d.leases[id := l]);
      var ok := SaveState(d, save);
      return if ok then Some(l) else None;
    }

    /** Every visible lease, expired as it is read; at gives the time each one is read. */
    method List(a: Actor, objective: string, at: string -> int, save: Save) returns (r: Option<map<string, Lease>>)
      modifies this`disk
      ensures var shown := ListedLeases(old(disk), a, objective, at);
              && disk == Written(old(disk), old(disk).(leases := old(disk).leases + shown), save)
              && r == if save.Saved? then Some(shown) else None
    {
      var d := disk;
      var kept, out := Collect(d.leases, a, objective, at);
      d := d.(leases := kept);
      var ok := SaveState(d, save);
      return if ok then Some(out) else None;
    }

    method Approve(a: Actor, id: string, authorized: bool, now: int, save: Save) returns (r: Option<Lease>)
      modifies this`disk
      ensures var next := Approved(old(disk), config, a, id, authorized, now);
              && disk == (if next.None? then old(disk) else Written(old(disk), next.value.0, save))
              && r == if next.Some? && save.Saved? then Some(next.value.1) else None
    {
      var d := disk;
      if id !in d.leases || !a.canApprove || a.id == d.leases[id].requesterId || !authorized {
        return None;
      }
      var l := Expire(d.leases[id], now);
      if l.status != PendingApproval || l.digest != ScopeDigest(config, l.hostId, l.roleId) {
        return None;
      }
      l := l.(status := Active, approvedBy := a.id);
      d := d.(leases := d.leases[id := l]);
      var ok := SaveState(d, save);
      return if ok then Some(l) else None;
    }

    method Close(a: Actor, id: string, state: Status, reason: string, now: int, later: int,
                 save: Save) returns (r: Option<Lease>)
      modifies this`disk
      ensures var next := Closed(old(disk), a, id, state, reason, now, later);
              && disk == (if next.None? then old(disk) else Written(old(disk), next.value.0, save))
              && r == if next.Some? && save.Saved? then Some(next.value.1) else None
    {
      if state != Completed && state != Cancelled && state != Revoked {
        return None;
      }
      if state == Revoked && !a.canApprove {
        return None;
      }
      if reason !in {"complete", "cancelled", "revoked", "blocked", "shutdown", "lost_client"} {
        return None;
      }
      var d := disk;
      if id !in d.leases || (d.leases[id].requesterId != a.id && !a.canApprove) {
        return None;
      }
      var l := Expire(d.leases[id], now);
      if l.status == Active || l.status == PendingApproval {
        l := l.(status := state, closedAt := Some(later), reason := reason);
      }
      d := d.(leases := d.leases[id := l]);
      var ok := SaveState(d, save);
      return if ok then Some(l) else None;
    }

    /** A certificate for an active lease; the serial is on disk before the signer sees it. */
    method Issue(a: Actor, id: string, key: Option<string>, o: Outside) returns (r: Option<Issuance>)
      modifies this`disk, this`signed
      ensures var next := Issued(old(disk), config, a, id, key, o);
              && disk == next.disk && r == next.issued
              && signed == if next.asked.Some? then old(signed) + [next.asked.value] else old(signed)
    {
      var d := disk;
      var entitled := Entitled(d, config, a, id, key, o);
      if entitled.None? || d.nextSerial >= MAX_SERIAL {
        return None;
      }
      var (l, role, before) := entitled.value;
      var serial := d.nextSerial + 1;
      d := d.(nextSerial := serial, leases := d.leases[id := l]);
      var reserved := SaveState(d, o.reserve);
      if !reserved || o.signer.None? {
        return None;
      }
      var force := Forced(role, l, o.digest);
      if force.None? {
        return None;
      }
      var q := Asked(config, id, l, role, before, serial, force.value, o.now);
      signed := signed + [q];
      var certificate := o.signer.value(q);
      if certificate.None? || o.final.None? {
        return None;
      }
      if o.later >= before || !o.stillAuthorized || l.digest != ScopeDigest(o.final.value, l.hostId, l.roleId) {
        return None;
      }
      var i := Issuance(id, serial, certificate.value, o.now - config.skew, before, o.now);
      d := d.(issuances := d.issuances + [i]);
      var ok := SaveState(d, o.finish);
      return if ok then Some(i) else None;
    }
  }

  /** Part way through a listing, with the leases in left still to be read. */
  ghost predicate Reading(was: map<string, Lease>, kept: map<string, Lease>, out: map<string, Lease>, left: set<string>,
                          a: Actor, objective: string, at: string -> int)
  {
    && kept == was + out
    && out == map x | x in was && x !in left && Listed(a, objective, was[x]) :: Expire(was[x], at(x))
  }

  lemma ReadOne(was: map<string, Lease>, kept: map<string, Lease>, out: map<string, Lease>, left: set<string>, a: Actor,
                objective: string, at: string -> int, x: string)
    requires Reading(was, kept, out, left, a, objective, at) && x in left && left <= was.Keys
    ensures x in kept && kept[x] == was[x]
    ensures var l := Expire(was[x], at(x));
            if Listed(a, objective, was[x]) then Reading(was, kept[x := l], out[x := l], left - {x}, a, objective, at)
            else Reading(was, kept, out, left - {x}, a, objective, at)
  {
  }

  /** The visible leases as read, and the whole map with them in place. */
  method Collect(was: map<string, Lease>, a: Actor, objective: string, at: string -> int)
    returns (kept: map<string, Lease>, out: map<string, Lease>)
    ensures kept == was + out
    ensures forall d: Disk :: d.leases == was ==> out == ListedLeases(d, a, objective, at)
  {
    kept, out := was, map[];
    var left := was.Keys;
    assert Reading(was, kept, out, left, a, objective, at);
    while left != {}
      invariant left <= was.Keys && Reading(was, kept, out, left, a, objective, at)
      decreases |left|
    {
      var x :| x in left;
      ReadOne(was, kept, out, left, a, objective, at, x);
      var l := kept[x];
      if (l.requesterId == a.id || a.canApprove) && (objective == "" || objective == l.objective) {
        l := Expire(l, at(x));
        kept, out := kept[x := l], out[x := l];
      }
      left := left - {x};
    }
  }

  lemma HolderIs(leases: map<string, Lease>, key: string, id: string)
    requires LeaseRuns.KeysUnique(leases) && id in leases && leases[id].key == key
    ensures KeyTaken(leases, key) && KeyHolder(leases, key) == id
  {
  }
}
