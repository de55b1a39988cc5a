/** Provider keys: set, rotate, revoke, and what stays true of the records, the pointers and the legacy map. */
module KeyRotation {
  import opened Bytes

  datatype Status = Active | Pending | Previous | Revoked
  datatype Key = Key(id: string, status: Status, secret: string, createdAt: int, verifiedAt: Option<int>,
                     revokedAt: Option<int>, expiresAt: Option<int>)
  datatype KeySet = KeySet(active: string, pending: string, previous: string, keys: seq<Key>)

  const NO_KEYS: KeySet := KeySet("", "", "", [])

  /** The position of the key with an identifier; the length when there is none. */
  function Place(keys: seq<Key>, id: string): (i: nat)
    ensures i <= |keys|
    ensures i < |keys| ==> keys[i].id == id
    ensures forall j :: 0 <= j < i ==> keys[j].id != id
  {
    if keys == [] || keys[0].id == id then 0
    else
      var i := Place(keys[1..], id);
      assert forall j :: 1 <= j <= i ==> keys[j] == keys[1..][j - 1];
      i + 1
  }

  predicate Has(ks: KeySet, id: string) {
    Place(ks.keys, id) < |ks.keys|
  }

  function Get(ks: KeySet, id: string): Key
    requires Has(ks, id)
  {
    ks.keys[Place(ks.keys, id)]
  }

  function Put(ks: KeySet, id: string, k: Key): KeySet
    requires Has(ks, id)
  {
    ks.(keys := ks.keys[Place(ks.keys, id) := k])
  }

  // ----- the operations on one provider's keys

  function RevokedAll(keys: seq<Key>, now: int): seq<Key> {
    seq(|keys|, i requires 0 <= i < |keys| =>
      if keys[i].status.Revoked? then keys[i]
      else keys[i].(status := Revoked, revokedAt := if keys[i].revokedAt.None? then Some(now) else keys[i].revokedAt))
  }

  /** A new active key; every earlier one is revoked. */
  function Replaced(ks: KeySet, secret: string, id: string, now: int): KeySet {
    KeySet(id, "", "", RevokedAll(ks.keys, now) + [Key(id, Active, secret, now, Some(now), None, None)])
  }

  function Started(ks: KeySet, secret: string, id: string, now: int): Option<KeySet> {
    if ks.pending != "" then None
    else Some(ks.(pending := id, keys := ks.keys + [Key(id, Pending, secret, now, None, None, None)]))
  }

  function Verified(ks: KeySet, now: int): Option<KeySet> {
    if ks.pending == "" || !Has(ks, ks.pending) then None
    else Some(Put(ks, ks.pending, Get(ks, ks.pending).(verifiedAt := Some(now))))
  }

  /** The active key stepping down: revoked at once, or kept as the previous one for some hours. */
  function SteppedDown(ks: KeySet, now: int, hours: int): KeySet {
    if ks.active == "" || !Has(ks, ks.active) then ks
    else
      var k := Get(ks, ks.active);
      if hours == 0
      then Put(ks, ks.active, k.(status := Revoked, revokedAt := Some(now), expiresAt := None)).(previous := "")
      else Put(ks, ks.active, k.(status := Previous, expiresAt := Some(now + hours * 3600))).(previous := ks.active)
  }

  function Committed(ks: KeySet, now: int, hours: int): Option<KeySet> {
    if hours < 0 || ks.pending == "" || !Has(ks, ks.pending) || Get(ks, ks.pending).verifiedAt.None? then None
    else
      var down := SteppedDown(ks, now, hours);
      var i := Place(ks.keys, ks.pending);
      Some(down.(keys := down.keys[i := down.keys[i].(status := Active, expiresAt := None, revokedAt := None)],
                 active := ks.pending, pending := ""))
  }

  function RolledBack(ks: KeySet, now: int): Option<KeySet> {
    if ks.previous == "" || !Has(ks, ks.previous) || !Has(ks, ks.active) then None
    else
      var down := Put(ks, ks.active, Get(ks, ks.active).(status := Previous, expiresAt := Some(now)));
      var i := Place(ks.keys, ks.previous);
      Some(down.(keys := down.keys[i := down.keys[i].(status := Active, expiresAt := None)], active := ks.previous,
                 previous := ks.active))
  }

  function Dropped(ks: KeySet, id: string, now: int): KeySet
    requires Has(ks, id)
  {
    Put(ks, id, Get(ks, id).(status := Revoked, revokedAt := Some(now), expiresAt := None))
  }

  function PreviousRevoked(ks: KeySet, now: int): Option<KeySet> {
    if ks.previous == "" || !Has(ks, ks.previous) then None else Some(Dropped(ks, ks.previous, now).(previous := ""))
  }

  function OneRevoked(ks: KeySet, id: string, now: int): Option<KeySet> {
    if ks.active == id || !Has(ks, id) then None
    else
      Some(Dropped(ks, id, now).(pending := if ks.pending == id then "" else ks.pending,
                                 previous := if ks.previous == id then "" else ks.previous))
  }

  // ----- what they keep

  /** A pointer is empty or names a key of its status, and no other key has that status. */
  predicate Points(ks: KeySet, id: string, status: Status) {
    && (id != "" ==> exists i :: 0 <= i < |ks.keys| && ks.keys[i].id == id && ks.keys[i].status == status)
    && forall i :: 0 <= i < |ks.keys| && ks.keys[i].status == status ==> ks.keys[i].id == id
  }

  predicate Names(ks: KeySet, id: string, status: Status) {
    id != "" ==> exists i :: 0 <= i < |ks.keys| && ks.keys[i].id == id && ks.keys[i].status == status
  }

  predicate UniqueIds(keys: seq<Key>) {
    && (forall i :: 0 <= i < |keys| ==> keys[i].id != "")
    && forall i, j :: 0 <= i < j < |keys| ==> keys[i].id != keys[j].id
  }

  /**
   At most one active and one pending key, each found through its pointer; the previous pointer names a previous key.
   */
  predicate Orderly(ks: KeySet) {
    UniqueIds(ks.keys) && Points(ks, ks.active, Active) && Points(ks, ks.pending, Pending)
      && Names(ks, ks.previous, Previous)
  }

  /** Keys stay, keep their secret, and once revoked stay revoked. */
  predicate Later(a: KeySet, b: KeySet) {
    && |a.keys| <= |b.keys|
    && forall i :: 0 <= i < |a.keys| ==>
         && b.keys[i].id == a.keys[i].id && b.keys[i].secret == a.keys[i].secret
         && b.keys[i].createdAt == a.keys[i].createdAt
         && (a.keys[i].status.Revoked? ==> b.keys[i].status.Revoked?)
  }

  lemma AtMostOne(ks: KeySet, i: nat, j: nat)
    requires Orderly(ks) && i < |ks.keys| && j < |ks.keys| && ks.keys[i].status == ks.keys[j].status
    requires ks.keys[i].status.Active? || ks.keys[i].status.Pending?
    ensures i == j
  {
  }

  lemma PlaceOf(keys: seq<Key>, i: nat)
    requires UniqueIds(keys) && i < |keys|
    ensures Place(keys, keys[i].id) == i
  {
  }

  /** What a pointer leads to. */
  lemma Follow(ks: KeySet, id: string, status: Status)
    requires UniqueIds(ks.keys) && id != "" && Names(ks, id, status)
    ensures Has(ks, id) && Get(ks, id).status == status && Get(ks, id).id == id
  {
    var i :| 0 <= i < |ks.keys| && ks.keys[i].id == id && ks.keys[i].status == status;
    PlaceOf(ks.keys, i);
  }

  lemma NoActive(ks: KeySet)
    requires Orderly(ks) && ks.active == ""
    ensures forall i :: 0 <= i < |ks.keys| ==> !ks.keys[i].status.Active?
  {
  }

  predicate Unused(ks: KeySet, id: string) {
    id != "" && forall i :: 0 <= i < |ks.keys| ==> ks.keys[i].id != id
  }

  lemma ReplaceKeeps(ks: KeySet, secret: string, id: string, now: int)
    requires Orderly(ks) && Unused(ks, id)
    ensures Orderly(Replaced(ks, secret, id, now)) && Later(ks, Replaced(ks, secret, id, now))
  {
    var next := Replaced(ks, secret, id, now);
    var n := |ks.keys|;
    assert next.keys[n].status == Active && next.keys[n].id == id;
    assert forall i :: 0 <= i < n ==> next.keys[i].id == ks.keys[i].id && next.keys[i].status == Revoked;
  }

  lemma StartKeeps(ks: KeySet, secret: string, id: string, now: int)
    requires Orderly(ks) && Unused(ks, id) && ks.pending == ""
    ensures var next := Started(ks, secret, id, now).value; Orderly(next) && Later(ks, next)
  {
    var next := Started(ks, secret, id, now).value;
    var n := |ks.keys|;
    assert next.keys[n].status == Pending && next.keys[n].id == id;
    assert forall i :: 0 <= i < n ==> next.keys[i] == ks.keys[i];
  }

  lemma VerifyKeeps(ks: KeySet, now: int)
    requires Orderly(ks) && ks.pending != ""
    ensures Verified(ks, now).Some?
    ensures var next := Verified(ks, now).value; Orderly(next) && Later(ks, next)
  {
    Follow(ks, ks.pending, Pending);
    var next := Verified(ks, now).value;
    SameShape(ks, next);
  }

  /** Only fields other than identifier and status changed. */
  lemma SameShape(a: KeySet, b: KeySet)
    requires Orderly(a) && a.active == b.active && a.pending == b.pending && a.previous == b.previous
             && |a.keys| == |b.keys|
    requires forall i :: 0 <= i < |a.keys| ==> b.keys[i].id == a.keys[i].id && b.keys[i].status == a.keys[i].status
    ensures Orderly(b)
  {
    forall id: string, s: Status
      ensures Names(a, id, s) ==> Names(b, id, s)
    {
      if id != "" && Names(a, id, s) {
        var i :| 0 <= i < |a.keys| && a.keys[i].id == id && a.keys[i].status == s;
        assert b.keys[i].id == id && b.keys[i].status == s;
      }
    }
    assert Names(a, a.active, Active) && Names(a, a.pending, Pending);
    assert Names(b, a.active, Active) && Names(b, a.pending, Pending);
  }

  /** The shape after one key steps down, if there is one, and another becomes active. */
  lemma HandoverKeeps(a: KeySet, b: KeySet, from: nat, to: nat, left: Status)
    requires Orderly(a) && |b.keys| == |a.keys| && to < |a.keys| && from <= |a.keys| && from != to
    requires (from == |a.keys|) == (a.active == "") && (from < |a.keys| ==> a.keys[from].id == a.active)
    requires !a.keys[to].status.Revoked? && !left.Active? && !left.Pending?
    requires forall i :: 0 <= i < |a.keys| ==>
      && b.keys[i].id == a.keys[i].id && b.keys[i].secret == a.keys[i].secret
      && b.keys[i].createdAt == a.keys[i].createdAt
      && b.keys[i].status == if i == to then Active else if i == from then left else a.keys[i].status
    requires b.active == a.keys[to].id && b.pending == (if a.keys[to].status.Pending? then "" else a.pending)
    requires Names(b, b.previous, Previous)
    ensures Orderly(b) && Later(a, b)
  {
    assert b.keys[to].id == b.active && b.keys[to].status == Active;
    if a.active == "" {
      NoActive(a);
    }
    assert forall i :: 0 <= i < |a.keys| && a.keys[i].status.Active? ==> i == from;
    if b.pending != "" {
      Follow(a, a.pending, Pending);
      var i := Place(a.keys, a.pending);
      assert b.keys[i].id == b.pending && b.keys[i].status == Pending;
    }
  }

  lemma CommitKeeps(ks: KeySet, now: int, hours: int)
    requires Orderly(ks) && Committed(ks, now, hours).Some?
    ensures var next := Committed(ks, now, hours).value; Orderly(next) && Later(ks, next)
  {
    var next := Committed(ks, now, hours).value;
    Follow(ks, ks.pending, Pending);
    var to := Place(ks.keys, ks.pending);
    if ks.active == "" {
      if ks.previous != "" {
        Follow(ks, ks.previous, Previous);
        assert next.keys[Place(ks.keys, ks.previous)].status == Previous;
      }
      HandoverKeeps(ks, next, |ks.keys|, to, Revoked);
    } else {
      Follow(ks, ks.active, Active);
      var from := Place(ks.keys, ks.active);
      assert next.keys[from].id == ks.active;
      HandoverKeeps(ks, next, from, to, if hours == 0 then Revoked else Previous);
    }
  }

  lemma RollbackKeeps(ks: KeySet, now: int)
    requires Orderly(ks) && RolledBack(ks, now).Some?
    ensures var next := RolledBack(ks, now).value; Orderly(next) && Later(ks, next)
  {
    var next := RolledBack(ks, now).value;
    Follow(ks, ks.previous, Previous);
    Follow(ks, ks.active, Active);
    var from, to := Place(ks.keys, ks.active), Place(ks.keys, ks.previous);
    assert next.keys[from].id == ks.active && next.keys[from].status == Previous;
    HandoverKeeps(ks, next, from, to, Previous);
  }

  lemma NameKept(a: KeySet, b: KeySet, at: nat, p: string, status: Status)
    requires UniqueIds(a.keys) && at < |a.keys| && |b.keys| == |a.keys| && p != a.keys[at].id && Names(a, p, status)
    requires forall i :: 0 <= i < |a.keys| && i != at ==> b.keys[i] == a.keys[i]
    ensures Names(b, p, status)
  {
    if p != "" {
      var i :| 0 <= i < |a.keys| && a.keys[i].id == p && a.keys[i].status == status;
      assert b.keys[i].id == p && b.keys[i].status == status;
    }
  }

  /** One key that is not active is revoked, and pointers to it are cleared. */
  lemma DropKeeps(ks: KeySet, id: string, now: int, next: KeySet)
    requires Orderly(ks) && Has(ks, id) && id != ks.active
    requires next == Dropped(ks, id, now).(pending := if ks.pending == id then "" else ks.pending,
                                           previous := if ks.previous == id then "" else ks.previous)
    ensures Orderly(next) && Later(ks, next)
  {
    var at := Place(ks.keys, id);
    assert ks.keys[at].id == id;
    assert next.keys == ks.keys[at := ks.keys[at].(status := Revoked, revokedAt := Some(now), expiresAt := None)];
    RevokedKeeps(ks, next, at);
  }

  /** One key becomes revoked; pointers to it are cleared and the others stay. */
  lemma RevokedKeeps(a: KeySet, b: KeySet, at: nat)
    requires Orderly(a) && at < |a.keys| && |b.keys| == |a.keys| && a.keys[at].id != a.active && b.active == a.active
    requires b.keys[at] == a.keys[at].(status := Revoked, revokedAt := b.keys[at].revokedAt, expiresAt := None)
    requires forall i :: 0 <= i < |a.keys| && i != at ==> b.keys[i] == a.keys[i]
    requires b.pending == (if a.pending == a.keys[at].id then "" else a.pending)
    requires b.previous == (if a.previous == a.keys[at].id then "" else a.previous)
    ensures Orderly(b) && Later(a, b)
  {
    NameKept(a, b, at, a.active, Active);
    if a.pending != a.keys[at].id {
      NameKept(a, b, at, a.pending, Pending);
    }
    if a.previous != a.keys[at].id {
      NameKept(a, b, at, a.previous, Previous);
    }
    NoneLeft(a, b, at);
  }

  lemma NoneLeft(a: KeySet, b: KeySet, at: nat)
    requires Orderly(a) && at < |a.keys| && |b.keys| == |a.keys| && b.keys[at].status.Revoked?
    requires forall i :: 0 <= i < |a.keys| && i != at ==> b.keys[i] == a.keys[i]
    ensures forall i :: 0 <= i < |b.keys| && b.keys[i].status.Active? ==> b.keys[i].id == a.active
    ensures forall i :: 0 <= i < |b.keys| && b.keys[i].status.Pending? ==>
              b.keys[i].id == a.pending && a.keys[at].id != a.pending
  {
  }

  lemma RevokePreviousKeeps(ks: KeySet, now: int)
    requires Orderly(ks) && PreviousRevoked(ks, now).Some?
    ensures var next := PreviousRevoked(ks, now).value; Orderly(next) && Later(ks, next)
  {
    Follow(ks, ks.previous, Previous);
    if ks.active != "" {
      Follow(ks, ks.active, Active);
    }
    if ks.pending != "" {
      Follow(ks, ks.pending, Pending);
    }
    DropKeeps(ks, ks.previous, now, PreviousRevoked(ks, now).value);
  }

  /**
   Committing with a grace window and rolling back makes the earlier active key active again, and only swaps the two.
   */
  lemma RollbackUndoesCommit(ks: KeySet, now: int, hours: int, later: int)
    requires Orderly(ks) && ks.active != "" && hours > 0 && Committed(ks, now, hours).Some?
    ensures var next := Committed(ks, now, hours).value;
            var back := RolledBack(next, later);
            && back.Some? && back.value.active == ks.active && back.value.previous == next.active == ks.pending
            && Has(back.value, ks.active) && Get(back.value, ks.active).status == Active
            && Get(back.value, ks.active).secret == Get(ks, ks.active).secret
            && forall i :: 0 <= i < |ks.keys| && ks.keys[i].id != ks.active && ks.keys[i].id != ks.pending ==>
               back.value.keys[i] == ks.keys[i]
  {
    var next := Committed(ks, now, hours).value;
    Follow(ks, ks.active, Active);
    Follow(ks, ks.pending, Pending);
    CommitKeeps(ks, now, hours);
    var from, to := Place(ks.keys, ks.active), Place(ks.keys, ks.pending);
    assert next.keys[from].id == ks.active && next.keys[to].id == ks.pending;
    Swaps(next, from, to, later);
  }

  /** A rollback makes the previous key active and the active one previous, and touches nothing else. */
  lemma Swaps(ks: KeySet, from: nat, to: nat, now: int)
    requires UniqueIds(ks.keys) && from < |ks.keys| && to < |ks.keys| && from != to
    requires ks.previous == ks.keys[from].id && ks.active == ks.keys[to].id
    ensures var back := RolledBack(ks, now);
            && back.Some? && back.value.active == ks.previous && back.value.previous == ks.active
            && Has(back.value, ks.previous)
            && Get(back.value, ks.previous) == ks.keys[from].(status := Active, expiresAt := None)
            && |back.value.keys| == |ks.keys|
            && forall i :: 0 <= i < |ks.keys| && i != from && i != to ==> back.value.keys[i] == ks.keys[i]
  {
    PlaceOf(ks.keys, from);
    PlaceOf(ks.keys, to);
    var back := RolledBack(ks, now).value;
    assert back.keys[from].id == ks.previous && UniqueIds(back.keys);
    PlaceOf(back.keys, from);
  }

  /**
   A rollback works exactly when there are a previous and an active key, at any time: the grace window is not looked at.
   */
  lemma RollbackAtAnyTime(ks: KeySet, now: int)
    requires Orderly(ks)
    ensures RolledBack(ks, now).Some? <==> ks.previous != "" && ks.active != ""
  {
    if ks.previous != "" {
      Follow(ks, ks.previous, Previous);
    }
    if ks.active != "" {
      Follow(ks, ks.active, Active);
    }
  }

  /**
   A commit leaves an earlier previous key as it was. Its pointer stays exactly when there was no active key; otherwise
   no pointer leads to that key any more, with or without a grace window.
   */
  lemma CommitLeavesPrevious(ks: KeySet, now: int, hours: int)
    requires Orderly(ks) && ks.previous != "" && Committed(ks, now, hours).Some?
    ensures var next := Committed(ks, now, hours).value;
            && Has(next, ks.previous) && Get(next, ks.previous) == Get(ks, ks.previous)
            && Get(next, ks.previous).status == Previous
            && (next.previous == ks.previous <==> ks.active == "")
            && ks.previous != next.active && ks.previous != next.pending
  {
    var next := Committed(ks, now, hours).value;
    Follow(ks, ks.previous, Previous);
    Follow(ks, ks.pending, Pending);
    if ks.active != "" {
      Follow(ks, ks.active, Active);
    }
    CommitKeeps(ks, now, hours);
    var at := Place(ks.keys, ks.previous);
    assert next.keys[at].id == ks.previous && next.keys[at] == ks.keys[at];
    PlaceOf(next.keys, at);
  }
}
