/** Which secret is in use: what a call hands over, what it leaves alone, and what a whole rotation does. */
module KeyUse {
  import opened Bytes
  import opened KeyRotation
  import opened KeyStore

  /** The records of the other providers and what is in use for them are as they were. */
  ghost predicate OthersKept(s: State, t: State, p: string) {
    forall x :: x != p ==> KeysOf(t, x) == KeysOf(s, x) && InUse(t, x) == InUse(s, x) && (x in t.sets <==> x in s.sets)
  }

  /** No record is lost and each is either as it was or revoked, the time of an earlier revocation staying. */
  predicate RevokedFrom(a: seq<Key>, b: seq<Key>, now: int) {
    && |a| <= |b|
    && forall i :: 0 <= i < |a| ==>
         && b[i].status.Revoked? && b[i].id == a[i].id && b[i].secret == a[i].secret
         && b[i].revokedAt == (if a[i].status.Revoked? || a[i].revokedAt.Some? then a[i].revokedAt else Some(now))
  }

  lemma ActiveOf(ks: KeySet, i: nat)
    requires UniqueIds(ks.keys) && i < |ks.keys| && ks.active == ks.keys[i].id
    ensures ActiveSecret(ks) == Some(ks.keys[i].secret)
  {
    PlaceOf(ks.keys, i);
  }

  /**
   Setting a key needs a provider and a secret and nothing else. From then on that secret is in use, every earlier key
   of the provider is revoked, nothing is pending or kept as previous, and other providers are untouched.
   */
  lemma SetTakesOver(s: State, p: string, secret: string, id: string, now: int)
    requires Consistent(s) && Unused(KeysOf(s, p), id)
    ensures Changed(s, p, Set(secret, id), now).Some? <==> p != "" && secret != ""
    ensures p != "" && secret != "" ==>
              var t := Changed(s, p, Set(secret, id), now).value;
              && InUse(t, p) == secret && KeysOf(t, p).active == id && OthersKept(s, t, p)
              && |KeysOf(t, p).keys| == |KeysOf(s, p).keys| + 1
              && RevokedFrom(KeysOf(s, p).keys, KeysOf(t, p).keys, now)
              && KeysOf(t, p).pending == KeysOf(t, p).previous == ""
  {
    if p != "" && secret != "" {
      ReplaceKeeps(KeysOf(s, p), secret, id, now);
      SetKeys(KeysOf(s, p), secret, id, now);
      OthersUntouched(s, p, Set(secret, id), now);
    }
  }

  lemma SetKeys(ks: KeySet, secret: string, id: string, now: int)
    requires Unused(ks, id) && UniqueIds(Replaced(ks, secret, id, now).keys)
    ensures var next := Replaced(ks, secret, id, now);
            && ActiveSecret(next) == Some(secret) && |next.keys| == |ks.keys| + 1 && next.active == id
            && RevokedFrom(ks.keys, next.keys, now) && next.pending == next.previous == ""
  {
    ActiveOf(Replaced(ks, secret, id, now), |ks.keys|);
  }

  /** A call on one provider never touches another one. */
  lemma OthersUntouched(s: State, p: string, op: Op, now: int)
    requires Changed(s, p, op, now).Some?
    ensures OthersKept(s, Changed(s, p, op, now).value, p)
  {
  }

  /** Only setting, committing and rolling back can change what is in use for a provider. */
  predicate HandsOver(e: Event, p: string) {
    e.Call? && e.p == p && (e.op.Set? || e.op.Commit? || e.op.Rollback?)
  }

  lemma StaysInUse(s: State, p: string, op: Op, now: int, x: string)
    requires Consistent(s) && Changed(s, p, op, now).Some?
    requires op.Start? ==> Unused(KeysOf(s, p), op.id)
    requires x == p ==> !(op.Set? || op.Commit? || op.Rollback?)
    ensures InUse(Changed(s, p, op, now).value, x) == InUse(s, x)
  {
    OthersUntouched(s, p, op, now);
    if x == p {
      KeysKeep(s, p, op, now);
      SecretKept(KeysOf(s, p), NextKeys(s, p, op, now).value);
    }
  }

  /** In memory and on disk alike. */
  predicate Uses(w: World, p: string, secret: string) {
    InUse(w.memory, p) == secret && InUse(w.stored, p) == secret
  }

  lemma StepUses(w: World, e: Event, p: string, secret: string)
    requires Inv(w) && Legal(w, e) && !HandsOver(e, p) && Uses(w, p, secret)
    ensures Uses(Step(w, e), p, secret)
  {
    match e
    case Call(x, op, now, save) => CallUses(w, x, op, now, save, p, secret);
    case Restart(ids, now) => MigrationIsIdle(w.stored, ids, now);
  }

  lemma CallUses(w: World, x: string, op: Op, now: int, save: Save, p: string, secret: string)
    requires Consistent(w.memory) && (op.Start? ==> Unused(KeysOf(w.memory, x), op.id)) && Uses(w, p, secret)
    requires x == p ==> !(op.Set? || op.Commit? || op.Rollback?)
    ensures Uses(Step(w, Call(x, op, now, save)), p, secret)
  {
    var next := Changed(w.memory, x, op, now);
    if next.Some? {
      StaysInUse(w.memory, x, op, now, p);
      assert InUse(next.value, p) == secret;
    }
  }

  /**
   Over a run without a Set, Commit or Rollback for a provider, whatever else is called, fails to save or restarts, the
   same secret stays in use for it.
   */
  lemma {:induction false} RunUses(w: World, events: seq<Event>, p: string, secret: string)
    requires Inv(w) && LegalRun(w, events) && Uses(w, p, secret)
    requires forall i :: 0 <= i < |events| ==> !HandsOver(events[i], p)
    ensures Uses(Run(w, events), p, secret)
    decreases |events|
  {
    if events != [] {
      assert !HandsOver(events[0], p);
      StepKeeps(w, events[0]);
      StepUses(w, events[0], p, secret);
      RunUses(Step(w, events[0]), events[1..], p, secret);
    }
  }

  /** A secret that was set and saved is in use after every later run that does not hand over again. */
  lemma SetStaysInUse(w: World, p: string, secret: string, id: string, now: int, events: seq<Event>)
    requires Inv(w) && p != "" && secret != "" && Unused(KeysOf(w.memory, p), id)
    requires var v := Step(w, Call(p, Set(secret, id), now, Saved)); LegalRun(v, events)
    requires forall i :: 0 <= i < |events| ==> !HandsOver(events[i], p)
    ensures Uses(Run(Step(w, Call(p, Set(secret, id), now, Saved)), events), p, secret)
  {
    var e := Call(p, Set(secret, id), now, Saved);
    SetTakesOver(w.memory, p, secret, id, now);
    StepKeeps(w, e);
    RunUses(Step(w, e), events, p, secret);
  }

  // ----- a whole rotation

  /** How the active key of a set steps down when another takes over. */
  predicate StepsDown(a: KeySet, b: KeySet, now: int, hours: int) {
    a.active != "" ==>
      && Has(a, a.active) && Has(b, a.active)
      && Get(b, a.active) == Get(a, a.active).(
           status := if hours == 0 then Revoked else Previous,
           revokedAt := if hours == 0 then Some(now) else Get(a, a.active).revokedAt,
           expiresAt := if hours == 0 then None else Some(now + hours * 3600))
      && b.previous == if hours == 0 then "" else a.active
  }

  /** A verified pending key takes over. */
  lemma CommitHandsOver(ks: KeySet, now: int, hours: int, at: nat)
    requires Orderly(ks) && hours >= 0 && at < |ks.keys| && ks.keys[at].id == ks.pending
    requires ks.keys[at].verifiedAt.Some?
    ensures var next := Committed(ks, now, hours);
            && next.Some? && ActiveSecret(next.value) == Some(ks.keys[at].secret) && next.value.active == ks.pending
            && next.value.pending == "" && StepsDown(ks, next.value, now, hours)
  {
    PlaceOf(ks.keys, at);
    var next := Committed(ks, now, hours).value;
    CommitKeeps(ks, now, hours);
    Follow(ks, ks.pending, Pending);
    assert next.keys[at].id == ks.pending;
    ActiveOf(next, at);
    if ks.active != "" {
      Follow(ks, ks.active, Active);
      var from := Place(ks.keys, ks.active);
      assert next.keys[from].id == ks.active;
      PlaceOf(next.keys, from);
    }
  }

  /** A rollback hands back to the previous key; the active one becomes the previous one. */
  lemma RollbackHandsBack(ks: KeySet, now: int)
    requires Orderly(ks) && ks.previous != "" && ks.active != ""
    ensures Has(ks, ks.previous) && Has(ks, ks.active)
    ensures var next := RolledBack(ks, now);
            && next.Some? && ActiveSecret(next.value) == Some(Get(ks, ks.previous).secret)
            && next.value.active == ks.previous && next.value.previous == ks.active && Has(next.value, ks.active)
            && Get(next.value, ks.active) == Get(ks, ks.active).(status := Previous, expiresAt := Some(now))
  {
    Follow(ks, ks.previous, Previous);
    Follow(ks, ks.active, Active);
    var next := RolledBack(ks, now).value;
    RollbackKeeps(ks, now);
    var from, to := Place(ks.keys, ks.active), Place(ks.keys, ks.previous);
    assert next.keys[from].id == ks.active && next.keys[to].id == ks.previous;
    ActiveOf(next, to);
    PlaceOf(next.keys, from);
  }

  /** The keys of one provider, in memory and on disk alike. */
  predicate Both(w: World, p: string, ks: KeySet) {
    KeysOf(w.memory, p) == ks && KeysOf(w.stored, p) == ks
  }

  /** Calls on other providers, whatever becomes of them, and restarts. */
  predicate Elsewhere(events: seq<Event>, p: string) {
    forall i :: 0 <= i < |events| ==> events[i].Restart? || events[i].p != p
  }

  lemma {:induction false} RunElsewhere(w: World, events: seq<Event>, p: string, ks: KeySet)
    requires Inv(w) && LegalRun(w, events) && Elsewhere(events, p) && Both(w, p, ks)
    ensures Inv(Run(w, events)) && Both(Run(w, events), p, ks)
    decreases |events|
  {
    if events != [] {
      var e := events[0];
      StepKeeps(w, e);
      StepElsewhere(w, e, p, ks);
      assert forall i :: 0 <= i < |events[1..]| ==> events[1..][i] == events[i + 1];
      RunElsewhere(Step(w, e), events[1..], p, ks);
    }
  }

  lemma StepElsewhere(w: World, e: Event, p: string, ks: KeySet)
    requires Inv(w) && Both(w, p, ks) && (e.Restart? || e.p != p)
    ensures Both(Step(w, e), p, ks)
  {
    match e
    case Call(x, op, now, save) =>
      if Changed(w.memory, x, op, now).Some? {
        OthersUntouched(w.memory, x, op, now);
      }
    case Restart(ids, now) => MigrationIsIdle(w.stored, ids, now);
  }

  /** What is in use is the active secret, or nothing. */
  lemma UsesActive(w: World, p: string, ks: KeySet)
    requires Inv(w) && Both(w, p, ks)
    ensures Uses(w, p, if ActiveSecret(ks).Some? then ActiveSecret(ks).value else "")
  {
  }

  /** A saved call leaves the next keys in memory and on disk. */
  lemma SavedCall(w: World, p: string, op: Op, now: int, ks: KeySet)
    requires Inv(w) && Legal(w, Call(p, op, now, Saved)) && NextKeys(w.memory, p, op, now) == Some(ks)
    ensures var v := Step(w, Call(p, op, now, Saved)); Inv(v) && Both(v, p, ks) && v.memory == v.stored
  {
    StepKeeps(w, Call(p, op, now, Saved));
  }

  /** The keys with a new one pending, and then with it verified. */
  function WithPending(ks: KeySet, secret: string, id: string, t1: int, verified: Option<int>): KeySet {
    ks.(pending := id, keys := ks.keys + [Key(id, Pending, secret, t1, verified, None, None)])
  }

  lemma PendingIsVerified(ks: KeySet, secret: string, id: string, t1: int, t2: int)
    requires Orderly(ks) && ks.pending == "" && Unused(ks, id)
    ensures Started(ks, secret, id, t1) == Some(WithPending(ks, secret, id, t1, None))
    ensures Verified(WithPending(ks, secret, id, t1, None), t2) == Some(WithPending(ks, secret, id, t1, Some(t2)))
    ensures forall hours, t: int {:trigger Committed(WithPending(ks, secret, id, t1, None), t, hours)} ::
              Committed(WithPending(ks, secret, id, t1, None), t, hours).None?
  {
    StartKeeps(ks, secret, id, t1);
    var next := WithPending(ks, secret, id, t1, None);
    PlaceOf(next.keys, |ks.keys|);
    assert next.keys[|ks.keys| := next.keys[|ks.keys|].(verifiedAt := Some(t2))]
        == WithPending(ks, secret, id, t1, Some(t2)).keys;
  }

  lemma PendingKeepsActive(ks: KeySet, secret: string, id: string, t1: int, verified: Option<int>)
    requires Orderly(ks) && Unused(ks, id) && ks.pending == ""
    ensures var next := WithPending(ks, secret, id, t1, verified);
            && Orderly(next) && ActiveSecret(next) == ActiveSecret(ks)
            && (ks.active != "" ==> Has(ks, ks.active) && Has(next, ks.active)
                                    && Get(next, ks.active) == Get(ks, ks.active))
  {
    var next := WithPending(ks, secret, id, t1, verified);
    StartKeeps(ks, secret, id, t1);
    SameShape(WithPending(ks, secret, id, t1, None), next);
    if ks.active != "" {
      Follow(ks, ks.active, Active);
      var i := Place(ks.keys, ks.active);
      assert next.keys[i] == ks.keys[i];
      PlaceOf(next.keys, i);
    }
  }

  /** A saved Start, Verify and Commit for one provider, with calls on other providers and restarts in between. */
  datatype Rotation = Rotation(p: string, secret: string, id: string, started: int, before: seq<Event>, verified: int,
                               between: seq<Event>, committed: int, hours: int)

  function Opened(w: World, r: Rotation): World {
    Step(w, Call(r.p, Start(r.secret, r.id), r.started, Saved))
  }

  function Begun(w: World, r: Rotation): World {
    Run(Opened(w, r), r.before)
  }

  function Checked(w: World, r: Rotation): World {
    Step(Begun(w, r), Call(r.p, Verify, r.verified, Saved))
  }

  function Proved(w: World, r: Rotation): World {
    Run(Checked(w, r), r.between)
  }

  function Done(w: World, r: Rotation): World {
    Step(Proved(w, r), Call(r.p, Commit(r.hours), r.committed, Saved))
  }

  predicate Feasible(w: World, r: Rotation) {
    && r.p != "" && r.secret != "" && r.hours >= 0 && KeysOf(w.memory, r.p).pending == ""
    && Unused(KeysOf(w.memory, r.p), r.id) && LegalRun(Opened(w, r), r.before) && Elsewhere(r.before, r.p)
    && LegalRun(Checked(w, r), r.between) && Elsewhere(r.between, r.p)
  }

  function InRotation(w: World, r: Rotation, verified: Option<int>): KeySet {
    WithPending(KeysOf(w.memory, r.p), r.secret, r.id, r.started, verified)
  }

  lemma RotationBegins(w: World, r: Rotation)
    requires Inv(w) && Feasible(w, r)
    ensures Inv(Begun(w, r)) && Both(Begun(w, r), r.p, InRotation(w, r, None))
  {
    var ks := KeysOf(w.memory, r.p);
    PendingIsVerified(ks, r.secret, r.id, r.started, r.verified);
    SavedCall(w, r.p, Start(r.secret, r.id), r.started, InRotation(w, r, None));
    RunElsewhere(Opened(w, r), r.before, r.p, InRotation(w, r, None));
  }

  lemma RotationProves(w: World, r: Rotation)
    requires Inv(w) && Feasible(w, r)
    ensures Inv(Proved(w, r)) && Both(Proved(w, r), r.p, InRotation(w, r, Some(r.verified)))
  {
    RotationBegins(w, r);
    PendingIsVerified(KeysOf(w.memory, r.p), r.secret, r.id, r.started, r.verified);
    SavedCall(Begun(w, r), r.p, Verify, r.verified, InRotation(w, r, Some(r.verified)));
    RunElsewhere(Checked(w, r), r.between, r.p, InRotation(w, r, Some(r.verified)));
  }

  lemma PendingInUse(w: World, v: World, r: Rotation, verified: Option<int>)
    requires Inv(w) && Feasible(w, r) && Inv(v) && Both(v, r.p, InRotation(w, r, verified))
    ensures Uses(v, r.p, InUse(w.memory, r.p))
  {
    PendingKeepsActive(KeysOf(w.memory, r.p), r.secret, r.id, r.started, verified);
    UsesActive(v, r.p, InRotation(w, r, verified));
  }

  /** The keys after the commit. */
  function Final(w: World, r: Rotation): KeySet
    requires Inv(w) && Feasible(w, r)
    ensures ActiveSecret(Final(w, r)) == Some(r.secret)
    ensures Committed(InRotation(w, r, Some(r.verified)), r.committed, r.hours) == Some(Final(w, r))
    ensures StepsDown(KeysOf(w.memory, r.p), Final(w, r), r.committed, r.hours)
  {
    PendingKeepsActive(KeysOf(w.memory, r.p), r.secret, r.id, r.started, Some(r.verified));
    CommitHandsOver(InRotation(w, r, Some(r.verified)), r.committed, r.hours, |KeysOf(w.memory, r.p).keys|);
    Committed(InRotation(w, r, Some(r.verified)), r.committed, r.hours).value
  }

  lemma RotationCommits(w: World, r: Rotation)
    requires Inv(w) && Feasible(w, r)
    ensures Inv(Done(w, r)) && Both(Done(w, r), r.p, Final(w, r))
  {
    RotationProves(w, r);
    SavedCall(Proved(w, r), r.p, Commit(r.hours), r.committed, Final(w, r));
  }

  lemma CommitWaits(w: World, v: World, r: Rotation, t: int)
    requires Inv(w) && Feasible(w, r) && Both(v, r.p, InRotation(w, r, None))
    ensures Changed(v.memory, r.p, Commit(r.hours), t).None?
  {
    PendingIsVerified(KeysOf(w.memory, r.p), r.secret, r.id, r.started, r.verified);
  }

  /**
   A rotation leaves the old secret in use until the commit, which is refused before the new key is verified; the commit
   brings the new secret into use, and the old active key is revoked or kept as the previous one for the given hours.
   */
  lemma RotationTakesOver(w: World, r: Rotation, t: int)
    requires Inv(w) && Feasible(w, r)
    ensures Uses(Begun(w, r), r.p, InUse(w.memory, r.p)) && Changed(Begun(w, r).memory, r.p, Commit(r.hours), t).None?
    ensures Uses(Proved(w, r), r.p, InUse(w.memory, r.p))
    ensures Uses(Done(w, r), r.p, r.secret)
    ensures StepsDown(KeysOf(w.memory, r.p), KeysOf(Done(w, r).memory, r.p), r.committed, r.hours)
  {
    RotationBegins(w, r);
    CommitWaits(w, Begun(w, r), r, t);
    PendingInUse(w, Begun(w, r), r, None);
    RotationProves(w, r);
    PendingInUse(w, Proved(w, r), r, Some(r.verified));
    RotationCommits(w, r);
    UsesActive(Done(w, r), r.p, Final(w, r));
  }

  /** A rotation that kept the previous key is undone by one rollback: the old secret is in use again. */
  lemma RotationUndone(w: World, r: Rotation, now: int)
    requires Inv(w) && Feasible(w, r) && r.hours > 0 && KeysOf(w.memory, r.p).active != ""
    ensures Uses(Step(Done(w, r), Call(r.p, Rollback, now, Saved)), r.p, InUse(w.memory, r.p))
  {
    RotationCommits(w, r);
    UndoKeys(Done(w, r), r.p, KeysOf(w.memory, r.p), Final(w, r), r, now);
  }

  lemma UndoKeys(v: World, p: string, ks: KeySet, last: KeySet, r: Rotation, now: int)
    requires Inv(v) && Both(v, p, last) && p != "" && Orderly(ks) && ks.active != "" && r.hours > 0
    requires StepsDown(ks, last, r.committed, r.hours) && last.active != ""
    ensures ActiveSecret(ks).Some?
    ensures Uses(Step(v, Call(p, Rollback, now, Saved)), p, ActiveSecret(ks).value)
  {
    KeysAreOrderly(v.memory, p);
    var back := RollbackRestores(v.memory, p, ks, last, r.committed, r.hours, now);
    SavedUses(v, p, Rollback, now, back);
  }

  lemma KeysAreOrderly(s: State, p: string)
    requires AllOrderly(s)
    ensures Orderly(KeysOf(s, p))
  {
  }

  lemma SavedUses(w: World, p: string, op: Op, now: int, ks: KeySet)
    requires Inv(w) && Legal(w, Call(p, op, now, Saved)) && NextKeys(w.memory, p, op, now) == Some(ks)
    requires ActiveSecret(ks).Some?
    ensures Uses(Step(w, Call(p, op, now, Saved)), p, ActiveSecret(ks).value)
  {
    SavedCall(w, p, op, now, ks);
    UsesActive(Step(w, Call(p, op, now, Saved)), p, ks);
  }

  lemma RollbackRestores(s: State, p: string, ks: KeySet, last: KeySet, committed: int, hours: int, now: int)
    returns (back: KeySet)
    requires KeysOf(s, p) == last && p != "" && Orderly(last) && ks.active != "" && last.active != "" && hours > 0
    requires StepsDown(ks, last, committed, hours)
    ensures NextKeys(s, p, Rollback, now) == Some(back) && ActiveSecret(ks).Some?
    ensures ActiveSecret(back) == ActiveSecret(ks)
  {
    RollbackHandsBack(last, now);
    back := RolledBack(last, now).value;
  }

  // ----- commits need a verification

  /** A pending key that has not been verified, or none. */
  predicate Unproved(ks: KeySet) {
    ks.pending != "" && Has(ks, ks.pending) ==> Get(ks, ks.pending).verifiedAt.None?
  }

  /** Identifiers and verification times stay, and so does the pending pointer unless it is cleared. */
  predicate SameTimes(a: KeySet, b: KeySet) {
    && |a.keys| == |b.keys| && (b.pending == "" || b.pending == a.pending)
    && forall i :: 0 <= i < |a.keys| ==> b.keys[i].id == a.keys[i].id && b.keys[i].verifiedAt == a.keys[i].verifiedAt
  }

  lemma RollbackSameTimes(ks: KeySet, now: int)
    requires RolledBack(ks, now).Some?
    ensures SameTimes(ks, RolledBack(ks, now).value)
  {
  }

  lemma RevokeSameTimes(ks: KeySet, id: string, now: int)
    ensures PreviousRevoked(ks, now).Some? ==> SameTimes(ks, PreviousRevoked(ks, now).value)
    ensures OneRevoked(ks, id, now).Some? ==> SameTimes(ks, OneRevoked(ks, id, now).value)
  {
  }

  lemma StaysUnproved(ks: KeySet, next: KeySet)
    requires Orderly(ks) && UniqueIds(next.keys) && Unproved(ks) && SameTimes(ks, next)
    ensures Unproved(next)
  {
    if next.pending != "" {
      Follow(ks, ks.pending, Pending);
      var i := Place(ks.keys, ks.pending);
      assert next.keys[i].id == next.pending;
      PlaceOf(next.keys, i);
    }
  }

  lemma StartIsUnproved(ks: KeySet, secret: string, id: string, now: int)
    requires Orderly(ks) && Unused(ks, id) && ks.pending == ""
    ensures Unproved(Started(ks, secret, id, now).value)
  {
    StartKeeps(ks, secret, id, now);
    PlaceOf(Started(ks, secret, id, now).value.keys, |ks.keys|);
  }

  lemma ChangeStaysUnproved(s: State, p: string, op: Op, now: int)
    requires Consistent(s) && Unproved(KeysOf(s, p)) && NextKeys(s, p, op, now).Some? && !op.Verify?
    requires op.Set? || op.Start? ==> Unused(KeysOf(s, p), op.id)
    ensures Unproved(NextKeys(s, p, op, now).value)
  {
    var ks, next := KeysOf(s, p), NextKeys(s, p, op, now).value;
    match op
    case Set(_, _) =>
    case Commit(_) =>
    case Start(secret, id) => StartIsUnproved(ks, secret, id, now);
    case Rollback => {
      RollbackSameTimes(ks, now);
      RollbackKeeps(ks, now);
      StaysUnproved(ks, next);
    }
    case RevokePrevious => {
      RevokeSameTimes(ks, "", now);
      RevokePreviousKeeps(ks, now);
      StaysUnproved(ks, next);
    }
    case RevokeKey(id) => {
      RevokeSameTimes(ks, id, now);
      KeysKeep(s, p, op, now);
      StaysUnproved(ks, next);
    }
  }

  lemma {:induction false} RunStaysUnproved(w: World, events: seq<Event>, p: string)
    requires Inv(w) && LegalRun(w, events) && Unproved(KeysOf(w.memory, p)) && Unproved(KeysOf(w.stored, p))
    requires forall i :: 0 <= i < |events| ==> !(events[i].Call? && events[i].p == p && events[i].op.Verify?)
    ensures Unproved(KeysOf(Run(w, events).memory, p)) && Unproved(KeysOf(Run(w, events).stored, p))
    decreases |events|
  {
    if events != [] {
      var e := events[0];
      assert !(e.Call? && e.p == p && e.op.Verify?);
      StepStaysUnproved(w, e, p);
      StepKeeps(w, e);
      RunStaysUnproved(Step(w, e), events[1..], p);
    }
  }

  lemma StepStaysUnproved(w: World, e: Event, p: string)
    requires Inv(w) && Legal(w, e) && Unproved(KeysOf(w.memory, p)) && Unproved(KeysOf(w.stored, p))
    requires !(e.Call? && e.p == p && e.op.Verify?)
    ensures Unproved(KeysOf(Step(w, e).memory, p)) && Unproved(KeysOf(Step(w, e).stored, p))
  {
    match e
    case Call(x, op, now, save) =>
      if Changed(w.memory, x, op, now).Some? {
        if x == p {
          ChangeStaysUnproved(w.memory, p, op, now);
        } else {
          OthersUntouched(w.memory, x, op, now);
        }
      }
    case Restart(ids, now) => MigrationIsIdle(w.stored, ids, now);
  }

  /**
   From a state without a rotation, whatever is called, fails to save or restarts: until a key of the provider has been
   verified no commit for it is granted.
   */
  lemma CommitNeedsVerify(w: World, events: seq<Event>, p: string, hours: int, now: int)
    requires Inv(w) && LegalRun(w, events)
    requires KeysOf(w.memory, p).pending == "" && KeysOf(w.stored, p).pending == ""
    requires forall i :: 0 <= i < |events| ==> !(events[i].Call? && events[i].p == p && events[i].op.Verify?)
    ensures Changed(Run(w, events).memory, p, Commit(hours), now).None?
  {
    RunStaysUnproved(w, events, p);
  }

  // ----- revocation

  /**
   Revoking a key works exactly for a known key that the active pointer does not name. That key is revoked now, pointers
   to it go, and every other key and what is in use stay.
   */
  lemma RevokeRevokes(s: State, p: string, id: string, now: int)
    requires Consistent(s)
    ensures Changed(s, p, RevokeKey(id), now).Some? <==>
            p != "" && id != "" && Has(KeysOf(s, p), id) && KeysOf(s, p).active != id
    ensures Changed(s, p, RevokeKey(id), now).Some? ==>
              var t, at := Changed(s, p, RevokeKey(id), now).value, Place(KeysOf(s, p).keys, id);
              && RevokedAt(KeysOf(s, p).keys, KeysOf(t, p).keys, at, now) && InUse(t, p) == InUse(s, p)
              && KeysOf(t, p).pending != id && KeysOf(t, p).previous != id && OthersKept(s, t, p)
  {
    if Changed(s, p, RevokeKey(id), now).Some? {
      StaysInUse(s, p, RevokeKey(id), now, p);
      OthersUntouched(s, p, RevokeKey(id), now);
    }
  }

  predicate RevokedAt(a: seq<Key>, b: seq<Key>, at: nat, now: int) {
    && |a| == |b| && at < |a| && b[at].status.Revoked? && b[at].revokedAt == Some(now) && b[at].expiresAt.None?
    && b[at].id == a[at].id && b[at].secret == a[at].secret
    && forall i :: 0 <= i < |a| && i != at ==> b[i] == a[i]
  }

  /** The previous key can be revoked exactly when there is one; no rollback is possible after that. */
  lemma PreviousIsRevoked(s: State, p: string, now: int, later: int)
    requires Consistent(s)
    ensures Changed(s, p, Op.RevokePrevious, now).Some? <==> p != "" && KeysOf(s, p).previous != ""
    ensures Changed(s, p, Op.RevokePrevious, now).Some? ==>
              var t, at := Changed(s, p, Op.RevokePrevious, now).value,
                  Place(KeysOf(s, p).keys, KeysOf(s, p).previous);
              && RevokedAt(KeysOf(s, p).keys, KeysOf(t, p).keys, at, now) && InUse(t, p) == InUse(s, p)
              && Changed(t, p, Rollback, later).None? && OthersKept(s, t, p)
  {
    if p != "" && KeysOf(s, p).previous != "" {
      Follow(KeysOf(s, p), KeysOf(s, p).previous, Previous);
      StaysInUse(s, p, Op.RevokePrevious, now, p);
      OthersUntouched(s, p, Op.RevokePrevious, now);
    }
  }
}
