/** The store of provider keys: migration, the mirrored legacy map, failed saves, and runs of rotations. */
module KeyStore {
  import opened Bytes
  import opened KeyRotation
  import opened Text

  datatype State = State(sets: map<string, KeySet>, legacy: map<string, string>)

  function ActiveSecret(ks: KeySet): Option<string> {
    if ks.active == "" || !Has(ks, ks.active) then None else Some(Get(ks, ks.active).secret)
  }

  /** The legacy entry of one provider brought in line with its keys. */
  function Synced(s: State, p: string): State {
    if p in s.sets && ActiveSecret(s.sets[p]).Some? then s.(legacy := s.legacy[p := ActiveSecret(s.sets[p]).value])
    else s.(legacy := s.legacy - {p})
  }

  /** The legacy map holds exactly the active secrets. */
  ghost predicate Mirrored(s: State) {
    && (forall p :: p in s.legacy <==> p in s.sets && ActiveSecret(s.sets[p]).Some?)
    && forall p :: p in s.legacy ==> Some(s.legacy[p]) == ActiveSecret(s.sets[p])
  }

  predicate AllOrderly(s: State) {
    forall p :: p in s.sets ==> Orderly(s.sets[p])
  }

  ghost predicate Consistent(s: State) {
    AllOrderly(s) && Mirrored(s)
  }

  // ----- migration

  predicate Blank(s: string) {
    forall i :: 0 <= i < |s| ==> IsSpace(s[i])
  }

  /** Keys for a provider that has only a legacy secret. */
  function Adopted(secret: string, id: string, now: int): KeySet {
    KeySet(id, "", "", [Key(id, Active, secret, now, Some(now), None, None)])
  }

  function AdoptedSets(s: State, ids: string -> string, now: int): map<string, KeySet> {
    map p | p in s.legacy && p !in s.sets && !Blank(s.legacy[p]) :: Adopted(s.legacy[p], ids(p), now)
  }

  function MirrorOf(sets: map<string, KeySet>): map<string, string> {
    map p | p in sets && ActiveSecret(sets[p]).Some? :: ActiveSecret(sets[p]).value
  }

  function Migrated(s: State, ids: string -> string, now: int): State {
    var sets := s.sets + AdoptedSets(s, ids, now);
    State(sets, MirrorOf(sets))
  }

  /**
   Whatever the stored legacy map, migration leaves every legacy secret in use and the map in line with the keys; blank
   entries lead to no keys.
   */
  lemma MigrationSettles(s: State, ids: string -> string, now: int)
    requires AllOrderly(s) && forall p: string :: ids(p) != ""
    ensures Consistent(Migrated(s, ids, now))
    ensures forall p :: p in s.legacy && p !in s.sets && !Blank(s.legacy[p]) ==>
              p in Migrated(s, ids, now).legacy && Migrated(s, ids, now).legacy[p] == s.legacy[p]
    ensures forall p :: p in s.sets ==> p in Migrated(s, ids, now).sets && Migrated(s, ids, now).sets[p] == s.sets[p]
    ensures forall p :: p in Migrated(s, ids, now).sets ==> p in s.sets || (p in s.legacy && !Blank(s.legacy[p]))
  {
    var sets := Migrated(s, ids, now).sets;
    forall p | p in sets
      ensures Orderly(sets[p])
    {
      MigratedAt(s, ids, now, p);
    }
    forall p | p in s.legacy && p !in s.sets && !Blank(s.legacy[p])
      ensures p in Migrated(s, ids, now).legacy && Migrated(s, ids, now).legacy[p] == s.legacy[p]
    {
      MigratedAt(s, ids, now, p);
    }
    MirrorIsMirrored(sets);
  }

  lemma MigratedAt(s: State, ids: string -> string, now: int, p: string)
    requires AllOrderly(s) && ids(p) != ""
    ensures var sets := Migrated(s, ids, now).sets;
            && (p in sets ==> Orderly(sets[p]))
            && (p in s.legacy && p !in s.sets && !Blank(s.legacy[p]) ==>
                  p in sets && ActiveSecret(sets[p]) == Some(s.legacy[p]))
  {
    if p in s.legacy {
      AdoptedIsOrderly(s.legacy[p], ids(p), now);
    }
  }

  lemma MirrorIsMirrored(sets: map<string, KeySet>)
    ensures Mirrored(State(sets, MirrorOf(sets)))
  {
  }

  lemma AdoptedIsOrderly(secret: string, id: string, now: int)
    requires id != ""
    ensures Orderly(Adopted(secret, id, now)) && ActiveSecret(Adopted(secret, id, now)) == Some(secret)
  {
    var ks := Adopted(secret, id, now);
    assert ks.keys[0].id == id;
    PlaceOf(ks.keys, 0);
  }

  /** A consistent state is left as it is. */
  lemma MigrationIsIdle(s: State, ids: string -> string, now: int)
    requires Consistent(s)
    ensures Migrated(s, ids, now) == s
  {
    NoneAdopted(s, ids, now);
    MirrorIsLegacy(s);
  }

  lemma NoneAdopted(s: State, ids: string -> string, now: int)
    requires Mirrored(s)
    ensures s.sets + AdoptedSets(s, ids, now) == s.sets
  {
  }

  lemma MirrorIsLegacy(s: State)
    requires Mirrored(s)
    ensures MirrorOf(s.sets) == s.legacy
  {
  }

  /**
   Blank legacy entries go, every other one without keys gets a key, and then every provider's entry is brought in line.
   */
  method MigrateKeys(s: State, ids: string -> string, now: int) returns (r: State)
    ensures r == Migrated(s, ids, now)
  {
    var sets, legacy := AdoptAll(s, ids, now);
    r := MirrorAll(State(sets, legacy));
  }

  method AdoptAll(s: State, ids: string -> string, now: int)
    returns (sets: map<string, KeySet>, legacy: map<string, string>)
    ensures sets == s.sets + AdoptedSets(s, ids, now) && legacy.Keys <= sets.Keys
  {
    sets, legacy := s.sets, s.legacy;
    var left := s.legacy.Keys;
    AdoptionStarts(s, ids, now);
    while left != {}
      invariant left <= s.legacy.Keys && Adopting(s, sets, legacy, left, ids, now)
      decreases |left|
    {
      var p :| p in left;
      AdoptOne(s, sets, legacy, left, ids, now, p);
      if Blank(legacy[p]) {
        legacy := legacy - {p};
      } else if p !in sets {
        sets := sets[p := Adopted(legacy[p], ids(p), now)];
      }
      left := left - {p};
    }
    AdoptionEnds(s, sets, legacy, ids, now);
  }

  method MirrorAll(s: State) returns (r: State)
    requires s.legacy.Keys <= s.sets.Keys
    ensures r == State(s.sets, MirrorOf(s.sets))
  {
    r := s;
    var left := s.sets.Keys;
    while left != {}
      invariant left <= s.sets.Keys && Mirroring(s.sets, r, left)
      decreases |left|
    {
      var p :| p in left;
      MirrorOne(s.sets, r, left, p);
      r := Synced(r, p);
      left := left - {p};
    }
    MirroringEnds(s.sets, r);
  }

  lemma AdoptionStarts(s: State, ids: string -> string, now: int)
    ensures Adopting(s, s.sets, s.legacy, s.legacy.Keys, ids, now)
  {
  }

  /** The keys adopted for all legacy entries but those in left. */
  ghost predicate AdoptedBut(s: State, sets: map<string, KeySet>, left: set<string>, ids: string -> string, now: int) {
    && sets.Keys == s.sets.Keys + (set p | p in s.legacy && p !in left && !Blank(s.legacy[p]))
    && forall p :: p in sets ==> sets[p] == if p in s.sets then s.sets[p] else Adopted(s.legacy[p], ids(p), now)
  }

  /** The legacy entries without the blank ones outside left. */
  ghost predicate Pruned(s: State, legacy: map<string, string>, left: set<string>) {
    legacy == map p | p in s.legacy && (p in left || !Blank(s.legacy[p])) :: s.legacy[p]
  }

  /** Part way through adoption, with the legacy entries in left still to be seen. */
  ghost predicate Adopting(s: State, sets: map<string, KeySet>, legacy: map<string, string>, left: set<string>,
                           ids: string -> string, now: int) {
    (forall p :: p in sets ==> p in s.sets || p in s.legacy) && AdoptedBut(s, sets, left, ids, now)
      && Pruned(s, legacy, left)
  }

  lemma AdoptKeys(s: State, sets: map<string, KeySet>, left: set<string>, ids: string -> string, now: int, p: string)
    requires (forall x :: x in sets ==> x in s.sets || x in s.legacy) && AdoptedBut(s, sets, left, ids, now)
             && p in left && p in s.legacy
    ensures AdoptedBut(s,
                       if !Blank(s.legacy[p]) && p !in sets then sets[p := Adopted(s.legacy[p], ids(p), now)] else sets,
                       left - {p}, ids, now)
  {
  }

  lemma Prune(s: State, legacy: map<string, string>, left: set<string>, p: string)
    requires left <= s.legacy.Keys && Pruned(s, legacy, left) && p in left
    ensures p in legacy && legacy[p] == s.legacy[p]
    ensures Pruned(s, if Blank(s.legacy[p]) then legacy - {p} else legacy, left - {p})
  {
  }

  lemma AdoptOne(s: State, sets: map<string, KeySet>, legacy: map<string, string>, left: set<string>,
                 ids: string -> string, now: int, p: string)
    requires left <= s.legacy.Keys && Adopting(s, sets, legacy, left, ids, now) && p in left
    ensures p in legacy && legacy[p] == s.legacy[p]
    ensures Adopting(s,
                     if !Blank(s.legacy[p]) && p !in sets then sets[p := Adopted(s.legacy[p], ids(p), now)] else sets,
                     if Blank(s.legacy[p]) then legacy - {p} else legacy, left - {p}, ids, now)
  {
    AdoptKeys(s, sets, left, ids, now, p);
    Prune(s, legacy, left, p);
  }

  lemma AdoptionEnds(s: State, sets: map<string, KeySet>, legacy: map<string, string>, ids: string -> string, now: int)
    requires Adopting(s, sets, legacy, {}, ids, now)
    ensures sets == s.sets + AdoptedSets(s, ids, now) && legacy.Keys <= sets.Keys
  {
    var all := s.sets + AdoptedSets(s, ids, now);
    assert sets.Keys == all.Keys;
    assert forall p :: p in sets ==> sets[p] == all[p];
  }

  /** Part way through mirroring, with the providers in left still to be brought in line. */
  ghost predicate Mirroring(sets: map<string, KeySet>, r: State, left: set<string>) {
    && r.sets == sets && r.legacy.Keys <= sets.Keys
    && (forall p :: p in sets && p !in left ==> (p in r.legacy <==> ActiveSecret(sets[p]).Some?))
    && forall p :: p in r.legacy && p !in left ==> Some(r.legacy[p]) == ActiveSecret(sets[p])
  }

  lemma MirrorOne(sets: map<string, KeySet>, r: State, left: set<string>, p: string)
    requires Mirroring(sets, r, left) && p in left && left <= sets.Keys
    ensures Mirroring(sets, Synced(r, p), left - {p})
  {
  }

  lemma MirroringEnds(sets: map<string, KeySet>, r: State)
    requires Mirroring(sets, r, {})
    ensures r == State(sets, MirrorOf(sets))
  {
    assert r.legacy == MirrorOf(sets);
  }

  // ----- one call

  datatype Op =
    | Set(secret: string, id: string)
    | Start(secret: string, id: string)
    | Verify
    | Commit(hours: int)
    | Rollback
    | RevokePrevious
    | RevokeKey(id: string)

  function KeysOf(s: State, p: string): KeySet {
    if p in s.sets then s.sets[p] else NO_KEYS
  }

  function NextKeys(s: State, p: string, op: Op, now: int): Option<KeySet> {
    if p == "" then None
    else
      match op
      case Set(secret, id) => if secret == "" then None else Some(Replaced(KeysOf(s, p), secret, id, now))
      case Start(secret, id) => if secret == "" then None else Started(KeysOf(s, p), secret, id, now)
      case Verify => if p !in s.sets then None else Verified(s.sets[p], now)
      case Commit(hours) => if p !in s.sets then None else Committed(s.sets[p], now, hours)
      case Rollback => if p !in s.sets then None else RolledBack(s.sets[p], now)
      case RevokePrevious => if p !in s.sets then None else PreviousRevoked(s.sets[p], now)
      case RevokeKey(id) => if p !in s.sets || id == "" then None else OneRevoked(s.sets[p], id, now)
  }

  /** Only a change of the active key touches the legacy map. */
  function Changed(s: State, p: string, op: Op, now: int): Option<State> {
    match NextKeys(s, p, op, now)
    case None => None
    case Some(ks) =>
      var next := s.(sets := s.sets[p := ks]);
      Some(if op.Set? || op.Commit? || op.Rollback? then Synced(next, p) else next)
  }

  /**
   A save that works, one that fails and reloads what is stored, and one that fails and leaves the change in memory.
   */
  datatype Save = Saved | Reloaded | Adrift

  class Store {
    var memory: State
    var stored: State

    constructor (memory: State, stored: State)
      ensures this.memory == memory && this.stored == stored
    {
      this.memory, this.stored := memory, stored;
    }

    method SaveState(save: Save) returns (ok: bool)
      modifies this
      ensures memory == (if save.Reloaded? then old(stored) else old(memory))
      ensures stored == (if save.Saved? then old(memory) else old(stored)) && ok == save.Saved?
    {
      ok := false;
      match save {
        case Saved => stored, ok := memory, true;
        case Reloaded => memory := stored;
        case Adrift =>
      }
    }

    method Sync(p: string)
      modifies this`memory
      ensures memory == Synced(old(memory), p)
    {
      if p !in memory.sets || memory.sets[p].active == "" {
        memory := memory.(legacy := memory.legacy - {p});
        return;
      }
      var ks := memory.sets[p];
      var i := Find(ks.keys, ks.active);
      if i == |ks.keys| {
        memory := memory.(legacy := memory.legacy - {p});
        return;
      }
      memory := memory.(legacy := memory.legacy[p := ks.keys[i].secret]);
    }

    method SetProviderKey(p: string, secret: string, id: string, now: int, save: Save) returns (ok: bool)
      modifies this
      ensures Called(old(memory), old(stored), p, Set(secret, id), now, save, memory, stored, ok)
    {
      if p == "" || secret == "" {
        return false;
      }
      var ks := KeysOf(memory, p);
      var i := 0;
      while i < |ks.keys|
        invariant 0 <= i <= |ks.keys| == |KeysOf(memory, p).keys| && memory == old(memory) && stored == old(stored)
        invariant ks == KeysOf(memory, p).(keys := ks.keys)
        invariant forall j :: 0 <= j < |ks.keys| ==>
                    ks.keys[j] == if j < i then RevokedAll(KeysOf(memory, p).keys, now)[j]
                      else KeysOf(memory, p).keys[j]
      {
        var k := ks.keys[i];
        if k.status == Active || k.status == Pending || k.status == Previous {
          k := k.(status := Revoked);
          if k.revokedAt.None? {
            k := k.(revokedAt := Some(now));
          }
        }
        ks := ks.(keys := ks.keys[i := k]);
        i := i + 1;
      }
      assert ks.keys == RevokedAll(KeysOf(memory, p).keys, now);
      ks := KeySet(id, "", "", ks.keys + [Key(id, Active, secret, now, Some(now), None, None)]);
      memory := memory.(sets := memory.sets[p := ks]);
      Sync(p);
      ok := SaveState(save);
    }

    method RotateStart(p: string, secret: string, id: string, now: int, save: Save) returns (ok: bool)
      modifies this
      ensures Called(old(memory), old(stored), p, Start(secret, id), now, save, memory, stored, ok)
    {
      if p == "" || secret == "" {
        return false;
      }
      var ks := KeysOf(memory, p);
      if ks.pending != "" {
        return false;
      }
      ks := ks.(keys := ks.keys + [Key(id, Pending, secret, now, None, None, None)], pending := id);
      memory := memory.(sets := memory.sets[p := ks]);
      ok := SaveState(save);
    }

    method RotateVerify(p: string, now: int, save: Save) returns (ok: bool)
      modifies this
      ensures Called(old(memory), old(stored), p, Verify, now, save, memory, stored, ok)
    {
      if p == "" || p !in memory.sets || memory.sets[p].pending == "" {
        return false;
      }
      var ks := memory.sets[p];
      var i := Find(ks.keys, ks.pending);
      if i == |ks.keys| {
        return false;
      }
      ks := ks.(keys := ks.keys[i := ks.keys[i].(verifiedAt := Some(now))]);
      memory := memory.(sets := memory.sets[p := ks]);
      ok := SaveState(save);
    }

    method RotateCommit(p: string, hours: int, now: int, save: Save) returns (ok: bool)
      modifies this
      ensures Called(old(memory), old(stored), p, Commit(hours), now, save, memory, stored, ok)
    {
      if p == "" || hours < 0 || p !in memory.sets || memory.sets[p].pending == "" {
        return false;
      }
      var ks := memory.sets[p];
      var pending := Find(ks.keys, ks.pending);
      if pending == |ks.keys| || ks.keys[pending].verifiedAt.None? {
        return false;
      }
      ks := StepDown(ks, now, hours);
      ks := ks.(keys := ks.keys[pending := ks.keys[pending].(status := Active, expiresAt := None, revokedAt := None)]);
      ks := ks.(active := ks.keys[pending].id, pending := "");
      assert Committed(memory.sets[p], now, hours) == Some(ks);
      memory := memory.(sets := memory.sets[p := ks]);
      Sync(p);
      ok := SaveState(save);
    }

    method RotateRollback(p: string, now: int, save: Save) returns (ok: bool)
      modifies this
      ensures Called(old(memory), old(stored), p, Rollback, now, save, memory, stored, ok)
    {
      if p == "" || p !in memory.sets || memory.sets[p].previous == "" {
        return false;
      }
      var ks := memory.sets[p];
      var previous := Find(ks.keys, ks.previous);
      var active := Find(ks.keys, ks.active);
      if previous == |ks.keys| || active == |ks.keys| {
        return false;
      }
      ks := ks.(keys := ks.keys[active := ks.keys[active].(status := Previous, expiresAt := Some(now))]);
      ks := ks.(keys := ks.keys[previous := ks.keys[previous].(status := Active, expiresAt := None)]);
      ks := ks.(active := ks.previous, previous := ks.active);
      memory := memory.(sets := memory.sets[p := ks]);
      Sync(p);
      ok := SaveState(save);
    }

    method RevokePrevious(p: string, now: int, save: Save) returns (ok: bool)
      modifies this
      ensures Called(old(memory), old(stored), p, Op.RevokePrevious, now, save, memory, stored, ok)
    {
      if p == "" || p !in memory.sets || memory.sets[p].previous == "" {
        return false;
      }
      var ks := memory.sets[p];
      var i := Find(ks.keys, ks.previous);
      if i == |ks.keys| {
        return false;
      }
      ks := ks.(keys := ks.keys[i := ks.keys[i].(status := Revoked, revokedAt := Some(now), expiresAt := None)],
                previous := "");
      memory := memory.(sets := memory.sets[p := ks]);
      ok := SaveState(save);
    }

    method RevokeProviderKey(p: string, id: string, now: int, save: Save) returns (ok: bool)
      modifies this
      ensures Called(old(memory), old(stored), p, RevokeKey(id), now, save, memory, stored, ok)
    {
      if p == "" || id == "" || p !in memory.sets || memory.sets[p].active == id {
        return false;
      }
      var ks := memory.sets[p];
      var i := Find(ks.keys, id);
      if i == |ks.keys| {
        return false;
      }
      ks := ks.(keys := ks.keys[i := ks.keys[i].(status := Revoked, revokedAt := Some(now), expiresAt := None)]);
      if ks.pending == id {
        ks := ks.(pending := "");
      }
      if ks.previous == id {
        ks := ks.(previous := "");
      }
      memory := memory.(sets := memory.sets[p := ks]);
      ok := SaveState(save);
    }

    /** The secret in use for a provider. */
    method GetProviderKey(p: string) returns (secret: string)
      ensures secret == InUse(memory, p)
    {
      if p in memory.sets && memory.sets[p].active != "" {
        var ks := memory.sets[p];
        var i := Find(ks.keys, ks.active);
        if i < |ks.keys| {
          return ks.keys[i].secret;
        }
      }
      return if p in memory.legacy then memory.legacy[p] else "";
    }
  }

  method StepDown(ks: KeySet, now: int, hours: nat) returns (next: KeySet)
    ensures next == SteppedDown(ks, now, hours)
  {
    next := ks;
    if ks.active != "" {
      var active := Find(ks.keys, ks.active);
      if active < |ks.keys| {
        if hours == 0 {
          next := next.(
            keys := ks.keys[active := ks.keys[active].(status := Revoked, revokedAt := Some(now), expiresAt := None)],
            previous := "");
        } else {
          var down := ks.keys[active].(status := Previous, expiresAt := Some(now + hours * 3600));
          next := next.(keys := ks.keys[active := down], previous := ks.keys[active].id);
        }
      }
    }
  }

  method Find(keys: seq<Key>, id: string) returns (i: nat)
    ensures i == Place(keys, id)
  {
    i := 0;
    while i < |keys|
      invariant 0 <= i <= |keys| && forall j :: 0 <= j < i ==> keys[j].id != id
    {
      if keys[i].id == id {
        return;
      }
      i := i + 1;
    }
  }

  /** What a call leaves in memory and on disk. */
  predicate Called(memory: State, stored: State, p: string, op: Op, now: int, save: Save, newMemory: State,
                   newStored: State, ok: bool) {
    match Changed(memory, p, op, now)
    case None => newMemory == memory && newStored == stored && !ok
    case Some(next) =>
      && newMemory == (if save.Reloaded? then stored else next) && newStored == (if save.Saved? then next else stored)
      && ok == save.Saved?
  }

  function InUse(s: State, p: string): string {
    if p in s.sets && ActiveSecret(s.sets[p]).Some? then ActiveSecret(s.sets[p]).value
    else if p in s.legacy then s.legacy[p] else ""
  }

  /** In a consistent state the secret in use is the legacy entry, and there is none without an active key. */
  lemma InUseIsLegacy(s: State, p: string)
    requires Consistent(s)
    ensures InUse(s, p) == if p in s.legacy then s.legacy[p] else ""
    ensures p in s.legacy <==> p in s.sets && s.sets[p].active != ""
  {
    if p in s.sets && s.sets[p].active != "" {
      Follow(s.sets[p], s.sets[p].active, Active);
    }
  }

  // ----- runs

  lemma KeysKeep(s: State, p: string, op: Op, now: int)
    requires AllOrderly(s) && NextKeys(s, p, op, now).Some?
    requires op.Set? || op.Start? ==> Unused(KeysOf(s, p), op.id)
    ensures var next := NextKeys(s, p, op, now).value; Orderly(next) && Later(KeysOf(s, p), next)
  {
    var ks := KeysOf(s, p);
    match op
    case Set(secret, id) => ReplaceKeeps(ks, secret, id, now);
    case Start(secret, id) => StartKeeps(ks, secret, id, now);
    case Verify => VerifyKeeps(ks, now);
    case Commit(hours) => CommitKeeps(ks, now, hours);
    case Rollback => RollbackKeeps(ks, now);
    case RevokePrevious => RevokePreviousKeeps(ks, now);
    case RevokeKey(id) => DropKeeps(ks, id, now, NextKeys(s, p, op, now).value);
  }

  /** Calls that leave the active pointer alone leave the active secret alone. */
  lemma SecretKept(a: KeySet, b: KeySet)
    requires Orderly(a) && Orderly(b) && Later(a, b) && a.active == b.active
    ensures ActiveSecret(a) == ActiveSecret(b)
  {
    if a.active != "" {
      Follow(a, a.active, Active);
      var i := Place(a.keys, a.active);
      assert b.keys[i].id == a.active;
      PlaceOf(b.keys, i);
    }
  }

  predicate SetsLater(a: State, b: State) {
    forall p :: p in a.sets ==> p in b.sets && Later(a.sets[p], b.sets[p])
  }

  lemma ChangeKeeps(s: State, p: string, op: Op, now: int)
    requires Consistent(s) && Changed(s, p, op, now).Some?
    requires op.Set? || op.Start? ==> Unused(KeysOf(s, p), op.id)
    ensures var next := Changed(s, p, op, now).value; Consistent(next) && SetsLater(s, next)
  {
    KeysKeep(s, p, op, now);
    var ks, next := NextKeys(s, p, op, now).value, Changed(s, p, op, now).value;
    if !(op.Set? || op.Commit? || op.Rollback?) {
      assert ks.active == KeysOf(s, p).active;
      SecretKept(KeysOf(s, p), ks);
    }
    MirrorKept(s, next, p, ks);
  }

  lemma MirrorKept(s: State, next: State, p: string, ks: KeySet)
    requires Consistent(s) && Orderly(ks) && Later(KeysOf(s, p), ks)
    requires var with := s.(sets := s.sets[p := ks]);
             next == Synced(with, p) || (next == with && ActiveSecret(ks) == ActiveSecret(KeysOf(s, p)))
    ensures Consistent(next) && SetsLater(s, next)
  {
    SyncedMirrors(s, next, p, ks);
    forall x | x in s.sets
      ensures Later(s.sets[x], next.sets[x])
    {
    }
  }

  lemma SyncedMirrors(s: State, next: State, p: string, ks: KeySet)
    requires Mirrored(s)
    requires var with := s.(sets := s.sets[p := ks]);
             next == Synced(with, p) || (next == with && ActiveSecret(ks) == ActiveSecret(KeysOf(s, p)))
    ensures Mirrored(next) && next.sets == s.sets[p := ks]
  {
    forall x
      ensures x in next.legacy <==> x in next.sets && ActiveSecret(next.sets[x]).Some?
      ensures x in next.legacy ==> Some(next.legacy[x]) == ActiveSecret(next.sets[x])
    {
    }
  }

  datatype World = World(memory: State, stored: State)
  datatype Event =
    | Call(p: string, op: Op, now: int, save: Save)
    | Restart(ids: string -> string, now: int)

  function Step(w: World, e: Event): World {
    match e
    case Call(p, op, now, save) =>
      (match Changed(w.memory, p, op, now)
       case None => w
       case Some(next) => World(if save.Reloaded? then w.stored else next, if save.Saved? then next else w.stored))
    case Restart(ids, now) => World(Migrated(w.stored, ids, now), w.stored)
  }

  /** Identifiers of new keys are fresh. */
  predicate Legal(w: World, e: Event) {
    e.Call? && (e.op.Set? || e.op.Start?) ==> Unused(KeysOf(w.memory, e.p), e.op.id)
  }

  function Run(w: World, events: seq<Event>): World
    decreases |events|
  {
    if events == [] then w else Run(Step(w, events[0]), events[1..])
  }

  predicate LegalRun(w: World, events: seq<Event>)
    decreases |events|
  {
    events == [] || (Legal(w, events[0]) && LegalRun(Step(w, events[0]), events[1..]))
  }

  ghost predicate Inv(w: World) {
    Consistent(w.memory) && Consistent(w.stored) && SetsLater(w.stored, w.memory)
  }

  lemma LaterTrans(a: State, b: State, c: State)
    requires SetsLater(a, b) && SetsLater(b, c)
    ensures SetsLater(a, c)
  {
    forall p | p in a.sets
      ensures p in c.sets && Later(a.sets[p], c.sets[p])
    {
      assert Later(a.sets[p], b.sets[p]) && Later(b.sets[p], c.sets[p]);
    }
  }

  /**
   Over every run of calls, failed saves and restarts, each provider has at most one active and one pending key,
   pointers name keys of their status, the legacy map equals the active secrets, and on disk a revoked key stays
   revoked.
   */
  lemma {:induction false} RunKeeps(w: World, events: seq<Event>)
    requires Inv(w) && LegalRun(w, events)
    ensures Inv(Run(w, events)) && SetsLater(w.stored, Run(w, events).stored)
    decreases |events|
  {
    if events != [] {
      var e, v := events[0], Step(w, events[0]);
      StepKeeps(w, e);
      RunKeeps(v, events[1..]);
      LaterTrans(w.stored, v.stored, Run(v, events[1..]).stored);
    }
  }

  lemma StepKeeps(w: World, e: Event)
    requires Inv(w) && Legal(w, e)
    ensures Inv(Step(w, e)) && SetsLater(w.stored, Step(w, e).stored)
  {
    match e
    case Call(p, op, now, save) =>
      if Changed(w.memory, p, op, now).Some? {
        ChangeKeeps(w.memory, p, op, now);
        LaterTrans(w.stored, w.memory, Changed(w.memory, p, op, now).value);
      }
    case Restart(ids, now) => MigrationIsIdle(w.stored, ids, now);
  }
}
