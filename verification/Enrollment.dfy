/** Enrolling the pinned peer: a configuration file and the live peer table kept in step through a journal. */
module Enrollment {
  import opened Bytes
  import opened WireGuardConfig

  /** SHA-256, taken as injective. */
  datatype Digest = Sha256(of: string)

  datatype Journal = Journal(original: string, patched: Digest, manifest: Digest, peerExisted: bool, live: Peers)

  /** What survives a crash: the file, the journal file and the kernel's table. */
  datatype World = World(config: string, pending: Option<Journal>, live: Peers)

  /** The fixed inputs of the helper: the address library, the pinned key and the manifest's digest. */
  datatype Engine = Engine(net: Net, peer: string, manifest: Digest)

  ghost predicate ValidEngine(e: Engine) {
    IsKey(e.peer) && e.net.canonical(CIDR)
  }

  /**
   An outside operation works, reports a failure, or the helper dies; the last two may still have had their effect.
   */
  datatype Fault = Fine | Fails(effect: bool) | Dies(effect: bool)

  datatype Ending = Worked | Refused | Died

  datatype Report = Denied | RollbackFailed | RolledBack | PendingRecovery | PersistenceUnavailable
                  | PersistenceInvalid | WireguardUnavailable | NotEnrolled | Configured

  datatype Result = Result(world: World, ending: Ending, report: Report)

  datatype RollbackFaults = RollbackFaults(
    readConfig: Fault, readLive: Fault, writeConfig: Fault, removePeer: Fault,
    readLiveAgain: Fault, readConfigAgain: Fault, removeJournal: Fault)

  datatype VerifyFaults = VerifyFaults(statJournal: Fault, readConfig: Fault, readLive: Fault)

  datatype Faults = Faults(
    cleanTemps: Fault, statJournal: Fault, readJournal: Fault, recovery: RollbackFaults,
    readConfig: Fault, readLive: Fault, writeJournal: Fault, writeConfig: Fault, setPeer: Fault,
    readConfigBack: Fault, readLiveBack: Fault, undo: RollbackFaults, removeJournal: Fault, verify: VerifyFaults)

  const NO_ROLLBACK_FAULTS := RollbackFaults(Fine, Fine, Fine, Fine, Fine, Fine, Fine)
  const NO_FAULTS := Faults(Fine, Fine, Fine, NO_ROLLBACK_FAULTS, Fine, Fine, Fine, Fine, Fine, Fine, Fine,
                            NO_ROLLBACK_FAULTS, Fine, VerifyFaults(Fine, Fine, Fine))

  function After(f: Fault, w: World, changed: World): World {
    if f.Fine? || f.effect then changed else w
  }

  function Stop(w: World, f: Fault, report: Report): Result
    requires !f.Fine?
  {
    Result(w, if f.Dies? then Died else Refused, report)
  }

  // ----- peer tables

  /** Whether the pinned peer is present with exactly its prefix; None when it or another peer has a claim on it. */
  ghost function Check(e: Engine, peers: Peers): Option<bool> {
    if exists k, i :: k in peers && k != e.peer && 0 <= i < |peers[k]| && e.net.overlaps(peers[k][i], CIDR) then None
    else if e.peer !in peers then Some(false)
    else if peers[e.peer] == [CIDR] then Some(true)
    else None
  }

  /** No other peer has a prefix that overlaps the pinned one, and the pinned peer, if present, has just that one. */
  ghost predicate Free(e: Engine, peers: Peers) {
    && (forall k, i :: k in peers && k != e.peer && 0 <= i < |peers[k]| ==> !e.net.overlaps(peers[k][i], CIDR))
    && (e.peer in peers ==> |peers[e.peer]| == 1 && peers[e.peer][0] == CIDR)
  }

  lemma CheckMeans(e: Engine, peers: Peers)
    ensures Check(e, peers).Some? <==> Free(e, peers)
    ensures Check(e, peers).Some? ==> (Check(e, peers).value <==> e.peer in peers)
  {
  }

  predicate Preserved(before: Peers, after: Peers, key: string) {
    |after| == |before| + 1 && forall k :: k in before && k != key ==> k in after && after[k] == before[k]
  }

  method CheckPeers(e: Engine, peers: Peers) returns (r: Option<bool>)
    ensures r == Check(e, peers)
  {
    var keys := peers.Keys;
    while keys != {}
      invariant keys <= peers.Keys
      invariant forall k, i :: k in peers && k !in keys && k != e.peer && 0 <= i < |peers[k]| ==>
                  !e.net.overlaps(peers[k][i], CIDR)
      decreases |keys|
    {
      var k :| k in keys;
      var i := 0;
      while i < |peers[k]|
        invariant 0 <= i <= |peers[k]|
        invariant k != e.peer ==> forall j :: 0 <= j < i ==> !e.net.overlaps(peers[k][j], CIDR)
      {
        if k != e.peer && e.net.overlaps(peers[k][i], CIDR) {
          return None;
        }
        i := i + 1;
      }
      keys := keys - {k};
    }
    if e.peer in peers && peers[e.peer] != [CIDR] {
      return None;
    }
    return Some(e.peer in peers);
  }

  // ----- the operations on what survives

  ghost function Verify(e: Engine, w: World, f: VerifyFaults): Result {
    if !f.statJournal.Fine? then Stop(w, f.statJournal, NotEnrolled)
    else if w.pending.Some? then Result(w, Refused, NotEnrolled)
    else if !f.readConfig.Fine? then Stop(w, f.readConfig, NotEnrolled)
    else if Persistent(e.net, w.config).None? then Result(w, Refused, NotEnrolled)
    else if !f.readLive.Fine? then Stop(w, f.readLive, NotEnrolled)
    else if Persistent(e.net, w.config).value != w.live || Check(e, w.live) != Some(true)
      then Result(w, Refused, NotEnrolled)
    else Result(w, Worked, Configured)
  }

  ghost function Rollback(e: Engine, w: World, j: Journal, f: RollbackFaults): Result {
    if !f.readConfig.Fine? then Stop(w, f.readConfig, RollbackFailed)
    else if (Sha256(w.config) != Sha256(j.original) && Sha256(w.config) != j.patched) || j.manifest != e.manifest then
      Result(w, Refused, RollbackFailed)
    else if !f.readLive.Fine? then Stop(w, f.readLive, RollbackFailed)
    else if Check(e, w.live).None? then Result(w, Refused, RollbackFailed)
    else
      var w1 := After(f.writeConfig, w, w.(config := j.original));
      if !f.writeConfig.Fine? then Stop(w1, f.writeConfig, RollbackFailed)
      else if !j.peerExisted && Check(e, w.live).value then RemovePeer(e, w1, j, f)
      else RollbackDone(e, w1, j, f)
  }

  ghost function RemovePeer(e: Engine, w: World, j: Journal, f: RollbackFaults): Result {
    var w1 := After(f.removePeer, w, w.(live := w.live - {e.peer}));
    if !f.removePeer.Fine? then Stop(w1, f.removePeer, RollbackFailed) else RollbackDone(e, w1, j, f)
  }

  ghost function RollbackDone(e: Engine, w: World, j: Journal, f: RollbackFaults): Result {
    if !f.readLiveAgain.Fine? then Stop(w, f.readLiveAgain, RollbackFailed)
    else if Check(e, w.live) != Some(j.peerExisted) then Result(w, Refused, RollbackFailed)
    else if !f.readConfigAgain.Fine? then Stop(w, f.readConfigAgain, RollbackFailed)
    else if Sha256(w.config) != Sha256(j.original) || w.live != j.live then Result(w, Refused, RollbackFailed)
    else
      var done := After(f.removeJournal, w, w.(pending := None));
      if f.removeJournal.Fine? then Result(done, Worked, RolledBack) else Stop(done, f.removeJournal, RollbackFailed)
  }

  ghost function Undo(e: Engine, w: World, j: Journal, f: RollbackFaults): Result {
    var r := Rollback(e, w, j, f);
    if r.ending.Worked? then Result(r.world, Refused, RolledBack) else r
  }

  function JournalOf(e: Engine, w: World): Journal {
    Journal(w.config, Sha256(w.config + Block(e.peer)), e.manifest, false, w.live)
  }

  ghost function AddPeer(e: Engine, w: World, f: Faults): Result {
    var j, patched := JournalOf(e, w), w.config + Block(e.peer);
    var w1 := After(f.writeJournal, w, w.(pending := Some(j)));
    if !f.writeJournal.Fine? then Stop(w1, f.writeJournal, Denied)
    else
      var w2 := After(f.writeConfig, w1, w1.(config := patched));
      if f.writeConfig.Dies? then Stop(w2, f.writeConfig, Denied)
      else if f.writeConfig.Fails? then Undo(e, w2, j, f.undo)
      else
        var w3 := After(f.setPeer, w2, w2.(live := w2.live[e.peer := [CIDR]]));
        if f.setPeer.Dies? then Stop(w3, f.setPeer, Denied)
        else if f.setPeer.Fails? then Undo(e, w3, j, f.undo)
        else Confirm(e, w3, j, w.live, f)
  }

  ghost function Confirm(e: Engine, w: World, j: Journal, before: Peers, f: Faults): Result {
    if f.readConfigBack.Dies? then Stop(w, f.readConfigBack, Denied)
    else if f.readLiveBack.Dies? then Stop(w, f.readLiveBack, Denied)
    else if f.readConfigBack.Fails? || Sha256(w.config) != j.patched || f.readLiveBack.Fails?
            || Check(e, w.live) != Some(true) || !Preserved(before, w.live, e.peer) then Undo(e, w, j, f.undo)
    else
      var done := After(f.removeJournal, w, w.(pending := None));
      if f.removeJournal.Fine? then Verify(e, done, f.verify) else Stop(done, f.removeJournal, PendingRecovery)
  }

  ghost function EnrollClean(e: Engine, w: World, f: Faults): Result {
    if !f.readConfig.Fine? then Stop(w, f.readConfig, PersistenceUnavailable)
    else if Persistent(e.net, w.config).None? then Result(w, Refused, PersistenceInvalid)
    else if !f.readLive.Fine? then Stop(w, f.readLive, WireguardUnavailable)
    else
      var p := Persistent(e.net, w.config).value;
      if Check(e, p).None? || Check(e, w.live) != Check(e, p) || p != w.live then Result(w, Refused, Denied)
      else if Check(e, p).value then Verify(e, w, f.verify)
      else AddPeer(e, w, f)
  }

  /** One call of the helper, with every way it can be disturbed. */
  ghost function Enroll(e: Engine, w: World, f: Faults): Result {
    if !f.cleanTemps.Fine? then Stop(w, f.cleanTemps, Denied)
    else if !f.statJournal.Fine? then Stop(w, f.statJournal, Denied)
    else
      match w.pending
      case None => EnrollClean(e, w, f)
      case Some(j) =>
        if !f.readJournal.Fine? then Stop(w, f.readJournal, Denied)
        else
          var r := Rollback(e, w, j, f.recovery);
          if r.ending.Worked? then EnrollClean(e, r.world, f) else r
  }

  // ----- what every call keeps

  /** The text and the table the transaction started from, or the present ones when none is open. */
  function BaseConfig(w: World): string {
    if w.pending.Some? then w.pending.value.original else w.config
  }

  function BaseLive(w: World): Peers {
    if w.pending.Some? then w.pending.value.live else w.live
  }

  /**
   Without a journal, file and kernel agree. With one, the file is the journalled text or that text with the block,
   and the kernel has the journalled table or that table with the pinned peer.
   */
  ghost predicate InStep(e: Engine, w: World) {
    match w.pending
    case None => Persistent(e.net, w.config) == Some(w.live)
    case Some(j) =>
      && j == JournalOf(e, World(j.original, None, j.live))
      && Persistent(e.net, j.original) == Some(j.live) && Check(e, j.live) == Some(false)
      && (w.config == j.original || w.config == j.original + Block(e.peer))
      && (w.live == j.live || w.live == j.live[e.peer := [CIDR]])
  }

  /** From one state to a later one: no other peer changed, and the earlier base text is still there in front. */
  ghost predicate Respects(e: Engine, w: World, later: World) {
    && later.live - {e.peer} == w.live - {e.peer}
    && BaseConfig(w) <= BaseConfig(later) && BaseConfig(w) <= later.config
  }

  lemma CheckAdded(e: Engine, peers: Peers)
    requires Check(e, peers) == Some(false)
    ensures Check(e, peers[e.peer := [CIDR]]) == Some(true)
    ensures peers[e.peer := [CIDR]] - {e.peer} == peers
    ensures Preserved(peers, peers[e.peer := [CIDR]], e.peer)
  {
    var more := peers[e.peer := [CIDR]];
    assert more.Keys == peers.Keys + {e.peer};
    assert forall k :: k in peers ==> more[k] == peers[k];
  }

  /** What a state inside an open transaction keeps relative to the state the transaction started from. */
  ghost predicate Inside(e: Engine, j: Journal, w: World) {
    w.pending == Some(j) && InStep(e, w)
  }

  ghost predicate Settled(e: Engine, j: Journal, w: World) {
    InStep(e, w) && (Inside(e, j, w) || w == World(j.original, None, j.live))
  }

  /** How far a rollback from w may have got. */
  predicate PartWay(w: World, j: Journal, r: World) {
    || r == w || r == w.(config := j.original) || r == w.(config := j.original, live := j.live)
    || r == World(j.original, None, j.live)
  }

  /** What a rollback relies on: a journal of its own, one of its two texts, and one of its two tables. */
  ghost predicate Undoable(e: Engine, w: World, j: Journal) {
    && w.pending == Some(j) && j.manifest == e.manifest && !j.peerExisted
    && (Sha256(w.config) == Sha256(j.original) || Sha256(w.config) == j.patched)
    && Check(e, j.live) == Some(false)
    && (w.live == j.live || (Check(e, w.live) == Some(true) && w.live - {e.peer} == j.live))
  }

  /** The file is neither of the journalled texts, or the journal is of another manifest. */
  predicate Foreign(e: Engine, w: World, j: Journal) {
    (w.config != j.original && Sha256(w.config) != j.patched) || j.manifest != e.manifest
  }

  /**
   Whatever the journal and the state: a file that is neither of the journalled texts, a journal of another manifest or
   a rival claim is refused untouched, and a rollback that works leaves the journalled text and table and no journal.
   */
  lemma RollbackTells(e: Engine, w: World, j: Journal, f: RollbackFaults)
    ensures var r := Rollback(e, w, j, f);
            && (Foreign(e, w, j) || !Free(e, w.live) ==> r.world == w && !r.ending.Worked?)
            && (r.ending.Worked? ==>
                  r.world == World(j.original, None, j.live) && (e.peer in j.live <==> j.peerExisted))
  {
    CheckMeans(e, w.live);
    CheckMeans(e, w.live - {e.peer});
  }

  lemma RollbackDoneGoes(e: Engine, w: World, j: Journal, f: RollbackFaults)
    requires Undoable(e, w, j) && w.config == j.original
    ensures var r := RollbackDone(e, w, j, f);
            && (r.world == w || r.world == World(j.original, None, j.live))
            && (r.ending.Worked? ==> r.world == World(j.original, None, j.live))
            && (f == NO_ROLLBACK_FAULTS && w.live == j.live ==> r.ending.Worked?)
  {
  }

  lemma RollbackGoes(e: Engine, w: World, j: Journal, f: RollbackFaults)
    requires Undoable(e, w, j)
    ensures var r := Rollback(e, w, j, f);
            && PartWay(w, j, r.world)
            && (r.ending.Worked? ==> r.world == World(j.original, None, j.live))
            && (f == NO_ROLLBACK_FAULTS ==> r.ending.Worked?)
  {
    var w1 := w.(config := j.original);
    if w.live == j.live {
      RollbackDoneGoes(e, w1, j, f);
    } else {
      RemovePeerGoes(e, w1, j, f);
    }
  }

  lemma RemovePeerGoes(e: Engine, w: World, j: Journal, f: RollbackFaults)
    requires Undoable(e, w, j) && w.config == j.original && w.live != j.live
    ensures var r := RemovePeer(e, w, j, f);
            && PartWay(w, j, r.world)
            && (r.ending.Worked? ==> r.world == World(j.original, None, j.live))
            && (f == NO_ROLLBACK_FAULTS ==> r.ending.Worked?)
  {
    RollbackDoneGoes(e, w.(live := j.live), j, f);
  }

  lemma InsideIsUndoable(e: Engine, w: World, j: Journal)
    requires Inside(e, j, w)
    ensures Undoable(e, w, j)
    ensures forall r: World :: PartWay(w, j, r) ==> Settled(e, j, r)
  {
    CheckAdded(e, j.live);
  }

  lemma RollbackKeeps(e: Engine, w: World, j: Journal, f: RollbackFaults)
    requires Inside(e, j, w)
    ensures var r := Rollback(e, w, j, f);
            && Settled(e, j, r.world)
            && (r.ending.Worked? ==> r.world == World(j.original, None, j.live))
            && (f == NO_ROLLBACK_FAULTS ==> r.ending.Worked?)
  {
    InsideIsUndoable(e, w, j);
    RollbackGoes(e, w, j, f);
  }

  lemma ConfirmKeeps(e: Engine, w: World, j: Journal, f: Faults)
    requires ValidEngine(e) && Inside(e, j, w)
    requires w.config == j.original + Block(e.peer) && w.live == j.live[e.peer := [CIDR]]
    ensures var r := Confirm(e, w, j, j.live, f);
            && (Settled(e, j, r.world) || r.world == w.(pending := None)) && InStep(e, r.world)
            && (f == NO_FAULTS ==> r.ending.Worked? && r.world == w.(pending := None))
  {
    CheckAdded(e, j.live);
    AppendAddsPeer(e.net, j.original, e.peer);
    RollbackKeeps(e, w, j, f.undo);
    CheckMeans(e, w.live);
    VerifyTells(e, w.(pending := None), f.verify);
    ConfirmGoes(e, w, j, f);
  }

  /** Confirming ends in an undo, before the journal is removed, or in a verification of what was added. */
  lemma ConfirmGoes(e: Engine, w: World, j: Journal, f: Faults)
    ensures var r, done := Confirm(e, w, j, j.live, f), w.(pending := None);
            || r.world == w || r == Undo(e, w, j, f.undo) || r.world == done
    ensures f == NO_FAULTS && Sha256(w.config) == j.patched && Check(e, w.live) == Some(true) ==>
              Preserved(j.live, w.live, e.peer) ==>
                Confirm(e, w, j, j.live, f) == Verify(e, w.(pending := None), f.verify)
  {
  }

  lemma AddPeerKeeps(e: Engine, w: World, f: Faults)
    requires ValidEngine(e) && InStep(e, w) && w.pending.None? && Check(e, w.live) == Some(false)
    ensures var r, j := AddPeer(e, w, f), JournalOf(e, w);
            var added := World(w.config + Block(e.peer), None, w.live[e.peer := [CIDR]]);
            && (Settled(e, j, r.world) || r.world == added) && InStep(e, r.world)
            && (f == NO_FAULTS ==> r.ending.Worked? && r.world == added)
  {
    var j := JournalOf(e, w);
    var w1 := w.(pending := Some(j));
    var w2 := w1.(config := w.config + Block(e.peer));
    var w3 := w2.(live := w.live[e.peer := [CIDR]]);
    assert Inside(e, j, w1) && Inside(e, j, w2) && Inside(e, j, w3);
    RollbackKeeps(e, After(f.writeConfig, w1, w2), j, f.undo);
    RollbackKeeps(e, After(f.setPeer, w2, w3), j, f.undo);
    ConfirmKeeps(e, w3, j, f);
  }

  /** Inside or after a transaction, other peers and the base text are respected. */
  lemma SettledRespects(e: Engine, w: World, j: Journal, later: World)
    requires j.original == BaseConfig(w) && j.live == BaseLive(w) && InStep(e, w)
    requires Settled(e, j, later)
    ensures Respects(e, w, later)
  {
    assert j.live[e.peer := [CIDR]] - {e.peer} == j.live - {e.peer};
    assert j.original <= j.original + Block(e.peer);
  }

  /** Whatever goes wrong during a call, file, journal and kernel stay in step and other peers are untouched. */
  lemma EnrollKeepsInStep(e: Engine, w: World, f: Faults)
    requires ValidEngine(e) && InStep(e, w)
    ensures InStep(e, Enroll(e, w, f).world) && Respects(e, w, Enroll(e, w, f).world)
  {
    var clean := World(BaseConfig(w), None, BaseLive(w));
    if w.pending.Some? {
      var j := w.pending.value;
      RollbackKeeps(e, w, j, f.recovery);
      SettledRespects(e, w, j, Rollback(e, w, j, f.recovery).world);
      SettledRespects(e, w, j, w);
    } else {
      SettledRespects(e, w, JournalOf(e, w), w);
    }
    CleanKeeps(e, w, clean, f);
  }

  lemma CleanAddsOrStays(e: Engine, w: World, f: Faults)
    ensures var r := EnrollClean(e, w, f); r.world == w || (Check(e, w.live) == Some(false) && r == AddPeer(e, w, f))
  {
  }

  lemma CleanKeeps(e: Engine, w: World, clean: World, f: Faults)
    requires ValidEngine(e) && InStep(e, w) && clean == World(BaseConfig(w), None, BaseLive(w))
    ensures InStep(e, EnrollClean(e, clean, f).world) && Respects(e, w, EnrollClean(e, clean, f).world)
  {
    SettledRespects(e, w, JournalOf(e, clean), clean);
    CleanAddsOrStays(e, clean, f);
    if Check(e, clean.live) == Some(false) {
      AddPeerKeeps(e, clean, f);
      var later := AddPeer(e, clean, f).world;
      if Settled(e, JournalOf(e, clean), later) {
        SettledRespects(e, w, JournalOf(e, clean), later);
      } else {
        AddedRespects(e, w, clean, later);
      }
    }
  }

  lemma AddedRespects(e: Engine, w: World, clean: World, later: World)
    requires Respects(e, w, clean) && clean.pending.None?
    requires later == World(clean.config + Block(e.peer), None, clean.live[e.peer := [CIDR]])
    ensures Respects(e, w, later)
  {
    assert later.live - {e.peer} == clean.live - {e.peer};
    assert clean.config <= later.config;
  }

  /** Any number of calls, each with its own faults. */
  ghost function Runs(e: Engine, w: World, calls: seq<Faults>): World {
    if calls == [] then w else Enroll(e, Runs(e, w, calls[..|calls| - 1]), calls[|calls| - 1]).world
  }

  /** Over every run: in step at every point, all other peers as at the start, the first base text still in front. */
  lemma {:induction false} RunsStayInStep(e: Engine, w: World, calls: seq<Faults>)
    requires ValidEngine(e) && InStep(e, w)
    ensures InStep(e, Runs(e, w, calls)) && Respects(e, w, Runs(e, w, calls))
  {
    if calls == [] {
      assert BaseConfig(w) <= w.config;
    } else {
      RunsStayInStep(e, w, calls[..|calls| - 1]);
      EnrollKeepsInStep(e, Runs(e, w, calls[..|calls| - 1]), calls[|calls| - 1]);
    }
  }

  /** The pinned peer is in the file and in the kernel, with its prefix and no rival, and nothing is open. */
  ghost predicate Enrolled(e: Engine, w: World) {
    w.pending.None? && Persistent(e.net, w.config) == Some(w.live) && e.peer in w.live && Free(e, w.live)
  }

  /**
   From any state a disturbed run can leave, one undisturbed call enrols the peer, keeping the base text in front
   and all other peers, exactly when no other peer has a claim on the pinned prefix; otherwise it refuses.
   */
  lemma UndisturbedEnrolls(e: Engine, w: World)
    requires ValidEngine(e) && InStep(e, w)
    ensures var r := Enroll(e, w, NO_FAULTS);
            && (r.ending.Worked? <==> Free(e, BaseLive(w)))
            && (r.ending.Worked? ==>
                  && r.report == Configured && Enrolled(e, r.world)
                  && r.world.live == BaseLive(w)[e.peer := [CIDR]]
                  && r.world.config == if e.peer in BaseLive(w) then BaseConfig(w) else BaseConfig(w) + Block(e.peer))
            && (!r.ending.Worked? ==> r.ending.Refused? && r.world == w)
  {
    var clean := World(BaseConfig(w), None, BaseLive(w));
    CheckMeans(e, clean.live);
    if w.pending.Some? {
      RollbackKeeps(e, w, w.pending.value, NO_ROLLBACK_FAULTS);
    }
    if Check(e, clean.live) == Some(false) {
      AddPeerKeeps(e, clean, NO_FAULTS);
      CheckAdded(e, clean.live);
      CheckMeans(e, clean.live[e.peer := [CIDR]]);
      AppendAddsPeer(e.net, clean.config, e.peer);
    }
  }

  /** Verification succeeds exactly when the peer is enrolled. */
  lemma VerifyTells(e: Engine, w: World, f: VerifyFaults)
    ensures Verify(e, w, f).world == w && (Verify(e, w, f).ending.Worked? ==> Enrolled(e, w))
    ensures f == VerifyFaults(Fine, Fine, Fine) ==> (Verify(e, w, f).ending.Worked? <==> Enrolled(e, w))
  {
    CheckMeans(e, w.live);
  }

  /**
   Without an open transaction a call that finds an unreadable file, a file and a kernel that differ, or a rival claim
   on the prefix changes nothing and does not work.
   */
  lemma OutOfStepRefused(e: Engine, w: World, f: Faults)
    requires w.pending.None? && (Persistent(e.net, w.config) != Some(w.live) || !Free(e, w.live))
    ensures Enroll(e, w, f).world == w && !Enroll(e, w, f).ending.Worked?
  {
    CheckMeans(e, w.live);
  }

  /** Once enrolled, a call changes nothing, whatever happens to it. */
  lemma EnrolledIsStable(e: Engine, w: World, f: Faults)
    requires Enrolled(e, w)
    ensures Enroll(e, w, f).world == w
  {
    CheckMeans(e, w.live);
  }

  /** Any run, then one undisturbed call, then any further run. */
  lemma {:induction false} EventuallyEnrolled(e: Engine, w: World, before: seq<Faults>, later: seq<Faults>)
    requires ValidEngine(e) && InStep(e, w) && Free(e, BaseLive(Runs(e, w, before)))
    ensures var end := Runs(e, Enroll(e, Runs(e, w, before), NO_FAULTS).world, later);
            && Enrolled(e, end) && end.live - {e.peer} == w.live - {e.peer} && BaseConfig(w) <= end.config
    decreases |later|
  {
    var mid := Runs(e, w, before);
    RunsStayInStep(e, w, before);
    UndisturbedEnrolls(e, mid);
    EnrollKeepsInStep(e, mid, NO_FAULTS);
    var done := Enroll(e, mid, NO_FAULTS).world;
    if later != [] {
      EventuallyEnrolled(e, w, before, later[..|later| - 1]);
      EnrolledIsStable(e, Runs(e, done, later[..|later| - 1]), later[|later| - 1]);
    }
  }

  // ----- the helper itself

  function EndingOf(f: Fault): Ending
    requires !f.Fine?
  {
    if f.Dies? then Died else Refused
  }

  /** The privileged helper. Each call says how it ended; its state is what survives. */
  class Helper {
    const e: Engine
    var config: string
    var pending: Option<Journal>
    var live: Peers

    constructor (engine: Engine, text: string, peers: Peers)
      ensures e == engine && State() == World(text, None, peers)
    {
      e, config, pending, live := engine, text, None, peers;
    }

    function State(): World
      reads this
    {
      World(config, pending, live)
    }

    method Verified(f: VerifyFaults) returns (ending: Ending, report: Report)
      ensures Result(State(), ending, report) == Verify(e, State(), f)
    {
      report := NotEnrolled;
      if !f.statJournal.Fine? {
        return EndingOf(f.statJournal), report;
      }
      if pending.Some? {
        return Refused, report;
      }
      if !f.readConfig.Fine? {
        return EndingOf(f.readConfig), report;
      }
      var p := ReadConfig(e.net, config);
      if p.None? {
        return Refused, report;
      }
      if !f.readLive.Fine? {
        return EndingOf(f.readLive), report;
      }
      if p.value != live {
        return Refused, report;
      }
      var pOk := CheckPeers(e, p.value);
      var aOk := CheckPeers(e, live);
      if pOk != Some(true) || aOk != Some(true) {
        return Refused, report;
      }
      return Worked, Configured;
    }

    method RolledBackFrom(j: Journal, f: RollbackFaults) returns (ending: Ending)
      modifies this
      ensures ending == Rollback(e, old(State()), j, f).ending && State() == Rollback(e, old(State()), j, f).world
    {
      if !f.readConfig.Fine? {
        return EndingOf(f.readConfig);
      }
      if (Sha256(config) != Sha256(j.original) && Sha256(config) != j.patched) || j.manifest != e.manifest {
        return Refused;
      }
      if !f.readLive.Fine? {
        return EndingOf(f.readLive);
      }
      var exists0 := CheckPeers(e, live);
      if exists0.None? {
        return Refused;
      }
      if f.writeConfig.Fine? || f.writeConfig.effect {
        config := j.original;
      }
      if !f.writeConfig.Fine? {
        return EndingOf(f.writeConfig);
      }
      if !j.peerExisted && exists0.value {
        if f.removePeer.Fine? || f.removePeer.effect {
          live := live - {e.peer};
        }
        if !f.removePeer.Fine? {
          return EndingOf(f.removePeer);
        }
      }
      if !f.readLiveAgain.Fine? {
        return EndingOf(f.readLiveAgain);
      }
      exists0 := CheckPeers(e, live);
      if exists0 != Some(j.peerExisted) {
        return Refused;
      }
      if !f.readConfigAgain.Fine? {
        return EndingOf(f.readConfigAgain);
      }
      if Sha256(config) != Sha256(j.original) || live != j.live {
        return Refused;
      }
      if f.removeJournal.Fine? || f.removeJournal.effect {
        pending := None;
      }
      return if f.removeJournal.Fine? then Worked else EndingOf(f.removeJournal);
    }

    method Undone(j: Journal, f: RollbackFaults) returns (ending: Ending, report: Report)
      modifies this
      ensures Result(State(), ending, report) == Undo(e, old(State()), j, f)
    {
      ending := RolledBackFrom(j, f);
      if ending.Worked? {
        return Refused, RolledBack;
      }
      return ending, RollbackFailed;
    }

    method Enrol(f: Faults) returns (ending: Ending, report: Report)
      modifies this
      ensures Result(State(), ending, report) == Enroll(e, old(State()), f)
    {
      if !f.cleanTemps.Fine? {
        return EndingOf(f.cleanTemps), Denied;
      }
      if !f.statJournal.Fine? {
        return EndingOf(f.statJournal), Denied;
      }
      if pending.Some? {
        if !f.readJournal.Fine? {
          return EndingOf(f.readJournal), Denied;
        }
        ending := RolledBackFrom(pending.value, f.recovery);
        if !ending.Worked? {
          return ending, RollbackFailed;
        }
      }
      if !f.readConfig.Fine? {
        return EndingOf(f.readConfig), PersistenceUnavailable;
      }
      var p := ReadConfig(e.net, config);
      if p.None? {
        return Refused, PersistenceInvalid;
      }
      if !f.readLive.Fine? {
        return EndingOf(f.readLive), WireguardUnavailable;
      }
      var pOk := CheckPeers(e, p.value);
      if pOk.None? {
        return Refused, Denied;
      }
      var aOk := CheckPeers(e, live);
      if aOk.None? || pOk != aOk || p.value != live {
        return Refused, Denied;
      }
      if pOk.value {
        ending, report := Verified(f.verify);
        return;
      }
      ending, report := Added(f);
    }

    /** Journal, file, kernel, check, and the journal removed, in this order. */
    method Added(f: Faults) returns (ending: Ending, report: Report)
      modifies this
      ensures Result(State(), ending, report) == AddPeer(e, old(State()), f)
    {
      var before := live;
      var patched := config + Block(e.peer);
      var j := Journal(config, Sha256(patched), e.manifest, false, live);
      if f.writeJournal.Fine? || f.writeJournal.effect {
        pending := Some(j);
      }
      if !f.writeJournal.Fine? {
        return EndingOf(f.writeJournal), Denied;
      }
      if f.writeConfig.Fine? || f.writeConfig.effect {
        config := patched;
      }
      if f.writeConfig.Dies? {
        return Died, Denied;
      }
      if f.writeConfig.Fails? {
        ending, report := Undone(j, f.undo);
        return;
      }
      if f.setPeer.Fine? || f.setPeer.effect {
        live := live[e.peer := [CIDR]];
      }
      if f.setPeer.Dies? {
        return Died, Denied;
      }
      if f.setPeer.Fails? {
        ending, report := Undone(j, f.undo);
        return;
      }
      if f.readConfigBack.Dies? || f.readLiveBack.Dies? {
        return Died, Denied;
      }
      var ok := CheckPeers(e, live);
      if f.readConfigBack.Fails? || Sha256(config) != Sha256(patched) || f.readLiveBack.Fails? || ok != Some(true)
         || !Preserved(before, live, e.peer)
      {
        ending, report := Undone(j, f.undo);
        return;
      }
      if f.removeJournal.Fine? || f.removeJournal.effect {
        pending := None;
      }
      if !f.removeJournal.Fine? {
        return EndingOf(f.removeJournal), PendingRecovery;
      }
      ending, report := Verified(f.verify);
    }
  }
}
