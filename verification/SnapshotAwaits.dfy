/**
 * push and applyRemote across their awaits (packages/core/src/snapshot-codec.ts): calls on one codec may
 * overlap. push reads seq and prev, awaits the encoding and the hash, and only then stores the block and
 * advances both; applyRemote awaits the block and its decryption before it adopts the block.
 *
 * A run is any interleaving of the begins and ends of calls by any number of peers. A call is identified
 * by the step at which it began.
 */
module SnapshotAwaits {
  import opened Options
  import opened SnapshotChain

  datatype Draft = Draft(peer: nat, block: Block)
  datatype Pending = Pending(peer: nat, cid: Cid)

  /** clock counts the steps; drafts and applies are the calls begun and not yet ended. */
  datatype AWorld = AWorld(
    store: Store, peers: map<nat, Peer>, drafts: map<nat, Draft>, applies: map<nat, Pending>, clock: nat)

  datatype AStep =
    | Enter(peer: nat)
    | BeginPush(peer: nat, payload: string)
    | CommitPush(id: nat, clockSum: int)
    | AbandonPush(id: nat)                // encoding or hashing throws
    | BeginApply(peer: nat, cid: Cid)
    | EndApply(id: nat, applied: bool)    // not applied: the block was not found, or decryption threw
    | SetClock(peer: nat, clock: int)

  /** One step, without the clock; a step that is not enabled changes nothing. */
  function Effect(w: AWorld, a: AStep, hash: Block -> Cid): AWorld {
    match a
    case Enter(i) => if i in w.peers then w else w.(peers := w.peers[i := INITIAL_PEER])
    case BeginPush(i, payload) =>
      if i !in w.peers then w else w.(drafts := w.drafts[w.clock := Draft(i, PushedBlock(w.peers[i], payload))])
    case CommitPush(id, clockSum) =>
      if id !in w.drafts || w.drafts[id].peer !in w.peers then w else
      var i, block := w.drafts[id].peer, w.drafts[id].block;
      w.(store := w.store[hash(block) := block],
         peers := w.peers[i := Committed(w.peers[i], hash(block), clockSum)],
         drafts := w.drafts - {id})
    case AbandonPush(id) => w.(drafts := w.drafts - {id})
    case BeginApply(i, cid) =>
      if i !in w.peers || w.peers[i].lastApplied == Some(cid) then w
      else w.(applies := w.applies[w.clock := Pending(i, cid)])
    case EndApply(id, applied) =>
      if id !in w.applies || w.applies[id].peer !in w.peers then w else
      var i, cid := w.applies[id].peer, w.applies[id].cid;
      var peers := if applied && cid in w.store then w.peers[i := Adopted(w.peers[i], cid, w.store[cid])] else w.peers;
      w.(peers := peers, applies := w.applies - {id})
    case SetClock(i, clock) =>
      if i !in w.peers then w else w.(peers := w.peers[i := w.peers[i].(lastIpnsSeq := Some(clock))])
  }

  function Act(w: AWorld, a: AStep, hash: Block -> Cid): AWorld {
    Effect(w, a, hash).(clock := w.clock + 1)
  }

  function Run(steps: seq<AStep>, hash: Block -> Cid): AWorld {
    if steps == [] then AWorld(map[], map[], map[], map[], 0)
    else Act(Run(steps[..|steps| - 1], hash), steps[|steps| - 1], hash)
  }

  // ---- What moves a peer ----

  /** The step commits a push of peer i, or ends an application of a block that is not older than its seq. */
  predicate Moves(w: AWorld, a: AStep, i: nat) {
    match a
    case CommitPush(id, _) => id in w.drafts && w.drafts[id].peer == i && i in w.peers
    case EndApply(id, applied) =>
      && id in w.applies && w.applies[id].peer == i && i in w.peers && applied && w.applies[id].cid in w.store
      && w.store[w.applies[id].cid].seqNo >= w.peers[i].seqNo
    case _ => false
  }

  /** No step from m up to n moves peer i. */
  ghost predicate Quiet(steps: seq<AStep>, m: nat, n: nat, i: nat, hash: Block -> Cid)
    requires m <= n <= |steps|
  {
    forall k | m <= k < n :: !Moves(Run(steps[..k], hash), steps[k], i)
  }

  /** The step commits a push, and since that push began its peer has moved. */
  ghost predicate Disturbed(steps: seq<AStep>, n: nat, hash: Block -> Cid)
    requires n < |steps|
  {
    var w := Run(steps[..n], hash);
    && steps[n].CommitPush? && steps[n].id in w.drafts && steps[n].id <= n
    && !Quiet(steps, steps[n].id, n, w.drafts[steps[n].id].peer, hash)
  }

  /** The last step that moved peer i committed a disturbed push. */
  ghost predicate Skewed(steps: seq<AStep>, i: nat, hash: Block -> Cid) {
    if steps == [] then false else
    var n := |steps| - 1;
    if Moves(Run(steps[..n], hash), steps[n], i) then Disturbed(steps, n, hash) else Skewed(steps[..n], i, hash)
  }

  // ---- Invariants of every run ----

  ghost predicate Addressed(store: Store, hash: Block -> Cid) {
    forall c | c in store :: hash(store[c]) == c
  }

  /** Parents are stored: of stored blocks, of drafts, and of the block a peer would push next. */
  ghost predicate Rooted(store: Store, prev: Option<Cid>) {
    prev.Some? ==> prev.value in store
  }

  ghost predicate AWorldOk(w: AWorld, hash: Block -> Cid) {
    && Addressed(w.store, hash)
    && (forall c | c in w.store :: Rooted(w.store, w.store[c].prev))
    && (forall i | i in w.peers :: Rooted(w.store, w.peers[i].prev))
    && (forall id | id in w.drafts ::
          id < w.clock && w.drafts[id].peer in w.peers && Rooted(w.store, w.drafts[id].block.prev))
    && (forall id | id in w.applies :: id < w.clock && w.applies[id].peer in w.peers)
  }

  /** The store only grows, and no block is replaced. */
  ghost predicate Grows(store: Store, store': Store) {
    forall c | c in store :: c in store' && store'[c] == store[c]
  }

  lemma ActOk(w: AWorld, a: AStep, hash: Block -> Cid)
    requires Injective(hash) && AWorldOk(w, hash)
    ensures AWorldOk(Act(w, a, hash), hash) && Grows(w.store, Act(w, a, hash).store)
    ensures forall i | i in w.peers :: i in Act(w, a, hash).peers
  {
    hide Addressed;
    if a.CommitPush? {
      if a.id in w.drafts {
        CommitOk(w, a.id, a.clockSum, hash);
      }
    } else {
      StoreAfter(w, a, hash);
      OtherActOk(w, a, hash);
    }
  }

  lemma CommitOk(w: AWorld, id: nat, clockSum: int, hash: Block -> Cid)
    requires Injective(hash) && AWorldOk(w, hash) && id in w.drafts
    ensures var w' := Act(w, CommitPush(id, clockSum), hash);
      AWorldOk(w', hash) && Grows(w.store, w'.store) && w.peers.Keys <= w'.peers.Keys
  {
    hide Addressed;
    var d := w.drafts[id];
    AddressedGrows(w.store, d.block, hash);
    var store' := w.store[hash(d.block) := d.block];
    assert forall prev | Rooted(w.store, prev) :: Rooted(store', prev);
  }

  lemma OtherActOk(w: AWorld, a: AStep, hash: Block -> Cid)
    requires AWorldOk(w, hash) && !a.CommitPush? && Act(w, a, hash).store == w.store
    ensures AWorldOk(Act(w, a, hash), hash) && w.peers.Keys <= Act(w, a, hash).peers.Keys
  {
    hide Addressed, Rooted;
    RootedFacts(w.store);
  }

  lemma RootedFacts(store: Store)
    ensures Rooted(store, None) && forall c | c in store :: Rooted(store, Some(c))
  {
  }

  /** Only a commit changes the store. */
  lemma StoreAfter(w: AWorld, a: AStep, hash: Block -> Cid)
    requires !(a.CommitPush? && a.id in w.drafts)
    ensures Act(w, a, hash).store == w.store
  {
  }

  /** Only a begin opens a draft. */
  lemma DraftsAfter(w: AWorld, a: AStep, id: nat, hash: Block -> Cid)
    requires id in Act(w, a, hash).drafts
    ensures || (id in w.drafts && Act(w, a, hash).drafts[id] == w.drafts[id])
            || (id == w.clock && a.BeginPush? && a.peer in w.peers
                && Act(w, a, hash).drafts[id] == Draft(a.peer, PushedBlock(w.peers[a.peer], a.payload)))
  {
  }

  /** A new peer, and one that has adopted a block, are linked. */
  lemma LinkedAfter(w: AWorld, a: AStep, i: nat, hash: Block -> Cid)
    requires i in Act(w, a, hash).peers
    ensures i !in w.peers || (Moves(w, a, i) && a.EndApply?) ==>
      PeerOk(Act(w, a, hash).store, Act(w, a, hash).peers[i])
  {
  }

  lemma AddressedGrows(store: Store, b: Block, hash: Block -> Cid)
    requires Injective(hash) && Addressed(store, hash)
    ensures Addressed(store[hash(b) := b], hash) && Grows(store, store[hash(b) := b])
  {
    forall c | c in store ensures store[hash(b) := b][c] == store[c] {
      if c == hash(b) {
        assert hash(store[c]) == hash(b);
      }
    }
  }

  lemma {:induction false} RunAWorldOk(steps: seq<AStep>, hash: Block -> Cid)
    requires Injective(hash)
    ensures AWorldOk(Run(steps, hash), hash) && Run(steps, hash).clock == |steps|
  {
    hide AWorldOk, Effect;
    if steps == [] {
      EmptyOk(hash);
    } else {
      RunAWorldOk(steps[..|steps| - 1], hash);
      ActOk(Run(steps[..|steps| - 1], hash), steps[|steps| - 1], hash);
    }
  }

  lemma EmptyOk(hash: Block -> Cid)
    ensures AWorldOk(AWorld(map[], map[], map[], map[], 0), hash)
  {
  }

  /** A step advances the seq of a peer exactly when it moves it, and otherwise leaves prev and seq alone. */
  lemma ActSeq(w: AWorld, a: AStep, i: nat, hash: Block -> Cid)
    requires i in w.peers
    ensures i in Act(w, a, hash).peers
    ensures Moves(w, a, i) ==> Act(w, a, hash).peers[i].seqNo > w.peers[i].seqNo
    ensures !Moves(w, a, i) ==>
      Act(w, a, hash).peers[i].seqNo == w.peers[i].seqNo && Act(w, a, hash).peers[i].prev == w.peers[i].prev
  {
  }

  /** From step m on the seq of a peer has stayed what it was exactly when nothing moved the peer. */
  lemma {:induction false} SeqSince(steps: seq<AStep>, m: nat, i: nat, hash: Block -> Cid)
    requires m <= |steps| && i in Run(steps[..m], hash).peers
    ensures i in Run(steps, hash).peers
    ensures Run(steps, hash).peers[i].seqNo >= Run(steps[..m], hash).peers[i].seqNo
    ensures Run(steps, hash).peers[i].seqNo == Run(steps[..m], hash).peers[i].seqNo
        <==> Quiet(steps, m, |steps|, i, hash)
    decreases |steps|
  {
    hide Act, Moves;
    if m == |steps| {
      assert steps[..m] == steps;
    } else {
      var n := |steps| - 1;
      assert steps[..n][..m] == steps[..m];
      SeqSince(steps[..n], m, i, hash);
      ActSeq(Run(steps[..n], hash), steps[n], i, hash);
      QuietPrefix(steps, n, m, n, i, hash);
    }
  }

  lemma QuietPrefix(steps: seq<AStep>, len: nat, m: nat, n: nat, i: nat, hash: Block -> Cid)
    requires m <= n <= len <= |steps|
    ensures Quiet(steps[..len], m, n, i, hash) <==> Quiet(steps, m, n, i, hash)
  {
    forall k | m <= k < n
      ensures Moves(Run(steps[..len][..k], hash), steps[..len][k], i) <==> Moves(Run(steps[..k], hash), steps[k], i)
    {
      assert steps[..len][..k] == steps[..k];
    }
  }

  /** An open draft is the block its peer would have pushed at the step at which the push began. */
  lemma {:induction false} DraftBegun(steps: seq<AStep>, id: nat, hash: Block -> Cid)
    requires id in Run(steps, hash).drafts && Injective(hash)
    ensures id < |steps|
    ensures var w, d := Run(steps[..id], hash), Run(steps, hash).drafts[id];
      && d.peer in w.peers && steps[id] == BeginPush(d.peer, d.block.payload)
      && d.block.prev == w.peers[d.peer].prev && d.block.seqNo == w.peers[d.peer].seqNo
    decreases |steps|
  {
    hide Act, AWorldOk;
    var n := |steps| - 1;
    var before := steps[..n];
    RunAWorldOk(before, hash);
    DraftsAfter(Run(before, hash), steps[n], id, hash);
    if id in Run(before, hash).drafts {
      DraftBegun(before, id, hash);
      assert before[..id] == steps[..id];
    }
  }

  /** A push that has been committed or abandoned is over: it is never open again, so nothing more of it is stored. */
  lemma {:induction false} EndedPushIsOver(steps: seq<AStep>, n: nat, id: nat, hash: Block -> Cid)
    requires Injective(hash) && id < n < |steps|
    requires steps[n] == AbandonPush(id) || (steps[n].CommitPush? && steps[n].id == id)
    ensures id !in Run(steps, hash).drafts
    decreases |steps|
  {
    hide Act, AWorldOk;
    var k := |steps| - 1;
    RunAWorldOk(steps[..k], hash);
    ClockCounts(steps[..k], hash);
    EndsDraft(Run(steps[..k], hash), steps[k], id, hash);
    if n < k {
      EndedPushIsOver(steps[..k], n, id, hash);
    }
  }

  lemma {:induction false} ClockCounts(steps: seq<AStep>, hash: Block -> Cid)
    ensures Run(steps, hash).clock == |steps|
  {
    if steps != [] {
      ClockCounts(steps[..|steps| - 1], hash);
    }
  }

  lemma EndsDraft(w: AWorld, a: AStep, id: nat, hash: Block -> Cid)
    requires AWorldOk(w, hash) && id < w.clock
    ensures id !in w.drafts || a == AbandonPush(id) || (a.CommitPush? && a.id == id) ==> id !in Act(w, a, hash).drafts
  {
    hide Addressed;
  }

  // ---- What a peer and the store remember ----

  /** The CID of the last push committed, or application completed, by the peer, in the order of their ends. */
  function LastEnded(steps: seq<AStep>, i: nat, hash: Block -> Cid): Option<Cid> {
    if steps == [] then None else
    var before, a := steps[..|steps| - 1], steps[|steps| - 1];
    var w := Run(before, hash);
    match a
    case CommitPush(id, _) =>
      if id in w.drafts && w.drafts[id].peer == i && i in w.peers then Some(hash(w.drafts[id].block))
      else LastEnded(before, i, hash)
    case EndApply(id, applied) =>
      if id in w.applies && w.applies[id].peer == i && i in w.peers && applied && w.applies[id].cid in w.store
      then Some(w.applies[id].cid) else LastEnded(before, i, hash)
    case _ => LastEnded(before, i, hash)
  }

  function Remembered(w: AWorld, i: nat): Option<Cid> {
    if i in w.peers then w.peers[i].lastApplied else None
  }

  lemma RememberedAfter(w: AWorld, a: AStep, i: nat, hash: Block -> Cid)
    ensures Remembered(Act(w, a, hash), i)
         == match a
            case CommitPush(id, _) =>
              if id in w.drafts && w.drafts[id].peer == i && i in w.peers then Some(hash(w.drafts[id].block))
              else Remembered(w, i)
            case EndApply(id, applied) =>
              if id in w.applies && w.applies[id].peer == i && i in w.peers && applied && w.applies[id].cid in w.store
              then Some(w.applies[id].cid) else Remembered(w, i)
            case _ => Remembered(w, i)
  {
  }

  lemma {:induction false} PeerRemembers(steps: seq<AStep>, i: nat, hash: Block -> Cid)
    ensures i in Run(steps, hash).peers ==> Run(steps, hash).peers[i].lastApplied == LastEnded(steps, i, hash)
    ensures i !in Run(steps, hash).peers ==> LastEnded(steps, i, hash) == None
  {
    hide Act;
    if steps != [] {
      var before := steps[..|steps| - 1];
      PeerRemembers(before, i, hash);
      RememberedAfter(Run(before, hash), steps[|steps| - 1], i, hash);
    }
  }

  /** An application is skipped at its begin exactly for that CID; it opens in every other case. */
  lemma BeginSkipsLast(steps: seq<AStep>, i: nat, cid: Cid, hash: Block -> Cid)
    requires i in Run(steps, hash).peers
    ensures var w, w' := Run(steps, hash), Run(steps + [BeginApply(i, cid)], hash);
      w' == w.(clock := w.clock + 1,
               applies := if LastEnded(steps, i, hash) == Some(cid) then w.applies
                          else w.applies[w.clock := Pending(i, cid)])
  {
    PeerRemembers(steps, i, hash);
    assert (steps + [BeginApply(i, cid)])[..|steps|] == steps;
  }

  /** The n-th step commits this block, which its peer began to push with this payload. */
  ghost predicate Commits(steps: seq<AStep>, n: nat, b: Block, hash: Block -> Cid) {
    && n < |steps| && steps[n].CommitPush?
    && var w := Run(steps[..n], hash);
       steps[n].id in w.drafts && w.drafts[steps[n].id].peer in w.peers && w.drafts[steps[n].id].block == b
  }

  /** The store holds exactly the committed blocks, each under its hash. */
  lemma {:induction false} StoreIsCommits(steps: seq<AStep>, b: Block, hash: Block -> Cid)
    requires Injective(hash)
    ensures hash(b) in Run(steps, hash).store && Run(steps, hash).store[hash(b)] == b
        <==> exists n: nat :: Commits(steps, n, b, hash)
  {
    hide Run, Act, AWorldOk;
    if steps == [] {
      NothingStored(hash);
    } else {
      var n := |steps| - 1;
      var before, a := steps[..n], steps[n];
      var w := Run(before, hash);
      StoreIsCommits(before, b, hash);
      assert steps[..n + 1] == steps;
      RunStep(steps, n, hash);
      RunAWorldOk(before, hash);
      WorldSays(w, hash);
      forall k: nat | k < n ensures Commits(steps, k, b, hash) <==> Commits(before, k, b, hash) {
        assert before[..k] == steps[..k];
      }
      if a.CommitPush? && a.id in w.drafts {
        CommitStore(w, a, hash);
        assert hash(b) == hash(w.drafts[a.id].block) ==> b == w.drafts[a.id].block;
        assert Commits(steps, n, w.drafts[a.id].block, hash);
      } else {
        StoreAfter(w, a, hash);
      }
    }
  }

  lemma NothingStored(hash: Block -> Cid)
    ensures Run([], hash).store == map[]
  {
  }

  lemma WorldSays(w: AWorld, hash: Block -> Cid)
    requires AWorldOk(w, hash)
    ensures forall id | id in w.drafts :: w.drafts[id].peer in w.peers
  {
  }

  // ---- The block after a push ----

  lemma CommitLinks(w: AWorld, id: nat, clockSum: int, hash: Block -> Cid)
    requires id in w.drafts && w.drafts[id].peer in w.peers
    ensures var i := w.drafts[id].peer; var w' := Act(w, CommitPush(id, clockSum), hash);
      i in w'.peers && (PeerOk(w'.store, w'.peers[i]) <==> w.peers[i].seqNo == w.drafts[id].block.seqNo)
  {
  }

  /**
   * After a push commits, the block that its peer would push next follows its parent exactly when nothing
   * moved the peer while the push was under way: no other push of it committed, and no block that is not
   * older was applied to it.
   */
  lemma NextFollowsIffQuiet(steps: seq<AStep>, id: nat, clockSum: int, hash: Block -> Cid)
    requires Injective(hash) && id in Run(steps, hash).drafts
    ensures id < |steps|
    ensures var i := Run(steps, hash).drafts[id].peer;
      var w' := Run(steps + [CommitPush(id, clockSum)], hash);
      i in w'.peers && (PeerOk(w'.store, w'.peers[i]) <==> Quiet(steps, id, |steps|, i, hash))
  {
    hide Act, PeerOk, Quiet;
    RunAWorldOk(steps, hash);
    DraftBegun(steps, id, hash);
    SeqSince(steps, id, Run(steps, hash).drafts[id].peer, hash);
    CommitLinks(Run(steps, hash), id, clockSum, hash);
    assert (steps + [CommitPush(id, clockSum)])[..|steps|] == steps;
  }

  /** The rest of a push and, right after it, a whole push by the same peer, when the steps so far number n. */
  function ThenPushAgain(id: nat, clockSum: int, i: nat, payload: string, n: nat): seq<AStep> {
    [CommitPush(id, clockSum), BeginPush(i, payload), CommitPush(n + 1, clockSum)]
  }

  /**
   * The block pushed next follows its parent exactly when the push before it was not disturbed: between
   * its begin and its commit its peer committed no other push and adopted no remote block.
   */
  lemma NextBlockLinkedIffQuiet(steps: seq<AStep>, id: nat, clockSum: int, payload: string, hash: Block -> Cid)
    requires Injective(hash) && id in Run(steps, hash).drafts
    ensures id < |steps|
    ensures var i := Run(steps, hash).drafts[id].peer;
      var store := Run(steps + ThenPushAgain(id, clockSum, i, payload, |steps|), hash).store;
      var w := Run(steps + [CommitPush(id, clockSum)], hash);
      && i in w.peers
      && var block := PushedBlock(w.peers[i], payload);
         && hash(block) in store && store[hash(block)] == block
         && (LinkOk(store, block) <==> Quiet(steps, id, |steps|, i, hash))
         && (StoreOk(store, hash) ==> Quiet(steps, id, |steps|, i, hash))
  {
    hide Quiet, Run, LinkOk, PeerOk, StoreOk, PushedBlock, Injective, ThenPushAgain;
    NextFollowsIffQuiet(steps, id, clockSum, hash);
    var i := Run(steps, hash).drafts[id].peer;
    PushedAfter(steps, id, clockSum, i, payload, hash);
    var all := steps + ThenPushAgain(id, clockSum, i, payload, |steps|);
    if StoreOk(Run(all, hash).store, hash) {
      StoredIsLinked(
        Run(all, hash).store, hash(PushedBlock(Run(steps + [CommitPush(id, clockSum)], hash).peers[i], payload)), hash);
    }
  }

  lemma PushedAfter(steps: seq<AStep>, id: nat, clockSum: int, i: nat, payload: string, hash: Block -> Cid)
    requires Injective(hash) && i in Run(steps + [CommitPush(id, clockSum)], hash).peers
    ensures var store := Run(steps + ThenPushAgain(id, clockSum, i, payload, |steps|), hash).store;
      var w := Run(steps + [CommitPush(id, clockSum)], hash);
      var block := PushedBlock(w.peers[i], payload);
      && store == w.store[hash(block) := block]
      && (LinkOk(store, block) <==> PeerOk(w.store, w.peers[i]))
  {
    hide Act, AWorldOk, Run, LinkOk, PeerOk, PushedBlock, Injective, ThenPushAgain;
    var one := steps + [CommitPush(id, clockSum)];
    RunAWorldOk(one, hash);
    PushAgain(steps, id, clockSum, i, payload, hash);
    PushStores(Run(one, hash), i, payload, clockSum, hash);
  }

  lemma PushAgain(steps: seq<AStep>, id: nat, clockSum: int, i: nat, payload: string, hash: Block -> Cid)
    ensures Run(steps + ThenPushAgain(id, clockSum, i, payload, |steps|), hash)
         == Act(Act(Run(steps + [CommitPush(id, clockSum)], hash), BeginPush(i, payload), hash),
                CommitPush(|steps| + 1, clockSum), hash)
  {
    hide Run, Act;
    var n, all := |steps|, steps + ThenPushAgain(id, clockSum, i, payload, |steps|);
    assert all[..n + 1] == steps + [CommitPush(id, clockSum)] && all[..n + 3] == all;
    RunStep(all, n + 1, hash);
    RunStep(all, n + 2, hash);
  }

  lemma StoredIsLinked(store: Store, c: Cid, hash: Block -> Cid)
    requires StoreOk(store, hash) && c in store
    ensures LinkOk(store, store[c])
  {
  }

  /** A push that begins and commits at once stores its block, as linked as the peer was. */
  lemma PushStores(w: AWorld, i: nat, payload: string, clockSum: int, hash: Block -> Cid)
    requires Injective(hash) && AWorldOk(w, hash) && i in w.peers
    ensures var block := PushedBlock(w.peers[i], payload);
      var w' := Act(Act(w, BeginPush(i, payload), hash), CommitPush(w.clock, clockSum), hash);
      && w'.store == w.store[hash(block) := block]
      && (LinkOk(w'.store, block) <==> PeerOk(w.store, w.peers[i]))
  {
    AddressedGrows(w.store, PushedBlock(w.peers[i], payload), hash);
  }

  /** Two pushes of one codec overlap; nothing remote is involved. */
  const OVERLAP: seq<AStep> := [Enter(0), BeginPush(0, "x"), BeginPush(0, "y"), CommitPush(1, 0)]

  /** The third block of that run, pushed by itself, does not follow its parent. */
  lemma OverlapBreaksLink(hash: Block -> Cid)
    requires Injective(hash)
    ensures !StoreOk(Run(OVERLAP + ThenPushAgain(2, 0, 0, "z", 4), hash).store, hash)
  {
    var steps := OVERLAP;
    assert steps[..0] == [];
    RunStep(steps, 0, hash);
    RunStep(steps, 1, hash);
    RunStep(steps, 2, hash);
    RunStep(steps, 3, hash);
    assert steps[..4] == steps;
    assert Moves(Run(steps[..3], hash), steps[3], 0);
    NextBlockLinkedIffQuiet(steps, 2, 0, "z", hash);
  }

  lemma RunStep(steps: seq<AStep>, n: nat, hash: Block -> Cid)
    requires n < |steps|
    ensures Run(steps[..n + 1], hash) == Act(Run(steps[..n], hash), steps[n], hash)
  {
    assert steps[..n + 1][..n] == steps[..n];
  }

  /** A block of another peer is applied while a push is under way. */
  function RemoteDuringPush(hash: Block -> Cid): seq<AStep> {
    [Enter(0), Enter(1), BeginPush(1, "r"), CommitPush(2, 0),
     BeginPush(0, "x"), BeginApply(0, hash(Block(None, 1, "r"))), EndApply(5, true)]
  }

  lemma RemoteDuringPushBreaksLink(hash: Block -> Cid)
    requires Injective(hash)
    ensures !StoreOk(Run(RemoteDuringPush(hash) + ThenPushAgain(4, 0, 0, "z", 7), hash).store, hash)
  {
    hide Quiet, Run, StoreOk;
    var steps := RemoteDuringPush(hash);
    var r := hash(Block(None, 1, "r"));
    var peers := map[0 := INITIAL_PEER, 1 := Committed(INITIAL_PEER, r, 0)];
    assert steps[..7] == steps;
    RemotePublishes(steps, hash);
    RunStep(steps, 4, hash);
    assert Run(steps[..5], hash)
        == AWorld(map[r := Block(None, 1, "r")], peers, map[4 := Draft(0, Block(None, 1, "x"))], map[], 5);
    RunStep(steps, 5, hash);
    RunStep(steps, 6, hash);
    assert Moves(Run(steps[..6], hash), steps[6], 0);
    MovedIsNotQuiet(steps, 4, 6, 7, 0, hash);
    NextBlockLinkedIffQuiet(steps, 4, 0, "z", hash);
  }

  lemma RemotePublishes(steps: seq<AStep>, hash: Block -> Cid)
    requires steps == RemoteDuringPush(hash)
    ensures var r := hash(Block(None, 1, "r"));
      Run(steps[..4], hash) == AWorld(map[r := Block(None, 1, "r")],
        map[0 := INITIAL_PEER, 1 := Committed(INITIAL_PEER, r, 0)], map[], map[], 4)
  {
    hide Run;
    assert Run([], hash) == AWorld(map[], map[], map[], map[], 0) by { RunNothing(hash); }
    assert steps[..0] == [];
    RunStep(steps, 0, hash);
    RunStep(steps, 1, hash);
    assert Run(steps[..2], hash) == AWorld(map[], map[0 := INITIAL_PEER, 1 := INITIAL_PEER], map[], map[], 2);
    RunStep(steps, 2, hash);
    RunStep(steps, 3, hash);
  }

  lemma RunNothing(hash: Block -> Cid)
    ensures Run([], hash) == AWorld(map[], map[], map[], map[], 0)
  {
  }

  lemma MovedIsNotQuiet(steps: seq<AStep>, m: nat, k: nat, n: nat, i: nat, hash: Block -> Cid)
    requires m <= k < n <= |steps| && Moves(Run(steps[..k], hash), steps[k], i)
    ensures !Quiet(steps, m, n, i, hash)
  {
  }

  // ---- Which blocks are linked ----

  lemma LinkKept(store: Store, store': Store, b: Block)
    requires Grows(store, store') && Rooted(store, b.prev)
    ensures LinkOk(store', b) <==> LinkOk(store, b)
  {
  }

  /** The block a peer would push next follows its parent exactly when the peer is not skewed. */
  lemma {:induction false} FollowsIffNotSkewed(steps: seq<AStep>, i: nat, hash: Block -> Cid)
    requires Injective(hash)
    ensures i in Run(steps, hash).peers ==>
      (PeerOk(Run(steps, hash).store, Run(steps, hash).peers[i]) <==> !Skewed(steps, i, hash))
    ensures i !in Run(steps, hash).peers ==> !Skewed(steps, i, hash)
  {
    hide Act, AWorldOk, Moves, PeerOk, Disturbed;
    if steps != [] {
      var n := |steps| - 1;
      FollowsIffNotSkewed(steps[..n], i, hash);
      SkewStep(steps, i, hash);
    }
  }

  lemma SkewStep(steps: seq<AStep>, i: nat, hash: Block -> Cid)
    requires Injective(hash) && steps != []
    ensures var n := |steps| - 1; var w, w' := Run(steps[..n], hash), Run(steps, hash);
      && (i in w.peers ==> i in w'.peers)
      && (Moves(w, steps[n], i) ==> i in w.peers && (PeerOk(w'.store, w'.peers[i]) <==> !Disturbed(steps, n, hash)))
      && (!Moves(w, steps[n], i) && i in w.peers ==>
            (PeerOk(w'.store, w'.peers[i]) <==> PeerOk(w.store, w.peers[i])))
      && (i in w'.peers && i !in w.peers ==> PeerOk(w'.store, w'.peers[i]))
  {
    hide Act, Quiet, Addressed;
    var n := |steps| - 1;
    var before, a := steps[..n], steps[n];
    var w := Run(before, hash);
    RunAWorldOk(before, hash);
    ActOk(w, a, hash);
    if i in Run(steps, hash).peers {
      LinkedAfter(w, a, i, hash);
    }
    if i in w.peers {
      ActSeq(w, a, i, hash);
      if !Moves(w, a, i) {
        LinkKept(w.store, Run(steps, hash).store, PushedBlock(w.peers[i], ""));
      } else if a.CommitPush? {
        NextFollowsIffQuiet(before, a.id, a.clockSum, hash);
        assert before + [CommitPush(a.id, a.clockSum)] == steps;
        QuietPrefix(steps, n, a.id, n, i, hash);
      }
    }
  }

  /** The step commits a push that began while its peer was skewed. */
  ghost predicate CommitsSkewed(steps: seq<AStep>, n: nat, hash: Block -> Cid)
    requires n < |steps|
  {
    var w := Run(steps[..n], hash);
    && steps[n].CommitPush? && steps[n].id in w.drafts && steps[n].id <= n
    && Skewed(steps[..steps[n].id], w.drafts[steps[n].id].peer, hash)
  }

  /**
   * Over every interleaving: all stored blocks are linked exactly when no push was committed that had
   * begun while the last move of its peer was a disturbed push.
   */
  lemma {:induction false} LinkedIffNoneSkewed(steps: seq<AStep>, hash: Block -> Cid)
    requires Injective(hash)
    ensures StoreOk(Run(steps, hash).store, hash) <==> forall n | 0 <= n < |steps| :: !CommitsSkewed(steps, n, hash)
  {
    hide Act, CommitsSkewed, StoreOk;
    if steps == [] {
      EmptyStoreOk(hash);
    } else {
      var n := |steps| - 1;
      LinkedIffNoneSkewed(steps[..n], hash);
      LinkedStep(steps, hash);
      forall k | 0 <= k < n ensures CommitsSkewed(steps[..n], k, hash) <==> CommitsSkewed(steps, k, hash) {
        CommitsSkewedPrefix(steps, n, k, hash);
      }
    }
  }

  lemma EmptyStoreOk(hash: Block -> Cid)
    ensures StoreOk(map[], hash)
  {
  }

  lemma CommitsSkewedPrefix(steps: seq<AStep>, n: nat, k: nat, hash: Block -> Cid)
    requires k < n <= |steps|
    ensures CommitsSkewed(steps[..n], k, hash) <==> CommitsSkewed(steps, k, hash)
  {
    hide Run, Skewed;
    assert steps[..n][..k] == steps[..k];
    if steps[k].CommitPush? && steps[k].id <= k {
      assert steps[..n][..steps[k].id] == steps[..steps[k].id];
    }
  }

  lemma LinkedStep(steps: seq<AStep>, hash: Block -> Cid)
    requires Injective(hash) && steps != []
    ensures var n := |steps| - 1;
      StoreOk(Run(steps, hash).store, hash) <==> (StoreOk(Run(steps[..n], hash).store, hash) && !CommitsSkewed(steps, n, hash))
  {
    hide Skewed, Act, StoreOk, LinkOk, Addressed;
    var n := |steps| - 1;
    var before, a := steps[..n], steps[n];
    var w, w' := Run(before, hash), Run(steps, hash);
    RunAWorldOk(before, hash);
    ActOk(w, a, hash);
    if a.CommitPush? && a.id in w.drafts {
      var d := w.drafts[a.id];
      DraftBegun(before, a.id, hash);
      assert before[..a.id] == steps[..a.id];
      BegunLink(steps, a.id, n, d, hash);
      StoreOkWith(w.store, d.block, hash);
      CommitStore(w, a, hash);
    } else {
      StoreAfter(w, a, hash);
    }
  }

  lemma CommitStore(w: AWorld, a: AStep, hash: Block -> Cid)
    requires a.CommitPush? && a.id in w.drafts && w.drafts[a.id].peer in w.peers
    ensures Act(w, a, hash).store == w.store[hash(w.drafts[a.id].block) := w.drafts[a.id].block]
  {
  }

  /** A block begun by a peer stays as linked as the peer was. */
  lemma BegunLink(steps: seq<AStep>, m: nat, n: nat, d: Draft, hash: Block -> Cid)
    requires Injective(hash) && m <= n <= |steps|
    requires d.peer in Run(steps[..m], hash).peers
    requires var p := Run(steps[..m], hash).peers[d.peer]; d.block.prev == p.prev && d.block.seqNo == p.seqNo
    ensures LinkOk(Run(steps[..n], hash).store, d.block) <==> !Skewed(steps[..m], d.peer, hash)
  {
    hide Skewed;
    FollowsIffNotSkewed(steps[..m], d.peer, hash);
    RunAWorldOk(steps[..m], hash);
    GrowsBetween(steps, m, n, hash);
    LinkKept(Run(steps[..m], hash).store, Run(steps[..n], hash).store, d.block);
  }

  lemma {:induction false} GrowsBetween(steps: seq<AStep>, m: nat, n: nat, hash: Block -> Cid)
    requires Injective(hash) && m <= n <= |steps|
    ensures Grows(Run(steps[..m], hash).store, Run(steps[..n], hash).store)
    decreases n
  {
    hide AWorldOk, Act;
    if m < n {
      GrowsBetween(steps, m, n - 1, hash);
      RunAWorldOk(steps[..n - 1], hash);
      assert steps[..n][..n - 1] == steps[..n - 1];
      ActOk(Run(steps[..n - 1], hash), steps[n - 1], hash);
    }
  }

  lemma StoreOkWith(store: Store, b: Block, hash: Block -> Cid)
    requires Injective(hash) && Addressed(store, hash) && Rooted(store, b.prev)
    requires forall c | c in store :: Rooted(store, store[c].prev)
    ensures StoreOk(store[hash(b) := b], hash) <==> StoreOk(store, hash) && LinkOk(store, b)
  {
    var store' := store[hash(b) := b];
    AddressedGrows(store, b, hash);
    LinkKept(store, store', b);
    forall c | c in store ensures LinkOk(store', store[c]) <==> LinkOk(store, store[c]) {
      LinkKept(store, store', store[c]);
    }
    assert hash(b) in store' && store'[hash(b)] == b;
  }

  // ---- Undisturbed runs ----

  ghost predicate Undisturbed(steps: seq<AStep>, hash: Block -> Cid) {
    forall n | 0 <= n < |steps| :: !Disturbed(steps, n, hash)
  }

  /**
   * If no push is disturbed, every stored block is linked: it is enough that between the begin and the
   * commit of a push its peer commits no other push and applies no block that is not older than itself.
   */
  lemma UndisturbedIsLinked(steps: seq<AStep>, hash: Block -> Cid)
    requires Injective(hash) && Undisturbed(steps, hash)
    ensures StoreOk(Run(steps, hash).store, hash)
    ensures forall i | i in Run(steps, hash).peers :: PeerOk(Run(steps, hash).store, Run(steps, hash).peers[i])
  {
    hide Run, StoreOk, PeerOk, Skewed, Undisturbed;
    LinkedIffNoneSkewed(steps, hash);
    forall n | 0 <= n < |steps| ensures !CommitsSkewed(steps, n, hash) {
      if CommitsSkewed(steps, n, hash) {
        NeverSkewed(steps, steps[n].id, Run(steps[..n], hash).drafts[steps[n].id].peer, hash);
      }
    }
    forall i | i in Run(steps, hash).peers ensures PeerOk(Run(steps, hash).store, Run(steps, hash).peers[i]) {
      FollowsIffNotSkewed(steps, i, hash);
      NeverSkewed(steps, |steps|, i, hash);
      assert steps[..|steps|] == steps;
    }
  }

  lemma {:induction false} NeverSkewed(steps: seq<AStep>, n: nat, i: nat, hash: Block -> Cid)
    requires n <= |steps| && Undisturbed(steps, hash)
    ensures !Skewed(steps[..n], i, hash)
    decreases n
  {
    hide Run, Moves, Disturbed;
    if n > 0 {
      NeverSkewed(steps, n - 1, i, hash);
      assert steps[..n][..n - 1] == steps[..n - 1];
      DisturbedPrefix(steps, n, n - 1, hash);
    }
  }

  lemma DisturbedPrefix(steps: seq<AStep>, n: nat, k: nat, hash: Block -> Cid)
    requires k < n <= |steps|
    ensures Disturbed(steps[..n], k, hash) <==> Disturbed(steps, k, hash)
  {
    hide Run, Quiet;
    assert steps[..n][..k] == steps[..k];
    var w := Run(steps[..k], hash);
    if steps[k].CommitPush? && steps[k].id in w.drafts && steps[k].id <= k {
      QuietPrefix(steps, n, steps[k].id, k, w.drafts[steps[k].id].peer, hash);
    }
  }

  /** From any block of an undisturbed run, walkChain yields its seq down to 1, or the depth error. */
  method WalkUndisturbed(steps: seq<AStep>, hash: Block -> Cid, tip: Cid, maxDepth: nat)
    returns (yielded: seq<Block>, end: WalkEnd)
    requires Injective(hash) && Undisturbed(steps, hash) && tip in Run(steps, hash).store
    ensures var s := Run(steps, hash).store[tip].seqNo;
      && end == (if s <= maxDepth then Complete else DepthExceeded)
      && |yielded| == (if s <= maxDepth then s else maxDepth)
      && forall i | 0 <= i < |yielded| :: yielded[i].seqNo == s - i
  {
    UndisturbedIsLinked(steps, hash);
    yielded, end := WalkLinked(Run(steps, hash).store, hash, tip, maxDepth);
  }

  // ---- Atomic calls ----

  /** One call run to completion; its begin is step n. */
  function Whole(a: Action, n: nat): seq<AStep> {
    match a
    case Join(i) => [Enter(i)]
    case Push(i, payload, clockSum) => [BeginPush(i, payload), CommitPush(n, clockSum)]
    case ApplyRemote(i, cid, decrypts) => [BeginApply(i, cid), EndApply(n, decrypts)]
    case SetClock(i, clock) => [AStep.SetClock(i, clock)]
  }

  function Flatten(actions: seq<Action>): seq<AStep> {
    if actions == [] then [] else
    var before := Flatten(actions[..|actions| - 1]);
    before + Whole(actions[|actions| - 1], |before|)
  }

  /** A run of atomic calls is an undisturbed run of begins and ends that never overlap. */
  lemma {:induction false} AtomicIsUndisturbed(actions: seq<Action>, hash: Block -> Cid)
    requires Injective(hash)
    ensures Undisturbed(Flatten(actions), hash)
    ensures var w, atomic := Run(Flatten(actions), hash), SnapshotChain.Run(actions, hash);
      w.store == atomic.store && w.peers == atomic.peers && w.drafts == map[] && w.applies == map[]
  {
    hide Undisturbed, Act, SnapshotChain.Act;
    if actions == [] {
      NothingDisturbed(hash);
    } else {
      var n := |actions| - 1;
      var before := Flatten(actions[..n]);
      AtomicIsUndisturbed(actions[..n], hash);
      RunAWorldOk(before, hash);
      WholeCall(before, actions[n], SnapshotChain.Run(actions[..n], hash), hash);
    }
  }

  lemma NothingDisturbed(hash: Block -> Cid)
    ensures Undisturbed([], hash)
  {
  }

  lemma WholeCall(before: seq<AStep>, a: Action, atomic: World, hash: Block -> Cid)
    requires Undisturbed(before, hash)
    requires var w := Run(before, hash);
      && w.clock == |before| && w.drafts == map[] && w.applies == map[]
      && w.store == atomic.store && w.peers == atomic.peers
    ensures Undisturbed(before + Whole(a, |before|), hash)
    ensures var w', atomic' := Run(before + Whole(a, |before|), hash), SnapshotChain.Act(atomic, a, hash);
      w'.store == atomic'.store && w'.peers == atomic'.peers && w'.drafts == map[] && w'.applies == map[]
  {
    hide Undisturbed, Run;
    var n := |before|;
    var steps := before + Whole(a, n);
    assert steps[..n] == before;
    RunStep(steps, n, hash);
    if a.Join? || a.SetClock? {
      assert steps[..n + 1] == steps;
    } else {
      RunStep(steps, n + 1, hash);
      assert steps[..n + 2] == steps;
    }
    WholeUndisturbed(before, a, hash);
  }

  lemma WholeUndisturbed(before: seq<AStep>, a: Action, hash: Block -> Cid)
    requires Undisturbed(before, hash)
    ensures Undisturbed(before + Whole(a, |before|), hash)
  {
    hide Run;
    var n := |before|;
    var steps := before + Whole(a, n);
    assert steps[..n] == before;
    forall k | 0 <= k < |steps| ensures !Disturbed(steps, k, hash) {
      if k < n {
        DisturbedPrefix(steps, n, k, hash);
      }
    }
  }
}
