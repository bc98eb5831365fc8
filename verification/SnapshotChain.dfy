/**
 * The snapshot chain that several peers grow: push and applyRemote of
 * packages/core/src/snapshot-codec.ts, and walkChain of packages/blocks/src/index.ts.
 *
 * Blocks live in one content-addressed store. The content hash is a parameter, taken to be injective; the
 * encrypted channels, timestamp, keys and signatures of a block are its payload.
 */
module SnapshotChain {
  import opened Options
  import Chain

  type Cid = Chain.Cid

  datatype Block = Block(prev: Option<Cid>, seqNo: nat, payload: string)
  type Store = map<Cid, Block>

  ghost predicate Injective(hash: Block -> Cid) {
    forall a, b :: hash(a) == hash(b) ==> a == b
  }

  // ---- One peer ----

  /** seq, prev, lastIpnsSeq and lastAppliedCid of one codec. */
  datatype Peer = Peer(seqNo: nat, prev: Option<Cid>, lastIpnsSeq: Option<int>, lastApplied: Option<Cid>)

  const INITIAL_PEER: Peer := Peer(1, None, None, None)

  function PushedBlock(p: Peer, payload: string): Block {
    Block(p.prev, p.seqNo, payload)
  }

  /** The end of push: now is the peer when the block has been encoded and hashed. */
  function Committed(now: Peer, cid: Cid, clockSum: int): Peer {
    Peer(now.seqNo + 1, Some(cid), Some(clockSum), Some(cid))
  }

  datatype Applied = Done | Skipped | Threw

  function RemoteOutcome(p: Peer, cid: Cid, store: Store, decrypts: bool): Applied {
    if p.lastApplied == Some(cid) || cid !in store then Skipped else if decrypts then Done else Threw
  }

  /** The end of applyRemote, when the block is there and has been applied. */
  function Adopted(p: Peer, cid: Cid, b: Block): Peer {
    if b.seqNo >= p.seqNo then p.(prev := Some(cid), seqNo := b.seqNo + 1, lastApplied := Some(cid))
    else p.(lastApplied := Some(cid))
  }

  function AfterRemote(p: Peer, cid: Cid, store: Store, decrypts: bool): Peer {
    if RemoteOutcome(p, cid, store, decrypts) == Done then Adopted(p, cid, store[cid]) else p
  }

  class Resolver {
    var blocks: Store

    constructor ()
      ensures blocks == map[]
    {
      blocks := map[];
    }
  }

  class SnapshotCodec {
    var seqNo: nat
    var prev: Option<Cid>
    var lastIpnsSeq: Option<int>
    var lastAppliedCid: Option<Cid>
    const resolver: Resolver

    ghost function State(): Peer
      reads this
    {
      Peer(seqNo, prev, lastIpnsSeq, lastAppliedCid)
    }

    constructor (resolver: Resolver)
      ensures this.resolver == resolver && State() == INITIAL_PEER
    {
      seqNo, prev, lastIpnsSeq, lastAppliedCid := 1, None, None, None;
      this.resolver := resolver;
    }

    /** push up to its first await: seq and prev are read. */
    method BeginPush(payload: string) returns (block: Block)
      ensures block == PushedBlock(State(), payload)
    {
      var prevForThis, seqForThis := prev, seqNo;
      block := Block(prevForThis, seqForThis, payload);
    }

    /** push after its last await: the block is stored and seq and prev move. */
    method CommitPush(block: Block, clockSum: int, hash: Block -> Cid) returns (cid: Cid)
      modifies this, resolver
      ensures cid == hash(block)
      ensures resolver.blocks == old(resolver.blocks)[cid := block]
      ensures State() == Committed(old(State()), cid, clockSum)
    {
      cid := hash(block);
      resolver.blocks := resolver.blocks[cid := block];
      lastAppliedCid := Some(cid);
      lastIpnsSeq := Some(clockSum);
      prev := Some(cid);
      seqNo := seqNo + 1;
    }

    /** push, run to completion without another call on this codec in between. */
    method Push(payload: string, clockSum: int, hash: Block -> Cid) returns (cid: Cid, block: Block)
      modifies this, resolver
      ensures block == PushedBlock(old(State()), payload) && cid == hash(block)
      ensures resolver.blocks == old(resolver.blocks)[cid := block]
      ensures State() == Committed(old(State()), cid, clockSum)
    {
      block := BeginPush(payload);
      cid := CommitPush(block, clockSum, hash);
    }

    /** applyRemote after its last await. */
    method FinishApply(cid: Cid, node: Block)
      modifies this, resolver
      ensures State() == Adopted(old(State()), cid, node)
      ensures resolver.blocks == old(resolver.blocks)[cid := node]
    {
      resolver.blocks := resolver.blocks[cid := node];
      if node.seqNo >= seqNo {
        prev := Some(cid);
        seqNo := node.seqNo + 1;
      }
      lastAppliedCid := Some(cid);
    }

    method SetLastIpnsSeq(clock: int)
      modifies this
      ensures State() == old(State()).(lastIpnsSeq := Some(clock))
    {
      lastIpnsSeq := Some(clock);
    }

    method ApplyRemote(cid: Cid, decrypts: bool) returns (outcome: Applied)
      modifies this, resolver
      ensures outcome == RemoteOutcome(old(State()), cid, old(resolver.blocks), decrypts)
      ensures State() == AfterRemote(old(State()), cid, old(resolver.blocks), decrypts)
      ensures resolver.blocks == old(resolver.blocks)
    {
      if lastAppliedCid == Some(cid) {
        return Skipped;
      }
      if cid !in resolver.blocks {
        return Skipped;
      }
      var node := resolver.blocks[cid];
      if !decrypts {
        return Threw;
      }
      FinishApply(cid, node);
      return Done;
    }
  }

  // ---- Many peers ----

  datatype World = World(store: Store, peers: map<nat, Peer>)

  datatype Action =
    | Join(peer: nat)
    | Push(peer: nat, payload: string, clockSum: int)
    | ApplyRemote(peer: nat, cid: Cid, decrypts: bool)
    | SetClock(peer: nat, clock: int)

  function Act(w: World, a: Action, hash: Block -> Cid): World {
    match a
    case Join(i) => if i in w.peers then w else w.(peers := w.peers[i := INITIAL_PEER])
    case Push(i, payload, clockSum) =>
      if i !in w.peers then w else
      var block := PushedBlock(w.peers[i], payload);
      World(w.store[hash(block) := block], w.peers[i := Committed(w.peers[i], hash(block), clockSum)])
    case ApplyRemote(i, cid, decrypts) =>
      if i !in w.peers then w else w.(peers := w.peers[i := AfterRemote(w.peers[i], cid, w.store, decrypts)])
    case SetClock(i, clock) =>
      if i !in w.peers then w else w.(peers := w.peers[i := w.peers[i].(lastIpnsSeq := Some(clock))])
  }

  function Run(actions: seq<Action>, hash: Block -> Cid): World {
    if actions == [] then World(map[], map[])
    else Act(Run(actions[..|actions| - 1], hash), actions[|actions| - 1], hash)
  }

  /** A first block has seq 1; every other follows its parent, which is stored, by one. */
  ghost predicate LinkOk(store: Store, b: Block) {
    if b.prev.None? then b.seqNo == 1
    else b.prev.value in store && b.seqNo == store[b.prev.value].seqNo + 1
  }

  ghost predicate StoreOk(store: Store, hash: Block -> Cid) {
    forall c | c in store :: hash(store[c]) == c && LinkOk(store, store[c])
  }

  /** The block the peer would push next is linked. */
  ghost predicate PeerOk(store: Store, p: Peer) {
    LinkOk(store, PushedBlock(p, ""))
  }

  ghost predicate WorldOk(w: World, hash: Block -> Cid) {
    StoreOk(w.store, hash) && forall i | i in w.peers :: PeerOk(w.store, w.peers[i])
  }

  /** Storing a block under its own hash never replaces a different block. */
  lemma StoreGrows(store: Store, b: Block, hash: Block -> Cid)
    requires Injective(hash) && StoreOk(store, hash) && LinkOk(store, b)
    ensures StoreOk(store[hash(b) := b], hash)
    ensures forall c | c in store :: store[hash(b) := b][c] == store[c]
  {
    var store' := store[hash(b) := b];
    forall c | c in store ensures store'[c] == store[c] {
      if c == hash(b) {
        assert hash(store[c]) == hash(b);
      }
    }
  }

  lemma ActKeeps(w: World, a: Action, hash: Block -> Cid)
    requires Injective(hash) && WorldOk(w, hash)
    ensures WorldOk(Act(w, a, hash), hash)
    ensures forall c | c in w.store :: c in Act(w, a, hash).store && Act(w, a, hash).store[c] == w.store[c]
  {
    if a.Push? && a.peer in w.peers {
      assert PeerOk(w.store, w.peers[a.peer]);
      StoreGrows(w.store, PushedBlock(w.peers[a.peer], a.payload), hash);
    }
  }

  /** Over any interleaving of atomic pushes and applications by any number of peers, every block is linked. */
  lemma {:induction false} RunOk(actions: seq<Action>, hash: Block -> Cid)
    requires Injective(hash)
    ensures WorldOk(Run(actions, hash), hash)
  {
    hide WorldOk, Act;
    if actions == [] {
      EmptyWorldOk(hash);
    } else {
      RunOk(actions[..|actions| - 1], hash);
      ActKeeps(Run(actions[..|actions| - 1], hash), actions[|actions| - 1], hash);
    }
  }

  lemma EmptyWorldOk(hash: Block -> Cid)
    ensures WorldOk(World(map[], map[]), hash)
  {
  }

  /** Such a store is what the chain reducer's seq inference assumes. */
  lemma StoreIsLinked(store: Store, hash: Block -> Cid)
    requires StoreOk(store, hash)
    ensures Chain.Linked(map c | c in store :: Chain.StoredBlock(store[c].prev, store[c].seqNo))
  {
  }

  // ---- What a peer and the store remember ----

  lemma RunLast(actions: seq<Action>, hash: Block -> Cid)
    requires actions != []
    ensures Run(actions, hash) == Act(Run(actions[..|actions| - 1], hash), actions[|actions| - 1], hash)
  {
  }

  /** The CID of the last block that the peer pushed, or applied from the store. */
  function LastEnded(actions: seq<Action>, i: nat, hash: Block -> Cid): Option<Cid> {
    if actions == [] then None else
    var before, a := actions[..|actions| - 1], actions[|actions| - 1];
    var w := Run(before, hash);
    match a
    case Push(j, payload, _) =>
      if j == i && i in w.peers then Some(hash(Block(w.peers[i].prev, w.peers[i].seqNo, payload)))
      else LastEnded(before, i, hash)
    case ApplyRemote(j, cid, decrypts) =>
      if j == i && i in w.peers && cid in w.store && decrypts then Some(cid) else LastEnded(before, i, hash)
    case _ => LastEnded(before, i, hash)
  }

  /** The clock sum of the last push, or the clock set since. */
  function LastClock(actions: seq<Action>, i: nat, hash: Block -> Cid): Option<int> {
    if actions == [] then None else
    var before, a := actions[..|actions| - 1], actions[|actions| - 1];
    var joined := i in Run(before, hash).peers;
    match a
    case Push(j, _, clockSum) => if j == i && joined then Some(clockSum) else LastClock(before, i, hash)
    case SetClock(j, clock) => if j == i && joined then Some(clock) else LastClock(before, i, hash)
    case _ => LastClock(before, i, hash)
  }

  /** Over any run of atomic calls a codec remembers the last block that it pushed or applied, and its clock. */
  lemma {:induction false} PeerRemembers(actions: seq<Action>, i: nat, hash: Block -> Cid)
    ensures i in Run(actions, hash).peers ==>
      && Run(actions, hash).peers[i].lastApplied == LastEnded(actions, i, hash)
      && Run(actions, hash).peers[i].lastIpnsSeq == LastClock(actions, i, hash)
    ensures i !in Run(actions, hash).peers ==>
      LastEnded(actions, i, hash) == None && LastClock(actions, i, hash) == None
  {
    if actions != [] {
      PeerRemembers(actions[..|actions| - 1], i, hash);
    }
  }

  /**
   * Applying the block that the codec pushed or applied last is skipped, like one that is not found, and
   * changes nothing; any other stored block that decrypts is applied, and is then the last; and it becomes
   * what the codec pushes on if it is not older.
   */
  lemma ApplyGoesBy(actions: seq<Action>, i: nat, cid: Cid, decrypts: bool, hash: Block -> Cid)
    requires i in Run(actions, hash).peers
    ensures var w := Run(actions, hash); var p := w.peers[i];
      var outcome, p' := RemoteOutcome(p, cid, w.store, decrypts), AfterRemote(p, cid, w.store, decrypts);
      && (outcome == Skipped <==> LastEnded(actions, i, hash) == Some(cid) || cid !in w.store)
      && (outcome == Done <==> LastEnded(actions, i, hash) != Some(cid) && cid in w.store && decrypts)
      && (outcome != Done ==> p' == p)
      && (outcome == Done ==>
            && p'.lastApplied == Some(cid) && p'.lastIpnsSeq == p.lastIpnsSeq
            && p'.prev == (if w.store[cid].seqNo >= p.seqNo then Some(cid) else p.prev)
            && p'.seqNo == (if w.store[cid].seqNo >= p.seqNo then w.store[cid].seqNo + 1 else p.seqNo))
      && (outcome == Done ==> RemoteOutcome(p', cid, w.store, decrypts) == Skipped)
  {
    PeerRemembers(actions, i, hash);
  }

  /** The n-th action pushes this block, on the codec's prev and seq at that moment. */
  ghost predicate Pushes(actions: seq<Action>, n: nat, b: Block, hash: Block -> Cid) {
    && n < |actions| && actions[n].Push? && actions[n].peer in Run(actions[..n], hash).peers
    && b.payload == actions[n].payload
    && b.prev == Run(actions[..n], hash).peers[actions[n].peer].prev
    && b.seqNo == Run(actions[..n], hash).peers[actions[n].peer].seqNo
  }

  /** The store holds exactly the pushed blocks, each under its hash and with its payload. */
  lemma {:induction false} StoreIsPushes(actions: seq<Action>, b: Block, hash: Block -> Cid)
    requires Injective(hash)
    ensures hash(b) in Run(actions, hash).store && Run(actions, hash).store[hash(b)] == b
        <==> exists n: nat :: Pushes(actions, n, b, hash)
    ensures forall c | c in Run(actions, hash).store :: hash(Run(actions, hash).store[c]) == c
  {
    hide Run;
    if actions == [] {
      NothingStored(hash);
    } else {
      var n := |actions| - 1;
      var before, a := actions[..n], actions[n];
      var w := Run(before, hash);
      StoreIsPushes(before, b, hash);
      RunLast(actions, hash);
      forall k: nat | k < n ensures Pushes(actions, k, b, hash) <==> Pushes(before, k, b, hash) {
        assert before[..k] == actions[..k];
      }
      if a.Push? && a.peer in w.peers {
        var pushed := PushedBlock(w.peers[a.peer], a.payload);
        assert hash(b) == hash(pushed) ==> b == pushed;
        assert Pushes(actions, n, pushed, hash);
        assert Pushes(actions, n, b, hash) ==> b == pushed;
      }
    }
  }

  lemma NothingStored(hash: Block -> Cid)
    ensures Run([], hash).store == map[]
  {
  }

  // ---- walkChain ----

  datatype WalkEnd = Complete | Cycle(at: Cid) | DepthExceeded | Missing(at: Cid)

  /** The k-th block back from a CID: its own CID for 0, none once the chain has ended or a block is missing. */
  ghost function Back(store: Store, c: Cid, k: nat): Option<Cid>
    decreases k
  {
    if k == 0 then Some(c)
    else if c !in store || store[c].prev.None? then None
    else Back(store, store[c].prev.value, k - 1)
  }

  lemma {:induction false} BackStep(store: Store, c: Cid, k: nat)
    ensures Back(store, c, k + 1)
         == match Back(store, c, k)
            case None => None
            case Some(d) => if d in store then store[d].prev else None
    decreases k
  {
    if k == 0 {
      assert c in store && store[c].prev.Some? ==> Back(store, store[c].prev.value, 0) == store[c].prev;
    } else if c in store && store[c].prev.Some? {
      BackStep(store, store[c].prev.value, k - 1);
    }
  }

  /**
   * walkChain on any store, however malformed. It yields the blocks of the chain in order, and how it ends
   * is justified: a cycle is a CID met twice, completion is a block without parent with no CID met twice,
   * and the depth error means maxDepth distinct blocks were yielded and the chain goes on.
   */
  method WalkChain(tip: Cid, store: Store, maxDepth: nat) returns (yielded: seq<Block>, end: WalkEnd)
    ensures |yielded| <= maxDepth
    ensures forall i | 0 <= i < |yielded| ::
      Back(store, tip, i).Some? && Back(store, tip, i).value in store && yielded[i] == store[Back(store, tip, i).value]
    ensures forall i, j | 0 <= i < j < |yielded| :: Back(store, tip, i) != Back(store, tip, j)
    ensures end.Complete? <==> Back(store, tip, |yielded|).None?
    ensures end.Cycle? <==> Back(store, tip, |yielded|).Some? && exists i | 0 <= i < |yielded| ::
      Back(store, tip, i) == Back(store, tip, |yielded|)
    ensures end.Cycle? ==> Back(store, tip, |yielded|) == Some(end.at)
    ensures end.DepthExceeded? ==> |yielded| == maxDepth
    ensures end.Missing? ==>
      |yielded| < maxDepth && Back(store, tip, |yielded|) == Some(end.at) && end.at !in store
  {
    yielded := [];
    var visited: set<Cid> := {};
    var current := Some(tip);
    var depth := 0;
    while current.Some?
      invariant depth == |yielded| <= maxDepth
      invariant current == Back(store, tip, depth)
      invariant forall i | 0 <= i < depth ::
        Back(store, tip, i).Some? && Back(store, tip, i).value in store && yielded[i] == store[Back(store, tip, i).value]
      invariant forall i, j | 0 <= i < j < depth :: Back(store, tip, i) != Back(store, tip, j)
      invariant forall c :: c in visited <==> exists i | 0 <= i < depth :: Back(store, tip, i) == Some(c)
      decreases maxDepth - depth, current.Some?
    {
      var key := current.value;
      if key in visited {
        return yielded, Cycle(key);
      }
      if depth >= maxDepth {
        return yielded, DepthExceeded;
      }
      visited := visited + {key};
      if key !in store {
        return yielded, Missing(key);
      }
      var node := store[key];
      yielded := yielded + [node];
      BackStep(store, tip, depth);
      current := node.prev;
      depth := depth + 1;
    }
    return yielded, Complete;
  }

  /** In a linked store the k-th ancestor has seq k lower, and the chain ends after seq steps. */
  lemma {:induction false} BackSeq(store: Store, hash: Block -> Cid, c: Cid, k: nat)
    requires StoreOk(store, hash) && c in store
    ensures k < store[c].seqNo ==>
      Back(store, c, k).Some? && Back(store, c, k).value in store && store[Back(store, c, k).value].seqNo == store[c].seqNo - k
    ensures k >= store[c].seqNo ==> Back(store, c, k).None?
    decreases k
  {
    assert LinkOk(store, store[c]);
    if k > 0 && store[c].prev.Some? {
      BackSeq(store, hash, store[c].prev.value, k - 1);
    }
  }

  /**
   * From any block of a linked store, walkChain never reports a cycle or a missing block. With seq s
   * within the depth limit it completes with exactly the seqs s, s-1, ..., 1; above it, it stops with the
   * depth error after the maxDepth newest.
   */
  method WalkLinked(store: Store, hash: Block -> Cid, tip: Cid, maxDepth: nat)
    returns (yielded: seq<Block>, end: WalkEnd)
    requires StoreOk(store, hash) && tip in store
    ensures var s := store[tip].seqNo;
      && end == (if s <= maxDepth then Complete else DepthExceeded)
      && |yielded| == (if s <= maxDepth then s else maxDepth)
      && forall i | 0 <= i < |yielded| :: yielded[i].seqNo == s - i
  {
    hide StoreOk;
    yielded, end := WalkChain(tip, store, maxDepth);
    forall k: nat | k <= |yielded|
      ensures k < store[tip].seqNo ==>
        Back(store, tip, k).Some? && Back(store, tip, k).value in store
        && store[Back(store, tip, k).value].seqNo == store[tip].seqNo - k
      ensures k >= store[tip].seqNo ==> Back(store, tip, k).None?
    {
      BackSeq(store, hash, tip, k);
    }
    BackSeq(store, hash, tip, store[tip].seqNo);
  }

  /** The same from any block published in a run of atomic calls. */
  method WalkPublished(actions: seq<Action>, hash: Block -> Cid, tip: Cid, maxDepth: nat)
    returns (yielded: seq<Block>, end: WalkEnd)
    requires Injective(hash) && tip in Run(actions, hash).store
    ensures var s := Run(actions, hash).store[tip].seqNo;
      && end == (if s <= maxDepth then Complete else DepthExceeded)
      && |yielded| == (if s <= maxDepth then s else maxDepth)
      && forall i | 0 <= i < |yielded| :: yielded[i].seqNo == s - i
  {
    RunOk(actions, hash);
    yielded, end := WalkLinked(Run(actions, hash).store, hash, tip, maxDepth);
  }
}
