/**
 * Overlapping offers of one block (packages/core/src/ingest-snapshot.ts). An attempt passes the gates and
 * enters applyRemote in one turn; it awaits the decryption, after which the apply callback runs; and only
 * when applyRemote has resolved does it read the clock and mark the CID as placed. Until then nothing
 * records that the attempt is under way.
 *
 * A run is any interleaving of these three turns of any number of attempts. An attempt is identified by
 * the step at which it passed the gates.
 */
module IngestAwaits {
  import opened Options
  import opened Sideband
  import opened Ingest
  import Chain

  /** Skipping: applyRemote found the CID applied last. Returned: the callback has returned. */
  datatype Stage = Decrypting | Skipping | Returned

  /** mode says how the attempt will go. */
  datatype Flight = Flight(cid: Cid, mode: ApplyMode, stage: Stage)

  /** fired counts, per CID, how often its callback has fired; clock counts the steps. */
  datatype Flights = Flights(
    placed: set<Cid>, lastApplied: Option<Cid>, open: map<nat, Flight>, fired: multiset<Cid>, clock: nat)

  datatype Turn =
    | Begin(cid: Cid, data: Bytes, chain: Chain.ChainState, mode: ApplyMode)
    | Fire(id: nat)
    | Finish(id: nat)
    | PlacePending(cid: Cid, data: Bytes, chain: Chain.ChainState)  // a rescan applies nothing
    | Published(cid: Cid)

  predicate Passes(w: Flights, cid: Cid, data: Bytes, chain: Chain.ChainState, env: Env) {
    Gates(w.placed, cid, data, chain, env) == Placed
  }

  /** One step, without the clock; a step that is not enabled changes nothing. */
  function Effect(w: Flights, a: Turn, env: Env): Flights {
    match a
    case Begin(cid, data, chain, mode) =>
      if !Passes(w, cid, data, chain, env) then w
      else w.(open := w.open[w.clock := Flight(cid, mode, if w.lastApplied == Some(cid) then Skipping else Decrypting)])
    case Fire(id) =>
      if id !in w.open || w.open[id].stage != Decrypting then w else
      var f := w.open[id];
      (match f.mode
       case DecryptFails => w.(open := w.open - {id})
       case CallbackThrows => w.(open := w.open - {id}, fired := w.fired + multiset{f.cid})
       case _ => w.(open := w.open[id := f.(stage := Returned)], fired := w.fired + multiset{f.cid},
                    lastApplied := Some(f.cid)))
    case Finish(id) =>
      if id !in w.open || w.open[id].stage == Decrypting then w else
      var f := w.open[id];
      if f.mode == ClockThrows then w.(open := w.open - {id})
      else w.(open := w.open - {id}, placed := w.placed + {f.cid})
    case PlacePending(cid, data, chain) =>
      if Passes(w, cid, data, chain, env) then w.(placed := w.placed + {cid}) else w
    case Published(cid) => w.(lastApplied := Some(cid))
  }

  function Act(w: Flights, a: Turn, env: Env): Flights {
    Effect(w, a, env).(clock := w.clock + 1)
  }

  const GROUNDED: Flights := Flights({}, None, map[], multiset{}, 0)

  function Fly(turns: seq<Turn>, env: Env): Flights {
    if turns == [] then GROUNDED else Act(Fly(turns[..|turns| - 1], env), turns[|turns| - 1], env)
  }

  // ---- Overlap ----

  ghost predicate Open(w: Flights, c: Cid, id: nat) {
    id in w.open && w.open[id].cid == c
  }

  ghost predicate Aloft(w: Flights, c: Cid) {
    exists id :: Open(w, c, id)
  }

  /** The step opens an attempt on c while another is under way. */
  ghost predicate Overlaps(turns: seq<Turn>, n: nat, c: Cid, env: Env)
    requires n < |turns|
  {
    var w, a := Fly(turns[..n], env), turns[n];
    a.Begin? && a.cid == c && Passes(w, a.cid, a.data, a.chain, env) && Aloft(w, c)
  }

  ghost predicate Apart(turns: seq<Turn>, c: Cid, env: Env) {
    forall n | 0 <= n < |turns| :: !Overlaps(turns, n, c, env)
  }

  /** Every offer of c goes in one of these ways. */
  ghost predicate OffersOf(turns: seq<Turn>, c: Cid, modes: set<ApplyMode>) {
    forall n | 0 <= n < |turns| && turns[n].Begin? && turns[n].cid == c :: turns[n].mode in modes
  }

  // ---- One attempt at a time ----

  lemma {:induction false} ClockIsFresh(turns: seq<Turn>, env: Env)
    ensures forall id | id in Fly(turns, env).open :: id < Fly(turns, env).clock
  {
    hide Gates;
    if turns != [] {
      ClockIsFresh(turns[..|turns| - 1], env);
    }
  }

  /** At most one attempt on c is under way; the callback has fired at most once, and then c is placed or about to be. */
  ghost predicate Solo(w: Flights, c: Cid, modes: set<ApplyMode>) {
    && (forall i, j | Open(w, c, i) && Open(w, c, j) :: i == j)
    && (forall id | Open(w, c, id) :: w.open[id].mode in modes)
    && w.fired[c] <= 1
    && (w.fired[c] == 1 ==> c in w.placed || exists id :: Open(w, c, id) && w.open[id].stage == Returned)
    && (forall id | Open(w, c, id) && w.open[id].stage == Decrypting :: w.fired[c] == 0)
  }

  lemma SoloKept(w: Flights, a: Turn, c: Cid, modes: set<ApplyMode>, env: Env)
    requires Solo(w, c, modes) && CallbackThrows !in modes && ClockThrows !in modes
    requires forall id | id in w.open :: id < w.clock
    requires a.Begin? && a.cid == c ==> a.mode in modes && (Passes(w, a.cid, a.data, a.chain, env) ==> !Aloft(w, c))
    ensures Solo(Act(w, a, env), c, modes)
  {
    var w' := Act(w, a, env);
    if a.Begin? && a.cid == c {
      SoloBegin(w, a, c, modes, env);
    } else if (a.Fire? || a.Finish?) && Open(w, c, a.id) {
      SoloTurn(w, a, c, modes, env);
    } else {
      assert forall id :: Open(w', c, id) <==> Open(w, c, id);
      assert forall id | Open(w, c, id) :: w'.open[id] == w.open[id];
      if id :| Open(w, c, id) && w.open[id].stage == Returned {
        assert Open(w', c, id) && w'.open[id].stage == Returned;
      }
    }
  }

  lemma SoloBegin(w: Flights, a: Turn, c: Cid, modes: set<ApplyMode>, env: Env)
    requires Solo(w, c, modes) && a.Begin? && a.cid == c && a.mode in modes
    requires Passes(w, a.cid, a.data, a.chain, env) ==> !Aloft(w, c)
    ensures Solo(Act(w, a, env), c, modes)
  {
    var w' := Act(w, a, env);
    if Passes(w, a.cid, a.data, a.chain, env) {
      assert forall id :: !Open(w, c, id);
      assert forall id :: Open(w', c, id) <==> id == w.clock;
    } else {
      assert forall id :: Open(w', c, id) <==> Open(w, c, id);
      if id :| Open(w, c, id) && w.open[id].stage == Returned {
        assert Open(w', c, id) && w'.open[id].stage == Returned;
      }
    }
  }

  lemma SoloTurn(w: Flights, a: Turn, c: Cid, modes: set<ApplyMode>, env: Env)
    requires Solo(w, c, modes) && (a.Fire? || a.Finish?) && Open(w, c, a.id)
    requires w.open[a.id].mode != CallbackThrows && w.open[a.id].mode != ClockThrows
    ensures Solo(Act(w, a, env), c, modes)
  {
    var w' := Act(w, a, env);
    forall id ensures Open(w', c, id) ==> id == a.id {
      assert Open(w', c, id) ==> Open(w, c, id);
    }
    if a.id in w'.open {
      assert Open(w', c, a.id);
    }
  }

  lemma {:induction false} SoloRun(turns: seq<Turn>, c: Cid, modes: set<ApplyMode>, env: Env)
    requires OffersOf(turns, c, modes) && CallbackThrows !in modes && ClockThrows !in modes && Apart(turns, c, env)
    ensures Solo(Fly(turns, env), c, modes)
  {
    hide Act, Solo, Gates, Passes;
    if turns == [] {
      NothingAloft(c, modes);
    } else {
      var n := |turns| - 1;
      ApartPrefix(turns, n, c, env);
      SoloRun(turns[..n], c, modes, env);
      ClockIsFresh(turns[..n], env);
      assert !Overlaps(turns, n, c, env);
      SoloKept(Fly(turns[..n], env), turns[n], c, modes, env);
    }
  }

  lemma NothingAloft(c: Cid, modes: set<ApplyMode>)
    ensures Solo(GROUNDED, c, modes)
  {
  }

  lemma ApartPrefix(turns: seq<Turn>, n: nat, c: Cid, env: Env)
    requires n <= |turns| && Apart(turns, c, env)
    ensures Apart(turns[..n], c, env)
  {
    hide Fly, Gates;
    forall k | 0 <= k < n ensures !Overlaps(turns[..n], k, c, env) {
      assert turns[..n][..k] == turns[..k];
      assert !Overlaps(turns, k, c, env);
    }
  }

  // ---- Nothing fires ----

  /** No attempt on c can fire: none is under way, or none decrypts. */
  ghost predicate Quiet(w: Flights, c: Cid) {
    w.fired[c] == 0 && forall id | Open(w, c, id) :: w.open[id].mode == DecryptFails
  }

  lemma {:induction false} NeverFires(turns: seq<Turn>, c: Cid, modes: set<ApplyMode>, env: Env)
    requires OffersOf(turns, c, modes)
    requires modes <= {DecryptFails} || forall data :: !Admissible(env, c, data)
    ensures Quiet(Fly(turns, env), c)
  {
    hide Act, Quiet;
    if turns == [] {
      GroundedIsQuiet(c);
    } else {
      var n := |turns| - 1;
      NeverFires(turns[..n], c, modes, env);
      ClockIsFresh(turns[..n], env);
      QuietKept(Fly(turns[..n], env), turns[n], c, modes, env);
    }
  }

  lemma GroundedIsQuiet(c: Cid)
    ensures Quiet(GROUNDED, c)
  {
  }

  lemma QuietKept(w: Flights, a: Turn, c: Cid, modes: set<ApplyMode>, env: Env)
    requires Quiet(w, c) && forall id | id in w.open :: id < w.clock
    requires modes <= {DecryptFails} || forall data :: !Admissible(env, c, data)
    requires a.Begin? && a.cid == c ==> a.mode in modes
    ensures Quiet(Act(w, a, env), c)
  {
    var w' := Act(w, a, env);
    assert a.Begin? && a.cid == c && Passes(w, a.cid, a.data, a.chain, env) ==> Admissible(env, c, a.data);
    assert (a.Fire? || a.Finish?) && a.id in w.open && w.open[a.id].cid == c ==> Open(w, c, a.id);
    hide Gates, Passes, Admissible;
    forall id | Open(w', c, id) ensures w'.open[id].mode == DecryptFails {
      if id in w.open {
        assert w'.open[id].cid == w.open[id].cid && w'.open[id].mode == w.open[id].mode;
        assert Open(w, c, id);
      }
    }
  }

  // ---- Runs that fire twice ----

  function Offering(env: Env, c: Cid, data: Bytes, mode: ApplyMode): Turn {
    Begin(c, data, BridgingChain(env, data), mode)
  }

  lemma FlyStep(turns: seq<Turn>, n: nat, env: Env)
    requires n < |turns|
    ensures Fly(turns[..n + 1], env) == Act(Fly(turns[..n], env), turns[n], env)
  {
    assert turns[..n + 1][..n] == turns[..n];
  }

  lemma OffersPass(w: Flights, env: Env, c: Cid, data: Bytes)
    requires Admissible(env, c, data) && w.placed == {}
    ensures Passes(w, c, data, BridgingChain(env, data), env)
  {
    BridgingChainPlaces(env, c, data);
  }

  /** Two offers of one block pass the gates before either is through; nothing throws. */
  function OverlapRun(env: Env, c: Cid, data: Bytes): seq<Turn> {
    var offer := Offering(env, c, data, Applies);
    [offer, offer, Fire(0), Fire(1)]
  }

  lemma OverlapFiresTwice(env: Env, c: Cid, data: Bytes)
    requires Admissible(env, c, data)
    ensures Fly(OverlapRun(env, c, data), env).fired[c] == 2
  {
    hide Fly, Passes, BridgingChain;
    var turns := OverlapRun(env, c, data);
    var f := Flight(c, Applies, Decrypting);
    FlyNothing(turns, env);
    OffersPass(GROUNDED, env, c, data);
    FlyStep(turns, 0, env);
    var w := Fly(turns[..1], env);
    assert w == Flights({}, None, map[0 := f], multiset{}, 1);
    OffersPass(w, env, c, data);
    FlyStep(turns, 1, env);
    FlyStep(turns, 2, env);
    FlyStep(turns, 3, env);
    assert turns[..4] == turns;
  }

  lemma FlyNothing(turns: seq<Turn>, env: Env)
    ensures Fly(turns[..0], env) == GROUNDED
  {
  }

  /** One offer after the other, each ended by a throwing callback. */
  function ThrowRun(env: Env, c: Cid, data: Bytes): seq<Turn> {
    var offer := Offering(env, c, data, CallbackThrows);
    [offer, Fire(0), offer, Fire(2)]
  }

  lemma ThrowFiresTwice(env: Env, c: Cid, data: Bytes)
    requires Admissible(env, c, data)
    ensures Fly(ThrowRun(env, c, data), env).fired[c] == 2 && Apart(ThrowRun(env, c, data), c, env)
  {
    hide Fly, Passes, BridgingChain;
    var turns := ThrowRun(env, c, data);
    var f := Flight(c, CallbackThrows, Decrypting);
    FlyNothing(turns, env);
    OffersPass(GROUNDED, env, c, data);
    FlyStep(turns, 0, env);
    FlyStep(turns, 1, env);
    var w := Fly(turns[..2], env);
    assert w == Flights({}, None, map[], multiset{c}, 2);
    OffersPass(w, env, c, data);
    FlyStep(turns, 2, env);
    FlyStep(turns, 3, env);
    assert turns[..4] == turns;
    assert !Aloft(GROUNDED, c) && !Aloft(w, c);
  }

  /** One offer after the other, each ended by a throwing clock, with a local push in between. */
  function ClockThrowRun(env: Env, c: Cid, data: Bytes): seq<Turn> {
    var offer := Offering(env, c, data, ClockThrows);
    [offer, Fire(0), Finish(0), Published(c + "'"), offer, Fire(4)]
  }

  lemma ClockThrowFiresTwice(env: Env, c: Cid, data: Bytes)
    requires Admissible(env, c, data)
    ensures Fly(ClockThrowRun(env, c, data), env).fired[c] == 2 && Apart(ClockThrowRun(env, c, data), c, env)
  {
    hide Fly, Passes, BridgingChain;
    var turns := ClockThrowRun(env, c, data);
    assert |c + "'"| == |c| + 1;
    FlyNothing(turns, env);
    OffersPass(GROUNDED, env, c, data);
    FlyStep(turns, 0, env);
    FlyStep(turns, 1, env);
    FlyStep(turns, 2, env);
    FlyStep(turns, 3, env);
    var w := Fly(turns[..4], env);
    assert w == Flights({}, Some(c + "'"), map[], multiset{c}, 4);
    OffersPass(w, env, c, data);
    FlyStep(turns, 4, env);
    FlyStep(turns, 5, env);
    assert turns[..6] == turns;
    assert !Aloft(GROUNDED, c) && !Aloft(w, c);
  }

  // ---- The exact condition ----

  /** The runs in which offers of c go in the given ways, and overlap only if they may. */
  ghost predicate Admitted(turns: seq<Turn>, c: Cid, modes: set<ApplyMode>, mayOverlap: bool, env: Env) {
    OffersOf(turns, c, modes) && (mayOverlap || Apart(turns, c, env))
  }

  /**
   * Over all interleavings: the callback of c fires at most once exactly when neither it nor the clock
   * throws and offers of c that apply it do not overlap between the gates and the end, or c has no block
   * that could be placed.
   */
  lemma AtMostOnceIffApart(env: Env, c: Cid, modes: set<ApplyMode>, mayOverlap: bool)
    ensures (forall turns | Admitted(turns, c, modes, mayOverlap, env) :: Fly(turns, env).fired[c] <= 1)
        <==> (modes * {CallbackThrows, ClockThrows} == {} && (mayOverlap ==> Applies !in modes))
             || forall data :: !Admissible(env, c, data)
  {
    hide Fly, Admissible, Apart;
    if forall data :: !Admissible(env, c, data) {
      forall turns | OffersOf(turns, c, modes) ensures Fly(turns, env).fired[c] <= 1 {
        NeverFires(turns, c, modes, env);
      }
    } else {
      var data :| Admissible(env, c, data);
      if CallbackThrows in modes {
        assert CallbackThrows in modes * {CallbackThrows, ClockThrows};
        ThrowFiresTwice(env, c, data);
        assert Admitted(ThrowRun(env, c, data), c, modes, mayOverlap, env);
      } else if ClockThrows in modes {
        assert ClockThrows in modes * {CallbackThrows, ClockThrows};
        ClockThrowFiresTwice(env, c, data);
        assert Admitted(ClockThrowRun(env, c, data), c, modes, mayOverlap, env);
      } else if mayOverlap && Applies in modes {
        OverlapFiresTwice(env, c, data);
        assert Admitted(OverlapRun(env, c, data), c, modes, mayOverlap, env);
      } else {
        forall turns | Admitted(turns, c, modes, mayOverlap, env) ensures Fly(turns, env).fired[c] <= 1 {
          if mayOverlap {
            OnlyDecryptFails(modes);
            NeverFires(turns, c, modes, env);
          } else {
            SoloRun(turns, c, modes, env);
          }
        }
      }
    }
  }

  lemma OnlyDecryptFails(modes: set<ApplyMode>)
    requires CallbackThrows !in modes && ClockThrows !in modes && Applies !in modes
    ensures modes <= {DecryptFails}
  {
    forall mode | mode in modes ensures mode == DecryptFails {
      assert mode.Applies? || mode.DecryptFails? || mode.CallbackThrows? || mode.ClockThrows?;
    }
  }

  // ---- Attempts that run to completion ----

  /** An attempt whose three turns follow one another is the attempt of a call that runs to completion. */
  lemma WholeAttempt(
    w: Flights, s: IngestState, cid: Cid, data: Bytes, chain: Chain.ChainState, env: Env, mode: ApplyMode)
    requires w.clock !in w.open && w.placed == s.placed && w.lastApplied == s.lastApplied
    ensures var w' := Act(Act(Act(w, Begin(cid, data, chain, mode), env), Fire(w.clock), env), Finish(w.clock), env);
      var s' := AttemptState(s, cid, data, true, chain, env, mode);
      && w'.placed == s'.placed && w'.lastApplied == s'.lastApplied && w'.open == w.open
      && w'.fired[cid] - w.fired[cid] == Fired(s', cid) - Fired(s, cid)
  {
    hide Gates, Passes;
    var w1 := Act(w, Begin(cid, data, chain, mode), env);
    var w2 := Act(w1, Fire(w.clock), env);
    if !Passes(w, cid, data, chain, env) {
      assert w2 == w.(clock := w.clock + 2);
    } else if w.lastApplied == Some(cid) {
      assert w2 == w.(open := w.open[w.clock := Flight(cid, mode, Skipping)], clock := w.clock + 2);
    } else if mode.DecryptFails? || mode.CallbackThrows? {
      assert w2.open == w.open;
    } else {
      assert w2.open == w.open[w.clock := Flight(cid, mode, Returned)];
    }
    hide AttemptState;
    AttemptEffect(s, cid, data, chain, env, mode);
    assert Passes(w, cid, data, chain, env) <==> Gates(s.placed, cid, data, chain, env) == Placed by {
      PassesIsPlaced(w, cid, data, chain, env);
    }
  }

  /** A pending block that a rescan places is the attempt of a rescan, which applies nothing. */
  lemma WholeRetry(w: Flights, s: IngestState, cid: Cid, data: Bytes, chain: Chain.ChainState, env: Env)
    requires w.placed == s.placed && w.lastApplied == s.lastApplied
    ensures var w', s' := Act(w, PlacePending(cid, data, chain), env), AttemptState(s, cid, data, false, chain, env, Applies);
      && w'.placed == s'.placed && w'.lastApplied == s'.lastApplied && w'.open == w.open && w'.fired == w.fired
      && Fired(s', cid) == Fired(s, cid)
  {
    hide Gates;
  }

  lemma PassesIsPlaced(w: Flights, cid: Cid, data: Bytes, chain: Chain.ChainState, env: Env)
    ensures Passes(w, cid, data, chain, env) <==> Gates(w.placed, cid, data, chain, env) == Placed
  {
  }

  /** What an attempt that runs to completion does to what is placed, applied and fired. */
  lemma AttemptEffect(
    s: IngestState, cid: Cid, data: Bytes, chain: Chain.ChainState, env: Env, mode: ApplyMode)
    ensures var s' := AttemptState(s, cid, data, true, chain, env, mode);
      var passes, fires := Gates(s.placed, cid, data, chain, env) == Placed, s.lastApplied != Some(cid);
      && s'.placed == (if passes && EagerOk(s, cid, mode) then s.placed + {cid} else s.placed)
      && s'.lastApplied == (if passes && fires && mode in {Applies, ClockThrows} then Some(cid) else s.lastApplied)
      && Fired(s', cid) == Fired(s, cid) + (if passes && fires && mode != DecryptFails then 1 else 0)
  {
    hide Gates;
  }
}
