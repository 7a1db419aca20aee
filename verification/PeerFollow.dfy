/** The controller follows the store: over which runs of the peer protocol, and from which states, its peers come to be
    exactly the stored ones. */
module PeerFollow {
  import opened Prelude
  import opened WireGuardController
  import opened PeerProtocol

  /** The controller's entry for `u` is the stored intent, or both are absent. */
  ghost predicate Agrees(w: World, u: Uid) {
    && (u in w.store <==> u in w.peers)
    && (u in w.store ==> w.peers[u].publicKey == w.store[u].key && w.peers[u].allowedIP == w.store[u].Route())
  }

  function LastEvent(queue: seq<Event>, u: Uid): Option<Event> {
    if queue == [] then None
    else if LastEvent(queue[1..], u).Some? then LastEvent(queue[1..], u)
    else if queue[0].uid == u then Some(queue[0]) else None
  }

  lemma {:induction false} LastEventOfAppend(queue: seq<Event>, e: Event, u: Uid)
    ensures LastEvent(queue + [e], u) == if e.uid == u then Some(e) else LastEvent(queue, u)
  {
    if queue == [] {
      assert (queue + [e])[1..] == [];
    } else {
      assert (queue + [e])[1..] == queue[1..] + [e];
      LastEventOfAppend(queue[1..], e, u);
    }
  }

  /** A handler has changed the record of `u` and not yet said so. */
  ghost predicate Announcing(w: World, u: Uid) {
    exists h :: h in w.handlers && (w.handlers[h] == Stored(u) || w.handlers[h] == Erased(u))
  }

  /** The reconciler has read the record of `u` and not yet called the controller. */
  ghost predicate Fetching(w: World, u: Uid) {
    exists h :: h in w.handlers && w.handlers[h].Fetched? && w.handlers[h].uid == u
  }

  /** No request and no delivery for `u` is under way. */
  ghost predicate Idle(w: World, u: Uid) {
    forall h :: h in w.handlers ==> w.handlers[h].uid != u
  }

  /** The assumptions under which the controller follows the store: requests and deliveries of one UID do not overlap,
      events arrive in order and are handled successfully, and a restart finds no saved peer whose record is gone. */
  ghost predicate Orderly(w: World, s: Step) {
    match s
    case Check(_, uid, _) => Idle(w, uid)
    case HomeLoad(_, uid) => Idle(w, uid)
    case Publish(_, ok) => ok
    case Deliver(_, i, ok, _) => i == 0 && ok && (w.queue != [] ==> Idle(w, w.queue[0].uid))
    case Apply(_, ok, _) => ok
    case Restart(boot) => boot.ok && RestoredPeers(w, boot.loaded).Keys <= w.store.Keys
    case _ => true
  }

  ghost predicate OrderlyRun(cfg: Config, w: World, steps: seq<Step>)
    requires cfg.net.prefix <= 32
    decreases |steps|
  {
    steps == [] ||
    (Enabled(cfg, w, steps[0]) && Orderly(w, steps[0]) && OrderlyRun(cfg, After(cfg, w, steps[0]), steps[1..]))
  }

  /** What a handler's position says about the store. */
  ghost predicate KnowsStore(w: World, p: Handler) {
    match p
    case Checked(u, _) => u !in w.store
    case Allocated(u, _, _) => u !in w.store
    case Stored(u) => u in w.store
    case Homing(u, seen) => seen <==> u in w.store
    case Erased(u) => u !in w.store
    case Fetched(u, copy) => u in w.store && w.store[u] == copy
    case Applied(u, copy) => u in w.store && w.store[u] == copy
  }

  /** The last pending event of a UID says whether it is stored; with none pending, controller and store agree. */
  ghost predicate Tracks(w: World, u: Uid) {
    Announcing(w, u) ||
    match LastEvent(w.queue, u)
    case None => Fetching(w, u) || Agrees(w, u)
    case Some(e) => e.Created? <==> u in w.store
  }

  ghost predicate FollowInv(w: World) {
    && (forall h, g :: h in w.handlers && g in w.handlers && h != g ==> w.handlers[h].uid != w.handlers[g].uid)
    && (forall h :: h in w.handlers ==> KnowsStore(w, w.handlers[h]))
    && (forall u :: Tracks(w, u))
  }

  lemma StillAnnouncing(w: World, w': World, u: Uid, changed: nat)
    requires forall h :: h != changed ==> (h in w.handlers <==> h in w'.handlers)
    requires forall h :: h != changed && h in w.handlers ==> w'.handlers[h] == w.handlers[h]
    requires changed in w.handlers ==> w.handlers[changed] != Stored(u) && w.handlers[changed] != Erased(u)
    ensures Announcing(w, u) ==> Announcing(w', u)
    ensures (changed in w.handlers ==> !w.handlers[changed].Fetched? || w.handlers[changed].uid != u) ==>
              (Fetching(w, u) ==> Fetching(w', u))
  {
    if Announcing(w, u) {
      var h :| h in w.handlers && (w.handlers[h] == Stored(u) || w.handlers[h] == Erased(u));
      assert h in w'.handlers && w'.handlers[h] == w.handlers[h];
    }
    if Fetching(w, u) {
      var h :| h in w.handlers && w.handlers[h].Fetched? && w.handlers[h].uid == u;
      assert h != changed ==> h in w'.handlers && w'.handlers[h] == w.handlers[h];
    }
  }

  lemma HandlerStepTracks(cfg: Config, w: World, s: Step, u: Uid)
    requires cfg.net.prefix <= 32 && FollowInv(w) && Enabled(cfg, w, s) && Orderly(w, s)
    requires !s.Deliver? && !s.Apply? && !s.SaveStatus? && !s.Restart?
    ensures Tracks(After(cfg, w, s), u)
  {
    var w' := After(cfg, w, s);
    assert Tracks(w, u);
    if s.Publish? {
      var e := if w.handlers[s.h].Stored? then Created(w.handlers[s.h].uid) else Deleted(w.handlers[s.h].uid);
      LastEventOfAppend(w.queue, e, u);
      assert KnowsStore(w, w.handlers[s.h]);
      if e.uid != u {
        StillAnnouncing(w, w', u, s.h);
      }
    } else {
      StillAnnouncing(w, w', u, s.h);
      if s.Save? && s.ok && w.handlers[s.h].uid == u {
        assert w'.handlers[s.h] == Stored(u);
      }
      if s.HomeDelete? && s.ok && w.handlers[s.h].uid == u {
        assert KnowsStore(w, w.handlers[s.h]);
        if w.handlers[s.h].seen {
          assert w'.handlers[s.h] == Erased(u);
        } else {
          assert w'.store == w.store;
        }
      }
    }
  }

  lemma DeliveryTracks(cfg: Config, w: World, s: Step, u: Uid)
    requires cfg.net.prefix <= 32 && FollowInv(w) && Enabled(cfg, w, s) && Orderly(w, s) && s.Deliver?
    ensures Tracks(After(cfg, w, s), u)
  {
    var w' := After(cfg, w, s);
    assert Tracks(w, u);
    StillAnnouncing(w, w', u, s.h);
    assert w'.queue == w.queue[1..];
    if w.queue[0].Created? && w.queue[0].uid == u && u in w.store {
      assert w'.handlers[s.h].Fetched? && w'.handlers[s.h].uid == u;
    }
  }

  lemma ReconcileTracks(cfg: Config, w: World, s: Step, u: Uid)
    requires cfg.net.prefix <= 32 && Enabled(cfg, w, s) && Orderly(w, s) && (s.Apply? || s.SaveStatus?)
    requires Tracks(w, u) && KnowsStore(w, w.handlers[s.h])
    ensures Tracks(After(cfg, w, s), u)
  {
    var w' := After(cfg, w, s);
    StillAnnouncing(w, w', u, s.h);
    assert w'.store == w.store && w'.queue == w.queue;
  }

  /** The handler a step belongs to. */
  function Actor(s: Step): Option<nat> {
    if s.Restart? then None else Some(s.h)
  }

  /** The others stay where they are, and the actor keeps its UID or starts on an idle one. */
  lemma OneHandlerMoves(cfg: Config, w: World, s: Step, h: nat)
    requires cfg.net.prefix <= 32 && Enabled(cfg, w, s) && Orderly(w, s) && h in After(cfg, w, s).handlers
    ensures Actor(s) != Some(h) ==> h in w.handlers && After(cfg, w, s).handlers[h] == w.handlers[h]
    ensures Actor(s) == Some(h) ==>
              if h in w.handlers then After(cfg, w, s).handlers[h].uid == w.handlers[h].uid
              else Idle(w, After(cfg, w, s).handlers[h].uid)
  {
  }

  lemma HandlersStayApart(cfg: Config, w: World, s: Step, h: nat, g: nat)
    requires cfg.net.prefix <= 32 && FollowInv(w) && Enabled(cfg, w, s) && Orderly(w, s)
    requires h in After(cfg, w, s).handlers && g in After(cfg, w, s).handlers && h != g
    ensures After(cfg, w, s).handlers[h].uid != After(cfg, w, s).handlers[g].uid
  {
    OneHandlerMoves(cfg, w, s, h);
    OneHandlerMoves(cfg, w, s, g);
  }

  /** The store changes only at the actor's UID. */
  lemma StoreChangesAtActor(cfg: Config, w: World, s: Step, u: Uid)
    requires cfg.net.prefix <= 32 && Enabled(cfg, w, s)
    requires Actor(s).Some? && s.h in w.handlers ==> w.handlers[s.h].uid != u
    ensures var w' := After(cfg, w, s);
            (u in w'.store <==> u in w.store) && (u in w.store ==> w'.store[u] == w.store[u])
  {
  }

  lemma ActorKnowsStore(cfg: Config, w: World, s: Step)
    requires cfg.net.prefix <= 32 && Enabled(cfg, w, s) && Actor(s).Some?
    requires s.h in w.handlers ==> KnowsStore(w, w.handlers[s.h])
    requires s.h in After(cfg, w, s).handlers
    ensures KnowsStore(After(cfg, w, s), After(cfg, w, s).handlers[s.h])
  {
  }

  lemma HandlersKnowStore(cfg: Config, w: World, s: Step, h: nat)
    requires cfg.net.prefix <= 32 && FollowInv(w) && Enabled(cfg, w, s) && Orderly(w, s)
    requires h in After(cfg, w, s).handlers
    ensures KnowsStore(After(cfg, w, s), After(cfg, w, s).handlers[h])
  {
    OneHandlerMoves(cfg, w, s, h);
    if Actor(s) == Some(h) {
      ActorKnowsStore(cfg, w, s);
    } else {
      assert KnowsStore(w, w.handlers[h]);
      StoreChangesAtActor(cfg, w, s, w.handlers[h].uid);
    }
  }

  lemma StepKeepsFollowInv(cfg: Config, w: World, s: Step)
    requires cfg.net.prefix <= 32 && FollowInv(w) && Enabled(cfg, w, s) && Orderly(w, s)
    ensures FollowInv(After(cfg, w, s))
  {
    var w' := After(cfg, w, s);
    forall h, g | h in w'.handlers && g in w'.handlers && h != g ensures w'.handlers[h].uid != w'.handlers[g].uid {
      HandlersStayApart(cfg, w, s, h, g);
    }
    forall h | h in w'.handlers ensures KnowsStore(w', w'.handlers[h]) {
      HandlersKnowStore(cfg, w, s, h);
    }
    forall u ensures Tracks(w', u) {
      if s.Deliver? {
        DeliveryTracks(cfg, w, s, u);
      } else if s.Apply? || s.SaveStatus? {
        ReconcileTracks(cfg, w, s, u);
      } else if !s.Restart? {
        HandlerStepTracks(cfg, w, s, u);
      }
    }
  }

  lemma {:induction false} OrderlyRunsKeepFollowInv(cfg: Config, w: World, steps: seq<Step>)
    requires cfg.net.prefix <= 32 && FollowInv(w) && OrderlyRun(cfg, w, steps)
    ensures Runs(cfg, w, steps) && FollowInv(End(cfg, w, steps))
    decreases |steps|
  {
    if steps != [] {
      StepKeepsFollowInv(cfg, w, steps[0]);
      OrderlyRunsKeepFollowInv(cfg, After(cfg, w, steps[0]), steps[1..]);
    }
  }

  /** Whenever the queue is empty, no handler is between its store write and its event, and no delivery is
      between its read and its controller call, the controller's peers are exactly the stored peers, with the same
      keys and routes. */
  lemma ControllerFollowsStore(cfg: Config, steps: seq<Step>)
    requires cfg.net.prefix <= 32 && OrderlyRun(cfg, InitialWorld(cfg), steps)
    ensures Runs(cfg, InitialWorld(cfg), steps)
    ensures var w := End(cfg, InitialWorld(cfg), steps);
            w.queue == [] && (forall u :: !Announcing(w, u) && !Fetching(w, u)) ==>
              && w.peers.Keys == w.store.Keys
              && (forall u :: u in w.store ==>
                    w.peers[u].publicKey == w.store[u].key && w.peers[u].allowedIP == w.store[u].Route())
  {
    OrderlyRunsKeepFollowInv(cfg, InitialWorld(cfg), steps);
    var w := End(cfg, InitialWorld(cfg), steps);
    if w.queue == [] && forall u :: !Announcing(w, u) && !Fetching(w, u) {
      forall u ensures Agrees(w, u) {
        assert Tracks(w, u) && !Announcing(w, u) && !Fetching(w, u);
      }
      assert forall u :: u in w.store ==> Agrees(w, u);
      assert forall u :: u in w.peers ==> Agrees(w, u);
    }
  }

  /** A restart brings the controller in line with the store exactly when no restored peer has lost its record. */
  lemma RestartAgreesExactly(cfg: Config, w: World, boot: Boot)
    requires cfg.net.prefix <= 32 && Enabled(cfg, w, Restart(boot)) && boot.done == w.store.Keys
    ensures (forall u :: Agrees(After(cfg, w, Restart(boot)), u)) <==>
            RestoredPeers(w, boot.loaded).Keys <= w.store.Keys
  {
    var w' := After(cfg, w, Restart(boot));
    if forall u :: Agrees(w', u) {
      forall k | k in RestoredPeers(w, boot.loaded) ensures k in w.store {
        assert Agrees(w', k);
      }
    }
  }

  // ---------------------------------------------------------------- exactly which states settle in agreement

  /** The world once every queued event has been handled, in order and successfully. */
  ghost function Drained(w: World): World
    decreases |w.queue|
  {
    if w.queue == [] then w else Drained(Delivered(w, true, true, true))
  }

  /** For a stored UID the last queued event is a creation, or there is none and the controller agrees already;
      for a UID without a record some deletion is queued or the controller does not have it. */
  ghost predicate SettlesInAgreement(w: World, u: Uid) {
    if u in w.store then
      LastEvent(w.queue, u) == Some(Created(u)) || (LastEvent(w.queue, u).None? && Agrees(w, u))
    else Deleted(u) in w.queue || u !in w.peers
  }

  lemma LastEventIsAbout(queue: seq<Event>, u: Uid)
    ensures LastEvent(queue, u).Some? ==> LastEvent(queue, u).value.uid == u
  {
  }

  lemma OneDelivery(w: World, u: Uid)
    requires w.queue != []
    ensures SettlesInAgreement(w, u) <==> SettlesInAgreement(Delivered(w, true, true, true), u)
  {
    assert w.queue == [w.queue[0]] + w.queue[1..];
    LastEventIsAbout(w.queue[1..], u);
  }

  /** While no handler moves, draining the queue leaves controller and store in agreement on `u` if and only if
      `SettlesInAgreement` holds of the state it starts from. */
  lemma {:induction false} DrainedAgreesExactly(w: World, u: Uid)
    ensures Agrees(Drained(w), u) <==> SettlesInAgreement(w, u)
    decreases |w.queue|
  {
    if w.queue != [] {
      OneDelivery(w, u);
      DrainedAgreesExactly(Delivered(w, true, true, true), u);
    }
  }
}
