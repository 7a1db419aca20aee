/** The WireGuard peer protocol as a state machine: /wg-init and /phone-home handlers
    (cmd/server/wireguard_routes.go), the event-driven reconciler (cmd/server/reconciliation_runtime.go,
    pkg/reconcilers/wireguardpeer_reconciler.go) and restarts (pkg/wireguard/controller.go).

    Every lock section of a handler is a step of its own, so handlers interleave freely with each other,
    with event deliveries and with restarts. */
module PeerProtocol {
  import opened Prelude
  import opened IPAllocation
  import opened WireGuardController

  type Uid = string

  datatype Config = Config(net: Subnet, server: Addr)

  /** A stored WireGuardPeer intent; its allowed_ip is `addr/32`. */
  datatype Intent = Intent(key: string, addr: Addr) {
    function Route(): AllowedIP { Cidr(addr, 32) }
  }

  /** Where a request handler stands between two of its lock sections. */
  datatype Handler =
    | Checked(uid: Uid, key: string)                  // wg-init: no record was found
    | Allocated(uid: Uid, key: string, addr: Addr)    // wg-init: an address was taken
    | Stored(uid: Uid)                                // wg-init: the record was saved
    | Homing(uid: Uid, seen: bool)                    // phone-home: the record was looked up
    | Erased(uid: Uid)                                // phone-home: a record it had seen was deleted
    | Fetched(uid: Uid, copy: Intent)                 // reconciler: the record was read
    | Applied(uid: Uid, copy: Intent)                 // reconciler: the controller was called, the status not saved

  datatype Event = Created(uid: Uid) | Deleted(uid: Uid)

  /** The service is not up after a startup reconcile that failed: it exits, and only another restart follows. */
  datatype World = World(
    used: set<Addr>, store: map<Uid, Intent>, handlers: map<nat, Handler>,
    queue: seq<Event>, peers: Peers, saved: Peers, up: bool)

  datatype Step =
    | Check(h: nat, uid: Uid, key: string)
    | Allocate(h: nat)
    | Save(h: nat, ok: bool)
    | HomeLoad(h: nat, uid: Uid)
    | HomeDelete(h: nat, ok: bool)
    | Publish(h: nat, ok: bool)
    | Deliver(h: nat, i: nat, ok: bool, saveOk: bool)  // a deletion is carried out; for a creation the record is read
    | Apply(h: nat, ok: bool, saveOk: bool)           // UpsertPeer with the copy that was read
    | SaveStatus(h: nat, ok: bool)                    // the status update saves the whole copy
    | Restart(boot: Boot)

  /** How a restart goes: whether the state file could be read, which records the startup reconcile reached, and which
      of them it had reached at its last successful save, if it saved at all; and whether it got through all of them. */
  datatype Boot = Boot(loaded: bool, done: set<Uid>, kept: Option<set<Uid>>, ok: bool)

  function InitialWorld(cfg: Config): World {
    World({cfg.server}, map[], map[], [], map[], map[], true)
  }

  ghost predicate Enabled(cfg: Config, w: World, s: Step) {
    && (s.Restart? || w.up)
    && match s
       case Check(h, uid, _) => h !in w.handlers && uid !in w.store
       case Allocate(h) => h in w.handlers && w.handlers[h].Checked? && SearchEnds(cfg.net, w.used)
       case Save(h, _) => h in w.handlers && w.handlers[h].Allocated?
       case HomeLoad(h, _) => h !in w.handlers
       case HomeDelete(h, _) => h in w.handlers && w.handlers[h].Homing?
       case Publish(h, _) => h in w.handlers && (w.handlers[h].Stored? || w.handlers[h].Erased?)
       case Deliver(h, i, _, _) => h !in w.handlers && i < |w.queue|
       case Apply(h, _, _) => h in w.handlers && w.handlers[h].Fetched?
       case SaveStatus(h, _) => h in w.handlers && w.handlers[h].Applied?
       case Restart(boot) =>
         && boot.done <= w.store.Keys && (boot.kept.Some? ==> boot.kept.value <= boot.done)
         && (boot.ok ==> boot.done == w.store.Keys)
  }

  /** The restored peers after the startup reconcile has upserted the records in `done`. */
  function Reconciled(saved: Peers, store: map<Uid, Intent>, done: set<Uid>): Peers
    requires done <= store.Keys
  {
    map k | k in saved.Keys + done ::
      if k in done then Upsert(saved, k, store[k].key, store[k].Route(), true).peers[k] else saved[k]
  }

  ghost predicate ReconciledTo(saved: Peers, store: map<Uid, Intent>, done: set<Uid>, peers: Peers) {
    done <= store.Keys && peers == Reconciled(saved, store, done)
  }

  /** One more upsert of the startup reconcile. */
  lemma ReconcileOneMore(saved: Peers, store: map<Uid, Intent>, done: set<Uid>, peers: Peers, uid: Uid, deviceOk: bool)
    requires ReconciledTo(saved, store, done, peers) && uid in store && uid !in done
    requires Upsert(peers, uid, store[uid].key, store[uid].Route(), deviceOk).ok
    ensures ReconciledTo(saved, store, done + {uid},
                         Upsert(peers, uid, store[uid].key, store[uid].Route(), deviceOk).peers)
  {
  }

  /** The controller's table after a call on it, and what it saved. */
  function WithPeers(w: World, o: Outcome, saveOk: bool): World {
    w.(peers := o.peers, saved := if o.saves && saveOk then o.peers else w.saved)
  }

  /** The peers that a restart restores. */
  function RestoredPeers(w: World, loaded: bool): Peers {
    if loaded then w.saved else map[]
  }

  ghost function RestartUsed(cfg: Config, w: World, loaded: bool): set<Addr>
    requires cfg.net.prefix <= 32
  {
    {cfg.server} + VpnAddrsIn(cfg.net, RestoredPeers(w, loaded))
  }

  /** `saved` is what the state file lists after a startup reconcile that last saved as `kept` says. */
  ghost predicate KeptAs(w: World, loaded: bool, kept: Option<set<Uid>>, saved: Peers) {
    match kept
    case None => saved == w.saved
    case Some(u) => ReconciledTo(RestoredPeers(w, loaded), w.store, u, saved)
  }

  lemma RestartStep(cfg: Config, w: World, boot: Boot, peers: Peers, saved: Peers)
    requires cfg.net.prefix <= 32 && ReconciledTo(RestoredPeers(w, boot.loaded), w.store, boot.done, peers)
    requires KeptAs(w, boot.loaded, boot.kept, saved) && (boot.kept.Some? ==> boot.kept.value <= boot.done)
    requires boot.ok ==> boot.done == w.store.Keys
    ensures StepsTo(cfg, w, Restart(boot),
                    World({cfg.server} + VpnAddrsIn(cfg.net, RestoredPeers(w, boot.loaded)),
                          w.store, map[], [], peers, saved, boot.ok))
  {
  }

  ghost function After(cfg: Config, w: World, s: Step): World
    requires cfg.net.prefix <= 32 && Enabled(cfg, w, s)
  {
    match s
    case Check(h, uid, key) => w.(handlers := w.handlers[h := Checked(uid, key)])
    case Allocate(h) =>
      (match NextFree(cfg.net, w.used)
       case None => w.(handlers := w.handlers - {h})
       case Some(a) =>
         w.(used := w.used + {a},
            handlers := w.handlers[h := Allocated(w.handlers[h].uid, w.handlers[h].key, a)]))
    case Save(h, ok) =>
      var p := w.handlers[h];
      if ok then w.(store := w.store[p.uid := Intent(p.key, p.addr)], handlers := w.handlers[h := Stored(p.uid)])
      else w.(used := w.used - {p.addr}, handlers := w.handlers - {h})
    case HomeLoad(h, uid) => w.(handlers := w.handlers[h := Homing(uid, uid in w.store)])
    case HomeDelete(h, ok) =>
      var p := w.handlers[h];
      if !ok then w.(handlers := w.handlers - {h})
      else w.(store := w.store - {p.uid},
              handlers := if p.seen then w.handlers[h := Erased(p.uid)] else w.handlers - {h})
    case Publish(h, ok) =>
      var p := w.handlers[h];
      var e := if p.Stored? then Created(p.uid) else Deleted(p.uid);
      w.(queue := if ok then w.queue + [e] else w.queue, handlers := w.handlers - {h})
    case Deliver(h, i, ok, saveOk) =>
      var e, w' := w.queue[i], w.(queue := w.queue[..i] + w.queue[i + 1..]);
      if e.Deleted? then WithPeers(w', RemoveByID(w.peers, e.uid, ok), saveOk)
      else if e.uid in w.store && ok then w'.(handlers := w.handlers[h := Fetched(e.uid, w.store[e.uid])])
      else w'
    case Apply(h, ok, saveOk) =>
      var p := w.handlers[h];
      WithPeers(w.(handlers := w.handlers[h := Applied(p.uid, p.copy)]),
                Upsert(w.peers, p.uid, p.copy.key, p.copy.Route(), ok), saveOk)
    case SaveStatus(h, ok) =>
      var p := w.handlers[h];
      w.(store := if ok then w.store[p.uid := p.copy] else w.store, handlers := w.handlers - {h})
    case Restart(boot) =>
      var restored := RestoredPeers(w, boot.loaded);
      World(RestartUsed(cfg, w, boot.loaded), w.store, map[], [], Reconciled(restored, w.store, boot.done),
            if boot.kept.Some? then Reconciled(restored, w.store, boot.kept.value) else w.saved, boot.ok)
  }

  /** `s` can be taken in `w` and leads to `w'`. */
  ghost predicate StepsTo(cfg: Config, w: World, s: Step, w': World) {
    cfg.net.prefix <= 32 && Enabled(cfg, w, s) && After(cfg, w, s) == w'
  }

  ghost predicate Runs(cfg: Config, w: World, steps: seq<Step>)
    requires cfg.net.prefix <= 32
    decreases |steps|
  {
    steps == [] || (Enabled(cfg, w, steps[0]) && Runs(cfg, After(cfg, w, steps[0]), steps[1..]))
  }

  ghost function End(cfg: Config, w: World, steps: seq<Step>): World
    requires cfg.net.prefix <= 32 && Runs(cfg, w, steps)
    decreases |steps|
  {
    if steps == [] then w else End(cfg, After(cfg, w, steps[0]), steps[1..])
  }

  /** The steps are a run from `w`, and it ends in `w'`. */
  ghost predicate Performs(cfg: Config, w: World, steps: seq<Step>, w': World) {
    cfg.net.prefix <= 32 && Runs(cfg, w, steps) && End(cfg, w, steps) == w'
  }

  lemma {:induction false} RunsCompose(cfg: Config, w: World, first: seq<Step>, second: seq<Step>)
    requires cfg.net.prefix <= 32 && Runs(cfg, w, first) && Runs(cfg, End(cfg, w, first), second)
    ensures Runs(cfg, w, first + second)
    ensures End(cfg, w, first + second) == End(cfg, End(cfg, w, first), second)
    decreases |first|
  {
    if first == [] {
      assert first + second == second;
    } else {
      assert (first + second)[0] == first[0] && (first + second)[1..] == first[1..] + second;
      RunsCompose(cfg, After(cfg, w, first[0]), first[1..], second);
    }
  }

  lemma ThenStep(cfg: Config, w: World, steps: seq<Step>, s: Step)
    requires cfg.net.prefix <= 32 && Runs(cfg, w, steps) && Enabled(cfg, End(cfg, w, steps), s)
    ensures Runs(cfg, w, steps + [s]) && End(cfg, w, steps + [s]) == After(cfg, End(cfg, w, steps), s)
  {
    var w' := End(cfg, w, steps);
    assert [s][1..] == [] && Runs(cfg, After(cfg, w', s), []);
    RunsCompose(cfg, w, steps, [s]);
  }

  lemma AlsoPerforms(cfg: Config, w: World, steps: seq<Step>, w1: World, s: Step, w2: World)
    requires Performs(cfg, w, steps, w1) && StepsTo(cfg, w1, s, w2)
    ensures Performs(cfg, w, steps + [s], w2)
  {
    ThenStep(cfg, w, steps, s);
  }

  // ---------------------------------------------------------------- undisturbed requests and deliveries

  /** The steps of one wg-init by handler `h`, undisturbed, for a UID without a record. */
  ghost function InitRun(cfg: Config, w: World, h: nat, uid: Uid, key: string, saveOk: bool, publishOk: bool): seq<Step>
    requires cfg.net.prefix <= 32
  {
    [Check(h, uid, key), Allocate(h)]
    + (if NextFree(cfg.net, w.used).None? then []
       else if !saveOk then [Save(h, false)] else [Save(h, true), Publish(h, publishOk)])
  }

  /** Steps that request handlers take. */
  ghost predicate HandlerSteps(steps: seq<Step>) {
    forall i :: 0 <= i < |steps| ==> !steps[i].Restart? && !steps[i].Deliver?
  }

  lemma RunsOfHandlers(cfg: Config, w: World, h: nat, uid: Uid, key: string, ok: bool, publishOk: bool)
    requires cfg.net.prefix <= 32
    ensures HandlerSteps(InitRun(cfg, w, h, uid, key, ok, publishOk)) && HandlerSteps(HomeRun(w, h, uid, ok, publishOk))
  {
  }

  lemma HandlerGone(w: World, h: nat, p: Handler)
    requires h !in w.handlers
    ensures w.handlers[h := p] - {h} == w.handlers
  {
  }

  lemma HandlerMoves(w: World, h: nat, p: Handler, q: Handler)
    ensures w.handlers[h := p][h := q] == w.handlers[h := q]
  {
  }

  /** It stores the next free address under the UID and announces it, or leaves the world as it was. */
  lemma InitRunEffect(cfg: Config, w: World, h: nat, uid: Uid, key: string, saveOk: bool, publishOk: bool)
    requires cfg.net.prefix <= 32 && w.up && h !in w.handlers && uid !in w.store && SearchEnds(cfg.net, w.used)
    ensures var w' := match NextFree(cfg.net, w.used)
                      case None => w
                      case Some(a) =>
                        if !saveOk then w
                        else w.(used := w.used + {a}, store := w.store[uid := Intent(key, a)],
                                queue := if publishOk then w.queue + [Created(uid)] else w.queue);
            Performs(cfg, w, InitRun(cfg, w, h, uid, key, saveOk, publishOk), w')
  {
    var w1 := w.(handlers := w.handlers[h := Checked(uid, key)]);
    assert Performs(cfg, w, [], w);
    AlsoPerforms(cfg, w, [], w, Check(h, uid, key), w1);
    var steps := [] + [Check(h, uid, key)];
    HandlerGone(w, h, Checked(uid, key));
    if NextFree(cfg.net, w.used).None? {
      AlsoPerforms(cfg, w, steps, w1, Allocate(h), w);
      assert steps + [Allocate(h)] == InitRun(cfg, w, h, uid, key, saveOk, publishOk);
    } else {
      var a := NextFree(cfg.net, w.used).value;
      var w2 := w.(used := w.used + {a}, handlers := w.handlers[h := Allocated(uid, key, a)]);
      HandlerMoves(w, h, Checked(uid, key), Allocated(uid, key, a));
      AlsoPerforms(cfg, w, steps, w1, Allocate(h), w2);
      steps := steps + [Allocate(h)];
      StoreAndAnnounce(cfg, w.(used := w.used + {a}), h, uid, key, a, saveOk, publishOk);
      var rest := if !saveOk then [Save(h, false)] else [Save(h, true), Publish(h, publishOk)];
      PerformsCompose(cfg, w, steps, w2, rest, End(cfg, w2, rest));
      assert steps + rest == InitRun(cfg, w, h, uid, key, saveOk, publishOk);
      assert w.used + {a} - {a} == w.used;
    }
  }

  lemma PerformsCompose(cfg: Config, w: World, first: seq<Step>, w1: World, second: seq<Step>, w2: World)
    requires Performs(cfg, w, first, w1) && Performs(cfg, w1, second, w2)
    ensures Performs(cfg, w, first + second, w2)
  {
    RunsCompose(cfg, w, first, second);
  }

  lemma StoreAndAnnounce(cfg: Config, w: World, h: nat, uid: Uid, key: string, a: Addr, saveOk: bool, publishOk: bool)
    requires cfg.net.prefix <= 32 && w.up && h !in w.handlers
    ensures var steps := if !saveOk then [Save(h, false)] else [Save(h, true), Publish(h, publishOk)];
            Performs(cfg, w.(handlers := w.handlers[h := Allocated(uid, key, a)]), steps,
                     if !saveOk then w.(used := w.used - {a})
                     else w.(store := w.store[uid := Intent(key, a)],
                             queue := if publishOk then w.queue + [Created(uid)] else w.queue))
  {
    var w0 := w.(handlers := w.handlers[h := Allocated(uid, key, a)]);
    HandlerGone(w, h, Allocated(uid, key, a));
    assert Performs(cfg, w0, [], w0);
    assert [] + [Save(h, saveOk)] == [Save(h, saveOk)];
    if saveOk {
      var w1 := w.(store := w.store[uid := Intent(key, a)], handlers := w.handlers[h := Stored(uid)]);
      HandlerMoves(w, h, Allocated(uid, key, a), Stored(uid));
      AlsoPerforms(cfg, w0, [], w0, Save(h, true), w1);
      HandlerGone(w, h, Stored(uid));
      AlsoPerforms(cfg, w0, [Save(h, true)], w1, Publish(h, publishOk),
                   w.(store := w1.store, queue := if publishOk then w.queue + [Created(uid)] else w.queue));
      assert [Save(h, true)] + [Publish(h, publishOk)] == [Save(h, true), Publish(h, publishOk)];
    } else {
      AlsoPerforms(cfg, w0, [], w0, Save(h, false), w.(used := w.used - {a}));
    }
  }

  /** The steps of one undisturbed phone-home by handler `h`. */
  function HomeRun(w: World, h: nat, uid: Uid, deleteOk: bool, publishOk: bool): seq<Step> {
    [HomeLoad(h, uid), HomeDelete(h, deleteOk)] + if deleteOk && uid in w.store then [Publish(h, publishOk)] else []
  }

  /** It removes the record and announces the removal of a record that was there. */
  lemma HomeRunEffect(cfg: Config, w: World, h: nat, uid: Uid, deleteOk: bool, publishOk: bool)
    requires cfg.net.prefix <= 32 && w.up && h !in w.handlers
    ensures var w' := if !deleteOk || uid !in w.store then w
                      else w.(store := w.store - {uid},
                              queue := if publishOk then w.queue + [Deleted(uid)] else w.queue);
            Performs(cfg, w, HomeRun(w, h, uid, deleteOk, publishOk), w')
  {
    var p := Homing(uid, uid in w.store);
    var w1 := w.(handlers := w.handlers[h := p]);
    assert Performs(cfg, w, [], w);
    AlsoPerforms(cfg, w, [], w, HomeLoad(h, uid), w1);
    var steps := [] + [HomeLoad(h, uid)];
    HandlerGone(w, h, p);
    if deleteOk && uid in w.store {
      var w2 := w.(store := w.store - {uid}, handlers := w.handlers[h := Erased(uid)]);
      HandlerMoves(w, h, p, Erased(uid));
      AlsoPerforms(cfg, w, steps, w1, HomeDelete(h, true), w2);
      steps := steps + [HomeDelete(h, true)];
      HandlerGone(w, h, Erased(uid));
      AlsoPerforms(cfg, w, steps, w2, Publish(h, publishOk),
                   w.(store := w2.store, queue := if publishOk then w.queue + [Deleted(uid)] else w.queue));
      steps := steps + [Publish(h, publishOk)];
    } else {
      assert deleteOk ==> w.store - {uid} == w.store;
      AlsoPerforms(cfg, w, steps, w1, HomeDelete(h, deleteOk), w);
      steps := steps + [HomeDelete(h, deleteOk)];
    }
    assert steps == HomeRun(w, h, uid, deleteOk, publishOk);
  }

  /** What the oldest event comes to when its delivery is undisturbed. */
  function Handled(w: World, readOk: bool, deviceOk: bool): Outcome
    requires w.queue != []
  {
    match w.queue[0]
    case Deleted(uid) => RemoveByID(w.peers, uid, deviceOk)
    case Created(uid) =>
      if uid in w.store && readOk then Upsert(w.peers, uid, w.store[uid].key, w.store[uid].Route(), deviceOk)
      else Outcome(w.peers, false, false)
  }

  function Delivered(w: World, readOk: bool, deviceOk: bool, saveOk: bool): World
    requires w.queue != []
  {
    WithPeers(w.(queue := w.queue[1..]), Handled(w, readOk, deviceOk), saveOk)
  }

  /** The steps of that delivery, by handler `h`. */
  function DeliverRun(w: World, h: nat, readOk: bool, deviceOk: bool, saveOk: bool, statusOk: bool): seq<Step>
    requires w.queue != []
  {
    if w.queue[0].Deleted? then [Deliver(h, 0, deviceOk, saveOk)]
    else if w.queue[0].uid in w.store && readOk then
      [Deliver(h, 0, true, saveOk), Apply(h, deviceOk, saveOk), SaveStatus(h, statusOk)]
    else [Deliver(h, 0, readOk, saveOk)]
  }

  lemma CreationRunEffect(cfg: Config, w: World, h: nat, deviceOk: bool, saveOk: bool, statusOk: bool)
    requires cfg.net.prefix <= 32 && w.up && h !in w.handlers && w.queue != []
    requires w.queue[0].Created? && w.queue[0].uid in w.store
    ensures Performs(cfg, w, DeliverRun(w, h, true, deviceOk, saveOk, statusOk), Delivered(w, true, deviceOk, saveOk))
  {
    var u, copy := w.queue[0].uid, w.store[w.queue[0].uid];
    var steps := DeliverRun(w, h, true, deviceOk, saveOk, statusOk);
    var w1 := w.(queue := w.queue[1..], handlers := w.handlers[h := Fetched(u, copy)]);
    var w2 := WithPeers(w1.(handlers := w.handlers[h := Applied(u, copy)]), Handled(w, true, deviceOk), saveOk);
    CreationSteps(cfg, w, h, w1, w2, deviceOk, saveOk, statusOk);
    assert Performs(cfg, w, [], w);
    AlsoPerforms(cfg, w, [], w, steps[0], w1);
    AlsoPerforms(cfg, w, [] + [steps[0]], w1, steps[1], w2);
    AlsoPerforms(cfg, w, [] + [steps[0]] + [steps[1]], w2, steps[2], Delivered(w, true, deviceOk, saveOk));
    assert [] + [steps[0]] + [steps[1]] + [steps[2]] == steps;
  }

  lemma CreationSteps(cfg: Config, w: World, h: nat, w1: World, w2: World, deviceOk: bool, saveOk: bool, statusOk: bool)
    requires cfg.net.prefix <= 32 && w.up && h !in w.handlers && w.queue != []
    requires w.queue[0].Created? && w.queue[0].uid in w.store
    requires var u, copy := w.queue[0].uid, w.store[w.queue[0].uid];
             && w1 == w.(queue := w.queue[1..], handlers := w.handlers[h := Fetched(u, copy)])
             && w2 == WithPeers(w1.(handlers := w.handlers[h := Applied(u, copy)]), Handled(w, true, deviceOk), saveOk)
    ensures StepsTo(cfg, w, Deliver(h, 0, true, saveOk), w1) && StepsTo(cfg, w1, Apply(h, deviceOk, saveOk), w2)
    ensures StepsTo(cfg, w2, SaveStatus(h, statusOk), Delivered(w, true, deviceOk, saveOk))
  {
    var u, copy := w.queue[0].uid, w.store[w.queue[0].uid];
    assert w.queue[..0] + w.queue[1..] == w.queue[1..];
    HandlerMoves(w, h, Fetched(u, copy), Applied(u, copy));
    assert w.store[u := copy] == w.store;
    HandlerGone(w, h, Applied(u, copy));
  }

  /** An undisturbed delivery comes to what `Delivered` says; its status update changes nothing. */
  lemma DeliverRunEffect(cfg: Config, w: World, h: nat, readOk: bool, deviceOk: bool, saveOk: bool, statusOk: bool)
    requires cfg.net.prefix <= 32 && w.up && h !in w.handlers && w.queue != []
    ensures Performs(cfg, w, DeliverRun(w, h, readOk, deviceOk, saveOk, statusOk),
                     Delivered(w, readOk, deviceOk, saveOk))
  {
    if w.queue[0].Created? && w.queue[0].uid in w.store && readOk {
      CreationRunEffect(cfg, w, h, deviceOk, saveOk, statusOk);
    } else {
      var steps := DeliverRun(w, h, readOk, deviceOk, saveOk, statusOk);
      UnreadDelivery(cfg, w, h, readOk, deviceOk, saveOk);
      assert Performs(cfg, w, [], w);
      AlsoPerforms(cfg, w, [], w, steps[0], Delivered(w, readOk, deviceOk, saveOk));
      assert [] + [steps[0]] == steps;
    }
  }

  /** A deletion, or a creation whose record is not read, is one step. */
  lemma UnreadDelivery(cfg: Config, w: World, h: nat, readOk: bool, deviceOk: bool, saveOk: bool)
    requires cfg.net.prefix <= 32 && w.up && h !in w.handlers && w.queue != []
    requires w.queue[0].Deleted? || w.queue[0].uid !in w.store || !readOk
    ensures StepsTo(cfg, w, Deliver(h, 0, if w.queue[0].Deleted? then deviceOk else readOk, saveOk),
                    Delivered(w, readOk, deviceOk, saveOk))
  {
    assert w.queue[..0] + w.queue[1..] == w.queue[1..];
  }
}
