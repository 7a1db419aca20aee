/** Which overlaps leave controller and store apart. From any state the protocol can be in, the handlers in flight for
    one peer run to their ends, events are delivered in order and one at a time, and no new request for that peer
    comes: this module says from which states every such completion ends in agreement. */
module PeerSettle {
  import opened Prelude
  import opened IPAllocation
  import opened WireGuardController
  import opened PeerProtocol
  import opened PeerAddresses
  import opened PeerFollow
  import opened PeerOverlap

  // ---------------------------------------------------------------- completions

  predicate IsDelivery(p: Handler) {
    p.Fetched? || p.Applied?
  }

  ghost predicate OneDeliveryAtATime(w: World) {
    forall h, g :: h in w.handlers && g in w.handlers && IsDelivery(w.handlers[h]) && IsDelivery(w.handlers[g]) ==>
      h == g
  }

  /** No new request for `u`; events are published, delivered one at a time and in order, and applied. Writes to storage
      may fail. */
  ghost predicate Completing(w: World, s: Step, u: Uid) {
    match s
    case Check(_, v, _) => v != u
    case HomeLoad(_, v) => v != u
    case Publish(_, ok) => ok
    case Deliver(_, i, ok, _) => i == 0 && ok && forall h :: h in w.handlers ==> !IsDelivery(w.handlers[h])
    case Apply(_, ok, _) => ok
    case Restart(_) => false
    case _ => true
  }

  ghost predicate CompletingRun(cfg: Config, w: World, steps: seq<Step>, u: Uid)
    requires cfg.net.prefix <= 32
    decreases |steps|
  {
    steps == [] ||
    (&& Enabled(cfg, w, steps[0]) && Completing(w, steps[0], u)
     && CompletingRun(cfg, After(cfg, w, steps[0]), steps[1..], u))
  }

  /** Nothing is under way for `u` any more. A wg-init whose search for an address does not end is not waited for. */
  ghost predicate Finished(cfg: Config, w: World, u: Uid) {
    && LastEvent(w.queue, u).None?
    && forall h :: h in w.handlers && w.handlers[h].uid == u ==> w.handlers[h].Checked? && !SearchEnds(cfg.net, w.used)
  }

  ghost predicate AlwaysSettles(cfg: Config, w: World, u: Uid)
    requires cfg.net.prefix <= 32
  {
    forall steps :: CompletingRun(cfg, w, steps, u) && Runs(cfg, w, steps) && Finished(cfg, End(cfg, w, steps), u) ==>
      Agrees(End(cfg, w, steps), u)
  }

  // ---------------------------------------------------------------- the condition

  ghost predicate Has(w: World, p: Handler) {
    exists h :: h in w.handlers && w.handlers[h] == p
  }

  /** Handler `h` delivers an event of `u`. */
  ghost predicate Delivers(w: World, u: Uid, h: nat) {
    h in w.handlers && IsDelivery(w.handlers[h]) && w.handlers[h].uid == u
  }

  ghost predicate Delivering(w: World, u: Uid) {
    exists h :: Delivers(w, u, h)
  }

  /** Handler `h` may still store a new record of `u`. */
  ghost predicate Writes(cfg: Config, w: World, u: Uid, h: nat)
    requires cfg.net.prefix <= 32
  {
    && h in w.handlers && w.handlers[h].uid == u
    && (w.handlers[h].Allocated? || (w.handlers[h].Checked? && (CanTake(cfg, w) || exists g :: Taking(w, g))))
  }

  ghost predicate HasWriter(cfg: Config, w: World, u: Uid)
    requires cfg.net.prefix <= 32
  {
    exists h :: Writes(cfg, w, u, h)
  }

  /** A deletion of the record of `u`, announced or silent, is on its way. */
  ghost predicate Deleting(w: World, u: Uid) {
    Has(w, Erased(u)) || Has(w, Homing(u, true)) || Has(w, Homing(u, false))
  }

  /** The last word of the events of `u`, pending or still to be published, can only be a creation. */
  ghost predicate EndsCreated(w: World, u: Uid) {
    Has(w, Stored(u)) || LastEvent(w.queue, u) == Some(Created(u))
  }

  ghost predicate Shows(w: World, u: Uid, record: Intent) {
    u in w.peers && w.peers[u].publicKey == record.key && w.peers[u].allowedIP == record.Route()
  }

  /** With no delivery under way: a stored record has no deletion announced and a creation last, or nothing pending and
      the controller in agreement; without a record a deletion is pending or the controller has no peer. */
  ghost predicate IdleSettles(w: World, u: Uid) {
    if u in w.store then
      !Has(w, Erased(u)) && (EndsCreated(w, u) || (LastEvent(w.queue, u).None? && Agrees(w, u)))
    else Has(w, Erased(u)) || Deleted(u) in w.queue || u !in w.peers
  }

  /** With a delivery under way its copy may come to be applied, and saved or not. */
  ghost predicate DeliverySettles(w: World, u: Uid, p: Handler)
    requires IsDelivery(p)
  {
    && (EndsCreated(w, u) || LastEvent(w.queue, u).None?)
    && (p.Fetched? ==> if u in w.store then EndsCreated(w, u) || w.store[u] == p.copy else Deleted(u) in w.queue)
    && (p.Applied? ==>
          && (EndsCreated(w, u) || (Shows(w, u, p.copy) && (u in w.store ==> Agrees(w, u))))
          && (u !in w.store ==> Deleted(u) in w.queue || u !in w.peers))
  }

  /** Deliveries and phone-homes do no harm to what is there, and what is pending settles. */
  ghost predicate Calm(w: World, u: Uid) {
    && (Delivering(w, u) ==> !Deleting(w, u))
    && (u in w.store ==>
          && !Has(w, Homing(u, false))
          && (Has(w, Homing(u, true)) ==> !Has(w, Stored(u)) && Created(u) !in w.queue))
    && (forall h :: Delivers(w, u, h) ==> DeliverySettles(w, u, w.handlers[h]))
    && (!Delivering(w, u) ==> IdleSettles(w, u))
  }

  /** The condition: nothing that may store a record of `u` is in flight together with anything that deletes it; no
      phone-home that found no record is in flight while there is one, nor one that found a record while its creation
      is still pending; and what is pending settles. */
  ghost predicate Harmless(cfg: Config, w: World, u: Uid)
    requires cfg.net.prefix <= 32
  {
    Calm(w, u) && (HasWriter(cfg, w, u) ==> !Deleting(w, u))
  }

  // ================================================================ it is enough

  lemma FinishedAgrees(cfg: Config, w: World, u: Uid)
    requires cfg.net.prefix <= 32 && Finished(cfg, w, u)
    ensures Harmless(cfg, w, u) ==> Agrees(w, u)
  {
    LastEventNone(w.queue, u);
  }

  lemma {:induction false} LastEventNone(queue: seq<Event>, u: Uid)
    ensures LastEvent(queue, u).None? <==> Created(u) !in queue && Deleted(u) !in queue
    ensures LastEvent(queue, u).Some? ==> LastEvent(queue, u).value in queue && LastEvent(queue, u).value.uid == u
  {
    if queue != [] {
      LastEventNone(queue[1..], u);
      assert queue == [queue[0]] + queue[1..];
    }
  }

  /** All but `h` stay where they are. */
  ghost predicate OthersStay(w: World, w': World, h: nat) {
    && (forall g :: g != h ==> (g in w'.handlers <==> g in w.handlers))
    && (forall g :: g != h && g in w.handlers ==> w'.handlers[g] == w.handlers[g])
  }

  lemma OthersHave(w: World, w': World, h: nat, p: Handler)
    requires OthersStay(w, w', h)
    ensures Has(w', p) ==> Has(w, p) || (h in w'.handlers && w'.handlers[h] == p)
    ensures Has(w, p) ==> Has(w', p) || (h in w.handlers && w.handlers[h] == p)
  {
  }

  /** No writer comes up: a wg-init that had no address in reach gets none. */
  lemma WritersStay(cfg: Config, w: World, s: Step, u: Uid)
    requires cfg.net.prefix <= 32 && Enabled(cfg, w, s) && Completing(w, s, u)
    ensures HasWriter(cfg, After(cfg, w, s), u) ==> HasWriter(cfg, w, u)
  {
    var w' := After(cfg, w, s);
    if h :| Writes(cfg, w', u, h) {
      if h in w.handlers && w.handlers[h].Allocated? {
        assert Writes(cfg, w, u, h);
      } else if w'.handlers[h].Allocated? {
        assert s == Allocate(h) && Writes(cfg, w, u, h);
      } else {
        assert h in w.handlers && w.handlers[h] == w'.handlers[h];
        if !CanTake(cfg, w) && forall g :: !Taking(w, g) {
          NobodyTakes(cfg, w, s);
        }
        assert Writes(cfg, w, u, h);
      }
    }
  }

  // ---------------------------------------------------------------- steps of other peers

  /** Nothing about `u` is different. */
  ghost predicate SameFor(w: World, w': World, u: Uid) {
    && (u in w'.store <==> u in w.store) && (u in w.store ==> w'.store[u] == w.store[u])
    && (u in w'.peers <==> u in w.peers) && (u in w.peers ==> w'.peers[u] == w.peers[u])
    && LastEvent(w'.queue, u) == LastEvent(w.queue, u)
    && (Created(u) in w'.queue <==> Created(u) in w.queue) && (Deleted(u) in w'.queue <==> Deleted(u) in w.queue)
    && (forall h :: h in w.handlers && w.handlers[h].uid == u ==> h in w'.handlers && w'.handlers[h] == w.handlers[h])
    && (forall h :: h in w'.handlers && w'.handlers[h].uid == u ==> h in w.handlers && w.handlers[h] == w'.handlers[h])
  }

  lemma SameHas(w: World, w': World, u: Uid, p: Handler)
    requires SameFor(w, w', u) && p.uid == u
    ensures Has(w', p) <==> Has(w, p)
  {
  }

  lemma SameDelivers(w: World, w': World, u: Uid, h: nat)
    requires SameFor(w, w', u)
    ensures Delivers(w', u, h) <==> Delivers(w, u, h)
  {
  }

  lemma SameStaysHarmless(cfg: Config, w: World, w': World, u: Uid)
    requires cfg.net.prefix <= 32 && SameFor(w, w', u) && Harmless(cfg, w, u)
    requires HasWriter(cfg, w', u) ==> HasWriter(cfg, w, u)
    ensures Harmless(cfg, w', u)
  {
    SameHas(w, w', u, Stored(u));
    SameHas(w, w', u, Erased(u));
    SameHas(w, w', u, Homing(u, true));
    SameHas(w, w', u, Homing(u, false));
    forall h ensures Delivers(w', u, h) <==> Delivers(w, u, h) {
      SameDelivers(w, w', u, h);
    }
  }

  /** The peer a step is about. */
  function Subject(w: World, s: Step): Option<Uid> {
    match s
    case Check(_, v, _) => Some(v)
    case HomeLoad(_, v) => Some(v)
    case Deliver(_, i, _, _) => if i < |w.queue| then Some(w.queue[i].uid) else None
    case Restart(_) => None
    case _ => if s.h in w.handlers then Some(w.handlers[s.h].uid) else None
  }

  lemma OtherQueue(queue: seq<Event>, e: Event, u: Uid)
    requires e.uid != u
    ensures LastEvent(queue + [e], u) == LastEvent(queue, u)
    ensures (Created(u) in queue + [e] <==> Created(u) in queue) && (Deleted(u) in queue + [e] <==> Deleted(u) in queue)
  {
    LastEventOfAppend(queue, e, u);
  }

  lemma OtherHead(queue: seq<Event>, u: Uid)
    requires queue != [] && queue[0].uid != u
    ensures LastEvent(queue[1..], u) == LastEvent(queue, u)
    ensures (Created(u) in queue[1..] <==> Created(u) in queue) && (Deleted(u) in queue[1..] <==> Deleted(u) in queue)
  {
    assert queue == [queue[0]] + queue[1..];
  }

  lemma OtherStepsAreSame(cfg: Config, w: World, s: Step, u: Uid)
    requires cfg.net.prefix <= 32 && Enabled(cfg, w, s) && Completing(w, s, u) && Subject(w, s) != Some(u)
    ensures SameFor(w, After(cfg, w, s), u)
  {
    match s
    case Publish(h, _) =>
      var p := w.handlers[h];
      OtherQueue(w.queue, if p.Stored? then Created(p.uid) else Deleted(p.uid), u);
    case Deliver(h, _, _, saveOk) =>
      OtherDelivery(cfg, w, h, saveOk, u);
    case _ =>
      OtherHandlerStep(cfg, w, s, u);
  }

  lemma OtherDelivery(cfg: Config, w: World, h: nat, saveOk: bool, u: Uid)
    requires cfg.net.prefix <= 32 && Enabled(cfg, w, Deliver(h, 0, true, saveOk)) && w.queue[0].uid != u
    ensures SameFor(w, After(cfg, w, Deliver(h, 0, true, saveOk)), u)
  {
    OtherHead(w.queue, u);
    OtherDeliveryEffect(cfg, w, h, saveOk, u);
  }

  lemma OtherDeliveryEffect(cfg: Config, w: World, h: nat, saveOk: bool, u: Uid)
    requires cfg.net.prefix <= 32 && Enabled(cfg, w, Deliver(h, 0, true, saveOk)) && w.queue[0].uid != u
    ensures var w' := After(cfg, w, Deliver(h, 0, true, saveOk));
            && w'.store == w.store && w'.queue == w.queue[1..] && OthersStay(w, w', h)
            && (h in w'.handlers ==> w'.handlers[h].uid == w.queue[0].uid)
            && (u in w'.peers <==> u in w.peers) && (u in w.peers ==> w'.peers[u] == w.peers[u])
  {
    assert w.queue[..0] + w.queue[1..] == w.queue[1..];
  }

  lemma OtherHandlerStep(cfg: Config, w: World, s: Step, u: Uid)
    requires cfg.net.prefix <= 32 && Enabled(cfg, w, s) && Subject(w, s) != Some(u)
    requires !s.Publish? && !s.Deliver? && !s.Restart?
    ensures SameFor(w, After(cfg, w, s), u)
  {
  }

  // ---------------------------------------------------------------- steps of the peer itself

  /** Handler `h` is a wg-init before its save, or none, in both worlds. */
  ghost predicate MovesQuietly(w: World, w': World, h: nat) {
    && OthersStay(w, w', h)
    && (h in w.handlers ==> w.handlers[h].Checked? || w.handlers[h].Allocated?)
    && (h in w'.handlers ==> w'.handlers[h].Checked? || w'.handlers[h].Allocated?)
    && w'.store == w.store && w'.peers == w.peers && w'.queue == w.queue
  }

  lemma QuietHas(w: World, w': World, h: nat, p: Handler)
    requires MovesQuietly(w, w', h) && !p.Checked? && !p.Allocated?
    ensures Has(w', p) <==> Has(w, p)
  {
    OthersHave(w, w', h, p);
  }

  lemma QuietDelivers(w: World, w': World, h: nat, u: Uid, g: nat)
    requires MovesQuietly(w, w', h)
    ensures Delivers(w', u, g) <==> Delivers(w, u, g)
    ensures Delivers(w, u, g) ==> w'.handlers[g] == w.handlers[g]
  {
  }

  /** Calm does not look at wg-inits before their save. */
  lemma QuietMoveKeepsCalm(w: World, w': World, h: nat, u: Uid)
    requires MovesQuietly(w, w', h)
    ensures (Calm(w', u) <==> Calm(w, u)) && (Deleting(w', u) <==> Deleting(w, u))
  {
    QuietHas(w, w', h, Stored(u));
    QuietHas(w, w', h, Erased(u));
    QuietHas(w, w', h, Homing(u, true));
    QuietHas(w, w', h, Homing(u, false));
    forall g
      ensures Delivers(w', u, g) <==> Delivers(w, u, g)
      ensures Delivers(w, u, g) ==> w'.handlers[g] == w.handlers[g]
    {
      QuietDelivers(w, w', h, u, g);
    }
  }

  lemma SaveStaysHarmless(cfg: Config, w: World, h: nat, ok: bool, u: Uid)
    requires cfg.net.prefix <= 32 && Harmless(cfg, w, u) && Enabled(cfg, w, Save(h, ok)) && w.handlers[h].uid == u
    ensures Harmless(cfg, After(cfg, w, Save(h, ok)), u)
  {
    var w' := After(cfg, w, Save(h, ok));
    WritersStay(cfg, w, Save(h, ok), u);
    if ok {
      assert Writes(cfg, w, u, h);
      StoringStaysHarmless(cfg, w, w', h, u);
    } else {
      QuietMoveKeepsCalm(w, w', h, u);
    }
  }

  /** A record is stored while nothing deletes it: its creation will be the last word. */
  lemma StoringStaysHarmless(cfg: Config, w: World, w': World, h: nat, u: Uid)
    requires cfg.net.prefix <= 32 && Harmless(cfg, w, u) && !Deleting(w, u) && OthersStay(w, w', h)
    requires h in w.handlers && w.handlers[h].Allocated? && h in w'.handlers && w'.handlers[h] == Stored(u)
    requires u in w'.store && w'.peers == w.peers && w'.queue == w.queue
    ensures Harmless(cfg, w', u)
  {
    OthersHave(w, w', h, Erased(u));
    OthersHave(w, w', h, Homing(u, true));
    OthersHave(w, w', h, Homing(u, false));
    assert Has(w', Stored(u)) && EndsCreated(w', u);
  }

  lemma AllocateStaysHarmless(cfg: Config, w: World, h: nat, u: Uid)
    requires cfg.net.prefix <= 32 && Harmless(cfg, w, u) && Enabled(cfg, w, Allocate(h)) && w.handlers[h].uid == u
    ensures Harmless(cfg, After(cfg, w, Allocate(h)), u)
  {
    WritersStay(cfg, w, Allocate(h), u);
    QuietMoveKeepsCalm(w, After(cfg, w, Allocate(h)), h, u);
  }

  lemma HomeStaysHarmless(cfg: Config, w: World, h: nat, ok: bool, u: Uid)
    requires cfg.net.prefix <= 32 && Harmless(cfg, w, u) && Enabled(cfg, w, HomeDelete(h, ok)) && w.handlers[h].uid == u
    ensures Harmless(cfg, After(cfg, w, HomeDelete(h, ok)), u)
  {
    var w' := After(cfg, w, HomeDelete(h, ok));
    WritersStay(cfg, w, HomeDelete(h, ok), u);
    assert Has(w, Homing(u, w.handlers[h].seen));
    assert OthersStay(w, w', h);
    OthersHave(w, w', h, Stored(u));
    OthersHave(w, w', h, Erased(u));
    OthersHave(w, w', h, Homing(u, true));
    OthersHave(w, w', h, Homing(u, false));
    assert forall g :: Delivers(w', u, g) <==> Delivers(w, u, g);
    if ok && w.handlers[h].seen {
      assert w'.handlers[h] == Erased(u);
    }
  }

  lemma PublishStaysHarmless(cfg: Config, w: World, h: nat, u: Uid)
    requires cfg.net.prefix <= 32 && Harmless(cfg, w, u) && Enabled(cfg, w, Publish(h, true)) && w.handlers[h].uid == u
    ensures Harmless(cfg, After(cfg, w, Publish(h, true)), u)
  {
    var w' := After(cfg, w, Publish(h, true));
    var e := if w.handlers[h].Stored? then Created(u) else Deleted(u);
    WritersStay(cfg, w, Publish(h, true), u);
    LastEventOfAppend(w.queue, e, u);
    assert w'.queue == w.queue + [e] && e in w'.queue;
    assert Has(w, w.handlers[h]);
    assert OthersStay(w, w', h);
    OthersHave(w, w', h, Stored(u));
    OthersHave(w, w', h, Erased(u));
    OthersHave(w, w', h, Homing(u, true));
    OthersHave(w, w', h, Homing(u, false));
    assert forall g :: Delivers(w', u, g) <==> Delivers(w, u, g);
  }

  lemma ApplyStaysHarmless(cfg: Config, w: World, h: nat, saveOk: bool, u: Uid)
    requires cfg.net.prefix <= 32 && Harmless(cfg, w, u) && Enabled(cfg, w, Apply(h, true, saveOk))
    requires w.handlers[h].uid == u && OneDeliveryAtATime(w)
    ensures Harmless(cfg, After(cfg, w, Apply(h, true, saveOk)), u)
  {
    var s := Apply(h, true, saveOk);
    var w' := After(cfg, w, s);
    WritersStay(cfg, w, s, u);
    UpsertShows(w, h, saveOk, cfg);
    assert Delivers(w, u, h);
    assert OthersStay(w, w', h);
    OthersHave(w, w', h, Stored(u));
    OthersHave(w, w', h, Erased(u));
    OthersHave(w, w', h, Homing(u, true));
    OthersHave(w, w', h, Homing(u, false));
    assert forall g :: Delivers(w', u, g) <==> g == h;
  }

  lemma UpsertShows(w: World, h: nat, saveOk: bool, cfg: Config)
    requires cfg.net.prefix <= 32 && Enabled(cfg, w, Apply(h, true, saveOk))
    ensures Shows(After(cfg, w, Apply(h, true, saveOk)), w.handlers[h].uid, w.handlers[h].copy)
  {
  }

  lemma StatusStaysHarmless(cfg: Config, w: World, h: nat, ok: bool, u: Uid)
    requires cfg.net.prefix <= 32 && Harmless(cfg, w, u) && Enabled(cfg, w, SaveStatus(h, ok))
    requires w.handlers[h].uid == u && OneDeliveryAtATime(w)
    ensures Harmless(cfg, After(cfg, w, SaveStatus(h, ok)), u)
  {
    var w' := After(cfg, w, SaveStatus(h, ok));
    WritersStay(cfg, w, SaveStatus(h, ok), u);
    assert Delivers(w, u, h);
    assert OthersStay(w, w', h);
    OthersHave(w, w', h, Stored(u));
    OthersHave(w, w', h, Erased(u));
    OthersHave(w, w', h, Homing(u, true));
    OthersHave(w, w', h, Homing(u, false));
    assert forall g :: !Delivers(w', u, g);
  }

  /** What delivering the oldest event, one of `u`, does to it. */
  lemma DeliverEffect(cfg: Config, w: World, h: nat, saveOk: bool, u: Uid)
    requires cfg.net.prefix <= 32 && Enabled(cfg, w, Deliver(h, 0, true, saveOk)) && w.queue[0].uid == u
    ensures var w' := After(cfg, w, Deliver(h, 0, true, saveOk));
            && w'.store == w.store && w'.queue == w.queue[1..] && w'.used == w.used && w'.up
            && (w.queue[0].Deleted? ==> u !in w'.peers) && (w.queue[0].Created? ==> w'.peers == w.peers)
            && (w.queue[0].Created? && u in w.store ==> w'.handlers == w.handlers[h := Fetched(u, w.store[u])])
            && (w.queue[0].Deleted? || u !in w.store ==> w'.handlers == w.handlers)
  {
    assert w.queue[..0] + w.queue[1..] == w.queue[1..];
  }

  /** The record is read: a creation stays last, or nothing is left and the copy is the record. */
  lemma ReadingStaysHarmless(cfg: Config, w: World, w': World, h: nat, u: Uid)
    requires cfg.net.prefix <= 32 && Harmless(cfg, w, u) && !Delivering(w, u)
    requires w.queue != [] && w.queue[0] == Created(u) && u in w.store && h !in w.handlers
    requires w'.store == w.store && w'.peers == w.peers && w'.queue == w.queue[1..]
    requires w'.handlers == w.handlers[h := Fetched(u, w.store[u])] && (HasWriter(cfg, w', u) ==> HasWriter(cfg, w, u))
    ensures Harmless(cfg, w', u)
  {
    assert w.queue == [w.queue[0]] + w.queue[1..] && Created(u) in w.queue;
    OthersHave(w, w', h, Stored(u));
    OthersHave(w, w', h, Erased(u));
    OthersHave(w, w', h, Homing(u, true));
    OthersHave(w, w', h, Homing(u, false));
    assert forall g :: Delivers(w', u, g) ==> g == h || Delivers(w, u, g);
    assert Delivers(w', u, h);
  }

  /** A deletion is carried out, or a creation without a record is dropped. */
  lemma DropStaysHarmless(cfg: Config, w: World, w': World, u: Uid)
    requires cfg.net.prefix <= 32 && Harmless(cfg, w, u) && !Delivering(w, u)
    requires w.queue != [] && w.queue[0].uid == u && w'.store == w.store && w'.queue == w.queue[1..]
    requires if w.queue[0].Deleted? then u !in w'.peers else u !in w.store && w'.peers == w.peers
    requires w'.handlers == w.handlers && (HasWriter(cfg, w', u) ==> HasWriter(cfg, w, u))
    ensures Harmless(cfg, w', u)
  {
    assert w.queue == [w.queue[0]] + w.queue[1..];
    LastEventNone(w.queue[1..], u);
    assert forall p :: Has(w', p) <==> Has(w, p);
    forall g ensures !Delivers(w', u, g) {
      assert !Delivers(w, u, g);
    }
  }

  lemma DeliverStaysHarmless(cfg: Config, w: World, h: nat, saveOk: bool, u: Uid)
    requires cfg.net.prefix <= 32 && Harmless(cfg, w, u) && Enabled(cfg, w, Deliver(h, 0, true, saveOk))
    requires Completing(w, Deliver(h, 0, true, saveOk), u) && w.queue[0].uid == u
    ensures Harmless(cfg, After(cfg, w, Deliver(h, 0, true, saveOk)), u)
  {
    var s := Deliver(h, 0, true, saveOk);
    WritersStay(cfg, w, s, u);
    DeliverEffect(cfg, w, h, saveOk, u);
    if w.queue[0].Created? && u in w.store {
      ReadingStaysHarmless(cfg, w, After(cfg, w, s), h, u);
    } else {
      DropStaysHarmless(cfg, w, After(cfg, w, s), u);
    }
  }

  lemma StepStaysHarmless(cfg: Config, w: World, s: Step, u: Uid)
    requires cfg.net.prefix <= 32 && Harmless(cfg, w, u) && OneDeliveryAtATime(w)
    requires Enabled(cfg, w, s) && Completing(w, s, u)
    ensures Harmless(cfg, After(cfg, w, s), u)
  {
    if Subject(w, s) != Some(u) {
      OtherStepsAreSame(cfg, w, s, u);
      WritersStay(cfg, w, s, u);
      SameStaysHarmless(cfg, w, After(cfg, w, s), u);
    } else {
      match s
      case Allocate(h) => AllocateStaysHarmless(cfg, w, h, u);
      case Save(h, ok) => SaveStaysHarmless(cfg, w, h, ok, u);
      case HomeDelete(h, ok) => HomeStaysHarmless(cfg, w, h, ok, u);
      case Publish(h, _) => PublishStaysHarmless(cfg, w, h, u);
      case Deliver(h, _, _, saveOk) => DeliverStaysHarmless(cfg, w, h, saveOk, u);
      case Apply(h, _, saveOk) => ApplyStaysHarmless(cfg, w, h, saveOk, u);
      case SaveStatus(h, ok) => StatusStaysHarmless(cfg, w, h, ok, u);
    }
  }

  lemma StaysOneAtATime(cfg: Config, w: World, s: Step, u: Uid)
    requires cfg.net.prefix <= 32 && OneDeliveryAtATime(w) && Enabled(cfg, w, s) && Completing(w, s, u)
    ensures OneDeliveryAtATime(After(cfg, w, s))
  {
  }

  lemma {:induction false} CompletionsStayHarmless(cfg: Config, w: World, steps: seq<Step>, u: Uid)
    requires cfg.net.prefix <= 32 && Harmless(cfg, w, u) && OneDeliveryAtATime(w)
    requires CompletingRun(cfg, w, steps, u) && Runs(cfg, w, steps)
    ensures Harmless(cfg, End(cfg, w, steps), u)
    decreases |steps|
  {
    if steps != [] {
      StepStaysHarmless(cfg, w, steps[0], u);
      StaysOneAtATime(cfg, w, steps[0], u);
      CompletionsStayHarmless(cfg, After(cfg, w, steps[0]), steps[1..], u);
    }
  }

  // ================================================================ it is needed

  // ---------------------------------------------------------------- a measure of what is left to do

  function Rank(p: Handler, u: Uid): int {
    match p
    case Checked(v, _) => if v == u then 6 else -1
    case Allocated(_, _, _) => 5
    case Homing(v, _) => if v == u then 4 else -1
    case Stored(v) => if v == u then 3 else -1
    case Erased(v) => if v == u then 3 else -1
    case Fetched(_, _) => 1
    case Applied(_, _) => 0
  }

  ghost function Ranked(w: World, u: Uid, r: int): set<nat> {
    set h | h in w.handlers && Rank(w.handlers[h], u) == r
  }

  ghost function Count(w: World, u: Uid, r: int): nat {
    |Ranked(w, u, r)|
  }

  /** In this order: searches, addresses, phone-homes, announcements, events, deliveries. */
  ghost predicate Smaller(w': World, w: World, u: Uid) {
    if Count(w', u, 6) != Count(w, u, 6) then Count(w', u, 6) < Count(w, u, 6)
    else if Count(w', u, 5) != Count(w, u, 5) then Count(w', u, 5) < Count(w, u, 5)
    else if Count(w', u, 4) != Count(w, u, 4) then Count(w', u, 4) < Count(w, u, 4)
    else if Count(w', u, 3) != Count(w, u, 3) then Count(w', u, 3) < Count(w, u, 3)
    else if |w'.queue| != |w.queue| then |w'.queue| < |w.queue|
    else if Count(w', u, 1) != Count(w, u, 1) then Count(w', u, 1) < Count(w, u, 1)
    else Count(w', u, 0) < Count(w, u, 0)
  }

  lemma RankDrops(w: World, w': World, u: Uid, h: nat, r: int)
    requires OthersStay(w, w', h) && h in w.handlers && Rank(w.handlers[h], u) >= 0
    requires h in w'.handlers ==> Rank(w'.handlers[h], u) < Rank(w.handlers[h], u)
    ensures r > Rank(w.handlers[h], u) ==> Count(w', u, r) == Count(w, u, r)
    ensures r == Rank(w.handlers[h], u) ==> Count(w', u, r) < Count(w, u, r)
  {
    if r > Rank(w.handlers[h], u) {
      assert Ranked(w', u, r) == Ranked(w, u, r);
    } else if r == Rank(w.handlers[h], u) {
      assert Ranked(w', u, r) == Ranked(w, u, r) - {h} && h in Ranked(w, u, r);
    }
  }

  lemma MoveIsSmaller(w: World, w': World, u: Uid, h: nat)
    requires OthersStay(w, w', h) && h in w.handlers && Rank(w.handlers[h], u) >= 0
    requires h in w'.handlers ==> Rank(w'.handlers[h], u) < Rank(w.handlers[h], u)
    requires Rank(w.handlers[h], u) <= 1 ==> w'.queue == w.queue
    ensures Smaller(w', w, u)
  {
    RankDrops(w, w', u, h, 6);
    RankDrops(w, w', u, h, 5);
    RankDrops(w, w', u, h, 4);
    RankDrops(w, w', u, h, 3);
    RankDrops(w, w', u, h, 1);
    RankDrops(w, w', u, h, 0);
  }

  lemma DeliveryIsSmaller(w: World, w': World, u: Uid, h: nat)
    requires OthersStay(w, w', h) && h !in w.handlers && (h in w'.handlers ==> w'.handlers[h].Fetched?)
    requires |w'.queue| < |w.queue|
    ensures Smaller(w', w, u)
  {
    assert Ranked(w', u, 6) == Ranked(w, u, 6) && Ranked(w', u, 5) == Ranked(w, u, 5);
    assert Ranked(w', u, 4) == Ranked(w, u, 4) && Ranked(w', u, 3) == Ranked(w, u, 3);
  }

  // ---------------------------------------------------------------- a step that keeps the harm

  /** The step is one of a completion, leaves less to do, and the state after it is not harmless either. */
  ghost predicate KeepsHarm(cfg: Config, w: World, s: Step, u: Uid)
    requires cfg.net.prefix <= 32
  {
    && Enabled(cfg, w, s) && Completing(w, s, u) && Smaller(After(cfg, w, s), w, u)
    && !Harmless(cfg, After(cfg, w, s), u)
  }

  lemma SameKeepsCalm(w: World, w': World, u: Uid)
    requires SameFor(w, w', u)
    ensures Calm(w', u) ==> Calm(w, u)
  {
    SameHas(w, w', u, Stored(u));
    SameHas(w, w', u, Erased(u));
    SameHas(w, w', u, Homing(u, true));
    SameHas(w, w', u, Homing(u, false));
    forall h ensures Delivers(w', u, h) <==> Delivers(w, u, h) {
      SameDelivers(w, w', u, h);
    }
  }

  /** A writer together with a deletion: the record is stored, and the deletion is still to come. */
  lemma WriterStores(cfg: Config, w: World, u: Uid, h: nat)
    requires cfg.net.prefix <= 32 && w.up && Deleting(w, u)
    requires h in w.handlers && w.handlers[h].Allocated? && w.handlers[h].uid == u
    ensures KeepsHarm(cfg, w, Save(h, true), u)
  {
    var w' := After(cfg, w, Save(h, true));
    assert OthersStay(w, w', h) && w'.handlers[h] == Stored(u);
    OthersHave(w, w', h, Erased(u));
    OthersHave(w, w', h, Homing(u, true));
    OthersHave(w, w', h, Homing(u, false));
    assert Has(w', Stored(u)) && Deleting(w', u);
    MoveIsSmaller(w, w', u, h);
  }

  lemma StaysDeleting(w: World, w': World, h: nat, u: Uid)
    requires OthersStay(w, w', h) && Deleting(w, u)
    requires h in w.handlers ==> !w.handlers[h].Erased? && !w.handlers[h].Homing?
    ensures Deleting(w', u)
  {
    OthersHave(w, w', h, Erased(u));
    OthersHave(w, w', h, Homing(u, true));
    OthersHave(w, w', h, Homing(u, false));
  }

  lemma WriterTakes(cfg: Config, w: World, u: Uid, h: nat)
    requires cfg.net.prefix <= 32 && w.up && Deleting(w, u) && CanTake(cfg, w)
    requires h in w.handlers && w.handlers[h].Checked? && w.handlers[h].uid == u
    ensures KeepsHarm(cfg, w, Allocate(h), u)
  {
    var w' := After(cfg, w, Allocate(h));
    StaysDeleting(w, w', h, u);
    assert Writes(cfg, w', u, h);
    MoveIsSmaller(w, w', u, h);
  }

  lemma WriterIsGivenOne(cfg: Config, w: World, u: Uid, h: nat, g: nat)
    requires cfg.net.prefix <= 32 && w.up && Inv(cfg, w) && Deleting(w, u) && Taking(w, g)
    requires h in w.handlers && w.handlers[h].Checked? && w.handlers[h].uid == u
    ensures KeepsHarm(cfg, w, Save(g, false), u)
  {
    var w' := After(cfg, w, Save(g, false));
    assert Carries(w, g) && Held(cfg, w, w.handlers[g].addr);
    FreePoolAddressMeansNext(cfg.net, w'.used, w.handlers[g].addr);
    StaysDeleting(w, w', g, u);
    assert Writes(cfg, w', u, h);
    MoveIsSmaller(w, w', u, g);
  }

  lemma WriterStep(cfg: Config, w: World, u: Uid) returns (s: Step)
    requires cfg.net.prefix <= 32 && w.up && Inv(cfg, w) && HasWriter(cfg, w, u) && Deleting(w, u)
    ensures KeepsHarm(cfg, w, s, u)
  {
    var h :| Writes(cfg, w, u, h);
    if w.handlers[h].Allocated? {
      WriterStores(cfg, w, u, h);
      s := Save(h, true);
    } else if CanTake(cfg, w) {
      WriterTakes(cfg, w, u, h);
      s := Allocate(h);
    } else {
      var g :| Taking(w, g);
      WriterIsGivenOne(cfg, w, u, h, g);
      s := Save(g, false);
    }
  }

  /** Without a writer's help a wg-init before its save ends quietly. */
  lemma QuietStep(cfg: Config, w: World, u: Uid, h: nat) returns (s: Step)
    requires cfg.net.prefix <= 32 && w.up && !Calm(w, u)
    requires h in w.handlers && w.handlers[h].uid == u
    requires w.handlers[h].Allocated? || (w.handlers[h].Checked? && SearchEnds(cfg.net, w.used))
    ensures KeepsHarm(cfg, w, s, u)
  {
    s := if w.handlers[h].Allocated? then Save(h, false) else Allocate(h);
    var w' := After(cfg, w, s);
    QuietMoveKeepsCalm(w, w', h, u);
    MoveIsSmaller(w, w', u, h);
  }

  /** A delivery together with a deletion: the deletion happens first, the status update brings the record back. */
  lemma DeliveryMeetsHoming(cfg: Config, w: World, u: Uid, g: nat)
    requires cfg.net.prefix <= 32 && w.up && Delivering(w, u) && g in w.handlers && w.handlers[g] == Homing(u, true)
    ensures KeepsHarm(cfg, w, HomeDelete(g, true), u)
  {
    var w' := After(cfg, w, HomeDelete(g, true));
    var h :| Delivers(w, u, h);
    assert Delivers(w', u, h) && w'.handlers[g] == Erased(u) && Has(w', Erased(u));
    MoveIsSmaller(w, w', u, g);
  }

  lemma DeliveryMeetsDeletion(cfg: Config, w: World, u: Uid, h: nat) returns (s: Step)
    requires cfg.net.prefix <= 32 && w.up && OneDeliveryAtATime(w) && Delivers(w, u, h) && Deleting(w, u)
    requires !Has(w, Homing(u, true))
    ensures KeepsHarm(cfg, w, s, u)
  {
    s := if w.handlers[h].Fetched? then Apply(h, true, true) else SaveStatus(h, true);
    var w' := After(cfg, w, s);
    OthersHave(w, w', h, Homing(u, true));
    StaysDeleting(w, w', h, u);
    MoveIsSmaller(w, w', u, h);
    if w.handlers[h].Fetched? {
      assert Delivers(w', u, h);
    } else {
      assert forall g :: !Delivers(w', u, g);
    }
  }

  lemma FetchedUnsettled(cfg: Config, w: World, u: Uid, h: nat)
    requires cfg.net.prefix <= 32 && w.up && Delivers(w, u, h) && w.handlers[h].Fetched?
    requires !DeliverySettles(w, u, w.handlers[h])
    ensures KeepsHarm(cfg, w, Apply(h, true, true), u)
  {
    var w' := After(cfg, w, Apply(h, true, true));
    OthersHave(w, w', h, Stored(u));
    UpsertShows(w, h, true, cfg);
    MoveIsSmaller(w, w', u, h);
    assert Delivers(w', u, h) && w'.handlers[h] == Applied(u, w.handlers[h].copy);
    assert w'.store == w.store && w'.queue == w.queue;
    LastEventNone(w.queue, u);
    assert !DeliverySettles(w', u, w'.handlers[h]);
  }

  lemma AppliedUnsettled(cfg: Config, w: World, u: Uid, h: nat) returns (s: Step)
    requires cfg.net.prefix <= 32 && w.up && OneDeliveryAtATime(w) && Delivers(w, u, h) && w.handlers[h].Applied?
    requires !DeliverySettles(w, u, w.handlers[h]) && !Deleting(w, u)
    ensures KeepsHarm(cfg, w, s, u)
  {
    var saved := !EndsCreated(w, u) && (LastEvent(w.queue, u).Some? || !Shows(w, u, w.handlers[h].copy));
    s := SaveStatus(h, saved);
    var w' := After(cfg, w, s);
    OthersHave(w, w', h, Stored(u));
    OthersHave(w, w', h, Erased(u));
    MoveIsSmaller(w, w', u, h);
    LastEventNone(w.queue, u);
    assert w'.peers == w.peers && w'.queue == w.queue;
    assert forall g :: !Delivers(w', u, g);
    assert !IdleSettles(w', u);
  }

  // ---------------------------------------------------------------- with no delivery of the peer under way

  lemma {:induction false} FreshHandler(hs: set<nat>) returns (h: nat)
    ensures h !in hs && forall x :: x in hs ==> x < h
  {
    if hs == {} {
      h := 0;
    } else {
      var x :| x in hs;
      h := FreshHandler(hs - {x});
      if h <= x {
        h := x + 1;
      }
      assert forall y :: y in hs ==> y == x || y in hs - {x};
    }
  }

  /** The delivery of another peer goes on, or else the oldest event is delivered. */
  lemma Pump(cfg: Config, w: World, u: Uid) returns (s: Step)
    requires cfg.net.prefix <= 32 && w.up && w.queue != [] && !Delivering(w, u)
    ensures Enabled(cfg, w, s) && Completing(w, s, u) && Smaller(After(cfg, w, s), w, u)
    ensures SameFor(w, After(cfg, w, s), u) || (w.queue[0].uid == u && s == Deliver(s.h, 0, true, true))
  {
    if h :| h in w.handlers && IsDelivery(w.handlers[h]) {
      assert !Delivers(w, u, h);
      s := if w.handlers[h].Fetched? then Apply(h, true, true) else SaveStatus(h, true);
      MoveIsSmaller(w, After(cfg, w, s), u, h);
      OtherStepsAreSame(cfg, w, s, u);
    } else {
      var h := FreshHandler(w.handlers.Keys);
      s := Deliver(h, 0, true, true);
      assert w.queue[..0] + w.queue[1..] == w.queue[1..];
      DeliveryIsSmaller(w, After(cfg, w, s), u, h);
      if w.queue[0].uid != u {
        OtherStepsAreSame(cfg, w, s, u);
      }
    }
  }

  /** A phone-home fails: only it is gone. */
  lemma HomingFails(cfg: Config, w: World, u: Uid, h: nat)
    requires cfg.net.prefix <= 32 && w.up && h in w.handlers && w.handlers[h].Homing? && w.handlers[h].uid == u
    requires !Delivering(w, u)
    ensures var s := HomeDelete(h, false);
            && Enabled(cfg, w, s) && Completing(w, s, u) && Smaller(After(cfg, w, s), w, u)
            && OthersStay(w, After(cfg, w, s), h) && !Delivering(After(cfg, w, s), u)
            && After(cfg, w, s).store == w.store && After(cfg, w, s).peers == w.peers
            && After(cfg, w, s).queue == w.queue
            && (forall p :: p != w.handlers[h] ==> (Has(After(cfg, w, s), p) <==> Has(w, p)))
  {
    var w' := After(cfg, w, HomeDelete(h, false));
    MoveIsSmaller(w, w', u, h);
    forall p | p != w.handlers[h] ensures Has(w', p) <==> Has(w, p) {
      OthersHave(w, w', h, p);
    }
    forall g ensures !Delivers(w', u, g) {
      assert !Delivers(w, u, g);
    }
  }

  /** An announcement is published: only it is gone, and its event is last. */
  lemma Announces(cfg: Config, w: World, u: Uid, h: nat)
    requires cfg.net.prefix <= 32 && w.up && h in w.handlers && !Delivering(w, u)
    requires w.handlers[h] == Stored(u) || w.handlers[h] == Erased(u)
    ensures var s := Publish(h, true);
            var e := if w.handlers[h].Stored? then Created(u) else Deleted(u);
            && Enabled(cfg, w, s) && Completing(w, s, u) && Smaller(After(cfg, w, s), w, u)
            && !Delivering(After(cfg, w, s), u)
            && After(cfg, w, s).store == w.store && After(cfg, w, s).peers == w.peers
            && After(cfg, w, s).queue == w.queue + [e] && LastEvent(w.queue + [e], u) == Some(e)
            && (forall p :: p != w.handlers[h] ==> (Has(After(cfg, w, s), p) <==> Has(w, p)))
  {
    var w' := After(cfg, w, Publish(h, true));
    LastEventOfAppend(w.queue, if w.handlers[h].Stored? then Created(u) else Deleted(u), u);
    MoveIsSmaller(w, w', u, h);
    forall p | p != w.handlers[h] ensures Has(w', p) <==> Has(w, p) {
      OthersHave(w, w', h, p);
    }
    forall g ensures !Delivers(w', u, g) {
      assert !Delivers(w, u, g);
    }
  }

  /** What delivering the oldest event, one of `u`, leads to. */
  ghost predicate Pumped(w: World, w': World, u: Uid) {
    && w.queue != [] && w.queue[0].uid == u && w'.store == w.store && w'.queue == w.queue[1..]
    && (w.queue[0].Deleted? ==> u !in w'.peers) && (w.queue[0].Created? ==> w'.peers == w.peers)
    && (Delivering(w', u) <==> w.queue[0].Created? && u in w.store)
    && (forall p :: !IsDelivery(p) ==> (Has(w', p) <==> Has(w, p)))
  }

  lemma PumpedOwn(cfg: Config, w: World, u: Uid, h: nat)
    requires cfg.net.prefix <= 32 && Enabled(cfg, w, Deliver(h, 0, true, true))
    requires w.queue[0].uid == u && !Delivering(w, u)
    ensures Pumped(w, After(cfg, w, Deliver(h, 0, true, true)), u)
  {
    var w' := After(cfg, w, Deliver(h, 0, true, true));
    DeliverEffect(cfg, w, h, true, u);
    forall p | !IsDelivery(p) ensures Has(w', p) <==> Has(w, p) {
      OthersHave(w, w', h, p);
    }
    if w.queue[0].Created? && u in w.store {
      assert Delivers(w', u, h);
    } else {
      forall g ensures !Delivers(w', u, g) {
        assert !Delivers(w, u, g);
      }
    }
  }

  /** A record with its deletion already announced: the announcement is published after everything else. */
  lemma AnnouncedDeletion(cfg: Config, w: World, u: Uid) returns (s: Step)
    requires cfg.net.prefix <= 32 && w.up && !Delivering(w, u) && u in w.store && Has(w, Erased(u))
    ensures KeepsHarm(cfg, w, s, u)
  {
    if h :| h in w.handlers && w.handlers[h].Homing? && w.handlers[h].uid == u {
      HomingFails(cfg, w, u, h);
      s := HomeDelete(h, false);
    } else if h :| h in w.handlers && w.handlers[h] == Stored(u) {
      Announces(cfg, w, u, h);
      s := Publish(h, true);
    } else if LastEvent(w.queue, u).Some? {
      s := Pump(cfg, w, u);
      if SameFor(w, After(cfg, w, s), u) {
        SameKeepsCalm(w, After(cfg, w, s), u);
      } else {
        PumpedOwn(cfg, w, u, s.h);
        DeletionStaysAnnounced(w, After(cfg, w, s), u);
      }
    } else {
      var h :| h in w.handlers && w.handlers[h] == Erased(u);
      assert !Has(w, Stored(u));
      Announces(cfg, w, u, h);
      s := Publish(h, true);
    }
  }

  lemma DeletionStaysAnnounced(w: World, w': World, u: Uid)
    requires Pumped(w, w', u) && u in w.store && (Has(w, Erased(u)) || Has(w, Homing(u, false)))
    ensures !Calm(w', u)
  {
    assert Has(w', Erased(u)) || Has(w', Homing(u, false));
  }

  /** A record whose last event is a deletion, or with nothing pending and no agreement. */
  lemma DeletionLast(cfg: Config, w: World, u: Uid) returns (s: Step)
    requires cfg.net.prefix <= 32 && w.up && !Delivering(w, u) && u in w.store && !EndsCreated(w, u)
    requires LastEvent(w.queue, u).Some? ||
             (!Agrees(w, u) && exists h :: h in w.handlers && w.handlers[h].Homing? && w.handlers[h].uid == u)
    ensures KeepsHarm(cfg, w, s, u)
  {
    if h :| h in w.handlers && w.handlers[h].Homing? && w.handlers[h].uid == u {
      HomingFails(cfg, w, u, h);
      s := HomeDelete(h, false);
    } else {
      s := Pump(cfg, w, u);
      if SameFor(w, After(cfg, w, s), u) {
        assert !IdleSettles(w, u);
        SameKeepsCalm(w, After(cfg, w, s), u);
      } else {
        PumpedOwn(cfg, w, u, s.h);
        DeletionStaysLast(w, After(cfg, w, s), u);
      }
    }
  }

  lemma DeletionStaysLast(w: World, w': World, u: Uid)
    requires Pumped(w, w', u) && u in w.store && !EndsCreated(w, u)
    ensures !Calm(w', u)
  {
    LastEventNone(w.queue, u);
    assert w.queue == [w.queue[0]] + w.queue[1..];
    assert !Has(w', Stored(u));
    if Delivering(w', u) {
      assert LastEvent(w'.queue, u) == Some(Deleted(u));
      var h :| Delivers(w', u, h);
      assert !DeliverySettles(w', u, w'.handlers[h]);
    } else {
      assert !IdleSettles(w', u);
    }
  }

  /** No record, no deletion pending, and the controller has the peer. */
  lemma PeerLeftBehind(cfg: Config, w: World, u: Uid) returns (s: Step)
    requires cfg.net.prefix <= 32 && w.up && !Delivering(w, u)
    requires u !in w.store && !Has(w, Erased(u)) && Deleted(u) !in w.queue && u in w.peers
    requires LastEvent(w.queue, u).Some? || Has(w, Stored(u))
             || exists h :: h in w.handlers && w.handlers[h].Homing? && w.handlers[h].uid == u
    ensures KeepsHarm(cfg, w, s, u)
  {
    if h :| h in w.handlers && w.handlers[h].Homing? && w.handlers[h].uid == u {
      HomingFails(cfg, w, u, h);
      s := HomeDelete(h, false);
    } else if h :| h in w.handlers && w.handlers[h] == Stored(u) {
      Announces(cfg, w, u, h);
      s := Publish(h, true);
    } else {
      LastEventNone(w.queue, u);
      s := Pump(cfg, w, u);
      if SameFor(w, After(cfg, w, s), u) {
        assert !IdleSettles(w, u);
        SameKeepsCalm(w, After(cfg, w, s), u);
      } else {
        PumpedOwn(cfg, w, u, s.h);
        PeerStaysBehind(w, After(cfg, w, s), u);
      }
    }
  }

  lemma PeerStaysBehind(w: World, w': World, u: Uid)
    requires Pumped(w, w', u) && u !in w.store && !Has(w, Erased(u)) && Deleted(u) !in w.queue && u in w.peers
    ensures !Calm(w', u)
  {
    assert w.queue == [w.queue[0]] + w.queue[1..];
    assert !IdleSettles(w', u);
  }

  /** A phone-home that found no record deletes the one there is, after everything else, and says nothing. */
  lemma SilentDeletion(cfg: Config, w: World, u: Uid, h: nat) returns (s: Step)
    requires cfg.net.prefix <= 32 && w.up && !Delivering(w, u) && u in w.store && IdleSettles(w, u)
    requires h in w.handlers && w.handlers[h] == Homing(u, false)
    ensures KeepsHarm(cfg, w, s, u)
  {
    assert Has(w, Homing(u, false));
    if g :| g in w.handlers && w.handlers[g] == Homing(u, true) {
      HomingFails(cfg, w, u, g);
      s := HomeDelete(g, false);
    } else if g :| g in w.handlers && w.handlers[g] == Stored(u) {
      Announces(cfg, w, u, g);
      s := Publish(g, true);
    } else if LastEvent(w.queue, u).Some? {
      s := Pump(cfg, w, u);
      var w' := After(cfg, w, s);
      if SameFor(w, w', u) {
        SameKeepsCalm(w, w', u);
      } else {
        PumpedOwn(cfg, w, u, s.h);
        DeletionStaysAnnounced(w, w', u);
      }
    } else {
      s := HomeDelete(h, true);
      LastPhoneHome(cfg, w, u, h);
    }
  }

  lemma LastPhoneHome(cfg: Config, w: World, u: Uid, h: nat)
    requires cfg.net.prefix <= 32 && w.up && !Delivering(w, u) && u in w.store && Agrees(w, u)
    requires h in w.handlers && w.handlers[h] == Homing(u, false) && !Has(w, Erased(u)) && LastEvent(w.queue, u).None?
    ensures KeepsHarm(cfg, w, HomeDelete(h, true), u)
  {
    var w' := After(cfg, w, HomeDelete(h, true));
    LastEventNone(w.queue, u);
    MoveIsSmaller(w, w', u, h);
    OthersHave(w, w', h, Erased(u));
    forall g ensures !Delivers(w', u, g) {
      assert !Delivers(w, u, g);
    }
    assert !IdleSettles(w', u);
  }

  /** A phone-home that found a record whose creation is still pending: the creation is delivered up to its read. */
  lemma CreationPending(cfg: Config, w: World, u: Uid) returns (s: Step)
    requires cfg.net.prefix <= 32 && w.up && !Delivering(w, u) && u in w.store
    requires Has(w, Homing(u, true)) && (Has(w, Stored(u)) || Created(u) in w.queue)
    ensures KeepsHarm(cfg, w, s, u)
  {
    if g :| g in w.handlers && w.handlers[g] == Stored(u) {
      Announces(cfg, w, u, g);
      s := Publish(g, true);
      assert Created(u) in After(cfg, w, s).queue;
    } else {
      s := Pump(cfg, w, u);
      if SameFor(w, After(cfg, w, s), u) {
        SameKeepsCalm(w, After(cfg, w, s), u);
      } else {
        PumpedOwn(cfg, w, u, s.h);
        CreationStaysPending(w, After(cfg, w, s), u);
      }
    }
  }

  lemma CreationStaysPending(w: World, w': World, u: Uid)
    requires Pumped(w, w', u) && u in w.store && Has(w, Homing(u, true)) && Created(u) in w.queue
    ensures !Calm(w', u)
  {
    assert w.queue == [w.queue[0]] + w.queue[1..];
    assert Has(w', Homing(u, true)) && Deleting(w', u);
  }

  /** With no delivery and no wg-init of `u` that can still move. */
  lemma IdleStep(cfg: Config, w: World, u: Uid) returns (s: Step)
    requires cfg.net.prefix <= 32 && w.up && !Calm(w, u) && !Delivering(w, u) && !Finished(cfg, w, u)
    requires forall h :: h in w.handlers && w.handlers[h].uid == u ==>
               !w.handlers[h].Allocated? && (w.handlers[h].Checked? ==> !SearchEnds(cfg.net, w.used))
    ensures KeepsHarm(cfg, w, s, u)
  {
    SomethingLeft(cfg, w, u);
    if u in w.store && Has(w, Erased(u)) {
      s := AnnouncedDeletion(cfg, w, u);
    } else if !IdleSettles(w, u) {
      if u in w.store {
        s := DeletionLast(cfg, w, u);
      } else {
        s := PeerLeftBehind(cfg, w, u);
      }
    } else if h :| h in w.handlers && w.handlers[h] == Homing(u, false) {
      s := SilentDeletion(cfg, w, u, h);
    } else {
      s := CreationPending(cfg, w, u);
    }
  }

  /** What an unfinished peer still has, if none of its wg-inits can move and no delivery is under way. */
  lemma SomethingLeft(cfg: Config, w: World, u: Uid)
    requires !Delivering(w, u) && !Finished(cfg, w, u)
    requires forall h :: h in w.handlers && w.handlers[h].uid == u ==>
               !w.handlers[h].Allocated? && (w.handlers[h].Checked? ==> !SearchEnds(cfg.net, w.used))
    ensures || LastEvent(w.queue, u).Some? || Has(w, Stored(u)) || Has(w, Erased(u))
            || exists h :: h in w.handlers && w.handlers[h].Homing? && w.handlers[h].uid == u
  {
    if LastEvent(w.queue, u).None? {
      var h :| h in w.handlers && w.handlers[h].uid == u && !(w.handlers[h].Checked? && !SearchEnds(cfg.net, w.used));
      assert !Delivers(w, u, h);
      assert w.handlers[h].Stored? ==> Has(w, Stored(u));
      assert w.handlers[h].Erased? ==> Has(w, Erased(u));
    }
  }

  /** In every harmful state that is not finished some step keeps the harm. */
  lemma NextStep(cfg: Config, w: World, u: Uid) returns (s: Step)
    requires cfg.net.prefix <= 32 && w.up && Inv(cfg, w) && OneDeliveryAtATime(w)
    requires !Harmless(cfg, w, u) && !Finished(cfg, w, u)
    ensures KeepsHarm(cfg, w, s, u)
  {
    if HasWriter(cfg, w, u) && Deleting(w, u) {
      s := WriterStep(cfg, w, u);
    } else if h :| h in w.handlers && w.handlers[h].uid == u &&
                   (w.handlers[h].Allocated? || (w.handlers[h].Checked? && SearchEnds(cfg.net, w.used))) {
      s := QuietStep(cfg, w, u, h);
    } else if h :| Delivers(w, u, h) {
      s := DeliveryStep(cfg, w, u, h);
    } else {
      s := IdleStep(cfg, w, u);
    }
  }

  lemma DeliveryStep(cfg: Config, w: World, u: Uid, h: nat) returns (s: Step)
    requires cfg.net.prefix <= 32 && w.up && OneDeliveryAtATime(w) && !Calm(w, u) && Delivers(w, u, h)
    ensures KeepsHarm(cfg, w, s, u)
  {
    if Deleting(w, u) {
      if g :| g in w.handlers && w.handlers[g] == Homing(u, true) {
        DeliveryMeetsHoming(cfg, w, u, g);
        s := HomeDelete(g, true);
      } else {
        s := DeliveryMeetsDeletion(cfg, w, u, h);
      }
    } else {
      assert forall g :: Delivers(w, u, g) ==> g == h;
      assert !DeliverySettles(w, u, w.handlers[h]);
      if w.handlers[h].Fetched? {
        FetchedUnsettled(cfg, w, u, h);
        s := Apply(h, true, true);
      } else {
        s := AppliedUnsettled(cfg, w, u, h);
      }
    }
  }

  lemma FinishedApart(cfg: Config, w: World, u: Uid)
    requires cfg.net.prefix <= 32 && Finished(cfg, w, u) && !Harmless(cfg, w, u)
    ensures !Agrees(w, u)
  {
    LastEventNone(w.queue, u);
    assert forall h :: h in w.handlers && w.handlers[h].uid == u ==> w.handlers[h].Checked?;
    assert forall h :: !Delivers(w, u, h);
    assert !Has(w, Erased(u)) && !Has(w, Stored(u)) && !Has(w, Homing(u, true)) && !Has(w, Homing(u, false));
  }

  /** From a harmful state some completion ends with controller and store apart. */
  lemma {:induction false} HarmEndsApart(cfg: Config, w: World, u: Uid) returns (steps: seq<Step>)
    requires cfg.net.Valid() && w.up && Inv(cfg, w) && OneDeliveryAtATime(w) && !Harmless(cfg, w, u)
    ensures CompletingRun(cfg, w, steps, u) && Runs(cfg, w, steps)
    ensures Finished(cfg, End(cfg, w, steps), u) && !Agrees(End(cfg, w, steps), u)
    decreases Count(w, u, 6), Count(w, u, 5), Count(w, u, 4), Count(w, u, 3), |w.queue|, Count(w, u, 1), Count(w, u, 0)
  {
    if Finished(cfg, w, u) {
      FinishedApart(cfg, w, u);
      steps := [];
    } else {
      var s := NextStep(cfg, w, u);
      var w' := After(cfg, w, s);
      StepKeepsInv(cfg, w, s);
      StaysOneAtATime(cfg, w, s, u);
      StaysUp(cfg, w, s, u);
      var rest := HarmEndsApart(cfg, w', u);
      steps := [s] + rest;
      assert steps[1..] == rest;
    }
  }

  lemma StaysUp(cfg: Config, w: World, s: Step, u: Uid)
    requires cfg.net.prefix <= 32 && Enabled(cfg, w, s) && Completing(w, s, u)
    ensures After(cfg, w, s).up
  {
  }

  /** The exact condition, from every state the protocol can be in with deliveries one at a time: whatever handlers are
      in flight for `u` and however they overlap, all completions end with controller and store in agreement on `u` if
      and only if the state is harmless. */
  lemma SettlesExactly(cfg: Config, w: World, u: Uid)
    requires cfg.net.Valid() && w.up && Inv(cfg, w) && OneDeliveryAtATime(w)
    ensures AlwaysSettles(cfg, w, u) <==> Harmless(cfg, w, u)
  {
    if Harmless(cfg, w, u) {
      forall steps | CompletingRun(cfg, w, steps, u) && Runs(cfg, w, steps) && Finished(cfg, End(cfg, w, steps), u)
        ensures Agrees(End(cfg, w, steps), u)
      {
        CompletionsStayHarmless(cfg, w, steps, u);
        FinishedAgrees(cfg, End(cfg, w, steps), u);
      }
    } else {
      var steps := HarmEndsApart(cfg, w, u);
    }
  }

  /** With no handler of `u` in flight the condition is the one on queue, store and controller alone. */
  lemma IdleIsHarmlessExactly(cfg: Config, w: World, u: Uid)
    requires cfg.net.prefix <= 32 && Idle(w, u)
    ensures Harmless(cfg, w, u) <==> SettlesInAgreement(w, u)
  {
    assert forall h :: !Delivers(w, u, h) && !Writes(cfg, w, u, h);
    assert !Has(w, Erased(u)) && !Has(w, Stored(u)) && !Has(w, Homing(u, true)) && !Has(w, Homing(u, false));
    LastEventNone(w.queue, u);
  }
}
