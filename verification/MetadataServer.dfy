/** The request handlers and the event loop as code that updates storage, the event queue and the controller
    in place. Each method is proved to perform a run of PeerProtocol's state machine, so the theorems there
    are about this code. Outcomes of storage, device and event-bus calls are parameters. */
module MetadataServer {
  import opened Prelude
  import opened IPAllocation
  import opened WireGuardController
  import opened PeerProtocol
  import PeerAddresses
  import PublicKey

  datatype InitResponse = InitResponse(uid: Uid, vpnIP: Addr)

  ghost function Firsts(listing: seq<Uid>, i: nat): set<Uid>
    requires i <= |listing|
  {
    set j | 0 <= j < i :: listing[j]
  }

  lemma OneMoreListed(listing: seq<Uid>, i: nat)
    requires i < |listing| && forall k, j :: 0 <= k < j < |listing| ==> listing[k] != listing[j]
    ensures listing[i] !in Firsts(listing, i) && Firsts(listing, i + 1) == Firsts(listing, i) + {listing[i]}
  {
  }

  lemma AllListed(listing: seq<Uid>, names: set<Uid>)
    requires forall u :: u in listing <==> u in names
    ensures Firsts(listing, |listing|) == names
  {
    forall u | u in names ensures u in Firsts(listing, |listing|) {
      var j :| 0 <= j < |listing| && listing[j] == u;
    }
  }

  /** What SMD knows of a WireGuard address, and whether the records could be listed to look for it. */
  datatype Lookup = NoAddress | Address(addr: Option<Addr>, listOk: bool) {
    /** The search reports an error: no listing, or not an address at all. */
    predicate Fails() { Address? && (addr.None? || !listOk) }
  }

  predicate Holds(store: map<Uid, Intent>, uid: Uid, at: Lookup) {
    uid in store && at.Address? && at.addr == Some(store[uid].addr)
  }

  ghost predicate HasHolder(store: map<Uid, Intent>, at: Lookup) {
    exists u :: Holds(store, u, at)
  }

  /** Whose record a phone-home is about: the route id's if it has one, else one that holds the address known for the
      route id, else one that holds the caller's address, else the route id's after all. A storage error on the way,
      or an address that does not parse, ends the search. */
  ghost predicate Resolves(store: map<Uid, Intent>, routeID: string, routeOk: bool, ofRoute: Lookup, ofClient: Lookup,
                           r: Result<Uid>)
  {
    if routeID != "" && !routeOk then r.Err?
    else if routeID != "" && routeID in store then r == Ok(routeID)
    else if routeID != "" && ofRoute.Fails() then r.Err?
    else if routeID != "" && HasHolder(store, ofRoute) then r.Ok? && Holds(store, r.value, ofRoute)
    else if ofClient.Fails() then r.Err?
    else if HasHolder(store, ofClient) then r.Ok? && Holds(store, r.value, ofClient)
    else if routeID != "" then r == Ok(routeID)
    else r.Err?
  }

  /** The startup reconcile gets past the record of `u`: its status is saved, and the device works or has nothing to
      change. */
  predicate Reconciles(store: map<Uid, Intent>, before: Peers, u: Uid, deviceOk: bool, statusOk: bool) {
    u in store && statusOk && (deviceOk || HasPeer(before, u, store[u].key, store[u].Route()))
  }

  /** The state file lists the peers there are, or nothing has changed at all. */
  predicate SavedOrSame(saved: Peers, peers: Peers, before: Peers, file: Peers) {
    saved == peers || (peers == before && saved == file)
  }

  /** What the state file lists, and as of which records, during a startup reconcile that began with it at `file`. */
  ghost predicate KeptSoFar(store: map<Uid, Intent>, before: Peers, file: Peers, kept: Option<set<Uid>>, saved: Peers) {
    match kept
    case None => saved == file
    case Some(u) => ReconciledTo(before, store, u, saved)
  }

  /** Such a startup is the machine's restart step. */
  lemma StartupIsRestart(cfg: Config, w: World, w': World, boot: Boot, restored: Peers)
    requires cfg.net.prefix <= 32 && restored == RestoredPeers(w, boot.loaded)
    requires w'.used == RestartUsed(cfg, w, boot.loaded)
    requires w'.store == w.store && w'.queue == [] && w'.handlers == map[] && w'.up == boot.ok
    requires ReconciledTo(restored, w.store, boot.done, w'.peers) && (boot.ok ==> boot.done == w.store.Keys)
    requires KeptSoFar(w.store, restored, w.saved, boot.kept, w'.saved)
    requires boot.kept.Some? ==> boot.kept.value <= boot.done
    ensures StepsTo(cfg, w, Restart(boot), w')
  {
    RestartStep(cfg, w, boot, w'.peers, w'.saved);
  }

  /** A reconciled table keeps the peers that have no record, and has every record it reached. */
  lemma ReconciledHas(restored: Peers, store: map<Uid, Intent>, done: set<Uid>, peers: Peers)
    requires ReconciledTo(restored, store, done, peers)
    ensures forall k :: k in restored && k !in store ==> k in peers && peers[k] == restored[k]
    ensures forall u :: u in done ==> HasPeer(peers, u, store[u].key, store[u].Route())
  {
  }

  /** How a startup reconcile over `restored` peers turns out: the service comes up iff it gets past every record, and
      then the controller has them all; restored peers without a record stay; and if every save works, the state file
      lists the peers there are unless nothing changed. */
  ghost predicate StartsAs(store: map<Uid, Intent>, listing: seq<Uid>, restored: Peers, file: Peers, persistent: bool,
                           deviceOk: Uid -> bool, saveOk: Uid -> bool, statusOk: Uid -> bool,
                           peers: Peers, saved: Peers, up: bool)
  {
    && (up <==> forall u :: u in listing ==> Reconciles(store, restored, u, deviceOk(u), statusOk(u)))
    && (up ==> forall u :: u in store ==> HasPeer(peers, u, store[u].key, store[u].Route()))
    && (forall k :: k in restored && k !in store ==> k in peers && peers[k] == restored[k])
    && (persistent && (forall u :: u in listing ==> saveOk(u)) ==> SavedOrSame(saved, peers, restored, file))
  }

  /** Some address that the search can hand out is free. */
  ghost predicate AddressFree(net: Subnet, used: set<Addr>)
    requires net.prefix <= 32
  {
    exists a :: PeerAddresses.InPool(net, a) && a !in used
  }

  lemma FreeExactlyIfNext(net: Subnet, used: set<Addr>)
    requires net.Valid()
    ensures AddressFree(net, used) <==> NextFree(net, used).Some?
  {
    if NextFree(net, used).Some? {
      PeerAddresses.HandedOutIsInPool(net, used);
    } else if a :| PeerAddresses.InPool(net, a) && a !in used {
      PeerAddresses.FreePoolAddressMeansNext(net, used, a);
    }
  }

  class Server {
    const controller: Controller
    const uidOf: string -> Uid        // "wireguardpeer-" and a hash of the normalised key
    var store: map<Uid, Intent>
    var queue: seq<Event>
    var up: bool                      // the startup reconcile has not failed

    ghost predicate Valid()
      reads this, controller, controller.allocator
    {
      && controller.Valid()
      && (forall u :: u in store ==> TrimSpace(store[u].key) != "")
    }

    function Cfg(): Config {
      Config(controller.allocator.net, controller.server)
    }

    /** The world between two requests: no handler is under way. */
    ghost function View(): World
      reads this, controller, controller.allocator
    {
      World(controller.allocator.used, store, map[], queue, controller.peers, Restored(controller.saved), up)
    }

    constructor (controller: Controller, uidOf: string -> Uid, store: map<Uid, Intent>)
      requires controller.Valid() && forall u :: u in store ==> TrimSpace(store[u].key) != ""
      ensures Valid() && this.controller == controller && this.uidOf == uidOf
      ensures this.store == store && queue == [] && up
    {
      this.controller, this.uidOf, this.store, queue, up := controller, uidOf, store, [], true;
    }

    /** The part of wg-init that takes an address, saves the record and publishes its creation. */
    method Admit(uid: Uid, key: string, saveOk: bool, publishOk: bool) returns (r: Option<Addr>, ghost steps: seq<Step>)
      requires Valid() && up && SearchEnds(controller.allocator.net, controller.allocator.used)
      requires uid !in store && TrimSpace(key) != ""
      modifies this`store, this`queue, controller.allocator`used
      ensures Valid() && HandlerSteps(steps) && Performs(Cfg(), old(View()), steps, View())
      ensures steps == InitRun(Cfg(), old(View()), 0, uid, key, saveOk, publishOk)
      ensures r.Some? <==> saveOk && AddressFree(controller.allocator.net, old(controller.allocator.used))
      ensures r.None? ==> View() == old(View())
      ensures r.Some? ==>
                && store == old(store)[uid := Intent(key, r.value)]
                && queue == (if publishOk then old(queue) + [Created(uid)] else old(queue))
                && r.value !in old(controller.allocator.used)
                && controller.allocator.used == old(controller.allocator.used) + {r.value}
    {
      steps := InitRun(Cfg(), View(), 0, uid, key, saveOk, publishOk);
      InitRunEffect(Cfg(), View(), 0, uid, key, saveOk, publishOk);
      RunsOfHandlers(Cfg(), View(), 0, uid, key, saveOk, publishOk);
      FreeExactlyIfNext(controller.allocator.net, controller.allocator.used);
      var taken := controller.allocator.NextAvailable();
      if taken.None? {
        return None, steps;
      }
      if !saveOk {
        controller.allocator.Release(taken);
        assert controller.allocator.used == old(controller.allocator.used);
        return None, steps;
      }
      store := store[uid := Intent(key, taken.value)];
      if publishOk {
        queue := queue + [Created(uid)];
      }
      return taken, steps;
    }

    /** The key is acceptable and has no record yet. */
    ghost predicate NeedsAddress(publicKey: string)
      reads this`store
    {
      PublicKey.Normalize(publicKey).Ok? && uidOf(PublicKey.Normalize(publicKey).value) !in store
    }

    /** POST /wg-init. A known key is answered from its record with nothing changed; otherwise the handler
        performs a run of the state machine. A failed request leaves everything as it was. */
    method WgInit(publicKey: string, loadOk: bool, saveOk: bool, publishOk: bool)
      returns (r: Result<InitResponse>, ghost steps: seq<Step>)
      requires Valid() && up
      requires loadOk && NeedsAddress(publicKey) ==> SearchEnds(controller.allocator.net, controller.allocator.used)
      modifies this`store, this`queue, controller.allocator`used
      ensures Valid() && HandlerSteps(steps) && Performs(Cfg(), old(View()), steps, View())
      ensures r.Err? ==> View() == old(View())
      ensures r.Ok? <==>
                && loadOk && PublicKey.Normalize(publicKey).Ok?
                && (|| uidOf(PublicKey.Normalize(publicKey).value) in old(store)
                    || (saveOk && AddressFree(controller.allocator.net, old(controller.allocator.used))))
      ensures r.Ok? ==>
                var key := PublicKey.Normalize(publicKey).value;
                && r.value.uid == uidOf(key)
                && r.value.uid in store && store[r.value.uid].addr == r.value.vpnIP
                && (r.value.uid in old(store) ==> View() == old(View()))
                && (r.value.uid !in old(store) ==>
                      && store == old(store)[r.value.uid := Intent(key, r.value.vpnIP)]
                      && queue == (if publishOk then old(queue) + [Created(r.value.uid)] else old(queue))
                      && r.value.vpnIP !in old(controller.allocator.used)
                      && controller.allocator.used == old(controller.allocator.used) + {r.value.vpnIP})
    {
      var normalized := PublicKey.Normalize(publicKey);
      if normalized.Err? {
        return Err(normalized.message), [];
      }
      PublicKey.NormalFormIsNotBlank(publicKey);
      var uid := uidOf(normalized.value);
      if !loadOk {
        return Err("failed to check existing peer"), [];
      }
      if uid in store {
        return Ok(InitResponse(uid, store[uid].addr)), [];
      }
      var taken;
      taken, steps := Admit(uid, normalized.value, saveOk, publishOk);
      if taken.None? {
        return Err("failed to create WireGuard peer"), steps;
      }
      return Ok(InitResponse(uid, taken.value)), steps;
    }

    /** findWireGuardPeerUIDByVPNIP over the records in whatever order storage lists them. */
    method FindByVPNIP(listing: seq<Uid>, at: Lookup) returns (r: Result<Option<Uid>>)
      requires at.Address? && forall u :: u in listing <==> u in store
      ensures r.Err? <==> at.Fails()
      ensures r.Ok? ==> (r.value.Some? <==> HasHolder(store, at)) && (r.value.Some? ==> Holds(store, r.value.value, at))
    {
      if !at.listOk {
        return Err("list failed");
      }
      if at.addr.None? {
        return Err("invalid vpn IP");
      }
      for i := 0 to |listing|
        invariant forall j :: 0 <= j < i ==> !Holds(store, listing[j], at)
      {
        assert listing[i] in store;
        if store[listing[i]].addr == at.addr.value {
          assert Holds(store, listing[i], at);
          return Ok(Some(listing[i]));
        }
      }
      return Ok(None);
    }

    /** resolvePhoneHomePeerUID; the lookups are what SMD knows of the route's id and of the caller. */
    method ResolvePhoneHome(routeID: string, routeOk: bool, ofRoute: Lookup, ofClient: Lookup, listing: seq<Uid>)
      returns (r: Result<Uid>)
      requires forall u :: u in listing <==> u in store
      ensures Resolves(store, routeID, routeOk, ofRoute, ofClient, r)
      ensures routeID != "" && routeOk && routeID in store ==> r == Ok(routeID)
      ensures r.Ok? && r.value != routeID ==>
                && (routeID == "" || routeID !in store)
                && (Holds(store, r.value, ofRoute) || (!HasHolder(store, ofRoute) && Holds(store, r.value, ofClient))
                    || (routeID == "" && Holds(store, r.value, ofClient)))
    {
      if routeID != "" {
        if !routeOk {
          return Err("load failed");
        }
        if routeID in store {
          return Ok(routeID);
        }
      }
      if routeID != "" && ofRoute.Address? {
        var found := FindByVPNIP(listing, ofRoute);
        if found.Err? {
          return Err(found.message);
        }
        if found.value.Some? {
          return Ok(found.value.value);
        }
      }
      if ofClient.Address? {
        var found := FindByVPNIP(listing, ofClient);
        if found.Err? {
          return Err(found.message);
        }
        if found.value.Some? {
          return Ok(found.value.value);
        }
      }
      if routeID != "" {
        return Ok(routeID);
      }
      return Err("unable to resolve WireGuard peer UID");
    }

    /** POST /phone-home/{id}. If the peer cannot be resolved the route id is taken. */
    method PhoneHome(routeID: string, routeOk: bool, ofRoute: Lookup, ofClient: Lookup, listing: seq<Uid>,
                     loadOk: bool, deleteOk: bool, publishOk: bool)
      returns (ok: bool, ghost resolved: Result<Uid>, ghost steps: seq<Step>)
      requires Valid() && up && forall u :: u in listing <==> u in store
      modifies this`store, this`queue
      ensures Valid()
      ensures Performs(Cfg(), old(View()), steps, View())
      ensures HandlerSteps(steps)
      ensures Resolves(old(store), routeID, routeOk, ofRoute, ofClient, resolved)
      ensures var uid := if resolved.Ok? then resolved.value else routeID;
              && (ok <==> uid == "" || (loadOk && deleteOk))
              && (ok ==> store == if uid == "" then old(store) else old(store) - {uid})
              && queue == (if ok && uid != "" && uid in old(store) && publishOk then old(queue) + [Deleted(uid)]
                           else old(queue))
      ensures !ok ==> View() == old(View())
    {
      var r := ResolvePhoneHome(routeID, routeOk, ofRoute, ofClient, listing);
      resolved, steps := r, [];
      var peerUID := if r.Ok? then r.value else routeID;
      if peerUID == "" {
        ok := true;
        return;
      }
      if !loadOk {
        ok := false;
        return;
      }
      steps := HomeRun(View(), 0, peerUID, deleteOk, publishOk);
      HomeRunEffect(Cfg(), View(), 0, peerUID, deleteOk, publishOk);
      RunsOfHandlers(Cfg(), View(), 0, peerUID, "", deleteOk, publishOk);
      var existing := peerUID in store;
      ok := deleteOk;
      if !deleteOk {
        return;
      }
      store := store - {peerUID};
      if existing && publishOk {
        queue := queue + [Deleted(peerUID)];
      }
    }

    /** handleResourceEvent with the reconciler's Reconcile and Delete, on the oldest queued event. The status
        update at the end saves the copy of the record that was read at the start. */
    method HandleNextEvent(readOk: bool, deviceOk: bool, saveOk: bool, statusOk: bool) returns (ghost steps: seq<Step>)
      requires Valid() && up && queue != []
      modifies this`queue, this`store, controller`peers, controller`saved
      ensures Valid() && Performs(Cfg(), old(View()), steps, View())
      ensures View() == Delivered(old(View()), readOk, deviceOk, saveOk && controller.persistent)
      ensures steps == DeliverRun(old(View()), 0, readOk, deviceOk, saveOk && controller.persistent, statusOk)
      ensures if controller.peers != old(controller.peers) && saveOk && controller.persistent
              then Restored(controller.saved) == controller.peers
              else Restored(controller.saved) == old(Restored(controller.saved))
    {
      ghost var onDisk := saveOk && controller.persistent;
      steps := DeliverRun(View(), 0, readOk, deviceOk, onDisk, statusOk);
      DeliverRunEffect(Cfg(), View(), 0, readOk, deviceOk, onDisk, statusOk);
      var e := queue[0];
      queue := queue[1..];
      RemoveTakesOne(controller.peers, e.uid, deviceOk);
      if e.uid in store {
        UpsertInstalls(controller.peers, e.uid, store[e.uid].key, store[e.uid].Route(), deviceOk);
      }
      if e.Deleted? {
        var _ := controller.RemovePeerByID(e.uid, deviceOk, saveOk);
      } else if readOk && e.uid in store {
        var peer := store[e.uid];
        if TrimSpace(peer.key) != "" {
          var _ := controller.UpsertPeer(e.uid, peer.key, peer.Route(), deviceOk, saveOk);
        }
        if statusOk {
          store := store[e.uid := peer];
          assert store == old(store);
        }
      }
    }

    /** One record of the startup reconcile. */
    method ReconcileOne(uid: Uid, deviceOk: bool, saveOk: bool, ghost before: Peers, ghost file: Peers,
                        ghost done: set<Uid>,
                        ghost kept: Option<set<Uid>>)
      returns (ok: bool, ghost kept': Option<set<Uid>>)
      requires Valid() && uid in store && uid !in done && ReconciledTo(before, store, done, controller.peers)
      requires KeptSoFar(store, before, file, kept, Restored(controller.saved)) && (kept.Some? ==> kept.value <= done)
      modifies controller`peers, controller`saved
      ensures Valid()
      ensures ok <==> deviceOk || HasPeer(before, uid, store[uid].key, store[uid].Route())
      ensures if controller.peers != old(controller.peers) && controller.persistent && saveOk
              then Restored(controller.saved) == controller.peers
              else Restored(controller.saved) == old(Restored(controller.saved))
      ensures ReconciledTo(before, store, if ok then done + {uid} else done, controller.peers)
      ensures KeptSoFar(store, before, file, kept', Restored(controller.saved))
      ensures kept'.Some? ==> kept'.value <= if ok then done + {uid} else done
    {
      ghost var peers := controller.peers;
      UpsertInstalls(peers, uid, store[uid].key, store[uid].Route(), deviceOk);
      ok := controller.UpsertPeer(uid, store[uid].key, store[uid].Route(), deviceOk, saveOk);
      kept' := kept;
      if ok {
        ReconcileOneMore(before, store, done, peers, uid, deviceOk);
        if Restored(controller.saved) == controller.peers {
          kept' := Some(done + {uid});
        }
      }
    }

    /** reconcileExistingResources: upsert every listed record and save its status, stopping at the first failure, after
        which the service exits. `kept` is the part that had been reached at the last successful save. */
    method ReconcileExisting(listing: seq<Uid>, deviceOk: Uid -> bool, saveOk: Uid -> bool, statusOk: Uid -> bool)
      returns (ok: bool, ghost done: set<Uid>, ghost kept: Option<set<Uid>>)
      requires Valid()
      requires forall u :: u in listing <==> u in store
      requires forall i, j :: 0 <= i < j < |listing| ==> listing[i] != listing[j]
      modifies controller`peers, controller`saved
      ensures Valid() && (ok ==> done == store.Keys) && (kept.Some? ==> kept.value <= done)
      ensures ok <==> forall u :: u in listing ==> Reconciles(store, old(controller.peers), u, deviceOk(u), statusOk(u))
      ensures ReconciledTo(old(controller.peers), store, done, controller.peers)
      ensures KeptSoFar(store, old(controller.peers), old(Restored(controller.saved)), kept,
                        Restored(controller.saved))
      ensures controller.persistent && (forall u :: u in listing ==> saveOk(u)) ==>
                SavedOrSame(Restored(controller.saved), controller.peers, old(controller.peers),
                            old(Restored(controller.saved)))
    {
      done, kept := {}, None;
      ghost var before, file := controller.peers, Restored(controller.saved);
      assert ReconciledTo(before, store, {}, before) by {
        assert Reconciled(before, store, {}) == before;
      }
      for i := 0 to |listing|
        invariant Valid() && done == Firsts(listing, i)
        invariant ReconciledTo(before, store, done, controller.peers)
        invariant KeptSoFar(store, before, file, kept, Restored(controller.saved))
        invariant kept.Some? ==> kept.value <= done
        invariant forall j :: 0 <= j < i ==> Reconciles(store, before, listing[j], deviceOk(listing[j]),
                                                          statusOk(listing[j]))
        invariant controller.persistent && (forall u :: u in listing ==> saveOk(u)) ==>
                    SavedOrSame(Restored(controller.saved), controller.peers, before, file)
      {
        var uid := listing[i];
        OneMoreListed(listing, i);
        ok, kept := ReconcileOne(uid, deviceOk(uid), saveOk(uid), before, file, done, kept);
        if !ok {
          assert !Reconciles(store, before, uid, deviceOk(uid), statusOk(uid));
          return;
        }
        done := done + {uid};
        ok := statusOk(uid);
        if !ok {
          assert !Reconciles(store, before, uid, deviceOk(uid), statusOk(uid));
          return;
        }
      }
      AllListed(listing, store.Keys);
      ok := true;
    }

    /** The startup of a server over restored peers. */
    method Start(listing: seq<Uid>, deviceOk: Uid -> bool, saveOk: Uid -> bool, statusOk: Uid -> bool)
      returns (ghost done: set<Uid>, ghost kept: Option<set<Uid>>)
      requires Valid()
      requires forall u :: u in listing <==> u in store
      requires forall i, j :: 0 <= i < j < |listing| ==> listing[i] != listing[j]
      modifies controller`peers, controller`saved, this`up
      ensures Valid() && (up ==> done == store.Keys) && (kept.Some? ==> kept.value <= done)
      ensures ReconciledTo(old(controller.peers), store, done, controller.peers)
      ensures KeptSoFar(store, old(controller.peers), old(Restored(controller.saved)), kept,
                        Restored(controller.saved))
      ensures StartsAs(store, listing, old(controller.peers), old(Restored(controller.saved)), controller.persistent,
                       deviceOk, saveOk, statusOk, controller.peers, Restored(controller.saved), up)
    {
      ghost var restored := controller.peers;
      var ok;
      ok, done, kept := ReconcileExisting(listing, deviceOk, saveOk, statusOk);
      ReconciledHas(restored, store, done, controller.peers);
      up := ok;
    }
  }

  /** Two spellings of one key, asked one after the other: the second request gets the first one's UID and
      address, and changes nothing. */
  method InitTwice(s: Server, x: string, y: string, saveOk: bool, publishOk: bool)
    returns (r1: Result<InitResponse>, r2: Result<InitResponse>, ghost between: World)
    requires s.Valid() && s.up
    requires s.NeedsAddress(x) ==> SearchEnds(s.controller.allocator.net, s.controller.allocator.used)
    requires exists key :: PublicKey.Spells(x, key) && PublicKey.Spells(y, key)
    modifies s`store, s`queue, s.controller.allocator`used
    ensures r1.Ok? ==> r2 == r1 && s.View() == between
    ensures r1.Ok? && r1.value.uid in old(s.store) ==> between == old(s.View())
  {
    PublicKey.NormalFormIsCanonical(x, y);
    PublicKey.NormalFormIsCanonical(y, x);
    r1, r2 := Err(""), Err("");
    ghost var steps;
    r1, steps := s.WgInit(x, true, saveOk, publishOk);
    between := s.View();
    if r1.Ok? {
      r2, steps := s.WgInit(y, true, saveOk, publishOk);
    }
  }

  /** A restart: a new controller from the state file, which may be unreadable, storage as it is, then the startup
      reconcile with every save failing or succeeding on its own. */
  method Restarted(s: Server, listing: seq<Uid>, loadOk: bool, deviceOk: Uid -> bool, saveOk: Uid -> bool,
                   statusOk: Uid -> bool)
    returns (s': Server, ghost boot: Boot)
    requires s.Valid() && s.controller.allocator.net.Contains(s.controller.server)
    requires !s.controller.persistent ==> s.controller.saved == []
    requires forall u :: u in listing <==> u in s.store
    requires forall i, j :: 0 <= i < j < |listing| ==> listing[i] != listing[j]
    ensures s'.Valid() && s'.Cfg() == s.Cfg() && s'.store == s.store && s'.queue == []
    ensures StepsTo(s.Cfg(), s.View(), Restart(boot), s'.View())
    ensures boot.loaded == (!s.controller.persistent || loadOk) && boot.ok == s'.up
    ensures var restored := if !s.controller.persistent || loadOk then Restored(s.controller.saved) else map[];
            && s'.controller.allocator.used == {s.controller.server} + VpnAddrsIn(s.controller.allocator.net, restored)
            && StartsAs(s.store, listing, restored, Restored(s.controller.saved), s.controller.persistent,
                        deviceOk, saveOk, statusOk, s'.controller.peers, Restored(s'.controller.saved), s'.up)
  {
    ghost var cfg, before := s.Cfg(), s.View();
    s' := Rebuilt(s, loadOk);
    var done, kept := s'.Start(listing, deviceOk, saveOk, statusOk);
    boot := Boot(!s.controller.persistent || loadOk, done, kept, s'.up);
    StartupIsRestart(cfg, before, s'.View(), boot, RestoredPeers(before, boot.loaded));
  }

  /** The server before its startup reconcile. */
  method Rebuilt(s: Server, loadOk: bool) returns (s': Server)
    requires s.Valid() && s.controller.allocator.net.Contains(s.controller.server)
    requires !s.controller.persistent ==> s.controller.saved == []
    ensures s'.Valid() && fresh(s') && fresh(s'.controller) && fresh(s'.controller.allocator)
    ensures s'.Cfg() == s.Cfg() && s'.store == s.store && s'.queue == []
    ensures s'.controller.persistent == s.controller.persistent && s'.controller.saved == s.controller.saved
    ensures var restored := if !s.controller.persistent || loadOk then Restored(s.controller.saved) else map[];
            && s'.controller.peers == restored
            && s'.controller.allocator.used == {s.controller.server} + VpnAddrsIn(s.controller.allocator.net, restored)
  {
    var c := RestoredController(s.controller, loadOk);
    s' := new Server(c, s.uidOf, s.store);
  }

  /** The controller that a restart builds from what the old one saved. */
  method RestoredController(before: Controller, loadOk: bool) returns (c: Controller)
    requires before.Valid() && before.allocator.net.Contains(before.server)
    requires !before.persistent ==> before.saved == []
    ensures c.Valid() && fresh(c) && fresh(c.allocator)
    ensures c.allocator.net == before.allocator.net && c.server == before.server && c.persistent == before.persistent
    ensures c.saved == before.saved && c.peers == if !c.persistent || loadOk then Restored(before.saved) else map[]
    ensures c.allocator.used == {c.server} + VpnAddrsIn(c.allocator.net, c.peers)
  {
    var net, file := before.allocator.net, before.saved;
    SameBlock(net, before.server);
    var made := NewController(net.base, net.prefix, before.server, before.persistent, file,
                              Startup(true, true, loadOk, true));
    c := made.value;
    if before.persistent && !loadOk {
      NothingReserved(net);
    } else {
      ghost var keys :| Lists(keys, file, Restored(file));
      RestoreReserves(net, {before.server}, keys, file, Restored(file));
    }
  }

  lemma SameBlock(net: Subnet, a: Addr)
    requires net.Valid() && net.Contains(a)
    ensures net.base < ADDRESS_SPACE && Subnet(Masked(net.base, 32 - net.prefix), net.prefix) == net
    ensures Masked(a, 32 - net.prefix) == Masked(net.base, 32 - net.prefix)
  {
  }

  lemma NothingReserved(net: Subnet)
    requires net.prefix <= 32
    ensures VpnAddrsIn(net, map[]) == {}
  {
  }
}
