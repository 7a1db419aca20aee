/** What wg-init promises about addresses, over all runs of the peer protocol: no two stored peers share one, when a
    restart keeps that, and how addresses run out. */
module PeerAddresses {
  import opened Prelude
  import opened IPAllocation
  import opened WireGuardController
  import opened PeerProtocol

  /** Addresses a search can hand out. */
  ghost predicate InPool(net: Subnet, a: Addr)
    requires net.prefix <= 32
  {
    if net.prefix >= 24 then net.base < a < net.Broadcast() else net.base <= a < net.base + 256
  }

  /** `a` is a host address other than the server's, and it is marked used. */
  ghost predicate Held(cfg: Config, w: World, a: Addr)
    requires cfg.net.prefix <= 32
  {
    InPool(cfg.net, a) && cfg.net.Contains(a) && a != cfg.server && a in w.used
  }

  /** The promise: stored peers hold usable addresses, no two the same one. */
  ghost predicate Safe(cfg: Config, w: World)
    requires cfg.net.prefix <= 32
  {
    && (forall u :: u in w.store ==> Held(cfg, w, w.store[u].addr))
    && (forall u, v :: u in w.store && v in w.store && u != v ==> w.store[u].addr != w.store[v].addr)
  }

  /** Safe, and the addresses that handlers carry are usable and nobody else's. */
  ghost predicate Inv(cfg: Config, w: World)
    requires cfg.net.prefix <= 32
  {
    && cfg.server in w.used
    && Safe(cfg, w)
    && (forall h :: Carries(w, h) ==> Held(cfg, w, AddrOf(w.handlers[h])))
    && (forall h, u :: Carries(w, h) && u in w.store && (w.handlers[h].Allocated? || w.handlers[h].uid != u) ==>
          AddrOf(w.handlers[h]) != w.store[u].addr)
    && (forall h, g :: Carries(w, h) && Carries(w, g) && h != g && Rivals(w.handlers[h], w.handlers[g]) ==>
          AddrOf(w.handlers[h]) != AddrOf(w.handlers[g]))
  }

  predicate HasAddr(p: Handler) {
    p.Allocated? || p.Fetched? || p.Applied?
  }

  function AddrOf(p: Handler): Addr
    requires HasAddr(p)
  {
    if p.Allocated? then p.addr else p.copy.addr
  }

  /** Handler `h` has taken an address and not yet stored it, or carries a copy of a record. */
  predicate Carries(w: World, h: nat) {
    h in w.handlers && HasAddr(w.handlers[h])
  }

  /** Two carriers that must not share an address: all but two copies of one UID's records. */
  predicate Rivals(p: Handler, q: Handler) {
    p.Allocated? || q.Allocated? || p.uid != q.uid
  }

  /** What an operator can check before a restart: the restored peers' addresses include every stored one. */
  ghost predicate Covered(cfg: Config, w: World, loaded: bool)
    requires cfg.net.prefix <= 32
  {
    forall u :: u in w.store ==> w.store[u].addr in RestartUsed(cfg, w, loaded)
  }

  /** A run whose restarts are all taken from covered states. */
  ghost predicate CarefulRun(cfg: Config, w: World, steps: seq<Step>)
    requires cfg.net.prefix <= 32
    decreases |steps|
  {
    steps == [] ||
    (&& Enabled(cfg, w, steps[0])
     && (steps[0].Restart? ==> Covered(cfg, w, steps[0].boot.loaded))
     && CarefulRun(cfg, After(cfg, w, steps[0]), steps[1..]))
  }

  lemma {:induction false} CarefulRunsRun(cfg: Config, w: World, steps: seq<Step>)
    requires cfg.net.prefix <= 32 && CarefulRun(cfg, w, steps)
    ensures Runs(cfg, w, steps)
    decreases |steps|
  {
    if steps != [] {
      CarefulRunsRun(cfg, After(cfg, w, steps[0]), steps[1..]);
    }
  }

  lemma HandedOutIsInPool(net: Subnet, used: set<Addr>)
    requires net.Valid() && NextFree(net, used).Some?
    ensures InPool(net, NextFree(net, used).value) && net.Contains(NextFree(net, used).value)
  {
    NextFreeInNetwork(net, used);
  }

  /** A handler that takes an address nobody has. */
  lemma TakerKeepsInv(cfg: Config, w: World, h: nat, p: Handler, w': World)
    requires cfg.net.prefix <= 32 && Inv(cfg, w) && !Carries(w, h) && p.Allocated? && p.addr !in w.used
    requires InPool(cfg.net, p.addr) && cfg.net.Contains(p.addr)
    requires w'.used == w.used + {p.addr} && w'.store == w.store && w'.handlers == w.handlers[h := p]
    ensures Inv(cfg, w')
  {
    assert forall g :: Carries(w', g) <==> g == h || Carries(w, g);
    assert forall g :: Carries(w, g) ==> Held(cfg, w, AddrOf(w.handlers[g]));
    assert forall u :: u in w.store ==> Held(cfg, w, w.store[u].addr);
  }

  lemma AllocateKeepsInv(cfg: Config, w: World, h: nat)
    requires cfg.net.Valid() && Inv(cfg, w) && Enabled(cfg, w, Allocate(h))
    ensures Inv(cfg, After(cfg, w, Allocate(h)))
  {
    var w' := After(cfg, w, Allocate(h));
    if NextFree(cfg.net, w.used).Some? {
      HandedOutIsInPool(cfg.net, w.used);
      TakerKeepsInv(cfg, w, h, w'.handlers[h], w');
    } else {
      FewerCarriersKeepInv(cfg, w, w');
    }
  }

  lemma SaveKeepsInv(cfg: Config, w: World, h: nat, ok: bool)
    requires cfg.net.prefix <= 32 && Inv(cfg, w) && Enabled(cfg, w, Save(h, ok))
    ensures Inv(cfg, After(cfg, w, Save(h, ok)))
  {
    var w' := After(cfg, w, Save(h, ok));
    assert Carries(w, h);
    assert forall g :: Carries(w', g) <==> g != h && Carries(w, g);
    assert forall g :: Carries(w', g) ==> w'.handlers[g] == w.handlers[g] && Rivals(w.handlers[g], w.handlers[h]);
    assert forall u :: u in w.store ==> Held(cfg, w, w.store[u].addr);
  }

  /** A handler that starts to carry a copy of a stored record. */
  lemma CopyKeepsInv(cfg: Config, w: World, h: nat, u: Uid, w': World)
    requires cfg.net.prefix <= 32 && Inv(cfg, w) && h !in w.handlers && u in w.store
    requires w'.used == w.used && w'.store == w.store && w'.handlers == w.handlers[h := Fetched(u, w.store[u])]
    ensures Inv(cfg, w')
  {
    assert forall g :: g != h ==> (Carries(w', g) <==> Carries(w, g));
    assert forall v :: v in w.store ==> Held(cfg, w, w.store[v].addr);
  }

  lemma DeliverKeepsInv(cfg: Config, w: World, h: nat, i: nat, ok: bool, saveOk: bool)
    requires cfg.net.prefix <= 32 && Inv(cfg, w) && Enabled(cfg, w, Deliver(h, i, ok, saveOk))
    ensures Inv(cfg, After(cfg, w, Deliver(h, i, ok, saveOk)))
  {
    var w', e := After(cfg, w, Deliver(h, i, ok, saveOk)), w.queue[i];
    if e.Created? && e.uid in w.store && ok {
      CopyKeepsInv(cfg, w, h, e.uid, w');
    } else {
      assert w'.used == w.used && w'.store == w.store && w'.handlers == w.handlers;
    }
  }

  lemma ApplyKeepsInv(cfg: Config, w: World, s: Step)
    requires cfg.net.prefix <= 32 && Inv(cfg, w) && Enabled(cfg, w, s) && s.Apply?
    ensures Inv(cfg, After(cfg, w, s))
  {
    var w' := After(cfg, w, s);
    assert w'.used == w.used && w'.store == w.store;
    forall g
      ensures Carries(w', g) <==> Carries(w, g)
      ensures Carries(w, g) ==>
                && AddrOf(w'.handlers[g]) == AddrOf(w.handlers[g]) && w'.handlers[g].uid == w.handlers[g].uid
                && (w'.handlers[g].Allocated? <==> w.handlers[g].Allocated?)
    {
    }
  }

  /** Saving an old copy of a record: its address is still nobody else's. */
  lemma StatusKeepsInv(cfg: Config, w: World, s: Step)
    requires cfg.net.prefix <= 32 && Inv(cfg, w) && Enabled(cfg, w, s) && s.SaveStatus?
    ensures Inv(cfg, After(cfg, w, s))
  {
    var w' := After(cfg, w, s);
    assert Carries(w, s.h) && w'.used == w.used;
    assert forall g :: Carries(w', g) <==> g != s.h && Carries(w, g);
    assert forall g :: Carries(w', g) ==> w'.handlers[g] == w.handlers[g];
    assert forall u :: u in w.store ==> Held(cfg, w, w.store[u].addr);
  }

  /** Records and carriers may go, as long as the addresses of those that stay are marked. */
  lemma FewerCarriersKeepInv(cfg: Config, w: World, w': World)
    requires cfg.net.prefix <= 32 && Inv(cfg, w) && cfg.server in w'.used
    requires forall g :: Carries(w', g) ==>
               Carries(w, g) && w'.handlers[g] == w.handlers[g] && AddrOf(w.handlers[g]) in w'.used
    requires forall u :: u in w'.store ==> u in w.store && w'.store[u] == w.store[u] && w.store[u].addr in w'.used
    ensures Inv(cfg, w')
  {
    assert forall u :: u in w.store ==> Held(cfg, w, w.store[u].addr);
  }

  lemma StepKeepsInv(cfg: Config, w: World, s: Step)
    requires cfg.net.Valid() && Inv(cfg, w) && Enabled(cfg, w, s)
    requires s.Restart? ==> Covered(cfg, w, s.boot.loaded)
    ensures Inv(cfg, After(cfg, w, s))
  {
    if s.Allocate? {
      AllocateKeepsInv(cfg, w, s.h);
    } else if s.Save? {
      SaveKeepsInv(cfg, w, s.h, s.ok);
    } else if s.Deliver? {
      DeliverKeepsInv(cfg, w, s.h, s.i, s.ok, s.saveOk);
    } else if s.Apply? {
      ApplyKeepsInv(cfg, w, s);
    } else if s.SaveStatus? {
      StatusKeepsInv(cfg, w, s);
    } else {
      FewerCarriersKeepInv(cfg, w, After(cfg, w, s));
    }
  }

  lemma {:induction false} CarefulRunsKeepInv(cfg: Config, w: World, steps: seq<Step>)
    requires cfg.net.Valid() && Inv(cfg, w) && CarefulRun(cfg, w, steps)
    ensures Runs(cfg, w, steps) && Inv(cfg, End(cfg, w, steps))
    decreases |steps|
  {
    CarefulRunsRun(cfg, w, steps);
    if steps != [] {
      StepKeepsInv(cfg, w, steps[0]);
      CarefulRunsKeepInv(cfg, After(cfg, w, steps[0]), steps[1..]);
    }
  }

  /** Over every interleaving of handlers, deliveries in any order, failed saves, failed device calls, lost
      events and covered restarts, stored peers with different UIDs have different usable addresses. */
  lemma PeersNeverShareAddresses(cfg: Config, steps: seq<Step>)
    requires cfg.net.Valid() && CarefulRun(cfg, InitialWorld(cfg), steps)
    ensures Runs(cfg, InitialWorld(cfg), steps) && Safe(cfg, End(cfg, InitialWorld(cfg), steps))
  {
    CarefulRunsKeepInv(cfg, InitialWorld(cfg), steps);
  }

  // ---------------------------------------------------------------- an uncovered restart breaks it

  ghost function Range(lo: nat, hi: nat): (r: set<Addr>)
    ensures forall a :: a in r <==> lo <= a < hi
    decreases hi - lo
  {
    if lo >= hi then {} else {lo} + Range(lo + 1, hi)
  }

  ghost function Pool(net: Subnet): (r: set<Addr>)
    requires net.prefix <= 32
    ensures forall a :: a in r <==> InPool(net, a)
  {
    if net.prefix >= 24 then Range(net.base + 1, net.Broadcast()) else Range(net.base, net.base + 256)
  }

  lemma FreePoolAddressMeansNext(net: Subnet, used: set<Addr>, a: Addr)
    requires net.prefix <= 32 && InPool(net, a) && a !in used
    ensures NextFree(net, used).Some? && SearchEnds(net, used)
  {
  }

  ghost predicate Unshared(w: World) {
    forall u, v :: u in w.store && v in w.store && u != v ==> w.store[u].addr != w.store[v].addr
  }

  /** While a stored address is not marked used, enough wg-inits hand it out a second time. */
  lemma ForgottenAddressIsHandedOutAgain(cfg: Config, w: World, u: Uid) returns (steps: seq<Step>)
    requires cfg.net.Valid() && w.up && w.handlers == map[] && u in w.store
    requires InPool(cfg.net, w.store[u].addr) && w.store[u].addr !in w.used
    ensures CarefulRun(cfg, w, steps) && Runs(cfg, w, steps)
    ensures !Unshared(End(cfg, w, steps))
    decreases |Pool(cfg.net) - w.used|
  {
    var a0 := w.store[u].addr;
    var newcomer := FreshName(w.store.Keys);
    FreePoolAddressMeansNext(cfg.net, w.used, a0);
    InitRunEffect(cfg, w, 0, newcomer, "", true, true);
    var a := NextFree(cfg.net, w.used).value;
    HandedOutIsInPool(cfg.net, w.used);
    var first := InitRun(cfg, w, 0, newcomer, "", true, true);
    var w' := End(cfg, w, first);
    NoRestartIsCareful(cfg, w, first);
    if a == a0 {
      assert w'.store[u].addr == w'.store[newcomer].addr;
      return first;
    }
    assert a in Pool(cfg.net) - w.used && Pool(cfg.net) - w'.used == Pool(cfg.net) - w.used - {a};
    var rest := ForgottenAddressIsHandedOutAgain(cfg, w', u);
    RunsCompose(cfg, w, first, rest);
    CarefulCompose(cfg, w, first, rest);
    return first + rest;
  }

  lemma {:induction false} NoRestartIsCareful(cfg: Config, w: World, steps: seq<Step>)
    requires cfg.net.prefix <= 32 && Runs(cfg, w, steps)
    requires forall i :: 0 <= i < |steps| ==> !steps[i].Restart?
    ensures CarefulRun(cfg, w, steps)
    decreases |steps|
  {
    if steps != [] {
      NoRestartIsCareful(cfg, After(cfg, w, steps[0]), steps[1..]);
    }
  }

  lemma {:induction false} CarefulCompose(cfg: Config, w: World, first: seq<Step>, second: seq<Step>)
    requires cfg.net.prefix <= 32 && Runs(cfg, w, first)
    requires CarefulRun(cfg, w, first) && CarefulRun(cfg, End(cfg, w, first), second)
    ensures CarefulRun(cfg, w, first + second)
    decreases |first|
  {
    if first == [] {
      assert first + second == second;
    } else {
      assert (first + second)[0] == first[0] && (first + second)[1..] == first[1..] + second;
      CarefulCompose(cfg, After(cfg, w, first[0]), first[1..], second);
    }
  }

  ghost predicate SafeForever(cfg: Config, w: World)
    requires cfg.net.prefix <= 32
  {
    forall steps :: CarefulRun(cfg, w, steps) && Runs(cfg, w, steps) ==> Safe(cfg, End(cfg, w, steps))
  }

  ghost predicate UnsharedForever(cfg: Config, w: World)
    requires cfg.net.prefix <= 32
  {
    forall steps :: CarefulRun(cfg, w, steps) && Runs(cfg, w, steps) ==> Unshared(End(cfg, w, steps))
  }

  /** A covered restart sets everything right as long as the stored addresses themselves are. */
  lemma CoveredRestartRepairs(cfg: Config, w: World, w1: World, boot: Boot)
    requires cfg.net.prefix <= 32 && Inv(cfg, w) && w1.store == w.store && Enabled(cfg, w1, Restart(boot))
    requires Covered(cfg, w1, boot.loaded)
    ensures Inv(cfg, After(cfg, w1, Restart(boot)))
  {
    FewerCarriersKeepInv(cfg, w, After(cfg, w1, Restart(boot)));
  }

  lemma DownStaysUnshared(cfg: Config, w: World, w1: World, steps: seq<Step>)
    requires cfg.net.Valid() && Inv(cfg, w) && w1.store == w.store && !w1.up
    requires CarefulRun(cfg, w1, steps) && Runs(cfg, w1, steps)
    ensures Unshared(End(cfg, w1, steps))
  {
    if steps != [] {
      CoveredRestartRepairs(cfg, w, w1, steps[0].boot);
      CarefulRunsKeepInv(cfg, After(cfg, w1, steps[0]), steps[1..]);
    }
  }

  /** Covered is the exact condition: a restart keeps all stored addresses usable and marked in every continuation if
      and only if the restored peers' addresses include every stored one; and otherwise two peers come to share an
      address in some continuation, unless the startup reconcile failed, so that only another restart can follow. */
  lemma RestartIsSafeExactlyWhenCovered(cfg: Config, w: World, boot: Boot)
    requires cfg.net.Valid() && Inv(cfg, w) && Enabled(cfg, w, Restart(boot))
    ensures SafeForever(cfg, After(cfg, w, Restart(boot))) <==> Covered(cfg, w, boot.loaded)
    ensures UnsharedForever(cfg, After(cfg, w, Restart(boot))) <==>
              Covered(cfg, w, boot.loaded) || !boot.ok
  {
    var s := Restart(boot);
    var w' := After(cfg, w, s);
    if Covered(cfg, w, boot.loaded) {
      StepKeepsInv(cfg, w, s);
      forall steps | CarefulRun(cfg, w', steps) && Runs(cfg, w', steps) ensures Safe(cfg, End(cfg, w', steps)) {
        CarefulRunsKeepInv(cfg, w', steps);
      }
    } else {
      var u :| u in w.store && w.store[u].addr !in RestartUsed(cfg, w, boot.loaded);
      assert Held(cfg, w, w.store[u].addr);
      assert CarefulRun(cfg, w', []) && Runs(cfg, w', []) && !Safe(cfg, End(cfg, w', []));
      if w'.up {
        var steps := ForgottenAddressIsHandedOutAgain(cfg, w', u);
      } else {
        forall steps | CarefulRun(cfg, w', steps) && Runs(cfg, w', steps) ensures Unshared(End(cfg, w', steps)) {
          DownStaysUnshared(cfg, w, w', steps);
        }
      }
    }
  }

  /** With an unreadable state file a restart is safe only while nothing is stored. */
  lemma UnreadableStateIsNeverCovered(cfg: Config, w: World)
    requires cfg.net.prefix <= 32 && Inv(cfg, w)
    ensures Covered(cfg, w, false) <==> w.store == map[]
  {
    if u :| u in w.store {
      assert Held(cfg, w, w.store[u].addr);
      assert w.store[u].addr !in RestartUsed(cfg, w, false);
    }
  }

  /** The condition is not idle: a peer whose creation event has not been handled yet is not covered. */
  lemma UndeliveredPeerIsNotCovered(cfg: Config, uid: Uid, key: string)
    requires cfg.net.Valid() && SearchEnds(cfg.net, {cfg.server}) && NextFree(cfg.net, {cfg.server}).Some?
    ensures var w0 := InitialWorld(cfg);
            var steps := InitRun(cfg, w0, 0, uid, key, true, true);
            Runs(cfg, w0, steps) && !Covered(cfg, End(cfg, w0, steps), true)
  {
    var w0 := InitialWorld(cfg);
    InitRunEffect(cfg, w0, 0, uid, key, true, true);
    var w := End(cfg, w0, InitRun(cfg, w0, 0, uid, key, true, true));
    assert w.store[uid].addr !in RestartUsed(cfg, w, true);
  }

  /** But it is as soon as its event has been handled and the controller has saved. */
  lemma DeliveredPeerIsCovered(cfg: Config, w: World, u: Uid)
    requires cfg.net.prefix <= 32 && Inv(cfg, w) && w.queue != [] && w.queue[0] == Created(u)
    requires u in w.store && u !in w.peers
    ensures var w' := Delivered(w, true, true, true);
            w'.saved == w'.peers && w'.store == w.store && w.store[u].addr in RestartUsed(cfg, w', true)
  {
    var w' := Delivered(w, true, true, true);
    assert Held(cfg, w, w.store[u].addr);
    assert u in w'.peers && w'.peers[u].vpnIP == Some(w.store[u].addr);
  }

  // ---------------------------------------------------------------- addresses run out

  ghost predicate TakenBy(w: World, h: nat, a: Addr) {
    h in w.handlers && w.handlers[h].Allocated? && w.handlers[h].addr == a
  }

  /** Addresses that no failed save can give back: marked used, and in no handler's hands. */
  ghost function Spent(w: World): set<Addr> {
    set a | a in w.used && forall h :: !TakenBy(w, h, a)
  }

  /** Short of a restart nothing gives a spent address back -- phone-homes and deletion events included -- and every
      saved record spends one more. */
  lemma StepSpends(cfg: Config, w: World, s: Step)
    requires cfg.net.prefix <= 32 && Inv(cfg, w) && Enabled(cfg, w, s) && !s.Restart?
    ensures Spent(w) <= Spent(After(cfg, w, s))
    ensures s.Save? && s.ok ==>
              w.handlers[s.h].addr !in Spent(w) && w.handlers[s.h].addr in Spent(After(cfg, w, s))
  {
    var w' := After(cfg, w, s);
    forall a | a in Spent(w) ensures a in Spent(w') {
      forall h ensures !TakenBy(w', h, a) {
        assert !TakenBy(w, h, a);
      }
      if s.Save? {
        assert !TakenBy(w, s.h, a);
      }
    }
    if s.Save? && s.ok {
      var b := w.handlers[s.h].addr;
      assert TakenBy(w, s.h, b) && Carries(w, s.h) && Held(cfg, w, b);
      forall h ensures !TakenBy(w', h, b) {
        assert TakenBy(w', h, b) ==> h != s.h && Carries(w, h) && AddrOf(w.handlers[h]) == b;
      }
    }
  }

  /** How many records wg-inits have saved. */
  function Saves(steps: seq<Step>): nat
    decreases |steps|
  {
    if steps == [] then 0 else Saves(steps[1..]) + if steps[0].Save? && steps[0].ok then 1 else 0
  }

  lemma {:induction false} RunSpends(cfg: Config, w: World, steps: seq<Step>)
    requires cfg.net.Valid() && Inv(cfg, w) && Runs(cfg, w, steps)
    requires forall i :: 0 <= i < |steps| ==> !steps[i].Restart?
    ensures Inv(cfg, End(cfg, w, steps)) && Spent(w) <= Spent(End(cfg, w, steps))
    ensures |Spent(w)| + Saves(steps) <= |Spent(End(cfg, w, steps))|
    decreases |steps|
  {
    if steps != [] {
      var s, w' := steps[0], After(cfg, w, steps[0]);
      StepKeepsInv(cfg, w, s);
      StepSpends(cfg, w, s);
      RunSpends(cfg, w', steps[1..]);
      if s.Save? && s.ok {
        SmallerSet(Spent(w) + {w.handlers[s.h].addr}, Spent(w'));
      } else {
        SmallerSet(Spent(w), Spent(w'));
      }
    }
  }

  lemma {:induction false} SmallerSet(a: set<Addr>, b: set<Addr>)
    requires a <= b
    ensures |a| <= |b|
  {
    if a != {} {
      var x :| x in a;
      SmallerSet(a - {x}, b - {x});
    }
  }

  /** Until the next restart a stored address is never handed out again, not even after its record is gone. */
  lemma StoredAddressStaysUsed(cfg: Config, w: World, u: Uid, steps: seq<Step>)
    requires cfg.net.Valid() && Inv(cfg, w) && u in w.store && Runs(cfg, w, steps)
    requires forall i :: 0 <= i < |steps| ==> !steps[i].Restart?
    ensures var w' := End(cfg, w, steps);
            w.store[u].addr in w'.used && NextFree(cfg.net, w'.used) != Some(w.store[u].addr)
  {
    RunSpends(cfg, w, steps);
    var a := w.store[u].addr;
    assert Held(cfg, w, a);
    forall h ensures !TakenBy(w, h, a) {
      assert TakenBy(w, h, a) ==> Carries(w, h) && AddrOf(w.handlers[h]) == a;
    }
    assert a in Spent(w);
    NextFreeIsFree(cfg.net, End(cfg, w, steps).used);
  }

  lemma NextFreeIsFree(net: Subnet, used: set<Addr>)
    requires net.prefix <= 32
    ensures NextFree(net, used).Some? ==> NextFree(net, used).value !in used
  {
  }

  /** So without a restart the service admits at most as many nodes as the pool has addresses, however many of them
      phone home. */
  lemma PoolRunsOut(cfg: Config, steps: seq<Step>)
    requires cfg.net.Valid() && Runs(cfg, InitialWorld(cfg), steps)
    requires forall i :: 0 <= i < |steps| ==> !steps[i].Restart?
    ensures Saves(steps) <= |Pool(cfg.net) - {cfg.server}|
  {
    var w := End(cfg, InitialWorld(cfg), steps);
    RunSpends(cfg, InitialWorld(cfg), steps);
    assert Spent(InitialWorld(cfg)) == {cfg.server};
    UsedIsFromPool(cfg, InitialWorld(cfg), steps);
    SmallerSet(Spent(w) - {cfg.server}, Pool(cfg.net) - {cfg.server});
    assert cfg.server in Spent(w);
  }

  lemma {:induction false} UsedIsFromPool(cfg: Config, w: World, steps: seq<Step>)
    requires cfg.net.Valid() && Runs(cfg, w, steps) && w.used <= Pool(cfg.net) + {cfg.server}
    requires forall i :: 0 <= i < |steps| ==> !steps[i].Restart?
    ensures End(cfg, w, steps).used <= Pool(cfg.net) + {cfg.server}
    decreases |steps|
  {
    if steps != [] {
      if steps[0].Allocate? && NextFree(cfg.net, w.used).Some? {
        HandedOutIsInPool(cfg.net, w.used);
      }
      UsedIsFromPool(cfg, After(cfg, w, steps[0]), steps[1..]);
    }
  }
}
