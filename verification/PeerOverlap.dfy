/** Overlapping requests and deliveries for one WireGuard peer (cmd/server/wireguard_routes.go,
    pkg/reconcilers/wireguardpeer_reconciler.go). wg-init looks for a record, takes an address and saves the record in
    separate steps, so two of them for one key can both find none; phone-homes and status updates overlap likewise. */
module PeerOverlap {
  import opened Prelude
  import opened IPAllocation
  import opened WireGuardController
  import opened PeerProtocol
  import opened PeerAddresses

  // ---------------------------------------------------------------- two wg-inits of one key

  /** Both requests are answered, with different addresses, and only the second one's is stored. */
  lemma OverlappingInitsDiffer(cfg: Config, u: Uid, key: string, a: Addr, b: Addr)
    returns (first: seq<Step>, mid: World, w: World)
    requires cfg.net.Valid() && SearchEnds(cfg.net, {cfg.server}) && NextFree(cfg.net, {cfg.server}) == Some(a)
    requires SearchEnds(cfg.net, {cfg.server, a}) && NextFree(cfg.net, {cfg.server, a}) == Some(b)
    ensures Performs(cfg, InitialWorld(cfg), first, mid) && Performs(cfg, mid, [Save(0, true)] + [Save(1, true)], w)
    ensures mid.handlers == map[0 := Allocated(u, key, a), 1 := Allocated(u, key, b)] && a != b
    ensures w.store == map[u := Intent(key, b)] && a in w.used
  {
    NextFreeIsFree(cfg.net, {cfg.server, a});
    var w0 := InitialWorld(cfg);
    assert w0.used + {a} == {cfg.server, a};
    first, mid := BothTake(cfg, w0, u, key, a, b);
    var w1 := mid.(store := map[u := Intent(key, a)],
                   handlers := map[0 := Stored(u), 1 := Allocated(u, key, b)]);
    w := w1.(store := map[u := Intent(key, b)], handlers := map[0 := Stored(u), 1 := Stored(u)]);
    TwoSteps(cfg, mid, Save(0, true), w1, Save(1, true), w);
  }

  lemma TwoSteps(cfg: Config, w: World, s1: Step, w1: World, s2: Step, w2: World)
    requires StepsTo(cfg, w, s1, w1) && StepsTo(cfg, w1, s2, w2)
    ensures Performs(cfg, w, [s1] + [s2], w2)
  {
    assert Performs(cfg, w, [], w);
    AlsoPerforms(cfg, w, [], w, s1, w1);
    assert [] + [s1] == [s1];
    AlsoPerforms(cfg, w, [s1], w1, s2, w2);
  }

  lemma BothTake(cfg: Config, w: World, u: Uid, key: string, a: Addr, b: Addr) returns (steps: seq<Step>, w': World)
    requires cfg.net.prefix <= 32 && w.up && w.handlers == map[] && u !in w.store
    requires SearchEnds(cfg.net, w.used) && NextFree(cfg.net, w.used) == Some(a)
    requires SearchEnds(cfg.net, w.used + {a}) && NextFree(cfg.net, w.used + {a}) == Some(b)
    ensures Performs(cfg, w, steps, w')
    ensures w' == w.(used := w.used + {a} + {b},
                     handlers := map[0 := Allocated(u, key, a), 1 := Allocated(u, key, b)])
  {
    var w1 := w.(handlers := map[0 := Checked(u, key)]);
    var w2 := w.(handlers := map[0 := Checked(u, key), 1 := Checked(u, key)]);
    var w3 := w.(used := w.used + {a}, handlers := map[0 := Allocated(u, key, a), 1 := Checked(u, key)]);
    w' := w.(used := w.used + {a} + {b}, handlers := map[0 := Allocated(u, key, a), 1 := Allocated(u, key, b)]);
    TwoSteps(cfg, w, Check(0, u, key), w1, Check(1, u, key), w2);
    TwoSteps(cfg, w2, Allocate(0), w3, Allocate(1), w');
    steps := [Check(0, u, key)] + [Check(1, u, key)] + ([Allocate(0)] + [Allocate(1)]);
    PerformsCompose(cfg, w, [Check(0, u, key)] + [Check(1, u, key)], w2, [Allocate(0)] + [Allocate(1)], w');
  }

  // ---------------------------------------------------------------- when the answered address stays the stored one

  ghost predicate CanTake(cfg: Config, w: World)
    requires cfg.net.prefix <= 32
  {
    SearchEnds(cfg.net, w.used) && NextFree(cfg.net, w.used).Some?
  }

  ghost predicate Taking(w: World, h: nat) {
    h in w.handlers && w.handlers[h].Allocated?
  }

  /** Handler `g` can still write a record of `u` with another address than `a`. One that has only found no record needs
      an address first: a free one, or one that another handler's failed save gives back. */
  ghost predicate Rival(cfg: Config, w: World, g: nat, u: Uid, a: Addr)
    requires cfg.net.prefix <= 32
  {
    && g in w.handlers && w.handlers[g].uid == u
    && match w.handlers[g]
       case Checked(_, _) => CanTake(cfg, w) || exists h :: Taking(w, h)
       case Allocated(_, _, _) => true
       case Fetched(_, copy) => copy.addr != a
       case Applied(_, copy) => copy.addr != a
       case _ => false
  }

  /** A run in which no phone-home deletes the record of `u`. */
  ghost predicate KeepingRun(cfg: Config, w: World, steps: seq<Step>, u: Uid)
    requires cfg.net.prefix <= 32
    decreases |steps|
  {
    steps == [] ||
    (&& Enabled(cfg, w, steps[0])
     && !(steps[0].HomeDelete? && steps[0].ok && w.handlers[steps[0].h].uid == u)
     && KeepingRun(cfg, After(cfg, w, steps[0]), steps[1..], u))
  }

  ghost predicate StoredAs(w: World, u: Uid, a: Addr) {
    u in w.store && w.store[u].addr == a
  }

  ghost predicate StaysStored(cfg: Config, w: World, u: Uid, a: Addr)
    requires cfg.net.prefix <= 32
  {
    forall steps :: KeepingRun(cfg, w, steps, u) && Runs(cfg, w, steps) ==> StoredAs(End(cfg, w, steps), u, a)
  }

  ghost predicate Unrivalled(cfg: Config, w: World, u: Uid, a: Addr)
    requires cfg.net.prefix <= 32
  {
    StoredAs(w, u, a) && forall g :: !Rival(cfg, w, g, u, a)
  }

  lemma StepKeepsStored(cfg: Config, w: World, s: Step, u: Uid, a: Addr)
    requires cfg.net.prefix <= 32 && Unrivalled(cfg, w, u, a) && Enabled(cfg, w, s)
    requires !(s.HomeDelete? && s.ok && w.handlers[s.h].uid == u)
    ensures StoredAs(After(cfg, w, s), u, a)
  {
    if s.Save? || s.SaveStatus? {
      assert !Rival(cfg, w, s.h, u, a);
    }
  }

  lemma StepBringsNoRival(cfg: Config, w: World, s: Step, u: Uid, a: Addr, g: nat)
    requires cfg.net.prefix <= 32 && Unrivalled(cfg, w, u, a) && Enabled(cfg, w, s)
    ensures !Rival(cfg, After(cfg, w, s), g, u, a)
  {
    var w' := After(cfg, w, s);
    assert !Rival(cfg, w, g, u, a);
    if g in w'.handlers && w'.handlers[g].uid == u && w'.handlers[g].Checked? {
      assert g in w.handlers && w.handlers[g] == w'.handlers[g];
      NobodyTakes(cfg, w, s);
    }
  }

  /** With no free address and none in any handler's hands, none comes up before a restart. */
  lemma NobodyTakes(cfg: Config, w: World, s: Step)
    requires cfg.net.prefix <= 32 && Enabled(cfg, w, s) && !s.Restart? && !CanTake(cfg, w) && forall h :: !Taking(w, h)
    ensures After(cfg, w, s).used == w.used && forall h :: !Taking(After(cfg, w, s), h)
  {
    if s.Save? {
      assert Taking(w, s.h);
    }
    forall h ensures !Taking(After(cfg, w, s), h) {
      assert !Taking(w, h);
    }
  }

  lemma {:induction false} KeepingRunsKeepStored(cfg: Config, w: World, steps: seq<Step>, u: Uid, a: Addr)
    requires cfg.net.prefix <= 32 && Unrivalled(cfg, w, u, a) && KeepingRun(cfg, w, steps, u) && Runs(cfg, w, steps)
    ensures StoredAs(End(cfg, w, steps), u, a)
    decreases |steps|
  {
    if steps != [] {
      StepKeepsStored(cfg, w, steps[0], u, a);
      forall g ensures !Rival(cfg, After(cfg, w, steps[0]), g, u, a) {
        StepBringsNoRival(cfg, w, steps[0], u, a, g);
      }
      KeepingRunsKeepStored(cfg, After(cfg, w, steps[0]), steps[1..], u, a);
    }
  }

  lemma {:induction false} WithoutDeletesKeeps(cfg: Config, w: World, steps: seq<Step>, u: Uid)
    requires cfg.net.prefix <= 32 && Runs(cfg, w, steps) && forall i :: 0 <= i < |steps| ==> !steps[i].HomeDelete?
    ensures KeepingRun(cfg, w, steps, u)
    decreases |steps|
  {
    if steps != [] {
      WithoutDeletesKeeps(cfg, After(cfg, w, steps[0]), steps[1..], u);
    }
  }

  /** A handler with an address in hand writes it. */
  lemma TakerWrites(cfg: Config, w: World, g: nat)
    requires cfg.net.prefix <= 32 && w.up && Inv(cfg, w) && Taking(w, g)
    ensures var p := w.handlers[g];
            StepsTo(cfg, w, Save(g, true), w.(store := w.store[p.uid := Intent(p.key, p.addr)],
                                              handlers := w.handlers[g := Stored(p.uid)]))
    ensures forall u :: u in w.store ==> w.store[u].addr != w.handlers[g].addr
  {
    assert Carries(w, g);
  }

  lemma CheckedWrites(cfg: Config, w: World, g: nat) returns (steps: seq<Step>, w': World)
    requires cfg.net.prefix <= 32 && w.up && g in w.handlers && w.handlers[g].Checked? && CanTake(cfg, w)
    ensures Performs(cfg, w, steps, w') && (forall i :: 0 <= i < |steps| ==> !steps[i].HomeDelete?)
    ensures w.handlers[g].uid in w'.store && w'.store[w.handlers[g].uid].addr !in w.used
  {
    var p, b := w.handlers[g], NextFree(cfg.net, w.used).value;
    NextFreeIsFree(cfg.net, w.used);
    var w1 := w.(used := w.used + {b}, handlers := w.handlers[g := Allocated(p.uid, p.key, b)]);
    w' := w1.(store := w.store[p.uid := Intent(p.key, b)], handlers := w1.handlers[g := Stored(p.uid)]);
    TwoSteps(cfg, w, Allocate(g), w1, Save(g, true), w');
    steps := [Allocate(g)] + [Save(g, true)];
  }

  lemma CopyWrites(cfg: Config, w: World, g: nat) returns (steps: seq<Step>, w': World)
    requires cfg.net.prefix <= 32 && w.up && g in w.handlers && (w.handlers[g].Fetched? || w.handlers[g].Applied?)
    ensures Performs(cfg, w, steps, w') && (forall i :: 0 <= i < |steps| ==> !steps[i].HomeDelete?)
    ensures w.handlers[g].uid in w'.store && w'.store[w.handlers[g].uid] == w.handlers[g].copy
  {
    assert Performs(cfg, w, [], w);
    if w.handlers[g].Applied? {
      w' := After(cfg, w, SaveStatus(g, true));
      AlsoPerforms(cfg, w, [], w, SaveStatus(g, true), w');
      steps := [] + [SaveStatus(g, true)];
    } else {
      var w1 := After(cfg, w, Apply(g, true, true));
      w' := After(cfg, w1, SaveStatus(g, true));
      TwoSteps(cfg, w, Apply(g, true, true), w1, SaveStatus(g, true), w');
      steps := [Apply(g, true, true)] + [SaveStatus(g, true)];
    }
  }

  /** A failed save of another handler frees an address for the one that needs it. */
  lemma CheckedWritesLater(cfg: Config, w: World, g: nat, h: nat) returns (steps: seq<Step>, w': World)
    requires cfg.net.prefix <= 32 && w.up && Inv(cfg, w) && g in w.handlers && w.handlers[g].Checked? && Taking(w, h)
    ensures Performs(cfg, w, steps, w') && (forall i :: 0 <= i < |steps| ==> !steps[i].HomeDelete?)
    ensures var u := w.handlers[g].uid;
            u in w'.store && (u in w.store ==> w'.store[u].addr != w.store[u].addr)
  {
    var freed := w.handlers[h].addr;
    assert Carries(w, h) && Held(cfg, w, freed);
    assert forall u :: u in w.store ==> Held(cfg, w, w.store[u].addr) && w.store[u].addr != freed;
    var w1 := w.(used := w.used - {freed}, handlers := w.handlers - {h});
    assert Performs(cfg, w, [], w);
    AlsoPerforms(cfg, w, [], w, Save(h, false), w1);
    FreePoolAddressMeansNext(cfg.net, w1.used, freed);
    var rest;
    rest, w' := CheckedWrites(cfg, w1, g);
    PerformsCompose(cfg, w, [] + [Save(h, false)], w1, rest, w');
    steps := [] + [Save(h, false)] + rest;
  }

  /** What a rival can do, it does in some run. */
  lemma RivalWrites(cfg: Config, w: World, g: nat, u: Uid, a: Addr) returns (steps: seq<Step>, w': World)
    requires cfg.net.prefix <= 32 && w.up && Inv(cfg, w) && StoredAs(w, u, a) && Rival(cfg, w, g, u, a)
    ensures Performs(cfg, w, steps, w') && (forall i :: 0 <= i < |steps| ==> !steps[i].HomeDelete?)
    ensures !StoredAs(w', u, a)
  {
    match w.handlers[g]
    case Checked(_, _) =>
      assert Held(cfg, w, w.store[u].addr);
      if CanTake(cfg, w) {
        steps, w' := CheckedWrites(cfg, w, g);
      } else {
        var h :| Taking(w, h);
        steps, w' := CheckedWritesLater(cfg, w, g, h);
      }
    case Allocated(_, key, b) =>
      TakerWrites(cfg, w, g);
      w' := w.(store := w.store[u := Intent(key, b)], handlers := w.handlers[g := Stored(u)]);
      assert Performs(cfg, w, [], w);
      AlsoPerforms(cfg, w, [], w, Save(g, true), w');
      steps := [] + [Save(g, true)];
    case _ =>
      steps, w' := CopyWrites(cfg, w, g);
  }

  /** The address that a wg-init answered, once stored, stays the stored one in every continuation without a phone-home
      of that UID if and only if no rival of it is in flight. */
  lemma AnswerStaysStoredExactly(cfg: Config, w: World, u: Uid, a: Addr)
    requires cfg.net.Valid() && w.up && Inv(cfg, w) && StoredAs(w, u, a)
    ensures StaysStored(cfg, w, u, a) <==> forall g :: !Rival(cfg, w, g, u, a)
  {
    if g :| Rival(cfg, w, g, u, a) {
      var steps, w' := RivalWrites(cfg, w, g, u, a);
      WithoutDeletesKeeps(cfg, w, steps, u);
    } else {
      forall steps | KeepingRun(cfg, w, steps, u) && Runs(cfg, w, steps) ensures StoredAs(End(cfg, w, steps), u, a) {
        KeepingRunsKeepStored(cfg, w, steps, u, a);
      }
    }
  }

  // ---------------------------------------------------------------- overlaps that leave controller and store apart

  /** Everything is delivered in order and succeeds. */
  ghost predicate InOrder(steps: seq<Step>) {
    forall i :: 0 <= i < |steps| ==>
      && (steps[i].Deliver? ==> steps[i].i == 0 && steps[i].ok)
      && (steps[i].Publish? || steps[i].Apply? ==> steps[i].ok)
      && !steps[i].Restart?
  }

  /** Without the no-overlap assumption, requests against requests: a phone-home that looked before the record
      existed and deletes it afterwards publishes nothing, so the controller keeps a peer without a record. */
  lemma SilentDeletionLeavesPeer(cfg: Config, u: Uid, key: string, a: Addr) returns (steps: seq<Step>, w: World)
    requires cfg.net.Valid() && SearchEnds(cfg.net, {cfg.server}) && NextFree(cfg.net, {cfg.server}) == Some(a)
    ensures InOrder(steps) && Performs(cfg, InitialWorld(cfg), steps, w)
    ensures w.queue == [] && w.handlers == map[] && u !in w.store && u in w.peers
  {
    var w0 := InitialWorld(cfg);
    var first, w1 := LookThenStore(cfg, w0, u, key, a);
    var rest;
    rest, w := DeliverThenErase(cfg, u, w1);
    PerformsCompose(cfg, w0, first, w1, rest, w);
    steps := first + rest;
  }

  lemma LookThenStore(cfg: Config, w: World, u: Uid, key: string, a: Addr) returns (steps: seq<Step>, w': World)
    requires cfg.net.prefix <= 32 && w.up && w.handlers == map[] && w.queue == [] && u !in w.store
    requires SearchEnds(cfg.net, w.used) && NextFree(cfg.net, w.used) == Some(a)
    ensures InOrder(steps) && Performs(cfg, w, steps, w')
    ensures w'.up && w'.handlers == map[1 := Homing(u, false)] && w'.queue == [Created(u)] && u in w'.store
  {
    var w1 := w.(handlers := map[1 := Homing(u, false)]);
    assert Performs(cfg, w, [], w);
    AlsoPerforms(cfg, w, [], w, HomeLoad(1, u), w1);
    InitRunEffect(cfg, w1, 0, u, key, true, true);
    w' := w1.(used := w.used + {a}, store := w.store[u := Intent(key, a)], queue := [] + [Created(u)]);
    var init := InitRun(cfg, w1, 0, u, key, true, true);
    PerformsCompose(cfg, w, [] + [HomeLoad(1, u)], w1, init, w');
    steps := [] + [HomeLoad(1, u)] + init;
  }

  lemma DeliverThenErase(cfg: Config, u: Uid, w: World) returns (steps: seq<Step>, w': World)
    requires cfg.net.prefix <= 32 && w.up && u in w.store
    requires w.handlers == map[1 := Homing(u, false)] && w.queue == [Created(u)]
    ensures InOrder(steps) && Performs(cfg, w, steps, w')
    ensures w'.queue == [] && w'.handlers == map[] && u !in w'.store && u in w'.peers
  {
    DeliverRunEffect(cfg, w, 0, true, true, true, true);
    var w1, deliver := Delivered(w, true, true, true), DeliverRun(w, 0, true, true, true, true);
    w' := w1.(store := w1.store - {u}, handlers := map[]);
    assert w1.handlers - {1} == map[];
    AlsoPerforms(cfg, w, deliver, w1, HomeDelete(1, true), w');
    steps := deliver + [HomeDelete(1, true)];
  }

  /** Requests against deliveries: a status update that saves its copy after a phone-home deleted the record
      brings the record back, and with nothing left to deliver the controller does not have its peer. */
  lemma StatusUpdateRevivesRecord(cfg: Config, u: Uid, key: string, a: Addr) returns (steps: seq<Step>, w: World)
    requires cfg.net.Valid() && SearchEnds(cfg.net, {cfg.server}) && NextFree(cfg.net, {cfg.server}) == Some(a)
    ensures InOrder(steps) && Performs(cfg, InitialWorld(cfg), steps, w)
    ensures w.queue == [] && w.handlers == map[] && u in w.store && u !in w.peers
  {
    var w0, record := InitialWorld(cfg), Intent(key, a);
    var w1;
    steps, w1 := StoreThenApply(cfg, u, key, a);
    HomeRunEffect(cfg, w1, 0, u, true, true);
    var home, w2 := HomeRun(w1, 0, u, true, true), w1.(store := map[], queue := [Deleted(u)]);
    assert w1.store - {u} == map[];
    PerformsCompose(cfg, w0, steps, w1, home, w2);
    var rest;
    rest, w := SaveThenDeliver(cfg, u, record, w2);
    PerformsCompose(cfg, w0, steps + home, w2, rest, w);
    steps := steps + home + rest;
  }

  lemma StoreThenApply(cfg: Config, u: Uid, key: string, a: Addr) returns (steps: seq<Step>, w: World)
    requires cfg.net.Valid() && SearchEnds(cfg.net, {cfg.server}) && NextFree(cfg.net, {cfg.server}) == Some(a)
    ensures InOrder(steps) && Performs(cfg, InitialWorld(cfg), steps, w)
    ensures w.up && w.queue == [] && w.handlers == map[1 := Applied(u, Intent(key, a))] && u in w.peers
    ensures w.store == map[u := Intent(key, a)]
  {
    var w0, record := InitialWorld(cfg), Intent(key, a);
    InitRunEffect(cfg, w0, 0, u, key, true, true);
    InitIsInOrder(cfg, w0, 0, u, key);
    var init := InitRun(cfg, w0, 0, u, key, true, true);
    var w1 := World({cfg.server, a}, map[u := record], map[], [Created(u)], map[], map[], true);
    var w2 := w1.(queue := [], handlers := map[1 := Fetched(u, record)]);
    FetchStep(cfg, w1, u, record, w2);
    AlsoPerforms(cfg, w0, init, w1, Deliver(1, 0, true, true), w2);
    w := ApplyStep(cfg, w2, u, record);
    AlsoPerforms(cfg, w0, init + [Deliver(1, 0, true, true)], w2, Apply(1, true, true), w);
    steps := init + [Deliver(1, 0, true, true)] + [Apply(1, true, true)];
  }

  lemma InitIsInOrder(cfg: Config, w: World, h: nat, u: Uid, key: string)
    requires cfg.net.prefix <= 32
    ensures InOrder(InitRun(cfg, w, h, u, key, true, true))
  {
  }

  lemma ApplyStep(cfg: Config, w: World, u: Uid, record: Intent) returns (w': World)
    requires cfg.net.prefix <= 32 && w.up && w.handlers == map[1 := Fetched(u, record)]
    ensures StepsTo(cfg, w, Apply(1, true, true), w') && w'.up && u in w'.peers
    ensures w'.handlers == map[1 := Applied(u, record)] && w'.store == w.store && w'.queue == w.queue
  {
    w' := After(cfg, w, Apply(1, true, true));
  }

  lemma FetchStep(cfg: Config, w: World, u: Uid, record: Intent, w': World)
    requires cfg.net.prefix <= 32 && w.up && w.handlers == map[] && w.queue == [Created(u)]
    requires u in w.store && w.store[u] == record
    requires w' == w.(queue := [], handlers := map[1 := Fetched(u, record)])
    ensures StepsTo(cfg, w, Deliver(1, 0, true, true), w')
  {
  }

  lemma SaveThenDeliver(cfg: Config, u: Uid, record: Intent, w: World) returns (steps: seq<Step>, w': World)
    requires cfg.net.prefix <= 32 && w.up && u in w.peers
    requires w.handlers == map[1 := Applied(u, record)] && w.queue == [Deleted(u)]
    ensures InOrder(steps) && Performs(cfg, w, steps, w')
    ensures w'.queue == [] && w'.handlers == map[] && u in w'.store && u !in w'.peers
  {
    var w1 := w.(store := w.store[u := record], handlers := map[]);
    assert w.handlers - {1} == map[];
    assert Performs(cfg, w, [], w);
    AlsoPerforms(cfg, w, [], w, SaveStatus(1, true), w1);
    DeliverRunEffect(cfg, w1, 0, true, true, true, true);
    w' := Delivered(w1, true, true, true);
    var deliver := DeliverRun(w1, 0, true, true, true, true);
    PerformsCompose(cfg, w, [] + [SaveStatus(1, true)], w1, deliver, w');
    steps := [] + [SaveStatus(1, true)] + deliver;
  }
}
