/** Runs of the integration service against a live backend. A read looks the cache up, calls the backend and
    writes back under separate locks; a sync lists, then fetches one component at a time, then swaps the maps in.
    Each of these is a step of its own, so they interleave in every possible way. */
module SmdRuns {
  import opened Prelude
  import opened SmdCache

  /** Inventory data of the backend, which stays as it is during a run. `strict` backends (the HTTP client)
      report an error where others (the mock) return an empty address. */
  datatype Inventory = Inventory(
    components: map<Id, Component>, groups: map<Id, seq<string>>,
    ifaces: map<Id, seq<Iface>>, nics: map<Id, seq<Nic>>, strict: bool)

  function ListOf<T>(m: map<Id, seq<T>>, id: Id): seq<T> {
    if id in m then m[id] else []
  }

  function OwnAddress(inv: Inventory, id: Id, picked: string, own: string): Option<Value> {
    if picked != "" then Some(Text(picked))
    else if id in inv.components && (own != "" || !inv.strict) then Some(Text(own))
    else None
  }

  /** What the backend answers from its inventory; `None` is an error. */
  function InventoryAnswer(inv: Inventory, q: Query): Option<Value>
    requires !q.Resolve? && !q.IDFromIP? && !q.IDFromWG? && !q.WGFromID?
  {
    match q
    case ComponentOf(id) => if id in inv.components then Some(Comp(inv.components[id])) else None
    case GroupsOf(id) => Some(Names(ListOf(inv.groups, id)))
    case NicsOf(id) => Some(NicList(ListOf(inv.nics, id)))
    case IfacesOf(id) => Some(IfaceList(ListOf(inv.ifaces, id)))
    case IPFromID(id) =>
      OwnAddress(inv, id, PickIP(ListOf(inv.ifaces, id)), if id in inv.components then inv.components[id].ip else "")
    case MACFromID(id) =>
      OwnAddress(inv, id, PickMAC(ListOf(inv.ifaces, id)), if id in inv.components then inv.components[id].mac else "")
  }

  /** The backend's WireGuard map never fails: a registered id gives its address, and an address gives some
      id registered with it. */
  ghost predicate WGAnswer(wg: map<Id, string>, q: Query, v: Value) {
    match q
    case WGFromID(id) => id in wg && v == Text(wg[id])
    case IDFromWG(w) => v.Text? && v.s in wg && wg[v.s] == w
    case _ => false
  }

  /** A reply the backend can give. Replies to address lookups are unconstrained: only the IP index keeps them. */
  ghost predicate Reply(inv: Inventory, wg: map<Id, string>, q: Query, v: Value) {
    && Fits(q, v)
    && match q
       case Resolve(_) => true
       case IDFromIP(_) => true
       case IDFromWG(_) => WGAnswer(wg, q, v)
       case WGFromID(_) => WGAnswer(wg, q, v)
       case _ => InventoryAnswer(inv, q) == Some(v)
  }

  /** A write-back on its way to the cache. */
  datatype Pending = Pending(q: Query, v: Value)

  /** A sync under way: the list it works through and what it has fetched of it. */
  datatype Gather = Gather(listed: seq<Option<Component>>, entries: seq<Entry>)

  datatype Sys = Sys(wg: map<Id, string>, cache: Cache, pending: seq<Pending>, gather: Option<Gather>, full: set<Id>)

  const INITIAL: Sys := Sys(map[], EMPTY_CACHE, [], None, {})

  datatype Step =
    | Answered(q: Query, v: Value)                      // a backend call returned; its write-back is to come
    | WriteBack(i: nat)
    | AddWG(id: Id, wgip: string)                       // the backend part of AddWGIP
    | SyncBegin(listed: seq<Option<Component>>)
    | SyncFetch(groupsOk: bool, ifacesOk: bool, nicsOk: bool)
    | SyncSwap
    | SyncAbort

  ghost predicate Truthful(inv: Inventory, listed: seq<Option<Component>>) {
    forall i :: 0 <= i < |listed| && listed[i].Some? && listed[i].value.id != "" ==>
      listed[i].value.id in inv.components && inv.components[listed[i].value.id] == listed[i].value
  }

  ghost predicate Enabled(inv: Inventory, s: Sys, t: Step) {
    match t
    case Answered(q, v) => Reply(inv, s.wg, q, v)
    case WriteBack(i) => i < |s.pending| && Fits(s.pending[i].q, s.pending[i].v)
    case AddWG(_, _) => true
    case SyncBegin(listed) => s.gather.None? && Truthful(inv, listed)
    case SyncFetch(_, _, _) => s.gather.Some? && |s.gather.value.entries| < |s.gather.value.listed|
    case SyncSwap => s.gather.Some? && |s.gather.value.entries| == |s.gather.value.listed|
    case SyncAbort => s.gather.Some?
  }

  function FetchedEntry(inv: Inventory, wg: map<Id, string>, c: Option<Component>, g: bool, i: bool, n: bool): Entry {
    if c.None? then Entry(None, Fetched(None, None, None, None))
    else
      var id := c.value.id;
      Entry(c, Fetched(if g then Some(ListOf(inv.groups, id)) else None,
                       if i then Some(ListOf(inv.ifaces, id)) else None,
                       if n then Some(ListOf(inv.nics, id)) else None,
                       if id in wg then Some(wg[id]) else None))
  }

  /** The ids whose last listing was fetched without a failure. */
  function FullyFetched(entries: seq<Entry>): set<Id> {
    if entries == [] then {}
    else
      var front, e := FullyFetched(entries[..|entries| - 1]), entries[|entries| - 1];
      if !e.Counts() then front
      else if e.got.groups.Some? && e.got.ifaces.Some? && e.got.nics.Some? then front + {e.component.value.id}
      else front - {e.component.value.id}
  }

  function After(inv: Inventory, s: Sys, t: Step): Sys
    requires Enabled(inv, s, t)
  {
    match t
    case Answered(q, v) => s.(pending := s.pending + [Pending(q, v)])
    case WriteBack(i) =>
      s.(cache := Store(s.cache, s.pending[i].q, s.pending[i].v), pending := s.pending[..i] + s.pending[i + 1..])
    case AddWG(id, w) => s.(wg := s.wg[id := w], pending := s.pending + [Pending(WGFromID(id), Text(w))])
    case SyncBegin(listed) => s.(gather := Some(Gather(listed, [])))
    case SyncFetch(g, i, n) =>
      var gather := s.gather.value;
      var e := FetchedEntry(inv, s.wg, gather.listed[|gather.entries|], g, i, n);
      s.(gather := Some(gather.(entries := gather.entries + [e])))
    case SyncSwap =>
      s.(cache := Synced(s.gather.value.entries), full := FullyFetched(s.gather.value.entries), gather := None)
    case SyncAbort => s.(gather := None)
  }

  ghost predicate Runs(inv: Inventory, s: Sys, steps: seq<Step>)
    decreases |steps|
  {
    steps == [] || (Enabled(inv, s, steps[0]) && Runs(inv, After(inv, s, steps[0]), steps[1..]))
  }

  ghost function End(inv: Inventory, s: Sys, steps: seq<Step>): Sys
    requires Runs(inv, s, steps)
    decreases |steps|
  {
    if steps == [] then s else End(inv, After(inv, s, steps[0]), steps[1..])
  }

  ghost predicate Reaches(inv: Inventory, s: Sys, steps: seq<Step>, s': Sys) {
    Runs(inv, s, steps) && End(inv, s, steps) == s'
  }

  lemma StepThen(inv: Inventory, s: Sys, t: Step, rest: seq<Step>, s': Sys)
    requires Enabled(inv, s, t) && Reaches(inv, After(inv, s, t), rest, s')
    ensures Reaches(inv, s, [t] + rest, s')
  {
    assert ([t] + rest)[1..] == rest;
  }

  // ================================================================ cache transparency

  /** The node holds exactly the backend's inventory data for `id`. */
  ghost predicate Exact(inv: Inventory, c: Cache, id: Id) {
    && id in c.nodes && id in inv.components
    && c.nodes[id].component == Some(inv.components[id])
    && c.nodes[id].groups == ListOf(inv.groups, id)
    && c.nodes[id].ifaces == ListOf(inv.ifaces, id)
    && c.nodes[id].nics == ListOf(inv.nics, id)
  }

  /** A pending inventory reply is what the backend's inventory says. */
  ghost predicate TrueReply(inv: Inventory, p: Pending) {
    && Fits(p.q, p.v)
    && (p.q.ComponentOf? || p.q.GroupsOf? || p.q.NicsOf? || p.q.IfacesOf? ==> InventoryAnswer(inv, p.q) == Some(p.v))
  }

  ghost predicate TrueEntry(inv: Inventory, e: Entry) {
    e.Counts() ==>
      var id := e.component.value.id;
      && id in inv.components && inv.components[id] == e.component.value
      && (e.got.groups.Some? ==> e.got.groups.value == ListOf(inv.groups, id))
      && (e.got.ifaces.Some? ==> e.got.ifaces.value == ListOf(inv.ifaces, id))
      && (e.got.nics.Some? ==> e.got.nics.value == ListOf(inv.nics, id))
  }

  ghost predicate TrueGather(inv: Inventory, g: Option<Gather>) {
    g.Some? ==>
      && Truthful(inv, g.value.listed) && |g.value.entries| <= |g.value.listed|
      && forall i :: 0 <= i < |g.value.entries| ==> TrueEntry(inv, g.value.entries[i])
  }

  ghost predicate CacheInv(inv: Inventory, s: Sys) {
    && (forall id :: id in s.full ==> Exact(inv, s.cache, id))
    && (forall i :: 0 <= i < |s.pending| ==> TrueReply(inv, s.pending[i]))
    && TrueGather(inv, s.gather)
  }

  lemma StoreKeepsExact(inv: Inventory, c: Cache, p: Pending, id: Id)
    requires Exact(inv, c, id) && TrueReply(inv, p)
    ensures Exact(inv, Store(c, p.q, p.v), id)
  {
  }

  lemma {:induction false} SyncedIsExact(inv: Inventory, entries: seq<Entry>, id: Id)
    requires forall i :: 0 <= i < |entries| ==> TrueEntry(inv, entries[i])
    requires id in FullyFetched(entries)
    ensures Exact(inv, Synced(entries), id)
  {
    var n := |entries| - 1;
    SyncedNodes(entries);
    if !entries[n].Counts() || entries[n].component.value.id != id {
      SyncedIsExact(inv, entries[..n], id);
    }
  }

  lemma StepKeepsCacheInv(inv: Inventory, s: Sys, t: Step)
    requires CacheInv(inv, s) && Enabled(inv, s, t)
    ensures CacheInv(inv, After(inv, s, t))
  {
    var s' := After(inv, s, t);
    match t
    case WriteBack(i) =>
      forall id | id in s'.full ensures Exact(inv, s'.cache, id) {
        StoreKeepsExact(inv, s.cache, s.pending[i], id);
      }
    case SyncSwap =>
      forall id | id in s'.full ensures Exact(inv, s'.cache, id) {
        SyncedIsExact(inv, s.gather.value.entries, id);
      }
    case SyncFetch(g, i, n) =>
      var c := s.gather.value.listed[|s.gather.value.entries|];
      assert TrueEntry(inv, FetchedEntry(inv, s.wg, c, g, i, n));
    case _ =>
  }

  lemma {:induction false} RunsKeepCacheInv(inv: Inventory, s: Sys, steps: seq<Step>)
    requires CacheInv(inv, s) && Runs(inv, s, steps)
    ensures CacheInv(inv, End(inv, s, steps))
    decreases |steps|
  {
    if steps != [] {
      StepKeepsCacheInv(inv, s, steps[0]);
      RunsKeepCacheInv(inv, After(inv, s, steps[0]), steps[1..]);
    }
  }

  predicate InventoryQuery(q: Query) {
    q.IPFromID? || q.MACFromID? || q.ComponentOf? || q.GroupsOf? || q.NicsOf? || q.IfacesOf?
  }

  /** In every interleaving, a read of a component that the last sync listed and fully fetched answers what the
      backend would: fresh or stale, and even when the backend call fails (`reply` is `None`) -- except that a
      component without any address then gives an error where a lenient backend gives the empty one. */
  lemma CacheIsTransparent(inv: Inventory, steps: seq<Step>, q: Query, stale: bool, reply: Option<Value>)
    requires Runs(inv, INITIAL, steps) && InventoryQuery(q)
    requires q.id in End(inv, INITIAL, steps).full
    requires reply.None? || reply == InventoryAnswer(inv, q)
    ensures reply.Some? ==> Fits(q, reply.value)
    ensures var answer := Read(End(inv, INITIAL, steps).cache, q, stale, reply).answer;
            || answer == InventoryAnswer(inv, q)
            || (reply.None? && answer.None? && InventoryAnswer(inv, q) == Some(Text("")))
  {
    RunsKeepCacheInv(inv, INITIAL, steps);
    assert Exact(inv, End(inv, INITIAL, steps).cache, q.id);
  }

  /** For ids the last sync did not list this fails: registering a WireGuard address leaves a node without
      groups, and a fresh read of the groups then answers none although the backend has some. */
  lemma UnlistedNodeHidesGroups(inv: Inventory, id: Id, wgip: string) returns (s: Sys)
    requires id != "" && wgip != ""
    ensures Reaches(inv, INITIAL, [AddWG(id, wgip), WriteBack(0)], s) && id !in s.full
    ensures var truth := InventoryAnswer(inv, GroupsOf(id));
            Read(s.cache, GroupsOf(id), false, truth).answer == truth <==> ListOf(inv.groups, id) == []
  {
    var s1 := After(inv, INITIAL, AddWG(id, wgip));
    assert s1.pending == [Pending(WGFromID(id), Text(wgip))];
    s := After(inv, s1, WriteBack(0));
    assert Reaches(inv, s, [], s);
    StepThen(inv, s1, WriteBack(0), [], s);
    StepThen(inv, INITIAL, AddWG(id, wgip), [WriteBack(0)], s);
    assert [AddWG(id, wgip)] + [WriteBack(0)] == [AddWG(id, wgip), WriteBack(0)];
  }

  // ================================================================ WireGuard registrations

  /** Every id in the WireGuard index has a node, and every node's WireGuard address is in the index. */
  ghost predicate Linked(c: Cache) {
    && (forall w :: w in c.wgipMap ==> c.wgipMap[w] in c.nodes)
    && (forall id :: id in c.nodes && c.nodes[id].wgip != "" ==> c.nodes[id].wgip in c.wgipMap)
  }

  lemma {:induction false} SyncedIsLinked(entries: seq<Entry>)
    ensures Linked(Synced(entries))
  {
    if entries != [] {
      SyncedIsLinked(entries[..|entries| - 1]);
    }
  }

  lemma StoreKeepsLinked(c: Cache, q: Query, v: Value)
    requires Linked(c) && Fits(q, v)
    ensures Linked(Store(c, q, v))
  {
  }

  /** In every run, whatever is registered and in whatever order the steps interleave. */
  lemma {:induction false} IndexStaysLinked(inv: Inventory, s: Sys, steps: seq<Step>)
    requires Linked(s.cache) && Runs(inv, s, steps)
    ensures Linked(End(inv, s, steps).cache)
    decreases |steps|
  {
    if steps != [] {
      var t := steps[0];
      if t.WriteBack? {
        StoreKeepsLinked(s.cache, s.pending[t.i].q, s.pending[t.i].v);
      } else if t.SyncSwap? {
        SyncedIsLinked(s.gather.value.entries);
      }
      IndexStaysLinked(inv, After(inv, s, t), steps[1..]);
    }
  }

  ghost predicate Registered(wg: map<Id, string>, id: Id, w: string) {
    id in wg && wg[id] == w
  }

  // ---------------------------------------------------------------- a pair that is registered with itself only

  /** Whatever is registered, the id goes only with the address and the address only with the id. All other ids and
      addresses may be registered as often as they like. */
  ghost predicate PairRun(steps: seq<Step>, id: Id, w: string) {
    forall i :: 0 <= i < |steps| && steps[i].AddWG? ==> (steps[i].id == id <==> steps[i].wgip == w)
  }

  /** The id and the address that a write-back puts together. */
  function PairOf(p: Pending): Option<(Id, string)> {
    if !p.v.Text? then None
    else match p.q
      case WGFromID(id) => Some((id, p.v.s))
      case IDFromWG(w) => Some((p.v.s, w))
      case _ => None
  }

  /** The write-back puts the id or the address together with something else; empty ones are not written. */
  predicate Crosses(p: Pending, id: Id, w: string) {
    PairOf(p).Some? && PairOf(p).value.0 != "" && PairOf(p).value.1 != ""
    && ((PairOf(p).value.0 == id) != (PairOf(p).value.1 == w))
  }

  /** The fetched entry is the id's and carries another address. */
  ghost predicate OtherAddress(e: Entry, id: Id, w: string) {
    Lists(e, id) && WGOf(e) != "" && WGOf(e) != w
  }

  /** The fetched entry is another component's and carries the address. */
  ghost predicate OtherOwner(e: Entry, id: Id, w: string) {
    ClaimsWG(e, w) && e.component.value.id != id
  }

  ghost predicate PairedCache(c: Cache, id: Id, w: string) {
    && (NodeOf(c, id).wgip == "" || NodeOf(c, id).wgip == w)
    && (w in c.wgipMap ==> c.wgipMap[w] == id || c.wgipMap[w] == "")
  }

  /** Nothing in the system -- registered, cached, on its way or fetched -- puts id or address with another. */
  ghost predicate PairInv(s: Sys, id: Id, w: string) {
    && (forall i :: i in s.wg ==> (i == id <==> s.wg[i] == w))
    && PairedCache(s.cache, id, w)
    && (forall i :: 0 <= i < |s.pending| ==> Fits(s.pending[i].q, s.pending[i].v) && !Crosses(s.pending[i], id, w))
    && (s.gather.Some? ==> forall k :: 0 <= k < |s.gather.value.entries| ==>
          !OtherAddress(s.gather.value.entries[k], id, w) && !OtherOwner(s.gather.value.entries[k], id, w))
  }

  lemma StoreKeepsPaired(c: Cache, p: Pending, id: Id, w: string)
    requires PairedCache(c, id, w) && Fits(p.q, p.v) && !Crosses(p, id, w) && id != "" && w != ""
    ensures PairedCache(Store(c, p.q, p.v), id, w)
  {
  }

  lemma {:induction false} SyncedIsPaired(entries: seq<Entry>, id: Id, w: string)
    requires id != "" && w != ""
    requires forall k :: 0 <= k < |entries| ==> !OtherAddress(entries[k], id, w) && !OtherOwner(entries[k], id, w)
    ensures PairedCache(Synced(entries), id, w)
  {
    if entries != [] {
      SyncedIsPaired(entries[..|entries| - 1], id, w);
      assert !OtherAddress(entries[|entries| - 1], id, w) && !OtherOwner(entries[|entries| - 1], id, w);
    }
  }

  lemma StepKeepsPairInv(inv: Inventory, s: Sys, t: Step, id: Id, w: string)
    requires PairInv(s, id, w) && Enabled(inv, s, t) && id != "" && w != ""
    requires t.AddWG? ==> (t.id == id <==> t.wgip == w)
    ensures PairInv(After(inv, s, t), id, w)
  {
    if t.WriteBack? {
      StoreKeepsPaired(s.cache, s.pending[t.i], id, w);
    } else if t.SyncSwap? {
      SyncedIsPaired(s.gather.value.entries, id, w);
    }
  }

  lemma {:induction false} PairRunsKeepPairInv(inv: Inventory, s: Sys, steps: seq<Step>, id: Id, w: string)
    requires PairInv(s, id, w) && Runs(inv, s, steps) && PairRun(steps, id, w) && id != "" && w != ""
    ensures PairInv(End(inv, s, steps), id, w)
    ensures Registered(s.wg, id, w) ==> Registered(End(inv, s, steps).wg, id, w)
    decreases |steps|
  {
    if steps != [] {
      StepKeepsPairInv(inv, s, steps[0], id, w);
      assert PairRun(steps[1..], id, w);
      PairRunsKeepPairInv(inv, After(inv, s, steps[0]), steps[1..], id, w);
    }
  }

  lemma InitialIsPaired(id: Id, w: string)
    ensures PairInv(INITIAL, id, w)
  {
  }

  /** Read your registration: once the backend part of AddWGIP(id, w) has happened, every later read -- its cache
      lookup in any later state, its backend call in any state after that, fresh or stale, whatever syncs,
      write-backs and other registrations come in between -- gives `w` for the id and the id for `w`. */
  lemma RegistrationIsRead(inv: Inventory, before: seq<Step>, later: seq<Step>, id: Id, w: string, stale: bool,
                           v: Value)
    requires id != "" && w != "" && PairRun(before, id, w) && PairRun(later, id, w)
    requires Runs(inv, INITIAL, before) && Registered(End(inv, INITIAL, before).wg, id, w)
    requires Runs(inv, End(inv, INITIAL, before), later)
    ensures var a, b := End(inv, INITIAL, before), End(inv, End(inv, INITIAL, before), later);
            && (WGAnswer(b.wg, WGFromID(id), v) <==> v == Text(w))
            && (WGAnswer(b.wg, IDFromWG(w), v) <==> v == Text(id))
            && Read(a.cache, WGFromID(id), stale, Some(Text(w))).answer == Some(Text(w))
            && Read(a.cache, IDFromWG(w), stale, Some(Text(id))).answer == Some(Text(id))
  {
    InitialIsPaired(id, w);
    PairRunsKeepPairInv(inv, INITIAL, before, id, w);
    PairRunsKeepPairInv(inv, End(inv, INITIAL, before), later, id, w);
  }

  lemma {:induction false} RegistrationStaysIndexed(inv: Inventory, s: Sys, steps: seq<Step>, id: Id, w: string)
    requires PairInv(s, id, w) && Runs(inv, s, steps) && PairRun(steps, id, w) && id != "" && w != ""
    requires (forall i :: 0 <= i < |steps| ==> !steps[i].SyncSwap?) && Lookup(s.cache.wgipMap, w) == Some(Text(id))
    ensures Lookup(End(inv, s, steps).cache.wgipMap, w) == Some(Text(id))
    decreases |steps|
  {
    if steps != [] {
      StepKeepsPairInv(inv, s, steps[0], id, w);
      assert PairRun(steps[1..], id, w);
      RegistrationStaysIndexed(inv, After(inv, s, steps[0]), steps[1..], id, w);
    }
  }

  /** Once a registration is written back, a fresh resolution of its address gives its id until the next swap, whatever
      the IP index has for that address. */
  lemma RegistrationIsResolved(inv: Inventory, before: seq<Step>, i: nat, later: seq<Step>, id: Id, w: string,
                               reply: Option<Id>)
    requires id != "" && w != "" && PairRun(before, id, w) && PairRun(later, id, w) && Runs(inv, INITIAL, before)
    requires var s := End(inv, INITIAL, before); i < |s.pending| && s.pending[i] == Pending(WGFromID(id), Text(w))
    requires Runs(inv, After(inv, End(inv, INITIAL, before), WriteBack(i)), later)
    requires (forall j :: 0 <= j < |later| ==> !later[j].SyncSwap?) && (reply.Some? ==> reply.value != "")
    ensures var s := End(inv, After(inv, End(inv, INITIAL, before), WriteBack(i)), later);
            Read(s.cache, Resolve(w), false, if reply.Some? then Some(Text(reply.value)) else None).answer
            == Some(Text(id))
  {
    var s := End(inv, INITIAL, before);
    InitialIsPaired(id, w);
    PairRunsKeepPairInv(inv, INITIAL, before, id, w);
    StepKeepsPairInv(inv, s, WriteBack(i), id, w);
    var s1 := After(inv, s, WriteBack(i));
    WriteBackIsRead(s.cache, WGFromID(id), Text(w));
    RegistrationStaysIndexed(inv, s1, later, id, w);
    ResolvePrefersWireGuard(End(inv, s1, later).cache, w, false, reply);
  }

  /** No id and no address is ever registered twice. */
  ghost predicate FirstUseRun(inv: Inventory, s: Sys, steps: seq<Step>)
    decreases |steps|
  {
    steps == [] ||
    (&& Enabled(inv, s, steps[0])
     && (steps[0].AddWG? ==> steps[0].id !in s.wg && steps[0].wgip !in s.wg.Values)
     && FirstUseRun(inv, After(inv, s, steps[0]), steps[1..]))
  }

  ghost predicate Injective(wg: map<Id, string>) {
    forall i, j :: i in wg && j in wg && wg[i] == wg[j] ==> i == j
  }

  lemma {:induction false} FirstUseKeeps(inv: Inventory, s: Sys, steps: seq<Step>)
    requires FirstUseRun(inv, s, steps) && Injective(s.wg)
    ensures Runs(inv, s, steps) && Injective(End(inv, s, steps).wg)
    ensures forall i :: i in s.wg ==> Registered(End(inv, s, steps).wg, i, s.wg[i])
    decreases |steps|
  {
    if steps != [] {
      var s' := After(inv, s, steps[0]);
      assert forall i :: i in s.wg ==> s.wg[i] in s.wg.Values;
      FirstUseKeeps(inv, s', steps[1..]);
      assert forall i :: i in s.wg ==> i in s'.wg && s'.wg[i] == s.wg[i];
    }
  }

  /** A registration of an id and an address that were never registered before, in a run of such registrations,
      is of this kind. */
  lemma {:induction false} FirstUseIsPaired(inv: Inventory, s: Sys, steps: seq<Step>, id: Id, w: string)
    requires FirstUseRun(inv, s, steps) && Injective(s.wg)
    ensures Runs(inv, s, steps) && (Registered(End(inv, s, steps).wg, id, w) ==> PairRun(steps, id, w))
    decreases |steps|
  {
    FirstUseKeeps(inv, s, steps);
    if steps != [] {
      var t, s' := steps[0], After(inv, s, steps[0]);
      assert forall i :: i in s.wg ==> s.wg[i] in s.wg.Values;
      FirstUseKeeps(inv, s', steps[1..]);
      FirstUseIsPaired(inv, s', steps[1..], id, w);
      assert t.AddWG? ==> t.id in s'.wg && Registered(End(inv, s, steps).wg, t.id, t.wgip);
    }
  }

  // ---------------------------------------------------------------- an id that is registered again

  /** In this state both reads give the pair: from the cache if it has an answer, and from the backend. */
  ghost predicate ReadsPair(s: Sys, id: Id, w: string) {
    && (Hit(s.cache, WGFromID(id)).None? || Hit(s.cache, WGFromID(id)) == Some(Text(w)))
    && (Hit(s.cache, IDFromWG(w)).None? || Hit(s.cache, IDFromWG(w)) == Some(Text(id)))
    && Registered(s.wg, id, w) && (forall i :: i in s.wg && s.wg[i] == w ==> i == id)
  }

  ghost predicate AlwaysReadsPair(inv: Inventory, s: Sys, id: Id, w: string) {
    forall later :: Runs(inv, s, later) && PairRun(later, id, w) ==> ReadsPair(End(inv, s, later), id, w)
  }

  /** The list names the id again after position `k`, and that entry -- if it is fetched already -- makes up for what
      entry `k` carries: it has the address, or none where only another address has to go. */
  ghost predicate Overtaken(g: Gather, k: nat, id: Id, w: string, orNone: bool) {
    exists m :: k < m < |g.listed| && Overtakes(g, m, id, w, orNone)
  }

  ghost predicate Overtakes(g: Gather, m: nat, id: Id, w: string, orNone: bool)
    requires m < |g.listed|
  {
    && g.listed[m].Some? && g.listed[m].value.id == id
    && (m < |g.entries| ==> WGOf(g.entries[m]) == w || (orNone && WGOf(g.entries[m]) == ""))
  }

  ghost predicate SettledGather(g: Gather, id: Id, w: string) {
    forall k :: 0 <= k < |g.entries| ==>
      && (OtherAddress(g.entries[k], id, w) ==> Overtaken(g, k, id, w, true))
      && (OtherOwner(g.entries[k], id, w) ==> Overtaken(g, k, id, w, false))
  }

  /** No pending write-back and no gathered entry that a swap would keep carries what was replaced. */
  ghost predicate NothingLeftOver(s: Sys, id: Id, w: string) {
    && (forall i :: 0 <= i < |s.pending| ==> !Crosses(s.pending[i], id, w))
    && (s.gather.Some? ==> SettledGather(s.gather.value, id, w))
  }

  /** Pending replies fit their queries, and a sync has fetched a first part of its list. */
  ghost predicate WellFormed(s: Sys) {
    && (forall i :: 0 <= i < |s.pending| ==> Fits(s.pending[i].q, s.pending[i].v))
    && (s.gather.Some? ==>
          && |s.gather.value.entries| <= |s.gather.value.listed|
          && forall k :: 0 <= k < |s.gather.value.entries| ==>
               s.gather.value.entries[k].component == s.gather.value.listed[k])
  }

  lemma StepKeepsWellFormed(inv: Inventory, s: Sys, t: Step)
    requires WellFormed(s) && Enabled(inv, s, t)
    ensures WellFormed(After(inv, s, t))
  {
  }

  lemma {:induction false} RunsKeepWellFormed(inv: Inventory, s: Sys, steps: seq<Step>)
    requires WellFormed(s) && Runs(inv, s, steps)
    ensures WellFormed(End(inv, s, steps))
    decreases |steps|
  {
    if steps != [] {
      StepKeepsWellFormed(inv, s, steps[0]);
      RunsKeepWellFormed(inv, After(inv, s, steps[0]), steps[1..]);
    }
  }

  /** The last entry of an id, or the last owner of an address. */
  lemma LastSuch(entries: seq<Entry>, id: Id, w: string, owners: bool, k: nat) returns (i: nat)
    requires k < |entries| && if owners then ClaimsWG(entries[k], w) else Lists(entries[k], id)
    ensures k <= i < |entries| && if owners then ClaimsWG(entries[i], w) else Lists(entries[i], id)
    ensures forall j :: i < j < |entries| ==> !(if owners then ClaimsWG(entries[j], w) else Lists(entries[j], id))
  {
    i := |entries| - 1;
    while !(if owners then ClaimsWG(entries[i], w) else Lists(entries[i], id))
      invariant k <= i < |entries|
      invariant forall j :: i < j < |entries| ==> !(if owners then ClaimsWG(entries[j], w) else Lists(entries[j], id))
      decreases i
    {
      i := i - 1;
    }
  }

  lemma {:induction false} UnlistedHasNoNode(entries: seq<Entry>, id: Id)
    requires id in Synced(entries).nodes
    ensures exists k :: 0 <= k < |entries| && Lists(entries[k], id)
  {
    var n := |entries| - 1;
    if !Lists(entries[n], id) {
      UnlistedHasNoNode(entries[..n], id);
      var k :| 0 <= k < n && Lists(entries[..n][k], id);
      assert Lists(entries[k], id);
    }
  }

  /** What a swap of a finished, settled gather brings reads the pair. */
  lemma SwapIsSettled(g: Gather, id: Id, w: string)
    requires |g.entries| == |g.listed| && id != "" && w != "" && SettledGather(g, id, w)
    requires forall k :: 0 <= k < |g.entries| ==> g.entries[k].component == g.listed[k]
    ensures PairedCache(Synced(g.entries), id, w)
  {
    var c := Synced(g.entries);
    if id in c.nodes {
      UnlistedHasNoNode(g.entries, id);
      var k :| 0 <= k < |g.entries| && Lists(g.entries[k], id);
      var i := LastSuch(g.entries, id, w, false, k);
      NodesAreLastSnapshots(g.entries, id, i);
      assert forall m :: i < m < |g.listed| ==> !Lists(g.entries[m], id) && !Overtakes(g, m, id, w, true);
      assert !OtherAddress(g.entries[i], id, w);
    }
    WGIndexIsLastClaimant(g.entries, w);
    if w in c.wgipMap {
      var k :| 0 <= k < |g.entries| && ClaimsWG(g.entries[k], w);
      var i := LastSuch(g.entries, id, w, true, k);
      assert forall m :: i < m < |g.listed| ==> !ClaimsWG(g.entries[m], w) && !Overtakes(g, m, id, w, false);
      assert !OtherOwner(g.entries[i], id, w);
    }
  }

  ghost predicate Settled(s: Sys, id: Id, w: string) {
    && WellFormed(s) && PairedCache(s.cache, id, w) && NothingLeftOver(s, id, w)
    && Registered(s.wg, id, w) && (forall i :: i in s.wg && s.wg[i] == w ==> i == id)
  }

  /** One more entry: the id's own carries the address, and no other's does. */
  lemma FetchKeepsSettled(inv: Inventory, s: Sys, t: Step, id: Id, w: string)
    requires Settled(s, id, w) && t.SyncFetch? && Enabled(inv, s, t) && id != "" && w != ""
    ensures SettledGather(After(inv, s, t).gather.value, id, w)
  {
    var g, g' := s.gather.value, After(inv, s, t).gather.value;
    var n := |g.entries|;
    forall k | 0 <= k < |g'.entries|
      ensures OtherAddress(g'.entries[k], id, w) ==> Overtaken(g', k, id, w, true)
      ensures OtherOwner(g'.entries[k], id, w) ==> Overtaken(g', k, id, w, false)
    {
      if k < n {
        StillOvertaken(g, g', k, id, w, true);
        StillOvertaken(g, g', k, id, w, false);
      }
    }
  }

  lemma StillOvertaken(g: Gather, g': Gather, k: nat, id: Id, w: string, orNone: bool)
    requires |g.entries| < |g.listed| && g'.listed == g.listed
    requires |g'.entries| == |g.entries| + 1 && g'.entries[..|g.entries|] == g.entries
    requires g.listed[|g.entries|].Some? && g.listed[|g.entries|].value.id == id ==> WGOf(g'.entries[|g.entries|]) == w
    ensures Overtaken(g, k, id, w, orNone) ==> Overtaken(g', k, id, w, orNone)
  {
    if Overtaken(g, k, id, w, orNone) {
      var m :| k < m < |g.listed| && Overtakes(g, m, id, w, orNone);
      assert m < |g.entries| ==> g'.entries[m] == g'.entries[..|g.entries|][m] == g.entries[m];
      assert Overtakes(g', m, id, w, orNone);
    }
  }

  lemma StepKeepsSettled(inv: Inventory, s: Sys, t: Step, id: Id, w: string)
    requires Settled(s, id, w) && Enabled(inv, s, t) && id != "" && w != ""
    requires t.AddWG? ==> (t.id == id <==> t.wgip == w)
    ensures Settled(After(inv, s, t), id, w)
  {
    StepKeepsWellFormed(inv, s, t);
    match t
    case WriteBack(i) => StoreKeepsPaired(s.cache, s.pending[i], id, w);
    case SyncFetch(_, _, _) => FetchKeepsSettled(inv, s, t, id, w);
    case SyncSwap => SwapIsSettled(s.gather.value, id, w);
    case _ =>
  }

  lemma {:induction false} PairRunsStaySettled(inv: Inventory, s: Sys, steps: seq<Step>, id: Id, w: string)
    requires Settled(s, id, w) && Runs(inv, s, steps) && PairRun(steps, id, w) && id != "" && w != ""
    ensures Settled(End(inv, s, steps), id, w)
    decreases |steps|
  {
    if steps != [] {
      StepKeepsSettled(inv, s, steps[0], id, w);
      assert PairRun(steps[1..], id, w);
      PairRunsStaySettled(inv, After(inv, s, steps[0]), steps[1..], id, w);
    }
  }

  /** A sync that goes on without failures and swaps. */
  lemma {:induction false} FinishSync(inv: Inventory, s: Sys) returns (steps: seq<Step>, s': Sys, all: seq<Entry>)
    requires WellFormed(s) && s.gather.Some?
    ensures Reaches(inv, s, steps, s') && (forall i :: 0 <= i < |steps| ==> !steps[i].AddWG?)
    ensures Completes(s.gather.value, all) && s'.cache == Synced(all)
    decreases |s.gather.value.listed| - |s.gather.value.entries|
  {
    var g := s.gather.value;
    if |g.entries| == |g.listed| {
      s', all := After(inv, s, SyncSwap), g.entries;
      assert Reaches(inv, s', [], s');
      StepThen(inv, s, SyncSwap, [], s');
      steps := [SyncSwap] + [];
    } else {
      var t := SyncFetch(true, true, true);
      var rest;
      StepKeepsWellFormed(inv, s, t);
      rest, s', all := FinishSync(inv, After(inv, s, t));
      StepThen(inv, s, t, rest, s');
      steps := [t] + rest;
    }
  }

  /** `all` is the gather's list with everything fetched. */
  ghost predicate Completes(g: Gather, all: seq<Entry>) {
    && |g.entries| <= |g.listed| == |all|
    && (forall k :: 0 <= k < |g.entries| ==> all[k] == g.entries[k])
    && (forall k :: 0 <= k < |all| ==> all[k].component == g.listed[k])
  }

  /** Another address of the id that is not overtaken ends up in its node. */
  lemma LeftoverAddressShows(g: Gather, all: seq<Entry>, k: nat, id: Id, w: string)
    requires Completes(g, all) && k < |g.entries| && OtherAddress(g.entries[k], id, w) && !Overtaken(g, k, id, w, true)
    ensures !PairedCache(Synced(all), id, w)
  {
    var i := LastSuch(all, id, w, false, k);
    NodesAreLastSnapshots(all, id, i);
    assert i > k ==> !Overtakes(g, i, id, w, true);
  }

  /** Another owner of the address that is not overtaken ends up in the index. */
  lemma LeftoverOwnerShows(g: Gather, all: seq<Entry>, k: nat, id: Id, w: string)
    requires Completes(g, all) && k < |g.entries| && OtherOwner(g.entries[k], id, w) && !Overtaken(g, k, id, w, false)
    ensures !PairedCache(Synced(all), id, w)
  {
    var i := LastSuch(all, id, w, true, k);
    WGIndexIsLastClaimant(all, w);
    assert i > k ==> !Overtakes(g, i, id, w, false);
  }

  /** A gathered entry that is not overtaken ends up in the cache. */
  lemma UnsettledGatherShows(inv: Inventory, s: Sys, id: Id, w: string) returns (steps: seq<Step>)
    requires WellFormed(s) && s.gather.Some? && !SettledGather(s.gather.value, id, w) && id != "" && w != ""
    ensures Runs(inv, s, steps) && PairRun(steps, id, w) && !ReadsPair(End(inv, s, steps), id, w)
  {
    var g := s.gather.value;
    var s', all;
    steps, s', all := FinishSync(inv, s);
    var k :| 0 <= k < |g.entries| &&
      ((OtherAddress(g.entries[k], id, w) && !Overtaken(g, k, id, w, true))
       || (OtherOwner(g.entries[k], id, w) && !Overtaken(g, k, id, w, false)));
    if OtherAddress(g.entries[k], id, w) && !Overtaken(g, k, id, w, true) {
      LeftoverAddressShows(g, all, k, id, w);
    } else {
      LeftoverOwnerShows(g, all, k, id, w);
    }
  }

  /** A crossing write-back ends up in the cache. */
  lemma CrossingShows(inv: Inventory, s: Sys, i: nat, id: Id, w: string)
    requires WellFormed(s) && i < |s.pending| && Crosses(s.pending[i], id, w)
    ensures Runs(inv, s, [WriteBack(i)]) && PairRun([WriteBack(i)], id, w)
    ensures !ReadsPair(End(inv, s, [WriteBack(i)]), id, w)
  {
    var s' := After(inv, s, WriteBack(i));
    assert Reaches(inv, s', [], s');
    StepThen(inv, s, WriteBack(i), [], s');
    assert [WriteBack(i)] + [] == [WriteBack(i)];
  }

  /** The exact condition: from any reachable state that reads the pair, every continuation that puts neither id nor
      address with another goes on reading it, if and only if no pending write-back and no gathered entry that a swap
      would keep still carries what was replaced. */
  lemma ReplacementIsReadExactly(inv: Inventory, before: seq<Step>, id: Id, w: string)
    requires Runs(inv, INITIAL, before) && id != "" && w != "" && ReadsPair(End(inv, INITIAL, before), id, w)
    ensures var s := End(inv, INITIAL, before);
            AlwaysReadsPair(inv, s, id, w) <==> NothingLeftOver(s, id, w)
  {
    var s := End(inv, INITIAL, before);
    RunsKeepWellFormed(inv, INITIAL, before);
    if NothingLeftOver(s, id, w) {
      forall later | Runs(inv, s, later) && PairRun(later, id, w) ensures ReadsPair(End(inv, s, later), id, w) {
        PairRunsStaySettled(inv, s, later, id, w);
      }
    } else if i :| 0 <= i < |s.pending| && Crosses(s.pending[i], id, w) {
      CrossingShows(inv, s, i, id, w);
    } else {
      var steps := UnsettledGatherShows(inv, s, id, w);
    }
  }

  /** A late write-back really can be left over: two AddWGIP calls for one id whose cache writes arrive in the other
      order than their backend writes leave the cache with the address that was replaced. */
  lemma SecondRegistrationCanBeLost(inv: Inventory, id: Id, w1: string, w2: string) returns (s: Sys)
    requires id != "" && w1 != "" && w2 != "" && w1 != w2
    ensures Reaches(inv, INITIAL, [AddWG(id, w1), AddWG(id, w2), WriteBack(1), WriteBack(0)], s)
    ensures Registered(s.wg, id, w2) && Read(s.cache, WGFromID(id), false, Some(Text(w2))).answer == Some(Text(w1))
  {
    var p1, p2 := Pending(WGFromID(id), Text(w1)), Pending(WGFromID(id), Text(w2));
    var s1 := Sys(map[id := w1], EMPTY_CACHE, [p1], None, {});
    var s2 := Sys(map[id := w2], EMPTY_CACHE, [p1, p2], None, {});
    var s3 := Sys(map[id := w2], CacheWG(EMPTY_CACHE, id, w2), [p1], None, {});
    s := Sys(map[id := w2], CacheWG(s3.cache, id, w1), [], None, {});
    RegisterStep(inv, INITIAL, id, w1, s1);
    RegisterStep(inv, s1, id, w2, s2);
    RegisteredWriteBack(inv, s2, 1, id, w2, s3);
    RegisteredWriteBack(inv, s3, 0, id, w1, s);
    FourSteps(inv, INITIAL, AddWG(id, w1), s1, AddWG(id, w2), s2, WriteBack(1), s3, WriteBack(0), s);
  }

  ghost predicate StepsTo(inv: Inventory, s: Sys, t: Step, s': Sys) {
    Enabled(inv, s, t) && After(inv, s, t) == s'
  }

  lemma RegisterStep(inv: Inventory, s: Sys, id: Id, w: string, s': Sys)
    requires s' == s.(wg := s.wg[id := w], pending := s.pending + [Pending(WGFromID(id), Text(w))])
    ensures StepsTo(inv, s, AddWG(id, w), s')
  {
  }

  lemma RegisteredWriteBack(inv: Inventory, s: Sys, i: nat, id: Id, w: string, s': Sys)
    requires i < |s.pending| && s.pending[i] == Pending(WGFromID(id), Text(w))
    requires s' == s.(cache := CacheWG(s.cache, id, w), pending := s.pending[..i] + s.pending[i + 1..])
    ensures StepsTo(inv, s, WriteBack(i), s')
  {
  }

  lemma FourSteps(inv: Inventory, s0: Sys, t1: Step, s1: Sys, t2: Step, s2: Sys, t3: Step, s3: Sys, t4: Step, s4: Sys)
    requires StepsTo(inv, s0, t1, s1) && StepsTo(inv, s1, t2, s2) && StepsTo(inv, s2, t3, s3) &&
             StepsTo(inv, s3, t4, s4)
    ensures Reaches(inv, s0, [t1, t2, t3, t4], s4)
  {
    assert Reaches(inv, s4, [], s4);
    StepThen(inv, s3, t4, [], s4);
    StepThen(inv, s2, t3, [t4], s4);
    StepThen(inv, s1, t2, [t3] + [t4], s4);
    StepThen(inv, s0, t1, [t2] + ([t3] + [t4]), s4);
    assert [t1] + ([t2] + ([t3] + [t4])) == [t1, t2, t3, t4];
  }
}
