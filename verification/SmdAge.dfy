/** How old an answer from the fresh cache can be: the snapshot of pkg/smdclient/integration_service.go over the
    TTL caches of pkg/smdclient/http_client.go. Every datum in the snapshot is stamped with the time at which it was
    fetched from SMD. */
module SmdAge {
  import opened Prelude
  import opened SmdCache

  // ---------------------------------------------------------------- smdCache

  datatype Timed<T> = Timed(value: T, expires: int)

  type Entries<T> = map<string, Timed<T>>

  predicate Live<T>(entries: Entries<T>, key: string, now: int) {
    key in entries && now <= entries[key].expires
  }

  /** A datum and the time at which it was fetched from SMD. */
  datatype Stamped<T> = Stamped(value: T, at: int)

  datatype Got<T> = Got(entries: Entries<T>, answer: Option<Stamped<T>>)

  /** A client call through one of the maps; `reply` is what SMD says if it is asked. */
  function Fetch<T>(entries: Entries<T>, ttl: nat, key: string, now: int, reply: Option<T>): Got<T> {
    if Live(entries, key, now) then Got(entries, Some(Stamped(entries[key].value, entries[key].expires - ttl)))
    else if reply.None? then Got(entries, None)
    else Got(entries[key := Timed(reply.value, now + ttl)], Some(Stamped(reply.value, now)))
  }

  function ValueOf<T>(s: Option<Stamped<T>>): Option<T> {
    if s.Some? then Some(s.value.value) else None
  }

  /** One map of smdCache. */
  class TtlCache<T> {
    const ttl: nat
    var entries: Entries<T>

    constructor (ttl: nat)
      ensures this.ttl == ttl && entries == map[]
    {
      this.ttl, entries := ttl, map[];
    }

    method Get(key: string, now: int) returns (r: Option<T>)
      ensures r.Some? <==> Live(entries, key, now)
      ensures r.Some? ==> r.value == entries[key].value
    {
      if key !in entries || now > entries[key].expires {
        return None;
      }
      return Some(entries[key].value);
    }

    method Set(key: string, value: T, now: int)
      modifies this`entries
      ensures entries == old(entries)[key := Timed(value, now + ttl)]
    {
      entries := entries[key := Timed(value, now + ttl)];
    }

    /** The shape of ComponentInformation, EthernetInterfaces, EthernetNICInfo and IDfromIP of the HTTP client: the
        cached value, or else SMD's reply, which is then cached. */
    method GetOrFetch(key: string, now: int, reply: Option<T>) returns (r: Option<T>)
      modifies this`entries
      ensures var got := Fetch(old(entries), ttl, key, now, reply);
              entries == got.entries && r == ValueOf(got.answer)
    {
      r := Get(key, now);
      if r.Some? {
        return;
      }
      if reply.Some? {
        Set(key, reply.value, now);
      }
      return reply;
    }
  }

  // ---------------------------------------------------------------- the HTTP client

  datatype Config = Config(ttl: nat, interval: nat)

  /** The client's caches and its own map of registered WireGuard addresses. */
  datatype Client = Client(comps: Entries<Component>, ifaces: Entries<seq<Iface>>, nics: Entries<seq<Nic>>,
                           ids: Entries<Id>, wg: map<Id, string>)

  /** What SMD answers when asked, part by part; `wg` is what the client's own map answers. */
  datatype Answers = Answers(
    comp: Option<Component>, groups: Option<seq<string>>, nics: Option<seq<Nic>>, ifaces: Option<seq<Iface>>,
    id: Option<Id>, wg: Option<string>)

  /** `wg` is an answer the registrations give: an id's address, or some id registered with an address. */
  predicate Registered(wg: map<Id, string>, q: Query, answer: Option<string>) {
    match q
    case WGFromID(id) => answer == if id in wg then Some(wg[id]) else None
    case IDFromWG(w) => OwnerOf(wg, w, answer)
    case Resolve(w) => OwnerOf(wg, w, answer)
    case _ => true
  }

  predicate OwnerOf(wg: map<Id, string>, w: string, owner: Option<Id>) {
    if owner.Some? then owner.value in wg && wg[owner.value] == w else w !in wg.Values
  }

  /** Where a datum comes from: SMD at some time, or the client's own registrations. */
  datatype Origin = Smd(at: int) | Registration

  datatype Called = Called(client: Client, answer: Option<Value>, origin: Origin)

  function Lift<T>(c: Client, got: Option<Stamped<T>>, asValue: T -> Value): Called {
    match got
    case None => Called(c, None, Registration)
    case Some(x) => Called(c, Some(asValue(x.value)), Smd(x.at))
  }

  /** IPfromID or MACfromID: picked from the interfaces, else the component's own if it has one. */
  function CallAddress(cfg: Config, c: Client, now: int, id: Id, r: Answers, pick: seq<Iface> -> string,
                       own: Component -> string): Called
  {
    var i := Fetch(c.ifaces, cfg.ttl, id, now, r.ifaces);
    var c1 := c.(ifaces := i.entries);
    if i.answer.None? then Called(c1, None, Registration)
    else if pick(i.answer.value.value) != ""
    then Called(c1, Some(Text(pick(i.answer.value.value))), Smd(i.answer.value.at))
    else
      var x := Fetch(c.comps, cfg.ttl, id, now, r.comp);
      var c2 := c1.(comps := x.entries);
      if x.answer.Some? && own(x.answer.value.value) != ""
      then Called(c2, Some(Text(own(x.answer.value.value))), Smd(x.answer.value.at))
      else Called(c2, None, Registration)
  }

  /** IDfromIP of the client; SMD's empty ids are errors. */
  function CallIDfromIP(cfg: Config, c: Client, now: int, ip: string, r: Answers): Called {
    var g := Fetch(c.ids, cfg.ttl, ip, now, if r.id == Some("") then None else r.id);
    Lift(c.(ids := g.entries), g.answer, x => Text(x))
  }

  /** A call of the client. The resolver prefers a registered WireGuard address and discards empty ids. */
  function Call(cfg: Config, c: Client, now: int, q: Query, r: Answers): Called {
    match q
    case ComponentOf(id) =>
      var g := Fetch(c.comps, cfg.ttl, id, now, r.comp);
      Lift(c.(comps := g.entries), g.answer, x => Comp(x))
    case IfacesOf(id) =>
      var g := Fetch(c.ifaces, cfg.ttl, id, now, r.ifaces);
      Lift(c.(ifaces := g.entries), g.answer, x => IfaceList(x))
    case NicsOf(id) =>
      var g := Fetch(c.nics, cfg.ttl, id, now, r.nics);
      Lift(c.(nics := g.entries), g.answer, x => NicList(x))
    case GroupsOf(_) => Called(c, if r.groups.Some? then Some(Names(r.groups.value)) else None, Smd(now))
    case IPFromID(id) => CallAddress(cfg, c, now, id, r, ifaces => PickIP(ifaces), (x: Component) => x.ip)
    case MACFromID(id) => CallAddress(cfg, c, now, id, r, ifaces => PickMAC(ifaces), (x: Component) => x.mac)
    case IDFromIP(ip) => CallIDfromIP(cfg, c, now, ip, r)
    case Resolve(ip) =>
      if r.wg.Some? && r.wg.value != "" then Called(c, Some(Text(r.wg.value)), Registration)
      else
        var called := CallIDfromIP(cfg, c, now, ip, r);
        if called.answer == Some(Text("")) then called.(answer := None) else called
    case _ => Called(c, if r.wg.Some? then Some(Text(r.wg.value)) else None, Registration)
  }

  /** The origin of an answer the client can give now. */
  ghost predicate Recent(cfg: Config, now: int, q: Query, o: Origin) {
    match o
    case Smd(at) => at >= now - cfg.ttl && (q.GroupsOf? ==> at == now)
    case Registration => q.Resolve? || q.IDFromWG? || q.WGFromID?
  }

  /** An answer from SMD was fetched at most one TTL ago; groups are never cached. */
  lemma CallIsRecent(cfg: Config, c: Client, now: int, q: Query, r: Answers)
    ensures var called := Call(cfg, c, now, q, r);
            called.answer.Some? ==> Fits(q, called.answer.value) && Recent(cfg, now, q, called.origin)
  {
  }

  /** The client's preferred address or MAC of a component comes from its interfaces as the client has them, and from
      the component only where those give none. */
  lemma CallPicks(cfg: Config, c: Client, now: int, id: Id, r: Answers)
    ensures var ifaces := Fetch(c.ifaces, cfg.ttl, id, now, r.ifaces).answer;
            var comp := Fetch(c.comps, cfg.ttl, id, now, r.comp).answer;
            var ip, mac := Call(cfg, c, now, IPFromID(id), r), Call(cfg, c, now, MACFromID(id), r);
            && (ifaces.None? ==> ip.answer.None? && mac.answer.None?)
            && (ifaces.Some? && PickIP(ifaces.value.value) != "" ==>
                  ip.answer == Some(Text(PickIP(ifaces.value.value))) && ip.origin == Smd(ifaces.value.at))
            && (ifaces.Some? && PickMAC(ifaces.value.value) != "" ==>
                  mac.answer == Some(Text(PickMAC(ifaces.value.value))) && mac.origin == Smd(ifaces.value.at))
            && (ifaces.Some? && PickIP(ifaces.value.value) == "" && comp.Some? && comp.value.value.ip != "" ==>
                  ip.answer == Some(Text(comp.value.value.ip)) && ip.origin == Smd(comp.value.at))
            && (ifaces.Some? && PickMAC(ifaces.value.value) == "" && comp.Some? && comp.value.value.mac != "" ==>
                  mac.answer == Some(Text(comp.value.value.mac)) && mac.origin == Smd(comp.value.at))
  {
  }

  // ---------------------------------------------------------------- stamps

  /** The parts of the snapshot that hold SMD data. */
  datatype Datum =
    | ComponentDatum(id: Id) | GroupsDatum(id: Id) | NicsDatum(id: Id) | IfacesDatum(id: Id) | IndexDatum(ip: string)

  /** What the snapshot has for a datum. */
  function Content(c: Cache, d: Datum): Option<Value> {
    match d
    case IndexDatum(ip) => Lookup(c.ipToID, ip)
    case _ => NodeContent(NodeOf(c, d.id), d)
  }

  function NodeContent(n: Node, d: Datum): Option<Value> {
    match d
    case ComponentDatum(_) => if n.component.Some? then Some(Comp(n.component.value)) else None
    case GroupsDatum(_) => if n.groups != [] then Some(Names(n.groups)) else None
    case NicsDatum(_) => if n.nics != [] then Some(NicList(n.nics)) else None
    case IfacesDatum(_) => if n.ifaces != [] then Some(IfaceList(n.ifaces)) else None
    case IndexDatum(_) => None
  }

  /** The datum that the snapshot's own answer comes from; none for WireGuard data, which is not SMD's. */
  function Source(c: Cache, q: Query): Option<Datum> {
    match q
    case Resolve(ip) => if Lookup(c.wgipMap, ip).Some? then None else Some(IndexDatum(ip))
    case IDFromIP(ip) => Some(IndexDatum(ip))
    case IDFromWG(_) => None
    case WGFromID(_) => None
    case IPFromID(id) => Some(if PickIP(NodeOf(c, id).ifaces) != "" then IfacesDatum(id) else ComponentDatum(id))
    case MACFromID(id) => Some(if PickMAC(NodeOf(c, id).ifaces) != "" then IfacesDatum(id) else ComponentDatum(id))
    case ComponentOf(id) => Some(ComponentDatum(id))
    case GroupsOf(id) => Some(GroupsDatum(id))
    case NicsOf(id) => Some(NicsDatum(id))
    case IfacesOf(id) => Some(IfacesDatum(id))
  }

  function IndexData(ifaces: seq<Iface>): set<Datum> {
    set a | a in Addresses(ifaces) && a.1.ip != "" :: IndexDatum(a.1.ip)
  }

  /** The data a write-back replaces. */
  function Touched(q: Query, v: Value): set<Datum>
    requires Fits(q, v)
  {
    match q
    case ComponentOf(id) => {ComponentDatum(id)} + if v.c.ip != "" then {IndexDatum(v.c.ip)} else {}
    case GroupsOf(id) => {GroupsDatum(id)}
    case NicsOf(id) => {NicsDatum(id)}
    case IfacesOf(id) => {IfacesDatum(id)} + IndexData(v.ifaces)
    case IPFromID(id) => if v.s != "" && id != "" then {IndexDatum(v.s)} else {}
    case Resolve(ip) => if ip != "" && v.s != "" then {IndexDatum(ip)} else {}
    case IDFromIP(ip) => if ip != "" && v.s != "" then {IndexDatum(ip)} else {}
    case _ => {}
  }

  type Stamps = map<Datum, Origin>

  function Noted(stamps: Stamps, data: set<Datum>, o: Origin): Stamps {
    stamps + map d | d in data :: o
  }

  /** A write-back changes what it touches and nothing else. */
  lemma StoreTouches(c: Cache, q: Query, v: Value, d: Datum)
    requires Fits(q, v)
    ensures d !in Touched(q, v) ==> Content(Store(c, q, v), d) == Content(c, d)
  {
    if q.IfacesOf? && d.IndexDatum? {
      IndexedAddresses(c.ipToID, Addresses(v.ifaces), q.id, d.ip);
      if exists a :: a in Addresses(v.ifaces) && a.1.ip == d.ip {
        var a :| a in Addresses(v.ifaces) && a.1.ip == d.ip;
        assert d.ip != "" ==> IndexDatum(a.1.ip) in IndexData(v.ifaces);
      }
    }
  }

  /** An answer of the snapshot shows its source; only groups are answered without any. */
  lemma SourceShows(c: Cache, q: Query)
    requires Hit(c, q).Some? && Source(c, q).Some?
    ensures Content(c, Source(c, q).value).Some? || Hit(c, q) == Some(Names([]))
    ensures Content(c, Source(c, q).value).None? ==> q.GroupsOf?
  {
    assert PickIP([]) == "" && PickMAC([]) == "";
  }

  // ---------------------------------------------------------------- runs

  /** What is fetched so far for the component at hand. */
  datatype Stage =
    | AtGroups
    | AtIfaces(groups: Option<Stamped<seq<string>>>)
    | AtNics(groups: Option<Stamped<seq<string>>>, ifaces: Option<Stamped<seq<Iface>>>)

  /** A sync under way since `start`: the list, how much of it is done, and the snapshot built from that. */
  datatype Gather = Gather(start: int, listed: seq<Component>, done: nat, stage: Stage, next: Cache, stamps: Stamps) {
    predicate Working() { done < |listed| && listed[done].id != "" }
  }

  datatype Sys = Sys(now: int, client: Client, cache: Cache, stamps: Stamps,
                     lastRun: Option<int>, lastStart: int, gather: Option<Gather>)

  const NO_CLIENT_DATA: Client := Client(map[], map[], map[], map[], map[])
  const INITIAL: Sys := Sys(0, NO_CLIENT_DATA, EMPTY_CACHE, map[], None, 0, None)

  datatype Step =
    | Tick(d: nat)
    | Use(q: Query, r: Answers)           // a direct call of the HTTP client
    | Read(q: Query, r: Answers)          // an atomic read through the service
    | Register(id: Id, wgip: string)      // AddWGIP
    | SyncBegin(listed: seq<Component>)
    | SyncSkip                            // a listed component without an id
    | SyncGroups(r: Answers)
    | SyncIfaces(r: Answers)
    | SyncNics(r: Answers)                // and its WireGuard address; the component is done
    | SyncSwap
    | SyncAbort

  /** isCacheStale with sync enabled. */
  predicate Stale(cfg: Config, s: Sys) {
    IsStale(true, cfg.interval, s.lastRun, s.now)
  }

  /** The snapshot answers by itself. */
  predicate ServedFresh(cfg: Config, s: Sys, q: Query) {
    !Stale(cfg, s) && q != Resolve("") && Hit(s.cache, q).Some?
  }

  predicate Enabled(s: Sys, t: Step) {
    match t
    case SyncBegin(_) => s.gather.None?
    case SyncSkip => s.gather.Some? && var g := s.gather.value; g.done < |g.listed| && g.listed[g.done].id == ""
    case SyncGroups(_) => s.gather.Some? && s.gather.value.Working() && s.gather.value.stage.AtGroups?
    case SyncIfaces(_) => s.gather.Some? && s.gather.value.Working() && s.gather.value.stage.AtIfaces?
    case SyncNics(r) =>
      && s.gather.Some? && s.gather.value.Working() && s.gather.value.stage.AtNics?
      && Registered(s.client.wg, WGFromID(s.gather.value.listed[s.gather.value.done].id), r.wg)
    case Use(q, r) => Registered(s.client.wg, q, r.wg)
    case Read(q, r) => Registered(s.client.wg, q, r.wg)
    case SyncSwap => s.gather.Some? && s.gather.value.done == |s.gather.value.listed|
    case SyncAbort => s.gather.Some?
    case _ => true
  }

  /** ListComponents always asks SMD, and refreshes the client's components and their ids. */
  function Listed(cfg: Config, c: Client, now: int, listed: seq<Component>): Client {
    if listed == [] then c
    else
      var front, x := Listed(cfg, c, now, listed[..|listed| - 1]), listed[|listed| - 1];
      front.(comps := front.comps[x.id := Timed(x, now + cfg.ttl)],
             ids := if x.ip != "" then front.ids[x.ip := Timed(x.id, now + cfg.ttl)] else front.ids)
  }

  /** The data one finished component brings. */
  function EntryData(x: Component, groups: Option<Stamped<seq<string>>>, ifaces: Option<Stamped<seq<Iface>>>,
                     nics: Option<Stamped<seq<Nic>>>): set<Datum>
  {
    {ComponentDatum(x.id)}
    + (if x.ip != "" then {IndexDatum(x.ip)} else {})
    + (if groups.Some? then {GroupsDatum(x.id)} else {})
    + (if nics.Some? then {NicsDatum(x.id)} else {})
    + (if ifaces.Some? then {IfacesDatum(x.id)} + IndexData(ifaces.value.value) else {})
  }

  /** Where each of them comes from: the listing, or the fetch of its own. */
  function EntryOrigin(start: int, groups: Option<Stamped<seq<string>>>, ifaces: Option<Stamped<seq<Iface>>>,
                       nics: Option<Stamped<seq<Nic>>>, d: Datum): Origin
  {
    match d
    case ComponentDatum(_) => Smd(start)
    case GroupsDatum(_) => Smd(if groups.Some? then groups.value.at else start)
    case NicsDatum(_) => Smd(if nics.Some? then nics.value.at else start)
    case IfacesDatum(_) => Smd(if ifaces.Some? then ifaces.value.at else start)
    case IndexDatum(_) => Smd(if ifaces.Some? && d in IndexData(ifaces.value.value) then ifaces.value.at else start)
  }

  function EntryStamps(start: int, x: Component, groups: Option<Stamped<seq<string>>>,
                       ifaces: Option<Stamped<seq<Iface>>>, nics: Option<Stamped<seq<Nic>>>): Stamps
  {
    map d | d in EntryData(x, groups, ifaces, nics) :: EntryOrigin(start, groups, ifaces, nics, d)
  }

  /** The component at hand is done: its node replaces any earlier one for its id. */
  function WithFinished(g: Gather, nics: Option<Stamped<seq<Nic>>>, wg: Option<string>): Gather
    requires g.Working() && g.stage.AtNics?
  {
    var x, groups, ifaces := g.listed[g.done], g.stage.groups, g.stage.ifaces;
    var e := Entry(Some(x), Fetched(ValueOf(groups), ValueOf(ifaces), ValueOf(nics), wg));
    var replaced := {ComponentDatum(x.id), GroupsDatum(x.id), NicsDatum(x.id), IfacesDatum(x.id)};
    g.(done := g.done + 1, stage := AtGroups, next := WithEntry(g.next, e),
       stamps := (g.stamps - replaced) + EntryStamps(g.start, x, groups, ifaces, nics))
  }

  function After(cfg: Config, s: Sys, t: Step): Sys
    requires Enabled(s, t)
  {
    match t
    case Tick(d) => s.(now := s.now + d)
    case Use(q, r) => s.(client := Call(cfg, s.client, s.now, q, r).client)
    case Register(id, w) =>
      s.(client := s.client.(wg := s.client.wg[id := w]), cache := CacheWG(s.cache, id, w))
    case Read(q, r) =>
      if ServedFresh(cfg, s, q) || q == Resolve("") then s
      else
        CallIsRecent(cfg, s.client, s.now, q, r);
        var called := Call(cfg, s.client, s.now, q, r);
        s.(client := called.client, cache := SmdCache.Read(s.cache, q, Stale(cfg, s), called.answer).cache,
           stamps := if called.answer.Some? then Noted(s.stamps, Touched(q, called.answer.value), called.origin)
                     else s.stamps)
    case SyncBegin(listed) =>
      s.(gather := Some(Gather(s.now, listed, 0, AtGroups, EMPTY_CACHE, map[])),
         client := Listed(cfg, s.client, s.now, listed))
    case SyncSkip => s.(gather := Some(s.gather.value.(done := s.gather.value.done + 1)))
    case SyncGroups(r) =>
      s.(gather := Some(s.gather.value.(stage :=
        AtIfaces(if r.groups.Some? then Some(Stamped(r.groups.value, s.now)) else None))))
    case SyncIfaces(r) =>
      var g := s.gather.value;
      var got := Fetch(s.client.ifaces, cfg.ttl, g.listed[g.done].id, s.now, r.ifaces);
      s.(gather := Some(g.(stage := AtNics(g.stage.groups, got.answer))), client := s.client.(ifaces := got.entries))
    case SyncNics(r) =>
      var g := s.gather.value;
      var got := Fetch(s.client.nics, cfg.ttl, g.listed[g.done].id, s.now, r.nics);
      s.(gather := Some(WithFinished(g, got.answer, r.wg)), client := s.client.(nics := got.entries))
    case SyncSwap =>
      var g := s.gather.value;
      s.(cache := g.next, stamps := g.stamps, lastRun := Some(s.now), lastStart := g.start, gather := None)
    case SyncAbort => s.(gather := None)
  }

  ghost predicate Reaches(cfg: Config, s: Sys, steps: seq<Step>, s': Sys)
    decreases |steps|
  {
    if steps == [] then s == s'
    else Enabled(s, steps[0]) && Reaches(cfg, After(cfg, s, steps[0]), steps[1..], s')
  }

  // ---------------------------------------------------------------- the bounds

  /** How far before the start of a sync, or before its end, data of a kind can have been fetched. */
  ghost predicate YoungEnough(cfg: Config, start: int, end: int, d: Datum, o: Origin) {
    match o
    case Registration => d.IndexDatum?
    case Smd(at) =>
      match d
      case ComponentDatum(_) => at >= start || at >= end - cfg.ttl
      case GroupsDatum(_) => at >= start
      case _ => at >= start - cfg.ttl
  }

  ghost predicate Covers(c: Cache, stamps: Stamps) {
    forall d :: Content(c, d).Some? ==> d in stamps
  }

  ghost predicate GatherInv(cfg: Config, g: Gather) {
    && Covers(g.next, g.stamps)
    && (forall d :: d in g.stamps ==> g.stamps[d].Smd? && YoungEnough(cfg, g.start, g.start + cfg.ttl, d, g.stamps[d]))
    && (!g.stage.AtGroups? && g.stage.groups.Some? ==> g.stage.groups.value.at >= g.start)
    && (g.stage.AtNics? && g.stage.ifaces.Some? ==> g.stage.ifaces.value.at >= g.start - cfg.ttl)
  }

  /** Whatever the snapshot holds is stamped, and no stamp is too old for the last sync. */
  ghost predicate AgeInv(cfg: Config, s: Sys) {
    && Covers(s.cache, s.stamps)
    && (forall d :: d in s.stamps && s.stamps[d].Registration? ==> d.IndexDatum?)
    && (s.lastRun.Some? ==>
          && s.lastStart <= s.lastRun.value <= s.now
          && forall d :: d in s.stamps ==> YoungEnough(cfg, s.lastStart, s.lastRun.value, d, s.stamps[d]))
    && (s.gather.Some? ==> s.gather.value.start <= s.now && GatherInv(cfg, s.gather.value))
  }

  lemma TouchedIsYoung(cfg: Config, start: int, end: int, now: int, q: Query, v: Value, o: Origin, d: Datum)
    requires start <= end <= now && Fits(q, v) && d in Touched(q, v) && Recent(cfg, now, q, o)
    ensures YoungEnough(cfg, start, end, d, o)
  {
  }

  lemma WriteBackCovers(c: Cache, stamps: Stamps, q: Query, v: Value, o: Origin)
    requires Covers(c, stamps) && Fits(q, v)
    ensures Covers(Store(c, q, v), Noted(stamps, Touched(q, v), o))
  {
    forall d | Content(Store(c, q, v), d).Some? ensures d in Noted(stamps, Touched(q, v), o) {
      StoreTouches(c, q, v, d);
    }
  }

  lemma ReadKeepsAgeInv(cfg: Config, s: Sys, q: Query, r: Answers)
    requires AgeInv(cfg, s) && Enabled(s, Read(q, r))
    ensures AgeInv(cfg, After(cfg, s, Read(q, r)))
  {
    var s', called := After(cfg, s, Read(q, r)), Call(cfg, s.client, s.now, q, r);
    CallIsRecent(cfg, s.client, s.now, q, r);
    if !ServedFresh(cfg, s, q) && q != Resolve("") && called.answer.Some? {
      var v, o := called.answer.value, called.origin;
      WriteBackCovers(s.cache, s.stamps, q, v, o);
      forall d | d in s'.stamps
        ensures s'.stamps[d].Registration? ==> d.IndexDatum?
        ensures s.lastRun.Some? ==> YoungEnough(cfg, s.lastStart, s.lastRun.value, d, s'.stamps[d])
      {
        if d in Touched(q, v) {
          TouchedIsYoung(cfg, s.now, s.now, s.now, q, v, o, d);
          if s.lastRun.Some? {
            TouchedIsYoung(cfg, s.lastStart, s.lastRun.value, s.now, q, v, o, d);
          }
        } else {
          assert s'.stamps[d] == s.stamps[d];
        }
      }
    }
  }

  lemma RegisterKeepsContent(c: Cache, id: Id, w: string, d: Datum)
    ensures Content(CacheWG(c, id, w), d) == Content(c, d)
  {
  }

  lemma EntryIsStamped(start: int, e: Entry, x: Component, groups: Option<Stamped<seq<string>>>,
                       ifaces: Option<Stamped<seq<Iface>>>, nics: Option<Stamped<seq<Nic>>>, c: Cache, d: Datum)
    requires x.id != "" && e.component == Some(x)
    requires e.got.groups == ValueOf(groups) && e.got.ifaces == ValueOf(ifaces) && e.got.nics == ValueOf(nics)
    requires Content(WithEntry(c, e), d).Some?
    ensures d in EntryStamps(start, x, groups, ifaces, nics)
            || (Content(c, d).Some? && (d.IndexDatum? || d.id != x.id))
  {
    if d.IndexDatum? {
      EntryIndexIsStamped(start, e, x, groups, ifaces, nics, c, d.ip);
    } else {
      assert NodeOf(WithEntry(c, e), d.id) == if d.id == x.id then SnapshotOf(e) else NodeOf(c, d.id);
      if d.id == x.id {
        SnapshotIsStamped(start, e, x, groups, ifaces, nics, d);
      }
    }
  }

  lemma SnapshotIsStamped(start: int, e: Entry, x: Component, groups: Option<Stamped<seq<string>>>,
                          ifaces: Option<Stamped<seq<Iface>>>, nics: Option<Stamped<seq<Nic>>>, d: Datum)
    requires x.id != "" && e.component == Some(x) && !d.IndexDatum? && d.id == x.id
    requires e.got.groups == ValueOf(groups) && e.got.ifaces == ValueOf(ifaces) && e.got.nics == ValueOf(nics)
    requires NodeContent(SnapshotOf(e), d).Some?
    ensures d in EntryStamps(start, x, groups, ifaces, nics)
  {
  }

  lemma EntryIndexIsStamped(start: int, e: Entry, x: Component, groups: Option<Stamped<seq<string>>>,
                            ifaces: Option<Stamped<seq<Iface>>>, nics: Option<Stamped<seq<Nic>>>, c: Cache, ip: string)
    requires x.id != "" && e.component == Some(x) && e.got.ifaces == ValueOf(ifaces)
    requires Lookup(WithEntry(c, e).ipToID, ip).Some?
    ensures IndexDatum(ip) in EntryStamps(start, x, groups, ifaces, nics) || Lookup(c.ipToID, ip).Some?
  {
    var own := if x.ip != "" then c.ipToID[x.ip := x.id] else c.ipToID;
    var addrs := Addresses(OrEmpty(e.got.ifaces));
    IndexedAddresses(own, addrs, x.id, ip);
    if ip != "" && exists a :: a in addrs && a.1.ip == ip {
      var a :| a in addrs && a.1.ip == ip;
      assert ifaces.Some? && IndexDatum(a.1.ip) in IndexData(ifaces.value.value);
    }
  }

  lemma EntryStampsAreYoung(cfg: Config, start: int, x: Component, groups: Option<Stamped<seq<string>>>,
                            ifaces: Option<Stamped<seq<Iface>>>, nics: Option<Stamped<seq<Nic>>>, d: Datum)
    requires groups.Some? ==> groups.value.at >= start
    requires ifaces.Some? ==> ifaces.value.at >= start - cfg.ttl
    requires nics.Some? ==> nics.value.at >= start - cfg.ttl
    requires d in EntryStamps(start, x, groups, ifaces, nics)
    ensures YoungEnough(cfg, start, start + cfg.ttl, d, EntryStamps(start, x, groups, ifaces, nics)[d])
  {
  }

  lemma FinishCovers(g: Gather, nics: Option<Stamped<seq<Nic>>>, wg: Option<string>)
    requires Covers(g.next, g.stamps) && g.Working() && g.stage.AtNics?
    ensures Covers(WithFinished(g, nics, wg).next, WithFinished(g, nics, wg).stamps)
  {
    var g', x := WithFinished(g, nics, wg), g.listed[g.done];
    var e := Entry(Some(x), Fetched(ValueOf(g.stage.groups), ValueOf(g.stage.ifaces), ValueOf(nics), wg));
    forall d | Content(g'.next, d).Some? ensures d in g'.stamps {
      EntryIsStamped(g.start, e, x, g.stage.groups, g.stage.ifaces, nics, g.next, d);
    }
  }

  lemma FinishKeepsGatherInv(cfg: Config, g: Gather, nics: Option<Stamped<seq<Nic>>>, wg: Option<string>)
    requires GatherInv(cfg, g) && g.Working() && g.stage.AtNics?
    requires nics.Some? ==> nics.value.at >= g.start - cfg.ttl
    ensures GatherInv(cfg, WithFinished(g, nics, wg))
  {
    var g', x := WithFinished(g, nics, wg), g.listed[g.done];
    FinishCovers(g, nics, wg);
    var own := EntryStamps(g.start, x, g.stage.groups, g.stage.ifaces, nics);
    forall d | d in g'.stamps
      ensures g'.stamps[d].Smd? && YoungEnough(cfg, g.start, g.start + cfg.ttl, d, g'.stamps[d])
    {
      if d in own {
        EntryStampsAreYoung(cfg, g.start, x, g.stage.groups, g.stage.ifaces, nics, d);
      }
    }
  }

  lemma StepKeepsAgeInv(cfg: Config, s: Sys, t: Step)
    requires AgeInv(cfg, s) && Enabled(s, t)
    ensures AgeInv(cfg, After(cfg, s, t))
  {
    match t
    case Read(q, r) => ReadKeepsAgeInv(cfg, s, q, r);
    case Register(id, w) =>
      forall d ensures Content(CacheWG(s.cache, id, w), d) == Content(s.cache, d) {
        RegisterKeepsContent(s.cache, id, w, d);
      }
    case SyncNics(r) =>
      var g := s.gather.value;
      var got := Fetch(s.client.nics, cfg.ttl, g.listed[g.done].id, s.now, r.nics);
      FinishKeepsGatherInv(cfg, g, got.answer, r.wg);
    case _ =>
  }

  lemma {:induction false} RunsKeepAgeInv(cfg: Config, s: Sys, steps: seq<Step>, s': Sys)
    requires AgeInv(cfg, s) && Reaches(cfg, s, steps, s')
    ensures AgeInv(cfg, s')
    decreases |steps|
  {
    if steps != [] {
      StepKeepsAgeInv(cfg, s, steps[0]);
      RunsKeepAgeInv(cfg, After(cfg, s, steps[0]), steps[1..], s');
    }
  }

  function Max(a: int, b: int): int {
    if a > b then a else b
  }

  /** The greatest age of a datum of each kind in a fresh snapshot. */
  function AgeBound(cfg: Config, s: Sys, d: Datum): int
    requires s.lastRun.Some?
  {
    var duration := s.lastRun.value - s.lastStart;
    2 * cfg.interval + match d
      case ComponentDatum(_) => Max(duration, cfg.ttl)
      case GroupsDatum(_) => duration
      case _ => duration + cfg.ttl
  }

  /** In every run, every answer that the fresh snapshot gives from SMD data was fetched from SMD within the bound of
      its kind -- never longer ago than two sync intervals, one sync and one TTL -- with two exceptions: groups of a
      node whose groups were never fetched are answered as none, and an address that was resolved through a WireGuard
      registration is in the IP index without SMD knowing of it. */
  lemma FreshAnswersAreYoung(cfg: Config, steps: seq<Step>, s: Sys, q: Query)
    requires Reaches(cfg, INITIAL, steps, s) && ServedFresh(cfg, s, q) && Source(s.cache, q).Some?
    ensures var d := Source(s.cache, q).value;
            if d !in s.stamps then q.GroupsOf? && Hit(s.cache, q) == Some(Names([]))
            else if s.stamps[d].Registration? then d.IndexDatum?
            else s.stamps[d].at >= s.now - AgeBound(cfg, s, d)
    ensures forall d :: AgeBound(cfg, s, d) <= 2 * cfg.interval + (s.lastRun.value - s.lastStart) + cfg.ttl
  {
    RunsKeepAgeInv(cfg, INITIAL, steps, s);
    SourceShows(s.cache, q);
  }

  // ---------------------------------------------------------------- when groups were never fetched

  /** Whether the groups of an id were fetched for the node in place, and for the node of a sync under way. */
  datatype Seen = Seen(node: bool, gathered: bool)

  function Watch(cfg: Config, s: Sys, t: Step, id: Id, seen: Seen): Seen
    requires Enabled(s, t)
  {
    match t
    case Read(q, r) => seen.(node := seen.node || (q == GroupsOf(id) && !ServedFresh(cfg, s, q) && r.groups.Some?))
    case SyncBegin(_) => seen.(gathered := false)
    case SyncNics(_) =>
      var g := s.gather.value;
      if g.listed[g.done].id == id then seen.(gathered := g.stage.groups.Some?) else seen
    case SyncSwap => seen.(node := seen.gathered)
    case _ => seen
  }

  ghost function Watched(cfg: Config, s: Sys, steps: seq<Step>, s': Sys, id: Id, seen: Seen): Seen
    requires Reaches(cfg, s, steps, s')
    decreases |steps|
  {
    if steps == [] then seen
    else Watched(cfg, After(cfg, s, steps[0]), steps[1..], s', id, Watch(cfg, s, steps[0], id, seen))
  }

  ghost predicate SeenIsStamped(s: Sys, id: Id, seen: Seen) {
    && (seen.node <==> GroupsDatum(id) in s.stamps)
    && (s.gather.Some? ==> (seen.gathered <==> GroupsDatum(id) in s.gather.value.stamps))
  }

  lemma FinishStampsGroups(g: Gather, nics: Option<Stamped<seq<Nic>>>, wg: Option<string>, id: Id)
    requires g.Working() && g.stage.AtNics?
    ensures GroupsDatum(id) in WithFinished(g, nics, wg).stamps <==>
            if g.listed[g.done].id == id then g.stage.groups.Some? else GroupsDatum(id) in g.stamps
  {
    var x := g.listed[g.done];
    GroupsInEntryData(x, g.stage.groups, g.stage.ifaces, nics, id);
    assert EntryStamps(g.start, x, g.stage.groups, g.stage.ifaces, nics).Keys
        == EntryData(x, g.stage.groups, g.stage.ifaces, nics);
  }

  lemma GroupsInEntryData(x: Component, groups: Option<Stamped<seq<string>>>, ifaces: Option<Stamped<seq<Iface>>>,
                          nics: Option<Stamped<seq<Nic>>>, id: Id)
    ensures GroupsDatum(id) in EntryData(x, groups, ifaces, nics) <==> x.id == id && groups.Some?
  {
  }

  lemma ReadStampsGroups(cfg: Config, s: Sys, q: Query, r: Answers, id: Id)
    requires Enabled(s, Read(q, r))
    ensures GroupsDatum(id) in After(cfg, s, Read(q, r)).stamps <==>
            GroupsDatum(id) in s.stamps || (q == GroupsOf(id) && !ServedFresh(cfg, s, q) && r.groups.Some?)
  {
    CallIsRecent(cfg, s.client, s.now, q, r);
  }

  lemma WatchKeepsStamped(cfg: Config, s: Sys, t: Step, id: Id, seen: Seen)
    requires Enabled(s, t) && SeenIsStamped(s, id, seen)
    ensures SeenIsStamped(After(cfg, s, t), id, Watch(cfg, s, t, id, seen))
  {
    match t
    case Read(q, r) => ReadStampsGroups(cfg, s, q, r, id);
    case SyncNics(r) =>
      var g := s.gather.value;
      FinishStampsGroups(g, Fetch(s.client.nics, cfg.ttl, g.listed[g.done].id, s.now, r.nics).answer, r.wg, id);
    case _ =>
  }

  lemma {:induction false} WatchedIsStamped(cfg: Config, s: Sys, steps: seq<Step>, s': Sys, id: Id, seen: Seen)
    requires Reaches(cfg, s, steps, s') && SeenIsStamped(s, id, seen)
    ensures SeenIsStamped(s', id, Watched(cfg, s, steps, s', id, seen))
    decreases |steps|
  {
    if steps != [] {
      WatchKeepsStamped(cfg, s, steps[0], id, seen);
      WatchedIsStamped(cfg, After(cfg, s, steps[0]), steps[1..], s', id, Watch(cfg, s, steps[0], id, seen));
    }
  }

  /** A fresh answer for groups was fetched from SMD within two intervals and one sync if and only if they were fetched
      since the node was made: by the sync that made it, or by a later read. Otherwise the answer is none at all. */
  lemma GroupsAreYoungExactly(cfg: Config, steps: seq<Step>, s: Sys, id: Id)
    requires Reaches(cfg, INITIAL, steps, s) && ServedFresh(cfg, s, GroupsOf(id))
    ensures var d, seen := GroupsDatum(id), Watched(cfg, INITIAL, steps, s, id, Seen(false, false));
            && ((d in s.stamps && s.stamps[d].Smd? && s.stamps[d].at >= s.now - AgeBound(cfg, s, d)) <==> seen.node)
            && (!seen.node ==> Hit(s.cache, GroupsOf(id)) == Some(Names([])))
  {
    WatchedIsStamped(cfg, INITIAL, steps, s, id, Seen(false, false));
    FreshAnswersAreYoung(cfg, steps, s, GroupsOf(id));
  }

  // ---------------------------------------------------------------- when an index entry is not from SMD

  /** The step writes the index entry of `ip`: with an answer of SMD, or with one of the registrations. */
  ghost predicate WritesEntry(cfg: Config, s: Sys, t: Step, ip: string)
    requires Enabled(s, t)
  {
    && t.Read? && !ServedFresh(cfg, s, t.q) && t.q != Resolve("")
    && var answer := Call(cfg, s.client, s.now, t.q, t.r).answer;
       answer.Some? && Fits(t.q, answer.value) && IndexDatum(ip) in Touched(t.q, answer.value)
  }

  /** Whether the entry of `ip` in place was last written by a resolution of `ip` that a registration answered; a swap
      brings entries from SMD only. */
  ghost predicate LocalAfter(cfg: Config, s: Sys, t: Step, ip: string, was: bool)
    requires Enabled(s, t)
  {
    if t.SyncSwap? then false
    else if WritesEntry(cfg, s, t, ip) then t.q == Resolve(ip) && t.r.wg.Some? && t.r.wg.value != ""
    else was
  }

  ghost predicate WatchedLocal(cfg: Config, s: Sys, steps: seq<Step>, s': Sys, ip: string, was: bool)
    requires Reaches(cfg, s, steps, s')
    decreases |steps|
  {
    if steps == [] then was
    else WatchedLocal(cfg, After(cfg, s, steps[0]), steps[1..], s', ip, LocalAfter(cfg, s, steps[0], ip, was))
  }

  ghost predicate LocalIsStamped(s: Sys, ip: string, local: bool) {
    IndexDatum(ip) in s.stamps ==> (s.stamps[IndexDatum(ip)].Registration? <==> local)
  }

  lemma ReadStampsIndex(cfg: Config, s: Sys, q: Query, r: Answers, ip: string, local: bool)
    requires Enabled(s, Read(q, r)) && LocalIsStamped(s, ip, local)
    ensures LocalIsStamped(After(cfg, s, Read(q, r)), ip, LocalAfter(cfg, s, Read(q, r), ip, local))
  {
    var called := Call(cfg, s.client, s.now, q, r);
    CallIsRecent(cfg, s.client, s.now, q, r);
    if WritesEntry(cfg, s, Read(q, r), ip) {
      RegistrationAnswers(cfg, s.client, s.now, q, r);
      assert q.Resolve? ==> q.ip == ip;
    }
  }

  /** The resolver answers from a registration exactly when there is one; address lookups never do. */
  lemma RegistrationAnswers(cfg: Config, c: Client, now: int, q: Query, r: Answers)
    requires Call(cfg, c, now, q, r).answer.Some?
    ensures q.Resolve? ==> (Call(cfg, c, now, q, r).origin.Registration? <==> r.wg.Some? && r.wg.value != "")
    ensures Call(cfg, c, now, q, r).origin.Registration? ==> q.Resolve? || q.IDFromWG? || q.WGFromID?
  {
    CallIsRecent(cfg, c, now, q, r);
  }

  lemma {:induction false} WatchedLocalIsStamped(cfg: Config, s: Sys, steps: seq<Step>, s': Sys, ip: string,
                                                 local: bool)
    requires Reaches(cfg, s, steps, s') && LocalIsStamped(s, ip, local) && AgeInv(cfg, s)
    ensures LocalIsStamped(s', ip, WatchedLocal(cfg, s, steps, s', ip, local))
    decreases |steps|
  {
    if steps != [] {
      var t := steps[0];
      StepKeepsAgeInv(cfg, s, t);
      if t.SyncSwap? {
        assert GatherInv(cfg, s.gather.value);
      }
      if t.Read? {
        ReadStampsIndex(cfg, s, t.q, t.r, ip, local);
      }
      WatchedLocalIsStamped(cfg, After(cfg, s, t), steps[1..], s', ip, LocalAfter(cfg, s, t, ip, local));
    }
  }

  /** A fresh answer from the IP index was fetched from SMD within its bound if and only if the last write of its entry
      was not a resolution of that very address answered from a registration. */
  lemma IndexAnswersAreYoungExactly(cfg: Config, steps: seq<Step>, s: Sys, q: Query, ip: string)
    requires Reaches(cfg, INITIAL, steps, s) && ServedFresh(cfg, s, q) && Source(s.cache, q) == Some(IndexDatum(ip))
    ensures var d := IndexDatum(ip);
            (d in s.stamps && s.stamps[d].Smd? && s.stamps[d].at >= s.now - AgeBound(cfg, s, d)) <==>
            !WatchedLocal(cfg, INITIAL, steps, s, ip, false)
  {
    WatchedLocalIsStamped(cfg, INITIAL, steps, s, ip, false);
    FreshAnswersAreYoung(cfg, steps, s, q);
  }

  // ---------------------------------------------------------------- the bounds are reached

  ghost predicate StepsTo(cfg: Config, s: Sys, t: Step, s': Sys) {
    Enabled(s, t) && After(cfg, s, t) == s'
  }

  lemma StepThen(cfg: Config, s: Sys, t: Step, s1: Sys, rest: seq<Step>, s': Sys)
    requires StepsTo(cfg, s, t, s1) && Reaches(cfg, s1, rest, s')
    ensures Reaches(cfg, s, [t] + rest, s')
  {
    assert ([t] + rest)[1..] == rest;
  }

  /** A component with one address on one interface, and SMD's answers about it. */
  function Sample(id: Id): Component { Component(id, 0, "", "", "") }

  function SampleAnswers(id: Id, ip: string, groups: Option<seq<string>>): Answers {
    Answers(Some(Sample(id)), groups, Some([Nic("", "", "", "", true)]),
            Some([Iface("", "", "", [IPMapping(ip, "")], id, "")]), None, None)
  }

  function At<T>(v: Option<T>, at: int): Option<Stamped<T>> {
    if v.Some? then Some(Stamped(v.value, at)) else None
  }

  /** The system after a sync over the component that started at `start`, its groups fetched then and its interfaces
      and NICs as of `at`. */
  ghost predicate SyncedSample(s: Sys, start: int, at: int, id: Id, r: Answers) {
    && s.gather.None? && s.lastStart == start && s.lastRun.Some?
    && s.cache == WithEntry(EMPTY_CACHE, Entry(Some(Sample(id)), Fetched(r.groups, r.ifaces, r.nics, r.wg)))
    && s.stamps == EntryStamps(start, Sample(id), At(r.groups, start), At(r.ifaces, at), At(r.nics, at))
  }

  /** Everything but the sync under way and the client's caches is as it was. */
  ghost predicate SameSnapshot(s: Sys, s': Sys) {
    && s'.now == s.now && s'.cache == s.cache && s'.stamps == s.stamps
    && s'.lastRun == s.lastRun && s'.lastStart == s.lastStart && s'.client.wg == s.client.wg
  }

  lemma BeginStep(cfg: Config, s: Sys, x: Component) returns (s': Sys)
    requires s.gather.None?
    ensures StepsTo(cfg, s, SyncBegin([x]), s') && SameSnapshot(s, s')
    ensures s'.gather == Some(Gather(s.now, [x], 0, AtGroups, EMPTY_CACHE, map[]))
    ensures s'.client.ifaces == s.client.ifaces && s'.client.nics == s.client.nics
  {
    s' := After(cfg, s, SyncBegin([x]));
    assert Listed(cfg, s.client, s.now, [x][..0]) == s.client;
  }

  lemma GroupsStep(cfg: Config, s: Sys, r: Answers) returns (s': Sys)
    requires Enabled(s, SyncGroups(r))
    ensures StepsTo(cfg, s, SyncGroups(r), s') && SameSnapshot(s, s') && s'.client == s.client
    ensures s'.gather == Some(s.gather.value.(stage := AtIfaces(At(r.groups, s.now))))
  {
    s' := After(cfg, s, SyncGroups(r));
  }

  lemma IfacesStep(cfg: Config, s: Sys, r: Answers, at: int) returns (s': Sys)
    requires Enabled(s, SyncIfaces(r))
    requires var g := s.gather.value;
             Fetch(s.client.ifaces, cfg.ttl, g.listed[g.done].id, s.now, r.ifaces).answer == At(r.ifaces, at)
    ensures StepsTo(cfg, s, SyncIfaces(r), s') && SameSnapshot(s, s') && s'.client.nics == s.client.nics
    ensures s'.gather == Some(s.gather.value.(stage := AtNics(s.gather.value.stage.groups, At(r.ifaces, at))))
  {
    s' := After(cfg, s, SyncIfaces(r));
  }

  lemma NicsStep(cfg: Config, s: Sys, r: Answers, at: int) returns (s': Sys)
    requires Enabled(s, SyncNics(r))
    requires var g := s.gather.value;
             Fetch(s.client.nics, cfg.ttl, g.listed[g.done].id, s.now, r.nics).answer == At(r.nics, at)
    ensures StepsTo(cfg, s, SyncNics(r), s') && SameSnapshot(s, s')
    ensures s'.gather == Some(WithFinished(s.gather.value, At(r.nics, at), r.wg))
  {
    s' := After(cfg, s, SyncNics(r));
  }

  lemma FinishedSample(g: Gather, start: int, at: int, id: Id, r: Answers)
    requires id != ""
    requires g == Gather(start, [Sample(id)], 0, AtNics(At(r.groups, start), At(r.ifaces, at)), EMPTY_CACHE, map[])
    ensures var g' := WithFinished(g, At(r.nics, at), r.wg);
            && g'.start == start && g'.done == |g'.listed|
            && g'.next == WithEntry(EMPTY_CACHE, Entry(Some(Sample(id)), Fetched(r.groups, r.ifaces, r.nics, r.wg)))
            && g'.stamps == EntryStamps(start, Sample(id), At(r.groups, start), At(r.ifaces, at), At(r.nics, at))
  {
    assert ValueOf(At(r.groups, start)) == r.groups && ValueOf(At(r.ifaces, at)) == r.ifaces;
    assert ValueOf(At(r.nics, at)) == r.nics;
  }

  /** One sync over the component that fetches its parts at once and then takes `duration`. */
  lemma OneSync(cfg: Config, s: Sys, id: Id, r: Answers, at: int, duration: nat) returns (steps: seq<Step>, s': Sys)
    requires s.gather.None? && id != "" && s.client.wg == map[] && r.wg.None?
    requires Fetch(s.client.ifaces, cfg.ttl, id, s.now, r.ifaces).answer == At(r.ifaces, at)
    requires Fetch(s.client.nics, cfg.ttl, id, s.now, r.nics).answer == At(r.nics, at)
    ensures Reaches(cfg, s, steps, s')
    ensures SyncedSample(s', s.now, at, id, r) && s'.now == s.now + duration == s'.lastRun.value
  {
    var s1 := BeginStep(cfg, s, Sample(id));
    var s2 := GroupsStep(cfg, s1, r);
    var s3 := IfacesStep(cfg, s2, r, at);
    var s4 := NicsStep(cfg, s3, r, at);
    FinishedSample(s3.gather.value, s.now, at, id, r);
    var s5;
    s5, s' := SwapLater(cfg, s4, duration);
    steps := SixSteps(cfg, s, SyncBegin([Sample(id)]), s1, SyncGroups(r), s2, SyncIfaces(r), s3, SyncNics(r), s4,
                      Tick(duration), s5, SyncSwap, s');
  }

  lemma SwapLater(cfg: Config, s: Sys, duration: nat) returns (s1: Sys, s': Sys)
    requires s.gather.Some? && s.gather.value.done == |s.gather.value.listed|
    ensures StepsTo(cfg, s, Tick(duration), s1) && StepsTo(cfg, s1, SyncSwap, s')
    ensures s'.now == s.now + duration && s'.lastRun == Some(s'.now) && s'.lastStart == s.gather.value.start
    ensures s'.cache == s.gather.value.next && s'.stamps == s.gather.value.stamps && s'.gather.None?
  {
    s1 := s.(now := s.now + duration);
    s' := After(cfg, s1, SyncSwap);
  }

  lemma SixSteps(cfg: Config, s0: Sys, t1: Step, s1: Sys, t2: Step, s2: Sys, t3: Step, s3: Sys, t4: Step, s4: Sys,
                 t5: Step, s5: Sys, t6: Step, s6: Sys) returns (steps: seq<Step>)
    requires StepsTo(cfg, s0, t1, s1) && StepsTo(cfg, s1, t2, s2) && StepsTo(cfg, s2, t3, s3)
    requires StepsTo(cfg, s3, t4, s4) && StepsTo(cfg, s4, t5, s5) && StepsTo(cfg, s5, t6, s6)
    ensures Reaches(cfg, s0, steps, s6)
  {
    steps := [];
    assert Reaches(cfg, s6, steps, s6);
    StepThen(cfg, s5, t6, s6, steps, s6);
    steps := [t6] + steps;
    StepThen(cfg, s4, t5, s5, steps, s6);
    steps := [t5] + steps;
    StepThen(cfg, s3, t4, s4, steps, s6);
    steps := [t4] + steps;
    StepThen(cfg, s2, t3, s3, steps, s6);
    steps := [t3] + steps;
    StepThen(cfg, s1, t2, s2, steps, s6);
    steps := [t2] + steps;
    StepThen(cfg, s0, t1, s1, steps, s6);
    steps := [t1] + steps;
  }

  ghost predicate StampedAt(s: Sys, d: Datum, at: int) {
    d in s.stamps && s.stamps[d] == Smd(at)
  }

  lemma SampleIsStamped(s: Sys, start: int, at: int, id: Id, ip: string, groups: Option<seq<string>>)
    requires ip != "" && SyncedSample(s, start, at, id, SampleAnswers(id, ip, groups))
    ensures StampedAt(s, ComponentDatum(id), start) && StampedAt(s, IfacesDatum(id), at)
    ensures StampedAt(s, NicsDatum(id), at) && StampedAt(s, IndexDatum(ip), at)
    ensures if groups.Some? then StampedAt(s, GroupsDatum(id), start) else GroupsDatum(id) !in s.stamps
  {
    var ifaces := SampleAnswers(id, ip, groups).ifaces.value;
    SampleAddresses(id, ip, groups);
    assert IndexDatum(ip) in IndexData(ifaces) by {
      assert ("", IPMapping(ip, "")) in Addresses(ifaces);
    }
  }

  lemma SampleAddresses(id: Id, ip: string, groups: Option<seq<string>>)
    ensures Addresses(SampleAnswers(id, ip, groups).ifaces.value) == [("", IPMapping(ip, ""))]
  {
    assert Addresses([]) == [];
  }

  lemma SampleIsServed(s: Sys, start: int, at: int, id: Id, ip: string, groups: Option<seq<string>>)
    requires id != "" && ip != "" && SyncedSample(s, start, at, id, SampleAnswers(id, ip, groups))
    ensures Hit(s.cache, ComponentOf(id)).Some? && Hit(s.cache, IfacesOf(id)).Some? && Hit(s.cache, NicsOf(id)).Some?
    ensures Hit(s.cache, IDFromIP(ip)) == Some(Text(id)) && Hit(s.cache, GroupsOf(id)) == Some(Names(OrEmpty(groups)))
  {
    var ifaces := SampleAnswers(id, ip, groups).ifaces.value;
    SampleAddresses(id, ip, groups);
    IndexedAddresses(map[], Addresses(ifaces), id, ip);
    assert ("", IPMapping(ip, "")) in Addresses(ifaces);
  }

  lemma {:induction false} ReachesCompose(cfg: Config, s: Sys, first: seq<Step>, s1: Sys, second: seq<Step>, s': Sys)
    requires Reaches(cfg, s, first, s1) && Reaches(cfg, s1, second, s')
    ensures Reaches(cfg, s, first + second, s')
    decreases |first|
  {
    if first == [] {
      assert first + second == second;
    } else {
      assert (first + second)[1..] == first[1..] + second;
      ReachesCompose(cfg, After(cfg, s, first[0]), first[1..], s1, second, s');
    }
  }

  /** Some answer from the datum is served fresh and exactly as old as the bound allows. */
  ghost predicate AtBound(cfg: Config, s: Sys, q: Query, d: Datum) {
    && ServedFresh(cfg, s, q) && Source(s.cache, q) == Some(d)
    && StampedAt(s, d, s.now - AgeBound(cfg, s, d))
  }

  /** The interfaces and NICs are in the client's cache, at the end of their time. */
  lemma UsedBefore(cfg: Config, id: Id, r: Answers) returns (steps: seq<Step>, s: Sys)
    requires r.ifaces.Some? && r.nics.Some?
    ensures Reaches(cfg, INITIAL, steps, s) && s.now == cfg.ttl && s.gather.None? && s.client.wg == map[]
    ensures Fetch(s.client.ifaces, cfg.ttl, id, s.now, r.ifaces).answer == At(r.ifaces, 0)
    ensures Fetch(s.client.nics, cfg.ttl, id, s.now, r.nics).answer == At(r.nics, 0)
  {
    var s1 := After(cfg, INITIAL, Use(IfacesOf(id), r));
    var s2 := After(cfg, s1, Use(NicsOf(id), r));
    s := After(cfg, s2, Tick(cfg.ttl));
    steps := [];
    StepThen(cfg, s2, Tick(cfg.ttl), s, steps, s);
    steps := [Tick(cfg.ttl)] + steps;
    StepThen(cfg, s1, Use(NicsOf(id), r), s2, steps, s);
    steps := [Use(NicsOf(id), r)] + steps;
    StepThen(cfg, INITIAL, Use(IfacesOf(id), r), s1, steps, s);
    steps := [Use(IfacesOf(id), r)] + steps;
  }

  /** The bounds are reached: for any settings, any duration of the sync, any component and any address, one run has
      interfaces, NICs, an IP index entry and groups that are exactly as old as their bounds, and a component too if
      the sync takes at least one TTL. */
  lemma AgeBoundIsReached(cfg: Config, id: Id, ip: string, duration: nat) returns (steps: seq<Step>, s: Sys)
    requires id != "" && ip != ""
    ensures Reaches(cfg, INITIAL, steps, s) && s.lastRun.Some? && s.lastRun.value - s.lastStart == duration
    ensures AtBound(cfg, s, IfacesOf(id), IfacesDatum(id)) && AtBound(cfg, s, NicsOf(id), NicsDatum(id))
    ensures AtBound(cfg, s, IDFromIP(ip), IndexDatum(ip)) && AtBound(cfg, s, GroupsOf(id), GroupsDatum(id))
    ensures duration >= cfg.ttl ==> AtBound(cfg, s, ComponentOf(id), ComponentDatum(id))
  {
    var s2;
    steps, s2 := SampleRun(cfg, id, SampleAnswers(id, ip, Some([])), duration);
    s := Waited(cfg, steps, s2);
    steps := steps + [Tick(2 * cfg.interval)];
    SampleAtBounds(cfg, s2, s, id, ip, duration);
  }

  lemma SampleRun(cfg: Config, id: Id, r: Answers, duration: nat) returns (steps: seq<Step>, s: Sys)
    requires id != "" && r.ifaces.Some? && r.nics.Some? && r.wg.None?
    ensures Reaches(cfg, INITIAL, steps, s) && SyncedSample(s, cfg.ttl, 0, id, r)
    ensures s.lastRun == Some(s.now) && s.now == cfg.ttl + duration
  {
    var s1;
    steps, s1 := UsedBefore(cfg, id, r);
    var sync;
    sync, s := OneSync(cfg, s1, id, r, 0, duration);
    ReachesCompose(cfg, INITIAL, steps, s1, sync, s);
    steps := steps + sync;
  }

  lemma SampleAtBounds(cfg: Config, s: Sys, s': Sys, id: Id, ip: string, duration: nat)
    requires id != "" && ip != "" && SyncedSample(s, cfg.ttl, 0, id, SampleAnswers(id, ip, Some([])))
    requires s.lastRun == Some(s.now) && s.now == cfg.ttl + duration
    requires s' == s.(now := s.now + 2 * cfg.interval) && !Stale(cfg, s')
    ensures AtBound(cfg, s', IfacesOf(id), IfacesDatum(id)) && AtBound(cfg, s', NicsOf(id), NicsDatum(id))
    ensures AtBound(cfg, s', IDFromIP(ip), IndexDatum(ip)) && AtBound(cfg, s', GroupsOf(id), GroupsDatum(id))
    ensures duration >= cfg.ttl ==> AtBound(cfg, s', ComponentOf(id), ComponentDatum(id))
  {
    SampleIsStamped(s, cfg.ttl, 0, id, ip, Some([]));
    SampleIsServed(s, cfg.ttl, 0, id, ip, Some([]));
    BoundAfterWait(cfg, s, s', IfacesOf(id), IfacesDatum(id), 0);
    BoundAfterWait(cfg, s, s', NicsOf(id), NicsDatum(id), 0);
    BoundAfterWait(cfg, s, s', IDFromIP(ip), IndexDatum(ip), 0);
    BoundAfterWait(cfg, s, s', GroupsOf(id), GroupsDatum(id), cfg.ttl);
    if duration >= cfg.ttl {
      BoundAfterWait(cfg, s, s', ComponentOf(id), ComponentDatum(id), cfg.ttl);
    }
  }

  lemma BoundAfterWait(cfg: Config, s: Sys, s': Sys, q: Query, d: Datum, at: int)
    requires s' == s.(now := s.now + 2 * cfg.interval) && s.lastRun == Some(s.now) && !Stale(cfg, s')
    requires Hit(s.cache, q).Some? && !q.Resolve? && Source(s.cache, q) == Some(d) && StampedAt(s, d, at)
    requires s'.now - at == AgeBound(cfg, s', d)
    ensures AtBound(cfg, s', q, d)
  {
  }

  /** Two intervals later the snapshot is still fresh. */
  lemma Waited(cfg: Config, steps: seq<Step>, s: Sys) returns (s': Sys)
    requires Reaches(cfg, INITIAL, steps, s) && s.lastRun == Some(s.now)
    ensures s' == s.(now := s.now + 2 * cfg.interval)
    ensures Reaches(cfg, INITIAL, steps + [Tick(2 * cfg.interval)], s') && !Stale(cfg, s')
  {
    s' := After(cfg, s, Tick(2 * cfg.interval));
    StepThen(cfg, s, Tick(2 * cfg.interval), s', [], s');
    assert [Tick(2 * cfg.interval)] + [] == [Tick(2 * cfg.interval)];
    ReachesCompose(cfg, INITIAL, steps, s, [Tick(2 * cfg.interval)], s');
  }

  /** A component reaches its bound also when the sync is shorter than the TTL: one that the sync does not list and
      that a read brings back from the client's cache. */
  lemma ComponentBoundIsReached(cfg: Config, id: Id, duration: nat) returns (steps: seq<Step>, s: Sys)
    requires duration <= cfg.ttl
    ensures Reaches(cfg, INITIAL, steps, s) && s.lastRun.Some? && s.lastRun.value - s.lastStart == duration
    ensures AtBound(cfg, s, ComponentOf(id), ComponentDatum(id))
  {
    var q, r := ComponentOf(id), SampleAnswers(id, "", None);
    var s1 := UseComponent(cfg, id, r);
    var s2, s3, s4, s5 := EmptySyncLater(cfg, s1, cfg.ttl - duration, duration);
    var s6 := RereadStep(cfg, s5, id, r);
    steps := SixSteps(cfg, INITIAL, Use(q, r), s1, Tick(cfg.ttl - duration), s2, SyncBegin([]), s3, Tick(duration), s4,
                      SyncSwap, s5, Read(q, r), s6);
    s := Waited(cfg, steps, s6);
    steps := steps + [Tick(2 * cfg.interval)];
    BoundAfterWait(cfg, s6, s, q, ComponentDatum(id), 0);
  }

  lemma EmptySyncLater(cfg: Config, s: Sys, wait: nat, duration: nat) returns (s2: Sys, s3: Sys, s4: Sys, s5: Sys)
    requires s.gather.None?
    ensures StepsTo(cfg, s, Tick(wait), s2) && StepsTo(cfg, s2, SyncBegin([]), s3)
    ensures StepsTo(cfg, s3, Tick(duration), s4) && StepsTo(cfg, s4, SyncSwap, s5)
    ensures s5 == Sys(s.now + wait + duration, s.client, EMPTY_CACHE, map[], Some(s5.now), s.now + wait, None)
  {
    s2 := s.(now := s.now + wait);
    s3 := s2.(gather := Some(Gather(s2.now, [], 0, AtGroups, EMPTY_CACHE, map[])));
    s4, s5 := SwapLater(cfg, s3, duration);
  }

  lemma UseComponent(cfg: Config, id: Id, r: Answers) returns (s: Sys)
    requires r.comp.Some?
    ensures StepsTo(cfg, INITIAL, Use(ComponentOf(id), r), s)
    ensures s == INITIAL.(client := NO_CLIENT_DATA.(comps := map[id := Timed(r.comp.value, cfg.ttl)]))
  {
    s := After(cfg, INITIAL, Use(ComponentOf(id), r));
  }

  /** A read of a component that only the client still has. */
  lemma RereadStep(cfg: Config, s: Sys, id: Id, r: Answers) returns (s': Sys)
    requires s.cache == EMPTY_CACHE && Live(s.client.comps, id, s.now)
    ensures StepsTo(cfg, s, Read(ComponentOf(id), r), s')
    ensures s'.now == s.now && s'.lastRun == s.lastRun && s'.lastStart == s.lastStart
    ensures Hit(s'.cache, ComponentOf(id)).Some? &&
            StampedAt(s', ComponentDatum(id), s.client.comps[id].expires - cfg.ttl)
  {
    s' := After(cfg, s, Read(ComponentOf(id), r));
  }

  /** The first exception happens: a sync whose group fetch fails leaves a node, and a fresh read then answers no groups
      at all, although nothing of the kind was ever fetched. */
  lemma UnfetchedGroupsAreServed(cfg: Config, id: Id, ip: string) returns (steps: seq<Step>, s: Sys)
    requires id != "" && ip != ""
    ensures Reaches(cfg, INITIAL, steps, s) && ServedFresh(cfg, s, GroupsOf(id))
    ensures Hit(s.cache, GroupsOf(id)) == Some(Names([])) && GroupsDatum(id) !in s.stamps
  {
    var r := SampleAnswers(id, ip, None);
    steps, s := OneSync(cfg, INITIAL, id, r, 0, 0);
    SampleIsStamped(s, 0, 0, id, ip, None);
    SampleIsServed(s, 0, 0, id, ip, None);
  }

  /** And the second: once an address is registered and a sync has not listed its component, resolving the address puts
      it in the IP index, from which it is then answered, and SMD was never asked about it. */
  lemma RegistrationIsIndexed(cfg: Config, id: Id, ip: string) returns (steps: seq<Step>, s: Sys)
    requires id != "" && ip != ""
    ensures Reaches(cfg, INITIAL, steps, s) && ServedFresh(cfg, s, IDFromIP(ip))
    ensures Hit(s.cache, IDFromIP(ip)) == Some(Text(id)) && s.client == NO_CLIENT_DATA.(wg := map[id := ip])
    ensures IndexDatum(ip) in s.stamps && s.stamps[IndexDatum(ip)].Registration?
  {
    var q, r := Resolve(ip), Answers(None, None, None, None, None, Some(id));
    var s1 := After(cfg, INITIAL, Register(id, ip));
    var s2, s3, s4, s5 := EmptySyncLater(cfg, s1, 0, 0);
    s := ResolveStep(cfg, s5, id, ip, r);
    steps := SixSteps(cfg, INITIAL, Register(id, ip), s1, Tick(0), s2, SyncBegin([]), s3, Tick(0), s4, SyncSwap, s5,
                      Read(q, r), s);
  }

  lemma ResolveStep(cfg: Config, s: Sys, id: Id, ip: string, r: Answers) returns (s': Sys)
    requires id != "" && ip != "" && s.cache == EMPTY_CACHE && s.client.wg == map[id := ip] && r.wg == Some(id)
    ensures StepsTo(cfg, s, Read(Resolve(ip), r), s')
    ensures s'.now == s.now && s'.lastRun == s.lastRun && s'.client == s.client
    ensures Hit(s'.cache, IDFromIP(ip)) == Some(Text(id))
    ensures IndexDatum(ip) in s'.stamps && s'.stamps[IndexDatum(ip)].Registration?
  {
    s' := After(cfg, s, Read(Resolve(ip), r));
  }
}
