/** The snapshot cache of pkg/smdclient/integration_service.go: what a read serves from the cache, what it
    writes back, and what a sync builds. The backend's replies are parameters. */
module SmdCache {
  import opened Prelude

  type Id = string

  datatype Component = Component(id: Id, nid: int, role: string, mac: string, ip: string)
  datatype Nic = Nic(redfishID: string, description: string, mac: string, permanentMac: string, enabled: bool)
  datatype IPMapping = IPMapping(ip: string, network: string)
  datatype Iface =
    Iface(id: string, description: string, mac: string, ips: seq<IPMapping>, componentID: string, kind: string)

  datatype Node =
    Node(component: Option<Component>, groups: seq<string>, nics: seq<Nic>, ifaces: seq<Iface>, wgip: string)

  const EMPTY_NODE: Node := Node(None, [], [], [], "")

  datatype Cache = Cache(nodes: map<Id, Node>, ipToID: map<string, Id>, wgipMap: map<string, Id>)

  const EMPTY_CACHE: Cache := Cache(map[], map[], map[])

  // ---------------------------------------------------------------- pkg/smdclient/mock.go: address choice

  predicate IsHMN(network: string) {
    |network| == 3 && network[0] in {'H', 'h'} && network[1] in {'M', 'm'} && network[2] in {'N', 'n'}
  }

  /** Every address of an interface, with its MAC. */
  function AddressesOf(iface: Iface): seq<(string, IPMapping)> {
    seq(|iface.ips|, i requires 0 <= i < |iface.ips| => (iface.mac, iface.ips[i]))
  }

  /** Every address of every interface, in order. */
  function Addresses(ifaces: seq<Iface>): seq<(string, IPMapping)> {
    if ifaces == [] then [] else AddressesOf(ifaces[0]) + Addresses(ifaces[1..])
  }

  function FirstHMN(addrs: seq<(string, IPMapping)>): Option<(string, IPMapping)> {
    if addrs == [] then None else if IsHMN(addrs[0].1.network) then Some(addrs[0]) else FirstHMN(addrs[1..])
  }

  function FirstIP(addrs: seq<(string, IPMapping)>): string {
    if addrs == [] then "" else if addrs[0].1.ip != "" then addrs[0].1.ip else FirstIP(addrs[1..])
  }

  function FirstMAC(ifaces: seq<Iface>): string {
    if ifaces == [] then "" else if ifaces[0].mac != "" then ifaces[0].mac else FirstMAC(ifaces[1..])
  }

  /** pickHMNIP: the first HMN address, whatever it is, else the first non-empty one. */
  function PickIP(ifaces: seq<Iface>): string {
    match FirstHMN(Addresses(ifaces))
    case Some((_, m)) => m.ip
    case None => FirstIP(Addresses(ifaces))
  }

  /** pickHMNMAC. */
  function PickMAC(ifaces: seq<Iface>): string {
    match FirstHMN(Addresses(ifaces))
    case Some((mac, _)) => mac
    case None => FirstMAC(ifaces)
  }

  // ---------------------------------------------------------------- reads

  datatype Query =
    | Resolve(ip: string) | IDFromIP(ip: string) | IDFromWG(wgip: string)
    | IPFromID(id: Id) | MACFromID(id: Id) | WGFromID(id: Id)
    | ComponentOf(id: Id) | GroupsOf(id: Id) | NicsOf(id: Id) | IfacesOf(id: Id)

  datatype Value = Text(s: string) | Comp(c: Component) | Names(names: seq<string>)
                 | NicList(nics: seq<Nic>) | IfaceList(ifaces: seq<Iface>)

  /** A reply of the kind the query asks for; the resolver discards an empty id. */
  predicate Fits(q: Query, v: Value) {
    match q
    case ComponentOf(_) => v.Comp?
    case GroupsOf(_) => v.Names?
    case NicsOf(_) => v.NicList?
    case IfacesOf(_) => v.IfaceList?
    case Resolve(_) => v.Text? && v.s != ""
    case _ => v.Text?
  }

  function Lookup(m: map<string, Id>, key: string): Option<Value> {
    if key in m && m[key] != "" then Some(Text(m[key])) else None
  }

  /** Go's zero value for a missing node. */
  function NodeOf(c: Cache, id: Id): Node {
    if id in c.nodes then c.nodes[id] else EMPTY_NODE
  }

  /** What a cache that is not stale answers by itself. */
  function Hit(c: Cache, q: Query): Option<Value> {
    match q
    case Resolve(ip) => if Lookup(c.wgipMap, ip).Some? then Lookup(c.wgipMap, ip) else Lookup(c.ipToID, ip)
    case IDFromIP(ip) => Lookup(c.ipToID, ip)
    case IDFromWG(wgip) => Lookup(c.wgipMap, wgip)
    case IPFromID(id) =>
      var n := NodeOf(c, id);
      if PickIP(n.ifaces) != "" then Some(Text(PickIP(n.ifaces)))
      else if n.component.Some? && n.component.value.ip != "" then Some(Text(n.component.value.ip)) else None
    case MACFromID(id) =>
      var n := NodeOf(c, id);
      if PickMAC(n.ifaces) != "" then Some(Text(PickMAC(n.ifaces)))
      else if n.component.Some? && n.component.value.mac != "" then Some(Text(n.component.value.mac)) else None
    case WGFromID(id) => if NodeOf(c, id).wgip != "" then Some(Text(NodeOf(c, id).wgip)) else None
    case ComponentOf(id) =>
      (match NodeOf(c, id).component case Some(x) => Some(Comp(x)) case None => None)
    case GroupsOf(id) => if id in c.nodes then Some(Names(c.nodes[id].groups)) else None
    case NicsOf(id) => if NodeOf(c, id).nics != [] then Some(NicList(NodeOf(c, id).nics)) else None
    case IfacesOf(id) => if NodeOf(c, id).ifaces != [] then Some(IfaceList(NodeOf(c, id).ifaces)) else None
  }

  /** What is served when the backend fails, stale or not. */
  function Fallback(c: Cache, q: Query): Option<Value> {
    match q
    case NicsOf(id) => if id in c.nodes then Some(NicList(c.nodes[id].nics)) else None
    case IfacesOf(id) => if id in c.nodes then Some(IfaceList(c.nodes[id].ifaces)) else None
    case _ => Hit(c, q)
  }

  function CacheIP(c: Cache, ip: string, id: Id): Cache {
    if ip == "" || id == "" then c else c.(ipToID := c.ipToID[ip := id])
  }

  function CacheWG(c: Cache, id: Id, wgip: string): Cache {
    if id == "" || wgip == "" then c
    else c.(nodes := c.nodes[id := NodeOf(c, id).(wgip := wgip)], wgipMap := c.wgipMap[wgip := id])
  }

  function IndexAddresses(m: map<string, Id>, addrs: seq<(string, IPMapping)>, id: Id): map<string, Id> {
    if addrs == [] then m
    else
      var m' := IndexAddresses(m, addrs[..|addrs| - 1], id);
      var ip := addrs[|addrs| - 1].1.ip;
      if ip == "" then m' else m'[ip := id]
  }

  /** The write-back of a backend reply. */
  function Store(c: Cache, q: Query, v: Value): Cache
    requires Fits(q, v)
  {
    match q
    case Resolve(ip) => CacheIP(c, ip, v.s)
    case IDFromIP(ip) => CacheIP(c, ip, v.s)
    case IDFromWG(wgip) => CacheWG(c, v.s, wgip)
    case IPFromID(id) => CacheIP(c, v.s, id)
    case MACFromID(_) => c
    case WGFromID(id) => CacheWG(c, id, v.s)
    case ComponentOf(id) =>
      c.(nodes := c.nodes[id := NodeOf(c, id).(component := Some(v.c))],
         ipToID := if v.c.ip != "" then c.ipToID[v.c.ip := id] else c.ipToID)
    case GroupsOf(id) => c.(nodes := c.nodes[id := NodeOf(c, id).(groups := v.names)])
    case NicsOf(id) => c.(nodes := c.nodes[id := NodeOf(c, id).(nics := v.nics)])
    case IfacesOf(id) =>
      c.(nodes := c.nodes[id := NodeOf(c, id).(ifaces := v.ifaces)],
         ipToID := IndexAddresses(c.ipToID, Addresses(v.ifaces), id))
  }

  /** isCacheStale: with sync enabled, never synced or not for two intervals. */
  predicate IsStale(syncEnabled: bool, interval: int, lastRun: Option<int>, now: int) {
    syncEnabled && (lastRun.None? || now - lastRun.value > 2 * interval)
  }

  /** With sync disabled the cache never is; with sync enabled it is until the first sync, and then from just after two
      intervals since the last one. */
  lemma StaleAfterTwoIntervals(interval: int, last: int, now: int)
    ensures !IsStale(false, interval, None, now) && !IsStale(false, interval, Some(last), now)
    ensures IsStale(true, interval, None, now)
    ensures !IsStale(true, interval, Some(last), last + 2 * interval)
    ensures IsStale(true, interval, Some(last), last + 2 * interval + 1)
  {
  }

  datatype Reading = Reading(answer: Option<Value>, cache: Cache)

  /** A read: fresh cache first, then the backend with write-back, then whatever the cache still holds. */
  function Read(c: Cache, q: Query, stale: bool, reply: Option<Value>): Reading
    requires reply.Some? ==> Fits(q, reply.value)
  {
    if q == Resolve("") then Reading(None, c)
    else if !stale && Hit(c, q).Some? then Reading(Hit(c, q), c)
    else if reply.Some? then Reading(reply, Store(c, q, reply.value))
    else Reading(Fallback(c, q), c)
  }

  function OrBlank(m: map<string, Id>, key: string): Id {
    if key in m then m[key] else ""
  }

  /** Which index answers for an address: a WireGuard entry before any IP entry, from a fresh cache or when the backend
      gives no id; the backend's id otherwise. */
  lemma ResolvePrefersWireGuard(c: Cache, ip: string, stale: bool, reply: Option<Id>)
    requires ip != "" && (reply.Some? ==> reply.value != "")
    ensures var answer := Read(c, Resolve(ip), stale, if reply.Some? then Some(Text(reply.value)) else None).answer;
            var wg, own := OrBlank(c.wgipMap, ip), OrBlank(c.ipToID, ip);
            if stale && reply.Some? then answer == Some(Text(reply.value))
            else if wg != "" then answer == Some(Text(wg))
            else if own != "" then answer == Some(Text(own))
            else if reply.Some? then answer == Some(Text(reply.value))
            else answer.None?
  {
  }

  /** What a backend reply leaves behind is what a fresh read of the same query then gives; an address goes to the id it
      was resolved to or belongs to. */
  lemma WriteBackIsRead(c: Cache, q: Query, v: Value)
    requires Fits(q, v)
    ensures var c' := Store(c, q, v);
            match q
            case ComponentOf(_) => Hit(c', q) == Some(v)
            case GroupsOf(_) => Hit(c', q) == Some(v)
            case NicsOf(_) => v.nics != [] ==> Hit(c', q) == Some(v)
            case IfacesOf(_) => v.ifaces != [] ==> Hit(c', q) == Some(v)
            case IDFromIP(ip) => ip != "" && v.s != "" ==> Hit(c', q) == Some(v)
            case Resolve(ip) => ip != "" ==> Hit(c', IDFromIP(ip)) == Some(v)
            case IDFromWG(w) =>
              w != "" && v.s != "" ==> Hit(c', q) == Some(v) && Hit(c', WGFromID(v.s)) == Some(Text(w))
            case WGFromID(id) =>
              id != "" && v.s != "" ==> Hit(c', q) == Some(v) && Hit(c', IDFromWG(v.s)) == Some(Text(id))
            case IPFromID(id) => id != "" && v.s != "" ==> Hit(c', IDFromIP(v.s)) == Some(Text(id))
            case MACFromID(_) => c' == c
  {
  }

  /** The addresses of a component and of its interfaces are indexed with it. */
  lemma WriteBackIndexesAddresses(c: Cache, id: Id, x: Component, ifaces: seq<Iface>, ip: string)
    requires id != "" && ip != ""
    ensures x.ip == ip ==> Hit(Store(c, ComponentOf(id), Comp(x)), IDFromIP(ip)) == Some(Text(id))
    ensures (exists a :: a in Addresses(ifaces) && a.1.ip == ip) ==>
              Hit(Store(c, IfacesOf(id), IfaceList(ifaces)), IDFromIP(ip)) == Some(Text(id))
  {
    IndexedAddresses(c.ipToID, Addresses(ifaces), id, ip);
  }

  /** Only a WireGuard reply changes WireGuard data, and then only of the pair it names; and it changes nothing else. */
  lemma WriteBackKeepsWireGuard(c: Cache, q: Query, v: Value, id: Id, w: string)
    requires Fits(q, v)
    ensures var c' := Store(c, q, v);
            && (!(q.WGFromID? && q.id == id) && !(q.IDFromWG? && v.s == id) ==>
                  NodeOf(c', id).wgip == NodeOf(c, id).wgip)
            && (!(q.WGFromID? && v.s == w) && !(q.IDFromWG? && q.wgip == w) ==>
                  OrBlank(c'.wgipMap, w) == OrBlank(c.wgipMap, w))
            && (q.WGFromID? || q.IDFromWG? ==>
                  && c'.ipToID == c.ipToID
                  && NodeOf(c', id).(wgip := "") == NodeOf(c, id).(wgip := ""))
  {
  }

  // ---------------------------------------------------------------- sync

  /** What one sync learned about one listed component; `None` is a failed fetch. */
  datatype Fetched = Fetched(
    groups: Option<seq<string>>, ifaces: Option<seq<Iface>>, nics: Option<seq<Nic>>, wgip: Option<string>)

  datatype Entry = Entry(component: Option<Component>, got: Fetched) {
    /** Nil components and components without an id are skipped. */
    predicate Counts() { component.Some? && component.value.id != "" }
  }

  function OrEmpty<T>(s: Option<seq<T>>): seq<T> {
    if s.Some? then s.value else []
  }

  function WGOf(e: Entry): string {
    if e.got.wgip.Some? then e.got.wgip.value else ""
  }

  function SnapshotOf(e: Entry): Node
    requires e.Counts()
  {
    Node(e.component, OrEmpty(e.got.groups), OrEmpty(e.got.nics), OrEmpty(e.got.ifaces), WGOf(e))
  }

  function WithEntry(c: Cache, e: Entry): Cache {
    if !e.Counts() then c
    else
      var id, ip := e.component.value.id, e.component.value.ip;
      var own := if ip != "" then c.ipToID[ip := id] else c.ipToID;
      Cache(c.nodes[id := SnapshotOf(e)],
            IndexAddresses(own, Addresses(OrEmpty(e.got.ifaces)), id),
            if WGOf(e) != "" then c.wgipMap[WGOf(e) := id] else c.wgipMap)
  }

  /** The cache a sync over these entries puts in place. */
  function Synced(entries: seq<Entry>): Cache {
    if entries == [] then EMPTY_CACHE
    else WithEntry(Synced(entries[..|entries| - 1]), entries[|entries| - 1])
  }

  /** The entry's component holds `ip` itself or through a fetched interface. */
  ghost predicate Claims(e: Entry, ip: string) {
    && e.Counts() && ip != ""
    && (e.component.value.ip == ip || exists a :: a in Addresses(OrEmpty(e.got.ifaces)) && a.1.ip == ip)
  }

  ghost predicate ClaimsWG(e: Entry, wgip: string) {
    e.Counts() && wgip != "" && WGOf(e) == wgip
  }

  lemma {:induction false} IndexedAddresses(m: map<string, Id>, addrs: seq<(string, IPMapping)>, id: Id, ip: string)
    ensures var m' := IndexAddresses(m, addrs, id);
            var claimed := ip != "" && exists a :: a in addrs && a.1.ip == ip;
            && (ip in m' <==> claimed || ip in m)
            && (ip in m' ==> m'[ip] == if claimed then id else m[ip])
  {
    if addrs != [] {
      var front, last := addrs[..|addrs| - 1], addrs[|addrs| - 1];
      assert addrs == front + [last];
      IndexedAddresses(m, front, id, ip);
      assert forall a :: a in addrs <==> a in front || a == last;
    }
  }

  /** One more entry takes over exactly the addresses it claims. */
  lemma EntryTakesOver(c: Cache, e: Entry, ip: string)
    ensures ip in WithEntry(c, e).ipToID <==> Claims(e, ip) || ip in c.ipToID
    ensures ip in WithEntry(c, e).ipToID ==>
              WithEntry(c, e).ipToID[ip] == if Claims(e, ip) then e.component.value.id else c.ipToID[ip]
  {
    if e.Counts() {
      var x := e.component.value;
      var own := if x.ip != "" then c.ipToID[x.ip := x.id] else c.ipToID;
      IndexedAddresses(own, Addresses(OrEmpty(e.got.ifaces)), x.id, ip);
    }
  }

  /** After a sync the IP index agrees with a linear scan: an address is indexed exactly when some listed
      component claims it, and then to the last one that does. */
  lemma {:induction false} IPIndexIsLastClaimant(entries: seq<Entry>, ip: string)
    ensures ip in Synced(entries).ipToID <==> exists i :: 0 <= i < |entries| && Claims(entries[i], ip)
    ensures forall i :: 0 <= i < |entries| && Claims(entries[i], ip)
                        && (forall j :: i < j < |entries| ==> !Claims(entries[j], ip)) ==>
              Synced(entries).ipToID[ip] == entries[i].component.value.id
  {
    if entries != [] {
      var n := |entries| - 1;
      var front := entries[..n];
      IPIndexIsLastClaimant(front, ip);
      EntryTakesOver(Synced(front), entries[n], ip);
      assert forall i :: 0 <= i < n ==> Claims(front[i], ip) == Claims(entries[i], ip);
      if i :| 0 <= i < |entries| && Claims(entries[i], ip) {
        assert i == n || Claims(front[i], ip);
      }
    }
  }

  lemma EntryTakesWG(c: Cache, e: Entry, wgip: string)
    ensures wgip in WithEntry(c, e).wgipMap <==> ClaimsWG(e, wgip) || wgip in c.wgipMap
    ensures wgip in WithEntry(c, e).wgipMap ==>
              WithEntry(c, e).wgipMap[wgip] == if ClaimsWG(e, wgip) then e.component.value.id else c.wgipMap[wgip]
  {
  }

  /** Likewise the WireGuard index. */
  lemma {:induction false} WGIndexIsLastClaimant(entries: seq<Entry>, wgip: string)
    ensures wgip in Synced(entries).wgipMap <==> exists i :: 0 <= i < |entries| && ClaimsWG(entries[i], wgip)
    ensures forall i :: 0 <= i < |entries| && ClaimsWG(entries[i], wgip)
                        && (forall j :: i < j < |entries| ==> !ClaimsWG(entries[j], wgip)) ==>
              Synced(entries).wgipMap[wgip] == entries[i].component.value.id
  {
    if entries != [] {
      var n := |entries| - 1;
      var front := entries[..n];
      WGIndexIsLastClaimant(front, wgip);
      EntryTakesWG(Synced(front), entries[n], wgip);
      assert forall i :: 0 <= i < n ==> ClaimsWG(front[i], wgip) == ClaimsWG(entries[i], wgip);
      if i :| 0 <= i < |entries| && ClaimsWG(entries[i], wgip) {
        assert i == n || ClaimsWG(front[i], wgip);
      }
    }
  }

  ghost predicate Lists(e: Entry, id: Id) {
    e.Counts() && e.component.value.id == id
  }

  lemma SyncedNodes(entries: seq<Entry>)
    requires entries != []
    ensures var front, e := Synced(entries[..|entries| - 1]).nodes, entries[|entries| - 1];
            Synced(entries).nodes == if e.Counts() then front[e.component.value.id := SnapshotOf(e)] else front
  {
  }

  /** And a node is the snapshot of the last entry that lists its id. */
  lemma {:induction false} NodesAreLastSnapshots(entries: seq<Entry>, id: Id, i: nat)
    requires i < |entries| && Lists(entries[i], id)
    requires forall j :: i < j < |entries| ==> !Lists(entries[j], id)
    ensures id in Synced(entries).nodes && Synced(entries).nodes[id] == SnapshotOf(entries[i])
  {
    SyncedNodes(entries);
    var n := |entries| - 1;
    if i < n {
      NodesAreLastSnapshots(entries[..n], id, i);
      assert !Lists(entries[n], id);
    }
  }
}
