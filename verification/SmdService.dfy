/** SMDIntegrationService (pkg/smdclient/integration_service.go) as an object whose maps are replaced by a sync
    and written back to by reads. Each method is proved to be the read or the sync of SmdCache. */
module SmdService {
  import opened Prelude
  import opened SmdCache

  // ---------------------------------------------------------------- the searches of mock.go

  lemma {:induction false} AddressesSnoc(ifaces: seq<Iface>, iface: Iface)
    ensures Addresses(ifaces + [iface]) == Addresses(ifaces) + AddressesOf(iface)
  {
    if ifaces == [] {
      assert (ifaces + [iface])[1..] == [];
    } else {
      assert (ifaces + [iface])[1..] == ifaces[1..] + [iface];
      AddressesSnoc(ifaces[1..], iface);
    }
  }

  lemma {:induction false} FirstHMNOfAppend(a: seq<(string, IPMapping)>, b: seq<(string, IPMapping)>)
    ensures FirstHMN(a + b) == if FirstHMN(a).Some? then FirstHMN(a) else FirstHMN(b)
    ensures FirstIP(a + b) == if FirstIP(a) != "" then FirstIP(a) else FirstIP(b)
  {
    if a == [] {
      assert a + b == b;
    } else {
      assert (a + b)[1..] == a[1..] + b;
      FirstHMNOfAppend(a[1..], b);
    }
  }

  /** The addresses before the `k`-th of interface `j`. */
  ghost function Before(ifaces: seq<Iface>, j: nat, k: nat): seq<(string, IPMapping)>
    requires j < |ifaces| && k <= |ifaces[j].ips|
  {
    Addresses(ifaces[..j]) + AddressesOf(ifaces[j])[..k]
  }

  lemma BeforeNext(ifaces: seq<Iface>, j: nat, k: nat)
    requires j < |ifaces| && k < |ifaces[j].ips|
    ensures Before(ifaces, j, k + 1) == Before(ifaces, j, k) + [(ifaces[j].mac, ifaces[j].ips[k])]
  {
  }

  lemma BeforeEnd(ifaces: seq<Iface>, j: nat)
    requires j < |ifaces|
    ensures Before(ifaces, j, |ifaces[j].ips|) == Addresses(ifaces[..j + 1])
    ensures Before(ifaces, j, 0) == Addresses(ifaces[..j])
  {
    assert ifaces[..j + 1] == ifaces[..j] + [ifaces[j]];
    AddressesSnoc(ifaces[..j], ifaces[j]);
  }

  lemma AddressesAround(ifaces: seq<Iface>, j: nat, k: nat) returns (rest: seq<(string, IPMapping)>)
    requires j < |ifaces| && k < |ifaces[j].ips|
    ensures Addresses(ifaces) == Before(ifaces, j, k) + ([(ifaces[j].mac, ifaces[j].ips[k])] + rest)
  {
    var own := AddressesOf(ifaces[j]);
    rest := own[k + 1..] + Addresses(ifaces[j + 1..]);
    AddressesSplit(ifaces, j);
    Regrouped(Addresses(ifaces[..j]), own, Addresses(ifaces[j + 1..]), k);
  }

  lemma Regrouped<T>(a: seq<T>, b: seq<T>, c: seq<T>, k: nat)
    requires k < |b|
    ensures a + b + c == (a + b[..k]) + ([b[k]] + (b[k + 1..] + c))
  {
  }

  lemma RestHMN(ifaces: seq<Iface>, j: nat, k: nat)
    requires j < |ifaces| && k < |ifaces[j].ips|
    ensures var a := (ifaces[j].mac, ifaces[j].ips[k]);
            && (FirstHMN(Before(ifaces, j, k)).None? && IsHMN(a.1.network) ==> FirstHMN(Addresses(ifaces)) == Some(a))
            && (FirstIP(Before(ifaces, j, k)) == "" && a.1.ip != "" ==> FirstIP(Addresses(ifaces)) == a.1.ip)
  {
    var rest := AddressesAround(ifaces, j, k);
    FirstHMNOfAppend(Before(ifaces, j, k), [(ifaces[j].mac, ifaces[j].ips[k])] + rest);
  }

  lemma {:induction false} AddressesSplit(ifaces: seq<Iface>, j: nat)
    requires j < |ifaces|
    ensures Addresses(ifaces) == Addresses(ifaces[..j]) + AddressesOf(ifaces[j]) + Addresses(ifaces[j + 1..])
  {
    if j > 0 {
      AddressesSplit(ifaces[1..], j - 1);
      assert ifaces[..j][1..] == ifaces[1..][..j - 1] && ifaces[1..][j..] == ifaces[j + 1..];
    }
  }

  // ---------------------------------------------------------------- what they find, by position

  function Upper(s: string): string {
    seq(|s|, i requires 0 <= i < |s| => if 'a' <= s[i] <= 'z' then (s[i] as int - 32) as char else s[i])
  }

  lemma IsHMNMeans(network: string)
    ensures IsHMN(network) <==> Upper(network) == "HMN"
  {
    var u := Upper(network);
    if u == "HMN" {
      assert u[0] == 'H' && u[1] == 'M' && u[2] == 'N';
    }
  }

  /** The network of address `k` of interface `j` is HMN, ignoring case. */
  ghost predicate HMNAt(ifaces: seq<Iface>, j: nat, k: nat) {
    j < |ifaces| && k < |ifaces[j].ips| && Upper(ifaces[j].ips[k].network) == "HMN"
  }

  ghost predicate AddressAt(ifaces: seq<Iface>, j: nat, k: nat) {
    j < |ifaces| && k < |ifaces[j].ips| && ifaces[j].ips[k].ip != ""
  }

  predicate Earlier(j: nat, k: nat, j': nat, k': nat) {
    j < j' || (j == j' && k < k')
  }

  lemma {:induction false} NothingBefore(ifaces: seq<Iface>, j: nat, k: nat)
    requires j < |ifaces| && k <= |ifaces[j].ips|
    ensures (forall x: nat, y: nat :: Earlier(x, y, j, k) ==> !HMNAt(ifaces, x, y)) ==>
              FirstHMN(Before(ifaces, j, k)).None?
    ensures (forall x: nat, y: nat :: Earlier(x, y, j, k) ==> !AddressAt(ifaces, x, y)) ==>
              FirstIP(Before(ifaces, j, k)) == ""
    decreases j, k
  {
    BeforeEnd(ifaces, j);
    if k > 0 {
      NothingBefore(ifaces, j, k - 1);
      BeforeNext(ifaces, j, k - 1);
      IsHMNMeans(ifaces[j].ips[k - 1].network);
      FirstHMNOfAppend(Before(ifaces, j, k - 1), [(ifaces[j].mac, ifaces[j].ips[k - 1])]);
      assert Earlier(j, k - 1, j, k);
      assert forall x: nat, y: nat :: Earlier(x, y, j, k - 1) ==> Earlier(x, y, j, k);
    } else if j > 0 {
      NothingBefore(ifaces, j - 1, |ifaces[j - 1].ips|);
      BeforeEnd(ifaces, j - 1);
      assert forall x: nat, y: nat :: Earlier(x, y, j - 1, |ifaces[j - 1].ips|) ==> Earlier(x, y, j, k);
    }
  }

  /** The first HMN address decides, and its interface's MAC. */
  lemma PicksFirstHMN(ifaces: seq<Iface>, j: nat, k: nat)
    requires HMNAt(ifaces, j, k) && forall x: nat, y: nat :: Earlier(x, y, j, k) ==> !HMNAt(ifaces, x, y)
    ensures PickIP(ifaces) == ifaces[j].ips[k].ip && PickMAC(ifaces) == ifaces[j].mac
  {
    NothingBefore(ifaces, j, k);
    IsHMNMeans(ifaces[j].ips[k].network);
    RestHMN(ifaces, j, k);
  }

  lemma NoHMN(ifaces: seq<Iface>)
    requires forall x: nat, y: nat :: !HMNAt(ifaces, x, y)
    ensures FirstHMN(Addresses(ifaces)).None?
  {
    if ifaces != [] {
      var n := |ifaces| - 1;
      NothingBefore(ifaces, n, |ifaces[n].ips|);
      BeforeEnd(ifaces, n);
      assert ifaces[..n + 1] == ifaces;
    }
  }

  /** Without one, the first address that is not empty, if there is one. */
  lemma PicksFirstAddress(ifaces: seq<Iface>, j: nat, k: nat)
    requires forall x: nat, y: nat :: !HMNAt(ifaces, x, y)
    requires AddressAt(ifaces, j, k) && forall x: nat, y: nat :: Earlier(x, y, j, k) ==> !AddressAt(ifaces, x, y)
    ensures PickIP(ifaces) == ifaces[j].ips[k].ip
  {
    NoHMN(ifaces);
    NothingBefore(ifaces, j, k);
    RestHMN(ifaces, j, k);
  }

  lemma PicksNothing(ifaces: seq<Iface>)
    requires forall x: nat, y: nat :: !HMNAt(ifaces, x, y) && !AddressAt(ifaces, x, y)
    ensures PickIP(ifaces) == ""
  {
    NoHMN(ifaces);
    if ifaces != [] {
      var n := |ifaces| - 1;
      NothingBefore(ifaces, n, |ifaces[n].ips|);
      BeforeEnd(ifaces, n);
      assert ifaces[..n + 1] == ifaces;
    }
  }

  /** And the first MAC that is not empty. */
  lemma PicksFirstMAC(ifaces: seq<Iface>, j: nat)
    requires forall x: nat, y: nat :: !HMNAt(ifaces, x, y)
    requires j < |ifaces| && forall x :: 0 <= x < j ==> ifaces[x].mac == ""
    ensures ifaces[j].mac != "" ==> PickMAC(ifaces) == ifaces[j].mac
    ensures ifaces[j].mac == "" && j == |ifaces| - 1 ==> PickMAC(ifaces) == ""
  {
    NoHMN(ifaces);
    FirstMACFrom(ifaces, j);
  }

  lemma {:induction false} FirstMACFrom(ifaces: seq<Iface>, j: nat)
    requires j < |ifaces| && forall x :: 0 <= x < j ==> ifaces[x].mac == ""
    ensures ifaces[j].mac != "" ==> FirstMAC(ifaces) == ifaces[j].mac
    ensures ifaces[j].mac == "" && j == |ifaces| - 1 ==> FirstMAC(ifaces) == ""
  {
    if j > 0 {
      FirstMACFrom(ifaces[1..], j - 1);
    }
  }

  /** pickHMNIP. */
  method PickHMNIP(ifaces: seq<Iface>) returns (ip: string)
    ensures ip == PickIP(ifaces)
  {
    for j := 0 to |ifaces|
      invariant FirstHMN(Addresses(ifaces[..j])).None?
    {
      BeforeEnd(ifaces, j);
      for k := 0 to |ifaces[j].ips|
        invariant FirstHMN(Before(ifaces, j, k)).None?
      {
        if IsHMN(ifaces[j].ips[k].network) {
          RestHMN(ifaces, j, k);
          return ifaces[j].ips[k].ip;
        }
        BeforeNext(ifaces, j, k);
        FirstHMNOfAppend(Before(ifaces, j, k), [(ifaces[j].mac, ifaces[j].ips[k])]);
      }
    }
    assert ifaces[..|ifaces|] == ifaces;
    for j := 0 to |ifaces|
      invariant FirstIP(Addresses(ifaces[..j])) == ""
    {
      BeforeEnd(ifaces, j);
      for k := 0 to |ifaces[j].ips|
        invariant FirstIP(Before(ifaces, j, k)) == ""
      {
        if ifaces[j].ips[k].ip != "" {
          RestHMN(ifaces, j, k);
          return ifaces[j].ips[k].ip;
        }
        BeforeNext(ifaces, j, k);
        FirstHMNOfAppend(Before(ifaces, j, k), [(ifaces[j].mac, ifaces[j].ips[k])]);
      }
    }
    return "";
  }

  /** pickHMNMAC. */
  method PickHMNMAC(ifaces: seq<Iface>) returns (mac: string)
    ensures mac == PickMAC(ifaces)
  {
    for j := 0 to |ifaces|
      invariant FirstHMN(Addresses(ifaces[..j])).None?
    {
      BeforeEnd(ifaces, j);
      for k := 0 to |ifaces[j].ips|
        invariant FirstHMN(Before(ifaces, j, k)).None?
      {
        if IsHMN(ifaces[j].ips[k].network) {
          RestHMN(ifaces, j, k);
          return ifaces[j].mac;
        }
        BeforeNext(ifaces, j, k);
        FirstHMNOfAppend(Before(ifaces, j, k), [(ifaces[j].mac, ifaces[j].ips[k])]);
      }
    }
    assert ifaces[..|ifaces|] == ifaces;
    for j := 0 to |ifaces|
      invariant FirstMAC(ifaces) == FirstMAC(ifaces[j..])
    {
      if ifaces[j].mac != "" {
        return ifaces[j].mac;
      }
    }
    return "";
  }

  // ---------------------------------------------------------------- the service

  lemma IndexOneMore(m: map<string, Id>, addrs: seq<(string, IPMapping)>, a: (string, IPMapping), id: Id)
    ensures IndexAddresses(m, addrs + [a], id) ==
            var m' := IndexAddresses(m, addrs, id); if a.1.ip == "" then m' else m'[a.1.ip := id]
  {
    assert (addrs + [a])[..|addrs|] == addrs;
  }

  /** The index loop over one component's interfaces. */
  method IndexInterfaces(m: map<string, Id>, ifaces: seq<Iface>, id: Id) returns (m': map<string, Id>)
    ensures m' == IndexAddresses(m, Addresses(ifaces), id)
  {
    m' := m;
    for j := 0 to |ifaces|
      invariant m' == IndexAddresses(m, Addresses(ifaces[..j]), id)
    {
      BeforeEnd(ifaces, j);
      for k := 0 to |ifaces[j].ips|
        invariant m' == IndexAddresses(m, Before(ifaces, j, k), id)
      {
        BeforeNext(ifaces, j, k);
        IndexOneMore(m, Before(ifaces, j, k), (ifaces[j].mac, ifaces[j].ips[k]), id);
        if ifaces[j].ips[k].ip != "" {
          m' := m'[ifaces[j].ips[k].ip := id];
        }
      }
    }
    assert ifaces[..|ifaces|] == ifaces;
  }

  function AsText(r: Option<string>): Option<Value> {
    if r.Some? then Some(Text(r.value)) else None
  }

  class Service {
    const syncEnabled: bool
    const syncInterval: int
    var nodes: map<Id, Node>
    var ipToID: map<string, Id>
    var wgipMap: map<string, Id>
    var lastRun: Option<int>

    function View(): Cache
      reads this
    {
      Cache(nodes, ipToID, wgipMap)
    }

    /** isCacheStale at time `now`. */
    predicate Stale(now: int)
      reads this`lastRun
    {
      IsStale(syncEnabled, syncInterval, lastRun, now)
    }

    constructor (syncEnabled: bool, syncInterval: int)
      ensures View() == EMPTY_CACHE && lastRun.None? && this.syncEnabled == syncEnabled
      ensures this.syncInterval == if syncInterval <= 0 then 300_000_000_000 else syncInterval
    {
      this.syncEnabled := syncEnabled;
      this.syncInterval := if syncInterval <= 0 then 300_000_000_000 else syncInterval;
      nodes, ipToID, wgipMap, lastRun := map[], map[], map[], None;
    }

    /** syncOnce; `listed` is `None` when there is no lister, the context is done, or listing fails. */
    method SyncOnce(listed: Option<seq<Entry>>, now: int) returns (ok: bool)
      modifies this
      ensures ok == listed.Some?
      ensures ok ==> View() == Synced(listed.value) && lastRun == Some(now)
      ensures !ok ==> View() == old(View()) && lastRun == old(lastRun)
    {
      if listed.None? {
        return false;
      }
      var entries := listed.value;
      var nextNodes: map<Id, Node> := map[];
      var nextIP: map<string, Id> := map[];
      var nextWG: map<string, Id> := map[];
      for i := 0 to |entries|
        invariant Cache(nextNodes, nextIP, nextWG) == Synced(entries[..i])
        invariant nodes == old(nodes) && ipToID == old(ipToID) && wgipMap == old(wgipMap) && lastRun == old(lastRun)
      {
        var e := entries[i];
        assert entries[..i + 1][..i] == entries[..i];
        if e.component.Some? && e.component.value.id != "" {
          var id := e.component.value.id;
          if e.got.wgip.Some? && e.got.wgip.value != "" {
            nextWG := nextWG[e.got.wgip.value := id];
          }
          if e.component.value.ip != "" {
            nextIP := nextIP[e.component.value.ip := id];
          }
          nextIP := IndexInterfaces(nextIP, OrEmpty(e.got.ifaces), id);
          nextNodes := nextNodes[id := SnapshotOf(e)];
        }
      }
      assert entries[..|entries|] == entries;
      nodes, ipToID, wgipMap, lastRun := nextNodes, nextIP, nextWG, Some(now);
      return true;
    }

    method CacheIPIndex(ip: string, id: Id)
      modifies this`ipToID
      ensures View() == CacheIP(old(View()), ip, id)
    {
      if ip == "" || id == "" {
        return;
      }
      ipToID := ipToID[ip := id];
    }

    method CacheWGIP(id: Id, wgip: string)
      modifies this`nodes, this`wgipMap
      ensures View() == CacheWG(old(View()), id, wgip)
    {
      if id == "" || wgip == "" {
        return;
      }
      var node := if id in nodes then nodes[id] else EMPTY_NODE;
      nodes := nodes[id := node.(wgip := wgip)];
      wgipMap := wgipMap[wgip := id];
    }

    /** ResolveComponentID on a trimmed address; `reply` is the backend resolver's non-empty answer. */
    method ResolveComponentID(ip: string, now: int, reply: Option<Id>) returns (r: Option<Id>)
      requires reply.Some? ==> reply.value != ""
      modifies this`ipToID
      ensures var reading := Read(old(View()), Resolve(ip), Stale(now), AsText(reply));
              View() == reading.cache && reading.answer == AsText(r)
      ensures ip != "" && ip in wgipMap && wgipMap[ip] != "" && (!Stale(now) || reply.None?) ==> r == Some(wgipMap[ip])
      ensures && ip != "" && OrBlank(wgipMap, ip) == "" && OrBlank(old(ipToID), ip) != ""
              && (!Stale(now) || reply.None?) ==>
                r == Some(old(ipToID)[ip])
    {
      if ip == "" {
        return None;
      }
      var wg := if ip in wgipMap then wgipMap[ip] else "";
      var own := if ip in ipToID then ipToID[ip] else "";
      if wg != "" && !Stale(now) {
        return Some(wg);
      }
      if own != "" && !Stale(now) {
        return Some(own);
      }
      if reply.Some? {
        CacheIPIndex(ip, reply.value);
        return reply;
      }
      if wg != "" {
        return Some(wg);
      }
      if own != "" {
        return Some(own);
      }
      return None;
    }

    method IDfromIP(ip: string, now: int, reply: Option<Id>) returns (r: Option<Id>)
      modifies this`ipToID
      ensures var reading := Read(old(View()), IDFromIP(ip), Stale(now), AsText(reply));
              View() == reading.cache && reading.answer == AsText(r)
    {
      var cached := if ip in ipToID then ipToID[ip] else "";
      if cached != "" && !Stale(now) {
        return Some(cached);
      }
      if reply.Some? {
        CacheIPIndex(ip, reply.value);
        return reply;
      }
      return if cached != "" then Some(cached) else None;
    }

    method IDfromWGIP(wgip: string, now: int, reply: Option<Id>) returns (r: Option<Id>)
      modifies this`nodes, this`wgipMap
      ensures var reading := Read(old(View()), IDFromWG(wgip), Stale(now), AsText(reply));
              View() == reading.cache && reading.answer == AsText(r)
    {
      var cached := if wgip in wgipMap then wgipMap[wgip] else "";
      if cached != "" && !Stale(now) {
        return Some(cached);
      }
      if reply.Some? {
        CacheWGIP(reply.value, wgip);
        return reply;
      }
      return if cached != "" then Some(cached) else None;
    }

    /** AddWGIP; `ok` is the backend's part. */
    method AddWGIP(id: Id, wgip: string, ok: bool) returns (done: bool)
      modifies this`nodes, this`wgipMap
      ensures done == ok && View() == if ok then Store(old(View()), WGFromID(id), Text(wgip)) else old(View())
    {
      if ok {
        CacheWGIP(id, wgip);
      }
      return ok;
    }

    method MACfromID(id: Id, now: int, reply: Option<string>) returns (r: Option<string>)
      ensures var reading := Read(View(), MACFromID(id), Stale(now), AsText(reply));
              View() == reading.cache && reading.answer == AsText(r)
    {
      var own := "";
      if id in nodes {
        own := PickHMNMAC(nodes[id].ifaces);
        if own == "" && nodes[id].component.Some? {
          own := nodes[id].component.value.mac;
        }
      }
      if own != "" && !Stale(now) {
        return Some(own);
      }
      if reply.Some? {
        return reply;
      }
      return if own != "" then Some(own) else None;
    }

    method EthernetNICInfo(id: Id, now: int, reply: Option<seq<Nic>>) returns (r: Option<seq<Nic>>)
      modifies this`nodes
      ensures var reading := Read(old(View()), NicsOf(id), Stale(now),
                                  if reply.Some? then Some(NicList(reply.value)) else None);
              View() == reading.cache && reading.answer == if r.Some? then Some(NicList(r.value)) else None
    {
      if id in nodes && !Stale(now) && nodes[id].nics != [] {
        return Some(nodes[id].nics);
      }
      if reply.Some? {
        var n := if id in nodes then nodes[id] else EMPTY_NODE;
        nodes := nodes[id := n.(nics := reply.value)];
        return reply;
      }
      return if id in nodes then Some(nodes[id].nics) else None;
    }

    method IPfromID(id: Id, now: int, reply: Option<string>) returns (r: Option<string>)
      modifies this`ipToID
      ensures var reading := Read(old(View()), IPFromID(id), Stale(now), AsText(reply));
              View() == reading.cache && reading.answer == AsText(r)
    {
      var own := "";
      if id in nodes {
        own := PickHMNIP(nodes[id].ifaces);
        if own == "" && nodes[id].component.Some? {
          own := nodes[id].component.value.ip;
        }
      }
      if own != "" && !Stale(now) {
        return Some(own);
      }
      if reply.Some? {
        CacheIPIndex(reply.value, id);
        return reply;
      }
      return if own != "" then Some(own) else None;
    }

    method ComponentInformation(id: Id, now: int, reply: Option<Component>) returns (r: Option<Component>)
      modifies this`nodes, this`ipToID
      ensures var reading := Read(old(View()), ComponentOf(id), Stale(now),
                                  if reply.Some? then Some(Comp(reply.value)) else None);
              View() == reading.cache && reading.answer == if r.Some? then Some(Comp(r.value)) else None
    {
      var found := if id in nodes then nodes[id].component else None;
      if !Stale(now) && found.Some? {
        return found;
      }
      if reply.Some? {
        var n := if id in nodes then nodes[id] else EMPTY_NODE;
        nodes := nodes[id := n.(component := reply)];
        if reply.value.ip != "" {
          ipToID := ipToID[reply.value.ip := id];
        }
        return reply;
      }
      return found;
    }

    method GroupMembership(id: Id, now: int, reply: Option<seq<string>>) returns (r: Option<seq<string>>)
      modifies this`nodes
      ensures var reading := Read(old(View()), GroupsOf(id), Stale(now),
                                  if reply.Some? then Some(Names(reply.value)) else None);
              View() == reading.cache && reading.answer == if r.Some? then Some(Names(r.value)) else None
    {
      var found := if id in nodes then Some(nodes[id].groups) else None;
      if found.Some? && !Stale(now) {
        return found;
      }
      if reply.Some? {
        var n := if id in nodes then nodes[id] else EMPTY_NODE;
        nodes := nodes[id := n.(groups := reply.value)];
        return reply;
      }
      return found;
    }

    method WGIPfromID(id: Id, now: int, reply: Option<string>) returns (r: Option<string>)
      modifies this`nodes, this`wgipMap
      ensures var reading := Read(old(View()), WGFromID(id), Stale(now), AsText(reply));
              View() == reading.cache && reading.answer == AsText(r)
    {
      var own := if id in nodes then nodes[id].wgip else "";
      if own != "" && !Stale(now) {
        return Some(own);
      }
      if reply.Some? {
        CacheWGIP(id, reply.value);
        return reply;
      }
      return if own != "" then Some(own) else None;
    }

    method EthernetInterfaces(id: Id, now: int, reply: Option<seq<Iface>>) returns (r: Option<seq<Iface>>)
      modifies this`nodes, this`ipToID
      ensures var reading := Read(old(View()), IfacesOf(id), Stale(now),
                                  if reply.Some? then Some(IfaceList(reply.value)) else None);
              View() == reading.cache && reading.answer == if r.Some? then Some(IfaceList(r.value)) else None
    {
      if id in nodes && !Stale(now) && nodes[id].ifaces != [] {
        return Some(nodes[id].ifaces);
      }
      if reply.Some? {
        var n := if id in nodes then nodes[id] else EMPTY_NODE;
        nodes := nodes[id := n.(ifaces := reply.value)];
        ipToID := IndexInterfaces(ipToID, reply.value, id);
        return reply;
      }
      return if id in nodes then Some(nodes[id].ifaces) else None;
    }
  }
}
