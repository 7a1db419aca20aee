/** pkg/wireguard/controller.go: the peer table, its address allocations, and its saved state. */
module WireGuardController {
  import opened Prelude
  import opened IPAllocation

  /** An `allowed_ip` text: a CIDR that `net.ParseCIDR` accepts, or any other text. */
  datatype AllowedIP = Cidr(addr: Addr, bits: nat) | Unparsed(raw: string)

  /** `vpnIP` is `None` for the empty string. */
  datatype PeerState = PeerState(publicKey: string, vpnIP: Option<Addr>, clientIP: string, allowedIP: AllowedIP)

  datatype PersistentPeer =
    PersistentPeer(peerID: string, publicKey: string, vpnIP: Option<Addr>, clientIP: string, allowedIP: AllowedIP)

  type Peers = map<string, PeerState>

  function ParsedAddr(allowed: AllowedIP): Option<Addr> {
    if allowed.Cidr? then Some(allowed.addr) else None
  }

  // ---------------------------------------------------------------- updating the peer table

  /** The table after a call, whether the call succeeded, and whether it went on to save. */
  datatype Outcome = Outcome(peers: Peers, ok: bool, saves: bool)

  function Upsert(peers: Peers, id: string, key: string, allowed: AllowedIP, deviceOk: bool): Outcome {
    if id in peers && peers[id].publicKey == key && peers[id].allowedIP == allowed then Outcome(peers, true, false)
    else if !deviceOk then Outcome(peers, false, false)
    else if id in peers then
      Outcome(peers[id := PeerState(key, peers[id].vpnIP, peers[id].clientIP, allowed)], true, true)
    else
      Outcome(peers[id := PeerState(key, ParsedAddr(allowed), id, allowed)], true, true)
  }

  function RemoveByID(peers: Peers, id: string, deviceOk: bool): Outcome {
    if id !in peers || !deviceOk then Outcome(peers, false, false) else Outcome(peers - {id}, true, true)
  }

  /** Each map key is its peer's client IP (or resource UID). */
  ghost predicate WellKeyed(peers: Peers) {
    forall k :: k in peers ==> peers[k].clientIP == k
  }

  /** After a successful upsert the entry carries the requested key and route; every other entry,
      the keying, and an existing entry's VPN address are as before. */
  lemma UpsertInstalls(peers: Peers, id: string, key: string, allowed: AllowedIP, deviceOk: bool)
    requires WellKeyed(peers)
    ensures var o := Upsert(peers, id, key, allowed, deviceOk);
            && WellKeyed(o.peers) && (o.saves <==> o.peers != peers)
            && (o.ok ==> id in o.peers && o.peers[id].publicKey == key && o.peers[id].allowedIP == allowed)
            && (o.ok ==> o.peers[id].vpnIP == if id in peers then peers[id].vpnIP else ParsedAddr(allowed))
            && o.peers - {id} == peers - {id}
            && (o.ok <==> deviceOk || HasPeer(peers, id, key, allowed))
  {
    var o := Upsert(peers, id, key, allowed, deviceOk);
    if o.saves {
      assert id in peers ==> o.peers[id] != peers[id];
    }
  }

  /** The table already has this peer, with this key and route. */
  predicate HasPeer(peers: Peers, id: string, key: string, allowed: AllowedIP) {
    id in peers && peers[id].publicKey == key && peers[id].allowedIP == allowed
  }

  /** A successful removal takes out that entry and no other, and is saved; otherwise nothing changes. */
  lemma RemoveTakesOne(peers: Peers, id: string, deviceOk: bool)
    ensures var o := RemoveByID(peers, id, deviceOk);
            && (o.ok <==> id in peers && deviceOk) && (o.saves <==> o.peers != peers)
            && (o.ok ==> id !in o.peers) && (!o.ok ==> o.peers == peers)
            && o.peers - {id} == peers - {id}
  {
  }

  // ---------------------------------------------------------------- save and restore

  function Persisted(p: PeerState): PersistentPeer {
    PersistentPeer(p.clientIP, p.publicKey, p.vpnIP, p.clientIP, p.allowedIP)
  }

  function Revived(pp: PersistentPeer): PeerState {
    PeerState(pp.publicKey, pp.vpnIP, pp.clientIP, pp.allowedIP)
  }

  /** `list` holds the entries of `peers` once each, in the order of `keys` (Go's map order is arbitrary). */
  ghost predicate Lists(keys: seq<string>, list: seq<PersistentPeer>, peers: Peers) {
    && |keys| == |list|
    && (forall i, j :: 0 <= i < j < |keys| ==> keys[i] != keys[j])
    && (forall i :: 0 <= i < |keys| ==> keys[i] in peers && list[i] == Persisted(peers[keys[i]]))
    && (forall k :: k in peers ==> k in keys)
  }

  function Restored(list: seq<PersistentPeer>): Peers {
    if list == [] then map[]
    else
      var last := list[|list| - 1];
      Restored(list[..|list| - 1])[last.peerID := Revived(last)]
  }

  function Reserved(net: Subnet, used: set<Addr>, a: Option<Addr>): set<Addr>
    requires net.prefix <= 32
  {
    if a.Some? && net.Contains(a.value) then used + {a.value} else used
  }

  function RestoredUsed(net: Subnet, used: set<Addr>, list: seq<PersistentPeer>): set<Addr>
    requires net.prefix <= 32
  {
    if list == [] then used
    else Reserved(net, RestoredUsed(net, used, list[..|list| - 1]), list[|list| - 1].vpnIP)
  }

  ghost function VpnAddrs(peers: Peers): set<Addr> {
    set k | k in peers && peers[k].vpnIP.Some? :: peers[k].vpnIP.value
  }

  ghost function VpnAddrsIn(net: Subnet, peers: Peers): set<Addr>
    requires net.prefix <= 32
  {
    set a | a in VpnAddrs(peers) && net.Contains(a)
  }

  lemma {:induction false} RestoredPrefix(keys: seq<string>, list: seq<PersistentPeer>, peers: Peers, n: nat)
    requires Lists(keys, list, peers) && n <= |keys|
    requires WellKeyed(peers)
    ensures forall k :: k in Restored(list[..n]) <==> k in keys[..n]
    ensures forall k :: k in keys[..n] ==> Restored(list[..n])[k] == peers[k]
  {
    if n > 0 {
      RestoredPrefix(keys, list, peers, n - 1);
      assert list[..n][..n - 1] == list[..n - 1];
      assert keys[..n] == keys[..n - 1] + [keys[n - 1]];
    }
  }

  lemma {:induction false} RestoredIsWellKeyed(list: seq<PersistentPeer>)
    requires forall i :: 0 <= i < |list| ==> list[i].peerID == list[i].clientIP
    ensures WellKeyed(Restored(list))
  {
    if list != [] {
      RestoredIsWellKeyed(list[..|list| - 1]);
    }
  }

  /** Saving in any order and restoring gives back exactly the same peer table, and does so
      precisely for tables keyed by client IP. */
  lemma RestoreInvertsSave(keys: seq<string>, list: seq<PersistentPeer>, peers: Peers)
    requires Lists(keys, list, peers)
    ensures Restored(list) == peers <==> WellKeyed(peers)
  {
    if WellKeyed(peers) {
      RestoredPrefix(keys, list, peers, |keys|);
      assert list[..|keys|] == list && keys[..|keys|] == keys;
    }
    RestoredIsWellKeyed(list);
  }

  /** A list that a save produced. */
  ghost predicate SavedListing(list: seq<PersistentPeer>) {
    WellKeyed(Restored(list)) && exists keys :: Lists(keys, list, Restored(list))
  }

  lemma {:induction false} RestoredUsedPrefix(net: Subnet, used: set<Addr>, list: seq<PersistentPeer>)
    requires net.prefix <= 32
    ensures forall a :: a in RestoredUsed(net, used, list) <==>
                        a in used || (net.Contains(a) && exists i :: 0 <= i < |list| && list[i].vpnIP == Some(a))
  {
    if list != [] {
      var front, last := list[..|list| - 1], list[|list| - 1];
      RestoredUsedPrefix(net, used, front);
      forall a ensures (exists i :: 0 <= i < |list| && list[i].vpnIP == Some(a)) <==>
                       last.vpnIP == Some(a) || exists i :: 0 <= i < |front| && front[i].vpnIP == Some(a)
      {
        if i :| 0 <= i < |list| && list[i].vpnIP == Some(a) {
          assert i < |front| ==> front[i].vpnIP == Some(a);
        }
        if i :| 0 <= i < |front| && front[i].vpnIP == Some(a) {
          assert list[i].vpnIP == Some(a);
        }
      }
    }
  }

  /** Restoring reserves the in-network VPN addresses of the saved peers and nothing else. */
  lemma RestoreReserves(net: Subnet, used: set<Addr>, keys: seq<string>, list: seq<PersistentPeer>, peers: Peers)
    requires net.prefix <= 32 && Lists(keys, list, peers)
    ensures RestoredUsed(net, used, list) == used + VpnAddrsIn(net, peers)
  {
    RestoredUsedPrefix(net, used, list);
    forall a ensures a in VpnAddrs(peers) <==> exists i :: 0 <= i < |list| && list[i].vpnIP == Some(a)
    {
      if a in VpnAddrs(peers) {
        var k :| k in peers && peers[k].vpnIP == Some(a);
        var i :| 0 <= i < |keys| && keys[i] == k;
        assert list[i].vpnIP == Some(a);
      }
    }
  }

  // ---------------------------------------------------------------- address conservation

  /** The part of a controller that AddPeer and RemovePeer change. */
  datatype Table = Table(net: Subnet, server: Addr, used: set<Addr>, peers: Peers)

  datatype TableCall = Add(clientIP: string, key: string, deviceOk: bool) | Remove(clientIP: string, deviceOk: bool)

  function AfterCall(t: Table, c: TableCall): Table
    requires t.net.prefix <= 32
  {
    match c
    case Add(clientIP, key, deviceOk) =>
      if clientIP in t.peers || !deviceOk then t
      else (match NextFree(t.net, t.used)
            case None => t
            case Some(a) =>
              t.(used := t.used + {a}, peers := t.peers[clientIP := PeerState(key, Some(a), clientIP, Unparsed(""))]))
    case Remove(clientIP, deviceOk) =>
      if clientIP !in t.peers || !deviceOk then t
      else
        var vpn := t.peers[clientIP].vpnIP;
        t.(used := if vpn.Some? then t.used - {vpn.value} else t.used, peers := t.peers - {clientIP})
  }

  function AfterCalls(t: Table, calls: seq<TableCall>): (t': Table)
    requires t.net.prefix <= 32
    ensures t'.net == t.net && t'.server == t.server
  {
    if calls == [] then t else AfterCall(AfterCalls(t, calls[..|calls| - 1]), calls[|calls| - 1])
  }

  function FreshTable(net: Subnet, server: Addr): Table {
    Table(net, server, {server}, map[])
  }

  /** Used is exactly the server and the peers' VPN addresses, which are distinct and in the network. */
  ghost predicate Conserved(t: Table) {
    && t.net.prefix <= 32
    && t.used == {t.server} + VpnAddrs(t.peers)
    && (forall k :: k in t.peers ==> t.peers[k].vpnIP.Some? && t.peers[k].vpnIP.value != t.server)
    && (forall k :: k in t.peers ==> t.net.Contains(t.peers[k].vpnIP.value))
    && (forall k, l :: k in t.peers && l in t.peers && k != l ==> t.peers[k].vpnIP != t.peers[l].vpnIP)
    && WellKeyed(t.peers)
  }

  lemma NextFreeInNetwork(net: Subnet, used: set<Addr>)
    requires net.Valid() && NextFree(net, used).Some?
    ensures net.Contains(NextFree(net, used).value)
    ensures net.prefix >= 24 ==> net.base < NextFree(net, used).value < net.Broadcast()
  {
    if net.prefix < 24 {
      ShortPrefixHoldsBlocks(net);
    }
    ContainsIsInterval(net, NextFree(net, used).value);
  }

  lemma AddConserves(t: Table, c: TableCall)
    requires t.net.Valid() && Conserved(t) && c.Add?
    ensures Conserved(AfterCall(t, c))
  {
    var t' := AfterCall(t, c);
    if t' != t {
      NextFreeInNetwork(t.net, t.used);
      var a := NextFree(t.net, t.used).value;
      assert t'.peers[c.clientIP].vpnIP == Some(a);
      forall k | k in t.peers ensures t'.peers[k] == t.peers[k] && a != t.peers[k].vpnIP.value {
        assert t.peers[k].vpnIP.value in VpnAddrs(t.peers);
      }
      assert VpnAddrs(t'.peers) == VpnAddrs(t.peers) + {a};
    }
  }

  lemma RemoveConserves(t: Table, c: TableCall)
    requires Conserved(t) && c.Remove?
    ensures Conserved(AfterCall(t, c))
  {
    var t' := AfterCall(t, c);
    if t' != t {
      var a := t.peers[c.clientIP].vpnIP.value;
      forall x | x in VpnAddrs(t.peers) && x != a ensures x in VpnAddrs(t'.peers) {
        var k :| k in t.peers && t.peers[k].vpnIP == Some(x);
        assert t'.peers[k].vpnIP == Some(x);
      }
      assert VpnAddrs(t'.peers) == VpnAddrs(t.peers) - {a};
    }
  }

  /** What one call does to the entries: a new peer gets the given key and a free address iff the device works and there
      is one; a removal takes the entry out iff the device works; every other entry stays as it was. */
  lemma CallsChangeOneEntry(t: Table, c: TableCall)
    requires t.net.prefix <= 32
    ensures var t' := AfterCall(t, c);
            && t'.peers - {c.clientIP} == t.peers - {c.clientIP}
            && (c.Add? && c.clientIP in t.peers ==> t' == t)
            && (c.Add? && c.clientIP !in t.peers ==>
                  && (c.clientIP in t'.peers <==> c.deviceOk && NextFree(t.net, t.used).Some?)
                  && (c.clientIP in t'.peers ==>
                        && t'.peers[c.clientIP].publicKey == c.key && t'.peers[c.clientIP].clientIP == c.clientIP
                        && t'.peers[c.clientIP].vpnIP.Some? && t'.peers[c.clientIP].vpnIP.value !in t.used)
                  && (c.clientIP !in t'.peers ==> t' == t))
            && (c.Remove? ==> (c.clientIP in t'.peers <==> c.clientIP in t.peers && !c.deviceOk))
            && (c.Remove? && !c.deviceOk ==> t' == t)
  {
  }

  /** Over every run of AddPeer and RemovePeer from a fresh controller, with device failures anywhere,
      no address is lost and none is shared. */
  lemma {:induction false} RunsConserveAddresses(net: Subnet, server: Addr, calls: seq<TableCall>)
    requires net.Valid()
    ensures Conserved(AfterCalls(FreshTable(net, server), calls))
  {
    if calls != [] {
      RunsConserveAddresses(net, server, calls[..|calls| - 1]);
      var t, c := AfterCalls(FreshTable(net, server), calls[..|calls| - 1]), calls[|calls| - 1];
      if c.Add? {
        AddConserves(t, c);
      } else {
        RemoveConserves(t, c);
      }
    }
  }

  /** Such a controller, saved in any order and restored, comes back whole: peers and used set. */
  lemma RestartRestoresController(net: Subnet, server: Addr, calls: seq<TableCall>,
                                  keys: seq<string>, list: seq<PersistentPeer>)
    requires net.Valid() && Lists(keys, list, AfterCalls(FreshTable(net, server), calls).peers)
    ensures Table(net, server, RestoredUsed(net, {server}, list), Restored(list)) ==
            AfterCalls(FreshTable(net, server), calls)
  {
    var t := AfterCalls(FreshTable(net, server), calls);
    RunsConserveAddresses(net, server, calls);
    RestoreInvertsSave(keys, list, t.peers);
    RestoreReserves(net, {server}, keys, list, t.peers);
    assert VpnAddrsIn(net, t.peers) == VpnAddrs(t.peers);
  }

  // ---------------------------------------------------------------- the controller object

  datatype RemoveResult = Removed | PeerNotFound | DeviceFailed

  class Controller {
    const allocator: IPAllocator
    const server: Addr
    const persistent: bool            // a persistence file is configured
    var peers: Peers
    var saved: seq<PersistentPeer>    // what the persistence file lists

    ghost predicate Valid()
      reads this, allocator
    {
      allocator.Valid() && WellKeyed(peers) && SavedListing(saved)
    }

    ghost function View(): Table
      reads this, allocator
    {
      Table(allocator.net, server, allocator.used, peers)
    }

    constructor (allocator: IPAllocator, server: Addr, persistent: bool, peers: Peers, saved: seq<PersistentPeer>)
      ensures this.allocator == allocator && this.server == server && this.persistent == persistent
      ensures this.peers == peers && this.saved == saved
    {
      this.allocator, this.server, this.persistent := allocator, server, persistent;
      this.peers, this.saved := peers, saved;
    }

    /** The serialisation loop of `persistState`; `ok` is the outcome of writing the file. */
    method PersistState(ok: bool)
      requires Valid()
      modifies this`saved
      ensures Valid()
      ensures persistent && ok ==> Restored(saved) == peers
      ensures !(persistent && ok) ==> saved == old(saved)
    {
      if !persistent {
        return;
      }
      var list: seq<PersistentPeer>, rest := [], peers.Keys;
      ghost var keys: seq<string> := [];
      while rest != {}
        invariant rest <= peers.Keys && |keys| == |list|
        invariant forall i, j :: 0 <= i < j < |keys| ==> keys[i] != keys[j]
        invariant forall i :: 0 <= i < |keys| ==>
                    keys[i] in peers && keys[i] !in rest && list[i] == Persisted(peers[keys[i]])
        invariant forall k :: k in peers ==> k in rest || k in keys
        decreases rest
      {
        var k :| k in rest;
        list, keys, rest := list + [Persisted(peers[k])], keys + [k], rest - {k};
      }
      if ok {
        saved := list;
        RestoreInvertsSave(keys, list, peers);
        assert Lists(keys, saved, Restored(saved));
      }
    }

    method AddPeer(clientIP: string, publicKey: string, deviceOk: bool, saveOk: bool) returns (r: Result<Option<Addr>>)
      requires Valid()
      requires clientIP in peers || SearchEnds(allocator.net, allocator.used)
      modifies this`peers, this`saved, allocator`used
      ensures Valid()
      ensures View() == AfterCall(old(View()), Add(clientIP, publicKey, deviceOk))
      ensures r.Ok? <==> clientIP in peers
      ensures r.Ok? ==> r.value == peers[clientIP].vpnIP
      ensures if peers != old(peers) && persistent && saveOk then Restored(saved) == peers else saved == old(saved)
    {
      if clientIP in peers {
        return Ok(peers[clientIP].vpnIP);
      }
      var ip := allocator.NextAvailable();
      if ip.None? {
        return Err("failed to allocate VPN IP");
      }
      if !deviceOk {
        allocator.Release(ip);
        assert allocator.used == old(allocator.used);
        return Err("failed to add peer");
      }
      peers := peers[clientIP := PeerState(publicKey, ip, clientIP, Unparsed(""))];
      PersistState(saveOk);
      return Ok(ip);
    }

    method UpsertPeer(peerID: string, publicKey: string, allowedIP: AllowedIP, deviceOk: bool, saveOk: bool)
      returns (ok: bool)
      requires Valid()
      modifies this`peers, this`saved
      ensures Valid()
      ensures var o := Upsert(old(peers), peerID, publicKey, allowedIP, deviceOk);
              && peers == o.peers && ok == o.ok
              && Restored(saved) == if o.saves && persistent && saveOk then peers else old(Restored(saved))
    {
      UpsertInstalls(peers, peerID, publicKey, allowedIP, deviceOk);
      if peerID in peers {
        var peer := peers[peerID];
        if peer.publicKey == publicKey && peer.allowedIP == allowedIP {
          return true;
        }
        if !deviceOk {
          return false;
        }
        peers := peers[peerID := PeerState(publicKey, peer.vpnIP, peer.clientIP, allowedIP)];
        PersistState(saveOk);
        return true;
      }
      if !deviceOk {
        return false;
      }
      peers := peers[peerID := PeerState(publicKey, ParsedAddr(allowedIP), peerID, allowedIP)];
      PersistState(saveOk);
      return true;
    }

    method RemovePeerByID(peerID: string, deviceOk: bool, saveOk: bool) returns (r: RemoveResult)
      requires Valid()
      modifies this`peers, this`saved
      ensures Valid()
      ensures var o := RemoveByID(old(peers), peerID, deviceOk);
              && peers == o.peers && (r.Removed? <==> o.ok)
              && (r.PeerNotFound? <==> peerID !in old(peers))
              && Restored(saved) == if o.saves && persistent && saveOk then peers else old(Restored(saved))
    {
      if peerID !in peers {
        return PeerNotFound;
      }
      if !deviceOk {
        return DeviceFailed;
      }
      peers := peers - {peerID};
      PersistState(saveOk);
      return Removed;
    }

    method RemovePeer(clientIP: string, deviceOk: bool, saveOk: bool) returns (r: RemoveResult)
      requires Valid()
      modifies this`peers, this`saved, allocator`used
      ensures Valid()
      ensures View() == AfterCall(old(View()), Remove(clientIP, deviceOk))
      ensures r.PeerNotFound? <==> clientIP !in old(peers)
      ensures r.Removed? <==> clientIP in old(peers) && deviceOk
      ensures if peers != old(peers) && persistent && saveOk then Restored(saved) == peers else saved == old(saved)
    {
      if clientIP !in peers {
        return PeerNotFound;
      }
      if !deviceOk {
        return DeviceFailed;
      }
      allocator.Release(peers[clientIP].vpnIP);
      peers := peers - {clientIP};
      PersistState(saveOk);
      return Removed;
    }
  }

  /** `reconstructPeersFromState`: reserve each saved address and rebuild the table. */
  method Reconstruct(list: seq<PersistentPeer>, allocator: IPAllocator) returns (peers: Peers)
    requires allocator.Valid()
    modifies allocator`used
    ensures peers == Restored(list)
    ensures allocator.used == RestoredUsed(allocator.net, old(allocator.used), list)
  {
    peers := map[];
    for i := 0 to |list|
      invariant peers == Restored(list[..i])
      invariant allocator.used == RestoredUsed(allocator.net, old(allocator.used), list[..i])
    {
      assert list[..i + 1][..i] == list[..i];
      if list[i].vpnIP.Some? {
        var _ := allocator.Reserve(list[i].vpnIP);
      }
      peers := peers[list[i].peerID := Revived(list[i])];
    }
    assert list[..|list|] == list;
  }

  /** What the environment does during `NewController`: the device comes up, the state directory can be made, the state
      file can be read and has keys, and keys are made and installed. */
  datatype Startup = Startup(deviceOk: bool, directoryOk: bool, loadOk: bool, keysOk: bool)

  /** `NewController` over a state file that lists `file`. A file that cannot be read, or has no keys yet, is ignored
      and stays as it is. If the file is one that `PersistState` wrote, or is ignored, the controller is valid. */
  method NewController(addr: Addr, prefix: nat, server: Addr, persistent: bool, file: seq<PersistentPeer>, env: Startup)
    returns (c: Option<Controller>)
    requires addr < ADDRESS_SPACE && prefix <= 32
    ensures c.None? <==> || !env.deviceOk || !env.keysOk || (persistent && !env.directoryOk)
                         || Masked(server, 32 - prefix) != Masked(addr, 32 - prefix)
    ensures c.Some? ==>
              && fresh(c.value) && fresh(c.value.allocator) && c.value.allocator.Valid()
              && c.value.allocator.net == Subnet(Masked(addr, 32 - prefix), prefix)
              && c.value.server == server && c.value.persistent == persistent && c.value.saved == file
              && var list := if persistent && env.loadOk then file else [];
                 && c.value.peers == Restored(list)
                 && c.value.allocator.used == RestoredUsed(c.value.allocator.net, {server}, list)
    ensures c.Some? && SavedListing(file) ==> c.value.Valid()
  {
    if !env.deviceOk {
      return None;
    }
    var allocator := new IPAllocator(addr, prefix);
    var reserved := allocator.Reserve(Some(server));
    if !reserved {
      return None;
    }
    assert allocator.used == {server};
    var peers: Peers := map[];
    if persistent {
      if !env.directoryOk {
        return None;
      }
      if env.loadOk {
        peers := Reconstruct(file, allocator);
      }
    }
    if !env.keysOk {
      return None;
    }
    var ctl := new Controller(allocator, server, persistent, peers, file);
    return Some(ctl);
  }
}
