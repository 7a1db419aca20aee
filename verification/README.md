# Verified model of the metadata service

A Dafny model of the stateful cores of the OpenCHAMI metadata service, with proofs about all their inputs and
all their runs. `dafny verify dfyconfig.toml` checks the whole project.

Go code that works by changing things is modelled by classes and loops, and each such method is proved against a
specification function; the theorems are lemmas about those functions and about state machines built from them.
Calls whose result the code cannot know (storage, the WireGuard device, the event bus, SMD, token endpoints, the
clock, cancellation) are parameters or steps chosen by the environment, and may fail at any point.

| file | what it models |
|---|---|
| `IPAllocator.dfy` | the address allocator |
| `Controller.dfy` | the WireGuard peer table, its allocations, its saved state |
| `PeerProtocol.dfy` | `/wg-init`, `/phone-home`, event delivery and restarts as a state machine whose steps are single lock sections |
| `PeerAddresses.dfy` | over its runs: no two peers share an address, exactly when a restart keeps that, how addresses run out |
| `PeerFollow.dfy` | over its runs: the controller comes to hold exactly the stored peers |
| `PeerSettle.dfy` | exactly which states, handlers in flight included, can end with controller and store apart |
| `PeerOverlap.dfy` | overlapping requests and deliveries for one peer in that machine |
| `MetadataServer.dfy` | the handlers and the event loop as code, proved to perform runs of that machine |
| `PublicKey.dfy`, `KeySpelling.dfy` | public key normalisation over base64, its alphabet and its normal spellings |
| `SmdCache.dfy`, `SmdService.dfy` | the SMD snapshot cache: what reads serve and write back, what a sync builds |
| `SmdRuns.dfy`, `SmdFailOpen.dfy`, `SmdAge.dfy` | the cache over interleaved runs: agreement with the backend, availability, age |
| `RetryPolicy.dfy`, `TokenManager.dfy` | capped backoff, bounded retries, and what a call of the token manager does when it runs alone |
| `TokenRuns.dfy` | overlapping calls of the token manager: every lock section, request and reply is a step |
| `MergePatch.dfy`, `ShorthandPatch.dfy` | `--set/--unset/--add` flags compiled to a JSON Merge Patch |
| `TemplateHistory.dfy`, `Hostname.dfy` | the template history of a group; hostname synthesis |
| `Prelude.dfy` | shared result types, powers of two, string trimming |

## Main results

- Peers never share addresses. In every interleaving of handlers, deliveries in any order, lost events, failed saves
  and failed device calls, stored peers with different UIDs hold different usable addresses
  (`PeersNeverShareAddresses`). A restart keeps this, in all continuations, if and only if the restored peers' addresses
  include every stored one; otherwise two peers come to share an address in some continuation, unless the startup
  reconcile failed and the service exited (`RestartIsSafeExactlyWhenCovered`). A peer whose creation event is still
  queued is not covered, and with an unreadable state file none is. Between restarts no stored address is ever given
  back, so the pool bounds the number of admissions (`PoolRunsOut`).
- Overlapping wg-inits of one key are both answered, with different addresses (`OverlappingInitsDiffer`). The address
  answered stays the stored one in every continuation without a phone-home if and only if no rival of it is in flight
  (`AnswerStaysStoredExactly`).
- The controller follows the store. If the requests and deliveries of one UID do not overlap and events are handled
  in order, then with an empty queue the controller's peers are exactly the stored ones (`ControllerFollowsStore`).
  With overlaps, `SettlesExactly` says from which states every completion -- the handlers in flight run to their ends,
  events are delivered in order and one at a time, no new request comes -- ends in agreement: if and only if nothing
  that may still store the record is in flight together with anything that deletes it, no phone-home that missed the
  record is in flight while there is one, none that found it is in flight while its creation is pending, and what is
  pending settles. Both kinds of overlap do harm even with no failures: a phone-home that looked before the record
  existed can delete it silently and leave its peer behind (`SilentDeletionLeavesPeer`), and the reconciler's status
  update can write a record back that a phone-home has just deleted (`StatusUpdateRevivesRecord`). Neither breaks the
  uniqueness of addresses.
- Allocation. `NextAvailable` ends exactly when `SearchEnds` holds: always for /24 and longer; on shorter prefixes
  only while the first 256 addresses have a free one, because the last octet wraps and never carries. There it also
  hands out the network address.
- Shorthand patches. For every list of flags with any JSON values, applying the compiled patch by section 2 of
  RFC 7386 equals performing the flags one by one on every document, if and only if each flag is overwritten by a
  later one at or above its path, or gives a non-object and is not extended by a later flag. An unset only removes its
  field if and only if the document has objects all the way down to it; otherwise it makes them. The compiled patch
  carries at each field what the last flag there says (`Shorthand`).
- The SMD cache answers what the backend would for every component the last sync fully fetched.
- Fail-open. With lookups, backend calls, write-backs and swaps interleaved in every way, no later read of a query can
  turn into an error before the next successful sync if and only if the cache in place answers the query
  (`AnswersDoNotTurnIntoErrors`; reads under the empty component id aside, which can blank entries). For a returned answer that is so exactly if no swap overtook it, or the swapped-in
  entries serve it, or something written after the swap does (`ReturnedAnswerLastsExactly`); a swap that overtakes a
  lookup really can lose it (`OvertakenAnswerIsLost`).
- WireGuard registrations. A registered pair is read back in every interleaving with syncs, write-backs and any other
  registrations (`RegistrationIsRead`). After an id or an address was registered anew, every continuation reads the new
  pair if and only if no pending write-back and no gathered entry that a swap would keep carries what was replaced
  (`ReplacementIsReadExactly`).
- Age. Every answer of the fresh cache that comes from SMD data was fetched at most so long ago: groups two intervals
  and one sync, components two intervals and the longer of one sync and one TTL, everything else two intervals, one
  sync and one TTL; each bound is reached. Two kinds of fresh answers were never fetched at all: groups of a node whose
  groups nobody fetched (answered as none; `GroupsAreYoungExactly` says when), and addresses whose index entry was last
  written by a resolution through a WireGuard registration (`IndexAnswersAreYoungExactly`).
- The token manager, with overlapping calls, is unhealthy if and only if some refresh exhausted its attempts. From then
  on every new call is refused, and the endpoints see at most the attempts that calls already under way have left
  (`LatchHolds`), which all of them together can use up (`AllRemainingContactsCanHappen`). Such a call can still be
  granted a token and return it (`CallInFlightStillIssues`). A token is issued without a refresh exactly while the
  margin of the lifetime it was granted with is left (`GrantIsGoodForItsLifetime`, `IssuedTokenIsCurrent`).

Where the code does not meet a property, the code is kept and the exact condition is proved, with a run or an input
that shows the failure. Among these: the first wait of the first-sync loop is one second even when the sync interval
is shorter, and an answer for the empty component id blanks an IP index entry.

## Assumptions

- IPv4 subnets. Addresses are 32-bit numbers, and `ip[3]++` changes the last octet only.
- UIDs are an arbitrary function of the normalised key (hash collisions included).
- Records in storage are those that wg-init wrote: an allowed IP is `address/32`.
- A failed device, storage or file call changes nothing; saving and loading the state file is lossless.
- In-order, one-at-a-time, successful event handling is assumed where `Orderly` says so, and nowhere else.
- The reconcile library's status update saves the whole record through the storage client
  (`internal/storage/storage_generated.go`, lines 876-895), which checks neither that the record still exists nor its
  version.
- Backend inventory data does not change during a run of `SmdRuns`.
- In `SmdAge` background sync is enabled, each read is atomic, and fetching a reply and caching it are one instant.
- A state file that a restart can read is one the controller wrote.

## Model

| member | source | states |
|---|---|---|
| IPAllocation.IPAllocator.constructor | pkg/wireguard/allocator.go:23-39 | the subnet is the masked address, contains it, and nothing is used |
| IPAllocation.IPAllocator.Reserve | pkg/wireguard/allocator.go:42-50 | succeeds exactly for an address of the network and marks exactly that one |
| IPAllocation.IPAllocator.NextAvailable | pkg/wireguard/allocator.go:53-67 | returns `NextFree` of the used set and marks exactly that address; nothing changes on failure |
| IPAllocation.IPAllocator.Release | pkg/wireguard/allocator.go:70-75 | frees exactly the given address |
| IPAllocation.SearchEndsExactly | pkg/wireguard/allocator.go:56-66 | the search loop stops at some iteration iff the prefix is /24 or longer or the first 256 addresses have a free one |
| IPAllocation.FirstStopIsNextFree | pkg/wireguard/allocator.go:56-66 | the address examined at the first stopping iteration is the one `NextFree` names |
| IPAllocation.NextFreeIsLowestHost | pkg/wireguard/allocator.go:53-67 | on /24 and longer: the lowest unused address strictly between network and broadcast, and none iff all are used |
| IPAllocation.ShortPrefixHandsOutNetworkAddress | pkg/wireguard/allocator.go:58-65 | on shorter prefixes the network address is handed out iff it is free and the next 255 are used |
| IPAllocation.ContainsIsInterval | pkg/wireguard/allocator.go:28-32 | netmask membership is lying between network and broadcast address |
| IPAllocation.NoDoubleHandOut | pkg/wireguard/allocator.go:42-75 | over any run no address is handed out twice without a release of it in between |
| WireGuardController.UpsertInstalls | pkg/wireguard/controller.go:157-199 | succeeds iff the device works or the peer is there already; then key and route are as asked, an existing VPN address, every other entry and the keying are kept; it saves iff something changed |
| WireGuardController.RemoveTakesOne | pkg/wireguard/controller.go:202-221 | succeeds iff the peer is there and the device works; takes out that entry only and saves iff it did |
| WireGuardController.CallsChangeOneEntry | pkg/wireguard/controller.go:123-152 | AddPeer stores the given key under a free address iff the device works and there is one; AddPeer and RemovePeer leave every other entry as it was |
| WireGuardController.RestoreInvertsSave | pkg/wireguard/controller.go:308-317 | saving in any order and restoring gives the same peer table iff it is keyed by client IP |
| WireGuardController.RestoreReserves | pkg/wireguard/controller.go:333-350 | restoring reserves the in-network VPN addresses of the saved peers and no others |
| WireGuardController.RunsConserveAddresses | pkg/wireguard/controller.go:123-152 | over every run of AddPeer and RemovePeer with device failures: used = server + peers' addresses, pairwise distinct, in the network |
| WireGuardController.RemoveConserves | pkg/wireguard/controller.go:236-256 | RemovePeer keeps that conservation, whatever the device does |
| WireGuardController.RestartRestoresController | pkg/wireguard/controller.go:297-350 | such a controller, saved and restored, comes back with the same peers and the same used set |
| WireGuardController.Controller.PersistState | pkg/wireguard/controller.go:297-329 | after a successful save, restoring what was saved gives the peer table; otherwise the saved state is unchanged |
| WireGuardController.Controller.AddPeer | pkg/wireguard/controller.go:123-152 | the new table and used set are those of the Add call; a device failure gives the address back; a change is saved |
| WireGuardController.Controller.UpsertPeer | pkg/wireguard/controller.go:157-199 | the new table, result and saved state are `Upsert`'s; an unchanged peer is neither written nor saved |
| WireGuardController.Controller.RemovePeerByID | pkg/wireguard/controller.go:202-221 | removes the entry and releases no address; reports an unknown peer |
| WireGuardController.Controller.RemovePeer | pkg/wireguard/controller.go:236-256 | removes the entry, releases its address, and saves |
| WireGuardController.Reconstruct | pkg/wireguard/controller.go:333-350 | rebuilds the saved table and reserves the saved addresses |
| WireGuardController.NewController | pkg/wireguard/controller.go:42-120 | fails iff device, state directory or keys fail or the server address is outside the network; otherwise peers and used set are the restored ones, none from a file that cannot be read, which stays as it is |
| PeerAddresses.PeersNeverShareAddresses | cmd/server/wireguard_routes.go:63-186 | in every careful run, stored peers with different UIDs have different addresses, each usable and marked used |
| PeerAddresses.StepKeepsInv | cmd/server/wireguard_routes.go:87-136 | each single step keeps it, addresses still carried by handlers included |
| PeerAddresses.RestartIsSafeExactlyWhenCovered | pkg/wireguard/controller.go:71-81 | a restart, with a readable state file or not, keeps it in all continuations iff the restored addresses include every stored one; otherwise two peers come to share one in some continuation iff the startup reconcile succeeded |
| PeerAddresses.UnreadableStateIsNeverCovered | pkg/wireguard/controller.go:73-75 | with an unreadable state file that is so iff nothing is stored |
| PeerAddresses.StoredAddressStaysUsed | pkg/wireguard/controller.go:202-221 | between restarts a stored address is never handed out again, not even after its record is gone |
| PeerAddresses.PoolRunsOut | cmd/server/wireguard_routes.go:165-183 | without a restart at most as many records are saved as the pool has addresses, however many nodes phone home |
| PeerOverlap.OverlappingInitsDiffer | cmd/server/wireguard_routes.go:87-136 | two overlapping wg-inits of one key are answered with different addresses, and the later save replaces the first record |
| PeerOverlap.AnswerStaysStoredExactly | cmd/server/wireguard_routes.go:87-136 | a stored answer stays the stored address in every continuation without a phone-home iff no handler in flight can write another one |
| PeerAddresses.ForgottenAddressIsHandedOutAgain | cmd/server/wireguard_routes.go:227-238 | a stored address that is not marked used is handed out again by enough wg-inits |
| PeerAddresses.UndeliveredPeerIsNotCovered | cmd/server/wireguard_routes.go:132-146 | a peer stored by wg-init is not covered before its event is handled |
| PeerAddresses.DeliveredPeerIsCovered | pkg/wireguard/controller.go:181-199 | it is covered once its event is handled and the controller has saved |
| PeerFollow.ControllerFollowsStore | cmd/server/reconciliation_runtime.go:120-150 | over every orderly run, with nothing pending the controller's peers are the stored ones with equal keys and routes |
| PeerFollow.StepKeepsFollowInv | cmd/server/reconciliation_runtime.go:120-150 | each orderly step keeps: the last pending event of a UID decides whether it is stored |
| PeerFollow.DrainedAgreesExactly | pkg/reconcilers/wireguardpeer_reconciler.go:50-98 | while no handler moves, handling the queue ends in agreement on a UID iff `SettlesInAgreement` |
| PeerSettle.SettlesExactly | cmd/server/wireguard_routes.go:87-183 | with any handlers of a UID in flight, all completions end in agreement on it iff the state is `Harmless` |
| PeerSettle.StepStaysHarmless | cmd/server/reconciliation_runtime.go:120-150 | every step of a completion keeps a harmless state harmless |
| PeerSettle.HarmEndsApart | cmd/server/wireguard_routes.go:165-183 | from a harmful state some completion ends with controller and store apart |
| PeerSettle.IdleIsHarmlessExactly | cmd/server/reconciliation_runtime.go:120-150 | with no handler of the UID in flight, harmless is `SettlesInAgreement` |
| PeerFollow.RestartAgreesExactly | cmd/server/reconciliation_runtime.go:105-118 | after a restart and full reconcile controller and store agree iff no restored peer has lost its record |
| PeerOverlap.SilentDeletionLeavesPeer | cmd/server/wireguard_routes.go:166-182 | overlapping handlers of one UID can leave a peer whose record is gone, with nothing pending |
| PeerOverlap.StatusUpdateRevivesRecord | pkg/reconcilers/wireguardpeer_reconciler.go:100-114 | a status update overlapping a phone-home can leave a record whose peer is gone, with nothing pending |
| PeerAddresses.StatusKeepsInv | pkg/reconcilers/wireguardpeer_reconciler.go:100-114 | saving an old copy of a record still gives no two UIDs one address |
| PeerProtocol.DeliverRunEffect | pkg/reconcilers/wireguardpeer_reconciler.go:50-98 | an undisturbed delivery changes the controller as the event says, with the stored record, and leaves the store as it was |
| PeerProtocol.InitRunEffect | cmd/server/wireguard_routes.go:87-148 | an undisturbed wg-init for a new UID stores the next free address and queues one creation, or changes nothing |
| PeerProtocol.HomeRunEffect | cmd/server/wireguard_routes.go:165-183 | an undisturbed phone-home removes the record and queues one deletion iff there was a record |
| MetadataServer.Server.Admit | cmd/server/wireguard_routes.go:103-146 | succeeds iff the save does and an address is free; then exactly that address is marked, the record is stored, and the creation is queued iff the publish works; otherwise nothing changes; it is the machine's undisturbed run |
| MetadataServer.Server.WgInit | cmd/server/wireguard_routes.go:63-149 | succeeds iff the key is valid, the load works, and the UID is known or can be admitted; a known key is answered from its record and changes nothing; a new one is stored under its normal form, queued and marked; an error changes nothing |
| MetadataServer.InitTwice | cmd/server/wireguard_routes.go:75-98 | two spellings of one key get the same UID and address, and the second request changes nothing |
| MetadataServer.Server.FindByVPNIP | cmd/server/wireguard_routes.go:306-328 | fails iff the listing does or the address does not parse; otherwise finds a holder iff there is one, in any listing order |
| MetadataServer.Server.ResolvePhoneHome | cmd/server/wireguard_routes.go:269-304 | an existing route id wins; otherwise a holder of the address known for the route id; otherwise one of the caller's; otherwise the route id; storage and address errors end the search |
| MetadataServer.Server.PhoneHome | cmd/server/wireguard_routes.go:151-186 | removes exactly the record so resolved, the route id's if the resolution failed; queues its deletion iff it was there and the publish works; fails iff load or delete do |
| MetadataServer.Server.HandleNextEvent | cmd/server/reconciliation_runtime.go:120-150 | performs the machine's delivery run of the oldest event with these outcomes, touches no other entry or record, and saves iff the table changed |
| MetadataServer.Server.ReconcileExisting | cmd/server/reconciliation_runtime.go:105-118 | in any listing order the reached records are upserted; succeeds iff every status update works and every upsert with something to change meets a working device; the state file is as of the last save that succeeded |
| MetadataServer.Restarted | cmd/server/reconciliation_runtime.go:49-67 | peers and used set are restored iff the state file can be read; restored peers without a record stay; the service is up iff the reconcile succeeds, and then has every record; it is the machine's restart step |
| PublicKey.DecodeInvertsEncode | cmd/server/wireguard_routes.go:208-215 | base64 decoding inverts encoding for every byte string |
| PublicKey.NormalFormIsCanonical | cmd/server/wireguard_routes.go:203-216 | accepted are exactly the spellings of 32-byte keys; spellings normalise alike iff they spell one key; normalisation is idempotent |
| KeySpelling.NormalAlreadyExactly | cmd/server/wireguard_routes.go:203-216 | an accepted spelling is its own normal form iff it is trimmed, has no line breaks and zero trailing bits |
| KeySpelling.LettersAreTheAlphabet | cmd/server/wireguard_routes.go:208-215 | the letters are the standard alphabet, in order |
| SmdCache.IPIndexIsLastClaimant | pkg/smdclient/integration_service.go:230-240 | after a sync an address is indexed iff some listed component claims it, to the last one that does |
| SmdCache.WGIndexIsLastClaimant | pkg/smdclient/integration_service.go:225-228 | the same for WireGuard addresses |
| SmdCache.NodesAreLastSnapshots | pkg/smdclient/integration_service.go:199-243 | a node is the snapshot of the last entry that lists its id |
| SmdCache.ResolvePrefersWireGuard | pkg/smdclient/integration_service.go:100-122 | a WireGuard entry wins over any IP entry, from a fresh cache or without a backend id; a stale cache prefers the backend's |
| SmdCache.WriteBackIsRead | pkg/smdclient/integration_service.go:275-294 | what a reply leaves behind is what a fresh read of the same query gives; addresses are indexed with the id they were resolved to |
| SmdCache.WriteBackIndexesAddresses | pkg/smdclient/integration_service.go:412-423 | the addresses of a component and of its interfaces are indexed with it |
| SmdCache.WriteBackKeepsWireGuard | pkg/smdclient/integration_service.go:284-294 | WireGuard data changes only by WireGuard replies, for the pair they name, and those change nothing else |
| SmdCache.StaleAfterTwoIntervals | pkg/smdclient/integration_service.go:256-264 | never stale with sync disabled, stale before the first sync, and then from just after two intervals |
| SmdService.PickHMNIP | pkg/smdclient/mock.go:135-151 | the nested loops return the first HMN address, else the first non-empty one |
| SmdService.PicksFirstHMN | pkg/smdclient/mock.go:135-167 | the first position whose network is HMN, ignoring case, gives the address and its interface the MAC |
| SmdService.PicksFirstAddress | pkg/smdclient/mock.go:143-150 | without one, the first position with a non-empty address gives it |
| SmdService.PicksFirstMAC | pkg/smdclient/mock.go:161-166 | and the first interface with a non-empty MAC gives it |
| SmdService.PickHMNMAC | pkg/smdclient/mock.go:153-167 | the nested loops return the MAC of the first HMN address, else the first non-empty MAC |
| SmdService.IndexInterfaces | pkg/smdclient/integration_service.go:233-240 | the nested loops index every non-empty address, later ones winning |
| SmdService.Service.constructor | pkg/smdclient/integration_service.go:70-90 | an empty cache, never synced, with the default interval for a non-positive one |
| SmdService.Service.SyncOnce | pkg/smdclient/integration_service.go:182-254 | a successful sync puts `Synced` in place; a failed one changes nothing |
| SmdService.Service.CacheIPIndex | pkg/smdclient/integration_service.go:275-282 | indexes a non-empty address under a non-empty id only |
| SmdService.Service.CacheWGIP | pkg/smdclient/integration_service.go:284-294 | writes node and index together, for non-empty id and address only |
| SmdService.Service.ResolveComponentID | pkg/smdclient/integration_service.go:94-122 | is `Read`; a non-empty WireGuard entry is the answer whatever the IP index has, from a fresh cache or without a backend id; backend ids are written back |
| SmdService.Service.IDfromIP | pkg/smdclient/integration_service.go:297-315 | is `Read` of the IP index |
| SmdService.Service.IDfromWGIP | pkg/smdclient/integration_service.go:318-336 | is `Read` of the WireGuard index |
| SmdService.Service.IPfromID | pkg/smdclient/integration_service.go:339-368 | is `Read` of the preferred address |
| SmdService.Service.MACfromID | pkg/smdclient/integration_service.go:371-399 | is `Read` of the preferred MAC and writes nothing back |
| SmdService.Service.ComponentInformation | pkg/smdclient/integration_service.go:402-431 | is `Read` of the component, write-back into node and IP index |
| SmdService.Service.GroupMembership | pkg/smdclient/integration_service.go:434-457 | is `Read` of the groups; any node counts as an answer |
| SmdService.Service.AddWGIP | pkg/smdclient/integration_service.go:460-467 | caches the registration iff the backend took it |
| SmdService.Service.WGIPfromID | pkg/smdclient/integration_service.go:470-489 | is `Read` of the WireGuard address |
| SmdService.Service.EthernetNICInfo | pkg/smdclient/integration_service.go:492-515 | is `Read` of the NICs |
| SmdService.Service.EthernetInterfaces | pkg/smdclient/integration_service.go:518-548 | is `Read` of the interfaces, write-back into node and IP index |
| SmdRuns.CacheIsTransparent | pkg/smdclient/integration_service.go:339-457 | in every interleaving, a read of a fully fetched component answers what the backend would, fresh or stale, even if the call fails |
| SmdRuns.StepKeepsCacheInv | pkg/smdclient/integration_service.go:182-254 | every sync step and write-back keeps fully fetched nodes equal to the backend's data |
| SmdRuns.UnlistedNodeHidesGroups | pkg/smdclient/integration_service.go:439-441 | after AddWGIP for an unlisted id a fresh GroupMembership agrees with the backend iff the backend has no groups |
| SmdRuns.IndexStaysLinked | pkg/smdclient/integration_service.go:284-294 | in every run each id in the WireGuard index has a node, and each node's WireGuard address is in the index |
| SmdRuns.RegistrationIsRead | pkg/smdclient/integration_service.go:460-489 | once registered, and never with another partner, every later lookup and backend reply gives `w` for the id and the id for `w`, in every interleaving with syncs and other registrations |
| SmdRuns.RegistrationIsResolved | pkg/smdclient/integration_service.go:94-122 | once a registration is written back, a fresh resolution of its address gives its id until the next swap, whatever the IP index has |
| SmdRuns.FirstUseIsPaired | pkg/smdclient/integration_service.go:460-467 | runs in which nothing is registered twice are such runs for each pair they register |
| SmdRuns.ReplacementIsReadExactly | pkg/smdclient/integration_service.go:182-254 | from a state that reads a pair, every continuation goes on reading it iff no pending write-back and no gathered entry that a swap would keep carries another partner |
| SmdRuns.SecondRegistrationCanBeLost | pkg/smdclient/integration_service.go:460-467 | two registrations of one id can leave the replaced address in the cache |
| SmdFailOpen.AnswersDoNotTurnIntoErrors | pkg/smdclient/integration_service.go:94-122 | in every interleaving, no later read of a lasting query can fail before the next successful sync iff the cache in place answers it |
| SmdFailOpen.ReturnedAnswerLastsExactly | pkg/smdclient/integration_service.go:297-336 | for a returned answer that is so iff no swap came since it was found or written back, or the last swap serves it, or something written after it does |
| SmdFailOpen.OvertakenAnswerIsLost | pkg/smdclient/integration_service.go:297-315 | a swap between lookup and fallback: the answer is returned and the next read fails with no sync in between |
| SmdFailOpen.WriteBackServes | pkg/smdclient/integration_service.go:275-294 | after a write-back a lasting query is answered iff it was before or the write-back alone answers it |
| SmdFailOpen.UndisturbedRead | pkg/smdclient/integration_service.go:297-315 | a read that nothing interleaves with is `Read` |
| SmdFailOpen.EntryIsLostExactly | pkg/smdclient/integration_service.go:412-423 | a write-back takes an IP index entry away iff it is of a read under the empty id that names that address |
| SmdFailOpen.OthersOnlyGrow | pkg/smdclient/integration_service.go:275-294 | WireGuard entries, nodes and their components never vanish between syncs |
| SmdFailOpen.EmptyIdReadLosesAddress | pkg/smdclient/integration_service.go:414-421 | one read under the empty id makes an address that resolved fail |
| SmdAge.TtlCache.Get | pkg/smdclient/http_client.go:446-455 | a hit is the stored value, up to and including its expiry |
| SmdAge.TtlCache.GetOrFetch | pkg/smdclient/http_client.go:249-277 | the live entry, or else SMD's reply, which is then cached for one TTL: the `Fetch` that the runs use |
| SmdAge.CallIsRecent | pkg/smdclient/http_client.go:73-277 | a client answer from SMD was fetched at most one TTL ago, groups just now; only WireGuard lookups and the resolver answer from registrations |
| SmdAge.CallPicks | pkg/smdclient/http_client.go:112-140 | the preferred address and MAC come from the interfaces as the client has them, and from the component only where those give none |
| SmdAge.StoreTouches | pkg/smdclient/integration_service.go:275-294 | a write-back changes the data it is stamped for and no other |
| SmdAge.FreshAnswersAreYoung | pkg/smdclient/integration_service.go:256-264 | in every run a fresh answer from SMD data was fetched within the bound of its kind, but for unfetched groups and registered addresses |
| SmdAge.GroupsAreYoungExactly | pkg/smdclient/integration_service.go:434-457 | a fresh answer for groups was fetched within 2 x interval + sync duration iff they were fetched since the node was made, and is none otherwise |
| SmdAge.AgeBoundIsReached | pkg/smdclient/integration_service.go:256-264 | for every setting and duration one run has interfaces, NICs, an index entry and groups exactly as old as their bounds, and a component if the sync takes a TTL |
| SmdAge.ComponentBoundIsReached | pkg/smdclient/integration_service.go:402-423 | a component that a read brings back reaches its bound when the sync is shorter than the TTL |
| SmdAge.UnfetchedGroupsAreServed | pkg/smdclient/integration_service.go:439-441 | after a failed group fetch a fresh read answers no groups, which SMD never said |
| SmdAge.IndexAnswersAreYoungExactly | pkg/smdclient/integration_service.go:94-122 | a fresh answer from the IP index was fetched within its bound iff its entry was not last written by a resolution of that address through a registration |
| SmdAge.RegistrationIsIndexed | pkg/smdclient/integration_service.go:107-111 | an address that is registered and then resolved is answered from the IP index, and SMD was never asked |
| RetryPolicy.WaitIsCappedExponential | pkg/smdclient/service_token_manager.go:657-674 | the k-th wait is min(initial x 2^(k-1), max) for all k iff both are below 2^62 ns |
| RetryPolicy.SyncWaitIsCappedExponential | pkg/smdclient/integration_service.go:139-153 | the first-sync waits have that form iff the interval is at least one second (and below 2^62 ns) |
| RetryPolicy.TotalWaitIsBounded | pkg/smdclient/service_token_manager.go:642-675 | the total wait is at most (attempts - 1) x max |
| RetryPolicy.UncappedWaitDoubles | pkg/smdclient/service_token_manager.go:657-674 | without a cap the waits double as long as they fit in 64 bits |
| TokenManager.RetriesMarkUnhealthyExactly | pkg/smdclient/service_token_manager.go:642-681 | at most `attempts` calls; unhealthy iff told to fail closed and every attempt failed without cancellation |
| TokenManager.UnhealthyExactlyByExhaustion | pkg/smdclient/service_token_manager.go:312-364 | a call that runs alone turns a healthy manager unhealthy iff it exhausts a refresh |
| TokenManager.GrantIsGoodForItsLifetime | pkg/smdclient/service_token_manager.go:519-554 | after a grant, GetToken answers its access token without a contact iff the margin of its lifetime is left; a refresh sends its refresh token and reaches the endpoint iff that one has not expired |
| TokenManager.BootstrapTokenIsGranted | pkg/smdclient/service_token_manager.go:288-297 | with a bootstrap client an issued token is the non-empty one of the grant that ended the retries |
| TokenRuns.UnhealthyOnlyByExhaustion | pkg/smdclient/service_token_manager.go:642-711 | in every interleaving the manager is unhealthy iff some refresh was marked after failing in every attempt it may make |
| TokenRuns.LatchHolds | pkg/smdclient/service_token_manager.go:688-706 | from then on it stays unhealthy, calls begun later are refused, and contacts are at most the attempts that calls under way have left |
| TokenRuns.RemainingContactsCanHappen | pkg/smdclient/service_token_manager.go:642-675 | a call under way can make every one of its remaining contacts, unhealthy manager or not |
| TokenRuns.AllRemainingContactsCanHappen | pkg/smdclient/service_token_manager.go:642-675 | all calls under way together can, so the bound of `LatchHolds` is reached |
| TokenRuns.CallInFlightStillIssues | pkg/smdclient/service_token_manager.go:280-309 | from any such state a GetToken under way can be overtaken by the latch and still return a newly granted token |
| TokenRuns.TokenAfterLatch | pkg/smdclient/service_token_manager.go:312-364 | such a run from the start, for any number of refresh attempts |
| TokenRuns.NoRequestWithoutToken | pkg/smdclient/http_client.go:297-311 | in every interleaving a client with a manager sends only with a non-empty token, the manager's current one when read, after a passed health check |
| TokenRuns.StaticTokenIsSent | pkg/smdclient/http_client.go:303-311 | without a manager the request goes out, with the static token iff it is not blank |
| TokenRuns.IssuedTokenIsCurrent | pkg/smdclient/service_token_manager.go:280-309 | in every interleaving an issued mTLS token is that of the last grant any call received, which came since the refresh check or had the margin of its lifetime left at it |
| TokenRuns.CallIsRun | pkg/smdclient/service_token_manager.go:243-364 | a call that runs alone among others in flight is a run of the machine and comes to its specification's state and result |
| TokenManager.Manager.Initialize | pkg/smdclient/service_token_manager.go:243-277 | is `Initialized`: refuses when unhealthy, retries without failing closed, with the bootstrap waits |
| TokenManager.Manager.UpdateTokens | pkg/smdclient/service_token_manager.go:537-554 | all four parts of a grant are needed; then each token gets its own lifetime from the reply; otherwise nothing changes |
| TokenManager.Manager.AttemptOnce | pkg/smdclient/service_token_manager.go:426-518 | a missing or expired refresh token fails without contacting the endpoint |
| TokenManager.Manager.WithRetries | pkg/smdclient/service_token_manager.go:622-682 | outcome and state are those of the retry specification, the waits those of the policy |
| TokenManager.Manager.RefreshTokenIfNeeded | pkg/smdclient/service_token_manager.go:312-364 | is `Refreshed`: refuses when unhealthy, skips when not near expiry, retries failing closed, with the refresh waits |
| TokenManager.Manager.GetToken | pkg/smdclient/service_token_manager.go:280-309 | is `TokenGot`: a non-empty token after a successful refresh check, or none |
| MergePatch.CompiledPatchMeansItsFlags | cmd/client/main.go:496-541 | applying the compiled patch equals performing the flags on every document iff the flags are faithful |
| MergePatch.FaithfulMeaning | cmd/client/main.go:230-264 | for faithful flags the two agree on each document |
| MergePatch.Witness | cmd/client/main.go:239-245 | for other flags there is a document on which they differ |
| MergePatch.AtMerge | cmd/client/main.go:458-459 | merging acts at a path as it acts on the values there |
| MergePatch.FlagIsInPatch | cmd/client/main.go:230-264 | the patch has a flag's value at its path unless a later flag writes above, at or below it |
| MergePatch.UnsetOnlyRemovesExactly | cmd/client/main.go:510-512 | the compiled unset is plain removal on a document iff every strict prefix of the path is an object there |
| ShorthandPatch.PatchBuilder.Enter | cmd/client/main.go:235-246 | one move of `current`: enters the nested map, made where missing, null or no object |
| ShorthandPatch.PatchBuilder.SetNestedField | cmd/client/main.go:230-264 | the in-place walk over unshared maps sets the path in the object they stand for, and nothing else |
| ShorthandPatch.SplitDotsInverts | cmd/client/main.go:231 | joining the parts of a path with dots gives the path back |
| ShorthandPatch.SplitDotsParts | cmd/client/main.go:231 | no part contains a dot |
| ShorthandPatch.SplitPairInverts | cmd/client/main.go:502-505 | a pair splits iff it has '=', at the first one, and nothing is lost |
| ShorthandPatch.SetPairs | cmd/client/main.go:501-507 | folds over the pairs, each value parsed as JSON or else kept as text; fails iff some pair has no '=' |
| ShorthandPatch.UnsetFields | cmd/client/main.go:510-512 | folds nulls over the fields |
| ShorthandPatch.Shorthand | cmd/client/main.go:496-541 | a patch iff all pairs have '=' and there is no --remove; it has at each field what the last flag there says: the parsed JSON or else the text for --set and --add, null for --unset, with adds after unsets after sets |
| TemplateHistory.HistoryIsBoundedOrderedMap | apis/cloud-init.openchami.io/v1/group_types.go:248-277 | after any validations: at most ten entries, distinct, first-in first-out, current present, each with its latest outcome |
| TemplateHistory.HasTemplateVariableData | apis/cloud-init.openchami.io/v1/group_types.go:101-116 | true iff there is a value at the dotted path |
| TemplateHistory.Group.TrackTemplateVersion | apis/cloud-init.openchami.io/v1/group_types.go:248-277 | the search loop updates the version's entry in place, or appends and keeps the last ten |
| TemplateHistory.ValidExactly | apis/cloud-init.openchami.io/v1/group_types.go:202-245 | valid iff there is a template, each of its variables has data, and it renders to YAML |
| TemplateHistory.ErrorExactly | apis/cloud-init.openchami.io/v1/group_types.go:202-245 | which of the errors is reported, and with which names or detail |
| TemplateHistory.GroupValueWins | apis/cloud-init.openchami.io/v1/group_types.go:78-88 | key by key the group's value wins over the default |
| TemplateHistory.FindMissing | apis/cloud-init.openchami.io/v1/group_types.go:213-218 | collects exactly the variables without data, in order |
| TemplateHistory.Group.Validate | apis/cloud-init.openchami.io/v1/group_types.go:202-245 | status, message and required variables are the verdict's, and exactly that outcome is tracked under the template's version |
| Hostname.SuffixReadsBack | pkg/handlers/metadata.go:322-328 | the suffix gives the NID back for every width and every NID, negative ones included |
| Hostname.DefaultHostname | pkg/handlers/metadata.go:308-329 | with default settings: two bytes of the cluster name and four digits that read back as the NID |
| Hostname.HostnamesAreInjective | pkg/handlers/metadata.go:308-329 | hostnames are injective in the NID for any settings; the length is prefix + max(pad width, printed width) |
| Hostname.HostnameStartsWithName | pkg/handlers/metadata.go:312-320 | it starts with the short name, or without one with the first two bytes of the cluster name |

## Left out

- Generated CRUD handlers, routes, OpenAPI and client methods, and REST edits of WireGuardPeer records: storage is a map from UID to record.
- The device's own contents, TUN and key generation: device calls only succeed or fail.
- File and YAML handling of the saved state; TLS, HTTP and JSON decoding; the TokenSmith bootstrap client's internals.
- Pongo2 rendering, YAML checking, variable extraction, SHA-256: function parameters.
- IPv6 networks, for which `start[3]++` would change the fourth of sixteen bytes.
- The contents of the status fields (their record save is a step of the machine), `eventAction`, and the choice of client IP from request headers.
- The requester identity that wg-init looks up in SMD, and its AddWGIP call: they do not touch peers or addresses.
- The branch of pkg/smdclient/resolve.go for backends with a resolver of their own: the HTTP client has none.
- Config loading, ticker loops (`runAutoRefresh`, the periodic part of `runSyncLoop`), and the middleware package.
- SmdAge.FreshAnswersAreYoung: a read that interleaves with a sync is not modelled, because a write-back delayed without limit has no age bound.
