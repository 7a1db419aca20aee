/** Fail-open availability of the integration service (pkg/smdclient/integration_service.go): which answers cannot turn
    into errors before the next successful sync, whatever the backend replies. A read looks the cache up, calls the
    backend and writes back or falls back under separate locks, so reads interleave with each other and with syncs. */
module SmdFailOpen {
  import opened Prelude
  import opened SmdCache

  // ---------------------------------------------------------------- interleaved reads

  /** Where a read stands: it has looked the cache up and holds what it would fall back to; it has its answer; or it
      has returned it. */
  datatype Phase =
    | Looked(q: Query, held: Option<Value>)
    | Answered(q: Query, answer: Option<Value>)
    | Returned(q: Query, answer: Option<Value>)

  datatype Sys = Sys(cache: Cache, calls: seq<Phase>)

  const INITIAL: Sys := Sys(EMPTY_CACHE, [])

  datatype Step =
    | Look(q: Query, stale: bool)
    | WriteBack(r: nat, v: Value)           // the backend answered
    | FallBack(r: nat)                      // the backend failed
    | Return(r: nat)
    | Register(id: Id, wgip: string)        // the cache part of AddWGIP
    | Swap(entries: seq<Entry>)             // a sync succeeded
    | FailedSync

  predicate Enabled(s: Sys, t: Step) {
    match t
    case WriteBack(r, v) => r < |s.calls| && s.calls[r].Looked? && Fits(s.calls[r].q, v)
    case FallBack(r) => r < |s.calls| && s.calls[r].Looked?
    case Return(r) => r < |s.calls| && s.calls[r].Answered?
    case _ => true
  }

  function After(s: Sys, t: Step): Sys
    requires Enabled(s, t)
  {
    match t
    case Look(q, stale) =>
      s.(calls := s.calls + [if q == Resolve("") then Answered(q, None)
                             else if !stale && Hit(s.cache, q).Some? then Answered(q, Hit(s.cache, q))
                             else Looked(q, Fallback(s.cache, q))])
    case WriteBack(r, v) =>
      Sys(Store(s.cache, s.calls[r].q, v), s.calls[r := Answered(s.calls[r].q, Some(v))])
    case FallBack(r) => s.(calls := s.calls[r := Answered(s.calls[r].q, s.calls[r].held)])
    case Return(r) => s.(calls := s.calls[r := Returned(s.calls[r].q, s.calls[r].answer)])
    case Register(id, w) => s.(cache := CacheWG(s.cache, id, w))
    case Swap(entries) => s.(cache := Synced(entries))
    case FailedSync => s
  }

  ghost predicate Reaches(s: Sys, steps: seq<Step>, s': Sys)
    decreases |steps|
  {
    if steps == [] then s == s' else Enabled(s, steps[0]) && Reaches(After(s, steps[0]), steps[1..], s')
  }

  /** A read that nothing interleaves with is the `Read` of SmdCache. */
  lemma UndisturbedRead(s: Sys, q: Query, stale: bool, reply: Option<Value>) returns (steps: seq<Step>)
    requires reply.Some? ==> Fits(q, reply.value)
    ensures var reading := Read(s.cache, q, stale, reply);
            Reaches(s, steps, Sys(reading.cache, s.calls + [Returned(q, reading.answer)]))
  {
    var r := |s.calls|;
    var reading := Read(s.cache, q, stale, reply);
    var s1 := After(s, Look(q, stale));
    var s2 := Sys(reading.cache, s.calls + [Answered(q, reading.answer)]);
    var s3 := Sys(reading.cache, s.calls + [Returned(q, reading.answer)]);
    assert s2.calls[r := Returned(q, reading.answer)] == s3.calls;
    steps := [Return(r)];
    assert Reaches(s2, steps, s3) by {
      assert steps[1..] == [];
    }
    if s1.calls[r].Looked? {
      var t := if reply.Some? then WriteBack(r, reply.value) else FallBack(r);
      assert s1.calls[r := Answered(q, reading.answer)] == s2.calls;
      assert After(s1, t) == s2;
      StepThen(s1, t, steps, s3);
      steps := [t] + steps;
    }
    StepThen(s, Look(q, stale), steps, s3);
    steps := [Look(q, stale)] + steps;
  }

  lemma StepThen(s: Sys, t: Step, rest: seq<Step>, s': Sys)
    requires Enabled(s, t) && Reaches(After(s, t), rest, s')
    ensures Reaches(s, [t] + rest, s')
  {
    assert ([t] + rest)[1..] == rest;
  }

  // ---------------------------------------------------------------- what write-backs do to lasting answers

  /** The queries whose answers stay available: those by a non-empty address, and those for a node's
      component or groups. */
  predicate Lasting(q: Query) {
    match q
    case Resolve(ip) => ip != ""
    case IDFromIP(ip) => ip != ""
    case IDFromWG(w) => w != ""
    case ComponentOf(_) => true
    case GroupsOf(_) => true
    case _ => false
  }

  predicate NonEmpty(v: Value) {
    v.Text? ==> v.s != ""
  }

  /** The one way an indexed address is lost: a read under the empty id that is answered with that address. */
  ghost predicate Erases(q: Query, v: Value, ip: string) {
    && ip != ""
    && match q
       case ComponentOf(id) => id == "" && v.Comp? && v.c.ip == ip
       case IfacesOf(id) => id == "" && v.IfaceList? && exists x :: x in Addresses(v.ifaces) && x.1.ip == ip
       case _ => false
  }

  /** A write-back takes away the index entry of an address exactly when it erases it. */
  lemma EntryIsLostExactly(c: Cache, q: Query, v: Value, ip: string)
    requires Fits(q, v) && Lookup(c.ipToID, ip).Some? && ip != ""
    ensures Lookup(Store(c, q, v).ipToID, ip).None? <==> Erases(q, v, ip)
  {
    if q.IfacesOf? {
      IndexedAddresses(c.ipToID, Addresses(v.ifaces), q.id, ip);
    }
  }

  /** The WireGuard index and the nodes only grow. */
  lemma OthersOnlyGrow(c: Cache, q: Query, v: Value)
    requires Fits(q, v)
    ensures forall w :: Lookup(c.wgipMap, w).Some? ==> Lookup(Store(c, q, v).wgipMap, w).Some?
    ensures forall id :: id in c.nodes ==> id in Store(c, q, v).nodes
    ensures forall id :: id in c.nodes && c.nodes[id].component.Some? ==> Store(c, q, v).nodes[id].component.Some?
  {
  }

  /** Not a read under the empty id for a component or its interfaces. */
  predicate Named(q: Query) {
    q != ComponentOf("") && q != IfacesOf("")
  }

  /** The write-back by itself makes the cache answer `q`. */
  predicate Serves(p: Query, v: Value, q: Query)
    requires Fits(p, v)
  {
    Hit(Store(EMPTY_CACHE, p, v), q).Some?
  }

  lemma WriteBackIndexes(c: Cache, p: Query, v: Value, ip: string)
    requires Fits(p, v) && Named(p) && ip != ""
    ensures Lookup(Store(c, p, v).ipToID, ip).Some? <==>
            Lookup(c.ipToID, ip).Some? || Lookup(Store(EMPTY_CACHE, p, v).ipToID, ip).Some?
  {
    if p.IfacesOf? {
      IndexedAddresses(c.ipToID, Addresses(v.ifaces), p.id, ip);
      IndexedAddresses(map[], Addresses(v.ifaces), p.id, ip);
    }
  }

  lemma WriteBackRegisters(c: Cache, p: Query, v: Value, w: string)
    requires Fits(p, v)
    ensures Lookup(Store(c, p, v).wgipMap, w).Some? <==>
            Lookup(c.wgipMap, w).Some? || Lookup(Store(EMPTY_CACHE, p, v).wgipMap, w).Some?
  {
  }

  lemma WriteBackMakesNodes(c: Cache, p: Query, v: Value, id: Id)
    requires Fits(p, v)
    ensures id in Store(c, p, v).nodes <==> id in c.nodes || id in Store(EMPTY_CACHE, p, v).nodes
    ensures NodeOf(Store(c, p, v), id).component.Some? <==>
            NodeOf(c, id).component.Some? || NodeOf(Store(EMPTY_CACHE, p, v), id).component.Some?
  {
  }

  /** After a named write-back a lasting query is answered exactly when it was before or the write-back serves it. */
  lemma WriteBackServes(c: Cache, p: Query, v: Value, q: Query)
    requires Fits(p, v) && Named(p) && Lasting(q)
    ensures Hit(Store(c, p, v), q).Some? <==> Hit(c, q).Some? || Serves(p, v, q)
  {
    match q
    case Resolve(ip) =>
      WriteBackIndexes(c, p, v, ip);
      WriteBackRegisters(c, p, v, ip);
    case IDFromIP(ip) => WriteBackIndexes(c, p, v, ip);
    case IDFromWG(w) => WriteBackRegisters(c, p, v, w);
    case ComponentOf(id) => WriteBackMakesNodes(c, p, v, id);
    case GroupsOf(id) => WriteBackMakesNodes(c, p, v, id);
  }

  /** A read's own write-back serves its query, if the answer is not empty. */
  lemma OwnWriteBackServes(q: Query, v: Value)
    requires Fits(q, v) && Lasting(q) && NonEmpty(v)
    ensures Serves(q, v, q)
  {
  }

  lemma LastingFallback(c: Cache, q: Query)
    requires Lasting(q)
    ensures Fallback(c, q) == Hit(c, q)
  {
  }

  // ---------------------------------------------------------------- runs

  ghost predicate NamedSteps(steps: seq<Step>) {
    forall i :: 0 <= i < |steps| && steps[i].Look? ==> Named(steps[i].q)
  }

  ghost predicate NamedReads(s: Sys) {
    forall r :: 0 <= r < |s.calls| ==> Named(s.calls[r].q)
  }

  ghost predicate NoSwap(steps: seq<Step>) {
    forall i :: 0 <= i < |steps| ==> !steps[i].Swap?
  }

  /** Whether the cache answers `q` after the step, given whether it did before. */
  ghost predicate ServedAfter(s: Sys, t: Step, q: Query, was: bool)
    requires Enabled(s, t)
  {
    match t
    case Swap(entries) => Hit(Synced(entries), q).Some?
    case WriteBack(r, v) => was || Serves(s.calls[r].q, v, q)
    case Register(id, w) => was || Serves(WGFromID(id), Text(w), q)
    case _ => was
  }

  lemma StepServes(s: Sys, t: Step, q: Query)
    requires Enabled(s, t) && NamedReads(s) && Lasting(q)
    ensures Hit(After(s, t).cache, q).Some? <==> ServedAfter(s, t, q, Hit(s.cache, q).Some?)
  {
    match t
    case WriteBack(r, v) => WriteBackServes(s.cache, s.calls[r].q, v, q);
    case Register(id, w) => WriteBackServes(s.cache, WGFromID(id), Text(w), q);
    case _ =>
  }

  /** Served at the end of a run: by the last swap's entries, or by a write-back or registration after it, or -- with no
      swap -- from before. */
  ghost predicate StillServed(s: Sys, steps: seq<Step>, s': Sys, q: Query, was: bool)
    requires Reaches(s, steps, s')
    decreases |steps|
  {
    if steps == [] then was
    else StillServed(After(s, steps[0]), steps[1..], s', q, ServedAfter(s, steps[0], q, was))
  }

  lemma StaysNamed(s: Sys, t: Step)
    requires Enabled(s, t) && NamedReads(s) && (t.Look? ==> Named(t.q))
    ensures NamedReads(After(s, t))
  {
  }

  lemma {:induction false} ServedExactly(s: Sys, steps: seq<Step>, s': Sys, q: Query)
    requires Reaches(s, steps, s') && NamedReads(s) && NamedSteps(steps) && Lasting(q)
    ensures Hit(s'.cache, q).Some? <==> StillServed(s, steps, s', q, Hit(s.cache, q).Some?)
    ensures NamedReads(s')
    decreases |steps|
  {
    if steps != [] {
      StepServes(s, steps[0], q);
      StaysNamed(s, steps[0]);
      ServedExactly(After(s, steps[0]), steps[1..], s', q);
    }
  }

  lemma {:induction false} ServedWithoutSwap(s: Sys, steps: seq<Step>, s': Sys, q: Query)
    requires Reaches(s, steps, s') && NoSwap(steps)
    ensures StillServed(s, steps, s', q, true)
    decreases |steps|
  {
    if steps != [] {
      ServedWithoutSwap(After(s, steps[0]), steps[1..], s', q);
    }
  }

  // ---------------------------------------------------------------- answers and errors

  /** No read of `q` begun from now on gives an error before the next successful sync, whatever happens until then. */
  ghost predicate CannotFail(s: Sys, q: Query) {
    forall steps, s', r :: Reaches(s, steps, s') && NoSwap(steps) && NamedSteps(steps)
                           && |s.calls| <= r < |s'.calls| && s'.calls[r].q == q && !s'.calls[r].Looked? ==>
      s'.calls[r].answer.Some?
  }

  /** A read of `q` that has begun while the cache answers it has something to fall back to. */
  ghost predicate Backed(p: Phase, q: Query) {
    p.q == q ==> if p.Looked? then p.held.Some? else p.answer.Some?
  }

  lemma {:induction false} NewReadsAreBacked(s: Sys, steps: seq<Step>, s': Sys, q: Query, first: nat)
    requires Reaches(s, steps, s') && NoSwap(steps) && NamedSteps(steps) && NamedReads(s)
    requires Lasting(q) && Hit(s.cache, q).Some? && first <= |s.calls|
    requires forall r :: first <= r < |s.calls| ==> Backed(s.calls[r], q)
    ensures first <= |s'.calls| && forall r :: first <= r < |s'.calls| ==> Backed(s'.calls[r], q)
    decreases |steps|
  {
    if steps != [] {
      StepServes(s, steps[0], q);
      StaysNamed(s, steps[0]);
      LastingFallback(s.cache, q);
      NewReadsAreBacked(After(s, steps[0]), steps[1..], s', q, first);
    }
  }

  /** The exact condition: in any state -- in particular when a read of `q` has just returned an answer -- no later read
      of `q` can give an error before the next successful sync if and only if the cache in place answers `q` itself. */
  lemma AnswersDoNotTurnIntoErrors(s: Sys, q: Query)
    requires Lasting(q) && NamedReads(s) && Named(q)
    ensures CannotFail(s, q) <==> Hit(s.cache, q).Some?
  {
    if Hit(s.cache, q).Some? {
      forall steps, s', r | Reaches(s, steps, s') && NoSwap(steps) && NamedSteps(steps)
                            && |s.calls| <= r < |s'.calls| && s'.calls[r].q == q && !s'.calls[r].Looked?
        ensures s'.calls[r].answer.Some?
      {
        NewReadsAreBacked(s, steps, s', q, |s.calls|);
        assert Backed(s'.calls[r], q);
      }
    } else {
      var r, s1 := |s.calls|, After(s, Look(q, true));
      LastingFallback(s.cache, q);
      var s2 := After(s1, FallBack(r));
      StepThen(s1, FallBack(r), [], s2);
      StepThen(s, Look(q, true), [FallBack(r)] + [], s2);
      var steps := [Look(q, true)] + ([FallBack(r)] + []);
      assert Reaches(s, steps, s2) && NoSwap(steps) && NamedSteps(steps);
      assert s2.calls[r] == Answered(q, None);
    }
  }

  /** When that is so for the answer of a read: `s` is the state in which the read looked the cache up and found the
      answer it later falls back to, or in which its answer was written back. From there to its return the query stays
      served exactly if no swap came, or the last swap's entries serve it, or something written after that swap does. */
  lemma ReturnedAnswerLastsExactly(s: Sys, steps: seq<Step>, s': Sys, q: Query)
    requires Reaches(s, steps, s') && NamedReads(s) && NamedSteps(steps) && Lasting(q) && Named(q)
    requires Hit(s.cache, q).Some?
    ensures CannotFail(s', q) <==> StillServed(s, steps, s', q, true)
    ensures NoSwap(steps) ==> CannotFail(s', q)
  {
    ServedExactly(s, steps, s', q);
    AnswersDoNotTurnIntoErrors(s', q);
    if NoSwap(steps) {
      ServedWithoutSwap(s, steps, s', q);
    }
  }

  /** Every non-empty answer of a lasting read comes from such a state: the lookup found it... */
  lemma LookupStartsServed(s: Sys, q: Query, stale: bool)
    requires Lasting(q)
    ensures var p := After(s, Look(q, stale)).calls[|s.calls|];
            (if p.Looked? then p.held else p.answer).Some? <==> Hit(s.cache, q).Some?
  {
    LastingFallback(s.cache, q);
  }

  /** ... or it was written back. */
  lemma WriteBackStartsServed(s: Sys, r: nat, v: Value)
    requires Enabled(s, WriteBack(r, v)) && Lasting(s.calls[r].q) && Named(s.calls[r].q) && NonEmpty(v)
    ensures Hit(After(s, WriteBack(r, v)).cache, s.calls[r].q).Some?
  {
    OwnWriteBackServes(s.calls[r].q, v);
    WriteBackServes(s.cache, s.calls[r].q, v, s.calls[r].q);
  }

  /** A swap that overtakes a lookup really loses the answer: a read falls back to what it had found, a sync has
      meanwhile swapped in maps without it, and the next read of the same address fails, with no sync in between. */
  lemma OvertakenAnswerIsLost(ip: string, id: Id) returns (before: seq<Step>, after: seq<Step>, s: Sys, s': Sys)
    requires ip != "" && id != ""
    ensures Reaches(INITIAL, before, s) && s.calls == [Returned(IDFromIP(ip), Some(Text(id))),
                                                       Returned(IDFromIP(ip), Some(Text(id)))]
    ensures Reaches(s, after, s') && NoSwap(after) && s'.calls == s.calls + [Answered(IDFromIP(ip), None)]
  {
    var q, found := IDFromIP(ip), Some(Text(id));
    var c := CacheIP(EMPTY_CACHE, ip, id);
    var s2 := Sys(c, [Returned(q, found)]);
    var s3 := Sys(c, [Returned(q, found), Looked(q, found)]);
    var s4 := Sys(EMPTY_CACHE, [Returned(q, found), Looked(q, found)]);
    var s5 := Sys(EMPTY_CACHE, [Returned(q, found), Answered(q, found)]);
    s := Sys(EMPTY_CACHE, [Returned(q, found), Returned(q, found)]);
    before := [Return(1)];
    assert Reaches(s5, before, s) by {
      assert before[1..] == [];
    }
    StepThen(s4, FallBack(1), before, s);
    before := [FallBack(1)] + before;
    StepThen(s3, Swap([]), before, s);
    before := [Swap([])] + before;
    StepThen(s2, Look(q, true), before, s);
    before := [Look(q, true)] + before;
    var first := UndisturbedRead(INITIAL, q, true, found);
    assert Read(EMPTY_CACHE, q, true, found) == Reading(found, c);
    assert INITIAL.calls + [Returned(q, found)] == s2.calls;
    ReachesCompose(INITIAL, first, s2, before, s);
    before := first + before;
    after := UndisturbedLoss(s, q);
    s' := Sys(EMPTY_CACHE, s.calls + [Answered(q, None)]);
  }

  lemma UndisturbedLoss(s: Sys, q: Query) returns (steps: seq<Step>)
    requires s.cache == EMPTY_CACHE && q.IDFromIP?
    ensures Reaches(s, steps, s.(calls := s.calls + [Answered(q, None)])) && NoSwap(steps)
  {
    var r, s1 := |s.calls|, After(s, Look(q, false));
    var s2 := s.(calls := s.calls + [Answered(q, None)]);
    assert s1.calls[r := Answered(q, None)] == s2.calls;
    StepThen(s1, FallBack(r), [], s2);
    StepThen(s, Look(q, false), [FallBack(r)] + [], s2);
    steps := [Look(q, false)] + ([FallBack(r)] + []);
  }

  lemma {:induction false} ReachesCompose(s: Sys, first: seq<Step>, s1: Sys, second: seq<Step>, s': Sys)
    requires Reaches(s, first, s1) && Reaches(s1, second, s')
    ensures Reaches(s, first + second, s')
    decreases |first|
  {
    if first == [] {
      assert first + second == second;
    } else {
      assert (first + second)[1..] == first[1..] + second;
      ReachesCompose(After(s, first[0]), first[1..], s1, second, s');
    }
  }

  /** The exclusion of the empty id is needed: one such read makes an address that resolved fail. */
  lemma EmptyIdReadLosesAddress(c: Cache, ip: string, id: Id, found: Component)
    requires ip != "" && id != "" && found.ip == ip
    ensures var c1 := Read(c, IDFromIP(ip), true, Some(Text(id))).cache;
            var c2 := Read(c1, ComponentOf(""), true, Some(Comp(found))).cache;
            && Read(c1, IDFromIP(ip), false, None).answer == Some(Text(id))
            && Read(c2, IDFromIP(ip), false, None).answer.None?
  {
  }
}
