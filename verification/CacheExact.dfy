/** Exactly when the passphrase cache is a map: the condition of CacheRuns is necessary for one
    slot per key and for the answers of lookups. */
module CacheExact {
  import opened Common
  import opened CacheSpec
  import opened CacheRuns

  const EMPTY := RefState(map[], [])

  // ---------- one slot per key ----------

  /** Storing a key whose entry is pinned leaves that entry and puts a new one in front. */
  lemma StoredBehindPinned(st: State, r: RefState, ev: Event, cfg: Config) returns (kept: Slot)
    requires Refines(st, r) && !Allowed(r, ev, cfg)
    ensures kept.key == ev.key && kept.locks > 0 && kept.pw == Some(r.recs[ev.key].secret)
    ensures
      var w := Housekeeping(st.slots, ev.hk, cfg);
      var t := EffectiveTtl(ev.ttl, ev.mode, cfg);
      && kept in w && DistinctKeys(w) && (forall s | s in w && s.key == ev.key :: s == kept)
      && Step(st, ev, cfg).0.slots == [Slot(st.nextId, ev.key, ev.now, ev.now, t, 0, ev.data, ev.mode)] + w
  {
    hide Housekeeping, HasEntry, Safe;
    var PutE(key, mode, data, ttl, hk, now) := ev;
    var i := Entry(st.slots, key);
    kept := HousekeepingSurvivor(st.slots, hk, cfg, st.slots[i]);
    HousekeepingDistinct(st.slots, hk, cfg);
    var w := Housekeeping(st.slots, hk, cfg);
    OnlyOne(w, kept);
    var f := Find(w, key, true, false);
    assert f < |w| ==> w[f] in w;
  }

  lemma OnlyOne(v: seq<Slot>, s: Slot)
    requires DistinctKeys(v) && s in v
    ensures forall t | t in v && t.key == s.key :: t == s
  {
    forall t | t in v && t.key == s.key ensures t == s {
      var i := IndexOf(v, s);
      var j := IndexOf(v, t);
    }
  }

  /** A call leaves one slot per key exactly if it is allowed. */
  lemma OneSlotIffAllowed(st: State, r: RefState, ev: Event, cfg: Config)
    requires Refines(st, r)
    ensures DistinctKeys(Step(st, ev, cfg).0.slots) <==> Allowed(r, ev, cfg)
  {
    if Allowed(r, ev, cfg) {
      hide Step;
      RefinesStep(st, r, ev, cfg);
    } else {
      var kept := StoredBehindPinned(st, r, ev, cfg);
      hide Housekeeping, Step, Refines;
      var v := Step(st, ev, cfg).0.slots;
      var i := IndexOf(v[1..], kept);
      assert v[0].key == v[i + 1].key;
    }
  }

  /** After every call of the run there is at most one slot per key. */
  predicate OneSlotPerKey(st: State, evs: seq<Event>, cfg: Config)
    decreases |evs|
  {
    DistinctKeys(st.slots) && (evs == [] || OneSlotPerKey(Step(st, evs[0], cfg).0, evs[1..], cfg))
  }

  lemma {:induction false} OneSlotThroughout(st: State, r: RefState, evs: seq<Event>, cfg: Config)
    requires Refines(st, r)
    ensures OneSlotPerKey(st, evs, cfg) <==> AllAllowed(r, evs, cfg)
    decreases |evs|
  {
    hide Step, RefStep;
    assert DistinctKeys(st.slots);
    if evs != [] {
      OneSlotIffAllowed(st, r, evs[0], cfg);
      if Allowed(r, evs[0], cfg) {
        RefinesStep(st, r, evs[0], cfg);
        OneSlotThroughout(Step(st, evs[0], cfg).0, RefStep(r, evs[0], cfg).0, evs[1..], cfg);
      } else {
        assert !DistinctKeys(Step(st, evs[0], cfg).0.slots);
      }
    }
  }

  // ---------- the answers ----------

  /** A call with two more that show what it left: the key is deleted and then looked up. */
  function Probe(ev: Event): seq<Event> {
    match ev
    case PutE(key, _, _, _, _, now) => [ev, PutE(key, Normal, None, 1, now, now), GetE(key, Normal, now, now)]
    case _ => [ev]
  }

  lemma ProbeAllowed(r: RefState, ev: Event, cfg: Config)
    ensures AllAllowed(r, Probe(ev), cfg) <==> Allowed(r, ev, cfg)
  {
    hide RefStep;
    var evs := Probe(ev);
    if ev.PutE? {
      var r1 := RefStep(r, ev, cfg).0;
      var r2 := RefStep(r1, evs[1], cfg).0;
      assert evs[1..][1..] == [evs[2]] && [evs[2]][1..] == [];
      assert AllAllowed(r2, [evs[2]], cfg);
      assert AllAllowed(r1, evs[1..], cfg);
    } else {
      assert evs[1..] == [];
    }
  }

  lemma RunThree(st: State, a: Event, b: Event, c: Event, cfg: Config)
    ensures
      var s1 := Step(st, a, cfg).0;
      var s2 := Step(s1, b, cfg).0;
      Run(st, [a, b, c], cfg).1 == [Step(st, a, cfg).1, Step(s1, b, cfg).1, Step(s2, c, cfg).1]
  {
    hide Step;
    var s1 := Step(st, a, cfg).0;
    var s2 := Step(s1, b, cfg).0;
    assert [a, b, c][1..] == [b, c] && [b, c][1..] == [c] && [c][1..] == [];
    assert Run(s2, [c], cfg).1 == [Step(s2, c, cfg).1] + Run(Step(s2, c, cfg).0, [], cfg).1;
    assert Run(s1, [b, c], cfg).1 == [Step(s1, b, cfg).1] + Run(s2, [c], cfg).1;
  }

  lemma RefRunThree(r: RefState, a: Event, b: Event, c: Event, cfg: Config)
    ensures
      var r1 := RefStep(r, a, cfg).0;
      var r2 := RefStep(r1, b, cfg).0;
      RefRun(r, [a, b, c], cfg).1 == [RefStep(r, a, cfg).1, RefStep(r1, b, cfg).1, RefStep(r2, c, cfg).1]
  {
    hide RefStep;
    var r1 := RefStep(r, a, cfg).0;
    var r2 := RefStep(r1, b, cfg).0;
    assert [a, b, c][1..] == [b, c] && [b, c][1..] == [c] && [c][1..] == [];
    assert RefRun(r2, [c], cfg).1 == [RefStep(r2, c, cfg).1] + RefRun(RefStep(r2, c, cfg).0, [], cfg).1;
    assert RefRun(r1, [b, c], cfg).1 == [RefStep(r1, b, cfg).1] + RefRun(r2, [c], cfg).1;
  }

  /** The map has nothing under a key that was stored and then deleted. */
  lemma MapForgets(r: RefState, ev: Event, cfg: Config)
    requires !Allowed(r, ev, cfg)
    ensures
      var r1 := RefStep(r, ev, cfg).0;
      var r2 := RefStep(r1, Probe(ev)[1], cfg).0;
      RefStep(r2, Probe(ev)[2], cfg).1 == None
  {
    var r1 := RefStep(r, ev, cfg).0;
    assert r1.recs[ev.key].pins == 0;
    var r2 := RefStep(r1, Probe(ev)[1], cfg).0;
    assert ev.key !in r2.recs;
  }

  /** A pinned entry with this secret and at most one more slot for the key, which is free. */
  ghost predicate Two(v: seq<Slot>, key: string, secret: string, id: nat) {
    && DistinctIds(v)
    && HasPinned(v, key, secret)
    && (forall s | s in v && s.id == id :: s.locks == 0)
    && (forall s | s in v && s.key == key && s.id != id :: s.locks > 0 && s.pw == Some(secret))
  }

  ghost predicate HasPinned(v: seq<Slot>, key: string, secret: string) {
    exists s :: s in v && s.key == key && s.locks > 0 && s.pw == Some(secret)
  }

  predicate Cleared(v: seq<Slot>, id: nat) {
    forall s | s in v && s.id == id :: s.pw.None?
  }

  lemma TwoAfterHousekeeping(v: seq<Slot>, key: string, secret: string, id: nat, now: int, cfg: Config)
    requires Two(v, key, secret, id)
    ensures Two(Housekeeping(v, now, cfg), key, secret, id)
    ensures Cleared(v, id) ==> Cleared(Housekeeping(v, now, cfg), id)
  {
    hide Housekeeping;
    var w := Housekeeping(v, now, cfg);
    HousekeepingDistinct(v, now, cfg);
    var s :| s in v && s.key == key && s.locks > 0 && s.pw == Some(secret);
    var t := HousekeepingSurvivor(v, now, cfg, s);
    forall x | x in w
      ensures x.id == id ==> x.locks == 0 && (Cleared(v, id) ==> x.pw.None?)
      ensures x.key == key && x.id != id ==> x.locks > 0 && x.pw == Some(secret)
    {
      var y := HousekeepingOrigin(v, now, cfg, x);
    }
  }

  /** Deleting finds the free slot. */
  lemma TwoAfterDelete(v: seq<Slot>, key: string, secret: string, id: nat, newId: nat, now: int)
    requires Two(v, key, secret, id) && forall s | s in v && s.id == id :: s.key == key
    ensures
      var w := Store(v, newId, key, Normal, None, 1, now);
      Two(w, key, secret, id) && Cleared(w, id)
  {
    var i := Find(v, key, true, false);
    var w := Store(v, newId, key, Normal, None, 1, now);
    var s :| s in v && s.key == key && s.locks > 0 && s.pw == Some(secret);
    var j := IndexOf(v, s);
    if i < |v| {
      assert v[i] in v && w[j] == s && w[j] in w;
    }
    forall x | x in w
      ensures x.id == id ==> x.locks == 0 && x.pw.None?
      ensures x.key == key && x.id != id ==> x.locks > 0 && x.pw == Some(secret)
    {
      var k := IndexOf(w, x);
      assert v[k] in v;
    }
  }

  lemma TwoFindsPinned(v: seq<Slot>, key: string, secret: string, id: nat)
    requires Two(v, key, secret, id) && Cleared(v, id)
    ensures Hit(v, key) < |v| && v[Hit(v, key)].pw == Some(secret)
  {
    var s :| s in v && s.key == key && s.locks > 0 && s.pw == Some(secret);
    var j := IndexOf(v, s);
    var i := Hit(v, key);
    assert i < |v| ==> v[i] in v;
  }

  /** After a deletion, a lookup finds the pinned entry. */
  lemma PinnedFound(v: seq<Slot>, key: string, secret: string, id: nat, newId: nat, now: int, cfg: Config)
    requires Two(v, key, secret, id) && forall s | s in v && s.id == id :: s.key == key
    ensures
      var hit := Get(Put(v, newId, key, Normal, None, 1, now, now, cfg), key, Normal, now, now, cfg).1;
      hit.Some? && hit.value.pw == Some(secret)
  {
    hide Housekeeping, Store, Hit, Two, Cleared;
    var v1 := Housekeeping(v, now, cfg);
    TwoAfterHousekeeping(v, key, secret, id, now, cfg);
    NameKept(v, key, id, now, cfg);
    TwoAfterDelete(v1, key, secret, id, newId, now);
    var v2 := Store(v1, newId, key, Normal, None, 1, now);
    TwoAfterHousekeeping(v2, key, secret, id, now, cfg);
    TwoFindsPinned(Housekeeping(v2, now, cfg), key, secret, id);
  }

  lemma NameKept(v: seq<Slot>, key: string, id: nat, now: int, cfg: Config)
    requires forall s | s in v && s.id == id :: s.key == key
    ensures forall s | s in Housekeeping(v, now, cfg) && s.id == id :: s.key == key
  {
    hide Housekeeping;
    forall s | s in Housekeeping(v, now, cfg) && s.id == id ensures s.key == key {
      var x := HousekeepingOrigin(v, now, cfg, s);
    }
  }

  /** The list still has the pinned entry, and finds it. */
  lemma ListRemembers(st: State, r: RefState, ev: Event, cfg: Config)
    requires Refines(st, r) && !Allowed(r, ev, cfg)
    ensures
      var s1 := Step(st, ev, cfg).0;
      var s2 := Step(s1, Probe(ev)[1], cfg).0;
      Step(s2, Probe(ev)[2], cfg).1 == Some(r.recs[ev.key].secret)
  {
    var kept := StoredBehindPinned(st, r, ev, cfg);
    var s1 := Step(st, ev, cfg).0;
    SafeStep(st, ev, cfg);
    hide Put, Get, Two, Represents, Housekeeping;
    NewIsFree(st, r, ev, kept, cfg);
    PinnedFound(s1.slots, ev.key, r.recs[ev.key].secret, st.nextId, s1.nextId, ev.now, cfg);
  }

  lemma NewIsFree(st: State, r: RefState, ev: Event, kept: Slot, cfg: Config)
    requires Refines(st, r) && !Allowed(r, ev, cfg) && DistinctIds(Step(st, ev, cfg).0.slots)
    requires kept.key == ev.key && kept.locks > 0 && kept.pw == Some(r.recs[ev.key].secret)
    requires
      var w := Housekeeping(st.slots, ev.hk, cfg);
      && kept in w && (forall s | s in w && s.key == ev.key :: s == kept)
      && Step(st, ev, cfg).0.slots
         == [Slot(st.nextId, ev.key, ev.now, ev.now, EffectiveTtl(ev.ttl, ev.mode, cfg), 0, ev.data, ev.mode)] + w
    ensures Two(Step(st, ev, cfg).0.slots, ev.key, r.recs[ev.key].secret, st.nextId)
    ensures forall s | s in Step(st, ev, cfg).0.slots && s.id == st.nextId :: s.key == ev.key
  {
    hide Housekeeping, Step, Refines;
    var v := Step(st, ev, cfg).0.slots;
    assert kept in v;
    forall s | s in v
      ensures s.id == st.nextId ==> s.locks == 0 && s.key == ev.key
      ensures s.key == ev.key && s.id != st.nextId ==> s == kept
    {
      var i := IndexOf(v, s);
      assert v[0].id == st.nextId;
    }
  }

  /** The list answers a call and its probe as the map does exactly if the call is allowed. */
  lemma ProbeTells(st: State, r: RefState, ev: Event, cfg: Config)
    requires Refines(st, r)
    ensures Run(st, Probe(ev), cfg).1 == RefRun(r, Probe(ev), cfg).1 <==> Allowed(r, ev, cfg)
  {
    ProbeAllowed(r, ev, cfg);
    hide Step, RefStep, Refines, Run, RefRun;
    if Allowed(r, ev, cfg) {
      RefinesRun(st, r, Probe(ev), cfg);
    } else {
      var evs := Probe(ev);
      RunThree(st, evs[0], evs[1], evs[2], cfg);
      RefRunThree(r, evs[0], evs[1], evs[2], cfg);
      ListRemembers(st, r, ev, cfg);
      MapForgets(r, ev, cfg);
      assert Run(st, evs, cfg).1[2] != RefRun(r, evs, cfg).1[2];
    }
  }

  // ---------- whole runs ----------

  /** Every call of the run, probed where it stands, is answered as by the map. */
  ghost predicate AnswersAsMap(st: State, r: RefState, evs: seq<Event>, cfg: Config)
    decreases |evs|
  {
    evs == []
    || (Run(st, Probe(evs[0]), cfg).1 == RefRun(r, Probe(evs[0]), cfg).1
        && AnswersAsMap(Step(st, evs[0], cfg).0, RefStep(r, evs[0], cfg).0, evs[1..], cfg))
  }

  lemma {:induction false} AnswersIffAllowed(st: State, r: RefState, evs: seq<Event>, cfg: Config)
    requires Refines(st, r)
    ensures AnswersAsMap(st, r, evs, cfg) <==> AllAllowed(r, evs, cfg)
    decreases |evs|
  {
    hide Step, RefStep, Run, RefRun, Refines, Probe;
    if evs != [] {
      ProbeTells(st, r, evs[0], cfg);
      if Allowed(r, evs[0], cfg) {
        RefinesStep(st, r, evs[0], cfg);
        AnswersIffAllowed(Step(st, evs[0], cfg).0, RefStep(r, evs[0], cfg).0, evs[1..], cfg);
      }
    }
  }

  /** The cache is a map in exactly the runs that store no key while an entry for it is pinned:
      then and only then it has at most one slot per key throughout and answers every probed
      call as the map does; and then all its answers are the map's. */
  lemma CacheIsAMapIff(evs: seq<Event>, cfg: Config)
    ensures OneSlotPerKey(Start, evs, cfg) <==> AllAllowed(EMPTY, evs, cfg)
    ensures AnswersAsMap(Start, EMPTY, evs, cfg) <==> AllAllowed(EMPTY, evs, cfg)
    ensures AllAllowed(EMPTY, evs, cfg) ==> Run(Start, evs, cfg).1 == RefRun(EMPTY, evs, cfg).1
  {
    OneSlotThroughout(Start, EMPTY, evs, cfg);
    AnswersIffAllowed(Start, EMPTY, evs, cfg);
    if AllAllowed(EMPTY, evs, cfg) {
      CacheIsAMap(evs, cfg);
    }
  }

  // ---------- one run where it fails ----------

  /** A new cache after one secret is stored and handed out. */
  lemma StoredAndPinned(key: string, older: string, now: int, cfg: Config)
    ensures
      var a, b := PutE(key, Normal, Some(older), 60, now, now), GetE(key, Normal, now, now);
      var s1, r1 := Step(Start, a, cfg).0, RefStep(EMPTY, a, cfg).0;
      var s2, r2 := Step(s1, b, cfg).0, RefStep(r1, b, cfg).0;
      && Step(Start, a, cfg).1 == None && Step(s1, b, cfg).1 == Some(older)
      && Refines(s2, r2) && key in r2.recs && r2.recs[key].pins == 1 && r2.recs[key].secret == older
  {
    var a, b := PutE(key, Normal, Some(older), 60, now, now), GetE(key, Normal, now, now);
    RefinesStep(Start, EMPTY, a, cfg);
    var s1, r1 := Step(Start, a, cfg).0, RefStep(EMPTY, a, cfg).0;
    assert r1.recs == map[key := Rec(older, now, now, 60, Normal, 0)];
    hide Step, Refines;
    RefinesStep(s1, r1, b, cfg);
    assert !OutOfTime(r1.recs[key], now, cfg);
  }

  /** Storing while an older entry is locked makes a second one; deleting then clears the new
      entry only, and a lookup hands out the old secret again. */
  lemma StaleAfterStoringWhileLocked(key: string, older: string, newer: string, now: int, cfg: Config)
    ensures
      var evs := [PutE(key, Normal, Some(older), 60, now, now), GetE(key, Normal, now, now),
                  PutE(key, Normal, Some(newer), 60, now, now), PutE(key, Normal, None, 1, now, now),
                  GetE(key, Normal, now, now)];
      Run(Start, evs, cfg).1 == [None, Some(older), None, None, Some(older)]
  {
    hide Step, Refines, RefStep, Run;
    var a, b := PutE(key, Normal, Some(older), 60, now, now), GetE(key, Normal, now, now);
    var c := PutE(key, Normal, Some(newer), 60, now, now);
    StoredAndPinned(key, older, now, cfg);
    var s1, r1 := Step(Start, a, cfg).0, RefStep(EMPTY, a, cfg).0;
    var s2, r2 := Step(s1, b, cfg).0, RefStep(r1, b, cfg).0;
    ProbeOfStored(s2, r2, c, cfg);
    RunTwoMore(Start, a, b, Probe(c), cfg);
    assert [a, b] + Probe(c) == [a, b, c, PutE(key, Normal, None, 1, now, now), b];
  }

  lemma ProbeOfStored(st: State, r: RefState, ev: Event, cfg: Config)
    requires Refines(st, r) && !Allowed(r, ev, cfg)
    ensures Run(st, Probe(ev), cfg).1 == [None, None, Some(r.recs[ev.key].secret)]
  {
    ListRemembers(st, r, ev, cfg);
    RunThree(st, ev, Probe(ev)[1], Probe(ev)[2], cfg);
    hide Refines, Run, Put, Get;
    assert Step(st, ev, cfg).1 == None && Step(Step(st, ev, cfg).0, Probe(ev)[1], cfg).1 == None;
  }

  lemma RunTwoMore(st: State, a: Event, b: Event, more: seq<Event>, cfg: Config)
    ensures
      var s1 := Step(st, a, cfg).0;
      var s2 := Step(s1, b, cfg).0;
      Run(st, [a, b] + more, cfg).1 == [Step(st, a, cfg).1, Step(s1, b, cfg).1] + Run(s2, more, cfg).1
  {
    hide Step;
    var s1 := Step(st, a, cfg).0;
    var s2 := Step(s1, b, cfg).0;
    assert ([a, b] + more)[1..] == [b] + more && ([b] + more)[1..] == more;
    assert Run(s1, [b] + more, cfg).1 == [Step(s1, b, cfg).1] + Run(s2, more, cfg).1;
  }
}
