/** Whole runs of the passphrase cache: pinned secrets stay, and under one condition the list
    behaves as a map from keys to secrets. */
module CacheRuns {
  import opened Common
  import opened CacheSpec

  /** What a successful lookup handed out. */
  datatype Handle = Handle(id: nat, key: string, secret: string)

  datatype State = State(slots: seq<Slot>, nextId: nat, handles: seq<Handle>)

  /** Calls of the interface; `hk` and `now` are the two readings of the clock. */
  datatype Event =
    | PutE(key: string, mode: Mode, data: Option<string>, ttl: int, hk: int, now: int)
    | GetE(key: string, mode: Mode, hk: int, now: int)
    | UnlockE(n: nat)         // give back the n-th outstanding handle
    | FlushE

  const Start := State([], 0, [])

  function Without<T>(s: seq<T>, n: nat): seq<T>
    requires n < |s|
  {
    s[..n] + s[n + 1..]
  }

  function Step(st: State, ev: Event, cfg: Config): (State, Option<string>) {
    match ev
    case PutE(key, mode, data, ttl, hk, now) =>
      (State(Put(st.slots, st.nextId, key, mode, data, ttl, hk, now, cfg), st.nextId + 1, st.handles), None)
    case GetE(key, mode, hk, now) =>
      var (v, hit) := Get(st.slots, key, mode, hk, now, cfg);
      if hit.Some? && hit.value.pw.Some?
      then (State(v, st.nextId, st.handles + [Handle(hit.value.id, key, hit.value.pw.value)]), hit.value.pw)
      else (State(v, st.nextId, st.handles), None)
    case UnlockE(n) =>
      if n < |st.handles|
      then (State(Unpin(st.slots, st.handles[n].id), st.nextId, Without(st.handles, n)), None)
      else (st, None)
    case FlushE => (st.(slots := Flush(st.slots)), None)
  }

  function Run(st: State, evs: seq<Event>, cfg: Config): (State, seq<Option<string>>)
    decreases |evs|
  {
    if evs == [] then (st, []) else
    var (st1, reply) := Step(st, evs[0], cfg);
    var (st2, rest) := Run(st1, evs[1..], cfg);
    (st2, [reply] + rest)
  }

  lemma {:induction false} RunSnoc(st: State, evs: seq<Event>, ev: Event, cfg: Config)
    ensures var (st1, replies) := Run(st, evs, cfg);
            var (st2, reply) := Step(st1, ev, cfg);
            Run(st, evs + [ev], cfg) == (st2, replies + [reply])
    decreases |evs|
  {
    hide Step;
    if evs == [] {
      assert evs + [ev] == [ev] && [ev][1..] == [];
      var (st1, reply) := Step(st, ev, cfg);
      assert [reply] + [] == [] + [reply];
      assert Run(st1, [], cfg) == (st1, []);
    } else {
      assert (evs + [ev])[1..] == evs[1..] + [ev];
      RunSnoc(Step(st, evs[0], cfg).0, evs[1..], ev, cfg);
      var rest := Run(Step(st, evs[0], cfg).0, evs[1..], cfg).1;
      var first, last := Step(st, evs[0], cfg).1, Step(Run(st, evs, cfg).0, ev, cfg).1;
      assert [first] + (rest + [last]) == [first] + rest + [last];
      assert (evs + [ev])[0] == evs[0];
    }
  }

  // ---------- pin safety ----------

  function Outstanding(hs: seq<Handle>, id: nat): nat {
    if hs == [] then 0 else (if hs[0].id == id then 1 else 0) + Outstanding(hs[1..], id)
  }

  ghost predicate Holds(v: seq<Slot>, h: Handle) {
    exists s :: s in v && s.id == h.id && s.key == h.key && s.pw == Some(h.secret)
  }

  /** Lock counts are the numbers of outstanding handles, and whatever was handed out is still
      there, unchanged. */
  ghost predicate Safe(st: State) {
    && DistinctIds(st.slots)
    && (forall s | s in st.slots :: s.id < st.nextId && s.locks == Outstanding(st.handles, s.id))
    && (forall h | h in st.handles :: h.id < st.nextId && Holds(st.slots, h))
  }

  lemma SafeStart()
    ensures Safe(Start)
  {
  }

  lemma {:induction false} OutstandingSnoc(hs: seq<Handle>, h: Handle, id: nat)
    ensures Outstanding(hs + [h], id) == Outstanding(hs, id) + if h.id == id then 1 else 0
  {
    if hs != [] {
      assert (hs + [h])[1..] == hs[1..] + [h];
      OutstandingSnoc(hs[1..], h, id);
    }
  }

  lemma {:induction false} OutstandingWithout(hs: seq<Handle>, n: nat, id: nat)
    requires n < |hs|
    ensures Outstanding(hs, id) == Outstanding(Without(hs, n), id) + if hs[n].id == id then 1 else 0
  {
    if n == 0 {
      assert Without(hs, 0) == hs[1..];
    } else {
      assert Without(hs, n)[1..] == Without(hs[1..], n - 1);
      OutstandingWithout(hs[1..], n - 1, id);
    }
  }

  lemma {:induction false} OutstandingPositive(hs: seq<Handle>, h: Handle)
    requires h in hs
    ensures Outstanding(hs, h.id) > 0
  {
    if hs[0] != h {
      assert h in hs[1..];
      OutstandingPositive(hs[1..], h);
    }
  }

  lemma {:induction false} OutstandingZero(hs: seq<Handle>, id: nat)
    requires forall h | h in hs :: h.id != id
    ensures Outstanding(hs, id) == 0
  {
    if hs != [] {
      OutstandingZero(hs[1..], id);
    }
  }

  /** t is what became of s: pinned slots keep their secret. */
  predicate Became(s: Slot, t: Slot) {
    t.id == s.id && t.key == s.key && t.locks == s.locks && (s.locks > 0 ==> t.pw == s.pw)
  }

  ghost predicate HasOrigin(v: seq<Slot>, t: Slot) {
    exists s :: s in v && Became(s, t)
  }

  ghost predicate HasSurvivor(w: seq<Slot>, s: Slot) {
    exists t :: t in w && Became(s, t)
  }

  ghost predicate Kept(v: seq<Slot>, w: seq<Slot>) {
    && (forall t | t in w :: HasOrigin(v, t))
    && (forall s | s in v && s.locks > 0 :: HasSurvivor(w, s))
  }

  lemma Origin(v: seq<Slot>, t: Slot) returns (s: Slot)
    requires HasOrigin(v, t)
    ensures s in v && Became(s, t)
  {
    s :| s in v && Became(s, t);
  }

  lemma Survivor(w: seq<Slot>, s: Slot) returns (t: Slot)
    requires HasSurvivor(w, s)
    ensures t in w && Became(s, t)
  {
    t :| t in w && Became(s, t);
  }

  lemma Held(v: seq<Slot>, h: Handle) returns (s: Slot)
    requires Holds(v, h)
    ensures s in v && s.id == h.id && s.key == h.key && s.pw == Some(h.secret)
  {
    s :| s in v && s.id == h.id && s.key == h.key && s.pw == Some(h.secret);
  }

  lemma StillHolds(v: seq<Slot>, h: Handle, s: Slot)
    requires s in v && s.id == h.id && s.key == h.key && s.pw == Some(h.secret)
    ensures Holds(v, h)
  {
  }

  lemma IndexOf(v: seq<Slot>, s: Slot) returns (i: nat)
    requires s in v
    ensures i < |v| && v[i] == s
  {
    i :| 0 <= i < |v| && v[i] == s;
  }

  lemma SafeIfKept(st: State, w: seq<Slot>)
    requires Safe(st) && Kept(st.slots, w) && DistinctIds(w)
    ensures Safe(st.(slots := w))
  {
    hide HasOrigin, HasSurvivor, Holds, DistinctIds;
    forall t | t in w ensures t.id < st.nextId && t.locks == Outstanding(st.handles, t.id) {
      var s := Origin(st.slots, t);
    }
    forall h | h in st.handles ensures Holds(w, h) {
      var s := Held(st.slots, h);
      OutstandingPositive(st.handles, h);
      var t := Survivor(w, s);
      StillHolds(w, h, t);
    }
  }

  /** Where a slot of the list after housekeeping came from. */
  lemma HousekeepingOrigin(v: seq<Slot>, now: int, cfg: Config, t: Slot) returns (s: Slot)
    requires t in Housekeeping(v, now, cfg)
    ensures s in v && Became(s, t) && (t.pw.Some? ==> t == s == ExpireBoth(s, now, cfg))
  {
    hide Sweep, SweepOne, ExpireBoth, Became;
    var e := Expired(v, now, cfg);
    SweepMembers(e, now, t);
    var x :| x in e && t in SweepOne(x, now);
    var i := IndexOf(e, x);
    s := v[i];
    SlotOrigin(s, now, cfg, t);
  }

  lemma SlotOrigin(s: Slot, now: int, cfg: Config, t: Slot)
    requires t in SweepOne(ExpireBoth(s, now, cfg), now)
    ensures Became(s, t) && (t.pw.Some? ==> t == s == ExpireBoth(s, now, cfg))
  {
  }

  /** A slot that is pinned or in time stays. */
  lemma HousekeepingSurvivor(v: seq<Slot>, now: int, cfg: Config, s: Slot) returns (t: Slot)
    requires s in v && (s.locks > 0 || (s.pw.Some? && ExpireBoth(s, now, cfg) == s))
    ensures t in Housekeeping(v, now, cfg) && Became(s, t) && (s.pw.Some? ==> t == s)
  {
    var e := Expired(v, now, cfg);
    var i := IndexOf(v, s);
    assert e[i] == s;
    t := SweepOne(s, now)[0];
    SweepMembers(e, now, t);
  }

  lemma HousekeepingDistinct(v: seq<Slot>, now: int, cfg: Config)
    ensures DistinctIds(v) ==> DistinctIds(Housekeeping(v, now, cfg))
    ensures DistinctKeys(v) ==> DistinctKeys(Housekeeping(v, now, cfg))
  {
    hide Sweep, Became, DistinctIds, DistinctKeys;
    SweepDistinct(Expired(v, now, cfg), now);
    ExpiredBecame(v, now, cfg);
    SameNames(v, Expired(v, now, cfg));
  }

  lemma ExpiredBecame(v: seq<Slot>, now: int, cfg: Config)
    ensures forall i | 0 <= i < |v| :: Became(v[i], Expired(v, now, cfg)[i])
  {
  }

  lemma HousekeepingKeeps(v: seq<Slot>, now: int, cfg: Config)
    ensures Kept(v, Housekeeping(v, now, cfg))
  {
    hide Housekeeping, ExpireBoth, Became;
    var w := Housekeeping(v, now, cfg);
    forall t | t in w ensures HasOrigin(v, t) {
      var s := HousekeepingOrigin(v, now, cfg, t);
    }
    forall s | s in v && s.locks > 0 ensures HasSurvivor(w, s) {
      var t := HousekeepingSurvivor(v, now, cfg, s);
    }
  }

  /** Any change slot by slot that keeps identity, key, pins and pinned secrets. */
  lemma PointwiseKeeps(v: seq<Slot>, w: seq<Slot>)
    requires |v| == |w| && forall i | 0 <= i < |v| :: Became(v[i], w[i])
    ensures Kept(v, w)
    ensures DistinctIds(v) ==> DistinctIds(w)
    ensures DistinctKeys(v) ==> DistinctKeys(w)
  {
    hide Became;
    forall t | t in w ensures HasOrigin(v, t) {
      var i := IndexOf(w, t);
      assert v[i] in v;
    }
    forall s | s in v ensures HasSurvivor(w, s) {
      var i := IndexOf(v, s);
      assert w[i] in w;
    }
    SameNames(v, w);
  }

  lemma SameNames(v: seq<Slot>, w: seq<Slot>)
    requires |v| == |w| && forall i | 0 <= i < |v| :: Became(v[i], w[i])
    ensures DistinctIds(v) ==> DistinctIds(w)
    ensures DistinctKeys(v) ==> DistinctKeys(w)
  {
  }

  lemma SafeStore(st: State, key: string, mode: Mode, data: Option<string>, ttl: int, now: int)
    requires Safe(st)
    ensures Safe(State(Store(st.slots, st.nextId, key, mode, data, ttl, now), st.nextId + 1, st.handles))
  {
    hide Kept, Holds;
    var v := st.slots;
    var w := Store(v, st.nextId, key, mode, data, ttl, now);
    var i := Find(v, key, true, false);
    if i < |v| {
      PointwiseKeeps(v, w);
      SafeIfKept(st, w);
    } else if data.Some? {
      SafeInsert(st, w[0]);
    }
  }

  lemma SafeInsert(st: State, s: Slot)
    requires Safe(st) && s.id == st.nextId && s.locks == 0
    ensures Safe(State([s] + st.slots, st.nextId + 1, st.handles))
  {
    hide Holds;
    OutstandingZero(st.handles, st.nextId);
    forall h | h in st.handles ensures Holds([s] + st.slots, h) {
      var x := Held(st.slots, h);
      StillHolds([s] + st.slots, h, x);
    }
  }

  lemma SafePin(st: State, i: nat, now: int)
    requires Safe(st) && i < |st.slots| && st.slots[i].pw.Some?
    ensures var s := st.slots[i];
            Safe(State(st.slots[i := Pin(s, now)], st.nextId, st.handles + [Handle(s.id, s.key, s.pw.value)]))
  {
    hide Holds;
    var s := st.slots[i];
    var h, w := Handle(s.id, s.key, s.pw.value), st.slots[i := Pin(s, now)];
    forall t | t in w ensures t.id < st.nextId && t.locks == Outstanding(st.handles + [h], t.id) {
      OutstandingSnoc(st.handles, h, t.id);
      var j := IndexOf(w, t);
      assert st.slots[j] in st.slots;
    }
    forall g | g in st.handles + [h] ensures g.id < st.nextId && Holds(w, g) {
      if g in st.handles {
        var x := Held(st.slots, g);
        var j := IndexOf(st.slots, x);
        StillHolds(w, g, w[j]);
      } else {
        StillHolds(w, g, w[i]);
      }
    }
  }

  lemma SafeUnpin(st: State, n: nat)
    requires Safe(st) && n < |st.handles|
    ensures Safe(State(Unpin(st.slots, st.handles[n].id), st.nextId, Without(st.handles, n)))
  {
    hide Holds;
    var h, w, hs := st.handles[n], Unpin(st.slots, st.handles[n].id), Without(st.handles, n);
    forall t | t in w ensures t.id < st.nextId && t.locks == Outstanding(hs, t.id) {
      OutstandingWithout(st.handles, n, t.id);
      var j := IndexOf(w, t);
      assert st.slots[j] in st.slots;
    }
    forall g | g in hs ensures g.id < st.nextId && Holds(w, g) {
      assert g in st.handles;
      var x := Held(st.slots, g);
      var j := IndexOf(st.slots, x);
      StillHolds(w, g, w[j]);
    }
  }

  /** No call can take a pinned secret away or miscount the pins. */
  lemma SafeStep(st: State, ev: Event, cfg: Config)
    requires Safe(st)
    ensures Safe(Step(st, ev, cfg).0)
  {
    hide Safe, Kept, DistinctIds, DistinctKeys, Housekeeping, Store, Hit, Pin, Unpin, Flush;
    match ev
    case PutE(key, mode, data, ttl, hk, now) =>
      SafeHousekeeping(st, hk, cfg);
      var st1 := st.(slots := Housekeeping(st.slots, hk, cfg));
      SafeStore(st1, key, mode, data, EffectiveTtl(ttl, mode, cfg), now);
      SafeLater(st1);
    case GetE(key, mode, hk, now) =>
      SafeHousekeeping(st, hk, cfg);
      var st1 := st.(slots := Housekeeping(st.slots, hk, cfg));
      HitIsLive(st1.slots, key);
      var i := Hit(st1.slots, key);
      if mode != Ignore && i < |st1.slots| {
        SafePin(st1, i, now);
        PinKeeps(st1.slots[i], now);
      }
    case UnlockE(n) =>
      if n < |st.handles| {
        SafeUnpin(st, n);
      }
    case FlushE =>
      SafeFlush(st);
  }

  lemma SafeHousekeeping(st: State, now: int, cfg: Config)
    requires Safe(st)
    ensures Safe(st.(slots := Housekeeping(st.slots, now, cfg)))
  {
    hide Kept, Housekeeping;
    HousekeepingKeeps(st.slots, now, cfg);
    HousekeepingDistinct(st.slots, now, cfg);
    SafeIfKept(st, Housekeeping(st.slots, now, cfg));
  }

  lemma SafeFlush(st: State)
    requires Safe(st)
    ensures Safe(st.(slots := Flush(st.slots)))
  {
    hide Kept;
    PointwiseKeeps(st.slots, Flush(st.slots));
    SafeIfKept(st, Flush(st.slots));
  }

  lemma SafeLater(st: State)
    requires Safe(st)
    ensures Safe(st.(nextId := st.nextId + 1))
  {
  }

  lemma HitIsLive(v: seq<Slot>, key: string)
    ensures Hit(v, key) <= |v|
    ensures Hit(v, key) < |v| ==> v[Hit(v, key)].key == key && v[Hit(v, key)].pw.Some?
  {
  }

  lemma PinKeeps(s: Slot, now: int)
    ensures Pin(s, now).id == s.id && Pin(s, now).key == s.key && Pin(s, now).pw == s.pw
  {
  }

  /** Pin safety in every reachable state. */
  lemma {:induction false} SafeRun(st: State, evs: seq<Event>, cfg: Config)
    requires Safe(st)
    ensures Safe(Run(st, evs, cfg).0)
    decreases |evs|
  {
    if evs != [] {
      SafeStep(st, evs[0], cfg);
      SafeRun(Step(st, evs[0], cfg).0, evs[1..], cfg);
    }
  }

  /** Whatever is handed out can be looked at until it is given back: after any further calls,
      a handle that was not returned still finds its item with the secret it came with. */
  lemma HandleStaysGood(evs: seq<Event>, cfg: Config, h: Handle)
    requires h in Run(Start, evs, cfg).0.handles
    ensures Holds(Run(Start, evs, cfg).0.slots, h)
    ensures exists s ::
              && s in Run(Start, evs, cfg).0.slots && s.id == h.id
              && s.locks == Outstanding(Run(Start, evs, cfg).0.handles, h.id) > 0
  {
    SafeRun(Start, evs, cfg);
    var st := Run(Start, evs, cfg).0;
    OutstandingPositive(st.handles, h);
    assert Holds(st.slots, h);
  }

  // ---------- freshness ----------

  /** Pinned, or within both lifetimes. */
  predicate InTime(s: Slot, now: int, cfg: Config) {
    s.locks == 0 ==> (s.ttl >= 0 ==> now <= s.accessed + s.ttl) && now <= s.created + MaxTtl(s.mode, cfg)
  }

  /** A secret that nobody held at the call is handed out only if it was in time when the
      housekeeping of the call read the clock. */
  lemma FreshHit(v: seq<Slot>, key: string, mode: Mode, hk: int, now: int, cfg: Config)
    requires Get(v, key, mode, hk, now, cfg).1.Some?
    ensures var t := Get(v, key, mode, hk, now, cfg).1.value;
            exists s :: s in v && s.id == t.id && s.key == key && s.pw == t.pw && s.pw.Some? && InTime(s, hk, cfg)
  {
    hide Hit, Housekeeping;
    var w := Housekeeping(v, hk, cfg);
    HitIsLive(w, key);
    var s := HousekeepingOrigin(v, hk, cfg, w[Hit(w, key)]);
    assert InTime(s, hk, cfg);
  }

  // ---------- the map ----------

  datatype Rec = Rec(secret: string, created: int, accessed: int, ttl: int, mode: Mode, pins: nat)

  type Ref = map<string, Rec>

  function RecOf(s: Slot): Rec
    requires s.pw.Some?
  {
    Rec(s.pw.value, s.created, s.accessed, s.ttl, s.mode, s.locks)
  }

  predicate OutOfTime(r: Rec, now: int, cfg: Config) {
    r.pins == 0 && ((r.ttl >= 0 && r.accessed + r.ttl < now) || r.created + MaxTtl(r.mode, cfg) < now)
  }

  function RefHousekeeping(m: Ref, now: int, cfg: Config): Ref {
    map k | k in m && !OutOfTime(m[k], now, cfg) :: m[k]
  }

  function RefStore(m: Ref, key: string, mode: Mode, data: Option<string>, ttl: int, now: int): Ref {
    match data
    case Some(d) => m[key := Rec(d, now, now, ttl, mode, 0)]
    case None => if key in m && m[key].pins == 0 then m - {key} else m
  }

  function RefPut(m: Ref, key: string, mode: Mode, data: Option<string>, ttl: int, hk: int, now: int,
                  cfg: Config): Ref {
    var m1 := RefHousekeeping(m, hk, cfg);
    var t := EffectiveTtl(ttl, mode, cfg);
    if t == 0 then m1 else RefStore(m1, key, mode, data, t, now)
  }

  function RefGet(m: Ref, key: string, mode: Mode, hk: int, now: int, cfg: Config): (Ref, Option<string>) {
    if mode == Ignore then (m, None) else
    var m1 := RefHousekeeping(m, hk, cfg);
    if key in m1
    then (m1[key := m1[key].(accessed := now, pins := m1[key].pins + 1)], Some(m1[key].secret))
    else (m1, None)
  }

  function RefUnpin(m: Ref, key: string): Ref {
    if key in m && m[key].pins > 0 then m[key := m[key].(pins := m[key].pins - 1)] else m
  }

  function RefFlush(m: Ref): Ref {
    map k | k in m && m[k].pins > 0 :: m[k].(accessed := 0, ttl := 0)
  }

  /** The map with the keys of the outstanding handles. */
  datatype RefState = RefState(recs: Ref, held: seq<string>)

  function RefStep(r: RefState, ev: Event, cfg: Config): (RefState, Option<string>) {
    match ev
    case PutE(key, mode, data, ttl, hk, now) =>
      (r.(recs := RefPut(r.recs, key, mode, data, ttl, hk, now, cfg)), None)
    case GetE(key, mode, hk, now) =>
      var (m, secret) := RefGet(r.recs, key, mode, hk, now, cfg);
      (RefState(m, if secret.Some? then r.held + [key] else r.held), secret)
    case UnlockE(n) =>
      if n < |r.held| then (RefState(RefUnpin(r.recs, r.held[n]), Without(r.held, n)), None) else (r, None)
    case FlushE => (r.(recs := RefFlush(r.recs)), None)
  }

  function RefRun(r: RefState, evs: seq<Event>, cfg: Config): (RefState, seq<Option<string>>)
    decreases |evs|
  {
    if evs == [] then (r, []) else
    var (r1, reply) := RefStep(r, evs[0], cfg);
    var (r2, rest) := RefRun(r1, evs[1..], cfg);
    (r2, [reply] + rest)
  }

  /** At most one slot per key, and the live slots are the map. */
  ghost predicate Represents(v: seq<Slot>, m: Ref) {
    && DistinctKeys(v)
    && (forall s | s in v && s.pw.Some? :: s.key in m && m[s.key] == RecOf(s))
    && (forall k | k in m :: HasEntry(v, k))
  }

  ghost predicate HasEntry(v: seq<Slot>, k: string) {
    exists s :: s in v && s.key == k && s.pw.Some?
  }

  lemma Entry(v: seq<Slot>, k: string) returns (i: nat)
    requires HasEntry(v, k)
    ensures i < |v| && v[i].key == k && v[i].pw.Some? && v[i] in v
  {
    var s :| s in v && s.key == k && s.pw.Some?;
    i := IndexOf(v, s);
  }

  lemma IsEntry(v: seq<Slot>, k: string, s: Slot)
    requires s in v && s.key == k && s.pw.Some?
    ensures HasEntry(v, k)
  {
  }

  function Keys(hs: seq<Handle>): (ks: seq<string>)
    ensures |ks| == |hs|
  {
    seq(|hs|, i requires 0 <= i < |hs| => hs[i].key)
  }

  ghost predicate Refines(st: State, r: RefState) {
    Safe(st) && Represents(st.slots, r.recs) && r.held == Keys(st.handles)
  }

  /** A key is not stored anew while an entry for it is pinned. */
  predicate Allowed(r: RefState, ev: Event, cfg: Config) {
    ev.PutE? && ev.data.Some? && EffectiveTtl(ev.ttl, ev.mode, cfg) != 0 && ev.key in r.recs ==>
      r.recs[ev.key].pins == 0
  }

  predicate AllAllowed(r: RefState, evs: seq<Event>, cfg: Config)
    decreases |evs|
  {
    evs == [] || (Allowed(r, evs[0], cfg) && AllAllowed(RefStep(r, evs[0], cfg).0, evs[1..], cfg))
  }

  /** Expiry on the list is expiry on the map; dropping idle slots cannot be seen. */
  lemma RepresentsHousekeeping(v: seq<Slot>, m: Ref, now: int, cfg: Config)
    requires Represents(v, m)
    ensures Represents(Housekeeping(v, now, cfg), RefHousekeeping(m, now, cfg))
  {
    hide HasEntry, Housekeeping;
    var w, m1 := Housekeeping(v, now, cfg), RefHousekeeping(m, now, cfg);
    HousekeepingDistinct(v, now, cfg);
    forall t | t in w && t.pw.Some? ensures t.key in m1 && m1[t.key] == RecOf(t) {
      var s := HousekeepingOrigin(v, now, cfg, t);
    }
    forall k | k in m1 ensures HasEntry(w, k) {
      var i := Entry(v, k);
      var t := HousekeepingSurvivor(v, now, cfg, v[i]);
      IsEntry(w, k, t);
    }
  }

  lemma RepresentsFlush(v: seq<Slot>, m: Ref)
    requires Represents(v, m)
    ensures Represents(Flush(v), RefFlush(m))
  {
    hide HasEntry;
    var w := Flush(v);
    hide Kept;
    PointwiseKeeps(v, w);
    forall t | t in w && t.pw.Some? ensures t.key in RefFlush(m) && RefFlush(m)[t.key] == RecOf(t) {
      var i := IndexOf(w, t);
      assert v[i] in v;
    }
    forall k | k in RefFlush(m) ensures HasEntry(w, k) {
      var i := Entry(v, k);
      IsEntry(w, k, w[i]);
    }
  }

  /** Replacing the slot of one key. */
  lemma RepresentsUpdate(v: seq<Slot>, m: Ref, i: nat, t: Slot)
    requires Represents(v, m) && i < |v| && t.key == v[i].key
    ensures Represents(v[i := t], if t.pw.Some? then m[t.key := RecOf(t)] else m - {t.key})
  {
    hide HasEntry;
    var w, m' := v[i := t], if t.pw.Some? then m[t.key := RecOf(t)] else m - {t.key};
    forall s | s in w && s.pw.Some? ensures s.key in m' && m'[s.key] == RecOf(s) {
      var j := IndexOf(w, s);
      if j != i {
        assert v[j] in v && v[j].key != v[i].key;
      }
    }
    forall k | k in m' ensures HasEntry(w, k) {
      if k == t.key {
        IsEntry(w, k, w[i]);
      } else {
        var j := Entry(v, k);
        IsEntry(w, k, w[j]);
      }
    }
  }

  lemma RepresentsStore(v: seq<Slot>, m: Ref, id: nat, key: string, mode: Mode, data: Option<string>, ttl: int,
                        now: int)
    requires Represents(v, m)
    requires data.Some? ==> forall s | s in v && s.key == key :: s.locks == 0
    ensures Represents(Store(v, id, key, mode, data, ttl, now), RefStore(m, key, mode, data, ttl, now))
  {
    hide HasEntry;
    var i := Find(v, key, true, false);
    var w, m' := Store(v, id, key, mode, data, ttl, now), RefStore(m, key, mode, data, ttl, now);
    if i < |v| {
      assert v[i] in v;
      RepresentsUpdate(v, m, i, w[i]);
      if data.None? {
        NoOtherSlot(v, m, i);
        assert m' == m - {key};
      }
    } else if data.Some? {
      forall k | k in m' ensures HasEntry(w, k) {
        if k == key {
          IsEntry(w, k, w[0]);
        } else {
          var j := Entry(v, k);
          IsEntry(w, k, v[j]);
        }
      }
    } else {
      NoUnpinnedEntry(v, m, key);
    }
  }

  lemma NoOtherSlot(v: seq<Slot>, m: Ref, i: nat)
    requires Represents(v, m) && i < |v| && v[i].locks == 0
    ensures v[i].key in m ==> m[v[i].key].pins == 0
  {
    if v[i].key in m {
      var j := Entry(v, v[i].key);
    }
  }

  lemma NoUnpinnedEntry(v: seq<Slot>, m: Ref, key: string)
    requires Represents(v, m) && Find(v, key, true, false) == |v|
    ensures key in m ==> m[key].pins > 0
  {
    if key in m {
      var j := Entry(v, key);
    }
  }

  lemma HitIsTheEntry(v: seq<Slot>, m: Ref, key: string)
    requires Represents(v, m)
    ensures Hit(v, key) < |v| <==> key in m
    ensures Hit(v, key) < |v| ==>
              && v[Hit(v, key)].key == key && v[Hit(v, key)].pw.Some?
              && m[key] == RecOf(v[Hit(v, key)])
  {
    if key in m {
      var j := Entry(v, key);
    }
    var i := Hit(v, key);
    assert i < |v| ==> v[i] in v;
  }

  lemma LockedSlotsAreLive(st: State, r: RefState, key: string)
    requires Refines(st, r) && (key in r.recs ==> r.recs[key].pins == 0)
    ensures forall s | s in st.slots && s.key == key :: s.locks == 0
  {
    hide HasEntry, Holds;
    forall s | s in st.slots && s.key == key ensures s.locks == 0 {
      if s.locks > 0 {
        var h := HolderOf(st.handles, s.id);
        var x := Held(st.slots, h);
        var i := IndexOf(st.slots, s);
        var j := IndexOf(st.slots, x);
        assert i == j;
      }
    }
  }

  lemma {:induction false} HolderOf(hs: seq<Handle>, id: nat) returns (h: Handle)
    requires Outstanding(hs, id) > 0
    ensures h in hs && h.id == id
  {
    if hs[0].id == id {
      h := hs[0];
    } else {
      h := HolderOf(hs[1..], id);
    }
  }

  lemma RefinesPut(st: State, r: RefState, ev: Event, cfg: Config)
    requires Refines(st, r) && Allowed(r, ev, cfg) && ev.PutE?
    ensures Refines(Step(st, ev, cfg).0, RefStep(r, ev, cfg).0)
  {
    hide HasEntry, Safe, Housekeeping, Store, RefStore, RefHousekeeping;
    var PutE(key, mode, data, ttl, hk, now) := ev;
    SafeStep(st, ev, cfg);
    RepresentsHousekeeping(st.slots, r.recs, hk, cfg);
    var w := Housekeeping(st.slots, hk, cfg);
    if EffectiveTtl(ttl, mode, cfg) == 0 {
      return;
    }
    if data.Some? {
      LockedSlotsAreLive(st, r, key);
      LockedSlotsStay(st.slots, key, hk, cfg);
    }
    RepresentsStore(w, RefHousekeeping(r.recs, hk, cfg), st.nextId, key, mode, data, EffectiveTtl(ttl, mode, cfg), now);
  }

  lemma LockedSlotsStay(v: seq<Slot>, key: string, now: int, cfg: Config)
    requires forall s | s in v && s.key == key :: s.locks == 0
    ensures forall t | t in Housekeeping(v, now, cfg) && t.key == key :: t.locks == 0
  {
    hide Housekeeping;
    forall t | t in Housekeeping(v, now, cfg) && t.key == key ensures t.locks == 0 {
      var s := HousekeepingOrigin(v, now, cfg, t);
    }
  }

  lemma RefinesGet(st: State, r: RefState, ev: Event, cfg: Config)
    requires Refines(st, r) && ev.GetE?
    ensures Refines(Step(st, ev, cfg).0, RefStep(r, ev, cfg).0)
    ensures Step(st, ev, cfg).1 == RefStep(r, ev, cfg).1
  {
    hide HasEntry, Safe, Housekeeping, RefHousekeeping, Hit, Represents;
    var GetE(key, mode, hk, now) := ev;
    SafeStep(st, ev, cfg);
    if mode != Ignore {
      RepresentsHousekeeping(st.slots, r.recs, hk, cfg);
      var w, m := Housekeeping(st.slots, hk, cfg), RefHousekeeping(r.recs, hk, cfg);
      HitIsTheEntry(w, m, key);
      var i := Hit(w, key);
      if i < |w| {
        RepresentsUpdate(w, m, i, Pin(w[i], now));
        assert Keys(Step(st, ev, cfg).0.handles) == Keys(st.handles) + [key];
      }
    }
  }

  lemma RefinesUnlock(st: State, r: RefState, n: nat, cfg: Config)
    requires Refines(st, r) && n < |st.handles|
    ensures Refines(Step(st, UnlockE(n), cfg).0, RefStep(r, UnlockE(n), cfg).0)
  {
    hide HasEntry, Holds;
    SafeStep(st, UnlockE(n), cfg);
    var h := st.handles[n];
    OutstandingPositive(st.handles, h);
    var s := Held(st.slots, h);
    var i := IndexOf(st.slots, s);
    UnpinIsUpdate(st.slots, i);
    hide Unpin, Safe;
    RepresentsUpdate(st.slots, r.recs, i, UnpinOne(s, h.id));
    assert Keys(Without(st.handles, n)) == Without(Keys(st.handles), n);
  }

  lemma UnpinIsUpdate(v: seq<Slot>, i: nat)
    requires DistinctIds(v) && i < |v|
    ensures Unpin(v, v[i].id) == v[i := UnpinOne(v[i], v[i].id)]
  {
  }

  /** One call on the list is one call on the map. */
  lemma RefinesStep(st: State, r: RefState, ev: Event, cfg: Config)
    requires Refines(st, r) && Allowed(r, ev, cfg)
    ensures Refines(Step(st, ev, cfg).0, RefStep(r, ev, cfg).0)
    ensures Step(st, ev, cfg).1 == RefStep(r, ev, cfg).1
  {
    match ev
    case PutE(_, _, _, _, _, _) => RefinesPut(st, r, ev, cfg);
    case GetE(_, _, _, _) => RefinesGet(st, r, ev, cfg);
    case UnlockE(n) =>
      if n < |st.handles| {
        RefinesUnlock(st, r, n, cfg);
      }
    case FlushE =>
      hide Safe, Represents;
      SafeStep(st, ev, cfg);
      RepresentsFlush(st.slots, r.recs);
  }

  /** In every run that keeps the condition, every lookup answers as the map does, and the list
      holds at most one slot per key. */
  lemma {:induction false} RefinesRun(st: State, r: RefState, evs: seq<Event>, cfg: Config)
    requires Refines(st, r) && AllAllowed(r, evs, cfg)
    ensures Refines(Run(st, evs, cfg).0, RefRun(r, evs, cfg).0)
    ensures Run(st, evs, cfg).1 == RefRun(r, evs, cfg).1
    decreases |evs|
  {
    if evs != [] {
      RefinesStep(st, r, evs[0], cfg);
      RefinesRun(Step(st, evs[0], cfg).0, RefStep(r, evs[0], cfg).0, evs[1..], cfg);
    }
  }

  lemma CacheIsAMap(evs: seq<Event>, cfg: Config)
    requires AllAllowed(RefState(map[], []), evs, cfg)
    ensures Run(Start, evs, cfg).1 == RefRun(RefState(map[], []), evs, cfg).1
    ensures DistinctKeys(Run(Start, evs, cfg).0.slots)
  {
    RefinesRun(Start, RefState(map[], []), evs, cfg);
  }
}
