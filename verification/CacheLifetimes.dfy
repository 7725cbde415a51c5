/** How long the cache answers, in seconds: default and largest lifetimes for each mode, renewal
    by use, and what becomes of an item without a secret. */
module CacheLifetimes {
  import opened Common
  import opened CacheSpec
  import opened CacheRuns

  /** The answers of a fresh cache that is given a secret and then asked for it. */
  function Answers(key: string, mode: Mode, s: string, ttl: int, t: int, asked: Mode, n: int, cfg: Config)
    : seq<Option<string>>
  {
    Run(Start, [PutE(key, mode, Some(s), ttl, t, t), GetE(key, asked, n, n)], cfg).1
  }

  lemma AnswersAre(key: string, mode: Mode, s: string, ttl: int, t: int, asked: Mode, n: int, cfg: Config)
    ensures Answers(key, mode, s, ttl, t, asked, n, cfg)
         == [None, Step(Step(Start, PutE(key, mode, Some(s), ttl, t, t), cfg).0, GetE(key, asked, n, n), cfg).1]
  {
    var a, b := PutE(key, mode, Some(s), ttl, t, t), GetE(key, asked, n, n);
    var st := Step(Start, a, cfg).0;
    assert [a, b][1..] == [b] && [b][1..] == [];
    assert Step(Start, a, cfg).1 == None;
    hide Step;
    assert Run(Step(st, b, cfg).0, [], cfg).1 == [];
    assert Run(st, [b], cfg).1 == [Step(st, b, cfg).1] + [];
    assert Run(Start, [a, b], cfg).1 == [None] + Run(st, [b], cfg).1;
  }

  // ---------- a list of one slot ----------

  lemma HousekeepingOne(s: Slot, n: int, cfg: Config)
    ensures Housekeeping([s], n, cfg) == SweepOne(ExpireBoth(s, n, cfg), n)
    ensures Housekeeping([], n, cfg) == []
  {
    hide SweepOne, ExpireBoth;
    var e := Expired([s], n, cfg);
    assert e == [ExpireBoth(s, n, cfg)] && e[1..] == [];
    assert Sweep([], n) == [];
    assert Expired([], n, cfg) == [];
    assert SweepOne(e[0], n) + [] == SweepOne(e[0], n);
  }

  /** Neither unused for too long nor too old. */
  predicate Lasts(s: Slot, n: int, cfg: Config) {
    (s.ttl < 0 || n <= s.accessed + s.ttl) && n <= s.created + MaxTtl(s.mode, cfg)
  }

  lemma OneSlotKept(s: Slot, n: int, cfg: Config)
    requires s.locks == 0 && s.pw.Some?
    ensures Housekeeping([s], n, cfg) == [if Lasts(s, n, cfg) then s else s.(pw := None, accessed := n)]
  {
    HousekeepingOne(s, n, cfg);
    hide MaxTtl;
  }

  lemma OneSlotAnswers(s: Slot, asked: Mode, n: int, cfg: Config)
    requires s.locks == 0 && s.pw.Some? && asked != Ignore
    ensures
      var (st, reply) := Step(State([s], 1, []), GetE(s.key, asked, n, n), cfg);
      if Lasts(s, n, cfg) then
        reply == s.pw && st == State([s.(accessed := n, locks := 1)], 1, [Handle(s.id, s.key, s.pw.value)])
      else reply == None && st == State([s.(pw := None, accessed := n)], 1, [])
  {
    OneSlotKept(s, n, cfg);
    hide Housekeeping, Lasts;
    var w := Housekeeping([s], n, cfg);
    assert w[1..] == [] && Find([], s.key, true, true) == 0 && Find([], s.key, false, true) == 0;
    var hs: seq<Handle> := [];
    if Lasts(s, n, cfg) {
      assert Hit(w, s.key) == 0;
      assert hs + [Handle(s.id, s.key, s.pw.value)] == [Handle(s.id, s.key, s.pw.value)];
      assert w[0 := Pin(s, n)] == [s.(accessed := n, locks := 1)];
    } else {
      assert Hit(w, s.key) == 1;
    }
  }

  lemma FirstStored(key: string, mode: Mode, s: string, ttl: int, t: int, cfg: Config)
    ensures
      var e := EffectiveTtl(ttl, mode, cfg);
      Step(Start, PutE(key, mode, Some(s), ttl, t, t), cfg)
      == (State(if e == 0 then [] else [Slot(0, key, t, t, e, 0, Some(s), mode)], 1, []), None)
  {
    HousekeepingOne(Slot(0, key, t, t, 0, 0, None, mode), t, cfg);
    hide Housekeeping, EffectiveTtl;
    assert Find([], key, true, false) == 0;
    var e := EffectiveTtl(ttl, mode, cfg);
    var slot := Slot(0, key, t, t, e, 0, Some(s), mode);
    assert [slot] + [] == [slot];
  }

  lemma NothingAnswers(key: string, asked: Mode, n: int, cfg: Config)
    ensures Step(State([], 1, []), GetE(key, asked, n, n), cfg) == (State([], 1, []), None)
  {
    HousekeepingOne(Slot(0, key, 0, 0, 0, 0, None, Any), n, cfg);
    hide Housekeeping;
    assert Find([], key, true, true) == 0 && Find([], key, false, true) == 0;
  }

  // ---------- lifetimes ----------

  /** When a secret is handed out: up to the lifetime that was asked for, where 0 asks for the
      default of its mode and a negative one for no limit, but never beyond the largest
      lifetime of its mode. */
  lemma Lifetime(key: string, mode: Mode, s: string, ttl: int, t: int, asked: Mode, n: int, cfg: Config)
    requires mode != Ignore && asked != Ignore
    ensures
      var life := if ttl != 0 then ttl else match mode { case Ssh => cfg.defTtlSsh case _ => cfg.defTtl };
      var most := match mode { case Ssh => cfg.maxTtlSsh case _ => cfg.maxTtl };
      Answers(key, mode, s, ttl, t, asked, n, cfg)
      == [None, if life != 0 && (life < 0 || n <= t + life) && n <= t + most then Some(s) else None]
  {
    AnswersAre(key, mode, s, ttl, t, asked, n, cfg);
    hide Answers;
    FirstStored(key, mode, s, ttl, t, cfg);
    NothingAnswers(key, asked, n, cfg);
    hide Step;
    var e := EffectiveTtl(ttl, mode, cfg);
    OneSlotAnswers(Slot(0, key, t, t, e, 0, Some(s), mode), asked, n, cfg);
  }

  /** The defaults to the second: secrets of secure shell keys have their own, all others
      share one. */
  lemma DefaultLifetimes(key: string, s: string, t: int, mode: Mode, asked: Mode, cfg: Config)
    requires 0 < cfg.defTtl < cfg.maxTtl && 0 < cfg.defTtlSsh < cfg.maxTtlSsh && asked != Ignore
    requires mode == Any || mode == Normal || mode == User
    ensures Answers(key, Ssh, s, 0, t, asked, t + cfg.defTtlSsh, cfg) == [None, Some(s)]
    ensures Answers(key, Ssh, s, 0, t, asked, t + cfg.defTtlSsh + 1, cfg) == [None, None]
    ensures Answers(key, mode, s, 0, t, asked, t + cfg.defTtl, cfg) == [None, Some(s)]
    ensures Answers(key, mode, s, 0, t, asked, t + cfg.defTtl + 1, cfg) == [None, None]
  {
    hide Answers;
    Lifetime(key, Ssh, s, 0, t, asked, t + cfg.defTtlSsh, cfg);
    Lifetime(key, Ssh, s, 0, t, asked, t + cfg.defTtlSsh + 1, cfg);
    Lifetime(key, mode, s, 0, t, asked, t + cfg.defTtl, cfg);
    Lifetime(key, mode, s, 0, t, asked, t + cfg.defTtl + 1, cfg);
  }

  /** In mode ignore nothing is stored and nothing is answered. */
  lemma IgnoredMode(key: string, mode: Mode, s: string, ttl: int, t: int, asked: Mode, n: int, cfg: Config)
    requires mode == Ignore || asked == Ignore
    ensures Answers(key, mode, s, ttl, t, asked, n, cfg) == [None, None]
  {
    AnswersAre(key, mode, s, ttl, t, asked, n, cfg);
    hide Answers;
    if asked != Ignore {
      FirstStored(key, mode, s, ttl, t, cfg);
      NothingAnswers(key, asked, n, cfg);
      hide Step;
    }
  }

  /** Every use renews the lifetime, but not the largest one: the third call gives the secret
      back, and the fourth is answered by the time of the second. */
  lemma UseRenews(key: string, mode: Mode, s: string, ttl: int, t: int, used: int, n: int, cfg: Config)
    requires mode != Ignore && ttl > 0
    requires var most := match mode { case Ssh => cfg.maxTtlSsh case _ => cfg.maxTtl };
             used <= t + ttl && used <= t + most
    ensures
      var most := match mode { case Ssh => cfg.maxTtlSsh case _ => cfg.maxTtl };
      var st := Step(Start, PutE(key, mode, Some(s), ttl, t, t), cfg).0;
      var st' := Step(Step(st, GetE(key, mode, used, used), cfg).0, UnlockE(0), cfg).0;
      Step(st', GetE(key, mode, n, n), cfg).1 == if n <= used + ttl && n <= t + most then Some(s) else None
  {
    FirstStored(key, mode, s, ttl, t, cfg);
    var slot := Slot(0, key, t, t, ttl, 0, Some(s), mode);
    OneSlotAnswers(slot, mode, used, cfg);
    GivenBack(slot, used, cfg);
    hide Step;
    OneSlotAnswers(slot.(accessed := used), mode, n, cfg);
  }

  lemma GivenBack(s: Slot, used: int, cfg: Config)
    requires s.pw.Some? && s.locks == 0
    ensures Step(State([s.(accessed := used, locks := 1)], 1, [Handle(s.id, s.key, s.pw.value)]), UnlockE(0), cfg)
         == (State([s.(accessed := used)], 1, []), None)
  {
    var p := s.(accessed := used, locks := 1);
    var h := Handle(s.id, s.key, s.pw.value);
    assert Unpin([p], s.id) == [s.(accessed := used)];
    assert Without([h], 0) == [];
  }

  // ---------- items without a secret ----------

  /** An item that has lost its secret is unlinked by the first call more than half an hour
      later; if it were still locked, it would be looked at again ten minutes later. */
  lemma EmptyItemGone(s: Slot, n: int, cfg: Config)
    requires s.pw.None? && s.ttl >= 0
    ensures s.locks == 0 ==> Housekeeping([s], n, cfg) == if n > s.accessed + 1800 then [] else [s]
    ensures s.locks > 0 ==>
              Housekeeping([s], n, cfg) == [if n > s.accessed + 1800 then s.(accessed := s.accessed + 600) else s]
  {
    HousekeepingOne(s, n, cfg);
  }

  /** In any state that a run from the start reaches, an item in use has its secret; so the
      housekeeping never meets a locked item without one. */
  lemma LockedHasSecret(evs: seq<Event>, cfg: Config, s: Slot)
    requires s in Run(Start, evs, cfg).0.slots && s.locks > 0
    ensures s.pw.Some?
  {
    SafeStart();
    SafeRun(Start, evs, cfg);
    var st := Run(Start, evs, cfg).0;
    hide Run, Holds;
    var h := HandleOf(st.handles, s.id);
    var t := Held(st.slots, h);
    SameSlot(st.slots, s, t);
  }

  lemma SameSlot(v: seq<Slot>, s: Slot, t: Slot)
    requires DistinctIds(v) && s in v && t in v && s.id == t.id
    ensures s == t
  {
    var i := IndexOf(v, s);
    var j := IndexOf(v, t);
    assert v[i].id == v[j].id;
  }

  lemma {:induction false} HandleOf(hs: seq<Handle>, id: nat) returns (h: Handle)
    requires Outstanding(hs, id) > 0
    ensures h in hs && h.id == id
  {
    if hs[0].id == id {
      h := hs[0];
    } else {
      h := HandleOf(hs[1..], id);
    }
  }

  // ---------- flushing ----------

  /** After a flush the secret is gone at once if nobody uses it, and with the first call after
      it is given back otherwise, unless that call is made at time 0 or before. */
  lemma FlushForgets(key: string, mode: Mode, s: string, ttl: int, t: int, used: int, n: int, cfg: Config)
    requires mode != Ignore && ttl > 0
    requires var most := match mode { case Ssh => cfg.maxTtlSsh case _ => cfg.maxTtl };
             used <= t + ttl && used <= t + most
    ensures
      var most := match mode { case Ssh => cfg.maxTtlSsh case _ => cfg.maxTtl };
      var st := Step(Start, PutE(key, mode, Some(s), ttl, t, t), cfg).0;
      var idle := Step(st, FlushE, cfg).0;
      var busy := Step(Step(st, GetE(key, mode, used, used), cfg).0, FlushE, cfg).0;
      && Step(idle, GetE(key, mode, n, n), cfg).1 == None
      && Step(Step(busy, UnlockE(0), cfg).0, GetE(key, mode, n, n), cfg).1
         == if n <= 0 && n <= t + most then Some(s) else None
  {
    FirstStored(key, mode, s, ttl, t, cfg);
    var slot := Slot(0, key, t, t, ttl, 0, Some(s), mode);
    OneSlotAnswers(slot, mode, used, cfg);
    FlushedOnce(slot, used, cfg);
    EmptySlotAnswers(slot.(pw := None, accessed := 0), mode, n, cfg);
    hide Step;
    OneSlotAnswers(slot.(accessed := 0, ttl := 0), mode, n, cfg);
  }

  lemma FlushedOnce(s: Slot, used: int, cfg: Config)
    requires s.pw.Some? && s.locks == 0
    ensures Step(State([s], 1, []), FlushE, cfg).0 == State([s.(pw := None, accessed := 0)], 1, [])
    ensures
      var h := Handle(s.id, s.key, s.pw.value);
      var st := Step(State([s.(accessed := used, locks := 1)], 1, [h]), FlushE, cfg).0;
      Step(st, UnlockE(0), cfg).0 == State([s.(accessed := 0, ttl := 0)], 1, [])
  {
    var h := Handle(s.id, s.key, s.pw.value);
    var p := s.(accessed := used, locks := 1);
    assert Flush([s]) == [s.(pw := None, accessed := 0)];
    assert Flush([p]) == [p.(accessed := 0, ttl := 0)];
    assert Unpin([p.(accessed := 0, ttl := 0)], s.id) == [s.(accessed := 0, ttl := 0)];
    assert Without([h], 0) == [];
  }

  lemma EmptySlotAnswers(s: Slot, asked: Mode, n: int, cfg: Config)
    requires s.locks == 0 && s.pw.None? && asked != Ignore
    ensures Step(State([s], 1, []), GetE(s.key, asked, n, n), cfg).1 == None
  {
    HousekeepingOne(s, n, cfg);
    assert ExpireBoth(s, n, cfg) == s;
    var w := Housekeeping([s], n, cfg);
    assert w == [] || w == [s];
    hide Housekeeping;
    assert Find([], s.key, true, true) == 0 && Find([], s.key, false, true) == 0;
    assert [s][1..] == [];
    assert Hit(w, s.key) == |w|;
  }
}
