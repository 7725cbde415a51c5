/** The passphrase cache as a list of slots: what each operation does to the list. */
module CacheSpec {
  import opened Common

  datatype Mode = Ignore | Any | Normal | User | Ssh

  datatype Config = Config(defTtl: int, defTtlSsh: int, maxTtl: nat, maxTtlSsh: nat)

  /** struct cache_item_s; the identity stands for the item's address. */
  datatype Slot = Slot(id: nat, key: string, created: int, accessed: int, ttl: int, locks: nat,
                       pw: Option<string>, mode: Mode)

  function MaxTtl(mode: Mode, cfg: Config): nat {
    if mode == Ssh then cfg.maxTtlSsh else cfg.maxTtl
  }

  const IDLE_SECONDS := 60 * 30
  const NAG_SECONDS := 60 * 10

  /** First pass of the housekeeping: not used for too long. */
  function ExpireUnused(s: Slot, now: int): Slot {
    if s.locks == 0 && s.pw.Some? && s.ttl >= 0 && s.accessed + s.ttl < now
    then s.(pw := None, accessed := now) else s
  }

  /** Second pass: created too long ago. */
  function ExpireOld(s: Slot, now: int, cfg: Config): Slot {
    if s.locks == 0 && s.pw.Some? && s.created + MaxTtl(s.mode, cfg) < now
    then s.(pw := None, accessed := now) else s
  }

  predicate Idle(s: Slot, now: int) {
    s.pw.None? && s.ttl >= 0 && s.accessed + IDLE_SECONDS < now
  }

  /** Third pass: what becomes of one slot. */
  function SweepOne(s: Slot, now: int): seq<Slot> {
    if !Idle(s, now) then [s]
    else if s.locks > 0 then [s.(accessed := s.accessed + NAG_SECONDS)]
    else []
  }

  function Sweep(v: seq<Slot>, now: int): seq<Slot> {
    if v == [] then [] else SweepOne(v[0], now) + Sweep(v[1..], now)
  }

  function ExpireBoth(s: Slot, now: int, cfg: Config): Slot {
    ExpireOld(ExpireUnused(s, now), now, cfg)
  }

  function Expired(v: seq<Slot>, now: int, cfg: Config): seq<Slot> {
    seq(|v|, i requires 0 <= i < |v| => ExpireBoth(v[i], now, cfg))
  }

  function Housekeeping(v: seq<Slot>, now: int, cfg: Config): seq<Slot> {
    Sweep(Expired(v, now, cfg), now)
  }

  function FlushOne(s: Slot): Slot {
    if s.locks == 0 && s.pw.Some? then s.(pw := None, accessed := 0)
    else if s.locks > 0 && s.pw.Some? then s.(accessed := 0, ttl := 0)
    else s
  }

  function Flush(v: seq<Slot>): seq<Slot> {
    seq(|v|, i requires 0 <= i < |v| => FlushOne(v[i]))
  }

  /** The first slot with this key that satisfies the two conditions, or the length. */
  function Find(v: seq<Slot>, key: string, unlocked: bool, live: bool): (i: nat)
    ensures i <= |v|
    ensures i < |v| ==> v[i].key == key && (unlocked ==> v[i].locks == 0) && (live ==> v[i].pw.Some?)
    ensures forall j | 0 <= j < i :: !(v[j].key == key && (unlocked ==> v[j].locks == 0) && (live ==> v[j].pw.Some?))
  {
    if v == [] then 0
    else if v[0].key == key && (unlocked ==> v[0].locks == 0) && (live ==> v[0].pw.Some?) then 0
    else 1 + Find(v[1..], key, unlocked, live)
  }

  /** The lifetime asked for, or the default; 0 means not to store. */
  function EffectiveTtl(ttl: int, mode: Mode, cfg: Config): int {
    if mode == Ignore then 0
    else if ttl != 0 then ttl
    else if mode == Ssh then cfg.defTtlSsh else cfg.defTtl
  }

  /** Storing or deleting behind the housekeeping; `id` is the address a new item gets. */
  function Store(v: seq<Slot>, id: nat, key: string, mode: Mode, data: Option<string>, ttl: int, now: int): seq<Slot> {
    var i := Find(v, key, true, false);
    if i < |v| then
      v[i := if data.None? then v[i].(pw := None)
             else v[i].(pw := data, created := now, accessed := now, ttl := ttl, mode := mode)]
    else if data.Some? then [Slot(id, key, now, now, ttl, 0, data, mode)] + v
    else v
  }

  function Put(v: seq<Slot>, id: nat, key: string, mode: Mode, data: Option<string>, ttl: int,
               hk: int, now: int, cfg: Config): seq<Slot>
  {
    var w := Housekeeping(v, hk, cfg);
    var t := EffectiveTtl(ttl, mode, cfg);
    if t == 0 then w else Store(w, id, key, mode, data, t, now)
  }

  /** The slot a lookup pins: an unlocked one if there is one, else any. */
  function Hit(v: seq<Slot>, key: string): nat {
    var i := Find(v, key, true, true);
    if i < |v| then i else Find(v, key, false, true)
  }

  function Pin(s: Slot, now: int): Slot {
    s.(accessed := now, locks := s.locks + 1)
  }

  function Get(v: seq<Slot>, key: string, mode: Mode, hk: int, now: int, cfg: Config)
    : (seq<Slot>, Option<Slot>)
  {
    if mode == Ignore then (v, None) else
    var w := Housekeeping(v, hk, cfg);
    var i := Hit(w, key);
    if i < |w| then (w[i := Pin(w[i], now)], Some(Pin(w[i], now))) else (w, None)
  }

  function UnpinOne(s: Slot, id: nat): Slot {
    if s.id == id && s.locks > 0 then s.(locks := s.locks - 1) else s
  }

  function Unpin(v: seq<Slot>, id: nat): seq<Slot> {
    seq(|v|, i requires 0 <= i < |v| => UnpinOne(v[i], id))
  }

  // ---------- the sweep ----------

  lemma SweepNothing(now: int)
    ensures Sweep([], now) == []
  {
  }

  lemma {:induction false} SweepSnoc(v: seq<Slot>, s: Slot, now: int)
    ensures Sweep(v + [s], now) == Sweep(v, now) + SweepOne(s, now)
  {
    if v == [] {
      assert v + [s] == [s];
      assert SweepOne(s, now) + [] == [] + SweepOne(s, now);
    } else {
      assert (v + [s])[1..] == v[1..] + [s];
      SweepSnoc(v[1..], s, now);
      assert SweepOne(v[0], now) + (Sweep(v[1..], now) + SweepOne(s, now))
          == SweepOne(v[0], now) + Sweep(v[1..], now) + SweepOne(s, now);
    }
  }

  /** What survives the sweep, and from where. */
  lemma {:induction false} SweepMembers(v: seq<Slot>, now: int, t: Slot)
    ensures t in Sweep(v, now) <==> exists s :: s in v && t in SweepOne(s, now)
  {
    if v != [] {
      SweepMembers(v[1..], now, t);
      assert v == [v[0]] + v[1..];
    }
  }

  /** The keys stay in order, so distinct identities and keys stay distinct. */
  lemma {:induction false} SweepDistinct(v: seq<Slot>, now: int)
    ensures DistinctIds(v) ==> DistinctIds(Sweep(v, now))
    ensures DistinctKeys(v) ==> DistinctKeys(Sweep(v, now))
  {
    if v != [] {
      var head, rest := SweepOne(v[0], now), Sweep(v[1..], now);
      SweepDistinct(v[1..], now);
      forall t | t in rest
        ensures exists s :: s in v[1..] && s.id == t.id && s.key == t.key
      {
        SweepMembers(v[1..], now, t);
      }
      assert Sweep(v, now) == head + rest;
      assert head != [] ==> head == [head[0]] && head[0].id == v[0].id && head[0].key == v[0].key;
      hide Sweep, SweepOne;
      DistinctJoin(v, head, rest);
    }
  }

  /** At most one slot in front of a list whose identities and keys come from a shorter one. */
  lemma DistinctJoin(v: seq<Slot>, head: seq<Slot>, rest: seq<Slot>)
    requires v != [] && |head| <= 1
    requires head != [] ==> head[0].id == v[0].id && head[0].key == v[0].key
    requires forall t | t in rest :: exists s :: s in v[1..] && s.id == t.id && s.key == t.key
    ensures DistinctIds(v) && DistinctIds(rest) ==> DistinctIds(head + rest)
    ensures DistinctKeys(v) && DistinctKeys(rest) ==> DistinctKeys(head + rest)
    ensures DistinctIds(v) ==> DistinctIds(v[1..])
    ensures DistinctKeys(v) ==> DistinctKeys(v[1..])
  {
    assert v == [v[0]] + v[1..];
  }

  predicate DistinctIds(v: seq<Slot>) {
    forall i, j | 0 <= i < j < |v| :: v[i].id != v[j].id
  }

  predicate DistinctKeys(v: seq<Slot>) {
    forall i, j | 0 <= i < j < |v| :: v[i].key != v[j].key
  }
}
