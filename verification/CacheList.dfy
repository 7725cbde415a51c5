/** The passphrase cache as the program keeps it: a list of items changed in place. */
module CacheList {
  import opened Common
  import opened CacheSpec
  import R = CacheRuns

  class Item {
    const id: nat
    const key: string
    var created: int
    var accessed: int
    var ttl: int
    var locks: nat
    var pw: Option<string>
    var mode: Mode

    constructor (id: nat, key: string, now: int, ttl: int, pw: Option<string>, mode: Mode)
      ensures View() == Slot(id, key, now, now, ttl, 0, pw, mode)
    {
      this.id, this.key := id, key;
      created, accessed, this.ttl, locks := now, now, ttl, 0;
      this.pw, this.mode := pw, mode;
    }

    function View(): Slot
      reads this
    {
      Slot(id, key, created, accessed, ttl, locks, pw, mode)
    }
  }

  class Cache {
    const cfg: Config
    var items: seq<Item>
    var nextId: nat

    ghost function Footprint(): (f: set<Item>)
      reads this
      ensures forall i | 0 <= i < |items| :: items[i] in f
    {
      set x | x in items
    }

    ghost predicate Valid()
      reads this, items
    {
      && (forall i, j | 0 <= i < j < |items| :: items[i] != items[j])
      && (forall i | 0 <= i < |items| :: items[i].id < nextId)
      && (forall i, j | 0 <= i < j < |items| :: items[i].id != items[j].id)
    }

    ghost predicate NewId(id: nat)
      reads this
    {
      forall i | 0 <= i < |items| :: items[i].id != id
    }

    ghost function Views(): (v: seq<Slot>)
      reads this, items
      ensures |v| == |items| && forall i | 0 <= i < |v| :: v[i] == items[i].View()
    {
      seq(|items|, i requires 0 <= i < |items| reads this, items => items[i].View())
    }

    constructor (cfg: Config)
      ensures Valid() && items == [] && Views() == [] && nextId == 0 && this.cfg == cfg
    {
      this.cfg := cfg;
      items, nextId := [], 0;
    }

    /** The first pass of housekeeping. */
    method ExpireByUse(now: int)
      requires Valid()
      modifies Footprint()
      ensures Valid() && forall j | 0 <= j < |items| :: items[j].View() == ExpireUnused(old(items[j].View()), now)
    {
      ghost var v := Views();
      for i := 0 to |items|
        invariant forall j | 0 <= j < i :: items[j].View() == ExpireUnused(v[j], now)
        invariant forall j | i <= j < |items| :: items[j].View() == v[j]
      {
        var r := items[i];
        if r.locks == 0 && r.pw.Some? && r.ttl >= 0 && r.accessed + r.ttl < now {
          r.pw := None;
          r.accessed := now;
        }
      }
    }

    /** The second pass of housekeeping. */
    method ExpireByAge(now: int)
      requires Valid()
      modifies Footprint()
      ensures Valid() && forall j | 0 <= j < |items| :: items[j].View() == ExpireOld(old(items[j].View()), now, cfg)
    {
      ghost var v := Views();
      for i := 0 to |items|
        invariant forall j | 0 <= j < i :: items[j].View() == ExpireOld(v[j], now, cfg)
        invariant forall j | i <= j < |items| :: items[j].View() == v[j]
      {
        var r := items[i];
        var maxTtl := match r.mode case Ssh => cfg.maxTtlSsh case _ => cfg.maxTtl;
        if r.locks == 0 && r.pw.Some? && r.created + maxTtl < now {
          r.pw := None;
          r.accessed := now;
        }
      }
    }

    /** The three passes of housekeeping. */
    method Housekeep(now: int)
      requires Valid()
      modifies this`items, Footprint()
      ensures Valid()
      ensures Footprint() <= old(Footprint())
      ensures Views() == Housekeeping(old(Views()), now, cfg)
    {
      hide ExpireUnused, ExpireOld, Sweep;
      ghost var v := Views();
      ExpireByUse(now);
      ExpireByAge(now);
      assert Views() == Expired(v, now, cfg);
      RemoveIdle(now);
    }

    /** The third pass: unlink the slots that have not been used for half an hour. */
    method RemoveIdle(now: int)
      requires Valid()
      modifies this`items, Footprint()
      ensures Valid()
      ensures Footprint() <= old(Footprint())
      ensures Views() == Sweep(old(Views()), now)
    {
      hide *;
      SweepNothing(now);
      ghost var v := Views();
      ghost var k := 0;      // items looked at so far, counting the removed ones
      var i := 0;
      while i < |items|
        invariant 0 <= k <= |v| && 0 <= i <= |items| && |items| - i == |v| - k
        invariant Valid()
        invariant Footprint() <= old(Footprint())
        invariant Views()[..i] == Sweep(v[..k], now)
        invariant Views()[i..] == v[k..]
        decreases |v| - k
      {
        assert v[..k + 1] == v[..k] + [v[k]];
        assert v[k] == Views()[i..][0];
        SweepSnoc(v[..k], v[k], now);
        i := SweepItem(i, now);
        k := k + 1;
      }
      assert Views()[..i] == Views();
      assert v[..k] == v;
    }

    /** One turn of the third pass. */
    method SweepItem(i: nat, now: int) returns (next: nat)
      requires Valid() && i < |items|
      modifies this`items, Footprint()
      ensures Valid() && next <= |items|
      ensures Footprint() <= old(Footprint())
      ensures Views()[..next] == old(Views())[..i] + SweepOne(old(Views())[i], now)
      ensures Views()[next..] == old(Views())[i + 1..]
    {
      ghost var v := Views();
      var r := items[i];
      next := i + 1;
      if r.pw.None? && r.ttl >= 0 && r.accessed + 60 * 30 < now {
        if r.locks != 0 {
          r.accessed := r.accessed + 60 * 10;
          assert Views() == v[i := r.View()];
        } else {
          Unlink(i);
          next := i;
        }
      }
      ghost var w := Views();
      assert w[..next] == v[..i] + SweepOne(v[i], now);
    }

    method Unlink(i: nat)
      requires Valid() && i < |items|
      modifies this`items
      ensures Valid() && Footprint() <= old(Footprint())
      ensures Views() == old(Views())[..i] + old(Views())[i + 1..]
    {
      ghost var before := items;
      items := items[..i] + items[i + 1..];
      assert forall j | 0 <= j < |items| :: items[j] == before[if j < i then j else j + 1];
      assert Views() == old(Views())[..i] + old(Views())[i + 1..];
    }

    /** agent_flush_cache */
    method FlushCache()
      requires Valid()
      modifies Footprint()
      ensures Valid() && Views() == Flush(old(Views()))
    {
      ghost var v := Views();
      for i := 0 to |items|
        invariant forall j | 0 <= j < i :: items[j].View() == FlushOne(v[j])
        invariant forall j | i <= j < |items| :: items[j].View() == v[j]
      {
        var r := items[i];
        if r.locks == 0 && r.pw.Some? {
          r.pw := None;
          r.accessed := 0;
        } else if r.locks != 0 && r.pw.Some? {
          r.accessed := 0;
          r.ttl := 0;
        }
      }
    }

    /** The loops over the list that stop at the first match. */
    method FindItem(key: string, unlocked: bool, live: bool) returns (i: nat)
      requires Valid()
      ensures i == Find(Views(), key, unlocked, live)
    {
      i := 0;
      ghost var v := Views();
      while i < |items| && !(items[i].key == key && (unlocked ==> items[i].locks == 0) && (live ==> items[i].pw.Some?))
        invariant i <= |items|
        invariant forall j | 0 <= j < i ::
                    !(v[j].key == key && (unlocked ==> v[j].locks == 0) && (live ==> v[j].pw.Some?))
      {
        i := i + 1;
      }
    }

    /** agent_put_cache.  The clock is read once for the housekeeping and again for the stamp. */
    method PutCache(key: string, mode: Mode, data: Option<string>, ttl: int, hk: int, now: int)
      requires Valid()
      modifies this`items, this`nextId, Footprint()
      ensures Valid() && nextId == old(nextId) + 1
      ensures fresh(Footprint() - old(Footprint()))
      ensures forall x | x in Footprint() - old(Footprint()) :: x.id == old(nextId)
      ensures Views() == Put(old(Views()), old(nextId), key, mode, data, ttl, hk, now, cfg)
    {
      hide Housekeeping, Store;
      var id := nextId;
      nextId := nextId + 1;
      assert Views() == old(Views());
      Housekeep(hk);
      var t := ttl;
      if t == 0 {
        t := match mode case Ssh => cfg.defTtlSsh case _ => cfg.defTtl;
      }
      if t == 0 || mode == Ignore {
        return;
      }
      StoreItem(id, key, mode, data, t, now);
    }

    /** Replace, delete or insert. */
    method StoreItem(id: nat, key: string, mode: Mode, data: Option<string>, ttl: int, now: int)
      requires Valid() && id < nextId && NewId(id)
      modifies this`items, Footprint()
      ensures Valid()
      ensures fresh(Footprint() - old(Footprint()))
      ensures forall x | x in Footprint() - old(Footprint()) :: x.id == id
      ensures Views() == Store(old(Views()), id, key, mode, data, ttl, now)
    {
      hide Find, Valid;
      var i := FindItem(key, true, false);
      if i < |items| {
        ReplaceItem(i, mode, data, ttl, now);
      } else if data.Some? {
        InsertItem(id, key, mode, data, ttl, now);
      }
    }

    method ReplaceItem(i: nat, mode: Mode, data: Option<string>, ttl: int, now: int)
      requires Valid() && i < |items|
      modifies Footprint()
      ensures Valid()
      ensures var s := old(Views())[i];
              Views() == old(Views())[i := if data.None? then s.(pw := None)
                                           else s.(pw := data, created := now, accessed := now,
                                                   ttl := ttl, mode := mode)]
    {
      ghost var v := Views();
      var r := items[i];
      if data.Some? {
        r.created := now;
        r.accessed := now;
        r.ttl := ttl;
        r.mode := mode;
      }
      r.pw := data;
      assert Views() == v[i := r.View()];
    }

    method InsertItem(id: nat, key: string, mode: Mode, data: Option<string>, ttl: int, now: int)
      requires Valid() && id < nextId && NewId(id)
      modifies this`items
      ensures Valid()
      ensures fresh(Footprint() - old(Footprint()))
      ensures forall x | x in Footprint() - old(Footprint()) :: x.id == id
      ensures Views() == [Slot(id, key, now, now, ttl, 0, data, mode)] + old(Views())
    {
      ghost var v, before := Views(), items;
      var r := new Item(id, key, now, ttl, data, mode);
      items := [r] + items;
      assert forall j | 0 < j < |items| :: items[j] == before[j - 1];
      assert Views() == [r.View()] + v;
    }

    /** agent_get_cache */
    method GetCache(key: string, mode: Mode, hk: int, now: int) returns (secret: Option<string>, handle: Item?)
      requires Valid()
      modifies this`items, Footprint()
      ensures Valid() && Footprint() <= old(Footprint())
      ensures Views() == Get(old(Views()), key, mode, hk, now, cfg).0
      ensures var hit := Get(old(Views()), key, mode, hk, now, cfg).1;
              if handle == null then hit.None? && secret.None?
              else handle in items && hit == Some(handle.View()) && secret == handle.pw
    {
      hide Housekeeping, Valid, Hit, Pin;
      secret, handle := None, null;
      if mode != Ignore {
        Housekeep(hk);
        handle := PinHit(key, now);
        if handle != null {
          secret := handle.pw;
        }
      }
    }

    /** The two searches: first for an unlocked item, then for any. */
    method PinHit(key: string, now: int) returns (r: Item?)
      requires Valid()
      modifies Footprint()
      ensures Valid()
      ensures var v, i := old(Views()), Hit(old(Views()), key);
              if i < |v| then r != null && r in items && r.View() == Pin(v[i], now) && Views() == v[i := Pin(v[i], now)]
              else r == null && Views() == v
    {
      hide Valid, Find, Pin;
      var i := FindItem(key, true, true);
      if i == |items| {
        i := FindItem(key, false, true);
      }
      r := null;
      if i < |items| {
        r := PinItem(i, now);
      }
    }

    method PinItem(i: nat, now: int) returns (r: Item)
      requires Valid() && i < |items|
      modifies Footprint()
      ensures Valid() && r == items[i] && r.View() == Pin(old(Views())[i], now)
      ensures Views() == old(Views())[i := Pin(old(Views())[i], now)]
    {
      ghost var v := Views();
      r := items[i];
      r.accessed := now;
      r.locks := r.locks + 1;
      assert Views() == v[i := Pin(v[i], now)];
    }

    /** agent_unlock_cache_entry */
    method UnlockCacheEntry(handle: Item)
      requires Valid()
      modifies Footprint()
      ensures Valid()
      ensures Views() == if handle in items then Unpin(old(Views()), handle.id) else old(Views())
    {
      ghost var v := Views();
      for i := 0 to |items|
        invariant Views() == v
        invariant handle !in items[..i]
      {
        if items[i] == handle {
          if items[i].locks != 0 {
            handle.locks := handle.locks - 1;
          }
          assert forall j | 0 <= j < |items| && j != i :: items[j] != handle && items[j].id != handle.id;
          assert Views() == Unpin(v, handle.id);
          return;
        }
      }
      assert items[..|items|] == items;
    }
  }

  /** The cache and the handles a caller holds are what the machine's state says. */
  ghost predicate Tracks(c: Cache, handles: seq<Item>, st: R.State)
    reads c, c.items
  {
    && c.Valid()
    && R.Safe(st)
    && st.slots == c.Views()
    && st.nextId == c.nextId
    && |handles| == |st.handles|
    && (forall j | 0 <= j < |handles| :: handles[j].id == st.handles[j].id)
    && Addresses(c.Footprint(), handles)
  }

  /** An item has the identity of a handle only if it is that handle. */
  ghost predicate Addresses(items: set<Item>, handles: seq<Item>) {
    forall x, j | x in items && 0 <= j < |handles| && x.id == handles[j].id :: x == handles[j]
  }

  method CallPut(c: Cache, handles: seq<Item>, ev: R.Event, ghost st: R.State)
    returns (reply: Option<string>, now: seq<Item>)
    requires Tracks(c, handles, st) && ev.PutE?
    modifies c`items, c`nextId, c.Footprint()
    ensures fresh(c.Footprint() - old(c.Footprint()))
    ensures Tracks(c, now, R.Step(st, ev, c.cfg).0)
    ensures reply == R.Step(st, ev, c.cfg).1
  {
    hide R.Safe, R.Holds, Put, Get, Flush, Unpin, Cache.Valid, Addresses;
    R.SafeStep(st, ev, c.cfg);
    var PutE(key, mode, data, ttl, hk, t) := ev;
    HandlesAreOld(st);
    c.PutCache(key, mode, data, ttl, hk, t);
    AddressesStay(old(c.Footprint()), c.Footprint(), handles, st.nextId);
    reply, now := None, handles;
  }

  method CallGet(c: Cache, handles: seq<Item>, ev: R.Event, ghost st: R.State)
    returns (reply: Option<string>, now: seq<Item>)
    requires Tracks(c, handles, st) && ev.GetE?
    modifies c`items, c`nextId, c.Footprint()
    ensures fresh(c.Footprint() - old(c.Footprint()))
    ensures Tracks(c, now, R.Step(st, ev, c.cfg).0)
    ensures reply == R.Step(st, ev, c.cfg).1
  {
    hide *;
    Tracked(c, handles, st);
    R.SafeStep(st, ev, c.cfg);
    var GetE(key, mode, hk, t) := ev;
    GetStep(st, key, mode, hk, t, c.cfg);
    ghost var before, st' := c.Footprint(), R.Step(st, ev, c.cfg).0;
    var handle;
    reply, handle := c.GetCache(key, mode, hk, t);
    AddressesStay(before, c.Footprint(), handles, st.nextId);
    now := handles;
    if handle != null {
      now := handles + [handle];
      IdOfView(handle);
      OneMoreAddress(c, handles, handle);
    }
    Retrack(c, now, st');
  }

  lemma IdOfView(x: Item)
    ensures x.View().id == x.id && x.View().pw == x.pw
  {
  }

  lemma Tracked(c: Cache, handles: seq<Item>, st: R.State)
    requires Tracks(c, handles, st)
    ensures c.Valid() && R.Safe(st) && st.slots == c.Views() && st.nextId == c.nextId
        && Addresses(c.Footprint(), handles)
    ensures |handles| == |st.handles|
    ensures forall j | 0 <= j < |handles| :: handles[j].id == st.handles[j].id < st.nextId
  {
    HandlesAreOld(st);
  }

  lemma Retrack(c: Cache, handles: seq<Item>, st: R.State)
    requires c.Valid() && R.Safe(st) && st.slots == c.Views() && st.nextId == c.nextId
        && Addresses(c.Footprint(), handles)
    requires |handles| == |st.handles| && forall j | 0 <= j < |handles| :: handles[j].id == st.handles[j].id
    ensures Tracks(c, handles, st)
  {
  }

  method CallUnlock(c: Cache, handles: seq<Item>, ev: R.Event, ghost st: R.State)
    returns (reply: Option<string>, now: seq<Item>)
    requires Tracks(c, handles, st) && ev.UnlockE?
    modifies c`items, c`nextId, c.Footprint()
    ensures fresh(c.Footprint() - old(c.Footprint()))
    ensures Tracks(c, now, R.Step(st, ev, c.cfg).0)
    ensures reply == R.Step(st, ev, c.cfg).1
  {
    hide R.Safe, R.Holds, Put, Get, Flush, Unpin, Cache.Valid, Addresses;
    R.SafeStep(st, ev, c.cfg);
    reply, now := None, handles;
    if ev.n < |handles| {
      HandleIsThere(c, handles, st, ev.n);
      c.UnlockCacheEntry(handles[ev.n]);
      now := handles[..ev.n] + handles[ev.n + 1..];
      FewerAddresses(c.Footprint(), handles, ev.n);
    }
  }

  /** A call of the interface. */
  method Call(c: Cache, handles: seq<Item>, ev: R.Event, ghost st: R.State)
    returns (reply: Option<string>, now: seq<Item>)
    requires Tracks(c, handles, st)
    modifies c`items, c`nextId, c.Footprint()
    ensures fresh(c.Footprint() - old(c.Footprint()))
    ensures Tracks(c, now, R.Step(st, ev, c.cfg).0)
    ensures reply == R.Step(st, ev, c.cfg).1
  {
    if ev.PutE? {
      reply, now := CallPut(c, handles, ev, st);
    } else if ev.GetE? {
      reply, now := CallGet(c, handles, ev, st);
    } else if ev.UnlockE? {
      reply, now := CallUnlock(c, handles, ev, st);
    } else {
      hide R.Safe, Flush;
      R.SafeStep(st, ev, c.cfg);
      c.FlushCache();
      reply, now := None, handles;
    }
  }

  lemma OneMoreAddress(c: Cache, handles: seq<Item>, handle: Item)
    requires c.Valid() && Addresses(c.Footprint(), handles) && handle in c.items
    ensures Addresses(c.Footprint(), handles + [handle])
  {
  }

  lemma FewerAddresses(items: set<Item>, handles: seq<Item>, n: nat)
    requires Addresses(items, handles) && n < |handles|
    ensures Addresses(items, handles[..n] + handles[n + 1..])
  {
  }

  lemma HandlesAreOld(st: R.State)
    requires R.Safe(st)
    ensures forall j | 0 <= j < |st.handles| :: st.handles[j].id < st.nextId
  {
    assert forall j | 0 <= j < |st.handles| :: st.handles[j] in st.handles;
  }

  lemma GetStep(st: R.State, key: string, mode: Mode, hk: int, now: int, cfg: Config)
    ensures var (v, hit) := Get(st.slots, key, mode, hk, now, cfg);
            && (hit.Some? ==> hit.value.pw.Some?)
            && R.Step(st, R.GetE(key, mode, hk, now), cfg)
               == (if hit.Some?
                   then (R.State(v, st.nextId, st.handles + [R.Handle(hit.value.id, key, hit.value.pw.value)]),
                         hit.value.pw)
                   else (R.State(v, st.nextId, st.handles), None))
  {
    hide Housekeeping, Hit;
    R.HitIsLive(Housekeeping(st.slots, hk, cfg), key);
  }

  lemma HandleIsThere(c: Cache, handles: seq<Item>, st: R.State, n: nat)
    requires Tracks(c, handles, st) && n < |handles|
    ensures handles[n] in c.items
  {
    assert st.handles[n] in st.handles;
    var s := R.Held(st.slots, st.handles[n]);
    var i := R.IndexOf(st.slots, s);
    assert c.items[i].View() == s;
  }

  lemma AddressesStay(before: set<Item>, after: set<Item>, handles: seq<Item>, id: nat)
    requires Addresses(before, handles) && forall j | 0 <= j < |handles| :: handles[j].id < id
    requires forall x | x in after - before :: x.id == id
    ensures Addresses(after, handles)
  {
  }

  /** Any sequence of calls on a new cache answers as the machine does on its slots, handles
      standing for the addresses given out. */
  method RunEvents(cfg: Config, evs: seq<R.Event>) returns (replies: seq<Option<string>>, c: Cache)
    ensures c.Valid()
    ensures var (st, answers) := R.Run(R.Start, evs, cfg);
            replies == answers && c.Views() == st.slots
  {
    hide R.Safe, R.Step;
    c := new Cache(cfg);
    var handles: seq<Item> := [];
    ghost var st := R.Start;
    replies := [];
    R.SafeStart();
    for i := 0 to |evs|
      invariant fresh(c) && fresh(c.Footprint()) && c.cfg == cfg
      invariant Tracks(c, handles, st)
      invariant R.Run(R.Start, evs[..i], cfg) == (st, replies)
    {
      R.RunSnoc(R.Start, evs[..i], evs[i], cfg);
      assert evs[..i] + [evs[i]] == evs[..i + 1];
      var reply;
      reply, handles := Call(c, handles, evs[i], st);
      st := R.Step(st, evs[i], cfg).0;
      replies := replies + [reply];
    }
    assert evs[..|evs|] == evs;
  }
}
