/** Which connection owns which context of the smartcard daemon. */
module Scd {
  import opened Common

  /** A connection of the agent; `scdLocal` is NULL until the daemon is first used. */
  class Ctrl {
    var scdLocal: Local?

    constructor ()
      ensures scdLocal == null
    {
      scdLocal := null;
    }
  }

  /** struct scd_local_s; contexts are named by numbers. */
  class Local {
    const ctrl: Ctrl
    var ctx: Option<nat>
    var locked: int

    constructor (ctrl: Ctrl)
      ensures this.ctrl == ctrl && ctx == None && locked == 0
    {
      this.ctrl, ctx, locked := ctrl, None, 0;
    }
  }

  /** What the calls that leave the program answer. */
  datatype World = World(disabled: bool, mutexOk: bool, newOk: bool, connectOk: bool, flushOk: bool,
                         pipeOk: bool, socketName: Option<string>)

  datatype Outcome = Good | NotSupported | Internal | NoMemory | NoScdaemon | FlushFailed

  datatype Call =
    | StartCall(n: nat, w: World)
    | ResetCall(n: nat)
    | AliveCall(mutexOk: bool, died: bool)
    | UnlockCall(n: nat)
    | ConnectCall

  /** The variables of the module, and the set of connections. */
  class Daemon {
    var list: seq<Local>
    var primary: Option<nat>
    var reusable: bool
    var socketName: Option<string>
    var next: nat                   // names not yet given to a context
    ghost var released: set<nat>
    ghost var ctrls: set<Ctrl>

    ghost function Members(): set<Local>
      reads this
    {
      set l | l in list
    }

    /** The list holds the record of every connection that has one, once. */
    ghost predicate Linked()
      reads this, ctrls, Members()
    {
      && (forall i, j | 0 <= i < j < |list| :: list[i] != list[j])
      && (forall l | l in Members() :: l.ctrl in ctrls && l.ctrl.scdLocal == l)
      && (forall c | c in ctrls && c.scdLocal != null :: c.scdLocal in Members() && c.scdLocal.ctrl == c)
    }

    /** A context somebody may use. */
    ghost predicate Usable(x: nat)
      reads this
    {
      x < next && x !in released
    }

    /** No context has two owners, no owner has a released context, and the primary context is
        either waiting for reuse or with exactly one connection. */
    ghost predicate Owned()
      reads this, Members()
    {
      && (forall x | x in released :: x < next)
      && (forall l | l in Members() && l.ctx.Some? :: Usable(l.ctx.value))
      && (forall l, m | l in Members() && m in Members() && l != m && l.ctx.Some? :: l.ctx != m.ctx)
      && (primary.Some? ==> Usable(primary.value))
      && (primary.Some? && reusable ==> forall l | l in Members() :: l.ctx != primary)
      && (primary.Some? && !reusable ==> exists l :: l in Members() && l.ctx == primary)
      && (primary.None? ==> !reusable && socketName.None? && forall l | l in Members() :: l.ctx.None?)
    }

    ghost predicate InList(x: nat)
      reads this, Members()
    {
      exists l :: l in Members() && l.ctx == Some(x)
    }

    ghost predicate Held(x: nat)
      reads this, Members()
    {
      primary == Some(x) || InList(x)
    }

    /** No context is lost: all that were made are released, primary or with a connection,
        except for this one. */
    ghost predicate AllHeldBut(extra: Option<nat>)
      reads this, Members()
    {
      forall x: nat | Usable(x) && extra != Some(x) :: Held(x)
    }

    ghost predicate Valid()
      reads this, ctrls, Members()
    {
      Linked() && Owned() && AllHeldBut(None)
    }

    constructor ()
      ensures Valid() && ctrls == {} && list == []
    {
      list, primary, reusable, socketName, next := [], None, false, None, 0;
      released, ctrls := {}, {};
    }

    /** A new connection. */
    method Connect() returns (c: Ctrl)
      requires Valid()
      modifies this`ctrls
      ensures Valid() && fresh(c) && ctrls == old(ctrls) + {c} && c.scdLocal == null
    {
      c := new Ctrl();
      ctrls := ctrls + {c};
    }

    /** The record of this connection, made and linked in at the first use. */
    method GetLocal(c: Ctrl) returns (l: Local)
      requires Valid() && c in ctrls
      modifies this`list, c
      ensures Valid() && l == c.scdLocal && l.ctrl == c && l in Members()
      ensures list == (if old(c.scdLocal) == null then [l] + old(list) else old(list))
      ensures if old(c.scdLocal) == null then fresh(l) && l.ctx.None? && l.locked == 0 else l == old(c.scdLocal)
    {
      if c.scdLocal == null {
        ghost var before := Members();
        l := new Local(c);
        c.scdLocal := l;
        list := [l] + list;
        assert Members() == before + {l};
        assert forall m | m in before :: m.ctx == old(m.ctx);
        assert Owned();
        assert AllHeldBut(None) by {
          forall x: nat | Usable(x) ensures Held(x) {
            assert old(Usable(x)) && old(Held(x));
          }
        }
      } else {
        l := c.scdLocal;
      }
    }

    /** Give a context to a record that has none: the waiting primary one, a new primary one if
        there is none, or a further one. */
    method Attach(l: Local, x: nat, isPrimary: bool)
      requires Linked() && Owned() && AllHeldBut(Some(x)) && l in Members() && l.ctx.None? && Usable(x)
      requires forall m | m in Members() :: m.ctx != Some(x)
      requires isPrimary ==> primary.None? || (primary == Some(x) && reusable)
      requires !isPrimary ==> primary.Some? && primary != Some(x)
      modifies this`primary, this`reusable, l`ctx
      ensures Valid() && l.ctx == Some(x)
      ensures primary == (if isPrimary then Some(x) else old(primary))
      ensures reusable == (if isPrimary then false else old(reusable))
    {
      l.ctx := Some(x);
      if isPrimary {
        primary := Some(x);
        reusable := false;
      }
      assert AllHeldBut(None) by {
        forall y: nat | Usable(y) ensures Held(y) {
          assert old(Usable(y));
          if y != x {
            assert old(Held(y));
          }
        }
      }
    }

    /** A context nobody has yet: assuan_new. */
    method NewContext() returns (x: nat)
      requires Valid()
      modifies this`next
      ensures Linked() && Owned() && AllHeldBut(Some(x)) && Usable(x) && primary != Some(x)
      ensures x == old(next) && next == x + 1 && forall m | m in Members() :: m.ctx != Some(x)
    {
      x := next;
      next := next + 1;
      assert AllHeldBut(Some(x)) by {
        forall y: nat | Usable(y) && y != x ensures Held(y) {
          assert old(Usable(y));
          assert old(Held(y));
        }
      }
    }

    /** assuan_release of a context nobody has. */
    method Release(x: nat)
      requires Linked() && Owned() && AllHeldBut(Some(x)) && Usable(x) && primary != Some(x)
      requires forall m | m in Members() :: m.ctx != Some(x)
      modifies this`released
      ensures Valid() && released == old(released) + {x}
    {
      released := released + {x};
      assert AllHeldBut(None) by {
        forall y: nat | Usable(y) ensures Held(y) {
          assert old(Usable(y)) && y != x;
          assert old(Held(y));
        }
      }
    }

    /** What finding a context for a record without one comes to. */
    function Found(w: World): (r: Outcome)
      reads this
      ensures r != NotSupported
    {
      if primary.Some? && reusable then Good
      else if !w.newOk then NoMemory
      else if socketName.Some? then (if w.connectOk then Good else NoScdaemon)
      else if primary.Some? then NoScdaemon
      else if !w.flushOk then FlushFailed
      else if !w.pipeOk then NoScdaemon
      else Good
    }

    /** When each outcome is reported. */
    lemma FoundIff(w: World)
      ensures
        var reuse := primary.Some? && reusable;
        var more := primary.Some? || socketName.Some?;
        && (Found(w) == NoMemory <==> !reuse && !w.newOk)
        && (Found(w) == FlushFailed <==> !reuse && w.newOk && !more && !w.flushOk)
        && (Found(w) == NoScdaemon <==>
              !reuse && w.newOk && if socketName.Some? then !w.connectOk else primary.Some? || (w.flushOk && !w.pipeOk))
        && (Found(w) == Good <==>
              reuse || (w.newOk && if socketName.Some? then w.connectOk else primary.None? && w.flushOk && w.pipeOk))
    {
    }

    /** The part of start_scd that finds a context for a record without one: the waiting
        primary one if there is one, else a new one, which is the primary one if there was
        none.  On failure a context that was made is released and nothing else changes. */
    method Obtain(l: Local, w: World) returns (r: Outcome)
      requires Valid() && l in Members() && l.ctx.None?
      modifies this`primary, this`reusable, this`socketName, this`next, this`released, l`ctx
      ensures Valid() && r == old(Found(w))
      ensures r == Good ==> l.ctx == (if old(reusable) then old(primary) else Some(old(next)))
      ensures r == Good ==> l.ctx.Some? && !reusable
      ensures r == Good ==> released == old(released) && primary == (if old(primary).Some? then old(primary) else l.ctx)
      ensures r == Good ==> socketName == (if old(primary).Some? then old(socketName) else w.socketName)
      ensures r != Good ==> l.ctx == None && primary == old(primary) && reusable == old(reusable)
      ensures r != Good ==> socketName == old(socketName)
      ensures r != Good ==> released == old(released) + (if r == NoMemory then {} else {old(next)})
    {
      hide Linked, Owned, AllHeldBut, Usable;
      if primary.Some? && reusable {
        PrimaryWaits();
        Attach(l, primary.value, true);
        return Good;
      }
      if !w.newOk {
        return NoMemory;
      }
      var ctx := NewContext();
      if socketName.Some? {
        if w.connectOk {
          Attach(l, ctx, false);
          return Good;
        }
        r := NoScdaemon;
      } else if primary.Some? {
        r := NoScdaemon;
      } else if !w.flushOk {
        r := FlushFailed;
      } else if !w.pipeOk {
        r := NoScdaemon;
      } else {
        Attach(l, ctx, true);
        SetSocket(w.socketName);
        return Good;
      }
      Release(ctx);
    }

    lemma PrimaryWaits()
      requires Valid() && primary.Some? && reusable
      ensures Usable(primary.value) && AllHeldBut(primary) && forall m | m in Members() :: m.ctx != primary
    {
    }

    /** The socket of the primary daemon becomes known. */
    method SetSocket(name: Option<string>)
      requires Valid() && primary.Some?
      modifies this`socketName
      ensures Valid() && socketName == name
    {
      socketName := name;
    }

    /** start_scd.  On success the connection has a context, as before if it had one, and is
        locked; it stays locked also when the mutex cannot be had. */
    method Start(c: Ctrl, w: World) returns (r: Outcome)
      requires Valid() && c in ctrls
      modifies this`list, this`primary, this`reusable, this`socketName, this`next, this`released, c, c.scdLocal
      ensures Valid() && (w.disabled <==> r == NotSupported)
      ensures fresh(Members() - old(Members()))
      ensures w.disabled ==> c.scdLocal == old(c.scdLocal)
      ensures w.disabled && c.scdLocal != null ==> c.scdLocal.ctx == old(c.scdLocal.ctx)
      ensures !w.disabled ==> c.scdLocal != null && (old(c.scdLocal) != null ==> c.scdLocal == old(c.scdLocal))
      ensures !w.disabled ==>
                var locked, ctx := (if old(c.scdLocal) == null then 0 else old(c.scdLocal.locked)),
                                   (if old(c.scdLocal) == null then None else old(c.scdLocal.ctx));
                && r == Started(locked, ctx, w, old(Found(w)))
                && c.scdLocal.locked == LockedAfter(locked, ctx, w, r)
                && c.scdLocal.ctx == (if r != Good || ctx.Some? then ctx
                                      else if old(reusable) then old(primary)
                                      else Some(old(next)))
    {
      hide Linked, Owned, AllHeldBut;
      if w.disabled {
        return NotSupported;
      }
      var l := GetLocal(c);
      r := StartLocal(l, w);
    }

    /** The outcome for a record with this lock count and context. */
    static function Started(locked: int, ctx: Option<nat>, w: World, found: Outcome): Outcome {
      if locked != 0 then Internal
      else if ctx.Some? then Good
      else if !w.mutexOk then Internal
      else found
    }

    static function LockedAfter(locked: int, ctx: Option<nat>, w: World, r: Outcome): int {
      if locked != 0 then locked
      else if r == Good || !w.mutexOk then 1
      else 0
    }

    method StartLocal(l: Local, w: World) returns (r: Outcome)
      requires Valid() && l in Members()
      modifies this`primary, this`reusable, this`socketName, this`next, this`released, l
      ensures Valid() && r == Started(old(l.locked), old(l.ctx), w, old(Found(w)))
      ensures l.locked == LockedAfter(old(l.locked), old(l.ctx), w, r)
      ensures r == Good ==> l.ctx.Some?
      ensures l.ctx == (if r != Good || old(l.ctx).Some? then old(l.ctx)
                        else if old(reusable) then old(primary)
                        else Some(old(next)))
    {
      hide Linked, Owned, AllHeldBut;
      if l.locked != 0 {
        return Internal;
      }
      Lock(l, l.locked + 1);
      if l.ctx.Some? {
        return Good;
      }
      if !w.mutexOk {
        return Internal;
      }
      r := Obtain(l, w);
      if r != Good {
        Lock(l, 0);
      }
    }

    method Lock(l: Local, n: int)
      requires Valid()
      modifies l`locked
      ensures Valid() && l.locked == n
    {
      l.locked := n;
    }

    /** unlock_scd, as far as the record is concerned. */
    method Unlock(c: Ctrl) returns (r: Outcome)
      requires Valid() && c in ctrls && c.scdLocal != null
      modifies c.scdLocal`locked
      ensures Valid() && c.scdLocal.locked == 0
      ensures r == Good <==> old(c.scdLocal.locked) == 1
    {
      r := if c.scdLocal.locked != 1 then Internal else Good;
      c.scdLocal.locked := 0;
    }

    /** agent_reset_scd: the primary context is kept for reuse, any other is released, and the
        record is unlinked. */
    method Reset(c: Ctrl)
      requires Valid() && c in ctrls
      modifies this`list, this`reusable, this`released, c, c.scdLocal
      ensures Valid() && c.scdLocal == null && Members() == old(Members()) - {old(c.scdLocal)}
      ensures reusable == (
        || old(reusable)
        || (old(c.scdLocal) != null && old(c.scdLocal.ctx).Some? && old(c.scdLocal.ctx) == primary))
      ensures released == (
        if old(c.scdLocal) != null && old(c.scdLocal.ctx).Some? && old(c.scdLocal.ctx) != primary
        then old(released) + {old(c.scdLocal.ctx).value} else old(released))
    {
      var l := c.scdLocal;
      if l == null {
        return;
      }
      if l.ctx.Some? {
        var x := l.ctx.value;
        Detach(l);
        if Some(x) != primary {
          Release(x);
        } else {
          PrimaryHeld();
        }
      }
      assert l.ctrl == c;
      Unlink(l);
    }

    /** Take the context away from its owner. */
    method Detach(l: Local)
      requires Valid() && l in Members() && l.ctx.Some?
      modifies this`reusable, l`ctx
      ensures Linked() && Owned() && AllHeldBut(old(l.ctx)) && l.ctx == None
          && forall m | m in Members() :: m.ctx != old(l.ctx)
      ensures reusable == (old(reusable) || old(l.ctx) == primary)
    {
      var x := l.ctx.value;
      if l.ctx == primary {
        reusable := true;
      }
      l.ctx := None;
      assert AllHeldBut(Some(x)) by {
        forall y: nat | Usable(y) && y != x ensures Held(y) {
          assert old(Usable(y));
          assert old(Held(y));
        }
      }
    }

    lemma PrimaryHeld()
      requires AllHeldBut(primary)
      ensures AllHeldBut(None)
    {
    }

    /** The search for the record. */
    method Locate(l: Local) returns (i: nat)
      requires l in list
      ensures i < |list| && list[i] == l
    {
      i := 0;
      while list[i] != l
        invariant i < |list| && l in list[i..]
        decreases |list| - i
      {
        assert list[i..] == [list[i]] + list[i + 1..];
        i := i + 1;
      }
    }

    /** The removal. */
    method Unlink(l: Local)
      requires Valid() && l in Members() && l.ctx.None?
      modifies this`list, l.ctrl
      ensures Valid() && l.ctrl.scdLocal == null && Members() == old(Members()) - {l}
    {
      ghost var before := list;
      var i := Locate(l);
      list := list[..i] + list[i + 1..];
      RemoveAt(before, i);
      l.ctrl.scdLocal := null;
      OthersStay(l);
    }

    static lemma RemoveAt(s: seq<Local>, i: nat)
      requires i < |s| && forall j, k | 0 <= j < k < |s| :: s[j] != s[k]
      ensures
        var r := s[..i] + s[i + 1..];
        && (forall j, k | 0 <= j < k < |r| :: r[j] != r[k])
        && (set l | l in r) == (set l | l in s) - {s[i]}
    {
      var r := s[..i] + s[i + 1..];
      assert forall k | 0 <= k < |r| :: r[k] == s[if k < i then k else k + 1];
      forall l | l in s && l != s[i] ensures l in r {
        var k :| 0 <= k < |s| && s[k] == l;
        assert r[if k < i then k else k - 1] == l;
      }
    }

    /** Removing a record without a context loses no context. */
    twostate lemma OthersStay(l: Local)
      requires old(AllHeldBut(None)) && l.ctx.None? && Members() == old(Members()) - {l}
      requires primary == old(primary) && next == old(next) && released == old(released)
      requires forall m | m in Members() :: m.ctx == old(m.ctx)
      requires l.ctx == old(l.ctx)
      ensures AllHeldBut(None)
    {
      forall x: nat | Usable(x) ensures Held(x) {
        assert old(Usable(x));
        assert old(Held(x));
        if primary != Some(x) {
          var m :| m in old(Members()) && old(m.ctx) == Some(x);
          assert m in Members() && m.ctx == Some(x);
        }
      }
    }

    /** agent_scd_check_aliveness: when the daemon has died, every connection loses its context
        and all of them are released, the primary one once. */
    method CheckAliveness(mutexOk: bool, died: bool)
      requires Valid()
      modifies this`primary, this`reusable, this`socketName, this`released, Members()
      ensures Valid()
      ensures old(primary).None? || !mutexOk || !died ==>
                primary == old(primary) && reusable == old(reusable) && forall l | l in Members() :: l.ctx == old(l.ctx)
      ensures old(primary).Some? && mutexOk && died ==> primary.None? && forall l | l in Members() :: l.ctx.None?
      ensures old(primary).Some? && mutexOk && died ==>
                old(primary).value in released && forall l | l in Members()
                    && old(l.ctx).Some? :: old(l.ctx).value in released
    {
      if primary.None? || !mutexOk || !died {
        return;
      }
      hide Linked, Owned, Pending;
      ReleasePrimary();
      ClearContexts();
      Forget();
    }

    method ReleasePrimary()
      requires Valid() && primary.Some?
      modifies this`released
      ensures Linked() && Pending() && released == old(released) + {primary.value}
      ensures forall x | x in released :: x < next
    {
      assert primary.value !in released;
      released := released + {primary.value};
      forall x: nat | Usable(x) ensures InList(x) {
        assert old(Usable(x));
        assert old(Held(x));
      }
    }

    method Forget()
      requires Linked() && Pending() && forall l | l in Members() :: l.ctx.None?
      requires forall x | x in released :: x < next
      modifies this`primary, this`reusable, this`socketName
      ensures Valid() && primary.None?
    {
      assert forall x: nat :: !Usable(x);
      primary := None;
      reusable := false;
      socketName := None;
      assert forall x: nat :: old(Usable(x)) == Usable(x);
    }

    /** Contexts other than the primary one have one owner and are not released yet. */
    ghost predicate Pending()
      reads this, Members()
    {
      && (forall l | l in Members() && l.ctx.Some? :: l.ctx.value < next)
      && (forall l | l in Members() && l.ctx.Some? && l.ctx != primary :: l.ctx.value !in released)
      && (forall l, m | l in Members() && m in Members() && l != m && l.ctx.Some? :: l.ctx != m.ctx)
      && primary.Some? && primary.value in released
      && forall x: nat | Usable(x) :: InList(x)
    }

    /** The loop over all records. */
    method ClearContexts()
      requires Linked() && Pending()
      requires forall x | x in released :: x < next
      modifies this`released, Members()
      ensures Linked() && Pending() && forall l | l in Members() :: l.ctx.None?
      ensures forall x | x in released :: x < next
      ensures old(released) <= released
      ensures forall l | l in Members() && old(l.ctx).Some? && old(l.ctx) != primary :: old(l.ctx).value in released
    {
      hide Linked, Pending;
      for i := 0 to |list|
        invariant Linked() && Pending()
        invariant forall k | 0 <= k < i :: list[k].ctx.None?
        invariant forall k | i <= k < |list| :: list[k].ctx == old(list[k].ctx)
        invariant forall k | 0 <= k < i && old(list[k].ctx).Some?
            && old(list[k].ctx) != primary :: old(list[k].ctx).value in released
        invariant old(released) <= released
        invariant forall x | x in released :: x < next
      {
        var sl := list[i];
        DistinctRecords(i);
        ClearOne(sl);
      }
    }

    lemma DistinctRecords(i: nat)
      requires Linked() && i < |list|
      ensures forall k | 0 <= k < |list| && k != i :: list[k] != list[i]
    {
    }

    /** One record; nothing is released twice. */
    method ClearOne(sl: Local)
      requires Linked() && Pending() && sl in Members()
      modifies this`released, sl`ctx
      ensures Linked() && Pending() && sl.ctx.None?
      ensures old(sl.ctx).Some? ==> old(sl.ctx).value < next
      ensures released == (if old(sl.ctx).Some? && old(sl.ctx) != primary then old(released) + {old(sl.ctx).value}
          else old(released))
    {
      if sl.ctx.Some? {
        if sl.ctx != primary {
          assert sl.ctx.value !in released;
          released := released + {sl.ctx.value};
        }
        sl.ctx := None;
        forall x: nat | Usable(x) ensures InList(x) {
          assert old(Usable(x));
          assert old(InList(x));
        }
      }
    }
  }

  /** Every reachable state is valid: any calls in any order, whatever the outside answers. */
  method RunCalls(calls: seq<Call>) returns (d: Daemon, cs: seq<Ctrl>)
    ensures d.Valid() && forall i | 0 <= i < |cs| :: cs[i] in d.ctrls
  {
    d := new Daemon();
    cs := [];
    for k := 0 to |calls|
      invariant fresh(d) && fresh(d.ctrls) && fresh(d.Members()) && d.Valid()
      invariant forall i | 0 <= i < |cs| :: cs[i] in d.ctrls
    {
      match calls[k] {
        case ConnectCall =>
          var c := d.Connect();
          cs := cs + [c];
        case StartCall(n, w) =>
          if n < |cs| {
            var r := d.Start(cs[n], w);
          }
        case UnlockCall(n) =>
          if n < |cs| && cs[n].scdLocal != null {
            var r := d.Unlock(cs[n]);
          }
        case ResetCall(n) =>
          if n < |cs| {
            d.Reset(cs[n]);
          }
        case AliveCall(mutexOk, died) =>
          d.CheckAliveness(mutexOk, died);
      }
    }
  }

  /** One connection that stays locked: the mutex cannot be had, and then nothing can be started
      any more. */
  method LockedForGood(w: World) returns (first: Outcome, second: Outcome)
    requires !w.disabled
    ensures first == Internal && second == Internal
  {
    var d := new Daemon();
    var c := d.Connect();
    first := d.Start(c, w.(mutexOk := false));
    second := d.Start(c, w);
  }
}
