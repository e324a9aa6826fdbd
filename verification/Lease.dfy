/** The control plane's leader lease: one row, taken by a conditional upsert and dropped by its owner
    (internal/platform/sqlite/platformdb/leases.sql.go), and the lock object that instances hold. */
module Lease {
  import opened Wrappers

  type Holder = nat
  type Time = int

  const TTL := 120_000_000_000

  datatype Row = Row(holder: Holder, expiresAt: Time)
  type Table = Option<Row>

  /** The upsert, and whether it returned the caller's own identifier. */
  function Upsert(table: Table, holder: Holder, now: Time): (Table, bool) {
    if table.None? || table.value.holder == holder || table.value.expiresAt <= now
    then (Some(Row(holder, now + TTL)), true)
    else (table, false)
  }

  function Drop(table: Table, holder: Holder): Table {
    if table.Some? && table.value.holder == holder then None else table
  }

  class Store {
    var lease: Table

    constructor ()
      ensures lease == None
    {
      lease := None;
    }

    method AcquireControlPlaneLease(holder: Holder, now: Time) returns (held: bool)
      modifies this
      ensures (lease, held) == Upsert(old(lease), holder, now)
    {
      var (lease', ok) := Upsert(lease, holder, now);
      lease := lease';
      held := ok;
    }
  }

  class ControlPlaneLock {
    const store: Store
    const holder: Holder
    var released: bool

    /** Created only by an acquisition that succeeded. */
    constructor (store: Store, holder: Holder)
      ensures this.store == store && this.holder == holder && !released
    {
      this.store, this.holder := store, holder;
      released := false;
    }

    /** Renews the lease and reports whether it is still held. A failure, of the renewal or of the
        database, is latched: no later check succeeds, whatever becomes of the row. */
    method Held(now: Time, databaseFails: bool) returns (held: bool)
      modifies this`released, store
      ensures held <==> !old(released) && !databaseFails && Upsert(old(store.lease), holder, now).1
      ensures released <==> !held
      ensures store.lease == if old(released) || databaseFails then old(store.lease)
              else Upsert(old(store.lease), holder, now).0
    {
      if released { return false; }
      if databaseFails {
        released := true;
        return false;
      }
      held := store.AcquireControlPlaneLease(holder, now);
      if !held { released := true; }
    }

    /** Never removes another holder's row, and does nothing the second time. */
    method Release(databaseFails: bool) returns (ok: bool)
      modifies this`released, store
      ensures store.lease == if old(released) || databaseFails then old(store.lease) else Drop(old(store.lease), holder)
      ensures released == (old(released) || !databaseFails)
      ensures ok <==> released
    {
      if released { return true; }
      if databaseFails { return false; }
      store.lease := Drop(store.lease, holder);
      released := true;
      return true;
    }
  }

  method AcquireControlPlaneLock(store: Store, holder: Holder, now: Time) returns (lock: ControlPlaneLock?)
    modifies store
    ensures store.lease == Upsert(old(store.lease), holder, now).0
    ensures lock != null <==> Upsert(old(store.lease), holder, now).1
    ensures lock != null ==> fresh(lock) && lock.store == store && lock.holder == holder && !lock.released
  {
    var held := store.AcquireControlPlaneLease(holder, now);
    if !held { return null; }
    lock := new ControlPlaneLock(store, holder);
  }

  // Runs of any number of instances. An instance acquires once, with an identifier of its own, then checks
  // and releases; every action carries the clock reading of the instance that performs it.
  datatype Action =
    | Acquire(holder: Holder, now: Time)
    | Check(holder: Holder, now: Time, databaseFails: bool)
    | Release(holder: Holder, databaseFails: bool)

  datatype State = State(lease: Table, started: set<Holder>, latched: set<Holder>)

  const Init := State(None, {}, {})

  predicate Takes(a: Action) {
    a.Acquire? || a.Check?
  }

  /** The acquisition or check reports that the instance leads. */
  predicate Succeeds(s: State, a: Action) {
    match a
    case Acquire(h, now) => h !in s.started && Upsert(s.lease, h, now).1
    case Check(h, now, fails) => h in s.started && h !in s.latched && !fails && Upsert(s.lease, h, now).1
    case Release(_, _) => false
  }

  /** The release takes effect: its instance will not check again. */
  predicate Releases(s: State, a: Action, h: Holder) {
    a.Release? && a.holder == h && !a.databaseFails && h in s.started && h !in s.latched
  }

  function Next(s: State, a: Action): State {
    match a
    case Acquire(h, now) =>
      // Identifiers are random: one acquisition each. A failed acquisition leaves no lock object behind.
      if h in s.started then s
      else State(Upsert(s.lease, h, now).0, s.started + {h}, if Succeeds(s, a) then s.latched else s.latched + {h})
    case Check(h, now, fails) =>
      if h !in s.started || h in s.latched then s
      else if fails then s.(latched := s.latched + {h})
      else s.(lease := Upsert(s.lease, h, now).0, latched := if Succeeds(s, a) then s.latched else s.latched + {h})
    case Release(h, fails) =>
      if h !in s.started || h in s.latched || fails then s
      else s.(lease := Drop(s.lease, h), latched := s.latched + {h})
  }

  /** The state after the first n actions. */
  function After(actions: seq<Action>, n: nat): State
    requires n <= |actions|
  {
    if n == 0 then Init else Next(After(actions, n - 1), actions[n - 1])
  }

  predicate Leads(actions: seq<Action>, i: nat, h: Holder)
    requires i < |actions|
  {
    Takes(actions[i]) && actions[i].holder == h && Succeeds(After(actions, i), actions[i])
  }

  /** Readings of one instance never decrease (its lock's mutex orders them), and a later reading of any
      instance is at most `skew` behind an earlier one. A shared non-decreasing clock has skew 0. */
  ghost predicate Clocked(actions: seq<Action>, skew: nat) {
    && (forall i, j :: 0 <= i < j < |actions| && Takes(actions[i]) && Takes(actions[j]) ==>
         actions[j].now >= actions[i].now - skew)
    && (forall i, j ::
          0 <= i < j < |actions| && Takes(actions[i]) && Takes(actions[j]) && actions[i].holder == actions[j].holder ==>
          actions[j].now >= actions[i].now)
  }

  ghost predicate NotReleased(actions: seq<Action>, i: nat, j: nat, h: Holder)
    requires i <= j <= |actions|
  {
    forall k :: i <= k < j ==> !Releases(After(actions, k), actions[k], h)
  }

  // Up to step n, either the row still belongs to a until t + TTL at least, or somebody else has taken it,
  // by a reading that is no earlier than t + TTL.
  ghost predicate KeptOrTaken(actions: seq<Action>, i: nat, n: nat, a: Holder, t: Time)
    requires i < n <= |actions|
  {
    || (After(actions, n).lease.Some? && After(actions, n).lease.value.holder == a
        && After(actions, n).lease.value.expiresAt >= t + TTL)
    || (exists k :: i < k < n && Takes(actions[k]) && actions[k].holder != a && Succeeds(After(actions, k), actions[k])
                    && actions[k].now >= t + TTL)
  }

  lemma {:induction false} HolderIsKeptOrTaken(actions: seq<Action>, i: nat, n: nat, a: Holder)
    requires i < n <= |actions| && Leads(actions, i, a)
    requires forall k :: i < k < n && Takes(actions[k]) && actions[k].holder == a ==> actions[k].now >= actions[i].now
    requires NotReleased(actions, i + 1, n, a)
    ensures KeptOrTaken(actions, i, n, a, actions[i].now)
    decreases n
  {
    if n > i + 1 {
      HolderIsKeptOrTaken(actions, i, n - 1, a);
      var s := After(actions, n - 1);
      var act := actions[n - 1];
      assert !Releases(s, act, a);
      if s.lease.Some? && s.lease.value.holder == a && s.lease.value.expiresAt >= actions[i].now + TTL
        && Takes(act) && act.holder != a && Succeeds(s, act) {
        assert i < n - 1 < n;
      }
    }
  }

  /** Exclusion for any number of instances and any run: once a leads by a reading t, and until a releases,
      no other instance leads by a reading before t + TTL, less the clock skew. */
  lemma LeaseExcludes(actions: seq<Action>, i: nat, j: nat, a: Holder, b: Holder, skew: nat)
    requires i < j < |actions| && a != b && Clocked(actions, skew)
    requires Leads(actions, i, a) && Leads(actions, j, b)
    requires NotReleased(actions, i + 1, j, a)
    ensures actions[j].now >= actions[i].now + TTL - skew
  {
    HolderIsKeptOrTaken(actions, i, j, a);
    var t := actions[i].now;
    var s := After(actions, j);
    if !(s.lease.Some? && s.lease.value.holder == a && s.lease.value.expiresAt >= t + TTL) {
      var k :| i < k < j && Takes(actions[k]) && actions[k].holder != a && Succeeds(After(actions, k), actions[k])
               && actions[k].now >= t + TTL;
      assert actions[j].now >= actions[k].now - skew;
    }
  }

  /** On a shared clock, the terms of two instances that have not released never overlap. */
  lemma TermsAreDisjoint(actions: seq<Action>, i: nat, j: nat, a: Holder, b: Holder, instant: Time)
    requires i < j < |actions| && a != b && Clocked(actions, 0)
    requires Leads(actions, i, a) && Leads(actions, j, b)
    requires NotReleased(actions, i + 1, j, a)
    ensures !(actions[i].now <= instant < actions[i].now + TTL && actions[j].now <= instant < actions[j].now + TTL)
  {
    LeaseExcludes(actions, i, j, a, b, 0);
  }

  // Availability: what stands in the way of an acquisition or a check.

  predicate Succeeded(actions: seq<Action>, k: nat)
    requires k < |actions|
  {
    Succeeds(After(actions, k), actions[k])
  }

  /** The step that took or renewed the term in force before step n: the last to do so, unless its holder has released
      since. */
  function TermInForce(actions: seq<Action>, n: nat): (k: Option<nat>)
    requires n <= |actions|
    ensures k.Some? ==> k.value < n && Succeeded(actions, k.value)
  {
    if n == 0 then None
    else if Succeeded(actions, n - 1) then Some(n - 1)
    else
      var k := TermInForce(actions, n - 1);
      if k.Some? && Releases(After(actions, n - 1), actions[n - 1], actions[k.value].holder) then None else k
  }

  lemma RowStep(s: State, a: Action)
    ensures Next(s, a).lease ==
            if Succeeds(s, a) then Some(Row(a.holder, a.now + TTL))
            else if s.lease.Some? && Releases(s, a, s.lease.value.holder) then None
            else s.lease
  {
  }

  /** The row is the term in force. */
  lemma {:induction false} RowTellsTerm(actions: seq<Action>, n: nat)
    requires n <= |actions|
    ensures After(actions, n).lease ==
            match TermInForce(actions, n)
            case Some(k) => Some(Row(actions[k].holder, actions[k].now + TTL))
            case None => None
  {
    if n > 0 {
      RowTellsTerm(actions, n - 1);
      RowStep(After(actions, n - 1), actions[n - 1]);
    }
  }

  /** No other instance has a term in force that is not over by then. */
  predicate IsFree(actions: seq<Action>, n: nat, h: Holder, now: Time)
    requires n <= |actions|
  {
    match TermInForce(actions, n)
    case Some(k) => actions[k].holder == h || actions[k].now + TTL <= now
    case None => true
  }

  lemma UpsertIff(actions: seq<Action>, n: nat, h: Holder, now: Time)
    requires n <= |actions|
    ensures Upsert(After(actions, n).lease, h, now).1 <==> IsFree(actions, n, h, now)
  {
    RowTellsTerm(actions, n);
  }

  /** After any run, a new instance acquires the lease exactly when no term of another is in force and unexpired; so a
      leader that dies without releasing is replaced as soon as its term is over. */
  lemma AcquiresIff(actions: seq<Action>, n: nat, h: Holder, now: Time)
    requires n <= |actions| && h !in After(actions, n).started
    ensures Succeeds(After(actions, n), Acquire(h, now)) <==> IsFree(actions, n, h, now)
  {
    UpsertIff(actions, n, h, now);
  }

  /** And an instance that has not failed keeps leading on the same condition, even past its own term. */
  lemma ChecksIff(actions: seq<Action>, n: nat, h: Holder, now: Time, databaseFails: bool)
    requires n <= |actions| && h in After(actions, n).started && h !in After(actions, n).latched
    ensures Succeeds(After(actions, n), Check(h, now, databaseFails)) <==> !databaseFails && IsFree(actions, n, h, now)
  {
    UpsertIff(actions, n, h, now);
  }

  /** Whatever else happened: once every term taken is over, anybody can lead. */
  lemma DeadLeaderIsReplaced(actions: seq<Action>, n: nat, h: Holder, now: Time)
    requires n <= |actions| && h !in After(actions, n).started
    requires forall k :: 0 <= k < n && Succeeded(actions, k) ==> actions[k].now + TTL <= now
    ensures Succeeds(After(actions, n), Acquire(h, now))
  {
    AcquiresIff(actions, n, h, now);
  }

  /** A latched instance stays latched, so a check that failed once never succeeds again. */
  lemma {:induction false} FailureLatches(actions: seq<Action>, i: nat, j: nat, h: Holder)
    requires i < j < |actions|
    requires actions[i].Check? && actions[i].holder == h && !Succeeds(After(actions, i), actions[i])
    requires actions[j].Check? && actions[j].holder == h && h in After(actions, i).started
    ensures !Succeeds(After(actions, j), actions[j])
  {
    StaysLatched(actions, i + 1, j, h);
  }

  lemma {:induction false} StaysLatched(actions: seq<Action>, i: nat, j: nat, h: Holder)
    requires i <= j <= |actions| && h in After(actions, i).latched
    ensures h in After(actions, j).latched
    decreases j
  {
    if i < j { StaysLatched(actions, i, j - 1, h); }
  }
}
