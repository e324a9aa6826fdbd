/** Turning grants into tenant rows: `ReconcileDesiredTenants`, suspend and resume. */
module DesiredTenants {
  import opened Wrappers
  import opened Collections
  import opened TenantTable

  function Key(subject: string, service: string): string {
    subject + "::" + service
  }

  function RowKey(row: Tenant): string {
    Key(row.subject, row.service)
  }

  function SpecKey(spec: Spec): string {
    Key(spec.subject, spec.service)
  }

  predicate NoColon(s: string) {
    ':' !in s
  }

  /** The map key identifies the pair as long as service ids have no colon; catalog validation sees to that. */
  lemma KeyIsInjective(s1: string, v1: string, s2: string, v2: string)
    requires NoColon(v1) && NoColon(v2) && Key(s1, v1) == Key(s2, v2)
    ensures s1 == s2 && v1 == v2
  {
    var k := Key(s1, v1);
    assert k[|s1| + 1] == ':' && k[|s2| + 1] == ':';
    assert forall i :: |s1| + 2 <= i < |k| ==> k[i] == v1[i - |s1| - 2];
    assert forall i :: |s2| + 2 <= i < |k| ==> k[i] == v2[i - |s2| - 2];
    assert |s1| == |s2|;
    assert s1 == k[..|s1|] == s2;
    assert v1 == k[|s1| + 2..] == v2;
  }

  /** Some service id w reads as the end of a subject, the separator and v. */
  ghost predicate Clash(v: string, w: string) {
    w == ":" + v || exists u: string :: w == u + "::" + v
  }

  ghost predicate SameKeyFor(v: string, w: string, s: string, t: string) {
    (s, v) != (t, w) && Key(s, v) == Key(t, w)
  }

  /** The premise on colons is needed: two service ids have subjects whose distinct pairs share a key if and only if
      they clash. */
  lemma KeysClashIff(v: string, w: string)
    ensures (exists s, t :: SameKeyFor(v, w, s, t)) <==> Clash(v, w) || Clash(w, v)
  {
    forall s, t | SameKeyFor(v, w, s, t) ensures Clash(v, w) || Clash(w, v) {
      if |v| < |w| {
        LongerServiceClashes(s, v, t, w);
      } else if |w| < |v| {
        LongerServiceClashes(t, w, s, v);
      } else {
        EqualLengthServices(s, v, t, w);
      }
    }
    if Clash(v, w) { var s, t := ClashingPair(v, w); }
    if Clash(w, v) {
      var s, t := ClashingPair(w, v);
      assert SameKeyFor(v, w, t, s);
    }
  }

  lemma EqualLengthServices(s: string, v: string, t: string, w: string)
    requires Key(s, v) == Key(t, w) && |v| == |w|
    ensures s == t && v == w
  {
    var k := Key(s, v);
    assert |s| == |t|;
    assert s == k[..|s|] == t && v == k[|s| + 2..] == w;
  }

  lemma LongerServiceClashes(s: string, v: string, t: string, w: string)
    requires Key(s, v) == Key(t, w) && |v| < |w|
    ensures Clash(v, w)
  {
    var k, d := Key(s, v), |w| - |v|;
    assert w == k[|t| + 2..] && v == k[|s| + 2..];
    assert v == w[d..];
    if d == 1 {
      assert w[0] == k[|t| + 2] == k[|s| + 1] == ':';
      assert w == ":" + v;
    } else {
      assert w[d - 2] == k[|s|] == ':' && w[d - 1] == k[|s| + 1] == ':';
      assert w == w[..d - 2] + "::" + v;
    }
  }

  lemma ClashingPair(v: string, w: string) returns (s: string, t: string)
    requires Clash(v, w)
    ensures SameKeyFor(v, w, s, t)
  {
    if w == ":" + v {
      s, t := ":", "";
      assert Key(s, v) == ":" + "::" + v == "" + "::" + w;
    } else {
      var u: string :| w == u + "::" + v;
      s, t := "::" + u, "";
      assert Key(s, v) == "::" + u + "::" + v == "" + "::" + w;
    }
    assert |v| < |w|;
  }

  // The specification: what one run makes of each row.

  function DesiredMap(specs: seq<Spec>): (m: map<string, Spec>)
    ensures forall k :: k in m ==> m[k] in specs && SpecKey(m[k]) == k
    ensures forall s :: s in specs ==> SpecKey(s) in m
  {
    if specs == [] then map[]
    else DesiredMap(specs[..|specs| - 1])[SpecKey(specs[|specs| - 1]) := specs[|specs| - 1]]
  }

  function AfterDesired(row: Tenant, spec: Spec): Tenant {
    if row.desired == WantEnabled then Enabled(row, spec) else row
  }

  function AfterUndesired(row: Tenant): Tenant {
    if row.desired == WantDeleted || row.isStatic then row else row.(desired := WantDeleted)
  }

  function AfterRow(row: Tenant, desired: map<string, Spec>): Tenant {
    if RowKey(row) in desired then AfterDesired(row, desired[RowKey(row)]) else AfterUndesired(row)
  }

  ghost predicate HasKey(t: Table, key: string) {
    exists id :: id in t && RowKey(t[id]) == key
  }

  /** The rows there were, each changed as above, and one new row for each desired key that had none. */
  ghost predicate Reconciled(before: Table, after: Table, desired: map<string, Spec>) {
    && before.Keys <= after.Keys
    && (forall id :: id in before ==> after[id] == AfterRow(before[id], desired))
    && (forall id :: id in after && id !in before ==>
          RowKey(after[id]) in desired && !HasKey(before, RowKey(after[id])) &&
            after[id] == Inserted(desired[RowKey(after[id])]))
    && (forall k :: k in desired ==> HasKey(after, k))
    && (forall i, j :: i in after && j in after && RowKey(after[i]) == RowKey(after[j]) ==> i == j)
  }

  ghost predicate UniqueKeys(t: Table) {
    forall i, j :: i in t && j in t && RowKey(t[i]) == RowKey(t[j]) ==> i == j
  }

  class Store {
    var tenants: Table
    var nextId: TenantId

    ghost predicate Valid()
      reads this
    {
      && (forall id :: id in tenants ==> id < nextId)
      && UniqueKeys(tenants) && UniqueNames(tenants)
    }

    constructor ()
      ensures Valid() && tenants == map[]
    {
      tenants, nextId := map[], 0;
    }

    // The map of current tenants, by key.
    method LoadTenantInstances() returns (current: map<string, TenantId>)
      requires Valid()
      ensures IndexOf(tenants, current)
    {
      current := map[];
      var todo := tenants.Keys;
      while todo != {}
        invariant todo <= tenants.Keys
        invariant forall k :: k in current ==> current[k] in tenants && RowKey(tenants[current[k]]) == k
        invariant forall id :: id in tenants && id !in todo ==> RowKey(tenants[id]) in current
        decreases |todo|
      {
        var id :| id in todo;
        current := current[RowKey(tenants[id]) := id];
        todo := todo - {id};
      }
    }

    // One turn of the first loop; a name taken by another row violates the UNIQUE constraint.
    method EnableOne(spec: Spec, id: Option<TenantId>) returns (ok: bool)
      requires Valid()
      requires match id
        case Some(i) => i in tenants && RowKey(tenants[i]) == SpecKey(spec)
        case None => !HasKey(tenants, SpecKey(spec))
      modifies this
      ensures Valid() && nextId >= old(nextId)
      ensures ok ==> match id
        case Some(i) => tenants == old(tenants)[i := AfterDesired(old(tenants[i]), spec)]
        case None => tenants == old(tenants)[old(nextId) := Inserted(spec)]
      ensures !ok ==> NameTaken(old(tenants), spec) && (id.Some? ==> old(tenants)[id.value].desired == WantEnabled)
    {
      if id.None? {
        if !NameFree(tenants, nextId, SpecName(spec)) { return false; }
        InsertKeepsNames(tenants, nextId, spec);
        InsertKeepsKeys(tenants, nextId, spec);
        tenants := tenants[nextId := Inserted(spec)];
        nextId := nextId + 1;
      } else if tenants[id.value].desired == WantEnabled {
        if !NameFree(tenants, id.value, SpecName(spec)) { return false; }
        EnableKeepsNames(tenants, id.value, spec);
        EnableKeepsKeys(tenants, id.value, spec);
        tenants := tenants[id.value := Enabled(tenants[id.value], spec)];
      }
      ok := true;
    }

    method EnableNext(desired: map<string, Spec>, current: map<string, TenantId>, key: string,
                      ghost before: Table, ghost todo: set<string>) returns (ok: bool)
      requires Valid() && IndexOf(before, current) && UniqueKeys(before)
      requires key in todo && key in desired && SpecKey(desired[key]) == key
      requires EnabledExcept(before, tenants, desired, todo)
      modifies this
      ensures Valid() && nextId >= old(nextId)
      ensures ok ==> EnabledExcept(before, tenants, desired, todo - {key})
      ensures NoConflict(before, desired) ==> ok
    {
      ghost var t, id := tenants, nextId;
      if NoConflict(before, desired) { NameIsFree(before, t, desired, todo, key); }
      if key !in current {
        KeyStaysAbsent(before, t, desired, todo, key);
        ok := EnableOne(desired[key], None);
        if !ok { return; }
        InsertStep(before, t, desired, todo, key, id);
      } else {
        RowStays(before, t, desired, todo, current[key]);
        ok := EnableOne(desired[key], Some(current[key]));
        if !ok { return; }
        EnableStep(before, t, desired, todo, key, current[key]);
      }
    }

    method EnableDesired(desired: map<string, Spec>, current: map<string, TenantId>) returns (ok: bool)
      requires Valid() && IndexOf(tenants, current)
      requires forall k :: k in desired ==> SpecKey(desired[k]) == k
      modifies this
      ensures Valid() && nextId >= old(nextId)
      ensures ok ==> EnabledExcept(old(tenants), tenants, desired, {})
      ensures NoConflict(old(tenants), desired) ==> ok
    {
      var todo := desired.Keys;
      ghost var before := tenants;
      while todo != {}
        invariant todo <= desired.Keys && Valid() && nextId >= old(nextId)
        invariant EnabledExcept(before, tenants, desired, todo)
        decreases |todo|
      {
        var key :| key in todo;
        ok := EnableNext(desired, current, key, before, todo);
        if !ok { return; }
        todo := todo - {key};
      }
      ok := true;
    }

    // The second loop: rows loaded before the first that are no longer desired.
    method DeleteUndesired(desired: map<string, Spec>, loaded: set<TenantId>)
      requires Valid() && loaded <= tenants.Keys
      modifies this`tenants
      ensures Valid() && MarkedExcept(old(tenants), tenants, desired, loaded, {})
    {
      var todo := loaded;
      ghost var before := tenants;
      MarkStart(before, desired, loaded);
      while todo != {}
        invariant todo <= loaded && UniqueKeys(tenants) && UniqueNames(tenants)
        invariant MarkedExcept(before, tenants, desired, loaded, todo)
        decreases |todo|
      {
        var id :| id in todo;
        MarkStep(before, tenants, desired, loaded, todo, id);
        todo := todo - {id};
        var row := tenants[id];
        if RowKey(row) in desired || row.desired == WantDeleted || row.isStatic { continue; }
        tenants := tenants[id := row.(desired := WantDeleted)];
      }
    }

    /** One transaction: all of it, or, when a name is taken, nothing. */
    method ReconcileDesiredTenants(specs: seq<Spec>) returns (ok: bool)
      requires Valid()
      modifies this
      ensures Valid()
      ensures ok ==> Reconciled(old(tenants), tenants, DesiredMap(specs))
      ensures !ok ==> tenants == old(tenants)
      ensures NoConflict(old(tenants), DesiredMap(specs)) ==> ok
      ensures ok && KeepsNames(old(tenants), DesiredMap(specs)) ==> NoConflict(old(tenants), DesiredMap(specs))
    {
      var snapshot := tenants;
      var desired := DesiredMap(specs);
      var current := LoadTenantInstances();
      ok := EnableDesired(desired, current);
      if !ok {
        tenants := snapshot;
        return;
      }
      ghost var enabled := tenants;
      DeleteUndesired(desired, snapshot.Keys);
      IsReconciled(snapshot, enabled, tenants, desired);
      if KeepsNames(snapshot, desired) { SuccessMeansNoConflict(snapshot, tenants, desired); }
    }

    method SuspendTenantInstance(subject: string, service: string) returns (found: bool)
      requires Valid()
      modifies this`tenants
      ensures Valid() && tenants == Suspend(old(tenants), subject, service)
      ensures found <==> exists id :: id in tenants && Suspendable(old(tenants[id]), subject, service)
      ensures forall id :: id in tenants && IsPair(tenants[id], subject, service) ==>
                tenants[id].desired == WantDisabled || tenants[id].desired == WantDeleted
      ensures forall id :: id in old(tenants) && old(tenants[id]).desired != WantDeleted ==>
                id in tenants && tenants[id].desired != WantDeleted
    {
      found := exists id :: id in tenants && Suspendable(tenants[id], subject, service);
      tenants := Suspend(tenants, subject, service);
    }

    /** `granted`: the subject has a grant for the service and the service is enabled. */
    method ResumeTenantInstance(subject: string, service: string, granted: bool) returns (r: ResumeResult)
      requires Valid()
      modifies this`tenants
      ensures Valid() && tenants == Resume(old(tenants), subject, service, granted)
      ensures r == Resumed <==> granted && exists id :: id in tenants && Suspendable(old(tenants[id]), subject, service)
      ensures r == GrantNotFound <==> !granted
      ensures granted ==> forall id :: id in tenants && IsPair(tenants[id], subject, service) ==>
                            tenants[id].desired == WantEnabled || tenants[id].desired == WantDeleted
    {
      var rows := exists id :: id in tenants && granted && Suspendable(tenants[id], subject, service);
      tenants := Resume(tenants, subject, service, granted);
      return if rows then Resumed else if !granted then GrantNotFound else InstanceNotFound;
    }

    // The statements of the reconcile loop.

    /** All rows, in an order of the database's choosing. */
    method ListTenantInstances() returns (ids: seq<TenantId>)
      ensures Distinct(ids) && forall id :: id in ids <==> id in tenants
    {
      ids := [];
      var todo := tenants.Keys;
      while todo != {}
        invariant todo <= tenants.Keys && Distinct(ids)
        invariant forall id :: id in ids <==> id in tenants && id !in todo
        decreases |todo|
      {
        var id :| id in todo;
        ids, todo := ids + [id], todo - {id};
      }
    }

    method UpdateTenantRuntimeStatus(id: TenantId, update: RuntimeUpdate)
      requires Valid()
      modifies this`tenants
      ensures Valid()
      ensures tenants == if id in old(tenants) then old(tenants)[id := Updated(old(tenants)[id], update)]
                         else old(tenants)
    {
      if id in tenants {
        ReplaceKeepsUnique(tenants, id, Updated(tenants[id], update));
        tenants := tenants[id := Updated(tenants[id], update)];
      }
    }

    method MarkTenantReconciled(id: TenantId, now: Time, lastError: string)
      requires Valid()
      modifies this`tenants
      ensures Valid()
      ensures tenants == if id in old(tenants) then old(tenants)[id := MarkReconciled(old(tenants)[id], now, lastError)]
                         else old(tenants)
    {
      if id in tenants {
        ReplaceKeepsUnique(tenants, id, MarkReconciled(tenants[id], now, lastError));
        tenants := tenants[id := MarkReconciled(tenants[id], now, lastError)];
      }
    }

    method DeleteTenantInstance(id: TenantId)
      requires Valid()
      modifies this`tenants
      ensures Valid() && tenants == old(tenants) - {id}
    {
      tenants := tenants - {id};
    }
  }

  datatype ResumeResult = Resumed | GrantNotFound | InstanceNotFound

  lemma InsertKeepsKeys(t: Table, id: TenantId, spec: Spec)
    requires UniqueKeys(t) && id !in t && !HasKey(t, SpecKey(spec))
    ensures UniqueKeys(t[id := Inserted(spec)])
  {
  }

  lemma ReplaceKeepsUnique(t: Table, id: TenantId, row: Tenant)
    requires UniqueKeys(t) && UniqueNames(t) && id in t && RowKey(row) == RowKey(t[id]) && row.name == t[id].name
    ensures UniqueKeys(t[id := row]) && UniqueNames(t[id := row])
  {
    var t' := t[id := row];
    assert forall i :: i in t' ==> RowKey(t'[i]) == RowKey(t[i]) && t'[i].name == t[i].name;
  }

  lemma InsertKeepsNames(t: Table, id: TenantId, spec: Spec)
    requires UniqueNames(t) && id !in t && NameFree(t, id, SpecName(spec))
    ensures UniqueNames(t[id := Inserted(spec)])
  {
  }

  lemma EnableKeepsNames(t: Table, id: TenantId, spec: Spec)
    requires UniqueNames(t) && id in t && NameFree(t, id, SpecName(spec))
    ensures UniqueNames(t[id := Enabled(t[id], spec)])
  {
  }

  lemma EnableKeepsKeys(t: Table, id: TenantId, spec: Spec)
    requires UniqueKeys(t) && id in t
    ensures UniqueKeys(t[id := Enabled(t[id], spec)])
  {
    var t' := t[id := Enabled(t[id], spec)];
    assert forall i :: i in t' ==> RowKey(t'[i]) == RowKey(t[i]);
  }

  function AfterFirst(row: Tenant, desired: map<string, Spec>): Tenant {
    if RowKey(row) in desired then AfterDesired(row, desired[RowKey(row)]) else row
  }

  ghost predicate IsInserted(row: Tenant, before: Table, desired: map<string, Spec>) {
    RowKey(row) in desired && !HasKey(before, RowKey(row)) && row == Inserted(desired[RowKey(row)])
  }

  ghost predicate IndexOf(t: Table, current: map<string, TenantId>) {
    && (forall k :: k in current <==> HasKey(t, k))
    && (forall k :: k in current ==> current[k] in t && RowKey(t[current[k]]) == k)
  }

  // The state of the first loop with the keys `todo` still to come: rows that were there, new rows, finished keys.

  ghost predicate OldRows(before: Table, now: Table, desired: map<string, Spec>, todo: set<string>) {
    && before.Keys <= now.Keys
    && forall id :: id in before ==>
         now[id] == if RowKey(before[id]) in todo then before[id] else AfterFirst(before[id], desired)
  }

  ghost predicate NewRows(before: Table, now: Table, desired: map<string, Spec>, todo: set<string>) {
    forall id :: id in now && id !in before ==> IsInserted(now[id], before, desired) && RowKey(now[id]) !in todo
  }

  ghost predicate KeysDone(now: Table, desired: map<string, Spec>, todo: set<string>) {
    forall k :: k in desired && k !in todo ==> HasKey(now, k)
  }

  ghost predicate EnabledExcept(before: Table, now: Table, desired: map<string, Spec>, todo: set<string>) {
    OldRows(before, now, desired, todo) && NewRows(before, now, desired, todo) && KeysDone(now, desired, todo)
  }

  lemma KeyStaysAbsent(before: Table, now: Table, desired: map<string, Spec>, todo: set<string>, key: string)
    requires OldRows(before, now, desired, todo) && NewRows(before, now, desired, todo)
    requires key in todo && !HasKey(before, key)
    ensures !HasKey(now, key)
  {
    forall id | id in now ensures RowKey(now[id]) != key {
      if id in before { assert RowKey(now[id]) == RowKey(before[id]); }
    }
  }

  lemma RowStays(before: Table, now: Table, desired: map<string, Spec>, todo: set<string>, id: TenantId)
    requires OldRows(before, now, desired, todo) && id in before && RowKey(before[id]) in todo
    ensures id in now && now[id] == before[id]
  {
  }

  lemma KeyDone(now: Table, now': Table, desired: map<string, Spec>, todo: set<string>, key: string)
    requires KeysDone(now, desired, todo) && HasKey(now', key)
    requires forall i :: i in now ==> i in now' && RowKey(now'[i]) == RowKey(now[i])
    ensures KeysDone(now', desired, todo - {key})
  {
    forall k | k in desired && k !in todo && k != key ensures HasKey(now', k) {
      var i :| i in now && RowKey(now[i]) == k;
      assert i in now' && RowKey(now'[i]) == k;
    }
  }

  /** The state of the second loop over the rows `loaded`, with `todo` still to come. */
  ghost predicate MarkedExcept(before: Table, now: Table, desired: map<string, Spec>, loaded: set<TenantId>,
                               todo: set<TenantId>) {
    && now.Keys == before.Keys
    && forall id :: id in now ==>
         now[id] == if id in loaded && id !in todo then AfterSecond(before[id], desired) else before[id]
  }

  function AfterSecond(row: Tenant, desired: map<string, Spec>): Tenant {
    if RowKey(row) in desired then row else AfterUndesired(row)
  }

  lemma MarkStart(t: Table, desired: map<string, Spec>, loaded: set<TenantId>)
    ensures MarkedExcept(t, t, desired, loaded, loaded)
  {
  }

  lemma MarkStep(before: Table, now: Table, desired: map<string, Spec>, loaded: set<TenantId>, todo: set<TenantId>,
                 id: TenantId)
    requires MarkedExcept(before, now, desired, loaded, todo) && UniqueKeys(now) && UniqueNames(now)
    requires id in todo && todo <= loaded && id in now
    ensures var now' := now[id := AfterSecond(now[id], desired)];
            MarkedExcept(before, now', desired, loaded, todo - {id}) && UniqueKeys(now') && UniqueNames(now')
    ensures now[id := now[id]] == now
  {
    ReplaceKeepsUnique(now, id, AfterSecond(now[id], desired));
  }

  lemma OldRowsEnd(before: Table, enabled: Table, after: Table, desired: map<string, Spec>)
    requires OldRows(before, enabled, desired, {}) && MarkedExcept(enabled, after, desired, before.Keys, {})
    ensures forall id :: id in before ==> after[id] == AfterRow(before[id], desired)
  {
    forall id | id in before ensures after[id] == AfterRow(before[id], desired) {
      assert RowKey(enabled[id]) == RowKey(before[id]);
    }
  }

  lemma NewRowsEnd(before: Table, enabled: Table, after: Table, desired: map<string, Spec>)
    requires NewRows(before, enabled, desired, {}) && MarkedExcept(enabled, after, desired, before.Keys, {})
    ensures forall id :: id in after && id !in before ==> IsInserted(after[id], before, desired)
  {
    forall id | id in after && id !in before ensures after[id] == enabled[id] {}
  }

  lemma KeysEnd(loaded: set<TenantId>, enabled: Table, after: Table, desired: map<string, Spec>)
    requires KeysDone(enabled, desired, {}) && MarkedExcept(enabled, after, desired, loaded, {})
    ensures forall k :: k in desired ==> HasKey(after, k)
  {
    forall k | k in desired ensures HasKey(after, k) {
      var id :| id in enabled && RowKey(enabled[id]) == k;
      assert id in after && RowKey(after[id]) == k;
    }
  }

  lemma IsReconciled(before: Table, enabled: Table, after: Table, desired: map<string, Spec>)
    requires EnabledExcept(before, enabled, desired, {}) && MarkedExcept(enabled, after, desired, before.Keys, {})
    requires UniqueKeys(after)
    ensures Reconciled(before, after, desired)
  {
    OldRowsEnd(before, enabled, after, desired);
    NewRowsEnd(before, enabled, after, desired);
    KeysEnd(before.Keys, enabled, after, desired);
  }

  lemma InsertStep(before: Table, now: Table, desired: map<string, Spec>, todo: set<string>, key: string, id: TenantId)
    requires EnabledExcept(before, now, desired, todo)
    requires key in todo && key in desired && SpecKey(desired[key]) == key && !HasKey(before, key) && id !in now
    ensures EnabledExcept(before, now[id := Inserted(desired[key])], desired, todo - {key})
  {
    var now' := now[id := Inserted(desired[key])];
    assert RowKey(now'[id]) == key;
    assert forall i :: i in before ==> RowKey(before[i]) != key;
    KeyDone(now, now', desired, todo, key);
  }

  lemma EnableStep(before: Table, now: Table, desired: map<string, Spec>, todo: set<string>, key: string, id: TenantId)
    requires EnabledExcept(before, now, desired, todo) && UniqueKeys(before)
    requires key in todo && key in desired && SpecKey(desired[key]) == key && id in before && RowKey(before[id]) == key
    ensures EnabledExcept(before, now[id := AfterDesired(now[id], desired[key])], desired, todo - {key})
  {
    var now' := now[id := AfterDesired(now[id], desired[key])];
    assert RowKey(now'[id]) == key;
    assert forall i :: i in now ==> RowKey(now'[i]) == RowKey(now[i]);
    KeyDone(now, now', desired, todo, key);
    OldRowEnabled(before, now, desired, todo, key, id);
  }

  lemma OldRowEnabled(before: Table, now: Table, desired: map<string, Spec>, todo: set<string>, key: string,
                      id: TenantId)
    requires OldRows(before, now, desired, todo) && UniqueKeys(before)
    requires key in todo && key in desired && id in before && RowKey(before[id]) == key
    ensures OldRows(before, now[id := AfterDesired(now[id], desired[key])], desired, todo - {key})
  {
    assert forall i :: i in before && i != id ==> RowKey(before[i]) != key;
  }

  // When no name is taken.

  ghost predicate NameTaken(t: Table, spec: Spec) {
    exists j :: j in t && RowKey(t[j]) != SpecKey(spec) && t[j].name == SpecName(spec)
  }

  ghost predicate HasEnabled(t: Table, key: string) {
    exists id :: id in t && RowKey(t[id]) == key && t[id].desired == WantEnabled
  }

  /** A run writes the names of the desired tenants that are new or not suspended. */
  ghost predicate Writes(t: Table, desired: map<string, Spec>, key: string) {
    key in desired && (!HasKey(t, key) || HasEnabled(t, key))
  }

  ghost predicate NoConflict(t: Table, desired: map<string, Spec>) {
    && (forall k :: Writes(t, desired, k) ==>
          forall j :: j in t && RowKey(t[j]) != k ==> t[j].name != SpecName(desired[k]))
    && (forall k, l :: Writes(t, desired, k) && Writes(t, desired, l) && k != l ==>
         SpecName(desired[k]) != SpecName(desired[l]))
  }

  lemma NameIsFree(before: Table, now: Table, desired: map<string, Spec>, todo: set<string>, key: string)
    requires EnabledExcept(before, now, desired, todo) && NoConflict(before, desired)
    requires key in todo && key in desired && SpecKey(desired[key]) == key
    ensures Writes(before, desired, key) ==> !NameTaken(now, desired[key])
  {
    if Writes(before, desired, key) {
      forall j | j in now && RowKey(now[j]) != key ensures now[j].name != SpecName(desired[key]) {
        if j in before {
          assert RowKey(now[j]) == RowKey(before[j]);
          if RowKey(before[j]) in desired && before[j].desired == WantEnabled {
            assert Writes(before, desired, RowKey(before[j]));
          }
        } else {
          assert Writes(before, desired, RowKey(now[j]));
        }
      }
    }
  }

  /** No row that a run would enable has to take another name. */
  ghost predicate KeepsNames(t: Table, desired: map<string, Spec>) {
    forall id :: id in t && RowKey(t[id]) in desired && t[id].desired == WantEnabled ==>
      t[id].name == SpecName(desired[RowKey(t[id])])
  }

  lemma MissingIsInserted(passed: Table, after: Table, specs: map<string, Spec>, key: string)
    requires Reconciled(passed, after, specs) && key in specs && !HasKey(passed, key)
    ensures exists id :: id in after && RowKey(after[id]) == key && after[id] == Inserted(specs[key])
  {
    var id :| id in after && RowKey(after[id]) == key;
    forall j | j in passed ensures RowKey(after[j]) != key {
      assert RowKey(after[j]) == RowKey(passed[j]);
    }
  }

  lemma WrittenName(before: Table, after: Table, desired: map<string, Spec>, k: string) returns (id: TenantId)
    requires Reconciled(before, after, desired) && Writes(before, desired, k)
    ensures id in after && RowKey(after[id]) == k && after[id].name == SpecName(desired[k])
  {
    if HasKey(before, k) {
      id :| id in before && RowKey(before[id]) == k && before[id].desired == WantEnabled;
      assert after[id] == AfterRow(before[id], desired);
    } else {
      MissingIsInserted(before, after, desired, k);
      id :| id in after && RowKey(after[id]) == k && after[id] == Inserted(desired[k]);
    }
  }

  lemma NameStays(before: Table, after: Table, desired: map<string, Spec>, j: TenantId)
    requires Reconciled(before, after, desired) && KeepsNames(before, desired) && j in before
    ensures j in after && RowKey(after[j]) == RowKey(before[j]) && after[j].name == before[j].name
  {
  }

  /** Conversely, a run that succeeds found no conflict, unless it renamed rows on its way. */
  lemma SuccessMeansNoConflict(before: Table, after: Table, desired: map<string, Spec>)
    requires Reconciled(before, after, desired) && UniqueNames(after) && KeepsNames(before, desired)
    ensures NoConflict(before, desired)
  {
    forall k, j | Writes(before, desired, k) && j in before && before[j].name == SpecName(desired[k])
      ensures RowKey(before[j]) == k
    {
      var id := WrittenName(before, after, desired, k);
      NameStays(before, after, desired, j);
      assert NameFree(after, id, after[id].name);
    }
    forall k, l |
      Writes(before, desired, k) && Writes(before, desired, l) && SpecName(desired[k]) == SpecName(desired[l])
      ensures k == l
    {
      var i := WrittenName(before, after, desired, k);
      var j := WrittenName(before, after, desired, l);
      assert NameFree(after, i, after[i].name);
    }
  }

  // What a run achieves, in terms of subjects and services.

  ghost predicate Wanted(specs: seq<Spec>, subject: string, service: string) {
    exists s :: s in specs && s.subject == subject && s.service == service
  }

  ghost predicate ServicesHaveNoColon(t: Table, specs: seq<Spec>) {
    && (forall s :: s in specs ==> NoColon(s.service))
    && (forall id :: id in t ==> NoColon(t[id].service))
  }

  lemma WantedIsKeyed(specs: seq<Spec>, row: Tenant)
    requires NoColon(row.service) && forall s :: s in specs ==> NoColon(s.service)
    ensures RowKey(row) in DesiredMap(specs) <==> Wanted(specs, row.subject, row.service)
  {
    var m := DesiredMap(specs);
    if RowKey(row) in m {
      var s := m[RowKey(row)];
      KeyIsInjective(s.subject, s.service, row.subject, row.service);
    }
  }

  lemma ServiceOfRow(before: Table, after: Table, desired: map<string, Spec>, id: TenantId)
    requires Reconciled(before, after, desired) && id in after
    ensures if id in before then after[id].service == before[id].service
            else RowKey(after[id]) in desired && after[id].service == desired[RowKey(after[id])].service
  {
    if id in before { assert after[id] == AfterRow(before[id], desired); }
  }

  lemma ServicesStayPlain(before: Table, after: Table, specs: seq<Spec>)
    requires Reconciled(before, after, DesiredMap(specs)) && ServicesHaveNoColon(before, specs)
    ensures ServicesHaveNoColon(after, specs)
  {
    var desired := DesiredMap(specs);
    forall id | id in after ensures NoColon(after[id].service) {
      ServiceOfRow(before, after, desired, id);
      if id !in before { assert desired[RowKey(after[id])] in specs; }
    }
  }

  /** Every wanted pair has its one row, every unwanted non-static row is marked deleted, and no row disappears. */
  lemma RunMeetsTheGrants(before: Table, after: Table, specs: seq<Spec>)
    requires Reconciled(before, after, DesiredMap(specs)) && ServicesHaveNoColon(before, specs)
    ensures before.Keys <= after.Keys && UniquePairs(after)
    ensures forall s :: s in specs ==>
              exists id :: id in after && after[id].subject == s.subject && after[id].service == s.service
    ensures forall id :: id in after && !after[id].isStatic && !Wanted(specs, after[id].subject, after[id].service) ==>
              after[id].desired == WantDeleted
  {
    ServicesStayPlain(before, after, specs);
    forall s | s in specs
      ensures exists id :: id in after && after[id].subject == s.subject && after[id].service == s.service
    {
      var id :| id in after && RowKey(after[id]) == SpecKey(s);
      KeyIsInjective(after[id].subject, after[id].service, s.subject, s.service);
    }
    forall id | id in after && !after[id].isStatic && !Wanted(specs, after[id].subject, after[id].service)
      ensures after[id].desired == WantDeleted
    {
      UnwantedIsDeleted(before, after, specs, id);
    }
  }

  lemma UnwantedIsDeleted(before: Table, after: Table, specs: seq<Spec>, id: TenantId)
    requires Reconciled(before, after, DesiredMap(specs)) && ServicesHaveNoColon(after, specs)
    requires id in after && !after[id].isStatic && !Wanted(specs, after[id].subject, after[id].service)
    ensures after[id].desired == WantDeleted
  {
    WantedIsKeyed(specs, after[id]);
  }

  /** After a run every wanted row that is enabled bears its spec's identity: unchanged if it bore it before, and else
      marked for repair with the provider's references kept; a new row starts from nothing. */
  lemma RunAdoptsIdentity(before: Table, after: Table, desired: map<string, Spec>, id: TenantId)
    requires Reconciled(before, after, desired)
    requires id in after && RowKey(after[id]) in desired && after[id].desired == WantEnabled
    ensures var row, spec := after[id], desired[RowKey(after[id])];
            && row.subjectKey == spec.subjectKey && row.name == row.dnsName
            && row.name == BuildTenantInstanceName(spec.service, spec.subjectKey)
            && if id !in before then row.runtime == Provisioning && row.refs == NO_REFERENCES && !row.isStatic
               else && row.refs == before[id].refs && before[id].desired == WantEnabled
                    && (row == before[id] || (row.runtime == Degraded && row.lastError == DRIFT))
                    && (row == before[id] <== before[id].name == row.name && before[id].dnsName == row.dnsName &&
                                              before[id].subjectKey == row.subjectKey)
  {
    if id in before {
      assert after[id] == AfterRow(before[id], desired);
    } else {
      assert after[id] == Inserted(desired[RowKey(after[id])]);
    }
  }

  // Suspending and resuming.

  predicate IsPair(row: Tenant, subject: string, service: string) {
    row.subject == subject && row.service == service
  }

  /** A suspension asks for the pair's rows to be disabled, unless they are marked deleted, and for nothing else. */
  lemma SuspensionDisables(t: Table, subject: string, service: string, id: TenantId)
    requires id in t
    ensures id in Suspend(t, subject, service)
    ensures var row := Suspend(t, subject, service)[id];
            if !IsPair(t[id], subject, service) || t[id].desired == WantDeleted then row == t[id]
            else row.desired == WantDisabled && row == t[id].(desired := row.desired)
  {
  }

  /** A resumption under a grant asks for them to be enabled again; without one it does nothing. */
  lemma ResumptionEnables(t: Table, subject: string, service: string, granted: bool, id: TenantId)
    requires id in t
    ensures id in Resume(t, subject, service, granted)
    ensures var row := Resume(t, subject, service, granted)[id];
            if !granted || !IsPair(t[id], subject, service) || t[id].desired == WantDeleted then row == t[id]
            else row.desired == WantEnabled && row == t[id].(desired := row.desired)
  {
  }

  /** Resuming undoes suspending, exactly for the rows that were not suspended before. */
  lemma ResumeUndoesSuspendIff(t: Table, subject: string, service: string, id: TenantId)
    requires id in t
    ensures Resume(Suspend(t, subject, service), subject, service, true)[id] == t[id] <==>
            !(IsPair(t[id], subject, service) && t[id].desired == WantDisabled)
  {
    SuspensionDisables(t, subject, service, id);
    ResumptionEnables(Suspend(t, subject, service), subject, service, true, id);
  }

  /** A suspended row survives exactly while it is wanted, or when it is static. */
  lemma SuspendedIsUntouchedIff(before: Table, after: Table, specs: seq<Spec>, id: TenantId)
    requires Reconciled(before, after, DesiredMap(specs)) && ServicesHaveNoColon(before, specs)
    requires id in before && before[id].desired == WantDisabled
    ensures after[id] == before[id] <==> Wanted(specs, before[id].subject, before[id].service) || before[id].isStatic
  {
    WantedIsKeyed(specs, before[id]);
    assert after[id] == AfterRow(before[id], DesiredMap(specs));
  }

  /** A suspended tenant whose grant is gone does not stay suspended. */
  lemma SuspendedIsDeleted()
    ensures var row := Inserted(Spec("ann", "a", "mail")).(desired := WantDisabled);
            && Reconciled(map[1 := row], map[1 := row.(desired := WantDeleted)], DesiredMap([]))
            && !Wanted([], row.subject, row.service)
  {
  }

  lemma AfterRowTwice(row: Tenant, desired: map<string, Spec>)
    ensures AfterRow(AfterRow(row, desired), desired) == AfterRow(row, desired)
  {
    assert RowKey(AfterRow(row, desired)) == RowKey(row);
  }

  lemma RunTwice(before: Table, after: Table, desired: map<string, Spec>, id: TenantId)
    requires Reconciled(before, after, desired) && id in after
    ensures AfterRow(after[id], desired) == after[id]
  {
    if id in before { AfterRowTwice(before[id], desired); }
  }

  /** A second run changes nothing. */
  lemma SecondRunChangesNothing(before: Table, after: Table, again: Table, desired: map<string, Spec>)
    requires Reconciled(before, after, desired) && Reconciled(after, again, desired)
    ensures again == after
  {
    forall id | id in again ensures id in after {}
    forall id | id in after ensures again[id] == after[id] { RunTwice(before, after, desired, id); }
  }

  /** And it cannot fail on a taken name. */
  lemma SecondRunSucceeds(before: Table, after: Table, desired: map<string, Spec>)
    requires Reconciled(before, after, desired) && UniqueNames(after)
    ensures NoConflict(after, desired)
  {
    forall k | Writes(after, desired, k)
      ensures exists id :: id in after && RowKey(after[id]) == k && after[id].name == SpecName(desired[k])
    {
      var id :| id in after && RowKey(after[id]) == k && after[id].desired == WantEnabled;
      RunTwice(before, after, desired, id);
    }
  }

  // When names cannot be taken.

  lemma NameIsInjective(v1: string, k1: string, v2: string, k2: string)
    requires |k1| == |k2| && BuildTenantInstanceName(v1, k1) == BuildTenantInstanceName(v2, k2)
    ensures v1 == v2 && k1 == k2
  {
    var n := BuildTenantInstanceName(v1, k1);
    assert |v1| == |v2|;
    assert v1 == n[4..4 + |v1|] == v2;
    assert k1 == n[5 + |v1|..] == k2;
  }

  /** A dash in the service id v can be read as the one that follows w, and the rest of v as part of the key l. */
  ghost predicate NamesOverlap(v: string, k: string, w: string, l: string) {
    exists x: string :: v == w + "-" + x && l == x + "-" + k
  }

  /** Two pairs get one name exactly when they are the same or overlap so. */
  lemma NamesCollideIff(v: string, k: string, w: string, l: string)
    ensures BuildTenantInstanceName(v, k) == BuildTenantInstanceName(w, l) <==>
            (v, k) == (w, l) || NamesOverlap(v, k, w, l) || NamesOverlap(w, l, v, k)
  {
    if BuildTenantInstanceName(v, k) == BuildTenantInstanceName(w, l) {
      if |w| < |v| {
        LongerServiceOverlaps(v, k, w, l);
      } else if |v| < |w| {
        LongerServiceOverlaps(w, l, v, k);
      } else {
        NameIsInjective(v, k, w, l);
      }
    }
    if NamesOverlap(v, k, w, l) { OverlappingNames(v, k, w, l); }
    if NamesOverlap(w, l, v, k) { OverlappingNames(w, l, v, k); }
  }

  lemma LongerServiceOverlaps(v: string, k: string, w: string, l: string)
    requires BuildTenantInstanceName(v, k) == BuildTenantInstanceName(w, l) && |w| < |v|
    ensures NamesOverlap(v, k, w, l)
  {
    var n, x := BuildTenantInstanceName(v, k), v[|w| + 1..];
    assert w == n[4..4 + |w|] == v[..|w|];
    assert v[|w|] == n[4 + |w|] == '-';
    assert l == n[5 + |w|..];
    assert v == w + "-" + x && l == x + "-" + k;
  }

  lemma OverlappingNames(v: string, k: string, w: string, l: string)
    requires NamesOverlap(v, k, w, l)
    ensures BuildTenantInstanceName(v, k) == BuildTenantInstanceName(w, l)
  {
    var x: string :| v == w + "-" + x && l == x + "-" + k;
    assert "mcp-" + (w + "-" + x) + "-" + k == "mcp-" + w + "-" + (x + "-" + k);
  }

  /** `key` is `DeriveSubjectKey` on these subjects: a prefix and a hash of one length. */
  ghost predicate Derives(key: string -> string, length: nat, subjects: set<string>) {
    && (forall a :: a in subjects ==> |key(a)| == length)
    && (forall a, b :: a in subjects && b in subjects && key(a) == key(b) ==> a == b)
  }

  ghost predicate DerivedSpecs(key: string -> string, subjects: set<string>, specs: seq<Spec>) {
    forall s :: s in specs ==> s.subject in subjects && s.subjectKey == key(s.subject)
  }

  ghost predicate DerivedRow(key: string -> string, subjects: set<string>, row: Tenant) {
    row.subject in subjects && row.name == BuildTenantInstanceName(row.service, key(row.subject))
  }

  ghost predicate DerivedRows(key: string -> string, subjects: set<string>, t: Table) {
    forall id :: id in t ==> DerivedRow(key, subjects, t[id])
  }

  lemma DerivedNameIsInjective(key: string -> string, length: nat, subjects: set<string>,
                               a: string, v: string, b: string, w: string)
    requires Derives(key, length, subjects) && a in subjects && b in subjects
    requires BuildTenantInstanceName(v, key(a)) == BuildTenantInstanceName(w, key(b))
    ensures a == b && v == w
  {
    NameIsInjective(v, key(a), w, key(b));
  }

  lemma SpecOfKey(key: string -> string, subjects: set<string>, specs: seq<Spec>, k: string)
    requires DerivedSpecs(key, subjects, specs) && k in DesiredMap(specs)
    ensures var s := DesiredMap(specs)[k];
            && s.subject in subjects && SpecKey(s) == k
            && SpecName(s) == BuildTenantInstanceName(s.service, key(s.subject))
  {
  }

  /** With derived subject keys no name is ever taken, so a run cannot fail, and the next one finds derived names. */
  lemma DerivedNamesNeverConflict(key: string -> string, length: nat, subjects: set<string>, t: Table, specs: seq<Spec>)
    requires Derives(key, length, subjects) && DerivedSpecs(key, subjects, specs) && DerivedRows(key, subjects, t)
    ensures NoConflict(t, DesiredMap(specs))
  {
    var desired := DesiredMap(specs);
    forall k, j | Writes(t, desired, k) && j in t && t[j].name == SpecName(desired[k]) ensures RowKey(t[j]) == k {
      SpecOfKey(key, subjects, specs, k);
      assert DerivedRow(key, subjects, t[j]);
      var s := desired[k];
      DerivedNameIsInjective(key, length, subjects, t[j].subject, t[j].service, s.subject, s.service);
    }
    forall k, l | Writes(t, desired, k) && Writes(t, desired, l) && SpecName(desired[k]) == SpecName(desired[l])
      ensures k == l
    {
      SpecOfKey(key, subjects, specs, k);
      SpecOfKey(key, subjects, specs, l);
      var s, r := desired[k], desired[l];
      DerivedNameIsInjective(key, length, subjects, s.subject, s.service, r.subject, r.service);
    }
  }

  lemma DerivedNamesStay(key: string -> string, subjects: set<string>, before: Table, after: Table, specs: seq<Spec>)
    requires DerivedSpecs(key, subjects, specs) && DerivedRows(key, subjects, before)
    requires Reconciled(before, after, DesiredMap(specs)) && ServicesHaveNoColon(before, specs)
    ensures DerivedRows(key, subjects, after)
  {
    forall id | id in after ensures DerivedRow(key, subjects, after[id]) {
      if id in before {
        DerivedRowStays(key, subjects, before[id], specs);
      } else {
        SpecOfKey(key, subjects, specs, RowKey(after[id]));
      }
    }
  }

  lemma DerivedRowStays(key: string -> string, subjects: set<string>, row: Tenant, specs: seq<Spec>)
    requires DerivedSpecs(key, subjects, specs) && DerivedRow(key, subjects, row)
    requires NoColon(row.service) && forall s :: s in specs ==> NoColon(s.service)
    ensures DerivedRow(key, subjects, AfterRow(row, DesiredMap(specs)))
  {
    var desired := DesiredMap(specs);
    if RowKey(row) in desired {
      var s := desired[RowKey(row)];
      SpecOfKey(key, subjects, specs, RowKey(row));
      KeyIsInjective(row.subject, row.service, s.subject, s.service);
    }
  }

  /** Administrators may choose subject keys. Two of theirs can give two tenants one name; a run that has to create both
      then fails, for all tenants. */
  lemma ChosenKeysCanCollide()
    ensures var desired := DesiredMap([Spec("ann", "u-1", "a-b"), Spec("bob", "b-u-1", "a")]);
            KeepsNames(map[], desired) && !NoConflict(map[], desired)
  {
    var s, r := Spec("ann", "u-1", "a-b"), Spec("bob", "b-u-1", "a");
    var specs := [s, r];
    var desired := DesiredMap(specs);
    assert NamesOverlap("a-b", "u-1", "a", "b-u-1") by {
      assert "a-b" == "a" + "-" + "b" && "b-u-1" == "b" + "-" + "u-1";
    }
    NamesCollideIff("a-b", "u-1", "a", "b-u-1");
    assert s in specs && r in specs;
    KeyIsInjective(s.subject, s.service, desired[SpecKey(s)].subject, desired[SpecKey(s)].service);
    KeyIsInjective(r.subject, r.service, desired[SpecKey(r)].subject, desired[SpecKey(r)].service);
    assert Writes(map[], desired, SpecKey(s)) && Writes(map[], desired, SpecKey(r));
    assert SpecKey(s) != SpecKey(r) by { if SpecKey(s) == SpecKey(r) { KeyIsInjective("ann", "a-b", "bob", "a"); } }
  }
}
