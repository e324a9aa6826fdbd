/** Authorization codes (section 4.1.2 of RFC 6749) and refresh tokens (section 6): a request first looks a
    session row up and checks its bindings, then consumes it with a guarded update. Rows are rewritten and
    removed by others in between. */
module TokenSessions {
  import opened Wrappers
  import opened GoStrings

  type Sid = nat

  datatype Kind = Code | Refresh

  // What a token is bound to.
  datatype Binding = Binding(clientID: string, subjectSub: Option<string>, resource: string, scope: string)

  /** A session row; `write` is the number of the upsert that wrote it, which the database does not keep. */
  datatype Row = Row(binding: Binding, code: Option<string>, access: Option<string>, refresh: Option<string>,
                     consumed: bool, write: nat)

  type Table = map<Sid, Row>

  function TokenOf(r: Row, kind: Kind): Option<string> {
    if kind.Code? then r.code else r.refresh
  }

  // What the token endpoint expects of the token; an empty expectation accepts anything.
  datatype Request = Request(kind: Kind, token: string, clientID: string, resource: string, authorized: set<Binding>)

  function NormalResource(r: string): string {
    TrimRightSlash(TrimSpace(r))
  }

  /** Client binding (for refresh tokens), resource binding, and what the client registry and the subject's
      grants answered at the time of the check. */
  predicate Passes(q: Request, b: Binding) {
    && (q.kind.Refresh? ==> q.clientID == "" || q.clientID == b.clientID)
    && (NormalResource(q.resource) == "" || NormalResource(q.resource) == NormalResource(b.resource))
    && b in q.authorized
  }

  /** What passing means for the caller: its own token, for the resource it names, if it names one. */
  ghost predicate Bound(q: Request, b: Binding) {
    && (q.kind.Refresh? && q.clientID != "" ==> b.clientID == q.clientID)
    && (Spells(q.resource, "") || exists r :: Spells(q.resource, r) && Spells(b.resource, r))
    && b in q.authorized
  }

  lemma PassesIsBound(q: Request, b: Binding)
    requires Passes(q, b)
    ensures Bound(q, b)
  {
    TrimmedIsSpelled(q.resource);
    TrimmedIsSpelled(b.resource);
  }

  /** The owner's request passes. */
  lemma OwnerPasses(q: Request, b: Binding)
    requires b in q.authorized && (q.kind.Code? || q.clientID == "" || q.clientID == b.clientID)
    requires q.resource == "" || q.resource == b.resource
    ensures Passes(q, b)
  {
  }

  /** The row a lookup sees: consumed rows are visible to the refresh lookup only. */
  predicate Visible(table: Table, q: Request, sid: Sid) {
    sid in table && TokenOf(table[sid], q.kind) == Some(q.token) && (q.kind.Code? ==> !table[sid].consumed)
  }

  predicate Consumable(table: Table, q: Request, sid: Sid) {
    sid in table && TokenOf(table[sid], q.kind) == Some(q.token) && !table[sid].consumed
  }

  predicate Collides(a: Option<string>, b: Option<string>) {
    a.Some? && a == b
  }

  /** The partial UNIQUE indexes on the three hash columns. */
  predicate Storable(table: Table, sid: Sid, r: Row) {
    forall other <- table :: other != sid ==>
      !Collides(table[other].code, r.code) && !Collides(table[other].access, r.access) &&
        !Collides(table[other].refresh, r.refresh)
  }

  class TokenStore {
    var rows: Table

    constructor ()
      ensures rows == map[]
    {
      rows := map[];
    }

    ghost predicate Valid()
      reads this
    {
      forall sid <- rows :: Storable(rows, sid, rows[sid])
    }

    method Create(sid: Sid, r: Row) returns (ok: bool)
      requires Valid()
      modifies this
      ensures Valid()
      ensures ok <==> Storable(old(rows), sid, r)
      ensures rows == if ok then old(rows)[sid := r.(consumed := false)] else old(rows)
    {
      if !Storable(rows, sid, r) { return false; }
      rows := rows[sid := r.(consumed := false)];
      return true;
    }

    /** Undisturbed: a code or refresh token is redeemed exactly when its row is unconsumed and passes, and
        from then on it is not. */
    method Get(q: Request) returns (r: Option<Row>)
      requires Valid()
      modifies this
      ensures Valid()
      ensures r.Some? <==>
              !Blank(q.token) && exists sid :: Consumable(old(rows), q, sid) && Passes(q, old(rows)[sid].binding)
      ensures r.Some? ==> exists sid ::
                Consumable(old(rows), q, sid) && r.value == old(rows)[sid].(consumed := true) &&
                  rows == old(rows)[sid := r.value]
      ensures r.Some? ==> Bound(q, r.value.binding) && TokenOf(r.value, q.kind) == Some(q.token)
      ensures r.None? ==> rows == old(rows)
      ensures r.Some? ==> forall sid :: !Consumable(rows, q, sid)
    {
      if Blank(q.token) { return None; }
      if sid: Sid :| sid in rows && Visible(rows, q, sid) {
        if !Passes(q, rows[sid].binding) { return None; }
        if rows[sid].consumed { return None; }
        assert Consumable(rows, q, sid);
        PassesIsBound(q, rows[sid].binding);
        rows := rows[sid := rows[sid].(consumed := true)];
        return Some(rows[sid]);
      }
      return None;
    }
  }

  // Interleaving.
  datatype Return = Return(request: Request, checked: Row, row: Row)
  datatype Pending = Pending(request: Request, checked: Row)

  datatype State = State(table: Table, writes: seq<Row>, pending: map<nat, Pending>, returned: seq<Return>)

  datatype Action =
    | Upsert(sid: Sid, row: Row)
    | Remove(sid: Sid)
    | Lookup(handler: nat, request: Request, sid: Sid)
    | Consume(handler: nat, sid: Sid)

  const Init := State(map[], [], map[], [])

  function Next(s: State, a: Action): State {
    match a
    case Upsert(sid, row) =>
      if !Storable(s.table, sid, row) then s
      else
        var written := row.(consumed := false, write := |s.writes|);
        s.(table := s.table[sid := written], writes := s.writes + [written])
    case Remove(sid) => s.(table := s.table - {sid})
    case Lookup(h, q, sid) =>
      if Blank(q.token) || !Visible(s.table, q, sid) || !Passes(q, s.table[sid].binding) then s
      else s.(pending := s.pending[h := Pending(q, s.table[sid])])
    case Consume(h, sid) =>
      if h !in s.pending || !Consumable(s.table, s.pending[h].request, sid) then s
      else
        var p := s.pending[h];
        s.(table := s.table[sid := s.table[sid].(consumed := true)], pending := s.pending - {h},
           returned := s.returned + [Return(p.request, p.checked, s.table[sid])])
  }

  function Run(s: State, actions: seq<Action>): State
    decreases |actions|
  {
    if actions == [] then s else Run(Next(s, actions[0]), actions[1..])
  }

  /** The row is, up to its consumption, the one that write number r.write stored. */
  predicate Written(writes: seq<Row>, r: Row) {
    r.write < |writes| && writes[r.write] == r.(consumed := false)
  }

  ghost predicate TableInv(table: Table, writes: seq<Row>) {
    && (forall sid <- table :: Written(writes, table[sid]))
    && (forall a, b :: a in table && b in table && table[a].write == table[b].write ==> a == b)
  }

  ghost predicate CheckedInv(writes: seq<Row>, q: Request, r: Row) {
    Written(writes, r) && TokenOf(r, q.kind) == Some(q.token) && Passes(q, r.binding)
  }

  ghost predicate ReturnInv(writes: seq<Row>, r: Return) {
    CheckedInv(writes, r.request, r.checked) && Written(writes, r.row) &&
      TokenOf(r.row, r.request.kind) == Some(r.request.token)
  }

  ghost predicate ReturnsInv(table: Table, writes: seq<Row>, returned: seq<Return>) {
    && (forall i :: 0 <= i < |returned| ==> ReturnInv(writes, returned[i]))
    && (forall i, sid :: 0 <= i < |returned| && sid in table && table[sid].write == returned[i].row.write ==>
         table[sid].consumed)
    && (forall i, j :: 0 <= i < j < |returned| ==> returned[i].row.write != returned[j].row.write)
  }

  ghost predicate Inv(s: State) {
    && TableInv(s.table, s.writes)
    && (forall h <- s.pending :: CheckedInv(s.writes, s.pending[h].request, s.pending[h].checked))
    && ReturnsInv(s.table, s.writes, s.returned)
  }

  lemma UpsertKeepsInv(s: State, sid: Sid, row: Row)
    requires Inv(s)
    ensures Inv(Next(s, Upsert(sid, row)))
  {
    if Storable(s.table, sid, row) {
      var t := Next(s, Upsert(sid, row));
      assert forall r: Row :: Written(s.writes, r) ==> Written(t.writes, r);
      forall i | 0 <= i < |s.returned| ensures ReturnInv(t.writes, s.returned[i]) {
        assert ReturnInv(s.writes, s.returned[i]);
      }
      assert forall h <- t.pending :: CheckedInv(s.writes, t.pending[h].request, t.pending[h].checked);
      assert ReturnsInv(t.table, t.writes, t.returned);
    }
  }

  lemma ConsumeKeepsInv(s: State, h: nat, sid: Sid)
    requires Inv(s)
    ensures Inv(Next(s, Consume(h, sid)))
  {
    var t := Next(s, Consume(h, sid));
    if h in s.pending && Consumable(s.table, s.pending[h].request, sid) {
      assert CheckedInv(s.writes, s.pending[h].request, s.pending[h].checked);
      assert ReturnInv(s.writes, t.returned[|s.returned|]);
      assert ReturnsInv(t.table, t.writes, t.returned);
    }
  }

  lemma NextKeepsInv(s: State, a: Action)
    requires Inv(s)
    ensures Inv(Next(s, a))
  {
    match a
    case Upsert(sid, row) => UpsertKeepsInv(s, sid, row);
    case Consume(h, sid) => ConsumeKeepsInv(s, h, sid);
    case Remove(_) =>
    case Lookup(_, _, _) =>
  }

  lemma {:induction false} RunKeepsInv(s: State, actions: seq<Action>)
    requires Inv(s)
    ensures Inv(Run(s, actions))
    decreases |actions|
  {
    if actions != [] {
      NextKeepsInv(s, actions[0]);
      RunKeepsInv(Next(s, actions[0]), actions[1..]);
    }
  }

  /** Under every interleaving, each write of a session row is returned at most once, to one request of either kind. */
  lemma ReturnedOncePerWrite(actions: seq<Action>)
    ensures
      var s := Run(Init, actions);
      forall i, j :: 0 <= i < j < |s.returned| ==> s.returned[i].row.write != s.returned[j].row.write
  {
    RunKeepsInv(Init, actions);
  }

  /** No code or refresh token is ever written into a session twice. */
  ghost predicate TokensFresh(writes: seq<Row>) {
    forall i, j, kind: Kind :: 0 <= i < j < |writes| ==> !Collides(TokenOf(writes[i], kind), TokenOf(writes[j], kind))
  }

  /** The bindings checked beforehand hold for the row that is returned, in every run that does not write a token
      twice. */
  lemma ReturnedAsChecked(actions: seq<Action>, i: nat)
    requires var s := Run(Init, actions); TokensFresh(s.writes) && i < |s.returned|
    ensures var r := Run(Init, actions).returned[i];
      Bound(r.request, r.row.binding) && r.row.(consumed := false) == r.checked.(consumed := false)
  {
    RunKeepsInv(Init, actions);
    var s := Run(Init, actions);
    var r := s.returned[i];
    assert ReturnInv(s.writes, r);
    PassesIsBound(r.request, r.checked.binding);
    assert Collides(TokenOf(s.writes[r.row.write], r.request.kind), TokenOf(s.writes[r.checked.write], r.request.kind));
  }

  // When exactly the returned row is the checked one.

  /** The state before step n. */
  function At(actions: seq<Action>, n: nat): State
    requires n <= |actions|
  {
    Run(Init, actions[..n])
  }

  lemma {:induction false} RunAppend(s: State, actions: seq<Action>, a: Action)
    ensures Run(s, actions + [a]) == Next(Run(s, actions), a)
    decreases |actions|
  {
    if actions == [] {
      assert [] + [a] == [a] && [a][1..] == [];
    } else {
      assert (actions + [a])[1..] == actions[1..] + [a];
      RunAppend(Next(s, actions[0]), actions[1..], a);
    }
  }

  lemma AtStep(actions: seq<Action>, n: nat)
    requires n < |actions|
    ensures At(actions, n + 1) == Next(At(actions, n), actions[n])
  {
    assert actions[..n + 1] == actions[..n] + [actions[n]];
    RunAppend(Init, actions[..n], actions[n]);
  }

  predicate SameRow(a: Row, b: Row) {
    a.(consumed := false) == b.(consumed := false)
  }

  /** No two rows share a token. */
  predicate TokensApart(table: Table) {
    forall sid <- table :: Storable(table, sid, table[sid])
  }

  lemma UpsertKeepsApart(table: Table, sid: Sid, row: Row, written: Row)
    requires TokensApart(table) && Storable(table, sid, row)
    requires written.code == row.code && written.access == row.access && written.refresh == row.refresh
    ensures TokensApart(table[sid := written])
  {
    var table' := table[sid := written];
    forall x <- table' ensures Storable(table', x, table'[x]) {
      if x != sid { assert Storable(table, x, table[x]); }
    }
  }

  /** Fewer rows, or the same with another `consumed`. */
  lemma SameTokensStayApart(table: Table, table': Table)
    requires TokensApart(table)
    requires forall x <- table' :: x in table && SameRow(table[x], table'[x])
    ensures TokensApart(table')
  {
    forall x <- table' ensures Storable(table', x, table'[x]) { assert Storable(table, x, table[x]); }
  }

  lemma NextKeepsApart(s: State, a: Action)
    requires TokensApart(s.table)
    ensures TokensApart(Next(s, a).table)
  {
    if a.Upsert? && Storable(s.table, a.sid, a.row) {
      UpsertKeepsApart(s.table, a.sid, a.row, a.row.(consumed := false, write := |s.writes|));
    } else {
      SameTokensStayApart(s.table, Next(s, a).table);
    }
  }

  lemma {:induction false} TokensStayApart(actions: seq<Action>, n: nat)
    requires n <= |actions|
    ensures TokensApart(At(actions, n).table) && Inv(At(actions, n))
  {
    RunKeepsInv(Init, actions[..n]);
    if n > 0 {
      TokensStayApart(actions, n - 1);
      AtStep(actions, n - 1);
      NextKeepsApart(At(actions, n - 1), actions[n - 1]);
    }
  }

  /** The step writes a row that holds this token. */
  predicate Rewrites(s: State, a: Action, q: Request) {
    a.Upsert? && TokenOf(a.row, q.kind) == Some(q.token) && Storable(s.table, a.sid, a.row)
  }

  predicate NotRewritten(actions: seq<Action>, l: nat, k: nat, q: Request)
    requires l <= k <= |actions|
  {
    forall m :: l < m < k ==> !Rewrites(At(actions, m), actions[m], q)
  }

  /** Before step n, a row that holds the token is the looked-up row, unless the token was written since. */
  predicate Holds(actions: seq<Action>, l: nat, n: nat, q: Request, row: Row)
    requires l < n <= |actions|
  {
    forall sid <- At(actions, n).table :: TokenOf(At(actions, n).table[sid], q.kind) == Some(q.token) ==>
      if NotRewritten(actions, l, n, q) then SameRow(At(actions, n).table[sid], row)
      else At(actions, n).table[sid].write > row.write
  }

  predicate LooksUp(s: State, a: Action, h: nat, q: Request, row: Row) {
    && a.Lookup? && a.handler == h && a.request == q && !Blank(q.token)
    && Visible(s.table, q, a.sid) && Passes(q, s.table[a.sid].binding) && row == s.table[a.sid]
  }

  predicate Takes(s: State, a: Action, h: nat) {
    a.Consume? && a.handler == h && h in s.pending && Consumable(s.table, s.pending[h].request, a.sid)
  }

  predicate IsOf(a: Action, h: nat) {
    (a.Lookup? || a.Consume?) && a.handler == h
  }

  lemma RowStep(s: State, a: Action, q: Request, row: Row, sid: Sid)
    requires TokensApart(s.table) && row.write < |s.writes|
    requires sid in Next(s, a).table && TokenOf(Next(s, a).table[sid], q.kind) == Some(q.token)
    ensures if Rewrites(s, a, q) then Next(s, a).table[sid].write > row.write
            else sid in s.table && SameRow(Next(s, a).table[sid], s.table[sid])
                 && TokenOf(s.table[sid], q.kind) == Some(q.token)
  {
  }

  lemma HoldsStep(actions: seq<Action>, l: nat, n: nat, q: Request, row: Row)
    requires l < n < |actions| && Holds(actions, l, n, q, row)
    requires TokensApart(At(actions, n).table) && row.write < |At(actions, n).writes|
    ensures Holds(actions, l, n + 1, q, row)
  {
    AtStep(actions, n);
    var s, t := At(actions, n), At(actions, n + 1);
    assert NotRewritten(actions, l, n + 1, q) <==> NotRewritten(actions, l, n, q) && !Rewrites(s, actions[n], q);
    forall sid <- t.table | TokenOf(t.table[sid], q.kind) == Some(q.token)
      ensures if NotRewritten(actions, l, n + 1, q) then SameRow(t.table[sid], row) else t.table[sid].write > row.write
    {
      RowStep(s, actions[n], q, row, sid);
    }
  }

  lemma OneRowHolds(s: State, a: Action, h: nat, q: Request, row: Row)
    requires TokensApart(s.table) && TableInv(s.table, s.writes) && LooksUp(s, a, h, q, row)
    ensures Next(s, a).table == s.table && Next(s, a).writes == s.writes && row.write < |s.writes|
    ensures forall sid <- s.table :: TokenOf(s.table[sid], q.kind) == Some(q.token) ==> s.table[sid] == row
  {
    assert Written(s.writes, s.table[a.sid]);
    assert Storable(s.table, a.sid, s.table[a.sid]);
  }

  lemma HoldsFirst(actions: seq<Action>, l: nat, h: nat, q: Request, row: Row)
    requires l < |actions| && LooksUp(At(actions, l), actions[l], h, q, row)
    ensures Holds(actions, l, l + 1, q, row) && row.write < |At(actions, l + 1).writes|
  {
    TokensStayApart(actions, l);
    AtStep(actions, l);
    OneRowHolds(At(actions, l), actions[l], h, q, row);
  }

  lemma {:induction false} RowsBetween(actions: seq<Action>, l: nat, n: nat, h: nat, q: Request, row: Row)
    requires l < n <= |actions| && LooksUp(At(actions, l), actions[l], h, q, row)
    ensures Holds(actions, l, n, q, row) && row.write < |At(actions, n).writes|
  {
    if n == l + 1 {
      HoldsFirst(actions, l, h, q, row);
    } else {
      RowsBetween(actions, l, n - 1, h, q, row);
      TokensStayApart(actions, n - 1);
      HoldsStep(actions, l, n - 1, q, row);
      AtStep(actions, n - 1);
    }
  }

  lemma {:induction false} PendingBetween(actions: seq<Action>, l: nat, n: nat, h: nat, q: Request, row: Row)
    requires l < n <= |actions| && LooksUp(At(actions, l), actions[l], h, q, row)
    requires forall m :: l < m < n ==> !IsOf(actions[m], h)
    ensures h in At(actions, n).pending && At(actions, n).pending[h] == Pending(q, row)
  {
    AtStep(actions, n - 1);
    if n > l + 1 { PendingBetween(actions, l, n - 1, h, q, row); }
  }

  /** In any run at all: the row a handler consumes at step k is the row it looked up at step l if and only if no step
      strictly between wrote a row holding the token. */
  lemma ReturnedIsCheckedIff(actions: seq<Action>, l: nat, k: nat, h: nat, q: Request, row: Row)
    requires l < k < |actions| && LooksUp(At(actions, l), actions[l], h, q, row) && Takes(At(actions, k), actions[k], h)
    requires forall m :: l < m < k ==> !IsOf(actions[m], h)
    ensures var taken := At(actions, k).table[actions[k].sid];
      && At(actions, k + 1).returned == At(actions, k).returned + [Return(q, row, taken)]
      && (SameRow(taken, row) <==> NotRewritten(actions, l, k, q))
      && (NotRewritten(actions, l, k, q) ==> Passes(q, taken.binding))
  {
    PendingBetween(actions, l, k, h, q, row);
    RowsBetween(actions, l, k, h, q, row);
    AtStep(actions, k);
  }

  // A refresh token checked for client "a" while the row is rewritten for client "b" under the same token.
  const FOR_A := Binding("a", None, "", "")
  const FOR_B := Binding("b", None, "", "")
  const OVERTAKEN: seq<Action> := [
    Upsert(0, Row(FOR_A, None, None, Some("r"), false, 0)),
    Lookup(0, Request(Refresh, "r", "a", "", {FOR_A, FOR_B}), 0),
    Upsert(0, Row(FOR_B, None, None, Some("r"), false, 0)),
    Consume(0, 0)]

  /** The condition is needed: a token that is written again between check and consumption is returned with
      bindings that nobody checked. This is a run of the store alone: the manager that writes the rows generates a new
      refresh token for every one (internal/edge/oauth.go:182-192). */
  lemma RewrittenTokenEscapesTheCheck()
    ensures
      var s := Run(Init, OVERTAKEN);
      && !TokensFresh(s.writes)
      && |s.returned| == 1 && !Passes(s.returned[0].request, s.returned[0].row.binding)
  {
    var a := OVERTAKEN;
    var written := Row(FOR_A, None, None, Some("r"), false, 0);
    var rewritten := Row(FOR_B, None, None, Some("r"), false, 1);
    assert a[1..] == [a[1], a[2], a[3]] && a[1..][1..] == [a[2], a[3]] && a[1..][1..][1..] == [a[3]] &&
           a[1..][1..][1..][1..] == [];
    var s1 := State(map[0 := written], [written], map[], []);
    assert Next(Init, a[0]) == s1;
    assert NormalResource("") == "";
    assert !Blank("r") by { assert "r"[0] in "r"; }
    var s2 := s1.(pending := map[0 := Pending(a[1].request, written)]);
    assert Next(s1, a[1]) == s2;
    var s3 := State(map[0 := rewritten], [written, rewritten], s2.pending, []);
    assert Next(s2, a[2]) == s3;
    var s4 := Next(s3, a[3]);
    assert s4.writes == s3.writes && Collides(TokenOf(s3.writes[0], Refresh), TokenOf(s3.writes[1], Refresh));
    assert Run(Init, a) == Run(s1, a[1..]) == Run(s2, a[1..][1..]) == Run(s3, a[1..][1..][1..]) == s4;
  }
}
