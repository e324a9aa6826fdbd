/** The in-memory device store: a record map with two hash indexes, updated under one mutex. Each method is
    shown to leave the record map in the state that the SQL statement of the same name gives. */
module MemoryDeviceStore {
  import opened Wrappers
  import opened GoStrings
  import opened DeviceTable

  datatype Tokens = Tokens(clientID: string, issuedVia: string, access: string, refresh: string, code: string)
  datatype TokenKind = Access | Refresh | Code

  type Index = map<string, Id>

  function TokenOf(t: Tokens, kind: TokenKind): string {
    match kind
    case Access => t.access
    case Refresh => t.refresh
    case Code => t.code
  }

  /** Exact correspondence of the record map and both indexes. */
  ghost predicate Indexed(byID: Table, byCode: Index, byUser: Index) {
    && (forall h <- byCode :: byCode[h] in byID && byID[byCode[h]].request.deviceCodeHash == h)
    && (forall h <- byUser :: byUser[h] in byID && byID[byUser[h]].request.userCodeHash == h)
    && (forall id <- byID :: ListedAs(id, byID[id].request, byCode, byUser))
  }

  ghost predicate ListedAs(id: Id, q: Request, byCode: Index, byUser: Index) {
    && q.id == id
    && q.deviceCodeHash in byCode && byCode[q.deviceCodeHash] == id
    && q.userCodeHash in byUser && byUser[q.userCodeHash] == id
  }

  /** An approved record names a subject that is not blank. */
  ghost predicate SubjectsNamed(byID: Table) {
    forall id <- byID :: byID[id].status.Approved? ==> byID[id].subjectSub.Some? && !Blank(byID[id].subjectSub.value)
  }

  /** What the handler passes when it opens an authorization: no history, and an interval in whole seconds. */
  predicate IsDraft(r: Row) {
    && r.subjectSub.None? && r.status.Pending? && r.lastPollAt.None? && r.pollCount == 0
    && r.approvedAt.None? && r.deniedAt.None? && r.consumedAt.None? && r.updatedAt == r.request.createdAt
    && (r.interval > 0 ==> r.interval == WholeSeconds(r.interval))
  }

  /** Tokens that no other session carries; an empty token is not indexed at all. */
  ghost predicate FreshTokens(sessions: map<nat, Tokens>, sid: nat, t: Tokens) {
    && sid !in sessions && !Blank(t.access)
    && Unused(sessions, Access, t.access) && Unused(sessions, Refresh, t.refresh) && Unused(sessions, Code, t.code)
  }

  ghost predicate Unused(sessions: map<nat, Tokens>, kind: TokenKind, token: string) {
    Blank(token) || forall sid <- sessions :: TokenOf(sessions[sid], kind) != token
  }

  class MemoryEdgeStateStore {
    var byID: Table
    var byCode: Index
    var byUser: Index
    var sessions: map<nat, Tokens>

    ghost predicate Valid()
      reads this
    {
      Indexed(byID, byCode, byUser) && SubjectsNamed(byID)
    }

    constructor ()
      ensures Valid() && byID == map[] && sessions == map[]
    {
      byID, byCode, byUser, sessions := map[], map[], map[], map[];
    }

    // Every field is overwritten without a look at what was there, so the indexes survive exactly when the
    // request was fresh, or repeats an existing one.
    method CreateDeviceAuthorization(r: Row) returns (ok: bool)
      requires Valid()
      modifies this
      ensures ok <==> r.request.id != 0
      ensures !ok ==> byID == old(byID) && Valid()
      ensures ok && IsDraft(r) && Insertable(old(byID), r.request) ==> Valid() && byID == Insert(old(byID), r).0
      ensures ok ==> (Indexed(byID, byCode, byUser) <==> Replaceable(old(byID), r.request))
      ensures sessions == old(sessions)
    {
      if r.request.id == 0 { return false; }
      var id := r.request.id;
      var record := if r.interval <= 0 then r.(interval := DEFAULT_INTERVAL) else r;
      byID := byID[id := record];
      byCode := byCode[record.request.deviceCodeHash := id];
      byUser := byUser[record.request.userCodeHash := id];
      OverwriteKeepsIndexed(old(byID), old(byCode), old(byUser), record);
      DraftIsInserted(old(byID), r, record);
      return true;
    }

    method GetByHash(hash: string, deviceCode: bool) returns (r: Option<Row>)
      requires Valid()
      ensures r.Some? ==> exists id <- byID ::
                r.value == byID[id] &&
                hash == if deviceCode then r.value.request.deviceCodeHash else r.value.request.userCodeHash
      ensures r.None? ==> forall id <- byID ::
                hash != if deviceCode then byID[id].request.deviceCodeHash else byID[id].request.userCodeHash
    {
      var index := if deviceCode then byCode else byUser;
      if hash !in index {
        forall id <- byID
          ensures hash != if deviceCode then byID[id].request.deviceCodeHash else byID[id].request.userCodeHash
        {
          assert ListedAs(id, byID[id].request, byCode, byUser);
        }
        return None;
      }
      return if index[hash] in byID then Some(byID[index[hash]]) else None;
    }

    /** The one place where records are changed: `mutate` declines, or returns the changed record. */
    method Update(id: Id, at: Time, mutate: Row -> Option<Row>) returns (changed: bool)
      requires Valid()
      requires forall r: Row :: mutate(r).Some? ==> mutate(r).value.request == r.request
      modifies this`byID
      ensures Indexed(byID, byCode, byUser)
      ensures changed <==> id in old(byID) && mutate(old(byID)[id]).Some?
      ensures byID == if changed then old(byID)[id := mutate(old(byID)[id]).value.(updatedAt := at)] else old(byID)
    {
      if id !in byID { return false; }
      var r := mutate(byID[id]);
      if r.None? { return false; }
      byID := byID[id := r.value.(updatedAt := at)];
      SameRequestsStayIndexed(old(byID), byID, byCode, byUser);
      return true;
    }

    method ApproveDeviceAuthorization(id: Id, subject: string, at: Time) returns (r: Option<bool>)
      requires Valid()
      modifies this`byID
      ensures Valid()
      ensures r.None? <==> Blank(subject)
      ensures r.None? ==> byID == old(byID)
      ensures r.Some? ==> (byID, r.value) == Approve(old(byID), id, TrimSpace(subject), at)
    {
      if Blank(subject) { return None; }
      TrimKeepsText(subject);
      var named := Some(TrimSpace(subject));
      var changed := Update(id, at, (record: Row) =>
        if !record.status.Pending? || at >= record.request.expiresAt then None
        else Some(record.(subjectSub := named, status := Approved, approvedAt := Some(at))));
      r := Some(changed);
    }

    method DenyDeviceAuthorization(id: Id, at: Time) returns (changed: bool)
      requires Valid()
      modifies this`byID
      ensures Valid()
      ensures (byID, changed) == Deny(old(byID), id, at)
    {
      changed := Update(id, at, (record: Row) =>
        if !record.status.Pending? || at >= record.request.expiresAt then None
        else Some(record.(status := Denied, deniedAt := Some(at))));
    }

    method ConsumeDeviceAuthorization(id: Id, at: Time) returns (changed: bool)
      requires Valid()
      modifies this`byID
      ensures Valid()
      ensures (byID, changed) == Consume(old(byID), id, at)
    {
      changed := Update(id, at, (record: Row) =>
        if !record.status.Approved? || record.subjectSub.None? || Blank(record.subjectSub.value) ||
          at >= record.request.expiresAt then None
        else Some(record.(status := Consumed, consumedAt := Some(at))));
    }

    method UpdateDeviceAuthorizationPoll(id: Id, at: Time) returns (changed: bool)
      requires Valid()
      modifies this`byID
      ensures Valid()
      ensures (byID, changed) == UpdatePoll(old(byID), id, at)
    {
      changed := Update(id, at, (record: Row) =>
        Some(record.(lastPollAt := Some(at), pollCount := record.pollCount + 1)));
    }

    method SlowDownDeviceAuthorizationPoll(id: Id, at: Time, increment: int) returns (changed: bool)
      requires Valid()
      modifies this`byID
      ensures Valid()
      ensures increment == WholeSeconds(increment) ==> (byID, changed) == SlowDown(old(byID), id, at, increment)
    {
      changed := Update(id, at, (record: Row) =>
        Some(record.(lastPollAt := Some(at), pollCount := record.pollCount + 1,
                     interval := record.interval + increment)));
    }

    method MarkExpiredDeviceAuthorizations(now: Time) returns (updated: nat)
      requires Valid()
      modifies this`byID
      ensures Valid()
      ensures byID == MarkExpired(old(byID), now)
      ensures updated == |set id <- old(byID) | Overdue(old(byID)[id], now)|
    {
      updated := 0;
      var todo := byID.Keys;
      ghost var changed: set<Id> := {};
      while todo != {}
        invariant todo <= byID.Keys == old(byID).Keys
        invariant forall id <- byID :: byID[id] == if id in todo then old(byID)[id] else ExpireRow(old(byID)[id], now)
        invariant forall id :: id in changed <==> id in old(byID) && id !in todo && Overdue(old(byID)[id], now)
        invariant updated == |changed|
      {
        var id :| id in todo;
        var record := byID[id];
        if (record.status.Pending? || record.status.Approved?) && now >= record.request.expiresAt {
          byID := byID[id := record.(status := Expired, updatedAt := now)];
          updated := updated + 1;
          changed := changed + {id};
        }
        todo := todo - {id};
      }
      AllExpired(old(byID), byID, changed, now);
      ExpiredStaysValid(old(byID), byCode, byUser, now);
    }

    method Drop(id: Id)
      requires Indexed(byID, byCode, byUser) && id in byID
      modifies this`byID, this`byCode, this`byUser
      ensures Indexed(byID, byCode, byUser)
      ensures byID == old(byID) - {id} && |byID| == |old(byID)| - 1
    {
      var q := byID[id].request;
      DropKeepsIndexed(byID, byCode, byUser, id);
      assert byID.Keys == (byID - {id}).Keys + {id};
      byID := byID - {id};
      byCode := byCode - {q.deviceCodeHash};
      byUser := byUser - {q.userCodeHash};
    }

    method PruneExpiredDeviceAuthorizations(cutoff: Time) returns (deleted: nat)
      requires Valid()
      modifies this`byID, this`byCode, this`byUser
      ensures Valid()
      ensures byID == Prune(old(byID), cutoff)
      ensures deleted == |old(byID)| - |byID|
    {
      deleted := 0;
      var todo := byID.Keys;
      while todo != {}
        invariant todo <= byID.Keys <= old(byID).Keys
        invariant forall id <- byID :: byID[id] == old(byID)[id]
        invariant forall id <- old(byID) :: id !in byID <==> id !in todo && Prunable(old(byID)[id], cutoff)
        invariant Indexed(byID, byCode, byUser)
        invariant deleted == |old(byID)| - |byID|
      {
        var id :| id in todo;
        var record := byID[id];
        if Terminal(record.status) && record.updatedAt <= cutoff {
          Drop(id);
          deleted := deleted + 1;
        }
        todo := todo - {id};
      }
    }

    method Create(sid: nat, t: Tokens)
      modifies this`sessions
      ensures sessions == old(sessions)[sid := t]
    {
      sessions := sessions[sid := t];
    }

    /** Deletes the first session met that carries the token, in no particular order. */
    method RemoveByToken(kind: TokenKind, token: string)
      modifies this`sessions
      ensures Unused(old(sessions), kind, token) ==> sessions == old(sessions)
      ensures !Unused(old(sessions), kind, token) ==>
        exists sid <- old(sessions) :: TokenOf(old(sessions)[sid], kind) == token && sessions == old(sessions) - {sid}
    {
      if Blank(token) { return; }
      var todo := sessions.Keys;
      while todo != {}
        invariant sessions == old(sessions) && todo <= sessions.Keys
        invariant forall sid <- sessions :: sid !in todo ==> TokenOf(sessions[sid], kind) != token
      {
        var sid :| sid in todo;
        if TokenOf(sessions[sid], kind) == token {
          sessions := sessions - {sid};
          return;
        }
        todo := todo - {sid};
      }
    }

    /** The session is stored first and rolled back when the authorization cannot be consumed; with fresh
        tokens that ends where the transaction of the persistent store ends. */
    method ConsumeDeviceAuthorizationAndCreateToken(id: Id, at: Time, sid: nat, t: Tokens) returns (consumed: bool)
      requires Valid()
      modifies this`byID, this`sessions
      ensures Valid()
      ensures (byID, consumed) == Consume(old(byID), id, at)
      ensures consumed ==> sessions == old(sessions)[sid := t]
      ensures !consumed && FreshTokens(old(sessions), sid, t) ==> sessions == old(sessions)
    {
      Create(sid, t);
      consumed := ConsumeDeviceAuthorization(id, at);
      if consumed { return; }
      ghost var was := old(sessions);
      RemoveByToken(Access, t.access);
      assert FreshTokens(was, sid, t) ==> sessions == was by {
        if FreshTokens(was, sid, t) {
          var stored := was[sid := t];
          assert TokenOf(stored[sid], Access) == t.access;
          assert forall other <- stored :: TokenOf(stored[other], Access) == t.access ==> other == sid;
          assert stored - {sid} == was;
        }
      }
      RemoveByToken(Refresh, t.refresh);
      RemoveByToken(Code, t.code);
    }
  }

  predicate Overdue(r: Row, now: Time) {
    (r.status.Pending? || r.status.Approved?) && r.request.expiresAt <= now
  }

  /** Writing this request over the table leaves no index entry dangling. */
  ghost predicate Replaceable(byID: Table, q: Request) {
    && (q.id in byID ==>
          byID[q.id].request.deviceCodeHash == q.deviceCodeHash &&
          byID[q.id].request.userCodeHash == q.userCodeHash)
    && (forall id <- byID :: id != q.id ==>
          byID[id].request.deviceCodeHash != q.deviceCodeHash && byID[id].request.userCodeHash != q.userCodeHash)
  }

  lemma DraftIsInserted(byID: Table, r: Row, record: Row)
    requires SubjectsNamed(byID) && record == if r.interval <= 0 then r.(interval := DEFAULT_INTERVAL) else r
    ensures IsDraft(r) && Insertable(byID, r.request) ==>
              && byID[r.request.id := record] == Insert(byID, r).0
              && SubjectsNamed(byID[r.request.id := record]) && Replaceable(byID, r.request)
  {
  }

  lemma OverwriteKeepsIndexed(byID: Table, byCode: Index, byUser: Index, r: Row)
    requires Indexed(byID, byCode, byUser)
    ensures
      var id := r.request.id;
      Indexed(byID[id := r], byCode[r.request.deviceCodeHash := id], byUser[r.request.userCodeHash := id]) <==>
        Replaceable(byID, r.request)
  {
    var q := r.request;
    var byID', byCode', byUser' := byID[q.id := r], byCode[q.deviceCodeHash := q.id], byUser[q.userCodeHash := q.id];
    if Replaceable(byID, q) {
      forall id <- byID' ensures ListedAs(id, byID'[id].request, byCode', byUser') {
        if id != q.id { assert ListedAs(id, byID[id].request, byCode, byUser); }
      }
    }
    if Indexed(byID', byCode', byUser') {
      if q.id in byID {
        assert ListedAs(q.id, byID[q.id].request, byCode, byUser);
        assert byID[q.id].request.deviceCodeHash in byCode' && byID[q.id].request.userCodeHash in byUser';
      }
      forall id <- byID | id != q.id
        ensures byID[id].request.deviceCodeHash != q.deviceCodeHash && byID[id].request.userCodeHash != q.userCodeHash {
        assert id in byID' && ListedAs(id, byID'[id].request, byCode', byUser');
      }
    }
  }

  lemma SameRequestsStayIndexed(byID: Table, byID': Table, byCode: Index, byUser: Index)
    requires Indexed(byID, byCode, byUser)
    requires byID'.Keys == byID.Keys && forall id <- byID :: byID'[id].request == byID[id].request
    ensures Indexed(byID', byCode, byUser)
  {
    forall id <- byID' ensures ListedAs(id, byID'[id].request, byCode, byUser) {
      assert ListedAs(id, byID[id].request, byCode, byUser);
    }
  }

  lemma AllExpired(before: Table, after: Table, changed: set<Id>, now: Time)
    requires after.Keys == before.Keys && forall id <- before :: after[id] == ExpireRow(before[id], now)
    requires forall id :: id in changed <==> id in before && Overdue(before[id], now)
    ensures after == MarkExpired(before, now)
    ensures changed == set id <- before | Overdue(before[id], now)
  {
  }

  lemma ExpiredStaysValid(byID: Table, byCode: Index, byUser: Index, now: Time)
    requires Indexed(byID, byCode, byUser) && SubjectsNamed(byID)
    ensures Indexed(MarkExpired(byID, now), byCode, byUser) && SubjectsNamed(MarkExpired(byID, now))
  {
    SameRequestsStayIndexed(byID, MarkExpired(byID, now), byCode, byUser);
  }

  lemma DropKeepsIndexed(byID: Table, byCode: Index, byUser: Index, id: Id)
    requires Indexed(byID, byCode, byUser) && id in byID
    ensures Indexed(byID - {id}, byCode - {byID[id].request.deviceCodeHash}, byUser - {byID[id].request.userCodeHash})
  {
    var q := byID[id].request;
    assert ListedAs(id, q, byCode, byUser);
    forall other <- byID - {id}
      ensures ListedAs(other, byID[other].request, byCode - {q.deviceCodeHash}, byUser - {q.userCodeHash}) {
      assert ListedAs(other, byID[other].request, byCode, byUser);
    }
  }

  lemma TrimKeepsText(s: string)
    requires !Blank(s)
    ensures !Blank(TrimSpace(s))
  {
    BlankIsTrimmedAway(s);
    assert TrimSpace(s)[0] in TrimSpace(s);
  }

  /** The persistent store refuses an approval by a subject with surrounding white space: it stores the subject trimmed
      and then names it as given. The two stores approve alike exactly when that does not happen. */
  lemma ApprovalsAgreeIff(table: Table, subjects: set<string>, id: Id, subject: string, now: Time)
    requires Trimmed(subjects)
    ensures var sql := ApproveReferencing(table, subjects + {TrimSpace(subject)}, id, subject, now);
            && (sql == None <==> Approve(table, id, subject, now).1 && TrimSpace(subject) != subject)
            && (sql == Some(Approve(table, id, TrimSpace(subject), now)) <==>
                TrimSpace(subject) == subject || !Approve(table, id, subject, now).1)
  {
    assert subject in subjects + {TrimSpace(subject)} <==> TrimSpace(subject) == subject;
  }

  /** One approval of a pending authorization, on each store, by a subject with a space before its name. */
  lemma UntrimmedSubjectIsRefused(table: Table, subjects: set<string>, id: Id, now: Time)
    requires Trimmed(subjects) && id in table && table[id].status.Pending? && now < table[id].request.expiresAt
    ensures ApproveReferencing(table, subjects + {TrimSpace(" ann")}, id, " ann", now) == None
    ensures var memory := Approve(table, id, TrimSpace(" ann"), now);
            memory.1 && memory.0[id].status.Approved? && memory.0[id].subjectSub == Some("ann")
  {
    assert " ann"[1..] == "ann";
    ApprovalsAgreeIff(table, subjects, id, " ann", now);
  }

  /** An authorization created again under its id, with another device code, leaves the old code's entry dangling. */
  lemma RecreatedIsNotIndexed(byID: Table, byCode: Index, byUser: Index, id: Id, code: string)
    requires Indexed(byID, byCode, byUser) && id in byID && code != byID[id].request.deviceCodeHash
    ensures var q := byID[id].request;
            var again := byID[id].(request := q.(deviceCodeHash := code));
            var byID', byCode' := byID[id := again], byCode[code := id];
            && q.deviceCodeHash in byCode'
            && byID'[byCode'[q.deviceCodeHash]].request.deviceCodeHash != q.deviceCodeHash
            && !Indexed(byID', byCode', byUser[q.userCodeHash := id])
  {
    assert ListedAs(id, byID[id].request, byCode, byUser);
  }
}
