/** The persistent store's device methods and the token and verification handlers, run without interference.
    `DeviceGrant` interleaves the same steps; here each handler is shown to perform exactly those steps. */
module DeviceHandlers {
  import opened Wrappers
  import opened GoStrings
  import opened DeviceTable
  import opened DeviceGrant
  import opened DeviceLives

  datatype StoreReply = Failed | Done(changed: bool)

  ghost predicate UniqueRequests(t: Table) {
    && (forall i, j :: i in t && j in t && t[i].request.deviceCodeHash == t[j].request.deviceCodeHash ==> i == j)
    && (forall i, j :: i in t && j in t && t[i].request.userCodeHash == t[j].request.userCodeHash ==> i == j)
    && (forall i <- t :: t[i].request.id == i)
  }

  lemma SameRequestsStayUnique(t: Table, t': Table)
    requires UniqueRequests(t) && t'.Keys == t.Keys && forall i <- t :: t'[i].request == t[i].request
    ensures UniqueRequests(t')
  {
    forall i, j | i in t' && j in t' && t'[i].request.deviceCodeHash == t'[j].request.deviceCodeHash ensures i == j {
      assert t[i].request == t'[i].request && t[j].request == t'[j].request;
    }
    forall i, j | i in t' && j in t' && t'[i].request.userCodeHash == t'[j].request.userCodeHash ensures i == j {
      assert t[i].request == t'[i].request && t[j].request == t'[j].request;
    }
  }

  class SqliteEdgeStateStore {
    var table: Table
    var sessions: map<nat, Session>
    var subjects: set<string>

    constructor ()
      ensures Valid() && table == map[] && sessions == map[] && subjects == {}
    {
      table, sessions, subjects := map[], map[], {};
    }

    /** The UNIQUE columns make a lookup by either hash return at most one row; every stored subject is trimmed. */
    ghost predicate Valid()
      reads this
    {
      UniqueRequests(table) && Trimmed(subjects)
    }

    method EnsureSubject(subject: string)
      requires Valid()
      modifies this`subjects
      ensures Valid() && subjects == if Blank(subject) then old(subjects) else old(subjects) + {TrimSpace(subject)}
    {
      BlankIsTrimmedAway(subject);
      var sub := TrimSpace(subject);
      if sub != "" { subjects := subjects + {sub}; }
    }

    method GetByDeviceCode(code: string) returns (r: Option<Row>)
      requires Valid()
      ensures r == FindByDeviceCode(table, code)
    {
      if id: Id :| id in table && table[id].request.deviceCodeHash == code {
        assert IsRowOf(table, code, id);
        r := Some(table[id]);
      } else {
        r := None;
      }
    }

    method GetByUserCode(code: string) returns (r: Option<Row>)
      requires Valid()
      ensures r == FindByUserCode(table, code)
    {
      if id: Id :| id in table && table[id].request.userCodeHash == code {
        assert IsUserRowOf(table, code, id);
        r := Some(table[id]);
      } else {
        r := None;
      }
    }

    method ApproveDeviceAuthorization(id: Id, subject: string, at: Time) returns (r: StoreReply)
      requires Valid()
      modifies this`table, this`subjects
      ensures Valid() && subjects == if Blank(subject) then old(subjects) else old(subjects) + {TrimSpace(subject)}
      ensures r.Failed? <==>
              Blank(subject) || (Approve(old(table), id, subject, at).1 && TrimSpace(subject) != subject)
      ensures r.Failed? ==> table == old(table)
      ensures r.Done? ==> (table, r.changed) == Approve(old(table), id, subject, at)
    {
      if Blank(subject) { return Failed; }
      EnsureSubject(subject);
      var approved := ApproveReferencing(table, subjects, id, subject, at);
      if approved.None? { return Failed; }
      table := approved.value.0;
      r := Done(approved.value.1);
    }

    method DenyDeviceAuthorization(id: Id, at: Time) returns (changed: bool)
      requires Valid()
      modifies this`table
      ensures Valid()
      ensures (table, changed) == Deny(old(table), id, at)
    {
      var (table', denied) := Deny(table, id, at);
      table := table';
      changed := denied;
    }

    method UpdateDeviceAuthorizationPoll(id: Id, at: Time) returns (changed: bool)
      requires Valid()
      modifies this`table
      ensures Valid()
      ensures (table, changed) == UpdatePoll(old(table), id, at)
    {
      var (table', updated) := UpdatePoll(table, id, at);
      table := table';
      changed := updated;
    }

    method SlowDownDeviceAuthorizationPoll(id: Id, at: Time, increment: int) returns (changed: bool)
      requires Valid()
      modifies this`table
      ensures Valid()
      ensures (table, changed) == SlowDown(old(table), id, at, increment)
    {
      var (table', updated) := SlowDown(table, id, at, increment);
      table := table';
      changed := updated;
    }

    method MarkExpiredDeviceAuthorizations(now: Time)
      requires Valid()
      modifies this`table
      ensures Valid()
      ensures table == MarkExpired(old(table), now)
    {
      SameRequestsStayUnique(table, MarkExpired(table, now));
      table := MarkExpired(table, now);
    }

    /** The transaction: the authorization is consumed exactly when its session is stored. `storable` is
        the database's answer to the second statement. */
    method ConsumeDeviceAuthorizationAndCreateToken(id: Id, at: Time, session: Session, storable: bool)
      returns (r: StoreReply)
      requires Valid()
      modifies this`table, this`sessions
      ensures Valid()
      ensures r == Done(true) <==> Consume(old(table), id, at).1 && storable
      ensures r == Done(true) ==>
                table == Consume(old(table), id, at).0 &&
                sessions == old(sessions)[session.id := session]
      ensures r != Done(true) ==> table == old(table) && sessions == old(sessions)
      ensures r.Failed? <==> Consume(old(table), id, at).1 && !storable
    {
      var before := table;
      var (table', consumed) := Consume(table, id, at);
      table := table';
      if !consumed { return Done(false); }
      if !storable {
        table := before;
        return Failed;
      }
      sessions := sessions[session.id := session];
      return Done(true);
    }
  }

  // A token request with every answer the handler gets from outside the device table.
  datatype TokenRequest = TokenRequest(
    clientID: string,
    authenticated: bool,
    mayUseDeviceCode: bool,
    deviceCode: string,
    now: Time,
    clientStillAllowed: bool,
    resourceStillValid: bool,
    grants: Option<bool>,
    storable: bool,
    sessionID: nat)

  datatype TokenReply =
    | InvalidClient | UnauthorizedClient | InvalidRequest | InvalidGrant | InvalidResource | ServerError
    | ExpiredTokenError | SlowDownError | AuthorizationPendingError | AccessDeniedError
    | TokenIssued(session: Session)

  predicate Authorized(q: TokenRequest) {
    q.clientStillAllowed && q.resourceStillValid && q.grants == Some(true)
  }

  /** The steps of `DeviceGrant` that one token request performs. */
  ghost function TokenSteps(q: TokenRequest): seq<Action> {
    [LoadPoll(0, TrimSpace(q.deviceCode), q.clientID, q.now), WritePoll(0),
      Exchange(0, Authorized(q), q.storable, q.sessionID)]
  }

  predicate Admitted(q: TokenRequest) {
    q.authenticated && q.mayUseDeviceCode && !Blank(q.deviceCode)
  }

  /** The row a request addresses: found by device code and bound to the requesting client. */
  ghost predicate Addresses(table: Table, q: TokenRequest, r: Row) {
    FindByDeviceCode(table, TrimSpace(q.deviceCode)) == Some(r) && r.request.clientID == q.clientID
  }

  // The undisturbed effect on the device table of a request that addresses row r.
  function Effect(table: Table, r: Row, q: TokenRequest): Table {
    var polled := RecordPoll(table, r, q.now);
    if Redeems(r, q) then Consume(polled, r.request.id, q.now).0 else polled
  }

  predicate Redeems(r: Row, q: TokenRequest) {
    Decide(r, q.now).Proceed? && Authorized(q) && q.storable
  }

  /** Undisturbed, the three interleavable steps have exactly this effect: the row is polled, and an approved
      authorization polled in time by its own client is exchanged for the session that it names. */
  lemma StepsUndisturbed(table: Table, q: TokenRequest, r: Row)
    requires Addresses(table, q, r)
    requires forall id <- table :: table[id].request.id == id
    ensures
      var t := Run(Init.(table := table), TokenSteps(q));
      && t.table == Effect(table, r, q)
      && t.issued == if Redeems(r, q) then [Issued(r.request.id, SessionFor(r, q.sessionID), q.now)] else []
  {
    var s := Init.(table := table);
    var steps := TokenSteps(q);
    var s1 := s.(polls := map[0 := Loaded(r, q.now)]);
    var s2 := WritePollStep(s1, 0);
    assert steps[1..] == [steps[1], steps[2]] && steps[1..][1..] == [steps[2]] && steps[1..][1..][1..] == [];
    assert Run(s, steps) == Run(s1, steps[1..]) by { assert Next(s, steps[0]) == s1; }
    assert Run(s1, steps[1..]) == Run(s2, steps[1..][1..]);
    assert Run(s2, [steps[2]]) == Run(Next(s2, steps[2]), []);
    assert r.request.id in table && table[r.request.id] == r;
  }

  method HandleDeviceToken(store: SqliteEdgeStateStore, q: TokenRequest) returns (reply: TokenReply)
    requires store.Valid()
    modifies store`table, store`sessions
    ensures store.Valid()
    ensures forall r :: Admitted(q) && Addresses(old(store.table), q, r) ==>
      && store.table == Effect(old(store.table), r, q)
      && (reply.TokenIssued? <==> Redeems(r, q))
      && (reply.TokenIssued? ==> reply.session == SessionFor(r, q.sessionID))
    ensures !(Admitted(q) && exists r :: Addresses(old(store.table), q, r)) ==>
            !reply.TokenIssued? && store.table == old(store.table)
    ensures reply.InvalidClient? <==> !q.authenticated
    ensures reply.InvalidRequest? <==> q.authenticated && q.mayUseDeviceCode && Blank(q.deviceCode)
    ensures q.authenticated && !q.mayUseDeviceCode ==> reply.UnauthorizedClient?
    ensures reply.TokenIssued? ==> q.authenticated && q.mayUseDeviceCode && q.clientStillAllowed &&
                                   q.resourceStillValid && q.grants == Some(true)
    ensures store.sessions == if reply.TokenIssued? then old(store.sessions)[q.sessionID := reply.session]
            else old(store.sessions)
  {
    if !q.authenticated { return InvalidClient; }
    if !q.mayUseDeviceCode { return UnauthorizedClient; }
    BlankIsTrimmedAway(q.deviceCode);
    var deviceCode := TrimSpace(q.deviceCode);
    if deviceCode == "" { return InvalidRequest; }
    var found := store.GetByDeviceCode(deviceCode);
    if found.None? || found.value.request.clientID != q.clientID { return InvalidGrant; }
    assert Addresses(store.table, q, found.value);
    reply := PollDeviceToken(store, q, found.value);
  }

  /** In time: neither expired nor sooner than the interval after the last poll. */
  predicate Timely(r: Row, now: Time) {
    Answerable(r, now) && !r.status.Expired?
  }

  predicate NamesSubject(r: Row) {
    r.subjectSub.Some? && !Blank(r.subjectSub.value)
  }

  /** A timely poll of an authorization approved for a subject. */
  predicate Redeemable(r: Row, now: Time) {
    Timely(r, now) && r.status.Approved? && NamesSubject(r)
  }

  /** Why the repeated checks refuse: the first one that fails decides. */
  predicate RefusedWith(q: TokenRequest, reply: TokenReply) {
    match reply
    case UnauthorizedClient => !q.clientStillAllowed
    case InvalidResource => q.clientStillAllowed && !q.resourceStillValid
    case ServerError => q.clientStillAllowed && q.resourceStillValid && q.grants != Some(false) &&
      (q.grants.None? || !q.storable)
    case AccessDeniedError => q.clientStillAllowed && q.resourceStillValid && q.grants == Some(false)
    case _ => false
  }

  method PollDeviceToken(store: SqliteEdgeStateStore, q: TokenRequest, record: Row) returns (reply: TokenReply)
    requires store.Valid()
    requires Addresses(store.table, q, record)
    modifies store`table, store`sessions
    ensures store.Valid()
    ensures store.table == Effect(old(store.table), record, q)
    ensures reply.ExpiredTokenError? <==> q.now >= record.request.expiresAt || record.status.Expired?
    ensures reply.SlowDownError? <==> !Timely(record, q.now) && !reply.ExpiredTokenError?
    ensures reply.AuthorizationPendingError? <==> Timely(record, q.now) && record.status.Pending?
    ensures reply.InvalidGrant? <==>
            Timely(record, q.now) &&
            (record.status.Consumed? || (record.status.Approved? && !NamesSubject(record)))
    ensures reply.AccessDeniedError? <==> || (Timely(record, q.now) && record.status.Denied?)
                                          || (Redeemable(record, q.now) && RefusedWith(q, AccessDeniedError))
    ensures reply.UnauthorizedClient? || reply.InvalidResource? || reply.ServerError? ==>
            Redeemable(record, q.now) && RefusedWith(q, reply)
    ensures reply.TokenIssued? <==> Redeemable(record, q.now) && Authorized(q) && q.storable
    ensures reply.TokenIssued? <==> Redeems(record, q)
    ensures !reply.InvalidClient? && !reply.InvalidRequest?
    ensures reply.TokenIssued? ==> reply.session == SessionFor(record, q.sessionID)
    ensures store.sessions == if reply.TokenIssued? then old(store.sessions)[q.sessionID := reply.session]
            else old(store.sessions)
  {
    if q.now >= record.request.expiresAt || record.status.Expired? {
      assert Decide(record, q.now).ExpiredToken?;
      store.MarkExpiredDeviceAuthorizations(q.now);
      return ExpiredTokenError;
    }
    if record.lastPollAt.Some? && q.now - record.lastPollAt.value < record.interval {
      assert Decide(record, q.now).TooFast?;
      var _ := store.SlowDownDeviceAuthorizationPoll(record.request.id, q.now, SLOW_DOWN_INCREMENT);
      return SlowDownError;
    }
    var _ := store.UpdateDeviceAuthorizationPoll(record.request.id, q.now);
    match record.status {
      case Pending => return AuthorizationPendingError;
      case Denied => return AccessDeniedError;
      case Consumed => return InvalidGrant;
      case Approved =>
    }
    if record.subjectSub.None? || Blank(record.subjectSub.value) { return InvalidGrant; }
    assert Decide(record, q.now).Proceed?;
    reply := RedeemApproved(store, q, record);
  }

  method RedeemApproved(store: SqliteEdgeStateStore, q: TokenRequest, record: Row) returns (reply: TokenReply)
    requires store.Valid()
    requires record.subjectSub.Some? && record.request.clientID == q.clientID
    modifies store`table, store`sessions
    ensures store.Valid()
    ensures reply.TokenIssued? <==> Authorized(q) && q.storable && Consume(old(store.table), record.request.id, q.now).1
    ensures reply.InvalidGrant? <==> Authorized(q) && !Consume(old(store.table), record.request.id, q.now).1
    ensures reply.TokenIssued? || reply.InvalidGrant? || RefusedWith(q, reply)
    ensures !reply.InvalidClient? && !reply.InvalidRequest?
    ensures reply.TokenIssued? ==> reply.session == SessionFor(record, q.sessionID)
    ensures store.table == if reply.TokenIssued? then Consume(old(store.table), record.request.id, q.now).0
            else old(store.table)
    ensures store.sessions == if reply.TokenIssued? then old(store.sessions)[q.sessionID := reply.session]
            else old(store.sessions)
  {
    if !q.clientStillAllowed { return UnauthorizedClient; }
    if !q.resourceStillValid { return InvalidResource; }
    if q.grants.None? { return ServerError; }
    if !q.grants.value { return AccessDeniedError; }
    var session := Session(q.sessionID, q.clientID, record.subjectSub.value, record.request.scope,
      record.request.resource);
    var consumed := store.ConsumeDeviceAuthorizationAndCreateToken(record.request.id, q.now, session, q.storable);
    if consumed.Failed? { return ServerError; }
    if !consumed.changed { return InvalidGrant; }
    reply := TokenIssued(session);
  }

  // The approval form with every answer the handler gets from outside the device table.
  datatype VerificationRequest = VerificationRequest(
    subject: string,
    action: string,
    userCode: string,
    now: Time,
    csrfValid: bool,
    clientStillAllowed: bool,
    resourceStillValid: bool,
    grants: Option<bool>,
    subjectStored: bool)

  datatype VerificationReply =
    | LoginRequired | CodeInvalid | ChooseAction | InvalidCsrf | ClientRefused | ResourceRefused
    | GrantsUnavailable | NotGranted | SubjectNotStored | NotPending
    | DeviceDenied | DeviceApproved

  predicate MayApprove(q: VerificationRequest) {
    q.clientStillAllowed && q.resourceStillValid && q.grants == Some(true) && q.subjectStored
  }

  ghost predicate ShowsForm(table: Table, q: VerificationRequest, r: Row) {
    && !Blank(q.subject)
    && FindByUserCode(table, q.userCode) == Some(r)
    && r.status.Pending? && q.now < r.request.expiresAt
  }

  /** A valid request for the approval of a shown authorization, granted to its subject. */
  ghost predicate AsksApproval(table: Table, q: VerificationRequest) {
    q.action == "approve" && q.csrfValid && MayApprove(q) && exists r :: ShowsForm(table, q, r)
  }

  /** Why the form is refused, and what an approval has been checked for. */
  predicate Justified(q: VerificationRequest, reply: VerificationReply) {
    match reply
    case LoginRequired => Blank(q.subject)
    case ChooseAction => q.action != "approve" && q.action != "deny"
    case InvalidCsrf => !q.csrfValid
    case ClientRefused => q.action == "approve" && !q.clientStillAllowed
    case ResourceRefused => q.action == "approve" && q.clientStillAllowed && !q.resourceStillValid
    case GrantsUnavailable => q.action == "approve" && q.grants.None?
    case NotGranted => q.action == "approve" && q.grants == Some(false)
    case SubjectNotStored => q.action == "approve" && !q.subjectStored
    case DeviceApproved =>
      q.action == "approve" && q.csrfValid && q.clientStillAllowed && q.resourceStillValid && q.grants == Some(true)
    case DeviceDenied => q.action == "deny" && q.csrfValid
    case CodeInvalid => true
    case NotPending => q.action == "approve" && q.csrfValid
  }

  method HandleDeviceVerificationPost(store: SqliteEdgeStateStore, q: VerificationRequest)
    returns (reply: VerificationReply)
    requires store.Valid()
    modifies store`table, store`subjects
    ensures store.Valid()
    ensures reply.DeviceApproved? <==> AsksApproval(old(store.table), q) && TrimSpace(q.subject) == q.subject
    ensures reply.NotPending? <==> AsksApproval(old(store.table), q) && TrimSpace(q.subject) != q.subject
    ensures store.subjects ==
            old(store.subjects) + if AsksApproval(old(store.table), q) then {TrimSpace(q.subject)} else {}
    ensures reply.DeviceDenied? <==> q.action == "deny" && q.csrfValid && exists r :: ShowsForm(old(store.table), q, r)
    ensures forall r :: ShowsForm(old(store.table), q, r) ==>
      store.table ==
        if reply.DeviceApproved? then Approve(old(store.table), r.request.id, q.subject, q.now).0
        else if reply.DeviceDenied? then Deny(old(store.table), r.request.id, q.now).0
        else old(store.table)
    ensures !reply.DeviceApproved? && !reply.DeviceDenied? ==> store.table == old(store.table)
    ensures Justified(q, reply)
    ensures reply.CodeInvalid? <==> !Blank(q.subject) && !exists r :: ShowsForm(old(store.table), q, r)
    ensures forall r :: ShowsForm(old(store.table), q, r) ==>
      && (reply.DeviceDenied? ==> WillAnswer(store.table, r.request.id, AccessDenied))
      && (reply.DeviceApproved? ==> WillAnswer(store.table, r.request.id, Proceed) &&
                                    store.table[r.request.id].subjectSub == Some(q.subject))
  {
    if Blank(q.subject) { return LoginRequired; }
    var found := store.GetByUserCode(q.userCode);
    if found.None? || !found.value.status.Pending? || q.now >= found.value.request.expiresAt { return CodeInvalid; }
    var record := found.value;
    assert ShowsForm(store.table, q, record);
    if q.action != "approve" && q.action != "deny" { return ChooseAction; }
    if !q.csrfValid { return InvalidCsrf; }
    if q.action == "deny" {
      DeniedPollsAreRefused(store.table, record.request.id, q.now);
      var denied := store.DenyDeviceAuthorization(record.request.id, q.now);
      return if denied then DeviceDenied else NotPending;
    }
    reply := ApproveShown(store, q, record);
  }

  // The approval of the authorization that the form shows.
  method ApproveShown(store: SqliteEdgeStateStore, q: VerificationRequest, record: Row)
    returns (reply: VerificationReply)
    requires store.Valid() && ShowsForm(store.table, q, record)
    modifies store`table, store`subjects
    ensures store.Valid() && !reply.DeviceDenied? && !reply.CodeInvalid?
    ensures q.action == "approve" && q.csrfValid ==> Justified(q, reply)
    ensures reply.DeviceApproved? <==> MayApprove(q) && TrimSpace(q.subject) == q.subject
    ensures reply.NotPending? <==> MayApprove(q) && TrimSpace(q.subject) != q.subject
    ensures store.subjects == old(store.subjects) + if MayApprove(q) then {TrimSpace(q.subject)} else {}
    ensures store.table ==
            if reply.DeviceApproved? then Approve(old(store.table), record.request.id, q.subject, q.now).0
            else old(store.table)
    ensures reply.DeviceApproved? ==> WillAnswer(store.table, record.request.id, Proceed) &&
                                      store.table[record.request.id].subjectSub == Some(q.subject)
  {
    if !q.clientStillAllowed { return ClientRefused; }
    if !q.resourceStillValid { return ResourceRefused; }
    if q.grants.None? { return GrantsUnavailable; }
    if !q.grants.value { return NotGranted; }
    if !q.subjectStored { return SubjectNotStored; }
    store.EnsureSubject(q.subject);
    var approved := store.ApproveDeviceAuthorization(record.request.id, q.subject, q.now);
    if approved != Done(true) { return NotPending; }
    ApprovedPollsProceed(old(store.table), record.request.id, q.subject, q.now);
    return DeviceApproved;
  }
}
