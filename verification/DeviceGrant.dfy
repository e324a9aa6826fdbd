/** The device authorization grant (RFC 8628 sections 3.2 to 3.5) as handlers that load a snapshot of a
    row, decide on it, and then issue guarded statements, interleaved in any order with each
    other and with expiry and pruning. */
module DeviceGrant {
  import opened Wrappers
  import opened GoStrings
  import opened DeviceTable

  const SLOW_DOWN_INCREMENT := 5 * SECOND

  datatype Session = Session(id: nat, clientID: string, subjectSub: string, scope: string, resource: string)

  /** What a poll decides from its snapshot, in the order the handler tests. */
  datatype Decision = ExpiredToken | TooFast | AuthorizationPending | AccessDenied | AlreadyConsumed | NoSubject
    | Proceed

  function Decide(r: Row, now: Time): Decision {
    if now >= r.request.expiresAt || r.status.Expired? then ExpiredToken
    else if r.lastPollAt.Some? && now - r.lastPollAt.value < r.interval then TooFast
    else match r.status
      case Pending => AuthorizationPending
      case Denied => AccessDenied
      case Consumed => AlreadyConsumed
      case Approved => if r.subjectSub.None? || Blank(r.subjectSub.value) then NoSubject else Proceed
      case Expired => ExpiredToken
  }

  /** Before expiry, and not sooner than the interval after the last poll. */
  predicate Answerable(r: Row, now: Time) {
    now < r.request.expiresAt && (r.lastPollAt.Some? ==> now - r.lastPollAt.value >= r.interval)
  }

  /** What every answerable poll of the authorization is told from now on. */
  ghost predicate WillAnswer(table: Table, id: Id, decision: Decision) {
    id in table && forall now :: Answerable(table[id], now) ==> Decide(table[id], now) == decision
  }

  /** The statement a poll issues for its decision, before it answers. */
  function RecordPoll(table: Table, r: Row, now: Time): Table {
    match Decide(r, now)
    case ExpiredToken => MarkExpired(table, now)
    case TooFast => SlowDown(table, r.request.id, now, SLOW_DOWN_INCREMENT).0
    case _ => UpdatePoll(table, r.request.id, now).0
  }

  // History that the database does not keep, but the theorems speak about.
  datatype Approval = Approval(subject: string, at: Time, prior: Status)
  datatype Issued = Issued(device: Id, session: Session, at: Time)

  // A token request that has loaded its snapshot, and one that has also recorded its poll.
  datatype Poll = Loaded(record: Row, now: Time) | Recorded(record: Row, now: Time)
  datatype Verification = Verification(record: Row, subject: string, now: Time)

  datatype State = State(
    table: Table,
    created: map<Id, Request>,
    approvals: map<Id, Approval>,
    issued: seq<Issued>,
    polls: map<nat, Poll>,
    verifications: map<nat, Verification>)

  datatype Action =
    | Create(row: Row)
    | LoadPoll(handler: nat, deviceCodeHash: string, clientID: string, now: Time)
    | WritePoll(handler: nat)
    | Exchange(handler: nat, authorized: bool, persisted: bool, sessionID: nat)
    | LoadVerification(handler: nat, userCodeHash: string, subject: string, now: Time)
    | ApproveDevice(handler: nat, authorized: bool)
    | DenyDevice(handler: nat)
    | Expire(now: Time)
    | PruneRows(cutoff: Time)

  const Init := State(map[], map[], map[], [], map[], map[])

  predicate IsRowOf(table: Table, deviceCodeHash: string, id: Id) {
    id in table && table[id].request.deviceCodeHash == deviceCodeHash
  }

  predicate IsUserRowOf(table: Table, userCodeHash: string, id: Id) {
    id in table && table[id].request.userCodeHash == userCodeHash
  }

  ghost function FindByDeviceCode(table: Table, hash: string): (r: Option<Row>)
    ensures r.Some? ==> exists id <- table :: IsRowOf(table, hash, id) && r.value == table[id]
    ensures r.None? ==> forall id :: !IsRowOf(table, hash, id)
  {
    if id :| IsRowOf(table, hash, id) then Some(table[id]) else None
  }

  ghost function FindByUserCode(table: Table, hash: string): (r: Option<Row>)
    ensures r.Some? ==> exists id <- table :: IsUserRowOf(table, hash, id) && r.value == table[id]
    ensures r.None? ==> forall id :: !IsUserRowOf(table, hash, id)
  {
    if id :| IsUserRowOf(table, hash, id) then Some(table[id]) else None
  }

  predicate FreshRequest(s: State, q: Request) {
    && q.id !in s.created
    && (forall id <- s.created :: s.created[id].deviceCodeHash != q.deviceCodeHash)
    && (forall id <- s.created :: s.created[id].userCodeHash != q.userCodeHash)
  }

  ghost function CreateStep(s: State, r: Row): State {
    // Identifiers and codes are random: fresh against everything ever created.
    if FreshRequest(s, r.request) then
      s.(table := Insert(s.table, r).0, created := s.created[r.request.id := r.request])
    else s
  }

  ghost function LoadPollStep(s: State, h: nat, code: string, clientID: string, now: Time): State {
    var found := FindByDeviceCode(s.table, code);
    if found.None? || found.value.request.clientID != clientID then s
    else s.(polls := s.polls[h := Loaded(found.value, now)])
  }

  ghost function WritePollStep(s: State, h: nat): State {
    if h !in s.polls || !s.polls[h].Loaded? then s
    else
      var p := s.polls[h];
      s.(table := RecordPoll(s.table, p.record, p.now),
         polls := if Decide(p.record, p.now).Proceed? then s.polls[h := Recorded(p.record, p.now)] else s.polls - {h})
  }

  function SessionFor(r: Row, sessionID: nat): Session
    requires r.subjectSub.Some?
  {
    Session(sessionID, r.request.clientID, r.subjectSub.value, r.request.scope, r.request.resource)
  }

  // The final exchange, once the client, resource and grant checks have answered. Consumption and insertion
  // are one transaction: a session that cannot be stored rolls the consumption back.
  ghost function ExchangeStep(s: State, h: nat, authorized: bool, persisted: bool, sessionID: nat): State {
    if h !in s.polls || !s.polls[h].Recorded? then s
    else
      var r := s.polls[h].record;
      var now := s.polls[h].now;
      var rest := s.polls - {h};
      var consumed := Consume(s.table, r.request.id, now);
      if authorized && r.subjectSub.Some? && consumed.1 && persisted then
        s.(polls := rest, table := consumed.0,
           issued := s.issued + [Issued(r.request.id, SessionFor(r, sessionID), now)])
      else s.(polls := rest)
  }

  ghost function LoadVerificationStep(s: State, h: nat, code: string, subject: string, now: Time): State {
    var found := FindByUserCode(s.table, code);
    if Blank(subject) || found.None? || !found.value.status.Pending? || now >= found.value.request.expiresAt then s
    else s.(verifications := s.verifications[h := Verification(found.value, subject, now)])
  }

  // The subjects stored are trimmed, so the foreign key refuses an approval by any other.
  ghost function ApproveStep(s: State, h: nat, authorized: bool): State {
    if h !in s.verifications then s
    else
      var v := s.verifications[h];
      var id := v.record.request.id;
      var rest := s.verifications - {h};
      var approved := Approve(s.table, id, v.subject, v.now);
      if authorized && approved.1 && TrimSpace(v.subject) == v.subject then
        s.(verifications := rest, table := approved.0,
           approvals := s.approvals[id := Approval(v.subject, v.now, s.table[id].status)])
      else s.(verifications := rest)
  }

  ghost function DenyStep(s: State, h: nat): State {
    if h !in s.verifications then s
    else
      var v := s.verifications[h];
      s.(verifications := s.verifications - {h}, table := Deny(s.table, v.record.request.id, v.now).0)
  }

  /** One step of any handler. A step whose guard fails changes nothing, so every sequence of actions is a run. */
  ghost function Next(s: State, a: Action): State {
    match a
    case Create(r) => CreateStep(s, r)
    case LoadPoll(h, code, clientID, now) => LoadPollStep(s, h, code, clientID, now)
    case WritePoll(h) => WritePollStep(s, h)
    case Exchange(h, authorized, persisted, sessionID) => ExchangeStep(s, h, authorized, persisted, sessionID)
    case LoadVerification(h, code, subject, now) => LoadVerificationStep(s, h, code, subject, now)
    case ApproveDevice(h, authorized) => ApproveStep(s, h, authorized)
    case DenyDevice(h) => DenyStep(s, h)
    case Expire(now) => s.(table := MarkExpired(s.table, now))
    case PruneRows(cutoff) => s.(table := Prune(s.table, cutoff))
  }

  ghost function Run(s: State, actions: seq<Action>): State
    decreases |actions|
  {
    if actions == [] then s else Run(Next(s, actions[0]), actions[1..])
  }

  type Requests = map<Id, Request>
  type Approvals = map<Id, Approval>

  // What a row says about the history of its authorization.
  ghost predicate RowInv(id: Id, r: Row, created: Requests, approvals: Approvals) {
    && id in created && r.request == created[id] && r.request.id == id
    && ((r.status.Pending? || r.status.Denied?) ==> id !in approvals)
    && ((r.status.Approved? || r.status.Consumed?) ==> id in approvals && r.subjectSub == Some(approvals[id].subject))
    && r.approvedAt == if id in approvals then Some(approvals[id].at) else None
  }

  // What a loaded snapshot still says, however stale it is.
  ghost predicate SnapshotInv(r: Row, created: Requests, approvals: Approvals) {
    && r.request.id in created && r.request == created[r.request.id]
    && (r.status.Approved? ==> r.request.id in approvals && r.subjectSub == Some(approvals[r.request.id].subject))
  }

  ghost predicate PollInv(p: Poll, created: Requests, approvals: Approvals) {
    && SnapshotInv(p.record, created, approvals)
    && (p.Recorded? ==> p.record.status.Approved? && p.now < p.record.request.expiresAt)
  }

  /** A token session that the record, its single approval and the winning poll account for. */
  ghost predicate Accounted(e: Issued, created: Requests, approvals: Approvals) {
    && e.device in created && e.device in approvals
    && e.at < created[e.device].expiresAt
    && e.session == Session(e.session.id, created[e.device].clientID, approvals[e.device].subject,
                            created[e.device].scope, created[e.device].resource)
  }

  /** An approval made from pending, in time, by a real subject. */
  ghost predicate Proper(id: Id, a: Approval, created: Requests) {
    && id in created
    && a.prior.Pending? && a.at < created[id].expiresAt && !Blank(a.subject)
  }

  ghost predicate CreatedInv(created: Requests) {
    forall id <- created :: created[id].id == id
  }

  ghost predicate TableInv(table: Table, created: Requests, approvals: Approvals) {
    forall id <- table :: RowInv(id, table[id], created, approvals)
  }

  ghost predicate ApprovalsInv(created: Requests, approvals: Approvals) {
    forall id <- approvals :: Proper(id, approvals[id], created)
  }

  ghost predicate PollsInv(polls: map<nat, Poll>, created: Requests, approvals: Approvals) {
    forall h <- polls :: PollInv(polls[h], created, approvals)
  }

  ghost predicate VerificationsInv(verifications: map<nat, Verification>, created: Requests, approvals: Approvals) {
    forall h <- verifications :: SnapshotInv(verifications[h].record, created, approvals) &&
      !Blank(verifications[h].subject)
  }

  ghost predicate IssuedInv(issued: seq<Issued>, created: Requests, approvals: Approvals) {
    forall i :: 0 <= i < |issued| ==> Accounted(issued[i], created, approvals)
  }

  ghost predicate SpentInv(issued: seq<Issued>, table: Table) {
    forall i :: 0 <= i < |issued| && issued[i].device in table ==> table[issued[i].device].status.Consumed?
  }

  ghost predicate OncePerDevice(issued: seq<Issued>) {
    forall i, j :: 0 <= i < j < |issued| ==> issued[i].device != issued[j].device
  }

  ghost predicate Inv(s: State) {
    && CreatedInv(s.created)
    && TableInv(s.table, s.created, s.approvals)
    && ApprovalsInv(s.created, s.approvals)
    && PollsInv(s.polls, s.created, s.approvals)
    && VerificationsInv(s.verifications, s.created, s.approvals)
    && IssuedInv(s.issued, s.created, s.approvals)
    && SpentInv(s.issued, s.table)
    && OncePerDevice(s.issued)
  }

  // A change of a row that neither grants nor approves: polling, denial, expiry.
  ghost predicate Drifts(r: Row, r': Row) {
    && r'.request == r.request && r'.subjectSub == r.subjectSub && r'.approvedAt == r.approvedAt
    && (r'.status == r.status || r'.status.Expired? || (r.status.Pending? && r'.status.Denied?))
    && (Terminal(r.status) ==> r'.status == r.status)
  }

  ghost predicate TableDrifts(table: Table, table': Table) {
    forall id <- table' :: id in table && Drifts(table[id], table'[id])
  }

  lemma PollDrifts(table: Table, r: Row, now: Time)
    ensures TableDrifts(table, RecordPoll(table, r, now))
  {
  }

  lemma DriftKeepsTable(table: Table, table': Table, created: Requests, approvals: Approvals, issued: seq<Issued>)
    requires TableDrifts(table, table')
    requires TableInv(table, created, approvals) && SpentInv(issued, table)
    ensures TableInv(table', created, approvals) && SpentInv(issued, table')
    ensures TableExtends(created, table, table')
  {
    forall id <- table | Terminal(table[id].status) && id in table' ensures table'[id].status == table[id].status {
      assert Drifts(table[id], table'[id]);
    }
    forall id <- table' ensures RowInv(id, table'[id], created, approvals) {
      assert Drifts(table[id], table'[id]) && RowInv(id, table[id], created, approvals);
    }
    forall i | 0 <= i < |issued| && issued[i].device in table' ensures table'[issued[i].device].status.Consumed? {
      assert Drifts(table[issued[i].device], table'[issued[i].device]);
    }
  }

  // Snapshots, approvals and sessions survive when the history grows, unless a live snapshot's subject changes.
  lemma HistoryGrows(s: State, created: Requests, approvals: Approvals)
    requires Inv(s)
    requires forall id <- s.created :: id in created && created[id] == s.created[id]
    requires forall id <- s.approvals :: id in approvals && approvals[id] == s.approvals[id]
    ensures PollsInv(s.polls, created, approvals)
    ensures VerificationsInv(s.verifications, created, approvals)
    ensures IssuedInv(s.issued, created, approvals)
  {
    forall h <- s.polls ensures PollInv(s.polls[h], created, approvals) {
      assert PollInv(s.polls[h], s.created, s.approvals);
    }
    forall h <- s.verifications ensures SnapshotInv(s.verifications[h].record, created, approvals) {
      assert SnapshotInv(s.verifications[h].record, s.created, s.approvals);
    }
    forall i | 0 <= i < |s.issued| ensures Accounted(s.issued[i], created, approvals) {
      assert Accounted(s.issued[i], s.created, s.approvals);
    }
  }

  lemma CreateKeepsInv(s: State, r: Row)
    requires Inv(s)
    ensures Inv(CreateStep(s, r)) && Extends(s, CreateStep(s, r))
  {
    var t := CreateStep(s, r);
    if FreshRequest(s, r.request) {
      HistoryGrows(s, t.created, t.approvals);
      assert TableInv(t.table, t.created, t.approvals) by {
        forall id <- t.table ensures RowInv(id, t.table[id], t.created, t.approvals) {
          if id in s.table { assert RowInv(id, s.table[id], s.created, s.approvals); }
          if id in s.approvals { assert Proper(id, s.approvals[id], s.created); }
        }
      }
      assert ApprovalsInv(t.created, t.approvals) by {
        forall id <- t.approvals ensures Proper(id, t.approvals[id], t.created) {
          assert Proper(id, s.approvals[id], s.created);
        }
      }
      assert SpentInv(t.issued, t.table) by {
        forall i | 0 <= i < |t.issued| ensures Accounted(t.issued[i], s.created, s.approvals) {
        }
      }
    }
  }

  lemma ApproveKeepsTable(s: State, id: Id, subject: string, now: Time)
    requires Inv(s) && Approve(s.table, id, subject, now).1
    ensures id !in s.approvals && id in s.created && now < s.created[id].expiresAt
    ensures TableInv(Approve(s.table, id, subject, now).0, s.created,
            s.approvals[id := Approval(subject, now, s.table[id].status)])
    ensures SpentInv(s.issued, Approve(s.table, id, subject, now).0)
    ensures TableExtends(s.created, s.table, Approve(s.table, id, subject, now).0)
  {
    var table' := Approve(s.table, id, subject, now).0;
    var approvals' := s.approvals[id := Approval(subject, now, s.table[id].status)];
    assert RowInv(id, s.table[id], s.created, s.approvals);
    forall other <- table' ensures RowInv(other, table'[other], s.created, approvals') {
      assert RowInv(other, s.table[other], s.created, s.approvals);
    }
  }

  lemma ApprovalsGrow(created: Requests, approvals: Approvals, id: Id, a: Approval)
    requires ApprovalsInv(created, approvals) && Proper(id, a, created)
    ensures ApprovalsInv(created, approvals[id := a])
  {
    var grown := approvals[id := a];
    forall other <- grown ensures Proper(other, grown[other], created) {
      if other != id { assert Proper(other, approvals[other], created); }
    }
  }

  lemma ApprovedKeepsInv(s: State, id: Id, subject: string, now: Time)
    requires Inv(s) && Approve(s.table, id, subject, now).1 && !Blank(subject)
    ensures var t := s.(table := Approve(s.table, id, subject, now).0,
                        approvals := s.approvals[id := Approval(subject, now, s.table[id].status)]);
            Inv(t) && Extends(s, t)
  {
    var approvals' := s.approvals[id := Approval(subject, now, s.table[id].status)];
    ApproveKeepsTable(s, id, subject, now);
    ApprovalsGrow(s.created, s.approvals, id, approvals'[id]);
    HistoryGrows(s, s.created, approvals');
  }

  lemma ApproveKeepsInv(s: State, h: nat, authorized: bool)
    requires Inv(s)
    ensures Inv(ApproveStep(s, h, authorized)) && Extends(s, ApproveStep(s, h, authorized))
  {
    var t := ApproveStep(s, h, authorized);
    if t.approvals != s.approvals {
      var v := s.verifications[h];
      ApprovedKeepsInv(s, v.record.request.id, v.subject, v.now);
    }
  }

  lemma ConsumeKeepsTable(table: Table, id: Id, now: Time, created: Requests, approvals: Approvals, issued: seq<Issued>)
    requires TableInv(table, created, approvals) && SpentInv(issued, table)
    ensures TableInv(Consume(table, id, now).0, created, approvals) && SpentInv(issued, Consume(table, id, now).0)
  {
    var table' := Consume(table, id, now).0;
    forall other <- table' ensures RowInv(other, table'[other], created, approvals) {
      assert RowInv(other, table[other], created, approvals);
    }
  }

  lemma ExchangeKeepsInv(s: State, h: nat, authorized: bool, persisted: bool, sessionID: nat)
    requires Inv(s)
    ensures Inv(ExchangeStep(s, h, authorized, persisted, sessionID))
    ensures Extends(s, ExchangeStep(s, h, authorized, persisted, sessionID))
  {
    var t := ExchangeStep(s, h, authorized, persisted, sessionID);
    if t.issued != s.issued {
      var r := s.polls[h].record;
      assert PollInv(s.polls[h], s.created, s.approvals);
      IssueKeepsInv(s, r, s.polls[h].now, sessionID);
    }
  }

  // An approved snapshot whose row can still be consumed has not been exchanged before.
  lemma IssueKeepsInv(s: State, r: Row, now: Time, sessionID: nat)
    requires Inv(s) && SnapshotInv(r, s.created, s.approvals) && r.status.Approved? && now < r.request.expiresAt
    requires Consume(s.table, r.request.id, now).1
    ensures var table := Consume(s.table, r.request.id, now).0;
            var issued := s.issued + [Issued(r.request.id, SessionFor(r, sessionID), now)];
            && TableInv(table, s.created, s.approvals) && SpentInv(issued, table)
            && TableExtends(s.created, s.table, table)
            && IssuedInv(issued, s.created, s.approvals) && OncePerDevice(issued)
  {
    ConsumeKeepsTable(s.table, r.request.id, now, s.created, s.approvals, s.issued);
    IssuedGrows(s, Issued(r.request.id, SessionFor(r, sessionID), now));
  }

  lemma IssuedGrows(s: State, e: Issued)
    requires Inv(s) && Accounted(e, s.created, s.approvals)
    requires forall i :: 0 <= i < |s.issued| ==> s.issued[i].device != e.device
    ensures IssuedInv(s.issued + [e], s.created, s.approvals)
    ensures OncePerDevice(s.issued + [e])
  {
    forall i | 0 <= i < |s.issued + [e]| ensures Accounted((s.issued + [e])[i], s.created, s.approvals) {
      if i < |s.issued| { assert Accounted(s.issued[i], s.created, s.approvals); }
    }
  }

  lemma WritePollKeepsInv(s: State, h: nat)
    requires Inv(s)
    ensures Inv(WritePollStep(s, h)) && Extends(s, WritePollStep(s, h))
  {
    if h in s.polls && s.polls[h].Loaded? {
      var p := s.polls[h];
      var t := WritePollStep(s, h);
      assert PollInv(p, s.created, s.approvals);
      PollDrifts(s.table, p.record, p.now);
      DriftKeepsTable(s.table, t.table, s.created, s.approvals, s.issued);
      forall g <- t.polls ensures PollInv(t.polls[g], s.created, s.approvals) {
        if g != h { assert PollInv(s.polls[g], s.created, s.approvals); }
      }
    }
  }

  lemma LookupIsSnapshot(s: State, r: Row)
    requires Inv(s)
    requires exists id <- s.table :: r == s.table[id]
    ensures SnapshotInv(r, s.created, s.approvals)
  {
    var id :| id in s.table && r == s.table[id];
    assert RowInv(id, r, s.created, s.approvals);
  }

  lemma LoadsKeepInv(s: State, h: nat, code: string, clientID: string, now: Time)
    requires Inv(s)
    ensures Inv(LoadPollStep(s, h, code, clientID, now)) && Inv(LoadVerificationStep(s, h, code, clientID, now))
  {
    var byDevice := FindByDeviceCode(s.table, code);
    if byDevice.Some? { LookupIsSnapshot(s, byDevice.value); }
    var byUser := FindByUserCode(s.table, code);
    if byUser.Some? { LookupIsSnapshot(s, byUser.value); }
  }

  lemma DriftKeepsInv(s: State, table: Table)
    requires Inv(s) && TableDrifts(s.table, table)
    ensures Inv(s.(table := table)) && Extends(s, s.(table := table))
  {
    DriftKeepsTable(s.table, table, s.created, s.approvals, s.issued);
  }

  lemma DenyKeepsInv(s: State, h: nat)
    requires Inv(s)
    ensures Inv(DenyStep(s, h)) && Extends(s, DenyStep(s, h))
  {
    DriftKeepsTable(s.table, DenyStep(s, h).table, s.created, s.approvals, s.issued);
  }

  predicate IsTokenAction(a: Action) {
    a.Create? || a.LoadPoll? || a.WritePoll? || a.Exchange?
  }

  lemma TokenActionKeepsInv(s: State, a: Action)
    requires Inv(s) && IsTokenAction(a)
    ensures Inv(Next(s, a)) && Extends(s, Next(s, a))
  {
    match a
    case Create(r) => CreateKeepsInv(s, r);
    case Exchange(h, authorized, persisted, sessionID) => ExchangeKeepsInv(s, h, authorized, persisted, sessionID);
    case WritePoll(h) => WritePollKeepsInv(s, h);
    case LoadPoll(h, code, clientID, now) => LoadsKeepInv(s, h, code, clientID, now);
  }

  lemma NextKeepsInv(s: State, a: Action)
    requires Inv(s)
    ensures Inv(Next(s, a)) && Extends(s, Next(s, a))
  {
    if IsTokenAction(a) {
      TokenActionKeepsInv(s, a);
    } else {
      OtherActionKeepsInv(s, a);
    }
  }

  lemma OtherActionKeepsInv(s: State, a: Action)
    requires Inv(s) && !IsTokenAction(a)
    ensures Inv(Next(s, a)) && Extends(s, Next(s, a))
  {
    match a
    case ApproveDevice(h, authorized) => ApproveKeepsInv(s, h, authorized);
    case LoadVerification(h, code, subject, now) => LoadsKeepInv(s, h, code, subject, now);
    case DenyDevice(h) => DenyKeepsInv(s, h);
    case Expire(now) => CleanupKeepsInv(s, now);
    case PruneRows(cutoff) => CleanupKeepsInv(s, cutoff);
  }

  lemma CleanupKeepsInv(s: State, at: Time)
    requires Inv(s)
    ensures var t := s.(table := MarkExpired(s.table, at)); Inv(t) && Extends(s, t)
    ensures var t := s.(table := Prune(s.table, at)); Inv(t) && Extends(s, t)
  {
    DriftKeepsInv(s, MarkExpired(s.table, at));
    DriftKeepsInv(s, Prune(s.table, at));
  }

  lemma {:induction false} RunKeepsInv(s: State, actions: seq<Action>)
    requires Inv(s)
    ensures Inv(Run(s, actions))
    decreases |actions|
  {
    if actions != [] {
      NextKeepsInv(s, actions[0]);
      RunKeepsInv(Next(s, actions[0]), actions[1..]);
    }
  }

  /** Section 3.5 of RFC 8628 over every interleaving: an authorization yields at most one session, only
      after it was approved from pending, only for a poll whose clock reading is before expiry, and the
      session names exactly the client, subject, scope and resource of the record. */
  lemma AtMostOneSession(actions: seq<Action>)
    ensures var s := Run(Init, actions);
      && (forall i, j :: 0 <= i < j < |s.issued| ==> s.issued[i].device != s.issued[j].device)
      && (forall i :: 0 <= i < |s.issued| ==>
            && Accounted(s.issued[i], s.created, s.approvals)
            && Proper(s.issued[i].device, s.approvals[s.issued[i].device], s.created))
  {
    RunKeepsInv(Init, actions);
  }

  // What later steps may not undo: requests, approvals and sessions only accumulate, and a terminal row
  // keeps its status until it is pruned, after which its identifier never returns.
  ghost predicate TableExtends(created: Requests, table: Table, table': Table) {
    && (forall id <- created :: id !in table ==> id !in table')
    && (forall id <- table :: Terminal(table[id].status) && id in table' ==> table'[id].status == table[id].status)
  }

  ghost predicate Extends(s: State, t: State) {
    && (forall id <- s.created :: id in t.created && t.created[id] == s.created[id])
    && (forall id <- s.approvals :: id in t.approvals && t.approvals[id] == s.approvals[id])
    && s.issued <= t.issued
    && TableExtends(s.created, s.table, t.table)
  }

  lemma ExtendsIsTransitive(s: State, t: State, u: State)
    requires Inv(s) && Extends(s, t) && Extends(t, u)
    ensures Extends(s, u)
  {
    forall id <- s.created | id !in s.table ensures id !in u.table {
      assert id in t.created && id !in t.table;
    }
    forall id <- s.table | Terminal(s.table[id].status) && id in u.table
      ensures u.table[id].status == s.table[id].status {
      assert RowInv(id, s.table[id], s.created, s.approvals);
      assert id in t.created;
      assert id in t.table;
    }
  }

  /** Denied, expired and consumed are final, an approval is never replaced, and a deleted authorization never comes
      back. */
  lemma {:induction false} RunExtends(s: State, actions: seq<Action>)
    requires Inv(s)
    ensures Extends(s, Run(s, actions))
    decreases |actions|
  {
    if actions != [] {
      var t := Next(s, actions[0]);
      NextKeepsInv(s, actions[0]);
      RunExtends(t, actions[1..]);
      ExtendsIsTransitive(s, t, Run(t, actions[1..]));
    }
  }
}
