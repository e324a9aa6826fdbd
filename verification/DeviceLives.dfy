/** What becomes of a device authorization over a run: which step puts it into which status, and what polls are told. */
module DeviceLives {
  import opened Wrappers
  import opened GoStrings
  import opened DeviceTable
  import opened DeviceGrant

  // The steps that change the status of an authorization.

  predicate IsOpen(s: State, id: Id, now: Time) {
    id in s.table && s.table[id].status.Pending? && now < s.table[id].request.expiresAt
  }

  predicate Denies(s: State, a: Action, id: Id) {
    a.DenyDevice? && a.handler in s.verifications
    && s.verifications[a.handler].record.request.id == id && IsOpen(s, id, s.verifications[a.handler].now)
  }

  predicate Approves(s: State, a: Action, id: Id) {
    a.ApproveDevice? && a.handler in s.verifications && a.authorized
    && var v := s.verifications[a.handler];
       v.record.request.id == id && IsOpen(s, id, v.now) && TrimSpace(v.subject) == v.subject
  }

  predicate Redeems(s: State, a: Action, id: Id) {
    a.Exchange? && a.handler in s.polls && s.polls[a.handler].Recorded? && a.authorized && a.persisted
    && var p := s.polls[a.handler];
       && p.record.request.id == id && p.record.subjectSub.Some?
       && id in s.table && s.table[id].status.Approved? && s.table[id].subjectSub.Some?
       && p.now < s.table[id].request.expiresAt
  }

  /** Expiry comes from the cleanup, or from a poll that finds its own authorization expired. */
  predicate ExpiresAll(s: State, a: Action, now: Time) {
    || a == Expire(now)
    || (a.WritePoll? && a.handler in s.polls
        && var p := s.polls[a.handler];
           p.Loaded? && p.now == now && (now >= p.record.request.expiresAt || p.record.status.Expired?))
  }

  ghost predicate Expires(s: State, a: Action, id: Id) {
    exists now :: ExpiresAll(s, a, now) && id in s.table && now >= s.table[id].request.expiresAt
                  && (s.table[id].status.Pending? || s.table[id].status.Approved?)
  }

  /** The state diagram: what each status change takes, and what it notes. Only an approval changes the subject. */
  ghost predicate Moves(s: State, a: Action, id: Id, r: Row, r': Row) {
    && r'.status == (if Denies(s, a, id) then Denied
                     else if Approves(s, a, id) then Approved
                     else if Redeems(s, a, id) then Consumed
                     else if Expires(s, a, id) then Expired
                     else r.status)
    && r'.subjectSub == (if Approves(s, a, id) then Some(s.verifications[a.handler].subject) else r.subjectSub)
    && r'.deniedAt == (if Denies(s, a, id) then Some(s.verifications[a.handler].now) else r.deniedAt)
    && r'.consumedAt == if Redeems(s, a, id) then Some(s.polls[a.handler].now) else r.consumedAt
  }

  lemma PollMoves(s: State, h: nat, id: Id)
    requires id in s.table
    ensures Moves(s, WritePoll(h), id, s.table[id], WritePollStep(s, h).table[id])
  {
    if h in s.polls && s.polls[h].Loaded? {
      var p := s.polls[h];
      assert ExpiresAll(s, WritePoll(h), p.now) <==> Decide(p.record, p.now).ExpiredToken?;
    }
  }

  lemma VerificationMoves(s: State, a: Action, id: Id)
    requires id in s.table && (a.ApproveDevice? || a.DenyDevice?)
    ensures Moves(s, a, id, s.table[id], Next(s, a).table[id])
  {
  }

  /** Every step, for an authorization it neither creates nor prunes. */
  lemma StatusStep(s: State, a: Action, id: Id)
    requires id in s.table && id in Next(s, a).table
    requires a.Create? ==> !FreshRequest(s, a.row.request) || a.row.request.id != id
    ensures Moves(s, a, id, s.table[id], Next(s, a).table[id])
  {
    if a.WritePoll? {
      PollMoves(s, a.handler, id);
    } else if a.ApproveDevice? || a.DenyDevice? {
      VerificationMoves(s, a, id);
    } else if a.Expire? {
      assert ExpiresAll(s, a, a.now);
    }
  }

  // Runs, from the front.

  lemma {:induction false} RunAppend(s: State, actions: seq<Action>, a: Action)
    ensures Run(s, actions + [a]) == Next(Run(s, actions), a)
    decreases |actions|
  {
    if actions == [] {
      assert [] + [a] == [a] && [a][1..] == [];
      assert Run(Next(s, a), []) == Next(s, a);
    } else {
      assert (actions + [a])[1..] == actions[1..] + [a];
      RunAppend(Next(s, actions[0]), actions[1..], a);
    }
  }

  ghost function At(actions: seq<Action>, n: nat): State
    requires n <= |actions|
  {
    Run(Init, actions[..n])
  }

  lemma AtStep(actions: seq<Action>, n: nat)
    requires n < |actions|
    ensures At(actions, n + 1) == Next(At(actions, n), actions[n])
  {
    assert actions[..n + 1] == actions[..n] + [actions[n]];
    RunAppend(Init, actions[..n], actions[n]);
  }

  lemma AtKeepsInv(actions: seq<Action>, n: nat)
    requires n <= |actions|
    ensures Inv(At(actions, n))
  {
    RunKeepsInv(Init, actions[..n]);
  }

  /** When the authorization was denied, if it was. */
  ghost function Denial(actions: seq<Action>, n: nat, id: Id): Option<Time>
    requires n <= |actions|
  {
    if n == 0 then None else DenialAfter(Denial(actions, n - 1, id), At(actions, n - 1), actions[n - 1], id)
  }

  ghost function DenialAfter(denial: Option<Time>, s: State, a: Action, id: Id): Option<Time> {
    if Denies(s, a, id) then Some(s.verifications[a.handler].now) else denial
  }

  predicate HasSession(issued: seq<Issued>, id: Id) {
    exists i :: 0 <= i < |issued| && issued[i].device == id
  }

  /** What a denial, or its absence, means for the state. */
  ghost predicate DenialHolds(s: State, id: Id, denial: Option<Time>) {
    && (denial.Some? ==> id in s.created && !HasSession(s.issued, id))
    && (id in s.table ==>
          && s.table[id].deniedAt == denial && (s.table[id].status.Denied? <==> denial.Some?)
          && (s.table[id].status.Consumed? <==> HasSession(s.issued, id))
          && (s.table[id].consumedAt.Some? <==> HasSession(s.issued, id)))
  }

  lemma OnlyExchangeIssues(s: State, a: Action)
    requires !a.Exchange?
    ensures Next(s, a).issued == s.issued
  {
  }

  lemma HasSessionAppend(issued: seq<Issued>, e: Issued, id: Id)
    ensures HasSession(issued + [e], id) <==> HasSession(issued, id) || e.device == id
  {
    if HasSession(issued, id) {
      var i :| 0 <= i < |issued| && issued[i].device == id;
      assert (issued + [e])[i].device == id;
    }
    assert (issued + [e])[|issued|] == e;
  }

  lemma SessionStep(s: State, a: Action, id: Id)
    requires Inv(s)
    ensures HasSession(Next(s, a).issued, id) <==> HasSession(s.issued, id) || Redeems(s, a, id)
  {
    if !a.Exchange? {
      OnlyExchangeIssues(s, a);
    } else if Next(s, a).issued != s.issued {
      var p := s.polls[a.handler];
      assert PollInv(p, s.created, s.approvals);
      HasSessionAppend(s.issued, Issued(p.record.request.id, SessionFor(p.record, a.sessionID), p.now), id);
    }
  }

  // What a move does to the two statuses of interest is what the history wants.
  lemma DenialMoves(s: State, t: State, a: Action, id: Id, denial: Option<Time>)
    requires DenialHolds(s, id, denial) && id in s.table && id in t.created
    requires HasSession(t.issued, id) <==> HasSession(s.issued, id) || Redeems(s, a, id)
    requires id in t.table ==> Moves(s, a, id, s.table[id], t.table[id])
    ensures DenialHolds(t, id, DenialAfter(denial, s, a, id))
  {
  }

  lemma StoredDenialStep(s: State, a: Action, id: Id, denial: Option<Time>)
    requires Inv(s) && DenialHolds(s, id, denial) && id in s.table
    ensures DenialHolds(Next(s, a), id, DenialAfter(denial, s, a, id))
  {
    var t := Next(s, a);
    assert RowInv(id, s.table[id], s.created, s.approvals);
    SessionStep(s, a, id);
    CreatedGrows(s, a, id);
    if id in t.table { StatusStep(s, a, id); }
    DenialMoves(s, t, a, id, denial);
  }

  lemma CreatedGrows(s: State, a: Action, id: Id)
    requires id in s.created
    ensures id in Next(s, a).created
  {
  }

  lemma SessionIsOfCreated(s: State, id: Id)
    requires Inv(s) && HasSession(s.issued, id)
    ensures id in s.created
  {
    var i :| 0 <= i < |s.issued| && s.issued[i].device == id;
    assert Accounted(s.issued[i], s.created, s.approvals);
  }

  lemma AppearsPending(s: State, a: Action, id: Id)
    requires id !in s.table && id in Next(s, a).table
    ensures var r := Next(s, a).table[id];
            r.status.Pending? && r.deniedAt.None? && r.consumedAt.None? && id !in s.created
  {
  }

  lemma AbsentDenialStep(s: State, a: Action, id: Id, denial: Option<Time>)
    requires Inv(s) && DenialHolds(s, id, denial) && id !in s.table
    ensures DenialHolds(Next(s, a), id, DenialAfter(denial, s, a, id))
  {
    SessionStep(s, a, id);
    if HasSession(s.issued, id) { SessionIsOfCreated(s, id); }
    if id in s.created { CreatedGrows(s, a, id); }
    if id in Next(s, a).table { AppearsPending(s, a, id); }
  }

  lemma {:induction false} DenialAt(actions: seq<Action>, n: nat, id: Id)
    requires n <= |actions|
    ensures DenialHolds(At(actions, n), id, Denial(actions, n, id))
  {
    if n == 0 {
      assert actions[..0] == [];
    } else {
      var s, a, denial := At(actions, n - 1), actions[n - 1], Denial(actions, n - 1, id);
      DenialAt(actions, n - 1, id);
      AtKeepsInv(actions, n - 1);
      AtStep(actions, n - 1);
      if id in s.table { StoredDenialStep(s, a, id, denial); } else { AbsentDenialStep(s, a, id, denial); }
    }
  }

  /** Over every interleaving: a stored authorization reads denied exactly when a user has denied it, and consumed
      exactly when a session was issued for it, and it carries the times of its approval and denial. */
  lemma StatusTellsHistory(actions: seq<Action>, id: Id)
    requires id in Run(Init, actions).table
    ensures var s := Run(Init, actions);
            var r := s.table[id];
            && (r.status.Denied? <==> Denial(actions, |actions|, id).Some?)
            && (r.status.Consumed? <==> HasSession(s.issued, id))
            && (r.consumedAt.Some? <==> HasSession(s.issued, id))
            && r.deniedAt == Denial(actions, |actions|, id)
            && r.approvedAt == if id in s.approvals then Some(s.approvals[id].at) else None
  {
    assert actions[..|actions|] == actions;
    DenialAt(actions, |actions|, id);
    AtKeepsInv(actions, |actions|);
    assert RowInv(id, Run(Init, actions).table[id], Run(Init, actions).created, Run(Init, actions).approvals);
  }

  /** A denied authorization never yields a session, and until it is pruned its answerable polls are told so. */
  lemma DeniedIsRefused(actions: seq<Action>, id: Id, now: Time)
    requires Denial(actions, |actions|, id).Some?
    ensures var s := Run(Init, actions);
            && !HasSession(s.issued, id)
            && (id in s.table && Answerable(s.table[id], now) ==> Decide(s.table[id], now) == AccessDenied)
  {
    assert actions[..|actions|] == actions;
    DenialAt(actions, |actions|, id);
  }

  // One authorization from its creation to its end, undisturbed.

  /** A new authorization is pending for its first poll. */
  lemma CreatedIsPending(table: Table, r: Row, now: Time)
    requires Insertable(table, r.request) && now < r.request.expiresAt
    ensures var t := Insert(table, r).0;
            r.request.id in t && t[r.request.id].request == r.request
            && Decide(t[r.request.id], now) == AuthorizationPending
  {
  }

  /** Denied at one time, it is refused at any answerable poll. */
  lemma DeniedPollsAreRefused(table: Table, id: Id, at: Time)
    requires Deny(table, id, at).1
    ensures WillAnswer(Deny(table, id, at).0, id, AccessDenied)
  {
  }

  /** Approved, it is exchanged at any answerable poll. */
  lemma ApprovedPollsProceed(table: Table, id: Id, subject: string, at: Time)
    requires Approve(table, id, subject, at).1 && !Blank(subject)
    ensures WillAnswer(Approve(table, id, subject, at).0, id, Proceed)
    ensures Approve(table, id, subject, at).0[id].subjectSub == Some(subject)
  {
  }

  /** Approved for a subject, its next answerable poll is exchanged for that subject's session, and the ones after that
      are told that it is used. */
  lemma ApprovedIsRedeemedOnce(table: Table, id: Id, subject: string, at: Time, now: Time, later: Time, sessionID: nat)
    requires Approve(table, id, subject, at).1 && !Blank(subject) && table[id].request.id == id
    requires var r := Approve(table, id, subject, at).0[id];
             Answerable(r, now) && later < r.request.expiresAt && later - now >= r.interval
    ensures var r := Approve(table, id, subject, at).0[id];
            var polled := RecordPoll(Approve(table, id, subject, at).0, r, now);
            var used := Consume(polled, id, now);
            && Decide(r, now) == Proceed && SessionFor(r, sessionID).subjectSub == subject
            && used.1 && Decide(used.0[id], later) == AlreadyConsumed
  {
  }

  /** A poll that is too early costs five seconds more than the interval, counted from that poll. */
  lemma EarlyPollIsSlowedDown(table: Table, id: Id, now: Time, later: Time)
    requires id in table && table[id].request.id == id && table[id].lastPollAt.Some?
    requires var r := table[id];
             now - r.lastPollAt.value < r.interval && !r.status.Expired? && later < r.request.expiresAt && now <= later
    ensures var polled := RecordPoll(table, table[id], now)[id];
            Decide(polled, later).TooFast? <==> later < now + table[id].interval + 5 * SECOND
  {
  }

  // Which polls a row counts.

  /** A poll that finds its authorization unexpired, answered or throttled. */
  predicate Counts(s: State, a: Action, id: Id) {
    a.WritePoll? && a.handler in s.polls
    && var p := s.polls[a.handler];
       p.Loaded? && p.record.request.id == id && p.now < p.record.request.expiresAt && !p.record.status.Expired?
  }

  ghost function PollsOf(actions: seq<Action>, n: nat, id: Id): nat
    requires n <= |actions|
  {
    if n == 0 then 0
    else PollsOf(actions, n - 1, id) + if Counts(At(actions, n - 1), actions[n - 1], id) then 1 else 0
  }

  lemma CountStep(s: State, a: Action, id: Id)
    requires id in s.table && id in Next(s, a).table
    requires a.Create? ==> !FreshRequest(s, a.row.request) || a.row.request.id != id
    ensures Next(s, a).table[id].pollCount == s.table[id].pollCount + if Counts(s, a, id) then 1 else 0
  {
    if a.WritePoll? && a.handler in s.polls && s.polls[a.handler].Loaded? {
      var p := s.polls[a.handler];
      assert Counts(s, a, id) ==> !Decide(p.record, p.now).ExpiredToken?;
    }
  }

  lemma NotCreatedNotCounted(s: State, a: Action, id: Id)
    requires Inv(s) && id !in s.created && id !in s.table
    ensures !Counts(s, a, id)
    ensures id in Next(s, a).table ==> Next(s, a).table[id].pollCount == 0
  {
    if a.WritePoll? && a.handler in s.polls { assert PollInv(s.polls[a.handler], s.created, s.approvals); }
  }

  lemma StoredIsCreated(s: State, id: Id)
    requires Inv(s) && id in s.table
    ensures id in s.created
  {
    assert RowInv(id, s.table[id], s.created, s.approvals);
  }

  ghost predicate CountHolds(s: State, id: Id, polls: nat) {
    && (id in s.table ==> s.table[id].pollCount == polls)
    && (id !in s.created ==> polls == 0)
  }

  lemma CountHoldsNext(s: State, a: Action, id: Id, polls: nat)
    requires Inv(s) && CountHolds(s, id, polls)
    ensures CountHolds(Next(s, a), id, polls + if Counts(s, a, id) then 1 else 0)
  {
    if id in s.table { StoredIsCreated(s, id); }
    if id !in s.created {
      NotCreatedNotCounted(s, a, id);
    } else {
      CreatedGrows(s, a, id);
      if id in Next(s, a).table && id !in s.table { AppearsPending(s, a, id); }
      if id in Next(s, a).table { CountStep(s, a, id); }
    }
  }

  /** Over every interleaving, a stored authorization has counted each of these polls once. */
  lemma {:induction false} PollsAreCounted(actions: seq<Action>, n: nat, id: Id)
    requires n <= |actions|
    ensures CountHolds(At(actions, n), id, PollsOf(actions, n, id))
  {
    if n > 0 {
      PollsAreCounted(actions, n - 1, id);
      AtKeepsInv(actions, n - 1);
      AtStep(actions, n - 1);
      CountHoldsNext(At(actions, n - 1), actions[n - 1], id, PollsOf(actions, n - 1, id));
    }
  }

  // How long a row is kept.

  ghost function TimeOf(s: State, a: Action): Time {
    match a
    case Create(row) => row.request.createdAt
    case WritePoll(h) => if h in s.polls then s.polls[h].now else 0
    case Exchange(h, _, _, _) => if h in s.polls then s.polls[h].now else 0
    case ApproveDevice(h, _) => if h in s.verifications then s.verifications[h].now else 0
    case DenyDevice(h) => if h in s.verifications then s.verifications[h].now else 0
    case Expire(now) => now
    case LoadPoll(_, _, _, now) => now
    case LoadVerification(_, _, _, now) => now
    case PruneRows(cutoff) => cutoff
  }

  predicate Touches(s: State, t: State, id: Id) {
    id in t.table && (id !in s.table || s.table[id] != t.table[id])
  }

  lemma TouchIsStamped(s: State, a: Action, id: Id)
    requires Touches(s, Next(s, a), id)
    ensures Next(s, a).table[id].updatedAt == TimeOf(s, a)
  {
  }

  /** The time of the last step that changed the row. */
  ghost function LastTouch(actions: seq<Action>, n: nat, id: Id): Time
    requires n <= |actions|
  {
    if n == 0 then 0
    else if Touches(At(actions, n - 1), Next(At(actions, n - 1), actions[n - 1]), id) then
      TimeOf(At(actions, n - 1), actions[n - 1])
    else LastTouch(actions, n - 1, id)
  }

  lemma {:induction false} StampTellsLastTouch(actions: seq<Action>, n: nat, id: Id)
    requires n <= |actions| && id in At(actions, n).table
    ensures At(actions, n).table[id].updatedAt == LastTouch(actions, n, id)
  {
    if n > 0 {
      var s := At(actions, n - 1);
      AtStep(actions, n - 1);
      if Touches(s, Next(s, actions[n - 1]), id) {
        TouchIsStamped(s, actions[n - 1], id);
      } else {
        StampTellsLastTouch(actions, n - 1, id);
      }
    }
  }

  /** Pruning removes an authorization exactly when it has ended and nothing has touched it after the cutoff. */
  lemma PrunedIff(actions: seq<Action>, cutoff: Time, id: Id)
    requires id in Run(Init, actions).table
    ensures var s := Run(Init, actions);
            id !in Next(s, PruneRows(cutoff)).table <==>
            && (s.table[id].status.Denied? || s.table[id].status.Expired? || s.table[id].status.Consumed?)
            && LastTouch(actions, |actions|, id) <= cutoff
  {
    assert actions[..|actions|] == actions;
    StampTellsLastTouch(actions, |actions|, id);
  }
}
