/** The pool of upstream sessions behind the SSE bridge (internal/edge/proxy.go). A session is named by the stream it
    owns, which stands for its address. */
module SessionPool {
  import opened Wrappers
  import opened Collections

  type Time = int
  type Stream = nat

  const MAX_SESSIONS := 128
  const IDLE_TIMEOUT := 600_000_000_000

  datatype Session = Session(stream: Stream, id: string, lastUsed: Time)

  type Pool = map<string, Session>

  predicate Keyed(pool: Pool) {
    forall id :: id in pool ==> pool[id].id == id
  }

  predicate Idle(s: Session, now: Time) {
    now - s.lastUsed > IDLE_TIMEOUT
  }

  function Streams(pool: Pool): set<Stream> {
    set id | id in pool :: pool[id].stream
  }

  function Active(pool: Pool, now: Time): Pool {
    map id | id in pool && !Idle(pool[id], now) :: pool[id]
  }

  /** The streams of the sessions that an `Active` pool has lost. */
  function IdleStreams(pool: Pool, now: Time): set<Stream> {
    set id | id in pool && Idle(pool[id], now) :: pool[id].stream
  }

  /** Some sessions are gone, none of them more recently used than one that stays. */
  predicate EvictsOldest(before: Pool, after: Pool) {
    && (forall id :: id in after ==> id in before && after[id] == before[id])
    && (forall e, k :: e in before && e !in after && k in after ==> before[e].lastUsed <= after[k].lastUsed)
  }

  /** Down to `max` sessions, and not further. */
  predicate EvictedTo(before: Pool, after: Pool, max: nat) {
    EvictsOldest(before, after) && |after| == if |before| <= max then |before| else max
  }

  predicate IsOldest(pool: Pool, id: string) {
    id in pool && forall j :: j in pool ==> pool[id].lastUsed <= pool[j].lastUsed
  }

  class Bridge {
    var sessions: Pool
    var closed: set<Stream>

    ghost predicate Valid()
      reads this
    {
      Keyed(sessions) && |sessions| <= MAX_SESSIONS
    }

    constructor ()
      ensures Valid() && sessions == map[] && closed == {}
    {
      sessions, closed := map[], {};
    }

    // Each of the following is one section under the bridge's lock; the sessions returned are closed after it.

    method PruneIdleSessions(now: Time) returns (expired: seq<Session>)
      requires Valid()
      modifies this`sessions
      ensures Valid() && sessions == Active(old(sessions), now)
      ensures forall s :: s in expired <==> exists id :: id in old(sessions) && old(sessions)[id] == s && Idle(s, now)
    {
      expired := [];
      var before, todo := sessions, sessions.Keys;
      while todo != {}
        invariant todo <= before.Keys && Keyed(before)
        invariant sessions == map id | id in before && (id in todo || !Idle(before[id], now)) :: before[id]
        invariant forall s :: s in expired <==>
                  exists id :: id in before && id !in todo && before[id] == s && Idle(s, now)
        decreases |todo|
      {
        var id :| id in todo;
        todo := todo - {id};
        if Idle(before[id], now) {
          sessions := sessions - {id};
          expired := expired + [before[id]];
        }
      }
      SmallerPool(sessions, before);
    }

    // The oldest session, if there is one.
    method Oldest() returns (oldest: Option<string>)
      ensures oldest.None? <==> sessions == map[]
      ensures oldest.Some? ==> IsOldest(sessions, oldest.value)
    {
      oldest := None;
      var todo := sessions.Keys;
      while todo != {}
        invariant todo <= sessions.Keys
        invariant oldest.None? <==> todo == sessions.Keys
        invariant oldest.Some? ==> oldest.value in sessions
        invariant oldest.Some? ==> forall j :: j in sessions && j !in todo ==>
                  sessions[oldest.value].lastUsed <= sessions[j].lastUsed
        decreases |todo|
      {
        var id :| id in todo;
        if oldest.None? || sessions[id].lastUsed < sessions[oldest.value].lastUsed { oldest := Some(id); }
        todo := todo - {id};
      }
    }

    method EvictOldestLocked(maxSessions: nat)
      requires Keyed(sessions)
      modifies this
      ensures Keyed(sessions) && EvictedTo(old(sessions), sessions, maxSessions)
      ensures closed == old(closed) + (set id | id in old(sessions) && id !in sessions :: old(sessions)[id].stream)
    {
      ghost var before := sessions;
      while |sessions| > maxSessions
        invariant Keyed(sessions) && EvictsOldest(before, sessions)
        invariant |sessions| >= if |before| <= maxSessions then |before| else maxSessions
        invariant |sessions| <= |before|
        invariant closed == old(closed) + set id | id in before && id !in sessions :: before[id].stream
        decreases |sessions|
      {
        var oldest := Oldest();
        if oldest.None? { return; }
        EvictStep(before, sessions, oldest.value);
        var session := sessions[oldest.value];
        sessions := sessions - {session.id};
        closed := closed + {session.stream};
      }
    }

    /** A request for an existing session: it is touched and returned, or the request fails. */
    method UseSession(id: string, now: Time) returns (session: Option<Session>)
      requires Valid()
      modifies this`sessions
      ensures Valid()
      ensures session.Some? <==> id in old(sessions)
      ensures sessions == match session
                          case Some(s) => old(sessions)[id := s]
                          case None => old(sessions)
      ensures session.Some? ==> session.value == old(sessions)[id].(lastUsed := now)
    {
      if id !in sessions { return None; }
      assert sessions[id := sessions[id].(lastUsed := now)].Keys == sessions.Keys;
      sessions := sessions[id := sessions[id].(lastUsed := now)];
      session := Some(sessions[id]);
    }

    /** A freshly opened session replaces the one under its id, and the oldest make room for it. */
    method AddSession(session: Session)
      requires Valid()
      modifies this
      ensures Valid() && EvictedTo(old(sessions)[session.id := session], sessions, MAX_SESSIONS)
      ensures closed == old(closed) + AddCloses(old(sessions), sessions, session)
    {
      if session.id in sessions { closed := closed + {sessions[session.id].stream}; }
      sessions := sessions[session.id := session];
      EvictOldestLocked(MAX_SESSIONS);
    }

    method TakeForDelete(id: string) returns (session: Option<Session>)
      requires Valid()
      modifies this`sessions
      ensures Valid() && sessions == old(sessions) - {id}
      ensures session == if id in old(sessions) then Some(old(sessions)[id]) else None
    {
      SmallerPool(sessions - {id}, sessions);
      if id !in sessions {
        assert sessions - {id} == sessions;
        return None;
      }
      session := Some(sessions[id]);
      sessions := sessions - {id};
    }

    /** Only if it is still the session under its id. */
    method TakeForRemoval(session: Session)
      requires Valid()
      modifies this`sessions
      ensures Valid()
      ensures sessions == Without(old(sessions), session)
    {
      SmallerPool(sessions - {session.id}, sessions);
      if session.id in sessions && sessions[session.id].stream == session.stream {
        sessions := sessions - {session.id};
      }
    }

    method TakeAll() returns (all: seq<Session>)
      requires Valid()
      modifies this`sessions
      ensures Valid() && sessions == map[]
      ensures forall s :: s in all <==> exists id :: id in old(sessions) && old(sessions)[id] == s
    {
      all := [];
      var todo := sessions.Keys;
      while todo != {}
        invariant todo <= sessions.Keys
        invariant forall s :: s in all <==> exists id :: id in sessions && id !in todo && sessions[id] == s
        decreases |todo|
      {
        var id :| id in todo;
        all := all + [sessions[id]];
        todo := todo - {id};
      }
      sessions := map[];
    }

    // The handlers, uninterrupted.

    method CloseSessions(list: seq<Session>)
      modifies this`closed
      ensures closed == old(closed) + set s | s in list :: s.stream
    {
      for i := 0 to |list|
        invariant closed == old(closed) + set s | s in list[..i] :: s.stream
      {
        assert list[..i + 1] == list[..i] + [list[i]];
        closed := closed + {list[i].stream};
      }
      assert list[..|list|] == list;
    }

    /** `dialled`: what opening an upstream session for this request yields, if it comes to that. */
    method SessionForRequest(id: string, initialize: bool, now: Time, dialled: Option<Session>)
      returns (r: Option<Session>)
      requires Valid()
      modifies this
      ensures Valid()
      ensures id != "" && !initialize ==>
                && (r.Some? <==> id in Active(old(sessions), now))
                && (r.Some? ==> r.value == old(sessions)[id].(lastUsed := now))
                && sessions == (if r.Some? then Active(old(sessions), now)[id := r.value]
                                else Active(old(sessions), now))
                && closed == old(closed) + IdleStreams(old(sessions), now)
      ensures id == "" || initialize ==>
                && r == dialled
                && closed == old(closed) + IdleStreams(old(sessions), now)
                             + (if r.Some? then AddCloses(Active(old(sessions), now), sessions, r.value) else {})
                && if r.None? then sessions == Active(old(sessions), now)
                   else EvictedTo(Active(old(sessions), now)[r.value.id := r.value], sessions, MAX_SESSIONS)
    {
      var before := sessions;
      var expired := PruneIdleSessions(now);
      CloseSessions(expired);
      forall t ensures t in IdleStreams(before, now) <==> exists s :: s in expired && s.stream == t {
        if t in IdleStreams(before, now) {
          var j :| j in before && Idle(before[j], now) && before[j].stream == t;
          assert before[j] in expired;
        }
      }
      if id != "" && !initialize {
        r := UseSession(id, now);
        return;
      }
      r := dialled;
      if r.Some? { AddSession(r.value); }
    }

    method HandleDelete(id: string)
      requires Valid()
      modifies this
      ensures Valid() && sessions == old(sessions) - {id}
      ensures closed == old(closed) + if id in old(sessions) then {old(sessions)[id].stream} else {}
    {
      var session := TakeForDelete(id);
      if session.Some? { CloseSessions([session.value]); }
    }

    /** Closes the session in any case, and takes it out only if it has not been replaced. */
    method RemoveSession(session: Session)
      requires Valid()
      modifies this
      ensures Valid() && closed == old(closed) + {session.stream}
      ensures sessions == Without(old(sessions), session)
    {
      TakeForRemoval(session);
      CloseSessions([session]);
    }

    method Close()
      requires Valid()
      modifies this
      ensures Valid() && sessions == map[] && closed == old(closed) + Streams(old(sessions))
    {
      var before := sessions;
      var all := TakeAll();
      CloseSessions(all);
      forall t ensures t in Streams(before) <==> exists s :: s in all && s.stream == t {
        if t in Streams(before) {
          var id :| id in before && before[id].stream == t;
          assert before[id] in all;
        }
      }
    }
  }

  /** The pool without the session, if it is still the one under its id. */
  function Without(pool: Pool, session: Session): Pool {
    if session.id in pool && pool[session.id].stream == session.stream then pool - {session.id} else pool
  }

  /** The streams closed by an insertion: the replaced one and the evicted. */
  function AddCloses(before: Pool, after: Pool, session: Session): set<Stream> {
    var inserted := before[session.id := session];
    (if session.id in before then {before[session.id].stream} else {})
    + set id | id in inserted && id !in after :: inserted[id].stream
  }

  lemma SmallerPool(small: Pool, large: Pool)
    requires forall id :: id in small ==> id in large
    ensures |small| <= |large|
  {
    SubsetsAreSmaller(small.Keys, large.Keys);
  }

  lemma EvictStep(before: Pool, now: Pool, oldest: string)
    requires EvictsOldest(before, now) && IsOldest(now, oldest)
    ensures EvictsOldest(before, now - {oldest}) && |now - {oldest}| == |now| - 1
    ensures (set id | id in before && id !in now - {oldest} :: before[id].stream) ==
            (set id | id in before && id !in now :: before[id].stream) + {now[oldest].stream}
  {
    assert (now - {oldest}).Keys == now.Keys - {oldest};
  }

  /** A session survives pruning exactly within ten minutes of its last use. */
  lemma PrunedAfterTenMinutes(pool: Pool, id: string, usedAt: Time, now: Time)
    requires id in pool
    ensures id in Active(pool[id := pool[id].(lastUsed := usedAt)], now) <==> now <= usedAt + 10 * 60 * 1_000_000_000
  {
  }

  // Who survives an eviction.

  predicate IsStrictlyNewest(pool: Pool, id: string) {
    id in pool && forall j :: j in pool && j != id ==> pool[j].lastUsed < pool[id].lastUsed
  }

  predicate IsStrictlyOldest(pool: Pool, id: string) {
    id in pool && forall j :: j in pool && j != id ==> pool[id].lastUsed < pool[j].lastUsed
  }

  /** A session used more recently than every other is never evicted. */
  lemma NewestSurvives(before: Pool, after: Pool, max: nat, id: string)
    requires EvictedTo(before, after, max) && max > 0 && IsStrictlyNewest(before, id)
    ensures id in after
  {
    assert |after| == 0 ==> |before| == 0;
    assert after != map[];
    var k :| k in after;
  }

  /** While there is room nobody goes; otherwise the strictly oldest does. */
  lemma EvictionIsMinimal(before: Pool, after: Pool, max: nat)
    requires EvictedTo(before, after, max)
    ensures |before| <= max ==> after == before
    ensures forall id :: IsStrictlyOldest(before, id) && id in after ==> |before| <= max
  {
    SubsetsAreSmaller(after.Keys, before.Keys);
    if |before| <= max { SubsetOfEqualSize(after.Keys, before.Keys); }
    forall id | IsStrictlyOldest(before, id) && id in after ensures |before| <= max {
      forall e | e in before ensures e in after {}
      assert after.Keys == before.Keys;
      assert after == before;
    }
  }

  /** A new session survives its own insertion, whichever sessions the eviction picks, if and only if it replaces one,
      there is room, or some other session was used before it was opened. */
  lemma NewSessionSurvivesIff(before: Pool, session: Session)
    requires |before| <= MAX_SESSIONS
    ensures (forall after :: EvictedTo(before[session.id := session], after, MAX_SESSIONS) ==> session.id in after)
            <==> || session.id in before || |before| < MAX_SESSIONS
                 || exists j :: j in before && before[j].lastUsed < session.lastUsed
  {
    var inserted := before[session.id := session];
    assert inserted.Keys == before.Keys + {session.id};
    if session.id in before || |before| < MAX_SESSIONS
       || exists j :: j in before && before[j].lastUsed < session.lastUsed
    {
      forall after | EvictedTo(inserted, after, MAX_SESSIONS) ensures session.id in after {
        SurvivesEviction(before, session, after);
      }
    } else {
      assert EvictedTo(inserted, before, MAX_SESSIONS);
    }
  }

  lemma SurvivesEviction(before: Pool, session: Session, after: Pool)
    requires |before| <= MAX_SESSIONS && EvictedTo(before[session.id := session], after, MAX_SESSIONS)
    requires || session.id in before || |before| < MAX_SESSIONS
             || exists j :: j in before && before[j].lastUsed < session.lastUsed
    ensures session.id in after
  {
    var inserted := before[session.id := session];
    assert inserted.Keys == before.Keys + {session.id};
    if session.id in before {
      assert inserted.Keys == before.Keys;
      EvictionIsMinimal(inserted, after, MAX_SESSIONS);
    } else if |before| < MAX_SESSIONS {
      EvictionIsMinimal(inserted, after, MAX_SESSIONS);
    } else {
      var j :| j in before && before[j].lastUsed < session.lastUsed;
      if session.id !in after {
        assert j !in after;
        assert after.Keys <= before.Keys - {j};
        SubsetsAreSmaller(after.Keys, before.Keys - {j});
      }
    }
  }

  /** So a full pool of sessions used since the new one was opened loses it for certain. */
  lemma NewSessionIsLostWhenAllOthersAreNewer(before: Pool, after: Pool, session: Session)
    requires |before| == MAX_SESSIONS && session.id !in before
    requires EvictedTo(before[session.id := session], after, MAX_SESSIONS)
    requires forall j :: j in before ==> session.lastUsed < before[j].lastUsed
    ensures after == before
  {
    var inserted := before[session.id := session];
    assert inserted.Keys == before.Keys + {session.id};
    EvictionIsMinimal(inserted, after, MAX_SESSIONS);
    assert IsStrictlyOldest(inserted, session.id);
    assert session.id !in after;
    assert after.Keys <= before.Keys;
    SubsetOfEqualSize(after.Keys, before.Keys);
  }

  // Every stream is accounted for, however the requests interleave.

  /** `ids`: every stream ever opened, with the id of its session. `inFlight`: opened and not yet inserted.
      `leaving`: taken out under the lock, to be closed after it. */
  datatype State = State(pool: Pool, inFlight: map<Stream, Session>, leaving: set<Stream>, closed: set<Stream>,
                         ids: map<Stream, string>)

  datatype Action =
    | Open(session: Session)
    | Insert(stream: Stream)
    | Use(id: string, now: Time)
    | Prune(now: Time)
    | Delete(id: string)
    | Remove(session: Session)
    | CloseAll
    | CloseStream(stream: Stream)

  /** Streams that a section took out of the pool are left to whoever took them. */
  predicate Takes(s: State, s': State, pool: Pool, also: set<Stream>) {
    s' == s.(pool := pool, leaving := s.leaving + (Streams(s.pool) - Streams(pool)) + also)
  }

  predicate Inserts(s: State, s': State, stream: Stream) {
    && stream in s.inFlight
    && var session := s.inFlight[stream];
       && EvictedTo(s.pool[session.id := session], s'.pool, MAX_SESSIONS)
       && s' == s.(pool := s'.pool, inFlight := s.inFlight - {stream},
                   closed := s.closed + AddCloses(s.pool, s'.pool, session))
  }

  predicate Next(s: State, s': State, a: Action) {
    match a
    case Open(session) =>
      session.stream !in s.ids
      && s' == s.(inFlight := s.inFlight[session.stream := session], ids := s.ids[session.stream := session.id])
    case Insert(stream) => Inserts(s, s', stream)
    case Use(id, now) => s' == if id in s.pool then s.(pool := s.pool[id := s.pool[id].(lastUsed := now)]) else s
    case Prune(now) => Takes(s, s', Active(s.pool, now), {})
    case Delete(id) => Takes(s, s', s.pool - {id}, {})
    case Remove(session) =>
      session.stream in s.ids && s.ids[session.stream] == session.id && session.stream !in s.inFlight
      && Takes(s, s', Without(s.pool, session), {session.stream})
    case CloseAll => Takes(s, s', map[], {})
    case CloseStream(stream) =>
      stream in s.leaving && s' == s.(leaving := s.leaving - {stream}, closed := s.closed + {stream})
  }

  /** Using a session keeps it from being pruned for ten minutes, and no longer. */
  lemma UsedIsKeptForTenMinutes(s: State, t: State, u: State, id: string, usedAt: Time, now: Time)
    requires id in s.pool && Next(s, t, Use(id, usedAt)) && Next(t, u, Prune(now))
    ensures id in u.pool <==> now <= usedAt + 10 * 60 * 1_000_000_000
  {
    PrunedAfterTenMinutes(s.pool, id, usedAt, now);
  }

  /** A session keeps the id it was opened with. */
  predicate IdsAreKept(pool: Pool, inFlight: map<Stream, Session>, ids: map<Stream, string>) {
    && (forall id :: id in pool ==> pool[id].stream in ids && ids[pool[id].stream] == id)
    && (forall t :: t in inFlight ==> t in ids && ids[t] == inFlight[t].id)
  }

  predicate StreamsAreDistinct(pool: Pool) {
    forall i, j :: i in pool && j in pool && pool[i].stream == pool[j].stream ==> i == j
  }

  predicate FlightsAreNamed(inFlight: map<Stream, Session>) {
    forall t :: t in inFlight ==> inFlight[t].stream == t
  }

  /** Every opened stream is in flight, in the pool, leaving or closed, and a live one is in one place only. */
  predicate AllAccounted(everOpened: set<Stream>, flights: set<Stream>, pooled: set<Stream>, leaving: set<Stream>,
                         closed: set<Stream>) {
    everOpened == flights + pooled + leaving + closed && flights !! pooled && (flights + pooled) !! (leaving + closed)
  }

  predicate Accounted(s: State) {
    AllAccounted(s.ids.Keys, s.inFlight.Keys, Streams(s.pool), s.leaving, s.closed)
  }

  predicate WellKept(pool: Pool, inFlight: map<Stream, Session>, ids: map<Stream, string>) {
    && Keyed(pool) && |pool| <= MAX_SESSIONS && StreamsAreDistinct(pool)
    && FlightsAreNamed(inFlight) && IdsAreKept(pool, inFlight, ids)
  }

  predicate Inv(s: State) {
    WellKept(s.pool, s.inFlight, s.ids) && Accounted(s)
  }

  lemma TakesKeepsInv(s: State, s': State, pool: Pool, also: set<Stream>)
    requires Inv(s) && Takes(s, s', pool, also)
    requires forall id :: id in pool ==> id in s.pool && pool[id] == s.pool[id]
    requires also <= s.ids.Keys && also !! (s.inFlight.Keys + Streams(pool))
    ensures Inv(s')
  {
    SmallerIsWellKept(s.pool, pool, s.inFlight, s.ids);
    assert Streams(pool) <= Streams(s.pool);
    TakenAccounted(s.ids.Keys, s.inFlight.Keys, Streams(s.pool), Streams(pool), s.leaving, s.closed, also);
  }

  lemma SmallerIsWellKept(before: Pool, pool: Pool, inFlight: map<Stream, Session>, ids: map<Stream, string>)
    requires WellKept(before, inFlight, ids)
    requires forall id :: id in pool ==> id in before && pool[id] == before[id]
    ensures WellKept(pool, inFlight, ids)
  {
    SmallerPool(pool, before);
  }

  lemma TakenAccounted(everOpened: set<Stream>, flights: set<Stream>, before: set<Stream>, after: set<Stream>,
                       leaving: set<Stream>, closed: set<Stream>, also: set<Stream>)
    requires AllAccounted(everOpened, flights, before, leaving, closed) && after <= before
    requires also <= everOpened && also !! (flights + after)
    ensures AllAccounted(everOpened, flights, after, leaving + (before - after) + also, closed)
  {
  }

  lemma InsertKeepsInv(s: State, s': State, stream: Stream)
    requires Inv(s) && Inserts(s, s', stream)
    ensures Inv(s')
  {
    var session := s.inFlight[stream];
    InsertSplits(s.pool, s'.pool, session);
    InsertIsWellKept(s.pool, s'.pool, s.inFlight, s.ids, stream);
    InsertedAccounted(s.ids.Keys, s.inFlight.Keys, Streams(s.pool), Streams(s'.pool),
                      AddCloses(s.pool, s'.pool, session), s.leaving, s.closed, stream);
    assert s'.inFlight.Keys == s.inFlight.Keys - {stream};
    assert Accounted(s');
  }

  lemma InsertIsWellKept(before: Pool, after: Pool, inFlight: map<Stream, Session>, ids: map<Stream, string>,
                         stream: Stream)
    requires WellKept(before, inFlight, ids) && stream in inFlight && stream !in Streams(before)
    requires EvictedTo(before[inFlight[stream].id := inFlight[stream]], after, MAX_SESSIONS)
    ensures WellKept(after, inFlight - {stream}, ids)
  {
    var session := inFlight[stream];
    InsertSplits(before, after, session);
    var inserted := before[session.id := session];
    assert forall id :: id in inserted ==> inserted[id].stream in ids && ids[inserted[id].stream] == id;
  }

  lemma InsertedIsDistinct(before: Pool, session: Session)
    requires Keyed(before) && StreamsAreDistinct(before) && session.stream !in Streams(before)
    ensures Keyed(before[session.id := session]) && StreamsAreDistinct(before[session.id := session])
  {
    assert forall id :: id in before ==> before[id].stream in Streams(before);
  }

  // The streams of the old pool and the new one are those that stay and those that are closed, and never both.
  lemma InsertSplits(before: Pool, after: Pool, session: Session)
    requires Keyed(before) && StreamsAreDistinct(before) && session.stream !in Streams(before)
    requires EvictsOldest(before[session.id := session], after)
    ensures Keyed(after) && StreamsAreDistinct(after)
    ensures Streams(before) + {session.stream} == Streams(after) + AddCloses(before, after, session)
    ensures Streams(after) !! AddCloses(before, after, session)
  {
    var inserted := before[session.id := session];
    InsertedIsDistinct(before, session);
    forall t | t in Streams(before) ensures t in Streams(after) + AddCloses(before, after, session) {
      var id :| id in before && before[id].stream == t;
      assert id != session.id ==> inserted[id].stream == t;
    }
    assert inserted[session.id].stream == session.stream;
    assert forall id :: id in after ==> after[id] == inserted[id];
  }

  lemma InsertedAccounted(everOpened: set<Stream>, flights: set<Stream>, before: set<Stream>, after: set<Stream>,
                          closes: set<Stream>, leaving: set<Stream>, closed: set<Stream>, stream: Stream)
    requires AllAccounted(everOpened, flights, before, leaving, closed) && stream in flights
    requires before + {stream} == after + closes && after !! closes
    ensures AllAccounted(everOpened, flights - {stream}, after, leaving, closed + closes)
  {
    assert stream in after + closes;
  }

  lemma OpenKeepsInv(s: State, s': State, session: Session)
    requires Inv(s) && Next(s, s', Open(session))
    ensures Inv(s')
  {
    OpenIsWellKept(s.pool, s.inFlight, s.ids, session);
    OpenedAccounted(s.ids.Keys, s.inFlight.Keys, Streams(s.pool), s.leaving, s.closed, session.stream);
    KeysOfInsert(s.inFlight, session.stream, session);
    KeysOfInsert(s.ids, session.stream, session.id);
    assert Accounted(s');
  }

  lemma OpenIsWellKept(pool: Pool, inFlight: map<Stream, Session>, ids: map<Stream, string>, session: Session)
    requires WellKept(pool, inFlight, ids) && session.stream !in ids
    ensures WellKept(pool, inFlight[session.stream := session], ids[session.stream := session.id])
  {
  }

  lemma KeysOfInsert<T>(m: map<Stream, T>, stream: Stream, value: T)
    ensures m[stream := value].Keys == m.Keys + {stream}
  {
  }

  lemma OpenedAccounted(everOpened: set<Stream>, flights: set<Stream>, pooled: set<Stream>, leaving: set<Stream>,
                        closed: set<Stream>, stream: Stream)
    requires AllAccounted(everOpened, flights, pooled, leaving, closed) && stream !in everOpened
    ensures AllAccounted(everOpened + {stream}, flights + {stream}, pooled, leaving, closed)
  {
  }

  lemma ClosedAccounted(everOpened: set<Stream>, flights: set<Stream>, pooled: set<Stream>, leaving: set<Stream>,
                        closed: set<Stream>, stream: Stream)
    requires AllAccounted(everOpened, flights, pooled, leaving, closed) && stream in leaving
    ensures AllAccounted(everOpened, flights, pooled, leaving - {stream}, closed + {stream})
  {
    assert leaving - {stream} + (closed + {stream}) == leaving + closed;
  }

  lemma UseKeepsInv(s: State, id: string, now: Time)
    requires Inv(s) && id in s.pool
    ensures Inv(s.(pool := s.pool[id := s.pool[id].(lastUsed := now)]))
  {
    var pool := s.pool[id := s.pool[id].(lastUsed := now)];
    assert pool.Keys == s.pool.Keys;
    assert forall j :: j in pool ==> pool[j].stream == s.pool[j].stream;
    assert Streams(pool) == Streams(s.pool);
  }

  /** The session a handler holds is in the pool under no other id than its own. */
  lemma OnlyUnderItsId(s: State, session: Session, id: string)
    requires Inv(s) && session.stream in s.ids && s.ids[session.stream] == session.id
    requires id in s.pool && s.pool[id].stream == session.stream
    ensures id == session.id
  {
  }

  lemma TakenOut(s: State, session: Session)
    requires Inv(s) && session.stream in s.ids && s.ids[session.stream] == session.id
    ensures session.stream !in Streams(Without(s.pool, session))
  {
    forall id | id in Without(s.pool, session) ensures s.pool[id].stream != session.stream {
      if s.pool[id].stream == session.stream { OnlyUnderItsId(s, session, id); }
    }
  }

  lemma RemoveKeepsInv(s: State, s': State, session: Session)
    requires Inv(s) && Next(s, s', Remove(session))
    ensures Inv(s')
  {
    TakenOut(s, session);
    TakesKeepsInv(s, s', Without(s.pool, session), {session.stream});
  }

  lemma NextKeepsInv(s: State, s': State, a: Action)
    requires Inv(s) && Next(s, s', a)
    ensures Inv(s')
  {
    match a {
      case Open(session) => OpenKeepsInv(s, s', session);
      case Insert(stream) => InsertKeepsInv(s, s', stream);
      case Use(id, now) => if id in s.pool { UseKeepsInv(s, id, now); }
      case Prune(now) => TakesKeepsInv(s, s', Active(s.pool, now), {});
      case Delete(id) => TakesKeepsInv(s, s', s.pool - {id}, {});
      case Remove(session) => RemoveKeepsInv(s, s', session);
      case CloseAll => TakesKeepsInv(s, s', map[], {});
      case CloseStream(stream) =>
        ClosedAccounted(s.ids.Keys, s.inFlight.Keys, Streams(s.pool), s.leaving, s.closed, stream);
    }
  }

  const START := State(map[], map[], {}, {}, map[])

  predicate IsRun(states: seq<State>, actions: seq<Action>) {
    |states| == |actions| + 1 && states[0] == START && forall i :: 0 <= i < |actions| ==>
      Next(states[i], states[i + 1], actions[i])
  }

  /** In every reachable state: at most 128 sessions, each under its own id, and no stream lost. */
  lemma {:induction false} NoStreamIsLost(states: seq<State>, actions: seq<Action>, n: nat)
    requires IsRun(states, actions) && n < |states|
    ensures Inv(states[n])
  {
    if n > 0 {
      NoStreamIsLost(states, actions, n - 1);
      NextKeepsInv(states[n - 1], states[n], actions[n - 1]);
    }
  }

  predicate Gone(s: State, stream: Stream) {
    stream in s.leaving || stream in s.closed
  }

  lemma GoneStaysGone(s: State, s': State, a: Action, stream: Stream)
    requires Next(s, s', a) && Gone(s, stream)
    ensures Gone(s', stream) && s.closed <= s'.closed
  {
  }

  lemma GoneIsNowhere(s: State, stream: Stream)
    requires Accounted(s) && Gone(s, stream)
    ensures stream !in Streams(s.pool) && stream !in s.inFlight
  {
    assert stream in s.leaving + s.closed && stream !in s.inFlight.Keys + Streams(s.pool);
  }

  /** A stream that left never comes back: once removed it stays removed, and closed streams stay closed. */
  lemma {:induction false} GoneIsForGood(states: seq<State>, actions: seq<Action>, m: nat, n: nat, stream: Stream)
    requires IsRun(states, actions) && m <= n < |states| && Gone(states[m], stream)
    ensures Gone(states[n], stream) && stream !in Streams(states[n].pool) && stream !in states[n].inFlight
    ensures states[m].closed <= states[n].closed
    decreases n
  {
    if m < n {
      GoneIsForGood(states, actions, m, n - 1, stream);
      GoneStaysGone(states[n - 1], states[n], actions[n - 1], stream);
    }
    NoStreamIsLost(states, actions, n);
    GoneIsNowhere(states[n], stream);
  }
}
