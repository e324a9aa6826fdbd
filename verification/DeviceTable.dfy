/** The table `oauth_device_authorizations` and the statements that guard its rows
    (internal/platform/sqlite/platformdb/edge.sql.go). Every statement is one atomic step:
    a function from the table to the new table and the number of rows affected, as a flag. */
module DeviceTable {
  import opened Wrappers

  type Id = nat
  type Time = int

  const SECOND := 1_000_000_000
  const DEFAULT_INTERVAL := 5 * SECOND

  datatype Status = Pending | Approved | Denied | Expired | Consumed

  // The columns that no statement changes after insertion.
  datatype Request = Request(
    id: Id,
    clientID: string,
    serviceID: string,
    resource: string,
    scope: string,
    deviceCodeHash: string,
    userCodeHash: string,
    userCodeDisplay: string,
    expiresAt: Time,
    createdAt: Time)

  datatype Row = Row(
    request: Request,
    subjectSub: Option<string>,
    status: Status,
    interval: int,
    lastPollAt: Option<Time>,
    pollCount: nat,
    approvedAt: Option<Time>,
    deniedAt: Option<Time>,
    consumedAt: Option<Time>,
    updatedAt: Time)

  type Table = map<Id, Row>

  /** `durationToSeconds` followed by `durationFromSeconds`: what a duration reads back as. */
  function WholeSeconds(duration: int): (r: int)
    ensures r >= 0 && r % SECOND == 0 && (duration >= 0 ==> duration - SECOND < r <= duration)
  {
    if duration <= 0 then 0 else duration / SECOND * SECOND
  }

  predicate Terminal(status: Status) {
    status.Denied? || status.Expired? || status.Consumed?
  }

  /** The primary key and the two UNIQUE columns. */
  predicate Insertable(table: Table, q: Request) {
    && q.id !in table
    && (forall id <- table :: table[id].request.deviceCodeHash != q.deviceCodeHash)
    && (forall id <- table :: table[id].request.userCodeHash != q.userCodeHash)
  }

  /** The row an INSERT stores: whatever status or history the caller passed is ignored. */
  function Inserted(r: Row): Row {
    Row(r.request, None, Pending, WholeSeconds(if r.interval <= 0 then DEFAULT_INTERVAL else r.interval),
        None, 0, None, None, None, r.request.createdAt)
  }

  function Insert(table: Table, r: Row): (Table, bool) {
    if Insertable(table, r.request) then (table[r.request.id := Inserted(r)], true) else (table, false)
  }

  function Approve(table: Table, id: Id, subject: string, now: Time): (Table, bool) {
    if id in table && table[id].status.Pending? && table[id].request.expiresAt > now then
      (table[id := table[id].(subjectSub := Some(subject), status := Approved, approvedAt := Some(now),
                              updatedAt := now)], true)
    else (table, false)
  }

  /** The same UPDATE under its foreign key: naming a subject that is not stored fails. */
  function ApproveReferencing(table: Table, subjects: set<string>, id: Id, subject: string,
                              now: Time): Option<(Table, bool)> {
    var approved := Approve(table, id, subject, now);
    if approved.1 && subject !in subjects then None else Some(approved)
  }

  function Deny(table: Table, id: Id, now: Time): (Table, bool) {
    if id in table && table[id].status.Pending? && table[id].request.expiresAt > now then
      (table[id := table[id].(status := Denied, deniedAt := Some(now), updatedAt := now)], true)
    else (table, false)
  }

  function Consume(table: Table, id: Id, now: Time): (Table, bool) {
    if id in table && table[id].status.Approved? && table[id].subjectSub.Some? && table[id].request.expiresAt > now then
      (table[id := table[id].(status := Consumed, consumedAt := Some(now), updatedAt := now)], true)
    else (table, false)
  }

  function UpdatePoll(table: Table, id: Id, now: Time): (Table, bool) {
    if id in table then
      (table[id := table[id].(lastPollAt := Some(now), pollCount := table[id].pollCount + 1, updatedAt := now)], true)
    else (table, false)
  }

  function SlowDown(table: Table, id: Id, now: Time, increment: int): (Table, bool) {
    if id in table then
      (table[id := table[id].(lastPollAt := Some(now), pollCount := table[id].pollCount + 1,
                              interval := table[id].interval + WholeSeconds(increment), updatedAt := now)], true)
    else (table, false)
  }

  function ExpireRow(r: Row, now: Time): Row {
    if (r.status.Pending? || r.status.Approved?) && r.request.expiresAt <= now then
      r.(status := Expired, updatedAt := now)
    else r
  }

  function MarkExpired(table: Table, now: Time): Table {
    map id <- table :: ExpireRow(table[id], now)
  }

  predicate Prunable(r: Row, cutoff: Time) {
    Terminal(r.status) && r.updatedAt <= cutoff
  }

  function Prune(table: Table, cutoff: Time): Table {
    map id <- table | !Prunable(table[id], cutoff) :: table[id]
  }
}
