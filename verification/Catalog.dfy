/** Admission to the service catalog (internal/controlplane/catalog_admin.go, store.go) and the routing index that the
    edge builds from it (internal/edge/catalog_cache.go). */
module Catalog {
  import opened Wrappers
  import opened GoStrings
  import opened Collections

  // Paths.

  predicate Contains(s: string, sub: string) {
    HasPrefix(s, sub) || (s != "" && Contains(s[1..], sub))
  }

  function ToLower(s: string): string {
    seq(|s|, i requires 0 <= i < |s| => if 'A' <= s[i] <= 'Z' then s[i] - 'A' + 'a' else s[i])
  }

  function Segments(path: string): seq<string>
    decreases |path|
  {
    var n := SlashIndex(path);
    if n == |path| then [path] else [path[..n]] + Segments(path[n + 1..])
  }

  function SlashIndex(path: string): (n: nat)
    ensures n <= |path|
    ensures n < |path| ==> path[n] == '/'
  {
    if path == "" || path[0] == '/' then 0 else 1 + SlashIndex(path[1..])
  }

  function TrimSlashes(path: string): string {
    var p := TrimRightSlash(path);
    if p != "" && p[0] == '/' then p[1..] else p
  }

  predicate IsControl(c: char) {
    c < ' ' || c == '\U{7F}'
  }

  /** `validateCatalogPath`. */
  predicate ValidCatalogPath(value: string, allowRoot: bool) {
    && HasPrefix(value, "/")
    && if value == "/" then allowRoot
       else
         && !Contains(value, "//") && '\\' !in value && '?' !in value && '#' !in value && ' ' !in value
         && !Contains(ToLower(value), "%2f") && !Contains(ToLower(value), "%5c")
         && (forall c <- value :: !IsControl(c))
         && (forall s <- Segments(TrimSlashes(value)) :: s != "." && s != ".." && s != "")
  }

  const EDGE_RESERVED := ["/health", "/health/live", "/health/ready", "/auth", "/oauth", "/.well-known"]
  const CONTROL_PLANE_RESERVED := EDGE_RESERVED + ["/v1"]

  /** Equal to `prefix` or below it. */
  predicate Under(path: string, prefix: string) {
    path == prefix || HasPrefix(path, prefix + "/")
  }

  predicate Reserved(path: string, reserved: seq<string>) {
    exists i :: 0 <= i < |reserved| && Under(path, reserved[i])
  }

  predicate IsIdStart(c: char) {
    'a' <= c <= 'z' || '0' <= c <= '9'
  }

  /** The pattern `^[a-z0-9][a-z0-9_-]*$`. */
  predicate ValidServiceID(id: string) {
    id != "" && IsIdStart(id[0]) && forall i :: 0 < i < |id| ==> IsIdStart(id[i]) || id[i] == '_' || id[i] == '-'
  }

  // Entries.

  datatype Entry = Entry(
    required: seq<string>,
    transportType: string,
    adapterRequirement: string,
    identityMode: string,
    internalPort: int,
    publicPath: string,
    internalUpstreamPath: string,
    healthPath: string,
    secretKeys: seq<string>)

  function NormalPath(path: string): string {
    TrimRightSlash(TrimSpace(path))
  }

  /** What `handleServicePut` makes of a request: `required` are the five mandatory text fields. */
  function Normalized(e: Entry): Entry {
    e.(required := TrimmedAll(e.required), identityMode := if e.identityMode == "" then "none" else e.identityMode,
       publicPath := NormalPath(e.publicPath),
       internalUpstreamPath := NormalPath(e.internalUpstreamPath), healthPath := NormalPath(e.healthPath))
  }

  function TrimmedAll(fields: seq<string>): seq<string> {
    seq(|fields|, i requires 0 <= i < |fields| => TrimSpace(fields[i]))
  }

  /** What is saved of a request: its own fields, the paths and the mandatory texts trimmed. */
  ghost predicate SavesRequest(e: Entry, request: Entry) {
    && Spells(request.publicPath, e.publicPath) && Spells(request.internalUpstreamPath, e.internalUpstreamPath)
    && Spells(request.healthPath, e.healthPath)
    && e.transportType == request.transportType && e.adapterRequirement == request.adapterRequirement
    && e.internalPort == request.internalPort && e.secretKeys == request.secretKeys
    && e.identityMode == (if request.identityMode == "" then "none" else request.identityMode)
    && |e.required| == |request.required|
    && forall i :: 0 <= i < |e.required| ==> IsTrimmedTo(request.required[i], e.required[i])
  }

  ghost predicate IsTrimmedTo(given: string, text: string) {
    exists pre, post :: TrimsTo(given, pre, text, post)
  }

  lemma NormalizedSavesRequest(request: Entry)
    ensures SavesRequest(Normalized(request), request)
  {
    var e := Normalized(request);
    TrimmedIsSpelled(request.publicPath);
    TrimmedIsSpelled(request.internalUpstreamPath);
    TrimmedIsSpelled(request.healthPath);
    forall i | 0 <= i < |e.required| ensures IsTrimmedTo(request.required[i], e.required[i]) {
      var pre, post := TrimSpaceSplits(request.required[i]);
      assert TrimsTo(request.required[i], pre, e.required[i], post);
    }
  }

  predicate ValidEntry(id: string, e: Entry) {
    && ValidServiceID(TrimSpace(id))
    && "" !in e.required
    && e.transportType in ["streamable-http", "sse"]
    && e.adapterRequirement in ["none", "path-translation", "sse-to-streamable-http"]
    && e.identityMode in ["none", "signed-headers"]
    && 1 <= e.internalPort <= 65535
    && ValidCatalogPath(e.publicPath, false)
    && ValidCatalogPath(e.internalUpstreamPath, true)
    && ValidCatalogPath(e.healthPath, true)
    && !Reserved(e.publicPath, CONTROL_PLANE_RESERVED)
    && (forall k <- e.secretKeys :: TrimSpace(k) != "")
  }

  // What a valid path is good for: it is the path that a client, a proxy or a file system makes of it.

  /** `path.Clean` of a rooted path, by segments: empty and `.` segments go, `..` takes the one before it. */
  function CleanSegments(segments: seq<string>): seq<string> {
    if segments == [] then []
    else
      var front, last := CleanSegments(segments[..|segments| - 1]), segments[|segments| - 1];
      if last == "" || last == "." then front
      else if last == ".." then if front == [] then [] else front[..|front| - 1]
      else front + [last]
  }

  lemma {:induction false} PlainSegmentsAreClean(segments: seq<string>)
    requires forall s <- segments :: s != "." && s != ".." && s != ""
    ensures CleanSegments(segments) == segments
  {
    if segments != [] {
      var front := segments[..|segments| - 1];
      assert segments == front + [segments[|segments| - 1]];
      assert forall s <- front :: s in segments;
      PlainSegmentsAreClean(front);
      assert segments[|segments| - 1] in segments;
    }
  }

  predicate IsHex(c: char) {
    '0' <= c <= '9' || 'a' <= c <= 'f' || 'A' <= c <= 'F'
  }

  function HexDigit(c: char): (d: int)
    requires IsHex(c)
    ensures 0 <= d < 16
  {
    if c <= '9' then c as int - '0' as int else if c <= 'F' then c as int - 'A' as int + 10
    else c as int - 'a' as int + 10
  }

  /** Percent-decoding; an escape that is not one stays as it is. */
  function Decode(s: string): string {
    if s == "" then ""
    else if s[0] == '%' && |s| >= 3 && IsHex(s[1]) && IsHex(s[2]) then
      [(16 * HexDigit(s[1]) + HexDigit(s[2])) as char] + Decode(s[3..])
    else [s[0]] + Decode(s[1..])
  }

  /** How many characters separate segments for somebody. */
  function Separators(s: string): nat {
    if s == "" then 0 else (if s[0] == '/' || s[0] == '\\' then 1 else 0) + Separators(s[1..])
  }

  predicate EscapesNoSeparator(s: string) {
    !Contains(ToLower(s), "%2f") && !Contains(ToLower(s), "%5c")
  }

  lemma {:induction false} TailEscapesNoSeparator(s: string, n: nat)
    requires EscapesNoSeparator(s) && n <= |s|
    ensures EscapesNoSeparator(s[n..])
    decreases n
  {
    if n > 0 {
      assert ToLower(s)[1..] == ToLower(s[1..]);
      TailEscapesNoSeparator(s[1..], n - 1);
      assert s[1..][n - 1..] == s[n..];
    } else {
      assert s[0..] == s;
    }
  }

  lemma FirstEscape(s: string)
    requires EscapesNoSeparator(s) && |s| >= 3 && s[0] == '%' && IsHex(s[1]) && IsHex(s[2])
    ensures 16 * HexDigit(s[1]) + HexDigit(s[2]) != '/' as int
    ensures 16 * HexDigit(s[1]) + HexDigit(s[2]) != '\\' as int
  {
    var lower := ToLower(s);
    assert !HasPrefix(lower, "%2f") && !HasPrefix(lower, "%5c");
    assert lower[..3] == [lower[0], lower[1], lower[2]];
    assert lower[..3] != "%2f" && lower[..3] != "%5c";
  }

  /** Decoding the escapes of such a text brings no separator into it. */
  lemma {:induction false} DecodingAddsNoSeparator(s: string)
    requires EscapesNoSeparator(s)
    ensures Separators(Decode(s)) == Separators(s)
    decreases |s|
  {
    if s != "" {
      if s[0] == '%' && |s| >= 3 && IsHex(s[1]) && IsHex(s[2]) {
        FirstEscape(s);
        TailEscapesNoSeparator(s, 3);
        DecodingAddsNoSeparator(s[3..]);
        assert Decode(s)[1..] == Decode(s[3..]);
        assert s[1..][1..] == s[2..] && s[2..][1..] == s[3..];
        assert Separators(s) == Separators(s[1..]) == Separators(s[2..]) == Separators(s[3..]);
      } else {
        TailEscapesNoSeparator(s, 1);
        DecodingAddsNoSeparator(s[1..]);
        assert Decode(s)[1..] == Decode(s[1..]);
      }
    }
  }

  /** Rooted, without query, fragment, blank or control character, equal to its cleaned form, and with the same segments
      after decoding. */
  predicate IsClean(path: string) {
    && path != "" && path[0] == '/' && path != "/"
    && (forall c <- path :: c > ' ' && c != '\U{7F}' && c != '?' && c != '#' && c != '\\')
    && CleanSegments(Segments(path[1..])) == Segments(path[1..])
    && Separators(Decode(path)) == Separators(path)
  }

  /** A trimmed path is accepted as internal path on the same condition as public path: the root, which the validation
      allows there, is trimmed to nothing first. */
  lemma RootIsNeverAccepted(given: string)
    ensures ValidCatalogPath(NormalPath(given), true) <==> ValidCatalogPath(NormalPath(given), false)
    ensures !ValidCatalogPath(NormalPath("/"), true)
  {
    TrimmedIsSpelled(given);
    assert TrimRightSlash("/") == TrimRightSlash("");
  }

  lemma AcceptedPathIsClean(given: string, allowRoot: bool)
    requires ValidCatalogPath(NormalPath(given), allowRoot)
    ensures IsClean(NormalPath(given))
  {
    var p := NormalPath(given);
    TrimmedIsSpelled(given);
    assert TrimSlashes(p) == p[1..];
    PlainSegmentsAreClean(Segments(p[1..]));
    DecodingAddsNoSeparator(p);
    forall c | c in p ensures c > ' ' && c != '\U{7F}' { assert !IsControl(c); }
  }

  /** What holds of every saved entry. */
  predicate CleanEntry(e: Entry) {
    && IsClean(e.publicPath) && IsClean(e.internalUpstreamPath) && IsClean(e.healthPath)
    && 0 < e.internalPort < 0x1_0000 && (forall f <- e.required :: f != "") && (forall k <- e.secretKeys :: !Blank(k))
  }

  lemma AcceptedIsClean(id: string, request: Entry)
    requires ValidEntry(id, Normalized(request))
    ensures CleanEntry(Normalized(request))
  {
    AcceptedPathIsClean(request.publicPath, false);
    AcceptedPathIsClean(request.internalUpstreamPath, true);
    AcceptedPathIsClean(request.healthPath, true);
    forall k | k in request.secretKeys ensures !Blank(k) { BlankIsTrimmedAway(k); }
  }

  // The catalog table.

  datatype Row = Row(entry: Entry, enabled: bool, builtin: bool)

  type Table = map<string, Row>

  predicate Overlap(a: string, b: string) {
    Under(a, b) || Under(b, a)
  }

  function PathOf(row: Row): string {
    row.entry.publicPath
  }

  /** UNIQUE (public_path), which covers disabled rows too. */
  predicate UniquePaths(t: Table) {
    forall i, j :: i in t && j in t && PathOf(t[i]) == PathOf(t[j]) ==> i == j
  }

  predicate Apart(a: Row, b: Row) {
    !Overlap(TrimRightSlash(PathOf(a)), TrimRightSlash(PathOf(b)))
  }

  predicate PairwiseApart(t: Table) {
    forall i, j :: i in t && j in t && i != j && t[i].enabled && t[j].enabled ==> Apart(t[i], t[j])
  }

  function AdminRows(t: Table): Table {
    map id | id in t && !t[id].builtin :: t[id]
  }

  /** What the edge needs of a path, and admission guarantees. */
  predicate Routable(path: string) {
    && HasPrefix(path, "/") && path[|path| - 1] != '/' && (forall c <- path :: !IsSpace(c))
    && !Reserved(path, EDGE_RESERVED)
  }

  predicate EnabledAreRoutable(t: Table) {
    forall id :: id in t && t[id].enabled ==> ValidServiceID(id) && Routable(PathOf(t[id]))
  }

  datatype PutResult = Saved | Invalid | BuiltinLocked | PathConflict | ServiceNotFound

  predicate ConflictsWithEnabled(t: Table, id: string, path: string) {
    exists j :: j in t && j != id && t[j].enabled && Overlap(TrimRightSlash(path), TrimRightSlash(PathOf(t[j])))
  }

  predicate PathTaken(t: Table, id: string, path: string) {
    exists j :: j in t && j != id && PathOf(t[j]) == path
  }

  /** An accepted path is one the edge can route. */
  lemma AcceptedIsRoutable(e: Entry)
    requires ValidCatalogPath(Normalized(e).publicPath, false) &&
             !Reserved(Normalized(e).publicPath, CONTROL_PLANE_RESERVED)
    ensures Routable(Normalized(e).publicPath)
  {
    var p := Normalized(e).publicPath;
    forall c | c in p ensures !IsSpace(c) { assert !IsControl(c); }
    assert forall i :: 0 <= i < |EDGE_RESERVED| ==> CONTROL_PLANE_RESERVED[i] == EDGE_RESERVED[i];
  }

  lemma SavedIsValid(t: Table, id: string, row: Row)
    requires UniquePaths(t) && PairwiseApart(t)
    requires !ConflictsWithEnabled(t, id, PathOf(row)) && !PathTaken(t, id, PathOf(row))
    ensures UniquePaths(t[id := row]) && PairwiseApart(t[id := row])
  {
  }

  class Store {
    var rows: Table

    ghost predicate Valid()
      reads this
    {
      UniquePaths(rows) && PairwiseApart(rows)
    }

    /** Starts from the rows of an earlier run: the built-in catalog is empty, so every built-in row is disabled. */
    constructor SeedServiceCatalog(stored: Table)
      requires UniquePaths(stored) && PairwiseApart(AdminRows(stored))
      ensures Valid() && rows.Keys == stored.Keys
      ensures forall id :: id in rows ==>
                rows[id] == if stored[id].builtin then stored[id].(enabled := false) else stored[id]
      ensures EnabledAreRoutable(AdminRows(stored)) ==> EnabledAreRoutable(rows)
    {
      rows := map id | id in stored :: if stored[id].builtin then stored[id].(enabled := false) else stored[id];
      new;
      assert forall id :: id in rows && rows[id].enabled ==>
             id in AdminRows(stored) && rows[id] == AdminRows(stored)[id];
    }

    /** The loop is `ensureNoPublicPathConflict`. */
    method UpsertAdminServiceCatalogEntry(id: string, e: Entry) returns (r: PutResult)
      requires Valid()
      modifies this
      ensures Valid()
      ensures r == (if id in old(rows) && old(rows)[id].builtin then BuiltinLocked
                    else if ConflictsWithEnabled(old(rows), id, e.publicPath) || PathTaken(old(rows), id, e.publicPath)
                    then PathConflict else Saved)
      ensures rows == if r == Saved then old(rows)[id := Row(e, true, false)] else old(rows)
    {
      if id in rows && rows[id].builtin { return BuiltinLocked; }
      var conflict := EnsureNoPublicPathConflict(id, e.publicPath);
      if conflict || PathTaken(rows, id, e.publicPath) { return PathConflict; }
      SavedIsValid(rows, id, Row(e, true, false));
      rows := rows[id := Row(e, true, false)];
      r := Saved;
    }

    method EnsureNoPublicPathConflict(id: string, publicPath: string) returns (conflict: bool)
      ensures conflict <==> ConflictsWithEnabled(rows, id, publicPath)
    {
      var path := TrimRightSlash(publicPath);
      var todo := rows.Keys;
      while todo != {}
        invariant todo <= rows.Keys
        invariant forall j :: j in rows && j !in todo && j != id && rows[j].enabled ==>
                    !Overlap(path, TrimRightSlash(PathOf(rows[j])))
        decreases |todo|
      {
        var j :| j in todo;
        todo := todo - {j};
        if j == id || !rows[j].enabled { continue; }
        var existing := TrimRightSlash(PathOf(rows[j]));
        if path == existing || HasPrefix(path, existing + "/") || HasPrefix(existing, path + "/") { return true; }
      }
      conflict := false;
    }

    /** `handleServicePut`: normalises, validates and stores; what the edge needs of the enabled rows is kept. */
    method HandleServicePut(id: string, request: Entry) returns (r: PutResult)
      requires Valid() && TrimSpace(id) == id
      modifies this
      ensures Valid() && (EnabledAreRoutable(old(rows)) ==> EnabledAreRoutable(rows))
      ensures r == Invalid <==> !ValidEntry(id, Normalized(request))
      ensures r == Saved ==> rows == old(rows)[id := Row(Normalized(request), true, false)]
      ensures r == Saved ==> SavesRequest(rows[id].entry, request) && CleanEntry(rows[id].entry)
      ensures r == Saved <==> && ValidEntry(id, Normalized(request))
                              && (id in old(rows) ==> !old(rows)[id].builtin)
                              && !ConflictsWithEnabled(old(rows), id, Normalized(request).publicPath)
                              && !PathTaken(old(rows), id, Normalized(request).publicPath)
      ensures r != Saved ==> rows == old(rows)
    {
      var entry := Normalized(request);
      if !ValidEntry(id, entry) { return Invalid; }
      AcceptedIsRoutable(request);
      NormalizedSavesRequest(request);
      AcceptedIsClean(id, request);
      r := UpsertAdminServiceCatalogEntry(id, entry);
    }

    method DisableServiceCatalogEntry(id: string) returns (r: PutResult)
      requires Valid()
      modifies this
      ensures Valid() && (EnabledAreRoutable(old(rows)) ==> EnabledAreRoutable(rows))
      ensures r == if id !in old(rows) then ServiceNotFound
                   else if old(rows)[id].builtin then BuiltinLocked else Saved
      ensures rows == if r == Saved then old(rows)[id := old(rows)[id].(enabled := false)] else old(rows)
    {
      if id !in rows { return ServiceNotFound; }
      if rows[id].builtin { return BuiltinLocked; }
      rows := rows[id := rows[id].(enabled := false)];
      r := Saved;
    }
  }

  // The routing index.

  /** One enabled row, as the edge reads it. */
  datatype Service = Service(id: string, publicPath: string)

  function EdgeId(s: Service): string {
    TrimSpace(s.id)
  }

  function EdgePath(s: Service): string {
    NormalPath(s.publicPath)
  }

  predicate Acceptable(id: string, path: string) {
    ValidServiceID(id) && HasPrefix(path, "/") && !Reserved(path, EDGE_RESERVED)
  }

  predicate BuildableRoutes(ids: seq<string>, paths: seq<string>) {
    && |ids| == |paths|
    && (forall i :: 0 <= i < |ids| ==> Acceptable(ids[i], paths[i]))
    && Distinct(ids) && Distinct(paths)
  }

  function EdgeIds(services: seq<Service>): (r: seq<string>)
    ensures |r| == |services| && forall i :: 0 <= i < |r| ==> r[i] == EdgeId(services[i])
  {
    seq(|services|, i requires 0 <= i < |services| => EdgeId(services[i]))
  }

  function EdgePaths(services: seq<Service>): (r: seq<string>)
    ensures |r| == |services| && forall i :: 0 <= i < |r| ==> r[i] == EdgePath(services[i])
  {
    seq(|services|, i requires 0 <= i < |services| => EdgePath(services[i]))
  }

  /** Exactly the lists of which a snapshot can be built: acceptable entries with distinct ids and distinct paths. */
  predicate Buildable(services: seq<Service>) {
    BuildableRoutes(EdgeIds(services), EdgePaths(services))
  }

  datatype Snapshot = Snapshot(ids: set<string>, byPublicPath: map<string, string>, publicPaths: seq<string>)

  predicate Descending(paths: seq<string>) {
    forall i, j :: 0 <= i < j < |paths| ==> |paths[i]| >= |paths[j]|
  }

  /** `publicPaths` lists the keys of the index, longest first. */
  ghost predicate WellFormed(s: Snapshot) {
    Descending(s.publicPaths) && forall p :: p in s.publicPaths <==> p in s.byPublicPath
  }

  /** The index maps exactly these paths, each to the id at its position. */
  ghost predicate Indexes(s: Snapshot, ids: seq<string>, paths: seq<string>) {
    && |ids| == |paths|
    && (forall i :: 0 <= i < |paths| ==> paths[i] in s.byPublicPath && s.byPublicPath[paths[i]] == ids[i])
    && (forall p :: p in s.byPublicPath ==> p in paths)
    && (forall id :: id in s.ids <==> id in ids)
  }

  // Inserts before the first path that is shorter.
  method InsertByLength(paths: seq<string>, path: string) returns (r: seq<string>)
    requires Descending(paths)
    ensures Descending(r) && forall p :: p in r <==> p in paths || p == path
  {
    var k := 0;
    while k < |paths| && |paths[k]| >= |path|
      invariant k <= |paths| && forall i :: 0 <= i < k ==> |paths[i]| >= |path|
    {
      k := k + 1;
    }
    r := paths[..k] + [path] + paths[k..];
    assert paths == paths[..k] + paths[k..];
  }

  /** Stands for `slices.SortFunc` by decreasing length. */
  method SortByLength(paths: seq<string>) returns (r: seq<string>)
    ensures Descending(r) && forall p :: p in r <==> p in paths
  {
    r := [];
    for i := 0 to |paths|
      invariant Descending(r) && forall p :: p in r <==> p in paths[..i]
    {
      assert paths[..i + 1] == paths[..i] + [paths[i]];
      r := InsertByLength(r, paths[i]);
    }
    assert paths[..|paths|] == paths;
  }

  method NewCatalogSnapshot(services: seq<Service>) returns (r: Option<Snapshot>)
    ensures r.Some? <==> Buildable(services)
    ensures r.Some? ==> WellFormed(r.value) && Indexes(r.value, EdgeIds(services), EdgePaths(services))
  {
    r := IndexRoutes(EdgeIds(services), EdgePaths(services));
    if r.Some? {
      var sorted := SortByLength(r.value.publicPaths);
      r := Some(r.value.(publicPaths := sorted));
    }
  }

  // The loop over the entries, given their trimmed ids and paths.
  method IndexRoutes(ids: seq<string>, paths: seq<string>) returns (r: Option<Snapshot>)
    requires |ids| == |paths|
    ensures r.Some? <==> BuildableRoutes(ids, paths)
    ensures r.Some? ==> Indexes(r.value, ids, paths) &&
                        forall p :: p in r.value.publicPaths <==> p in r.value.byPublicPath
  {
    var s := Snapshot({}, map[], []);
    for i := 0 to |ids|
      invariant BuildableRoutes(ids[..i], paths[..i]) && Indexes(s, ids[..i], paths[..i])
      invariant forall p :: p in s.publicPaths <==> p in s.byPublicPath
    {
      ServiceStep(s, ids, paths, i);
      var added := AddRoute(s, ids[i], paths[i]);
      if added.None? { return None; }
      s := added.value;
    }
    assert ids[..|ids|] == ids && paths[..|ids|] == paths;
    r := Some(s);
  }

  method AddRoute(s: Snapshot, id: string, path: string) returns (r: Option<Snapshot>)
    ensures r == if !Acceptable(id, path) || id in s.ids || path in s.byPublicPath then None
                 else Some(Snapshot(s.ids + {id}, s.byPublicPath[path := id], s.publicPaths + [path]))
  {
    if !Acceptable(id, path) || id in s.ids || path in s.byPublicPath { return None; }
    r := Some(Snapshot(s.ids + {id}, s.byPublicPath[path := id], s.publicPaths + [path]));
  }

  lemma ServiceStep(s: Snapshot, ids: seq<string>, paths: seq<string>, i: nat)
    requires i < |ids| == |paths| && BuildableRoutes(ids[..i], paths[..i]) && Indexes(s, ids[..i], paths[..i])
    ensures var s' := Snapshot(s.ids + {ids[i]}, s.byPublicPath[paths[i] := ids[i]], s.publicPaths + [paths[i]]);
            if !Acceptable(ids[i], paths[i]) || ids[i] in s.ids || paths[i] in s.byPublicPath then
              !BuildableRoutes(ids, paths)
            else BuildableRoutes(ids[..i + 1], paths[..i + 1]) && Indexes(s', ids[..i + 1], paths[..i + 1])
  {
    assert ids[..i + 1] == ids[..i] + [ids[i]] && paths[..i + 1] == paths[..i] + [paths[i]];
    if !Acceptable(ids[i], paths[i]) {
    } else if ids[i] in s.ids {
      var k :| 0 <= k < i && ids[..i][k] == ids[i];
      assert ids[k] == ids[i];
    } else if paths[i] in s.byPublicPath {
      var k :| 0 <= k < i && paths[..i][k] == paths[i];
      assert paths[k] == paths[i];
    }
  }

  predicate Matches(path: string, publicPath: string) {
    Under(path, publicPath)
  }

  /** The first match, which is the longest. */
  method MatchPublicPath(s: Snapshot, path: string) returns (r: Option<string>)
    requires WellFormed(s)
    ensures r.None? <==> forall p :: p in s.byPublicPath ==> !Matches(path, p)
    ensures r.Some? ==> exists p :: p in s.byPublicPath && Matches(path, p) && r.value == s.byPublicPath[p]
                                    && forall q :: q in s.byPublicPath && Matches(path, q) && q != p ==> |q| < |p|
  {
    for i := 0 to |s.publicPaths|
      invariant forall k :: 0 <= k < i ==> !Matches(path, s.publicPaths[k])
    {
      var publicPath := s.publicPaths[i];
      if path == publicPath || HasPrefix(path, publicPath + "/") {
        forall q | q in s.byPublicPath && Matches(path, q) && q != publicPath ensures |q| < |publicPath| {
          var k :| 0 <= k < |s.publicPaths| && s.publicPaths[k] == q;
          if |q| == |publicPath| { EqualLengthMatches(path, q, publicPath); }
        }
        return Some(s.byPublicPath[publicPath]);
      }
    }
    return None;
  }

  lemma EqualLengthMatches(path: string, p: string, q: string)
    requires Matches(path, p) && Matches(path, q) && |p| == |q|
    ensures p == q
  {
    assert p == path[..|p|] && q == path[..|q|];
  }

  /** Keeps the last good snapshot when the new list cannot be built. */
  class CatalogCache {
    var snapshot: Option<Snapshot>

    constructor ()
      ensures snapshot == None
    {
      snapshot := None;
    }

    method Refresh(services: seq<Service>) returns (ok: bool)
      modifies this
      ensures ok <==> Buildable(services)
      ensures ok ==>
                snapshot.Some? && WellFormed(snapshot.value) &&
                Indexes(snapshot.value, EdgeIds(services), EdgePaths(services))
      ensures !ok ==> snapshot == old(snapshot)
    {
      var built := NewCatalogSnapshot(services);
      if built.None? { return false; }
      snapshot := built;
      ok := true;
    }
  }

  // From admission to routing.

  /** `services` lists the enabled rows. */
  ghost predicate ListsEnabled(services: seq<Service>, t: Table) {
    && (forall i :: 0 <= i < |services| ==>
          services[i].id in t && t[services[i].id].enabled && services[i].publicPath == PathOf(t[services[i].id]))
    && (forall i, j :: 0 <= i < j < |services| ==> services[i].id != services[j].id)
  }

  lemma NoSpaceNoTrim(s: string)
    requires forall c <- s :: !IsSpace(c)
    ensures TrimSpace(s) == s
  {
    if s != "" { assert s[0] in s && s[|s| - 1] in s; }
  }

  lemma EdgeSeesTheRow(t: Table, s: Service)
    requires EnabledAreRoutable(t) && s.id in t && t[s.id].enabled && s.publicPath == PathOf(t[s.id])
    ensures EdgeId(s) == s.id && EdgePath(s) == s.publicPath && Acceptable(s.id, s.publicPath)
  {
    NoSpaceNoTrim(s.publicPath);
    NoSpaceNoTrim(s.id);
  }

  /** The snapshot of every admitted catalog builds. */
  lemma SnapshotAlwaysBuilds(t: Table, services: seq<Service>)
    requires UniquePaths(t) && EnabledAreRoutable(t) && ListsEnabled(services, t)
    ensures Buildable(services)
  {
    forall i | 0 <= i < |services|
      ensures EdgeId(services[i]) == services[i].id && EdgePath(services[i]) == services[i].publicPath
                                           && Acceptable(services[i].id, services[i].publicPath)
    {
      EdgeSeesTheRow(t, services[i]);
    }
  }

  /** Two public paths have a request in common exactly when they overlap. */
  lemma AmbiguousIff(a: string, b: string)
    ensures (exists path: string :: Matches(path, a) && Matches(path, b)) <==> Overlap(a, b)
  {
    forall path: string | Matches(path, a) && Matches(path, b) ensures Overlap(a, b) {
      assert a == path[..|a|] && b == path[..|b|];
      if |a| < |b| {
        assert path[|a|] == (a + "/")[|a|];
        assert a + "/" == b[..|a| + 1];
      } else if |b| < |a| {
        assert path[|b|] == (b + "/")[|b|];
        assert b + "/" == a[..|b| + 1];
      }
    }
    if Under(a, b) { assert Matches(a, a) && Matches(a, b); }
    if Under(b, a) { assert Matches(b, a) && Matches(b, b); }
  }

  /** In every admitted catalog a request path belongs to at most one enabled service. */
  lemma RoutingIsUnambiguous(t: Table, path: string, i: string, j: string)
    requires PairwiseApart(t) && EnabledAreRoutable(t) && i in t && j in t && t[i].enabled && t[j].enabled
    requires Matches(path, PathOf(t[i])) && Matches(path, PathOf(t[j]))
    ensures i == j
  {
    AmbiguousIff(PathOf(t[i]), PathOf(t[j]));
  }
}
