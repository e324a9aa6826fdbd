/** One rotating credential shared by many bridge processes under a file lock (internal/credentialbridge/store.go). */
module CredentialBridge {
  import opened Wrappers

  datatype Token = Token(access: string, refresh: string)

  /** `matches`: resource, client id, token type and endpoints are those of this client. */
  datatype Credential = Credential(token: Token, matches: bool)

  /** The token endpoint's reply; an unusable one counts as refused. */
  datatype Reply = Granted(fresher: Token) | Refused

  // The decision taken under the lock.

  datatype Decision = Return(token: Token) | Present(token: Token) | Deny

  /** `valid`: the stored token has not expired; `rejected`: the access token the server just refused, or empty. */
  function Decide(stored: Option<Credential>, rejected: string, valid: bool): Decision {
    if stored.None? || !stored.value.matches || stored.value.token.access == "" then Deny
    else
      var t := stored.value.token;
      if valid && (rejected == "" || t.access != rejected) then Return(t)
      else if t.refresh == "" then Deny
      else Present(t)
  }

  datatype Result = Ok(token: Token) | Err

  /** What the environment contributes to a call: whether the keystore can be read, whether the stored token has not
      expired, the endpoint's reply, and whether a write takes effect and is reported to have done so. */
  datatype Call = Call(readable: bool, valid: bool, reply: Reply, writes: bool, reported: bool)

  predicate Refreshed(call: Call) {
    call.reply.Granted? && call.reply.fresher.access != "" && call.writes
  }

  /** The refresh token that a call presents, if any. */
  function Presented(stored: Option<Credential>, rejected: string, call: Call): Option<string> {
    if !call.readable then None
    else match Decide(stored, rejected, call.valid)
      case Present(t) => Some(t.refresh)
      case Return(_) => None
      case Deny => None
  }

  /** What a call leaves in the keystore: the refreshed token if there was a refresh and its write took effect. */
  function AfterCall(stored: Option<Credential>, rejected: string, call: Call): Option<Credential> {
    if Presented(stored, rejected, call).Some? && Refreshed(call)
    then Some(stored.value.(token := call.reply.fresher)) else stored
  }

  class CredentialStore {
    var keystore: Option<Credential>

    constructor ()
      ensures keystore == None
    {
      keystore := None;
    }

    /** A whole `token` call while the lock is held. It succeeds with the stored token, or with a refreshed one that is
        then stored. A call that fails leaves the keystore as it was, unless its write took effect unreported. */
    method Token(rejected: string, call: Call) returns (r: Result, presented: Option<string>)
      modifies this
      ensures presented == Presented(old(keystore), rejected, call)
      ensures keystore == AfterCall(old(keystore), rejected, call)
      ensures r.Ok? <==> if presented.None? then call.readable && Decide(old(keystore), rejected, call.valid).Return?
                         else Refreshed(call) && call.reported
      ensures r.Ok? ==> keystore.Some? && r.token == keystore.value.token && r.token.access != ""
      ensures r.Ok? || presented.Some? ==> old(keystore).Some? && old(keystore).value.matches
      ensures presented.Some? ==> presented.value == old(keystore).value.token.refresh != ""
      ensures r.Ok? && presented.None? ==> call.valid && r.token == old(keystore).value.token
      ensures r.Ok? && rejected != "" && presented.None? ==> r.token.access != rejected
      ensures r.Err? && keystore != old(keystore) ==> Refreshed(call) && !call.reported
    {
      if !call.readable { return Err, None; }
      if keystore.None? || !keystore.value.matches || keystore.value.token.access == "" { return Err, None; }
      var token := keystore.value.token;
      if call.valid && (rejected == "" || token.access != rejected) { return Ok(token), None; }
      if token.refresh == "" { return Err, None; }
      presented := Some(token.refresh);
      if call.reply.Refused? || call.reply.fresher.access == "" { return Err, presented; }
      if call.writes { keystore := Some(keystore.value.(token := call.reply.fresher)); }
      r := if call.writes && call.reported then Ok(call.reply.fresher) else Err;
    }

    /** `RoundTrip`: sends with the current token, and once more after a 401 with another one. `replayable`: the body
        can be read again. The list of access tokens sent is returned; the last reply is the caller's. */
    method RoundTrip(call1: Call, unauthorized: bool, replayable: bool, call2: Call)
      returns (sent: seq<string>, ok: bool)
      modifies this
      ensures |sent| <= 2
      ensures sent != [] ==> old(keystore).Some? && old(keystore).value.matches
      ensures |sent| == 2 ==> unauthorized && replayable
      ensures ok ==> |sent| >= 1 && (unauthorized && replayable ==> |sent| == 2)
      ensures |sent| == 2 && (call2.reply.Granted? ==> call2.reply.fresher.access != sent[0]) ==> sent[1] != sent[0]
      ensures ok ==> keystore.Some? && sent[|sent| - 1] == keystore.value.token.access
    {
      sent, ok := [], false;
      var first, _ := Token("", call1);
      if first.Err? { return; }
      sent := [first.token.access];
      if !unauthorized || !replayable { return sent, true; }
      var second, _ := Token(first.token.access, call2);
      if second.Err? { return; }
      sent, ok := sent + [second.token.access], true;
    }
  }

  // Many processes, one lock.

  type Process = nat

  datatype Outcome = Pending | Failed | NotStored | Stored

  datatype Presentation = Presentation(token: Token, outcome: Outcome)

  datatype Phase =
    | Idle
    | Locked(rejected: string)
    | Refreshing(stored: Credential)
    | Storing(next: Credential)
    | SignedIn(login: Credential)

  /** `issued` are the tokens the server has ever handed out; `log` the refresh tokens presented, in order. */
  datatype State = State(keystore: Option<Credential>, holder: Option<Process>, phases: map<Process, Phase>,
                         issued: set<Token>, log: seq<Presentation>)

  datatype Action =
    | Lock(p: Process, rejected: string)
    | ReadKeystore(p: Process, readable: bool, valid: bool)
    | Respond(p: Process, reply: Reply)
    | WriteKeystore(p: Process, ok: bool)
    | SignIn(p: Process, token: Token, matches: bool)
    | StoreLogin(p: Process, ok: bool)
    | Logout(p: Process)
    | Die(p: Process)

  function PhaseOf(s: State, p: Process): Phase {
    if p in s.phases then s.phases[p] else Idle
  }

  function Become(s: State, p: Process, phase: Phase): State {
    s.(phases := s.phases[p := phase])
  }

  function Unlock(s: State, p: Process): State {
    s.(holder := None, phases := s.phases[p := Idle])
  }

  function Conclude(log: seq<Presentation>, outcome: Outcome): seq<Presentation> {
    if log == [] then [] else log[|log| - 1 := log[|log| - 1].(outcome := outcome)]
  }

  function LockStep(s: State, p: Process, rejected: string): State {
    if s.holder.None? && PhaseOf(s, p).Idle? then Become(s, p, Locked(rejected)).(holder := Some(p)) else s
  }

  function ReadStep(s: State, p: Process, readable: bool, valid: bool): State {
    if !PhaseOf(s, p).Locked? then s
    else if !readable then Unlock(s, p)
    else match Decide(s.keystore, PhaseOf(s, p).rejected, valid)
      case Present(t) =>
        Become(s, p, Refreshing(s.keystore.value)).(log := s.log + [Presentation(t, Pending)])
      case Return(t) => Unlock(s, p)
      case Deny => Unlock(s, p)
  }

  function RespondStep(s: State, p: Process, reply: Reply): State {
    if !PhaseOf(s, p).Refreshing? then s
    else match reply
      case Refused => Unlock(s, p).(log := Conclude(s.log, Failed))
      case Granted(t) =>
        var s' := s.(issued := s.issued + {t});
        if t.access == "" then Unlock(s', p).(log := Conclude(s.log, Failed))
        else Become(s', p, Storing(PhaseOf(s, p).stored.(token := t)))
  }

  /** `ok`: the write takes effect, whatever the process is told. */
  function WriteStep(s: State, p: Process, ok: bool): State {
    if !PhaseOf(s, p).Storing? then s
    else if ok then Unlock(s, p).(keystore := Some(PhaseOf(s, p).next), log := Conclude(s.log, Stored))
    else Unlock(s, p).(log := Conclude(s.log, NotStored))
  }

  /** A login holds its new token before it takes the lock; the locked part is one write. It may be a login for another
      client or resource that shares the keystore entry. */
  function SignInStep(s: State, p: Process, token: Token, matches: bool): State {
    if PhaseOf(s, p).Idle? then Become(s, p, SignedIn(Credential(token, matches))).(issued := s.issued + {token}) else s
  }

  function StoreLoginStep(s: State, p: Process, ok: bool): State {
    if s.holder.Some? || !PhaseOf(s, p).SignedIn? then s
    else Become(s, p, Idle).(keystore := if ok then Some(PhaseOf(s, p).login) else s.keystore)
  }

  /** The operating system releases the lock of a process that dies; a presentation it made comes to nothing. */
  function DieStep(s: State, p: Process): State {
    match PhaseOf(s, p)
    case Idle => s
    case SignedIn(_) => Become(s, p, Idle)
    case Locked(_) => Unlock(s, p)
    case Refreshing(_) => Unlock(s, p).(log := Conclude(s.log, NotStored))
    case Storing(_) => Unlock(s, p).(log := Conclude(s.log, NotStored))
  }

  function Next(s: State, a: Action): State {
    match a
    case Lock(p, rejected) => LockStep(s, p, rejected)
    case ReadKeystore(p, readable, valid) => ReadStep(s, p, readable, valid)
    case Respond(p, reply) => RespondStep(s, p, reply)
    case WriteKeystore(p, ok) => WriteStep(s, p, ok)
    case SignIn(p, token, matches) => SignInStep(s, p, token, matches)
    case StoreLogin(p, ok) => StoreLoginStep(s, p, ok)
    case Logout(p) => if s.holder.None? then s.(keystore := None) else s
    case Die(p) => DieStep(s, p)
  }

  function Run(s: State, actions: seq<Action>): State
    decreases |actions|
  {
    if actions == [] then s else Next(Run(s, actions[..|actions| - 1]), actions[|actions| - 1])
  }

  const START := State(None, None, map[], {}, [])

  /** A token that shares neither its refresh nor its access token with any issued before. */
  predicate New(t: Token, issued: set<Token>) {
    forall u :: u in issued ==> u.refresh != t.refresh && u.access != t.access
  }

  /** A server that rotates: whatever it hands out is new. */
  predicate Rotates(s: State, a: Action) {
    && (a.Respond? && a.reply.Granted? ==> New(a.reply.fresher, s.issued))
    && (a.SignIn? ==> New(a.token, s.issued))
  }

  predicate AlwaysRotates(actions: seq<Action>)
    decreases |actions|
  {
    actions == [] || (AlwaysRotates(actions[..|actions| - 1]) &&
      Rotates(Run(START, actions[..|actions| - 1]), actions[|actions| - 1]))
  }

  // The invariant, in parts.

  predicate Holds(phase: Phase) {
    phase.Locked? || phase.Refreshing? || phase.Storing?
  }

  /** Only the lock's holder is at work. */
  predicate OneHolder(s: State) {
    forall p :: p in s.phases && Holds(s.phases[p]) ==> s.holder == Some(p)
  }

  /** The holder refreshes the stored credential, and its presentation is the last of the log. */
  predicate HolderIsCurrent(s: State) {
    forall p :: p in s.phases && (s.phases[p].Refreshing? || s.phases[p].Storing?) ==>
      && s.keystore.Some? && s.log != [] && s.log[|s.log| - 1].outcome == Pending
      && s.log[|s.log| - 1].token == s.keystore.value.token
      && (s.phases[p].Refreshing? ==> s.phases[p].stored == s.keystore.value)
  }

  /** Every other presentation is concluded. */
  predicate OthersConcluded(s: State) {
    forall i :: 0 <= i < |s.log| && s.log[i].outcome == Pending ==>
      i == |s.log| - 1 && s.holder.Some? &&
        (PhaseOf(s, s.holder.value).Refreshing? || PhaseOf(s, s.holder.value).Storing?)
  }

  /** No two tokens ever issued share a part. */
  predicate IssuedApart(issued: set<Token>) {
    forall t, u :: t in issued && u in issued && (t.refresh == u.refresh || t.access == u.access) ==> t == u
  }

  predicate AllIssued(s: State) {
    && (s.keystore.Some? ==> s.keystore.value.token in s.issued)
    && (forall i :: 0 <= i < |s.log| ==> s.log[i].token in s.issued)
    && (forall p :: p in s.phases && s.phases[p].Storing? ==> s.phases[p].next.token in s.issued)
    && (forall p :: p in s.phases && s.phases[p].SignedIn? ==> s.phases[p].login.token in s.issued)
  }

  /** A token on its way into the keystore was never presented. */
  predicate PendingUnused(s: State) {
    forall p, i :: p in s.phases && 0 <= i < |s.log| ==>
      && (s.phases[p].Storing? ==> s.log[i].token != s.phases[p].next.token)
      && (s.phases[p].SignedIn? ==> s.log[i].token != s.phases[p].login.token)
  }

  /** Nor is it the one stored, nor in the hands of another process. */
  predicate PendingApart(s: State) {
    && (forall p :: p in s.phases && s.keystore.Some? ==>
          && (s.phases[p].Storing? ==> s.phases[p].next.token != s.keystore.value.token)
          && (s.phases[p].SignedIn? ==> s.phases[p].login.token != s.keystore.value.token))
    && (forall p, q :: p in s.phases && q in s.phases && p != q && s.phases[p].SignedIn? ==>
          && (s.phases[q].SignedIn? ==> s.phases[p].login.token != s.phases[q].login.token)
          && (s.phases[q].Storing? ==> s.phases[p].login.token != s.phases[q].next.token))
  }

  /** A token whose refresh succeeded and was stored is no longer the stored one. */
  predicate SpentIsGone(s: State) {
    forall i :: 0 <= i < |s.log| && s.log[i].outcome == Stored ==>
      s.keystore.Some? ==> s.log[i].token != s.keystore.value.token
  }

  /** What is to be shown: a token is presented again only after its earlier presentation came to nothing. */
  predicate NoReplay(log: seq<Presentation>) {
    forall i, j :: 0 <= i < j < |log| && log[i].token == log[j].token ==>
      log[i].outcome == Failed || log[i].outcome == NotStored
  }

  /** Who works on what. */
  predicate LockInv(s: State) {
    OneHolder(s) && HolderIsCurrent(s) && OthersConcluded(s)
  }

  /** Where each token ever issued may be. */
  predicate TokenInv(s: State) {
    IssuedApart(s.issued) && AllIssued(s) && PendingUnused(s) && PendingApart(s)
  }

  predicate Inv(s: State) {
    LockInv(s) && TokenInv(s) && SpentIsGone(s) && NoReplay(s.log)
  }

  lemma RefreshKeepsLockInv(s: State, a: Action)
    requires LockInv(s) && (a.Lock? || a.ReadKeystore? || a.Respond? || a.WriteKeystore?)
    ensures LockInv(Next(s, a))
  {
    match a {
      case Lock(p, rejected) => assert LockInv(LockStep(s, p, rejected));
      case ReadKeystore(p, readable, valid) => assert LockInv(ReadStep(s, p, readable, valid));
      case Respond(p, reply) => assert LockInv(RespondStep(s, p, reply));
      case WriteKeystore(p, ok) => assert LockInv(WriteStep(s, p, ok));
    }
  }

  lemma LoginKeepsLockInv(s: State, a: Action)
    requires LockInv(s) && (a.SignIn? || a.StoreLogin? || a.Logout?)
    ensures LockInv(Next(s, a))
  {
  }

  lemma DieKeepsLockInv(s: State, p: Process)
    requires LockInv(s)
    ensures LockInv(DieStep(s, p))
  {
  }

  lemma LockKeepsTokens(s: State, p: Process, rejected: string)
    requires Inv(s)
    ensures TokenInv(LockStep(s, p, rejected))
  {
  }

  lemma ReadKeepsTokens(s: State, p: Process, readable: bool, valid: bool)
    requires Inv(s)
    ensures TokenInv(ReadStep(s, p, readable, valid))
  {
  }

  lemma RespondKeepsTokens(s: State, p: Process, reply: Reply)
    requires Inv(s) && Rotates(s, Respond(p, reply))
    ensures TokenInv(RespondStep(s, p, reply))
  {
  }

  lemma WriteKeepsTokens(s: State, p: Process, ok: bool)
    requires Inv(s)
    ensures TokenInv(WriteStep(s, p, ok))
  {
  }

  lemma LoginKeepsTokens(s: State, a: Action)
    requires Inv(s) && Rotates(s, a) && (a.SignIn? || a.StoreLogin?)
    ensures TokenInv(Next(s, a))
  {
  }

  /** The same tokens in the same places, or in fewer. */
  predicate SameTokens(s: State, s': State) {
    && s'.keystore == s.keystore && s'.issued == s.issued && |s'.log| == |s.log|
    && (forall i :: 0 <= i < |s.log| ==> s'.log[i].token == s.log[i].token)
    && (forall q :: q in s'.phases && !s'.phases[q].Idle? ==> q in s.phases && s'.phases[q] == s.phases[q])
  }

  lemma SameTokensKeepInv(s: State, s': State)
    requires TokenInv(s) && SameTokens(s, s')
    ensures TokenInv(s')
  {
  }

  lemma DieKeepsTokens(s: State, p: Process)
    requires Inv(s)
    ensures TokenInv(DieStep(s, p))
  {
    assert SameTokens(s, DieStep(s, p));
    SameTokensKeepInv(s, DieStep(s, p));
  }

  lemma LogoutKeepsTokens(s: State, p: Process)
    requires Inv(s)
    ensures TokenInv(Next(s, Logout(p)))
  {
  }

  lemma NextKeepsTokens(s: State, a: Action)
    requires Inv(s) && Rotates(s, a)
    ensures TokenInv(Next(s, a))
  {
    match a {
      case Lock(p, rejected) => LockKeepsTokens(s, p, rejected);
      case ReadKeystore(p, readable, valid) => ReadKeepsTokens(s, p, readable, valid);
      case Respond(p, reply) => RespondKeepsTokens(s, p, reply);
      case WriteKeystore(p, ok) => WriteKeepsTokens(s, p, ok);
      case SignIn(p, token, matches) => LoginKeepsTokens(s, a);
      case StoreLogin(p, ok) => LoginKeepsTokens(s, a);
      case Logout(p) => LogoutKeepsTokens(s, p);
      case Die(p) => DieKeepsTokens(s, p);
    }
  }

  lemma RefreshKeepsLog(s: State, a: Action)
    requires Inv(s) && (a.ReadKeystore? || a.Respond? || a.WriteKeystore?)
    ensures SpentIsGone(Next(s, a)) && NoReplay(Next(s, a).log)
  {
  }

  lemma OthersKeepLog(s: State, a: Action)
    requires Inv(s) && !(a.ReadKeystore? || a.Respond? || a.WriteKeystore?)
    ensures SpentIsGone(Next(s, a)) && NoReplay(Next(s, a).log)
  {
  }

  lemma NextKeepsInv(s: State, a: Action)
    requires Inv(s) && Rotates(s, a)
    ensures Inv(Next(s, a))
  {
    NextKeepsTokens(s, a);
    if a.Die? {
      DieKeepsLockInv(s, a.p);
    } else if a.SignIn? || a.StoreLogin? || a.Logout? {
      LoginKeepsLockInv(s, a);
    } else {
      RefreshKeepsLockInv(s, a);
    }
    if a.ReadKeystore? || a.Respond? || a.WriteKeystore? {
      RefreshKeepsLog(s, a);
    } else {
      OthersKeepLog(s, a);
    }
  }

  lemma {:induction false} RunKeepsInv(actions: seq<Action>)
    requires AlwaysRotates(actions)
    ensures Inv(Run(START, actions))
    decreases |actions|
  {
    if actions != [] {
      RunKeepsInv(actions[..|actions| - 1]);
      NextKeepsInv(Run(START, actions[..|actions| - 1]), actions[|actions| - 1]);
    }
  }

  /** However the processes interleave: a refresh token is presented again only if its earlier presentation failed or
      its result could not be stored. */
  lemma RefreshTokensAreNotReplayed(actions: seq<Action>, i: nat, j: nat)
    requires AlwaysRotates(actions) && i < j < |Run(START, actions).log|
    requires Run(START, actions).log[i].token.refresh == Run(START, actions).log[j].token.refresh
    ensures Run(START, actions).log[i].outcome == Failed || Run(START, actions).log[i].outcome == NotStored
  {
    RunKeepsInv(actions);
  }

  predicate NothingFails(log: seq<Presentation>) {
    forall i :: 0 <= i < |log| ==> log[i].outcome != Failed && log[i].outcome != NotStored
  }

  /** When nothing fails, no refresh token is ever presented twice. */
  lemma PresentedOnce(actions: seq<Action>, i: nat, j: nat)
    requires AlwaysRotates(actions) && NothingFails(Run(START, actions).log) && i < j < |Run(START, actions).log|
    ensures Run(START, actions).log[i].token.refresh != Run(START, actions).log[j].token.refresh
  {
    RunKeepsInv(actions);
  }

  // When exactly a refresh token is presented again.

  lemma RunStep(actions: seq<Action>, a: Action)
    ensures Run(START, actions + [a]) == Next(Run(START, actions), a)
  {
    assert (actions + [a])[..|actions|] == actions;
  }

  /** The state before step n. */
  function At(actions: seq<Action>, n: nat): State
    requires n <= |actions|
  {
    Run(START, actions[..n])
  }

  lemma AtStep(actions: seq<Action>, n: nat)
    requires n < |actions|
    ensures At(actions, n + 1) == Next(At(actions, n), actions[n])
  {
    assert actions[..n + 1] == actions[..n] + [actions[n]];
    RunStep(actions[..n], actions[n]);
  }

  lemma {:induction false} RotatesUpTo(actions: seq<Action>, n: nat)
    requires AlwaysRotates(actions) && n <= |actions|
    ensures AlwaysRotates(actions[..n])
    decreases |actions|
  {
    if n < |actions| {
      var front := actions[..|actions| - 1];
      RotatesUpTo(front, n);
      assert front[..n] == actions[..n];
    } else {
      assert actions[..n] == actions;
    }
  }

  /** The step presents the stored token. */
  predicate Presents(s: State, a: Action) {
    && a.ReadKeystore? && a.readable && PhaseOf(s, a.p).Locked?
    && Decide(s.keystore, PhaseOf(s, a.p).rejected, a.valid).Present?
  }

  /** The step stores a token: a refresh by its process, or a login while nobody holds the lock. */
  predicate Stores(s: State, a: Action) {
    || (a.WriteKeystore? && a.ok && PhaseOf(s, a.p).Storing?)
    || (a.StoreLogin? && a.ok && PhaseOf(s, a.p).SignedIn? && s.holder.None?)
  }

  predicate NothingStored(actions: seq<Action>, i: nat, j: nat)
    requires i <= j <= |actions|
  {
    forall k :: i < k < j ==> !Stores(At(actions, k), actions[k])
  }

  predicate InLog(log: seq<Presentation>, t: Token) {
    exists k :: 0 <= k < |log| && log[k].token == t
  }

  lemma NextKeepsLogged(s: State, a: Action, t: Token)
    requires InLog(s.log, t)
    ensures InLog(Next(s, a).log, t)
  {
    var k :| 0 <= k < |s.log| && s.log[k].token == t;
    assert Next(s, a).log[k].token == t;
  }

  /** Without a storing step the keystore keeps its token or is cleared; a storing step brings in one that was never
      presented. */
  lemma KeystoreStep(s: State, a: Action)
    requires Inv(s)
    ensures var k := Next(s, a).keystore;
            if Stores(s, a) then k.Some? && !InLog(s.log, k.value.token) else k == s.keystore || k.None?
  {
  }

  /** The keystore before step n still holds t, presented at step i, exactly when nothing was stored since. */
  predicate Follows(actions: seq<Action>, i: nat, n: nat, t: Token)
    requires i < n <= |actions|
  {
    && InLog(At(actions, n).log, t)
    && (At(actions, n).keystore.Some? ==> (At(actions, n).keystore.value.token == t <==> NothingStored(actions, i, n)))
  }

  lemma {:induction false} KeystoreBetween(actions: seq<Action>, i: nat, n: nat, t: Token)
    requires AlwaysRotates(actions) && i < n <= |actions|
    requires Presents(At(actions, i), actions[i]) && At(actions, i).keystore.value.token == t
    ensures Follows(actions, i, n, t)
  {
    if n == i + 1 {
      AtStep(actions, i);
      var log := At(actions, n).log;
      assert log[|log| - 1].token == t;
    } else {
      KeystoreBetween(actions, i, n - 1, t);
      RotatesUpTo(actions, n - 1);
      RunKeepsInv(actions[..n - 1]);
      FollowStep(actions, i, n - 1, t);
    }
  }

  lemma FollowStep(actions: seq<Action>, i: nat, n: nat, t: Token)
    requires i < n < |actions| && Follows(actions, i, n, t) && Inv(At(actions, n))
    ensures Follows(actions, i, n + 1, t)
  {
    AtStep(actions, n);
    NextKeepsLogged(At(actions, n), actions[n], t);
    KeystoreStep(At(actions, n), actions[n]);
    assert NothingStored(actions, i, n + 1) <==> NothingStored(actions, i, n) && !Stores(At(actions, n), actions[n]);
  }

  /** Two presentations show the same refresh token if and only if nothing was stored between them. */
  lemma PresentedAgainIff(actions: seq<Action>, i: nat, j: nat)
    requires AlwaysRotates(actions) && i < j < |actions|
    requires Presents(At(actions, i), actions[i]) && Presents(At(actions, j), actions[j])
    ensures At(actions, i).keystore.value.token.refresh == At(actions, j).keystore.value.token.refresh
            <==> NothingStored(actions, i, j)
  {
    var t := At(actions, i).keystore.value.token;
    KeystoreBetween(actions, i, j, t);
    RotatesUpTo(actions, j);
    RunKeepsInv(actions[..j]);
    var s := At(actions, j);
    var k :| 0 <= k < |s.log| && s.log[k].token == t;
    assert t in s.issued && s.keystore.value.token in s.issued;
  }

  // Tokens of another client or resource.

  /** The token is in the keystore or in a login at most as one of those, and was not presented. */
  predicate Foreign(s: State, t: Token) {
    && t in s.issued && !InLog(s.log, t)
    && (s.keystore.Some? && s.keystore.value.token == t ==> !s.keystore.value.matches)
    && (forall p :: p in s.phases ==>
          && (s.phases[p].SignedIn? && s.phases[p].login.token == t ==> !s.phases[p].login.matches)
          && (s.phases[p].Refreshing? ==> s.phases[p].stored.token != t)
          && (s.phases[p].Storing? ==> s.phases[p].next.token != t))
  }

  lemma ForeignReadStep(s: State, p: Process, readable: bool, valid: bool, t: Token)
    requires Foreign(s, t)
    ensures Foreign(ReadStep(s, p, readable, valid), t)
  {
  }

  lemma ForeignStep(s: State, a: Action, t: Token)
    requires Foreign(s, t) && Rotates(s, a)
    ensures Foreign(Next(s, a), t)
  {
    if a.ReadKeystore? { ForeignReadStep(s, a.p, a.readable, a.valid, t); }
  }

  /** However the processes interleave, a token that came with a login for another client or resource is never presented
      and never handed to a caller. */
  lemma {:induction false} ForeignIsNeverUsed(actions: seq<Action>, i: nat, p: Process, t: Token)
    requires AlwaysRotates(actions) && i < |actions| && actions[i] == SignIn(p, t, false)
    requires PhaseOf(At(actions, i), p).Idle?
    ensures Foreign(Run(START, actions), t)
    ensures forall rejected, valid :: Decide(Run(START, actions).keystore, rejected, valid) != Return(t)
    decreases |actions|
  {
    var front := actions[..|actions| - 1];
    assert actions == front + [actions[|front|]];
    RunStep(front, actions[|front|]);
    if i == |front| {
      assert actions[..i] == front;
      RotatesUpTo(actions, i);
      RunKeepsInv(front);
      FreshIsUnused(Run(START, front), p, t);
    } else {
      assert front[..i] == actions[..i];
      ForeignIsNeverUsed(front, i, p, t);
      ForeignStep(Run(START, front), actions[|front|], t);
    }
  }

  lemma FreshIsUnused(s: State, p: Process, t: Token)
    requires Inv(s) && New(t, s.issued) && PhaseOf(s, p).Idle?
    ensures Foreign(SignInStep(s, p, t, false), t)
  {
  }

  // Callers together.

  /** Callers whom the server refused the same access token share one refresh: once it is stored, and while what is
      stored is valid, none of them presents anything. */
  lemma RejectedCallersShareARefresh(actions: seq<Action>, i: nat, p: Process, readable: bool)
    requires AlwaysRotates(actions)
    requires var s := Run(START, actions);
             && i < |s.log| && s.log[i].outcome == Stored && PhaseOf(s, p) == Locked(s.log[i].token.access)
    ensures var s := Run(START, actions);
            && ReadStep(s, p, readable, true).log == s.log
            && (s.keystore.Some? && s.keystore.value.matches && s.keystore.value.token.access != "" ==>
                  Decide(s.keystore, s.log[i].token.access, true) == Return(s.keystore.value.token))
  {
    RunKeepsInv(actions);
  }

  /** A call whose steps no other process interrupts does what `CredentialStore.Token` does. */
  lemma UninterruptedCall(s: State, p: Process, rejected: string, call: Call)
    requires s.holder.None? && PhaseOf(s, p).Idle?
    ensures var locked := LockStep(s, p, rejected);
            var read := ReadStep(locked, p, call.readable, call.valid);
            var end := WriteStep(RespondStep(read, p, call.reply), p, call.writes);
            end.holder.None? && PhaseOf(end, p).Idle? && end.keystore == AfterCall(s.keystore, rejected, call)
  {
  }

  /** One stored credential, one presentation of it pending. */
  lemma FirstPresentation(t: Token) returns (actions: seq<Action>)
    requires t.access != "" && t.refresh != ""
    ensures var c := Credential(t, true);
            Run(START, actions) ==
            State(Some(c), Some(1), map[0 := Idle, 1 := Refreshing(c)], {t}, [Presentation(t, Pending)])
  {
    var c := Credential(t, true);
    RunStep([], SignIn(0, t, true));
    RunStep([] + [SignIn(0, t, true)], StoreLogin(0, true));
    var signedIn := [] + [SignIn(0, t, true)] + [StoreLogin(0, true)];
    assert Run(START, signedIn) == State(Some(c), None, map[0 := Idle], {t}, []);
    RunStep(signedIn, Lock(1, ""));
    RunStep(signedIn + [Lock(1, "")], ReadKeystore(1, true, false));
    actions := signedIn + [Lock(1, "")] + [ReadKeystore(1, true, false)];
  }

  /** Both premises are needed. After a refused refresh the same token is presented again. */
  lemma RefusedTokenIsPresentedAgain(t: Token) returns (actions: seq<Action>)
    requires t.access != "" && t.refresh != ""
    ensures Run(START, actions).log == [Presentation(t, Failed), Presentation(t, Pending)]
  {
    actions := FirstPresentation(t);
    RunStep(actions, Respond(1, Refused));
    actions := actions + [Respond(1, Refused)];
    actions := SecondPresentation(actions, t);
  }

  /** So it is when the refresh succeeded and could not be stored. */
  lemma UnstoredTokenIsPresentedAgain(t: Token, u: Token) returns (actions: seq<Action>)
    requires t.access != "" && t.refresh != "" && u.access != ""
    ensures Run(START, actions).log == [Presentation(t, NotStored), Presentation(t, Pending)]
  {
    actions := FirstPresentation(t);
    RunStep(actions, Respond(1, Granted(u)));
    actions := actions + [Respond(1, Granted(u))];
    RunStep(actions, WriteKeystore(1, false));
    actions := actions + [WriteKeystore(1, false)];
    assert Run(START, actions).log == [Presentation(t, NotStored)];
    actions := SecondPresentation(actions, t);
  }

  /** And when the process died before it could store the reply. */
  lemma DeadProcessTokenIsPresentedAgain(t: Token, u: Token) returns (actions: seq<Action>)
    requires t.access != "" && t.refresh != "" && u.access != ""
    ensures Run(START, actions).log == [Presentation(t, NotStored), Presentation(t, Pending)]
  {
    actions := FirstPresentation(t);
    RunStep(actions, Respond(1, Granted(u)));
    actions := actions + [Respond(1, Granted(u))];
    RunStep(actions, Die(1));
    actions := actions + [Die(1)];
    assert Run(START, actions).log == [Presentation(t, NotStored)];
    actions := SecondPresentation(actions, t);
  }

  // Another process reads the keystore and presents its token.
  lemma SecondPresentation(before: seq<Action>, t: Token) returns (actions: seq<Action>)
    requires t.access != "" && t.refresh != ""
    requires var s := Run(START, before);
             s.keystore == Some(Credential(t, true)) && s.holder.None? && PhaseOf(s, 2).Idle?
    ensures Run(START, actions).log == Run(START, before).log + [Presentation(t, Pending)]
  {
    RunStep(before, Lock(2, ""));
    RunStep(before + [Lock(2, "")], ReadKeystore(2, true, false));
    actions := before + [Lock(2, "")] + [ReadKeystore(2, true, false)];
  }

  /** And a server that does not rotate is shown the same refresh token after a success. */
  lemma UnrotatedTokenIsReplayed(t: Token, access: string) returns (actions: seq<Action>)
    requires t.access != "" && t.refresh != "" && access != ""
    ensures Run(START, actions).log == [Presentation(t, Stored), Presentation(Token(access, t.refresh), Pending)]
  {
    var u := Token(access, t.refresh);
    actions := FirstPresentation(t);
    RunStep(actions, Respond(1, Granted(u)));
    actions := actions + [Respond(1, Granted(u))];
    RunStep(actions, WriteKeystore(1, true));
    actions := actions + [WriteKeystore(1, true)];
    assert Run(START, actions).keystore == Some(Credential(u, true)) &&
           Run(START, actions).log == [Presentation(t, Stored)];
    actions := SecondPresentation(actions, u);
  }
}
