/** Enrolling endpoint agents with quota-limited tokens. An enrolment first reads the token and the agent, and later
    commits through one conditional update, so other requests may run in between
    (apps/api/src/modules/discovery/discovery.service.ts). */
module Enrolment {
  import opened Common

  type TokenId = string
  type AgentId = string
  type RequestId = string
  type Time = int

  datatype Token = Token(expiresAt: Time, revoked: bool, maxEnrollments: nat, enrollmentCount: nat)

  /** `credential` stands for the hash of the newest credential handed to the agent. */
  datatype Agent = Agent(fingerprint: string, credential: string, token: TokenId, revoked: bool)

  /** What an enrolment has read before it commits. */
  datatype Pending = Pending(token: TokenId, maxSeen: nat, existing: Option<AgentId>, fingerprint: string,
                             credential: string)

  datatype Entry = Entry(token: TokenId, agent: AgentId, credential: string)

  /** `log` lists the committed enrolments and `issued` the credentials drawn so far; the service stores neither. */
  datatype Db = Db(now: Time, tokens: map<TokenId, Token>, agents: map<AgentId, Agent>,
                   pending: map<RequestId, Pending>, log: seq<Entry>, issued: set<string>)

  datatype Error = TokenInvalid | AlreadyEnrolled | QuotaReached | Conflict | NotFound | CredentialInvalid

  type Result = Outcome<Error>

  /** Random credentials and generated ids are inputs of a step. */
  datatype Step =
    | Tick(elapsed: nat)
    | CreateToken(token: TokenId, expiresAt: Time, maxEnrollments: nat)
    | RevokeToken(token: TokenId)
    | RevokeAgent(agent: AgentId)
    | Begin(request: RequestId, token: TokenId, fingerprint: string, credential: string)
    | Finish(request: RequestId, newAgent: AgentId)
    | Abort(request: RequestId)

  predicate Open(token: Token, now: Time) {
    !token.revoked && token.expiresAt > now
  }

  /** The agent with a fingerprint; the fingerprint is a unique column. */
  predicate HasFingerprint(agents: map<AgentId, Agent>, id: AgentId, fingerprint: string) {
    id in agents && agents[id].fingerprint == fingerprint
  }

  predicate Known(agents: map<AgentId, Agent>, fingerprint: string) {
    exists id | id in agents :: HasFingerprint(agents, id, fingerprint)
  }

  ghost function Lookup(agents: map<AgentId, Agent>, fingerprint: string): Option<AgentId> {
    if Known(agents, fingerprint)
    then var id :| id in agents && HasFingerprint(agents, id, fingerprint); Some(id)
    else None
  }

  lemma LookupFinds(agents: map<AgentId, Agent>, fingerprint: string)
    ensures Lookup(agents, fingerprint).None? <==> !Known(agents, fingerprint)
    ensures Lookup(agents, fingerprint).Some? ==> HasFingerprint(agents, Lookup(agents, fingerprint).value, fingerprint)
  {
  }

  ghost predicate CanBegin(db: Db, step: Step)
    requires step.Begin?
  {
    && step.request !in db.pending && step.credential !in db.issued
    && step.token in db.tokens && Open(db.tokens[step.token], db.now)
    && var existing := Lookup(db.agents, step.fingerprint);
       existing.Some? ==> existing.value in db.agents && db.agents[existing.value].revoked
  }

  /** The conditional update of the token matches, and the agent row can be written. */
  predicate CanFinish(db: Db, step: Step)
    requires step.Finish?
  {
    && step.request in db.pending
    && var p := db.pending[step.request];
       && p.token in db.tokens && Open(db.tokens[p.token], db.now) && db.tokens[p.token].enrollmentCount < p.maxSeen
       && (if p.existing.Some? then p.existing.value in db.agents
           else step.newAgent !in db.agents && !Known(db.agents, p.fingerprint))
  }

  function Finished(db: Db, step: Step): Db
    requires step.Finish? && CanFinish(db, step)
  {
    var p := db.pending[step.request];
    var token := db.tokens[p.token];
    var id := if p.existing.Some? then p.existing.value else step.newAgent;
    var fingerprint := if p.existing.Some? then db.agents[id].fingerprint else p.fingerprint;
    db.(tokens := db.tokens[p.token := token.(enrollmentCount := token.enrollmentCount + 1)],
        agents := db.agents[id := Agent(fingerprint, p.credential, p.token, false)],
        pending := db.pending - {step.request},
        log := db.log + [Entry(p.token, id, p.credential)])
  }

  ghost function Next(db: Db, step: Step): Db {
    match step
    case Tick(elapsed) => db.(now := db.now + elapsed)
    case CreateToken(token, expiresAt, max) =>
      if token in db.tokens then db else db.(tokens := db.tokens[token := Token(expiresAt, false, max, 0)])
    case RevokeToken(token) =>
      if token in db.tokens then db.(tokens := db.tokens[token := db.tokens[token].(revoked := true)]) else db
    case RevokeAgent(agent) =>
      if agent in db.agents then db.(agents := db.agents[agent := db.agents[agent].(revoked := true)]) else db
    case Begin(request, token, fingerprint, credential) =>
      if !CanBegin(db, step) then db
      else
        var max, existing := db.tokens[token].maxEnrollments, Lookup(db.agents, fingerprint);
        var read := Pending(token, max, existing, fingerprint, credential);
        db.(pending := db.pending[request := read], issued := db.issued + {credential})
    case Finish(request, _) =>
      if CanFinish(db, step) then Finished(db, step) else db.(pending := db.pending - {request})
    case Abort(request) => db.(pending := db.pending - {request})
  }

  ghost function Run(db: Db, steps: seq<Step>): Db
    decreases |steps|
  {
    if steps == [] then db else Run(Next(db, steps[0]), steps[1..])
  }

  // ---------------------------------------------------------------------------------------------
  // The service
  // ---------------------------------------------------------------------------------------------

  class DiscoveryService {
    var tokens: map<TokenId, Token>
    var agents: map<AgentId, Agent>
    var pending: map<RequestId, Pending>
    ghost var log: seq<Entry>
    ghost var issued: set<string>

    ghost function View(now: Time): Db
      reads this
    {
      Db(now, tokens, agents, pending, log, issued)
    }

    constructor ()
      ensures forall now :: View(now) == Db(now, map[], map[], map[], [], {})
    {
      tokens, agents, pending, log, issued := map[], map[], map[], [], {};
    }

    method FindAgent(fingerprint: string) returns (found: Option<AgentId>)
      ensures found.None? <==> !Known(agents, fingerprint)
      ensures found.Some? ==> HasFingerprint(agents, found.value, fingerprint)
    {
      if id :| id in agents && HasFingerprint(agents, id, fingerprint) {
        found := Some(id);
      } else {
        found := None;
      }
    }

    /** The reads of an enrolment. */
    method BeginEnrolment(now: Time, request: RequestId, token: TokenId, fingerprint: string, credential: string)
      returns (r: Result)
      requires Sound(View(now)) && request !in pending && credential !in issued
      modifies this
      ensures r == Refused(TokenInvalid) <==>
        token !in old(tokens) || old(tokens)[token].revoked || old(tokens)[token].expiresAt <= now
      ensures r == Refused(AlreadyEnrolled) <==>
        && token in old(tokens) && !old(tokens)[token].revoked && now < old(tokens)[token].expiresAt
        && exists id | id in old(agents) :: old(agents)[id].fingerprint == fingerprint && !old(agents)[id].revoked
      ensures r.Done? ==>
        && request in pending && pending[request].token == token && token in old(tokens)
        && pending[request].maxSeen == old(tokens)[token].maxEnrollments
        && pending[request].credential == credential && pending[request].fingerprint == fingerprint
      ensures r.Done? <==> CanBegin(old(View(now)), Begin(request, token, fingerprint, credential))
      ensures View(now) == Next(old(View(now)), Begin(request, token, fingerprint, credential))
    {
      if token !in tokens || tokens[token].revoked || tokens[token].expiresAt <= now {
        return Refused(TokenInvalid);
      }
      var existing := FindAgent(fingerprint);
      FoundIsLookup(View(now), fingerprint, existing);
      if existing.Some? && !agents[existing.value].revoked {
        return Refused(AlreadyEnrolled);
      }
      pending := pending[request := Pending(token, tokens[token].maxEnrollments, existing, fingerprint, credential)];
      issued := issued + {credential};
      r := Done;
    }

    /** The conditional update and the agent row, in one transaction. */
    method FinishEnrolment(now: Time, request: RequestId, newAgent: AgentId) returns (r: Result)
      requires Inv(View(now)) && request in pending && newAgent !in agents
      modifies this
      ensures var p := old(pending)[request];
        var token := old(tokens)[p.token];
        && (r == Refused(QuotaReached) <==>
              token.revoked || token.expiresAt <= now || token.enrollmentCount >= token.maxEnrollments)
        && (r == Refused(Conflict) <==>
              && !token.revoked && now < token.expiresAt && token.enrollmentCount < token.maxEnrollments
              && p.existing.None?
              && exists id | id in old(agents) :: old(agents)[id].fingerprint == p.fingerprint)
      ensures r.Done? <==> CanFinish(old(View(now)), Finish(request, newAgent))
      ensures View(now) == Next(old(View(now)), Finish(request, newAgent))
    {
      hide Sound, QuotaOk, LogOk;
      var p := pending[request];
      pending := pending - {request};
      var token := tokens[p.token];
      if token.revoked || token.expiresAt <= now || token.enrollmentCount >= p.maxSeen {
        return Refused(QuotaReached);
      }
      var consumed := tokens[p.token := token.(enrollmentCount := token.enrollmentCount + 1)];
      if p.existing.Some? {
        var id := p.existing.value;
        agents := agents[id := agents[id].(credential := p.credential, token := p.token, revoked := false)];
        log := log + [Entry(p.token, id, p.credential)];
      } else {
        if Known(agents, p.fingerprint) {
          return Refused(Conflict);
        }
        agents := agents[newAgent := Agent(p.fingerprint, p.credential, p.token, false)];
        log := log + [Entry(p.token, newAgent, p.credential)];
      }
      tokens := consumed;
      r := Done;
    }

    method RevokeEnrollmentToken(now: Time, id: TokenId) returns (r: Result)
      modifies this
      ensures r.Done? <==> id in old(tokens)
      ensures View(now) == Next(old(View(now)), RevokeToken(id))
    {
      if id !in tokens {
        return Refused(NotFound);
      }
      if !tokens[id].revoked {
        tokens := tokens[id := tokens[id].(revoked := true)];
      }
      r := Done;
    }

    method RevokeEndpointAgent(now: Time, id: AgentId) returns (r: Result)
      modifies this
      ensures r.Done? <==> id in old(agents)
      ensures View(now) == Next(old(View(now)), RevokeAgent(id))
    {
      if id !in agents {
        return Refused(NotFound);
      }
      if !agents[id].revoked {
        agents := agents[id := agents[id].(revoked := true)];
      }
      r := Done;
    }

    /** Whom a presented credential identifies when inventory is sent. */
    method Authenticate(credential: string) returns (r: Option<AgentId>)
      ensures r.Some? ==>
        r.value in agents && !agents[r.value].revoked && agents[r.value].credential == credential
      ensures r.None? ==> forall id | id in agents && !agents[id].revoked :: agents[id].credential != credential
    {
      if id :| id in agents && Accepts(agents, id, credential) {
        r := Some(id);
      } else {
        r := None;
      }
    }
  }

  /** A committed enrolment uses its token once more, and leaves its device one agent with the new credential, active
      whatever it was. */
  lemma FinishMeans(db: Db, request: RequestId, newAgent: AgentId)
    requires CanFinish(db, Finish(request, newAgent))
    ensures var p, after := db.pending[request], Next(db, Finish(request, newAgent));
      var id := if p.existing == None then newAgent else p.existing.value;
      && after.now == db.now && after.issued == db.issued && after.pending == db.pending - {request}
      && after.log == db.log + [Entry(p.token, id, p.credential)]
      && after.tokens.Keys == db.tokens.Keys
      && (forall t | t in db.tokens && t != p.token :: after.tokens[t] == db.tokens[t])
      && after.tokens[p.token].enrollmentCount == db.tokens[p.token].enrollmentCount + 1
      && after.tokens[p.token] == Token(db.tokens[p.token].expiresAt, false, db.tokens[p.token].maxEnrollments,
                                        after.tokens[p.token].enrollmentCount)
      && after.agents.Keys == db.agents.Keys + {id}
      && (forall other | other in db.agents && other != id :: after.agents[other] == db.agents[other])
      && after.agents[id].fingerprint ==
         (if p.existing == None then p.fingerprint else db.agents[p.existing.value].fingerprint)
      && after.agents[id].credential == p.credential && after.agents[id].token == p.token && !after.agents[id].revoked
  {
  }

  /** A request begins with an open token and for a device without an active agent; it remembers the quota and the agent
      it has seen, and takes a credential for itself. */
  lemma BeginMeans(db: Db, request: RequestId, token: TokenId, fingerprint: string, credential: string)
    requires Sound(db) && request !in db.pending && credential !in db.issued
    ensures CanBegin(db, Begin(request, token, fingerprint, credential)) <==>
      && token in db.tokens && !db.tokens[token].revoked && db.now < db.tokens[token].expiresAt
      && forall id | id in db.agents && db.agents[id].fingerprint == fingerprint :: db.agents[id].revoked
    ensures CanBegin(db, Begin(request, token, fingerprint, credential)) ==>
      var after := Next(db, Begin(request, token, fingerprint, credential));
      && request in after.pending
      && after == db.(pending := db.pending[request := after.pending[request]], issued := db.issued + {credential})
      && after.pending[request] ==
         Pending(token, db.tokens[token].maxEnrollments, after.pending[request].existing, fingerprint, credential)
      && (forall id | id in db.agents && db.agents[id].fingerprint == fingerprint ::
            after.pending[request].existing == Some(id))
      && ((forall id | id in db.agents :: db.agents[id].fingerprint != fingerprint) ==>
            after.pending[request].existing == None)
  {
    var existing := Lookup(db.agents, fingerprint);
    LookupFinds(db.agents, fingerprint);
    hide Lookup;
    forall id | id in db.agents && db.agents[id].fingerprint == fingerprint ensures existing == Some(id) {
      assert HasFingerprint(db.agents, id, fingerprint);
    }
  }

  /** A commit needs the token as it is now, with fewer uses than the quota read, and a fingerprint nobody has got since
      then; otherwise the request is gone and nothing else happens. */
  lemma FinishIff(db: Db, request: RequestId, newAgent: AgentId)
    requires request in db.pending && newAgent !in db.agents
    ensures var p := db.pending[request];
      CanFinish(db, Finish(request, newAgent)) <==>
        && p.token in db.tokens && !db.tokens[p.token].revoked && db.now < db.tokens[p.token].expiresAt
        && db.tokens[p.token].enrollmentCount < p.maxSeen
        && (p.existing.Some? ==> p.existing.value in db.agents)
        && (p.existing == None ==> forall id | id in db.agents :: db.agents[id].fingerprint != p.fingerprint)
    ensures !CanFinish(db, Finish(request, newAgent)) ==>
      Next(db, Finish(request, newAgent)) == db.(pending := db.pending - {request})
    ensures Next(db, Abort(request)) == db.(pending := db.pending - {request})
  {
    var p := db.pending[request];
    if id :| id in db.agents && db.agents[id].fingerprint == p.fingerprint {
      assert HasFingerprint(db.agents, id, p.fingerprint);
    }
  }

  /** Revocations and new tokens write one row, and the clock only moves on. */
  lemma OthersMean(db: Db, token: TokenId, agent: AgentId, expiresAt: Time, quota: nat, elapsed: nat)
    ensures Next(db, Tick(elapsed)) ==
      Db(db.now + elapsed, db.tokens, db.agents, db.pending, db.log, db.issued)
    ensures token in db.tokens ==>
      var before := db.tokens[token];
      && Next(db, RevokeToken(token)) ==
         db.(tokens := db.tokens[token := Token(before.expiresAt, true, before.maxEnrollments, before.enrollmentCount)])
      && Next(db, CreateToken(token, expiresAt, quota)) == db
    ensures token !in db.tokens ==>
      && Next(db, RevokeToken(token)) == db
      && Next(db, CreateToken(token, expiresAt, quota)) ==
         db.(tokens := db.tokens[token := Token(expiresAt, false, quota, 0)])
    ensures agent in db.agents ==>
      var before := db.agents[agent];
      Next(db, RevokeAgent(agent)) ==
      db.(agents := db.agents[agent := Agent(before.fingerprint, before.credential, before.token, true)])
    ensures agent !in db.agents ==> Next(db, RevokeAgent(agent)) == db
  {
  }

  predicate Accepts(agents: map<AgentId, Agent>, id: AgentId, credential: string) {
    id in agents && agents[id].credential == credential && !agents[id].revoked
  }

  // ---------------------------------------------------------------------------------------------
  // What holds in every reachable state
  // ---------------------------------------------------------------------------------------------

  function Uses(log: seq<Entry>, token: TokenId): nat {
    if log == [] then 0 else Uses(log[..|log| - 1], token) + (if log[|log| - 1].token == token then 1 else 0)
  }

  /** The credential of the latest enrolment of an agent. */
  function Newest(log: seq<Entry>, agent: AgentId): Option<string> {
    if log == [] then None
    else if log[|log| - 1].agent == agent then Some(log[|log| - 1].credential)
    else Newest(log[..|log| - 1], agent)
  }

  /** The unique index on the fingerprint. */
  ghost predicate Sound(db: Db) {
    forall a, b | a in db.agents && b in db.agents && db.agents[a].fingerprint == db.agents[b].fingerprint :: a == b
  }

  lemma SameAgent(db: Db, a: AgentId, b: AgentId)
    requires Sound(db) && a in db.agents && b in db.agents && db.agents[a].fingerprint == db.agents[b].fingerprint
    ensures a == b
  {
  }

  /** The fingerprint is unique, so whatever is found is what the reads of the specification find. */
  lemma FoundIsLookup(db: Db, fingerprint: string, found: Option<AgentId>)
    requires Sound(db) && (found.None? <==> !Known(db.agents, fingerprint))
    requires found.Some? ==> HasFingerprint(db.agents, found.value, fingerprint)
    ensures found == Lookup(db.agents, fingerprint)
  {
    LookupFinds(db.agents, fingerprint);
    if found.Some? {
      SameAgent(db, found.value, Lookup(db.agents, fingerprint).value);
    }
  }

  ghost predicate PendingOk(db: Db, p: Pending) {
    && p.token in db.tokens && p.maxSeen == db.tokens[p.token].maxEnrollments
    && (p.existing.Some? ==> HasFingerprint(db.agents, p.existing.value, p.fingerprint))
    && p.credential in db.issued && forall e | e in db.log :: e.credential != p.credential
  }

  ghost predicate LogOk(db: Db) {
    && (forall i, j | 0 <= i < j < |db.log| :: db.log[i].credential != db.log[j].credential)
    && (forall e | e in db.log :: e.credential in db.issued && e.agent in db.agents && e.token in db.tokens)
    && (forall id | id in db.agents :: Newest(db.log, id) == Some(db.agents[id].credential))
  }

  ghost predicate Inv(db: Db) {
    && Sound(db)
    && QuotaOk(db)
    && (forall r | r in db.pending :: PendingOk(db, db.pending[r]))
    && (forall r, s | r in db.pending && s in db.pending
      && db.pending[r].credential == db.pending[s].credential :: r == s)
    && LogOk(db)
  }

  ghost predicate QuotaOk(db: Db) {
    forall t | t in db.tokens :: db.tokens[t].enrollmentCount == Uses(db.log, t) <= db.tokens[t].maxEnrollments
  }

  lemma {:induction false} NoUses(log: seq<Entry>, token: TokenId)
    requires forall e | e in log :: e.token != token
    ensures Uses(log, token) == 0
  {
    if log != [] {
      NoUses(log[..|log| - 1], token);
    }
  }

  lemma FinishKeepsInv(db: Db, step: Step)
    requires Inv(db) && step.Finish? && CanFinish(db, step)
    ensures Inv(Finished(db, step))
  {
    hide Sound, QuotaOk, LogOk;
    var p, after := db.pending[step.request], Finished(db, step);
    assert PendingOk(db, p);
    FinishKeepsLog(db, step);
    FinishKeepsQuota(db, step);
    forall r | r in after.pending
      ensures PendingOk(after, after.pending[r])
    {
      assert PendingOk(db, db.pending[r]) && db.pending[r].credential != p.credential;
    }
  }

  lemma FinishKeepsQuota(db: Db, step: Step)
    requires step.Finish? && CanFinish(db, step) && Sound(db) && QuotaOk(db) && PendingOk(db, db.pending[step.request])
    ensures QuotaOk(Finished(db, step)) && Sound(Finished(db, step))
  {
    var after := Finished(db, step);
    assert after.log[..|db.log|] == db.log;
  }

  lemma FinishKeepsLog(db: Db, step: Step)
    requires step.Finish? && CanFinish(db, step) && LogOk(db) && PendingOk(db, db.pending[step.request])
    ensures LogOk(Finished(db, step))
  {
    var after := Finished(db, step);
    var entry := after.log[|db.log|];
    assert after.log == db.log + [entry] && after.log[..|db.log|] == db.log;
  }

  lemma BeginKeepsInv(db: Db, step: Step)
    requires Inv(db) && step.Begin? && CanBegin(db, step)
    ensures Inv(Next(db, step))
  {
    hide Lookup, LogOk, Uses;
    LookupFinds(db.agents, step.fingerprint);
    var after := Next(db, step);
    assert LogOk(after) by { LogAfter(db, after); }
    forall r | r in db.pending
      ensures PendingOk(after, after.pending[r]) && after.pending[r].credential != step.credential
    {
      assert PendingOk(db, db.pending[r]);
    }
    LoggedAreIssued(db);
    assert PendingOk(after, after.pending[step.request]);
  }

  lemma LoggedAreIssued(db: Db)
    requires LogOk(db)
    ensures forall e | e in db.log :: e.credential in db.issued
  {
  }

  /** The log stays sound while tokens and credentials are only added and agents keep their credentials. */
  lemma LogAfter(db: Db, after: Db)
    requires LogOk(db) && after.log == db.log && db.issued <= after.issued && after.agents.Keys == db.agents.Keys
    requires forall t | t in db.tokens :: t in after.tokens
    requires forall id | id in db.agents :: after.agents[id].credential == db.agents[id].credential
    ensures LogOk(after)
  {
  }

  /** A step that commits no enrolment and issues no credential. */
  ghost predicate Quiet(db: Db, after: Db) {
    && after.log == db.log && after.issued == db.issued
    && (forall r | r in after.pending :: r in db.pending && after.pending[r] == db.pending[r])
    && after.agents.Keys == db.agents.Keys
    && (forall id | id in db.agents ::
      after.agents[id].fingerprint == db.agents[id].fingerprint
        && after.agents[id].credential == db.agents[id].credential)
    && (forall t | t in db.tokens ::
      t in after.tokens && after.tokens[t].enrollmentCount == db.tokens[t].enrollmentCount
                                     && after.tokens[t].maxEnrollments == db.tokens[t].maxEnrollments)
    && (forall t | t in after.tokens && t !in db.tokens :: after.tokens[t].enrollmentCount == 0)
  }

  lemma QuietKeepsInv(db: Db, after: Db)
    requires Inv(db) && Quiet(db, after)
    ensures Inv(after)
  {
    QuietKeepsQuota(db, after);
    LogAfter(db, after);
    hide LogOk, QuotaOk;
    forall r | r in after.pending
      ensures PendingOk(after, after.pending[r])
    {
      assert PendingOk(db, db.pending[r]);
    }
  }

  lemma QuietKeepsQuota(db: Db, after: Db)
    requires QuotaOk(db) && LogOk(db) && Quiet(db, after)
    ensures QuotaOk(after)
  {
    forall t | t in after.tokens && t !in db.tokens
      ensures Uses(db.log, t) == 0
    {
      NoUses(db.log, t);
    }
  }

  lemma NextKeepsInv(db: Db, step: Step)
    requires Inv(db)
    ensures Inv(Next(db, step))
  {
    hide Inv;
    if step.Begin? && CanBegin(db, step) {
      BeginKeepsInv(db, step);
    } else if step.Finish? && CanFinish(db, step) {
      FinishKeepsInv(db, step);
    } else {
      hide Lookup;
      assert Quiet(db, Next(db, step));
      QuietKeepsInv(db, Next(db, step));
    }
  }

  predicate Initial(db: Db) {
    db.tokens == map[] && db.agents == map[] && db.pending == map[] && db.log == [] && db.issued == {}
  }

  lemma {:induction false} RunKeepsInv(db: Db, steps: seq<Step>)
    requires Inv(db)
    ensures Inv(Run(db, steps))
    decreases |steps|
  {
    hide Inv, Next;
    if steps != [] {
      NextKeepsInv(db, steps[0]);
      RunKeepsInv(Next(db, steps[0]), steps[1..]);
    }
  }

  /** However enrolments interleave, a token has counted exactly its committed enrolments, no more than its
      quota, and no fingerprint has two agents. */
  lemma ReachableStates(db: Db, steps: seq<Step>)
    requires Initial(db)
    ensures var after := Run(db, steps);
      && (forall t | t in after.tokens ::
        after.tokens[t].enrollmentCount == Uses(after.log, t) <= after.tokens[t].maxEnrollments)
      && (forall a, b | a in after.agents && b in after.agents
        && after.agents[a].fingerprint == after.agents[b].fingerprint :: a == b)
  {
    assert Inv(db);
    RunKeepsInv(db, steps);
  }

  /** A revoked or expired token is never consumed again, not even by an enrolment that read it while it was open. */
  lemma {:induction false} ClosedTokenStays(db: Db, t: TokenId, steps: seq<Step>)
    requires t in db.tokens && (db.tokens[t].revoked || db.tokens[t].expiresAt <= db.now)
    ensures var after := Run(db, steps);
      && t in after.tokens && (after.tokens[t].revoked || after.tokens[t].expiresAt <= after.now)
      && after.tokens[t].enrollmentCount == db.tokens[t].enrollmentCount
    ensures Uses(Run(db, steps).log, t) == Uses(db.log, t)
    decreases |steps|
  {
    if steps != [] {
      ClosedTokenStep(db, t, steps[0]);
      hide Next;
      ClosedTokenStays(Next(db, steps[0]), t, steps[1..]);
    }
  }

  lemma ClosedTokenStep(db: Db, t: TokenId, step: Step)
    requires t in db.tokens && (db.tokens[t].revoked || db.tokens[t].expiresAt <= db.now)
    ensures var after := Next(db, step);
      && t in after.tokens && (after.tokens[t].revoked || after.tokens[t].expiresAt <= after.now)
      && after.tokens[t].enrollmentCount == db.tokens[t].enrollmentCount && Uses(after.log, t) == Uses(db.log, t)
  {
    if step.Finish? && CanFinish(db, step) {
      assert Finished(db, step).log[..|db.log|] == db.log;
    }
  }

  /** Of all the credentials an agent was ever given, it answers to the newest, while it is not revoked, and to no
      other. */
  lemma OnlyNewestCredential(db: Db, i: nat, id: AgentId)
    requires Inv(db) && i < |db.log|
    ensures Accepts(db.agents, id, db.log[i].credential) <==>
      (id in db.agents && !db.agents[id].revoked && db.log[i].agent == id && forall j | i < j < |db.log| ::
        db.log[j].agent != id)
  {
    if id in db.agents {
      var k := NewestIsLast(db.log, id);
    }
  }

  lemma {:induction false} NewestIsLast(log: seq<Entry>, id: AgentId) returns (k: nat)
    requires Newest(log, id).Some?
    ensures k < |log| && log[k].agent == id && Newest(log, id) == Some(log[k].credential)
    ensures forall j | k < j < |log| :: log[j].agent != id
  {
    k := |log| - 1;
    if log[k].agent != id {
      k := NewestIsLast(log[..k], id);
    }
  }

  /** A credential never issued, or issued for an enrolment that did not commit, opens nothing. */
  lemma UnusedCredential(db: Db, credential: string, id: AgentId)
    requires Inv(db) && Accepts(db.agents, id, credential)
    ensures exists i | 0 <= i < |db.log| :: db.log[i] == Entry(db.log[i].token, id, credential)
  {
    var k := NewestIsLast(db.log, id);
  }

  // ---------------------------------------------------------------------------------------------
  // What stale reads let through
  // ---------------------------------------------------------------------------------------------

  /** An enrolment that commits right after its reads only ever takes over a revoked agent. */
  lemma SerialEnrolmentTakesRevoked(db: Db, begin: Step, finish: Step)
    requires Inv(db) && begin.Begin? && CanBegin(db, begin)
    requires finish.Finish? && finish.request == begin.request && CanFinish(Next(db, begin), finish)
    ensures forall id | id in db.agents && Next(Next(db, begin), finish).agents[id] != db.agents[id] ::
      db.agents[id].revoked && db.agents[id].fingerprint == begin.fingerprint
  {
    var p := Next(db, begin).pending[begin.request];
    assert PendingOk(Next(db, begin), p) by { NextKeepsInv(db, begin); }
  }

  /** With other requests in between this fails: two enrolments read the same revoked agent, the first one commits, and
      the second replaces the credential of an agent that is active, although an active agent is meant to refuse
      enrolment. */
  lemma StaleEnrolmentTakesActive(db: Db, t: TokenId, id: AgentId, first: Step, second: Step)
    requires Inv(db) && t in db.tokens && Open(db.tokens[t], db.now)
    requires db.tokens[t].enrollmentCount + 2 <= db.tokens[t].maxEnrollments
    requires id in db.agents && db.agents[id].revoked
    requires first.Begin? && first.token == t && first.fingerprint == db.agents[id].fingerprint
    requires second.Begin? && second.token == t && second.fingerprint == db.agents[id].fingerprint
    requires first.request != second.request && first.credential != second.credential
    requires first.request !in db.pending && second.request !in db.pending
    requires first.credential !in db.issued && second.credential !in db.issued
    ensures var mid := Next(BothRead(db, first, second), Finish(first.request, ""));
      && Accepts(mid.agents, id, first.credential)
      && CanFinish(mid, Finish(second.request, ""))
      && Accepts(Next(mid, Finish(second.request, "")).agents, id, second.credential)
  {
    assert HasFingerprint(db.agents, id, first.fingerprint);
    var known := Lookup(db.agents, first.fingerprint);
    assert known == Some(id) by { SameAgent(db, known.value, id); }
    hide Inv, Lookup, Finished;
    var maxSeen, fingerprint := db.tokens[t].maxEnrollments, db.agents[id].fingerprint;
    var read := BothRead(db, first, second);
    assert read.pending[first.request] == Pending(t, maxSeen, Some(id), fingerprint, first.credential);
    assert read.pending[second.request] == Pending(t, maxSeen, Some(id), fingerprint, second.credential);
    assert read.agents == db.agents && read.tokens == db.tokens && read.now == db.now;
    hide CanBegin;
    TakesAgent(read, Finish(first.request, ""), t, id);
    TakesAgent(Next(read, Finish(first.request, "")), Finish(second.request, ""), t, id);
  }

  /** Two enrolments have made their reads. */
  ghost function BothRead(db: Db, first: Step, second: Step): Db {
    Next(Next(db, first), second)
  }

  /** A commit on an agent that was read hands it the credential and uses the token once; other requests go on
      waiting. */
  lemma TakesAgent(db: Db, finish: Step, t: TokenId, id: AgentId)
    requires finish.Finish? && finish.request in db.pending && id in db.agents
    requires db.pending[finish.request].token == t && db.pending[finish.request].existing == Some(id)
    requires t in db.tokens && Open(db.tokens[t], db.now)
    requires db.tokens[t].enrollmentCount < db.pending[finish.request].maxSeen
    ensures var after := Next(db, finish);
      && CanFinish(db, finish)
      && after.now == db.now && after.pending == db.pending - {finish.request}
      && id in after.agents && !after.agents[id].revoked
      && after.agents[id].credential == db.pending[finish.request].credential
      && after.tokens == db.tokens[t := db.tokens[t].(enrollmentCount := db.tokens[t].enrollmentCount + 1)]
  {
  }

  /** A committing enrolment replaces an active agent exactly when its agent was re-enrolled since it was read. */
  lemma FinishTakesActiveIff(db: Db, step: Step)
    requires Inv(db) && step.Finish? && CanFinish(db, step)
    ensures (exists id | id in db.agents && !db.agents[id].revoked ::
      Finished(db, step).agents[id] != db.agents[id]) <==>
      (db.pending[step.request].existing.Some? && !db.agents[db.pending[step.request].existing.value].revoked)
  {
    var p := db.pending[step.request];
    assert PendingOk(db, p);
    if p.existing.Some? {
      var id := p.existing.value;
      var k := NewestIsLast(db.log, id);
      assert Finished(db, step).agents[id].credential == p.credential != db.agents[id].credential;
    }
  }
}
