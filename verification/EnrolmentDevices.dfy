/** How many agents one device can have: the posted fingerprint is compared in lower case, but looked up and stored as
    posted (apps/api/src/modules/discovery/discovery.service.ts). */
module EnrolmentDevices {
  import opened Common
  import opened Enrolment
  import opened Text

  /** Two posted fingerprints pass the comparison with the same hash. */
  predicate SameDevice(a: string, b: string) {
    Lower(a) == Lower(b)
  }

  /** No device has two agents. */
  ghost predicate OnePerDevice(agents: map<AgentId, Agent>) {
    forall a, b | a in agents && b in agents && SameDevice(agents[a].fingerprint, agents[b].fingerprint) :: a == b
  }

  predicate HasAgent(agents: map<AgentId, Agent>, fingerprint: string) {
    exists id | id in agents :: SameDevice(agents[id].fingerprint, fingerprint)
  }

  /** An enrolment that commits a new agent for a device that has one. */
  ghost predicate Doubles(db: Db, step: Step) {
    && step.Finish? && CanFinish(db, step)
    && db.pending[step.request].existing.None? && HasAgent(db.agents, db.pending[step.request].fingerprint)
  }

  lemma OnePerDeviceStepIff(db: Db, step: Step)
    requires Inv(db) && OnePerDevice(db.agents)
    ensures OnePerDevice(Next(db, step).agents) <==> !Doubles(db, step)
  {
    hide Inv, SameDevice;
    if step.Finish? && CanFinish(db, step) {
      var after := Finished(db, step).agents;
      var p := db.pending[step.request];
      if p.existing.None? {
        NewAgentIff(db.agents, after, step.newAgent, p.fingerprint);
      } else {
        SameFingerprints(db.agents, after);
      }
    } else {
      FingerprintsStay(db, step);
      SameFingerprints(db.agents, Next(db, step).agents);
    }
  }

  lemma FingerprintsStay(db: Db, step: Step)
    requires !(step.Finish? && CanFinish(db, step))
    ensures Next(db, step).agents.Keys == db.agents.Keys
    ensures forall id | id in db.agents :: Next(db, step).agents[id].fingerprint == db.agents[id].fingerprint
  {
    hide CanBegin, Lookup;
  }

  lemma SameFingerprints(agents: map<AgentId, Agent>, after: map<AgentId, Agent>)
    requires after.Keys == agents.Keys
    requires forall id | id in agents :: after[id].fingerprint == agents[id].fingerprint
    ensures OnePerDevice(after) <==> OnePerDevice(agents)
  {
    hide SameDevice;
  }

  lemma NewAgentIff(agents: map<AgentId, Agent>, after: map<AgentId, Agent>, id: AgentId, fingerprint: string)
    requires OnePerDevice(agents) && id !in agents && id in after && after == agents[id := after[id]]
    requires after[id].fingerprint == fingerprint
    ensures OnePerDevice(after) <==> !HasAgent(agents, fingerprint)
  {
    forall a, b
      ensures SameDevice(a, b) == SameDevice(b, a)
    {
    }
    hide SameDevice;
    if HasAgent(agents, fingerprint) {
      var other :| other in agents && SameDevice(agents[other].fingerprint, fingerprint);
      assert SameDevice(after[other].fingerprint, after[id].fingerprint);
    }
  }

  ghost predicate OnePerDeviceAlong(db: Db, steps: seq<Step>)
    decreases |steps|
  {
    OnePerDevice(db.agents) && (steps != [] ==> OnePerDeviceAlong(Next(db, steps[0]), steps[1..]))
  }

  ghost predicate NeverDoubles(db: Db, steps: seq<Step>)
    decreases |steps|
  {
    steps != [] ==> !Doubles(db, steps[0]) && NeverDoubles(Next(db, steps[0]), steps[1..])
  }

  /** Every device has at most one agent throughout a run exactly when no enrolment of the run commits a second one. */
  lemma {:induction false} OnePerDeviceIff(db: Db, steps: seq<Step>)
    requires Inv(db) && OnePerDevice(db.agents)
    ensures OnePerDeviceAlong(db, steps) <==> NeverDoubles(db, steps)
    decreases |steps|
  {
    if steps != [] {
      OnePerDeviceStepIff(db, steps[0]);
      NextKeepsInv(db, steps[0]);
      hide Inv, Next, Doubles, OnePerDevice;
      if !Doubles(db, steps[0]) {
        OnePerDeviceIff(Next(db, steps[0]), steps[1..]);
      }
    }
  }

  /** One token, two enrolments. */
  function TwoEnrolments(f: string, g: string): seq<Step> {
    [CreateToken("t", 100, 2), Begin("r", "t", f, "c"), Finish("r", "a"), Begin("s", "t", g, "d"), Finish("s", "b")]
  }

  const EMPTY := Db(0, map[], map[], map[], [], {})

  /** A device that posts its fingerprint in small and then in capital letters has two active agents. */
  lemma TwoAgentsOneDevice(f: string, g: string)
    requires SameDevice(f, g) && f != g
    ensures var agents := Run(EMPTY, TwoEnrolments(f, g)).agents;
      && "a" in agents && "b" in agents && !agents["a"].revoked && !agents["b"].revoked
      && !OnePerDevice(agents)
  {
    var steps := TwoEnrolments(f, g);
    var first := Agent(f, "c", "t", false);
    var db1 := EMPTY.(tokens := map["t" := Token(100, false, 2, 0)]);
    var db2 := db1.(pending := map["r" := Pending("t", 2, None, f, "c")], issued := {"c"});
    var db3 := Db(0, map["t" := Token(100, false, 2, 1)], map["a" := first], map[], [Entry("t", "a", "c")], {"c"});
    var db4 := db3.(pending := map["s" := Pending("t", 2, None, g, "d")], issued := {"c", "d"});
    assert Next(EMPTY, steps[0]) == db1;
    assert Next(db1, steps[1]) == db2 by { LookupFinds(db1.agents, f); }
    assert Next(db2, steps[2]) == db3;
    assert Next(db3, steps[3]) == db4 by { LookupFinds(db3.agents, g); }
    var last := Next(db4, steps[4]);
    assert last.agents == map["a" := first, "b" := Agent(g, "d", "t", false)];
    hide Next;
    assert steps[1..][1..] == steps[2..] && steps[2..][1..] == steps[3..] && steps[3..][1..] == steps[4..];
    assert steps[4..][1..] == [];
    assert Run(EMPTY, steps) == Run(db1, steps[1..]) == Run(db2, steps[2..]) == Run(db3, steps[3..]);
    assert Run(db3, steps[3..]) == Run(db4, steps[4..]) == last;
    assert SameDevice(last.agents["a"].fingerprint, last.agents["b"].fingerprint) && "a" != "b";
  }

  // ---------------------------------------------------------------------------------------------
  // Fingerprints put into lower case
  // ---------------------------------------------------------------------------------------------

  predicate InLower(fingerprint: string) {
    Lower(fingerprint) == fingerprint
  }

  predicate AllLower(steps: seq<Step>) {
    forall i | 0 <= i < |steps| && steps[i].Begin? :: InLower(steps[i].fingerprint)
  }

  ghost predicate LowerInv(db: Db) {
    && Inv(db)
    && (forall id | id in db.agents :: InLower(db.agents[id].fingerprint))
    && (forall r | r in db.pending :: InLower(db.pending[r].fingerprint))
  }

  lemma StepKeepsLower(db: Db, step: Step)
    requires LowerInv(db) && (step.Begin? ==> InLower(step.fingerprint))
    ensures LowerInv(Next(db, step))
  {
    hide Inv, InLower, CanBegin, Lookup, Open, Known;
    NextKeepsInv(db, step);
  }

  lemma {:induction false} RunKeepsLower(db: Db, steps: seq<Step>)
    requires LowerInv(db) && AllLower(steps)
    ensures LowerInv(Run(db, steps))
    decreases |steps|
  {
    if steps != [] {
      assert !steps[0].Begin? || InLower(steps[0].fingerprint);
      StepKeepsLower(db, steps[0]);
      hide LowerInv, Next, InLower;
      RunKeepsLower(Next(db, steps[0]), steps[1..]);
    }
  }

  /** If the fingerprints were put into lower case first, no device would ever have two agents. */
  lemma LowerFingerprintsSuffice(db: Db, steps: seq<Step>)
    requires Initial(db) && AllLower(steps)
    ensures OnePerDevice(Run(db, steps).agents)
  {
    assert Inv(db);
    RunKeepsLower(db, steps);
    var agents := Run(db, steps).agents;
    hide Run;
    forall a, b | a in agents && b in agents && SameDevice(agents[a].fingerprint, agents[b].fingerprint)
      ensures a == b
    {
      assert InLower(agents[a].fingerprint) && InLower(agents[b].fingerprint);
    }
  }
}
