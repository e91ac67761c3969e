/** When agent names stay unique (src/claw_msg/server/routes_agents.py). The database compares names
    without regard to ASCII case, and registration looks at no name but the one it writes. */
module Names {
  import opened Common
  import D = Directory
  import opened Identity

  ghost predicate NamesDistinct(agents: seq<Agent>) {
    forall i, j :: 0 <= i < j < |agents| ==> Fold(agents[i].name) != Fold(agents[j].name)
  }

  /** Some agent other than `id` has this name. */
  ghost predicate IsTaken(agents: seq<Agent>, name: string, id: AgentId) {
    exists i :: 0 <= i < |agents| && agents[i].id != id && Fold(agents[i].name) == Fold(name)
  }

  /** The step is a registration that goes through under a name another agent has. */
  ghost predicate TakesAName(w: World, e: Event) {
    match e
    case UpdateProfile(_, _) => false
    case Register(r, admin, token, newId) =>
      var out := Registered(w.agents, r, admin, token, newId);
      out.Ok? && IsTaken(w.agents, r.name, out.value.1)
  }

  /** A registration keeps names unique exactly when no other agent has the name it asks for,
      whether it makes an agent or renews one. */
  lemma RegistrationKeepsNamesExactlyWhen(w: World, r: Request, admin: bool, token: string, newId: AgentId)
    requires Inv(w) && Enabled(w, Register(r, admin, token, newId)) && NamesDistinct(w.agents)
    requires Registered(w.agents, r, admin, token, newId).Ok?
    ensures var (after, id) := Registered(w.agents, r, admin, token, newId).value;
      NamesDistinct(after) <==> !IsTaken(w.agents, r.name, id)
  {
    var (after, id) := Registered(w.agents, r, admin, token, newId).value;
    ReuseExactlyWhenTokenIsLive(w, r, admin, token, newId);
    var at := RegisteredRow(w, r, admin, token, newId);
    if i :| 0 <= i < |w.agents| && w.agents[i].id != id && Fold(w.agents[i].name) == Fold(r.name) {
      assert after[i] == w.agents[i] && i != at;
    }
  }

  /** The one row a registration writes. */
  lemma RegisteredRow(w: World, r: Request, admin: bool, token: string, newId: AgentId) returns (at: nat)
    requires Inv(w) && Enabled(w, Register(r, admin, token, newId))
    requires Registered(w.agents, r, admin, token, newId).Ok?
    ensures var (after, id) := Registered(w.agents, r, admin, token, newId).value;
      && at < |after| && |w.agents| <= |after| <= |w.agents| + 1 && after[at].id == id && after[at].name == r.name
      && (forall i :: 0 <= i < |after| && i != at ==> i < |w.agents| && after[i] == w.agents[i] && after[i].id != id)
  {
    if ExistingAgent(w.agents, r).Some? {
      at := ExistingRow(w, r);
    } else {
      at := |w.agents|;
    }
  }

  lemma StepKeepsNamesExactlyWhen(w: World, e: Event)
    requires Inv(w) && Enabled(w, e) && NamesDistinct(w.agents)
    ensures NamesDistinct(Step(w, e).agents) <==> !TakesAName(w, e)
  {
    match e {
      case UpdateProfile(_, _) =>
        assert forall i :: 0 <= i < |w.agents| ==> Step(w, e).agents[i].name == w.agents[i].name;
      case Register(r, admin, token, newId) =>
        if Registered(w.agents, r, admin, token, newId).Ok? {
          RegistrationKeepsNamesExactlyWhen(w, r, admin, token, newId);
        }
    }
  }

  // ----- Over runs -----------------------------------------------------------------------

  ghost function StateAt(events: seq<Event>, k: nat): World
    requires k <= |events|
  {
    Run(START, events[..k])
  }

  lemma {:induction false} RunSplits(w: World, events: seq<Event>, k: nat)
    requires CanRun(w, events) && k < |events|
    ensures CanRun(w, events[..k]) && Enabled(Run(w, events[..k]), events[k])
    ensures Run(w, events[..k + 1]) == Step(Run(w, events[..k]), events[k])
    decreases |events|
  {
    if k == 0 {
      assert events[..1] == [events[0]] && [events[0]][1..] == [];
      assert Run(Step(w, events[0]), []) == Step(w, events[0]);
    } else {
      RunSplits(Step(w, events[0]), events[1..], k - 1);
      assert events[..k][1..] == events[1..][..k - 1];
      assert events[..k + 1][1..] == events[1..][..k];
      assert events[1..][k - 1] == events[k];
    }
  }

  lemma NextState(events: seq<Event>, k: nat)
    requires CanRun(START, events) && k < |events|
    ensures Inv(StateAt(events, k)) && Enabled(StateAt(events, k), events[k])
    ensures StateAt(events, k + 1) == Step(StateAt(events, k), events[k])
  {
    RunSplits(START, events, k);
    RunKeepsInv(START, events[..k]);
  }

  lemma {:induction false} NamesDistinctUpTo(events: seq<Event>, k: nat)
    requires CanRun(START, events) && k <= |events|
    requires forall j :: 0 <= j < |events| ==> !TakesAName(StateAt(events, j), events[j])
    ensures NamesDistinct(StateAt(events, k).agents)
  {
    if k > 0 {
      NamesDistinctUpTo(events, k - 1);
      NextState(events, k - 1);
      StepKeepsNamesExactlyWhen(StateAt(events, k - 1), events[k - 1]);
    }
  }

  /** From an empty table on, names are unique throughout a run exactly when none of its steps is a
      registration under a name that another agent has at that moment. */
  lemma NamesStayDistinctExactlyWhen(events: seq<Event>)
    requires CanRun(START, events)
    ensures (forall k :: 0 <= k <= |events| ==> NamesDistinct(StateAt(events, k).agents)) <==>
            (forall k :: 0 <= k < |events| ==> !TakesAName(StateAt(events, k), events[k]))
  {
    if forall k :: 0 <= k < |events| ==> !TakesAName(StateAt(events, k), events[k]) {
      forall k | 0 <= k <= |events| ensures NamesDistinct(StateAt(events, k).agents) {
        NamesDistinctUpTo(events, k);
      }
    }
    if forall k :: 0 <= k <= |events| ==> NamesDistinct(StateAt(events, k).agents) {
      forall k | 0 <= k < |events| ensures !TakesAName(StateAt(events, k), events[k]) {
        NextState(events, k);
        StepKeepsNamesExactlyWhen(StateAt(events, k), events[k]);
        assert NamesDistinct(StateAt(events, k + 1).agents);
      }
    }
  }

  // ----- The two ways a name comes to be shared ------------------------------------------

  lemma TwoRegister(r1: Request, r2: Request, t1: string, t2: string, id1: AgentId, id2: AgentId)
    requires t1 != t2 && id1 != id2 && r1.existingToken == None && r2.existingToken == None
    ensures var e1, e2 := Register(r1, false, t1, id1), Register(r2, false, t2, id2);
      var w1 := Step(START, e1);
      && Enabled(START, e1) && Enabled(w1, e2)
      && Step(w1, e2).agents == [Created(id1, r1, None, t1), Created(id2, r2, None, t2)]
      && Step(w1, e2).log == [Entry(id1, t1, r1, false), Entry(id2, t2, r2, false)]
  {
    var w1 := Step(START, Register(r1, false, t1, id1));
    assert w1 == World([Created(id1, r1, None, t1)], [Entry(id1, t1, r1, false)]);
  }

  lemma RunTwo(w: World, e1: Event, e2: Event)
    requires Enabled(w, e1) && Enabled(Step(w, e1), e2)
    ensures CanRun(w, [e1, e2]) && Run(w, [e1, e2]) == Step(Step(w, e1), e2)
  {
    assert [e1, e2][1..] == [e2] && [e2][1..] == [];
    assert CanRun(Step(Step(w, e1), e2), []) && CanRun(Step(w, e1), [e2]);
    assert Run(Step(w, e1), [e2]) == Step(Step(w, e1), e2);
  }

  /** Registering one name twice, without a token, makes two agents. */
  lemma SameNameMakesTwoAgents(r: Request, t1: string, t2: string, id1: AgentId, id2: AgentId)
    requires t1 != t2 && id1 != id2 && r.existingToken == None
    ensures var events := [Register(r, false, t1, id1), Register(r, false, t2, id2)];
      CanRun(START, events)
      && var agents := Run(START, events).agents;
         |agents| == 2 && agents[0].id == id1 && agents[1].id == id2
         && agents[0].name == r.name && agents[1].name == r.name
  {
    TwoRegister(r, r, t1, t2, id1, id2);
    RunTwo(START, Register(r, false, t1, id1), Register(r, false, t2, id2));
  }

  lemma BobBecomesAlice(a: Agent, b: Agent, again: Request, token: string, newId: AgentId)
    requires a.id != b.id && a.token != b.token && b.trusted == None
    requires again.existingToken == Some(b.token) && b.token != ""
    ensures Registered([a, b], again, false, token, newId) == Ok(([a, Renewed(b, again, None, token)], b.id))
  {
    assert [a, b][1..] == [b];
    assert Authenticate([a, b], b.token) == Some(b.id) && TrustedOf([a, b], b.id) == None;
    assert RenewWhere([a, b], b.id, again, None, token) == [a, Renewed(b, again, None, token)];
  }

  /** Alice and Bob register, and Bob registers again, with his live token, as Alice: he keeps his
      row, and two agents are called Alice. */
  lemma RenamingMakesTwoOfAName(alice: Request, bob: Request, t1: string, t2: string, t3: string,
                                id1: AgentId, id2: AgentId, id3: AgentId)
    requires t1 != t2 && t2 != t3 && t1 != t3 && t2 != "" && id1 != id2 && id3 != id1 && id3 != id2
    requires alice.existingToken == None && bob.existingToken == None
    ensures var again := alice.(existingToken := Some(t2));
      var events := [Register(alice, false, t1, id1), Register(bob, false, t2, id2), Register(again, false, t3, id3)];
      CanRun(START, events)
      && var agents := Run(START, events).agents;
         |agents| == 2 && agents[0].id == id1 && agents[1].id == id2
         && agents[0].name == alice.name && agents[1].name == alice.name
  {
    hide Registered;
    var again := alice.(existingToken := Some(t2));
    var e1, e2, e3 := Register(alice, false, t1, id1), Register(bob, false, t2, id2), Register(again, false, t3, id3);
    var w1 := Step(START, e1);
    TwoRegister(alice, bob, t1, t2, id1, id2);
    BobBecomesAlice(Created(id1, alice, None, t1), Created(id2, bob, None, t2), again, t3, id3);
    RunTwo(w1, e2, e3);
    assert [e1, e2, e3][1..] == [e2, e3];
  }
}
