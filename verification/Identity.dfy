/** Agent identity over runs (src/claw_msg/server/routes_agents.py, auth.py): registration, token
    rotation, the write-once trusted identity and profile updates. A token stands for its two
    stored hashes. */
module Identity {
  import opened Common
  import opened Directory

  datatype Result<T> = Ok(value: T) | Err(status: int)

  datatype Json = Text(s: string) | NotText

  datatype TrustedIdentity = TrustedIdentity(
    issuer: string, kind: string, accountId: string, peerId: string, openclawAgentId: string)

  datatype Agent = Agent(
    id: AgentId, name: string, owner: Option<string>, capabilities: string, metadata: string,
    trusted: Option<TrustedIdentity>, token: string, isApplication: bool, policy: Policy,
    publicKey: Option<string>)

  datatype Request = Request(
    name: string, owner: Option<string>, existingToken: Option<string>, capabilities: string,
    metadata: string, trustedIdentity: Option<map<string, Json>>, isApplication: bool, policy: Policy)

  /** A field of a profile update: not mentioned, or set to a value that may be null. */
  datatype Field<T> = Unset | Set(value: Option<T>)
  datatype Update = Update(owner: Field<string>, policy: Field<Policy>, publicKey: Field<string>)

  // ----- Operations as values ------------------------------------------------------------

  predicate HasText(payload: map<string, Json>, key: string) {
    key in payload && payload[key].Text?
  }

  function BuildTrustedIdentity(payload: Option<map<string, Json>>): Result<Option<TrustedIdentity>> {
    if payload.None? then Ok(None)
    else
      var p := payload.value;
      if !HasText(p, "kind") || !HasText(p, "accountId") || !HasText(p, "peerId") || !HasText(p, "openclawAgentId")
      then Err(400)
      else if p["kind"].s != "kakao_peer" then Err(400)
      else Ok(Some(TrustedIdentity(
        "openclaw-admin", p["kind"].s, p["accountId"].s, p["peerId"].s, p["openclawAgentId"].s)))
  }

  /** The first row with this token. */
  function Authenticate(agents: seq<Agent>, token: string): Option<AgentId> {
    if agents == [] then None
    else if agents[0].token == token then Some(agents[0].id)
    else Authenticate(agents[1..], token)
  }

  function TrustedOf(agents: seq<Agent>, id: AgentId): Option<TrustedIdentity> {
    if agents == [] then None
    else if agents[0].id == id then agents[0].trusted
    else TrustedOf(agents[1..], id)
  }

  function ExistingAgent(agents: seq<Agent>, r: Request): Option<AgentId> {
    if Given(r.existingToken) then Authenticate(agents, r.existingToken.value) else None
  }

  function RequestedIdentity(r: Request, admin: bool): Result<Option<TrustedIdentity>> {
    if admin then BuildTrustedIdentity(r.trustedIdentity) else Ok(None)
  }

  /** The identity to store, or the error. */
  function FinalIdentity(agents: seq<Agent>, r: Request, admin: bool): Result<Option<TrustedIdentity>> {
    var existing := ExistingAgent(agents, r);
    var current := if existing.Some? then TrustedOf(agents, existing.value) else None;
    match RequestedIdentity(r, admin)
    case Err(status) => Err(status)
    case Ok(requested) =>
      if current.Some? && requested.Some? && current != requested then Err(409)
      else Ok(if requested.Some? then requested else current)
  }

  function Renewed(a: Agent, r: Request, trusted: Option<TrustedIdentity>, token: string): Agent {
    a.(name := r.name, capabilities := r.capabilities, metadata := r.metadata, trusted := trusted,
       token := token, isApplication := r.isApplication, policy := r.policy,
       owner := if r.owner.Some? then r.owner else a.owner)
  }

  function Created(id: AgentId, r: Request, trusted: Option<TrustedIdentity>, token: string): Agent {
    Agent(id, r.name, r.owner, r.capabilities, r.metadata, trusted, token, r.isApplication, r.policy, None)
  }

  function RenewWhere(agents: seq<Agent>, id: AgentId, r: Request, trusted: Option<TrustedIdentity>,
                      token: string): seq<Agent> {
    seq(|agents|, i requires 0 <= i < |agents| =>
      if agents[i].id == id then Renewed(agents[i], r, trusted, token) else agents[i])
  }

  /** The table and the agent's id after a registration, `token` and `id` being newly generated. */
  function Registered(agents: seq<Agent>, r: Request, admin: bool, token: string, id: AgentId)
    : Result<(seq<Agent>, AgentId)>
  {
    var existing := ExistingAgent(agents, r);
    match FinalIdentity(agents, r, admin)
    case Err(status) => Err(status)
    case Ok(trusted) =>
      if existing.Some? then Ok((RenewWhere(agents, existing.value, r, trusted, token), existing.value))
      else Ok((agents + [Created(id, r, trusted, token)], id))
  }

  function Patched(a: Agent, u: Update): Agent {
    a.(owner := if u.owner.Set? then u.owner.value else a.owner,
       policy := if u.policy.Set? && u.policy.value.Some? then u.policy.value.value else a.policy,
       publicKey := if u.publicKey.Set? then u.publicKey.value else a.publicKey)
  }

  function PatchWhere(agents: seq<Agent>, id: AgentId, u: Update): seq<Agent> {
    seq(|agents|, i requires 0 <= i < |agents| => if agents[i].id == id then Patched(agents[i], u) else agents[i])
  }

  predicate HasAgent(agents: seq<Agent>, id: AgentId) {
    exists i :: 0 <= i < |agents| && agents[i].id == id
  }

  // ----- The handlers --------------------------------------------------------------------

  class AgentTable {
    var agents: seq<Agent>

    constructor ()
      ensures agents == []
    {
      agents := [];
    }

    /** `register_agent`. */
    method Register(r: Request, admin: bool, token: string, newId: AgentId) returns (out: Result<AgentId>)
      modifies this
      ensures match Registered(old(agents), r, admin, token, newId)
              case Err(status) => out == Err(status) && agents == old(agents)
              case Ok((after, id)) => out == Ok(id) && agents == after
    {
      var existing: Option<AgentId> := None;
      if Given(r.existingToken) {
        existing := Authenticate(agents, r.existingToken.value);
      }
      var current: Option<TrustedIdentity> := None;
      if existing.Some? {
        current := TrustedOf(agents, existing.value);
      }
      var requested: Option<TrustedIdentity> := None;
      if admin && r.trustedIdentity.Some? {
        var built := BuildTrustedIdentity(r.trustedIdentity);
        if built.Err? {
          return Err(built.status);
        }
        requested := built.value;
      }
      if current.Some? && requested.Some? && current != requested {
        return Err(409);
      }
      var trusted := if requested.Some? then requested else current;
      if existing.Some? {
        agents := RenewWhere(agents, existing.value, r, trusted, token);
        return Ok(existing.value);
      }
      agents := agents + [Created(newId, r, trusted, token)];
      return Ok(newId);
    }

    /** `update_my_profile`, for the agent that authenticated. */
    method UpdateMyProfile(id: AgentId, u: Update) returns (ok: bool)
      modifies this
      ensures ok == HasAgent(old(agents), id)
      ensures agents == PatchWhere(old(agents), id, u)
    {
      var dropPolicy := u.policy.Set? && u.policy.value.None?;
      var updates := if dropPolicy then u.(policy := Unset) else u;
      if updates.owner.Set? || updates.policy.Set? || updates.publicKey.Set? {
        agents := PatchWhere(agents, id, updates);
        assert agents == PatchWhere(old(agents), id, u);
      } else {
        assert agents == PatchWhere(agents, id, u);
      }
      ok := exists i :: 0 <= i < |agents| && agents[i].id == id;
      assert forall i :: 0 <= i < |agents| ==> agents[i].id == old(agents)[i].id;
    }
  }

  // ----- Runs ----------------------------------------------------------------------------

  /** A successful registration: whom it registered and with which token. */
  datatype Entry = Entry(id: AgentId, token: string, request: Request, admin: bool)

  datatype World = World(agents: seq<Agent>, log: seq<Entry>)

  datatype Event =
    | Register(request: Request, admin: bool, token: string, newId: AgentId)
    | UpdateProfile(bearer: string, update: Update)

  /** Generated tokens and ids are fresh. */
  ghost predicate Enabled(w: World, e: Event) {
    match e
    case Register(_, _, token, newId) =>
      && (forall k :: 0 <= k < |w.log| ==> w.log[k].token != token)
      && !HasAgent(w.agents, newId)
    case UpdateProfile(_, _) => true
  }

  function Step(w: World, e: Event): World {
    match e
    case Register(r, admin, token, newId) =>
      (match Registered(w.agents, r, admin, token, newId)
       case Err(_) => w
       case Ok((after, id)) => World(after, w.log + [Entry(id, token, r, admin)]))
    case UpdateProfile(bearer, u) =>
      var id := Authenticate(w.agents, bearer);
      if id.None? then w else w.(agents := PatchWhere(w.agents, id.value, u))
  }

  ghost predicate CanRun(w: World, events: seq<Event>)
    decreases |events|
  {
    events == [] || (Enabled(w, events[0]) && CanRun(Step(w, events[0]), events[1..]))
  }

  function Run(w: World, events: seq<Event>): World
    decreases |events|
  {
    if events == [] then w else Run(Step(w, events[0]), events[1..])
  }

  const START := World([], [])

  // ----- What the log says an agent's row should be ---------------------------------------

  /** The token of the last registration of `id`. */
  function Latest(log: seq<Entry>, id: AgentId): Option<string> {
    if log == [] then None
    else if log[|log| - 1].id == id then Some(log[|log| - 1].token)
    else Latest(log[..|log| - 1], id)
  }

  /** The identity an admin asked for in this registration. */
  function Stamp(e: Entry): Option<TrustedIdentity> {
    var built := RequestedIdentity(e.request, e.admin);
    if built.Ok? then built.value else None
  }

  /** The identity in the first registration of `id` that an admin stamped. */
  function FirstStamp(log: seq<Entry>, id: AgentId): Option<TrustedIdentity> {
    if log == [] then None
    else
      var earlier := FirstStamp(log[..|log| - 1], id);
      if earlier.Some? then earlier
      else if log[|log| - 1].id == id then Stamp(log[|log| - 1]) else None
  }

  ghost predicate DistinctIds(agents: seq<Agent>) {
    forall i, j :: 0 <= i < j < |agents| ==> agents[i].id != agents[j].id
  }

  ghost predicate DistinctTokens(log: seq<Entry>) {
    forall i, j :: 0 <= i < j < |log| ==> log[i].token != log[j].token
  }

  /** Rows and log agree: each registered agent has its one row, with its latest token and its
      first stamped identity. */
  ghost predicate Agree(agents: seq<Agent>, log: seq<Entry>) {
    && (forall i :: 0 <= i < |agents| ==> Latest(log, agents[i].id) == Some(agents[i].token))
    && (forall i :: 0 <= i < |agents| ==> agents[i].trusted == FirstStamp(log, agents[i].id))
    && (forall k :: 0 <= k < |log| ==> HasAgent(agents, log[k].id))
  }

  ghost predicate Inv(w: World) {
    DistinctIds(w.agents) && DistinctTokens(w.log) && Agree(w.agents, w.log)
  }

  lemma {:induction false} LatestIsLogged(log: seq<Entry>, id: AgentId)
    ensures Latest(log, id).Some? <==> exists k :: 0 <= k < |log| && log[k].id == id
    ensures Latest(log, id).Some? ==>
              exists k :: 0 <= k < |log| && log[k].id == id && log[k].token == Latest(log, id).value
                && forall j :: k < j < |log| ==> log[j].id != id
  {
    if log != [] && log[|log| - 1].id != id {
      LatestIsLogged(log[..|log| - 1], id);
    }
  }

  lemma {:induction false} NeverLogged(log: seq<Entry>, id: AgentId)
    requires forall k :: 0 <= k < |log| ==> log[k].id != id
    ensures Latest(log, id) == None && FirstStamp(log, id) == None
  {
    if log != [] {
      NeverLogged(log[..|log| - 1], id);
    }
  }

  lemma Logged(log: seq<Entry>, e: Entry, id: AgentId)
    ensures Latest(log + [e], id) == if e.id == id then Some(e.token) else Latest(log, id)
    ensures FirstStamp(log + [e], id) ==
            if FirstStamp(log, id).Some? then FirstStamp(log, id)
            else if e.id == id then Stamp(e) else None
  {
    assert (log + [e])[..|log|] == log;
  }

  /** The token look-up finds row `i` when no other row has its token. */
  lemma {:induction false} AuthenticateFinds(agents: seq<Agent>, token: string)
    ensures Authenticate(agents, token).Some? ==>
              exists i :: 0 <= i < |agents| && agents[i].token == token
                && agents[i].id == Authenticate(agents, token).value
    ensures Authenticate(agents, token).None? <==> forall i :: 0 <= i < |agents| ==> agents[i].token != token
  {
    if agents != [] && agents[0].token != token {
      AuthenticateFinds(agents[1..], token);
      assert forall i :: 1 <= i < |agents| ==> agents[i] == agents[1..][i - 1];
      if Authenticate(agents, token).Some? {
        var i :| 0 <= i < |agents[1..]| && agents[1..][i].token == token
          && agents[1..][i].id == Authenticate(agents[1..], token).value;
        assert agents[i + 1].token == token;
      }
    }
  }

  lemma {:induction false} TrustedOfRow(agents: seq<Agent>, i: nat)
    requires DistinctIds(agents) && i < |agents|
    ensures TrustedOf(agents, agents[i].id) == agents[i].trusted
  {
    if i > 0 {
      TrustedOfRow(agents[1..], i - 1);
    }
  }

  /** Two agents never hold the same token. */
  lemma TokensTellAgentsApart(w: World, i: nat, j: nat)
    requires Inv(w) && i < |w.agents| && j < |w.agents| && w.agents[i].token == w.agents[j].token
    ensures i == j
  {
    LatestIsLogged(w.log, w.agents[i].id);
    LatestIsLogged(w.log, w.agents[j].id);
  }

  // ----- Every step keeps it -------------------------------------------------------------

  lemma UpdateKeepsInv(w: World, bearer: string, u: Update)
    requires Inv(w)
    ensures Inv(Step(w, UpdateProfile(bearer, u)))
  {
    var after := Step(w, UpdateProfile(bearer, u)).agents;
    assert |after| == |w.agents|;
    assert forall i :: 0 <= i < |after| ==>
      after[i].id == w.agents[i].id && after[i].token == w.agents[i].token && after[i].trusted == w.agents[i].trusted;
    forall k | 0 <= k < |w.log| ensures HasAgent(after, w.log[k].id) {
      var i :| 0 <= i < |w.agents| && w.agents[i].id == w.log[k].id;
      assert after[i].id == w.log[k].id;
    }
  }

  lemma CreateKeepsInv(w: World, a: Agent, e: Entry)
    requires Inv(w) && !HasAgent(w.agents, a.id)
    requires e.id == a.id && e.token == a.token && a.trusted == Stamp(e)
    requires forall k :: 0 <= k < |w.log| ==> w.log[k].token != e.token
    ensures Inv(World(w.agents + [a], w.log + [e]))
  {
    var after := w.agents + [a];
    NeverLogged(w.log, a.id);
    forall i | 0 <= i < |after|
      ensures Latest(w.log + [e], after[i].id) == Some(after[i].token)
      ensures after[i].trusted == FirstStamp(w.log + [e], after[i].id)
    {
      Logged(w.log, e, after[i].id);
    }
    forall k | 0 <= k < |w.log + [e]| ensures HasAgent(after, (w.log + [e])[k].id) {
      if k < |w.log| {
        var i :| 0 <= i < |w.agents| && w.agents[i].id == w.log[k].id;
        assert after[i].id == w.log[k].id;
      } else {
        assert after[|w.agents|].id == e.id;
      }
    }
  }

  lemma RenewKeepsInv(w: World, n: nat, trusted: Option<TrustedIdentity>, e: Entry)
    requires Inv(w) && n < |w.agents| && e.id == w.agents[n].id
    requires trusted == if w.agents[n].trusted.Some? then w.agents[n].trusted else Stamp(e)
    requires forall k :: 0 <= k < |w.log| ==> w.log[k].token != e.token
    ensures Inv(World(RenewWhere(w.agents, e.id, e.request, trusted, e.token), w.log + [e]))
  {
    var after := RenewWhere(w.agents, e.id, e.request, trusted, e.token);
    assert forall i :: 0 <= i < |after| ==> after[i].id == w.agents[i].id;
    forall i | 0 <= i < |after|
      ensures Latest(w.log + [e], after[i].id) == Some(after[i].token)
      ensures after[i].trusted == FirstStamp(w.log + [e], after[i].id)
    {
      Logged(w.log, e, after[i].id);
      assert i != n ==> after[i] == w.agents[i];
    }
    forall k | 0 <= k < |w.log + [e]| ensures HasAgent(after, (w.log + [e])[k].id) {
      if k < |w.log| {
        var i :| 0 <= i < |w.agents| && w.agents[i].id == w.log[k].id;
        assert after[i].id == w.log[k].id;
      } else {
        assert after[n].id == e.id;
      }
    }
  }

  /** The agent an existing token names, as a row. */
  lemma ExistingRow(w: World, r: Request) returns (n: nat)
    requires Inv(w) && ExistingAgent(w.agents, r).Some?
    ensures n < |w.agents| && w.agents[n].id == ExistingAgent(w.agents, r).value
    ensures w.agents[n].token == r.existingToken.value
    ensures TrustedOf(w.agents, w.agents[n].id) == w.agents[n].trusted
  {
    AuthenticateFinds(w.agents, r.existingToken.value);
    n :| 0 <= n < |w.agents| && w.agents[n].token == r.existingToken.value
      && w.agents[n].id == ExistingAgent(w.agents, r).value;
    TrustedOfRow(w.agents, n);
  }

  lemma StepKeepsInv(w: World, e: Event)
    requires Inv(w) && Enabled(w, e)
    ensures Inv(Step(w, e))
  {
    match e
    case UpdateProfile(bearer, u) => UpdateKeepsInv(w, bearer, u);
    case Register(r, admin, token, newId) =>
      var final := FinalIdentity(w.agents, r, admin);
      if final.Ok? {
        if ExistingAgent(w.agents, r).Some? {
          var n := ExistingRow(w, r);
          RenewKeepsInv(w, n, final.value, Entry(w.agents[n].id, token, r, admin));
        } else {
          CreateKeepsInv(w, Created(newId, r, final.value, token), Entry(newId, token, r, admin));
        }
      }
  }

  lemma {:induction false} RunKeepsInv(w: World, events: seq<Event>)
    requires Inv(w) && CanRun(w, events)
    ensures Inv(Run(w, events)) && w.log <= Run(w, events).log
    decreases |events|
  {
    if events != [] {
      StepKeepsInv(w, events[0]);
      RunKeepsInv(Step(w, events[0]), events[1..]);
    }
  }

  // ----- Tokens --------------------------------------------------------------------------

  /** In every reachable state a token authenticates an agent exactly when it is the latest one
      issued to that agent; so each registered agent has exactly one live token. */
  lemma TokenIsLiveExactlyWhenLatest(events: seq<Event>, token: string, id: AgentId)
    requires CanRun(START, events)
    ensures var w := Run(START, events);
      && (Authenticate(w.agents, token) == Some(id) <==> Latest(w.log, id) == Some(token))
      && (HasAgent(w.agents, id) <==> Latest(w.log, id).Some?)
  {
    RunKeepsInv(START, events);
    var w := Run(START, events);
    AuthenticateFinds(w.agents, token);
    LatestIsLogged(w.log, id);
    if Latest(w.log, id) == Some(token) {
      var i :| 0 <= i < |w.agents| && w.agents[i].id == id;
      var j :| 0 <= j < |w.agents| && w.agents[j].token == token
        && w.agents[j].id == Authenticate(w.agents, token).value;
      TokensTellAgentsApart(w, i, j);
    }
  }

  /** Once an agent has registered again, none of its earlier tokens opens anything. */
  lemma RotatedTokenIsDead(events: seq<Event>, k: nat, later: nat)
    requires CanRun(START, events)
    requires var log := Run(START, events).log; k < later < |log| && log[k].id == log[later].id
    ensures var w := Run(START, events); Authenticate(w.agents, w.log[k].token) == None
  {
    RunKeepsInv(START, events);
    var w := Run(START, events);
    var token := w.log[k].token;
    if Authenticate(w.agents, token).Some? {
      var id := Authenticate(w.agents, token).value;
      TokenIsLiveExactlyWhenLatest(events, token, id);
      LatestIsLogged(w.log, id);
      assert false;
    }
  }

  /** Which agent a registration is for: the one its live token names, or else a new one. A name
      already in use makes no difference, and no other row is touched. */
  lemma ReuseExactlyWhenTokenIsLive(w: World, r: Request, admin: bool, token: string, newId: AgentId)
    requires Inv(w) && Enabled(w, Register(r, admin, token, newId))
    requires Registered(w.agents, r, admin, token, newId).Ok?
    ensures var (after, id) := Registered(w.agents, r, admin, token, newId).value;
      var live := Given(r.existingToken)
        && exists i :: 0 <= i < |w.agents| && w.agents[i].token == r.existingToken.value;
      && (HasAgent(w.agents, id) <==> live)
      && (live ==> Authenticate(w.agents, r.existingToken.value) == Some(id) && |after| == |w.agents|)
      && (live ==> forall i :: 0 <= i < |after| ==> after[i].id == w.agents[i].id)
      && (!live ==> id == newId && |after| == |w.agents| + 1 && after[|w.agents|].id == newId)
      && (forall i :: 0 <= i < |w.agents| && w.agents[i].id != id ==> after[i] == w.agents[i])
      && (forall i :: 0 <= i < |after| && after[i].id == id ==> after[i].token == token && after[i].name == r.name)
      && (live ==> forall i :: 0 <= i < |after| ==>
            after[i].publicKey == w.agents[i].publicKey && (r.owner.None? ==> after[i].owner == w.agents[i].owner))
  {
    hide Authenticate;
    if Given(r.existingToken) {
      AuthenticateFinds(w.agents, r.existingToken.value);
    }
    if ExistingAgent(w.agents, r).Some? {
      var n := ExistingRow(w, r);
    }
  }

  // ----- Trusted identity ----------------------------------------------------------------

  lemma {:induction false} FirstStampStays(log: seq<Entry>, more: seq<Entry>, id: AgentId)
    requires log <= more && FirstStamp(log, id).Some?
    ensures FirstStamp(more, id) == FirstStamp(log, id)
    decreases |more|
  {
    if |more| == |log| {
      assert more == log;
    } else {
      FirstStampStays(log, more[..|more| - 1], id);
    }
  }

  /** Once an agent has a trusted identity, no registration or profile update, by it or by anyone,
      changes or clears it. */
  lemma TrustedIdentityIsWriteOnce(w: World, events: seq<Event>, id: AgentId)
    requires Inv(w) && CanRun(w, events)
    requires HasAgent(w.agents, id) && TrustedOf(w.agents, id).Some?
    ensures HasAgent(Run(w, events).agents, id)
    ensures TrustedOf(Run(w, events).agents, id) == TrustedOf(w.agents, id)
  {
    RunKeepsInv(w, events);
    var after := Run(w, events);
    var i :| 0 <= i < |w.agents| && w.agents[i].id == id;
    TrustedOfRow(w.agents, i);
    FirstStampStays(w.log, after.log, id);
    LatestIsLogged(w.log, id);
    var k :| 0 <= k < |w.log| && w.log[k].id == id;
    assert after.log[k].id == id;
    var j :| 0 <= j < |after.agents| && after.agents[j].id == id;
    TrustedOfRow(after.agents, j);
  }

  lemma {:induction false} FirstStampIsFirst(log: seq<Entry>, id: AgentId)
    ensures match FirstStamp(log, id)
            case None => forall k :: 0 <= k < |log| && log[k].id == id ==> Stamp(log[k]).None?
            case Some(t) => exists k :: 0 <= k < |log| && log[k].id == id && Stamp(log[k]) == Some(t)
                              && forall j :: 0 <= j < k && log[j].id == id ==> Stamp(log[j]).None?
  {
    if log != [] {
      FirstStampIsFirst(log[..|log| - 1], id);
    }
  }

  /** An admin-authenticated registration that carries a trusted identity. */
  predicate AskedByAdmin(e: Entry) {
    e.admin && e.request.trustedIdentity.Some?
  }

  lemma StampMeans(log: seq<Entry>)
    requires forall e :: e in log ==> RequestedIdentity(e.request, e.admin).Ok?
    ensures forall k :: 0 <= k < |log| ==> (Stamp(log[k]).Some? <==> AskedByAdmin(log[k]))
    ensures forall k :: 0 <= k < |log| && Stamp(log[k]).Some? ==>
              BuildTrustedIdentity(log[k].request.trustedIdentity) == Ok(Stamp(log[k]))
  {
    assert forall k :: 0 <= k < |log| ==> log[k] in log;
  }

  /** Where an identity comes from: the agent's first registration whose admin key was right and
      which carried an identity. An agent with no such registration has none. */
  lemma TrustedIdentityIsFirstAdminStamp(events: seq<Event>, id: AgentId)
    requires CanRun(START, events) && HasAgent(Run(START, events).agents, id)
    ensures var w := Run(START, events);
      match TrustedOf(w.agents, id)
      case None => forall k :: 0 <= k < |w.log| && w.log[k].id == id ==> !AskedByAdmin(w.log[k])
      case Some(t) => exists k :: 0 <= k < |w.log| && w.log[k].id == id && AskedByAdmin(w.log[k])
                        && BuildTrustedIdentity(w.log[k].request.trustedIdentity) == Ok(Some(t))
                        && forall j :: 0 <= j < k && w.log[j].id == id ==> !AskedByAdmin(w.log[j])
  {
    RunKeepsInv(START, events);
    LoggedRequestsAreWellFormed(START, events);
    var w := Run(START, events);
    var i :| 0 <= i < |w.agents| && w.agents[i].id == id;
    TrustedOfRow(w.agents, i);
    FirstStampIsFirst(w.log, id);
    StampMeans(w.log);
    assert TrustedOf(w.agents, id) == FirstStamp(w.log, id);
    if FirstStamp(w.log, id).Some? {
      var k :| 0 <= k < |w.log| && w.log[k].id == id && Stamp(w.log[k]) == FirstStamp(w.log, id)
        && forall j :: 0 <= j < k && w.log[j].id == id ==> Stamp(w.log[j]).None?;
      assert AskedByAdmin(w.log[k]);
    }
  }

  lemma {:induction false} LoggedRequestsAreWellFormed(w: World, events: seq<Event>)
    requires forall e :: e in w.log ==> RequestedIdentity(e.request, e.admin).Ok?
    ensures forall e :: e in Run(w, events).log ==> RequestedIdentity(e.request, e.admin).Ok?
    decreases |events|
  {
    if events != [] {
      LoggedRequestsAreWellFormed(Step(w, events[0]), events[1..]);
    }
  }

  /** A payload with all four fields as text, of the one kind there is. */
  predicate IsWellFormed(payload: map<string, Json>) {
    && HasText(payload, "kind") && HasText(payload, "accountId")
    && HasText(payload, "peerId") && HasText(payload, "openclawAgentId")
    && payload["kind"].s == "kakao_peer"
  }

  /** Registration is rejected as malformed only for a request with the right admin key. Without
      the key a trusted identity in the request is ignored, well formed or not. */
  lemma MalformedExactlyWhen(agents: seq<Agent>, r: Request, admin: bool, token: string, newId: AgentId)
    ensures Registered(agents, r, admin, token, newId) == Err(400) <==>
            admin && r.trustedIdentity.Some? && !IsWellFormed(r.trustedIdentity.value)
  {
  }

  /** It is rejected as a conflict when the existing token's agent already has another identity,
      and there is no third reason to fail. */
  lemma ConflictExactlyWhen(w: World, r: Request, admin: bool, token: string, newId: AgentId)
    requires Inv(w)
    ensures var out := Registered(w.agents, r, admin, token, newId);
      var conflicts := Given(r.existingToken) && exists a ::
        && a in w.agents && a.token == r.existingToken.value
        && a.trusted.Some? && Ok(a.trusted) != BuildTrustedIdentity(r.trustedIdentity);
      && (out == Err(409) <==>
            admin && r.trustedIdentity.Some? && IsWellFormed(r.trustedIdentity.value) && conflicts)
      && (out.Err? ==> out == Err(400) || out == Err(409))
  {
    if Given(r.existingToken) {
      AuthenticateFinds(w.agents, r.existingToken.value);
    }
    if ExistingAgent(w.agents, r).Some? {
      var n := ExistingRow(w, r);
      forall i: nat | i < |w.agents| && w.agents[i].token == r.existingToken.value ensures i == n {
        TokensTellAgentsApart(w, i, n);
      }
      assert w.agents[n] in w.agents;
    }
  }

  // ----- What is written -----------------------------------------------------------------

  /** The identity an admin stamps, field by field as the payload has it. */
  ghost predicate IsStamped(t: TrustedIdentity, payload: map<string, Json>) {
    && t.issuer == "openclaw-admin"
    && (forall key :: key in {"kind", "accountId", "peerId", "openclawAgentId"} ==> key in payload)
    && payload["kind"] == Text(t.kind) && payload["accountId"] == Text(t.accountId)
    && payload["peerId"] == Text(t.peerId) && payload["openclawAgentId"] == Text(t.openclawAgentId)
  }

  /** The row of an agent after its registration: what the request says of it, the new token, an owner
      and a public key that are kept unless given, and the identity it had or else the one stamped. */
  ghost predicate IsWritten(a: Agent, was: Option<Agent>, r: Request, admin: bool, token: string) {
    && a.name == r.name && a.capabilities == r.capabilities && a.metadata == r.metadata
    && a.isApplication == r.isApplication && a.policy == r.policy && a.token == token
    && a.owner == (if r.owner.Some? || was.None? then r.owner else was.value.owner)
    && a.publicKey == (if was.None? then None else was.value.publicKey)
    && (if admin && r.trustedIdentity.Some? then a.trusted.Some? && IsStamped(a.trusted.value, r.trustedIdentity.value)
        else a.trusted == if was.None? then None else was.value.trusted)
  }

  lemma RegistrationWrites(w: World, r: Request, admin: bool, token: string, newId: AgentId)
    requires Inv(w) && Enabled(w, Register(r, admin, token, newId))
    requires Registered(w.agents, r, admin, token, newId).Ok?
    ensures var (after, id) := Registered(w.agents, r, admin, token, newId).value;
      exists i :: 0 <= i < |after| && after[i].id == id
        && IsWritten(after[i], if i < |w.agents| then Some(w.agents[i]) else None, r, admin, token)
        && forall k :: 0 <= k < |w.agents| && k != i ==> after[k] == w.agents[k]
  {
    hide Authenticate;
    var (after, id) := Registered(w.agents, r, admin, token, newId).value;
    StampsPayload(r);
    if ExistingAgent(w.agents, r).Some? {
      var n := ExistingRow(w, r);
      assert IsWritten(after[n], Some(w.agents[n]), r, admin, token);
    } else {
      assert IsWritten(after[|w.agents|], None, r, admin, token);
    }
  }

  lemma StampsPayload(r: Request)
    ensures var built := BuildTrustedIdentity(r.trustedIdentity);
      built.Ok? && r.trustedIdentity.Some? ==>
        built.value.Some? && IsStamped(built.value.value, r.trustedIdentity.value)
  {
  }

  /** A field after a profile update: unchanged unless the request mentions it. */
  ghost predicate IsSet<T(!new)>(field: Field<T>, was: Option<T>, now: Option<T>) {
    now == match field case Unset => was case Set(value) => value
  }

  /** A profile update changes the owner, the policy and the public key of the agent whose live token
      it bears, as far as it mentions them, and nothing else. A policy cannot be made null. */
  lemma ProfileUpdateWrites(w: World, bearer: string, u: Update, i: nat)
    requires Inv(w) && i < |w.agents|
    ensures var after := Step(w, UpdateProfile(bearer, u)).agents;
      && |after| == |w.agents|
      && (w.agents[i].token != bearer ==> after[i] == w.agents[i])
      && (w.agents[i].token == bearer ==>
            var a, b := w.agents[i], after[i];
            && IsSet(u.owner, a.owner, b.owner) && IsSet(u.publicKey, a.publicKey, b.publicKey)
            && b.policy == (match u.policy case Set(Some(p)) => p case _ => a.policy)
            && b == a.(owner := b.owner, publicKey := b.publicKey, policy := b.policy))
  {
    hide Authenticate;
    AuthenticateFinds(w.agents, bearer);
    var found := Authenticate(w.agents, bearer);
    if found.Some? {
      var j :| 0 <= j < |w.agents| && w.agents[j].token == bearer && w.agents[j].id == found.value;
      if w.agents[i].token == bearer {
        TokensTellAgentsApart(w, i, j);
      }
    }
  }
}
