/** The plugin's automatic configuration (plugin/src/auto-config.ts): every account the host binds
    to the channel gets a name. The host's normalisers and its string order are parameters. */
module AutoConfig {
  import opened Common

  const CHANNEL_ID := "claw-msg"
  const DEFAULT_BROKER_URL := ""

  /** A field of unknown type: text, or something else. */
  datatype Value = Text(text: string) | NotText

  datatype Binding = Binding(agentId: Value, channel: Value, accountId: Value)
  datatype AgentEntry = AgentEntry(id: string, identityName: Option<string>, name: Option<string>)

  /** An account's fields besides its name are carried along untouched. */
  datatype Account = Account(name: Option<Value>, rest: string)
  datatype Channel = Channel(
    broker: Option<string>, name: Option<Value>, accounts: Option<map<string, Account>>, rest: string)
  datatype Config = Config(bindings: seq<Binding>, agents: seq<AgentEntry>, channel: Option<Channel>, rest: string)

  datatype Host = Host(
    defaultAccount: string,
    normalizeAccountId: string -> string,
    normalizeAgentId: string -> string,
    atMost: (string, string) -> bool)

  datatype Bound = Bound(accountId: string, agentId: string, agentName: string)

  // ----- Strings -------------------------------------------------------------------------

  /** What String.prototype.trim strips. */
  predicate IsSpace(c: char) {
    var n := c as int;
    9 <= n <= 13 || n == 32 || n == 0xA0 || n == 0x1680 || 0x2000 <= n <= 0x200A
    || n == 0x2028 || n == 0x2029 || n == 0x202F || n == 0x205F || n == 0x3000 || n == 0xFEFF
  }

  function TrimStart(s: string): string {
    if s != "" && IsSpace(s[0]) then TrimStart(s[1..]) else s
  }

  function TrimEnd(s: string): string {
    if s != "" && IsSpace(s[|s| - 1]) then TrimEnd(s[..|s| - 1]) else s
  }

  function Trim(s: string): string {
    TrimEnd(TrimStart(s))
  }

  predicate IsBlank(s: string) {
    Trim(s) == ""
  }

  function TextOf(v: Value): string {
    if v.Text? then Trim(v.text) else ""
  }

  /** JavaScript's `||` on strings. */
  function Or(a: string, b: string): string {
    if a != "" then a else b
  }

  // ----- Bindings ------------------------------------------------------------------------

  function FindAgent(h: Host, agents: seq<AgentEntry>, normalized: string): Option<AgentEntry> {
    if agents == [] then None
    else if h.normalizeAgentId(agents[0].id) == normalized then Some(agents[0])
    else FindAgent(h, agents[1..], normalized)
  }

  function TrimmedName(name: Option<string>): string {
    if name.Some? then Trim(name.value) else ""
  }

  function ResolveAgentName(h: Host, agents: seq<AgentEntry>, agentId: string): string {
    var normalized := h.normalizeAgentId(agentId);
    var found := FindAgent(h, agents, normalized);
    var own := Or(normalized, agentId);
    if found.None? then own
    else Or(TrimmedName(found.value.identityName), Or(TrimmedName(found.value.name), own))
  }

  /** The entry a binding asks for on this channel, if it does. */
  function Candidate(h: Host, agents: seq<AgentEntry>, b: Binding): Option<Bound> {
    var agentId := TextOf(b.agentId);
    if agentId == "" || Fold(TextOf(b.channel)) != CHANNEL_ID then None
    else
      var accountId := h.normalizeAccountId(Or(TextOf(b.accountId), h.defaultAccount));
      Some(Bound(accountId, h.normalizeAgentId(agentId), ResolveAgentName(h, agents, agentId)))
  }

  function Candidates(h: Host, cfg: Config): seq<Option<Bound>> {
    seq(|cfg.bindings|, i requires 0 <= i < |cfg.bindings| => Candidate(h, cfg.agents, cfg.bindings[i]))
  }

  /** The comparison that `sort` is given, at most zero. */
  predicate Before(h: Host, a: Bound, b: Bound) {
    if a.accountId == h.defaultAccount && b.accountId != h.defaultAccount then true
    else if a.accountId != h.defaultAccount && b.accountId == h.defaultAccount then false
    else h.atMost(a.accountId, b.accountId)
  }

  function Insert(h: Host, sorted: seq<Bound>, e: Bound): seq<Bound> {
    if sorted != [] && Before(h, sorted[0], e) then [sorted[0]] + Insert(h, sorted[1..], e) else [e] + sorted
  }

  function Sorted(h: Host, entries: seq<Bound>): seq<Bound> {
    if entries == [] then []
    else Insert(h, Sorted(h, entries[..|entries| - 1]), entries[|entries| - 1])
  }

  predicate Lists(entries: seq<Bound>, id: string) {
    exists k :: 0 <= k < |entries| && entries[k].accountId == id
  }

  ghost predicate DistinctAccounts(entries: seq<Bound>) {
    forall i, j :: 0 <= i < j < |entries| ==> entries[i].accountId != entries[j].accountId
  }

  predicate IsFor(c: Option<Bound>, id: string) {
    c.Some? && c.value.accountId == id
  }

  /** `e` is the first candidate for its account. */
  ghost predicate IsFirst(candidates: seq<Option<Bound>>, e: Bound) {
    exists n :: 0 <= n < |candidates| && IsFirstAt(candidates, n, e)
  }

  ghost predicate IsFirstAt(candidates: seq<Option<Bound>>, n: nat, e: Bound)
    requires n < |candidates|
  {
    candidates[n] == Some(e) && forall m :: 0 <= m < n ==> !IsFor(candidates[m], e.accountId)
  }

  ghost predicate IsWanted(candidates: seq<Option<Bound>>, id: string) {
    exists n :: 0 <= n < |candidates| && IsFor(candidates[n], id)
  }

  /** Some binding puts this account on the channel. */
  ghost predicate IsBound(h: Host, cfg: Config, id: string) {
    IsWanted(Candidates(h, cfg), id)
  }

  /** A map filled in order, an account's first candidate staying. */
  function FirstOfEach(candidates: seq<Option<Bound>>): seq<Bound> {
    if candidates == [] then []
    else
      var before := FirstOfEach(candidates[..|candidates| - 1]);
      var c := candidates[|candidates| - 1];
      if c.None? || Lists(before, c.value.accountId) then before else before + [c.value]
  }

  function BoundAccounts(h: Host, cfg: Config): seq<Bound> {
    Sorted(h, FirstOfEach(Candidates(h, cfg)))
  }

  /** `listClawMsgBoundAccounts`. */
  method ListBoundAccounts(h: Host, cfg: Config) returns (entries: seq<Bound>)
    ensures entries == BoundAccounts(h, cfg)
  {
    var found: seq<Bound> := [];
    ghost var candidates := Candidates(h, cfg);
    for n := 0 to |cfg.bindings|
      invariant found == FirstOfEach(candidates[..n])
    {
      assert candidates[..n + 1][..n] == candidates[..n];
      var b := cfg.bindings[n];
      var agentId := TextOf(b.agentId);
      if agentId == "" || TextOf(b.channel) == "" {
        continue;
      }
      if Fold(TextOf(b.channel)) != CHANNEL_ID {
        continue;
      }
      var accountId := h.normalizeAccountId(Or(TextOf(b.accountId), h.defaultAccount));
      if Lists(found, accountId) {
        continue;
      }
      found := found + [Bound(accountId, h.normalizeAgentId(agentId), ResolveAgentName(h, cfg.agents, agentId))];
    }
    assert candidates[..|candidates|] == candidates;
    entries := Sorted(h, found);
  }

  // ----- The configuration ---------------------------------------------------------------

  function NameField(h: Host, cfg: Config, id: string): Option<Value> {
    if cfg.channel.None? then None
    else if id == h.defaultAccount then cfg.channel.value.name
    else
      var accounts := cfg.channel.value.accounts;
      if accounts.Some? && id in accounts.value then accounts.value[id].name else None
  }

  predicate IsNamed(h: Host, cfg: Config, id: string) {
    var name := NameField(h, cfg, id);
    name.Some? && TextOf(name.value) != ""
  }

  const NO_CHANNEL := Channel(None, None, None, "")

  function ChannelOf(cfg: Config): Channel {
    if cfg.channel.Some? then cfg.channel.value else NO_CHANNEL
  }

  /** `patchAccountConfig` for a new name. */
  function PatchName(h: Host, cfg: Config, id: string, name: string): Config {
    var channel := ChannelOf(cfg);
    if id == h.defaultAccount then cfg.(channel := Some(channel.(name := Some(Text(name)))))
    else
      var accounts := if channel.accounts.Some? then channel.accounts.value else map[];
      var account := if id in accounts then accounts[id] else Account(None, "");
      cfg.(channel := Some(channel.(accounts := Some(accounts[id := account.(name := Some(Text(name)))]))))
  }

  predicate HasBroker(cfg: Config) {
    cfg.channel.Some? && cfg.channel.value.broker.Some? && Trim(cfg.channel.value.broker.value) != ""
  }

  function EnsureChannelBroker(cfg: Config): Config {
    if HasBroker(cfg) then cfg
    else cfg.(channel := Some(ChannelOf(cfg).(broker := Some(DEFAULT_BROKER_URL))))
  }

  function FillOne(h: Host, cfg: Config, e: Bound): Config {
    if IsNamed(h, cfg, e.accountId) then cfg else PatchName(h, cfg, e.accountId, e.agentName)
  }

  function Filled(h: Host, cfg: Config, entries: seq<Bound>): Config {
    if entries == [] then cfg else FillOne(h, Filled(h, cfg, entries[..|entries| - 1]), entries[|entries| - 1])
  }

  /** The ids of the entries whose account has no name, in order. */
  function Lacking(h: Host, cfg: Config, entries: seq<Bound>): seq<string> {
    if entries == [] then []
    else
      var before := Lacking(h, cfg, entries[..|entries| - 1]);
      var id := entries[|entries| - 1].accountId;
      if IsNamed(h, cfg, id) then before else before + [id]
  }

  function AutoConfigured(h: Host, cfg: Config): Config {
    Filled(h, EnsureChannelBroker(cfg), BoundAccounts(h, cfg))
  }

  function CreatedAccounts(h: Host, cfg: Config): seq<string> {
    Lacking(h, cfg, BoundAccounts(h, cfg))
  }

  /** Whether a pass reports that it changed something. */
  predicate Changes(h: Host, cfg: Config) {
    !HasBroker(cfg) || CreatedAccounts(h, cfg) != []
  }

  /** `buildClawMsgAutoConfig`. */
  method BuildAutoConfig(h: Host, cfg: Config)
    returns (next: Config, changed: bool, createdChannel: bool, created: seq<string>)
    ensures next == AutoConfigured(h, cfg)
    ensures created == CreatedAccounts(h, cfg)
    ensures changed == Changes(h, cfg)
    ensures createdChannel == cfg.channel.None?
  {
    next := EnsureChannelBroker(cfg);
    changed := !HasBroker(cfg);
    ghost var start := next;
    created := [];
    var entries := ListBoundAccounts(h, next);
    BrokerChangesNoName(h, cfg, entries);
    BoundAccountsExactly(h, cfg);
    for n := 0 to |entries|
      invariant next == Filled(h, start, entries[..n])
      invariant created == Lacking(h, start, entries[..n])
      invariant changed == (!HasBroker(cfg) || created != [])
    {
      OneMore(h, start, entries, n);
      if IsNamed(h, next, entries[n].accountId) {
        continue;
      }
      next := PatchName(h, next, entries[n].accountId, entries[n].agentName);
      changed := true;
      created := created + [entries[n].accountId];
    }
    assert entries[..|entries|] == entries;
    createdChannel := cfg.channel.None?;
  }

  // ----- Trimming ------------------------------------------------------------------------

  predicate IsTrimmed(s: string) {
    s == "" || (!IsSpace(s[0]) && !IsSpace(s[|s| - 1]))
  }

  lemma {:induction false} TrimEndTrims(s: string)
    ensures TrimEnd(s) <= s
    ensures TrimEnd(s) == "" || !IsSpace(TrimEnd(s)[|TrimEnd(s)| - 1])
  {
    if s != "" && IsSpace(s[|s| - 1]) {
      TrimEndTrims(s[..|s| - 1]);
    }
  }

  lemma {:induction false} TrimStartTrims(s: string)
    ensures TrimStart(s) == "" || !IsSpace(TrimStart(s)[0])
  {
    if s != "" && IsSpace(s[0]) {
      TrimStartTrims(s[1..]);
    }
  }

  lemma TrimTrims(s: string)
    ensures IsTrimmed(Trim(s)) && Trim(Trim(s)) == Trim(s)
  {
    TrimStartTrims(s);
    TrimEndTrims(TrimStart(s));
  }

  /** `t` is what is left of `s` without the white space around it. */
  ghost predicate IsTrimOf(s: string, t: string) {
    IsTrimmed(t) && exists i, j :: 0 <= i <= j <= |s| && t == s[i..j] && IsSpaceBut(s, i, j)
  }

  ghost predicate IsSpaceBut(s: string, i: nat, j: nat) {
    forall k :: 0 <= k < |s| && (k < i || j <= k) ==> IsSpace(s[k])
  }

  lemma {:induction false} TrimStartCuts(s: string) returns (i: nat)
    ensures i <= |s| && TrimStart(s) == s[i..] && IsSpaceBut(s, i, |s|)
  {
    i := 0;
    if s != "" && IsSpace(s[0]) {
      var j := TrimStartCuts(s[1..]);
      i := j + 1;
      assert forall k :: 1 <= k < |s| ==> s[k] == s[1..][k - 1];
    }
  }

  lemma {:induction false} TrimEndCuts(s: string) returns (j: nat)
    ensures j <= |s| && TrimEnd(s) == s[..j] && IsSpaceBut(s, 0, j)
  {
    j := |s|;
    if s != "" && IsSpace(s[|s| - 1]) {
      j := TrimEndCuts(s[..|s| - 1]);
      assert forall k :: 0 <= k < |s| - 1 ==> s[k] == s[..|s| - 1][k];
    }
  }

  /** Trimming takes away the white space at both ends and nothing else. */
  lemma TrimIsExact(s: string)
    ensures IsTrimOf(s, Trim(s))
  {
    TrimTrims(s);
    var i := TrimStartCuts(s);
    var rest := s[i..];
    var j := TrimEndCuts(rest);
    assert Trim(s) == s[i..i + j];
    assert forall k :: i <= k < |s| ==> s[k] == rest[k - i];
    assert IsSpaceBut(s, i, i + j);
  }

  // ----- The list of bound accounts ------------------------------------------------------

  lemma ListsMore(entries: seq<Bound>, e: Bound, id: string)
    ensures Lists(entries + [e], id) <==> Lists(entries, id) || e.accountId == id
  {
    var more := entries + [e];
    assert more[|entries|] == e;
    assert forall k :: 0 <= k < |entries| ==> more[k] == entries[k];
  }

  lemma {:induction false} FirstOfEachLists(candidates: seq<Option<Bound>>, id: string)
    ensures Lists(FirstOfEach(candidates), id) <==> IsWanted(candidates, id)
  {
    if candidates != [] {
      var last := |candidates| - 1;
      var c := candidates[last];
      FirstOfEachLists(candidates[..last], id);
      assert IsWanted(candidates, id) <==> IsWanted(candidates[..last], id) || IsFor(c, id) by {
        assert forall m :: 0 <= m < last ==> candidates[m] == candidates[..last][m];
      }
      if c.Some? {
        ListsMore(FirstOfEach(candidates[..last]), c.value, id);
      }
    }
  }

  lemma {:induction false} FirstOfEachIsDistinct(candidates: seq<Option<Bound>>)
    ensures DistinctAccounts(FirstOfEach(candidates))
  {
    if candidates != [] {
      FirstOfEachIsDistinct(candidates[..|candidates| - 1]);
    }
  }

  lemma IsFirstNext(candidates: seq<Option<Bound>>, e: Bound)
    requires candidates != []
    ensures var last := |candidates| - 1;
      IsFirst(candidates, e) <==>
      IsFirst(candidates[..last], e) || (candidates[last] == Some(e) && !IsWanted(candidates[..last], e.accountId))
  {
    var last := |candidates| - 1;
    assert forall m :: 0 <= m < last ==> candidates[m] == candidates[..last][m];
    if IsFirst(candidates[..last], e) {
      var n :| 0 <= n < last && IsFirstAt(candidates[..last], n, e);
      assert IsFirstAt(candidates, n, e);
    }
    if candidates[last] == Some(e) && !IsWanted(candidates[..last], e.accountId) {
      assert forall m :: 0 <= m < last ==> !IsFor(candidates[..last][m], e.accountId);
      assert IsFirstAt(candidates, last, e);
    }
    if IsFirst(candidates, e) {
      var n :| 0 <= n < |candidates| && IsFirstAt(candidates, n, e);
      if n < last {
        assert IsFirstAt(candidates[..last], n, e);
      }
    }
  }

  /** What stays of each account is its first candidate. */
  lemma {:induction false} FirstOfEachIsFirst(candidates: seq<Option<Bound>>, e: Bound)
    ensures e in FirstOfEach(candidates) <==> IsFirst(candidates, e)
  {
    if candidates != [] {
      FirstOfEachIsFirst(candidates[..|candidates| - 1], e);
      FirstOfEachLists(candidates[..|candidates| - 1], e.accountId);
      IsFirstNext(candidates, e);
    }
  }

  lemma {:induction false} InsertAdds(h: Host, sorted: seq<Bound>, e: Bound)
    ensures forall x :: x in Insert(h, sorted, e) <==> x in sorted || x == e
    ensures |Insert(h, sorted, e)| == |sorted| + 1
    ensures DistinctAccounts(sorted) && !Lists(sorted, e.accountId) ==> DistinctAccounts(Insert(h, sorted, e))
  {
    if sorted != [] && Before(h, sorted[0], e) {
      InsertAdds(h, sorted[1..], e);
      assert sorted == [sorted[0]] + sorted[1..];
      var rest := Insert(h, sorted[1..], e);
      assert forall x :: x in Insert(h, sorted, e) <==> x == sorted[0] || x in rest;
      if DistinctAccounts(sorted) && !Lists(sorted, e.accountId) {
        assert forall k :: 0 <= k < |sorted| - 1 ==> sorted[1..][k] == sorted[k + 1];
        forall j | 0 <= j < |rest| ensures rest[j].accountId != sorted[0].accountId {
          assert rest[j] in rest;
        }
      }
    }
  }

  /** Sorting a list without repeats permutes it. */
  lemma {:induction false} SortedMembers(h: Host, entries: seq<Bound>)
    requires DistinctAccounts(entries)
    ensures forall e :: e in Sorted(h, entries) <==> e in entries
    ensures |Sorted(h, entries)| == |entries| && DistinctAccounts(Sorted(h, entries))
  {
    if entries != [] {
      var last := |entries| - 1;
      var before := Sorted(h, entries[..last]);
      SortedMembers(h, entries[..last]);
      SameLists(entries[..last], before, entries[last].accountId);
      InsertAdds(h, before, entries[last]);
      assert entries == entries[..last] + [entries[last]];
    }
  }

  /** `listClawMsgBoundAccounts` gives each account a binding puts on this channel, once, named
      after the agent of the first such binding. */
  lemma BoundAccountsExactly(h: Host, cfg: Config)
    ensures DistinctAccounts(BoundAccounts(h, cfg))
    ensures forall e :: e in BoundAccounts(h, cfg) <==> IsFirst(Candidates(h, cfg), e)
    ensures forall id :: Lists(BoundAccounts(h, cfg), id) <==> IsBound(h, cfg, id)
  {
    var candidates := Candidates(h, cfg);
    FirstOfEachIsDistinct(candidates);
    SortedMembers(h, FirstOfEach(candidates));
    forall e ensures e in BoundAccounts(h, cfg) <==> IsFirst(candidates, e) {
      FirstOfEachIsFirst(candidates, e);
    }
    forall id ensures Lists(BoundAccounts(h, cfg), id) <==> IsBound(h, cfg, id) {
      FirstOfEachLists(candidates, id);
      SameLists(FirstOfEach(candidates), BoundAccounts(h, cfg), id);
    }
  }

  /** The binding is for this channel, from an agent, and puts this account on it. */
  ghost predicate Asks(h: Host, b: Binding, id: string) {
    && TextOf(b.agentId) != "" && SameButForCase(TextOf(b.channel), CHANNEL_ID)
    && id == h.normalizeAccountId(if TextOf(b.accountId) != "" then TextOf(b.accountId) else h.defaultAccount)
  }

  /** The first agent on the list that has this normalised id. */
  ghost predicate IsFirstMatch(h: Host, agents: seq<AgentEntry>, k: nat, normalized: string) {
    && k < |agents| && h.normalizeAgentId(agents[k].id) == normalized
    && forall l :: 0 <= l < k ==> h.normalizeAgentId(agents[l].id) != normalized
  }

  /** The first of these that is not empty, or else the last. */
  ghost predicate IsFirstGiven(options: seq<string>, name: string) {
    exists m :: 0 <= m < |options| && options[m] == name && (m == |options| - 1 || name != "")
      && forall l :: 0 <= l < m ==> options[l] == ""
  }

  /** An agent is called by its identity's name, by its own name, by its normalised id or by its id:
      the first there is. */
  ghost predicate IsNameOf(h: Host, agents: seq<AgentEntry>, agentId: string, name: string) {
    var normalized := h.normalizeAgentId(agentId);
    && (forall k: nat :: IsFirstMatch(h, agents, k, normalized) ==>
          IsFirstGiven([TrimmedName(agents[k].identityName), TrimmedName(agents[k].name), normalized, agentId], name))
    && ((forall k: nat :: !IsFirstMatch(h, agents, k, normalized)) ==> IsFirstGiven([normalized, agentId], name))
  }

  lemma {:induction false} FindFindsFirst(h: Host, agents: seq<AgentEntry>, normalized: string)
    ensures var found := FindAgent(h, agents, normalized);
      && (found.Some? <==> exists k: nat :: IsFirstMatch(h, agents, k, normalized))
      && forall k: nat :: IsFirstMatch(h, agents, k, normalized) ==> found == Some(agents[k])
  {
    if agents != [] {
      if h.normalizeAgentId(agents[0].id) == normalized {
        assert IsFirstMatch(h, agents, 0, normalized);
      } else {
        FindFindsFirst(h, agents[1..], normalized);
        forall k: nat | IsFirstMatch(h, agents, k, normalized)
          ensures k > 0 && IsFirstMatch(h, agents[1..], k - 1, normalized)
        {
          assert forall l :: 0 <= l < k - 1 ==> agents[1..][l] == agents[l + 1];
        }
        forall k: nat | IsFirstMatch(h, agents[1..], k, normalized) ensures IsFirstMatch(h, agents, k + 1, normalized) {
          assert forall l :: 1 <= l < k + 1 ==> agents[l] == agents[1..][l - 1];
        }
      }
    }
  }

  lemma FirstGiven(a: string, b: string, rest: seq<string>, name: string)
    requires rest != [] && IsFirstGiven(rest, name)
    ensures IsFirstGiven([b] + rest, Or(b, name)) && IsFirstGiven([a] + ([b] + rest), Or(a, Or(b, name)))
  {
    OneMoreGiven(b, rest, name);
    OneMoreGiven(a, [b] + rest, Or(b, name));
  }

  lemma OneMoreGiven(a: string, rest: seq<string>, name: string)
    requires rest != [] && IsFirstGiven(rest, name)
    ensures IsFirstGiven([a] + rest, Or(a, name))
  {
    var options := [a] + rest;
    if a != "" {
      assert options[0] == a;
    } else {
      var m :| 0 <= m < |rest| && rest[m] == name && (m == |rest| - 1 || name != "")
        && forall l :: 0 <= l < m ==> rest[l] == "";
      assert options[m + 1] == name;
      assert forall l :: 1 <= l < m + 1 ==> options[l] == rest[l - 1];
    }
  }

  lemma ResolvesName(h: Host, agents: seq<AgentEntry>, agentId: string)
    ensures IsNameOf(h, agents, agentId, ResolveAgentName(h, agents, agentId))
  {
    var normalized := h.normalizeAgentId(agentId);
    FindFindsFirst(h, agents, normalized);
    assert IsFirstGiven([agentId], agentId) by { assert [agentId][0] == agentId; }
    OneMoreGiven(normalized, [agentId], agentId);
    assert [normalized] + [agentId] == [normalized, agentId];
    var own := Or(normalized, agentId);
    forall k: nat | IsFirstMatch(h, agents, k, normalized)
      ensures IsFirstGiven([TrimmedName(agents[k].identityName), TrimmedName(agents[k].name), normalized, agentId],
                           ResolveAgentName(h, agents, agentId))
    {
      var a, b := TrimmedName(agents[k].identityName), TrimmedName(agents[k].name);
      FirstGiven(a, b, [normalized, agentId], own);
      assert [a] + ([b] + [normalized, agentId]) == [a, b, normalized, agentId];
    }
  }

  lemma CandidateAsks(h: Host, agents: seq<AgentEntry>, b: Binding, id: string)
    ensures IsFor(Candidate(h, agents, b), id) <==> Asks(h, b, id)
    ensures Candidate(h, agents, b).Some? ==>
      var e := Candidate(h, agents, b).value;
      e.agentId == h.normalizeAgentId(TextOf(b.agentId)) && IsNameOf(h, agents, TextOf(b.agentId), e.agentName)
  {
    FoldExactly(TextOf(b.channel), CHANNEL_ID);
    assert Fold(CHANNEL_ID) == CHANNEL_ID;
    ResolvesName(h, agents, TextOf(b.agentId));
  }

  /** Which accounts are bound, and under which name: those a binding asks for, each named after the
      agent of the first binding that does. */
  lemma AccountsAreBoundExactlyWhen(h: Host, cfg: Config)
    ensures forall id :: IsBound(h, cfg, id) <==> exists n :: 0 <= n < |cfg.bindings| && Asks(h, cfg.bindings[n], id)
    ensures forall e :: e in BoundAccounts(h, cfg) ==>
      exists n :: 0 <= n < |cfg.bindings| && IsFirstAsking(h, cfg, n, e)
  {
    var candidates := Candidates(h, cfg);
    forall n, id | 0 <= n < |cfg.bindings| ensures IsFor(candidates[n], id) <==> Asks(h, cfg.bindings[n], id) {
      CandidateAsks(h, cfg.agents, cfg.bindings[n], id);
    }
    forall id ensures IsBound(h, cfg, id) <==> exists n :: 0 <= n < |cfg.bindings| && Asks(h, cfg.bindings[n], id) {
      if n :| 0 <= n < |cfg.bindings| && Asks(h, cfg.bindings[n], id) {
        assert IsFor(candidates[n], id);
      }
    }
    BoundAccountsExactly(h, cfg);
    forall e | e in BoundAccounts(h, cfg) ensures exists n :: 0 <= n < |cfg.bindings| && IsFirstAsking(h, cfg, n, e) {
      var n :| 0 <= n < |candidates| && IsFirstAt(candidates, n, e);
      CandidateAsks(h, cfg.agents, cfg.bindings[n], e.accountId);
      assert IsFirstAsking(h, cfg, n, e);
    }
  }

  ghost predicate IsFirstAsking(h: Host, cfg: Config, n: nat, e: Bound)
    requires n < |cfg.bindings|
  {
    && Asks(h, cfg.bindings[n], e.accountId)
    && (forall m :: 0 <= m < n ==> !Asks(h, cfg.bindings[m], e.accountId))
    && e.agentId == h.normalizeAgentId(TextOf(cfg.bindings[n].agentId))
    && IsNameOf(h, cfg.agents, TextOf(cfg.bindings[n].agentId), e.agentName)
  }

  lemma SameLists(a: seq<Bound>, b: seq<Bound>, id: string)
    requires forall e :: e in a <==> e in b
    ensures Lists(a, id) <==> Lists(b, id)
  {
    if k :| 0 <= k < |a| && a[k].accountId == id {
      assert a[k] in b;
    }
    if k :| 0 <= k < |b| && b[k].accountId == id {
      assert b[k] in a;
    }
  }

  /** Only bindings and agents matter to the list. */
  lemma CandidatesDepend(h: Host, a: Config, b: Config)
    requires a.bindings == b.bindings && a.agents == b.agents
    ensures Candidates(h, a) == Candidates(h, b)
  {
  }

  // ----- What filling does ---------------------------------------------------------------

  predicate HasAccount(cfg: Config, id: string) {
    cfg.channel.Some? && cfg.channel.value.accounts.Some? && id in cfg.channel.value.accounts.value
  }

  function RestOf(cfg: Config, id: string): string {
    if HasAccount(cfg, id) then cfg.channel.value.accounts.value[id].rest else ""
  }

  lemma BrokerChangesNoName(h: Host, cfg: Config, entries: seq<Bound>)
    ensures forall id :: NameField(h, EnsureChannelBroker(cfg), id) == NameField(h, cfg, id)
    ensures Lacking(h, EnsureChannelBroker(cfg), entries) == Lacking(h, cfg, entries)
    ensures BoundAccounts(h, EnsureChannelBroker(cfg)) == BoundAccounts(h, cfg)
  {
    LackingDepends(h, cfg, EnsureChannelBroker(cfg), entries);
    CandidatesDepend(h, cfg, EnsureChannelBroker(cfg));
  }

  lemma {:induction false} LackingDepends(h: Host, a: Config, b: Config, entries: seq<Bound>)
    requires forall id :: NameField(h, a, id) == NameField(h, b, id)
    ensures Lacking(h, a, entries) == Lacking(h, b, entries)
  {
    if entries != [] {
      LackingDepends(h, a, b, entries[..|entries| - 1]);
    }
  }

  lemma FillOneNames(h: Host, cfg: Config, e: Bound, id: string)
    ensures var next := FillOne(h, cfg, e);
      && NameField(h, next, id) ==
         (if id == e.accountId && !IsNamed(h, cfg, id) then Some(Text(e.agentName)) else NameField(h, cfg, id))
      && (HasAccount(next, id) <==>
          HasAccount(cfg, id) || (id == e.accountId && !IsNamed(h, cfg, id) && id != h.defaultAccount))
  {
  }

  /** What each account's name is afterwards: an existing name is kept, a missing one becomes the
      bound agent's, and accounts that are not listed are left as they were. */
  lemma {:induction false} FilledNames(h: Host, cfg: Config, entries: seq<Bound>, id: string)
    requires DistinctAccounts(entries)
    ensures IsNamed(h, cfg, id) || !Lists(entries, id) ==>
              NameField(h, Filled(h, cfg, entries), id) == NameField(h, cfg, id)
    ensures forall k :: 0 <= k < |entries| && entries[k].accountId == id && !IsNamed(h, cfg, id) ==>
              NameField(h, Filled(h, cfg, entries), id) == Some(Text(entries[k].agentName))
    ensures HasAccount(Filled(h, cfg, entries), id) <==>
            HasAccount(cfg, id) || (Lists(entries, id) && !IsNamed(h, cfg, id) && id != h.defaultAccount)
  {
    if entries != [] {
      var last := |entries| - 1;
      FilledNames(h, cfg, entries[..last], id);
      FillOneNames(h, Filled(h, cfg, entries[..last]), entries[last], id);
      ListsMore(entries[..last], entries[last], id);
      assert entries == entries[..last] + [entries[last]];
      if entries[last].accountId == id {
        assert !Lists(entries[..last], id);
      }
    }
  }

  /** Nothing else changes, and every account keeps its other fields. */
  lemma {:induction false} FilledFrame(h: Host, cfg: Config, entries: seq<Bound>)
    ensures var next := Filled(h, cfg, entries);
      && next.bindings == cfg.bindings && next.agents == cfg.agents && next.rest == cfg.rest
      && ChannelOf(next).broker == ChannelOf(cfg).broker && ChannelOf(next).rest == ChannelOf(cfg).rest
      && (cfg.channel.Some? ==> next.channel.Some?)
      && (forall id :: RestOf(next, id) == RestOf(cfg, id))
  {
    if entries != [] {
      FilledFrame(h, cfg, entries[..|entries| - 1]);
    }
  }

  /** Filling changes nothing when each listed account has a name, be it the one it would get. */
  lemma {:induction false} FillingIsDone(h: Host, cfg: Config, entries: seq<Bound>)
    requires forall e :: e in entries ==>
      IsNamed(h, cfg, e.accountId) || NameField(h, cfg, e.accountId) == Some(Text(e.agentName))
    ensures Filled(h, cfg, entries) == cfg
  {
    if entries != [] {
      var e := entries[|entries| - 1];
      FillingIsDone(h, cfg, entries[..|entries| - 1]);
      assert e in entries;
      if !IsNamed(h, cfg, e.accountId) {
        PatchingTheSame(h, cfg, e.accountId, e.agentName);
      }
    }
  }

  lemma PatchingTheSame(h: Host, cfg: Config, id: string, name: string)
    requires NameField(h, cfg, id) == Some(Text(name))
    ensures PatchName(h, cfg, id, name) == cfg
  {
    if id != h.defaultAccount {
      var accounts := cfg.channel.value.accounts.value;
      assert accounts[id := accounts[id].(name := Some(Text(name)))] == accounts;
    }
  }

  lemma {:induction false} LackingExactly(h: Host, cfg: Config, entries: seq<Bound>)
    ensures forall id :: id in Lacking(h, cfg, entries) <==> Lists(entries, id) && !IsNamed(h, cfg, id)
    ensures DistinctAccounts(entries) ==> NoDup(Lacking(h, cfg, entries))
  {
    if entries != [] {
      var last := |entries| - 1;
      var before := Lacking(h, cfg, entries[..last]);
      LackingExactly(h, cfg, entries[..last]);
      forall id ensures Lists(entries, id) <==> Lists(entries[..last], id) || id == entries[last].accountId {
        assert forall k :: 0 <= k < last ==> entries[k] == entries[..last][k];
      }
      if DistinctAccounts(entries) {
        assert !Lists(entries[..last], entries[last].accountId);
        assert forall k :: 0 <= k < |before| ==> before[k] in before;
      }
    }
  }

  /** One round of the loop: the name is missing now exactly if it was missing at the start. */
  lemma OneMore(h: Host, start: Config, entries: seq<Bound>, n: nat)
    requires DistinctAccounts(entries) && n < |entries|
    ensures var now := Filled(h, start, entries[..n]);
      var id := entries[n].accountId;
      && Filled(h, start, entries[..n + 1]) == FillOne(h, now, entries[n])
      && Lacking(h, start, entries[..n + 1])
         == Lacking(h, start, entries[..n]) + if IsNamed(h, now, id) then [] else [id]
  {
    assert entries[..n + 1][..n] == entries[..n];
    assert !Lists(entries[..n], entries[n].accountId);
    FilledNames(h, start, entries[..n], entries[n].accountId);
  }

  // ----- What one pass achieves ----------------------------------------------------------

  lemma PassFrame(h: Host, cfg: Config)
    ensures var next := AutoConfigured(h, cfg);
      && next.bindings == cfg.bindings && next.agents == cfg.agents && next.rest == cfg.rest
      && next.channel.Some? && next.channel.value.rest == ChannelOf(cfg).rest
      && next.channel.value.broker == ChannelOf(EnsureChannelBroker(cfg)).broker
      && (forall id :: RestOf(next, id) == RestOf(cfg, id))
      && BoundAccounts(h, next) == BoundAccounts(h, cfg)
  {
    FilledFrame(h, EnsureChannelBroker(cfg), BoundAccounts(h, cfg));
    CandidatesDepend(h, cfg, AutoConfigured(h, cfg));
  }

  /** The name of every account after a pass, and which accounts there are. */
  lemma NamesAfterPass(h: Host, cfg: Config, id: string)
    ensures var next := AutoConfigured(h, cfg);
      && (IsNamed(h, cfg, id) || !IsBound(h, cfg, id) ==> NameField(h, next, id) == NameField(h, cfg, id))
      && (forall e :: e in BoundAccounts(h, cfg) && e.accountId == id && !IsNamed(h, cfg, id) ==>
            NameField(h, next, id) == Some(Text(e.agentName)))
      && (HasAccount(next, id) <==>
          HasAccount(cfg, id) || (IsBound(h, cfg, id) && !IsNamed(h, cfg, id) && id != h.defaultAccount))
  {
    var entries := BoundAccounts(h, cfg);
    BoundAccountsExactly(h, cfg);
    BrokerChangesNoName(h, cfg, entries);
    FilledNames(h, EnsureChannelBroker(cfg), entries, id);
    assert IsNamed(h, EnsureChannelBroker(cfg), id) == IsNamed(h, cfg, id);
  }

  /** A broker address that is not blank is kept; otherwise it is set to the empty default. */
  lemma BrokerAfterPass(h: Host, cfg: Config)
    ensures var next := AutoConfigured(h, cfg);
      next.channel.Some? && next.channel.value.broker ==
        if cfg.channel.Some? && cfg.channel.value.broker.Some? && !IsBlank(cfg.channel.value.broker.value)
        then cfg.channel.value.broker else Some("")
  {
    PassFrame(h, cfg);
  }

  /** The accounts reported as created are exactly the bound ones without a name, once each. */
  lemma CreatedExactlyWhen(h: Host, cfg: Config)
    ensures NoDup(CreatedAccounts(h, cfg))
    ensures forall id :: id in CreatedAccounts(h, cfg) <==> IsBound(h, cfg, id) && !IsNamed(h, cfg, id)
  {
    BoundAccountsExactly(h, cfg);
    LackingExactly(h, cfg, BoundAccounts(h, cfg));
  }

  /** A second pass yields an equal configuration, for every host and every configuration. */
  lemma SecondPassChangesNothing(h: Host, cfg: Config)
    ensures AutoConfigured(h, AutoConfigured(h, cfg)) == AutoConfigured(h, cfg)
  {
    var next := AutoConfigured(h, cfg);
    PassFrame(h, cfg);
    assert EnsureChannelBroker(next) == next;
    forall e | e in BoundAccounts(h, cfg)
      ensures IsNamed(h, next, e.accountId) || NameField(h, next, e.accountId) == Some(Text(e.agentName))
    {
      NamesAfterPass(h, cfg, e.accountId);
    }
    FillingIsDone(h, next, BoundAccounts(h, cfg));
  }

  /** It reports created accounts again exactly when a name it gave was blank. */
  lemma SecondPassCreatesNothingExactlyWhen(h: Host, cfg: Config)
    ensures CreatedAccounts(h, AutoConfigured(h, cfg)) == [] <==>
            forall e :: e in BoundAccounts(h, cfg) && !IsNamed(h, cfg, e.accountId) ==> !IsBlank(e.agentName)
  {
    var next := AutoConfigured(h, cfg);
    PassFrame(h, cfg);
    LackingExactly(h, next, BoundAccounts(h, cfg));
    forall e | e in BoundAccounts(h, cfg)
      ensures Lists(BoundAccounts(h, cfg), e.accountId)
      ensures !IsNamed(h, next, e.accountId) <==> !IsNamed(h, cfg, e.accountId) && IsBlank(e.agentName)
    {
      NamesAfterPass(h, cfg, e.accountId);
    }
    var again := CreatedAccounts(h, next);
    if e :| e in BoundAccounts(h, cfg) && !IsNamed(h, cfg, e.accountId) && IsBlank(e.agentName) {
      assert e.accountId in again;
    }
    if again != [] {
      assert again[0] in again;
      var k :| 0 <= k < |BoundAccounts(h, cfg)| && BoundAccounts(h, cfg)[k].accountId == again[0];
      assert BoundAccounts(h, cfg)[k] in BoundAccounts(h, cfg);
    }
  }

  lemma CreatesAgainExactlyWhen(h: Host, cfg: Config)
    ensures CreatedAccounts(h, AutoConfigured(h, cfg)) != [] <==>
            exists e :: e in BoundAccounts(h, cfg) && !IsNamed(h, cfg, e.accountId) && IsBlank(e.agentName)
  {
    SecondPassCreatesNothingExactlyWhen(h, cfg);
  }

  /** When a second pass still says that it changed something, although it never does: the broker
      was blank, and the default that the first pass wrote is blank too, or a name it gave is. */
  lemma SecondPassStillReportsAChangeExactlyWhen(h: Host, cfg: Config)
    ensures Changes(h, AutoConfigured(h, cfg)) <==>
      !HasBroker(cfg)
      || exists e :: e in BoundAccounts(h, cfg) && !IsNamed(h, cfg, e.accountId) && IsBlank(e.agentName)
  {
    PassFrame(h, cfg);
    CreatesAgainExactlyWhen(h, cfg);
  }

  /** Without any bindings, on a configuration that lacks the channel: every pass reports a change,
      and from the second on there is none. */
  lemma BlankBrokerNeverSettles(h: Host, rest: string)
    ensures var cfg := Config([], [], None, rest);
      var once := AutoConfigured(h, cfg);
      && Changes(h, cfg) && once.channel == Some(NO_CHANNEL.(broker := Some("")))
      && Changes(h, once) && AutoConfigured(h, once) == once
  {
    var cfg := Config([], [], None, rest);
    SecondPassStillReportsAChangeExactlyWhen(h, cfg);
    SecondPassChangesNothing(h, cfg);
    assert Candidates(h, cfg) == [] && BoundAccounts(h, cfg) == [];
  }

  /** A name found for an agent is blank only if the agent has none and the host normalises its
      id to white space. */
  lemma AgentNameIsBlankExactlyWhen(h: Host, agents: seq<AgentEntry>, agentId: string)
    requires agentId != "" && IsTrimmed(agentId)
    ensures IsBlank(ResolveAgentName(h, agents, agentId)) <==>
      var normalized := h.normalizeAgentId(agentId);
      var found := FindAgent(h, agents, normalized);
      && (found.Some? ==> TrimmedName(found.value.identityName) == "" && TrimmedName(found.value.name) == "")
      && normalized != "" && IsBlank(normalized)
  {
    var found := FindAgent(h, agents, h.normalizeAgentId(agentId));
    if found.Some? && found.value.identityName.Some? {
      TrimTrims(found.value.identityName.value);
    }
    if found.Some? && found.value.name.Some? {
      TrimTrims(found.value.name.value);
    }
  }

  /** Every bound account has a name after a pass exactly when no account that lacked one is bound
      to an agent whose resolved name is blank. */
  lemma EveryBoundAccountIsNamedExactlyWhen(h: Host, cfg: Config)
    ensures (forall id :: IsBound(h, cfg, id) ==> IsNamed(h, AutoConfigured(h, cfg), id)) <==>
            forall e :: e in BoundAccounts(h, cfg) && !IsNamed(h, cfg, e.accountId) ==> !IsBlank(e.agentName)
  {
    var next := AutoConfigured(h, cfg);
    PassFrame(h, cfg);
    CandidatesDepend(h, cfg, next);
    SecondPassCreatesNothingExactlyWhen(h, cfg);
    CreatedExactlyWhen(h, next);
    if CreatedAccounts(h, next) != [] {
      assert CreatedAccounts(h, next)[0] in CreatedAccounts(h, next);
    }
  }

  /** With a host whose normalised ids carry no outer white space, every bound account has a
      name after one pass, and a second creates nothing. */
  lemma EveryBoundAccountIsNamed(h: Host, cfg: Config)
    requires forall s :: IsTrimmed(h.normalizeAgentId(s))
    ensures forall id :: IsBound(h, cfg, id) ==> IsNamed(h, AutoConfigured(h, cfg), id)
    ensures CreatedAccounts(h, AutoConfigured(h, cfg)) == []
  {
    BoundAccountsExactly(h, cfg);
    PassFrame(h, cfg);
    forall e | e in BoundAccounts(h, cfg) ensures !IsBlank(e.agentName) {
      var n :| 0 <= n < |cfg.bindings| && IsFirstAt(Candidates(h, cfg), n, e);
      var agentId := TextOf(cfg.bindings[n].agentId);
      TrimTrims(cfg.bindings[n].agentId.text);
      AgentNameIsBlankExactlyWhen(h, cfg.agents, agentId);
    }
    SecondPassCreatesNothingExactlyWhen(h, cfg);
    CreatedExactlyWhen(h, AutoConfigured(h, cfg));
    CandidatesDepend(h, cfg, AutoConfigured(h, cfg));
  }

  // ----- The order of the list -----------------------------------------------------------

  /** The default account, if bound, comes first, whatever the host's order of strings. */
  lemma {:induction false} DefaultComesFirst(h: Host, entries: seq<Bound>, k: nat)
    requires DistinctAccounts(entries) && k < |entries| && entries[k].accountId == h.defaultAccount
    ensures Sorted(h, entries) != [] && Sorted(h, entries)[0] == entries[k]
  {
    var last := |entries| - 1;
    SortedMembers(h, entries[..last]);
    if k < last {
      DefaultComesFirst(h, entries[..last], k);
    } else if last > 0 {
      assert Sorted(h, entries[..last])[0] in Sorted(h, entries[..last]);
    }
  }

  ghost predicate InOrder(h: Host, entries: seq<Bound>) {
    forall i, j :: 0 <= i < j < |entries| ==> Before(h, entries[i], entries[j])
  }

  /** A string order any two strings of which compare. */
  ghost predicate IsOrder(h: Host) {
    && (forall a, b :: h.atMost(a, b) || h.atMost(b, a))
    && (forall a, b, c :: h.atMost(a, b) && h.atMost(b, c) ==> h.atMost(a, c))
  }

  lemma {:induction false} InsertKeepsOrder(h: Host, sorted: seq<Bound>, e: Bound)
    requires IsOrder(h) && InOrder(h, sorted)
    ensures InOrder(h, Insert(h, sorted, e))
  {
    InsertAdds(h, sorted, e);
    if sorted != [] && Before(h, sorted[0], e) {
      InsertKeepsOrder(h, sorted[1..], e);
      InsertAdds(h, sorted[1..], e);
      var rest := Insert(h, sorted[1..], e);
      forall j | 0 <= j < |rest| ensures Before(h, sorted[0], rest[j]) {
        assert rest[j] in rest;
        if rest[j] != e {
          assert rest[j] in sorted[1..];
        }
      }
    }
  }

  lemma {:induction false} SortedIsInOrder(h: Host, entries: seq<Bound>)
    requires IsOrder(h)
    ensures InOrder(h, Sorted(h, entries))
  {
    if entries != [] {
      SortedIsInOrder(h, entries[..|entries| - 1]);
      InsertKeepsOrder(h, Sorted(h, entries[..|entries| - 1]), entries[|entries| - 1]);
    }
  }
}
