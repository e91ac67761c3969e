/** Target resolution and delivery rules (src/claw_msg/server/message_validation.py). Tables are
    sequences of rows in scan order, so that LIMIT means what it means in SQL. */
module Directory {
  import opened Common

  datatype Policy = Open | ContactsOnly
  datatype AgentRow = AgentRow(id: AgentId, name: string, policy: Policy)

  datatype Tables = Tables(
    agents: seq<AgentRow>,
    contacts: set<(AgentId, AgentId)>,
    rooms: set<RoomId>,
    members: seq<(RoomId, AgentId)>)

  /** Python's truth test on an optional string. */
  predicate Given(s: Option<string>) {
    s.Some? && s.value != ""
  }

  function ById(agents: seq<AgentRow>, id: AgentId): Option<AgentRow> {
    if agents == [] then None else if agents[0].id == id then Some(agents[0]) else ById(agents[1..], id)
  }

  function ByName(agents: seq<AgentRow>, name: string): seq<AgentId> {
    if agents == [] then []
    else if Fold(agents[0].name) == Fold(name) then [agents[0].id] + ByName(agents[1..], name)
    else ByName(agents[1..], name)
  }

  function Limit<T>(s: seq<T>, n: nat): seq<T> {
    if |s| <= n then s else s[..n]
  }

  function ResolveAgentTarget(t: Tables, identifier: string): Option<AgentId> {
    var row := ById(t.agents, identifier);
    if row.Some? then Some(row.value.id)
    else
      var rows := Limit(ByName(t.agents, identifier), 2);
      if |rows| == 1 then Some(rows[0]) else None
  }

  predicate IsAmbiguousAgentName(t: Tables, identifier: string) {
    |ByName(t.agents, identifier)| > 1
  }

  /** The status code of the error, if the target is invalid for this sender. */
  function MessageTargetError(t: Tables, sender: AgentId, to: Option<AgentId>, room: Option<RoomId>): Option<int> {
    var direct :=
      if !Given(to) then None
      else
        var recipient := ById(t.agents, to.value);
        if recipient.None? then Some(404)
        else if to.value != sender && recipient.value.policy == ContactsOnly && (to.value, sender) !in t.contacts
        then Some(403)
        else None;
    if direct.Some? then direct
    else if !Given(room) then None
    else if room.value !in t.rooms then Some(404)
    else if (room.value, sender) !in t.members then Some(403)
    else None
  }

  function MembersOf(members: seq<(RoomId, AgentId)>, room: RoomId): seq<AgentId> {
    if members == [] then []
    else if members[0].0 == room then [members[0].1] + MembersOf(members[1..], room)
    else MembersOf(members[1..], room)
  }

  // ----- What these mean -----------------------------------------------------------------

  ghost predicate HasId(t: Tables, id: AgentId) {
    exists i :: 0 <= i < |t.agents| && t.agents[i].id == id
  }

  /** The `i`-th agent's name equals `name` up to ASCII case. */
  ghost predicate NameMatches(agents: seq<AgentRow>, name: string, i: nat) {
    i < |agents| && Fold(agents[i].name) == Fold(name)
  }

  ghost predicate HasIdAndName(t: Tables, id: AgentId, name: string) {
    exists i :: 0 <= i < |t.agents| && NameMatches(t.agents, name, i) && t.agents[i].id == id
  }

  ghost predicate NobodyNamed(agents: seq<AgentRow>, name: string) {
    forall i :: 0 <= i < |agents| ==> !NameMatches(agents, name, i)
  }

  ghost predicate SeveralNamed(agents: seq<AgentRow>, name: string) {
    exists i, j :: 0 <= i < j < |agents| && NameMatches(agents, name, i) && NameMatches(agents, name, j)
  }

  lemma {:induction false} ByIdFinds(agents: seq<AgentRow>, id: AgentId)
    ensures ById(agents, id).Some? <==> exists i :: 0 <= i < |agents| && agents[i].id == id
    ensures ById(agents, id).Some? ==> ById(agents, id).value.id == id && ById(agents, id).value in agents
  {
    if agents != [] && agents[0].id != id {
      ByIdFinds(agents[1..], id);
      if i :| 0 <= i < |agents| && agents[i].id == id {
        assert agents[1..][i - 1].id == id;
      }
    }
  }

  lemma {:induction false} ByNameMembers(agents: seq<AgentRow>, name: string, id: AgentId)
    ensures id in ByName(agents, name) <==>
      exists i :: 0 <= i < |agents| && NameMatches(agents, name, i) && agents[i].id == id
  {
    if agents != [] {
      var rest := agents[1..];
      ByNameMembers(rest, name, id);
      if i :| 0 <= i < |rest| && NameMatches(rest, name, i) && rest[i].id == id {
        assert NameMatches(agents, name, i + 1);
      }
      if NameMatches(agents, name, 0) {
        assert ByName(agents, name) == [agents[0].id] + ByName(rest, name);
      }
      forall i | 0 < i < |agents| && NameMatches(agents, name, i) && agents[i].id == id
        ensures id in ByName(rest, name)
      {
        assert NameMatches(rest, name, i - 1);
      }
    }
  }

  lemma {:induction false} ByNameCounts(agents: seq<AgentRow>, name: string)
    ensures |ByName(agents, name)| == 0 <==> NobodyNamed(agents, name)
    ensures |ByName(agents, name)| >= 2 <==> SeveralNamed(agents, name)
  {
    if agents != [] {
      var rest := agents[1..];
      ByNameCounts(rest, name);
      forall i | 0 < i < |agents| && NameMatches(agents, name, i) ensures NameMatches(rest, name, i - 1) {
      }
      forall i | 0 <= i < |rest| && NameMatches(rest, name, i) ensures NameMatches(agents, name, i + 1) {
      }
      if NobodyNamed(agents, name) {
        assert !NameMatches(agents, name, 0);
        assert NobodyNamed(rest, name);
      } else if !NameMatches(agents, name, 0) {
        var i :| 0 <= i < |agents| && NameMatches(agents, name, i);
        assert NameMatches(rest, name, i - 1);
      }
      if SeveralNamed(agents, name) {
        var i, j :| 0 <= i < j < |agents| && NameMatches(agents, name, i) && NameMatches(agents, name, j);
        assert NameMatches(rest, name, j - 1);
        assert i > 0 ==> NameMatches(rest, name, i - 1);
      }
    }
  }

  /** The LIMIT 2 lookup and the count that follows it agree: without an agent of that id the
      request is resolved when exactly one name matches, not found when none does, and
      ambiguous when several do. An id always wins over names. */
  lemma ResolutionIsExact(t: Tables, identifier: string)
    ensures var found := ResolveAgentTarget(t, identifier);
      && (HasId(t, identifier) ==> found == Some(identifier))
      && (!HasId(t, identifier) ==>
            && (found.None? && !IsAmbiguousAgentName(t, identifier) <==> NobodyNamed(t.agents, identifier))
            && (found.None? && IsAmbiguousAgentName(t, identifier) <==> SeveralNamed(t.agents, identifier))
            && (found.Some? ==> HasIdAndName(t, found.value, identifier)))
      && (found.Some? ==> HasId(t, found.value))
  {
    ByIdFinds(t.agents, identifier);
    ByNameCounts(t.agents, identifier);
    var names := ByName(t.agents, identifier);
    if names != [] {
      ByNameMembers(t.agents, identifier, names[0]);
      assert names[0] in names;
    }
  }

  /** When a name resolves, no other agent bears it. */
  lemma OnlyOneNamed(t: Tables, name: string)
    requires !HasId(t, name)
    ensures forall id :: HasIdAndName(t, id, name) && !SeveralNamed(t.agents, name) ==>
      ResolveAgentTarget(t, name) == Some(id)
  {
    ResolutionIsExact(t, name);
    forall id | HasIdAndName(t, id, name) && !SeveralNamed(t.agents, name)
      ensures ResolveAgentTarget(t, name) == Some(id)
    {
      var i :| 0 <= i < |t.agents| && NameMatches(t.agents, name, i) && t.agents[i].id == id;
      var found := ResolveAgentTarget(t, name).value;
      var j :| 0 <= j < |t.agents| && NameMatches(t.agents, name, j) && t.agents[j].id == found;
      assert i == j;
    }
  }

  /** The agents a message is meant for: its direct recipient, and the members of its room
      other than the sender. */
  ghost function Recipients(t: Tables, sender: AgentId, to: Option<AgentId>, room: Option<RoomId>): set<AgentId> {
    (if Given(to) then {to.value} else {}) +
    (if Given(room) then set m | m in t.members && m.0 == room.value && m.1 != sender :: m.1 else {})
  }

  ghost predicate IsOpen(t: Tables, id: AgentId) {
    ById(t.agents, id).Some? && ById(t.agents, id).value.policy == Open
  }

  /** What a sender may address: a known recipient that is open, or itself, or has the sender as
      a contact; and a known room the sender is a member of. */
  ghost predicate MayAddress(t: Tables, sender: AgentId, to: Option<AgentId>, room: Option<RoomId>) {
    && (Given(to) ==>
          && HasId(t, to.value)
          && MayReach(t, sender, to.value))
    && (Given(room) ==> room.value in t.rooms && (room.value, sender) in t.members)
  }

  /** The sender may write to this recipient directly. */
  ghost predicate MayReach(t: Tables, sender: AgentId, to: AgentId) {
    to == sender || (to, sender) in t.contacts || IsOpen(t, to)
  }

  /** The recipient does not exist, or it may be written to and the room does not exist. */
  ghost predicate IsMissing(t: Tables, sender: AgentId, to: Option<AgentId>, room: Option<RoomId>) {
    || (Given(to) && !HasId(t, to.value))
    || ((Given(to) ==> MayReach(t, sender, to.value)) && Given(room) && room.value !in t.rooms)
  }

  /** The recipient may not be written to, or it may and the sender is no member of the room. */
  ghost predicate IsForbidden(t: Tables, sender: AgentId, to: Option<AgentId>, room: Option<RoomId>) {
    || (Given(to) && HasId(t, to.value) && !MayReach(t, sender, to.value))
    || ((Given(to) ==> HasId(t, to.value) && MayReach(t, sender, to.value))
        && Given(room) && room.value in t.rooms && (room.value, sender) !in t.members)
  }

  lemma NoErrorExactlyWhenAllowed(t: Tables, sender: AgentId, to: Option<AgentId>, room: Option<RoomId>)
    ensures MessageTargetError(t, sender, to, room) == None <==> MayAddress(t, sender, to, room)
    ensures MessageTargetError(t, sender, to, room) == Some(404) <==> IsMissing(t, sender, to, room)
    ensures MessageTargetError(t, sender, to, room) == Some(403) <==> IsForbidden(t, sender, to, room)
    ensures MessageTargetError(t, sender, to, room) in {None, Some(403), Some(404)}
  {
    if Given(to) {
      ByIdFinds(t.agents, to.value);
    }
  }

  lemma {:induction false} MembersOfRoom(members: seq<(RoomId, AgentId)>, room: RoomId)
    ensures forall a :: a in MembersOf(members, room) <==> (room, a) in members
  {
    if members != [] {
      MembersOfRoom(members[1..], room);
      assert members == [members[0]] + members[1..];
    }
  }

  /** A member is listed as often as the table has it in the room. */
  lemma {:induction false} MembersAreCounted(members: seq<(RoomId, AgentId)>, room: RoomId, a: AgentId)
    ensures multiset(MembersOf(members, room))[a] == multiset(members)[(room, a)]
  {
    if members != [] {
      MembersAreCounted(members[1..], room, a);
      assert members == [members[0]] + members[1..];
    }
  }
}
