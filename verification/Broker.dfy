/** The registry of live sockets (src/claw_msg/server/broker.py): what one delivery attempt does
    to it as a value, and the object whose lists are shortened while they are being used. */
module Broker {
  import opened Common

  type Registry = map<AgentId, seq<Socket>>

  function Connections(reg: Registry, agent: AgentId): seq<Socket> {
    if agent in reg then reg[agent] else []
  }

  /** An agent that is left without sockets loses its entry. */
  function WithConnections(reg: Registry, agent: AgentId, conns: seq<Socket>): Registry {
    if conns == [] then reg - {agent} else reg[agent := conns]
  }

  function RemoveFirst(s: seq<Socket>, ws: Socket): seq<Socket> {
    if s == [] then [] else if s[0] == ws then s[1..] else [s[0]] + RemoveFirst(s[1..], ws)
  }

  function Registered(reg: Registry, agent: AgentId, ws: Socket): Registry {
    reg[agent := Connections(reg, agent) + [ws]]
  }

  function Unregistered(reg: Registry, agent: AgentId, ws: Socket): Registry {
    WithConnections(reg, agent, RemoveFirst(Connections(reg, agent), ws))
  }

  /** The sockets of `agent` that take a frame when those in `refusing` fail. */
  function Accepting(reg: Registry, agent: AgentId, refusing: set<Socket>): seq<Socket> {
    Without(Connections(reg, agent), refusing)
  }

  /** The verdict of `send_to_agent`. It compares what is left of the list, after the dead
      sockets were taken out of it, with the number of dead ones. */
  predicate Delivers(reg: Registry, agent: AgentId, refusing: set<Socket>) {
    var accepted := |Accepting(reg, agent, refusing)|;
    accepted > |Connections(reg, agent)| - accepted
  }

  function Attempted(reg: Registry, agent: AgentId, refusing: set<Socket>): Registry {
    WithConnections(reg, agent, Accepting(reg, agent, refusing))
  }

  /** No socket is listed twice under one agent and no agent keeps an empty list. */
  ghost predicate WellFormed(reg: Registry) {
    forall a :: a in reg ==> reg[a] != [] && NoDup(reg[a])
  }

  lemma {:induction false} RemoveFirstOfDistinct(s: seq<Socket>, ws: Socket)
    requires NoDup(s)
    ensures RemoveFirst(s, ws) == Without(s, {ws}) && NoDup(RemoveFirst(s, ws))
  {
    WithoutMembers(s, {ws});
    if s != [] {
      if s[0] == ws {
        WithoutNothing(s[1..], {ws});
      } else {
        RemoveFirstOfDistinct(s[1..], ws);
      }
    }
  }

  lemma {:induction false} WithoutTwice<T>(s: seq<T>, a: set<T>, b: set<T>)
    ensures Without(Without(s, a), b) == Without(s, a + b)
  {
    if s != [] {
      WithoutTwice(s[1..], a, b);
      var head := if s[0] in a then [] else [s[0]];
      WithoutConcat(head, Without(s[1..], a), b);
    }
  }

  /** Taking the sockets of `dead` out one by one. */
  lemma OneFewer(all: seq<Socket>, dead: seq<Socket>, i: nat)
    requires NoDup(all) && i < |dead|
    ensures RemoveFirst(Without(all, Elements(dead[..i])), dead[i]) == Without(all, Elements(dead[..i + 1]))
  {
    var gone := Elements(dead[..i]);
    WithoutMembers(all, gone);
    RemoveFirstOfDistinct(Without(all, gone), dead[i]);
    WithoutTwice(all, gone, {dead[i]});
    assert Elements(dead[..i + 1]) == gone + {dead[i]};
  }

  lemma UnregisterAgain(reg: Registry, agent: AgentId, left: seq<Socket>, ws: Socket)
    requires agent in reg
    ensures Unregistered(WithConnections(reg, agent, left), agent, ws)
         == WithConnections(reg, agent, RemoveFirst(left, ws))
  {
    assert Connections(WithConnections(reg, agent, left), agent) == left;
  }

  // ----- The object ----------------------------------------------------------------------

  /** A list that the registry and a delivery in progress may both hold. */
  class SocketList {
    var items: seq<Socket>

    constructor ()
      ensures items == []
    {
      items := [];
    }
  }

  class WebSocketBroker {
    var connections: map<AgentId, SocketList>
    ghost var Repr: set<object>

    ghost predicate Owned()
      reads this
    {
      this in Repr && forall a :: a in connections ==> connections[a] in Repr
    }

    ghost predicate Valid()
      reads this, Repr
    {
      && Owned()
      && (forall a, b :: a in connections && b in connections && a != b ==> connections[a] != connections[b])
      && (forall a :: a in connections ==> connections[a].items != [])
    }

    ghost function View(): Registry
      requires Owned()
      reads this, Repr
    {
      map a | a in connections :: connections[a].items
    }

    constructor ()
      ensures Valid() && fresh(Repr) && View() == map[]
    {
      connections := map[];
      Repr := {this};
    }

    /** The `defaultdict` lookup: a missing agent is given an empty list first. */
    method ListFor(agent: AgentId) returns (list: SocketList)
      requires Valid()
      modifies this
      ensures Owned() && fresh(Repr - old(Repr)) && list in Repr
      ensures connections == old(connections)[agent := list]
      ensures forall a :: a in connections && a != agent ==> connections[a] != list && connections[a].items != []
      ensures list.items == Connections(old(View()), agent)
    {
      if agent !in connections {
        list := new SocketList();
        connections := connections[agent := list];
        Repr := Repr + {list};
      }
      list := connections[agent];
    }

    method Append(agent: AgentId, list: SocketList, ws: Socket, ghost reg: Registry)
      requires Owned() && list in Repr && connections.Keys == reg.Keys + {agent} && connections[agent] == list
      requires forall a :: a in connections && a != agent ==>
        connections[a] != list && connections[a].items == reg[a] != []
      requires forall a, b :: a in connections && b in connections && a != b ==> connections[a] != connections[b]
      modifies list
      ensures Valid() && View() == reg[agent := old(list.items) + [ws]]
    {
      list.items := list.items + [ws];
    }

    method Register(agent: AgentId, ws: Socket)
      requires Valid()
      modifies Repr
      ensures Valid() && fresh(Repr - old(Repr))
      ensures View() == Registered(old(View()), agent, ws)
    {
      ghost var before := View();
      var list := ListFor(agent);
      Append(agent, list, ws, before);
    }

    method Unregister(agent: AgentId, ws: Socket)
      requires Valid()
      modifies Repr
      ensures Valid() && Repr == old(Repr)
      ensures View() == Unregistered(old(View()), agent, ws)
      ensures agent in old(connections) ==>
        old(connections[agent]).items == RemoveFirst(old(connections[agent].items), ws)
      ensures agent !in old(connections) ==> unchanged(Repr)
      ensures connections == if agent in old(connections) && old(connections[agent]).items == []
                             then old(connections) - {agent} else old(connections)
    {
      ghost var before := View();
      if agent in connections {
        var list := connections[agent];
        assert before[agent] == list.items;
        list.items := RemoveFirst(list.items, ws);
        if list.items == [] {
          connections := connections - {agent};
        }
      }
      assert View() == Unregistered(before, agent, ws);
    }

    method IsOnline(agent: AgentId) returns (online: bool)
      requires Valid()
      ensures online <==> agent in View()
    {
      online := agent in connections && |connections[agent].items| > 0;
    }

    /** The loop over the dead sockets. The caller's `list` is shortened in place. */
    method DropDead(agent: AgentId, list: SocketList, dead: seq<Socket>)
      requires Valid() && agent in connections && connections[agent] == list && NoDup(list.items)
      modifies Repr
      ensures Valid() && Repr == old(Repr)
      ensures list.items == Without(old(list.items), Elements(dead))
      ensures View() == WithConnections(old(View()), agent, list.items)
    {
      ghost var before, all := View(), list.items;
      WithoutNothing(all, Elements(dead[..0]));
      for i := 0 to |dead|
        invariant Valid() && Repr == old(Repr)
        invariant list.items == Without(all, Elements(dead[..i]))
        invariant agent in connections ==> connections[agent] == list
        invariant agent !in connections ==> list.items == []
        invariant View() == WithConnections(before, agent, list.items)
      {
        OneFewer(all, dead, i);
        UnregisterAgain(before, agent, list.items, dead[i]);
        Unregister(agent, dead[i]);
      }
      assert dead[..|dead|] == dead;
    }

    /** `refusing` are the sockets whose write fails; `written` those that took the frame. */
    method SendToAgent(agent: AgentId, refusing: set<Socket>) returns (delivered: bool, written: seq<Socket>)
      requires Valid() && NoDup(Connections(View(), agent))
      modifies Repr
      ensures Valid() && Repr == old(Repr)
      ensures delivered == Delivers(old(View()), agent, refusing)
      ensures written == Accepting(old(View()), agent, refusing)
      ensures View() == Attempted(old(View()), agent, refusing)
    {
      if agent !in connections || |connections[agent].items| == 0 {
        return false, [];
      }
      var list := connections[agent];
      ghost var before := View();
      assert Connections(before, agent) == list.items;
      var dead;
      dead, written := Offer(list.items, refusing);
      DropDead(agent, list, dead);
      assert list.items == written;
      delivered := |list.items| > |dead|;
    }
  }

  /** The write loop: which of the listed sockets failed and which took the frame. */
  method Offer(conns: seq<Socket>, refusing: set<Socket>) returns (dead: seq<Socket>, written: seq<Socket>)
    ensures written == Without(conns, refusing) && |dead| + |written| == |conns|
    ensures Without(conns, Elements(dead)) == written
  {
    dead, written := [], [];
    for i := 0 to |conns|
      invariant Elements(dead) == Elements(conns[..i]) * refusing
      invariant written == Without(conns[..i], refusing) && |dead| + |written| == i
    {
      WithoutConcat(conns[..i], [conns[i]], refusing);
      assert conns[..i + 1] == conns[..i] + [conns[i]];
      assert Elements(conns[..i + 1]) == Elements(conns[..i]) + {conns[i]};
      ghost var was := dead;
      if conns[i] in refusing {
        dead := dead + [conns[i]];
        assert Elements(dead) == Elements(was) + {conns[i]};
      } else {
        written := written + [conns[i]];
      }
    }
    assert conns[..|conns|] == conns;
    SameSurvivors(conns, Elements(dead), refusing);
  }

  function Elements(s: seq<Socket>): set<Socket> {
    set ws | ws in s
  }

  lemma {:induction false} SameSurvivors(all: seq<Socket>, dead: set<Socket>, refusing: set<Socket>)
    requires forall ws :: ws in all ==> (ws in dead <==> ws in refusing)
    ensures Without(all, dead) == Without(all, refusing)
  {
    if all != [] {
      SameSurvivors(all[1..], dead, refusing);
    }
  }

  // ----- What the verdict means ----------------------------------------------------------

  /** A socket registers once, so the registry stays free of duplicates. */
  lemma RegistrationsKeepWellFormed(reg: Registry, agent: AgentId, ws: Socket)
    requires WellFormed(reg)
    ensures ws !in Connections(reg, agent) ==> WellFormed(Registered(reg, agent, ws))
    ensures WellFormed(Unregistered(reg, agent, ws))
    ensures Connections(Unregistered(reg, agent, ws), agent) == Without(Connections(reg, agent), {ws})
  {
    RemoveFirstOfDistinct(Connections(reg, agent), ws);
  }

  lemma UnregisteredExactly(reg: Registry, agent: AgentId, ws: Socket, a: AgentId)
    requires WellFormed(reg)
    ensures Connections(Unregistered(reg, agent, ws), a) ==
      if a == agent then Without(Connections(reg, a), {ws}) else Connections(reg, a)
  {
    RegistrationsKeepWellFormed(reg, agent, ws);
  }

  /** An attempt leaves the agent's accepting sockets in order, drops its entry when there are
      none, touches nobody else, and keeps the registry well formed. */
  lemma AttemptLeavesAcceptingSockets(reg: Registry, agent: AgentId, refusing: set<Socket>)
    requires WellFormed(reg)
    ensures var after := Attempted(reg, agent, refusing);
      && WellFormed(after)
      && Connections(after, agent) == Accepting(reg, agent, refusing)
      && (forall ws :: ws in Connections(after, agent) <==> ws in Connections(reg, agent) && ws !in refusing)
      && (agent in after <==> exists ws :: ws in Connections(reg, agent) && ws !in refusing)
      && forall a :: a != agent ==> Connections(after, a) == Connections(reg, a)
  {
    WithoutMembers(Connections(reg, agent), refusing);
    var left := Accepting(reg, agent, refusing);
    if left != [] {
      assert left[0] in left;
    }
  }

  /** The verdict is a strict majority of acceptances, so a true verdict means that a socket
      accepted; it agrees with "some socket accepted" exactly when the agent does not have
      some accepting sockets and at least as many refusing ones. */
  lemma VerdictIsMajority(reg: Registry, agent: AgentId, refusing: set<Socket>)
    ensures var conns := Connections(reg, agent);
      var accepted := |Accepting(reg, agent, refusing)|;
      && (Delivers(reg, agent, refusing) ==> exists ws :: ws in conns && ws !in refusing)
      && ((Delivers(reg, agent, refusing) <==> exists ws :: ws in conns && ws !in refusing)
          <==> !(0 < accepted && 2 * accepted <= |conns|))
  {
    var conns := Connections(reg, agent);
    WithoutMembers(conns, refusing);
    var left := Accepting(reg, agent, refusing);
    if left != [] {
      assert left[0] in left;
    }
  }

  /** Two sockets, one of them dead: the frame was taken and the verdict says it was not. */
  lemma VerdictCanMissAnAcceptance()
    ensures var reg: Registry := map["bob" := [1, 2]];
      Accepting(reg, "bob", {2}) == [1] && !Delivers(reg, "bob", {2})
  {
    var reg: Registry := map["bob" := [1, 2]];
    assert Without([1, 2], {2}) == [1] + Without([2], {2});
    assert Without([2], {2}) == [];
    assert Accepting(reg, "bob", {2}) == Without([1, 2], {2});
  }
}
