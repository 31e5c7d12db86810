/**
 * The counterparts an agent sees through the scheduler: each agent's `unique_id` and
 * name, in the scheduler's order (the agent itself included).
 */
module Schedule {
  import opened Values
  import opened Messages
  import opened ConvincedFlags

  datatype AgentRef = AgentRef(uniqueId: int, name: string)

  /** `min(own, *(a.unique_id for a in agents))`, folded left to right. */
  function MinId(own: int, agents: seq<AgentRef>): int
    decreases |agents|
  {
    if agents == [] then own else MinId(Min(own, agents[0].uniqueId), agents[1..])
  }

  /** The scan of `step`: the smallest of `own` and every scheduled agent's id. */
  method ComputeMinId(own: int, agents: seq<AgentRef>) returns (m: int)
    ensures m == MinId(own, agents)
  {
    m := own;
    var i := 0;
    while i < |agents|
      invariant 0 <= i <= |agents|
      invariant MinId(own, agents) == MinId(m, agents[i..])
    {
      assert agents[i..][1..] == agents[i + 1..];
      m := Min(m, agents[i].uniqueId);
      i := i + 1;
    }
  }

  /** Only the agent whose id is not above anyone's opens the negotiation. */
  lemma {:induction false} MinIdIsOwnIff(own: int, agents: seq<AgentRef>)
    ensures MinId(own, agents) == own <==> forall a :: a in agents ==> own <= a.uniqueId
  {
    MinIdBound(own, agents);
  }

  lemma {:induction false} MinIdBound(own: int, agents: seq<AgentRef>)
    ensures MinId(own, agents) <= own
    ensures forall a :: a in agents ==> MinId(own, agents) <= a.uniqueId
    ensures MinId(own, agents) == own || exists a :: a in agents && MinId(own, agents) == a.uniqueId
    decreases |agents|
  {
    if agents != [] {
      var m := Min(own, agents[0].uniqueId);
      MinIdBound(m, agents[1..]);
      forall a | a in agents ensures MinId(own, agents) <= a.uniqueId {
        if a != agents[0] {
          assert a in agents[1..];
        }
      }
      if MinId(own, agents) != own {
        if MinId(m, agents[1..]) == m {
          assert m == agents[0].uniqueId;
          assert agents[0] in agents;
        } else {
          var a :| a in agents[1..] && MinId(m, agents[1..]) == a.uniqueId;
          assert a in agents;
        }
      }
    }
  }

  /** The names of the scheduled agents other than `self`, in schedule order. */
  function Others(agents: seq<AgentRef>, self: string): seq<string> {
    if agents == [] then []
    else (if agents[0].name != self then [agents[0].name] else []) + Others(agents[1..], self)
  }

  /** A name is among the others exactly when it is not `self` and some scheduled agent has it. */
  lemma {:induction false} OthersMembers(agents: seq<AgentRef>, self: string, n: string)
    ensures n in Others(agents, self) <==> n != self && exists a :: a in agents && a.name == n
  {
    if agents != [] {
      OthersMembers(agents[1..], self, n);
      assert forall a :: a in agents[1..] ==> a in agents;
      assert forall a :: a in agents && a != agents[0] ==> a in agents[1..];
    }
  }

  /** Scanning one more agent adds its name at the end, unless it is `self`. */
  lemma {:induction false} OthersSnoc(agents: seq<AgentRef>, a: AgentRef, self: string)
    ensures Others(agents + [a], self) == Others(agents, self) + (if a.name != self then [a.name] else [])
  {
    if agents != [] {
      assert (agents + [a])[1..] == agents[1..] + [a];
      OthersSnoc(agents[1..], a, self);
    }
  }

  /**
   * One round of the opening loop, on the `i`-th scheduled agent: unless it is `self`,
   * its name joins the others, its PROPOSE extends the broadcast and its false flag
   * extends the dictionary.
   */
  lemma ProposeRound(before: seq<Message>, self: string, agents: seq<AgentRef>, i: nat, c: Content)
    requires i < |agents|
    ensures var sent := Others(agents[..i], self);
            var a := agents[i];
            if a.name != self then
              Others(agents[..i + 1], self) == sent + [a.name]
              && (before + Broadcast(self, sent, Propose, c)) + [Message(self, a.name, Propose, c)]
                 == before + Broadcast(self, sent + [a.name], Propose, c)
              && Set(FlagsFor(sent, false), a.name, false) == FlagsFor(sent + [a.name], false)
            else
              Others(agents[..i + 1], self) == sent
  {
    var sent := Others(agents[..i], self);
    var a := agents[i];
    assert agents[..i + 1] == agents[..i] + [a];
    OthersSnoc(agents[..i], a, self);
    if a.name != self {
      BroadcastExtend(before, self, sent, a.name, Propose, c);
      FlagsForSnoc(sent, a.name, false);
    }
  }
}
