/**
 * The negotiating agent: an object whose fields are its negotiation state, its favourite
 * item, the `convinced_agents` flags, the log of arguments it has used and the messages
 * it has sent. `send_message` appends to `outbox`; the scheduler's agents are a list of
 * (id, name) pairs passed in.
 */
module ArgumentAgents {
  import opened Wrappers
  import opened Values
  import opened Items
  import opened CriterionNames
  import opened CoupleValues
  import opened Comparisons
  import opened Arguments
  import opened Preferences
  import opened Premises
  import opened Messages
  import opened ConvincedFlags
  import opened Schedule
  import opened States
  import opened Sorting
  import opened AgentQueries

  /** The names of a list of items, in order (`[item.name for item in items]`). */
  function ItemNames(items: seq<Item>): (ns: seq<string>)
    ensures |ns| == |items|
    ensures forall i :: 0 <= i < |items| ==> ns[i] == items[i].name
  {
    if items == [] then [] else [items[0].name] + ItemNames(items[1..])
  }

  /** An incoming ARGUE whose argument names an item and criteria the agent has ratings for. */
  ghost predicate ReadableArgue(prefs: Table, items: seq<Item>, m: Message)
    reads if m.content.ArgumentContent? then {m.content.arg} else {}
  {
    m.content.ArgumentContent? ==>
      AttackReadable(prefs, items, Contents(m.content.arg.couples), m.content.arg.item, m.content.arg.decision)
  }

  class ArgumentAgent {
    const uniqueId: int
    const name: string
    const prefs: Table
    const score: Scorer
    /** The agent's items, best score first. */
    const items: seq<Item>
    var state: NegotiationState
    var favoriteItem: Item
    var convinced: Flags
    /** `arguments_used`; a `None` entry is what an unsupported ASK_WHY leaves behind. */
    var argumentsUsed: seq<Argument?>
    var itemWasProposed: bool
    var outbox: seq<Message>

    /** The dictionary has one entry per agent, and every message sent is signed by this agent. */
    ghost predicate Valid()
      reads this
    {
      |items| > 0 && DistinctKeys(convinced) && forall m :: m in outbox ==> m.sender == name
    }

    /** The ratings the agent reads exist: every item and the favourite are rated on every criterion. */
    ghost predicate Rateable()
      reads this
    {
      Complete(prefs, items) && RatesAll(prefs, favoriteItem)
    }

    /**
     * `__init__`: the items sorted by score, best first, with equal scores kept in the
     * given order; the favourite is the first of them; nothing proposed, logged or sent.
     */
    constructor (uniqueId: int, name: string, items: seq<Item>, prefs: Table, score: Scorer)
      requires |items| > 0
      ensures Valid()
      ensures this.uniqueId == uniqueId && this.name == name && this.prefs == prefs && this.score == score
      ensures this.items == SortDesc(items, score)
      ensures favoriteItem == this.items[0]
      ensures favoriteItem in items && forall it :: it in items ==> score(it) <= score(favoriteItem)
      ensures state == Rest && convinced == [] && argumentsUsed == [] && !itemWasProposed && outbox == []
    {
      this.uniqueId := uniqueId;
      this.name := name;
      this.prefs := prefs;
      this.score := score;
      this.items := SortDesc(items, score);
      SortDescHeadIsMax(items, score);
      state := Rest;
      favoriteItem := SortDesc(items, score)[0];
      convinced := [];
      argumentsUsed := [];
      itemWasProposed := false;
      outbox := [];
    }

    /** `send_message`. */
    method Send(m: Message)
      requires Valid() && m.sender == name
      modifies this
      ensures Valid()
      ensures outbox == old(outbox) + [m]
      ensures state == old(state) && favoriteItem == old(favoriteItem) && convinced == old(convinced)
      ensures argumentsUsed == old(argumentsUsed) && itemWasProposed == old(itemWasProposed)
    {
      outbox := outbox + [m];
    }

    /** One message of kind `p` carrying `c` to each of `tos`, in order. */
    method SendToAll(tos: seq<string>, p: Performative, c: Content)
      requires Valid()
      modifies this
      ensures Valid()
      ensures outbox == old(outbox) + Broadcast(name, tos, p, c)
      ensures state == old(state) && favoriteItem == old(favoriteItem) && convinced == old(convinced)
      ensures argumentsUsed == old(argumentsUsed) && itemWasProposed == old(itemWasProposed)
    {
      var i := 0;
      while i < |tos|
        invariant 0 <= i <= |tos|
        invariant outbox == old(outbox) + Broadcast(name, tos[..i], p, c)
        invariant forall m :: m in outbox ==> m.sender == name
        invariant state == old(state) && favoriteItem == old(favoriteItem) && convinced == old(convinced)
        invariant argumentsUsed == old(argumentsUsed) && itemWasProposed == old(itemWasProposed)
      {
        SendNext(tos, i, p, c, old(outbox));
        i := i + 1;
      }
      assert tos[..i] == tos;
    }

    /** One round of that loop, to the `i`-th recipient. */
    method SendNext(tos: seq<string>, i: nat, p: Performative, c: Content, ghost before: seq<Message>)
      requires i < |tos|
      requires outbox == before + Broadcast(name, tos[..i], p, c)
      requires forall m :: m in outbox ==> m.sender == name
      modifies this
      ensures outbox == before + Broadcast(name, tos[..i + 1], p, c)
      ensures forall m :: m in outbox ==> m.sender == name
      ensures state == old(state) && favoriteItem == old(favoriteItem) && convinced == old(convinced)
      ensures argumentsUsed == old(argumentsUsed) && itemWasProposed == old(itemWasProposed)
    {
      assert tos[..i + 1] == tos[..i] + [tos[i]];
      BroadcastExtend(before, name, tos[..i], tos[i], p, c);
      outbox := outbox + [Message(name, tos[i], p, c)];
    }

    /**
     * Clear the flags, then PROPOSE `item` to every scheduled agent other than this one,
     * flagging each as not yet convinced (the loop of `__start_conversation` and of
     * `__send_attack_message`; only the former records that an item was proposed).
     */
    method ProposeToOthers(item: Item, agents: seq<AgentRef>, markProposed: bool)
      requires Valid()
      modifies this
      ensures Valid()
      ensures outbox == old(outbox) + Broadcast(name, Others(agents, name), Propose, ItemContent(item))
      ensures convinced == FlagsFor(Others(agents, name), false)
      ensures itemWasProposed == (old(itemWasProposed) || (markProposed && |Others(agents, name)| > 0))
      ensures state == old(state) && favoriteItem == old(favoriteItem) && argumentsUsed == old(argumentsUsed)
    {
      convinced := [];
      var i := 0;
      while i < |agents|
        invariant 0 <= i <= |agents|
        invariant outbox == old(outbox) + Broadcast(name, Others(agents[..i], name), Propose, ItemContent(item))
        invariant forall m :: m in outbox ==> m.sender == name
        invariant convinced == FlagsFor(Others(agents[..i], name), false)
        invariant DistinctKeys(convinced)
        invariant itemWasProposed == (old(itemWasProposed) || (markProposed && |Others(agents[..i], name)| > 0))
        invariant state == old(state) && favoriteItem == old(favoriteItem) && argumentsUsed == old(argumentsUsed)
      {
        ProposeNext(item, agents, i, markProposed, old(outbox), old(itemWasProposed));
        i := i + 1;
      }
      assert agents[..i] == agents;
    }

    /** One round of that loop, on the `i`-th scheduled agent. */
    method ProposeNext(item: Item, agents: seq<AgentRef>, i: nat, markProposed: bool,
                       ghost before: seq<Message>, ghost proposedBefore: bool)
      requires i < |agents| && |items| > 0
      requires outbox == before + Broadcast(name, Others(agents[..i], name), Propose, ItemContent(item))
      requires forall m :: m in outbox ==> m.sender == name
      requires convinced == FlagsFor(Others(agents[..i], name), false) && DistinctKeys(convinced)
      requires itemWasProposed == (proposedBefore || (markProposed && |Others(agents[..i], name)| > 0))
      modifies this
      ensures outbox == before + Broadcast(name, Others(agents[..i + 1], name), Propose, ItemContent(item))
      ensures forall m :: m in outbox ==> m.sender == name
      ensures convinced == FlagsFor(Others(agents[..i + 1], name), false) && DistinctKeys(convinced)
      ensures itemWasProposed == (proposedBefore || (markProposed && |Others(agents[..i + 1], name)| > 0))
      ensures state == old(state) && favoriteItem == old(favoriteItem) && argumentsUsed == old(argumentsUsed)
    {
      var a := agents[i];
      ProposeRound(before, name, agents, i, ItemContent(item));
      if a.name != name {
        ProposeTo(item, a.name, markProposed);
      }
    }

    /** One step of that loop: PROPOSE `item` to `to` and flag `to` as not yet convinced. */
    method ProposeTo(item: Item, to: string, markProposed: bool)
      requires |items| > 0 && DistinctKeys(convinced) && forall m :: m in outbox ==> m.sender == name
      modifies this
      ensures DistinctKeys(convinced) && forall m :: m in outbox ==> m.sender == name
      ensures outbox == old(outbox) + [Message(name, to, Propose, ItemContent(item))]
      ensures convinced == Set(old(convinced), to, false)
      ensures itemWasProposed == (old(itemWasProposed) || markProposed)
      ensures state == old(state) && favoriteItem == old(favoriteItem) && argumentsUsed == old(argumentsUsed)
    {
      outbox := outbox + [Message(name, to, Propose, ItemContent(item))];
      if markProposed {
        itemWasProposed := true;
      }
      SetKeepsDistinct(convinced, to, false);
      convinced := Set(convinced, to, false);
    }

    /** What `__start_conversation` leaves behind. */
    twostate predicate Opened(agents: seq<AgentRef>)
      reads this
    {
      (MinId(uniqueId, agents) == uniqueId ==>
            state == Arguing
            && outbox == old(outbox) + Broadcast(name, Others(agents, name), Propose, ItemContent(favoriteItem))
            && convinced == FlagsFor(Others(agents, name), false)
            && itemWasProposed == (old(itemWasProposed) || |Others(agents, name)| > 0))
      && (MinId(uniqueId, agents) != uniqueId ==>
            state == old(state) && outbox == old(outbox) && convinced == old(convinced)
            && itemWasProposed == old(itemWasProposed))
      && (favoriteItem == old(favoriteItem) && argumentsUsed == old(argumentsUsed))
    }

    /**
     * `__start_conversation`: the agent whose id is the smallest of all scheduled agents
     * proposes its favourite to every other agent and starts arguing; any other agent
     * does nothing.
     */
    method StartConversation(agents: seq<AgentRef>)
      requires Valid()
      modifies this
      ensures Valid()
      ensures Opened(agents)
    {
      var minId := ComputeMinId(uniqueId, agents);
      if minId == uniqueId {
        ProposeToOthers(favoriteItem, agents, true);
        state := Arguing;
      }
    }

    /** `__send_accept_message`: ACCEPT the favourite and wait for the answer. */
    method SendAcceptMessage(dest: string)
      requires Valid()
      modifies this
      ensures Valid()
      ensures outbox == old(outbox) + [Message(name, dest, Accept, ItemContent(favoriteItem))]
      ensures state == WaitingAnswerAccept
      ensures favoriteItem == old(favoriteItem) && convinced == old(convinced)
      ensures argumentsUsed == old(argumentsUsed) && itemWasProposed == old(itemWasProposed)
    {
      Send(Message(name, dest, Accept, ItemContent(favoriteItem)));
      state := WaitingAnswerAccept;
    }

    /** The outcome of `__propose_performative_callback`. */
    twostate predicate ProposeHandled(m: Message)
      reads this
    {
      (convinced == [])
      && (old(state) == Finished ==> state == Finished && outbox == old(outbox))
      && (old(state) != Finished && m.content.ItemContent? && AmongTopTenth(m.content.item, items) ==>
            state == WaitingAnswerAccept
            && outbox == old(outbox) + [Message(name, m.sender, Accept, ItemContent(favoriteItem))])
      && (old(state) != Finished && m.content.ItemContent? && !AmongTopTenth(m.content.item, items) ==>
            state == Arguing && outbox == old(outbox) + [Message(name, m.sender, AskWhy, m.content)])
      && (!m.content.ItemContent? ==> state == old(state) && outbox == old(outbox))
      && (favoriteItem == old(favoriteItem) && argumentsUsed == old(argumentsUsed))
      && (itemWasProposed == old(itemWasProposed))
    }

    /**
     * `__propose_performative_callback`: the flags are cleared; outside FINISHED a proposed
     * item among the agent's top tenth is answered with ACCEPT of the agent's own
     * favourite, any other proposed item with ASK_WHY; other contents are ignored.
     */
    method ProposeCallback(m: Message)
      requires Valid()
      modifies this
      ensures Valid()
      ensures ProposeHandled(m)
    {
      convinced := [];
      if state != Finished {
        if m.content.ItemContent? && AmongTopTenth(m.content.item, items) {
          SendAcceptMessage(m.sender);
        } else if m.content.ItemContent? {
          Send(Message(name, m.sender, AskWhy, m.content));
          state := Arguing;
        }
      }
    }

    /** The outcome of `__accept_performative_callback`. */
    twostate predicate AcceptHandled(m: Message)
      reads this
    {
      (!(m.content.ItemContent? && old(state) == Arguing && old(favoriteItem).name == m.content.item.name) ==>
            state == old(state) && convinced == old(convinced) && outbox == old(outbox))
      && (m.content.ItemContent? && old(state) == Arguing && old(favoriteItem).name == m.content.item.name ==>
            var marked := Set(old(convinced), m.sender, true);
            if AllTrue(marked) then
              state == WaitingForCommit && convinced == ResetAll(marked)
              && outbox == old(outbox) + Broadcast(name, Keys(marked), Commit, m.content)
            else
              state == old(state) && convinced == marked && outbox == old(outbox))
      && (favoriteItem == old(favoriteItem) && argumentsUsed == old(argumentsUsed))
      && (itemWasProposed == old(itemWasProposed))
    }

    /**
     * `__accept_performative_callback`: an ACCEPT of the favourite while arguing marks the
     * sender convinced; once everyone is, COMMIT goes to every tracked agent, the agent
     * waits for their commits and all flags drop back to false.
     */
    method AcceptCallback(m: Message)
      requires Valid()
      modifies this
      ensures Valid()
      ensures AcceptHandled(m)
    {
      if m.content.ItemContent? && state == Arguing && favoriteItem.name == m.content.item.name {
        MarkConvinced(m.sender, m.content);
      }
    }

    /**
     * The matching branch of ACCEPT: flag `sender` convinced and, once every flag is set,
     * COMMIT to every tracked agent, wait for their commits and clear all flags.
     */
    method MarkConvinced(sender: string, c: Content)
      requires Valid()
      modifies this
      ensures Valid()
      ensures var marked := Set(old(convinced), sender, true);
              if AllTrue(marked) then
                state == WaitingForCommit && convinced == ResetAll(marked)
                && outbox == old(outbox) + Broadcast(name, Keys(marked), Commit, c)
              else
                state == old(state) && convinced == marked && outbox == old(outbox)
      ensures favoriteItem == old(favoriteItem) && argumentsUsed == old(argumentsUsed)
      ensures itemWasProposed == old(itemWasProposed)
    {
      var marked := Set(convinced, sender, true);
      SetKeepsDistinct(convinced, sender, true);
      var done := AllTrue(marked);
      convinced := marked;
      if done {
        var keys, reset := Keys(marked), ResetAll(marked);
        ResetKeepsDistinct(marked);
        SendToAll(keys, Commit, c);
        state, convinced := WaitingForCommit, reset;
      }
    }

    /** The outcome of `__commit_performative_callback`. */
    twostate predicate CommitHandled(m: Message)
      reads this
    {
      (!(m.content == ItemContent(old(favoriteItem)) && old(favoriteItem).name in ItemNames(items)) ==>
            state == old(state) && convinced == old(convinced) && outbox == old(outbox))
      && (m.content == ItemContent(old(favoriteItem)) && old(favoriteItem).name in ItemNames(items) ==>
            (old(state) == WaitingAnswerAccept ==>
               state == Finished && convinced == old(convinced)
               && outbox == old(outbox) + [Message(name, m.sender, Commit, ItemContent(favoriteItem))])
            && (old(state) == WaitingForCommit ==>
                  var marked := Set(old(convinced), m.sender, true);
                  convinced == marked && outbox == old(outbox)
                  && state == if AllTrue(marked) then Finished else WaitingForCommit)
            && (old(state) != WaitingAnswerAccept && old(state) != WaitingForCommit ==>
                  state == old(state) && convinced == old(convinced) && outbox == old(outbox)))
      && (favoriteItem == old(favoriteItem) && argumentsUsed == old(argumentsUsed))
      && (itemWasProposed == old(itemWasProposed))
    }

    /**
     * `__commit_performative_callback`: a COMMIT of the favourite (when it is one of the
     * agent's items) is echoed and ends the negotiation when the agent was waiting for an
     * answer to its ACCEPT; when it was waiting for commits it marks the sender and ends
     * the negotiation once everyone has committed. Anything else changes nothing.
     */
    method CommitCallback(m: Message)
      requires Valid()
      modifies this
      ensures Valid()
      ensures CommitHandled(m)
    {
      if m.content == ItemContent(favoriteItem) && favoriteItem.name in ItemNames(items) {
        if state == WaitingAnswerAccept {
          Send(Message(name, m.sender, Commit, ItemContent(favoriteItem)));
          state := Finished;
        } else if state == WaitingForCommit {
          SetKeepsDistinct(convinced, m.sender, true);
          convinced := Set(convinced, m.sender, true);
          if AllTrue(convinced) {
            state := Finished;
          }
        }
      }
    }

    /**
     * `__argument_was_used`: scan the log in order; a `None` entry raises, a logged
     * argument with the same item name, couple list or comparison list means "used".
     */
    method ArgumentWasUsed(a: Argument) returns (r: UsedOutcome)
      ensures r == UsedScan(argumentsUsed, a)
    {
      if |argumentsUsed| == 0 {
        return Unused;
      }
      var i := 0;
      while i < |argumentsUsed|
        invariant 0 <= i <= |argumentsUsed|
        invariant UsedScan(argumentsUsed, a) == UsedScan(argumentsUsed[i..], a)
      {
        var u := argumentsUsed[i];
        assert argumentsUsed[i..][1..] == argumentsUsed[i + 1..];
        if u == null {
          return Raises;
        }
        if u.item.name == a.item.name {
          return Used;
        }
        if u.couples == a.couples {
          return Used;
        }
        if u.comparisons == a.comparisons {
          return Used;
        }
        i := i + 1;
      }
      return Unused;
    }

    /** `list_supporting_proposal`: a new couple object for each supporting premise. */
    method ListSupportingProposal(item: Item) returns (cs: seq<CoupleValue>)
      requires RatesAll(prefs, item)
      ensures Contents(cs) == Supporting(prefs, item)
      ensures forall i :: 0 <= i < |cs| ==> fresh(cs[i])
    {
      cs := NewCouples(Supporting(prefs, item));
    }

    /** `list_attacking_proposal`: a new couple object for each attacking premise. */
    method ListAttackingProposal(item: Item) returns (cs: seq<CoupleValue>)
      requires RatesAll(prefs, item)
      ensures Contents(cs) == Attacking(prefs, item)
      ensures forall i :: 0 <= i < |cs| ==> fresh(cs[i])
    {
      cs := NewCouples(Attacking(prefs, item));
    }

    /**
     * One pass of `support_proposal`'s loop: a new pro-argument on `item` whose only
     * premise is `cv`, and the log's verdict on it.
     */
    method SupportCandidate(item: Item, cv: CoupleValue) returns (a: Argument, used: UsedOutcome)
      requires forall i :: 0 <= i < |argumentsUsed| && argumentsUsed[i] != null ==> cv !in argumentsUsed[i].couples
      ensures fresh(a) && a.View() == ArgumentValue(true, item, [(cv.criterionName, cv.value)], [])
      ensures used == ScanByItemOrComparisons(argumentsUsed, item.name, [])
    {
      a := new Argument(true, item);
      a.AddPremissCoupleValues(cv);
      assert a.couples == [cv];
      NewCouplesNeverMatch(argumentsUsed, a);
      used := ArgumentWasUsed(a);
    }

    /**
     * The loop of `support_proposal` over new supporting couples: the first candidate the
     * log does not reject, or `raised` when the scan hits a `None` entry. Every candidate
     * is judged by the item and comparison clauses alone, so the first verdict decides.
     */
    method FirstUnusedCandidate(item: Item, candidates: seq<CoupleValue>) returns (a: Argument?, raised: bool)
      requires forall j, i :: 0 <= j < |candidates| && 0 <= i < |argumentsUsed| && argumentsUsed[i] != null ==>
                 candidates[j] !in argumentsUsed[i].couples
      ensures raised <==> candidates != [] && ScanByItemOrComparisons(argumentsUsed, item.name, []) == Raises
      ensures a != null <==> candidates != [] && ScanByItemOrComparisons(argumentsUsed, item.name, []) == Unused
      ensures a != null ==> fresh(a) && a.View() == ArgumentValue(true, item, [Contents(candidates)[0]], [])
    {
      var k := 0;
      while k < |candidates|
        invariant 0 <= k <= |candidates|
        invariant k > 0 ==> ScanByItemOrComparisons(argumentsUsed, item.name, []) == Used
      {
        var used;
        a, used := SupportCandidate(item, candidates[k]);
        if used == Raises {
          return null, true;
        }
        if used == Unused {
          return a, false;
        }
        k := k + 1;
      }
      return null, false;
    }

    /**
     * `support_proposal(item)`: try a pro-argument on each supporting premise in turn and
     * log and return the first one the log does not reject; `raised` when the scan hits
     * a `None` entry.
     */
    method SupportProposal(item: Item) returns (arg: Argument?, raised: bool)
      requires RatesAll(prefs, item)
      modifies this
      ensures var spec := old(SupportSpec(prefs, item, argumentsUsed));
              (raised <==> spec == SupportRaises)
              && (spec.Supported? ==>
                    arg != null && fresh(arg) && argumentsUsed == old(argumentsUsed) + [arg]
                    && arg.View() == ArgumentValue(true, item, [spec.premise], []))
              && (!spec.Supported? ==> arg == null && argumentsUsed == old(argumentsUsed))
      ensures state == old(state) && favoriteItem == old(favoriteItem) && convinced == old(convinced)
      ensures itemWasProposed == old(itemWasProposed) && outbox == old(outbox)
    {
      var candidates := ListSupportingProposal(item);
      arg, raised := FirstUnusedCandidate(item, candidates);
      if arg != null {
        argumentsUsed := argumentsUsed + [arg];
      }
    }

    /**
     * `argue_found_other_more_important_criterion_is_bad` with no argument yet: a new
     * argument of the given polarity on `item`, citing `c` at the agent's rating and the
     * comparison of `c` over `pc`, unless the log rejects it.
     */
    method ArgueOtherCriterion(c: CriterionName, pc: CriterionName, decision: bool, item: Item)
      returns (r: Argument?, raised: bool)
      requires Rated(prefs, item, c)
      ensures raised <==> ScanByItemOrComparisons(argumentsUsed, item.name, [Comparison(c, pc)]) == Raises
      ensures r != null <==> ScanByItemOrComparisons(argumentsUsed, item.name, [Comparison(c, pc)]) == Unused
      ensures r != null ==>
                fresh(r) && r.View() == ArgumentValue(decision, item, [(c, Grade(prefs, item, c))], [Comparison(c, pc)])
                && |r.couples| == 1 && fresh(r.couples[0])
    {
      var a := new Argument(decision, item);
      var cv := new CoupleValue(c, Grade(prefs, item, c));
      assert forall i :: 0 <= i < |argumentsUsed| && argumentsUsed[i] != null ==> cv !in argumentsUsed[i].couples;
      a.AddPremissCoupleValues(cv);
      a.AddPremissComparison(Comparison(c, pc));
      assert a.couples == [cv] && a.comparisons == [Comparison(c, pc)] && a.item == item;
      NewCouplesNeverMatch(argumentsUsed, a);
      var used := ArgumentWasUsed(a);
      if used == Unused {
        return a, false;
      }
      return null, used == Raises;
    }

    /**
     * `found_better_item_for_criterion`: some other item of the agent's rates higher on the
     * premise's criterion than the premise claims.
     */
    method FoundBetterItemForCriterion(premise: Couple, item: Item) returns (b: bool)
      requires forall it :: it in items ==> Rated(prefs, it, premise.0)
      ensures b == BetterItemExists(prefs, items, premise, item)
    {
      var i := 0;
      while i < |items|
        invariant 0 <= i <= |items|
        invariant forall j :: 0 <= j < i ==> !(items[j] != item && Grade(prefs, items[j], premise.0).Ord() > premise.1.Ord())
      {
        if items[i] != item && Grade(prefs, items[i], premise.0).Ord() > premise.1.Ord() {
          return true;
        }
        i := i + 1;
      }
      return false;
    }

    /**
     * `attack_argument(comparisons, couples, item, is_chosen)`. The loop over the couple
     * premises returns on its first pass, so only the first premise is examined.
     */
    method AttackArgument(comparisons: seq<Comparison>, couples: seq<CoupleValue>, item: Item, isChosen: bool)
      returns (r: Argument?, raised: bool)
      requires |items| > 0
      requires AttackReadable(prefs, items, Contents(couples), item, isChosen)
      ensures var spec := old(AttackSpec(prefs, items, argumentsUsed, Contents(couples), item, isChosen));
              (raised <==> spec == AttackRaises)
              && (r != null <==> spec.Rebuttal?)
              && (r != null ==> fresh(r) && r.View() == spec.arg)
    {
      if |couples| == 0 {
        return null, false;
      }
      var premise := (couples[0].criterionName, couples[0].value);
      var pc := premise.0;
      if isChosen {
        r, raised := AttackProArgument(Contents(couples), premise, item);
      } else {
        var c := FirstBeatsFloor(prefs, prefs.ranking, items, item);
        if c.Some? {
          r, raised := ArgueOtherCriterion(c.value, pc, !isChosen, item);
          return r, raised;
        }
        return null, false;
      }
    }

    /** The pro-argument branch of `attack_argument`, on the first couple premise `premise` of `cs`. */
    method AttackProArgument(ghost cs: seq<Couple>, premise: Couple, item: Item) returns (r: Argument?, raised: bool)
      requires |items| > 0 && cs != [] && cs[0] == premise
      requires AttackReadable(prefs, items, cs, item, true)
      ensures var spec := old(AttackSpec(prefs, items, argumentsUsed, cs, item, true));
              (raised <==> spec == AttackRaises)
              && (r != null <==> spec.Rebuttal?)
              && (r != null ==> fresh(r) && r.View() == spec.arg)
    {
      var pc := premise.0;
      var bad := FirstBadOther(prefs, prefs.ranking, item, pc);
      var counter: Argument? := null;
      raised := false;
      if bad.Some? {
        counter, raised := ArgueOtherCriterion(bad.value, pc, false, item);
        if raised {
          return null, true;
        }
      }
      if counter != null && CriterionIsBad(prefs, premise, item) {
        counter, raised := ArgueCriterionIsBad(counter, premise, item);
      }
      if counter != null {
        // `argue_found_better_item_for_criterion` returns its argument unchanged.
        var better := FoundBetterItemForCriterion(premise, item);
      }
      return counter, raised;
    }

    /**
     * `argue_criterion_is_bad` on a new counter-argument: the premise's criterion at the
     * agent's own rating is added, and the argument is dropped if the log already holds
     * it (a fresh couple never matches, so only the item or comparisons can clash).
     */
    method ArgueCriterionIsBad(counter: Argument, premise: Couple, item: Item) returns (r: Argument?, raised: bool)
      requires Rated(prefs, item, premise.0) && counter.item == item
      requires forall i :: 0 <= i < |argumentsUsed| ==> argumentsUsed[i] != counter
      requires ScanByItemOrComparisons(argumentsUsed, item.name, counter.comparisons) == Unused
      modifies counter
      ensures !raised && r == counter
      ensures counter.View() == old(counter.View()).(couples := old(counter.View()).couples + [(premise.0, Grade(prefs, item, premise.0))])
    {
      var pc := premise.0;
      var cv := new CoupleValue(pc, Grade(prefs, item, pc));
      assert forall i :: 0 <= i < |argumentsUsed| && argumentsUsed[i] != null ==> cv !in argumentsUsed[i].couples;
      counter.AddPremissCoupleValues(cv);
      assert counter.couples[|counter.couples| - 1] == cv;
      NewCouplesNeverMatch(argumentsUsed, counter);
      var used := ArgumentWasUsed(counter);
      r, raised := counter, false;
      if used != Unused {
        raised := used == Raises;
        r := null;
      }
    }

    /** The outcome of `__ask_why_performative_callback`. */
    twostate predicate AskWhyHandled(m: Message, raised: bool)
      requires old(Rateable())
      reads this, argumentsUsed
    {
      (state == old(state) && favoriteItem == old(favoriteItem) && convinced == old(convinced))
      && (itemWasProposed == old(itemWasProposed))
      && (!(m.content.ItemContent? && old(state) == Arguing && favoriteItem.name == m.content.item.name) ==>
            raised == !m.content.ItemContent? && argumentsUsed == old(argumentsUsed) && outbox == old(outbox))
      && (m.content.ItemContent? && old(state) == Arguing && favoriteItem.name == m.content.item.name ==>
            var spec := old(SupportSpec(prefs, favoriteItem, argumentsUsed));
            var n := |old(argumentsUsed)|;
            (raised <==> spec == SupportRaises)
            && (spec == SupportRaises ==> argumentsUsed == old(argumentsUsed) && outbox == old(outbox))
            && (spec == NoSupport ==>
                  argumentsUsed == old(argumentsUsed) + [null]
                  && outbox == old(outbox) + [Message(name, m.sender, Argue, NoContent)])
            && (spec.Supported? ==>
                  |argumentsUsed| == n + 2 && argumentsUsed[..n] == old(argumentsUsed)
                  && argumentsUsed[n] != null && argumentsUsed[n + 1] == argumentsUsed[n] && fresh(argumentsUsed[n])
                  && argumentsUsed[n].View() == ArgumentValue(true, favoriteItem, [spec.premise], [])
                  && outbox == old(outbox) + [Message(name, m.sender, Argue, ArgumentContent(argumentsUsed[n]))]))
    }

    /**
     * `__ask_why_performative_callback`: an ASK_WHY about the favourite while arguing is
     * answered with ARGUE carrying the best unused support, which `support_proposal` logs
     * and the callback logs a second time; with no support the log gets `None` and the
     * ARGUE carries nothing. Any other ASK_WHY only prints, and printing the content's
     * name raises when the content is not an item.
     */
    method AskWhyCallback(m: Message) returns (raised: bool)
      requires Valid() && Rateable()
      modifies this
      ensures Valid()
      ensures AskWhyHandled(m, raised)
    {
      if m.content.ItemContent? && state == Arguing && favoriteItem.name == m.content.item.name {
        var arg;
        arg, raised := SupportProposal(favoriteItem);
        if raised {
          return;
        }
        argumentsUsed := argumentsUsed + [arg];
        Send(Message(name, m.sender, Argue, if arg == null then NoContent else ArgumentContent(arg)));
      } else {
        raised := !m.content.ItemContent?;
      }
    }

    /** The outcome of `__argue_performative_callback`. */
    twostate predicate ArgueHandled(m: Message, raised: bool)
      requires |items| > 0 && old(ReadableArgue(prefs, items, m))
      reads this, argumentsUsed
    {
      (m.content.CriterionValueContent? && old(state) == Arguing && favoriteItem.name == m.content.cv.item.name ==>
            raised && state == old(state) && argumentsUsed == old(argumentsUsed) && outbox == old(outbox)
            && itemWasProposed == old(itemWasProposed))
      && (m.content.ArgumentContent? && !old(itemWasProposed) ==>
            !raised && itemWasProposed && state == old(state) && argumentsUsed == old(argumentsUsed)
            && outbox == old(outbox) + [Message(name, m.sender, Propose, ItemContent(favoriteItem))])
      && (m.content.ArgumentContent? && old(itemWasProposed) ==>
            var a := m.content.arg;
            var spec := old(AttackSpec(prefs, items, argumentsUsed, Contents(a.couples), a.item, a.decision));
            var n := |old(argumentsUsed)|;
            itemWasProposed
            && (raised <==> spec == AttackRaises)
            && (spec == AttackRaises ==>
                  state == old(state) && argumentsUsed == old(argumentsUsed) && outbox == old(outbox))
            && (spec == NoRebuttal ==>
                  state == WaitingAnswerAccept && argumentsUsed == old(argumentsUsed)
                  && outbox == old(outbox) + [Message(name, m.sender, Accept, ItemContent(favoriteItem))])
            && (spec.Rebuttal? ==>
                  state == old(state) && |argumentsUsed| == n + 1 && argumentsUsed[..n] == old(argumentsUsed)
                  && argumentsUsed[n] != null && fresh(argumentsUsed[n]) && argumentsUsed[n].View() == spec.arg
                  && outbox == old(outbox) + [Message(name, m.sender, Argue, ArgumentContent(argumentsUsed[n]))]))
      && (!m.content.ArgumentContent?
          && !(m.content.CriterionValueContent? && old(state) == Arguing && favoriteItem.name == m.content.cv.item.name) ==>
            !raised && state == old(state) && argumentsUsed == old(argumentsUsed) && outbox == old(outbox)
            && itemWasProposed == old(itemWasProposed))
      && (favoriteItem == old(favoriteItem) && convinced == old(convinced))
    }

    /**
     * `__argue_performative_callback`. An ARGUE carrying a criterion value about the
     * favourite goes to `__send_attack_message`, whose `argument_parsing` raises on a
     * criterion value. An ARGUE carrying an argument first makes the agent propose its
     * favourite to the sender if it never proposed; otherwise the agent attacks the
     * argument, logging and sending a counter-argument or else ACCEPTing its favourite.
     * Any other ARGUE is ignored.
     */
    method ArgueCallback(m: Message) returns (raised: bool)
      requires Valid() && ReadableArgue(prefs, items, m)
      modifies this
      ensures Valid()
      ensures ArgueHandled(m, raised)
    {
      raised := false;
      if m.content.CriterionValueContent? && state == Arguing && favoriteItem.name == m.content.cv.item.name {
        raised := true;
      } else if m.content.ArgumentContent? {
        var a := m.content.arg;
        if !itemWasProposed {
          Send(Message(name, m.sender, Propose, ItemContent(favoriteItem)));
          itemWasProposed := true;
          return;
        }
        var counter;
        counter, raised := AttackArgument(a.comparisons, a.couples, a.item, a.decision);
        if raised {
          return;
        }
        if counter != null {
          argumentsUsed := argumentsUsed + [counter];
          Send(Message(name, m.sender, Argue, ArgumentContent(counter)));
        } else {
          SendAcceptMessage(m.sender);
        }
      }
    }

    /**
     * `__send_attack_message`, on the fields `argument_parsing` would extract: without a
     * counter-argument the agent ACCEPTs its favourite; otherwise the counter-argument is
     * logged, and when it concerns the favourite it is logged again and sent back, while
     * a counter-argument on another item becomes the favourite and is proposed to every
     * other agent with all flags false.
     */
    method SendAttackMessage(sender: string, comparisons: seq<Comparison>, couples: seq<CoupleValue>,
                             item: Item, decision: bool, agents: seq<AgentRef>)
      returns (raised: bool)
      requires Valid() && AttackReadable(prefs, items, Contents(couples), item, decision)
      modifies this
      ensures Valid()
      ensures var spec := old(AttackSpec(prefs, items, argumentsUsed, Contents(couples), item, decision));
              var n := |old(argumentsUsed)|;
              (raised <==> spec == AttackRaises)
              && (spec == AttackRaises ==> state == old(state) && convinced == old(convinced) && argumentsUsed == old(argumentsUsed)
                                           && outbox == old(outbox) && favoriteItem == old(favoriteItem))
              && (spec == NoRebuttal ==>
                    state == WaitingAnswerAccept && convinced == old(convinced) && argumentsUsed == old(argumentsUsed)
                    && favoriteItem == old(favoriteItem)
                    && outbox == old(outbox) + [Message(name, sender, Accept, ItemContent(favoriteItem))])
              && (spec.Rebuttal? ==> state == old(state))
              && (spec.Rebuttal? && item.name == old(favoriteItem).name ==>
                    convinced == old(convinced) && |argumentsUsed| == n + 2 && argumentsUsed[..n] == old(argumentsUsed)
                    && argumentsUsed[n] != null && argumentsUsed[n + 1] == argumentsUsed[n]
                    && argumentsUsed[n].View() == spec.arg && favoriteItem == old(favoriteItem)
                    && outbox == old(outbox) + [Message(name, sender, Argue, ArgumentContent(argumentsUsed[n]))])
              && (spec.Rebuttal? && item.name != old(favoriteItem).name ==>
                    |argumentsUsed| == n + 1 && argumentsUsed[..n] == old(argumentsUsed)
                    && argumentsUsed[n] != null && argumentsUsed[n].View() == spec.arg && favoriteItem == item
                    && convinced == FlagsFor(Others(agents, name), false)
                    && outbox == old(outbox) + Broadcast(name, Others(agents, name), Propose, ItemContent(item)))
      ensures itemWasProposed == old(itemWasProposed)
    {
      ghost var spec := AttackSpec(prefs, items, argumentsUsed, Contents(couples), item, decision);
      if decision {
        AttackOnProArgument(prefs, items, argumentsUsed, Contents(couples), item);
      } else {
        AttackOnConArgument(prefs, items, argumentsUsed, Contents(couples), item);
      }
      var counter;
      counter, raised := AttackArgument(comparisons, couples, item, decision);
      if raised {
        return;
      }
      if counter == null {
        SendAcceptMessage(sender);
        return;
      }
      assert counter.item == item;
      DeliverCounter(sender, counter, agents);
    }

    /**
     * The end of `__send_attack_message` once there is a counter-argument: log it; when it
     * concerns the favourite, log it again and ARGUE it back, otherwise make its item the
     * favourite and PROPOSE that to every other agent with all flags false.
     */
    method DeliverCounter(sender: string, counter: Argument, agents: seq<AgentRef>)
      requires Valid()
      modifies this
      ensures Valid()
      ensures var n := |old(argumentsUsed)|;
              |argumentsUsed| > n && argumentsUsed[..n] == old(argumentsUsed) && argumentsUsed[n] == counter
              && (counter.item.name == old(favoriteItem).name ==>
                    argumentsUsed == old(argumentsUsed) + [counter, counter] && favoriteItem == old(favoriteItem)
                    && convinced == old(convinced)
                    && outbox == old(outbox) + [Message(name, sender, Argue, ArgumentContent(counter))])
              && (counter.item.name != old(favoriteItem).name ==>
                    argumentsUsed == old(argumentsUsed) + [counter] && favoriteItem == counter.item
                    && convinced == FlagsFor(Others(agents, name), false)
                    && outbox == old(outbox) + Broadcast(name, Others(agents, name), Propose, ItemContent(counter.item)))
      ensures state == old(state) && itemWasProposed == old(itemWasProposed)
    {
      argumentsUsed := argumentsUsed + [counter];
      if counter.item.name == favoriteItem.name {
        argumentsUsed := argumentsUsed + [counter];
        Send(Message(name, sender, Argue, ArgumentContent(counter)));
      } else {
        favoriteItem := counter.item;
        ProposeToOthers(counter.item, agents, false);
      }
    }

    /**
     * The outcome of one message of `step`'s loop: each performative has its callback's
     * effect, and QUERY_REF, INFORM_REF and NOT_AGREE change nothing.
     */
    twostate predicate MessageHandled(m: Message, raised: bool)
      requires |items| > 0 && old(Rateable()) && old(ReadableArgue(prefs, items, m))
      reads this, argumentsUsed
    {
      (m.performative in {QueryRef, InformRef, NotAgree} ==>
         !raised && state == old(state) && convinced == old(convinced) && outbox == old(outbox)
         && argumentsUsed == old(argumentsUsed) && itemWasProposed == old(itemWasProposed))
      && (m.performative == Propose ==> !raised && ProposeHandled(m))
      && (m.performative == Accept ==> !raised && AcceptHandled(m))
      && (m.performative == AskWhy ==> AskWhyHandled(m, raised))
      && (m.performative == Argue ==> ArgueHandled(m, raised))
      && (m.performative == Commit ==> !raised && CommitHandled(m))
    }

    /**
     * One message of `step`'s loop, dispatched on its performative; QUERY_REF, INFORM_REF
     * and NOT_AGREE are ignored. `raised` when the callback raises.
     */
    method Handle(m: Message) returns (raised: bool)
      requires Valid() && Rateable() && ReadableArgue(prefs, items, m)
      modifies this
      ensures Valid()
      ensures favoriteItem == old(favoriteItem)
      ensures old(outbox) <= outbox && old(argumentsUsed) <= argumentsUsed
      ensures raised ==> m.performative == AskWhy || m.performative == Argue
      ensures old(state) == Finished && m.performative != Argue ==> state == Finished
      ensures MessageHandled(m, raised)
    {
      raised := false;
      match m.performative
      case Propose => ProposeCallback(m);
      case Accept => AcceptCallback(m);
      case AskWhy => raised := AskWhyCallback(m);
      case Argue => raised := ArgueCallback(m);
      case Commit => CommitCallback(m);
      case _ =>
    }

    /**
     * `step`: an agent at REST first runs `__start_conversation`; then each new message
     * is handled in order, and an exception in a callback ends the step, leaving the rest
     * of the messages unread.
     */
    method Step(inbox: seq<Message>, agents: seq<AgentRef>) returns (raised: bool, handled: nat)
      requires Valid() && Rateable()
      requires forall i :: 0 <= i < |inbox| ==> ReadableArgue(prefs, items, inbox[i])
      modifies this
      ensures Valid() && Rateable()
      ensures favoriteItem == old(favoriteItem)
      ensures old(outbox) <= outbox && old(argumentsUsed) <= argumentsUsed
      ensures handled <= |inbox| && (!raised <==> handled == |inbox|)
      ensures old(state) == Finished && (forall i :: 0 <= i < |inbox| ==> inbox[i].performative != Argue) ==>
                state == Finished
      ensures inbox == [] ==> !raised && handled == 0
      ensures inbox == [] && old(state) == Rest ==> Opened(agents)
      ensures inbox == [] && old(state) != Rest ==> unchanged(this)
      ensures |inbox| == 1 && old(state) != Rest ==> MessageHandled(inbox[0], raised)
    {
      if state == Rest {
        StartConversation(agents);
      }
      raised, handled := HandleMessages(inbox);
    }

    /**
     * The messages of one step, in order, until one raises. The first is handled on its
     * own, so that its effect is stated against the state before it; the loop takes the
     * rest.
     */
    method HandleMessages(inbox: seq<Message>) returns (raised: bool, handled: nat)
      requires Valid() && Rateable()
      requires forall i :: 0 <= i < |inbox| ==> ReadableArgue(prefs, items, inbox[i])
      modifies this
      ensures Valid() && Rateable()
      ensures favoriteItem == old(favoriteItem)
      ensures old(outbox) <= outbox && old(argumentsUsed) <= argumentsUsed
      ensures handled <= |inbox| && (!raised <==> handled == |inbox|)
      ensures old(state) == Finished && (forall i :: 0 <= i < |inbox| ==> inbox[i].performative != Argue) ==>
                state == Finished
      ensures inbox == [] ==> !raised && handled == 0 && unchanged(this)
      ensures |inbox| == 1 ==> MessageHandled(inbox[0], raised)
    {
      raised, handled := false, 0;
      if inbox == [] {
        return;
      }
      raised := Handle(inbox[0]);
      handled := if raised then 0 else 1;
      if !raised && handled < |inbox| {
        raised, handled := HandleRest(inbox, handled);
      }
    }

    /** The loop of `step` from message `from` on: each is handled in order until one raises. */
    method HandleRest(inbox: seq<Message>, from: nat) returns (raised: bool, handled: nat)
      requires Valid() && Rateable() && from <= |inbox|
      requires forall i :: from <= i < |inbox| ==> ReadableArgue(prefs, items, inbox[i])
      modifies this
      ensures Valid() && Rateable()
      ensures favoriteItem == old(favoriteItem)
      ensures old(outbox) <= outbox && old(argumentsUsed) <= argumentsUsed
      ensures from <= handled <= |inbox| && (!raised <==> handled == |inbox|)
      ensures old(state) == Finished && (forall i :: from <= i < |inbox| ==> inbox[i].performative != Argue) ==>
                state == Finished
    {
      raised, handled := false, from;
      while handled < |inbox|
        invariant from <= handled <= |inbox|
        invariant Valid() && Rateable()
        invariant favoriteItem == old(favoriteItem)
        invariant old(outbox) <= outbox && old(argumentsUsed) <= argumentsUsed
        invariant old(state) == Finished && (forall i :: from <= i < |inbox| ==> inbox[i].performative != Argue) ==>
                    state == Finished
      {
        raised := Handle(inbox[handled]);
        if raised {
          return;
        }
        handled := handled + 1;
      }
    }
  }
}
