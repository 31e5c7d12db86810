/**
 * The earlier negotiating agent (`pw_argumentation.py`). It keeps its items (which
 * shrink as agreements are committed), the item it currently backs (`proposed_item`,
 * possibly none), the `convinced_agents` dictionary (possibly none), its state and the
 * messages it has sent. Every message of a step goes through all five performative
 * tests; an exception ends the step.
 */
module PwArgumentation {
  import opened Wrappers
  import opened Values
  import opened Items
  import opened CriterionNames
  import opened CoupleValues
  import opened Comparisons
  import opened Arguments
  import opened Preferences
  import opened Premises
  import opened Messages
  import opened ConvincedFlags
  import opened Schedule
  import opened States
  import opened AgentQueries
  import opened PwRules
  import opened Sorting
  import LegacyArguments

  /**
   * `self.proposed_item == content`: with no item only the missing content matches; an
   * item matches only an item content equal to it.
   */
  predicate Matches(p: Option<Item>, c: Content) {
    match p
    case None => c.NoContent?
    case Some(it) => c == ItemContent(it)
  }

  /** The PROPOSE test: the content is one of the first tenth (at least one) of the items. */
  predicate OffersTopItem(c: Content, items: seq<Item>) {
    c.ItemContent? && AmongTopTenth(c.item, items)
  }

  /** `items.index(x)`: the position of the first occurrence of `x`. */
  function IndexOf(s: seq<Item>, x: Item): (i: nat)
    requires x in s
    ensures i < |s| && s[i] == x && x !in s[..i]
  {
    if s[0] == x then 0
    else
      var j := IndexOf(s[1..], x);
      assert s[..j + 1] == [s[0]] + s[1..][..j];
      j + 1
  }

  /** `items.pop(items.index(x))`: the first occurrence of `x` is dropped. */
  function RemoveFirst(s: seq<Item>, x: Item): seq<Item>
    requires x in s
  {
    if s[0] == x then s[1..] else [s[0]] + RemoveFirst(s[1..], x)
  }

  /** Removal cuts the list at the first occurrence of `x`, keeping the order of the rest. */
  lemma {:induction false} RemoveFirstAt(s: seq<Item>, x: Item)
    requires x in s
    ensures RemoveFirst(s, x) == s[..IndexOf(s, x)] + s[IndexOf(s, x) + 1..]
  {
    if s[0] != x {
      var t := s[1..];
      RemoveFirstAt(t, x);
      var j := IndexOf(t, x);
      assert IndexOf(s, x) == j + 1;
      assert s == [s[0]] + t;
      CutAfterHead(s[0], t, j);
      ConcatAssoc([s[0]], t[..j], t[j + 1..]);
    }
  }

  /** Cutting around position `j + 1` of `[h] + t` is cutting around position `j` of `t`. */
  lemma CutAfterHead(h: Item, t: seq<Item>, j: nat)
    requires j < |t|
    ensures ([h] + t)[..j + 1] == [h] + t[..j]
    ensures ([h] + t)[j + 2..] == t[j + 1..]
  {
  }

  /** Removal takes exactly one `x` out of the multiset of items. */
  lemma {:induction false} RemoveFirstMultiset(s: seq<Item>, x: Item)
    requires x in s
    ensures multiset(RemoveFirst(s, x)) == multiset(s) - multiset{x}
  {
    assert s == [s[0]] + s[1..];
    if s[0] != x {
      RemoveFirstMultiset(s[1..], x);
    }
  }

  /** What remains after a removal was already there. */
  lemma RemoveFirstSubset(s: seq<Item>, x: Item)
    requires x in s
    ensures forall y :: y in RemoveFirst(s, x) ==> y in s
  {
    RemoveFirstMultiset(s, x);
    forall y | y in RemoveFirst(s, x) ensures y in s {
      assert y in multiset(RemoveFirst(s, x));
    }
  }

  /** An incoming ARGUE whose argument the agent can read its ratings for. */
  ghost predicate PwReadableArgue(prefs: Table, items: seq<Item>, m: Message)
    reads if m.content.ArgumentContent? then {m.content.arg} else {}
  {
    m.content.ArgumentContent? ==>
      var a := m.content.arg;
      PwAttackReadable(prefs, items, a.comparisons, Contents(a.couples), a.item, a.decision)
  }

  /** Readability survives losing items. */
  lemma ReadableWithFewerItems(prefs: Table, items: seq<Item>, fewer: seq<Item>, m: Message)
    requires PwReadableArgue(prefs, items, m)
    requires forall x :: x in fewer ==> x in items
    ensures PwReadableArgue(prefs, fewer, m)
  {
  }

  class PwAgent {
    const uniqueId: int
    const name: string
    const prefs: Table
    const score: Scorer
    var items: seq<Item>
    var state: NegotiationState
    /** `proposed_item`: the item under discussion, or none. */
    var proposed: Option<Item>
    /** `convinced_agents`: none until the agent opens a negotiation. */
    var convinced: Option<Flags>
    var outbox: seq<Message>

    /**
     * The dictionary, once there, has one entry per agent; waiting for commits implies
     * there is a dictionary; every message sent is signed by this agent.
     */
    ghost predicate Valid()
      reads this
    {
      (convinced.Some? ==> DistinctKeys(convinced.value))
      && (state == WaitingForCommit ==> convinced.Some?)
      && forall m :: m in outbox ==> m.sender == name
    }

    /** The ratings the agent reads exist: its items and the item it backs are fully rated. */
    ghost predicate Rateable()
      reads this
    {
      Complete(prefs, items) && (proposed.Some? ==> RatesAll(prefs, proposed.value))
    }

    /** `__init__`: at REST, with nothing proposed, no dictionary and nothing sent. */
    constructor (uniqueId: int, name: string, items: seq<Item>, prefs: Table, score: Scorer)
      ensures Valid()
      ensures this.uniqueId == uniqueId && this.name == name && this.items == items
      ensures this.prefs == prefs && this.score == score
      ensures state == Rest && proposed == None && convinced == None && outbox == []
    {
      this.uniqueId := uniqueId;
      this.name := name;
      this.items := items;
      this.prefs := prefs;
      this.score := score;
      state := Rest;
      proposed := None;
      convinced := None;
      outbox := [];
    }

    /** `send_message`. */
    method Send(m: Message)
      requires Valid() && m.sender == name
      modifies this
      ensures Valid()
      ensures outbox == old(outbox) + [m]
      ensures state == old(state) && items == old(items) && proposed == old(proposed) && convinced == old(convinced)
    {
      outbox := outbox + [m];
    }

    /** One message of kind `p` carrying `c` to each of `tos`, in order. */
    method SendToAll(tos: seq<string>, p: Performative, c: Content)
      requires Valid()
      modifies this
      ensures Valid()
      ensures outbox == old(outbox) + Broadcast(name, tos, p, c)
      ensures state == old(state) && items == old(items) && proposed == old(proposed) && convinced == old(convinced)
    {
      var i := 0;
      while i < |tos|
        invariant 0 <= i <= |tos|
        invariant outbox == old(outbox) + Broadcast(name, tos[..i], p, c)
        invariant forall m :: m in outbox ==> m.sender == name
        invariant state == old(state) && items == old(items) && proposed == old(proposed) && convinced == old(convinced)
      {
        SendNext(tos, i, p, c, old(outbox));
        i := i + 1;
      }
      assert tos[..i] == tos;
    }

    /** One round of that loop, to the `i`-th recipient. */
    method SendNext(tos: seq<string>, i: nat, p: Performative, c: Content, ghost before: seq<Message>)
      requires i < |tos|
      requires outbox == before + Broadcast(name, tos[..i], p, c)
      requires forall m :: m in outbox ==> m.sender == name
      modifies this
      ensures outbox == before + Broadcast(name, tos[..i + 1], p, c)
      ensures forall m :: m in outbox ==> m.sender == name
      ensures state == old(state) && items == old(items) && proposed == old(proposed) && convinced == old(convinced)
    {
      assert tos[..i + 1] == tos[..i] + [tos[i]];
      BroadcastExtend(before, name, tos[..i], tos[i], p, c);
      outbox := outbox + [Message(name, tos[i], p, c)];
    }

    /** One pass of the opening loop: PROPOSE `item` to `to` and flag `to` as not convinced. */
    method ProposeTo(item: Item, to: string)
      requires convinced.Some? && DistinctKeys(convinced.value) && forall m :: m in outbox ==> m.sender == name
      modifies this
      ensures convinced.Some? && DistinctKeys(convinced.value) && forall m :: m in outbox ==> m.sender == name
      ensures outbox == old(outbox) + [Message(name, to, Propose, ItemContent(item))]
      ensures convinced == Some(Set(old(convinced).value, to, false))
      ensures state == old(state) && items == old(items) && proposed == old(proposed)
    {
      outbox := outbox + [Message(name, to, Propose, ItemContent(item))];
      SetKeepsDistinct(convinced.value, to, false);
      convinced := Some(Set(convinced.value, to, false));
    }

    /**
     * The opening loop: a fresh dictionary, then for each other scheduled agent a PROPOSE
     * of `item` and a false flag.
     */
    method ProposeToOthers(item: Item, agents: seq<AgentRef>)
      requires Valid()
      modifies this
      ensures Valid()
      ensures outbox == old(outbox) + Broadcast(name, Others(agents, name), Propose, ItemContent(item))
      ensures convinced == Some(FlagsFor(Others(agents, name), false))
      ensures state == old(state) && items == old(items) && proposed == old(proposed)
    {
      convinced := Some([]);
      var i := 0;
      assert agents[..i] == [];
      while i < |agents|
        invariant 0 <= i <= |agents|
        invariant outbox == old(outbox) + Broadcast(name, Others(agents[..i], name), Propose, ItemContent(item))
        invariant forall m :: m in outbox ==> m.sender == name
        invariant convinced == Some(FlagsFor(Others(agents[..i], name), false))
        invariant DistinctKeys(convinced.value)
        invariant state == old(state) && items == old(items) && proposed == old(proposed)
      {
        ProposeNext(item, agents, i, old(outbox));
        i := i + 1;
      }
      assert agents[..i] == agents;
    }

    /** One round of that loop, on the `i`-th scheduled agent. */
    method ProposeNext(item: Item, agents: seq<AgentRef>, i: nat, ghost before: seq<Message>)
      requires i < |agents|
      requires outbox == before + Broadcast(name, Others(agents[..i], name), Propose, ItemContent(item))
      requires convinced == Some(FlagsFor(Others(agents[..i], name), false))
      requires DistinctKeys(convinced.value) && forall m :: m in outbox ==> m.sender == name
      modifies this
      ensures outbox == before + Broadcast(name, Others(agents[..i + 1], name), Propose, ItemContent(item))
      ensures convinced == Some(FlagsFor(Others(agents[..i + 1], name), false))
      ensures DistinctKeys(convinced.value) && forall m :: m in outbox ==> m.sender == name
      ensures state == old(state) && items == old(items) && proposed == old(proposed)
    {
      var a := agents[i];
      ProposeRound(before, name, agents, i, ItemContent(item));
      if a.name != name {
        ProposeTo(item, a.name);
      }
    }

    /** What the opening of `step` leaves behind. */
    twostate predicate Opened(agents: seq<AgentRef>, raised: bool)
      reads this
    {
      (old(state) != Rest || MinId(uniqueId, agents) != uniqueId ==>
            !raised && state == old(state) && proposed == old(proposed) && convinced == old(convinced)
            && outbox == old(outbox))
      && (old(state) == Rest && MinId(uniqueId, agents) == uniqueId ==>
            var others := Others(agents, name);
            (raised <==> items == [])
            && (items != [] ==>
                  state == Arguing && proposed == Some(items[0])
                  && convinced == Some(FlagsFor(others, false))
                  && outbox == old(outbox) + Broadcast(name, others, Propose, ItemContent(items[0])))
            && (items == [] ==>
                  state == (if others == [] then Arguing else Rest) && proposed == old(proposed)
                  && convinced == Some([]) && outbox == old(outbox)))
      && (items == old(items))
    }

    /**
     * The start of `step`: an agent at REST whose id is the smallest proposes its first
     * item to every other agent, starts arguing and backs that item. With no items this
     * raises, after the state has changed when there is no other agent.
     */
    method Start(agents: seq<AgentRef>) returns (raised: bool)
      requires Valid()
      modifies this
      ensures Valid()
      ensures Opened(agents, raised)
    {
      if state != Rest {
        return false;
      }
      var minId := ComputeMinId(uniqueId, agents);
      if minId != uniqueId {
        return false;
      }
      if items == [] {
        // The opening loop reads the first item on reaching the first other agent.
        convinced := Some([]);
        if Others(agents, name) != [] {
          return true;
        }
        state := Arguing;
        return true;
      }
      ProposeToOthers(items[0], agents);
      state := Arguing;
      proposed := Some(items[0]);
      raised := false;
    }

    /** The outcome of the PROPOSE case of `step`. */
    twostate predicate ProposeHandled(m: Message)
      reads this
    {
      (old(state) == Finished ==> state == Finished && proposed == old(proposed) && outbox == old(outbox))
      && (old(state) != Finished && OffersTopItem(m.content, items) ==>
            state == WaitingAnswerAccept && proposed == Some(m.content.item)
            && outbox == old(outbox) + [Message(name, m.sender, Accept, m.content)])
      && (old(state) != Finished && !OffersTopItem(m.content, items) ==>
            state == Arguing && proposed == old(proposed)
            && outbox == old(outbox) + [Message(name, m.sender, AskWhy, m.content)])
      && (items == old(items) && convinced == old(convinced))
    }

    /**
     * PROPOSE, outside FINISHED: an item among the agent's first tenth is ACCEPTed and
     * becomes the backed item; anything else is answered with ASK_WHY and the agent
     * starts arguing.
     */
    method ProposeCallback(m: Message)
      requires Valid()
      modifies this
      ensures Valid()
      ensures ProposeHandled(m)
    {
      if state != Finished {
        if OffersTopItem(m.content, items) {
          Send(Message(name, m.sender, Accept, m.content));
          proposed := Some(m.content.item);
          state := WaitingAnswerAccept;
        } else {
          Send(Message(name, m.sender, AskWhy, m.content));
          state := Arguing;
        }
      }
    }

    /** The outcome of the ACCEPT case of `step`. */
    twostate predicate AcceptHandled(m: Message, raised: bool)
      reads this
    {
      (!(old(state) == Arguing && Matches(old(proposed), m.content)) ==>
            !raised && state == old(state) && convinced == old(convinced) && outbox == old(outbox))
      && (old(state) == Arguing && Matches(old(proposed), m.content) ==>
            (raised <==> old(convinced).None?)
            && (raised ==> state == old(state) && convinced == old(convinced) && outbox == old(outbox))
            && (!raised ==>
                  var f := Set(old(convinced).value, m.sender, true);
                  (AllTrue(f) ==>
                     state == WaitingForCommit && convinced == Some(ResetAll(f))
                     && outbox == old(outbox) + Broadcast(name, Keys(f), Commit, m.content))
                  && (!AllTrue(f) ==> state == Arguing && convinced == Some(f) && outbox == old(outbox))))
      && (items == old(items) && proposed == old(proposed))
    }

    /**
     * ACCEPT of the backed item while arguing: the sender is flagged convinced (a missing
     * dictionary raises); once every flag is set, COMMIT goes to every agent in the
     * dictionary, the agent waits for their commits and all flags are cleared.
     */
    method AcceptCallback(m: Message) returns (raised: bool)
      requires Valid()
      modifies this
      ensures Valid()
      ensures AcceptHandled(m, raised)
    {
      raised := false;
      if state == Arguing && Matches(proposed, m.content) {
        if convinced.None? {
          return true;
        }
        MarkConvinced(m.sender, m.content);
      }
    }

    /**
     * The dictionary branch of ACCEPT: flag `sender` convinced and, once every flag is
     * set, COMMIT to every agent in the dictionary, wait for their commits and clear
     * all flags.
     */
    method MarkConvinced(sender: string, c: Content)
      requires Valid() && convinced.Some?
      modifies this
      ensures Valid()
      ensures var f := Set(old(convinced).value, sender, true);
              (AllTrue(f) ==>
                 state == WaitingForCommit && convinced == Some(ResetAll(f))
                 && outbox == old(outbox) + Broadcast(name, Keys(f), Commit, c))
              && (!AllTrue(f) ==> state == old(state) && convinced == Some(f) && outbox == old(outbox))
      ensures items == old(items) && proposed == old(proposed)
    {
      var f := Set(convinced.value, sender, true);
      SetKeepsDistinct(convinced.value, sender, true);
      var done := AllTrue(f);
      convinced := Some(f);
      if done {
        var keys, reset := Keys(f), ResetAll(f);
        ResetKeepsDistinct(f);
        SendToAll(keys, Commit, c);
        state, convinced := WaitingForCommit, Some(reset);
      }
    }

    /**
     * `support_proposal(item)`: a new pro-argument whose one premise is the head of the
     * supporting list; it raises for no item or an empty list.
     */
    method SupportProposal(item: Option<Item>) returns (arg: Argument?, raised: bool)
      requires item.Some? ==> RatesAll(prefs, item.value)
      ensures raised <==> PwSupport(prefs, item).None?
      ensures !raised ==> arg != null && fresh(arg) && arg.View() == PwSupport(prefs, item).value
    {
      var allCv, r := LegacyArguments.ListSupportingProposal(item, prefs);
      if r || allCv == [] {
        return null, true;
      }
      arg := new Argument(true, item.value);
      arg.AddPremissCoupleValues(allCv[0]);
      assert Contents(arg.couples) == [Contents(allCv)[0]];
      raised := false;
    }

    /** The outcome of the ASK_WHY case of `step`. */
    twostate predicate AskWhyHandled(m: Message, raised: bool, new reply: Argument?)
      requires old(Rateable())
      reads this, reply
    {
      (!(old(state) == Arguing && Matches(old(proposed), m.content)) ==> !raised && outbox == old(outbox))
      && (old(state) == Arguing && Matches(old(proposed), m.content) ==>
            var support := PwSupport(prefs, old(proposed));
            (raised <==> support.None?)
            && (raised ==> outbox == old(outbox))
            && (!raised ==>
                  reply != null && fresh(reply) && reply.View() == support.value
                  && outbox == old(outbox) + [Message(name, m.sender, Argue, ArgumentContent(reply))]))
      && (state == old(state) && items == old(items) && proposed == old(proposed) && convinced == old(convinced))
    }

    /** ASK_WHY about the backed item while arguing is answered with ARGUE and its support. */
    method AskWhyCallback(m: Message) returns (raised: bool, reply: Argument?)
      requires Valid() && Rateable()
      modifies this
      ensures Valid()
      ensures AskWhyHandled(m, raised, reply)
    {
      raised, reply := false, null;
      if state == Arguing && Matches(proposed, m.content) {
        reply, raised := SupportProposal(proposed);
        if raised {
          return;
        }
        Send(Message(name, m.sender, Argue, ArgumentContent(reply)));
      }
    }

    /**
     * The criterion scan of `attack_argument` for premise criterion `pc`: the first
     * criterion ranked before `pc` that undermines the item; with no items, testing a
     * criterion raises.
     */
    method ScanCriteria(item: Item, pc: CriterionName, isChosen: bool) returns (found: Option<CriterionName>, raised: bool)
      ensures var spec := ScanBefore(prefs, items, prefs.ranking, pc, item, isChosen);
              (raised <==> spec == ScanRaises) && (found.Some? <==> spec.Found?)
              && (spec.Found? ==> found == Some(spec.c))
    {
      var i := 0;
      while i < |prefs.ranking|
        invariant 0 <= i <= |prefs.ranking|
        invariant ScanBefore(prefs, items, prefs.ranking, pc, item, isChosen)
                  == ScanBefore(prefs, items, prefs.ranking[i..], pc, item, isChosen)
      {
        var criterion := prefs.ranking[i];
        if criterion == pc {
          return None, false;
        }
        if items == [] {
          return None, true;
        }
        var undermines;
        if isChosen {
          undermines := GradeOrd(prefs, item, criterion) < Min(Average.Ord(), MaxGrade(prefs, items, criterion));
        } else {
          undermines := GradeOrd(prefs, item, criterion) > Max(Good.Ord(), MinGrade(prefs, items, criterion));
        }
        if undermines {
          return Some(criterion), false;
        }
        assert prefs.ranking[i..][1..] == prefs.ranking[i + 1..];
        i := i + 1;
      }
      return None, false;
    }

    /**
     * `if counter_arg is None: counter_arg = Argument(not is_chosen, item)`, then the
     * agent's own rating of `c` as one more couple.
     */
    method AddOwnRating(counter: Argument?, isChosen: bool, item: Item, c: CriterionName) returns (r: Argument)
      requires Rated(prefs, item, c)
      modifies counter
      ensures counter == null ==> fresh(r)
      ensures counter != null ==> r == counter
      ensures r.View() == Extend(if counter == null then None else Some(old(counter.View())), isChosen, item,
                                 (c, Grade(prefs, item, c)), [])
    {
      if counter == null {
        r := new Argument(!isChosen, item);
      } else {
        r := counter;
      }
      var cv := new CoupleValue(c, Grade(prefs, item, c));
      ghost var before := r.couples;
      r.AddPremissCoupleValues(cv);
      ContentsAppend(before, [cv]);
    }

    /** One pass of the loop over the couple premises of `attack_argument`. */
    method RebutOne(counter: Argument?, p: CoupleValue, item: Item, isChosen: bool) returns (r: Argument?, raised: bool)
      requires RatesAll(prefs, item) && (isChosen ==> Rated(prefs, item, p.criterionName))
      modifies counter
      ensures var step := PremiseStep(prefs, items, if counter == null then None else Some(old(counter.View())),
                                      (p.criterionName, p.value), item, isChosen);
              (raised <==> step == PremiseRaises)
              && (!raised ==> step.acc == if r == null then None else Some(r.View()))
      ensures r == counter || fresh(r)
    {
      r := counter;
      raised := false;
      if isChosen && p.value.Ord() < Min(GradeOrd(prefs, item, p.criterionName), Average.Ord()) {
        r := AddOwnRating(counter, isChosen, item, p.criterionName);
      } else {
        var found;
        found, raised := ScanCriteria(item, p.criterionName, isChosen);
        if found.Some? {
          ScanFoundInRanking(prefs, items, prefs.ranking, p.criterionName, item, isChosen);
          ghost var acc := if counter == null then None else Some(counter.View());
          var cmp := Comparison(found.value, p.criterionName);
          var a := AddOwnRating(counter, isChosen, item, found.value);
          ghost var mid := a.View();
          a.AddPremissComparison(cmp);
          assert a.View() == mid.(comparisons := mid.comparisons + [cmp]);
          if acc.Some? {
            assert mid.comparisons == acc.value.comparisons + [] == acc.value.comparisons;
          }
          assert a.View() == Extend(acc, isChosen, item, (found.value, Grade(prefs, item, found.value)), [cmp]);
          r := a;
        }
      }
    }

    /**
     * One round of the premise loop of `attack_argument`, on the `k`-th couple: the
     * rebuttal of the couples so far is extended by that couple's, and a raise there is
     * the raise of the whole loop.
     */
    method RebutNext(counter: Argument?, couples: seq<CoupleValue>, ghost cs: seq<Couple>, k: nat, item: Item, isChosen: bool)
      returns (r: Argument?, raised: bool)
      requires cs == Contents(couples) && k < |couples|
      requires PremisesReadable(prefs, cs, item, isChosen)
      requires PremiseRebuttal(prefs, items, cs[..k], item, isChosen)
               == Premised(if counter == null then None else Some(counter.View()))
      modifies counter
      ensures raised ==> PremiseRebuttal(prefs, items, cs, item, isChosen) == PremiseRaises
      ensures !raised ==> PremiseRebuttal(prefs, items, cs[..k + 1], item, isChosen)
                          == Premised(if r == null then None else Some(r.View()))
      ensures r == counter || fresh(r)
    {
      var p := couples[k];
      assert cs[k] == (p.criterionName, p.value);
      PremiseRebuttalNext(prefs, items, cs, k, item, isChosen);
      r, raised := RebutOne(counter, p, item, isChosen);
    }

    /**
     * The loop over the couple premises of `attack_argument`, building the counter-argument
     * premise by premise.
     */
    method RebutPremises(couples: seq<CoupleValue>, item: Item, isChosen: bool) returns (counter: Argument?, raised: bool)
      requires PremisesReadable(prefs, Contents(couples), item, isChosen)
      ensures var spec := PremiseRebuttal(prefs, items, Contents(couples), item, isChosen);
              (raised <==> spec == PremiseRaises)
              && (raised ==> counter == null)
              && (!raised ==> spec.acc == if counter == null then None else Some(counter.View()))
      ensures counter != null ==> fresh(counter)
    {
      counter := null;
      ghost var cs := Contents(couples);
      var k := 0;
      while k < |couples|
        invariant 0 <= k <= |couples|
        invariant PremiseRebuttal(prefs, items, cs[..k], item, isChosen)
                  == Premised(if counter == null then None else Some(counter.View()))
        invariant counter != null ==> fresh(counter)
      {
        var stepRaised;
        counter, stepRaised := RebutNext(counter, couples, cs, k, item, isChosen);
        if stepRaised {
          return null, true;
        }
        k := k + 1;
      }
      assert cs[..k] == cs;
      raised := false;
    }

    /**
     * The fallback of `attack_argument`: a pro-argument on the last of the agent's items
     * that beats `item` both on criterion `cn` and in score, citing its rating on `cn`.
     */
    method BetterItemArgument(cn: CriterionName, item: Item) returns (counter: Argument?)
      requires forall it :: it in items ==> Rated(prefs, it, cn)
      ensures var best := LastBetter(prefs, items, score, item, cn);
              (counter != null <==> best.Some?)
              && (counter != null ==>
                    fresh(counter) && counter.View() == ArgumentValue(true, best.value, [(cn, Grade(prefs, best.value, cn))], []))
    {
      counter := null;
      var j := 0;
      while j < |items|
        invariant 0 <= j <= |items|
        invariant LastBetter(prefs, items[..j], score, item, cn) == if counter == null then None else Some(counter.item)
        invariant counter != null ==>
                    fresh(counter) && counter.item in items
                    && counter.View() == ArgumentValue(true, counter.item, [(cn, Grade(prefs, counter.item, cn))], [])
      {
        var x := items[j];
        assert items[..j + 1][..j] == items[..j];
        assert items[..j + 1][j] == x;
        counter := KeepIfBetter(x, cn, item, counter);
        j := j + 1;
      }
      assert items[..j] == items;
    }

    /** One round of that loop: a new pro-argument on `x` when it beats `item` on `cn`. */
    method KeepIfBetter(x: Item, cn: CriterionName, item: Item, counter: Argument?) returns (r: Argument?)
      requires Rated(prefs, x, cn)
      ensures Beats(prefs, score, x, item, cn) ==>
                r != null && fresh(r) && r.item == x
                && r.View() == ArgumentValue(true, x, [(cn, Grade(prefs, x, cn))], [])
      ensures !Beats(prefs, score, x, item, cn) ==> r == counter
    {
      r := counter;
      if Beats(prefs, score, x, item, cn) {
        var a := new Argument(true, x);
        var cv := new CoupleValue(cn, Grade(prefs, x, cn));
        a.AddPremissCoupleValues(cv);
        assert Contents(a.couples) == [(cn, Grade(prefs, x, cn))];
        r := a;
      }
    }

    /**
     * `attack_argument` over the fields `argument_parsing` extracts: the premise-based
     * rebuttal when there is one, else the better-item fallback on the cited criterion
     * (indexing the empty comparison list raises when nothing is cited).
     */
    method PwAttack(comparisons: seq<Comparison>, couples: seq<CoupleValue>, item: Item, isChosen: bool)
      returns (counter: Argument?, raised: bool)
      requires PwAttackReadable(prefs, items, comparisons, Contents(couples), item, isChosen)
      ensures var spec := PwAttackSpec(prefs, items, score, comparisons, Contents(couples), item, isChosen);
              (raised <==> spec == PwAttackRaises)
              && (counter != null <==> spec.PwCounter?)
              && (counter != null ==> fresh(counter) && counter.View() == spec.arg)
    {
      counter, raised := RebutPremises(couples, item, isChosen);
      if raised || counter != null {
        return;
      }
      var cn;
      if |couples| > 0 {
        cn := couples[0].criterionName;
      } else if |comparisons| > 0 {
        cn := comparisons[0].best;
      } else {
        return null, true;
      }
      assert CitedCriterion(Contents(couples), comparisons) == Some(cn);
      counter := BetterItemArgument(cn, item);
    }

    /** The outcome of the ARGUE case of `step`. */
    twostate predicate ArgueHandled(m: Message, raised: bool, new reply: Argument?)
      requires old(PwReadableArgue(prefs, items, m))
      reads this, reply
    {
      (old(state) != Arguing ==> !raised && state == old(state) && outbox == old(outbox))
      && (old(state) == Arguing && !m.content.ArgumentContent? ==>
            raised == (!m.content.CriterionValueContent? || old(proposed) == Some(m.content.cv.item))
            && state == old(state) && outbox == old(outbox))
      && (old(state) == Arguing && m.content.ArgumentContent? && old(proposed) != Some(m.content.arg.item) ==>
            !raised && state == old(state) && outbox == old(outbox))
      && (old(state) == Arguing && m.content.ArgumentContent? && old(proposed) == Some(m.content.arg.item) ==>
            var a := m.content.arg;
            var attack := old(PwAttackSpec(prefs, items, score, a.comparisons, Contents(a.couples), a.item, a.decision));
            var support := PwSupport(prefs, old(proposed));
            var sent := if attack == PwNoCounter then old(outbox) + [Message(name, m.sender, Accept, ItemContent(a.item))]
                        else old(outbox);
            (raised <==> attack == PwAttackRaises || support.None?)
            && (attack == PwAttackRaises ==> state == old(state) && outbox == old(outbox))
            && (attack != PwAttackRaises ==>
                  state == (if attack == PwNoCounter then WaitingAnswerAccept else Arguing)
                  && (support.None? ==> outbox == sent)
                  && (support.Some? ==>
                        reply != null && fresh(reply) && reply.View() == support.value
                        && outbox == sent + [Message(name, m.sender, Argue, ArgumentContent(reply))])))
      && (items == old(items) && proposed == old(proposed) && convinced == old(convinced))
    }

    /**
     * ARGUE while arguing. The content's item is read first: an argument's item, a
     * criterion value's item, and anything else raises. A criterion value about the
     * backed item raises when it is parsed as an argument. An argument about the backed
     * item is attacked; without a counter-argument the agent ACCEPTs the backed item and
     * waits for the answer. Either way it then ARGUEs its support for the backed item;
     * the counter-argument itself is never sent.
     */
    method ArgueCallback(m: Message) returns (raised: bool, reply: Argument?)
      requires Valid() && Rateable() && PwReadableArgue(prefs, items, m)
      modifies this
      ensures Valid()
      ensures ArgueHandled(m, raised, reply)
    {
      raised, reply := false, null;
      if state != Arguing {
        return;
      }
      match m.content
      case ArgumentContent(a) =>
        if proposed != Some(a.item) {
          return;
        }
        var counter;
        counter, raised := PwAttack(a.comparisons, a.couples, a.item, a.decision);
        if raised {
          return;
        }
        if counter == null {
          Send(Message(name, m.sender, Accept, ItemContent(a.item)));
          state := WaitingAnswerAccept;
        }
        reply, raised := SupportProposal(proposed);
        if raised {
          return;
        }
        Send(Message(name, m.sender, Argue, ArgumentContent(reply)));
      case CriterionValueContent(cv) =>
        raised := proposed == Some(cv.item);
      case _ =>
        raised := true;
    }

    /** The outcome of the COMMIT case of `step`. */
    twostate predicate CommitHandled(m: Message)
      requires old(Valid())
      reads this
    {
      (!(Matches(old(proposed), m.content) && old(proposed).Some? && old(proposed).value in old(items))
          || old(state) !in {WaitingAnswerAccept, WaitingForCommit} ==>
            state == old(state) && items == old(items) && convinced == old(convinced) && outbox == old(outbox))
      && (Matches(old(proposed), m.content) && old(proposed).Some? && old(proposed).value in old(items) ==>
            var x := old(proposed).value;
            (old(state) == WaitingAnswerAccept ==>
               state == Finished && items == RemoveFirst(old(items), x) && convinced == old(convinced)
               && outbox == old(outbox) + [Message(name, m.sender, Commit, ItemContent(x))])
            && (old(state) == WaitingForCommit ==>
                  var f := Set(old(convinced).value, m.sender, true);
                  convinced == Some(f) && outbox == old(outbox)
                  && (AllTrue(f) ==> state == Finished && items == RemoveFirst(old(items), x))
                  && (!AllTrue(f) ==> state == WaitingForCommit && items == old(items))))
      && (proposed == old(proposed))
    }

    /**
     * COMMIT of the backed item while it is still among the items: waiting for an answer
     * to its ACCEPT, the agent COMMITs back, drops the item and finishes; waiting for
     * commits, it flags the sender and, once all flags are set, drops the item and
     * finishes.
     */
    method CommitCallback(m: Message)
      requires Valid()
      modifies this
      ensures Valid()
      ensures CommitHandled(m)
    {
      if Matches(proposed, m.content) && proposed.Some? && proposed.value in items {
        if state == WaitingAnswerAccept {
          CommitBack(m.sender, proposed.value);
        } else if state == WaitingForCommit {
          RecordCommit(m.sender, proposed.value);
        }
      }
    }

    /** COMMIT back, drop the item and finish. */
    method CommitBack(sender: string, x: Item)
      requires Valid() && x in items
      modifies this
      ensures Valid()
      ensures state == Finished && items == RemoveFirst(old(items), x)
      ensures outbox == old(outbox) + [Message(name, sender, Commit, ItemContent(x))]
      ensures convinced == old(convinced) && proposed == old(proposed)
    {
      Send(Message(name, sender, Commit, ItemContent(x)));
      items := RemoveFirst(items, x);
      state := Finished;
    }

    /** Flag the sender as committed; once every flag is set, drop the item and finish. */
    method RecordCommit(sender: string, x: Item)
      requires Valid() && state == WaitingForCommit && x in items
      modifies this
      ensures Valid()
      ensures var f := Set(old(convinced).value, sender, true);
              convinced == Some(f)
              && (AllTrue(f) ==> state == Finished && items == RemoveFirst(old(items), x))
              && (!AllTrue(f) ==> state == WaitingForCommit && items == old(items))
      ensures outbox == old(outbox) && proposed == old(proposed)
    {
      var f := Set(convinced.value, sender, true);
      SetKeepsDistinct(convinced.value, sender, true);
      convinced := Some(f);
      if AllTrue(f) {
        items, state := RemoveFirst(items, x), Finished;
      }
    }

    /**
     * The outcome of one message of `step`'s loop: each performative has the effect of its
     * test, and QUERY_REF, INFORM_REF and NOT_AGREE change nothing. `reply` is the
     * argument sent back, if any.
     */
    twostate predicate MessageHandled(m: Message, raised: bool, new reply: Argument?)
      requires old(Valid()) && old(Rateable()) && old(PwReadableArgue(prefs, items, m))
      reads this, reply
    {
      (m.performative in {QueryRef, InformRef, NotAgree} ==>
         !raised && state == old(state) && items == old(items) && proposed == old(proposed)
         && convinced == old(convinced) && outbox == old(outbox))
      && (m.performative == Propose ==> !raised && ProposeHandled(m))
      && (m.performative == Accept ==> AcceptHandled(m, raised))
      && (m.performative == AskWhy ==> AskWhyHandled(m, raised, reply))
      && (m.performative == Argue ==> ArgueHandled(m, raised, reply))
      && (m.performative == Commit ==> !raised && CommitHandled(m))
    }

    /**
     * One message of `step`'s loop; only one of the five tests can hold, and the other
     * performatives are ignored. FINISHED is never left.
     */
    method Handle(m: Message) returns (raised: bool, reply: Argument?)
      requires Valid() && Rateable() && PwReadableArgue(prefs, items, m)
      modifies this
      ensures Valid() && Rateable()
      ensures old(outbox) <= outbox
      ensures forall x :: x in items ==> x in old(items)
      ensures raised ==> m.performative in {Accept, AskWhy, Argue}
      ensures old(state) == Finished ==> state == Finished
      ensures MessageHandled(m, raised, reply)
    {
      raised, reply := false, null;
      match m.performative
      case Propose =>
        ProposeCallback(m);
        if old(state) != Finished && OffersTopItem(m.content, items) {
          TopTenthBounds(m.content.item, items);
        }
      case Accept =>
        raised := AcceptCallback(m);
      case AskWhy =>
        raised, reply := AskWhyCallback(m);
      case Argue =>
        raised, reply := ArgueCallback(m);
      case Commit =>
        ghost var before := items;
        CommitCallback(m);
        if items != before {
          RemoveFirstSubset(before, proposed.value);
        }
      case _ =>
    }

    /**
     * `step`: an agent at REST may first open the negotiation; then each new message is
     * handled in order, and an exception ends the step with the rest unread. `reply` is
     * the argument the last handled message was answered with, if any.
     */
    method Step(inbox: seq<Message>, agents: seq<AgentRef>) returns (raised: bool, handled: nat, reply: Argument?)
      requires Valid() && Rateable()
      requires forall i :: 0 <= i < |inbox| ==> PwReadableArgue(prefs, items, inbox[i])
      modifies this
      ensures Valid() && Rateable()
      ensures old(outbox) <= outbox
      ensures forall x :: x in items ==> x in old(items)
      ensures handled <= |inbox| && (!raised ==> handled == |inbox|)
      ensures old(state) == Finished ==> state == Finished
      ensures inbox == [] ==> handled == 0 && Opened(agents, raised)
      ensures |inbox| == 1 && old(state) != Rest ==> MessageHandled(inbox[0], raised, reply)
    {
      handled, reply := 0, null;
      raised := false;
      if state == Rest {
        raised := Start(agents);
        if raised {
          return;
        }
      }
      raised, handled, reply := HandleMessages(inbox);
    }

    /**
     * The messages of one step, in order, until one raises. The first is handled on its
     * own, so that its effect is stated against the state before it; the loop takes the
     * rest.
     */
    method HandleMessages(inbox: seq<Message>) returns (raised: bool, handled: nat, reply: Argument?)
      requires Valid() && Rateable()
      requires forall i :: 0 <= i < |inbox| ==> PwReadableArgue(prefs, items, inbox[i])
      modifies this
      ensures Valid() && Rateable()
      ensures old(outbox) <= outbox
      ensures forall x :: x in items ==> x in old(items)
      ensures handled <= |inbox| && (!raised ==> handled == |inbox|)
      ensures old(state) == Finished ==> state == Finished
      ensures inbox == [] ==> !raised && handled == 0 && unchanged(this)
      ensures |inbox| == 1 ==> MessageHandled(inbox[0], raised, reply)
    {
      raised, handled, reply := false, 0, null;
      if inbox == [] {
        return;
      }
      raised, reply := Handle(inbox[0]);
      handled := if raised then 0 else 1;
      if !raised && handled < |inbox| {
        raised, handled, reply := HandleRest(inbox, handled, old(items));
      }
    }

    /**
     * The loop of `step` from message `from` on: each is handled in order until one
     * raises. The items are a subset of `before`, which the messages are readable against.
     */
    method HandleRest(inbox: seq<Message>, from: nat, ghost before: seq<Item>)
      returns (raised: bool, handled: nat, reply: Argument?)
      requires Valid() && Rateable() && from <= |inbox|
      requires forall x :: x in items ==> x in before
      requires forall i :: from <= i < |inbox| ==> PwReadableArgue(prefs, before, inbox[i])
      modifies this
      ensures Valid() && Rateable()
      ensures old(outbox) <= outbox
      ensures forall x :: x in items ==> x in old(items)
      ensures from <= handled <= |inbox| && (!raised ==> handled == |inbox|)
      ensures old(state) == Finished ==> state == Finished
    {
      raised, handled, reply := false, from, null;
      while handled < |inbox|
        invariant from <= handled <= |inbox|
        invariant Valid() && Rateable()
        invariant old(outbox) <= outbox
        invariant forall x :: x in items ==> x in old(items)
        invariant old(state) == Finished ==> state == Finished
      {
        ReadableWithFewerItems(prefs, before, items, inbox[handled]);
        raised, reply := Handle(inbox[handled]);
        if raised {
          return;
        }
        handled := handled + 1;
      }
    }
  }
}
