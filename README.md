# Argumentation-based negotiation agents

This project is a model of the core of a multi-agent negotiation simulator. Agents
must agree on one item out of a finite set. Each agent holds private ordinal
preferences: a ranking of criteria, most important first, and a grade from VERY_BAD to
VERY_GOOD for every item on every criterion. The agents exchange PROPOSE, ACCEPT,
ASK_WHY, ARGUE and COMMIT messages. The arguments they exchange are built from those
preferences: a polarity, an item, couple premises ("criterion has value") and comparison
premises ("this criterion outweighs that one"). A two-phase accept/commit closes the
negotiation only once every counterpart has agreed.

The model has three layers.

- **Preferences and premise records** (`Preferences`, `CriterionValues`, `CriterionNames`,
  `CoupleValues`, `Comparisons`, `Values`, `Items`).
  - `Preferences` is a class with the ranking and the rating list as fields. `get_value`
    and `is_preferred_criterion` are loops proved against the functions `Lookup` and
    `PrefersCriterion`.
  - The pure queries are functions. Python's stable `sorted(..., reverse=True)` is
    `Sorting.SortDesc`, with its permutation, order and stability proved.
- **Arguments and the argument-building rules** (`Arguments`, `LegacyArguments`,
  `Premises`, `AgentQueries`, `PwRules`).
  - Arguments are classes with append-only premise lists.
  - The supporting and attacking premise lists, the anti-repetition scan over the log
    of used arguments, and what `support_proposal` and `attack_argument` produce are
    functions of the preferences and the log, with lemmas stating what they mean.
- **The two agents** (`ArgumentAgents.ArgumentAgent` for
  `communication/argumentation/argument_agent.py`, `PwArgumentation.PwAgent` for the
  earlier `communication/pw_argumentation.py`).
  - Each is a class whose fields are the negotiation state, the item it backs, the
    `convinced_agents` dictionary, the log of used arguments and an `outbox`: sending
    a message appends to the outbox.
  - Every callback states its new state, the messages it sends and how the flags
    change. Its loops are proved against the broadcast and flag-dictionary functions
    of `Messages`, `ConvincedFlags` and `Schedule`.

An exception the Python code would raise (a `None` in the log dereferenced, an empty
supporting list indexed, a missing dictionary assigned to, a content without the expected
attribute) is modelled as a `raised` result. It ends the step, as the exception would.
Items are compared by value. Couple values have no `__eq__`, so they are objects and
compare by identity, as in the source.

Where the design description of the system and the code disagree, the model follows the
code:

- **Acceptance threshold.** The threshold is the first `max(1, int(0.1 * n))` items
  (`int` truncates), not a rounded-up fraction, and it never widens.
- **Unexpected messages.** A message the state does not expect is ignored (the source
  prints), not treated as a fatal protocol violation.
- **Reply to an accepted PROPOSE.** In `argument_agent.py` the agent answers an accepted
  PROPOSE with ACCEPT of its *own* favourite item.
- **`attack_argument` in `argument_agent.py`.** It looks only at the first couple premise.
  It appends the "criterion is bad" couple to the argument built from the more important
  bad criterion instead of trying the rules in turn. Its "better item" rule returns the
  argument unchanged. Against a con-argument it compares with min(GOOD, lowest rating)
  and does not skip the premise's criterion.
- **The log of used arguments.** It can hold the same argument twice: an ASK_WHY answer
  and a rebuttal on the favourite are both logged twice.
- **NOT_AGREE.** No code handles it.

Several reads in the source name attributes the shown classes do not define. As written,
each raises AttributeError; the model takes their evident meaning instead:

- `is_item_among_top_10_percent`, called by `argument_agent.py`, is commented out in
  `preferences.py`. The model uses the slice rule of `pw_argumentation.py`
  (`Preferences.AmongTopTenth`).
- `get_item`/`get_value` on a `CriterionValue`, and `get_item` and the `get_*` getters on
  the newer `Argument` and on `Message`. The model reads them as the corresponding fields.
- `argument_agent.py` reads `premises_comparison` and `premises_couple_values` on an
  `Argument`. Neither argument class defines them. As written, `step` calls
  `__add_view_to_history` (argument_agent.py:79) before the ARGUE callback, and it reads
  `premises_comparison` at :93. So every ARGUE carrying an argument raises there, whether
  or not the agent has proposed, and `__argue_performative_callback` never runs for it.
  `argument_parsing` (:401-406) raises in the same way on every argument it is given, and
  `__argument_was_used` raises at :347 on the first logged argument about another item.
  The model reads the two attributes as `get_premises_comparison()` and
  `get_premises_couple_values()`, and takes `__add_view_to_history` to do nothing (see
  "## Left out"). The as-written behaviour is stated under "## Findings".
- `pw_argumentation.py` is written against an earlier API. It calls `get_performative`,
  `get_content` and `get_exp` on a `Message`, `get_item` on the newer `Argument` it
  imports, and the static `Argument.list_supporting_proposal` (:245), none of which
  message.py or argument.py defines. As written, every message it handles raises at its
  first getter, and `support_proposal` raises on every call. The model reads the message
  getters as the fields and the argument calls against the older Argument.py
  (`LegacyArguments`), which defines them.

## Model

| member | source | states |
|---|---|---|
| Preferences.Preferences.constructor | communication/preferences/preferences.py:21-24 | a new Preferences has an empty ranking and an empty rating list |
| Preferences.Preferences.SetCriterionNameList | communication/preferences/preferences.py:38-40 | the ranking is replaced wholesale; the rating list is unchanged |
| Preferences.Preferences.AddCriterionValue | communication/preferences/preferences.py:42-44 | exactly one rating is appended at the end; earlier ratings and the ranking are unchanged |
| Preferences.Preferences.GetValue | communication/preferences/preferences.py:46-54 | the early-return scan returns the lookup over the current ratings |
| Preferences.LookupIsFirstMatch | communication/preferences/preferences.py:46-54 | the lookup is None iff no rating matches both item and criterion, and otherwise the grade of the first matching rating |
| Preferences.Preferences.IsPreferredCriterion | communication/preferences/preferences.py:56-64 | the early-return scan over the ranking agrees with `PrefersCriterion` |
| Preferences.PrefersCriterion | communication/preferences/preferences.py:56-64 | true iff `c1` occurs at a position with no `c2` before it |
| Preferences.PrefersCriterionReflexive | communication/preferences/preferences.py:56-64 | a ranked criterion is preferred to itself; an unranked one is preferred to nothing |
| Preferences.PrefersCriterionAsymmetric | communication/preferences/preferences.py:56-64 | for distinct criteria, preference never holds both ways |
| Preferences.PrefersCriterionTotal | communication/preferences/preferences.py:56-64 | for distinct ranked criteria, preference holds at least one way |
| Preferences.IsPreferredItemStrict | communication/preferences/preferences.py:66-68 | item preference by strictly greater score is irreflexive, asymmetric and transitive |
| Preferences.MostPreferred | communication/preferences/preferences.py:70-81 | on a non-empty list the result is a listed item of maximal score, the first or second of the maximal-score items in list order, and the first when only one item has that score |
| Preferences.TopTenthSize | communication/pw_argumentation.py:88 | the cut-off `max(1, int(0.1 * n))` is between 1 and n for a non-empty list, zero for an empty one, and a tenth rounded down (when that is at least 1) |
| Preferences.TopTenthBounds | communication/pw_argumentation.py:86-89 | the favourite always passes the top-tenth test, anything that passes is on the list, and below 20 items only the favourite passes |
| CriterionValues.CriterionValue.constructor | communication/preferences/criterion_value.py:15-19 | the item, criterion and grade the getters return are the constructor's |
| CriterionValues.CriterionValue.SetValue | communication/preferences/criterion_value.py:50-53 | the setter replaces only the grade; item and criterion are constants |
| CriterionNames.ListPresidential | communication/preferences/criterion_name.py:44-59 | exactly EDUCATION, LIBERALISM, IMMIGRATION, ENVIRONMENT, SECURITY, WORK, in declaration order |
| CriterionNames.ListCars | communication/preferences/criterion_name.py:61-75 | exactly PRODUCTION_COST, CONSUMPTION, DURABILITY, ENVIRONMENT_IMPACT, NOISE, in declaration order |
| CriterionNames.ScenarioListsPartition | communication/preferences/criterion_name.py:28-75 | the two scenario lists are disjoint and together are all eleven members in declaration order |
| CriterionNames.StrInjective | communication/preferences/criterion_name.py:41-42 | `str(c)` is the value string and no two members share one |
| CriterionNames.CriterionNameIsWord | communication/preferences/criterion_name.py:28-39 | member names contain no space and identify the member |
| CoupleValues.CoupleValue.constructor | communication/arguments/couple_value.py:15-28 | the criterion and value the read-only properties return are the constructor's |
| CoupleValues.SeparateCouplesDiffer | communication/arguments/couple_value.py:6-32 | two couples built from the same fields are still different objects (no `__eq__`) |
| CoupleValues.CoupleStrInjective | communication/arguments/couple_value.py:30-32 | `"<CRITERION> = <VALUE>"` determines both fields: equal strings iff equal fields |
| CoupleValues.NewCouples | communication/argumentation/argument_agent.py:358-367 | the comprehension builds one new couple per (criterion, value) pair, in order |
| Comparisons.Equals | communication/arguments/comparison.py:34-41 | `__eq__` is false for a non-Comparison and otherwise true iff best and worst both agree |
| Comparisons.EqualsIsEquivalence | communication/arguments/comparison.py:34-41 | `__eq__` is reflexive, symmetric and transitive |
| Comparisons.ComparisonStrInjective | communication/arguments/comparison.py:28-32 | `"<WORST> <= <BEST>"` determines the comparison, including which side is best |
| Arguments.Argument.constructor | communication/arguments/argument.py:20-25 | a new argument has the given decision and item and no premises |
| Arguments.Argument.AddPremissComparison | communication/arguments/argument.py:37-39 | one comparison is appended at the end; the couple list is unchanged (decision and item are constants) |
| Arguments.Argument.AddPremissCoupleValues | communication/arguments/argument.py:41-43 | one couple is appended at the end; the comparison list is unchanged |
| Arguments.ArgumentStr | communication/arguments/argument.py:45-56 | the conditional `", "` makes the premises one comma-separated list of couples then comparisons |
| Arguments.ArgumentStrPolarity | communication/arguments/argument.py:45-56 | the string starts with `¬` iff the decision is false |
| LegacyArguments.Argument.constructor | communication/arguments/Argument.py:19-24 | a new argument has the given decision and item and no premises |
| LegacyArguments.Argument.AddPremissComparison | communication/arguments/Argument.py:35-37 | one comparison is appended at the end; nothing else changes |
| LegacyArguments.Argument.AddPremissCoupleValues | communication/arguments/Argument.py:39-41 | one couple is appended at the end; nothing else changes |
| LegacyArguments.ItemPropertyLosesItem | communication/arguments/Argument.py:31-33 | the `item` property never yields the stored item, which only `get_item` returns |
| LegacyArguments.ListSupportingProposal | communication/arguments/Argument.py:72-85 | new couples whose contents are the supporting premises; with no item it raises iff some criterion is ranked |
| LegacyArguments.ListAttackingProposal | communication/arguments/Argument.py:87-98 | new couples whose contents are the attacking premises; with no item it raises iff some criterion is ranked |
| Messages.Broadcast | communication/argumentation/argument_agent.py:167-175 | one message of the given kind and content to each recipient, in order |
| Sorting.SortDesc | communication/argumentation/argument_agent.py:358-367 | `sorted(..., reverse=True)` returns a permutation of its input in non-increasing key order |
| Sorting.SortDescStable | communication/argumentation/argument_agent.py:358-367 | the sort is stable: for every key, elements with that key keep their input order |
| Premises.SupportingByGrade | communication/argumentation/argument_agent.py:353-367 | the supporting list is the VERY_GOOD criteria then the GOOD ones, each group in ranking order |
| Premises.AttackingByGrade | communication/argumentation/argument_agent.py:369-380 | the attacking list is the AVERAGE, then BAD, then VERY_BAD criteria, each in ranking order |
| Premises.PremisesPartition | communication/argumentation/argument_agent.py:353-380 | the two lists together are exactly the ranked criteria with their ratings, and each is non-increasing by grade |
| Premises.SupportingMembers | communication/argumentation/argument_agent.py:353-367 | a couple is supporting iff it is a ranked criterion at its rating and that rating is at least GOOD |
| Premises.AttackingMembers | communication/argumentation/argument_agent.py:369-380 | a couple is attacking iff it is a ranked criterion at its rating and that rating is below GOOD |
| AgentQueries.CriterionIsBad | communication/argumentation/argument_agent.py:408-416 | true iff the claimed value is below both the agent's own rating and AVERAGE |
| AgentQueries.FirstBadOther | communication/argumentation/argument_agent.py:429-441 | the first ranked criterion other than the premise's rated below AVERAGE, or None iff there is none |
| AgentQueries.BeatsFloorMeaning | communication/argumentation/argument_agent.py:447-455 | beating min(GOOD, lowest rating of any item) means being above GOOD or above some item's rating |
| AgentQueries.FirstBeatsFloorIsFirstMatch | communication/argumentation/argument_agent.py:443-458 | the first ranked criterion that beats the floor, or None iff none does |
| AgentQueries.BestCriterion | communication/argumentation/argument_agent.py:460-467 | `max` over the ranking returns a ranked criterion carrying the item's highest rating |
| AgentQueries.BestIndex | communication/argumentation/argument_agent.py:460-467 | the position `max` settles on is the first carrying the highest rating |
| AgentQueries.UsedScanIsFirstStop | communication/argumentation/argument_agent.py:340-351 | with the premise lists read through their getters: "unused" iff every logged entry is present and clashes with nothing; otherwise the scan stops at the first missing or clashing entry (as written it raises instead at the first entry about another item) |
| AgentQueries.UsedScanAsWrittenStopsAtHead | communication/argumentation/argument_agent.py:340-351 | as written, the first logged entry decides: the scan answers "unused" only for an empty log, and agrees with the intended scan iff that entry is `None` or names the same item |
| AgentQueries.UsedScanAsWrittenRaises | communication/argumentation/argument_agent.py:345-348 | one logged argument about another item with other premises makes the scan as written raise where the intended scan answers "unused" |
| AgentQueries.ArgumentParsingRaises | communication/argumentation/argument_agent.py:398-406 | the first two attributes `argument_parsing` reads are not attributes of `Argument`, so it raises on every argument; the last two are |
| AgentQueries.NewCouplesNeverMatch | communication/argumentation/argument_agent.py:347-348 | with the couple lists read through their getter, an argument built from new couples is judged by the item and comparison clauses alone (as written the couple clause raises) |
| AgentQueries.NoComparisonsClash | communication/argumentation/argument_agent.py:349-350 | with the comparison lists read through their getter, two arguments without comparisons always clash (as written the scan raises before this clause) |
| AgentQueries.SupportCitesBestRanked | communication/argumentation/argument_agent.py:382-394 | a supported proposal cites the first VERY_GOOD criterion, else the first GOOD one; there is no support iff the list is empty or the log rejects it |
| AgentQueries.AttackOnProArgument | communication/argumentation/argument_agent.py:489-565 | a rebuttal of a pro-argument is a con-argument on the same item led by the first other ranked criterion rated below AVERAGE, with a comparison over the premise's criterion, plus the premise's own rating iff `criterion_is_bad`; none when no criterion qualifies; conversely, once a criterion qualifies, the log alone decides between rebuttal, none and a raise |
| AgentQueries.AttackOnConArgument | communication/argumentation/argument_agent.py:567-578 | a rebuttal of a con-argument is a pro-argument on the same item citing the first ranked criterion that beats the floor, with a comparison; none when no criterion qualifies; conversely, once a criterion qualifies, the log alone decides between rebuttal, none and a raise |
| ConvincedFlags.SetCompletes | communication/argumentation/argument_agent.py:165-166 | after flagging the sender, every flag is true iff every other tracked agent had already agreed |
| ConvincedFlags.ResetBlocksCommit | communication/argumentation/argument_agent.py:177-179 | after the reset a non-empty dictionary is not all-true |
| ConvincedFlags.ResetGet | communication/argumentation/argument_agent.py:177-179 | after the reset every tracked agent reads false and no agent is added |
| ConvincedFlags.SetOthers | communication/argumentation/argument_agent.py:165 | flagging one agent leaves every other agent's flag as it was |
| ConvincedFlags.FlagsForGet | communication/argumentation/argument_agent.py:113-125 | the dictionary the opening loop builds holds false for exactly the other agents |
| Schedule.ComputeMinId | communication/argumentation/argument_agent.py:107-109 | the loop computes the fold of `min` over the scheduled agents' ids |
| Schedule.MinIdIsOwnIff | communication/argumentation/argument_agent.py:107-112 | the agent opens iff its id is not above any scheduled agent's |
| Schedule.OthersMembers | communication/argumentation/argument_agent.py:114-115 | a name is proposed to iff it is a scheduled agent's name other than the agent's own |
| ArgumentAgents.ArgumentAgent.constructor | communication/argumentation/argument_agent.py:26-42 | items are the stable score-sorted list, the favourite has maximal score, and the agent is at REST with nothing proposed, logged or sent |
| ArgumentAgents.ArgumentAgent.SendToAll | communication/argumentation/argument_agent.py:167-175 | the loop sends exactly the broadcast and changes nothing else |
| ArgumentAgents.ArgumentAgent.ProposeToOthers | communication/argumentation/argument_agent.py:113-125 | PROPOSE goes to every other scheduled agent, in order, and the flags are exactly those agents at false |
| ArgumentAgents.ArgumentAgent.StartConversation | communication/argumentation/argument_agent.py:105-127 | only the minimum-id agent proposes its favourite to all others and moves to ARGUING; any other agent changes nothing |
| ArgumentAgents.ArgumentAgent.SendAcceptMessage | communication/argumentation/argument_agent.py:291-301 | ACCEPT of the favourite is sent and the state becomes WAITING_ANSWER_ACCEPT |
| ArgumentAgents.ArgumentAgent.ProposeCallback | communication/argumentation/argument_agent.py:183-208 | flags cleared; FINISHED sends nothing; a top-tenth item gets ACCEPT of the favourite and WAITING_ANSWER_ACCEPT, any other item ASK_WHY and ARGUING |
| ArgumentAgents.ArgumentAgent.AcceptCallback | communication/argumentation/argument_agent.py:157-181 | a matching ACCEPT while arguing flags the sender; COMMIT goes to every tracked agent only once all flags are true, then WAITING_FOR_COMMIT with all flags false; otherwise nothing changes |
| ArgumentAgents.ArgumentAgent.MarkConvinced | communication/argumentation/argument_agent.py:165-179 | the flag-and-commit branch of ACCEPT, with the new flags, state and messages |
| ArgumentAgents.ArgumentAgent.CommitCallback | communication/argumentation/argument_agent.py:129-155 | a matching COMMIT is echoed and finishes in WAITING_ANSWER_ACCEPT, or flags the sender and finishes once all are true in WAITING_FOR_COMMIT; any other COMMIT changes nothing |
| ArgumentAgents.ArgumentAgent.ArgumentWasUsed | communication/argumentation/argument_agent.py:340-351 | the loop's verdict is the anti-repetition scan of the log, with the premise lists read through their getters |
| ArgumentAgents.ArgumentAgent.ListSupportingProposal | communication/argumentation/argument_agent.py:353-367 | new couples whose contents are the supporting premises |
| ArgumentAgents.ArgumentAgent.ListAttackingProposal | communication/argumentation/argument_agent.py:369-380 | new couples whose contents are the attacking premises |
| ArgumentAgents.ArgumentAgent.FirstUnusedCandidate | communication/argumentation/argument_agent.py:389-394 | the first candidate the log accepts, or none; it raises iff the scan meets a `None` entry |
| ArgumentAgents.ArgumentAgent.SupportProposal | communication/argumentation/argument_agent.py:382-394 | the returned and logged argument is a pro-argument citing the best supporting premise when the log accepts it, else None and the log is unchanged |
| ArgumentAgents.ArgumentAgent.ArgueOtherCriterion | communication/argumentation/argument_agent.py:510-529 | a new argument citing the criterion at the agent's rating and its comparison over the premise's, unless the log rejects it |
| ArgumentAgents.ArgumentAgent.ArgueCriterionIsBad | communication/argumentation/argument_agent.py:489-503 | the premise's criterion at the agent's own rating is appended and the argument is kept |
| ArgumentAgents.ArgumentAgent.FoundBetterItemForCriterion | communication/argumentation/argument_agent.py:418-427 | true iff another item of the agent's is rated above the claimed value |
| ArgumentAgents.ArgumentAgent.AttackArgument | communication/argumentation/argument_agent.py:472-578 | the counter-argument built by mutation has exactly the contents `AttackSpec` gives, and it raises exactly when the scan does |
| ArgumentAgents.ArgumentAgent.AttackProArgument | communication/argumentation/argument_agent.py:533-565 | the pro-argument branch yields the `AttackSpec` result |
| ArgumentAgents.ArgumentAgent.AskWhyCallback | communication/argumentation/argument_agent.py:210-233 | a matching ASK_WHY sends ARGUE with the best unused support, logged twice; with no support it logs `None` and sends an empty ARGUE; otherwise nothing is sent |
| ArgumentAgents.ArgumentAgent.ArgueCallback | communication/argumentation/argument_agent.py:248-289 | an argument makes an agent that never proposed PROPOSE its favourite; otherwise the rebuttal is logged and ARGUEd, or ACCEPT is sent when there is none; a criterion value about the favourite raises (with `__add_view_to_history` doing nothing and the premises read through their getters; as written every ARGUE carrying an argument raises earlier, in `__add_view_to_history`) |
| ArgumentAgents.ArgumentAgent.SendAttackMessage | communication/argumentation/argument_agent.py:303-338 | no rebuttal: ACCEPT; a rebuttal on the favourite is logged twice and ARGUEd; one on another item becomes the favourite and is PROPOSEd to all with false flags; a rebuttal never changes the state, and the flags change only on the re-propose (unreachable as written: its only caller, :256, passes a CriterionValue, on which `argument_parsing` raises) |
| ArgumentAgents.ArgumentAgent.DeliverCounter | communication/argumentation/argument_agent.py:309-338 | the logging, ARGUE and re-propose ending of `__send_attack_message`: on the favourite the counter is logged twice and ARGUEd with the flags unchanged; on another item it is logged once, becomes the favourite and is PROPOSEd to all with false flags; the state never changes (unreachable as written, as for `SendAttackMessage`) |
| ArgumentAgents.ArgumentAgent.Handle | communication/argumentation/argument_agent.py:64-84 | one message dispatched: each performative has exactly its callback's effect (`MessageHandled`: `ProposeHandled`, `AcceptHandled`, `AskWhyHandled`, `ArgueHandled`, `CommitHandled`); the outbox and log only grow, only ASK_WHY and ARGUE can raise, FINISHED is left only by ARGUE, other performatives change nothing |
| ArgumentAgents.ArgumentAgent.Step | communication/argumentation/argument_agent.py:57-84 | with no messages, a resting agent has exactly the opening effect (`Opened`) and any other agent is unchanged; with one message and no opening, that message has exactly its `MessageHandled` effect; otherwise messages are handled in order until one raises, and the outbox and log only grow |
| ArgumentAgents.ArgumentAgent.HandleMessages | communication/argumentation/argument_agent.py:64-84 | the messages of a step in order until one raises: none changes nothing, a single one has exactly its `MessageHandled` effect, and the outbox and log only grow |
| ArgumentAgents.ArgumentAgent.HandleRest | communication/argumentation/argument_agent.py:64-84 | the loop from a given message on: every message is handled iff none raises; the outbox and log only grow, and FINISHED is kept unless an ARGUE arrives |
| PwRules.PwSupport | communication/pw_argumentation.py:239-248 | with `list_supporting_proposal` taken from the older Argument.py: there is support iff an item is backed and its supporting list is non-empty (as written the static call raises) |
| PwRules.PwSupportCitesBest | communication/pw_argumentation.py:239-248 | with `list_supporting_proposal` taken from the older Argument.py: the support is a pro-argument with one ranked couple rated at least GOOD and no lower than any supporting premise |
| PwRules.RankedBefore | communication/pw_argumentation.py:287-289 | the criteria the inner loop visits: the prefix of the ranking before the first occurrence of the premise's criterion |
| PwRules.ScanFoundIsFirst | communication/pw_argumentation.py:287-325 | the inner loop stops at the first criterion ranked before the premise's that undermines the item |
| PwRules.ScanNotFoundNone | communication/pw_argumentation.py:287-325 | when the inner loop finds nothing, no criterion ranked before the premise's undermines |
| PwRules.ScanRaisesIff | communication/pw_argumentation.py:290-313 | `max`/`min` of an empty item list raises iff some criterion is examined |
| PwRules.PremiseRebuttalShape | communication/pw_argumentation.py:270-325 | a premise-based rebuttal argues the other way on the same item, cites only the agent's own ratings, at most one per premise, and each comparison is against a premise's criterion |
| PwRules.LastBetterAt | communication/pw_argumentation.py:334-350 | the last item that beats the attacked one on the criterion and in score, or -1 when none does |
| PwRules.FallbackIsProArgument | communication/pw_argumentation.py:326-351 | the fallback is a pro-argument on a higher-scoring item citing its better rating; with nothing to cite it raises |
| PwArgumentation.IndexOf | communication/pw_argumentation.py:191 | `items.index(x)` is the first position holding x |
| PwArgumentation.RemoveFirstAt | communication/pw_argumentation.py:191 | the `pop` removes exactly that position and keeps the rest in order |
| PwArgumentation.RemoveFirstMultiset | communication/pw_argumentation.py:191 | the `pop` takes exactly one x out of the items |
| PwArgumentation.PwAgent.constructor | communication/pw_argumentation.py:42-48 | at REST, with nothing proposed, no dictionary and nothing sent |
| PwArgumentation.PwAgent.SendToAll | communication/pw_argumentation.py:119-127 | the loop sends exactly the broadcast and changes nothing else |
| PwArgumentation.PwAgent.ProposeToOthers | communication/pw_argumentation.py:65-76 | PROPOSE goes to every other scheduled agent, and the new dictionary is exactly those agents at false |
| PwArgumentation.PwAgent.Start | communication/pw_argumentation.py:60-78 | at REST only the minimum-id agent proposes its first item to all others, backs it and starts arguing; with no items it raises |
| PwArgumentation.PwAgent.ProposeCallback | communication/pw_argumentation.py:84-109 | outside FINISHED, a top-tenth item gets ACCEPT of that item, becomes backed and WAITING_ANSWER_ACCEPT; any other content gets ASK_WHY and ARGUING |
| PwArgumentation.PwAgent.AcceptCallback | communication/pw_argumentation.py:112-131 | a matching ACCEPT while arguing flags the sender (raising with no dictionary); COMMIT goes to all only once all flags are true, then WAITING_FOR_COMMIT with all flags false |
| PwArgumentation.PwAgent.MarkConvinced | communication/pw_argumentation.py:117-131 | the flag-and-commit branch of ACCEPT, with the new flags, state and messages |
| PwArgumentation.PwAgent.SupportProposal | communication/pw_argumentation.py:239-248 | with `list_supporting_proposal` taken from the older Argument.py: a new pro-argument with the `PwSupport` contents, raising exactly when there is no support |
| PwArgumentation.PwAgent.AskWhyCallback | communication/pw_argumentation.py:134-146 | with the older API: a matching ASK_WHY while arguing sends ARGUE with the support, or raises without one |
| PwArgumentation.PwAgent.ScanCriteria | communication/pw_argumentation.py:287-325 | the inner loop with its `break`s finds what `ScanBefore` finds and raises when it does |
| PwArgumentation.PwAgent.AddOwnRating | communication/pw_argumentation.py:277-284 | the counter-argument is created on first use and gains the agent's own rating of the criterion |
| PwArgumentation.PwAgent.RebutOne | communication/pw_argumentation.py:271-325 | one pass of the premise loop yields `PremiseStep` |
| PwArgumentation.PwAgent.RebutPremises | communication/pw_argumentation.py:270-325 | the premise loop builds exactly the `PremiseRebuttal` contents |
| PwArgumentation.PwAgent.BetterItemArgument | communication/pw_argumentation.py:334-350 | the fallback loop keeps a new pro-argument on the last item that beats the attacked one, or none |
| PwArgumentation.PwAgent.KeepIfBetter | communication/pw_argumentation.py:335-350 | one round of the fallback loop replaces the counter-argument iff the item beats the attacked one |
| PwArgumentation.PwAgent.PwAttack | communication/pw_argumentation.py:262-351 | the counter-argument has the `PwAttackSpec` contents and raises exactly when that does |
| PwArgumentation.PwAgent.ArgueCallback | communication/pw_argumentation.py:149-174 | with the older API: while arguing, an argument on the proposed item is attacked; with no counter the agent ACCEPTs and waits; it then ARGUEs its support, raising without one; any other content raises unless it is a criterion value about another item |
| PwArgumentation.PwAgent.CommitCallback | communication/pw_argumentation.py:177-197 | a matching COMMIT is echoed, drops the item and finishes in WAITING_ANSWER_ACCEPT, or flags the sender and does so once all are true in WAITING_FOR_COMMIT |
| PwArgumentation.PwAgent.CommitBack | communication/pw_argumentation.py:182-192 | COMMIT is echoed, the item is popped and the state is FINISHED |
| PwArgumentation.PwAgent.RecordCommit | communication/pw_argumentation.py:193-197 | the sender is flagged; once all flags are true the item is popped and the state is FINISHED |
| PwArgumentation.PwAgent.Handle | communication/pw_argumentation.py:80-197 | with the older API, one message through all five tests: each performative has exactly its callback's effect (`MessageHandled`: `ProposeHandled`, `AcceptHandled`, `AskWhyHandled`, `ArgueHandled`, `CommitHandled`); the outbox only grows, items only shrink, only ACCEPT, ASK_WHY and ARGUE can raise, FINISHED is never left |
| PwArgumentation.PwAgent.Step | communication/pw_argumentation.py:56-197 | the opening, which is exactly `Opened` when there are no messages; with one message and no opening, that message has exactly its `MessageHandled` effect; otherwise messages are handled in order until one raises, items only shrink and FINISHED is never left |
| PwArgumentation.PwAgent.HandleMessages | communication/pw_argumentation.py:80-197 | the messages of a step in order until one raises: none changes nothing, a single one has exactly its `MessageHandled` effect, the outbox only grows and items only shrink |
| PwArgumentation.PwAgent.HandleRest | communication/pw_argumentation.py:80-197 | the loop from a given message on: with no raise every message is handled; the outbox only grows, items only shrink and FINISHED is never left |

## Left out

- `load_preferences` and `generate_random_preferences` (communication/pw_argumentation.py:199-237): file I/O and a random number generator. Preferences are a parameter of the agents' constructors.
- The Mesa model, its scheduler, `CommunicatingAgent` and the message service are not part of this model. `send_message` is an append to `outbox`, `model.schedule.agents` is a list of (id, name) pairs passed in, and the messages of a step are passed in as a list.
- `__add_view_to_history` (communication/argumentation/argument_agent.py:86-103): the opponent belief model calls `set_criterion_pair` and `set_criterion_value`, which `Preferences` does not define, on any argument with a premise; and as written it first raises at :93, since `Argument` has no `premises_comparison`. The rest of the ARGUE handling is modelled as if it did nothing.
- AgentQueries.UsedScanIsFirstStop: states the scan with the premise lists read through their getters; as written `__argument_was_used` raises AttributeError at the first logged argument about another item (`UsedScanAsWrittenStopsAtHead`).
- AgentQueries.NewCouplesNeverMatch: the couple clause it reasons about raises AttributeError as written; it states the clause under the getter reading.
- AgentQueries.NoComparisonsClash: the comparison clause it reasons about is never reached as written, because the couple clause raises first; it states the clause under the getter reading.
- ArgumentAgents.ArgumentAgent.ArgumentWasUsed: models the loop under the getter reading; as written it raises AttributeError at the first logged argument about another item.
- ArgumentAgents.ArgumentAgent.ArgueCallback, Handle, Step: the whole branch for an ARGUE carrying an argument, the PROPOSE of an agent that never proposed included, assumes `__add_view_to_history` does nothing and reads the premises through their getters. As written, `__add_view_to_history` raises AttributeError at :93 on every such message before the callback runs, and under the getter reading it would still call the undefined `set_criterion_pair`/`set_criterion_value` on any argument with a premise. `ArgueHandled` states the evident behaviour, not that raise.
- ArgumentAgents.ArgumentAgent.Step, PwArgumentation.PwAgent.Step: the effect of each message is stated by `Handle`; the step's own contract states it only for an empty inbox and for a single message without an opening. Longer runs are stated by what they preserve.
- ArgumentAgents.ArgumentAgent.SendAttackMessage, DeliverCounter: unreachable as written, since the only call passes a CriterionValue to `argument_parsing`, which raises; modelled as the argument it evidently meant to attack.
- PwRules.PwSupport, PwSupportCitesBest: use the older Argument.py's `list_supporting_proposal`; as written the call on the imported newer `Argument` raises AttributeError.
- PwArgumentation.PwAgent.SupportProposal, AskWhyCallback, ArgueCallback, Handle, Step: model the older Message/Argument API; as written each message raises AttributeError at its first `get_performative`, and `support_proposal` raises on every call.
- `Value` and `Item` (value.py, item.py) are not part of this model. A Value is a five-grade datatype with its ordinal; an Item is a value identified by its fields; `Item.get_score` is an uninterpreted function passed in.
- Preferences.MostPreferred: requires a non-empty list; on an empty one `sorted_item_list[0]` raises IndexError, a path not modelled.
- Preferences.MostPreferred: the random choice between the two tied items is a `pickSecond` parameter, so the contract covers both outcomes rather than a distribution.
- Preferences.TopTenthSize: `int(0.1 * n)` is taken as `n / 10`; the floating-point product is not modelled.
- The performatives QUERY_REF, INFORM_REF and NOT_AGREE are ignored, as no shown code handles them. The acceptance threshold never widens, as no shown code widens it.
- `argument_is_attackable`, which has an empty body, and `__propose_my_favorite_item_if_not_already`, whose only call is commented out, are never called. `argue_found_better_item_for_criterion` returns its argument unchanged, so the model drops it from `attack_argument`. `get_best_criterion` is modelled but not called by either agent.
- `argument_parsing` is not a separate member. As written it raises on every `Argument` (`AgentQueries.ArgumentParsingRaises`); the model's callbacks pass the argument's premise lists, item and decision to the attack directly, as the getters would return them.
- ArgumentAgents.ArgumentAgent.constructor: requires a non-empty item list; on an empty one `self.items[0]` raises IndexError, a path not modelled.
- Missing ratings. `get_value` returns None for an unrated pair, and the source then fails when it compares or reads that None. The members below require every rating they read to exist (`RatesAll`, `Rateable`, `ReadableArgue`, `AttackReadable`, `PwReadableArgue`, `PwAttackReadable`), so that failure is not modelled:
- ArgumentAgents.ArgumentAgent.ListSupportingProposal, ListAttackingProposal, SupportProposal: require the item to be rated on every ranked criterion.
- ArgumentAgents.ArgumentAgent.ArgueOtherCriterion, ArgueCriterionIsBad, FoundBetterItemForCriterion: require the ratings they cite or compare to exist.
- ArgumentAgents.ArgumentAgent.AttackArgument, AttackProArgument, SendAttackMessage: require the attacked item and the agent's items to be rated on the criteria read.
- ArgumentAgents.ArgumentAgent.AskWhyCallback, ArgueCallback, Handle, Step: require the agent's items and favourite to be fully rated, and an incoming argument to name rated criteria.
- LegacyArguments.ListSupportingProposal, ListAttackingProposal: require a given item to be rated on every ranked criterion.
- PwArgumentation.PwAgent.SupportProposal, AskWhyCallback: require the proposed item to be fully rated.
- PwArgumentation.PwAgent.AddOwnRating, RebutOne, RebutPremises, BetterItemArgument, KeepIfBetter, PwAttack: require the ratings the rebuttal reads to exist.
- PwArgumentation.PwAgent.ArgueCallback, Handle, Step: require the agent's items and the proposed item to be fully rated, and an incoming argument to name rated criteria.
- All `print` diagnostics, the `__str__` of agents, criterion values and messages, and the `__main__` demonstration block of preferences.py.
- The import of `communication.arguments.Comparison` in Argument.py names a module that only exists in lower case (comparison.py). The model takes it to be that module.
- The older `LegacyArguments.Argument.Str` reads the item name through `get_name`, which is taken to be the item's name field.

## Findings

| source | as written | input that shows it | evidently intended | confidence | as-written member | corrected member |
|---|---|---|---|---|---|---|
| communication/argumentation/argument_agent.py:345-350 | the loop reads `premises_couple_values`, which `Argument` does not define, so it raises AttributeError at the first logged argument about another item and never looks further | a log holding one argument about another item, with other couples and comparisons (a call of `__argument_was_used` on its own: through the agent as written, only the rebuttal paths log arguments about other items, they never run because `__add_view_to_history` and `argument_parsing` raise first, and the log holds only supports of the favourite and `None`) | compare the premise lists through their getters and go on to the next logged argument | not executed | AgentQueries.UsedScanAsWrittenRaises | AgentQueries.UsedScanIsFirstStop |
| communication/argumentation/argument_agent.py:401-406 | `argument_parsing` reads `premises_comparison` first, which `Argument` does not define, so it raises AttributeError on every argument it is given; through `step` as written, `__add_view_to_history` (:79, :93) raises the same way earlier, on every ARGUE carrying an argument | any `Argument` | read the premises through `get_premises_comparison()` and `get_premises_couple_values()` | not executed | AgentQueries.ArgumentParsingRaises | ArgumentAgents.ArgumentAgent.ArgueCallback |
