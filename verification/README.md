# Regulatory domains, the modem channel and DMA ownership

A Dafny model of five pieces of the kernel tree, and proofs of what they promise.

* **Regulatory core** (`net/wireless/reg.c`). `RegRules` holds the rule algebra: automatic bandwidth, the
  intersection of two domains and the containment merge. `RegBandwidth` and `RegLadder` say which bands inside one
  rule a domain really grants once automatic bandwidth is worked out anew on the result, and which domains an
  intersection can widen in this sense. `RegChains` is about the bandwidth number of each rule, the one that is
  compared with channel widths, which automatic bandwidth lets span touching rules.
  `RegHints` judges hints, installs answers and restores. `RegQueue` is the queue of hints as a machine whose steps
  are the sections under the list's spinlock, the scheduling of the work item, and what only the RTNL protects; over
  its runs, plain users cannot widen the sealed domain of a country element. `RegRuns` exhibits runs of it. `RegCore`
  is the code itself on requests and domains as objects that are handed over, kept and freed: nothing freed is held or
  freed again, none that was held, handed over or made on the way is lost, and the values are those of the machine.
* **Modem channel** (`drivers/rda/md.c`). `Ring` is the power-of-two ring as a class, proved against a queue of
  bytes. `RingSpsc` interleaves its two sides byte by byte. `Frames` is the framing on top.
* **Modem system channel** (`drivers/rda/md_sys.c`). `MsysSend` interleaves senders, timeouts and the worker that
  matches replies; a message that lives on a sender's stack is dead once its sender has returned. `MsysRx` is the
  receive worker with its 32 frame slots.
* **Clock dividers** (`drivers/rda/ap_clk.c`). `ClkDiv` proves the divider search optimal, and stable under
  reading back and setting again.
* **DMA ownership**. `Camera` is the capture queue, `PmDdr` and `Ifc` count DDR references and own channels, `Mmc`
  is the data transfer of several hosts over one controller.

`Words` holds machine words, options and powers of two. Where the code works in place there is a class or an array
method, proved against a function of the old state; the functions' own properties are the lemmas. What a function
decides is stated once more in the values it decides from, without the function's own helpers: these are the lemmas
whose names end in `Is` or `Are`. Every run lemma is about all lists of events, in which a step that is not due
changes nothing.

Where the code falls short of what it is meant to do, the model keeps the code; a lemma gives the exact condition and
a concrete state or run shows the failure:

* The bandwidth number of a rule of an intersection can exceed both domains, up to an underflow of 32 bits, although
  both are valid and ascending: `RegChains.TwoBandsWrap`, `RegHints.BandwidthCanWrap`. A chain of the result keeps the
  bound of an ascending domain exactly when it does not run backwards (`RegChains.ForwardIsExact`, below 2^31 kHz).
  Among ascending domains exactly those whose rules overlap by 2 kHz at most are safe as the first operand, the answer
  to a hint, against every ascending domain in force, whatever else their rules carry: `RegChains.NarrowIsExact`,
  `RegHints.IntersectionBandwidth`; and they are safe for good, however many follow: `RegChains.NumbersForGood`. The
  built-in world domain ascends (`RegHints.WorldAscends`).
* For bands inside one rule an intersection can also grant more than the old domain: the merge drops a rule that ended a
  chain early, and automatic bandwidth grows on what is left. Exactly the sealed domains are safe from that, ascending
  ones among them, for good: `RegLadder.SealedIsExact`, `RegBandwidth.SealedForGood`, `RegBandwidth.AscendingIsSealed`,
  `RegBandwidth.NestedWidens`, `RegHints.IntersectionCanWiden`. Up to eight rules the other domain is one that
  `set_regdom` accepts; beyond that it may need more than 128 rules.
* A packet that is only a header always passes the space check and can be cut: `Ring.PacketWriteAllOrNothing` and
  `Frames.BareHeaderNeedsRoom` (`drivers/rda/md.c:464-470`, `drivers/rda/md.c:546`). A length below 16 always reads as
  busy.
* A frame published in two steps can be read short without an error: `Frames.ReadOfPartialFrame`.
* Asynchronous frames are reordered exactly when a round of the worker hands one out while others are parked, which
  takes a late init inside a run: `MsysRx.OrderIsExact`, `MsysRx.OrderWithoutFlips`. What the rest of the run then
  does is in `MsysRx.FlipInsideRun` when no further frame arrives, in `MsysRx.FlipWithArrivals` in general, and in
  `MsysRx.FlipReorders` for two frames.
* A restoration splices its stash behind hints that arrived meanwhile: `RegQueue.FirstComeFirstServed`,
  `RegRuns.HintOvertakesStash`.
* A country element that names no country is refused by `__reg_process_hint_country_ie`, but the refusal is not one
  of the values its caller looks at, so it is processed. Of two equal ones queued before the first is judged, the
  second is accepted although the first is in force; one that comes after the first was accepted is dropped before
  it is queued: `RegHints.RepeatedHintIsSettled`, `RegRuns.ElementAcceptedTwice`.
* A driver whose device kept its domain across a restoration has its request processed without an installation, and
  plain user hints are ignored from then on: `RegHints.AgreementOrOwnDomain`, `RegRuns.KeptDomainBlocksUsers`.
* Two falling edges after one rising edge leave the camera's DDR reference held with no buffer, and so does a
  `queue_setup` over a list of buffers; over whole runs nothing else goes wrong: `Camera.RunIsExact`,
  `Camera.FallIsExact`, `Camera.SetupIsExact`, `Camera.WithoutEitherItFails`, `Camera.SetupLeaks`.
* A card that leaves and comes back before the woken request looks at it leaves a channel taken:
  `Mmc.ReinsertionLeaks`, and over whole runs `Mmc.ReleasedUnlessForgotten`.
* The merge replaces only the first contained entry and can leave a second one beside the rule that contains it:
  `RegRules.AddedAntichain` says exactly when a step does, `RegRules.MergeAntichain` when a whole merge does, and
  `RegRules.IntersectionKeepsContained` has two valid domains whose intersection does. Ordered domains never do
  (`RegChains.OutputIsOrdered`).

## Model

| member | source | states |
|---|---|---|
| RegRules.MaxBandwidthFromRange | net/wireless/reg.c:1159-1206 | The two walks from a rule give the wrapped difference between the end of the last and the start of the first rule of its chain, and zero for a rule that is not in the domain |
| RegRules.LowIsMaximal | net/wireless/reg.c:1174-1187 | Every rule from the lower stop to the rule is linked to the next, and the rule below the stop is not linked to it |
| RegRules.HighIsMaximal | net/wireless/reg.c:1189-1203 | The same for the upper stop |
| RegRules.ChainIsWalked | net/wireless/reg.c:1174-1203 | A rule lies between the two stops exactly when an unbroken chain of touching neighbours connects it with the starting rule |
| RegRules.ChainSharesBandwidth | net/wireless/reg.c:1159-1206 | All rules of one chain have the same stops and get the same bandwidth |
| RegRules.ChainHasNoGap | net/wireless/reg.c:1174-1203 | Every frequency between the first start and the last end of a chain lies in one of its rules |
| RegRules.ChainBandwidthExact | net/wireless/reg.c:1205 | The unsigned difference is the plain width exactly when the chain does not run backwards |
| RegRules.AscendingStartsNeverWrap | net/wireless/reg.c:1205 | In a domain of valid rules whose starts ascend the difference never wraps |
| RegRules.CapsAre | net/wireless/reg.c:1208-1229 | The four caps on the bandwidth number, each under its own flag, the last only if both neighbours are forbidden |
| RegRules.PairContributes | net/wireless/reg.c:1232-1250 | A pair passes the sanity check exactly when its greater start is positive and below its smaller end |
| RegRules.IntersectRestricts | net/wireless/reg.c:1334-1430 | A valid intersection lies in both ranges, grants at most both powers, gains and bandwidths, waits at least both CAC times and carries the restriction flags of both; automatic bandwidth survives only if both have it |
| RegRules.IntersectIsMeet | net/wireless/reg.c:1334-1430 | A band passes the intersection exactly when it passes both rules with the bandwidth they grant |
| RegRules.IntersectIsGreatest | net/wireless/reg.c:1334-1430 | Any rule that restricts both rules of a pair restricts their intersection: it is not tighter than it has to be in any field |
| RegRules.WmmIsMeet | net/wireless/reg.c:1320-1332 | Category by category, in any place of client and access point tables: the longer contention windows and interframe space and the shorter channel occupancy; where one rule has no parameters, those of the other |
| RegRules.PairCommutes | net/wireless/reg.c:1320-1430 | Intersecting a pair of rules, WMM data included, does not depend on which domain comes first |
| RegRules.AddRule | net/wireless/reg.c:1460-1481 | In the array: the rule is dropped if the first related entry contains it, replaces that entry if it contains it, and is appended otherwise; nothing else changes |
| RegRules.AddedIs | net/wireless/reg.c:1460-1481 | A step in fields, with the first related entry given: no such entry, and the rule is appended; an entry with the same flags, at least the range and bandwidth and at most power and gain keeps it out; the other way round the rule takes its place |
| RegRules.WhatDisappears | net/wireless/reg.c:1433-1481 | An old entry gives way exactly when it is the first related one and the rule stands in that relation to it, field by field, but not it to the rule; the rule is left out exactly when the first related entry stands so to it |
| RegRules.AddedCovers | net/wireless/reg.c:1433-1481 | After adding, some entry has at least the range and bandwidth, the same flags and at most the power and gain of the rule, and likewise for everything so covered before, overwritten entries included |
| RegRules.MergeCovers | net/wireless/reg.c:1460-1481 | For every rule ever fed to the merge some entry of the final list has at least its range and bandwidth, its flags, and at most its power and gain |
| RegRules.AddedAntichain | net/wireless/reg.c:1460-1481 | A list without containment stays one after a rule is added exactly unless the first related entry is contained in the rule and a later one is too |
| RegRules.MergeAntichain | net/wireless/reg.c:1460-1481 | No prefix of the rules fed to the merge leaves one entry inside another exactly when no step overlooks a contained entry |
| RegRules.MergeKeepsContained | net/wireless/reg.c:1466-1477 | Of two unrelated rules and a third that contains both, in this order, the merge keeps the third and the second; with the third first it keeps only that |
| RegRules.IntersectionKeepsContained | net/wireless/reg.c:1496-1559 | Two valid domains whose intersection has a rule inside another one |
| RegRules.RulesIntersect | net/wireless/reg.c:1334-1430 | The intersection of a pair, and whether it counts as a rule |
| RegRules.CountPairs | net/wireless/reg.c:1518-1526 | The first pass counts exactly the pairs with a valid intersection |
| RegRules.MergePair | net/wireless/reg.c:1535-1552 | One pair of the second pass moves the array from the merge of the pairs met so far to the merge with this one, without leaving the array |
| RegRules.MergePairs | net/wireless/reg.c:1535-1552 | The second pass leaves the merge of all valid pairs in the array, and no append exceeds the count of the first pass |
| RegRules.RegdomIntersect | net/wireless/reg.c:1497-1559 | No domain if one is missing or no pair is valid; otherwise the merge of all valid pairs, the intersected country code, and the DFS region if both agree |
| RegRules.OutputIsPair | net/wireless/reg.c:1497-1559 | Soundness: every rule of the result is a valid intersection of some pair |
| RegRules.OutputRestricts | net/wireless/reg.c:1497-1559 | Every rule of the result is at most as permissive as a rule of each domain in range, power, gain, flags and CAC time, and records at most the bandwidth each of the two really grants |
| RegRules.PairIsCovered | net/wireless/reg.c:1496-1559 | Completeness: for every valid intersection of a pair some rule of the result starts no later, ends no earlier, is at least as wide, has the same flags and no more power and gain, although entries are dropped and overwritten on the way |
| RegRules.PairIsCoveredInFields | net/wireless/reg.c:1334-1559 | Completeness from the two rules alone: if their ranges have something in common above zero, an output rule has at least that range, the flags of both (automatic bandwidth if both have it), at least the smaller effective bandwidth as far as there is room, and at most the smaller power and gain |
| RegRules.IntersectionCommutes | net/wireless/reg.c:1496-1559 | Both orders give a domain or neither does, with equal code and DFS region; beside every rule of one result the other has one with at least the range and bandwidth, the same flags and at most the power and gain |
| RegRules.SpectrumIsExact | net/wireless/reg.c:1496-1559 | The result records a band exactly when some rule of each domain grants it (a pair whose ranges both start at zero aside) |
| RegRules.IntersectionIsValidRd | net/wireless/reg.c:1252-1270 | The result passes the domain check exactly when it has at most 128 rules |
| RegBandwidth.SealedIsEnough | net/wireless/reg.c:1159-1229 | For bands inside one rule, with automatic bandwidth worked out anew on the result: an intersection grants none that a sealed operand, first or second, does not grant |
| RegBandwidth.AscendingIsSealed | net/wireless/reg.c:1159-1229 | Valid rules whose starts and ends ascend make a sealed domain |
| RegBandwidth.StepStaysIn | net/wireless/reg.c:1377-1430 | One more intersection keeps what is in force within a sealed domain it was within before |
| RegBandwidth.SealedForGood | net/wireless/reg.c:1496-1559 | After any number of intersections, with any domains and either order of operands, no band inside one rule is granted beyond the sealed domain that was in force at first, nor beyond any sealed domain met on the way |
| RegChains.OutputIsOrdered | net/wireless/reg.c:1496-1559 | Two ordered domains intersect in an ordered one: all valid pairs in order, nothing dropped or replaced, none inside another |
| RegChains.ChainInside | net/wireless/reg.c:1159-1206 | The chain around a rule of the result begins and ends within the chain around the rule of an ascending domain it lies in |
| RegChains.ChainNoWider | net/wireless/reg.c:1159-1206 | A chain of the result that does not run backwards gets at most the bandwidth of the chain of an ascending operand it lies in |
| RegChains.ForwardIsExact | net/wireless/reg.c:1205 | With an ascending operand below 2^31 kHz that bound holds exactly when the chain does not run backwards |
| RegChains.OutputReaches | net/wireless/reg.c:1496-1559 | When the first domain ascends and its rules overlap by 2 kHz at most, no rule of the result begins beyond the end of a later one if none of the second domain does, through all drops and replacements of the merge |
| RegChains.OutputIsForward | net/wireless/reg.c:1496-1559 | Then no chain of the result runs backwards |
| RegChains.EffectiveNoWider | net/wireless/reg.c:1208-1229 | And each output rule has at most the effective bandwidth of the rule of the first domain it comes from, and of the second if that ascends, caps and new chains included |
| RegChains.NarrowIsEnough | net/wireless/reg.c:1208-1229 | So every rule of the result lies in a rule of the first domain with at least its bandwidth, and in one of the second if that ascends |
| RegChains.NumbersStep | net/wireless/reg.c:1377-1430 | One more intersection without backward chains keeps every bandwidth within an ascending domain it was within before |
| RegChains.NumbersForGood | net/wireless/reg.c:1496-1559 | After any number of ascending answers that overlap by 2 kHz at most, every bandwidth is within the domain in force at first, if that ascends, and within each answer, and no chain runs backwards |
| RegChains.NarrowIsExact | net/wireless/reg.c:1159-1229 | For a valid ascending domain: the overlaps are at most 2 kHz exactly when every valid domain with the same ranges, as first operand against every valid ascending one, keeps the bandwidth of the result within both |
| RegChains.TwoBandsAreSealed | net/wireless/reg.c:1208-1229 | An ordered and an ascending domain, both valid and sealed, whose rules have bandwidths of 80 and 400 MHz |
| RegChains.TwoBandsWrap | net/wireless/reg.c:1205 | Their intersection has a rule with the bandwidth of an underflow |
| RegChains.ChainIsMeet | net/wireless/reg.c:1159-1206 | Between ordered domains the chain around a rule of the result is exactly the common part of the chains around the two rules it comes from |
| RegChains.EffectiveIsMeet | net/wireless/reg.c:1208-1229 | So the bandwidth of two automatic rules' intersection is exactly the width of that common part under the caps of both |
| RegChains.EffectiveSpectrum | net/wireless/reg.c:1377-1394 | Between ordered domains the result really grants, inside one rule, exactly the bands a rule of each really grants, where joining the two HT40 flags leaves room |
| RegBandwidth.NestedWidens | net/wireless/reg.c:1466-1477 | Two valid domains, in starts that ascend, whose intersection has a rule of bandwidth 90 where the old one had 50, and grants a band the old one did not |
| RegLadder.LadderKeepsStair | net/wireless/reg.c:1535-1552 | Against any domain with a rule that spans a band, cut at the ends of its rules, the merge of the intervals between cuts, shorter first, stays one unbroken chain from the start of the band to the end reached so far |
| RegLadder.LadderGrants | net/wireless/reg.c:1159-1229 | For any band inside a rule with automatic bandwidth and below its caps there is a domain of valid rules whose intersection with the rule's domain grants the band; for a domain of up to eight rules it passes the domain check |
| RegLadder.SealedIsExact | net/wireless/reg.c:1377-1394 | For bands inside one rule: a domain is sealed exactly when no intersection, with any other domain in either order, grants one the domain does not grant; with up to eight rules, any other domain that passes the check |
| RegHints.WorldIsValid | net/wireless/reg.c:242-279 | The built-in world domain passes the domain check |
| RegHints.WorldIs | net/wireless/reg.c:242-279 | Its eight rules in kHz, with their widths, powers, gains and flags |
| RegHints.LettersAre | net/wireless/reg.c:404-409 | Of all characters exactly 52 are letters, and the small ones, they alone, become their capitals |
| RegHints.UserHintIs | net/wireless/reg.c:2681-2744 | What becomes of any user hint, from the last request, the country in force and the hint alone: accepted or not, the country remembered or not; an accepted one is an intersection exactly when a country element is last and no base station speaks |
| RegHints.DriverHintIs | net/wireless/reg.c:2747-2829 | The same for a driver's hint: alone after a core hint whose country is not the wanted one, settled where the country agrees after a core's or driver's, else an intersection; the device gets the domain in force unless the hint stands alone |
| RegHints.ElementHintIs | net/wireless/reg.c:2831-2917 | The same for a country element: nothing under a base station, from a device that ignores elements or without a database; else accepted if it names no country, if no element is last, or if its own device said another country than the one in force; never an intersection |
| RegHints.AgreementIs | net/wireless/reg.c:2681-2917 | Which of the hints that are not accepted agree with what is in force; the rest are ignored or name no country |
| RegHints.OtherHintsAre | net/wireless/reg.c:2668-2678 | The same for a core hint, and for a hint of a device that is not there |
| RegHints.WhoIntersects | net/wireless/reg.c:2681-2917 | Which accepted hints of all four initiators carry the intersection mark |
| RegHints.CoreAnswerIs | net/wireless/reg.c:3797-3803 | What an answer to a core hint leaves: the world, as the domain in force and the world domain, or nothing changed |
| RegHints.UserAnswerIs | net/wireless/reg.c:3805-3834 | What an answer to a user's hint leaves: remembered in any case; agreement, refusal, or in force, alone or intersected |
| RegHints.DriverAnswerIs | net/wireless/reg.c:3836-3899 | What an answer to a driver's hint leaves, with each return code exactly when it is given; no code but success changes anything, and with success the device keeps the answer |
| RegHints.ElementAnswerIs | net/wireless/reg.c:3901-3932 | What an answer to a country element leaves: in force if it names a country, is valid, and its device is there without an intersection asked for; else the code of the first that fails |
| RegHints.DevicesGo | net/wireless/reg.c:4104-4127 | The last request loses its device exactly when that one was there and no longer is |
| RegHints.AcceptedHintIsInstalled | net/wireless/reg.c:2660-2917 | For an accepted hint without intersection, a sane domain of its country installs exactly under a condition on hint and state, by initiator; then it is the current domain, else nothing changes in force |
| RegHints.RepeatedHintIsSettled | net/wireless/reg.c:2681-2917 | Repeating an installed and settled hint awaits no further answer and changes neither domain nor country, unless it is a country element that names no country and the database is asked again |
| RegHints.IntersectionRecordsBoth | net/wireless/reg.c:3826-3896 | After an intersecting answer the domain records exactly the bands both the answer and the old domain grant; after a user's one, plain user hints change nothing |
| RegHints.IntersectionGrants | net/wireless/reg.c:3826-3896 | For bands inside one rule: what it really grants is granted by the old domain if that is sealed and by the answer if that is sealed; it is one of the cuts that `RegBandwidth.SealedForGood` is about; ordered domains stay ordered |
| RegHints.IntersectionBandwidth | net/wireless/reg.c:3826-3896 | The bandwidth of each of its rules is within a rule of an ascending answer that overlaps by 2 kHz at most, and of the old domain if that ascends, as long as no rule of the old domain begins beyond the end of a later one; the new domain is again like that |
| RegHints.WorldAscends | net/wireless/reg.c:242-279 | The built-in world domain ascends, though its rules overlap, so that any run of such answers may start from it |
| RegHints.BandwidthCanWrap | net/wireless/reg.c:3826-3834 | A valid answer to a user's intersecting request, installed over a valid domain, both sealed, that leaves a rule with the bandwidth of an underflow |
| RegHints.IntersectionCanWiden | net/wireless/reg.c:3826-3834 | A valid answer to a user's intersecting request that is installed over a valid domain and grants a band inside one rule that the old domain did not grant |
| RegHints.InstalledIsSane | net/wireless/reg.c:3797-3998 | Without intersection the installed domain is the answer itself, so the warning at 3995 never fires; it is valid unless it came from a core hint or an intersection kept more than 128 rules |
| RegHints.AgreementOrOwnDomain | net/wireless/reg.c:3836-3871 | Agreement changes nothing in force; where the answer's country differs all the same, a driver's device had its own domain, and from then on plain user hints are ignored |
| RegHints.DriverKeepsItsDomain | net/wireless/reg.c:2747-3896 | From an intersecting driver hint to its answer: the intersection with the old domain is in force, the device keeps the answer, no other device changes |
| RegHints.WorldStaysOk | net/wireless/reg.c:321-365 | The world domain always has the rules of the built-in one or of the one in force |
| RegQueue.UserCountryIsRestored | net/wireless/reg.c:3392-3549 | An accepted user's country is asked for again right after the core hint by a restoration that keeps it; a reset forgets it and asks for the module parameter if that names a country |
| RegQueue.RestorationIs | net/wireless/reg.c:3392-3570 | What a restoration leaves, in values: domains, static request, the user's country, the hints before all that was queued, and when the cached branch is not taken |
| RegQueue.QueuedIs | net/wireless/reg.c:3198-3208 | A hint goes to the end of the list, in capitals, and the work is scheduled |
| RegQueue.LoggedIs | net/wireless/reg.c:3198-3385 | What a hint from outside looks like on the list: neither processed nor an intersection, with a device only from drivers and country elements |
| RegQueue.UnexpectedAnswer | net/wireless/reg.c:3947-3951 | An answer nobody waits for is refused and changes nothing |
| RegQueue.OneWorker | net/wireless/reg.c:3073-3196 | The worker stays inside its function until it has nothing to take or has taken its last look, and is not started again meanwhile |
| RegQueue.NoLostWakeup | net/wireless/reg.c:2642-2658 | Over every interleaving, whenever the RTNL is free, hints are queued and the last request is processed: the work item is scheduled, or runs and waits for the RTNL, or a thread that added a hint is about to schedule it |
| RegQueue.StepKeepsInv | net/wireless/reg.c:3073-3109 | Each atomic step keeps the wakeup invariant, also inside the RTNL sections |
| RegQueue.RunKeepsInv | net/wireless/reg.c:3073-3208 | Every run keeps it |
| RegQueue.AwakeTakesNext | net/wireless/reg.c:3189-3196 | From such a state the adder's and the worker's own steps take the head of the queue |
| RegQueue.OutstandingStays | net/wireless/reg.c:3073-3098 | An unprocessed request stays the last one until it is settled or a restoration replaces it; no hint leaves before, and the hint that leaves is the head |
| RegQueue.AnswerSettles | net/wireless/reg.c:3939-4009 | Every answer to the outstanding request, good or bad, leaves no request outstanding |
| RegQueue.BaseStationStep | net/wireless/reg.c:2681-2870 | While a settled base station's request is the last one, a step changes last request, domain, world domain or user's country exactly if it is one of the listed ending events |
| RegQueue.BaseStationStands | net/wireless/reg.c:2681-2870 | Over every run from there, all four stand at every point exactly as long as no core hint, driver's hint for a present device, changing base station's hint, each with a database to ask, or restoration occurs; other users and access points never move them |
| RegQueue.ElementStep | net/wireless/reg.c:2681-2744 | While a country element rules, or an intersection that a user asked for under it, a step that is not one of the ending events keeps that and stays within the sealed domain |
| RegQueue.ElementBoundsUsers | net/wireless/reg.c:2681-3834 | Over every run of such steps, whatever plain users ask for and whatever is installed for them: no band inside one rule is granted that the element's domain, if sealed, does not grant |
| RegQueue.ElementIsNotWidened | net/wireless/reg.c:2681-3834 | In particular, from a settled country element with a sealed domain in force, no band beyond that domain |
| RegQueue.OnlyTheseEndElement | net/wireless/reg.c:2681-2692 | What can end it: a judged hint other than a plain user's, a restoration, and an answer that cannot be installed |
| RegQueue.FirstComeFirstServed | net/wireless/reg.c:3490-3568 | Over every interleaving each outside hint is taken, stashed or queued exactly once; and all are in order of arrival exactly when no restoration put a non-empty stash behind hints that arrived meanwhile |
| RegQueue.StepIsTrayStep | net/wireless/reg.c:3073-3568 | A step adds one outside hint at the end, or keeps the order taken-stashed-queued, or swaps stash and queue, the last exactly at an overtaking splice |
| RegQueue.TodoIsAtomic | net/wireless/reg.c:3073-3109 | The worker's steps with nobody in between are the whole of the pending-hint processing |
| RegQueue.RestoreIsAtomic | net/wireless/reg.c:3468-3570 | The steps of a restoration with nobody in between put the core hint and the user's hint before everything queued, with the world domain in force and the work scheduled |
| RegQueue.AnswerIsAtomic | net/wireless/reg.c:3939-4009 | The steps of an answer with nobody in between settle the request or restore |
| RegRuns.ElementAcceptedTwice | net/wireless/reg.c:2839-2917 | A run in which two equal elements that name no country are queued while both may be; the first is in force and settled, the second outstanding, and a third would be dropped |
| RegRuns.HintOvertakesStash | net/wireless/reg.c:3498-3566 | A run with a hint between stash and splice after which the younger hint stands before the older |
| RegRuns.KeptDomainBlocksUsers | net/wireless/reg.c:3860-3871 | A run through installation, restoration and the same driver's hint that ends with the request processed, the world in force and every plain user hint ignored |
| RegCore.Core.constructor | net/wireless/reg.c:4320-4336 | Start: the static request and the static domain, no user country, empty queue, nothing freed |
| RegCore.Core.FreeRequest | net/wireless/reg.c:292-299 | A request is freed unless it is the static or the last one, and only if it was not freed before |
| RegCore.Core.UpdateLast | net/wireless/reg.c:301-319 | The replaced request is freed once, unless it is the static one or the new one itself; no request is lost |
| RegCore.Core.Accept | net/wireless/reg.c:309-319 | The hint is the last request, unprocessed; the old one is freed and the list untouched |
| RegCore.Core.SetRequestProcessed | net/wireless/reg.c:2642-2658 | The last request is processed in place and the work is scheduled if hints are queued |
| RegCore.Core.QueueRequest | net/wireless/reg.c:3198-3208 | The hint, with an upper-case country, is last in the list, which stays free of duplicates, and the work is scheduled |
| RegCore.Core.HintUser | net/wireless/reg.c:3233-3260 | Only the world or a two-letter country is queued, as a new request; otherwise EINVAL and no change |
| RegCore.Core.HintCountryIe | net/wireless/reg.c:3335-3390 | An element is queued exactly when its length is even and sufficient and no element of a present device is the last request |
| RegCore.Core.ProcessHintCore | net/wireless/reg.c:2668-2678 | A core hint is accepted or still the caller's to free |
| RegCore.Core.ProcessHintUser | net/wireless/reg.c:2681-2744 | A user hint is accepted, marked as an intersection or not as `RegHints.UserHintIs` says, or still the caller's to free |
| RegCore.Core.GiveDevice | net/wireless/reg.c:2797-2807 | The device's old domain is freed once and no two owners share the new one |
| RegCore.Core.ProcessHintDriver | net/wireless/reg.c:2747-2829 | The device gets its own copy of the domain in force before the hint is accepted, settled or refused; no domain is lost |
| RegCore.Core.ProcessHintCountryIe | net/wireless/reg.c:2831-2917 | An element is accepted, freed when it agrees, or still the caller's to free, and never freed twice |
| RegCore.Core.ProcessOne | net/wireless/reg.c:3002-3053 | Whatever the initiator, the hint ends as the last request or freed once, and the state is what the machine computes |
| RegCore.Core.ProcessPendingHints | net/wireless/reg.c:3073-3109 | At most the head of the list is taken, only when the last request is processed, and no request or domain is lost |
| RegCore.Core.MakeDomain | net/wireless/reg.c:446-463 | A new domain belongs to nobody yet and was never freed |
| RegCore.Core.Plug | net/wireless/reg.c:4078-4102 | A new device has no domain of its own and nothing else changes |
| RegCore.Core.ApplyCustom | net/wireless/reg.c:2603-2638 | The device gets its own copy of its driver's domain and its old one is freed once; no domain is lost |
| RegCore.Core.Unplug | net/wireless/reg.c:4104-4125 | The device's domain is freed once and the last request forgets the device |
| RegCore.Core.ResetRegdomains | net/wireless/reg.c:321-348 | The domain in force and the world domain are freed, once when they are the same, the static one never; nothing still held was freed |
| RegCore.Core.SaveUserRegdom | net/wireless/reg.c:466-473 | The user's old copy is freed and a new one kept; the answer is still the caller's |
| RegCore.Core.SetRdCore | net/wireless/reg.c:3797-3803 | The world's answer is in force and is the world domain too; any other is still the caller's |
| RegCore.Core.SetRdUser | net/wireless/reg.c:3805-3834 | Installed, the answer is in force or freed in favour of the intersection; refused, it is still the caller's |
| RegCore.Core.SetRdDriver | net/wireless/reg.c:3836-3899 | Without intersection the device keeps a copy and the core the answer; with one the device keeps the answer itself |
| RegCore.Core.SetRdCountryIe | net/wireless/reg.c:3901-3932 | The answer is in force or still the caller's |
| RegCore.Core.SetRd | net/wireless/reg.c:3957-3976 | By the initiator of the last request, and after saving the user's domain whether or not it is sane |
| RegCore.Core.Restore | net/wireless/reg.c:3468-3570 | The last request is the static one, its predecessor freed; new hints stand before the stashed ones, none lost or doubled |
| RegCore.Core.Reject | net/wireless/reg.c:3981-3993 | A failed installation restores everything and frees the answer |
| RegCore.Core.SetRegdom | net/wireless/reg.c:3939-4009 | Every answer, unexpected, refused, agreed or installed, ends held or freed exactly once, and so does every copy made on the way; state and code are those of the machine |
| Ring.MaskIsMod | drivers/rda/md.c:261-272 | Masking with a power of two minus one is reduction modulo that power |
| Ring.WrapThenMask | drivers/rda/md.c:261-272 | 32-bit wrap-around of pointer arithmetic does not disturb the masked result |
| Ring.UnreadSize | drivers/rda/md.c:261-272 | The masked pointer difference is the number of unread bytes |
| Ring.UnreadDrop | drivers/rda/md.c:281-292 | Moving the tail drops exactly that many bytes from the front |
| Ring.StretchesAre | drivers/rda/md.c:245-258 | The stretch read at once, and the one written at once (drivers/rda/md.c:473-489), are as long as they can be: all that is unread, or all that is free but one byte, up to the end of the array |
| Ring.UnreadAppend | drivers/rda/md.c:495-506 | Overwriting the free stretch and moving the head appends exactly those bytes |
| Ring.Channel.EqualPointersMeanEmpty | drivers/rda/md.c:245-258 | Equal pointers mean empty, never full |
| Ring.Channel.Masked | drivers/rda/md.c:261-272 | Masking a wrapped word gives its residue modulo the ring size |
| Ring.Channel.ReadAvail | drivers/rda/md.c:261-272 | The number of unread bytes |
| Ring.Channel.WriteAvail | drivers/rda/md.c:451-462 | The mask minus the number of unread bytes |
| Ring.Channel.PacketWriteAvail | drivers/rda/md.c:464-470 | Free bytes beyond a header, never below zero |
| Ring.Channel.ReadBuffer | drivers/rda/md.c:245-258 | The contiguous stretch is a prefix of the unread bytes, and empty only if there are none |
| Ring.Channel.ReadDone | drivers/rda/md.c:281-292 | The channel loses exactly the counted bytes from its front |
| Ring.Channel.Read | drivers/rda/md.c:308-334 | The first min(len, used) bytes move to the buffer in order, the rest of the buffer stays, and the loop ends |
| Ring.Channel.ReadHdr | drivers/rda/md.c:336-373 | Returns the bytes a read would, changing nothing |
| Ring.Channel.PacketPeek | drivers/rda/md.c:389-416 | Fewer than 16 bytes: EAGAIN; wrong magic: EINVAL; else header plus padded payload length |
| Ring.Channel.ReadPacket | drivers/rda/md.c:418-448 | Result, remaining bytes and buffer of a sized packet read on every path, short and malformed packets included |
| Ring.Channel.WriteBuffer | drivers/rda/md.c:473-490 | The writable stretch at the head always leaves one byte free, and is empty only when the ring is full |
| Ring.Channel.WritePiece | drivers/rda/md.c:495-506 | The channel gains exactly the copied bytes at its end |
| Ring.Channel.StreamWrite | drivers/rda/md.c:508-537 | Appends exactly the first min(len, mask - used) bytes, across the wrap, and the loop ends |
| Ring.Channel.WritePacket | drivers/rda/md.c:539-553 | Busy and unchanged, or everything that fits is appended and the full length reported |
| Ring.PacketWriteAllOrNothing | drivers/rda/md.c:539-553 | Above the header size: busy exactly when less than len bytes are free, else all of them are appended; a bare header is never busy and complete exactly when 16 bytes are free |
| Ring.HeaderIsJudged | drivers/rda/md.c:389-448 | From the bytes of a whole header: another magic than 0xA8B1 is an error once the header is taken, no payload means the header is all, a payload beyond the buffer is an error, else as much of the padded payload is read as there is |
| Ring.ShortIsJudged | drivers/rda/md.c:389-430 | With less than a header a peek asks to come again; a read below the size of a header is an error and one of an empty channel gives nothing; none takes anything |
| Words.Align4Is | drivers/rda/md.c:412-434 | Padding goes to the next multiple of four |
| RingSpsc.StepKeepsInv | drivers/rda/md.c:245-334 | Each snapshot, byte copy and pointer update of either side keeps the invariant |
| RingSpsc.RunKeepsInv | drivers/rda/md.c:473-537 | Every interleaving keeps it |
| RingSpsc.UnreadIsSlice | drivers/rda/md.c:245-258 | What lies between the pointers is what was published and not received |
| RingSpsc.NothingLostOrInvented | drivers/rda/md.c:281-334 | Over every interleaving, bytes received followed by bytes between the pointers are the bytes published |
| RingSpsc.WriteGoesThrough | drivers/rda/md.c:473-537 | A writer whom nobody interrupts publishes the first bytes of its data, as many as there is room for |
| RingSpsc.ReadGoesThrough | drivers/rda/md.c:281-334 | A reader whom nobody interrupts gets the oldest bytes not received yet, as many as it asked for and there are |
| RingSpsc.WriterNeverHitsUnread | drivers/rda/md.c:473-506 | The stretch being written holds no unread byte, and the stretch being read holds nothing else |
| RingSpsc.EqualPointersMeanAllReceived | drivers/rda/md.c:245-258 | Equal pointers exactly when everything published was received |
| Frames.DecodeEncode | drivers/rda/md_sys.c:834-885 | A frame unpacks to itself whatever follows it |
| Frames.PeekFrame | drivers/rda/md.c:389-416 | Peeking at a whole frame gives its padded length |
| Frames.ReadFrame | drivers/rda/md.c:418-448 | Reading the peeked length returns that length, takes exactly that frame and puts it in the buffer |
| Frames.SendKeepsStep | drivers/rda/md.c:539-553 | A send appends the whole frame or nothing |
| Frames.ReceiveKeepsStep | drivers/rda/md.c:389-448 | A receive takes exactly the oldest waiting frame |
| Frames.ReceiveIs | drivers/rda/md.c:389-448 | A receive, by the bytes at hand: nothing without a whole header that begins with the magic, a whole frame if it is there, and the loss of what there is of an incomplete one |
| Frames.FramesComeBack | drivers/rda/md_sys.c:834-885 | Over every list of sends and receives, 4-aligned frames come out as the accepted list, in order, across all wraps, the rest being what the ring holds |
| Frames.ReadOfPartialFrame | drivers/rda/md.c:389-448 | Of a frame published up to some byte, a peek from the header on tells the whole length, and the read of that length returns only what is there, with no error: short exactly as long as the frame is incomplete |
| Frames.BareHeaderNeedsRoom | drivers/rda/md.c:464-470 | For a bare header that holds exactly when 16 bytes are free |
| Frames.Pump | drivers/rda/md_sys.c:834-885 | The bytes offered to the ring are, by offset, magic, module, device, zero, message number, length and data of the message; the ring gains them whole if they fit, and otherwise, a bare header aside, the write is busy and nothing changes |
| Frames.PackedIsOnTheWire | drivers/rda/md_sys.c:834-885 | So the packed frame of a message is those bytes, as the modem reads them (the layout is that of include/rda/plat/rda_md.h:187-194) |
| Frames.MessagesComeBack | drivers/rda/md_sys.c:834-885 | End to end, over every list of messages pumped and frames taken: what comes out carries the module, device, message number and data of the accepted messages, one by one and in order |
| Frames.Take | drivers/rda/md.c:389-448 | Peek and sized read on the ring return the first frame and leave the rest |
| Frames.Drain | drivers/rda/md_sys.c:698-796 | A ring full of frames empties into exactly their list |
| MsysSend.StepKeepsInv | drivers/rda/md_sys.c:174-279 | Each step of a sender, a timeout or the worker keeps the list and message invariant |
| MsysSend.EveryEventListRuns | drivers/rda/md_sys.c:174-279 | Every list of events has a run, so the statements about runs speak of all interleavings |
| MsysSend.RunKeepsInv | drivers/rda/md_sys.c:730-784 | Every reachable state satisfies the invariant |
| MsysSend.WritesHitLiveMessages | drivers/rda/md_sys.c:730-784 | Whenever the worker is about to write a message, its sender has not returned; a returned sender's message is off the list |
| MsysSend.ReturnedIsFinal | drivers/rda/md_sys.c:229-279 | From the return of its sender on, a message never changes and never is on the list again |
| MsysSend.CompletedOnce | drivers/rda/md_sys.c:730-784 | No message is completed twice, no reply completes two, replies complete in order; each entry of the log names a completed message whose device is the reply's request number and whose number plus 0x8000 is the reply's, and which carries its length, status and parameters, or out of memory if they do not fit; each completed message has such an entry |
| MsysSend.OldestIsMatched | drivers/rda/md_sys.c:737-743 | A reply finds a message exactly when one with its device and, flag added, its number still waits, and then the oldest such |
| MsysSend.ReturnValue | drivers/rda/md_sys.c:229-279 | A woken sender returns the status left by a reply with its own device and number; any other return is that of a refused write or a timeout |
| MsysSend.ReturnCause | drivers/rda/md_sys.c:219-262 | A sender that returns the failure code had its write refused in this run, and one that returns the timeout code saw its wait expire |
| MsysSend.SenderIs | drivers/rda/md_sys.c:174-279 | Where each step leaves each sender, with the code it returns: ten busy writes stop it, a refused write and a timeout withdraw, a completion wakes |
| MsysSend.SendIs | drivers/rda/md_sys.c:181-206 | A message joins the list behind the others, with nothing delivered and the status no reply brings |
| MsysSend.FilledIsDelivered | drivers/rda/md_sys.c:745-763 | The worker's writes leave exactly what the reply brought |
| MsysSend.FillIn | drivers/rda/md_sys.c:745-763 | The field-by-field writes are that filling |
| MsysSend.SectionIs | drivers/rda/md_sys.c:730-784 | The worker's steps for one reply, with nobody in between, unlink, fill and complete the first match, or change nothing but the count of replies |
| MsysSend.SectionCompletes | drivers/rda/md_sys.c:730-784 | In values: the first message on the list with the device and number of the reply, if any, is unlinked, filled in and completed once, and no other message and no other place of the list changes |
| MsysSend.PendingList.ProcessReply | drivers/rda/md_sys.c:730-784 | The scan of the list returns the place of the first message with the device and number of the reply; that message is unlinked, filled in and completed, or nothing but the count of replies changes when there is none |
| MsysRx.RxMaster.constructor | drivers/rda/md_sys.c:888-918 | No slot in use, nothing pending, late init not done |
| MsysRx.RxMaster.FindSlot | drivers/rda/md_sys.c:651-663 | Takes the first free slot, or -22 with no change when all are in use |
| MsysRx.RxMaster.Handle | drivers/rda/md_sys.c:572-644 | The frame of the slot is handled once and the slot is free |
| MsysRx.RxMaster.DrainPending | drivers/rda/md_sys.c:683-693 | All pending frames are handled in list order and their slots freed |
| MsysRx.RxMaster.ReadIntoSlot | drivers/rda/md_sys.c:696-714 | With a whole frame in the ring, the sized read after the peek cannot fail: the frame is in the slot and off the ring, or no slot was free and nothing changed |
| MsysRx.RxMaster.Dispatch | drivers/rda/md_sys.c:729-795 | A reply frees its slot; another frame is handled after late init and pending before it |
| MsysRx.RepliesAreFlagged | drivers/rda/md_sys.c:729-730 | A frame is a reply exactly if the top bit of its message number is set |
| MsysRx.RxMaster.RxWork | drivers/rda/md_sys.c:665-799 | A whole run of the worker, drain or receive loop, has the specified effect and never reaches its error branch |
| MsysRx.RunIsWork | drivers/rda/md_sys.c:665-799 | The rounds of a run with nothing in between have the effect of the worker |
| MsysRx.StepKeeps | drivers/rda/md_sys.c:683-796 | Each arrival, beginning, round or late init keeps slots and replies, and the order unless it overtakes |
| MsysRx.OrderAndSlots | drivers/rda/md_sys.c:683-796 | At every point of every history, with arrivals and late init anywhere, also inside runs: slots in use are exactly the distinct pending ones, and replies are each delivered or waiting exactly once in arrival order; so are, or are pending, asynchronous frames as long as no round overtakes pending ones |
| MsysRx.OrderIsExact | drivers/rda/md_sys.c:683-796 | For frames that differ: the order holds at every point of a history exactly when no round overtakes |
| MsysRx.OrderWithoutFlips | drivers/rda/md_sys.c:1218-1233 | It holds when late init never falls into the receive loop while frames are pending |
| MsysRx.RestOfRun | drivers/rda/md_sys.c:785-795 | After a flip inside a run pending frames stay pending while later ones go to the handler; slots and replies are kept |
| MsysRx.HandsOverWhen | drivers/rda/md_sys.c:696-795 | A run with the flag on hands a frame to the handler exactly when a slot is free and an asynchronous frame waits |
| MsysRx.FlipInsideRun | drivers/rda/md_sys.c:1218-1233 | A flip inside a run in whose rest no further frame arrives keeps the order exactly when, at the flip, nothing is parked, or no slot is free, or no asynchronous frame waits |
| MsysRx.FlipWithArrivals | drivers/rda/md_sys.c:1218-1233 | With frames arriving during the rest of the run: the order is kept exactly when nothing is parked at the flip or the rest hands no frame to the handler |
| MsysRx.FlipReorders | drivers/rda/md_sys.c:683-795 | A history of two frames, the first parked by one run, with late init inside the next, which hands out the second frame while the first stays pending |
| ClkDiv.GetDivReg | drivers/rda/ap_clk.c:118-159 | The chosen setting is nearest to the wanted quotient among all entries of its mode, larger dividers winning ties; halved mode is chosen exactly when its best is at least as near as the direct best |
| ClkDiv.Scan | drivers/rda/ap_clk.c:133-136 | The scan stops at the entry the specification names |
| ClkDiv.NearestSplits | drivers/rda/ap_clk.c:79-136 | Every other entry lies on the far side of a midpoint from the wanted divider |
| ClkDiv.TableIs | drivers/rda/ap_clk.c:79-112 | The divider table in values |
| ClkDiv.DirectIsBest | drivers/rda/ap_clk.c:133-136 | The direct scan minimises the distance over the table |
| ClkDiv.HalvedIsBest | drivers/rda/ap_clk.c:126-155 | The scan on the truncated half minimises the distance to the doubled entries |
| ClkDiv.ReadBackRate | drivers/rda/ap_clk.c:161-172 | A quarter of the rate read back is the base divided by the effective divider, the nested truncations notwithstanding |
| ClkDiv.QuotientOfQuotient | drivers/rda/ap_clk.c:118-172 | Dividing the base by its quotient gives the divider back exactly when the remainder is below the quotient |
| ClkDiv.LargeBase | drivers/rda/ap_clk.c:118-172 | From 230400 on that is so for every divider |
| ClkDiv.ReadBackAndSet | drivers/rda/ap_clk.c:118-172 | Searching for a rate just read back finds the same effective divider, for every base from 230400 and any setting, and for smaller bases whose remainder is below the quotient |
| ClkDiv.UartDividerFits | drivers/rda/ap_clk.c:1165-1208 | The divider written for any rate fits its ten bits |
| ClkDiv.UartIsNearest | drivers/rda/ap_clk.c:1165-1208 | For every rate between the clamps no other divider comes nearer, and of two as near the larger is written; beyond the clamps the divider of the clamp |
| ClkDiv.UartReadBack | drivers/rda/ap_clk.c:915-942 | Setting the rate that was read leaves the divider as it was, for all ten-bit dividers |
| PmDdr.GetAndPutKeepOk | drivers/rda/pm_ddr.c:50-94 | Taking and giving keep the bit of each master set exactly while its count is positive, and giving undoes taking |
| PmDdr.IdleMeansUnheld | drivers/rda/pm_ddr.c:97-103 | The map is empty exactly when the counts sum to zero |
| PmDdr.DdrManager.Get | drivers/rda/pm_ddr.c:50-69 | One more reference, or an error and no change for an invalid master |
| PmDdr.DdrManager.Put | drivers/rda/pm_ddr.c:72-94 | One reference less, never below zero |
| PmDdr.DdrManager.IdleStatus | drivers/rda/pm_ddr.c:97-103 | Idle exactly when nobody holds the DDR |
| Ifc.TookAndFreedKeepOk | drivers/rda/ifc.c:135-240 | Taking a free channel and freeing one keep: an owned channel holds one DDR reference, a free one none; freeing undoes taking |
| Ifc.Controller.TransferStart | drivers/rda/ifc.c:203-240 | The granted channel is owned by the request and holds the DDR, or nothing changes when none is granted |
| Ifc.Controller.TransferStop | drivers/rda/ifc.c:264-271 | The channel has no owner and its reference is given back |
| Mmc.HostStepKeepsOk | drivers/rda/rda_mmc.c:461-815 | A host knows a channel only inside a piece, has taken it once more than released, and what woke it without releasing is the card's departure |
| Mmc.CheckReleases | drivers/rda/rda_mmc.c:786-808 | The end of a piece releases a channel still held exactly when the card is gone or an error is noted |
| Mmc.BusEffect | drivers/rda/rda_mmc.c:266-346 | A step leaves the controller alone, takes one free channel, or frees the host's own |
| Mmc.SysStepKeepsOk | drivers/rda/rda_mmc.c:461-815 | Ownership, DDR references and the hosts' records agree after every step of any host |
| Mmc.RunKeepsOk | drivers/rda/rda_mmc.c:635-815 | They agree over every interleaving of hosts, interrupts, timeouts and card events without reinsertion during a request |
| Mmc.AllReleasedAtRest | drivers/rda/rda_mmc.c:635-902 | A host outside a piece has released each channel it took exactly once; with all hosts at rest no channel is owned, no reference held and no bit set |
| Mmc.ReinsertionLeaks | drivers/rda/rda_mmc.c:1112-1142 | A run in which the card returns before the woken request looks ends at rest with a channel owned and a reference held |
| Mmc.PartsTile | drivers/rda/rda_mmc.c:845-894 | The parts of a request follow each other on the card and in memory and add up to it; on host 2 no multiple-block command starts at an odd block |
| Mmc.PartsCommand | drivers/rda/rda_mmc.c:845-894 | Every part of a read request is a read and every part of a write request a write; a split happens exactly for a multiple-block request of several blocks at an odd block on host 2, and there a part has a single-block command exactly when it has one block; any other request is one part with its own command |
| Mmc.FlagsAre | drivers/rda/rda_mmc.c:461-808 | Over every step of a host: the error is set exactly by what notes one and cleared by a new request, the handler flag is set by an interrupt with a card and taken back by the tasklet, and what wakes the request |
| Mmc.WaitIs | drivers/rda/rda_mmc.c:761-783 | A wait goes on when woken and into the timeout branch when not |
| Mmc.EndIs | drivers/rda/rda_mmc.c:786-808 | A piece has moved exactly when no error is noted and the card is there; otherwise it timed out or failed |
| Mmc.AgainIs | drivers/rda/rda_mmc.c:857-894 | After a timeout and a refusal no further piece follows, after anything else the next does |
| Mmc.RequestsDiffer | drivers/rda/rda_mmc.c:287-294 | Each host and direction has its own request number, in pairs from 10 on with writes first (include/rda/mach/ifc.h:20-25) |
| Mmc.ReleasedUnlessForgotten | drivers/rda/rda_mmc.c:266-346 | Over every run, reinsertions included, a host has released every channel it took exactly when it knows none and no step of its made it forget one: a start over a known channel, or an error tasklet after the request ended |
| Mmc.LateTaskletReleases | drivers/rda/rda_mmc.c:482-536 | A channel still known when its request ends is released after all by a tasklet that runs once the next request has begun |
| Mmc.StepKeepsTally | drivers/rda/rda_mmc.c:786-902 | Each step keeps what the host accounts for equal to the tally of its request's pieces |
| Mmc.RunKeepsTally | drivers/rda/rda_mmc.c:635-902 | So does every run of all hosts, and only the last piece of a request can have stopped it |
| Mmc.TallyIsWhole | drivers/rda/rda_mmc.c:792-807 | The whole request is accounted for exactly when every piece moved |
| Mmc.DoDataTransfer | drivers/rda/rda_mmc.c:786-902 | The loop over the parts stops where it should and counts the bytes of that same tally |
| Mmc.BlockSize | drivers/rda/rda_mmc.c:268-285 | The smallest power of two that is at least 4 and holds the block, with its exponent |
| Mmc.Driver.constructor | drivers/rda/rda_mmc.c:320-346 | A new host knows no channel and has taken and released none |
| Mmc.Driver.HalDataTransferStart | drivers/rda/rda_mmc.c:266-318 | Start refused or channel taken, as in the machine |
| Mmc.Driver.HalDataTransferStop | drivers/rda/rda_mmc.c:320-346 | A known channel is freed once and forgotten; an unknown one is left alone |
| Mmc.Driver.DoDataAbort | drivers/rda/rda_mmc.c:461-480 | The channel is freed and the error noted |
| Mmc.Driver.DoDataComplete | drivers/rda/rda_mmc.c:482-520 | Both ways to stop free the channel once; an unfinished DMA or a bad write CRC is an error |
| Mmc.Driver.Tasklet | drivers/rda/rda_mmc.c:522-536 | The machine's tasklet step |
| Mmc.Driver.DetIrq | drivers/rda/rda_mmc.c:1112-1142 | The machine's card step: a departure wakes the request |
| Mmc.Driver.GetCd | drivers/rda/rda_mmc.c:1078-1106 | Polling the detection pin changes only whether a card is there, and wakes nobody |
| Mmc.Driver.EndOfPiece | drivers/rda/rda_mmc.c:786-808 | The machine's end of a piece, with the count of what moved |
| Camera.FallIsExact | drivers/rda/media/rda_camera_8810.c:341-427 | A falling edge keeps the DDR reference right exactly unless it finds a stale success with no next buffer and another address in the register; queue and history are kept always |
| Camera.SetupIsExact | drivers/rda/media/rda_camera_8810.c:432-456 | A `queue_setup` outside a start keeps queue, reference and history right exactly when the list is empty |
| Camera.StepIsExact | drivers/rda/media/rda_camera_8810.c:341-616 | A step keeps all of them right exactly unless it is a falling edge on a stale success or a setup over a list |
| Camera.StateIs | drivers/rda/media/rda_camera_8810.c:391-416 | The state that a falling edge judges from, after every event |
| Camera.PhaseIs | drivers/rda/media/rda_camera_8810.c:544-616 | Which events start and stop the stream, and the one start that follows a null pointer |
| Camera.WorkIs | drivers/rda/media/rda_camera_8810.c:308-322 | What the vsync work picks and writes, and when |
| Camera.RoseIs | drivers/rda/media/rda_camera_8810.c:377-427 | When a rising edge counts as served since the last falling one |
| Camera.SetupAndStopAre | drivers/rda/media/rda_camera_8810.c:432-456 | A setup outside a start forgets active and next and numbers from zero; a stop of the DMA gives one reference back at most |
| Camera.RunIsExact | drivers/rda/media/rda_camera_8810.c:341-616 | Over every run they are right at every point exactly when no such step occurred |
| Camera.SetupLeaks | drivers/rda/media/rda_camera_8810.c:450-452 | A run with a setup while a buffer is being filled that ends stopped, with a DDR reference held |
| Camera.HandleKeepsHistory | drivers/rda/media/rda_camera_8810.c:341-375 | Completing the active buffer keeps the completion history and moves the queue up |
| Camera.StepKeepsInv | drivers/rda/media/rda_camera_8810.c:377-616 | Each event keeps the queue, reference and history invariant when the signal alternates and no setup comes over a list |
| Camera.RunKeepsInv | drivers/rda/media/rda_camera_8810.c:432-616 | Over every such run: active and next are the first two of the list; every queued buffer is completed or queued once, in order, done ones numbered consecutively since the last setup; the DDR is held once exactly while streaming with a buffer |
| Camera.StopCompletesAll | drivers/rda/media/rda_camera_8810.c:574-616 | A stop or a failed start, vsync work pending or not, completes every buffer ever queued, the waiting ones as errors, and gives the DDR back |
| Camera.StepKeepsAddrInv | drivers/rda/media/rda_camera_8810.c:308-427 | With the vsync work undisturbed, the address register names the active or the next buffer after each event |
| Camera.RunKeepsAddrInv | drivers/rda/media/rda_camera_8810.c:308-427 | Then every run on any signal keeps reference and history right |
| Camera.WithoutEitherItFails | drivers/rda/media/rda_camera_8810.c:308-427 | A run that breaks both conditions ends with the DMA on, one reference and no buffer |
| Camera.Device.StartDmaNow | drivers/rda/media/rda_camera_8810.c:254-271 | One more DDR reference, the DMA on, the active buffer's address in the register |
| Camera.Device.StopDmaNow | drivers/rda/media/rda_camera_8810.c:273-281 | The DMA off and one reference less |
| Camera.Device.QueueSetup | drivers/rda/media/rda_camera_8810.c:450-452 | The machine's setup step |
| Camera.Device.BufferQueue | drivers/rda/media/rda_camera_8810.c:496-523 | The machine's queueing step |
| Camera.Device.Complete | drivers/rda/media/rda_camera_8810.c:341-375 | The machine's completion |
| Camera.Device.Isr | drivers/rda/media/rda_camera_8810.c:377-427 | The machine's interrupt step, other DDR masters untouched |
| Camera.Device.HandleVsync | drivers/rda/media/rda_camera_8810.c:308-322 | The machine's vsync work |
| Camera.Device.StartStreaming | drivers/rda/media/rda_camera_8810.c:544-551 | The machine's start |
| Camera.Device.FinishStart | drivers/rda/media/rda_camera_8810.c:553-587 | The machine's start result; a failure gives every buffer back |
| Camera.Device.StopStreaming | drivers/rda/media/rda_camera_8810.c:589-616 | The machine's stop |

## Left out

- RegQueue.NoLostWakeup: about uncached restorations; the cached branch of `restore_regulatory_settings` (net/wireless/reg.c:3522-3543), which takes the last list entry for its own, is no step of the machine, and neither is a reload of the database.
- RegHints.AcceptedHintIsInstalled: allocation failures are left out, and whether a database can be asked is a parameter.
- RegHints.WorldIsValid: the flag bits of the world domain are distinct names, because the header that numbers them is not part of this model.
- RegCore.Core.SetRegdom: RCU delays a free and a reader may still look; here a free is a mark, and what is proved is that no owner keeps a marked object.
- RegCore.Core.Unplug: the static request's device index, which the code leaves at zero, is none here.
- RegCore.Core.Plug: self-managed devices, notifier calls and the count of devices that support cellular hints are left out; that count is a parameter where it is read.
- RegLadder.SealedIsExact: beyond eight rules the widening domain has valid rules but may have more than 128 of them.
- RegChains.NarrowIsExact: about ascending domains; a domain whose rules do not ascend may give a wrapped number of its own accord. For any one result `RegChains.ForwardIsExact` decides each chain.
- RegCore.Core.HintCountryIe: letters are ASCII, the environment byte is dropped, and the shortest element is taken as 6 bytes, because the headers that say so are not part of this model.
- RegRules.OutputRestricts: says nothing of WMM parameters, which the code neither checks nor compares; where neither rule has any, the code clears `has_wmm` and leaves the last pair's parameters behind it, the model no data.
- RegRules.RegdomIntersect: flags are a set whose header constants are not part of this model; a bit the code does not look at is one opaque element.
- Per-channel flags, beacon hints, indoor setting, DFS propagation, self-managed devices, netlink events, notifier calls and the signed database file.
- RingSpsc.NothingLostOrInvented: memory is sequentially consistent; the barriers and the placement of the control block in shared memory are not modelled.
- Ring.Channel.ReadPacket: the buffer has at least the length the caller names; port locks, statistics and notification are left out.
- Frames.FramesComeBack: for 4-aligned payloads, the ones senders are allowed; a bare header is asked to find 16 free bytes, and `Frames.BareHeaderNeedsRoom` shows that this is exact.
- MsysSend.CompletedOnce: a reply carries no number, so it may be a late one for an earlier send with the same key; no claim that it answers this very send.
- MsysSend.ReturnValue: ten busy writes stop the sender for good, as the BUG does; wait times, a null device, the debug switch and the endless wait for a modem that is off are not modelled.
- MsysRx.OrderAndSlots: the peek, the read and the dispatch of one frame are one round, since the modem only appends behind it.
- MsysRx.RxMaster.RxWork: frames arrive whole; `Frames.ReadOfPartialFrame` says what a read does otherwise. No claim that frames left in the ring after a drain run or with all slots in use are read later; slots hold whole frames and not 256 bytes; what handlers and the panic path do is left out.
- ClkDiv.GetDivReg: for requested rates of at least 4, below which the code divides by zero.
- ClkDiv.UartReadBack: for the slow UART clock; the locking of the clock registers is left out.
- Mmc.RunKeepsOk: a stop, a tasklet run and a start with its completion set-up are one step each; two cards are not exchanged inside one request, see `Mmc.ReleasedUnlessForgotten`.
- Mmc.DoDataTransfer: how each piece ends is a parameter of the loop; the machine of the host is tied to it by an equal tally.
- Mmc.PartsTile: one segment per request, as the driver announces; the bounce buffer of older chips is left out.
- Ifc.Controller.TransferStart: eight channels, and the allocator register never grants an owned one; scatter-gather channels and flushing are left out.
- PmDdr.DdrManager.Get: the bit map is a set; the spinlock makes each call one step.
- Camera.RunKeepsInv: the signal alternates, or the vsync work is undisturbed (`Camera.RunKeepsAddrInv`); buffers are set up and queued and streams started and stopped under the queue lock of videobuf2, which is not part of this model; the three writes of a setup are one step; the sequence counter does not wrap.
- Probe and remove code, device tree, sysfs, debugfs, regulators, sensor tables, clock framework tables, cpufreq, I2C and MMC bus clock rounding, and the VPU frequency handshake that is compiled out.
