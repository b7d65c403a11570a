# AegisIQ: containment, detection and guards

A Dafny model of the parts of AegisIQ whose guarantees span many calls: the
containment protocol between the SIEM and its kill-switch agents, the agent's
hash-chained ledger, the two rate limiters, the Sigma condition evaluator, the
alert, lockout and one-time-password guards, the offline grouping of uploaded
events and the log scrubber. `dafny verify dfyconfig.toml` checks all of it.

| module | what it holds |
|---|---|
| `PyText`, `Arithmetic` | the Python text operations, and the facts about whole numbers, the others rely on |
| `Signing` | signed headers, the clock window, the bounded memory of nonces |
| `Orders`, `SoarServer`, `OrderQueue` | the server's tables and operations: as functions on the three tables, as an object that updates them, and what a poll hands over |
| `GuardRails`, `Containment` | what may be ordered, which actions an alert leads to and which agent gets them, said apart from the code |
| `Protocol`, `Delivery`, `Application`, `Repetition`, `Mirror` | server, network and agents as one step system, and what every run keeps |
| `FailSafe`, `BlockHistory`, `AgentLoop`, `HashChain` | the agent: scheduled unblocks, what is blocked told from the events alone, one turn of its loop, its ledger |
| `RateLimit` | the in-process limiter and the Lua script with its expiring keys |
| `SigmaParser`, `SigmaCondition`, `SigmaText`, `SigmaTrees` | the parser on tokens, the textual passes, their meaning, and trees against text |
| `Alerting`, `Lockout`, `Totp`, `LogRedaction` | the smaller guards |
| `Grouping`, `Timeline` | offline findings and the activity chart |

How it is put together:

- Operations that update state in the source are methods on classes (or loops),
  each proved equal to a function of the old state. The theorems are about runs
  of those functions.
- A run of the protocol is any sequence of steps of the server, the
  administrators, the agents and the network. The network may lose, delay,
  reorder and repeat responses and reports, and agents' clocks are their own. A
  step that is not possible leaves the system as it is, so every sequence of
  steps is a run.
- The MAC and the hash are parameters. Of the MAC it is assumed that it prints as
  hexadecimal digits, of the hash nothing. Where a guarantee rests on them, the
  lemma names the collision that breaking it takes, or asks for an injective hash.
- The clock, fresh nonces and identifiers, the results of firewall and account
  commands, and the outcome of each Sigma selection are inputs.

What the proofs bring out about the code:

- The memory of nonces is emptied, not trimmed, when it exceeds 10,000. A response
  still inside its minute is accepted again once its block of 10,000 acceptances
  is over, so an order in one of a block's last answers is the exposed one: the
  next acceptance forgets it. At most once holds up to 10,001 acceptances and no
  further (`Repetition.SafeUpToIff`); `Repetition.AppliedTwice` is the run.
  `Application.AcceptedIff` is the exact condition of a single acceptance.
- `record` hashes the whole output and stores its first 2048 characters, so the
  walk reports a longer output as tampering. `HashChain.RecordedAcceptedIff` is
  exact.
- A bar in the action, target, output or signature of any row makes two different
  ledger tables indistinguishable, and command output may well hold one. Two tables
  with bars in outputs only are told apart, but the walk does not check that. A
  table is the only one with its last hash exactly when none of the four texts
  holds a bar, up to NULL outputs, which print as None.
- The in-process limiter grants a first call even when the burst is below 1; the
  script refuses it. At a rate of zero or below no call is refused in the process:
  the division raises, or the wait is negative, so burst + 1 calls at one instant
  pass. At zero the script's wait is endless, and the check of the shared store
  then raises. Bound and agreement hold exactly when burst and rate are at least
  1. Over the shared store the bound also holds at burst 0, where nothing passes;
  at rate zero it fails because the keys expire, and with them the empty bucket.
- An order that expires, or is never reported, leaves its action pending.
  Dispatching an action a second time breaks the agreement between its status and
  its orders, whatever comes of the second dispatch.
- Responding to an alert dispatches pending actions. If the database then fails to
  store an order, or to mark a refusal, the action stays pending without an order.
  A lost mark of a stored order does no harm.
- The playbook's own description sets CRITICAL and HIGH alerts apart and blocks the
  address on a privilege rule. The code treats both alike and then only disables
  the account. `Containment.DecisionsExact` is what it does.
- The events a correlation names are cut to five, and the success that makes it a
  compromise stands behind at least five failures: it is never among them
  (`Grouping.SampleExact`).
- Before the clock has counted as many steps as the window, `verify` raises on
  every numeric code.
- A response whose MAC has characters outside ASCII raises in the comparison. It is
  not applied, and the turn ends without its expiry pass.
- An automatic unblock that fails is not retried. The module documentation of the
  executor promises that the agent ends a block by itself; the code does so only
  if the first attempt works.
- The correlation detector's own description speaks of failures "and then" a
  success. The code asks for five failures in all and a success after the first
  of them.

## Model

| member | source | states |
|---|---|---|
| Signing.NonceMemory.VerifyBody | backend/app/soar/executor.py:84-111 | accepts exactly the headers with three non-empty fields, a whole-number time within 60 seconds, an unremembered nonce and the right MAC; a MAC outside ASCII raises once the other tests are passed; an acceptance is remembered, anything else changes nothing, and the memory never holds more than 10,000 nonces between calls |
| Signing.HeaderRoundTrip | backend/app/soar/executor.py:76-93 | parsing a printed header gives back its three fields, for all field texts without commas |
| PyText.ParseAround | backend/app/soar/executor.py:97-100 | a whole number in digits is read with its sign and with blanks on either side |
| PyText.ParseGroups | backend/app/soar/executor.py:97-100 | two groups of digits joined by an underscore read as the digits without it |
| PyText.ParseRefuses | backend/app/soar/executor.py:97-100 | a text with any other character in it is no whole number |
| Signing.SignedHeaderAccepted | backend/app/soar/executor.py:76-111 | a signed header is accepted if and only if the clock is within 60 seconds of its time and its nonce is not remembered |
| Signing.RefusedOnNextCall | backend/app/soar/executor.py:102-110 | a header just accepted is refused by the next call at any time, even when its acceptance emptied the memory |
| Signing.MaterialInjective | backend/app/soar/executor.py:79-80 | the signed text determines time, nonce and body |
| Signing.TamperedBodyNeedsCollision | backend/app/soar/executor.py:104-106 | a header signed for one body is accepted with another body only if two texts share a MAC |
| Signing.ForeignMacRaises | backend/app/soar/executor.py:98-106 | a header in time whose MAC holds a character outside ASCII raises an exception in the comparison; out of time or replayed it is refused before that |
| Signing.MemoryIsEpoch | agent/kill_switch_agent_v2.py:133-144 | after any run of acceptances the memory is exactly the nonces of the current epoch, all different |
| Signing.EpochsAreBlocks | agent/kill_switch_agent_v2.py:139-143 | epochs are blocks of 10,000 acceptances: 1 to 10,000, 10,001 to 20,000 and so on |
| Signing.RefusedIffInCurrentEpoch | agent/kill_switch_agent_v2.py:133-143 | a nonce is refused if and only if it was accepted in the current epoch |
| Signing.NoRepeatWithinFirstEpoch | agent/kill_switch_agent_v2.py:133-143 | up to 10,000 acceptances no nonce is accepted twice |
| Signing.FullMemoryForgets | agent/kill_switch_agent_v2.py:139-143 | with a full memory one more acceptance forgets every nonce it held: the bound is needed |
| HashChain.Ledger.Record | agent/kill_switch_agent_v2.py:298-308 | one row is appended with the entry's action, target and signature, success as 1 or 0, the first 2048 characters of the output, and the last row's hash; its own hash covers the whole output |
| HashChain.Ledger.Verify | agent/kill_switch_agent_v2.py:452-470 | the walk prints exactly the specified findings and returns 0 if and only if there are none, 3 otherwise |
| HashChain.FindingsExact | agent/kill_switch_agent_v2.py:455-467 | a row is reported as a broken chain exactly when it does not name the hash of the row before it (64 zeros for the first), as tampered exactly when its contents do not hash to its hash |
| HashChain.MaterialExact | agent/kill_switch_agent_v2.py:301-301 | the hashed text is time, action, target, success as 1 or 0, output (None when NULL), signature and previous hash, with bars between; the first previous hash is 64 zeros |
| HashChain.SilentIffAccepted | agent/kill_switch_agent_v2.py:452-470 | no finding if and only if every row is chained and sealed |
| HashChain.EncodingInjective | agent/kill_switch_agent_v2.py:301-301 | without bars in action, target and signature the hashed text determines the row; the output may hold bars |
| HashChain.TextDeterminesRowIff | agent/kill_switch_agent_v2.py:301-301 | a row is determined by its hashed text if and only if none of action, target, printed output and signature holds a bar |
| HashChain.BarIsAmbiguous | agent/kill_switch_agent_v2.py:452-470 | wherever a row of an accepted table holds a bar in one of those texts, a different table with the same hashed texts and the same last hash is accepted, whatever the hash function |
| HashChain.TipDeterminesHistory | agent/kill_switch_agent_v2.py:294-308 | two accepted tables with the same last hash agree row by row, or two of their hashed texts collide or hash to the genesis value; for tables with bars in outputs only, and for any rival of a table without bars |
| HashChain.TipDeterminesHistoryIff | agent/kill_switch_agent_v2.py:452-470 | an accepted table is the only one with its last hash, row by row, if and only if no row holds a bar in those four texts (or its own texts break the hash) |
| HashChain.TipDeterminesTableIff | agent/kill_switch_agent_v2.py:452-470 | and the only one outright if and only if, besides, no output prints as None |
| HashChain.SameRowsAreEqual | agent/kill_switch_agent_v2.py:279-291 | without NULL outputs, agreeing row by row is being equal |
| HashChain.NullOutputIsAmbiguous | agent/kill_switch_agent_v2.py:286-286 | a NULL output and the text None are told apart by no accepted chain |
| HashChain.RecordedRowSealed | agent/kill_switch_agent_v2.py:301-306 | a recorded row is sealed when its output has at most 2048 characters; a longer one only on a collision |
| HashChain.RecordedAcceptedIff | agent/kill_switch_agent_v2.py:298-308 | with an injective hash, a table built by recording is accepted if and only if no output was longer than 2048 characters |
| RateLimit.RateLimiter.ConsumeOne | backend/app/security/rate_limit.py:83-106 | one call updates one bucket as specified and answers its wait; other buckets keep their contents |
| RateLimit.RateLimiter.Check | backend/app/security/rate_limit.py:62-81 | refuses exactly on a positive wait, with a whole number of seconds above it and at most one second more |
| RateLimit.SharedStore.RefillAndConsume | backend/app/security/rate_limit.py:138-164 | the script run on two expiring keys, and on no other identity's keys; at a rate of zero the wait is endless |
| RateLimit.SharedStore.Check | backend/app/security/rate_limit.py:190-219 | passes when the store cannot be reached, refuses on a positive wait with a whole number of seconds above it, fails on an endless one |
| RateLimit.TtlCoversRefill | backend/app/security/rate_limit.py:190-200 | what flows in during the key lifetime fills any bucket, so a dropped key would have been full |
| RateLimit.SameStep | backend/app/security/rate_limit.py:138-164 | one call on matching states gives the same wait and matching states |
| RateLimit.SameAnswers | backend/app/security/rate_limit.py:83-106 | with a token to start with and a refill, on every run with a clock that does not go back, both limiters answer every call with the same wait |
| RateLimit.AgreeIffSensible | backend/app/security/rate_limit.py:83-164 | they do so on every such run if and only if burst and rate are at least 1 |
| RateLimit.FirstCallAgreesIff | backend/app/security/rate_limit.py:90-93 | on a first call the two agree if and only if the burst is at least 1 |
| RateLimit.GrantsAccounted | backend/app/security/rate_limit.py:95-106 | with a refill, grants in a stretch plus the level at its end never exceed the level at its start plus rate * seconds / 60 |
| RateLimit.AccountedIffRefills | backend/app/security/rate_limit.py:95-106 | that accounting holds of every stretch of every run if and only if the rate is at least 1 |
| RateLimit.GrantsBounded | backend/app/security/rate_limit.py:83-106 | one identity is granted at most burst + rate * seconds / 60 in a stretch of so many seconds, whatever others do |
| RateLimit.BoundedIffSensible | backend/app/security/rate_limit.py:83-106 | the bound holds of every stretch of every run if and only if burst and rate are at least 1; otherwise one call, or burst + 1 at one instant, break it |
| RateLimit.SharedGrantsBounded | backend/app/security/rate_limit.py:138-164 | over the shared store, too, one identity is let through at most burst + rate * seconds / 60 times |
| RateLimit.SharedBoundedIff | backend/app/security/rate_limit.py:138-164 | there the bound holds of every stretch of every run if and only if burst and rate are at least 1, or the burst is 0 and the rate not negative; otherwise one call, burst + 1 at one instant, or burst + 1 each after the keys are gone, break it |
| RateLimit.WaitIsExact | backend/app/security/rate_limit.py:104-106 | a caller told to wait w is refused at every call before now + w, each time with what is left, and granted at its first call from then on |
| RateLimit.PromisesKeptIff | backend/app/security/rate_limit.py:104-106 | every such wait is exact if and only if the burst is at least 1, or nobody is ever told to wait |
| RateLimit.WaitAfterBurst | backend/app/security/rate_limit.py:95-106 | whoever has spent the burst at once is told by either limiter to wait exactly 60 / rate seconds |
| RateLimit.TtlExact | backend/app/security/rate_limit.py:197-198 | the keys live for twice the whole seconds a bucket takes to fill, and at least a minute |
| SigmaParser.ParseOr | backend/app/detection/sigma.py:306-311 | value and position are those of the tree built from the tokens |
| SigmaParser.ParseAnd | backend/app/detection/sigma.py:314-319 | value and position are those of the tree built from the tokens |
| SigmaParser.ParseNot | backend/app/detection/sigma.py:322-326 | value and position are those of the tree built from the tokens |
| SigmaParser.ParseAtom | backend/app/detection/sigma.py:329-342 | value and position are those of the tree built from the tokens |
| SigmaParser.EvalTokenList | backend/app/detection/sigma.py:348-354 | None on an empty list, an error or left-over tokens, the value otherwise |
| SigmaParser.EvalTokensIff | backend/app/detection/sigma.py:306-354 | a token list has value b if and only if it is the reading of a tree of the grammar that denotes b |
| SigmaParser.TreeUnique | backend/app/detection/sigma.py:306-342 | no token list is the reading of two trees: not binds tighter than and, and tighter than or |
| SigmaParser.ShapeSteers | backend/app/detection/sigma.py:306-311 | where the or-level function reads a tree, it reads the same tree with the other truth values from every token list of the same shape |
| SigmaParser.EachConsumesAlike | backend/app/detection/sigma.py:306-342 | each of the four parse functions succeeds and reads as far, or fails, alike on all token lists that differ only in truth values |
| SigmaParser.EvalMonotone | backend/app/detection/sigma.py:306-354 | without not, making truth values true never makes the value false |
| SigmaCondition.TokenizeCondition | backend/app/detection/sigma.py:289-303 | the position loop yields the specified token list, or None where it raises |
| SigmaCondition.EvaluateCondition | backend/app/detection/sigma.py:357-402 | the three passes over the text yield the specified truth value, false on every failure |
| SigmaCondition.RuleMatches | backend/app/detection/sigma.py:405-413 | a selection that raised counts as not matched; the last selection of a name wins |
| SigmaCondition.ResultsExact | backend/app/detection/sigma.py:407-412 | the names with a result are those of the selections, and each result is that of the last selection of its name |
| SigmaText.PlainAfterQuantifiers | backend/app/detection/sigma.py:373-379 | replacing quantifiers in the text is replacing the quantifier lexemes, for every text |
| SigmaText.TokenizeReads | backend/app/detection/sigma.py:289-303 | tokenizing the substituted text is reading the lexemes one by one |
| SigmaText.EvaluateReads | backend/app/detection/sigma.py:357-402 | for every text, the three textual passes and the parser hold exactly when the lexemes read as tokens of a true tree |
| SigmaTrees.PrintedLexemes | backend/app/detection/sigma.py:373-392 | a printed tree is cut into exactly its own lexemes |
| SigmaTrees.PrintedEvaluates | backend/app/detection/sigma.py:357-402 | every tree the grammar allows, printed, evaluates to what it means, quantifiers over the selections whose names start with the pattern but for its stars |
| SigmaTrees.ThemEvaluates | backend/app/detection/sigma.py:364-371 | all of them, or of the star, holds if and only if there is a selection and all hold; 1 of them if and only if one holds |
| SigmaTrees.PrefixEvaluates | backend/app/detection/sigma.py:364-371 | over a word and any stars the same, of the selections whose names start with that word |
| SigmaTrees.QuantifierSpelling | backend/app/detection/sigma.py:374-379 | capitals and the number and kind of blanks do not change the value of a quantifier |
| SigmaTrees.KeywordSpelling | backend/app/detection/sigma.py:385-386 | capitals do not change the token a keyword stands for |
| SigmaTrees.EveryTreeEvaluates | backend/app/detection/sigma.py:357-402 | any tree, bracketed where the grammar needs it, evaluates to its meaning |
| SigmaTrees.EvaluateIff | backend/app/detection/sigma.py:357-402 | a text is true if and only if its tokens are those of a true tree; everything else is false |
| SigmaTrees.ShapeIndependent | backend/app/detection/sigma.py:357-402 | whether a condition can be read and parsed does not depend on which selections matched |
| SigmaTrees.QuantifiedMonotone | backend/app/detection/sigma.py:363-371 | a quantifier that holds still holds when more selections match |
| SigmaTrees.ConditionMonotone | backend/app/detection/sigma.py:357-402 | a condition without not is monotone in the selections |
| OrderQueue.PendingOldest | backend/app/soar/executor.py:305-309 | an order a poll leaves waiting is no older than any it handles, and then it handles fifty |
| OrderQueue.PayloadFacts | backend/app/soar/executor.py:311-329 | the payload holds an item for a handled row exactly when the row is in time, with its identifier, action, target, alert and time of creation, in the rows' order |
| OrderQueue.CollectedInOrder | backend/app/soar/executor.py:289-332 | each item handed over carries the action and target of an order that was queued for that endpoint and in time; items are in order of creation; a disabled or unknown agent gets none |
| OrderQueue.PollExact | backend/app/soar/executor.py:305-329 | a poll hands over each of at most fifty orders that is in time and marks it delivered now, retires each that is not, and changes no other |
| OrderQueue.PollSeen | backend/app/soar/executor.py:295-303 | it notes time and address on the row of an enabled agent, and nothing for any other |
| OrderQueue.PollShrinks | backend/app/soar/executor.py:305-323 | a poll takes fifty orders off the queue, or all there are |
| OrderQueue.BacklogDrains | backend/app/soar/executor.py:289-332 | after k polls a backlog of n is n - 50k, and so gone after n / 50 rounded up |
| SoarServer.Server.QueueOrder | backend/app/soar/executor.py:179-206 | one queued row is added behind the others |
| SoarServer.Server.Execute | backend/app/soar/executor.py:209-261 | every branch: no verb, refusal, no agent, order queued and action pending, and a database that fails to store the order or the status; verdict included |
| SoarServer.Server.RevokeOrder | backend/app/soar/executor.py:264-275 | the inverse is queued for the same endpoint, or nothing happens |
| SoarServer.Server.MarkAction | backend/app/soar/executor.py:278-285 | status and detail of one action, nothing else, and nothing at all when the commit fails |
| SoarServer.Server.Collect | backend/app/soar/executor.py:289-332 | tables, agent row and payload after a poll |
| SoarServer.Server.HandOver | backend/app/soar/executor.py:311-329 | the delivery loop settles exactly the pending rows and hands over exactly the payload |
| SoarServer.Server.Report | backend/app/soar/executor.py:335-361 | the first order with that identifier and endpoint takes the outcome, and its action with it |
| SoarServer.Server.RespondToAlert | backend/app/soar/engine.py:93-168 | the actions of the playbook are recorded, and each dispatched when execution is on, with a database that may fail to store any order or any status |
| Orders.RespondUnfailing | backend/app/soar/engine.py:93-152 | with a database that never fails such a response is the one that runs of the protocol are made of |
| GuardRails.ConsoleHostsExact | backend/app/soar/executor.py:115-121 | the protected console hosts are what stands in a configured origin behind its first double slash, or at its start, up to the next slash or colon |
| GuardRails.RefusedIffNotAllowed | backend/app/soar/executor.py:124-155 | an order is refused if and only if its target is blank, is no address or one that is loopback, link-local, multicast, reserved, unspecified, a console host or private where that is off, or is one of the four protected accounts or a configured one; and the reason given is true |
| Containment.DecisionsExact | backend/app/soar/engine.py:54-135 | an alert leads to an action if and only if it is severe and its rule one of the kinds the playbook lists for it (to a word to the analyst otherwise), and it carries a target, which the action names |
| Containment.DecisionsInOrder | backend/app/soar/engine.py:54-60 | two actions for one alert are the disabled account first and the blocked address second |
| Containment.AgentForExact | backend/app/soar/executor.py:158-176 | the agent chosen is the first enabled one of that host name, else the first of that endpoint, else the only enabled one |
| Containment.DispatchExact | backend/app/soar/executor.py:209-261 | an action becomes an order if and only if agents know its verb, it is allowed and there is an agent; the order carries its verb and target, and every other case is noted or left alone |
| Containment.FaultyExact | backend/app/soar/executor.py:247-285 | under a failing database an order that cannot be stored leaves everything as it was and is answered with the internal error; a note that cannot be stored leaves the actions as they were |
| Containment.RevokeExact | backend/app/soar/executor.py:264-275 | a block or a disabled account is undone by the opposite verb for the same endpoint and target, as long as the endpoint is registered |
| Containment.ReportExact | backend/app/soar/executor.py:335-361 | a report concludes the first order of that identifier and endpoint with its outcome and the first 2048 characters of its output, and its action; about no such order it changes nothing |
| Protocol.InverseSameRefusal | backend/app/soar/executor.py:62-65 | an inverse passes the guard rails exactly when the original does, and has no inverse itself |
| Protocol.RevocationIsFinal | backend/app/soar/executor.py:264-275 | revoking a revocation does nothing |
| Protocol.ExecuteExtends | backend/app/soar/executor.py:209-261 | dispatching adds at most one row, fresh, queued and past the guard rails |
| Protocol.StepOnOrders | backend/app/soar/executor.py:179-361 | every step of the system either adds fresh rows past the guard rails or lets rows keep their identity and leave the queue for good |
| Protocol.EveryOrderAllowed | backend/app/soar/executor.py:124-155 | in every run every order ever stored has one of the four verbs and a target it is allowed for: no protected address, no protected account, revocations included |
| Protocol.UidsStayDistinct | backend/app/soar/executor.py:189-204 | in every run order identifiers are distinct |
| Delivery.DeliveredInTime | backend/app/soar/executor.py:311-329 | in every run everything handed over carries the action and target of an order of that endpoint, no later than it expires, and queued no more |
| Delivery.DeliveredOnce | backend/app/soar/executor.py:305-331 | in every run no order is in two payloads or twice in one |
| Delivery.DeliveredInCreationOrder | backend/app/soar/executor.py:305-329 | in every run the payloads of an endpoint laid end to end are in order of creation |
| Delivery.DeliveredWhileEnabled | backend/app/soar/executor.py:296-303 | in every run each payload was answered to a poll at a moment its agent was enabled |
| Delivery.EndpointsStayDistinct | backend/app/soar/executor.py:296-303 | in every run no two agents are registered under one endpoint, so the agent a poll finds is the only one of that name |
| Application.CheckIsSignature | agent/kill_switch_agent_v2.py:117-144 | what a receiving step asks of a response is the signature check on the header signed for that endpoint |
| Application.OtherAgentNeedsCollision | agent/kill_switch_agent_v2.py:135-138 | another agent accepts it only if two secrets give one text the same MAC |
| Application.MemoryKept | agent/kill_switch_agent_v2.py:320-322 | in every run an agent's nonce memory is the one its acceptances produce |
| Application.AcceptedIff | agent/kill_switch_agent_v2.py:117-144 | in every run a response is accepted if and only if it is addressed to the agent, fresh, and not accepted before in the current epoch |
| Application.ReappliedOnlyWhenForgotten | agent/kill_switch_agent_v2.py:427-443 | in every run an order is applied twice only through its one response, accepted again after the memory was emptied |
| Application.AppliedAtMostOnce | agent/kill_switch_agent_v2.py:427-443 | in every run with at most 10,001 acceptances no order is applied twice, whatever the network repeats |
| Repetition.SafeUpToIff | agent/kill_switch_agent_v2.py:139-143 | at most once holds of every run with at most n acceptances if and only if n is at most 10,001 |
| Repetition.ForgottenAtBlockEnd | agent/kill_switch_agent_v2.py:139-143 | in every run, once a new block has begun, each response of the block just ended is accepted again if and only if it is still within its minute |
| Repetition.AppliedTwice | agent/kill_switch_agent_v2.py:427-449 | for every target that leads to an order and every pause between turns of up to half a minute, a run that applies the order with acceptance 10,000 and again with acceptance 10,002 |
| Repetition.ReappliedWithinTwoMinutes | agent/kill_switch_agent_v2.py:131-134 | in every run two applications of one order happen at most 120 seconds apart by the clock of the agent |
| Application.AppliedByItsAgent | agent/kill_switch_agent_v2.py:434-443 | in every run whatever an agent applied is an order of its own endpoint that was handed over, with the verb and the target it was stored with |
| Application.AppliedIsAllowed | backend/app/soar/executor.py:124-155 | so no agent ever acts on a protected address or account, in any run |
| Application.AppliedByOneAgent | agent/kill_switch_agent_v2.py:434-443 | no two agents apply one order |
| Application.OutcomesAreReal | backend/app/soar/executor.py:335-348 | in every run an order is succeeded or failed only if its agent applied it with that outcome and output |
| Application.EveryApplicationReported | agent/kill_switch_agent_v2.py:436-443 | in every run each order an agent applied stands in a report it sent, with the outcome and output it produced |
| Application.ConcludedWhileEnabled | backend/app/api/routes/response.py:330-348 | an order is concluded by a report alone, from an endpoint registered and enabled when it arrives |
| Mirror.MirroredIffFirstDispatch | backend/app/soar/executor.py:209-261 | dispatching leaves an action mirroring its orders if and only if it had no order before |
| Mirror.MirroredIffMarked | backend/app/soar/executor.py:247-285 | under a failing database a first dispatch leaves the action mirrored if and only if: its order stored, the mark was too or the action was pending before; no order stored, it was a refusal and marked, or the action was simulated before |
| Mirror.ResponseMirroredIff | backend/app/soar/engine.py:93-152 | under a failing database responding to an alert leaves every action mirrored if and only if, of the actions dispatched, each that could become an order was stored and each refused one was marked |
| Mirror.EveryActionMirrored | backend/app/soar/engine.py:93-168 | in every run that dispatches no action twice every action mirrors its order |
| Mirror.ActionTellsItsOrder | backend/app/soar/executor.py:335-361 | in those runs a verb action is simulated if and only if it has no order; otherwise it has exactly one and is executed, failed or pending as that one succeeded, failed or neither |
| FailSafe.KillSwitch.ApplyOrder | agent/kill_switch_agent_v2.py:371-382 | a successful block leaves the address blocked and scheduled, a successful unblock neither, anything else changes nothing |
| FailSafe.KillSwitch.ExpireScheduled | agent/kill_switch_agent_v2.py:385-397 | everything due is attempted once, recorded in the ledger and forgotten, one after the other; the rest stays |
| FailSafe.ExpiryFollowsLastBlock | agent/kill_switch_agent_v2.py:377-381 | in every run each expiry is the last successful block of that address plus the configured minutes |
| FailSafe.AllScheduledBlocked | agent/kill_switch_agent_v2.py:371-397 | in every run a scheduled address is blocked |
| FailSafe.InStepIffNoneFailed | agent/kill_switch_agent_v2.py:385-397 | an event keeps blocked and scheduled addresses the same if and only if no automatic unblock failed in it |
| FailSafe.InStepWhileUnblocksWork | agent/kill_switch_agent_v2.py:371-397 | in every run whose automatic unblocks worked the blocked addresses are exactly the scheduled ones |
| FailSafe.BlockedOnlyRecently | agent/kill_switch_agent_v2.py:385-397 | after a tick of such a run every expiry is still to come, and every blocked address was blocked less than the configured time ago |
| FailSafe.StrandedUntilOrdered | agent/kill_switch_agent_v2.py:385-397 | an address whose automatic unblock failed stays blocked and off the schedule until an order names it |
| BlockHistory.OrderExact | agent/kill_switch_agent_v2.py:371-382 | a supported order that succeeds blocks and schedules its address the configured minutes ahead, or frees it of both, and touches no other address |
| BlockHistory.ScheduledIff | agent/kill_switch_agent_v2.py:371-397 | in every run the schedule holds exactly the blocks that no later order for the address and no pass past their time has settled |
| BlockHistory.BlockedIff | agent/kill_switch_agent_v2.py:371-397 | in every run an address is blocked if and only if its last successful block is later than its last successful unblock, ordered or automatic |
| BlockHistory.AttemptsExact | agent/kill_switch_agent_v2.py:387-396 | an expiry pass writes one entry for each block that has run out, with the outcome and answer of its unblock |
| AgentLoop.Agent.CarryOutOne | agent/kill_switch_agent_v2.py:435-443 | one order: host, ledger row and report, an unsupported one as a failure |
| AgentLoop.Agent.CarryOut | agent/kill_switch_agent_v2.py:433-443 | each order is applied, recorded and reported in turn |
| AgentLoop.Agent.Tick | agent/kill_switch_agent_v2.py:427-449 | one turn: a failed fetch, a check that raises, a refused answer, the orders parsed from the verified body up to an error between or inside them, expiry unless an error came first; memory, host, ledger and reports after it |
| AgentLoop.TurnExact | agent/kill_switch_agent_v2.py:427-449 | case by case: nothing after a failed fetch or check, only the expiry pass after a refusal, otherwise the orders in turn up to the error, and the expiry pass when there is none |
| AgentLoop.OrdersSupported | agent/kill_switch_agent_v2.py:245-270 | of the orders of any run agents on Linux and Windows carry out all, on macOS those about addresses, elsewhere none |
| AgentLoop.TurnsAreRuns | agent/kill_switch_agent_v2.py:427-449 | after any number of turns the host has gone through the events of all of them, and the ledger is the one recording all their entries builds |
| AgentLoop.BlockedIsScheduled | agent/kill_switch_agent_v2.py:371-449 | after any number of turns whose automatic unblocks worked the blocked addresses are exactly the scheduled ones, and after an expiry pass each was blocked less than the configured time ago |
| AgentLoop.LedgerPassesIff | agent/kill_switch_agent_v2.py:436-470 | with an injective hash the ledger an agent has written in any number of turns is accepted if and only if no recorded output was longer than 2048 characters |
| AgentLoop.Agent.VerifyLedger | agent/kill_switch_agent_v2.py:409-410 | the walk over the agent's own ledger returns 0 exactly then |
| Alerting.AlertTable.CreateAlert | backend/app/detection/alerting.py:62-90 | one new row with the given fields; the key defaults to the source address |
| Alerting.AlertTable.Fire | backend/app/detection/rules/brute_force.py:57-89 | the calling convention: nothing for another type of event, without a key or below the threshold; check with the window ending at the log, create only when nothing suppresses |
| Alerting.AlertsApart | backend/app/detection/alerting.py:47-59 | in every run, whatever the order of the logs, two alerts of one rule and key are more than a window apart |
| Alerting.AlertsOfRunInSpan | backend/app/detection/alerting.py:47-59 | a span holds at most one alert more than whole windows fit in it |
| Alerting.OneOpenAlert | backend/app/detection/alerting.py:52-53 | if no alert is reopened, at most one per rule and key is open |
| Alerting.RaisesIff | backend/app/detection/alerting.py:30-59 | a detection raises an alert if and only if its type of event is the rule's, it has a key (its own or the source address), the threshold is reached and all earlier ones of the key are resolved or false and before the window |
| Lockout.User.RegisterFailure | backend/app/security/lockout.py:73-91 | counts, or locks and clears the counter at the threshold; off when the threshold is not positive; rolled back when the commit fails |
| Lockout.User.RegisterSuccess | backend/app/security/lockout.py:94-103 | counter and lock are cleared, a clean row is left alone, and so is any row when the commit fails |
| Lockout.User.Unlock | backend/app/security/lockout.py:106-110 | counter and lock are cleared |
| Lockout.SecondsRemainingExact | backend/app/security/lockout.py:66-70 | an account stays locked for the whole seconds named and is free before one more has passed; none are named when it is not locked |
| Lockout.FailuresConserved | backend/app/security/lockout.py:80-86 | failures since the reset are threshold times locks plus the counter, which stays below the threshold |
| Lockout.LocksEveryThreshold | backend/app/security/lockout.py:82-85 | a failure locks exactly when it completes a block of threshold failures |
| Lockout.LockExact | backend/app/security/lockout.py:60-86 | after the failure that locks it the account is locked for exactly the configured time; with a threshold of zero or below none ever locks |
| Lockout.LockHolds | backend/app/security/lockout.py:60-63 | with a guarding caller the next failure after a lock comes no sooner than the lock lasts |
| Lockout.FailuresInSpan | backend/app/security/lockout.py:60-91 | with a guarding caller a span holds fewer than threshold * (span / lock + 2) failures |
| Totp.Verify | backend/app/security/totp.py:70-84 | the loop over the window: the first step that matches, the exception of the first counter out of range or of comparing text outside ASCII, or false |
| Totp.AnswerExact | backend/app/security/totp.py:70-84 | true if and only if the code is ASCII, the window reaches no negative counter and a step within it has the code; false on text that is no number and, with all counters in range, on other codes |
| Totp.CodeBytesInsideDigest | backend/app/security/totp.py:57-60 | the four code bytes lie inside the twenty-byte MAC and lose only their top bit (section 5.3 of RFC 4226) |
| Totp.TruncationExact | backend/app/security/totp.py:58-60 | the low four bits of the last byte say where the code starts, and it is those four bytes, the most significant first, without the top bit (section 5.3 of RFC 4226) |
| Totp.PublishedExample | backend/app/security/totp.py:53-61 | the example of section 5.4 of RFC 4226 |
| Totp.CodeIsSixDigits | backend/app/security/totp.py:60-61 | every code is six decimal digits that read as the truncated value modulo a million |
| Totp.FreshCodeAccepted | backend/app/security/totp.py:64-84 | a code made at one time is accepted at every time within 30 times the window (section 5.2 of RFC 6238), if and only if no counter of the window is negative; otherwise the call raises |
| Totp.OnlyNearbyCodes | backend/app/security/totp.py:70-84 | a match is the code of an instant at most window periods away, and conversely |
| LogRedaction.LogRecord.Filter | backend/app/security/log_redaction.py:47-64 | message and arguments are scrubbed in place, text ones only, and the record always passes |
| LogRedaction.KeyLengthExact | backend/app/security/log_redaction.py:30-33 | a text starts with at most one sensitive key, and the leftmost alternative that matches is it |
| LogRedaction.ParameterRedacted | backend/app/security/log_redaction.py:30-33 | the value of each of the seven parameters, in any mix of capitals, is replaced up to the next ampersand, quote or blank |
| LogRedaction.KeysAreSensitive | backend/app/security/log_redaction.py:30-33 | no other parameter is |
| LogRedaction.ScrubIdempotent | backend/app/security/log_redaction.py:40-41 | scrubbing twice is scrubbing once, for every text |
| LogRedaction.ScrubComplete | backend/app/security/log_redaction.py:40-41 | after any sensitive key anywhere in the output stands an empty value or exactly the mark |
| LogRedaction.ScrubKeepsTheRest | backend/app/security/log_redaction.py:40-41 | everything outside sensitive values is copied unchanged |
| Grouping.GroupIndexes | backend/app/analysis/engine.py:121-123 | the one-pass grouping loop yields, for every key, exactly the declarative filter |
| Grouping.IndexesExact | backend/app/analysis/engine.py:121-123 | a group lists exactly the matching indexes, ascending |
| Grouping.GroupsDisjoint | backend/app/analysis/engine.py:121-123 | two groups of one pass share no event |
| Grouping.BruteForce | backend/app/analysis/engine.py:154-165 | one finding per address, for exactly the addresses whose failures reach the threshold, with exactly their indexes |
| Grouping.BruteForceExact | backend/app/analysis/engine.py:154-158 | that is, the addresses with at least as many authentication failures as the threshold, and one |
| Grouping.CollectUsers | backend/app/analysis/engine.py:198-205 | the user sets beside the index lists are the users the address failed to log in as |
| Grouping.CredentialStuffing | backend/app/analysis/engine.py:197-213 | one finding per address, for exactly the addresses with enough distinct users |
| Grouping.StuffingExact | backend/app/analysis/engine.py:197-206 | that is, at least as many distinct user names among its authentication failures as the threshold, and one |
| Grouping.StuffingImpliesBruteForce | backend/app/analysis/engine.py:154-213 | where credential stuffing fires, brute force fires at any threshold no larger |
| Grouping.LoginsAfterFailure | backend/app/analysis/engine.py:181-195 | one finding per success with enough earlier failures from its address, in order, with exactly those failures |
| Grouping.LoginExact | backend/app/analysis/engine.py:181-187 | that is, as many authentication failures of its address before it as the threshold |
| Grouping.LoginAfterFailureImpliesBruteForce | backend/app/analysis/engine.py:154-195 | where a login after failures is reported, brute force is reported for the address at any threshold no larger |
| Grouping.DetectCorrelations | backend/app/analysis/engine.py:1352-1433 | one finding per account, exactly the specified verdicts |
| Grouping.SampleExact | backend/app/analysis/engine.py:1377-1429 | the events a finding names are the first five failures of its account in order; the success that makes it a compromise is never among them |
| Grouping.CorrelationExact | backend/app/analysis/engine.py:1352-1433 | an account that is no service account is reported from five failures on, as compromised if a success comes after the first, else as attempted, heavily from twenty on |
| Grouping.CompromiseIff | backend/app/analysis/engine.py:1373-1387 | an account is reported as compromised if and only if it has five failures and a success after the first of them |
| Grouping.OneFailureBeforeSuccessSuffices | backend/app/analysis/engine.py:1376-1380 | one failure, a success and four more failures are enough |
| Timeline.TimelineBuckets | backend/app/analysis/engine.py:1634-1652 | one bucket per hour that occurs, sorted, with exact totals and totals per severity |
| Timeline.BucketExact | backend/app/analysis/engine.py:1638-1652 | a bucket counts the events whose timestamps begin with its hour, the first 13 characters, and those of each severity, low where there is none |
| Timeline.AtMostExact | backend/app/analysis/engine.py:1652-1652 | the order the hours are sorted in is that of text: a prefix first, otherwise by the first character that differs |
| Timeline.ChartCountsEveryEvent | backend/app/analysis/engine.py:1638-1652 | such a chart counts every event that has a timestamp, once |

## Left out

- HTTP, threads, SQL sessions and transactions: each server operation is one atomic step on sequences of rows in insertion order. Dispatching an action, which commits twice, is one step.
- Cryptography (HMAC, SHA-256, SHA-1, base32, AES-GCM): parameters. Bodies are JSON texts in ASCII, so text stands for bytes.
- Address parsing and Unicode lower-casing: `parseIp` and `lower` are parts of `Orders.Settings`.
- Messages on actions, findings and log lines: an action's detail is a datatype that holds what the text says. Excerpts of log lines, first and last times and truncated lists of users on findings are not modelled.
- The agent's dry-run mode, which carries nothing out.
- Restarts of the agent or the server: the nonce memories and the schedule live in memory and would be lost.
- The server's own memory of result nonces: in `Protocol` a report may be delivered any number of times. What holds with repeats holds without them.
- Administrative cancellation: no code path sets the CANCELLED status. The value exists and is never reached.
- `created_at` and `expires_at` come from one clock reading; in the source they are two readings moments apart.
- Several firewall rules for one address: the firewall is a set, so blocking twice and unblocking once leaves the address free.
- Signing.NonceMemory.VerifyBody: Python's limit on the digits of a number read from text, which refuses a time padded to thousands of digits, is not modelled.
- AgentLoop.Agent.Tick: one clock reading serves a whole turn, the JSON parser is a parameter, and an error inside the expiry pass itself, after an unblock and before its entry is forgotten, is not a turn here.
- SoarServer.Server.RespondToAlert: the commit that records the actions does not fail. A session that a failed commit leaves unusable until its next rollback is given as the lost orders and marks that follow.
- Protocol.StepOnOrders: the steps of a run are atomic and their commits succeed.
- RateLimit.SharedStore.RefillAndConsume: the store's clock is the caller's, numbers are reals, and the rounding of Lua numbers printed as text is not modelled.
- SigmaCondition.TokenizeCondition: a keyword spelled with the long s, and a word boundary beside a letter outside ASCII, make the source's tokenizer and parser fail at another place than here. Either way there is no value, and the evaluation of a condition is the same.
- Totp.Verify: which characters outside ASCII count as digits is a parameter; provisioning links and backup codes are left out.
- Floating point: times and tokens are reals in the limiters and the one-time passwords, whole ticks in the guards.
- Python's recursion limit, which makes a very deeply nested Sigma condition false.
- Matching of Sigma selections, YAML loading and modifiers: selection results are given.
- LogRedaction.LogRecord.Filter: the catch-all that keeps logging alive when an argument cannot be scrubbed.
- Grouping.BruteForce: an absent event field and an empty one are the same; the rule's name, phase and excerpts are not part of a finding. The port scan, file integrity and privilege branches add nothing harder.
- OpenSearch and ClickHouse stores, the signature catalogue, normalizers, enrichment, reports, the dashboard and the frontend.
