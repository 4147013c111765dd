# ACDP: a verified model

ACDP is an agent communication stack: anonymous rate-limited credentials and delegated
capabilities, an interceptor pipeline in front of JSON-RPC traffic, a sandbox that
interprets execution plans, and clients that buffer and retry. This project models the
parts of it where correctness is subtle and proves what they guarantee, for every input,
every reachable state and every run.

| module | what it models |
|---|---|
| `PrimeField`, `LinearRelations`, `Arc`, `ArcTheorems`, `KeyCodec` | the ARC credential protocol, its proof relation and the key encoding |
| `StableSort`, `Interceptors` | the interceptor registry, the processing loop and its statistics |
| `Correlation` | the LLM interceptor's matching of responses to predictions |
| `PlanInterpreter`, `RuntimeSelector` | the sandbox's plan interpreter and its choice of runtime |
| `Capabilities`, `Delegation` | attenuation of tool capabilities and delegation depth |
| `BufferedClient`, `RetryLoops` | the buffered IPC client, request retries and backend restarts |
| `Validation` | schema-driven coercion and validation of parameters |
| `Options`, `Messages`, `Decimal`, `Powers` | shared values |

How the source is represented:

- The prime-order group is written as exponents of its generator: an element is a scalar
  modulo the group order `n`, `G` is 1, and a point times a scalar is a product. The order
  is any prime above 2^64. Inverses and cancellation are proved from Bezout's identity.
- Hash-to-group is an arbitrary function into nonzero elements. The noninteractive proof is
  ideal: it can be made only from a witness of its four-equation statement, carries that
  witness, and holds only for that statement and session.
- Random draws, clocks, connection outcomes, file and runtime results, interceptor
  answers, text conversions and routing answers are parameters, so a theorem about all
  inputs is a theorem about all of these.
- Objects with mutable fields are classes whose invariant ties the fields to a function of
  their history; loops are loops. Sets whose order the source does not fix are enumerated
  by an arbitrary choice, so that a result stated as a function of the set does not depend
  on the order.

Where the code does less than its documentation or its shape suggests, the model follows
the code and the exact condition is proved:

- `is_subset_of` on tool patterns is unsound exactly for a child `w*` of a parent `w**`,
  misses an inclusion exactly below a parent that matches by the prefix `dir/`, and fails to
  compose exactly across that same pair, for a pattern that does not start with `w*`
  (`Capabilities.SubsetIsSoundIff`, `Capabilities.InclusionIsFoundIff`,
  `Capabilities.SubsetComposesIff`; failing inputs in `Capabilities.StarBelowTwoStarsPasses`,
  `Capabilities.InclusionBelowDirectoryIsMissed`, `Capabilities.SubsetDoesNotCompose`).
- `is_subset_of` on capabilities ignores the denied tools, so a tool allowed at the end of
  a chain is allowed at its root exactly when the root's deny-list does not match it
  (`Capabilities.ChainAttenuates`, `Capabilities.DroppedDenialPasses`). It also ignores the
  window of the rate limit, so the cap bounds the rate exactly when the child's window is no
  shorter (`Capabilities.CapBoundsRateIff`, `Capabilities.ShorterWindowPasses`).
- The depth of a delegation chain is its length as a byte; the depth check is exact exactly
  below 256 proofs or when the wrapped byte still exceeds the limit
  (`Delegation.DepthCheckIsExactIff`, `Delegation.LongChainPasses`).
- `should_intercept` is asked about the message last handed to an interceptor, which is not
  the newest one exactly after that interceptor replaced it
  (`Interceptors.QuestionLagsExactlyAfterModification`). Messages are counted under the
  method of that same message, which is not the one returned exactly after the last
  participant replaced it (`Interceptors.CountedMessageLagsExactlyAfterModification`). Both
  happen with interceptors that replace every message (`Interceptors.RewritersLag`).
- A second prediction under one request id, such as a retried request makes, discards the
  first one (`Correlation.SettledByFirstAnswer`, `Correlation.RetriedRequestDiscardsPrediction`),
  and two different ids share a key exactly when one is a text equal to the other's text
  (`Correlation.KeysCoincideIff`, `Correlation.KeysCollide`).
- An accepted message will never be delivered, whatever happens next, exactly when it was
  lost or the loop has ended with it in the buffer (`BufferedClient.NeverDeliveredIff`,
  `BufferedClient.ShutdownStrandsBuffer`). It is lost when it meets a full buffer, stands in
  the buffer behind one that fails in a flush, or is in the channel when the loop ends
  (`BufferedClient.LostIffSomeEventLost`).
- Coercing a text to a number panics exactly on texts that parse to no JSON number, such as
  `inf` (`Validation.Validate`, `Validation.InfinityPanics`).
- A request panics at the first failure whose delay overflows. With a base delay below 2^32
  seconds that is the 33rd, where the backoff factor leaves 32 bits, in a build with overflow
  checks; in a build without them the factor is zero from there on, so that retries follow
  each other without a delay (`RetryLoops.McpClient.SendWithRetries`,
  `RetryLoops.OrdinaryDelaysOverflowFrom32`, `RetryLoops.FactorVanishesFrom32`).

`dafny verify dfyconfig.toml` verifies the whole project.

## Model

| member | source | states |
|---|---|---|
| `PrimeField.Invert` | acdp-auth/src/arc.rs:469-478 | An inverse is absent exactly for zero |
| `PrimeField.InverseMultiplies` | acdp-auth/src/arc.rs:469-485 | For a prime order, a nonzero scalar times its computed inverse is one |
| `LinearRelations.LinearRelation.AllocatePresentation` | acdp-auth/src/arc_zkp.rs:58-77 | Allocation yields four scalars, nine elements and the four constraint equations |
| `LinearRelations.LinearRelation.SetStatement` | acdp-auth/src/arc_zkp.rs:79-92 | Every public element lands in its own variable |
| `LinearRelations.BuiltRelationDenotesConstraints` | acdp-auth/src/arc_zkp.rs:66-92 | The built relation is satisfied by a witness vector exactly when the four documented constraints hold |
| `LinearRelations.BuildRelation` | acdp-auth/src/arc_zkp.rs:134-154 | The builder used by prover and verifier denotes the four constraints of any statement |
| `Arc.CredentialHolder.constructor` | acdp-auth/src/arc.rs:423-431 | A new credential has 1000 presentations and has used none |
| `Arc.CredentialHolder.CreatePresentation` | acdp-auth/src/arc.rs:435-531 | A presentation is refused once the limit is reached; otherwise it is the protocol's, proof included, and the remaining count drops by one exactly on success |
| `ArcTheorems.PublicKeyOpens` | acdp-auth/src/arc.rs:157-165 | X0 opens to x0_blinding under G and x0 under H, whatever x1 and x2 are, and x1 and x2 are the logarithms of X1 and X2 |
| `ArcTheorems.PublicKeysCoincideIff` | acdp-auth/src/arc.rs:157-165 | The public key fixes x1 and x2, and fixes x0 only together with its blinding |
| `ArcTheorems.RequestHidesAttribute` | acdp-auth/src/arc.rs:242-264 | A blinded request is consistent with every attribute, for exactly one blinding factor each |
| `ArcTheorems.RequestCommits` | acdp-auth/src/arc.rs:242-264 | The request commits to m1 under s and X1, its first auxiliary point is r1 times G and the other two are the identity |
| `ArcTheorems.ResponseDecrypts` | acdp-auth/src/arc.rs:328-341 | Subtracting the auxiliary point from the response recovers the blinded MAC value, and the three auxiliary points come back unchanged |
| `ArcTheorems.ResponseCarriesMac` | acdp-auth/src/arc.rs:318-354 | After removing s times P, the response is b times the MAC exponent of both attributes |
| `ArcTheorems.IssuedCredentialIsMac` | acdp-auth/src/arc.rs:394-432 | For all keys, secrets and draws, the unblinded credential satisfies Q = (x0 + m1 x1 + m2 x2) U |
| `ArcTheorems.VerifierSeesMac` | acdp-auth/src/arc.rs:582-597 | The verifier's V is consistent with (z, r) exactly when u' minus r is the MAC value of u |
| `ArcTheorems.WitnessOpens` | acdp-auth/src/arc.rs:569-635 | Any witness on a presentation that passes the other checks opens it to a MAC and to the tag, at the declared nonce |
| `ArcTheorems.AcceptedIffOpens` | acdp-auth/src/arc.rs:560-636 | Verification returns true exactly for a nonce below the limit, non-identity points, the right T, and a proof for the verifier's statement whose secrets open to a MAC, to the tag and to the declared nonce |
| `ArcTheorems.VerdictIs` | acdp-auth/src/arc.rs:560-636 | All verdicts: an error exactly for a proof that does not hold on a presentation in range, and false exactly out of range or for a proof of another context or nonce |
| `ArcTheorems.TagInverts` | acdp-auth/src/arc.rs:469-485 | The tag times m1 + nonce is the hashed context |
| `ArcTheorems.ProverHasWitness` | acdp-auth/src/arc_zkp.rs:57-111 | For every credential the prover's own secrets satisfy its statement |
| `ArcTheorems.PresentationIsProved` | acdp-auth/src/arc.rs:469-511 | A presentation fails exactly when m1 + nonce is zero, never in proof creation, and its proof is for the prover's statement and context |
| `ArcTheorems.PresentationParts` | acdp-auth/src/arc.rs:451-488 | The points of a presentation of any credential, as multiples of the credential's points plus commitments |
| `ArcTheorems.StatementsAgreeIff` | acdp-auth/src/arc.rs:466-507 | Prover and verifier compute the same statement, V and T included, exactly for the server's X1 and the MAC value |
| `ArcTheorems.PresentationVerifiesIffMac` | acdp-auth/src/arc.rs:560-636 | The MAC decides: the presentation of any credential verifies exactly when the nonce is below the limit, neither point is the identity, X1 is the server's and the credential is a MAC under the server's key and m2 |
| `ArcTheorems.HonestPresentationVerifies` | acdp-auth/src/arc.rs:435-636 | End-to-end completeness: the issued credential's presentation exists unless m1 + nonce is zero, and verifies exactly when the nonce is below the limit and neither point is the identity; u is the identity exactly when a random factor is zero, u' exactly when r cancels the MAC value |
| `ArcTheorems.RandomisedPartHidesCredential` | acdp-auth/src/arc.rs:451-464 | Any other credential shows the same randomised part for exactly one choice of its randomness |
| `ArcTheorems.TagIsDetermined` | acdp-auth/src/arc.rs:484-485 | The tag is the only element whose (m1 + nonce)-th multiple is the hashed context |
| `ArcTheorems.TagsCoincide` | acdp-auth/src/arc.rs:469-485 | Two tags of one context are equal exactly when attribute plus nonce is |
| `ArcTheorems.NoncesSeparateTags` | acdp-auth/src/arc.rs:469-485 | One attribute has different tags for different 64-bit nonces |
| `ArcTheorems.AcceptedTagIsOwn` | acdp-auth/src/arc.rs:569-633 | The tag of an accepted presentation is the tag of its proved attribute and declared nonce |
| `ArcTheorems.EqualTagsLinkPresentations` | acdp-auth/src/arc.rs:621-633 | Accepted presentations with one tag and context agree on attribute plus nonce, so a replayed nonce shows |
| `ArcTheorems.TagBelowIsAcceptable` | acdp-auth/src/arc.rs:435-636 | Every tag of a nonce below the limit is presented and accepted with some MAC on its attribute |
| `ArcTheorems.CountTags` | acdp-auth/src/arc.rs:469-485 | There is one tag per nonce below the limit, less the nonce that cancels m1 |
| `ArcTheorems.AcceptableTagsAreLimited` | acdp-auth/src/arc.rs:569-633 | Rate limiting: the tags acceptable for one attribute and context are exactly those, so at most the limit |
| `KeyCodec.EncodeKey` | acdp-auth/src/arc.rs:95-102 | Encoding a key gives 128 bytes that decode to it, with x0, x1, x2 and x0_blinding in this order |
| `KeyCodec.EarlierBytesWeighMore` | acdp-auth/src/arc.rs:95-102 | Bytes are read most significant first |
| `KeyCodec.DecodingFailsIff` | acdp-auth/src/arc.rs:105-139 | Decoding rejects a wrong length, or else exactly the first scalar that is not below the order |
| `KeyCodec.EncodingDecodes` | acdp-auth/src/arc.rs:95-139 | Every key below the order survives the round trip |
| `KeyCodec.AcceptedBytesReencode` | acdp-auth/src/arc.rs:105-139 | Every accepted byte string is the encoding of what it decodes to |
| `StableSort.SortByKeyStablySorts` | acdp-core/src/interceptor.rs:227-228 | The sort orders by key and keeps the order among equal keys |
| `StableSort.SortPositions` | acdp-core/src/interceptor.rs:227-228 | The sort moves every position once, by smaller key first and then by earlier position |
| `StableSort.StableSortIsUnique` | acdp-core/src/interceptor.rs:227-228 | Order by key and order among equal keys determine the list |
| `StableSort.ResortAfterPush` | acdp-core/src/interceptor.rs:223-229 | Sorting again after each push is sorting once |
| `StableSort.RetainAfterSort` | acdp-core/src/interceptor.rs:232-237 | Filtering commutes with sorting |
| `StableSort.RetainPositions` | acdp-core/src/interceptor.rs:235 | Filtering keeps exactly the positions whose element it keeps, in order |
| `Interceptors.InterceptorManager.AddInterceptor` | acdp-core/src/interceptor.rs:223-229 | After any operations the list is the stable sort by priority of the survivors in insertion order: the added and not removed since, lower priority values first and equal ones as they were added |
| `Interceptors.InterceptorManager.RemoveInterceptor` | acdp-core/src/interceptor.rs:232-237 | Removal keeps that invariant and reports whether some interceptor had the name |
| `Interceptors.RegistryOrder` | acdp-core/src/interceptor.rs:223-237 | After any operations the list holds exactly the interceptors added and not removed since, ordered by priority field and then by time of addition |
| `Interceptors.VisitsFollowPriority` | acdp-core/src/interceptor.rs:227-275 | In every pass over such a list, whoever is visited earlier has no greater priority value |
| `Interceptors.RunPass` | acdp-core/src/interceptor.rs:263-317 | The loop over arbitrary interceptors refines the history-based description of a pass |
| `Interceptors.InterceptorManager.ProcessMessage` | acdp-core/src/interceptor.rs:250-356 | The result is that of the pass, and the statistics always count all passes so far |
| `Interceptors.VisitAt` | acdp-core/src/interceptor.rs:270-290 | Each interceptor visited is asked about the message last handed over, is given the newest one, and follows no block |
| `Interceptors.VisitConsults` | acdp-core/src/interceptor.rs:257-277 | Every interceptor is asked and called in the direction, session and metadata of the start, with only the message changing |
| `Interceptors.PassConcludes` | acdp-core/src/interceptor.rs:279-356 | The answer is the blocking reply, or the latest replacement with the joined reasons and the mean confidence, or the original alone |
| `Interceptors.ReasonsInOrder` | acdp-core/src/interceptor.rs:292-297 | The reasons are exactly those of the replacing interceptors, in the order of the pass |
| `Interceptors.ConfidencesInOrder` | acdp-core/src/interceptor.rs:298-301 | So are the confidences |
| `Interceptors.JoinSeparates` | acdp-core/src/interceptor.rs:348-353 | Joined reasons are separated by a semicolon and a blank |
| `Interceptors.LaterIgnored` | acdp-core/src/interceptor.rs:279-290 | Nothing after the first block influences a pass |
| `Interceptors.PassExtends` | acdp-core/src/interceptor.rs:270-317 | Appending interceptors leaves the visits of the earlier ones as they were |
| `Interceptors.GivenLagsExactlyAfterModification` | acdp-core/src/interceptor.rs:270-302 | At every point of a pass the message last handed over differs from the newest one exactly when the last participant replaced its message |
| `Interceptors.QuestionLagsExactlyAfterModification` | acdp-core/src/interceptor.rs:271-275 | The message asked about differs from the newest one exactly when the last participant replaced its message |
| `Interceptors.CountedMessageLagsExactlyAfterModification` | acdp-core/src/interceptor.rs:333-356 | The message a pass is counted under differs from the one it returns exactly when its last participant replaced its message |
| `Interceptors.RewritersLag` | acdp-core/src/interceptor.rs:271-339 | Behind one rewriting interceptor a second is asked about the original message, and a rewritten message is counted under the original's method |
| `Interceptors.HandledGetsNewest` | acdp-core/src/interceptor.rs:274-302 | Participants get the newest message, and without a modification the original is returned |
| `Interceptors.ConfidenceStaysInRange` | acdp-core/src/interceptor.rs:298-301 | A result has a confidence exactly when it is modified, and the average stays between 0 and 1 if every modification's does |
| `Interceptors.StatsAreTallies` | acdp-core/src/interceptor.rs:281-339 | Over any run, every counter is the number of passes of its kind, and each method's count is exact |
| `Interceptors.AverageIsMean` | acdp-core/src/interceptor.rs:283-331 | Over any run, the running average of the processing time is the mean over all passes, blocked or not |
| `Interceptors.MethodCountsAreConserved` | acdp-core/src/interceptor.rs:321-339 | Over any run, the method counts plus unblocked passes without a method are processed minus blocked |
| `Correlation.LlmInterceptor.Intercept` | acdp-llm/src/interceptor.rs:483-521 | The pending map and the reported results are those of the whole history |
| `Correlation.LlmInterceptor.Route` | acdp-llm/src/interceptor.rs:155-198 | A prediction is stored under the request id exactly in semantic mode, or in hybrid mode without a rule, when predicting succeeds |
| `Correlation.LlmInterceptor.UpdateAccuracy` | acdp-llm/src/interceptor.rs:366-406 | An answer removes the prediction of its id and reports it if the tool is known |
| `Correlation.FirstNameIsFirst` | acdp-llm/src/interceptor.rs:408-423 | In a list of arguments the first object with a textual name names the tool |
| `Correlation.ActualToolIs` | acdp-llm/src/interceptor.rs:268-423 | The tool of a message is its method, or for a tool call the name in its arguments or in the first of a list that has one; a response has none |
| `Correlation.PendingIffWaiting` | acdp-llm/src/interceptor.rs:186-198 | A prediction is pending exactly while its store is the latest for its id and unanswered, with the tool of the message that stored it |
| `Correlation.PendingKeysAreUnanswered` | acdp-llm/src/interceptor.rs:366-377 | The pending keys are exactly the stored ids without a later answer |
| `Correlation.SettledAtIffSettles` | acdp-llm/src/interceptor.rs:366-384 | An answer settles a prediction exactly when it follows a store of its id with nothing between, and then that one |
| `Correlation.ReportedInOrder` | acdp-llm/src/interceptor.rs:366-406 | The reports are, in order, the record ids and tools of the stores that answers settle and whose tool is known |
| `Correlation.SettlementIsOneToOne` | acdp-llm/src/interceptor.rs:371-377 | No stored prediction is settled twice and no answer settles two |
| `Correlation.SettledByFirstAnswer` | acdp-llm/src/interceptor.rs:196-197 | The first later answer settles a store exactly when the id was not stored again before it |
| `Correlation.RetriedRequestDiscardsPrediction` | acdp-llm/src/interceptor.rs:186-198 | For every id, a request sent twice before its answer leaves its first prediction unsettled for good, and the answer settles the second |
| `Correlation.KeysCoincideIff` | acdp-llm/src/interceptor.rs:259-265 | Two ids share a key exactly when they are equal or one is a text equal to the other's text |
| `Correlation.KeysCollide` | acdp-llm/src/interceptor.rs:259-265 | Such ids exist for numbers and for null |
| `PlanInterpreter.EnsuredIffPermitted` | acdp-sandbox/src/service.rs:457-474 | The check passes exactly when the first token with the id lists the sink |
| `PlanInterpreter.InterpretPlan` | acdp-sandbox/src/service.rs:175-400 | Refused plans have no effects and their own error; a failure at node k leaves the earlier effects plus at most node k's own started one; success returns what the latest producer yielded for the capability of the last node that is not a write, or nothing if there is none; the branch for plans without output is unreachable |
| `PlanInterpreter.FailureIs` | acdp-sandbox/src/service.rs:209-376 | When and with which error a node fails: no token with its capability, a first token without its sink, nothing produced to write, or the operation itself |
| `PlanInterpreter.StoredByProducer` | acdp-sandbox/src/service.rs:272-308 | A stored value is the output of the latest run or read node with its capability |
| `PlanInterpreter.ExecutePlan` | acdp-sandbox/src/service.rs:79-82 | In every run each effect is its own node's operation, permitted by the first token with its capability, whatever is written was produced earlier under the same capability, and whatever is emitted was too or is empty because nothing was |
| `RuntimeSelector.AllowedIffListed` | acdp-sandbox/src/policy.rs:212-267 | The per-runtime question and the set of allowed runtimes agree |
| `RuntimeSelector.SelectRuntime` | acdp-sandbox/src/selector.rs:117-254 | The decision, with its limits, reason and audit flag, is a function of the sets, whatever their enumeration order |
| `RuntimeSelector.SelectionFailsIff` | acdp-sandbox/src/selector.rs:117-165 | Selection fails exactly when policy and build permit nothing, or nothing permitted runs the language |
| `RuntimeSelector.SelectionIs` | acdp-sandbox/src/selector.rs:117-254 | What is asked for and usable is taken, anything else is an override with its own reason, and otherwise WebAssembly comes before V8 before a process |
| `RuntimeSelector.SelectionCarries` | acdp-sandbox/src/policy.rs:269-302 | Limits are the tool's own, its trust level's or the defaults, and audit is required by the tool's policy or for trusted and system tools |
| `RuntimeSelector.ChooseAnyOf` | acdp-sandbox/src/selector.rs:202-238 | Of several requested runtimes the most secure candidate is taken, or the most secure candidate of all as an override |
| `RuntimeSelector.ChooseOne` | acdp-sandbox/src/selector.rs:133-186 | A requested or preferred candidate is taken, or the most secure candidate as an override |
| `RuntimeSelector.ChoiceIsSecure` | acdp-sandbox/src/selector.rs:117-254 | The choice is allowed and available, an override exactly when the tool does not want it, and of minimal security rank among what it was chosen from |
| `Capabilities.MatchesIff` | acdp-auth/src/capabilities.rs:113-126 | `w*` matches what starts with `w`, `d/` what starts with `d/`, and any other pattern itself only |
| `Capabilities.SubsetCarriesToolIff` | acdp-auth/src/capabilities.rs:113-137 | A tool matched by a pattern that passes the check is matched by the parent, except for `w*` below `w**` and a tool that does not start with `w*` |
| `Capabilities.SubsetIsSoundIff` | acdp-auth/src/capabilities.rs:113-137 | A pattern that passes the check matches only the parent's tools, except for `w*` below `w**` |
| `Capabilities.StarBelowTwoStarsPasses` | acdp-auth/src/capabilities.rs:113-137 | The pair `w*`, `w**` passes the check, and only the child matches `wx` |
| `Capabilities.InclusionIsFoundIff` | acdp-auth/src/capabilities.rs:113-137 | An inclusion of tools passes the check, except properly below a parent `dir/` |
| `Capabilities.InclusionBelowDirectoryIsMissed` | acdp-auth/src/capabilities.rs:113-137 | All tools of `d/f` are tools of `d/`, but the check fails |
| `Capabilities.SubsetComposesIff` | acdp-auth/src/capabilities.rs:128-137 | Two steps of the check compose exactly unless the upper one is `w*` below `w**` and the lowest pattern does not start with `w*` |
| `Capabilities.SubsetDoesNotCompose` | acdp-auth/src/capabilities.rs:128-137 | The triple `wx`, `w*`, `w**` on which composition fails |
| `Capabilities.SoundSubsetComposes` | acdp-auth/src/capabilities.rs:128-137 | Without the pair `w*` below `w**` the check is transitive and stays sound |
| `Capabilities.LimitWithinIffAdmits` | acdp-auth/src/capabilities.rs:192-226 | The limit check holds exactly when the parent admits every amount that the child admits |
| `Capabilities.LimitsWithinIffAdmits` | acdp-auth/src/capabilities.rs:192-226 | The check of all three limits holds exactly when the parent admits whatever amounts read, written and concurrent the child admits |
| `Capabilities.IsToolAllowed` | acdp-auth/src/capabilities.rs:39-59 | A tool is allowed exactly when some allowed and no denied pattern matches it |
| `Capabilities.IsSubsetOf` | acdp-auth/src/capabilities.rs:62-88 | The loops decide whether the patterns pass, the cap is no greater and every admitted amount is admitted by the parent |
| `Capabilities.ChainAttenuatesLimits` | acdp-auth/src/capabilities.rs:77-88 | Along any chain the rate cap is no greater than the root's and every amount admitted at the end is admitted by the root |
| `Capabilities.ChainComposes` | acdp-auth/src/capabilities.rs:62-88 | The end of a chain of any length passes the check against its root if no link relies on `w*` below `w**` |
| `Capabilities.ChainAttenuates` | acdp-auth/src/capabilities.rs:39-88 | Along any such chain the allow-list lies within the root's, and a tool allowed at the end is allowed at the root exactly when the root does not deny it |
| `Capabilities.KeptDenialsCarryBack` | acdp-auth/src/capabilities.rs:39-88 | If each child keeps its parent's denied patterns, a tool allowed at the end is allowed at the root |
| `Capabilities.DroppedDenialPasses` | acdp-auth/src/capabilities.rs:61-88 | A child that drops a denied pattern passes the check and allows the denied tool |
| `Capabilities.CapBoundsRateIff` | acdp-auth/src/capabilities.rs:77-80 | The compared cap bounds the presentations per second, whatever the caps, exactly when the child's window is no shorter than the parent's |
| `Capabilities.ShorterWindowPasses` | acdp-auth/src/capabilities.rs:61-88 | Every capability with a nonzero cap has children that pass the check and exceed its rate: those with the same cap and a shorter window |
| `Delegation.GuardedGrowthIsBounded` | acdp-auth/src/delegation.rs:51-66 | A chain grown only with permission at its depth reaches exactly the lengths up to the maximum, and its byte never wraps |
| `Delegation.DepthCheckIsExactIff` | acdp-auth/src/delegation.rs:182-217 | The depth check agrees with the real length exactly below 256 proofs or when the wrapped byte exceeds the limit, and an error names the wrapped depth |
| `Delegation.LongChainPasses` | acdp-auth/src/delegation.rs:182-217 | A chain of 256 proofs passes every depth check |
| `Delegation.DelegationChain.Delegate` | acdp-auth/src/delegation.rs:51-66 | Adding a proof only with permission keeps the chain within its rights, and succeeds exactly below the maximum, with the error of the failing condition |
| `BufferedClient.BufferedIpcClient.OnReceive` | acdp-transport/src/buffered_ipc_client.rs:78-98 | Receiving a message moves the client to the state of the extended history |
| `BufferedClient.BufferedIpcClient.OnTick` | acdp-transport/src/buffered_ipc_client.rs:101-146 | A reconnection attempt moves the client to the state of the extended history |
| `BufferedClient.BufferedIpcClient.Flush` | acdp-transport/src/buffered_ipc_client.rs:111-134 | A flush sends the buffer in order up to the first failure, whose message alone is buffered again |
| `BufferedClient.BufferedIpcClient.TrySend` | acdp-transport/src/buffered_ipc_client.rs:45-57 | A message is accepted unless the channel is full, and after the loop has ended it reaches only the buffer |
| `BufferedClient.BufferedIpcClient.OnShutdown` | acdp-transport/src/buffered_ipc_client.rs:71-75 | Shutdown moves the client to the state of the extended history, in which the channel is dropped |
| `BufferedClient.StepKeepsInvariant` | acdp-transport/src/buffered_ipc_client.rs:69-148 | Every event keeps the invariant |
| `BufferedClient.RunKeepsInvariant` | acdp-transport/src/buffered_ipc_client.rs:45-149 | In every run channel and buffer are bounded, the buffer is empty while connected, deliveries then buffer then channel are arrivals in order, every arrival is delivered, buffered, queued or lost exactly once, and nothing lost means nothing missing |
| `BufferedClient.DeliveredByEvents` | acdp-transport/src/buffered_ipc_client.rs:78-131 | What was delivered is, in order, what successful sends of a connected loop and due, successful reconnections delivered |
| `BufferedClient.LostIffSomeEventLost` | acdp-transport/src/buffered_ipc_client.rs:71-131 | The lost arrivals are exactly those that met a full buffer, stood behind a failed message in a flush, or were in the channel at shutdown |
| `BufferedClient.NeverDeliveredIff` | acdp-transport/src/buffered_ipc_client.rs:69-149 | No continuation of a run delivers an arrival exactly when it is lost or the loop has ended with it in the buffer |
| `BufferedClient.ShutdownStrandsBuffer` | acdp-transport/src/buffered_ipc_client.rs:71-131 | A message buffered at shutdown is lost by no event, and no continuation delivers it |
| `BufferedClient.DelayDoublesToMaximum` | acdp-transport/src/buffered_ipc_client.rs:102-143 | After k failed attempts in a row the reconnect delay is min(2^k, 30) seconds |
| `RetryLoops.McpClient.GenerateRequestId` | acdp-core/src/client.rs:433-436 | The i-th id of a client is `req_` and the decimal numeral of 1 + i in 64 bits |
| `RetryLoops.McpClient.SendWithRetries` | acdp-core/src/client.rs:690-727 | Attempts, total backoff, retries and errors for every outcome sequence, and the panic at the first delay that overflows, in builds with and without overflow checks |
| `RetryLoops.DelayOverflowsIff` | acdp-core/src/client.rs:711-712 | A delay overflows exactly from the 33rd attempt on with overflow checks, or before it when it reaches 2^64 seconds |
| `RetryLoops.OrdinaryDelaysOverflowFrom32` | acdp-core/src/client.rs:711-712 | With a base delay below 2^32 seconds the delay overflows exactly from the 33rd attempt on in a build with overflow checks |
| `RetryLoops.FactorVanishesFrom32` | acdp-core/src/client.rs:711-712 | Without overflow checks the backoff factor doubles up to the 32nd attempt and is zero from the 33rd on |
| `RetryLoops.IdsCoincideIff` | acdp-core/src/client.rs:433-436 | Two requests share an id exactly when they are a multiple of 2^64 apart |
| `RetryLoops.RunBackend` | acdp-transport/src/proxy.rs:185-296 | Under any outcomes the backend runs at most six times with 2^restarts - 1, at most 31, seconds of backoff, and fails only after six |
| `Validation.TransformField` | acdp-core/src/validation.rs:229-303 | The in-place steps turn a text into the boolean, number, integer or URL it stands for and leave everything else, report a change exactly when the value changes, and panic exactly on unrepresentable numbers |
| `Validation.CoercionIsBecoming` | acdp-core/src/validation.rs:229-323 | The coercion is the one value allowed by the four affirmative and four negative words, the parsed numbers and the URL prefixes |
| `Validation.HasTypeIffConforms` | acdp-core/src/validation.rs:156-172 | The type check is that of the six declared types, an integer being a number equal to one |
| `Validation.ApplyTransformations` | acdp-core/src/validation.rs:205-226 | The rewritten parameters do not depend on the order of the properties |
| `Validation.ValidateAgainstSchema` | acdp-core/src/validation.rs:147-202 | An error is reported exactly when some field has the wrong type, and names such a field |
| `Validation.CheckRequiredFields` | acdp-core/src/validation.rs:326-341 | The first text in the schema's list that names no parameter is reported, if there is one |
| `Validation.Validate` | acdp-core/src/validation.rs:95-133 | The panic condition, what every field becomes, which fields changed, validity and errors, all in terms of the JSON values |
| `Validation.InfinityPanics` | acdp-core/src/validation.rs:229-303 | The text `inf` in any number field makes the default validator panic, and not the strict one |
| `Validation.FixedUrlIsFixed` | acdp-core/src/validation.rs:306-323 | A fixed URL differs from the original and needs no further fix |
| `Validation.CoercedHasTypeIff` | acdp-core/src/validation.rs:229-303 | A field has its type after coercion exactly when it had it or its text converts |
| `Validation.RewritingIsIdempotent` | acdp-core/src/validation.rs:205-303 | Rewriting twice is rewriting once, keeps all keys and cannot panic the second time |
| `Validation.ValidateTwice` | acdp-core/src/validation.rs:95-133 | A second validation changes nothing and has the same verdict |
| `Validation.StrictImpliesDefault` | acdp-core/src/validation.rs:80-133 | Parameters valid under the strict validator are valid under the default one |

## Left out

- P-256 arithmetic, point encodings and their parse errors, hash-to-curve, and the internals of the sigma-proof library: replaced by a prime-order group, an arbitrary hash and an ideal proof relation.
- Arc.CredentialHolder.CreatePresentation: models sequential calls on one credential; the source checks and increments its counter in two separate atomic steps, so concurrent calls can pass the limit.
- Ed25519 signatures, the verification loop of `DelegationChain`, JWT encoding and UUIDs: foreign code, or loops that only forward to it.
- RetryLoops.McpClient.SendWithRetries: does not model the overflow of the 64-bit statistics, nor the log line's sum `max_retries + 1`.
- RetryLoops.RunBackend: does not model the kill of the child process after the last communication error, nor the proxy's status messages.
- BufferedClient.BufferedIpcClient.OnTick: the clock is a parameter that says whether an attempt is due; real time and fairness of the select are not modelled.
- Correlation.LlmInterceptor.Intercept: the rewriting of message parameters, the session manager's records and the notifications to the user interface are not modelled.
- Interceptors.InterceptorManager.ProcessMessage: the processing time is a parameter; confidences and the average time are real values, without rounding.
- PlanInterpreter.InterpretPlan: node ids and the contents of outcome records are not modelled; failures of the runtime share one error.
- RuntimeSelector.SelectRuntime: the reason is one of seven kinds; its wording is not modelled.
- Validation.Validate: the wording of transformations and errors is not modelled; a number is its real value.
- LLM generation, prompts, model loading, SQLite storage, HTTP, SSE and stdio servers, the CLI and the TUI: input and output around the modelled logic.
