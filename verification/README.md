# go-oidc: a verified model of its hardest parts

This project models, in Dafny 4.11, five parts of the go-oidc OpenID provider
library and proves what they promise for every input, every run or every
reachable state. `dafny verify dfyconfig.toml` checks all of it.

| part | files |
|---|---|
| Metadata policies: operators, merging, applying | `Operators`, `OperatorLaws`, `OperatorExact`, `OperatorPanics`, `Policies`, `PolicyLaws`, `MergeOrder`, `PolicyExact` |
| Trust chains: search, supplied chains, resolution | `Statements`, `Search`, `SearchLaws`, `SearchBound`, `SearchData`, `ParseChain`, `ResolveChain`, `ChainWitnesses`, `RespectedPolicies`, `ServedNames` |
| Bounded deep clone of an object graph; canonical sets | `CloneGraph`, `CloneFaults`, `CloneCost`, `CloneDepth`, `CloneInvariant`, `CloneCauses`, `CloneState`, `CloneReach`, `CloneMemory`, `CloneTheorems`, `CloneWitness`, `SortedSets` |
| DPoP proofs, replay, surrogate scanner | `Dpop`, `Surrogates` |
| Redemption, evidence latches, dialling, client metadata | `Redemption`, `Latches`, `Dial`, `ClientResolve`, `ClientExact`, `ClientRecord`, `ClientWitnesses` |

`Wrappers` and `Lists` hold the option, result and outcome types and facts about lists.

## Main results

- Whatever an entity identifier resolves to rests on a repeat-free route of valid
  links to a trusted anchor, and respects the policy of every authority on that
  route, field by field, whatever the other policies are
  (`ResolveChain.ResolvedEntityIsVouchedFor`). The one condition, on a policy's own
  `value` list, is exact over all federations (`RespectedPolicies.RespectedExactly`).
- A chain resolves if and only if every statement's constraints permit it, each policy
  merges with those above it, and the folded operators apply to every field. Every
  field of the result is what those operators make of the immediate superior's value
  or else the subject's own, and a field no policy names is that value unchanged
  (`PolicyExact.ResolveSucceedsExactly`, `PolicyExact.ResolvedField`).
- The search is complete from a depth limit of one more than the number of
  entities, and that bound cannot be lowered (`SearchLaws.BuildTrustChainComplete`,
  `SearchBound.DepthBoundIsExact`). A valid step is spelled out in tokens, claims,
  signatures and endpoints (`SearchData.CompleteOnData`). The search finds whatever
  fits the limit if and only if the limit is at most two or above the number of
  entities (`SearchBound.FindsWhatFitsExactly`).
- Merging operators is a monoid with failure. Its one side condition, no
  repeats in `value` and `default`, is exact (`OperatorLaws.MergeAssociativeExactly`).
  When it succeeds and what each merged operator is follow from the operands
  (`OperatorExact.MergeSucceedsExactly`, `OperatorExact.MergedOperators`).
- An accepted clone is isomorphic to its source, cycles and sharing included, and
  the memory it shares with the source is characterised exactly. The clone succeeds
  if and only if the price of the input, each reachable cell counted once, is within
  the budgets, nothing reachable is at fault, no reachable cells overlap and the
  depth-first walk stays within the depth limit; it spends exactly that price, and
  every refusal has its cause in what is reachable (`CloneTheorems.CloneSession`,
  `CloneTheorems.CloneClient`, `SameSharing`, `CellsSharedExactly`). Faults and
  overlaps are characterised by addresses and paths alone (`CloneMemory.FitsExactly`).
- No DPoP proof is accepted twice, and no code or auth_req_id yields tokens twice,
  in any run (`Dpop.NoReplay`, `Redemption.AtMostOnce`). A proof is accepted exactly
  when it is in time, passes its checks and its key and jti are unspent
  (`Dpop.AcceptedExactly`); tokens go only to the client a grant was made for, before
  it expires (`Redemption.IssuesAreRightful`, `Redemption.IssuesExactly`).
- Client metadata resolution is a normaliser with known normal forms
  (`ClientResolve.ResolveIsNormaliser`, `ClientResolve.ResolveFixpoints`), its result
  is determined field by field (`ClientExact.ResolveExactly`), and what a failed run
  leaves behind is known (`ClientRecord.Client.ResolveInPlace`).

## Where the code differs from what one would expect

Each point has a lemma that gives the exact condition and one that gives an input.

- Merging `value` or `default` lists compares lengths and inclusion one way
  (`internal/federation/operator.go:592-611`), so with repeated entries lists with
  different members pass as equal; such a policy can be undone from above, and
  grouping matters (`CompareExactly`, `RespectedExactly`, `MergeAssociativeExactly`;
  inputs are built by `RepeatWitness` and `Undone`).
- Two `one_of` operators on a list-typed parameter use lists as map keys and panic,
  and so does resolving a chain that carries them, unless an earlier field conflicts
  (`OperatorPanics.MergeOperators`, `MergeOrder.MergePolicies`, `ResolveTrustChain`;
  `PanicsWithItself`, `FoundChainPanics`).
- The `scope` parameter reaches its policy as a non-nil empty list when it is
  absent, so `essential` and `default` have no effect on it (`ScopePresence`,
  `RequiredScopeMayBeMissing`).
- Validation wants `add` to cover `superset_of` and refuses policies that could be
  met (`AddMustCover`).
- The depth limit is checked on the way back, on the first chain a branch yields,
  so the order of hints can decide between success and failure although a short
  enough route exists (`FindsWhatFitsExactly`, `HintOrderMatters`).
- A supplied chain that goes straight from the subject to the anchor makes the code
  index out of range (`ParseTrustChain`, `ShortChainPanics`).
- The anchor configuration fetched while parsing a supplied chain is not compared
  with the identifier it was fetched for (`AnchorConfigurationExactly`,
  `WrongAnchorAccepted`).
- Nor is any other fetched configuration: an identifier can resolve to a statement
  about another one (`ResolvedSubjectExactly`, `ResolvesToAnother`), and an issuer can
  repeat on a found chain although no followed identifier does (`IssuerFollowsPath`,
  `FaithfulIssuersDiffer`, `IssuerRepeats`).
- A supplied chain's statements are verified with the keys in the statement above,
  a searched chain's with the keys in the authority's own configuration
  (`FoundChainReparses`, `FoundChainRefused`).
- A clone skips the key-set cache of every client record, and only the root's cache
  is cloned afterwards. Memory held by the caches of other client records stays
  shared with the source, and nothing else does (`CellsSharedExactly`,
  `NestedCacheIsShared`).
- An acceptance window that ends too far in the future wraps around in `time.Unix`:
  with such a lifetime no DPoP proof is accepted (`WindowExactly`,
  `EndlessLifetimeRefuses`).
- A CIBA approval that comes too late returns without an error once the denial it
  turns into has been saved and notified (`ApprovalReportsSuccess`,
  `LateApprovalReportsSuccess`).
- A CIBA approval does not look at the session's status: a denied request can be
  approved until it expires (`GrantedExactly`, `DeniedThenRedeemed`).
- Consumption is recorded as a time, zero meaning "not yet": a redemption at time
  zero can be repeated (`ConsumptionNeedsAClock`, `RedeemedTwiceAtZero`).
- With TLS client authentication offered while mutual TLS is off, resolving client
  metadata clears the identifier it has just required, so a second resolution fails
  (`ResolveIsNormaliser`, `SecondRunFails`).
- A value that is not on the client's own list of choices makes resolution fail, and
  the failed run clears it: resolving the same record again can succeed
  (`ResolveInPlace`, `SecondRunSucceeds`).

## Model

| member | source | states |
|---|---|---|
| Operators.MergeSlices | internal/federation/operator.go:478-508 | the union of both lists without repeats, in order of first occurrence |
| Operators.IntersectSlices | internal/federation/operator.go:510-543 | the entries of the second list that occur in the first; members are the set intersection |
| Operators.SubsetOfSlice | internal/federation/operator.go:549-571 | true exactly for set inclusion |
| Operators.CompareSlices | internal/federation/operator.go:592-611 | same length and one-way inclusion; for a second list without repeats exactly "a permutation of it" |
| OperatorLaws.ApplySatisfies | internal/federation/operator.go:154-283 | what a valid operator set lets through satisfies all seven operators as declared |
| OperatorLaws.ApplyIdempotent | internal/federation/operator.go:154-283 | applying an operator set to its own result changes nothing, for every operator set |
| OperatorLaws.AppliedUnchangedIffSatisfies | internal/federation/operator.go:20-283 | a value passes unchanged if and only if it already satisfies the operators in the form Apply produces |
| OperatorLaws.ApplyToAbsent | internal/federation/operator.go:196-283 | a valid set with `add` or `default` always yields a value for an absent parameter; otherwise exactly when its checks accept the outcome |
| OperatorLaws.MergeTightens | internal/federation/operator.go:285-442 | what satisfies a merge satisfies the higher side without any condition, and the lower one if its own `value` list has no repeats |
| OperatorLaws.MergeAdmits | internal/federation/operator.go:285-442 | what satisfies both sides satisfies their merge, without any condition |
| OperatorLaws.MergeIsConjunction | internal/federation/operator.go:285-442 | a merged operator set admits exactly the values both sides admit, when the lower `value` list has no repeats |
| OperatorLaws.CompareMeansSameMembers | internal/federation/operator.go:584-611 | lists that compare equal have the same members when the second has no repeats |
| OperatorLaws.CompareExactly | internal/federation/operator.go:592-611 | the comparison means "same members" for every first list if and only if the second has no repeats |
| OperatorLaws.MergeKeepsPlainLists | internal/federation/operator.go:326-376 | merging keeps `value` and `default` free of repeats |
| OperatorLaws.MergeIdentity | internal/federation/operator.go:285-324 | the empty operator set is a two-sided identity of Merge |
| OperatorLaws.MergeAssociative | internal/federation/operator.go:285-442 | both groupings of three operator sets have the same outcome, failure included |
| OperatorLaws.MergeAssociativeExactly | internal/federation/operator.go:285-442 | a middle operand associates with all neighbours if and only if its `value` and `default` have no repeats |
| OperatorLaws.MergeTightensExactly | internal/federation/operator.go:326-340 | a lower operator set is respected by every merge if and only if its `value` list has no repeats |
| OperatorLaws.RepeatWitness | internal/federation/operator.go:592-611 | for every list with a repeat, lists that the comparison confuses and tells apart |
| OperatorLaws.LoosenedBy | internal/federation/operator.go:326-340 | a valid set with repeats in `value` gives way to a higher list that only looks equal: the merge succeeds, stays valid and admits that list |
| OperatorExact.ValidByOperands | internal/federation/operator.go:20-148 | which operators may stand together and how their lists must lie, in members |
| OperatorExact.ApplyByOperands | internal/federation/operator.go:154-283 | the outcome is the fixed value, what was there extended by `add`, the default for an absent parameter, or what was there; it fails exactly when that violates a check, and a present value is never replaced by `default` |
| OperatorExact.ValidIsSatisfiable | internal/federation/operator.go:20-283 | exactly when a valid operator set lets some value through |
| OperatorExact.MergeSucceedsExactly | internal/federation/operator.go:285-442 | two sets merge if and only if set values and defaults agree, two `subset_of` or `one_of` have a common entry, and the list operators stand on list-typed parameters |
| OperatorExact.MergedOperators | internal/federation/operator.go:285-442 | what each merged operator is: the higher `value` and `default`, the union without repeats of `add` and `superset_of`, the lower list's common entries in place for `subset_of` and `one_of`, either side's `essential` |
| Lists.DedupInOrder | internal/federation/operator.go:478-508 | deduplication keeps exactly the first occurrences, in order |
| OperatorPanics.IntersectAlternatives | internal/federation/operator.go:510-543 | panics exactly when alternatives are lists and there is one; otherwise keeps the common ones in order |
| OperatorPanics.MergeOperators | internal/federation/operator.go:285-397 | panics exactly when both sides limit a list-typed parameter and nothing merged before conflicts; otherwise returns the merge of the algebra |
| OperatorPanics.PanicsWithItself | internal/federation/operator.go:378-397 | every valid set with alternatives for a list-typed parameter panics when merged with itself, unless it admits nothing |
| OperatorPanics.AddMustCover | internal/federation/operator.go:66-88 | `add` beside `superset_of` is valid exactly when it covers it, although a refused set can always be met |
| Policies.StoredSatisfies | internal/federation/policy.go:1002-1006 | storing an applied value and reading it back, as for scope, keeps it admissible |
| Policies.ApplySectionSatisfies | internal/federation/policy.go:950-1257 | every field of a valid section is satisfied after Apply |
| Policies.ApplyPolicySatisfies | internal/federation/policy.go:66-84 | applied metadata satisfies the policy in both sections |
| Policies.MergedAt | internal/federation/policy.go:34-64 | merging is field by field in each section, missing sections and fields included |
| Policies.MergePolicyTightens | internal/federation/policy.go:34-64 | what respects a merged policy in a field respects the higher policy there unconditionally, and the lower one if its own list is plain |
| Policies.MergePolicyAdmits | internal/federation/policy.go:34-64 | what respects both policies in a field respects their merge there |
| Policies.MergePolicyConjunction | internal/federation/policy.go:34-64 | a merged policy imposes exactly the requirements of both policies, when the lower `value` lists have no repeats |
| PolicyLaws.ApplySectionIdempotent | internal/federation/policy.go:950-1257 | applying a section to its own result changes nothing |
| PolicyLaws.ScopePresence | internal/federation/policy.go:1002-1006 | exactly when an accepted scope is stored as absent, whatever `default` and `essential` say |
| PolicyLaws.RequiredScopeMayBeMissing | internal/federation/policy.go:1002-1006 | an essential scope with a default is accepted without any scope |
| PolicyLaws.MergeSectionIdentity | internal/federation/policy.go:500-948 | the empty section is an identity |
| PolicyLaws.MergePolicyIdentity | internal/federation/policy.go:34-64 | the empty policy is an identity, missing sections included |
| PolicyLaws.MergeSectionAssociative | internal/federation/policy.go:500-948 | grouping of sections cannot change the outcome, failure included |
| PolicyLaws.MergePolicyAssociative | internal/federation/policy.go:34-64 | grouping of policies cannot change the outcome, failure included |
| PolicyLaws.FoldRegroups | internal/federation/model.go:120-169 | a chain of policies of any length may be merged in two groups split anywhere |
| PolicyLaws.FoldTightens | internal/federation/model.go:120-169 | what respects the folded policy in a field respects every policy of the chain whose own list there is plain, and the first one in any case |
| PolicyLaws.FoldIsConjunction | internal/federation/model.go:120-169 | the policy folded from a chain admits exactly the metadata every policy on it admits, when the `value` lists below the first have no repeats |
| MergeOrder.MergeFields | internal/federation/policy.go:500-948 | one section merged in the order of its fields: panics exactly when the first field that fails panics, and otherwise returns the merged section of the algebra |
| MergeOrder.MergePolicies | internal/federation/policy.go:34-64 | a policy merged section by section, the provider's first: panics exactly when the first field that fails panics, and otherwise returns the merged policy of the algebra |
| MergeOrder.ContactsPanic | internal/federation/policy.go:34-64 | a valid client policy that panics when merged with itself |
| PolicyExact.ApplySectionExactly | internal/federation/policy.go:950-1257 | a section applies if and only if the operators of every field do; every field, named or not, then is what its operators make of it, and an unnamed one is unchanged |
| PolicyExact.ApplyPolicyExactly | internal/federation/policy.go:66-84 | the same for both sections; missing metadata stays missing, and a side without a policy is unchanged |
| PolicyExact.ValidPolicyExactly | internal/federation/policy.go:18-32 | valid if and only if every operator set of either section is |
| PolicyExact.MergePolicySucceeds | internal/federation/policy.go:34-64 | two policies merge if and only if the operands of every field in either section are mergeable |
| PolicyExact.FoldSucceedsExactly | internal/federation/model.go:120-169 | the policies of a chain fold if and only if each merges with those above it into a valid policy |
| PolicyExact.FoldNames | internal/federation/model.go:120-169 | the folded policy has operators for exactly the fields that some policy on the chain names |
| PolicyExact.PreparedField | internal/federation/metadata.go:20-445 | before policies, a section is there exactly when the subject has it and its superior allows it, with the superior's value where set and the subject's own elsewhere |
| PolicyExact.ResolvedField | internal/federation/model.go:110-185 | every field of the result is what the folded operators make of that value, and a field no policy on the chain names is that value unchanged |
| PolicyExact.PermitsExactly | internal/federation/model.go:129-155 | path length and naming constraints written out in the data of the chain |
| PolicyExact.ResolveSucceedsExactly | internal/federation/model.go:110-185 | a chain resolves if and only if all constraints permit it, its policies fold, and the folded operators apply to every field of every section that is there |
| Statements.ParseStatement | internal/federation/util.go:656-760 | accepted if and only if the token is readable and acceptable, verifies with the given keys, has the expected issuer and subject and no trust anchor claim; then read as it is |
| Statements.ParseConfiguration | internal/federation/util.go:552-608 | accepted if and only if the token is acceptable, self-signed, about its issuer, has no empty list of hints, and carries no policy, constraints or forbidden claims |
| Statements.ParseSubordinate | internal/federation/util.go:610-654 | accepted if and only if the token is acceptable, verifies with the given keys, has the expected issuer and subject, no hints or forbidden claims, and a valid policy if any |
| Search.Remaining | internal/federation/util.go:268-298 | following a hint uses up one identifier not yet on the path: the measure that makes the search terminate |
| Search.BuildFromConfig | internal/federation/util.go:268-298 | the loop over hints with its copied visited map computes the first success of the recursive search |
| Search.BuildBranch | internal/federation/util.go:300-330 | one branch with link, anchor and depth checks computes its recursive specification |
| SearchLaws.RouteIffEveryStep | internal/federation/util.go:268-330 | a route is exactly a path all of whose steps are valid and whose end is trusted |
| SearchLaws.RouteLength | internal/federation/util.go:268-330 | a repeat-free route is no longer than the number of identifiers left |
| SearchLaws.FromConfigSound | internal/federation/util.go:268-298 | from any entity and visited set, a found chain is that of a fresh route to the first trusted authority within the depth limit |
| SearchLaws.BuildTrustChainSound | internal/federation/util.go:259-330 | every chain returned is that of a repeat-free route avoiding the subject, ends at the first trusted anchor, and has length 3 or at most the limit plus one |
| SearchLaws.RouteChainLinked | internal/federation/util.go:300-399 | each statement is acceptable, about the entity below, issued and signed by the authority above, and vouches for the keys of the configuration below |
| SearchLaws.FromConfigComplete | internal/federation/util.go:268-330 | with the limit above the identifiers left, every fresh route makes the search succeed |
| SearchLaws.BuildTrustChainComplete | internal/federation/util.go:259-330 | the search succeeds if and only if a repeat-free route to a trusted anchor exists, with a limit of at least the number of entities plus one |
| SearchBound.DepthBoundIsExact | internal/federation/util.go:324-329 | for every size from two on and every smaller limit, some federation has a route that the search misses |
| SearchBound.HintOrderMatters | internal/federation/util.go:268-330 | for every limit from three on and every number of entities not below it, two federations that differ in the order of two hints, one searched in vain although a route of two steps exists |
| SearchBound.FindsWhatFitsExactly | internal/federation/util.go:268-330 | every federation of a size is searched successfully whenever a route within the limit exists, if and only if the limit is at most two or above the size |
| SearchData.StepOnData | internal/federation/util.go:300-399 | a step of the search is possible exactly when the hint, the served configuration, the fetched statement, its keys and its signatures are all there in the federation's data |
| SearchData.RouteOnData | internal/federation/util.go:268-330 | the routes of the search are exactly the paths of such steps that end at a trusted issuer |
| SearchData.CompleteOnData | internal/federation/util.go:259-330 | with a sufficient limit the search succeeds if and only if such a repeat-free path exists |
| SearchData.FoundOnData | internal/federation/util.go:259-399 | every found chain is read off such a path: each statement is what the authority there returns about the entity below, acceptable and signed with its keys, and the last is the anchor's configuration |
| ParseChain.Complete | internal/federation/util.go:438-487 | succeeds if and only if the last token names a trusted issuer whose configuration can be fetched and, where the anchor's configuration is supplied, it is one and verifies with the fetched keys; the list is completed exactly when it was omitted |
| ParseChain.ParseTrustChain | internal/federation/util.go:438-536 | panics exactly on a list without a subordinate statement that is good up to there; otherwise accepted exactly when the completed list is linked, and read with the fetched anchor configuration last |
| ParseChain.AcceptedChainIsLinked | internal/federation/util.go:438-536 | each accepted statement is acceptable, about the issuer below, issued by the subject above and verified with the keys listed there; the subject's configuration verifies with the first subordinate's keys; the top issuer is trusted |
| ParseChain.AcceptsExactly | internal/federation/util.go:438-536 | a supplied chain is accepted if and only if it can be completed and every token is, in issuer, subject, keys, hints, policy and acceptability, what its place demands |
| ParseChain.AnchorConfigurationExactly | internal/federation/util.go:460-487 | exactly when the returned anchor configuration is that of the top issuer |
| ParseChain.FoundChainReparses | internal/federation/util.go:300-536 | a chain found by search, whose anchor serves its own configuration, is accepted when supplied if and only if each statement also verifies with the keys above it, and then reads back unchanged |
| ChainWitnesses.ShortChainPanics | internal/federation/util.go:525-527 | a federation in which a two-token chain makes parsing panic |
| ChainWitnesses.WrongAnchorAccepted | internal/federation/util.go:464-487 | a federation in which a chain is accepted with somebody else as its anchor |
| ChainWitnesses.FoundChainRefused | internal/federation/util.go:300-536 | a federation in which the chain that search finds is refused when supplied |
| ResolveChain.CheckNames | internal/federation/model.go:138-154 | true exactly when every entity from the statement down to the subject is allowed by name |
| ResolveChain.CheckConstraints | internal/federation/model.go:129-155 | true exactly when path length and naming constraints hold at this distance |
| ResolveChain.ResolveTrustChain | internal/federation/model.go:110-185 | panics exactly on chains without a second statement and where, with all constraints holding from there up and the policies above merged, merging the next policy panics; otherwise the backward loop computes the declarative resolution, errors included |
| ResolveChain.ResolvePanicFails | internal/federation/model.go:110-185 | where resolution panics there is no resolution |
| ResolveChain.EarliestIsMinimum | internal/federation/model.go:124-127 | the running expiry is the minimum over configuration and statements, and is attained |
| ResolveChain.ResolvedRespectsChain | internal/federation/model.go:110-185 | a resolved statement expires with the first of its chain, every statement's constraints hold, the anchor is named, disallowed entity types are gone, and all else is what the subject says of itself |
| ResolveChain.ResolvedRespectsField | internal/federation/model.go:110-185 | for chains of any length, resolved metadata respects a policy in every field where its own `value` list is plain, and the topmost policy in every field |
| RespectedPolicies.RespectedExactly | internal/federation/util.go:237-254 | a policy that applies to some metadata is respected in a field by whatever any identifier resolves to, in every federation that imposes it, if and only if its own list there has no repeats |
| RespectedPolicies.Undone | internal/federation/util.go:237-254 | for every policy with a repeat, a federation that is searched and resolved with success and whose result does not respect it |
| RespectedPolicies.FoundChainPanics | internal/federation/model.go:161-164 | a federation whose chain is found and panics when resolved |
| ServedNames.ResolvedSubjectExactly | internal/federation/util.go:237-254 | what an identifier resolves to is about that identifier if and only if its endpoint names it |
| ServedNames.ResolvesToAnother | internal/federation/util.go:347-358 | a federation in which an identifier resolves to a statement about another one |
| ServedNames.IssuerFollowsPath | internal/federation/util.go:268-343 | a statement on a found chain is issued by the identifier followed if and only if the endpoint there serves its own configuration |
| ServedNames.FaithfulIssuersDiffer | internal/federation/util.go:268-343 | with such endpoints along the path no issuer repeats, nor is the subject one |
| ServedNames.IssuerRepeats | internal/federation/util.go:268-343 | a federation in which a found chain carries two statements of one issuer, one of them about itself |
| ResolveChain.ResolvedSatisfiesEveryPolicy | internal/federation/model.go:110-185 | resolved metadata satisfies every policy on the chain that has no repeats, and the topmost in any case, whatever the other policies are |
| ResolveChain.ResolvedEntityIsVouchedFor | internal/federation/util.go:237-254 | end to end: a resolved identifier serves an acceptable configuration that rests on a route of valid links to a trusted anchor, and the policy of each authority is respected in every field where it is plain |
| CloneState.MutableCloneState.constructor | internal/authorize/strict_admission.go:344-348 | the invariant holds at the start: nothing met, nothing spent, the heap is the source |
| CloneState.MutableCloneState.Enter | internal/authorize/strict_admission.go:350-356 | passes exactly within depth and node budget and spends one node |
| CloneState.MutableCloneState.Reserve | internal/authorize/strict_admission.go:358-364 | passes exactly when the sum stays within the byte budget, which then cannot overflow |
| CloneState.MutableCloneState.ReserveContainer | internal/authorize/strict_admission.go:366-378 | passes exactly when the count and the exact product fit, without computing a product that overflows |
| CloneState.MutableCloneState.RegisterMemorySpan | internal/authorize/strict_admission.go:380-391 | passes exactly for non-empty spans inside the address space that overlap no registered span |
| CloneState.MutableCloneState.IsShared | internal/authorize/strict_admission.go:601-634 | true exactly when the value reaches mutable memory; otherwise spends exactly its parts in nodes and finds no part too wide or too deep; a refusal is for depth, width or nodes found in the value |
| CloneState.MutableCloneState.CloneValue | internal/authorize/strict_admission.go:446-568 | keeps the invariant, leaves all older cells unchanged, meets exactly the cells of the pure depth-first walk, and pays exactly the cost of the value and of the cells newly met; returns a corresponding value free of faults, or a refusal that the walk, a fault, an overlap or an overdrawn budget in the input justifies; each call spends a node, so it terminates |
| CloneState.MutableCloneState.CloneElements | internal/authorize/strict_admission.go:529-537 | element by element, the same for a list of values |
| CloneState.MutableCloneState.CloneStruct | internal/authorize/strict_admission.go:540-557 | struct fields: exported ones cloned, the client cache kept, any other unexported one refused if it reaches memory |
| CloneState.MutableCloneState.CloneCell | internal/authorize/strict_admission.go:482-532 | a pointer, map or slice is entered in the memo before its contents are cloned, so cycles close on the copy; contents keep their order, and the cell is paid for once |
| CloneState.MutableCloneState.BeginPointer | internal/authorize/strict_admission.go:482-493 | a target is registered, paid for and given a blank copy, or refused for a bad or overlapping span or the byte budget |
| CloneState.MutableCloneState.BeginMap | internal/authorize/strict_admission.go:496-506 | the same for a map, which may have too many entries and has no span |
| CloneState.MutableCloneState.BeginSlice | internal/authorize/strict_admission.go:515-526 | the same for a slice up to its capacity, its byte count bounded before its span is registered |
| CloneInvariant.InvOpened | internal/authorize/strict_admission.go:490-493 | allocating a memoised blank copy and registering its span keeps the whole invariant |
| CloneInvariant.InvFilled | internal/authorize/strict_admission.go:494-495 | filling a copy with corresponding contents that show no fault keeps the whole invariant |
| CloneInvariant.DueOpened | internal/authorize/strict_admission.go:482-532 | opening a cell moves the cost of its contents from the cells to come to the values to come: what is due in all stays the same |
| CloneCost.RestSplit | internal/authorize/strict_admission.go:446-568 | the cost of a set of cells does not depend on the order in which they are met |
| CloneFaults.CleanCellShowsNothing | internal/authorize/strict_admission.go:366-401 | a cell is within its limits with clean contents if and only if it shows no fault |
| CloneFaults.DeepWithFewer | internal/authorize/strict_admission.go:350-356 | a descent possible with more cells met is possible with fewer |
| CloneDepth.WalkTooDeep | internal/authorize/strict_admission.go:350-356 | a walk that is too deep descends too deep without entering a cell twice |
| CloneDepth.HiddenDeepLess | internal/authorize/strict_admission.go:601-634 | fewer levels of an unexported field can always be descended |
| CloneDepth.TreeDepthExactly | internal/authorize/strict_admission.go:350-356 | a value without references is too deep for the walk exactly when some descent into it is |
| CloneCauses.FaultyContent | internal/authorize/strict_admission.go:482-532 | a fault in the contents of a cell is a fault of the reference to it |
| CloneReach.ReachClosed | internal/authorize/strict_admission.go:446-568 | reachable cells lead to reachable cells |
| CloneReach.ReachLeast | internal/authorize/strict_admission.go:446-568 | what is reachable is the least closed set of cells that covers the values |
| CloneReach.CauseIsInput | internal/authorize/strict_admission.go:446-568 | a cause met anywhere in a run is a cause in the input |
| CloneReach.CauseExcludes | internal/authorize/strict_admission.go:446-568 | an input with a cause for refusal does not fit or is not within the depth limit |
| CloneReach.ShallowIsWithinDepth | internal/authorize/strict_admission.go:350-356 | whatever the order of the walk, an input without a repeat-free descent beyond the limit is within it |
| CloneMemory.OverlapExactly | internal/authorize/strict_admission.go:380-401 | within their limits, cells clash exactly when two of them occupy a common address, that of a pointer's target or of a slice's elements up to capacity |
| CloneMemory.CellLimits | internal/authorize/strict_admission.go:366-401 | the limits of a cell in addresses, size and number of elements |
| CloneMemory.HiddenExactly | internal/authorize/strict_admission.go:601-634 | an unexported field is let through exactly when every part of it is inert: no reference, curve, address, function or digits, and nothing too wide |
| CloneMemory.FaultsExactly | internal/authorize/strict_admission.go:446-568 | an input is free of faults exactly when every value at the end of a path is harmless |
| CloneMemory.FitsExactly | internal/authorize/strict_admission.go:446-568 | an input fits if and only if its price is within the budgets, its reachable cells are within their limits and share no address, and every value on a path is harmless |
| CloneMemory.WalkedIsNear | internal/authorize/strict_admission.go:350-356 | a walk within the limit that meets all reachable cells finds each at the end of a path of at most 64 steps |
| CloneTheorems.FinishedFits | internal/authorize/strict_admission.go:446-568 | a finished run has met exactly the reachable cells and spent exactly the price, and its input fits |
| CloneTheorems.SameShape | internal/authorize/strict_admission.go:446-568 | a path of any length leads somewhere in the copy exactly when it does in the source, and to the corresponding value |
| CloneTheorems.SameSharing | internal/authorize/strict_admission.go:446-568 | two paths lead to one cell of the copy exactly when they do in the source, and none leads into the source |
| CloneTheorems.KeysStayDistinct | internal/authorize/strict_admission.go:507-513 | distinct keys, which Go can compare, stay distinct, so no map entry is lost |
| CloneTheorems.SharedExactly | internal/authorize/strict_admission.go:540-557 | a copied value holds a source cell exactly where a client cache does |
| CloneTheorems.CellsSharedExactly | internal/authorize/strict_admission.go:540-557 | a copied cell holds a source cell exactly where the original has a client cache holding it |
| CloneWitness.NestedCacheIsShared | internal/authorize/strict_admission.go:540-557 | a graph that every clone accepts and of which every copy holds a source cell |
| CloneWitness.OverlaidIsRefused | internal/authorize/strict_admission.go:380-391 | a graph with a pointer into the middle of another target, which is refused |
| CloneWitness.NestedPrice | internal/authorize/strict_admission.go:446-568 | what cloning a small graph costs in all |
| CloneWitness.SampleCells | internal/authorize/strict_admission.go:366-568 | what a cell of each kind, with a field of each kind, costs in nodes and bytes |
| CloneTheorems.CloneSession | internal/authorize/strict_admission.go:636-655 | succeeds if and only if the input fits its budgets, has no reachable fault or overlap and is walked within the depth limit, at exactly its price; then no two reachable cells share an address, every value on a path is harmless, every cell is within 64 steps, and the copy is isomorphic, outside the source and leaves it unchanged; otherwise a cause in the input and in the final state |
| CloneTheorems.CloneClient | internal/authorize/strict_admission.go:410-444 | the same for a client whose own key-set cache is cloned last with the same memo and the same budgets |
| CloneTheorems.PromotedIso | internal/authorize/strict_admission.go:431-444 | storing the cloned cache completes the isomorphism, the root cache included |
| SortedSets.ValidSortedSet | internal/authorize/strict_admission.go:1111-1128 | true exactly for lists within bounds, all valid, strictly sorted pairwise |
| SortedSets.SortedSubset | internal/authorize/strict_admission.go:1130-1142 | true implies inclusion on any lists; on strictly sorted lists it is exactly inclusion |
| SortedSets.ValidCanonicalSpaceSet | internal/authorize/strict_admission.go:1094-1109 | true exactly for canonical space-separated sets |
| SortedSets.SortedIsCanonical | internal/authorize/strict_admission.go:1111-1128 | strictly sorted lists with the same members are the same list |
| SortedSets.JoinSplit | internal/authorize/strict_admission.go:1094-1109 | joining what was split gives the string back |
| SortedSets.SplitJoin | internal/authorize/strict_admission.go:1094-1109 | splitting gives back the parts without spaces that were joined |
| SortedSets.LessExactly | internal/authorize/strict_admission.go:1111-1128 | strings are compared at their first difference, a proper prefix coming first |
| SortedSets.SameMembersSameString | internal/authorize/strict_admission.go:1094-1109 | two accepted strings with the same members are the same string |
| Surrogates.HasWellFormedSurrogates | internal/dpop/util.go:257-296 | accepts exactly quoted strings whose inside reads into escapes with complete unicode escapes and paired surrogates; never indexes out of range and terminates |
| Surrogates.ReadExactly | internal/dpop/util.go:257-296 | a text reads into exactly the tokens it writes, with hexadecimal digits of either case, and into none if it writes none |
| Dpop.IntegerJsonNumber | internal/dpop/util.go:234-255 | accepts exactly integers in the safe JSON range and returns their value |
| Dpop.NumeralRead | internal/dpop/util.go:234-255 | the decimal numeral of every integer reads back as that integer |
| Dpop.ReservationExpiry | internal/dpop/util.go:298-309 | refused exactly for negative settings or a sum outside int64, no intermediate result overflowing; otherwise the instant that the converted sum stands for |
| Dpop.UnixTime | internal/dpop/util.go:308-308 | the conversion keeps the instant exactly up to a bound and otherwise wraps to before every int64 time |
| Dpop.WindowExactly | internal/dpop/util.go:118-131 | a proof is in its window exactly before issue time plus lifetime plus leeway, and never if that sum is too far in the future to convert |
| Dpop.EndlessLifetimeRefuses | internal/dpop/util.go:298-309 | settings that pass and refuse a fresh proof |
| Dpop.ReplayGuard.Validate | internal/dpop/util.go:118-200 | accepts exactly in-window, checked, unreserved proofs and reserves them until their deadline |
| Dpop.ReplayGuard.ReserveJTI | internal/oidc/context.go:252-271 | succeeds exactly for an unreserved use with a working consumer; a reservation may survive a late failure |
| Dpop.NoEarlyReplay | internal/dpop/util.go:118-197 | in every run, after an acceptance no proof with the same key and jti is accepted before the first one's deadline |
| Dpop.NoReplay | internal/dpop/util.go:118-197 | in every run no proof is accepted twice |
| Dpop.ReservedExactly | internal/dpop/util.go:118-200 | in every run a key and jti are reserved exactly when a proof with both was presented in time, passed the checks and reached the store, and was not forgotten since |
| Dpop.AcceptedExactly | internal/dpop/util.go:118-200 | in every run from an empty store a proof is accepted if and only if it passes the checks, is in time, the consumer works and its own key and jti are not spent |
| Dpop.ReservationMatchesWindow | internal/dpop/util.go:118-131 | a reservation may be forgotten exactly when its proof would be refused anyway |
| Dpop.EarlyForgetReplays | internal/oidc/context.go:252-271 | a store that forgets earlier lets the same proof in again, and only such a store |
| Redemption.TokenService.GenerateAuthCodeToken | internal/token/auth_code.go:16-154 | succeeds and changes the store exactly as the redemption specification says, all failure paths included |
| Redemption.TokenService.GenerateCIBAToken | internal/token/ciba.go:196-322 | the same for an auth_req_id, with push clients refused |
| Redemption.TokenService.Consume | internal/token/auth_code.go:109-153 | consumption is saved before anything is issued, and any later failure revokes |
| Redemption.TokenService.GrantCIBARequest | internal/token/ciba.go:23-126 | when an approval succeeds, and which grant, session status and issue it leaves, for each delivery mode and each failing call |
| Redemption.TokenService.DenyCIBARequest | internal/token/ciba.go:134-166 | when a denial succeeds, and that a saved one marks the session failed |
| Redemption.RunKeepsOnce | internal/token/auth_code.go:47-153 | every run keeps: whoever was issued tokens holds a consumed grant, and was issued them once |
| Redemption.AtMostOnce | internal/token/ciba.go:23-322 | in every run each code and each auth_req_id yields tokens at most once, push and poll counted together |
| Redemption.IssuesAreRightful | internal/token/auth_code.go:47-153 | in every run, whoever was issued tokens is the client the grant was made for, before its expiry, with an allowed grant type, not polling as a push client, and the grant carries that request's thumbprints |
| Redemption.IssuesExactly | internal/token/auth_code.go:47-153 | a request issues tokens if and only if its grant is found, live, unconsumed, unexpired and the client's own, and every check and save passes |
| Redemption.GrantAfterRequest | internal/token/auth_code.go:55-153 | what a request leaves of the grant it names, in every case: consumed, revoked, both or as it was, and nothing else changes |
| Redemption.NothingToRedeem | internal/token/auth_code.go:16-57 | a request that is not admitted, or names no grant or a revoked one, changes nothing |
| Redemption.GrantsKeepTheirOwner | internal/token/ciba.go:23-322 | no run takes a grant away or changes its client or its expiry |
| Redemption.ApprovedGrant | internal/token/ciba.go:23-126 | an approval in time makes a grant with the session's client, expiry and thumbprints, consumed if tokens are pushed |
| Redemption.FailureRevokesForGood | internal/token/auth_code.go:59-153 | a redemption that reaches a live grant and fails leaves it revoked in all later states, when the revocation is saved |
| Redemption.RevokedStays | internal/token/auth_code.go:55-57 | no run brings a revoked grant back |
| Redemption.ReuseRevokes | internal/token/auth_code.go:59-62 | a second presentation issues nothing and revokes the grant of the first |
| Redemption.ConsumptionNeedsAClock | internal/token/auth_code.go:60-111 | a successful redemption can be repeated if and only if it happened at time zero |
| Redemption.RedeemedTwiceAtZero | internal/token/auth_code.go:60-111 | a code that yields tokens twice when the clock shows zero |
| Redemption.ApprovalReportsSuccess | internal/token/ciba.go:36-38 | an approval without error created a grant if and only if it came before expiry |
| Redemption.LateApprovalReportsSuccess | internal/token/ciba.go:36-38 | a late approval that reports success, grants nothing and saves a denial |
| Redemption.ApprovalIgnoresDenial | internal/token/ciba.go:23-79 | a denial does not change whether a request can be approved |
| Redemption.GrantedExactly | internal/token/ciba.go:23-79 | in every run a request gets a grant if and only if some approval comes in time, denied before or not |
| Redemption.NothingWithoutGrant | internal/token/ciba.go:210-236 | nothing is issued for a request that stays without a grant |
| Redemption.DeniedThenRedeemed | internal/token/ciba.go:23-165 | a run in which a request is denied, then approved and redeemed |
| Latches.TokenEndpointEvidence.MarkClientAuthenticated | internal/oidc/token_endpoint_evidence.go:31-55 | the latch always summarises the set of identifiers marked before the report: one name if they agree, a conflict otherwise; after the report it stays as it is |
| Latches.TokenEndpointEvidence.Emit | internal/oidc/token_endpoint_evidence.go:61-116 | the first emission reports its result, made valid, with the client all marks agree on; later ones change nothing |
| Latches.EvidenceFiresOnce | internal/oidc/token_endpoint_evidence.go:31-87 | under any interleaving the callback fires once if anyone emits, with the first result and the single identifier marked before it, or none on conflict |
| Latches.CallbackAtMostOnce | internal/oidc/token_endpoint_evidence.go:21-87 | the same for a whole request from a fresh latch: the report has the first result, or a server error if that is no valid result, and the one identifier marked before it, or none |
| Latches.ClientAssertionState.RecordAuthority | internal/oidc/context.go:72-98 | the latch always is the one determined by the set of values recorded so far |
| Latches.ClientAssertionState.AuthorityFor | internal/oidc/context.go:102-143 | evidence is returned exactly when one consistent, complete record exists for this client and it is expected |
| Latches.LatchDependsOnSet | internal/oidc/context.go:72-98 | the final state depends only on the set of recorded values, not on order or repetition |
| Latches.ConflictAbsorbs | internal/oidc/context.go:72-98 | a conflict is never undone |
| Latches.RecordedExactly | internal/oidc/context.go:72-98 | a record is held exactly when it and no other was recorded, and nothing exactly when nothing was |
| Dial.ValidateAddresses | internal/authorize/jar_network.go:109-127 | one prohibited or mapped address refuses the host; otherwise the distinct addresses in order |
| Dial.DialTarget | internal/authorize/jar_network.go:276-313 | only allowed addresses of the wanted family are dialled, in order, until one connects, and the target is prohibited exactly when there is none; if none overruns, every share is at least an equal part of the total, shares never shrink and the total is kept |
| Dial.EligibleInOrder | internal/authorize/jar_network.go:284-291 | the addresses tried are picked in order at exactly the positions of an allowed address of a wanted family |
| Dial.TimeLeft | internal/authorize/jar_network.go:282-283 | the total is the caller's deadline or the network timeout, whichever comes first |
| Dial.DialEach | internal/authorize/jar_network.go:292-312 | the attempts loop keeps the fairness promise at every step and says why it ended |
| Dial.ShareGrows | internal/authorize/jar_network.go:300-301 | using at most one's integer share of the time left makes the next share no smaller |
| ClientResolve.ResolveChoice | internal/client/resolve.go:763-787 | the search loop returns the first supported choice, or keeps or refuses the current value |
| ClientResolve.ChoiceStable | internal/client/resolve.go:763-787 | a resolved choice resolves to itself |
| ClientResolve.ResolveEncStable | internal/client/resolve.go:309-443 | signing and encryption settings of a resolved group resolve to themselves |
| ClientResolve.ResolveAuthnStable | internal/client/resolve.go:165-286 | authentication settings resolve to themselves if and only if TLS authentication is not combined with mutual TLS off |
| ClientResolve.ResolveSubjectStable | internal/client/resolve.go:597-603 | a resolved subject type resolves to itself |
| ClientResolve.ResolveCibaStable | internal/client/resolve.go:630-710 | resolved CIBA settings resolve to themselves |
| ClientResolve.ResolveIsNormaliser | internal/client/resolve.go:22-757 | resolution run on its own result succeeds and changes nothing, with the exact exception |
| ClientResolve.EncFixpoints | internal/client/resolve.go:309-443 | the encryption groups left alone by resolution are exactly the normal forms |
| ClientResolve.AuthnFixpoints | internal/client/resolve.go:165-286 | the authentication groups left alone are exactly the normal forms |
| ClientResolve.CibaFixpoints | internal/client/resolve.go:630-710 | the CIBA groups left alone are exactly the normal forms |
| ClientResolve.SubjectFixpoints | internal/client/resolve.go:597-603 | the subject types left alone are exactly the supported ones that agree with the client's list |
| ClientResolve.ResolveFixpoints | internal/client/resolve.go:22-757 | the records that resolution leaves alone are exactly the normal forms |
| ClientExact.FirstExactly | internal/client/resolve.go:780-786 | the value found is the supported choice at the least position |
| ClientExact.ChosenExactly | internal/client/resolve.go:763-787 | a choice comes to the value in use, if listed and supported, or to the first supported one of the list |
| ClientExact.EncExactly | internal/client/resolve.go:309-443 | a signing and encryption group resolves to another if and only if each field has its chosen value, its default where unset, or is cleared where the feature is off |
| ClientExact.AuthnExactly | internal/client/resolve.go:165-286 | client authentication resolves to another group if and only if method, algorithm, credentials, TLS names and endpoints are as the choice, the defaults and the server demand |
| ClientExact.SubjectExactly | internal/client/resolve.go:597-603 | the subject type is the chosen one or the server's default, and supported |
| ClientExact.CibaExactly | internal/client/resolve.go:630-710 | CIBA settings of clients that use it, and that they are cleared for all others |
| ClientExact.SoundExactly | internal/client/resolve.go:144-757 | the final checks in full: grant and response types, public clients, links, keys, pairwise hosts, control of keys, and the sector document listing every wanted URI |
| ClientExact.ResolveExactly | internal/client/resolve.go:22-757 | a client resolves to a record if and only if every field of it is settled, defaults for unset fields included, and it is sound |
| ClientRecord.ChoiceRetry | internal/client/resolve.go:763-787 | a choice that failed can be made once its value is cleared, if and only if the list holds something supported |
| ClientRecord.PickChoices | internal/client/resolve.go:23-142 | what the choices leave resolves as the record did or, when one failed, as the record would without the value that failed |
| ClientRecord.FillGroup | internal/client/resolve.go:309-443 | a group in place ends as resolved, and what it leaves when it fails resolves to nothing better |
| ClientRecord.FillAuthentication | internal/client/resolve.go:165-286 | the same for client authentication, before and after the names for TLS are dropped |
| ClientRecord.NoBetterFails | internal/client/resolve.go:22-757 | what is left of a record that does not resolve, in any half-rewritten state of its groups, does not resolve |
| ClientRecord.FillIn | internal/client/resolve.go:144-757 | defaults and checks in the order of the code end exactly as the resolution says, and what they leave when they fail does not resolve |
| ClientRecord.Client.ResolveInPlace | internal/client/resolve.go:22-757 | the record becomes its resolution or the run fails; keys, scopes, redirects, sector, maximum age and other links never change; after a failure a second run succeeds exactly when a choice failed and the record without that value resolves |
| ClientWitnesses.SecondRunFails | internal/client/resolve.go:558-563 | a record that resolves once and not twice |
| ClientWitnesses.SecondRunSucceeds | internal/client/resolve.go:24-27 | a record that fails once and resolves the second time |

## Left out

- JOSE parsing, signing, encryption and thumbprints, JWT claim validation, HTTP, DNS, TLS, JSON decoding, URL and IP parsing: oracles of the model, which may fail.
- Error codes and texts: an error is an error. Panics are told apart in merging operators and policies, parsing and resolving chains; the index panic on an empty list of content encryption algorithms counts as an error.
- Empty entity identifiers: identifiers are non-empty, because the JWT library does not compare an empty expected issuer or subject.
- Policies and metadata field by field: a map from field to operators or values stands for the struct fields. Their order is a parameter where it matters, in merging; the update of one field of a copy at a time is not captured.
- Dynamically typed custom attributes, and pointer-typed parameters (`jwks`, `default_max_age`), whose `one_of` lists would be merged by address.
- Scope texts: a scope is its list of tokens; policy values that contain spaces would be split differently when read back.
- Explicit registration with a trust chain header, trust marks, the entity's own configuration and the federation endpoints.
- Lookups that change during one search: the federation is fixed while a chain is searched and resolved.
- Statements.ParseStatement: header, time and required-claim checks are one oracle bit per token.
- Go reflection: the clone works on typed values and cells. The copy of a map or slice is filled once after its contents have been cloned, not element by element; a cycle through it ends at the same copy.
- The order of map entries: the clone walks them as they are listed. Go's order varies between runs, so an input within the depth limit in one order may be beyond it in another, unless it is shallow.
- The checks of the strict admission profile other than clones and canonical sets, and the Human authorization authority behind it.
- DPoP nonces, the HTU comparison, and the untyped JTI consumer, which keeps no expiry.
- Interleaving inside one token request: the stores offer no atomic check-and-set, so runs handle one request at a time. Stores keep their grants.
- Refresh, device, token exchange and pre-authorized code flows; what `NewGrant` and `Issue` do beyond storing the grant and succeeding or failing.
- What the evidence callback does, a recovered panic included: it runs after the lock is released and cannot reach the latch.
- Discovery documents, logout, rendering, examples and scripts: wide but shallow.
