# A verified model of the adjudication engine

The service answers one question: was an artifact validly signed at a given instant, judged by
the evidence that had been acquired by a knowledge cutoff? It searches a graph of certificates
for a path from the signer to a trust anchor, draws revocation conclusions from CRLs, delta
CRLs and OCSP responses, shrinks its own input to the objects it touched, and stores results
content-addressed so that an offline verifier can repeat them. This project models that engine
and the protocol around it, and proves what callers rely on.

How the files fit together, bottom up:

- `Strings`, `Basics`: strings and numbers listed in order.
- `Policies`, `NameConstraints`, `Certificates`: the rules on one, two or a whole path of
  certificates, each loop against a declarative reading; `PolicyMeaning`, `NameMeaning`: their
  results in full, in the certificates' own fields.
- `Revocation`, `RevocationViews`, `RevocationLedger`, `RevocationAccounting`,
  `RevocationEvaluator`: the evaluator as functions of the evidence, what they guarantee, its books
  over any sequence of calls, and the class that keeps them; `RevocationMeaning`, `ViewIds`: what
  CRLs, deltas and OCSP responses tell, which is believed, and what follows, in their own fields.
- `SearchSpec`, `SearchPaths`, `SearchProof`, `SearchProbes`, `SearchShrink`: the simple search over
  an abstract graph: soundness, optimality, complete negative answers, stability under leaving
  out what was not touched.
- `SearchMemory`, `MemoryShrink`: the search as it runs, beside a status cache that answers by issuer
  key; it is the simple search of the graph it saw, and it shrinks as well.
- `Worlds`, `PathMeaning`, `RejectionMeaning`, `Explorer`: the graph that certificates and evidence
  make, what a fit path and a reason for rejection are in their own fields, and the class that
  searches the graph within a budget.
- `Shrinking`, `Settling`, `SeenPaths`, `Reports`, `Engine`, `Traces`, `Verdicts`, `LateEvidence`: the
  shrinking loop, the result, the class that computes it, and what a verdict means.
- `Cutoffs`, `LongChains`, `CacheOrder`: inputs on which the depth limit and the status cache show.
- `Inputs`, `InputMeaning`, `StoredObjects`, `Packs`, `Verifier`: normalized inputs, stored objects and manifests,
  evidence packs, the verifier that accepts them, and (`PackMeaning`) what that means.
- `Uploads`, `BatchTexts`, `UploadHistories`, `Protocol`, `ProtocolSafety`, `ProtocolPins`,
  `ProtocolResults`, `ProtocolAnswers`, `ProtocolHistories`, `Store`, `Service`: uploads, the four tables as a transition system over any
  interleaving of instances, and the handlers as methods on the database.
- `Der`, `DerRoundTrip`, `DerReader`, `CanonicalJson`, `JsonInjective`, `JsonMeaning`, `JsonPrinter`,
  `Timestamps`: the encodings.

Four results run through all of this. `Settling.SettlingKeepsThePath`: the path found on all the
objects is the path found on what the shrinking loop leaves of them, although reachability, depth
cutoffs, visible evidence and the order in which the status cache is asked all change.
`ProtocolResults.StoredPacksAreAccepted`: in every reachable state every pack in the database passes
the offline verifier, provided only that no canonical text in its input reads as something else.
`ProtocolResults.StoredVerdictsMean` and `ProtocolResults.StoredVerdictsAreRight`: what a stored
verdict says about the sealed set as a whole, not just about what the engine looked at. `ProtocolResults.OneResponsePerRequest` and
`ProtocolResults.RepeatedRequests`: a request id has one successful response, ever, and every later
use of the id gets that response or a conflict. This covers adjudications in all their phases and
in flight side by side (`ProtocolResults.RepeatedAdjudications`).

What the engine decides is also stated in other terms than its own: a fit path, a status, a policy
or name verdict and a reason for rejection are defined over the fields of certificates, CRLs and
OCSP responses (`PathMeaning.FitPath`, `RevocationMeaning.Believed`,
`PolicyMeaning.PoliciesInOrder`, `NameMeaning.NamesInOrder`, `RejectionMeaning.Explained`), and
proved equivalent to what the loops and the search compute. What these definitions share with the
engine, the order of view ids and the spelling of hosts, has meanings of its own
(`ViewIds.IdsCompareAsTexts`, `NameMeaning.HostMeans`). The results about stored verdicts
take the question from the texts of the stored input (`Inputs.Poses`).

The status cache is keyed by the issuer's key, while the status also depends on the issuer's subject
key identifier (`RevocationAccounting.CacheIsTransparent` says exactly when that shows). The model
reads every status from the cache as the code does, so what it proves of the engine, of packs and of
shrinking holds for all certificates. What VALID means is stated for paths that are *passable* (each
certificate is unrevoked under some issuer candidate with the next one's key) and *safe* (under
every such candidate), and exactly for paths that are fit by the candidate first asked about
(`Verdicts.ValidAsAsked`). Where issuer candidates of one certificate that share a key agree on
their identifier, all of these are the fit paths, and VALID is equivalent to having one.

Where the code and its own documentation disagree, the model follows the code:

- A path may have 33 certificates, not 32: the last step to an anchor is made without a depth test.
  `LongChains.ThirtyThreeIsFound` shows one that is found and reported; a path that is found keeps to
  32 exactly when some valid path does (`SearchProof.LimitIsMet`).
- The rejection proof's `exploration_complete` speaks of the settled objects only. It is true exactly
  when the search nowhere ran out of depth below an anchor (`SearchProof.CompleteMeans`,
  `Verdicts.CompletenessMeans`). `LongChains.CompletenessIsOfThePack` is an input with a fit path of 34
  certificates that is not found although the exploration is reported as complete;
  `Verdicts.RejectionSpeaksForAll` says when a rejection speaks for all the objects.
- Which issuer is asked about first can decide the verdict: `CacheOrder.CacheHidesThePath` has a fit
  path of two certificates, a complete exploration and no path found; `CacheOrder.CacheFindsAPath` has
  the verdict VALID although no path at all is fit.
- The DER reader is documented to accept DER only; it also takes longer forms of a length and
  padded base-128 numbers. `DerRoundTrip` gives the exact condition under which what is read is
  what the encoder writes.
- Fractions of a second are documented to be preserved; digits beyond the sixth are cut off
  (`Timestamps.FractionsAreCutOff` says exactly when a fraction is preserved).
- The patterns for fingerprints and for policy identifiers also accept one newline at the end. Such a
  fingerprint names no object (`StoredObjects.NewlineNamesNothing`, `Packs.NewlineInputs`), and such a
  policy is no certificate's policy (`Inputs.NewlinePolicyNamesNothing`).
- A batch sent again is compared item by item as submitted, but for the spelling of times: another
  base64 text of the same bytes is another request (`ProtocolResults.RepeatedBatches`,
  `Uploads.CanonSame`).
- An empty initial policy set counts as anyPolicy, so enlarging it to a specific set can turn a
  pass into a failure; no other enlargement can (`Policies.EnlargingKeepsPass`).

## Model

| member | source | states |
|---|---|---|
| Policies.PendingAt | app/pki.py:451-466 | the scan returns the least remaining skip value over the certificates above the position, or none |
| Policies.ScanIsCounter | app/pki.py:451-466 | the quadratic scan agrees, at every position, with a one-pass counter that is decremented at each certificate and lowered by each constraint, as in section 6.1.4 (h) to (j) of RFC 5280 with every certificate counted; the `or 1` test reads it as "in effect" |
| Policies.EffectPersists | app/pki.py:439-443 | a constraint in effect at a position is in effect at every position below it |
| Policies.EffectMeansSkipsSpent | app/pki.py:439-443 | a constraint is in effect exactly when some certificate above asked for it and is more than its skip value away |
| Policies.CollectMappings | app/pki.py:477-487 | the issuer's mappings are grouped by subject policy, none lost or added, and a mapping that names anyPolicy is a fault |
| Policies.NarrowSet | app/pki.py:495-518 | the set after one certificate holds exactly the policies it lists or is mapped to that were allowed above, and what anyPolicy keeps open |
| Policies.PassCertificate | app/pki.py:469-518 | one turn of the loop faults exactly on a mapping in force that names anyPolicy, and otherwise narrows the valid set |
| Policies.NarrowDenotes | app/pki.py:498-518 | reading anyPolicy as all policies and NULL as none, a certificate keeps of the denoted set exactly the policies it asserts; NULL stays NULL |
| Policies.ValidIsIntersection | app/pki.py:468-518 | the denoted set at a position is the intersection of what every non-anchor certificate from the anchor down to it asserts; it is open exactly when each accepts anyPolicy |
| Policies.NarrowingIsPermanent | app/pki.py:489-518 | from anchor to leaf the denoted set only shrinks; NULL and the loss of anyPolicy are permanent |
| PolicyMeaning.VerdictInFull | app/pki.py:426-564 | the result in full, in the certificates' fields: when an explicit policy is needed, mappings are off and anyPolicy is off, by positions and skip values; which policies are left; a forbidden mapping is blamed on the highest issuer that has one, the other three faults are told apart by what is left at the leaf, and a pass reports exactly what is left, cut down to a specific initial set |
| PolicyMeaning.PassesMeans | app/pki.py:520-564 | the path passes exactly when, read in fields, no mapping in force touches anyPolicy, a named policy is left if one is needed, and a specific initial set meets what is left |
| Policies.EnlargingKeepsPass | app/pki.py:521-564 | enlarging the initial policy set turns no pass into a failure, on any path, exactly when the smaller set is not empty or the larger one is not specific |
| Policies.EvaluatePolicies | app/pki.py:426-564 | the loops return the verdict that PolicyMeaning.VerdictInFull describes, with the blamed position |
| NameConstraints.DnsMatchesByLabels | app/pki.py:330-334 | a DNS name matches exactly when, compared in lower case without trailing dots, the constraint's labels are the last labels of the name |
| NameMeaning.HostMeans | app/pki.py:330-334 | hosts are compared by their letters made small and without the dots at their end |
| NameMeaning.LowerMeans | app/pki.py:330-334 | each capital letter becomes its small letter and every other character stays |
| NameMeaning.UriMatchesByLabels | app/pki.py:337-354 | a URI matches exactly when it has a host and, for a constraint with a leading dot, the host has more labels and ends in those of the constraint; for any other, when the host is the constraint |
| NameMeaning.DirMatchesByElements | app/pki.py:357-363 | a directory name matches exactly when it starts with the elements of the constraint |
| NameConstraints.SubtreesNest | app/pki.py:330-363 | for DNS and directory names, what lies in a subtree of a subtree lies in the larger one |
| NameConstraints.NameVerdictMeans | app/pki.py:366-419 | the checks succeed exactly when every name of every non-anchor certificate avoids all excluded subtrees of the non-anchor certificates above it and, if any permitted subtree of its kind exists above, lies in one of them |
| NameMeaning.VerdictInFull | app/pki.py:366-419 | the result in full, kind by kind in the certificates' fields: clear exactly when no DNS, URI or directory name lies in a subtree excluded above it and each lies in one permitted above it if there are any; else the certificate nearest the anchor is blamed, for its first kind of name that is out of order |
| NameConstraints.ExcludingMoreNeverHelps | app/pki.py:386-408 | adding excluded subtrees never turns a failing path into a passing one |
| NameConstraints.GatherSubtrees | app/pki.py:373-389 | the first pass accumulates for each position exactly the subtrees of the non-anchor certificates above it |
| NameConstraints.CheckKind | app/pki.py:399-418 | the second pass over the names of one kind finds a fault exactly when one breaks a constraint, excluded subtrees first |
| NameConstraints.CheckNameConstraints | app/pki.py:366-419 | the two passes return the verdict that NameMeaning.VerdictInFull describes, with the breached certificate closest to the anchor |
| RevocationViews.ViewsExact | app/revocation.py:544-666 | the loops build exactly one view per valid complete CRL, per compatible base and delta, and per authorized matching OCSP response |
| RevocationViews.MergesAreDocumented | app/revocation.py:586-600 | on parsed CRLs there is a merged view exactly for the valid pairs that the documented rule lets merge: same issuer, key and scope, the number the delta names, and a greater number of its own; the parser leaves no delta without a number in profile |
| RevocationViews.SelectedIsBest | app/revocation.py:682-683 | the selected view is the unique one with the greatest as_of and then the least view id; there is one exactly when there is any view |
| RevocationViews.CrlsAreSorted | app/revocation.py:551-584 | a CRL is used exactly when it is timely, in profile, not for another key and signed by the issuer, as a delta if it has a base number; otherwise it counts as a defect unless it is late or for another key |
| RevocationViews.FirstMatchMeans | app/revocation.py:641-647 | the single response that speaks for a certificate is the first one that matches it |
| RevocationViews.OcspsAreSorted | app/revocation.py:617-666 | an OCSP response is used exactly when it is timely, in profile, has a matching single response that gives a time if it says revoked, and is signed by the issuer or an entitled delegate |
| RevocationViews.SomeDelegate | app/revocation.py:445-465 | a delegate is accepted exactly when some embedded certificate passes all checks |
| RevocationMeaning.ConclusionMeans | app/revocation.py:675-726 | in fields only: the source believed is the usable CRL, base with delta, or OCSP response that is latest, then least by id; the conclusion, with revocation time and reason, follows from what it tells; without any it is MALFORMED if something in scope is broken, else UNKNOWN |
| RevocationMeaning.StatusMeans | app/revocation.py:704-726 | status, revocation time and reason by the selected view's own evidence: the CRL's entry for the serial number, the delta's entry where it has one and else the base's, or the first single response about the certificate, against the signing time, thisUpdate and nextUpdate |
| RevocationMeaning.GoodMeans | app/revocation.py:704-726 | GOOD exactly when what the evidence tells, in its fields, says so |
| RevocationMeaning.CrlFateMeans | app/revocation.py:551-584 | each reason for not using a CRL, and complete or delta, is given exactly for its fields: late, out of profile, for another key, not signed |
| RevocationMeaning.OcspFateMeans | app/revocation.py:617-672 | each reason for not using an OCSP response is given exactly for its fields, and the responder is the issuer if it signed, else the first embedded certificate that may sign for it |
| ViewIds.IdsCompareAsTexts | app/revocation.py:477-486 | view ids are compared as their texts are: kind, hexadecimal fingerprint, and the delta's after a plus sign |
| RevocationViews.LateEvidenceCannotInterfere | app/revocation.py:551-554 | deleting all evidence received after the cutoff changes neither the conclusion nor the selected view |
| RevocationViews.RelevantEvidenceSuffices | app/revocation.py:548-549 | an inquiry can be answered from the evidence it touched alone |
| RevocationViews.KnowledgeIsMonotone | app/revocation.py:551-554 | raising the cutoff never loses the selected view nor lowers its as_of |
| RevocationViews.SameKeyInterchangeable | app/revocation.py:507-515 | the status cache is keyed by the issuer's key, but two issuers with one name and key are interchangeable for a certificate, whatever the evidence, exactly when they agree on the subject key identifier |
| RevocationLedger.NoteAllEffect | app/revocation.py:517-528 | a record once made stands, except that "used" replaces anything else |
| RevocationAccounting.LogContents | app/revocation.py:537-542 | what an inquiry excludes and why: every unusable CRL, every delta without a base, every unusable OCSP response, and nothing else |
| RevocationAccounting.EvaluatedMeans | app/revocation.py:537-542 | the evidence an outcome lists is what the inquiry looked at: used if it was selected, else as an earlier inquiry left it, else with this inquiry's reason |
| RevocationAccounting.LogCoversRelevant | app/revocation.py:548-549 | every object looked at is written down, and no other |
| RevocationAccounting.UsedMeansSelected | app/revocation.py:684-692 | "used" is written for the selected view's evidence only |
| RevocationAccounting.DefectsMeanDefective | app/revocation.py:537-541 | the count of defects is positive exactly when some evidence is defective |
| RevocationAccounting.BooksAlwaysBalance | app/revocation.py:507-528 | after any sequence of status calls the accounted evidence is exactly the touched evidence, and a record is "used" exactly when some cached outcome selected it |
| RevocationAccounting.BooksOnlyGrow | app/revocation.py:507-528 | later calls never take "used" back, nor drop a record, a cached outcome or touched evidence |
| RevocationAccounting.CacheIsTransparent | app/revocation.py:507-515 | every cached outcome is the answer a fresh computation gives to any issuer candidate with that key, after any calls on any evidence, exactly when issuer candidates of one certificate that share a key share their subject key identifier |
| RevocationEvaluators.MergeEntries | app/revocation.py:601-606 | a merged CRL looks up every serial as the delta says if it mentions it, else as the base says |
| RevocationEvaluators.RevocationEvaluator.Status | app/revocation.py:507-515 | a call leaves the books as one more inquiry does and returns the cached outcome |
| RevocationEvaluators.RevocationEvaluator.SiftCrl | app/revocation.py:548-584 | one CRL is excluded for the first reason that applies, kept as a delta, or made a view |
| RevocationEvaluators.RevocationEvaluator.FindBases | app/revocation.py:588-599 | the bases of a delta are exactly the compatible valid complete CRLs, in fingerprint order |
| RevocationEvaluators.RevocationEvaluator.MergeDeltas | app/revocation.py:586-613 | every delta is merged with each of its bases, or excluded for want of one |
| RevocationEvaluators.RevocationEvaluator.VerifyAuthorization | app/revocation.py:431-466 | the responder is the issuer if it signed, else the first embedded delegate that passes all checks |
| RevocationEvaluators.RevocationEvaluator.SiftOcsp | app/revocation.py:617-666 | one OCSP response is skipped, excluded for the first reason that applies, or made a view |
| RevocationEvaluators.RevocationEvaluator.Compute | app/revocation.py:530-726 | a computation returns the conclusion that RevocationMeaning.ConclusionMeans describes and writes exactly its log into the books |
| SearchPaths.ClimbsMeans | app/graph.py:238-277 | a climbing path repeats no certificate, has no anchor before its end, and passes every edge check |
| SearchPaths.VisitSound | app/graph.py:227-277 | whatever a visit finds is a complete path that extends the partial one, within the depth |
| SearchPaths.VisitComplete | app/graph.py:227-277 | if a complete path within the depth extends this one, the visit finds one at most as late in lexicographic order, despite the reachability prefilter |
| SearchPaths.VisitStable | app/graph.py:273-274 | a visit without a cutoff is the same at every greater depth |
| SearchPaths.LexBelowStrict | app/graph.py:94-101 | the order of paths is strict and compares no path with its own prefix |
| SearchProof.SearchIsOptimal | app/graph.py:111-128 | the search returns a path exactly when a valid one of at most 33 certificates exists, and then the one with fewest certificates and of these the lexicographically least |
| SearchProof.NegativeIsComplete | app/graph.py:121-134 | if the proof says the exploration was complete, no valid path of any length exists |
| SearchProof.LimitIsMet | app/graph.py:121-127 | a path that is found has at most 32 certificates exactly when some valid path has |
| SearchProof.CompleteMeans | app/graph.py:271-273 | a proof is complete exactly when the leaf itself is rejected or no path climbs from it, in as many steps as the depth limit, to a certificate that is no anchor but has a way to one |
| SearchProof.ProofCoversEveryRoute | app/graph.py:240-277 | recorded branches are in lexicographic order and prefix-free, each ends at the rule that rejects it, and in a complete proof every simple route from leaf to anchor has exactly one of them as a prefix |
| SearchProbes.ProbesOfSearch | app/graph.py:182-187 | the search asks only for the status of edges between certificates it touched that passed all earlier checks |
| SearchProbes.FoundIsAsked | app/graph.py:182-187 | every step of a found path has been asked about |
| SearchShrink.SearchShrinks | app/adjudicate.py:245-250 | searching a smaller graph that keeps all that was touched, with the same statuses, gives the same path or again none, at no greater cost, touching and asking nothing new; a complete exploration stays complete |
| SearchMemory.RunIsSearch | app/revocation.py:507-515 | the search beside the status cache is the simple search of one graph, the graph with the answers it was given |
| SearchMemory.CacheMakesNoDifference | app/revocation.py:507-515 | if issuer candidates of one certificate with one key give one status, the cache makes no difference to the search |
| MemoryShrink.RoundsAskFirst | app/graph.py:263-270 | what the search on the smaller graph asks about a certificate, the larger search has asked about it first and in the same order, although pruning and an earlier stop leave out other questions |
| MemoryShrink.RunShrinks | app/adjudicate.py:245-250 | the search beside the cache gives on the smaller graph the same path or again none, at no greater cost, though the cache is asked in another order; nothing is assumed of keys and identifiers |
| Cutoffs.LimitIsExceeded | app/graph.py:258-262 | for every n, a chain of n issuers up to an anchor is found within depth n: the path has n + 1 certificates |
| Cutoffs.OneTooMany | app/graph.py:271-273 | one issuer more and the valid path is not found; the proof says that the exploration is not complete |
| LongChains.ThirtyThreeIsFound | app/graph.py:258-262 | certificates and a CRL on which the engine finds and reports a path of 33 certificates |
| LongChains.CompletenessIsOfThePack | app/graph.py:131-134 | certificates and a CRL with a fit path of 34 certificates on which the engine finds none and reports a complete exploration of what it settled on |
| Worlds.TerminalMeans | app/graph.py:204-224 | a path passes the terminal checks exactly when the anchor is in profile and valid, every name is in order and the policies pass |
| Worlds.ObjectsHold | app/adjudicate.py:184-224 | what the graph is made of: the certificates under the fingerprints they are filed under, CRLs and OCSP responses with their times of receipt, and the signing time and cutoff of the question |
| PathMeaning.StepMeans | app/graph.py:154-188 | an edge passes exactly when, in the fields of the two certificates, the issuer fits in name, key, signature, validity, CA flag, key usage and path length, this against the number of positions below that hold a CA that is not self-issued, and the status is GOOD |
| PathMeaning.BelowCountMeans | app/graph.py:175-178 | the count below an issuer is the size of the set of positions on the path that hold a CA with different subject and issuer |
| PathMeaning.RulesMean | app/graph.py:204-224 | a path passes the terminal checks exactly when its anchor is in force and its names and policies are in order, all in fields |
| PathMeaning.ValidPathMeans | app/graph.py:137-224 | with whatever statuses, the paths the search calls valid are exactly the well built ones, read certificate by certificate, with every status GOOD |
| PathMeaning.FitPathMeans | app/graph.py:137-224 | with the statuses the evidence gives, they are exactly the fit paths: well built, and each certificate unrevoked under the next by what the evidence tells in its fields |
| PathMeaning.CoherentReadings | app/revocation.py:507-515 | if issuer candidates of one certificate with one key agree on their identifier, passable, safe and fit paths are the same |
| RejectionMeaning.LeafRejectionMeans | app/graph.py:137-152 | a leaf is rejected for the first broken check of a table over its fields |
| RejectionMeaning.EdgeRejectionMeans | app/graph.py:154-181 | a step is rejected for the first broken check of a table over the fields of both certificates, with the code and the certificate it blames |
| RejectionMeaning.PathRejectionMeans | app/graph.py:204-224 | a whole path is rejected for its anchor, else for its names, else for its policies, with the fault and the certificate that their readings in fields give |
| RejectionMeaning.BranchMeans | app/graph.py:227-277 | every branch that the search justifies is explained in fields: a path of fit steps that its end or its next step rejects, for the reason recorded |
| SeenPaths.ToldMeans | app/revocation.py:507-515 | the answer given about an edge is the status under some issuer candidate with the same key |
| SeenPaths.SeenPathMeans | app/graph.py:182-188 | what the search beside the cache calls valid is passable, and what is safe it calls valid |
| Explorers.Explorer.constructor | app/graph.py:54-71 | a new explorer searches the graph of the active certificates and evidence, with nothing touched, spent, asked or recorded |
| Explorers.Explorer.ComputeAnchorReachable | app/graph.py:74-84 | the worklist computes exactly the certificates with a chain of issuer edges to a present anchor, whichever element of the stack is popped |
| Explorers.Explorer.ParentsOf | app/graph.py:94-101 | the candidates are exactly the issuers by name and key that are not on the path, in fingerprint order |
| Explorers.Explorer.VerifyEdgeSignature | app/graph.py:190-202 | the remembered answer is the true one |
| Explorers.Explorer.CountBelow | app/graph.py:175-178 | the loop counts the certificates on the path that are CAs and not self-issued, which PathMeaning.BelowCountMeans gives as the size of a set |
| Explorers.Explorer.PlainChecks | app/graph.py:154-181 | the checks before revocation fail for the first reason that applies, or pass |
| Explorers.Explorer.AskStatus | app/graph.py:182-188 | the status given for an edge is the one first found for that certificate and issuer key, under whichever issuer it was |
| Explorers.Explorer.TerminalChecks | app/graph.py:204-225 | the terminal checks give the failure of the path, in order |
| Explorers.Explorer.SpendOne | app/graph.py:103-108 | one more step is counted; the budget is exceeded when the count passes the limit |
| Explorers.Explorer.Dfs | app/graph.py:227-277 | a visit that runs out of budget is one whose full cost exceeds what was left; any other changes the fields and answers as specified |
| Explorers.Explorer.TryParents | app/graph.py:251-276 | the loop tries the candidates in order up to the first that leads to a path |
| Explorers.Explorer.Search | app/graph.py:111-134 | the whole search answers, touches, asks and records as specified, unless its cost exceeds the budget |
| Engines.SortLists | app/adjudicate.py:194-195 | sorting the index lists keeps what is filed under each key |
| Engines.IndexCerts | app/adjudicate.py:186-195 | the indexes by subject and by issuer list exactly the active certificates |
| Engines.IndexEvidence | app/adjudicate.py:196-213 | the CRL index and the OCSP list hold exactly the active evidence |
| Engines.Engine.ExploreOnce | app/adjudicate.py:184-229 | one exploration is the search on the active objects; what it touched is what search and evaluator touched among them |
| Engines.Engine.AnyUnsupported | app/adjudicate.py:254-258 | the loop finds an UNSUPPORTED branch exactly when there is one |
| Engines.Engine.TracePath | app/graph.py:280-305 | the trace names each certificate's role, signer and filed revocation status |
| Engines.Engine.Shrink | app/adjudicate.py:245-250 | the loop ends, with the results of the exploration of the set it settles on |
| Engines.Engine.Run | app/adjudicate.py:231-310 | the run raises the two errors or returns the report on the settled objects |
| Shrinking.AskedAllCovers | app/revocation.py:548-549 | all evidence relevant to any answered inquiry has been touched, also when the answer came from the cache |
| Shrinking.ProbesCovered | app/adjudicate.py:226-228 | for every status the search asked for, both certificates and all relevant evidence are in the touched set |
| Settling.FewerObjectsSubGraph | app/adjudicate.py:184-225 | leaving out objects leaves out vertices of the graph and changes no check but revocation |
| Settling.StatusKept | app/adjudicate.py:226-228 | every status that was asked for would be found the same on the touched objects alone |
| Settling.OneTurn | app/adjudicate.py:245-250 | exploring only what an exploration touched gives the same path or again none, at no greater cost; a complete exploration stays complete |
| Settling.SettlingIsStable | app/adjudicate.py:245-250 | what the loop settles on touches all of itself, and the loop settles on it at once when it starts there |
| Settling.SettlingKeepsThePath | app/adjudicate.py:245-250 | the loop runs out of budget only in its first turn, and the path found on all the objects is the path found on what it settles on |
| Verdicts.SelfContained | app/adjudicate.py:245-310 | running the engine on exactly the settled objects gives the identical result and the identical set |
| Verdicts.FailuresMean | app/adjudicate.py:231-250 | there is no result exactly when the leaf is no certificate among the objects, or exploring all of them takes more than 65,536 steps |
| Verdicts.VerdictMeans | app/adjudicate.py:259-260 | VALID exactly when the leaf's key signed the artifact and a path is found; the path is passable among all the objects, has at most 33 certificates, and no safe path is better; one is found whenever all the objects have a safe path of at most 33 |
| Verdicts.ValidAsAsked | app/adjudicate.py:259-260 | on all certificates VALID exactly when the leaf's key signed the artifact and there is a path of at most 33 certificates that is fit by the issuers first asked about among those with one key; the reported path is the best of these |
| Verdicts.ValidMeans | app/adjudicate.py:259-260 | on coherent certificates VALID exactly when the leaf's key signed the artifact and all the objects have a fit path of at most 33 certificates; the reported path is the best of all fit paths, and keeps to 32 exactly when some fit path does |
| Verdicts.NegativeMeans | app/adjudicate.py:289-294 | without a path there is a rejection proof; about the settled objects it is justified, ordered, prefix-free and, if complete, covers every route and excludes any safe path |
| Verdicts.BranchesMean | app/adjudicate.py:289-294 | every branch of a reported proof is explained in the fields of the settled certificates; its code is UNSUPPORTED exactly when its last certificate is out of profile; a rejected leaf is the only branch |
| Verdicts.CompletenessMeans | app/graph.py:131-134 | the reported proof is complete exactly when the leaf is rejected or the search of the settled objects nowhere runs out of depth below an anchor |
| Verdicts.RejectionSpeaksForAll | app/adjudicate.py:245-250 | if the first exploration nowhere runs out of depth below an anchor, the proof of a rejection is complete and all the objects hold no safe path of any length; in general they hold none exactly when they hold none of more than 33 certificates |
| Verdicts.UnresolvedMeans | app/adjudicate.py:252-264 | UNSUPPORTED exactly when not VALID and the leaf's key, the leaf or the last certificate of a rejected branch is out of profile |
| Verdicts.PackIsAccounted | app/adjudicate.py:296-301 | the accounting lists exactly the CRLs and OCSP responses among the settled objects, "used" exactly when some outcome of the run selected them |
| Traces.FiledByACall | app/revocation.py:513-514 | the outcome on file for a certificate is that of some call about it |
| Traces.FiledStatus | app/revocation.py:513-514 | if no signature verifies under two keys, the filed outcome has the status of the edge asked about |
| Traces.TraceIsGood | app/graph.py:280-305 | under that condition the trace of a found path shows every certificate below the anchor with its role, as GOOD and signed by the next |
| Verdicts.ReportedTraceIsGood | app/adjudicate.py:283-287 | the trace in the report of a found path is good throughout |
| Verdicts.ReportedPoliciesMean | app/adjudicate.py:267-282 | the policies reported with a path are exactly those that its certificates leave, read in fields; without a path there are none |
| LateEvidence.KnownSettles | app/adjudicate.py:245-250 | without the evidence received after the cutoff the loop settles on the same objects but for that evidence, though perhaps in fewer turns |
| LateEvidence.LateEvidenceChangesNothing | app/revocation.py:551-554 | removing all evidence received after the cutoff leaves verdict, path, trace, policies, rejection proof, revocation conclusions and selected views as they were |
| CacheOrder.CacheHidesThePath | app/revocation.py:507-515 | a root without a key identifier beside a cross-certificate of the same name and key: there is a fit path, the exploration is complete, and no path is found |
| CacheOrder.CacheFindsAPath | app/revocation.py:507-515 | a newer CRL under another key identifier revokes the leaf and the cross-certificate under the root: no path is fit, and the verdict is VALID by what was answered about the cross-certificate |
| Inputs.FingerprintsAreNumbers | app/canonical.py:199-203 | fingerprints of different text are different numbers, and the text order of 64 hex digits is the order of the numbers |
| ViewIds.FingerprintsCoverNumbers | app/canonical.py:199-203 | every number below 16^64 is that of one fingerprint text, its 64 hexadecimal digits |
| Inputs.ValidateInput | app/adjudicate.py:61-125 | on any JSON value the checks and loops reject with the first error, missing and mistyped fields included, or return the normal form |
| Inputs.RawErrorMeans | app/adjudicate.py:61-113 | an input is accepted exactly when its fields are there with the right types and their texts pass; on well typed inputs the errors are those of the texts |
| InputMeaning.AcceptedMeans | app/adjudicate.py:61-113 | an input is accepted exactly when it is an object whose fields are as spelled out, down to the characters of fingerprints and policy identifiers and the names of the algorithms |
| InputMeaning.PolicyErrorMeans | app/adjudicate.py:111-113 | a policy that is a wrong text or counts as false is invalid, and any other value that is no text raises an exception |
| Inputs.OneQuestion | app/adjudicate.py:159-168 | an input that can be read poses exactly one question, told from its texts, and the engine is asked this one about the signature, algorithm and digest in the texts |
| Inputs.NewlinePolicyNamesNothing | app/adjudicate.py:33 | an initial policy that ends in a newline is accepted and equals no dotted identifier |
| Inputs.NormalizingAgain | app/verify.py:125-132 | a normal form is valid and its own normal form exactly when its signature and times are in canonical form, as they are if what they say is kept by that form |
| Inputs.SameFormSameMeaning | app/adjudicate.py:104-125 | two valid inputs have one normal form exactly when they say the same, whatever the order and repetition of lists and the spelling of texts |
| Strings.SortedUnique | app/adjudicate.py:107-114 | a set of strings has one sorted list |
| Strings.SortDistinct | app/adjudicate.py:107-114 | sorting the distinct strings of a list gives that list |
| StoredObjects.CountsInsert | app/store.py:95-110 | one more object changes the aggregate counts by exactly its own |
| StoredObjects.CountsMean | app/store.py:95-110 | the counts are sizes: of the sets of certificates, CRLs and OCSP responses, of all objects, and of the set of all their entries |
| StoredObjects.EntriesListRows | app/api.py:361-366 | the manifest lists exactly the stored objects with their type and time of receipt |
| StoredObjects.ManifestDeterminesRows | app/api.py:375-382 | under collision-free hashing two sets have one manifest exactly when they hold the same objects |
| StoredObjects.NewlineNamesNothing | app/canonical.py:199-203 | a fingerprint that ends in a newline is accepted and names no stored object |
| Packs.CollectObjects | app/api.py:450-457 | an evidence pack lists the touched objects in fingerprint order |
| Packs.ComputePack | app/api.py:446-471 | phase 2 builds the evidence pack of the engine's result, or fails when the engine does |
| Packs.NewlineInputs | app/adjudicate.py:231-240 | with such a leaf the engine fails, and no certificate is such an anchor |
| Packs.BuiltPackIsReproduced | app/verify.py:144-158 | the rerun on a built pack's own objects touches all of them and gives the recorded result |
| Packs.BuiltPackIsAccepted | app/verify.py:39-161 | a pack the API builds for a sealed set and a readable input passes every check of the verifier exactly when the input is its own normal form |
| Packs.AcceptedPacksAreDetermined | app/verify.py:39-161 | of all packs about one digest, input and list of objects the verifier accepts at most one |
| PackMeaning.AcceptedObjectsMean | app/verify.py:72-122 | every object of an accepted pack is an object of any set with the pack's digest, with its type, time of receipt and DER; they come in fingerprint order, each once |
| PackMeaning.AcceptedVerdictsMean | app/verify.py:144-158 | the verdict of an accepted pack is bounded by the passable and safe paths among the pack's objects, and right on coherent certificates, for the question that the texts of its input pose |
| Verifiers.CheckObjects | app/verify.py:72-95 | the loop accepts exactly when every object's hash is its fingerprint and it decodes |
| Verifiers.StrictlySorted | app/verify.py:96-98 | the check holds exactly for strictly ascending fingerprints |
| Verifiers.IndexManifest | app/verify.py:112-114 | the index keeps for each fingerprint the last line about it |
| Verifiers.CheckCoverage | app/verify.py:115-122 | the loop accepts exactly when every object agrees with its manifest line |
| Verifiers.VerifyPack | app/verify.py:39-165 | one failure is logged exactly when the evidence pack is not acceptable, and the answer says whether the log is clean |
| Uploads.TakenMeans | app/api.py:246-277 | an item is taken as an object exactly when its JSON fields name this type, DER and time of receipt, or no time for a certificate, the DER has 1 byte to 32 MiB and parses, and the object is filed under its hash with the number of its CRL entries or single responses |
| Uploads.TurnedMeans | app/api.py:246-277 | an item is turned away for the first of object, type, DER, size, time and parsing that is wrong with its fields |
| Uploads.TakenIsWellFiled | app/api.py:246-277 | an item that passes the checks is filed under its hash, decodes, and counts its entries |
| Uploads.CanonKeepsMeaning | app/api.py:219-227 | the form an item is digested in passes the checks with the same outcome, and is its own canonical form |
| Uploads.CanonSame | app/api.py:219-227 | two items are digested alike exactly when they have the same fields but for the time of receipt, and this is written alike or is one and the same instant |
| BatchTexts.BatchesPrintAlike | app/api.py:228-231 | the sorted and printed items of two batches are the same text exactly when the batches hold the same items, each as often |
| UploadHistories.UploadMeans | app/api.py:283-331 | a stored batch adds the first submission of each object that was not there, changes nothing else, and reports the counts of the set afterwards |
| UploadHistories.LimitsAreExact | app/api.py:240-319 | a batch is refused for the first of the five limits that it would exceed, in items, bytes, and certificates, evidence and entries of the set afterwards, and stored otherwise |
| UploadHistories.ReceiptsConserve | app/api.py:283-340 | every item of a batch is added, a duplicate or rejected, exactly once; added is what the set did not have, rejected are the items turned away with their places and errors; the lists of names are sorted |
| UploadHistories.SortNamesIsStable | app/api.py:325-330 | sorting the names keeps those of one object in their order |
| UploadHistories.HistoryMeans | app/api.py:283-331 | after any batches a set holds exactly the first offer for every object, within the limits |
| UploadHistories.HistoriesAgree | app/api.py:361-382 | two histories seal to one manifest exactly when for every object the first submissions agree on type and time of receipt |
| UploadHistories.UploadsAreConfluent | app/api.py:283-331 | order, batching and repetition do not matter: histories that submit the same objects, each with one time of receipt, seal to one manifest |
| ProtocolSafety.StepOk | app/api.py:99-131 | every step keeps the invariant of the tables and of the adjudications in flight, and leaves sealed sets, stored responses and stored adjudications as they were |
| ProtocolSafety.RunOk | app/api.py:345-515 | the invariant holds after every sequence of steps of any number of instances |
| ProtocolSafety.RunKeeps | app/api.py:345-515 | what is sealed or stored at some point of a run is there, unchanged, at every later one |
| ProtocolPins.PinsComeFromRequests | app/api.py:399-421 | in every run what an adjudication in flight has pinned was asked by an earlier step of its client, and its digest is that of the request |
| ProtocolPins.RowsComeFromRequests | app/api.py:475-496 | in every run a stored adjudication was asked by a step of the run with its set and the normal form of its input, and its request id is on file with its result and digest |
| ProtocolResults.SealedSetsNeverChange | app/api.py:352-390 | a sealed set keeps its digest and objects, and the digest is that of the manifest of its current objects |
| ProtocolResults.LimitsAlwaysHold | app/api.py:303-319 | no set in any reachable state has more than 100,000 certificates, 2,000 CRLs and OCSP responses, or 1,000,000 entries |
| ProtocolResults.StoredResultsAreTheEngines | app/api.py:446-496 | a stored adjudication is what the engine makes of the objects of any set sealed to its digest |
| ProtocolResults.StoredPacksAreAccepted | app/api.py:458-471 | a stored pack is accepted by the verifier exactly when the signature and times of its input are in canonical form; every stored pack is, unless a canonical text of an input of the run reads as something else |
| ProtocolResults.StoredVerdictsMean | app/api.py:475-496 | whatever set is sealed to the digest of a stored adjudication, for the question that the texts of its input pose: VALID only if the artifact is signed and the whole set has a passable path of at most 33 certificates, and VALID if it is signed and the set has a safe one |
| ProtocolResults.StoredVerdictsAreRight | app/api.py:475-496 | on coherent certificates a stored verdict is VALID exactly when the artifact in the texts of the input is signed by the leaf's key and any set sealed to its digest has, as a whole, a fit path of at most 33 certificates for the question they pose |
| ProtocolResults.StoredPathsAreInForce | app/adjudicate.py:159-168 | the path of a stored VALID verdict leads from the certificate that the input's text names to an anchor that it names, and every certificate on it is in force at the time of signing in its text and signed by the next |
| ProtocolResults.StoredVerdictsIgnoreLateEvidence | app/adjudicate.py:159-168 | deleting all evidence received after the cutoff in the text of the stored input leaves verdict, path and trace as they are stored |
| ProtocolResults.SameQuestionSameResult | app/api.py:430-437 | two stored responses about one digest and input carry one result |
| ProtocolResults.OneResponsePerRequest | app/api.py:106-122 | all successful answers to a request id are one and the same |
| ProtocolResults.RepeatedRequests | app/api.py:106-122 | once a request has succeeded, whichever transaction answered it, every later transaction that looks for its id gives the same response if the content as it is digested is the same, and a conflict if it is not; of an adjudication this is said of phase 1 and phase 3, also when others of the id are in flight |
| ProtocolResults.RepeatedAdjudications | app/api.py:409-515 | a success of phase 3 was asked by an earlier step of its client, and asking the id again gets the same response exactly for the same set and the same normal form of the input, else a conflict |
| ProtocolResults.RepeatedBatches | app/api.py:219-231 | a batch sent again gets the same response exactly when it is for the same set and its items are the same in some order, as submitted but for the spelling of times |
| ProtocolAnswers.CreatingAnswers | app/api.py:156-171 | the first use of a request id to create a set is answered with 201 and an open set under a new id |
| ProtocolAnswers.AddingAnswers | app/api.py:233-340 | the first use of a request id to add objects is answered by whether the set is there, open and within its limits |
| ProtocolAnswers.SealingAnswers | app/api.py:346-392 | in every reachable state sealing, for the first time or again, is answered with the digest of the manifest and the counts of the objects the set has |
| ProtocolAnswers.BeginningAnswers | app/api.py:409-442 | in every reachable state phase 1 answers with the errors about the input and the set, or with status 200 and the engine's result on the set's objects if it is stored, or pins the request |
| ProtocolAnswers.FinishingAnswers | app/api.py:475-515 | in every reachable state phase 3 answers a new request id with status 201 and the engine's result on the set's objects, whether its own or one stored in the meantime |
| ProtocolHistories.OnlySuccessesAreFiled | app/api.py:106-129 | in every run a request id is on file exactly when a request under it has succeeded; a step that fails changes no table |
| ProtocolHistories.SetsAreTheirHistories | app/api.py:233-331 | in every run the objects of a set are what the batches accepted for it make, in order |
| ProtocolHistories.SetsAreConfluent | app/api.py:361-382 | two sets, of one run or of two, that accepted the same objects, each with one time of receipt, seal to one digest |
| ProtocolResults.RaceIsUnreachable | app/api.py:497-506 | the request id of a stored adjudication is always on file, so the uniqueness fallback of phase 3 is never taken |
| Stores.Store.ExistingFingerprints | app/store.py:113-123 | asking 500 at a time finds exactly the fingerprints the set has |
| Stores.Store.InsertObject | app/store.py:126-132 | an object is inserted unless its key is there |
| Stores.Store.PutRequest | app/store.py:172-179 | the response is filed under its request id and nothing else changes |
| Stores.Store.PutAdjudication | app/store.py:188-196 | the row is inserted unless its id is there or its request id is used by another row |
| Services.ScreenAll | app/api.py:243-277 | the parsing loop takes and rejects exactly the items the checks say |
| Services.Dedupe | app/api.py:283-293 | the loop separates the first submission of each object from repetitions |
| Services.Split | app/api.py:294-301 | the loop separates known objects from new ones |
| Services.Service.CreateEvidenceSet | app/api.py:156-171 | a set is created open under a fresh id, once per request |
| Services.Service.HandleAdd | app/api.py:233-339 | the handler stores, refuses or fails as the batch specification says |
| Services.Service.AddObjects | app/api.py:210-341 | the transaction replays, fails without effect, or stores the batch and the response |
| Services.Service.Seal | app/api.py:346-392 | sealing writes manifest and digest once; sealing again answers from the row |
| Services.Service.BeginAdjudication | app/api.py:409-442 | phase 1 replays, answers from a stored adjudication, or pins the sealed set |
| Services.Service.ComputeAdjudication | app/api.py:444-473 | phase 2 makes the evidence pack of the set's objects or fails |
| Services.Service.FinishAdjudication | app/api.py:475-515 | phase 3 replays, adopts the winner's result, or stores its own |
| DerRoundTrip.ReadEncoded | app/derutil.py:12-45 | wherever an encoded item stands, with a short or a long length, it reads back with its tag and content |
| DerRoundTrip.ItemsMean | app/derutil.py:12-35 | an item is read exactly where a tag of one byte, the bytes of a length and so much content stand |
| DerRoundTrip.ItemErrorsMean | app/derutil.py:12-35 | each error is given exactly for the first thing that is missing or not supported |
| DerRoundTrip.NumberRead | app/derutil.py:167-176 | an encoded base-128 number reads back |
| DerRoundTrip.OidRoundTrip | app/derutil.py:179-216 | an encoded object identifier reads back, whatever bytes follow it |
| DerRoundTrip.MappingsRoundTrip | app/derutil.py:219-239 | any list of pairs of object identifiers, encoded and wrapped, is parsed back to the list |
| DerRoundTrip.OnlyShortestIsDer | app/derutil.py:12-35 | what is read is what the encoder writes exactly when the length is in its shortest form |
| DerRoundTrip.OnlyMinimalNumbersAreDer | app/derutil.py:167-176 | a number is what the encoder writes exactly when it has no leading zero group |
| DerRoundTrip.OnlyMinimalOidsAreDer | app/derutil.py:179-194 | an object identifier is what the encoder writes exactly when length and numbers are minimal and the last number ends where the content ends |
| DerRoundTrip.LaxExamples | app/derutil.py:12-35 | two items that are read although they are not DER |
| DerReaders.ReadNumber | app/derutil.py:167-176 | the loop reads the number the bytes stand for, or finds them truncated |
| DerReaders.EncodeNumber | app/derutil.py:203-215 | the stack of seven-bit groups, reversed, is the encoded number |
| DerReaders.EncodeOid | app/derutil.py:197-216 | the loop over the arcs gives the encoded identifier, or rejects invalid first arcs |
| DerReaders.DecodeOid | app/derutil.py:179-194 | the loop over the content reads the arcs |
| DerReaders.DecodeMappings | app/derutil.py:219-239 | the loop over the sequence reads the mappings |
| JsonInjective.EscapeDelimits | app/canonical.py:25-46 | the escapes of characters are a prefix code |
| JsonInjective.NumberDelimits | app/canonical.py:56-57 | a printed integer followed by a stopper can be told from what follows |
| JsonInjective.DumpDelimits | app/canonical.py:49-79 | a printed value delimits itself, through nested arrays, sorted objects, numbers and escaped strings |
| JsonInjective.DumpsAreInjective | app/canonical.py:82-86 | two values print the same exactly when they are equal |
| JsonMeaning.DumpSays | app/canonical.py:49-86 | what is printed says the value, by the grammar of RFC 8259: literals, numbers, strings with their escapes, arrays, and objects with each key before its own value, in code point order |
| JsonPrinters.EscapeText | app/canonical.py:35-46 | the loop over the characters gives the escaped string |
| JsonPrinters.SortKeys | app/canonical.py:69 | the keys of an object are printed in code point order |
| JsonPrinters.Print | app/canonical.py:49-79 | the recursive printer appends exactly the printed value to the output |
| JsonPrinters.Dumps | app/canonical.py:82-86 | joining the output gives the printed value |
| Timestamps.FractionRoundTrip | app/canonical.py:165-195 | any number of microseconds in a second is printed without trailing zeros and reads back |
| Timestamps.FractionsAreCutOff | app/canonical.py:165-169 | a fraction is preserved exactly when its digits beyond the sixth are zeros |

## Left out

Hypotheses, stated as preconditions:

- Verdicts.ValidMeans: requires that issuer candidates of one certificate that share a key agree on their subject key identifier (`Worlds.Coherent`); `CacheOrder.CacheHidesThePath` and `CacheOrder.CacheFindsAPath` show that both directions fail without, and `Verdicts.ValidAsAsked` and `Verdicts.VerdictMeans` say what holds for all certificates.
- ProtocolResults.StoredVerdictsAreRight: requires the same agreement of the certificates of the one set; `ProtocolResults.StoredVerdictsMean` does not. Both require that SHA-256 does not collide on the values in play.
- ProtocolResults.StoredVerdictsMean: requires that SHA-256 does not collide on the values in play.
- PathMeaning.CoherentReadings: is about coherent certificates.
- Traces.TraceIsGood: requires that a certificate's signature verifies under at most one key, because outcomes are filed by certificate only.
- Traces.FiledStatus: requires the same.
- Verdicts.ReportedTraceIsGood: requires the same.
- RevocationViews.MergesAreDocumented: requires what the parser guarantees of a delta CRL, that without a number it is out of profile.
- ProtocolResults.StoredResultsAreTheEngines: requires that SHA-256 does not collide on the values in play.
- ProtocolResults.RepeatedRequests: requires the same of request digests.
- ProtocolResults.RepeatedBatches: requires the same of request digests.
- StoredObjects.ManifestDeterminesRows: requires the same of DER objects.
- StoredObjects.NewlineNamesNothing: requires that fingerprints have 64 hex digits. This is kept apart from freedom of collisions, since no function on all byte strings has both (`StoredObjects.BoundedCollides`).
- Packs.NewlineInputs: requires the same.
- UploadHistories.HistoriesAgree: requires that DER objects do not collide.
- UploadHistories.UploadsAreConfluent: requires the same of DER objects.
- ProtocolHistories.SetsAreConfluent: requires the same of DER objects.
- Packs.AcceptedPacksAreDetermined: requires the same of DER objects and manifests; it does not say that an accepted evidence pack lists the objects the engine would settle on for the whole set, since a smaller self-contained selection is accepted too.
- ProtocolResults.RepeatedAdjudications: requires the same of request digests as RepeatedRequests.
- ProtocolAnswers.BeginningAnswers: requires that SHA-256 does not collide on the values in play.
- ProtocolAnswers.FinishingAnswers: requires the same.
- PackMeaning.AcceptedObjectsMean: requires the same of DER objects and manifests.
- ProtocolResults.StoredPathsAreInForce: requires the same.
- ProtocolResults.StoredVerdictsIgnoreLateEvidence: requires the same.
- ViewIds.IdsCompareAsTexts: is about fingerprints below 16^64, as all of 64 digits are.
- ProtocolResults.StoredPacksAreAccepted: its second half requires of the inputs of the run that the canonical form of no signature or time reads as something else.
- Inputs.SameFormSameMeaning: requires that the canonical form of each text that the two inputs hold says the same as the text; for timestamps this holds from the year 1000 on, since `%Y` does not pad earlier years everywhere.
- Uploads.CanonKeepsMeaning: requires the same of the time of receipt of the item.
- Uploads.CanonSame: requires the same of the times of receipt of both items.
- DerRoundTrip.MappingsRoundTrip: requires contents shorter than 2^63 bytes, as every Python object is.

Not stated:

- Verdicts.NegativeMeans: its rejection proof speaks of the settled objects only, because rejection proofs and UNSUPPORTED verdicts are not preserved by shrinking; `Verdicts.RejectionSpeaksForAll` says what carries over to all the objects.
- Verdicts.ValidAsAsked: which of the issuers with one key is asked about first is read off the exploration; it is not foretold from the certificates, since it depends on the answers before.

Not modelled:

- Parsing of certificates, CRLs and OCSP responses and all signature verification: parsed records, and for each signed object the keys its signature verifies under.
- The engine's caches of parsed objects; parsing is a function.
- SHA-256, base64, `urlsplit` and RFC 3339 dates: function parameters; fingerprints are numbers in the order of their hex digits. Digits in policy identifiers are the ASCII ones.
- `str.lower` and `rstrip` on names: for ASCII letters and dots.
- Message texts, rule names and detail fields of failures and logs; of the trace, the entries that always say "pass".
- Reading stored times of receipt again: they are stored as instants, while the code stores canonical text, which it could not read again for years before 1000.
- The sort key of views as a floating point timestamp: instants are integers.
- JSON parsing, duplicate keys and surrogates, and the final UTF-8 encoding; values that are no JSON are excluded by the type.
- HTTP, request bodies that are not objects, field checks on request ids, labels and the list of items, GET endpoints.
- SQLite: a BEGIN IMMEDIATE block is one atomic step. Phase 2 of an adjudication reads the set at one instant; since sealed sets never change, later reads of single objects see the same.
- The endpoint column of the requests table, which nothing reads.
- `iter_crl_entries`, `iter_extensions` and the OCSP and PSS helpers of app/derutil.py: more loops over the same reader.
- app/profile.py beyond its limits, app/errors.py, tests, acceptance scripts and container files.
