# Tax virtual office — routing and change-detection core in Dafny

This project models the deterministic core of the tax virtual office, a
service that answers Brazilian tax questions. It routes each question to
specialist agents and to the vector stores that hold official sources, and
it watches government portals for new documents. The modelled parts are:

- **Question triage** (`Triage`, `Pattern`). `classifyQuestion` lower-cases and
  trims the question. A priority cascade of pattern rules then picks the trail,
  and a second cascade picks the document family and type. The regular
  expressions are written in a small pattern language whose `Test` means
  "matches somewhere", as JavaScript's `RegExp.test` does.
- **Source planner** (`SourcePlanner`). Candidate stores come from the trail,
  the family and the document type. They are deduplicated keeping first
  occurrences, filtered by the catalog, and cut to three.
- **Vector-store catalog** (`VectorStores`). It loads the catalog file once
  into a cache, answers lookup and validity queries, and can clear the cache.
- **Retrieval** (`Retrieval`, `OrderedMaps`). The store list is truncated and
  split into registered and unregistered ids. Then a sequential search loop
  runs with per-store error isolation and a deadline checked before each call.
- **User-query workflow** (`UserQuery`). This covers specialist selection, the
  trusted-sources enricher trigger, `dedupeStrings`, context assembly, plan and
  sources assembly, and the final answer.
- **Portal maintenance** (`Listing`, `PortalScan`, `Classifier`). This covers
  listing parsing with its placeholder, tag stripping, publication-date
  extraction, the content hash, and the per-portal seen map used by
  `watchPortals`. It also covers the argmax scoring classifier with its
  catalog-order tie-break, the store-choice fallbacks and tag building.
- **Allowed-domain policy** (`AllowedDomains`). This covers wildcard host
  patterns, boundary-checked path prefixes, first-match-decides evaluation in
  `isAllowedDomain` and `validateUrl` (messages included), document type from
  URL, and official site resolution.
- **Schema lookup** (`SchemaLookup`). This covers name normalization, the two
  matching branches of `lookupSchema`, and the criteria filter and path
  dedup of `findRelatedSchemas`, all over an abstract per-domain index.
- **Completion text** (`AgentUtils`), which is `extractFirstText`.

Shared helpers are `Wrappers` (Option and Result), `Text` (JavaScript
`toLowerCase` for Latin-1, `trim`, `startsWith`, `endsWith`, `includes`,
`join`) and `Seqs` (`[...new Set(xs)]`, `filter`, and `slice(0, n)` with
its negative-end rule).

Oracles stand in for what cannot be computed here:
- URL parsing and `decodeURIComponent` (`UrlEnv`);
- SHA-256 and URL resolution (`ListingEnv`);
- the HTML anchor scan (a sequence of `Anchor` values, or a `Parser`);
- the clock (`Clock`), the vector-store search (`Search`) and the portal fetch (`ScanIO`);
- the coordinator agent (`Coordinator`), the enricher's reply, and the schema index loader (`IndexLoader`).

## Model

| member | source | states |
|---|---|---|
| Triage.DetectTrail | src/workflows/triage.ts:37-88 | the trail is never Operacao: only the seven rule trails or the default Documento come out |
| Triage.FirstMatchFrom | src/workflows/triage.ts:37-88 | reference meaning of a priority cascade (used for both the trail table and the family table): the value of the lowest-indexed matching rule, the default when no rule matches |
| Triage.FirstMatchIsSomeRule | src/workflows/triage.ts:90-130 | when some rule of a table matches, the cascade reports the value of a matching rule |
| Triage.DetectTrailIsFirstMatch | src/workflows/triage.ts:37-88 | the if-chain of `detectTrail` equals the first-match reading of its rule table with default Documento |
| Triage.TrailStep | src/workflows/triage.ts:38-86 | one step of the cascade: a matching rule decides, otherwise the next rule is consulted |
| Triage.LeiauteIsLegislacaoUnlessCalculo | src/workflows/triage.ts:38-51 | a question mentioning "leiaute" is Calculo or Legislacao, never Documento: "leiaute" contains the legislation literal "lei", which is tested before the document rule |
| Triage.DetectFamilyAndDocType | src/workflows/triage.ts:90-130 | a doc type always comes with its own family (nfe and nfce go to mercadorias; cte, mdfe and bpe to transporte; nf3e and nfcom to utilities; dce to declaracoes); plataformas never carries a doc type; nfe holds iff an explicit model-55 mention, or a bare nfe token without an nfce mention; no family means the plataformas, dce and cte rules all failed |
| Triage.DetectFamilyIsFirstMatch | src/workflows/triage.ts:90-130 | the if-chain of `detectFamilyAndDocType` is "explicit nfe first, then the first matching rule of the table nfce, cte, mdfe, bpe, nf3e, nfcom, dce, plataformas, else nothing" |
| Triage.FamilyStep | src/workflows/triage.ts:101-128 | one step of the family cascade: a matching rule decides, otherwise the next rule is consulted |
| Triage.FamilyNoneIff | src/workflows/triage.ts:90-130 | no family is reported iff the nfe test fails and no rule of the family table matches |
| Triage.Modelo55WinsOverNfce | src/workflows/triage.ts:93-100 | "modelo 55" gives nfe even when nfce is also mentioned |
| Triage.FirstUF | src/workflows/triage.ts:132-137 | the leftmost whole-word state code, or none when no position holds one |
| Triage.DetectUFNeverMatches | src/workflows/triage.ts:21-24 | as written, the upper-case state-code pattern runs on lower-cased text, so no question ever yields a UF |
| Triage.DetectUFCorrected | src/workflows/triage.ts:132-137 | a detected UF is a valid two-letter state code that occurs in the original question |
| Triage.ClassifyQuestion | src/workflows/triage.ts:20-35 | the trail is never Operacao; the uf is always absent; a doc type brings its family; plataformas has no doc type |
| Triage.ClassifyQuestionCorrected | src/workflows/triage.ts:20-35 | same trail as the as-written classifier, and a reported UF is a state code present in the question |
| TriageExamples.CalculoExample | src/__tests__/workflows/triage.test.ts:5-8 | "Qual a alíquota de ICMS para SP?" is Calculo |
| TriageExamples.LegislacaoExample | src/__tests__/workflows/triage.test.ts:10-13 | "O que diz a LC 214/2025 sobre IBS?" is Legislacao |
| TriageExamples.DocumentoExample | src/__tests__/workflows/triage.test.ts:15-18 | "Estrutura XML do campo cProd na NF-e" is Documento |
| TriageExamples.NfeExample | src/__tests__/workflows/triage.test.ts:20-24 | "Como cancelar uma NF-e modelo 55?" is mercadorias / nfe |
| TriageExamples.CteExample | src/__tests__/workflows/triage.test.ts:26-30 | "Prazo para evento no CT-e" is transporte / cte |
| TriageExamples.UFExample | src/__tests__/workflows/triage.test.ts:32-35 | "Alíquota de ICMS em SP": the as-written classifier reports no UF, the corrected one reports "SP" |
| Pattern.TestIff | src/workflows/triage.ts:38-86 | a rule matches iff one of its alternatives matches at some position of the text |
| Pattern.LiteralTestIsContains | src/workflows/triage.ts:38-86 | a purely literal pattern tests exactly substring containment |
| Pattern.MatchContainsLiterals | src/workflows/triage.ts:38-86 | a text matched by an alternative contains every literal of that alternative |
| SourcePlanner.Candidates | src/workflows/source-planner.ts:30-90 | every candidate pushed by the trail switch is one of the official ids, and there are between two and five of them |
| SourcePlanner.PlanStores | src/workflows/source-planner.ts:93-95 | at most three ids, no duplicates, each a registered candidate, in candidate order; a registered candidate is left out only when three earlier candidates filled the plan |
| SourcePlanner.PlanFrom | src/workflows/source-planner.ts:93-95 | the dedup, registry filter and cut over any candidate list: the same guarantees as the plan, for every list |
| SourcePlanner.FullCatalogPlan | src/workflows/source-planner.ts:93-95 | against a catalog holding every official id, the plan is the first three distinct candidates |
| SourcePlanner.PlannedIdsAreOfficial | src/workflows/source-planner.ts:107-109 | every planned id is one of the twelve official ids |
| SourcePlanner.CalculoPlansTabelasFirst | src/workflows/source-planner.ts:34-36 | on the Calculo trail a registered `vs_tabelas_fiscais` is planned first |
| SourcePlanner.LegislacaoIgnoresUF | src/workflows/source-planner.ts:37-47 | on the Legislacao trail the plan is the same with or without a UF |
| SourcePlanner.LegislacaoFullPlan | src/workflows/source-planner.ts:37-47 | with a full catalog, Legislacao plans federal, confaz and state legislation |
| SourcePlanner.TransportCapDropsConfaz | src/workflows/source-planner.ts:63-74 | a transport question with a full catalog plans specs, schemas and tables; `vs_legal_confaz` is a candidate but is cut by the limit |
| SourcePlanner.BroadDefaultPlan | src/workflows/source-planner.ts:81-88 | with no family or doc type the plan is drawn from the five broad default ids, and a full catalog gives its first three |
| SourcePlanner.OfficialIdsArePrefixed | src/workflows/source-planner.ts:12-25 | every official id starts with "vs_" |
| SourcePlanner.PlanStoresLoading | src/workflows/source-planner.ts:94 | planning propagates a catalog load failure and otherwise plans against the loaded catalog, keeping the cache it produced |
| VectorStores.FindById | src/mcp/vectorStoresMetadataTool.ts:67-72 | a result exists iff some entry has that id, and it is the first such entry |
| VectorStores.ReadCatalog | src/mcp/vectorStoresMetadataTool.ts:23-49 | a parsed file without a `vectorStores` array is rejected with its message; otherwise the array is the catalog |
| VectorStores.LoadCatalog | src/mcp/vectorStoresMetadataTool.ts:23-49 | a cached catalog is returned as is; otherwise the file is read, and only a successful read fills the cache |
| VectorStores.LoadedCatalogIsReused | src/mcp/vectorStoresMetadataTool.ts:24 | after a successful load, any later load returns the same catalog whatever the file now holds |
| VectorStores.ClearCache | src/mcp/vectorStoresMetadataTool.ts:85-88 | the cache is empty afterwards |
| VectorStores.ClearForcesReload | src/mcp/vectorStoresMetadataTool.ts:85-88 | after clearing, the next load reads the file |
| VectorStores.GetVectorStoresMetadata | src/mcp/vectorStoresMetadataTool.ts:55-62 | a load failure gives the empty list instead of an error; otherwise the loaded catalog |
| VectorStores.GetVectorStoreById | src/mcp/vectorStoresMetadataTool.ts:67-72 | load failures propagate; otherwise the first entry with the id |
| VectorStores.IsValidVectorStoreId | src/mcp/vectorStoresMetadataTool.ts:77-80 | load failures propagate; otherwise true iff some entry has exactly that id |
| VectorStores.LookupAgreesWithValidity | src/mcp/vectorStoresMetadataTool.ts:67-80 | lookup and validity fail together, and lookup finds nothing iff the id is not valid |
| Retrieval.DefaultOptions | src/workflows/retrieval.ts:31-32 | without options the timeout is 60000 ms and at most three stores are queried |
| Retrieval.Selected | src/workflows/retrieval.ts:34-44 | the queried stores are exactly the registered ids among the first `maxStores` inputs, and there are no more than either bound |
| Retrieval.PartitionIds | src/workflows/retrieval.ts:38-44 | the loop splits the ids into the registered and the unregistered, each in input order |
| Retrieval.Cutoff | src/workflows/retrieval.ts:58-62 | the number of searches made: every earlier deadline check passed, and the check that stopped the loop failed |
| Retrieval.CutoffUnique | src/workflows/retrieval.ts:58-62 | that number is the only one with this property |
| Retrieval.SearchStores | src/workflows/retrieval.ts:58-75 | the searched stores are the prefix before the cutoff, and the two maps are the record of exactly those searches |
| Retrieval.RecordKeysSearched | src/workflows/retrieval.ts:58-75 | only searched stores appear as keys of the results or the errors |
| Retrieval.RecordCoversSearched | src/workflows/retrieval.ts:63-74 | every searched store appears in the results or in the errors |
| Retrieval.RecordExact | src/workflows/retrieval.ts:63-74 | with distinct ids, a store that answered has its results and no error, and a failed store has its message and no results |
| Retrieval.RepeatedStoreInBothMaps | src/workflows/retrieval.ts:63-74 | a store listed twice that answers once and fails once appears in both maps |
| Retrieval.RunRetrieval | src/workflows/retrieval.ts:26-82 | the queried list is the selection; the searches are its prefix before the deadline; results and errors record exactly those searches; unregistered ids are never searched and never put in the errors |
| OrderedMaps.PutGet | src/workflows/retrieval.ts:64-72 | reading back a written key gives the new value, and other keys are unchanged |
| OrderedMaps.Put | src/workflows/retrieval.ts:64-72 | a new key is added at the end, and an existing key keeps its place |
| UserQuery.PickSpecialists | src/workflows/user-query.ts:243-271 | never empty, and it is the catalog filtered by the selection test |
| UserQuery.PickSpecialistsSpec | src/workflows/user-query.ts:243-271 | no duplicates, catalog order, and a specialist is chosen iff its rule fires or no rule fires |
| UserQuery.ShouldRunEnricherIff | src/workflows/user-query.ts:33-48 | true iff the trail is Legislacao or the lower-cased question contains one of the listed terms |
| UserQuery.EnricherNeedsOnlyFourTerms | src/workflows/user-query.ts:33-48 | the term list reduces to "ibs", "cbs", "impactos administrativos" and "reforma tribut", since the rest contain one of these |
| UserQuery.NonBlankStrings | src/workflows/user-query.ts:50-52 | exactly the present, non-blank values are kept |
| UserQuery.DedupeStrings | src/workflows/user-query.ts:50-52 | no duplicates, exactly the present non-blank values, in first-occurrence order |
| UserQuery.ContextParts | src/workflows/user-query.ts:66-71 | one section per store with non-empty results, and nothing else |
| UserQuery.ContextPartsInMapOrder | src/workflows/user-query.ts:66-71 | the sections follow map order: the sections of two maps put together are the first map's then the second's, and one store gives its "## id" section exactly when it has results |
| UserQuery.PreRetrievedContext | src/workflows/user-query.ts:72-77 | absent iff no store has results (the empty string becomes `undefined`); otherwise the sections joined by the "---" rule, containing the section of every store that has results |
| UserQuery.BuildPlan | src/workflows/user-query.ts:89-92 | the coordinator's plan followed by one suggested-specialists line |
| UserQuery.PlanHasOneSpecialistLine | src/workflows/user-query.ts:89-92 | when the coordinator's plan has no such line, the last line is the only suggested-specialists line |
| UserQuery.BuildSources | src/workflows/user-query.ts:94-99 | the coordinator's sources come first, then exactly the specialists' names, and the two documentation files come last |
| UserQuery.FinalizeAnswer | src/workflows/user-query.ts:102-115 | a non-blank enriched answer replaces the draft, and the sources become the deduplicated non-blank union: the draft's sources first, as deduplicated alone, then the enricher's sources the draft lacks, in the order they first appear; otherwise answer and sources are unchanged |
| UserQuery.MergedSourcesOrder | src/workflows/user-query.ts:113 | deduplicating the draft's sources followed by the enricher's keeps the draft's deduplicated list as a prefix, and the rest holds only sources the draft lacks, in the enricher's first-occurrence order |
| UserQuery.NonBlankStringsAppend | src/workflows/user-query.ts:51 | the non-blank filter of a concatenation is the concatenation of the filters |
| UserQuery.SpecialistNames | src/workflows/user-query.ts:84-87 | one registry name per chosen specialist, in the chosen order |
| UserQuery.AssembleResponse | src/workflows/user-query.ts:84-137 | the plan is the coordinator's plan plus the specialist line; answer and sources are the enrichment outcome over the coordinator's sources, the specialist names and the two workflow documents; the enricher is consulted only when its trigger holds; the coordinator's other fields (its agent traces) pass through |
| UserQuery.RunUserQueryWorkflow | src/workflows/user-query.ts:57-138 | retrieval queries the registered planned stores under the default timeout, each store's results or error recorded for the stores searched in time; the coordinator receives the request's question, context and metadata together with the pre-retrieved context, the triage and those stores; the response is assembled from its reply |
| UserQuery.RetrievalQueriesThePlan | src/workflows/user-query.ts:62-64 | for any triage result, retrieval's selection of the plan is the plan itself, because planned ids are registered and at most three |
| Listing.RemoveTags | src/agents/maintenance.ts:245-247 | the result has no complete tag left and only characters of the input |
| Listing.RemoveTagsKeepsText | src/agents/maintenance.ts:245-247 | text without "<" is kept as it is, before whatever follows |
| Listing.RemoveTagsDropsTag | src/agents/maintenance.ts:245-247 | a tag "<t>" with a non-empty body is removed up to its first ">" and nothing after it is touched |
| Listing.RemoveTagsSkipsTag | src/agents/maintenance.ts:245-247 | a tag after plain text is removed as if it were absent, for tag removal and for the whole stripping |
| Listing.RemoveTagsNoop | src/agents/maintenance.ts:245-247 | a string without tags is unchanged |
| Listing.CollapseSpaces | src/agents/maintenance.ts:245-247 | no two whitespace characters in a row, and every remaining whitespace is a plain space |
| Listing.CollapseSpacesKeepsWord | src/agents/maintenance.ts:245-247 | a word without whitespace is kept as it is, before whatever follows |
| Listing.CollapseSpacesRun | src/agents/maintenance.ts:245-247 | a run of whitespace before a non-space character becomes exactly one blank |
| Listing.CollapseSpacesNoop | src/agents/maintenance.ts:245-247 | a single-spaced string is unchanged |
| Listing.CollapseSpacesAllSpace | src/agents/maintenance.ts:245-247 | the result is all whitespace iff the input is |
| Listing.StripTags | src/agents/maintenance.ts:245-247 | no tag, single-spaced, and no leading or trailing whitespace |
| Listing.StripTagsIdempotent | src/agents/maintenance.ts:245-247 | stripping twice is stripping once |
| Listing.StripTagsEmptyIff | src/agents/maintenance.ts:245-247 | the stripped title is empty, so line 211 uses the portal name, iff the text outside the tags is all whitespace |
| Listing.StripPlainTextEmptyIff | src/agents/maintenance.ts:245-247 | text without "<" strips to nothing iff it is blank |
| Listing.ExtractPublishedAt | src/agents/maintenance.ts:249-257 | none iff no dd/mm/yyyy date occurs; otherwise the leftmost date's two-, two- and four-digit parts |
| Listing.ContentHashCollides | src/agents/maintenance.ts:259-264 | moving a colon between the portal id and the URL gives the same hash input, whatever the hash function |
| Listing.AnchorTitle | src/agents/maintenance.ts:217-219 | the stripped anchor text, or the portal name when that is empty |
| Listing.AnchorDocument | src/agents/maintenance.ts:209-226 | fails iff the link does not resolve against the base URL or a listed date does not convert, the link error first; otherwise carries the portal's id and type, the listing URL, the resolved link, the hash of "id:url:title", the detection time, and the listed date or the detection time as publication date |
| Listing.Placeholder | src/agents/maintenance.ts:229-240 | the placeholder points at the listing URL and is titled with the detection prefix plus the portal name |
| Listing.ParsePortalListing | src/agents/maintenance.ts:199-243 | fails iff some anchor fails, with the first failing anchor's error; otherwise never empty, exactly the placeholder when there is no anchor, else one document per anchor, in order, each tagged with the portal and listing and carrying a hash |
| Listing.ParseHashesIgnoreClock | src/agents/maintenance.ts:213-215 | parsing at two times succeeds at both or neither, with the same URLs and hashes |
| PortalScan.UnseenIff | src/agents/maintenance.ts:266-270 | a document is fresh iff it was parsed and its key is not in its portal's seen list |
| PortalScan.RememberDocument | src/agents/maintenance.ts:272-279 | only the document's portal changes, and its list gains the key at the end |
| PortalScan.ScanBatchFilterThenRemember | src/agents/maintenance.ts:82-84 | the batch loop equals: judge freshness against the state before the batch, then remember every fresh document |
| PortalScan.BatchFreshIffUnseen | src/agents/maintenance.ts:82-84 | the batch reports exactly the parsed documents unseen before the batch |
| PortalScan.BatchRemembersFresh | src/agents/maintenance.ts:82-84 | every reported document is seen afterwards |
| PortalScan.BatchKeepsSeen | src/agents/maintenance.ts:272-279 | nothing already seen is forgotten |
| PortalScan.RescanFindsNothing | src/agents/maintenance.ts:82-84 | scanning the same parsed listing again reports nothing |
| PortalScan.RescanLaterFindsNothing | src/agents/maintenance.ts:259-270 | re-parsing a listing that parsed once, at another time, succeeds again and reports nothing, placeholder included |
| PortalScan.SameKeyTwiceBothFresh | src/agents/maintenance.ts:82-84 | two documents with one key in one batch are both reported, and the key is stored twice |
| PortalScan.Listed | src/agents/maintenance.ts:79-81 | the listing URL's resolution error, else the fetch error, else the parser's outcome on the fetched page |
| PortalScan.PortalFailsIff | src/agents/maintenance.ts:79-81 | with the real parser a portal fails iff its listing URL does not resolve, its page cannot be fetched, or one of its anchors fails at lines 213-215 |
| PortalScan.ScanFailsIffPortalFails | src/agents/maintenance.ts:78-86 | the scan fails iff some portal's resolution, fetch or parse throws |
| PortalScan.ScanReportsFirstError | src/agents/maintenance.ts:78-86 | the error is the first failing portal's |
| PortalScan.ScanRemembersFound | src/agents/maintenance.ts:73-91 | every document the scan reports is seen in the final state |
| PortalScan.ScanKeepsSeen | src/agents/maintenance.ts:73-91 | the scan forgets nothing |
| PortalScan.WatchPortals | src/agents/maintenance.ts:73-91 | the loop computes the portal-by-portal scan; the state is written (`persistPortalState`, lines 194-197) iff nothing threw, and then it is the final seen record with `lastRun` set to the time of writing |
| Classifier.FirstMax | src/agents/maintenance.ts:341 | the index of a maximum score that comes before every other maximum, as a stable descending sort puts first |
| Classifier.FirstMaxUnique | src/agents/maintenance.ts:341 | that index is unique |
| Classifier.AbsentTypeKeepsWinner | src/agents/maintenance.ts:334 | without a portal type every store gains one point, so the winner is the rule-score winner |
| Classifier.MessagesIff | src/agents/maintenance.ts:301-339 | the rationale messages are exactly those of the rules that fired on some store |
| Classifier.RationaleNamesFiredRules | src/agents/maintenance.ts:344-350 | the rationale contains every fired rule's message |
| Classifier.RationaleDefaultWhenSilent | src/agents/maintenance.ts:344-350 | with no fired rule the rationale is the default sentence |
| Classifier.ScoreVectorStores | src/agents/maintenance.ts:296-351 | over a non-empty catalog: a registered store with the score of the first maximum, its id, or the choice fallback when that id is empty; no store and score 0 for an empty catalog |
| Classifier.FindVectorStore | src/agents/maintenance.ts:155-161 | the fallback id if registered, else the first entry's id, else none |
| Classifier.ChooseVectorStore | src/agents/maintenance.ts:139-153 | a registered store: the title or portal-type target when it is registered, else the first store of the catalog, and none for an empty catalog |
| Classifier.BuildTags | src/agents/maintenance.ts:163-172 | the portal id first, then the portal type and external id only when non-empty: one to three tags |
| Classifier.ClassifyDocument | src/agents/maintenance.ts:93-104 | the store is absent iff the catalog is empty; otherwise the score is that of the first highest-scoring store, and the store is that store's id when it is non-empty, else the store `chooseVectorStore` picks (always a registered one); the tags and rationale are always given, and the score is 0 for an empty catalog |
| AllowedDomains.WildcardMatchesSubdomainsOnly | src/config/allowed-domains.ts:136-145 | "*.s" matches iff the host ends with ".s", so the apex "s" is not matched |
| AllowedDomains.PlainPatternIsExact | src/config/allowed-domains.ts:136-145 | any other pattern matches only the identical host |
| AllowedDomains.NormalizePathPrefix | src/config/allowed-domains.ts:157-161 | starts with "/", and a blank prefix becomes "/" |
| AllowedDomains.NormalizePathPrefixIdempotent | src/config/allowed-domains.ts:157-161 | normalizing twice is normalizing once |
| AllowedDomains.PathMatchesPrefixIff | src/config/allowed-domains.ts:167-176 | accepted iff the path equals the base, or starts with the base followed by "/" |
| AllowedDomains.ConcatenationIsNotAPrefixMatch | src/config/allowed-domains.ts:163-176 | a path that continues the base with anything but "/" is refused |
| AllowedDomains.SafeNormalizePathname | src/config/allowed-domains.ts:147-155 | the lower-cased decoded path, or the lower-cased raw path when decoding throws, with "/" for an empty path; never an upper-case letter |
| AllowedDomains.PlainPathUnchanged | src/config/allowed-domains.ts:147-155 | a lower-case path with nothing to decode is compared as written, and an empty one as "/" |
| AllowedDomains.CleanAllowlist | src/config/allowed-domains.ts:119-121 | exactly the non-empty trimmed string entries remain |
| AllowedDomains.CleanAllowlistInOrder | src/config/allowed-domains.ts:119-121 | the cleaned list keeps the configured order: cleaning a concatenation cleans each part, and one entry survives iff it is non-empty once trimmed |
| AllowedDomains.FirstGoverningEntryDecides | src/config/allowed-domains.ts:112-131 | the first entry whose pattern governs the host decides, even when a later entry would accept |
| AllowedDomains.NoGoverningEntryRejects | src/config/allowed-domains.ts:112-133 | when no entry governs the host the URL is refused |
| AllowedDomains.BlankPatternSkipped | src/config/allowed-domains.ts:113-114 | a blank pattern governs nothing, and dropping it changes no decision |
| AllowedDomains.BlankAllowlistAllowsHost | src/config/allowed-domains.ts:119-123 | an allowlist with nothing left after cleaning allows the whole host |
| AllowedDomains.IsAllowedDomain | src/config/allowed-domains.ts:103-134 | a malformed URL is an error; otherwise allowed iff the first-match decision allows |
| AllowedDomains.ValidateUrl | src/config/allowed-domains.ts:181-243 | a malformed URL is refused with the invalid-URL message; an error message is present iff the URL is not valid; an unknown host is refused with the list of configured patterns, and is the same error `getAllowedDomains` raises (reading 'domains' without the block, reading 'map' without its list) when the configuration lacks them |
| AllowedDomains.GetAllowedDomains | src/config/allowed-domains.ts:181-184 | the configured patterns in order, one per entry; a missing allowed-domains block fails reading 'domains', a block without a list fails reading 'map' |
| AllowedDomains.DefaultShape | src/config/allowed-domains.ts:55-86 | the built-in configuration lists the four patterns "*.gov.br", "*.fazenda.gov.br", "dfe-portal.svrs.rs.gov.br" and "confaz.fazenda.gov.br" in that order, with no path allowlists |
| AllowedDomains.BuiltInPolicy | src/config/allowed-domains.ts:55-86 | under a configuration of that shape a well-formed URL is allowed iff its host ends in ".gov.br", and any other host is refused with the four patterns listed |
| AllowedDomains.DefaultConfigAllowsGovBr | src/config/allowed-domains.ts:55-86 | the built-in configuration allows exactly the hosts under ".gov.br" and refuses the rest naming its four patterns |
| AllowedDomains.ValidateAgreesWithIsAllowed | src/config/allowed-domains.ts:103-243 | for a well-formed URL validation and the domain check agree, and where validation throws the check says no |
| AllowedDomains.PathRejectionNamesAllowlist | src/config/allowed-domains.ts:228-233 | a path rejection names the pattern and every cleaned allowlist entry |
| AllowedDomains.FirstRule | src/config/allowed-domains.ts:305-427 | the first rule whose needle occurs, or none when no needle occurs |
| AllowedDomains.ExtractDocumentTypeFromUrl | src/config/allowed-domains.ts:305-427 | a malformed URL gives the empty result; otherwise the NF-e host marker, then the CONFAZ marker, then the first matching SVRS path rule on SVRS hosts, then the first matching general path rule |
| AllowedDomains.ExtractDocumentTypeNoneIff | src/config/allowed-domains.ts:305-427 | no type iff the URL is malformed, or no host marker applies and no needle of the rules tried for that host occurs in the path |
| AllowedDomains.NfeHostBeatsPath | src/config/allowed-domains.ts:312-314 | an NF-e host gives nfe whatever the path says |
| AllowedDomains.NfabiBeforeNfe | src/config/allowed-domains.ts:371-373 | on an unlisted host a path mentioning nfabi is typed nfeab even when it also mentions nfe |
| AllowedDomains.SvrsNfabiBeforeNfe | src/config/allowed-domains.ts:318-324 | on the SVRS host an "/nfabi/" path is typed nfeab before nfe is considered |
| AllowedDomains.SlashedNeedleIsRedundant | src/config/allowed-domains.ts:371 | the test for "/nfabi" adds nothing to the test for "nfabi" |
| AllowedDomains.GetOfficialSiteUrl | src/config/allowed-domains.ts:248-300 | no configured portals give none, and any result is some configured portal's base URL |
| AllowedDomains.OfficialSiteOrder | src/config/allowed-domains.ts:248-300 | a non-empty portal id that is configured gives the first such portal's base URL; otherwise a document type mapped to a configured portal gives that portal's; otherwise, also for an empty, unknown or unconfigured type, the "nfe-svrs" portal; nothing iff none of the three is found |
| AllowedDomains.Lookup | src/config/allowed-domains.ts:259-282 | the value of the first entry with the key, or none when no entry has it |
| AllowedDomains.DropSeparatorsIsFilter | src/config/allowed-domains.ts:281 | dropping separators is the order-keeping filter that removes "_" and "-" |
| AllowedDomains.FindPortal | src/config/allowed-domains.ts:252 | the first portal with the id, or none when no portal has it (the same search is repeated at lines 284 and 294) |
| SchemaLookup.DomainsToSearch | src/mcp/schemaLookupTool.ts:84 | only the given domain, or the fixed seventeen domains when none is given |
| SchemaLookup.NormalizeSchemaName | src/mcp/schemaLookupTool.ts:38-44 | no upper-case letter, no "_", "-" or whitespace |
| SchemaLookup.NormalizeSchemaNameIdempotent | src/mcp/schemaLookupTool.ts:38-44 | normalizing twice is normalizing once |
| SchemaLookup.EmptyQueryMatchesEveryKey | src/mcp/schemaLookupTool.ts:92-97 | a query that normalizes to the empty string matches every key |
| SchemaLookup.LookupSchemaSound | src/mcp/schemaLookupTool.ts:74-121 | every result comes from a searched domain's index through a key match or a file-name match |
| SchemaLookup.LookupSchemaComplete | src/mcp/schemaLookupTool.ts:87-111 | every entry under a matching key is returned, and every file-name match has its path returned; a missing index skips only its domain |
| SchemaLookup.KeyBranchKeepsDuplicates | src/mcp/schemaLookupTool.ts:92-97 | one entry under two matching keys is returned twice |
| SchemaLookup.NoCriteriaAcceptAll | src/mcp/schemaLookupTool.ts:145-167 | absent criteria impose nothing |
| SchemaLookup.FindRelatedSchemasSound | src/mcp/schemaLookupTool.ts:126-185 | every result meets every given criterion, and the file paths are pairwise distinct |
| SchemaLookup.FindRelatedSchemasComplete | src/mcp/schemaLookupTool.ts:137-174 | every entry that meets the criteria has its path among the results |
| AgentUtils.ExtractFirstText | src/agents/utils.ts:1-16 | the first choice's content when it is present and non-empty; "" otherwise |
| AgentUtils.EmptyIffNoFirstText | src/agents/utils.ts:4-15 | the result is empty iff there is no first choice with non-empty content |
| AgentUtils.OnlyFirstChoiceCounts | src/agents/utils.ts:8 | choices after the first never change the result |
| Seqs.Dedup | src/workflows/source-planner.ts:93 | no duplicates and exactly the input's elements |
| Seqs.DedupKeepsFirstOccurrenceOrder | src/workflows/source-planner.ts:93 | elements come in the order of their first occurrence |
| Seqs.DedupAppend | src/workflows/user-query.ts:51 | a Set built from `xs` then `ys` lists `xs`'s distinct elements first, as for `xs` alone, then exactly the elements of `ys` missing from `xs`, in their first-occurrence order in `ys` |
| Seqs.Take | src/workflows/retrieval.ts:34 | the prefix up to `slice`'s end index, with a negative count measured from the end |
| Text.ToLowerIdempotent | src/workflows/triage.ts:21 | lower-casing twice is lower-casing once |
| Text.BlankIffAllSpace | src/workflows/user-query.ts:50-52 | a string trims to empty iff it consists of whitespace only |

## Left out

- I/O and persistence. Reading the JSON domain config (`config/document-sources.json`), the YAML vector-store catalog (`vectorstores.yaml`), the schema index and the JSON portal state file (`portal-state.json`), writing that state file, logging and the HTTP client are all absent. Their results are inputs: `SourcesConfig`, `CatalogFile`, `IndexLoader`, and `Seen`; the state written is the `PortalStateFile` output of `PortalScan.WatchPortals`.
- The regular-expression engine. The triage regexes are written in a small pattern language of literals, character classes, optional characters, runs of spaces or word characters, and word boundaries. The anchor scan of `parsePortalListing` is a given sequence of anchors. The dd/mm/yyyy date pattern of `extractPublishedAt` is written out as a predicate on character positions.
- URL parsing and `decodeURIComponent` are oracles. In `UrlEnv`, `new URL` or `decodeURIComponent` throwing is a `None` result. In `ListingEnv.resolve` a throwing `new URL` is an `Err` result, which aborts the listing and the scan.
- SHA-256 (section 6.2 of FIPS 180-4) is a function parameter. Nothing assumes it is injective.
- Listing.ExtractPublishedAt: stops at the day, month and year strings. The conversion to an ISO date is the oracle `ListingEnv.dateToIso`, whose `Err` stands for `toISOString` throwing on an impossible date; which dates the calendar rejects is not modelled.
- `Date.now` and the detection timestamp are a clock parameter (`Clock`, `ListingEnv.now`). Every `new Date()` of one listing page reads the same `ListingEnv.now`, and the `lastRun` stamp is `ScanIO.finishedAt`.
- `uploadDocument` (src/agents/maintenance.ts:106-137) writes files. It is not modelled.
- The language-model agents (coordinator, specialists and enricher) and the streaming workflow variant are not modelled. The coordinator is a function parameter, and the enricher's reply is an input.
- `classifyQuestion` logging and the `v(\d+)` version rewrite in schema names are not modelled. The rewrite maps each version string to itself.
- Text.ToLower: lower-cases ASCII and Latin-1 letters only, not the whole Unicode case table.
- Classifier.FirstMax: states which store a stable descending sort puts first. It does not model the sort of the whole list.
- PortalScan.Scan: takes the listing parser as a parameter, so the scan lemmas hold for any parser.
- `watchPortals` has no guard around URL resolution, the fetch or the parse. One failing portal aborts the whole scan, and the state file is not written. The model follows this code.
- `runRetrieval` does not record unregistered ids in `errors`. The model follows this code.
- Retrieval.RunRetrieval: takes the loaded catalog. `isValidVectorStoreId` (src/workflows/retrieval.ts:39) reloads the catalog and throws when loading fails. That throw is not modelled. In the workflow, planning has already loaded and cached the catalog (`SourcePlanner.PlanStoresLoading`), so the reload cannot fail there.
- Classifier.ClassifyDocument: takes the loaded catalog. The throw of `loadVectorStoresCatalog` (src/agents/maintenance.ts:58-72, thrown at line 65), which aborts `classifyDocument` through `scoreVectorStores` (src/agents/maintenance.ts:297), is not modelled.
- AllowedDomains.GetAllowedDomains: a configuration entry that is `null` (so `d.pattern` throws in `getAllowedDomains`, src/config/allowed-domains.ts:183) cannot be written: `DomainConfig` entries are always records. A JSON file with such an entry is outside the configuration format.
- HTTP and Express wiring, validation middleware, the agent registry, the vector-store directory mapping, and the thin I/O tools are outside this core.

## Findings

| source | as written | input that shows it | evidently intended | confidence | as-written member | corrected member |
|---|---|---|---|---|---|---|
| src/workflows/triage.ts:21, src/workflows/triage.ts:132-137 | the state-code pattern lists upper-case codes without the `i` flag but runs on the lower-cased question, so it never matches | "Alíquota de ICMS em SP" gives no UF, while src/__tests__/workflows/triage.test.ts:32-35 expects "SP" | match the codes on the trimmed original question and report the code in upper case | high; not executed | Triage.DetectUFNeverMatches | Triage.ClassifyQuestionCorrected |

`TriageExamples.UFExample` shows both halves on the test sentence. The rest
of the workflow (`UserQuery.RunUserQueryWorkflow`) calls the as-written
`Triage.ClassifyQuestion`, so the routing it models is the routing the
code performs.
