# quadpod, verified

quadpod is a Solid server that keeps every resource as graphs in one quad store and the
bytes of non-RDF resources in an object store. This project models the logic above those two
stores and proves what the server's own comments and documentation promise of it. The store
is a map from graph name to a set of triples with an atomic update; each update has its
meaning as a function on that map.

How the files are laid out, bottom up:

- `Terms`, `GraphNames`, `Space`, `Paths`: IRIs by what they are, why their spellings never
  collide, the classification of request paths and its inverse.
- `Storage`, `Patches`, `Protocol`: every storage operation as separate reads, one atomic
  update and object-store calls, run by any number of clients that interleave and crash.
- `Crash`, `Refinement`, `Stops`, `Races`: what survives an interruption, the refinement of
  sequential runs to a map from resource to dataset or bytes, the same when operations stop
  halfway, and exactly when other clients can spoil what an auxiliary's writer is told.
- `Pod`: the same operations in the form the server writes them, as methods with loops that
  build an update and send it, each proved to leave what its steps in `Protocol` leave.
- `Containment`, `PatchParse`, `Renumbering`, `PatchEffect`: containers and their ledger of
  members, N3 Patch documents, exactly when renumbering their names keeps their meaning, and
  what applying one does.
- `Skolem`, `Versions`, `Formats`, `LossChecks`, `Etag`, `Negotiate`: blank nodes on the way
  in and out, RDF versions, the loss checks of PUT against GET, validators, negotiation.
- `Bus`, `Dpop`, `Cache`, `IssuerCalls`: the notification registry, the DPoP replay set, the
  bounded cache, and calls on that cache that interleave.
- `Collections`: facts about sets and sorting that several of these use.

Hashing, N-Quads rendering and the object store's segment encoding are parameters taken as
injective, rendering only on quads whose IRIs and literals are kept in their one canonical form
(`GraphNames.Spelled`, `Etag.CanonicalQuad`); UUIDs come from a supply that never repeats; clocks, network answers and the rows a
SELECT returns are parameters. A broadcast channel keeps the last 64 events for each reader, and a
reader further behind is told how many it lost and goes on at the oldest kept.

Where the code and its comments differ, the model follows the code. Each difference has its
exact condition:

- `Renumber` is documented to keep a variable and a condition's blank node of one spelling
  apart. It files the blank node `_:b` under the string `_:b`, and N3 lets a variable be spelled
  `?_:b`. Every name has its own index, and every variable of a change is bound under its own
  name, if and only if no such pair meets in the patch's formulae
  (`Renumbering.NumberedAsPromisedIffNothingMeets`); a client sees it cannot when no variable
  begins with `_:`. Where a pair meets in the conditions they lose solutions
  (`Renumbering.SolutionsKeptIffNothingMeets`), and where the variable is in a change alone it is
  accepted unbound (`Renumbering.UnboundIsAcceptedIffDisguised`).
- The comment on `put_blob` says an interrupted write leaves an object no read path can see.
  That holds if and only if the resource was not binary already; over a binary the old marker
  shows new bytes under the old media type (`Stops.ObjectAloneIsInvisibleIffNotBinary`). It is
  the one way a stopped operation leaves the map neither as before nor as after
  (`Stops.StoppedOperationRefines`).
- `aux::put` is documented to answer whether the caller's write landed. It answers whether the
  auxiliary is there afterwards. `Ok` can be relied on, whatever others do, if and only if the
  subject was present at the write (`Races.OkIsReliableIffSubjectPresent`).
- A patch whose guard fails is still reported applied by `patch_guarded`, and the second look of
  `aux::patch` corrects that only while nobody recreates the auxiliary. `Applied` can be relied
  on if and only if the guard and the deletions hold at the write, or there is nothing to change
  (`Races.AppliedIsReliableIffWriteMatches`, `Races.SubjectAndAuxiliaryCanComeBack`).
- An auxiliary's content goes with the auxiliary's own marker, except after a patch without
  deletions that wrote after its auxiliary was deleted and its subject was not
  (`Races.UnmarkedContentIffPatchOutlivesAux`).
- A patch may bind a literal to a variable in subject position. The grammar of SPARQL 1.1 Query
  admits a literal there, and SPARQL 1.1 Update leaves out a template triple that is not RDF, so
  such an insertion is dropped while the rest is written and the answer is `Applied`, and such a
  deletion is never there (`PatchEffect.EveryInsertionLandsIffNoLiteralSubject`,
  `PatchEffect.LiteralSubjectDeletionIsMissing`). In predicate position a literal does not parse.
- A type range such as `text/*` at q=0 changes nothing in any header that has another entry
  (`Negotiate.ZeroRangesChangeNothing`); when the answer is one the same header does not admit
  is `Negotiate.WhenTheAnswerIsUnwelcome`. `application/*` resolves to `text/turtle` when Turtle
  can carry the resource (`Negotiate.ResolvedIsAdmittedExceptApplication`).
- `BlobKey::of` is documented to have no key for containers. The root gets the empty key
  (`Blob.ContainersHaveNoKey`).
- `uses_reserved_namespace` does not look inside triple terms, so a skolem IRI hidden there is
  accepted and read back as a blank node (`Skolem.WhatTheReservedCheckLeaves`,
  `Skolem.AHiddenSkolemIriIsNotReadBack`).
- Write is asked of a patch whose insertions put back all it deletes, and Append of one whose deletions
  require all it inserts; such a patch takes away or adds nothing. When a patch does is
  `PatchEffect.TakesAwayIff`, `PatchEffect.AddsIff` and `PatchEffect.WithoutConditionsIff`.
- The validators `If-Match` is compared against leave out a 1.2-basic read of a 1.2 state
  (`LossChecks.IfMatchCoversEveryReadButOne`).

## Model

| member | source | states |
|---|---|---|
| Protocol.AuxiliariesNeverOutliveSubjects | src/aux.rs:103-263 | In every interleaving of any number of clients, wherever they stop, an auxiliary with a marker or any content has a present subject. |
| Protocol.NoEarlierGrantReappears | src/aux.rs:212-222 | Once a subject is gone, everything its auxiliary holds later was written later by an auxiliary write, under a subject present at that moment. |
| Protocol.OnlyAuxWritesReachAux | src/aux.rs:81-120 | One step adds to an auxiliary only the body of an auxiliary write, and only under a present subject. |
| Protocol.OkMeansItLanded | src/aux.rs:122-156 | If no other client puts the same auxiliary before the post-check, a client told `Ok` had a present subject and its document was the auxiliary right after its own update; later patches and deletes by others are allowed. |
| Protocol.StepKeeps | src/resource.rs:107-236 | One step of any operation, acting on reads of any age, keeps the auxiliary rule and the rule that registries name shelves only. |
| Protocol.EmptyPodIsSound | src/aux.rs:81-85 | The invariant of the interleaving results holds of an empty pod, so it holds of every reachable one. |
| Races.OkIsReliableIffSubjectPresent | src/aux.rs:122-156 | From any sound state: whatever others do before the post-check, `Ok` from `aux::put` implies the client's document took effect, if and only if the subject was present when it wrote. |
| Races.OkMeansTheDocumentIsThere | src/aux.rs:122-156 | If nobody else reaches the auxiliary before the post-check, `Ok` is told exactly when the subject was present at the write, and at the post-check the auxiliary holds exactly the client's document. |
| Races.AppliedIsReliableIffWriteMatches | src/aux.rs:178-196 | Whatever others do, `Applied` from `aux::patch` implies that the client's write left the auxiliary as the old one less its deletions plus its insertions, if and only if its deletions were there and its subject present at the write, or the change is none. |
| Races.TheLastLookDecides | src/aux.rs:140-196 | In every run an operation on an auxiliary is told `Ok` or a patch verdict, whichever, only with the auxiliary there at its last look, `Missing` only with its subject there, and `SubjectMissing` only with one of the two gone; the post-check replaces an answer by `SubjectMissing` or lets it stand. |
| Races.SubjectAndAuxiliaryCanComeBack | src/aux.rs:140-196 | From any state two newcomers can bring a subject and its auxiliary into being while a client waits for its post-check; this is the run behind both results above. |
| Races.UnmarkedContentIffPatchOutlivesAux | src/aux.rs:178-196 | One action makes an auxiliary with content and no marker if and only if it is the write of an auxiliary's patch, the marker gone, the subject present, nothing to delete and something to insert. |
| Races.MarkersKeptWithoutIt | src/aux.rs:178-196 | A run without such a write keeps every auxiliary's content under its own marker. |
| Stops.ObjectAloneIsInvisibleIffNotBinary | src/resource.rs:198-236 | New bytes written without their marker change what no resource shows, if and only if the resource was not binary already. |
| Stops.StoppedOperationRefines | src/resource.rs:107-705 | An operation stopped after any number of its steps leaves the simple map as before or as after, except a blob write over a binary stopped at its object, which leaves the new bytes and everything else as before. |
| Stops.StoppedRunsRefine | src/aux.rs:103-263 | The same over any sequential run in which every operation may stop anywhere. |
| Crash.BinariesSurviveCrashes | src/resource.rs:187-261 | In a sequential run in which any operation may stop between steps, a resource marked binary has a recorded media type and an object at its key. |
| Crash.StillServable | src/resource.rs:213-235 | One step never leaves a resource marked binary without media type and object, at that resource or any other. |
| Crash.EmptyPodIsServable | src/resource.rs:187-194 | The crash invariant holds of an empty pod, so it holds of every reachable one. |
| Blob.DistinctUrlsDistinctKeys | src/blob.rs:50-63 | Two storable URLs never share an object key. |
| Blob.ContainersHaveNoKey | src/blob.rs:50-63 | No container has a key except the root, whose key is empty. |
| Blob.KeyIffFits | src/blob.rs:50-63 | A stable path has a key exactly if it is the root, or ends in no slash and keeps 255 bytes a segment and 1024 in all once encoded; the key is then the encoded path. |
| Refinement.StorageRefinesMap | src/resource.rs:107-544 | Over any non-overlapping run the stores represent exactly what the simple map from resource to dataset or bytes would hold, and the registries stay intact. |
| Refinement.OperationRefines | src/resource.rs:107-705 | Each operation, left alone, answers what the simple map answers and changes no other resource's dataset, bytes, media type or presence. |
| Refinement.PutDatasetRefines | src/resource.rs:107-196 | After `put_dataset` the resource is exactly the written quads with that media type and no bytes. |
| Refinement.PutBlobRefines | src/resource.rs:206-236 | After `put_blob` the resource is exactly the bytes with that media type and no quads; an over-long key writes nothing. |
| Refinement.ResourcePatchRefines | src/resource.rs:396-453 | An uninterrupted patch of a resource is the N3 Patch definition on its default graph, with what no graph can hold left out; named graphs, media type and other resources stay. |
| Refinement.AuxPatchRefines | src/aux.rs:178-196 | The same for an auxiliary that is there; one that is not is refused, telling it from a missing subject. |
| Refinement.AuxPutRefines | src/aux.rs:140-156 | `aux::put` replaces the auxiliary under a present subject, refuses an absent one and an oversized document, and touches nothing else. |
| Refinement.DeleteSubjectRefines | src/aux.rs:234-263 | The cascade removes subject and auxiliary, unlinks the subject from its parent, and leaves every other resource as it was. |
| Refinement.DeleteSubjectLeavesNothing | src/aux.rs:239-252 | After the cascade no graph, fact, auxiliary or shelf of the subject is left. |
| Refinement.PutDatasetKeepsShelves | src/resource.rs:120-180 | `put_dataset` keeps every non-empty shelf registered with its one owner under its one name, and no registry listing another's. |
| Refinement.EmptyStoresRepresentEmptyMap | src/resource.rs:460-505 | Empty stores represent the empty map. |
| PodObject.Pod.PutDataset | src/resource.rs:107-196 | Building one update by loops over registry, buckets and facts leaves what the steps of `put_dataset` leave. |
| PodObject.SplitByGraph | src/resource.rs:128-150 | The bucketing loop puts every quad in the default graph or in the one shelf of its graph name, losing and adding none. |
| PodObject.DatasetUpdate | src/resource.rs:150-186 | The sequence of drops, inserts and facts means the atomic replacement of the resource. |
| PodObject.Pod.PutBlob | src/resource.rs:206-236 | Object first, then one update; the result is what the steps leave. |
| PodObject.Pod.PutRdf | src/resource.rs:564-581 | The graph holds exactly the new triples and the marker is set; the system graph is otherwise kept. |
| PodObject.Pod.InsertMarked | src/resource.rs:595-610 | The triples are added and the marker is set. |
| PodObject.Pod.PatchGuarded | src/resource.rs:396-453 | From the rows of a SELECT with LIMIT 2, substitution loops and one conditional update give the patch's specification, literal subjects included. |
| PodObject.Pod.PatchResource | src/resource.rs:377-383 | A resource patch leaves what its steps leave. |
| PodObject.Pod.AuxPut | src/aux.rs:140-156 | The three conditional operations stand or fall together; the answer is read afterwards. |
| PodObject.Pod.AuxPatch | src/aux.rs:178-196 | An absent auxiliary is refused, telling a missing auxiliary from a missing subject; otherwise the guarded patch and a second look. |
| PodObject.Pod.DeleteAux | src/resource.rs:694-705 | Both graphs are dropped whether or not the auxiliary was there; the answer says which. |
| PodObject.Pod.DeleteSubject | src/aux.rs:234-263 | The cascade is one update with the unlink in it, then the object. |
| PodObject.Pod.GetDataset | src/resource.rs:460-505 | With intact registries, one read per registered shelf returns exactly the resource's quads under their graph names, and nothing for an absent resource. |
| PodObject.SubstituteAll | src/resource.rs:328-355 | Fails exactly when a line cannot be written or parsed (a triple term anywhere, anything but an IRI as predicate), and otherwise yields the triples the lines stand for and whether each stands for one. |
| PodObject.Pod.PutContainer | src/http.rs:1363-1526 | A container PUT is refused for a reserved IRI, else for a named graph, else for a membership triple, each answer exactly in its case, and then changes nothing; otherwise it leaves the container step's result. |
| PodObject.Pod.PatchContainer | src/http.rs:787-940 | A container PATCH is refused exactly on the containment conflict; otherwise loops over rows, substitution and conditional updates leave the store, and give the client the answer, that the `Containment` rows on PATCH below state exactly. |
| Containment.ContainmentIsConserved | src/http.rs:1504-1526 | Over any run, storage operations on non-containers in between, a container's membership triples are what `add_containment` entered less what deletes removed; no PUT or PATCH moves one. |
| Containment.StepIsEntered | src/aux.rs:251-254 | One operation, on a container or elsewhere, changes every container's membership triples exactly as the ledger says. |
| Containment.ElsewhereIsTheOperation | src/resource.rs:107-236 | What the ledger's runs do off containers is what the operation's own steps leave when run to the end. |
| Containment.PutIsExact | src/http.rs:1504-1526 | After a container PUT the graph is the body, the membership triples of a container that was there and the two types; its facts gain the marker; every other graph, the auxiliary included, is as it was. |
| Containment.AdditionsAreExact | src/container.rs:69-103 | `ensure_container` adds the two types and `add_containment` the one membership triple, with the marker, and neither changes anything else. |
| Containment.PatchOfPresentIsExact | src/http.rs:787-870 | Under its one mapping a PATCH of a container that is there leaves (G minus D) union I with the types when every deletion is in G, G with the types when one is not, and G when the text does not parse; every other graph is as it was. |
| Containment.UnmappedPatchIsExact | src/http.rs:787-870 | With no mapping or several it leaves G with the types, and every other graph as it was. |
| Containment.PatchOfAbsentIsExact | src/http.rs:902-940 | On a container that is not there it creates the insertions with types and marker exactly when it has no conditions and no deletions; otherwise nothing is written. |
| Containment.PatchAnswerIsExact | src/http.rs:787-940 | Each answer to a container PATCH, creation and store failure among them, holds exactly in its case. |
| Containment.RefusedIffSomeBindingTouches | src/http.rs:999-1009 | A well-formed patch is refused exactly when some binding would make it write or remove a membership triple. |
| Containment.PatchSetsContainment | src/http.rs:999-1009 | The walk finds a conflict exactly when one is there, and says `VariablePredicate` exactly when some predicate is not an IRI. |
| Containment.BodySetsContainment | src/container.rs:15-17 | True exactly when some triple has the membership predicate. |
| Containment.ServerManagedIsAllThatIsAdded | src/container.rs:32-51 | What a container PUT stored, less what the server manages, is what the client sent, less the same; the types and marker are there. |
| Containment.EmptyStoreIsConsistent | src/container.rs:69-94 | The ledger's invariant holds of an empty store, so it holds of every reachable one. |
| PatchEffect.PatchGuardedIsExact | src/resource.rs:396-453 | Each answer of `patch_guarded` holds exactly in its case: no mapping, two mappings, text that does not parse, a deletion the graph does not hold, or the change. |
| PatchEffect.HoldsAllIffGroundThere | src/resource.rs:357-376 | The substituted deletions are in the graph exactly when the graph holds an instance of each pattern under the mapping. |
| PatchEffect.PatchedStore | src/resource.rs:357-376 | Under its one mapping, text permitting, the graph becomes (G minus D) union the insertions that are triples, exactly when every deletion is in G and the guard holds; otherwise nothing changes. |
| PatchEffect.RefusedPatchTouchesNothing | src/resource.rs:416-452 | Any answer but `Applied` leaves every graph as it was. |
| PatchEffect.UnwritableIffNoText | src/resource.rs:308-355 | For a parsed patch the store refuses the text exactly when a triple term is bound anywhere or a literal in predicate position. |
| PatchEffect.EveryInsertionLandsIffNoLiteralSubject | src/resource.rs:314-355 | A patch answered `Applied` under a guard that holds leaves all its insertions in the graph if and only if none has a literal for its subject. |
| PatchEffect.LiteralSubjectDeletionIsMissing | src/resource.rs:314-355 | A deletion with a literal for its subject is answered as missing, whatever the graph holds. |
| PatchEffect.APatchCanBePartlyWritten | src/resource.rs:314-355 | A patch of two insertions, one with a literal subject, that is answered `Applied` and writes the other alone. |
| PatchEffect.WithoutWriteOrAppend | src/patch.rs:196-202 | Without Write the result contains G; without Append it is contained in G. |
| PatchEffect.WithoutReadNothingIsLearned | src/patch.rs:196-202 | Without Read the answer is always `Applied` and what is added does not depend on G. |
| PatchEffect.ReadIsNeeded | src/patch.rs:73-81 | A patch that requires Read is never answered `Applied` for an empty graph. |
| PatchEffect.TakesAwayIff | src/patch.rs:196-202 | A patch takes something away from some graph exactly if it goes through on some graph under a mapping that puts not all its deletions back. |
| PatchEffect.AddsIff | src/patch.rs:196-202 | It adds something to some graph exactly if it goes through on one that lacks one of its insertions. |
| PatchEffect.WithoutConditionsIff | src/patch.rs:196-202 | Without conditions it takes something away exactly if some deletion is no insertion, and adds something exactly if some insertion is no deletion. |
| PatchEffect.ModesAreExact | src/patch.rs:196-202 | Read is asked exactly if some graph keeps the patch from being answered `Applied`; Write and Append, of a patch without conditions that puts nothing back, exactly if it takes away or adds something somewhere, and conditions make no difference to either. |
| PatchParse.Parse | src/patch.rs:153-176 | Parsing succeeds exactly on shape-valid documents, numbers their names densely, and otherwise reports the first rule broken, no patch and several patches before all else. |
| PatchParse.PatchSubject | src/patch.rs:237-252 | Finds the one patch resource, or tells none from several. |
| PatchParse.Formula | src/patch.rs:266-294 | At most one object per formula predicate, and it must name a formula of the document. |
| PatchParse.FormulaIsExact | src/patch.rs:266-294 | By the document's quads: no such formula exactly if none says so, one exactly if one quad does and names a graph of the document, several if two do, and not a formula if the one names none. |
| PatchParse.PatternsWithin | src/patch.rs:303-324 | A formula converts exactly when no quad of it breaks a rule; names keep their index and only conditions add any. |
| PatchParse.WithinIsExact | src/patch.rs:303-324 | A formula holds the document's quads in its graph, as often and in the document's order. |
| PatchParse.FirstErrorIsFirst | src/patch.rs:303-324 | The refusal of a formula is that of its first quad that breaks a rule. |
| PatchParse.ConvertTerm | src/patch.rs:340-373 | Each kind of term is accepted, bound, looked up or refused, and each refusal has its exact case. |
| PatchParse.Renumber.Bind | src/patch.rs:126-129 | A known name keeps its index, a new one gets the next, and indices stay dense and distinct. |
| PatchParse.BindKeepsDense | src/patch.rs:126-129 | Giving a new name the next index keeps the numbering a bijection onto an initial segment. |
| PatchParse.ValidIffNotRefused | src/patch.rs:139-152 | The declarative shape rules hold exactly when the ordered checks find nothing to refuse. |
| PatchParse.InsertOnlyParses | src/patch.rs:153-176 | A document of one patch resource with one formula of plain insertions, and neither conditions nor deletions, is accepted, and stands for exactly those triples. |
| PatchParse.NumberedIsWellFormed | src/patch.rs:168-175 | Every accepted document numbers to a patch whose indices are exactly 0 to n-1 and whose changes use only indices of the conditions. |
| PatchParse.SameVariableIffSameName | src/patch.rs:110-138 | Two positions are the same variable exactly when the client wrote the same name, or a variable spelled `?_:b` and the condition blank node `_:b`. |
| Renumbering.NumberedAsPromisedIffNothingMeets | src/patch.rs:110-138 | An accepted document gets one index a name, with every variable of a change bound under its own name, if and only if no blank node `_:b` of its conditions meets a variable `?_:b` in any formula. |
| Renumbering.NothingMeetsWithoutThePrefix | src/patch.rs:110-138 | No such pair meets in a document none of whose variables begins with `_:`. |
| Renumbering.UnboundIsAcceptedIffDisguised | src/patch.rs:340-373 | An accepted document has every variable of its changes in its conditions, except exactly variables spelled like a blank node of the conditions. |
| Renumbering.AcceptedIffValidByNameOrDisguised | src/patch.rs:139-176 | A document that keeps the shape rules with the unbound-variable rule over names is accepted; one that does not is accepted exactly when such variables are all it lacks. |
| Renumbering.SolutionsKeptIffNothingMeets | src/patch.rs:153-176 | On every graph, every solution of the conditions in the client's own names is one of the numbered conditions, if and only if no such pair meets in the conditions. |
| Renumbering.NumberedSolutionsAreSolutions | src/patch.rs:153-176 | Every solution of the numbered conditions, read back over names, solves what the client wrote, whatever is spelled how. |
| Renumbering.SolutionsCorrespond | src/patch.rs:153-176 | Where nothing meets, on every graph, solutions in indices and solutions over names are in one-to-one correspondence, reading one as the other and back. |
| Renumbering.VerdictIsTheClients | src/resource.rs:396-453 | Then the graph gives the numbered conditions no mapping, one or several exactly as it gives the client's, and the one mapping is the client's. |
| Renumbering.ChangesAreTheClients | src/resource.rs:328-355 | Where nothing meets, deletions and insertions stand for the same triples under a numbered solution as under the client's, and fail to render together. |
| Renumbering.AnUnboundVariableIsAccepted | src/patch.rs:350-358 | For any label, `where { _:b p o }` with `inserts { ?_:b q o }` is accepted though no condition binds `?_:b`. |
| Renumbering.TwoNamesBecomeOne | src/patch.rs:110-122 | For any label, `where { ?_:b p _:b }` becomes a pattern of one variable and matches nothing on a graph where the client's conditions have a solution. |
| PatchParse.GroundInsertions | src/patch.rs:216-233 | `Some` exactly when there are no conditions, and then the insertions as ground triples. |
| PatchParse.CreateByPatch | src/http.rs:902-939 | Creation answers and produces what applying the patch to an empty graph does. |
| PatchParse.CreationMatchesEmptyGraph | src/http.rs:887-897 | On an empty graph conditions give no mapping, deletions are missing, and the rest applies as written. |
| Skolem.Skolemize | src/dataset.rs:354-398 | Total: every blank node gets one minted IRI, no two share one, at every depth of triple term. |
| Skolem.Minter.TermOf | src/dataset.rs:369-383 | The recursive grounding extends the minted map and never changes an earlier entry. |
| Skolem.RoundTripIff | src/dataset.rs:354-528 | Reading back gives the document under one injective blank-node renaming if and only if no skolem IRI stood where a blank node can. |
| Skolem.RoundTripUnder | src/dataset.rs:483-528 | Reading back equals a given renaming exactly when the document is skolem-free and the renaming is the derived labels. |
| Skolem.LabelsDistinguishUuids | src/dataset.rs:487-491 | Dropping hyphens from UUIDs loses no distinction. |
| Skolem.UsesReservedNamespace | src/dataset.rs:297-313 | True exactly when a reserved IRI stands somewhere in a quad outside its triple terms: subject, predicate, object or graph. |
| Skolem.ReservedIffOneOccurs | src/dataset.rs:297-313 | The same of one quad, by the IRIs that occur at its top level. |
| Skolem.WhatTheReservedCheckLeaves | src/dataset.rs:297-313 | A document that passes the check is skolem-free exactly if its triple terms are. |
| Skolem.AHiddenSkolemIriIsNotReadBack | src/dataset.rs:297-313 | A concrete document passes the check and does not round trip. |
| Skolem.FromStore | src/dataset.rs:411-449 | The loop is the parse; it accepts exactly quads without blank nodes, and widening the result gives them back. |
| Skolem.EveryStoredStateParses | src/dataset.rs:405-433 | Reading what was stored back through the parse gives the stored state itself, triple terms included. |
| Skolem.NamedGraphs | src/dataset.rs:461-478 | Exactly the graph names in use, once each; empty exactly when everything is in the default graph. |
| GraphNames.RenderIsInjective | src/shelf.rs:37-46 | Resource, auxiliary, system and shelf graph names are pairwise different as strings, and a shelf key has one owner and one name. |
| GraphNames.ReservedIsThePrefix | src/dataset.rs:45-48 | The case-insensitive prefix test holds of exactly the IRIs in the server's namespace. |
| Space.ResolveInvertsAux | src/space.rs:207-211 | Resolving an acceptable subject's auxiliary URL gives that auxiliary. |
| Space.AuxInvertsResolve | src/space.rs:323-393 | Every resolved auxiliary is its subject's, and its path is the one requested. |
| Space.PlainIffServable | src/space.rs:323-393 | A path resolves to a resource or container exactly if it is rooted, stable, below neither reserved segment and makes a valid IRI; the trailing slash says which. |
| Space.AuxIffOfServable | src/space.rs:323-393 | It resolves to an auxiliary exactly if it is the ACL path of such a path and both make valid IRIs, and then to that subject's. |
| Space.RefusalsAreExact | src/space.rs:323-393 | Each of the four refusals holds exactly of its own paths. |
| Space.DistinctPathsDistinctGraphs | src/space.rs:323-393 | Distinct accepted paths give distinct graph IRIs. |
| Space.ResourceSpaceIsClosed | src/space.rs:234-279 | Parents, ancestors and slash counterparts of acceptable paths are acceptable. |
| Paths.CounterpartIsInvolution | src/space.rs:234-247 | Off the root, which alone has none, the slash counterpart's counterpart is the path itself. |
| Paths.ParentIsLongestSlashPrefix | src/space.rs:254-266 | The parent is the longest slash-ended proper prefix, and only the root has none. |
| Paths.Ancestors | src/space.rs:271-279 | The loop terminates with the ancestor chain. |
| Paths.AncestorsAreSlashPrefixes | src/space.rs:268-279 | The chain is exactly the slash-ended proper prefixes, nearest first. |
| Paths.StableIffFixedPoint | src/space.rs:403-432 | A path is accepted as stable exactly when the normalizer leaves it unchanged. |
| Paths.TheNormalizerKeepsTheRules | src/space.rs:395-402 | The slash-dropping normalizer is indifferent to an empty segment, a dot, a segment followed by `..` and a `..` at the root, struck anywhere in any path, and leaves other paths alone. |
| Paths.RulesDetermineTheNormalizer | src/space.rs:395-402 | It is the only function of which that is true, on every path without a fragment. |
| Paths.FragmentIsDropped | src/space.rs:395-402 | What follows a `#` plays no part. |
| Paths.SameHtuIffSlashPair | src/space.rs:403-432 | Two stable paths agree under the slash-dropping normalizer exactly when they are equal or slash counterparts. |
| Versions.Classify | src/dataset.rs:204-218 | The early-stopping pass finds the least version every term needs. |
| Versions.ProjectionsCompose | src/dataset.rs:232-256 | Projecting to a and then b is projecting to the lower of them. |
| Versions.LosslessIffAtLeastHeld | src/dataset.rs:232-256 | Projection is the identity exactly at or above the held version, and never exceeds target or held. |
| Versions.ProjectionNeverInvents | src/dataset.rs:220-231 | Every projected quad is a written one up to its base direction, and only triple-term quads go missing. |
| LossChecks.ChecksPassIffReadIsComplete | src/http.rs:1397-1451 | The loss checks pass exactly when GET in that format and version serves all of the state. |
| LossChecks.VerdictsAreExact | src/http.rs:1363-1451 | Each verdict on a PUT holds exactly in its case: a body richer than declared, a reserved IRI, terms the declared version would hide and which version holds them, graphs the format would hide, or admission; creation can fail only for the body. |
| LossChecks.ServedIsExact | src/http.rs:1986-2011 | A GET serves, in order and as often, exactly what it may show of each quad: nothing of a named graph in a graph format, a triple term only under 1.2, a base direction gone only under 1.1; all else as held. |
| LossChecks.GetPutGetIsIdentity | src/http.rs:1986-2011 | If the checks let a client put back what it read, the next read is the same document up to one blank-node renaming, and nothing was lost. |
| LossChecks.VisibleIsSkolemFree | src/dataset.rs:483-528 | A client never sees a skolem IRI where a blank node can stand. |
| LossChecks.EtagCandidates | src/http.rs:665-676 | The candidates are every format at RDF 1.1 and at the held version, and nothing else. |
| LossChecks.IfMatchCoversEveryReadButOne | src/http.rs:665-676 | A read's version is covered unless it is 1.2-basic of a 1.2 state. |
| Etag.ComputeTag | src/dataset.rs:538-556 | The hashing loop computes the tag of the sorted lines under format and version. |
| Etag.SameTagIffSameContent | src/dataset.rs:538-556 | Two states of canonically kept quads share a validator exactly when format, served version and multiset of quads agree. |
| Etag.SameTagSameSerialization | src/rdf.rs:284-300 | States with one validator reach the serializer as the same quad sequence. |
| Etag.SerializedIsOrdered | src/rdf.rs:284-300 | What is serialized is the document itself, every quad as often, ordered by its lines. |
| Etag.LeIsLexicographic | src/rdf.rs:284-300 | The order of the lines is the lexicographic one. |
| Etag.SortIgnoresOrder | src/rdf.rs:289-300 | Sorting by a key that tells the elements apart depends on the multiset alone, and determines it. |
| Negotiate.RankingIsExact | src/rdf.rs:315-330 | The ranking holds every entry once, by quality and then position. |
| Negotiate.NegotiatePicksTheBest | src/rdf.rs:372-462 | The answer is the best entry that can carry the resource; only without one the best of the lossy pass; none exactly when neither resolves. |
| Negotiate.WinnerIsUnique | src/rdf.rs:372-462 | At most one entry is best, so the answer is determined. |
| Negotiate.LossyPassIsLossy | src/rdf.rs:427-461 | The lossy pass answers only dataset-shaped resources, never with a dataset-carrying format. |
| Negotiate.WildcardsAreExact | src/rdf.rs:400-461 | In either pass `*/*` resolves to the stored format if that may be offered and otherwise, like `application/*`, to Turtle, else JSON-LD, else nothing; `text/*` to Turtle or nothing. |
| Negotiate.NamedTypesAreExact | src/rdf.rs:400-461 | A named type resolves to itself: in the first pass exactly if it can carry the resource, in the second exactly unless named at q=0. |
| Negotiate.NothingElseResolves | src/rdf.rs:390-461 | An entry at q=0, of an unknown version, or of any other range resolves to nothing. |
| Negotiate.NoHeaderAlwaysAnswers | src/rdf.rs:382-386 | Without `Accept` the answer is RDF 1.1 in the stored format if that carries the resource, else Turtle, else JSON-LD; there always is one. |
| Negotiate.WildcardsAvoidRejected | src/rdf.rs:390-403 | No wildcard resolves to a format named at q=0. |
| Negotiate.ResolvedIsAdmittedExceptApplication | src/rdf.rs:418-423 | What an entry resolves to is within its range except for Turtle under `application/*`, and exactly when. |
| Negotiate.ZeroRangesChangeNothing | src/rdf.rs:390-397 | For every header, leaving out all entries at q=0 whose range ends in `/*` changes no answer while an entry is left, and a header of nothing else is answered with nothing. |
| Negotiate.WhenTheAnswerIsUnwelcome | src/rdf.rs:337-462 | Exactly when negotiation answers with a format that the same header, read by `accept_allows`, does not admit. |
| Negotiate.AcceptAllows | src/rdf.rs:337-362 | Admissible exactly when an entry of the most specific applicable kind has positive quality, or no header was sent. |
| Bus.EveryInterleavingKeeps | src/notify.rs:105-201 | In every interleaving each live reader holds the sender its topic is registered under, and every unread entry has a drop on its way. |
| Bus.PublishReachesExactlyTheTopic | src/notify.rs:138-145 | One publish is sent to every live reader of its topic and to no other. |
| Bus.ReaderIsSentEveryEvent | src/notify.rs:138-157 | An unreleased reader is sent every event published on its topic, in order, whatever runs in between. |
| Bus.SubscriptionIsSentEverything | src/notify.rs:151-157 | The same from any subscription on, in any run. |
| Bus.LossIsExactlyOverrun | src/notify.rs:77-80 | With 64 events kept, a reader has received, lost or has yet to take each event sent to it; the lost are exactly those it was overrun by, 64 newer ones being there when it came to take them. |
| Bus.NothingLostWhileKeepingUp | src/notify.rs:77-80 | A reader that never has more than 64 events unread when it takes one receives the first events of its topic, in order, without a gap. |
| Bus.TakingCatchesUp | src/notify.rs:183-187 | Between publications a reader that comes to take `k` times is given, in order, the next `k` events it can still be given, one turn going into being told that it lagged; so it always catches up. |
| Bus.Registry.Receive | src/notify.rs:183-187 | Taking an event gives the next one sent, or says how many were lost, and moves that reader only. |
| Bus.NoDropPendingNoDeadEntry | src/notify.rs:189-202 | Once no drop is pending every entry has a reader. |
| Bus.RegistryIsBounded | src/notify.rs:95-104 | There are never more entries than readers alive or on their way out. |
| Bus.AScannedTopicCanRevive | src/notify.rs:121-131 | A topic found dead in the first phase can have a reader by the second, and the second count spares it. |
| Bus.EvictionNeedsBothCounts | src/notify.rs:105-133 | Whatever runs between its phases, `live` removes exactly the topics it was asked about that were unread at both counts. |
| Bus.Registry.Scan | src/notify.rs:105-119 | The first loop separates read from unread topics exactly. |
| Bus.Registry.Evict | src/notify.rs:120-131 | The second loop removes exactly the listed topics unread now. |
| Bus.Registry.Live | src/notify.rs:105-133 | Uninterrupted, the result is exactly the watched topics and exactly the unwatched ones asked about are gone. |
| Bus.Registry.FinishDrop | src/notify.rs:190-201 | The locked half of `Drop` removes its topic exactly if no reader remains. |
| Dpop.NoProofAcceptedTwice | src/auth/dpop.rs:576-646 | On a non-decreasing clock, from any state, no proof with the same jti and iat is accepted twice. |
| Dpop.RetentionIsExact | src/auth/dpop.rs:51-85 | That holds for a retention if and only if it is at least 300+5 seconds. |
| Dpop.AcceptedAgainIffSweptPast | src/auth/dpop.rs:173-193 | On any clock, a proof that passes the other checks is accepted again after the last acceptance of its jti if and only if some sweep in between, its own included, ran past the entry. |
| Dpop.TwiceNeedsALateReading | src/auth/dpop.rs:173-193 | On any clock, a jti gets in twice only if some reading in between passed the first acceptance by more than the retention. |
| Dpop.TwiceMeansRetentionPassed | src/auth/dpop.rs:173-193 | On a non-decreasing clock the same jti is accepted again only after the whole retention has passed. |
| Dpop.HeldEntriesAreRecent | src/auth/dpop.rs:61-85 | After any call, at any clock reading, every held entry was recorded less than 365 seconds before. |
| Dpop.EveryRunKeepsEntriesRecent | src/auth/dpop.rs:155-193 | The invariant behind that bound holds over every run, saturation included. |
| Dpop.ReplayVerdictIsEarned | src/auth/dpop.rs:77-84 | A jti is called a replay only if it was accepted in the same run less than 365 seconds earlier. |
| Dpop.ASteppedClockAdmitsAReplay | src/auth/dpop.rs:173-193 | The exact condition can be met by a proof that is still fresh: a run with a clock stepped back after a sweep past the entry accepts it twice. |
| Dpop.AcceptedIsFresh | src/auth/dpop.rs:615-637 | An accepted proof is inside the window in exact arithmetic, bound to its key and to the exact path. |
| Dpop.VerdictsAreExact | src/auth/dpop.rs:576-646 | Each verdict holds exactly in its case, in exact arithmetic; in particular a fresh, bound, authentic proof for the very path is accepted exactly if its jti is not held. |
| Dpop.HeldAfterwards | src/auth/dpop.rs:173-193 | After a proof that reached the set it holds what no sweep took, with the old times, and the jti if it was accepted. |
| Dpop.RefusedProofConsumesNothing | src/auth/dpop.rs:576-646 | Only an accepted proof or a replay touches the replay set; any earlier refusal leaves the jti usable. |
| Dpop.ExactComparisonClosesTheSlashGap | src/auth/dpop.rs:342-350 | Between stable paths the exact comparison refuses just the slash counterpart the crate would accept. |
| Dpop.InMemoryJtiReplayStore.RecordOrReject | src/auth/dpop.rs:173-193 | The critical section is the specified sweep and insert. |
| Cache.InsertBounded | src/auth/cache.rs:40-62 | Nothing goes on a refresh or while there is room; the expired go first; a live entry goes only if none had expired, and it is an oldest one. |
| Cache.CapHoldsForEverySequence | src/auth/cache.rs:34-39 | The cap of 1024 holds over every sequence of keys and times. |
| Cache.FindOldest | src/auth/cache.rs:50-57 | The search returns an entry with the least stamp. |
| Cache.HttpWebIdIssuers.Authorizes | src/auth/webid_issuer.rs:193-232 | In an uninterrupted call: the answer is the cached list's exactly if it is younger than 120 seconds, else a refusal exactly if a failure younger than 30 is noted, else that of the one fetch made; so `Ok` rests on a successful fetch within 120 seconds and `Err` on a failed one within 30. |
| IssuerCalls.EveryAnswerIsTimely | src/auth/webid_issuer.rs:193-232 | However calls interleave between their locks, an answer was read less than 120 (`Ok`) or 30 (`Err`) seconds after a fetch of that profile was stamped, and neither cache exceeds 1024 entries. |
| IssuerCalls.LeftAloneItAnswers | src/auth/webid_issuer.rs:193-232 | The interleaving steps, taken by one call with no other in between, answer in the same three cases and leave in caches and record exactly what each case leaves. |
| IssuerCalls.EveryInterleavingKeeps | src/auth/webid_issuer.rs:193-232 | Every cache entry, in every interleaving, is that of a fetch on record, and both caches keep their cap. |
| Cache.IssuersMatchUpToSlashes | src/auth/webid_issuer.rs:242-244 | Two issuers match exactly when one spelling without trailing slash underlies both. |

## Left out

- Authorization (`src/wac`), ancestor materialization and conditional-request evaluation: taken as decided before the modelled step.
- SPARQL text, escaping and query evaluation: reads and updates are modelled by meaning, a SELECT by the set of its solutions.
- Turtle, TriG, JSON-LD, N-Quads and N3 syntax: parsing and serializing are assumed to agree on quads; `Parse` starts from the N3 parser's quads.
- Cryptography, JWKS and OIDC, `src/auth/safe_fetch.rs`, `src/config.rs`, `src/main.rs`, `src/op`, `src/shapes.rs`: library calls or one-branch decisions.
- HTTP plumbing: routing, status codes, Link headers, CORS, tracing, and the emit functions of `src/notify.rs`, which choose events to publish.
- The header text of `Accept`: entries start parsed, with quality in thousandths. `q=nan` parses as a float too, and the comparator then takes that entry as equal in quality to every other, which is no order; such headers are left out.
- Protocol.Move: a store failure in the middle of an operation is the same as that client stopping there, so it has no step of its own.
- Refinement.StorageRefinesMap: non-overlapping runs only, because the registry read and the later write are separate steps and the source accepts that race.
- Containment.ContainmentIsConserved: non-overlapping runs only, because the container PUT reads members and writes them back in two steps.
- LossChecks.GetPutGetIsIdentity: the state after the write is compared as a set of quads, since the store keeps no order.
- Cache.HttpWebIdIssuers.Authorizes: the profile filter of `fetch_issuers` is part of the network answer.
- `exists_many`, `kind_of` and `stored_media_type` as functions: each writes nothing and reads the facts that `Storage.Present`, `Crash.SaysBinary` and `Storage.RecordedMediaTypes` name, so no result turns on how its query is put; the broken state `kind_of` refuses is the one `Crash.BinariesSurviveCrashes` rules out.
- Streaming an object to the client, and the description of a container's members in its representation: they read what the results here say is there, after the last step that changes it.
