# Stipulator: a Dafny model

Stipulator compiles a markdown specification corpus and keeps machine-owned records about it:
bindings, gaps, attestations, cached witnesses. This project models the parts of it whose
correctness is a matter of protocol, order or arithmetic, and proves what each promises. Nothing
here runs the program; the proofs are about the model, and the table below says which lines each
member models.

| module | models |
|---|---|
| `WitnessProtocol` | the witness store shared by processes: installs, loads and collections as small steps of any number of processes, each able to stop between any two of them |
| `RecordStore` | one record directory: the ranked install bound, the scan, the sweep |
| `Retention`, `Sums` | the retention pass over all stores with its ledger reference counts, preview and byte accounting |
| `GlobalSplit` | the proportional split of one byte bound between two kinds of store, in 64-bit arithmetic |
| `Applier` | the batch applier: compare-and-swap over many files, what the file system answers each operation an argument, another writer at work between the operations |
| `Bundle` | the closure fixed point of a spec bundle |
| `Partitions` | union-find with path compression over intersecting closures |
| `Supersede` | the search over removed sources and their successors |
| `TermMatcher`, `Utf8` | longest-match term claims by in-place blanking; the encoding its length order counts |
| `Clauses`, `Retarget` | clause resolution and claim identity; the prefix retarget, its lazy collision check and the pointer splice |
| `Consent` | the consent pins: the life of one record, the blanket pin and the named re-consent over stores |
| `Coverage` | the evaluation of evidence, the buckets, the gaps and the gate |
| `Progress`, `ProgressSink` | the rate-limited reporter and the sink that never blocks it |
| `Ordering`, `Basics` | string order, sorting by a strict order, the top of an order; the optional value and two shared facts |

Code that changes state is a class with methods; each method is proved against a function or a
predicate on values, and the promises are lemmas about those. An operation that can fail, a lock
that can be held and a context that can end are nondeterministic choices, or an argument where the
result is determined by them. Names, keys, digests and
texts that the program only compares for equality are numbers, or a type parameter.

The methods and the functions they are proved against share small decisions: which record is older,
which classes a gap must declare, where a prefix ends. For each operation one result states what it
does without them, in the terms of its inputs and outputs alone: `Retention.PruneIsLeastEviction`,
`Coverage.BucketMeans` with `GateMeans`, `Retarget.DoneMeans`, `Bundle.BundleMeans`, `Consent.PinMeans`,
`Consent.EditorialMeans`, `Progress.EmittedExactly`, `RecordStore.EvictedAreOldest`,
`Applier.ReservationExactly`, `WitnessProtocol.UncontendedLoad`.

Some promises hold only under a condition, which is then part of the result:

- The share of the byte bound is a 64-bit product divided by a sum. `GlobalSplit.InRange` is the
  guard the code lacks, and it is exact: the two stores end within the bound, whatever files hold
  their bytes, if and only if it holds (`GuardIsExact`). Without it a negative share is read as no
  ceiling. A bound of 4 GiB over stores of 4 and 2 GiB is such a case, and all 6 GiB stay
  (`FourGibibytesOverflow`).
- Claims of term names are on word boundaries of the original text when no name has a non-word edge
  that an earlier name's word edge can meet (`TermMatcher.Compatible`; names that begin and end with
  a word character always are). `SingleNameBounded` gives the exact condition for one name, and
  `ClaimOffBoundary` shows for any two names that the first half of the condition is needed.
- Label spellings decide duplicate claims without the corpus exactly when no two labels of a
  requirement lead to one ordinal (`Clauses.SpellingsDecide`).
- A clean result never turns a requirement red and never moves a gap backwards, unless the
  requirement was exempt: `CleanClaimOnExempt` says exactly when a clean claim turns an exempt
  requirement red, `CleanMovesGapsOn` that it is then, and only then, that a resolved gap falls due
  again, and `ExemptTurnsRed` exhibits one.
- A load that cannot read a record, or a collection that cannot remove one it refuses, may reclaim a
  ledger that a record still names. `WitnessProtocol.Harmless` is the exact condition on each such
  fault: a miss in the unlocked reading always is, and under the lock one is when another reference,
  the ledger's age, or a record still to be read keeps the ledger. After any other, the process going
  on alone takes a record's ledger (`HarmfulFaultIsFatal`).
- A record's consent follows a chain of texts from the pins its last naming left. The chain starts
  at the text the author named exactly when that naming left no other text's bytes pinned
  (`Consent.AnchoredIffLinked`); a naming over a record current by content can leave them
  (`NamingCanKeepOldBytes`).

In one place the code differs from its own description: internal/recordapply/recordapply.go:16-18
and 149-150 say that an empty reservation is removed or named, but when the applier cannot look at
the name after a failed close or rename (lines 152-155) it reports that fault alone and the
reservation stands unnamed. The model follows the code. `Applier.UnnamedIffStranded` gives the exact
condition over every batch and every answer of the file system, `UnnamedExactly` where other writers
are at work elsewhere, and `LeaveUnnamed` is one apply that does it.

## Model

| member | source | states |
|---|---|---|
| `WitnessProtocol.StepKeepsGood` | internal/witnesscache/witnesscache.go:323-382 | after whatever any process does next, every record whose installer supplied a ledger still has a readable one at its key, and the process holding the lock still knows what its phase relies on, exactly when the step is no harmful fault |
| `WitnessProtocol.RunKeepsLedgers` | internal/witnesscache/witnesscache.go:668-691 | the same over every interleaving of any number of installs, loads and collections, with stops between any two steps and any harmless faults |
| `WitnessProtocol.OnlyTheHolderWrites` | internal/recordstore/lock.go:17-67 | no step but the lock holder's changes a record or a ledger |
| `WitnessProtocol.SweptIsOld` | internal/recordstore/recordstore.go:357-395 | only a sweep takes a ledger, one it has no reference to, older than its operation or of an unreadable age |
| `WitnessProtocol.CompletedInstallIsServable` | internal/witnesscache/witnesscache.go:765-801 | at the end of an install its record is on disk with its ledger, whatever else ran meanwhile, harmless faults included |
| `WitnessProtocol.RunEvictsSiblings` | internal/recordstore/recordstore.go:232-275 | in every run, stops and faults of any kind included, a record an install takes is another of its own identity, and an install that finishes has taken all it chose |
| `WitnessProtocol.UncontendedLoad` | internal/witnesscache/witnesscache.go:323-382 | an uncontended load keeps every record, and of the ledgers exactly those a record names and those no older than the load; begun after every ledger was written, exactly the named ones |
| `WitnessProtocol.UncontendedLoadWithMisses` | internal/witnesscache/witnesscache.go:323-382 | an uncontended load some of whose reads fail keeps every record, and of the ledgers exactly those named by a record read in either scan and those no older than the load |
| `WitnessProtocol.UncontendedCollect` | internal/witnesscache/witnesscache.go:828-867 | an uncontended collection keeps exactly the admitted records of live identities, and of the ledgers the ones they name and the young |
| `WitnessProtocol.FaultsOrphanARecord` | internal/witnesscache/witnesscache.go:361-377 | from a store of one record each of the two faults, under the lock, loses the ledger it names |
| `WitnessProtocol.HarmfulFaultIsFatal` | internal/witnesscache/witnesscache.go:361-377 | after any harmful fault the process itself, going on without another, takes a ledger from a record on disk |
| `WitnessProtocol.HarmlessFaultIsSurvived` | internal/witnesscache/witnesscache.go:361-377 | after a harmless one no run, harmless faults included, takes a ledger from a record |
| `RecordStore.Store.Scan` | internal/recordstore/recordstore.go:190-214 | every record file once, latest modified first, names breaking ties |
| `RecordStore.Store.Install` | internal/recordstore/recordstore.go:232-275 | after a completed install, from any state an earlier one left, exactly the names that survive the bound are there; after a faulted write, the prior names and the prefix that landed |
| `RecordStore.OverflowIsOutranked` | internal/recordstore/recordstore.go:262-274 | the walk that counts kept variants per identity evicts a name exactly when at least the bound's number of its identity's names outrank it |
| `RecordStore.TopRankedSurvive` | internal/recordstore/recordstore.go:222-274 | of a touched identity min(bound, files) names survive, and whatever outranks a survivor survives |
| `RecordStore.EvictedAreSiblings` | internal/recordstore/recordstore.go:232-275 | installing one record with a positive bound evicts only other files of its own identity |
| `RecordStore.EvictedAreOldest` | internal/recordstore/recordstore.go:222-274 | what an install evicts of an identity is older than what it keeps: written earlier in the batch, or prior and modified earlier, names breaking ties; no name of the batch goes while a prior one stays |
| `RecordStore.EvictedIsTouched` | internal/recordstore/recordstore.go:262-274 | only identities the batch installs lose files |
| `RecordStore.Store.Sweep` | internal/recordstore/recordstore.go:312-350 | the newest files, as far as the looks at the context allow, are kept or removed as the refusals say, an unreadable file judged without its data; a removal that fails leaves its file and is the error; the counts are those of the walk, and the context ends it exactly when its looks run out |
| `RecordStore.SweptClean` | internal/recordstore/recordstore.go:302-311 | a sweep that went through without an error leaves exactly what it keeps, and its counts add up to the store |
| `RecordStore.StringNamesOrdered` | internal/recordstore/recordstore.go:147-156 | string names are totally ordered, and an identity digest is read back from the name built from it |
| `Retention.Cache.PruneKind` | internal/recordstore/retention.go:162-363 | on every exit, whatever failed before it: remaining is used minus reclaimed and not negative, a dry run changes nothing, and any other has reclaimed the bytes and files that went, let no ledger go that a live record left and read names, and evicted oldest first but for the stuck (records it could not list, remove or lock); undisturbed, the report and the disk are those of the shortest oldest-first prefix that meets the ceiling |
| `Retention.CarefulMeans` | internal/recordstore/retention.go:162-363 | the same on every exit, record by record: what is left is as it was; with no ceiling no live record went; a record that went is older than any left that is not stuck; above the ceiling only stuck records are left, unless the context ended |
| `Retention.FirstPass` | internal/recordstore/retention.go:176-299 | one pass over the stores counts every byte, empties the abandoned, and leaves hooks whose counts are the records naming each key |
| `Retention.SecondPass` | internal/recordstore/retention.go:315-361 | evictions go oldest first and stop at the first prefix that fits; whatever fails, each candidate passed is gone or stuck, and the books balance at every stop |
| `Retention.CountRefs` | internal/witnesscache/witnesscache.go:881-910 | on every pass not cancelled the count of each key is the number of readable records naming it; undisturbed, every record is readable |
| `Retention.SweepLedgers` | internal/witnesscache/witnesscache.go:911-949 | the ledgers no record names are reclaimed and the others remembered, with their bytes accounted once; whatever fails, only uncounted ledgers go, and their bytes are the reclaimed |
| `Retention.OnEvict` | internal/witnesscache/witnesscache.go:950-982 | giving back a record's references reclaims exactly the ledgers it alone held, and moves their bytes from live to reclaimed; whatever fails, the ledgers gone are held by no record the hook knows and their bytes are the reclaimed |
| `Retention.EvictTracks` | internal/witnesscache/witnesscache.go:950-982 | after an eviction the counts are again the unevicted records naming each key, and the live ledgers exactly those named |
| `Retention.CutReached` | internal/recordstore/retention.go:315-361 | when the loop ends, with room or without candidates, the outcome is that of the shortest prefix that fits |
| `Retention.PruneUnique` | internal/recordstore/retention.go:306-314 | a ceiling asks for one set of evictions: the order by time and path leaves no choice |
| `Retention.PruneIsLeastEviction` | internal/recordstore/retention.go:301-361 | what a pass evicts under a ceiling its bytes exceed is the least set of live records that takes with each every older one, paths breaking ties, and meets the ceiling, and nothing else is |
| `Retention.EvictedAreOlder` | internal/recordstore/retention.go:306-314 | on the disk a pass leaves, every record that went is older than every record left, or as old and first by path |
| `Retention.PreviewIsPass` | internal/recordstore/retention.go:162-363 | a preview and the pass it previews report the same |
| `Retention.SecondRunIsIdle` | internal/recordstore/retention.go:162-363 | a second pass uses what the first left, reclaims nothing and changes nothing |
| `Retention.LedgersLeftAreNamed` | internal/witnesscache/witnesscache.go:871-987 | after a pass a ledger is left exactly when a record left names it |
| `Retention.PrunedTotals` | internal/recordstore/retention.go:301-362 | the bytes the pruned disk holds are the bytes the report says are retained |
| `GlobalSplit.SplitIsProportional` | internal/prune/prune.go:211-219 | the share is the proportional quotient exactly when the product fits 64 bits |
| `GlobalSplit.SplitShares` | internal/prune/prune.go:211-219 | within that range the shares are not negative, sum to the bound, and neither is above what its store holds |
| `GlobalSplit.SharesAreCeilings` | internal/prune/prune.go:211-219 | both shares are non-negative exactly under the guard `InRange` |
| `GlobalSplit.SmallProductInRange` | internal/prune/prune.go:211-219 | a product within 64 bits passes the guard |
| `GlobalSplit.RetainedWithinBound` | internal/prune/prune.go:211-236 | under the guard, what both passes retain is within the bound in every case |
| `GlobalSplit.OverflowLiftsTheCeiling` | internal/prune/prune.go:211-236 | without the guard, for every such bound and sizes, stores of those sizes whose undisturbed passes keep more than the bound in all |
| `GlobalSplit.GuardIsExact` | internal/prune/prune.go:211-236 | the guard holds exactly when every pair of stores of those sizes ends its undisturbed passes within the bound |
| `GlobalSplit.FourGibibytesOverflow` | internal/prune/prune.go:211-236 | a 4 GiB bound over 4 GiB and 2 GiB: stores of which both passes keep everything |
| `GlobalSplit.PruneGlobalCache` | internal/prune/prune.go:191-236 | the whole verb: previews, split and passes give the outcomes of the split, within the bound under the guard; without a bound, or when both stores fit in it, both keep everything; gone through, with failures or not, it reports reclaimed the bytes that went |
| `Bundle.Compute` | internal/bundle/bundle.go:25-175 | an unknown identifier is the error; otherwise the bundle is the corpus restricted to what the request reaches over closure edges and shared-section references |
| `Bundle.BundleMeans` | internal/bundle/bundle.go:25-175 | a bundle is the corpus cut to the least nodes that hold the request and what they bring: by an edge that uses, refers to, refines or depends, or by a note or annotation of their sections |
| `Bundle.EdgesByKind` | internal/bundle/bundle.go:35-47 | what an included node uses, refers to, refines or depends on is declared in the bundle wherever the corpus declares it |
| `Bundle.SupersededIsLeft` | internal/bundle/bundle.go:35-47 | superseding brings nothing: with no other edge and no note or annotation the bundle holds the requirements asked for |
| `Bundle.Drain` | internal/bundle/bundle.go:64-81 | the queue run empty includes every node it reaches over closure edges |
| `Bundle.References` | internal/bundle/bundle.go:82-112 | the references of entered sections not yet included, none of them unreachable and none missed |
| `Bundle.ClosureIsLeast` | internal/bundle/bundle.go:59-116 | the closure holds the request, is closed, and is inside every closed set that holds the request |
| `Bundle.ClosureIdempotent` | internal/bundle/bundle.go:59-116 | asking for what is included adds nothing |
| `Bundle.ClosureDistributes` | internal/bundle/bundle.go:59-116 | the closure of a union of requests is the union of their closures |
| `Bundle.SelfContained` | internal/bundle/bundle.go:118-175 | whatever an included note, annotation or edge names is in the bundle exactly when the corpus declares it, no closure edge of an included node is missing, and over a corpus whose references are all declared every reference resolves in the bundle |
| `Bundle.BundleOfItself` | internal/bundle/bundle.go:25-175 | computed over its own output, the same request gives the bundle back whole |
| `Partitions.Forest.Find` | internal/facts/facts.go:168-174 | find returns the representative and compresses the path without changing any |
| `Partitions.Forest.Union` | internal/facts/facts.go:175-181 | a union moves one representative's elements under the other's and nothing else |
| `Partitions.Intersects` | internal/facts/facts.go:334-344 | true exactly when the sets share an element |
| `Partitions.Join` | internal/facts/facts.go:175-181 | two elements end under one representative exactly when a chain of pairwise-intersecting closures links them |
| `Partitions.Components` | internal/facts/facts.go:182-192 | the components list every position once, ascending, and two positions share one exactly when linked |
| `Partitions.Partition` | internal/facts/facts.go:149-192 | the same over the closures the bundles of the requested requirements give; an unknown requirement is refused |
| `Supersede.Graph` | internal/compile/compile.go:757-783 | the two maps hold exactly the pairs of a kept declaration and a dangling target it supersedes |
| `Supersede.Search` | internal/compile/compile.go:789-807 | the search finds exactly the connected sources and the successors declaring them |
| `Supersede.Components` | internal/compile/compile.go:784-821 | every dangling source has a component, and it is its own |
| `Supersede.SameComponent` | internal/compile/compile.go:749-755 | two sources have one component exactly when a chain of shared successors connects them |
| `TermMatcher.Names` | internal/compile/compile.go:604-616 | every term once, most bytes first, then by the order of the bytes |
| `Utf8.CharDecodes` | internal/compile/compile.go:604-616 | a character has as many bytes as its width says, and they read back as it whatever follows |
| `Utf8.LessIsByteOrder` | internal/compile/compile.go:604-616 | the order of strings by characters is the order of their bytes |
| `TermMatcher.Index` | internal/compile/compile.go:629-633 | the first match from a position on, or none |
| `TermMatcher.ClaimName` | internal/compile/compile.go:629-643 | one name's pass over one text blanks exactly the scan's claims in place |
| `TermMatcher.Match` | internal/compile/compile.go:620-652 | the sorted names that some run claims, without the block's own |
| `TermMatcher.ScanAllMatches` | internal/compile/compile.go:626-648 | the claims are disjoint occurrences whose edges are word boundaries or higher-ranked claims, and every other such occurrence overlaps a claim of higher rank |
| `TermMatcher.MatchingUnique` | internal/compile/compile.go:594-600 | only one set of claims is so |
| `TermMatcher.ClaimsAreBounded` | internal/compile/compile.go:661-676 | over compatible names every claim is on word boundaries of the original text |
| `TermMatcher.LongestMatchWins` | internal/compile/compile.go:594-652 | over compatible names the claims are the longest match of the original text (disjoint, on word boundaries, every other bounded occurrence outranked by one it overlaps), and nothing else is |
| `TermMatcher.WordEdgedNames` | internal/compile/compile.go:594-600 | names that begin and end with a word character are compatible |
| `TermMatcher.SingleNameBounded` | internal/compile/compile.go:634-641 | one name alone stays on word boundaries in every text exactly when it does not begin with a non-word and end with a word character |
| `TermMatcher.ClaimOffBoundary` | internal/compile/compile.go:634-641 | for any earlier name that ends with a word character and any later one that begins without, some text has a claim off its word boundary |
| `Applier.JudgeFine` | internal/recordapply/recordapply.go:204-219 | admission passes exactly when the paths are distinct and every one is admitted |
| `Applier.PriorHolds` | internal/recordapply/recordapply.go:271-294 | a precondition passes exactly when the update is stamped and the tree holds what its operation read, absence included; each refusal has its cause |
| `Applier.Applier.CheckAll` | internal/recordapply/recordapply.go:220-224 | passing means every precondition no other writer touched held; undisturbed, the first failing check or read is the refusal, an unstamped update refused before its read |
| `Applier.Applier.StageAll` | internal/recordapply/recordapply.go:240-250 | every write staged to a dot-temp in batch order, or the first staging that fails, with no dot-temp left but the staged ones and those whose removal failed |
| `Applier.Applier.Create` | internal/recordapply/recordapply.go:127-171 | an exclusive create lands only over an absent name, what it leaves at a name no other writer touched is what the answers say, and a failed one never removes another writer's file |
| `Applier.Applier.Unreserve` | internal/recordapply/recordapply.go:145-160 | only the applier's own reservation is removed, and a removal that fails is named |
| `Applier.UnnamedWhenUnseen` | internal/recordapply/recordapply.go:145-160 | a standing reservation goes unnamed exactly when the look at it failed |
| `Applier.Applier.CommitAll` | internal/recordapply/recordapply.go:251-259 | the commits land in order until one faults, and the tree is where exactly those take it |
| `Applier.Applier.RemoveAll` | internal/recordapply/recordapply.go:260-265 | the deletions land after every write, in order until one faults |
| `Applier.Applier.Apply` | internal/recordapply/recordapply.go:189-267 | at every path no other writer touched, exactly the prefix of writes and then of deletions the result names has landed; anything landed means the whole batch was admitted and its preconditions held; uncommitted dot-temps are discarded; undisturbed, the tree, the result and the error are the ones `Quiet` computes from the answers |
| `Applier.SuccessIsWhole` | internal/recordapply/recordapply.go:189-267 | success leaves each path of the batch as its update wanted it, every other as it was, and each update had found what its operation read |
| `Applier.FaultIsNamed` | internal/recordapply/recordapply.go:84-103 | after a fault every path the result does not name is as it was, but for an empty reservation at the path of the failed commit: named by the error, unless the look at it failed |
| `Applier.ReservationExactly` | internal/recordapply/recordapply.go:127-171 | where no other writer is, a failed commit leaves its name as it was, but for the reservation of a create that could not be identified, looked at or removed, and names it exactly when it stands and the look did not fail |
| `Applier.UnnamedExactly` | internal/recordapply/recordapply.go:127-171 | where no other writer is, a fault in landing leaves its reservation standing unnamed exactly when the write is a create that reserved the name, was not renamed, and could not look at it |
| `Applier.UnnamedIffStranded` | internal/recordapply/recordapply.go:189-267 | over every batch and every answer of the file system, an undisturbed apply leaves an unnamed reservation exactly when everything before the commits passes and the first commit that cannot land is such a create |
| `Applier.LeaveUnnamed` | internal/recordapply/recordapply.go:145-171 | one create whose rename fails, and the look after it: undisturbed, the empty file stands and the error is the rename's alone |
| `Applier.AppliedLands` | internal/recordapply/recordapply.go:189-267 | undisturbed, an apply is a step of the run model: the tree folded over what landed |
| `Applier.NoLostUpdate` | internal/recordapply/recordapply.go:189-197 | over any sequence of batches, partly landed ones included, every update that lands replaces exactly what its operation read |
| `Applier.ReadsLastWrite` | internal/recordapply/recordapply.go:189-197 | of two landings at one path with none between, the later operation read what the earlier wrote |
| `Clauses.Resolve` | internal/records/clause.go:123-146 | the clause found is one the spelling names, and a claim dangles exactly when no clause is named |
| `Clauses.SameClaimMeans` | internal/records/clause.go:123-146 | two claims at one place are one exactly when they spell their clause alike or lead to one ordinal |
| `Clauses.SpellingsDecide` | internal/records/clause.go:81-118 | spellings alone decide whether two claims that do not mix label and ordinal are one, exactly when no two labels lead to one ordinal |
| `Clauses.UniqueOrdinalsPartLabels` | internal/records/clause.go:123-146 | unique ordinals are enough |
| `Retarget.Collide` | internal/author/retarget.go:324-341 | one pair judged as full clause resolution would, the corpus read only for a mixed pair |
| `Retarget.CheckCollisions` | internal/author/retarget.go:347-374 | the walk over the post-rewrite store answers what full clause resolution would: distinct, a duplicate, or a mixed pair no corpus resolved |
| `Retarget.CheckIsExact` | internal/author/retarget.go:347-374 | over a corpus that compiles the check passes exactly when all claim identities are distinct |
| `Retarget.NoPairNoCorpus` | internal/author/retarget.go:324-341 | a corpus that does not compile changes nothing for a store without a mixed pair |
| `Retarget.RetargetBindings` | internal/author/retarget.go:280-434 | each refusal has its cause and leaves the store as it was; success means distinct identities, every replacement resolved, every matching symbol moved, a pinned shape following and an unpinned one left unpinned |
| `Retarget.DoneMeans` | internal/author/retarget.go:299-424 | a retarget that goes through moves every symbol of the backend under the old prefix, at its end or before a slash or a dot, to the new one, where it resolves; a pinned shape follows, an unpinned one stays so; nothing else changes and no two claims are one |
| `Retarget.RefusalMeans` | internal/author/retarget.go:281-404 | a refused one changes nothing, and nothing is under the prefix, or a replacement does not resolve, or two claims would be one, or only the corpus could tell two apart |
| `Retarget.StoreStaysDistinct` | internal/author/retarget.go:341-414 | after a retarget no two claims of the store are one |
| `Retarget.MoveBack` | internal/author/retarget.go:301-315 | a moved symbol matches the new prefix, and moving it back restores it |
| `Retarget.ReverseRestores` | internal/author/retarget.go:301-315 | the reverse retarget restores the symbols exactly when every symbol matching the new prefix also matched the old one |
| `Retarget.Splice` | internal/author/retarget.go:156-164 | the spans are spliced from the right, each refused when it is out of the text as spliced so far or does not read the old member there |
| `Retarget.SplicedIsReplaced` | internal/author/retarget.go:127-164 | over spans that stand apart, splicing from the right is replacing them all at once in the source, and it is refused exactly when one is out of the source or does not read the old member |
| `Consent.StepKeeps` | internal/records/pin.go:60-88 | through any event a record's pins stay those its last naming left, or those of a later text that a chain of equal forms or bytes leads to, through the texts had since in their order |
| `Consent.ConsentIsLinked` | internal/records/consent.go:75-85 | over any edits, canonical-form changes, blanket pins and named re-consents a record born pinned reads as consented only at the end of such a chain from the pins of its last naming, which is a chain from the named text when that naming left no other bytes pinned |
| `Consent.AnchoredIffLinked` | internal/author/dispose.go:95-108 | that condition is exact: just after a naming, the next consented text is always linked to the named one exactly when no other text's bytes are left pinned |
| `Consent.NamingCanKeepOldBytes` | internal/author/dispose.go:95-108 | a text whose bytes moved under one canonical form, then named, leaves the older bytes pinned |
| `Consent.ChainIsWalked` | internal/records/pin.go:60-88 | every chain through a history is walked by pinning at its texts and nowhere else |
| `Consent.HistoryDecides` | internal/records/pin.go:60-88 | for every history of texts after a naming, some placing of blanket pins among the moves leaves the record consented at its end exactly when a chain runs through it in order to its last text |
| `Consent.BlanketNeverLaunders` | internal/records/pin.go:13-20 | the blanket pin never alters a differing content pin without a matching source pin, and never makes a stale record current |
| `Consent.Pin` | internal/records/pin.go:46-158 | every record pinned in place, the changed files rewritten, and reported exactly: the requirements of records that still do not agree with their text, the content pins moved without a question, the shapes moved; refused exactly when a file holding commentary has a record to move |
| `Consent.PinMeans` | internal/records/pin.go:13-158 | the same, digest by digest: which pins become the text's, which stay |
| `Consent.PinFile` | internal/records/pin.go:89-113 | one file: its records pinned in place, changed exactly when one moves |
| `Consent.PinIdempotent` | internal/records/pin.go:46-158 | a second pin rewrites no file, names no rehash and no reshape, and asks what the first asked |
| `Consent.EditorialOver` | internal/author/dispose.go:78-162 | bindings and gaps of the requirement whose content pin differs move to its text together, nothing else changes, or the claim or file that refuses the whole is named, or nothing differed |
| `Consent.EditorialMeans` | internal/author/dispose.go:78-162 | the same, record by record, with each refusal's cause in the claim's clause and role |
| `Consent.StoresFollowLives` | internal/author/dispose.go:95-108 | what the stores' passes do to one record's pins is what the life model's events do |
| `Coverage.JudgeResult` | internal/coverage/coverage.go:457-553 | one result's branches give exactly the red facts and the grants it shows |
| `Coverage.Bucketed` | internal/coverage/coverage.go:583-653 | the bucket ladder, per clause, gives the requirement's bucket |
| `Coverage.JudgeGaps` | internal/coverage/coverage.go:663-719 | every gap's state, and per requirement the union of the current gaps' excuses, none when one has drifted |
| `Coverage.Evaluate` | internal/coverage/coverage.go:390-793 | a row for every requirement and gap, and as violations exactly the requirements whose row is red with a dangling pointer, no gap, or a class outside the excuses |
| `Coverage.LadderMeans` | internal/coverage/coverage.go:611-653 | a row is broken exactly when something of it is, stale exactly when a pin is and nothing is broken, and otherwise green exactly when nothing is owed, every clause is met, or an admitted attestation stands |
| `Coverage.BucketMeans` | internal/coverage/coverage.go:583-653 | every requirement's bucket on the inputs: exempt, broken, stale, covered, attested, partial, uncovered |
| `Coverage.PolicyMeans` | internal/coverage/coverage.go:928-971 | the policy on the inputs: which passing tests, proofs or current claims meet it for the whole and for a clause, by kind, keyword and override |
| `Coverage.GateMeans` | internal/coverage/coverage.go:721-791 | a red row passes the gate exactly when nothing of it dangles, none of its gaps was declared against other text, and its gaps list what it is: broken if something is broken, stale if a pin is stale, broken or not, uncovered if neither |
| `Coverage.BoundariesMean` | internal/coverage/coverage.go:803-809 | a row is blocked on a boundary exactly when a test of it is left out there, none on the other, nothing else of it is red, and its staleness a current gap lists |
| `Coverage.GapLifecycle` | internal/coverage/coverage.go:663-704 | a gap is resolved once its requirement is covered, a manual one once fired too, or exempt with its condition met; due when its condition is met and it is not; drifted when declared against other text |
| `Coverage.OrderIrrelevant` | internal/coverage/coverage.go:711-719 | reordering results, binding files, attestations and gaps changes no row, no violation and no gap's row |
| `Coverage.ScopeBlockedIsScopeOnly` | internal/coverage/coverage.go:739-756 | a scope-blocked row, with the scope's skips undone, is not broken, and if stale is no violation |
| `Coverage.CleanNeverHurts` | internal/coverage/coverage.go:455-653 | a clean result on a requirement not exempt turns no green row red and adds no violation |
| `Coverage.CleanClaimOnExempt` | internal/coverage/coverage.go:615-621 | a clean claim turns an exempt requirement red exactly when the manifest does not exempt its cell and the grant leaves the whole, or some clause, unmet |
| `Coverage.ExemptTurnsRed` | internal/coverage/coverage.go:611-653 | an unclaimed MAY of two clauses is exempt and passes the gate; a passing test of its first clause makes it partial and fails it |
| `Coverage.CleanMovesGapsOn` | internal/coverage/coverage.go:690-704 | a clean result moves every gap from open towards resolved or leaves it, except exactly the resolved gap of an exempt requirement, its condition met, that a clean claim on that requirement turns red |
| `Coverage.ScopedGrantStays` | internal/coverage/coverage.go:457-468 | a clause-scoped result changes the grants of no other clause and not of the whole |
| `Coverage.WholeMeetsEveryClause` | internal/coverage/coverage.go:373-384 | evidence that meets the policy for the whole meets it for every clause |
| `Coverage.SatisfiedMore` | internal/coverage/coverage.go:928-971 | more grants never unmeet the policy |
| `Progress.Reporter.EnterPhase` | internal/progress/progress.go:198-217 | a transition resets the per-invocation state and emits; a re-entry does nothing |
| `Progress.Reporter.TakeStep` | internal/progress/progress.go:225-247 | a stale count is dropped, a completing one emits, any other emits once the interval has passed |
| `Progress.Reporter.TakeNote` | internal/progress/progress.go:254-265 | a note emits once, carried by its own event |
| `Progress.Reporter.RecordPersisted` | internal/progress/progress.go:270-283 | a persisted unit is kept and noted |
| `Progress.Reporter.KeepAlive` | internal/progress/progress.go:339-349 | the current state, at most once an interval |
| `Progress.Reporter.Seal` | internal/progress/progress.go:357-397 | the first seal emits the ending, a later one answers it again |
| `Progress.EventsAreBounded` | internal/progress/progress.go:225-247 | the events of any run are at most its milestones, one per elapsed interval, and one |
| `Progress.EmittedExactly` | internal/progress/progress.go:198-397 | over any calls before the seal: entering a phase, completing an invocation, a note, a persisted unit and the ending always emit, saying so; a step short of its total and a keepalive exactly after the interval; a re-entered phase, an overtaken step and an empty note never |
| `Progress.CountsRise` | internal/progress/progress.go:219-224 | the counts emitted for an invocation within a phase rise strictly |
| `Progress.TerminalIsLast` | internal/progress/progress.go:351-372 | a run sealed with a concrete cause has exactly one terminal event, its last, carrying what persisted |
| `Progress.SealedIsSilent` | internal/progress/progress.go:351-372 | after the seal nothing changes |
| `Progress.KeptIsPersisted` | internal/progress/progress.go:267-283 | what the terminal event lists is what the persisted notes named, in order |
| `ProgressSink.RunKeepsGood` | internal/progress/progress.go:603-639 | in every interleaving of reporter and sender the delivered and pending events are a subsequence of the emitted, the terminal event last |
| `ProgressSink.ConsumerSeesSubsequence` | internal/progress/progress.go:603-639 | the consumer sees a subsequence of the events |
| `ProgressSink.TerminalIsDelivered` | internal/progress/progress.go:592-602 | an emitted terminal event is never dropped, and once the sender has ended it is the last delivered |
| `ProgressSink.SenderFinishes` | internal/progress/progress.go:606-626 | the sender is never stuck before the end and has at most the buffer and two steps to it |
| `ProgressSink.ReporterIsNeverHeld` | internal/progress/progress.go:603-639 | reporter and sink together, in every interleaving: the reporter is where its own calls take it whatever the consumer does, and the sink was handed exactly its log |
| `ProgressSink.EndingIsSeen` | internal/progress/progress.go:592-639 | the consumer of a reporter sees a subsequence of its events; once the reporter is sealed with a cause its terminal event is kept until it is delivered, last of all |
| `ProgressSink.SealIsNeeded` | internal/progress/progress.go:592-602 | without the reporter's seal a second terminal event would be lost |
| `Ordering.Sort` | internal/recordstore/recordstore.go:207-212 | an ascending list of the same elements, which the order alone decides |

## Left out

- Files, locks, clocks, codecs and symlinks are abstract: a store is a map from names to files, the lock one holder, time a non-decreasing number, a digest injective. JSON and prototext encodings, the envelope and fingerprint checks and the gofresh library are not part of this model; admission is a fact of the record.
- Installs between the two lock windows of a retention pass are not interleaved with it: its reference counts are taken in one window and spent in another, and the pass is proved as one. Busy stores, unreadable files and failing removals are nondeterministic; what is then claimed is what every exit promises, which leaves out how many entries were skipped and stores busy, and that a context that has ended stops the pass.
- Retention.Cache.PruneKind: byte sums are unbounded integers, since the stores of one machine are far below 64 bits; the one product that is not is in GlobalSplit. The memo store's own cleanup, which a library performs, is not part of this model.
- Retention hooks are a list in step with the stores rather than a slice indexed by live store, and the fallback measure of a busy store counts its bytes without listing them.
- WitnessProtocol: the victims an install evicts are any set of its identity's other records, which covers the ranked choice `RecordStore.EvictedAreSiblings` describes.
- RecordStore.Store.Install: directory creation, the temporary file beside each write and the write-once store coordinate are not modelled.
- Bundle.Compute: requirements and terms of the output are maps, so their sorted order is not modelled; the edges, notes and annotations follow the corpus, as in the program. An included identifier the corpus does not declare is dropped, where the program appends a nil requirement (internal/bundle/bundle.go:118-121). An edge end the corpus does not declare enters no section of its own beyond the absent location's; the markdown rendering is left out.
- Partitions.Partition: identifiers are taken in the order given, where the program sorts them first; the seeds, packages and overlaps of a component are left out.
- TermMatcher.Match: texts and names are lower-cased Unicode text, and the word test is a parameter; segments, detection runs and case folding are left out. A name that holds the blanking character can be confused with claimed text, so the claims are characterised for names that do not.
- Supersede.Components: the order in which sources and successors are listed is not modelled.
- Applier.Applier.Apply: directories made for a write, a writer that changes a file in place rather than replacing it, and a writer between the look at a reservation and its removal are not modelled; admission is a predicate of the path and its document mark.
- Retarget.Splice: that a requirement's source occurs exactly once in its document, the grouping of rewrites by document and the re-consent over the rewritten corpus are left out.
- Retarget.RetargetBindings: identities are tuples, where the program joins their fields with a bar; rows, updates and rendering are left out.
- Consent.Pin: a record's file is its path, its records and whether commentary stands outside its header; rendering is left out.
- Consent.EditorialOver: the consent lines naming each claim are left out, and after a refusal the in-memory records are unspecified, as the program discards them.
- Coverage.Evaluate: reason texts, remedies, hints, classification verdicts and the list of dangling pointers are left out; requirement identifiers are unique, which the compiler enforces. Counters that are only compared with zero are facts.
- Progress.EventsAreBounded: an interval of zero or less has no bound to give, so the interval is positive; resident-set readings, timings and rendered lines are left out.
- Compilation, parsing, views, guidance, the command line and the server faces are left out as plumbing or presentation.
