# Buncker: a model of the air-gapped delta-sync cycle

Buncker keeps an offline registry supplied across an air gap. The offline side works out which blobs its
Dockerfiles and Compose files need and do not have, writes a signed and encrypted request, and later imports a
signed and encrypted response. The online side reads the request, downloads blobs into a content-addressed cache,
adds the images' manifests and whatever those need, and packs the response. This project models that cycle as one
system, together with the smaller machines around it, and proves what they promise.

One module per component:

- `Dockerfile`, `Substitution`, `ImageRefs`: the front end that turns a Dockerfile into pinned images.
- `Resolver`, `Analysis`: from images and services to present and missing blobs.
- `Requests`, `OnlineFetch`, `Fetching`, `Transfer`: the request, the online run, the response, the import.
- `Stores`, `ManifestCaches`, `Manifests`: the offline blob store with its garbage collection, and the manifest
  cache with the pull endpoint.
- `DeltaCycle`: one whole turn of the cycle over all of the above, and its two main results: nothing requested
  is silently lost, and a turn without errors (exactly when that is, is proved too) closes the delta.
- `AnalysisSlot`, `Uploads`, `RateLimits`: the server's state machines.
- `Crypto`, `Mnemonic`: the envelope of the transfer files and the bit packing of the sixteen words.
- `Prelude`, `Strings`: shared vocabulary.

Objects that the source updates in place are classes (`Store`, `ManifestCache`, `Cache`, `Fetcher`,
`AnalysisResult`, `Server`, `UploadDirectory`, `RateLimiter`), and loops are loops. Each method is tied by its
postcondition to a function on values, and the lemmas are about those functions. Directory scans visit files in any
order, downloads finish in any order, and the network answers anything.

Assumptions, each written as a predicate that the lemmas require: hashes are injective and hexadecimal
(`Crypto.GoodHash`); decryption undoes encryption under the same key and HMACs are printable
(`Crypto.GoodPrimitives`); JSON and tar reading undo writing (`Transfer.GoodCodec`); the digest under which a
manifest is served tells manifests apart (`ManifestCaches.GoodDigest`); the word list has 2048 distinct words
without white space (`Mnemonic.IsWordList`). Python's Unicode tables (word characters, white space, case mapping)
are parameters.

## What turned out to need a condition

Where the code does not do what one would like for all inputs, the exact condition is proved:

- A reference is stable under resolving if and only if it has a digest, a non-empty tag, or no tag and a name that does
  not end in `@sha256` (`ImageRefs.ResolvingIsIdempotentIff`).
- A blob is listed twice if and only if some manifest repeats a digest that is missing and was not needed by an earlier
  manifest (`Resolver.NothingListedTwiceIff`); in a Compose analysis only a service's own image can do so
  (`Analysis.ComposeListsNothingTwiceIff`).
- The limiter decides rightly under all limits if and only if no client's clock values go back in lock order
  (`RateLimits.OrderIsExactlyWhatIsNeeded`); otherwise the bound itself can fail (`RateLimits.LateReadBreaksBound`).
- The impact report covers a manifest if and only if its digests without the `sha256:` prefix also appear with it
  (`Stores.ImpactIsCompleteIff`).
- A shipped manifest is cached where it is looked up if and only if its path has three directories and its platform
  does not contain `.json` (`ManifestCaches.PathRoundTripIff`).
- Every external image is requested if and only if images with the same registry, repository and tag agree on the
  platform (`Requests.EveryImageIsRequestedIff`).
- An image pinned by digest is asked for under the tag `None`. It is found after an import if and only if a file that
  the import left alone, or a manifest that landed, happens to have its digest (`DeltaCycle.DigestPinnedIsFoundIff`);
  an import can lose it (`DeltaCycle.ImportCanLosePinned`).
- A listed digest fails to be covered if and only if its file was there before with other content and no error names
  it, since a present file is never rewritten (`DeltaCycle.CycleCovers`).
- Every analysis id is answered at most once if and only if calls for one id do not overlap
  (`AnalysisSlot.OnceIffNoOverlap`); a finishing call wipes another analysis if and only if one was recorded since its
  capture and not cleared away already (`AnalysisSlot.WipesIff`).
- Collection spares every recently used blob if and only if none of the digests it goes through was used since the
  report (`Stores.FreshSurviveIff`, `Stores.RunSparesUsedIff`). It can stop half way; then exactly the reported prefix
  is gone (`Stores.Store.GcExecute`).
- `FROM scratch AS x` records no image, so the alias `x` is lost (`Dockerfile.FromLineReadsBack`).

## Model

| member | source | states |
|---|---|---|
| `DeltaCycle.Exchange` | buncker_fetch/__main__.py:225-381 | Request, fetch, response and import for one analysis, over stores and caches in any state: nothing is requested exactly when nothing is missing and no image is external; no response is written exactly when some download meets an unexpected exception; otherwise exactly the requested blobs, the answered manifests and the blobs they add are exchanged, every listed digest is settled, and the import has no errors exactly when the run was flawless. An exchange that does not complete leaves store and manifest cache as they were |
| `DeltaCycle.RunCycle` | buncker/resolver.py:236-287 | A whole turn for a Dockerfile: it stops in the analysis exactly for a parser error or a malformed manifest and is otherwise the exchange of what the analysis found missing; after an import without errors the same images miss nothing and the size is 0 |
| `DeltaCycle.RunComposeCycle` | buncker/resolver.py:51-135 | The same for the services of a Compose file |
| `DeltaCycle.NoErrorsIff` | buncker_fetch/__main__.py:278-343 | The import has no errors exactly when every download of both passes brings its blob, every listed digest is a file of the online cache, and the store can keep all of them |
| `DeltaCycle.CycleCovers` | buncker/transfer.py:157-228 | Whatever state the store was in, each listed digest is covered (stored with matching content, or named by an error) exactly unless its file was there before with other content and no error names it |
| `DeltaCycle.ManifestsAreCovered` | buncker_fetch/__main__.py:297-343 | The same for every non-empty config and layer digest of every shipped manifest |
| `DeltaCycle.ErrorFreeCycleCloses` | buncker/resolver.py:166-287 | After an error-free import the re-analysis lists nothing missing with size 0, also when cached manifests were replaced by newer ones |
| `DeltaCycle.ErrorFreeComposeCycleCloses` | buncker/resolver.py:51-135 | The same for a Compose analysis |
| `DeltaCycle.ServiceDigestsAfterImport` | buncker/resolver.py:84-119 | What a Compose service needs after an import it needed before, or a shipped manifest needs it |
| `DeltaCycle.LookAfterImport` | buncker/transfer.py:278-309 | The manifest found for an image after an import is the one found before or one of those shipped |
| `DeltaCycle.AllDigestsAfterImport` | buncker/resolver.py:194-211 | What the images need after an import they needed before, or a shipped manifest needs it |
| `DeltaCycle.ShippedIsFound` | buncker/registry_client.py:75-108 | A shipped manifest is found again under its registry, repository, tag and original platform string |
| `DeltaCycle.RequestedImageIsFound` | buncker/handler.py:692-709 | An image with a tag, resolved for the platform it is requested for, is found after the import with exactly the manifest the registry answered, among any number of plainly named images |
| `DeltaCycle.AnswersAreFound` | buncker/transfer.py:173-223 | So for every answered image of a run; and when the import has no errors the store has all digests of those manifests |
| `DeltaCycle.PathTellsName` | buncker/transfer.py:287-304 | Manifests whose registry, repository and tag are plain path components go to different paths |
| `DeltaCycle.DigestPinnedIsNotShipped` | buncker_fetch/__main__.py:408-428 | An image pinned by digest is asked for exactly as if its tag were `None`, so nothing is shipped for it unless the registry has that tag |
| `DeltaCycle.DigestPinnedIsFoundIff` | buncker/registry_client.py:171-182 | After an import it is found exactly when a file that no member of the response is written over has that served digest, or a manifest that landed has it |
| `DeltaCycle.ImportCanLosePinned` | buncker/registry_client.py:62-73 | When a cached tag has moved upstream, the import that replaces its file loses an image pinned to the old manifest; the analysis then misses nothing because it looks at nothing |
| `Transfer.RequestArrives` | buncker_fetch/transfer.py:45-86 | The online side reads exactly the request the offline side wrote, under shared keys |
| `Transfer.BuildResponse` | buncker_fetch/transfer.py:115-182 | The response wraps the archive of cached blobs, all errors including those for uncached blobs, and the manifests |
| `Transfer.PackedBlobs` | buncker_fetch/transfer.py:119-134 | The archive holds exactly the listed blobs that are cached, with their cached bytes; each of the others has an error |
| `Transfer.PackedManifests` | buncker_fetch/transfer.py:155-166 | Every shipped manifest has a file in the archive, and every manifest file comes from a shipped one with that path |
| `Transfer.ImportBlobs` | buncker/transfer.py:173-223 | In any order of files: exactly the blobs with matching hash and no storage failure are added with that content, nothing present changes, counters add up to the files, and the error list is the shipped one followed by exactly one error, with its cause, per rejected file |
| `Transfer.ImportGoesOn` | buncker/transfer.py:184-223 | One file of that loop: accepted files are stored and counted, all others reported, the store's invariants survive |
| `Transfer.NoRejectionIff` | buncker/transfer.py:184-223 | An import ends without errors exactly when none were shipped and every file has the right hash and can be stored |
| `Transfer.CacheManifestsFromResponse` | buncker/transfer.py:278-309 | Every file with a usable path lands at its cache path or shares it with another that did; all other cached files are unchanged; recorded digests stay right |
| `Transfer.CachingGoesOn` | buncker/transfer.py:287-304 | One file of that loop keeps it |
| `Transfer.ImportResponse` | buncker/transfer.py:101-252 | On any error, named by kind, nothing has changed; otherwise blobs and manifests of exactly the unwrapped archive were imported |
| `Crypto.LastNewlineIs` | buncker/transfer.py:112-120 | Cutting at the last newline finds the end of the payload, whatever bytes it holds |
| `Crypto.UnwrapIff` | shared/crypto.py:158-207 | A file opens to a payload exactly when its plaintext is the payload, a newline and the payload's signature |
| `Crypto.WrapUnwraps` | shared/crypto.py:142-192 | Signing and encrypting is undone for every payload and nonce under shared keys |
| `OnlineFetch.CmdFetch` | buncker_fetch/__main__.py:225-343 | No response exactly when nothing is requested or a download meets an unexpected exception; otherwise the list is the requested blobs and then the extra ones, the manifests are those answered, the errors are those of the failed downloads of both passes, and the cache ends with exactly the names that were there or were brought; every shipped manifest's digests are listed |
| `OnlineFetch.AddToGroupKeeps` | buncker_fetch/__main__.py:267-271 | Adding a blob keeps one group per registry with only its own blobs, and loses or repeats none |
| `OnlineFetch.GroupByRegistry` | buncker_fetch/__main__.py:267-271 | The groups, in order of first appearance, hold exactly the given blobs as a multiset, each in the group of its registry |
| `OnlineFetch.FetchAll` | buncker_fetch/__main__.py:278-295 | It ends early exactly when a worker of some group meets an unexpected exception; otherwise downloads, skips and errors are those of the groups one after the other, each seeing what the earlier ones brought, and every digest ends in exactly one list |
| `OnlineFetch.PassFetchesIff` | buncker_fetch/__main__.py:278-295 | Without an exception a pass has no errors exactly when every submitted download brings its blob |
| `OnlineFetch.ConservedIsAccounted` | buncker_fetch/__main__.py:293-295 | From that conservation: every listed blob is in the cache directory or its digest is in the error list |
| `OnlineFetch.ShipsTheFirstMatch` | buncker_fetch/__main__.py:433-467 | From an index the shipped manifest is the one named by the first entry for exactly this platform that is no attestation; without such an entry nothing is shipped |
| `OnlineFetch.ShipKeepsName` | buncker_fetch/__main__.py:495-508 | A shipped manifest carries the names it was asked by and its platform in file form; one that is no index is shipped as it came |
| `OnlineFetch.ShippedWhenAnswered` | buncker_fetch/__main__.py:408-516 | What is found for one requested image is shipped whatever happens to the others |
| `OnlineFetch.ShippedForSome` | buncker_fetch/__main__.py:495-508 | And everything shipped is shipped for some requested image |
| `OnlineFetch.FetchManifests` | buncker_fetch/__main__.py:384-518 | The loop over images and index entries ships, image by image, what the specification says |
| `OnlineFetch.NeededIsShipped` | buncker_fetch/__main__.py:307 | Looking at layers and then config sees the same digests as the resolver's config and then layers |
| `OnlineFetch.ManifestBlobs` | buncker_fetch/__main__.py:300-319 | The extra blobs are those of the shipped manifests in order, distinct, not requested, and cover every non-empty digest of every shipped manifest |
| `Fetching.FetchedIff` | buncker_fetch/fetcher.py:119-130 | A worker brings data exactly when one of at most three attempts gives it with the right hash and every attempt before that gave data with a wrong one |
| `Fetching.GivesUpAfterAll` | buncker_fetch/fetcher.py:132-144 | Three mismatches end in the mismatch error; a worker raises anything else only when an attempt did |
| `Fetching.Cache.StoreBlob` | buncker_fetch/cache.py:68-111 | Matching data is stored once; mismatching data never; the cache stays content-addressed |
| `Fetching.Cache.CacheClean` | buncker_fetch/cache.py:113-140 | Exactly the blobs older than the cut-off are gone; their number and bytes are reported, and bytes before equal bytes after plus bytes freed |
| `Fetching.CacheGrows` | buncker_fetch/fetcher.py:125-130 | A completing worker changes no cached blob, and adds at most its own verified one |
| `Fetching.FetchGoesOn` | buncker_fetch/fetcher.py:90-105 | The completion of any pending worker keeps the balance of downloaded, failed and pending digests, of downloads and errors with their workers' outcomes, and of the names in the cache |
| `Fetching.Fetcher.FetchOne` | buncker_fetch/fetcher.py:114-144 | The retry loop ends as specified and stores only what matched |
| `Fetching.Fetcher.Partition` | buncker_fetch/fetcher.py:67-80 | Skipped and submitted digests add up to the input, duplicates included; skipped ones are in the cache directory |
| `Fetching.Fetcher.Fetch` | buncker_fetch/fetcher.py:54-112 | For every completion order: the call raises exactly when some worker meets an unexpected exception; skipped are exactly the digests found at the start, in order; downloaded are, as a multiset, the digests of the workers that bring their blob, and errors those of the workers that fail, with their messages; the cache gains exactly those names; the three lists add up to the input |
| `Requests.KeysOnce` | buncker/handler.py:692-709 | The request names the key of every external image exactly once, and nothing else |
| `Requests.EarliestIsKept` | buncker/handler.py:694-700 | Of several images with one key the earliest is requested |
| `Requests.EveryImageIsRequestedIff` | buncker/handler.py:697-707 | Every external image is requested for its platform exactly when images that share a key ask for the same |
| `Requests.CollectImages` | buncker/handler.py:692-709 | The loop with its set of keys builds that list |
| `Resolver.AnyAnswerIsLook` | buncker/registry_client.py:171-182 | Whichever matching file a look-up by digest meets first, the content is the same |
| `Resolver.AnalysisAccounts` | buncker/resolver.py:166-233 | An analysis accounts for exactly the union of config and layer digests of all found manifests of external, non-private images |
| `Resolver.PresentAndMissingPartition` | buncker/resolver.py:207-233 | Present and missing are disjoint, together are that union, and the size is the sum over the listed entries |
| `Resolver.NothingMissingIff` | buncker/resolver.py:216-233 | Nothing is missing, and the size is 0, exactly when the store has every needed digest |
| `Resolver.MalformedIff` | buncker/resolver.py:332-339 | An analysis fails exactly when the manifest found for some external image has a descriptor without digest |
| `Resolver.DescribedByFirst` | buncker/resolver.py:342-349 | Size and media type of a missing blob come from the first descriptor, config before layers, that names its digest |
| `Resolver.NothingListedTwiceIff` | buncker/resolver.py:212-213 | A blob is listed twice exactly when some manifest repeats a missing digest that no earlier manifest needs |
| `Resolver.DistinctDigestsNoRepeats` | buncker/resolver.py:212-213 | Distinct digests per manifest are enough for a list without repetitions |
| `Resolver.RepeatedLayerCountsTwice` | buncker/resolver.py:220-233 | A concrete manifest whose repeated layer is listed and counted twice |
| `Analysis.AnalysisResult.ResolveImageBlobs` | buncker/resolver.py:166-233 | One image: skipping, warnings, look-up and filtering give the specified totals, or fail on a malformed manifest |
| `Analysis.AnalysisResult.AppendMissing` | buncker/resolver.py:220-233 | The loop over missing digests appends one entry each, with size and media type from its descriptor, and adds the sizes |
| `Analysis.AnalysisResult.MergeBlobs` | buncker/resolver.py:121-126 | Merging a sub-analysis appends exactly the blobs whose digest was not seen |
| `Analysis.ResolveImages` | buncker/resolver.py:276-285 | The loop over images gives the specified totals, or fails exactly when they do |
| `Analysis.ResolveDockerfile` | buncker/resolver.py:236-287 | Parsing errors, malformed manifests and results come out as specified |
| `Analysis.ResolveCompose` | buncker/resolver.py:51-135 | The loop over services gives the specified aggregate |
| `Analysis.ComposeAccounts` | buncker/resolver.py:84-133 | A Compose analysis accounts for exactly the union of what its services need |
| `Analysis.ComposeMissesTheUnion` | buncker/resolver.py:51-135 | It misses exactly the union of what each service misses when analysed alone |
| `Analysis.ComposeListsNothingTwiceIff` | buncker/resolver.py:84-128 | A Compose analysis lists a blob twice exactly when some service's own image repeats a missing digest that no earlier service needs |
| `Dockerfile.JoinCutsIntoBlocks` | buncker/resolver.py:418-431 | Every physical line is consumed once, in order; each joined line is its block glued whole, goes on while it ends in a backslash and stops when it does not |
| `Dockerfile.CutIsDetermined` | buncker/resolver.py:418-431 | That description fits one list only |
| `Dockerfile.JoinContinuations` | buncker/resolver.py:418-431 | The two nested loops terminate with that list |
| `Dockerfile.InternalIffEarlierAlias` | buncker/resolver.py:384-415 | An image is internal exactly when its lowered text is an alias of an earlier recorded FROM; line numbers increase |
| `Dockerfile.ImagesArePinned` | buncker/resolver.py:585-622 | Every image has a tag or a non-empty digest |
| `Dockerfile.ParseDockerfile` | buncker/resolver.py:352-415 | The parser's loop gives the specified images or the first error |
| `Dockerfile.FromLineReadsBack` | buncker/resolver.py:451-522 | A FROM line with platform, reference and alias is read back field by field, for every environment; `scratch` is dropped with its alias |
| `Dockerfile.ArgLineReadsBack` | buncker/resolver.py:434-448 | An ARG line, bare or quoted, defines its value unless a build argument overrides it, and changes nothing else |
| `Substitution.ScanPrints` | buncker/resolver.py:525-582 | Every text is the print of the template read from it |
| `Substitution.SubstituteIsEvalOfScan` | buncker/resolver.py:525-582 | Substitution is: read once as a template, then evaluate; inserted values are not rescanned |
| `Substitution.EvalFailsIff` | buncker/resolver.py:556-573 | Evaluation fails exactly for an undefined or valueless plain reference, and reports the leftmost one |
| `Substitution.SubstituteFailsIff` | buncker/resolver.py:539-573 | The same for the text of a FROM line |
| `Substitution.SubstitutePrintIsEval` | buncker/resolver.py:525-582 | Printing a template and scanning it equals evaluating it directly, for every environment |
| `ImageRefs.ExactlyOnePin` | buncker/resolver.py:585-622 | A parsed reference has a tag exactly when it has no digest, and a digest is never empty |
| `ImageRefs.NormalizeIdempotent` | buncker/resolver.py:625-639 | Normalising a normalised name changes nothing |
| `ImageRefs.ResolvingIsIdempotentIff` | buncker/resolver.py:585-665 | Parsing the printed form of a parsed reference gives it back exactly for the canonical references |
| `ImageRefs.EmptyTagFails` | buncker/resolver.py:653-665 | A reference with an empty tag is not given back |
| `ImageRefs.BareSha256Fails` | buncker/resolver.py:593-604 | Nor is an untagged name ending in `@sha256` |
| `ImageRefs.PullReachesResolverKey` | buncker/handler.py:1395-1409 | A pull of a reference's name, short or full, is split into the registry and repository under which it was resolved |
| `ImageRefs.RepositoryPullReachesKeyIff` | buncker/handler.py:1395-1409 | Naming the repository alone does so exactly for Docker Hub repositories with a namespace that does not look like a registry |
| `ManifestCaches.StemRecoveredIff` | buncker/transfer.py:296 | Removing `.json` gives the file stem back exactly when the stem does not contain it |
| `ManifestCaches.PathRoundTripIff` | buncker/transfer.py:287-304 | A shipped manifest is cached at the path of its look-up, for repositories of any depth, exactly under the stated condition |
| `ManifestCaches.EncodingKeepsJson` | buncker/registry_client.py:46-49 | Replacing separators in a platform neither makes nor breaks a `.json` |
| `ManifestCaches.LabelsReadBackIff` | buncker/store.py:263-274 | The impact report names an image as it was cached, and its platform exactly when that has no `-` and no `.json` |
| `ManifestCaches.ManifestCache.CacheManifest` | buncker/registry_client.py:26-73 | One file is replaced, with its served digest computed afresh; every file keeps carrying the digest of its content |
| `ManifestCaches.ManifestCache.GetManifest` | buncker/registry_client.py:75-108 | By tag the file at the path; by digest some file with that digest, or none when there is none |
| `ManifestCaches.ManifestCache.LookupByDigest` | buncker/registry_client.py:171-182 | The scan finds a file with the digest if there is one |
| `ManifestCaches.ManifestCache.IsStale` | buncker/registry_client.py:110-141 | Answers for the manifest found, or not at all |
| `ManifestCaches.ManifestCache.CountStale` | buncker/registry_client.py:143-169 | Counts exactly the stale files |
| `ManifestCaches.HandleManifest` | buncker/handler.py:362-394 | The digest header is that of the body sent; by digest it succeeds exactly when some cached manifest has that digest and answers with it; by tag the first cached platform is served |
| `ManifestCaches.PullByTagThenDigest` | buncker/handler.py:1271-1290 | Pulling by tag and then by the digest received gives the same manifest |
| `Stores.RunsAreContentAddressed` | buncker/store.py:51-110 | In every state reachable without rot blobs hash to their names, sidecars match blobs with right sizes, image references are unique |
| `Stores.CorruptedIffRotted` | buncker/store.py:374-411 | With rot anywhere in a run, what verification finds is exactly the blobs whose bytes differ from the run without it |
| `Stores.SidecarsRecordLastUse` | buncker/store.py:417-447 | Over every run a sidecar records the last import or pull of its blob |
| `Stores.ReportListsTheUnused` | buncker/store.py:184-221 | After any run, rot included, a collection report lists exactly the stored blobs last used before the cut-off |
| `Stores.ImpactIsCompleteIff` | buncker/store.py:223-298 | An unlisted manifest keeps exactly its present blobs through every collection, complete or not, under exactly the stated condition |
| `Stores.UnreportedImagesStayUsable` | buncker/store.py:223-368 | For the whole store: a readable manifest left out of the report stays as usable as it was |
| `Stores.OnlyReportedAreDeleted` | buncker/store.py:337-352 | Only blobs of the latest report are deleted, never past the first unreported digest |
| `Stores.PulledSinceReportIsDeleted` | buncker/store.py:337-352 | A stored blob that is pulled between report and collection has a fresh sidecar and is deleted all the same, and nothing else is |
| `Stores.FreshSurviveIff` | buncker/store.py:337-352 | Collection spares every blob used at or after the cut-off exactly when no digest it goes through names such a blob |
| `Stores.RunSparesUsedIff` | buncker/store.py:184-368 | Over runs: a report, further imports, pulls and collections, then a collection: every blob used at or after the cut-off is spared exactly when no stored blob it goes through was last used at or after the cut-off since the report |
| `Stores.TotalWithout` | buncker/store.py:345-356 | Removing a blob lowers the total by its length |
| `Stores.Store.ImportBlob` | buncker/store.py:51-110 | A mismatch changes nothing; a match adds an absent blob and refreshes the sidecar; a present file is left as it is |
| `Stores.Store.WriteSidecar` | buncker/store.py:417-447 | The sidecar is created or updated as specified, no other changes |
| `Stores.Store.UpdateMetadata` | buncker/store.py:138-161 | A pull refreshes its sidecar, or fails without one |
| `Stores.Store.ListMissing` | buncker/store.py:130-132 | The absent digests in order, repetitions kept |
| `Stores.Store.GcReport` | buncker/store.py:184-221 | One candidate per stale sidecar and no other; what is remembered for collection is what the caller is shown |
| `Stores.Store.GcExecute` | buncker/store.py:300-368 | Exactly the reported prefix is deleted; success exactly when all digests are reported; then count is their number and bytes before equal bytes after plus bytes freed; otherwise the error names the first unreported digest |
| `Stores.Store.GcImpactReport` | buncker/store.py:223-298 | One entry for each readable manifest that needs a given digest, no other, with its labels, digests and sizes |
| `Stores.Store.SizeOf` | buncker/store.py:276-283 | The sum of the recorded sizes |
| `Stores.Store.Verify` | buncker/store.py:374-411 | The visible blobs are counted; corrupted ones are exactly those whose hash is not their name, once each; total is ok plus corrupted |
| `AnalysisSlot.RunsAreSound` | buncker/handler.py:674-788 | Under every interleaving an emitted request carries exactly the missing blobs and images of an analysis with the id asked for |
| `AnalysisSlot.EmissionsAreExact` | buncker/handler.py:674-690 | With distinct ids it is the analysis that was asked for |
| `AnalysisSlot.WholeIsItsSteps` | buncker/handler.py:658-788 | An uninterrupted call is its atomic steps: a refused call emits nothing and leaves the slot, a successful one clears it |
| `AnalysisSlot.SerialRunsConsumeOnce` | buncker/handler.py:787-788 | In uninterrupted runs every analysis id is consumed at most once, and the one in the slot not yet |
| `AnalysisSlot.OnceIffNoOverlap` | buncker/handler.py:674-788 | In every interleaved run with distinct ids that ends with no call under way, each id is answered at most once exactly when no call captures an answerable analysis while another call for it is between its sections |
| `AnalysisSlot.DueAfter` | buncker/handler.py:674-788 | Answers sent and answers bound to be sent for an id grow exactly when a call captures it |
| `AnalysisSlot.WipesIff` | buncker/handler.py:786-788 | A finishing call discards an analysis other than the one it captured exactly when one was recorded since its capture and not cleared away by another call |
| `AnalysisSlot.RecordedAndClearedIsNotWiped` | buncker/handler.py:786-788 | That an analysis was recorded in between is not enough for that |
| `AnalysisSlot.BothCallsCanSucceed` | buncker/handler.py:674-690 | Two interleaved calls for one id can both succeed |
| `AnalysisSlot.ClearWipesNewerAnalysis` | buncker/handler.py:786-788 | A finishing call wipes a newer analysis that nothing was emitted for |
| `AnalysisSlot.Server.FinishAnalyze` | buncker/handler.py:527-529 | The uninterrupted slot write is the recording step of the history; with a new id it keeps the promise that every id is consumed at most once |
| `AnalysisSlot.Server.GenerateManifest` | buncker/handler.py:658-788 | The refusals in order and the answer of the captured analysis; run without interruption it is the three atomic steps of the history, emits its answer once, clears the slot on success only, and keeps ids consumed at most once |
| `Uploads.StepKeepsPrefix` | buncker/handler.py:924-965 | A slice of a payload at the claimed offset keeps the file a prefix of it; what is imported matches the header |
| `Uploads.RunsKeepPrefix` | buncker/handler.py:924-965 | Over every sequence of interrupted and resumed requests the file is a prefix of the payload |
| `Uploads.ImportsOnlyThePayload` | buncker/handler.py:958-973 | After any run, what is imported is the payload its header names |
| `Uploads.ImportsIffComplete` | buncker/handler.py:929-985 | A request is imported exactly when its offset fits, its loop ends and it brings the rest |
| `Uploads.FileAfterRequest` | buncker/handler.py:967-1006 | A request whose write loop ends leaves no partial file whatever the checksum says; one refused before writing leaves the file as it was; other uploads are never touched |
| `Uploads.UploadDirectory.HandlePut` | buncker/handler.py:869-1006 | Checks, chunked copy, verification and removal leave the specified file and answer |
| `RateLimits.LastCallRight` | buncker/server.py:36-49 | When the caller's own clock values are in order its deque is sorted and holds exactly its allowed hits of the window, and the decision is right |
| `RateLimits.OrderedRunDecidesByHistory` | buncker/server.py:36-49 | When each client's clock values are in order, every decision equals: fewer than the maximum of earlier allowed hits of this client in the window, over the full history |
| `RateLimits.WindowBound` | buncker/server.py:36-49 | A client whose own clock values are in order has for every instant at most the maximum of allowed hits in the window before it, whatever other clients read |
| `RateLimits.ClientsAreIndependent` | buncker/server.py:40-42 | A client's deque and allowed hits depend on its own calls only |
| `RateLimits.RunSplitsByClient` | buncker/server.py:40-49 | The dictionary of deques is one independent limiter per client |
| `RateLimits.LateReadIsRefusedWrongly` | buncker/server.py:38-39 | The first call of a client with a clock value older than its previous one is wrongly refused under some limit |
| `RateLimits.LateReadBreaksBound` | buncker/server.py:38-47 | A late read also breaks the bound: two a minute, and three allowed within one minute |
| `RateLimits.OrderIsExactlyWhatIsNeeded` | buncker/server.py:38-49 | For every run of calls: each client's clock values are in order exactly when every limit decides rightly throughout |
| `RateLimits.RateLimiter.IsAllowed` | buncker/server.py:25-49 | Evicting, comparing and recording follow the run, and the answer is right while this client's clock has not gone back |
| `Mnemonic.FoldOfDigits` | shared/crypto.py:53-69 | Splitting into n 11-bit digits and folding back keeps exactly the low 11n bits |
| `Mnemonic.DigitsOfFold` | shared/crypto.py:107-109 | Folding digits fits in 11n bits and splitting gives them back |
| `Mnemonic.SaltFits` | shared/crypto.py:107-111 | Four digits fit into six bytes |
| `Mnemonic.SplitMnemonic` | shared/crypto.py:72-114 | Errors by word count and unknown word, or the secret words and the hash of the six salt bytes |
| `Mnemonic.SplitRecovers` | shared/crypto.py:32-114 | Splitting a generated mnemonic returns its first twelve words and the hash of the low 44 bits of the salt |
| `Mnemonic.SecretDetermined` | shared/crypto.py:53-62 | The twelve indices are below 2048 and fold back to entropy times 16 plus the checksum nibble |
| `Mnemonic.EqualMnemonicsEqualEntropies` | shared/crypto.py:32-50 | Distinct entropies give distinct mnemonics, whatever the salts |

## Left out

- HTTP, TLS, header and JSON error formats, logging, command-line output and prompts: input and output without a hard property.
- Tokens, roles, symbolic-link and permission checks, safety of archive members: each is settled by one branch.
- The insides of SHA-256, AES-GCM, HMAC and PBKDF2: functions with stated properties; the length of hash names is not fixed except where the source checks it.
- JSON, YAML, tar and gzip as texts: an archive is blobs, errors and manifests by path; its index, its list signature and an added package file are not part of this model, nor is a file that collides with a directory.
- An unreadable error list, or a cached manifest that is no JSON, outside the impact report.
- The online registry client with authentication, retries and redirects: it may answer anything, fail, or raise.
- Splitting a text into physical lines: the lines are the input of the Dockerfile front end.
- Reading Compose files, configuration, key rotation, packaging, extraction of package updates, disk-space and upload-size checks: easy members only.
- Warnings about stale manifests, the refresh flag of a request, and the log of changed upstream manifests: they change no blob list.
- Path components `..`, absolute components and names with a slash inside blob file names; the names of the blob directory itself and its parent are modelled (`Stores.Has`).
- Short writes, and a crash between a blob and its sidecar: an import that fails writes nothing.
- Two threads updating one sidecar at the same time: sidecar operations are in sequence.
- Download threads share the cache only by storing a whole verified blob, which is idempotent, so each worker's effect is placed at its completion.
- A Content-Range header that does not parse, and two uploads under one truncated key: the start offset and the key are given.
- The dot of the Dockerfile patterns excludes only the newline, and the flag name is compared without case in ASCII.
- Signature bytes outside ASCII are refused with one error on both sides; the online side's own exception for them is not told apart.
- DeltaCycle.ShippedIsFound: assumes that no other shipped manifest goes to the same path, since the file order of an import is arbitrary.
- DeltaCycle.RequestedImageIsFound: speaks of tags that do not begin with `sha256:`, which no look-up by tag can reach, and of runs in which registry, repository and tag of every requested image are path components as they stand.
