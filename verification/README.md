# A verified model of cyborgdb-embed

This project models the algorithms of the embedding library and of its build scripts in Dafny, and proves what
they promise.

* `Flat`, `Pooling`, `Batching`, `Encode`, `OrtSession`, `BatchingMeaning`: `OrtSession::encode`. Texts are
  tokenised, sorted by length, cut greedily into batches, padded, run through the graph, pooled, normalised and
  scattered back. The scalars are uninterpreted, so every equality is exact and needs no law of arithmetic. The
  graph is a function that may fail, under one hypothesis (`MasksPadding`): in a row padded on the right, as all
  rows here are, the states of the tokens depend on that row's tokens and their positions alone. `Graphs` shows
  that every graph that computes rows separately meets it, whatever it makes of positions and of padding; `Runs`
  that a call on a graph that does not fail has a run to its end; `EmptyPlaces` and `EmptyTexts` when a text
  without tokens gets a vector that depends on its batch.
* `RealVectors`, `RealEmbeddings`: pooling and normalisation read over the reals, and with them the vectors of a call.
* `SessionStore`, `SessionProtocol`, `SessionGuarantees`: the single-flight session store. The class holds the
  critical sections; the protocol interleaves them with loading, fulfilling, waiting, returning and releasing,
  for any number of threads and keys, with every strong reference accounted for. `SessionWaits` bounds how long
  one acquire takes while others keep arriving; `SessionReports` holds `loaded()` and `stats()` against the opens;
  `SessionReleases` says what releases, failures and reconfigurations mean for later acquires.
* `CacheConfiguration`, `Cache`, `CacheProtocol`, `CacheRefinement`, `CacheGuarantees`, `CacheRegistry`: the download
  cache, first one call at a time over a directory, then as a protocol of any number of processes that interleave
  and may stop between any two steps, which comes to the same for a call left undisturbed; and when an Ok of that
  protocol can be relied on, for any asks and for a registry's.
* `Runtime`: the process-wide thread pool size.
* `Archives`, `ArchiveContents`: elimination of redundant static archives, and what it can lose.
* `Rounding`, `Float16`: conversion between single and half precision, and comparison of halves, against
  IEEE 754-2019, sections 3.4, 4.3.1 and 5.11. `Rounding` is about any binary format.
* `PinRegistry`, `PinFormats`, `PinBlocks`: the editor that pins revisions and digests in the registry, the lines it
  reads and writes character by character, and where its look-ahead ends.
* `Wrappers`, `FreshNames` and `PythonText` hold what several of these need.

Code that updates objects, buffers or lists is modelled by classes and by methods with loops over arrays, each
proved against a specification function or predicate; the lemmas are about those.

## Where code and documentation part

* `include/cyborgdb_embed/embed.hpp:219-221` says that `loaded()` gives the successful opens still outstanding. It
  counts strong references, and only of a session that its entry names. It is right for a key if and only if,
  while a load of the key is unpublished, no caller holds a session of it, and, while none is, no thread inside
  `acquire` has been served one (`ReportsExactly`). It is too low if a waiter returns between `set_value` and the
  second critical section (`UnderReportsExactly`, `UnderReportIsReachable`). It is too high while a thread that has
  been served has yet to return: one caller alone, having published, is reported as two handles before it has any
  (`OverReportsExactly`, `OverReportIsReachable`).
* `include/cyborgdb_embed/embed.hpp:224-227` says that `stats()` counts opens that reused a session and opens that
  built one. Each counter also counts the failed ones and those yet to return (`CountersExceedOpens`).
* The comment at `src/session_ort.cpp:97-101` calls batching output-equivalent. Under cls pooling a text without
  tokens reads a padded position, and its vector can depend on the other texts of the call: `EmptyTextDiffers` has
  two calls that end with different vectors for the text "". It is equivalent for such a text on every graph if and
  only if the text is batched alone: the number of texts without tokens before it is a multiple of 64, none
  follows, and every other text has more than 4096 tokens (`AgreesExactly`). On every graph that computes a row,
  padding included, from that row alone it is if and only if the batch is one column wide, which the lengths decide
  as well (`AgreesLocallyExactly`).
* The comment above `flatten` shows a slash becoming two underscores. The code writes one, so ids can flatten
  alike (`FlatCollides`). And of a graph's path in its repository the cache keeps the file name only. So two files
  can share a cache path: exactly when revisions and file names agree and the models' names flatten alike
  (`GraphsCollideExactly`), and a graph and a tokenizer if the graph's file is called tokenizer.json
  (`TokenizersCollideExactly`). A file that is there is not hashed again, so an Ok then need not mean the digest
  asked for. It does in all runs if and only if those who ask for one path agree with each other and with what is
  there at the start (`OkIsKeptExactly`); for the models of a registry, if and only if no two colliding files are
  pinned to different digests and the files there at the start have theirs (`RegistryIsServedExactly`).
* `scripts/redundant_archives.py:4-7` calls it safe to leave out a redundant archive. It compares one extraction
  per name, so code can be lost if a name repeats in an archive with other bytes (`RepeatedNameLoses`), if extraction
  fails on it, or if it is blank beside others and so not compared. Nothing is lost, whatever else is given, if and
  only if each piece of code is what its own listed name extracts, or the archive lists no name
  (`NoCodeIsLostExactly`).
* `scripts/pin_registry.py:80-83` scans for a path within the block of an id. The scan stops at a line that starts
  with `- id:` only, though an id line may be written with other white space (`LeavesItsBlock`). The path then is
  that of the next id; `LeavesBlockExactly` says when.
* `operator==` on halves tells a zero from a negative zero, against IEEE 754-2019, section 5.11, and against the
  comment on `AreZero`; `EqualAgreesExactly` says exactly when it agrees (`ZerosDiffer`).
* Pinning twice is pinning once exactly when no value written contains a quote (`PinningIsIdempotent`, `QuoteInQuotes`).

## Model

| member | source | states |
|---|---|---|
| BatchingMeaning.EveryRowIsItsEmbedding | src/session_ort.cpp:97-178 | After a successful call the row of every text is its own tokens' states pooled and normalised, whatever the number of texts, their lengths and the pooling mode; under cls pooling for texts with at least one token |
| RealEmbeddings.VectorIsUnitLength | src/session_ort.cpp:167-172 | Over the reals, after a successful call of a model that normalises, the vector of a text has length one and the direction of its pooled states, unless their norm is at most 10^-12; in that case, and of any other model, it is the pooled states |
| RealEmbeddings.PooledStates | src/pooling.hpp:25-53 | The pooled states are the first token's, or in each coordinate the average of the tokens' or the greatest of them |
| BatchingMeaning.VectorIsBlock | src/session_ort.cpp:174 | The vector of text i is `out[i * dim .. (i + 1) * dim]` |
| BatchingMeaning.TailIsUntouched | src/session_ort.cpp:173-175 | However a call ends, nothing past n * dim is written |
| BatchingMeaning.SameTextSameVector | src/session_ort.cpp:97-178 | A text gets the same vector in any two calls, wherever it stands and whatever is beside it |
| BatchingMeaning.EncodeConcatenates | src/session_ort.cpp:97-178 | Encoding a concatenation gives the concatenation of the encodings |
| BatchingMeaning.EncodePermutes | src/session_ort.cpp:110-175 | Permuting the texts permutes the vectors |
| BatchingMeaning.FinishedRows | src/session_ort.cpp:158-177 | Whether or not a later batch fails, every row of a batch that ran is its text's embedding |
| BatchingMeaning.UnfinishedRows | src/session_ort.cpp:163-165 | When the graph fails, the rows of every unfinished batch and everything past the n rows are as they were |
| BatchingMeaning.FewestRuns | src/session_ort.cpp:110-125 | A successful call runs the graph no more often than any grouping of the texts, contiguous or not, that respects the row limit and the token budget |
| BatchingMeaning.TensorsBounded | src/session_ort.cpp:53-54 | Every batch has 1 to 64 rows and its tensors hold at most 8192 positions, or one row of the tokenizer's limit |
| Batching.PlanIsOptimal | src/session_ort.cpp:110-125 | No family of feasible groups that covers all rows has fewer groups than the plan has batches |
| Batching.StaysAhead | src/session_ort.cpp:114-125 | After m batches the plan has passed at least as many rows as any m feasible groups hold together |
| Batching.BatchIsFeasible | src/session_ort.cpp:119-125 | The plan's own batches meet the limits the optimum is measured by |
| Batching.SortedOrder | src/session_ort.cpp:110-112 | The sort yields a permutation of all indices ordered by length, and by input position on equal lengths |
| Batching.StableOrderIsUnique | src/session_ort.cpp:110-112 | There is only one such permutation, so any stable sort is this one |
| Batching.PaddedSizeBounded | src/session_ort.cpp:119-125 | Rows times padded width of a planned batch is within the budget, or within the length limit for one row |
| OrtSession.EncodeTexts | src/session_ort.cpp:82-179 | Each status with the exact condition for it, `out` untouched unless the graph was reached, and otherwise the run: tokens of every text, the stable order, greedy cuts, each finished batch written to its texts' rows and nothing else changed |
| OrtSession.EncodeChecked | src/session_ort.cpp:102-178 | A tokenizer error is returned exactly when some text fails and leaves `out` alone; otherwise the run ends complete, or at the batch that failed |
| OrtSession.TokenizeAll | src/session_ort.cpp:102-109 | Fails exactly when some text fails; otherwise the tokens of each text in input order |
| OrtSession.SortByLength | src/session_ort.cpp:108-112 | The stable order by token count |
| OrtSession.PlanBatch | src/session_ort.cpp:117-125 | The batch fits the limits and one more row would not, and its width is the longest row's length, at least one |
| OrtSession.BatchWidth | src/session_ort.cpp:120-123 | The width the planner tracks, that of the last row in sorted order, is the greatest in the batch |
| OrtSession.Pad | src/session_ort.cpp:134-141 | Both flat tensors equal, row by row, tokens then zeros and ones then zeros |
| OrtSession.PadRow | src/session_ort.cpp:137-140 | One row is written in its block and no other position changes |
| OrtSession.PoolBatch | src/session_ort.cpp:167-172 | Every pooled row is the row's pooling under its own mask, normalised if the model asks for it |
| OrtSession.WriteRow | src/session_ort.cpp:174 | The block of one text holds the row; every other block and what lies past them is unchanged |
| OrtSession.ScatterStep | src/session_ort.cpp:173-175 | The next scattered row leaves the rows already scattered in place |
| OrtSession.Scatter | src/session_ort.cpp:173-175 | Every row of the batch lands on its own text's block, and only those blocks change |
| OrtSession.RunPadded | src/session_ort.cpp:127-165 | The graph is run on the padded ids and mask of the batch, and its result has the batch's shape |
| OrtSession.EmbedBatch | src/session_ort.cpp:127-175 | Succeeds exactly when the graph does; then the batch's rows are written, and otherwise nothing is |
| OrtSession.EncodeBatch | src/session_ort.cpp:114-177 | One turn of the outer loop: a non-empty greedy batch is appended to the plan and written, or the run stops there with `out` unchanged |
| OrtSession.EncodeBatches | src/session_ort.cpp:114-178 | The loop ends with the whole sorted order cut greedily and every batch written, or stopped at a batch the graph failed on |
| OrtSession.BatchesKept | src/session_ort.cpp:173-176 | Rows written by earlier batches survive every later batch |
| Encode.PaddedRow | src/session_ort.cpp:134-141 | Row r of each padded tensor depends on row r's tokens and the width alone |
| Encode.PaddedKeepsIds | src/session_ort.cpp:99-101 | The unmasked ids of a padded row are exactly that row's tokens, in order |
| Encode.KeptStates | src/session_ort.cpp:99-101 | The states kept from a padded batch for a row are the states of its own tokens |
| Encode.BatchRowIsEmbedding | src/session_ort.cpp:97-172 | Whatever batch a text is put in, its pooled and normalised row is its own embedding |
| Encode.BatchedEqualsAlone | src/session_ort.cpp:97-101 | A text's row in any batch equals its row in a batch of its own, where a text with tokens has no padding |
| EmptyTexts.AgreesExactly | src/session_ort.cpp:97-125 | On every graph under the hypothesis a call on all the texts gives text i the vector that a call on it alone gives, if and only if, under cls pooling, the text has tokens or is batched alone, which the lengths decide |
| EmptyTexts.AgreesLocallyExactly | src/session_ort.cpp:97-125 | The same on every graph whose states of a row, padding included, depend on that row's ids, mask and width alone, if and only if the text has tokens or is batched with texts of at most one token only, which the lengths decide |
| EmptyPlaces.AloneExactly | src/session_ort.cpp:114-125 | The planner gives an empty text a batch of its own if and only if the empty texts before it fill whole batches, none follows and every other text has more than 4096 tokens |
| EmptyPlaces.NarrowExactly | src/session_ort.cpp:114-125 | The longest text in the batch of an empty one has at most one token if and only if the texts that short fill the batch, or none longer fits in with those left for it |
| EmptyTexts.VectorOfEmpty | src/session_ort.cpp:127-175 | The vector of an empty text is its row in a batch that holds it alone, or is one column wide, exactly under these conditions |
| EmptyTexts.DisagreeingCalls | src/session_ort.cpp:97-101 | For any texts and tokenizer where the condition fails, two finished calls on one graph that give the text different vectors; likewise for the other condition and a graph of the other kind |
| EmptyTexts.EmptyTextDiffers | src/session_ort.cpp:97-101 | The same for the texts "" and "a", a tokenizer that makes no token of the one and two of the other, and a graph that computes rows from themselves alone |
| EmptyTexts.EmptyRowReads | src/pooling.hpp:25-28 | Cls pooling of an empty row yields what the graph left at padding |
| Encode.PaddedMaskIsOnRight | src/session_ort.cpp:134-141 | Every mask row that padding makes is ones and then zeros, the only rows the hypothesis speaks of |
| Graphs.RowGraphConforms | src/session_ort.cpp:99-101 | Every graph whose states are a function of the row's unmasked ids and the position, with anything at padding, meets the hypothesis |
| Graphs.PositionsMayMatter | src/session_ort.cpp:99-101 | A graph that meets it and gives one id two states at two positions |
| Runs.CallEnds | src/session_ort.cpp:102-178 | On a graph that does not fail, and for all texts that tokenise and any buffer with room, there is a run to the end |
| Encode.Tokens | src/tokenizer.cpp:46-62 | A tokenised text has at most `max_tokens` ids |
| Encode.TokensExactly | src/tokenizer.cpp:46-62 | The tokenizer is given the prefix and then the text, up to the first NUL, and its ids are the tokens unless it fails or they are more than `max_tokens` |
| Encode.CStringStopsAtNul | src/tokenizer.cpp:54-56 | The tokenizer sees the longest prefix of prefix and text that holds no NUL |
| Pooling.Pool | src/pooling.hpp:19-55 | Each row's block of the output is that row pooled under its own mask, for all three modes; rows do not interfere |
| Pooling.PoolRowInto | src/pooling.hpp:22-53 | One row is pooled into its block and nothing else changes |
| Pooling.FoldTokens | src/pooling.hpp:41-49 | The block holds the fold over the unmasked tokens in order, and the count is their number |
| Pooling.PaddingIsIgnored | src/pooling.hpp:16-18 | Appending any masked columns, holding anything, changes neither mean nor max, nor cls once a first column exists |
| Pooling.KeptIgnoresMasked | src/pooling.hpp:33-44 | What stands at masked positions has no influence |
| Pooling.L2Normalize | src/pooling.hpp:59-68 | Every row becomes its normalised form, in place, independently of the others |
| Pooling.NormalizeRowAt | src/pooling.hpp:61-66 | One row is divided by its norm, or left alone when the norm is tiny, and nothing else changes |
| RealVectors.MeanIsAverage | src/pooling.hpp:41-53 | Mean pooling times the number of tokens is their sum, the mean lies between any bounds of the tokens, and is zero when there are none |
| RealVectors.MaxIsAttained | src/pooling.hpp:30-38 | Max pooling is attained by an unmasked token and bounds all of them |
| RealVectors.UnitLength | src/pooling.hpp:57-67 | A row has unit length afterwards if and only if its norm is above the floor, and is unchanged otherwise |
| RealVectors.DirectionKept | src/pooling.hpp:57-67 | A row above the floor is its norm times its normalised form; any other is its normalised form |
| RealVectors.NormalizeTwice | src/pooling.hpp:57-67 | Normalising again changes nothing, whatever the row |
| RealVectors.InnerProductIsCosine | include/cyborgdb_embed/embed.hpp:49-51 | The inner product of two normalised rows is the cosine of the originals and lies in [-1, 1] |
| SessionStore.Store.Configure | src/session_store.cpp:10-14 | Replaces the configuration and nothing else |
| SessionStore.Store.EnterAcquire | src/session_store.cpp:24-52 | A live session is shared, failing that a load in flight is waited on, failing that the caller claims a load under the configuration then in force; the whole new state |
| SessionStore.Store.PublishResult | src/session_store.cpp:61-72 | A failed load leaves no entry, a successful one a weak entry with nothing pending; the whole new state |
| SessionStore.Store.Loaded | src/session_store.cpp:85-96 | For each key whose weak entry locks, the strong references besides the lock |
| SessionStore.Store.Stats | src/session_store.cpp:98-101 | The two counters |
| SessionProtocol.StepKeepsInv | src/session_store.cpp:16-83 | Every step of every thread keeps the invariant that ties threads, promises, entries, sessions and holders together |
| SessionProtocol.RunKeepsInv | src/session_store.cpp:16-83 | So does every run |
| SessionProtocol.ReachableInv | src/session_store.cpp:16-83 | The invariant holds in every state some interleaving reaches |
| SessionProtocol.AliveBefore | src/session_store.cpp:30-69 | No step brings a dead session back: one alive afterwards was alive before or was just built |
| SessionProtocol.CurrentKept | src/session_store.cpp:27-72 | While a session lives no step unseats it as its key's session or lets a second one in |
| SessionGuarantees.SingleFlight | src/session_store.hpp:14-21 | In every reachable state the live sessions and the loads in flight of a key are at most one together |
| SessionGuarantees.LoaderKeepsEntry | src/session_store.cpp:44-63 | From claim to publication a loader's entry is its own, so the lookup at publication finds it, and nobody else loads the key |
| SessionGuarantees.WaitersAgree | src/session_store.cpp:78-82 | All callers served by one load return the same result: the session it built, or failure if and only if it failed |
| SessionGuarantees.RightSession | src/session_store.cpp:30-34 | An acquire hands out a session of the key it was asked for, and sharing a live one never fails |
| SessionGuarantees.HistoryIsFinal | src/session_store.cpp:57-59 | A promise's maker, key, configuration and outcome never change, and what was returned stays returned |
| SessionGuarantees.BlockedOnLoader | src/session_store.cpp:54-78 | A blocked thread waits on a thread that is loading, and so is not itself blocked |
| SessionGuarantees.Progress | src/session_store.cpp:54-82 | While an acquire is in flight some thread in it can step: no deadlock |
| SessionGuarantees.InnerStepDecreases | src/session_store.cpp:54-82 | Every step inside acquire lowers a rank of the whole state |
| SessionGuarantees.AcquiresFinish | src/session_store.cpp:54-82 | With no new arrivals a run has at most as many steps as the rank it starts from |
| SessionGuarantees.StuckMeansDone | src/session_store.cpp:54-82 | A state in which no thread inside acquire can step has no thread inside acquire |
| SessionWaits.AcquireTakesFewSteps | src/session_store.cpp:54-82 | In any run, new arrivals included, an acquire is over once the thread it depends on at each moment, its loader until the promise is set and then itself, has taken at most four steps in all |
| SessionWaits.NoStepSetsBack | src/session_store.cpp:24-82 | No step of any thread raises the number of steps an acquire still needs, and each step of the thread it depends on lowers it |
| SessionWaits.HelperCanStep | src/session_store.cpp:54-82 | That thread always has a step: it is never blocked |
| SessionReports.ReportsExactly | include/cyborgdb_embed/embed.hpp:219-221 | `loaded()` reports for a key the opens outstanding if and only if there are none while a load of it is unpublished, and otherwise no thread inside acquire has been served a session of it |
| SessionReports.UnderReportsExactly | src/session_store.cpp:59-96 | It reports fewer if and only if a load of the key is unpublished while some caller holds a session of it |
| SessionReports.OverReportsExactly | src/session_store.cpp:69-96 | It reports more if and only if no load is unpublished and a thread inside acquire holds a session of the key or waits on a promise set to one |
| SessionReports.UnderReportIsReachable | src/session_store.cpp:59-96 | A run of two threads that reaches a state of the first kind |
| SessionReports.OverReportIsReachable | src/session_store.cpp:69-92 | A run of one thread that reaches a state with no open and two handles reported |
| SessionGuarantees.QuietStoreRetainsNothing | include/cyborgdb_embed/embed.hpp:211-222 | With no acquire in flight nothing is pending, the live sessions are exactly those some handle holds, and `loaded()` lists exactly the open keys with their exact numbers of handles |
| SessionReleases.ReleaseCloses | include/cyborgdb_embed/embed.hpp:211-221 | Releasing a handle is one open of its key less, and none of another |
| SessionReleases.LastReleaseFrees | include/cyborgdb_embed/embed.hpp:211-214 | With nobody inside acquire the release of the last handle frees the session: it is dead, `loaded()` does not list the key, and the next acquire claims a load |
| SessionReleases.OpenIsShared | src/session_store.cpp:29-34 | An acquire of an open key with no load unpublished shares the session of its handles |
| SessionReleases.PendingIsAwaited | src/session_store.cpp:38-41 | While a load is unpublished an acquire waits for it |
| SessionReleases.ReturnOpens | src/session_store.cpp:74-82 | A return with a session is one more open of its key |
| SessionReleases.LoadOutcome | src/session_store.cpp:57-59 | A load that fails comes to no session and one that succeeds to a new one of its key |
| SessionReleases.FailureIsRetried | src/session_store.cpp:64-67 | Once a failed load is published its key has no entry and the next acquire claims a load of its own |
| SessionReports.EveryOpenIsCounted | src/session_store.cpp:31-45 | `shared + loaded` is the number of acquires past the first critical section, and `loaded` the number of loads claimed |
| SessionReports.CountersExceedOpens | include/cyborgdb_embed/embed.hpp:224-227 | `loaded` is the opens that built a session, and those that failed to, and those yet to return; `shared` is the opens that reused one, and those that failed waiting, and those yet to return |
| SessionGuarantees.LoadUsesClaimedConfig | src/session_store.cpp:26-58 | A load is claimed with the configuration in force at that moment |
| SessionGuarantees.ClaimedConfigStays | src/session_store.cpp:57-58 | It still has that configuration whatever is configured meanwhile |
| SessionReleases.LoadsRunUnderLastConfiguration | src/session_store.cpp:10-26 | After `configure` every load claimed before the next `configure` runs under what it set |
| SessionGuarantees.KeysAreIsolated | src/session_store.cpp:19-72 | A step changes the entry of its own key only |
| Runtime.Runtime.Configure | src/session_ort.cpp:183-196 | Accepted exactly for a positive size that is free or already in use; a refusal changes nothing |
| Runtime.Runtime.Environment | src/session_ort.cpp:30-47 | The first call that succeeds starts the pool with the configured size; a failed one changes nothing |
| Runtime.BeforeStart | src/session_ort.cpp:183-196 | Over every trace without a start the size is the last positive one asked for, or one |
| Runtime.PoolSizeIsFixed | src/session_ort.cpp:17-47 | Over every trace the pool keeps the size of its first start, and from then on a size is accepted if and only if it is that one |
| CacheConfiguration.ResolvingTwice | src/resolve.cpp:165-174 | Resolving a resolved configuration changes nothing, as path building relies on, and leaves no cache directory empty |
| CacheConfiguration.ConfigurationSources | src/resolve.cpp:21-32 | Directory, endpoint and offline each from the caller, the library's variable, the platform's or the default, in that order; offline if either asks for it |
| Cache.Flatten | src/resolve.cpp:36-42 | The loop replaces every slash by one underscore |
| Cache.FlatCollides | src/resolve.cpp:34-42 | Two ids flatten alike if and only if they have equal length and differ only in slashes against underscores |
| Cache.Flat | src/resolve.cpp:36-42 | Each character is kept but for slashes, which become underscores |
| Cache.FileNameExactly | src/resolve.cpp:178-181 | The file name is the one string without a slash that is the path or follows a directory in it |
| Cache.GraphsCollideExactly | src/resolve.cpp:176-186 | Two graphs share a cache path if and only if revisions agree, the models' names flatten alike and their repository paths have the same file name, in whatever directories |
| Cache.BesideTheGraph | src/resolve.cpp:277-278 | The parent of the graph's cache path, where the tokenizer goes, is the directory of its model and revision |
| Cache.PathsWritten | src/resolve.cpp:176-186 | Cache directory, flattened name, revision and file name, with one slash between |
| Cache.TokenizersCollideExactly | src/resolve.cpp:274-281 | Two tokenizers share a cache path if and only if revisions agree and names flatten alike; a graph and a tokenizer do if and only if moreover the graph's file is tokenizer.json |
| Cache.Disk.Sha256File | src/resolve.cpp:188-213 | The digest of the whole content, however many chunks it is read in, or an error if there is no such file |
| Cache.HexIsInjective | src/resolve.cpp:205-211 | Equal hexadecimal digests are equal digests |
| Cache.HexReadsBack | src/resolve.cpp:205-211 | Two lower-case digits for each byte, in order, the high one first |
| Cache.Disk.Download | src/resolve.cpp:142-152 | The first attempt that is not a transient failure decides, or the fifth; the waits in between; a failed download leaves no file |
| Cache.Decisive | src/resolve.cpp:144-152 | Every attempt before the deciding one failed transiently |
| Cache.BackoffBounds | src/resolve.cpp:142-149 | A wait is 1, 2, 4 or 8 seconds in turn, or what the server asks for if that is more, up to 60 |
| Cache.Disk.EnsureFile | src/resolve.cpp:217-262 | Status and directory on every path: a cached file is left as it is, a fetched one is installed only under its pinned digest, and no exit leaves the partial |
| Cache.Disk.FetchVerified | src/resolve.cpp:239-261 | The same for the part in which the partial exists |
| CacheProtocol.StepKeepsInv | src/resolve.cpp:217-262 | Every step of every process, a stop included, keeps the invariant on files and calls |
| CacheRefinement.UndisturbedCall | src/resolve.cpp:217-262 | Whatever others have left, a call that runs undisturbed takes the protocol to the status and the directory that `ensure_file` ends in by itself |
| CacheRefinement.RenameMoves | src/resolve.cpp:257 | A process stopped right after its rename leaves no partial, and no other file changed |
| CacheRefinement.CrashLeavesPartial | src/resolve.cpp:236-245 | One stopped before leaves its partial in the directory |
| CacheProtocol.CacheIsSourced | src/resolve.cpp:236-261 | In every state of every run, whatever callers ask for, a file at a final path is the one that was there at the start, or has a digest that some call for that path was to fetch |
| CacheGuarantees.CacheIsVerified | src/resolve.cpp:236-261 | Where asks are consistent every file at a final path has the digest that every ask for it demands, in every state of every run |
| CacheGuarantees.OkIsKeptExactly | src/resolve.cpp:220-261 | An Ok means, then and for good, a file of the digest asked for, in all runs if and only if each ask suits what is there at the start, or else all that other asks may fetch to its path |
| CacheGuarantees.UnsuitedFails | src/resolve.cpp:220 | Every ask that does not is in some run answered Ok by a file of another digest |
| CacheRegistry.RegistryIsServedExactly | src/resolve.cpp:266-281 | Every Ok of `ensure_graph` and `ensure_tokenizer` means, in all runs over the models of a registry and for good, a file of the pinned digest, if and only if each file's path holds that digest at the start, or holds nothing and no colliding file has another digest |
| CacheRegistry.PathsAreCollisions | src/resolve.cpp:176-186 | Two files of registry entries have one path if and only if flattened names, revisions and file names agree |
| CacheRegistry.AsksAreForFiles | src/resolve.cpp:266-281 | What the two functions ask of the cache is a graph or a tokenizer of some entry at its path, with its digest |
| CacheRegistry.SlashAndUnderscoreClash | src/resolve.cpp:34-42 | For instance, a model a/b and a model a_b with graphs of two digests |
| CacheProtocol.FinalPathsStay | src/resolve.cpp:236-261 | A file at a final path never disappears |
| CacheProtocol.ReturnedCalls | src/resolve.cpp:237-261 | A call that returned left no partial, then or later, and if it returned Ok its file is there |
| CacheProtocol.OnlyCrashesLeavePartials | src/resolve.cpp:236-245 | With nobody running every file was there before, is final, or is the partial of a stopped process |
| Archives.FindRedundant | scripts/redundant_archives.py:35-56 | The printed list is sorted and holds exactly the archives that are not empty and are strictly contained in another, or equal to one with a smaller name |
| Archives.RedundantExactly | scripts/redundant_archives.py:42-54 | Dropped are the archives with names for which another has all these names with the same digests, and more names, or comes first |
| Archives.FirstByNameIsKept | scripts/redundant_archives.py:38-50 | Of two archives that hold the same the one that comes first by name is kept |
| Archives.StrLessIsLexicographic | scripts/redundant_archives.py:42-49 | The order of names: a proper prefix comes first, or the first difference decides by character code |
| Archives.MembersExactly | scripts/redundant_archives.py:18-25 | A name is given by exactly the lines that are not blank and none of the four index entries |
| Archives.StripSlashesExactly | scripts/redundant_archives.py:24 | And it is the line without the slashes at its end |
| Archives.Fold | scripts/redundant_archives.py:46-54 | The inner loop finds an archive to fold into, skipping dropped ones, if and only if one supersedes this one at all |
| Archives.FoldsIsSupersedes | scripts/redundant_archives.py:47-52 | The guards on names and sizes and the comparison of bytes amount to strict containment, or equality with the smaller name |
| Archives.SupersedesIsStrictOrder | scripts/redundant_archives.py:38-41 | That relation is irreflexive and transitive |
| Archives.KeptSuperseder | scripts/redundant_archives.py:38-41 | Every redundant archive is superseded by one that is kept, along chains of any length |
| Archives.NothingLost | scripts/redundant_archives.py:42-54 | At any point of the loop the names of every archive, with what each extracts, are all in one not dropped, even along chains |
| ArchiveContents.NoCodeIsLostExactly | scripts/redundant_archives.py:21-54 | Over members that may repeat names and extractions that may fail: whatever an archive is given with, all its code is in an archive not printed, if and only if it lists no names or each piece of its code is what its name extracts |
| ArchiveContents.RepeatedNameLoses | scripts/redundant_archives.py:28-32 | An archive with a name twice and other bytes, dropped for another that lacks the second |
| ArchiveContents.ComparableIsKept | scripts/redundant_archives.py:42-54 | The same for one given set of paths |
| ArchiveContents.ShadowLacks | scripts/redundant_archives.py:51-53 | The archive that makes another redundant although a piece of code of that other is not in it |
| Archives.KeptAreIncomparable | scripts/redundant_archives.py:38-41 | No kept archive that holds anything is contained in another kept one |
| Archives.OutputIsOrderFree | scripts/redundant_archives.py:35-56 | The output does not depend on the order or repetition of the paths |
| Archives.SortKeys | scripts/redundant_archives.py:42-46 | The keys in strictly ascending order, all of them and no other |
| Rounding.BiasThenShiftRounds | onnxruntime/include/onnxruntime_float16.h:277-286 | For every natural and every k of at least 1, adding 2^(k-1) - 1 and the lowest kept bit and shifting by k rounds to nearest, ties to even |
| Rounding.EncodeIsNearestEven | onnxruntime/include/onnxruntime_float16.h:247-292 | For every format and every number the encoder's code is the nearest value, the even one of two equally near |
| Rounding.NearestIsMonotone | onnxruntime/include/onnxruntime_float16.h:247-292 | Any rounding to nearest even keeps order, and so is unique |
| Rounding.EncodeExact | onnxruntime/include/onnxruntime_float16.h:247-292 | A number the format has is encoded as itself |
| Float16.ToUint16Impl | onnxruntime/include/onnxruntime_float16.h:247-292 | The bit operations yield, for all 2^32 inputs, the sign with the nearest half, infinity past the largest, and the quiet NaN for NaNs |
| Float16.NormalPath | onnxruntime/include/onnxruntime_float16.h:277-286 | The two wrapping additions and the shift round to nearest even, with the carry into the exponent and into infinity |
| Float16.SubnormalPath | onnxruntime/include/onnxruntime_float16.h:268-275 | The magic float addition and the subtraction round subnormal results to nearest even |
| Float16.MagicAddRounds | onnxruntime/include/onnxruntime_float16.h:269-272 | Why it works, for a magic number of any binade: the last bit of the sum is the last bit kept |
| Float16.LargeIsInfinite | onnxruntime/include/onnxruntime_float16.h:265-266 | From 2^16 on the nearest half is infinity |
| Float16.ToHalfIsRoundTiesToEven | onnxruntime/include/onnxruntime_float16.h:247-292 | For every single that is not NaN: sign kept, the magnitude nearest with ties to even, infinity exactly when that is past the largest half |
| Float16.ToHalfOfNaN | onnxruntime/include/onnxruntime_float16.h:265-266 | NaN goes to NaN and nothing else does |
| Float16.ToHalfIsMonotone | onnxruntime/include/onnxruntime_float16.h:247-292 | Narrowing never reverses the order of two numbers, across signs, zeros and infinities |
| Float16.ToFloatImpl | onnxruntime/include/onnxruntime_float16.h:295-323 | Widening is exact on every finite half, keeps signs, infinities and being NaN |
| Float16.NormalWidens | onnxruntime/include/onnxruntime_float16.h:300-302 | Moving the exponent keeps the value of a normal half |
| Float16.SubnormalWidens | onnxruntime/include/onnxruntime_float16.h:307-309 | The float subtraction that renormalises a subnormal half is exact |
| Float16.WidenThenNarrow | onnxruntime/include/onnxruntime_float16.h:247-323 | Any single with a half's sign and value narrows to that half |
| Float16.RoundTrip | onnxruntime/include/onnxruntime_float16.h:247-323 | Widening then narrowing gives back every half that is not NaN, bit for bit |
| Float16.LessIsNumericOrder | onnxruntime/include/onnxruntime_float16.h:200-214 | `operator<` holds if and only if neither is NaN and the numbers, infinite ones included, are in that order |
| Float16.LessIsStrictWeakOrder | onnxruntime/include/onnxruntime_float16.h:186-214 | It is a strict weak order on numbers whose ties are equal bits or two zeros |
| Float16.EqualAgreesExactly | onnxruntime/include/onnxruntime_float16.h:190-196 | `operator==` agrees with numeric equality if and only if the operands are not zeros of opposite signs |
| Float16.ZerosDiffer | onnxruntime/include/onnxruntime_float16.h:178-196 | Zero and negative zero are one number and not equal |
| PinRegistry.PinLines | scripts/pin_registry.py:74-108 | The loop ends unless resolving an id crashes; then line by line the list is what each line's nearest preceding id makes of it, and the counts are those of ids that resolved and that did not |
| PinRegistry.CountsAreSizes | scripts/pin_registry.py:96-100 | The counts are the numbers of id lines, and of those that resolve |
| PinRegistry.ScanAhead | scripts/pin_registry.py:81-87 | The first path stated from the id line on, before a line that starts with the mark of a block |
| PinBlocks.LeavesBlockExactly | scripts/pin_registry.py:79-87 | The path found stands at or after the next id line if and only if nothing before that line ends the scan, the line does not start with the mark, and its own scan finds a path; then both ids get that one |
| PinBlocks.LeavesItsBlock | scripts/pin_registry.py:75-82 | For instance, with an id line of two spaces after the dash |
| PinBlocks.PathStands | scripts/pin_registry.py:81-87 | The path is that of the line the scan ends at |
| PinRegistry.Governing | scripts/pin_registry.py:75-79 | The nearest preceding id line, with no id line in between |
| PinRegistry.OnlyPinLinesChange | scripts/pin_registry.py:102-108 | A line changes only if it is a pin line under an id that resolved, and then it gets that id's value |
| PinFormats.PinnedLine | scripts/pin_registry.py:102-108 | Under an id that resolved, a line of white space, `revision:`, `onnx_sha256:` or `tokenizer_sha256:` and a quoted text has the revision, the graph's digest or the tokenizer's between those quotes afterwards, and all else as it was |
| PinFormats.ChangedLineIsPinning | scripts/pin_registry.py:102-108 | Only such lines change |
| PinFormats.IdOfExactly | scripts/pin_registry.py:75 | An id is read from exactly the lines of a dash, `id:` and a word, white space about them |
| PinFormats.PathOfExactly | scripts/pin_registry.py:84 | A path from exactly those of `onnx_path:` and a word |
| PinFormats.StartsBlockExactly | scripts/pin_registry.py:82 | The mark of a block is `- id:` after any white space |
| PythonText.IsSpaceExactly | scripts/pin_registry.py:75-106 | White space, among the ASCII characters, by code |
| PinRegistry.RequoteOf | scripts/pin_registry.py:104-108 | An edit replaces what stands between the first two quotes and nothing else |
| PinRegistry.RequoteTwiceExactly | scripts/pin_registry.py:104-108 | Editing a line twice is editing it once if and only if it has nothing to edit or the value has no quote |
| PinRegistry.QuoteInQuotes | scripts/pin_registry.py:104-108 | A value with a quote that a second edit changes |
| PinRegistry.EditKeepsKind | scripts/pin_registry.py:75-108 | An edited pin line is a pin line of the same kind and never reads as an id, a path or the start of a block |
| PinRegistry.SameAnswers | scripts/pin_registry.py:75-101 | A second pass asks the same question for every line |
| PinRegistry.PinningIsIdempotent | scripts/pin_registry.py:74-110 | A second pass with the same answers changes nothing, if and only if no value written contains a quote |

## Left out

- ONNX Runtime calls, session construction and the graph: a function that may fail, of the right output size (`WellShaped`) and under `MasksPadding`.
- The tokenizer library: a function from the text up to its first NUL to ids, or an error.
- Widths of machine integers for sizes and ids: overflow of rows times width and of `n * dim` is not modelled.
- Rounding of floating point in pooling and normalisation: scalars are uninterpreted, or reals in `RealVectors`.
- RealVectors.MaxIsAttained: minus infinity is a real that no token lies below, because the reals have no infinity.
- Exceptions and re-entrancy in `load_session`: it returns a status and does not call the store.
- When a session's destructor runs: a session is dead once its last strong reference is gone.
- SessionStore.Store.Loaded: the order of the entries and the steps inside its critical section; the result is a map.
- libcurl, TLS, authorisation, certificates, URL building and sleeping: a transfer is an oracle with a wait time.
- SHA-256 itself: any function on byte sequences, fed the file a chunk at a time as one growing sequence.
- Cache.Disk.EnsureFile: other file system errors than a failed directory, transfer or rename; removing a file succeeds, a rename is atomic, and the partial name is unused and not a final path.
- CacheGuarantees.OkIsKeptExactly: a conflicting ask counts only if some content has its digest, since no run can install any otherwise.
- Cache.GraphsCollideExactly: names and the cache directory are not empty and a revision is one path component, as in the registry.
- `ensure_graph` and `ensure_tokenizer`: each is one call of `ensure_file` on a path modelled here (`GraphPath`, `TokenizerPath`).
- NaN payloads when widening a half; the branch for one compiler on ARM64.
- BFloat16 and the rest of the ONNX Runtime headers.
- Archive listing and extraction and hashing of members: the functions `listing`, `digest` and `extract`; digests of different bytes differ; lines are stripped of ASCII white space only.
- PinRegistry.PinLines: escapes in replacement strings, white space beyond ASCII, joining the lines back into a file, and the printed report.
- Resolving a model upstream: any function from id and path to an answer, a failure that is recorded, or an error that ends the run.
- `embed.cpp` lookups, the registry table, `gen_registry.py`, `symbol_diff.py`, `version.py` and the corpus scripts: finite tables and plumbing.
