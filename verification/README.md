# Verification of the web insights service

A Dafny model of the parts of the service that carry hard properties, and proofs of those properties.
`dafny verify dfyconfig.toml` checks everything.

| file | what it models |
|---|---|
| `JumpConsistentHash.dfy` | the jump consistent hash, in exact and in floating-point arithmetic, against the listing of arXiv 1406.2294 |
| `GuidGenerator.dfy` | version 6 UUIDs: node, derivation from a base, timestamp (section 5.6 of RFC 9562) |
| `PartitionRouting.dfy` | partition keys from GUID nodes, the page and scan providers, and their partition-filtered queries |
| `DocumentMerge.dfy` | the recursive document merge with its customizers, and null normalization |
| `WireFormat.dfy` | documents as sent to the store, and the source values that a merge leaves as they are |
| `UpdateProtocol.dfy` | read, merge, conditional write: one call, and any interleaving of clients |
| `PostWebsite.dfy` | posting a website: create or merge it, then create the missing page documents |
| `StorageQueue.dfy` | the storage queue with its dead queue, as a state machine and as loops |
| `PagedQuery.dfy` | the three loops that read a paged query result |
| `TokenCache.dfy` | the managed-identity token cache under its mutex, with a clock |
| `HashSet.dfy` | the set that is its own iterator |
| `RetryLoops.dfy` | the retry loop, and the two levels of it in one client request |
| `HealthPolling.dfy` | the release gate that polls the health report |
| `ChangeLogCsv.dfy` | the change log writer, against a parser for section 2 of RFC 4180 |
| `Wrappers.dfy`, `Sequences.dfy`, `Transitions.dfy` | shared definitions: optional values, sequences, runs of a state machine |

Objects whose methods update their fields are classes, loops are loops; each such method is proved equal to a
function of its inputs or the old state, and the lemmas are about that function. Protocols with several actors
are state machines with one event per atomic step, and the safety lemmas range over all runs.

What comes from outside is a parameter or an oracle: new identifiers, new etags, hash values (FNV-1a), clock
readings, the answers of HTTP services, faults of the stores. Each file names in its heading what it assumes of
the service behind it.

## Properties that fail, and exactly when

* **Progress of the hash.** `j` never decreases only up to 2^31 buckets: from the state 2^64 a jump out of bucket
  b stays at b if and only if b <= 2^31 (`StallBoundary`). The state 2^64 is reached by real keys
  (`StallHappens`), so `j` alone is no termination measure.
* **Repeating an update** changes nothing if and only if the first one was `Stable`: no array with repeated
  scalars arrived where no array was stored, no request value met a stored null `_etag`, and no array or object
  stood among the pages (`UpdateAgain`).
* **The comments of the merge** (`cosmos-container-client.ts:72-84`) and its code agree as far as this: an undefined
  source property is skipped if and only if it meets no nonempty array (`UndefinedIsSkipped`); an array comes out
  without repetitions if and only if it meets an array or had none (`DeduplicatedIff`); the documented and the actual
  order of the two partition keys choose the same one if and only if one is missing or both are equal
  (`PartitionKeyOrder`). Elsewhere the model follows the code.
* **A merge whose read failed**: the request reaches the store if and only if the read answered 404 or found a
  document that the request merges into. After any other read the merge goes into a throwaway object: a bare stub is
  written if and only if the request merges into nothing; otherwise, as for every website update with pages, the merge
  throws and nothing is written (`RequestIsWrittenIff`, `MergesIntoNothing`).
* **Two clients creating one document**: after a run, one more step leaves a document that is no replay of its
  acknowledged updates if and only if the step is a creation that read 404, gets through after another one's, and does
  not cover what is stored (`UpdateIsLostIff`). What covering means is told from the request and the stored document
  alone (`Covers`, `CoversExactly`): its pages include the stored ones, its arrays that meet arrays have distinct
  scalars, it names every stored key but those with null, and it has no null where the merge reaches it; a request that
  would not merge covers nothing. Such a creation may lose stored fields, as in the run of `UpdatesAreLost`, or merely
  keep something that the merge would have changed. Which pages survive is told by `RacingCreatePages`. All other
  racing creations are part of the runs of `NoUpdateIsLost`.
* **One page per URL** after a first post holds if and only if no URL without a page is known twice
  (`EveryKnownUrlHasAPage`), told beforehand from the request where the post does not merge; a merging post always has
  one page for each (`OnePagePerUrl`).
* **Repeating a post** succeeds if and only if the post was `Repeatable` (`RepeatedPostCreatesNothing`): if it wrote
  a website, every nested `knownPages` of the request that a merge reaches must be a list or a string; if it merged
  into one, no request value that cannot merge into nothing may have met a stored null `_etag`. `UnrepeatablePost`
  has an input that fails; requests without a nested `knownPages` never do (`OrdinaryRequestsRepeat`).
* **The dead queue**: a message in it was never seen by a consumer if and only if its first delivery was lost in a
  failed call or is still in an unfinished one (`DeadUnseenIff`). It is there more than once if and only if some copy
  of it besides another was not, or not yet, followed by its removal from the main queue (`DeadCount`): because the
  call ended in between or the deletion is still due, or because the deletion failed, had a superseded receipt or found
  the message gone; for a deletion that is made, `DeletionMisses` has the exact condition. Both happen
  (`DeadWithoutBeingHanded`).
* **Token lifetimes**: a token that lives exactly 1200 seconds is cached for ever; every other lifetime is safe
  (`BadLifetime`).
* **Health polling** with an exact clock ends if and only if the interval is positive or the timeout negative
  (`EndsIffIntervalPositive`).
* **The change log** reads back if and only if it is empty or neither version nor any date holds a quote
  (`RoundTrip`).

## Model

| member | source | states |
|---|---|---|
| JumpConsistentHash.GetBucket | packages/common/src/ciphers/jump-consistent-hash.ts:10-22 | The loop in rounded division terminates for every key and up to 2^31 buckets, returns a bucket in range (-1 when there are none), and up to 2^22 buckets the bucket of the published listing. |
| JumpConsistentHash.Run | packages/common/src/ciphers/jump-consistent-hash.ts:15-21 | From any loop head the result lies between j and the number of buckets; it terminates by the pair (buckets - j, state is not 2^64). |
| JumpConsistentHash.JumpProgress | packages/common/src/ciphers/jump-consistent-hash.ts:16-18 | A jump moves past its bucket except from the state 2^64, and never back, for every division that does not fall below a reached integer. |
| JumpConsistentHash.StallBoundary | packages/common/src/ciphers/jump-consistent-hash.ts:17-18 | From the state 2^64 the jump does not move forward, and stays exactly when b is at most 2^31. |
| JumpConsistentHash.StallHappens | packages/common/src/ciphers/jump-consistent-hash.ts:17-18 | A key whose first state is 2^64 and whose first jump stays at bucket 0. |
| JumpConsistentHash.Consistency | packages/common/src/ciphers/jump-consistent-hash.ts:15-21 | Growing from n to m buckets leaves a key where it is or moves it to a bucket numbered n or more. |
| JumpConsistentHash.AddingOneBucket | packages/common/src/ciphers/jump-consistent-hash.ts:15-21 | One more bucket: a key stays or moves to the new bucket. |
| JumpConsistentHash.KeyModulo | packages/common/src/ciphers/jump-consistent-hash.ts:11-17 | The bucket depends on the key only modulo 2^64. |
| JumpConsistentHash.JumpIsQuotient | packages/common/src/ciphers/jump-consistent-hash.ts:18-18 | In exact arithmetic the jump is the one number of times (state >> 33) + 1 goes into (b + 1) * 2^31. |
| JumpConsistentHash.SameAsPaper | packages/common/src/ciphers/jump-consistent-hash.ts:10-22 | In exact arithmetic every key and up to 2^31 buckets give the bucket of the wrapping 64-bit listing, whose state and jump are written out on their own. |
| JumpConsistentHash.StallThenLeap | packages/common/src/ciphers/jump-consistent-hash.ts:15-19 | The unreduced state costs one iteration without progress and then leaps past all buckets, as the wrapped state 0 does at once. |
| JumpConsistentHash.RoundedQuotient | packages/common/src/ciphers/jump-consistent-hash.ts:18-18 | The floored double quotient of integers up to 2^53 is the integer quotient, for any monotone rounding exact on integers with relative error below 2^-53. |
| JumpConsistentHash.RoundedIsAdmissible | packages/common/src/ciphers/jump-consistent-hash.ts:18-18 | Rounded division never falls below an integer the true quotient reaches, whatever the size of its operands. |
| JumpConsistentHash.RoundedAgreesWithExact | packages/common/src/ciphers/jump-consistent-hash.ts:15-19 | Up to 2^22 buckets the loop takes the same jumps in floating-point and in exact arithmetic. |
| GuidGenerator.NodeOfValid | packages/common/src/system/guid-generator.ts:36-38 | The node of a valid version 6 GUID is its last group. |
| GuidGenerator.ValidByPosition | packages/common/src/system/guid-generator.ts:60-64 | Exactly the strings of 36 characters with four dashes, version digit 6 and hexadecimal digits everywhere else are valid. |
| GuidGenerator.DerivedNode | packages/common/src/system/guid-generator.ts:25-38 | A GUID derived from any base string has that string's node. |
| GuidGenerator.DerivedGuid | packages/common/src/system/guid-generator.ts:25-30 | Derived from a valid base, a GUID is valid: the fresh identifier up to its node, then the base's node; so it has the fresh timestamp. |
| GuidGenerator.TimestampOfValid | packages/common/src/system/guid-generator.ts:44-54 | On every valid GUID the timestamp is floor(60-bit time / 10000) - 12219292800000, with the field layout of section 5.6 of RFC 9562. |
| GuidGenerator.OtherVersions | packages/common/src/system/guid-generator.ts:45-48 | A string of a GUID's shape has no timestamp exactly when its version digit is not 6. |
| GuidGenerator.TimestampMonotone | packages/common/src/system/guid-generator.ts:44-64 | Valid lower-case GUIDs in string order have timestamps in order. |
| GuidGenerator.HexOrder | packages/common/src/system/guid-generator.ts:50-50 | For lower-case digits of equal length the string order is the numeric order. |
| PartitionRouting.SameNodeSamePartition | packages/service-library/src/factories/partition-key-factory.ts:15-19 | Identifiers with the same node, in any letter case, have the same partition for every document type. |
| PartitionRouting.CaseDoesNotMatter | packages/common/src/ciphers/hash-generator.ts:25-32 | Identifiers whose nodes differ in letter case only have the same partition. |
| PartitionRouting.PartitionKeyOf | packages/common/src/ciphers/hash-generator.ts:20-32 | The partition key is the name of the document type, a dash and the bucket in decimal. |
| PartitionRouting.SamePartitionIff | packages/common/src/ciphers/hash-generator.ts:20-32 | Documents share a partition exactly when they are of one type and their nodes fall into the same of the 1000 buckets. |
| PartitionRouting.BucketIsComputed | packages/common/src/ciphers/hash-generator.ts:20-32 | The bucket is the published listing's for the hash and 1000 buckets, and the one computed in doubles. |
| PartitionRouting.StepKeepsPlacement | packages/service-library/src/data-providers/page-scan-provider.ts:20-41 | Every creation, update and deletion keeps each document in the partition of its own GUID, with its parent's node. |
| PartitionRouting.StepKeepsAlignment | packages/service-library/src/data-providers/page-scan-provider.ts:20-34 | Creating a page scan of a page and a scan of one website keeps the node of the page and of the website scan equal. |
| PartitionRouting.RunIsPlaced | packages/service-library/src/data-providers/website-scan-provider.ts:22-40 | The placement holds in every store reached by any run. |
| PartitionRouting.PartitionFilterIsComplete | packages/service-library/src/data-providers/page-scan-provider.ts:51-109 | In every reachable store each query filtered by partition returns what it would return without that filter, down the whole website, page, page scan chain. |
| PartitionRouting.PartitionFilterExact | packages/service-library/src/data-providers/website-scan-provider.ts:53-111 | Without the same-website rule: nothing is missed exactly when the selected documents' parents hash to the query's partition, which for pages and website scans is always. |
| PartitionRouting.PointReadsHit | packages/service-library/src/data-providers/page-provider.ts:42-47 | Reading a page or a scan by identifier looks under the key the document was written to. |
| PartitionRouting.CreationAdds | packages/service-library/src/data-providers/page-provider.ts:21-30 | In every run with fresh identifiers a creation finds its key unused, adds one document with the given fields there, and changes no other. |
| PartitionRouting.CreatedIsStored | packages/service-library/src/data-providers/page-scan-provider.ts:20-41 | After every such run a document is stored exactly when it was created and not deleted, and each field is that of its creation or of its latest change. |
| PartitionRouting.StoredWasCreated | packages/service-library/src/data-providers/page-scan-provider.ts:20-41 | Everything stored was created by some event of the run. |
| PartitionRouting.QueryFindsIff | packages/service-library/src/data-providers/page-scan-provider.ts:51-109 | Every document created and not deleted is found by exactly the queries that ask for it, told from the events, and with its present fields. |
| PartitionRouting.Providers.CreatePageForWebsite | packages/service-library/src/data-providers/page-provider.ts:21-30 | The new store is the old one with exactly the page of this website and URL added under its key. |
| PartitionRouting.Providers.CreateScanDocumentForWebsite | packages/service-library/src/data-providers/website-scan-provider.ts:22-40 | The same for a pending website scan, with its frequency and its priority or the default one. |
| PartitionRouting.Providers.CreatePageScanDocument | packages/service-library/src/data-providers/page-scan-provider.ts:20-34 | The same for a page scan, whose GUID comes from the page. |
| DocumentMerge.MergeAgain | packages/azure-services/src/storage/cosmos-container-client.ts:115-135 | At every position, merging the same source again succeeds and changes nothing exactly when the first merge was stable. |
| DocumentMerge.UpdateAgain | packages/azure-services/src/storage/cosmos-container-client.ts:115-135 | The same for whole documents after normalization. |
| DocumentMerge.UntouchedPathsStay | packages/azure-services/src/storage/cosmos-container-client.ts:115-135 | What the source does not mention, at any depth, stays as it was apart from null normalization. |
| DocumentMerge.SourceWins | packages/azure-services/src/storage/cosmos-container-client.ts:72-79 | Whatever the source has at a path ends up there, nulls as undefined, unless an object meets an object or the path leads through a stored `_etag`, a stored array or a union of pages. |
| DocumentMerge.ArraysAreReplaced | packages/azure-services/src/storage/cosmos-container-client.ts:128-131 | At every path without a rule of its own a stored array is replaced by the source's elements, exactly those, each scalar once, in order. |
| DocumentMerge.EtagsStay | packages/azure-services/src/storage/cosmos-container-client.ts:124-127 | A stored `_etag` survives the merge at every depth at which its object does. |
| DocumentMerge.UndefinedIsSkipped | packages/azure-services/src/storage/cosmos-container-client.ts:75-75 | An undefined source property leaves the stored value exactly when that is no nonempty array (or is an `_etag`); it makes the merge throw exactly under the pages of a union. |
| DocumentMerge.DeduplicatedIff | packages/azure-services/src/storage/cosmos-container-client.ts:77-77 | An array of the source ends up with distinct scalars exactly when an array is stored there or its own scalars are distinct. |
| DocumentMerge.NormalizeLeavesNoNull | packages/azure-services/src/storage/cosmos-container-client.ts:247-255 | Normalization leaves null in no plain-object position. |
| DocumentMerge.NormalizeTwice | packages/azure-services/src/storage/cosmos-container-client.ts:247-255 | Normalization is idempotent. |
| DocumentMerge.KnownPagesUnion | packages/service-library/src/data-providers/website-provider.ts:35-42 | Updated pages are the request's and then the stored ones, each once: exactly the union, with the request's as a prefix. |
| DocumentMerge.UnionTwice | packages/service-library/src/data-providers/website-provider.ts:35-42 | Taking the union with the same request again adds nothing exactly when the request holds only scalars. |
| DocumentMerge.UnionOfParts | packages/service-library/src/data-providers/website-provider.ts:35-42 | Pages merge exactly when both sides are arrays or strings, and the result has the elements or characters of both and no others. |
| DocumentMerge.StringOverArray | packages/azure-services/src/storage/cosmos-container-client.ts:128-131 | A string that meets a stored array is taken apart into its characters, each once. |
| DocumentMerge.UniqFixed | packages/azure-services/src/storage/cosmos-container-client.ts:128-131 | Deduplication changes an array exactly when a scalar repeats. |
| UpdateProtocol.RequestIsWrittenIff | packages/azure-services/src/storage/cosmos-container-client.ts:98-143 | What is sent after any read: the request's identifier exactly when the read answered 404 or found a document the request merges into; after a failed read an unconditional stub exactly when the request merges into nothing, and otherwise nothing, because the merge throws. |
| DocumentMerge.MergesIntoNothing | packages/service-library/src/data-providers/website-provider.ts:35-42 | Where nothing is stored a merge goes through exactly when it is plain or meets no knownPages at any depth. |
| UpdateProtocol.PartitionKeyOrder | packages/azure-services/src/storage/cosmos-container-client.ts:257-264 | The order of the comment at line 80 and the code's choose one partition key exactly when one of the two is missing or both are equal. |
| UpdateProtocol.ConditionIsReadEtag | packages/azure-services/src/azure-cosmos/cosmos-client-wrapper.ts:250-262 | After a successful read the upsert is conditional on the `_etag` that was read, whatever the request carries. |
| UpdateProtocol.OneWinner | packages/azure-services/src/azure-cosmos/cosmos-client-wrapper.ts:250-262 | Of two clients that read one version of a document only the first to write gets through. |
| UpdateProtocol.CosmosContainerClient.UpsertItem | packages/azure-services/src/azure-cosmos/cosmos-client-wrapper.ts:69-97 | Stores the document with its partition key and a new etag when its own etag, if any, is the stored one; otherwise changes nothing and answers or throws 412. |
| UpdateProtocol.CosmosContainerClient.MergeOrWriteDocument | packages/azure-services/src/storage/cosmos-container-client.ts:85-144 | The whole new store and the outcome in every case: missing id or partition key, nothing found, failed read with a stub or a merge error, merge or merge error; stored etags stay strings. |
| UpdateProtocol.BareUpdate | packages/azure-services/src/storage/cosmos-container-client.ts:115-143 | Apart from the etag, what is stored depends on the stored document apart from its etag. |
| UpdateProtocol.StepKeepsInv | packages/azure-services/src/storage/cosmos-container-client.ts:98-143 | A client's snapshot equals the stored document as long as the stored etag is the one it read. |
| UpdateProtocol.StepApplies | packages/azure-services/src/storage/cosmos-container-client.ts:98-143 | Each step, other than a racing creation that does not cover what is stored, leaves a document alone or applies exactly the one request it acknowledges, which merges without an error. |
| UpdateProtocol.NoUpdateIsLost | packages/azure-services/src/storage/cosmos-container-client.ts:85-144 | In every interleaving, with conflicts, abandoned clients and covering racing creations, the acknowledged requests of each document can be merged one after another in commit order, and give the stored document apart from its etag. |
| UpdateProtocol.FieldsAfterRun | packages/azure-services/src/storage/cosmos-container-client.ts:85-144 | What a document holds after such a run, field by field: one that no acknowledged request names is as it was up to null normalization, a scalar field has the value last acknowledged, the partition key is the address's, and without an acknowledged request nothing changed. |
| UpdateProtocol.LastScalarWins | packages/azure-services/src/storage/cosmos-container-client.ts:115-143 | A field that only ever gets scalars has that of the last request naming it. |
| UpdateProtocol.UnnamedFieldStays | packages/azure-services/src/storage/cosmos-container-client.ts:115-143 | A field that no request names stays, up to null normalization. |
| WireFormat.WireKeeps | packages/azure-services/src/azure-cosmos/cosmos-client-wrapper.ts:78-79 | Exactly the values without undefined properties or elements are stored as they are, and whatever is stored is such a value. |
| WireFormat.NormalizedTwice | packages/azure-services/src/storage/cosmos-container-client.ts:134-143 | Normalizing and storing a stored value again changes nothing. |
| UpdateProtocol.UpdateIsLostIff | packages/azure-services/src/storage/cosmos-container-client.ts:85-144 | One more step after such a run breaks this for a document exactly when it is a racing creation of that document that does not cover it. |
| UpdateProtocol.UpdatesAreLost | packages/azure-services/src/storage/cosmos-container-client.ts:105-113 | A run from the empty store in which two acknowledged creations leave a document without the field of the first. |
| UpdateProtocol.ReplayPages | packages/service-library/src/data-providers/website-provider.ts:28-46 | A replay of website updates ends with exactly the pages of its start and of its requests. |
| UpdateProtocol.PagesAreTheUnion | packages/service-library/src/data-providers/website-provider.ts:28-46 | So in every such interleaving the stored pages are exactly those of the start and those the acknowledged updates name: none is lost, none appears. |
| UpdateProtocol.RacingCreateExact | packages/azure-services/src/storage/cosmos-container-client.ts:105-113 | A racing creation applies its request exactly when the request merges into the stored document and covers it at every key. |
| UpdateProtocol.CoveredExactly | packages/azure-services/src/storage/cosmos-container-client.ts:105-113 | At each key the request alone and its merge store the same exactly when the request covers the stored document there. |
| WireFormat.CoversExactly | packages/azure-services/src/storage/cosmos-container-client.ts:115-135 | A merge stores a source value as the source alone would exactly when the source covers the stored value, by a condition on the two values alone. |
| WireFormat.UnionFixed | packages/service-library/src/data-providers/website-provider.ts:35-42 | A union of pages is the request's list itself exactly when that has distinct scalars and holds every stored page. |
| UpdateProtocol.RacingCreatePages | packages/azure-services/src/storage/cosmos-container-client.ts:105-113 | Of the stored pages exactly those survive a racing creation that its request names. |
| PostWebsite.PostWebsiteController.CreateOrUpdateWebsite | packages/storage-web-api/src/controllers/post-website-controller.ts:61-79 | The stored website, the document gone on with, and whether it was created, for new websites, merges and writes of missing ones. |
| PostWebsite.PostWebsiteController.HandleRequest | packages/storage-web-api/src/controllers/post-website-controller.ts:40-59 | Both stores and the answer after a post, loops and errors included, are those of the function the lemmas below are about. |
| PostWebsite.AnswerOfPost | packages/storage-web-api/src/controllers/post-website-controller.ts:40-59 | 201 exactly when the post created the website or a page, otherwise 200; the answer lists exactly the website's pages as stored afterwards, and no stored page is taken away. |
| PostWebsite.StoredWebsite | packages/service-library/src/data-providers/website-provider.ts:17-63 | The stored website field by field: the request's fields, and for a new website its identifier, the item type and the partition; a merge keeps what the request does not name; no other website changes. |
| PostWebsite.CreatedPages | packages/service-library/src/data-providers/page-provider.ts:21-30 | A created page has its URL, the website's node and an identifier of its own. |
| PostWebsite.PostWebsiteController.CreateNewPages | packages/storage-web-api/src/controllers/post-website-controller.ts:81-97 | Exactly the pages of the known URLs that have none are appended to the store and to the response, and whether there were any. |
| PostWebsite.PagesAfterPost | packages/storage-web-api/src/controllers/post-website-controller.ts:81-97 | Exact page counts: a URL that had pages keeps their number, one that had none gets as many as it is known times; other websites' pages do not change. |
| PostWebsite.EveryKnownUrlHasAPage | packages/storage-web-api/src/controllers/post-website-controller.ts:81-97 | After a post every known URL has a page, and at most one each (if that held before) exactly when no URL without a page is known twice. |
| PostWebsite.KnownAfterPost | packages/storage-web-api/src/controllers/post-website-controller.ts:61-79 | The known URLs a post goes on with: the request's, or for a merging post the deduplicated union with the stored ones. |
| PostWebsite.OnePagePerUrl | packages/storage-web-api/src/controllers/post-website-controller.ts:81-97 | At most one page per URL is kept exactly when the post merges or its request repeats no URL without a page. |
| PostWebsite.UpdatedPages | packages/service-library/src/data-providers/website-provider.ts:28-46 | A merging update leaves the deduplicated concatenation of the request's and the stored pages. |
| PostWebsite.UpdateCreatesNoDuplicates | packages/storage-web-api/src/controllers/post-website-controller.ts:81-97 | A merging update creates at most one page for a URL, even when the request repeats it. |
| PostWebsite.FirstPostStores | packages/storage-web-api/src/controllers/post-website-controller.ts:61-79 | The website a post leaves in the store has the identifier and, as a set, the pages of the one it answers with, the request's among them. |
| PostWebsite.MergesIntoCopy | packages/service-library/src/data-providers/website-provider.ts:31-43 | A value merges into its own stored copy exactly when every knownPages the merge reaches in it can be spread. |
| PostWebsite.MergesOverMerged | packages/service-library/src/data-providers/website-provider.ts:31-43 | A value that merged once merges into the stored result again exactly unless it met a stored null under an `_etag` and would not merge into nothing. |
| PostWebsite.SecondMerge | packages/storage-web-api/src/controllers/post-website-controller.ts:61-79 | The merge of a repeated post goes through exactly when the post was repeatable, told from the request and the store before the first. |
| PostWebsite.OrdinaryRequestsRepeat | packages/storage-web-api/src/controllers/post-website-controller.ts:61-79 | A request whose only knownPages is its own merges into every website with a page list and can be repeated, whatever else it holds. |
| PostWebsite.RepeatedPostCreatesNothing | packages/storage-web-api/src/controllers/post-website-controller.ts:40-97 | Posting the same website again by its identifier never creates a page, and answers 200 exactly when the post was repeatable; otherwise its merge throws. |
| PostWebsite.UnrepeatablePost | packages/storage-web-api/src/controllers/post-website-controller.ts:40-97 | Every new website, given a nested knownPages that is no list, can be posted, and its repetition throws. |
| StorageQueue.StepKeepsInv | packages/azure-services/src/azure-queue/queue.ts:29-51 | Every step keeps: each enqueued message in the main queue, the dead queue or completed; none handed out twice. |
| StorageQueue.QueueIsSafe | packages/azure-services/src/azure-queue/queue.ts:29-145 | So in every run, with failures and visibility expiry between any two steps. |
| StorageQueue.CompletionRemoves | packages/azure-services/src/azure-queue/queue.ts:69-73 | Deleting a message held by a consumer takes it out of the main queue exactly unless it was received again since; it then counts as completed, and no other message is touched. |
| StorageQueue.CompletedIsFinal | packages/azure-services/src/azure-queue/queue.ts:69-73 | In every run a completed message stays completed, is not in the main queue and cannot be received again. |
| StorageQueue.ReturnHandsOver | packages/azure-services/src/azure-queue/queue.ts:29-51 | A returning call hands each of its messages to the consumer, who can complete it. |
| StorageQueue.HandedAndCompleted | packages/azure-services/src/azure-queue/queue.ts:29-73 | A run in which a message is received, handed over and completed, and nothing is left behind. |
| StorageQueue.DeadUnseenIff | packages/azure-services/src/azure-queue/queue.ts:29-51 | In every run a message in the dead queue was never handed to a consumer exactly when its first delivery was lost in a failed call or is in one under way. |
| StorageQueue.DeletionMisses | packages/azure-services/src/azure-queue/queue.ts:122-145 | The deletion behind a copy leaves the message in the main queue exactly when it was there and the deletion failed or its receipt was superseded. |
| StorageQueue.DeadCount | packages/azure-services/src/azure-queue/queue.ts:138-145 | A message is in the dead queue fewer times than it was received, at most once more than copies of it missed their deletion, and more than once exactly when one did besides another copy. |
| StorageQueue.StepKeepsHistory | packages/azure-services/src/azure-queue/queue.ts:29-145 | Every step keeps: each first delivery is in a call, handed out or lost, one of the three; and the dead queue holds each copy once. |
| StorageQueue.DeadWithoutBeingHanded | packages/azure-services/src/azure-queue/queue.ts:122-145 | A run after which a message stands twice in the dead queue and once in the main queue though no consumer ever received it. |
| StorageQueue.BatchesConcat | packages/azure-services/src/azure-queue/queue.ts:53-67 | Which messages are handed over, and which texts copied, does not depend on how they were batched. |
| StorageQueue.BatchIsSplit | packages/azure-services/src/azure-queue/queue.ts:38-48 | The batch splits into the messages handed over, all within the threshold, and those copied to the dead queue, all beyond it: each message is in one part. |
| StorageQueue.Queue.GetMessages | packages/azure-services/src/azure-queue/queue.ts:29-51 | Hands over the messages of its batch within the dequeue threshold, in order, and copies the others' texts to the dead queue, in order. |
| StorageQueue.Queue.GetMessagesWithTotalCount | packages/azure-services/src/azure-queue/queue.ts:53-67 | For a total of at least 1 it terminates with at most that many messages, the live ones of all it received, asks storage for 1 to 32 at a time, and stops short only after a batch without live messages; other totals are refused by storage. |
| PagedQuery.ReadItems | packages/azure-services/src/azure-cosmos/cosmos-client-wrapper.ts:125-175 | Skips empty fetches only: a response is exactly the first page with items or ends the query, and together with what its token continues it is the flat result; statuses 200, 204 and the fetch's failure. |
| PagedQuery.ExecuteQueryWithContinuationToken | packages/azure-services/src/storage/cosmos-container-client.ts:233-245 | Returns the concatenation of all pages in order, or throws the first failure. |
| PagedQuery.CosmosQueryResultsIterable.Next | packages/service-library/src/data-providers/cosmos-query-results-iterable.ts:15-28 | Yields the first item still to come and leaves the rest; fetches in order, each page at most once, and none while items are pending. |
| PagedQuery.CosmosQueryResultsIterable.ForAwait | packages/storage-web-api/src/converters/website-document-response-converter.ts:51-55 | A loop over the iterator sees exactly the items still to come, and the failure that ends them. |
| PagedQuery.ReadBothWays | packages/service-library/src/data-providers/cosmos-query-results-iterable.ts:15-28 | Eager and lazy reading agree on items and failure for any split into pages. |
| PagedQuery.FlatIsConcat | packages/azure-services/src/storage/cosmos-container-client.ts:233-245 | The flat result is the concatenation of the pages up to the first failure. |
| TokenCache.AzureManagedCredential.GetMsiToken | packages/azure-services/src/credentials/azure-managed-credential.ts:57-78 | A kept token is returned and nothing changes; otherwise the new one is returned and cached until its expiry less 1200 seconds; a failed request changes nothing. |
| TokenCache.StepKeepsInv | packages/azure-services/src/credentials/azure-managed-credential.ts:49-78 | Every step of callers, requests and clock keeps: mutual exclusion, served tokens good, cache entries genuine, each fetched token cached or run out. |
| TokenCache.OneRequestInFlight | packages/azure-services/src/credentials/azure-managed-credential.ts:49-55 | In every interleaving at most one token request is in flight. |
| TokenCache.CallersAreAnswered | packages/azure-services/src/credentials/azure-managed-credential.ts:49-55 | Every caller that has left was given a token or an error, and while one is there somebody can go on. |
| TokenCache.ServedTokensAreFresh | packages/azure-services/src/credentials/azure-managed-credential.ts:57-78 | A served token with a lifetime above 1200 seconds has at least 1200 seconds left, less the time its own answer travelled. |
| TokenCache.FetchesAreSpaced | packages/azure-services/src/credentials/azure-managed-credential.ts:57-78 | Successive tokens for a URL are received more than the earlier lifetime less 1200 seconds apart; none follows one of exactly 1200 seconds. |
| TokenCache.BadLifetime | packages/azure-services/src/credentials/azure-managed-credential.ts:74-75 | Tokens of a lifetime are never served after their expiry (up to the latency) exactly when the lifetime is not 1200 seconds. |
| HashSet.ApplyKeepsValid | packages/common/src/hash-set.ts:11-54 | Every operation keeps the keys distinct and those of the dictionary, and the iterator within its snapshot. |
| HashSet.HashSet.AddKey | packages/common/src/hash-set.ts:11-13 | The new state: the key appended unless present, its value replaced, the iterator untouched. |
| HashSet.HashSet.RemoveKey | packages/common/src/hash-set.ts:19-22 | The new state: key and value gone, the order of the others and the iterator untouched. |
| HashSet.LastWriteWins | packages/common/src/hash-set.ts:11-26 | After any operations a key has the value last added under it, none after a removal, and its first value if it was never touched. |
| HashSet.KeysInBirthOrder | packages/common/src/hash-set.ts:11-30 | After any operations the keys there are those last added and not removed since, in the order of their first addition since they were last absent. |
| HashSet.HashSet.NextValue | packages/common/src/hash-set.ts:36-67 | Returns the present value of the first key ahead and leaves the others ahead, or ends the pass exactly when none is. |
| HashSet.HashSet.Values | packages/common/src/hash-set.ts:32-34 | The present values of all keys ahead in order, which from a fresh iterator are all keys; the iterator is fresh afterwards. |
| HashSet.PassVisitsSnapshot | packages/common/src/hash-set.ts:36-67 | Under any mix of additions, removals and steps, a pass visits the first keys of its snapshot in order and nothing else. |
| HashSet.PassVisitsOnce | packages/common/src/hash-set.ts:36-67 | No key is visited twice in a pass. |
| HashSet.PassEnds | packages/common/src/hash-set.ts:36-54 | A pass ends exactly when every key of its snapshot has been visited. |
| RetryLoops.ExecuteWithRetries | packages/common/src/system/retry-helper.ts:16-40 | Returns the first success or throws the last error; calls the handler once with each earlier error, in order; sleeps one interval longer each time. |
| RetryLoops.AttemptsBounded | packages/common/src/system/retry-helper.ts:23-39 | At most the limit of attempts, reached with the last error thrown when all fail. |
| RetryLoops.SleepBounded | packages/common/src/system/retry-helper.ts:30-35 | The time slept is at most that of a run in which all attempts fail, and equal to it then. |
| RetryLoops.MaxSleepClosed | packages/common/src/system/retry-helper.ts:30-35 | That time is interval * n(n-1)/2. |
| RetryLoops.NestedRetries | packages/storage-api-client/src/web-insights-storage-client.ts:165-185 | One request makes at most m*n token attempts and sleeps at most m*s*n(n-1)/2 + r*m(m-1)/2; both are reached when no token is ever granted. |
| RetryLoops.NoTokenNoAnswer | packages/storage-api-client/src/web-insights-api-credential.ts:39-49 | Without a token every outer attempt fails, and the request throws the error of the very last token attempt. |
| RetryLoops.FirstSuccessWins | packages/storage-api-client/src/web-insights-storage-client.ts:165-185 | A request returns what is answered, with the first token granted in that attempt, at the first attempt that gets a token and an answer, after exactly that many attempts. |
| RetryLoops.AttemptWithToken | packages/storage-api-client/src/web-insights-storage-client.ts:177-185 | An attempt is the request signed with the first token granted in it. |
| HealthPolling.Evaluation.Run | packages/health-client/src/deployment-health-checker.ts:18-63 | With a positive interval it terminates; it returns only after a 200 report of `pass` and throws only after an expired check, with no such report or check earlier; it makes at most floor(timeout / interval) + 2 polls (one when the timeout is negative), and it ends when its requests and waits are over. |
| HealthPolling.GoingOnIsEarly | packages/health-client/src/deployment-health-checker.ts:65-69 | Polling goes on only while whole intervals fit into the timeout. |
| HealthPolling.OneEnd | packages/health-client/src/deployment-health-checker.ts:29-62 | Polls and verdict are determined by the answers and times. |
| HealthPolling.PassesIffSeenInTime | packages/health-client/src/deployment-health-checker.ts:29-62 | A release passes exactly when some poll reports `pass` and no earlier check had expired. |
| HealthPolling.BoundIsReached | packages/health-client/src/deployment-health-checker.ts:29-62 | With an exact clock and no pass the run makes exactly floor(timeout / interval) + 2 polls, or one when the timeout is negative. |
| HealthPolling.EndsIffIntervalPositive | packages/health-client/src/deployment-health-checker.ts:29-62 | Such a run ends exactly when the interval is positive or the timeout negative. |
| ChangeLogCsv.RoundTrip | tools/get-change-log-for-release.js:72-95 | The change log reads back as the header and one record of nine original fields per commit exactly when it is empty or neither version nor any date holds a quote. |
| ChangeLogCsv.Columns | tools/get-change-log-for-release.js:72-95 | Each record has one field for each of the nine headers, with what belongs under it; links carry the first seven characters of the hash. |
| ChangeLogCsv.ScanEscaped | tools/get-change-log-for-release.js:49-51 | Escaped text inside quotes reads as the original, whatever follows. |
| ChangeLogCsv.ReadWasEscaped | tools/get-change-log-for-release.js:49-51 | The converse: a quoted cell that reads as some text was written as that text escaped. |
| ChangeLogCsv.RawIsNotEscaped | tools/get-change-log-for-release.js:72-88 | A cell with a quote written without escaping never reads as itself. |
| ChangeLogCsv.ScanOneLine | tools/get-change-log-for-release.js:85-88 | A line reads as the record of its commit when version and date are clean, and as something else otherwise. |
| ChangeLogCsv.LinksTell | tools/get-change-log-for-release.js:60-70 | Different short hashes have different links, and so have different pull request numbers, or none. |
| ChangeLogCsv.CommitTypeMeaning | tools/get-change-log-for-release.js:30-39 | The commit type is the trimmed text in front of the first colon, and NONE without a colon. |
| ChangeLogCsv.WhiteSpaceIs | tools/get-change-log-for-release.js:38-38 | The characters that are trimmed. |
| ChangeLogCsv.PrNumberMeaning | tools/get-change-log-for-release.js:54-58 | The number is the digits of a final `(#digits)`, and empty exactly when the message does not end so. |

## Left out

- Negative hash keys and more than 2^31 buckets: the published listing takes unsigned keys and 32-bit bucket numbers.
- The published listing divides before it multiplies, in doubles; it is compared in exact arithmetic.
- SHA-256 and FNV-1a: the hash is an arbitrary function of the lower-cased text.
- Lower-casing is modelled for the letters A to Z, which are the only letters a GUID node can hold.
- BigInt ignores white space around the digits of a malformed GUID; the model calls such a timestamp malformed.
- Updates that change a document's identifier or its links to its parent, updates of documents that do not exist (which are written as they are), and website documents, which share one constant partition.
- The `_ts` of a document changes with each of its writes; for the queries it is one more field.
- PartitionRouting.PartitionFilterIsComplete: the order and the single row of the queries for the newest document are not modelled; they choose from the set that is.
- DocumentMerge.MergeAgain: the order of an object's keys, and objects with a `length` property that meet an array on the other side, are not modelled.
- UpdateProtocol.NoUpdateIsLost: deletions during updates and reads that fail otherwise than with 404 are no events of the interleaving; the single call covers the failed read.
- UpdateProtocol.UpdateIsLostIff: the request of the racing creation has no undefined elements in its arrays, as no JSON text has; stored documents never have any.
- UpdateProtocol.CosmosContainerClient.UpsertItem: a conditional upsert of a missing document is taken to be answered with 412.
- The loop of tryExecuteOperation, which repeats an operation on transient statuses until a timeout.
- PostWebsite.PostWebsiteController.HandleRequest: pages are created one after another, where the source creates them concurrently; failures while pages are created are not modelled.
- PostWebsite.RepeatedPostCreatesNothing: no other post runs in between, and the stored website has its identifier and a list of pages, as every post leaves it (FirstPostStores).
- PostWebsite.PostWebsiteController.CreateOrUpdateWebsite: a `partitionKey` in the request is a string, the type the storage client declares for it.
- StorageQueue.Queue.GetMessages: failures between its steps are in the state machine, not in the loop.
- The time to live of queue messages, creating messages, and the queue's own configuration and existence checks.
- TokenCache.BadLifetime: a token is issued while its request is in flight; a service that answers with an older token is not modelled.
- Keys of the hash set that look like array indices (they come first, in numeric order) or are names that every JavaScript object inherits.
- RetryLoops.ExecuteWithRetries: error handlers that throw, and the wrapping of thrown values that are no errors.
- HealthPolling.Evaluation.Run: needs a positive interval and waits that last as long as asked; EndsIffIntervalPositive shows what happens without.
- ChangeLogCsv.RoundTrip: the line break is LF; reading the git log, command line and output file are plumbing.
- Azure SDK clients, HTTP, dependency injection, logging, telemetry, configuration, remaining controllers, validators and field-copying converters: plumbing without a hard property.
