# Storage gateway: a verified model

The gateway is an S3 front for object stores of other kinds (Google Cloud Storage, Azure, a local
directory). Tenants see gateway buckets; each is mapped to a backend bucket and, optionally, a key
prefix inside it. This project models the parts of the gateway that compute or keep state, in Dafny,
and proves what they do on all inputs, for all runs, under every failure pattern of the services below.

`dafny verify dfyconfig.toml` checks everything.

## Layout

| file | part of the gateway |
|---|---|
| `Strings`, `Strconv`, `Sorting` | Go strings in byte order, numerals, sorting |
| `Models` | key prefixes and mapping values |
| `Compose` | the Google Cloud Storage compose tree, part names, multipart calls |
| `Chunked` | the aws-chunked decoder |
| `Listing`, `ListingRun`, `ListingTranslation`, `ListingTerms` | one page, a whole run of pages, a run through a prefix, and what a listing is in terms of its entries |
| `Database`, `CachedRegistry`, `ClientPool`, `Gateway` | tables, Redis cache, client pool and the handlers over them, one operation after the other |
| `Staleness`, `PoolSteps` | the cache and the pool under any interleaving |
| `Multipart`, `MultipartHandlers` | uploads as state machines over both backends; the handlers as steps of them |
| `Aborts` | which staged parts an abort reaches |
| `MultipartSteps` | uploads on Google Cloud Storage when requests overlap |
| `Tenancy`, `CachedTenancy` | several gateway buckets on one backend bucket, without and with the bucket cache |
| `Canonical`, `CanonicalRequest` | the canonical request of Signature Version 4 |
| `Ranges` | byte ranges in 64-bit arithmetic |
| `Crypto`, `Rotation` | framing of encrypted values, rotation of the master key |

Code that changes things is modelled by classes and methods with loops; code that computes, by functions.
A call that may fail draws its outcome freely, so a contract that mentions no outcome holds for all of them.
Ghost counters (`failures`, `failedDeletes`, `refusals` and the like) grow with each outcome drawn as a failure;
that something fails only by a failure means that one of them has grown.
The clock, random identifiers and random nonces are drawn freely too, under the assumption stated at each:
clock readings increase strictly, identifiers and upload times are not drawn twice.

## Where the code does not do what it is documented to do

- README.md:340 of the gateway promises that the key prefix is applied to every operation. The bucket cache
  stores the bucket name without the prefix, so a cache hit has an empty prefix: a hit equals the uncached
  answer if and only if the tenant is refused or the mapping has no prefix (`BucketHitEqualsUncachedIff`; the
  mapping "b/p" in `SecondAnswerLosesPrefix`). Gateway buckets that share a backend bucket stay independent if
  and only if none with a prefix is ever resolved from the cache (`IndependentIff`). Through hits, gets and
  listings are the bucket's own if and only if it has no prefix (`HitsGetOwnIff`, `HitsListOwnIff`); which other
  objects they show, and where a multipart upload completed on a hit ends up, is in `HitGetsIff`,
  `HitListsOtherIff` and `MultipartThroughHit`.
- A page token of the local backend is the first key *not* returned, and the next page starts *after* the
  token: every page link loses the key it is named after. A listing returns all keys if and only if one page
  holds them (`NothingLostIffOnePage`); exactly the link tokens are lost (`RunPartitions`).
- A range `last < first` is answered with a part where RFC 9110 has an invalid range (`ReversedRangeExample`),
  `last = 2^63-1` with `first > 0` overflows, and `last > 2^63-1` is refused (`TooLargeRangeExample`). The local
  answer to `first-last` is the RFC's if and only if the range starts behind the object, or none of the three is
  the case (`RangeIsExactIff`). `first-` is always answered as the RFC's (`OpenRangeIsExact`), and suffix ranges
  are always refused (`SuffixRefused`).
- An abort on Google Cloud Storage deletes by key prefix, and so reaches staged parts of other uploads: if and only
  if the other was created under a backend key that is the aborted one's key, a slash and its time, or continues
  that behind a slash (`AbortReachesOtherIff`; four requests in `AbortTakesOthersPart`). An upload that lost parts
  cannot complete with them before they are sent again, and no completion is wrong for it
  (`GcsCompletionIsRight`). The clean-up after a creation that could not be recorded reaches as far
  (`UnrecordedReachesIff`). On the local backend an abort reaches its own upload only (`LocalAbortIsIsolated`).
- A failed completion on the local backend overwrites the object that was there exactly when the new one has been
  created (`LocalBackend.CompleteMultipartUpload`); GCS keeps it (`MissingPartLosesObject` has both).
- With a cache ttl that is not positive Redis never expires an entry, and staleness is unbounded; it is bounded if
  and only if the ttl is positive (`BoundedIffTtlPositive`).
- Pool lookups can leave a client for another config than the database's if and only if one is there already,
  or the slot is empty and a lookup under way, or an answer of the registry that lookups can still bring, is out
  of date (`StaleClientIff`). `OverlapKeepsOldClient` and `CachedAnswerKeepsOldClient` are runs of both kinds;
  nothing is left to remove the client. When operations do not overlap and no eviction is lost, neither arises
  (`Gateway.Handler`).
- A body cut inside chunk data makes `Read` return no bytes and no error for ever (`CutDataNeverEnds`). A cut does
  so if and only if it lies behind the header line of a chunk and before the last byte of its data (`DataCutIff`;
  the stream "5\r\nhel" in `CutDataExample`). The decoder never takes a cut body for complete
  (`TruncationIsSeen`).
- A header line with a negative size makes a slice expression of `Read` panic. The model calls that `SliceError`,
  and it comes exactly when such a line is next (`ChunkedReader.Read`, `NegativeIffHeader`; the line "-1" in
  `NegativeSizeExample`).
- A comment in completeMultipartUpload says that the tracking record goes whatever the outcome; the code
  returns before that when the backend fails (`GcsGateway.CompleteMultipartUpload`, `LocalGateway` likewise).

## Model

Members of `CachedRegistry.CachedManager` and `Gateway.Handler` speak of operations that do not overlap, and
what they say of the current answer or client holds while no eviction has been lost. Their contracts say when
one is: when Redis refuses an eviction, when the listing before the evictions fails, or when the database
reports an error for a write it has done.

| member | source | states |
|---|---|---|
| Compose.GcsBucket.ComposeTree | internal/backend/gcs.go:288-317 | Whatever composes and deletes fail, and whatever failed ones have been done: `dest` is the in-order concatenation of the sources or untouched, the former on success; on failure it is made only if a reply was lost; every other key is unchanged; the only new keys are temporary names of this call, no more of them than deletes were refused and replies lost; it succeeds if the sources exist and no compose failed; it makes exactly `Calls(n)` calls on success and never more. |
| Compose.GcsBucket.ComposeLevel | internal/backend/gcs.go:294-308 | One level of the tree: chunks of at most 32 become temporary objects standing for the sources in order, or the level is given up with everything restored but temporaries that are stuck or unknown, no more than deletes were refused and replies lost. |
| Compose.GcsBucket.ComposeDirect | internal/backend/gcs.go:319-327 | One compose of at most 32 sources: done or not, and reported as done only if it is. |
| Compose.GcsBucket.DeleteKeys | internal/backend/gcs.go:329-334 | The keys go but for some, no more of those than deletes were refused: a refusal does not keep the others from being deleted. |
| Compose.CallsBound | internal/backend/gcs.go:288-317 | For n >= 1 sources, 31 times the calls is at most n - 1 plus 31 times the levels. |
| Compose.CallsExamples | internal/backend/gcs.go:288-317 | One call up to 32 sources, 3 for 33, 33 for 1024 and 36 for 1025. |
| Compose.LevelsAreLogarithm | internal/backend/gcs.go:288-317 | For n >= 2, 32^(levels-1) < n <= 32^levels. |
| Compose.StagedStep | internal/backend/gcs.go:296-308 | Composing the next chunk extends the intermediates to stand for the longer prefix of the sources. |
| Compose.LevelDone | internal/backend/gcs.go:310-316 | The tree over the intermediates followed by their deletion is the assembly of the sources themselves, on success and on failure. |
| Compose.ConcatSplit | internal/backend/gcs.go:296-308 | The contents of a list of sources are those of its two halves, one after the other. |
| Compose.ConcatOne | internal/backend/gcs.go:296-308 | The contents of one source are its bytes. |
| Compose.MadeKeysArePast | internal/backend/gcs.go:302 | Temporary names already made never come up again, as the clock in them increases. |
| Compose.TmpKeyInjective | internal/backend/gcs.go:302 | Temporary names with another index or clock reading are different. |
| Compose.PartKeyInjective | internal/backend/gcs.go:354-356 | A part name determines upload ID and part number, though upload IDs contain slashes and numbers may be any integers. |
| Compose.StagingNames | internal/backend/gcs.go:354-356 | The names of an upload, of a staged part and of a temporary object, written out. |
| Compose.PartPrefixReachesIff | internal/backend/gcs.go:272 | The part prefix of an upload covers a part of an upload ID if and only if that ID is its own or continues it behind a slash. |
| Compose.GcsBucket.UploadPart | internal/backend/gcs.go:228-243 | Success means the part is the body; a failed upload has stored a beginning of it, or nothing; it fails if and only if reading, writing or the final request does. |
| Compose.GcsBucket.CompleteMultipartUpload | internal/backend/gcs.go:245-268 | The object is the listed parts in listed order, if it was composed; parts are handed to deletion only then, and always then unless a reply was lost; nothing else changes but for no more temporary objects than deletes were refused and replies lost; an error can be reported for an object that is there, and with all parts present is reported only when a request failed. |
| Compose.GcsBucket.AbortMultipartUpload | internal/backend/gcs.go:270-285 | Only keys under the upload's part prefix go; when the listing does not fail, all of them but for no more than deletes were refused; it fails if and only if the listing does. |
| Chunked.ChunkedReader.Read | internal/api/s3/objects.go:333-372 | On any byte stream, buffer sizes and short reads: the bytes returned are the next of the stream's decoding with nothing lost; EOF comes exactly when a complete stream is used up, the panic exactly when a negative size is next, each header error exactly when that defect is next; a read returns a byte unless chunk data is cut short, none is wanted or none was ready. |
| Chunked.ReadsDeliver | internal/api/s3/objects.go:333-372 | The bytes of any sequence of reads, joined, are the payload up to what is still to come. |
| Chunked.JoinedStep | internal/api/s3/objects.go:333-372 | Bytes read later are joined behind those read before. |
| Chunked.CutDataNeverEnds | internal/api/s3/objects.go:368-371 | Once chunk data is cut short every further read gives no byte and no error, unless the transport reports one. |
| Chunked.DataCutIff | internal/api/s3/objects.go:359-371 | A cut of a well-formed stream ends inside data if and only if it lies behind the header line of some chunk and before the last byte of its data. |
| Chunked.CutDataExample | internal/api/s3/objects.go:359-371 | The stream "5\r\nhel" is cut inside data, after the bytes "hel". |
| Chunked.NegativeIffHeader | internal/api/s3/objects.go:347-364 | A stream at a header line makes Read panic if and only if the line announces a negative size. |
| Chunked.NegativeSizeExample | internal/api/s3/objects.go:347-364 | The line "-1", whatever follows it, is one. |
| Chunked.ChunkedReader.NextHeader | internal/api/s3/objects.go:337-357 | Header lines are consumed without changing what is still to be decoded; EOF exactly at the zero-size line. |
| Chunked.ChunkedReader.ReadData | internal/api/s3/objects.go:359-371 | The bytes read are the next of the chunk, and its line end goes with the last of them. |
| Chunked.DecodeUndoesEncode | internal/api/s3/objects.go:320-373 | For every payload, chunking, hexadecimal spelling of the sizes and extensions, decoding the framed stream gives the payload, whatever follows the zero-size line. |
| Chunked.TruncationIsSeen | internal/api/s3/objects.go:337-372 | Cut anywhere, a well-formed stream decodes to a prefix of its payload, and as complete if and only if the whole zero-size line arrived, then with the whole payload. |
| Chunked.DecodeChunk | internal/api/s3/objects.go:320-322 | A framed chunk in front of a stream decodes to its data in front of the stream's decoding. |
| Chunked.DecodeJunk | internal/api/s3/objects.go:366-371 | Whatever stands between the data of a chunk and the next newline is skipped. |
| Chunked.DecodeCutChunk | internal/api/s3/objects.go:337-372 | A chunk cut short decodes to a prefix of its data and never as complete; which of the two ends it has is decided by where the cut lies. |
| Chunked.DecodeDataStep | internal/api/s3/objects.go:359-364 | Reading part of the chunk data first makes no difference to the decoding. |
| Chunked.HeaderReadBack | internal/api/s3/objects.go:338-350 | A header line, with or without extension, is read back as the size it announces. |
| Chunked.SizeLine | internal/api/s3/objects.go:338-350 | Line end, extension and the spaces and tabs around it do not count for a size. |
| Chunked.NoSizeLine | internal/api/s3/objects.go:347-350 | A size with anything but hexadecimal digits of either case behind its sign is refused. |
| Chunked.SizeLineExamples | internal/api/s3/objects.go:338-350 | "1F", " 1f " and "+1f;x" announce 31 bytes. |
| Chunked.NoSizeExamples | internal/api/s3/objects.go:347-350 | "0x1f" and "1 f" are refused. |
| Chunked.DecodeExample | internal/api/s3/objects.go:320-373 | A whole stream of one chunk with an extension decodes to its two bytes, complete. |
| Chunked.HexIsNumeral | internal/api/s3/objects.go:347 | The numeral a client prints for a length is one the decoder reads as that length. |
| Listing.ListObjects | internal/backend/local.go:160-223 | The code's loop computes `Page`: the first max-keys matching plain keys, the groups of the matching keys below the first plain key left out, each once and in order, and that key as the token. What matching and groups are is in ListingTerms. |
| Listing.GroupIsShared | internal/backend/local.go:190-200 | Every key that starts with a group belongs to that group. |
| Listing.GroupsFollowKeys | internal/backend/local.go:190-200 | Groups come in the order of their keys. |
| Listing.GroupsAscend | internal/backend/local.go:178-218 | Over sorted entries the groups are found in strictly ascending order. |
| Listing.SortingGroupsIsIdle | internal/backend/local.go:220 | The final sort of the common prefixes changes nothing. |
| Listing.CutHere | internal/backend/local.go:202-206 | Stopping at a plain key with a full page gives that page. |
| ListingTerms.ReturnedKeys | internal/backend/local.go:178-206 | Every key of a page is an entry that starts with the prefix, lies strictly behind start-after and token where given and before the next token, and has no delimiter behind the prefix. |
| ListingTerms.NothingElseLeftOut | internal/backend/local.go:178-206 | Every entry that starts with the prefix strictly behind both markers is returned, or starts with a returned common prefix longer than the prefix, or is at or behind the next token. |
| ListingTerms.ReturnedGroups | internal/backend/local.go:190-200 | Every common prefix is the beginning, through the first delimiter behind the prefix, of an entry that starts with the prefix strictly behind both markers. |
| ListingTerms.PageNumbers | internal/backend/local.go:160-223 | A page has at most max-keys keys, 1000 when none are asked for, in order; as many as that, and an entry's key for a token, if it is truncated; and no token if not. |
| ListingTerms.StartAfterExample | internal/backend/local.go:183-185 | Keys a, b and c after b: c alone. |
| ListingTerms.DelimiterExample | internal/backend/local.go:190-200 | Keys a/x, a/y and b with delimiter "/": the common prefix a/ and the key b. |
| Strings.LessIsBytewise | internal/backend/local.go:183-188 | The order is that of Go strings: by the first byte that differs, and beginnings first. |
| ListingRun.AfterToken | internal/backend/local.go:186-206 | After a truncated page the token's own key is gone, everything behind it is still to come, and no group is met again. |
| ListingRun.PlainKeySeparates | internal/backend/local.go:176-206 | No group has keys on both sides of an ungrouped key. |
| ListingRun.RunPartitions | internal/backend/local.go:178-218 | Over a whole run the returned keys, woven with the link tokens, are exactly the matching plain keys in order. |
| ListingRun.RunGroups | internal/backend/local.go:176-206 | Over a whole run every common prefix is on exactly one page, although each page forgets the ones before. |
| ListingRun.RunShape | internal/backend/local.go:202-221 | Every page but the last is full and truncated with a token; the last is not truncated; keyCount is the number of keys returned. |
| ListingRun.RunCounts | internal/backend/local.go:178-221 | A run returns the matching keys less one for each page link, and has the number of pages that follows from their number and the page size. |
| ListingRun.RunFollows | internal/api/admin/browse.go:287-316 | Each page is followed by the page for the same question with its token. |
| ListingRun.RunAscends | internal/backend/local.go:178-218 | Returned keys and tokens ascend strictly over the run. |
| ListingRun.NothingLostIffOnePage | internal/backend/local.go:186-206 | A run returns every matching plain key if and only if one page holds them all. |
| ListingRun.LostKeyExample | internal/backend/local.go:186-206 | Three keys listed two at a time: the third is never shown. |
| ListingRun.BrowseSizeStream | internal/api/admin/browse.go:287-316 | The size stream ends; it is done if and only if every page's listing answers, and has then counted the keys with the prefix less one for each page link and added up their sizes; when a listing fails it has the totals of the pages before. |
| ListingTranslation.RunTranslated | internal/api/s3/buckets.go:92-145 | Page for page, the backend's run is the translation of the gateway's run over its own keys: contents, groups, order, truncation and tokens. |
| ListingTranslation.PageTranslated | internal/backend/local.go:178-218 | One backend page is the translation of the gateway's page. |
| ListingTranslation.PlainTranslated | internal/backend/local.go:178-218 | Plain keys and groups of the backend are those of the gateway, translated. |
| ListingTranslation.MatchesTranslated | internal/registry/models.go:90-98 | A translated key matches the translated question exactly when the key matches the question, empty prefix and markers included. |
| ListingTranslation.GroupTranslated | internal/registry/models.go:90-107 | Grouping commutes with translation. |
| ListingTranslation.GatewaySorted | internal/registry/models.go:102-107 | The gateway's keys are in order because the backend's are. |
| ListingTranslation.ListObjectsV2 | internal/api/s3/buckets.go:77-148 | The handler's answer is the stripped backend page for the translated question, the token passed through. What that is in the client's keys is in ListingTerms. |
| ListingTranslation.ListingIsTransparent | internal/api/s3/buckets.go:77-148 | With a token the gateway issued, or none, the answer is that of a backend holding the gateway's keys and nothing else, and the token it issues is good for the next call. |
| ListingTerms.AnsweredKeys | internal/api/s3/buckets.go:77-148 | Every key answered is, behind the mapping's prefix and a slash, that of a backend object; it starts with the prefix asked for and lies strictly behind start-after, or behind marker where that is not given, and behind the token. |
| ListingTerms.NothingElseUnanswered | internal/api/s3/buckets.go:77-148 | Every object under the mapping's prefix whose key answers the question is among the answer's keys, or starts with one of its common prefixes, or is at or behind the key of its next token. |
| ListingTerms.AnswerNumbers | internal/api/s3/buckets.go:77-148 | The answer repeats prefix and max-keys, counts its keys, has them in order, is full when truncated and has no token when not. |
| ListingTerms.QuestionIs | internal/api/s3/buckets.go:107-111 | Start-after wins over marker. |
| ListingTerms.MaxKeysAre | internal/api/s3/buckets.go:83-91 | max-keys is taken from 1 to 1000 and is 1000 otherwise. |
| Models.TranslationRoundTrip | internal/registry/models.go:90-107 | Translation there and back is the identity on every gateway key and every backend key under the prefix. |
| Models.TranslationKeepsOrder | internal/registry/models.go:90-98 | Translation keeps order, equality and the prefix relation, in both directions. |
| Models.ParseReadsBack | internal/registry/models.go:114-119 | A mapping value is read back as the bucket and prefix it was written as. |
| Models.DocumentedMapping | internal/registry/models.go:109-119 | The mapping value of the gateway's documentation is split as it says. |
| Models.DocumentedKeys | internal/registry/models.go:90-107 | The keys of the gateway's documentation are translated as it says. |
| Database.PgManager.LookupAccessKey | internal/registry/postgres.go:28-46 | The one row with the key that is not revoked; not found only if there is none; a database error only when the statement failed. |
| Database.PgManager.ResolveBucket | internal/registry/postgres.go:48-79 | An answer is, field by field, that of the mapping's row and its store's: owner, type, config, presigned mode and origins, the mapping value split; refused to other tenants only, not found only without a row, a database error only when the statement failed. |
| Database.PgManager.GetBucketAllowedOrigins | internal/registry/postgres.go:81-97 | The origins of the store the bucket is mapped to, none for an unknown bucket. |
| Database.PgManager.ListBucketMappings | internal/registry/postgres.go:405-427 | All the mappings of the store and no others. |
| Database.PgManager.DeleteStore | internal/registry/postgres.go:349-360 | The store goes, and its mappings with it, if and only if the tenant owns it and no statement fails; the constraints are kept; a reported database error may hide that it has been done. |
| Database.PgManager.CreateBucketMapping | internal/registry/postgres.go:366-384 | A mapping is added if and only if its name is unused, its store exists and no statement fails; a reported database error may hide that it has been. |
| Database.SameMappingFound | internal/registry/postgres.go:48-79 | A change of the tables that leaves a bucket's mapping alone leaves its lookup alone. |
| Database.AnswerIsRow | internal/registry/postgres.go:48-79 | The answer to a lookup, field by field. |
| Database.BackendShows | internal/registry/postgres.go:315-329 | After a store's config and mode are changed its own buckets resolve with the new ones, and every other lookup is as before. |
| Database.OriginsShow | internal/registry/postgres.go:331-347 | The same for its origins. |
| Database.StoreDeletionShows | internal/registry/postgres.go:349-360 | After a store is deleted its buckets are not found, and every other lookup is as before. |
| Database.MappingShows | internal/registry/postgres.go:366-384 | A new mapping's bucket, not found before, is resolved for the tenant of its store and refused to others; every other lookup is as before. |
| Database.MappingDeletionShows | internal/registry/postgres.go:429-440 | After a mapping is deleted its bucket is not found, and every other lookup is as before. |
| Database.KeyShows | internal/registry/postgres.go:158-177 | A new access key is found by its name, and every other lookup is as before. |
| Database.ReadonlyShows | internal/registry/postgres.go:203-220 | Lookups of a key see its new flag and nothing else new. |
| Database.RevocationShows | internal/registry/postgres.go:222-235 | A revoked key is not found, and every other lookup is as before. |
| CachedRegistry.BucketHitIsExactIff | internal/registry/cache.go:47-153 | What an entry keeps of a joined mapping is all but the prefix, hence everything if and only if there is none. |
| CachedRegistry.BucketHitEqualsUncachedIff | internal/registry/cache.go:100-153 | A coherent positive hit equals the uncached answer if and only if the tenant is refused or the mapping has no prefix. |
| CachedRegistry.SecondAnswerLosesPrefix | internal/registry/cache.go:100-153 | The mapping "b/p" resolved twice: the first answer has the prefix, the entry it leaves answers without. |
| CachedRegistry.KeyHitEqualsUncachedIff | internal/registry/cache.go:57-98 | A coherent positive key hit equals the uncached answer if and only if the row has no ID and no fraction of a second. |
| CachedRegistry.KeyHitIsExactIff | internal/registry/cache.go:40-75 | A key hit has the row's tenant, secret and flag, its time to the second and no ID. |
| CachedRegistry.CachedManager.LookupAccessKey | internal/registry/cache.go:57-98 | Coherence is kept; field by field an answer is the current row, on a hit without ID and fraction of a second; with Redis up a live entry answers, and anything else is cached for ttl, or 30 seconds if not found; a database error comes only from a failed statement. |
| CachedRegistry.CachedManager.Elapse | internal/registry/cache.go:57-153 | The passing of time keeps coherence. |
| CachedRegistry.CachedManager.ResolveBucket | internal/registry/cache.go:100-153 | Coherence is kept; field by field an answer is the mapping's row and its store's, on a hit without the prefix; with Redis up a live entry answers, and anything else is cached for ttl, or 30 seconds if not found; no answer names another tenant's bucket; a database error comes only from a failed statement. |
| CachedRegistry.CachedManager.GetBucketAllowedOrigins | internal/registry/cache.go:227-237 | Cached or not, the origins are those of the store the bucket is mapped to, none for an unknown bucket; it fails if and only if a statement does. |
| CachedRegistry.CachedManager.InvalidateBucketsForStore | internal/registry/cache.go:306-315 | One eviction is asked for every bucket mapped to the store and for no other, whatever becomes of the others, unless the listing fails; a bucket whose eviction is carried out is gone, no other goes and nothing is added. |
| CachedRegistry.CachedManager.UpdateStoreBackend | internal/registry/cache.go:239-244 | The row is changed if and only if the tenant owns it and no statement fails, and every live positive entry is again the projection of the current row, unless an eviction is refused. |
| CachedRegistry.CachedManager.UpdateStoreAllowedOrigins | internal/registry/cache.go:246-251 | The same for the origins. |
| CachedRegistry.CachedManager.DeleteStore | internal/registry/cache.go:253-258 | Evicting before deleting keeps coherence, the cascade to the mappings included, even when the database hides that it has deleted. |
| CachedRegistry.CachedManager.CreateBucketMapping | internal/registry/cache.go:260-262 | Coherence is kept though nothing is evicted. |
| CachedRegistry.CachedManager.DeleteBucketMapping | internal/registry/cache.go:272-287 | The mapping goes and so does its entry; the loop always finds it. |
| CachedRegistry.CachedManager.CreateAccessKey | internal/registry/cache.go:179-181 | Coherence is kept though nothing is evicted. |
| CachedRegistry.CachedManager.UpdateAccessKeyReadonly | internal/registry/cache.go:183-191 | The flag changes and the entry with the old one is evicted. |
| CachedRegistry.CachedManager.RevokeAccessKey | internal/registry/cache.go:197-213 | The key is revoked and its entry evicted; the loop always finds it. |
| CachedRegistry.StoreChangeShows | internal/registry/cache.go:239-258 | A change of one store shows only in the buckets mapped to it: coherence survives if those are not cached. |
| CachedRegistry.MappingChangeShows | internal/registry/cache.go:260-287 | A change of one mapping shows only in its bucket. |
| CachedRegistry.KeyChangeShows | internal/registry/cache.go:179-213 | A change of one access key shows only in that key. |
| ClientPool.ClientForIff | internal/backend/factory.go:162-170 | The client a row calls for has its type, and the config its bytes open to: twelve of nonce and the sealed text behind them. |
| ClientPool.Pool.Get | internal/backend/factory.go:153-180 | A filled slot is served and kept; an empty one is filled with the client of the caller's type and the config its bytes open to; it is refused if and only if the slot is empty and the bytes do not open or the client cannot be built, and then nothing changes. |
| ClientPool.Pool.Invalidate | internal/backend/factory.go:184-188 | The store's slot, and no other, is emptied. |
| Gateway.Handler.ResolveBucket | internal/api/s3/handler.go:91-115 | Field by field the answer is the mapping's row and its store's, the store being the tenant's own, and the client has that store's type and the config its bytes open to; it is refused only by a failure, by an entry that says not found, to another tenant, or for bytes that do not open. |
| Gateway.Handler.ResolveBrowseContext | internal/api/admin/browse.go:19-58 | The same for every browse request, with prefix, along the chain tenant, store, mapping. |
| Gateway.Handler.CreateStore | internal/api/admin/stores.go:12-68 | A store is added if and only if it has a name, one of the five types, a config and a valid mode, ID and name are unused and no statement fails; its row is stated field by field, nonce and sealed config included; the pool stays current. |
| Gateway.Handler.UpdateStoreBackend | internal/api/admin/stores.go:104-146 | It succeeds if and only if the store is the tenant's, config and mode are valid and no statement fails; then exactly the store's config and mode change, stated field by field, and the pool holds no client of the store; the pool stays current unless an eviction is lost. |
| Gateway.Handler.UpdateStoreCORS | internal/api/admin/stores.go:162-181 | Only the origins of a store of the tenant change, and do if no statement fails; cache and pool stay current. |
| Gateway.Handler.DeleteStore | internal/api/admin/stores.go:184-198 | It succeeds if and only if the store is the tenant's and no statement fails, and then the store, its mappings and its client are gone; on failure nothing is, or a database error hides that the store is. |
| Gateway.Handler.CreateBucketMapping | internal/api/admin/buckets.go:9-38 | A mapping is added if and only if the store is the tenant's, its names are not empty, ID and gateway name are unused and no statement fails; cache and pool stay current. |
| Gateway.Handler.DeleteBucketMapping | internal/api/admin/buckets.go:61-79 | Exactly the mapping goes, if and only if it is of that store of the tenant and no statement fails; cache and pool stay current. |
| Staleness.BoundedStaleness | internal/registry/cache.go:57-153 | With a positive ttl, in every interleaving and with evictions lost, each live entry is what the database said at an instant, and has been set since for less than ttl, 30 seconds for "not found"; the rest of its age is its reader's own delay. |
| Staleness.HeldIsRow | internal/registry/cache.go:40-55 | What an entry holds is, field by field, a row of the tables, and "not found" means that there is none. |
| Staleness.BoundedIffTtlPositive | internal/registry/cache.go:57-153 | That bound holds in every run if and only if the ttl is positive; zero and negative durations never expire. |
| Staleness.RevokedKeyDies | internal/registry/cache.go:57-98 | An entry that still vouches for a key gone from the tables was read before it went, and less than ttl plus its reader's delay has passed since. |
| Staleness.InvStep | internal/registry/cache.go:57-153 | Each step keeps that readers and entries hold answers the database gave at a recorded instant. |
| Staleness.NextKeepsWellFormed | internal/registry/cache.go:57-153 | Steps lead from well-formed states to well-formed states. |
| Staleness.NeverExpires | internal/registry/cache.go:57-98 | For every ttl that is not positive, a run in which an entry for a revoked key outlives every bound. |
| PoolSteps.GetIsLinearizable | internal/backend/factory.go:153-180 | Under any interleaving of the lock-protected steps, every client returned was in the slot at an instant between call and return. |
| PoolSteps.InvStep | internal/backend/factory.go:153-188 | Each step keeps that, and moves a slot only from empty to filled or from filled to empty. |
| PoolSteps.ClientsAreSeparated | internal/backend/factory.go:153-188 | Between two instants with different clients in a slot there is one at which it was empty. |
| PoolSteps.DifferentClientsMeanInvalidation | internal/backend/factory.go:153-188 | Two calls served different clients had the slot emptied between the start of one and the return of the other. |
| PoolSteps.OverlapKeepsOldClient | internal/backend/factory.go:153-188 | A reachable state, with no call under way, whose slot holds a client for a config the database no longer has: the call began before the update. |
| PoolSteps.CachedAnswerKeepsOldClient | internal/api/s3/handler.go:91-115 | Another such state: the call began after the invalidation, with an answer cached before. |
| PoolSteps.StaleClientIff | internal/backend/factory.go:153-180 | From any state, lookups bringing given answers can leave a client for another config than the database's if and only if one is there already, or the slot is empty and a call under way or an answer is out of date. |
| PoolSteps.CallCanFill | internal/backend/factory.go:153-180 | A call under way can be the one that fills an empty slot, with the config it carries. |
| PoolSteps.LookupsKeepFresh | internal/backend/factory.go:153-180 | Where neither calls nor answers are out of date, no run of lookups ends with a client that is. |
| Multipart.GcsCompletionIsRight | internal/backend/gcs.go:245-268 | After any history of interleaved requests, whatever prefix each was served with, a completion that succeeds on GCS makes the object the last bytes stored for each listed part of that upload, in listed order, and touches no other user object; one that fails touches none. |
| Multipart.LocalCompletionIsRight | internal/backend/local.go:256-283 | The same on the local backend, where a failed completion may leave a partial object under its own key. |
| Multipart.BackendsBuildTheSame | internal/backend/local.go:256-283 | One history on both backends: a completion that succeeds on both builds the same object. |
| Multipart.ReceivedIsLastStored | internal/api/s3/multipart.go:89-151 | On either backend the bytes kept as received for a part are the body of the last stored upload of it in the history, back to the creation of its upload. |
| Multipart.GcsInvStep | internal/backend/gcs.go:221-285 | Every request keeps: uploads have different backend IDs, a staged part is what was last received for it, nothing is staged under an ID still to be drawn. |
| Multipart.LocalInvStep | internal/backend/local.go:229-287 | The same on the local backend. |
| Multipart.AgreeStep | internal/api/s3/multipart.go:32-256 | One request on both backends keeps them agreeing on what each upload both still track has received. |
| Multipart.GcsConcatIsAssembly | internal/backend/gcs.go:245-253 | The concatenation of an upload's staged objects is its assembly. |
| Multipart.AssemblySplit | internal/backend/gcs.go:245-253 | Parts listed later stand behind those listed before, and one part is its bytes. |
| Multipart.LocalUploadIdExample | internal/backend/local.go:229-236 | A local upload ID written out. |
| Multipart.UploadIdsDiffer | internal/backend/gcs.go:221-226 | Different clock readings make different upload IDs, on either backend. |
| MultipartSteps.PublishedPiecesAreRight | internal/backend/gcs.go:245-317 | When requests overlap in any way, a completion publishes, in listed order, bytes that were the last stored for each listed part of this very upload at an instant between its start and its end, the instants never going back; no other object changes. |
| MultipartSteps.QuietCompletionIsAssembly | internal/backend/gcs.go:245-317 | If the listed parts are the same at all instants at which parts were read, as when one compose reads them all, the object is the upload's assembly at that instant. |
| MultipartSteps.JoinedSplit | internal/backend/gcs.go:288-317 | Pieces are joined in order. |
| MultipartSteps.InvStep | internal/api/s3/multipart.go:32-256 | Each step keeps: upload IDs differ, staged parts are what was last stored, and what requests have read was so when they read it. |
| Multipart.LocalPartNamesTellApart | internal/backend/local.go:41-43 | A local upload ID is one directory name, and part file names tell upload and number apart. |
| Multipart.PendingIsStaged | internal/backend/gcs.go:255-261 | What is handed to background deletion is never a user object. |
| MultipartHandlers.GcsGateway.CreateMultipartUpload | internal/api/s3/multipart.go:32-86 | The history gets one creation for this bucket and key with fresh IDs, or nothing; an upload ID returned is tracked, otherwise no record is left; it is refused only without a key or by a failure. |
| MultipartHandlers.GcsGateway.UploadPart | internal/api/s3/multipart.go:89-151 | The history gets one stored upload of a beginning of the body for this part, or nothing; success needs a number from 1 to 10000 and a record for this bucket and key, and stores the whole body; nothing else received changes; it is refused only for the number, without a record, or by a failure. |
| MultipartHandlers.GcsGateway.CompleteMultipartUpload | internal/api/s3/multipart.go:154-218 | The history gets one completion of this upload, or nothing; after any history success means the object is the assembly; no other user object and nothing received changes; the tracking record stays unless success is reported; it is refused only without a record, for a part that is not staged, or by a failure. |
| MultipartHandlers.GcsGateway.AbortMultipartUpload | internal/api/s3/multipart.go:221-256 | The history gets one abort of this upload, or nothing; no user object and nothing received changes; staged parts go only of IDs that are this upload's or continue it, and all of those when neither listing nor a delete fails; at most this upload's record goes; it is refused only without a record or by a failure. |
| Aborts.AbortReachesOtherIff | internal/backend/gcs.go:221-285 | After any history an abort of one tracked upload can take away a staged part of another if and only if the other was created under a key that continues the first one's key and time. |
| Aborts.UnrecordedReachesIff | internal/api/s3/multipart.go:68-74 | The clean-up after a creation that cannot be recorded can take away a staged part if and only if the new ID reaches the part's. |
| Aborts.UploadIdReachesIff | internal/backend/gcs.go:221-226 | One upload ID reaches another, made at another time, if and only if the other's key is the first one's key, a slash and its time, or continues that behind a slash. |
| Aborts.CreatedBy | internal/api/s3/multipart.go:32-86 | Every tracked upload was created by an event of the history, and its ID is made of that event's key and time. |
| Aborts.AbortTakesOthersPart | internal/backend/gcs.go:270-285 | Four requests: the abort of key "a", created at 1, takes the part of the upload of "a/1" away, which stays tracked and cannot complete with it. |
| Aborts.LocalAbortIsIsolated | internal/backend/local.go:285-287 | On the local backend an abort leaves every part of every other tracked upload as it was. |
| MultipartHandlers.GcsGateway.DeletePending | internal/backend/gcs.go:255-261 | The history gets the deletion of one pending part, or nothing; no user object changes. |
| MultipartHandlers.LocalGateway.CreateMultipartUpload | internal/backend/local.go:229-236 | The creation handler over the local backend, with the same contract. |
| MultipartHandlers.LocalGateway.AbortMultipartUpload | internal/api/s3/multipart.go:221-256 | The abort handler over the local backend, with the same contract. |
| MultipartHandlers.LocalGateway.CompleteMultipartUpload | internal/backend/local.go:256-283 | The completion handler over the local backend, with the same contract, and what a failure leaves of the object. |
| MultipartHandlers.LocalGateway.UploadPart | internal/backend/local.go:238-254 | The upload handler over the local backend, with the same contract. |
| MultipartHandlers.LocalBackend.CompleteMultipartUpload | internal/backend/local.go:256-283 | Success: the object is the listed parts in order and the upload's directory is removed or part of it; failure: the object is untouched if the new one was not created, and otherwise the parts before the failing one and a beginning of that. |
| MultipartHandlers.MissingPartLosesObject | internal/backend/local.go:256-283 | A completion that lists a part never uploaded, over an existing object: GCS keeps the object, the local backend leaves it empty. |
| MultipartHandlers.FirstPartMissing | internal/backend/local.go:268-279 | With the first listed part missing nothing is copied. |
| MultipartHandlers.LocalBackend.AbortMultipartUpload | internal/backend/local.go:285-287 | Only parts of the upload go, and all of them on success. |
| MultipartHandlers.UploadTable.FindUpload | internal/registry/postgres.go:462-481 | A record is found if and only if it was made for the bucket and key and the statement does not fail. |
| MultipartHandlers.PartNumberIff | internal/api/s3/multipart.go:89-99 | A part number is a decimal numeral from 1 to 10000. |
| MultipartHandlers.TreeMeetsStep | internal/backend/gcs.go:245-253 | What the compose tree leaves behind is what the machine's completion step says. |
| Tenancy.BucketsAreIndependent | internal/registry/models.go:90-119 | After any history of put, delete and multi-delete through prefixes apart from each other, each gateway bucket is what its own operations alone make of it. |
| Tenancy.ListingIsOwn | internal/api/s3/buckets.go:77-148 | And ListObjectsV2 lists it as a backend would that held nothing else. |
| Tenancy.ApartIffNeverMeeting | internal/registry/models.go:90-98 | Two non-empty prefixes never lead to one backend key if and only if neither, closed by a slash, is a prefix of the other. |
| Tenancy.OpOnOwnView | internal/registry/models.go:90-107 | Through its prefix an operation acts on a gateway bucket as on a bucket of its own. |
| Tenancy.OwnEffects | internal/backend/local.go:110-150 | Key by key: a put gives its key the body, deletes take their keys away, and every other key keeps what it has. |
| Tenancy.OpOnOtherView | internal/registry/models.go:90-98 | And not at all on one apart from it. |
| Tenancy.ListingShowsView | internal/registry/models.go:102-107 | The entries a gateway bucket lists are exactly the objects it sees, with their sizes. |
| Tenancy.DeleteObjectsHandler | internal/api/s3/objects.go:262-299 | Each requested key is reported in the client's own terms as deleted (unless quiet) or failed, as many failed as the backend refused; the bucket loses exactly those not failed; buckets apart from it lose nothing. |
| Tenancy.BackendBucket.DeleteObjects | internal/backend/local.go:138-150 | Deletes one by one, goes on past failures, reports each key once on the right side and in order; as many keys fail as deletes are refused. |
| Tenancy.ChosenIff | internal/api/s3/objects.go:262-299 | A key is reported on one side or the other by its own outcome, and none is lost between the two. |
| CachedTenancy.IndependentIff | internal/registry/cache.go:100-153 | Gateway buckets with prefixes apart stay independent under all accepted puts, deletes and multi-deletes, whichever requests the cache answers, if and only if no bucket with a prefix is ever resolved from it. |
| CachedTenancy.HitReaches | internal/registry/cache.go:117-133 | A put through a hit reaches a bucket if and only if the client's key starts with that bucket's root, and then under the rest of the key. |
| CachedTenancy.HitMissesOwn | internal/registry/cache.go:117-133 | So it misses its own bucket unless the key repeats the prefix. |
| CachedTenancy.AnswersHaveServedPrefix | internal/registry/cache.go:117-133 | The prefix of an answer is the mapping's when the database gave it and empty when an entry did. |
| CachedTenancy.HitGetsIff | internal/api/s3/objects.go:22-93 | A get through a hit returns an object of a bucket if and only if the client's key starts with that bucket's root, and then the one under the rest of the key. |
| CachedTenancy.HitsGetOwnIff | internal/api/s3/objects.go:22-93 | Gets through hits return the bucket's own objects, for all contents and keys, if and only if it has no prefix. |
| CachedTenancy.HitListsWholeBucket | internal/api/s3/buckets.go:77-148 | A listing through a hit answers as if all of the backend bucket were the client's own. |
| CachedTenancy.HitListsOtherIff | internal/api/s3/buckets.go:77-148 | An object of any bucket is among the plain keys listed through a hit if and only if its backend key answers the client's question. |
| CachedTenancy.HitsListOwnIff | internal/api/s3/buckets.go:77-148 | Listings through hits are the bucket's own, for all contents and questions, if and only if it has no prefix. |
| CachedTenancy.MultipartThroughHit | internal/api/s3/multipart.go:154-218 | A completion through a hit puts the upload's assembly under the client's bare key, and the bucket with the prefix sees no change unless the key repeats the prefix. |
| CachedTenancy.MissThenHit | internal/api/s3/multipart.go:154-218 | An upload created on a miss and completed on a hit: the object is "k", not "p/k". |
| Canonical.UriEncode | internal/api/s3/auth.go:294-307 | The loop computes the byte-wise encoding. |
| Canonical.BareBytesAre | internal/api/s3/auth.go:294-307 | Left bare are the unreserved characters of section 2.3 of RFC 3986, and the slash where it is not to be encoded. |
| Canonical.EncodedByteIs | internal/api/s3/auth.go:294-307 | Any other byte becomes a percent sign and two upper-case hexadecimal digits. |
| Canonical.EncodedExample | internal/api/s3/auth.go:294-307 | "a b", "/" and the two bytes of an accented e, encoded. |
| Canonical.DecodeUndoesEncode | internal/api/s3/auth.go:294-307 | Percent decoding undoes the encoding, which is therefore injective on all byte strings. |
| Canonical.EncodedIsSafe | internal/api/s3/auth.go:294-307 | Encoding never produces `=`, `&` or a newline, nor a slash when slashes are encoded. |
| Canonical.CanonicalURI | internal/api/s3/auth.go:221-230 | Splitting, encoding and joining is encoding everything but the slashes; the empty path is "/". |
| Canonical.SegmentwiseIsWhole | internal/api/s3/auth.go:225-229 | Encoding segment by segment is encoding the whole path but its slashes. |
| Canonical.CanonicalPathIff | internal/api/s3/auth.go:221-230 | Two paths have the same canonical form if and only if they are the same, or one is empty and the other the root. |
| Canonical.CanonicalQueryStringExcluding | internal/api/s3/auth.go:236-262 | Whatever the order the map is walked in: the string is `key=value` for each encoded parameter but the excluded ones, between `&`, ascending by key, and by value under equal keys. |
| Canonical.CanonicalPairsAre | internal/api/s3/auth.go:236-262 | The string in those terms, for any list of parameters. |
| Canonical.PartQueryExample | internal/api/s3/auth.go:236-262 | The query of a part upload is "partNumber=1&uploadId=0a". |
| Canonical.ListedParameters | internal/api/s3/auth.go:240-249 | The parameters are those of the parsed query but the excluded key, each as often as it is there. |
| Canonical.CanonicalIffSameParameters | internal/api/s3/auth.go:236-262 | Two lists of parameters have the same canonical string if and only if they are the same multiset. |
| Canonical.QueryIffSameParameters | internal/api/s3/auth.go:236-262 | Two parsed queries have the same canonical string if and only if they have every parameter but the excluded one equally often. |
| Canonical.ListsIsOneMultiset | internal/api/s3/auth.go:242-249 | All walks of the map list one multiset of parameters. |
| Canonical.JoinInjective | internal/api/s3/auth.go:261 | Joining is injective on non-empty parts free of the separator. |
| Canonical.BuildCanonicalHeaders | internal/api/s3/auth.go:265-290 | One line for each signed name in lower case, sorted, each once, with its value; and the names joined. |
| Canonical.LoweredIs | internal/api/s3/auth.go:265-290 | Lowering a name changes its capital letters only. |
| Canonical.HeaderLinesExample | internal/api/s3/auth.go:281-289 | Header lines written out. |
| Canonical.HeadersIgnoreOrder | internal/api/s3/auth.go:265-290 | The names do not depend on order, case or repetition in the list of signed headers. |
| CanonicalRequest.SameFormIff | internal/api/s3/auth.go:202-218 | Two requests without newlines in method and headers have the same canonical form if and only if they agree in method, path (the empty one being the root), parameters as a multiset, signed header names and values, and payload hash. |
| CanonicalRequest.PresignedFormIff | internal/api/s3/auth.go:146-218 | The same for presigned requests whatever bytes the header names hold, their list being a signed parameter. |
| CanonicalRequest.SignatureDoesNotCount | internal/api/s3/auth.go:146-200 | The canonical query of a presigned request is the same with any other signature or none. |
| CanonicalRequest.AllParametersCount | internal/api/s3/auth.go:202-218 | In any other request all named parameters are signed. |
| CanonicalRequest.RenderedExample | internal/api/s3/auth.go:202-218 | A canonical request written out. |
| CanonicalRequest.ValuesReadBack | internal/api/s3/auth.go:281-289 | Under known names the header values are read back. |
| CanonicalRequest.LinesReadBack | internal/api/s3/auth.go:281-289 | The first empty line ends the headers, and the lines before it are read back. |
| CanonicalRequest.BuildCanonicalRequest | internal/api/s3/auth.go:202-218 | The code's string is that form, whatever the order its maps are walked in, the signature left out of a presigned query. |
| Sorting.SortSorts | internal/api/s3/auth.go:251-256 | The result is sorted and a permutation of the input. |
| Sorting.SortedIsUnique | internal/api/s3/auth.go:251-256 | Under a total order there is one sorted arrangement, so the unstable sort of the code gives this one. |
| Ranges.RangeIsExactIff | internal/backend/local.go:84-108 | For all numerals, body, length and Content-Range are RFC 9110's answer to `first-last` if and only if the range starts behind the object, or is not reversed, ends at 2^63-1 or before, and starts at 0 if it ends there. |
| Ranges.TooLargeRangeExample | internal/backend/gcs.go:376-379 | The range 0-9223372036854775808 is refused where the RFC selects the whole object. |
| Ranges.OpenRangeIsExact | internal/backend/local.go:84-108 | For all numerals, `first-` is answered as the RFC's: the rest of the object, or invalid. |
| Ranges.SuffixRefused | internal/backend/gcs.go:366-368 | Suffix ranges are refused. |
| Ranges.ListRefused | internal/backend/gcs.go:360-381 | A second range behind the first refuses the header. |
| Ranges.RangeExamples | internal/backend/local.go:84-108 | Of 20 bytes, "bytes=5-9" and "bytes=15-" with body, length and Content-Range; "bytes=-5" and "bytes=0-4,6-9" are refused. |
| Ranges.ParserExamples | internal/backend/azure.go:336-354 | The same headers for both parsers: an open range has length -1 for the one and 0 for the other. |
| Strconv.ParseIntIff | internal/backend/gcs.go:371-379 | A number is accepted just from a sign or none, one digit or more, and a value that fits int64. |
| Ranges.RangeBehindEnd | internal/backend/local.go:90-94 | A range that starts behind the object is refused, whatever its end. |
| Ranges.RangesReassemble | internal/backend/local.go:84-108 | Ranged reads over any partition of an object put it together again, each with its own length and Content-Range. |
| Ranges.ParsersAgree | internal/backend/gcs.go:360-381 | On every string both parsers accept or both refuse, with the same offset, and stand for the same bytes if and only if the range is open-ended or its length positive in 64 bits. |
| Ranges.ParsersAgreeIff | internal/backend/azure.go:336-354 | On all numerals both refuse numbers above 2^63-1 and otherwise stand for the same bytes if and only if first <= last and the range is not 0 to 2^63-1. |
| Ranges.ParseReadsBack | internal/backend/azure.go:336-354 | Both read any well-formed closed range as its offset and wrapped length, or refuse it for a number above 2^63-1. |
| Ranges.OffsetNotNegative | internal/backend/gcs.go:360-381 | No accepted header has a negative offset. |
| Ranges.ReversedRangeExample | internal/backend/local.go:95-97 | The range 5-4 of a 20-byte object: an empty part where the RFC has none. |
| Crypto.DecryptUndoesEncrypt | internal/auth/crypto.go:31-67 | What Encrypt frames, Decrypt opens, for any correct cipher. |
| Crypto.NonceComesFirst | internal/auth/crypto.go:31-67 | Encrypt writes the twelve bytes of nonce and the sealed text behind them; Decrypt reads them so, and refuses anything with less than sixteen bytes behind the nonce. |
| Crypto.OpensIff | internal/auth/crypto.go:48-67 | Stored bytes decrypt to a text if and only if there are 28 or more and the cipher opens those behind the first twelve, under these, to it. |
| Rotation.Tx.ReencryptStores | cmd/rotate-key/main.go:141-183 | Every store's config decrypts under the new key to what it did under the old; nothing else in the tables changes; the count is the number of stores; it fails if and only if a statement fails or a store does not decrypt. |
| Rotation.Tx.ReencryptAccessKeys | cmd/rotate-key/main.go:185-228 | The same for every key that is not revoked; revoked rows are unchanged. |
| Rotation.Cluster.Rotate | cmd/rotate-key/main.go:61-119 | All or nothing: the tables change only by a commit, never in a dry run, and then every secret is under the new key what it was under the old, and decrypts; the counts are those of the rows; it fails if and only if a statement or the commit fails or something does not decrypt; only a commit reported as failed leaves open which. |
| Rotation.RotatedRows | cmd/rotate-key/main.go:141-228 | Row by row: a store keeps all but its config, a key that is not revoked all but its secret, and the cipher opens the new bytes under the new key to what it opened the old ones to; revoked keys and mappings stay. |
| Rotation.AllDecryptIff | cmd/rotate-key/main.go:141-228 | What has to decrypt: the config of every store and the secret of every key that is not revoked. |
| Rotation.Cluster.SanityProbe | cmd/rotate-key/main.go:124-139 | Passing means there is no store, or one that the old key decrypts; not passing, that a statement failed or one it does not. |
| Rotation.RotationsCompose | cmd/rotate-key/main.go:141-228 | Rotating twice is rotating once: no secret drifts. |

## Left out

- The S3 SDK adapter, and Azure but for its range parser: calls into libraries. Azure multipart is keyed by blob, not by upload.
- HTTP routing, XML and JSON, CORS headers, server-sent events, health checks, configuration, presigned URLs.
- AES-GCM, HMAC, HKDF and hashes: an abstract cipher that opens what it seals; the signature chain around the canonical request is not modelled.
- Files and directories: the local backend is a map from key to bytes; ETags, times and content types are not kept.
- Access to Redis is a map with expiry times; its JSON coding, and entries that do not parse, are not modelled.
- Tenants' own tables, listing of stores and buckets, GCS credential shapes, generation of keys.
- The GCS backend's own listing and ranged reads, done by Google's library.
- Listing.ListObjects: works on a fixed, strictly sorted list of entries; an entry whose `Info()` fails, which the code skips, is not modelled.
- ListingTranslation.ListObjectsV2: max-keys is parsed with 64 bits instead of 32, which makes no difference between 1 and 1000.
- Chunked.ChunkedReader.Read: the body ends in EOF or in one lasting transport error. A size is an int64, as `int` is on 64-bit machines.
- Compose.GcsBucket.ComposeDirect: all objects are in one bucket.
- Compose.GcsBucket.ComposeTree: sources and destination must not be temporary names the clock has yet to reach; ComposeChunk, ComposeLevel and AbandonLevel are stretches of the one function of the code.
- Gateway.Handler.ResolveBucket: cache and pool are current only while no due eviction is refused and requests do not overlap; what holds otherwise is in Staleness and PoolSteps.
- PoolSteps.StaleClientIff: whether a config suits its backend type is drawn at each build, so any config can build.
- Staleness.BoundedStaleness: a lost eviction is no step of a run, and an expired entry may go at any time. A ttl of exactly -1 ns, which the Redis client takes as "keep the time to live", is treated as the other negative ones.
- Multipart.GcsCompletionIsRight: keys are outside the staging name spaces, and each backend call of a handler is one step, but for the background deletes; overlapping requests on GCS are in MultipartSteps.
- Multipart.LocalCompletionIsRight: requests that overlap on the local backend, where two completions can write one file at a time, are not modelled.
- MultipartSteps.PublishedPiecesAreRight: a request gives up in silence; tracking, staging and reading are as in Multipart, but the methods of MultipartHandlers are not split into these steps.
- Multipart.ReceivedIsLastStored: a failed part upload counts with the bytes it stored.
- MultipartHandlers.UploadTable.FindUpload: an insertion of a tracking record that is reported as failed is taken to have done nothing.
- MultipartHandlers.LocalGateway.CompleteMultipartUpload: the cascade that drops tracking records with their store is not modelled.
- Canonical.CanonicalQueryStringExcluding: starts from the result of `url.ParseQuery`; the empty query is the empty map.
- CanonicalRequest.SameFormIff: names of signed headers hold no newline and no semicolon, values and method no newline, as HTTP has it; presigned requests, whose names come out of the query, are in PresignedFormIff.
- CanonicalRequest.PresignedFormIff: the query gives its list of signed headers once, or more than once but equal.
- Canonical.BuildCanonicalHeaders: header values, trimmed, and the host are a function of the lower-case name; only ASCII letters are lowered.
- Ranges.RangeIsExactIff: objects have at most 2^63-1 bytes, and both ends are decimal numerals; headers outside the grammar that the code accepts, with a sign or without "bytes=", and lists of ranges, which it refuses, are not compared with the RFC.
- Rotation.Cluster.Rotate: key derivation, logging and the flush of Redis after the commit are not modelled.
