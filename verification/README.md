# Arker, verified

Arker archives web addresses: each submission becomes a capture, each capture owns archive items, and workers run
archivers that fill the items with stored objects. This project models the parts of Arker whose logic is hardest to
get right and proves what they promise.

- **One identity per post.** `Strings`, `Lex` and `Url` model the Go string and `net/url` operations that
  canonicalization uses, as text. `CanonicalUrl` holds the matchers of all eight platforms. `CanonicalIdentity` prints
  and re-reads canonical addresses, `Spellings` relates spellings. `CanonicalPosts` lists the shapes that name a post,
  apart from the matchers, and proves that the matchers take exactly these; `Recognition` says the same of whole texts,
  in all the ways `Addresses` spells one, and gives the identity of each post as text.
- **Capture creation.** `Captures` and `CaptureStore` are the url, capture and item tables with their transactions.
  `CaptureIdentity` ties their aliases to canonical identities. `CaptureLock` interleaves any number of callers of any
  number of processes, one program counter each; `CreateOnce` runs find-or-create inside that lock, with the reading
  and the commit of each transaction as separate steps.
- **Logs.** `Utf8` is UTF-8 as section 4 of RFC 3629 defines it, `CodePoints` its section 3 beside it. `LogWriter` is the buffered log writer and its
  chunking, `LogMigration` the move of legacy log columns into chunk rows.
- **Item lifecycle.** `Lifecycle` and `LifecycleQueue` hold the worker, the error and panic handlers, the cleanup and
  the type rename. `Archivers` says what the archivers hand over, caption artifacts included; `Publication` and
  `Subtitles` are the uploads that precede a completed row. Where several workers share state, a method named
  `Others` stands for whatever the rest of the server does between two statements.
- **Byte movers.** `SeekableReader` is the lazily opened S3 reader and the random access over it; `BrowserFetch` the
  ranged download (sections 14.1.2 and 15.5.17 of RFC 9110); `BrowserSpend` the nested paid retries around it.
- **Trees and galleries.** `Tar` packs and unpacks directory trees; `GalleryFiles` renames media with their sidecars;
  `PhraseWatcher` matches a phrase in a stream; `VideoVariants` collapses the resolutions of a video; `Completeness`
  follows a missing slide from the download loop to the answer an API caller reads.

The outside world appears as nondeterministic choice: a statement, an upload, a page or a session succeeds or fails, and
a server answers from one fixed file. Time is a number passed in. The capture tables take the canonicalizer as a
function value, so that their proofs hold for every canonicalizer and `CaptureIdentity` can say what the real one adds.

## Where the code falls short of its own description

Each of these is proved, with the exact condition under which the promise holds.

- Canonicalization is documented as idempotent (`internal/utils/canonical_url.go:39-40`). It is, except for Facebook page
  videos whose page segment becomes `watch` or `video.php` only in lower case while a numeric `v` parameter is present:
  the second pass then reads a different video (`CanonicalIdentity.CanonicalTwice`, `CanonicalIdentity.CapitalWatchChanges`).
- The row lookup for an address finds only rows of its own identity except in that family and for the empty address
  (`CaptureIdentity.LookupIsExact`).
- `Flush` in the middle of a character stores a replacement character; a flush that empties the buffer keeps the bytes
  exactly when the buffer was valid UTF-8 (`LogWriter.FlushConservesIffComplete`, `LogWriter.FlushMidCharacterLosesBytes`).
- The panic handler looks an item up by the job's raw type, the worker by the normalized one. A last attempt that panics
  before it saves leaves its item unfinished exactly when the job still carries a retired type name
  (`LifecycleQueue.Queue.HandlePanickedItem`); cleanup has the same blind spot: it fails an
  item that is being worked on under the retired name (`Lifecycle.CleanupSeesSpelling`, `Lifecycle.CleanupFailsServed`).
- Reading an S3 object at its end without an open body fails instead of reporting the end of the file
  (`SeekableReader.S3Reader.Read`), and the size lookup asks for the object's own key exactly when the configured prefix
  is empty or ends in a slash (`SeekableReader.SizeKeyIsOwnKey`); with any other prefix, seeks are bounded by the size of
  another object or fail.
- A size hint that is too small silently truncates a ranged download (`BrowserFetch.HintExact`).
- A media URL without a resolution marker is said to be a group of its own, so that nothing is dropped
  (`internal/brightdata/gallery.go:316-318`). That holds for absolute addresses among addresses with plain hosts, as
  providers list them (`VideoVariants.AbsoluteKept`). Of any text it is true exactly unless another URL's host and path
  spell it and that one scores or comes first (`VideoVariants.UnmarkedKept`), which takes a relative address
  (`VideoVariants.UnmarkedDropped`), a host that ends in a colon, or no host.

## Model

| member | source | states |
|---|---|---|
| `Url.QueryRoundTrip` | internal/utils/canonical_url.go:617-623 | Encoding a query with sorted keys and parsing it back loses no key, no value and no order of values. |
| `Url.PrintParses` | internal/utils/canonical_url.go:76-105 | Parsing a printed canonical address gives back its host, path and query, with no port. |
| `Url.PrintInjective` | internal/utils/canonical_url.go:617-623 | Two printed addresses are the same text only when host, path and query agree. |
| `Url.AddressParses` | internal/utils/canonical_url.go:76-105 | The same for a plain host and path followed by any raw query text. |
| `Url.HexCase` | internal/utils/canonical_url.go:80-83 | A percent escape means the same in either letter case, and its digits have the values they are written for. |
| `Addresses.SpellingParses` | internal/utils/canonical_url.go:76-109 | Every other spelling parses too: `http` or `https` and the host in any case, credentials, a port, an escaped path, any raw query, a fragment and white space around give host, port, decoded path and query. |
| `Strings.SegmentsAppend` | internal/utils/canonical_url.go:580-589 | Path segments of two texts joined by a slash are the segments of the one, then of the other. |
| `CanonicalUrl.DropParams` | internal/utils/canonical_url.go:594-612 | Whatever order the keys are visited in, exactly the junk keys go and every other key keeps its values. |
| `Spellings.TrackingGoes` | internal/utils/canonical_url.go:44-68 | No kept key is a click identifier or starts like a generated one, in any case. |
| `Spellings.ShareTagsGo` | internal/utils/canonical_url.go:149-159 | The share tags of each platform go on that platform. |
| `Spellings.ViewsStay` | internal/utils/canonical_url.go:140-148 | A playlist on YouTube and a carousel position on Instagram stay. |
| `Spellings.TimeStays` | internal/utils/canonical_url.go:420-446 | `t` stays on platforms where it is no playback offset. |
| `CanonicalIdentity.ShowReads` | internal/utils/canonical_url.go:76-132 | Reading a printed canonical address matches its own parts again: host, segments and query survive print and parse. |
| `CanonicalIdentity.ShowInjective` | internal/utils/canonical_url.go:617-623 | Two canonical forms print alike exactly when they are the same form. |
| `CanonicalIdentity.RecognizedWellFormed` | internal/utils/canonical_url.go:161-572 | Every recognized form has path segments that print without escaping and a query whose keys all have values. |
| `CanonicalIdentity.YouTubeAgain` | internal/utils/canonical_url.go:161-189 | A YouTube identity matches itself, `v` and all, on the second pass. |
| `CanonicalIdentity.InstagramAgain` | internal/utils/canonical_url.go:221-242 | So does an Instagram identity, with `reels` already folded to `reel`. |
| `CanonicalIdentity.TwitterAgain` | internal/utils/canonical_url.go:268-290 | So does a username-free status address. |
| `CanonicalIdentity.TikTokAgain` | internal/utils/canonical_url.go:313-334 | So does a TikTok address, whose user name is already lower case. |
| `CanonicalIdentity.RedditAgain` | internal/utils/canonical_url.go:371-407 | So do Reddit post and comment addresses. |
| `CanonicalIdentity.BlueskyAgain` | internal/utils/canonical_url.go:420-433 | So does a Bluesky address, by handle or by DID. |
| `CanonicalIdentity.VimeoAgain` | internal/utils/canonical_url.go:455-491 | So does a Vimeo address, its hash moved into the path. |
| `CanonicalIdentity.FacebookTwice` | internal/utils/canonical_url.go:520-572 | What a Facebook identity becomes on the second pass: itself or nothing new, except in the folding family, where it becomes a watch page. |
| `CanonicalIdentity.CanonicalTwice` | internal/utils/canonical_url.go:39-132 | For every text: canonicalizing twice equals canonicalizing once if and only if the address is outside the folding family, a condition on host, path and query. |
| `CanonicalIdentity.CapitalWatchChanges` | internal/utils/canonical_url.go:535-570 | One member of that family, where idempotence fails. |
| `Spellings.JunkAndOrderIgnored` | internal/utils/canonical_url.go:594-623 | For every address and any two raw queries, however escaped, that spell the same values under every kept key: both are recognized alike. Ignored parameters may be added, repeated or moved, and distinct keys reordered. |
| `Spellings.NoQueryIsEmptyQuery` | internal/utils/canonical_url.go:76-105 | An address without a query is recognized as the same one with an empty query. |
| `Spellings.ShareLinkIsWatchPage` | internal/utils/canonical_url.go:157-189 | `youtu.be/X` and `watch?v=X` match the same identity, with any further parameters. |
| `Spellings.ShortLinkIsPermalink` | internal/utils/canonical_url.go:363-407 | `redd.it/X` and every permalink of X, under a community or not, titled or not, match the same identity. |
| `Spellings.CommentPermalinks` | internal/utils/canonical_url.go:396-402 | Legacy and current comment permalinks match the same identity. |
| `Spellings.PlayerIsPage` | internal/utils/canonical_url.go:451-491 | A Vimeo path hash and the player's `?h=` match the same identity. |
| `Spellings.OneIdentity` | internal/utils/canonical_url.go:76-132 | Addresses on one platform's hosts that match alike have one identity as text. |
| `CanonicalPosts.NamesOne` | internal/utils/canonical_url.go:161-572 | A canonical form names exactly one post. |
| `CanonicalPosts.MatchNames` | internal/utils/canonical_url.go:134-572 | For every host, path and query: the matchers take it if and only if it is one of the documented shapes of a post on one of that post's hosts, shapes that are written down apart from the matchers. |
| `CanonicalPosts.SpelledMatches` | internal/utils/canonical_url.go:161-572 | Every spelling of a post is matched, as that post's own canonical form with what is left of its parameters. |
| `CanonicalPosts.HostsPlatform` | internal/utils/canonical_url.go:138-140 | A bare host belongs to a platform if and only if it is on that platform's list. |
| `CanonicalPosts.Alphabets` | internal/utils/canonical_url.go:630-672 | Identifiers, numbers and handles are the non-empty texts over these ASCII codes and no others. |
| `CanonicalPosts.QuerySurvives` | internal/utils/canonical_url.go:591-612 | Every kept parameter survives unchanged, apart from the one that names the post. |
| `Recognition.IdentityIsPost` | internal/utils/canonical_url.go:14-41 | Two addresses that name posts share an identity if and only if it is the same post with the same surviving parameters. |
| `Recognition.RecognizedExactly` | internal/utils/canonical_url.go:76-132 | Of any text: it is recognized if and only if it is an address, on a usual port, whose host, with or without `www.`, path and query spell a post; and it names at most one post. |
| `Recognition.IdentityText` | internal/utils/canonical_url.go:39-132 | The identity of a text that names a post is that post's one address, written out per platform, with the surviving parameters; of any other text it is the text itself. |
| `Recognition.SpelledIdentity` | internal/utils/canonical_url.go:76-132 | Every spelling of a post, in any case of scheme and host, on any usual port, with credentials, escapes, a fragment and white space, has that identity. |
| `Recognition.AddressIdentity` | internal/utils/canonical_url.go:76-132 | So has every plain address of a post, with any raw query. |
| `Recognition.AuthorIsIgnored` | internal/utils/canonical_url.go:262-288 | On any host of X, a status number behind any author that is no status word, bare or under a photo or video number, has the identity `https://x.com/i/web/status/` and the number. |
| `Captures.LoadIdentityRows` | internal/workers/queue.go:114-126 | The rows are exactly those matching by canonical column, original or canonical form, in id order, and the exact row is found if there is one. |
| `Captures.EnsureArchivedURL` | internal/workers/queue.go:144-162 | One healed or new row for this spelling, with its identity; no original changes and no other row does. |
| `Captures.EnsuredLaw` | internal/workers/queue.go:136-162 | That row spells the address untouched and carries its identity; no original changes and no other row does. |
| `Captures.InsertKeepsOk` | internal/workers/queue.go:448-509 | Creating a capture keeps every table promise: aliases point at earlier captures that are no aliases, on a row the lookup reaches; only captures that are no aliases own items; short ids and originals stay unique; canonical columns are empty or right. |
| `Captures.StandingExists` | internal/workers/queue.go:389-420 | A capture answers a request exactly when every required type has an item that is pending, processing, or completed and, where that is asked, a complete social item. |
| `Captures.StandingStatus` | internal/workers/queue.go:389-420 | It answers as completed exactly when the status of every required item is `completed`, and as processing exactly when one is `processing`. |
| `Captures.StandingTime` | internal/workers/queue.go:401-408 | Its completion time is the latest among the completed required items, and the zero time when there is none. |
| `Captures.ItemForLaw` | internal/workers/queue.go:390-393 | The item of a type is the capture's last row whose type normalizes to it, or none when there is none. |
| `Captures.StandsLaw` | internal/workers/queue.go:389-420 | Both of the capture's own item rows, by the names of their statuses. |
| `Captures.CaptureStatusForTypes` | internal/workers/queue.go:389-420 | The loop computes that standing, failing as soon as one type can never be used; the status it gives says by name what the required items' statuses are. |
| `Captures.FindFindOrCreateCandidate` | internal/workers/queue.go:353-387 | The choice is best among all candidates of the identity, completed before in progress and later before earlier; one in progress means that no capture has every required item completed and usable, none that no capture has a usable item of every type. |
| `Captures.CaptureCoversTypes` | internal/workers/queue.go:553-565 | True exactly when every requested type has an item whose status is not `failed`. |
| `Captures.ListNewest` | internal/workers/queue.go:530-539 | The newest ten recent captures, newest first, and all of them if there are fewer. |
| `Captures.FindReusableCapture` | internal/workers/queue.go:521-547 | With aliasing on and a working lookup, the newest of the ten newest recent captures that covers the types, or none when none does; otherwise none. |
| `CaptureStore.FindOrCreateCriteriaFor` | internal/workers/queue.go:324-345 | Only a default request for a social post with a media type is relaxed, to exactly its media types. |
| `CaptureStore.MediaTypesLaw` | internal/workers/queue.go:330-344 | Those are exactly the requested types that name a media archiver. |
| `CaptureStore.PartialNeverSettles` | internal/workers/queue.go:389-434 | A capture whose media item is completed with anything but a complete account never answers a default social request, and with that item in progress never answers as completed. |
| `CaptureStore.DecisionLaw` | internal/workers/queue.go:252-272 | What each outcome of the lookup says about the statuses of the identity's items. |
| `CaptureStore.Store.Insert` | internal/workers/queue.go:458-508 | All of the new row, capture and items are committed, or nothing is; nothing only when a statement fails or the short ID is taken. |
| `CaptureStore.Store.CreateCapture` | internal/workers/queue.go:441-514 | The whole new state: an alias without items of the newest listed covering capture, or a capture with one pending item per type; never an alias when forced; every table promise is kept. |
| `CaptureStore.Store.FindOrCreateCapture` | internal/workers/queue.go:247-308 | Either the best candidate answers and nothing changes, or there was none and exactly one capture with pending items is added. `Found` is answered only for a capture of the identity whose required items all have status `completed`; in progress only when there is no such capture, and as processing exactly when one of the items is; a capture is created only when none has a usable item of every type. It fails, changing nothing, only when a statement fails or the short ID is taken. |
| `CaptureStore.Store.BackfillCanonicalURLs` | cmd/main.go:297-329 | Ends on every table; rows below the cursor that lacked an identity have it, every other row is untouched; unless a statement fails the cursor covers the table. |
| `CaptureStore.Store.BackfillMissingMediaItems` | internal/handlers/admin.go:276-347 | Adds only pending items of the type, one each, to captures that are no aliases, lacked it and want it, within the limit, and to all of them when there is no limit and no failure; a dry run changes nothing. |
| `CaptureIdentity.AliasSharesIdentity` | internal/workers/queue.go:105-162 | In every reachable state an alias points at an existing capture that is no alias, owns no items, and shares its target's identity, for every address but the empty one and the folding family. |
| `CaptureIdentity.AliasesShareExactly` | internal/workers/queue.go:105-162 | Those two exceptions are needed: all aliases of a spelling share its identity, in all valid tables, if and only if it is neither empty nor in the folding family. |
| `CaptureIdentity.SubmitCanonicalFirst` | internal/workers/queue.go:441-514 | Two ordinary submissions to an empty store, first the canonical text of an address and then the address: unless a statement fails, the second becomes an alias of the first, and they share an identity if and only if the address is outside the folding family. |
| `CaptureIdentity.LookupIsExact` | internal/workers/queue.go:105-117 | The lookup finds rows of the identity only, whatever the table holds, if and only if the address is not empty and outside the folding family. |
| `CaptureIdentity.IdentityStands` | internal/workers/queue.go:105-117 | Every other identity is non-empty and its own identity, which the `original = canonical` arm needs. |
| `CaptureLock.StepKeepsLock` | internal/workers/queue.go:37-103 | Every step of every interleaving keeps: table mutexes held as positions say, `refs` equal to the callers between count-in and count-out, entries being the very objects those callers hold, holders and advisory locks in place. |
| `CaptureLock.Run` | internal/workers/queue.go:37-103 | So does every state a schedule of any number of callers' steps can reach. |
| `CaptureLock.ProcessExclusion` | internal/workers/queue.go:49-69 | Two callers of one process and identity are never both between locking and unlocking the mutex. |
| `CaptureLock.MutualExclusion` | internal/workers/queue.go:78-103 | Two callers of one identity are never both inside the transaction, across processes too. |
| `CaptureLock.EntryWhileCounted` | internal/workers/queue.go:47-69 | Whenever nobody is inside the table mutex, an entry exists exactly while a caller is counted on it, and its count is the number of those callers: no early eviction, no leak. |
| `CaptureLock.NoDeadlock` | internal/workers/queue.go:89-90 | No caller can move exactly when every caller is done. |
| `CaptureLock.RunsAreShort` | internal/workers/queue.go:89-103 | No schedule of any number of callers is longer than fourteen steps a caller, so every run ends. |
| `CreateOnce.NewStandsPending` | internal/workers/queue.go:287-296 | A new capture stands as pending for every request its types answer. |
| `CreateOnce.OtherInsert` | internal/workers/queue.go:282-295 | Creating a capture of another identity changes nothing a lookup finds. |
| `CreateOnce.OwnInsert` | internal/workers/queue.go:282-295 | Creating one of the identity makes it the only thing every spelling's lookup finds. |
| `CreateOnce.StepKeepsOnce` | internal/workers/queue.go:91-103 | Each step of callers that read, decide and commit separately keeps: nobody has created, or one has and all others of the identity see that capture. |
| `CreateOnce.CreatedOnce` | internal/workers/queue.go:71-76 | Over every run of find-or-create calls that starts without a reusable capture: either all answers of the identity are failures, or one call created and every other answer is a failure or "in progress" with that same short ID. |
| `Utf8.ValidConcat` | internal/utils/db_log_writer.go:114-132 | Valid text joined to valid text is valid. |
| `CodePoints.RuneIsEncoded` | internal/utils/db_log_writer.go:122-126 | A character starts a byte string exactly when the encoding of a code point that is no surrogate does, and it is as long as that encoding. |
| `Utf8.ToValidIsValid` | internal/utils/db_log_writer.go:174-175 | Replacing invalid bytes gives valid UTF-8. |
| `Utf8.ToValidFixpoint` | internal/utils/db_log_writer.go:174-175 | It changes nothing exactly when the bytes were valid. |
| `Utf8.ToValidAfterValid` | internal/utils/db_log_writer.go:104-112 | Valid text in front of any bytes stays as it is. |
| `Utf8.ToValidMends` | internal/utils/db_log_writer.go:174-175 | Any bytes are valid text and runs of bytes at which no character starts; the result, and nothing but the result, is the same text with one U+FFFD for each run. |
| `LogWriter.SplitArchiveLogChunks` | internal/utils/db_log_writer.go:174-194 | For arbitrary bytes: the chunks spell the text with every run of bytes at which no character starts replaced by one U+FFFD and nothing else changed; each is non-empty valid UTF-8 of at most 1024 bytes, and none could have taken the next character. |
| `LogWriter.SplitLaw` | internal/utils/db_log_writer.go:174-194 | The same of the cutting function, with short valid text kept whole. |
| `LogWriter.GreedyCutUnique` | internal/utils/db_log_writer.go:174-194 | There is only one way to cut a text like that. |
| `LogWriter.ValidUTF8PrefixLen` | internal/utils/db_log_writer.go:114-132 | The longest valid prefix within the bound, and a forced one when there is none. |
| `LogWriter.FlushLenLaw` | internal/utils/db_log_writer.go:81-102 | A forced pass takes something from every non-empty buffer; an unforced one takes nothing exactly when the buffer is short and has no newline. |
| `LogWriter.PassTakes` | internal/utils/db_log_writer.go:81-132 | What a pass takes: the first line, if it ends within the bound; else, of a full or forced buffer, the longest valid text within the bound, or all within it when none is valid. |
| `LogWriter.UnforcedPassIsWhole` | internal/utils/db_log_writer.go:81-102 | From a prefix of valid text a pass takes whole characters only. |
| `LogWriter.DrainConserves` | internal/utils/db_log_writer.go:38-79 | Any number of passes over whole text stores and keeps exactly that text. |
| `LogWriter.DrainAccounted` | internal/utils/db_log_writer.go:38-79 | Of arbitrary bytes, passes store consecutive parts, each mended as above, and keep the rest: nothing is dropped, moved or repeated. |
| `LogWriter.RunRowsOk` | internal/utils/db_log_writer.go:38-112 | After any writes, flushes and failures, on arbitrary bytes, every row is non-empty valid UTF-8 of at most 1024 bytes. |
| `LogWriter.RunConserves` | internal/utils/db_log_writer.go:38-112 | When the bytes written so far are a prefix of valid text and flushes come between characters, stored rows followed by the buffer equal everything written. |
| `LogWriter.RunAccounted` | internal/utils/db_log_writer.go:38-112 | The same over every history of writes, flushes and failures on arbitrary bytes: everything written is stored in consecutive parts, each mended, or still buffered. |
| `LogWriter.FlushConservesIffComplete` | internal/utils/db_log_writer.go:61-79 | A flush that empties the buffer stores its bytes unchanged if and only if they were valid. |
| `LogWriter.FlushMidCharacterLosesBytes` | internal/utils/db_log_writer.go:114-132 | One byte of a character, flushed, becomes a replacement character. |
| `LogWriter.LogTable.AppendChunks` | internal/utils/db_log_writer.go:147-172 | All rows of a text go in, in order, or none; none only when the database refused a row. |
| `LogWriter.DBLogWriter.Write` | internal/utils/db_log_writer.go:38-59 | Whatever inserts fail, buffer and new rows are some passes over what was there and what came, and the call joins the object's history; on arbitrary bytes the new rows are consecutive parts, each mended, and the buffer is the rest; all bytes are accepted, and unless the database refused, less than a chunk without a newline is left. |
| `LogWriter.DBLogWriter.Flush` | internal/utils/db_log_writer.go:61-79 | The same with forced passes, arbitrary bytes included; it succeeds exactly when the buffer is empty afterwards and fails only when the database refused, and it ends because every pass takes a byte. |
| `LogWriter.DBLogWriter.Conserves` | internal/utils/db_log_writer.go:38-112 | For the object, after any calls: the chunks the table holds of its attempt, followed by its buffer, are everything written to it, under the conditions of `RunConserves`. |
| `LogWriter.DBLogWriter.Accounts` | internal/utils/db_log_writer.go:38-112 | And on arbitrary bytes: those chunks are everything written but the buffer, in consecutive parts, each mended. |
| `LogMigration.MergeLosesNothing` | internal/utils/db_log_writer.go:230-244 | The merged log starts with the legacy text and holds the chunk text. |
| `LogMigration.FreshChunksSpellText` | internal/utils/archive_item_logs_migration.go:66-112 | Chunks of a legacy column spell it exactly when it is valid UTF-8. |
| `LogMigration.MigratedReadsTheSame` | internal/utils/archive_item_logs_migration.go:66-112 | A migrated item, and every other item, reads as before. |
| `LogMigration.ItemLogs.BackfillItem` | internal/utils/archive_item_logs_migration.go:66-112 | One item moves with every reader's text unchanged, or its transaction leaves no trace; without a database fault it moves exactly when its chunks spell its column. |
| `LogMigration.ItemLogs.BackfillAll` | internal/utils/archive_item_logs_migration.go:46-64 | Ends on every table; success leaves no legacy text, any error but a database fault names an item that cannot be moved, and every log reads as before either way. |
| `Lifecycle.CleanupSpares` | internal/workers/cleanup_worker.go:18-114 | Cleanup changes no completed row and no item with a running job of its type name. |
| `Lifecycle.CleanupFailsExactly` | internal/workers/cleanup_worker.go:18-114 | By status, seconds of age and job states, exactly which items a cleanup fails: pending ones without an available, running, retryable or scheduled job that are over 3600 seconds old or had a job discarded; processing ones over 3600 seconds old without a running job, or with a discarded job and none of those four; it changes nothing else. |
| `Lifecycle.CleanupLeavesNoOrphans` | internal/workers/cleanup_worker.go:18-114 | Afterwards every old pending item has an active job, every old processing item a running one, and no unfinished item is left with discarded jobs only. |
| `Lifecycle.CleanupTwice` | internal/workers/cleanup_worker.go:18-114 | A second run at the same instant changes nothing. |
| `Lifecycle.CleanupSeesSpelling` | internal/workers/cleanup_worker.go:53-64 | An old processing item stays so if and only if a running job spells its type as the item does. |
| `Lifecycle.CleanupSparesServed` | internal/workers/cleanup_worker.go:53-64 | With normalized running jobs, no item a worker is busy with is failed. |
| `Lifecycle.CleanupFailsServed` | internal/workers/cleanup_worker.go:53-64 | Without that, cleanup fails an old item that a worker is busy with: one whose only job still has the retired type name. |
| `Lifecycle.RenameKeepsPairs` | cmd/main.go:195-222 | Renaming items and live jobs together keeps every pair a pair. |
| `Lifecycle.HalfARenameParts` | cmd/main.go:191-194 | Renaming either side alone would part them. |
| `Lifecycle.RenamedIsNormal` | internal/utils/archive_types.go:34-47 | Renaming a canonical name, or exactly the retired one, normalizes it, and renaming again changes nothing. |
| `LifecycleQueue.Queue.Work` | internal/workers/archive_worker.go:55-108 | With others at work while the item shows as processing: success completes the item, an error on an attempt not below the maximum fails it and logs once, and an unknown item changes nothing. |
| `LifecycleQueue.Queue.MarkArchiveItemAsFailed` | cmd/main.go:133-174 | Fails the first unfinished item the raw arguments name, with one log row, and changes nothing else. |
| `LifecycleQueue.Queue.HandleEnd` | cmd/main.go:113-131 | Acts on last attempts only and never touches a completed row. |
| `LifecycleQueue.Queue.RunAttempt` | internal/workers/archive_worker.go:55-108 | After a last attempt of a job with a canonical type the item is completed or failed, however the attempt ended. |
| `LifecycleQueue.Queue.HandlePanickedItem` | cmd/main.go:123-153 | An item a panic left unfinished is failed if and only if the job spells its type canonically. |
| `LifecycleQueue.Queue.RunCleanup` | internal/workers/cleanup_worker.go:18-114 | Three independent updates: each item ends as it was or cleaned, and cleaned when no statement fails. |
| `LifecycleQueue.Queue.MigrateLegacyArchiveTypes` | cmd/main.go:195-232 | Exactly the types that read `youtube`, of items and of jobs that are not discarded, completed or cancelled, become `yt-dlp`, together or not at all. |
| `Models.NormalizeTwice` | internal/utils/archive_types.go:41-47 | Normalizing a type name is idempotent. |
| `Models.NormalizedLaw` | internal/utils/archive_types.go:49-74 | A normalized list repeats no name and loses none. |
| `Models.NormalizeArchiveTypes` | internal/utils/archive_types.go:51-74 | The loop keeps first occurrences in order. |
| `Subtitles.CompactTracks` | internal/archivers/video_metadata.go:210-219 | The list compacted in place over its own backing array is the stored tracks in order, each with its key; the rest of the array is untouched. |
| `Subtitles.ReconciledLaw` | internal/archivers/video_metadata.go:195-219 | Only stored tracks remain listed and no stored track is lost. |
| `Subtitles.ReconciledAppend` | internal/archivers/video_metadata.go:210-219 | Order is kept: the whole is reconciled part by part. |
| `Subtitles.ReconciledTwice` | internal/archivers/video_metadata.go:210-219 | Reconciling again with the same keys changes nothing. |
| `Subtitles.TranscriptNeedsTrack` | internal/archivers/video_metadata.go:220-225 | A reconciled record with a transcript still lists a stored track. |
| `Subtitles.SetSubtitleStorageKeys` | internal/archivers/video_metadata.go:199-227 | Records without tracks and other documents are returned unchanged; the rest are reconciled. |
| `Archivers.CaptionsLaw` | internal/archivers/ytdlp.go:270-330 | No caption suffix is used twice, each is `.sub.`, the language, a dot and one of the caption formats, and every usable caption file has its suffix among them. |
| `Archivers.CaptionFound` | internal/archivers/subtitles.go:57-68 | A readable file named after the video, a language and a caption format is the caption of that language and format, with the suffix `.sub.`, language and format. |
| `Archivers.CollectSubtitleArtifacts` | internal/archivers/ytdlp.go:270-330 | In whatever order the directory is read, one artifact and one track for each caption, of the first file of its suffix. |
| `Publication.KeysDistinct` | internal/workers/archive_worker.go:150-233 | Keys under one base are distinct if and only if the suffixes are. |
| `Publication.ArchivedDistinct` | internal/workers/archive_worker.go:150-233 | Whatever an archiver hands over, the suffixes its upload uses are distinct: artifact, captions, both records and the preview. |
| `Publication.NoKeyTwice` | internal/workers/archive_worker.go:361-369 | So under every key base one attempt has no key twice. |
| `Publication.AllCaptionsPublished` | internal/archivers/video_metadata.go:195-219 | When every caption of a video was stored, its record lists each with its own key, in order, and keeps the transcript. |
| `Publication.FreshBase` | internal/workers/archive_worker.go:361-369 | A key base apart from all others in use has no key yet. |
| `Publication.Archive.GuaranteeIsRely` | internal/workers/archive_worker.go:184-254 | An upload or row update of one worker is what every worker under a key base apart from its own assumes of the others. |
| `Publication.Archive.SaveArchiveResult` | internal/workers/archive_worker.go:184-254 | For everything an archiver hands over, among other workers and with any upload or update failing: completed rows and metadata tracks name stored objects throughout; no key is written twice; success publishes exactly the keys written; without a fault every extra is stored and a video's record lists all its captions; it fails only by a fault or a malformed document. |
| `Publication.Archive.Save` | internal/workers/archive_worker.go:184-254 | The same for any result whatever, as far as its suffixes are distinct. |
| `Publication.Archive.MarkCompleted` | internal/workers/archive_worker.go:236-254 | The one update that publishes: completed, with the keys given, and the preview as it found it. |
| `Publication.Archive.StoreExtras` | internal/workers/archive_worker.go:191-210 | Each extra is stored on its own; the keys recorded are those of stored extras, and of all of them when nothing fails. |
| `Publication.Archive.StoreThumbnail` | internal/workers/archive_worker.go:336-359 | The row is pointed at a preview only once it is stored, by one update that leaves status, storage key and both metadata keys as that update found them; this worker writes no other row, and none when it fails. |
| `Publication.Archive.Publish` | internal/workers/archive_worker.go:147-178 | The same over the whole publishing half: no key twice, preview included; failure only by a fault or a malformed document, and then no row is written. This worker writes no row but its own, with one update that publishes the result under its base and at most one that repoints the preview and nothing else; unless another worker updated the row meanwhile it ends up completed with exactly these keys. |
| `SeekableReader.SizeKeyIsOwnKey` | internal/storage/s3.go:104-114 | The size lookup's key is the object's key if and only if the prefix is empty or ends in a slash. |
| `SeekableReader.S3Reader.Read` | internal/storage/s3.go:380-390 | Under any prefix: returns the next bytes of the content from the position on, and advances by them; fails only by a fault, or where storage refuses to open at the position, as it does for no object and at the end. |
| `SeekableReader.S3Reader.Seek` | internal/storage/s3.go:392-441 | Case by case: offset from the start for 0, from the position for 1, from the size for 2, in range exactly there and otherwise at the nearer end of the object that was sized, which with a prefix that is empty or ends in a slash is the object itself, so a seek to the end returns its size; any other whence fails. The open body survives exactly the seeks that do not move, and still holds the content from the position on. |
| `SeekableReader.S3Reader.OpenReader` | internal/storage/s3.go:450-470 | A new body holds exactly the content from the position on; it fails only by a fault, without an object, or at its end. |
| `SeekableReader.ReadFull` | internal/handlers/gallery_dl_serve.go:46-60 | Reads repeat until the buffer is full, the content ends or a fault strikes. |
| `SeekableReader.ReaderAt.ReadAt` | internal/handlers/gallery_dl_serve.go:41-60 | The caller's buffer holds the content's slice at the position sought, a short read always carries an error, and the rest of the buffer is untouched; with a prefix that is empty or ends in a slash that slice is the one asked for, and without a fault its length is exact. |
| `BrowserFetch.FetchOneChunk` | internal/brightdata/browser_fetch.go:468-513 | One honest answer within three tries, and none repeated after a deterministic failure. |
| `BrowserFetch.FetchURLThroughPage` | internal/brightdata/browser_fetch.go:360-439 | Success stores exactly what the hint allows of the file, with or without a disclosed total; the count is the bytes written on every path; without a fault only an empty file or one shorter than the hint is lost. |
| `BrowserFetch.HintExact` | internal/brightdata/browser_fetch.go:360-439 | That is the whole file if and only if the hint is zero or not too small, or the server ignores ranges. |
| `BrowserSpend.UnseenLaw` | internal/brightdata/browser_fetch.go:308-323 | Refreshed candidates are distinct, trimmed, non-empty and never tried before, and none of those is lost. |
| `BrowserSpend.UnseenURLs` | internal/brightdata/browser_fetch.go:308-323 | The loop computes them. |
| `BrowserSpend.SessionDistinct` | internal/brightdata/browser_fetch.go:254-306 | With distinct first candidates no address is tried twice in a session, refresh included. |
| `BrowserSpend.Client.FetchCandidates` | internal/brightdata/browser_fetch.go:268-283 | Candidates are tried in order, the next one after every failure unless the context ends; only the last can have answered, and the bytes of all are counted. |
| `BrowserSpend.Client.FetchSession` | internal/brightdata/browser_fetch.go:254-306 | The bytes of a session are those of all its attempts, and any attempt makes it billable; one that tried and failed has tried every candidate, unless the context ended or a refresh failed. |
| `BrowserSpend.Client.MarkPolicyBlocked` | internal/brightdata/client.go:103-111 | A named host is blocked from then on; a nameless one cannot be. |
| `BrowserSpend.Client.NextSession` | internal/brightdata/browser_fetch.go:202-236 | One country's session joins the bill and ends the search on success or refusal; after any other failure the search goes on unless the context ended or the error was not worth another session. A refusal is remembered for the host. |
| `BrowserSpend.Client.FetchThroughBrowser` | internal/brightdata/browser_fetch.go:188-239 | Billed size is the sum over every attempt of every session and at least the stored bytes; sessions are those that connected, at most one per country, and every country has had one when all failed without such an interruption or a refusal; none is tried exactly when there is nothing to fetch or the host was refused before. |
| `Lex.SortForgetsOrder` | internal/archivers/git.go:184-190 | Sorting distinct names gives one list, whatever order they were read in. |
| `Lex.InOrderLaw` | internal/utils/canonical_url.go:614-623 | A set of keys has one listing in byte order, with every key once. |
| `Tar.AddDirToTar` | internal/archivers/git.go:178-232 | For every read order of every directory, the entries appended are the one packing of the tree; it fails only when a read or write does. |
| `Tar.PackNormalized` | internal/archivers/git.go:193-215 | Packing does not see modes and other metadata that normalization erases. |
| `Tar.PackedModes` | internal/archivers/git.go:203-211 | By octal digits: a file with any execute bit is packed as 0755, any other as 0644. |
| `Tar.UnpackRestores` | internal/handlers/git.go:82-129 | Unpacking the packed tree into an empty target gives the normalized tree there, empty directories included, and nothing else anywhere changes. |
| `Tar.PackUnpackPack` | internal/handlers/git.go:82-129 | Packing what was unpacked gives the same entries again. |
| `Tar.HoldsUnique` | internal/handlers/git.go:82-129 | A place in the file system holds at most one tree. |
| `Tar.FileSystem.UnpackGit` | internal/handlers/git.go:82-129 | The loop computes that unpacking and succeeds exactly when no call fails and the entries can be unpacked; on an error the target is gone or was never filled. |
| `GalleryFiles.CollectGalleryFiles` | internal/archivers/gallery_dl.go:600-627 | The sorted media with the sidecars that are really theirs. |
| `GalleryFiles.NamesDistinct` | internal/archivers/gallery_dl.go:665-675 | The names handed on are distinct because the files are. |
| `GalleryFiles.ServedAsDetected` | internal/archivers/gallery_dl.go:1028-1077 | A file renamed after its bytes is served, by its new name alone, as the media type they were recognized as. |
| `GalleryFiles.CanonicalizeGalleryFiles` | internal/archivers/gallery_dl.go:629-675 | Always a renaming: every file's bytes survive under exactly one name and nothing is overwritten, also on errors. On success each medium has the name its bytes call for, its sidecar is beside it, every other file is where it was, and the names returned, sorted, are exactly the directory's media, with their sidecars. Without a failing call an error means some new name is taken. |
| `GalleryFiles.Directory.RenameAvailable` | internal/archivers/gallery_dl.go:677-692 | A rename is let through exactly when the source is found and at the destination there is nothing or the same file, as far as no call fails. |
| `PhraseWatcher.WindowSeesStraddlers` | internal/archivers/gallery_dl.go:534-550 | The kept tail and the new bytes show the phrase exactly when the whole stream does. |
| `PhraseWatcher.Watcher.Write` | internal/archivers/gallery_dl.go:534-550 | Bytes are forwarded unchanged and the tail stays a suffix of the stream long enough for any straddling match. |
| `PhraseWatcher.Watcher.Seen` | internal/archivers/gallery_dl.go:552-556 | For every way of cutting a stream into writes, seen exactly when the phrase occurs in the whole; the empty phrase, which no caller passes, is seen from the first write on. |
| `Completeness.CompleteNeedsEvidence` | internal/archivers/completeness.go:66-83 | Complete exactly when a positive promised count is reached, partial exactly when it is not or a run without a count failed, unknown otherwise. |
| `Completeness.ReusableColumns` | internal/workers/queue.go:422-434 | By its columns: recorded `complete`, stored, a gallery or a video, and a video with both metadata documents. |
| `Completeness.SlidesAccounted` | internal/brightdata/gallery.go:45-91 | Stored plus missing is declared; the missing list is increasing and names exactly the lost slides. |
| `Completeness.TallyDownloads` | internal/brightdata/gallery.go:45-80 | The loop keeps the tally of the slides up to the first uninspectable file. |
| `Completeness.BuildGalleryArchive` | internal/brightdata/gallery.go:34-111 | Files, missing list and byte total are those of the declared slides, also when bundling them fails afterwards; complete when every slide is usable and partial otherwise; an uninspectable file ends the build with the bytes so far. |
| `Completeness.PartialNeverGreen` | internal/workers/queue.go:422-434 | An item recorded partial or unknown, or built with a missing slide, is neither reused for a default social request nor ever fulfilled. |
| `Completeness.FulfilledReachesExpected` | internal/handlers/archive_result.go:363-373 | A fulfilled answer has at least as many servable media as expected, whenever a count is known. |
| `Completeness.ServedVerdict` | internal/handlers/archive_result.go:447-485 | Served media short of a known count, or recorded partial, is partial; recorded unknown and not short is unknown; counts and missing list are handed on. |
| `Completeness.BuildSocialPost` | internal/handlers/archive_result.go:363-381 | Fulfilled is decided as specified and the status follows from it. |
| `Completeness.SelectSocialItem` | internal/handlers/archive_result.go:402-426 | The chosen item is a media item that no other outranks: the routed type first, then completion, then the later update, then order; none exactly when there is no media item. |
| `VideoVariants.WordIsNoMarker` | internal/brightdata/gallery.go:208-226 | A word of letters and digits, as media ids are, reads as a number of lines only when it is nothing but three or four digits and a p. |
| `VideoVariants.DimensionsScore` | internal/brightdata/gallery.go:252-258 | Dimensions written in decimal score width times height. |
| `VideoVariants.MarkerScore` | internal/brightdata/gallery.go:259-264 | Any other marker scores the number written in it, wherever it stands. |
| `VideoVariants.FindsUnique` | internal/brightdata/gallery.go:236-243 | Most specific pattern first and leftmost segment second leave one possible match. |
| `VideoVariants.FindVideoResolution` | internal/brightdata/gallery.go:245-268 | The two loops find that match, and none exactly when no segment matches any pattern. |
| `VideoVariants.VideoVariantKey` | internal/brightdata/gallery.go:316-327 | A URL that no pattern matches is named by its own text with score zero; any other by its host and the path segments before the one match there is, a first part of its host and path. |
| `VideoVariants.BestVideoVariants` | internal/brightdata/gallery.go:284-314 | One URL of every group, no group twice, in the order the groups first appear: the first of the highest score in its group. |
| `VideoVariants.UnmarkedKept` | internal/brightdata/gallery.go:316-318 | A URL without a marker is kept if and only if no other URL of the group its text names scores or comes first. |
| `VideoVariants.AbsoluteKept` | internal/brightdata/gallery.go:316-318 | An absolute URL without a marker is always kept among URLs that have a host, none of them ending in a colon. |
| `VideoVariants.UnmarkedDropped` | internal/brightdata/gallery.go:316-318 | One list in which such a URL is dropped. |

## Left out

- `CreateOnce.CreatedOnce`: other operations that write the tables (aliasing submissions, backfills, item status changes) do not run between its steps.
- `CreateOnce.CreatedOnce`: a transaction's reading is one step; its two queries are not separated.
- `LifecycleQueue.Queue.RunAttempt`: assumes that the worker's own status writes succeed; a job's River states are inputs.
- `Archivers.CollectSubtitleArtifacts`: whether a track is manual or automatic, and the transcript derived from the tracks, which is an input.
- `Publication.Archive.SaveArchiveResult`: key bases of different attempts are assumed apart, as fresh nonces make them; a broken upload leaves no readable object.
- `CaptureStore.Store.BackfillCanonicalURLs`: runs alone, as it does before the server starts; the batch size is a parameter.
- `Captures.CaptureStatusForTypes`: items of one capture and type are taken in id order, which the query does not fix.
- `SeekableReader.ReaderAt.ReadAt`: the mutex around the shared cursor; calls are whole.
- `Url.PrintParses`: `net/url` beyond what identities need: IPv6 hosts, host escapes, Unicode case folding and white space, and its limit on the number of parameters.
- `LifecycleQueue.Queue.Work`: the retry counter and the wording of logs.
- `CaptureStore.Store.CreateCapture`: the jobs enqueued after its transaction.
- `Tar.FileSystem.UnpackGit`: links, umask, and directories left behind by a failing creation of the target's parents.
- `GalleryFiles.Directory.RenameAvailable`: hard links; two names are one file only where the file system takes the names for one, as when it ignores case.
- `VideoVariants.BestVideoVariants`: how `net/url` splits an address into host and path is an input; letter case is ASCII's.
- `GalleryFiles.CanonicalizeGalleryFiles`: which extension a file's bytes call for; the detection is an input.
- Gallery indices read from file names (`internal/archivers/gallery_dl.go:355-415`): easy members beside the accounting that is modelled.
- Default archive types of an address: requests carry their types.
- Short-ID generation: a colliding ID fails the transaction here; the code draws again.
- Browsers, yt-dlp, gallery-dl, ffprobe, S3 and Bright Data beyond success, failure and bytes; provider field mapping.
- HTTP handlers, templates, sessions, API keys, log redaction and address validation.
- Waiting, deadlines and real clocks.
