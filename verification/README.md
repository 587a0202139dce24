# local-mark: a verified model of its hard parts

local-mark serves a bookmark database over HTTP from one small C program, and builds the database
with a Python script. This project models the parts of it that keep state or move bytes, and proves
what they promise, with Dafny 4.11: `dafny verify dfyconfig.toml` checks everything.

**Admission and execution.** The rate limiter (`RateLimitTable`, `RateLimitInvariants`,
`RateLimitActivity`, `RateLimit`) is an open-addressing table with linear probing, dormant entries, a
periodic sweep and growth; the hash is an arbitrary function, clock readings and allocation failures
are inputs. The thread pool
(`ThreadPoolMachine`, `ThreadPoolInvariants`, `ThreadPoolProgress`, `ThreadPoolShutdown`,
`ThreadPoolDrain`, `ThreadPool`) is a machine of atomic steps of any number of workers and submitting
calls and one destroyer, interleaved in any order, with spurious wakeups; the stop flag is written
without the lock. `Server` composes the two: a connection is admitted, submitted, queued, run or
dropped, and its end tells the limiter. The classes hold the code as it runs and are proved against
the value-level functions; the lemmas say what every run of those keeps.

**The bookmark database.** `BookmarkLine` parses one text line. `BookmarkCounters` edits the domain
and tag counters by one and compares them with counting afresh. `BookmarkFile` is the file with
create, sorting and the healthy filter, `BookmarkMerge` the merge loop of an update, `BookmarkUpdate`
the command around it; `BookmarkHistory` and `BookmarkOverride` hold what one update and any sequence
of commands guarantee, `BookmarkStored` what the text of a file becomes, `BookmarkCategories` which
categories there are and in what order. `Marks2Json` and `UpdateCommand` are the loops, the latter on bookmark objects
shared between the category lists and the url index. Python's `str.lower` and the domain of a url are
arbitrary functions.

**Caches and indexes.** `BookmarkCache` is the cache validated by modification time, read under a
two-phase read-write lock beside a file that changes at any moment, and `BookmarkCacheCalls` what its
calls come back with. `VfsHash` and `NextPow2` are the
probe table over the embedded files, which must answer like a scan.

**Codecs and parsers.** `Base64` and `Auth` (RFC 4648 section 4, RFC 7617 section 2), `HttpHeaders`,
`HttpLines` and `HttpUrl` (reading a request head in chunks, cutting it into lines, percent-decoding
per section 2.1 of RFC 3986), `FileServe` (byte ranges, section 14.1.2 of RFC 9110) and `JsonEscape`
(section 7 of RFC 8259).

`Sums`, `Division`, `Probing`, `Sorting`, `PyString`, `CString` and `Wrappers` are shared vocabulary.

Where the code does less than its comments or documentation suggest, the model follows the code, a
lemma shows a concrete case, and another says exactly when the promise holds:

- `ratelimit_sweep_stale` clears slots without repairing probe chains, so an ip can come to hold two
  slots and exceed its limit: `SweepBreaksUniqueness`; exactly when an accept exceeds it, in any table
  and with one slot per ip: `AcceptWithinLimitIff`, `UniqueWithinLimitIff`; over any run:
  `FreshRunWithinLimitIff`; exactly when an accept gives an ip a second slot: `AcceptUniqueIff`. That
  accepts and leaves balance holds regardless: `RunConserves`.
- `thread_pool_destroy` broadcasts without the lock, so a worker on its way to sleep can miss it and
  the joins then never return: `StrandingRun`, `DoomedForever`; exactly when they return, on every
  schedule: `JoinsReturnIff`; and then every call of submit returns as well, even one that missed its
  own broadcast: `ShutdownCompletes`.
- The request keeps 511 bytes of an Authorization header, so a configured user and password of 379
  bytes or more, counted with their colon, can never log in: `ConfiguredPairRefused`; exactly who is
  let in: `AcceptsExactlyThePair`.
- The first load of the cache reads the file before it asks for its modification time, so stale
  content can pass for current until the next write, and for longer than the "one request" the
  comment at src/bookmark_cache.c:165 speaks of: `StaleAfterFirstLoad`; exactly when the entry is
  current: `FirstLoadCoherentIff`; and exactly when every later copy is: `LaterCopiesCurrentIff`.
- `cmd_update` never forgets an overwritten key, so with repeated lines `--override` may leave an
  earlier line in force: `OverwrittenKeyIsNotForgotten`. And of several stored bookmarks with one url,
  which `create` writes when its files repeat a url, it updates only the last, so that the others stay
  as they were, even when every incoming url is distinct: `EarlierCopyStaysStale`. Exactly when the
  last line of a url is in force, for every database and every input: `LastLineIsStoredIff`, and
  `DistinctLineIsStoredIff` when no url comes in twice; what the file holds in every case, told from
  the input alone: `OverrideLeavesLastForm`.
- `bytes=-1` means "no range" and `bytes=-0` the whole file as a range (of a file that is not empty);
  a range that runs backwards gives 416 where RFC 9110 calls it invalid: `SuffixAnswered`,
  `PositionsAnswered` say exactly which requests are answered as the standard requires.

## Model

| member | source | states |
|---|---|---|
| RateLimit.RateLimit.constructor | src/ratelimit.c:98-120 | a new limiter is an empty table of 256 slots |
| RateLimit.RateLimit.Accept | src/ratelimit.c:122-179 | sweep, growth and probe loop done in place give the state and the answer the value-level accept gives, for every clock reading and allocation failure; no slot passes the limit and `used` never falls below the occupied slots; an ip that is admitted has an entry with the time of the accept |
| RateLimit.RateLimit.Leave | src/ratelimit.c:181-203 | the scan past empty slots removes one open connection from the first slot of the ip that has one, gives exactly that slot the time of the leave, and changes no other |
| RateLimit.RateLimit.Grow | src/ratelimit.c:54-80 | the new table is the rehash of the old one; a failed allocation changes nothing |
| RateLimit.RateLimit.SweepStale | src/ratelimit.c:84-96 | clears exactly the dormant slots older than the timeout; the unsigned `used--` never underflows |
| RateLimitInvariants.AcceptOk | src/ratelimit.c:163-168 | unconditional per-slot bound: no accept takes one slot's count past the limit |
| RateLimitInvariants.AcceptConserves | src/ratelimit.c:122-179 | in any table, placed well or not, swept or grown, an accept adds one to the admitted ip's total and changes no other total |
| RateLimitInvariants.LeaveConserves | src/ratelimit.c:181-203 | a leave takes one from its ip's total exactly when that is positive, wherever its slots are |
| RateLimitInvariants.RunConserves | src/ratelimit.c:122-203 | over every run, an ip's counts summed over all its slots are its successful accepts minus its effective leaves |
| RateLimitInvariants.RehashKeepsOpen | src/ratelimit.c:60-74 | growth keeps exactly the multiset of entries with open connections and leaves no dormant one, for any hash |
| RateLimitInvariants.RehashKeepsTotals | src/ratelimit.c:60-74 | growth changes no ip's total: every moved entry finds a free slot |
| RateLimitInvariants.RehashWellPlaced | src/ratelimit.c:60-74 | growth re-establishes gap-free probe chains from unique ips alone |
| RateLimitInvariants.SweepPlacement | src/ratelimit.c:84-96 | a sweep keeps every entry reachable if and only if it clears no slot on the probe path of an entry that survives |
| RateLimitInvariants.AcceptKeepsWellPlaced | src/ratelimit.c:142-174 | one reachable slot per ip is kept by accept, growth included, when its sweep is safe |
| RateLimitInvariants.LeaveKeepsWellPlaced | src/ratelimit.c:190-200 | and by leave |
| RateLimitInvariants.AcceptUniqueIff | src/ratelimit.c:122-174 | a whole accept, its sweep and growth included, gives an ip a second slot if and only if its probe stops at an empty slot, strdup succeeds and the ip sits further on |
| RateLimitInvariants.AcceptWithinLimitIff | src/ratelimit.c:145-174 | in any table, an accept keeps an ip within the limit if and only if it does not find it at its limit and stop at an empty slot it can take, or at one of several slots of the ip |
| RateLimitInvariants.UniqueWithinLimitIff | src/ratelimit.c:122-174 | with one slot per ip: if and only if it does not find the ip at its limit and stop at an empty slot, strdup succeeding |
| RateLimitInvariants.FreshRunWithinLimitIff | src/ratelimit.h:20-25 | over every run from creation, whatever its sweeps, no ip is past the limit at any moment if and only if no accept of the run is of that kind |
| RateLimitInvariants.RunKeepsLimit | src/ratelimit.h:20-25 | in particular: while no sweep cuts a surviving probe path, one reachable slot per ip is kept and no ip ever has more than the configured number of open connections |
| RateLimitInvariants.AcceptExact | src/ratelimit.c:122-179 | with growth and strdup succeeding and a safe sweep, an ip is admitted if and only if it is below its limit |
| RateLimitInvariants.AcceptExcess | src/ratelimit.c:88-93 | `used` exceeds the occupied slots by exactly the dormant entries growth dropped, and is never negative after a sweep |
| RateLimitInvariants.RunKeepsLoad | src/ratelimit.c:136-140 | over every run `used` is the occupied slots plus what growths dropped; while growth succeeds, used*4 <= table_size*3 |
| RateLimitInvariants.GrowsAtThreeQuarters | src/ratelimit.c:136-141 | an accept doubles the table exactly when, after its sweep, used*4 >= table_size*3 and the allocation succeeds |
| RateLimitInvariants.TableNeverFull | src/ratelimit.c:145-178 | while growth succeeds the probe loop never runs off its end: the table-full refusal is unreachable |
| RateLimitInvariants.SweepBreaksUniqueness | src/ratelimit.c:84-158 | a run with limit 1 after which one ip holds two slots and two open connections |
| RateLimitActivity.LeaveRefreshes | src/ratelimit.c:190-200 | a leave sets last_activity of the one slot whose count it lowers, if the ip has one, and leaves every other slot as it is |
| RateLimitActivity.AcceptRefreshes | src/ratelimit.c:145-174 | beyond its sweep and growth an accept changes only a slot of its ip, which it gives its time, also when it turns the ip away at its limit |
| RateLimitActivity.EntryStaysIff | src/ratelimit.c:60-96 | over every run that leaves its ip alone, an open entry stays as it is, and a dormant one if and only if the table never grows and no sweep comes more than 60 seconds after it was last touched |
| RateLimitActivity.LeftIsRemembered | src/ratelimit.c:84-96 | so a connection that ends leaves an entry that survives every sweep of the next 60 seconds, until the table grows or the ip comes back |
| RateLimitActivity.DormantAreRecent | src/ratelimit.c:130-135 | over every run with a clock that does not go back, after each accept every dormant entry was touched less than 120 seconds ago |
| ThreadPoolMachine.PutAppends | src/thread_pool.c:127-129 | the ring's index arithmetic appends to the queue it stands for |
| ThreadPoolMachine.TakeRemovesFirst | src/thread_pool.c:55-57 | and removes the oldest element |
| ThreadPoolInvariants.StepKeepsInv | src/thread_pool.c:40-147 | every step of every thread keeps mutual exclusion, what each thread has read, the wakeup bounds and the ledger of submitted work |
| ThreadPoolInvariants.ServesInOrder | src/thread_pool.c:55-129 | on every interleaving, what was taken from the ring followed by its contents is what was written to it, in order |
| ThreadPoolInvariants.NeverTwice | src/thread_pool.c:55-124 | nothing submitted is ever run twice, dropped twice, or both run and dropped |
| ThreadPoolInvariants.NothingEntersAfterExit | src/thread_pool.c:50-53 | once one worker has exited, stop is set, the queue is empty, and no later submit enqueues, whatever happens next |
| ThreadPoolInvariants.ExactlyOnce | src/thread_pool.c:111-147 | when all workers have exited, whatever was submitted by a call that returned was run exactly once or dropped exactly once |
| ThreadPoolInvariants.NoLostWakeup | src/thread_pool.c:47-60 | a worker sleeps only while the queue holds no more than the woken workers yet to recheck; a submitter only while the queue and the woken submitters fill the capacity |
| ThreadPoolProgress.EveryStepWorks | src/thread_pool.c:44-135 | in every state, before shutdown and after, every step of a worker or a submitting call that is not a spurious wakeup lowers a measure of the work left |
| ThreadPoolProgress.WorkGetsDone | src/thread_pool.c:44-135 | before shutdown, with no spurious wakeup to help: every schedule without new submits ends within a number of steps known beforehand, and when no thread can go on the queue is empty, every submit has returned true, and everything ever submitted was run exactly once |
| ThreadPoolShutdown.WorkersAllWokenIff | src/thread_pool.c:141-143 | the first broadcast of destroy leaves no worker asleep, then or ever after, if and only if no worker is between reading stop and waiting |
| ThreadPoolShutdown.CallsAllWokenIff | src/thread_pool.c:141-144 | likewise the second broadcast and blocked submitters |
| ThreadPoolShutdown.ParkingIsDoomed | src/thread_pool.c:47-48 | a worker between reading stop and waiting at the first broadcast misses it, and no call is left that could still signal |
| ThreadPoolShutdown.DoomedForever | src/thread_pool.c:146-147 | on every run after that the worker never exits and the joins never return, unless it wakes spuriously |
| ThreadPoolShutdown.StrandingRun | src/thread_pool.c:137-147 | a reachable run that strands a worker |
| ThreadPoolDrain.EveryStepDrains | src/thread_pool.c:44-147 | once stop is set and no worker is asleep or about to sleep, every step of every thread, submitters asleep at a full queue and destroy included, lowers a measure; only a new submit adds to it |
| ThreadPoolDrain.JoinsReturnIff | src/thread_pool.c:141-147 | after the first broadcast the joins return on every schedule without spurious wakeups if and only if no worker was between reading stop and waiting |
| ThreadPoolDrain.ShutdownCompletes | src/thread_pool.c:137-147 | and then every schedule, spurious wakeups and new submits included, is bounded, and stops only with all workers exited, the queue empty, every submit returned and destroy past its joins |
| ThreadPool.ThreadPool.WorkerLooks | src/thread_pool.c:47-57 | waits, exits or removes the oldest element, each exactly when it should; in any pool with this ring, what the machine's test and take steps do |
| ThreadPool.ThreadPool.SubmitLooks | src/thread_pool.c:117-129 | waits, drops or appends, each exactly when it should; in any pool with this ring, what the machine's test, choose and store steps do |
| Server.StepKeepsInv | src/server.c:429-441 | every step of acceptors, submitters, workers and destroy keeps limiter totals equal to live jobs |
| Server.EndOfJobIsCounted | src/server.c:51-59 | whichever way a job ends, its ip's total is positive, so its one leave takes effect, takes away that job alone, and gives an entry of the ip the time it happens |
| Server.TotalsAreLiveJobs | src/server.c:134-137 | at every state of every run the limiter's total for an ip is the number of its jobs admitted, being submitted, queued or running |
| Server.NothingLeftAfterDestroy | src/server.c:446-449 | when the workers have exited and every submit has returned, every total is zero |
| Server.LiveJobsAreLimited | src/server.c:429-436 | while sweeps are safe, no ip ever has more live jobs than configured |
| Server.AdmitsIffBelowLimit | src/server.c:429-436 | a connection is turned away if and only if its ip has its full number of live jobs, given growth, strdup and a safe sweep |
| Server.ServerRunNeverDrops | src/server.c:429-447 | in server_run's own order of accept, submit and destroy the drop function is never called |
| Server.ServerRunEndsClean | src/server.c:444-449 | after its destroy every admitted job was run exactly once and every total is zero |
| Server.TotalsFromStart | src/server.c:429-441 | in every state of every run from the start of a server with a limit, the total of an ip is the number of its live jobs |
| Server.NothingLeftFromStart | src/server.c:446-449 | and zero once the workers have exited and every submit has returned |
| Server.ConfigurationHolds | src/server.c:290-300 | in every state of every run there are as many workers as configured, and a limiter, with the configured limit, exactly when a positive one is configured |
| Server.UnlimitedFromStart | src/server.c:429-436 | without a configured limit every arrival is admitted |
| Server.AdmitsFromStart | src/server.c:429-436 | with one, in every state reached while sweeps are safe and growth succeeds, an arrival is admitted if and only if its ip has fewer live jobs than the configured limit, given growth, strdup and a safe sweep of its own |
| Server.LimitFromStart | src/server.c:429-436 | and never more than configured while sweeps are safe |
| Server.ServerRunFromStart | src/server.c:429-449 | server_run from start to end: nothing dropped, every job run once, every total zero |
| BookmarkCounters.AdjustForNew | marks2json.py:121-136 | adding a bookmark's domain and tags, repeated tags included, makes the counters count it |
| BookmarkCounters.AdjustForOverride | marks2json.py:414-416 | minus one for the old fields, plus one for the new makes the counters count the replacement |
| BookmarkCounters.AgreeIsRecalc | marks2json.py:139-150 | counters count the bookmarks if and only if they are what recalc_counters gives |
| BookmarkHistory.CountersNeverDrift | marks2json.py:321-603 | after create and any sequence of updates, with or without override, and healthy filterings, the counters are those recalc_counters gives, all are positive, and the file is sorted |
| BookmarkHistory.UpdateKeepsConsistent | marks2json.py:402-457 | one update, written or not, keeps the counters right, also when it overrides an entry added earlier in the same run |
| BookmarkHistory.UpdateAddsExactlyTheNew | marks2json.py:405-443 | without override every stored bookmark stays in its category as it is, and each new url's first line is added to its file's category: nothing else changes |
| BookmarkHistory.UrlsKeepTheirCategory | marks2json.py:411-443 | with or without override, no url moves to another category, and new ones go to that of the first file that has them |
| BookmarkHistory.OtherBookmarksUntouched | marks2json.py:402-443 | no update touches a bookmark whose url does not come in |
| BookmarkHistory.UpdateUrlCount | marks2json.py:405-426 | a new url is stored exactly once, the number of entries of any other url stays |
| BookmarkHistory.UpdateKeepsUrlsUnique | marks2json.py:405-426 | unique urls stay unique |
| BookmarkHistory.SecondUpdateWritesNothing | marks2json.py:445-449 | without override a second run on the same files writes nothing |
| BookmarkHistory.OverrideStoresEveryLine | marks2json.py:411-420 | with override and distinct urls on both sides, every incoming line is stored exactly once with all its fields |
| BookmarkHistory.SecondOverrideChangesNothing | marks2json.py:405-465 | with distinct urls on both sides, running it again leaves the file's data equal |
| BookmarkOverride.LastLineIsStoredIff | marks2json.py:405-420 | for every database and every input, repeated urls included: every bookmark the file holds for a url has the fields of its last line if and only if at its turn that line was not in known_bookmarks or was stored already, and every earlier stored bookmark with the url had those fields before |
| BookmarkOverride.DistinctLineIsStoredIff | marks2json.py:405-420 | with distinct incoming urls: if and only if every earlier stored bookmark with the url had those fields before |
| BookmarkOverride.EarlierCopyStaysStale | marks2json.py:376-381 | a url stored twice and one line that overrides it: the earlier bookmark stays as it was |
| BookmarkOverride.OverrideLeavesLastForm | marks2json.py:376-426 | for every database and every input, icons included: the file holds for a url exactly the earlier stored bookmarks with it, unchanged, and the last form its entry takes, where a line equal to a form it has had is ignored and an icon survives a line without one |
| BookmarkOverride.OverrideLeavesLastNew | marks2json.py:376-426 | without icons that form is the last bookmark that was new when it came, counting the entry in the database and then the lines in order |
| BookmarkOverride.StoredIconSurvives | marks2json.py:414-417 | for an entry with an icon, and lines without, it is always the last line, with that icon |
| BookmarkMerge.StoredIff | marks2json.py:406-420 | one merge step leaves the fields of its line in the entry of the url if and only if the line was not in known_bookmarks or they were there already |
| BookmarkMerge.OverwrittenKeyIsNotForgotten | marks2json.py:406-417 | a stored line overridden by another is not put back by a later copy of itself |
| BookmarkMerge.MergeAppends | marks2json.py:405-426 | without override the merge loop appends exactly the first line of each new url |
| BookmarkMerge.IndexIsLast | marks2json.py:376-381 | existing_by_url names the last bookmark of every url that is not empty, and no other |
| BookmarkFile.CreateIsExact | marks2json.py:321-345 | the created file holds, in the category of its text file, one bookmark for every line that gives one and no other, sorted, with counters that count them |
| BookmarkStored.EntryOfLine | marks2json.py:184-276 | what any line stores: nothing, or the first two texts as title and description, the last url, all tags, the domain of that url, and the icon exactly if the url is that of a channel |
| BookmarkStored.PrintedIsStored | marks2json.py:234-240 | a printed line of clean fields stores exactly these fields under their names |
| BookmarkStored.EntriesConcat | marks2json.py:301-312 | the lines of a file are taken one by one, in order |
| BookmarkStored.FilesConcat | marks2json.py:292-316 | and so are files |
| BookmarkStored.CreateStoresPrinted | marks2json.py:321-345 | a text file of printed lines becomes one category, under its name, with for each line exactly one bookmark that has the fields of the line, and counters that count them; an empty file becomes nothing |
| BookmarkStored.CreateStoresEveryPrinted | marks2json.py:321-345 | created from any files, a database stores every printed line among them in the category of its file |
| BookmarkStored.UpdateStoresPrinted | marks2json.py:402-443 | a printed line of a url the database does not have is added by an update, with or without override, exactly once, in the category of its file, with its fields, and the file is written; nothing else changes |
| BookmarkCategories.CreateCategories | marks2json.py:313-315 | a created file has one category for every text file that gives a bookmark, and none that is empty |
| BookmarkCategories.HealthyKeepsCategories | marks2json.py:581-596 | the healthy database has exactly the categories with a healthy bookmark |
| BookmarkCategories.KeepsOrder | marks2json.py:581-596 | and leaves the bookmarks it keeps in order |
| BookmarkCategories.ShelvesFirst | marks2json.py:433-443 | additions go to the end of the first category with the name, or to a new category at the end |
| BookmarkCategories.UpdateCategories | marks2json.py:402-443 | an update keeps every category, and makes one for each new name a new url comes in under, however many files have it |
| BookmarkCategories.WrittenIff | marks2json.py:445-449 | the file is written if and only if some line, at its turn, is not known and is of a new url or comes with override; otherwise it is left as it is |
| BookmarkFile.HealthyIsExact | marks2json.py:581-596 | the healthy database holds every copy of every bookmark with a healthy url, in its category, and no other, with counters that count them |
| BookmarkFile.SortKeepsContent | marks2json.py:114-118 | sorting moves bookmarks only inside their category |
| BookmarkFile.SortOrders | marks2json.py:108-118 | it leaves categories in order of name and bookmarks in order of title, description or url |
| BookmarkCategories.OrderedMeans | marks2json.py:108-118 | in a sorted file the stripped lower-cased category names ascend, and within each category the stripped lower-cased first of title, description and url that is not empty |
| Sorting.AtMostAtDifference | marks2json.py:117-118 | strings are ordered by the first character in which they differ |
| Sorting.SortKeepsOrder | marks2json.py:117-118 | the sort is stable |
| Marks2Json.RecalcCounters | marks2json.py:139-150 | the nested counting loops |
| Marks2Json.ReadFiles | marks2json.py:279-316 | the counters kept while parsing count the bookmarks returned |
| Marks2Json.CreateDatabase | marks2json.py:321-345 | the created file |
| Marks2Json.WriteHealthy | marks2json.py:581-596 | the healthy file |
| UpdateCommand.Updater.AdjustCounters | marks2json.py:121-136 | the counter edits in place, with removal at zero |
| UpdateCommand.Updater.OverrideItem | marks2json.py:411-418 | the shared object changes in place, seen from its category and from the index alike |
| UpdateCommand.Updater.AddItem | marks2json.py:422-426 | a new object enters the index at once |
| UpdateCommand.Updater.AbsorbCategory | marks2json.py:402-443 | one new category merged, and what it adds shelved under its name |
| UpdateCommand.UpdateDatabase | marks2json.py:351-465 | the whole command on shared objects gives the outcome the value-level update gives, including whether the file is written |
| BookmarkLine.ClassifyParts | marks2json.py:205-222 | the classification loop |
| BookmarkLine.ClassifyByKind | marks2json.py:210-222 | its result depends only on the texts, the urls and the tag fields, each in their own order |
| BookmarkLine.ParsedByKind | marks2json.py:194-225 | exactly what any line yields: nothing for a comment, more than four fields or no url field; else the first two texts, the last url and all tags; the scheme test at the top decides nothing more |
| BookmarkLine.TagsOfField | marks2json.py:213-218 | of any tag field exactly the words that start with '#' and have something after it are tags |
| BookmarkLine.OrderDoesNotMatter | marks2json.py:210-222 | lines with the same texts, urls and tag fields parse alike however these are interleaved, provided neither starts with a tag field |
| BookmarkLine.FieldsParseBack | marks2json.py:194-222 | any line whose pieces hold clean fields, title before description, parses back to exactly those fields unless it starts with its tag field |
| BookmarkLine.PrintedLineParses | README.md:92 | fields printed in the documented form parse back to exactly those fields |
| BookmarkCache.StepKeepsInv | src/bookmark_cache.c:128-201 | every step of any number of calls and writes keeps the invariant, unless it records, after a first load, the modification time of other content |
| BookmarkCache.CopiesAreCurrent | src/bookmark_cache.c:154-201 | without such a step, each returned copy is content the file held between the start of the call and its return |
| BookmarkCacheCalls.EmptyMeansFailed | src/bookmark_cache.c:141-201 | on every run, whatever is written meanwhile, a call comes back with nothing only if a load of its own failed |
| BookmarkCacheCalls.CallGetsContent | src/bookmark_cache.c:154-201 | so a call whose loads succeed is given content the file held since it began, and the current content if nothing was written since |
| BookmarkCacheCalls.CallsReturn | src/bookmark_cache.c:154-201 | however calls and writes are interleaved, calls under way have only so many steps before them |
| BookmarkCacheCalls.StuckMeansReturned | src/bookmark_cache.c:157-180 | and only when all have returned can none go on: the two phases of the lock never block each other |
| BookmarkCacheCalls.SlowCallRefreshes | src/bookmark_cache.c:141-151 | a call on the slow path since whose beginning nothing was written leaves the current content under the current modification time |
| BookmarkCacheCalls.NextCallReloads | src/bookmark_cache.c:141-151 | a call that finds another modification time than the entry's can always go on to reload and is given the current content |
| BookmarkCache.ReloadKeepsCoherence | src/bookmark_cache.c:141-151 | reload keeps "equal mtime means current content" under arbitrary concurrent writes |
| BookmarkCache.FirstLoadCoherentIff | src/bookmark_cache.c:132-138 | first load does so if and only if the content did not change between its load and its stat |
| BookmarkCache.LaterCopiesCurrentIff | src/bookmark_cache.c:128-201 | with any other calls under way, every copy given to a call begun after a first load is current, whatever happens next short of another such load, if and only if the content did not change between its load and its stat |
| BookmarkCache.StaleAfterFirstLoad | src/bookmark_cache.c:132-138 | a run in which a later call is given content replaced before it began |
| BookmarkCache.CacheEntry.EnsureLoaded | src/bookmark_cache.c:128-152 | leaves content the file held during the call; a filled entry stays coherent; in any cache with this file and entry it does what the steps of a call holding the write lock do, failing loads included |
| BookmarkCache.CacheEntry.Load | src/bookmark_cache.c:60-78 | a short read empties the entry, a complete one fills it with the current content |
| NextPow2.NextPow2IsLeast | src/vfs_hash.c:17-22 | bit smearing yields the least power of two at or above its argument |
| NextPow2.NextPow2IsPower | src/vfs_hash.c:17-28 | as a number it is 2 to some power |
| NextPow2.MaskIsModulo | src/vfs_hash.c:51-54 | masking with a power of two less one is taking the remainder |
| VfsHash.CapacityIsPower | src/vfs_hash.c:11-28 | the capacity is a power of two, at least twice the files and less than four times as many, for every setting of the knob at which the macro's signed arithmetic does not overflow, that is, up to 2^29 files |
| VfsHash.VfsHash.constructor | src/vfs_hash.c:28-30 | so the slots the index masks with are a power of two in number |
| VfsHash.InsertExtends | src/vfs_hash.c:51-65 | filling the first free probe extends the index by one entry, also when that fills the table |
| VfsHash.LookupIsScan | src/vfs_hash.c:86-105 | the probe answers like a scan for the first entry with the path, also in a full table |
| VfsHash.VfsHash.Init | src/vfs_hash.c:32-71 | completes without abort if and only if the files fit the slots, and then indexes them all, keeps their paths and contents, and gives each that is not empty the hash of its contents |
| VfsHash.VfsHash.Lookup | src/vfs_hash.c:86-105 | returns the first entry with the path, or none exactly when there is none |
| Base64.DecodeEncode | src/auth.c:37-82 | decoding inverts the encoding of section 4 of RFC 4648 for every byte string |
| Base64.AlphabetIsStandard | src/auth.c:23-31 | exactly the characters of table 1 of RFC 4648 are read, with their values |
| Base64.ForeignCharacter | src/auth.c:37-82 | text with any other character than these and '=' does not decode |
| Base64.UnpaddedIff | src/auth.c:37-82 | text without padding decodes if and only if it is whole groups of four letters |
| Auth.B64Decode | src/auth.c:37-82 | writes the longest prefix of the decoded bytes that leaves room for the NUL; -1 exactly for malformed text |
| Auth.AuthCheck | src/auth.c:86-144 | lets in exactly headers that carry the configured user, a colon and the configured password, or everyone when neither is set |
| Auth.EncodedCredentials | src/http.c:172 | the 511 bytes the request keeps of a header for a pair carry exactly that pair, up to a NUL in it, if the header fits, and nothing that decodes if it is cut |
| Auth.SchemeInAnyCase | src/auth.c:110-113 | the scheme is exactly "basic" in any case, and a space |
| Auth.SchemeVariants | src/auth.c:110-118 | neither its case nor the number of spaces after it changes what a header carries |
| Auth.AcceptsExactlyThePair | src/auth.c:86-144 | the header a client builds for u and p is let in if and only if neither user nor password is configured, or they are the configured pair and the header fits, that is, they have at most 378 bytes with their colon |
| Auth.ConfiguredPairRefused | src/http.h:32 | a configured pair of 379 bytes that is refused |
| HttpHeaders.RescanMissesNothing | src/http.c:74-84 | looking again at the last three bytes is enough to find a blank line that spans two reads |
| HttpHeaders.Transport.Read | src/http.c:69-70 | any positive number of the next bytes, at most as many as asked for |
| HttpHeaders.ReadHeaders | src/http.c:62-88 | a head that ends before byte max is returned exactly, however the stream is cut into reads; the result is that of the loop over what the reads delivered; all indices and the NUL stay inside the buffer |
| HttpHeaders.ReadsHead | src/http.c:66-85 | the loop over any sequence of reads returns such a head |
| HttpHeaders.OutcomeFixedIff | src/http.c:66-87 | every two sequences of reads give the loop the same result if and only if the head ends before byte max, the stream is shorter than the buffer, or the buffer is too small for a read |
| HttpLines.SplitLines | src/http.c:236-257 | the line loop, writing NULs in place, sees exactly the lines of the text |
| HttpLines.HeadParsesBack | src/http.c:226-257 | a head that ends before byte max comes out of the reads, and of the cutting, as exactly the lines it was made of, whatever follows it |
| HttpLines.ParseRequest | src/http.c:211-257 | reading into the 8192-byte buffer and cutting it in place gives exactly those lines, or nothing on an error |
| HttpUrl.UrlDecode | src/http.c:39-56 | writes the longest prefix of the decoded text that leaves room for the NUL |
| HttpUrl.DecodesEverySpelling | src/http.c:39-56 | decoding gives back the bytes of every text that writes each as itself, unless it is a percent or plus sign, or escaped with digits of either case, or, for a space, as a plus sign |
| HttpUrl.StrayPercent | src/http.c:43-53 | a percent sign that two hexadecimal digits do not follow stands for itself |
| FileServe.ParsedFields | src/http.c:185-200 | the text of every range reads back as the fields it stands for, numbers beyond 64 bits as absent |
| FileServe.StrtollReads | src/http.c:189-200 | blanks and a plus sign before a number change nothing, what follows its digits is ignored, and no digits read as 0 |
| FileServe.ParseRange | src/http.c:182-205 | a header value in the notation of the standard sets the fields of its range over those set before; another unit, or no dash, sets none |
| FileServe.ServeRange | src/file.c:112-147 | without a range, 200 with exactly the file; with one, 206 or 416, and every 206 has 0 <= first <= last < length and a body equal to that slice |
| FileServe.FileServe | src/file.c:51-147 | 405 exactly for methods other than GET and HEAD; 404 exactly when no embedded file has the path without its leading slash, or is index.html for the root; 304 exactly when the tag sent is not empty and is that of the first such file; else, without a range, 200 with exactly its contents |
| FileServe.PositionsAnswered | src/http.h:39-40 | `a-b` and `a-` are answered as section 14.1.2 of RFC 9110 requires if and only if the range is valid and its first position fits 64 bits |
| FileServe.SuffixAnswered | src/file.c:115-121 | `-n` is, for every file, if and only if n is from 2 to 2^63, or n is 0 and the file is empty |
| FileServe.StartBeyondEnd | src/file.c:132-140 | a start at or beyond the end gives 416, for every start that fits 64 bits |
| JsonEscape.JsonEscapeString | src/databases_meta.c:21-55 | succeeds if and only if the escaped text and its NUL fit the buffer, and then has written exactly them |
| JsonEscape.EscapeLength | src/databases_meta.c:24-51 | the escaped length is between that of the source and six times as much |
| JsonEscape.EscapeWidth | src/databases_meta.c:24-51 | a quote, a backslash and the five control characters that have one take a two-character escape, other control characters six, and nothing else is escaped |
| JsonEscape.NoRawControls | src/databases_meta.c:34-41 | escaped text holds no raw control character |
| JsonEscape.ReadsBack | src/databases_meta.c:21-55 | put between quotes it reads back, by section 7 of RFC 8259, as the source and nothing more: no quote inside ends it early |
| JsonEscape.EscapeInjective | src/databases_meta.c:21-55 | two strings never escape to the same text |

## Left out

- Transport, sockets, TLS, `make_listener`, `peer_addr`: a connection is its bytes, cut into reads at will.
- The exact hashes (djb2, FNV-1a): arbitrary functions, so the table results hold for every hash; wrap-around of `size_t` when a table grows past memory is not modelled.
- Freeing of memory, and `ratelimit_destroy` and `bookmark_cache_cleanup`, which only free.
- ThreadPoolDrain.ShutdownCompletes: counts a job's function as one step that returns; a keep-alive connection that never ends is left out.
- The failure of `ratelimit_create` under a positive limit, after which the server runs without a limiter: the model has one whenever a limit is set.
- Creating threads, and the failure of `pthread_create`; weak memory: steps are sequentially consistent.
- A NULL drop function or argument of `thread_pool_submit`: the server passes both.
- The keep-alive loop, request handling and signal flag inside `handle_client`: a job runs and then ends.
- `parse_request_line`, which splits the first line at its spaces; the header fields other than Range and Authorization, which are copied into fixed fields; the formatting of responses, ETags and logs.
- `src/api.c`, the `stat`, `realpath` and user-name parts of `src/databases_meta.c`, `src/mime.c`, `src/header_cache.c`, `front_end/`.
- `g_db_cache` holds several entries under one lock; the model has one, as entries do not interact. A failing `stat` and a failing `malloc` of the copy are not modelled.
- BookmarkCache.CacheEntry.EnsureLoaded: takes loads as atomic and writes as giving strictly increasing modification times, as the cache itself assumes.
- JsonEscape.ReadsBack: of the four-digit escapes the reader knows only those for ASCII, the only ones the escaper writes.
- Fetching and caching icons: the icon a lookup gives for a line is part of the input. Status checks of `find-dead`: the set of healthy urls is an input.
- File names: sorting and existence of the text files, `format_category_name`, and splitting a file into lines.
- Databases whose bookmark dicts lack fields that `create` and `update` always write, and other hand-made shapes of the JSON file.
- The text of the JSON file: `json.dumps` with sorted keys is taken as determining the bookmark, so a bookmark is its own key.
