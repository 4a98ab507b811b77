# Silksocks, modelled and proved

Silksocks is a SOCKS5 forwarding proxy in C. This project models the five parts
of it that work on state and proves what they are for. Line numbers in the
`.dfy` files refer to the C file named at the top of each.

| files | part of the program |
|---|---|
| `pool.dfy`, `pool_invariant.dfy`, `pool_progress.dfy`, `pool_lifecycle.dfy` | `thpool.c` as a transition system: every worker, every caller of `thpool_add_work`, one caller of `thpool_wait`, and the thread that initialises and destroys the pool; its invariant; its termination measure; start-up and shutdown |
| `jobqueue.dfy` | the linked job queue of `thpool.c`, changed in place, refining the queue of the transition system |
| `dns_spec.dfy`, `dns_reclaim.dfy`, `dns_log.dfy`, `dns_pool.dfy`, `hashtbl.dfy` | `hashtbl.c`: what it computes on chains and why that is a time-to-live map; what each operation gives back to the pool; the table as one list, refusals included; the pool of entries as linked memory; the table itself, changed in place |
| `hash.dfy`, `name_hash.dfy`, `probing.dfy`, `cache.dfy`, `cache_app.dfy` | `cache.c`: the two hash functions, which names the second tells apart, linear probing over slots, the two caches |
| `bytes.dfy`, `wire.dfy`, `silkio.dfy`, `silkio_faults.dfy` | sockets and system calls, the loops of `silkio.c`, and exactly when they fail |
| `codec.dfy`, `answers.dfy`, `socks.dfy`, `agreement.dfy` | `socks.c`: messages as encoders and parsers, what is accepted and with which status the rest is refused, the handshake functions, two proxies talking to each other |
| `duplex.dfy`, `duplex_progress.dfy`, `duplex_delivery.dfy`, `relay.dfy`, `relay_splice.dfy` | `negotiate.c`: one abstract relay, what a turn of it moves, how soon a run has delivered everything, and the select, poll and splice versions refining it |
| `proxy.dfy` | `socks5_run` from the first byte to the last |
| `sums.dfy` | sums over sequences |

## How things are modelled

**Thread pool.** One step is a critical section whose data only that lock
protects, or one access to a variable that another thread may read meanwhile:
`len` is read by `thpool_wait` without the queue's lock, `threads_keepalive` and
`num_threads_alive` without any. The queue's lock and, in `thpool_wait`, the
counters' lock are held across steps. Memory is sequentially consistent. A
signal wakes one of those waiting, any one; spurious wake-ups are steps of their
own, allowed in every safety result and left out of the progress results. The
calls respect what the library asks: no call before `thpool_init` returns or
after `thpool_destroy` begins, and one caller of `thpool_wait` at a time. Job
functions terminate.

**System calls.** What each `read`, `write` or `splice` runs into is taken from
a script that belongs to the socket: a short count, EAGAIN, EINTR, an error.
Every statement is for every script. In blocking mode EAGAIN is a timeout. The
bytes to come on a socket are all that its peer sends before it closes; for a
run that has not seen the end, take what it has seen. `poll` and `select`
return a subset of what was asked for. An endless loop is modelled over the
calls to `poll` seen so far, for every such sequence.

**Keys, clocks and lookups.** The DNS table's key is the djb2 hash of the name,
and its clock does not run backwards. Name lookups, the database, `connect`,
`getsockname`, the parsing of the user name for an upstream address and the
comparison of passwords are arguments: any result may come. Allocation failure
is an argument too.

## What turned out

- `socks5_readreply` returns the REP field of a reply whose VER is not 5, even
  when REP is 0 (socks.c:242-247). Such a reply counts as success after four
  bytes, and its address and port are relayed to the client as data
  (`Codec.WrongVersionAccepted`). The streams are aligned exactly when the
  version is 5 (`Codec.ReplyConsumption`, `ProxyRuns.StreamsAligned`).
- The splice version asks for bytes while it counts fewer than 2^20 in a pipe
  (negotiate.c:191-194), but never sets the capacity of its pipes. When a pipe is
  full below that, the splice into it fails with EAGAIN and the turn starts over
  before anything is written (negotiate.c:217-225), so peers that are always ready
  can be left without a byte sent, for ever (`DuplexDelivery.SpliceJams`). It comes
  to its end if and only if both pipes hold 2^20 bytes
  (`DuplexDelivery.SpliceEndsIff`).
- The relay returns as soon as it sees the end of the upstream
  (negotiate.c:402-410), before it writes: a byte read in one turn is lost if the
  upstream has closed by the next (`DuplexDelivery.LastByteLost`). The client has
  been sent everything if and only if nothing was pending at that moment
  (`DuplexDelivery.AllSentIff`).
- The password cache and the DNS table know a name by its djb2 hash alone. Two
  names of one length that differ in one character are told apart
  (`NameHash.OneCharacterTells`), but "ab" and "bA" are not, nor any two names that
  differ only in these (`NameHash.TwoCharactersCollide`): each is answered with the
  other's entry.
- `hashtbl_put` looks at the free list first, so once every entry is chained it
  refuses even a key it holds, and even when every entry has expired
  (`DnsSpec.PutRefusesWhenFull`).
- Key 0 marks an empty slot in both caches. A put under key 0 changes nothing in
  the map but is counted, so the load bound is stated for caches that have never
  had one; everything else holds with such puts too.
- The status 7 for an unexpected method (socks.c:559-561) is never returned.
- The comment above `jobqueue_pull` says that the caller must hold a mutex; the
  code takes the lock itself, and that is what is modelled.

## Model

| member | source | states |
|---|---|---|
| PoolInvariant.NoJobStranded | thpool.c:349-362 | In every reachable state with the pool up, a queued job means the semaphore is set, or a worker has taken it and not yet pulled, or a holder of the queue is about to post; and a set semaphore with blocked workers has woken one of them |
| PoolInvariant.WaitReturnsWhenDone | thpool.c:197-203 | When `thpool_wait` returns, every job pushed before the call, and before its last read of `len`, has finished running, although `len` and the working counter are read separately |
| PoolInvariant.WaiterNotStranded | thpool.c:198-201 | A caller of `thpool_wait` that sleeps unsignalled has a queued job or a counted worker to wait for |
| PoolInvariant.JobsExactlyOnce | thpool.c:434-491 | Jobs leave in the order of their pushes, and every pushed job is exactly one of queued, in one worker's hands, completed, discarded |
| PoolInvariant.CountersCount | thpool.c:345-381 | `num_threads_working` and `num_threads_alive` are the numbers of workers between count-up and count-down |
| PoolInvariant.SafeShutdown | thpool.c:207-239 | The queue is torn down only when every worker has made its last access, the lock is free and no call is pending; jobs are discarded at no other time |
| PoolInvariant.StepInv | thpool.c:317-384 | Every step of every thread, spurious wake-ups included, keeps the whole invariant |
| PoolInvariant.ReachableInv | thpool.c:121-203 | The invariant holds for any number of threads and callers after any schedule |
| PoolInvariant.NotStrandedStep | thpool.c:465-491 | The baton passes: posting again when jobs remain keeps queued jobs from being stranded |
| PoolInvariant.WakerPendingStep | thpool.c:526-551 | No post is lost: one blocked worker is always under way to a set semaphore |
| PoolInvariant.SleepsWithReasonStep | thpool.c:370-375 | The signal at zero comes whenever it is owed, also if the queue empties between check and sleep |
| PoolInvariant.MarkHoldsStep | thpool.c:198-202 | What `thpool_wait` has read stays true until it returns |
| PoolInvariant.ExactlyOnceStep | thpool.c:362-368 | No step loses, duplicates or reruns a pulled job |
| PoolInvariant.CountersStep | thpool.c:355-375 | Each counter moves with the worker that crosses its region |
| PoolInvariant.ExclusionStep | thpool.c:436-489 | The queue's lock has one holder, who is where a holder should be |
| PoolInvariant.PhasesStep | thpool.c:168-235 | Start-up and shutdown go through their phases in order |
| PoolInvariant.NoneWorkingAllDone | thpool.c:370-372 | With nobody counted as working, every pulled job has completed |
| PoolLifecycle.NoJobBegunAfterShutdown | thpool.c:349-356 | Once `threads_keepalive` is cleared, under every schedule: a worker not engaged with a job never is again, and workers pull at most one more job for each that had passed its second test and not yet pulled |
| PoolLifecycle.DestroyCanFinish | thpool.c:207-239 | From every reachable state where `thpool_destroy` may be called, or has been, the workers and it have a way to the end: all workers gone, the queue freed, every job run or discarded |
| PoolLifecycle.InitCanFinish | thpool.c:160-171 | `thpool_init` can always go on to return, with every worker alive |
| PoolLifecycle.WorkerWaits | thpool.c:345-381 | A living worker waits for nothing but the semaphore, the queue's lock while another has it, and the counters' lock while `thpool_wait` has it |
| PoolLifecycle.CallersWait | thpool.c:434-455 | A caller of `thpool_add_work` waits for the queue's lock alone, one of `thpool_wait` for a signal alone |
| PoolProgress.BoundedQuiescence | thpool.c:349-378 | With a worker and no new calls, every schedule ends within a bound computed from the state, and only where the queue is empty, nobody works, every job has completed and `thpool_wait` has returned |
| PoolProgress.StepDescends | thpool.c:349-378 | Every step of every thread strictly lowers one measure of queue, semaphore and positions |
| PoolProgress.RestIsDone | thpool.c:465-491 | A state from which no thread can move has all work done |
| PoolProgress.QuiescenceReached | thpool.c:349-378 | From every such state there is a schedule to the end of all work |
| JobQueues.JobQueue.constructor | thpool.c:400-414 | A new queue is empty, with its semaphore at 0 |
| JobQueues.JobQueue.Push | thpool.c:434-455 | The linked list gains the job at its rear, as the transition system's push does, and posts |
| JobQueues.JobQueue.Pull | thpool.c:465-491 | The front job is unlinked, as the transition system's pull does, with a post exactly when jobs remain; an empty queue gives no job and stays as it is |
| JobQueues.JobQueue.Clear | thpool.c:418-429 | All queued jobs are pulled in order, and the semaphore ends at 0 |
| JobQueues.JobQueue.AddWork | thpool.c:176-193 | A job that gets memory is queued, one that does not leaves the queue alone |
| DnsSpec.TableIsTtlMap | hashtbl.c:29-126 | Over every history of puts and gets, on a table of any size, every get answers as a time-to-live map that ignores refused puts |
| DnsSpec.PutRefines | hashtbl.c:48-96 | `hashtbl_put` keeps an entry still ahead of its expiry and otherwise overrides it, across two clock readings; sweeping does not show from then on |
| DnsSpec.GetRefines | hashtbl.c:98-126 | `hashtbl_get` succeeds exactly when the map holds the hash with expiry now or later, with its value, and what it sweeps is not missed at any later time |
| DnsSpec.PutRefusesWhenFull | hashtbl.c:51-54 | `hashtbl_put` returns 0 exactly when all entries of the pool are chained, and then changes nothing |
| DnsSpec.PutInv | hashtbl.c:81-92 | A put keeps the pool exactly shared out, every entry in its bucket, and one entry a hash |
| DnsSpec.GetInv | hashtbl.c:110-115 | A get keeps the pool exactly shared out, every entry in its bucket, and one entry a hash |
| DnsSpec.PresentIsLive | hashtbl.c:40-44 | The check in `hashtbl_put` finds exactly what the map holds beyond now |
| DnsReclaim.GetReclaims | hashtbl.c:110-123 | After a get that finds nothing no expired entry is left in the bucket; after one that finds its entry, none ahead of it, and what follows is untouched; no live entry is lost; the free list grows by exactly what the chain loses |
| DnsReclaim.PutReclaims | hashtbl.c:65-92 | A put that stores leaves its entry in front and behind it exactly the live entries of other hashes; the free list grows by exactly what the chain loses |
| DnsReclaim.PutElse | hashtbl.c:51-59 | With the pool exhausted, or the hash held beyond now, a put changes nothing and answers 0 or 1 |
| DnsReclaim.RoomAfterMiss | hashtbl.c:110-115 | After a get that missed in a bucket with an expired entry, no put of any hash is refused |
| DnsLog.TableIsLog | hashtbl.c:29-126 | Over every history, whatever the clock does, every answer of the table, each refusal included, is that of one list of entries, newest first, without buckets, chains or a free list |
| DnsLog.PutHolds | hashtbl.c:48-96 | A put on chains is the put on the list |
| DnsLog.GetHolds | hashtbl.c:98-126 | A get on one chain is the get on the list |
| DnsPool.PoolConserved | hashtbl.c:81-92 | Every entry of the pool is on exactly one list: the free list or one chain |
| DnsPool.UnlinkLaid | hashtbl.c:83-86 | Unlinking through a pointer to a link, and freeing, leaves all lists acyclic and disjoint and every other chain unread |
| DnsPool.PopLaid | hashtbl.c:65-70 | Taking the first free entry leaves every chain as it was |
| DnsPool.HangLaid | hashtbl.c:91-92 | Hanging an entry at the front of its chain keeps the layout |
| DnsPool.FreshLaid | hashtbl.c:19-24 | After initialisation the free list threads the whole pool |
| HashTables.HashTable.constructor | hashtbl.c:6-27 | A new table has empty chains and a full free list |
| HashTables.HashTable.Init | hashtbl.c:13-17 | Either allocation failing gives -1 and no table |
| HashTables.HashTable.Check | hashtbl.c:29-46 | Whether the key has an entry beyond now |
| HashTables.HashTable.Put | hashtbl.c:48-96 | The table in memory changes, and answers, as the specification's put |
| HashTables.HashTable.Get | hashtbl.c:98-126 | The table in memory changes, and answers, as the specification's get |
| HashTables.HashTable.Sweep | hashtbl.c:81-90 | Exactly the entries of the same hash or past their expiry leave the chain and are freed, in order |
| HashTables.HashTable.Search | hashtbl.c:110-123 | The first live entry of the hash is found, and exactly the expired ones before it are freed |
| HashTables.HashTable.Unlink | hashtbl.c:83-86 | Four assignments through a link take one entry off its chain and onto the free list |
| Hash.Hash32Bijective | cache.c:14-23 | `hash32` is a bijection on 32-bit words, with an explicit inverse on both sides |
| Hash.UnmixSum | cache.c:16-20 | The three shifted sums are undone by modular inverses of 4097, 33 and 9 |
| Hash.UnmixXor | cache.c:17-21 | The two xor-shifts are undone by a second shift |
| Hash.UnmixAddXor | cache.c:19 | The add-xor step is undone nine bits at a time |
| Hash.HashStr | cache.c:26-35 | `hashStr` is the djb2 polynomial, wrapped once at the end |
| NameHash.OneCharacterTells | cache.c:31-32 | Two names that differ in exactly one character have different 64-bit hashes |
| NameHash.EndingTellsNothing | cache.c:31-32 | A common ending neither joins nor separates the hashes of two names, because 33 is invertible modulo 2^64 |
| NameHash.Djb2Closed | cache.c:28-32 | The hash before wrapping is 5381 times a power of 33 plus each character times its power of 33 |
| NameHash.TwoCharactersCollide | cache.c:31-32 | "ab" and "bA" hash alike, between any common beginning and ending |
| Probing.Store | cache.c:76-83 | Storing where a probe ended gives map[key := value] and keeps every key reachable by an unbroken run; key 0 is never stored |
| Probing.Lookup | cache.c:97-104 | A probe decides membership, and finds the value |
| Probing.Pigeonhole | cache.c:63-64 | Fewer keys than slots leave an empty slot for a probe to stop at |
| Caches.Probe | cache.c:71-73 | The cyclic probe loop ends, at the key or at the empty slot it belongs in |
| Caches.CacheIp.Init | cache.c:190-206 | A cache of no slots or without memory is refused, any other is empty |
| Caches.CacheIp.Put | cache.c:60-87 | Map[key := value], or nothing changed if a needed resize gets no memory; afterwards at most half the slots are taken, size is bounded by the load, and slots scanned by all resizes are size minus first size; the inner puts of a resize never resize |
| Caches.CacheIp.Insert | cache.c:70-83 | One slot is written and the counter follows the map |
| Caches.CacheIp.Resize | cache.c:37-58 | The same map in twice the slots, with the count exact, or nothing changed |
| Caches.CacheIp.CopyInto | cache.c:44-51 | Reinserting every occupied slot rebuilds the map |
| Caches.CacheIp.Get | cache.c:89-110 | Succeeds exactly on the keys of the map, with their values |
| AppCaches.CacheApp.Init | cache.c:208-224 | A cache of no slots or without memory is refused, any other is empty |
| AppCaches.CacheApp.Put | cache.c:152-166 | Map[hash of the name := password], or nothing changed; the same load and cost bounds |
| AppCaches.CacheApp.PutHash | cache.c:134-151 | One slot is written and the counter follows the map, with no resize |
| AppCaches.CacheApp.Resize | cache.c:112-132 | The same map in twice the slots, with the count exact, or nothing changed |
| AppCaches.CacheApp.CopyInto | cache.c:119-125 | Reinserting the stored hashes as they are rebuilds the map |
| AppCaches.CacheApp.Get | cache.c:168-188 | Succeeds exactly on names whose hash is in the map |
| SilkIo.ReadingExact | silkio.c:43-67 | What is consumed is delivered; without timeout or error that is the first min(n, available) bytes, however fragmented |
| SilkIo.WritingExact | silkio.c:69-92 | A prefix of the buffer is emitted, and all of it without timeout or error |
| SilkIo.FragmentationIndependence | silkio.c:43-67 | Two fragmentations of the same bytes cannot be told apart |
| SilkIo.ReadNTimeo | silkio.c:43-67 | The loop fills the buffer in place with just those bytes, returns their count or -1, and ends given finitely many interrupts |
| SilkIo.WriteNTimeo | silkio.c:69-92 | The loop emits the buffer and returns n or -1 |
| SilkIoFaults.ReadingFails | silkio.c:50-63 | `readn_timeo` fails if and only if a timeout or an error comes before it has its n bytes or the end of file; then it has exactly what was offered before |
| SilkIoFaults.WritingFails | silkio.c:76-89 | `writen_timeo` fails if and only if a timeout, an error or a write of nothing comes before all has gone; then it has sent exactly what was taken before |
| Codec.GreetingRoundTrip | socks.c:97-119 | The server's parser inverts the greeting's encoding |
| Codec.GreetingOnly | socks.c:97-119 | The server's parser accepts nothing but an encoded greeting |
| Codec.AuthRoundTrip | socks.c:142-172 | The parser inverts the encoding of user and password |
| Codec.AuthOnly | socks.c:142-172 | The parser accepts nothing but an encoded user and password |
| Codec.RequestRoundTrip | socks.c:293-394 | The request parser recovers command, address family, address and port |
| Codec.RequestOnly | socks.c:293-399 | The request parser accepts only requests that give the address or a name resolving to it |
| Codec.WholeReplyTaken | socks.c:238-273 | Exactly one whole reply is taken off the stream |
| Codec.ReplyConsumption | socks.c:242-279 | An accepted reply was consumed whole if and only if its version is 5; otherwise four bytes were |
| Codec.WrongVersionAccepted | socks.c:242-247 | A reply that shows it: version 4 and REP 0 |
| Codec.ReplyBytesWhole | socks.c:411-426 | What `socks5_writereply` sends for success is one whole reply |
| Codec.ClientTalkGoesWell | socks.c:457-523 | A successful conversation sent greeting, credentials and request and heard method 2 and verdict 0 |
| Codec.SessionIs | socks.c:544-567 | A session that succeeds with credentials was greeting, credentials, request and the rest |
| Answers.MethodAnswered | socks.c:112-126 | A client hears method 2 if and only if it offered it, among whatever else, and 0xFF if and only if it did not |
| Answers.RequestAccepted | socks.c:293-399 | Every request of the accepted shape is taken off the stream, with any name that resolves and any reserved byte |
| Answers.NameRoundTrip | socks.c:340-379 | A name of any length parses to the address it resolves to, or is refused with status 4 |
| Answers.RequestRefused | socks.c:293-399 | A refused request has status 7 for its command, 8 for its address type, 4 for a name that does not resolve, 1 for anything else |
| Answers.SessionSucceeds | socks.c:544-567 | A greeting that offers the method, credentials and a request, followed by anything, make a session |
| Answers.SessionWithoutMethod | socks.c:559-567 | Without the method the request is read all the same, right after the greeting |
| Answers.SessionRefused | socks.c:97-111 | Whatever is not a greeting ends the session with status 1, unanswered |
| Answers.SessionRefusedAuth | socks.c:142-172 | Whatever is not user and password after the method ends it with status 1, with only the method answered |
| Answers.SessionRefusedRequest | socks.c:544-567 | A session fails as its request does, after the answers given so far |
| Answers.ReplyRefused | socks.c:238-279 | A refused reply has its REP field as status, 8 for its address type, 4 or 2 for a stream that ends too soon |
| Answers.ReplyRoundTrip | socks.c:247-279 | What `socks5_writereply` sends is heard with the status it was sent with |
| Answers.OtherVersion | socks.c:242-247 | A reply of another version ends after its fourth byte, by its REP field alone |
| Answers.ReservedZero | socks.c:214-223 | Reserved bytes are sent as zero |
| Answers.ClientTalkSucceeds | socks.c:457-523 | With an upstream that accepts method and credentials, whatever whole reply it gives, the conversation succeeds and leaves what follows |
| Answers.ClientTalkSucceedsIff | socks.c:457-523 | It succeeds on no other streams, but for replies of another version with REP 0 |
| Answers.ClientTalkRefused | socks.c:469-514 | Before the reply it fails with 4 for the method, for the lack of credentials and for a stream that ends, and 5 for the verdict |
| Socks.ChooseMethod | socks.c:89-131 | On every stream and fragmentation: the greeting is parsed, the method answered, nothing more read or sent |
| Socks.ReadAuth | socks.c:134-182 | On every stream and fragmentation: user and password are parsed, the verdict answered, nothing more read or sent |
| Socks.ReadRequest | socks.c:282-402 | On every stream and fragmentation: the request is parsed, with each status, and nothing more read |
| Socks.ReadTarget | socks.c:320-399 | The switch on the address type |
| Socks.WriteRequest | socks.c:209-231 | One connect request is sent |
| Socks.LayOut | socks.c:214-223 | The message built in the buffer is the encoding |
| Socks.WriteReply | socks.c:405-434 | One reply is sent, or none without a local address |
| Socks.ReadReply | socks.c:233-280 | The reply is parsed, with each status |
| Socks.LayOutAuth | socks.c:491-498 | The buffer holds the encoded credentials |
| Socks.Authenticate | socks.c:490-514 | Credentials are sent and the verdict heard |
| Socks.ConnectProxy | socks.c:436-524 | The whole conversation with the upstream goes as the function of its stream says; on failure only a prefix of it has been sent |
| Agreement.TwoPartyAgreement | socks.c:457-518 | Client side against server side, under every byte schedule: one fixed conversation, never stuck half-way, and at its end the server holds exactly the user, password, command, address and port sent, with both streams consumed |
| Agreement.DeliverInv | socks.c:457-518 | Every delivery keeps both sides within that conversation |
| Agreement.QuietMeansDone | socks.c:457-518 | Where no byte is under way everything has been said |
| Agreement.ServerHoldsAll | socks.c:89-182 | What the server learns from the whole of it |
| Agreement.AuthTruncated | socks.c:152-171 | Part of the credentials does not pass for credentials |
| Agreement.ReplyHeard | socks.c:516-523 | Whatever reply the server then sends, the client ends with its status and leaves exactly what follows |
| Duplex.RelayTheorem | negotiate.c:318-461 | All three versions, every run: each way, bytes read are bytes written and then pending; FIN exactly when the client is done and its last byte gone, once, with nothing after it; end of file is real; status 0 only at the end of both streams |
| Duplex.AlwaysWaiting | negotiate.c:345-352 | A full queue has its write interest registered, and something is always waited for |
| Duplex.TurnInv | negotiate.c:343-460 | One turn of any version keeps the relay's invariant and returns honest statuses |
| Duplex.FetchShape | negotiate.c:367-389 | A read that is made asks for a byte at least, so zero means end of file |
| DuplexProgress.ClientWritten | negotiate.c:420-437 | In every version, a client that may be written is sent a non-empty prefix of what is pending and to come, as much of what was pending as it takes |
| DuplexProgress.ProxyWritten | negotiate.c:439-459 | The same of the upstream, when nothing earlier in the turn fails |
| DuplexProgress.ClientRead | negotiate.c:367-390 | From a readable client with bytes to come, and room, some are read |
| DuplexProgress.ProxyRead | negotiate.c:392-418 | From a readable upstream with bytes to come, and room, some are read |
| DuplexProgress.NothingElse | negotiate.c:345-352 | Nothing is read or written that was not asked for and ready, but that select writes what it has just read |
| DuplexProgress.ClientReadFault | negotiate.c:368-376 | A failing read of the client ends the relay, starts the next turn, or in the select version is passed over, as its errno says |
| DuplexProgress.ProxyReadFault | negotiate.c:393-401 | So does a failing read of the upstream |
| DuplexProgress.ClientWriteFault | negotiate.c:421-429 | So does a failing write to the client |
| DuplexProgress.ProxyWriteFault | negotiate.c:440-448 | So does a failing write to the upstream |
| DuplexProgress.WaitFault | negotiate.c:354-365 | A failing or timed-out wait touches nothing, and returns 1, 6 or not at all, as version and errno say |
| DuplexDelivery.ClientServed | negotiate.c:343-460 | For every script of short counts and faults: with a readable client and a writable upstream, within two turns a byte and one a fault, unless the relay has ended, every byte of the client has been written in order and then FIN |
| DuplexDelivery.RelayEnds | negotiate.c:343-460 | With a readable upstream and a writable client the relay returns within two turns a byte and one a fault |
| DuplexDelivery.QueuesDrain | negotiate.c:420-459 | With nothing to read and both sides writable, both queues go out whole within a turn a byte and one a fault |
| DuplexDelivery.TurnNearer | negotiate.c:343-460 | Every turn that does not end the relay gets nearer to done wherever something asked for was ready |
| DuplexDelivery.SpliceJams | negotiate.c:189-240 | With a pipe below 2^20 bytes two peers that are always ready can be left without a byte sent, however long the relay goes round |
| DuplexDelivery.SpliceEndsIff | negotiate.c:189-309 | Between peers that are always ready the splice version ends if and only if both pipes hold 2^20 bytes |
| DuplexDelivery.AllSentIff | negotiate.c:402-410 | When the relay ends with the upstream, the client has been sent everything if and only if nothing was pending |
| DuplexDelivery.EndAtOnce | negotiate.c:402-410 | The end of the upstream ends the relay at once, whatever is pending |
| DuplexDelivery.LastByteLost | negotiate.c:402-410 | And something may be: the run that loses a byte |
| BufferRelays.Buffer.Fill | negotiate.c:368-387 | Reading behind the input pointer appends to the queue |
| BufferRelays.Buffer.Flush | negotiate.c:421-435 | Writing from the output pointer removes from its front, and a drained buffer starts over |
| BufferRelays.BufferRelay.ReadClient | negotiate.c:367-390 | The block that reads the client, with its errno tests and half-close |
| BufferRelays.BufferRelay.ReadProxy | negotiate.c:392-418 | The block that reads the upstream, with both ways to end |
| BufferRelays.BufferRelay.WriteClient | negotiate.c:420-437 | The block that writes the client |
| BufferRelays.BufferRelay.WriteProxy | negotiate.c:439-459 | The block that writes the upstream, with the late half-close |
| BufferRelays.BufferRelay.PollTurn | negotiate.c:343-460 | One turn of the poll version, on buffers and pointers, is a turn of the abstract relay |
| BufferRelays.BufferRelay.PollNegotiate | negotiate.c:318-461 | The poll version runs as the abstract relay |
| BufferRelays.BufferRelay.SelectTurn | negotiate.c:56-152 | One turn of the select version, which also writes what it has just read |
| BufferRelays.BufferRelay.SelectNegotiate | negotiate.c:34-153 | The select version runs as the abstract relay |
| SpliceRelays.SpliceRelay.ReadClient | negotiate.c:216-240 | The counter follows the pipe when bytes are spliced in |
| SpliceRelays.SpliceRelay.ReadProxy | negotiate.c:242-270 | The counter follows the other pipe when bytes are spliced in, with both ways to end |
| SpliceRelays.SpliceRelay.WriteClient | negotiate.c:272-288 | The counter follows the pipe when bytes are spliced out |
| SpliceRelays.SpliceRelay.WriteProxy | negotiate.c:290-308 | The counter follows the other pipe when bytes are spliced out, with the late half-close |
| SpliceRelays.SpliceRelay.Turn | negotiate.c:189-309 | One turn of the splice version is a turn of the abstract relay |
| SpliceRelays.SpliceRelay.Negotiate | negotiate.c:155-316 | The splice version runs as the abstract relay |
| ProxyRuns.Admit | socks.c:544-567 | The phases up to the request go as a function of the client's stream |
| ProxyRuns.AdmittedSessions | socks.c:548-562 | A client is admitted exactly when its session succeeds and its credentials, if any, pass |
| ProxyRuns.GoodRunReaches | socks.c:544-581 | Every client that offers the method, whose credentials pass and who asks to connect is forwarded through every upstream that accepts the proxy's credentials and gives a whole reply |
| ProxyRuns.BadCredentials | socks.c:552-558 | Status 1 for a user that names no upstream, 5 for a wrong password, after the verdict that credentials were received |
| ProxyRuns.Forward | socks.c:579 | The relay started by a run conserves both streams from where the handshake left them |
| ProxyRuns.Socks5Run | socks.c:527-597 | A run forwards exactly when the streams and lookups say so, from the first byte after each handshake; otherwise its status and all it sent are as stated |
| ProxyRuns.StreamsAligned | socks.c:548-581 | Upstream: greeting, credentials, request, and a prefix of the client's bytes after its request; client: method, verdict, reply, and a prefix of the upstream's bytes after its reply; aligned exactly when the reply has version 5 |

## Left out

- ReadReply: a domain length of 255 makes the source write one byte past its 256-byte buffer, which has no meaning in C; the model reads it like any other length.
- ConnectProxy: credentials longer than 127 bytes are excluded, because their length passes through a signed `char`.
- PollNegotiate: states what has happened after any number of turns; when the relay ends and what it has delivered is stated of the abstract relay it equals, for descriptors that stay ready.
- SelectNegotiate: as PollNegotiate; the run of `socks5_run` uses the poll version.
- Socks5Run: a failing `getpeername` at the start, which ends the run with an unset status, and failures of `setsockopt` and of setting non-blocking mode.
- SafeShutdown: does not cover the release of `thcount_lock` after the last count-down.
- CacheIp.Put: freeing and duplicating the stored strings; loop counters of type `int` over more than 2^31 slots; two threads in one cache at once, which its mutex excludes.
- HashTable.Put: record sizes other than 4, a table of size 0, and `hashtbl_check` called without the lock.
- DestroyCanFinish: there is always a way to the end, but that it is taken depends on a fair scheduler and on real time, because `thpool_destroy` polls.
- Thread creation failing in `thread_init`, `thpool_pause`, `thpool_resume` and the signal handler.
- Several callers of `thpool_wait` at once: the source signals one of them only.
- `strip_redirectaddr`, the password comparison, `db.c`, `host_serv.c`, `connect_nonb.c`, `tcp_listen.c`, `main.c`, `proxy.c`, `error.c`, `gf_time.c` and `timeo.c`: library calls and plumbing, whose results are arguments here.
- `socksload/` and the tests: a load generator and drivers.
- The values of the timeouts, and BIND and UDP ASSOCIATE, which the source does not implement.
