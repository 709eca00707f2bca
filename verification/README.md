# Verified model of 3va

This project models the parts of 3va (a JavaScript runtime with a bundler, a
package firewall and developer tools) where loops, state or arithmetic carry a
guarantee over whole runs, and proves those guarantees for all inputs.
`dafny verify dfyconfig.toml` checks everything.

| part | files | what is proved |
|---|---|---|
| HTTP firewall | `firewall_model`, `firewall`, `firewall_runs`, `firewall_blocks`, `firewall_connections`, `firewall_answers`, `firewall_averages`, `firewall_sweeps`, `firewall_seen`, `accounts`, `proxy` | how every request and connection is answered, the moving average, the rate bound over every run and when it fails, what the violation counter means, escalating blocks, connection limits under concurrency, when a cleanup is seen |
| Bundler | `bundle_graph`, `bundle_loader`, `bundle_sessions`, `bundle_collisions`, `bundle_text`, `read_back`, `specifiers`, `finders`, `splitter`, `vlq`, `dead_code`, `dead_code_theorems` | when the bundle runs as the files do, what specifiers are found, rewritten and read back, chunk splitting, Base64 VLQ, dead-code elimination |
| Profiler | `profile_trie`, `profile_recording`, `profile_theorems` | the profile trie is canonical and reading it back returns the samples |
| Text transformers | `codemod`, `codemod_reads`, `codemod_theorems`, `codemod_needles`, `import_meta`, `import_meta_tokens`, `import_meta_bound`, `import_meta_once` | what rewritten calls read and when one codemod pass is enough; what the `import.meta` passes replace, that they are one scan, and the length of their output |
| Runtime | `timers`, `timer_runs`, `promise_scopes`, `lamport` | no timer lost or early, none late outside the last wheel; deny scopes across promises; one-time signatures |

Where the program updates state, the model has a class or a method with the
same steps. Its contract ties the new state to a specification function, and
the theorems are about those functions and about runs of them.

Some results say exactly when a promised law holds, because it does not hold
always:

- The rate bound needs a burst that refills within the 300 s after which idle
  buckets are dropped (`FirewallRuns.RateBoundExact`).
- A cleanup can change later answers, through a refill or an average that it
  cuts short, through violations beyond a burst, or through strikes
  (`FirewallSeen.UnseenExact`, `FirewallSeen.SweepsUnseenExact`).
- Module ids can collide for file names with backslashes, and modules can tell;
  a path that holds the quote it is put in, or a line break, leaves a bundle
  that does not parse (`BundleCollisions.IdsExact`, `BundleText.ParsesExact`,
  `BundleCollisions.BehavesExactly`).
- An id is read back from the written bundle exactly when it closes no quotes
  (`ReadBack.ReadsBackExactly`).
- The VLQ loop does not end for 2^62 ≤ |v| < 2^63 (`Vlq.EndsExactly`), and
  −2^63 decodes to zero.
- A codemod pass can be due again where an argument closes more brackets than
  it opens (`CodemodTheorems.IdempotentExact`, `CodemodTheorems.TwoPasses`).
- A recording whose first sample is at time zero loses its start
  (`ProfileRebuild.RecordedTimesExact`).
- A poll leaves a due timer behind one of its wheel that is not due
  (`TimerRuns.PollLeavesExact`, `TimerRuns.ReturnsDueExact`), so a timer of the
  last wheel has no bound on its wait (`TimerRuns.LastWheelUnbounded`).
- A scope with a line break in its name is carried as its lines
  (`PromiseScopes.NamesKeptExact`).

Where code and comments disagree the model follows the code: a poll only
returns repeating timers and never queues them again; "import.meta.env" has 15
bytes, not 16; VLQ groups come least significant first; the comment on
escalating blocks leaves out the limit of 16 strikes.

How the outside is represented:

- A clock is a parameter that never goes back in a run. Each operation reads it
  once and is one atomic step; checking and connecting are two.
- Tokens, rates and the moving average are reals.
- Addresses are numbers with a family; paths, names and texts are strings, a
  character standing for a byte where the source reads bytes (it only looks for
  ASCII there).
- Reading files, resolving specifiers, and the hash function are parameters;
  random numbers are given to the key constructor.
- Module code has any meaning: it changes a world, sees module objects by the
  order they are made in, and decides which of its pieces run. Expressions of
  the dead-code fragment are asked of an oracle that knows all events so far
  and may throw or call declared functions.
- What is on the JS stack, and the scope that require set, are parameters of
  making a promise and of binding a function.

## Model

| member | source | states |
|---|---|---|
| `FirewallRuns.RateBoundExact` | crates/firewall/src/lib.rs:585-610 | The requests allowed to one address in any interval [s, t] of any run number at most burst + R·(t−s), with R = rps, or 4·rps when adaptive: for all runs and intervals exactly when the firewall is on and burst ≤ 300·R |
| `FirewallAverages.AverageExact` | crates/firewall/src/lib.rs:281-301 | After every run, whatever windows of one second the address's charged requests are cut into, its bucket's average is the weighted sum of the closed windows' counts (the newest weighs a, the j-th before it a·(1−a)^j, the first (1−a)^(n−1)), its count that of the open window, and its rate follows from that average: half as much again, rounded up, between rps and four times rps |
| `FirewallAverages.NextAnswer` | crates/firewall/src/lib.rs:339-376 | For every run and address: what the next charged request finds at that rate, that it is allowed exactly with a whole token, and the tokens and violations it leaves |
| `FirewallAnswers.RequestExact` | crates/firewall/src/lib.rs:585-647 | After every run: the last block not lifted answers while it is in force, with its reason and the milliseconds left, and changes nothing; otherwise a refused request is told how long one request takes at rps (or for ever), or, once its violations have come to the threshold and unless its address is trusted, that it is blocked for the duration of one more strike |
| `FirewallAnswers.BlocklistExact` | crates/firewall/src/lib.rs:748-760 | The blocklist answers for an address exactly while its last block, by hand or by an answer, is in force |
| `FirewallAnswers.StrikesExact` | crates/firewall/src/lib.rs:765-783 | The strike records are the counts of blocking answers, sixteen at most, forgotten by the first cleanup that finds the last too long ago |
| `FirewallAnswers.EscalationExact` | crates/firewall/src/lib.rs:788-800 | The first block lasts the base; each strike more multiplies the duration by the factor up to the cap, and none from the sixteenth on |
| `FirewallAnswers.ConnectionExact` | crates/firewall/src/lib.rs:523-572 | After every run and with whatever connections are open: a block in force answers, otherwise only the limits refuse; off, nothing does |
| `FirewallAnswers.CleanupExact` | crates/firewall/src/lib.rs:722-744 | After every run a cleanup leaves just the blocks in force, the buckets charged within 300 s and the strikes not decayed, each as it was |
| `FirewallRuns.BoundHolds` | crates/firewall/src/lib.rs:359-376 | The half that holds: with such a configuration every run keeps the bound, though idle buckets are dropped and made anew |
| `FirewallRuns.BoundBreaks` | crates/firewall/src/lib.rs:722-734 | The half that fails: for every other configuration, a run and an interval that exceed the bound (two bursts around a cleanup, or a firewall that is off) |
| `Accounts.SpendingBounded` | crates/firewall/src/lib.rs:359-376 | Spending that never overdraws an allowance of at most cap, refilled at no more than a rate, is at most cap + rate·length in every interval |
| `FirewallRuns.RunSound` | crates/firewall/src/lib.rs:339-376 | Every run keeps every bucket between zero and its capacity, last refilled in the past |
| `FirewallRuns.TopRateBounds` | crates/firewall/src/lib.rs:289-301 | The adaptive rate never falls below rps nor rises above the top rate |
| `FirewallBlocks.ViolationsAreWorstExcess` | crates/firewall/src/lib.rs:359-376 | After any run the violation counter is the largest excess, over the suffixes of the answers since the bucket was made, of refusals over allowances; zero without a bucket |
| `FirewallBlocks.AutoBlockExact` | crates/firewall/src/lib.rs:590-647 | A request auto-blocks exactly when it is refused, that excess has reached the threshold and the address is no trusted proxy; then block entry and strike record are these and nothing else changes |
| `FirewallBlocks.TrustedNeverBlocked` | crates/firewall/src/lib.rs:612-632 | No run puts a trusted proxy on the blocklist or gives it a strike, unless it blocks that address by hand |
| `FirewallBlocks.BlocksNeverShrink` | crates/firewall/src/lib.rs:765-800 | An address's successive auto-blocks in a run never get shorter while its strikes are remembered, and lie between the base and the cap |
| `Firewalls.Firewall.BlockDurationSecsFor` | crates/firewall/src/lib.rs:788-800 | The saturating loop with its early exit returns min(base·f^(min(n,16)−1), max(base, cap)), f = max(1, factor), for every configuration and n ≥ 1, and the base for n = 0 |
| `Firewalls.MoreStrikesNoShorter` | crates/firewall/src/lib.rs:788-800 | More strikes never give a shorter block; every block is at least the base and at most the cap |
| `FirewallSeen.UnseenExact` | crates/firewall/src/lib.rs:722-744 | After any run, where the rate does not depend on what was measured (limit not adaptive, or rps or burst 0): no answer of any later run, further cleanups and blocks by hand included, tells whether the cleanup was made, exactly when the firewall is off or what it drops is as good as new: each idle bucket would be found full and counts at most `burst` violations (any number if the threshold is at most 1 or the address is trusted), and no strike has decayed (or a second strike lengthens no block) |
| `FirewallSeen.UnseenForgets` | crates/firewall/src/lib.rs:722-744 | The half of it that needs no such rate: for every configuration that is on, adaptive or not, and after any run, a cleanup that no later answer tells of drops only what is as good as new |
| `FirewallSeen.SweepsUnseenExact` | crates/firewall/src/lib.rs:722-744 | For all runs, a cleanup that finds no violations beyond a burst on idle buckets and no decayed strikes (with the same exceptions) is told by no later answer, exactly when the firewall is off, the burst is 0, or the limit is not adaptive and 300 s refill the burst; for every other configuration some run shows it |
| `FirewallSeen.RefillSeen` | crates/firewall/src/lib.rs:359-376 | After any run an idle bucket that is not full shows: of requests at one moment the cleanup allows one more |
| `FirewallSeen.LeftoverViolationsSeen` | crates/firewall/src/lib.rs:612-632 | After any run an idle bucket of an address not trusted with more than `burst` violations shows, if the threshold is above 1: after a burst and some refusals one answer is a block without the cleanup and a refusal with it |
| `FirewallSeen.ForgottenStrikesSeen` | crates/firewall/src/lib.rs:765-800 | After any run a decayed strike shows where strikes lengthen blocks: the next block is longer without the cleanup |
| `FirewallSeen.LostAverageSeen` | crates/firewall/src/lib.rs:289-301 | Under an adaptive limit, after a second of evenly spaced requests and a pause the dropped average shows: it refills faster than a new bucket |
| `FirewallSeen.NextAnswerExact` | crates/firewall/src/lib.rs:722-744 | After every run, a cleanup never changes whether the next request of an address is allowed, exactly when the firewall is off, rps is at least 1 or the burst is 0; otherwise the run that spends the burst shows it |
| `FirewallSweeps.AnswersKept` | crates/firewall/src/lib.rs:722-744 | The half that holds, answer by answer, for such a rate and from any state with sound buckets |
| `FirewallSweeps.FlatExact` | crates/firewall/src/lib.rs:788-800 | A second strike lengthens no block exactly when the base is 0, the factor at most 1 or the cap not above the base |
| `FirewallSweeps.SweepKeepsBlocks` | crates/firewall/src/lib.rs:722-744 | A cleanup changes no later answer of the blocklist |
| `FirewallConnections.ConnectionsBounded` | crates/firewall/src/lib.rs:523-572 | On every paired run with at most k admissions between check and connect, per-address counts and open unattributed connections sum to the total, and neither limit is exceeded by more than k − 1 |
| `FirewallConnections.RunKeeps` | crates/firewall/src/lib.rs:650-693 | Every step of such a run keeps the counters equal to the open connections and the admitted ones within the limits |
| `FirewallConnections.TotalBoundMet` | crates/firewall/src/lib.rs:541-572 | The bound is tight: for every k some such run reaches max_connections_total + k − 1 |
| `FirewallConnections.PerIpBoundMet` | crates/firewall/src/lib.rs:541-572 | So is the per-address bound, where it is not above the total one |
| `FirewallConnections.OffCountsNothing` | crates/firewall/src/lib.rs:650-693 | With the firewall off no run counts anything |
| `Firewalls.TokenBucket.NoteRequestAt` | crates/firewall/src/lib.rs:339-356 | Rolls the one-second window into the moving average and counts the request, in place |
| `Firewalls.TokenBucket.Consume` | crates/firewall/src/lib.rs:359-376 | Refills up to capacity, then takes a token and lowers the violations, or raises them, in place |
| `Firewalls.Firewall.CheckRequest` | crates/firewall/src/lib.rs:585-647 | The whole new state and the answer: off, blocked, allowed, limited or auto-blocked; the buckets stay one per address |
| `Firewalls.Firewall.Charge` | crates/firewall/src/lib.rs:599-610 | Charges the address's own bucket, made on first use, and no other |
| `Firewalls.Firewall.RecordAutoBlock` | crates/firewall/src/lib.rs:765-783 | One more strike, at most 16, and a block for the escalated duration |
| `Firewalls.Firewall.Cleanup` | crates/firewall/src/lib.rs:722-744 | Leaves exactly the blocks not expired, the buckets not idle and the strikes not decayed |
| `Firewalls.Firewall.CheckConnection` | crates/firewall/src/lib.rs:541-572 | Blocked, at the total or the per-address limit, or allowed |
| `Firewalls.Firewall.CheckConnectionBehindProxy` | crates/firewall/src/lib.rs:523-537 | The same for a proxy that names no client: only the blocklist and the total count |
| `Firewalls.Firewall.OnConnect` | crates/firewall/src/lib.rs:650-656 | Counts the connection for its address and in the total |
| `Firewalls.Firewall.OnDisconnect` | crates/firewall/src/lib.rs:659-672 | Uncounts it, saturating at zero, and forgets an address with none left |
| `Firewalls.Firewall.OnConnectUnattributed` | crates/firewall/src/lib.rs:679-684 | Counts it in the total only |
| `Firewalls.Firewall.OnDisconnectUnattributed` | crates/firewall/src/lib.rs:687-693 | Uncounts it in the total only |
| `Proxy.MatchesSharesPrefix` | crates/firewall/src/lib.rs:211-233 | A CIDR rule matches exactly the addresses of its family that agree with its base on each of the first `prefix` bits |
| `Proxy.TrustedExact` | crates/firewall/src/lib.rs:211-233 | An address is trusted exactly when some rule is of its family and agrees with it on each of the rule's first bits |
| `Proxy.ResolveForwardedFor` | crates/firewall/src/lib.rs:245-261 | The right-most entry that is no trusted hop decides; a malformed one, or none, leaves the left-most; an untrusted peer yields nothing |
| `BundleGraph.BundleFiles` | crates/bundler/src/lib.rs:351-407 | The worklist ends for every finite graph, cycles included; it succeeds exactly when every reachable file can be read, and then the registry holds exactly the reachable modules, linked under their ids and closed under non-builtin requires |
| `BundleGraph.LinkModule` | crates/bundler/src/lib.rs:393-404 | One module's requires in order: every target gets an id, each newly met one is queued once |
| `BundleGraph.WalkedNext` | crates/bundler/src/lib.rs:379-407 | One turn of the worklist keeps: assigned files are those done or queued, never both, all reachable |
| `BundleCollisions.IdsExact` | crates/bundler/src/lib.rs:360-372 | The ids a walk gives out are injective exactly when no two reachable files under the working directory differ only in backslashes standing for slashes |
| `BundleGraph.NoBackslashInjective` | crates/bundler/src/lib.rs:360-372 | So they are when no file name has a backslash |
| `BundleCollisions.CollidingWalk` | crates/bundler/src/lib.rs:351-407 | A concrete project whose walk ends in a bundle with one id for two of its files: three files, two modules |
| `BundleCollisions.CollisionTold` | crates/bundler/src/lib.rs:405-406 | Whenever two files share an id, modules that count the objects made tell the bundle from the files: it makes fewer |
| `BundleCollisions.BehavesExactly` | crates/bundler/src/lib.rs:409-435 | The bundle of files that parse behaves as the files do, for every meaning of module code over numbers, exactly when no two reachable files look alike in that way and every file is required in quotes that can hold its path |
| `BundleCollisions.BreakingWalk` | crates/bundler/src/lib.rs:517-522 | A concrete project with distinct names whose bundle does not parse: "/w/it's/m.js" requires "./b" and is written with require('./it's/b.js') |
| `BundleText.ParsesExact` | crates/bundler/src/lib.rs:517-522 | With an id for each file and files that parse, the bundle parses exactly when no file under the working directory is required in a quote that its path holds, or has a line break in its path |
| `BundleText.PrintsApart` | crates/bundler/src/lib.rs:365-371 | Different keys are written differently, so looking up the text is looking up the key |
| `BundleText.DecimalReads` | crates/bundler/src/lib.rs:369 | The number of an opaque id is written in decimal digits |
| `BundleText.EmitsRewritten` | crates/bundler/src/lib.rs:393-406 | A module linked require by require is written exactly as the rewriter writes its text, given the printed ids as answers |
| `BundleText.RewriteModule` | crates/bundler/src/lib.rs:393-406 | One module of the bundle: the text written, the ids given out and the files queued are those of linking it |
| `BundleText.ParsedReadsBack` | crates/bundler/src/lib.rs:497-534 | Where no require waits for a quote that never comes, scanning a written module that parses finds each id again and nothing else |
| `ReadBack.ReadsBackExactly` | crates/bundler/src/lib.rs:497-534 | Scanning the rewriter's output again reads back each answer, and nothing else, exactly when no answer holds the quote it is put in and no later answer holds a quote that an unfinished require waits for |
| `ReadBack.FinishedReadsBack` | crates/bundler/src/lib.rs:497-534 | In a text without such a require: exactly when no answer holds the quote it is put in |
| `BundleSessions.SessionsAgree` | crates/bundler/src/lib.rs:409-435 | For any program, however late, often or lazily it calls require, and for as long as it runs, every step leaves it in the same state in the bundle as over the files, with the same modules begun in the same order, each once; and the bundle of files that parse itself parses exactly under the condition on quotes |
| `BundleLoader.BundleBehavesTheSame` | crates/bundler/src/lib.rs:416-435 | Under injective ids, running the bundle leaves the world as an unbundled resolve-and-cache loader does, for any meaning of module code: same module objects in the same order, each body at most once, only reachable files run |
| `BundleLoader.ImportMatches` | crates/bundler/src/lib.rs:421-431 | From any two matching states both loaders, asked for the same module, reach matching states, also in the middle of a cycle |
| `BundleLoader.RequireOnce` | crates/bundler/src/lib.rs:421-431 | The emitted require begins no module twice and only adds to the load order; it ends because modules not yet cached get fewer |
| `Specifiers.Rewrite` | crates/bundler/src/lib.rs:497-534 | Hands the resolver the quoted specifiers, disjoint and left to right, and puts its answers in their quotes |
| `Finders.RequireFindsExact` | crates/bundler/src/lib.rs:497-534 | A require is found at a place exactly when the text reads on there, not within a name, with `require(`, white space and a quoted string; its specifier is the text up to the next equal quote |
| `Finders.ImportFindsExact` | crates/cli/src/main.rs:2078-2112 | An import is found at a place exactly when the text reads on there, not within a name, with `from ` or `import`, white space and a quoted string, or with `import(` and a quoted string; its specifier is the text up to the next equal quote |
| `Finders.ScanMisses` | crates/cli/src/main.rs:2077-2134 | A scan takes whatever is found, but for what starts inside something taken before it |
| `Finders.ScanTakes` | crates/cli/src/main.rs:2077-2134 | It takes nothing that is not found |
| `Specifiers.RewriteKeepsTheRest` | crates/cli/src/main.rs:2070-2134 | The text is itself with its own specifiers in the quotes: nothing outside them changes, and a resolver that answers what it is asked gives back the text |
| `Specifiers.SpecifiersApart` | crates/cli/src/main.rs:2070-2134 | Each specifier lies wholly behind the one before |
| `Specifiers.BothFindQuoted` | crates/cli/src/main.rs:2098-2112 | Both rewriters only find strings between two equal quotes, behind where they look |
| `Splitter.CodeSplitter.Split` | crates/bundler/src/generator.rs:352-366 | Ends on every graph, cyclic or not; adds chunks with distinct names, one for each module an even number of hops from an entry, whose modules together are exactly those reachable from the entries; each chunk is a module with its direct dependencies |
| `Splitter.CodeSplitter.SplitEntry` | crates/bundler/src/generator.rs:368-398 | One entry's chunks: one for each newly visited module, leaving nothing unvisited two hops from one |
| `Splitter.SpreadReachable` | crates/bundler/src/generator.rs:380-393 | Modules closed under double hops together with their direct dependencies are closed under dependency |
| `Vlq.EncodesExactly` | crates/bundler/src/generator.rs:406-424 | The loop ends with a text that decodes to the value exactly for abs(v) < 2^62 |
| `Vlq.EndsExactly` | crates/bundler/src/generator.rs:411-422 | It ends exactly there and for −2^63; for the others every number of turns is too few |
| `Vlq.LeastValue` | crates/bundler/src/generator.rs:406-424 | −2^63 is encoded as "B", minus zero |
| `Vlq.VlqEncodeValue` | crates/bundler/src/generator.rs:406-424 | The loop computes that encoding |
| `Vlq.RoundTrip` | crates/bundler/src/generator.rs:406-424 | A decoder per the "Base64 VLQ" section of ECMA-426 returns the value and what follows it |
| `Vlq.PrefixFree` | crates/bundler/src/generator.rs:406-424 | No encoding is a prefix of another value's, whatever follows |
| `Vlq.SegmentRoundTrip` | crates/bundler/src/generator.rs:427-435 | Four decodings of a segment give its four fields and what follows |
| `Vlq.SegmentsDiffer` | crates/bundler/src/generator.rs:427-435 | A segment's text determines its four fields |
| `ProfileTrie.BuildCpuProfile` | crates/js/src/profiler.rs:240-316 | The node table is the trie of the samples' stacks, with each sample's id, hit counts and time deltas |
| `ProfileTrie.Descend` | crates/js/src/profiler.rs:276-312 | Walking a stack from the root adds exactly its prefixes not met before and ends at the stack's node |
| `ProfileTrie.Record` | crates/js/src/profiler.rs:276-314 | One more sample keeps the table the trie of all samples and hits the node of its stack |
| `ProfileTheorems.SameIdSameStack` | crates/js/src/profiler.rs:272-316 | Two samples have the same id exactly when their stacks are equal |
| `ProfileTheorems.NodesArePrefixes` | crates/js/src/profiler.rs:278-312 | Below the root, nodes and distinct non-empty root-side prefixes are one to one |
| `ProfileTheorems.ChildrenAreLater` | crates/js/src/profiler.rs:283-310 | A child's id exceeds its parent's |
| `ProfileTheorems.HitsSumToSamples` | crates/js/src/profiler.rs:313-314 | Hit counts sum to the number of samples |
| `ProfileRebuild.ReadMaps` | crates/cli/src/main.rs:126-145 | The frame and parent maps of a node table |
| `ProfileRebuild.WalkUp` | crates/cli/src/main.rs:157-176 | The walk to the root, stopped past depth 64 |
| `ProfileRebuild.Rebuild` | crates/cli/src/main.rs:147-188 | Every sample read back from its id and the time deltas, with start and end |
| `ProfileRebuild.WalkExact` | crates/cli/src/main.rs:157-176 | For any table: the frames of a node, its parent and so on, 65 at most, up to one without a parent in the table other than itself and zero |
| `ProfileRebuild.StacksRoundTrip` | crates/cli/src/main.rs:157-176 | Reading back a built profile gives each sample's frames leaf to root and then "(root)", all of them up to 64 frames, the first 65 beyond; empty names are shown as "(anonymous)" |
| `ProfileRebuild.NodesShow` | crates/js/src/profiler.rs:258-304 | Each node of a built profile shows the last frame of its prefix, without a script if it has no url and else with its own id; the first is the root |
| `ProfileRebuild.DeltasAre` | crates/js/src/profiler.rs:274-316 | A sample's delta is the time since the one before, or the start, in microseconds, and never negative |
| `ProfileRebuild.DefaultTimes` | crates/cli/src/main.rs:149-155 | Without deltas samples are 10 ms apart |
| `ProfileRebuild.TimesRoundTrip` | crates/cli/src/main.rs:149-155 | The prefix sums of the deltas give every timestamp minus the start exactly when timestamps never go back and none is before the start |
| `ProfileRecording.Profiler.PushRaw` | crates/js/src/profiler.rs:58-70 | Appends the sample; start is the first timestamp that is not zero, end the last |
| `ProfileRebuild.RecordedTimesExact` | crates/js/src/profiler.rs:58-70 | For a recording whose clock never goes back the times come back right exactly when the first sample is not at time zero, or all are |
| `CodemodReads.SignReads` | crates/cli/src/main.rs:6033-6037 | For arguments a, b whose strings and brackets end within them and that have no comma outside of those, whatever text without the name stands before: a pass turns `pq.dsa.sign(a,b)` into `pq.dsa.sign({ key: a, data: b })`, trimmed, and goes on behind it |
| `CodemodReads.VerifyReads` | crates/cli/src/main.rs:6039-6043 | Likewise `pq.dsa.verify(a,b,c)` into `pq.dsa.verify({ key: a, data: b, signature: c })` |
| `CodemodReads.SignLeaves` | crates/cli/src/main.rs:6056-6064 | A signing call with any other number of such arguments is left as it is, with all that is in it |
| `CodemodReads.VerifyLeaves` | crates/cli/src/main.rs:6085-6093 | Likewise a verifying call |
| `CodemodReads.NameLeft` | crates/cli/src/main.rs:6051-6055 | So is the name where no parenthesis follows |
| `CodemodReads.UnclosedLeft` | crates/cli/src/main.rs:6065-6068 | So is the name before a call that never closes, in which the pass goes on |
| `CodemodReads.TrimCuts` | crates/cli/src/main.rs:6059 | Trimming takes off the white space at both ends and nothing else |
| `CodemodTheorems.IdempotentExact` | crates/cli/src/main.rs:6045-6105 | A second pass changes nothing exactly when no rewritten call has, one bracket below the top of its arguments, as many commas as make such a call |
| `CodemodTheorems.BalancedIdempotent` | crates/cli/src/main.rs:6045-6105 | So one pass is enough for every text, unclosed calls included, whose rewritten arguments never close a bracket below depth zero |
| `CodemodTheorems.TwoPasses` | crates/cli/src/main.rs:6045-6105 | A concrete text on which the second pass rewrites again |
| `CodemodTheorems.SignIdempotent` | crates/cli/src/main.rs:6033-6037 | The same for the rule that signs |
| `CodemodTheorems.VerifyIdempotent` | crates/cli/src/main.rs:6039-6043 | The same for the rule that verifies |
| `CodemodTheorems.WholeUnchangedExact` | crates/cli/src/main.rs:6024-6031 | Both rules together leave a text unchanged exactly when neither finds a call to rewrite |
| `CodemodTheorems.WholeIdempotentExact` | crates/cli/src/main.rs:6024-6031 | Running both again changes nothing exactly when the second is settled and has left the first no call; without calls to verify, exactly when the first is settled |
| `CodemodNeedles.WholeIdempotentAlone` | crates/cli/src/main.rs:6024-6031 | In a text that names only one of the two functions, running both rules again changes nothing exactly when the other rule is settled on that text |
| `CodemodNeedles.FreeRewrite` | crates/cli/src/main.rs:6045-6105 | A pass of one rule never brings the name of another function into a text without it |
| `CodemodTheorems.UnchangedExact` | crates/cli/src/main.rs:6045-6105 | A pass leaves a text unchanged exactly when it rewrites no call |
| `CodemodTheorems.SplitJoins` | crates/cli/src/main.rs:6142-6175 | Joining the split arguments with commas gives back the text; their number is one more than the commas outside strings and brackets; all but the last are balanced |
| `CodemodTheorems.WalkRewrite` | crates/cli/src/main.rs:6107-6140 | A pass leaves the call finder, in whatever state it comes, as the original text would: no call opens or closes by it |
| `CodemodTheorems.WalkObject` | crates/cli/src/main.rs:6033-6043 | The new arguments leave the call finder as the old ones, up to a pending escape |
| `CodemodTheorems.CommasObject` | crates/cli/src/main.rs:6033-6043 | The top-level commas of the new object are the old arguments' commas one bracket below the top |
| `CodemodTheorems.CallAgain` | crates/cli/src/main.rs:6045-6105 | A second pass finds a rewritten call again where it was, and rewrites it exactly if those commas are one fewer than the names |
| `Codemod.RewriteCalls` | crates/cli/src/main.rs:6045-6105 | Both rewriters' loop, for two and for three arguments, computes the pass |
| `Codemod.ExtractCallArgs` | crates/cli/src/main.rs:6107-6140 | Finds the parenthesis that closes the call outside strings, if there is one, and what is before it |
| `Codemod.SplitTopLevelArgs` | crates/cli/src/main.rs:6142-6175 | Splits at the commas outside strings and brackets |
| `ImportMetaTokens.TokensReplaced` | fuzz/fuzz_targets/fuzz_js_import_meta.rs:15-184 | For every text made of code, line and block comments, strings and templates with inserted code, the six passes put the text for each of the six patterns in its place in code and inserted code, and change nothing else |
| `ImportMetaBound.OutputBounded` | fuzz/fuzz_targets/fuzz_js_import_meta.rs:15-184 | For every input, 15 times the output of the six passes is at most 116 times the input; so the output has at most 8·len + 64 bytes |
| `ImportMetaBound.GrowthBounded` | fuzz/fuzz_targets/fuzz_js_import_meta.rs:178-184 | The same for any patterns none of whose matches can overlap what an earlier one put |
| `ImportMetaBound.MatchIsSource` | fuzz/fuzz_targets/fuzz_js_import_meta.rs:149-169 | A match of a pass overlaps nothing that an earlier pass put |
| `ImportMetaBound.PassKeeps` | fuzz/fuzz_targets/fuzz_js_import_meta.rs:24-176 | Through every state of the scanner a pass keeps the record of which bytes are source and which were put |
| `ImportMetaBound.PassPays` | fuzz/fuzz_targets/fuzz_js_import_meta.rs:24-176 | A pass never raises what the bytes are worth: source bytes at the greediest rate, put bytes at one each |
| `ImportMetaBound.PatternsFine` | fuzz/fuzz_targets/fuzz_js_import_meta.rs:15-22 | The six patterns are such; "import.meta.env" grows most, 15 bytes to 116 |
| `ImportMeta.ReplaceOutside` | fuzz/fuzz_targets/fuzz_js_import_meta.rs:24-176 | The nested loops are one pass of the byte-by-byte scanner |
| `ImportMeta.CopyTemplate` | fuzz/fuzz_targets/fuzz_js_import_meta.rs:83-163 | The template loop, with interpolations inside |
| `ImportMeta.CopyInterpolation` | fuzz/fuzz_targets/fuzz_js_import_meta.rs:103-157 | The interpolation loop, counting braces and skipping strings |
| `ImportMeta.StringCopied` | fuzz/fuzz_targets/fuzz_js_import_meta.rs:59-81 | A string's bytes up to its closing quote, escapes included, are copied, whatever the pattern |
| `ImportMeta.CommentCopied` | fuzz/fuzz_targets/fuzz_js_import_meta.rs:35-41 | A line comment's bytes are copied |
| `ImportMetaOnce.ReplacesInOneScan` | fuzz/fuzz_targets/fuzz_js_import_meta.rs:178-184 | For every input the six passes, one after the other, do what one scan of the source does that tries all patterns at each place: no pass sees what another put, and every source byte keeps its mode |
| `ImportMetaOnce.PassesAreOneScan` | fuzz/fuzz_targets/fuzz_js_import_meta.rs:24-184 | The same for any patterns that cannot overlap each other or what was put, and texts that leave the scanner in the mode they are put in |
| `ImportMetaOnce.PutSkipped` | fuzz/fuzz_targets/fuzz_js_import_meta.rs:149-169 | A pass goes over a text that an earlier one put, in whatever code, copies it and is in the mode it was in |
| `ImportMetaOnce.PatternsTame` | fuzz/fuzz_targets/fuzz_js_import_meta.rs:15-22 | The six patterns and texts are such, the quoted and braced one for "import.meta.env" included |
| `ImportMetaOnce.TextNotReplaced` | fuzz/fuzz_targets/fuzz_js_import_meta.rs:24-176 | That scan never replaces in a string, a comment or the text of a template |
| `ImportMetaOnce.StringKept` | fuzz/fuzz_targets/fuzz_js_import_meta.rs:59-81 | It copies a string up to its closing quote, escapes included |
| `ImportMetaOnce.QuotedKept` | fuzz/fuzz_targets/fuzz_js_import_meta.rs:307-326 | A text that is one string in code without an "i" comes out of the six passes unchanged, whatever is in the string |
| `ImportMeta.ReplaceImportMeta` | fuzz/fuzz_targets/fuzz_js_import_meta.rs:178-184 | The six passes in order |
| `DeadCodeTheorems.MeaningKept` | crates/bundler/src/tree_shaker.rs:272-313 | For every meaning of the expressions, program and output end together, in the same way, after the same events |
| `DeadCodeTheorems.StmtSame` | crates/bundler/src/tree_shaker.rs:283-312 | From states with the same events and matching functions, a statement and its output reach such states with equal completion, within the same bound on calls and loop turns |
| `DeadCodeTheorems.ElimCleans` | crates/bundler/src/tree_shaker.rs:272-313 | No list that the pass visits keeps an `if (false)` without an else |
| `DeadCodeTheorems.UnchangedExact` | crates/bundler/src/tree_shaker.rs:272-313 | The pass changes a list exactly when it has something to drop |
| `DeadCodeTheorems.OnceIsEnough` | crates/bundler/src/tree_shaker.rs:272-313 | A second pass changes nothing |
| `DeadCode.Eliminate` | crates/bundler/src/tree_shaker.rs:272-313 | retain, then the loop over the statements, compute the pass |
| `DeadCode.EliminateIn` | crates/bundler/src/tree_shaker.rs:283-311 | What is done to each statement: which parts are entered |
| `TimerRuns.TimersConserved` | crates/core/src/timer.rs:89-185 | After any run each scheduled id is exactly once among pending, returned and cancelled |
| `TimerRuns.TimersPrompt` | crates/core/src/timer.rs:122-166 | A timer with less than 64 ms, 4 s, 4 min, 4 h or 4 days left when it is queued is out of its queue after any poll that much later, despite unsorted queues |
| `TimerRuns.QueuesExact` | crates/core/src/timer.rs:8-12 | On every run two held timers share a queue exactly when what each had left when queued is on the same side of 64 ms, 4 s, 4 min, 4 h and 4 days |
| `TimerRuns.PollReturnsScheduled` | crates/core/src/timer.rs:141-166 | Whatever a poll returns was scheduled: it has its id, its interval and its deadline, which has come, or, if it repeats and had less than four days left when queued, the deadline an interval from now |
| `TimerRuns.PollOrder` | crates/core/src/timer.rs:158-167 | Timers come back by those five bounds, shortest first, and on the same side of them in order of scheduling |
| `TimerRuns.TimersNeverEarly` | crates/core/src/timer.rs:141-166 | Whatever a poll returns was due |
| `TimerRuns.LastWheelUnbounded` | crates/core/src/timer.rs:122-139 | In the last wheel a due timer can wait as long as one likes |
| `TimerRuns.PollReturnsNothing` | crates/core/src/timer.rs:141-166 | A poll returns nothing exactly when no queue's front is due |
| `TimerRuns.DueButBlocked` | crates/core/src/timer.rs:196-211 | The time to the next deadline can be over while a poll returns nothing |
| `TimerRuns.RunInOrder` | crates/core/src/timer.rs:122-166 | Every run keeps each queue in order of insertion, each timer in the wheel of its delay |
| `TimerRuns.PollLeavesExact` | crates/core/src/timer.rs:141-166 | On every run a poll leaves a held timer held exactly when it, or a held timer of the same wheel scheduled before it, is not due |
| `TimerRuns.ReturnsDueExact` | crates/core/src/timer.rs:141-166 | On every run a poll returns every timer that is due exactly when none stands behind one of its wheel that is not |
| `Timers.TimerWheel.Schedule` | crates/core/src/timer.rs:89-120 | Gives the next id and queues the timer by the time left |
| `Timers.TimerWheel.PollWheel` | crates/core/src/timer.rs:141-156 | Takes the due timers off the front, up to the first that is not |
| `Timers.TimerWheel.PollAll` | crates/core/src/timer.rs:158-167 | Polls the six queues in order |
| `Timers.TimerWheel.CancelTimer` | crates/core/src/timer.rs:169-185 | Removes the first timer with the id, if any queue has one |
| `Timers.TimerWheel.NextDuration` | crates/core/src/timer.rs:196-211 | The least time left to any pending timer, or nothing |
| `PromiseScopes.EveryRunTells` | crates/js/src/caller_scope.rs:118-169 | In every well-nested run, wherever rules come into being, each reaction under rules inherits exactly what was live when its promise and every ancestor of it was made, and each bound call what was live where the function was bound besides what it runs in; live is what the stack and require name and what the moment itself inherits by this rule, from the reactions and bound calls it lies in |
| `PromiseScopes.StartTells` | crates/js/src/caller_scope.rs:118-169 | So it is from the start of a program, which ends with nothing inherited and nothing saved |
| `PromiseScopes.RunRestores` | crates/js/src/caller_scope.rs:126-133 | After any such run the inherited and the saved scopes are what they were, even if rules became active inside a reaction |
| `PromiseScopes.MadeKeeps` | crates/js/src/caller_scope.rs:151-162 | Making a promise keeps every tag equal to what its promise stands for |
| `PromiseScopes.NamesKeptExact` | crates/js/src/caller_scope.rs:139-162 | A tag keeps its names exactly when none has a line break |
| `PromiseScopes.BindCarries` | crates/js/src/caller_scope.rs:179-193 | What bind keeps for a function is what is live where it is bound, by that rule |
| `PromiseScopes.DenyIsLive` | crates/permissions/src/scope.rs:73-100 | What deny_scopes returns at any moment of such a run is what is live then, by that rule |
| `PromiseScopes.Hooks.Bind` | crates/js/src/caller_scope.rs:179-193 | Returns, for the bound function to keep, the names live now |
| `PromiseScopes.Hooks.MarkActive` | crates/permissions/src/scope.rs:48-50 | Rules come into being, and nothing else changes |
| `PromiseScopes.Hooks.InitHook` | crates/js/src/caller_scope.rs:151-162 | Tags a new promise with what is live and its parent's tag |
| `PromiseScopes.Hooks.BeforeHook` | crates/js/src/caller_scope.rs:163-166 | Saves the inherited scopes and takes the promise's |
| `PromiseScopes.Hooks.AfterHook` | crates/js/src/caller_scope.rs:126-133 | Takes back the scopes saved last, if any |
| `PromiseScopes.Hooks.EnterRunWith` | crates/js/src/caller_scope.rs:216-223 | Adds the tag's non-empty names for the call |
| `PromiseScopes.Hooks.LeaveRunWith` | crates/js/src/caller_scope.rs:224-225 | Puts back what was inherited before |
| `Lamport.AcceptedExactly` | crates/crypto/src/lamport.rs:142-155 | A signature is accepted for another message exactly when the digests agree at every bit whose two secrets have different hashes |
| `Lamport.AcceptedForItsDigest` | crates/crypto/src/lamport.rs:98-118 | It is accepted for its own message; with no such collisions, for no other digest |
| `Lamport.LamportKeypair.constructor` | crates/crypto/src/lamport.rs:72-90 | The public key holds the hash of every secret |
| `Lamport.LamportKeypair.Sign` | crates/crypto/src/lamport.rs:98-118 | The first call reveals the half of the key that the digest picks; every later one is refused |
| `Lamport.Verify` | crates/crypto/src/lamport.rs:142-155 | Accepts exactly the signatures that hash to the picked half of the public key |
| `Lamport.BitsMakeBytes` | crates/crypto/src/lamport.rs:104-108 | The bits that pick the halves are the bytes of the digest, the most significant bit first |
| `Lamport.HexReads` | crates/crypto/src/lamport.rs:116-119 | Encoding writes two small hex digits a byte, the high one first |
| `Lamport.HexDecodesTo` | crates/crypto/src/lamport.rs:158-199 | A text decodes to these bytes exactly when it writes their hex digits, in either case |
| `Lamport.WordsRoundTrip` | crates/crypto/src/lamport.rs:158-199 | Decoding hex undoes encoding, for keys and signatures |
| `Lamport.DecodesExactly` | crates/crypto/src/lamport.rs:158-199 | A text is decoded exactly when it is hex, in either case, of the right length |

## Left out

- FirewallModel: counters and seconds are unbounded; overflow of `u32`/`u64` counters, of `duration * 1000` and of clock arithmetic, and rounding of `f64`, are not modelled.
- Proxy.ResolveForwardedFor: takes the entries already parsed; splitting the header text and `ProxyRule::parse` are not modelled.
- FirewallConnections.ConnectionsBounded: that callers pair their calls is assumed; the HTTP server that makes them is not part of this model.
- BundleLoader.BundleBehavesTheSame: a body is a list of pieces run in order, which shows that loading ends; requires called later, again or from functions are in `BundleSessions`. Keys that JS objects inherit (`__proto__`), and requires whose argument is computed are not modelled.
- BundleCollisions.IdsExact: file names are taken as valid UTF-8; two that are not can also be printed as one id.
- BundleText.ParsesExact: an id parses where its quotes hold it as one string; a path that closes its quotes and goes on as code that happens to be legal is taken as one that does not parse, and nothing else about the syntax of a module is modelled.
- BundleText.RewriteModule: the rewriter also rewrites `require('./a')` inside a string literal, a template or a comment, as the source does, and a program can see that change in its own strings; the loader theorems do not show it, as module code there sees what a require returns and not how it is written.
- FirewallSeen.UnseenExact: under an adaptive limit with rps and burst above 0 the exact condition also depends on the averages of later seconds and is not stated; `FirewallSeen.UnseenForgets` is one half of it.
- BundleGraph.NoBackslashInjective: for names that are valid UTF-8, as above.
- BundleGraph.BundleFiles: transpiling (`bundle_module_body`), canonical paths and `minify` are not modelled; `minify` also edits string contents.
- Specifiers.Rewrite: the resolver is known by the answers it gives in order; a specifier is found where the source looks for it, also inside comments.
- Vlq.RoundTrip: the decoder has no 32-bit limit, which ECMA-426 lets decoders impose.
- ProfileTrie.BuildCpuProfile: a child is keyed by its frame, so the joined text key is taken as injective (no `|` in names and urls); the JSON text, parsing of V8 stacks, labels, folded stacks, flame graphs and `top_functions` are not modelled.
- ProfileRebuild.Rebuild: the table is read as ids, frames and children; malformed JSON is not modelled.
- Codemod.RewriteCalls: `usize` depth that wraps below zero is an `int`, as it is only compared with zero; in a build with overflow checks such a text stops the program instead. The plain renames before the rewriters are left out.
- CodemodTheorems.WholeIdempotentExact: for a text that names both functions the condition is on the text after one run, not before it; for a text that names one, see `CodemodNeedles.WholeIdempotentAlone`.
- ImportMeta.ReplaceImportMeta: works on bytes; reading the result back as UTF-8 and a brace depth beyond `i32` are not modelled; the same scanner in crates/js/src/transpiler.rs is not part of this model.
- ImportMetaTokens.TokensReplaced: for texts whose strings, comments and templates end, as far as the scanner is concerned; what it makes of others is in `ImportMetaOnce.ReplacesInOneScan`.
- CodemodReads.SignReads: for arguments that are well bracketed; what a pass makes of others is in `CodemodTheorems`.
- DeadCodeTheorems.MeaningKept: for a fragment without `var` and function hoisting, labels, switch and for-in loops; do-while and try stand for statements the pass does not enter; functions are known by one global name each.
- DeadCode.Eliminate: returns the new list; the source edits the vectors of the syntax tree in place.
- Timers.TimerWheel.Schedule: callbacks, and the runtime that queues a repeating timer again as a new one, are not modelled.
- PromiseScopes.EveryRunTells: runs are well nested, as the engine nests its hooks, and nothing reacts or is called before it is made; reading the JS stack, the scopes that timers carry, and threads without an engine are not modelled, and the order of the names in a tag does not matter here.
- Lamport.LamportKeypair.Sign: nothing is said about forging, and wiping the secret key on drop is not modelled.
- Tree shaking (`TreeShaker::shake`), multi-module source maps and `bundle_with_splitting`: namespace imports are not matched against export names there, and mappings are not true deltas.
- Command-line parsing, the dev server, package-manager commands, configuration, the other cryptographic wrappers and the inspector.
