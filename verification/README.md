# Vega, an authoritative DNS server: a verified model

Vega answers queries for one zone. This project models the parts of it that
carry an argument, and proves the argument.

* **Zone lookup** (`zone_*.dfy`, `frozen_zone.dfy`, `names.dfy`, `u128.dfy`,
  `any_query.dfy`). Building a zone from record sets, the CNAME chase, the walk
  over a 128-bit map of wildcard depths, the closest-encloser rule of RFC 4592
  section 3.3.1, ancestor closure, and the two classifications of the answers
  that closure and the new rule change. `FrozenZone` is the object that is built
  and queried; `ZoneModel` says as functions what its methods compute.
* **Rate limiter** (`rate_limiter*.dfy`). Buckets packed in 64-bit words under
  a wrapping clock, as arithmetic, as sequential runs over the slot table, and
  as any number of calls interleaved load by load and exchange by exchange.
* **Canonical order** (`canonical_key.dfy`, `canonical_layout.dfy`). The sort
  key against RFC 4034 section 6.1, and the stack pass that rests on its
  prefixes.
* **Lifecycle, shutdown, configuration and reload** (`lifecycle*.dfy`,
  `shutdown*.dfy`, `config.dfy`, `reload*.dfy`). State machines of single steps,
  interleaved with signals, queries, drains, scrapes and each other.
* **Dates and serials, config edits, response sizes** (`calendar.dfy`,
  `record_tables.dfy`, `editor.dfy`, `edit_laws.dfy`, `edit_exactness.dfy`,
  `response_size.dfy`).

Objects whose methods update fields are classes here, loops are loops, and each
is tied to a function of its inputs; the theorems are about those functions and
about every run of the state machines. Integers are unbounded, so every width,
wrap and saturation in the source is written out.

## Where the code and its comments part

* The four classes W1 to W4 are said to be the only ways the closest-encloser
  rule changes an answer. They are not: a CNAME to a name that is itself a
  wildcard's, under a shallower wildcard, changes in a way none of them names
  (`ZoneEscapes.WildcardTargetEscapes`, on a config that is served).
  `ZoneSteps.EveryRuleChange` says exactly which changes they do name.
* A key the file states and the process already honours is said not to be
  reported by a reload. A burst stated while the limiter is off is, on every
  reload, changed or not (`Reloads.UnusedBurstIsReported`).
  `Reloads.NoOpReloadIsQuiet` has the exact condition: that, or a stated key which
  the command line shadows with another value.
* The depth bitmap's window holds one depth that is no proper ancestor's: the
  root's own, for the root of a root zone (`FrozenZones.WindowIsNaiveWalk`, with
  such a zone in `ZoneComparison.RootStarParts`). No answer shows it, since the
  origin is always a name (`ZoneComparison.BuiltAnswersAreNaive`).
* Another signal is logged as collapsing the window that remains. `again` counts
  from when it is first waited on, so one that arrives between the first signal
  and the opening of the drain window does not shorten that window
  (`ShutdownWindow.EarlySignalIsAbsorbed`). A window ends early exactly when a
  signal is published inside it (`ShutdownWindow.WindowIsExact`).
* A serial is said never to go backwards. From the year 4295 the hundredfold date
  saturates, and the counter added to it wraps: any serial but 0 and the
  greatest then goes back to 0 (`Calendars.SerialGoesBackIff`,
  `Calendars.SerialGoesBackIn4295`). On every date before that it does not
  (`Calendars.SerialsNeverGoBack`).

## What is assumed

* Atomic loads and exchanges are sequentially consistent single steps; between
  two waits the main task of a shutdown takes no time, and it is woken by a timer
  that is due or a signal it waits for before the clock moves on. A wedged
  runtime, which the watchdog thread covers, is outside that.
* The slot hash is any function of the canonical key. What a spelling of the
  origin names, how many records a zone builds, how a record type is spelled
  and which values parse are arbitrary functions.
* A name's library length is the number of its labels and octets, and 1 for the
  root; the encoder writes no message longer than the uncompressed one.
* Case folding and white space are ASCII.

## Model

| member | source | states |
|---|---|---|
| `Names.RepresentableIff` | tests/arena_differential.rs:100-102 | A name is representable exactly when its labels are of 1 to 63 octets and they come, with a length octet each and the root's, to 255 at most. |
| `Names.LabelCeiling` | tests/arena_differential.rs:100-102 | The 255-octet limit alone keeps every name within the 127 labels the depth bitmap is sized for. |
| `Names.ProperAncestorHasStar` | tests/arena_differential.rs:680-709 | A wildcard owner too long for its asterisk cannot be above any representable name, so dropping it loses no coverage. |
| `U128.HighestBit` | tests/arena_differential.rs:388-391 | `127 - leading_zeros` is a set bit and no bit above it is set. |
| `U128.BitOfLowMask` | tests/arena_differential.rs:405-417 | `(1 << n) - 1` is exactly the bits below `n`, which is what makes the window a range of depths. |
| `ZoneModel.InsertSpecWellFormed` | tests/arena_differential.rs:225-270 | Every record set that inserts keeps the build's invariants: no empty set, every wildcard set at a parent, every parent's depth a set bit, every name in the zone, no wildcard name among the ordinary ones. |
| `ZoneModel.BuildWellFormed` | tests/arena_differential.rs:174-223 | Every config that builds satisfies those invariants, and its origin exists. |
| `ZoneContents.BuiltAsDeclared` | tests/arena_differential.rs:174-288 | A config builds exactly when both names of its SOA table are names and every record set has a known type, a value at least, values of that type and an owner in the zone. The zone then holds, ordinary and wildcard apart, at each owner and type the records its record sets declare, concatenated in the order of the config, each with its owner, its TTL or the default, and its value; no other key; one name or parent for each owner, and the origin; one depth bit for each parent; the number of values; and the table's SOA or else the apex's first. |
| `ZoneModel.ChaseFactors` | tests/arena_differential.rs:329-343 | A lookup at an alias is its bounded CNAME chase, which no wildcard touches, followed by one answer that involves no chase. |
| `ZoneModel.ChaseEndsOnAlias` | tests/arena_differential.rs:329-343 | The records a chase collects end with the last CNAME of the last alias it reached. |
| `ZoneAnswers.EightAliasesAreFollowed` | tests/arena_differential.rs:329-343 | A chain of up to eight aliases, each naming the next by its first CNAME, answers their CNAMEs in order and then what the name it ends at answers on its own. |
| `ZoneAnswers.TheNinthAliasIsTheLast` | tests/arena_differential.rs:96-98 | A chain of nine or more, a loop among them, answers the CNAMEs of its first nine aliases and nothing else. |
| `ZoneAnswers.OneCnameEach` | tests/arena_differential.rs:329-343 | Where each alias has one CNAME, that is one record for each. |
| `ZoneAnswers.EveryNameAnswers` | tests/arena_differential.rs:305-365 | What a name that is no alias for the type answers, said of the zone's entries: its RRset as it stands; no data where it exists; else the records of the deepest wildcard above that holds the type, or under the new rule of the one at the deepest ancestor that exists, under the name asked for and with their own TTLs and values; else no data or name error as a wildcard covers it or not. |
| `FrozenZones.FrozenZone.Build` | tests/arena_differential.rs:174-223 | The object built record set by record set, its SOA from the table or the apex, is the one the specification builds, and is refused for the same configs, a table with a name that does not parse among them. |
| `FrozenZones.FrozenZone.InsertSpec` | tests/arena_differential.rs:225-270 | One insertion into the maps, sets and bitmap is the specified insertion; a refused one changes nothing. |
| `FrozenZones.FrozenZone.MaterialiseAncestors` | tests/arena_differential.rs:519-533 | Materialising name by name is the specified closure step, and leaves the rule alone. |
| `FrozenZones.PopHighest` | tests/arena_differential.rs:388-391 | One step of the mask loop finds the highest set bit and clears that bit and no other. |
| `FrozenZones.FrozenZone.WildcardWindow` | tests/arena_differential.rs:405-417 | The window's bits are exactly the depths from the origin's to the query's parent. |
| `FrozenZones.FrozenZone.ProbeDeepestWins` | tests/arena_differential.rs:383-403 | The bitmap walk terminates and returns the records and the covered flag of a walk over every depth of the window, one label at a time. |
| `FrozenZones.WalkIsDeepestTyped` | tests/arena_differential.rs:383-403 | What such a walk means: the records of the deepest wildcard above the name that holds the type, and covered exactly when any wildcard parent is above it. |
| `FrozenZones.WindowIsNaiveWalk` | tests/arena_differential.rs:383-417 | That window walk is the walk over every proper ancestor from the parent to the origin, except for the root of a root zone with a wildcard parent at the root, and only then. |
| `ZoneComparison.RootStarParts` | tests/arena_differential.rs:383-417 | A served root zone with a wildcard record set at its own root: for the root itself the bitmap walk finds that set, and a walk over ancestors finds nothing. |
| `ZoneComparison.AnswersAreNaive` | tests/arena_differential.rs:292-365 | In a well-formed zone whose origin is a name, no lookup and no existence check turns on that extra depth: both are what the walk over proper ancestors alone gives, through the whole CNAME chase. |
| `ZoneComparison.BuiltAnswersAreNaive` | tests/arena_differential.rs:174-223 | Which is so in every zone a config builds, closed or not. |
| `FrozenZones.FrozenZone.ReadNodeNames` | tests/arena_differential.rs:431-439 | The nodes are the ordinary names and `*.<p>` for each wildcard parent with room for it. |
| `FrozenZones.FrozenZone.FindEncloser` | tests/arena_differential.rs:454-468 | Counting down label by label finds the deepest proper ancestor that is a node, or none. |
| `FrozenZones.FrozenZone.ProbeClosestEncloser` | tests/arena_differential.rs:481-498 | One probe, at `*.<closest encloser>`, and no search for another. |
| `FrozenZones.FrozenZone.ExistsAt` | tests/arena_differential.rs:292-294 | A name exists when it is a node's or a wildcard covers it, under whichever rule. |
| `FrozenZones.FrozenZone.ResolveInto` | tests/arena_differential.rs:305-365 | The recursive resolve appends to the caller's list exactly the records of the specified answer, within the CNAME depth limit. |
| `FrozenZones.FrozenZone.LookupAnswer` | tests/arena_differential.rs:296-303 | The lookup returns the specified answer. |
| `ZoneClosure.AncestorClosure` | tests/arena_differential.rs:722-746 | The computed set is every strict ancestor of a declared name, down to the origin's depth, that is not itself declared. |
| `ZoneClosure.ClosureIsClosed` | tests/arena_differential.rs:722-746 | Declared names and closure together are closed under parent down to the origin, and in the zone. |
| `ZoneClosure.ClosureIsLeast` | tests/arena_differential.rs:722-746 | They are the least such set. |
| `ZoneClosure.BuildNodes` | tests/arena_differential.rs:555-574 | The nodes a build ends up with are exactly the ones the config declares. |
| `ZoneClosure.MaterialiseFrame` | tests/arena_differential.rs:511-533 | Materialising touches no record, no count and no declared name. |
| `ZoneClosure.MaterialiseNodes` | tests/arena_differential.rs:519-533 | It adds exactly the nodes it is given, wildcard-shaped ones included. |
| `ZoneClosure.ClosedZone` | tests/arena_differential.rs:505-533 | A materialised build keeps the build's invariants, and its nodes are the closed set. |
| `ZoneClosure.ClosedUnderTrim` | src/zone.rs:1640-1706 | In a closed set existence is monotone in label depth: every ancestor of a node, down to the origin, is one. |
| `ZoneClosure.CloseByClimbing` | src/zone.rs:1650-1706 | The build's own closure, climbing from each deep node and stopping at the first ancestor already there, misses nothing and adds nothing else. |
| `ZoneClosure.EncloserIsTheBoundary` | tests/arena_differential.rs:441-468 | The closest encloser's depth is the one boundary between ancestors that exist and ancestors that do not. |
| `ZoneClosure.BisectEncloser` | src/zone.rs:1201-1273 | A binary search over label depth finds that boundary, in at most eight probes. |
| `ZoneWildcard.ModelAgrees` | tests/arena_differential.rs:842-905 | The model read off the config holds the nodes, wildcard parents and wildcard types of the zone built from it. |
| `ZoneWildcard.WalkIsFirstTyped` | tests/arena_differential.rs:936-945 | The walk's records are those of the deepest wildcard parent that holds the type; it is covered when any parent is above the name. |
| `ZoneWildcard.NoParentBelowEncloser` | tests/arena_differential.rs:901-979 | No wildcard parent above a name that is not a node is deeper than its closest encloser. |
| `ZoneWildcard.ProbesDifferIffSynthesisMoved` | tests/arena_differential.rs:962-979 | For every in-zone name that is not a node, the two probes differ exactly when the config-derived predicate says synthesis moved. |
| `ZoneWildcard.ProbeNarrows` | tests/arena_differential.rs:481-498 | Over a closed node set the one probe finds no more than the walk and covers no more. |
| `ZoneWildcard.DirectNarrows` | tests/arena_differential.rs:305-365 | Without a chase, the new rule's answer is the old one or lower: records, then no data, then name error. |
| `ZoneWildcard.LookupNarrows` | tests/arena_differential.rs:305-365 | For every name and type, through the whole bounded chase, the outcome only moves down and the new records are a prefix of the old. |
| `ZoneWildcard.NameErrorIffAbsent` | tests/arena_differential.rs:292-365 | For every well-formed zone, in-zone name and type, ANY included, and either rule: name error if and only if the name does not exist. |
| `ZoneSteps.ClosureStepClassified` | tests/arena_differential.rs:779-829 | The if-and-only-if of the three classes, for any well-formed zone and its closure. |
| `ZoneSteps.OneCnamePerOwnerIsClassified` | tests/arena_differential.rs:779-829 | With at most one CNAME per owner every changed answer is T1, T2 or T3. |
| `ZoneSteps.EveryClosureChange` | tests/arena_differential.rs:779-829 | For every config that builds, an answer that ancestor closure changes is T1, T2 or T3, except that at an alias the class needs the last CNAME's target to be the one chased: an if-and-only-if, with which class it is and what the change is: a name that now exists, a name error taken back, or a chase cut short. |
| `ZoneSteps.EncloserStepClassified` | tests/arena_differential.rs:1098-1186 | The if-and-only-if of the four classes, and which class each change is of, for any closed zone and the model it agrees with. |
| `ZoneSteps.PlainTargetsAreClassified` | tests/arena_differential.rs:1098-1186 | With one CNAME per owner, no wildcard-shaped target and no wildcard-shaped origin, every change is W1 to W4. |
| `ZoneSteps.EveryRuleChange` | tests/arena_differential.rs:1098-1186 | For every config that builds, an answer the rule change alters is W1 to W4 exactly when, at an alias, the last target's own synthesis moved and the owner is no wildcard name; with which class it is and what the change is: a synthesis lost, a coverage lost, a wildcard's own name left with nothing of the type, or a chase cut short. |
| `ZoneServed.ServedHasOneCnamePerOwner` | tests/arena_differential.rs:598-670 | A config that is served has at most one CNAME at any owner. |
| `ZoneServed.ServedClosureChangesAreNamed` | tests/arena_differential.rs:598-670 | So of served configs every change ancestor closure makes is T1, T2 or T3. |
| `ZoneServed.ServedRuleChangesAreNamed` | tests/arena_differential.rs:1098-1186 | And every change of the rule is W1 to W4 unless a CNAME points at a wildcard name or the origin is one. |
| `ZoneServed.UnnamedRuleChanges` | tests/arena_differential.rs:1098-1186 | On served configs with a plain origin a change of the rule is unnamed exactly when it is at an alias whose chase stops at a name that exists. |
| `ZoneEscapes.WildcardTargetEscapes` | tests/arena_differential.rs:1098-1186 | A served config, `a CNAME *.d` under an apex wildcard, whose change no class names: the exception is real. |
| `ZoneComparison.CompareRules` | tests/arena_differential.rs:1661-1845 | Building the object, closing it, asking under the old rule, switching and asking again: the answer narrows, and on served configs with plain names each change is W1 to W4. |
| `AnyQueries.AnyDeniesWhatEveryTypeDenies` | src/handler.rs:284-348 | Outside the built-in sub-zones ANY is answered with a name error exactly for the names every other type denies. |
| `AnyQueries.AnyFindsTheAlias` | src/handler.rs:301-330 | What it finds is the reply to a CNAME query when there is one, else the single synthetic HINFO, and only under the queried owner. |
| `AnyQueries.EveryOtherReply` | src/handler.rs:253-348 | For any other type: REFUSED outside the zone, the zone's SOA for SOA at the apex, and else a name error, an empty answer or records exactly as the lookup finds. |
| `AnyQueries.AnyDenialOfEveryConfig` | src/handler.rs:284-348 | The agreement on denials for every config that builds, before and after closure, under both rules. |
| `RateLimits.KeyIsPrefix` | src/ratelimit.rs:334-353 | Two addresses share a key exactly when both are IPv4, over IPv4 or mapped at ::ffff:0:0/96, and in one aligned /24, or neither is and they are in one aligned /56. |
| `RateLimits.KeyIsTagged` | src/ratelimit.rs:334-353 | Bits 63..62 of a key are 00 for an IPv4 address, mapped or not, and 01 for any other. |
| `RateLimits.PackRoundTrip` | src/ratelimit.rs:356-367 | A deficit survives the word exactly when it is below 2^30, and bits 63..62 stay clear. |
| `RateLimits.RatesOf` | src/ratelimit.rs:198-211 | A `qps` and `burst` in range are kept as asked, larger ones cut to 1,000,000, and whatever is asked the limiter has a refill and a whole number of tokens in range. |
| `RateLimits.SettleIsRefill` | src/ratelimit.rs:386-412 | Settling a packed word is ideal saturating refill for every forward gap below 2^32 - 60000 ms and every step back of up to 60 s. |
| `RateLimits.SettleIsRefillPastTheWrap` | src/ratelimit.rs:386-412 | For longer forward gaps it still is exactly when the residue is in the long-idle band, or is ordinary and pays the deficit off. |
| `RateLimits.SettleIsRefillFarBehind` | src/ratelimit.rs:386-412 | For steps back of more than 60 s it is exactly when they are whole turns of the clock, or at most 60 s more. |
| `RateLimits.RefillIsBounded` | src/ratelimit.rs:402-412 | However often the stamp wraps, the deficit a slot shows falls by at most `qps` per elapsed millisecond. |
| `RateLimits.ChargeCostsOne` | src/ratelimit.rs:229-241 | In every band an admission adds one token to the deficit shown, and leaves it within capacity. |
| `RateLimitRuns.WindowBound` | src/ratelimit.rs:229-254 | Over any window of any run with a nondecreasing clock, wraps and gaps included, 1000 per admission on a slot is at most capacity plus refill times elapsed. |
| `RateLimitRuns.PrefixBound` | src/ratelimit.rs:298-305 | The same bound for all the addresses of one /24 or /56, whatever else shares the slot. |
| `RateLimitRuns.RunWithinCapacity` | src/ratelimit.rs:229-254 | No run, with any readings at all, leaves a slot owing more than a whole bucket. |
| `RateLimitRuns.FrozenClock` | src/ratelimit.rs:229-254 | From a full bucket at a frozen clock exactly the first `burst` calls are admitted, and the stored deficit is 1000 times their number. |
| `RateLimitRuns.StaleReadings` | src/ratelimit.rs:110-141 | With readings up to a minute out of order the slot stays in step with an ideal bucket whose stamp only grows. |
| `RateLimitRuns.StaleReadingsBound` | src/ratelimit.rs:110-141 | So the bound then holds over the span of the stamps. |
| `RateLimitRuns.RateLimiter.CheckAt` | src/ratelimit.rs:229-254 | One call by itself admits exactly when the bucket has a token and some exchange of the eight is not spurious; it then writes the charged word to its slot, and otherwise nothing. |
| `RateLimitRuns.RateLimiter.ActiveAt` | src/ratelimit.rs:280-287 | The count is of exactly the slots below full at that reading. |
| `RateLimitThreads.Linearises` | src/ratelimit.rs:229-254 | Every interleaving of any number of calls, exchanges failing for real or not, is a sequential run of its successful ones, each admitted and each in it once. |
| `RateLimitThreads.RefusalLinearises` | src/ratelimit.rs:236-240 | A refusal is one the sequential limiter makes at the point the call last read its slot. |
| `RateLimitThreads.ExhaustionMeansContention` | src/ratelimit.rs:143-151 | A call that gives up after eight attempts has seen at least eight others admitted on its slot meanwhile, less its spurious failures. |
| `RateLimitThreads.StepsAreBounded` | src/ratelimit.rs:229-254 | Each step of a call brings it nearer its end, within one load and eight exchanges; a slot changes only by an admission on it, so a refusal or an eighth loss writes nothing. |
| `RateLimitThreads.FrozenThreads` | src/ratelimit.rs:229-254 | At a frozen clock from full, no interleaving admits more than `burst` on a slot, and the deficit counts every one. |
| `RateLimitThreads.ConcurrentWindow` | src/ratelimit.rs:229-254 | The window bound for any stretch of concurrent admissions whose readings do not go back. |
| `RateLimitThreads.ConcurrentStaleReadings` | src/ratelimit.rs:110-141 | And for any stretch whose readings come out of order but stay in reach of the slot's stamp: the slot ends as the ideal bucket says, and the admissions are at most a bucket and the refill over the span of the stamps. |
| `CanonicalKeys.KeyBuffer.WriteCanonicalSortKey` | src/canonical.rs:62-76 | The nested loops append the key of the name and leave what was in the buffer. |
| `CanonicalKeys.LabelKeyOrder` | src/canonical.rs:21-31 | Whatever follows, two label keys compare as the lowercased labels do, and pass the comparison on when those are equal. |
| `CanonicalKeys.CaseIsOfTheAlphabet` | src/canonical.rs:62-70 | Case is that of the 26 letters of US-ASCII: each capital folds to its small letter and no other octet is changed. |
| `CanonicalKeys.KeyOrderIsCanonicalOrder` | src/canonical.rs:50-76 | Byte order of the keys is the canonical name order of RFC 4034 section 6.1, for every label list over every octet, NUL included. |
| `CanonicalKeys.KeyEqualIffSameName` | src/canonical.rs:53-54 | Two names have one key exactly when they are equal ignoring case. |
| `CanonicalKeys.KeyPrefixIsAncestor` | src/zone.rs:2163-2178 | One key is a prefix of another exactly when its name is the other or an ancestor of it. |
| `CanonicalKeys.CanonicalOrderIsTotal` | src/canonical.rs:1-19 | Canonical order is transitive, asymmetric, and total up to case. |
| `CanonicalKeys.SubtreeIsContiguous` | src/zone.rs:2069-2074 | Every subtree is a contiguous run of the sorted order, and its top comes first. |
| `CanonicalLayout.PopToParent` | src/zone.rs:2112-2119 | What the inner loop leaves on the stack is exactly the strict ancestors of the new node. |
| `CanonicalLayout.CutPass` | src/zone.rs:2079-2150 | The one pass over the sorted keys: the delegations are exactly the ranks above 0 that hold NS, each with its own servers; every node is labelled with the deepest of them at or above it, and with none exactly when there is none; rank 0, the apex, never is one. |
| `CanonicalLayout.NearestCutByName` | src/zone.rs:2069-2077 | In terms of names: a node's label is the deepest name below the apex that holds NS at or above its own, and it has none exactly when no such name is. |
| `Lifecycles.Lifecycle.Enter` | src/lifecycle.rs:125-156 | One call leaves the greater of the two phases and reports whether it moved it, however many spurious failures come first; from Draining on the process drains and is not ready. |
| `Lifecycles.Lifecycle.ArmDeadline` | src/lifecycle.rs:158-162 | The first deadline armed is the deadline. |
| `Lifecycles.Lifecycle.DeadlineIn` | src/lifecycle.rs:164-173 | There is a time left once armed: zero exactly from the deadline on, and before that the time to it. |
| `LifecycleThreads.NeverBackwards` | src/lifecycle.rs:117-142 | Under every interleaving the phase never decreases, and is never Serving again once Draining. |
| `LifecycleThreads.EachAdvanceHasOneReporter` | src/lifecycle.rs:117-142 | The advances reported are the whole history of the phase, each strictly forward and each by one caller. |
| `LifecycleThreads.LossesAreBounded` | src/lifecycle.rs:125-142 | A call loses at most as many exchanges to others as its target is high, so at most four. |
| `LifecycleThreads.EveryCallReturns` | src/lifecycle.rs:125-142 | A call returns by the sixth of its own turns that does not fail for no reason, whatever the others do. |
| `LifecycleThreads.EndsAtTheHighest` | src/lifecycle.rs:117-142 | When all have returned the phase is the highest that was asked for. |
| `Shutdowns.Signals.Deliver` | src/shutdown.rs:149-163 | The first cause delivered stays the cause, and the count goes up by one, saturating; that the cause comes first is `ShutdownRuns.SignalsStep`, where the two are separate steps. |
| `Shutdowns.Signals.AbortProcess` | src/shutdown.rs:133-141 | An abort counts as a signal and is the cause only if nothing came before it. |
| `ShutdownRuns.SignalsStep` | src/shutdown.rs:53-58 | Every step keeps a cause readable once a signal is counted, never changes it, and keeps the window the first cause's. |
| `ShutdownRuns.TraceStep` | src/main.rs:604-674 | Every step keeps the milestones of the sequence in order, each with its reason on record. |
| `ShutdownRuns.TimesStep` | src/main.rs:511-527 | Where the clock can be at each point of the sequence, given that what is due is acted on before it moves; that the sequence moves on is `ShutdownProgress.ExecuteReturns`. |
| `ShutdownRuns.TokensInOrder` | src/main.rs:604-674 | The drain_start, dns and admin tokens are cancelled once each and in that order. |
| `ShutdownRuns.DnsIsNeverEarly` | src/main.rs:604-637 | DNS is cancelled only after Draining, the window elapsed or cut short by a further signal, Stopping, and then no query in flight, the one-second cap, or another signal. |
| `ShutdownRuns.NotReadyOnceDraining` | src/main.rs:604-610 | From Draining on the process is never ready, whoever asks for Serving; the first cause is readable and fixed from the first signal. |
| `ShutdownRuns.DoneIsRight` | src/main.rs:584-601 | An exit is 0 exactly when the sequence returned and 3 otherwise; it is written down by the deadline, and one with 3 at it. |
| `ShutdownProgress.OwnStepDescends` | src/main.rs:604-705 | Each turn of its own brings the main task strictly nearer its exit, with no help from listeners, queries, signals or admin. |
| `ShutdownProgress.NoStepAscends` | src/main.rs:584-705 | Nobody's step takes it further off. |
| `ShutdownProgress.ExecuteReturns` | src/main.rs:511-601 | After any run with a signal in it and whatever interleaves, the main task given its turns exits: 0 exactly when the sequence returned, else 3, by the first signal's time plus five seconds, plus the drain if the first cause is SIGTERM. |
| `ShutdownCauses.FirstSignalAtAnyTime` | src/main.rs:502-503 | Until a first signal the process serves, and it may come at any time, with any cause. |
| `ShutdownCauses.InterruptOpensNoWindow` | src/shutdown.rs:48-58 | When the first cause is an interrupt or an abort, Stopping is entered at the time the window opened. |
| `ShutdownCauses.TermKeepsTheWindow` | src/shutdown.rs:48-58 | When it is SIGTERM and no signal is published inside the window, Stopping is entered exactly the configured drain after it opened. |
| `ShutdownCauses.WindowAndDeadline` | src/main.rs:511-513 | From the moment the signal is acted on, the deadline is the first signal's time plus 5000 ms after an interrupt or an abort, and the configured drain more after SIGTERM. |
| `ShutdownCauses.NoExitIsLate` | src/main.rs:511-601 | No exit, clean or forced, is later than that. |
| `ShutdownCauses.ExitsByItsCause` | src/main.rs:511-601 | And given its turns the process does exit by then, whatever interleaves. |
| `ShutdownQuiesce.QuiesceIsExact` | src/main.rs:676-697 | DNS is cancelled, at the latest a second after Stopping, at a poll that reads idle or at a further signal's own time, or else at that cap; the first idle reading and the first signal between polls do end the wait, at their own time. A signal at a poll's own instant, which may come before the baseline is read, need not. |
| `ShutdownQuiesce.IdleMeansAnswered` | src/main.rs:681-687 | A poll reads idle exactly when every request that came before the token has been answered, and nothing but a poll does. |
| `ShutdownWindow.DeliveredOncePublishedOnce` | src/shutdown.rs:149-162 | Every signal delivered is published once: those published and those still to be are all that were delivered. |
| `ShutdownWindow.CountSaturates` | src/shutdown.rs:143-147 | The count is the number of signals published, up to 2^32 - 1, where it stays. |
| `ShutdownWindow.WindowIsExact` | src/main.rs:614-619 | The drain window ends before its length exactly when a signal is published inside it, and then at that signal's own time; never later. A window opened at the count's ceiling of 2^32 - 1 is the one that cannot tell. |
| `ShutdownWindow.EarlySignalIsAbsorbed` | src/shutdown.rs:120-131 | However long the window, a run with two signals before it opens and none after: it lasts its whole length. |
| `ShutdownRuns.PromptListenersExitClean` | src/main.rs:51-66 | If the listeners are done within three seconds of their token the exit is 0: the budget is enough. |
| `ShutdownRuns.AdminHasASecond` | src/main.rs:645-674 | While it waits for the admin server, the wait ends one second after the listeners' return, or when the server returns; and it waits only if there is one. |
| `Configs.RejectDuplicates` | src/config.rs:691-699 | The growing set refuses exactly the lists that repeat an address. |
| `Configs.MergeValidates` | src/config.rs:471-560 | Every config that resolves satisfies the validated bounds and names the file it came from; the rest of the precedence is in the rows that follow. |
| `Configs.RefusedForTheFirstFault` | src/config.rs:471-560 | A merge is refused exactly when something is at fault, and for the first fault in order: repeated UDP or TCP listeners, a blank origin, a zero TTL, a zero TCP timeout, a drain outside 0 to 300 seconds, a burst of zero with a rate. |
| `Configs.MergedAddresses` | src/config.rs:652-664 | Each list of listeners comes from the first tier that has one; with none at all it is UDP at port 1053. |
| `Configs.MergedZone` | src/config.rs:483-501 | The zone's data come from the file, its origin and the built-ins from the first tier that decides them, else the default. |
| `Configs.MergedSettings` | src/config.rs:503-560 | Timeout, drain window, log format and level, admin address and token, rate and burst each come from the first tier that states them, else the default. |
| `Configs.ResolvedSays` | src/config.rs:429-469 | Resolving is the merge with the file named, or with an empty one; a file that cannot be read or parsed is told apart from one that is refused; and what the file states is kept beside the config. |
| `Configs.ShadowedKeysHaveNoEffect` | src/config.rs:471-560 | Erasing from the file every key the command line decides changes neither the config nor the refusal. |
| `Reloads.DriftMembers` | src/reload.rs:350-433 | The report names exactly the fixed keys that drift. |
| `Reloads.QuietIffNoDrift` | src/reload.rs:324-349 | It is empty exactly when none of the eleven does. |
| `Reloads.ReportSays` | src/reload.rs:331-400 | Each of the eleven keys is in the report exactly when the file states another value for it than the one in use, or a restart would resolve another. |
| `Reloads.ReportIsInOrder` | src/reload.rs:331-400 | Each is reported once, and in the order of the partition table. |
| `Reloads.JudgeSays` | src/reload.rs:213-271 | What each refusal of a reload is for, the stage of the file's failure, the origin or the build; and one that is not refused goes on with what was resolved and built. |
| `Reloads.ReloadsKeepServing` | src/reload.rs:115-139 | After any history of reloads every fixed setting, and the spelling of the origin, is what the process started with. |
| `Reloads.RestartIffNoResolvedDrift` | src/reload.rs:334-341 | What runs after a reload is what a restart would resolve, in every field, exactly when no fixed key would resolve otherwise. |
| `Reloads.QuietReloadIsARestart` | src/reload.rs:324-349 | After any history of reloads, one that succeeds and ignores nothing leaves running what re-resolving that file gives, the origins compared as DNS names. |
| `Reloads.NoOpReloadIsQuiet` | src/reload.rs:343-345 | Reloading the file a process started from reports nothing exactly when no stated key is shadowed by a different one and no burst is stated for a limiter that is off. |
| `Reloads.UnusedBurstIsReported` | src/reload.rs:418-431 | A file with a burst and no rate: it resolves with no limiter, and reloading it unchanged succeeds and reports the burst. |
| `ReloadContexts.Drift` | src/reload.rs:350-433 | Eleven comparisons in the order of the partition table push exactly the specified report. |
| `ReloadContexts.ReloadContext.Reload` | src/reload.rs:191-316 | Which refusal or outcome one reload gives, in the order of its gates; a refused one leaves zone, gauge and running config as they were. |
| `ReloadThreads.GaugeIsNeverAhead` | src/reload.rs:281-292 | In every interleaving of reloads, drains and scrapes the gauge is the count of the zone in place or of the one it has just displaced. |
| `ReloadThreads.ReloadsAreSequential` | src/reload.rs:198-214 | Every interleaving applies its successful reloads one at a time, and the origin stays a spelling of the first. |
| `ReloadThreads.RefusalTouchesNothing` | src/reload.rs:182-190 | No step of a reload that ends refused ever changed the zone, the gauge or the running config. |
| `ReloadThreads.NoneStartsAfterTheDrain` | src/reload.rs:191-196 | A reload that starts once the drain has is refused as shutting down, however the run goes on. |
| `ReloadThreads.DrainIsForGood` | src/reload.rs:189-195 | The drain is on exactly when some step has started it. |
| `ReloadThreads.TheDrainAbandonsIt` | src/reload.rs:277-281 | A reload the drain finds short of its second look installs nothing, however far it had got and however the run goes on. |
| `Calendars.YearOfEraIsRight` | src/commands/mod.rs:80-83 | The formula's year is the one whose days the day is among. |
| `Calendars.CivilStep` | src/commands/mod.rs:77-89 | The formula moves on a day at a time under the Gregorian rules. |
| `Calendars.CivilIsCounting` | src/commands/mod.rs:77-89 | For every day count it is the date got by counting days forward from 1970-01-01. |
| `Calendars.YmdIsTheDate` | src/commands/mod.rs:77-93 | The packed 32-bit form is that date exactly when it fits 32 bits. |
| `Calendars.YmdIncreases` | src/commands/mod.rs:77-93 | So it is strictly increasing for as long as it fits. |
| `Calendars.SerialAdvances` | src/commands/mod.rs:54-62 | Up to the date 42949671 a serial never decreases, and increases exactly until the day's ninety-ninth. |
| `Calendars.SerialGoesBackIff` | src/commands/mod.rs:54-62 | With 32-bit wrap a serial goes back exactly when the hundredfold date saturates and the serial is neither 0 nor the greatest. |
| `Calendars.SerialGoesBackIn4295` | src/commands/mod.rs:54-62 | The first date for which it does: on 1 January 4295 the serial 4294123199 of the day before goes to 0. |
| `Calendars.NthEditOfADay` | src/commands/mod.rs:54-62 | The n-th edit of a day gives its n-th serial, up to ninety-nine. |
| `Calendars.SerialsNeverGoBack` | src/commands/mod.rs:54-62 | No sequence of edits on dates up to 42949671 takes the serial below where it began. |
| `Calendars.SerialsFollowTheCalendar` | src/commands/mod.rs:54-93 | By the real calendar the first serial of a later day is above every serial of an earlier one. |
| `RecordTables.NormaliseIsIdempotent` | src/editor.rs:561-568 | A normalised name normalises to itself, so a set that was written is found again. |
| `RecordTables.StringsOfBuilt` | src/editor.rs:639-653 | Reading back an array that was built gives the values it was built from. |
| `Editors.DeleteFromTheBack` | src/editor.rs:309-312 | Deleting the collected indices from the back leaves exactly the survivors, in order. |
| `Editors.ConfigEditor.Collect` | src/editor.rs:279-307 | The collecting loop edits each surviving set in place, lists exactly those to go, and reports a change exactly when a set is touched; on a value item that is no array it stops part-way. |
| `Editors.ConfigEditor.Remove` | src/editor.rs:264-319 | The whole removal is an order-preserving filter and map of the list, with its error paths. |
| `Editors.ConfigEditor.Add` | src/editor.rs:194-258 | The whole addition is the specified edit of the first matching set, or a new one at the end, with its error paths in order. |
| `EditLaws.RemoveTellsTheTruth` | src/editor.rs:314-318 | A removal is reported exactly when the record view changed. |
| `EditLaws.RemovedIsGone` | src/editor.rs:260-263 | After it no wanted set is left, or none holds a dropped value. |
| `EditLaws.OthersAreKept` | src/editor.rs:279-312 | Every other record set is as it was and in the order it was in. |
| `EditLaws.RemoveIsIdempotent` | src/editor.rs:264-319 | A second removal finds nothing to do. |
| `EditExactness.RemovalIsExact` | src/editor.rs:264-319 | For every removal that meets no stuck table: a wanted table goes exactly when no values are named, or it has values and all are; of one that stays, the name, type, TTL and other keys are as they were, and its values are the old ones less the dropped, in order and as often; the rest stay whole; all in their order. |
| `EditExactness.StuckIsExact` | src/editor.rs:279-307 | A removal that meets a table whose values are no array has edited those before it and no other, and dropped none. |
| `EditLaws.AddReaches` | src/editor.rs:194-258 | After an addition the first matching set holds every value and the TTL asked for, on a replacement nothing else, and no other set is touched. |
| `EditLaws.AddIsIdempotent` | src/editor.rs:190-193 | The same addition again changes nothing and says so. |
| `EditLaws.AddTellsTheTruth` | src/editor.rs:216-245 | `Unchanged` is returned exactly when the record view did not change. |
| `EditExactness.AdditionIsExact` | src/editor.rs:194-258 | Every addition, field by field: the first table of the set is left, replaced or extended by the values it lacked, in order, with the TTL asked for, and told as such; with none, one is put last; it is refused exactly when that table's values are no array. |
| `EditExactness.MatchesByText` | src/editor.rs:561-615 | A table is of a set when its name, the apex's if it has none, reads as the set's without surrounding blanks and case, and its type is the set's but for case. |
| `EditExactness.WantedByText` | src/editor.rs:279-286 | A removal that names no type is about every table of the name. |
| `EditLaws.AddThenRemove` | src/editor.rs:247-319 | Adding an absent set and removing it, whole or by its values, restores the list. |
| `ResponseSizes.RdataIsExact` | src/handler.rs:654-673 | The bound of every kind of RDATA is its octets plus one per root name, or the fallback's guess: never less. |
| `ResponseSizes.BoundIsLengthAndSlack` | src/handler.rs:617-641 | The response bound is the uncompressed message plus exactly that slack, less any question past the first. |
| `ResponseSizes.Resolved.FitPlainUdp` | src/handler.rs:519-533 | Sections are dropped with TC set exactly for a UDP reply without EDNS whose bound is above 512, and otherwise untouched; with at most one question the reply is then within 512 octets, and with any number exactly when the bound and the further questions, less the slack, are. |
| `ResponseSizes.NothingDroppedForNothing` | src/handler.rs:611-641 | With no root name and no unmeasurable RDATA, sections are dropped exactly when the uncompressed reply is too long. |

## Left out

- Names and values are past their parsers: presentation syntax, escapes (an escaped asterisk is an ordinary label here and a wildcard never), and RDATA beyond a type and a payload.
- The SOA record's fields other than its names, its minimum and its place: they are one opaque number.
- The arena of `src/zone.rs`, delegation, referrals, glue and occlusion, apart from the two searches and the cut pass listed above.
- `RateLimits.CanonicalKey`, `RateLimitRuns.SlotOf`: how well the hash spreads keys, and the randomness of its seed.
- `RateLimitRuns.StaleReadingsBound`: a reading behind the stamp together with an idle gap past 2^32 - 60000 ms is outside it; the window bound, which covers all gaps, needs a clock that does not run back.
- `CanonicalLayout.CutPass`: the sort itself is the library's; the pass starts from the keys it has sorted.
- `Shutdowns.MainStep`: the log lines, the watchdog thread and the admin server's own connections.
- `Shutdowns.Start`: the start-up before Serving (binding, its errors) and a listener's death while serving, the other branch of `serve`'s select; the machine starts in the wait for a first signal.
- `Configs.Merge`: reading and parsing the file; it starts from the parsed tiers.
- `ReloadThreads.Next`: a reload that panics, and recovery of its poisoned lock. A reload already past its second drain check does install its zone, in the model as in the code.
- `Editors.ConfigEditor.Add`: a file with no `[zone]` table, or one that is no table, is the same as one with no records or none that are tables.
- `EditLaws.AddThenRemove`: comments and formatting of the file; other keys of a table are one opaque field.
- `ResponseSizes.Resolved.FitPlainUdp`: how many questions of a request with more than one the library echoes is not part of this model; the exact condition is stated for any number.
- Sockets, HTTP, signal delivery by the operating system, the real clock, logging, metrics text, file writing and the command line's own parsing.
- Counters, gauges beyond the record gauge, the built-in diagnostic sub-zones and the health check.
