# Verified model of httpcloak's core algorithms and protocols

This project models the parts of httpcloak, an HTTP client library written in Go, that carry real
invariants, and proves them with Dafny 4.11. `dafny verify dfyconfig.toml` checks everything.

Each module follows one part of the program.

- `ConnLifecycle`, `HostPool`, `HostPoolCalls`, `HostPoolCap`, `HostPoolReaper`, `Http2Exchange`: a pooled connection
  as a concurrent object whose steps are its mutex critical sections, the per-host pool above it with its own mutex
  and the snapshots it takes of each connection, the pool's loops, how far overlapping calls pass its cap, what its
  sweeps do to streaming responses, and the one retry of an HTTP/2 exchange. The claims are about every
  interleaving.
- `HappyEyeballs`: racing dials over a buffered channel.
- `EditDistance`: the two-row Levenshtein program and the preset suggestion built on it.
- `Akamai`, `AkamaiText`, `Preset`, `PresetBuild`, `PresetLaws`, `Describe`: the Akamai shorthand parser and the writer it
  undoes, the getters a transport reads, the overlay that builds a preset, what inheritance and the getters mean, and
  the description that is supposed to undo the build.
- `Registry`: the inheritance-loop guard and the graph it protects.
- `CookieJar`: the domain-keyed index of the cookie jar.
- `Redirect`, `Retry`: the redirect chain over arbitrary server answers, and the retry loop around it.
- `BrandList`: the rewriting of sec-ch-ua brand lists.
- `DnsCache`: the resolver cache under concurrent lookups, and address interleaving.
- `VarInt`: QUIC integers and datagrams.
- `Text`, `Wrappers`: the string functions of the Go standard library that these rely on, and the shared result
  types.

## How to read the concurrent models

A state is a value and a step is a function of the state and an event. An event whose thread is not at that
point, or that is not enabled, leaves the state unchanged, so a claim over every sequence of events is a
claim over every interleaving. Clock readings, server answers, dial results, the transport's
`CanTakeNewRequest` and the choice of which goroutine runs next are all part of the events. The classes
(`Conn`, `Cache`, `CookieJar`, `MutablePreset`) hold the same state in fields; each of their methods is proved to
do what the corresponding function says.

## Where the code does not do what its comments say

These are proved, each with the exact condition under which the stated property does hold.

- Evicting a connection can cut a response: `requestClose` and the sweeps decide under the lock and close after
  it (`RequestCloseCanCut`, `SweepCanCut`). After a copy of the fields that shows no request, a close cuts exactly
  when a request admitted since is still open, and after one that shows a closed connection it never does
  (`RequestCloseCutsIffAdmittedSince`, `WhatTheCopyDecides`). Over every run, a cut by a Close that the pool issued
  means that the pool was closed, or that a sweep saw a busy connection whose use and body progress were both past the
  abandoned-body bound, or an idle one that admitted a request after the copy (`CutHasCause`).
- `maxConns` is checked before a dial made outside the lock, so k overlapping calls can hold
  `maxConns + k - 1` connections, and no more, for every cap (`CapUnderOverlap`, `OverlapReachesBound`); the cap
  holds in every run exactly when calls do not overlap (`CapHoldsIffNoOverlap`).
- A successful dial that loses the race is not always closed. Without cancellation that can happen exactly with two or
  more addresses, and with it exactly with one or more (`NeverLeaksIffOneAddress`,
  `NeverLeaksCancelledIffNoAddress`); at the return, dial k's connection may be left open exactly when its success is
  queued or the dial still runs, and certainly is exactly when it is queued (`LeakDecidedAtReturn`).
- A description read back is not always equivalent. The loader takes it exactly when the preset has a TLS source, a
  user agent and a header (`ReloadGives`). The second description differs exactly for an empty non-nil HPACK
  header order (`DescribeReloadDescribe`). The rebuilt getters differ exactly for an empty non-nil header, settings
  or pseudo-header order, for any `HPACKRepresentation` (never written out), and for an explicit priority model on
  a preset without a priority table (`GettersAgreeIffH2Lossless`). The TLS block differs exactly when it holds
  something beside its ja3 string or beside its hello that is not written out (`TlsComesBackIffLossless`).
- `HasStreamWeight` is also set by a weight of two or more zeros (`WeightFlagMeansPositive`).
- `ClearExpired` removes a cookie that expires at this very instant and would still be served at it. It changes the
  answer at that instant exactly when a matching bucket holds such a cookie (`ClearExpiredInvisibleNowIff`,
  `ClearExpiredVisibleAtOnce`); at every later instant it is invisible (`ClearExpiredInvisibleLater`).
- A failure of the retry loop can hide a server reply: exactly when that reply is a cookie challenge, on whichever
  attempt, and every other attempt errored (`ReplyLostIffLoneChallenge`, `ChallengeCanBeLost`).
- Cookies cross origins. A request goes out with a cookie that the jar did not choose for it exactly when the jar has
  none for its URL, and the caller set one or the jar had one for an earlier hop (`ForeignCookieIff`,
  `CookieCanLeaveOrigin`).
- The loop guard protects sequential builds stored under their own names only. Any run of builds and registrations
  keeps the graph acyclic exactly when no preset is stored where its guard would not pass
  (`AcyclicIffGuardsFresh`): not after it has gone stale (`OverlappingBuildsCloseCycle`), and not under another
  name (`OtherNameClosesCycle`).
- `writeVarInt` accepts values of 2^62 and above and loses their two top bits (`RoundTripIffRepresentable`).

## Model

| member | source | states |
|---|---|---|
| ConnLifecycle.Conn.constructor | pool/pool.go:738-746 | a new connection: nothing in flight, not retired, open, both timestamps now |
| ConnLifecycle.Conn.Admit | pool/pool.go:112-123 | RoundTrip's first section: refuses exactly when closed, retired or without HTTP/2, changing nothing; otherwise one more in flight and the use time set |
| ConnLifecycle.Conn.Release | pool/pool.go:72-77 | one fewer in flight; reports the deferred close exactly when retired and empty |
| ConnLifecycle.Conn.RequestClose | pool/pool.go:89-96 | retires a busy connection and closes an unused one later, never both |
| ConnLifecycle.Conn.Close | pool/pool.go:234-249 | marks closed; touches the socket only the first time |
| ConnLifecycle.Conn.MarkUsed | pool/pool.go:226-231 | sets the use time and counts the use |
| ConnLifecycle.AdmittedIffServing | pool/pool.go:112-123 | a new request is admitted exactly by an open, unretired connection with a transport |
| ConnLifecycle.CommitsToReleaseIff | pool/pool.go:124-181 | a request commits to its release exactly by a transport error, headers without a body, a failing read or a close |
| ConnLifecycle.TimesAreReadings | pool/pool.go:72-77 | in every run the last-use time is the clock reading of the last admission, header arrival, release or hand-out that took effect, else the creation time; the progress time that of the last progress; the use count the number of hand-outs |
| ConnLifecycle.FlagsAreHistory | pool/pool.go:84-98 | in every run a connection is retired exactly when requestClose ran while a request was open, and closed exactly when a close ran |
| ConnLifecycle.InFlightCountsOpenRequests | pool/pool.go:112-181 | in every interleaving of admissions, errors, nil bodies, failing reads and repeated closes, inFlight is the number of admitted unreleased requests, and a refused request was never admitted |
| ConnLifecycle.RetiredAdmitsNothing | pool/pool.go:112-119 | after retirement or closing, no request is ever admitted again, inFlight only falls, and neither flag is cleared |
| ConnLifecycle.FiresDrains | pool/pool.go:72-82 | a release fires the deferred close exactly when it is the step that empties a retired connection |
| ConnLifecycle.DeferredCloseExactlyOnce | pool/pool.go:72-82 | over a whole run exactly one release fires the deferred close once drained and none before, the close is never lost, and the socket closes at most once |
| ConnLifecycle.QuiescentRetiredIsClosed | pool/pool.go:66-82 | when no request and no goroutine is left, a retired connection is closed |
| ConnLifecycle.DeferredCloseNeverCuts | pool/pool.go:72-82 | the deferred close never closes the socket under a request |
| ConnLifecycle.RequestCloseCanCut | pool/pool.go:84-98 | a run in which requestClose does close the socket under a request |
| ConnLifecycle.RequestCloseCutsIffAdmittedSince | pool/pool.go:89-98 | it does so exactly when a request admitted after its decision is still open |
| ConnLifecycle.IdleCloseCutsIffAdmittedSince | pool/pool.go:234-249 | from any state with nothing in flight, a close of any kind cuts a response exactly when the socket is open and a request admitted since has not released |
| Http2Exchange.HandedOverAtMostOnce | client/client.go:1561-1576 | over all connections and both tries a request reaches the HTTP/2 layer at most once, exactly once when doHTTP2 got past admission |
| Http2Exchange.GivesUpAfterTwoRefusals | client/client.go:1561-1576 | in every run a caller gives up only after two refusals or when it is offered no connection, and is never refused a third time |
| Http2Exchange.SecondConnectionIsTried | client/client.go:1562-1572 | a caller refused once tries the next connection it is offered |
| Http2Exchange.ConnectionsKeepTheirProtocol | client/client.go:1561-1576 | each connection makes its own steps, and only callers are admitted |
| HostPool.StepKeepsInv | pool/pool.go:505-572 | every step of the pool or of a connection keeps tracking, retirement, sweep-progress and cap invariants together |
| HostPool.NothingLeaks | pool/pool.go:519-545 | every connection ever added is tracked or has a Close that has run or is on its way |
| HostPool.YoungNeverRetired | pool/pool.go:487-502 | no sequence of sweeps retires a young connection with a live transport, even when it cannot take a stream |
| HostPool.CapUnderOverlap | pool/pool.go:547-572 | live tracked connections never exceed maxConns + overlap - 1; with non-overlapping calls they and the pending dial stay within maxConns |
| HostPoolCap.OverlapReachesBound | pool/pool.go:547-572 | for every cap m and overlap k some run from an empty pool reaches m + k - 1 live connections |
| HostPoolCap.CapHoldsIffNoOverlap | pool/pool.go:547-572 | every run stays within the cap exactly when calls do not overlap |
| HostPoolReaper.PooledConnIsRun | pool/pool.go:505-572 | every connection of a reachable pool is in a state that the connection protocol reaches, so all claims about one connection hold of it |
| HostPoolReaper.CloseHasCause | pool/pool.go:525-531 | a Close on its way was issued by closing the pool or by a sweep's decision on that connection |
| HostPoolReaper.SnapshotIsCopy | pool/pool.go:433-465 | what a sweep decides on are the connection's fields at some earlier point of the run |
| HostPoolReaper.WhatTheCopyDecides | pool/pool.go:433-465 | in every run, a connection seen closed is never cut later, and one seen idle is cut exactly by closing it under a request admitted since |
| HostPoolReaper.CutHasCause | pool/pool.go:1223-1253 | in every run, a response cut by a Close of the pool's means that the pool was closed, or that a sweep copied the fields of an open connection which was busy and past the abandoned-body bound, or idle and then given a request |
| HostPoolReaper.LastUseIsLastReading | pool/pool.go:412-424 | in every run of the pool the last-use time of a connection is the reading of its last use |
| HostPoolReaper.IdleDroppedIffUnused | pool/pool.go:433-465 | in every run a sweep drops a connection it saw idle, open, live and young exactly when its last use before the copy is further back than the idle limit |
| HostPoolReaper.SweepCanCut | pool/pool.go:1229-1230 | for every cap and limits a run in which a sweep's close cuts a response of a connection it saw idle |
| HostPool.SweepDropsExactly | pool/pool.go:433-465 | a sweep closes a connection exactly when its snapshot says closed, or busy with use and body progress both past the abandoned-body bound, or idle and dead, over age or unused too long |
| HostPool.SweepRetiresExactly | pool/pool.go:487-502 | a sweep retires a connection exactly when its snapshot says open, not retired, and dead or over age |
| HostPool.ClosesComeFromDecisions | pool/pool.go:1223-1253 | nothing but such a decision, or closing the pool, issues a Close |
| HostPool.DialsEnd | pool/pool.go:566-572 | a dial that ends gives its place back, and a successful one adds a fresh connection |
| HostPool.CloseAllClosesAll | pool/pool.go:1244-1253 | closing the pool empties its list and issues a Close for every connection in it |
| HostPool.OutsideStepsHappen | pool/pool.go:112-249 | what happens to a connection outside the pool happens to it there |
| HostPool.RetireKeepsInv | pool/pool.go:487-502 | the retirement decision of a sweep, made on a copy of the fields, keeps every invariant |
| HostPool.FinishSweepKeepsInv | pool/pool.go:545-558 | replacing the list by what was kept, and the cap check, keep every invariant |
| HostPoolCalls.SweepAll | pool/pool.go:525-558 | the loop keeps exactly the connections it may not destroy, in order, counts the serving ones, and is a run of the pool's steps |
| HostPoolCalls.CloseIdle | pool/pool.go:1223-1242 | the same for CloseIdle, which never starts a dial |
| HostPoolCalls.UsableIffServes | pool/pool.go:400-424 | usable means exactly: RoundTrip would admit a request, no sweep would retire it or drop it for being idle, and its transport takes a request |
| HostPoolCalls.FindUsable | pool/pool.go:505-518 | the first loop finds the first connection that would serve in that sense, moves it to the end, and is a run of the pool's steps |
| HostPoolCalls.GetConn | pool/pool.go:505-558 | hands out the first connection that would admit a request and that no sweep would retire or drop for being idle, and moves it to the end; otherwise sweeps, and dials unless as many as the cap can still serve |
| HostPoolCalls.MovedToEnd | pool/pool.go:509-514 | handing out moves one connection to the end and keeps the order of the rest |
| HostPoolCalls.KeptExactly | pool/pool.go:519-545 | a sweep keeps exactly the connections it may not destroy, each as often as listed |
| HostPoolCalls.KeptAppend | pool/pool.go:519-545 | and in order |
| HostPoolCalls.ServingCountsInService | pool/pool.go:530-558 | the number compared with the cap counts exactly the connections that stay in service: kept, unretired, live and young |
| HostPoolCalls.SweepAndDecide | pool/pool.go:525-558 | the dial is allowed exactly when fewer than the cap can still serve |
| HappyEyeballs.StepKeepsInv | pool/pool.go:774-863 | every step keeps the count of outstanding results exact |
| HappyEyeballs.ChannelNeverOverfull | pool/pool.go:785-811 | a finishing dial always finds room in the channel |
| HappyEyeballs.NeverWaitsForNothing | pool/pool.go:813-857 | while the loop waits it counts exactly the results still to come, and one is queued or being dialled |
| HappyEyeballs.ErrorOnlyWhenAllFailed | pool/pool.go:819-863 | without cancellation an error means every address was dialled and failed, and a returned connection is a successful dial's |
| HappyEyeballs.EveryStepIsProgress | pool/pool.go:819-863 | every effective step brings the function nearer its return |
| HappyEyeballs.RunsAreShort | pool/pool.go:774-863 | without cancellation at most two effective steps per address and two more can happen |
| HappyEyeballs.SomeStepUntilReturn | pool/pool.go:798-857 | until the return some step is possible, so the function returns |
| HappyEyeballs.LeakDecidedAtReturn | pool/pool.go:801-810 | at the return, dial k's connection may be left open exactly when its success is queued or it still runs, and is left open whatever follows exactly when it is queued |
| HappyEyeballs.NeverLeaksIffOneAddress | pool/pool.go:785-863 | no run without cancellation leaves a connection open exactly with at most one address |
| HappyEyeballs.NeverLeaksCancelledIffNoAddress | pool/pool.go:785-863 | no run at all does exactly with no address |
| HappyEyeballs.LosingDialCanLeak | pool/pool.go:801-825 | one run that does for every two or more addresses, however split |
| EditDistance.Distance | fingerprint/suggest.go:84-111 | the two-row program returns the recursive Levenshtein distance |
| EditDistance.FillRow | fingerprint/suggest.go:99-109 | one outer turn computes the next row of the distance table in place |
| EditDistance.Min3 | fingerprint/suggest.go:113-121 | the least of three |
| EditDistance.LevZeroIffEqual | fingerprint/suggest.go:78-87 | the distance is zero exactly for equal words |
| EditDistance.LevSymmetric | fingerprint/suggest.go:78-84 | the distance is symmetric |
| EditDistance.LevTriangle | fingerprint/suggest.go:78-84 | the triangle inequality |
| EditDistance.ScriptAtLeastLev | fingerprint/suggest.go:78-84 | no sequence of single-character edits is shorter than the distance |
| EditDistance.LevHasScript | fingerprint/suggest.go:78-84 | some sequence of edits is exactly that long |
| EditDistance.Nearest | fingerprint/suggest.go:43-49 | the scan keeps the first candidate of least distance below its sentinel |
| EditDistance.Suggest | fingerprint/suggest.go:38-58 | returns the first nearest candidate when within a third of the length plus one, else nothing |
| EditDistance.SuggestedWithinLimit | fingerprint/suggest.go:50-57 | for realistic lengths the initial sentinel plays no part |
| EditDistance.FirstNearestExists | fingerprint/suggest.go:43-49 | there is exactly one first nearest candidate |
| Akamai.ParseSettings | fingerprint/akamai.go:83-125 | the settings loop gives every slot its last pair, ignores unknown ids, and fails on the first bad item |
| Akamai.ParsePseudoOrder | fingerprint/akamai.go:148-167 | the pseudo-header list, or an error on any other letter |
| Akamai.ParseAkamai | fingerprint/akamai.go:75-170 | accepts exactly the strings whose four fields parse, and returns what they say |
| Akamai.CollectIds | fingerprint/akamai.go:36-49 | the second scan finds exactly the ids that the first one consumed |
| Akamai.ParseAkamaiDetailed | fingerprint/akamai.go:25-60 | presence: ids seen, window given, weight given |
| Akamai.SeenIffGiven | fingerprint/akamai.go:36-49 | an id is seen exactly when some pair gives it a value |
| Akamai.WeightFlagMeansPositive | fingerprint/akamai.go:53-58 | the weight flag means a positive weight unless the field is two or more zeros |
| AkamaiText.ReadWritten | fingerprint/akamai.go:75-170 | reading a shorthand undoes writing it, for all settings pairs, window, weight and pseudo-header order it can hold |
| AkamaiText.OnlyFourLetters | fingerprint/akamai.go:148-167 | no pseudo-header letter but m, a, s and p is accepted |
| AkamaiText.SlotsOfSettings | fingerprint/akamai.go:83-145 | each setting is the last value given for its identifier, or zero, and a positive weight is exclusive |
| AkamaiText.LastValueIsLast | fingerprint/akamai.go:83-125 | the last pair of an identifier is the one used |
| PresetBuild.MutablePreset.ApplyHttp2 | fingerprint/custom_preset.go:975-1171 | fails exactly on a bad shorthand; otherwise every settings slot is the last list entry, else the last shorthand pair, else the discrete field, else inherited, and the config block is overlaid field by field |
| PresetBuild.MutablePreset.ApplyList | fingerprint/custom_preset.go:1063-1081 | the settings list in order, last entry winning |
| PresetBuild.MutablePreset.ApplyHttp3 | fingerprint/custom_preset.go:1173-1251 | creates the HTTP/3 block if absent and overlays the given fields |
| PresetBuild.SourcesDecideFor | fingerprint/custom_preset.go:992-1081 | the passes in the code's order give each slot to the highest source naming it |
| PresetLaws.SettingPrecedence | fingerprint/custom_preset.go:992-1081 | per setting the last list entry, else the last shorthand pair, else the discrete field, else the inherited value |
| PresetLaws.PriorityPrecedence | fingerprint/custom_preset.go:992-1062 | the same for connection window, stream weight and exclusive flag |
| PresetLaws.ShorthandPseudoOrderWins | fingerprint/custom_preset.go:1055-1104 | a non-empty pseudo-header order in the shorthand is the built one |
| PresetLaws.WrittenShorthandBuilds | fingerprint/custom_preset.go:983-1171 | what is written in a shorthand takes effect in the built preset |
| PresetLaws.NoShorthandBuilds | fingerprint/custom_preset.go:983-1171 | without one the discrete fields and the list do |
| PresetLaws.BlocksBuild | fingerprint/custom_preset.go:396-440 | the other blocks of a spec take effect, and one left out leaves the inherited one |
| PresetLaws.AbsentSpecChangesNothing | fingerprint/custom_preset.go:383-440 | a preset based on another that names nothing is that other, section by section |
| PresetLaws.AbsentSpecAlone | fingerprint/custom_preset.go:396-403 | without a base it is the preset in which nothing is set |
| PresetLaws.H2OverlaysCompose | fingerprint/custom_preset.go:1083-1171 | overlaying two HTTP/2 blocks is overlaying their merge, the later winning field by field |
| PresetLaws.SettingsOverlaysCompose | fingerprint/custom_preset.go:992-1081 | the same for the settings, after a child that gives discrete fields |
| PresetLaws.H3OverlaysCompose | fingerprint/custom_preset.go:1173-1251 | the same for HTTP/3 |
| PresetLaws.HeaderOverlaysCompose | fingerprint/custom_preset.go:1253-1278 | the same for headers |
| PresetLaws.TcpOverlaysCompose | fingerprint/custom_preset.go:1316-1333 | the same for the TCP fields |
| PresetLaws.TlsOverlaysCompose | fingerprint/custom_preset.go:764-830 | the same for TLS blocks that name hellos |
| PresetLaws.TlsModeIsTheLaterOne | fingerprint/custom_preset.go:730-830 | a ja3 string clears inherited TCP hellos, a named hello an inherited ja3 string, and a block with neither keeps the inherited mode |
| PresetLaws.TlsRefusedIff | fingerprint/custom_preset.go:730-830 | a TLS block is refused exactly for an unknown hello name or a trust anchor not of 1 to 255 bytes |
| PresetLaws.BuiltIffLegal | fingerprint/custom_preset.go:377-440 | a preset is built exactly from legal values |
| Preset.PriorityFromUrgency | fingerprint/presets.go:598-603 | every urgency maps to a legal stream weight, 1 to 256 |
| PresetLaws.WeightFallsWithUrgency | fingerprint/presets.go:587-603 | the weight falls strictly from 256 to 1 over the urgencies, and stays there |
| PresetLaws.PriorityHeaderReadsBack | fingerprint/presets.go:605-633 | the header value reads back, as RFC 9218 has it, to the urgency and the incremental flag |
| PresetLaws.DefaultPriorityHeaders | fingerprint/presets.go:553-571 | the header of each destination of the default table |
| PresetLaws.PriorityComesFromTheTable | fingerprint/presets.go:920-945 | a destination goes out with its entry's weight, or its urgency's, and its header; one without an entry with none |
| PresetLaws.SubresourcesReadTheirOrder | fingerprint/presets.go:856-865 | exactly subresources read the subresource order, where it is not empty |
| PresetLaws.GettersReadTheBlock | fingerprint/presets.go:696-977 | what the H2 block sets is what the getters return |
| PresetLaws.GettersWithoutABlock | fingerprint/presets.go:696-977 | the defaults, derived from name, hello family and NoRFC7540Priorities |
| PresetLaws.HangFollowsIdle | fingerprint/presets.go:779-796 | a hang value not given is the idle value |
| PresetLaws.H3GettersReadTheBlock | fingerprint/presets.go:982-1147 | what the H3 block sets is what the getters return |
| PresetLaws.H3GettersWithoutABlock | fingerprint/presets.go:982-1147 | the defaults of both families |
| Describe.BuildInverse | fingerprint/client_hello_ids.go:149-182 | whatever the map order, each registered identity gets one of its own names, a concrete one if it has any |
| Describe.TlsReturns | fingerprint/describe.go:79-159 | a described TLS block builds and validates, in client_hello and ja3 mode, and what it builds to |
| Describe.TlsDescriptionReturns | fingerprint/describe.go:79-159 | what it builds to has the same description |
| Describe.TlsComesBackIffLossless | fingerprint/describe.go:79-159 | the reloaded TLS block equals the original exactly when it holds nothing that a description leaves out in its mode; name, settings, TCP values and headers come back |
| Describe.H3Returns | fingerprint/describe.go:341-401 | the HTTP/3 block comes back with every getter and its description unchanged |
| Describe.HeadersDescribedIff | fingerprint/describe.go:200-229 | a header block is described exactly when it holds something, and then as it is |
| Describe.JsonDropsTheEmpty | fingerprint/describe.go:20-27 | writing drops exactly empty lists and maps |
| Describe.RebuildGives | fingerprint/describe.go:48-75 | describing and building a well-formed preset succeeds, and the preset it gives |
| Describe.ReloadGives | fingerprint/custom_preset.go:469-483 | the loader takes the description of a well-formed preset exactly when the preset has a TLS source, a user agent and some header |
| Describe.DescribeReloadDescribe | fingerprint/describe.go:20-27 | the second description equals the first exactly unless the header order is empty but non-nil; the loader refuses exactly the incomplete presets |
| Describe.GettersAgreeIffH2Lossless | fingerprint/presets.go:696-1147 | the reloaded preset agrees on every H2 getter for every destination exactly when nothing listed is lost, and on every H3 getter always |
| Describe.H2AlwaysKept | fingerprint/describe.go:230-337 | the H2 getters that survive whatever the preset, priorities for every destination among them |
| Describe.H2ModelKept | fingerprint/describe.go:313-328 | the priority model survives exactly with a table, or when it is the default one |
| Registry.LoopGuard | fingerprint/custom_preset.go:353-375 | the walk ends for every registry and rejects exactly the chains that come back to the preset or to themselves |
| Registry.RegisterKeepsAcyclic | fingerprint/custom_preset.go:353-403 | registering a guarded preset keeps the graph acyclic |
| Registry.RegisterAcyclicIffGuard | fingerprint/custom_preset.go:353-403 | storing a preset keeps an acyclic graph acyclic exactly when the guard passes on the registry it is stored into |
| Registry.UnregisterKeepsAcyclic | fingerprint/registry.go:46-48 | so does unregistering one |
| Registry.StrictTakesFreeNames | fingerprint/registry.go:26-44 | a strict registration takes effect exactly for a non-empty name that is neither taken nor a built-in's |
| Registry.PlainReplaces | fingerprint/registry.go:14-19 | a plain one replaces what was there |
| Registry.StrictNeverShadows | fingerprint/registry.go:21-48 | while all are strict no built-in is shadowed and no name re-based without being deleted |
| Registry.BuiltOnlyOnKnown | fingerprint/custom_preset.go:353-390 | a preset is built exactly on nothing or a known base, and not into a loop |
| Registry.RunsStayAcyclic | fingerprint/registry.go:14-48 | any run of sequential build-and-register and unregister steps stays acyclic |
| Registry.AcyclicIffGuardsFresh | fingerprint/registry.go:14-48 | a run of builds, registrations under any name and deletions stays acyclic throughout exactly when the guard would pass at every registration for the name stored under |
| Registry.OverlappingBuildsCloseCycle | fingerprint/custom_preset.go:353-375 | whenever either of two presets may be based on the other, building both before registering both closes a cycle |
| Registry.TwoRootsMayNest | fingerprint/custom_preset.go:353-375 | any two presets without a base are such a pair |
| Registry.OtherNameClosesCycle | fingerprint/registry.go:14-19 | storing any preset in the place of the registered one it is based on closes a cycle, without overlap |
| CookieJar.CookieJar.constructor | client/cookiejar.go:18-22 | an empty jar |
| CookieJar.CookieJar.SetCookies | client/cookiejar.go:25-57 | the batch applied cookie by cookie |
| CookieJar.CookieJar.Cookies | client/cookiejar.go:84-125 | the served cookies of the matching buckets, all of them retrieved by section 5.4, longest path first |
| CookieJar.CookieJar.Clear | client/cookiejar.go:143-147 | empties the jar |
| CookieJar.CookieJar.ClearDomain | client/cookiejar.go:150-154 | drops one bucket |
| CookieJar.CookieJar.ClearExpired | client/cookiejar.go:157-175 | keeps the unexpired cookies and drops emptied buckets |
| CookieJar.GetMatchingDomains | client/cookiejar.go:211-229 | the host and each parent that has a bucket, in order |
| CookieJar.MatchIsIndexed | client/cookie.go:59-85 | a cookie matching a URL sits in the host's bucket or a parent's |
| CookieJar.DomainMatchesAsRfc | client/cookie.go:59-85 | a domain cookie matches its domain and its subdomains, a host-only cookie its host |
| CookieJar.PathMatchesIffRfc | client/cookie.go:87-104 | the path test is that of section 5.1.4 of RFC 6265 exactly unless the cookie path is empty or a slash and the request path has no leading slash |
| CookieJar.CutPortIffWithoutPort | client/cookie.go:60-63 | the host compared is what stands before the last colon |
| CookieJar.ServedIffRetrieved | client/cookie.go:41-57 | a cookie is served exactly when section 5.4 of RFC 6265 retrieves it: domain, path, secure only over https, not expired; a cookie path of nothing or a slash accepts any request path |
| CookieJar.IndexAgreesWithFlatScan | client/cookiejar.go:98-117 | the indexed answer is, as a multiset, a flat scan of all buckets in any order |
| CookieJar.ReachableJarInv | client/cookiejar.go:25-57 | every reachable jar keeps cookies in their own buckets, one per name and path |
| CookieJar.ReachableAnswersLikeFlatScan | client/cookiejar.go:84-125 | so every reachable jar answers like the flat scan |
| CookieJar.AnswerIsRetrieval | client/cookiejar.go:84-125 | for every reachable jar the answer holds each stored cookie that section 5.4 retrieves, as often as stored, and no other |
| CookieJar.SetThenServed | client/cookiejar.go:25-57 | after any run a cookie that is set is served to every URL it is for |
| CookieJar.ClearsTakeEffect | client/cookiejar.go:143-175 | the clearing operations empty the jar, one domain's bucket, or the expired |
| CookieJar.LastWriteDecides | client/cookiejar.go:33-56 | after a batch a slot holds its last writer unless expired then, or what it held if nobody wrote it |
| CookieJar.ClearExpiredInvisibleLater | client/cookiejar.go:157-175 | clearing at t changes no answer at any later time |
| CookieJar.ClearKeepsExactly | client/cookiejar.go:157-175 | clearing at t keeps exactly the cookies not deleted that expire after t, and no empty bucket |
| CookieJar.ClearExpiredInvisibleNowIff | client/cookiejar.go:157-175 | at t itself it changes the answer exactly when a matching bucket holds a cookie served at t that expires at t |
| CookieJar.ClearExpiredVisibleAtOnce | client/cookiejar.go:157-175 | a jar in which it does |
| Retry.DoWithRetry | client/client.go:850-930 | stops at the first attempt that ends the loop, never replays a vetoed request, makes at most maxRetries + 1 attempts, fails exactly when none ends it and none is retryable, and goes over HTTP/3 exactly after a challenge when a transport for it exists |
| Retry.OutcomeUnique | client/client.go:850-930 | that promise fixes the outcome and the number of attempts |
| Retry.FailsIff | client/client.go:903-929 | the loop fails exactly when the context stays alive and every attempt errors but for a first challenge |
| Retry.WhatEndsTheLoop | client/client.go:884-923 | a veto ends the loop, an error does not, and a reply does exactly when it is neither the first challenge nor to be retried before the last attempt |
| Retry.ReplyLostIffLoneChallenge | client/client.go:903-929 | the loop fails although the server replied exactly when the one reply is a challenge and all other attempts errored |
| Retry.ChallengeCanBeLost | client/client.go:906-929 | for every number of retries and every attempt of it, a run that fails although that attempt was answered |
| Redirect.ChainShape | client/client.go:1213-1354 | the requests of a chain: how many, the first, each following from the one before, all to https URLs |
| Redirect.AtMostMaxRedirectsHops | client/client.go:1221-1232 | at most maxRedirects hops for every server |
| Redirect.HistoryLinksTheChain | client/client.go:1287-1293 | a final response reports exactly the hops taken, each URL resolving to the next |
| Redirect.OutcomeNamesTheEnd | client/client.go:1213-1290 | a chain goes on exactly while the answers redirect with 301, 302, 303, 307 or 308, and its outcome names what stopped it |
| Redirect.BodyReachesHop | client/client.go:1343-1348 | the body reaches hop k exactly when all earlier answers were 307 or 308 |
| Redirect.VerbAtHop | client/client.go:1243-1249 | the method stays unless an earlier answer was 303, or 301 or 302 to a POST, and then is GET for good |
| Redirect.AuthFollowsOrigin | client/client.go:1310-1317 | a request carries the caller's auth exactly when every URL up to it has the scheme, host and port of the first |
| Redirect.NoAuthOffOrigin | client/client.go:1295-1317 | from the first URL with another scheme, host or port on, no request carries it, as auth or as an authorization header copied back from an earlier send |
| Redirect.SameOriginKeepsHeaders | client/client.go:1069-1083 | a hop on the origin keeps every header that went out, the applied auth among them |
| Redirect.CookieInMap | client/client.go:1069-1083 | the header map of every later request holds the caller's cookie, else the first the jar gave in the chain |
| Redirect.ForeignCookieIff | client/client.go:1051-1083 | a request goes out with a cookie the jar did not choose for it exactly when the jar has none for its URL and the caller set one or the jar had one earlier; and which it is |
| Redirect.CallersHeaderStays | client/client.go:1295-1308 | under any spelling, a header of the caller's other than auth and Referer reaches every request |
| Redirect.CookieCanLeaveOrigin | client/client.go:1295-1308 | such a hop exists between any two https URLs of different origins |
| BrandList.SplitBrandList | fingerprint/headers.go:326-343 | the trimmed pieces between commas outside quotes |
| BrandList.PiecesCutOutsideQuotes | fingerprint/headers.go:326-343 | the list falls apart at every comma with an even number of quotes before it |
| BrandList.PiecesUncut | fingerprint/headers.go:326-343 | and a text without such a comma is one piece |
| BrandList.ExpandSecChUaVersions | fingerprint/headers.go:312-321 | the entries rewritten in place and rejoined |
| BrandList.SplitOfExpand | fingerprint/headers.go:312-343 | splitting the result gives the rewritten entries: same number, same order, for any quoting |
| BrandList.ExpandIdempotent | fingerprint/headers.go:312-364 | rewriting twice is rewriting once |
| BrandList.ExpandEntryOnlyInserts | fingerprint/headers.go:347-364 | an entry gains at most the suffix, before the quote ending a dotless version |
| BrandList.ExpandsExactly | fingerprint/headers.go:347-364 | an entry whose first version is non-empty, closed and without a dot gains .0.0.0, any other version stays |
| BrandList.UnmarkedStays | fingerprint/headers.go:347-364 | an entry without a version stays |
| DnsCache.Cache.constructor | dns/cache.go:96-103 | empty, sixty seconds to live, ten for negatives, five at least |
| DnsCache.Cache.Store | dns/cache.go:263-276 | stamps the family, sweeps expired entries when full, stores |
| DnsCache.Cache.Cleanup | dns/cache.go:483-493 | drops exactly the expired entries |
| DnsCache.Cache.SetTTL | dns/cache.go:458-465 | floors the time to live |
| DnsCache.Cache.Peek | dns/cache.go:176-185 | the cached answer exactly when fresh and of the current family |
| DnsCache.Cache.FinishLookup | dns/cache.go:212-243 | what a lookup leaves in the cache and answers, for every outcome |
| DnsCache.AnswersAreJustified | dns/cache.go:172-243 | in every run answers are non-empty and come from a fresh entry, from the resolver, or, expired, only after a transient failure |
| DnsCache.FailuresAndTheCache | dns/cache.go:213-237 | transient failures leave the cache unchanged; others leave a negative entry and touch no unexpired entry of another host |
| DnsCache.PermanentFailureIsRemembered | dns/cache.go:278-303 | a name that does not resolve, or another permanent resolver error, is answered and remembered, never covered by an old address |
| DnsCache.PassingFailureIsCovered | dns/cache.go:212-228 | a timeout, a temporary failure, a cancellation and any other error store nothing and are covered by old addresses of the family |
| DnsCache.AskAnswersFromFreshEntry | dns/cache.go:172-185 | an entry answers exactly while fresh and of the current family, with what was stored |
| DnsCache.FlightRunsToItsAnswer | dns/cache.go:187-243 | a lookup starts exactly with a question nothing fresh answers, and ends exactly with its answer |
| DnsCache.EntriesWithoutAStore | dns/cache.go:443-493 | without a store entries go exactly by cleanup, invalidation or clearing |
| DnsCache.ClockAndTtl | dns/cache.go:458-465 | the time to live changes exactly by SetTTL, floored |
| DnsCache.StoreIsBounded | dns/cache.go:263-276 | after a store at most 4096 entries or one more than the unexpired ones |
| DnsCache.TtlAboveFloor | dns/cache.go:458-465 | neither the time to live nor one that a lookup has read and not used yet falls below the floor |
| DnsCache.FoundLivesAboveFloor | dns/cache.go:239-242 | in every run a positive entry lives at least the floor, whatever SetTTL did between reading and storing |
| DnsCache.SortForDialling | dns/cache.go:377-417 | partition and alternation compute the interleaving |
| DnsCache.SortedForDialling | dns/cache.go:365-417 | it is a permutation that keeps each family's order and alternates from the preferred one |
| VarInt.WriteVarInt | proxy/masque.go:708-729 | the buffer holds the encoding |
| VarInt.RoundTripIffRepresentable | proxy/masque.go:678-729 | reading back returns value and length, whatever follows, exactly below 2^62 |
| VarInt.EncodeDecodes | proxy/masque.go:678-729 | what is read back for any 64-bit value |
| VarInt.EncodingIsShortest | proxy/masque.go:708-729 | no byte string decoding to the value is shorter |
| VarInt.StandardForm | proxy/masque.go:678-729 | the first two bits give the length, and samples of section A.1 of RFC 9000 come out as there |
| VarInt.DecodeFailsIffShort | proxy/masque.go:678-706 | nothing is read exactly when the data is shorter than announced |
| VarInt.UnwrapWrap | proxy/masque.go:450-482 | unwrapping undoes wrapping exactly for non-empty datagrams |
| VarInt.UnwrapIff | proxy/masque.go:450-482 | a datagram is delivered exactly with a payload and the context identifier zero |
| Text.SplitIsExact | client/cookiejar.go:220-222 | no piece of a split holds the separator, and joining restores the text |
| Text.SplitOfJoin | fingerprint/akamai.go:75-100 | splitting undoes joining pieces without the separator |
| Text.TrimIsExact | fingerprint/akamai.go:89-99 | trimming takes white space off both ends and nothing else |
| Text.WhiteSpaceCharacters | fingerprint/akamai.go:89-99 | what white space is |

## Left out

- TLS, HTTP/2, QUIC and uTLS calls, certificates, decompression and proxies: foreign libraries; round trips and dials
  are events with arbitrary outcomes.
- pool/quic_pool.go: a near twin of the TCP pool.
- Conn.inFlight is an unbounded integer; 32-bit overflow is not modelled.
- HostPool: the manager of several hosts, proxies and SetMaxConns during a run; the cap is fixed.
- HappyEyeballs: the filter by local address family happens before the model starts.
- EditDistance.Suggest: KnownPresets is a parameter (its sort is the standard library's); case folding and trimming are
  parameters too, and words are sequences of characters.
- Text, BrandList, Akamai: strings are sequences of characters; byte sequences that are not valid UTF-8 are not
  modelled.
- Describe: raw captured hellos, psk_ja3, TLS extension fields outside ja3_extras, based_on, DisableHTTP2 and client
  hints are not part of the round trip; the last two are never written by a description. Hex and JSON text are
  identities, with empty lists dropped.
- PresetBuild: applyTLS, applyHeaders and applyTCP are functions, not in-place updates; the TCP platform shorthand, the
  JA3 parser, raw captured hellos, client hints and switching HTTP/2 off are not modelled.
- CookieJar: ParseSetCookie and its dates; the sort is any sort by path length.
- Redirect: client-level auth, digest challenges, request hooks and the Referer header; URL parsing, joining and the jar's
  answers are parameters, headers added by the preset are assumed to hold no auth, and a Cookie header is
  assumed to be spelled the canonical way where the jar could replace it.
- Retry: the back-off times, and the body cached between attempts.
- DnsCache: the family is fixed during a run, and the single-flight library is assumed to run one lookup per host.
- Preset literals and version factories: data.
