# Verified core of dubbo-go

Dafny models of the parts of Apache dubbo-go (the Go implementation of the Dubbo RPC
framework) whose correctness depends on state, interleaving, recursion or arithmetic,
together with proofs of what they promise. The project is for Dafny 4.11; `dafny verify
dfyconfig.toml` checks all of it.

| file | part of dubbo-go |
|---|---|
| `Exchange.dfy` | requests waiting for responses: the shared ID sequence and the table of pending responses |
| `ServiceKeys.dfy`, `UrlValues.dfy`, `UrlEquals.dfy`, `UrlMerge.dfy`, `Urls.dfy` | service URLs: keys, flattening, comparing, cloning, merging |
| `WireNames.dfy` | names a service method answers to, and the report of clashes |
| `ServiceRegistry.dfy` | the two indexes of exported services |
| `Shutdown.dfy`, `ShutdownProcess.dfy`, `ShutdownTiming.dfy` | graceful shutdown: interleavings, the worker in place, duration |
| `Closing.dfy`, `ClosingRuns.dfy` | closing notices on the consumer side and their acknowledgement counters |
| `HotReload.dfy` | the gate in front of configuration reloads |
| `ExtensionMerge.dfy`, `ExtensionConfigs.dfy` | deep merge of extension configuration: its laws, and cloning and merging in memory |
| `WarmupWeight.dfy` | weight of a provider while it warms up |
| `Versions.dfy`, `Strings.dfy`, `ServiceDefinitions.dfy` | version order, string order, choice of the URL that describes a service |
| `Options.dfy` | `Option` and map lookup |

How the models are built:

- Code that changes state in place is a class or a method with a loop, proved equal to a
  function of the old state; laws are then proved about that function. Loops over Go maps
  take the keys in an arbitrary order, so every result about them holds for all orders.
- Concurrency is a step system: a `State`, an `Action` datatype, `Enabled`, `Do`, and runs
  (`IsRun`, `After`). Each atomic operation of the source is one action. In particular the
  load and the delete inside `RemovePendingResponse` are two actions, and so are the two
  counter additions inside `record`. Theorems quantify over all runs of any length with
  any number of threads.
- Clocks, the network, callbacks, parsers and reflection are parameters or environment
  actions: arbitrary functions, or arbitrary choices at each step.
- Go strings are compared by bytes; for UTF-8 that is the order of code points, which is
  the order used here.

Results that differ from what one might expect of the code, each with its exact condition:

- Two `Response.Handle` calls for one ID can both find the pending entry and close its
  `Done` channel twice. This happens exactly when one of them loads the entry after the
  other has loaded and before it has deleted it (`WokenTwiceIffRaced`). Calls that do not
  overlap never do so (`WokenOnceWithoutOverlap`), and every waiting request without callback
  can be closed twice by calls that overlap (`OverlapCanCloseTwice`).
- Merging the same URL twice differs from merging it once exactly when the first merge
  blanked a remote timestamp that the second one brings back (`MergeTwice`,
  `MergeTwiceDiffers`). Under `remote.timestamp` the code stores
  the base's own timestamp, which is empty at that point, while its comment announces the
  remote one; the model follows the code. `MergedRemoteTimestamp` says what the merge holds
  there in every case, and `MergedUrlIsNotWarmedUp` what follows for the weight.
- The documentation of `MergeURL` lets the other URL's load balance, cluster, retries and
  timeout win without condition; the code does so only if the other URL lists a method
  (`OverridesNeedMethods`).
- Deep merging is associative for exactly the triples of `AssociativeIffRegroupable`.
- The warm-up weight is not monotone across the start time: `WeightGrows` gives the exact
  exception, and `WeightFallsAtStart` shows it for every start time.
- The two indexes of services agree after exactly the runs in which every successful
  `UnRegister` named the interface of registration (`RegistryAgrees`). Any other leaves a
  stale service on an interface's list for good (`StaysOutOfStep`, `MisaddressedRun`).
- The account "conflicts plus reachable methods is all methods" holds for every list of
  names that swapping the case twice gives back (`ConflictsPlusReachable`), so for all names
  starting with an ASCII rune (`BalancedForAsciiNames`). It holds for all lists exactly if
  the swap is its own inverse on every rune (`BalancedIffInvolutive`), which Go's is not:
  title-case digraphs fail (`AccountFailsForDigraphs`).
- Comparing two nil URLs panics: the nil test catches one nil only (`IsEquals`).
- Parsing and printing of service keys are inverse on exactly `Recoverable` parts and
  `Canonical` keys, which are wider than separator-free parts.

## Model

| member | source | states |
|---|---|---|
| `Exchange.Exchange.SequenceID` | remoting/exchange.go:49-51 | Takes the next even ID and changes nothing else. |
| `Exchange.Exchange.NewPendingResponse` | remoting/exchange.go:145-152 | Creates an object for the next ID, holding an empty response with that ID for a client call and without it for a heartbeat; existing objects and the table stay. |
| `Exchange.Exchange.AddPendingResponse` | remoting/exchange.go:170-172 | Files an object under its own ID. |
| `Exchange.Exchange.RemovePendingResponse` | remoting/exchange.go:175-184 | Returns what the table held for the ID, if anything, and leaves the table without it. |
| `Exchange.Exchange.Handle` | remoting/exchange.go:94-109 | Without interference: an unknown ID changes nothing; otherwise the entry is removed, its object alone changes and takes the response, and the caller is woken once, by closing the channel with the response's error or by callback. |
| `Exchange.ExchangeClient.DoInit` | remoting/exchange_client.go:88-103 | A client is connected afterwards exactly if it was before or one of two attempts succeeds. |
| `Exchange.ExchangeClient.RequestContext` | remoting/exchange_client.go:127-212 | Outcome of one call on its own, synchronous or with callback. A call that is cancelled or cannot connect changes nothing shared; one that errs or is answered leaves the table as it was; an answer with its ID reaches its own object and no other. The caller's result gets the error of a call that errs, the result of the answer to a synchronous call if it has one, and the whole response for a call with callback; otherwise it stays. |
| `Exchange.ExchangeClient.SendContext` | remoting/exchange_client.go:220-243 | A one-way send takes an ID and an object but never touches the table. |
| `Exchange.RunsKeepInv` | remoting/exchange.go:94-184 | The invariant of the whole system (IDs, ownership, exact table, hits, overlaps, races, wake-ups, deliveries) holds after every run of calls, heartbeats and handlers. |
| `Exchange.RequestIds` | remoting/exchange.go:49-51 | In every run requests and heartbeats have the even IDs from two to the sequence in the order in which they began, so IDs are pairwise distinct. |
| `Exchange.TableContents` | remoting/exchange_client.go:127-243 | In every run the table keys are exactly the two-way requests and heartbeats added and not yet deleted by a handler, an error path or a timeout; failed calls and one-way sends are not in it. |
| `Exchange.WokenTwiceIffRaced` | remoting/exchange.go:94-109 | In every run an entry is woken more than once only if two handlers raced for its ID between load and delete, and once no handler for the ID is under way, exactly if they did. |
| `Exchange.WokenAtMostOnce` | remoting/exchange.go:94-109 | In every run, a request whose ID was never raced for has its Done channel closed and its callback called at most once in total, and holds the very response of the handler that woke it. |
| `Exchange.RacesOverlap` | remoting/exchange.go:94-109 | In every run only IDs handled twice at once were raced for. |
| `Exchange.WokenOnceWithoutOverlap` | remoting/exchange.go:94-109 | In every run a request whose ID was never handled twice at once is woken at most once. |
| `Exchange.StoredUnderOwnId` | remoting/exchange.go:94-109 | In every run a response is stored only in the entry with its ID; until then the entry of a call has its own ID and that of a heartbeat is empty. |
| `Exchange.WakesAccounted` | remoting/exchange.go:94-109 | Conservation: in every run the closes or callbacks of an entry are exactly the handlers that found it and finished. |
| `Exchange.OverlapCanCloseTwice` | remoting/exchange.go:94-109 | From every reachable state with a waiting request without callback, two overlapping responses can close its channel twice. |
| `Exchange.FailureTakesBack` | remoting/exchange_client.go:150-155 | From every reachable state a call that waits can fail, and then takes its own entry out of the table and changes nothing else. |
| `Exchange.SomeRequestWaits` | remoting/exchange_client.go:127-155 | A reachable state with such a request. |
| `Exchange.HandlerStepsAreHandle` | remoting/exchange.go:94-109 | The four atomic steps of a handler, taken without interference, are the sequential operation. |
| `ServiceKeys.ParsePrinted` | common/url.go:518-561 | Parsing a printed key returns interface, group and effective version if and only if the parts are recoverable. |
| `ServiceKeys.PrintParsed` | common/url.go:518-561 | Printing the parse of a key returns the key if and only if it is canonical. |
| `ServiceKeys.KeysAreUnique` | common/url.go:518-536 | Recoverable parts with one key are the same, up to the default version. |
| `ServiceKeys.KeyText` | common/url.go:518-536 | A key reads group, slash, interface, colon, version, without the parts that are empty or the default version. |
| `ServiceKeys.GroupCut` | common/url.go:539-561 | The group is cut at the first slash and nothing else is lost. |
| `ServiceKeys.VersionCut` | common/url.go:539-561 | The version is cut at the last colon and nothing else is lost. |
| `UrlValues.ParseLocationSplits` | common/url.go:1324-1338 | The host and port found by scanning are the first two fields of splitting at colons, with port 0 if there is one field. |
| `UrlValues.SplitJoins` | common/url.go:1321-1323 | Splitting loses nothing but separators: joining gives the text back. |
| `UrlValues.ServiceKeyOfUrl` | common/url.go:511-516 | The key of a URL comes from its interface, group and version parameters, with the path for a missing interface. |
| `UrlEquals.FlattenedAt` | common/url.go:916-971 | The flattened map holds, at any key, the effective reserved value or the first parameter value. |
| `UrlEquals.FlattenedFields` | common/url.go:916-971 | The flattened map at each of its keys: non-empty fields, host and port out of the location, and else the first value of the parameter. |
| `UrlEquals.ViewByParts` | common/url.go:1243-1273 | Agreement of two flattened maps outside the excluded keys is agreement of IP, port, reserved keys and remaining parameters. |
| `UrlEquals.EqualReservedKeys` | common/url.go:1277-1289 | True exactly if all reserved keys not excluded have the same effective value. |
| `UrlEquals.ContainedOfSameSize` | common/url.go:1295-1319 | The counting argument: a map equals one it contains exactly if the sizes match. |
| `UrlEquals.MatchAgainst` | common/url.go:1295-1319 | The pass over the right side matches exactly if the left side contains it, and then counts it. |
| `UrlEquals.EqualParams` | common/url.go:1295-1319 | Snapshot, pass and count decide equality of the first values of all parameters not skipped, in any iteration order. |
| `UrlEquals.IsEquals` | common/url.go:1210-1221 | For two URLs: true if and only if IP and port match and the flattened maps agree on every key not excluded; one nil is unequal; two nils panic. |
| `UrlEquals.SameViewIsEquivalence` | common/url.go:1210-1221 | For fixed exclusions the comparison is reflexive, symmetric and transitive. |
| `UrlMerge.StepsGiveFormula` | common/url.go:993-1033 | Filling, stamping and overriding in turn give the closed per-key formula: override by the other URL, else the timestamp rule, else a non-empty base value, else the other value. |
| `UrlMerge.MergedValue` | common/url.go:993-1033 | At every key but the timestamps a merge reads as the other URL where the base has nothing, or where the other has a value and one of its methods decides about the key; else as the base. |
| `UrlMerge.MergedList` | common/url.go:993-1033 | The list it holds there: one value for an override, otherwise one of the two lists as it is. |
| `UrlMerge.OverriddenIff` | common/url.go:1017-1033 | A key is overridden exactly if the other URL has a value and the key is loadbalance, cluster, retries or timeout, or one of these for a listed method. |
| `UrlMerge.MergedRest` | common/url.go:985-1045 | A merge touches nothing but parameters, methods and attributes; the methods are the other URL's, and the base's attributes win. |
| `UrlMerge.MergedTimestamp` | common/url.go:1011-1014 | The merged timestamp is the base one if non-empty, else the other one. |
| `UrlMerge.MergedRemoteTimestamp` | common/url.go:1011-1014 | The merged remote timestamp is empty if the base has no timestamp, else the base one if non-empty, else the other one. |
| `UrlMerge.OverrideAllAt` | common/url.go:1017-1033 | After the override loops a key holds the other value exactly if the other URL has one and lists a method the key applies to. |
| `UrlMerge.OverridesNeedMethods` | common/url.go:977-1033 | Where the base has a value, each of the four keys takes the other URL's value exactly if that is non-empty and the other URL lists a method. |
| `UrlMerge.FillStep` | common/url.go:1001-1009 | One step of the fill loop keeps its invariant, whichever key comes next. |
| `UrlMerge.TimestampsAreNotOverridden` | common/url.go:1017-1033 | No override reaches the timestamp keys, whatever the methods are called. |
| `UrlMerge.SecondMergeAt` | common/url.go:993-1033 | A second merge of the same URL changes no key but the remote timestamp. |
| `UrlMerge.MergeTwice` | common/url.go:985-1045 | Merging twice equals merging once if and only if no blanked remote timestamp comes back; the methods are those of the other URL. |
| `UrlMerge.MergeTwiceDiffers` | common/url.go:1011-1014 | A family of URLs for which merging twice differs from merging once. |
| `Urls.CopyValues` | common/url.go:758-771 | A copy of all parameter lists with equal content and new storage. |
| `Urls.CopyFilteredParams` | common/url.go:1087-1119 | Copies exactly the parameters the filter lets through into new storage, with and without the shortcut. |
| `Urls.FillParams` | common/url.go:1001-1009 | The fill loop computes the filled parameters for any iteration order; lists are kept or new. |
| `Urls.OverrideAllParams` | common/url.go:1017-1033 | The override loops compute the overridden parameters; lists are kept or new. |
| `Urls.MergeParams` | common/url.go:993-1033 | All parameter steps of a merge compute the closed formula. |
| `Urls.MergeAttributes` | common/url.go:1035-1041 | Attributes of the base stay, those only the other URL has are added. |
| `Urls.Url.CopyOf` | common/url.go:1070-1085 | A new URL object with the fields of the old one and the given lists. |
| `Urls.Url.CloneWithFilter` | common/url.go:1050-1068 | The clone holds the same values, SubURL whole, and exactly the parameters that are not excluded and, if any are reserved, reserved; it owns nothing that existed before. |
| `Urls.Url.Clone` | common/url.go:1142-1144 | An equal URL that shares nothing with the original, SubURLs included. |
| `Urls.Url.MergeURL` | common/url.go:985-1045 | The result is the merged value of the two URLs, which reads at every key but the timestamps as the other URL or the base by the rule above; neither input changes and the result shares no object with them. |
| `Urls.Url.MergeInto` | common/url.go:993-1044 | The part of a merge that works on the clone: only the clone changes and takes the merged value. |
| `WireNames.SwapCaseFirstRune` | common/dubboutil/case_invert.go:26-39 | The first rune becomes lower case if it is upper case and upper case otherwise; the rest and the empty string stay. |
| `WireNames.AsciiSwap` | common/dubboutil/case_invert.go:26-39 | In ASCII the swap exchanges capitals and small letters and leaves all else. |
| `WireNames.SwapTwice` | common/dubboutil/case_invert.go:26-39 | A string is given back by two swaps exactly if its first rune is. |
| `WireNames.AsciiNamesSwapBack` | common/dubboutil/case_invert.go:26-39 | With any casing that treats ASCII as ASCII, two swaps give back every name that starts with an ASCII rune. |
| `WireNames.MethodNameConflicts` | common/rpc_service.go:511-540 | The two nested loops compute the scan that the lemmas are about. |
| `WireNames.SuitableMethods` | common/rpc_service.go:553-580 | The table loop computes the lookup table and lists each name and alias in order. |
| `WireNames.TableAt` | common/rpc_service.go:568-579 | A call under any name lands on the latest method routable under it. |
| `WireNames.LatestIsReached` | common/rpc_service.go:568-579 | The method that takes a name last is the one a call under that name reaches. |
| `WireNames.WireNamesListed` | common/rpc_service.go:468-474 | The wire names are the canonical name, first, and its swapped form if different. |
| `WireNames.OwnerAt` | common/rpc_service.go:511-540 | The owner the scan keeps for a name is the earliest method routable under it. |
| `WireNames.FirstIs` | common/rpc_service.go:511-540 | The earliest method is one before which none has the name. |
| `WireNames.SilentIffDisjoint` | common/rpc_service.go:511-540 | No conflict is reported if and only if no two methods share a wire name. |
| `WireNames.SilentIffAllReachable` | common/rpc_service.go:511-579 | No conflict is reported if and only if every method is reachable under all its wire names. |
| `WireNames.NoPairTwice` | common/rpc_service.go:511-540 | No pair of methods is reported twice, in either order; each report names the earlier method first, and a wire name of the later one that the earlier was the first to have. |
| `WireNames.ContestsAreReported` | common/rpc_service.go:511-540 | Every pair of methods of which the later has a name that the earlier was the first to have is reported. |
| `WireNames.ConflictStep` | common/rpc_service.go:511-540 | Where names swap back, a method adds exactly one conflict if its names are taken and none if they are free. |
| `WireNames.ReachStep` | common/rpc_service.go:568-579 | Where names swap back, a method takes over its names wholly, so the number of reachable methods grows exactly if they were free. |
| `WireNames.ConflictsPlusReachable` | common/rpc_service.go:511-579 | For every list of names that swap back, whatever the casing does elsewhere, conflicts plus distinct reachable methods equals the number of methods. |
| `WireNames.BalancedForAsciiNames` | common/rpc_service.go:511-579 | So for all names that start with an ASCII rune. |
| `WireNames.BalancedIffInvolutive` | common/rpc_service.go:511-579 | A casing balances the account for all lists of methods if and only if its swap is its own inverse. |
| `WireNames.ContestedIsUnbalanced` | common/rpc_service.go:511-579 | Every rune that does not swap back gives two methods that conflict and yet are both reachable. |
| `WireNames.AccountFailsForDigraphs` | common/rpc_service.go:511-579 | The instance of that for title-case digraphs. |
| `ServiceRegistry.ServiceMap.GetServiceByServiceKey` | common/rpc_service.go:188-198 | Looks a service up by protocol and key. |
| `ServiceRegistry.ServiceMap.Register` | common/rpc_service.go:211-256 | New state and outcome of every branch, including the entries made before a failure. |
| `ServiceRegistry.ServiceMap.UnRegister` | common/rpc_service.go:259-313 | New state and outcome of every branch; after a removal the protocol is there exactly if it had more than one service. |
| `ServiceRegistry.DropService` | common/rpc_service.go:285-302 | The list without the last occurrence of the service, all else in order. |
| `ServiceRegistry.RunFiles` | common/rpc_service.go:211-313 | Over every run the protocol index holds exactly the services registered and not since removed, and the interface index those and the ones removed under another interface. |
| `ServiceRegistry.RegistryAgrees` | common/rpc_service.go:188-313 | Over every run lookup succeeds exactly for what is registered and not removed; the two indexes hold the same services, each in one place of each, if and only if every removal that took effect named the interface of registration. |
| `ServiceRegistry.RunRemovals` | common/rpc_service.go:259-313 | After every run a removal succeeds exactly if its key is registered and its interface known. |
| `ServiceRegistry.RunRemovalOutcomes` | common/rpc_service.go:259-287 | After every run, which removals report an empty argument, an unregistered key and an unknown interface. |
| `ServiceRegistry.RunRegistrations` | common/rpc_service.go:211-247 | After every run a registration succeeds exactly for an exported handler with a type name and methods and a key not yet registered, and reports the first of these that is missing. |
| `ServiceRegistry.LookupsAfterRegister` | common/rpc_service.go:248-256 | A successful registration adds its service to both lookups and changes no other. |
| `ServiceRegistry.LookupsAfterUnRegister` | common/rpc_service.go:259-313 | After a successful removal the key is not found, the named list has the service once less, and no other lookup changes. |
| `ServiceRegistry.FoundByName` | common/rpc_service.go:188-256 | In every run a lookup finds a service named by its key that some call registered for that protocol and key. |
| `ServiceRegistry.KnownIff` | common/rpc_service.go:211-217 | An interface is known exactly if some registration, successful or not, has named it. |
| `ServiceRegistry.StaysOutOfStep` | common/rpc_service.go:211-313 | Indexes that disagree disagree after any further call. |
| `ServiceRegistry.MisaddressedRun` | common/rpc_service.go:211-313 | A family of runs that gets there: two interfaces registered, the first one's key removed under the second. |
| `ServiceRegistry.FailureChangesNoLookup` | common/rpc_service.go:211-313 | A failed call changes no lookup of either index, in any state. |
| `ServiceRegistry.RemovalAgreesIffAddressedRight` | common/rpc_service.go:259-313 | In one step from agreeing indexes, a successful removal keeps them in agreement if and only if it names the interface of registration. |
| `ServiceRegistry.StaleIsOnlyListed` | common/rpc_service.go:259-313 | A service removed under another interface stays on its interface list and is gone from the protocol index. |
| `Shutdown.RunsKeepInv` | graceful_shutdown/shutdown.go:166-244 | The invariants on order, flags, result and channel hold after every run. |
| `Shutdown.EventsInOrder` | graceful_shutdown/shutdown.go:199-225 | In every run the events begin at most once, in order, each after the earlier ones completed; services are unregistered only when marked closing and not ready, protocols destroyed only when new requests are rejected. |
| `Shutdown.StepsFollow` | graceful_shutdown/shutdown.go:199-225 | In every run each of the steps mark closing, unregister, notify, wait, reject, drain, destroy, call back begins only when the one before it has completed, and a nil result means that all have. |
| `Shutdown.OneResult` | graceful_shutdown/shutdown.go:166-244 | In every run shutdownDone is closed at most once, exactly when the worker has ended; all callers returning through it get one result, nil exactly if nothing panicked, and then every event completed. |
| `Shutdown.WorkerEnds` | graceful_shutdown/shutdown.go:227-244 | In every run a started worker can always move until it has closed the channel, and every move brings it closer whatever the callers do. |
| `ShutdownProcess.Process.Perform` | graceful_shutdown/shutdown.go:199-225 | One event in place is the corresponding action of the step system. |
| `ShutdownProcess.Process.RejectAndDrain` | graceful_shutdown/shutdown.go:369-373 | New requests are rejected before the wait; progress continues or stops at the first panic. |
| `ShutdownProcess.Process.BeforeShutdown` | graceful_shutdown/shutdown.go:199-225 | The program in place begins the events in order up to and including the first that panics. |
| `ShutdownProcess.Process.StartShutdownOnce` | graceful_shutdown/shutdown.go:227-244 | The first call runs the program, closes the channel and stores nil exactly if no event panics; later calls change nothing. |
| `ShutdownProcess.Process.Shutdown` | graceful_shutdown/shutdown.go:166-179 | Every call reports the one stored result; only the first runs anything. |
| `ShutdownTiming.PollUntil` | graceful_shutdown/shutdown.go:354-366 | The polling loop ends at the first polling instant with nothing to wait for or no time left, less than one interval past the deadline. |
| `ShutdownTiming.PollEndsOnce` | graceful_shutdown/shutdown.go:354-366 | There is only one such instant. |
| `ShutdownTiming.AcceptAndWait` | graceful_shutdown/shutdown.go:339-366 | After the pause, the first polling instant at which the step timeout has passed, or no request is active and the last one is a window ago; at once for a negative timeout. |
| `ShutdownTiming.DrainRequests` | graceful_shutdown/shutdown.go:369-388 | The first polling instant at which the step timeout has passed or no request is active; at once for a timeout that is not positive. |
| `ShutdownTiming.InvokeCallback` | graceful_shutdown/shutdown.go:319-337 | A callback that returns before the context ends gives its own end and result; any other the context's end and a failure. |
| `ShutdownTiming.NotifyWithRetry` | graceful_shutdown/shutdown.go:285-317 | If one of four attempts is the first to succeed and does so in time, the notification ends with it; if all four fail in time, with the last; else at the deadline. |
| `ShutdownTiming.Retry` | graceful_shutdown/shutdown.go:285-317 | The same for any number of retries. |
| `ShutdownTiming.ConcludesOnce` | graceful_shutdown/shutdown.go:285-317 | That fixes the end and the result of a notification. |
| `ShutdownTiming.NotifyConsumers` | graceful_shutdown/shutdown.go:266-282 | Every callback is notified as above, all from the same start, and the step ends with the last of them, within the timeout. |
| `ShutdownTiming.RunCallbacks` | graceful_shutdown/shutdown.go:415-441 | The custom callbacks take the sum of their durations, each cut off at the total timeout. |
| `ShutdownTiming.SpentAdds` | graceful_shutdown/shutdown.go:415-422 | The times of two lists of callbacks, one after the other, add up. |
| `ShutdownTiming.SpentOnOne` | graceful_shutdown/shutdown.go:424-441 | One callback takes its own time or the limit, whichever is less. |
| `ShutdownTiming.TotalTimeout` | graceful_shutdown/shutdown.go:193-197 | The configured timeout, but at least a minute. |
| `ShutdownTiming.BeforeShutdown` | graceful_shutdown/shutdown.go:199-225 | Each step starts when the one before it ends and ends as stated for it. Time outside unregistering and destroying is at least the update wait and at most notify + wait + 2 (step + 10 ms) + n times the total timeout, each part not below zero. |
| `ShutdownTiming.DefaultBudget` | graceful_shutdown/shutdown.go:199-225 | With nothing configured that is 14.02 s and a minute for each callback. |
| `Closing.ClosingRegistry.Register` | graceful_shutdown/closing_registry.go:75-88 | New registry; an empty service or a remover without pointer changes nothing. |
| `Closing.ClosingRegistry.Unregister` | graceful_shutdown/closing_registry.go:90-107 | New registry; a service left without removers is dropped. |
| `Closing.ClosingRegistry.Find` | graceful_shutdown/closing_registry.go:109-127 | Lists the removers of a service, each once, in any order. |
| `Closing.FiledAfterRegister` | graceful_shutdown/closing_registry.go:75-88 | Registering adds the remover to its service and touches no other. |
| `Closing.FiledAfterUnregister` | graceful_shutdown/closing_registry.go:90-107 | Unregistering takes the remover from its service and touches no other. |
| `Closing.AckTracker.Record` | graceful_shutdown/closing_ack.go:51-72 | One undisturbed record: nothing for an inactive source, else one reception and one outcome on its counter, and no other counter changes. |
| `Closing.IsActiveIff` | graceful_shutdown/closing_ack.go:47-49 | A source is active exactly if its name ends in -health-watch. |
| `Closing.HandleClosingEvent` | graceful_shutdown/closing_registry.go:129-153 | An incomplete event, or no registry, calls nothing and counts as missed; otherwise every remover of the service is called once and the result says whether any removed. |
| `ClosingRuns.RunsKeepInv` | graceful_shutdown/closing_registry.go:75-153 | Registry, handlers and counters keep their invariants in every run. |
| `ClosingRuns.FindListsLive` | graceful_shutdown/closing_registry.go:109-127 | In every run Find lists exactly the removers registered and not since unregistered, each once. |
| `ClosingRuns.HandlerCallsAll` | graceful_shutdown/closing_registry.go:129-153 | In every run a finished handler has called, once each, exactly the removers that were live when it took its snapshot, none for an incomplete event, and reports true exactly if one call removed. |
| `ClosingRuns.RegisteredIsCalled` | graceful_shutdown/closing_registry.go:75-153 | In every run a remover registered before a handler's snapshot of its service and not unregistered in between is called by it, once. |
| `ClosingRuns.AcknowledgementsBalance` | graceful_shutdown/closing_ack.go:51-72 | In every run and for each active source, removed and missed are the handlers finished either way and received is their sum plus the handlers between their two counts, also when several handlers create the counter at once. |
| `ClosingRuns.InactiveIsNotCounted` | graceful_shutdown/closing_ack.go:51-55 | In every run no inactive source has a counter. |
| `HotReload.IsAllowedKey` | loader.go:533-540 | True exactly if some pattern matches. |
| `HotReload.MatchesIff` | loader.go:517-531 | The three kinds of pattern: the text occurs in the key, starts it, or is the key. |
| `HotReload.SafeChanged` | loader.go:542-569 | True exactly if both configurations agree on every key no pattern releases, absence included. |
| `HotReload.ConfigLoader.Allow` | loader.go:517-531 | Adds a pattern to those already allowed. |
| `HotReload.ConfigLoader.HotUpdateConfig` | loader.go:165-211 | A file is accepted exactly if it passes the gate; it becomes the running options exactly if it also builds; anything else changes nothing. |
| `HotReload.AttemptEffects` | loader.go:165-211 | The same of one attempt in any state, with the gate spelled out: both parse, the extensions agree, and so does every key that no pattern matches. |
| `HotReload.DenialsSayWhy` | loader.go:165-184 | Which attempts end in a failed read, a panic in parsing and a denial because of extensions. |
| `HotReload.LastPassedIsInForce` | loader.go:165-211 | After any run the accepted bytes are those of the last file that passed the gate, and the running options those of the last that also built. |
| `HotReload.PatternsInForce` | loader.go:517-531 | The patterns in force are the one for logger keys and those released since, in every run. |
| `HotReload.LockedKeysStay` | loader.go:165-211 | After any sequence of reloads and releases, the accepted bytes and the bytes behind the running options agree with the first configuration on its extensions and on every key no current pattern releases. |
| `HotReload.ChangedKeysAreReleased` | loader.go:165-211 | A key that differs from the first configuration is released by some current pattern. |
| `HotReload.OptionsFollowAccepted` | loader.go:165-211 | While builds succeed, the running options are those of the accepted bytes. |
| `ExtensionConfigs.CloneConfigs` | options.go:300-309 | An equal map that shares no `map[string]any` and no `[]any` with the original at any depth, nil staying nil; references of other types are handed on at the same address. |
| `ExtensionConfigs.CloneValue` | options.go:331-344 | The same for any value; a scalar or a reference of another type is the same value afterwards. |
| `ExtensionConfigs.MergeConfigs` | options.go:311-329 | The recursive loop computes the merge for any iteration order; the result shares no `map[string]any` and no `[]any` with either input, and neither changes; references of other types are handed on at the same address. |
| `ExtensionMerge.PathLaw` | options.go:311-329 | What the merge holds at every key path: the overlay decides at or below its non-maps, the base where the overlay lacks a key, and two maps merge. |
| `ExtensionMerge.MergeIdempotent` | options.go:311-329 | Applying an overlay twice is applying it once. |
| `ExtensionMerge.AbsorbsIffCovers` | options.go:311-329 | The merge is the overlay itself if and only if the overlay covers the base. |
| `ExtensionMerge.AssociativeIffRegroupable` | options.go:311-329 | Three layers may be merged in either grouping if and only if they are regroupable. |
| `ExtensionMerge.AssociativeWithoutSandwich` | options.go:311-329 | In particular whenever no path holds map, non-map, map. |
| `ExtensionMerge.GroupingMatters` | options.go:311-329 | A family of triples for which the grouping matters. |
| `WarmupWeight.GetWeightAt` | cluster/loadbalance/util.go:38-74 | The branches that overwrite one variable, with an exact quotient, compute the weight function. |
| `WarmupWeight.WeightBounds` | cluster/loadbalance/util.go:38-74 | The weight is zero exactly if configured zero, else between one and the configured weight. |
| `WarmupWeight.WeightIsShare` | cluster/loadbalance/util.go:56-67 | During warm-up the weight is the configured weight times uptime over warm-up, rounded down, or one where that is less than one. |
| `WarmupWeight.ConfiguredFrom` | cluster/loadbalance/util.go:41-52 | The configured weight is the method's, else the service's, else for a labelled registry the registry's, else 100, a negative one counting as none. |
| `WarmupWeight.DefaultWarmup` | cluster/loadbalance/util.go:38-74 | With only the start time set the weight is a sixth of the uptime in seconds, at least 1, for ten minutes, and then 100. |
| `WarmupWeight.FullAfterWarmup` | cluster/loadbalance/util.go:57-67 | The full weight once uptime reaches warm-up, and while uptime is not positive. |
| `WarmupWeight.WeightGrows` | cluster/loadbalance/util.go:57-67 | With a fixed start time the weight does not fall between two moments, except exactly when the clock passes the start time into the warm-up with a weight of two or more. |
| `WarmupWeight.WeightFallsAtStart` | cluster/loadbalance/util.go:57-67 | For every start time, and nothing else configured, the weight is 100 at the start and 1 a second later. |
| `WarmupWeight.WeightGrowsWhileUp` | cluster/loadbalance/util.go:57-67 | For positive uptimes it never falls. |
| `WarmupWeight.ShareBounds` | cluster/loadbalance/util.go:60-66 | The share during warm-up is between one and the weight, and below it for weights of two or more. |
| `WarmupWeight.ParseFormatted` | common/url.go:826-832 | A 64-bit integer written in decimal reads back as itself. |
| `WarmupWeight.ParseIntIff` | common/url.go:826-832 | What parses: digits with an optional sign, within 64 bits. |
| `WarmupWeight.NeverWarmedUpIff` | cluster/loadbalance/util.go:38-74 | A URL has its configured weight at all times if and only if it names no start time that parses, or its weight is at most one, or its warm-up is at most a second. |
| `WarmupWeight.MergedUrlIsNotWarmedUp` | common/url.go:1011-1014 | A URL merged from a base without timestamp has its configured weight at all times. |
| `ServiceDefinitions.SelectionIsBest` | metadata/service_definition.go:160-184 | The selection holds, for each service seen, the first of its describable URLs with the least protocol. |
| `ServiceDefinitions.DedupeByService` | metadata/service_definition.go:160-184 | The result is one best URL per describable service, in strictly increasing order of keys, and no service is missing. |
| `ServiceDefinitions.OnlyDescribable` | metadata/service_definition.go:202-214 | Every listed URL is among the given ones and is a Dubbo URL or a Triple URL without a service description; every service with such a URL is listed. |
| `ServiceDefinitions.OrderDoesNotMatter` | metadata/service_definition.go:160-184 | Any permutation of the URLs gives the same sequence of keys and protocols. |
| `ServiceDefinitions.DubboComesFirst` | metadata/service_definition.go:160-214 | A service exported over Dubbo is described by a Dubbo URL. |
| `Strings.SortKeys` | metadata/service_definition.go:173-178 | The keys in strictly increasing order, with the same elements. |
| `Strings.LessIff` | metadata/service_definition.go:167-178 | The order of strings: the first difference decides, and a proper prefix comes first. |
| `Strings.IncreasingIsUnique` | metadata/service_definition.go:173-178 | An increasing list is determined by its elements. |
| `Versions.CompareVersions` | cluster/utils/version.go:73-97 | The loop computes the comparison. |
| `Versions.CompareMeaning` | cluster/utils/version.go:63-97 | Less, Greater and Equal are exactly the reference order, its converse and identity. |
| `Versions.Trichotomy` | cluster/utils/version.go:63-97 | Less, Equal or Greater holds for every pair; swapping the sides negates the result, so Less and Greater change places. |
| `Versions.CompareTransitive` | cluster/utils/version.go:73-97 | Not being greater is transitive, strictly if either step is strict. |

## Left out

- Network transports, disk, YAML and JSON parsing, flattening, file watching, TLS, signals, metrics and logging: parameters or environment here.
- Reflection (method discovery, proxies): replaced by the list of canonical methods and by what `Register` learns about a handler.
- URL parsing, escaping and construction: the models start from parsed URLs.
- Setters, option functions and the field-by-field clones of configuration structs: they would only add easy members.
- Server actions and protocol exporting, `MergeValue`, glob matching, `ParseVersion`: not part of this model.
- 64-bit overflow and float64 rounding: integers are unbounded, and the warm-up quotient is exact.
- The count of services using an exchange client: a 32-bit counter with no further behaviour in these files.
- Data races of Go itself: the unlocked reads in `Register` of the service registry, the unlocked connection flag of the exchange client, and URLs read while being written.
- What a heartbeat does with its outcome (closing a session after repeated timeouts): not part of this model; its entry in the table is.
- The retry library behind notifications: its delays are arbitrary, and a delay past the deadline ends at the deadline. A callback that returns at the very instant of its deadline counts as cut off.
- Snapshots and resets of the acknowledgement counters: the balance is stated on the counters themselves.
- Extension values behind references other than `map[string]any` and `[]any`: known by their address only, as cloning and merging hand them on without looking at them.
- UrlEquals.IsEquals: requires every parameter list to have a value, because iterating over an empty list panics in the source.
- HotReload.LockedKeysStay: the active profile file is fixed for the whole run, because parsing is one function of the main file's bytes.
