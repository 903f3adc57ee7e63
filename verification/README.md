# Verification of the Intel VPL dispatcher core

The dispatcher (`libvpl`) lets an application load any number of video runtimes through one loader
object. The application describes what it needs with filter properties on configuration objects,
enumerates the implementations that qualify, and creates sessions with one of them by index. This
project models the decisions behind that and proves them correct: how a property name selects a slot,
how a capability tree is flattened and matched against a list of configurations, in which order the
implementations are numbered, and how the loader keeps its cached list, its libraries and the
runtimes' handles consistent over any sequence of calls.

The model is of the build without `ONEVPL_EXPERIMENTAL`, on Windows and on Linux (a flag where the code
differs). `dafny verify dfyconfig.toml` checks everything.

## How it is put together

| module | what it holds |
|---|---|
| `VplTypes` | status codes, widths, capability structures |
| `Tokens`, `DeviceId` | tokenising at a delimiter; `stoi` and the x86 device id parser |
| `PropNames`, `Config` | the 58 property slots, the dotted names, and the class `ConfigCtxVPL` with its backing fields |
| `CapsTree` | the flattening loop over four counters, against nested concatenation |
| `Special` | the session properties, and the two functions that collect them from all configurations |
| `Filters`, `FilterLaws` | the matching methods, proved against a declarative verdict `Accepts`; laws of the verdict |
| `FilterMeaning` | what each documented property asks for, from the name the application writes to the field it is compared with |
| `StableSort`, `ImplOrder` | stable sorting by rank; the priority order and the numbering |
| `LoaderState` | every loader operation as a function on a value `State`; `Step` is one call of the application |
| `Loader` | the classes `LoaderCtxVPL`, `LibInfo`, `ImplInfo`: in-place loops, each proved to do to the objects what `LoaderState` does to their values |
| `PostPass` | the pass over the list after a query, for entries whose description may be missing: when it ends, and with what |
| `HandleTrace`, `LibChoice`, `LoaderInvariant` | what one operation keeps |
| `Runs`, `LegacyHandles`, `SessionProps` | theorems about whole runs, by induction over the calls |
| `LibUse`, `Origins` | which files are used and as what, and which of their answers become entries, in terms of how each file answers |
| `QueryRuns`, `OrderRuns` | for every run: the entries, which are valid after a query, what is delivered for each, and in which order they are numbered |
| `Accounts` | exact accounts of modules loaded and closed, and of handles handed over and given back, over whole runs |
| `FindingRuns`, `LegacyRun` | concrete runs in which the exceptions listed under Findings happen, and one that enumerates a legacy implementation |

The outside world (files, runtimes, adapters) is an argument of every query, with arbitrary content, and
may differ from call to call. What passes between it and the loader is recorded in `State.trace`: modules
loaded and closed, handles a runtime hands over, handles stored in an implementation and given back,
library objects destroyed.

Many members are proved against functions on values (`Step`, `Probe`, `Passes` and so on). What these
functions mean is stated without them: by name and field in `FilterMeaning`, by what files and runtimes
answer in `LibUse`, `Origins`, `QueryRuns` and `OrderRuns`.

Where a value is said to be written last, last means in the order of the configurations, not in time:
of two configurations that set a property the one created later counts.

A run starts with a new loader and makes any calls with any arguments, except that no session is
created while low latency mode is on. Low latency mode itself may be entered and left at will.

## Findings

Each of these is a property one would expect. It does not hold of the code without a condition, and the
condition is proved to be the exact one.

* Indices. An index above 2^31 - 1 is read as negative, so 0xFFFFFFFF selects the first implementation
  that has been ruled out. `Runs.FoundExactly` says for all 2^32 indices what is found;
  `FindingRuns.RuledOutDelivered` is a run in which enumeration delivers an implementation that the only
  configuration rules out.
* Appending a configuration. It turns a rejection into an acceptance exactly if it lowers the API version
  asked for to or below the implementation's, from above it, and nothing else stands in the way
  (`FilterLaws.AppendAcceptsExactly`; a concrete case is `AppendCanAccept`). A caller who does not lower
  the version only ever restricts (`AppendOnlyRestricts`).
* The primary node number. Its filter tests the render node number for the value that marks a primary node
  as invalid (the field is documented at api/vpl/mfxcommon.h:663-665). The verdict departs from the
  documented one exactly if the device's own primary node number is asked for, all else asked of the
  device is met, and exactly one of the two node numbers has that value
  (`FilterLaws.PrimaryNodeExactly`; `PrimaryNodeDeparts` has a device for either direction).
* Extension buffers. A failed property call with a null pointer can take a buffer away from a
  configuration, but sessions keep being passed it until the special properties are collected again:
  exactly then (`SessionProps.BuffersCurrentExactly`). `FindingRuns.StaleBufferPassed` is such a run.
* The device handle. It is taken away in the same manner, but a later collection does not help unless it
  finds another handle (`SessionProps.HandleCurrentExactly`). In `FindingRuns.StaleHandlePassed` a session
  is given a handle that no configuration holds, although another property was set in between.
* Handles handed over. What a runtime hands over is given back iff it hands over its descriptions all or
  not at all, and nothing beyond their number in the other two arrays (`Accounts.AllGivenBackExactly`);
  otherwise `Accounts.FinalAccounts` counts what is lost. `FindingRuns.DescriptionLost` loses one.
* Modules. A module is closed as often as it was loaded iff no full query finds its library still listed,
  with the module loaded, from an earlier query that failed (`Accounts.AllClosedExactly`);
  `FindingRuns.ModuleLoadedTwice` loads one twice and closes it once.
* The pass after a query. It does not move past a legacy entry without description whose runtime does not
  answer. It ends iff all of them are answered in the end (`PostPass.EndsExactly`); only low latency
  sessions make such entries, so it always ends here (`PostPass.DescribedPassEnds`).
* String filters. One with a trailing comma does not round-trip through the tokeniser
  (`Tokens.SplitJoinRoundTrip` says exactly which strings do).

## Model

| member | source | states |
|---|---|---|
| Tokens.Tokenize | libvpl/src/mfx_dispatcher_vpl_config.cpp:638-644 | the reading loop yields the split of the string: text between delimiters, a trailing delimiter silent |
| Tokens.SplitJoinRoundTrip | libvpl/src/mfx_dispatcher_vpl_config.cpp:1368-1387 | joining the tokens restores a string iff no delimiter ends it; splitting a join restores a list of tokens iff its last token is not empty |
| Tokens.SplitPrefix | libvpl/src/mfx_dispatcher_vpl_config.cpp:638-644 | further dotted text leaves the tokens already there in place |
| DeviceId.ParseAcceptsExactly | libvpl/src/mfx_dispatcher_vpl_config.cpp:1755-1803 | accepted are exactly a hex numeral below 2^31, and one followed by a slash and a decimal numeral below 2^31 |
| DeviceId.ParseMeaning | libvpl/src/mfx_dispatcher_vpl_config.cpp:1755-1803 | the adapter number found is the value of the decimal numeral, or unknown if there is none |
| DeviceId.ParseInvertsPrint | libvpl/src/mfx_dispatcher_vpl_config.cpp:1755-1803 | parsing inverts printing as "hex" and as "hex/dec", for all values below 2^31 |
| DeviceId.ParseIgnoresSpelling | libvpl/src/mfx_dispatcher_vpl_config.cpp:1755-1803 | letter case and leading zeros of the hex part do not matter |
| DeviceId.StoiBlank | libvpl/src/mfx_dispatcher_vpl_config.cpp:1083-1097 | a blank in front of a number is ignored |
| DeviceId.StoiSigned | libvpl/src/mfx_dispatcher_vpl_config.cpp:1083-1097 | a plus sign in front of a number is ignored and a minus sign negates it; out of the 32-bit range it is refused |
| DeviceId.StoiPrefixed | libvpl/src/mfx_dispatcher_vpl_config.cpp:1083-1097 | a hexadecimal number may be written with 0x in front |
| PropNames.ResolveReaches | libvpl/src/mfx_dispatcher_vpl_config.cpp:419-828 | a slot is settable iff some dotted name reaches it; its documented name, split at the dots, does |
| PropNames.NamePrefixStable | libvpl/src/mfx_dispatcher_vpl_config.cpp:631-828 | a complete name followed by any further dotted components reaches the same slot |
| Config.SetFrame | libvpl/src/mfx_dispatcher_vpl_config.cpp:296-417 | one call changes at most one slot; a failing call leaves it alone or, on a null pointer, unsets it and keeps the data |
| Config.SetWrites | libvpl/src/mfx_dispatcher_vpl_config.cpp:296-417 | the status of a call, for any name and value; after a success the slot selected holds the number given, the range at the pointer with its minimum, maximum and step, the text, the eight bytes, the buffer unless it is empty, or the address |
| Config.SetsReachOnlySettable | libvpl/src/mfx_dispatcher_vpl_config.cpp:147-417 | over any sequence of calls with any names and values, every slot is unset or has its table type, and unreachable slots are never set |
| Config.SetIgnoresSuffix | libvpl/src/mfx_dispatcher_vpl_config.cpp:631-828 | setting through a complete name with further components does what setting through the name does |
| Config.ConfigCtxVPL.ValidateAndSetProp | libvpl/src/mfx_dispatcher_vpl_config.cpp:296-417 | the copies made in the object's own fields show through the slots as `AfterStore` says, with its status; what is then read back is `Config.SetWrites` |
| Config.ConfigCtxVPL.SetFilterProperty | libvpl/src/mfx_dispatcher_vpl_config.cpp:631-828 | status and resulting slots for any name, null or not, and any value |
| Config.ConfigCtxVPL.SaveExtBuf | libvpl/src/mfx_dispatcher_vpl.h:379-402 | a non-empty buffer replaces the copy held, an empty one leaves it |
| CapsTree.Flatten | libvpl/src/mfx_dispatcher_vpl_config.cpp:830-963 | the loop over four counters ends, stays in bounds and yields the nested in-order concatenation of all leaves, also where a level is empty; error status iff there is none |
| CapsTree.LeavesArePaths | libvpl/src/mfx_dispatcher_vpl_config.cpp:830-963 | the flat list holds exactly the root-to-leaf paths |
| Filters.CheckPropString | libvpl/src/mfx_dispatcher_vpl_config.cpp:1368-1387 | a string filter is met iff its set of tokens is included in the implementation's |
| Filters.TokenOrderIrrelevant | libvpl/src/mfx_dispatcher_vpl_config.cpp:1368-1387 | two lists of the same tokens are interchangeable on either side, in any order and with repetitions |
| Filters.CheckPropsGeneral | libvpl/src/mfx_dispatcher_vpl_config.cpp:1008-1122 | success iff every general property set is met by the description; which field each is about is `FilterMeaning.GeneralNumbers` and those after it |
| Filters.CheckPropsDec | libvpl/src/mfx_dispatcher_vpl_config.cpp:1124-1167 | success iff some flat entry meets every decoder property and contains the ranges asked for |
| Filters.CheckPropsEnc | libvpl/src/mfx_dispatcher_vpl_config.cpp:1169-1213 | the same for the encoder properties |
| Filters.CheckPropsVPP | libvpl/src/mfx_dispatcher_vpl_config.cpp:1215-1258 | the same for the video processing properties |
| Filters.CheckPropsExtDevID | libvpl/src/mfx_dispatcher_vpl_config.cpp:1260-1333 | success iff every extended device property set is met, with the LUID and node numbers checked for validity first |
| Filters.StickyFlagsHarmless | libvpl/src/mfx_dispatcher_vpl_config.cpp:1417-1512 | as long as all configurations so far were met, request flags left over from earlier ones do not change the verdict on the next |
| Filters.ValidateConfig | libvpl/src/mfx_dispatcher_vpl_config.cpp:1389-1611 | success iff `Accepts`: each configuration by itself is met (its tree properties by one path), the API version last written is not above the implementation's, and all functions asked for are listed; the special properties end as `AfterValidate` |
| FilterMeaning.GeneralNumbers | libvpl/src/mfx_dispatcher_vpl_config.cpp:1008-1122 | setting Impl, VendorID or VendorImplID by its dotted name on a new configuration accepts an implementation iff that very field has the value |
| FilterMeaning.GeneralModes | libvpl/src/mfx_dispatcher_vpl_config.cpp:1008-1122 | the same for AccelerationMode, a member of the list if there is one, and for the surface pool mode, from structure version 1.2 on |
| FilterMeaning.GeneralTexts | libvpl/src/mfx_dispatcher_vpl_config.cpp:1008-1122 | the same for ImplName as a whole, and token by token for License and Keywords |
| FilterMeaning.DeviceNumbers | libvpl/src/mfx_dispatcher_vpl_config.cpp:1083-1116 | the same for the device id, read as a hexadecimal number, and for the media adapter type, which is not looked at below API 2.0 |
| FilterMeaning.DeviceNumeral | libvpl/src/mfx_dispatcher_vpl_config.cpp:1083-1097 | a device id that is a hexadecimal numeral is compared by its value |
| FilterMeaning.DeviceText | libvpl/src/mfx_dispatcher_vpl_config.cpp:1099-1105 | the device id given as text is compared as text |
| FilterMeaning.DecoderCodec | libvpl/src/mfx_dispatcher_vpl_config.cpp:1124-1167 | codec id, level and profile by name: one new configuration with just this property is accepted iff some path of the tree, or any if the library is a legacy one, has the value |
| FilterMeaning.DecoderMemory | libvpl/src/mfx_dispatcher_vpl_config.cpp:1124-1167 | memory type and colour format alike |
| FilterMeaning.DecoderRanges | libvpl/src/mfx_dispatcher_vpl_config.cpp:1124-1167 | width and height alike: the minimum and maximum asked for lie within those of the path, and the step is no finer |
| FilterMeaning.EncoderCodec | libvpl/src/mfx_dispatcher_vpl_config.cpp:1169-1213 | codec id, level and bidirectional prediction of encoders alike |
| FilterMeaning.EncoderMemory | libvpl/src/mfx_dispatcher_vpl_config.cpp:1169-1213 | profile, memory type and colour format of encoders alike |
| FilterMeaning.EncoderRanges | libvpl/src/mfx_dispatcher_vpl_config.cpp:1169-1213 | width and height of encoders alike |
| FilterMeaning.FilterKind | libvpl/src/mfx_dispatcher_vpl_config.cpp:1215-1258 | filter, delay and memory type of video processing alike |
| FilterMeaning.FilterMemory | libvpl/src/mfx_dispatcher_vpl_config.cpp:1215-1258 | input and output format of video processing alike |
| FilterMeaning.FilterRanges | libvpl/src/mfx_dispatcher_vpl_config.cpp:1215-1258 | width and height of video processing alike |
| FilterMeaning.DecoderTogether | libvpl/src/mfx_dispatcher_vpl_config.cpp:1124-1167 | several decoder properties in one configuration are met iff one and the same path meets each of them |
| FilterMeaning.EncoderTogether | libvpl/src/mfx_dispatcher_vpl_config.cpp:1169-1213 | the same for encoder properties |
| FilterMeaning.FilterTogether | libvpl/src/mfx_dispatcher_vpl_config.cpp:1215-1258 | the same for video processing properties |
| FilterMeaning.ExtDevIds | libvpl/src/mfx_dispatcher_vpl_config.cpp:1260-1333 | vendor, device and revision id of the extended device by name: accepted iff the implementation has an extended device id with the value |
| FilterMeaning.ExtDevBus | libvpl/src/mfx_dispatcher_vpl_config.cpp:1260-1333 | PCI domain, bus, device and function alike |
| FilterMeaning.ExtDevNodes | libvpl/src/mfx_dispatcher_vpl_config.cpp:1260-1333 | node mask and node numbers alike, each with the validity test the code makes |
| FilterMeaning.ExtDevPointers | libvpl/src/mfx_dispatcher_vpl_config.cpp:1260-1333 | LUID, if valid, and device name alike |
| FilterMeaning.SurfaceRefused | libvpl/src/mfx_dispatcher_vpl_config.cpp:1474-1498 | a configuration with a surface property set rules out every implementation, wherever it stands in the list |
| FilterMeaning.FunctionNames | libvpl/src/mfx_dispatcher_vpl_config.cpp:1586-1608 | a function name is accepted iff the implementation lists it |
| FilterMeaning.VersionNames | libvpl/src/mfx_dispatcher_vpl_config.cpp:1554-1585 | a whole API version is accepted iff the implementation's is not below; half a version asks for nothing |
| FilterMeaning.VersionHalves | libvpl/src/mfx_dispatcher_vpl_config.cpp:1554-1585 | both halves, in one configuration or in two and in either order, ask for a version that is compared by major number first |
| FilterMeaning.SessionNames | libvpl/src/mfx_dispatcher_vpl_config.cpp:649-671 | session properties are set by their names and ask nothing of an implementation |
| FilterMeaning.OtherSpellings | libvpl/src/mfx_dispatcher_vpl_config.cpp:469-590 | the singular names for colour and output formats do what the documented ones do |
| FilterMeaning.DeviceSpellings | libvpl/src/mfx_dispatcher_vpl_config.cpp:790-808 | the component "device" may be written or left out |
| FilterMeaning.AdapterByName | libvpl/src/mfx_dispatcher_vpl_loader.cpp:1497-1552 | the adapter index set by name is compared with the adapter number recorded, and with nothing else |
| FilterMeaning.RecordedByName | libvpl/src/mfx_dispatcher_vpl_config.cpp:1515-1552 | handle type, handle, thread count and adapter index set by name are recorded for sessions, by both functions |
| FilterMeaning.RecordedOthers | libvpl/src/mfx_dispatcher_vpl_config.cpp:1515-1552 | the same for acceleration mode, whole API version and extension buffer |
| FilterMeaning.LowLatencyByName | libvpl/src/mfx_dispatcher_vpl_config.cpp:1613-1753 | the four required settings, by name: hardware, the name mfx-gen, Intel, and some acceleration mode; without any one of them low latency is off |
| FilterMeaning.LowLatencyKept | libvpl/src/mfx_dispatcher_vpl_config.cpp:1613-1753 | one more property keeps it on iff it is the whole API version or one of the session properties |
| FilterLaws.AcceptsInsert | libvpl/src/mfx_dispatcher_vpl_config.cpp:1439-1611 | a configuration without API version, anywhere in the list, counts by itself |
| FilterLaws.AcceptsOrderFree | libvpl/src/mfx_dispatcher_vpl_config.cpp:1439-1611 | without API versions the verdict depends only on which configurations are present, not on their order or number |
| FilterLaws.AppendAcceptsExactly | libvpl/src/mfx_dispatcher_vpl_config.cpp:1439-1611 | appending a configuration turns rejection into acceptance iff all are met one by one and the implementation's version is below the one asked for before but not below the one asked for now |
| FilterLaws.AppendOnlyRestricts | libvpl/src/mfx_dispatcher_vpl_config.cpp:1439-1611 | a configuration that does not lower the API version asked for, or says nothing about it, never turns rejection into acceptance, whatever the implementation |
| FilterLaws.AppendCanAccept | libvpl/src/mfx_dispatcher_vpl_config.cpp:1554-1585 | one that lowers it can: 2.9 and then 2.0, for an implementation of version 2.0 |
| FilterLaws.PrimaryNodeExactly | libvpl/src/mfx_dispatcher_vpl_config.cpp:1260-1333 | the verdict on a device departs from the documented one iff its own primary node number is asked for, all else is met, and exactly one of its node numbers is 0x7FFFFFFF |
| FilterLaws.PrimaryNodeDeparts | libvpl/src/mfx_dispatcher_vpl_config.cpp:1310-1315 | devices for which it departs, one in each direction |
| FilterLaws.MergeConfigs | libvpl/src/mfx_dispatcher_vpl_config.cpp:1442-1512 | merging two disjoint version-free configurations is at least as strict as keeping both, and exactly as strict if no decoder, encoder or VPP group is set in both |
| FilterLaws.GrowingDecTree | libvpl/src/mfx_dispatcher_vpl_config.cpp:1124-1167 | inserting a codec, profile, memory type or format anywhere, each with its whole subtree, or loosening minimum, maximum or step anywhere, leaves every path a tree offers on offer or looser |
| FilterLaws.GrowingEncTree | libvpl/src/mfx_dispatcher_vpl_config.cpp:1169-1213 | the same for encoder trees |
| FilterLaws.GrowingVPPTree | libvpl/src/mfx_dispatcher_vpl_config.cpp:1215-1258 | the same for video processing trees |
| FilterLaws.GrowingAccepts | libvpl/src/mfx_dispatcher_vpl_config.cpp:1389-1611 | an implementation that offers more in this sense is accepted by every list of configurations that accepts the one offering less |
| Special.CheckLowLatencyConfig | libvpl/src/mfx_dispatcher_vpl_config.cpp:1613-1753 | low latency iff the values last written meet the four required settings and nothing outside the allowed set is set; the special properties end as `AfterLowLatencyCheck` |
| Special.WalkersAgree | libvpl/src/mfx_dispatcher_vpl_config.cpp:1442-1753 | validating any positive number of implementations and checking for low latency once leave the same special properties, the API version too unless it is set by halves |
| Special.LastIsLast | libvpl/src/mfx_dispatcher_vpl_config.cpp:1634-1660 | the value in force is that of the last configuration that sets the property |
| Special.WholeVersionOnly | libvpl/src/mfx_dispatcher_vpl_config.cpp:1554-1585 | without the major and minor forms, the version requested is the last one written as a whole |
| StableSort.SortRefines | libvpl/src/mfx_dispatcher_vpl_loader.cpp:1583-1618 | sorting stably by a rank a list already ordered yields the order by rank first and the old order second |
| StableSort.OrderedUnique | libvpl/src/mfx_dispatcher_vpl_loader.cpp:1583-1618 | an asymmetric order has at most one ordered permutation |
| ImplOrder.OrderIsInOrder | libvpl/src/mfx_dispatcher_vpl_loader.cpp:1561-1638 | the four stable sorts around the spliced-out entries yield a permutation ordered by: priority path first, greatest Impl, general hardware, greatest version, lowest path priority, and otherwise as before |
| ImplOrder.OrderUnique | libvpl/src/mfx_dispatcher_vpl_loader.cpp:1561-1638 | no other permutation is so ordered |
| ImplOrder.PrioritizeIdempotent | libvpl/src/mfx_dispatcher_vpl_loader.cpp:1561-1638 | doing it again changes neither the order nor any index |
| ImplOrder.OrderFilter | libvpl/src/mfx_dispatcher_vpl_loader.cpp:1497-1638 | filtering then sorting gives the same list as sorting then filtering |
| ImplOrder.NumberedBijection | libvpl/src/mfx_dispatcher_vpl_loader.cpp:1624-1635 | the indices that are not -1 are 0 to k-1, each once, increasing along the list |
| ImplOrder.EnumerationIsFilter | libvpl/src/mfx_dispatcher_vpl_loader.cpp:1624-1635 | the i-th valid implementation is the one with index i |
| LibChoice.CandidatesListedOnce | libvpl/src/mfx_dispatcher_vpl_loader.cpp:158-306 | a search lists each path once, with the priority of the location it was first found in, and keeps what was listed before |
| LibChoice.ListedOnce | libvpl/src/mfx_dispatcher_vpl_loader.cpp:158-306 | in every state of every run no two libraries have the same path |
| LibUse.SearchLists | libvpl/src/mfx_dispatcher_vpl_loader.cpp:464-613 | a search adds one library for each file found that was not listed, at priority 0 if a priority path directory has it and else at that of the first other place, those of the priority path first; and it remembers whether there was a priority path |
| LibChoice.LibrariesKept | libvpl/src/mfx_dispatcher_vpl_loader.cpp:616-717 | kept, in order, are all VPL libraries and at most one legacy one: the first of greatest version in the driver store, or the first of greatest version overall if none is there |
| LibUse.LibrariesUsed | libvpl/src/mfx_dispatcher_vpl_loader.cpp:616-717 | from the answers of the files: kept are exactly those that export MFXInitialize, or did before, and were not found in a legacy location, and the one legacy library that beats all others that load, are so named, export both functions and report a version; with table, version and module as recorded, in the order listed |
| HandleTrace.CheckLibsOk | libvpl/src/mfx_dispatcher_vpl_loader.cpp:616-717 | each library dropped is closed once and never used afterwards |
| HandleTrace.FullQueryOk | libvpl/src/mfx_dispatcher_vpl_loader.cpp:93-119 | a full query keeps the handle balance, also for implementations it rejects and libraries it drops |
| Origins.QueriedOffers | libvpl/src/mfx_dispatcher_vpl_loader.cpp:952-1255 | the list holds, once each and in order, exactly the descriptions whose 2.0 and 2.1 functions the library exports, if none is null, and the legacy adapters supported; each entry with the capabilities and handles handed out at its position |
| Origins.LibrariesRemain | libvpl/src/mfx_dispatcher_vpl_loader.cpp:989-1255 | given up are exactly the VPL libraries that hand out no description array or a null description, and legacy ones without adapter |
| HandleTrace.UnloadSettles | libvpl/src/mfx_dispatcher_vpl_loader.cpp:770-847 | unloading settles the balance of every handle and closes every library still held, after its handles; both lists are empty and the count starts over |
| LoaderInvariant.UpdateEntries | libvpl/src/mfx_dispatcher_vpl_loader.cpp:1497-1552 | an update moves no entry, and leaves valid exactly the valid entries that pass |
| LoaderInvariant.FailedSetWeaker | libvpl/src/mfx_dispatcher_vpl_config.cpp:296-417 | a failed call leaves configurations that accept whatever was accepted before |
| LoaderInvariant.StepInv | libvpl/src/mfx_dispatcher_vpl.cpp:52-229 | every call keeps the invariant: ordered and numbered list, valid entries pass unless an update is due, handles balanced, special numbers as last written |
| Runs.Reachable | libvpl/src/mfx_dispatcher_vpl.cpp:12-229 | every state of every run from a new loader on satisfies the invariant |
| Runs.CacheCoherent | libvpl/src/mfx_dispatcher_vpl.cpp:73-209 | in every run, whenever neither flag asks for work, redoing the update would change no entry and no index |
| Runs.IndexBijection | libvpl/src/mfx_dispatcher_vpl_loader.cpp:1355-1393 | in every state of every run the indices in use are 0 to k-1 along the list |
| Runs.FoundExactly | libvpl/src/mfx_dispatcher_vpl_loader.cpp:1355-1393 | for every 32-bit index, which entry is found: below 2^31 the i-th valid one or none; 0xFFFFFFFF the first invalid one; otherwise none |
| Runs.EnumerationMeaning | libvpl/src/mfx_dispatcher_vpl.cpp:109-209 | enumeration and session creation bring the list up to date alike, and both mean its i-th valid entry in priority order, or not found iff there are at most i |
| Runs.SessionMatchesEnumeration | libvpl/src/mfx_dispatcher_vpl.cpp:109-209 | with no successful property change in between, creating a session with index i uses the implementation enumeration reported for i |
| Runs.SurvivorsOnlyShrink | libvpl/src/mfx_dispatcher_vpl_loader.cpp:1497-1552 | after a full query no implementation is added, dropped or moved; valid at any later time are exactly those that were valid then and passed at every update since |
| Runs.DeliveredStaysReleasable | libvpl/src/mfx_dispatcher_vpl_loader.cpp:1395-1475 | whatever enumeration delivered is recognised by the release call at any later time |
| Runs.LegacySuppressed | libvpl/src/mfx_dispatcher_vpl_loader.cpp:1257-1349 | if D3D9 was not the mode last asked for at the full query, no later state has a valid legacy implementation for a device a hardware VPL implementation serves; one that reports 1.255 is never valid |
| QueryRuns.ValidAfterQuery | libvpl/src/mfx_dispatcher_vpl_loader.cpp:1257-1349 | right after the call in which the query succeeds an entry is valid iff the configurations accept it, its adapter is the one asked for, and it is not a legacy entry that reports 1.255 or, unless D3D9 is the mode last asked for, has the device id of a hardware VPL entry; its adapter number is what its device id denotes, or unknown |
| QueryRuns.EntriesOfRun | libvpl/src/mfx_dispatcher_vpl_loader.cpp:949-1352 | in every later state the list holds exactly what the libraries asked by that query offered, each offer once |
| QueryRuns.QueryOutcome | libvpl/src/mfx_dispatcher_vpl_loader.cpp:93-119 | a query succeeds iff some library asked offers something; the libraries that remain stay listed either way, and a failure finds nothing |
| QueryRuns.DeliveredIs | libvpl/src/mfx_dispatcher_vpl_loader.cpp:1355-1393 | enumeration delivers, for each format, the handle its library supplied at that position when it was queried, the path of the library, or unsupported if that was null |
| QueryRuns.ReleaseExactly | libvpl/src/mfx_dispatcher_vpl_loader.cpp:1395-1475 | the release call succeeds iff some library asked supplied the handle, in whichever format, for one of its entries; null and unknown handles have their own errors |
| QueryRuns.ReleaseBeforeQuery | libvpl/src/mfx_dispatcher_vpl_loader.cpp:1395-1475 | before a query has succeeded no handle is known |
| OrderRuns.IndexOrder | libvpl/src/mfx_dispatcher_vpl_loader.cpp:1561-1638 | in every state of every run, of two valid entries the one that comes first by priority path, Impl, general hardware, API version, location and time found has the smaller index |
| OrderRuns.PriorityPathExactly | libvpl/src/mfx_dispatcher_vpl_loader.cpp:464-485 | the priority path is in force iff some full query so far was given one |
| OrderRuns.PriorityPathFirst | libvpl/src/mfx_dispatcher_vpl_loader.cpp:1561-1638 | from then on every valid entry found there has a smaller index than every other valid entry |
| OrderRuns.AskedPriority | libvpl/src/mfx_dispatcher_vpl_loader.cpp:464-613 | a library asked has the priority it was listed with before, or 0 if it is new and in the priority path, or else that of the first other place it was found in |
| LegacyRun.LegacyEnumerated | libvpl/src/mfx_dispatcher_vpl_loader.cpp:645-697 | a run, on Linux, in which index 0 is the implementation of a legacy library |
| Runs.HandlesConserved | libvpl/src/mfx_dispatcher_vpl_loader.cpp:770-847 | at the end of every run and MFXUnload each handle stored in an implementation has been given back as often as it was stored, every library object ever created has been destroyed once, and nothing concerns a library after that |
| SessionProps.SessionUsesLastWritten | libvpl/src/mfx_dispatcher_vpl_loader.cpp:1640-1756 | in every run a session is requested with the acceleration mode, thread count and handle type written last, the thread buffer and then the buffers collected last, their number cut to 16 bits, and the device handle collected last, which is passed iff neither it nor its type is missing or null |
| SessionProps.LowLatencyReply | libvpl/src/mfx_dispatcher_vpl_loader.cpp:1640-1756 | in low latency mode a session is refused for too low an API version or an adapter index above 3 of a legacy library; else the index selects the implementation or adapter, and the rest of the request is as always |
| SessionProps.BuffersCurrentExactly | libvpl/src/mfx_dispatcher_vpl.cpp:73-105 | those are the buffers the configurations hold now iff no failed call has unset one since the last collection |
| SessionProps.HandleCurrentExactly | libvpl/src/mfx_dispatcher_vpl_config.cpp:1515-1530 | the handle passed is the one the configurations hold now iff no failed call has unset it, since it was collected, in the configuration it came from, or an earlier one holds the same |
| Accounts.FinalAccounts | libvpl/src/mfx_dispatcher_vpl_loader.cpp:734-847 | at the end of every run and MFXUnload each module has been loaded as often as closed, plus once for every full query that found it still loaded; each handle has been handed over as often as given back, plus as often as it was handed over and not stored |
| Accounts.AllGivenBackExactly | libvpl/src/mfx_dispatcher_vpl_loader.cpp:989-1100 | everything handed over is given back iff every runtime asked hands over its descriptions all or not at all, and nothing beyond their number |
| Accounts.AllClosedExactly | libvpl/src/mfx_dispatcher_vpl_loader.cpp:734-766 | every module is closed as often as loaded iff no full query finds a library listed with its module loaded |
| PostPass.EndsExactly | libvpl/src/mfx_dispatcher_vpl_loader.cpp:1257-1349 | the pass ends iff every legacy entry without description is answered at some attempt; if answers do not change, iff none of those queries fails |
| PostPass.DescribedPassEnds | libvpl/src/mfx_dispatcher_vpl_loader.cpp:1257-1349 | if no description is missing the pass ends after one step per entry, whatever would be answered, with every entry treated as `PostProcess` says |
| PostPass.PassFills | libvpl/src/mfx_dispatcher_vpl_loader.cpp:1304-1345 | when the pass ends a missing description is what its runtime answered, for a legacy one at the first attempt answered; all others are unchanged, and only legacy entries have been hidden |
| FindingRuns.RuledOutDelivered | libvpl/src/mfx_dispatcher_vpl_loader.cpp:1355-1393 | a run in which index 0xFFFFFFFF delivers the description of an implementation that is ruled out |
| FindingRuns.StaleBufferPassed | libvpl/src/mfx_dispatcher_vpl_config.cpp:296-417 | a run in which a session is passed a buffer that no configuration holds |
| FindingRuns.StaleHandlePassed | libvpl/src/mfx_dispatcher_vpl_config.cpp:1515-1530 | a run in which a session is given a handle that no configuration holds, after a later collection |
| FindingRuns.DescriptionLost | libvpl/src/mfx_dispatcher_vpl_loader.cpp:989-1020 | a run in which a description is handed over and never given back |
| FindingRuns.ModuleLoadedTwice | libvpl/src/mfx_dispatcher_vpl_loader.cpp:734-766 | a run in which a module is loaded twice and closed once |
| LegacyHandles.LegacyNeverReleased | libvpl/src/mfx_dispatcher_vpl_loader.cpp:803-847 | in no run is anything passed to the release function of a legacy implementation's library |
| Loader.LoaderCtxVPL.constructor | libvpl/src/mfx_dispatcher_vpl_loader.cpp:51-87 | a new loader: nothing held, a full query and an update due |
| Loader.LoaderCtxVPL.SpliceOutSpecial | libvpl/src/mfx_dispatcher_vpl_loader.cpp:1569-1581 | the in-place splice leaves the other entries, and returns the priority path ones, each in their order |
| Loader.LoaderCtxVPL.RenumberList | libvpl/src/mfx_dispatcher_vpl_loader.cpp:1624-1635 | valid entries get their position among the valid ones, the others keep -1 |
| Loader.LoaderCtxVPL.PrioritizeImplList | libvpl/src/mfx_dispatcher_vpl_loader.cpp:1561-1638 | the objects are permuted and renumbered as `Prioritize` says |
| Loader.LoaderCtxVPL.UpdateValidImplList | libvpl/src/mfx_dispatcher_vpl_loader.cpp:1497-1552 | the whole new state of the loader after the walk over all entries and the sort |
| Loader.LoaderCtxVPL.AddLibrary | libvpl/src/mfx_dispatcher_vpl_loader.cpp:277-301 | a file is skipped if its full path is listed, otherwise appended as a new library |
| Loader.LoaderCtxVPL.BuildListOfCandidateLibs | libvpl/src/mfx_dispatcher_vpl_loader.cpp:464-613 | all candidates of one search in order, and whether the priority path is in use, as `BuildList` says; what that finds is `LibUse.SearchLists` |
| Loader.LoaderCtxVPL.LoadAndProbe | libvpl/src/mfx_dispatcher_vpl_loader.cpp:624-690 | which libraries are usable, as VPL or legacy ones, and what is recorded about them, as `Probe` says; from the answers of the file it is `LibUse.LibrariesUsed` |
| Loader.LoaderCtxVPL.ProbeLibraries | libvpl/src/mfx_dispatcher_vpl_loader.cpp:616-697 | the first walk drops the unusable libraries in place and finds the best legacy ones |
| Loader.LoaderCtxVPL.CheckValidLibraries | libvpl/src/mfx_dispatcher_vpl_loader.cpp:616-717 | both walks: the libraries left, those closed, and their number |
| Loader.ValidateAPIExports | libvpl/src/mfx_dispatcher_vpl_loader.cpp:888-896 | success iff every function of the reported version or an earlier one is exported |
| Loader.LoaderCtxVPL.UnloadSingleImplementation | libvpl/src/mfx_dispatcher_vpl_loader.cpp:803-847 | exactly the handles of a VPL implementation go back to its runtime |
| Loader.LoaderCtxVPL.QueryLibraryAt | libvpl/src/mfx_dispatcher_vpl_loader.cpp:952-1255 | one library: the implementations appended with their indices, handles taken and given back, and whether it is dropped |
| Loader.IsValidX86GPU | libvpl/src/mfx_dispatcher_vpl_loader.cpp:920-943 | accepted iff the implementation is valid, described, from Intel, hardware, and its device id is a hex numeral below 2^31 or one followed by a slash and a decimal numeral below 2^31; the adapter is that numeral's value, or unknown |
| Loader.LoaderCtxVPL.PostProcessList | libvpl/src/mfx_dispatcher_vpl_loader.cpp:1257-1349 | the loop over entries whose description may be missing, including the branch that stays where it is: it ends under the exact condition of `EndsExactly`, with the list that repeated single steps give |
| Loader.LoaderCtxVPL.PostProcessDescribed | libvpl/src/mfx_dispatcher_vpl_loader.cpp:1257-1349 | outside low latency mode it ends for all answers, with adapter numbers and hidden entries as `PostProcess` says; which entries those are is `QueryRuns.ValidAfterQuery` |
| Loader.LoaderCtxVPL.QueryLibraryCaps | libvpl/src/mfx_dispatcher_vpl_loader.cpp:949-1352 | the whole new state after querying all libraries, outside low latency mode |
| Loader.LoaderCtxVPL.FullLoadAndQuery | libvpl/src/mfx_dispatcher_vpl_loader.cpp:93-119 | status and new state of a full query, with the flags changed only on success |
| Loader.LoaderCtxVPL.QueryImpl | libvpl/src/mfx_dispatcher_vpl_loader.cpp:1355-1393 | the structure delivered for an index and a format, or why none is |
| Loader.LoaderCtxVPL.CreateSession | libvpl/src/mfx_dispatcher_vpl_loader.cpp:1640-1756 | in either mode the first entry with the index is chosen; acceleration mode, implementation number or adapter, buffers and handle its runtime is asked for, or why it is refused in low latency mode |
| Loader.LoaderCtxVPL.CollectBuffers | libvpl/src/mfx_dispatcher_vpl_loader.cpp:1702-1729 | the thread count buffer first, then those of the configurations in order |
| Loader.LoaderCtxVPL.ReleaseImpl | libvpl/src/mfx_dispatcher_vpl_loader.cpp:1395-1475 | success iff some implementation holds the handle; nothing is given back yet |
| Loader.LoaderCtxVPL.AddConfigFilter | libvpl/src/mfx_dispatcher_vpl_loader.cpp:1758-1777 | a new empty configuration at the end of the list, nothing else changed |
| Loader.LoaderCtxVPL.SetConfigFilterProperty | libvpl/src/mfx_dispatcher_vpl.cpp:73-105 | the object does what `Step` says; only success raises the update flag and re-evaluates low latency |
| Loader.LoaderCtxVPL.EnumImplementations | libvpl/src/mfx_dispatcher_vpl.cpp:109-153 | the object does what `Step` says |
| Loader.LoaderCtxVPL.NewSession | libvpl/src/mfx_dispatcher_vpl.cpp:156-209 | the object does what `Step` says, outside low latency mode |
| Loader.LoaderCtxVPL.UnloadAllLibraries | libvpl/src/mfx_dispatcher_vpl_loader.cpp:770-799 | every handle is given back, then every library closed, and all lists are empty |

## Left out

- NewSession: MFXCreateSession while low latency mode is on is not part of this model (the low latency library search and the version test session), so runs contain none; entering and leaving the mode is. For the same reason MFXEnumImplementations never finds libraries loaded by such a session. What CreateSession does in that mode, and what the pass after a query does with the null descriptions such a session leaves behind, is modelled.
- QueryLibraryCaps: only outside low latency mode, the same restriction as for NewSession: it never creates an entry without description.
- CreateSession: an entry without description is not represented in the list it searches, because only the sessions left out under NewSession create one. MFXInitEx2 and MFXVideoCORE_SetHandle are outside; their joint answer is a parameter, and the request records the handle that would be set if initialisation succeeds. The adapter value passed to a legacy runtime is a function of the request.
- QueryLibraryAt: a runtime that exports MFXInitialize is taken to export the description query and release functions too, which the code calls without testing for null. A capability array shorter than its count is not modelled.
- PostProcessEntry: the list of functions that a repeated legacy query also fills in is not represented, since only matching and delivery read it; a VPL runtime that answers the repeated query with a null array, which the code dereferences, is not modelled.
- LoadAndProbe: dlopen and dlsym are answers of the environment; the hint that skips the D3D9 test of a legacy runtime is part of those answers, which are arbitrary.
- ReleaseImpl: the branch behind `m_bKeepCapsUntilUnload` being false is dead, because the constructor sets it and nothing clears it.
- SortList: `std::list::sort` is represented by a stable insertion sort on values; of the library's function only stability and permutation matter.
- ImplInfo: each implementation keeps the identity, search priority and type of its library rather than a pointer to it; these do not change while it exists. The initialisation parameters cached in it are part of the session request.
- ConfigCtxVPL: fixed arrays of slots and ranges are sequences held in fields and reassigned; aliasing between them is not captured.
- The experimental build: surface filters, property based queries, DeviceCopy by name.
- Directory listing, search path assembly, registry and environment variables: a search is a list of files with priorities.
- Allocation failures and the exception handlers of the entry points, except for the number conversions.
- The logger, string widening, the copy of a library's path, and null checks of loader and configuration pointers.
- libvpl/src/mfx_config_interface and the legacy capability queries (`LoaderCtxMSDK`), whose results are arbitrary here.
