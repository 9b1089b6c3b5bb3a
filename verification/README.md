# LTBox verification model

A Dafny model of the parts of LTBox whose mistakes would cost a device or its data, with
proofs about them. Check it with `dafny verify dfyconfig.toml`.

| file | models |
|---|---|
| `Civil.dfy` | the two civil-date closed forms, against walking the Gregorian calendar day by day |
| `RollbackFormat.dfy` | the rollback-index text forms and their parser |
| `EdlStorage.dfy` | an EDL session over LUNs of sectors: lookup, dump, flash, erase, batches |
| `Rawprogram.dfy` | the rawprogram pipeline as traces of Firehose commands, in its three data modes |
| `FirmwareXmls.dfy` | the choice of rawprogram and patch XMLs from a directory listing |
| `StablePort.dfy` | the two-phase wait for a stable EDL port |
| `ArbOverlay.dfy` | the anti-rollback overlay builder and the device its overlays leave |
| `OperationExecution.dfy` | ownership of the foreground operation and its shared progress |
| `DeviceQueries.dfy` | tokens of device lookups, the poll lease, the region probe |
| `DeviceSnapshot.dfy` | the device view merged from partial polls |
| `Migration.dfy` | the legacy data mover, every file operation able to fail |
| `Base64.dfy`, `Container.dfy` | the base64 decoder and the encrypted `.x` container |
| `RecentPaths.dfy`, `BackupDir.dfy`, `TokenMatch.dfy` | recents lists, exclusive backup directories, model tokens |
| `Text.dfy`, `Arithmetic.dfy`, `Wrappers.dfy` | UTF-8, ASCII and integer text; Rust's integer arithmetic; options and results |

Pure code of the repository is modelled by functions and lemmas. Code that updates its
state is modelled by classes and methods; each method is proved against a function of the
old state, and the properties are proved about that function or over runs of it. A device
or file system step that may fail fails at an arbitrary point: after a failed program or
erase command the named sectors hold anything, after a failed copy or delete any part of a
tree is there.

Where the code does not do what its comments promise for every input, the exact condition
under which it does is proved:

- `civil_from_days_ordinal` is the inverse of `civil_from_days` exactly while no 32-bit
  subtraction on the year wraps, which excludes the 399 March-based years from
  `i32::MIN` up (`Civil.DaysFromCivilExactIff`). Its only caller reads the year from four
  bytes, so it never meets those years, and there the inverse is exact
  (`RollbackFormat.OrdinalOfYear`).
- The date form of a rollback index survives a round trip exactly below the year 10000;
  a longer year is refused as misshapen (`RollbackFormat.DateFormRoundTrips`).
- A sector span is exact unless an entry covers all 2^64 sectors
  (`EdlStorage.SpanSectorsExact`).
- A lookup by name does not skip the unused slots of a partition table, so a flash or erase
  of the empty name goes to the first slot without a name, which on a table as it is made
  is sector 0 (`EdlStorage.EmptyNameErasesSectorZero`). By-name steps keep the metadata
  exactly when the name is not empty, or no slot lacks a name, or the first that does starts
  behind the metadata or is inverted (`EdlStorage.MetadataKeptExactly`).
- Keeping data skips user-data programs but follows erase nodes whatever their label: a run
  to the end erases nothing exactly when no XML has an erase node that names sectors
  (`Rawprogram.KeepDataErasesExactly`, `Rawprogram.KeepDataFollowsEraseNode`).
- A re-signed `vbmeta_system` meets its target unless a chain without A/B slots is
  spelled `vbmeta_system_a`, shares its label and is flashed over it with another index
  (`ArbOverlay.SystemMeetsTargetExactly`); such a package lowers the device's index
  (`ArbOverlay.SharedLabelFalls`). An install that does not chain a protected partition may
  lower its index too (`ArbOverlay.UnchainedMayFall`).
- When a candidate of the mover is not reported as failed, its destination changed exactly
  if its source existed and its destination did not (`Migration.FileSystem.MigrateOne`). A
  dangling link at the destination does not exist in that sense and is replaced
  (`Migration.DanglingLinkIsReplaced`).
- Stored rollback floors mean Fastboot exactly when no connected poll outside Fastboot
  carries floors (`DeviceSnapshot.StoredFloorsMeanFastboot`).
- Base64 text is recovered from its decoding exactly when the bits no byte takes are zero
  (`Base64.EncodeInverts`).

## Model

| member | source | states |
|---|---|---|
| `Civil.CivilSuccessor` | crates/ltbox-gui/src/arb.rs:30-42 | for every day count, one day more is the calendar successor and one day less the predecessor (leap rule of RFC 3339 appendix C) |
| `Civil.CivilFromDaysIsWalk` | crates/ltbox-gui/src/arb.rs:30-42 | the closed form equals walking the calendar one day at a time from 1970-01-01, in both directions |
| `Civil.CivilFromDaysCounts` | crates/ltbox-gui/src/arb.rs:30-42 | every day count gives a calendar date, and that date's day number is the count |
| `Civil.CivilFromDaysInverts` | crates/ltbox-gui/src/arb.rs:30-42 | every calendar date is reached from its day number |
| `Civil.NextDayCounts` | crates/ltbox-gui/src/arb.rs:28-42 | the day number grows by exactly one along the calendar |
| `Civil.YearOfEraCorrect` | crates/ltbox-gui/src/arb.rs:34-36 | the corrected quotient is the year of the era whose days contain the day |
| `Civil.MonthOfYearCorrect` | crates/ltbox-gui/src/arb.rs:37-39 | the 153-day trick finds the March-based month that contains the day |
| `Civil.DayNumberInjective` | crates/ltbox-gui/src/main.rs:1438-1465 | different calendar dates have different day numbers |
| `Civil.DaysFromCivilExactIff` | crates/ltbox-gui/src/main.rs:1441-1465 | the ordinal of a valid date is its day number if and only if no 32-bit subtraction wraps |
| `Civil.OrdinalInvertsCivil` | crates/ltbox-gui/src/main.rs:1438-1465 | day to date to day is the identity exactly under that guard |
| `Civil.CivilInvertsOrdinal` | crates/ltbox-gui/src/main.rs:1438-1465 | date to day to date is the identity on every accepted date under that guard |
| `Civil.DaysFromCivilAccepts` | crates/ltbox-gui/src/main.rs:1443-1451 | with a month given and a positive day, exactly the calendar dates are accepted |
| `Civil.CivilFitsI64` | crates/ltbox-gui/src/arb.rs:31-35 | no 64-bit intermediate overflows when the first sum does not |
| `RollbackFormat.NumberRoundTrips` | crates/ltbox-gui/src/main.rs:1370-1398 | parsing the rendered raw or Unix form gives the index back for every 64-bit index, and refuses every larger number |
| `RollbackFormat.NumberText` | crates/ltbox-gui/src/main.rs:1370-1376 | the raw form is `0x` and capital hexadecimal digits, the Unix form decimal digits, without a leading zero and spelling the index |
| `RollbackFormat.HexIgnoresCase` | crates/ltbox-gui/src/main.rs:1390-1397 | a raw target is read in either case, its prefix included |
| `RollbackFormat.ParseIgnoresBlanks` | crates/ltbox-gui/src/main.rs:1387-1389 | blanks around a target are ignored in every form |
| `RollbackFormat.MalformedTargets` | crates/ltbox-gui/src/main.rs:1390-1404 | a raw target is refused for its prefix exactly when it has none, and an empty one is refused in every form |
| `RollbackFormat.DateFormRoundTrips` | crates/ltbox-gui/src/main.rs:1372-1433 | the date form gives the index rounded down to its UTC day before the year 10000 and is refused from then on |
| `RollbackFormat.DateTextMeansMidnight` | crates/ltbox-gui/src/main.rs:1399-1433 | a ten-character date parses to midnight of the day it names, or is refused when there is no such day since 1970 |
| `RollbackFormat.DateTargetMeans` | crates/ltbox-gui/src/main.rs:1402-1433 | any input whatever: ten bytes with the two dashes whose numbers name a calendar day since 1970 mean its midnight, everything else is refused for its shape or its value |
| `RollbackFormat.AcceptedDatesAreMidnights` | crates/ltbox-gui/src/main.rs:1399-1433 | every accepted input, signs and blanks included, gives a multiple of 86400 that renders and parses back |
| `RollbackFormat.TimestampReadsBack` | crates/ltbox-gui/src/arb.rs:10-18 | the text ends in ` UTC`; the numbers at its six places are a calendar date, an hour, a minute and a second, and count to the timestamp |
| `RollbackFormat.DateReadsBack` | crates/ltbox-gui/src/arb.rs:20-26 | the three numbers of a date text are the calendar date of the day |
| `RollbackFormat.TimestampInjective` | crates/ltbox-gui/src/arb.rs:10-18 | different timestamps have different texts |
| `Text.DigitsSpell` | crates/ltbox-gui/src/main.rs:1370-1376 | the digits of a number, decimal or hexadecimal, parse to the number |
| `Text.SignsAre` | crates/ltbox-gui/src/main.rs:1397-1421 | a plus may stand before a number, a minus only before one of a signed type |
| `EdlStorage.SpanSectorsExact` | crates/ltbox-device/src/edl.rs:1140-1151 | the inclusive span is the sector count exactly unless all 2^64 sectors are spanned |
| `EdlStorage.EdlSession.FindPartitionByName` | crates/ltbox-device/src/edl.rs:725-757 | reading the GPT header, bounding the metadata length and searching the entries finds what the pure lookup finds, or the transport failed |
| `EdlStorage.FindPartitionExactly` | crates/ltbox-device/src/edl.rs:852-877 | a lookup gives the first slot of the name in the table read from the sectors before the first usable one and two more, at most 2048, and reports an unknown name exactly when that table has no such slot |
| `EdlStorage.FoundFits` | crates/ltbox-device/src/edl.rs:852-877 | on a sound layout, unused slots included, a lookup by a name that is not empty ends at a used slot of that name, inside the LUN and behind the GPT, unless its range is inverted |
| `EdlStorage.EdlSession.DumpPartition` | crates/ltbox-device/src/edl.rs:879-924 | a dump is exactly the bytes from the first to the last sector of the partition the GPT names |
| `EdlStorage.EdlSession.FlashPartitionAt` | crates/ltbox-device/src/edl.rs:961-1008 | on success the image stands at the start sector, the rest of its last sector is zero and no other byte of the LUN differs; an image longer than the span is refused and changes nothing |
| `EdlStorage.EdlSession.FlashPartition` | crates/ltbox-device/src/edl.rs:1171-1217 | on success the image stands at the start of the partition the table names, the rest of its last sector is zero and no other byte differs; an inverted range or an image longer than the partition is refused and changes nothing; even a failed write stays inside the partition |
| `EdlStorage.EdlSession.ErasePartition` | crates/ltbox-device/src/edl.rs:1153-1169 | erasing by name blanks the partition's sectors, and a failed erase stays inside them |
| `EdlStorage.EdlSession.PhysicalLunSectorCount` | crates/ltbox-device/src/edl.rs:1010-1035 | the LUN size is the backup header's place plus one, checked |
| `EdlStorage.EdlSession.DumpPhysicalStorage` | crates/ltbox-device/src/edl.rs:1037-1065 | a physical dump is the bytes of every sector up to and including the backup header the header of sector 1 names |
| `EdlStorage.EdlSession.FlashPhysicalStorage` | crates/ltbox-device/src/edl.rs:1067-1105 | on success the image stands at the start of the LUN, the rest of its last sector is zero and no other byte differs; one longer than the sectors up to the backup header is refused and changes nothing |
| `EdlStorage.NamedStepKeeps` | crates/ltbox-device/src/edl.rs:1153-1217 | any by-name step of such a name, failed ones included, keeps the layout and every other used partition |
| `EdlStorage.NamedRunKeeps` | crates/ltbox-device/src/edl.rs:1153-1217 | a run of such steps keeps every used partition it does not name |
| `EdlStorage.DumpRunFlashRestores` | crates/ltbox-device/src/edl.rs:879-1217 | dump a partition, run any by-name flashes and erases, flash the dump: its sectors are exactly restored and every other used partition is as the run left it |
| `EdlStorage.LunDumpRunFlashRestores` | crates/ltbox-device/src/edl.rs:1010-1105 | the same for a whole LUN |
| `EdlStorage.EraseBlanksThePartition` | crates/ltbox-device/src/edl.rs:1153-1169 | on a sound layout an erase of a used partition succeeds, blanks every sector of it and no other used partition |
| `EdlStorage.FlashOwnContents` | crates/ltbox-device/src/edl.rs:1171-1217 | an image of a partition's own size is never refused as too long for it |
| `EdlStorage.FlashFillsPartition` | crates/ltbox-device/src/edl.rs:1186-1213 | on a sound layout exactly the images that fit a used partition are accepted; the partition then begins with the image, and the table and every other used partition are unchanged |
| `EdlStorage.FlashAtWrites` | crates/ltbox-device/src/edl.rs:970-1005 | a flash at a place is refused as too long exactly when the image is longer than the span, and otherwise writes it if its sectors are on the LUN |
| `EdlStorage.ScannedGeometryIsByName` | crates/ltbox-device/src/edl.rs:961-1008 | flashing with the geometry of a scan is flashing by name |
| `EdlStorage.MetadataKeptExactly` | crates/ltbox-device/src/edl.rs:852-877 | no by-name step can change a metadata sector, exactly when the name is not empty, or no slot lacks a name, or the first such slot starts behind the metadata or is inverted |
| `EdlStorage.EmptyNameErasesSectorZero` | crates/ltbox-device/src/edl.rs:870-876 | with a blank slot in the table, erasing the empty name blanks sector 0 |
| `EdlStorage.FreshTableIsSound` | crates/ltbox-device/src/edl.rs:756-776 | a table with an unused slot is a sound layout; its partition is erased alone, and the empty name erases sector 0 |
| `EdlStorage.EdlSession.FlashPartitionBatch` | crates/ltbox-device/src/edl/partition_flash.rs:89-155 | one unusable request (no file, an empty one, an unknown or inverted target, an image longer than it) and nothing at all is written; a later transport failure stops inside the image it happened on |
| `EdlStorage.BatchPlacesAll` | crates/ltbox-device/src/edl/partition_flash.rs:80-155 | on sound layouts, unused slots included, a batch with one request a target can run to its end; then every image is in its partition, the tables are as they were, and every used partition not named is unchanged |
| `EdlStorage.EdlSession.ResolveBatch` | crates/ltbox-device/src/edl/partition_flash.rs:96-124 | the preflight places every image where the GPT puts its target and writes nothing |
| `Rawprogram.ModeTraces` | crates/ltbox-device/src/edl.rs:1361-1448 | the wipe trace is the erase plan and then the verbatim trace; the keep trace is the verbatim trace without exactly the user-data programs; and which modes complete together |
| `Rawprogram.ModePlanExactly` | crates/ltbox-device/src/edl.rs:1309-1722 | what a mode plans is what its XMLs ask for: complete exactly when the split-super images are there and every node met is sound, with one command for each acting node before the first unsound one |
| `Rawprogram.StepExactly` | crates/ltbox-device/src/edl.rs:1506-1722 | a node that must act gives its one command: label, sectors, slot or 0, LUN, start, path and offset or 0 of a program, all fields of a patch; any other sound node gives none |
| `Rawprogram.LabelsAre` | crates/ltbox-device/src/edl.rs:1276-1297 | wiped labels are userdata, metadata and frp in any case, alone or before an underscore; kept ones the first two |
| `Rawprogram.SafeJoinExactly` | crates/ltbox-core/src/safe_path.rs:25-54 | a path is joined exactly when it cannot leave the directory and names something, and then it is its plain components in order |
| `Rawprogram.PreflightExactly` | crates/ltbox-device/src/edl.rs:1299-1351 | the preflight passes exactly when every XML can be read and every split-super image in use is there |
| `Rawprogram.EdlSession.FlashRawprogramWithWipe` | crates/ltbox-device/src/edl.rs:1361-1411 | the commands sent are, in document order, the ones the acting nodes write down, up to the first unsound node, and all of them on success; a refused command is the last; a missing split-super image or a wiped node without coordinates in any XML means no command at all |
| `Rawprogram.EdlSession.FlashRawprogramVerbatim` | crates/ltbox-device/src/edl.rs:1413-1448 | the same without the pre-erase and without skipping user data |
| `Rawprogram.EdlSession.PreEraseWipeLabels` | crates/ltbox-device/src/edl.rs:1450-1466 | nothing is erased unless every wiped node of every XML is sound; then each of them that names sectors is erased where it says, in order |
| `Rawprogram.EdlSession.CollectWipeErasePlan` | crates/ltbox-device/src/edl.rs:1468-1504 | collected exactly when every wiped node is sound, and then one erase for each that names sectors, with its own coordinates |
| `Rawprogram.EdlSession.FlashOneRawprogram` | crates/ltbox-device/src/edl.rs:1506-1540 | one command for each node that programs or erases, in document order and as the node writes it down, up to the first unsound node |
| `Rawprogram.EdlSession.ApplyPatchXml` | crates/ltbox-device/src/edl.rs:1666-1722 | one patch for each disk patch, in document order and with every field its node states, up to the first unsound one |
| `Rawprogram.CommandsAreBacked` | crates/ltbox-device/src/edl.rs:1542-1759 | every command of every mode takes its LUN and start sector from a node that states both; none is defaulted |
| `Rawprogram.KeepDataErasesExactly` | crates/ltbox-device/src/edl.rs:1506-1540 | while data is kept a plan erases something only if some XML has an erase node that names sectors, and a plan that runs to its end then does |
| `Rawprogram.KeepDataFollowsEraseNode` | crates/ltbox-device/src/edl.rs:1536-1537 | an erase node labelled userdata is followed while data is kept |
| `Rawprogram.SequenceStops` | crates/ltbox-device/src/edl.rs:1361-1448 | a failed step ends the plan: what follows it adds no command |
| `FirmwareXmls.CollectFirmwareXmls` | crates/ltbox-device/src/edl.rs:1910-1975 | success gives the listed files whose names qualify, by the names themselves: no wiping variant, every other rawprogram, one of each family by its order, every patch; in dictionary order and usable. Failure names a listed rawprogram and what is wrong with it |
| `FirmwareXmls.CollectedExactly` | crates/ltbox-device/src/edl.rs:1910-1975 | exactly the other files, the best of each family, `rawprogram0.xml` if and only if it exists and no persist-family file does, and every patch; sorted and usable |
| `FirmwareXmls.CollectedIsByName` | crates/ltbox-device/src/edl.rs:1926-1975 | the same without the sorting out: the literal name tests and, for either setting, which variant of a family wins |
| `FirmwareXmls.KindExactly` | crates/ltbox-device/src/edl.rs:1783-1795 | the kind of a file is decided by its name: the start and the ending in any case, the wiping words as spelled, the families by their literal names |
| `FirmwareXmls.AtMostOnePerFamily` | crates/ltbox-device/src/edl.rs:1904-1975 | at most one persist-family and one devinfo-family file, and no file twice |
| `FirmwareXmls.CollectionIgnoresOrder` | crates/ltbox-device/src/edl.rs:1910-1975 | the result, errors included, does not depend on the enumeration order |
| `FirmwareXmls.SelectOneIsMinimal` | crates/ltbox-device/src/edl.rs:1797-1816 | the selected name is the only minimal one in rank and then in name |
| `FirmwareXmls.SortSorts` | crates/ltbox-device/src/edl.rs:1809-1816 | the sort is a sorted permutation |
| `FirmwareXmls.SortedIsUnique` | crates/ltbox-device/src/edl.rs:1970-1971 | there is only one |
| `FirmwareXmls.NameLeqExactly` | crates/ltbox-device/src/edl.rs:1814 | names are ordered by the first character that differs, a prefix first |
| `FirmwareXmls.ValidateExactly` | crates/ltbox-device/src/edl.rs:1866-1902 | validation passes exactly when every XML parses and references persist and devinfo images only where allowed and present |
| `FirmwareXmls.ErrorJustified` | crates/ltbox-device/src/edl.rs:1866-1902 | an error names an XML that was checked and the reference or document that is at fault |
| `StablePort.WaitForStablePort` | crates/ltbox-device/src/edl.rs:387-447 | for every stream of probes and deadlines the outcome is justified by what was seen, and the wait ends |
| `StablePort.WaitForPair` | crates/ltbox-device/src/edl.rs:429-446 | phase 2 returns the first port seen twice in a row after the change, the first failure, or the timeout |
| `StablePort.OutcomeIsDetermined` | crates/ltbox-device/src/edl.rs:387-447 | the justification leaves one outcome and one number of probes |
| `StablePort.OutcomePromises` | crates/ltbox-device/src/edl.rs:379-447 | a port means all probes, at most six, saw it or the last two did after a change within the first six; fewer than six only after a change or the deadline; an error is the last probe's; no probe follows a tripped deadline |
| `ArbOverlay.TargetsMeetFloors` | crates/ltbox-gui/src/arb_overlay.rs:339-364 | targets are at the floors or above, the request exactly or the least raise of the firmware; refused exactly below a floor, naming the partition, the request and the floor |
| `ArbOverlay.LunForExactly` | crates/ltbox-core/src/partition_lun.rs:27-75 | a LUN is looked up under the lower-case name without one slot suffix in any case; both slots share the entry of their base name |
| `ArbOverlay.ValidatedExactly` | crates/ltbox-gui/src/arb_overlay.rs:395-428 | validation accepts exactly packages whose chains are safe, present and, if protected, placed, and selects the chains with a LUN |
| `ArbOverlay.ChainProblemExactly` | crates/ltbox-gui/src/arb_overlay.rs:401-428 | a chain is handled exactly when its name is plain, its image is there and, if protected, the table has its LUN; the error names the first of these it lacks |
| `ArbOverlay.WorkDir.SelectToResign` | crates/ltbox-gui/src/arb_overlay.rs:400-428 | the loop selects in descriptor order or reports the first chain that cannot be handled |
| `ArbOverlay.SelectedInOrder` | crates/ltbox-gui/src/arb_overlay.rs:417-418 | the chains with a LUN are selected, all of them, in descriptor order |
| `ArbOverlay.BootLastOrders` | crates/ltbox-gui/src/arb_overlay.rs:435-436 | the order is a permutation in which nothing but boot follows boot |
| `ArbOverlay.BootLastIsStable` | crates/ltbox-gui/src/arb_overlay.rs:436 | boot and the other chains each keep their order |
| `ArbOverlay.RebuildReKeysSelected` | crates/ltbox-patch/src/avb.rs:291-383 | a rebuild that is not refused re-keys exactly the chains with a LUN and keeps all else |
| `ArbOverlay.RebuildAcceptsExactly` | crates/ltbox-patch/src/avb.rs:291-383 | the rebuild is refused exactly when a chain without a LUN has the name of one with a LUN, in any case |
| `ArbOverlay.WorkDir.StageImages` | crates/ltbox-gui/src/arb_overlay.rs:437-452 | every chain gets an overlay at its own label, the LUN the table gives that label and its own work file, which holds the payload of its install image under the test key at its target or own index |
| `ArbOverlay.WorkDir.BuildFromImages` | crates/ltbox-gui/src/arb_overlay.rs:369-480 | success means such an overlay for every chain with a LUN, boot behind the others, and the root at `vbmeta_a` behind them all with exactly their descriptors re-keyed; every failure is attributed; an unacceptable package touches no file |
| `ArbOverlay.StagedIsWritten` | crates/ltbox-gui/src/arb_overlay.rs:433-468 | a staged package, spelled out overlay by overlay and descriptor by descriptor |
| `ArbOverlay.WorkDir.BuildForFloors` | crates/ltbox-gui/src/arb_overlay.rs:561-662 | those overlays for the planned targets when an image is below its floor or differs from the request, or when forced; none and no file otherwise; refusals in order, before anything is staged |
| `ArbOverlay.RefusesExactly` | crates/ltbox-gui/src/arb_overlay.rs:582-643 | the builder refuses exactly a missing root, an unsupported layout or package, and a request below a chained floor |
| `ArbOverlay.PlanExactly` | crates/ltbox-gui/src/arb_overlay.rs:600-643 | without a request an overlay is needed exactly when a chained protected image is below its floor, and is planned at the greater of the two; a request is planned as it is, and needs one exactly when it differs from an image |
| `ArbOverlay.BootThenRoot` | crates/ltbox-gui/src/arb_overlay.rs:435-468 | the overlay of boot follows every other chain's, the root follows all, and no selected chain is missing |
| `ArbOverlay.FlashedAt` | crates/ltbox-gui/src/arb_overlay.rs:438-468 | after flashing by name on the LUNs given, a partition holds the root, the last image staged for its label, or what it held |
| `ArbOverlay.FlashedKeysVerify` | crates/ltbox-gui/src/arb_overlay.rs:395-468 | on a device whose partitions are where the static table has them, every chain descriptor of the flashed root names the key that signs the flashed image: the test key where re-signed, the stock key where there is no LUN |
| `ArbOverlay.BootMeetsTarget` | crates/ltbox-gui/src/arb_overlay.rs:438-452 | the flashed boot carries its target index, whatever else is chained |
| `ArbOverlay.SystemIndexFlashed` | crates/ltbox-gui/src/arb_overlay.rs:438-452 | the flashed vbmeta_system carries its target or the own index of the chain, spelled vbmeta_system_a, flashed over it |
| `ArbOverlay.SystemMeetsTargetExactly` | crates/ltbox-gui/src/arb_overlay.rs:438-452 | the flashed vbmeta_system carries its target exactly unless another chain is flashed over it with another index |
| `ArbOverlay.InstallReachesPlan` | crates/ltbox-gui/src/arb_overlay.rs:561-662 | any install, with overlays or without, leaves a device that verifies with each chained protected partition at its planned index |
| `ArbOverlay.InstallVerifiesAndMeetsFloors` | crates/ltbox-gui/src/arb_overlay.rs:561-662 | whatever a package chains, the device verifies; a chained boot is at the requested index or at least the package's and never below its floor; a chained vbmeta_system is at its floor or above exactly when no chain with an image below it is flashed over it |
| `ArbOverlay.FloorsNeverFall` | crates/ltbox-gui/src/arb_overlay.rs:482-662 | over any run of installs the device verifies, and a protected partition's index never falls as long as every install chains it and, for vbmeta_system, flashes nothing below the floor over it |
| `ArbOverlay.UnchainedMayFall` | crates/ltbox-gui/src/arb_overlay.rs:606-641 | an install that does not chain boot may lower its index |
| `ArbOverlay.SharedLabelFalls` | crates/ltbox-gui/src/arb_overlay.rs:385-392 | a package that chains vbmeta_system and, without A/B slots, vbmeta_system_a is staged at the floor 5 and leaves the device at its own index 1 |
| `OperationExecution.StaleWorkersDoNotInterfere` | crates/ltbox-gui/src/operation_execution.rs:35-113 | under any interleaving the application is where it would be without any stale report or completion |
| `OperationExecution.RunShowsItsOwnWorker` | crates/ltbox-gui/src/operation_execution.rs:90-104 | a run shows exactly its own worker's last marker and whether that worker marked writes |
| `OperationExecution.FinishedRunIsKept` | crates/ltbox-gui/src/operation_execution.rs:105-113 | a finished run keeps its write latch and, unless it succeeded, its step, until the next start |
| `OperationExecution.WriteLatchHolds` | crates/ltbox-gui/src/operation_phase.rs:278-286 | the write latch is never cleared within a run or after it |
| `OperationExecution.ShownStepInPlan` | crates/ltbox-gui/src/operation_execution.rs:90-96 | in every reachable state the step shown is an index of the plan shown |
| `OperationExecution.RunIdsIncrease` | crates/ltbox-gui/src/operation_execution.rs:41-59 | later runs have larger identifiers |
| `OperationExecution.RunsAreNumbered` | crates/ltbox-gui/src/operation_execution.rs:41-59 | runs are numbered from one in the order they start |
| `OperationExecution.BoundAtMostOnce` | crates/ltbox-gui/src/operation_execution.rs:64-73 | each run's completion is bound at most once |
| `OperationExecution.BindingReturnsTheRun` | crates/ltbox-gui/src/operation_execution.rs:64-73 | the first binding of a run that lasts returns its number, and a later one nothing |
| `OperationExecution.CompletedAtMostOnce` | crates/ltbox-gui/src/update/mod.rs:74-79 | a run accepts one completion, and a repeated one changes nothing |
| `OperationExecution.Execution.Start` | crates/ltbox-gui/src/operation_execution.rs:35-59 | starting is the start step of the state machine |
| `OperationExecution.Execution.BindCompletion` | crates/ltbox-gui/src/operation_execution.rs:66-73 | binding is the bind step and returns the identifier once |
| `OperationExecution.Execution.CurrentStep` | crates/ltbox-gui/src/operation_execution.rs:90-96 | the step shown by the machine |
| `OperationExecution.Execution.WritesStarted` | crates/ltbox-gui/src/operation_execution.rs:97-104 | the write latch shown by the machine |
| `OperationExecution.Execution.Finish` | crates/ltbox-gui/src/operation_execution.rs:105-113 | finishing is the machine's finish |
| `OperationExecution.PhaseReporter.Marker` | crates/ltbox-gui/src/operation_phase.rs:262-272 | a marker stores its step and names its label |
| `OperationExecution.App.BeginPhased` | crates/ltbox-gui/src/main.rs:2342-2359 | every phased operation starts with a fresh reporter |
| `OperationExecution.App.Complete` | crates/ltbox-gui/src/update/mod.rs:74-79 | a completion with another identifier is dropped; the owner's finishes the run |
| `OperationExecution.App.WorkerMarks` | crates/ltbox-gui/src/operation_phase.rs:262-272 | a worker's marker is a marker step, whichever run its reporter belongs to |
| `OperationExecution.App.WorkerMarksWrites` | crates/ltbox-gui/src/operation_phase.rs:278-286 | a worker's write mark is a write-mark step, whichever run its reporter belongs to |
| `DeviceQueries.OwnedExactly` | crates/ltbox-gui/src/device_queries.rs:134-182 | a reply is accepted exactly when its request is the newest of its kind and nothing has answered, cancelled or disowned it; the poll lease lasts exactly until its own finish |
| `DeviceQueries.AcceptedAtMostOnce` | crates/ltbox-gui/src/device_queries.rs:141-170 | each reply is accepted at most once |
| `DeviceQueries.IdentifiersAreUnique` | crates/ltbox-gui/src/device_queries.rs:126-132 | no two requests of any sort share an identifier |
| `DeviceQueries.OwnsStep` | crates/ltbox-gui/src/device_queries.rs:134-182 | one event changes who owns what only by beginning or ending a request |
| `DeviceQueries.DeviceQueries.FinishLookup` | crates/ltbox-gui/src/device_queries.rs:164-170 | a lookup reply is accepted if and only if its token is pending, and is then removed |
| `DeviceQueries.DeviceQueries.FinishPoll` | crates/ltbox-gui/src/device_queries.rs:141-147 | the lease is released only by its own identifier |
| `DeviceQueries.DeviceQueries.InvalidateContext` | crates/ltbox-gui/src/device_queries.rs:179-182 | lookups and the region probe are disowned, the poll lease is not |
| `DeviceQueries.DeviceQueries.FinishRegion` | crates/ltbox-gui/src/update/flash.rs:44-51 | a region reply is accepted if and only if it is the pending one |
| `DeviceSnapshot.TextsAreLastSeen` | crates/ltbox-gui/src/device_snapshot.rs:67-101 | every text field is its last nonempty observation since the last identity reset |
| `DeviceSnapshot.OneSerialPerIdentity` | crates/ltbox-gui/src/device_snapshot.rs:53-69 | all serials observed since that reset are the one shown |
| `DeviceSnapshot.FreshIsLatestPoll` | crates/ltbox-gui/src/device_snapshot.rs:70-108 | the flags mark exactly what the latest poll supplied |
| `DeviceSnapshot.FreshTextIsObserved` | crates/ltbox-gui/src/device_snapshot.rs:96-101 | a fresh field shows what that poll supplied |
| `DeviceSnapshot.LatestPollShown` | crates/ltbox-gui/src/device_snapshot.rs:67-111 | connection, user-space mode and platform are the latest poll's, and without a device nothing is left |
| `DeviceSnapshot.FloorsAreFromThisSession` | crates/ltbox-gui/src/device_snapshot.rs:106-111 | stored floors are exactly those supplied in the Fastboot session that has lasted since |
| `DeviceSnapshot.StoredFloorsMeanFastboot` | crates/ltbox-gui/src/device_snapshot.rs:106-111 | stored floors always mean Fastboot if and only if connected polls carry them only there |
| `DeviceSnapshot.ChangeIsWhatChanged` | crates/ltbox-gui/src/device_snapshot.rs:52-66 | the reported change is the change of connection and serial that happened |
| `DeviceSnapshot.DeviceSnapshot.Apply` | crates/ltbox-gui/src/device_snapshot.rs:51-113 | the in-place merge is the specified one, with its change |
| `DeviceSnapshot.DeviceSnapshot.MergeTexts` | crates/ltbox-gui/src/device_snapshot.rs:96-101 | the loop overwrites and flags exactly the observed fields |
| `Migration.FileSystem.Migrate` | crates/ltbox-core/src/app_paths.rs:294-340 | with any steps failing, every original is whole at its source or destination and nothing that existed in the data tree changes; no failure means every item to be moved is whole at its destination and gone from its source, unless an earlier one took the place; nothing fails when every parent is made and every rename succeeds |
| `Migration.FileSystem.MigrateTwice` | crates/ltbox-core/src/app_paths.rs:342-344 | a second pass after one without failures changes nothing |
| `Migration.FileSystem.MigrateOne` | crates/ltbox-core/src/app_paths.rs:311-338 | one candidate changes only its own two places; when not reported as failed its destination changed exactly if it was to be moved, and then it is whole there and gone from its source |
| `Migration.FileSystem.CopyFallback` | crates/ltbox-core/src/app_paths.rs:266-291 | a failed copy leaves the source whole, a copy that succeeds makes the destination whole before the source is deleted |
| `Migration.CopyEntry` | crates/ltbox-core/src/app_paths.rs:234-253 | a copy that succeeds is the whole tree |
| `Migration.MovesConserves` | crates/ltbox-core/src/app_paths.rs:294-340 | one candidate's move keeps every original of every candidate |
| `Migration.DestinationsAreDistinct` | crates/ltbox-core/src/app_paths.rs:216-231 | two entries of the legacy root never share a destination |
| `Migration.DestinationsAre` | crates/ltbox-core/src/app_paths.rs:216-231 | `work_` and `output_` directories go under `work` and `outputs` by their slug, `backup_` ones under `backups` by name, the key file under `adb` |
| `Migration.MovesNothingElse` | crates/ltbox-core/src/app_paths.rs:216-231 | no other entry of the root has a destination |
| `Migration.CandidatesAre` | crates/ltbox-core/src/app_paths.rs:299-308 | the key file is considered first, then each listed directory in order |
| `Migration.KeyFileSharesExactly` | crates/ltbox-core/src/app_paths.rs:216-220 | the key file shares its destination exactly with an entry `adbkey` of a root called `adb` |
| `Migration.DanglingLinkIsNotProtected` | crates/ltbox-core/src/app_paths.rs:203-211 | a destination that is a dangling link is decided as absent, and the step contract lets it change |
| `Migration.DanglingLinkIsReplaced` | crates/ltbox-core/src/app_paths.rs:312-331 | run on that input with its rename succeeding, the mover puts the whole item where the link was |
| `Base64.Reveal` | crates/ltbox-core/src/obf.rs:19-36 | filtering, chunking and shifting compute the decoding specified |
| `Base64.AlphabetIs` | crates/ltbox-core/src/obf.rs:7 | the alphabet, symbol by symbol |
| `Base64.GroupIs` | crates/ltbox-core/src/obf.rs:25-34 | the encoding of one to three bytes is their bits six at a time, the highest first, padded to four symbols |
| `Base64.IgnoredAre` | crates/ltbox-core/src/obf.rs:20-23 | padding, blank, tab, line feed, form feed and carriage return are ignored, and nothing else |
| `Base64.RevealChunk` | crates/ltbox-core/src/obf.rs:25-35 | a chunk of n symbols gives its n - 1 bytes or meets a byte outside the alphabet |
| `Base64.DecodesExactly` | crates/ltbox-core/src/obf.rs:9-36 | decoding succeeds exactly on alphabet bytes that leave no single one over, and with the length stated |
| `Base64.RoundTrip` | crates/ltbox-core/src/obf.rs:16-36 | any spelling of the RFC 4648 section 4 encoding of any bytes decodes to them |
| `Base64.EncodingSpells` | crates/ltbox-core/src/obf.rs:20-23 | the padded encoding is a spelling, and padding or whitespace anywhere changes nothing |
| `Base64.EncodeInverts` | crates/ltbox-core/src/obf.rs:25-36 | encoding a decoding gives the text back exactly when no stray bits were set |
| `Container.Pbkdf1` | crates/ltbox-core/src/crypto.rs:20-34 | the loop computes the derived key of section 5.1 of RFC 8018 |
| `Container.KeyIs` | crates/ltbox-core/src/crypto.rs:14-49 | the key is the bytes `OSD` and the salt hashed a thousand times |
| `Container.Decrypt` | crates/ltbox-core/src/crypto.rs:37-113 | the body is returned exactly for containers; otherwise the first failed check is named |
| `Container.CheckedExactly` | crates/ltbox-core/src/crypto.rs:58-108 | the checks accept exactly size, signature, body and hash with any tail, in bounds for every header |
| `Container.ContainerIs` | crates/ltbox-core/src/crypto.rs:37-113 | a container byte by byte: vector, salt and blocks that decrypt under that key to size, literal signature, body and hash |
| `Container.BodyIsUnique` | crates/ltbox-core/src/crypto.rs:58-108 | a container holds one body |
| `Container.PackIsContainer` | crates/ltbox-core/src/crypto.rs:3-5 | packing any body under any vector, salt and tail makes a container of it |
| `Container.PackThenDecrypt` | crates/ltbox-core/src/crypto.rs:37-113 | decrypting what was packed gives the body |
| `Container.SizeHeader` | crates/ltbox-core/src/crypto.rs:69-86 | the signed little-endian header is a size exactly when it encodes it |
| `RecentPaths.RecentIsNewestThree` | crates/ltbox-gui/src/settings_store.rs:84-95 | after any pushes the bounded list is the first three distinct nonempty paths, newest first, or all of them when there are fewer |
| `RecentPaths.NewestFirstMeans` | crates/ltbox-gui/src/settings_store.rs:84-95 | the unbounded list holds each nonempty path once, the more recently pushed in front |
| `RecentPaths.PushRefines` | crates/ltbox-gui/src/settings_store.rs:84-95 | pushing on the first three entries is pushing on all and keeping three |
| `RecentPaths.PushFrontDedup` | crates/ltbox-gui/src/settings_store.rs:84-95 | the stored list is pushed and cut, and true means it changed |
| `RecentPaths.RecentPaths.Push` | crates/ltbox-gui/src/settings_store.rs:52-58 | only the list of the kind changes, and true means it did |
| `RecentPaths.RecentPaths.Recents` | crates/ltbox-gui/src/settings_store.rs:60-63 | a kind shows the three newest distinct paths pushed to it |
| `RecentPaths.RecentPaths.MigrateLegacy` | crates/ltbox-gui/src/settings_store.rs:73-82 | the legacy arrays are pushed once; a second migration changes nothing |
| `BackupDir.ReservationsAreExclusive` | crates/ltbox-gui/src/backup.rs:58-73 | under every interleaving returned directories are pairwise distinct and new, and earlier ones stay |
| `BackupDir.ReservesWithinBound` | crates/ltbox-gui/src/backup.rs:59-71 | with at most k candidate names ever taken a worker succeeds within k + 1 attempts |
| `BackupDir.AttemptsAreBounded` | crates/ltbox-gui/src/backup.rs:59-70 | a worker has failed at most as often as its names are taken |
| `BackupDir.CandidatesAreDistinct` | crates/ltbox-gui/src/backup.rs:60-64 | different attempts try different names |
| `BackupDir.CandidateIs` | crates/ltbox-gui/src/backup.rs:60-64 | the first attempt takes the stem, a later one the stem, an underscore and its number from 2 |
| `BackupDir.BackupRoot.Reserve` | crates/ltbox-gui/src/backup.rs:49-73 | with others creating directories between attempts, the first free candidate under the operation's parent is created and returned |
| `BackupDir.PathComponentIsSafe` | crates/ltbox-gui/src/backup.rs:12-29 | a component is nonempty, of safe characters, and sanitising it again changes nothing |
| `BackupDir.PathComponentIs` | crates/ltbox-gui/src/backup.rs:12-29 | the trimmed value with every character but letters, digits, `-` and `_` replaced, or the fallback when only underscores would be left |
| `TokenMatch.TokenMatch` | crates/ltbox-core/src/model.rs:61-79 | true exactly when some occurrence, overlapping ones included, has no alphanumeric neighbour; the search ends |
| `TokenMatch.FingerprintModelMatch` | crates/ltbox-core/src/model.rs:43-59 | a fingerprint matches a model by its own token or its equivalent's |
| `TokenMatch.EquivalentModelsMatchAlike` | crates/ltbox-core/src/model.rs:43-59 | both members of an equivalent pair match the same fingerprints |
| `TokenMatch.ModelsMatchAs` | crates/ltbox-core/src/model.rs:43-59 | TB320FC and LAVIETab9QHD1 match by either token, TB376FC and TB390FU by either, every other model by its own alone |
| `TokenMatch.TokenStands` | crates/ltbox-core/src/model.rs:61-79 | a model between ends of the text or characters that are not alphanumeric is a token |
| `TokenMatch.SuffixedModelIsNoToken` | crates/ltbox-core/src/model.rs:38-42 | an alphanumeric model with an alphanumeric suffix is not matched as the model |

## Left out

- Transports and platform code (USB, serial, ADB, Fastboot, qdl, SetupAPI, drivers), network clients, views, wizard state and workers: foreign calls or user interface.
- XML, GPT and AVB parsing, AES, SHA-256 and RSA: the model starts from parsed nodes, entries and AVB metadata; ciphers and hashes are parameters.
- Progress messages, logs and translated labels.
- A legacy root that is the data root, directories above the moved items, unmapped entries, and errors of `exists()`, which would count as absence: the mover's two trees hold only the places it maps.
- The slugs `.` and `..` in legacy directory names, which the file systems the mover runs on do not allow.
- The file system's case folding and relative links that dangle once moved.
- `OperationExecution` operation kinds, views and `set_completed_step`: the first two only label a run, the last overwrites the step of a finished run.
- `EdlStorage.EdlSession.FlashPartition`: what a failed program command leaves in the named sectors is arbitrary, because the device decides.
- `EdlStorage` sector size is one constant, and the storage sizes negotiated with the device are not part of this model.
- Progress of a program command in chunks: a command is one step of the trace.
- Firmware file names beyond ASCII, whose lower-casing is Unicode's.
- `Base64.Reveal`: does not model the final check that the bytes are UTF-8.
- `Container.Decrypt`: does not model reading the input and writing the output file.
- Models that are not ASCII in `TokenMatch`: the source would slice inside a character.
- `TokenMatch` on bytes: it is stated on characters, which agree with bytes for ASCII models in UTF-8 text.
- `ArbOverlay` reading the floors from the active slot of a connected device: the floors are the indices of the device as it was.
- The entries of the static LUN table: the overlay theorems hold for any table that agrees with the device.
- `classify_fastboot_rollback_floors`, `detect_arb_run`, `poll_active_slot` and the EDL transitions.
- Date arithmetic outside 32-bit years, and a GPT entry of all 2^64 sectors, beyond the exact conditions stated.
