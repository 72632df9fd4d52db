# beskar7-inspector: a verified model

`beskar7-inspector` is the init process of a provisioning ramdisk. It selects a disk, streams a
digest-pinned image onto it, makes the disk bootable under UEFI, injects a per-host configuration and
reboots. This project models the parts of it that carry a protocol, a parser or a graph argument, and
proves what they are for.

| area | files |
|---|---|
| UEFI boot-entry registration | `device_path.dfy`, `load_option.dfy`, `boot_order.dfy`, `boot_entries.dfy`, `boot_runs.dfy` |
| ESP fallback transaction | `esp_volume.dfy`, `startup_script.dfy`, `esp_fallback.dfy`, `esp_deploy.dfy`, `esp_safety.dfy`, `esp_runs.dfy` |
| what the fallback script does | `shell.dfy`, `boot_script.dfy` |
| private mounts | `private_mount.dfy` |
| disk selection and self-clobber resolution | `block_graph.dfy`, `self_clobber.dfy`, `target_disk.dfy` |
| SMBIOS, GPT and DHCP parsers, DHCP exchange | `smbios.dfy`, `gpt.dfy`, `dhcp_options.dfy`, `dhcp_exchange.dfy`, `netmask.dfy` |
| digest gate | `digest.dfy`, `image_stream.dfy`, `image_write.dfy` |
| callback client and bootstrap poll | `callback_client.dfy`, `bootstrap_poll.dfy` |
| the whole run | `provision_run.dfy`, `inspector_run.dfy` |
| shared | `bytes.dfy`, `seqs.dfy`, `powers.dfy`, `wrappers.dfy` |

`dafny verify dfyconfig.toml` checks everything.

## How it is modelled

Code that works step by step is a method over a mutable class: the variable store, the ESP volume, the
host with its mounts, the reader and the sink, the disk, the socket, the wire, the walk over `slaves/`,
and the machine of a whole run. Every operation of such a class draws its outcome from an oracle that
is an arbitrary function of how many operations went before, and on the ESP also of the operation, so a
theorem about a method is a theorem about every pattern of failures. Each method is proved equal to a
function of its inputs, or to a relation between the old and the new state, and what the program
promises is proved about those.

The ESP volume keeps a ghost history of the tree after each change. `EspDeploy.WriteEspFiles` states
that every state in it satisfies `Passes` and that the run is `Ended`: how far it got, which operation
failed, and what is left. The lemmas of `EspSafety` draw the promises from that, and `EspRuns` holds runs
that show where the promises end.

What the rendered fallback script does is stated by its meaning: `Shell` is a small reading of the UEFI
Shell's script language, from text to the files started, and `BootScript` runs the script in it.

Wherever a byte layout or a table of numbers decides, a lemma states it in raw bytes, attributes or
numbers, apart from the functions that read them.

Assumptions taken over from the program's environment: a rename is atomic; operations take effect in
program order; a lazy detach of a mount succeeds; `Boot####` variables are named in uppercase hex, so
that no two names differ only in case; device failures are `EIO`, `ENOSPC` or `EROFS`.

## Where the code falls short of its documentation

The code is modelled as it is. For each of these the exact condition, or a concrete state, is proved.

* `NotWritten` is documented as the ESP left as it was, and a failure in steps 2 and 3 likewise. A failed
  run leaves every file as it was exactly when it stopped in the scan, or was undone with no file standing
  at the paths it removes, or yielded to an image script and stopped, counted in operations, before its
  first removal; never behind the switch (`EspSafety.FailedUnchangedIff`). A partition that is full when the directories are flushed shows
  it (`EspRuns.NotWrittenAfterTheSwitch`).
* `is_file` answers false when the metadata cannot be read, so the scan misses that script. A script of the
  image stays as it is in every state but for its root script, missed, behind the switch
  (`EspSafety.ImageScriptKept`, `EspRuns.ImageScriptOverwritten`). A root script of ours, missed, outlives
  its marker in the image-script branch (`EspSafety.YieldedRootScript`, `EspRuns.OurScriptOrphaned`). A
  script of ours outside the root outlives every deploy exactly when all of them missed it, and a deploy
  does not report a replacement exactly when it missed all that stood (`EspSafety.RedeploysConverge`).
* `collect_physical` finds everything reachable when no simple path has more than fifteen edges. On
  stacks of single devices that bound is exact (`SelfClobber.ChainCollectedIff`). A partition's parent is
  inserted without looking at its own slaves: for a partition leaf nothing underneath is missed exactly
  when the parent has none (`SelfClobber.PartitionLeafIff`).
* The size of a disk is read as sectors times 512 in 64-bit arithmetic, which is true exactly below
  2^64 bytes (`TargetDisk.SizeIsTrueIff`). The model wraps, as a release build does.
* `stream_verify` with the largest bound there is judges a longer body by its first 2^64 - 1 bytes
  (`ImageStream.AcceptedIffGenuine`).
* The poll budget counts the intervals between polls only. A server that never answers makes the host sleep
  longer than the whole budget for exactly the budgets in `BootstrapPoll.SilenceOutlastsBudgetIff`, the
  default one among them.
* The string set of an SMBIOS structure is read back exactly when its strings are NUL-free, none but the
  first is empty, and it is not one empty string alone; an encoded structure survives exactly when its
  formatted area also has at most 251 bytes (`Smbios.StructureRoundTripIff`).

## Model

| member | source | states |
|---|---|---|
| DevicePath.DevicePathNodes | src/efiboot.rs:543-556 | the cursor loop yields the nodes up to End-Entire or the first malformed one |
| DevicePath.NodesInvertEncode | src/efiboot.rs:543-556 | any well-formed node list followed by End-Entire is returned, whatever bytes follow |
| DevicePath.NodesArePrefix | src/efiboot.rs:543-556 | on any bytes the nodes returned are well-formed and encode to exactly the bytes walked over |
| DevicePath.HdRoundTrip | src/efiboot.rs:488-505 | the hard-drive node written for any GPT entry reads back as that entry, saturated size included |
| DevicePath.HdFilePathRoundTrip | src/efiboot.rs:212-254 | from the bytes of the path we write: its first GPT node matches the entry, its loader is the normalised loader |
| DevicePath.LoaderPathOfBytes | src/efiboot.rs:232-254 | from the bytes of any firmware-style path, the loader is the joined components of the texts behind the partition node |
| DevicePath.LoaderPathIgnoresSplit | src/efiboot.rs:232-254 | cutting a path across File nodes at a separator does not change the loader |
| DevicePath.ComponentsAtSeparator | src/efiboot.rs:232-254 | components split at any separator, doubled ones included |
| DevicePath.HdIsIff | src/efiboot.rs:190-199 | in bytes: which nodes are GPT hard-drive nodes, and that one matches exactly the partition whose number, first block, saturated count of blocks and GUID it carries |
| DevicePath.LeadsToIff | src/efiboot.rs:211-226 | the first such node of a path is the one that counts |
| DevicePath.LoaderPathIs | src/efiboot.rs:232-254 | on any nodes: the texts of the file nodes right behind the first hard-drive node, joined; none without such nodes |
| DevicePath.IsNetworkIff | src/efiboot.rs:557-563 | a network path is one with a messaging node of subtype 11, 12, 13 or 24 |
| DevicePath.Ucs2RoundTrip | src/efiboot.rs:469-484 | NUL-free text survives encoding, whatever follows its terminator |
| LoadOptions.ParseLoadOption | src/efiboot.rs:520-539 | the cursor parse is the decoding function on every buffer, truncated ones included |
| LoadOptions.FlagsFromBytes | src/efiboot.rs:200-209 | in the stored bytes: the active bit and the category decide what the firmware boots on its own |
| LoadOptions.LoadOptionRoundTrip | src/efiboot.rs:509-539 | a load option survives encoding exactly when its text is NUL-free and its path is under 64 KiB |
| BootOrders.BootOrderRoundTrip | src/efiboot.rs:453-466 | every order survives encoding |
| BootOrders.BootOrderRoundTripBytes | src/efiboot.rs:453-466 | every value that parses is the encoding of what it parsed to |
| BootOrders.PlacedKeepsOthers | src/efiboot.rs:433-450 | the new order holds the entry once and leaves all others in their order |
| BootOrders.PlacedAmongBootable | src/efiboot.rs:433-450 | among entries the firmware boots, counting the placed one: the longest leading network run, the entry, the rest |
| BootOrders.PlacementIdempotent | src/efiboot.rs:433-450 | placing twice is placing once |
| BootOrders.PlacementIgnoresSelf | src/efiboot.rs:433-450 | placement depends on the other entries only |
| BootEntries.BootVarNameRoundTrip | src/efiboot.rs:383-395 | the name of every number parses back to it |
| BootEntries.NamedIff | src/efiboot.rs:387-395 | a name is that of a number exactly when it is `Boot` and its four hex digits, in either case |
| BootEntries.ReadBootEntries | src/efiboot.rs:359-380 | without a read error, exactly the well-formed options and exactly the numbers in use |
| BootEntries.MinNumberIsLeast | src/efiboot.rs:399-421 | choosing from the entries read is choosing the least number in the NVRAM that qualifies |
| BootEntries.FreeNumberIsLeast | src/efiboot.rs:424-426 | the free number is the least one unused, and there is none exactly when all are used |
| BootEntries.EnsureIn | src/efiboot.rs:298-354 | without faults the planned result; on success exactly the planned store and writes; after a failed order write exactly the entry; else nothing changed; on any outcome one step of the runs that growth is bounded over |
| BootRuns.WrittenReadsBack | src/efiboot.rs:320-328 | from bytes: the entry written is ours, active, bootable, and starts the loader on that partition |
| BootRuns.ReusesIff | src/efiboot.rs:310-312 | in the stored bytes: an entry is reused exactly when its number is the least whose value is active, leads to exactly this partition, and ends there or names the loader but for case |
| BootRuns.OtherDiskNeverReused | src/efiboot.rs:399-411 | the entry written for another partition is never reused for this one |
| BootRuns.OursFromBytes | src/efiboot.rs:415-421 | an entry is ours exactly when the bytes of its description are those of `beskar7` |
| BootRuns.PlacementFromBytes | src/efiboot.rs:338-344 | in the stored bytes: which entries placement counts, and which of them are network entries |
| BootRuns.RemovableIff | src/deploy.rs:123-140 | the two loaders there are, letter by letter |
| BootRuns.ChosenAgain | src/efiboot.rs:310-320 | once written, the entry is what the next run for the partition finds |
| BootRuns.RerunReuses | src/efiboot.rs:298-354 | after a successful run another one reuses the number and writes nothing |
| BootRuns.RetryCompletes | src/efiboot.rs:298-354 | after a failed order write a rerun reaches the store of an uninterrupted run |
| BootRuns.StepGrows | src/efiboot.rs:310-330 | one run adds at most one boot variable, and only when none is ours |
| BootRuns.StepKeepsForeign | src/efiboot.rs:413-426 | one run leaves every boot variable that is not ours, and every other variable, unchanged |
| BootRuns.GrowthIsBounded | src/efiboot.rs:310-330 | over any sequence of runs, interrupted or not, for any partitions, at most one variable is added and only ours are overwritten |
| EspVolume.LowerCharIs | src/deploy.rs:1007-1024 | names compare with the letters A to Z as a to z and every other character as itself |
| EspVolume.Volume.WriteSynced | src/deploy.rs:1041-1049 | create, write, flush: a failure may leave any prefix at that path and changes nothing else |
| EspVolume.Volume.Rename | src/deploy.rs:942-951 | one step, and nothing on failure |
| StartupScript.RenderedIsOurs | src/deploy.rs:802-824 | the rendered script carries our signature and the line that looks for its marker |
| StartupScript.OursIff | src/deploy.rs:967-972 | a script is ours exactly when our signature stands in it |
| StartupScript.IsMarkerIff | src/deploy.rs:976-992 | the markers are the files `<stem>.id` of the marker directory, with a stem |
| BootScript.SearchedPaths | src/deploy.rs:894-908 | the scan looks at `\EFI\tools`, `\EFI\BOOT` and the root, as the Shell reads those names |
| BootScript.ScriptStartsMarkedDisk | src/deploy.rs:797-824 | run by the Shell, for every set of mappings: the loader is started first on the first of FS0 to FS31 that holds the marker, only on mappings that hold it, and nothing behind one that stays; without any nothing is started and the script says so; no variable outlasts the run |
| BootScript.ScriptRuns | src/deploy.rs:802-824 | every event of the run, messages included, mapping by mapping |
| BootScript.DeployedDiskBoots | src/deploy.rs:826-832 | when a partition left by a deploy is mapped and no other holds its marker, the script at its root starts the loader there and nowhere else |
| EspFallback.FindScripts | src/deploy.rs:894-908 | the scan lists, in search order, exactly our scripts and the first script of the image among those whose metadata it could read, and misses exactly the others |
| EspFallback.RemoveMarkers | src/deploy.rs:976-992 | on success exactly the markers but the kept one are gone; a failure is that of one entry of the listing, and exactly the markers listed before it are gone |
| EspFallback.RemoveScripts | src/deploy.rs:910-912 | on success exactly the listed scripts are gone, on a failure exactly those before the one that could not be removed |
| EspFallback.Undo | src/deploy.rs:923-930 | best effort, path by path: one removal for each, touching nothing else, and a removal that meets no fault leaves no file there |
| EspFallback.Stage | src/deploy.rs:919-940 | both temporaries hold their contents, or only they have changed |
| EspFallback.Switch | src/deploy.rs:918-951 | on success the new pair is live and nothing else changed, both files having been flushed under their temporary names before the marker and then the script were renamed; on failure the step and the very operation that failed, only this run's own paths changed, and the removals behind it |
| EspDeploy.CleanUp | src/deploy.rs:953-961 | old markers, then stale scripts outside the root; every state on the way keeps the new pair live, and a failure leaves exactly the removals done before the failing operation |
| EspDeploy.Yield | src/deploy.rs:909-916 | with an image script: our scripts, then all markers, and nothing else; a failure leaves exactly the removals done before the failing operation |
| EspDeploy.WriteEspFiles | src/deploy.rs:885-965 | every intermediate state under every fault pattern; for each outcome how far the run got, what it leaves, and the operation of the reported step that failed |
| EspSafety.RootScriptStaysOk | src/deploy.rs:885-965 | in every intermediate state, failed undos included, a root script of ours names a present marker |
| EspSafety.NewScriptHasMarker | src/deploy.rs:942-951 | a new root script never exists without its marker |
| EspSafety.YieldingScriptsStayOk | src/deploy.rs:909-916 | in every state of the image-script branch each script of ours that was seen names a present marker; one that was not is left alone, and names one exactly until the last is gone |
| EspSafety.YieldedRootScript | src/deploy.rs:1026-1038 | the root script is left without its marker exactly when it is ours and its metadata could not be read |
| EspSafety.ImageScriptKept | src/deploy.rs:894-916 | a script of the image is as it was in every state, but exactly for the root script, missed by the scan, behind the switch |
| EspSafety.MissedImageScriptLost | src/deploy.rs:1026-1038 | a complete deploy that missed an image's root script has overwritten it |
| EspSafety.FailedUnchangedIff | src/deploy.rs:851-965 | a failed run leaves every file as it was exactly when it stopped in the scan, was undone with no file at the paths it removes, or yielded and failed before its first removal, counted in operations; which reported steps say so; and that failing to remove the only marker is enough when there was no script of ours |
| EspSafety.DeployedHoldsExactly | src/deploy.rs:955-965 | a complete deploy leaves its script and its marker, and no other of either exactly when its scan missed no script of ours outside the root |
| EspSafety.RedeploysConverge | src/deploy.rs:885-965 | after any number of deploys exactly the last pair is left; a script of ours outside the root survives exactly when every deploy missed it; a deploy reports a replacement exactly when it saw one of those that stood, from the second on the root script among them |
| EspSafety.FaultFreeRun | src/deploy.rs:885-965 | without a fault a run on an unobstructed partition ends well and misses nothing: it leaves exactly its pair, or an image's script in place exactly when there is one |
| EspSafety.WriteEspFallback | src/deploy.rs:832-862 | the outcome of the transaction with all it states; a full or read-only partition, and nothing else, turns a failure into one reported as not written, which is unchanged exactly when the run was spared |
| EspRuns.NotWrittenAfterTheSwitch | src/deploy.rs:851-862 | a run that cannot flush the root directory for lack of space is reported as not written with the new pair live |
| EspRuns.ImageScriptOverwritten | src/deploy.rs:1026-1038 | a run that cannot read the metadata of the image's root script overwrites it |
| EspRuns.OurScriptOrphaned | src/deploy.rs:1026-1038 | a run that cannot read the metadata of our root script, next to an image script, leaves it without its marker |
| PrivateMount.InjectArtifacts | src/deploy.rs:584-600 | both artifacts with their contents, each created, given its mode, written and flushed with its directories; or the operation that failed, by a fault of the device or by a directory or file in its way, and behind it exactly the two removals, each leaving no file unless it met a fault; nothing else touched |
| PrivateMount.FaultFreeJob | src/deploy.rs:535-601 | when no operation meets a fault and nothing on the partition is in its way, either job succeeds: both artifacts hold their contents, or exactly the pair of the fallback is left unless the image has its own script |
| PrivateMount.CheckLoader | src/deploy.rs:782-795 | the loader is looked for where its name leads; missing, unreadable or behind a file: which error the check gives, and that only a regular file passes |
| PrivateMount.LoaderCheckIff | src/deploy.rs:782-795 | the check passes exactly for a regular file without a fault, fails exactly behind a file, and reports it missing otherwise |
| PrivateMount.MountWriteUnmount | src/deploy.rs:645-698 | the exact events and result of every course of mkdir, mount, job and unmount; unmounted on every return, with what the job left behind |
| PrivateMount.WithPrivateMount | src/deploy.rs:606-640 | the same around the device node, made before and removed after the mount, whatever fails |
| BlockGraph.EdgesAreListed | src/target_disk.rs:435-480 | both graphs as the directory lists them: an entry leads to its slaves, another name rests on the first entry that has it as a subdirectory |
| SelfClobber.StripGivesDiskIff | src/target_disk.rs:504-511 | for both kernel naming schemes, exactly when stripping gives the disk back |
| SelfClobber.ParentWholeDisk | src/target_disk.rs:472-480 | the first entry holding the partition as a subdirectory |
| SelfClobber.Walk.CollectPhysical | src/target_disk.rs:435-466 | the recursion visits what the walk function visits and adds exactly the owners of the newly visited; it ends on every graph |
| SelfClobber.BackingWholeDisks | src/target_disk.rs:417-424 | each leaf is walked afresh, the results are united |
| SelfClobber.CollectedAllIsUnion | src/target_disk.rs:417-424 | a disk is collected exactly when some leaf resolves to it |
| SelfClobber.CollectedSound | src/target_disk.rs:435-466 | on every graph, only owners of reachable devices are collected |
| SelfClobber.VisitsExactlyReachable | src/target_disk.rs:435-466 | without a too long simple path the walk visits exactly what is reachable, cycles included |
| SelfClobber.VisitsReachableIff | src/target_disk.rs:435-454 | on any graph, nothing reachable is left out exactly when no slave of a visited device was refused for good |
| SelfClobber.CollectedIsReachable | src/target_disk.rs:435-466 | then the result is exactly the image of the reachable devices that are built on nothing |
| SelfClobber.ChainCollectedIff | src/target_disk.rs:435-454 | a stack of single devices is resolved exactly when it is at most fifteen edges deep |
| SelfClobber.BackingDisksCollected | src/target_disk.rs:426-466 | no whole disk underneath a leaf escapes, given short paths and parents without slaves |
| SelfClobber.OverExclusionIsStrippedNames | src/target_disk.rs:460-465 | beyond the disks underneath, only stripped names of unknown devices are collected |
| SelfClobber.PartitionLeafIff | src/target_disk.rs:455-460 | for a partition leaf nothing is missed exactly when its parent has no slaves |
| TargetDisk.EnumeratesEntries | src/target_disk.rs:256-283 | exactly one candidate for each entry, with what was read for that name: size, number, flags and device link |
| TargetDisk.EnumeratesInOrder | src/target_disk.rs:256-283 | candidates come in name order |
| TargetDisk.NameLeIff | src/target_disk.rs:259-266 | name order is by the first character that differs, a prefix first |
| TargetDisk.SizeIsTrueIff | src/target_disk.rs:268-272 | the recorded size is the true one exactly below 2^64 bytes |
| TargetDisk.Classify | src/target_disk.rs:287-310 | the most categorical reason that holds against the disk, and none exactly when it is eligible |
| TargetDisk.SmallestIsFirst | src/target_disk.rs:314-325 | the first among the smallest eligible candidates, none exactly when none is eligible |
| TargetDisk.AutoSelectsBest | src/target_disk.rs:221-251 | without a pin: the smallest eligible entry, first in name order among ties, and failure exactly when there is none |
| TargetDisk.PinnedOrRefused | src/target_disk.rs:228-248 | with a pin: that disk or the reason against it, never another disk |
| TargetDisk.SelectedMayBeWritten | src/target_disk.rs:206-310 | in the attributes: what is selected has a device link, is not removable, read-only, in use, empty or too small, and is handed on with its own size and number |
| TargetDisk.SelectsIff | src/target_disk.rs:206-325 | in the attributes: without a pin a disk is selected exactly when some entry may be written, and it is the smallest, first by name among the smallest; a pin exactly when it may be written |
| TargetDisk.SelectionSparesLiveDisks | src/target_disk.rs:206-251 | no disk underneath a mounted or swap device is ever selected |
| Smbios.ParseStringSet | src/smbios.rs:192-232 | the loop is the recursive reading, with the offset reported on truncation |
| Smbios.ParseTable | src/smbios.rs:148-187 | the loop is the recursive reading of the table, errors and offsets included |
| Smbios.ParsedEncodesBack | src/smbios.rs:148-263 | whatever parses is well-formed and encodes to exactly the bytes consumed |
| Smbios.EncodedParses | src/smbios.rs:148-263 | the encoding of any well-formed table, followed by anything that may follow it, parses back to it |
| Smbios.ParsesIffEncoding | src/smbios.rs:148-263 | a buffer parses exactly when it is such an encoding |
| Smbios.StructureRoundTripIff | src/smbios.rs:239-263 | one encoded structure parses back exactly when its length fits and its strings are canonical |
| Gpt.ParseGptHeader | src/esp.rs:235-260 | an accepted layout lies behind the header and describes at most 1 MiB |
| Gpt.HeaderIff | src/esp.rs:235-260 | in bytes: exactly which headers are accepted, for which layout, and which are none |
| Gpt.UsedIff | src/esp.rs:285-288 | a slot is used exactly when its type is not all zero |
| Gpt.EntriesAreSlots | src/esp.rs:282-298 | exactly the used slots come out, each with its own number and fields |
| Gpt.SlotIsSlice | src/esp.rs:282-298 | slot k is bytes k*size to (k+1)*size, as long as the table holds all of it |
| Gpt.EntriesAscend | src/esp.rs:282-298 | numbers strictly ascend |
| Gpt.EntryRoundTrip | src/esp.rs:282-298 | an entry's bytes give back its fields, little-endian |
| Gpt.ReadGptEntries | src/esp.rs:312-337 | exactly what the disk's bytes determine, or a read error; reads stay in bounds and below header plus 1 MiB |
| Gpt.EspEntriesAre | src/esp.rs:264-270 | exactly the entries of type C12A7328-F81F-11D2-BA4B-00A0C93EC93B |
| Gpt.FindEspIn | src/esp.rs:342-370 | the first ESP entry the kernel exposes, NotFound exactly when it exposes none |
| Gpt.LocateEsp | src/esp.rs:303-370 | from table bytes: the lowest-numbered ESP slot the kernel exposes, and none exactly when there is none |
| DhcpOptions.ParseReply | src/net/dhcp.rs:150-201 | the cursor loop is the recursive option walk, on every buffer |
| DhcpOptions.ReplyIff | src/net/dhcp.rs:150-201 | in bytes: a buffer holds a reply exactly when it is whole, is a reply of this exchange with the magic cookie, and its options give a type |
| DhcpOptions.LastOneWins | src/net/dhcp.rs:185-198 | the last type, server, mask and router win, name servers are strung together |
| DhcpOptions.WalkInvertsEncode | src/net/dhcp.rs:168-199 | an encoded option list, pads between, is walked back to itself and what follows |
| DhcpOptions.EndedListRoundTrips | src/net/dhcp.rs:168-199 | END, the end of the buffer or an option cut short ends the list and loses nothing before it |
| DhcpExchange.BuildPacket | src/net/dhcp.rs:97-134 | the packet is the client header, exactly the options asked for, one behind the other, and END; the options walk back to themselves |
| DhcpExchange.Socket.RecvReply | src/net/dhcp.rs:332-362 | the first reply of the wanted type; none only on a timeout or past the deadline, an error only on a hard one |
| DhcpExchange.Acquire | src/net/dhcp.rs:70-94 | at most four rounds, one behind the other; each request carries the first offer of its own round and is sent right behind it; the lease is the first acknowledgement behind that; the exchange number in the bytes of whatever was heard is that of every packet sent; every round before, and all four when it times out, gave up on a timed-out receive or a passed deadline; a socket error is that of the last send or receive |
| DhcpExchange.LeaseFromBytes | src/net/dhcp.rs:84-90 | from the bytes of the acknowledgement: address, last router, all name servers, and the prefix length of the last mask, at most 32 |
| Netmask.Contiguous | src/net.rs:505-514 | leading ones and ones agree at p exactly on the mask of p ones |
| Netmask.PrefixInvertsMask | src/net.rs:505-514 | the prefix length inverts the mask on contiguous masks and is 24 for every other |
| Digest.Parse | src/image.rs:132-146 | a text is accepted exactly when it is the printed form of a digest, and gives that digest |
| Digest.DisplayLayout | src/image.rs:150-156 | the printed form: `sha256:` and two lower-case digits for each byte, the high one first |
| Digest.DisplayInjective | src/image.rs:150-156 | different digests read differently |
| ImageStream.StreamVerify | src/image.rs:258-293 | without I/O errors the verdict, whatever the chunks; the sink gained a first part within the bound; at most bound plus one bytes pulled |
| ImageStream.AcceptedIffGenuine | src/image.rs:258-293 | accepted exactly when the whole body is within the bound and hashes to the digest, but for the largest bound |
| ImageWrite.WriteImage | src/deploy.rs:384-413 | unless reading or writing fails, exactly the planned outcome, gate by gate, success included; nothing is written before all gates are passed, nor past the disk |
| ImageWrite.FetchableIff | src/image.rs:175-190 | exactly the addresses that begin with `http://` or `https://`, in any case, are fetched |
| ImageWrite.EffectiveMaxBytes | src/deploy.rs:419-425 | the bound is the build's or the disk's, and within both when the capacity is known |
| CallbackClient.BackoffDoubles | src/client.rs:348-353 | for every attempt the backoff is min(500 * 2^n, 8000) ms |
| CallbackClient.Wire.RunWithRetries | src/client.rs:375-396 | result, requests and sleep are those of the recursive reading |
| CallbackClient.RetryShape | src/client.rs:375-396 | attempts are made up to the first decisive one, the backoff is slept between two of them and nowhere else |
| CallbackClient.AttemptTable | src/client.rs:282-344 | what every answer to every request comes to, by its number, its length and whether it broke off |
| CallbackClient.RetriesTransient | src/client.rs:282-344 | an attempt is retried exactly on transient errors |
| CallbackClient.CallErrors | src/client.rs:168-189 | one to five requests, at most 7.5 s asleep; exhaustion wraps a transient error, and no bare error is one: no 408, no 429 and no 5xx |
| BootstrapPoll.PollBudgetIterations | src/run.rs:541-545 | the largest number of polls whose intervals fit the budget, within one and the counter's maximum |
| BootstrapPoll.PollBootstrap | src/run.rs:552-571 | result, requests and sleep are those of the recursive reading |
| BootstrapPoll.PollBounds | src/run.rs:552-571 | at most 5P requests and 7500P + 5000(P - 1) ms asleep |
| BootstrapPoll.PollBoundsAreTight | src/run.rs:552-571 | a server that never answers makes both bounds exact |
| BootstrapPoll.SilenceOutlastsBudgetIff | src/run.rs:541-545 | for exactly which budgets such a server makes the host sleep longer than the whole budget |
| BootstrapPoll.ClassifiesDecision | src/run.rs:586-602 | no bare 408, 429 or 5xx is ever classified; what aborts is every other status but 404 and an over-long body |
| BootstrapPoll.PollDecides | src/run.rs:552-571 | the wait ends with the first fetch that decides, or times out when none does |
| BootstrapPoll.PollByReplies | src/run.rs:552-602 | reply by reply: the wait ends with the first that is a whole body, an over-long one, or a status other than a success, 404, 408, 429 and 5xx; when it times out it has seen none |
| ProvisionRun.RebootComesLast | src/run.rs:165-216 | a reboot is last, after write, re-read, ESP step, injection, dropped secret and accepted callback in that order |
| ProvisionRun.SecretIsGated | src/run.rs:252-289 | in a legal trace, which every run is by InspectorRun.Machine.Run, the join secret reaches the disk only after digest gate, re-read and ESP step |
| ProvisionRun.DiskIsGated | src/run.rs:117-289 | in a legal trace, which every run is by InspectorRun.Machine.Run, the disk is touched only in a full run, after report, selection and bootstrap data |
| ProvisionRun.NeverBothCallbacks | src/run.rs:165-244 | no run sends both callbacks |
| ProvisionRun.SucceededNeverFailed | src/run.rs:117-216 | no effect of a run both succeeds and fails |
| InspectorRun.Machine.RegisterBootEntry | src/run.rs:327-335 | only a failure to prepare the ESP counts; a failed boot entry does not stop the deploy |
| InspectorRun.Machine.EspBootEntryStep | src/run.rs:297-314 | the step is done, or skipped on a legacy boot or without an ESP; a hard failure is returned |
| InspectorRun.Machine.RunDeploySteps | src/run.rs:252-289 | the deploy effects follow the rules; an error is that of the step that failed |
| InspectorRun.Machine.ReportProvisionFailure | src/run.rs:234-244 | the callback is attempted and never masks the failure |
| InspectorRun.Machine.Run | src/run.rs:117-216 | every run is legal; every reportable failure behind the accepted report is reported; the secret is dropped on every way out; when everything succeeds the host reboots, or the dry run ends well |

## Left out

- Live syscalls and ioctls: mounts, device nodes, reboot, partition re-read, efivarfs files and their immutable flag are operations that may fail.
- HTTP, TLS and base64: only statuses, transport failures and bodies are seen.
- The Shell beyond the commands of the script: quoting, pipes, redirection and escapes, which plain names do not contain.
- BootScript.ScriptStartsMarkedDisk: asks for a marker and a loader of letters, digits, dot, dash and underscore, the loader also with backslashes, as a random marker and the two loaders are.
- SHA-256 internals: any hash function that can be fed piece by piece.
- UTF-8 and UTF-16 decoding: text is kept as bytes or 16-bit units, so replacement characters and surrogates do not occur.
- `probe`, `report`, `cmdline`, `secret`, `modules` and netlink: field mapping and message building, which would only add easy members.
- The race between NICs and the choice among their leases: thread scheduling, and a choice of two positions.
- Selection by path, `/proc` parsing and `other_disks_with_guid`: string handling around the modelled functions; leaves, pin and partition names are inputs.
- Log lines, error text and failure reasons: errors are told apart, not worded.
- FAT beyond names without case: the spelling a name is stored with is not kept, so the path of an image script left in place is reported folded.
- EspSafety.FailedUnchangedIff: asks that the marker is new, as a random one is; when a removal of the undo failed it says only that nothing but the paths of the undo can differ.
- SelfClobber.CollectedIsReachable: asks for short paths; that this bound is exact is proved for stacks of single devices only. On wider graphs SelfClobber.VisitsReachableIff says exactly when the walk left nothing out, which the order of the listing decides, and a disk left out on one path may be collected on another.
- SelfClobber.BackingDisksCollected: asks for short paths and for parents without slaves, as SelfClobber.ChainCollectedIff and SelfClobber.PartitionLeafIff show to be needed.
- TargetDisk.SelectionSparesLiveDisks: holds of the block directory as it was read; devices changing in between are not modelled.
- BootEntries.ReadBootEntries: asks for canonical variable names, since the parser accepts both cases and the writer emits one; so do BootEntries.EnsureIn, BootRuns.StepGrows, BootRuns.StepKeepsForeign and BootRuns.GrowthIsBounded.
- BootEntries.EnsureIn: asks for canonical variable names, as the UEFI Specification does.
- BootRuns.StepGrows: asks for canonical variable names.
- BootRuns.StepKeepsForeign: asks for canonical variable names.
- BootRuns.GrowthIsBounded: asks for canonical variable names, and takes the same loader in every run, as one build of the program has one.
- PrivateMount.MountWriteUnmount: the closure run inside the mount is one of the two jobs the program has, and a lazy detach is assumed to work.
- InspectorRun.Machine.Run: the zeroing of the secret is an event; memory is not modelled. The selection, the writes and the callbacks are single effects here and are modelled in their own files.
- DhcpExchange.Socket.RecvReply: the deadline is a number of datagrams, as there is no clock.
- Smbios.EncodedParses: the encoder is the one in the source's test support.
