# AppSandbox: verified model of its stateful cores

AppSandbox runs virtual machines on Windows. Most of the program talks to the operating system; this project models the
parts that carry state, loops or arithmetic of their own and proves what they promise. Each module follows one component:

- `SharedNetwork` (with `NetworkUse`), `VmTable`, `NatAddress`, `LineReader`, `ConfigFile`, `ConfigDisk` (with `VmId` and `Decimal`): the core
  (`src/backend_win/asb_core.c`, `src/core/asb_vm_id.h`). Which VM may take the shared network down, the table of records,
  NAT addresses, the output of the image builder, the configuration file and its crash-safe save.
- `Password`: password validation against UTF-16 and UTF-8 (RFC 2781, RFC 3629) and the buffers behind it.
- `ShaCrypt`, `CryptBase64`: the hand-written SHA-512 crypt of `src/backend_win/disk_util.c`, against the steps of
  Drepper's "Unix crypt using SHA-256 and SHA-512"; SHA-512 itself is an arbitrary function.
- `Json`, `JsonText`, `JsonLiteral`: the JSON builder, scanner and decoder of the window bridge, what they make of any flat
  object of RFC 8259, and the string writer of the HTTP API.
- `EventRing`, `Refresh`, `DisplayWindows`: the event stream, the coalescing of UI refreshes and the display windows.
- `FrameBuffer`, `NatSubnet`, `TokenReplace`: frame updates, the choice of a NAT subnet, token substitution.

Where the program updates state in place the model has classes and methods with loops, specified by functions on values;
the concurrent protocols are state machines whose steps are the critical sections and interlocked operations, and every
claim about them is about every interleaving.

## Findings

Places where the code falls short of what one would expect. The code is modelled as it is; each item has a concrete run or
input that shows it, and the exact condition under which the expectation holds.

- A restart that reuses a live handle does not count as a user of its network while it is stopped, so it can run a VM whose
  network has been deleted (`LiveRestartLosesNetwork`). Runs without mode edits are safe exactly when every such restart
  finds its network still there (`LiveRestartsSafeIff`).
- Editing the network mode leaves the recorded id of the old network behind, and a later cleanup looks for users of the new
  mode but deletes the old network: after a failed start (`ModeEditLosesNetwork`), or after a proper exit when the next start
  fails (`CleanExitEditLosesNetwork`). The check "does another VM use the network" and the deletion are separate steps; a VM
  that joins in between loses its network (`SplitCleanupRace`). For both: a step loses a network exactly when it is a cleanup
  that deletes a network which a live VM is on, or a restart without its network (`StepSafeIff`, and for whole runs
  `SafeIffNoHarm`).
- A VM can be started again while the exit handler of its last run is still before its cleanup; the handler then marks the
  new run as cleaned up (`LateCleanupTarnishes`). No VM that is live or restartable is ever marked exactly when no handler
  cleans up a live VM (`UnmarkedIffNeverCleansLive`); no running VM is ever marked exactly when no handler cleans up a running
  VM and no marked VM is booted or restarted on its handle (`UncleanedIffNoTarnish`).
- A start or build that gives up after its network was made leaves that network in being (`RefusedStartLeavesNetwork`); the
  code says that such networks are removed at the next launch. On regular runs no network is ever without a VM that keeps it
  exactly when no start or build gives up as the only one to hold its network (`HeldIffNeverAbandons`).
- The NAT allocator scans and stores without a lock: two VMs that start together can get one address (`TwoScansCollide`).
  The endpoint retry counts the last octet up without looking at the table (`RetryCanCollide`), and keeps addresses distinct
  whatever the host accepts exactly when no other VM holds one of the next ten octets (`RetryKeepsDistinctIff`). In every
  interleaving addresses stay distinct exactly when no step writes one that is held by then (`DistinctIffNoCollision`).
  The comment above the retry says that it changes the address on success; the code leaves the last one tried after a
  failure as well, and so does the model.
- The builder output reader reports the first ERROR line unless that line has no text and a later one has
  (`EmptyErrorIsPassedOver`, `MessageIsFirstErrorIff`); and it gives up exactly when an unterminated run of 4095 bytes is
  followed by another byte (`DoneBehindLongRunIsLost`, `ReadsEverythingIff`).
- Unsigned numbers of 2^31 or more do not survive the configuration file, because it is read with `_wtoi`
  (`LargeNumberIsLost`, `FieldReadsBackIff`).
- The JSON builder leaves control characters other than tab, LF and CR raw, and the decoder refuses them
  (`RawControlIsRefused`, `TextReadsBack`); `append_json_str` has no such gap (`LiteralReadsBack`).
- A refresh whose `PostMessageW` fails can be lost (`FailedPostLoses`): refreshes are kept exactly when each failing post has
  another event, command or call outstanding, or nothing left to send (`KeptIffPostsExcused`). The next event, command or
  call makes good what was lost (`NextEventRestores`).
- The counting pass of `str_replace_all` ends exactly for a token that is not empty (`EmptyTokenStands`, `CountingEndsIff`).

## Model

| member | source | states |
|---|---|---|
| SharedNetwork.RunIsSafe | src/backend_win/asb_core.c:1072-1099 | On every run of starts, builds, stops, exits and deletes in any interleaving (re-created systems, no mode edits, cleanup in one step), a live uncleaned VM that has joined a network still has it |
| SharedNetwork.SafeIffNoHarm | src/backend_win/asb_core.c:1087-1099 | On every run whatsoever, mode edits, live restarts and interrupted cleanups included, this holds at every moment exactly when no step is a cleanup that deletes a network a live VM is on, or a live restart whose network is gone |
| SharedNetwork.StepSafeIff | src/backend_win/asb_core.c:1087-1099 | The same for one step from any safe state |
| SharedNetwork.LiveRestartsSafeIff | src/backend_win/asb_core.c:3951-3971 | Without mode edits and with undisturbed cleanups, runs are safe exactly when every restart on a live handle finds its network |
| SharedNetwork.LiveRestartLosesNetwork | src/backend_win/asb_core.c:3951-3971 | A run from two stopped VMs in which one does not |
| SharedNetwork.StepKeepsInv | src/backend_win/asb_core.c:1211-1313 | As long as nobody edits the mode, each step of every thread, success or failure, keeps this: a network that a VM has joined is recorded for it and is the network of its mode |
| SharedNetwork.LeaveIsHarmless | src/backend_win/asb_core.c:1072-1099 | While they agree, the scan by mode finds every VM that is on the network, so the last leaver takes nothing away |
| SharedNetwork.ModeEditLosesNetwork | src/backend_win/asb_core.c:4313-4323 | A run in which deleting a VM whose mode was edited after a failed start takes the network of another |
| SharedNetwork.CleanExitEditLosesNetwork | src/backend_win/asb_core.c:4313-4323 | A run in which the edit came after a proper exit |
| SharedNetwork.SplitCleanupRace | src/backend_win/asb_core.c:1096-1098 | A run in which a VM joins between the check and the deletion |
| SharedNetwork.ExitOncePerRun | src/backend_win/asb_core.c:989-1016 | Between any two moments of any run at which no new run of the VM begins, at most one exit observer gets through to the cleanup |
| SharedNetwork.WindowCounts | src/backend_win/asb_core.c:1002-1016 | From any state on, exits are bounded by runs begun, and cleanups by exits and requests |
| SharedNetwork.UncleanedIffNoTarnish | src/backend_win/asb_core.c:3918-3939 | On every run, no running VM is marked as cleaned at any moment exactly when no handler cleans up a running VM and no VM already marked is booted or restarted on its handle |
| SharedNetwork.UnmarkedIffNeverCleansLive | src/backend_win/asb_core.c:3905-3939 | On every run, no VM that is live or has an open handle is marked at any moment exactly when no handler reaches its cleanup while the VM is live again |
| SharedNetwork.QuietStartsStayUncleaned | src/backend_win/asb_core.c:3918-3939 | It is so if no start overlaps such a handler |
| SharedNetwork.RunningKeepsNetwork | src/backend_win/asb_core.c:1072-1099 | On every regular run whose starts find no handler leaving, every running VM that has joined a network has it |
| SharedNetwork.LateCleanupTarnishes | src/backend_win/asb_core.c:3905-3916 | A run in which one does |
| NetworkUse.JoinedIsRecorded | src/backend_win/asb_core.c:1711-1722 | On every run whatsoever, started or built, a running VM that has joined a network has that network in its record |
| NetworkUse.LastLeaverFrees | src/backend_win/asb_core.c:1087-1099 | On every undisturbed run, the handler that cleans up a VM on a network takes exactly that network down, and only when no other VM uses its mode |
| NetworkUse.StepHeldIff | src/backend_win/asb_core.c:1211-1313 | A step leaves a network without a VM that keeps it exactly when it is a start or build that gives up as the only holder |
| NetworkUse.HeldIffNeverAbandons | src/backend_win/asb_core.c:1211-1313 | The same for whole regular runs whose starts find no handler leaving |
| NetworkUse.NothingLeftOver | src/backend_win/asb_core.c:1087-1099 | Then, when no VM is live and every handler is through, no network is left |
| NetworkUse.RefusedStartLeavesNetwork | src/backend_win/asb_core.c:1231-1241 | A start that gets its network but no endpoint leaves the network with nobody to hold it |
| NetworkUse.StartEnds | src/backend_win/asb_core.c:1211-1313 | How a whole start ends, whichever of its four calls fail: whether the VM runs, its handle, its mode, the network recorded and joined, and that no other record changes |
| NetworkUse.BuildEnds | src/backend_win/asb_core.c:1599-1741 | The same for a build; without its network the VM runs in mode 0 |
| NetworkUse.LeavingEnds | src/backend_win/asb_core.c:4010-4044 | How an exit, a stop and a delete end: the VM down, closed and cleaned up, its network gone unless used or cleaned up before, all other records as they were |
| SharedNetwork.Host.AnotherVmUsesNetworkMode | src/backend_win/asb_core.c:1072-1085 | The table scan finds a user exactly when some other live VM has the mode |
| SharedNetwork.Host.CleanupNetwork | src/backend_win/asb_core.c:1087-1099 | Deletes the endpoint, and the network unless another uses it; a second call changes nothing |
| SharedNetwork.Host.VmExited | src/backend_win/asb_core.c:989-1066 | Only the observer that clears `running` proceeds; the rest of the state is untouched otherwise |
| SharedNetwork.Host.VmStop | src/backend_win/asb_core.c:4010-4044 | Refused while starting or building; else exactly the stop step and the leaving step |
| SharedNetwork.Host.VmDelete | src/backend_win/asb_core.c:4048-4115 | Refused while starting or building or when the disk folder is unavailable; else the delete step, dropping the record only if the folder could be removed |
| SharedNetwork.Host.VmStart | src/backend_win/asb_core.c:3857-3974 | Refused while starting or building, or when the preparation fails, nothing for a running VM; a closed handle is a start request, taken back if there is no thread, an open one a live restart, or a start request when the system is gone; accepted exactly when the VM is live afterwards, other records untouched |
| VmTable.Table.RemoveRecord | src/backend_win/asb_core.c:168-176 | No record moves: the others keep identity, contents and order, the freed one is zeroed and parked |
| VmTable.ParkedIsPermutation | src/backend_win/asb_core.c:170-173 | The order array stays a permutation of the pool |
| VmTable.Table.IndexOf | src/backend_win/asb_core.c:461-468 | The index of a live record, or -1 exactly for a record that is not live |
| VmTable.Table.FindById | src/backend_win/asb_core.c:470-478 | The lookup: the first live record with the id, or -1 exactly when there is none; id 0 is nobody's |
| VmTable.Table.CreateRecord | src/backend_win/asb_core.c:3466-3470 | Succeeds exactly when there is a record left and the generator delivers an unused id before it fails; the next free record gets the first such id, and no other changes |
| VmTable.Table.MigrateIds | src/backend_win/asb_core.c:863-876 | After a load ids are non-zero and distinct, the first holder of an id keeps it, addresses are untouched, and the result says exactly whether an id changed, so that the file has to be saved; it fails, leaving no VM, exactly when the generator delivers fewer new ids than are needed |
| VmTable.Table.EnsureMac | src/backend_win/asb_core.c:1101-1127 | A configured address is kept; else the first generated one that no other VM has is taken, and it fails exactly when there is none; this is the address step of the runs in `DistinctForEver` |
| VmTable.MacTextValid | src/backend_win/hcn_network.c:453-466 | A generated address passes the check made when the endpoint is created |
| VmTable.MacTextShows | src/backend_win/asb_core.c:1112-1115 | It shows the six bytes in order, two upper-case digits each, the first made local and unicast |
| VmTable.SameTextIff | src/backend_win/asb_core.c:1116 | Addresses are compared up to the case of ASCII letters |
| VmTable.DistinctForEver | src/backend_win/asb_core.c:3466-3470 | Ids and addresses stay pairwise distinct over any sequence of creates, removals and address changes |
| VmTable.RemovedStaysGone | src/backend_win/asb_core.c:168-176 | The id of a removed VM resolves to nothing, whatever is created and removed later, while ids are fresh |
| VmTable.OthersStillFound | src/backend_win/asb_core.c:168-176 | Every other id still resolves to its own record |
| NatAddress.AllocateNatIp | src/backend_win/asb_core.c:1133-1164 | Undisturbed, it succeeds exactly when a pool address is free; an old address in the pool that nobody else holds is kept, else every octet below the one taken is in use |
| NatAddress.NeverExhausted | src/backend_win/asb_core.c:1133-1164 | With at most 32 VMs an address is always free |
| NatAddress.AllocationKeepsDistinct | src/backend_win/asb_core.c:1133-1164 | One undisturbed allocation keeps pool addresses pairwise distinct |
| NatAddress.DistinctIffNoCollision | src/backend_win/asb_core.c:1142-1160 | In every interleaving of scans, stores and retries of all VMs, addresses are distinct at every moment exactly when no step writes one held by then |
| NatAddress.FreeUnlessWritten | src/backend_win/asb_core.c:1142-1160 | The address a scan picks stays free until another VM writes it |
| NatAddress.InTurnStaysDistinct | src/backend_win/asb_core.c:1133-1164 | Any number of allocations one after another keeps addresses distinct |
| NatAddress.TwoScansCollide | src/backend_win/asb_core.c:1142-1160 | Two VMs that scan before either stores get the same address |
| NatAddress.TryEndpoint | src/backend_win/asb_core.c:1175-1199 | Lands on the first octet the host accepts within the bound, or fails when there is none |
| NatAddress.RetryKeepsDistinctIff | src/backend_win/asb_core.c:1189-1197 | After an allocation the retry keeps addresses distinct for every host exactly when no other VM holds one of the next ten octets |
| NatAddress.RetryIsBumps | src/backend_win/asb_core.c:1189-1193 | The retry is that many single steps of the table in which all VMs take turns |
| NatAddress.RetryCanCollide | src/backend_win/asb_core.c:1189-1197 | An allocation followed by a retry that ends on the address of another VM |
| LineReader.ReadOutput | src/backend_win/asb_core.c:1497-1564 | However the stream is split into reads, the lines handled are the non-empty CR/LF-terminated segments of the stream up to the first run that fills the buffer, and the outcome is the fold over them |
| LineReader.SplitBuffer | src/backend_win/asb_core.c:2529-2570 | In-place splitting handles exactly the lines of the buffer and leaves its unterminated rest |
| LineReader.LinesOfSegment | src/backend_win/asb_core.c:1510-1556 | What the lines of a stream are, independently of buffers: leading segment first, empty ones dropped |
| LineReader.ReadsEverythingIff | src/backend_win/asb_core.c:1504-1564 | The whole stream is read exactly when no unterminated run of 4095 bytes has a byte after it |
| LineReader.LongRunStops | src/backend_win/asb_core.c:1504-1564 | A run of 4096 bytes without a terminator ends the loop before any of its bytes is handled, whatever follows |
| LineReader.DoneBehindLongRunIsLost | src/backend_win/asb_core.c:1504-1564 | A stream whose DONE line is not read for that reason |
| LineReader.ReportMeans | src/backend_win/asb_core.c:1516-1550 | Success exactly when the last DONE/ERROR line is DONE; the message is the first non-empty ERROR text |
| LineReader.MessageIsFirstErrorIff | src/backend_win/asb_core.c:1531-1534 | The message is that of the first ERROR line exactly when the line has a text or no later one has |
| LineReader.CStringMeans | src/backend_win/asb_core.c:1533 | The text of a line ends before its first NUL |
| LineReader.EmptyErrorIsPassedOver | src/backend_win/asb_core.c:1531-1534 | A stream in which it is not |
| ConfigFile.ConfigReadsBack | src/backend_win/asb_core.c:620-679 | Reading the printed lines restores settings, templates and all VMs that are not being built, in order |
| ConfigFile.BuiltMeans | src/backend_win/asb_core.c:637-638 | The saved VMs are exactly those not being built, in their order |
| ConfigFile.EveryKeyHasASection | src/backend_win/asb_core.c:620-679 | Every field is saved, with the VM or with the settings |
| ConfigFile.ReadFits | src/backend_win/asb_core.c:744-766 | Whatever the file holds, the tables are never overrun and every record has all its fields |
| ConfigFile.UnknownLineIsIgnored | src/backend_win/asb_core.c:768-842 | A line that is no header and starts with no key of its section changes nothing |
| ConfigFile.TooMany | src/backend_win/asb_core.c:751-766 | One VM too many ends the reading, one template too many is skipped |
| ConfigFile.FieldReadsBackIff | src/backend_win/asb_core.c:791-842 | A written field reads back exactly when it is no unsigned number of 2^31 or more |
| ConfigFile.LargeNumberIsLost | src/backend_win/asb_core.c:799-804 | A number of 2^31 or more reads back as 2^31 - 1 |
| ConfigFile.LongTextIsCut | src/backend_win/asb_core.c:767-792 | Text too long for its field is cut to the most that fits, or ends the process |
| ConfigFile.BlockIsRead | src/backend_win/asb_core.c:741-768 | A printed section adds exactly its record |
| ConfigFile.MatchesOwnKey | src/backend_win/asb_core.c:791-841 | Whatever the value, the chain of comparisons picks the key that was printed |
| ConfigFile.NoHeader | src/backend_win/asb_core.c:741-768 | No printed field can be taken for a section header |
| ConfigDisk.FileReadsBack | src/backend_win/asb_core.c:734-842 | The same through the text of the file and `fgetws` with its 1024-unit buffer |
| ConfigDisk.SavedLinesFit | src/backend_win/asb_core.c:734-739 | No printed line exceeds the reader's buffer or contains a line end |
| ConfigDisk.LinesReadBack | src/backend_win/asb_core.c:734-739 | `fgetws` and the stripping of line ends give back the lines that were written |
| ConfigDisk.Load | src/backend_win/asb_core.c:734-842 | The reading loop computes the fold of the line steps, including the early ends |
| ConfigDisk.Disk.Save | src/backend_win/asb_core.c:596-689 | Whichever operations fail, from creating the temporary file to the rename, the configuration is the old file or the complete new one after every single operation; new exactly when all succeed, which is what is reported; else the temporary file is deleted |
| ConfigDisk.Disk.PrintAll | src/backend_win/asb_core.c:620-679 | The printing loops write exactly the lines of the configuration, skipping VMs being built |
| VmId.ReadsBack | src/core/asb_vm_id.h:19-37 | Every 64-bit id reads back from its text |
| VmId.ParsesOnlyFormatted | src/core/asb_vm_id.h:26-53 | Any accepted text is the text of its id |
| VmId.HexAt | src/core/asb_vm_id.h:19-24 | Each character is the lower-case digit of its weight |
| VmId.EnsureIds | src/core/asb_vm_id.h:68-84 | It succeeds exactly when the generator delivers as many new ids, before it fails, as entries lack one of their own; then all ids are non-zero and distinct; first holders keep theirs in any case; the result says exactly whether an id was replaced |
| VmId.Replaced | src/core/asb_vm_id.h:75-81 | An id unlike every current entry is also unlike every original one, so a replacement never takes the id of a VM still to come |
| Decimal.SignedReadsBack | src/backend_win/asb_core.c:808-819 | A printed number followed by a non-digit reads back through `_wtoi`, saturated |
| Decimal.DigitsMean | src/backend_win/asb_core.c:646-652 | A printed number is its decimal places, the highest first, without a leading zero |
| Decimal.SpacedReadsBack | src/backend_win/asb_core.c:799-804 | `_wtoi` passes over blanks and takes one sign |
| Password.Validate | src/backend_win/asb_core.c:3268-3299 | The verdict of the reference encodings: ill-formed UTF-16 refused, code points and UTF-8 bytes counted exactly |
| Password.WellFormedIff | src/backend_win/asb_core.c:3275-3290 | A string is well-formed exactly when it is the UTF-16 form of some code points |
| Password.DecodeOfEncoded | src/backend_win/asb_core.c:3275-3290 | Decoding inverts the UTF-16 encoding |
| Password.Decode8OfEncoded | src/backend_win/disk_util.c:2157 | The UTF-8 form of any code points decodes to them by the rules of RFC 3629 |
| Password.EncodeOfDecoded8 | src/backend_win/disk_util.c:2157 | Only such forms decode |
| Password.SaltShows | src/backend_win/disk_util.c:2170-2174 | Each salt character is the one that the low six bits of its random byte choose from the alphabet |
| Password.AcceptedLinuxFits | src/backend_win/disk_util.c:2147-2161 | An accepted Linux password fits the conversion buffer, the configuration field and the limits of `sha512_crypt` |
| Password.AcceptedWindowsFits | src/backend_win/disk_util.c:369-396 | An accepted Windows password fits the answer-file buffers, plain and in base 64, and the UTF-8 buffer |
| Password.UnixPasswordHash | src/backend_win/disk_util.c:2147-2180 | Every accepted Linux password is hashed, to the crypt string of its UTF-8 form and the salt |
| ShaCrypt.Sha512Crypt | src/backend_win/disk_util.c:1951-2140 | For keys up to 256 bytes and salts up to 16 the output is the SHA-crypt string of the standard, NUL-terminated within 110 bytes; anything else is refused untouched |
| ShaCrypt.ComputeDigest | src/backend_win/disk_util.c:1971-2096 | The digest equals steps 1-21 of the standard over an arbitrary hash |
| ShaCrypt.FeedBlocks | src/backend_win/disk_util.c:1987-1995 | The block loop feeds exactly key-length bytes of repeated digest B |
| ShaCrypt.FeedBits | src/backend_win/disk_util.c:1997-2004 | The shift loop feeds digest B or the key for each binary digit of the length, and `parts[64]` does not overflow |
| ShaCrypt.Expand | src/backend_win/disk_util.c:2033-2045 | P and S are the cyclic expansions of DP and DS |
| ShaCrypt.MainLoop | src/backend_win/disk_util.c:2085-2096 | 5000 rounds in the order of step 21 |
| ShaCrypt.BitLengthOfShift | src/backend_win/disk_util.c:1997-2004 | The shift loop runs once for each binary digit |
| ShaCrypt.RoundCases | src/backend_win/disk_util.c:2085-2096 | The eight inputs of step 21, written out |
| ShaCrypt.FeedsOfFive | src/backend_win/disk_util.c:1997-2004 | For a key of five bytes step 11 feeds digest B, the key, digest B |
| ShaCrypt.RepeatMeans | src/backend_win/disk_util.c:2006-2032 | Repetition read byte by byte |
| CryptBase64.TailDecodes | src/backend_win/disk_util.c:2108-2129 | The tail is 86 alphabet characters from which every digest byte is recovered |
| CryptBase64.TailInjective | src/backend_win/disk_util.c:2108-2129 | Different digests have different tails |
| CryptBase64.AlphabetIs | src/backend_win/disk_util.c:1931-1933 | The alphabet in its order |
| CryptBase64.GroupHolds | src/backend_win/disk_util.c:2108-2129 | Each digest byte stands in one place of one group and nowhere else |
| CryptBase64.CryptB64 | src/backend_win/disk_util.c:1932-1945 | Writes the low six-bit digits of the 24-bit word, lowest first |
| CryptBase64.EmitTail | src/backend_win/disk_util.c:2108-2131 | The 22 calls write the tail of step 22 |
| Json.TextReadsBack | src/app_win/webview2_bridge.c:505-514 | In any flat object with distinct plain keys a string field reads back its own value if it is clean and is refused otherwise |
| Json.RawControlIsRefused | src/app_win/webview2_bridge.c:467-474 | An object whose string value holds a raw control character: the value is refused |
| Json.NumberReadsBack | src/app_win/webview2_bridge.c:516-523 | An integer field reads back |
| Json.FlagReadsBack | src/app_win/webview2_bridge.c:525-532 | A flag reads back |
| Json.AbsentIsNotFound | src/app_win/webview2_bridge.c:537-566 | A key that is not there is not found, even if a value looks like it |
| Json.FindSkipsValue | src/app_win/webview2_bridge.c:546-552 | The scan passes over any value |
| Json.DecodedEscape | src/app_win/webview2_bridge.c:583-624 | An escaped string decodes to itself exactly when it has no control character but tab, LF and CR |
| JsonText.DecodedIff | src/app_win/webview2_bridge.c:583-624 | The decoder accepts exactly the strings of RFC 8259, section 7, without NUL, and gives what they spell: characters, two-character escapes, and four hexadecimal digits in either case |
| JsonText.UnicodeEscapeDecodes | src/app_win/webview2_bridge.c:596-611 | Every code unit but NUL decodes from its four digits, each in upper or lower case |
| JsonText.MemberReads | src/app_win/webview2_bridge.c:537-644 | In any flat object with distinct plain keys, whatever the blanks and the spelling of its strings, each member reads back its own value, and nothing but a string reads as one |
| JsonText.QuotedNumberReads | src/app_win/webview2_bridge.c:632-634 | A number in quotes reads as a number |
| JsonText.AbsentIsNotFound | src/app_win/webview2_bridge.c:537-561 | A key that is not a member of such an object is not found |
| Json.JsonBuilder.Append | src/app_win/webview2_bridge.c:453-460 | Text is appended as a whole or not at all, and the buffer stays terminated |
| Json.JsonBuilder.AppendEscaped | src/app_win/webview2_bridge.c:462-477 | The escaped text of exactly the characters that start with more than six free units |
| Json.JsonBuilder.TextField | src/app_win/webview2_bridge.c:505-514 | With room the whole field is added; what was there stays in any case |
| Json.JsonBuilder.NumberField | src/app_win/webview2_bridge.c:516-523 | The same for an integer field |
| Json.JsonBuilder.FlagField | src/app_win/webview2_bridge.c:525-532 | The same for a flag |
| Json.WriteObject | src/app_win/webview2_bridge.c:479-532 | Begin, fields and end leave exactly the rendered object in a buffer with four units to spare |
| Json.FindValue | src/app_win/webview2_bridge.c:537-561 | The pointer loops find what the recursive scan finds, or NULL |
| Json.GetString | src/app_win/webview2_bridge.c:568-625 | Succeeds exactly when the value decodes and fits with its NUL; one that is too long leaves its beginning, a refused one a terminated string, and nothing is written if there is no string |
| Json.GetInt | src/app_win/webview2_bridge.c:627-636 | Reads the number at the value, quoted or not |
| Json.HasKey | src/app_win/webview2_bridge.c:563-566 | Whether the scan finds the key |
| Json.GetBool | src/app_win/webview2_bridge.c:638-644 | Reads the flag at the value |
| JsonLiteral.AppendJsonStr | src/app_win/headless.c:201-219 | Nothing is written without room; else only `pos .. r` is written, the result is terminated and is the literal of the characters that start below the limit |
| JsonLiteral.WholeIff | src/app_win/headless.c:207 | Nothing is cut exactly when the last character starts with more than eight bytes left |
| JsonLiteral.LiteralReadsBack | src/app_win/headless.c:207-215 | Every string, control characters included, decodes to itself under the rules of `json_get_string` |
| JsonLiteral.LeftLiteralDecodes | src/app_win/headless.c:205-218 | What is left in the buffer, cut or not, decodes to the characters kept |
| EventRing.Ring.Broadcast | src/app_win/headless.c:431-439 | The ring holds the last 256 events, each at its number modulo 256 |
| EventRing.Ring.Drain | src/app_win/headless.c:477-486 | A client takes the next events of the history, as many as there are up to 64, skipping only what has left the ring; if it is behind it gets further |
| EventRing.EveryClientServed | src/app_win/headless.c:453-508 | On every run each client gets events from its connect point on, strictly increasing, and misses one only after falling more than 256 behind |
| EventRing.StreamsFromConnect | src/app_win/headless.c:469-471 | On every run no event from before the connect reaches a client |
| EventRing.ClientCatchesUp | src/app_win/headless.c:474-486 | From every reachable state four turns without new events bring a client that can be written to up to the newest one, each turn further |
| EventRing.CountIsExact | src/app_win/headless.c:612-628 | The counter is always the number of stream threads plus a spawn in progress |
| EventRing.StopPassesIff | src/app_win/headless.c:1460-1462 | With the server thread gone, the drain passes exactly when no stream thread remains |
| EventRing.StopCompletes | src/app_win/headless.c:1441-1462 | From every reachable state in which it waits, boundedly many steps of the threads let it pass |
| EventRing.StopLeavesNobody | src/app_win/headless.c:1441-1462 | After the drain no stream thread is left, and none appears or writes again |
| Refresh.NoRefreshLost | src/app_win/ui.c:157-164 | In every interleaving an outdated list has a message pending, an event to come, or a command or call that will ask at its end; at rest the lists are those of the core |
| Refresh.NothingSentWhileBusy | src/app_win/ui.c:1585-1591 | While a command or call is active the message handler sends no list |
| Refresh.RunKeepsInv | src/app_win/ui.c:1463-1486 | At most one message is under way and the flag says so; commands and calls exclude one another |
| Refresh.CatchesUp | src/app_win/ui.c:1585-1591 | From every reachable state a bounded number of steps, without new changes, brings the lists up to date |
| Refresh.NextDescends | src/app_win/headless.c:1353-1368 | Each such step is enabled and brings the end nearer |
| Refresh.KeptIffPostsExcused | src/app_win/ui.c:157-164 | On every run, failing posts included, no refresh is ever lost exactly when each failing post has something else outstanding or nothing left to send |
| Refresh.NextEventRestores | src/app_win/ui.c:157-164 | After any run the next event, command or call makes good a refresh that was lost |
| Refresh.FailedPostLoses | src/app_win/ui.c:160-162 | A run in which a failed post leaves the window at rest with an old list |
| DisplayWindows.Windows.Reconcile | src/app_win/ui.c:134-155 | Every window ends at the index of its running VM or is destroyed, once; slots are aligned with the table and ids stay distinct |
| DisplayWindows.HomeIsFree | src/app_win/ui.c:147-149 | No slot is overwritten |
| DisplayWindows.ProgressStep | src/app_win/ui.c:140-151 | One turn of the loop keeps placement and the count of windows |
| DisplayWindows.Windows.ConnectIdd | src/app_win/ui.c:711-727 | Opening a window after a reconcile keeps the slots aligned and destroys the window it replaces |
| FrameBuffer.Display.ApplyFrame | src/backend_win/asb_display.c:293-383 | A frame that fails a check or gets no memory changes nothing; else the picture, black after a change of size, is drawn over by the received rectangles or rows |
| FrameBuffer.Display.CopyRects | src/backend_win/asb_display.c:349-379 | Each pixel comes from the last received rectangle that contains it and has its bytes in the payload, at its place behind those of the earlier ones, and keeps its bytes if there is none |
| FrameBuffer.Display.CopyRows | src/backend_win/asb_display.c:335-347 | A full frame changes exactly the rows present in the payload |
| FrameBuffer.FullFrameCopies | src/backend_win/asb_display.c:335-347 | A payload of the size of the picture, without padding, becomes the picture |
| FrameBuffer.PixelOnTop | src/backend_win/asb_display.c:351-379 | A pixel under a received rectangle comes from the last one, at the place given by the pixels of the frame in earlier rectangles, rows and columns |
| FrameBuffer.PixelKept | src/backend_win/asb_display.c:351-379 | A pixel that no received rectangle within the payload contains keeps its bytes |
| FrameBuffer.ClipKeepsPixels | src/backend_win/asb_display.c:359-362 | Clipping loses no pixel of the frame and adds none |
| FrameBuffer.EmptyIff | src/backend_win/asb_display.c:363-364 | A rectangle is skipped exactly when it holds no pixel of the frame |
| FrameBuffer.BlitsFit | src/backend_win/asb_display.c:359-371 | Applied rectangles lie inside the frame and the payload, for any signed input |
| FrameBuffer.NoWrapAround | src/backend_win/asb_display.c:293-296 | The 32-bit products do not wrap for accepted headers |
| NatSubnet.OverlapMeans | src/backend_win/hcn_network.c:233-242 | Blocks overlap exactly when they share an address, and exactly when one contains the other, for all prefixes 0 to 32 |
| NatSubnet.BlockMeans | src/backend_win/hcn_network.c:276-306 | The addresses of a candidate are those with its three octets, in their order |
| NatSubnet.NatBase.PickOnce | src/backend_win/hcn_network.c:276-306 | The first candidate free of every subnet in use, the first one if there is none, and never a second choice |
| TokenReplace.StrReplaceAll | src/backend_win/d3dlayers.c:145-160 | The result is the source with each leftmost non-overlapping occurrence replaced, and the buffer suffices |
| TokenReplace.PiecesJoinBack | src/backend_win/d3dlayers.c:145-160 | The cuts lose nothing of the source |
| TokenReplace.PiecesHoldNoToken | src/backend_win/d3dlayers.c:145-160 | No occurrence is left inside a piece |
| TokenReplace.ReplaceStep | src/backend_win/d3dlayers.c:154-157 | The greedy copying step agrees with the `strstr` cuts, so both passes see the same occurrences |
| TokenReplace.ReplacementFits | src/backend_win/d3dlayers.c:149-150 | The allocation of the counting pass holds the copy |
| TokenReplace.CountingEndsIff | src/backend_win/d3dlayers.c:149 | The counting pass ends exactly for a token that is not empty |
| TokenReplace.EmptyTokenStands | src/backend_win/d3dlayers.c:149 | With an empty token it stands still after any number of turns |

## Left out

- HCS, HCN, VirtDisk, WMI, socket and COM calls: only success or failure and the effect on networks and endpoints are modelled; `HcnDelete*` is taken to succeed.
- `snapshot.c`, `vm_agent.c`, the event registry and the macOS implementation: not part of this model.
- HTTP routing, the tray menu, prerequisite checks, GPU broker, driver staging, answer-file templates, locale tables, `web/app.js`: plumbing or lookup tables.
- Out-of-memory paths (except the frame buffer), timeouts, randomness (arbitrary values, fresh ids where stated) and the wrap-around of the event number.
- SharedNetwork.RunIsSafe: leaves out mode edits, restarts on a live handle and an interleaving inside the cleanup, where it is false; `SafeIffNoHarm` covers them. Only one handler of a VM is inside its cleanup at a time, and the synchronous end of `asb_vm_create` (3715-3853) is not modelled.
- NetworkUse.NothingLeftOver: for runs from a state in which nothing runs, with re-created systems, no mode edits and cleanups in one step. Networks that a VM found running at launch was on, and removal of stale ones at launch, are left out.
- SharedNetwork.Host.VmStart: what choosing a snapshot or branch does to the disk is left out, only its success matters.
- SharedNetwork.Host.VmDelete: a running VM counts as stopped once it has been terminated.
- NatAddress.AllocateNatIp: addresses are octets; printing them and reading them with `sscanf_s` is not modelled.
- NatSubnet.NatBase.PickOnce: the collection of subnets from the host adapters is a parameter.
- LineReader.ReadOutput: the side effects of PROGRESS, LANG and STATUS lines and the exit-code check after the loop are not modelled; the code-page conversion is a parameter.
- ConfigFile.ConfigReadsBack: a record is a map from keys to values instead of a C struct; strings hold no line end. The UTF-8 file encoding, Ctrl-Z, and the CRLF translation of text mode are left out, and `NatIp` is taken as text cut to its field instead of a byte conversion.
- ConfigDisk.Disk.PrintBlock: one loop over the keys stands for the list of `fwprintf` calls.
- ConfigDisk.Disk.Save: a failing write is one that sets the stream's error flag; finding the directory in the path is left out.
- ShaCrypt.Sha512OneShot: the parts are byte strings; the aliasing of the `parts[]` pointers with the digest buffer is covered only in that the digest is overwritten after the hash is taken. BCrypt failures are left out.
- Password.Validate: the operating system name is a parameter saying Linux or not.
- Password.UnixPasswordHash: `WideCharToMultiByte` is a function that replaces unpaired surrogates by U+FFFD.
- Json.WriteObject: stands for the call sequences of `ui.c`; nested objects and arrays are left out, since the scanner matches keys at any depth.
- JsonText.MemberReads: keys hold no quote or backslash, since the scanner compares them as written; nested values, `null` and fractions are left out.
- Json.JsonBuilder.NumberField: a field longer than its 32-unit local buffer ends the process in the program and is excluded.
- JsonLiteral.AppendJsonStr: works on bytes; a cut may fall inside a UTF-8 sequence.
- EventRing.EveryClientServed: one start and stop of the API; formatting of an event into its 2048-byte frame is left out.
- Refresh.NoRefreshLost: for posts that succeed; `KeptIffPostsExcused` is about all of them. What a list contains is its version number.
- DisplayWindows.Windows.Reconcile: the table does not change during the call.
- FrameBuffer.Display.ApplyFrame: receiving the header, rectangles and payload, and skipping cursor messages, are left out.
- TokenReplace.StrReplaceAll: allocation succeeds, and the token is not empty; for an empty one there is no result (`CountingEndsIff`).
- VmTable.Table.MigrateIds: the save that follows (`Disk.Save`), whose failure also leaves no VM, is not part of it; addresses that a hand-edited file repeats stay as they are, so `DistinctForEver` is about tables whose file was not edited that way.
- The state files beside the disks are not part of this model.
