# Verified model of the iPXE-ISOboot network boot server

iPXE-ISOboot boots machines over the network: a ProxyDHCP server tells PXE clients where their boot
file is, a read-only TFTP server hands it out, uploaded ISO images are opened and classified, and a
GRUB menu is generated from stored entries. This project models those components in Dafny and proves
what they keep, over every input and every run.

`dafny verify dfyconfig.toml` checks everything. The modules, by component:

| component | modules |
|---|---|
| TFTP read session | `TftpServer` (step machine), `TftpSession` (the loops), `TftpOptions`, `TftpPath`, `TftpProtocol` (server, receiver and network), `TftpFifo` (order-keeping channels), `TftpLossless` (channels that lose nothing) |
| ProxyDHCP packets and replies | `DhcpPacket`, `DhcpRoundTrip`, `DhcpReply` |
| ProxyDHCP start and stop | `DhcpManager` |
| ISO 9660 and Joliet reader | `IsoDirectory`, `IsoVolume`, `IsoWalk`; a writer to read back: `IsoRecords`, `IsoImage`, `IsoMaster` |
| ISO classification | `IsoAnalyze` |
| GRUB menu and menu store | `GrubText`, `GrubConfig`, `Substitution`, `MenuStore` |
| shared | `Sequences`, `Text`, `Decimal` |

## How to read it

**TFTP.** `TftpServer.Step` is the server as a machine over writes and waits. Every loop of
`TftpSession` records what it writes and reads and is proved to produce exactly a run of that machine,
whatever the peer and the network do. `TftpProtocol` puts the machine beside an RFC 1350 receiver and a
network that loses, duplicates, delays and reorders. Each datagram carries an unbounded block index that
neither side looks at, so that the wrap-around of the 16-bit number is visible. Delivery is correct
as long as no datagram is 65536 or more blocks late; that bound is exact, and order-keeping channels
satisfy it by themselves.

**Failures are results.** Where the Go program would panic (an index out of range in `readDir`, a boot
file too long for `build`, a buffer too short in `itoa`) the model returns `None` or `Crash`, and
lemmas say exactly when. No precondition hides such an input.

**Numbers and names are spelled out.** What is sent, written and recognised is stated once more without
the functions and constants of the model: opcodes, option codes, file names, byte positions and limits
stand as literals in the contracts that say what a client, a firmware or a reader of the menu file finds
(`TftpSession.SessionOnTheWire`, `DhcpReply.AnswerReads`, `IsoVolume.VolumeExactly`,
`IsoAnalyze.WindowsExactly`, `GrubConfig.CustomBody` and others).

**Properties that do not hold.** Several expected properties are false of the code. Each has a lemma
with a concrete failing case, and a lemma that says exactly when it holds:

* *"running" means that a server listens.* Stopping before the bind, or restarting before the old
  completion handler ran, leaks a listener that nothing closes any more, while the manager says "not
  running" (`DhcpManager.StopBeforeBindLeaks`, `RestartLeaks`, `LeakIsPermanent`); `Apply` on a running
  server is just such a restart. A run never leaks if and only if each action is harmless in its state,
  and at rest the flag is right if and only if nothing has leaked (`LeaksExactly`, `TruthAtRest`).
* *A boot file of any length can be answered.* The longest that always reads back has 132 bytes
  (`DhcpRoundTrip.BootFileLimit`, `EndTooEarly`), and without an IPv4 server address the reply loses its
  boot file (`ReplyWithoutAddress`). For legal ports every boot file has at most 38 bytes
  (`DhcpReply.BootFilesFit`).
* *Served names lie inside the root.* That holds if and only if the root is not empty, or the working
  directory is `/` or has a backslash in its path (`TftpPath.ContainedExactly`; a failing case is
  `EmptyRootIsNotContained`).
* *A transfer over a lossless network succeeds.* Duplicated acknowledgements end it at any block after
  the first (`TftpLossless.LosslessAbort`). A session is given up if and only if its option offer goes
  unacknowledged, a write fails, or five sends in a row go unanswered (`TftpServer.AbortReasons`);
  without loss and duplicates that never happens (`TftpLossless.ReliableRunsNeverAbort`).
* *Delivery is correct however late datagrams are.* One data or acknowledgement datagram exactly 65536
  blocks late breaks it (`TftpProtocol.AgeBoundIsExact`, `AgeBoundIsExactForAcks`); none that is younger
  does (`Safety`).
* *Every directory can be read.* The reader panics if and only if it comes to a record of 1 to 32 bytes
  (`IsoDirectory.PanicsOnShortRecords`; the smallest case is `OneByteExtentPanics`), a whole walk if and
  only if some directory within reach holds one (`IsoWalk.WalkPanicsExactly`).
* *Linux Mint is recognised.* Mint images are always taken for Ubuntu, which is harmless for the menu
  (`IsoAnalyze.MintIsDead`, `GrubConfig.MintRowChangesNoRecipe`); a volume label with "server" in it
  makes any image Windows (`IsoAnalyze.ServerLabelsAreWindows`). `FamiliesExactly` says what decides.
* *An entry boots a kernel that its image has.* That fails exactly for images taken for RHEL by
  `/isolinux/vmlinuz` and `/.treeinfo` alone (`GrubConfig.KernelIsThere`; the smallest one is
  `RhelWithoutKernel`).
* *The menu file has one block per entry.* That holds if and only if no title in use has a newline
  (`GrubConfig.FileReadsBack`; a failing case, and what is read instead, is `NewlineTitleBreaksMenu`).
* *The listing is the same after a restart.* That holds if and only if no two entries agree in order
  and time (`MenuStore.ListingIsUnique`; two listings otherwise, `TwoListings`).

**Code and comments.** The comment on `Walk` (internal/iso/iso9660.go:126) says that paths are lower
case; the code emits them as they are, and so does the model. The comment at
internal/grubcfg/grubcfg.go:45 says that custom fragments are output verbatim; the code indents them
and cuts trailing newlines, and so does the model.

## Model

| member | source | states |
|---|---|---|
| `TftpServer.ChopFlatten` | internal/tftp/tftp.go:113-131 | the blocks of a file, put together, are the file |
| `TftpServer.ChopLengths` | internal/tftp/tftp.go:124-126 | all blocks but the last are full, the last is short |
| `TftpServer.ChopCount` | internal/tftp/tftp.go:113-131 | there are size/blksize + 1 blocks and the last has size mod blksize bytes, so it is empty when blksize divides the size |
| `TftpServer.StepDecreases` | internal/tftp/tftp.go:107-131 | every event of a session, whatever it is, lowers one measure over remaining blocks, tries and waits |
| `TftpServer.SessionsEnd` | internal/tftp/tftp.go:113-166 | no peer can keep a session going for more than 10 events a block, plus 2 |
| `TftpServer.NoSessionIsStuck` | internal/tftp/tftp.go:113-166 | a state is final exactly when nothing is to be written and no reply or timeout is awaited; a pending write may succeed or fail |
| `TftpServer.SendsAreBounded` | internal/tftp/tftp.go:146-156 | at most 5 * (size/blksize + 1) DATA writes and as many waits, plus one option offer; in every phase, the aborted one included, the writes are bounded from both sides |
| `TftpServer.RetransmissionsAreIdentical` | internal/tftp/tftp.go:116-123 | two DATA packets with the same block number hold the same bytes unless a whole cycle of 65536 blocks lies between them |
| `TftpServer.AbortReasons` | internal/tftp/tftp.go:107-156 | a session is given up if and only if its single option offer was not acknowledged, a write failed, or the last five sends of one block all went unanswered |
| `TftpServer.DuplicateAcksExhaustTries` | internal/tftp/tftp.go:146-166 | n stale acknowledgements in a row use up n tries of the server, and five of them end its session |
| `TftpSession.File.Read` | internal/tftp/tftp.go:116 | reads a regular file: short only at the end, then 0 bytes and EOF |
| `TftpSession.WaitAck` | internal/tftp/tftp.go:158-166 | one wait; true exactly when the datagram received begins with the bytes 0, 4 and the wanted number |
| `TftpSession.SendWaitAck` | internal/tftp/tftp.go:146-156 | from a first send, the loop ends in the machine's state after the acknowledgement, or in its aborted state |
| `TftpSession.ReadBlock` | internal/tftp/tftp.go:116-130 | what one read delivers at block k is the packet of that block under k mod 65536, and a short read is exactly the last block |
| `TftpSession.SessionOnTheWire` | internal/tftp/tftp.go:102-124 | whatever the peer does, all a session writes is its option acknowledgement, first, and packets 0, 3, k on 16 bits, and the bytes of the file from (k - 1) * blksize on |
| `TftpSession.SendFile` | internal/tftp/tftp.go:113-131 | for any peer the transfer loop performs a run of the machine that ends complete or aborted |
| `TftpSession.OfferOptions` | internal/tftp/tftp.go:107-110 | the OACK is written once, and the session goes on exactly when ACK 0 follows |
| `TftpSession.Handle` | internal/tftp/tftp.go:57-133 | for every request, dialed or not, and whatever can be opened and read: ignored, refused with one error packet, or transferred as a finished run of the machine with an OACK that reads back as the answer, and with everything on the wire in blocks of the agreed size, 512 bytes when nothing was asked for |
| `TftpSession.ReadRequestsExactly` | internal/tftp/tftp.go:58-70 | a read request is opcode 1 and two NUL bytes anywhere after it |
| `TftpSession.ErrorReads` | internal/tftp/tftp.go:168-173 | what a client reads in an error packet: opcode 5, the code, and the one terminated message |
| `TftpSession.RequestRoundTrip` | internal/tftp/tftp.go:67-75 | a read request written from a name, a mode and options is read back with that name and those options |
| `TftpOptions.FieldsAreExact` | internal/tftp/tftp.go:175-185 | the fields found are free of NUL, and are the only NUL-free list whose termination, followed by an unterminated rest, is the input |
| `TftpOptions.SplitNull` | internal/tftp/tftp.go:175-185 | the scanning loop finds those fields |
| `TftpOptions.ReadOptions` | internal/tftp/tftp.go:72-75 | the loop over names and values builds the option map of the fields, names lower-cased as far as the two known options can tell |
| `TftpOptions.LowerExactly` | internal/tftp/tftp.go:74 | the lower case of an ASCII name is the one text without capitals that differs from it in case alone |
| `TftpOptions.FoldedLetters` | internal/tftp/tftp.go:74 | the only two characters beyond ASCII whose lower case is in it |
| `TftpOptions.NamesIgnoreCase` | internal/tftp/tftp.go:72-75 | requests whose option names differ in case alone ask for the same |
| `TftpOptions.DanglingName` | internal/tftp/tftp.go:73 | a name at the end without a value asks for nothing |
| `TftpOptions.KeysOfPairs` | internal/tftp/tftp.go:73-75 | the options present are exactly the lower-cased names in the request |
| `TftpOptions.LastPairWins` | internal/tftp/tftp.go:73-75 | of several values for one name the last counts |
| `TftpOptions.BlksizeHonoursRequest` | internal/tftp/tftp.go:91-96 | the block size in force is the requested one exactly when that is in 8..65464, and never exceeds a request of at least 8 |
| `TftpOptions.BlksizeExactly` | internal/tftp/tftp.go:91-96 | blocks have the requested size for a readable number from 8 to 65464, and 512 bytes without the option, for a text that is no number, and for a number out of range |
| `TftpOptions.AgreementIsReadable` | internal/tftp/tftp.go:97-106 | the answer holds exactly the requested options among blksize and tsize; as numbers they are the block size in force and the file size |
| `TftpOptions.BuildOack` | internal/tftp/tftp.go:98-106 | in whatever order the map is traversed, the OACK is read back as that answer |
| `TftpPath.CleanBeforeResolving` | internal/tftp/tftp.go:137-139 | cleaning a relative path first does not change where it leads from a rooted place |
| `TftpPath.NamesStayBelowRoot` | internal/tftp/tftp.go:135-144 | for a non-empty root every name is accepted and leads to the absolute root followed by ordinary segments, none of them `..` |
| `TftpPath.OrdinaryNamesAreKept` | internal/tftp/tftp.go:136-137 | a name of ordinary segments leads to exactly those segments |
| `TftpPath.BackslashesSeparate` | internal/tftp/tftp.go:136 | however the separators of ordinary segments are written, as slashes or backslashes, the name leads to the root followed by exactly those segments |
| `TftpPath.DotsAreResolved` | internal/tftp/tftp.go:137 | `..` takes back the segment in front of it and stops at the root, `.` and repeated slashes say nothing |
| `TftpPath.CleanIsClean` | internal/tftp/tftp.go:137 | cleaning a path twice is cleaning it once, and never gives the empty path |
| `TftpPath.EmptyRoot` | internal/tftp/tftp.go:135-144 | for an empty root a name is accepted exactly when its text begins with that of the working directory |
| `TftpPath.EmptyRootIsNotContained` | internal/tftp/tftp.go:138-142 | a case where that admits a file outside the working directory |
| `TftpPath.ContainedExactly` | internal/tftp/tftp.go:135-144 | every accepted name lies inside the root, segment by segment, if and only if the root is not empty, or the working directory is `/` or has a backslash in its path |
| `TftpPath.Escaping` | internal/tftp/tftp.go:138-142 | for an empty root and any other working directory, a name that is accepted and lies outside |
| `TftpProtocol.ReactionTo` | internal/tftp/tftp.go:113-131 | a timely datagram moves the receiver only if it is the next block, although numbers wrap |
| `TftpProtocol.MatchingAck` | internal/tftp/tftp.go:158-166 | an acknowledgement that passes the 16-bit test and is not a cycle old is that of the current block |
| `TftpProtocol.StepInv` | internal/tftp/tftp.go:113-166 | every action of server, receiver or network keeps the invariant |
| `TftpProtocol.RunsKeepInv` | internal/tftp/tftp.go:113-166 | so does every timely run |
| `TftpProtocol.Safety` | internal/tftp/tftp.go:113-166 | in every timely run the server's index s and the receiver's count r satisfy s-1 <= r <= s, and the received bytes are the first r blocks, a prefix of the file |
| `TftpProtocol.CompleteMeansDelivered` | internal/tftp/tftp.go:124-132 | when the server leaves its loop by a break the receiver holds the whole file, in size/blksize full blocks and one short block |
| `TftpProtocol.ServerSideIsASession` | internal/tftp/tftp.go:57-133 | the server's side of any run is a session log, so the session bounds hold for it |
| `TftpProtocol.CompletionIsReachable` | internal/tftp/tftp.go:113-131 | every job, of any length, has a timely run that completes with the file delivered |
| `TftpProtocol.AgeBoundIsExact` | internal/tftp/tftp.go:130 | one data packet exactly 65536 blocks late corrupts any long enough file whose blocks 1 and 65537 differ |
| `TftpProtocol.AgeBoundIsExactForAcks` | internal/tftp/tftp.go:165 | one acknowledgement exactly 65536 blocks late moves the server past a block that the receiver lacks, and lets it complete if that was the last |
| `TftpFifo.OneMove` | internal/tftp/tftp.go:113-166 | every move of the queue system is a protocol action at most one block late, or none |
| `TftpFifo.FifoImpliesAgeBound` | internal/tftp/tftp.go:113-166 | over lossy, duplicating channels that keep order, whatever is queued is at most one block behind its reader |
| `TftpFifo.FifoSafety` | internal/tftp/tftp.go:113-166 | so delivery over such channels is correct for files of every length, without an assumption on age |
| `TftpLossless.ReliableRunsNeverAbort` | internal/tftp/tftp.go:107-166 | on a network that neither loses nor duplicates, no session is ever given up |
| `TftpLossless.LosslessAbort` | internal/tftp/tftp.go:146-166 | for every file and every block after the first, a run without loss, timeout or failed write in which duplicated acknowledgements end the session, while five copies of the block are still queued for a receiver that waits for it |
| `DhcpPacket.Parse` | internal/proxydhcp/packet.go:21-56 | the loop accepts exactly packets of 240 bytes or more with the cookie, reads every field, and reads the option area as specified |
| `DhcpPacket.OptionsReadBack` | internal/proxydhcp/packet.go:38-55 | options with any padding between them and anything that stops the reader after them are read as their left-to-right map update |
| `DhcpPacket.EveryAreaIsItems` | internal/proxydhcp/packet.go:38-55 | every byte string is such an area, so the law above covers all inputs |
| `DhcpPacket.Build` | internal/proxydhcp/packet.go:58-90 | writes the buffer in place and appends the options; panics exactly when the boot file passes byte 300 |
| `DhcpPacket.FillHeader` | internal/proxydhcp/packet.go:59-69 | the buffer after all writes, overlapping ones included |
| `DhcpPacket.AddressTextLength` | internal/proxydhcp/packet.go:78-80 | an address takes at most 15 characters, so its length byte does not wrap |
| `DhcpPacket.AddressReads` | internal/proxydhcp/packet.go:78 | between the dots of an address stand its four bytes in decimal |
| `DhcpRoundTrip.FilledFields` | internal/proxydhcp/packet.go:59-69 | where each field of a reply ends up, and what a name longer than its field overwrites |
| `DhcpRoundTrip.PaddedArea` | internal/proxydhcp/packet.go:38-55 | any number of pad bytes in front of the options changes nothing |
| `DhcpRoundTrip.ReplyReadsBack` | internal/proxydhcp/packet.go:21-90 | parsing what was built from an IPv4 address and a boot file of up to 132 bytes gives op 2, the request's fields, and exactly options 53, 54, 60, 66 and 67 with the intended values |
| `DhcpRoundTrip.BootFileLimit` | internal/proxydhcp/packet.go:58-90 | all boot files of length n read back if and only if n is at most 132 |
| `DhcpRoundTrip.EndTooEarly` | internal/proxydhcp/packet.go:68-69 | a byte 255 at position 132 of the name ends the options before the first one |
| `DhcpRoundTrip.ReplyWithoutAddress` | internal/proxydhcp/packet.go:73-83 | without an IPv4 address option 54 swallows the head of option 60, and the reply names neither server nor boot file |
| `DhcpReply.Handle` | internal/proxydhcp/proxydhcp.go:94-133 | silent exactly for packets that do not parse or do not deserve an answer, otherwise the built reply to the right destination; crashes only for a port of 13 digits or a boot file that does not fit |
| `DhcpReply.ChooseBootFile` | internal/proxydhcp/proxydhcp.go:114-121 | the boot file for the client's architecture and user class, its port text from the fixed 12-byte buffer |
| `DhcpReply.AnsweredExactly` | internal/proxydhcp/proxydhcp.go:94-113 | which packets are answered, read off their bytes: the cookie, op 1, option 60 beginning with PXEClient, option 53 saying 1 or 3, and a relay that is none or on the own network, each option in its last version |
| `DhcpReply.AnswerReads` | internal/proxydhcp/proxydhcp.go:50-127 | what a client reads in the answer: exactly options 53, 54, 60, 66 and 67; option 67 is the HTTP script for the iPXE user class, otherwise ipxe.efi for the codes 7, 9 and 11, ipxe32.efi for 6, and undionly.kpxe for everything else, a missing or odd-sized option 93 included |
| `DhcpReply.BootFilesFit` | internal/proxydhcp/proxydhcp.go:50-64 | for ports 0..65535 the port text has the port as value and the boot file has at most 38 bytes |
| `DhcpReply.ClientReads` | internal/proxydhcp/proxydhcp.go:94-133 | what a client reads in the answer to any answerable request; the boot file is in it exactly when the server has an IPv4 address |
| `DhcpReply.RepliesAreNotAnswered` | internal/proxydhcp/proxydhcp.go:95-98 | nothing that `build` produces is answered when it comes back to any server |
| `Decimal.FormatInto` | internal/proxydhcp/proxydhcp.go:149-161 | the backwards loop yields the exact decimal, fails exactly when the buffer is too small, and gives the empty text for negative numbers |
| `Decimal.ValueOfDigits` | internal/proxydhcp/proxydhcp.go:149-161 | the value of the digits of n is n |
| `Decimal.DigitCount` | internal/proxydhcp/proxydhcp.go:153 | n has at most k digits exactly when it is below ten to the k |
| `Decimal.AtoiOfItoa` | internal/tftp/tftp.go:93-104 | reading the decimal text of a 64-bit integer gives the integer back |
| `Decimal.AtoiExactly` | internal/tftp/tftp.go:93 | exactly the numerals of the 64-bit integers are read: an optional sign, any zeroes, and the decimal text of the amount |
| `DhcpManager.StepKeepsInv` | internal/proxydhcp/manager.go:28-70 | every call, bind, serve failure and handler keeps the manager's invariant |
| `DhcpManager.RunningHoldsLatest` | internal/proxydhcp/manager.go:28-70 | in every interleaving, while `running` is set the manager holds the server started last, whose handler has not run, and at most one server listens |
| `DhcpManager.LeaksExactly` | internal/proxydhcp/manager.go:28-70 | a run never loses a listener if and only if each action is harmless in its state: no bind succeeds for a server that a running manager does not hold, and no handler runs while a server listens |
| `DhcpManager.TruthAtRest` | internal/proxydhcp/manager.go:28-70 | at rest, in every interleaving, `running` implies that a server listens, and the two coincide if and only if no listener is lost |
| `DhcpManager.RunningIsTruthful` | internal/proxydhcp/manager.go:28-70 | a discipline that suffices: if stops come after the bind and starts after the handlers, then at rest `running` says exactly whether a server listens |
| `DhcpManager.StopBeforeBindLeaks` | internal/proxydhcp/proxydhcp.go:87-92 | a run where stopping before the bind leaves a listener behind |
| `DhcpManager.RestartLeaks` | internal/proxydhcp/manager.go:37-44 | a run where the old server's handler clears the flag of the new one, every stop after its bind |
| `DhcpManager.LeakIsPermanent` | internal/proxydhcp/manager.go:48-60 | no sequence of calls closes a leaked listener or brings another server up, and at rest the manager says "not running" |
| `DhcpManager.Manager.Start` | internal/proxydhcp/manager.go:28-46 | the new state is the machine's step |
| `DhcpManager.Manager.Stop` | internal/proxydhcp/manager.go:49-60 | the new state is the machine's step |
| `DhcpManager.Manager.Apply` | internal/proxydhcp/manager.go:63-70 | a stop, then whatever other goroutines do while the lock is free, then a start when enabled |
| `DhcpManager.Manager.Complete` | internal/proxydhcp/manager.go:38-43 | the completion handler clears `running` whichever server it belongs to |
| `IsoDirectory.DecodeUcs2` | internal/iso/iso9660.go:156-162 | the loop yields the big-endian 16-bit characters, an odd last byte ignored |
| `IsoDirectory.Ucs2Characters` | internal/iso/iso9660.go:156-162 | character k comes from bytes 2k and 2k + 1, high byte first, halves of surrogate pairs as U+FFFD |
| `IsoDirectory.ReadDir` | internal/iso/iso9660.go:78-124 | for every image the loop returns the entries of the scanned records, or panics as specified |
| `IsoDirectory.ReadRecords` | internal/iso/iso9660.go:83-123 | the loop over the extent: sector skipping, records cut off by the end, names that do not fit, self and parent records |
| `IsoDirectory.ReadRecord` | internal/iso/iso9660.go:98-120 | the entry of one record, if it has one |
| `IsoDirectory.PanicsOnShortRecords` | internal/iso/iso9660.go:99-100 | the reader panics exactly when it comes to a complete record of 1 to 32 bytes |
| `IsoDirectory.OneByteExtentPanics` | internal/iso/iso9660.go:99 | the smallest extent that makes it panic |
| `IsoDirectory.OneEntryEach` | internal/iso/iso9660.go:98-120 | a record gives one entry, its directory flag being bit 1 of byte 25, unless its name does not fit it or it is the directory's own or its parent's |
| `IsoDirectory.SilentRecords` | internal/iso/iso9660.go:101-108 | a record of those kinds is read, wherever it stands, as if it were not there |
| `IsoDirectory.CutOffRecord` | internal/iso/iso9660.go:95-97 | a record that goes beyond the extent is not read |
| `IsoDirectory.ZeroesFollow` | internal/iso/iso9660.go:79-82 | an image that ends within an extent is read as if zeroes followed |
| `IsoRecords.RecordMeaning` | internal/iso/iso9660.go:98-120 | a written record is read back as its name, location, size and directory flag |
| `IsoRecords.DirectoryRoundTrip` | internal/iso/iso9660.go:78-124 | any records, laid out in any way that keeps each within a sector, are read back in order, only self and parent dropped |
| `IsoRecords.PackKeepsRecords` | internal/iso/iso9660.go:87-94 | any record list can be laid out like that without losing or reordering one |
| `IsoRecords.IdentifierRoundTrip` | internal/iso/iso9660.go:110-115 | a name survives encoding and decoding exactly when each character has a code: one byte, or one 16-bit unit for Joliet |
| `IsoRecords.VersionsDisappear` | internal/iso/iso9660.go:116-119 | version and trailing dot disappear from the name of a file |
| `IsoRecords.NamesAreCleaned` | internal/iso/iso9660.go:116-119 | exactly the names without semicolon and trailing dot read as written |
| `IsoVolume.Open` | internal/iso/iso9660.go:27-66 | the loop over sectors 16..99 finds the volume that the descriptors before the terminator determine |
| `IsoVolume.JolietPrecedence` | internal/iso/iso9660.go:43-64 | the Joliet root is chosen exactly when the last Joliet descriptor has a non-zero location; an image opens exactly when that holds or a primary descriptor is there |
| `IsoVolume.VolumeExactly` | internal/iso/iso9660.go:27-66 | by sector numbers and byte positions: among sectors 16 to 99 in front of a terminator the last descriptor with the escape sequence of a Joliet level counts, unless its root is at 0, then the last primary one, which always gives the label |
| `IsoVolume.LabelIsTrimmed` | internal/iso/iso9660.go:51 | a label is its field without the white space at both ends, and nothing else is cut off |
| `IsoWalk.Walk` | internal/iso/iso9660.go:136-150 | for every image, cyclic ones included, the recursion ends and calls back with exactly the depth-bounded unfolding |
| `IsoWalk.EmittedIsDescent` | internal/iso/iso9660.go:136-150 | every emitted path is that of a descent through the directory graph of at most 13 components |
| `IsoWalk.DescentIsEmitted` | internal/iso/iso9660.go:136-150 | the path of every such descent is emitted |
| `IsoWalk.EmittedPaths` | internal/iso/iso9660.go:127-150 | so the emitted paths are exactly those of the descents of at most 13 components |
| `IsoWalk.WalkPanicsExactly` | internal/iso/iso9660.go:127-150 | a walk panics if and only if the root, or a directory reached through at most 12 others, holds a record shorter than 33 bytes that the reader comes to |
| `IsoImage.LayoutSize` | internal/iso/iso9660.go:78-85 | the size recorded for a directory is that of its extent |
| `IsoImage.DirIsRead` | internal/iso/iso9660.go:78-124 | a written directory is read back as the entries of its children, subdirectories where they were put |
| `IsoImage.TreeIsWalked` | internal/iso/iso9660.go:127-150 | wherever a tree is written, walking from its root emits its paths in preorder, cut off below 13 components |
| `IsoMaster.ImageOpens` | internal/iso/iso9660.go:27-66 | a written image, plain or Joliet, opens with its own root, size, kind and label |
| `IsoMaster.WholeImageRoundTrip` | internal/iso/iso9660.go:27-150 | opening and walking a written image emits the paths of its tree in preorder, the Joliet tree if there is one |
| `IsoMaster.ShallowTrees` | internal/iso/iso9660.go:137-139 | nothing is cut off from a tree of at most 13 levels |
| `IsoAnalyze.HasSub` | internal/iso/analyze.go:65-73 | in whatever order the set is traversed, true exactly when some path holds the marker |
| `IsoAnalyze.CheckWindows` | internal/iso/analyze.go:80-85 | the pre-check by files and by volume label |
| `IsoAnalyze.FindRule` | internal/iso/analyze.go:92-105 | the loop returns the first rule in table order all of whose markers occur |
| `IsoAnalyze.Analyze` | internal/iso/analyze.go:51-113 | from image bytes to everything reported, files, family, display text and note: not an image, a panic, or the description of the walked paths |
| `IsoAnalyze.NoListExactly` | internal/iso/analyze.go:60-63 | which opened images make the analysis panic in the walk |
| `IsoAnalyze.DescribedAsClassified` | internal/iso/analyze.go:85-112 | the family and distribution reported are those of the classification |
| `IsoAnalyze.FoldOfAscii` | internal/iso/analyze.go:62 | on ASCII paths folding is plain lower case |
| `IsoAnalyze.FoldExactly` | internal/iso/analyze.go:62 | an ASCII path folds to the one text without capitals that differs from it in case alone |
| `IsoAnalyze.FoldJoliet` | internal/iso/analyze.go:62 | Joliet names fold character by character, beyond ASCII only two letters |
| `IsoAnalyze.FoldPlain` | internal/iso/analyze.go:62 | the same two letters in the bytes of plain names |
| `IsoAnalyze.CaseDoesNotMatter` | internal/iso/analyze.go:62-75 | names and labels that differ in case alone, like those of plain images, give the same family and distribution |
| `IsoAnalyze.FilesDecide` | internal/iso/analyze.go:58-73 | a marker occurs exactly when the path of some file has it, in any case |
| `IsoAnalyze.FirstMatch` | internal/iso/analyze.go:92-105 | the result matches and no earlier rule does; none when no rule matches |
| `IsoAnalyze.OrderDoesNotMatter` | internal/iso/analyze.go:58-63 | the family depends on the set of files only |
| `IsoAnalyze.ShadowedRulesAreDead` | internal/iso/analyze.go:36-48 | in any table, a rule whose markers imply an earlier rule's can be removed without any effect |
| `IsoAnalyze.MintIsDead` | internal/iso/analyze.go:38-39 | the Mint row never decides |
| `IsoAnalyze.WindowsRowIsDead` | internal/iso/analyze.go:37 | neither does the Windows row, because of the pre-check |
| `IsoAnalyze.ServerLabelsAreWindows` | internal/iso/analyze.go:84 | a label with "server" in it makes any image Windows |
| `IsoAnalyze.WindowsExactly` | internal/iso/analyze.go:80-84 | the three files and the seven label words that make an image Windows; the eighth word of the list is covered by another |
| `IsoAnalyze.DescriptionExactly` | internal/iso/analyze.go:36-112 | family, distribution and name go together as in the table; an image nothing was recognised in is described by its label and the number of its files in decimal |
| `IsoAnalyze.FamiliesExactly` | internal/iso/analyze.go:80-112 | exactly which files and labels give which of the eleven families, without the two dead rows |
| `GrubText.Indent` | internal/grubcfg/grubcfg.go:127-135 | the in-place loop over the lines computes the indented text |
| `GrubText.IndentUndone` | internal/grubcfg/grubcfg.go:127-135 | removing two spaces from each non-empty line gives the text back with exactly one trailing newline; line count and blank lines stay |
| `GrubText.QuoteIsClosed` | internal/grubcfg/grubcfg.go:137-140 | a quoted text holds no quote but the outer two, and keeps every other character |
| `GrubText.LinesReadBack` | internal/grubcfg/grubcfg.go:127-135 | written lines are read back exactly when none holds a newline |
| `GrubText.SectionsReadBack` | internal/grubcfg/grubcfg.go:43-51 | sections, an unindented line with the indented and blank ones after it, are read back from their text exactly when no line holds a newline |
| `GrubConfig.Generate` | internal/grubcfg/grubcfg.go:26-62 | the writing loop produces the text of header, enabled entries and footer |
| `GrubConfig.WriteEntry` | internal/grubcfg/grubcfg.go:43-51 | the block of one entry, from its custom fragment or its recipe |
| `GrubConfig.FileReadsBack` | internal/grubcfg/grubcfg.go:26-62 | whatever the commands are, the file divides at its unindented lines into exactly the header, the enabled entries in order with their own commands, and the footer, if and only if no title in use holds a newline |
| `GrubConfig.BrokenTitle` | internal/grubcfg/grubcfg.go:43 | what is read for a title with a newline: the entry falls apart at it, and its commands go to the second half |
| `GrubConfig.NewlineTitleBreaksMenu` | internal/grubcfg/grubcfg.go:43 | the shortest such title, and that the file is not the menu it should be |
| `GrubConfig.CommandsReadBack` | internal/grubcfg/grubcfg.go:39-52 | read from the file alone, each enabled entry has exactly its own commands under its own title |
| `GrubConfig.CustomBody` | internal/grubcfg/grubcfg.go:44-47 | in the file, the body of an entry with a fragment is that fragment with base + /files/iso/ + name in each gap of the placeholder, trailing newlines aside; for an http base and no `$` it holds no placeholder |
| `GrubConfig.RecipeBody` | internal/grubcfg/grubcfg.go:48-84 | in the file, the body of any other entry first sets isofile to that address and then opens it |
| `GrubConfig.SettingsReadBack` | internal/grubcfg/grubcfg.go:28-37 | the file begins with the timeout in decimal and the default entry, and has the quoted title |
| `GrubConfig.PlaceholderGone` | internal/grubcfg/grubcfg.go:44-47 | no custom fragment keeps `${iso_url}` if and only if the image's address neither holds it nor ends in a beginning of it; an address without `$` is such |
| `GrubConfig.MintRowChangesNoRecipe` | internal/grubcfg/grubcfg.go:85-88 | neither dropping the Mint row nor putting it before Ubuntu changes the recipe of any image |
| `GrubConfig.KernelIsThere` | internal/grubcfg/grubcfg.go:85-106 | the kernel in the recipe of an image is one of the files it was recognised by, except exactly for images taken for RHEL without `/images/pxeboot/vmlinuz` |
| `GrubConfig.RhelWithoutKernel` | internal/iso/analyze.go:44 | the smallest such image, with two files |
| `Substitution.OnePassIsEnough` | internal/grubcfg/grubcfg.go:46 | the same for any placeholder and any replacement that begins with a foreign character, splices included |
| `Substitution.UnsafeLeavesOne` | internal/grubcfg/grubcfg.go:46 | for any other replacement a text in which the placeholder survives |
| `Substitution.ReplaceOne` | internal/grubcfg/grubcfg.go:138-140 | replacing one character is done character by character |
| `Text.GapsAreTheRest` | internal/grubcfg/grubcfg.go:46 | the text between replaced occurrences is the original in order, and holds no further occurrence |
| `Text.JoinOfSplit` | internal/grubcfg/grubcfg.go:128-134 | joining what was split gives the text back |
| `Text.SplitOfJoin` | internal/grubcfg/grubcfg.go:128-134 | splitting what was joined gives the parts back when none holds the separator |
| `MenuStore.Values` | internal/menu/menu.go:57-60 | in whatever order the map is traversed, the list holds each entry once |
| `MenuStore.Sort` | internal/menu/menu.go:61-66 | some sorted permutation; equal entries may end up either way |
| `MenuStore.SortedIsAscending` | internal/menu/menu.go:61-66 | sorted means ascending: by order, and for the same order by time of creation |
| `MenuStore.LoadOfSaved` | internal/menu/menu.go:39-51 | loading a saved list, in any order, gives the map back |
| `MenuStore.ListingIsUnique` | internal/menu/menu.go:54-68 | any two sorted listings of one map are equal if and only if its pairs of order and time are distinct |
| `MenuStore.TwoListings` | internal/menu/menu.go:61-66 | two different sorted listings of any other map |
| `MenuStore.RunsKeepKeys` | internal/menu/menu.go:78-95 | after any run of puts and deletes every key is its entry's ID, and what a key holds was decided by the last operation on it |
| `MenuStore.Store.constructor` | internal/menu/menu.go:39-51 | the entries are those of the file, the last of two with one ID |
| `MenuStore.Store.List` | internal/menu/menu.go:54-68 | every entry once, sorted by order, then by time of creation |
| `MenuStore.Store.Put` | internal/menu/menu.go:79-87 | the map update of the stamped entry, also when saving fails; after a save the file lists the entries |
| `MenuStore.Store.Delete` | internal/menu/menu.go:90-95 | the entry is gone and no other, also when saving fails; after a save the file lists the entries |
| `MenuStore.Store.Save` | internal/menu/menu.go:97-117 | the file becomes a list of the entries sorted by order, or stays as it was |
| `MenuStore.Store.Reload` | internal/menu/menu.go:39-68 | after a save, a new store has the same entries, and the same listing when the pairs of order and time are distinct |

## Left out

- Sockets, deadlines, goroutine scheduling of requests, and logging: a timeout is a wait that fails, a session has its own connection, requests longer than 1500 bytes are not cut.
- HTTP handlers, login, uploads, `internal/bootfiles`, `internal/config`, `internal/ipxescript` and the static pages: plumbing over the components modelled here.
- Operating-system queries of `internal/netif`: the server address and the subnet test are parameters of `DhcpReply.Setup`. An address that is not IPv4 is the nil address that internal/proxydhcp/proxydhcp.go:138 returns for it.
- JSON encoding and malformed menu files: the file of the store is a list of entries. Concurrent `save` calls, which share one temporary file, are not modelled.
- Clock values are integers with 0 for the zero time.
- MenuStore.Store.Put: entries are values, so later changes through a reference that a caller keeps are not captured; the stamped entry is returned instead of being changed in place.
- TftpSession.Handle: the log keeps whole datagrams, and a file is what can be read of it before the first short read; that a later read might succeed again is not modelled.
- IsoAnalyze.Analyze: plain names and labels are one character a byte, so the texts shown are not UTF-8 encoded; characters whose lower case lies beyond ASCII are not folded, which no marker can tell.
- GrubConfig.Generate: text is a sequence of characters, not of UTF-8 bytes; the meaning of the GRUB commands is not modelled.
- GrubConfig.RecipeBody: of the commands of a family only the kernel is related to what the image holds (`GrubConfig.KernelIsThere`); kernel parameters, ram disks and the fixed lines around the entries are plain text of the recipe.
- IsoVolume.Open: an image is a byte sequence, so I/O errors other than reading past the end are not modelled; the same holds for IsoDirectory.ReadDir.
- IsoMaster.WriteImage: fields of descriptors and records that the reader does not look at are filled with constants, and path tables are not written.
- DhcpManager.RunningHoldsLatest: binding the port and storing the connection (internal/proxydhcp/proxydhcp.go:69-73) are one step.
- Integers are unbounded where the program's 64-bit ones cannot overflow on any input of realistic size: file sizes, positions, counters. Block numbers, option lengths, 32-bit locations and the decimal reader have their widths.
- `mac`, `hasEFI` and the web console's status query carry no logic.
