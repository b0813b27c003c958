# qaoed: a verified model of an ATA-over-Ethernet target

qaoed exports files and disks over Ethernet. One thread per network interface reads buffers of
frames, wraps each request in a reference-counted work entry and appends it to the queue of every
device it is addressed to; one worker thread per device answers the requests. Devices, access lists
and interfaces come from a configuration file and can be changed at run time over a local API.

The project models the four cores of the program and proves what they keep:

- **Dispatch runtime** (`Dispatch`, `DispatchSafety`, `DispatchRuns`, `DispatchTheorems`, `DispatchDrain`,
  `DispatchFlow`, `DispatchSpurious`, `Network`). A transition system with one step per critical section or
  unlocked access, any number of listeners and workers, any interleaving. Reference counts are exact,
  nothing is used after it was freed or freed twice, queues are FIFO, no wake-up is lost, and without new
  input the system drains completely. `DispatchFlow` follows the frames: what a device has processed in the
  end is, for each listener, what the listener received for it, in order. `DispatchSpurious` adds wake-ups
  without a signal to the runs. `Network` holds the sequential code that the steps are made of, on the
  linked queues of the devices.
- **Configuration language** (`RcfgLexer`, `RcfgParser`, `RcfgRoundTrip`, `RcfgWords`, `RcfgRejects`). The
  lexer and the index-range parser as imperative code, tied to functions, and the round trip: every layout
  of a tree, with blanks, line breaks and comments between its tokens, is read back as that tree, as long as
  nothing but white space, punctuation or a line comment stands directly after a word. `RcfgWords` shows
  that this condition is exact, and `RcfgRejects` which files are rejected.
- **Configuration meaning and registry** (`AccessList`, `DeviceConfig`, `Loading`, `Registry`,
  `RegistryMeaning`, `RegistryTheorems`, `LinkedList`, `Configuration`). Access-list compilation preserves
  meaning; the device and default sections and the reference counts that parsing them takes; defaults and
  their 8-bit slot counter; validation; and the API requests on linked lists of objects with two kinds of
  reference counts, over every run of requests.
- **Request engine** (`Lba`, `BlockStore`, `CfgString`, `Engine`, `Replies`, `Target`). Sector addresses,
  the byte file as a sector map, the config string ("Query Config Information" of the ATA-over-Ethernet
  protocol, AoEr8), replies, access checks and advertising; `Replies` says field by field what initiators
  see; `Target` is the code that works in place on the file, the reply buffer and the config array.
- **The daemon** (`Daemon`). Dispatch and engine together: in every interleaving the file of a device is the
  sector map of the writes dispatched to it, in the order of dispatch, and these are the frames received.

Imperative code is modelled as methods that are tied to specification functions; the theorems are
lemmas about those functions. A parameter `ghost c: Conf` of a method of `Configuration.Config` is the
value that the object stands for.

## Where the code departs from its evident intent

The model does what the code does. In each place below the lemma says exactly when that is right.

- `network.c:151` masks a byte with `htons(AOE_FLAG_RSP)`: responses are filtered on big-endian hosts
  only (`Aoe.ResponseFilter`).
- `devices.c:395` compares the length field of an exact match without `ntohs`
  (`CfgString.MatchesExactlyIff`).
- `devices.c:409` compares as many bytes of the config array as the request has, whatever the length
  of the string: bytes of an older string still match (`CfgString.MatchesPrefixIff`,
  `CfgString.StaleBytesMatch`).
- `devices.c:141-151` takes a short read or write for a complete one, at the end of the export as
  anywhere else (`BlockStore.AcknowledgedWrite`, `BlockStore.AcknowledgedRead`).
- `devices.c:309-311` refuses a request without the error flag in the header (`Engine.ErrorFlagIff`).
- `devices.c:634` waits with `if` and not in a loop (`DispatchTheorems.SpuriousWakeup`,
  `DispatchSpurious.StaleIff`).
- `parseconf.c:520` compares with 1, so "reject" is encoded as an error, and `parseconf.c:600` is always
  true, so every keyword with initial `a` or `r` makes a row (`AccessList.CompilePreservesMeaning`,
  `AccessList.CompilesIff`).
- `parseconf.c:928-938` copies access lists from the default section without `aclrefup`, while
  `parseconf.c:35-64` has counted the fields of the default section itself, which is not a listed device.
  The counts are right if the two cancel out (`Loading.LoadConservesIff`, `Loading.LoadGap`,
  `RegistryTheorems.RunGap`).
- `parseconf.c:175` and `parseconf.c:274` return NULL for the whole list when a section has an unknown
  keyword, so the devices of the sections before it are dropped, while those after it are loaded
  (`Loading.DevicesAfterError`).
- `rcfg/readconf.c:320-346` looks for the start of a comment only between tokens. The manual allows
  comments anywhere, but one directly after a word becomes part of it: `slot/* x */ = 1;` is rejected
  (`RcfgWords.LexInvertsIff`, `RcfgWords.BareWordIff`, `RcfgWords.GluedCommentRead`).
- `rcfg/readconf.c:397-411` drops the first quote of a token and keeps the second of an empty word. The
  empty word is rejected before a delimiter; before a space it is read as a quote and the space. A quoted
  word that starts with a space is always rejected (`RcfgWords.EmptyWord`, `RcfgWords.SpaceLed`,
  `RcfgWords.QuotedExactly`).
- `rcfg/readconf.c:194-229` counts braces without their order: a closing brace in front of an opening one is
  accepted, and a block that is not closed then disappears around its statements
  (`RcfgRejects.MisplacedBraces`). Tokens that belong to no statement are skipped (`RcfgRejects.StraySkipped`).
- `rcfg/readconf.c:260-276` reads 398 characters at a time: a word that crosses that border is cut in two
  (`RcfgRejects.LongWordCut`).
- `api.c:526` takes `strcmp` for equality: deleting an interface deletes the unused ones of every other
  name (`RegistryTheorems.DelInterfaceInverted`).
- `api.c:903` dereferences the loop pointer after the loop has run it to NULL: as written, every
  successful deletion of a target crashes the daemon. Both this version and the one that uses the
  interface of the removed device are modelled (`Registry.Version`). Theorems about runs that have a
  parameter `v` hold for both.
- `api.c:1060-1062` does not call `processINTERFACE_DEL`, which is complete otherwise. Runs contain it as a
  request; `RegistryTheorems.ServedListedIff` is about the runs without it.
- `api.c:967-1004` does not repeat the check for unset addresses, nor check that the default interface
  is still listed (`RegistryTheorems.AddCompleteIff`, `RegistryTheorems.ListedIff`).

## Assumptions

Allocation succeeds. Condition variables do not wake up by themselves, except in
`DispatchTheorems.SpuriousWakeup` and `DispatchSpurious`. The API handles one request at a time. System
calls, the results of `read` and `write`, thread creation and cancellation, the MAC address conversion, the
sign of `strcmp` and the two value tables of the configuration language are parameters. A write may extend
the exported file; the size that IDENTIFY reports is the one at the start, as in the code. Frames carry as
much data as their header says.

## Model

| member | source | states |
|---|---|---|
| Aoe.ResponseFilter | network.c:150-159 | the masked test rejects a frame exactly on a big-endian host with the response bit set |
| DispatchRuns.ReleaseStep | network.c:80-118 | each of the four accesses of qaoed_workdestroy keeps the counts equal to the holds and never touches a dead object |
| DispatchRuns.TickInv | network.c:120-255 | the invariant (exact counts, live holders, FIFO histories, dispatch plans) survives any step of any thread |
| DispatchRuns.RunInv | devices.c:615-678 | the invariant holds after every run from the start, with threads and packets arriving in any order |
| DispatchTheorems.NoFault | network.c:80-118 | in no interleaving does a thread use a freed packet or work entry, or a rawbuf that is NULL |
| DispatchTheorems.RefcountsExact | network.c:50-118 | a live object's refcount is the number of its holders that have not dropped it yet, and a dead one has none |
| DispatchTheorems.FreedExactlyOnce | network.c:58-72 | every object ever allocated is either live and never freed, or freed exactly once |
| DispatchTheorems.RawbufSetBeforeDrop | network.c:85-88 | a thread that enters qaoed_workdestroy finds rawbuf set and its packet and entry live |
| DispatchTheorems.Fifo | devices.c:641-657 | what a worker processed is a prefix of what was dispatched to it; in hand and queue hold the rest in order |
| DispatchTheorems.NoLostWakeup | devices.c:630-667 | in every reachable state a worker with queued work is not asleep, a woken one has work, and none runs on a stale entry |
| DispatchTheorems.SpuriousWakeup | devices.c:634-667 | in every reachable state one wake-up without a signal makes a waiting worker reach the work switch with an old entry |
| DispatchSpurious.StaleIff | devices.c:634-667 | over every run with wake-ups without a signal, a worker has reached the work switch with an old entry if and only if it was once woken so while it waited and nothing was queued for it before its next step |
| DispatchTheorems.PlanCount | network.c:197-246 | how often the two loops visit each device |
| DispatchTheorems.DispatchExact | network.c:194-249 | after the loops a request was queued on each device once per loop that selects it, and on no other, in every interleaving |
| DispatchTheorems.ExactlyOncePerAddressee | network.c:222-246 | each addressee gets exactly one entry if and only if it is not a device with the broadcast address getting a broadcast |
| DispatchTheorems.LeftToQueues | network.c:251-252 | after the dispatcher's own release the count is the number of queue entries and busy workers |
| DispatchFlow.FramesAccounted | arch/bsd_net.c:196-222 | over every run the frames that a listener received are, in order, those it has looked at, the one at hand and the rest of the buffer |
| DispatchFlow.MadeFrames | network.c:128-178 | the work entries that a listener made carry, in order, exactly the frames it looked at that are long enough, have the protocol number and pass the response filter |
| DispatchFlow.MadeOnce | network.c:166-189 | the entries of a listener are different from each other |
| DispatchFlow.QueueOrder | network.c:197-246 | in every interleaving the entries of one listener are on a queue in the order in which it made them, each as often as its plan says |
| DispatchFlow.SentFrames | network.c:161-246 | what a listener sends to a device that was there before is, in order, every wanted frame with the address of the device once, and every broadcast once (more) |
| DispatchFlow.Delivered | devices.c:628-677 | where no thread can move, the requests of a listener that a device has processed are exactly the wanted frames that the listener received for it, in order |
| DispatchFlow.OnlyReceived | network.c:166-220 | whatever is on a queue was made by a listener for a frame that it received |
| DispatchFlow.AdvertsMade | devices.c:615-627 | a worker processes as many advertisements of its own as it was started with |
| DispatchDrain.TickDecreases | devices.c:473-543 | every step that a thread can take lowers a measure over queues, frames and pending drops |
| DispatchDrain.DrainTerminates | devices.c:628-677 | no schedule without input is longer than the measure of the state it starts in |
| DispatchDrain.QuietIsDrained | network.c:80-118 | where no thread can move nothing is live, everything was freed once, queues are empty and all was processed |
| DispatchDrain.Drain | devices.c:628-677 | from every reachable state every schedule without input ends, and ends drained |
| Daemon.FileFollowsDispatch | devices.c:615-678 | in every interleaving the file of a device is the sector map of a prefix of the requests dispatched to it, in the order of dispatch, if each write is transferred completely |
| Daemon.FileAfterDrain | devices.c:628-677 | and of all of them once the system has drained |
| Daemon.FileOfReceived | devices.c:615-678 | where no thread can move, the file is the sector map of the requests processed, and those of each listener are the frames that it received for the device, in order |
| Network.DeviceQueue.constructor | devices.c:699-702 | the empty queue |
| Network.DeviceQueue.InsertWork | network.c:20-47 | the linked list stands for the old sequence with the entry appended; the case that loses it is unreachable |
| Network.DeviceQueue.Unlink | devices.c:641-657 | takes the head of the sequence and keeps q, qstart and qend consistent |
| Network.Packet.Destroy | network.c:50-78 | drops one reference, frees on the last and reports which |
| Network.WorkEntry.Destroy | network.c:85-118 | drops one reference of the packet, if it is still there, and one of the entry, frees each on its last, and clears rawbuf exactly if the packet went |
| Network.WorkDestroy | network.c:80-118 | the same, and nothing without an entry |
| Network.HandToAddressed | network.c:197-220 | the first loop appends the entry to the linked queues of the addressed devices only and counts each |
| Network.HandToAll | network.c:222-246 | the broadcast loop appends the entry to every linked queue and counts each |
| Network.ProcessPacket | network.c:120-255 | rejects exactly the frames it should not handle; else the queue of every device gets its copies, entry and packet counts are the number of copies, and all queues stay well formed and apart |
| RcfgLexer.FindTokenEnd | rcfg/readconf.c:314-346 | the walk stops at the end that the token function defines, with the quotation state |
| RcfgLexer.TakeComment | rcfg/readconf.c:296-312 | a comment is skipped to its end, or to the end of the line with the comment left open, and at least one character is used up |
| RcfgLexer.CopyToken | rcfg/readconf.c:397-419 | the copied token is without a quote at either end, and a negative length is an error |
| RcfgLexer.TakeToken | rcfg/readconf.c:314-423 | one token is cut off, and at least one character is used up |
| RcfgLexer.TokenizeLine | rcfg/readconf.c:284-423 | one line gives the tokens and the comment and quotation state that the line function defines, and the loop ends on any input |
| RcfgLexer.Fgets | rcfg/readconf.c:276-276 | one read takes up to and including the newline, at most 398 characters |
| RcfgLexer.Tokenize | rcfg/readconf.c:258-435 | the token list of a text without include, or none for malformed tokens, an open comment, no token or a list that fails one of the four checks; two of these are tables given as a parameter |
| RcfgLexer.ReadConfig | rcfg/readconf.c:596-654 | the tree that a file without include is read as, or none if one of the checks fails |
| RcfgParser.RecursiveParse | rcfg/readconf.c:532-594 | the loop with its brace counter computes the parse function and ends on any token range |
| RcfgParser.ScanPassesBody | rcfg/readconf.c:546-568 | the counter scan leaves a flattened body at the depth it entered with, so it stops at the matching brace |
| RcfgParser.ParseInvertsFlatten | rcfg/readconf.c:532-594 | parsing gives back every forest from its tokens, order and nesting included |
| RcfgParser.FlattenInjective | rcfg/readconf.c:532-594 | two different forests never have the same tokens |
| RcfgParser.CountBraces | rcfg/readconf.c:194-229 | returns 0 for exactly the lists with as many closing as opening braces, and -1 for all others |
| RcfgParser.CheckTokenList | rcfg/readconf.c:166-191 | accepts exactly the lists in which every token is a keyword or follows an equals sign |
| RcfgParser.FlattenBalanced | rcfg/readconf.c:194-229 | the tokens of every forest pass the brace count |
| RcfgParser.FlattenKeywords | rcfg/readconf.c:166-191 | the tokens of a forest pass the keyword check if and only if its names are keywords |
| RcfgRoundTrip.LexTextIsLexFrom | rcfg/readconf.c:260-276 | for lines that fit into the buffer its limit makes no difference |
| RcfgRoundTrip.LexInvertsLayout | rcfg/readconf.c:284-423 | a layout is read as its tokens: words, punctuation, blanks, line ends and comments in any order, in which each word is followed by white space, punctuation, a line comment or the end |
| RcfgWords.LexInvertsIff | rcfg/readconf.c:284-423 | of all arrangements of such items exactly those are read as their tokens in which no word is followed directly by a block comment or another word |
| RcfgWords.BareWordIff | rcfg/readconf.c:320-346 | a bare word is the first token of a line if and only if a delimiter, a space, the end or a lone closing quote follows it |
| RcfgWords.QuotedWordIff | rcfg/readconf.c:320-414 | a quoted word is the first token of a line if and only if a delimiter, a space or the end follows it |
| RcfgWords.QuotedExactly | rcfg/readconf.c:338-414 | whatever follows on the line, of the words without delimiters exactly the non-empty ones that do not start with a space and are separated from the rest are read as themselves |
| RcfgWords.EmptyWord | rcfg/readconf.c:338-414 | the empty word makes the lexer give up if and only if a delimiter or the end follows it; otherwise a word that starts with a quote is read |
| RcfgWords.SpaceLed | rcfg/readconf.c:397-411 | a quoted word that starts with a space makes the lexer give up, whatever follows |
| RcfgWords.GluedComment | rcfg/readconf.c:289-346 | a block comment directly after a word always changes the word |
| RcfgWords.GluedCommentRead | rcfg/readconf.c:289-346 | the concrete line that shows it |
| RcfgWords.EmptyBeforeSpace | rcfg/readconf.c:338-414 | the concrete line with an empty value that is read as a quote and a space |
| RcfgRoundTrip.ReadInvertsLayout | rcfg/readconf.c:596-654 | every layout of a tree is read as that tree if it is not empty, its names are keywords and its tokens pass the value tables, and as nothing otherwise |
| RcfgRoundTrip.PrintOK | man/qaoed.conf.man.5:12-18 | printing by the documented grammar gives a layout of the tree, with lines that fit |
| RcfgRoundTrip.PrintThenRead | rcfg/readconf.c:609-654 | every tree of words that the lexer can carry and the tables accept survives printing and reading |
| RcfgRejects.ReadIff | rcfg/readconf.c:166-256 | a layout of any tokens is read if and only if there is one, there are as many closing as opening braces, each token is a keyword or follows an equals sign, and the values pass their tables |
| RcfgRejects.OpenCommentRejected | rcfg/readconf.c:284-312 | a file with a comment that is not closed is rejected, whatever comes before it and however many lines it has |
| RcfgRejects.BadWordRejected | rcfg/readconf.c:397-414 | a file with a word that the lexer gives up on is rejected, whatever comes before and after it |
| RcfgRejects.StraySkipped | rcfg/readconf.c:539-591 | a token between two statements that belongs to neither is skipped |
| RcfgRejects.MisplacedBraces | rcfg/readconf.c:546-568 | with braces in the wrong order the file is accepted, the block is lost and its statements stand outside |
| RcfgRejects.LongWordCut | rcfg/readconf.c:260-276 | a word longer than the line buffer is read as two |
| AccessList.AclMatch | acl.c:15-54 | the walk returns the rule of the first row for the address, or the default policy |
| AccessList.MatchLets | acl.c:15-54 | an address is accepted if and only if its first row has rule 1, or it has none and the default policy is 1 |
| AccessList.OnlyAcceptAccepts | parseconf.c:515-525 | whatever the encoding of the rest, only "accept" is accepted, and "reject" is an error |
| AccessList.ParseACL | parseconf.c:529-639 | the loop compiles a block row by row, or fails |
| AccessList.CompiledVerdict | parseconf.c:553-636 | matching the compiled list gives the rule of the first line naming the address, or the last policy, or an error |
| AccessList.CompilePreservesMeaning | parseconf.c:553-636 | an address is accepted if and only if the first line naming it is an accept line, or no line does and the last policy is accept |
| AccessList.CompilesIff | parseconf.c:628-632 | a block compiles if and only if each line does: keyword known and address well formed |
| Lba.OrIsSum | devices.c:70-71 | or-ing a shifted byte above the bits so far is adding it |
| Lba.AndMask | devices.c:73-76 | masking with one bits is the remainder |
| Lba.DecodeLba | devices.c:64-79 | the shift-or loop gives the little-endian sum of six bytes, exact with the LBA48 flag and modulo 2 to the 28 without |
| Lba.Lba48Bit | devices.c:73-73 | the flag test is the sixth bit |
| Lba.EncodeDecode | devices.c:64-79 | six bytes carry every address below 2 to the 48 |
| Lba.AdvertisedSectorsReachable | devices.c:64-79 | an initiator's six bytes give back every sector below the 28-bit capacity in both modes, and every one below 2 to the 48 in LBA48 mode |
| Lba.OffsetBound | devices.c:130-130 | the byte offset stays below 2 to the 57 |
| BlockStore.ServeSector | devices.c:118-174 | a request whose write is complete changes exactly the sectors that an accepted write covers, to its data, also beyond the end of the file |
| BlockStore.FileRefinesSectorMap | devices.c:81-174 | over every run of requests with complete writes the file is the sector map of the last accepted writes, for every sector |
| BlockStore.ReadReturnsLatest | devices.c:134-144 | a permitted read that gets all it asked for returns, sector by sector, the last accepted write or the initial contents |
| BlockStore.UnchangedUnlessWritten | devices.c:256-316 | refused, unknown, failed and zero-sector requests leave the file as it was |
| BlockStore.AcknowledgedWrite | devices.c:146-163 | a write is acknowledged however little of it was transferred, also at the end of the export; it is on the file if and only if the transfer was complete or what it left out was there already |
| BlockStore.AcknowledgedRead | devices.c:134-163 | a short read is answered as a complete one; the answer is what the file holds if and only if the reply buffer happened to hold the rest |
| BlockStore.ShortWriteAcknowledged | devices.c:109-114 | a short write that is acknowledged and lost |
| CfgString.ServeStored | devices.c:421-448 | only a permitted fitting SET, or SET_IF_EMPTY of an empty string, changes the string |
| CfgString.StoredIsDecided | devices.c:379-457 | over every run the string is that of the last SET, or of the first SET_IF_EMPTY since it was empty, and fits |
| CfgString.ReadReturnsDecided | devices.c:382-391 | a permitted READ returns that string |
| CfgString.MatchesExactlyIff | devices.c:394-406 | an exact match is answered exactly for equal strings if and only if the byte order cannot confuse the two lengths |
| CfgString.MatchesPrefixIff | devices.c:408-418 | a partial match is answered exactly for prefixes if and only if the request is not longer than the string |
| CfgString.StaleBytesMatch | devices.c:408-448 | after SET of a string and of a prefix of it, the old string still matches |
| Engine.RunProjects | devices.c:473-543 | over every run of a worker the file depends on the ATA requests alone and the config string on the CFG requests alone |
| Engine.RefusedLeaveNoTrace | devices.c:333-358 | over every run the config requests of refused hosts might as well not have been sent: without them file, string and all replies are the same |
| Engine.ReadReplied | devices.c:235-320 | after every run with complete writes a permitted read that gets all it asked for is answered with one good reply that carries the last accepted writes |
| Replies.ReadTransferred | devices.c:118-174 | a permitted READ or READ EXT leaves everything as it was and gets one reply, with the bytes at the address in the request as far as they were read and the old buffer behind them, or a failure if there are none |
| Replies.WriteTransferred | devices.c:118-174 | a permitted WRITE or WRITE EXT puts the transferred bytes at that address and changes no other, and gets one reply that says whether any was transferred |
| Replies.RefusedAnswered | devices.c:256-316 | a request that the access list for it refuses, or with another command, changes nothing and gets one reply with status 0x41, error 4 and no data |
| Replies.IdentifyAnswered | devices.c:177-232 | a permitted IDENTIFY gets one reply that reports the size of the device, and in the 28-bit field the smaller of it and 0x0fffffff |
| Replies.ReportedSectorsReachable | devices.c:215-218 | every sector below the two sizes of that reply can be addressed, in both modes or with 48 bits |
| Replies.OthersIgnored | devices.c:473-543 | packets too short for their command, or with an unknown one, change nothing and get no reply |
| Replies.CfgIgnored | devices.c:333-358 | a config request of a host that the list for its command refuses changes nothing and gets no reply |
| Replies.ReadAnswered | devices.c:382-391 | a permitted config READ gets one reply with the string, the command of the request, its tag and error byte, and no error flag of its own |
| Replies.MatchAnswered | devices.c:394-418 | the two matches get one such reply with the string if the bytes that the code compares are the same, and else none |
| Replies.SetAnswered | devices.c:436-448 | SET stores what fits and answers without error, or changes nothing and answers with error 2 |
| Replies.FillAnswered | devices.c:421-434 | SET_IF_EMPTY does that for an empty string, and else changes nothing and answers with error 4 |
| Replies.UnknownAnswered | devices.c:450-456 | any other command changes nothing and is answered with error 1 |
| Replies.StringAnswered | devices.c:379-459 | after every run a permitted READ gets one reply that carries the decided string |
| Replies.AdvertFields | devices.c:546-595 | each advertisement goes to the address it is meant for and carries the string, with tag 0 and no error |
| Replies.AudienceIff | devices.c:600-612 | advertisements go to everybody without a list, and else to the addresses whose first row accepts |
| Engine.RepliesAreAddressed | devices.c:28-61 | every reply goes to the sender, from the device's address, with tag, command and response flag; never more than one |
| Engine.StatusIsTruthful | devices.c:235-320 | every ATA request gets one reply, whose status has the error bit if and only if it did not succeed |
| Engine.ErrorFlagIff | devices.c:165-174 | the header's error flag is set if and only if the request had it or a transfer failed |
| Engine.AdvertisedCount | devices.c:600-612 | an address gets one advertisement per accept row if it is accepted, else none |
| Engine.AdvertisedIff | devices.c:600-612 | an address is advertised to if and only if its first row is an accept row |
| Engine.AudienceOfBlock | parseconf.c:553-636 | of a configured block, exactly the addresses whose first line is an accept line |
| Target.Device.FileWrite | devices.c:97-115 | the file after the system call stored some bytes in place, and grew if they go beyond its end |
| Target.Device.FileRead | devices.c:81-94 | fills the front of the reply buffer with what the file has there, leaves the rest of the buffer, and returns how much it got |
| Target.Device.Allowed | devices.c:263-267 | the access check is passed without a list, or by an address that the list accepts |
| Target.Device.Transfer | devices.c:118-174 | file and reply are those of the specification |
| Target.Device.ProcessATA | devices.c:235-320 | file and reply are those of the specification, the entry is released once |
| Target.Device.Query | devices.c:382-418 | READ and the two matches answer as specified and change nothing |
| Target.Device.Change | devices.c:421-456 | the sets and unknown commands change the array and answer as specified |
| Target.Device.ProcessCFG | devices.c:323-465 | config string and reply are those of the specification, the entry is released once |
| Target.Device.ProcessWork | devices.c:473-543 | every path, short and unknown packets and a missing packet included, releases the entry exactly once and does what Handle says |
| Target.Device.Dobcast | devices.c:546-595 | sends one advertisement if the access list lets the address read, and changes nothing else |
| Target.Device.BcastDevice | devices.c:600-612 | sends exactly the advertisements of the audience, in order |
| LinkedList.List.Last | api.c:995-997 | the walk to the end finds the last link |
| LinkedList.List.Append | parseconf.c:139-148 | walking to the end and linking appends to the sequence and keeps the list well formed |
| LinkedList.List.Unlink | api.c:854-868 | relinking the neighbours removes exactly that place and keeps the list well formed |
| DeviceConfig.SlotAt | parseconf.c:914-916 | the k-th open slot gets the default slot plus k, modulo 256 |
| DeviceConfig.NeverWrapsIff | parseconf.c:908-968 | no filled-in slot is the unset value if and only if the counter does not pass 255 |
| DeviceConfig.AcceptedSlots | parseconf.c:1188-1197 | in an accepted configuration the automatic slots are consecutive, different and at most 254 |
| DeviceConfig.NoDefaultSection | parseconf.c:911-916 | without a default section an open slot stays open and is rejected |
| DeviceConfig.CompatibleRows | parseconf.c:1202-1217 | comparing in both orders finds the same clashes as comparing each pair once |
| Configuration.Config.ReferenceInt | parseconf.c:85-101 | the first listed interface of the name, or NULL |
| Configuration.Config.ReferenceAcl | acl.c:58-72 | the first access list of the name, or NULL |
| Configuration.Config.ParseDevAcl | parseconf.c:23-81 | one statement of an acl subsection: role, reference count and error as the parse function says |
| Configuration.Config.ParseDev | parseconf.c:128-281 | a section gives the device, the counts and the result that the parse function says, also when it is given up half way |
| Configuration.Config.FindDev | parseconf.c:310-321 | the object has the devices of all sections after the last one in error, and the counts of all |
| Configuration.Config.LoadDevices | parseconf.c:1322-1329 | reading the device sections and applying the defaults leaves the object as Loading.Load says |
| Loading.LoadGap | parseconf.c:35-64 | after loading any file the count of a list is ahead of the device fields by what all sections took, minus the parsed fields, minus the inherited ones |
| Loading.CleanGap | parseconf.c:35-64 | for a file without errors it is ahead by what the default section names, minus what devices inherit |
| Loading.LoadConservesIff | parseconf.c:927-938 | after loading a file without errors the count is the number of device fields that point at the list if and only if the devices inherit it as often as the default section names it |
| Loading.LoadedRunGap | parseconf.c:927-938 | and over every run of requests after that, with the drift of the run |
| Loading.DevicesAfterError | parseconf.c:310-321 | of the sections, exactly those after the last one in error become devices, in order |
| Loading.SectionMeans | parseconf.c:128-281 | a section is read if and only if each statement is known, and then each field and role has the value of the last statement for it, or is unset |
| Loading.DefaultMeans | parseconf.c:286-305 | the default section is the first of its list, with the two options on if it does not set them |
| Loading.LoadedDevice | parseconf.c:1319-1329 | in a file without errors the k-th device section gives the k-th device: what it describes, completed from the default section with the slot counter at its turn |
| RegistryMeaning.DefaultsOf | parseconf.c:908-968 | each field of each device keeps its own value or takes that of the default section, each role its own list; an option set nowhere is on |
| RegistryMeaning.AcceptedIff | parseconf.c:1102-1219 | a configuration is accepted if and only if log targets and MTUs are right, each device has a file, an interface and an address, and no two have one address without being one target on two interfaces |
| Configuration.Config.DevDefaults | parseconf.c:908-956 | fills in the open fields in place and advances the counter |
| Configuration.Config.DefaultConfig | parseconf.c:960-968 | the loop fills in the whole list |
| Configuration.Config.Validate | parseconf.c:1102-1219 | accepts if and only if log targets and MTUs are valid, every target exists, every device is complete and no two clash |
| Configuration.Config.IntRefUp | network.c:361-366 | one more for that interface, and nothing else changes |
| Configuration.Config.IntRefDown | network.c:369-374 | one less for that interface, and nothing else changes |
| Configuration.Config.AclRefUp | acl.c:92-100 | one more for that access list, and nothing else changes |
| Configuration.Config.AclRefDown | acl.c:104-112 | one less for that access list, and nothing else changes |
| Configuration.Config.StartDevices | devices.c:816-833 | starts the devices in order up to the first that fails, each counts its interface, and succeeds if and only if there is one and all start |
| Configuration.Config.StartDevice | devices.c:728-810 | a device that starts counts its interface; one that fails leaves the counts as they were, after a count up and down if the thread is what failed |
| Configuration.Config.TargetAdd | api.c:913-1036 | the object stands for the configuration after ADD, with its result |
| Configuration.Config.FindClash | api.c:969-983 | finds a clash with a listed device if and only if there is one |
| Configuration.Config.CountHits | api.c:818-824 | counts the devices that the request means |
| Configuration.Config.UnlinkHit | api.c:847-890 | unlinks the only match, although the loop goes on from the unlinked device |
| Configuration.Config.TargetDel | api.c:803-910 | the object stands for the configuration after DEL, with its result, in both versions |
| Configuration.Config.TargetSetAcl | api.c:662-800 | the object stands for the configuration after SETACL, both counts and roles, with its result; RegistryMeaning.SetAclRoles says which roles |
| Configuration.Config.InterfaceDel | api.c:506-563 | the object stands for the configuration after deleting interfaces, with its result |
| Configuration.Config.Execute | api.c:1039-1112 | one request leaves the object as the step function says, with its result, and with no pointer to an unknown interface or list |
| Configuration.Config.ExecuteAll | api.c:1039-1112 | any sequence of requests leaves the object as Registry.Run says, which the theorems about runs speak of |
| RegistryTheorems.RunKeepsCompatible | api.c:967-983 | over every run two devices with one address have one target and different interfaces |
| RegistryTheorems.LoadedRun | parseconf.c:1200-1217 | and so after a validated load |
| RegistryTheorems.AddCompleteIff | api.c:938-1004 | an added device passes the address check if and only if request or default section sets both numbers |
| RegistryMeaning.AddedDevice | api.c:938-1036 | ADD appends the requested device with the defaults and nothing else, or fails if it collides with a listed one or does not start, and advances the slot counter in any case |
| RegistryTheorems.DelRemovesOnlyMatch | api.c:818-893 | DEL removes the device that is the only one with the address, and interface if named, and changes nothing else but its count, or fails and changes nothing; as written it crashes exactly then |
| RegistryTheorems.NamedDelUnambiguous | api.c:818-835 | a request with an interface name never matches two devices |
| RegistryTheorems.StartedExact | devices.c:708-709 | starting all devices makes the interface counts exact |
| RegistryTheorems.RunUsesExact | network.c:361-374 | over every run each interface count is the number of listed devices on it |
| RegistryTheorems.DelInterfaceKeepsListed | api.c:525-553 | deleting interfaces leaves no listed device on an unlisted one |
| RegistryTheorems.DelInterfaceInverted | api.c:525-553 | an interface goes if and only if it has another name, no device uses it and its thread stops |
| RegistryMeaning.InterfacesLeft | api.c:525-553 | the interfaces that stay are in their old order |
| RegistryMeaning.DelInterfaceResult | api.c:525-553 | the request succeeds if and only if the last interface that could go went |
| RegistryTheorems.AddKeepsListedIff | api.c:943-962 | ADD keeps devices on listed interfaces if and only if the interface it chooses is listed |
| RegistryTheorems.RunKeepsListed | api.c:525-553 | if the default section names no interface, no run puts a device on an unlisted interface |
| RegistryTheorems.StaleDefaultInterface | parseconf.c:924-925 | requests that put a device on an unlisted interface, if the default section names one that is not listed or not in use |
| RegistryTheorems.ListedIff | api.c:506-563 | as written, every run leaves all devices on listed interfaces if and only if the default section names none, or one that is listed and in use |
| RegistryTheorems.ServedListedIff | api.c:1039-1112 | in runs without interface deletion all devices stay on listed interfaces if and only if the default section names none or a listed one |
| RegistryMeaning.SetAclRoles | api.c:673-793 | after SETACL each meant device has in each role the first list with the name given for that role, or none if it is empty or unknown; its other fields and all other devices stay |
| RegistryTheorems.SetAclFailsIff | api.c:673-793 | SETACL fails if and only if it means some device and gives a name that no list has |
| RegistryTheorems.SetAclConserves | api.c:673-793 | SETACL changes each count by the change in the fields pointing at the list, found or not |
| RegistryTheorems.SetAclRunConserves | api.c:673-793 | and so does every run of SETACL requests and interface deletions |
| RegistryTheorems.RunGap | parseconf.c:927-938 | over every run a count is off by exactly the fields of deleted devices minus those inherited from the default section |

## Left out

- `include` with glob expansion (rcfg/readconf.c:437-502): depends on the file system, and cyclic includes do not end.
- RcfgLexer.Tokenize: does not expand `include`, which would put the tokens of other files into the list.
- RcfgLexer.ReadConfig: does not expand `include`, for the same reason.
- `checkdatatype` and `checkargs` (rcfg/readconf.c:13-161): `checkargs` returns -1 and the file is rejected, `checkdatatype` ends the process; here both are the parameter `values` of the lexer, and either failure counts as a rejected file.
- `findINT` and `parseINT`: the interface list is taken as given. `findDFLT` and the recursion into nested blocks are modelled on values: a file is a sequence of default sections and one of device sections.
- Log targets, log levels and all logging, `printcfg`, the status and list requests of the API, the control program.
- Sockets, ioctl, the buffer offsets of the packet filter: a listener has a sequence of frames. A short read on Linux (arch/linux_net.c:166-173) and the unknown work type (devices.c:669-672) leak and do not happen in the model; neither does a failed allocation.
- Thread cancellation, reload on SIGHUP and the removal of a running device from the dispatch runtime.
- Reply fields that only repeat constants: queue length, firmware version and largest sector count of CFG replies, the CHS and name fields of IDENTIFY, the size of block devices (a file has its length over 512 sectors).
- Siblings of the configuration tree are sequences, not next pointers; access-list rows and the list of access lists too.
- CfgString.StoredIsDecided: a comparison that reads beyond an array changes nothing, as memcmp does; only its answer is undefined.
