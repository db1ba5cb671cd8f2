# phyMCP in Dafny

phyMCP lets small devices offer tools to a nearby host over ESP-NOW. A host
draws a 16-bit exchange id (xid), packs a JSON payload behind a 12-byte header
and sends it; the radio may lose, repeat or reorder frames; the device keeps a
handful of recent replies, for five seconds each, so that a repeated tool call
is answered from the cache instead of being executed again. A host firmware
offers this on a serial line, and a Python interface drives that line.

This project models the frame layer, the duplicate cache, the device's tool
calls, the host's calls and the network between them, the paged tool list, the
receive queue, both directions of the serial text protocol and the Python
device tables, and proves what they guarantee. `dafny verify dfyconfig.toml`
checks everything.

| file | content |
|---|---|
| `Types.dfy`, `Decimal.dfy` | machine types; decimal text as `printf` and `atoi` see it |
| `Counter.dfy`, `Frame.dfy` | the xid and sequence counters; the frame codec |
| `DuplicateCache.dfy` | the slot array, its two operations, and the expiring map it implements |
| `Device.dfy`, `Led.dfy` | handling one tool call; the example tool |
| `AtMostOnce.dfy`, `Ideal.dfy` | whole runs of a device: what the cache guarantees, and when |
| `HostEvents.dfy`, `World.dfy` | the host's events; a host, a device and a network, end to end |
| `ToolsList.dfy` | pages and cursors |
| `Words.dfy`, `CommandLine.dfy` | the firmware's in-place tokeniser, commands and line buffer |
| `MacAddress.dfy`, `EventLine.dfy` | addresses as text; event lines as the firmware prints and Python parses them |
| `EventStream.dfy` | the octet stream between them: print buffer, `readline` and decoding |
| `HostInterface.dfy`, `Registry.dfy` | the Python side: commands, device tables |
| `RxQueue.dfy` | the receive callback, queue and task |

## Main results

The duplicate cache is the centre. A call handled by the device carries two
clock readings, `at` (lookup) and `done` (store), since the handler runs in
between; the clock never runs backwards (`Ordered`). Two conditions matter, and
both turn out to be exact:

* `RateBounded`: no window of five seconds holds more stores than the cache has
  slots (`RateBoundedIffWindows`). Then, and only then, is every recent execution
  remembered at every moment (`RememberedIffRateBounded`). The documented
  promise, at README.md:183-184 of the repository, has no such condition;
  `Led.OverloadObeysTwice` shows a LED that obeys a copied call twice without it.
* `Timely`: copies of an executed call arrive before its entry expires. Under a
  bounded rate the device answers every call exactly as an ideal device that
  never forgets would, if and only if this holds (`FaithfulIffTimely`).

`World.EndToEnd` carries this to every history of a host, a device, other
stations and a network that loses, repeats and reorders frames: no call is
executed twice, and every TOOL_RESULT event from the device answers a copy of a
call and carries the reply of the one execution of that call, whose xid it has.
`World.CallIsAnswered` adds that a call which is not lost is answered: sent,
delivered and answered, it is one more event with the outcome of its request.
Here xids need only be fresh in the sense that calls less than 65535 draws apart
meet in the cache. Under the same conditions, and however long the host has run,
`World.ToolHeedsEachCallOnce` gives the effect on a tool whose handlers do not
fail: it ends as if each call that got through at all had been delivered once;
`Led.LedObeysTheHost` is this for the LED. For boots of at most 65535 draws
`World.NetworkIsTimely` derives `Timely` from the network alone.

The serial line has exact round trips in both directions: `CallRoundTripIff` for
commands and `EventArrivesIff` for events, both over the octets on the line.
`Registry.CallToolArrivesIff` starts from the device id a caller gives, and
`Registry.CallReturnsIff` and `CallFailsIff` say which line a call ends with;
`Registry.PrintedReplyIsReturned` joins them to the octets the firmware prints.

Properties that do not hold of the code as one might expect, with the condition
under which they do:

* A call reaches the firmware text for text exactly if the tool's name is one word
  in the firmware's sense, name and payload have no line breaks, backspaces, DELs
  or NULs, the payload has no white space around it, and the command fits the line
  buffer (`CallRoundTripIff`). Of a tool name of two words the second becomes part
  of the arguments (`ToolNameIsSplit`). White space after the payload is not sent
  and does no harm (`TrailingSpaceIsNotSent`). A payload with a line break is cut
  there and the rest is read as another command (`BrokenCall`); a DEL in a JSON
  string, which `json.loads` accepts, erases the character before it
  (`ErasedInCall`); a command of 768 characters or more loses its first 768 and
  the remainder is read as a command (`LongLineIsSplit`).
* A call that is accepted returns its reply exactly if that is the first line to
  answer it after the "ok" line. Lines read before are lost to it, so a reply that
  is printed first leaves the call waiting in vain (`CallReturnsIff`,
  `EarlyReplyIsLost`).
* An event's JSON text reaches Python exactly if its octets, as far as they are
  printed, have no line feed, the line is shorter than 512 octets, and the text
  does not end in white space (`EventArrivesIff`); its line is read whole, and
  nothing more than it, exactly under the first two conditions (`FramedIff`). A
  reply with a line feed is cut there, and a longer line loses its own line feed
  and takes the next event with it (`LongEventSwallowsNext`).
* A handler that fails is not recorded, so a copy of its call runs it again
  (`FailingCallActsTwice`), and of calls whose handler ran only those
  (`RunsAgainIffFailed`); at most once holds of successful executions (`Stores`).
* Stopping the receive task frees every message allocated exactly if the task is
  idle; a message in its hands is lost (`StopFreesAllIffIdle`).
* The host does not look at the source of what it hears, so another station's
  frame becomes a TOOL_RESULT event with any xid it likes
  (`OtherStationsAreHeard`); the guarantees hold of exactly the events whose
  source is the device.
* The repository's documentation lets upper layers retry with the same xid
  (README.md:182, docs/architecture.md), but `phymcp_host_call_tool` always
  draws a new one. Copies of a call therefore come from the network, or from a
  caller that sends a frame again itself; `World` delivers any frame any number
  of times.

## Model

| member | source | states |
|---|---|---|
| Counter.SkipZeroCounter.Next | src/phymcp_frame.c:114-123 | one draw is a rotation of the ring 1..65535, seeded from the random source only while the counter is zero |
| Counter.DrawClosedForm | src/phymcp_frame.c:103-123 | every draw is a function of the first random value and its number, so the counter is seeded once |
| Counter.DrawsEqualIff | src/phymcp_frame.c:103-123 | two draws agree exactly when they are a multiple of 65535 apart: consecutive draws are distinct and the period is exact |
| Counter.SeededOnce | src/phymcp_frame.c:103-123 | draws never return 0 and do not depend on later answers of the random source |
| Frame.Pack | src/phymcp_frame.c:25-64 | the error cases in the order of the checks, null pointers included, with nothing written; otherwise the buffer decodes to a frame with the type cast to a byte, the flags, seq, xid and text given, the length is reported, and nothing beyond is touched |
| Frame.Unpack | src/phymcp_frame.c:66-101 | the header and payload span are those of the decoded frame; errors in the order of the checks, null pointers included, with nothing written |
| Frame.EncodeAt | docs/architecture.md:47-58 | each header field of an encoded frame sits at its documented offset, in little-endian order |
| Frame.DecodeIff | src/phymcp_frame.c:25-101 | a buffer decodes to a frame exactly when it starts with that frame's encoding, whatever follows: both round trips |
| Frame.DecodeErrorIff | src/phymcp_frame.c:74-89 | which buffers are refused as of another version, and which as no frame |
| DuplicateCache.CacheSize | src/phymcp_device.c:36-43 | the configured number of slots if that is between 1 and 16, and 8 otherwise |
| DuplicateCache.Cache.FindDuplicate | src/phymcp_device.c:45-65 | finds the first live slot with the key and marks unused exactly the dead slots before it |
| DuplicateCache.Cache.StoreDuplicate | src/phymcp_device.c:67-97 | fills the first reusable slot, or a random one if all are live, and no other |
| DuplicateCache.MissThenStore | src/phymcp_device.c:45-97 | keys stay distinct when a store follows a missed lookup, however much later; slots past the size stay unused |
| DuplicateCache.LookupIsView | src/phymcp_device.c:45-65 | a lookup answers exactly as the abstract map restricted to unexpired entries |
| DuplicateCache.SweepIsInvisible | src/phymcp_device.c:52-57 | dropping expired slots changes the answer of no later lookup, for any key |
| DuplicateCache.StoreIsMapUpdate | src/phymcp_device.c:76-96 | a store updates the map at its key and removes at most one other live entry, and that only when every slot is live |
| DuplicateCache.ViewIsBounded | src/phymcp_device.c:14-29 | the map never has more entries than slots |
| Device.Device.FindTool | src/phymcp_device.c:278-289 | the first tool with the name, or none |
| Device.Device.HandleToolCall | src/phymcp_device.c:300-354 | cache, tool state and outcome change as the step function that the run theorems are about |
| Device.Perform | src/phymcp_device.c:311-348 | running a request never replays, and a successful reply is neither empty nor too long for a frame |
| Device.RefusedIff | src/phymcp_device.c:311-326 | a request is refused as malformed, or for want of a tool, exactly when the payload does not parse, or no tool of the name with a handler comes first; the tool is then untouched |
| Device.PerformRuns | src/phymcp_device.c:278-348 | otherwise the handler of the first tool of the name is run on the request's own arguments, or on the empty object if there are none, and its state, reply, empty reply or failure is the outcome |
| Device.CauseIsNamed | src/phymcp_device.c:117-131 | the answer frame carries the call's xid and, with flag 2 set, the error code and message of the cause |
| Device.AnswerArrives | src/phymcp_device.c:336-353 | every answer fits a frame and is decoded to the same flags, xid and payload bytes |
| AtMostOnce.CacheInvariant | src/phymcp_device.c:36-97 | in every reachable state keys are distinct and each used slot is an earlier execution's entry, expiring five seconds after its store |
| AtMostOnce.FullMeansTooMany | src/phymcp_device.c:76-88 | a store that finds every slot alive has more stores in its five-second window than there are slots (pigeonhole) |
| AtMostOnce.ReplayIff | src/phymcp_device.c:300-309 | a call is replayed exactly when an earlier execution under its key is at most five seconds old, and gets that execution's reply |
| AtMostOnce.RepeatedExecutionIsLate | src/phymcp_device.c:300-354 | a second execution under a key is looked up strictly after the first one's entry expired |
| AtMostOnce.RememberedIffRateBounded | src/phymcp_device.c:67-97 | recent executions are always remembered if and only if the rate is bounded |
| AtMostOnce.RateBoundedIffWindows | src/phymcp_device.c:14-15 | the rate is bounded exactly when no closed five-second window, wherever it lies, holds more stores than the cache has slots |
| Ideal.FaithfulIffTimely | src/phymcp_device.c:300-354 | the device answers every call as one that never forgets, if and only if copies come in time; the tool states then agree throughout |
| Ideal.RepeatsHaveNoEffect | src/phymcp_device.c:300-354 | with handlers that never fail, the tool ends as if repeated calls had been deleted |
| Ideal.RunsAgainIffFailed | src/phymcp_device.c:341-345 | among copies of a call whose handler ran, with no success since, exactly those of a failed run are run again |
| Ideal.FailingCallActsTwice | src/phymcp_device.c:341-345 | two copies of a call to a tool that acts and then fails change its state twice, though only one call was made |
| Led.LedTool.Set | examples/led_control/main/device_main.c:24-61 | the new light and count and the exact reply text in all four cases |
| Led.CallSetsLight | examples/led_control/main/device_main.c:24-61 | a call that toggles or sets is done, counted, and answered with the new light and the new count |
| Led.OtherCallsAreIdle | examples/led_control/main/device_main.c:24-61 | other arguments are answered with an error result and change nothing |
| Led.EffectOnLed | examples/led_control/main/device_main.c:24-61 | the light is the last setting flipped by the toggles since, and the count is the number of commands, modulo 2^32 |
| Led.LedObeysDistinctCalls | examples/led_control/main/device_main.c:24-61 | whatever the network repeats, the LED obeys and counts each distinct call once |
| Led.LedObeysTheHost | examples/led_control/main/device_main.c:24-61 | for every history, of any length, in which xids are fresh while cached: the LED ends as if each host call that got through had been delivered exactly once, in the order of first copies, along with what other stations sent and was not replayed |
| Led.LedObeysInShortBoot | examples/led_control/main/device_main.c:24-61 | the same for calls from the host only, in a boot of at most 65535 draws, with nothing asked of the xids |
| Led.TogglesFlipOnce | examples/led_control/main/device_main.c:40-41 | after toggles alone the light is flipped exactly when their number is odd |
| Led.OverloadObeysTwice | src/phymcp_device.c:86-88 | with one slot, any call between a call and its timely copy makes the LED obey the copy again |
| World.NextIsConsistent | src/phymcp_host.c:157-191 | every action of host, network, strangers and device keeps the link between frames, calls, outcomes and events |
| World.CallIsSent | src/phymcp_host.c:157-191 | a call puts one frame of type 3 on the air, with the xid drawn and its payload, or none if it is too long |
| World.CallAfterDraw | src/phymcp_host.c:186-190 | requests of other kinds use up an xid each |
| World.DeliveryIsHandled | src/phymcp_device.c:300-354 | a frame delivered to the device is one more arrival with its sender, xid and payload exactly if it decodes to a tool call |
| World.CallArrives | src/phymcp_host.c:157-191 | a call sent and delivered is one more arrival, a copy of that call |
| World.CallIsAnswered | src/phymcp_host.c:52-71 | a call sent, delivered, answered and delivered back is exactly one more event of the device under its xid, a result if there is a reply and an error otherwise; under fresh xids its outcome is that of running the request on the tool |
| World.FirstCopyIsPerformed | src/phymcp_device.c:300-354 | the first copy of a call runs |
| HostEvents.EventKindIff | src/phymcp_host.c:32-50 | the event kind of each message type and of the error flag |
| World.ReplySize | src/phymcp_device.c:346-353 | every reply, executed or replayed, fits a frame |
| World.XidNamesCall | src/phymcp_host.c:186-190 | calls fewer than 65535 draws apart have the same xid only if they are the same call |
| World.FewDrawsAreFresh | src/phymcp_frame.c:114-123 | in a boot of at most 65535 draws every xid is fresh |
| World.StaleXidIsReplayed | src/phymcp_device.c:302-309 | without freshness: a call arriving while another's reply is cached is given that reply exactly when their draws are a multiple of 65535 apart |
| World.AtMostOnceExecution | src/phymcp_device.c:300-354 | two successful executions of copies of one host call are the same execution |
| World.NoFalseHit | src/phymcp_host.c:186-190 | a replayed call is answered with the reply of an earlier execution of that very call, so a first copy always reaches the tools |
| World.ResultReportsExecution | src/phymcp_host.c:52-71 | each TOOL_RESULT event from the device answers a copy of some call and has its xid and the reply of its execution |
| World.OtherStationsAreHeard | src/phymcp_host.c:52-71 | a tool-call frame from any other station becomes a TOOL_RESULT event with that station's xid and text |
| World.EndToEnd | src/phymcp_device.c:300-354 | for every history of actions: at most one execution a call, every TOOL_RESULT of the device the reply to the call it answers, and the xid names the call |
| World.NetworkIsTimely | src/phymcp_host.c:186-190 | in a boot of at most 65535 draws with calls from the host only, arrivals agree by key, and the device's timing condition is the network's |
| World.ToolHeedsEachCallOnce | src/phymcp_device.c:300-354 | for any tool whose handlers do not fail: its state is that after each host call that got through, once, and every unreplayed call of other stations |
| World.ArrivedOnce | src/phymcp_host.c:157-191 | the calls that got through are listed each once |
| ToolsList.ListTools | src/phymcp_device.c:214-276 | the page is the stretch of the table from the cursor, at most the limit long; negative and large cursors give an empty last page and no index leaves the table |
| ToolsList.PageContents | src/phymcp_device.c:223-272 | the tools from the cursor on, as many as asked for if 1 to 8 and eight otherwise, with a next cursor exactly if some are left; nothing for a cursor outside the table |
| ToolsList.CursorRoundTrip | src/phymcp_device.c:267-272 | the cursor text fits its 16-byte buffer and names the same position when it comes back |
| ToolsList.FollowListsTable | src/phymcp_device.c:223-275 | following the cursors with any limits lists the table in order, every tool once |
| ToolsList.PageCount | src/phymcp_device.c:229-272 | with one limit throughout the number of pages is the quotient rounded up, and one for an empty table |
| RxQueue.Transport.RecvCb | src/phymcp_transport_espnow.c:105-133 | queues, drops or ignores the message, with the allocation accounted for |
| RxQueue.AcceptedIff | src/phymcp_transport_espnow.c:105-133 | a message is queued exactly if it has data and comes while the transport is open, with memory and room |
| RxQueue.DeliverIff | src/phymcp_transport_espnow.c:145-158 | the packet passed on has the message's sender and its frame |
| RxQueue.Transport.TakeNext | src/phymcp_transport_espnow.c:139-143 | takes the oldest queued message, and only while none is in flight |
| RxQueue.Transport.Process | src/phymcp_transport_espnow.c:145-159 | passes on exactly the packet the message decodes to, if it decodes, and frees the message |
| RxQueue.Transport.Deinit | src/phymcp_transport_espnow.c:214-240 | deletes the task where it stands, frees every queued message and nothing else, and does nothing if already stopped |
| RxQueue.StopFreesAllIffIdle | src/phymcp_transport_espnow.c:214-240 | stopped after any interleaving, every message allocated is freed exactly if none was in the task's hands, and nothing happens afterwards |
| RxQueue.InOrderExactlyOnce | src/phymcp_transport_espnow.c:105-161 | over every interleaving, packets are passed on in order of arrival, once for each accepted message that unpacks; messages allocated are queued, in flight or freed |
| RxQueue.DryMeansAllDelivered | src/phymcp_transport_espnow.c:135-161 | once the queue is dry every accepted message has been dealt with and every allocation freed |
| RxQueue.RoundsDeliverAll | src/phymcp_transport_espnow.c:135-161 | as many rounds of the task as messages are queued pass all of them on and free them |
| Words.TrimLine | examples/led_control/main/host_main.c:84-98 | the buffer holds the trimmed text, in place |
| Words.NextToken | examples/led_control/main/host_main.c:100-120 | cuts off the first word in place; of the whole buffer only the separator after the word changes |
| Words.AllTokens | examples/led_control/main/host_main.c:100-120 | token after token cut in the shared buffer: at the end every earlier pointer still holds its word |
| Words.AllWordsOfLayout | examples/led_control/main/host_main.c:100-120 | tokenising any arrangement of words and white space gives exactly the words, in order |
| Words.LineIsLayout | examples/led_control/main/host_main.c:100-120 | every line is such an arrangement of the words the tokeniser returns |
| Words.TrimExact | examples/led_control/main/host_main.c:84-98 | trimming removes exactly the white space around a text |
| CommandLine.IsUintToken | examples/led_control/main/host_main.c:122-134 | true exactly for a non-empty run of digits |
| CommandLine.HandleScan | examples/led_control/main/host_main.c:193-223 | which words are taken as prefix and window, both read after both cuts |
| CommandLine.HandleCall | examples/led_control/main/host_main.c:255-283 | the call read from the line, or which of its parts is missing |
| CommandLine.HandleLine | examples/led_control/main/host_main.c:302-328 | the command the trimmed text stands for, whatever the in-place work did to the buffer |
| CommandLine.BadMacIsRefused | examples/led_control/main/host_main.c:225-233 | tools, call and ping are refused exactly if the address is missing or is none |
| CommandLine.CallNeedsTool | examples/led_control/main/host_main.c:262-266 | a call without a tool name is refused |
| CommandLine.CallWithoutArguments | examples/led_control/main/host_main.c:267-272 | a call without arguments gets the empty object |
| CommandLine.ToolsWithoutLimit | examples/led_control/main/host_main.c:235-253 | tools without a limit |
| CommandLine.NameOnly | examples/led_control/main/host_main.c:302-328 | blank lines, scan and help alone, and unknown names |
| CommandLine.BlankLineIsIgnored | examples/led_control/main/host_main.c:363-370 | a line break on an empty line gives nothing |
| CommandLine.Feed | examples/led_control/main/host_main.c:359-382 | one byte: the new line text and what happened, with the position always inside the buffer |
| CommandLine.AppMain | examples/led_control/main/host_main.c:356-383 | for every input the loop yields exactly the events of the pure fold |
| CommandLine.EraseUndoes | examples/led_control/main/host_main.c:371-376 | a backspace takes back the character typed last |
| CommandLine.LineIsDelivered | examples/led_control/main/host_main.c:363-379 | a line of fewer than 768 plain characters is delivered whole |
| CommandLine.LongLineIsSplit | examples/led_control/main/host_main.c:377-382 | 768 plain characters are reported as too long and the rest starts a new line |
| HostInterface.CallRoundTrip | examples/host_mcp_interface/phymcp-host-interface.py:229-242 | a one-line call command that fits reaches the firmware as the three texts it was made of |
| HostInterface.BrokenCall | examples/host_mcp_interface/phymcp-host-interface.py:315-318 | a payload with a line break is cut there and the rest is read as a command of its own |
| HostInterface.CallRoundTripIff | examples/host_mcp_interface/phymcp-host-interface.py:229-242 | the firmware handles exactly the call that was meant if and only if the tool name is one word, name and payload have no line breaks, erasing characters or NULs, the payload has no white space around it, and the command fits the line buffer |
| HostInterface.ToolNameIsSplit | examples/host_mcp_interface/phymcp-host-interface.py:229-242 | a tool name of two words is taken apart: the second becomes part of the arguments |
| HostInterface.CallsArePlain | examples/led_control/main/host_main.c:359-382 | whatever bytes arrive, no call made of them has line breaks, erasing characters or NULs in tool name or arguments, nor white space in the one or around the other |
| HostInterface.TrailingSpaceIsNotSent | examples/host_mcp_interface/phymcp-host-interface.py:315-318 | a payload with trailing white space sends the same octets as without |
| HostInterface.ErasedInCall | examples/host_mcp_interface/phymcp-host-interface.py:115-120 | a character followed by DEL or backspace in a payload is gone when the call is handled |
| HostInterface.PrintedMacIsGoodTarget | examples/led_control/main/host_main.c:225-233 | an address the firmware prints is accepted as the target of a command |
| HostInterface.ScanForms | README.md:216-217 | the three forms of scan set the prefix and the window they name |
| HostInterface.ToolsForm | examples/host_mcp_interface/phymcp-host-interface.py:213 | the tools command names the device and passes the limit on |
| HostInterface.PingForm | examples/host_mcp_interface/phymcp-host-interface.py:260 | the ping command names the device |
| EventLine.ParsePrefixed | examples/host_mcp_interface/phymcp-host-interface.py:75-102 | kind and fields are read back and all that follows the first marker is the JSON text, even if it contains the marker |
| EventLine.ParseTokens | examples/host_mcp_interface/phymcp-host-interface.py:75-102 | a line without JSON text is read as its kind and its fields |
| EventLine.PyIntPrintInt | examples/host_mcp_interface/phymcp-host-interface.py:105-112 | Python reads back every number the firmware prints |
| MacAddress.MacRoundTrip | src/phymcp_frame.c:125-156 | octets printed as MAC text read back as the same octets, whatever text follows |
| EventStream.FramedIff | examples/led_control/main/host_main.c:27-41 | the first line read after an event is printed is that event, and what follows is left, exactly if the line is shorter than the print buffer and its JSON text has no line feed |
| EventStream.EventIsRecognised | examples/host_mcp_interface/phymcp-host-interface.py:75-102 | whatever happens to the JSON text, the first line read gives kind, xid, address and signal strength of the event |
| EventStream.EventArrivesIff | examples/led_control/main/host_main.c:136-171 | an event is read back field by field, JSON text included, exactly if its line arrives whole and the text does not end in white space |
| EventStream.LongEventSwallowsNext | examples/led_control/main/host_main.c:27-41 | an event too long for the buffer is read together with the next one, as one event with a JSON text that is not its own |
| Registry.Interface.DeviceFromLine | examples/host_mcp_interface/phymcp-host-interface.py:380-396 | the tables after a device line, or no change for a bad MAC |
| Registry.Interface.RememberLine | examples/host_mcp_interface/phymcp-host-interface.py:362-378 | the tables after any line |
| Registry.Interface.WaitForEvent | examples/host_mcp_interface/phymcp-host-interface.py:350-360 | returns the first line with the xid and one of the kinds, having remembered that line and all before it and read nothing after it |
| Registry.Interface.WaitForOk | examples/host_mcp_interface/phymcp-host-interface.py:331-348 | the verdict of the first line that settles the command, with that line and all before it remembered and read |
| Registry.Interface.WaitForReply | examples/host_mcp_interface/phymcp-host-interface.py:240-247 | the first answering line after the "ok" line, which is remembered twice |
| Registry.Interface.CallTool | examples/host_mcp_interface/phymcp-host-interface.py:229-256 | an unknown id sends nothing; otherwise the octets sent, the outcome and the lines remembered |
| Registry.CallReads | examples/host_mcp_interface/phymcp-host-interface.py:240-247 | a call reads and remembers the lines up to its reply, that one twice, or up to a deadline |
| Registry.CallReturnsIff | examples/host_mcp_interface/phymcp-host-interface.py:229-256 | an accepted call returns a line exactly if it is the first result after the "ok" line with no other answer in between, and waits in vain exactly if no answer follows |
| Registry.CallFailsIff | examples/host_mcp_interface/phymcp-host-interface.py:331-360 | when a call is refused, when its "ok" line lacks an xid, and which error event it fails with |
| Registry.PrintedOkIsAccepted | examples/led_control/main/host_main.c:280-282 | the printed "ok" line is read with its command and xid, settles that command and no other, and is not taken for an event |
| Registry.PrintedErrorIsRefused | examples/led_control/main/host_main.c:264 | the printed "error reason=..." line refuses the command waited for |
| Registry.PrintedReplyIsReturned | examples/host_mcp_interface/phymcp-host-interface.py:229-256 | from the octets printed for an accepted call and its event: the call returns a result, fails with an error, and waits in vain for any other kind |
| Registry.ResolvedMac | examples/host_mcp_interface/phymcp-host-interface.py:398-402 | an id in MAC form, of either case, resolves to the printed text of the same six octets, and a printed address to itself |
| Registry.EarlyReplyIsLost | examples/host_mcp_interface/phymcp-host-interface.py:331-360 | a reply read before the "ok" line is not found any more |
| Registry.CallToolArrivesIff | examples/host_mcp_interface/phymcp-host-interface.py:229-242 | a MAC id leads to its own address and any other id to the device last known by it; the firmware accepts that address, and the call is handled as meant exactly under the conditions on tool name, payload and length |
| Registry.TablesTellHistory | examples/host_mcp_interface/phymcp-host-interface.py:362-396 | after any lines the devices are exactly those announced, each entry is what was last heard of it under the last name it gave, the tool cache holds the last list of each address, and an alias leads to the device that last went by it |
| Registry.ResolvedIsKnown | examples/host_mcp_interface/phymcp-host-interface.py:398-406 | any id that is not a MAC leads to the device that last announced itself under it, a known one, or nowhere if there is none |
| Registry.DeviceLineTwice | examples/host_mcp_interface/phymcp-host-interface.py:184-188 | reading a device line twice, as a scan does, changes nothing but the time |
| Registry.PrintedMacIsAccepted | examples/host_mcp_interface/phymcp-host-interface.py:380-383 | an address the firmware prints is a valid key and already in lower case |
| Registry.PrintedEventIsUnderstood | examples/host_mcp_interface/phymcp-host-interface.py:350-360 | the first line read after an event is printed answers calls exactly if it is a result or an error, tool lists and pings exactly if it is theirs, and only under its xid; it concerns the device it came from, and its JSON text is the event's exactly if that arrives whole |

## Left out

- ESP-IDF, Wi-Fi, NVS, peer and key setup, serial drivers and GPIO: foreign calls. The radio is the world's freedom to deliver any frame ever sent any number of times; clock readings and random numbers are parameters.
- JSON parsing and printing: request payloads go through a parser given as a function, and constant replies are their printed text. Memory exhaustion inside the JSON library and the handlers is not modelled.
- Discover, ping and tools/list replies, and the error reply to unknown message types, are not part of `World`: they touch neither the cache nor a tool and are never TOOL_RESULT events. Discovery jitter is not modelled.
- A reply that cannot be sent because the peer list is full counts as lost.
- In `World` other stations send to host and device from their own addresses: a frame under the host's or the device's address is one that station sent.
- One boot of the host: a reseeded counter could repeat an xid at once.
- ToolsList.FollowListsTable: assumes that every page fits a frame, which depends on the tool descriptions.
- ToolsList.ListTools: cursors are assumed to be numbers in the range of `int`, as `atoi` requires, and the table to fit the address space.
- EventStream.EventArrivesIff: Python's UTF-8 decoder is any function that splits at ASCII characters and makes none up (`IsDecoder`); a read that times out in the middle of a line is not modelled.
- EventLine.PyIntPrintInt: `int(text, 0)` is modelled on decimal text only, the form the firmware prints.
- CommandLine.HandleScan: the number in the window word is kept as text; the scan delay and the reply lines of the commands are not modelled.
- MacAddress.MacRoundTrip: the reader takes two hex digits an octet, after white space; the signs and `0x` prefixes that `sscanf` also accepts are not modelled, and the command line takes the reader as a parameter.
- Registry.Interface.RememberLine: lower-casing is ASCII, and the id given to `Resolve` is already stripped.
- Registry.Interface.CallTool: a deadline is the number of lines that can be read before it, and the id is given stripped. Locks and the MCP server of the Python interface are not modelled.
- RxQueue.StopFreesAllIffIdle: a stop that falls inside the application's callback counts the packet as not passed on.
