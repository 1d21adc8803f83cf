# sonf reactor, modelled in Dafny

sonf is an NIO reactor for Android clients. A `PollingController`
(AbstractPollingIoController with NioChannelController) runs a worker that
drains the connect queue. It opens and connects socket channels, watches
connects still in progress, times them out and cancels them. It hands every
connected session to the one `Processor` (AbstractPollingIoProcessor with
NioProcessor). The processor's worker registers new sessions, reads from and
flushes to their channels, removes closed sessions, and fires idle and
write-timeout events. Every event crosses the session's `DefaultFilterChain`
on its way to the `IOHandler`; a `ProtocolFilter` in that chain turns bytes
into messages and back.

The project models each part in the form it has in the source:

- `processor.dfy` (module `Processors`) and `polling_controller.dfy`
  (`PollingControllers`): classes whose queues are `seq` fields and whose
  selector is a field. Each worker pass is a method with a loop, proved
  against specification functions (`NextFlush`, `Spins`, `ReadCalls`,
  `TimeOutTargets`, `ScheduledAll`, `DrainOf`).
- `session.dfy` (`Sessions`): the session's state machine, write queue, idle
  clock, attributes and remote address.
- `filter_chain.dfy` (`FilterChains`): the doubly linked chain of entries.
- `filter_events.dfy` (`FilterEvents`): event dispatch, as pure functions over
  a snapshot of the chain.
- `chain_builder.dfy` (`ChainBuilders`), `protocol_filter.dfy`
  (`ProtocolFilters`): chain building and the protocol filter's outputs.
- `futures.dfy` (`Futures`): the single-assignment future and its connect,
  write and close views.
- `io_buffer.dfy` (`Buffers`): the position/limit/capacity byte buffer, its
  string reader and writer.
- `write_packet.dfy`, `attribute_key.dfy`, `attribute_map.dfy`,
  `config.dfy`, `controller_base.dfy`, `dns_cache.dfy`, `logger.dfy`,
  `string_utils.dfy`, `java_lang.dfy`, `transport.dfy`, `common.dfy`: the
  packets, attributes, configuration, shared controller state, DNS cache,
  level filter, string helpers, the java.lang behaviour the core relies on,
  the socket's answers and shared vocabulary.

The socket, the selector's readiness, the DNS lookup and the clock are
inputs: a read or write is answered from a script of results, a connect
attempt from a `Dial` value, a lookup from a function parameter, and the
time is a `now` parameter.

## Model

| member | source | states |
|---|---|---|
| AttributeKeys.HashOfName | sonfdroid/src/main/java/com/sonf/core/session/AttributeKey.java:41-45 | hashCode stays in int range; with the name still null it is 17*37 = 0x275 |
| AttributeKeys.NewKey | sonfdroid/src/main/java/com/sonf/core/session/AttributeKey.java:32-34 | the key's name is class name, ".", key name and "@275": the hash is taken while the name field is still null |
| AttributeKeys.Equals | sonfdroid/src/main/java/com/sonf/core/session/AttributeKey.java:47-56 | equals holds exactly for a non-null AttributeKey with the same name |
| AttributeKeys.EqualKeysHashAlike | sonfdroid/src/main/java/com/sonf/core/session/AttributeKey.java:41-56 | equal keys have equal hash codes (the equals/hashCode contract) |
| AttributeKeys.KeySuffixIsConstant | sonfdroid/src/main/java/com/sonf/core/session/AttributeKey.java:33 | every constructed name ends in "@275", whatever the class and key name |
| AttributeKeys.KeysCanCollide | sonfdroid/src/main/java/com/sonf/core/session/AttributeKey.java:33 | two different (class, name) pairs build equal keys, since the dot is not escaped |
| AttributeMaps.DefaultAttributeMap.Get | sonfdroid/src/main/java/com/sonf/core/session/AbstractIOSession.java:413-416 | a null key is an IllegalArgumentException; otherwise the stored value, or null when the key is absent |
| AttributeMaps.DefaultAttributeMap.Set | sonfdroid/src/main/java/com/sonf/core/session/AbstractIOSession.java:422-430 | a null key throws and changes nothing; a null value removes the key; any other value is stored; the previous value is returned |
| AttributeMaps.DefaultAttributeMap.SetIfAbsent | sonfdroid/src/main/java/com/sonf/core/session/AbstractIOSession.java:436-443 | a null key throws; a null value returns null and changes nothing; a value is stored only when the key is absent; the value already there is returned |
| AttributeMaps.DefaultAttributeMap.Remove | sonfdroid/src/main/java/com/sonf/core/session/AbstractIOSession.java:449-452 | a null key throws; otherwise the key is gone and its previous value is returned |
| AttributeMaps.DefaultAttributeMap.Contains | sonfdroid/src/main/java/com/sonf/core/session/AbstractIOSession.java:458-461 | a null key throws; otherwise true exactly when the key is present |
| AttributeMaps.DefaultAttributeMap.GetKeys | sonfdroid/src/main/java/com/sonf/core/session/AbstractIOSession.java:467-472 | the returned set holds exactly the keys for which contains answers true |
| AttributeMaps.SetThenGet | sonfdroid/src/main/java/com/sonf/core/session/AbstractIOSession.java:413-430 | a value stored with set is read back by get, and every other key reads as before |
| WritePackets.WritePacket.constructor | sonfdroid/src/main/java/com/sonf/core/write/WritePacket.java:20-24 | the original and the current message are both the given message; the future is the one given; no start time yet |
| WritePackets.WritePacket.SetMessage | sonfdroid/src/main/java/com/sonf/core/write/WritePacket.java:46-48 | the current message is replaced, the start time kept, and the original message (a constant) never changes |
| WritePackets.WritePacket.SetStartTime | sonfdroid/src/main/java/com/sonf/core/write/WritePacket.java:59-61 | the start time is the given time and the message is unchanged |
| StringUtils.Equals | src/main/java/com/yynie/myutils/StringUtils.java:39-41 | true exactly when both are null or both hold the same text |
| StringUtils.EqualsIgnoreCase | src/main/java/com/yynie/myutils/StringUtils.java:43-45 | true exactly when both are null or both have the same length and match character by character up to letter case; implied by equals |
| StringUtils.IgnoreCaseSymmetric | src/main/java/com/yynie/myutils/StringUtils.java:43-45 | equalsIgnoreCase does not depend on the order of its arguments |
| StringUtils.IsBlank | src/main/java/com/yynie/myutils/StringUtils.java:51 | true exactly for null or a string whose characters are all at most U+0020 (so trim leaves nothing) |
| StringUtils.IsNotBlank | src/main/java/com/yynie/myutils/StringUtils.java:47-49 | true exactly for a non-null string with some character above U+0020: the negation of isBlank |
| StringUtils.IsAnyBlank | src/main/java/com/yynie/myutils/StringUtils.java:53-68 | true exactly for a null or empty argument list or one with a blank entry |
| StringUtils.IsNoneBlank | src/main/java/com/yynie/myutils/StringUtils.java:70-72 | true exactly for a non-empty argument list none of whose entries is blank |
| StringUtils.HexValue | src/main/java/com/yynie/myutils/StringUtils.java:75 | a recognised digit has a value below 16 and is the digit the hex table holds at that value |
| StringUtils.HexValueOfDigit | src/main/java/com/yynie/myutils/StringUtils.java:75 | every digit of the table reads back as its own index |
| StringUtils.DecodeHexOfEncoding | src/main/java/com/yynie/myutils/StringUtils.java:74-83 | a string that encodes bytes two digits each decodes back to those bytes |
| StringUtils.ByteArrayToHex | src/main/java/com/yynie/myutils/StringUtils.java:74-83 | the result has two upper-case digits per byte, high nibble first, and decodes back to the input bytes |
| JavaLang.NatToDecimal | sonfdroid/src/main/java/com/sonf/nio/DNSCache.java:39 | the decimal text Integer.parseInt reads: at least one digit, all digits, no leading zero |
| JavaLang.DigitsValueOfDecimal | sonfdroid/src/main/java/com/sonf/nio/DNSCache.java:39 | reading the decimal text of n gives n back |
| JavaLang.ParseInt | sonfdroid/src/main/java/com/sonf/nio/DNSCache.java:39 | Integer.parseInt: an optional sign and at least one digit; any value it returns is within int range |
| JavaLang.ParseIntOfDecimal | sonfdroid/src/main/java/com/sonf/nio/DNSCache.java:39 | every int written by Integer.toString is read back by Integer.parseInt |
| JavaLang.ToHexString | sonfdroid/src/main/java/com/sonf/core/session/AttributeKey.java:33 | Integer.toHexString writes at least one digit |
| JavaLang.TrimEmptyIffAllWhite | src/main/java/com/yynie/myutils/StringUtils.java:47-51 | a string trims to nothing exactly when every character is at most U+0020 |
| JavaLang.SplitAll | sonfdroid/src/main/java/com/sonf/nio/DNSCache.java:34 | every field lies between separators and contains none |
| JavaLang.JoinSplitAll | sonfdroid/src/main/java/com/sonf/nio/DNSCache.java:34 | joining the fields of a split with the separator rebuilds the string |
| JavaLang.SplitAllJoin | sonfdroid/src/main/java/com/sonf/nio/DNSCache.java:34 | splitting the join of separator-free fields gives those fields back |
| JavaLang.SplitOfJoin | sonfdroid/src/main/java/com/sonf/nio/DNSCache.java:34 | String.split of a join of two or more separator-free fields, the last non-empty, is exactly those fields |
| JavaLang.DropTrailingEmpty | sonfdroid/src/main/java/com/sonf/nio/DNSCache.java:34 | the result is a prefix of the fields whose last field is non-empty, and only empty fields were dropped |
| JavaLang.StringHash | sonfdroid/src/main/java/com/sonf/core/session/AttributeKey.java:43 | String.hashCode stays in int range |
| DnsCache.DottedQuadAccepted | sonfdroid/src/main/java/com/sonf/nio/DNSCache.java:33-48 | isIpV4 accepts every dotted quad of decimal octets 0..255 |
| DnsCache.TrailingDotAccepted | sonfdroid/src/main/java/com/sonf/nio/DNSCache.java:33-48 | isIpV4 also accepts a dotted quad with a trailing dot, because split drops trailing empty fields |
| DnsCache.OutOfRangeRejected | sonfdroid/src/main/java/com/sonf/nio/DNSCache.java:33-48 | a first part above 255 makes isIpV4 false |
| DnsCache.Served | sonfdroid/src/main/java/com/sonf/nio/DNSCache.java:81-86 | an entry yields its address exactly while the clock is before its expiry |
| DnsCache.PutThenLookup | sonfdroid/src/main/java/com/sonf/nio/DNSCache.java:56-79 | after put, the host is served for exactly validMs milliseconds and every other host reads as before |
| DnsCache.OverflowingValidityNeverServed | sonfdroid/src/main/java/com/sonf/nio/DNSCache.java:76-79 | a validity of Long.MAX_VALUE wraps the expiry negative, so the entry is never served |
| DnsCache.DNSCache.constructor | sonfdroid/src/main/java/com/sonf/nio/DNSCache.java:18-24 | a new cache holds no entries |
| DnsCache.DNSCache.Get | sonfdroid/src/main/java/com/sonf/nio/DNSCache.java:56-59 | get answers the lookup of the host at the current clock: null for an unknown or expired host |
| DnsCache.DNSCache.Put | sonfdroid/src/main/java/com/sonf/nio/DNSCache.java:68-70 | put replaces only the host's entry, with the expiry now + validMs in long arithmetic |
| DnsCache.DNSCacheSingleton.constructor | sonfdroid/src/main/java/com/sonf/nio/DNSCache.java:18-24 | before the first getInstance there is no instance |
| DnsCache.DNSCacheSingleton.GetInstance | sonfdroid/src/main/java/com/sonf/nio/DNSCache.java:18-25 | the first call creates an empty cache and every later call returns that same cache |
| Logging.FromIntValue | myutils/src/main/java/com/yynie/myutils/Logger.java:82-90 | a level is found exactly for the values 0..4, and the level found carries the value asked for; otherwise null |
| Logging.GetHigher | myutils/src/main/java/com/yynie/myutils/Logger.java:92-97 | the answer is one of the two levels and its value is at least both values |
| Logging.LevelAllowedMeansBoth | myutils/src/main/java/com/yynie/myutils/Logger.java:174-177 | a message passes exactly when its level is at least the logger's level and at least the global level |
| Logging.OffSilences | myutils/src/main/java/com/yynie/myutils/Logger.java:174-177 | with OFF on the logger or globally, no message of level DEBUG..ERROR is printed |
| Logging.RaisingGlobalOnlyFilters | myutils/src/main/java/com/yynie/myutils/Logger.java:162-177 | raising the global level never lets through a message that was filtered before |
| Logging.GlobalLevel.constructor | myutils/src/main/java/com/yynie/myutils/Logger.java:110 | the global level starts at ERROR |
| Logging.GlobalLevel.SetGlobalLevel | myutils/src/main/java/com/yynie/myutils/Logger.java:152-155 | setGlobalLevel(Level) always answers true and sets the level |
| Logging.GlobalLevel.SetGlobalLevelValue | myutils/src/main/java/com/yynie/myutils/Logger.java:162-167 | setGlobalLevel(int) answers true exactly for 0..4 and then sets the level with that value; otherwise the level is unchanged |
| Logging.Logger.constructor | myutils/src/main/java/com/yynie/myutils/Logger.java:123-136 | a logger keeps the tag and level it was created with |
| Logging.Logger.Log | myutils/src/main/java/com/yynie/myutils/Logger.java:174-177 | a line is printed exactly when its level clears both thresholds, and it carries the level, the logger's tag and the text |
| Logging.Logger.D | myutils/src/main/java/com/yynie/myutils/Logger.java:184-186 | d prints exactly when both the logger and the global level are DEBUG |
| Logging.Logger.I | myutils/src/main/java/com/yynie/myutils/Logger.java:193-195 | i prints exactly when both levels are at most INFO |
| Logging.Logger.W | myutils/src/main/java/com/yynie/myutils/Logger.java:202-204 | w prints exactly when both levels are at most WARN |
| Logging.Logger.E | myutils/src/main/java/com/yynie/myutils/Logger.java:211-213 | e prints unless the logger or the global level is OFF |
| Logging.Logger.PrintProcessInfo | myutils/src/main/java/com/yynie/myutils/Logger.java:220-222 | an INFO line printed exactly when i would print, whose text starts with the given info and goes on with the ids |
| Config.DefaultsWellFormed | sonfdroid/src/main/java/com/sonf/core/session/AbstractIOConfig.java:13-34 | the default values pass every setter's validation, and maxWriteBytes is 2048 + 2048/2 = 3072 |
| Config.WithIdleTime | sonfdroid/src/main/java/com/sonf/core/session/AbstractIOConfig.java:162-176 | a negative idle time is an IllegalArgumentException; any other time is accepted |
| Config.IdleTimeReadBack | sonfdroid/src/main/java/com/sonf/core/session/AbstractIOConfig.java:142-176 | an idle time set for one status is read back for that status, and the other two statuses and the other properties are unchanged |
| Config.NioSocketConfig.constructor | sonfdroid/src/main/java/com/sonf/nio/NioSocketConfig.java:40-48 | a new configuration holds the defaults of all three levels of the hierarchy, which are well formed |
| Config.NioSocketConfig.SetReadBufferSize | sonfdroid/src/main/java/com/sonf/core/session/AbstractIOConfig.java:48-53 | a size of 0 or less throws IllegalArgumentException and changes nothing; otherwise only the read buffer size changes |
| Config.NioSocketConfig.SetMaxWriteBytes | sonfdroid/src/main/java/com/sonf/core/session/AbstractIOConfig.java:67-69 | only maxWriteBytes changes, to the value given, without validation |
| Config.NioSocketConfig.GetIdleTimeInMillis | sonfdroid/src/main/java/com/sonf/core/session/AbstractIOConfig.java:142-156 | on a well-formed configuration the idle time of every status is non-negative |
| Config.NioSocketConfig.SetIdleTimeInMillis | sonfdroid/src/main/java/com/sonf/core/session/AbstractIOConfig.java:162-176 | a negative time throws and changes nothing; otherwise exactly the field of that status changes |
| Config.NioSocketConfig.SetWriteTimeoutInMillis | sonfdroid/src/main/java/com/sonf/core/session/AbstractIOConfig.java:190-195 | a negative timeout throws IllegalArgumentException and changes nothing; otherwise only the write timeout changes |
| Config.NioSocketConfig.SetConnectTimeoutMs | sonfdroid/src/main/java/com/sonf/socket/AbstractSocketConfig.java:44-46 | only the connect timeout changes |
| Config.NioSocketConfig.SetReceiveBufferSize | sonfdroid/src/main/java/com/sonf/nio/NioSocketConfig.java:62-64 | only the receive buffer size changes |
| Config.NioSocketConfig.SetSendBufferSize | sonfdroid/src/main/java/com/sonf/nio/NioSocketConfig.java:107-109 | only the send buffer size changes |
| Config.NioSocketConfig.SetSoLinger | sonfdroid/src/main/java/com/sonf/nio/NioSocketConfig.java:91-93 | only SO_LINGER changes |
| Config.NioSocketConfig.SetAll | sonfdroid/src/main/java/com/sonf/core/session/AbstractIOConfig.java:103-117 | a configuration of another kind throws RuntimeException before anything changes; from a well-formed NioSocketConfig (also sonfdroid/src/main/java/com/sonf/socket/AbstractSocketConfig.java:20-27, sonfdroid/src/main/java/com/sonf/nio/NioSocketConfig.java:70-77) every property ends equal to the source's |
| Config.NioSocketConfig.Clone | sonfdroid/src/main/java/com/sonf/core/session/AbstractIOConfig.java:124-136 | a fresh configuration with the same values, still well formed |
| ControllerBase.IOControllerBase.constructor | sonfdroid/src/main/java/com/sonf/core/AbstractIOController.java:59-67 | a null executor makes the controller create its own; it starts inactive, not disposing or disposed, with the adapter handler |
| ControllerBase.IOControllerBase.Activate | sonfdroid/src/main/java/com/sonf/core/AbstractIOController.java:97-99 | the controller is active afterwards and nothing else changes |
| ControllerBase.IOControllerBase.Deactivate | sonfdroid/src/main/java/com/sonf/core/AbstractIOController.java:105-107 | the controller is inactive afterwards and nothing else changes |
| ControllerBase.IOControllerBase.SetHandler | sonfdroid/src/main/java/com/sonf/core/AbstractIOController.java:183-193 | null throws IllegalArgumentException and an active controller throws IllegalStateException, both leaving the handler; otherwise the handler is replaced |
| ControllerBase.IOControllerBase.Dispose | sonfdroid/src/main/java/com/sonf/core/AbstractIOController.java:113-136 | afterwards the controller is disposing and disposed, dispose0 has run exactly once however often dispose is called, and only an executor it created is shut down |
| ControllerBase.SetHandlerOutcome | sonfdroid/src/main/java/com/sonf/core/AbstractIOController.java:183-193 | setHandler succeeds exactly for a non-null handler on an inactive controller; otherwise the exception kind says which check failed |
| ControllerBase.TaskNumber | sonfdroid/src/main/java/com/sonf/core/AbstractIOController.java:160-169 | every task number lies between 1 and Integer.MAX_VALUE - 1 |
| ControllerBase.TaskCounter.constructor | sonfdroid/src/main/java/com/sonf/core/AbstractIOController.java:48 | the shared counter starts at 0 |
| ControllerBase.TaskCounter.ExecuteRunnable | sonfdroid/src/main/java/com/sonf/core/AbstractIOController.java:160-169 | the k-th task is named SimpleName-n[suffix] with n the k-th task number; the counter stays below Integer.MAX_VALUE - 1, so incrementAndGet never overflows |
| ControllerBase.CounterStep | sonfdroid/src/main/java/com/sonf/core/AbstractIOController.java:166-168 | the counter after k + 1 tasks is the counter after k plus one, reset to 0 at Integer.MAX_VALUE - 1 |
| ControllerBase.TaskNumbersCycle | sonfdroid/src/main/java/com/sonf/core/AbstractIOController.java:160-169 | task numbers run 1, 2, ... and repeat with period Integer.MAX_VALUE - 1 |
| ControllerBase.TaskNameShape | sonfdroid/src/main/java/com/sonf/core/AbstractIOController.java:161-164 | every name starts with SimpleName- and a name with a suffix ends with it in brackets |
| ChainBuilders.EntryCheck | sonfdroid/src/main/java/com/sonf/core/filter/FilterChainBuilder.java:82-92 | an entry is built exactly for a non-null name other than "head" and "tail" and a non-null filter; otherwise IllegalArgumentException |
| ChainBuilders.Selected | sonfdroid/src/main/java/com/sonf/core/filter/FilterChainBuilder.java:24-31 | the entries buildChain passes on keep their order, and all of them go when there is no matcher |
| ChainBuilders.SelectedMembers | sonfdroid/src/main/java/com/sonf/core/filter/FilterChainBuilder.java:25-29 | an entry is passed on exactly when it is in the builder and the matcher, if any, accepts its name |
| ChainBuilders.SelectedAppend | sonfdroid/src/main/java/com/sonf/core/filter/FilterChainBuilder.java:25-29 | selecting from two runs of entries is selecting from each, in order |
| ChainBuilders.BuildRun | sonfdroid/src/main/java/com/sonf/core/filter/FilterChainBuilder.java:24-31 | the build completes exactly when every selected entry went in; otherwise it stops at the first addLast that throws |
| ChainBuilders.BuildRunAddsAll | sonfdroid/src/main/java/com/sonf/core/filter/FilterChainBuilder.java:24-31 | entries with fresh, distinct names whose filters add cleanly all go into the chain |
| ChainBuilders.BuildRunStopsAtUsedName | sonfdroid/src/main/java/com/sonf/core/filter/FilterChainBuilder.java:24-31 | a selected entry whose name the chain already uses stops the build there with IllegalArgumentException |
| ChainBuilders.FilterChainBuilder.constructor | sonfdroid/src/main/java/com/sonf/core/filter/FilterChainBuilder.java:15-17 | a new builder has no entries |
| ChainBuilders.FilterChainBuilder.Contains | sonfdroid/src/main/java/com/sonf/core/filter/FilterChainBuilder.java:48-61 | true exactly when a non-null name equals some entry's name |
| ChainBuilders.FilterChainBuilder.Add | sonfdroid/src/main/java/com/sonf/core/filter/FilterChainBuilder.java:39-69 | add succeeds exactly when the entry checks pass and the name is not in use, appending the entry at the end; otherwise IllegalArgumentException and no change; names stay distinct |
| ChainBuilders.FilterChainBuilder.Clear | sonfdroid/src/main/java/com/sonf/core/filter/FilterChainBuilder.java:74-76 | no entry is left |
| ChainBuilders.FilterChainBuilder.BuildChain | sonfdroid/src/main/java/com/sonf/core/filter/FilterChainBuilder.java:24-31 | the chain gains, at its end and in order, exactly the selected entries before the first addLast that throws, and the build's outcome is that throw or success |
| ChainBuilders.BuildLoop | sonfdroid/src/main/java/com/sonf/core/filter/FilterChainBuilder.java:25-30 | the loop of buildChain: its outcome and the entries it adds are those of BuildRun on the selected entries |
| ChainBuilders.BuildTurn | sonfdroid/src/main/java/com/sonf/core/filter/FilterChainBuilder.java:26-29 | one entry: added when selected and addLast succeeds, skipped when not selected; a throw is the whole build's outcome |
| ChainBuilders.AddOneBuilt | sonfdroid/src/main/java/com/sonf/core/filter/FilterChainBuilder.java:28 | addLast of one builder entry: its outcome is AddOutcome, a throw leaves the chain as it was, success appends that name and filter |
| FilterEvents.Then | sonfdroid/src/main/java/com/sonf/core/filter/DefaultFilterChain.java:121-198 | a call that threw ends the run; otherwise the next call's effects follow and its outcome is the run's |
| FilterEvents.TailSimple | sonfdroid/src/main/java/com/sonf/core/filter/DefaultFilterChain.java:299-341 | the tail hands the event to the handler, whose failure is the outcome; sessionOpened first marks the session ready and resolves the connect future exactly when the handler returns normally |
| FilterEvents.PassSimpleReachesTail | sonfdroid/src/main/java/com/sonf/core/filter/IFilterAdapter.java:47-108 | an event every filter forwards reaches the tail unchanged, whatever filters it passes |
| FilterEvents.Ensure | sonfdroid/src/main/java/com/sonf/filter/ProtocolFilter.java:35-53 | getDecoderOut/getEncoderOut return the output already stored, or store and return a new, empty one |
| FilterEvents.AfterWrite | sonfdroid/src/main/java/com/sonf/filter/ProtocolFilter.java:55-66 | the output holds what the codec wrote last, or what it held before when the codec wrote nothing |
| FilterEvents.Received | sonfdroid/src/main/java/com/sonf/filter/ProtocolFilter.java:127-149 | messageReceived leaves the encoder output alone, never turns a decoder output of another class into one or back, and keeps an existing decoder output |
| FilterEvents.DecodeCall | sonfdroid/src/main/java/com/sonf/filter/ProtocolFilter.java:139 | a missing decoder throws NullPointerException without a call; otherwise one decode call with the decoder's answer |
| FilterEvents.DecodeRound | sonfdroid/src/main/java/com/sonf/filter/ProtocolFilter.java:136-147 | one round of the decode loop keeps the decoder output an output and the encoder output unchanged |
| FilterEvents.NextView | sonfdroid/src/main/java/com/sonf/filter/ProtocolFilter.java:134-139 | decode leaves the same bytes and limit and never moves the position back or past the limit |
| FilterEvents.DecodeLoop | sonfdroid/src/main/java/com/sonf/filter/ProtocolFilter.java:134-148 | the corrected decode loop keeps the decoder output an output and leaves the encoder output alone (see Findings) |
| FilterEvents.StalledDecoderSpins | sonfdroid/src/main/java/com/sonf/filter/ProtocolFilter.java:134-148 | as written, the loop never ends on bytes a decoder neither consumes nor throws on, or with a missing decoder |
| FilterEvents.StalledDecoderStops | sonfdroid/src/main/java/com/sonf/filter/ProtocolFilter.java:134-148 | the corrected loop stops after one round on a stalled decoder |
| FilterEvents.ProgressingLoopsAgree | sonfdroid/src/main/java/com/sonf/filter/ProtocolFilter.java:134-148 | for a decoder that always consumes, the loop as written ends within one round per byte and gives exactly the corrected loop's result |
| FilterEvents.HookFailure | sonfdroid/src/main/java/com/sonf/core/filter/DefaultFilterChain.java:207-242 | a failed hook's Exception is wrapped in a RuntimeException, while an Error passes unchanged |
| FilterEvents.HookThrows | sonfdroid/src/main/java/com/sonf/filter/ProtocolFilter.java:67-78 | an adapter's hook throws exactly when it was given a failure; a ProtocolFilter throws only in onPreAdd, and only when it is already in the chain |
| FilterEvents.RemovalOf | sonfdroid/src/main/java/com/sonf/core/filter/DefaultFilterChain.java:225-243 | a refused removal unlinks nothing and runs nothing else; a ProtocolFilter never refuses, disposes its codecs, and lets only an Error from them escape |
| FilterEvents.ClearRemoves | sonfdroid/src/main/java/com/sonf/core/filter/DefaultFilterChain.java:66-72 | clear never unlinks more entries than the chain holds |
| FilterEvents.ClearRemovesAllUnlessThrown | sonfdroid/src/main/java/com/sonf/core/filter/DefaultFilterChain.java:66-72 | a clear that returns normally has unlinked every entry; one that stops early has thrown |
| FilterEvents.TailClosed | sonfdroid/src/main/java/com/sonf/core/filter/DefaultFilterChain.java:309-315 | the tail marks the session closed and clears the chain first; if clear returns normally the codec outputs are removed and the handler's sessionClosed decides the outcome |
| FilterEvents.Closed | sonfdroid/src/main/java/com/sonf/filter/ProtocolFilter.java:81-99 | sessionClosed never turns an output of another class into an output or back |
| FilterEvents.HeadWrite | sonfdroid/src/main/java/com/sonf/core/filter/DefaultFilterChain.java:281-294 | the head queues an IoBuffer and asks for a flush; a null message or any other object is an IOException and queues nothing |
| FilterEvents.Write | sonfdroid/src/main/java/com/sonf/filter/ProtocolFilter.java:101-124 | filterWrite leaves the decoder output alone, keeps the kind of the encoder output, and only a buffer message reaches the queue |
| FilterEvents.CloseReachesHead | sonfdroid/src/main/java/com/sonf/core/filter/IFilterAdapter.java:81-84 | filterClose passes every filter and makes the head remove the session from its processor |
| FilterEvents.AdaptersDeliverReceived | sonfdroid/src/main/java/com/sonf/core/filter/IFilterAdapter.java:97-100 | through adapters alone a received message reaches the handler unchanged |
| FilterEvents.AdaptersDeliverWrite | sonfdroid/src/main/java/com/sonf/core/filter/IFilterAdapter.java:89-92 | through adapters alone a written packet reaches the head with its message untouched |
| FilterEvents.BufferWritesBypassEncoders | sonfdroid/src/main/java/com/sonf/filter/ProtocolFilter.java:105-110 | an IoBuffer passes every filter, ProtocolFilters included, without being encoded, and is queued |
| FilterEvents.OtherMessagesBypassDecoders | sonfdroid/src/main/java/com/sonf/filter/ProtocolFilter.java:128-131 | a message that is not an IoBuffer reaches the handler unchanged |
| FilterEvents.Redirect | sonfdroid/src/main/java/com/sonf/core/filter/DefaultFilterChain.java:126-198 | nothing is redirected when nothing was thrown; a throw goes to the handler's exceptionCaught, whose own failure replaces it, and an Error is thrown again only where the chain rethrows |
| FilterEvents.FireOpened | sonfdroid/src/main/java/com/sonf/core/filter/DefaultFilterChain.java:75-77 | fireSessionOpened is the tail's sessionOpened, with no redirection |
| FilterEvents.FireClosed | sonfdroid/src/main/java/com/sonf/core/filter/DefaultFilterChain.java:80-82 | anything sessionClosed throws, an Error included, is redirected, so only exceptionCaught's own failure escapes |
| FilterEvents.FireInputClosed | sonfdroid/src/main/java/com/sonf/core/filter/DefaultFilterChain.java:96-98 | the handler's inputClosed runs first, and only exceptionCaught's failure on its throw escapes |
| FilterEvents.FireReceived | sonfdroid/src/main/java/com/sonf/core/filter/DefaultFilterChain.java:101-103 | an escaping throw is an Error or exceptionCaught's own failure, and the encoder output is untouched |
| FilterEvents.FireIdle | sonfdroid/src/main/java/com/sonf/core/filter/DefaultFilterChain.java:116-119 | the handler's sessionIdle runs first; an escaping throw is an Error or exceptionCaught's own failure |
| FilterEvents.FireWrite | sonfdroid/src/main/java/com/sonf/core/filter/DefaultFilterChain.java:111-113 | a write that succeeds is the write itself; a failure on a packet without a future is a NullPointerException (setException on null); otherwise the failure goes to exceptionCaught |
| FilterChains.StagesOf | sonfdroid/src/main/java/com/sonf/core/filter/DefaultFilterChain.java:121-198 | the snapshot has one stage per named entry, in chain order, each the dispatch view of that entry's filter |
| FilterChains.AddOutcome | sonfdroid/src/main/java/com/sonf/core/filter/DefaultFilterChain.java:55-58 | addLast succeeds only for a non-null, unused name and a non-null filter that is not a ProtocolFilter already in the chain; a null name is a NullPointerException from the map, a used name or a null filter an IllegalArgumentException, a repeated ProtocolFilter a RuntimeException from onPreAdd |
| FilterChains.HookStage | sonfdroid/src/main/java/com/sonf/core/filter/DefaultFilterChain.java:204-243 | an adapter's hooks are its given failures; a ProtocolFilter's hooks do not depend on its codecs |
| FilterChains.ApplySlot | sonfdroid/src/main/java/com/sonf/filter/ProtocolFilter.java:35-66 | the codec output under the key ends in the state the dispatch left it in, an existing output object is reused, and every other attribute is unchanged |
| FilterChains.ApplySlots | sonfdroid/src/main/java/com/sonf/filter/ProtocolFilter.java:35-66 | both codec outputs end in the dispatch's state, stay separate objects, and every other attribute is unchanged |
| FilterChains.Entry.constructor | sonfdroid/src/main/java/com/sonf/core/filter/DefaultFilterChain.java:350-363 | a new entry has the given neighbours, name and filter |
| FilterChains.DefaultFilterChain.constructor | sonfdroid/src/main/java/com/sonf/core/filter/DefaultFilterChain.java:33-41 | a new chain has the head linked to the tail, no named entry, and keeps its session |
| FilterChains.DefaultFilterChain.Contains | sonfdroid/src/main/java/com/sonf/core/filter/DefaultFilterChain.java:61-63 | contains is true exactly when some named entry holds that filter |
| FilterChains.DefaultFilterChain.Snapshot | sonfdroid/src/main/java/com/sonf/core/filter/DefaultFilterChain.java:121-198 | walking the links from head to tail gives exactly the snapshot of the named entries |
| FilterChains.DefaultFilterChain.FireSessionOpened | sonfdroid/src/main/java/com/sonf/core/filter/DefaultFilterChain.java:75-77 | the event reaches the tail's sessionOpened whatever filters the chain holds |
| FilterChains.DefaultFilterChain.FireSessionClosed | sonfdroid/src/main/java/com/sonf/core/filter/DefaultFilterChain.java:80-82 | the result is the sessionClosed dispatch on the chain's snapshot and outputs; if it reached the tail, the chain keeps only the entries clear did not unlink, otherwise it is unchanged; the outputs take the dispatch's state |
| FilterChains.DefaultFilterChain.FireExceptionCaught | sonfdroid/src/main/java/com/sonf/core/filter/DefaultFilterChain.java:85-87 | the cause reaches the handler's exceptionCaught |
| FilterChains.DefaultFilterChain.FireMessageSent | sonfdroid/src/main/java/com/sonf/core/filter/DefaultFilterChain.java:90-93 | the packet's future is marked written and the handler gets the original message; a packet without a future is a NullPointerException before either |
| FilterChains.DefaultFilterChain.FireInputClosed | sonfdroid/src/main/java/com/sonf/core/filter/DefaultFilterChain.java:96-98 | the result is the inputClosed dispatch on the chain's snapshot |
| FilterChains.DefaultFilterChain.FireMessageReceived | sonfdroid/src/main/java/com/sonf/core/filter/DefaultFilterChain.java:101-103 | the result is the messageReceived dispatch on the snapshot and outputs, and the outputs take the state it left them in |
| FilterChains.DefaultFilterChain.FireFilterClose | sonfdroid/src/main/java/com/sonf/core/filter/DefaultFilterChain.java:106-108 | filterClose always ends at the head, which removes the session from its processor |
| FilterChains.DefaultFilterChain.FireFilterWrite | sonfdroid/src/main/java/com/sonf/core/filter/DefaultFilterChain.java:186-198 | the packet's message becomes what the encoders produced; on failure its future fails with that exception, otherwise the future is untouched; the encoder output takes the dispatch's state |
| FilterChains.DefaultFilterChain.FireSessionIdle | sonfdroid/src/main/java/com/sonf/core/filter/DefaultFilterChain.java:116-119 | the result is the sessionIdle dispatch on the chain's snapshot |
| FilterChains.DefaultFilterChain.AddLast | sonfdroid/src/main/java/com/sonf/core/filter/DefaultFilterChain.java:55-58 | the outcome is AddOutcome on the names in use and whether the filter is held; success appends the named entry just before the tail, failure leaves the entries and names unchanged |
| FilterChains.DefaultFilterChain.Register | sonfdroid/src/main/java/com/sonf/core/filter/DefaultFilterChain.java:204-223 | onPreAdd, linking and onPostAdd give AddOutcome; success appends the entry, and an onPostAdd failure unlinks it again so nothing changes |
| FilterChains.DefaultFilterChain.LinkThenPostAdd | sonfdroid/src/main/java/com/sonf/core/filter/DefaultFilterChain.java:213-222 | after linking, an onPostAdd failure is wrapped and undoes the link; otherwise the entry stays appended |
| FilterChains.DefaultFilterChain.UnlinkLast | sonfdroid/src/main/java/com/sonf/core/filter/DefaultFilterChain.java:220 | deregister0 of the entry just linked removes it and its name and nothing else |
| FilterChains.DefaultFilterChain.Deregister | sonfdroid/src/main/java/com/sonf/core/filter/DefaultFilterChain.java:225-243 | onPreRemove may refuse, changing nothing; otherwise the entry and its name go and onPostRemove's effects and failure follow |
| FilterChains.DefaultFilterChain.Clear | sonfdroid/src/main/java/com/sonf/core/filter/DefaultFilterChain.java:66-72 | the result is ClearRun on the snapshot, and the chain keeps exactly the entries after the ones clear unlinked (chain order; see Left out) |
| FilterChains.DefaultFilterChain.ClearRound | sonfdroid/src/main/java/com/sonf/core/filter/DefaultFilterChain.java:69-71 | one deregister of clear's loop extends the run so far, or ends it with the whole clear's result |
| FilterChains.DefaultFilterChain.DeregisterFirst | sonfdroid/src/main/java/com/sonf/core/filter/DefaultFilterChain.java:69-71 | deregistering the first named entry gives that entry's removal run and unlinks it unless refused |
| FilterChains.DefaultFilterChain.Register0 | sonfdroid/src/main/java/com/sonf/core/filter/DefaultFilterChain.java:205-215 | a fresh entry with the name and filter is linked just before the tail and added to name2entry |
| FilterChains.DefaultFilterChain.Deregister0 | sonfdroid/src/main/java/com/sonf/core/filter/DefaultFilterChain.java:245-252 | the entry is spliced out of the links and its name forgotten; no codec changes |
| FilterChains.DefaultFilterChain.NoEntriesLeft | sonfdroid/src/main/java/com/sonf/core/filter/DefaultFilterChain.java:66-72 | a head linked straight to the tail means no named entry is left |
| Futures.SetValueSpec | sonfdroid/src/main/java/com/sonf/core/future/DefaultIOFuture.java:78-97 | only the first setValue takes effect and reports true; afterwards the future is complete, and an already complete future is unchanged |
| Futures.SettleOnce | sonfdroid/src/main/java/com/sonf/core/future/DefaultIOFuture.java:78-97 | however many completions race, the future keeps the first value and exactly one of them reports true |
| Futures.ApplyAllSettled | sonfdroid/src/main/java/com/sonf/core/future/DefaultIOFuture.java:81-83 | on a complete future every later setValue changes nothing and reports false |
| Futures.ExceptionOf | sonfdroid/src/main/java/com/sonf/core/future/DefaultIOFuture.java:61-69 | getException returns a Throwable exactly when the future holds one |
| Futures.ConnectViewsExclusive | sonfdroid/src/main/java/com/sonf/future/ConnectFuture.java:49-69 | a connect future is never both connected and canceled, and a failed one is neither |
| Futures.FailedWriteStaysFailed | sonfdroid/src/main/java/com/sonf/future/WriteFuture.java:25-43 | once a write has failed, a later setWritten cannot make it written, and the failure stays |
| Futures.IOFuture.constructor | sonfdroid/src/main/java/com/sonf/core/future/DefaultIOFuture.java:31-35 | a new future belongs to its session, is pending with no value, and has no listener |
| Futures.IOFuture.NotifyListener | sonfdroid/src/main/java/com/sonf/core/future/DefaultIOFuture.java:137-141 | the listener, if any, is notified once; the future's state is unchanged |
| Futures.IOFuture.SetValue | sonfdroid/src/main/java/com/sonf/core/future/DefaultIOFuture.java:78-97 | completion and the answer follow SetValueSpec, and the listener is notified exactly when this call completed the future |
| Futures.IOFuture.SetException | sonfdroid/src/main/java/com/sonf/core/future/DefaultIOFuture.java:49-55 | a null exception throws IllegalArgumentException and changes nothing; otherwise the future completes with it if still pending |
| Futures.IOFuture.GetException | sonfdroid/src/main/java/com/sonf/core/future/DefaultIOFuture.java:61-69 | an exception is returned only from a future holding a Throwable |
| Futures.IOFuture.SetListener | sonfdroid/src/main/java/com/sonf/core/future/DefaultIOFuture.java:122-127 | the listener is replaced and notified at once when the future is already complete |
| Futures.IOFuture.RemoveListener | sonfdroid/src/main/java/com/sonf/core/future/DefaultIOFuture.java:133-135 | the listener is removed and nothing else changes |
| Futures.IOFuture.AwaitNow | sonfdroid/src/main/java/com/sonf/core/future/DefaultIOFuture.java:196-243 | a complete future or a timeout of 0 or less answers at once with the ready flag; otherwise the caller would block |
| Futures.IOFuture.CancelValue | sonfdroid/src/main/java/com/sonf/future/ConnectFuture.java:25-34 | cancel completes a pending future with false and reports that it did; a complete future is unchanged |
| Futures.IOFuture.SetConnected | sonfdroid/src/main/java/com/sonf/future/ConnectFuture.java:39-43 | a pending future completes with true, and a complete one is unchanged |
| Futures.IOFuture.IsConnected | sonfdroid/src/main/java/com/sonf/future/ConnectFuture.java:49-56 | true exactly when the future holds Boolean true |
| Futures.IOFuture.IsCanceled | sonfdroid/src/main/java/com/sonf/future/ConnectFuture.java:62-69 | true exactly when the future holds Boolean false |
| Futures.IOFuture.SetWritten | sonfdroid/src/main/java/com/sonf/future/WriteFuture.java:25-27 | a pending future completes with true, and a complete one is unchanged |
| Futures.IOFuture.IsWritten | sonfdroid/src/main/java/com/sonf/future/WriteFuture.java:33-43 | true exactly when the future is complete and holds Boolean true |
| Futures.IOFuture.SetClosed | sonfdroid/src/main/java/com/sonf/future/CloseFuture.java:37-39 | a pending future completes with true, and a complete one is unchanged |
| Futures.IOFuture.IsClosed | sonfdroid/src/main/java/com/sonf/future/CloseFuture.java:25-31 | false while pending; once complete the held Boolean, a NullPointerException for null, and a ClassCastException for anything else |
| ProtocolFilters.ChainKeysDistinct | sonfdroid/src/main/java/com/sonf/core/filter/DefaultFilterChain.java:20-22 | the connect-future, decoder-output and encoder-output keys are pairwise different, so the three attributes never overwrite each other |
| ProtocolFilters.Advance | sonfdroid/src/main/java/com/sonf/filter/ProtocolFilter.java:134-141 | a decode step leaves the bytes and limit alone and moves the position forward by at most what remains; the position stays put exactly when nothing was consumed or nothing remained |
| ProtocolFilters.DisposeCodec | sonfdroid/src/main/java/com/sonf/filter/ProtocolFilter.java:26-33 | the decoder is disposed only after the encoder was disposed without throwing; a null codec or an Exception ends the sequence and is swallowed, and only an Error escapes |
| ProtocolFilters.OnPreAdd | sonfdroid/src/main/java/com/sonf/filter/ProtocolFilter.java:68-73 | throws IllegalArgumentException exactly when the chain already holds this filter |
| ProtocolFilters.ProtocolOutput.constructor | sonfdroid/src/main/java/com/sonf/filter/ProtocolFilter.java:55-56 | a new output slot is empty |
| ProtocolFilters.ProtocolOutput.Write | sonfdroid/src/main/java/com/sonf/filter/ProtocolFilter.java:58-60 | the slot holds the written object, replacing any earlier one |
| ProtocolFilters.ProtocolOutput.Get | sonfdroid/src/main/java/com/sonf/filter/ProtocolFilter.java:63-65 | returns the last written object and leaves the slot empty |
| ProtocolFilters.SlotOf | sonfdroid/src/main/java/com/sonf/filter/ProtocolFilter.java:35-53 | the attribute under a key is absent exactly when no output was stored there |
| ProtocolFilters.GetOutput | sonfdroid/src/main/java/com/sonf/filter/ProtocolFilter.java:35-53 | an absent attribute gets a fresh empty output stored under the key; an existing output is returned unchanged; any other object makes the cast throw ClassCastException and nothing is stored |
| ProtocolFilters.GetOutputTwice | sonfdroid/src/main/java/com/sonf/filter/ProtocolFilter.java:35-53 | a second lookup returns the very output the first one created or found |
| ProtocolFilters.ProtocolFilter.constructor | sonfdroid/src/main/java/com/sonf/filter/ProtocolFilter.java:14-16 | a new filter has neither encoder nor decoder |
| ProtocolFilters.ProtocolFilter.SetEncoder | sonfdroid/src/main/java/com/sonf/filter/ProtocolFilter.java:18-20 | replaces the encoder and leaves the decoder alone |
| ProtocolFilters.ProtocolFilter.SetDecoder | sonfdroid/src/main/java/com/sonf/filter/ProtocolFilter.java:22-24 | replaces the decoder and leaves the encoder alone |
| Transport.Min | sonfdroid/src/main/java/com/sonf/polling/AbstractPollingIoProcessor.java:427 | the smaller of the two bounds, as Math.min |
| Transport.ReadLoopMeaning | sonfdroid/src/main/java/com/sonf/polling/AbstractPollingIoProcessor.java:287-292 | the read loop never overfills the buffer, stops after a positive read only when the buffer is full, stops on 0 or -1 only with room left, and ends with -1 exactly when it reached the end of the stream |
| Transport.OneReadFills | sonfdroid/src/main/java/com/sonf/polling/AbstractPollingIoProcessor.java:287-292 | a read delivering at least the free room fills the buffer and ends the loop at once |
| Transport.Deposit | sonfdroid/src/main/java/com/sonf/nio/NioProcessor.java:222-226 | channel.read stores the bytes at the position and moves the position by their number; the limit and the bytes outside stay |
| Transport.ReadInto | sonfdroid/src/main/java/com/sonf/polling/AbstractPollingIoProcessor.java:287-292 | the read loop on the buffer itself stores exactly the bytes ReadLoop delivers, from the old position on, and ends as ReadLoop ends |
| Transport.ReadStep | sonfdroid/src/main/java/com/sonf/polling/AbstractPollingIoProcessor.java:287-292 | one turn of the loop keeps ReadInto's invariant: the bytes stored so far plus what ReadLoop delivers from here on are always the same |
| Transport.SpliceAppend | sonfdroid/src/main/java/com/sonf/nio/NioProcessor.java:222-226 | storing a further read after the bytes already stored gives the concatenation of both |
| Transport.Accepted | sonfdroid/src/main/java/com/sonf/nio/NioProcessor.java:234-243 | a channel write accepts between none and all of what it is offered |
| Transport.ChannelWrite | sonfdroid/src/main/java/com/sonf/nio/NioProcessor.java:232-244 | the bytes and the limit are restored after the write; a non-negative offer never moves the position back; a successful write reports at most what remained |
| Transport.ChannelWriteOffers | sonfdroid/src/main/java/com/sonf/nio/NioProcessor.java:232-244 | an offer within what remains writes at most the offered length and moves the position by exactly what was written; a failure is the channel's own and leaves the buffer alone |
| Transport.NegativeOfferRewinds | sonfdroid/src/main/java/com/sonf/nio/NioProcessor.java:238-243 | a negative length throws IllegalArgumentException when the limit would be negative, and otherwise writes nothing while pulling the position back |
| Transport.Offer | sonfdroid/src/main/java/com/sonf/polling/AbstractPollingIoProcessor.java:424-441 | an unallocated buffer throws NullPointerException; an empty buffer is not written; only a positive channel answer on a buffer with something remaining writes anything |
| Transport.OfferWithinBudget | sonfdroid/src/main/java/com/sonf/polling/AbstractPollingIoProcessor.java:424-441 | with a non-negative budget each write stays within both the budget and what remained and moves the position by exactly that much; only the channel's exception escapes |
| Buffers.EncodeInto | sonfdroid/src/main/java/com/sonf/core/buffer/SimpleIoBuffer.java:198-213 | encode(in, out, true) writes exactly the encoding of the characters it consumed, never more than the room left; it ends with underflow exactly when the whole string was consumed, unmappable at a character with no encoding, overflow at one whose bytes no longer fit |
| Buffers.EncodeIntoFits | sonfdroid/src/main/java/com/sonf/core/buffer/SimpleIoBuffer.java:198-208 | a string whose whole encoding fits is written whole and the encoder reports underflow |
| Buffers.EncodeIntoTooLong | sonfdroid/src/main/java/com/sonf/core/buffer/SimpleIoBuffer.java:198-211 | a string whose encoding is longer than the room left always ends in overflow |
| Buffers.IndexOfIn | sonfdroid/src/main/java/com/sonf/core/buffer/SimpleIoBuffer.java:69-90 | both branches, the array scan shifted by the array offset and the direct get(i) scan, return the first index of the byte in [position, limit), or -1 |
| Buffers.FirstIndexOf | sonfdroid/src/main/java/com/sonf/core/buffer/SimpleIoBuffer.java:69-90 | the answer is -1 or an index in [position, limit) |
| Buffers.FirstIndexOfMeaning | sonfdroid/src/main/java/com/sonf/core/buffer/SimpleIoBuffer.java:69-90 | -1 exactly when the byte is absent from [position, limit); otherwise the index holds the byte and no earlier index does |
| Buffers.Utf16Scan | sonfdroid/src/main/java/com/sonf/core/buffer/SimpleIoBuffer.java:115-133 | the UTF-16 scan ends with -1 or with an index before the last byte of the span |
| Buffers.Utf16ScanFindsFirstZeroPair | sonfdroid/src/main/java/com/sonf/core/buffer/SimpleIoBuffer.java:115-133 | the UTF-16 scan returns -1 exactly when no two adjacent zero bytes exist, and otherwise the first such pair, at any offset and not only at code-unit boundaries |
| Buffers.Utf16ScanOddOffset | sonfdroid/src/main/java/com/sonf/core/buffer/SimpleIoBuffer.java:115-133 | on UTF-16BE U+0100 U+0001, which has no zero code unit, the scan still stops at offset 1 |
| Buffers.Terminator | sonfdroid/src/main/java/com/sonf/core/buffer/SimpleIoBuffer.java:107-143 | the text ends no earlier than the position, and the new position lies between the text's end and the limit |
| Buffers.SingleByteTerminator | sonfdroid/src/main/java/com/sonf/core/buffer/SimpleIoBuffer.java:107-113 | for a single-byte charset the text stops before the first zero byte, which is consumed; with no zero the whole remainder is the text |
| Buffers.Utf16Terminator | sonfdroid/src/main/java/com/sonf/core/buffer/SimpleIoBuffer.java:114-143 | for UTF-16 the text stops before the first zero pair, which is consumed; without one the text is the even-length prefix and at most one odd byte is left |
| Buffers.DescribeInjective | sonfdroid/src/main/java/com/sonf/core/buffer/IoBuffer.java:190-205 | two buffers with the same toString text have the same position, limit and capacity |
| Buffers.LiteralThenNumber | sonfdroid/src/main/java/com/sonf/core/buffer/IoBuffer.java:196-202 | a literal followed by a decimal number and a non-digit reads the number back |
| Buffers.BufferState.HasRemaining | sonfdroid/src/main/java/com/sonf/core/buffer/IoBuffer.java:61-65 | an unallocated buffer throws NullPointerException; otherwise true exactly when the position is before the limit |
| Buffers.IoBuffer.View | sonfdroid/src/main/java/com/sonf/core/buffer/IoBuffer.java:91 | the value view carries exactly the buffer's fields |
| Buffers.IoBuffer.constructor | sonfdroid/src/main/java/com/sonf/core/buffer/SimpleIoBuffer.java:1-47 | a new SimpleIoBuffer has no backing buffer |
| Buffers.IoBuffer.Allocate | sonfdroid/src/main/java/com/sonf/core/buffer/IoBuffer.java:14-20 | a negative capacity throws IllegalArgumentException naming it and changes nothing; otherwise a zeroed buffer of that capacity with position 0 and limit at the capacity |
| Buffers.IoBuffer.Available | sonfdroid/src/main/java/com/sonf/core/buffer/IoBuffer.java:41-43 | a buffer reported unavailable holds no bytes |
| Buffers.IoBuffer.Remaining | sonfdroid/src/main/java/com/sonf/core/buffer/IoBuffer.java:50-54 | remaining is non-negative and takes the position to the limit |
| Buffers.IoBuffer.HasRemaining | sonfdroid/src/main/java/com/sonf/core/buffer/IoBuffer.java:61-65 | true exactly when something remains |
| Buffers.IoBuffer.Capacity | sonfdroid/src/main/java/com/sonf/core/buffer/IoBuffer.java:127-129 | the capacity is at least the limit |
| Buffers.IoBuffer.Flip | sonfdroid/src/main/java/com/sonf/core/buffer/IoBuffer.java:67-69 | the limit moves to the old position and the position to 0; the bytes stay |
| Buffers.IoBuffer.Clear | sonfdroid/src/main/java/com/sonf/core/buffer/IoBuffer.java:84-86 | the position goes to 0 and the limit to the capacity; the bytes stay |
| Buffers.IoBuffer.SetLimit | sonfdroid/src/main/java/com/sonf/core/buffer/IoBuffer.java:109-111 | throws IllegalArgumentException exactly for a limit outside [0, capacity], changing nothing; otherwise sets it and pulls a later position back to it |
| Buffers.IoBuffer.SetPosition | sonfdroid/src/main/java/com/sonf/core/buffer/IoBuffer.java:138-140 | throws IllegalArgumentException exactly for a position outside [0, limit], changing nothing; otherwise sets it |
| Buffers.IoBuffer.Get | sonfdroid/src/main/java/com/sonf/core/buffer/SimpleIoBuffer.java:53-55 | returns the byte at the position and advances it; at the limit throws BufferUnderflowException and changes nothing |
| Buffers.IoBuffer.GetAt | sonfdroid/src/main/java/com/sonf/core/buffer/SimpleIoBuffer.java:61-63 | returns the byte at the index exactly when the index is in [0, limit), and throws otherwise |
| Buffers.IoBuffer.IndexOf | sonfdroid/src/main/java/com/sonf/core/buffer/SimpleIoBuffer.java:69-90 | -1 exactly when the byte is absent from [position, limit); otherwise the first index holding it |
| Buffers.IoBuffer.ToString | sonfdroid/src/main/java/com/sonf/core/buffer/IoBuffer.java:190-205 | "[]" without a backing buffer, otherwise the position, limit and capacity in the [pos= lim= cap=] form |
| Buffers.IoBuffer.GetString | sonfdroid/src/main/java/com/sonf/core/buffer/SimpleIoBuffer.java:96-186 | nothing remaining gives ""; an empty text only moves the position past the terminator; otherwise the bytes up to the terminator are decoded, success leaves the position after the terminator, and a decoding error throws CharacterCodingException with position and limit restored |
| Buffers.IoBuffer.FindTerminator | sonfdroid/src/main/java/com/sonf/core/buffer/SimpleIoBuffer.java:100-143 | the loop finds the text's end and the new position that Terminator defines |
| Buffers.IoBuffer.PutString | sonfdroid/src/main/java/com/sonf/core/buffer/SimpleIoBuffer.java:192-214 | an empty string changes nothing; otherwise the encoded characters that fit are stored from the position on; the call ends normally when all fit, throws RuntimeException on overflow and CharacterCodingException on an unmappable character |
| Sessions.ConnectFuture.constructor | sonfdroid/src/main/java/com/sonf/nio/NioSession.java:59-61 | the handle stored as the session attribute refers to the session's new connect future |
| Sessions.ClockAt | sonfdroid/src/main/java/com/sonf/core/session/AbstractIOSession.java:113-118 | a new session stamps its read, write and three idle-event times with its creation time, and every idle counter starts at 0 |
| Sessions.Max | sonfdroid/src/main/java/com/sonf/core/session/AbstractIOSession.java:186 | the larger of the two times, as Math.max |
| Sessions.LastIoTime | sonfdroid/src/main/java/com/sonf/core/session/AbstractIOSession.java:185-187 | the later of the last read and the last write |
| Sessions.Reference | sonfdroid/src/main/java/com/sonf/core/session/AbstractIOSession.java:204-211 | each status's idleness is measured from no earlier than its own last idle event and its relevant I/O: both directions for BOTH, reads for READER, writes for WRITER |
| Sessions.ReadAt | sonfdroid/src/main/java/com/sonf/core/session/AbstractIOSession.java:163-167 | a read stamps the read time and zeroes the BOTH and READER counters; everything else stays |
| Sessions.WrittenAt | sonfdroid/src/main/java/com/sonf/core/session/AbstractIOSession.java:152-156 | a write stamps the write time and zeroes the BOTH and WRITER counters; everything else stays |
| Sessions.IdleFired | sonfdroid/src/main/java/com/sonf/core/session/AbstractIOSession.java:245-258 | an idle event stamps its status's event time and increments its counter with 32-bit wrap-around; the other statuses and the I/O times stay |
| Sessions.DueStatuses | sonfdroid/src/main/java/com/sonf/core/session/AbstractIOSession.java:203-221 | a status is among the events fired exactly when it is due |
| Sessions.IdleCalls | sonfdroid/src/main/java/com/sonf/core/filter/DefaultFilterChain.java:116-119 | one sessionIdle call per due status, in order |
| Sessions.IdleStatusesIndependent | sonfdroid/src/main/java/com/sonf/core/session/AbstractIOSession.java:245-258 | counting one status's idle event never changes whether another status is due |
| Sessions.FireIf | sonfdroid/src/main/java/com/sonf/core/session/AbstractIOSession.java:216-221 | a test that is not due leaves the clock alone; a due one stamps its event time |
| Sessions.CallIf | sonfdroid/src/main/java/com/sonf/core/session/AbstractIOSession.java:216-221 | a due test makes exactly one sessionIdle call, and one that is not due makes none |
| Sessions.IdleTestsInSequence | sonfdroid/src/main/java/com/sonf/core/session/AbstractIOSession.java:203-211 | testing BOTH, READER and WRITER in turn, each on the clock the previous test left, fires exactly the statuses due on the starting clock, in that order |
| Sessions.IdleFiresOncePerPeriod | sonfdroid/src/main/java/com/sonf/core/session/AbstractIOSession.java:216-221 | after an idle event at t the status is due again only once a whole idle period has passed since t |
| Sessions.ReadDefersReaderIdle | sonfdroid/src/main/java/com/sonf/core/session/AbstractIOSession.java:163-167 | within one idle period of a read, neither READER nor BOTH idleness is due |
| Sessions.WriteDefersWriterIdle | sonfdroid/src/main/java/com/sonf/core/session/AbstractIOSession.java:152-156 | within one idle period of a write, neither WRITER nor BOTH idleness is due |
| Sessions.ZeroThresholdNeverDue | sonfdroid/src/main/java/com/sonf/core/session/AbstractIOSession.java:218 | a threshold of 0 or less never fires |
| Sessions.NewInetSocketAddress | sonfdroid/src/main/java/com/sonf/nio/NioSession.java:128-130 | the address is built exactly when the port fits in 16 bits, and IllegalArgumentException is thrown otherwise |
| Sessions.UniqueKey | sonfdroid/src/main/java/com/sonf/nio/NioSession.java:150-156 | null without an address; "ip:port" for a resolved address; NullPointerException for an unresolved one |
| Sessions.UniqueKeyShape | sonfdroid/src/main/java/com/sonf/nio/NioSession.java:153 | the key of a resolved address starts with the IP, then ":", then the port in decimal |
| Sessions.Resolve | sonfdroid/src/main/java/com/sonf/nio/NioSession.java:121-132 | a null host throws NullPointerException; a dotted IPv4 host is used as is; any other host is looked up, and a failed lookup's exception is thrown |
| Sessions.EntryFuture | sonfdroid/src/main/java/com/sonf/core/session/AbstractIOSession.java:567-575 | a queue entry carries at most one future |
| Sessions.QueueFuturesSnoc | sonfdroid/src/main/java/com/sonf/core/session/AbstractIOSession.java:562-579 | appending an entry to the queue adds exactly its future to the queue's futures |
| Sessions.FailAll | sonfdroid/src/main/java/com/sonf/core/session/AbstractIOSession.java:562-579 | every queued packet's future is failed with the cause, as setException would, and no other future changes |
| Sessions.FailEntry | sonfdroid/src/main/java/com/sonf/core/session/AbstractIOSession.java:567-575 | the entry's future, if any, is failed with the cause |
| Sessions.SessionIds.constructor | sonfdroid/src/main/java/com/sonf/core/session/AbstractIOSession.java:111 | the id generator starts at 0 |
| Sessions.SessionIds.Next | sonfdroid/src/main/java/com/sonf/core/session/AbstractIOSession.java:111-112 | the n-th session gets id n modulo Long.MAX_VALUE - 1, plus 1, so ids lie in [1, Long.MAX_VALUE - 1] |
| Sessions.IdStep | sonfdroid/src/main/java/com/sonf/core/session/AbstractIOSession.java:111-112 | the generator's reset at Long.MAX_VALUE - 1 is counting modulo that bound |
| Sessions.IdsDistinctWithinCycle | sonfdroid/src/main/java/com/sonf/core/session/AbstractIOSession.java:111-112 | two sessions created less than a full cycle apart have different ids |
| Sessions.IdleFieldsInSequence | sonfdroid/src/main/java/com/sonf/core/session/AbstractIOSession.java:203-211 | the three idle tests on the session's fields give the clock and chain calls of firing the statuses due at the start |
| Sessions.AfterCloseNow | sonfdroid/src/main/java/com/sonf/core/session/AbstractIOSession.java:539-557 | a CLOSING or INVALID session is unchanged; any other becomes CLOSING with an empty queue and one filterClose call |
| Sessions.Session.constructor | sonfdroid/src/main/java/com/sonf/core/session/AbstractIOSession.java:106-119 | a new session is NEW, with every time stamped at creation, no queue, no attribute map, no address, no deadline, an unallocated read buffer and a fresh close future of its own |
| Sessions.Session.SwitchToConnecting | sonfdroid/src/main/java/com/sonf/core/session/AbstractIOSession.java:132-136 | moves NEW to CONNECTING; from any other state throws RuntimeException naming the state and changes nothing |
| Sessions.Session.SetStateClosed | sonfdroid/src/main/java/com/sonf/core/session/AbstractIOSession.java:366-368 | the session becomes INVALID and nothing else changes |
| Sessions.Session.SetStateReady | sonfdroid/src/main/java/com/sonf/core/session/AbstractIOSession.java:371-373 | the session becomes READY and nothing else changes |
| Sessions.Session.CancelConnect | sonfdroid/src/main/java/com/sonf/core/session/AbstractIOSession.java:399-404 | a CONNECTING session moves to CLOSING and the cancel is passed on to the controller; any other session is unchanged |
| Sessions.Session.Prepare | sonfdroid/src/main/java/com/sonf/core/session/AbstractIOSession.java:294-299 | the session becomes CONNECTTED with a fresh copy of its configuration, an empty attribute map and an empty write queue |
| Sessions.Session.SetChannel | sonfdroid/src/main/java/com/sonf/core/session/AbstractIOSession.java:334-336 | the channel is set and nothing else changes |
| Sessions.Session.SetSelectionKey | sonfdroid/src/main/java/com/sonf/nio/NioSession.java:189-191 | the selection key is set and nothing else changes |
| Sessions.Session.IsActive | sonfdroid/src/main/java/com/sonf/nio/NioSession.java:197-199 | the key's validity, or NullPointerException when there is no key yet |
| Sessions.Session.UpdateWrittenTime | sonfdroid/src/main/java/com/sonf/core/session/AbstractIOSession.java:152-156 | the clock becomes WrittenAt of the old clock and nothing else changes |
| Sessions.Session.UpdateReadTime | sonfdroid/src/main/java/com/sonf/core/session/AbstractIOSession.java:163-167 | the clock becomes ReadAt of the old clock and nothing else changes |
| Sessions.Session.IncreaseIdleCount | sonfdroid/src/main/java/com/sonf/core/session/AbstractIOSession.java:245-258 | the clock becomes IdleFired of the old clock and nothing else changes |
| Sessions.Session.FireIdle | sonfdroid/src/main/java/com/sonf/core/filter/DefaultFilterChain.java:116-119 | the idle event is counted before sessionIdle is dispatched |
| Sessions.Session.CheckIdle | sonfdroid/src/main/java/com/sonf/core/session/AbstractIOSession.java:216-221 | a due status is counted and reported to the chain; otherwise nothing changes |
| Sessions.Session.NotifyIdle | sonfdroid/src/main/java/com/sonf/core/session/AbstractIOSession.java:203-211 | the three tests fire exactly the statuses due on the clock before any fired, BOTH, READER then WRITER, and change nothing else |
| Sessions.Session.NotifyWriteTimeout | sonfdroid/src/main/java/com/sonf/core/session/AbstractIOSession.java:223-237 | a packet in flight for the write timeout or longer is dropped, its future failed with "Write Timeout", exceptionCaught fired and the session closed as closeNow does; a packet without a future throws NullPointerException after being dropped; otherwise nothing changes |
| Sessions.Session.NotifyIdleSession | sonfdroid/src/main/java/com/sonf/core/session/AbstractIOSession.java:203-214 | the due idle events are fired first, then the write timeout is checked; nothing else is fired unless the packet in flight timed out |
| Sessions.Session.DestroyWriteQueue | sonfdroid/src/main/java/com/sonf/core/session/AbstractIOSession.java:562-579 | the queue becomes empty and every queued packet's future is failed with "session closed!" |
| Sessions.Session.CloseNow | sonfdroid/src/main/java/com/sonf/core/session/AbstractIOSession.java:539-557 | a CLOSING or INVALID session is left alone; any other becomes CLOSING, every queued future fails with "session closed!" and filterClose is fired; the close future is returned either way |
| Sessions.Session.CloseNowKeeping | sonfdroid/src/main/java/com/sonf/core/session/AbstractIOSession.java:539-557 | closeNow leaves a future that is already complete as it was |
| Sessions.Session.CloseOnFlush | sonfdroid/src/main/java/com/sonf/core/session/AbstractIOSession.java:526-533 | a session not closing or invalid gets CLOSE_REQUEST at the end of its queue, or throws NullPointerException when it has no queue yet; the close future is returned |
| Sessions.Session.Write | sonfdroid/src/main/java/com/sonf/core/session/AbstractIOSession.java:585-604 | a null message throws IllegalArgumentException; a session that is not READY returns a future failed with IllegalStateException and queues nothing; an IoBuffer with nothing remaining throws; otherwise one filterWrite of a new packet stamped now and carrying the new pending future |
| Sessions.Session.SetScheduledForFlush | sonfdroid/src/main/java/com/sonf/core/session/AbstractIOSession.java:615-625 | setting succeeds only if the flag was clear; clearing always succeeds; the flag ends as requested |
| Sessions.Session.SetCurrentWritePacket | sonfdroid/src/main/java/com/sonf/core/session/AbstractIOSession.java:320-322 | the packet in flight is replaced and nothing else changes |
| Sessions.Session.PollWriteQueue | sonfdroid/src/main/java/com/sonf/core/session/AbstractIOSession.java:325-327 | an empty queue gives nothing; otherwise the head is removed and returned |
| Sessions.Session.Fire | sonfdroid/src/main/java/com/sonf/core/filter/DefaultFilterChain.java:75-113 | the chain call is recorded and nothing else changes |
| Sessions.Session.FireSent | sonfdroid/src/main/java/com/sonf/core/filter/DefaultFilterChain.java:90-93 | the packet's future is marked written before messageSent is dispatched; a packet without a future throws NullPointerException and nothing is dispatched |
| Sessions.Session.GetIOBuffer | sonfdroid/src/main/java/com/sonf/core/session/AbstractIOSession.java:261-268 | the read buffer is allocated with the configured size the first time and returned unchanged afterwards |
| Sessions.Session.SetAttribute | sonfdroid/src/main/java/com/sonf/core/session/AbstractIOSession.java:479-481 | before prepare throws NullPointerException; otherwise the map's set: a null value removes the key, any other replaces it, and the previous value is returned |
| Sessions.Session.RemoveAttribute | sonfdroid/src/main/java/com/sonf/core/session/AbstractIOSession.java:503-505 | before prepare throws NullPointerException; otherwise the key is removed and its previous value returned |
| Sessions.Session.SetRemoteAddress | sonfdroid/src/main/java/com/sonf/nio/NioSession.java:93-102 | only a NEW session accepts an address, and only an InetSocketAddress; otherwise IllegalStateException or RuntimeException and nothing changes |
| Sessions.Session.SetRemoteHost | sonfdroid/src/main/java/com/sonf/nio/NioSession.java:108-115 | only a NEW session accepts a host and port, forgetting any address set before; otherwise IllegalStateException and nothing changes |
| Sessions.Session.ParseRemoteAddress | sonfdroid/src/main/java/com/sonf/nio/NioSession.java:121-132 | an address already set is kept; otherwise it becomes what Resolve gives, or Resolve's exception is thrown and nothing changes |
| Sessions.Session.GetUniqueKey | sonfdroid/src/main/java/com/sonf/nio/NioSession.java:150-156 | the key is null while no address is set, and otherwise UniqueKey of the address |
| Sessions.Session.SetConnectDeadLine | sonfdroid/src/main/java/com/sonf/nio/NioSession.java:162-164 | the deadline becomes now plus the configured connect timeout |
| Sessions.Session.IsConnectTimeout | sonfdroid/src/main/java/com/sonf/nio/NioSession.java:170-175 | never while the deadline is unset; otherwise exactly once now has reached it |
| Sessions.FireAllAppend | sonfdroid/src/main/java/com/sonf/core/session/AbstractIOSession.java:203-211 | firing two runs of idle events in turn is firing their concatenation |
| Sessions.IdleCallsAppend | sonfdroid/src/main/java/com/sonf/core/filter/DefaultFilterChain.java:116-119 | the idle calls of a concatenation are the concatenation of the calls |
| Processors.RemoveFirstMembers | sonfdroid/src/main/java/com/sonf/polling/AbstractPollingIoProcessor.java:466 | List.remove on the removal queue takes out one occurrence of the session when it is there and leaves every other entry |
| Processors.RemoveFirstNoDup | sonfdroid/src/main/java/com/sonf/polling/AbstractPollingIoProcessor.java:466 | on a queue without repeats, remove takes the session out altogether and the queue stays without repeats |
| Processors.SpinsAppend | sonfdroid/src/main/java/com/sonf/polling/AbstractPollingIoProcessor.java:191-213 | running the spin detector for k1 spinning selects and then k2 more is the same as running it for k1 + k2, rebuild counts adding up |
| Processors.SpinsCountDown | sonfdroid/src/main/java/com/sonf/polling/AbstractPollingIoProcessor.java:203-208 | from nbTries n, n spinning selects or fewer only count nbTries down and never rebuild the selector |
| Processors.SpinRebuildsEveryEleven | sonfdroid/src/main/java/com/sonf/polling/AbstractPollingIoProcessor.java:181-213 | from nbTries = 10, the selector is rebuilt on the eleventh spinning select and every eleventh after it, and nbTries is then back at 10 |
| Processors.HeadSent | sonfdroid/src/main/java/com/sonf/polling/AbstractPollingIoProcessor.java:548-559 | the head is reported sent only when it is an IoBuffer message; an IoBuffer with no backing buffer is the only head whose judgement throws |
| Processors.ClearWriteQueue | sonfdroid/src/main/java/com/sonf/polling/AbstractPollingIoProcessor.java:542-573 | the corrected clearWriteQueue: an empty queue changes nothing; on completion every future of the queue is ready, the head sent being marked written and every other entry failed with WriteToClosedSessionException, the queue being emptied and the matching messageSent/exceptionCaught calls fired |
| Processors.ReportFailed | sonfdroid/src/main/java/com/sonf/polling/AbstractPollingIoProcessor.java:566-572 | every failed entry's future ends failed with WriteToClosedSessionException and is ready; one exceptionCaught call per failed write is fired and nothing else changes |
| Processors.ClearHead | sonfdroid/src/main/java/com/sonf/polling/AbstractPollingIoProcessor.java:548-563 | the head is polled and judged; a head reported sent has its future marked written; what is returned for failing is the rest of the queue, which is emptied |
| Processors.DrainQueue | sonfdroid/src/main/java/com/sonf/polling/AbstractPollingIoProcessor.java:561-563 | the entries discarded are exactly the old queue, and the queue ends empty with the session otherwise unchanged |
| Processors.FailLoopAsWritten | sonfdroid/src/main/java/com/sonf/polling/AbstractPollingIoProcessor.java:566-570 | the failing loop as written completes exactly when every failed entry is a write with a future; otherwise it throws NullPointerException |
| Processors.CloseRequestBreaksClearAsWritten | sonfdroid/src/main/java/com/sonf/polling/AbstractPollingIoProcessor.java:569 | any queue still holding CLOSE_REQUEST makes clearWriteQueue as written throw NullPointerException, whatever the head was |
| Processors.CloseRequestAloneBreaksClearAsWritten | sonfdroid/src/main/java/com/sonf/polling/AbstractPollingIoProcessor.java:548-570 | the queue holding only CLOSE_REQUEST: its head is not reported sent, and the failing loop throws NullPointerException |
| Processors.Destroy | sonfdroid/src/main/java/com/sonf/nio/NioProcessor.java:139-153 | the selection key, if any, is cancelled and the channel closed; the exception is the one closing the channel throws, and nothing else changes |
| Processors.DestroyReporting | sonfdroid/src/main/java/com/sonf/polling/AbstractPollingIoProcessor.java:525-529 | destroy as removeNow calls it: success is reported exactly when destroy does not throw, and a thrown exception is passed to exceptionCaught on the chain |
| Processors.FailRegistration | sonfdroid/src/main/java/com/sonf/polling/AbstractPollingIoProcessor.java:492-502 | the stored connect future is removed from the attributes and, when present, failed with the registration exception; the session is then destroyed and closed; a missing attribute map or a stored value that is not a ConnectFuture throws instead |
| Processors.Enqueued | sonfdroid/src/main/java/com/sonf/polling/AbstractPollingIoProcessor.java:153-157 | after scheduleRemove the session is in the removal queue, and a queue without repeats stays without repeats |
| Processors.ReadFromEvents | sonfdroid/src/main/java/com/sonf/polling/AbstractPollingIoProcessor.java:279-313 | for every sequence of read results: at most two chain calls; messageReceived with the flipped buffer exactly when the completed reads brought bytes; inputClosed exactly when the loop met the end of the stream; a read that throws fires exceptionCaught and nothing else |
| Processors.NextFlush | sonfdroid/src/main/java/com/sonf/polling/AbstractPollingIoProcessor.java:398-415 | the corrected decision after one write: a failed write (-1) stops the flush; a write that leaves bytes stops it with OP_WRITE set; otherwise the flush goes round again while the running total stays below maxWriteBytes, and stops with the budget used once it reaches it |
| Processors.NextFlushAgreesAsWritten | sonfdroid/src/main/java/com/sonf/polling/AbstractPollingIoProcessor.java:398-415 | wherever no write failed and the total fits a Java int, the corrected decision is the one the code makes |
| Processors.FailedWritesSpinAsWritten | sonfdroid/src/main/java/com/sonf/polling/AbstractPollingIoProcessor.java:404-437 | as written, a flush whose writes keep failing adds -1 to its total each time and goes round again, k times for any k up to the distance to Integer.MIN_VALUE |
| Processors.FailedWritesWrapAsWritten | sonfdroid/src/main/java/com/sonf/polling/AbstractPollingIoProcessor.java:404-437 | as written, such a flush stops only when the total wraps round past Integer.MIN_VALUE to a value at least maxWriteBytes |
| Processors.HeadBecomesCurrent | sonfdroid/src/main/java/com/sonf/polling/AbstractPollingIoProcessor.java:375-388 | polling the head of the queue into the current slot brings no new packet or future into the session |
| Processors.FlushResult | sonfdroid/src/main/java/com/sonf/polling/AbstractPollingIoProcessor.java:417-421 | flushNow returns true exactly when the queue drained and throws exactly when a write or messageSent failed; any other stop returns false |
| Processors.Processor.constructor | sonfdroid/src/main/java/com/sonf/polling/AbstractPollingIoProcessor.java:67-73 | a new processor is neither disposing nor disposed, has empty new, removal and flush queues, no managed session, nbTries 10 and its idle check time set to now |
| Processors.Processor.Dispose | sonfdroid/src/main/java/com/sonf/polling/AbstractPollingIoProcessor.java:95-107 | the first dispose marks the processor disposing and disposed; later calls change nothing |
| Processors.Processor.Add | sonfdroid/src/main/java/com/sonf/polling/AbstractPollingIoProcessor.java:113-121 | a disposing or disposed processor refuses the session with IllegalStateException("Already disposed.") and changes nothing; otherwise the session is appended to the new-session queue |
| Processors.Processor.ScheduleRemove | sonfdroid/src/main/java/com/sonf/polling/AbstractPollingIoProcessor.java:153-157 | the removal queue becomes Enqueued(old queue, session), keeping it without repeats, and nothing else changes |
| Processors.Processor.ScheduleFlush | sonfdroid/src/main/java/com/sonf/polling/AbstractPollingIoProcessor.java:136-151 | the session's flag is set; the session is appended to the flush queue only when the flag was false before, so the flush queue holds each session at most once |
| Processors.Processor.SpinCheck | sonfdroid/src/main/java/com/sonf/polling/AbstractPollingIoProcessor.java:191-213 | nbTries moves as the spin detector's step says and a rebuild is reported when it does; nbTries stays within 0..10 and nothing else changes |
| Processors.Processor.AddManagedSession | sonfdroid/src/main/java/com/sonf/polling/AbstractPollingIoProcessor.java:575-583 | an id already managed is ignored; otherwise the session is recorded, the controller is activated when it is the first, sessionOpened is fired, and activation keeps tracking whether any session is managed |
| Processors.Processor.SessionDestroyed | sonfdroid/src/main/java/com/sonf/polling/AbstractPollingIoProcessor.java:585-593 | the id is forgotten; only when it was managed is sessionClosed fired and the controller deactivated once no session is left |
| Processors.Processor.RemoveNow | sonfdroid/src/main/java/com/sonf/polling/AbstractPollingIoProcessor.java:522-540 | the write queue is cleared (an exception from this first clear escapes and nothing else is done), then the channel is destroyed (its exception reported on the chain), the queue cleared again and sessionDestroyed run; removal succeeds exactly when destroy did not throw |
| Processors.Processor.DestroyAndForget | sonfdroid/src/main/java/com/sonf/polling/AbstractPollingIoProcessor.java:525-537 | with the queue already cleared: destroy, the second clear and sessionDestroyed; the session leaves the managed map and success is reported exactly when destroy did not throw |
| Processors.Processor.RemoveOne | sonfdroid/src/main/java/com/sonf/polling/AbstractPollingIoProcessor.java:451-474 | by the key's state: an OPENED session is removed now and no longer managed; a CLOSING one is only counted; an OPENING one is taken out of the new-session queue and removed; a completed removal leaves no valid key, an empty write queue and the id unmanaged |
| Processors.Processor.RemovalComplete | sonfdroid/src/main/java/com/sonf/polling/AbstractPollingIoProcessor.java:444-477 | after a completed removal pass the removal queue is empty and every session taken from it has no valid key; those that had one have empty write queues and are unmanaged; OPENING ones have left the new-session queue |
| Processors.Processor.RemoveStep | sonfdroid/src/main/java/com/sonf/polling/AbstractPollingIoProcessor.java:451-474 | RemoveOne for the pass: a completed removal is counted whenever the key was closing or destroy did not throw; newSessions loses at most this session |
| Processors.Processor.RemoveHead | sonfdroid/src/main/java/com/sonf/polling/AbstractPollingIoProcessor.java:450-451 | polling R[i] and removing it extends the pass's progress to i + 1, or leaves the rest of the queue R[i+1..] in place when an exception escapes |
| Processors.Processor.RemoveSessions | sonfdroid/src/main/java/com/sonf/polling/AbstractPollingIoProcessor.java:444-477 | the pass empties the removal queue unless an exception escapes, which leaves a proper suffix of it; the count is between 0 and the queue's length and is the whole queue when every destroy succeeds |
| Processors.Processor.RemoveLoop | sonfdroid/src/main/java/com/sonf/polling/AbstractPollingIoProcessor.java:448-475 | the loop of removeSessions keeps the progress invariant over the prefix polled so far and the new-session queue only shrinks by sessions of the removal queue |
| Processors.Processor.RemoveTurn | sonfdroid/src/main/java/com/sonf/polling/AbstractPollingIoProcessor.java:450-474 | one turn of that loop extends the progress by one session and the count by at most one |
| Processors.Processor.ReadFrom | sonfdroid/src/main/java/com/sonf/polling/AbstractPollingIoProcessor.java:279-313 | the read buffer (allocated to the read buffer size when missing) is cleared, filled with the bytes the reads brought and flipped; the chain calls and read time are those ReadFromEvents describes, and the removal is scheduled after an IOException other than PortUnreachableException |
| Processors.Processor.ReportRead | sonfdroid/src/main/java/com/sonf/polling/AbstractPollingIoProcessor.java:296-311 | a read that threw fires exceptionCaught and, for an IOException other than PortUnreachableException, schedules removal; otherwise bytes read update the read time and fire messageReceived, and a negative last read fires inputClosed |
| Processors.Processor.FillReadBuffer | sonfdroid/src/main/java/com/sonf/polling/AbstractPollingIoProcessor.java:281-295 | the buffer is allocated to the read buffer size when missing, cleared, filled from position 0 with exactly the bytes the read loop returns, and flipped so the limit is their count |
| Processors.Processor.SetInterestedInWrite | sonfdroid/src/main/java/com/sonf/nio/NioProcessor.java:200-216 | OP_WRITE is set or cleared for a session with a valid key; a session without one is left alone |
| Processors.Processor.FailWrite | sonfdroid/src/main/java/com/sonf/polling/AbstractPollingIoProcessor.java:431-437 | an IOException from the channel closes the session and removes it now, returning -1 (it leaves the managed map); an exception from removeNow escapes |
| Processors.Processor.WriteBuffer | sonfdroid/src/main/java/com/sonf/polling/AbstractPollingIoProcessor.java:424-442 | the buffer is offered at most maxLength bytes; the bytes the channel took advance the position and the write time; an IOException goes to FailWrite |
| Processors.Processor.TakePacket | sonfdroid/src/main/java/com/sonf/polling/AbstractPollingIoProcessor.java:375-388 | the current packet if any, else the head of the queue, becomes current; CLOSE_REQUEST at the head closes the session; an empty queue yields no packet; nothing new enters the session |
| Processors.Processor.WriteWithin | sonfdroid/src/main/java/com/sonf/polling/AbstractPollingIoProcessor.java:392 | writeBuffer with what is left of the budget: a successful write keeps the running total within maxWriteBytes; -1 means the session has been closed and removed |
| Processors.Processor.SendBuffer | sonfdroid/src/main/java/com/sonf/polling/AbstractPollingIoProcessor.java:392-397 | after the write, a buffer left empty is taken out of the current slot and messageSent fired; a buffer with bytes left stays current |
| Processors.Processor.WriteCurrent | sonfdroid/src/main/java/com/sonf/polling/AbstractPollingIoProcessor.java:389-419 | a current message that is not an IoBuffer stops the flush with "Don't know how to handle message of type ..."; an IoBuffer is written, the round going again only below maxWriteBytes |
| Processors.Processor.SendRound | sonfdroid/src/main/java/com/sonf/polling/AbstractPollingIoProcessor.java:390-415 | a round on a current IoBuffer either goes again with a larger total still below maxWriteBytes, or stops in the state FlushEnded describes |
| Processors.Processor.Settle | sonfdroid/src/main/java/com/sonf/polling/AbstractPollingIoProcessor.java:398-415 | the decision is NextFlush's; OP_WRITE is set when bytes remain, and the session is rescheduled for flush when the budget was used |
| Processors.Processor.FlushRound | sonfdroid/src/main/java/com/sonf/polling/AbstractPollingIoProcessor.java:373-420 | one round of the flush loop either continues with a larger total below maxWriteBytes and the processor unchanged, or ends the flush as FlushEnded says |
| Processors.Processor.FlushNow | sonfdroid/src/main/java/com/sonf/polling/AbstractPollingIoProcessor.java:360-422 | a session that is not READY is scheduled for removal and false returned; otherwise OP_WRITE is cleared and the flush stops when the queue drains (true, nothing left), the kernel stops taking bytes (OP_WRITE set), maxWriteBytes is written (rescheduled), a write fails (session closed and unmanaged) or an exception escapes; the total never exceeds the budget |
| Processors.Processor.FlushLoop | sonfdroid/src/main/java/com/sonf/polling/AbstractPollingIoProcessor.java:373-420 | the rounds of the flush loop end in the state FlushEnded describes, without new packets or futures |
| Processors.Processor.FlushOpened | sonfdroid/src/main/java/com/sonf/polling/AbstractPollingIoProcessor.java:329-341 | an OPENED session is flushed; an exception from flushNow schedules its removal, closes it and reports the exception; the flush queue grows by the session only when the budget was used |
| Processors.Processor.AbortFlush | sonfdroid/src/main/java/com/sonf/polling/AbstractPollingIoProcessor.java:336-340 | the session is scheduled for removal and closed now, and exceptionCaught is fired with the exception |
| Processors.Processor.FlushOne | sonfdroid/src/main/java/com/sonf/polling/AbstractPollingIoProcessor.java:326-355 | the flag is cleared, then by the key's state: OPENED is flushed, CLOSING skipped, OPENING put back in the flush queue and the pass stopped |
| Processors.Processor.FlushTurn | sonfdroid/src/main/java/com/sonf/polling/AbstractPollingIoProcessor.java:320-326 | one turn polls the head of the flush queue; either it consumes write results, the queue shrinks, or the pass stops with an OPENING session put back at the end |
| Processors.Processor.Flush | sonfdroid/src/main/java/com/sonf/polling/AbstractPollingIoProcessor.java:315-358 | the flush pass empties the flush queue, or stops with the OPENING session found put back at its end; the flush queue keeps each session at most once with its flag set |
| Processors.Processor.ProcessKey | sonfdroid/src/main/java/com/sonf/polling/AbstractPollingIoProcessor.java:264-275 | a readable session is read; a writable one has its flag set and is queued for flush when the flag was false |
| Processors.Processor.ProcessStep | sonfdroid/src/main/java/com/sonf/polling/AbstractPollingIoProcessor.java:264-275 | ProcessKey within the pass: every session of the selected keys stays valid |
| Processors.Processor.Process | sonfdroid/src/main/java/com/sonf/polling/AbstractPollingIoProcessor.java:262-277 | every writable session ends with its flag set; the flush queue only grows, by writable sessions, each at most once; the removal queue only grows, by readable sessions |
| Processors.Processor.ProcessLoop | sonfdroid/src/main/java/com/sonf/polling/AbstractPollingIoProcessor.java:264-276 | the loop over the selected keys keeps the pass invariant up to the last key |
| Processors.Processor.ProcessNext | sonfdroid/src/main/java/com/sonf/polling/AbstractPollingIoProcessor.java:264-275 | one key extends the pass invariant by one |
| Processors.Processor.RemoveIfActive | sonfdroid/src/main/java/com/sonf/polling/AbstractPollingIoProcessor.java:233-236 | isActive is asked, and the session is scheduled for removal exactly when it answers true |
| Processors.Processor.ScheduleActiveRemovals | sonfdroid/src/main/java/com/sonf/polling/AbstractPollingIoProcessor.java:228-241 | while disposing, every managed session whose key is valid is scheduled for removal and hasKeys says whether there was one; a managed session with no key throws NullPointerException; a processor not disposing changes nothing |
| Processors.Processor.NotifyManaged | sonfdroid/src/main/java/com/sonf/polling/AbstractPollingIoProcessor.java:513-516 | a session whose close future is not closed gets its idle and write-timeout checks, and only such a session; a close future holding something other than a Boolean throws ClassCastException |
| Processors.Processor.NotifyVisit | sonfdroid/src/main/java/com/sonf/polling/AbstractPollingIoProcessor.java:513-516 | NotifyManaged within the pass: the sessions not yet visited keep their packets and their close futures' state |
| Processors.Processor.NotifyIdleSessions | sonfdroid/src/main/java/com/sonf/polling/AbstractPollingIoProcessor.java:508-519 | at most once per SELECT_TIMEOUT (the time is stamped when it runs), every managed session whose close future is not closed is checked, and only those; a pass within SELECT_TIMEOUT changes nothing |
| Processors.Processor.NotifyLoop | sonfdroid/src/main/java/com/sonf/polling/AbstractPollingIoProcessor.java:512-518 | the sessions checked are exactly those not closed, unless an exception ends the pass |
| Processors.Processor.RegisterOne | sonfdroid/src/main/java/com/sonf/polling/AbstractPollingIoProcessor.java:486-502 | a session is registered (and counted) exactly when initToRead and buildChain do not throw; a registered session gets a valid key and is managed; a failure goes through FailRegistration |
| Processors.Processor.RegisterNext | sonfdroid/src/main/java/com/sonf/polling/AbstractPollingIoProcessor.java:482-503 | one turn polls the head of the new-session queue and registers it; the managed ids grow by at most its id |
| Processors.Processor.PollNewSession | sonfdroid/src/main/java/com/sonf/polling/AbstractPollingIoProcessor.java:482 | poll returns the head of the new-session queue and removes it |
| Processors.Processor.RegisterVisit | sonfdroid/src/main/java/com/sonf/polling/AbstractPollingIoProcessor.java:486-502 | RegisterOne within the pass: the sessions still queued keep their frames |
| Processors.Processor.RegisterNewSessions | sonfdroid/src/main/java/com/sonf/polling/AbstractPollingIoProcessor.java:479-506 | the queue is polled until empty unless an exception ends the pass; the count is at most the sessions polled; managed ids only grow, by ids of sessions polled; activation keeps tracking the managed sessions |
| Processors.Processor.RegisterLoop | sonfdroid/src/main/java/com/sonf/polling/AbstractPollingIoProcessor.java:481-504 | the loop keeps the pass invariant over the prefix polled so far |
| Processors.Processor.RegisterTurn | sonfdroid/src/main/java/com/sonf/polling/AbstractPollingIoProcessor.java:482-503 | one turn extends the pass invariant by one session |
| PollingControllers.SelectTimeout | sonfdroid/src/main/java/com/sonf/polling/AbstractPollingIoController.java:254-263 | the worker's select timeout is at most 1000 ms: exactly 1000 with no connect pending, else the connect check interval when that is shorter |
| PollingControllers.DialedSnoc | sonfdroid/src/main/java/com/sonf/polling/AbstractPollingIoController.java:307-338 | one more request ending as its parse and the network decide keeps the record of how every drained request ended |
| PollingControllers.ParsedAsSnoc | sonfdroid/src/main/java/com/sonf/polling/AbstractPollingIoController.java:315 | one more request parsing the address its session had before the drain keeps the record of what each request parsed |
| PollingControllers.DrainOfSnoc | sonfdroid/src/main/java/com/sonf/polling/AbstractPollingIoController.java:307-338 | draining one more request extends the drain's record (channels connecting and closed, sessions handed over, requests left connecting) by that request alone |
| PollingControllers.DrainOfSpec | sonfdroid/src/main/java/com/sonf/polling/AbstractPollingIoController.java:305-340 | after the drain every channel left connecting was connecting before with the same future or belongs to one of the drained requests; closed channels only grow; the sessions handed over extend the earlier ones in order; the count returned is the requests left connecting; handed plus connecting never exceed the requests drained |
| PollingControllers.ScheduledAllSpec | sonfdroid/src/main/java/com/sonf/polling/AbstractPollingIoController.java:217-221 | scheduling keeps the old cancel queue as a prefix, holds exactly the old entries and the futures scheduled, and never queues a future twice |
| PollingControllers.ScheduledAllAppend | sonfdroid/src/main/java/com/sonf/polling/AbstractPollingIoController.java:217-221 | scheduling one run of futures and then another is the same as scheduling both runs in order |
| PollingControllers.TimeOutTargetsSnoc | sonfdroid/src/main/java/com/sonf/polling/AbstractPollingIoController.java:385-399 | one more key extends the futures checkTimeOut schedules by that key's target alone |
| PollingControllers.TimeOutTargetsSpec | sonfdroid/src/main/java/com/sonf/polling/AbstractPollingIoController.java:384-400 | a future is scheduled exactly when one of the keys yields its channel and, while disposing, it is attached, or else it is overdue |
| PollingControllers.IteratedChannels | sonfdroid/src/main/java/com/sonf/nio/NioChannelController.java:281-304 | the iterator checkTimeOut walks yields, key by key, the channel of a key that is valid and connectable and null for any other key |
| PollingControllers.ValidChannels | sonfdroid/src/main/java/com/sonf/nio/NioChannelController.java:281-304 | the corrected walk yields, key by key, the channel of every valid key whether or not its connect is ready |
| PollingControllers.PendingConnectNeverTimesOut | sonfdroid/src/main/java/com/sonf/polling/AbstractPollingIoController.java:384-400 | as written, a connect still pending (valid key, not connectable) is never scheduled however overdue, while the walk over valid keys schedules it |
| PollingControllers.ValidChannelsReachOverdue | sonfdroid/src/main/java/com/sonf/polling/AbstractPollingIoController.java:384-400 | walking the valid keys, every request still connecting that is overdue (or any attached one while disposing) is scheduled for cancelling |
| PollingControllers.PollingController.constructor | sonfdroid/src/main/java/com/sonf/polling/AbstractPollingIoController.java:79-99 | a new controller is not selectable, runs no worker, has empty connect and cancel queues, no channel connecting or closed, a one-minute connect check interval and an unset disposal future |
| PollingControllers.PollingController.SetSelectable | sonfdroid/src/main/java/com/sonf/polling/AbstractPollingIoController.java:161-164 | only the selectable flag changes, to the value given |
| PollingControllers.PollingController.RunWorkerBee | sonfdroid/src/main/java/com/sonf/polling/AbstractPollingIoController.java:223-241 | nothing happens while the controller is not selectable; otherwise a worker is running afterwards |
| PollingControllers.PollingController.Connect | sonfdroid/src/main/java/com/sonf/polling/AbstractPollingIoController.java:191-204 | a disposing controller refuses the request, failing its future with "connect failed when Controller is disposing !" and changing nothing else; otherwise the future is appended to the connect queue and a worker runs if the controller is selectable |
| PollingControllers.PollingController.ScheduleCancelConnect | sonfdroid/src/main/java/com/sonf/polling/AbstractPollingIoController.java:217-221 | the future is in the cancel queue afterwards, added only when it was not there, so the queue keeps no repeats |
| PollingControllers.PollingController.CancelConnect | sonfdroid/src/main/java/com/sonf/polling/AbstractPollingIoController.java:207-215 | the cancel is scheduled as ScheduleCancelConnect says and a worker runs if the controller is selectable |
| PollingControllers.PollingController.SessionConnect | sonfdroid/src/main/java/com/sonf/core/session/AbstractIOSession.java:354-363 | a session not NEW throws and nothing changes; otherwise a fresh connect future of the session is made; when the controller accepts it the session is CONNECTING with deadline now plus the connect timeout and the future queued; when refused the future fails and the session is INVALID |
| PollingControllers.PollingController.CancelFuture | sonfdroid/src/main/java/com/sonf/future/ConnectFuture.java:25-33 | a pending future completes with false; its session, if still CONNECTING, moves to CLOSING and the cancel is scheduled; a complete future is unchanged; the answer is true, except that a pending future without a session throws NullPointerException |
| PollingControllers.PollingController.CloseChannel | sonfdroid/src/main/java/com/sonf/nio/NioChannelController.java:184-195 | the channel's key is cancelled (it stops connecting) and the channel is closed; nothing else changes |
| PollingControllers.PollingController.HandOver | sonfdroid/src/main/java/com/sonf/polling/AbstractPollingIoController.java:318-321 | the session is prepared (CONNECTED, fresh configuration with the same values, fresh attributes holding only the connect future, empty write queue); the processor appends it to its new sessions, or refuses it with "Already disposed." and is unchanged |
| PollingControllers.PollingController.FailRequest | sonfdroid/src/main/java/com/sonf/polling/AbstractPollingIoController.java:328-336 | the request's future fails with the exception and the channel opened for it, if any, is closed |
| PollingControllers.PollingController.Establish | sonfdroid/src/main/java/com/sonf/polling/AbstractPollingIoController.java:317-321 | a connect that completed at once: the session takes the channel and is handed over; a processor refusing it fails the request and closes the channel |
| PollingControllers.PollingController.RegisterConnecting | sonfdroid/src/main/java/com/sonf/polling/AbstractPollingIoController.java:323-326 | the channel is registered for OP_CONNECT with the future attached and the session takes it; a registration that throws fails the request and closes the channel, the session unchanged |
| PollingControllers.PollingController.ConnectOpened | sonfdroid/src/main/java/com/sonf/polling/AbstractPollingIoController.java:317-336 | after the channel opens, the request ends as DialEnd says: failed (future failed, channel closed), established (session handed over) or in progress (channel registered) |
| PollingControllers.PollingController.ConnectOne | sonfdroid/src/main/java/com/sonf/polling/AbstractPollingIoController.java:312-337 | one request ends as DialEnd says from its session, its address's parse, what the network does and whether the processor refuses sessions; a future without a session fails with NullPointerException; an exception affects only this request |
| PollingControllers.PollingController.ConnectSession | sonfdroid/src/main/java/com/sonf/polling/AbstractPollingIoController.java:314-337 | for a future with a session: the address is parsed, then the request ends as DialEnd says with that parse |
| PollingControllers.PollingController.Parse | sonfdroid/src/main/java/com/sonf/nio/NioSession.java:121-132 | parseRemoteAddress's outcome and the new remote address are ParseOutcome's and ParsedRemote's, nothing else of the session changing |
| PollingControllers.PollingController.ConnectParsed | sonfdroid/src/main/java/com/sonf/polling/AbstractPollingIoController.java:316-337 | once the address is parsed: the request ends as DialEnd says for a successful parse, and the remote address is kept |
| PollingControllers.PollingController.ConnectVisit | sonfdroid/src/main/java/com/sonf/polling/AbstractPollingIoController.java:308-337 | request k of the drained queue ends as DialEnd says and extends the drain's record by exactly that end; with sessions apart, it parses the address its session had before the drain; with futures apart, the futures ended so far are as their ends say |
| PollingControllers.PollingController.VisitSessions | sonfdroid/src/main/java/com/sonf/polling/AbstractPollingIoController.java:308-337 | VisitOne on request k: the sessions of the later requests stay well formed and keep their addresses |
| PollingControllers.PollingController.VisitOne | sonfdroid/src/main/java/com/sonf/polling/AbstractPollingIoController.java:312-337 | one request changes the connecting channels, closed channels, new sessions and its future exactly as its end says |
| PollingControllers.PollingController.DoConnectThenRegister | sonfdroid/src/main/java/com/sonf/polling/AbstractPollingIoController.java:305-340 | the connect queue is emptied; request i ends as DialEnd says; connecting channels, closed channels and the processor's new sessions are the drain's record; the count returned is the requests left connecting; with sessions apart each parsed its own address, with futures apart each future ends as its request did |
| PollingControllers.PollingController.DrainLoop | sonfdroid/src/main/java/com/sonf/polling/AbstractPollingIoController.java:307-338 | the loop polls every queued request and keeps the drain invariant up to the last |
| PollingControllers.PollingController.ConnectNext | sonfdroid/src/main/java/com/sonf/polling/AbstractPollingIoController.java:308-337 | one poll extends the drain invariant by one request |
| PollingControllers.PollingController.VisitNext | sonfdroid/src/main/java/com/sonf/polling/AbstractPollingIoController.java:312-337 | the polled request k extends the drain invariant by how it ended |
| PollingControllers.PollingController.FailConnect | sonfdroid/src/main/java/com/sonf/polling/AbstractPollingIoController.java:371-377 | the future fails with the exception and its cancel is scheduled |
| PollingControllers.PollingController.CompleteConnect | sonfdroid/src/main/java/com/sonf/polling/AbstractPollingIoController.java:359-368 | the key is cancelled; a future cancelled meanwhile changes nothing more; otherwise the session is handed to the processor, or, when the processor refuses it, the future fails and its cancel is scheduled; finished exactly when handed over |
| PollingControllers.PollingController.FinishConnect | sonfdroid/src/main/java/com/sonf/polling/AbstractPollingIoController.java:357-378 | finished exactly when finishConnect succeeded, the future was not cancelled and the processor accepted the session; an exception fails the future and schedules its cancel; a connect still pending changes nothing |
| PollingControllers.PollingController.ProcessOne | sonfdroid/src/main/java/com/sonf/polling/AbstractPollingIoController.java:345-378 | a null channel is skipped; a channel with no attached future throws NullPointerException and changes nothing; a future without a session is skipped; otherwise the connect is finished, keys only removed and the cancel queue only extended by that future |
| PollingControllers.PollingController.ProcessNext | sonfdroid/src/main/java/com/sonf/polling/AbstractPollingIoController.java:344-379 | one key extends the pass invariant and the count by at most one |
| PollingControllers.PollingController.ProcessSelected | sonfdroid/src/main/java/com/sonf/polling/AbstractPollingIoController.java:342-382 | the processor's new sessions gain exactly count sessions, all attached at the start, appended in order; keys are only removed; the cancel queue is only extended, by attached futures; only NullPointerException escapes |
| PollingControllers.PollingController.TimeOutOne | sonfdroid/src/main/java/com/sonf/polling/AbstractPollingIoController.java:386-398 | the cancel queue gains this key's target; while not disposing that future first fails with "Connection timed out."; other futures are unchanged |
| PollingControllers.PollingController.CheckTimeOut | sonfdroid/src/main/java/com/sonf/polling/AbstractPollingIoController.java:384-400 | the cancel queue gains the targets in key order; unless disposing, exactly the targeted futures fail with "Connection timed out." and every other attached future is unchanged |
| PollingControllers.PollingController.TimeOutLoop | sonfdroid/src/main/java/com/sonf/polling/AbstractPollingIoController.java:385-399 | the loop over the keys keeps the pass invariant up to the last key |
| PollingControllers.PollingController.TimeOutNext | sonfdroid/src/main/java/com/sonf/polling/AbstractPollingIoController.java:386-398 | one key extends the pass invariant by that key's target |
| PollingControllers.PollingController.PollCancel | sonfdroid/src/main/java/com/sonf/polling/AbstractPollingIoController.java:406 | poll returns the head of the cancel queue and removes it |
| PollingControllers.PollingController.CancelOne | sonfdroid/src/main/java/com/sonf/polling/AbstractPollingIoController.java:415-425 | the session's channel, if any, is closed, the session marked INVALID and the pending future completed with false (a complete one unchanged), no cancel being scheduled again |
| PollingControllers.PollingController.CancelNext | sonfdroid/src/main/java/com/sonf/polling/AbstractPollingIoController.java:406-425 | one request extends the cancel pass; the pass stops exactly when the request has no session |
| PollingControllers.PollingController.CancelVisit | sonfdroid/src/main/java/com/sonf/polling/AbstractPollingIoController.java:415-425 | the k-th request, which has a session, is cancelled and the pass extended by it |
| PollingControllers.PollingController.ProcessCancelQueue | sonfdroid/src/main/java/com/sonf/polling/AbstractPollingIoController.java:402-432 | requests are polled until the queue is empty or one without a session is polled and dropped; each of the count before it has its session INVALID, its future complete and its channel closed; nothing else changes |
| PollingControllers.PollingController.CancelLoop | sonfdroid/src/main/java/com/sonf/polling/AbstractPollingIoController.java:405-426 | the pass ends with the queue empty, or one past the request without a session |
| PollingControllers.PollingController.FinishWorker | sonfdroid/src/main/java/com/sonf/polling/AbstractPollingIoController.java:284-302 | the worker slot is freed; when the controller is disposing while selectable it stops being selectable, drops both queues, disposes the processor and completes the disposal future with true; otherwise nothing else changes |

## Left out

- Threads and executors: the ProcessorBee and WorkerBee start-up through a compare-and-set, the executor, the semaphore, `wakeup`, and the thread-pool factories. Each worker pass is modelled as one sequential method; the interleavings of callers with the worker are not.
- Processors.Processor.Dispose: does not wait for the worker to finish on the disposal future; it marks the processor disposing and disposed at once.
- Blocking waits of DefaultIOFuture (`await`, `wait`/`notifyAll`, the waiter count, the dead-lock check): only the single-assignment cell and the non-blocking path are modelled.
- Selector rebuilding (`registerNewSelector`) and `isBrokenConnection`: only the spin counter that decides a rebuild is modelled.
- The java.nio selector, selection keys and socket channels are not modelled as objects. A session's key is its `keyValid` field; the controller's selector is the `connecting` map; the socket's answers are scripts.
- The DNS lookup of `parseRemoteAddress` is a function parameter; socket options (NioSessionConfigImpl) are not modelled.
- Charset work: CharsetDecoder/CharsetEncoder are abstract functions over characters and bytes; heap versus direct allocation is reduced to the array offset `IndexOf` works with.
- Logger output: only the decision to print is modelled, not the text written to android.util.Log.
- Reflection: AbstractIOConfig.clone is a field-by-field copy; the reflective processor construction is not modelled.
- FilterChains.DefaultFilterChain.Clear: removes the entries in chain order. The source walks a copy of a ConcurrentHashMap's values (sonfdroid/src/main/java/com/sonf/core/filter/DefaultFilterChain.java:66-72), which is hash order, so which removal hooks run before one throws, and which entries remain, can differ.
- FilterEvents.ClearRun: predicts clear() in chain order, for the same reason as DefaultFilterChain.Clear.
- StringUtils.EqualsIgnoreCase: folds only the ASCII letters a-z and A-Z. Java's String.equalsIgnoreCase folds every Unicode letter, so "É" and "é" compare equal in Java and not in the model.
- JavaLang.ParseInt: accepts only the ASCII digits 0-9, while Integer.parseInt also accepts other Unicode decimal digits. The difference reaches DnsCache.IsIpV4.
- Buffers.IoBuffer.Remaining, Buffers.IoBuffer.HasRemaining, Buffers.IoBuffer.Capacity, Buffers.IoBuffer.Flip, Buffers.IoBuffer.Clear, Buffers.IoBuffer.SetLimit, Buffers.IoBuffer.SetPosition, Buffers.IoBuffer.Get, Buffers.IoBuffer.GetAt, Buffers.IoBuffer.IndexOf, Buffers.IoBuffer.GetString, Buffers.IoBuffer.FindTerminator, Buffers.IoBuffer.PutString: each requires the backing buffer to be allocated. The source throws NullPointerException on an unallocated buffer; only Buffers.BufferState.HasRemaining and Transport.Offer model that case.
- FilterEvents.HeadWrite: the QueueWrite effect does not name its packet. The packet HeadFilter queues is always the one filterWrite was fired with, and the caller holds it (FilterChains.DefaultFilterChain.FireFilterWrite).
- Sessions.Session.Fire: only records the chain call. The session effects a dispatch reports in its trace (SetReady, SetClosed, ConnectFutureResolved, QueueWrite, RemoveFromProcessor) are computed but not applied to a session, so TailFilter's move to READY and its resolution of the connect future (sonfdroid/src/main/java/com/sonf/core/filter/DefaultFilterChain.java:299-315) never reach the session's fields.
- Messages carry buffers by value (`BufferMessage`). A buffer shared between a message and the caller's own IoBuffer is not modelled, so a change made through one alias is not seen through the other.
- Processors.Processor.NotifyIdleSessions: walks the managed-session map. The source walks the selector's keys through allSessions (sonfdroid/src/main/java/com/sonf/nio/NioProcessor.java:184-186). The two agree only while every managed session has a key and no key outlives its session.
- Processors.Processor.ScheduleActiveRemovals: also walks the managed-session map instead of the selector's keys, for the same reason.
- PollingControllers.PollingController.DoConnectThenRegister: the address each request parsed and the final state of each future are stated only when no two requests share a session (SessionsApart) or a future (FuturesApart). Otherwise the model says only how each request ended.
- PollingControllers.PollingController.ProcessCancelQueue: states that each cancelled request's future is complete, not the value it holds. CancelOne states the exact value.
- IOHandlerAdapter, NamedRunnable and the interface-only files have no behaviour of their own and are not modelled.

## Findings

| source | as written | input that shows it | evidently intended | confidence | as-written member | corrected member |
|---|---|---|---|---|---|---|
| sonfdroid/src/main/java/com/sonf/polling/AbstractPollingIoProcessor.java:404-414 | writeBuffer returns -1 after an IOException has closed and removed the session (line 437). flushNow adds that -1 to writtenBytes and goes round its loop again while writtenBytes < maxWriteBytes | a READY session whose only packet is a non-empty buffer, maxWriteBytes 65536, and a channel whose write throws IOException: writtenBytes becomes -1, then -2, and the loop continues; it stops only when the total wraps past Integer.MIN_VALUE | a failed write ends the flush | not executed | Processors.FailedWritesSpinAsWritten, Processors.FailedWritesWrapAsWritten, Processors.NextFlushAgreesAsWritten | Processors.NextFlush, Processors.Processor.Settle, Processors.Processor.FlushNow |
| sonfdroid/src/main/java/com/sonf/polling/AbstractPollingIoProcessor.java:566-570 | the failing loop calls getFuture().setException on every failed packet. CLOSE_REQUEST has no future (sonfdroid/src/main/java/com/sonf/core/session/AbstractIOSession.java:76) | a session removed after closeOnFlush queued CLOSE_REQUEST and before a flush took it: clearWriteQueue throws NullPointerException, so the remaining futures are not failed and exceptionCaught is not fired | packets without a future are skipped, and every other failed future is completed | not executed | Processors.FailLoopAsWritten, Processors.CloseRequestBreaksClearAsWritten, Processors.CloseRequestAloneBreaksClearAsWritten | Processors.ClearWriteQueue |
| sonfdroid/src/main/java/com/sonf/filter/ProtocolFilter.java:134-148 | the decode loop runs while the input has bytes remaining; the position saved before each round is never compared | a decoder that returns without consuming the last bytes of an incomplete message: the loop calls it again on the same bytes for ever | the loop stops after a round that consumed nothing | not executed | FilterEvents.DecodeLoopAsWritten, FilterEvents.StalledDecoderSpins | FilterEvents.DecodeLoop, FilterEvents.StalledDecoderStops, FilterEvents.ProgressingLoopsAgree |
| sonfdroid/src/main/java/com/sonf/polling/AbstractPollingIoController.java:384-400 | checkTimeOut walks the selector's keys through ChannelIterator (sonfdroid/src/main/java/com/sonf/nio/NioChannelController.java:296-304), which yields null for a key that is not ready to connect, and skips null | a connect that is still pending at its deadline: its key is valid but not connectable, so it is never timed out or cancelled, however late | every pending connect past its deadline fails with "Connection timed out." and is cancelled | not executed | PollingControllers.PendingConnectNeverTimesOut | PollingControllers.ValidChannelsReachOverdue |
