# Verified model of the Minecraft gateway

A Dafny model of the parts of the gateway whose behaviour is decided by a protocol, a parser or a state
machine, with proofs of what they promise. `dafny verify dfyconfig.toml` checks all of it.

* **Takeover sessions** (`TakeoverSession`, `TakeoverHistory`, `TakeoverGateway`, `TakeoverProgress`,
  `TakeoverOutcome`, `PluginHostServer`). The gateway hands a client connection to a plugin in another process. One
  session has a handler goroutine, any number of `Next`/`Core` calls from any goroutine, wait and complete commands,
  and three channels of capacity one. Every lock region and every channel operation is one step; a session is a value,
  and runs are arbitrary sequences of enabled steps. The gateway half and the control server's table of sessions are
  put on top of it. `TakeoverHistory` and `TakeoverOutcome` read every error off the steps of the whole run.
* **Wire codec and byte streams** (`Words`, `VarInt`, `HandshakePacket`, `ByteStream`). VarInts down to the masks,
  shifts and ors on 64-bit words, packets, the handshake parser and the host rewriter over bytes; then the whole path
  from a WebSocket client, read with any chunking, to an upstream, written with any pattern of short writes.
* **JSONC** (`JsoncComments`, `JsoncCommas`, `JsoncPositions`, `JsoncMeaning`, `JsoncValues`). The two index loops
  against recursive functions, those against a lexer given by position, on every input, and against a printer with
  arbitrary comments and trailing commas, whose tokens determine the value.
* **Extension dispatch** (`StableSort`, `Dispatch`, `FilterChain`, `RouteCache`, `RouteProviders`, `DurationStats`).
  Published handler lists, the handshake filter chain, route resolution with its cache under concurrent calls, and the
  lock-free statistics. Plugin code is an arbitrary function of the request.
* **Admin state** (`AdminAccounts`, `AdminRequests`, `RouteSnapshot`, `TrustStore`). Users and sessions together; the
  route table, its write lock and the published snapshot; the signing trust store.

Code that updates things in place is a class or a loop whose contract names a function on values; the laws are
lemmas about those functions.

## What holds only under a condition

Some promises hold only in part. These are the ones, with the lemmas that say exactly when.

* Short of failing connections a takeover always ends (`LossFreeTakeoverEnds`). In general its session leaves the
  table exactly when the gateway delivered its wait command and, for a continuing
  plugin, its complete command (`TakeoverEnds`). A gateway whose connection dies in between leaves the session, the
  handler and the claimed call stuck for good (`AbandonedSessionLeaks` is such a run).
* An error with an empty text crosses the control connection as no error (`WireKeepsError`).
* `readVarInt(encodeVarInt(v))` is `v` exactly for `v` below 2^31 (`RoundTrip`).
* Replacing a host twice equals replacing it once exactly when the first host has no NUL byte (`PutPut`), and
  replacing the host by itself is the identity exactly on canonically encoded length prefixes (`GetPut`).
* A five-byte length prefix of 2^31 or more is a packet for the buffer parser, after truncation, but not for the
  stream parser (`ParsersAgree`, `OverflowingPrefix`).
* The published provider list depends on map iteration order, and republishing or removing a plugin can reorder it,
  exactly when two plugins register a provider of the same type, priority and name (`PublicationIsDeterministic`,
  `RepublishIsExact`). Handler lists never depend on it.
* A cached provider decision never expires exactly when its time to live is negative (`NeverExpiresExactly`).
* A request that asks for a refresh is answered from the cache exactly when a provider failed and an unexpired entry
  is there (`CacheAnswersExactly`; `RefreshServedFromCache` is such a request).
* Clearing the cache when a plugin is removed keeps the plugin's decisions out exactly when no call in flight had
  already loaded its provider (`RemovedPluginComesBackExactly`).
* A provider may name an override or fallback without an upstream, which the gateway cannot dial (`ProviderDials`).
* After a failed refresh the snapshot lags behind the latest commit until the next publication
  (`SnapshotsFollowCommits`, `FailedRefreshIsRepaired`; `FailedRefreshLags` is such a run). The missed writes show
  exactly when the last one for some host changes its enabled upstream (`MissedWritesShowExactly`).
* The invariant that the users table is empty or has an enabled admin leans on the sessions' invariant
  (`StaleAdminSessionBreaksTable`, `TableBreaksExactly`), but not the other way round (`SessionsKeepThemselves`).

## Model

| member | source | states |
|---|---|---|
| `TakeoverSession.WireKeepsError` | cmd/gateway/plugin_host.go:834-839 | an error survives the trip over the control connection if and only if it is not an error with empty text |
| `TakeoverSession.TakeoverFlow.Claim` | cmd/gateway/plugin_host.go:706-723 | claims the five-state flow exactly when it is available; otherwise reports whether it is used up or expired and changes nothing |
| `TakeoverSession.TakeoverFlow.Release` | cmd/gateway/plugin_host.go:706-757 | the end of a claimed call: a running flow becomes used, also after the handler returned |
| `TakeoverSession.TakeoverFlow.HandlerReturned` | cmd/gateway/plugin_host.go:759-778 | expires an unclaimed flow and reports whether it was used and whether its call still runs |
| `TakeoverSession.SettleAgain` | cmd/gateway/plugin_host.go:759-778 | what handlerReturned reports in each state, and that asking again changes nothing and reports the same |
| `TakeoverSession.StepKeepsInv` | cmd/gateway/plugin_host.go:565-638 | every atomic step of handler, calls and commands keeps the invariant that ties program counters, channel contents, send logs and flow state together |
| `TakeoverSession.ExactlyOnce` | cmd/gateway/plugin_host.go:611-636 | in every interleaving at most one value is sent on action and on done, no send blocks, and exactly one of each was sent once handler and continuation ended, over all error and panic paths |
| `TakeoverSession.OneShot` | cmd/gateway/plugin_host.go:706-778 | at most one call ever claims the flow, and what handlerReturned reports is true of the calls |
| `TakeoverSession.ExpiredStaysExpired` | cmd/gateway/plugin_host.go:759-778 | once the handler returned without a claim, no call of any goroutine claims the flow in any continuation of the run |
| `TakeoverSession.ClaimantStays` | cmd/gateway/plugin_host.go:706-757 | the call that claimed the flow stays its claimant in every continuation of the run |
| `TakeoverSession.MessagesMatch` | cmd/gateway/plugin_host.go:706-815 | the claiming call announces its own kind and state and returns the error of the first complete command; a complete command answers with the handler's final error |
| `TakeoverSession.DelistedAfterHandler` | cmd/gateway/plugin_host.go:780-815 | the session is gone from the table only after its handler finished, through the command that received its final error |
| `TakeoverHistory.HandlerErrorIsReturned` | cmd/gateway/plugin_host.go:611-636 | over every run: a settled handler returned exactly once, with an error err; its final error is err, or else that a continuation outlived it, the latter if and only if err is nil and a claimed call was running at the step in which it settled |
| `TakeoverHistory.CallErrorIsItsOwn` | cmd/gateway/plugin_host.go:706-757 | over every run: the claiming call sends in exactly one step, and it continues if and only if it has a stream and its listener did not fail; otherwise its result is that failure |
| `TakeoverHistory.RefusalIsExact` | cmd/gateway/plugin_host.go:706-778 | a call is told that the flow is used only when a call claimed it, and that it is no longer available only after the handler settled without a claim |
| `TakeoverHistory.UnclaimedAnnouncesReturn` | cmd/gateway/plugin_host.go:611-636 | without a claim the client is told the very error that the handler returned, and that is the final one |
| `TakeoverHistory.CommandsAreAnswered` | cmd/gateway/plugin_host.go:780-815 | a wait command is answered with the action that was sent, with an ending only after the handler finished; a complete command with the returned error or that a continuation outlived the handler |
| `TakeoverGateway.HostStepKeepsSysInv` | internal/pluginmanager/plugin_host_supervisor.go:592-672 | steps of the plugin host keep the joint invariant of host and gateway |
| `TakeoverGateway.GatewayStepKeepsSysInv` | internal/pluginmanager/plugin_host_supervisor.go:592-672 | steps of the gateway, losses of its connections included, keep the joint invariant |
| `TakeoverProgress.BlockedPluginHasSpoken` | cmd/gateway/plugin_host.go:611-636 | a plugin side that cannot go on has sent its action, and waits for the complete command or has reported its end |
| `TakeoverProgress.CommandsFindTheSession` | cmd/gateway/plugin_host.go:780-815 | wait and complete commands of the gateway always find the session in the table |
| `TakeoverProgress.SystemCanStep` | internal/pluginmanager/plugin_host_supervisor.go:592-672 | every reachable state that is not at rest has an enabled step that is neither the gateway giving up nor a failed dial |
| `TakeoverProgress.StepDecreases` | internal/pluginmanager/plugin_host_supervisor.go:592-672 | every step decreases a measure, whoever takes it |
| `TakeoverProgress.RunsAreFinite` | internal/pluginmanager/plugin_host_supervisor.go:592-672 | every interleaving with n calls by the plugin has at most 5n + 21 steps |
| `TakeoverProgress.TakeoverEnds` | cmd/gateway/plugin_host.go:780-815 | once nothing but a failing connection can happen, the gateway is done, and the session has left the table if and only if the gateway delivered the commands the plugin waited for; a gateway that never gave up did |
| `TakeoverProgress.LossFreeTakeoverEnds` | internal/pluginmanager/plugin_host_supervisor.go:592-672 | a run in which the gateway never gives up goes on until handler, calls, commands and gateway are over and the session is out of the table |
| `TakeoverProgress.OnlyGivingUpAbandons` | internal/pluginmanager/plugin_host_supervisor.go:604-671 | only the loss of a connection makes the gateway abandon a session or lose its reply |
| `TakeoverProgress.AbandonedTakeoverIsStuck` | internal/pluginmanager/plugin_host_supervisor.go:622-671 | for a continuing plugin, the claimed call is stuck for good if and only if no complete command was sent |
| `TakeoverProgress.AbandonedSessionLeaks` | internal/pluginmanager/plugin_host_supervisor.go:614-671 | a concrete run after which nothing can step, the handler still runs and the session is still in the table |
| `TakeoverProgress.ErrorsReachTheirOwner` | internal/pluginmanager/plugin_host_supervisor.go:622-671 | the downstream flow runs at most once with the announced kind and state, its error is the claiming call's result, and the gateway returns it or else the handler's |
| `TakeoverOutcome.HostRuns` | internal/pluginmanager/plugin_host_supervisor.go:592-672 | what the plugin host does in a run of host and gateway is a run of its session, with the same handler return |
| `TakeoverOutcome.OutcomeIsDownstreams` | internal/pluginmanager/plugin_host_supervisor.go:622-671 | the error of the downstream part is that of the flow or dial of the run, and every run of the flow is recorded, so by `ErrorsReachTheirOwner` there is at most one |
| `TakeoverOutcome.LossPoints` | internal/pluginmanager/plugin_host_supervisor.go:604-671 | the connection may fail at every point at which the gateway needs it, and which loss it is follows from the commands delivered |
| `TakeoverOutcome.GivingUpReturnsError` | internal/pluginmanager/plugin_host_supervisor.go:604-671 | a gateway that gives up returns the error it gave up with, after a downstream part with an error that error |
| `TakeoverOutcome.GatewayReturns` | internal/pluginmanager/plugin_host_supervisor.go:592-672 | when the handler returned err and nothing was lost, the gateway returns err of a plugin that did not claim, the local failure of a claim that did not continue, and otherwise the downstream error or else err, or that a continuation outlived the handler, each as it crosses the wire |
| `PluginHostServer.LifecycleAgrees` | cmd/gateway/plugin_host.go:438-563 | over every command sequence instance and gateway are both set or both nil, set exactly when enabled or draining |
| `PluginHostServer.LoadedIsLastInit` | cmd/gateway/plugin_host.go:438-563 | a loaded plugin is the one of the last init that found none, no destroy succeeded since, and it drains if and only if a drain came after that init |
| `PluginHostServer.InitLoads` | cmd/gateway/plugin_host.go:438-563 | such an init without a later successful destroy leaves its plugin loaded |
| `PluginHostServer.CommandSucceedsExactly` | cmd/gateway/plugin_host.go:438-563 | which commands are answered with success, and that a failed one changes nothing |
| `PluginHostServer.ControlServer.InitPlugin` | cmd/gateway/plugin_host.go:438-472 | the in-place initialisation is the init transition of the lifecycle and leaves the sessions alone |
| `PluginHostServer.ControlServer.ReloadConfig` | cmd/gateway/plugin_host.go:519-531 | the in-place reload is the reload transition |
| `PluginHostServer.ControlServer.MarkDraining` | cmd/gateway/plugin_host.go:533-543 | the in-place drain is the drain transition |
| `PluginHostServer.ControlServer.DestroyPlugin` | cmd/gateway/plugin_host.go:545-563 | the in-place destruction is the destroy transition and leaves the sessions alone |
| `PluginHostServer.ControlServer.OpenTakeover` | cmd/gateway/plugin_host.go:565-607 | registers the session exactly when the request and the lifecycle allow it and the id is free |
| `PluginHostServer.ControlServer.Forget` | cmd/gateway/plugin_host.go:780-815 | the delete of wait and complete removes one id and nothing else |
| `PluginHostServer.ServerRunKeepsInv` | cmd/gateway/plugin_host.go:565-815 | over every interleaving of many sessions with lifecycle commands, each table entry is a listed session with that id, and each session keeps its own invariant |
| `PluginHostServer.TableFollowsSessions` | cmd/gateway/plugin_host.go:565-815 | in every reachable state an id leaves the table only by a delete of its own session after its handler finished, and enters it only while a plugin is enabled or draining |
| `PluginHostServer.OpensExactly` | cmd/gateway/plugin_host.go:565-607 | in every reachable state a takeover is opened exactly while a plugin with a takeover handler is loaded, under an id no listed session has, with streams at hand |
| `PluginHostServer.SessionsRunAlone` | cmd/gateway/plugin_host.go:565-815 | whatever other sessions and lifecycle commands do, each session of the server is in the state after its own steps and the commands that name its id while it is listed, so what holds of single runs holds of it |
| `PluginHostServer.LifecycleRunsAlone` | cmd/gateway/plugin_host.go:438-563 | the lifecycle is that of its own commands, whatever the sessions do |
| `Words.OrAdds` | protocol/mc.go:157-171 | the or of any two words without a common bit is their sum |
| `Words.SplitGroup` | protocol/mc.go:193-207 | masking the low seven bits and shifting right by seven are remainder and quotient by 128, for every word |
| `VarInt.OrAddsPlace` | protocol/mc.go:163-166 | the masked and shifted group of each of the five bytes meets no bit gathered before, so the or adds it at its place |
| `VarInt.ReadVarIntLoop` | protocol/mc.go:157-171 | the loop of masks, shifts and ors reads what the recursive LEB128 definition reads, with its error cases |
| `VarInt.EncodeVarIntLoop` | protocol/mc.go:193-207 | for every int that is not negative the loop of mask, shift and or writes what the recursive encoding writes |
| `VarInt.LebByPosition` | protocol/mc.go:157-171 | a reading ends with the first byte below 128 and is the sum of the low seven bits of its bytes, each at its place; incomplete when all bytes continue, too long when the limit is reached |
| `VarInt.ReadVarIntByPosition` | protocol/mc.go:157-171 | the value is that sum as a signed number of 32 bits |
| `VarInt.ReadPrefixedByPosition` | protocol/mc.go:145-183 | a packet or string is the length, then exactly that many bytes; a negative length or too few bytes are an error |
| `VarInt.RoundTrip` | protocol/mc.go:157-207 | reading an encoding followed by any bytes gives the number and the encoding's length if and only if it is below 2^31; then at most five bytes |
| `VarInt.ReadVarIntStable` | protocol/mc.go:157-171 | a successful read does not change when bytes are appended, nor when the bytes after it are cut off |
| `VarInt.EncodeIsShortest` | protocol/mc.go:193-207 | no accepted spelling of a number is shorter than its encoding |
| `VarInt.ReadFrame` | protocol/mc.go:145-155 | a framed payload is read back whatever follows it |
| `VarInt.ReadPrefixedStable` | protocol/mc.go:145-183 | reading a packet or a string is stable under appending and under cutting off what follows |
| `VarInt.PacketsRecovered` | protocol/mc.go:145-155 | any list of framed packets followed by an incomplete rest is recovered by repeated reads, and the rest is left over |
| `HandshakePacket.ReplaceIsBuild` | protocol/mc.go:23-63 | replacing the host is taking the packet apart, exchanging the host field up to its NUL suffix, and building it with fresh lengths; nil exactly when it cannot be taken apart |
| `HandshakePacket.ParseIsSplit` | protocol/mc.go:70-114 | the handshake is read off the same decomposition |
| `HandshakePacket.Put` | protocol/mc.go:23-63 | after a replace the decomposition has the new host with the old NUL suffix and the same version, tail and later bytes |
| `HandshakePacket.PutGet` | protocol/mc.go:23-114 | parsing after a replace gives the old version, next state and suffix, and the new host if and only if that has no NUL |
| `HandshakePacket.PutPut` | protocol/mc.go:23-63 | replacing twice equals replacing once with the last host if and only if the first has no NUL |
| `HandshakePacket.GetPut` | protocol/mc.go:23-63 | replacing the host by the current one is the identity if and only if both length prefixes are canonical |
| `HandshakePacket.ParsedHostCanBeReplaced` | protocol/mc.go:23-114 | whatever parses with a host can be rewritten |
| `HandshakePacket.FieldsAreParsed` | protocol/mc.go:70-114 | a packet with id 0, built from version, host, two bytes of port and next state, parses to that version, that host up to its NUL and that next state, whatever follows |
| `HandshakePacket.OtherPacketsAreRefused` | protocol/mc.go:23-114 | an incomplete packet, an empty one and another packet id are neither parsed nor rewritten; a packet that ends before its next state is not parsed |
| `HandshakePacket.HostEndsAtNul` | protocol/mc.go:106-112 | the host ends before the first NUL, and the suffix starts with it |
| `HandshakePacket.StatusResponseReads` | protocol/mc.go:128-143 | the framed status response reads back as packet 0 holding the JSON text, whatever follows |
| `ByteStream.ClientConn.Read` | cmd/gateway/websocket.go:61-86 | each read delivers the next bytes of the concatenated data messages, across message boundaries, and fails only at their end |
| `ByteStream.ReadLengthPrefix` | cmd/gateway/main.go:328-347 | reads the unsigned LEB128 prefix byte by byte and fails exactly when that is incomplete, too long or larger than the buffer |
| `ByteStream.ReadMinecraftPacket` | cmd/gateway/main.go:328-358 | for every chunking: succeeds exactly when the stream starts with a packet that fits, consumes exactly n bytes and stores them |
| `ByteStream.ParsersAgree` | cmd/gateway/main.go:328-358 | the stream parser accepts n bytes if and only if the buffer parser does, the payload is not empty, it fits, and the length is below 2^31 |
| `ByteStream.StoredPacketParses` | protocol/mc.go:145-155 | the stored packet parses to the same payload and consumes all of it |
| `ByteStream.OverflowingPrefix` | protocol/mc.go:145-155 | an input on which the two parsers differ |
| `ByteStream.WriteAll` | cmd/gateway/relay.go:90-106 | for every pattern of short or failing writes the upstream gets a prefix of the data, and all of it on success |
| `ByteStream.ProxyCopy` | cmd/gateway/relay.go:50-76 | the relay forwards a prefix of the client's bytes in order, and all of them when nothing fails |
| `ByteStream.FirstPacketIsSame` | cmd/gateway/main.go:256-259 | the packet that is replayed parses to the client's handshake with the rewritten host before the old NUL suffix, and is a single packet if and only if the client's was |
| `ByteStream.ApplyRewrite` | cmd/gateway/main.go:256-259 | the bytes to replay parse to the client's handshake with the rewritten host, and are the client's own bytes without a rewrite |
| `ByteStream.ConnectsExactly` | cmd/gateway/main.go:192-326 | which clients reach the upstream, from the bytes they sent: those with a host, let pass by the filter and with a route, unless the next state is 1 and a plugin answered |
| `ByteStream.RelayedIsClients` | cmd/gateway/main.go:245-322 | without a rewrite the upstream is to get the bytes of the client; with one, the same handshake for the new host and then every byte after the first packet of the client |
| `ByteStream.MapToHost` | cmd/gateway/main.go:192-326 | for every pattern of writes the upstream has a prefix of the rewritten first packet and the rest of the client's bytes; once connected, what it has and what the client still holds are together exactly those; nothing is sent otherwise: to a client without host, refused or without route, or with next state 1 when a plugin answered, all read off the bytes of the client |
| `ByteStream.Serve` | cmd/gateway/main.go:192-326 | end to end, for every chunking and every pattern of short or failing writes, the upstream received a prefix of the rewritten first packet and every later client byte, and all of them when the copy ends normally; a client with a host, an allowing filter and a route, whose next state is not 1 or is not answered, is relayed completely when no write falls short |
| `JsoncComments.BlankLineComment` | cmd/gateway/plugin_cli_manifest.go:263-274 | the inner loop blanks up to the newline and keeps it |
| `JsoncComments.BlankBlockComment` | cmd/gateway/plugin_cli_manifest.go:275-296 | the inner loop blanks up to the closing pair, keeps CR and LF, and reports an unterminated comment |
| `JsoncComments.StripJSONCComments` | cmd/gateway/plugin_cli_manifest.go:235-304 | the index loop computes the recursive comment pass, errors included |
| `JsoncComments.StripRefinesLexer` | cmd/gateway/plugin_cli_manifest.go:235-304 | fails exactly when the lexer ends in a string or block comment; otherwise keeps the length, every byte outside comments and every CR and LF at its index, and blanks the rest |
| `JsoncComments.StripCommentsIdempotent` | cmd/gateway/plugin_cli_manifest.go:235-304 | stripping what was stripped changes nothing |
| `JsoncCommas.LooksAheadToCloser` | cmd/gateway/plugin_cli_manifest.go:332-340 | the look-ahead finds out whether the next byte that is not white space closes an object or array |
| `JsoncCommas.StripJSONCTrailingCommas` | cmd/gateway/plugin_cli_manifest.go:306-344 | the index loop computes the recursive comma pass |
| `JsoncMeaning.StripsDocument` | cmd/gateway/plugin_cli_manifest.go:227-344 | any tokens printed with comments and white space between them strip to the same tokens with blanks, without the commas before a closer |
| `JsoncMeaning.LexStripped` | cmd/gateway/plugin_cli_manifest.go:227-344 | the stripped text tokenizes to the tokens without trailing commas |
| `JsoncMeaning.StripPreservesMeaning` | cmd/gateway/plugin_cli_manifest.go:227-344 | every JSON value printed with arbitrary comments and trailing commas strips successfully to text with the token sequence of its plain printing |
| `JsoncMeaning.PlainTextIsFixed` | cmd/gateway/plugin_cli_manifest.go:227-344 | plain JSON text is a fixed point |
| `JsoncPositions.StripJSONCByPosition` | cmd/gateway/plugin_cli_manifest.go:227-344 | for every input: refused exactly when the lexer ends inside a string or a block comment, and which; otherwise the masked bytes in order, without exactly the commas in code whose next masked byte that is not white space is a closer |
| `JsoncPositions.StripJSONCErrors` | cmd/gateway/plugin_cli_manifest.go:227-304 | for every input: an unterminated string or comment is reported exactly when the lexer ends inside one, and everything else is accepted |
| `JsoncPositions.OpenCommentIsRefused` | cmd/gateway/plugin_cli_manifest.go:275-296 | a brace followed by an opened comment is refused as an unterminated comment |
| `JsoncValues.ValueDetermined` | cmd/gateway/plugin_cli_manifest.go:227-344 | the tokens of a plain printing determine the value and what follows it |
| `JsoncValues.StripDeterminesValue` | cmd/gateway/plugin_cli_manifest.go:227-344 | two documents with any comments and trailing commas strip to the same tokens if and only if they print the same value |
| `StableSort.StableSortUnique` | internal/pluginmanager/extensions.go:470-496 | any stable sort of a list is the one the model computes, so the library's algorithm does not matter |
| `Dispatch.ExtensionLessStrictTotal` | internal/pluginmanager/extensions.go:856-864 | the handler order is irreflexive, transitive and total on distinct keys |
| `Dispatch.ProvidersTieOnEqualKeys` | internal/pluginmanager/extensions.go:485-493 | the provider order leaves two providers unordered if and only if type, priority and name agree |
| `Dispatch.HandlersNeverTie` | internal/pluginmanager/extensions.go:856-864 | handlers of different plugins never compare equal |
| `Dispatch.PublicationIsDeterministic` | internal/pluginmanager/extensions.go:470-496 | a published list is independent of map iteration order if and only if no two plugins tie; handler lists always are |
| `Dispatch.TiesShow` | internal/pluginmanager/extensions.go:470-496 | for any tie between two plugins, two iteration orders that publish different lists |
| `Dispatch.RepublishIsExact` | internal/pluginmanager/extensions.go:434-505 | every iteration order republishes a selection of plugins unchanged if and only if no two of them tie |
| `Dispatch.PublishedShape` | internal/pluginmanager/extensions.go:470-496 | publishing lists without cross-plugin ties leaves a sorted list without such ties |
| `Dispatch.WithoutPublished` | internal/pluginmanager/extensions.go:498-505 | removing a plugin's entries keeps a list sorted and free of cross-plugin ties, and drops nothing else |
| `Dispatch.PublishCurrent` | internal/pluginmanager/extensions.go:434-496 | publishing the current extensions again changes no list without ties between plugins |
| `Dispatch.PublishRemaining` | internal/pluginmanager/extensions.go:434-505 | removing a plugin yields the old list filtered by plugin id, unless two remaining plugins tie |
| `Dispatch.ExtensionSnapshot.PublishExtensions` | internal/pluginmanager/extensions.go:470-496 | the loop over the map publishes the sorted concatenation, leaving sorted lists |
| `Dispatch.ExtensionSnapshot.CurrentExtensions` | internal/pluginmanager/extensions.go:434-468 | the loops over the snapshot group it by plugin without losing or reordering entries |
| `Dispatch.ExtensionSnapshot.Refresh` | internal/pluginmanager/extensions.go:434-496 | in place, the two together leave every list without cross-plugin ties as it was |
| `Dispatch.ExtensionSnapshot.RemoveExtensions` | internal/pluginmanager/extensions.go:498-505 | in place, the old lists without that plugin, where the remaining plugins do not tie |
| `FilterChain.MiddlewareChain.FilterHandshake` | internal/pluginmanager/extensions.go:387-424 | the loop computes the recursive chain and counts as blocked exactly the handler whose decision stopped it |
| `FilterChain.ChainSplits` | internal/pluginmanager/extensions.go:387-424 | the chain over two lists is the first, and if that does not stop, the second on the rewritten request |
| `FilterChain.OnlyActingHandlersCount` | internal/pluginmanager/extensions.go:387-424 | dropping at once every handler that does not accept, decides nothing or errs under fail-open, and every handler after the one that stops the chain, leaves the result unchanged |
| `FilterChain.InertHandlersDrop` | internal/pluginmanager/extensions.go:387-424 | a handler that does not accept, or errs under fail-open, can be dropped from any place of the list |
| `FilterChain.FirstStopDecides` | internal/pluginmanager/extensions.go:387-424 | the first reject or fail-closed error decides, whatever was rewritten before and whoever follows |
| `FilterChain.HandlersSeeLatestRewrite` | internal/pluginmanager/extensions.go:387-424 | each handler sees the latest rewrite before it, or the client's host |
| `FilterChain.ChainAllows` | internal/pluginmanager/extensions.go:387-424 | the chain allows if and only if nobody stops it, and then answers with the last non-empty rewrite |
| `FilterChain.EffectExactly` | internal/pluginmanager/extensions.go:387-424 | a handler stops the chain exactly when it rejects, or fails and is fail-closed; it rewrites exactly when its decision passes and names a host; what it refuses with |
| `FilterChain.RefusedExactly` | internal/pluginmanager/extensions.go:387-424 | the chain refuses exactly when some handler stops it on the request it sees, with the reason or error of the first that does |
| `RouteCache.Normalize` | internal/pluginmanager/extensions.go:915-932 | a normalized decision has a known action and a time to live that is not zero |
| `RouteCache.Ask` | internal/pluginmanager/extensions.go:214-249 | a decision the provider loop stops at is an override, fallback or reject, never pass |
| `RouteCache.RouteManager.CacheRoute` | internal/pluginmanager/extensions.go:972-979 | stores the entry unless the host is empty or the action is pass |
| `RouteCache.RouteManager.CachedRoute` | internal/pluginmanager/extensions.go:981-993 | finds an unexpired entry, and deletes an expired one |
| `RouteCache.RouteManager.ClearRoutes` | internal/pluginmanager/extensions.go:274-287 | empties the cache |
| `RouteCache.RouteManager.ResolveRoute` | internal/pluginmanager/extensions.go:214-272 | the loop with its cache accesses computes the resolution function and its new cache |
| `RouteProviders.NormalizeExactly` | internal/pluginmanager/extensions.go:915-932 | what a decision becomes: which are a pass, which an override; the plugin id, 60 seconds where it names none, and nothing else changed |
| `RouteProviders.AskByPosition` | internal/pluginmanager/extensions.go:214-249 | d is provided if and only if some provider accepts and answers a decision that is no pass and normalizes to d, and every one before it declines, passes or answers a decision that normalizes to a pass; likewise for an error in accepting or answering; exhausted exactly when all go on |
| `RouteProviders.GoingOnDrops` | internal/pluginmanager/extensions.go:214-272 | a provider that goes on can be dropped from any place without changing answer or cache |
| `RouteProviders.ResolveOutcomes` | internal/pluginmanager/extensions.go:214-272 | what the call returns and stores in each of these cases; entries of other hosts never change |
| `RouteProviders.CachedAnswerCarries` | internal/pluginmanager/extensions.go:948-1000 | what a cached answer keeps of the decision that was stored |
| `RouteProviders.FallbackFillsIn` | internal/pluginmanager/extensions.go:214-222 | the callback fills in an upstream only where the request has none |
| `RouteCache.CacheHoldsLatest` | internal/pluginmanager/extensions.go:972-993 | over every history a host is cached if and only if it has a decision since the last clear that no lookup saw expired, and then with the latest one |
| `RouteCache.HitsExactlyWhileFresh` | internal/pluginmanager/extensions.go:981-993 | with a clock that does not go back, a lookup hits exactly when the latest decision is not expired |
| `RouteCache.EntryLifetime` | internal/pluginmanager/extensions.go:948-970 | from its due time on an entry is expired if and only if its time to live is positive, and before the last second of it it is not |
| `RouteCache.NeverExpiresExactly` | internal/pluginmanager/extensions.go:915-970 | a cached provider decision never expires if and only if its time to live is negative |
| `RouteCache.CacheAnswersExactly` | internal/pluginmanager/extensions.go:214-253 | exactly when a call is answered from the cache; with a refresh, if and only if a provider failed and an unexpired entry is there |
| `RouteCache.RefreshServedFromCache` | internal/pluginmanager/extensions.go:231-239 | a request for a refresh that gets the decision it wanted refreshed |
| `RouteCache.StepKeepsInv` | internal/pluginmanager/extensions.go:214-287 | every lock region of any of the concurrent calls, and every clear, keeps the cache equal to its history and every answer sound |
| `RouteCache.AnswersAreSound` | internal/pluginmanager/extensions.go:214-287 | in every interleaving each answer is an override, fallback or reject; one from the cache carries the action, upstream, provider, reason and metadata of the latest unexpired decision for the host, and a fallback means that there was none or that the request asked for a refresh |
| `RouteCache.AloneIsResolve` | internal/pluginmanager/extensions.go:214-272 | a call that nobody interrupts computes the resolution function |
| `RouteCache.RemovedPluginComesBackExactly` | internal/pluginmanager/extensions.go:214-249 | after a clear the cache can serve a decision of a plugin again if and only if a call in flight had already loaded that plugin's provider |
| `RouteCache.ProviderDials` | internal/pluginmanager/extensions.go:915-932 | a decision that is not a pass is dialled if and only if the provider named an upstream and did not reject |
| `RouteCache.GatewayDecides` | cmd/gateway/main.go:360-399 | in every interleaving the gateway gets an override, fallback or reject; a local decision is dialled at the upstream looked up for the request, and a miss is a reject |
| `RouteProviders.GatewayFallsBack` | cmd/gateway/main.go:360-399 | without a plugin manager, or when it fails, the gateway goes by its own table |
| `DurationStats.Recorder.Record` | internal/pluginmanager/extensions.go:806-816 | one call adds one, adds its duration and raises the maximum if it is larger |
| `DurationStats.StepKeepsInv` | internal/pluginmanager/extensions.go:806-816 | every atomic operation of any call keeps the counters equal to the totals of what was done, and the maximum recorded |
| `DurationStats.NothingIsLost` | internal/pluginmanager/extensions.go:806-816 | in every interleaving, once all calls returned, count, sum and maximum are those of the durations, modulo 2^64 |
| `DurationStats.LostSwapsArePaidFor` | internal/pluginmanager/extensions.go:806-816 | a compare-and-swap fails if and only if the maximum strictly rose since the load; it never falls |
| `DurationStats.RetriesAreBounded` | internal/pluginmanager/extensions.go:806-816 | a call among n loses at most n - 1 swaps |
| `DurationStats.RunsAreFinite` | internal/pluginmanager/extensions.go:806-816 | n calls return after at most n (2n + 2) atomic operations |
| `AdminAccounts.UserRepository.CreateUser` | internal/adminuser/repository.go:51-69 | inserts the trimmed name or reports why not, the duplicate included |
| `AdminAccounts.UserRepository.PatchUser` | internal/adminuser/repository.go:99-164 | patches the row, or refuses the last enabled admin and invalid values without a change, and says whether sessions end |
| `AdminAccounts.UserRepository.DeleteUser` | internal/adminuser/repository.go:166-196 | deletes the row, or refuses the last enabled admin |
| `AdminAccounts.SessionManager.GetSession` | internal/adminsession/session.go:61-75 | finds a live session, and deletes an expired one |
| `AdminAccounts.SessionManager.RemoveUser` | internal/adminsession/session.go:83-93 | the deletion while iterating leaves exactly the sessions of other users, in any order of iteration |
| `AdminAccounts.AdminServer.EnsureInitialAdminFromEnv` | cmd/gateway/admin_users.go:21-33 | creates the admin only with a password and an empty table |
| `AdminAccounts.AdminServer.HandleSetup` | cmd/gateway/admin_auth_handlers.go:24-45 | creates the first admin, named admin by default, only in an empty table |
| `AdminAccounts.AdminServer.HandleLogin` | cmd/gateway/admin_auth_handlers.go:47-71 | the in-place login is the login request of the state machine, whose effect `AdminRequests.LoginExactly` states |
| `AdminAccounts.AdminServer.HandleLogout` | cmd/gateway/admin_auth_handlers.go:73-81 | deletes the session of the token |
| `AdminAccounts.AdminServer.HandleCreate` | cmd/gateway/admin_user_handlers.go:23-41 | creates a user for an admin session |
| `AdminAccounts.AdminServer.HandlePatch` | cmd/gateway/admin_users.go:93-123 | patches for an admin session, then ends the user's sessions where needed |
| `AdminAccounts.AdminServer.HandleDelete` | cmd/gateway/admin_users.go:125-136 | deletes for an admin session, then ends the user's sessions |
| `AdminRequests.LoginExactly` | cmd/gateway/admin_users.go:71-83 | a login succeeds if and only if the user exists, is not disabled and the stored hash accepts the password; then exactly the new token is added, with that name and role and the time to live; otherwise nothing changes |
| `AdminRequests.LogoutExactly` | cmd/gateway/admin_auth_handlers.go:73-81 | a logout succeeds exactly with a session that has not expired, and ends just that |
| `AdminRequests.SetupExactly` | cmd/gateway/admin_auth_handlers.go:24-45 | setup succeeds exactly on an empty table with a valid name and password, and makes the enabled admin with the hash of that password |
| `AdminRequests.EnvInitExactly` | cmd/gateway/admin_users.go:21-33 | the same from the environment, under the name admin |
| `AdminRequests.CreateExactly` | cmd/gateway/admin_user_handlers.go:23-41 | a create succeeds exactly for an admin session that has not expired, with a new valid name, a known role and a password; the row is the requested one with the hash of that password |
| `AdminRequests.PatchExactly` | cmd/gateway/admin_users.go:93-123 | a patch succeeds exactly for such a session and an existing user, unless it takes the last enabled admin; exactly the named fields change |
| `AdminRequests.DeleteExactly` | cmd/gateway/admin_users.go:125-136 | a delete succeeds exactly for such a session and an existing user, unless another enabled admin is missing for an admin |
| `AdminRequests.RolesAreOrdered` | internal/adminuser/user.go:56-72 | a role has its own rights and those of every lower role |
| `AdminRequests.SessionsComeFromLogins` | cmd/gateway/admin_auth_handlers.go:47-71 | over every run: a stored session was made by a login whose password the hash of the user accepted at that time, with the role of that time |
| `AdminRequests.HashesComeFromPasswords` | internal/adminuser/repository.go:51-164 | over every run: a stored hash was made for a setup, create or patch that names the user and has a password |
| `AdminAccounts.RequestKeepsInv` | cmd/gateway/admin_users.go:39-136 | every handler keeps both invariants, and none empties the table |
| `AdminAccounts.RunKeepsInv` | cmd/gateway/admin_users.go:39-136 | over every run each session names an existing enabled user with that role, and the table is empty or has an enabled admin |
| `AdminAccounts.SetupSucceedsAtMostOnce` | cmd/gateway/admin_users.go:21-48 | initial setup succeeds exactly once in a run that fills the empty table and never in any other |
| `AdminAccounts.ChangesNeedAnAdmin` | cmd/gateway/admin_user_handlers.go:23-80 | in every run, whoever changes the table through a session is an enabled admin in the table at that moment |
| `AdminAccounts.GuardIsExact` | internal/adminuser/repository.go:118-132 | a delete, disable or demotion is refused for lack of admins if and only if the account is the only enabled admin |
| `AdminAccounts.ChangesEndSessions` | cmd/gateway/admin_users.go:93-136 | a delete, or a patch that disables, changes the role or sets a password, ends every session of the account; other patches end none |
| `AdminAccounts.SessionsKeepThemselves` | cmd/gateway/admin_users.go:39-136 | every handler keeps the sessions' invariant without any other |
| `AdminAccounts.StaleAdminSessionBreaksTable` | cmd/gateway/admin_user_handlers.go:23-34 | without the sessions' invariant the table's is not kept |
| `AdminAccounts.TableBreaksExactly` | cmd/gateway/admin_user_handlers.go:23-41 | whatever the sessions are, a handler leaves a table without an admin if and only if it creates somebody who is no enabled admin in the empty table |
| `RouteSnapshot.CopyOf` | internal/adminroute/snapshot.go:16-26 | the copy loop makes a new map with the same entries |
| `RouteSnapshot.Snapshot.Store` | internal/adminroute/snapshot.go:16-26 | the snapshot holds a fresh copy, out of reach of later changes of the caller's map |
| `RouteSnapshot.Snapshot.Clone` | internal/adminroute/snapshot.go:28-43 | gives away a fresh copy, or nil before the first store |
| `RouteSnapshot.Snapshot.Lookup` | internal/adminroute/snapshot.go:45-61 | exact host, else the default route |
| `RouteSnapshot.Repository.EnabledMap` | internal/adminroute/repository.go:43-60 | the row loop builds the enabled projection in any row order |
| `RouteSnapshot.Repository.Commit` | internal/adminroute/repository.go:94-142 | an upsert or delete changes exactly its host, or nothing when it is invalid or fails |
| `RouteSnapshot.RouteAdmin.WriteRoute` | cmd/gateway/admin_routes.go:49-70 | returns nil only after commit and publication of the new projection; a failure keeps the old snapshot |
| `RouteSnapshot.FindExactly` | internal/adminroute/snapshot.go:45-61 | a lookup answers with the upstream of the host, else with that of the host named default |
| `RouteSnapshot.WrittenExactly` | internal/adminroute/repository.go:94-142 | a write changes the row of its host and no other |
| `RouteSnapshot.ReturnsExactly` | cmd/gateway/admin_routes.go:49-70 | in every interleaving a writer returns nil exactly when its write is valid and neither its commit nor its read failed |
| `RouteSnapshot.StepKeepsInv` | cmd/gateway/admin_routes.go:49-70 | every lock, commit, read, publish and unlock step of any writer keeps the invariant and only extends the history |
| `RouteSnapshot.SnapshotsFollowCommits` | cmd/gateway/admin_routes.go:21-70 | publications occur in commit order, each of a committed table; with the lock free the snapshot is the one of the latest commit exactly when no refresh failed since, and then equals the projection of the table |
| `RouteSnapshot.WriteShowsExactly` | internal/adminroute/repository.go:43-142 | a write changes the enabled projection if and only if it changes its host's enabled upstream |
| `RouteSnapshot.MissedWritesShowExactly` | cmd/gateway/admin_routes.go:49-70 | whatever list of writes the snapshot has missed, it equals the projection of the table if and only if for every host they name the last of them leaves the enabled upstream that the snapshot has |
| `RouteSnapshot.LagIsMissedWrites` | cmd/gateway/admin_routes.go:21-70 | in every reachable state the snapshot lags by a list of writes of the writers, with that condition on its content |
| `RouteSnapshot.FailedRefreshLags` | cmd/gateway/admin_routes.go:49-58 | a run that ends with the lock free and a committed route that no lookup finds |
| `RouteSnapshot.LookupsAreFresh` | cmd/gateway/admin_routes.go:41-70 | after a write returned nil every later lookup answers from a table state at least that recent |
| `RouteSnapshot.WritesAreSeen` | cmd/gateway/admin_routes.go:41-70 | a write that returned nil is seen by every lookup until another committed write changes its host |
| `RouteSnapshot.FailedRefreshIsRepaired` | cmd/gateway/admin_routes.go:49-70 | a committed write whose refresh failed is covered by the next publication |
| `RouteSnapshot.SomeoneCanStep` | cmd/gateway/admin_routes.go:49-70 | the write lock never blocks for good |
| `TrustStore.SavedKeeps` | cmd/gateway/plugin_cli_toolchain.go:4855-4870 | saving sorts by key id and keeps the keys of each id in their order, so the first match stays the first |
| `TrustStore.TrustStoreFile.Run` | cmd/gateway/plugin_cli_toolchain.go:4618-4767 | the in-place rotate and revoke commands compute the list update, or fail without a change for the stated reason |
| `TrustStore.TrustStoreFile.ActiveKeys` | cmd/gateway/plugin_cli_toolchain.go:4896-4905 | the loop lists the trusted keys in order |
| `TrustStore.TrustStoreFile.SelectKey` | cmd/gateway/plugin_cli_toolchain.go:4881-4894 | the selection, with and without an id |
| `TrustStore.StoreIsPerKey` | cmd/gateway/plugin_cli_toolchain.go:4663-4756 | over every command sequence from any list, the key of an id is what the commands naming that id make of it, whatever the sorting does |
| `TrustStore.StoresStayInOrder` | cmd/gateway/plugin_cli_toolchain.go:4663-4756 | from the empty store ids stay distinct and strictly sorted, and no key ever has an invalid status |
| `TrustStore.RevocationIsFinal` | cmd/gateway/plugin_cli_toolchain.go:4739-4756 | a revoked key keeps everything but the reason, which is that of the last revoke, and is never active or selected on its own again |
| `TrustStore.FirstRevocationCounts` | cmd/gateway/plugin_cli_toolchain.go:4739-4756 | from any stored list, the revoke that finds a key not revoked gives its revocation time, whatever commands follow |
| `TrustStore.SelectionIsUnique` | cmd/gateway/plugin_cli_toolchain.go:4881-4905 | selection without an id succeeds if and only if exactly one position is active, and yields the key there |
| `TrustStore.StatusExactly` | cmd/gateway/plugin_cli_toolchain.go:4907-4933 | a key is trusted exactly when it is not revoked and the time lies in its window, both ends included; which status it has otherwise |
| `TrustStore.EditedKeys` | cmd/gateway/plugin_cli_toolchain.go:4907-4933 | an unknown algorithm or a bound that does not parse is an error, unless the key is revoked or its start already decides |
| `TrustStore.CommandErrorExactly` | cmd/gateway/plugin_cli_toolchain.go:4618-4767 | which commands fail and for what |
| `TrustStore.NormalizedExactly` | cmd/gateway/plugin_cli_toolchain.go:4935-4945 | the stored bound is the instant of the flag without the fraction of its second |
| `TrustStore.RotationTakesEffect` | cmd/gateway/plugin_cli_toolchain.go:4663-4698 | after a rotation the id names the new key in the new window, not revoked; what is kept of an old one; no other key changes |

## Left out

- Sockets, TLS, QUIC, KCP, HAProxy headers, HTTP decoding, audit records, metrics and logging: connections are byte sequences with arbitrary chunking and scripted short or failing writes.
- `FilterConnection`, `EvaluateRule` and `StatusPing`: loops of the same kind as the filter chain that would only add easier members.
- The supervisor's `Start`, `Stop`, `wait` and `Summary`, and the cleanup of orphaned processes: operating system effects.
- The relays of replaced streams in a takeover: they are taken to end once the complete command was delivered or the gateway gave up.
- TakeoverProgress.RunsAreFinite: the plugin makes a finite, arbitrary number of `Next` and `Core` calls, and its handler returns when it is not blocked in one; plugin code that loops forever is not modelled.
- Timeouts and context cancellation in a takeover: a connection may be lost at any step of the gateway, which covers what they do to the session.
- VarInt.EncodeVarIntLoop: does not model a negative argument, for which the source's loop would not end; every caller passes a length or a constant.
- VarInt.ReadVarIntLoop: the final conversions to uint32 and int32 are arithmetic modulo 2^32, not operations on words.
- HandshakePacket.StatusResponseReads: the JSON encoding of the status value is a parameter.
- JSON parsing after the stripper: tokens stand for the meaning; number and literal spelling is not checked.
- Durations and clock readings as unbounded integers: Go's saturation and wrap-around of time values is not modelled; the counters of the statistics do wrap at 2^64.
- RouteCache.AnswersAreSound: metadata maps are values, so sharing of a cached map between callers is not captured.
- bcrypt, SHA-256, base64 and random tokens: unknown functions and arbitrary values; a colliding token would overwrite a session and is allowed.
- AdminAccounts.RunKeepsInv: each admin request is one atomic step; races between separate admin requests are not modelled, nor are SQL errors and timestamps.
- RouteSnapshot.Repository.Commit: a failed transaction leaves the table unchanged; a commit whose outcome is unknown is not modelled. The rules for upstream addresses are an unknown predicate.
- TrustStore.TrustStoreFile.Run: each command is one atomic step on the file; concurrent commands, unreadable files and the printed reports are not modelled. A missing public key flag is reported like one that does not decode.
- Plugin loading, sandboxes, packaging, manifests, feature tables and the other command line tools: foreign calls or long flat case lists.
