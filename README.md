# send-file chat core, in Dafny

This project models the sequential core of `send-file`, a peer-to-peer chat
and file-sharing tool. Peers join a gossip topic using a *ticket*. They
broadcast signed chat messages and introduce themselves by display name.
They share files by publishing blob tickets.

The model covers four parts of the program:

- **The command language** (`command.rs`). A line starting with `#` is a
  command: `#share`/`#s`, `#download`/`#d` or `#quit`/`#q`. Any other line is a
  chat message. Module `Commands`.
- **The wire formats** (`channel.rs`). The join ticket is the postcard
  serialization of a topic and its endpoints, written as lower-case unpadded
  base32 (section 6 of RFC 4648). The message envelope carries the sender's
  key, the serialized message and an Ed25519 signature. It is accepted only if
  the signature verifies and the message is at most one hour old. Modules
  `Channel` and `Base32`; the base32 codec is modelled concretely, bit by bit.
- **The peer directory** (`context.rs`). Two maps, identity to name and name
  to identity, updated in place. Module `Context`, with a value-level
  `Directory` and the classes `PeersDirectoryInner` and `PeersDirectory`.
- **The three loops of `main.rs`** (module `App`). Each consumes its queue one
  item at a time:
  - the command loop of `run` signs and broadcasts messages, starts share and
    download tasks, and stops on `Quit`;
  - `message_loop` checks gossip events, updates the directory and prints
    notices;
  - `input_loop` trims and parses editor lines and enqueues commands.

  Each loop is a `while` method. It is proved equal to a recursive trace
  function, and the program's promises are proved as lemmas about that
  function. The default download path of `download_ticket` is a plain
  function.

The postcard serializer and the Ed25519 scheme are library code. Each is a
value holding functions (`Serde<T>`, `Ed25519`), so every operation is defined
for any serializer and any signature scheme. The facts the program relies on
are predicates that only the lemmas require:

- `RoundTrips`: deserializing what was serialized gives the value back;
- `Correct`: a signature made with a key verifies under its public key.

The random message id and the wall clock are parameters.

`main.rs:264-266` uses the result of `add_peer` as the peer's previous name,
but `context.rs:68-71` returns nothing. The model follows `context.rs`: the
event step reads the previous name with `find_by_id` before calling
`add_peer`.

## Model

| member | source | states |
|---|---|---|
| Commands.SplitOnce | src/command.rs:23-24 | `splitn(2, ' ')`: the head has no space; without a rest the head is the whole text; with one, the text is head, one space, rest |
| Commands.SplitOnceAt | src/command.rs:23-24 | the split is unique: it happens at the first space, or there is no rest when there is no space |
| Commands.Parse | src/command.rs:21-48 | only `#`-prefixed input can fail; any other input parses to a chat message whose text is exactly the input |
| Commands.ParseShare | src/command.rs:25-30 | `#share X` and `#s X` give `Share(X)`, X being everything after the first space |
| Commands.ParseMissingPart | src/command.rs:25-32 | `#share`, `#s`, `#download`, `#d` with no space after them fail with "Missing part" |
| Commands.ParseDownload | src/command.rs:31-40 | `#download T` / `#d T` give ticket T and no output file |
| Commands.ParseDownloadTo | src/command.rs:31-40 | `#download T P` gives ticket T and output file P, the rest after the second split |
| Commands.ParseQuit | src/command.rs:42 | `#quit` and `#q` quit whatever follows the first space |
| Commands.ParseUnknown | src/command.rs:43 | any other `#` first word (`#Share`, `#sharex`) fails as an unknown command naming that word |
| Commands.ParsedShareShape | src/command.rs:25-30 | conversely, a parsed share is exactly `#share X` or `#s X` |
| Commands.ParsedDownloadShape | src/command.rs:31-40 | conversely, a parsed download is exactly `#download T` or `#download T P` (or `#d`), with no space in T |
| Commands.ParseShareExample | src/command.rs:25-30 | `#share foo.txt` shares `foo.txt` |
| Commands.ParseDownloadExample | src/command.rs:31-40 | `#download XYZ` downloads `XYZ` to the default place |
| Commands.ParseTextExample | src/command.rs:45-46 | `hello world` is a chat message with that text |
| Commands.ParseUnknownExample | src/command.rs:43 | `#nonsense` is an unknown command |
| Commands.ParseEmptyArgumentExamples | src/command.rs:23-40 | `#share ` and `#download ` are not errors: they give an empty file / ticket |
| Primitives.AsciiUpper | src/channel.rs:39 | `char::to_ascii_uppercase`: `a`-`z` move up by 32 to `A`-`Z`; every other character is unchanged |
| Primitives.AsciiLower | src/channel.rs:31 | `char::to_ascii_lowercase`: `A`-`Z` move down by 32 to `a`-`z`; every other character is unchanged |
| Primitives.UpperString | src/channel.rs:39 | `to_ascii_uppercase`: same length, each character upper-cased in ASCII only |
| Primitives.LowerString | src/channel.rs:31 | `make_ascii_lowercase`: same length, each character lower-cased in ASCII only |
| Base32.Encode | src/channel.rs:30 | the unpadded encoding of n bytes has ceil(8n/5) characters, all in the alphabet |
| Base32.Decode | src/channel.rs:39 | a successful decode of a text of length L gives floor(5L/8) bytes |
| Base32.EncodedLength | src/channel.rs:30 | the length of an n-byte encoding is a valid length and decodes back to n bytes |
| Base32.DecodeEncode | src/channel.rs:30-39 | decoding an encoding gives back the bytes |
| Base32.EncodeDecode | src/channel.rs:30-39 | every text that decodes is the encoding of what it decodes to (the codec is canonical) |
| Base32.ForeignCharRejected | src/channel.rs:39 | a character outside `A`-`Z`, `2`-`7` makes decoding fail |
| Base32.EncodeF | src/channel.rs:30-39 | the known answer of section 10 of RFC 4648: `f` encodes to `MY`, and `MY` decodes to `f` |
| Base32.EncodeFo | src/channel.rs:30-39 | the known answer of section 10 of RFC 4648: `fo` encodes to `MZXQ`, and back |
| Base32.DecodeMzRejected | src/channel.rs:39 | `MZ` has a valid length and alphabet but non-zero filler bits, and is refused |
| Channel.TicketFromBytes | src/channel.rs:14-19 | succeeds exactly when the deserializer accepts the bytes, with its value |
| Channel.TicketToString | src/channel.rs:27-34 | defined by its body (base32 of the serialized ticket, lower-cased); properties in TicketTextShape, UpperTicketText and TicketRoundTrip |
| Channel.TicketFromStr | src/channel.rs:36-42 | a text parses only if its upper-cased form is valid base32 |
| Channel.TicketTextShape | src/channel.rs:27-34 | a ticket's text has only `a`-`z` and `2`-`7`, ceil(8n/5) of them for n serialized bytes |
| Channel.UpperTicketText | src/channel.rs:29-31 | upper-casing a ticket's text gives back the base32 text |
| Channel.TicketCaseInsensitive | src/channel.rs:36-42 | any upper/lower-case variant of a ticket's text parses to that ticket |
| Channel.TicketRoundTrip | src/channel.rs:14-42 | parsing the text of a ticket gives back the ticket, given the serializer's round trip |
| Channel.TicketForeignCharRejected | src/channel.rs:39 | a character outside the alphabet after upper-casing makes parsing fail |
| Channel.TicketTextCanonical | src/channel.rs:36-42 | every text that parses is, up to case, the base32 of bytes that deserialize to the parsed ticket |
| Channel.Seal | src/channel.rs:75-82 | defined by its body (public key, serialized message, signature over it); properties in SealOpens |
| Channel.SignAndEncode | src/channel.rs:75-84 | defined by its body (the serialized envelope); properties in SignAndEncodeOpens and SignedMessageVerifies |
| Channel.SealOpens | src/channel.rs:75-84 | the envelope names the signer's public key, its signature verifies, its payload deserializes to the message |
| Channel.SignAndEncodeOpens | src/channel.rs:83 | the bytes produced deserialize to that envelope |
| Channel.DecodeAndVerify | src/channel.rs:107-121 | an accepted envelope has a valid signature under its embedded key, the result is that key and the deserialized payload, and the message is at most one TTL old |
| Channel.SignedMessageVerifies | src/channel.rs:75-121 | a freshly signed message decodes to its signer and itself while `ts >= now - TTL` |
| Channel.BadSignatureRefusedFirst | src/channel.rs:112-116 | a bad signature is refused whatever the payload deserializer and the clock say |
| Channel.ExpiryBoundary | src/channel.rs:107-120 | a verified message is refused as expired exactly when `ts < now - 3 600 000`; the boundary and later are accepted |
| Context.Directory.AddPeer | src/context.rs:68-71 | defined by its body (both maps overwritten); properties in AddPeerFinds, AddPeerKeepsValid and AddPeerIdempotent |
| Context.Directory.FindById | src/context.rs:73-75 | defined by its body (the stored name, if any); properties in AddPeerFinds and EmptyFindsNothing |
| Context.Directory.FindByName | src/context.rs:77-79 | defined by its body (the indexed identity, if any); properties in AddPeerFinds and NameCollisionLastWriteWins |
| Context.EmptyFindsNothing | src/context.rs:60-66 | a new directory finds no identity and no name, and satisfies the invariant |
| Context.AddPeerFinds | src/context.rs:68-79 | after `add_peer(k, n)` k finds n and n finds k; every other identity and name keeps its binding |
| Context.AddPeerKeepsValid | src/context.rs:55-71 | `add_peer` keeps "every stored name is indexed, every indexed identity is known" and removes nothing |
| Context.AddPeerIdempotent | src/context.rs:68-71 | adding the same binding twice equals adding it once |
| Context.RemovedNothingTransitive | src/context.rs:68-71 | entries only accumulate across any number of steps |
| Context.RenameKeepsStaleName | src/context.rs:68-71 | after a rename the old name still finds the identity |
| Context.NameCollisionLastWriteWins | src/context.rs:69-70 | two identities with one name: the name finds the later one, the earlier keeps its name |
| Context.PeersDirectoryInner.constructor | src/context.rs:61-66 | starts with both maps empty |
| Context.PeersDirectoryInner.AddPeer | src/context.rs:68-71 | the new state is the old one with both bindings overwritten; keeps the invariant, removes nothing |
| Context.PeersDirectoryInner.FindById | src/context.rs:73-75 | finds a name exactly for a stored identity, and it is the stored name |
| Context.PeersDirectoryInner.FindByName | src/context.rs:77-79 | finds an identity exactly for an indexed name, and it is the indexed one |
| Context.PeersDirectory.constructor | src/context.rs:32-36 | a fresh inner directory, empty |
| Context.PeersDirectory.AddPeer | src/context.rs:38-40 | only delegates: the state changes as the inner `add_peer` says |
| Context.PeersDirectory.FindById | src/context.rs:42-48 | returns exactly what the inner lookup finds |
| Context.PeersDirectory.FindByName | src/context.rs:50-52 | returns exactly what the inner lookup finds |
| App.CommandEffect | src/main.rs:177-202 | defined by its body (a share or download starts a task, a message is signed and broadcast); properties in BroadcastsInQueueOrder |
| App.RunTrace | src/main.rs:176-207 | defined by its body (one effect per command up to the first `Quit`, which prints the farewell); properties in BroadcastsInQueueOrder and QuitEndsRun |
| App.Run | src/main.rs:176-208 | the command loop produces exactly the trace of the queue: one effect per command up to the first `Quit`, which prints the farewell |
| App.BroadcastsInQueueOrder | src/main.rs:176-202 | the i-th broadcast is the signed encoding of the i-th message command before `Quit`; shares and downloads broadcast nothing |
| App.PeersReceiveInQueueOrder | src/main.rs:199-202 | every peer decodes the broadcasts, in order, to the queued messages, signed by the local key |
| App.QuitEndsRun | src/main.rs:203-206 | `Quit` prints the farewell and nothing after it has any effect |
| App.Classify | src/main.rs:282-286 | a new neighbour gets an intro with the local identity, the event's id and clock |
| App.IntroNotice | src/main.rs:263-278 | defined by its body (joined, renamed or nothing, by the previous name); properties in IntroReaction |
| App.Apply | src/main.rs:258-293 | defined by its body (only an intro touches the directory); properties in ApplyKeepsValid, OnlyIntroChangesDirectory and IntroReaction |
| App.EventStep | src/main.rs:248-294 | defined by its body (check the event, then act on it); properties in DroppedPayloadIsSilent, NeighborUpIntroduces and SignedIntroRecorded |
| App.EventTrace | src/main.rs:245-297 | defined by its body (the events in order, up to a failed one); properties in EventTraceKeepsValid and QueuedIntrosFromNeighbors |
| App.HandleEvent | src/main.rs:248-294 | one gossip event changes the directory and prints and queues exactly what the event step says |
| App.MessageLoop | src/main.rs:245-297 | over the event stream, the directory, the notices and the queued intros are those of the event trace, up to a failed event |
| App.DroppedPayloadIsSilent | src/main.rs:251-257 | a payload that fails verification sends nothing to the output channel, changes nothing, and the loop goes on |
| App.OnlyIntroChangesDirectory | src/main.rs:258-293 | only a verified `Intro` changes the directory; chat messages, departures and lag do not |
| App.IntroReaction | src/main.rs:263-278 | an intro from an unknown sender prints "joined", from a known one with another name "changed name", with the same name nothing; the sender then maps to the new name |
| App.NeighborUpIntroduces | src/main.rs:282-286 | a new neighbour gives one notice and exactly one intro carrying the local identity |
| App.SignedIntroRecorded | src/main.rs:251-264 | an intro a peer signed is recorded under that peer's public key |
| App.ApplyKeepsValid | src/main.rs:258-293 | one checked event keeps the directory invariant and removes nothing |
| App.EventTraceKeepsValid | src/main.rs:245-297 | the event loop keeps the directory invariant and never removes an entry |
| App.QueuedIntrosFromNeighbors | src/main.rs:282-286 | every message the event loop queues is an intro with the local identity, made for a new-neighbour event with its id and clock |
| App.TrimEnd | src/main.rs:322 | `trim_end`: the longest prefix not ending in whitespace; only whitespace is cut |
| App.ReadStep | src/main.rs:318-352 | defined by its body (trim, skip a blank line, parse and enqueue or print; Ctrl-C, Ctrl-D and a read error quit); properties in ReadStepQuitIffStop and ReadStepEnqueues |
| App.InputTrace | src/main.rs:317-353 | defined by its body (the reads in order, up to the one that stops the reader); properties in QuitIsLast, ReaderStopsAtQuit and EnqueuedCommandsComeFromLines |
| App.InputLoop | src/main.rs:317-353 | over the editor's results, the reader's actions are those of the input trace, up to the read that stops it |
| App.ReadStepQuitIffStop | src/main.rs:320-351 | a read stops the reader exactly when it enqueues `Quit`, which is then its last action; blank lines do nothing; unparsable lines only print |
| App.QuitIsLast | src/main.rs:326-351 | `Quit` is enqueued at most once, as the reader's very last action |
| App.ReaderStopsAtQuit | src/main.rs:329-351 | nothing read after the stopping read has any effect |
| App.ReadStepEnqueues | src/main.rs:320-336 | a read that enqueues a command other than `Quit` is a non-blank line that parses to it |
| App.EnqueuedCommandsComeFromLines | src/main.rs:317-353 | every enqueued command is the parse of a non-blank trimmed line, or the `Quit` of a stop |
| App.JoinPath | src/main.rs:125-130 | defined by its body (Unix `Path::join`: an absolute part replaces the base); properties in DefaultDownloadTarget |
| App.DownloadTarget | src/main.rs:125-130 | defined by its body (the explicit file, or `<data dir>/downloads/<hash>`); properties in DefaultDownloadTarget |
| App.DefaultDownloadTarget | src/main.rs:125-130 | without an output file the content goes to `<data dir>/downloads/<hash>`, with one separator whether or not the data directory ends in `/`; with one, there |

## Left out

- Postcard encoding internals and the byte layouts of `TopicId` and `EndpointAddr` are not modelled. The serializer is an arbitrary `Serde<T>`, and the round trip is a lemma precondition.
- Ed25519 is an arbitrary sign/verify pair, with correctness as a lemma precondition. Tamper resistance (no forgery) is not modelled.
- Key, signature and topic sizes (32/64 bytes) are not enforced. Keys are byte sequences.
- `uuid::Uuid::new_v4` and `now()` are parameters: the id and clock of each message, event or line. The `u64` conversion panic of `now()` is not modelled.
- Channel.DecodeAndVerify requires that the bytes hold an envelope. The source unwraps the outer deserialization (`channel.rs:110`), so malformed bytes panic the task rather than returning an error. The source also requires `now >= MESSAGE_TTL`, because `now() - MESSAGE_TTL` is unsigned and would underflow.
- All I/O and library setup is left out: `load_topic`, `load_identity`, `init_store`, `init_endpoint`, the ticket-file write, and printing the ticket in `start_chat`. The intro that `start_chat` broadcasts is not part of the command-loop trace.
- The gossip, blobs, router and downloader calls are left out, as is `share_file`. Of `download_ticket`, only the choice of output path is modelled (`main.rs:125-130`); the download and export are not.
- `download_ticket` first parses the ticket as an iroh-blobs `BlobTicket` (`main.rs:124`). Its format and its parse error are not modelled: the hash is a parameter. The text of `Hash` is not modelled either; DefaultDownloadTarget only needs it not to start with `/`.
- `std::path::absolute` (`main.rs:131`) is not modelled: the path is not made absolute against the working directory, and its error is not modelled.
- The `error!("Failed to decode message: …")` log line that `message_loop` writes through `tracing` when a payload fails verification (`main.rs:254`) is not modelled. The model records only lines sent to the output channel. `run` records shares and downloads as spawned tasks, and their results are not modelled.
- Tokio tasks, channel capacities and backpressure, the `RwLock` and its poisoning, the rustyline editor and history, the printer thread (`output_loop`), and clap argument parsing are left out. Each loop is one sequential method, and the loops are not interleaved.
- `friendly_name`, `Context::print`, `send_message` and `input_sender` are not defined in `context.rs`, so they are not part of this model. Printed lines are recorded as the kind of notice they are, with the raw identity and names. Their wording is not modelled.
- `message_loop` ends at the first stream error (`event?`); all stream errors are one `Failed` event. The errors returned by `sender.broadcast`, `sign_and_encode` and `blocking_send` are not modelled: serializing and sending are assumed to succeed.
- `run`'s `router.shutdown()` after the loop is left out.
- The loops do not return how many items they consumed. That the rest of the queue is untouched is stated by QuitEndsRun and ReaderStopsAtQuit.
- The inner "Missing part" of the download case (`command.rs:37`) is unreachable, because `splitn` always yields a first part; the model has no branch for it.
- `add_peer` returns nothing, as `context.rs:68-71` writes it. `main.rs:264-266` uses a returned previous name; the model reads that name with `find_by_id` first.
- The ASCII case conversions of tickets work on `char`. The model does not capture that Rust operates on UTF-8 bytes, which gives the same result for these conversions.
