/**
 * The loops of the chat program, each consuming a queue one item at a time:
 * the command loop (`run`) that owns broadcasting, the gossip event loop
 * (`message_loop`) that updates the peer directory, and the line reader
 * (`input_loop`) that feeds the command queue. Printed lines are recorded as
 * the kind of notice they are; their wording is not modelled.
 */
module App {
  import opened Wrappers
  import opened Primitives
  import opened Channel
  import opened Commands
  import opened Context

  /** A line sent to the output channel. Peer names are rendered by `friendly_name`, not modelled. */
  datatype Notice =
    | Goodbye
    | Said(from: PublicKey, text: string)
    | Joined(id: PublicKey, name: string)
    | Renamed(id: PublicKey, oldName: string, newName: string)
    | NeighborJoined(id: PublicKey)
    | NeighborLeft(id: PublicKey)
    | MessagesLost

  lemma AppendAssoc<T>(a: seq<T>, b: seq<T>, c: seq<T>)
    ensures a + (b + c) == (a + b) + c
  {
  }

  // ---------------------------------------------------------------------------
  // Command loop (`run`)

  /** What the command loop does: broadcast, start a background task, or print. */
  datatype Effect =
    | Broadcast(data: seq<byte>)
    | SpawnShare(file: string)
    | SpawnDownload(ticket: string, outputFile: Option<string>)
    | Print(notice: Notice)

  /** The effect of one dequeued command other than `Quit`. */
  function CommandEffect(crypto: Ed25519, postcard: Postcard, key: SecretKey, c: Command): Effect
    requires !c.Quit?
  {
    match c
    case Share(file) => SpawnShare(file)
    case Download(ticket, outputFile) => SpawnDownload(ticket, outputFile)
    case Send(m) => Broadcast(SignAndEncode(crypto, postcard, m, key))
  }

  /** The effects of the command loop on a queue: one per command, up to and including the first `Quit`. */
  function RunTrace(crypto: Ed25519, postcard: Postcard, key: SecretKey, cmds: seq<Command>): seq<Effect>
  {
    if cmds == [] then []
    else if cmds[0].Quit? then [Print(Goodbye)]
    else [CommandEffect(crypto, postcard, key, cmds[0])] + RunTrace(crypto, postcard, key, cmds[1..])
  }

  /** The command loop of `run`, over the commands that arrive on its queue. */
  method Run(crypto: Ed25519, postcard: Postcard, key: SecretKey, cmds: seq<Command>) returns (trace: seq<Effect>)
    ensures trace == RunTrace(crypto, postcard, key, cmds)
  {
    trace := [];
    var queue := cmds;
    while queue != []
      invariant RunTrace(crypto, postcard, key, cmds) == trace + RunTrace(crypto, postcard, key, queue)
    {
      var c := queue[0];
      if c.Quit? {
        trace := trace + [Print(Goodbye)];
        break;
      }
      var effect := CommandEffect(crypto, postcard, key, c);
      AppendAssoc(trace, [effect], RunTrace(crypto, postcard, key, queue[1..]));
      trace := trace + [effect];
      queue := queue[1..];
    }
  }

  /** The messages of the `Send` commands before the first `Quit`, in queue order. */
  function Outgoing(cmds: seq<Command>): seq<Message> {
    if cmds == [] || cmds[0].Quit? then []
    else (if cmds[0].Send? then [cmds[0].message] else []) + Outgoing(cmds[1..])
  }

  /** The payloads of the broadcasts in a trace, in order. */
  function Broadcasts(trace: seq<Effect>): seq<seq<byte>> {
    if trace == [] then []
    else (if trace[0].Broadcast? then [trace[0].data] else []) + Broadcasts(trace[1..])
  }

  /**
   * Broadcasts leave in dequeue order: the i-th broadcast is the signed
   * encoding of the i-th `Send` before `Quit`; shares and downloads broadcast
   * nothing from the loop itself.
   */
  lemma {:induction false} BroadcastsInQueueOrder(crypto: Ed25519, postcard: Postcard, key: SecretKey, cmds: seq<Command>)
    ensures var sent := Broadcasts(RunTrace(crypto, postcard, key, cmds));
            var out := Outgoing(cmds);
            |sent| == |out| && forall i | 0 <= i < |out| :: sent[i] == SignAndEncode(crypto, postcard, out[i], key)
  {
    if cmds != [] && !cmds[0].Quit? {
      BroadcastsInQueueOrder(crypto, postcard, key, cmds[1..]);
      var e := CommandEffect(crypto, postcard, key, cmds[0]);
      var rest := RunTrace(crypto, postcard, key, cmds[1..]);
      assert ([e] + rest)[1..] == rest;
      assert Broadcasts(RunTrace(crypto, postcard, key, cmds)) == (if e.Broadcast? then [e.data] else []) + Broadcasts(rest);
    }
  }

  /** Every peer decodes the loop's broadcasts, in order, to the messages that were queued. */
  lemma PeersReceiveInQueueOrder(crypto: Ed25519, postcard: Postcard, key: SecretKey, cmds: seq<Command>, now: u64)
    requires crypto.Correct() && postcard.RoundTrips() && now >= MessageTtl
    requires forall m | m in Outgoing(cmds) :: m.ts >= now - MessageTtl
    ensures var sent := Broadcasts(RunTrace(crypto, postcard, key, cmds));
            var out := Outgoing(cmds);
            |sent| == |out|
            && forall i | 0 <= i < |out| ::
                 WellFormed(postcard, sent[i])
                 && DecodeAndVerify(crypto, postcard, sent[i], now) == Ok((crypto.Public(key), out[i]))
  {
    BroadcastsInQueueOrder(crypto, postcard, key, cmds);
    var out := Outgoing(cmds);
    forall i | 0 <= i < |out|
      ensures WellFormed(postcard, SignAndEncode(crypto, postcard, out[i], key))
      ensures DecodeAndVerify(crypto, postcard, SignAndEncode(crypto, postcard, out[i], key), now)
              == Ok((crypto.Public(key), out[i]))
    {
      SignedMessageVerifies(crypto, postcard, out[i], key, now);
    }
  }

  /** `Quit` prints the farewell and ends the loop: no later command has any effect. */
  lemma {:induction false} QuitEndsRun(crypto: Ed25519, postcard: Postcard, key: SecretKey,
                                       before: seq<Command>, after: seq<Command>)
    requires forall i | 0 <= i < |before| :: !before[i].Quit?
    ensures RunTrace(crypto, postcard, key, before + [Quit] + after)
            == RunTrace(crypto, postcard, key, before) + [Print(Goodbye)]
  {
    if before != [] {
      assert (before + [Quit] + after)[1..] == before[1..] + [Quit] + after;
      QuitEndsRun(crypto, postcard, key, before[1..], after);
    }
  }

  // ---------------------------------------------------------------------------
  // Gossip event loop (`message_loop`)

  datatype Event =
    | Received(content: seq<byte>)
    | NeighborUp(id: PublicKey)
    | NeighborDown(id: PublicKey)
    | Lagged
    | Failed

  /**
   * One item of the gossip stream, with the wall clock when it is handled and
   * the random id a message built while handling it gets.
   */
  datatype Arrival = Arrival(event: Event, now: u64, newId: Uuid)

  /**
   * The received payload holds an envelope and the clock is at least one TTL
   * past the epoch (otherwise `decode_and_verify` panics).
   */
  predicate Decodable(postcard: Postcard, a: Arrival) {
    a.event.Received? ==> WellFormed(postcard, a.event.content) && a.now >= MessageTtl
  }

  /** What an event amounts to once its payload is checked; this does not depend on the directory. */
  datatype Incoming =
    | Dropped
    | Chat(from: PublicKey, text: string)
    | Introduced(from: PublicKey, name: string)
    | Up(id: PublicKey, intro: Message)
    | Down(id: PublicKey)
    | Lost
    | Closed

  /** Checking an event: a payload that fails `decode_and_verify` is dropped, a new neighbour gets an intro. */
  function Classify(crypto: Ed25519, postcard: Postcard, identity: string, a: Arrival): (inc: Incoming)
    requires Decodable(postcard, a)
    ensures inc.Up? ==> inc.intro == Message(Intro(identity), a.newId, a.now)
  {
    match a.event
    case Received(content) =>
      (match DecodeAndVerify(crypto, postcard, content, a.now)
       case Err(_) => Dropped
       case Ok((from, m)) =>
         match m.body
         case Text(text) => Chat(from, text)
         case Intro(name) => Introduced(from, name))
    case NeighborUp(id) => Up(id, Message(Intro(identity), a.newId, a.now))
    case NeighborDown(id) => Down(id)
    case Lagged => Lost
    case Failed => Closed
  }

  /** What handling events did: the directory after, the notices printed, the intros queued. */
  datatype Reaction = Reaction(dir: Directory, notices: seq<Notice>, intros: seq<Message>, stop: bool)

  /** The line printed for an `Intro`, given the name the sender had before. */
  function IntroNotice(from: PublicKey, existing: Option<string>, name: string): seq<Notice> {
    match existing
    case None => [Joined(from, name)]
    case Some(oldName) => if oldName != name then [Renamed(from, oldName, name)] else []
  }

  /** Acting on a checked event: only an intro touches the directory. */
  function Apply(d: Directory, inc: Incoming): Reaction {
    match inc
    case Dropped => Reaction(d, [], [], false)
    case Chat(from, text) => Reaction(d, [Said(from, text)], [], false)
    case Introduced(from, name) => Reaction(d.AddPeer(from, name), IntroNotice(from, d.FindById(from), name), [], false)
    case Up(id, intro) => Reaction(d, [NeighborJoined(id)], [intro], false)
    case Down(id) => Reaction(d, [NeighborLeft(id)], [], false)
    case Lost => Reaction(d, [MessagesLost], [], false)
    case Closed => Reaction(d, [], [], true)
  }

  /** Handling one event. */
  function EventStep(crypto: Ed25519, postcard: Postcard, identity: string, d: Directory, a: Arrival): Reaction
    requires Decodable(postcard, a)
  {
    Apply(d, Classify(crypto, postcard, identity, a))
  }

  /** Handling a stream of events in arrival order, until a failed one. */
  function EventTrace(crypto: Ed25519, postcard: Postcard, identity: string, d: Directory, arrivals: seq<Arrival>)
    : Reaction
    requires forall i | 0 <= i < |arrivals| :: Decodable(postcard, arrivals[i])
    decreases |arrivals|
  {
    if arrivals == [] then Reaction(d, [], [], false)
    else
      var first := EventStep(crypto, postcard, identity, d, arrivals[0]);
      if first.stop then first
      else
        var rest := EventTrace(crypto, postcard, identity, first.dir, arrivals[1..]);
        Reaction(rest.dir, first.notices + rest.notices, first.intros + rest.intros, rest.stop)
  }

  /** The body of `message_loop` for one event, on the shared directory. */
  method HandleEvent(crypto: Ed25519, postcard: Postcard, identity: string, dir: PeersDirectory, a: Arrival)
    returns (notices: seq<Notice>, intros: seq<Message>, stop: bool)
    requires Decodable(postcard, a)
    modifies dir.inner
    ensures Reaction(dir.State(), notices, intros, stop)
            == EventStep(crypto, postcard, identity, old(dir.State()), a)
  {
    notices, intros, stop := [], [], false;
    match a.event
    case Received(content) =>
      var verified := DecodeAndVerify(crypto, postcard, content, a.now);
      if verified.Ok? {
        var (from, m) := verified.value;
        match m.body
        case Text(text) =>
          notices := [Said(from, text)];
        case Intro(name) =>
          var existing := dir.FindById(from);
          dir.AddPeer(from, name);
          notices := IntroNotice(from, existing, name);
      }
    case NeighborUp(id) =>
      notices := [NeighborJoined(id)];
      intros := [Message(Intro(identity), a.newId, a.now)];
    case NeighborDown(id) =>
      notices := [NeighborLeft(id)];
    case Lagged =>
      notices := [MessagesLost];
    case Failed =>
      stop := true;
  }

  /** `message_loop` over the events the gossip stream delivers. */
  method MessageLoop(crypto: Ed25519, postcard: Postcard, identity: string, dir: PeersDirectory, arrivals: seq<Arrival>)
    returns (notices: seq<Notice>, intros: seq<Message>)
    requires forall i | 0 <= i < |arrivals| :: Decodable(postcard, arrivals[i])
    modifies dir.inner
    ensures var r := EventTrace(crypto, postcard, identity, old(dir.State()), arrivals);
            dir.State() == r.dir && notices == r.notices && intros == r.intros
  {
    ghost var total := EventTrace(crypto, postcard, identity, dir.State(), arrivals);
    notices, intros := [], [];
    var queue := arrivals;
    while queue != []
      invariant forall i | 0 <= i < |queue| :: Decodable(postcard, queue[i])
      invariant total.dir == EventTrace(crypto, postcard, identity, dir.State(), queue).dir
      invariant total.notices == notices + EventTrace(crypto, postcard, identity, dir.State(), queue).notices
      invariant total.intros == intros + EventTrace(crypto, postcard, identity, dir.State(), queue).intros
    {
      var n, m, stop := HandleEvent(crypto, postcard, identity, dir, queue[0]);
      if stop {
        notices, intros := notices + n, intros + m;
        break;
      }
      ghost var rest := EventTrace(crypto, postcard, identity, dir.State(), queue[1..]);
      AppendAssoc(notices, n, rest.notices);
      AppendAssoc(intros, m, rest.intros);
      notices, intros := notices + n, intros + m;
      queue := queue[1..];
    }
  }

  /** A payload that fails verification is dropped: no line, no change, the loop goes on. */
  lemma DroppedPayloadIsSilent(crypto: Ed25519, postcard: Postcard, identity: string, d: Directory, a: Arrival)
    requires Decodable(postcard, a) && a.event.Received?
    requires DecodeAndVerify(crypto, postcard, a.event.content, a.now).Err?
    ensures EventStep(crypto, postcard, identity, d, a) == Reaction(d, [], [], false)
  {
  }

  /** Only a verified `Intro` changes the directory. */
  lemma OnlyIntroChangesDirectory(crypto: Ed25519, postcard: Postcard, identity: string, d: Directory, a: Arrival)
    requires Decodable(postcard, a)
    requires EventStep(crypto, postcard, identity, d, a).dir != d
    ensures a.event.Received?
    ensures var v := DecodeAndVerify(crypto, postcard, a.event.content, a.now);
            v.Ok? && v.value.1.body.Intro?
  {
  }

  /**
   * An `Intro` from an unknown sender prints "joined", from a known sender
   * with another name "changed name", with the same name nothing; afterwards
   * the sender maps to the new name.
   */
  lemma IntroReaction(crypto: Ed25519, postcard: Postcard, identity: string, d: Directory, a: Arrival,
                      from: PublicKey, m: Message)
    requires Decodable(postcard, a) && a.event.Received?
    requires DecodeAndVerify(crypto, postcard, a.event.content, a.now) == Ok((from, m))
    requires m.body.Intro?
    ensures var r := EventStep(crypto, postcard, identity, d, a);
            var name := m.body.name;
            && r.dir == d.AddPeer(from, name)
            && r.dir.FindById(from) == Some(name)
            && r.intros == [] && !r.stop
            && (from !in d.peers ==> r.notices == [Joined(from, name)])
            && (from in d.peers && d.peers[from] != name ==> r.notices == [Renamed(from, d.peers[from], name)])
            && (from in d.peers && d.peers[from] == name ==> r.notices == [])
  {
    AddPeerFinds(d, from, m.body.name);
  }

  /** A new neighbour gets one notice and exactly one `Intro` carrying the local identity. */
  lemma NeighborUpIntroduces(crypto: Ed25519, postcard: Postcard, identity: string, d: Directory, a: Arrival)
    requires a.event.NeighborUp?
    ensures var r := EventStep(crypto, postcard, identity, d, a);
            r == Reaction(d, [NeighborJoined(a.event.id)], [Message(Intro(identity), a.newId, a.now)], false)
  {
  }

  /** An `Intro` a peer signed is recorded under the peer's public key. */
  lemma SignedIntroRecorded(crypto: Ed25519, postcard: Postcard, identity: string, d: Directory,
                            key: SecretKey, name: string, id: Uuid, ts: u64, now: u64, newId: Uuid)
    requires crypto.Correct() && postcard.RoundTrips()
    requires now >= MessageTtl && ts >= now - MessageTtl
    ensures var a := Arrival(Received(SignAndEncode(crypto, postcard, Message(Intro(name), id, ts), key)), now, newId);
            Decodable(postcard, a)
            && EventStep(crypto, postcard, identity, d, a).dir.FindById(crypto.Public(key)) == Some(name)
  {
    SignedMessageVerifies(crypto, postcard, Message(Intro(name), id, ts), key, now);
    AddPeerFinds(d, crypto.Public(key), name);
  }

  /** Acting on one checked event keeps the directory invariant and removes nothing. */
  lemma ApplyKeepsValid(d: Directory, inc: Incoming)
    requires d.Valid()
    ensures Apply(d, inc).dir.Valid() && d.RemovedNothingFrom(Apply(d, inc).dir)
  {
    if inc.Introduced? {
      AddPeerKeepsValid(d, inc.from, inc.name);
    }
  }

  /** The event loop keeps the directory invariant and never removes an entry. */
  lemma {:induction false} EventTraceKeepsValid(crypto: Ed25519, postcard: Postcard, identity: string,
                                                d: Directory, arrivals: seq<Arrival>)
    requires forall i | 0 <= i < |arrivals| :: Decodable(postcard, arrivals[i])
    requires d.Valid()
    ensures EventTrace(crypto, postcard, identity, d, arrivals).dir.Valid()
    ensures d.RemovedNothingFrom(EventTrace(crypto, postcard, identity, d, arrivals).dir)
    decreases |arrivals|
  {
    if arrivals != [] {
      var first := EventStep(crypto, postcard, identity, d, arrivals[0]);
      ApplyKeepsValid(d, Classify(crypto, postcard, identity, arrivals[0]));
      if !first.stop {
        EventTraceKeepsValid(crypto, postcard, identity, first.dir, arrivals[1..]);
        RemovedNothingTransitive(d, first.dir, EventTrace(crypto, postcard, identity, first.dir, arrivals[1..]).dir);
      }
    }
  }

  /**
   * Every message the event loop queues is an `Intro` with the local
   * identity, built for one of the new-neighbour events with that event's id
   * and clock.
   */
  lemma {:induction false} QueuedIntrosFromNeighbors(crypto: Ed25519, postcard: Postcard, identity: string,
                                                     d: Directory, arrivals: seq<Arrival>)
    requires forall i | 0 <= i < |arrivals| :: Decodable(postcard, arrivals[i])
    ensures forall m | m in EventTrace(crypto, postcard, identity, d, arrivals).intros ::
              m.body == Intro(identity)
              && exists i | 0 <= i < |arrivals| ::
                   arrivals[i].event.NeighborUp? && m == Message(Intro(identity), arrivals[i].newId, arrivals[i].now)
    decreases |arrivals|
  {
    if arrivals != [] {
      var first := EventStep(crypto, postcard, identity, d, arrivals[0]);
      if !first.stop {
        var rest := EventTrace(crypto, postcard, identity, first.dir, arrivals[1..]);
        QueuedIntrosFromNeighbors(crypto, postcard, identity, first.dir, arrivals[1..]);
        forall m | m in first.intros + rest.intros
          ensures m.body == Intro(identity)
          ensures exists i | 0 <= i < |arrivals| ::
                    arrivals[i].event.NeighborUp? && m == Message(Intro(identity), arrivals[i].newId, arrivals[i].now)
        {
          if m in first.intros {
            assert arrivals[0].event.NeighborUp?;
          } else {
            var j :| 0 <= j < |arrivals[1..]| && arrivals[1..][j].event.NeighborUp?
                     && m == Message(Intro(identity), arrivals[1..][j].newId, arrivals[1..][j].now);
            assert arrivals[j + 1] == arrivals[1..][j];
          }
        }
      }
    }
  }

  // ---------------------------------------------------------------------------
  // Line reader (`input_loop`)

  /** What one read of the line editor gives; a line comes with the id and clock its message would get. */
  datatype ReadResult = Line(text: string, id: Uuid, now: u64) | Interrupted | Eof | ReadFailed

  /** A line printed by the reader itself. */
  datatype Console = InvalidCommand(text: string, error: ParseError) | CtrlC | CtrlD | InputError

  /** What the reader does, in order: print a line of its own, or put a command on the command queue. */
  datatype ReaderAction = Show(line: Console) | Enqueue(cmd: Command)

  /** Rust `char::is_whitespace` (the Unicode White_Space property). */
  predicate IsWhitespace(c: char) {
    || '\U{0009}' <= c <= '\U{000D}' || c == '\U{0020}' || c == '\U{0085}' || c == '\U{00A0}'
    || c == '\U{1680}' || '\U{2000}' <= c <= '\U{200A}' || c == '\U{2028}' || c == '\U{2029}'
    || c == '\U{202F}' || c == '\U{205F}' || c == '\U{3000}'
  }

  /** `str::trim_end`: the longest prefix that does not end in whitespace. */
  function TrimEnd(s: string): (r: string)
    ensures |r| <= |s| && r == s[..|r|]
    ensures r == [] || !IsWhitespace(r[|r| - 1])
    ensures forall i | |r| <= i < |s| :: IsWhitespace(s[i])
  {
    if s == [] || !IsWhitespace(s[|s| - 1]) then s else TrimEnd(s[..|s| - 1])
  }

  /** What the reader does for one read, and whether it stops afterwards. */
  datatype ReadReaction = ReadReaction(actions: seq<ReaderAction>, stop: bool)

  /**
   * The body of `input_loop` for one read: trim, skip a blank line, parse and
   * enqueue or print the error; Ctrl-C, Ctrl-D and a read error quit.
   */
  function ReadStep(r: ReadResult): ReadReaction {
    match r
    case Line(text, id, now) =>
      var line := TrimEnd(text);
      if line == [] then ReadReaction([], false)
      else
        (match Parse(line, id, now)
         case Ok(cmd) => ReadReaction([Enqueue(cmd)], cmd.Quit?)
         case Err(e) => ReadReaction([Show(InvalidCommand(line, e))], false))
    case Interrupted => ReadReaction([Show(CtrlC), Enqueue(Quit)], true)
    case Eof => ReadReaction([Show(CtrlD), Enqueue(Quit)], true)
    case ReadFailed => ReadReaction([Show(InputError), Enqueue(Quit)], true)
  }

  /** What the reader does over a series of reads, up to and including the read that stops it. */
  function InputTrace(results: seq<ReadResult>): seq<ReaderAction> {
    if results == [] then []
    else
      var step := ReadStep(results[0]);
      step.actions + (if step.stop then [] else InputTrace(results[1..]))
  }

  /** `input_loop` over the results of the line editor: print, enqueue, and stop after a `Quit`. */
  method InputLoop(results: seq<ReadResult>) returns (trace: seq<ReaderAction>)
    ensures trace == InputTrace(results)
  {
    trace := [];
    var queue := results;
    while queue != []
      invariant InputTrace(results) == trace + InputTrace(queue)
    {
      var step := ReadStep(queue[0]);
      if step.stop {
        trace := trace + step.actions;
        break;
      }
      AppendAssoc(trace, step.actions, InputTrace(queue[1..]));
      trace := trace + step.actions;
      queue := queue[1..];
    }
  }

  /**
   * A read stops the reader exactly when it enqueues `Quit`, and then `Quit`
   * is its last action; blank lines do nothing and unparsable ones only print.
   */
  lemma ReadStepQuitIffStop(r: ReadResult)
    ensures var step := ReadStep(r);
            && (step.stop <==> Enqueue(Quit) in step.actions)
            && (step.stop ==> step.actions[|step.actions| - 1] == Enqueue(Quit))
            && forall i | 0 <= i < |step.actions| - 1 :: step.actions[i] != Enqueue(Quit)
    ensures r.Line? && TrimEnd(r.text) == [] ==> ReadStep(r) == ReadReaction([], false)
    ensures r.Line? && TrimEnd(r.text) != [] && Parse(TrimEnd(r.text), r.id, r.now).Err? ==>
              ReadStep(r) == ReadReaction([Show(InvalidCommand(TrimEnd(r.text), Parse(TrimEnd(r.text), r.id, r.now).error))], false)
  {
  }

  /** The reader enqueues `Quit` at most once, as its very last action. */
  lemma {:induction false} QuitIsLast(results: seq<ReadResult>)
    ensures forall i | 0 <= i < |InputTrace(results)| - 1 :: InputTrace(results)[i] != Enqueue(Quit)
  {
    if results != [] {
      var step := ReadStep(results[0]);
      ReadStepQuitIffStop(results[0]);
      if !step.stop {
        QuitIsLast(results[1..]);
        var rest := InputTrace(results[1..]);
        var trace := InputTrace(results);
        assert trace == step.actions + rest;
        forall i | 0 <= i < |trace| - 1 ensures trace[i] != Enqueue(Quit) {
          if i >= |step.actions| {
            assert trace[i] == rest[i - |step.actions|];
          } else {
            assert trace[i] in step.actions;
          }
        }
      }
    }
  }

  /** The read that stops the reader is its last: nothing read after it has any effect. */
  lemma {:induction false} ReaderStopsAtQuit(before: seq<ReadResult>, r: ReadResult, after: seq<ReadResult>)
    requires forall i | 0 <= i < |before| :: !ReadStep(before[i]).stop
    requires ReadStep(r).stop
    ensures InputTrace(before + [r] + after) == InputTrace(before) + ReadStep(r).actions
  {
    var all := before + [r] + after;
    if before == [] {
      assert all[0] == r;
    } else {
      assert all[0] == before[0] && all[1..] == before[1..] + [r] + after;
      ReaderStopsAtQuit(before[1..], r, after);
      AppendAssoc(ReadStep(before[0]).actions, InputTrace(before[1..]), ReadStep(r).actions);
    }
  }

  /** A read that enqueues a command other than `Quit` is a non-blank line that parses to it. */
  lemma ReadStepEnqueues(r: ReadResult, c: Command)
    requires Enqueue(c) in ReadStep(r).actions
    ensures c == Quit || (r.Line? && TrimEnd(r.text) != [] && Parse(TrimEnd(r.text), r.id, r.now) == Ok(c))
  {
  }

  /** Every command the reader enqueues is the parse of a non-blank trimmed line, or the `Quit` of a stop. */
  lemma {:induction false} EnqueuedCommandsComeFromLines(results: seq<ReadResult>)
    ensures forall c | Enqueue(c) in InputTrace(results) ::
              c == Quit || exists r | r in results && r.Line? ::
                TrimEnd(r.text) != [] && Parse(TrimEnd(r.text), r.id, r.now) == Ok(c)
  {
    if results != [] {
      var step := ReadStep(results[0]);
      if !step.stop {
        EnqueuedCommandsComeFromLines(results[1..]);
      }
      forall c | Enqueue(c) in InputTrace(results)
        ensures c == Quit || exists r | r in results && r.Line? ::
                  TrimEnd(r.text) != [] && Parse(TrimEnd(r.text), r.id, r.now) == Ok(c)
      {
        if Enqueue(c) in step.actions {
          ReadStepEnqueues(results[0], c);
        } else {
          assert Enqueue(c) in InputTrace(results[1..]);
          assert forall r | r in results[1..] :: r in results;
        }
      }
    }
  }

  // ---------------------------------------------------------------------------
  // Download target (`download_ticket`)

  /** `Path::join` on a Unix path: an absolute part replaces the base, else a separator is added if needed. */
  function JoinPath(base: string, part: string): string {
    if |part| > 0 && part[0] == '/' then part
    else if base == [] || base[|base| - 1] == '/' then base + part
    else base + "/" + part
  }

  /** Where a download is written: the explicit file, or `<data dir>/downloads/<hash>`. */
  function DownloadTarget(dataDir: string, hash: string, outputFile: Option<string>): string {
    match outputFile
    case Some(path) => path
    case None => JoinPath(JoinPath(dataDir, "downloads"), hash)
  }

  /**
   * Without an output file the content goes to `downloads/<hash>` under the
   * data directory, provided the hash's text is not an absolute path.
   */
  lemma DefaultDownloadTarget(dataDir: string, hash: string)
    requires hash == [] || hash[0] != '/'
    ensures dataDir != [] && dataDir[|dataDir| - 1] != '/' ==>
              DownloadTarget(dataDir, hash, None) == dataDir + "/downloads/" + hash
    ensures dataDir != [] && dataDir[|dataDir| - 1] == '/' ==>
              DownloadTarget(dataDir, hash, None) == dataDir + "downloads/" + hash
    ensures dataDir == [] ==> DownloadTarget(dataDir, hash, None) == "downloads/" + hash
    ensures forall p :: DownloadTarget(dataDir, hash, Some(p)) == p
  {
  }
}
