/**
 * The wire formats of the chat: the join ticket (a topic and bootstrap
 * endpoints, written as lower-case unpadded base32 of its serialization) and
 * the signed message envelope with its one-hour freshness window.
 */
module Channel {
  import opened Wrappers
  import opened Primitives
  import Base32

  /** 32-byte gossip topic identifier. */
  datatype TopicId = TopicId(bytes: seq<byte>)

  /** Address of an endpoint: its identity and the transport's own address data. */
  datatype EndpointAddr = EndpointAddr(id: PublicKey, info: seq<byte>)

  datatype Ticket = Ticket(topic: TopicId, endpoints: seq<EndpointAddr>)

  datatype MessageBody = Intro(name: string) | Text(text: string)

  /**
   * A chat message. `Message::new_intro` and `Message::new_message` build one
   * with a fresh random id and the wall clock in milliseconds; here both are
   * arguments of the constructor.
   */
  datatype Message = Message(body: MessageBody, id: Uuid, ts: u64)

  datatype MessageEnvelope = MessageEnvelope(from: PublicKey, data: seq<byte>, signature: Signature)

  /** The postcard serializer, for each type the core sends. */
  datatype Postcard = Postcard(
    ticket: Serde<Ticket>,
    message: Serde<Message>,
    envelope: Serde<MessageEnvelope>)
  {
    ghost predicate RoundTrips() {
      ticket.RoundTrips() && message.RoundTrips() && envelope.RoundTrips()
    }
  }

  datatype TicketError = BadBase32(cause: Base32.DecodeError) | MalformedTicket

  datatype VerifyError = InvalidSignature | MalformedMessage | Expired

  /** Maximum age of an accepted message: one hour, in milliseconds. */
  const MessageTtl: u64 := 60 * 60 * 1000

  // ---------------------------------------------------------------------------
  // Ticket

  /** `Ticket::try_from(&[u8])`. */
  function TicketFromBytes(postcard: Postcard, data: seq<byte>): (r: Result<Ticket, TicketError>)
    ensures r.Ok? <==> postcard.ticket.Deserialize(data).Some?
    ensures r.Ok? ==> r.value == postcard.ticket.Deserialize(data).value
  {
    match postcard.ticket.Deserialize(data)
    case None => Err(MalformedTicket)
    case Some(t) => Ok(t)
  }

  /** `Display for Ticket`: base32 of the serialized ticket, lower-cased. */
  function TicketToString(postcard: Postcard, t: Ticket): string {
    LowerString(Base32.Encode(postcard.ticket.Serialize(t)))
  }

  /** `FromStr for Ticket`: upper-case, base32-decode, deserialize. */
  function TicketFromStr(postcard: Postcard, s: string): (r: Result<Ticket, TicketError>)
    ensures r.Ok? ==> Base32.Decode(UpperString(s)).Ok?
  {
    match Base32.Decode(UpperString(s))
    case Err(e) => Err(BadBase32(e))
    case Ok(data) => TicketFromBytes(postcard, data)
  }

  /** A character that can appear in a ticket's text. */
  predicate IsTicketChar(c: char) {
    'a' <= c <= 'z' || '2' <= c <= '7'
  }

  /** A ticket's text has only `a`-`z` and `2`-`7`, ceil(8n/5) of them for n serialized bytes. */
  lemma TicketTextShape(postcard: Postcard, t: Ticket)
    ensures var text := TicketToString(postcard, t);
            |text| == (8 * |postcard.ticket.Serialize(t)| + 4) / 5
            && forall i | 0 <= i < |text| :: IsTicketChar(text[i])
  {
  }

  /** Upper-casing a ticket's text gives back the base32 text. */
  lemma UpperTicketText(postcard: Postcard, t: Ticket)
    ensures UpperString(TicketToString(postcard, t)) == Base32.Encode(postcard.ticket.Serialize(t))
  {
    var enc := Base32.Encode(postcard.ticket.Serialize(t));
    var up := UpperString(TicketToString(postcard, t));
    forall i | 0 <= i < |enc| ensures up[i] == enc[i] {
      assert Base32.IsSymbolChar(enc[i]);
    }
  }

  /** Any upper/lower-case variant of a ticket's text parses to the ticket. */
  lemma TicketCaseInsensitive(postcard: Postcard, t: Ticket, s: string)
    requires postcard.ticket.RoundTrips()
    requires UpperString(s) == UpperString(TicketToString(postcard, t))
    ensures TicketFromStr(postcard, s) == Ok(t)
  {
    var data := postcard.ticket.Serialize(t);
    UpperTicketText(postcard, t);
    Base32.DecodeEncode(data);
  }

  /** Parsing the text of a ticket gives back the ticket. */
  lemma TicketRoundTrip(postcard: Postcard, t: Ticket)
    requires postcard.ticket.RoundTrips()
    ensures TicketFromStr(postcard, TicketToString(postcard, t)) == Ok(t)
  {
    TicketCaseInsensitive(postcard, t, TicketToString(postcard, t));
  }

  /** A character outside the base32 alphabet (after upper-casing) makes parsing fail. */
  lemma TicketForeignCharRejected(postcard: Postcard, s: string, i: nat)
    requires i < |s| && !Base32.IsSymbolChar(AsciiUpper(s[i]))
    ensures TicketFromStr(postcard, s).Err?
  {
    Base32.ForeignCharRejected(UpperString(s), i);
  }

  /** Every text that parses is, up to case, the text of a ticket the deserializer accepts. */
  lemma TicketTextCanonical(postcard: Postcard, s: string)
    requires TicketFromStr(postcard, s).Ok?
    ensures exists data :: postcard.ticket.Deserialize(data) == Some(TicketFromStr(postcard, s).value)
                           && UpperString(s) == Base32.Encode(data)
  {
    var data := Base32.Decode(UpperString(s)).value;
    Base32.EncodeDecode(UpperString(s));
    assert postcard.ticket.Deserialize(data) == Some(TicketFromStr(postcard, s).value);
  }

  // ---------------------------------------------------------------------------
  // Envelope

  /** The envelope `sign_and_encode` builds before serializing it. */
  function Seal(crypto: Ed25519, postcard: Postcard, m: Message, key: SecretKey): MessageEnvelope {
    var data := postcard.message.Serialize(m);
    MessageEnvelope(crypto.Public(key), data, crypto.Sign(key, data))
  }

  /** `Message::sign_and_encode`. */
  function SignAndEncode(crypto: Ed25519, postcard: Postcard, m: Message, key: SecretKey): seq<byte> {
    postcard.envelope.Serialize(Seal(crypto, postcard, m, key))
  }

  /**
   * A sealed envelope names the signer's public key, its signature verifies
   * under that key, and its payload deserializes to the message.
   */
  lemma SealOpens(crypto: Ed25519, postcard: Postcard, m: Message, key: SecretKey)
    requires crypto.Correct() && postcard.message.RoundTrips()
    ensures var env := Seal(crypto, postcard, m, key);
            && env.from == crypto.Public(key)
            && crypto.Verify(env.from, env.data, env.signature)
            && postcard.message.Deserialize(env.data) == Some(m)
  {
  }

  /** The bytes `sign_and_encode` produces deserialize to the sealed envelope. */
  lemma SignAndEncodeOpens(crypto: Ed25519, postcard: Postcard, m: Message, key: SecretKey)
    requires postcard.envelope.RoundTrips()
    ensures postcard.envelope.Deserialize(SignAndEncode(crypto, postcard, m, key)) == Some(Seal(crypto, postcard, m, key))
  {
  }

  /** The bytes hold an envelope (otherwise `decode_and_verify` panics). */
  predicate WellFormed(postcard: Postcard, wire: seq<byte>) {
    postcard.envelope.Deserialize(wire).Some?
  }

  /**
   * `MessageEnvelope::decode_and_verify`, at wall-clock time `now` (ms): check
   * the signature under the embedded key, then deserialize the payload, then
   * refuse a message older than `MessageTtl`.
   */
  function DecodeAndVerify(crypto: Ed25519, postcard: Postcard, wire: seq<byte>, now: u64)
    : (r: Result<(PublicKey, Message), VerifyError>)
    requires WellFormed(postcard, wire)
    requires now >= MessageTtl
    ensures var env := postcard.envelope.Deserialize(wire).value;
            r.Ok? ==> && crypto.Verify(env.from, env.data, env.signature)
                      && r.value.0 == env.from
                      && postcard.message.Deserialize(env.data) == Some(r.value.1)
                      && r.value.1.ts + MessageTtl >= now
  {
    var env := postcard.envelope.Deserialize(wire).value;
    if !crypto.Verify(env.from, env.data, env.signature) then Err(InvalidSignature)
    else match postcard.message.Deserialize(env.data)
      case None => Err(MalformedMessage)
      case Some(m) =>
        if m.ts < now - MessageTtl then Err(Expired) else Ok((env.from, m))
  }

  /** A freshly signed message decodes to its signer and itself while it is younger than the TTL. */
  lemma SignedMessageVerifies(crypto: Ed25519, postcard: Postcard, m: Message, key: SecretKey, now: u64)
    requires crypto.Correct() && postcard.RoundTrips()
    requires now >= MessageTtl && m.ts >= now - MessageTtl
    ensures WellFormed(postcard, SignAndEncode(crypto, postcard, m, key))
    ensures DecodeAndVerify(crypto, postcard, SignAndEncode(crypto, postcard, m, key), now)
            == Ok((crypto.Public(key), m))
  {
    SealOpens(crypto, postcard, m, key);
    SignAndEncodeOpens(crypto, postcard, m, key);
  }

  /**
   * A signature that does not verify is refused before anything else: the
   * result is the same whatever the payload deserializer and the clock say.
   */
  lemma BadSignatureRefusedFirst(crypto: Ed25519, postcard: Postcard, other: Serde<Message>,
                                 wire: seq<byte>, now: u64, later: u64)
    requires WellFormed(postcard, wire) && now >= MessageTtl && later >= MessageTtl
    requires var env := postcard.envelope.Deserialize(wire).value;
             !crypto.Verify(env.from, env.data, env.signature)
    ensures DecodeAndVerify(crypto, postcard, wire, now) == Err(InvalidSignature)
    ensures DecodeAndVerify(crypto, Postcard(postcard.ticket, other, postcard.envelope), wire, later)
            == Err(InvalidSignature)
  {
  }

  /**
   * Expiry boundary: a verified message with timestamp `ts` is refused as
   * expired exactly when `ts < now - MessageTtl`; `ts == now - MessageTtl`
   * and any later or future timestamp is accepted.
   */
  lemma ExpiryBoundary(crypto: Ed25519, postcard: Postcard, wire: seq<byte>, now: u64, m: Message)
    requires WellFormed(postcard, wire) && now >= MessageTtl
    requires var env := postcard.envelope.Deserialize(wire).value;
             crypto.Verify(env.from, env.data, env.signature)
             && postcard.message.Deserialize(env.data) == Some(m)
    ensures m.ts < now - MessageTtl ==> DecodeAndVerify(crypto, postcard, wire, now) == Err(Expired)
    ensures m.ts >= now - MessageTtl ==> DecodeAndVerify(crypto, postcard, wire, now)
                                         == Ok((postcard.envelope.Deserialize(wire).value.from, m))
  {
  }
}
