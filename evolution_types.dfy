/**
 * Record shapes returned by the Evolution API gateway (groups and messages),
 * as declared in evolution_types.py.
 *
 * The source declares every record as a Python TypedDict decoded from JSON.
 * A field typed `X | None` becomes an `Option<X>`; `None` stands for a key
 * that is absent or holds JSON null. No logic inspects most of these shapes:
 * they are carried through the filters unchanged.
 */
module EvolutionTypes {

  datatype Option<T> = None | Some(value: T)

  /** A group as listed by fetchAllGroups. Only `subject` is read by the
      classifier. The TypedDict declares `subject` required, but the
      classifier reads it with a default, so a missing subject is modelled. */
  datatype Group = Group(
    id: string,
    subject: Option<string>,
    subjectOwner: string,
    subjectTime: string,
    pictureUrl: string,
    owner: string,
    participants: Option<seq<string>>,
    description: Option<string>,
    creation: Option<string>,
    restrict: bool)

  /** Identifies a message: the chat it belongs to, its direction and its id. */
  datatype MessageKey = MessageKey(
    remoteJid: string,
    fromMe: bool,
    id: string,
    participant: Option<string>)

  /** The protobuf 64-bit integer the gateway sometimes sends instead of a
      plain number: two 32-bit words and a signedness flag. */
  datatype MessageTimestamp = MessageTimestamp(low: int, high: int, unsigned: bool)

  /** `messageTimestamp: int | MessageTimestamp`: both forms are accepted. */
  datatype Timestamp =
    | PlainTimestamp(seconds: int)
    | LongTimestamp(long: MessageTimestamp)

  datatype DisappearingMode = DisappearingMode(
    initiator: string,
    trigger: string,
    initiatedByMe: Option<bool>)

  datatype ContextInfo = ContextInfo(
    forwardingScore: Option<int>,
    isForwarded: Option<bool>,
    expiration: Option<int>,
    disappearingMode: Option<DisappearingMode>)

  datatype ExtendedTextMessage = ExtendedTextMessage(
    text: string,
    matchedText: Option<string>,
    previewType: Option<string>,
    contextInfo: Option<ContextInfo>,
    inviteLinkGroupTypeV2: Option<string>)

  /** Encryption set-up payload; its `groupId` is the only per-message group
      correlation signal the message filter uses. A present payload always
      carries `groupId`. */
  datatype SenderKeyDistributionMessage = SenderKeyDistributionMessage(
    groupId: string,
    axolotlSenderKeyDistributionMessage: string)

  /** The content union of a message. Two content kinds are modelled; the
      keys of any other kind present in the JSON object (imageMessage,
      stickerMessage, ...) are kept by name in `otherKinds`, so that an
      empty object can be told apart from one holding an unmodelled kind. */
  datatype MessageContent = MessageContent(
    extendedTextMessage: Option<ExtendedTextMessage>,
    senderKeyDistributionMessage: Option<SenderKeyDistributionMessage>,
    otherKinds: seq<string>)
  {
    /** Python truthiness of the decoded object: an empty dict is falsy. */
    predicate IsEmpty() {
      extendedTextMessage.None? && senderKeyDistributionMessage.None? && otherKinds == []
    }
  }

  datatype DeviceListMetadata = DeviceListMetadata(
    senderKeyHash: Option<string>,
    senderTimestamp: Option<string>,
    recipientKeyHash: Option<string>,
    recipientTimestamp: Option<string>)

  datatype MessageContextInfo = MessageContextInfo(
    deviceListMetadata: Option<DeviceListMetadata>,
    deviceListMetadataVersion: Option<int>,
    messageSecret: string)

  /** A message as returned by findMessages. `key` is always present; the
      filter reads `message` defensively, so it may be absent. */
  datatype Message = Message(
    key: MessageKey,
    pushName: string,
    message: Option<MessageContent>,
    contextInfo: Option<ContextInfo>,
    messageType: string,
    messageTimestamp: Timestamp,
    owner: string,
    source: string,
    messageContextInfo: Option<MessageContextInfo>)

  // ---------------------------------------------------------------------
  // The value a timestamp denotes, in either form
  // ---------------------------------------------------------------------

  const TwoTo32: int := 0x1_0000_0000
  const TwoTo31: int := 0x8000_0000

  /** A 32-bit word read as unsigned. */
  function Unsigned32(x: int): (r: int)
    ensures 0 <= r < TwoTo32
    ensures (0 <= x < TwoTo32) == (r == x)
  {
    x % TwoTo32
  }

  /** A 32-bit word read as two's-complement signed. */
  function Signed32(x: int): (r: int)
    ensures -TwoTo31 <= r < TwoTo31
    ensures Unsigned32(r) == Unsigned32(x)
    ensures (-TwoTo31 <= x < TwoTo31) == (r == x)
  {
    var u := Unsigned32(x);
    if u < TwoTo31 then u else u - TwoTo32
  }

  /** The 64-bit integer a `{low, high, unsigned}` record stands for: the
      high word (signed unless `unsigned`) followed by the low word. */
  function LongValue(t: MessageTimestamp): int
  {
    (if t.unsigned then Unsigned32(t.high) else Signed32(t.high)) * TwoTo32 + Unsigned32(t.low)
  }

  /** The instant a timestamp denotes, whichever form it takes. */
  function Instant(t: Timestamp): int
  {
    match t
    case PlainTimestamp(n) => n
    case LongTimestamp(l) => LongValue(l)
  }

  /** Splits a 64-bit integer into the record form, both words stored as
      signed 32-bit values. */
  function ToLong(n: int, unsigned: bool): (t: MessageTimestamp)
    ensures t.unsigned == unsigned
    ensures -TwoTo31 <= t.low < TwoTo31 && -TwoTo31 <= t.high < TwoTo31
  {
    MessageTimestamp(Signed32(n), Signed32(n / TwoTo32), unsigned)
  }

  /** Splitting a 64-bit value into words and reading it back is the identity,
      in the unsigned range and in the signed range alike. */
  lemma LongRoundTrip(n: int, unsigned: bool)
    requires unsigned ==> 0 <= n < TwoTo32 * TwoTo32
    requires !unsigned ==> -TwoTo31 * TwoTo32 <= n < TwoTo31 * TwoTo32
    ensures LongValue(ToLong(n, unsigned)) == n
  {
  }

  /** A plain number and the record with that number as its low word and a
      zero high word denote the same instant, whatever the signedness flag,
      for every value the low word can hold unsigned. */
  lemma PlainAndLongAgree(n: int, unsigned: bool)
    requires 0 <= n < TwoTo32
    ensures Instant(PlainTimestamp(n)) == Instant(LongTimestamp(MessageTimestamp(n, 0, unsigned)))
  {
  }
}
