/** The handshake machine on values, over an abstract Noise IX exchange. */
module HandshakeSpec {
  import opened Options

  // ---- What the machine is built on ----

  type Bytes = seq<nat>
  type PublicKey = nat

  datatype Certificate = Certificate(version: nat, publicKey: PublicKey, details: Bytes)

  /** A certificate and the bytes that stand for it in a handshake. */
  datatype Credential = Credential(cert: Certificate, bytes: Bytes)

  datatype Payload = Payload(cert: Bytes, initiatorIndex: nat, responderIndex: nat, time: nat, certVersion: nat)

  /** What a Noise message carries: nothing, bytes that are no payload, or a payload. */
  datatype Content = Nothing | Malformed | Details(payload: Payload)

  // Noise IX, section 7.5 of the Noise Protocol Framework: the two messages as the parties see them.
  // The second is bound to the first; both parties derive their keys from both messages.

  datatype First = First(ephemeral: nat, staticKey: PublicKey, content: Content)
  datatype Second = Second(first: First, ephemeral: nat, staticKey: PublicKey, content: Content)
  datatype Body = FirstBody(first: First) | SecondBody(second: Second) | Noise

  /** The cipher for one direction of the session that the second message completes. */
  datatype Cipher = Cipher(session: Second, fromInitiator: bool)

  datatype NoiseState = NoiseState(
    initiator: bool, staticKey: PublicKey, ephemeral: nat, index: nat, first: Option<First>, second: Option<Second>)

  datatype Keys = Keys(one: Cipher, two: Cipher)

  datatype Read = Read(hs: NoiseState, content: Content, keys: Option<Keys>)
  datatype Written = Written(hs: NoiseState, body: Body, keys: Option<Keys>)

  function KeysOf(s: Second): Keys {
    Keys(Cipher(s, true), Cipher(s, false))
  }

  /** A message that cannot be read leaves the state as it was. */
  function ReadMessage(hs: NoiseState, body: Body): Option<Read> {
    if !hs.initiator && hs.index == 0 && body.FirstBody? then
      Some(Read(hs.(index := 1, first := Some(body.first)), body.first.content, None))
    else if hs.initiator && hs.index == 1 && body.SecondBody? && hs.first == Some(body.second.first) then
      Some(Read(hs.(index := 2, second := Some(body.second)), body.second.content, Some(KeysOf(body.second))))
    else None
  }

  function WriteMessage(hs: NoiseState, content: Content): Option<Written> {
    if hs.initiator && hs.index == 0 then
      var m := First(hs.ephemeral, hs.staticKey, content);
      Some(Written(hs.(index := 1, first := Some(m)), FirstBody(m), None))
    else if !hs.initiator && hs.index == 1 && hs.first.Some? then
      var m := Second(hs.first.value, hs.ephemeral, hs.staticKey, content);
      Some(Written(hs.(index := 2, second := Some(m)), SecondBody(m), Some(KeysOf(m))))
    else None
  }

  function PeerStatic(hs: NoiseState): PublicKey {
    if hs.initiator then if hs.second.Some? then hs.second.value.staticKey else 0
    else if hs.first.Some? then hs.first.value.staticKey else 0
  }

  // ---- The machine ----

  datatype Packet = TooShort | Packet(subtype: nat, remoteIndex: nat, counter: nat, body: Body)

  datatype Error =
    | MachineFailed | PacketTooShort | SubtypeMismatch | InitiateNotCalled | InitiateOnResponder | InitiateAlreadyCalled
    | ReadFailed | WriteFailed | MissingContent | BadPayload | UnexpectedContent | InvalidRemoteIndex | NoCredential
    | RecombineFailed | PublicKeyMismatch | VerifyFailed | IndexAllocation | IncompleteHandshake

  /** The functions a machine is given. */
  datatype Config = Config(
    getCred: nat -> Option<Credential>,
    recombine: (nat, Bytes, PublicKey) -> Option<Certificate>,
    verify: Certificate -> Option<Certificate>,
    subtype: nat)

  /** The fields of Machine and of its Result that change. */
  datatype Machine = Machine(
    hs: NoiseState, myVersion: nat, indexAllocated: bool, remoteCertSet: bool, payloadSet: bool, failed: bool,
    localIndex: nat, remoteIndex: nat, remoteCert: Option<Certificate>, myCert: Option<Certificate>, handshakeTime: nat)

  /** Result, as handed out when the handshake is complete. */
  datatype Result = Result(
    eKey: Cipher, dKey: Cipher, myCert: Option<Certificate>, remoteCert: Option<Certificate>,
    remoteIndex: nat, localIndex: nat, handshakeTime: nat, messageIndex: nat, initiator: bool)

  /** What the surroundings offer during one call: the index allocIndex would return, and the time. */
  datatype Offer = Offer(index: Option<nat>, time: nat)

  datatype Flags = Flags(expectsPayload: bool, expectsCert: bool)

  const IX: seq<Flags> := [Flags(true, true), Flags(true, true)]

  function FlagsAt(index: int): Flags {
    if 0 <= index < |IX| then IX[index] else Flags(false, false)
  }

  /** NewMachine, for a version there is a credential for. */
  function NewMachine(c: Config, version: nat, initiator: bool, ephemeral: nat): Option<Machine> {
    match c.getCred(version)
    case None => None
    case Some(cred) =>
      Some(Machine(NoiseState(initiator, cred.cert.publicKey, ephemeral, 0, None, None),
                   version, false, false, false, false, 0, 0, None, None, 0))
  }

  function Fail(m: Machine): Machine {
    m.(failed := true)
  }

  function ValidateCert(c: Config, m: Machine, p: Payload): (Machine, Option<Error>) {
    if c.getCred(m.myVersion).None? then (Fail(m), Some(NoCredential))
    else match c.recombine(p.certVersion, p.cert, PeerStatic(m.hs))
      case None => (Fail(m), Some(RecombineFailed))
      case Some(rc) =>
        if rc.publicKey != PeerStatic(m.hs) then (Fail(m), Some(PublicKeyMismatch))
        else
          var m' := if rc.version != m.myVersion && c.getCred(rc.version).Some? then m.(myVersion := rc.version) else m;
          match c.verify(rc)
          case None => (Fail(m'), Some(VerifyFailed))
          case Some(verified) => (m'.(remoteCert := Some(verified), remoteCertSet := true), None)
  }

  function ProcessPayload(c: Config, m: Machine, content: Content, flags: Flags): (Machine, Option<Error>) {
    match content
    case Nothing => if flags.expectsPayload || flags.expectsCert then (Fail(m), Some(MissingContent)) else (m, None)
    case Malformed => (Fail(m), Some(BadPayload))
    case Details(p) =>
      if (p.initiatorIndex != 0 || p.responderIndex != 0 || p.time != 0) != flags.expectsPayload then (Fail(m), Some(UnexpectedContent))
      else if (p.cert != []) != flags.expectsCert then (Fail(m), Some(UnexpectedContent))
      else
        var remoteIndex := if m.hs.initiator then p.responderIndex else p.initiatorIndex;
        if flags.expectsPayload && remoteIndex == 0 then (Fail(m), Some(InvalidRemoteIndex))
        else
          var m' := if flags.expectsPayload then m.(remoteIndex := remoteIndex, handshakeTime := p.time, payloadSet := true) else m;
          if flags.expectsCert then ValidateCert(c, m', p) else (m', None)
  }

  /** Allocates the index if this is the first message to carry one. */
  function WithIndex(m: Machine, offer: Offer): Option<Machine> {
    if m.indexAllocated then Some(m)
    else if offer.index.Some? then Some(m.(localIndex := offer.index.value, indexAllocated := true))
    else None
  }

  function MarshalOutgoing(c: Config, m: Machine, flags: Flags, offer: Offer): (Machine, Content, Option<Error>) {
    if !flags.expectsPayload && !flags.expectsCert then (m, Nothing, None)
    else
      var m1 := if flags.expectsPayload then WithIndex(m, offer) else Some(m);
      if m1.None? then (m, Nothing, Some(IndexAllocation))
      else
        var m' := m1.value;
        var p := if !flags.expectsPayload then Payload([], 0, 0, 0, 0)
                 else if m'.hs.initiator then Payload([], m'.localIndex, 0, offer.time, 0)
                 else Payload([], m'.remoteIndex, m'.localIndex, offer.time, 0);
        if !flags.expectsCert then (m', Details(p), None)
        else match c.getCred(m'.myVersion)
          case None => (m', Nothing, Some(NoCredential))
          case Some(cred) =>
            (m'.(myCert := Some(cred.cert)), Details(p.(cert := cred.bytes, certVersion := cred.cert.version)), None)
  }

  datatype Built = Built(m: Machine, packet: Packet, keys: Option<Keys>, error: Option<Error>)

  function BuildResponse(c: Config, m: Machine, offer: Offer): Built {
    var (m', content, error) := MarshalOutgoing(c, m, FlagsAt(m.hs.index), offer);
    if error.Some? then Built(m', TooShort, None, error)
    else match WriteMessage(m'.hs, content)
      case None => Built(m', TooShort, None, Some(WriteFailed))
      case Some(w) =>
        Built(m'.(hs := w.hs), Packet(c.subtype, m'.remoteIndex, m'.hs.index + 1, w.body), w.keys, None)
  }

  function Completed(m: Machine, eKey: Cipher, dKey: Cipher): Result {
    Result(eKey, dKey, m.myCert, m.remoteCert, m.remoteIndex, m.localIndex, m.handshakeTime, m.hs.index, m.hs.initiator)
  }

  /** What a call gives back. */
  datatype Reply = Reply(m: Machine, out: Option<Packet>, result: Option<Result>, error: Option<Error>)

  function Rejected(m: Machine, e: Error): Reply {
    Reply(m, None, None, Some(e))
  }

  /** Machine.Initiate */
  function Initiate(c: Config, m: Machine, offer: Offer): Reply {
    if m.failed then Rejected(m, MachineFailed)
    else if !m.hs.initiator then Rejected(Fail(m), InitiateOnResponder)
    else if m.hs.index != 0 then Rejected(Fail(m), InitiateAlreadyCalled)
    else
      var b := BuildResponse(c, m, offer);
      if b.error.Some? then Rejected(Fail(b.m), b.error.value) else Reply(b.m, Some(b.packet), None, None)
  }

  function Finish(m: Machine, out: Option<Packet>, eKey: Cipher, dKey: Cipher): Reply {
    if !m.payloadSet || !m.remoteCertSet then Rejected(Fail(m), IncompleteHandshake)
    else Reply(m, out, Some(Completed(m, eKey, dKey)), None)
  }

  function Respond(c: Config, m: Machine, offer: Offer): Reply {
    var b := BuildResponse(c, m, offer);
    if b.error.Some? then Rejected(Fail(b.m), b.error.value)
    else if b.keys.Some? then Finish(b.m, Some(b.packet), b.keys.value.two, b.keys.value.one)
    else Reply(b.m, Some(b.packet), None, None)
  }

  /** Machine.ProcessPacket */
  function ProcessPacket(c: Config, m: Machine, packet: Packet, offer: Offer): Reply {
    if m.failed then Rejected(m, MachineFailed)
    else if packet.TooShort? then Rejected(m, PacketTooShort)
    else if packet.subtype != c.subtype then Rejected(m, SubtypeMismatch)
    else if m.hs.initiator && m.hs.index == 0 then Rejected(Fail(m), InitiateNotCalled)
    else match ReadMessage(m.hs, packet.body)
      case None => Rejected(m, ReadFailed)
      case Some(read) =>
        var (m', error) := ProcessPayload(c, m.(hs := read.hs), read.content, FlagsAt(read.hs.index - 1));
        if error.Some? then Rejected(m', error.value)
        else if read.keys.Some? then Finish(m', None, read.keys.value.one, read.keys.value.two)
        else Respond(c, m', offer)
  }
}
