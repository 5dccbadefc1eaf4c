/** What holds of a handshake machine whatever it is fed, and of two machines that talk. */
module HandshakeRuns {
  import opened Options
  import opened HandshakeSpec

  datatype Call = Start(offer: Offer) | Incoming(packet: Packet, offer: Offer)

  function Do(c: Config, m: Machine, call: Call): Reply {
    match call
    case Start(offer) => Initiate(c, m, offer)
    case Incoming(packet, offer) => ProcessPacket(c, m, packet, offer)
  }

  /** The machine after a series of calls, whatever they returned. */
  function After(c: Config, m: Machine, calls: seq<Call>): Machine
    decreases |calls|
  {
    if calls == [] then m else Do(c, After(c, m, calls[..|calls| - 1]), calls[|calls| - 1]).m
  }

  // ---- The invariant of a machine that has not failed ----

  ghost predicate Carries(content: Content, initiatorIndex: nat, responderIndex: nat) {
    content.Details? && content.payload.initiatorIndex == initiatorIndex && content.payload.responderIndex == responderIndex
  }

  /** `cert` is what the verifier made of the certificate in this message, which is for the key of its sender. */
  ghost predicate Vouched(c: Config, content: Content, sender: PublicKey, cert: Option<Certificate>) {
    && content.Details? && cert.Some?
    && var rc := c.recombine(content.payload.certVersion, content.payload.cert, sender);
       rc.Some? && rc.value.publicKey == sender && c.verify(rc.value) == cert
  }

  /** `cert` is the certificate of the credential for this version, whose bytes are in this message. */
  ghost predicate Shown(c: Config, content: Content, version: nat, cert: Option<Certificate>) {
    && content.Details? && c.getCred(version).Some?
    && var cred := c.getCred(version).value;
       cert == Some(cred.cert) && content.payload.cert == cred.bytes && content.payload.certVersion == cred.cert.version
  }

  /** The version a side goes on with after the peer's message: the peer's, if it has a credential for that one. */
  ghost predicate Agreed(c: Config, content: Content, sender: PublicKey, version: nat) {
    content.Details?
    && var rc := c.recombine(content.payload.certVersion, content.payload.cert, sender);
       rc.Some? && (c.getCred(rc.value.version).Some? ==> version == rc.value.version)
  }

  function PeerContent(hs: NoiseState): Content {
    if hs.initiator then if hs.second.Some? then hs.second.value.content else Nothing
    else if hs.first.Some? then hs.first.value.content else Nothing
  }

  /** The certificate on record is the verified one of the peer's message, for the key the peer proved to hold, and
      the time on record is the time in that message. */
  ghost predicate CertOk(c: Config, m: Machine) {
    m.remoteCertSet ==>
      Vouched(c, PeerContent(m.hs), PeerStatic(m.hs), m.remoteCert) && m.handshakeTime == PeerContent(m.hs).payload.time
  }

  /** An initiator has sent its own index and certificate in the first message and has the peer's index from the second. */
  ghost predicate InitiatorOk(c: Config, m: Machine) {
    && (m.hs.index == 0 ==> m.hs.first.None? && !m.indexAllocated)
    && (m.hs.index >= 1 ==>
          && m.indexAllocated && m.hs.first.Some? && Carries(m.hs.first.value.content, m.localIndex, 0)
          && m.hs.first.value.staticKey == m.hs.staticKey && m.hs.first.value.ephemeral == m.hs.ephemeral
          && exists version :: Shown(c, m.hs.first.value.content, version, m.myCert))
    && (m.hs.index == 2 ==>
          && m.hs.second.Some? && m.hs.second.value.first == m.hs.first.value && m.payloadSet && m.remoteCertSet
          && m.hs.second.value.content.Details? && m.hs.second.value.content.payload.responderIndex == m.remoteIndex)
  }

  /** A responder has the peer's index from the first message and has sent its own in the second, with the
      certificate of the version agreed on. */
  ghost predicate ResponderOk(c: Config, m: Machine) {
    && m.hs.index != 1
    && (m.hs.index == 0 ==> !m.indexAllocated)
    && (m.hs.index == 2 ==>
          && m.indexAllocated && m.payloadSet && m.remoteCertSet
          && m.hs.first.Some? && m.hs.first.value.content.Details?
          && m.hs.first.value.content.payload.initiatorIndex == m.remoteIndex
          && m.hs.second.Some? && m.hs.second.value.first == m.hs.first.value
          && Carries(m.hs.second.value.content, m.remoteIndex, m.localIndex)
          && m.hs.second.value.staticKey == m.hs.staticKey
          && Shown(c, m.hs.second.value.content, m.myVersion, m.myCert)
          && Agreed(c, m.hs.first.value.content, m.hs.first.value.staticKey, m.myVersion))
  }

  ghost predicate MachineOk(c: Config, m: Machine) {
    && m.hs.index <= 2
    && (m.indexAllocated ==> m.localIndex != 0) && (m.payloadSet ==> m.remoteIndex != 0)
    && (m.hs.index == 0 ==> !m.remoteCertSet && !m.payloadSet)
    && CertOk(c, m)
    && (if m.hs.initiator then InitiatorOk(c, m) && (m.hs.index < 2 ==> !m.remoteCertSet && !m.payloadSet) else ResponderOk(c, m))
  }

  /** allocIndex never returns zero. */
  predicate OfferOk(offer: Offer) {
    offer.index.Some? ==> offer.index.value != 0
  }

  predicate CallOk(call: Call) {
    OfferOk(call.offer)
  }

  /** What a result promises: both keys belong to one session and face the right way; both indexes are those
      exchanged in that session; the peer's certificate is the one in its message, verified and for its static key;
      one's own is the one sent, by the responder in the version agreed on; and the time is the peer's. */
  ghost predicate ResultOk(c: Config, r: Result) {
    var s := r.eKey.session;
    && r.eKey == Cipher(s, r.initiator) && r.dKey == Cipher(s, !r.initiator)
    && s.first.content.Details? && s.content.Details?
    && (if r.initiator then r.localIndex == s.first.content.payload.initiatorIndex && r.remoteIndex == s.content.payload.responderIndex
        else r.remoteIndex == s.first.content.payload.initiatorIndex && r.localIndex == s.content.payload.responderIndex)
    && r.localIndex != 0 && r.remoteIndex != 0 && r.messageIndex == 2
    && (if r.initiator then CertsOk(c, s.first.content, s.content, s.staticKey, r)
        else CertsOk(c, s.content, s.first.content, s.first.staticKey, r)
             && exists version :: Shown(c, s.content, version, r.myCert) && Agreed(c, s.first.content, s.first.staticKey, version))
  }

  ghost predicate CertsOk(c: Config, mine: Content, theirs: Content, peer: PublicKey, r: Result) {
    && Vouched(c, theirs, peer, r.remoteCert) && r.handshakeTime == theirs.payload.time
    && exists version :: Shown(c, mine, version, r.myCert)
  }

  /** A message built with an index at hand shows the certificate that is then on record. */
  lemma MarshalShows(c: Config, m: Machine, offer: Offer)
    ensures var (m', content, error) := MarshalOutgoing(c, m, Flags(true, true), offer);
      error.None? ==>
        && Shown(c, content, m.myVersion, m'.myCert)
        && m' == m.(localIndex := m'.localIndex, indexAllocated := true, myCert := m'.myCert)
        && Carries(content, if m.hs.initiator then m'.localIndex else m.remoteIndex, if m.hs.initiator then 0 else m'.localIndex)
        && (if m.indexAllocated then m'.localIndex == m.localIndex else Some(m'.localIndex) == offer.index)
  {}

  lemma InitiateOk(c: Config, m: Machine, offer: Offer)
    requires MachineOk(c, m) && OfferOk(offer)
    ensures var reply := Initiate(c, m, offer); reply.result.None? && (!reply.m.failed ==> MachineOk(c, reply.m))
  {
    MarshalShows(c, m, offer);
    if !Initiate(c, m, offer).m.failed {
      assert Shown(c, Initiate(c, m, offer).m.hs.first.value.content, m.myVersion, Initiate(c, m, offer).m.myCert);
    }
  }

  lemma ValidateCertOk(c: Config, m: Machine, p: Payload)
    ensures var (m', error) := ValidateCert(c, m, p);
      error.None? ==>
        && m' == m.(myVersion := m'.myVersion, remoteCert := m'.remoteCert, remoteCertSet := true)
        && Vouched(c, Details(p), PeerStatic(m.hs), m'.remoteCert) && Agreed(c, Details(p), PeerStatic(m.hs), m'.myVersion)
  {}

  /** A payload accepted as one of the two messages of the exchange. */
  lemma ProcessPayloadOk(c: Config, m: Machine, content: Content)
    ensures var (m', error) := ProcessPayload(c, m, content, Flags(true, true));
      error.None? ==>
        && content.Details? && m'.hs == m.hs && m'.failed == m.failed
        && m'.indexAllocated == m.indexAllocated && m'.localIndex == m.localIndex && m'.myCert == m.myCert
        && m'.payloadSet && m'.remoteCertSet && m'.remoteIndex != 0
        && m'.remoteIndex == (if m.hs.initiator then content.payload.responderIndex else content.payload.initiatorIndex)
        && m'.handshakeTime == content.payload.time
        && Vouched(c, content, PeerStatic(m.hs), m'.remoteCert) && Agreed(c, content, PeerStatic(m.hs), m'.myVersion)
  {
    if content.Details? {
      var remoteIndex := if m.hs.initiator then content.payload.responderIndex else content.payload.initiatorIndex;
      ValidateCertOk(c, m.(remoteIndex := remoteIndex, handshakeTime := content.payload.time, payloadSet := true), content.payload);
    }
  }

  lemma ProcessOk(c: Config, m: Machine, packet: Packet, offer: Offer)
    requires MachineOk(c, m) && OfferOk(offer)
    ensures var reply := ProcessPacket(c, m, packet, offer);
      && (!reply.m.failed ==> MachineOk(c, reply.m))
      && (reply.result.Some? ==> !reply.m.failed && ResultOk(c, reply.result.value) && reply.error.None?)
  {
    if !m.failed && packet.Packet? && packet.subtype == c.subtype && !(m.hs.initiator && m.hs.index == 0) {
      var read := ReadMessage(m.hs, packet.body);
      if read.Some? {
        if m.hs.initiator {
          SecondReadOk(c, m, packet, offer);
        } else {
          FirstReadOk(c, m, packet, offer);
        }
      }
    }
  }

  /** The initiator reads the second message. */
  lemma SecondReadOk(c: Config, m: Machine, packet: Packet, offer: Offer)
    requires MachineOk(c, m) && OfferOk(offer) && m.hs.initiator && !m.failed && packet.Packet? && packet.subtype == c.subtype && m.hs.index != 0
    requires ReadMessage(m.hs, packet.body).Some?
    ensures var reply := ProcessPacket(c, m, packet, offer);
      && (!reply.m.failed ==> MachineOk(c, reply.m))
      && (reply.result.Some? ==> !reply.m.failed && ResultOk(c, reply.result.value) && reply.error.None?)
  {
    var read := ReadMessage(m.hs, packet.body).value;
    ProcessPayloadOk(c, m.(hs := read.hs), read.content);
    var version :| Shown(c, m.hs.first.value.content, version, m.myCert);
  }

  /** The responder reads the first message and writes the second. */
  lemma FirstReadOk(c: Config, m: Machine, packet: Packet, offer: Offer)
    requires MachineOk(c, m) && OfferOk(offer) && !m.hs.initiator && !m.failed && packet.Packet? && packet.subtype == c.subtype
    requires ReadMessage(m.hs, packet.body).Some?
    ensures var reply := ProcessPacket(c, m, packet, offer);
      && (!reply.m.failed ==> MachineOk(c, reply.m))
      && (reply.result.Some? ==> !reply.m.failed && ResultOk(c, reply.result.value) && reply.error.None?)
  {
    var read := ReadMessage(m.hs, packet.body).value;
    var (m', error) := ProcessPayload(c, m.(hs := read.hs), read.content, Flags(true, true));
    ProcessPayloadOk(c, m.(hs := read.hs), read.content);
    MarshalShows(c, m', offer);
  }

  // ---- Single calls ----

  /** Failure is for good. */
  lemma {:induction false} FailureIsPermanent(c: Config, m: Machine, calls: seq<Call>)
    requires m.failed
    ensures After(c, m, calls) == m
    decreases |calls|
  {
    if calls != [] {
      FailureIsPermanent(c, m, calls[..|calls| - 1]);
    }
  }

  /** A packet that is rejected without failing the machine has not changed it. */
  lemma RejectedLeavesNoTrace(c: Config, m: Machine, packet: Packet, offer: Offer)
    requires ProcessPacket(c, m, packet, offer).error.Some? && !ProcessPacket(c, m, packet, offer).m.failed
    ensures ProcessPacket(c, m, packet, offer).m == m
  {}

  /** A packet is rejected without failing the machine exactly when it is too short, of another subtype, or, once an
      initiator has spoken, not readable; after that every error is fatal. */
  lemma RejectedIff(c: Config, m: Machine, packet: Packet, offer: Offer)
    requires !m.failed
    ensures var reply := ProcessPacket(c, m, packet, offer);
      reply.error.Some? && !reply.m.failed
      <==> || packet.TooShort? || packet.subtype != c.subtype
           || (!(m.hs.initiator && m.hs.index == 0) && ReadMessage(m.hs, packet.body).None?)
  {
    if packet.Packet? && packet.subtype == c.subtype && !(m.hs.initiator && m.hs.index == 0) {
      var read := ReadMessage(m.hs, packet.body);
      if read.Some? {
        PayloadErrorIsFatal(c, m.(hs := read.value.hs), read.value.content, FlagsAt(read.value.hs.index - 1));
      }
    }
  }

  lemma PayloadErrorIsFatal(c: Config, m: Machine, content: Content, flags: Flags)
    requires !m.failed
    ensures var (m', error) := ProcessPayload(c, m, content, flags); error.Some? <==> m'.failed
  {}

  /** A result is handed out exactly when the peer's payload and certificate are in; otherwise the machine fails. */
  lemma FinishIff(m: Machine, out: Option<Packet>, eKey: Cipher, dKey: Cipher)
    requires !m.failed
    ensures var reply := Finish(m, out, eKey, dKey);
      && (reply.result.Some? <==> m.payloadSet && m.remoteCertSet) && (reply.result.None? <==> reply.m.failed)
      && (reply.result.None? ==> reply.error == Some(IncompleteHandshake) && reply.out.None?)
  {}

  /** The first message can be built exactly once, by an initiator that gets an index and has a credential; every other
      call fails the machine. */
  lemma InitiateIff(c: Config, m: Machine, offer: Offer)
    requires MachineOk(c, m) && !m.failed
    ensures var reply := Initiate(c, m, offer);
      && (reply.error.None? <==> m.hs.initiator && m.hs.index == 0 && offer.index.Some? && c.getCred(m.myVersion).Some?)
      && (reply.error.Some? <==> reply.m.failed) && (reply.out.Some? <==> reply.error.None?)
      && (reply.error.None? ==> reply.m.hs.index == 1)
  {}

  /** m' has the index of m, or the one offered if m had none. */
  ghost predicate AtMostOne(m: Machine, m': Machine, offer: Offer) {
    && (m.indexAllocated ==> m'.indexAllocated && m'.localIndex == m.localIndex)
    && (!m.indexAllocated && m'.indexAllocated ==> Some(m'.localIndex) == offer.index)
    && (!m'.indexAllocated ==> m'.localIndex == m.localIndex)
  }

  lemma ReadingAllocatesNone(c: Config, m: Machine, content: Content, flags: Flags)
    ensures var m' := ProcessPayload(c, m, content, flags).0;
      m'.indexAllocated == m.indexAllocated && m'.localIndex == m.localIndex
  {}

  lemma BuildingAllocatesOnce(c: Config, m: Machine, offer: Offer)
    ensures AtMostOne(m, BuildResponse(c, m, offer).m, offer)
  {}

  /** Once allocated, the index stays; a call allocates only if none was allocated before. */
  lemma AllocatesOnce(c: Config, m: Machine, call: Call)
    ensures AtMostOne(m, Do(c, m, call).m, call.offer)
  {
    match call
    case Start(offer) => BuildingAllocatesOnce(c, m, offer);
    case Incoming(packet, offer) =>
      if packet.Packet? && ReadMessage(m.hs, packet.body).Some? {
        var read := ReadMessage(m.hs, packet.body).value;
        ReadingAllocatesNone(c, m.(hs := read.hs), read.content, FlagsAt(read.hs.index - 1));
        BuildingAllocatesOnce(c, ProcessPayload(c, m.(hs := read.hs), read.content, FlagsAt(read.hs.index - 1)).0, offer);
      }
  }

  // ---- Runs of one machine ----

  lemma {:induction false} RunOk(c: Config, m: Machine, calls: seq<Call>)
    requires MachineOk(c, m) && !m.failed && forall call :: call in calls ==> CallOk(call)
    ensures !After(c, m, calls).failed ==> MachineOk(c, After(c, m, calls))
    decreases |calls|
  {
    if calls != [] {
      var before, call := After(c, m, calls[..|calls| - 1]), calls[|calls| - 1];
      RunOk(c, m, calls[..|calls| - 1]);
      assert call in calls && CallOk(call);
      if !before.failed {
        match call
        case Start(offer) => InitiateOk(c, before, offer);
        case Incoming(packet, offer) => ProcessOk(c, before, packet, offer);
      }
    }
  }

  lemma NewIsOk(c: Config, version: nat, initiator: bool, ephemeral: nat)
    requires NewMachine(c, version, initiator, ephemeral).Some?
    ensures var m := NewMachine(c, version, initiator, ephemeral).value; MachineOk(c, m) && !m.failed
  {}

  /** Every result any machine ever hands out keeps its promise. */
  lemma EveryResultIsOk(c: Config, m: Machine, calls: seq<Call>, call: Call)
    requires MachineOk(c, m) && !m.failed && CallOk(call) && forall k :: k in calls ==> CallOk(k)
    requires Do(c, After(c, m, calls), call).result.Some?
    ensures ResultOk(c, Do(c, After(c, m, calls), call).result.value)
  {
    RunOk(c, m, calls);
    match call
    case Start(offer) =>
    case Incoming(packet, offer) => ProcessOk(c, After(c, m, calls), packet, offer);
  }

  /** Over a whole run the index is allocated at most once: two machines met on the way that have
      one have the same one. */
  lemma {:induction false} OneIndexPerRun(c: Config, m: Machine, calls: seq<Call>, n: nat)
    requires n <= |calls| && After(c, m, calls[..n]).indexAllocated
    ensures After(c, m, calls).indexAllocated && After(c, m, calls).localIndex == After(c, m, calls[..n]).localIndex
    decreases |calls|
  {
    if n == |calls| {
      assert calls[..n] == calls;
    } else {
      var before := calls[..|calls| - 1];
      assert before[..n] == calls[..n];
      OneIndexPerRun(c, m, before, n);
      AllocatesOnce(c, After(c, m, before), calls[|calls| - 1]);
    }
  }

  // ---- Two machines ----

  /** If what one end encrypts the other decrypts, they agree on everything: the keys the other way,
      and each knows the other's index as the other does. */
  lemma ResultsCross(c: Config, c': Config, r: Result, r': Result)
    requires ResultOk(c, r) && ResultOk(c', r') && r.initiator && !r'.initiator
    requires r.eKey == r'.dKey || r.dKey == r'.eKey
    ensures r.eKey == r'.dKey && r.dKey == r'.eKey
    ensures r.localIndex == r'.remoteIndex && r.remoteIndex == r'.localIndex
  {}

  /** Packets a machine rejects without failing, one after the other. */
  ghost predicate AllRejected(c: Config, m: Machine, junk: seq<Call>) {
    forall k :: 0 <= k < |junk| ==>
      junk[k].Incoming? && ProcessPacket(c, After(c, m, junk[..k]), junk[k].packet, junk[k].offer).error.Some?
      && !ProcessPacket(c, After(c, m, junk[..k]), junk[k].packet, junk[k].offer).m.failed
  }

  lemma {:induction false} RejectedRun(c: Config, m: Machine, junk: seq<Call>)
    requires AllRejected(c, m, junk)
    ensures After(c, m, junk) == m
    decreases |junk|
  {
    if junk != [] {
      var before, last := junk[..|junk| - 1], |junk| - 1;
      forall k | 0 <= k < |before| ensures junk[..k] == before[..k] && before[k] == junk[k] {}
      RejectedRun(c, m, before);
      assert junk[..last] == before;
      RejectedLeavesNoTrace(c, m, junk[last].packet, junk[last].offer);
    }
  }

  /** The credential one side will show is one the other side can take: it carries a certificate,
      fits the side's static key and passes recombination and verification over there. */
  ghost predicate Acceptable(c: Config, cred: Credential, staticKey: PublicKey) {
    && cred.bytes != [] && cred.cert.publicKey == staticKey
    && c.recombine(cred.cert.version, cred.bytes, staticKey) == Some(cred.cert)
    && c.verify(cred.cert).Some?
  }

  /** The version a responder answers in: the initiator's, if it has a credential for it. */
  function Negotiated(c: Config, version: nat, peer: Certificate): nat {
    if peer.version != version && c.getCred(peer.version).Some? then peer.version else version
  }

  /** Two fresh machines with credentials acceptable to each other, and indexes to give. */
  ghost predicate CanTalk(c: Config, c': Config, m: Machine, m': Machine, version: nat, version': nat, offer: Offer, offer': Offer) {
    && c.subtype == c'.subtype
    && (exists e :: NewMachine(c, version, true, e) == Some(m)) && (exists e :: NewMachine(c', version', false, e) == Some(m'))
    && Acceptable(c', c.getCred(version).value, m.hs.staticKey)
    && (var answer := c'.getCred(Negotiated(c', version', c.getCred(version).value.cert));
        answer.Some? && Acceptable(c, answer.value, m'.hs.staticKey))
    && offer.index.Some? && offer.index.value != 0 && offer'.index.Some? && offer'.index.value != 0
  }

  lemma FirstMessage(c: Config, m: Machine, version: nat, e: nat, offer: Offer)
    requires NewMachine(c, version, true, e) == Some(m) && offer.index.Some?
    ensures var reply := Initiate(c, m, offer);
      var cred := c.getCred(version).value;
      var sent := First(e, m.hs.staticKey, Details(Payload(cred.bytes, offer.index.value, 0, offer.time, cred.cert.version)));
      && reply.error.None? && reply.out == Some(Packet(c.subtype, 0, 1, FirstBody(sent)))
      && reply.m == m.(hs := m.hs.(index := 1, first := Some(sent)), localIndex := offer.index.value,
                       indexAllocated := true, myCert := Some(cred.cert))
  {}

  /** A first message cannot be built exactly when no index is to be had, and then none is taken. */
  lemma InitiateNeedsIndex(c: Config, m: Machine, version: nat, e: nat, offer: Offer)
    requires NewMachine(c, version, true, e) == Some(m)
    ensures Initiate(c, m, offer).error.Some? <==> offer.index.None?
    ensures Initiate(c, m, offer).m.indexAllocated <==> offer.index.Some?
  {
    if offer.index.Some? {
      FirstMessage(c, m, version, e, offer);
    }
  }

  lemma SecondMessage(c: Config, m: Machine, version: nat, e: nat, offer: Offer, packet: Packet, p: Payload, rc: Certificate)
    requires NewMachine(c, version, false, e) == Some(m) && offer.index.Some?
    requires packet.Packet? && packet.subtype == c.subtype && packet.body.FirstBody? && packet.body.first.content == Details(p)
    requires p.initiatorIndex != 0 && p.cert != []
    requires c.recombine(p.certVersion, p.cert, packet.body.first.staticKey) == Some(rc)
    requires rc.publicKey == packet.body.first.staticKey && c.verify(rc).Some?
    requires c.getCred(Negotiated(c, version, rc)).Some?
    ensures var reply := ProcessPacket(c, m, packet, offer);
      var cred := c.getCred(Negotiated(c, version, rc)).value;
      var sent := Second(packet.body.first, e, m.hs.staticKey,
                         Details(Payload(cred.bytes, p.initiatorIndex, offer.index.value, offer.time, cred.cert.version)));
      && reply.error.None? && !reply.m.failed && reply.out == Some(Packet(c.subtype, p.initiatorIndex, 2, SecondBody(sent)))
      && reply.result.Some? && reply.result.value.localIndex == offer.index.value && !reply.result.value.initiator
      && reply.result.value.dKey == Cipher(sent, true) && reply.result.value.remoteCert == c.verify(rc)
      && reply.result.value.myCert == Some(cred.cert) && reply.result.value.handshakeTime == p.time
  {}

  lemma LastStep(c: Config, m: Machine, packet: Packet, p: Payload, rc: Certificate, offer: Offer)
    requires !m.failed && m.hs.initiator && m.hs.index == 1
    requires packet.Packet? && packet.subtype == c.subtype && packet.body.SecondBody? && m.hs.first == Some(packet.body.second.first)
    requires packet.body.second.content == Details(p) && p.responderIndex != 0 && p.cert != []
    requires c.getCred(m.myVersion).Some? && c.recombine(p.certVersion, p.cert, packet.body.second.staticKey) == Some(rc)
    requires rc.publicKey == packet.body.second.staticKey && c.verify(rc).Some?
    ensures var reply := ProcessPacket(c, m, packet, offer);
      && reply.error.None? && !reply.m.failed && reply.result.Some? && reply.result.value.initiator
      && reply.result.value.eKey == Cipher(packet.body.second, true) && reply.result.value.remoteCert == c.verify(rc)
      && reply.result.value.myCert == m.myCert && reply.result.value.handshakeTime == p.time
  {}

  /** The peer's message carries an index for this side and a certificate that passes, for the key it was sent with. */
  ghost predicate Passes(c: Config, content: Content, index: nat, sender: PublicKey) {
    && content.Details? && index != 0 && content.payload.cert != []
    && var rc := c.recombine(content.payload.certVersion, content.payload.cert, sender);
       rc.Some? && rc.value.publicKey == sender && c.verify(rc.value).Some?
  }

  /** A responder completes on a first message exactly when that passes and there is an index to give. */
  lemma ResponderCompletesIff(c: Config, m: Machine, version: nat, e: nat, packet: Packet, offer: Offer)
    requires NewMachine(c, version, false, e) == Some(m) && packet.Packet? && packet.subtype == c.subtype && packet.body.FirstBody?
    ensures var first := packet.body.first;
      ProcessPacket(c, m, packet, offer).result.Some?
      <==> Passes(c, first.content, if first.content.Details? then first.content.payload.initiatorIndex else 0, first.staticKey) && offer.index.Some?
  {
    var first := packet.body.first;
    var m1 := m.(hs := ReadMessage(m.hs, packet.body).value.hs);
    PayloadErrorIsFatal(c, m1, first.content, Flags(true, true));
    PayloadPassesIff(c, m1, first.content, first.staticKey);
  }

  /** An initiator completes on a readable second message exactly when that passes. */
  lemma InitiatorCompletesIff(c: Config, m: Machine, packet: Packet, offer: Offer)
    requires !m.failed && m.hs.initiator && m.hs.index == 1 && c.getCred(m.myVersion).Some?
    requires packet.Packet? && packet.subtype == c.subtype && packet.body.SecondBody? && m.hs.first == Some(packet.body.second.first)
    ensures var second := packet.body.second;
      ProcessPacket(c, m, packet, offer).result.Some?
      <==> Passes(c, second.content, if second.content.Details? then second.content.payload.responderIndex else 0, second.staticKey)
  {
    var second := packet.body.second;
    PayloadPassesIff(c, m.(hs := ReadMessage(m.hs, packet.body).value.hs), second.content, second.staticKey);
  }

  lemma PayloadPassesIff(c: Config, m: Machine, content: Content, sender: PublicKey)
    requires !m.failed && c.getCred(m.myVersion).Some? && PeerStatic(m.hs) == sender
    ensures var (m', error) := ProcessPayload(c, m, content, Flags(true, true));
      var index := if content.Details? then if m.hs.initiator then content.payload.responderIndex else content.payload.initiatorIndex else 0;
      && (error.None? <==> Passes(c, content, index, sender))
      && (error.None? ==> c.getCred(m'.myVersion).Some?)
  {}

  /** Two machines complete the handshake with crossed keys and indexes, each with the other's certificate as
      verified by it, its own in the version they settle on, and the other's time, no matter how many packets they
      reject on the way. */
  lemma HonestExchange(c: Config, c': Config, m: Machine, m': Machine, version: nat, version': nat, offer: Offer, offer': Offer,
                       junk: seq<Call>, junk': seq<Call>)
    requires CanTalk(c, c', m, m', version, version', offer, offer')
    requires AllRejected(c', m', junk') && AllRejected(c, Initiate(c, m, offer).m, junk)
    ensures var first := Initiate(c, m, offer);
      && first.out.Some?
      && var second := ProcessPacket(c', After(c', m', junk'), first.out.value, offer');
      && second.out.Some? && second.result.Some?
      && var last := ProcessPacket(c, After(c, first.m, junk), second.out.value, offer);
      && last.result.Some?
      && var (r, r') := (last.result.value, second.result.value);
      && r.eKey == r'.dKey && r.dKey == r'.eKey && r.localIndex == r'.remoteIndex && r.remoteIndex == r'.localIndex
      && ResultOk(c, r) && ResultOk(c', r')
      && var mine, theirs := c.getCred(version).value, c'.getCred(Negotiated(c', version', c.getCred(version).value.cert)).value;
      && r.myCert == Some(mine.cert) && r'.remoteCert == c'.verify(mine.cert) && r'.handshakeTime == offer.time
      && r'.myCert == Some(theirs.cert) && r.remoteCert == c.verify(theirs.cert) && r.handshakeTime == offer'.time
  {
    var e :| NewMachine(c, version, true, e) == Some(m);
    var e' :| NewMachine(c', version', false, e') == Some(m');
    var cred := c.getCred(version).value;
    NewIsOk(c, version, true, e);
    NewIsOk(c', version', false, e');
    FirstMessage(c, m, version, e, offer);
    InitiateOk(c, m, offer);
    var first := Initiate(c, m, offer);
    var packet := first.out.value;
    RejectedRun(c', m', junk');
    RejectedRun(c, first.m, junk);
    SecondMessage(c', m', version', e', offer', packet, packet.body.first.content.payload, cred.cert);
    ProcessOk(c', m', packet, offer');
    var second := ProcessPacket(c', m', packet, offer');
    var answer := c'.getCred(Negotiated(c', version', cred.cert)).value;
    LastStep(c, first.m, second.out.value, second.out.value.body.second.content.payload, answer.cert, offer);
    ProcessOk(c, first.m, second.out.value, offer);
    ResultsCross(c, c', ProcessPacket(c, first.m, second.out.value, offer).result.value, second.result.value);
  }
}
