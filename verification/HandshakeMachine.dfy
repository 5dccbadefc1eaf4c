/** handshake/machine.go: the machine as its fields are set while messages pass. */
module HandshakeMachine {
  import opened Options
  import Spec = HandshakeSpec
  import opened HandshakeSpec
  import Runs = HandshakeRuns

  class Machine {
    const config: Config
    var hs: NoiseState
    var myVersion: nat
    var indexAllocated: bool
    var remoteCertSet: bool
    var payloadSet: bool
    var failed: bool
    // The fields of the result.
    var localIndex: nat
    var remoteIndex: nat
    var remoteCert: Option<Certificate>
    var myCert: Option<Certificate>
    var handshakeTime: nat

    /** NewMachine, once a credential for the version has been found. */
    constructor (config: Config, version: nat, cred: Credential, initiator: bool, ephemeral: nat)
      requires config.getCred(version) == Some(cred)
      ensures this.config == config && Some(View()) == NewMachine(config, version, initiator, ephemeral)
      ensures Valid() && !failed
    {
      this.config, myVersion := config, version;
      hs := NoiseState(initiator, cred.cert.publicKey, ephemeral, 0, None, None);
      indexAllocated, remoteCertSet, payloadSet, failed := false, false, false, false;
      localIndex, remoteIndex, remoteCert, myCert, handshakeTime := 0, 0, None, None, 0;
    }

    function View(): Spec.Machine
      reads this
    {
      Spec.Machine(hs, myVersion, indexAllocated, remoteCertSet, payloadSet, failed,
                   localIndex, remoteIndex, remoteCert, myCert, handshakeTime)
    }

    /** A machine that has not failed is in order: index, certificate and messages fit together. */
    ghost predicate Valid()
      reads this
    {
      !failed ==> Runs.MachineOk(config, View())
    }

    method ValidateCert(p: Payload) returns (error: Option<Error>)
      modifies this
      ensures (View(), error) == Spec.ValidateCert(config, old(View()), p)
    {
      if config.getCred(myVersion).None? {
        failed := true;
        return Some(NoCredential);
      }
      var rc := config.recombine(p.certVersion, p.cert, PeerStatic(hs));
      if rc.None? {
        failed := true;
        return Some(RecombineFailed);
      }
      if rc.value.publicKey != PeerStatic(hs) {
        failed := true;
        return Some(PublicKeyMismatch);
      }
      if rc.value.version != myVersion && config.getCred(rc.value.version).Some? {
        myVersion := rc.value.version;
      }
      var verified := config.verify(rc.value);
      if verified.None? {
        failed := true;
        return Some(VerifyFailed);
      }
      remoteCert, remoteCertSet := verified, true;
      return None;
    }

    method ProcessPayload(content: Content, flags: Flags) returns (error: Option<Error>)
      modifies this
      ensures (View(), error) == Spec.ProcessPayload(config, old(View()), content, flags)
    {
      if content.Nothing? {
        if flags.expectsPayload || flags.expectsCert {
          failed := true;
          return Some(MissingContent);
        }
        return None;
      }
      if content.Malformed? {
        failed := true;
        return Some(BadPayload);
      }
      var p := content.payload;
      var hasPayloadData := p.initiatorIndex != 0 || p.responderIndex != 0 || p.time != 0;
      if hasPayloadData != flags.expectsPayload {
        failed := true;
        return Some(UnexpectedContent);
      }
      var hasCertData := p.cert != [];
      if hasCertData != flags.expectsCert {
        failed := true;
        return Some(UnexpectedContent);
      }
      if flags.expectsPayload {
        var index := if hs.initiator then p.responderIndex else p.initiatorIndex;
        if index == 0 {
          failed := true;
          return Some(InvalidRemoteIndex);
        }
        remoteIndex, handshakeTime, payloadSet := index, p.time, true;
      }
      if flags.expectsCert {
        error := ValidateCert(p);
        return;
      }
      return None;
    }

    method MarshalOutgoing(flags: Flags, offer: Offer) returns (content: Content, error: Option<Error>)
      modifies this`localIndex, this`indexAllocated, this`myCert
      ensures (View(), content, error) == Spec.MarshalOutgoing(config, old(View()), flags, offer)
    {
      if !flags.expectsPayload && !flags.expectsCert {
        return Nothing, None;
      }
      var p := Payload([], 0, 0, 0, 0);
      if flags.expectsPayload {
        if !indexAllocated {
          if offer.index.None? {
            return Nothing, Some(IndexAllocation);
          }
          localIndex, indexAllocated := offer.index.value, true;
        }
        if hs.initiator {
          p := p.(initiatorIndex := localIndex);
        } else {
          p := p.(responderIndex := localIndex, initiatorIndex := remoteIndex);
        }
        p := p.(time := offer.time);
      }
      if flags.expectsCert {
        var cred := config.getCred(myVersion);
        if cred.None? {
          return Nothing, Some(NoCredential);
        }
        p := p.(cert := cred.value.bytes, certVersion := cred.value.cert.version);
        myCert := Some(cred.value.cert);
      }
      return Details(p), None;
    }

    method BuildResponse(offer: Offer) returns (packet: Packet, keys: Option<Keys>, error: Option<Error>)
      modifies this`localIndex, this`indexAllocated, this`myCert, this`hs
      ensures Built(View(), packet, keys, error) == Spec.BuildResponse(config, old(View()), offer)
    {
      var content;
      content, error := MarshalOutgoing(FlagsAt(hs.index), offer);
      if error.Some? {
        return TooShort, None, error;
      }
      var counter := hs.index + 1;
      var w := WriteMessage(hs, content);
      if w.None? {
        return TooShort, None, Some(WriteFailed);
      }
      hs := w.value.hs;
      return Packet(config.subtype, remoteIndex, counter, w.value.body), w.value.keys, None;
    }

    /** requireComplete and completed. */
    method Finish(eKey: Cipher, dKey: Cipher) returns (result: Option<Result>, error: Option<Error>)
      modifies this`failed
      ensures forall out :: Spec.Finish(old(View()), out, eKey, dKey) == Reply(View(), if error.Some? then None else out, result, error)
    {
      if !payloadSet || !remoteCertSet {
        failed := true;
        return None, Some(IncompleteHandshake);
      }
      return Some(Completed(View(), eKey, dKey)), None;
    }

    method Initiate(offer: Offer) returns (out: Option<Packet>, error: Option<Error>)
      modifies this
      ensures Reply(View(), out, None, error) == Spec.Initiate(config, old(View()), offer)
      ensures old(Valid()) && Runs.OfferOk(offer) ==> Valid()
      ensures old(failed) ==> View() == old(View())
    {
      ghost var m := View();
      if Valid() && !failed && Runs.OfferOk(offer) {
        Runs.InitiateOk(config, m, offer);
      }
      out, error := BuildFirst(offer);
    }

    /** The body of Initiate. */
    method BuildFirst(offer: Offer) returns (out: Option<Packet>, error: Option<Error>)
      modifies this
      ensures Reply(View(), out, None, error) == Spec.Initiate(config, old(View()), offer)
    {
      if failed {
        return None, Some(MachineFailed);
      }
      if !hs.initiator {
        failed := true;
        return None, Some(InitiateOnResponder);
      }
      if hs.index != 0 {
        failed := true;
        return None, Some(InitiateAlreadyCalled);
      }
      var packet, keys;
      packet, keys, error := BuildResponse(offer);
      if error.Some? {
        failed := true;
        return None, error;
      }
      return Some(packet), None;
    }

    /** The part of ProcessPacket that produces the next message. */
    method Respond(offer: Offer) returns (out: Option<Packet>, result: Option<Result>, error: Option<Error>)
      modifies this
      ensures Reply(View(), out, result, error) == Spec.Respond(config, old(View()), offer)
    {
      var packet, keys;
      packet, keys, error := BuildResponse(offer);
      if error.Some? {
        failed := true;
        return None, None, error;
      }
      if keys.None? {
        return Some(packet), None, None;
      }
      result, error := Finish(keys.value.two, keys.value.one);
      out := if error.Some? then None else Some(packet);
    }

    method ProcessPacket(packet: Packet, offer: Offer) returns (out: Option<Packet>, result: Option<Result>, error: Option<Error>)
      modifies this
      ensures Reply(View(), out, result, error) == Spec.ProcessPacket(config, old(View()), packet, offer)
      ensures old(Valid()) && Runs.OfferOk(offer) ==> Valid() && (result.Some? ==> !failed && error.None? && Runs.ResultOk(config, result.value))
      ensures error.Some? && !failed ==> View() == old(View())
      ensures old(failed) ==> View() == old(View()) && result.None?
    {
      ghost var m := View();
      if Valid() && !failed && Runs.OfferOk(offer) {
        Runs.ProcessOk(config, m, packet, offer);
      }
      if Spec.ProcessPacket(config, m, packet, offer).error.Some? && !Spec.ProcessPacket(config, m, packet, offer).m.failed {
        Runs.RejectedLeavesNoTrace(config, m, packet, offer);
      }
      out, result, error := TakePacket(packet, offer);
    }

    /** The body of ProcessPacket. */
    method TakePacket(packet: Packet, offer: Offer) returns (out: Option<Packet>, result: Option<Result>, error: Option<Error>)
      modifies this
      ensures Reply(View(), out, result, error) == Spec.ProcessPacket(config, old(View()), packet, offer)
    {
      if failed {
        return None, None, Some(MachineFailed);
      }
      if packet.TooShort? {
        return None, None, Some(PacketTooShort);
      }
      if packet.subtype != config.subtype {
        return None, None, Some(SubtypeMismatch);
      }
      if hs.initiator && hs.index == 0 {
        failed := true;
        return None, None, Some(InitiateNotCalled);
      }
      var read := ReadMessage(hs, packet.body);
      if read.None? {
        return None, None, Some(ReadFailed);
      }
      hs := read.value.hs;
      error := ProcessPayload(read.value.content, FlagsAt(hs.index - 1));
      if error.Some? {
        return None, None, error;
      }
      if read.value.keys.Some? {
        result, error := Finish(read.value.keys.value.one, read.value.keys.value.two);
        return None, result, error;
      }
      out, result, error := Respond(offer);
    }
  }
}
