/** Key agreement: what the two ends of a handshake install, and what equal keys tell them. */
module Handshakes {
  import opened Wrappers
  import opened Tokens
  import opened Transcripts

  const MAX_CLOCK_SKEW := 15 * 60
  const LABEL_INITIATOR := "inkmail-session-initiator"
  const LABEL_RESPONDER := "inkmail-session-responder"

  type Private = string

  /**
   X25519 (public keys in hexadecimal), signature checking and HKDF, as the handshake uses them. Agreement
   fails on public keys that would give an all-zero secret.
   */
  datatype Crypto = Crypto(
    public: Private -> string,
    agree: (Private, string) -> Option<string>,
    verify: (string, string, string) -> bool,
    derive: (string, string, string) -> string)

  ghost predicate AgreementSymmetric(c: Crypto) {
    forall a: Private, b: Private :: c.agree(a, c.public(b)) == c.agree(b, c.public(a))
  }

  /** Derived keys collide only for the same secret, transcript and label. */
  ghost predicate DerivationInjective(c: Crypto) {
    forall s: string, t: string, l: string, s': string, t': string, l': string ::
      c.derive(s, t, l) == c.derive(s', t', l') ==> s == s' && t == t' && l == l'
  }

  datatype HelloError = BadShape | BadSignature | BadClock | NoAgreement

  /** A space or a control character. */
  predicate IsForbidden(c: char) {
    IsSpace(c) || c < ' ' || c == 127 as char
  }

  /** ValidateNamespace: nonempty, at most 64 bytes, without "::", spaces and control characters. */
  predicate ValidNamespace(s: string) {
    && 0 < |s| <= MAX_NAMESPACE_LEN
    && (forall i :: 0 <= i < |s| - 1 ==> !(s[i] == ':' && s[i + 1] == ':'))
    && (forall i :: 0 <= i < |s| ==> !IsForbidden(s[i]))
  }

  /** verifyHello: shapes, then the signature over the transcript, then the clock. */
  function VerifyHello(c: Crypto, h: Hello, signature: string, now: int): Option<HelloError> {
    if !WellFormed(h) || !ValidNamespace(h.namespace) then Some(BadShape)
    else if !c.verify(h.publicKey, TranscriptBytes(h), signature) then Some(BadSignature)
    else if h.timestamp > now + MAX_CLOCK_SKEW || now > h.timestamp + MAX_CLOCK_SKEW then Some(BadClock)
    else None
  }

  // ---- what a hello must be, check by check ----

  /** Version 4, a namespace of 1 to 64 printable characters without "::", and three keys of 32 bytes. */
  predicate HasShape(h: Hello) {
    && h.version == 4
    && 1 <= |h.namespace| <= 64
    && (forall i :: 0 <= i < |h.namespace| ==> h.namespace[i] > ' ' && h.namespace[i] != 127 as char)
    && (forall i, j :: 0 <= i < |h.namespace| && j == i + 1 < |h.namespace| ==>
          h.namespace[i] != ':' || h.namespace[j] != ':')
    && (forall key :: key in {h.publicKey, h.encryptionKey, h.ephemeralKey} ==>
          DecodeHex(key).Some? && |DecodeHex(key).value| == 32)
  }

  /** The sender of the hello signed this very transcript. */
  predicate IsSigned(c: Crypto, h: Hello, signature: string) {
    c.verify(h.publicKey, TranscriptBytes(h), signature)
  }

  /** At most 15 minutes before or after the reader's clock. */
  predicate IsTimely(h: Hello, now: int) {
    -900 <= now - h.timestamp <= 900
  }

  lemma ShapesChecked(h: Hello)
    ensures WellFormed(h) && ValidNamespace(h.namespace) <==> HasShape(h)
  {
    TokensDecode(h.publicKey);
    TokensDecode(h.encryptionKey);
    TokensDecode(h.ephemeralKey);
    var s := h.namespace;
    hide IsToken, DecodeHex;
    if WellFormed(h) && ValidNamespace(s) {
      forall i | 0 <= i < |s| ensures s[i] > ' ' && s[i] != 127 as char {
        assert !IsForbidden(s[i]);
      }
    }
    if HasShape(h) {
      forall i | 0 <= i < |s| - 1 ensures !(s[i] == ':' && s[i + 1] == ':') {
        var j := i + 1;
        assert s[i] != ':' || s[j] != ':';
      }
    }
  }

  class Session {
    const crypto: Crypto
    var sendKey: Option<string>
    var recvKey: Option<string>
    var sendCounter: nat
    var recvCounter: nat
    var peer: string
    var peerNamespace: string
    var peerAnonymous: bool
    var peerEncryptionKey: string

    constructor (crypto: Crypto)
      ensures this.crypto == crypto && sendKey.None? && recvKey.None?
    {
      this.crypto := crypto;
      sendKey, recvKey, sendCounter, recvCounter := None, None, 0, 0;
      peer, peerNamespace, peerAnonymous, peerEncryptionKey := "", "", false, "";
    }

    /** Installs the directional keys; the two ends order the transcripts alike and swap the labels. */
    method InstallSessionKeys(initiator: bool, localEphemeral: Private, peerEphemeral: string,
                              initiatorHello: Hello, responderHello: Hello)
      returns (ok: bool)
      modifies this`sendKey, this`recvKey, this`sendCounter, this`recvCounter
      ensures ok <==> crypto.agree(localEphemeral, peerEphemeral).Some?
      ensures ok ==> sendCounter == recvCounter == 0
      ensures ok ==> sendKey == KeyFor(crypto, initiator, localEphemeral, peerEphemeral, initiatorHello, responderHello)
      ensures ok ==>
                recvKey == KeyFor(crypto, !initiator, localEphemeral, peerEphemeral, initiatorHello, responderHello)
      ensures !ok ==> unchanged(this)
    {
      var shared := crypto.agree(localEphemeral, peerEphemeral);
      if shared.None? {
        return false;
      }
      var transcript := TranscriptBytes(initiatorHello) + TranscriptBytes(responderHello);
      var initiatorKey := crypto.derive(shared.value, transcript, LABEL_INITIATOR);
      var responderKey := crypto.derive(shared.value, transcript, LABEL_RESPONDER);
      var send, recv := responderKey, initiatorKey;
      if initiator {
        send, recv := initiatorKey, responderKey;
      }
      sendKey, recvKey := Some(send), Some(recv);
      sendCounter, recvCounter := 0, 0;
      return true;
    }

    /** A refused hello, or a failed agreement, leaves the session as it was, without keys and without a peer. */
    method FinishHandshake(initiator: bool, localEphemeral: Private, localHello: Hello, peerHello: Hello,
                           peerSignature: string, now: int)
      returns (failure: Option<HelloError>)
      modifies this
      ensures var refusal := VerifyHello(crypto, peerHello, peerSignature, now);
              failure == if refusal.Some? then refusal
                         else if crypto.agree(localEphemeral, peerHello.ephemeralKey).None? then Some(NoAgreement)
                         else None
      ensures failure.None? <==>
                && HasShape(peerHello) && IsSigned(crypto, peerHello, peerSignature) && IsTimely(peerHello, now)
                && crypto.agree(localEphemeral, peerHello.ephemeralKey).Some?
      ensures failure == Some(BadShape) <==> !HasShape(peerHello)
      ensures failure == Some(BadSignature) <==>
                HasShape(peerHello) && !IsSigned(crypto, peerHello, peerSignature)
      ensures failure == Some(BadClock) <==>
                HasShape(peerHello) && IsSigned(crypto, peerHello, peerSignature) && !IsTimely(peerHello, now)
      ensures failure.Some? ==> unchanged(this)
      ensures failure.None? ==>
                && sendKey == EndKey(crypto, initiator, initiator, localEphemeral, localHello, peerHello)
                && recvKey == EndKey(crypto, initiator, !initiator, localEphemeral, localHello, peerHello)
                && sendKey.Some? && recvKey.Some?
                && sendCounter == recvCounter == 0
                && peer == peerHello.publicKey && peerNamespace == peerHello.namespace
                && peerAnonymous == peerHello.anonymous && peerEncryptionKey == peerHello.encryptionKey
    {
      ShapesChecked(peerHello);
      hide HasShape, WellFormed, ValidNamespace;
      failure := VerifyHello(crypto, peerHello, peerSignature, now);
      if failure.Some? {
        return;
      }
      var initiatorHello, responderHello := localHello, peerHello;
      if !initiator {
        initiatorHello, responderHello := peerHello, localHello;
      }
      var ok := InstallSessionKeys(initiator, localEphemeral, peerHello.ephemeralKey, initiatorHello, responderHello);
      if !ok {
        return Some(NoAgreement);
      }
      peer, peerNamespace := peerHello.publicKey, peerHello.namespace;
      peerAnonymous, peerEncryptionKey := peerHello.anonymous, peerHello.encryptionKey;
    }
  }

  /** The key of the direction the initiator sends in, or of the other one. */
  function KeyFor(c: Crypto, fromInitiator: bool, ephemeral: Private, peerEphemeral: string, i: Hello,
                  r: Hello): Option<string> {
    match c.agree(ephemeral, peerEphemeral)
    case None => None
    case Some(shared) =>
      Some(c.derive(shared, SessionTranscript(i, r), if fromInitiator then LABEL_INITIATOR else LABEL_RESPONDER))
  }

  /** The same key as one end computes it from its own hello and the one it received. */
  function EndKey(c: Crypto, initiator: bool, fromInitiator: bool, ephemeral: Private, local: Hello,
                  peer: Hello): Option<string> {
    if initiator then KeyFor(c, fromInitiator, ephemeral, peer.ephemeralKey, local, peer)
    else KeyFor(c, fromInitiator, ephemeral, peer.ephemeralKey, peer, local)
  }

  /** Ends that exchanged their hellos unchanged agree on both directional keys. */
  lemma HonestEndsAgree(c: Crypto, a: Private, b: Private, i: Hello, r: Hello, fromInitiator: bool)
    requires AgreementSymmetric(c) && i.ephemeralKey == c.public(a) && r.ephemeralKey == c.public(b)
    ensures EndKey(c, true, fromInitiator, a, i, r) == EndKey(c, false, fromInitiator, b, r, i)
  {
    assert c.agree(a, c.public(b)) == c.agree(b, c.public(a));
  }

  /**
   Conversely, ends that share a directional key saw the same two hellos, in the same roles and the
   same direction: neither hello can have been changed on the way, down to the last field.
   */
  lemma EqualKeysBindHellos(c: Crypto, a: Private, i: Hello, seenByInitiator: Hello,
                            b: Private, r: Hello, seenByResponder: Hello, d: bool, d': bool)
    requires DerivationInjective(c)
    requires WellFormed(i) && WellFormed(seenByInitiator) && WellFormed(r) && WellFormed(seenByResponder)
    requires EndKey(c, true, d, a, i, seenByInitiator).Some?
    requires EndKey(c, true, d, a, i, seenByInitiator) == EndKey(c, false, d', b, r, seenByResponder)
    ensures seenByResponder == i && seenByInitiator == r && d == d'
  {
    hide SessionTranscript;
    assert SessionTranscript(i, seenByInitiator) == SessionTranscript(seenByResponder, r);
    assert LABEL_INITIATOR[16] != LABEL_RESPONDER[16];
    SessionTranscriptDetermined(i, seenByInitiator, seenByResponder, r);
  }
}
