/**
 The frame layer: length-prefixed frames over a byte stream that may accept and deliver bytes in
 pieces of any size, and the sealing of frames under counter nonces.
 */
module Frames {
  import opened Wrappers
  import opened ByteStrings

  const MAGIC: Bytes := [0x49, 0x4E, 0x4B, 0x4D]
  const MAX_FRAME_SIZE := 4 * 1024 * 1024
  const TAG_SIZE := 16
  const NONCE_SIZE := 12
  const MAX_UINT64 := TWO_TO_THE_64 - 1

  /** An AEAD under one fixed key, as the operations of its nonce. */
  datatype Aead = Aead(seal: (Bytes, Bytes) -> Bytes, open: (Bytes, Bytes) -> Option<Bytes>)

  /** Open undoes Seal under the same nonce, and the sealed text is one tag longer. */
  ghost predicate Sound(a: Aead) {
    forall nonce: Bytes, p: Bytes :: |nonce| == NONCE_SIZE ==>
      a.open(nonce, a.seal(nonce, p)) == Some(p) && |a.seal(nonce, p)| == |p| + TAG_SIZE
  }

  /** Nothing sealed under one nonce opens under another. */
  ghost predicate BindsNonce(a: Aead) {
    forall nonce: Bytes, other: Bytes, p: Bytes :: |nonce| == |other| == NONCE_SIZE ==>
      a.open(other, a.seal(nonce, p)) != None ==> nonce == other
  }

  // ---- plain frames ----

  function FrameBytes(payload: Bytes): Bytes {
    MAGIC + BigEndian(|payload|, 4) + payload
  }

  /** "INKM", then the length with its most significant byte first, then the payload. */
  lemma FrameLayout(payload: Bytes)
    requires |payload| < TWO_TO_THE_32
    ensures var f, n := FrameBytes(payload), |payload|;
            && |f| == 8 + n && f[8..] == payload
            && f[0] == 'I' as int && f[1] == 'N' as int && f[2] == 'K' as int && f[3] == 'M' as int
            && f[4] == n / 16777216 && f[5] == n / 65536 % 256 && f[6] == n / 256 % 256 && f[7] == n % 256
  {
    var n := |payload|;
    assert BigEndian(n, 4) == BigEndian(n / 256, 3) + [n % 256];
    assert BigEndian(n / 256, 3) == BigEndian(n / 65536, 2) + [n / 256 % 256];
    assert BigEndian(n / 65536, 2) == BigEndian(n / 16777216, 1) + [n / 65536 % 256];
    assert BigEndian(n / 16777216, 1) == [n / 16777216 % 256];
  }

  datatype FrameError = Truncated | BadMagic | TooLarge

  /** What readFrameLimit makes of a stream: one payload and the rest, or an error. */
  function ParseFrame(stream: Bytes, limit: nat): Result<(Bytes, Bytes), FrameError> {
    if |stream| < 8 then Err(Truncated)
    else if stream[..4] != MAGIC then Err(BadMagic)
    else
      var length := FromBigEndian(stream[4..8]);
      if length > MAX_FRAME_SIZE || length > limit then Err(TooLarge)
      else if |stream| < 8 + length then Err(Truncated)
      else Ok((stream[8..8 + length], stream[8 + length..]))
  }

  /** A frame is read back exactly, and reading stops exactly at its end. */
  lemma ParseUndoesFrame(payload: Bytes, rest: Bytes, limit: nat)
    requires |payload| < TWO_TO_THE_32
    ensures ParseFrame(FrameBytes(payload) + rest, limit) ==
            if |payload| <= 4194304 && |payload| <= limit then Ok((payload, rest)) else Err(TooLarge)
  {
    var stream := FrameBytes(payload) + rest;
    Pow256Values();
    BigEndianRoundTrip(|payload|, 4);
    assert stream[..4] == MAGIC;
    assert stream[4..8] == BigEndian(|payload|, 4);
    assert stream[8..8 + |payload|] == payload;
    assert stream[8 + |payload|..] == rest;
  }

  // ---- nonces ----

  /** Twelve bytes: four zeros and the counter. */
  function TransportNonce(counter: nat): (nonce: Bytes)
    ensures |nonce| == NONCE_SIZE
  {
    [0, 0, 0, 0] + BigEndian(counter, 8)
  }

  /** Four zero bytes, then the counter with its most significant byte first. */
  lemma NonceLayout(counter: nat)
    requires counter < TWO_TO_THE_64
    ensures TransportNonce(counter)[..4] == [0, 0, 0, 0] && FromBigEndian(TransportNonce(counter)[4..]) == counter
  {
    Pow256Values();
    BigEndianRoundTrip(counter, 8);
    assert TransportNonce(counter)[4..] == BigEndian(counter, 8);
  }

  /** RFC 8439, section 2.8: a nonce must not repeat under one key. */
  lemma NoncesDiffer(c: nat, d: nat)
    requires c < TWO_TO_THE_64 && d < TWO_TO_THE_64 && c != d
    ensures TransportNonce(c) != TransportNonce(d)
  {
    Pow256Values();
    BigEndianRoundTrip(c, 8);
    BigEndianRoundTrip(d, 8);
    assert TransportNonce(c)[4..] == BigEndian(c, 8);
    assert TransportNonce(d)[4..] == BigEndian(d, 8);
  }

  // ---- sealed frames ----

  function SealedPayload(a: Aead, counter: nat, payload: Bytes): Bytes {
    var sealed := a.seal(TransportNonce(counter), payload);
    BigEndian(|sealed|, 4) + sealed
  }

  /** What one encrypted message puts on the stream. */
  function SealedFrame(a: Aead, counter: nat, payload: Bytes): Bytes {
    FrameBytes(SealedPayload(a, counter, payload))
  }

  datatype OpenError = BadFrame(e: FrameError) | ShortFrame | LengthMismatch | Exhausted | NotAuthentic

  function OpenPayload(a: Aead, counter: nat, frame: Bytes): Result<Bytes, OpenError> {
    if |frame| < 4 then Err(ShortFrame)
    else if FromBigEndian(frame[..4]) != |frame| - 4 then Err(LengthMismatch)
    else if counter == MAX_UINT64 then Err(Exhausted)
    else match a.open(TransportNonce(counter), frame[4..])
      case None => Err(NotAuthentic)
      case Some(p) => Ok(p)
  }

  predicate Fits(payload: Bytes) {
    |payload| + TAG_SIZE + 4 <= MAX_FRAME_SIZE
  }

  lemma OpenUndoesSeal(a: Aead, counter: nat, payload: Bytes)
    requires Sound(a) && counter < MAX_UINT64 && Fits(payload)
    ensures |SealedPayload(a, counter, payload)| == |payload| + TAG_SIZE + 4 <= MAX_FRAME_SIZE
    ensures OpenPayload(a, counter, SealedPayload(a, counter, payload)) == Ok(payload)
  {
    var sealed := a.seal(TransportNonce(counter), payload);
    assert a.open(TransportNonce(counter), sealed) == Some(payload);
    Pow256Values();
    BigEndianRoundTrip(|sealed|, 4);
    assert SealedPayload(a, counter, payload)[..4] == BigEndian(|sealed|, 4);
    assert SealedPayload(a, counter, payload)[4..] == sealed;
  }

  /** A frame sealed for another counter is refused, so one counter out of step stops the session. */
  lemma OtherCounterIsRefused(a: Aead, sendCounter: nat, recvCounter: nat, payload: Bytes)
    requires Sound(a) && BindsNonce(a) && Fits(payload)
    requires sendCounter < MAX_UINT64 && recvCounter < MAX_UINT64 && sendCounter != recvCounter
    ensures OpenPayload(a, recvCounter, SealedPayload(a, sendCounter, payload)) == Err(NotAuthentic)
  {
    var nonce, other := TransportNonce(sendCounter), TransportNonce(recvCounter);
    NoncesDiffer(sendCounter, recvCounter);
    var sealed := a.seal(nonce, payload);
    assert a.open(nonce, sealed) == Some(payload);
    assert a.open(other, a.seal(nonce, payload)) == None;
    Pow256Values();
    BigEndianRoundTrip(|sealed|, 4);
    assert SealedPayload(a, sendCounter, payload)[..4] == BigEndian(|sealed|, 4);
    assert SealedPayload(a, sendCounter, payload)[4..] == sealed;
  }
}
