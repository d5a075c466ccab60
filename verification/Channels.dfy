/** Encrypted channels: the loops and counters of the frame layer, over connections that split bytes at will. */
module Channels {
  import opened Wrappers
  import opened ByteStrings
  import opened Frames

  /** One direction of a connection: the bytes its reader has yet to receive before the end of the stream. */
  class Conn {
    var stream: Bytes
    /** Whether a write has ever failed. */
    ghost var broken: bool

    constructor ()
      ensures stream == [] && !broken
    {
      stream, broken := [], false;
    }

    /** Accepts some prefix of data; an error may come after any part of it. */
    method Write(data: Bytes) returns (written: nat, ok: bool)
      modifies this
      ensures written <= |data| && stream == old(stream) + data[..written]
      ensures broken == (old(broken) || !ok || (written == 0 && data != []))
    {
      written :| written <= |data|;
      ok :| ok || !ok;
      stream := stream + data[..written];
      broken := broken || !ok || (written == 0 && data != []);
    }

    /** Delivers a nonempty piece of at most limit bytes, or nothing once the stream has ended. */
    method Read(limit: nat) returns (chunk: Bytes)
      requires limit > 0
      modifies this`stream
      ensures |chunk| <= limit && (chunk == [] <==> old(stream) == [])
      ensures old(stream) == chunk + stream
    {
      if stream == [] {
        return [];
      }
      var n: nat :| 0 < n <= limit && n <= |stream|;
      chunk := stream[..n];
      stream := stream[n..];
    }
  }

  lemma PrefixGrows(data: Bytes, done: nat, more: nat)
    requires done + more <= |data|
    ensures data[..done] + data[done..][..more] == data[..done + more]
    ensures data[done..][more..] == data[done + more..]
  {
  }

  /** Writes all of data over however many writes it takes. */
  method WriteAll(conn: Conn, data: Bytes) returns (ok: bool)
    modifies conn
    ensures ok ==> conn.stream == old(conn.stream) + data
    ensures exists n: nat :: n <= |data| && conn.stream == old(conn.stream) + data[..n]
    ensures conn.broken == (old(conn.broken) || !ok)
  {
    var rest := data;
    ghost var done: nat := 0;
    while |rest| > 0
      invariant done <= |data| && rest == data[done..] && conn.broken == old(conn.broken)
      invariant conn.stream == old(conn.stream) + data[..done]
    {
      var written, wrote := conn.Write(rest);
      PrefixGrows(data, done, written);
      done := done + written;
      if !wrote || written == 0 {
        return false;
      }
      rest := rest[written..];
    }
    assert data[..done] == data;
    return true;
  }

  /** io.ReadFull: exactly n bytes however they arrive, or None if the stream ends first. */
  method ReadFull(conn: Conn, n: nat) returns (r: Option<Bytes>)
    modifies conn`stream
    ensures r.Some? <==> |old(conn.stream)| >= n
    ensures r.Some? ==> r.value == old(conn.stream)[..n] && conn.stream == old(conn.stream)[n..]
  {
    var buffer := [];
    while |buffer| < n
      invariant |buffer| <= n && old(conn.stream) == buffer + conn.stream
      decreases n - |buffer|
    {
      var chunk := conn.Read(n - |buffer|);
      if chunk == [] {
        return None;
      }
      buffer := buffer + chunk;
    }
    r := Some(buffer);
  }

  method WriteFrame(conn: Conn, payload: Bytes) returns (ok: bool)
    modifies conn
    ensures ok ==> |payload| <= MAX_FRAME_SIZE && conn.stream == old(conn.stream) + FrameBytes(payload)
    ensures |payload| > 4194304 ==> !ok && conn.stream == old(conn.stream) && conn.broken == old(conn.broken)
    ensures |payload| <= 4194304 ==> conn.broken == (old(conn.broken) || !ok)
  {
    if |payload| > MAX_FRAME_SIZE {
      return false;
    }
    ok := WriteAll(conn, MAGIC);
    if !ok {
      return;
    }
    ok := WriteAll(conn, BigEndian(|payload|, 4));
    if !ok {
      return;
    }
    ok := WriteAll(conn, payload);
    assert old(conn.stream) + MAGIC + BigEndian(|payload|, 4) + payload == old(conn.stream) + FrameBytes(payload);
  }

  method ReadFrameLimit(conn: Conn, limit: nat) returns (r: Result<Bytes, FrameError>)
    modifies conn`stream
    ensures match ParseFrame(old(conn.stream), limit)
            case Ok(parsed) => r == Ok(parsed.0) && conn.stream == parsed.1
            case Err(e) => r == Err(e)
  {
    var header := ReadFull(conn, 8);
    if header.None? {
      return Err(Truncated);
    }
    assert header.value[..4] == old(conn.stream)[..4] && header.value[4..] == old(conn.stream)[4..8];
    if header.value[..4] != MAGIC {
      return Err(BadMagic);
    }
    var length := FromBigEndian(header.value[4..]);
    if length > MAX_FRAME_SIZE || length > limit {
      return Err(TooLarge);
    }
    var payload := ReadFull(conn, length);
    if payload.None? {
      return Err(Truncated);
    }
    assert payload.value == old(conn.stream)[8..8 + length] && conn.stream == old(conn.stream)[8 + length..];
    return Ok(payload.value);
  }

  /** One end of a session after the handshake, with the AEADs of its two directional keys. */
  class Channel {
    const sendAead: Aead
    const recvAead: Aead
    var sendCounter: nat
    var recvCounter: nat
    /** The nonces given to Seal under the send key, in order. */
    ghost var sealedWith: seq<Bytes>

    /** Nonces are those of the counters so far, and the counter can never wrap around. */
    ghost predicate Valid()
      reads this
    {
      && sendCounter <= MAX_UINT64 && recvCounter <= MAX_UINT64
      && |sealedWith| == sendCounter
      && forall i :: 0 <= i < sendCounter ==> sealedWith[i] == TransportNonce(i)
    }

    constructor (sendAead: Aead, recvAead: Aead)
      ensures Valid() && sendCounter == recvCounter == 0
      ensures this.sendAead == sendAead && this.recvAead == recvAead
    {
      this.sendAead, this.recvAead := sendAead, recvAead;
      sendCounter, recvCounter, sealedWith := 0, 0, [];
    }

    /**
     The counter moves before the frame is known to fit, so a payload of more than MAX_FRAME_SIZE - 20
     bytes uses up a nonce and puts nothing on the stream.
     */
    method WriteEncrypted(conn: Conn, payload: Bytes) returns (ok: bool)
      requires Valid() && Sound(sendAead)
      modifies this`sendCounter, this`sealedWith, conn
      ensures Valid()
      ensures sendCounter == if old(sendCounter) == MAX_UINT64 then MAX_UINT64 else old(sendCounter) + 1
      ensures ok ==> Fits(payload) && old(sendCounter) < MAX_UINT64
      ensures ok ==> conn.stream == old(conn.stream) + SealedFrame(sendAead, old(sendCounter), payload)
      ensures !Fits(payload) || old(sendCounter) == MAX_UINT64 ==>
                !ok && conn.stream == old(conn.stream) && conn.broken == old(conn.broken)
      ensures Fits(payload) && old(sendCounter) < MAX_UINT64 ==> conn.broken == (old(conn.broken) || !ok)
    {
      if sendCounter == MAX_UINT64 {
        return false;
      }
      var nonce := TransportNonce(sendCounter);
      sealedWith := sealedWith + [nonce];
      sendCounter := sendCounter + 1;
      var sealed := sendAead.seal(nonce, payload);
      assert sendAead.open(nonce, sealed) == Some(payload);
      var frame := BigEndian(|sealed|, 4) + sealed;
      ok := WriteFrame(conn, frame);
    }

    method ReadEncrypted(conn: Conn) returns (r: Result<Bytes, OpenError>)
      requires Valid()
      modifies this`recvCounter, conn`stream
      ensures Valid()
      ensures match ParseFrame(old(conn.stream), MAX_FRAME_SIZE)
              case Ok(parsed) => r == OpenPayload(recvAead, old(recvCounter), parsed.0) && conn.stream == parsed.1
              case Err(e) => r == Err(BadFrame(e))
      ensures recvCounter == old(recvCounter) + if r.Ok? || r.error == NotAuthentic then 1 else 0
    {
      var frame := ReadFrameLimit(conn, MAX_FRAME_SIZE);
      if frame.Err? {
        return Err(BadFrame(frame.error));
      }
      if |frame.value| < 4 {
        return Err(ShortFrame);
      }
      var sealedLength := FromBigEndian(frame.value[..4]);
      if sealedLength != |frame.value| - 4 {
        return Err(LengthMismatch);
      }
      if recvCounter == MAX_UINT64 {
        return Err(Exhausted);
      }
      var nonce := TransportNonce(recvCounter);
      recvCounter := recvCounter + 1;
      var plain := recvAead.open(nonce, frame.value[4..]);
      if plain.None? {
        return Err(NotAuthentic);
      }
      return Ok(plain.value);
    }

    /** No two seals under this channel's key ever shared a nonce, failed writes included. */
    lemma NonceNeverRepeats(i: nat, j: nat)
      requires Valid() && i < j < |sealedWith|
      ensures sealedWith[i] != sealedWith[j]
    {
      NoncesDiffer(i, j);
    }
  }

  // ---- a whole conversation in one direction ----

  function FramesOf(a: Aead, counter: nat, payloads: seq<Bytes>): (frames: seq<Bytes>)
    ensures |frames| == |payloads|
    ensures forall i :: 0 <= i < |payloads| ==> frames[i] == SealedFrame(a, counter + i, payloads[i])
  {
    seq(|payloads|, i requires 0 <= i < |payloads| => SealedFrame(a, counter + i, payloads[i]))
  }

  function Concat(frames: seq<Bytes>): Bytes {
    if frames == [] then [] else frames[0] + Concat(frames[1..])
  }

  lemma {:induction false} ConcatAppend(frames: seq<Bytes>, last: Bytes)
    ensures Concat(frames + [last]) == Concat(frames) + last
  {
    if frames == [] {
      assert frames + [last] == [last] && [last][1..] == [];
    } else {
      ConcatAppend(frames[1..], last);
      assert (frames + [last])[1..] == frames[1..] + [last];
    }
  }

  lemma StreamExtends(base: Bytes, frames: seq<Bytes>, i: nat)
    requires i < |frames|
    ensures base + Concat(frames[..i]) + frames[i] == base + Concat(frames[..i + 1])
  {
    ConcatAppend(frames[..i], frames[i]);
    assert frames[..i + 1] == frames[..i] + [frames[i]];
  }

  lemma StreamShrinks(frames: seq<Bytes>, i: nat, tail: Bytes)
    requires i < |frames|
    ensures Concat(frames[i..]) + tail == frames[i] + (Concat(frames[i + 1..]) + tail)
  {
    assert frames[i..][1..] == frames[i + 1..];
  }

  /** What a conversation of these payloads, starting at counter, puts on the stream. */
  function StreamOf(a: Aead, counter: nat, payloads: seq<Bytes>): Bytes {
    Concat(FramesOf(a, counter, payloads))
  }

  /** The counter a message leaves its sender with: a message over the frame limit is turned away before sealing. */
  function NextCounter(counter: nat, payload: Bytes): nat {
    if |payload| > MAX_FRAME_SIZE || counter == MAX_UINT64 then counter else counter + 1
  }

  /** sendMessage, with the JSON text of the message as its payload. */
  method SendMessage(sender: Channel, conn: Conn, payload: Bytes) returns (ok: bool)
    requires sender.Valid() && Sound(sender.sendAead)
    modifies sender`sendCounter, sender`sealedWith, conn
    ensures sender.Valid() && sender.sendCounter == NextCounter(old(sender.sendCounter), payload)
    ensures ok ==>
              && Fits(payload) && old(sender.sendCounter) < MAX_UINT64 && conn.broken == old(conn.broken)
              && conn.stream == old(conn.stream) + SealedFrame(sender.sendAead, old(sender.sendCounter), payload)
    ensures !ok ==> !Fits(payload) || old(sender.sendCounter) == MAX_UINT64 || conn.broken
    ensures !Fits(payload) ==> conn.stream == old(conn.stream) && conn.broken == old(conn.broken)
  {
    if |payload| > MAX_FRAME_SIZE {
      return false;
    }
    ok := sender.WriteEncrypted(conn, payload);
  }

  /** Sends payloads until one fails; what is then on the stream is the frames of those that did not. */
  method SendAll(sender: Channel, conn: Conn, payloads: seq<Bytes>) returns (sent: nat)
    requires sender.Valid() && Sound(sender.sendAead)
    modifies sender`sendCounter, sender`sealedWith, conn
    ensures sender.Valid() && sent <= |payloads|
    ensures sent == |payloads| ==>
              conn.stream == old(conn.stream) + StreamOf(sender.sendAead, old(sender.sendCounter), payloads)
              && sender.sendCounter == old(sender.sendCounter) + |payloads|
    ensures forall i :: 0 <= i < sent ==> Fits(payloads[i])
    ensures sent == |payloads| ==> conn.broken == old(conn.broken)
    ensures sent < |payloads| ==> !Fits(payloads[sent]) || old(sender.sendCounter) + sent == MAX_UINT64 || conn.broken
  {
    hide SealedFrame, Sound;
    sent := 0;
    ghost var frames := FramesOf(sender.sendAead, sender.sendCounter, payloads);
    while sent < |payloads|
      invariant sent <= |payloads| && sender.Valid()
      invariant sender.sendCounter == old(sender.sendCounter) + sent
      invariant conn.stream == old(conn.stream) + Concat(frames[..sent])
      invariant forall i :: 0 <= i < sent ==> Fits(payloads[i])
      invariant conn.broken == old(conn.broken)
    {
      ghost var frame := frames[sent];
      assert frame == SealedFrame(sender.sendAead, sender.sendCounter, payloads[sent]);
      var ok := SendMessage(sender, conn, payloads[sent]);
      if !ok {
        return;
      }
      StreamExtends(old(conn.stream), frames, sent);
      sent := sent + 1;
    }
    assert frames[..sent] == frames;
  }

  /** The next frame of the stream is read and opened to exactly its payload. */
  method ReceiveOne(receiver: Channel, conn: Conn, ghost payload: Bytes, ghost frame: Bytes, ghost rest: Bytes)
    returns (received: Bytes)
    requires receiver.Valid() && Sound(receiver.recvAead) && receiver.recvCounter < MAX_UINT64 && Fits(payload)
    requires frame == SealedFrame(receiver.recvAead, receiver.recvCounter, payload) && conn.stream == frame + rest
    modifies receiver`recvCounter, conn`stream
    ensures receiver.Valid()
    ensures received == payload && conn.stream == rest && receiver.recvCounter == old(receiver.recvCounter) + 1
  {
    OpenUndoesSeal(receiver.recvAead, receiver.recvCounter, payload);
    ParseUndoesFrame(SealedPayload(receiver.recvAead, receiver.recvCounter, payload), rest, MAX_FRAME_SIZE);
    var r := receiver.ReadEncrypted(conn);
    received := r.value;
  }

  /** Whatever pieces the bytes arrive in, the reader recovers exactly the payloads, and stays in step. */
  method ReceiveAll(receiver: Channel, conn: Conn, ghost payloads: seq<Bytes>, count: nat, ghost tail: Bytes)
    returns (received: seq<Bytes>)
    requires receiver.Valid() && Sound(receiver.recvAead)
    requires count == |payloads| && receiver.recvCounter + count <= MAX_UINT64
    requires forall i :: 0 <= i < |payloads| ==> Fits(payloads[i])
    requires conn.stream == StreamOf(receiver.recvAead, receiver.recvCounter, payloads) + tail
    modifies receiver`recvCounter, conn`stream
    ensures receiver.Valid()
    ensures received == payloads && conn.stream == tail
    ensures receiver.recvCounter == old(receiver.recvCounter) + count
  {
    hide SealedFrame, Sound;
    received := [];
    ghost var frames := FramesOf(receiver.recvAead, receiver.recvCounter, payloads);
    var i := 0;
    while i < count
      invariant i <= count && received == payloads[..i] && receiver.Valid()
      invariant receiver.recvCounter == old(receiver.recvCounter) + i
      invariant conn.stream == Concat(frames[i..]) + tail
    {
      StreamShrinks(frames, i, tail);
      var one := ReceiveOne(receiver, conn, payloads[i], frames[i], Concat(frames[i + 1..]) + tail);
      received := received + [one];
      i := i + 1;
    }
  }

  /**
   Two ends that start in step under one key. The reader gets exactly the payloads sent, and the
   counters are equal again, if and only if every payload fits with its seal, no write failed and
   the counter did not run out.
   */
  method Converse(sender: Channel, receiver: Channel, conn: Conn, payloads: seq<Bytes>)
    returns (received: Option<seq<Bytes>>)
    requires sender != receiver && sender.Valid() && receiver.Valid()
    requires sender.sendAead == receiver.recvAead && Sound(sender.sendAead)
    requires sender.sendCounter == receiver.recvCounter && conn.stream == [] && !conn.broken
    modifies sender`sendCounter, sender`sealedWith, receiver`recvCounter, conn
    ensures sender.Valid() && receiver.Valid()
    ensures received.Some? ==> received.value == payloads && sender.sendCounter == receiver.recvCounter
    ensures received.Some? <==> (
              && (forall i :: 0 <= i < |payloads| ==> Fits(payloads[i]))
              && !conn.broken
              && old(sender.sendCounter) + |payloads| <= MAX_UINT64)
  {
    var sent := SendAll(sender, conn, payloads);
    if sent < |payloads| {
      return None;
    }
    assert conn.stream == StreamOf(receiver.recvAead, receiver.recvCounter, payloads) + [];
    var all := ReceiveAll(receiver, conn, payloads, |payloads|, []);
    received := Some(all);
  }

  // ---- a sender that goes on after a refusal ----

  /** Not over the frame limit by itself, but with its seal: the counter moves and nothing is written. */
  predicate InGap(payload: Bytes) {
    MAX_FRAME_SIZE - TAG_SIZE - 4 < |payload| <= MAX_FRAME_SIZE
  }

  /** What is on the stream when every payload has been handed to SendMessage, on a connection that never fails. */
  function SentStream(a: Aead, counter: nat, payloads: seq<Bytes>): Bytes
    decreases payloads
  {
    if payloads == [] then []
    else
      (if Fits(payloads[0]) then SealedFrame(a, counter, payloads[0]) else []) +
      SentStream(a, NextCounter(counter, payloads[0]), payloads[1..])
  }

  function CounterAfter(counter: nat, payloads: seq<Bytes>): nat
    decreases payloads
  {
    if payloads == [] then counter else CounterAfter(NextCounter(counter, payloads[0]), payloads[1..])
  }

  lemma {:induction false} SentOneMore(a: Aead, counter: nat, payloads: seq<Bytes>, last: Bytes)
    ensures CounterAfter(counter, payloads + [last]) == NextCounter(CounterAfter(counter, payloads), last)
    ensures SentStream(a, counter, payloads + [last]) ==
            SentStream(a, counter, payloads) +
            if Fits(last) then SealedFrame(a, CounterAfter(counter, payloads), last) else []
    decreases payloads
  {
    hide SealedFrame;
    if payloads == [] {
      assert payloads + [last] == [last] && [last][1..] == [];
    } else {
      assert (payloads + [last])[1..] == payloads[1..] + [last];
      SentOneMore(a, NextCounter(counter, payloads[0]), payloads[1..], last);
    }
  }

  lemma {:induction false} CounterBounded(counter: nat, payloads: seq<Bytes>)
    ensures counter <= CounterAfter(counter, payloads) <= counter + |payloads|
    decreases payloads
  {
    if payloads != [] {
      CounterBounded(NextCounter(counter, payloads[0]), payloads[1..]);
    }
  }

  /** Hands over every payload, refused ones included, as long as the connection takes them. */
  method SendEach(sender: Channel, conn: Conn, payloads: seq<Bytes>)
    requires sender.Valid() && Sound(sender.sendAead) && sender.sendCounter + |payloads| < MAX_UINT64
    modifies sender`sendCounter, sender`sealedWith, conn
    ensures sender.Valid() && sender.sendCounter == CounterAfter(old(sender.sendCounter), payloads)
    ensures !conn.broken ==>
              conn.stream == old(conn.stream) + SentStream(sender.sendAead, old(sender.sendCounter), payloads)
  {
    hide SealedFrame, Sound;
    for i := 0 to |payloads|
      invariant sender.Valid() && sender.sendCounter == CounterAfter(old(sender.sendCounter), payloads[..i])
      invariant !conn.broken ==>
                  conn.stream == old(conn.stream) + SentStream(sender.sendAead, old(sender.sendCounter), payloads[..i])
      invariant old(conn.broken) ==> conn.broken
    {
      assert payloads[..i + 1] == payloads[..i] + [payloads[i]];
      SentOneMore(sender.sendAead, old(sender.sendCounter), payloads[..i], payloads[i]);
      CounterBounded(old(sender.sendCounter), payloads[..i]);
      var _ := SendMessage(sender, conn, payloads[i]);
    }
    assert payloads[..|payloads|] == payloads;
  }

  /** What a reader makes of a stream up to its end or its first error, which ends the session. */
  function ReadUntilError(a: Aead, counter: nat, stream: Bytes): (r: (seq<Bytes>, Option<OpenError>))
    decreases |stream|
  {
    if stream == [] then ([], None)
    else match ParseFrame(stream, MAX_FRAME_SIZE)
      case Err(e) => ([], Some(BadFrame(e)))
      case Ok((frame, rest)) =>
        match OpenPayload(a, counter, frame)
        case Err(e) => ([], Some(e))
        case Ok(payload) =>
          var more := ReadUntilError(a, counter + 1, rest);
          ([payload] + more.0, more.1)
  }

  function Fitting(payloads: seq<Bytes>): seq<Bytes> {
    if payloads == [] then [] else (if Fits(payloads[0]) then [payloads[0]] else []) + Fitting(payloads[1..])
  }

  /** The payloads before the first one in the gap. */
  function BeforeGap(payloads: seq<Bytes>): seq<Bytes> {
    if payloads == [] || InGap(payloads[0]) then [] else [payloads[0]] + BeforeGap(payloads[1..])
  }

  lemma ReadOneFrame(a: Aead, sendCounter: nat, recvCounter: nat, payload: Bytes, rest: Bytes)
    requires Sound(a) && BindsNonce(a) && Fits(payload) && sendCounter < MAX_UINT64 && recvCounter < MAX_UINT64
    ensures ReadUntilError(a, recvCounter, SealedFrame(a, sendCounter, payload) + rest) ==
            if sendCounter == recvCounter
            then ([payload] + ReadUntilError(a, recvCounter + 1, rest).0, ReadUntilError(a, recvCounter + 1, rest).1)
            else ([], Some(NotAuthentic))
  {
    hide Sound, BindsNonce, ParseFrame, SealedPayload, OpenPayload;
    OpenUndoesSeal(a, sendCounter, payload);
    ParseUndoesFrame(SealedPayload(a, sendCounter, payload), rest, MAX_FRAME_SIZE);
    assert |SealedFrame(a, sendCounter, payload)| > 0;
    if sendCounter != recvCounter {
      OtherCounterIsRefused(a, sendCounter, recvCounter, payload);
    }
  }

  /** Out of step, a reader gets nothing more: the next frame there is, if any, is refused. */
  lemma {:induction false} OutOfStepReadsNothing(a: Aead, sendCounter: nat, recvCounter: nat, payloads: seq<Bytes>)
    requires Sound(a) && BindsNonce(a) && sendCounter != recvCounter
    requires sendCounter + |payloads| < MAX_UINT64 && recvCounter < sendCounter
    ensures ReadUntilError(a, recvCounter, SentStream(a, sendCounter, payloads)) ==
            ([], if Fitting(payloads) == [] then None else Some(NotAuthentic))
    decreases payloads
  {
    hide SealedFrame, Sound, BindsNonce;
    if payloads != [] {
      var next := NextCounter(sendCounter, payloads[0]);
      if Fits(payloads[0]) {
        ReadOneFrame(a, sendCounter, recvCounter, payloads[0], SentStream(a, next, payloads[1..]));
      } else {
        OutOfStepReadsNothing(a, next, recvCounter, payloads[1..]);
        assert SentStream(a, sendCounter, payloads) == SentStream(a, next, payloads[1..]);
      }
    }
  }

  /**
   Whatever is handed over, a reader in step gets exactly the payloads that fit before the first one in
   the gap, and the first that fits after it is refused, which ends the session.
   */
  lemma {:induction false} GapEndsConversation(a: Aead, counter: nat, payloads: seq<Bytes>)
    requires Sound(a) && BindsNonce(a) && counter + |payloads| < MAX_UINT64
    ensures var before := BeforeGap(payloads);
            && before <= payloads
            && ReadUntilError(a, counter, SentStream(a, counter, payloads)) ==
               (Fitting(before), if Fitting(payloads[|before|..]) == [] then None else Some(NotAuthentic))
    decreases payloads
  {
    hide SealedFrame, Sound, BindsNonce;
    if payloads != [] {
      var next := NextCounter(counter, payloads[0]);
      var rest := payloads[1..];
      if InGap(payloads[0]) {
        OutOfStepReadsNothing(a, next, counter, rest);
        assert SentStream(a, counter, payloads) == SentStream(a, next, rest);
      } else {
        GapEndsConversation(a, next, rest);
        var before := BeforeGap(payloads);
        assert before[1..] == BeforeGap(rest) && payloads[|before|..] == rest[|BeforeGap(rest)|..];
        if Fits(payloads[0]) {
          ReadOneFrame(a, counter, counter, payloads[0], SentStream(a, next, rest));
        } else {
          assert SentStream(a, counter, payloads) == SentStream(a, next, rest);
          assert Fitting(before) == Fitting(BeforeGap(rest));
        }
      }
    }
  }

  /**
   After any first payload handed over in step, the next one that fits opens under the reader's
   counter if and only if the first one fitted, too, or was turned away before sealing.
   */
  lemma NextFrameOpens(a: Aead, counter: nat, first: Bytes, next: Bytes)
    requires Sound(a) && BindsNonce(a) && counter + 2 < MAX_UINT64 && Fits(next)
    ensures ReadUntilError(a, counter, SentStream(a, counter, [first, next])) ==
            if Fits(first) then ([first, next], None)
            else if |first| > 4194304 then ([next], None)
            else ([], Some(NotAuthentic))
  {
    hide SentStream, ReadUntilError;
    GapEndsConversation(a, counter, [first, next]);
    assert [first, next][1..] == [next] && [next][1..] == [];
    assert [first, next][0..] == [first, next] && [first, next][2..] == [];
    assert BeforeGap([next]) == [next] && Fitting([next]) == [next];
    assert BeforeGap([first, next]) == if InGap(first) then [] else [first, next];
    assert Fitting([first, next]) == if Fits(first) then [first, next] else [next];
  }
}
