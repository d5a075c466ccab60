/** Padding of mailbox payloads to 64 KiB size classes with a length trailer. */
module Padding {
  import opened Wrappers
  import opened ByteStrings

  const MAILBOX_PADDING_SIZE := 64 * 1024
  const MAX_MAILBOX_PAYLOAD := 4 * 1024 * 1024

  function TargetSize(n: nat): nat {
    ((n + 4 + MAILBOX_PADDING_SIZE - 1) / MAILBOX_PADDING_SIZE) * MAILBOX_PADDING_SIZE
  }

  /** padded is payload, then any filler at all, then the length of payload. */
  ghost predicate IsPadded(payload: Bytes, padded: Bytes) {
    && |padded| == TargetSize(|payload|) >= |payload| + 4
    && padded[..|payload|] == payload
    && padded[|padded| - 4..] == BigEndian(|payload|, 4)
  }

  /** The padded size is the least multiple of the size class that fits payload and trailer. */
  lemma TargetIsLeast(n: nat, m: nat)
    ensures TargetSize(n) % 65536 == 0 && TargetSize(n) >= n + 4
    ensures m % 65536 == 0 && m >= n + 4 ==> TargetSize(n) <= m
    ensures n + 4 <= 4194304 <==> TargetSize(n) <= 4194304
  {
  }

  /** filler stands for the random bytes; nothing is required of them. */
  method PadMailboxPayload(payload: Bytes, filler: nat -> Byte) returns (r: Option<Bytes>)
    ensures r.None? <==> |payload| + 4 > 4194304
    ensures r.Some? ==> IsPadded(payload, r.value)
  {
    if |payload| + 4 > MAX_MAILBOX_PAYLOAD {
      return None;
    }
    TargetIsLeast(|payload|, 0);
    var target := TargetSize(|payload|);
    var padded := new Byte[target](_ => 0);
    for i := 0 to |payload|
      invariant padded[..i] == payload[..i]
    {
      padded[i] := payload[i];
    }
    for i := |payload| to target - 4
      invariant padded[..|payload|] == payload
    {
      padded[i] := filler(i);
    }
    var trailer := BigEndian(|payload|, 4);
    for i := 0 to 4
      invariant padded[..|payload|] == payload
      invariant padded[target - 4..target - 4 + i] == trailer[..i]
    {
      padded[target - 4 + i] := trailer[i];
    }
    assert padded[target - 4..] == padded[target - 4..target] == trailer[..4] == trailer;
    r := Some(padded[..]);
  }

  function UnpadMailboxPayload(padded: Bytes): (r: Option<Bytes>)
    ensures r.Some? ==> r.value != [] && r.value <= padded
  {
    if |padded| < 4 || |padded| > MAX_MAILBOX_PAYLOAD || |padded| % MAILBOX_PADDING_SIZE != 0 then None
    else
      var size := FromBigEndian(padded[|padded| - 4..]);
      if size <= 0 || size > |padded| - 4 then None else Some(padded[..size])
  }

  /** Unpadding gives back exactly the payload, whatever the filler, unless the payload was empty. */
  lemma UnpadUndoesPad(payload: Bytes, padded: Bytes)
    requires |payload| + 4 <= MAX_MAILBOX_PAYLOAD && IsPadded(payload, padded)
    ensures UnpadMailboxPayload(padded) == if payload == [] then None else Some(payload)
  {
    TargetIsLeast(|payload|, 0);
    Pow256Values();
    BigEndianRoundTrip(|payload|, 4);
  }
}
