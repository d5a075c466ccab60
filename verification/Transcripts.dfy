/**
 The handshake transcript: the text both signatures and session keys are bound to. Its fields are
 separated by '|', which a namespace may contain, and two transcripts follow each other with nothing
 between them; the pair of hellos can still be read back from the text. Characters stand for bytes.
 */
module Transcripts {
  import opened Tokens

  const HANDSHAKE_LABEL := "inkmail-hello-v4"
  const PROTOCOL_VERSION := 4
  const MAX_NAMESPACE_LEN := 64

  datatype Hello = Hello(
    version: int, anonymous: bool, namespace: string,
    publicKey: string, encryptionKey: string, ephemeralKey: string,
    timestamp: int)

  predicate IsDigit(c: char) {
    '0' <= c <= '9'
  }

  function Digits(n: nat): (s: string)
    ensures s != "" && forall i :: 0 <= i < |s| ==> IsDigit(s[i])
  {
    var last := [('0' as int + n % 10) as char];
    if n < 10 then last else Digits(n / 10) + last
  }

  /** %d */
  function Decimal(n: int): string {
    if n < 0 then "-" + Digits(-n) else Digits(n)
  }

  function Truth(b: bool): string {
    if b then "true" else "false"
  }

  function TranscriptBytes(h: Hello): string {
    HANDSHAKE_LABEL + "|" + Decimal(h.version) + "|" + Truth(h.anonymous) + "|" + h.namespace + "|"
    + h.publicKey + "|" + h.encryptionKey + "|" + h.ephemeralKey + "|" + Decimal(h.timestamp)
  }

  /** The shapes verifyHello checks: version, namespace length and three 32-byte keys in hexadecimal. */
  predicate WellFormed(h: Hello) {
    && h.version == PROTOCOL_VERSION
    && 0 < |h.namespace| <= MAX_NAMESPACE_LEN
    && IsToken(h.publicKey) && IsToken(h.encryptionKey) && IsToken(h.ephemeralKey)
  }

  // ---- reading decimals back ----

  function DigitValue(c: char): nat
    requires IsDigit(c)
  {
    c as int - '0' as int
  }

  function Value(s: string): nat
    requires forall i :: 0 <= i < |s| ==> IsDigit(s[i])
  {
    if s == "" then 0 else Value(s[..|s| - 1]) * 10 + DigitValue(s[|s| - 1])
  }

  lemma {:induction false} ValueOfDigits(n: nat)
    ensures Value(Digits(n)) == n
  {
    var s := Digits(n);
    if n >= 10 {
      ValueOfDigits(n / 10);
      assert s[..|s| - 1] == Digits(n / 10);
    }
  }

  predicate NoDigitFirst(x: string) {
    x != "" ==> !IsDigit(x[0])
  }

  lemma SplitEqual(a: string, x: string, b: string, y: string)
    requires a + x == b + y && |a| == |b|
    ensures a == b && x == y
  {
    assert a == (a + x)[..|a|] && b == (b + y)[..|b|];
    assert x == (a + x)[|a|..] && y == (b + y)[|b|..];
  }

  lemma DigitRunNotShorter(a: string, x: string, b: string, y: string)
    requires a + x == b + y && NoDigitFirst(x) && forall i :: 0 <= i < |b| ==> IsDigit(b[i])
    ensures |a| >= |b|
  {
    ghost var next := if x == "" then 'x' else (a + x)[|a|];
    assert !IsDigit(next);
    assert forall k :: 0 <= k < |b| ==> (b + y)[k] == b[k];
  }

  /** Runs of digits that end where a non-digit, or the text, begins. */
  lemma DigitsDetermined(m: nat, x: string, n: nat, y: string)
    requires Digits(m) + x == Digits(n) + y && NoDigitFirst(x) && NoDigitFirst(y)
    ensures m == n && x == y
  {
    DigitRunNotShorter(Digits(m), x, Digits(n), y);
    DigitRunNotShorter(Digits(n), y, Digits(m), x);
    SplitEqual(Digits(m), x, Digits(n), y);
    ValueOfDigits(m);
    ValueOfDigits(n);
  }

  lemma DecimalSign(n: int, y: string)
    ensures (Decimal(n) + y)[0] == '-' <==> n < 0
    ensures n < 0 ==> (Decimal(n) + y)[1..] == Digits(-n) + y
  {
    assert n >= 0 ==> IsDigit(Digits(n)[0]);
    assert n < 0 ==> "-" + Digits(-n) + y == "-" + (Digits(-n) + y);
  }

  lemma DecimalDetermined(m: int, x: string, n: int, y: string)
    requires Decimal(m) + x == Decimal(n) + y && NoDigitFirst(x) && NoDigitFirst(y)
    ensures m == n && x == y
  {
    DecimalSign(m, x);
    DecimalSign(n, y);
    if m < 0 {
      DigitsDetermined(-m, x, -n, y);
    } else {
      DigitsDetermined(m, x, n, y);
    }
  }

  // ---- reading a transcript back ----

  function Prelude(anonymous: bool): string {
    HANDSHAKE_LABEL + "|4|" + Truth(anonymous) + "|"
  }

  /** The fixed-width part: three keys, each after a separator, and the separator before the timestamp. */
  function Keys(h: Hello): string {
    "|" + h.publicKey + "|" + h.encryptionKey + "|" + h.ephemeralKey + "|"
  }

  lemma TranscriptParts(h: Hello)
    requires h.version == PROTOCOL_VERSION
    ensures TranscriptBytes(h) == Prelude(h.anonymous) + (h.namespace + (Keys(h) + Decimal(h.timestamp)))
  {
    assert Decimal(4) == "4";
  }

  lemma PreludeDetermined(a: bool, x: string, b: bool, y: string)
    requires Prelude(a) + x == Prelude(b) + y
    ensures a == b && x == y
  {
    var k := |HANDSHAKE_LABEL| + 3;
    assert (Prelude(a) + x)[k] == Truth(a)[0];
    assert (Prelude(b) + y)[k] == Truth(b)[0];
    SplitEqual(Prelude(a), x, Prelude(b), y);
  }

  /**
   The bound that makes namespaces unambiguous: where the longer of two namespaces ends, the other
   reading is still inside its public key, whose 64 digits hold no separator.
   */
  lemma NamespaceNotShorter(h: Hello, x: string, g: Hello, y: string)
    requires WellFormed(h) && WellFormed(g)
    requires h.namespace + (Keys(h) + x) == g.namespace + (Keys(g) + y)
    ensures |h.namespace| >= |g.namespace|
  {
    var text := h.namespace + (Keys(h) + x);
    assert (g.namespace + (Keys(g) + y))[|g.namespace|] == '|';
    assert forall k :: 0 <= k < 64 ==> text[|h.namespace| + 1 + k] == h.publicKey[k] && IsHexDigit(h.publicKey[k]);
  }

  lemma KeysDetermined(h: Hello, g: Hello)
    requires WellFormed(h) && WellFormed(g) && Keys(h) == Keys(g)
    ensures h.publicKey == g.publicKey && h.encryptionKey == g.encryptionKey && h.ephemeralKey == g.ephemeralKey
  {
    assert h.publicKey == Keys(h)[1..65] && g.publicKey == Keys(g)[1..65];
    assert h.encryptionKey == Keys(h)[66..130] && g.encryptionKey == Keys(g)[66..130];
    assert h.ephemeralKey == Keys(h)[131..195] && g.ephemeralKey == Keys(g)[131..195];
  }

  /** A transcript followed by nothing, or by something that does not start with a digit, is read one way only. */
  lemma TranscriptDetermined(h: Hello, x: string, g: Hello, y: string)
    requires WellFormed(h) && WellFormed(g) && NoDigitFirst(x) && NoDigitFirst(y)
    requires TranscriptBytes(h) + x == TranscriptBytes(g) + y
    ensures h == g && x == y
  {
    hide TranscriptBytes, Prelude, Keys, Decimal;
    TranscriptParts(h);
    TranscriptParts(g);
    var hKeys, gKeys := Keys(h) + (Decimal(h.timestamp) + x), Keys(g) + (Decimal(g.timestamp) + y);
    assert TranscriptBytes(h) + x == Prelude(h.anonymous) + (h.namespace + hKeys);
    assert TranscriptBytes(g) + y == Prelude(g.anonymous) + (g.namespace + gKeys);
    PreludeDetermined(h.anonymous, h.namespace + hKeys, g.anonymous, g.namespace + gKeys);
    NamespaceNotShorter(h, Decimal(h.timestamp) + x, g, Decimal(g.timestamp) + y);
    NamespaceNotShorter(g, Decimal(g.timestamp) + y, h, Decimal(h.timestamp) + x);
    SplitEqual(h.namespace, hKeys, g.namespace, gKeys);
    KeysWidth(h);
    KeysWidth(g);
    SplitEqual(Keys(h), Decimal(h.timestamp) + x, Keys(g), Decimal(g.timestamp) + y);
    KeysDetermined(h, g);
    DecimalDetermined(h.timestamp, x, g.timestamp, y);
  }

  lemma KeysWidth(h: Hello)
    requires WellFormed(h)
    ensures |Keys(h)| == 196
  {
  }

  /** All that follows the version. */
  function AfterVersion(h: Hello): string {
    "|" + Truth(h.anonymous) + "|" + (h.namespace + (Keys(h) + Decimal(h.timestamp)))
  }

  lemma VersionFirst(h: Hello)
    ensures TranscriptBytes(h) == "inkmail-hello-v4|" + (Decimal(h.version) + AfterVersion(h))
  {
    hide Decimal, Truth;
    assert HANDSHAKE_LABEL + "|" == "inkmail-hello-v4|";
  }

  /** A transcript starts with its own label, and the version in it is signed, too, whatever it is. */
  lemma VersionDetermined(h: Hello, g: Hello)
    requires g == h.(version := g.version)
    ensures "inkmail-hello-v4|" <= TranscriptBytes(h)
    ensures TranscriptBytes(h) == TranscriptBytes(g) ==> h == g
  {
    hide Decimal, TranscriptBytes;
    VersionFirst(h);
    VersionFirst(g);
    assert AfterVersion(h) == AfterVersion(g);
    var start := "inkmail-hello-v4|";
    if TranscriptBytes(h) == TranscriptBytes(g) {
      SplitEqual(start, Decimal(h.version) + AfterVersion(h), start, Decimal(g.version) + AfterVersion(g));
      DecimalDetermined(h.version, AfterVersion(h), g.version, AfterVersion(g));
    }
  }

  /** The text of a hello of the current version, up to its namespace. */
  lemma TranscriptBegins(h: Hello)
    requires h.version == 4
    ensures (if h.anonymous then "inkmail-hello-v4|4|true|" else "inkmail-hello-v4|4|false|") + h.namespace <=
            TranscriptBytes(h)
  {
    hide TranscriptBytes, Keys, Decimal;
    TranscriptParts(h);
    var text := Prelude(h.anonymous) + (h.namespace + (Keys(h) + Decimal(h.timestamp)));
    assert text == Prelude(h.anonymous) + h.namespace + (Keys(h) + Decimal(h.timestamp));
  }

  /** What the session keys are derived from. */
  function SessionTranscript(initiator: Hello, responder: Hello): string {
    TranscriptBytes(initiator) + TranscriptBytes(responder)
  }

  /** The initiator's transcript followed by the responder's determines both hellos. */
  lemma SessionTranscriptDetermined(i: Hello, r: Hello, i': Hello, r': Hello)
    requires WellFormed(i) && WellFormed(r) && WellFormed(i') && WellFormed(r')
    requires SessionTranscript(i, r) == SessionTranscript(i', r')
    ensures i == i' && r == r'
  {
    assert TranscriptBytes(r)[0] == 'i' && TranscriptBytes(r')[0] == 'i';
    TranscriptDetermined(i, TranscriptBytes(r), i', TranscriptBytes(r'));
    TranscriptDetermined(r, "", r', "");
  }

  /**
   Without the bound on namespaces the text would be ambiguous: a namespace long enough to hold
   separators, keys and the start of a second transcript moves the boundary between the two.
   */
  lemma LongNamespacesCollide(key: string, other: string)
    requires IsToken(key) && IsToken(other) && key != other
    ensures var i := Hello(4, true, "a", key, key, key, 1);
            var r := Hello(4, true, "b" + Keys(i) + "2" + Prelude(true) + "c", other, other, other, 3);
            var i' := Hello(4, true, "a" + Keys(i) + "1" + Prelude(true) + "b", key, key, key, 2);
            var r' := Hello(4, true, "c", other, other, other, 3);
            && SessionTranscript(i, r) == SessionTranscript(i', r')
            && i != i' && |i'.namespace| > MAX_NAMESPACE_LEN
  {
    hide TranscriptBytes, Prelude, Keys;
    var i := Hello(4, true, "a", key, key, key, 1);
    var r := Hello(4, true, "b" + Keys(i) + "2" + Prelude(true) + "c", other, other, other, 3);
    var i' := Hello(4, true, "a" + Keys(i) + "1" + Prelude(true) + "b", key, key, key, 2);
    var r' := Hello(4, true, "c", other, other, other, 3);
    TranscriptParts(i);
    TranscriptParts(r);
    TranscriptParts(i');
    TranscriptParts(r');
    assert Keys(i) == Keys(i') && Keys(r) == Keys(r') by {
      KeysDependOnKeys(i, i');
      KeysDependOnKeys(r, r');
    }
    KeysWidth(i.(namespace := "a"));
    Regroup(Prelude(true), Keys(i), Keys(r) + Decimal(3));
  }

  lemma KeysDependOnKeys(h: Hello, g: Hello)
    requires h.publicKey == g.publicKey && h.encryptionKey == g.encryptionKey && h.ephemeralKey == g.ephemeralKey
    ensures Keys(h) == Keys(g)
  {
  }

  /** The same text grouped as two transcripts in two ways. */
  lemma Regroup(p: string, k: string, tail: string)
    ensures (p + ("a" + (k + Decimal(1)))) + (p + (("b" + k + "2" + p + "c") + tail)) ==
            (p + (("a" + k + "1" + p + "b") + (k + Decimal(2)))) + (p + ("c" + tail))
  {
    assert Decimal(1) == "1" && Decimal(2) == "2";
  }
}
