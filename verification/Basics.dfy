/** Result types shared by the modules of this project. */
module Wrappers {

  datatype Option<+T> = None | Some(value: T)

  datatype Result<+T, +E> = Ok(value: T) | Err(error: E)

  function Lookup<V>(m: map<string, V>, key: string): Option<V> {
    if key in m then Some(m[key]) else None
  }
}

/** Byte strings and the big-endian integers that the wire formats use. */
module ByteStrings {

  type Byte = x: int | 0 <= x < 256

  type Bytes = seq<Byte>

  const TWO_TO_THE_32 := 0x1_0000_0000
  const TWO_TO_THE_64 := 0x1_0000_0000_0000_0000

  /** The `width`-byte big-endian form of n (binary.BigEndian.PutUint32 and PutUint64). */
  function BigEndian(n: nat, width: nat): (bs: Bytes)
    ensures |bs| == width
  {
    if width == 0 then [] else BigEndian(n / 256, width - 1) + [n % 256]
  }

  function FromBigEndian(bs: Bytes): (n: nat)
  {
    if bs == [] then 0 else FromBigEndian(bs[..|bs| - 1]) * 256 + bs[|bs| - 1]
  }

  function Pow256(width: nat): (p: nat)
    ensures p > 0
  {
    if width == 0 then 1 else 256 * Pow256(width - 1)
  }

  lemma {:induction false} BigEndianRoundTrip(n: nat, width: nat)
    requires n < Pow256(width)
    ensures FromBigEndian(BigEndian(n, width)) == n
  {
    if width > 0 {
      var bs := BigEndian(n, width);
      assert bs[..width - 1] == BigEndian(n / 256, width - 1);
      BigEndianRoundTrip(n / 256, width - 1);
    }
  }

  lemma Pow256Values()
    ensures Pow256(4) == TWO_TO_THE_32
    ensures Pow256(8) == TWO_TO_THE_64
  {
    assert Pow256(2) == 65536;
    assert Pow256(4) == 65536 * 65536;
    assert Pow256(6) == 65536 * 65536 * 65536;
  }
}

/** Envelope and mailbox identifiers: 32 random bytes as hexadecimal digits of either case. */
module Tokens {
  import opened Wrappers
  import opened ByteStrings

  predicate IsHexDigit(c: char) {
    '0' <= c <= '9' || 'a' <= c <= 'f' || 'A' <= c <= 'F'
  }

  /** validateOpaqueToken: exactly 32 bytes in hexadecimal, with no space around them. */
  predicate IsToken(s: string) {
    |s| == 64 && forall i :: 0 <= i < |s| ==> IsHexDigit(s[i])
  }

  function HexValue(c: char): (n: nat)
    requires IsHexDigit(c)
    ensures n < 16
  {
    if c <= '9' then c as int - '0' as int
    else if 'a' <= c then c as int - 'a' as int + 10
    else c as int - 'A' as int + 10
  }

  /** hex.DecodeString: two digits a byte. */
  function DecodeHex(s: string): Option<Bytes> {
    if s == "" then Some([])
    else if |s| == 1 || !IsHexDigit(s[0]) || !IsHexDigit(s[1]) then None
    else match DecodeHex(s[2..])
      case None => None
      case Some(rest) => Some([HexValue(s[0]) * 16 + HexValue(s[1])] + rest)
  }

  lemma {:induction false} HexDecodes(s: string)
    ensures DecodeHex(s).Some? <==> |s| % 2 == 0 && forall i :: 0 <= i < |s| ==> IsHexDigit(s[i])
    ensures DecodeHex(s).Some? ==> |DecodeHex(s).value| == |s| / 2
  {
    if |s| > 1 {
      HexDecodes(s[2..]);
      assert forall i :: 2 <= i < |s| ==> s[i] == s[2..][i - 2];
    }
  }

  /** A token is what decodes to exactly 32 bytes. */
  lemma TokensDecode(s: string)
    ensures IsToken(s) <==> DecodeHex(s).Some? && |DecodeHex(s).value| == 32
  {
    HexDecodes(s);
  }

  predicate IsSpace(c: char) {
    c == ' ' || '\t' <= c <= '\r'
  }

  predicate Blank(s: string) {
    forall i :: 0 <= i < |s| ==> IsSpace(s[i])
  }

  /** strings.TrimSpace over ASCII space. */
  function Trim(s: string): (t: string)
    ensures Blank(s) <==> t == ""
    ensures !Blank(s) ==> !IsSpace(t[0]) && !IsSpace(t[|t| - 1])
  {
    if s == "" then ""
    else if IsSpace(s[0]) then Trim(s[1..])
    else if IsSpace(s[|s| - 1]) then Trim(s[..|s| - 1])
    else s
  }

  /** Trimming takes away space at both ends and nothing else. */
  lemma {:induction false} TrimTakesSpace(s: string) returns (before: string, after: string)
    ensures s == before + Trim(s) + after && Blank(before) && Blank(after)
  {
    if s == "" {
      before, after := "", "";
    } else if IsSpace(s[0]) {
      before, after := TrimTakesSpace(s[1..]);
      before := [s[0]] + before;
    } else if IsSpace(s[|s| - 1]) {
      before, after := TrimTakesSpace(s[..|s| - 1]);
      after := after + [s[|s| - 1]];
    } else {
      before, after := "", "";
    }
  }

  function Lower(s: string): (t: string)
    ensures |t| == |s|
  {
    seq(|s|, i requires 0 <= i < |s| => if 'A' <= s[i] <= 'Z' then s[i] + 32 as char else s[i])
  }

  /** strings.EqualFold on the ASCII strings that mailbox identifiers are. */
  predicate EqualFold(a: string, b: string) {
    Lower(a) == Lower(b)
  }

  /** The same character, or the two cases of one letter. */
  predicate SameLetter(c: char, d: char) {
    || c == d
    || ('A' <= c <= 'Z' && d as int == c as int + 32)
    || ('A' <= d <= 'Z' && c as int == d as int + 32)
  }

  lemma EqualFoldsLetters(a: string, b: string)
    ensures EqualFold(a, b) <==> |a| == |b| && forall i :: 0 <= i < |a| ==> i < |b| && SameLetter(a[i], b[i])
  {
    if EqualFold(a, b) {
      forall i | 0 <= i < |a| ensures SameLetter(a[i], b[i]) {
        assert Lower(a)[i] == Lower(b)[i];
      }
    }
  }
}

/** Runs of operations, each at the time its clock then shows. */
module Timelines {

  datatype Timed<Op> = Timed(op: Op, now: int)

  predicate Timely<Op>(start: int, es: seq<Timed<Op>>) {
    && (forall i :: 0 <= i < |es| ==> start <= es[i].now)
    && (forall i, j :: 0 <= i < j < |es| ==> es[i].now <= es[j].now)
  }

  function ClockAt<Op>(start: int, es: seq<Timed<Op>>, i: nat): int
    requires i <= |es|
  {
    if i == 0 then start else es[i - 1].now
  }
}

/** Sums over finite maps, for the `SUM(length(...))` queries of the store. */
module Sums {

  /** The sum of the values of a map, in whatever order its keys are taken. */
  ghost function Sum(m: map<string, nat>): nat
  {
    if m == map[] then 0
    else
      var k :| k in m;
      m[k] + Sum(m - {k})
  }

  /** The sum does not depend on the key that is taken out first. */
  lemma {:induction false} SumRemove(m: map<string, nat>, k: string)
    requires k in m
    ensures Sum(m) == m[k] + Sum(m - {k})
    decreases |m|
  {
    var c :| c in m && Sum(m) == m[c] + Sum(m - {c});
    if c != k {
      SumRemove(m - {c}, k);
      SumRemove(m - {k}, c);
      assert m - {c} - {k} == m - {k} - {c};
    }
  }

  lemma SumInsert(m: map<string, nat>, k: string, n: nat)
    requires k !in m
    ensures Sum(m[k := n]) == Sum(m) + n
  {
    SumRemove(m[k := n], k);
    assert m[k := n] - {k} == m;
  }

  /** A part of a map sums to no more than the whole map. */
  lemma {:induction false} SumMonotone(part: map<string, nat>, whole: map<string, nat>)
    requires part.Keys <= whole.Keys
    requires forall k :: k in part ==> part[k] <= whole[k]
    ensures Sum(part) <= Sum(whole)
    decreases |whole|
  {
    if k :| k in part {
      SumRemove(part, k);
      SumRemove(whole, k);
      SumMonotone(part - {k}, whole - {k});
    }
  }

  lemma CardinalityMonotone<V>(part: map<string, V>, whole: map<string, V>)
    requires part.Keys <= whole.Keys
    ensures |part| <= |whole|
  {
    SubsetCardinality(part.Keys, whole.Keys);
    assert |part.Keys| == |part| && |whole.Keys| == |whole|;
  }

  lemma {:induction false} SubsetCardinality<T>(a: set<T>, b: set<T>)
    requires a <= b
    ensures |a| <= |b|
    decreases |b|
  {
    if x :| x in a {
      SubsetCardinality(a - {x}, b - {x});
    }
  }
}

/** Listing the oldest rows of a table first (ORDER BY stored_at LIMIT), given the time each row was stored. */
module Ages {

  predicate Distinct(ids: seq<string>) {
    forall i, j :: 0 <= i < j < |ids| ==> ids[i] != ids[j]
  }

  /** ids are rows in order of storage, and no row left out is older than one that is in. */
  ghost predicate OldestPrefix(ids: seq<string>, times: map<string, int>) {
    && Distinct(ids)
    && (forall id :: id in ids ==> id in times)
    && (forall i, j :: 0 <= i < j < |ids| ==> times[ids[i]] <= times[ids[j]])
    && (forall id, other :: id in ids && other in times && other !in ids ==> times[id] <= times[other])
  }

  lemma {:induction false} OldestExists(times: map<string, int>, among: set<string>)
    requires among <= times.Keys && among != {}
    ensures exists id :: id in among && forall other :: other in among ==> times[id] <= times[other]
  {
    var some :| some in among;
    if among != {some} {
      OldestExists(times, among - {some});
      var id :| id in among - {some} && forall other :: other in among - {some} ==> times[id] <= times[other];
      var oldest := if times[some] < times[id] then some else id;
      assert forall other :: other in among ==> other == some || other in among - {some};
      assert oldest in among && forall other :: other in among ==> times[oldest] <= times[other];
    }
  }

  lemma OldestPrefixCut(ids: seq<string>, taken: nat, times: map<string, int>)
    requires OldestPrefix(ids, times) && taken <= |ids|
    ensures OldestPrefix(ids[..taken], times)
    ensures taken < |ids| ==> ids[taken] !in ids[..taken]
  {
    var cut := ids[..taken];
    forall id, other | id in cut && other in times && other !in cut ensures times[id] <= times[other] {
      var i :| 0 <= i < taken && ids[i] == id;
      if other in ids {
        var k :| 0 <= k < |ids| && ids[k] == other;
        assert forall n :: 0 <= n < taken ==> ids[n] == cut[n] && cut[n] in cut;
      }
    }
  }

  /** The oldest rows, as many as the limit allows; ties are broken in any way. */
  method OldestFirst(times: map<string, int>, limit: nat) returns (ids: seq<string>)
    ensures OldestPrefix(ids, times)
    ensures |ids| <= limit && (|ids| < limit ==> forall id :: id in times ==> id in ids)
  {
    ids := [];
    var rest := times.Keys;
    while rest != {} && |ids| < limit
      invariant OldestPrefix(ids, times) && |ids| <= limit && rest <= times.Keys
      invariant forall id :: id in times ==> (id in ids <==> id !in rest)
      decreases |rest|
    {
      OldestExists(times, rest);
      var id :| id in rest && forall other :: other in rest ==> times[id] <= times[other];
      ids := ids + [id];
      rest := rest - {id};
    }
  }
}
