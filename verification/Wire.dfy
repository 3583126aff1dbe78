/** Byte formats of offset-sync, checkpoint and heartbeat keys. */
module Wire {
  import opened Machine
  import opened SyncStore

  // ---------------------------------------------------------------- fixed-width integers

  function Pow256(n: nat): (p: nat)
    ensures p > 0
  {
    if n == 0 then 1 else 256 * Pow256(n - 1)
  }

  /** The low n bytes of v, most significant first. */
  function Big(v: nat, n: nat): (bs: seq<byte>)
    ensures |bs| == n
  {
    if n == 0 then [] else Big(v / 256, n - 1) + [v % 256]
  }

  function UnBig(bs: seq<byte>): nat {
    if bs == [] then 0 else 256 * UnBig(bs[..|bs| - 1]) + bs[|bs| - 1]
  }

  /** Two's complement at a width of n bytes. */
  function Unsigned(v: int, n: nat): int {
    if v < 0 then v + Pow256(n) else v
  }

  function Signed(u: int, n: nat): int {
    if 2 * u >= Pow256(n) then u - Pow256(n) else u
  }

  lemma Widths()
    ensures Pow256(2) == 0x1_0000 && Pow256(4) == 0x1_0000_0000 && Pow256(8) == TWO_64
  {
    assert Pow256(2) == 0x1_0000;
    assert Pow256(4) == 0x1_0000 * Pow256(2);
    assert Pow256(6) == 0x1_0000 * Pow256(4);
    assert Pow256(8) == 0x1_0000 * Pow256(6);
  }

  lemma {:induction false} BigRound(v: nat, n: nat)
    requires v < Pow256(n)
    ensures UnBig(Big(v, n)) == v
  {
    if n > 0 {
      BigRound(v / 256, n - 1);
      assert Big(v, n)[..n - 1] == Big(v / 256, n - 1);
    }
  }

  lemma {:induction false} UnBigRound(bs: seq<byte>)
    ensures UnBig(bs) < Pow256(|bs|) && Big(UnBig(bs), |bs|) == bs
  {
    if bs != [] {
      UnBigRound(bs[..|bs| - 1]);
      assert bs == bs[..|bs| - 1] + [bs[|bs| - 1]];
    }
  }

  /** A signed integer of n bytes survives being written and read. */
  lemma SignedRound(v: int, n: nat)
    requires 0 <= 2 * v + Pow256(n) && 2 * v < Pow256(n)
    ensures 0 <= Unsigned(v, n) && Signed(UnBig(Big(Unsigned(v, n), n)), n) == v
  {
    BigRound(Unsigned(v, n), n);
  }

  lemma UnsignedRound(bs: seq<byte>)
    ensures 0 <= 2 * Signed(UnBig(bs), |bs|) + Pow256(|bs|) && 2 * Signed(UnBig(bs), |bs|) < Pow256(|bs|)
    ensures Unsigned(Signed(UnBig(bs), |bs|), |bs|) >= 0
    ensures Big(Unsigned(Signed(UnBig(bs), |bs|), |bs|), |bs|) == bs
  {
    UnBigRound(bs);
    hide Big, UnBig, Pow256;
  }

  lemma Int32Fits(v: int32)
    ensures 0 <= 2 * v + Pow256(4) && 2 * v < Pow256(4)
  {
    Widths();
  }

  lemma Int64Fits(v: int64)
    ensures 0 <= 2 * v + Pow256(8) && 2 * v < Pow256(8)
  {
    Widths();
  }

  function Int32Bytes(v: int32): (bs: seq<byte>)
    ensures |bs| == 4
  {
    Int32Fits(v);
    Big(Unsigned(v, 4), 4)
  }

  function Int64Bytes(v: int64): (bs: seq<byte>)
    ensures |bs| == 8
  {
    Int64Fits(v);
    Big(Unsigned(v, 8), 8)
  }

  function ReadInt32(bs: seq<byte>): int32
    requires |bs| == 4
  {
    UnsignedRound(bs);
    Widths();
    Signed(UnBig(bs), 4)
  }

  function ReadInt64(bs: seq<byte>): int64
    requires |bs| == 8
  {
    UnsignedRound(bs);
    Widths();
    Signed(UnBig(bs), 8)
  }

  lemma IntsRound(p: int32, v: int64, ps: seq<byte>, vs: seq<byte>)
    requires |ps| == 4 && |vs| == 8
    ensures ReadInt32(Int32Bytes(p)) == p && ReadInt64(Int64Bytes(v)) == v
    ensures Int32Bytes(ReadInt32(ps)) == ps && Int64Bytes(ReadInt64(vs)) == vs
  {
    Int32Fits(p);
    Int64Fits(v);
    SignedRound(p, 4);
    SignedRound(v, 8);
    UnsignedRound(ps);
    UnsignedRound(vs);
  }

  // ---------------------------------------------------------------- formats

  /** The uint16 length that precedes a string; longer strings keep only their length modulo 2^16. */
  function LengthBytes(s: seq<byte>): (bs: seq<byte>)
    ensures |bs| == 2
  {
    Big(|s| % 0x1_0000, 2)
  }

  function KeyBytes(tp: TopicPartition): seq<byte> {
    LengthBytes(tp.topic) + tp.topic + Int32Bytes(tp.partition)
  }

  function ValueBytes(sync: OffsetSync): seq<byte> {
    Int64Bytes(sync.upstream) + Int64Bytes(sync.downstream)
  }

  function CheckpointKeyBytes(group: seq<byte>, tp: TopicPartition): seq<byte> {
    LengthBytes(group) + group + KeyBytes(tp)
  }

  function HeartbeatKeyBytes(source: seq<byte>, target: seq<byte>): seq<byte> {
    LengthBytes(source) + source + LengthBytes(target) + target
  }

  // ---------------------------------------------------------------- byte order

  /** Big-endian: byte i of n carries the digit of 256^(n-1-i). */
  lemma {:induction false} BigEndian(v: nat, n: nat, i: nat)
    requires i < n
    ensures Big(v, n)[i] == v / Pow256(n - 1 - i) % 256
  {
    if i < n - 1 {
      BigEndian(v / 256, n - 1, i);
      DivDiv(v, Pow256(n - 2 - i));
    }
  }

  lemma DivDiv(v: nat, p: nat)
    requires p > 0
    ensures v / 256 / p == v / (256 * p)
  {
    var q := v / 256 / p;
    DivMod(v / 256, p);
    DivMod(v, 256);
    var r := v % 256 + 256 * (v / 256 % p);
    assert v == q * (256 * p) + r && 0 <= r < 256 * p;
    DivMod(v, 256 * p);
    var k := v / (256 * p) - q;
    assert k * (256 * p) == r - v % (256 * p);
    MulApart(k, 256 * p);
  }

  /** The sixteen bits of the length, high byte first. */
  lemma LengthLayout(s: seq<byte>)
    ensures LengthBytes(s) == [|s| / 256 % 256, |s| % 256]
  {
    var v := |s| % 0x1_0000;
    BigEndian(v, 2, 0);
    BigEndian(v, 2, 1);
    assert Pow256(1) == 256 && Pow256(0) == 1;
    Halves(|s|);
  }

  lemma Halves(n: nat)
    ensures n % 0x1_0000 / 256 % 256 == n / 256 % 256 && n % 0x1_0000 % 256 == n % 256
  {
    var r, k := n % 0x1_0000, n / 0x1_0000;
    DivMod(n, 0x1_0000);
    assert n == r + (k * 256) * 256;
    MoreTurns(r, k * 256, 256);
  }

  lemma MoreTurns(v: int, n: int, d: int)
    requires d > 0
    ensures (v + n * d) / d == v / d + n
  {
    var q := (v + n * d) / d;
    DivMod(v + n * d, d);
    DivMod(v, d);
    assert (q - n - v / d) * d == v % d - (v + n * d) % d;
    MulApart(q - n - v / d, d);
  }

  lemma {:induction false} Pow256Join(i: nat, j: nat)
    ensures Pow256(i + j) == Pow256(i) * Pow256(j)
  {
    if i > 0 {
      Pow256Join(i - 1, j);
      assert 256 * (Pow256(i - 1) * Pow256(j)) == 256 * Pow256(i - 1) * Pow256(j);
    }
  }

  /** Two's complement, most significant byte first. */
  lemma SignedLayout(v: int, n: nat, i: nat)
    requires i < n && Unsigned(v, n) >= 0
    ensures Big(Unsigned(v, n), n)[i] == v / Pow256(n - 1 - i) % 256
  {
    var d := Pow256(n - 1 - i);
    BigEndian(Unsigned(v, n), n, i);
    if v < 0 {
      Pow256Join(i + 1, n - 1 - i);
      MoreTurns(v, Pow256(i + 1), d);
      assert Pow256(i + 1) == 256 * Pow256(i);
      DivMod(v / d, 256);
      ModUnique(v / d + 256 * Pow256(i), 256, v / d / 256 + Pow256(i), v / d % 256);
    }
  }

  lemma IntLayout(p: int32, v: int64)
    ensures forall i :: 0 <= i < 4 ==> Int32Bytes(p)[i] == p / Pow256(3 - i) % 256
    ensures forall i :: 0 <= i < 8 ==> Int64Bytes(v)[i] == v / Pow256(7 - i) % 256
  {
    Int32Fits(p);
    Int64Fits(v);
    hide Big, Pow256;
    forall i | 0 <= i < 4
      ensures Int32Bytes(p)[i] == p / Pow256(3 - i) % 256
    {
      SignedLayout(p, 4, i);
    }
    forall i | 0 <= i < 8
      ensures Int64Bytes(v)[i] == v / Pow256(7 - i) % 256
    {
      SignedLayout(v, 8, i);
    }
  }

  /** An offset-sync value: byte by byte the upstream offset, then the downstream offset. */
  lemma ValueLayout(sync: OffsetSync, i: nat)
    requires i < 8
    ensures |ValueBytes(sync)| == 16
    ensures ValueBytes(sync)[i] == sync.upstream / Pow256(7 - i) % 256
    ensures ValueBytes(sync)[8 + i] == sync.downstream / Pow256(7 - i) % 256
  {
    IntLayout(0, sync.upstream);
    IntLayout(0, sync.downstream);
  }

  /** Keys: each string after its length in two bytes, high byte first; a partition as four bytes, most
      significant first. */
  lemma KeyLayouts(g: seq<byte>, tp: TopicPartition, ps: seq<byte>)
    requires |ps| == 4 && forall i :: 0 <= i < 4 ==> ps[i] == tp.partition / Pow256(3 - i) % 256
    ensures var t := tp.topic;
            && KeyBytes(tp) == [|t| / 256 % 256, |t| % 256] + t + ps
            && CheckpointKeyBytes(g, tp) ==
                 [|g| / 256 % 256, |g| % 256] + g + [|t| / 256 % 256, |t| % 256] + t + ps
            && HeartbeatKeyBytes(g, t) == [|g| / 256 % 256, |g| % 256] + g + [|t| / 256 % 256, |t| % 256] + t
  {
    var t := tp.topic;
    IntLayout(tp.partition, 0);
    assert ps == Int32Bytes(tp.partition);
    LengthLayout(g);
    LengthLayout(t);
    hide Int32Bytes, LengthBytes, Pow256;
    assert LengthBytes(g) + g + (LengthBytes(t) + t + ps) == LengthBytes(g) + g + LengthBytes(t) + t + ps;
  }

  // ---------------------------------------------------------------- the serializers

  /** Writes at the moving offset of a buffer that is filled from the front. */
  method Put(buf: array<byte>, off: nat, bs: seq<byte>) returns (next: nat)
    requires off + |bs| <= buf.Length
    modifies buf
    ensures next == off + |bs| && buf[..next] == old(buf[..off]) + bs
  {
    forall i | 0 <= i < |bs| {
      buf[off + i] := bs[i];
    }
    next := off + |bs|;
  }

  method SerializeKey(sync: OffsetSync) returns (buf: array<byte>)
    ensures fresh(buf) && buf[..] == KeyBytes(sync.tp)
  {
    var topic := sync.tp.topic;
    buf := new byte[2 + |topic| + 4](_ => 0);
    var off := Put(buf, 0, LengthBytes(topic));
    off := Put(buf, off, topic);
    off := Put(buf, off, Int32Bytes(sync.tp.partition));
    assert buf[..off] == buf[..];
  }

  method SerializeValue(sync: OffsetSync) returns (buf: array<byte>)
    ensures fresh(buf) && buf[..] == ValueBytes(sync)
  {
    buf := new byte[16](_ => 0);
    var off := Put(buf, 0, Int64Bytes(sync.upstream));
    off := Put(buf, off, Int64Bytes(sync.downstream));
    assert buf[..off] == buf[..];
  }

  method SerializeCheckpointKey(group: seq<byte>, tp: TopicPartition) returns (buf: array<byte>)
    ensures fresh(buf) && buf[..] == CheckpointKeyBytes(group, tp)
  {
    var topic := tp.topic;
    buf := new byte[2 + |group| + 2 + |topic| + 4](_ => 0);
    var off := Put(buf, 0, LengthBytes(group));
    off := Put(buf, off, group);
    off := Put(buf, off, LengthBytes(topic));
    off := Put(buf, off, topic);
    off := Put(buf, off, Int32Bytes(tp.partition));
    assert buf[..off] == buf[..];
    assert LengthBytes(group) + group + LengthBytes(topic) + topic + Int32Bytes(tp.partition)
        == CheckpointKeyBytes(group, tp);
  }

  method SerializeHeartbeatKey(source: seq<byte>, target: seq<byte>) returns (buf: array<byte>)
    ensures fresh(buf) && buf[..] == HeartbeatKeyBytes(source, target)
  {
    buf := new byte[2 + |source| + 2 + |target|](_ => 0);
    var off := Put(buf, 0, LengthBytes(source));
    off := Put(buf, off, source);
    off := Put(buf, off, LengthBytes(target));
    off := Put(buf, off, target);
    assert buf[..off] == buf[..];
  }

  // ---------------------------------------------------------------- reading back

  /** Panic is a slice expression whose bounds are out of order. */
  datatype Decoded = Ok(sync: OffsetSync) | KeyTooShort | LengthMismatch | ValueTooShort | Panic

  function Deserialize(key: seq<byte>, value: seq<byte>): Decoded {
    if |key| < 6 then KeyTooShort
    else
      var topicLen := UnBig(key[..2]);
      if topicLen + 6 > |key| then LengthMismatch
      else
        var high := (2 + topicLen) % 0x1_0000;  // uint16 arithmetic
        if high < 2 then Panic
        else
          var topic := key[2..high];
          var partition := ReadInt32(key[high..high + 4]);
          if |value| < 16 then ValueTooShort
          else
            Ok(OffsetSync(TopicPartition(topic, partition), ReadInt64(value[..8]), ReadInt64(value[8..16])))
  }

  lemma LengthRound(s: seq<byte>)
    ensures UnBig(LengthBytes(s)) == |s| % 0x1_0000
  {
    Widths();
    BigRound(|s| % 0x1_0000, 2);
  }

  /** What the reader makes of any bytes: a key is too short below six bytes or below what its length
      announces, panics at the two lengths that wrap, and otherwise the value needs sixteen bytes. */
  lemma ReaderExact(key: seq<byte>, value: seq<byte>)
    ensures Deserialize(key, value) == KeyTooShort <==> |key| < 6
    ensures |key| >= 6 ==>
      var n := 256 * (key[0] as int) + key[1] as int;
      && (Deserialize(key, value) == LengthMismatch <==> n + 6 > |key|)
      && (Deserialize(key, value) == Panic <==> n + 6 <= |key| && n >= 65534)
      && (Deserialize(key, value) == ValueTooShort <==> n + 6 <= |key| && n <= 65533 && |value| < 16)
  {
    if |key| >= 6 {
      var bs := key[..2];
      assert UnBig(bs[..1][..0]) == 0;
      assert UnBig(bs[..1]) == bs[0];
      assert UnBig(bs) == 256 * (key[0] as int) + key[1] as int;
    }
  }

  /** Reading a written sync gives it back if and only if its topic has at most 65533 bytes. */
  lemma RoundTripIff(sync: OffsetSync)
    ensures Deserialize(KeyBytes(sync.tp), ValueBytes(sync)) == Ok(sync) <==> |sync.tp.topic| <= 65533
  {
    hide Big, UnBig, Pow256, ReadInt32, ReadInt64, Int32Bytes, Int64Bytes;
    var key, value, topic := KeyBytes(sync.tp), ValueBytes(sync), sync.tp.topic;
    LengthRound(topic);
    assert key[..2] == LengthBytes(topic);
    assert value[..8] == Int64Bytes(sync.upstream) && value[8..16] == Int64Bytes(sync.downstream);
    IntsRound(sync.tp.partition, sync.upstream, [0, 0, 0, 0], value[..8]);
    IntsRound(sync.tp.partition, sync.downstream, [0, 0, 0, 0], value[..8]);
    if |topic| <= 65533 {
      assert key[2..2 + |topic|] == topic;
      assert key[2 + |topic|..2 + |topic| + 4] == Int32Bytes(sync.tp.partition);
    }
  }

  /** Topics of 65534 and 65535 bytes make the reader panic. */
  lemma LongTopicPanics(sync: OffsetSync)
    requires 65534 <= |sync.tp.topic| <= 65535
    ensures Deserialize(KeyBytes(sync.tp), ValueBytes(sync)) == Panic
  {
    LengthRound(sync.tp.topic);
    assert KeyBytes(sync.tp)[..2] == LengthBytes(sync.tp.topic);
  }

  /** Whatever bytes are read as a sync, writing that sync gives the same bytes back, up to trailing
      bytes the reader ignores. */
  lemma DecodeEncode(key: seq<byte>, value: seq<byte>)
    requires Deserialize(key, value).Ok?
    ensures var sync := Deserialize(key, value).sync;
            && |sync.tp.topic| + 6 <= |key| && KeyBytes(sync.tp) == key[..|sync.tp.topic| + 6]
            && ValueBytes(sync) == value[..16]
  {
    hide Big, Pow256, ReadInt32, ReadInt64, Int32Bytes, Int64Bytes;
    var n := UnBig(key[..2]);
    UnBigRound(key[..2]);
    Widths();
    var sync := Deserialize(key, value).sync;
    IntsRound(0, 0, key[2 + n..2 + n + 4], value[..8]);
    IntsRound(0, 0, key[2 + n..2 + n + 4], value[8..16]);
    assert |sync.tp.topic| == n && LengthBytes(sync.tp.topic) == key[..2];
    assert key[..n + 6] == key[..2] + key[2..2 + n] + key[2 + n..2 + n + 4];
    assert value[..16] == value[..8] + value[8..16];
  }

  // ---------------------------------------------------------------- keys identify

  /** Offset-sync keys are injective for topics of any length. */
  lemma KeyInjective(a: TopicPartition, b: TopicPartition)
    requires KeyBytes(a) == KeyBytes(b)
    ensures a == b
  {
    var k := KeyBytes(a);
    assert |k| == 6 + |a.topic| == 6 + |b.topic|;
    assert k[2..2 + |a.topic|] == a.topic && k[2..2 + |b.topic|] == b.topic;
    assert k[2 + |a.topic|..] == Int32Bytes(a.partition) && k[2 + |b.topic|..] == Int32Bytes(b.partition);
    IntsRound(a.partition, 0, [0, 0, 0, 0], [0, 0, 0, 0, 0, 0, 0, 0]);
    IntsRound(b.partition, 0, [0, 0, 0, 0], [0, 0, 0, 0, 0, 0, 0, 0]);
  }

  /** A length-prefixed string followed by anything determines both, unless two lengths differ by a
      multiple of 2^16. */
  lemma PrefixInjective(s: seq<byte>, x: seq<byte>, t: seq<byte>, y: seq<byte>)
    requires LengthBytes(s) + s + x == LengthBytes(t) + t + y
    ensures |s| % 0x1_0000 == |t| % 0x1_0000
    ensures |s| == |t| ==> s == t && x == y
  {
    var k := LengthBytes(s) + s + x;
    LengthRound(s);
    LengthRound(t);
    assert k[..2] == LengthBytes(s) && k[..2] == LengthBytes(t);
    if |s| == |t| {
      assert k[2..2 + |s|] == s && k[2..2 + |t|] == t;
      assert k[2 + |s|..] == x && k[2 + |t|..] == y;
    }
  }

  /** Checkpoint keys are injective as long as the group fits its 16-bit length. */
  lemma CheckpointKeyInjective(g: seq<byte>, a: TopicPartition, h: seq<byte>, b: TopicPartition)
    requires CheckpointKeyBytes(g, a) == CheckpointKeyBytes(h, b)
    ensures |g| < 0x1_0000 && |h| < 0x1_0000 ==> g == h && a == b
    ensures |g| == |h| ==> g == h && a == b
  {
    PrefixInjective(g, KeyBytes(a), h, KeyBytes(b));
    if |g| == |h| {
      KeyInjective(a, b);
    }
  }

  /** Heartbeat keys are injective as long as the source alias fits its 16-bit length. */
  lemma HeartbeatKeyInjective(s: seq<byte>, t: seq<byte>, s': seq<byte>, t': seq<byte>)
    requires HeartbeatKeyBytes(s, t) == HeartbeatKeyBytes(s', t')
    ensures |s| < 0x1_0000 && |s'| < 0x1_0000 ==> s == s' && t == t'
    ensures |s| == |s'| ==> s == s' && t == t'
  {
    assert LengthBytes(s) + s + (LengthBytes(t) + t) == HeartbeatKeyBytes(s, t);
    assert LengthBytes(s') + s' + (LengthBytes(t') + t') == HeartbeatKeyBytes(s', t');
    PrefixInjective(s, LengthBytes(t) + t, s', LengthBytes(t') + t');
    if |s| == |s'| {
      var u := LengthBytes(t) + t;
      assert |u| == 2 + |t| == 2 + |t'|;
      assert u[2..] == t && u[2..] == t';
    }
  }

  lemma ZeroPrefix(zeros: seq<byte>)
    requires |zeros| == 0x1_0000 && forall i :: 0 <= i < |zeros| ==> zeros[i] == 0
    ensures LengthBytes(zeros) == LengthBytes([]) == [0, 0] && zeros + [0, 0] == [0, 0] + zeros
  {
    assert Big(0, 2) == [0, 0];
  }

  /** Beyond 65535 bytes they are not: a group of 65536 zero bytes and an empty one collide. */
  lemma CheckpointKeysCollide(zeros: seq<byte>, p: int32)
    requires |zeros| == 0x1_0000 && forall i :: 0 <= i < |zeros| ==> zeros[i] == 0
    ensures CheckpointKeyBytes(zeros, TopicPartition([], p)) == CheckpointKeyBytes([], TopicPartition(zeros, p))
  {
    ZeroPrefix(zeros);
    var ps := Int32Bytes(p);
    assert CheckpointKeyBytes(zeros, TopicPartition([], p)) == [0, 0] + (zeros + [0, 0]) + ps;
    assert CheckpointKeyBytes([], TopicPartition(zeros, p)) == [0, 0] + ([0, 0] + zeros) + ps;
  }

  /** A source alias of 65536 zero bytes and an empty one collide as well. */
  lemma HeartbeatKeysCollide(zeros: seq<byte>)
    requires |zeros| == 0x1_0000 && forall i :: 0 <= i < |zeros| ==> zeros[i] == 0
    ensures HeartbeatKeyBytes(zeros, []) == HeartbeatKeyBytes([], zeros)
  {
    ZeroPrefix(zeros);
    assert HeartbeatKeyBytes(zeros, []) == [0, 0] + (zeros + [0, 0]);
    assert HeartbeatKeyBytes([], zeros) == [0, 0] + ([0, 0] + zeros);
  }

  /** Checkpoint keys whose groups have at most `limit` bytes identify what they were written from. */
  ghost predicate CheckpointKeysIdentify(limit: nat) {
    forall g, a, h, b :: |g| <= limit && |h| <= limit && CheckpointKeyBytes(g, a) == CheckpointKeyBytes(h, b) ==>
      g == h && a == b
  }

  ghost predicate HeartbeatKeysIdentify(limit: nat) {
    forall s, t, s', t' :: |s| <= limit && |s'| <= limit && HeartbeatKeyBytes(s, t) == HeartbeatKeyBytes(s', t') ==>
      s == s' && t == t'
  }

  /** Checkpoint keys identify group, topic and partition, and heartbeat keys source and target, under
      a limit on the first string if and only if that limit is at most 65535 bytes. */
  lemma KeysIdentifyIff(limit: nat)
    ensures CheckpointKeysIdentify(limit) <==> limit <= 65535
    ensures HeartbeatKeysIdentify(limit) <==> limit <= 65535
  {
    if limit <= 65535 {
      forall g, a, h, b | |g| <= limit && |h| <= limit && CheckpointKeyBytes(g, a) == CheckpointKeyBytes(h, b)
        ensures g == h && a == b
      {
        CheckpointKeyInjective(g, a, h, b);
      }
      forall s, t, s', t' | |s| <= limit && |s'| <= limit && HeartbeatKeyBytes(s, t) == HeartbeatKeyBytes(s', t')
        ensures s == s' && t == t'
      {
        HeartbeatKeyInjective(s, t, s', t');
      }
    } else {
      var zeros: seq<byte> := seq(0x1_0000, _ => 0);
      CheckpointKeysCollide(zeros, 0);
      HeartbeatKeysCollide(zeros);
      assert zeros != [];
    }
  }
}
