/** Little-endian integers in byte files, and the part of a binary `std::ifstream` the programs use. */
module Bytes {
  import opened Decimal
  import opened Quotients

  type byte = x: int | 0 <= x < 256
  type u32 = x: int | 0 <= x < 0x1_0000_0000

  function Power256(n: nat): nat {
    if n == 0 then 1 else 256 * Power256(n - 1)
  }

  /** The `n` low bytes of `v`, lowest first. */
  function Encode(v: nat, n: nat): (bs: seq<byte>)
    ensures |bs| == n
  {
    if n == 0 then [] else [v % 256] + Encode(v / 256, n - 1)
  }

  function Decode(bs: seq<byte>): (v: nat)
    ensures v < Power256(|bs|)
  {
    if bs == [] then 0 else bs[0] + 256 * Decode(bs[1..])
  }

  lemma {:induction false} DecodeOfEncode(v: nat, n: nat)
    requires v < Power256(n)
    ensures Decode(Encode(v, n)) == v
  {
    if n > 0 {
      DecodeOfEncode(v / 256, n - 1);
      assert Encode(v, n)[1..] == Encode(v / 256, n - 1);
    }
  }

  lemma {:induction false} EncodeOfDecode(bs: seq<byte>)
    ensures Encode(Decode(bs), |bs|) == bs
  {
    if bs != [] {
      EncodeOfDecode(bs[1..]);
      assert Decode(bs) % 256 == bs[0] && Decode(bs) / 256 == Decode(bs[1..]);
    }
  }

  /** The lowest byte comes first: byte `i` is the digit of 256 to the power `i`. */
  lemma {:induction false} EncodeByte(v: nat, n: nat, i: nat)
    requires i < n
    ensures Power256(i) > 0 && Encode(v, n)[i] == v / Power256(i) % 256
    decreases i
  {
    if i > 0 {
      EncodeByte(v / 256, n - 1, i - 1);
      DivideTwice(v, 256, Power256(i - 1));
    }
  }

  lemma {:induction false} DecodeByte(bs: seq<byte>, i: nat)
    requires i < |bs|
    ensures Power256(i) > 0 && Decode(bs) / Power256(i) % 256 == bs[i]
  {
    EncodeOfDecode(bs);
    EncodeByte(Decode(bs), |bs|, i);
  }

  lemma {:induction false} Widths()
    ensures Power256(8) == U64_LIMIT && Power256(4) == 0x1_0000_0000
  {
    assert Power256(4) == 256 * (256 * (256 * (256 * Power256(0))));
    assert Power256(8) == 256 * (256 * (256 * (256 * Power256(4))));
  }

  /** How far `in.read(&v, n)` gets from position `p`. */
  function ReadEnd(data: seq<byte>, p: nat, n: nat): (q: nat)
    requires p <= |data|
    ensures p <= q <= |data|
  {
    if p + n <= |data| then p + n else |data|
  }

  /** An `n`-byte variable `v` whose low bytes were overwritten. */
  function Overwritten(v: nat, low: seq<byte>, n: nat): (v': nat)
    requires |low| <= n
    ensures v' < Power256(n)
  {
    Decode(low + Encode(v, n)[|low|..])
  }

  /** The value of `v` after `in.read(&v, n)`: a short read overwrites only the low bytes it got. */
  function ReadValue(data: seq<byte>, p: nat, n: nat, v: nat): (v': nat)
    requires p <= |data|
    ensures v' < Power256(n)
  {
    Overwritten(v, data[p..ReadEnd(data, p, n)], n)
  }

  lemma {:induction false} FullRead(data: seq<byte>, p: nat, n: nat, v: nat)
    requires p + n <= |data|
    ensures ReadValue(data, p, n, v) == Decode(data[p..p + n])
  {
    assert data[p..p + n] + Encode(v, n)[n..] == data[p..p + n];
  }

  lemma {:induction false} PowerIsPositive(k: nat)
    ensures Power256(k) > 0
  {
    if k > 0 {
      PowerIsPositive(k - 1);
    }
  }

  /** A number is its low bytes and what is above them. */
  lemma {:induction false} DecodeAppend(a: seq<byte>, b: seq<byte>)
    ensures Decode(a + b) == Decode(a) + Power256(|a|) * Decode(b)
  {
    if a == [] {
      assert a + b == b;
    } else {
      DecodeAppend(a[1..], b);
      assert (a + b)[1..] == a[1..] + b && (a + b)[0] == a[0];
      Multiplied(Power256(|a| - 1), Decode(b));
    }
  }

  lemma {:induction false} Multiplied(p: nat, d: nat)
    ensures 256 * (p * d) == (256 * p) * d
  {
  }

  /** Overwriting the low `|got|` bytes of `v` leaves the part of `v` above them. */
  lemma {:induction false} LowBytesReplaced(got: seq<byte>, v: nat, n: nat)
    requires |got| <= n && v < Power256(n)
    ensures Power256(|got|) > 0
    ensures var v' := Overwritten(v, got, n);
            v' % Power256(|got|) == Decode(got) && v' / Power256(|got|) == v / Power256(|got|)
  {
    var k, bs := |got|, Encode(v, n);
    DecodeOfEncode(v, n);
    assert bs == bs[..k] + bs[k..];
    LowAndHigh(bs[..k], bs[k..]);
    LowAndHigh(got, bs[k..]);
  }

  lemma {:induction false} LowAndHigh(low: seq<byte>, high: seq<byte>)
    ensures Power256(|low|) > 0
    ensures Decode(low + high) % Power256(|low|) == Decode(low) && Decode(low + high) / Power256(|low|) == Decode(high)
  {
    PowerIsPositive(|low|);
    DecodeAppend(low, high);
    Commutes(Power256(|low|), Decode(high));
    QuotientIs(Decode(low + high), Power256(|low|), Decode(high), Decode(low));
  }

  lemma {:induction false} Commutes(a: nat, b: nat)
    ensures a * b == b * a
  {
  }

  /** A read that gets `k` bytes replaces `v` modulo 256 to the power `k` and nothing above. */
  lemma {:induction false} ShortRead(data: seq<byte>, p: nat, n: nat, v: nat)
    requires p <= |data| && v < Power256(n)
    ensures var q, v' := ReadEnd(data, p, n), ReadValue(data, p, n, v);
            && q - p <= n && Power256(q - p) > 0
            && v' % Power256(q - p) == Decode(data[p..q]) && v' / Power256(q - p) == v / Power256(q - p)
  {
    LowBytesReplaced(data[p..ReadEnd(data, p, n)], v, n);
  }

  class BinStream {
    const data: seq<byte>
    var pos: nat
    var fail: bool

    ghost predicate Valid()
      reads this
    {
      pos <= |data| && (fail ==> pos == |data|)
    }

    constructor (data: seq<byte>)
      ensures Valid() && this.data == data && pos == 0 && !fail
    {
      this.data := data;
      pos, fail := 0, false;
    }

    /** `in.read(&v, n)`; a stream that has failed reads nothing, which leaves `v` alone. */
    method Read(v: nat, n: nat) returns (v': nat)
      requires Valid() && v < Power256(n) && n > 0
      modifies this
      ensures Valid() && pos == ReadEnd(data, old(pos), n) && v' == ReadValue(data, old(pos), n, v)
      ensures fail == (old(pos) + n > |data|)
      ensures old(pos) <= pos && Power256(pos - old(pos)) > 0
      ensures v' % Power256(pos - old(pos)) == Decode(data[old(pos)..pos])
      ensures v' / Power256(pos - old(pos)) == v / Power256(pos - old(pos))
    {
      ShortRead(data, pos, n, v);
      if fail {
        v' := v;
        assert data[pos..pos] + Encode(v, n)[0..] == Encode(v, n);
        DecodeOfEncode(v, n);
      } else {
        v' := ReadValue(data, pos, n, v);
        fail := pos + n > |data|;
        pos := ReadEnd(data, pos, n);
      }
    }

    method ReadU64(v: u64) returns (v': u64)
      requires Valid()
      modifies this
      ensures Valid() && pos == ReadEnd(data, old(pos), 8) && v' == ReadValue(data, old(pos), 8, v)
      ensures fail == (old(pos) + 8 > |data|)
    {
      Widths();
      v' := Read(v, 8);
    }

    method ReadU32(v: u32) returns (v': u32)
      requires Valid()
      modifies this
      ensures Valid() && pos == ReadEnd(data, old(pos), 4) && v' == ReadValue(data, old(pos), 4, v)
      ensures fail == (old(pos) + 4 > |data|)
    {
      Widths();
      v' := Read(v, 4);
    }
  }
}
