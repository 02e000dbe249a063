/** The framing of the server's byte streams: a four-byte big-endian length before every
    message.  `Frames` is an independent decoder of a whole stream. */
module FramedStream {
  newtype byte = x: int | 0 <= x < 256

  const TWO_32: nat := 0x1_0000_0000

  /** The four bytes of a 32-bit number, most significant first. */
  function Big(n: nat): (r: seq<byte>)
    requires n < TWO_32
    ensures |r| == 4
  {
    var (n1, n2, n3) := (n / 256, n / 256 / 256, n / 256 / 256 / 256);
    [n3 as byte, (n2 % 256) as byte, (n1 % 256) as byte, (n % 256) as byte]
  }

  /** The same bytes in the memory order of a little-endian machine. */
  function Little(n: nat): (r: seq<byte>)
    requires n < TWO_32
    ensures |r| == 4
  {
    var b := Big(n);
    [b[3], b[2], b[1], b[0]]
  }

  function FromBig(s: seq<byte>): (n: nat)
    requires |s| == 4
    ensures n < TWO_32
  {
    ((s[0] as nat * 256 + s[1] as nat) * 256 + s[2] as nat) * 256 + s[3] as nat
  }

  function FromLittle(s: seq<byte>): (n: nat)
    requires |s| == 4
    ensures n < TWO_32
  {
    FromBig([s[3], s[2], s[1], s[0]])
  }

  /** The length goes out in network byte order: the first byte counts 2^24, the last one. */
  lemma NetworkOrder(n: nat)
    requires n < TWO_32
    ensures Big(n)[0] as nat * 0x100_0000 + Big(n)[1] as nat * 0x1_0000 + Big(n)[2] as nat * 0x100 + Big(n)[3] as nat == n
    ensures Little(n)[3] as nat * 0x100_0000 + Little(n)[2] as nat * 0x1_0000 + Little(n)[1] as nat * 0x100 + Little(n)[0] as nat == n
  {
    BigRoundTrip(n);
  }

  lemma BigRoundTrip(n: nat)
    requires n < TWO_32
    ensures FromBig(Big(n)) == n
  {
  }

  lemma BigOfBytes(s: seq<byte>)
    requires |s| == 4
    ensures Big(FromBig(s)) == s
  {
    var d1 := s[0] as nat * 256 + s[1] as nat;
    var d2 := d1 * 256 + s[2] as nat;
    Digit(s[0] as nat, s[1] as nat);
    Digit(d1, s[2] as nat);
    Digit(d2, s[3] as nat);
  }

  lemma Digit(q: nat, r: nat)
    requires r < 256
    ensures (q * 256 + r) / 256 == q && (q * 256 + r) % 256 == r
  {
  }

  lemma LittleOfBytes(s: seq<byte>)
    requires |s| == 4
    ensures Little(FromLittle(s)) == s
  {
    BigOfBytes([s[3], s[2], s[1], s[0]]);
  }

  /** One message on the wire. */
  function Frame(m: seq<byte>): seq<byte>
    requires |m| < TWO_32
  {
    Big(|m|) + m
  }

  ghost predicate Fits(ms: seq<seq<byte>>, max: nat) {
    forall i :: 0 <= i < |ms| ==> 0 < |ms[i]| <= max
  }

  function FrameAll(ms: seq<seq<byte>>, max: nat): seq<byte>
    requires max < TWO_32 && Fits(ms, max)
  {
    if ms == [] then [] else FrameAll(ms[..|ms| - 1], max) + Frame(ms[|ms| - 1])
  }

  /** A decoded stream: its complete frames, the undecoded rest, and whether that rest
      begins with a length the server cannot serve (zero, or above its limit). */
  datatype Parsed = Parsed(frames: seq<seq<byte>>, rest: seq<byte>, bad: bool)

  function Frames(s: seq<byte>, max: nat): Parsed {
    if |s| < 4 then Parsed([], s, false)
    else
      var n := FromBig(s[..4]);
      if n == 0 || n > max then Parsed([], s, true)
      else if |s| < 4 + n then Parsed([], s, false)
      else
        var more := Frames(s[4 + n..], max);
        more.(frames := [s[4..4 + n]] + more.frames)
  }

  lemma FramesOfFrame(m: seq<byte>, tail: seq<byte>, max: nat)
    requires max < TWO_32 && 0 < |m| <= max
    ensures var p := Frames(tail, max);
            Frames(Frame(m) + tail, max) == p.(frames := [m] + p.frames)
  {
    hide Big, FromBig;
    var s := Frame(m) + tail;
    BigRoundTrip(|m|);
    assert s[..4] == Big(|m|);
    assert s[4..4 + |m|] == m && s[4 + |m|..] == tail;
  }

  /** Decoding inverts framing: whole frames come out in order, whatever follows them. */
  lemma {:induction false} FramesOfFrameAll(ms: seq<seq<byte>>, tail: seq<byte>, max: nat)
    requires max < TWO_32 && Fits(ms, max)
    ensures var p := Frames(tail, max);
            Frames(FrameAll(ms, max) + tail, max) == p.(frames := ms + p.frames)
    decreases |ms|
  {
    hide Frames, Frame;
    if ms == [] {
      assert FrameAll(ms, max) + tail == tail;
    } else {
      var init, last := ms[..|ms| - 1], ms[|ms| - 1];
      FramesOfFrame(last, tail, max);
      FramesOfFrameAll(init, Frame(last) + tail, max);
      assert FrameAll(ms, max) + tail == FrameAll(init, max) + (Frame(last) + tail);
      assert init + ([last] + Frames(tail, max).frames) == ms + Frames(tail, max).frames;
    }
  }

  /** More bytes never change the frames already decoded. */
  lemma {:induction false} FramesMonotone(s: seq<byte>, t: seq<byte>, max: nat)
    ensures Frames(s, max).frames <= Frames(s + t, max).frames
    ensures Frames(s, max).bad ==> Frames(s + t, max).frames == Frames(s, max).frames
    decreases |s|
  {
    hide FromBig;
    if |s| >= 4 {
      assert (s + t)[..4] == s[..4];
      var n := FromBig(s[..4]);
      if n != 0 && n <= max && |s| >= 4 + n {
        assert (s + t)[4..4 + n] == s[4..4 + n];
        assert (s + t)[4 + n..] == s[4 + n..] + t;
        FramesMonotone(s[4 + n..], t, max);
      }
    }
  }

  // --- The read buffer ---

  /** A power of two. */
  predicate IsPowerOfTwo(n: nat)
  {
    n == 1 || (n > 1 && n % 2 == 0 && IsPowerOfTwo(n / 2))
  }

  lemma {:induction false} PowersBelow(n: nat)
    requires IsPowerOfTwo(n) && n < TWO_32
    ensures n <= 0x8000_0000
    ensures n < 0x8000_0000 ==> 2 * n <= 0x8000_0000
  {
    PowerGap(n, 31);
  }

  function Pow2(k: nat): (r: nat)
    ensures r >= 1
  {
    if k == 0 then 1 else 2 * Pow2(k - 1)
  }

  /** No power of two lies strictly between 2^k and 2^(k+1). */
  lemma {:induction false} PowerGap(n: nat, k: nat)
    requires IsPowerOfTwo(n)
    ensures n < Pow2(k + 1) ==> n <= Pow2(k)
    ensures n < Pow2(k) ==> 2 * n <= Pow2(k)
    ensures Pow2(31) == 0x8000_0000
    decreases n
  {
    assert Pow2(31) == 0x8000_0000 by {
      assert Pow2(8) == 256;
      assert Pow2(16) == 0x1_0000;
      assert Pow2(24) == 0x100_0000;
    }
    if n > 1 && k > 0 {
      PowerGap(n / 2, k - 1);
    }
  }

  /** The size after `k` doublings in 32-bit arithmetic. */
  function Doubled(size: nat, k: nat): (r: nat)
    ensures size < TWO_32 ==> r < TWO_32
  {
    if k == 0 then size else Doubled(size, k - 1) * 2 % TWO_32
  }

  lemma DoubledNext(size: nat, k: nat)
    ensures Doubled(size, k + 1) == Doubled(size, k) * 2 % TWO_32
  {
  }

  lemma DoubleOnce(d: nat)
    requires d <= 0x8000_0000 && (d == 0 || IsPowerOfTwo(d))
    ensures d * 2 % TWO_32 <= 0x8000_0000
    ensures d * 2 % TWO_32 == 0 || IsPowerOfTwo(d * 2 % TWO_32)
  {
    if 0 < d < 0x8000_0000 {
      PowersBelow(d);
      assert d * 2 % TWO_32 == 2 * d;
      assert IsPowerOfTwo(2 * d);
    }
  }

  lemma {:induction false} DoubledIsPower(size: nat, k: nat)
    requires IsPowerOfTwo(size) && size < TWO_32
    ensures Doubled(size, k) == 0 || IsPowerOfTwo(Doubled(size, k))
    ensures Doubled(size, k) <= 0x8000_0000
    decreases k
  {
    if k == 0 {
      PowersBelow(size);
    } else {
      DoubledIsPower(size, k - 1);
      hide Doubled, IsPowerOfTwo;
      DoubleOnce(Doubled(size, k - 1));
      DoubledNext(size, k - 1);
    }
  }

  lemma {:induction false} DoubledReaches(size: nat, want: nat) returns (k: nat)
    requires IsPowerOfTwo(size) && size < TWO_32 && want <= 0x8000_0000
    ensures want <= Doubled(size, k)
    decreases 0x8000_0000 - size
  {
    PowersBelow(size);
    if want <= size {
      k := 0;
    } else {
      assert IsPowerOfTwo(2 * size);
      hide Doubled, IsPowerOfTwo;
      k := DoubledReaches(2 * size, want);
      DoubledShift(size, k);
      k := k + 1;
    }
  }

  lemma {:induction false} DoubledShift(size: nat, k: nat)
    requires 2 * size < TWO_32
    ensures Doubled(size, k + 1) == Doubled(2 * size, k)
    decreases k
  {
    if k > 0 {
      DoubledShift(size, k - 1);
    }
  }

  /** The doubling loop of the server ends exactly when the wanted size is at most 2^31; a
      larger frame limit would let it spin for ever at zero. */
  lemma DoublingEndsIff(size: nat, want: nat)
    requires IsPowerOfTwo(size) && size < TWO_32
    ensures (exists k :: want <= Doubled(size, k)) <==> want <= 0x8000_0000
  {
    if want <= 0x8000_0000 {
      var k := DoubledReaches(size, want);
    } else if exists k :: want <= Doubled(size, k) {
      var k :| want <= Doubled(size, k);
      DoubledIsPower(size, k);
    }
  }

  /** From 2^31 on, the size is zero after one doubling and stays zero: a frame of one byte
      more is never accommodated. */
  lemma {:induction false} DoublingSpins(k: nat)
    ensures Doubled(0x8000_0000, k + 1) == 0
  {
    if k > 0 {
      DoublingSpins(k - 1);
    } else {
      assert Doubled(0x8000_0000, 0) == 0x8000_0000;
    }
  }
}
