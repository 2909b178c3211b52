/**
  The three `audioop` calls of the transcoder (stream_server.py lines 850, 857
  and 864), on 16-bit samples: the μ-law law of ITU-T Recommendation G.711 as
  CPython's audioop implements it (`st_ulaw2linear16`, `st_14linear2ulaw`),
  and the gain of `audioop.mul`.  A PCM fragment is a byte string of
  little-endian two's-complement samples, the host byte order audioop writes
  on the machines the server runs on.
*/
module G711 {
  import opened Wrappers
  import opened Bytes

  /** A signed 16-bit linear sample. */
  type Sample = x: int | -32768 <= x < 32768

  function Pow2(n: nat): (p: nat)
    ensures p >= 1
  {
    if n == 0 then 1 else 2 * Pow2(n - 1)
  }

  /** The bias G.711 adds to a magnitude before segmenting (0x84). */
  const Bias: int := 132

  /** The largest 14-bit magnitude the encoder keeps before biasing. */
  const Clip: int := 8159

  /** The magnitude one code word stands for: a segment (three bits) and a step
      within that segment (four bits). */
  function Magnitude(seg: nat, step: nat): (t: int)
    requires seg < 8 && step < 16
    ensures 0 <= t <= 32124
    ensures t == 4 * ((2 * step + 33) * Pow2(seg) - 33)
  {
    SegmentScale(seg);
    (8 * step + Bias) * Pow2(seg) - Bias
  }

  lemma SegmentScale(seg: nat)
    requires seg < 8
    ensures 1 <= Pow2(seg) <= 128
    ensures seg > 0 ==> Pow2(seg) >= 2
  {
    if seg == 0 {
    } else if seg == 1 {
      assert Pow2(seg) == Pow2(1) == 2;
    } else if seg == 2 {
      assert Pow2(seg) == Pow2(2) == 4;
    } else if seg == 3 {
      assert Pow2(seg) == Pow2(3) == 8;
    } else if seg == 4 {
      assert Pow2(seg) == Pow2(4) == 16;
    } else if seg == 5 {
      assert Pow2(seg) == Pow2(5) == 32;
    } else if seg == 6 {
      assert Pow2(seg) == Pow2(6) == 64;
    } else {
      assert Pow2(seg) == Pow2(7) == 128;
    }
  }

  /** μ-law expansion of a code word (CPython's `st_ulaw2linear16` table).  The
      code word is sent complemented; its top bit is the sign (set: negative). */
  function UlawToLinear(u: byte): Sample
  {
    var v := 255 - u;
    var t := Magnitude(v / 16 % 8, v % 16);
    if v >= 128 then -t else t
  }

  /** `search(val, seg_uend, 8)`: the first segment whose upper end is at least
      `mag`, or 8 when the biased magnitude is beyond the last one. */
  function SegmentOf(mag: int): (seg: nat)
    ensures seg <= 8
  {
    if mag <= 0x3F then 0
    else if mag <= 0x7F then 1
    else if mag <= 0xFF then 2
    else if mag <= 0x1FF then 3
    else if mag <= 0x3FF then 4
    else if mag <= 0x7FF then 5
    else if mag <= 0xFFF then 6
    else if mag <= 0x1FFF then 7
    else 8
  }

  /** `st_14linear2ulaw`: compression of a 14-bit sample.  The code word is
      complemented (XOR 0xFF) for a non-negative sample and XOR 0x7F (sign bit
      set) for a negative one; since the segment and step make a 7-bit value,
      the XOR is a subtraction from 255 or from 127. */
  function Linear14ToUlaw(p: int): byte
    requires -8192 <= p < 8192
  {
    var positive := p >= 0;
    var mag0 := if positive then p else -p;
    var mag := (if mag0 > Clip then Clip else mag0) + Bias / 4;
    var seg := SegmentOf(mag);
    if seg >= 8 then
      if positive then 0x80 else 0x00
    else
      var code := seg * 16 + mag / Pow2(seg + 1) % 16;
      if positive then 255 - code else 127 - code
  }

  /** μ-law compression of a 16-bit sample: `lin2ulaw` shifts it right by two
      (an arithmetic shift, so a floor division by 4) into 14 bits. */
  function LinearToUlaw(x: Sample): byte
  {
    Linear14ToUlaw(x / 4)
  }

  /** The code word that expands to the same sample and that compression picks:
      0x7F and 0xFF both stand for zero, and zero compresses to 0xFF. */
  function Canonical(u: byte): byte
  {
    if u == 0x7F then 0xFF else u
  }

  /** The facts about segment `seg` that the round trip of code words rests on:
      the biased magnitude of step `step` lies in that segment, and the step is
      read back from it. */
  lemma SegmentRoundTrip(seg: nat, step: nat)
    requires seg < 8 && step < 16
    ensures SegmentOf((2 * step + 33) * Pow2(seg)) == seg
    ensures (2 * step + 33) * Pow2(seg) / Pow2(seg + 1) % 16 == step
  {
    var p := Pow2(seg);
    var k := (2 * step + 33) * p;
    SegmentScale(seg);
    StepBounds(p, step);
    SegmentOfRange(k, seg);
    assert Pow2(seg + 1) == 2 * p;
    StepQuotient(p, step);
  }

  /** A biased magnitude of segment `seg` lies in [32 * 2^seg, 64 * 2^seg). */
  lemma StepBounds(p: nat, step: nat)
    requires p >= 1 && step < 16
    ensures 33 * p <= (2 * step + 33) * p <= 63 * p
  {
    assert (2 * step + 33) * p == 2 * step * p + 33 * p;
    assert 2 * step * p <= 30 * p;
  }

  /** `search` finds segment `seg` for any magnitude of its range. */
  lemma SegmentOfRange(mag: int, seg: nat)
    requires seg < 8
    requires 32 * Pow2(seg) < mag < 64 * Pow2(seg)
    ensures SegmentOf(mag) == seg
  {
    SegmentScale(seg);
    if seg == 1 {
      assert Pow2(seg) == 2;
    } else if seg == 2 {
      assert Pow2(seg) == 4;
    } else if seg == 3 {
      assert Pow2(seg) == 8;
    } else if seg == 4 {
      assert Pow2(seg) == 16;
    } else if seg == 5 {
      assert Pow2(seg) == 32;
    } else if seg == 6 {
      assert Pow2(seg) == 64;
    } else if seg == 7 {
      assert Pow2(seg) == 128;
    }
  }

  /** The division by 2^(seg+1) reads the step back. */
  lemma StepQuotient(p: nat, step: nat)
    requires p >= 1 && step < 16
    ensures (2 * step + 33) * p / (2 * p) % 16 == step
  {
    var k := (2 * step + 33) * p;
    assert k == (step + 16) * (2 * p) + p;
    DivUnique(k, 2 * p, step + 16, p);
    assert (step + 16) % 16 == step;
  }

  lemma DivUnique(x: int, d: int, q: int, rem: int)
    requires d > 0 && 0 <= rem < d && x == q * d + rem
    ensures x / d == q
  {
    var q', r' := x / d, x % d;
    MulSign(q' - q, d);
    assert (q' - q) * d == q' * d - q * d;
  }

  lemma MulSign(e: int, d: int)
    ensures d > 0 && e >= 1 ==> e * d >= d
    ensures d > 0 && e <= -1 ==> e * d <= -d
  {
  }

  /** Compressing an expanded code word gives the code word back, except that
      the negative zero 0x7F comes back as 0xFF. */
  lemma CodeRoundTrip(u: byte)
    ensures LinearToUlaw(UlawToLinear(u)) == Canonical(u)
  {
    var v := 255 - u;
    CodeFields(v);
    ExpandMagnitude(u);
    var seg, step := v / 16 % 8, v % 16;
    CompressMagnitude(seg, step);
    if v < 128 {
      PositiveRoundTrip(u, Level(seg, step));
    } else {
      NegativeRoundTrip(u, Level(seg, step));
    }
  }

  /** The 14-bit magnitude of segment `seg`, step `step`. */
  function Level(seg: nat, step: nat): int
    requires seg < 8 && step < 16
  {
    (2 * step + 33) * Pow2(seg) - 33
  }

  lemma PositiveRoundTrip(u: byte, m: int)
    requires 0 <= m <= Clip && UlawToLinear(u) == 4 * m
    requires Linear14ToUlaw(m) == u
    ensures LinearToUlaw(UlawToLinear(u)) == Canonical(u)
  {
    assert (4 * m) / 4 == m;
    if u == 0x7F {
      ZeroCodes();
    }
  }

  lemma NegativeRoundTrip(u: byte, m: int)
    requires 0 <= m <= Clip && UlawToLinear(u) == -4 * m
    requires m > 0 ==> Linear14ToUlaw(-m) == u
    requires m == 0 ==> u == 0x7F
    ensures LinearToUlaw(UlawToLinear(u)) == Canonical(u)
  {
    assert (-4 * m) / 4 == -m;
    if m == 0 {
      assert Linear14ToUlaw(0) == 0xFF;
    }
  }

  /** The sample a code word expands to, in terms of its segment and step. */
  lemma ExpandMagnitude(u: byte)
    ensures var v := 255 - u;
      UlawToLinear(u) == if v >= 128 then -4 * Level(v / 16 % 8, v % 16) else 4 * Level(v / 16 % 8, v % 16)
  {
  }

  /** A complemented code word is its sign bit, segment and step. */
  lemma CodeFields(v: int)
    requires 0 <= v < 256
    ensures v == (if v >= 128 then 128 else 0) + v / 16 % 8 * 16 + v % 16
  {
    var h := v / 16;
    assert v == 16 * h + v % 16;
    if h >= 8 {
      assert h % 8 == h - 8;
    } else {
      assert h % 8 == h;
    }
  }

  /** The 14-bit magnitude of segment `seg` and step `step`, and its negation,
      compress to that segment and step (the positive code XOR 0xFF, the
      negative one XOR 0x7F). */
  lemma CompressMagnitude(seg: nat, step: nat)
    requires seg < 8 && step < 16
    ensures var m := Level(seg, step);
      0 <= m <= Clip && Linear14ToUlaw(m) == 255 - (seg * 16 + step)
      && (m > 0 ==> Linear14ToUlaw(-m) == 127 - (seg * 16 + step))
      && (m == 0 <==> seg == 0 && step == 0)
  {
    var m := Level(seg, step);
    LevelRange(seg, step);
    LevelZero(seg, step);
    LevelSegment(seg, step);
    CompressBiased(m, seg, step);
    if m > 0 {
      CompressBiased(-m, seg, step);
    }
  }

  lemma LevelRange(seg: nat, step: nat)
    requires seg < 8 && step < 16
    ensures 0 <= Level(seg, step) <= Clip
  {
    SegmentScale(seg);
    StepBounds(Pow2(seg), step);
  }

  /** The biased magnitude of a level lies in its segment and reads back its step. */
  lemma LevelSegment(seg: nat, step: nat)
    requires seg < 8 && step < 16
    ensures SegmentOf(Level(seg, step) + 33) == seg
    ensures (Level(seg, step) + 33) / Pow2(seg + 1) % 16 == step
  {
    SegmentRoundTrip(seg, step);
  }

  /** Only segment 0, step 0 stands for the magnitude 0. */
  lemma LevelZero(seg: nat, step: nat)
    requires seg < 8 && step < 16
    ensures Level(seg, step) == 0 <==> seg == 0 && step == 0
  {
    SegmentScale(seg);
    StepBounds(Pow2(seg), step);
  }

  /** How `st_14linear2ulaw` reads a sample whose biased magnitude lies in a
      segment. */
  lemma CompressBiased(p: int, seg: nat, step: nat)
    requires -8192 <= p < 8192 && seg < 8
    requires Abs(p) <= Clip
    requires SegmentOf(Abs(p) + 33) == seg
    requires (Abs(p) + 33) / Pow2(seg + 1) % 16 == step
    ensures Linear14ToUlaw(p) == (if p >= 0 then 255 else 127) - (seg * 16 + step)
  {
  }

  /** Expanding, compressing and expanding again gives the first expansion. */
  lemma ExpandCompressExpand(u: byte)
    ensures UlawToLinear(LinearToUlaw(UlawToLinear(u))) == UlawToLinear(u)
  {
    CodeRoundTrip(u);
    if u == 0x7F {
      ZeroCodes();
    } else {
      assert Canonical(u) == u;
    }
  }

  /** Both zero code words expand to the sample 0. */
  lemma ZeroCodes()
    ensures UlawToLinear(0x7F) == 0 && UlawToLinear(0xFF) == 0
  {
    assert Magnitude(0, 0) == 0;
  }

  /** Saturation to the 16-bit range, as `fbound` in audioop.mul does. */
  function Saturate(v: int): (r: Sample)
    ensures -32768 <= v <= 32767 ==> r == v
    ensures v > 32767 ==> r == 32767
    ensures v < -32768 ==> r == -32768
  {
    if v > 32767 then 32767 else if v < -32768 then -32768 else v
  }

  function Abs(v: int): nat
  {
    if v < 0 then -v else v
  }

  /** The saturated value is the 16-bit sample nearest to `v`. */
  lemma SaturateIsNearest(v: int, y: Sample)
    ensures Abs(Saturate(v) - v) <= Abs(y - v)
  {
  }

  // ---- Samples as bytes ----

  function LowByte(x: Sample): byte
  {
    x % 65536 % 256
  }

  function HighByte(x: Sample): byte
  {
    x % 65536 / 256
  }

  function SampleOf(lo: byte, hi: byte): Sample
  {
    var w := lo + 256 * hi;
    if w >= 32768 then w - 65536 else w
  }

  lemma SampleBytes(x: Sample)
    ensures SampleOf(LowByte(x), HighByte(x)) == x
  {
  }

  /** Samples written out as a byte string, low byte first. */
  function Pack(xs: seq<Sample>): (pcm: seq<byte>)
    ensures |pcm| == 2 * |xs|
  {
    seq(2 * |xs|, k requires 0 <= k < 2 * |xs| => if k % 2 == 0 then LowByte(xs[k / 2]) else HighByte(xs[k / 2]))
  }

  /** The samples a byte string of even length holds. */
  function Samples(pcm: seq<byte>): (xs: seq<Sample>)
    requires |pcm| % 2 == 0
    ensures |xs| == |pcm| / 2
  {
    seq(|pcm| / 2, i requires 0 <= i < |pcm| / 2 => SampleOf(pcm[2 * i], pcm[2 * i + 1]))
  }

  lemma SamplesOfPack(xs: seq<Sample>)
    ensures Samples(Pack(xs)) == xs
  {
    var pcm := Pack(xs);
    forall i | 0 <= i < |xs|
      ensures Samples(pcm)[i] == xs[i]
    {
      assert pcm[2 * i] == LowByte(xs[i]) && pcm[2 * i + 1] == HighByte(xs[i]);
      SampleBytes(xs[i]);
    }
  }

  // ---- The sample-level maps ----

  function Expand(codes: seq<byte>): (xs: seq<Sample>)
    ensures |xs| == |codes|
  {
    seq(|codes|, i requires 0 <= i < |codes| => UlawToLinear(codes[i]))
  }

  function Compress(xs: seq<Sample>): (codes: seq<byte>)
    ensures |codes| == |xs|
  {
    seq(|xs|, i requires 0 <= i < |xs| => LinearToUlaw(xs[i]))
  }

  /** The gain of `audioop.mul(fragment, 2, 2.0)`: each sample doubled and
      saturated. */
  function Amplify(xs: seq<Sample>): (ys: seq<Sample>)
    ensures |ys| == |xs|
  {
    seq(|xs|, i requires 0 <= i < |xs| => Saturate(2 * (xs[i] as int)))
  }

  // ---- The audioop calls on byte strings ----

  /** `audioop.ulaw2lin(fragment, 2)`: never fails for width 2. */
  function Ulaw2Lin(frag: seq<byte>): seq<byte>
  {
    Pack(Expand(frag))
  }

  /** `audioop.mul(fragment, 2, 2.0)`: fails when the fragment is not a whole
      number of 2-byte samples. */
  function Mul(frag: seq<byte>): Option<seq<byte>>
  {
    if |frag| % 2 != 0 then None else Some(Pack(Amplify(Samples(frag))))
  }

  /** `audioop.lin2ulaw(fragment, 2)`: fails like `Mul` on an odd length. */
  function Lin2Ulaw(frag: seq<byte>): Option<seq<byte>>
  {
    if |frag| % 2 != 0 then None else Some(Compress(Samples(frag)))
  }

  /** n code words expand to n samples, 2n bytes, each the G.711 expansion. */
  lemma Ulaw2LinSamples(frag: seq<byte>)
    ensures |Ulaw2Lin(frag)| == 2 * |frag|
    ensures Samples(Ulaw2Lin(frag)) == Expand(frag)
    ensures forall i :: 0 <= i < |frag| ==> Samples(Ulaw2Lin(frag))[i] == UlawToLinear(frag[i])
  {
    SamplesOfPack(Expand(frag));
  }

  /** The gain succeeds exactly on whole samples and doubles each one, saturating. */
  lemma MulSamples(frag: seq<byte>)
    ensures Mul(frag).Some? <==> |frag| % 2 == 0
    ensures Mul(frag).Some? ==> |Mul(frag).value| == |frag|
    ensures Mul(frag).Some? ==> forall i :: 0 <= i < |frag| / 2 ==>
      Samples(Mul(frag).value)[i] == Saturate(2 * (Samples(frag)[i] as int))
  {
    if |frag| % 2 == 0 {
      var ys := Amplify(Samples(frag));
      SamplesOfPack(ys);
      assert Mul(frag).value == Pack(ys);
    }
  }

  /** Compression succeeds exactly on whole samples and writes one code word per sample. */
  lemma Lin2UlawCodes(frag: seq<byte>)
    ensures Lin2Ulaw(frag).Some? <==> |frag| % 2 == 0
    ensures Lin2Ulaw(frag).Some? ==> |Lin2Ulaw(frag).value| == |frag| / 2
    ensures Lin2Ulaw(frag).Some? ==> forall i :: 0 <= i < |frag| / 2 ==>
      Lin2Ulaw(frag).value[i] == LinearToUlaw(Samples(frag)[i])
  {
  }

  /** Expanding a frame and compressing it again gives the frame back, with
      each negative zero 0x7F replaced by 0xFF. */
  lemma FrameRoundTrip(frag: seq<byte>)
    ensures Lin2Ulaw(Ulaw2Lin(frag)) == Some(seq(|frag|, i requires 0 <= i < |frag| => Canonical(frag[i])))
  {
    var pcm := Ulaw2Lin(frag);
    SamplesOfPack(Expand(frag));
    assert Samples(pcm) == Expand(frag);
    var back := Compress(Expand(frag));
    assert Lin2Ulaw(pcm) == Some(back);
    var canon := seq(|frag|, i requires 0 <= i < |frag| => Canonical(frag[i]));
    forall i | 0 <= i < |frag|
      ensures back[i] == canon[i]
    {
      CodeRoundTrip(frag[i]);
    }
    assert back == canon;
  }

  /** decode(encode(decode(b))) == decode(b) on whole frames. */
  lemma FrameReexpand(frag: seq<byte>)
    ensures Lin2Ulaw(Ulaw2Lin(frag)).Some?
    ensures Ulaw2Lin(Lin2Ulaw(Ulaw2Lin(frag)).value) == Ulaw2Lin(frag)
  {
    FrameRoundTrip(frag);
    var back := Lin2Ulaw(Ulaw2Lin(frag)).value;
    assert Expand(back) == Expand(frag) by {
      forall i | 0 <= i < |frag|
        ensures Expand(back)[i] == Expand(frag)[i]
      {
        ExpandCompressExpand(frag[i]);
        CodeRoundTrip(frag[i]);
      }
    }
  }
}
