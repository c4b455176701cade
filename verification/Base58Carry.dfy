/**
 The carry loop of base58 conversion, in place in a buffer, and why the buffers of both
 directions are always large enough.
 */
module Base58Carry {
  import opened Radix

  // ----- The buffers suffice -----

  lemma Eight()
    ensures Pow(256, 8) <= Pow(58, 11)
  {
  }

  lemma Fifteen()
    ensures Pow(58, 15) <= Pow(256, 11)
  {
    assert Pow(58, 4) == 11_316_496;
    PowSum(58, 4, 4);
    assert Pow(58, 8) == 128_063_081_718_016;
    PowSum(58, 8, 4);
    assert Pow(58, 12) == 1_449_225_352_009_601_191_936;
    assert Pow(58, 3) == 195_112;
    PowSum(58, 12, 3);
    assert Pow(58, 15) == 282_761_256_881_297_307_761_016_832;
    assert Pow(256, 4) == 4_294_967_296;
    PowSum(256, 4, 4);
    assert Pow(256, 8) == 18_446_744_073_709_551_616;
    assert Pow(256, 3) == 16_777_216;
    PowSum(256, 8, 3);
    assert Pow(256, 11) == 309_485_009_821_345_068_724_781_056;
  }

  lemma SeventyOne()
    ensures Pow(58, 71) <= Pow(256, 52)
  {
    assert Pow(58, 4) == 11_316_496;
    PowSum(58, 4, 4);
    assert Pow(58, 8) == 128_063_081_718_016;
    PowSum(58, 8, 8);
    assert Pow(58, 16) == 16_400_152_899_115_243_850_138_976_256;
    PowSum(58, 16, 16);
    assert Pow(58, 32) == 268_965_015_114_358_137_726_910_587_140_455_987_105_619_365_599_731_777_536;
    PowSum(58, 32, 32);
    assert Pow(58, 64) == 72_342_179_355_466_901_471_258_927_612_150_153_907_721_848_234_316_445_933_056_526_044_582_001_260_898_145_151_856_420_451_025_374_266_490_194_231_296;
    PowSum(58, 64, 4);
    assert Pow(58, 68) == 818_659_983_307_423_768_631_895_769_287_186_768_096_118_664_656_249_123_135_650_444_757_408_038_940_948_816_018_402_574_608_346_843_785_239_217_057_684_258_816;
    assert Pow(58, 3) == 195_112;
    PowSum(58, 68, 3);
    assert Pow(58, 71) == 159_730_386_663_078_066_345_306_447_337_161_584_696_769_904_898_410_078_913_243_029_577_507_397_293_846_405_390_982_563_136_983_769_384_625_594_118_558_891_106_107_392;
    assert Pow(256, 4) == 4_294_967_296;
    PowSum(256, 4, 4);
    assert Pow(256, 8) == 18_446_744_073_709_551_616;
    PowSum(256, 8, 8);
    assert Pow(256, 16) == 340_282_366_920_938_463_463_374_607_431_768_211_456;
    PowSum(256, 16, 16);
    assert Pow(256, 32) == 115_792_089_237_316_195_423_570_985_008_687_907_853_269_984_665_640_564_039_457_584_007_913_129_639_936;
    PowSum(256, 32, 16);
    assert Pow(256, 48) == 39_402_006_196_394_479_212_279_040_100_143_613_805_079_739_270_465_446_667_948_293_404_245_721_771_497_210_611_414_266_254_884_915_640_806_627_990_306_816;
    PowSum(256, 48, 4);
    assert Pow(256, 52) == 169_230_328_010_303_641_331_690_318_856_389_386_196_071_598_838_855_992_136_870_091_590_247_882_556_495_704_531_248_437_872_567_112_920_983_350_278_405_979_725_889_536;
  }

  /** 256^n <= 58^(n*138/100 + 1): any n bytes fit in the encoder's buffer. */
  lemma EncoderFits(n: nat)
    ensures Pow(256, n) <= Pow(58, n * 138 / 100 + 1)
  {
    hide Pow;
    var q, r := n / 8, n % 8;
    Eight();
    PowRaise(256, 8, 58, 11, q);
    EncoderRemainder(r);
    PowSum(256, q * 8, r);
    var s := r * 138 / 100 + 1;
    PowSum(58, q * 11, s);
    MulLeBoth(Pow(256, q * 8), Pow(58, q * 11), Pow(256, r), Pow(58, s));
    assert q * 11 + s <= n * 138 / 100 + 1;
    PowMonotone(58, q * 11 + s, n * 138 / 100 + 1);
  }

  lemma EncoderRemainder(r: nat)
    requires r < 8
    ensures Pow(256, r) <= Pow(58, r * 138 / 100 + 1)
  {
    assert Pow(256, 0) <= Pow(58, 1) && Pow(256, 1) <= Pow(58, 2) && Pow(256, 2) <= Pow(58, 3);
    assert Pow(256, 3) <= Pow(58, 5) && Pow(256, 4) <= Pow(58, 6) && Pow(256, 5) <= Pow(58, 7);
    assert Pow(256, 6) <= Pow(58, 9) && Pow(256, 7) <= Pow(58, 10);
  }

  /** 58^n <= 256^(n*733/1000 + 1): any n digits fit in the decoder's buffer. */
  lemma DecoderFits(n: nat)
    ensures Pow(58, n) <= Pow(256, n * 733 / 1000 + 1)
  {
    hide Pow;
    var q, r := n / 71, n % 71;
    SeventyOne();
    PowRaise(58, 71, 256, 52, q);
    DecoderRemainder(r);
    PowSum(58, q * 71, r);
    var s := r * 733 / 1000 + 1;
    PowSum(256, q * 52, s);
    MulLeBoth(Pow(58, q * 71), Pow(256, q * 52), Pow(58, r), Pow(256, s));
    assert q * 52 + s <= n * 733 / 1000 + 1;
    PowMonotone(256, q * 52 + s, n * 733 / 1000 + 1);
  }

  lemma DecoderRemainder(r: nat)
    requires r < 71
    ensures Pow(58, r) <= Pow(256, r * 733 / 1000 + 1)
  {
    hide Pow;
    var a, b := r / 15, r % 15;
    Fifteen();
    PowRaise(58, 15, 256, 11, a);
    PowSum(58, a * 15, b);
    var s := DecoderTail(b);
    PowSum(256, a * 11, s);
    MulLeBoth(Pow(58, a * 15), Pow(256, a * 11), Pow(58, b), Pow(256, s));
    PowMonotone(256, a * 11 + s, r * 733 / 1000 + 1);
  }

  lemma DecoderTail(b: nat) returns (s: nat)
    requires b < 15
    ensures Pow(58, b) <= Pow(256, s)
    ensures s <= (b * 733 - 20 + 1000) / 1000
  {
    assert Pow(58, 0) <= Pow(256, 0) && Pow(58, 1) <= Pow(256, 1) && Pow(58, 2) <= Pow(256, 2) && Pow(58, 3) <= Pow(256, 3);
    assert Pow(58, 4) <= Pow(256, 3) && Pow(58, 5) <= Pow(256, 4) && Pow(58, 6) <= Pow(256, 5) && Pow(58, 7) <= Pow(256, 6);
    assert Pow(58, 8) <= Pow(256, 6) && Pow(58, 9) <= Pow(256, 7) && Pow(58, 10) <= Pow(256, 8) && Pow(58, 11) <= Pow(256, 9);
    assert Pow(58, 12) <= Pow(256, 9) && Pow(58, 13) <= Pow(256, 10) && Pow(58, 14) <= Pow(256, 11);
    s := (b * 733 - 20 + 1000) / 1000;
  }

  // ----- The carry loop -----

  /** The last `length` digits of a buffer are in use, and the first of those is not zero. */
  ghost predicate InUse(ds: seq<int>, length: int) {
    && 0 <= length <= |ds|
    && (forall i :: 0 <= i < |ds| - length ==> ds[i] == 0)
    && (length > 0 ==> ds[|ds| - length] != 0)
  }

  lemma CarryStep(base: int, mul: int, add: int, carry: int, d: int, p: int, low: int, lowWas: int)
    requires base >= 2
    requires low + carry * p == mul * lowWas + add
    ensures var c := carry + mul * d;
      c % base * p + low + c / base * (base * p) == mul * (d * p + lowWas) + add
  {
    var c := carry + mul * d;
    calc {
      c % base * p + low + c / base * (base * p);
      { Assoc(c / base, base, p); }
      c % base * p + c / base * base * p + low;
      { Distribute(c % base, c / base * base, p); }
      (c % base + c / base * base) * p + low;
      c * p + low;
      { Distribute(carry, mul * d, p); }
      carry * p + mul * d * p + low;
      mul * d * p + mul * lowWas + add;
      { Assoc(mul, d, p); Distribute2(mul, d * p, lowWas); }
      mul * (d * p + lowWas) + add;
    }
  }

  lemma Distribute(a: int, b: int, c: int)
    ensures (a + b) * c == a * c + b * c
  {
  }

  lemma Distribute2(a: int, b: int, c: int)
    ensures a * (b + c) == a * b + a * c
  {
  }

  lemma QuotientOk(c: int, base: int)
    requires base >= 2 && c >= 0
    ensures 0 <= c % base < base && c / base >= 0
    ensures c > 0 && c / base == 0 ==> c % base == c
  {
  }

  /** The inner loop of both directions: multiply the number in the buffer by `mul` and add `add`. The buffer
      is large enough, so no carry is left over, and the digits in use still start with a non-zero one. */
  method MulAdd(a: array<int>, base: nat, mul: nat, add: int, length: nat) returns (length': nat)
    requires base >= 2 && mul >= 1 && add >= 0
    requires DigitsIn(base, a[..]) && InUse(a[..], length)
    requires mul * Value(base, a[..]) + add < Pow(base, a.Length)
    modifies a
    ensures DigitsIn(base, a[..]) && InUse(a[..], length') && length' <= a.Length
    ensures Value(base, a[..]) == mul * old(Value(base, a[..])) + add
  {
    hide Value, Pow, InUse;
    var carry, i := add, 0;
    var n := a.Length;
    ghost var was := a[..];
    CarryStart(base, was, add);
    InUseBound(was, length);
    while (carry != 0 || i < length) && i < n
      invariant 0 <= i <= n && carry >= 0
      invariant DigitsIn(base, a[..])
      invariant a[..n - i] == was[..n - i]
      invariant Value(base, a[n - i..]) + carry * Pow(base, i) == mul * Value(base, was[n - i..]) + add
      invariant i > length ==> a[n - i] != 0 || carry != 0
    {
      var j := n - 1 - i;
      ghost var low := a[n - i..];
      var c := carry + mul * a[j];
      CarryNonNegative(carry, mul, a[j]);
      QuotientOk(c, base);
      CarryLow(base, mul, add, carry, was[j], low, was[n - i..]);
      a[j] := c % base;
      assert a[j..] == [c % base] + low;
      assert was[j..] == [was[j]] + was[n - i..];
      carry := c / base;
      i := i + 1;
    }
    if i == n { assert was[n - i..] == was; }
    CarryGone(base, mul * Value(base, was) + add, carry, a[..], i);
    assert carry == 0;
    assert 0 * Pow(base, i) == 0;
    CarryEnd(base, mul, add, a[..], was, i, length);
    length' := i;
  }

  lemma InUseBound(ds: seq<int>, length: int)
    requires InUse(ds, length)
    ensures 0 <= length <= |ds|
  {
  }

  lemma CarryStart(base: nat, was: seq<int>, add: int)
    ensures Value(base, was[|was|..]) == 0 && Pow(base, 0) == 1
  {
  }

  lemma CarryNonNegative(carry: int, mul: nat, d: int)
    requires carry >= 0 && d >= 0
    ensures carry + mul * d >= carry
  {
    MulLe(0, d, mul);
  }

  lemma CarryLow(base: nat, mul: int, add: int, carry: int, d: int, low: seq<int>, lowWas: seq<int>)
    requires base >= 2 && |low| == |lowWas|
    requires Value(base, low) + carry * Pow(base, |low|) == mul * Value(base, lowWas) + add
    ensures var c := carry + mul * d;
      Value(base, [c % base] + low) + c / base * Pow(base, |low| + 1) == mul * Value(base, [d] + lowWas) + add
  {
    hide Value, Pow;
    var c := carry + mul * d;
    var p := Pow(base, |low|);
    assert Pow(base, |low| + 1) == base * p by { PowNext(base, |low|); }
    ValueCons(base, c % base, low);
    ValueCons(base, d, lowWas);
    CarryStep(base, mul, add, carry, d, p, Value(base, low), Value(base, lowWas));
  }

  lemma PowNext(base: nat, n: nat)
    ensures Pow(base, n + 1) == base * Pow(base, n)
  {
  }

  /** The loop cannot run out of buffer with a carry left. */
  lemma CarryGone(base: nat, total: int, carry: int, now: seq<int>, i: nat)
    requires base >= 2 && carry >= 0 && i <= |now| && (carry != 0 ==> i == |now|)
    requires DigitsIn(base, now) && total < Pow(base, |now|)
    requires i == |now| ==> Value(base, now[|now| - i..]) + carry * Pow(base, i) == total
    ensures carry == 0
  {
    hide Value, Pow;
    if carry != 0 {
      assert now[|now| - i..] == now;
      NoCarry(base, carry, now, total);
      assert false;
    }
  }

  lemma CarryEnd(base: nat, mul: nat, add: int, now: seq<int>, was: seq<int>, i: nat, length: nat)
    requires base >= 2 && mul >= 1 && add >= 0 && |now| == |was| && length <= i <= |now|
    requires DigitsIn(base, now) && DigitsIn(base, was) && InUse(was, length)
    requires now[..|now| - i] == was[..|now| - i]
    requires Value(base, now[|now| - i..]) == mul * Value(base, was[|now| - i..]) + add
    requires i > length ==> now[|now| - i] != 0
    ensures InUse(now, i) && Value(base, now) == mul * Value(base, was) + add
  {
    hide Value, Pow;
    var n := |now|;
    assert now == now[..n - i] + now[n - i..] && was == was[..n - i] + was[n - i..];
    LeadingZeroes(base, now[..n - i], now[n - i..]);
    LeadingZeroes(base, was[..n - i], was[n - i..]);
    if i > 0 && i == length {
      TopStays(base, mul, add, now[n - i..], was[n - i..]);
    }
  }

  lemma NoCarry(base: nat, carry: int, now: seq<int>, total: int)
    requires DigitsIn(base, now) && carry >= 1
    requires Value(base, now) + carry * Pow(base, |now|) == total
    ensures total >= Pow(base, |now|)
  {
    ValueBound(base, now);
    MulLe(1, carry, Pow(base, |now|));
  }

  /** The top digit in use stays non-zero: the number does not get smaller. */
  lemma TopStays(base: nat, mul: nat, add: int, now: seq<int>, was: seq<int>)
    requires base >= 2 && mul >= 1 && add >= 0 && |now| == |was| > 0
    requires DigitsIn(base, now) && DigitsIn(base, was) && was[0] != 0
    requires Value(base, now) == mul * Value(base, was) + add
    ensures now[0] != 0
  {
    ValueAtLeast(base, was);
    MulLe(1, mul, Value(base, was));
    assert now == [now[0]] + now[1..];
    ValueCons(base, now[0], now[1..]);
    ValueBound(base, now[1..]);
  }
}
