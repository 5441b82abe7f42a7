/** The Internet checksum of `checksum`, against the one's-complement arithmetic of RFC 1071. */
module Checksum {
  import opened Packets

  type Word = w: int | 0 <= w < 0x1_0000

  // ---------------------------------------------------------------- reference: end-around carry

  /** 16-bit one's-complement addition: the carry out of the top is added back in. */
  function Ones(a: Word, b: Word): (r: Word) {
    if a + b < 0x1_0000 then a + b else a + b - 0xFFFF
  }

  /** One's-complement sum of the words, adding the carry back at every step. */
  function OnesSum(words: seq<Word>): Word {
    if words == [] then 0 else Ones(OnesSum(words[..|words| - 1]), words[|words| - 1])
  }

  function LittleEndian(low: Byte, high: Byte): Word {
    low + 256 * high
  }

  /** The words a little-endian host reads; an odd last byte counts as a word with a zero high byte. */
  function Words(bytes: seq<Byte>): (words: seq<Word>)
    ensures |words| == (|bytes| + 1) / 2
  {
    if |bytes| == 0 then []
    else if |bytes| == 1 then [bytes[0] as Word]
    else [LittleEndian(bytes[0], bytes[1])] + Words(bytes[2..])
  }

  // ---------------------------------------------------------------- the deferred-carry form

  function Sum(words: seq<Word>): nat {
    if words == [] then 0 else Sum(words[..|words| - 1]) + words[|words| - 1]
  }

  const WRAP := 0x1_0000_0000

  /** The two folds and the truncated complement at the end of `checksum`. */
  function FoldTwice(sum: nat): (r: Word)
    requires sum < WRAP
  {
    var once := sum / 0x1_0000 + sum % 0x1_0000;
    var twice := once + once / 0x1_0000;
    twice % 0x1_0000
  }

  function Complement(w: Word): Word {
    0xFFFF - w
  }

  /** `sum += w` on the 32-bit accumulator. */
  function Accumulate(sum: nat, w: Word): (r: nat)
    ensures r < WRAP
  {
    (sum + w) % WRAP
  }

  /** The accumulator after reading these bytes. */
  function Accumulator(bytes: seq<Byte>): (r: nat)
    ensures r < WRAP
  {
    Sum(Words(bytes)) % WRAP
  }

  function ChecksumOf(bytes: seq<Byte>): Word {
    Complement(FoldTwice(Accumulator(bytes)))
  }

  /** The loop of `checksum` over a buffer, with its 32-bit accumulator. */
  method Checksum(buf: array<Byte>, length: nat) returns (result: Word)
    requires length <= buf.Length
    ensures result == ChecksumOf(buf[..length])
  {
    ghost var data := buf[..length];
    assert data[..length] == data && data[..0] == [] && Accumulator([]) == 0;
    hide Accumulator, Accumulate, LittleEndian, FoldTwice;
    var sum, at, len := 0, 0, length;
    while len > 1
      invariant at + len == length && at % 2 == 0
      invariant buf[..length] == data && sum == Accumulator(data[..at])
    {
      AccumulateWord(data, at);
      sum := Accumulate(sum, LittleEndian(buf[at], buf[at + 1]));
      at, len := at + 2, len - 2;
    }
    if len == 1 {
      AccumulateLast(data, at);
      sum := Accumulate(sum, buf[at]);
    }
    result := Complement(FoldTwice(sum));
  }

  lemma WrapAdd(s: nat, x: Word)
    ensures Accumulate(s % WRAP, x) == (s + x) % WRAP
  {
    var q, r := (s % WRAP + x) / WRAP, (s % WRAP + x) % WRAP;
    assert s + x == WRAP * (s / WRAP + q) + r;
  }

  lemma AccumulateWord(data: seq<Byte>, at: nat)
    requires at % 2 == 0 && at + 2 <= |data|
    ensures Accumulator(data[..at + 2]) == Accumulate(Accumulator(data[..at]), LittleEndian(data[at], data[at + 1]))
  {
    hide Sum, Words, Accumulate;
    assert data[..at + 2] == data[..at] + [data[at], data[at + 1]];
    WordsSnoc(data[..at], data[at], data[at + 1]);
    WrapAdd(Sum(Words(data[..at])), LittleEndian(data[at], data[at + 1]));
  }

  lemma AccumulateLast(data: seq<Byte>, at: nat)
    requires at % 2 == 0 && at < |data|
    ensures Accumulator(data[..at + 1]) == Accumulate(Accumulator(data[..at]), data[at])
  {
    assert data[..at + 1] == data[..at] + [data[at]];
    WordsOdd(data[..at], data[at]);
    WrapAdd(Sum(Words(data[..at])), data[at]);
  }

  lemma {:induction false} WordsSnoc(bytes: seq<Byte>, low: Byte, high: Byte)
    requires |bytes| % 2 == 0
    ensures Words(bytes + [low, high]) == Words(bytes) + [LittleEndian(low, high)]
    ensures Sum(Words(bytes + [low, high])) == Sum(Words(bytes)) + low + 256 * high
  {
    WordsConcat(bytes, [low, high]);
    assert [low, high][2..] == [];
    SumConcat(Words(bytes), [LittleEndian(low, high)]);
  }

  lemma {:induction false} WordsOdd(bytes: seq<Byte>, last: Byte)
    requires |bytes| % 2 == 0
    ensures Words(bytes + [last]) == Words(bytes) + [last as Word]
    ensures Sum(Words(bytes + [last])) == Sum(Words(bytes)) + last
  {
    WordsConcat(bytes, [last]);
    SumConcat(Words(bytes), [last as Word]);
  }

  /** An odd last byte counts as if a zero byte followed it. */
  lemma OddIsPadded(front: seq<Byte>, last: Byte)
    requires |front| % 2 == 0
    ensures Words(front + [last]) == Words(front + [last, 0])
    ensures ChecksumOf(front + [last]) == ChecksumOf(front + [last, 0])
  {
    hide Words, Sum, FoldTwice;
    PaddedWords(front, last);
  }

  lemma PaddedWords(front: seq<Byte>, last: Byte)
    requires |front| % 2 == 0
    ensures Words(front + [last]) == Words(front + [last, 0])
  {
    hide Words, Sum;
    WordsSnoc(front, last, 0);
    WordsOdd(front, last);
  }

  lemma {:induction false} WordsConcat(a: seq<Byte>, b: seq<Byte>)
    requires |a| % 2 == 0
    ensures Words(a + b) == Words(a) + Words(b)
  {
    if a == [] {
      assert a + b == b;
    } else {
      var ab, rest := a + b, a[2..];
      WordsConcat(rest, b);
      assert ab[2..] == rest + b;
      assert ab[0] == a[0] && ab[1] == a[1];
    }
  }

  lemma {:induction false} SumConcat(a: seq<Word>, b: seq<Word>)
    ensures Sum(a + b) == Sum(a) + Sum(b)
  {
    if b == [] {
      assert a + b == a;
    } else {
      SumConcat(a, b[..|b| - 1]);
      assert (a + b)[..|a + b| - 1] == a + b[..|b| - 1];
    }
  }

  // ---------------------------------------------------------------- residues modulo 65535

  /** The one's-complement representative of a sum: 0 only for 0, otherwise between 1 and 65535. */
  function Reduce(s: nat): (r: Word) {
    if s == 0 then 0 else (s - 1) % 0xFFFF + 1
  }

  /** Adding one word to a sum is one end-around-carry addition to its representative. */
  lemma ReduceStep(s: nat, w: Word)
    ensures Reduce(s + w) == Ones(Reduce(s), w)
  {
    if s > 0 {
      var q, r := (s - 1) / 0xFFFF, (s - 1) % 0xFFFF;
      assert s + w - 1 == 0xFFFF * q + (r + w);
      if r + w < 0xFFFF {
        Residue(s + w - 1, q, r + w);
      } else if r + w < 2 * 0xFFFF {
        Residue(s + w - 1, q + 1, r + w - 0xFFFF);
      }
    }
  }

  lemma Residue(n: int, q: int, r: int)
    requires n == 0xFFFF * q + r && 0 <= r < 0xFFFF
    ensures n % 0xFFFF == r
  {
    assert n - r == 0xFFFF * q;
  }

  lemma {:induction false} OnesSumIsReduced(words: seq<Word>)
    ensures OnesSum(words) == Reduce(Sum(words))
  {
    if words != [] {
      var n := |words| - 1;
      OnesSumIsReduced(words[..n]);
      ReduceStep(Sum(words[..n]), words[n]);
    }
  }

  /** Two folds are enough: every 32-bit accumulator ends as the representative of its value. */
  lemma FoldIsReduce(sum: nat)
    requires sum < WRAP
    ensures FoldTwice(sum) == Reduce(sum)
  {
    var h, l := sum / 0x1_0000, sum % 0x1_0000;
    if sum > 0 {
      if h + l <= 0xFFFF {
        if h + l == 0xFFFF {
          assert FoldTwice(sum) == 0xFFFF;
          Residue(sum - 1, h, 0xFFFE);
        } else {
          Residue(sum - 1, h, h + l - 1);
        }
      } else {
        assert (h + l) / 0x1_0000 == 1;
        assert FoldTwice(sum) == (h + l + 1) % 0x1_0000 == h + l + 1 - 0x1_0000;
        Residue(sum - 1, h + 1, h + l - 1 - 0xFFFF);
      }
    }
  }

  lemma {:induction false} SumBound(words: seq<Word>)
    ensures Sum(words) <= 0xFFFF * |words|
  {
    if words != [] {
      SumBound(words[..|words| - 1]);
    }
  }

  // ---------------------------------------------------------------- the checksum meets RFC 1071

  /**
   * For every length an `int` can hold, the deferred carries compute the one's-complement checksum
   * exactly when the words add up to less than 2^32; up to 131074 bytes they always do.
   */
  lemma ChecksumIsOnesComplement(bytes: seq<Byte>)
    requires |bytes| < 0x8000_0000
    ensures ChecksumOf(bytes) == Complement(OnesSum(Words(bytes))) <==> Sum(Words(bytes)) < WRAP
    ensures |bytes| <= 131074 ==> Sum(Words(bytes)) < WRAP
  {
    WordCount(bytes, 0x4000_0000);
    SumAtMost(Words(bytes), 0x4000_0000);
    if |bytes| <= 131074 {
      SumFits(bytes);
    }
    OnesSumIsReduced(Words(bytes));
    WrappedFold(Sum(Words(bytes)));
  }

  lemma WordCount(bytes: seq<Byte>, n: nat)
    requires |bytes| <= 2 * n
    ensures |Words(bytes)| <= n
  {
  }

  lemma SumAtMost(words: seq<Word>, n: nat)
    requires |words| <= n
    ensures Sum(words) <= 0xFFFF * n
  {
    SumBound(words);
  }

  lemma WrappedFold(s: nat)
    requires s <= 0xFFFF * 0x4000_0000
    ensures FoldTwice(s % WRAP) == Reduce(s) <==> s < WRAP
  {
    hide FoldTwice, Reduce;
    FoldIsReduce(s % WRAP);
    if s >= WRAP {
      LostCarry(s, s / WRAP);
    }
  }

  /** Each carry lost out of bit 32 shifts the residue by one. */
  lemma LostCarry(s: nat, q: nat)
    requires q == s / WRAP && 0 < q < 0xFFFF
    ensures Reduce(s % WRAP) != Reduce(s)
  {
    var rest := s % WRAP;
    assert s == WRAP * q + rest;
    if rest > 0 {
      var d, r := (rest - 1) / 0xFFFF, (rest - 1) % 0xFFFF;
      assert s - 1 == 0xFFFF * (0x1_0001 * q + d) + (r + q);
      if r + q < 0xFFFF {
        Residue(s - 1, 0x1_0001 * q + d, r + q);
      } else {
        Residue(s - 1, 0x1_0001 * q + d + 1, r + q - 0xFFFF);
      }
    }
  }

  /** The bound is sharp: 65538 words of all ones overflow the accumulator and give another checksum. */
  lemma OverflowExample(bytes: seq<Byte>)
    requires |bytes| == 131076 && forall i :: 0 <= i < |bytes| ==> bytes[i] == 255
    ensures ChecksumOf(bytes) == 1 && Complement(OnesSum(Words(bytes))) == 0
  {
    SumOfOnes(bytes);
    OnesSumIsReduced(Words(bytes));
    assert Accumulator(bytes) == 0xFFFE;
    assert Sum(Words(bytes)) - 1 == 0xFFFF * 65537 + 0xFFFE;
    Residue(Sum(Words(bytes)) - 1, 65537, 0xFFFE);
  }

  lemma {:induction false} SumOfOnes(bytes: seq<Byte>)
    requires |bytes| % 2 == 0 && forall i :: 0 <= i < |bytes| ==> bytes[i] == 255
    ensures Sum(Words(bytes)) == 0xFFFF * (|bytes| / 2)
  {
    if bytes != [] {
      var n := |bytes| - 2;
      SumOfOnes(bytes[..n]);
      assert bytes == bytes[..n] + [255, 255];
      WordsSnoc(bytes[..n], 255, 255);
    }
  }

  // ---------------------------------------------------------------- algebra (section 2 of RFC 1071)

  lemma ReduceAdd(s: nat, t: nat)
    ensures Reduce(s + t) == Ones(Reduce(s), Reduce(t))
  {
    ReduceStep(s, Reduce(t));
    if t > 0 {
      var q := (t - 1) / 0xFFFF;
      assert t == 0xFFFF * q + Reduce(t);
      var u := s + Reduce(t) - 1;
      assert s + t - 1 == 0xFFFF * (q + u / 0xFFFF) + u % 0xFFFF;
      Residue(s + t - 1, q + u / 0xFFFF, u % 0xFFFF);
    }
  }

  /**
   * The folded sum of a concatenation is the one's-complement sum of the parts' folded sums, for every
   * length, exactly when the parts' accumulators do not overflow together.
   */
  lemma FoldOfConcat(a: seq<Byte>, b: seq<Byte>)
    requires |a| % 2 == 0
    ensures FoldTwice(Accumulator(a + b)) == Ones(FoldTwice(Accumulator(a)), FoldTwice(Accumulator(b)))
       <==> Accumulator(a) + Accumulator(b) < WRAP
  {
    hide Sum, Words, FoldTwice, Reduce, Ones;
    WordsConcat(a, b);
    SumConcat(Words(a), Words(b));
    WrapSum(Sum(Words(a)), Sum(Words(b)));
    var x, y := Accumulator(a), Accumulator(b);
    FoldIsReduce(x);
    FoldIsReduce(y);
    ReduceAdd(x, y);
    FoldOfWrapped(x + y);
  }

  lemma WrapSum(s: nat, t: nat)
    ensures (s + t) % WRAP == (s % WRAP + t % WRAP) % WRAP
  {
    var q, r := (s % WRAP + t % WRAP) / WRAP, (s % WRAP + t % WRAP) % WRAP;
    WrapRest(s + t, s / WRAP + t / WRAP + q, r);
  }

  lemma WrapRest(n: nat, q: nat, r: nat)
    requires n == WRAP * q + r && r < WRAP
    ensures n % WRAP == r
  {
  }

  /** Folding a sum that has overflowed once gives another residue. */
  lemma FoldOfWrapped(s: nat)
    requires s < 2 * WRAP
    ensures FoldTwice(s % WRAP) == Reduce(s) <==> s < WRAP
  {
    hide FoldTwice, Reduce;
    FoldIsReduce(s % WRAP);
    if s >= WRAP {
      LostCarry(s, 1);
    }
  }

  lemma SumFits(bytes: seq<Byte>)
    requires |bytes| <= 131074
    ensures Sum(Words(bytes)) < WRAP
    ensures Accumulator(bytes) == Sum(Words(bytes))
  {
    WordCount(bytes, 65537);
    SumAtMost(Words(bytes), 65537);
  }

  /** The checksum does not depend on the order of the 16-bit words. */
  lemma ChecksumIgnoresWordOrder(a: seq<Byte>, b: seq<Byte>)
    requires multiset(Words(a)) == multiset(Words(b))
    ensures ChecksumOf(a) == ChecksumOf(b)
  {
    SumOfPermutation(Words(a), Words(b));
  }

  lemma {:induction false} SumOfPermutation(a: seq<Word>, b: seq<Word>)
    requires multiset(a) == multiset(b)
    ensures Sum(a) == Sum(b)
  {
    if a == [] {
      assert |multiset(b)| == 0;
    } else {
      var n := |a| - 1;
      assert a[n] in multiset(b);
      var i :| 0 <= i < |b| && b[i] == a[n];
      RemoveOneMultiset(b, i);
      RemoveOneMultiset(a, n);
      RemoveOneSum(b, i);
      RemoveOneSum(a, n);
      assert a[..n] + a[n + 1..] == a[..n];
      SumOfPermutation(a[..n], b[..i] + b[i + 1..]);
    }
  }

  lemma RemoveOneSum(a: seq<Word>, i: nat)
    requires i < |a|
    ensures Sum(a) == Sum(a[..i] + a[i + 1..]) + a[i]
  {
    SplitAt(a, i);
    SumWith(a[..i], a[i], a[i + 1..]);
  }

  lemma SplitAt(a: seq<Word>, i: nat)
    requires i < |a|
    ensures a == a[..i] + [a[i]] + a[i + 1..]
  {
  }

  lemma SumWith(front: seq<Word>, w: Word, back: seq<Word>)
    ensures Sum(front + [w] + back) == Sum(front + back) + w
  {
    SumConcat(front, back);
    SumConcat(front + [w], back);
    SumSnoc(front, w);
  }

  lemma RemoveOneMultiset(a: seq<Word>, i: nat)
    requires i < |a|
    ensures multiset(a[..i] + a[i + 1..]) == multiset(a) - multiset{a[i]}
  {
    assert a == a[..i] + ([a[i]] + a[i + 1..]);
  }

  lemma SumSnoc(a: seq<Word>, w: Word)
    ensures Sum(a + [w]) == Sum(a) + w
  {
    assert (a + [w])[..|a|] == a;
  }

  /** The same bytes read on a host of the other byte order. */
  function SwapBytes(bytes: seq<Byte>): (r: seq<Byte>)
    requires |bytes| % 2 == 0
    ensures |r| == |bytes|
  {
    if bytes == [] then [] else SwapBytes(bytes[..|bytes| - 2]) + [bytes[|bytes| - 1], bytes[|bytes| - 2]]
  }

  function SwapWord(w: Word): Word {
    256 * (w % 256) + w / 256
  }

  function HighBytes(bytes: seq<Byte>): nat
    requires |bytes| % 2 == 0
  {
    if bytes == [] then 0 else HighBytes(bytes[..|bytes| - 2]) + bytes[|bytes| - 1]
  }

  /** Swapping multiplies the sum by 256 modulo 65535. */
  lemma {:induction false} SumOfSwapped(bytes: seq<Byte>)
    requires |bytes| % 2 == 0
    ensures Sum(Words(SwapBytes(bytes))) == 256 * Sum(Words(bytes)) - 0xFFFF * HighBytes(bytes)
    ensures Sum(Words(bytes)) > 0 ==> Sum(Words(SwapBytes(bytes))) > 0
  {
    if bytes != [] {
      var n := |bytes| - 2;
      var rest, low, high := bytes[..n], bytes[n], bytes[n + 1];
      SumOfSwapped(rest);
      assert bytes == rest + [low, high];
      WordsSnoc(rest, low, high);
      WordsSnoc(SwapBytes(rest), high, low);
    }
  }

  /** Byte order independence: the swapped data has the swapped one's-complement sum. */
  lemma OnesSumOfSwapped(bytes: seq<Byte>)
    requires |bytes| % 2 == 0
    ensures OnesSum(Words(SwapBytes(bytes))) == SwapWord(OnesSum(Words(bytes)))
  {
    OnesSumIsReduced(Words(bytes));
    OnesSumIsReduced(Words(SwapBytes(bytes)));
    SumOfSwapped(bytes);
    ReduceSwapped(Sum(Words(bytes)), HighBytes(bytes));
  }

  lemma ReduceSwapped(s: nat, k: nat)
    requires 256 * s - 0xFFFF * k >= 0
    requires s > 0 ==> 256 * s - 0xFFFF * k > 0
    ensures Reduce(256 * s - 0xFFFF * k) == SwapWord(Reduce(s))
  {
    if s > 0 {
      var q, r := (s - 1) / 0xFFFF, Reduce(s);
      var t, m := 256 * s - 0xFFFF * k, 256 * q + r / 256 - k;
      assert s == 0xFFFF * q + r;
      assert SwapWord(r) == 256 * r - 0xFFFF * (r / 256);
      assert t == 0xFFFF * m + SwapWord(r);
      Residue(t - 1, m, SwapWord(r) - 1);
    } else {
      assert k == 0;
    }
  }

  // ---------------------------------------------------------------- checksum fields

  /**
   * Data that holds, at an even offset, the checksum of itself with those two bytes zeroed verifies to
   * zero exactly when adding the field does not overflow the accumulator; on a host of the other byte
   * order it then does exactly when the words do not overflow as that host reads them.
   */
  lemma StoredChecksumVerifies(bytes: seq<Byte>, at: nat)
    requires |bytes| % 2 == 0 && at % 2 == 0 && at + 2 <= |bytes|
    requires LittleEndian(bytes[at], bytes[at + 1]) == ChecksumOf(bytes[at := 0][at + 1 := 0])
    ensures ChecksumOf(bytes) == 0 <==>
            Accumulator(bytes[at := 0][at + 1 := 0]) + LittleEndian(bytes[at], bytes[at + 1]) < WRAP
    ensures |bytes| < 0x8000_0000 && Sum(Words(bytes)) < WRAP ==>
      (ChecksumOf(SwapBytes(bytes)) == 0 <==> Sum(Words(SwapBytes(bytes))) < WRAP)
    ensures |bytes| <= 131074 ==> ChecksumOf(bytes) == 0 && ChecksumOf(SwapBytes(bytes)) == 0
  {
    hide Sum, Words, FoldTwice, Reduce, SwapBytes, Accumulator, LittleEndian;
    var blank, field := bytes[at := 0][at + 1 := 0], LittleEndian(bytes[at], bytes[at + 1]);
    AccumulatorWithField(bytes, at);
    FieldVerifies(Accumulator(blank), field);
    if |bytes| < 0x8000_0000 && Sum(Words(bytes)) < WRAP {
      SwappedVerifies(bytes);
    }
    if |bytes| <= 131074 {
      SumFits(bytes);
      SumFits(SwapBytes(bytes));
    }
  }

  lemma AccumulatorWithField(bytes: seq<Byte>, at: nat)
    requires |bytes| % 2 == 0 && at % 2 == 0 && at + 2 <= |bytes|
    ensures var x, field := Accumulator(bytes[at := 0][at + 1 := 0]), LittleEndian(bytes[at], bytes[at + 1]);
      && Accumulator(bytes) == (x + field) % WRAP
      && (Sum(Words(bytes)) < WRAP ==> Sum(Words(bytes)) == x + field)
  {
    hide Sum, Words, LittleEndian;
    SumOfField(bytes, at);
    WrapAdd(Sum(Words(bytes[at := 0][at + 1 := 0])), LittleEndian(bytes[at], bytes[at + 1]));
  }

  /** A sum and the complement of its fold add up to all ones, unless they overflow. */
  lemma FieldVerifies(x: nat, field: Word)
    requires x < WRAP && field == Complement(FoldTwice(x))
    ensures Reduce(x + field) == 0xFFFF
    ensures FoldTwice((x + field) % WRAP) == 0xFFFF <==> x + field < WRAP
  {
    hide FoldTwice, Reduce;
    FoldIsReduce(x);
    ReduceComplement(x);
    FoldOfWrapped(x + field);
  }

  /** What a two-byte field adds to the sum. */
  lemma SumOfField(bytes: seq<Byte>, at: nat)
    requires |bytes| % 2 == 0 && at % 2 == 0 && at + 2 <= |bytes|
    ensures Sum(Words(bytes)) == Sum(Words(bytes[at := 0][at + 1 := 0])) + LittleEndian(bytes[at], bytes[at + 1])
  {
    hide Sum, Words;
    var blank := bytes[at := 0][at + 1 := 0];
    assert bytes == bytes[..at] + [bytes[at], bytes[at + 1]] + bytes[at + 2..];
    assert blank == bytes[..at] + [0, 0] + bytes[at + 2..];
    SumWithField(bytes[..at], bytes[at + 2..], 0, 0);
    SumWithField(bytes[..at], bytes[at + 2..], bytes[at], bytes[at + 1]);
  }

  lemma SwappedVerifies(bytes: seq<Byte>)
    requires |bytes| % 2 == 0 && |bytes| < 0x8000_0000 && Reduce(Sum(Words(bytes))) == 0xFFFF
    ensures ChecksumOf(SwapBytes(bytes)) == 0 <==> Sum(Words(SwapBytes(bytes))) < WRAP
  {
    hide Sum, Words, OnesSum, Reduce, FoldTwice, SwapBytes;
    OnesSumIsReduced(Words(bytes));
    OnesSumOfSwapped(bytes);
    OnesSumIsReduced(Words(SwapBytes(bytes)));
    WordCount(SwapBytes(bytes), 0x4000_0000);
    SumAtMost(Words(SwapBytes(bytes)), 0x4000_0000);
    WrappedFold(Sum(Words(SwapBytes(bytes))));
  }

  lemma ReduceComplement(s: nat)
    ensures Reduce(s + Complement(Reduce(s))) == 0xFFFF
  {
    ReduceStep(s, Complement(Reduce(s)));
    if s == 0 {
      Residue(0xFFFE, 0, 0xFFFE);
    }
  }

  lemma SumWithField(front: seq<Byte>, back: seq<Byte>, low: Byte, high: Byte)
    requires |front| % 2 == 0
    ensures Sum(Words(front + [low, high] + back))
         == Sum(Words(front)) + LittleEndian(low, high) + Sum(Words(back))
  {
    hide Sum, Words;
    var head := front + [low, high];
    assert |head| % 2 == 0;
    WordsSnoc(front, low, high);
    WordsConcat(head, back);
    SumConcat(Words(head), Words(back));
  }
}
