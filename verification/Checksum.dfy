/** The CC_BASE and CC_EXT check codes of a serial-ID page. */
module Checksum {
  import opened Bits

  /** The true sum, without wrap-around. */
  function Sum(s: seq<byte>): nat
  {
    if s == [] then 0 else Sum(s[..|s| - 1]) + s[|s| - 1]
  }

  /** 1 when the check code differs from the sum of the covered bytes modulo 256. */
  function Mismatch(covered: seq<byte>, code: byte): nat
  {
    if Sum(covered) % 256 != code then 1 else 0
  }

  /** `pm_byte_sum`: the accumulator is an unsigned char and wraps at every addition. */
  method ByteSum(block: seq<byte>, start: nat, end: int, offset: nat) returns (r: nat)
    requires start <= end + 1 <= |block| && offset < |block|
    ensures r == Mismatch(block[start..end + 1], block[offset])
  {
    var value: byte := 0;
    for idx := start to end + 1
      invariant value == Sum(block[start..idx]) % 256
    {
      assert block[start..idx + 1][..idx - start] == block[start..idx];
      value := (value + block[idx]) % 256;
    }
    if value != block[offset] {
      return 1;
    }
    return 0;
  }

  /** `sfpp_sum_verify` as a function of the page. */
  function SumVerify(page: Page): nat
  {
    Mismatch(page[0..63], page[63]) + Mismatch(page[64..95], page[95])
  }

  method SfppSumVerify(page: Page) returns (check: nat)
    ensures check == SumVerify(page)
  {
    check := ByteSum(page, 0, 62, 63);
    var ext := ByteSum(page, 64, 94, 95);
    check := check + ext;
  }

  lemma {:induction false} SumUpdate(s: seq<byte>, i: nat, v: byte)
    requires i < |s|
    ensures Sum(s[i := v]) == Sum(s) - s[i] + v
  {
    var n := |s| - 1;
    if i == n {
      assert s[i := v][..n] == s[..n];
    } else {
      assert s[i := v][..n] == s[..n][i := v];
      SumUpdate(s[..n], i, v);
    }
  }

  lemma {:induction false} SumRemove(s: seq<byte>, i: nat)
    requires i < |s|
    ensures Sum(s) == Sum(s[..i] + s[i + 1..]) + s[i]
  {
    var n := |s| - 1;
    if i == n {
      assert s[..i] + s[i + 1..] == s[..n];
    } else {
      SumRemove(s[..n], i);
      var t := s[..i] + s[i + 1..];
      assert t[..|t| - 1] == s[..n][..i] + s[..n][i + 1..];
    }
  }

  lemma RemoveFromMultiset(s: seq<byte>, i: nat)
    requires i < |s|
    ensures multiset(s[..i] + s[i + 1..]) == multiset(s) - multiset{s[i]}
  {
    assert s == s[..i] + [s[i]] + s[i + 1..];
  }

  /** The sum does not depend on the order of the bytes. */
  lemma {:induction false} SumPermutation(a: seq<byte>, b: seq<byte>)
    requires multiset(a) == multiset(b)
    ensures Sum(a) == Sum(b)
  {
    if a == [] {
      assert |multiset(b)| == 0;
    } else {
      var n := |a| - 1;
      assert a[n] in multiset(b);
      var i :| 0 <= i < |b| && b[i] == a[n];
      RemoveFromMultiset(a, n);
      RemoveFromMultiset(b, i);
      assert a[..n] + a[n + 1..] == a[..n];
      SumPermutation(a[..n], b[..i] + b[i + 1..]);
      SumRemove(b, i);
    }
  }

  lemma {:induction false} MismatchAfterUpdate(covered: seq<byte>, code: byte, i: nat, v: byte)
    requires i < |covered| && v != covered[i] && Mismatch(covered, code) == 0
    ensures Mismatch(covered[i := v], code) == 1
  {
    SumUpdate(covered, i, v);
  }

  /** Every change of a single covered byte of a good page is noticed, by one check exactly. */
  lemma {:induction false} OneByteNoticed(page: Page, i: nat, v: byte)
    requires SumVerify(page) == 0 && i < 96 && v != page[i]
    ensures SumVerify(page[i := v]) == 1
  {
    var q := page[i := v];
    if i < 63 {
      MismatchAfterUpdate(page[0..63], page[63], i, v);
      assert q[0..63] == page[0..63][i := v] && q[64..95] == page[64..95];
    } else if i < 64 {
      assert q[0..63] == page[0..63] && q[64..95] == page[64..95];
    } else if i < 95 {
      MismatchAfterUpdate(page[64..95], page[95], i - 64, v);
      assert q[0..63] == page[0..63] && q[64..95] == page[64..95][i - 64 := v];
    } else {
      assert q[0..63] == page[0..63] && q[64..95] == page[64..95];
    }
  }

  lemma {:induction false} SumOfZeros(n: nat)
    ensures Sum(seq(n, i => 0)) == 0
  {
    if n > 0 {
      var s: seq<byte> := seq(n, i => 0);
      assert s[..n - 1] == seq(n - 1, i => 0);
      SumOfZeros(n - 1);
    }
  }

  /** The page of zeros that a failed read leaves passes both checks. */
  lemma BlankPagePasses()
    ensures SumVerify(seq(128, i => 0)) == 0
  {
    var page: Page := seq(128, i => 0);
    SumOfZeros(63);
    SumOfZeros(31);
    assert page[0..63] == seq(63, i => 0) && page[64..95] == seq(31, i => 0);
  }

  /** Changing the vendor area, or reordering bytes 0-62 or 64-94, is never noticed. */
  lemma {:induction false} BlindSpots(page: Page, other: Page)
    requires multiset(page[0..63]) == multiset(other[0..63]) && page[63] == other[63]
    requires multiset(page[64..95]) == multiset(other[64..95]) && page[95] == other[95]
    ensures SumVerify(page) == SumVerify(other)
  {
    SumPermutation(page[0..63], other[0..63]);
    SumPermutation(page[64..95], other[64..95]);
  }
}
