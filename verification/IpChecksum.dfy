/** The Internet checksum of ext/dnet/ip.h: ip_cksum_add with its unrolled loop, and
    ip_cksum_carry. */
module IpChecksum {

  type Byte = x: nat | x < 256
  type Half = x: nat | x < 0x1_0000

  const INT_MAX: nat := 0x7fff_ffff

  /** The host's byte order decides how two bytes make a 16-bit word. */
  datatype Order = Little | Big

  function Word(o: Order, a: Byte, b: Byte): Half {
    if o.Little? then a + 256 * b else 256 * a + b
  }

  function Swap(w: Half): Half {
    w / 256 + 256 * (w % 256)
  }

  // ------------------------------------------------------------------------------------
  // The plain sum
  // ------------------------------------------------------------------------------------

  /** The word at index i of the buffer; an odd last byte counts as if a zero byte followed. */
  function WordAt(o: Order, buf: seq<Byte>, i: nat): Half
    requires 2 * i < |buf|
  {
    Word(o, buf[2 * i], if 2 * i + 1 < |buf| then buf[2 * i + 1] else 0)
  }

  /** The sum of the first n words. */
  function Sum(o: Order, buf: seq<Byte>, n: nat): nat
    requires 2 * n <= |buf| + 1
  {
    if n == 0 then 0 else Sum(o, buf, n - 1) + WordAt(o, buf, n - 1)
  }

  function Words(buf: seq<Byte>): nat {
    (|buf| + 1) / 2
  }

  lemma {:induction false} SumBound(o: Order, buf: seq<Byte>, n: nat)
    requires 2 * n <= |buf| + 1
    ensures Sum(o, buf, n) <= 0xffff * n
  {
    if n > 0 { SumBound(o, buf, n - 1); }
  }

  lemma {:induction false} SumMonotone(o: Order, buf: seq<Byte>, m: nat, n: nat)
    requires m <= n && 2 * n <= |buf| + 1
    ensures Sum(o, buf, m) <= Sum(o, buf, n)
  {
    if m < n { SumMonotone(o, buf, m, n - 1); }
  }

  /** An int holds the sum of every buffer an IP packet can have. */
  lemma SumFits(o: Order, buf: seq<Byte>)
    requires |buf| <= 65535
    ensures Sum(o, buf, Words(buf)) <= INT_MAX
  {
    SumBound(o, buf, Words(buf));
  }

  // ------------------------------------------------------------------------------------
  // The unrolled loop
  // ------------------------------------------------------------------------------------

  /** htons(byte << 8). */
  function TailWord(o: Order, b: Byte): Half {
    if o.Little? then Swap(256 * b) else 256 * b
  }

  /** The odd last byte counts as a word of its own. */
  lemma TailIsWord(o: Order, buf: seq<Byte>)
    requires |buf| % 2 == 1
    ensures Words(buf) == |buf| / 2 + 1
    ensures Sum(o, buf, Words(buf)) == Sum(o, buf, |buf| / 2) + TailWord(o, buf[|buf| - 1])
  {}

  lemma {:induction false} SumPrefix(o: Order, buf: seq<Byte>, more: seq<Byte>, n: nat)
    requires 2 * n <= |buf|
    ensures Sum(o, buf + more, n) == Sum(o, buf, n)
  {
    if n > 0 { SumPrefix(o, buf, more, n - 1); }
  }

  /** A buffer of odd length sums like the buffer with a zero byte appended. */
  lemma OddAsPadded(o: Order, buf: seq<Byte>)
    requires |buf| % 2 == 1
    ensures Words(buf + [0]) == Words(buf) && Sum(o, buf + [0], Words(buf)) == Sum(o, buf, Words(buf))
  {
    var n := |buf| / 2;
    SumPrefix(o, buf, [0], n);
    assert WordAt(o, buf + [0], n) == WordAt(o, buf, n);
  }

  lemma SumNone(o: Order, buf: seq<Byte>)
    ensures Sum(o, buf, 0) == 0
  {}

  /** One statement of the body: *sp++ is added, below the end of the pass. */
  method AddWord(o: Order, buf: seq<Byte>, sp: nat, ghost end: nat, ghost start: nat, cksum: nat)
    returns (sp': nat, cksum': nat)
    requires sp < end && 2 * end <= |buf| && start + Sum(o, buf, end) <= INT_MAX
    requires cksum == start + Sum(o, buf, sp)
    ensures sp' == sp + 1 && cksum' == start + Sum(o, buf, sp')
  {
    SumMonotone(o, buf, sp + 1, end);
    cksum' := cksum + Word(o, buf[2 * sp], buf[2 * sp + 1]);
    sp' := sp + 1;
    assert cksum' <= INT_MAX;
  }

  /** The words between a case label and the end of the body. */
  function Behind(entry: nat): nat { if entry == 0 then 16 else entry }

  /** One pass through the body of the device from a case label on. The labels stand in the
      order 0, 15, 14, ..., 1, and control falls through to the end. */
  method Pass(o: Order, buf: seq<Byte>, sp: nat, ghost start: nat, cksum: nat, entry: nat)
    returns (sp': nat, cksum': nat)
    requires entry < 16
    requires 2 * (sp + Behind(entry)) <= |buf| && start + Sum(o, buf, sp + Behind(entry)) <= INT_MAX
    requires cksum == start + Sum(o, buf, sp)
    ensures sp' == sp + Behind(entry) && cksum' == start + Sum(o, buf, sp')
  {
    hide Sum;
    ghost var end := sp + Behind(entry);
    sp', cksum' := sp, cksum;
    if entry == 0 { sp', cksum' := AddWord(o, buf, sp', end, start, cksum'); }
    if entry == 0 || entry >= 15 { sp', cksum' := AddWord(o, buf, sp', end, start, cksum'); }
    if entry == 0 || entry >= 14 { sp', cksum' := AddWord(o, buf, sp', end, start, cksum'); }
    if entry == 0 || entry >= 13 { sp', cksum' := AddWord(o, buf, sp', end, start, cksum'); }
    if entry == 0 || entry >= 12 { sp', cksum' := AddWord(o, buf, sp', end, start, cksum'); }
    if entry == 0 || entry >= 11 { sp', cksum' := AddWord(o, buf, sp', end, start, cksum'); }
    if entry == 0 || entry >= 10 { sp', cksum' := AddWord(o, buf, sp', end, start, cksum'); }
    if entry == 0 || entry >= 9 { sp', cksum' := AddWord(o, buf, sp', end, start, cksum'); }
    if entry == 0 || entry >= 8 { sp', cksum' := AddWord(o, buf, sp', end, start, cksum'); }
    if entry == 0 || entry >= 7 { sp', cksum' := AddWord(o, buf, sp', end, start, cksum'); }
    if entry == 0 || entry >= 6 { sp', cksum' := AddWord(o, buf, sp', end, start, cksum'); }
    if entry == 0 || entry >= 5 { sp', cksum' := AddWord(o, buf, sp', end, start, cksum'); }
    if entry == 0 || entry >= 4 { sp', cksum' := AddWord(o, buf, sp', end, start, cksum'); }
    if entry == 0 || entry >= 3 { sp', cksum' := AddWord(o, buf, sp', end, start, cksum'); }
    if entry == 0 || entry >= 2 { sp', cksum' := AddWord(o, buf, sp', end, start, cksum'); }
    if entry == 0 || entry >= 1 { sp', cksum' := AddWord(o, buf, sp', end, start, cksum'); }
  }

  /** ip_cksum_add, for at least one whole word. The switch enters the first pass at case
      sn % 16, later ones start at the top; n counts the passes. */
  method CksumAdd(o: Order, buf: seq<Byte>, start: nat) returns (cksum: nat)
    requires |buf| >= 2 && start + Sum(o, buf, Words(buf)) <= INT_MAX
    ensures cksum == start + Sum(o, buf, Words(buf))
    ensures |buf| % 2 == 1 ==> cksum == start + Sum(o, buf + [0], Words(buf + [0]))
  {
    hide Sum, WordAt, TailWord;
    var sn := |buf| / 2;
    SumMonotone(o, buf, sn, Words(buf));
    SumNone(o, buf);
    var n: int := (sn + 15) / 16;
    var sp := 0;
    SumMonotone(o, buf, Behind(sn % 16), sn);
    sp, cksum := Pass(o, buf, sp, start, start, sn % 16);
    n := n - 1;
    while n > 0
      invariant n >= 0 && sp + 16 * n == sn
      invariant cksum == start + Sum(o, buf, sp)
    {
      SumMonotone(o, buf, sp + 16, sn);
      sp, cksum := Pass(o, buf, sp, start, cksum, 0);
      n := n - 1;
    }
    if |buf| % 2 == 1 {
      TailIsWord(o, buf);
      OddAsPadded(o, buf);
      cksum := cksum + TailWord(o, buf[2 * sp]);
    }
  }

  // ------------------------------------------------------------------------------------
  // Folding the carries
  // ------------------------------------------------------------------------------------

  /** The two end-around additions, before the complement. */
  function Fold(x: nat): (y: nat)
    requires x <= INT_MAX
    ensures y <= 0xffff
  {
    var h := x / 0x1_0000 + x % 0x1_0000;
    (h + h / 0x1_0000) % 0x1_0000
  }

  /** ip_cksum_carry. */
  function Carry(x: nat): Half
    requires x <= INT_MAX
  {
    0xffff - Fold(x)
  }

  /** The example of RFC 1071, section 3, in network byte order. */
  lemma NetworkExample()
    ensures var buf := [0x00, 0x01, 0xf2, 0x03, 0xf4, 0xf5, 0xf6, 0xf7];
      Words(buf) == 4 && Sum(Big, buf, 4) == 0x2ddf0 && Carry(0x2ddf0) == 0x220d
  {
    var buf: seq<Byte> := [0x00, 0x01, 0xf2, 0x03, 0xf4, 0xf5, 0xf6, 0xf7];
    assert Sum(Big, buf, 2) == 0xf204;
    assert Sum(Big, buf, 3) == 0x1e6f9;
  }

  /** One's complement arithmetic has two zeros; a non-empty sum folds to the upper one. */
  function Residue(x: nat): nat {
    if x == 0 then 0 else 1 + (x - 1) % 0xffff
  }

  /** Folding the carries computes the one's complement sum. */
  lemma FoldIsResidue(x: nat)
    requires x <= INT_MAX
    ensures Fold(x) == Residue(x)
  {
    var h := x / 0x1_0000 + x % 0x1_0000;
    assert Fold(x) == if h < 0x1_0000 then h else h - 0xffff;
    if h < 0x1_0000 {
      ResidueUnique(x, h, x / 0x1_0000);
    } else {
      ResidueUnique(x, h - 0xffff, x / 0x1_0000 + 1);
    }
  }

  lemma ResidueUnique(x: nat, r: nat, k: int)
    requires x == r + 0xffff * k && r <= 0xffff && (r == 0 <==> x == 0)
    ensures Residue(x) == r
  {}

  lemma ResidueWitness(x: nat) returns (k: int)
    ensures x == Residue(x) + 0xffff * k && Residue(x) <= 0xffff && (Residue(x) == 0 <==> x == 0)
  {
    k := if x == 0 then 0 else (x - 1) / 0xffff;
  }

  /** The receiver's test accepts exactly the positive multiples of 0xffff. */
  lemma VerifiesIff(x: nat)
    requires x <= INT_MAX
    ensures Carry(x) == 0 <==> x > 0 && x % 0xffff == 0
  {
    hide Fold;
    FoldIsResidue(x);
  }

  // ------------------------------------------------------------------------------------
  // Storing and verifying
  // ------------------------------------------------------------------------------------

  function SetWord(o: Order, buf: seq<Byte>, i: nat, w: Half): seq<Byte>
    requires 2 * i + 1 < |buf|
  {
    if o.Little? then buf[2 * i := w % 256][2 * i + 1 := w / 256]
    else buf[2 * i := w / 256][2 * i + 1 := w % 256]
  }

  lemma {:induction false} SumSet(o: Order, buf: seq<Byte>, i: nat, w: Half, n: nat)
    requires 2 * i + 1 < |buf| && 2 * n <= |buf| + 1
    ensures Sum(o, SetWord(o, buf, i, w), n) + (if i < n then WordAt(o, buf, i) else 0)
         == Sum(o, buf, n) + (if i < n then w else 0)
  {
    if n > 0 {
      SumSet(o, buf, i, w, n - 1);
      if n - 1 != i {
        assert WordAt(o, SetWord(o, buf, i, w), n - 1) == WordAt(o, buf, n - 1);
      }
    }
  }

  /** A sum and its checksum make a multiple of 0xffff. */
  lemma Completes(x: nat) returns (k: nat)
    requires x <= INT_MAX
    ensures x + Carry(x) == 0xffff * k && k > 0
  {
    hide Fold;
    FoldIsResidue(x);
    var j := ResidueWitness(x);
    k := j + 1;
  }

  lemma MultipleVerifies(x: nat, k: nat)
    requires x <= INT_MAX && x == 0xffff * k && k > 0
    ensures Carry(x) == 0
  {
    hide Fold;
    VerifiesIff(x);
  }

  /** A buffer checksums to zero once the checksum of its zeroed form has been stored. */
  lemma StoredVerifies(o: Order, buf: seq<Byte>, i: nat)
    requires |buf| <= 65535 && 2 * i + 1 < |buf| && WordAt(o, buf, i) == 0
    ensures Sum(o, buf, Words(buf)) <= INT_MAX
    ensures var sent := SetWord(o, buf, i, Carry(Sum(o, buf, Words(buf))));
      Sum(o, sent, Words(sent)) <= INT_MAX && Carry(Sum(o, sent, Words(sent))) == 0
  {
    hide Fold, Carry, Sum, WordAt;
    SumFits(o, buf);
    var x := Sum(o, buf, Words(buf));
    var sent := SetWord(o, buf, i, Carry(x));
    SumFits(o, sent);
    SumSet(o, buf, i, Carry(x), Words(buf));
    var k := Completes(x);
    MultipleVerifies(Sum(o, sent, Words(sent)), k);
  }

  /** A change of one word of a verified buffer goes unnoticed exactly when it exchanges the
      two zeros of one's complement, and the rest is not all zero. */
  lemma ChangeDetected(o: Order, buf: seq<Byte>, i: nat, w: Half)
    requires |buf| <= 65535 && 2 * i + 1 < |buf| && w != WordAt(o, buf, i)
    requires Sum(o, buf, Words(buf)) <= INT_MAX && Carry(Sum(o, buf, Words(buf))) == 0
    ensures var got := SetWord(o, buf, i, w);
      && Sum(o, got, Words(got)) <= INT_MAX
      && (Carry(Sum(o, got, Words(got))) == 0 <==>
            && Sum(o, got, Words(got)) > 0
            && ((w == 0 && WordAt(o, buf, i) == 0xffff) || (w == 0xffff && WordAt(o, buf, i) == 0)))
  {
    hide Fold, Carry;
    var got := SetWord(o, buf, i, w);
    SumFits(o, got);
    SumSet(o, buf, i, w, Words(buf));
    VerifiesIff(Sum(o, buf, Words(buf)));
    VerifiesIff(Sum(o, got, Words(got)));
    MultiplesDiffer(Sum(o, buf, Words(buf)), Sum(o, got, Words(got)), w - WordAt(o, buf, i));
  }

  lemma MultiplesDiffer(a: nat, b: nat, d: int)
    requires a % 0xffff == 0 && b == a + d && -0xffff <= d <= 0xffff && d != 0
    ensures b % 0xffff == 0 <==> d == 0xffff || d == -0xffff
  {}

  // ------------------------------------------------------------------------------------
  // Byte order independence
  // ------------------------------------------------------------------------------------

  /** The little-endian sum is 256 times the big-endian one, up to multiples of 0xffff. */
  lemma {:induction false} SumSwaps(buf: seq<Byte>, n: nat) returns (k: int)
    requires 2 * n <= |buf| + 1
    ensures Sum(Little, buf, n) == 256 * Sum(Big, buf, n) + 0xffff * k
    ensures Sum(Little, buf, n) == 0 <==> Sum(Big, buf, n) == 0
  {
    k := 0;
    if n > 0 {
      k := SumSwaps(buf, n - 1);
      k := k - buf[2 * (n - 1)];
    }
  }

  lemma SwapResidue(l: nat, b: nat, k: int)
    requires l == 256 * b + 0xffff * k && (l == 0 <==> b == 0)
    ensures Residue(b) <= 0xffff && Residue(l) == Swap(Residue(b))
  {
    var r := Residue(b);
    var j := ResidueWitness(b);
    assert 256 * r == Swap(r) + 0xffff * (r / 256);
    ResidueUnique(l, Swap(r), 256 * j + r / 256 + k);
  }

  lemma SwapBytes(w: Half)
    ensures Swap(w) / 256 == w % 256 && Swap(w) % 256 == w / 256
    ensures Swap(0xffff - w) == 0xffff - Swap(w)
  {}

  /** Hosts of either byte order put the same two bytes into the packet. */
  lemma ByteOrderIndependent(buf: seq<Byte>, i: nat)
    requires |buf| <= 65535 && 2 * i + 1 < |buf|
    ensures Sum(Little, buf, Words(buf)) <= INT_MAX && Sum(Big, buf, Words(buf)) <= INT_MAX
    ensures Carry(Sum(Little, buf, Words(buf))) == Swap(Carry(Sum(Big, buf, Words(buf))))
    ensures SetWord(Little, buf, i, Carry(Sum(Little, buf, Words(buf))))
         == SetWord(Big, buf, i, Carry(Sum(Big, buf, Words(buf))))
  {
    hide Fold, Residue, Swap, Sum;
    SumFits(Little, buf);
    SumFits(Big, buf);
    SwapBytes(Fold(Sum(Big, buf, Words(buf))));
    SwapBytes(Carry(Sum(Big, buf, Words(buf))));
    var k := SumSwaps(buf, Words(buf));
    SwapResidue(Sum(Little, buf, Words(buf)), Sum(Big, buf, Words(buf)), k);
    FoldIsResidue(Sum(Little, buf, Words(buf)));
    FoldIsResidue(Sum(Big, buf, Words(buf)));
  }
}
