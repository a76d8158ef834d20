/**
 * The overlay positions of `generate_pair_image`: a `u64` mutation index is
 * read as base-5 digits, least significant first, and each digit picks one of
 * five positions for the input x, input y, output x and output y overlays.
 */
module TrainingImagePositions {
  import opened Arithmetic

  type U64 = x: int | 0 <= x < 0x1_0000_0000_0000_0000

  /** Where an image is placed along one axis. */
  datatype OverlayPositionId = Zero | OneThird | Half | TwoThird | One

  /** The four positions of one pair image. */
  datatype PairPositions = PairPositions(inX: OverlayPositionId, inY: OverlayPositionId,
                                         outX: OverlayPositionId, outY: OverlayPositionId)

  /** The position a base-5 digit stands for; anything from 4 up is `One`. */
  function PositionOfVariant(variant: nat): (p: OverlayPositionId)
    ensures variant >= 4 ==> p == One
  {
    match variant
    case 0 => Zero
    case 1 => OneThird
    case 2 => Half
    case 3 => TwoThird
    case _ => One
  }

  /** The digit that stands for a position: the inverse of PositionOfVariant on 0..4. */
  function VariantOfPosition(p: OverlayPositionId): (variant: nat)
    ensures variant < 5
    ensures PositionOfVariant(variant) == p
  {
    match p
    case Zero => 0
    case OneThird => 1
    case Half => 2
    case TwoThird => 3
    case One => 4
  }

  lemma VariantOfPositionInverts(variant: nat)
    requires variant < 5
    ensures VariantOfPosition(PositionOfVariant(variant)) == variant
  {
  }

  /**
   * `take_position_id`: takes the lowest base-5 digit off the index. The
   * position and the remaining index together give back the index.
   */
  method TakePositionId(index: U64) returns (position: OverlayPositionId, remaining: U64)
    ensures VariantOfPosition(position) == index % 5
    ensures remaining == index / 5
    ensures index == 5 * remaining + VariantOfPosition(position)
    ensures remaining <= index
  {
    var variant := index % 5;
    remaining := index / 5;
    position := PositionOfVariant(variant);
    VariantOfPositionInverts(variant);
  }

  /** The running index after k takes: n divided by 5, k times over. */
  function Shift(n: nat, k: nat): nat
  {
    if k == 0 then n else Shift(n, k - 1) / 5
  }

  /** Digit k of n written in base 5, least significant digit first. */
  function Digit(n: nat, k: nat): (d: nat)
    ensures d < 5
  {
    Shift(n, k) % 5
  }

  /** Putting a digit below 5 in front of rest: the remainder is the digit and the quotient is rest. */
  lemma PeelDigit(d: nat, rest: nat)
    requires d < 5
    ensures (d + 5 * rest) % 5 == d && (d + 5 * rest) / 5 == rest
  {
    DivUnique(d + 5 * rest, 5, rest, d);
  }

  lemma DivUnique(n: nat, d: nat, q: nat, r: nat)
    requires d > 0 && r < d && n == d * q + r
    ensures n / d == q
  {
    var q', r' := n / d, n % d;
    assert n == d * q' + r';
    if q' < q {
      assert d * q == d * q' + d * (q - q');
      MulAtLeast(d, q - q');
    } else if q' > q {
      assert d * q' == d * q + d * (q' - q);
      MulAtLeast(d, q' - q);
    }
  }

  /**
   * A take from the running index after k takes yields the position of digit
   * k and leaves the running index after k + 1 takes.
   */
  lemma TakenDigit(n: nat, k: nat, position: OverlayPositionId, remaining: nat)
    requires Shift(n, k) == 5 * remaining + VariantOfPosition(position)
    ensures position == PositionOfVariant(Digit(n, k))
    ensures remaining == Shift(n, k + 1)
  {
    PeelDigit(VariantOfPosition(position), remaining);
  }

  /** The positions the mutation index selects: digits 0, 1, 2 and 3 in that order. */
  function DecodePositions(mutationIndex: nat): PairPositions
  {
    PairPositions(PositionOfVariant(Digit(mutationIndex, 0)), PositionOfVariant(Digit(mutationIndex, 1)),
                  PositionOfVariant(Digit(mutationIndex, 2)), PositionOfVariant(Digit(mutationIndex, 3)))
  }

  /** The smallest mutation index that selects the given positions. */
  function EncodePositions(p: PairPositions): (n: nat)
    ensures n < 625
  {
    VariantOfPosition(p.inX) + 5 * VariantOfPosition(p.inY)
      + 25 * VariantOfPosition(p.outX) + 125 * VariantOfPosition(p.outY)
  }

  /**
   * The decoding block of `generate_pair_image`: four successive
   * `take_position_id` calls on one running index.
   */
  method DecodeMutationIndex(mutationIndex: U64) returns (positions: PairPositions)
    ensures positions == DecodePositions(mutationIndex)
  {
    var currentMutation: U64 := mutationIndex;
    var inX, inY, outX, outY;
    inX, currentMutation := TakePositionId(currentMutation);
    TakenDigit(mutationIndex, 0, inX, currentMutation);
    inY, currentMutation := TakePositionId(currentMutation);
    TakenDigit(mutationIndex, 1, inY, currentMutation);
    outX, currentMutation := TakePositionId(currentMutation);
    TakenDigit(mutationIndex, 2, outX, currentMutation);
    outY, currentMutation := TakePositionId(currentMutation);
    TakenDigit(mutationIndex, 3, outY, currentMutation);
    positions := PairPositions(inX, inY, outX, outY);
  }

  /** Encoding then decoding gives the positions back. */
  lemma DecodeEncode(p: PairPositions)
    ensures DecodePositions(EncodePositions(p)) == p
  {
    var a, b, c, d := VariantOfPosition(p.inX), VariantOfPosition(p.inY),
                      VariantOfPosition(p.outX), VariantOfPosition(p.outY);
    var n3 := d;
    var n2 := c + 5 * n3;
    var n1 := b + 5 * n2;
    var n := a + 5 * n1;
    assert n == EncodePositions(p);
    PeelDigit(a, n1);
    PeelDigit(b, n2);
    PeelDigit(c, n3);
    PeelDigit(d, 0);
    assert Shift(n, 1) == n1 && Shift(n, 2) == n2 && Shift(n, 3) == n3;
  }

  /** Decoding then encoding gives the index modulo 5^4 back. */
  lemma EncodeDecode(mutationIndex: nat)
    ensures EncodePositions(DecodePositions(mutationIndex)) == mutationIndex % 625
  {
    var n := mutationIndex;
    var n1, n2, n3 := n / 5, n / 5 / 5, n / 5 / 5 / 5;
    assert Shift(n, 1) == n1 && Shift(n, 2) == n2 && Shift(n, 3) == n3;
    var d0, d1, d2, d3 := n % 5, n1 % 5, n2 % 5, n3 % 5;
    VariantOfPositionInverts(d0);
    VariantOfPositionInverts(d1);
    VariantOfPositionInverts(d2);
    VariantOfPositionInverts(d3);
    var r := d0 + 5 * d1 + 25 * d2 + 125 * d3;
    assert n == 625 * (n3 / 5) + r;
    ModUnique(n, 625, n3 / 5, r);
  }

  lemma ModUnique(n: nat, d: nat, q: nat, r: nat)
    requires d > 0 && r < d && n == d * q + r
    ensures n % d == r
  {
    DivUnique(n, d, q, r);
  }

  /** Only the index modulo 625 matters. */
  lemma DecodeDependsOnResidue(mutationIndex: nat)
    ensures DecodePositions(mutationIndex) == DecodePositions(mutationIndex % 625)
  {
    EncodeDecode(mutationIndex);
    DecodeEncode(DecodePositions(mutationIndex));
    EncodeDecode(mutationIndex % 625);
    DecodeEncode(DecodePositions(mutationIndex % 625));
  }

  /** Distinct indexes below 625 select distinct positions. */
  lemma DecodeInjectiveBelow625(m: nat, n: nat)
    requires m < 625 && n < 625 && m != n
    ensures DecodePositions(m) != DecodePositions(n)
  {
    EncodeDecode(m);
    EncodeDecode(n);
    ModUnique(m, 625, 0, m);
    ModUnique(n, 625, 0, n);
  }

  /** The mutation indexes `export_task` uses. */
  lemma ExportedMutationIndexes()
    ensures DecodePositions(0) == PairPositions(Zero, Zero, Zero, Zero)
    ensures DecodePositions(4) == PairPositions(One, Zero, Zero, Zero)
    ensures DecodePositions(312) == PairPositions(Half, Half, Half, Half)
    ensures DecodePositions(624) == PairPositions(One, One, One, One)
  {
  }
}
