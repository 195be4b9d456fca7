/** Seat arithmetic shared by `TableModel.RestartRound` and the
    `GameContext(newPlayers, lastDealerIndex)` constructor: the dealer moves
    one seat on and the blinds sit one and two seats after the dealer, all
    modulo the number of players. */
module Seating {

  /** C#'s `int`: 32-bit two's complement. */
  const IntMin: int := -0x8000_0000
  const IntMax: int := 0x7fff_ffff
  type Int32 = x: int | -0x8000_0000 <= x <= 0x7fff_ffff

  /** Unchecked `int` arithmetic: the mathematical result brought back into
      the 32-bit range modulo 2^32, so `int.MaxValue + 1` is `int.MinValue`. */
  function Wrap32(x: int): (r: Int32)
    ensures IntMin <= x <= IntMax ==> r == x
    ensures x == IntMax + 1 ==> r == IntMin
  {
    ((x - IntMin) % 0x1_0000_0000 + IntMin) as Int32
  }

  /** The wrapped value differs from the mathematical one by a multiple of
      2^32. */
  lemma Wrap32Congruent(x: int)
    ensures (Wrap32(x) - x) % 0x1_0000_0000 == 0
  {
  }

  /** The `%` operator of C#: the remainder of division truncated toward
      zero, which takes the sign of the dividend. */
  function CsRem(a: int, n: int): (r: int)
    requires n > 0
    ensures -n < r < n
    ensures a >= 0 ==> r >= 0
    ensures a <= 0 ==> r <= 0
  {
    if a >= 0 then a % n else -((-a) % n)
  }

  /** The quotient of C#'s integer division, truncated toward zero. */
  function CsQuot(a: int, n: int): int
    requires n > 0
  {
    if a >= 0 then a / n else -((-a) / n)
  }

  /** C#'s quotient and remainder recompose the dividend. */
  lemma CsDivision(a: int, n: int)
    requires n > 0
    ensures a == CsQuot(a, n) * n + CsRem(a, n)
  {
  }

  /** On a non-negative dividend the C# remainder is the mathematical one. */
  lemma CsRemNonNegative(a: int, n: int)
    requires n > 0 && a >= 0
    ensures CsRem(a, n) == a % n
    ensures 0 <= CsRem(a, n) < n
  {
  }

  /** The three seats of a hand: dealer, small blind and big blind. */
  datatype Seats = Seats(dealer: int, smallBlind: int, bigBlind: int)

  /** `DealerIndex = (last + 1) % n`, `SmallBlindIndex = (dealer + 1) % n`,
      `BigBlindIndex = (dealer + 2) % n`, each sum in unchecked `int`
      arithmetic. `n` is a list count, so at most `int.MaxValue`; a count of
      zero makes the source divide by zero and is excluded here. */
  function BlindSeats(n: int, lastDealerIndex: Int32): (s: Seats)
    requires 0 < n <= IntMax
    ensures -n < s.dealer < n && -n < s.smallBlind < n && -n < s.bigBlind < n
    ensures -1 <= lastDealerIndex < IntMax && n < IntMax ==>
              0 <= s.dealer && 0 <= s.smallBlind && 0 <= s.bigBlind
  {
    var dealer := CsRem(Wrap32(lastDealerIndex + 1), n);
    Seats(dealer, CsRem(Wrap32(dealer + 1), n), CsRem(Wrap32(dealer + 2), n))
  }

  /** With a previous dealer from -1 up to below `int.MaxValue` (so that no
      sum wraps), every seat is a valid index. */
  lemma BlindSeatsInRange(n: int, lastDealerIndex: Int32) returns (s: Seats)
    requires 0 < n < IntMax && -1 <= lastDealerIndex < IntMax
    ensures s == BlindSeats(n, lastDealerIndex)
    ensures var s := BlindSeats(n, lastDealerIndex);
      0 <= s.dealer < n && 0 <= s.smallBlind < n && 0 <= s.bigBlind < n
    ensures var s := BlindSeats(n, lastDealerIndex);
      s.dealer == (lastDealerIndex + 1) % n &&
      s.smallBlind == (s.dealer + 1) % n &&
      s.bigBlind == (s.dealer + 2) % n
  {
    s := BlindSeats(n, lastDealerIndex);
    CsRemNonNegative(lastDealerIndex + 1, n);
    CsRemNonNegative(s.dealer + 1, n);
    CsRemNonNegative(s.dealer + 2, n);
  }

  /** At `int.MaxValue` the increment wraps to `int.MinValue`, whose C#
      remainder is negative: three players get a dealer index of -2. */
  lemma DealerWrapsAtIntMax()
    ensures BlindSeats(3, IntMax) == Seats(-2, -1, 0)
  {
    assert Wrap32(IntMax + 1) == IntMin;
  }

  /** Heads-up the big blind falls on the dealer. */
  lemma HeadsUpBigBlindIsDealer(lastDealerIndex: Int32)
    requires -1 <= lastDealerIndex < IntMax
    ensures BlindSeats(2, lastDealerIndex).bigBlind == BlindSeats(2, lastDealerIndex).dealer
  {
    var s := BlindSeatsInRange(2, lastDealerIndex);
    NextSeat(s.dealer, 2, 2);
  }

  /** From three players on, dealer and blinds are three different seats. */
  lemma ThreeDistinctSeats(n: int, lastDealerIndex: Int32)
    requires 3 <= n < IntMax && -1 <= lastDealerIndex < IntMax
    ensures var s := BlindSeats(n, lastDealerIndex);
      s.dealer != s.smallBlind && s.smallBlind != s.bigBlind && s.dealer != s.bigBlind
  {
    var s := BlindSeatsInRange(n, lastDealerIndex);
    NextSeat(s.dealer, 1, n);
    NextSeat(s.dealer, 2, n);
  }

  /** Moving `k` seats on from a valid seat wraps around at most once. */
  lemma NextSeat(d: int, k: int, n: int)
    requires 0 <= d < n && 0 <= k <= n
    ensures (d + k) % n == if d + k < n then d + k else d + k - n
  {
    if d + k >= n {
      assert d + k == n * 1 + (d + k - n);
    }
  }

  /** The source does not guard against a previous dealer below -1: the
      truncating remainder then gives a negative dealer index exactly when
      `last + 1` is not a multiple of the player count. */
  lemma NegativeDealerIndex(n: int, last: Int32)
    requires 0 < n <= IntMax && last < -1
    ensures BlindSeats(n, last).dealer < 0 <==> (last + 1) % n != 0
  {
    var a := last + 1;
    assert Wrap32(a) == a;
    var q, r := (-a) / n, (-a) % n;
    assert -a == q * n + r;
    if r == 0 {
      MultiplePlus(-q, n, 0);
      assert a == -q * n + 0;
    } else {
      MultiplePlus(-q - 1, n, n - r);
      assert a == (-q - 1) * n + (n - r);
    }
  }

  /** Euclidean division leaves the remainder `r` of `k * n + r`. */
  lemma MultiplePlus(k: int, n: int, r: int)
    requires 0 <= r < n
    ensures (k * n + r) % n == r
  {
    var x := k * n + r;
    var d := x / n - k;
    assert d * n == r - x % n;
    assert d >= 1 ==> d * n >= n;
    assert d <= -1 ==> d * n <= -n;
  }

  /** Three players after a previous dealer of -5: the dealer index is -1;
      after -4 it is 0. */
  lemma NegativeDealerExample()
    ensures BlindSeats(3, -5).dealer == -1
    ensures BlindSeats(3, -4).dealer == 0
  {
  }
}
