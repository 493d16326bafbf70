/** Difficulty retargeting: exact rational arithmetic over the last ten blocks, floored. */
module Difficulty {
  import opened Types
  import opened Hex
  import opened Blocks

  const TARGET_BLOCK_TIME := 20
  const DIFFICULTY_WINDOW := 10
  const DYNAMIC_START := 1000
  const TWENTY_F := "ffffffffffffffffffff"

  /** Fifty-nine times the digit f. */
  const INITIAL_DIFFICULTY := TWENTY_F + TWENTY_F + "fffffffffffffffffff"

  /** Integer division as the machine does it: toward zero. */
  function TruncDiv(a: int, b: int): (q: int)
    requires b > 0
    ensures if a >= 0 then 0 <= a - q * b < b else -b < a - q * b <= 0
  {
    if a >= 0 then a / b else -(-a / b)
  }

  /** The sum of the reciprocals, leaving out zeros. */
  function InverseSum(ds: seq<int>): real {
    if ds == [] then 0.0 else
    InverseSum(ds[..|ds| - 1]) + if ds[|ds| - 1] == 0 then 0.0 else 1.0 / ds[|ds| - 1] as real
  }

  /** The new difficulty from the window's duration in seconds and the sum of reciprocal
      difficulties; none when one of the two rational divisions is by zero, which panics. */
  function Retarget(seconds: int, inverseSum: real): Option<int> {
    if seconds == 0 || inverseSum == 0.0 then None else
    var ratio := inverseSum / seconds as real;
    var adjusted := ratio * TARGET_BLOCK_TIME as real;
    if adjusted == 0.0 then None else Some((1.0 / adjusted).Floor)
  }

  /** The difficulties of the ten blocks before `cur`. */
  function Window(c: Crypto, blocks: seq<Block>, cur: nat): seq<int>
    requires DYNAMIC_START < cur <= |blocks|
  {
    seq(DIFFICULTY_WINDOW, i requires 0 <= i < DIFFICULTY_WINDOW =>
      BigOf(c, blocks[cur - DIFFICULTY_WINDOW + i].header.difficulty))
  }

  /** Whole seconds from the block before the window to the last block before `cur`. */
  function WindowSeconds(blocks: seq<Block>, cur: nat): int
    requires DYNAMIC_START < cur <= |blocks|
  {
    TruncDiv(Wrap64(blocks[cur - 1].header.timestamp - blocks[cur - 1 - DIFFICULTY_WINDOW].header.timestamp), 1000)
  }

  /** The difficulty due at height `cur`. */
  function DifficultyAt(c: Crypto, blocks: seq<Block>, cur: nat): Option<string>
    requires cur > DYNAMIC_START ==> cur <= |blocks|
  {
    if cur <= DYNAMIC_START then Some(INITIAL_DIFFICULTY) else
    match Retarget(WindowSeconds(blocks, cur), InverseSum(Window(c, blocks, cur)))
    case Some(n) => Some(Format(n))
    case None => None
  }

  lemma InverseSumStep(ds: seq<int>, i: nat)
    requires i < |ds|
    ensures InverseSum(ds[..i + 1]) == InverseSum(ds[..i]) + if ds[i] == 0 then 0.0 else 1.0 / ds[i] as real
  {
    assert ds[..i + 1][..i] == ds[..i];
  }

  /** The loop over the window, skipping blocks of zero difficulty. */
  method SumReciprocals(c: Crypto, blocks: seq<Block>, cur: nat) returns (sum: real)
    requires DYNAMIC_START < cur <= |blocks|
    ensures sum == InverseSum(Window(c, blocks, cur))
  {
    sum := 0.0;
    ghost var window := Window(c, blocks, cur);
    for i := 0 to DIFFICULTY_WINDOW
      invariant sum == InverseSum(window[..i])
    {
      var d := BigOf(c, blocks[cur - DIFFICULTY_WINDOW + i].header.difficulty);
      assert d == window[i];
      InverseSumStep(window, i);
      if d != 0 {
        sum := sum + 1.0 / d as real;
      }
    }
    assert window[..DIFFICULTY_WINDOW] == window;
  }

  /** The window never reaches the genesis block, since it is used only beyond height 1000. */
  method GetDifficulty(c: Crypto, blocks: seq<Block>, cur: nat) returns (r: Option<string>)
    requires cur > DYNAMIC_START ==> cur <= |blocks|
    ensures r == DifficultyAt(c, blocks, cur)
  {
    if cur <= DYNAMIC_START {
      return Some(INITIAL_DIFFICULTY);
    }
    var start := cur - DIFFICULTY_WINDOW;
    var totalTime := Wrap64(blocks[cur - 1].header.timestamp - blocks[start - 1].header.timestamp);
    var totalDifficulty := SumReciprocals(c, blocks, cur);
    match Retarget(TruncDiv(totalTime, 1000), totalDifficulty)
    case Some(n) => return Some(Format(n));
    case None => return None;
  }

  // --- Arithmetic --------------------------------------------------------------

  lemma Product(x: real, y: real)
    requires x > 0.0 && y > 0.0
    ensures x * y > 0.0
  {
  }

  lemma Scale(x: real, y: real, k: real)
    requires x <= y && k >= 0.0
    ensures x * k <= y * k
  {
  }

  lemma FloorMonotone(x: real, y: real)
    requires x <= y
    ensures x.Floor <= y.Floor
  {
  }

  /** Moving a positive divisor across an inequality. */
  lemma QuotientBound(a: real, b: real, q: real)
    requires b > 0.0
    ensures a / b <= q <==> a <= q * b
    ensures q <= a / b <==> q * b <= a
  {
  }

  /** Unless the duration or the sum is zero nothing is divided by zero, and the chain of
      roundless operations collapses to one quotient. */
  lemma RetargetIs(seconds: int, s: real)
    requires seconds != 0 && s != 0.0
    ensures 20.0 * s != 0.0 && Retarget(seconds, s) == Some((seconds as real / (20.0 * s)).Floor)
  {
    var t := seconds as real;
    var ratio := s / t;
    assert ratio * t == s;
    assert ratio != 0.0;
    var adjusted := ratio * 20.0;
    var inv := 1.0 / adjusted;
    assert inv * adjusted == 1.0;
    Associate(inv, ratio, t);
    assert inv * (20.0 * s) == t;
    var q := t / (20.0 * s);
    assert q * (20.0 * s) == t;
    SameQuotient(inv, q, 20.0 * s);
  }

  lemma Associate(a: real, r: real, t: real)
    ensures a * (20.0 * (r * t)) == (a * (r * 20.0)) * t
  {
  }

  lemma SameQuotient(x: real, y: real, d: real)
    requires d != 0.0 && x * d == y * d
    ensures x == y
  {
    assert (x - y) * d == 0.0;
  }

  /** Reciprocal sums of positive difficulties lie between those of their bounds. */
  lemma {:induction false} InverseSumBounds(ds: seq<int>, lo: int, hi: int)
    requires 0 < lo <= hi && forall i :: 0 <= i < |ds| ==> lo <= ds[i] <= hi
    ensures |ds| as real / hi as real <= InverseSum(ds) <= |ds| as real / lo as real
  {
    if ds == [] {
    } else {
      var n := |ds| - 1;
      InverseSumBounds(ds[..n], lo, hi);
      ReciprocalOrder(lo, ds[n]);
      ReciprocalOrder(ds[n], hi);
      AddOne(n, lo);
      AddOne(n, hi);
    }
  }

  lemma AddOne(n: nat, d: int)
    requires d > 0
    ensures (n + 1) as real / d as real == n as real / d as real + 1.0 / d as real
  {
  }

  lemma ReciprocalOrder(a: int, b: int)
    requires 0 < a <= b
    ensures 0.0 < 1.0 / b as real <= 1.0 / a as real
  {
  }

  /** The divisions go wrong exactly when no whole second has passed or the reciprocals of
      the window sum to zero. */
  lemma RetargetDefined(seconds: int, s: real)
    ensures Retarget(seconds, s).None? <==> seconds == 0 || s == 0.0
  {
  }

  // --- What retargeting achieves -----------------------------------------------

  /** Ten reciprocals, scaled by the extremes of the window. */
  lemma {:induction false} WindowScaled(ds: seq<int>, lo: int, hi: int)
    requires |ds| == DIFFICULTY_WINDOW && 0 < lo <= hi && forall i :: 0 <= i < |ds| ==> lo <= ds[i] <= hi
    ensures InverseSum(ds) > 0.0
    ensures InverseSum(ds) * lo as real <= 10.0 <= InverseSum(ds) * hi as real
  {
    hide InverseSum;
    var s := InverseSum(ds);
    InverseSumBounds(ds, lo, hi);
    QuotientBound(10.0, hi as real, s);
    QuotientBound(10.0, lo as real, s);
    PositiveQuotient(10.0, hi as real);
  }

  lemma PositiveQuotient(a: real, b: real)
    requires a > 0.0 && b > 0.0
    ensures a / b > 0.0
  {
  }

  /** The new difficulty stays between the window's extremes scaled by how long the ten
      blocks took relative to the 200 seconds they should take. */
  lemma {:induction false} RetargetBounds(seconds: int, ds: seq<int>, lo: int, hi: int)
    requires seconds >= 1 && |ds| == DIFFICULTY_WINDOW
    requires 0 < lo <= hi && forall i :: 0 <= i < |ds| ==> lo <= ds[i] <= hi
    ensures var r := Retarget(seconds, InverseSum(ds));
      && InverseSum(ds) > 0.0
      && r == Some((seconds as real / (20.0 * InverseSum(ds))).Floor)
      && seconds * lo / 200 <= r.value <= seconds * hi / 200
  {
    hide InverseSum, Retarget;
    var s := InverseSum(ds);
    WindowScaled(ds, lo, hi);
    RetargetIs(seconds, s);
    FloorBetween(seconds as real, s, lo, hi, seconds);
  }

  lemma FloorBetween(t: real, s: real, lo: int, hi: int, seconds: int)
    requires seconds >= 1 && t == seconds as real && s > 0.0 && 0 < lo <= hi
    requires s * lo as real <= 10.0 <= s * hi as real
    ensures seconds * lo / 200 <= (t / (20.0 * s)).Floor <= seconds * hi / 200
  {
    var x, y := (seconds * lo) as real / 200.0, (seconds * hi) as real / 200.0;
    var d := 20.0 * s;
    assert x * d <= t by {
      assert x * d == t * (s * lo as real) / 10.0;
      Scale(s * lo as real, 10.0, t);
    }
    assert t <= y * d by {
      assert y * d == t * (s * hi as real) / 10.0;
      Scale(10.0, s * hi as real, t);
    }
    QuotientBound(t, d, x);
    QuotientBound(t, d, y);
    FloorMonotone(x, t / d);
    FloorMonotone(t / d, y);
    FloorOfQuotient(seconds * lo);
    FloorOfQuotient(seconds * hi);
  }

  lemma FloorOfQuotient(n: int)
    ensures (n as real / 200.0).Floor == n / 200
  {
  }

  /** Ten equally hard blocks in exactly 200 seconds leave the difficulty as it is. */
  lemma {:induction false} RetargetFixedPoint(ds: seq<int>, d: int)
    requires |ds| == DIFFICULTY_WINDOW && d > 0
    requires forall i :: 0 <= i < |ds| ==> ds[i] == d
    ensures Retarget(200, InverseSum(ds)) == Some(d)
  {
    RetargetBounds(200, ds, d, d);
  }

  lemma {:induction false} InverseSumMonotone(ds: seq<int>, es: seq<int>)
    requires |ds| == |es| && forall i :: 0 <= i < |ds| ==> 0 < ds[i] <= es[i]
    ensures 0.0 <= InverseSum(es) <= InverseSum(ds)
    ensures ds != [] ==> 0.0 < InverseSum(es)
  {
    if ds != [] {
      var n := |ds| - 1;
      InverseSumMonotone(ds[..n], es[..n]);
      ReciprocalOrder(ds[n], es[n]);
    }
  }

  /** A slower window, or an easier one, never makes the next target harder. */
  lemma {:induction false} RetargetMonotone(t: int, u: int, ds: seq<int>, es: seq<int>)
    requires 1 <= t <= u
    requires |ds| == |es| == DIFFICULTY_WINDOW && forall i :: 0 <= i < |ds| ==> 0 < ds[i] <= es[i]
    ensures Retarget(t, InverseSum(ds)).Some? && Retarget(u, InverseSum(es)).Some?
    ensures Retarget(t, InverseSum(ds)).value <= Retarget(u, InverseSum(es)).value
  {
    InverseSumMonotone(ds, es);
    RetargetIs(t, InverseSum(ds));
    RetargetIs(u, InverseSum(es));
    QuotientMonotone(t as real, u as real, 20.0 * InverseSum(ds), 20.0 * InverseSum(es));
    FloorMonotone(t as real / (20.0 * InverseSum(ds)), u as real / (20.0 * InverseSum(es)));
  }

  lemma QuotientMonotone(a: real, b: real, d: real, e: real)
    requires 0.0 < a <= b && 0.0 < e <= d
    ensures a / d <= b / e
  {
  }

  // --- The difficulty due, from the blocks themselves -----------------------------

  /** The block before the window, eleven before `cur`, and the last one are this many
      milliseconds apart, in whole seconds rounded toward zero; and `ds` are the ten difficulties
      from ten before `cur` on. */
  ghost predicate WindowIs(c: Crypto, blocks: seq<Block>, cur: nat, seconds: int, ds: seq<int>)
    requires 1000 < cur <= |blocks|
  {
    var elapsed := blocks[cur - 1].header.timestamp as int - blocks[cur - 11].header.timestamp as int;
    && -TWO_63 <= elapsed < TWO_63
    && (if elapsed >= 0 then 1000 * seconds <= elapsed < 1000 * seconds + 1000
        else 1000 * seconds - 1000 < elapsed <= 1000 * seconds)
    && |ds| == 10
    && forall i :: 0 <= i < 10 ==> ds[i] == BigOf(c, blocks[cur - 10 + i].header.difficulty)
  }

  lemma WindowRead(c: Crypto, blocks: seq<Block>, cur: nat, seconds: int, ds: seq<int>)
    requires 1000 < cur <= |blocks| && WindowIs(c, blocks, cur, seconds, ds)
    ensures WindowSeconds(blocks, cur) == seconds && Window(c, blocks, cur) == ds
  {
    var elapsed: int64 := blocks[cur - 1].header.timestamp - blocks[cur - 11].header.timestamp;
    SameRounding(elapsed, TruncDiv(elapsed, 1000), seconds);
  }

  /** Rounding a quotient by a thousand toward zero leaves only one choice. */
  lemma SameRounding(n: int, x: int, y: int)
    requires if n >= 0 then 0 <= n - x * 1000 < 1000 else -1000 < n - x * 1000 <= 0
    requires if n >= 0 then 1000 * y <= n < 1000 * y + 1000 else 1000 * y - 1000 < n <= 1000 * y
    ensures x == y
  {
  }

  function Reciprocal(d: int): real {
    if d == 0 then 0.0 else 1.0 / d as real
  }

  lemma {:induction false} TenReciprocals(ds: seq<int>)
    requires |ds| == 10
    ensures InverseSum(ds) == Reciprocal(ds[0]) + Reciprocal(ds[1]) + Reciprocal(ds[2]) + Reciprocal(ds[3])
      + Reciprocal(ds[4]) + Reciprocal(ds[5]) + Reciprocal(ds[6]) + Reciprocal(ds[7]) + Reciprocal(ds[8])
      + Reciprocal(ds[9])
  {
    hide InverseSum;
    InverseSumEmpty(ds);
    InverseSumStep(ds, 0);
    InverseSumStep(ds, 1);
    InverseSumStep(ds, 2);
    InverseSumStep(ds, 3);
    InverseSumStep(ds, 4);
    InverseSumStep(ds, 5);
    InverseSumStep(ds, 6);
    InverseSumStep(ds, 7);
    InverseSumStep(ds, 8);
    InverseSumStep(ds, 9);
    assert ds[..10] == ds;
  }

  lemma InverseSumEmpty(ds: seq<int>)
    ensures InverseSum(ds[..0]) == 0.0
  {
  }

  /** The difficulty due above height 1000, exactly, from the two timestamps and the ten
      difficulties: T / (20 sum 1/d), rounded down and written in hexadecimal; none when no whole
      second passed or the reciprocals, leaving out zeros, sum to zero. */
  lemma DifficultyIs(c: Crypto, blocks: seq<Block>, cur: nat, seconds: int, ds: seq<int>)
    requires 1000 < cur <= |blocks| && WindowIs(c, blocks, cur, seconds, ds)
    ensures var sum := Reciprocal(ds[0]) + Reciprocal(ds[1]) + Reciprocal(ds[2]) + Reciprocal(ds[3])
        + Reciprocal(ds[4]) + Reciprocal(ds[5]) + Reciprocal(ds[6]) + Reciprocal(ds[7]) + Reciprocal(ds[8])
        + Reciprocal(ds[9]);
      if seconds == 0 || sum == 0.0 then DifficultyAt(c, blocks, cur) == None
      else 20.0 * sum != 0.0 && DifficultyAt(c, blocks, cur) == Some(Format((seconds as real / (20.0 * sum)).Floor))
  {
    hide InverseSum, WindowIs, WindowSeconds, Window, Reciprocal;
    WindowRead(c, blocks, cur, seconds, ds);
    WindowSize(c, blocks, cur, seconds, ds);
    TenReciprocals(ds);
    RetargetDefined(seconds, InverseSum(ds));
    if seconds != 0 && InverseSum(ds) != 0.0 {
      RetargetIs(seconds, InverseSum(ds));
    }
  }

  lemma WindowSize(c: Crypto, blocks: seq<Block>, cur: nat, seconds: int, ds: seq<int>)
    requires 1000 < cur <= |blocks| && WindowIs(c, blocks, cur, seconds, ds)
    ensures |ds| == 10
  {
  }

  /** On positive difficulties the due difficulty lies between the window's extremes scaled by
      how long it took relative to 200 seconds, read back from the text it is stored as. */
  lemma DifficultyBounds(c: Crypto, blocks: seq<Block>, cur: nat, seconds: int, ds: seq<int>,
        lo: int, hi: int)
    requires 1000 < cur <= |blocks| && WindowIs(c, blocks, cur, seconds, ds) && seconds >= 1
    requires 0 < lo <= hi && forall i :: 0 <= i < |ds| ==> lo <= ds[i] <= hi
    ensures var r := DifficultyAt(c, blocks, cur);
      r.Some? && seconds * lo / 200 <= BigOf(c, r.value) <= seconds * hi / 200
  {
    hide InverseSum, Retarget, WindowSeconds, Window;
    WindowRead(c, blocks, cur, seconds, ds);
    RetargetBounds(seconds, ds, lo, hi);
    RoundTrip(Retarget(seconds, InverseSum(ds)).value);
  }

  /** Ten blocks of one difficulty that took exactly 200 seconds, from the block before them to
      the last of them, are followed by one of the same difficulty. */
  lemma OnScheduleIsKept(c: Crypto, blocks: seq<Block>, cur: nat, d: int)
    requires 1000 < cur <= |blocks| && d > 0
    requires forall i :: cur - 10 <= i < cur ==> BigOf(c, blocks[i].header.difficulty) == d
    requires blocks[cur - 11].header.timestamp + 200000 == blocks[cur - 1].header.timestamp
    ensures DifficultyAt(c, blocks, cur) == Some(Format(d))
  {
    hide InverseSum, Retarget, WindowSeconds, Window;
    var ds := seq(10, i => d);
    assert WindowIs(c, blocks, cur, 200, ds);
    WindowRead(c, blocks, cur, 200, ds);
    RetargetFixedPoint(ds, d);
  }

  function Pow16(n: nat): (r: nat)
    ensures r >= 1
  {
    if n == 0 then 1 else 16 * Pow16(n - 1)
  }

  lemma {:induction false} AllDigitsF(n: nat)
    ensures var r := ParseDigits(seq(n, i => 'f')); r.Some? && r.value == Pow16(n) - 1
  {
    var s: string := seq(n, i => 'f');
    if n > 0 {
      AllDigitsF(n - 1);
      assert s[..n - 1] == seq(n - 1, i => 'f');
    }
  }

  /** Up to height 1000 the difficulty is 16^59 - 1. */
  lemma EarlyDifficulty(c: Crypto, blocks: seq<Block>, cur: nat)
    requires cur <= 1000
    ensures DifficultyAt(c, blocks, cur).Some? && BigOf(c, DifficultyAt(c, blocks, cur).value) == Pow16(59) - 1
  {
    hide ParseDigits, Pow16;
    AllDigitsF(59);
    assert INITIAL_DIFFICULTY == seq(59, i => 'f');
  }

  /** A quotient reaches one exactly when its numerator has at least the size of its divisor,
      on the divisor's side of zero. */
  lemma QuotientReachesOne(t: real, d: real)
    requires d != 0.0
    ensures t / d >= 1.0 <==> if d > 0.0 then t >= d else t <= d
  {
    var q := t / d;
    assert q * d == t;
    if d > 0.0 {
      if q >= 1.0 { Scale(1.0, q, d); } else { StrictScale(q, 1.0, d); }
    } else {
      if q >= 1.0 { Scale(1.0, q, -d); } else { StrictScale(q, 1.0, -d); }
    }
  }

  lemma StrictScale(x: real, y: real, k: real)
    requires x < y && k > 0.0
    ensures x * k < y * k
  {
  }

  /** The window took long enough for the next target to be positive: at least twenty times the
      sum of its reciprocal difficulties, in seconds. (A negative sum, from negative
      difficulties, turns that round.) */
  predicate LongWindow(seconds: int, s: real) {
    if s > 0.0 then seconds as real >= 20.0 * s else seconds as real <= 20.0 * s
  }

  /** Exactly when retargeting produces a positive target, whatever the window: timestamps may
      run backwards and difficulties be negative. */
  lemma TargetPositiveIff(seconds: int, s: real)
    requires Retarget(seconds, s).Some?
    ensures Retarget(seconds, s).value >= 1 <==> LongWindow(seconds, s)
  {
    RetargetDefined(seconds, s);
    RetargetIs(seconds, s);
    var t, d := seconds as real, 20.0 * s;
    QuotientReachesOne(t, d);
    if t / d >= 1.0 {
      FloorMonotone(1.0, t / d);
    }
  }

  /** With positive difficulties in the window, the target is negative exactly when the clock
      ran backwards, and zero when it ran forwards but not far enough. */
  lemma TargetSign(seconds: int, s: real)
    requires seconds != 0 && s > 0.0
    ensures var r := Retarget(seconds, s);
      && r.Some?
      && (r.value < 0 <==> seconds < 0)
      && (r.value == 0 <==> 0 < seconds && seconds as real < 20.0 * s)
  {
    RetargetIs(seconds, s);
    TargetPositiveIff(seconds, s);
    var t, d := seconds as real, 20.0 * s;
    Product(20.0, s);
    QuotientBound(t, d, 0.0);
    assert 0.0 * d == 0.0;
    if seconds > 0 {
      FloorMonotone(0.0, t / d);
    }
  }

  /** For any window for which a difficulty is due at all: that difficulty can be met by some
      natural number exactly when the window was long enough. Otherwise no block that carries
      it and has a hash that is read as a natural number ever verifies. */
  lemma DueIsUnmeetableIff(c: Crypto, blocks: seq<Block>, cur: nat)
    requires DYNAMIC_START < cur <= |blocks| && DifficultyAt(c, blocks, cur).Some?
    ensures !LongWindow(WindowSeconds(blocks, cur), InverseSum(Window(c, blocks, cur))) <==>
      forall h: BlockHeader, hash: string | h.difficulty == DifficultyAt(c, blocks, cur).value ::
        VerifyHash(c, h, hash) ==> BigOf(c, hash) < 0
  {
    hide Retarget, InverseSum, LongWindow;
    var sum, seconds := InverseSum(Window(c, blocks, cur)), WindowSeconds(blocks, cur);
    TargetPositiveIff(seconds, sum);
    var target := Retarget(seconds, sum).value;
    RoundTrip(target);
    RoundTrip(0);
    var due := DifficultyAt(c, blocks, cur).value;
    assert BigOf(c, due) == target;
    if target > 0 {
      assert VerifyHash(c, BlockHeader(0, "", "", 0, due, 0), Format(0)) && BigOf(c, Format(0)) == 0;
    }
  }

  /** Only the headers of the eleven blocks before `cur` matter. */
  lemma DifficultyByHeaders(c: Crypto, a: seq<Block>, b: seq<Block>, cur: nat)
    requires cur > DYNAMIC_START ==> cur <= |a| && cur <= |b|
    requires cur > DYNAMIC_START ==> forall i :: cur - 11 <= i < cur ==> a[i].header == b[i].header
    ensures DifficultyAt(c, a, cur) == DifficultyAt(c, b, cur)
  {
    hide Retarget, InverseSum;
    if cur > DYNAMIC_START {
      assert Window(c, a, cur) == Window(c, b, cur);
    }
  }

  /** So appending blocks, or changing any outside that window, changes nothing. */
  lemma DifficultyIsLocal(c: Crypto, a: seq<Block>, b: seq<Block>, cur: nat)
    requires cur > DYNAMIC_START ==> cur <= |a| && cur <= |b| && a[cur - 11..cur] == b[cur - 11..cur]
    ensures DifficultyAt(c, a, cur) == DifficultyAt(c, b, cur)
  {
    hide DifficultyAt;
    if cur > DYNAMIC_START {
      forall i | cur - 11 <= i < cur ensures a[i] == b[i] {
        assert a[i] == a[cur - 11..cur][i - (cur - 11)];
      }
    }
    DifficultyByHeaders(c, a, b, cur);
  }
}
