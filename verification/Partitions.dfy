/**
 Which partitions a consumer is given: every n-th one (the word-count example), or
 a half-open range (the repartitioning service). Numbers are 32 bits wide.
*/
module Partitions {
  import opened Names

  predicate Increasing(parts: seq<Part>)
  {
    forall i, j :: 0 <= i < j < |parts| ==> parts[i] < parts[j]
  }

  lemma {:induction false} IncreasingMultiplicity(parts: seq<Part>, p: Part)
    requires Increasing(parts)
    ensures multiset(parts)[p] == if p in parts then 1 else 0
  {
    if parts != [] {
      assert parts == [parts[0]] + parts[1..];
      IncreasingMultiplicity(parts[1..], p);
    }
  }

  /** The 32-bit result of one addition or subtraction of 32-bit numbers. */
  function Wrap(x: int): Part
    requires 0 <= x + U32 && x < 2 * U32
  {
    if x < 0 then x + U32 else if x < U32 then x else x - U32
  }

  // --- Every n-th partition ---

  /** `index`, `index + n`, ... up to and including `highest`. */
  function Strided(highest: Part, index: nat, n: nat): (parts: seq<Part>)
    decreases if index <= highest then highest - index + 1 else 0
  {
    if index > highest then [] else if n == 0 then [index] else [index] + Strided(highest, index + n, n)
  }

  lemma ModStep(x: int, n: nat)
    requires n > 0
    ensures (x - n) % n == x % n
  {
    assert x == n * (x / n) + x % n;
    assert x - n == n * (x / n - 1) + x % n;
    ModUnique(x - n, n, x / n - 1, x % n);
  }

  lemma ModUnique(x: int, n: nat, q: int, r: nat)
    requires n > 0 && x == n * q + r && r < n
    ensures x % n == r && x / n == q
  {
    var d := x / n - q;
    assert n * d == r - x % n;
    Multiple(n, d);
  }

  lemma Multiple(n: nat, d: int)
    ensures d >= 1 ==> n * d >= n
    ensures d <= -1 ==> n * d + n <= 0
    ensures d >= 0 ==> n * d >= 0
  {
  }

  lemma {:induction false} InStrided(highest: Part, index: nat, n: nat, p: Part)
    requires n > 0
    ensures p in Strided(highest, index, n) <==> index <= p <= highest && (p - index) % n == 0
    decreases if index <= highest then highest - index + 1 else 0
  {
    if index <= highest {
      InStrided(highest, index + n, n, p);
      ModStep(p - index, n);
      if index <= p < index + n {
        ModUnique(p - index, n, 0, p - index);
      }
    }
  }

  lemma {:induction false} StridedIncreasing(highest: Part, index: nat, n: nat)
    requires n > 0
    ensures Increasing(Strided(highest, index, n))
    decreases if index <= highest then highest - index + 1 else 0
  {
    if index <= highest {
      StridedIncreasing(highest, index + n, n);
      var rest := Strided(highest, index + n, n);
      forall i | 0 <= i < |rest| ensures index < rest[i] {
        InStrided(highest, index + n, n, rest[i]);
      }
    }
  }

  lemma StrideOwner(x: nat, n: nat, j: nat)
    requires j < n
    ensures j <= x && (x - j) % n == 0 <==> j == x % n
  {
    if j == x % n {
      Multiple(n, x / n);
      ModUnique(x - j, n, x / n, 0);
    } else if j <= x && (x - j) % n == 0 {
      ModUnique(x, n, (x - j) / n, j);
    }
  }

  /**
   The lists of n consumers with the indices k .. k + n - 1 divide k .. highest
   among them: each partition is in exactly one list, and there once.
  */
  lemma StridedListsPartition(highest: Part, k: nat, n: nat, j: nat, p: Part)
    requires j < n
    ensures Increasing(Strided(highest, k + j, n))
    ensures p in Strided(highest, k + j, n) <==> k <= p <= highest && j == (p - k) % n
    ensures multiset(Strided(highest, k + j, n))[p] == if k <= p <= highest && j == (p - k) % n then 1 else 0
  {
    StridedIncreasing(highest, k + j, n);
    InStrided(highest, k + j, n, p);
    IncreasingMultiplicity(Strided(highest, k + j, n), p);
    if k <= p {
      StrideOwner(p - k, n, j);
    }
  }

  /** No list is more than one longer than another. */
  lemma {:induction false} StridedListsBalanced(highest: Part, i: nat, j: nat, n: nat)
    requires i <= j < i + n
    ensures |Strided(highest, j, n)| <= |Strided(highest, i, n)| <= |Strided(highest, j, n)| + 1
    decreases if i <= highest then highest - i + 1 else 0
  {
    if i <= highest {
      StridedListsBalanced(highest, i + n, j + n, n);
    }
  }

  lemma {:induction false} StridedLength(highest: Part, index: nat, n: nat)
    requires n > 0 && index <= highest
    ensures |Strided(highest, index, n)| == (highest - index) / n + 1
    decreases highest - index
  {
    if index + n <= highest {
      StridedLength(highest, index + n, n);
      DivStep(highest - index, n);
    } else {
      ModUnique(highest - index, n, 0, highest - index);
    }
  }

  lemma DivStep(d: nat, n: nat)
    requires 0 < n <= d
    ensures d / n == (d - n) / n + 1
  {
    assert d == n * (d / n) + d % n;
    ModUnique(d - n, n, d / n - 1, d % n);
  }

  /** The first value of the exact loop counter beyond `highest`. */
  function Beyond(highest: Part, index: nat, n: nat): nat
  {
    index + |Strided(highest, index, n)| * n
  }

  /** The loop ends without its 32-bit counter wrapping around. */
  predicate EndsCleanly(highest: Part, index: Part, n: Part)
  {
    index > highest || (n > 0 && index + ((highest - index) / n + 1) * n < U32)
  }

  lemma EndsCleanlyIs(highest: Part, index: Part, n: Part)
    ensures EndsCleanly(highest, index, n) <==> index > highest || (n > 0 && Beyond(highest, index, n) < U32)
  {
    if index <= highest && n > 0 {
      StridedLength(highest, index, n);
    }
  }

  /** The loop counter after k rounds, as the 32-bit addition leaves it. */
  function Counter(index: Part, n: Part, k: nat): Part
  {
    if k == 0 then index else Wrap(Counter(index, n, k - 1) + n)
  }

  /** The loop stops after exactly k rounds. */
  ghost predicate Stops(highest: Part, index: Part, n: Part, k: nat)
  {
    (forall j: nat :: j < k ==> Counter(index, n, j) <= highest) && Counter(index, n, k) > highest
  }

  ghost predicate StopsIncreasing(highest: Part, index: Part, n: Part, k: nat)
  {
    Stops(highest, index, n, k)
    && forall i: nat, j: nat :: i < j < k ==> Counter(index, n, i) < Counter(index, n, j)
  }

  lemma {:induction false} StridedAt(highest: Part, index: nat, n: nat, j: nat)
    requires n > 0 && j <= |Strided(highest, index, n)|
    ensures index + j * n <= highest <==> j < |Strided(highest, index, n)|
    ensures j < |Strided(highest, index, n)| ==> Strided(highest, index, n)[j] == index + j * n
    decreases j
  {
    if j > 0 {
      StridedAt(highest, index + n, n, j - 1);
      assert (j - 1) * n + n == j * n;
    }
  }

  lemma {:induction false} CounterExact(index: Part, n: Part, k: nat)
    requires index + k * n < U32
    ensures Counter(index, n, k) == index + k * n
  {
    if k > 0 {
      assert k * n == (k - 1) * n + n;
      CounterExact(index, n, k - 1);
    }
  }

  lemma FirstRounds(highest: Part, index: Part, n: Part, j: nat)
    requires n > 0 && j < |Strided(highest, index, n)|
    ensures Counter(index, n, j) == index + j * n <= highest
  {
    StridedAt(highest, index, n, j);
    CounterExact(index, n, j);
  }

  lemma RoundsIncrease(n: Part, i: nat, j: nat)
    requires n > 0 && i < j
    ensures i * n < j * n
  {
    assert j * n == i * n + (j - i) * n;
    Multiple(n, j - i);
  }

  lemma CleanLoopStops(highest: Part, index: Part, n: Part)
    requires EndsCleanly(highest, index, n)
    ensures StopsIncreasing(highest, index, n, |Strided(highest, index, n)|)
  {
    var len := |Strided(highest, index, n)|;
    EndsCleanlyIs(highest, index, n);
    if index > highest {
      CounterExact(index, n, 0);
    } else {
      StridedAt(highest, index, n, len);
      CounterExact(index, n, len);
      forall j: nat | j < len ensures Counter(index, n, j) == index + j * n <= highest {
        FirstRounds(highest, index, n, j);
      }
      forall i: nat, j: nat | i < j < len ensures Counter(index, n, i) < Counter(index, n, j) {
        RoundsIncrease(n, i, j);
      }
    }
  }

  /** If the first value beyond `highest` does not fit, the counter falls back below the one before. */
  lemma CounterFallsBack(highest: Part, index: Part, n: Part)
    requires n > 0 && index <= highest && Beyond(highest, index, n) >= U32
    ensures var len := |Strided(highest, index, n)|;
      len > 0 && Counter(index, n, len) < Counter(index, n, len - 1) <= highest
  {
    var len := |Strided(highest, index, n)|;
    FirstRounds(highest, index, n, len - 1);
    LastRound(index, n, len);
  }

  lemma LastRound(index: Part, n: Part, len: nat)
    requires n > 0 && len > 0 && Counter(index, n, len - 1) == index + (len - 1) * n && index + len * n >= U32
    ensures Counter(index, n, len) < Counter(index, n, len - 1)
  {
    Distribute(len - 1, 1, n);
  }

  lemma WrappedLoopFails(highest: Part, index: Part, n: Part, k: nat)
    requires !EndsCleanly(highest, index, n)
    ensures !StopsIncreasing(highest, index, n, k)
  {
    if n == 0 {
      CounterExact(index, n, k);
    } else {
      EndsCleanlyIs(highest, index, n);
      CounterFallsBack(highest, index, n);
      if k < |Strided(highest, index, n)| {
        FirstRounds(highest, index, n, k);
      }
    }
  }

  lemma EnoughRoom(highest: Part, index: Part, n: Part)
    requires n > 0 && index <= highest && highest + n < U32
    ensures Beyond(highest, index, n) < U32
  {
    var len := |Strided(highest, index, n)|;
    FirstRounds(highest, index, n, len - 1);
    assert len * n == (len - 1) * n + n;
  }

  /**
   With the 32-bit counter, the loop stops with a strictly increasing list exactly
   when the first value beyond `highest` still fits; a positive step with
   `highest + n` in range is enough for that.
  */
  lemma WrapAround(highest: Part, index: Part, n: Part)
    ensures (exists k: nat :: StopsIncreasing(highest, index, n, k)) <==> EndsCleanly(highest, index, n)
    ensures n > 0 && highest + n < U32 ==> EndsCleanly(highest, index, n)
  {
    EndsCleanlyIs(highest, index, n);
    if n > 0 && index <= highest && highest + n < U32 {
      EnoughRoom(highest, index, n);
    }
    if EndsCleanly(highest, index, n) {
      CleanLoopStops(highest, index, n);
    } else {
      forall k: nat ensures !StopsIncreasing(highest, index, n, k) {
        WrappedLoopFails(highest, index, n, k);
      }
    }
  }

  // --- When the loop stops at all ---

  function Pow2(w: nat): (power: nat)
    ensures power > 0
  {
    if w == 0 then 1 else 2 * Pow2(w - 1)
  }

  /** How many times n can be halved; 32 bits hold no more than 32 zeros. */
  function Twos(n: Part): nat
  {
    if n == 0 then 32 else if n % 2 == 1 then 0 else 1 + Twos(n / 2)
  }

  /** The largest power of two that divides the step, and 2^32 if the step is zero. */
  function Gap(n: Part): nat
  {
    Pow2(Twos(n))
  }

  /** The largest 32-bit number that differs from `index` by a multiple of the gap. */
  function Largest(index: Part, n: Part): int
  {
    index % Gap(n) + U32 - Gap(n)
  }

  /** That number is beyond `highest`. */
  predicate Terminates(highest: Part, index: Part, n: Part)
  {
    highest < Largest(index, n)
  }

  lemma GapOfEven(n: Part)
    requires n > 0 && n % 2 == 0
    ensures Gap(n) == 2 * Gap(n / 2)
  {
  }

  lemma {:induction false} OddPart(n: Part) returns (m: nat)
    requires n > 0
    ensures n == Gap(n) * m && m % 2 == 1
  {
    if n % 2 == 1 {
      m := n;
      assert Gap(n) == 1;
    } else {
      m := OddPart(n / 2);
      GapOfEven(n);
      Doubled(Gap(n / 2), m, n / 2);
    }
  }

  lemma Doubled(g: nat, m: nat, half: nat)
    requires half == g * m
    ensures 2 * half == (2 * g) * m
  {
  }

  lemma {:induction false} Pow2Splits(w: nat, v: nat)
    ensures Pow2(w + v) == Pow2(w) * Pow2(v)
  {
    if w > 0 {
      Pow2Splits(w - 1, v);
      Doubled(Pow2(w - 1), Pow2(v), Pow2(w - 1 + v));
    }
  }

  lemma {:induction false} TwosBelow(n: Part, w: nat)
    requires 0 < n < Pow2(w)
    ensures Twos(n) < w
  {
    if n % 2 == 0 {
      TwosBelow(n / 2, w - 1);
    }
  }

  lemma GapDivides(n: Part) returns (rounds: nat)
    ensures Twos(n) <= 32 && rounds == Pow2(32 - Twos(n)) && U32 == Gap(n) * rounds
  {
    assert Pow2(32) == U32 by {
      assert Pow2(8) == 0x100;
      Pow2Splits(8, 8);
      Pow2Splits(16, 16);
    }
    if n > 0 {
      TwosBelow(n, 32);
    }
    rounds := Pow2(32 - Twos(n));
    Pow2Splits(Twos(n), 32 - Twos(n));
  }

  /** An odd number has an inverse modulo every power of two. */
  lemma {:induction false} Inverse(m: nat, w: nat) returns (inverse: nat, q: nat)
    requires m % 2 == 1
    ensures m * inverse == 1 + q * Pow2(w)
  {
    if w == 0 {
      inverse, q := 1, m - 1;
    } else {
      var x, r := Inverse(m, w - 1);
      inverse, q := Lift(m, Pow2(w - 1), x, r);
    }
  }

  lemma Distribute(a: int, b: int, c: int)
    ensures (a + b) * c == a * c + b * c
  {
  }

  lemma Twice(q: int, half: int)
    ensures (2 * q) * half == q * (2 * half)
  {
  }

  lemma Lift(m: nat, half: nat, x: nat, r: nat) returns (inverse: nat, q: nat)
    requires m % 2 == 1 && m * x == 1 + r * half
    ensures m * inverse == 1 + q * (2 * half)
  {
    if r % 2 == 0 {
      inverse, q := x, r / 2;
      Twice(q, half);
    } else {
      inverse, q := x + half, (r + m) / 2;
      LiftOdd(m, half, x, r, q);
    }
  }

  lemma LiftOdd(m: int, half: int, x: int, r: int, q: int)
    requires m * x == 1 + r * half && r + m == 2 * q
    ensures m * (x + half) == 1 + q * (2 * half)
  {
    Distribute(x, half, m);
    Distribute(r, m, half);
    Twice(q, half);
  }

  lemma {:induction false} CounterWraps(index: Part, n: Part, k: nat) returns (q: nat)
    ensures index + k * n == q * U32 + Counter(index, n, k)
  {
    if k == 0 {
      q := 0;
    } else {
      var r := CounterWraps(index, n, k - 1);
      assert k * n == (k - 1) * n + n;
      q := if Counter(index, n, k - 1) + n < U32 then r else r + 1;
    }
  }

  lemma DivMod(x: nat, g: nat)
    requires g > 0
    ensures x == g * (x / g) + x % g && x % g < g
  {
  }

  lemma StaysInClass(index: nat, g: nat, m: nat, k: nat, q: nat, rounds: nat, c: nat)
    requires g > 0 && index + k * (g * m) == q * (g * rounds) + c && c < g * rounds
    ensures c <= index % g + g * rounds - g
  {
    var i, rest := index / g, index % g;
    DivMod(index, g);
    assert k * (g * m) == g * (k * m);
    assert q * (g * rounds) == g * (q * rounds);
    var u := i + k * m - q * rounds;
    assert g * u == g * i + g * (k * m) - g * (q * rounds);
    AtMostLast(g, u, rounds, rest, c);
  }

  lemma AtMostLast(g: nat, u: int, rounds: nat, rest: nat, c: nat)
    requires g > 0 && c == g * u + rest && c < g * rounds
    ensures c <= rest + g * rounds - g
  {
    if u > rounds - 1 {
      assert g * u == g * rounds + g * (u - rounds);
      Multiple(g, u - rounds);
    } else {
      assert g * rounds == g * u + g * (rounds - u);
      Multiple(g, rounds - u);
    }
  }

  /** The counter stays within the remainder class of `index`. */
  lemma CounterBelow(index: Part, n: Part, k: nat)
    ensures Counter(index, n, k) <= Largest(index, n)
  {
    var g := Gap(n);
    var rounds := GapDivides(n);
    var q := CounterWraps(index, n, k);
    var m := 0;
    if n > 0 {
      m := OddPart(n);
    } else {
      assert g * 0 == 0;
    }
    assert n == g * m;
    StaysInClass(index, g, m, k, q, rounds, Counter(index, n, k));
  }

  /** And it does reach the largest number of that class. */
  lemma CounterReaches(index: Part, n: Part) returns (k: nat)
    requires n > 0
    ensures Counter(index, n, k) == Largest(index, n)
  {
    var g := Gap(n);
    var rounds := GapDivides(n);
    var m := OddPart(n);
    var inverse, q := Inverse(m, 32 - Twos(n));
    var u := StepsToLast(index, g, rounds);
    k := inverse * u;
    Reached(g, m, inverse, q, u, rounds, n);
    var r := CounterWraps(index, n, k);
    SameRemainder(index + k * n, Largest(index, n), q * u, Counter(index, n, k), r);
  }

  lemma SameRemainder(x: int, a: int, p: int, b: int, q: int)
    requires x == a + p * U32 == b + q * U32 && 0 <= a < U32 && 0 <= b < U32
    ensures a == b
  {
  }

  lemma StepsToLast(index: nat, g: nat, rounds: nat) returns (u: nat)
    requires g > 0 && index < g * rounds
    ensures index + g * u == index % g + g * rounds - g
    ensures 0 <= index % g + g * rounds - g < g * rounds
  {
    var i := index / g;
    DivMod(index, g);
    Multiple(g, i - rounds);
    assert g * i == g * rounds + g * (i - rounds);
    u := rounds - 1 - i;
    assert g * u == g * rounds - g - g * i;
  }

  lemma Reached(g: nat, m: nat, inverse: nat, q: nat, u: nat, rounds: nat, n: nat)
    requires m * inverse == 1 + q * rounds && n == g * m && g * rounds == U32
    ensures inverse * u * n == g * u + (q * u) * U32
  {
    calc {
      inverse * u * (g * m);
      g * u * (m * inverse);
      g * u * (1 + q * rounds);
      g * u + g * u * (q * rounds);
      g * u + (q * u) * (g * rounds);
    }
  }

  lemma {:induction false} FirstBeyond(highest: Part, index: Part, n: Part, k: nat) returns (first: nat)
    requires Counter(index, n, k) > highest
    ensures first <= k && Stops(highest, index, n, first)
    decreases k
  {
    if j: nat :| j < k && Counter(index, n, j) > highest {
      first := FirstBeyond(highest, index, n, j);
    } else {
      first := k;
    }
  }

  lemma LoopEnds(highest: Part, index: Part, n: Part) returns (rounds: nat)
    requires Terminates(highest, index, n)
    ensures Stops(highest, index, n, rounds)
  {
    var k := 0;
    if n > 0 {
      k := CounterReaches(index, n);
    } else {
      var g := GapDivides(n);
      assert Gap(n) == U32;
    }
    rounds := FirstBeyond(highest, index, n, k);
  }

  /**
   The loop stops at all exactly when the largest 32-bit number that differs from
   `index` by a multiple of the largest power of two in the step is beyond `highest`.
  */
  lemma StopsExactlyWhenTerminates(highest: Part, index: Part, n: Part)
    ensures (exists k: nat :: Stops(highest, index, n, k)) <==> Terminates(highest, index, n)
    ensures EndsCleanly(highest, index, n) ==> Terminates(highest, index, n)
  {
    forall k: nat | Stops(highest, index, n, k) ensures Terminates(highest, index, n) {
      CounterBelow(index, n, k);
    }
    if Terminates(highest, index, n) {
      var k := LoopEnds(highest, index, n);
    }
    if EndsCleanly(highest, index, n) {
      CleanLoopStops(highest, index, n);
    }
  }

  /** The second consumer of two, up to the largest partition: the loop goes on for ever. */
  lemma NeverStops(k: nat)
    ensures !Terminates(0xFFFF_FFFF, 1, 2) && !EndsCleanly(0xFFFF_FFFF, 1, 2)
    ensures !Stops(0xFFFF_FFFF, 1, 2, k)
  {
    assert Gap(2) == 2;
    StopsExactlyWhenTerminates(0xFFFF_FFFF, 1, 2);
  }

  /** It may also stop and have handed out partitions in falling order. */
  lemma StopsAfterWrapping()
    ensures Stops(10, 5, 0xFFFF_FFFE, 3) && Rounds(5, 0xFFFF_FFFE, 3) == [5, 3, 1]
    ensures !EndsCleanly(10, 5, 0xFFFF_FFFE)
  {
    assert Counter(5, 0xFFFF_FFFE, 1) == 3;
    assert Counter(5, 0xFFFF_FFFE, 2) == 1;
    assert Counter(5, 0xFFFF_FFFE, 3) == 0xFFFF_FFFF;
  }

  lemma StopsOnce(highest: Part, index: Part, n: Part, j: nat, k: nat)
    requires Stops(highest, index, n, j) && Stops(highest, index, n, k)
    ensures j == k
  {
  }

  /** The values of the counter in the first k rounds. */
  function Rounds(index: Part, n: Part, k: nat): seq<Part>
  {
    seq(k, j requires 0 <= j < k => Counter(index, n, j))
  }

  /** What the loop returns, if it stops. */
  ghost predicate Returns(highest: Part, index: Part, n: Part, list: seq<Part>)
  {
    Stops(highest, index, n, |list|) && list == Rounds(index, n, |list|)
  }

  lemma NextRound(index: Part, n: Part, done: seq<Part>, i: Part)
    requires done == Rounds(index, n, |done|) && i == Counter(index, n, |done|)
    ensures done + [i] == Rounds(index, n, |done| + 1) && Wrap(i + n) == Counter(index, n, |done| + 1)
  {
  }

  /**
   The loop on every input on which it stops: `StopsExactlyWhenTerminates` shows that
   the precondition leaves out no other.
  */
  method CreateConsumerPartitions(highest: Part, index: Part, n: Part) returns (partitions: seq<Part>)
    requires Terminates(highest, index, n)
    ensures Returns(highest, index, n, partitions)
  {
    ghost var rounds := LoopEnds(highest, index, n);
    partitions := [];
    var i: Part := index;
    while i <= highest
      invariant |partitions| <= rounds && i == Counter(index, n, |partitions|)
      invariant partitions == Rounds(index, n, |partitions|)
      decreases rounds - |partitions|
    {
      NextRound(index, n, partitions, i);
      partitions := partitions + [i];
      i := Wrap(i + n);
    }
    assert |partitions| == rounds;
  }

  /** On the inputs on which the counter does not wrap around, the loop computes the strided list. */
  lemma CleanRoundsAreStrided(highest: Part, index: Part, n: Part, list: seq<Part>)
    requires Returns(highest, index, n, list) && EndsCleanly(highest, index, n)
    ensures list == Strided(highest, index, n)
  {
    var k := |list|;
    CleanLoopStops(highest, index, n);
    StopsOnce(highest, index, n, k, |Strided(highest, index, n)|);
    forall j: nat | j < k ensures Rounds(index, n, k)[j] == Strided(highest, index, n)[j] {
      FirstRounds(highest, index, n, j);
      StridedAt(highest, index, n, j);
    }
  }

  // --- Half-open ranges ---

  /** The partitions of a repartitioning request; the length is a 32-bit difference. */
  function Range(lower: Part, upper: Part): (parts: seq<Part>)
    ensures |parts| == Wrap(upper - lower)
    ensures forall i :: 0 <= i < |parts| ==> parts[i] == Wrap(lower + i)
  {
    seq<Part>(Wrap(upper - lower), i requires 0 <= i < Wrap(upper - lower) => Wrap(lower + i))
  }

  method ExpandRange(lower: Part, upper: Part) returns (partitions: array<Part>)
    ensures fresh(partitions) && partitions[..] == Range(lower, upper)
  {
    partitions := new Part[Wrap(upper - lower)](_ => 0);
    var value: Part := lower;
    for i := 0 to partitions.Length
      invariant value == Wrap(lower + i)
      invariant forall j :: 0 <= j < i ==> partitions[j] == Wrap(lower + j)
    {
      partitions[i] := value;
      value := Wrap(value + 1);
    }
  }

  lemma RangeHolds(lower: Part, upper: Part, p: Part)
    ensures p in Range(lower, upper) <==> if lower <= upper then lower <= p < upper else lower <= p || p < upper
  {
    var parts := Range(lower, upper);
    var k := Wrap(p - lower);
    if k < |parts| {
      assert parts[k] == p;
    }
  }

  lemma RangeDistinct(lower: Part, upper: Part)
    ensures Distinct(Range(lower, upper))
  {
  }

  /**
   A range holds each partition from the lower bound up to, and without, the upper
   one, once. Bounds the wrong way round are not rejected: they hold everything else.
  */
  lemma InRange(lower: Part, upper: Part, p: Part)
    ensures p in Range(lower, upper) <==> if lower <= upper then lower <= p < upper else lower <= p || p < upper
    ensures multiset(Range(lower, upper))[p] == if p in Range(lower, upper) then 1 else 0
  {
    RangeHolds(lower, upper, p);
    RangeDistinct(lower, upper);
    DistinctMultiplicity(Range(lower, upper), p);
  }

  predicate Distinct(parts: seq<Part>)
  {
    forall i, j :: 0 <= i < j < |parts| ==> parts[i] != parts[j]
  }

  lemma {:induction false} DistinctMultiplicity(parts: seq<Part>, p: Part)
    requires Distinct(parts)
    ensures multiset(parts)[p] == if p in parts then 1 else 0
  {
    if parts != [] {
      assert parts == [parts[0]] + parts[1..];
      DistinctMultiplicity(parts[1..], p);
    }
  }

  /** A chain of bounds from 0 to n. */
  predicate Chain(bounds: seq<Part>, n: Part)
  {
    && |bounds| >= 2 && bounds[0] == 0 && bounds[|bounds| - 1] == n
    && forall i, j :: 0 <= i <= j < |bounds| ==> bounds[i] <= bounds[j]
  }

  /** One range may take all partitions, and two may meet anywhere. */
  lemma ChainsExist(m: Part, n: Part)
    requires m <= n
    ensures Chain([0, n], n) && Chain([0, m, n], n)
  {
  }

  /** The range between consecutive bounds that holds p, sought from the k-th on. */
  function RangeOf(bounds: seq<Part>, n: Part, p: Part, k: nat): (owner: nat)
    requires Chain(bounds, n) && p < n && k < |bounds| - 1 && bounds[k] <= p
    ensures owner < |bounds| - 1 && bounds[owner] <= p < bounds[owner + 1]
    decreases |bounds| - k
  {
    if p < bounds[k + 1] then k else RangeOf(bounds, n, p, k + 1)
  }

  /** The ranges between consecutive bounds tile the partitions: each is in exactly one, once. */
  lemma RangesTile(bounds: seq<Part>, n: Part, p: Part, j: nat)
    requires Chain(bounds, n) && p < n && j < |bounds| - 1
    ensures multiset(Range(bounds[j], bounds[j + 1]))[p] == if RangeOf(bounds, n, p, 0) == j then 1 else 0
  {
    var k := RangeOf(bounds, n, p, 0);
    InRange(bounds[j], bounds[j + 1], p);
    assert j < k ==> bounds[j + 1] <= bounds[k];
    assert j > k ==> bounds[k + 1] <= bounds[j];
  }
}
