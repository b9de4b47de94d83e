/** The probe sequence of the hash table that names device identities: starting at a slot,
    each step goes down by a fixed stride and wraps around.  Because the number of slots is
    prime, it visits every slot before it returns to the first. */
module ProbeSequence {
  const HTAB_SIZE: nat := 1021

  /** The slot after idx.  Slots are numbered from 1 to HTAB_SIZE. */
  function Next(idx: nat, stride: nat): (r: int) {
    if idx <= stride then HTAB_SIZE + idx - stride else idx - stride
  }

  /** The k-th slot visited. */
  function Slot(start: nat, stride: nat, k: nat): (r: nat)
    requires 1 <= start <= HTAB_SIZE && 1 <= stride < HTAB_SIZE
    ensures 1 <= r <= HTAB_SIZE
  {
    if k == 0 then start else Next(Slot(start, stride, k - 1), stride)
  }

  // ----- 1021 is prime -----

  lemma NoSmallDivisor(d: nat)
    requires 2 <= d < 32
    ensures HTAB_SIZE % d != 0
  {
    if d < 12 {
      assert HTAB_SIZE % 2 != 0 && HTAB_SIZE % 3 != 0 && HTAB_SIZE % 4 != 0 && HTAB_SIZE % 5 != 0 && HTAB_SIZE % 6 != 0;
      assert HTAB_SIZE % 7 != 0 && HTAB_SIZE % 8 != 0 && HTAB_SIZE % 9 != 0
             && HTAB_SIZE % 10 != 0 && HTAB_SIZE % 11 != 0;
    } else if d < 22 {
      assert HTAB_SIZE % 12 != 0 && HTAB_SIZE % 13 != 0 && HTAB_SIZE % 14 != 0
             && HTAB_SIZE % 15 != 0 && HTAB_SIZE % 16 != 0;
      assert HTAB_SIZE % 17 != 0 && HTAB_SIZE % 18 != 0 && HTAB_SIZE % 19 != 0
             && HTAB_SIZE % 20 != 0 && HTAB_SIZE % 21 != 0;
    } else {
      assert HTAB_SIZE % 22 != 0 && HTAB_SIZE % 23 != 0 && HTAB_SIZE % 24 != 0
             && HTAB_SIZE % 25 != 0 && HTAB_SIZE % 26 != 0;
      assert HTAB_SIZE % 27 != 0 && HTAB_SIZE % 28 != 0 && HTAB_SIZE % 29 != 0
             && HTAB_SIZE % 30 != 0 && HTAB_SIZE % 31 != 0;
    }
  }

  /** A divisor of 32 or more leaves a quotient below 32 that divides as well. */
  lemma Cofactor(q: nat, d: nat)
    requires d >= 32 && q * d == HTAB_SIZE
    ensures 1 <= q < 32 && HTAB_SIZE % q == 0
  {
    if q >= 32 {
      Product(32, 32, q, d);
    } else {
      MultipleOf(q, d);
    }
  }

  lemma Prime(d: nat)
    requires 2 <= d < HTAB_SIZE
    ensures HTAB_SIZE % d != 0
  {
    if d < 32 {
      NoSmallDivisor(d);
    } else if HTAB_SIZE % d == 0 {
      var q := HTAB_SIZE / d;
      Cofactor(q, d);
      NoSmallDivisor(q);
    }
  }

  lemma Product(a: nat, b: nat, x: nat, y: nat)
    requires a <= x && b <= y
    ensures a * b <= x * y
  {
    assert a * b <= x * b;
    assert x * b <= x * y;
  }

  lemma MultipleOf(n: nat, k: int)
    requires n > 0
    ensures n * k % n == 0
  {
    var d, r := k - n * k / n, n * k % n;
    assert n * d == r;
    assert d >= 1 ==> n * d >= n;
    assert d <= -1 ==> n * d + n <= 0;
  }

  /** So no product of two numbers below it is a multiple of it. */
  lemma {:induction false} NoMultiple(a: nat, b: nat, m: int)
    requires 0 < a < HTAB_SIZE && 0 < b < HTAB_SIZE
    ensures a * b != HTAB_SIZE * m
    decreases a
  {
    if a * b == HTAB_SIZE * m {
      if a > 1 {
        Prime(a);
        var q, r := HTAB_SIZE / a, HTAB_SIZE % a;
        assert HTAB_SIZE == q * a + r;
        assert r * b == HTAB_SIZE * b - q * (a * b) by {
          assert r == HTAB_SIZE - q * a;
          assert (HTAB_SIZE - q * a) * b == HTAB_SIZE * b - q * a * b;
        }
        assert q * (HTAB_SIZE * m) == HTAB_SIZE * (q * m);
        assert r * b == HTAB_SIZE * (b - q * m);
        NoMultiple(r, b, b - q * m);
      }
    }
  }

  // ----- The sequence visits every slot once -----

  /** After k steps the sequence has gone down by k strides, up to whole turns. */
  lemma {:induction false} SlotIs(start: nat, stride: nat, k: nat) returns (turns: int)
    requires 1 <= start <= HTAB_SIZE && 1 <= stride < HTAB_SIZE
    ensures Slot(start, stride, k) == start - k * stride + HTAB_SIZE * turns
  {
    if k == 0 {
      turns := 0;
    } else {
      var t := SlotIs(start, stride, k - 1);
      assert k * stride == (k - 1) * stride + stride;
      turns := if Slot(start, stride, k - 1) <= stride then t + 1 else t;
      assert HTAB_SIZE * (t + 1) == HTAB_SIZE * t + HTAB_SIZE;
    }
  }

  lemma SlotsDiffer(start: nat, stride: nat, i: nat, j: nat)
    requires 1 <= start <= HTAB_SIZE && 1 <= stride < HTAB_SIZE && i < j < i + HTAB_SIZE
    ensures Slot(start, stride, i) != Slot(start, stride, j)
  {
    var s := SlotIs(start, stride, i);
    var t := SlotIs(start, stride, j);
    if Slot(start, stride, i) == Slot(start, stride, j) {
      assert (j - i) * stride == j * stride - i * stride;
      assert (j - i) * stride == HTAB_SIZE * (t - s);
      NoMultiple(j - i, stride, t - s);
    }
  }

  ghost function AllSlots(n: nat): set<nat> {
    if n == 0 then {} else AllSlots(n - 1) + {n}
  }

  lemma {:induction false} AllSlotsCount(n: nat)
    ensures |AllSlots(n)| == n && forall idx :: idx in AllSlots(n) <==> 1 <= idx <= n
  {
    if n > 0 {
      AllSlotsCount(n - 1);
    }
  }

  /** The first n slots visited. */
  ghost function Visited(start: nat, stride: nat, n: nat): set<nat>
    requires 1 <= start <= HTAB_SIZE && 1 <= stride < HTAB_SIZE
  {
    if n == 0 then {} else Visited(start, stride, n - 1) + {Slot(start, stride, n - 1)}
  }

  lemma {:induction false} VisitedAt(start: nat, stride: nat, n: nat, idx: nat)
    requires 1 <= start <= HTAB_SIZE && 1 <= stride < HTAB_SIZE
    ensures idx in Visited(start, stride, n) <==> exists k: nat :: k < n && Slot(start, stride, k) == idx
  {
    if n > 0 {
      VisitedAt(start, stride, n - 1, idx);
      if idx == Slot(start, stride, n - 1) {
        assert exists k: nat :: k < n && Slot(start, stride, k) == idx;
      }
    }
  }

  lemma {:induction false} VisitedCount(start: nat, stride: nat, n: nat)
    requires 1 <= start <= HTAB_SIZE && 1 <= stride < HTAB_SIZE && n <= HTAB_SIZE
    ensures |Visited(start, stride, n)| == n && Visited(start, stride, n) <= AllSlots(HTAB_SIZE)
  {
    hide AllSlots;
    if n > 0 {
      VisitedCount(start, stride, n - 1);
      VisitedAt(start, stride, n - 1, Slot(start, stride, n - 1));
      AllSlotsCount(HTAB_SIZE);
      forall k: nat | k < n - 1 ensures Slot(start, stride, k) != Slot(start, stride, n - 1) {
        SlotsDiffer(start, stride, k, n - 1);
      }
    }
  }

  lemma SubsetOfSameSize<T>(a: set<T>, b: set<T>)
    requires a <= b && |a| == |b|
    ensures a == b
  {
    assert |b - a| == |b| - |a|;
    assert b == a + (b - a);
  }

  /** Every slot is visited within HTAB_SIZE steps, and only then is the first one again. */
  lemma VisitsAll(start: nat, stride: nat, idx: nat) returns (k: nat)
    requires 1 <= start <= HTAB_SIZE && 1 <= stride < HTAB_SIZE && 1 <= idx <= HTAB_SIZE
    ensures k < HTAB_SIZE && Slot(start, stride, k) == idx
  {
    hide AllSlots, Visited;
    VisitedCount(start, stride, HTAB_SIZE);
    AllSlotsCount(HTAB_SIZE);
    SubsetOfSameSize(Visited(start, stride, HTAB_SIZE), AllSlots(HTAB_SIZE));
    VisitedAt(start, stride, HTAB_SIZE, idx);
    k :| k < HTAB_SIZE && Slot(start, stride, k) == idx;
  }

  lemma ReturnsToStart(start: nat, stride: nat, k: nat)
    requires 1 <= start <= HTAB_SIZE && 1 <= stride < HTAB_SIZE && 0 < k <= HTAB_SIZE
    ensures Slot(start, stride, k) == start <==> k == HTAB_SIZE
  {
    if k < HTAB_SIZE {
      SlotsDiffer(start, stride, 0, k);
    } else {
      var i := VisitsAll(start, stride, Slot(start, stride, k));
      if i > 0 {
        SlotsDiffer(start, stride, i, k);
      }
    }
  }
}
