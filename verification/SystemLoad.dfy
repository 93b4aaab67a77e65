/** CPU usage from two readings of ten 64-bit counters, with Go's wrapping arithmetic. */
module SystemLoad {

  const WORD := 0x1_0000_0000_0000_0000

  type uint64 = x: int | 0 <= x < WORD

  /** A natural number reduced to 64 bits. */
  function Wrap(n: nat): uint64
    decreases n
  {
    if n < WORD then n else Wrap(n - WORD)
  }

  function Add(a: uint64, b: uint64): uint64 {
    Wrap(a + b)
  }

  function Sub(a: uint64, b: uint64): uint64 {
    Wrap(a + WORD - b)
  }

  function Mul(a: uint64, b: uint64): uint64 {
    Wrap(a * b)
  }

  datatype CPUStat = CPUStat(user: uint64, nice: uint64, system: uint64, idle: uint64, ioWait: uint64,
                             irq: uint64, softIrq: uint64, steal: uint64, guest: uint64, guestNice: uint64)

  function TotalTime(s: CPUStat): uint64 {
    Add(Add(Add(Add(Add(Add(Add(Add(Add(s.user, s.nice), s.system), s.idle), s.ioWait), s.irq),
        s.softIrq), s.steal), s.guest), s.guestNice)
  }

  /** The ten counters added without wrap-around. */
  function TrueTotal(s: CPUStat): nat {
    s.user + s.nice + s.system + s.idle + s.ioWait + s.irq + s.softIrq + s.steal + s.guest + s.guestNice
  }

  /** Usage in percent; Undefined stands for a floating-point division by zero. */
  datatype Percentage = Percentage(value: real) | Undefined

  function CPUPercentage(idle: uint64, total: uint64): Percentage {
    if total == 0 then Undefined else Percentage(100.0 - Mul(100, idle) as real / total as real)
  }

  ghost predicate Later(before: CPUStat, after: CPUStat) {
    && before.user <= after.user && before.nice <= after.nice && before.system <= after.system
    && before.idle <= after.idle && before.ioWait <= after.ioWait && before.irq <= after.irq
    && before.softIrq <= after.softIrq && before.steal <= after.steal && before.guest <= after.guest
    && before.guestNice <= after.guestNice
  }

  lemma {:induction false} WrapAdd(n: nat, x: uint64)
    ensures Add(Wrap(n), x) == Wrap(n + x)
    decreases n
  {
    if n >= WORD {
      WrapAdd(n - WORD, x);
    }
  }

  /** Wrapping at each addition or once at the end is the same. */
  lemma TotalWraps(s: CPUStat)
    ensures TotalTime(s) == Wrap(TrueTotal(s))
  {
    var five := s.user + s.nice + s.system + s.idle + s.ioWait;
    FourWrap(s.user, s.nice, s.system, s.idle, s.ioWait);
    FourWrap(five, s.irq, s.softIrq, s.steal, s.guest);
    WrapAdd(five + s.irq + s.softIrq + s.steal + s.guest, s.guestNice);
  }

  lemma FourWrap(n: nat, a: uint64, b: uint64, c: uint64, d: uint64)
    ensures Add(Add(Add(Add(Wrap(n), a), b), c), d) == Wrap(n + a + b + c + d)
  {
    WrapAdd(n, a);
    WrapAdd(n + a, b);
    WrapAdd(n + a + b, c);
    WrapAdd(n + a + b + c, d);
  }

  lemma SubExact(a: uint64, b: uint64)
    ensures Sub(a, b) == if a >= b then a - b else a - b + WORD
  {
    if a >= b {
      assert Wrap(a + WORD - b) == Wrap(a - b);
    }
  }

  lemma {:induction false} WrapDifference(a: nat, b: nat)
    requires b <= a < b + WORD
    ensures Sub(Wrap(a), Wrap(b)) == a - b
    decreases b
  {
    if b >= WORD {
      WrapDifference(a - WORD, b - WORD);
    } else {
      assert Wrap(a) == if a < WORD then a else Wrap(a - WORD);
      SubExact(Wrap(a), b);
    }
  }

  /** The wrapped totals differ by the true increase, if that fits in 64 bits. */
  lemma DeltaIsTrueIncrease(before: CPUStat, after: CPUStat)
    requires Later(before, after) && TrueTotal(after) - TrueTotal(before) < WORD
    ensures Sub(TotalTime(after), TotalTime(before)) == TrueTotal(after) - TrueTotal(before)
  {
    TotalWraps(before);
    TotalWraps(after);
    WrapDifference(TrueTotal(after), TrueTotal(before));
  }

  lemma IdleWithinTotal(before: CPUStat, after: CPUStat)
    requires Later(before, after)
    ensures Sub(after.idle, before.idle) == after.idle - before.idle <= TrueTotal(after) - TrueTotal(before)
  {
    SubExact(after.idle, before.idle);
  }

  /** Usage is the busy share of the increase, between 0 and 100, exactly when 100 times the idle
      increase fits in 64 bits. */
  lemma UsageIsBusyShare(before: CPUStat, after: CPUStat)
    requires Later(before, after)
    requires 0 < TrueTotal(after) - TrueTotal(before) < WORD
    ensures var total := TrueTotal(after) - TrueTotal(before);
      var idle := after.idle - before.idle;
      var usage := CPUPercentage(Sub(after.idle, before.idle), Sub(TotalTime(after), TotalTime(before)));
      && usage.Percentage?
      && (usage.value == 100.0 * (total - idle) as real / total as real <==> 100 * idle < WORD)
      && (100 * idle < WORD ==> 0.0 <= usage.value <= 100.0)
  {
    DeltaIsTrueIncrease(before, after);
    IdleWithinTotal(before, after);
    ShareOf(after.idle - before.idle, TrueTotal(after) - TrueTotal(before));
  }

  lemma ShareOf(idle: uint64, total: uint64)
    requires idle <= total && 0 < total
    ensures var usage := CPUPercentage(idle, total);
      && usage.Percentage?
      && (usage.value == 100.0 * (total - idle) as real / total as real <==> 100 * idle < WORD)
      && (100 * idle < WORD ==> 0.0 <= usage.value <= 100.0)
  {
    WrapShrinks(100 * idle);
    BusyShare(idle, Mul(100, idle), total);
  }

  lemma {:induction false} WrapShrinks(n: nat)
    ensures Wrap(n) <= n && (Wrap(n) == n <==> n < WORD)
    decreases n
  {
    if n >= WORD {
      WrapShrinks(n - WORD);
    }
  }

  lemma DivideDifference(a: real, b: real, t: real)
    requires t > 0.0
    ensures (a * t - b) / t == a - b / t
  {
  }

  lemma DivideMonotone(a: real, b: real, t: real)
    requires t > 0.0
    ensures a <= b <==> a / t <= b / t
  {
  }

  lemma BusyShare(idle: nat, scaled: nat, total: nat)
    requires idle <= total && 0 < total && scaled <= 100 * idle
    ensures 100.0 - scaled as real / total as real == 100.0 * (total - idle) as real / total as real
       <==> scaled == 100 * idle
    ensures 0.0 <= 100.0 - scaled as real / total as real <= 100.0
  {
    var t, i, x := total as real, idle as real, scaled as real;
    assert 100.0 * (total - idle) as real == 100.0 * t - 100.0 * i;
    DivideDifference(100.0, 100.0 * i, t);
    DivideMonotone(x, 100.0 * i, t);
    DivideMonotone(100.0 * i, x, t);
    DivideMonotone(0.0, x, t);
    DivideMonotone(x, 100.0 * t, t);
    DivideDifference(100.0, 0.0, t);
  }

  lemma {:induction false} WrapIsRemainder(n: nat)
    ensures Wrap(n) == n % WORD
    decreases n
  {
    if n >= WORD {
      WrapIsRemainder(n - WORD);
      assert n % WORD == (n - WORD) % WORD;
    }
  }

  lemma DifferenceIsRemainder(a: nat, b: nat)
    ensures Sub(Wrap(a), Wrap(b)) == (a - b) % WORD
  {
    WrapIsRemainder(a);
    WrapIsRemainder(b);
    WrapIsRemainder(a % WORD + WORD - b % WORD);
    RemainderOfDifference(a, b);
  }

  lemma RemainderOfDifference(a: nat, b: nat)
    ensures (a % WORD + WORD - b % WORD) % WORD == (a - b) % WORD
  {
    var k := a / WORD - b / WORD - 1;
    assert a - b == a % WORD + WORD - b % WORD + k * WORD;
    SameRemainder(a % WORD + WORD - b % WORD, k);
  }

  lemma {:induction false} SameRemainder(n: int, k: int)
    ensures (n + k * WORD) % WORD == n % WORD
    decreases if k < 0 then -k else k
  {
    if k > 0 {
      SameRemainder(n, k - 1);
      assert n + k * WORD == (n + (k - 1) * WORD) + WORD;
    } else if k < 0 {
      SameRemainder(n, k + 1);
      assert n + k * WORD == (n + (k + 1) * WORD) - WORD;
    }
  }

  /** For any two readings: 64-bit arithmetic is that of remainders, in the increases and in 100 times the
      idle one. */
  lemma UsageExactly(before: CPUStat, after: CPUStat)
    ensures var idle, total := (after.idle - before.idle) % WORD, (TrueTotal(after) - TrueTotal(before)) % WORD;
      CPUPercentage(Sub(after.idle, before.idle), Sub(TotalTime(after), TotalTime(before)))
      == if total == 0 then Undefined else Percentage(100.0 - (100 * idle % WORD) as real / total as real)
  {
    TotalWraps(before);
    TotalWraps(after);
    DifferenceIsRemainder(TrueTotal(after), TrueTotal(before));
    DifferenceIsRemainder(after.idle, before.idle);
    WrapIsRemainder(100 * ((after.idle - before.idle) % WORD));
  }

  /** What `Check` computes from the reading before and the reading after the pause: while the idle
      increase is not too large, the busy share of the increase. */
  method MeasureUsage(before: CPUStat, after: CPUStat) returns (usage: Percentage)
    ensures var idle, total := (after.idle - before.idle) % WORD, (TrueTotal(after) - TrueTotal(before)) % WORD;
      usage == if total == 0 then Undefined else Percentage(100.0 - (100 * idle % WORD) as real / total as real)
    ensures Later(before, after) && TrueTotal(after) == TrueTotal(before) ==> usage == Undefined
    ensures Later(before, after) && 0 < TrueTotal(after) - TrueTotal(before) < WORD
            && 100 * (after.idle - before.idle) < WORD ==>
      var total := TrueTotal(after) - TrueTotal(before);
      usage == Percentage(100.0 * (total - (after.idle - before.idle)) as real / total as real)
  {
    var previousIdle, previousTotal := before.idle, TotalTime(before);
    var idle, total := after.idle, TotalTime(after);
    usage := CPUPercentage(Sub(idle, previousIdle), Sub(total, previousTotal));
    UsageExactly(before, after);
    if Later(before, after) && TrueTotal(after) == TrueTotal(before) {
      DeltaIsTrueIncrease(before, after);
    }
    if Later(before, after) && 0 < TrueTotal(after) - TrueTotal(before) < WORD {
      UsageIsBusyShare(before, after);
    }
  }
}
