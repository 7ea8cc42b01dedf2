/**
 * The resource race of a battleground: each side is paid a number of points per interval, at a rate that depends on
 * what it holds, and the first at the maximum wins.
 */
module ResourceClock {
  import ModArith

  const MAX_RESOURCES: nat := 1600
  const ONGOING: int := -1

  /** A side's rate, its resources, and the milliseconds it has not been paid for yet. Interval 0 stands for no pay. */
  datatype Side = Side(interval: nat, points: nat, resources: nat, accum: nat)
  datatype Clock = Clock(alliance: Side, horde: Side, winner: int)

  /** Whoever is paid at all is paid something. */
  predicate Rated(s: Side)
  {
    s.interval > 0 ==> s.points > 0
  }

  /** The yields that fall due within `elapsed`. */
  function Yields(s: Side, elapsed: nat): nat
  {
    if s.interval == 0 then 0 else (s.accum + elapsed) / s.interval
  }

  function Reached(s: Side, elapsed: nat): nat
  {
    if s.interval == 0 then s.resources else s.resources + s.points * Yields(s, elapsed)
  }

  predicate Wins(s: Side, elapsed: nat)
  {
    s.interval > 0 && Reached(s, elapsed) >= MAX_RESOURCES
  }

  /** The yields that are still missing, when some are. */
  function Missing(s: Side): nat
    requires s.interval > 0 && Rated(s) && s.resources < MAX_RESOURCES
  {
    (MAX_RESOURCES - s.resources + s.points - 1) / s.points
  }

  /** A side after some time, in closed form: the yields due are paid at once, and nothing is paid past the maximum. */
  function Accrue(s: Side, elapsed: nat): Side
    requires Rated(s) && s.resources < MAX_RESOURCES
  {
    if s.interval == 0 then s
    else if Wins(s, elapsed) then
      MissingIsEnough(s, elapsed);
      s.(resources := MAX_RESOURCES, accum := s.accum + elapsed - Missing(s) * s.interval)
    else s.(resources := Reached(s, elapsed), accum := (s.accum + elapsed) % s.interval)
  }

  lemma Order(x: int, y: int, n: nat)
    requires n > 0 && (x - y) * n < n
    ensures x <= y
  {
    ModArith.ScalesUp(x - y, n);
  }

  lemma Scaled(x: int, y: int, n: nat)
    requires n > 0 && x <= y
    ensures x * n <= y * n && n * x <= n * y
  {
  }

  lemma MissingAtMost(m: nat, p: nat, y: nat)
    requires p > 0 && p * y >= m
    ensures (m + p - 1) / p <= y
  {
    var q := (m + p - 1) / p;
    assert (m + p - 1) - p * q == (m + p - 1) % p;
    assert (q - y) * p == p * q - p * y;
    Order(q, y, p);
  }

  lemma MissingIsEnough(s: Side, elapsed: nat)
    requires s.interval > 0 && Rated(s) && s.resources < MAX_RESOURCES && Wins(s, elapsed)
    ensures Missing(s) * s.interval <= s.accum + elapsed
  {
    var n, y := s.interval, Yields(s, elapsed);
    MissingAtMost(MAX_RESOURCES - s.resources, s.points, y);
    assert s.accum + elapsed - n * y == (s.accum + elapsed) % n;
    Scaled(Missing(s), y, n);
  }

  /** The time is counted, but nothing is paid. */
  function Idle(s: Side, elapsed: nat): Side
  {
    if s.interval == 0 then s else s.(accum := s.accum + elapsed)
  }

  /** Alliance is paid first; the side that reaches the maximum ends the match before the other is paid. */
  function Ticked(c: Clock, elapsed: nat): Clock
    requires Rated(c.alliance) && Rated(c.horde)
    requires c.winner < 0 ==> c.alliance.resources < MAX_RESOURCES && c.horde.resources < MAX_RESOURCES
  {
    if c.winner >= 0 then c
    else if Wins(c.alliance, elapsed) then
      Clock(Accrue(c.alliance, elapsed), Idle(c.horde, elapsed), 0)
    else
      Clock(Accrue(c.alliance, elapsed), Accrue(c.horde, elapsed), if Wins(c.horde, elapsed) then 1 else c.winner)
  }

  /** While a match is on, nothing is overdue. */
  predicate InStep(s: Side)
  {
    s.interval > 0 ==> s.accum < s.interval
  }

  predicate GoodClock(c: Clock)
  {
    Rated(c.alliance) && Rated(c.horde) &&
    c.alliance.resources <= MAX_RESOURCES && c.horde.resources <= MAX_RESOURCES &&
    (c.winner == 0 || c.winner == 1 || c.winner == ONGOING) &&
    (c.winner == 0 <==> c.alliance.resources == MAX_RESOURCES) &&
    (c.winner == 1 <==> c.horde.resources == MAX_RESOURCES) &&
    (c.winner < 0 ==> InStep(c.alliance) && InStep(c.horde))
  }

  /** The winner is always exactly the side at the maximum, and stays. */
  lemma TickedIsGood(c: Clock, elapsed: nat)
    requires GoodClock(c)
    ensures GoodClock(Ticked(c, elapsed))
    ensures c.winner >= 0 ==> Ticked(c, elapsed).winner == c.winner
  {
  }

  /** Time changes no rate, and leaves a side that is not paid alone. */
  lemma TickedKeepsRates(c: Clock, elapsed: nat)
    requires GoodClock(c)
    ensures var d := Ticked(c, elapsed);
            d.alliance.interval == c.alliance.interval && d.alliance.points == c.alliance.points &&
            d.horde.interval == c.horde.interval && d.horde.points == c.horde.points &&
            (c.alliance.interval == 0 ==> d.alliance == c.alliance) && (c.horde.interval == 0 ==> d.horde == c.horde) &&
            (c.winner >= 0 ==> d == c)
  {
  }

  lemma DivAdds(x: nat, b: nat, n: nat)
    requires n > 0
    ensures (x % n + b) / n + x / n == (x + b) / n && (x % n + b) % n == (x + b) % n
  {
    var q, r := (x % n + b) / n, (x % n + b) % n;
    assert x + b == n * (x / n + q) + r;
    QuotientIs(x + b, x / n + q, r, n);
  }

  lemma QuotientIs(x: nat, q: nat, r: nat, n: nat)
    requires r < n && x == n * q + r
    ensures x / n == q && x % n == r
  {
    assert (x / n - q) * n == r - x % n;
    ModArith.MultipleInRangeIsZero(x / n - q, n);
  }

  /** Rounded up, `m` over `p` is `k`. */
  lemma QuotientUpIs(m: nat, k: nat, p: nat)
    requires p > 0 && k > 0 && (k - 1) * p < m <= k * p
    ensures (m + p - 1) / p == k
  {
    assert (k - 1) * p == k * p - p;
    assert p * k == k * p;
    QuotientIs(m + p - 1, k, m + p - 1 - k * p, p);
  }

  lemma MissingLess(m: nat, k: nat, p: nat)
    requires p > 0 && p * k < m
    ensures (m - p * k + p - 1) / p == (m + p - 1) / p - k
  {
    var q, r := (m + p - 1) / p, (m + p - 1) % p;
    assert m + p - 1 == q * p + r;
    assert (q - k) * p == q * p - p * k;
    ModArith.ScalesUp(q - k, p);
    assert p * (q - k) == (q - k) * p;
    QuotientIs(m + p - 1 - p * k, q - k, r, p);
  }

  lemma AccrueAdds(s: Side, a: nat, b: nat)
    requires Rated(s) && s.resources < MAX_RESOURCES && !Wins(s, a)
    ensures Accrue(s, a).interval == s.interval && Accrue(s, a).points == s.points &&
            Accrue(s, a).resources < MAX_RESOURCES
    ensures Wins(Accrue(s, a), b) <==> Wins(s, a + b)
    ensures Accrue(Accrue(s, a), b) == Accrue(s, a + b)
  {
    if s.interval > 0 {
      var n, p, k := s.interval, s.points, Yields(s, a);
      DivAdds(s.accum + a, b, n);
      var t := Accrue(s, a);
      assert t.resources == s.resources + p * k;
      assert Yields(s, a + b) == k + Yields(t, b);
      assert p * (k + Yields(t, b)) == p * k + p * Yields(t, b);
      assert Wins(t, b) <==> Wins(s, a + b);
      if Wins(t, b) {
        MissingLess(MAX_RESOURCES - s.resources, k, p);
        assert (Missing(s) - k) * n == Missing(s) * n - k * n;
        assert s.accum + a == n * k + t.accum;
      }
    }
  }

  /** Yields paid before the last moment leave a trace. */
  lemma AccrueLeavesTrace(s: Side, a: nat, b: nat)
    requires Rated(s) && s.resources < MAX_RESOURCES && !Wins(s, a)
    ensures Idle(Accrue(s, a), b) == Idle(s, a + b) <==> Yields(s, a) == 0
  {
  }

  /**
   * Ticks add up. When the first does not end the match, two ticks are one tick of their sum; but if Alliance wins in
   * the
   * second, Horde keeps what the first paid it, which the single tick never pays.
   */
  lemma TicksAdd(c: Clock, a: nat, b: nat)
    requires GoodClock(c) && c.winner < 0 && !Wins(c.alliance, a) && !Wins(c.horde, a)
    ensures Ticked(Ticked(c, a), b) == Ticked(c, a + b) <==> (Wins(c.alliance, a + b) ==> Yields(c.horde, a) == 0)
    ensures Ticked(Ticked(c, a), b).winner == Ticked(c, a + b).winner
    ensures Ticked(Ticked(c, a), b).alliance == Ticked(c, a + b).alliance
  {
    hide Accrue, Wins;
    AccrueAdds(c.alliance, a, b);
    AccrueAdds(c.horde, a, b);
    AccrueLeavesTrace(c.horde, a, b);
  }

  lemma YieldsGrow(x: nat, z: nat, n: nat)
    requires n > 0 && x <= z
    ensures x / n <= z / n
  {
    assert (x / n - z / n) * n == (x - x % n) - (z - z % n);
    Order(x / n, z / n, n);
  }

  lemma WinsLater(s: Side, a: nat, b: nat)
    requires Rated(s) && a <= b && Wins(s, a)
    ensures Wins(s, b)
  {
    YieldsGrow(s.accum + a, s.accum + b, s.interval);
    var d := Yields(s, b) - Yields(s, a);
    assert s.points * Yields(s, b) == s.points * Yields(s, a) + s.points * d;
  }

  /**
   * Splitting a tick changes the winner in exactly one case: Horde is there after the first part, Alliance only after
   * the whole. Then the finer clock gives the match to Horde and the coarser one to Alliance.
   */
  lemma SplitChangesWinner(c: Clock, a: nat, b: nat)
    requires GoodClock(c) && c.winner < 0
    ensures Ticked(Ticked(c, a), b).winner == Ticked(c, a + b).winner <==>
              !(Wins(c.horde, a) && !Wins(c.alliance, a) && Wins(c.alliance, a + b))
  {
    if !Wins(c.alliance, a) && !Wins(c.horde, a) {
      TicksAdd(c, a, b);
    } else {
      WhoIsThereFirst(c, a, b);
    }
  }

  lemma WhoIsThereFirst(c: Clock, a: nat, b: nat)
    requires GoodClock(c) && c.winner < 0 && (Wins(c.alliance, a) || Wins(c.horde, a))
    ensures Ticked(Ticked(c, a), b).winner == if Wins(c.alliance, a) then 0 else 1
    ensures Ticked(c, a + b).winner == if Wins(c.alliance, a + b) then 0 else 1
    ensures Wins(c.alliance, a) ==> Wins(c.alliance, a + b)
  {
    hide Accrue, Wins;
    if Wins(c.alliance, a) {
      WinsLater(c.alliance, a, a + b);
    } else {
      WinsLater(c.horde, a, a + b);
    }
    AccrueKeepsRate(c.alliance, a);
    AccrueKeepsRate(c.horde, a);
  }

  lemma AccrueKeepsRate(s: Side, a: nat)
    requires Rated(s) && s.resources < MAX_RESOURCES
    ensures Accrue(s, a).interval == s.interval && Accrue(s, a).points == s.points
  {
  }

  // ---------- The loop ----------

  /** The loop has stopped short of the maximum. */
  lemma PaidAll(s: Side, elapsed: nat, k: nat, left: nat)
    requires s.interval > 0 && Rated(s) && left < s.interval && s.accum + elapsed == k * s.interval + left
    requires s.resources + s.points * k < MAX_RESOURCES
    ensures !Wins(s, elapsed) && Accrue(s, elapsed) == s.(resources := s.resources + s.points * k, accum := left)
  {
    QuotientIs(s.accum + elapsed, k, left, s.interval);
  }

  /** The loop has stopped at the maximum. */
  lemma PaidToTheEnd(s: Side, elapsed: nat, k: nat, left: nat)
    requires s.interval > 0 && Rated(s) && k >= 1 && s.accum + elapsed == k * s.interval + left
    requires s.resources < MAX_RESOURCES
    requires s.resources + s.points * (k - 1) < MAX_RESOURCES <= s.resources + s.points * k
    ensures Wins(s, elapsed) && Accrue(s, elapsed) == s.(resources := MAX_RESOURCES, accum := left)
  {
    var p, n := s.points, s.interval;
    assert (k - 1) * p == p * (k - 1) && k * p == p * k;
    QuotientUpIs(MAX_RESOURCES - s.resources, k, p);
    EnoughYields(s.accum + elapsed, k, left, n);
    assert p * ((s.accum + elapsed) / n) >= p * k;
  }

  lemma EnoughYields(x: nat, k: nat, left: nat, n: nat)
    requires n > 0 && x == k * n + left
    ensures x / n >= k
  {
    var q, r := left / n, left % n;
    assert n * (k + q) == k * n + q * n;
    QuotientIs(x, k + q, r, n);
  }

  /** The loop that pays one side ends where the closed form says. */
  method Pay(s: Side, elapsed: nat) returns (t: Side, won: bool)
    requires Rated(s) && s.resources < MAX_RESOURCES
    ensures t == Accrue(s, elapsed) && won == Wins(s, elapsed)
  {
    hide Accrue, Wins;
    t, won := s, false;
    if s.interval == 0 {
      NothingToPay(s, elapsed);
    } else {
      t := t.(accum := t.accum + elapsed);
      ghost var k := 0;
      while t.accum >= s.interval && !won
        invariant t.interval == s.interval && t.points == s.points && k >= 0 &&
                  t.accum + k * s.interval == s.accum + elapsed
        invariant !won ==> t.resources == s.resources + s.points * k && t.resources < MAX_RESOURCES
        invariant won ==> t.resources == MAX_RESOURCES && k >= 1
        invariant won ==> s.resources + s.points * (k - 1) < MAX_RESOURCES <= s.resources + s.points * k
        decreases t.accum, !won
      {
        t := t.(accum := t.accum - s.interval, resources := t.resources + s.points);
        k := k + 1;
        assert k * s.interval == (k - 1) * s.interval + s.interval && s.points * k == s.points * (k - 1) + s.points;
        if t.resources >= MAX_RESOURCES {
          t := t.(resources := MAX_RESOURCES);
          won := true;
        }
      }
      if won {
        PaidToTheEnd(s, elapsed, k, t.accum);
      } else {
        PaidAll(s, elapsed, k, t.accum);
      }
    }
  }

  lemma NothingToPay(s: Side, elapsed: nat)
    requires s.interval == 0 && s.resources < MAX_RESOURCES
    ensures Accrue(s, elapsed) == s && !Wins(s, elapsed)
  {
  }

  /** Both sides after some time: Alliance is paid, then Horde, unless that decided the match. */
  method Tick(c: Clock, elapsed: nat) returns (d: Clock)
    requires GoodClock(c)
    ensures d == Ticked(c, elapsed)
  {
    hide Accrue, Wins;
    if c.winner >= 0 {
      return c;
    }
    var a, won := Pay(c.alliance, elapsed);
    if won {
      return Clock(a, Idle(c.horde, elapsed), 0);
    }
    var h, wonToo := Pay(c.horde, elapsed);
    return Clock(a, h, if wonToo then 1 else c.winner);
  }
}
