/** The counts of engine/scenario_runner.py over exact reals: background and noise from fractions of the
    total, and instances from a target total. */
module StreamSizing {

  /** Python's `round`: to the nearest integer, ties to even. */
  function Round(x: real): (r: int)
    ensures x - 0.5 <= r as real <= x + 0.5
    ensures x == x.Floor as real + 0.5 ==> r % 2 == 0
  {
    var low := x.Floor;
    var rest := x - low as real;
    if rest < 0.5 || (rest == 0.5 && low % 2 == 0) then low else low + 1
  }

  const FLOOR := 0.000001

  function SignalFraction(background: real, noise: real): (f: real)
    ensures f >= FLOOR
  {
    var f := 1.0 - background - noise;
    if f > FLOOR then f else FLOOR
  }

  function Total(signal: nat, background: real, noise: real): real {
    signal as real / SignalFraction(background, noise)
  }

  function BackgroundCount(signal: nat, background: real, noise: real): int {
    Round(Total(signal, background, noise) * background)
  }

  function NoiseCount(signal: nat, background: real, noise: real): int {
    Round(Total(signal, background, noise) * noise)
  }

  /** Each count is its own fraction of the total, rounded; the total makes the signal the rest of it, or the
      floor's part of it. */
  lemma CountsAreShares(signal: nat, background: real, noise: real)
    ensures var total := signal as real / if 1.0 - background - noise > FLOOR then 1.0 - background - noise else FLOOR;
            && total * background - 0.5 <= BackgroundCount(signal, background, noise) as real
                 <= total * background + 0.5
            && total * noise - 0.5 <= NoiseCount(signal, background, noise) as real <= total * noise + 0.5
  {
    hide Round;
  }

  function StreamSize(signal: nat, background: real, noise: real): int {
    signal + BackgroundCount(signal, background, noise) + NoiseCount(signal, background, noise)
  }

  /** A stream of `size` alarms misses `signal / (1 - background - noise)` by at most one. */
  ghost predicate IsNear(size: int, signal: nat, background: real, noise: real)
    requires background + noise < 1.0
  {
    var ideal := signal as real / (1.0 - background - noise);
    ideal - 1.0 <= size as real <= ideal + 1.0
  }

  ghost predicate WithinOne(signal: nat, background: real, noise: real)
    requires background + noise < 1.0
  {
    IsNear(StreamSize(signal, background, noise), signal, background, noise)
  }

  // ---- Products of reals, one step at a time ----

  function Times(x: real, y: real): real {
    x * y
  }

  lemma TimesLaws(x: real, y: real, z: real)
    ensures Times(x, y) == Times(y, x)
    ensures Times(x + y, z) == Times(x, z) + Times(y, z)
    ensures Times(x - y, z) == Times(x, z) - Times(y, z)
    ensures Times(1.0, x) == x
  {
  }

  lemma TimesAssociates(x: real, y: real, z: real)
    ensures Times(Times(x, y), z) == Times(x, Times(y, z))
  {
  }

  lemma TimesGrows(x: real, y: real, z: real)
    ensures z > 0.0 ==> (Times(x, z) < Times(y, z) <==> x < y)
    ensures z >= 0.0 && x <= y ==> Times(x, z) <= Times(y, z)
  {
    hide Times;
    TimesLaws(y, x, z);
    TimesLaws(x, y, z);
    TimesSign(y - x, z);
    TimesSign(x - y, z);
  }

  lemma TimesSign(d: real, z: real)
    ensures d > 0.0 && z > 0.0 ==> Times(d, z) > 0.0
    ensures d >= 0.0 && z >= 0.0 ==> Times(d, z) >= 0.0
  {
  }

  lemma Quotient(x: real, y: real)
    requires y > 0.0
    ensures Times(x / y, y) == x
  {
  }

  lemma Inverse(x: real, y: real)
    requires y > 0.0
    ensures x / y == Times(x, 1.0 / y)
  {
    hide Times;
    var u := 1.0 / y;
    Quotient(1.0, y);
    Quotient(x, y);
    TimesAssociates(x, u, y);
    TimesLaws(x, 1.0, x);
    TimesLaws(1.0, x, x);
    TimesGrows(x / y, Times(x, u), y);
    TimesGrows(Times(x, u), x / y, y);
  }

  // ---- The size of the stream ----

  lemma SizeNearTotal(signal: nat, background: real, noise: real)
    ensures var sum := signal as real + Times(Total(signal, background, noise), background + noise);
            sum - 1.0 <= StreamSize(signal, background, noise) as real <= sum + 1.0
  {
    hide Round;
    var t := Total(signal, background, noise);
    var b, n := BackgroundCount(signal, background, noise), NoiseCount(signal, background, noise);
    assert t * background - 0.5 <= b as real <= t * background + 0.5;
    assert t * noise - 0.5 <= n as real <= t * noise + 0.5;
    assert StreamSize(signal, background, noise) as real == signal as real + b as real + n as real;
    assert Times(t, background + noise) == t * background + t * noise;
  }

  lemma Unclamped(signal: nat, background: real, noise: real)
    requires 1.0 - background - noise >= FLOOR
    ensures WithinOne(signal, background, noise)
  {
    hide StreamSize, Times;
    var f := 1.0 - background - noise;
    var t := Total(signal, background, noise);
    assert t == signal as real / f;
    Quotient(signal as real, f);
    TimesLaws(1.0, f, t);
    TimesLaws(t, f, t);
    TimesLaws(t, 1.0 - f, t);
    TimesLaws(t, 1.0, t);
    assert background + noise == 1.0 - f;
    SizeNearTotal(signal, background, noise);
  }

  /** Below the floor the stream falls short of the ideal by an amount that grows with the signal. */
  lemma Clamped(background: real, noise: real) returns (signal: nat)
    requires 0.0 < 1.0 - background - noise < FLOOR
    ensures !WithinOne(signal, background, noise)
  {
    hide StreamSize, Times;
    var f := 1.0 - background - noise;
    signal := LargeSignal(f, FLOOR);
    assert Total(signal, background, noise) == signal as real / FLOOR;
    assert background + noise == 1.0 - f;
    SizeNearTotal(signal, background, noise);
  }

  lemma LargeSignal(f: real, floor: real) returns (signal: nat)
    requires 0.0 < f < floor <= 0.5
    ensures var n := signal as real;
            n / f > n + Times(n / floor, 1.0 - f) + 2.0
  {
    hide Times;
    var u, v := 1.0 / f, 1.0 / floor;
    InverseFalls(f, floor);
    signal := Multiple(u - v);
    var n := signal as real;
    TimesLaws(u, v, n);
    TimesLaws(n, u, n);
    TimesLaws(n, v, n);
    TimesLaws(n, u - v, n);
    Inverse(n, f);
    Inverse(n, floor);
    Shortfall(n, f, n / f, n / floor);
  }

  lemma Multiple(gap: real) returns (n: nat)
    requires gap > 0.0
    ensures Times(n as real, gap) > 5.0
  {
    hide Times;
    Quotient(5.0, gap);
    n := Above(5.0 / gap);
    TimesGrows(5.0 / gap, n as real, gap);
  }

  lemma Above(q: real) returns (n: nat)
    ensures n as real > q
  {
    n := if q < 0.0 then 1 else q.Floor + 1;
  }

  lemma InverseFalls(f: real, floor: real)
    requires 0.0 < f < floor
    ensures 1.0 / f > 1.0 / floor
  {
    hide Times;
    var u, v := 1.0 / f, 1.0 / floor;
    Quotient(1.0, f);
    Quotient(1.0, floor);
    TimesGrows(0.0, v, floor);
    TimesGrows(v, 0.0, floor);
    TimesLaws(0.0, 0.0, floor);
    TimesGrows(f, floor, v);
    TimesLaws(f, v, f);
    TimesLaws(floor, v, f);
    TimesGrows(u, v, f);
  }

  lemma Shortfall(n: real, f: real, a: real, b: real)
    requires 0.0 < f <= 0.5 && a == n / f && a - b > 5.0
    ensures a > n + Times(b, 1.0 - f) + 2.0
  {
    hide Times;
    Quotient(n, f);
    TimesLaws(a, b, f);
    TimesLaws(f, a - b, f);
    TimesGrows(f, 0.5, a - b);
    TimesLaws(1.0, f, b);
    TimesLaws(b, 1.0, b);
    TimesLaws(b, 1.0 - f, b);
    TimesLaws(b, f, b);
    Halved(a - b);
  }

  lemma Halved(x: real)
    ensures Times(0.5, x) == x / 2.0
  {
  }

  /** The stream is within one alarm of `signal / (1 - background - noise)` for every signal count
      exactly when the signal fraction is not below the floor at which it is clamped. */
  lemma SizeWithinOneExactly(background: real, noise: real)
    requires background + noise < 1.0
    ensures (forall signal: nat :: WithinOne(signal, background, noise)) <==> 1.0 - background - noise >= FLOOR
  {
    if 1.0 - background - noise >= FLOOR {
      forall signal: nat ensures WithinOne(signal, background, noise) { Unclamped(signal, background, noise); }
    } else {
      var signal := Clamped(background, noise);
    }
  }

  /** Fractions that are not negative ask for counts that are not. */
  lemma CountsAreNatural(signal: nat, background: real, noise: real)
    requires background >= 0.0 && noise >= 0.0
    ensures BackgroundCount(signal, background, noise) >= 0 && NoiseCount(signal, background, noise) >= 0
  {
    hide Round, Times;
    var t := Total(signal, background, noise);
    Quotient(signal as real, SignalFraction(background, noise));
    TimesGrows(t, 0.0, SignalFraction(background, noise));
    TimesLaws(0.0, 0.0, SignalFraction(background, noise));
    TimesSign(t, background);
    TimesSign(t, noise);
    IsTimes(t, background);
    IsTimes(t, noise);
  }

  /** Instances for a target total: at least five, so that every scenario can be mined. */
  function Instances(target: nat, background: real, noise: real, scenarios: nat, cascadeSizes: nat): (r: int)
    ensures r >= 5
  {
    var n := if scenarios > 1 then scenarios else 1;
    var average := cascadeSizes as real / n as real;
    var r := Round(target as real * SignalFraction(background, noise) / n as real / Larger(1.0, average));
    if r > 5 then r else 5
  }

  function Larger(x: real, y: real): real {
    if y > x then y else x
  }

  /** Unless five is forced, the planned signal misses its share of the target by at most half of one
      round of all scenarios. */
  lemma PlannedSignal(target: nat, background: real, noise: real, scenarios: nat, cascadeSizes: nat)
    requires cascadeSizes >= scenarios > 0
    ensures var r := Instances(target, background, noise, scenarios, cascadeSizes);
            var planned := r as real * cascadeSizes as real;
            var share := target as real * SignalFraction(background, noise);
            && (r > 5 ==> share - 0.5 * cascadeSizes as real <= planned <= share + 0.5 * cascadeSizes as real)
            && (r == 5 ==> share <= planned + 0.5 * cascadeSizes as real)
  {
    hide Round, Times;
    var n, c := scenarios as real, cascadeSizes as real;
    var share := target as real * SignalFraction(background, noise);
    var x := share / n / (c / n);
    AtLeastOne(c, n);
    Cancels(share, n, c);
    var k := Round(x) as real;
    Near(x, k, c, share);
    TimesGrows(k, 5.0, c);
    assert Instances(target, background, noise, scenarios, cascadeSizes) == if Round(x) > 5 then Round(x) else 5;
    IsTimes(k, c);
    IsTimes(5.0, c);
  }

  lemma IsTimes(x: real, y: real)
    ensures Times(x, y) == x * y
  {
  }

  lemma AtLeastOne(c: real, n: real)
    requires c >= n > 0.0
    ensures c / n >= 1.0
  {
    hide Times;
    Quotient(c, n);
    TimesLaws(n, n, n);
    TimesGrows(c / n, 1.0, n);
  }

  lemma Near(x: real, k: real, c: real, share: real)
    requires Times(x, c) == share && x - 0.5 <= k <= x + 0.5 && c >= 0.0
    ensures share - 0.5 * c <= Times(k, c) <= share + 0.5 * c
  {
    hide Times;
    TimesLaws(x, 0.5, c);
    TimesGrows(x - 0.5, k, c);
    TimesGrows(k, x + 0.5, c);
    Halved(c);
  }

  lemma Cancels(share: real, n: real, c: real)
    requires n > 0.0 && c > 0.0 && c / n > 0.0
    ensures Times(share / n / (c / n), c) == share
  {
    hide Times;
    var q, v := c / n, share / n;
    Quotient(c, n);
    Quotient(share, n);
    Quotient(v, q);
    TimesAssociates(v / q, q, n);
  }
}
