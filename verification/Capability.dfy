/** Capability estimates: the Wilson interval of a success rate in exact arithmetic, and the counts it
    is computed from (apatch/capability.py). */
module Capability {
  import opened Common

  const Z := 1.96

  datatype Interval = Interval(mean: real, lower: real, upper: real)

  // ---------- The interval ----------

  function Rate(passed: int, attempted: int): real
    requires attempted > 0
  {
    passed as real / attempted as real
  }

  function Denominator(attempted: int): real
    requires attempted > 0
  {
    1.0 + Z * Z / attempted as real
  }

  function Centre(passed: int, attempted: int): real
    requires attempted > 0
  {
    var n := attempted as real;
    (Rate(passed, attempted) + Z * Z / (2.0 * n)) / Denominator(attempted)
  }

  // What is under the square root.
  function Radicand(passed: int, attempted: int): real
    requires attempted > 0
  {
    var n, p := attempted as real, Rate(passed, attempted);
    (p * (1.0 - p) + Z * Z / (4.0 * n)) / n
  }

  // The square root is given by its defining property.
  predicate IsRoot(root: real, x: real) {
    root >= 0.0 && root * root == x
  }

  function Spread(attempted: int, root: real): real
    requires attempted > 0
  {
    Z * root / Denominator(attempted)
  }

  // Rounding half to even, to a whole number.
  function RoundEven(x: real): int {
    var f := x.Floor;
    if x - f as real < 0.5 || (x - f as real == 0.5 && f % 2 == 0) then f else f + 1
  }

  // round(x, 4)
  function Round4(x: real): real {
    RoundEven(x * 10000.0) as real / 10000.0
  }

  function Clamped(passed: int, attempted: int, root: real): Interval
    requires attempted > 0
  {
    var low, high := Centre(passed, attempted) - Spread(attempted, root),
      Centre(passed, attempted) + Spread(attempted, root);
    Interval(Rate(passed, attempted), if low > 0.0 then low else 0.0, if high < 1.0 then high else 1.0)
  }

  // _wilson
  function Wilson(passed: int, attempted: int, root: real): Option<Interval> {
    if attempted <= 0 then None
    else
      var exact := Clamped(passed, attempted, root);
      Some(Interval(Round4(exact.mean), Round4(exact.lower), Round4(exact.upper)))
  }

  // ---------- What the interval means ----------

  // How far a rate t is from being compatible with the observed rate p: the score test accepts t where
  // this is not positive.
  function Score(p: real, n: real, t: real): real
    requires n > 0.0
  {
    (p - t) * (p - t) - Z * Z / n * (t * (1.0 - t))
  }

  predicate IsCount(passed: int, attempted: int) {
    0 <= passed <= attempted && attempted > 0
  }

  function Low(passed: int, attempted: int, root: real): real
    requires attempted > 0
  {
    Centre(passed, attempted) - Spread(attempted, root)
  }

  function High(passed: int, attempted: int, root: real): real
    requires attempted > 0
  {
    Centre(passed, attempted) + Spread(attempted, root)
  }

  lemma Divided(x: real, d: real)
    requires d != 0.0
    ensures d * (x / d) == x
  {
  }

  lemma ProductOf(d: real, c: real, w: real, h: real, v: real, m: real)
    requires d != 0.0 && d * c == h && d * w == v && h * h - v * v == m * d
    ensures d * ((c - w) * (c + w)) == m
  {
    calc {
      d * (d * ((c - w) * (c + w)));
      (d * c) * (d * c) - (d * w) * (d * w);
      m * d;
    }
    assert d * (d * ((c - w) * (c + w)) - m) == 0.0;
  }

  // The centre before it is divided.
  function Numerator(passed: int, attempted: int): real
    requires attempted > 0
  {
    Rate(passed, attempted) + Z * Z / (2.0 * attempted as real)
  }

  lemma DifferenceOfSquares(passed: int, attempted: int, root: real)
    requires attempted > 0 && IsRoot(root, Radicand(passed, attempted))
    ensures var h, v, p := Numerator(passed, attempted), Z * root, Rate(passed, attempted);
      h * h - v * v == p * p * Denominator(attempted)
  {
    hide Rate;
    var v := Z * root;
    assert v * v == Z * Z * (root * root);
  }

  lemma Undivided(passed: int, attempted: int, root: real)
    requires attempted > 0
    ensures Denominator(attempted) * Centre(passed, attempted) == Numerator(passed, attempted)
    ensures Denominator(attempted) * Spread(attempted, root) == Z * root
    ensures Denominator(attempted) > 0.0 && Denominator(attempted) == 1.0 + Z * Z / attempted as real
    ensures 2.0 * Numerator(passed, attempted) == 2.0 * Rate(passed, attempted) + Z * Z / attempted as real
  {
    hide Rate;
    Divided(Numerator(passed, attempted), Denominator(attempted));
    Divided(Z * root, Denominator(attempted));
  }

  lemma SumOf(d: real, c: real, w: real, h: real)
    requires d * c == h
    ensures d * ((c - w) + (c + w)) == 2.0 * h
  {
  }

  lemma MulNonNegative(a: real, b: real)
    requires a >= 0.0 && b >= 0.0
    ensures a * b >= 0.0
  {
  }

  lemma MulNegative(a: real, b: real)
    requires a > 0.0 && b < 0.0
    ensures a * b < 0.0
  {
  }

  lemma SquaresGrow(a: real, b: real)
    requires 0.0 <= a <= b
    ensures a * a <= b * b
    ensures a < b ==> a * a < b * b
  {
    assert b * b - a * a == (b - a) * (b + a);
    if a < b { MulNegative(b - a, -(b + a)); }
  }

  lemma SquareNonNegative(a: real)
    ensures a * a >= 0.0
  {
    if a >= 0.0 { MulNonNegative(a, a); } else { MulNonNegative(-a, -a); }
  }

  // A quadratic from the sum and the product of its zeros.
  lemma Factored(d: real, k: real, p: real, low: real, high: real, t: real)
    requires d == 1.0 + k && d * (low + high) == 2.0 * p + k && d * (low * high) == p * p
    ensures (p - t) * (p - t) - k * (t * (1.0 - t)) == d * ((t - low) * (t - high))
  {
    var sum, product := low + high, low * high;
    assert (t - low) * (t - high) == t * t - sum * t + product;
    assert d * (t * t - sum * t + product) == d * (t * t) - d * sum * t + d * product;
    assert d * (t * t) == t * t + k * (t * t);
    assert (2.0 * p + k) * t == 2.0 * (p * t) + k * t;
    assert k * (t * (1.0 - t)) == k * t - k * (t * t);
  }

  lemma ZerosOf(passed: int, attempted: int, root: real)
    requires attempted > 0 && IsRoot(root, Radicand(passed, attempted))
    ensures var k, p, d := Z * Z / (attempted as real), Rate(passed, attempted), Denominator(attempted);
      && d == 1.0 + k
      && d * (Low(passed, attempted, root) + High(passed, attempted, root)) == 2.0 * p + k
      && d * (Low(passed, attempted, root) * High(passed, attempted, root)) == p * p
  {
    hide Rate, Denominator, Centre, Spread, Numerator, IsRoot, Radicand;
    var d, c, w, p := Denominator(attempted), Centre(passed, attempted), Spread(attempted, root),
      Rate(passed, attempted);
    Undivided(passed, attempted, root);
    DifferenceOfSquares(passed, attempted, root);
    ProductOf(d, c, w, Numerator(passed, attempted), Z * root, p * p);
    SumOf(d, c, w, Numerator(passed, attempted));
  }

  lemma ScoreFactors(passed: int, attempted: int, root: real, t: real)
    requires attempted > 0 && IsRoot(root, Radicand(passed, attempted))
    ensures Score(Rate(passed, attempted), attempted as real, t)
         == Denominator(attempted) * ((t - Low(passed, attempted, root)) * (t - High(passed, attempted, root)))
  {
    hide Rate, Denominator, Low, High, IsRoot, Radicand;
    var n, p := attempted as real, Rate(passed, attempted);
    ZerosOf(passed, attempted, root);
    Factored(Denominator(attempted), Z * Z / n, p, Low(passed, attempted, root), High(passed, attempted, root), t);
  }

  lemma LowIsBelowHigh(passed: int, attempted: int, root: real)
    requires attempted > 0 && root >= 0.0
    ensures Low(passed, attempted, root) <= High(passed, attempted, root)
  {
    assert Spread(attempted, root) * Denominator(attempted) == Z * root;
  }

  lemma SignOfProduct(d: real, a: real, b: real)
    requires d > 0.0 && a >= b
    ensures d * (a * b) <= 0.0 <==> a >= 0.0 && b <= 0.0
  {
    if a * b > 0.0 {
      assert d * (a * b) > 0.0;
    } else {
      assert d * (-(a * b)) >= 0.0;
    }
  }

  // The interval holds exactly the rates the score test accepts.
  lemma IntervalIsScoreTest(passed: int, attempted: int, root: real, t: real)
    requires attempted > 0 && IsRoot(root, Radicand(passed, attempted))
    ensures Low(passed, attempted, root) <= t <= High(passed, attempted, root)
       <==> Score(Rate(passed, attempted), attempted as real, t) <= 0.0
  {
    ScoreFactors(passed, attempted, root, t);
    LowIsBelowHigh(passed, attempted, root);
    SignOfProduct(Denominator(attempted), t - Low(passed, attempted, root), t - High(passed, attempted, root));
  }

  lemma RateInUnit(passed: int, attempted: int)
    requires IsCount(passed, attempted)
    ensures 0.0 <= Rate(passed, attempted) <= 1.0
  {
    var n, p := attempted as real, Rate(passed, attempted);
    assert p * n == passed as real;
  }

  // A rate outside of 0..1 is never accepted, and the observed one always.
  lemma ScoreOutside(p: real, n: real, t: real)
    requires n > 0.0 && (t < 0.0 || t > 1.0)
    ensures Score(p, n, t) > 0.0
  {
    if t < 0.0 { MulNegative(1.0 - t, t); } else { MulNegative(t, 1.0 - t); }
    MulNegative(Z * Z / n, t * (1.0 - t));
    SquareNonNegative(p - t);
  }

  lemma ScoreAtRate(p: real, n: real)
    requires n > 0.0 && 0.0 <= p <= 1.0
    ensures Score(p, n, p) <= 0.0
  {
    MulNonNegative(p, 1.0 - p);
    MulNonNegative(Z * Z / n, p * (1.0 - p));
  }

  // The interval lies in 0..1 and around the mean.
  lemma IntervalIsOrdered(passed: int, attempted: int, root: real)
    requires IsCount(passed, attempted) && IsRoot(root, Radicand(passed, attempted))
    ensures 0.0 <= Low(passed, attempted, root) <= Rate(passed, attempted) <= High(passed, attempted, root) <= 1.0
  {
    var n, p := attempted as real, Rate(passed, attempted);
    var low, high := Low(passed, attempted, root), High(passed, attempted, root);
    RateInUnit(passed, attempted);
    ScoreAtRate(p, n);
    IntervalIsScoreTest(passed, attempted, root, p);
    IntervalIsScoreTest(passed, attempted, root, low);
    IntervalIsScoreTest(passed, attempted, root, high);
    if low < 0.0 { ScoreOutside(p, n, low); }
    if high > 1.0 { ScoreOutside(p, n, high); }
  }

  lemma ClampsNeverAct(passed: int, attempted: int, root: real)
    requires IsCount(passed, attempted) && IsRoot(root, Radicand(passed, attempted))
    ensures Clamped(passed, attempted, root)
         == Interval(Rate(passed, attempted), Low(passed, attempted, root), High(passed, attempted, root))
  {
    IntervalIsOrdered(passed, attempted, root);
  }

  lemma RootIsUnique(a: real, b: real, x: real)
    requires IsRoot(a, x) && IsRoot(b, x)
    ensures a == b
  {
    if a < b { SquaresGrow(a, b); }
    if b < a { SquaresGrow(b, a); }
  }

  lemma RateMirrors(passed: int, attempted: int)
    requires attempted > 0
    ensures Rate(attempted - passed, attempted) == 1.0 - Rate(passed, attempted)
    ensures Radicand(attempted - passed, attempted) == Radicand(passed, attempted)
  {
    var p, q := Rate(passed, attempted), Rate(attempted - passed, attempted);
    ShareOfRest(passed as real, attempted as real);
    assert (attempted - passed) as real == attempted as real - passed as real;
    assert q == 1.0 - p;
    assert 1.0 - q == p;
    assert q * (1.0 - q) == p * (1.0 - p);
  }

  lemma ShareOfRest(x: real, n: real)
    requires n > 0.0
    ensures (n - x) / n == 1.0 - x / n
  {
    Divided(n - x, n);
    Divided(x, n);
    WithoutShare(n, x / n);
    SameFactor(n, (n - x) / n, 1.0 - x / n);
  }

  lemma WithoutShare(n: real, a: real)
    ensures n * (1.0 - a) == n - n * a
  {
  }

  lemma SameFactor(n: real, a: real, b: real)
    requires n > 0.0 && n * a == n * b
    ensures a == b
  {
    assert n * (a - b) == 0.0;
  }

  lemma CentreMirrors(passed: int, attempted: int)
    requires attempted > 0
    ensures Centre(attempted - passed, attempted) == 1.0 - Centre(passed, attempted)
  {
    RateMirrors(passed, attempted);
    var n, p, d := attempted as real, Rate(passed, attempted), Denominator(attempted);
    var h := Z * Z / (2.0 * n);
    assert h + h == Z * Z / n;
    assert (p + h) + (1.0 - p + h) == d;
    assert (p + h) / d + (1.0 - p + h) / d == ((p + h) + (1.0 - p + h)) / d;
  }

  // Swapping passed and failed mirrors the interval around 1/2.
  lemma IntervalMirrors(passed: int, attempted: int, root: real, mirrored: real)
    requires attempted > 0
    requires IsRoot(root, Radicand(passed, attempted)) && IsRoot(mirrored, Radicand(attempted - passed, attempted))
    ensures Rate(attempted - passed, attempted) == 1.0 - Rate(passed, attempted)
    ensures Low(attempted - passed, attempted, mirrored) == 1.0 - High(passed, attempted, root)
    ensures High(attempted - passed, attempted, mirrored) == 1.0 - Low(passed, attempted, root)
  {
    RateMirrors(passed, attempted);
    CentreMirrors(passed, attempted);
    RootIsUnique(root, mirrored, Radicand(passed, attempted));
  }

  lemma RateGrows(passed: int, more: int, attempted: int)
    requires attempted > 0 && passed <= more
    ensures Rate(passed, attempted) <= Rate(more, attempted)
  {
    var n, p, q := attempted as real, Rate(passed, attempted), Rate(more, attempted);
    assert p * n == passed as real && q * n == more as real;
    if q < p { MulNegative(n, q - p); }
  }

  // More passes out of as many attempts never lower either end.
  lemma MorePassesRaiseBothEnds(passed: int, more: int, attempted: int, root: real, other: real)
    requires IsCount(passed, attempted) && IsCount(more, attempted) && passed <= more
    requires IsRoot(root, Radicand(passed, attempted)) && IsRoot(other, Radicand(more, attempted))
    ensures Low(passed, attempted, root) <= Low(more, attempted, other)
    ensures High(passed, attempted, root) <= High(more, attempted, other)
  {
    var n, p, q := attempted as real, Rate(passed, attempted), Rate(more, attempted);
    RateGrows(passed, more, attempted);
    IntervalIsOrdered(passed, attempted, root);
    IntervalIsOrdered(more, attempted, other);
    var low, high := Low(more, attempted, other), High(passed, attempted, root);
    if low < Low(passed, attempted, root) {
      IntervalIsScoreTest(passed, attempted, root, low);
      IntervalIsScoreTest(more, attempted, other, low);
      NearerScoresLess(p, q, n, low);
    }
    if high > High(more, attempted, other) {
      IntervalIsScoreTest(more, attempted, other, high);
      IntervalIsScoreTest(passed, attempted, root, high);
      NearerScoresLess(q, p, n, high);
    }
  }

  // Of two observed rates on one side of t, the nearer one scores t no higher.
  lemma NearerScoresLess(p: real, q: real, n: real, t: real)
    requires n > 0.0 && (t <= p <= q || q <= p <= t)
    ensures Score(p, n, t) <= Score(q, n, t)
  {
    if t <= p <= q {
      SquaresGrow(p - t, q - t);
    } else {
      SquaresGrow(t - p, t - q);
      assert (t - p) * (t - p) == (p - t) * (p - t) && (t - q) * (t - q) == (q - t) * (q - t);
    }
  }

  // ---------- Rounding ----------

  lemma RoundKeepsOrder(x: real, y: real)
    requires x <= y
    ensures Round4(x) <= Round4(y)
  {
    assert x * 10000.0 <= y * 10000.0;
    var f, g := (x * 10000.0).Floor, (y * 10000.0).Floor;
    assert f <= g;
  }

  lemma RoundOfUnit()
    ensures Round4(0.0) == 0.0 && Round4(1.0) == 1.0
  {
    assert (0.0 * 10000.0).Floor == 0 && (1.0 * 10000.0).Floor == 10000;
  }

  lemma RoundMirrors(x: real)
    ensures Round4(1.0 - x) == 1.0 - Round4(x)
  {
    var y := x * 10000.0;
    RoundEvenMirrors(y);
    assert (1.0 - x) * 10000.0 == 10000.0 - y;
  }

  lemma RoundEvenMirrors(y: real)
    ensures RoundEven(10000.0 - y) == 10000 - RoundEven(y)
  {
    var f := y.Floor;
    var r := y - f as real;
    if r == 0.0 {
      assert (10000.0 - y).Floor == 10000 - f;
    } else {
      assert (10000.0 - y).Floor == 9999 - f;
      assert 10000.0 - y - (9999 - f) as real == 1.0 - r;
    }
  }

  // The reported figures are ordered within 0..1.
  lemma WilsonIsOrdered(passed: int, attempted: int, root: real)
    requires IsCount(passed, attempted) && IsRoot(root, Radicand(passed, attempted))
    ensures Wilson(passed, attempted, root).Some?
    ensures var i := Wilson(passed, attempted, root).value;
      0.0 <= i.lower <= i.mean <= i.upper <= 1.0
  {
    IntervalIsOrdered(passed, attempted, root);
    ClampsNeverAct(passed, attempted, root);
    RoundOfUnit();
    RoundKeepsOrder(0.0, Low(passed, attempted, root));
    RoundKeepsOrder(Low(passed, attempted, root), Rate(passed, attempted));
    RoundKeepsOrder(Rate(passed, attempted), High(passed, attempted, root));
    RoundKeepsOrder(High(passed, attempted, root), 1.0);
  }

  // They mirror exactly when passed and failed are swapped: half-even rounding has no direction.
  lemma WilsonMirrors(passed: int, attempted: int, root: real, mirrored: real)
    requires IsCount(passed, attempted)
    requires IsRoot(root, Radicand(passed, attempted)) && IsRoot(mirrored, Radicand(attempted - passed, attempted))
    ensures var i := Wilson(passed, attempted, root).value;
      Wilson(attempted - passed, attempted, mirrored) == Some(Interval(1.0 - i.mean, 1.0 - i.upper, 1.0 - i.lower))
  {
    IntervalMirrors(passed, attempted, root, mirrored);
    ClampsNeverAct(passed, attempted, root);
    ClampsNeverAct(attempted - passed, attempted, mirrored);
    RoundMirrors(Rate(passed, attempted));
    RoundMirrors(Low(passed, attempted, root));
    RoundMirrors(High(passed, attempted, root));
  }

  // Rounding goes to the nearest whole number, and to the even one of two nearest.
  lemma RoundIsNearest(x: real, k: int)
    ensures var r := RoundEven(x);
      && -0.5 <= r as real - x <= 0.5
      && (-0.5 <= k as real - x <= 0.5 ==> k == r || (r % 2 == 0 && (k == r - 1 || k == r + 1)))
  {
    var f := x.Floor;
    var r := x - f as real;
    assert 0.0 <= r < 1.0;
    if -0.5 <= k as real - x <= 0.5 { assert k == f || k == f + 1; }
  }

  // ---------- The counts ----------

  datatype Episode = Episode(id: string, avatar: string, primary: string, eligible: bool, status: string)

  datatype Key = Key(avatar: string, primary: string)

  datatype Observation = Observation(attempted: nat, passed: nat, failed: nat)

  predicate Belongs(e: Episode, key: Key) {
    e.eligible && e.avatar != "" && e.primary != "" && key == Key(e.avatar, e.primary)
  }

  // The episodes of a group in the order they came.
  function EvidenceFor(episodes: seq<Episode>, key: Key): seq<Episode> {
    if episodes == [] then []
    else
      var before, e := EvidenceFor(episodes[..|episodes| - 1], key), episodes[|episodes| - 1];
      if Belongs(e, key) then before + [e] else before
  }

  function CountStatus(evidence: seq<Episode>, status: string): (n: nat)
    ensures n <= |evidence|
  {
    if evidence == [] then 0
    else CountStatus(evidence[..|evidence| - 1], status) + if evidence[|evidence| - 1].status == status then 1 else 0
  }

  method GroupEvidence(episodes: seq<Episode>) returns (grouped: map<Key, seq<Episode>>)
    ensures forall key :: key in grouped <==> EvidenceFor(episodes, key) != []
    ensures forall key :: key in grouped ==> grouped[key] == EvidenceFor(episodes, key)
  {
    grouped := map[];
    for i := 0 to |episodes|
      invariant forall key :: key in grouped <==> EvidenceFor(episodes[..i], key) != []
      invariant forall key :: key in grouped ==> grouped[key] == EvidenceFor(episodes[..i], key)
    {
      var e := episodes[i];
      assert episodes[..i + 1][..i] == episodes[..i];
      if !e.eligible { continue; }
      if e.avatar != "" && e.primary != "" {
        var key := Key(e.avatar, e.primary);
        grouped := grouped[key := (if key in grouped then grouped[key] else []) + [e]];
      }
    }
    assert episodes[..|episodes|] == episodes;
  }

  method Observe(evidence: seq<Episode>) returns (o: Observation)
    ensures o.passed == CountStatus(evidence, "passed") && o.failed == CountStatus(evidence, "failed")
    ensures o.attempted == o.passed + o.failed <= |evidence|
  {
    var passed, failed := 0, 0;
    for i := 0 to |evidence|
      invariant passed == CountStatus(evidence[..i], "passed") && failed == CountStatus(evidence[..i], "failed")
      invariant passed + failed <= i
    {
      assert evidence[..i + 1][..i] == evidence[..i];
      if evidence[i].status == "passed" {
        passed := passed + 1;
      } else if evidence[i].status == "failed" {
        failed := failed + 1;
      }
    }
    assert evidence[..|evidence|] == evidence;
    o := Observation(passed + failed, passed, failed);
  }

  // derive_capabilities: one observation for every group, always fit for the interval.
  method DeriveObservations(episodes: seq<Episode>) returns (observations: map<Key, Observation>)
    ensures forall key :: key in observations <==> EvidenceFor(episodes, key) != []
    ensures forall key :: key in observations ==>
              && observations[key].passed == CountStatus(EvidenceFor(episodes, key), "passed")
              && observations[key].failed == CountStatus(EvidenceFor(episodes, key), "failed")
              && observations[key].attempted == observations[key].passed + observations[key].failed
              && (observations[key].attempted > 0 ==> IsCount(observations[key].passed, observations[key].attempted))
  {
    var grouped := GroupEvidence(episodes);
    observations := map[];
    var todo := grouped.Keys;
    while todo != {}
      invariant todo <= grouped.Keys && observations.Keys == grouped.Keys - todo
      invariant forall key :: key in observations ==>
                  && observations[key].passed == CountStatus(grouped[key], "passed")
                  && observations[key].failed == CountStatus(grouped[key], "failed")
                  && observations[key].attempted == observations[key].passed + observations[key].failed
      decreases |todo|
    {
      var key :| key in todo;
      var o := Observe(grouped[key]);
      observations := observations[key := o];
      todo := todo - {key};
    }
  }

  // No episode is counted twice, and none that belongs somewhere is lost.
  lemma {:induction false} EachEpisodeCountsOnce(episodes: seq<Episode>, key: Key, e: Episode)
    ensures multiset(EvidenceFor(episodes, key))[e]
         == if e.eligible && e.avatar == key.avatar != "" && e.primary == key.primary != "" then multiset(episodes)[e]
            else 0
  {
    if episodes != [] {
      EachEpisodeCountsOnce(episodes[..|episodes| - 1], key, e);
      assert episodes == episodes[..|episodes| - 1] + [episodes[|episodes| - 1]];
    }
  }

  // The positions of the eligible episodes of an Avatar and primary taxonomy with this outcome.
  function Positions(episodes: seq<Episode>, key: Key, status: string): set<nat> {
    set i: nat | i < |episodes| && episodes[i].eligible && episodes[i].status == status
                 && episodes[i].avatar == key.avatar != "" && episodes[i].primary == key.primary != ""
  }

  // What is counted are those episodes, each once.
  lemma {:induction false} CountsEpisodes(episodes: seq<Episode>, key: Key, status: string)
    ensures CountStatus(EvidenceFor(episodes, key), status) == |Positions(episodes, key, status)|
  {
    if episodes == [] {
      assert Positions(episodes, key, status) == {};
    } else {
      var rest, e := episodes[..|episodes| - 1], episodes[|episodes| - 1];
      CountsEpisodes(rest, key, status);
      assert Positions(episodes, key, status)
          == Positions(rest, key, status) + if Belongs(e, key) && e.status == status then {|rest|} else {};
      var before := EvidenceFor(rest, key);
      assert (before + [e])[..|before|] == before;
    }
  }

  // ---------- The reported figures ----------

  // x to four decimals, to the nearest.
  predicate IsRounded(y: real, x: real) {
    -0.00005 <= y - x <= 0.00005 && (y * 10000.0).Floor as real == y * 10000.0
  }

  lemma RoundedTo4(x: real)
    ensures IsRounded(Round4(x), x)
  {
    var scaled, r := x * 10000.0, RoundEven(x * 10000.0);
    RoundIsNearest(scaled, r);
    hide RoundEven;
    var y := Round4(x);
    assert y * 10000.0 == r as real;
    assert -0.5 <= r as real - scaled <= 0.5;
  }

  // The reported mean is the rounded share of passes, and the reported ends are the rounded least and
  // greatest rates the score test accepts. Without attempts nothing is reported.
  lemma WilsonReports(passed: int, attempted: int, root: real)
    ensures Wilson(passed, attempted, root).None? <==> attempted <= 0
    ensures IsCount(passed, attempted) && IsRoot(root, Radicand(passed, attempted)) ==>
              var i := Wilson(passed, attempted, root).value;
              && IsRounded(i.mean, passed as real / attempted as real)
              && IsRounded(i.lower, Low(passed, attempted, root)) && IsRounded(i.upper, High(passed, attempted, root))
  {
    if IsCount(passed, attempted) && IsRoot(root, Radicand(passed, attempted)) {
      ClampsNeverAct(passed, attempted, root);
      RoundedTo4(Rate(passed, attempted));
      RoundedTo4(Low(passed, attempted, root));
      RoundedTo4(High(passed, attempted, root));
    }
  }
}
