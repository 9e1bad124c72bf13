/** The county generators of the segregation-index simulation.

    Each generator partitions a state population into counties: it draws a
    county size, subtracts it from the remaining population, appends a
    county record and recurses; once the remainder is below 1 it drops the
    county it appended last. Every random draw is an explicit oracle input:
    the sizes (and, in the random and centered modes, the rounded white
    count of each county) come from a sequence of draws. The sequence is
    finite, so each generator requires that it holds enough draws to finish,
    i.e. that its sizes add up to at least the starting population. */
module Simulation {
  import opened Sums

  /** A county record: the integer fields of the county lists that the
      `random_counties_*` functions build. The float fields (uniform-mode
      white/black split, ratio, unevenness, the Logan-Parman index) are not
      modelled. */
  datatype County =
    | UniformCounty(size: int)
    | SplitCounty(white: int, black: int, size: int)
    | CenteredCounty(white: int, black: int, size: int, expected: real)

  /** One draw of the random and centered modes: a county size and the
      county's rounded white count `round(size * county_ratio)`. */
  datatype Draw = Draw(size: int, white: int)

  /** The largest county size any mode draws. */
  const MaxCountySize := 999

  /** `rand.sample(range(1, 1000), 1)[0]`. */
  predicate UniformSize(n: int)
  {
    1 <= n <= MaxCountySize
  }

  /** Random mode: a size from [1, 999] and `round(size * ratio)` for a ratio
      in [0.25, 0.75), which puts 4 * white within 2 of [size, 3 * size]. */
  predicate RandomDraw(d: Draw)
  {
    && 1 <= d.size <= MaxCountySize
    && d.size - 2 <= 4 * d.white <= 3 * d.size + 2
  }

  /** Centered mode: a size from `range(10, 1000)`; the county ratio is
      normally distributed, so the rounded white count is unconstrained. */
  predicate CenteredDraw(d: Draw)
  {
    10 <= d.size <= MaxCountySize
  }

  predicate AllUniform(draws: seq<int>)
  {
    forall i | 0 <= i < |draws| :: UniformSize(draws[i])
  }

  predicate AllRandom(draws: seq<Draw>)
  {
    forall i | 0 <= i < |draws| :: RandomDraw(draws[i])
  }

  predicate AllCentered(draws: seq<Draw>)
  {
    forall i | 0 <= i < |draws| :: CenteredDraw(draws[i])
  }

  function DrawSizes(draws: seq<Draw>): seq<int>
  {
    seq(|draws|, i requires 0 <= i < |draws| => draws[i].size)
  }

  function Sizes(counties: seq<County>): seq<int>
  {
    seq(|counties|, i requires 0 <= i < |counties| => counties[i].size)
  }

  /** The population of a list of counties. */
  function Total(counties: seq<County>): int
  {
    Sum(Sizes(counties))
  }

  /** The random-mode county of a draw: `b_county = n_county - w_county`. */
  function Split(d: Draw): (c: County)
    ensures c.SplitCounty? && c.size == d.size && c.white == d.white
    ensures c.white + c.black == c.size
    ensures RandomDraw(d) ==> 0 <= c.white && 0 <= c.black
  {
    SplitCounty(d.white, d.size - d.white, d.size)
  }

  /** The expected number of black residents with a white neighbour in a
      county of n residents, w of them white and b black:
      `b * ((w - 1) / (n - 1)) * ((w - 2) / (n - 2))`, computed exactly over
      the rationals. Both divisions need n to be at least 3. */
  function ExpectedNeighbours(b: int, w: int, n: int): real
    requires n >= 3
  {
    (b as real) * ((w - 1) as real / (n - 1) as real) * ((w - 2) as real / (n - 2) as real)
  }

  /** The centered-mode county of a draw, with its expected-neighbour count.
      A centered size is at least 10, so the count is well defined. */
  function Centered(d: Draw): (c: County)
    requires CenteredDraw(d)
    ensures c.CenteredCounty? && c.size == d.size && c.white == d.white
    ensures c.white + c.black == c.size
    ensures c.size >= 3 && c.expected == ExpectedNeighbours(c.black, c.white, c.size)
  {
    var n := d.size;
    var w := d.white;
    var b := n - w;
    CenteredCounty(w, b, n, ExpectedNeighbours(b, w, n))
  }

  // ---------------------------------------------------------------------------
  // The three generators, each in the accumulator-passing form of
  // `random_counties_uniform`, `random_counties_random` and
  // `random_counties_centered`.
  // ---------------------------------------------------------------------------

  /** `random_counties_uniform`: every draw is a county size taken from the
      remaining population. The recursion terminates because every size is
      at least 1, so the remaining population strictly decreases. */
  function RandomCountiesUniform(populationLeft: int, counties: seq<County>, draws: seq<int>): (r: seq<County>)
    requires AllUniform(draws)
    requires populationLeft <= Sum(draws)
    ensures populationLeft < 1 ==> r == DropLast(counties)
    ensures populationLeft >= 1 ==> counties <= r
    ensures populationLeft >= 1 ==>
      forall i | |counties| <= i < |r| :: r[i].UniformCounty? && UniformSize(r[i].size)
    decreases populationLeft
  {
    if populationLeft < 1 then
      DropLast(counties)
    else
      var n := draws[0];
      DropLastAppend(counties, UniformCounty(n));
      RandomCountiesUniform(populationLeft - n, counties + [UniformCounty(n)], draws[1..])
  }

  /** `random_counties_random`: the remaining population is the sum of the
      black and white pools; each county takes `white` from the white pool
      and `size - white` from the black pool, so the sum of the pools drops
      by exactly the county size. */
  function RandomCountiesRandom(blackLeft: int, whiteLeft: int, counties: seq<County>, draws: seq<Draw>): (r: seq<County>)
    requires AllRandom(draws)
    requires blackLeft + whiteLeft <= Sum(DrawSizes(draws))
    ensures blackLeft + whiteLeft < 1 ==> r == DropLast(counties)
    ensures blackLeft + whiteLeft >= 1 ==> counties <= r
    decreases blackLeft + whiteLeft
  {
    if blackLeft + whiteLeft < 1 then
      DropLast(counties)
    else
      assert DrawSizes(draws)[1..] == DrawSizes(draws[1..]);
      var c := Split(draws[0]);
      DropLastAppend(counties, c);
      RandomCountiesRandom(blackLeft - c.black, whiteLeft - c.white, counties + [c], draws[1..])
  }

  /** `random_counties_centered`: as the random mode, with sizes of at least
      10 and a county ratio centred on the state ratio. */
  function RandomCountiesCentered(blackLeft: int, whiteLeft: int, counties: seq<County>, draws: seq<Draw>): (r: seq<County>)
    requires AllCentered(draws)
    requires blackLeft + whiteLeft <= Sum(DrawSizes(draws))
    ensures blackLeft + whiteLeft < 1 ==> r == DropLast(counties)
    ensures blackLeft + whiteLeft >= 1 ==> counties <= r
    decreases blackLeft + whiteLeft
  {
    if blackLeft + whiteLeft < 1 then
      DropLast(counties)
    else
      assert DrawSizes(draws)[1..] == DrawSizes(draws[1..]);
      var c := Centered(draws[0]);
      DropLastAppend(counties, c);
      RandomCountiesCentered(blackLeft - c.black, whiteLeft - c.white, counties + [c], draws[1..])
  }

  // ---------------------------------------------------------------------------
  // What a run produces: the records of the draws it consumed, minus the last.
  // ---------------------------------------------------------------------------

  function UniformRecords(draws: seq<int>): seq<County>
  {
    seq(|draws|, i requires 0 <= i < |draws| => UniformCounty(draws[i]))
  }

  function RandomRecords(draws: seq<Draw>): seq<County>
  {
    seq(|draws|, i requires 0 <= i < |draws| => Split(draws[i]))
  }

  function CenteredRecords(draws: seq<Draw>): seq<County>
    requires AllCentered(draws)
  {
    seq(|draws|, i requires 0 <= i < |draws| => Centered(draws[i]))
  }

  // Small facts about sequences used by the proofs below.

  lemma AppendAssoc(a: seq<County>, b: seq<County>, c: seq<County>)
    ensures a + b + c == a + (b + c)
  {
  }

  /** One step of a random run: the county of the first draw is appended,
      and the pools together shrink by exactly its size. */
  lemma RandomStep(blackLeft: int, whiteLeft: int, counties: seq<County>, draws: seq<Draw>)
    requires AllRandom(draws)
    requires 1 <= blackLeft + whiteLeft <= Sum(DrawSizes(draws))
    ensures |draws| > 0
    ensures Sum(DrawSizes(draws)) == draws[0].size + Sum(DrawSizes(draws[1..]))
    ensures var c := Split(draws[0]);
      (blackLeft - c.black) + (whiteLeft - c.white) == blackLeft + whiteLeft - draws[0].size
    ensures var c := Split(draws[0]);
      RandomCountiesRandom(blackLeft, whiteLeft, counties, draws)
        == RandomCountiesRandom(blackLeft - c.black, whiteLeft - c.white, counties + [c], draws[1..])
  {
    DrawSizesTail(draws);
  }

  /** One step of a centered run: the county of the first draw is appended,
      and the pools together shrink by exactly its size. */
  lemma CenteredStep(blackLeft: int, whiteLeft: int, counties: seq<County>, draws: seq<Draw>)
    requires AllCentered(draws)
    requires 1 <= blackLeft + whiteLeft <= Sum(DrawSizes(draws))
    ensures |draws| > 0
    ensures Sum(DrawSizes(draws)) == draws[0].size + Sum(DrawSizes(draws[1..]))
    ensures var c := Centered(draws[0]);
      (blackLeft - c.black) + (whiteLeft - c.white) == blackLeft + whiteLeft - draws[0].size
    ensures var c := Centered(draws[0]);
      RandomCountiesCentered(blackLeft, whiteLeft, counties, draws)
        == RandomCountiesCentered(blackLeft - c.black, whiteLeft - c.white, counties + [c], draws[1..])
  {
    DrawSizesTail(draws);
  }

  lemma DrawSizesTail(draws: seq<Draw>)
    requires |draws| > 0
    ensures DrawSizes(draws)[0] == draws[0].size
    ensures DrawSizes(draws)[1..] == DrawSizes(draws[1..])
  {
  }

  lemma RandomRecordsCons(draws: seq<Draw>, k: nat)
    requires 0 < k <= |draws|
    ensures RandomRecords(draws[..k]) == [Split(draws[0])] + RandomRecords(draws[1..][..k - 1])
  {
  }

  lemma CenteredRecordsCons(draws: seq<Draw>, k: nat)
    requires AllCentered(draws)
    requires 0 < k <= |draws|
    ensures CenteredRecords(draws[..k]) == [Centered(draws[0])] + CenteredRecords(draws[1..][..k - 1])
  {
  }

  lemma RandomRecordsAppend(counties: seq<County>, draws: seq<Draw>, k: nat)
    requires 0 < k <= |draws|
    ensures counties + [Split(draws[0])] + RandomRecords(draws[1..][..k - 1])
         == counties + RandomRecords(draws[..k])
  {
    RandomRecordsCons(draws, k);
    AppendAssoc(counties, [Split(draws[0])], RandomRecords(draws[1..][..k - 1]));
  }

  lemma CenteredRecordsAppend(counties: seq<County>, draws: seq<Draw>, k: nat)
    requires AllCentered(draws)
    requires 0 < k <= |draws|
    ensures counties + [Centered(draws[0])] + CenteredRecords(draws[1..][..k - 1])
         == counties + CenteredRecords(draws[..k])
  {
    CenteredRecordsCons(draws, k);
    AppendAssoc(counties, [Centered(draws[0])], CenteredRecords(draws[1..][..k - 1]));
  }

  /** A uniform run appends one record per draw, in draw order, until the
      first prefix of draws covers the remaining population, then drops the
      last record; nothing already in the accumulator changes. */
  lemma {:induction false} UniformUnfolds(populationLeft: int, counties: seq<County>, draws: seq<int>)
    requires AllUniform(draws)
    requires populationLeft <= Sum(draws)
    ensures RandomCountiesUniform(populationLeft, counties, draws)
         == DropLast(counties + UniformRecords(draws[..DrawsConsumed(populationLeft, draws)]))
    decreases populationLeft
  {
    var k := DrawsConsumed(populationLeft, draws);
    if populationLeft < 1 {
      assert UniformRecords(draws[..k]) == [];
      assert counties + [] == counties;
    } else {
      DrawsConsumedStep(populationLeft, draws);
      var n := draws[0];
      var k' := k - 1;
      var longer := counties + [UniformCounty(n)];
      assert RandomCountiesUniform(populationLeft, counties, draws)
          == RandomCountiesUniform(populationLeft - n, longer, draws[1..]);
      UniformUnfolds(populationLeft - n, longer, draws[1..]);
      assert UniformRecords(draws[..k]) == [UniformCounty(n)] + UniformRecords(draws[1..][..k']);
      AppendAssoc(counties, [UniformCounty(n)], UniformRecords(draws[1..][..k']));
      assert longer + UniformRecords(draws[1..][..k']) == counties + UniformRecords(draws[..k]);
    }
  }

  lemma {:induction false} RandomUnfolds(blackLeft: int, whiteLeft: int, counties: seq<County>, draws: seq<Draw>)
    requires AllRandom(draws)
    requires blackLeft + whiteLeft <= Sum(DrawSizes(draws))
    ensures RandomCountiesRandom(blackLeft, whiteLeft, counties, draws)
         == DropLast(counties + RandomRecords(draws[..DrawsConsumed(blackLeft + whiteLeft, DrawSizes(draws))]))
    decreases blackLeft + whiteLeft
  {
    var sizes := DrawSizes(draws);
    var k := DrawsConsumed(blackLeft + whiteLeft, sizes);
    if blackLeft + whiteLeft < 1 {
      assert RandomRecords(draws[..k]) == [];
      assert counties + [] == counties;
    } else {
      var c := Split(draws[0]);
      var blackLeft', whiteLeft' := blackLeft - c.black, whiteLeft - c.white;
      var longer := counties + [c];
      RandomStep(blackLeft, whiteLeft, counties, draws);
      DrawsConsumedStep(blackLeft + whiteLeft, sizes);
      DrawSizesTail(draws);
      assert k - 1 == DrawsConsumed(blackLeft' + whiteLeft', DrawSizes(draws[1..]));
      RandomUnfolds(blackLeft', whiteLeft', longer, draws[1..]);
      RandomRecordsAppend(counties, draws, k);
      assert RandomCountiesRandom(blackLeft', whiteLeft', longer, draws[1..])
          == DropLast(counties + RandomRecords(draws[..k]));
    }
  }

  lemma {:induction false} CenteredUnfolds(blackLeft: int, whiteLeft: int, counties: seq<County>, draws: seq<Draw>)
    requires AllCentered(draws)
    requires blackLeft + whiteLeft <= Sum(DrawSizes(draws))
    ensures RandomCountiesCentered(blackLeft, whiteLeft, counties, draws)
         == DropLast(counties + CenteredRecords(draws[..DrawsConsumed(blackLeft + whiteLeft, DrawSizes(draws))]))
    decreases blackLeft + whiteLeft
  {
    var sizes := DrawSizes(draws);
    var k := DrawsConsumed(blackLeft + whiteLeft, sizes);
    if blackLeft + whiteLeft < 1 {
      assert CenteredRecords(draws[..k]) == [];
      assert counties + [] == counties;
    } else {
      var c := Centered(draws[0]);
      var blackLeft', whiteLeft' := blackLeft - c.black, whiteLeft - c.white;
      var longer := counties + [c];
      CenteredStep(blackLeft, whiteLeft, counties, draws);
      DrawsConsumedStep(blackLeft + whiteLeft, sizes);
      DrawSizesTail(draws);
      assert k - 1 == DrawsConsumed(blackLeft' + whiteLeft', DrawSizes(draws[1..]));
      CenteredUnfolds(blackLeft', whiteLeft', longer, draws[1..]);
      CenteredRecordsAppend(counties, draws, k);
      assert RandomCountiesCentered(blackLeft', whiteLeft', longer, draws[1..])
          == DropLast(counties + CenteredRecords(draws[..k]));
    }
  }

  // ---------------------------------------------------------------------------
  // Runs from an empty accumulator, as the Monte Carlo driver starts them.
  // ---------------------------------------------------------------------------

  /** A uniform run keeps one county per draw it consumed except the last,
      in draw order. A population below 1 yields no county; otherwise the
      retained population is strictly below the target and short of it by at
      most one maximal county. */
  lemma UniformTruncation(population: int, draws: seq<int>)
    requires AllUniform(draws)
    requires population <= Sum(draws)
    ensures var r := RandomCountiesUniform(population, [], draws);
      && (population < 1 ==> r == [])
      && (population >= 1 ==>
        && |r| == DrawsConsumed(population, draws) - 1
        && (forall i | 0 <= i < |r| :: r[i] == UniformCounty(draws[i]))
        && Total(r) < population <= Total(r) + MaxCountySize)
  {
    var k := DrawsConsumed(population, draws);
    UniformUnfolds(population, [], draws);
    assert [] + UniformRecords(draws[..k]) == UniformRecords(draws[..k]);
    if population >= 1 {
      var r := RandomCountiesUniform(population, [], draws);
      assert r == UniformRecords(draws[..k - 1]);
      assert Sizes(r) == draws[..k - 1];
      CoveringShortfall(population, draws, k);
    }
  }

  /** A random-mode run, started from pools adding up to the target
      population: the same truncation, and every retained county splits its
      size exactly into non-negative white and black counts. */
  lemma RandomTruncation(black: int, white: int, draws: seq<Draw>)
    requires AllRandom(draws)
    requires black + white <= Sum(DrawSizes(draws))
    ensures var r := RandomCountiesRandom(black, white, [], draws);
      && (black + white < 1 ==> r == [])
      && (black + white >= 1 ==>
        && |r| == DrawsConsumed(black + white, DrawSizes(draws)) - 1
        && (forall i | 0 <= i < |r| ::
              && r[i].SplitCounty?
              && r[i].size == draws[i].size && r[i].white == draws[i].white
              && r[i].white + r[i].black == r[i].size
              && 0 <= r[i].white && 0 <= r[i].black)
        && Total(r) < black + white <= Total(r) + MaxCountySize)
  {
    var k := DrawsConsumed(black + white, DrawSizes(draws));
    RandomUnfolds(black, white, [], draws);
    assert [] + RandomRecords(draws[..k]) == RandomRecords(draws[..k]);
    if black + white >= 1 {
      var r := RandomCountiesRandom(black, white, [], draws);
      assert r == RandomRecords(draws[..k - 1]);
      assert Sizes(r) == DrawSizes(draws)[..k - 1];
      CoveringShortfall(black + white, DrawSizes(draws), k);
    }
  }

  /** A centered run: the same truncation, with every retained county at
      least 10 strong and carrying its expected-neighbour count. */
  lemma CenteredTruncation(black: int, white: int, draws: seq<Draw>)
    requires AllCentered(draws)
    requires black + white <= Sum(DrawSizes(draws))
    ensures var r := RandomCountiesCentered(black, white, [], draws);
      && (black + white < 1 ==> r == [])
      && (black + white >= 1 ==>
        && |r| == DrawsConsumed(black + white, DrawSizes(draws)) - 1
        && (forall i | 0 <= i < |r| ::
              && r[i].CenteredCounty?
              && r[i].size == draws[i].size && r[i].white == draws[i].white
              && r[i].white + r[i].black == r[i].size
              && 10 <= r[i].size
              && r[i].expected == ExpectedNeighbours(r[i].black, r[i].white, r[i].size))
        && Total(r) < black + white <= Total(r) + MaxCountySize)
  {
    var k := DrawsConsumed(black + white, DrawSizes(draws));
    CenteredUnfolds(black, white, [], draws);
    assert [] + CenteredRecords(draws[..k]) == CenteredRecords(draws[..k]);
    if black + white >= 1 {
      var r := RandomCountiesCentered(black, white, [], draws);
      assert r == CenteredRecords(draws[..k - 1]);
      assert Sizes(r) == DrawSizes(draws)[..k - 1];
      CoveringShortfall(black + white, DrawSizes(draws), k);
    }
  }
}
