/** Static evaluation: the material shortcut `simple_eval` and the blended,
    damped and clamped score of `evaluate`, from the point of view of the
    side to move. The neural network's inference is an input: a function
    from the `psqtOnly` hint to the score and complexity it reports. */
module Evaluation {
  import opened CppInt

  datatype Color = White | Black {
    /** `~c` */
    function Opponent(): Color {
      if this == White then Black else White
    }
  }

  /** What `simple_eval` and `evaluate` read of one side's pieces. */
  datatype Material = Material(pawns: nat, advisors: nat, bishops: nat, majorMaterial: nat)

  /** The part of a `Position` that the evaluation reads. */
  datatype Position = Position(white: Material, black: Material, sideToMove: Color,
                               rule60: nat, inCheck: bool)
  {
    /** `pos.count<PT>(c)` and `pos.major_material(c)` for every piece type */
    function Of(c: Color): Material {
      if c == White then white else black
    }

    /** `pos.major_material()`: the side to move's major material plus its
        opponent's */
    function MajorMaterial(): (r: nat)
      ensures r == Of(sideToMove).majorMaterial + Of(sideToMove.Opponent()).majorMaterial
    {
      white.majorMaterial + black.majorMaterial
    }
  }

  /** `PawnValue`, `AdvisorValue` and `BishopValue` */
  datatype PieceValues = PieceValues(pawn: int, advisor: int, bishop: int)

  /** `VALUE_MATED_IN_MAX_PLY` and `VALUE_MATE_IN_MAX_PLY` */
  datatype MateBounds = MateBounds(matedInMaxPly: int, mateInMaxPly: int) {
    /** the clamp range `[matedInMaxPly + 1, mateInMaxPly - 1]` is not empty */
    predicate Valid() {
      matedInMaxPly + 1 <= mateInMaxPly - 1
    }
    function Lowest(): int { matedInMaxPly + 1 }
    function Highest(): int { mateInMaxPly - 1 }
  }

  /** What `NNUE::evaluate` returns: the score and, through its out-parameter,
      the complexity. */
  datatype NetOutput = NetOutput(score: int, complexity: int)

  const PsqtMargin := 2500
  const OptimismDivisor := 781
  const NnueDivisor := 30087
  const MaterialDivisor := 41
  const NnueWeight := 568
  const OptimismWeight := 138
  const BlendDivisor := 1434
  const ShuffleLimit := 293
  const DampDivisor := 194

  /** The material worth of one side's pieces. */
  function Worth(m: Material, w: PieceValues): int {
    w.pawn * m.pawns + w.advisor * m.advisors + w.bishop * m.bishops + m.majorMaterial
  }

  /** `Eval::simple_eval`: a weighted difference of piece counts between `c`
      and its opponent, plus the difference of their major material. It is
      what `c`'s pieces are worth minus what the opponent's are worth. */
  function SimpleEval(pos: Position, c: Color, w: PieceValues): (r: int)
    ensures r == Worth(pos.Of(c), w) - Worth(pos.Of(c.Opponent()), w)
  {
    var us, them := pos.Of(c), pos.Of(c.Opponent());
    w.pawn * (us.pawns - them.pawns)
    + w.advisor * (us.advisors - them.advisors)
    + w.bishop * (us.bishops - them.bishops)
    + (us.majorMaterial - them.majorMaterial)
  }

  /** The material evaluation of one side is the negation of the other's. */
  lemma SimpleEvalAntisymmetric(pos: Position, c: Color, w: PieceValues)
    ensures SimpleEval(pos, c, w) == -SimpleEval(pos, c.Opponent(), w)
  {
    assert c.Opponent().Opponent() == c;
  }

  /** The `psqtOnly` hint: the material estimate lies more than the margin
      outside the search window `[alpha, beta]`. */
  function PsqtOnly(simpleEval: int, alpha: int, beta: int): (r: bool)
    ensures !r <==> alpha - PsqtMargin <= simpleEval <= beta + PsqtMargin
  {
    alpha - PsqtMargin > simpleEval || simpleEval > beta + PsqtMargin
  }

  /** `nnueComplexity + std::abs(simpleEval - nnue)`, taken with the network
      score before it is discounted: never below the complexity, and equal
      to it exactly when the material estimate and the network agree. */
  function Volatility(complexity: int, simpleEval: int, nnue: int): (r: int)
    ensures r >= complexity
    ensures r == complexity <==> simpleEval == nnue
  {
    complexity + Abs(simpleEval - nnue)
  }

  /** `optimism += optimism * volatility / 781`. With a non-negative
      volatility the boost never moves optimism toward zero: it keeps its
      sign and does not shrink. */
  function BoostOptimism(optimism: int, volatility: int): (r: int)
    ensures volatility >= 0 && optimism >= 0 ==> r >= optimism
    ensures volatility >= 0 && optimism <= 0 ==> r <= optimism
  {
    SignOfProduct(optimism, volatility);
    optimism + TDiv(optimism * volatility, OptimismDivisor)
  }

  /** `nnue -= nnue * volatility / 30087`. With a volatility in `[0, 30087)`
      the discount shrinks the network score toward zero without reaching
      or crossing it. */
  function DiscountNnue(nnue: int, volatility: int): (r: int)
    ensures 0 <= volatility < NnueDivisor && nnue > 0 ==> 0 < r <= nnue
    ensures 0 <= volatility < NnueDivisor && nnue < 0 ==> nnue <= r < 0
    ensures nnue == 0 ==> r == 0
  {
    DiscountBound(nnue, volatility);
    nnue - TDiv(nnue * volatility, NnueDivisor)
  }

  /** `(nnue * (568 + mm) + optimism * (138 + mm)) / 1434`. With a
      non-negative material factor, a network score and an optimism of the
      same sign blend into a value of that sign (or zero). */
  function Blend(nnue: int, optimism: int, mm: int): (r: int)
    ensures mm >= 0 && nnue >= 0 && optimism >= 0 ==> r >= 0
    ensures mm >= 0 && nnue <= 0 && optimism <= 0 ==> r <= 0
    ensures nnue == 0 && optimism == 0 ==> r == 0
  {
    SignOfProduct(nnue, NnueWeight + mm);
    SignOfProduct(optimism, OptimismWeight + mm);
    TDiv(nnue * (NnueWeight + mm) + optimism * (OptimismWeight + mm), BlendDivisor)
  }

  /** `v * (293 - shuffling) / 194`. Up to the limit of 293 damping never
      changes the sign of `v`, and at the limit it gives exactly zero. */
  function Damp(v: int, shuffling: int): (r: int)
    ensures shuffling <= ShuffleLimit && v >= 0 ==> r >= 0
    ensures shuffling <= ShuffleLimit && v <= 0 ==> r <= 0
    ensures shuffling == ShuffleLimit ==> r == 0
  {
    SignOfProduct(v, ShuffleLimit - shuffling);
    TDiv(v * (ShuffleLimit - shuffling), DampDivisor)
  }

  /** A product with a non-negative factor has the sign of the other factor. */
  lemma SignOfProduct(x: int, k: int)
    ensures k >= 0 && x >= 0 ==> x * k >= 0
    ensures k >= 0 && x <= 0 ==> x * k <= 0
    ensures k == 0 || x == 0 ==> x * k == 0
  {
    if k >= 0 {
      if x >= 0 {
        MulMonotone(k, 0, x);
      } else {
        MulMonotone(k, x, 0);
      }
    }
  }

  /** The truncated discount `nnue * volatility / 30087` is smaller in
      magnitude than `nnue` and of its sign, for a volatility in `[0, 30087)`. */
  lemma DiscountBound(nnue: int, volatility: int)
    ensures var q := TDiv(nnue * volatility, NnueDivisor);
            0 <= volatility < NnueDivisor ==>
              (nnue > 0 ==> 0 <= q < nnue) && (nnue < 0 ==> nnue < q <= 0)
  {
    var q := TDiv(nnue * volatility, NnueDivisor);
    if 0 <= volatility < NnueDivisor && nnue != 0 {
      AbsMulNonNegative(nnue, volatility);
      SignOfProduct(nnue, volatility);
      MulMonotone(Abs(nnue), volatility, NnueDivisor - 1);
      assert Abs(nnue) * (NnueDivisor - 1) < NnueDivisor * Abs(nnue);
      if Abs(q) >= Abs(nnue) {
        MulMonotone(NnueDivisor, Abs(nnue), Abs(q));
        assert false;
      }
    }
  }

  /** The value of `v` just before the clamp. */
  function Unclamped(pos: Position, optimism: int, simpleEval: int, out: NetOutput): int {
    var volatility := Volatility(out.complexity, simpleEval, out.score);
    var boosted := BoostOptimism(optimism, volatility);
    var nnue := DiscountNnue(out.score, volatility);
    var mm := TDiv(pos.MajorMaterial(), MaterialDivisor);
    Damp(Blend(nnue, boosted, mm), pos.rule60)
  }

  /** `Eval::evaluate`: the score of `pos` for the side to move. Whatever the
      network reports and whatever the optimism and window, the result stays
      strictly inside the mate bounds. */
  function Evaluate(pos: Position, optimism: int, alpha: int, beta: int,
                    net: bool -> NetOutput, w: PieceValues, bounds: MateBounds): (v: int)
    requires !pos.inCheck
    requires bounds.Valid()
    ensures bounds.matedInMaxPly < v < bounds.mateInMaxPly
  {
    var simpleEval := SimpleEval(pos, pos.sideToMove, w);
    var out := net(PsqtOnly(simpleEval, alpha, beta));
    Clamp(Unclamped(pos, optimism, simpleEval, out), bounds.Lowest(), bounds.Highest())
  }

  /** The network is consulted once, with the `psqtOnly` hint: two networks
      that agree on that hint give the same evaluation. */
  lemma EvaluateConsultsHint(pos: Position, optimism: int, alpha: int, beta: int,
                             net1: bool -> NetOutput, net2: bool -> NetOutput,
                             w: PieceValues, bounds: MateBounds)
    requires !pos.inCheck
    requires bounds.Valid()
    requires var hint := PsqtOnly(SimpleEval(pos, pos.sideToMove, w), alpha, beta);
             net1(hint) == net2(hint)
    ensures Evaluate(pos, optimism, alpha, beta, net1, w, bounds)
         == Evaluate(pos, optimism, alpha, beta, net2, w, bounds)
  {
  }

  /** When the shuffle counter has reached 293 and the mate bounds straddle
      zero, the evaluation is exactly zero, whatever the network, the
      optimism and the window. */
  lemma EvaluateAtShuffleLimit(pos: Position, optimism: int, alpha: int, beta: int,
                               net: bool -> NetOutput, w: PieceValues, bounds: MateBounds)
    requires !pos.inCheck
    requires bounds.Valid() && bounds.Lowest() <= 0 <= bounds.Highest()
    requires pos.rule60 == ShuffleLimit
    ensures Evaluate(pos, optimism, alpha, beta, net, w, bounds) == 0
  {
  }

  /** Up to the limit, a larger shuffle counter never damps less: the
      magnitude of the damped value does not grow. */
  lemma DampNonIncreasing(v: int, s1: int, s2: int)
    requires 0 <= s1 <= s2 <= ShuffleLimit
    ensures Abs(Damp(v, s2)) <= Abs(Damp(v, s1))
  {
    var k1, k2 := ShuffleLimit - s1, ShuffleLimit - s2;
    AbsMulNonNegative(v, k1);
    AbsMulNonNegative(v, k2);
    MulMonotone(Abs(v), k2, k1);
    TDivAbsMonotone(v * k2, v * k1, DampDivisor);
  }

  /** Equal material, no optimism, a calm position and a shuffle counter not
      past the limit: the evaluation never has the opposite sign of the
      network's score, provided the bounds straddle zero. */
  lemma EvaluateFollowsNetworkSign(pos: Position, alpha: int, beta: int,
                                   net: bool -> NetOutput, w: PieceValues, bounds: MateBounds)
    requires !pos.inCheck
    requires bounds.Valid() && bounds.Lowest() <= 0 <= bounds.Highest()
    requires SimpleEval(pos, pos.sideToMove, w) == 0
    requires pos.rule60 <= ShuffleLimit
    requires var out := net(PsqtOnly(0, alpha, beta));
             0 <= Volatility(out.complexity, 0, out.score) < NnueDivisor
    ensures var nnue := net(PsqtOnly(0, alpha, beta)).score;
            var v := Evaluate(pos, 0, alpha, beta, net, w, bounds);
            (nnue > 0 ==> v >= 0) && (nnue < 0 ==> v <= 0) && (nnue == 0 ==> v == 0)
  {
    var out := net(PsqtOnly(0, alpha, beta));
    var volatility := Volatility(out.complexity, 0, out.score);
    assert BoostOptimism(0, volatility) == 0;
    var nnue := DiscountNnue(out.score, volatility);
    var mm := TDiv(pos.MajorMaterial(), MaterialDivisor);
    assert mm >= 0;
    var blended := Blend(nnue, 0, mm);
    assert out.score > 0 ==> blended >= 0;
    assert out.score < 0 ==> blended <= 0;
    assert out.score == 0 ==> blended == 0;
  }

  /** The arithmetic of `EvaluateSignFlip`, before the clamp: the discount
      turns a network score of 100 into -200, which blends to -79 and damps
      to -119. */
  lemma UnclampedSignFlip(pos: Position)
    requires pos.MajorMaterial() == 0 && pos.rule60 == 0
    ensures Unclamped(pos, 0, 0, NetOutput(100, 90161)) == -119
  {
    assert Volatility(90161, 0, 100) == 90261;
    assert DiscountNnue(100, 90261) == -200 by {
      assert 100 * 90261 == 9026100 == 30087 * 300;
    }
    assert BoostOptimism(0, 90261) == 0;
    assert Blend(-200, 0, 0) == -79 by {
      assert -200 * (NnueWeight + 0) + 0 * (OptimismWeight + 0) == -113600;
      assert TDiv(-113600, BlendDivisor) == -(113600 / 1434);
      assert 113600 / 1434 == 79 by { assert 1434 * 79 <= 113600 < 1434 * 80; }
    }
    assert Damp(-79, 0) == -119 by {
      assert -79 * (ShuffleLimit - 0) == -23147;
      assert TDiv(-23147, DampDivisor) == -(23147 / 194);
      assert 23147 / 194 == 119 by { assert 194 * 119 <= 23147 < 194 * 120; }
    }
  }

  /** Beyond a volatility of 30087 the discount can flip the network's sign,
      and with it the score: with equal material, no major material, no
      optimism and no shuffling, a network score of 100 with a complexity of
      90161 evaluates to -119. */
  lemma EvaluateSignFlip(pos: Position, alpha: int, beta: int, w: PieceValues, bounds: MateBounds)
    requires !pos.inCheck
    requires bounds.Valid() && bounds.Lowest() <= -119 && 0 <= bounds.Highest()
    requires pos.white == pos.black && pos.white.majorMaterial == 0 && pos.rule60 == 0
    ensures Evaluate(pos, 0, alpha, beta, (psqtOnly: bool) => NetOutput(100, 90161), w, bounds) == -119
  {
    assert SimpleEval(pos, pos.sideToMove, w) == 0;
    UnclampedSignFlip(pos);
  }
}
