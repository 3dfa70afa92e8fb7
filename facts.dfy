/**
  What `simplifyMoves` returns for particular inputs, derived from the
  token-level view: which rule of the table fires, on which moves, and what
  it leaves behind.
 */
module Facts {
  import opened Moves
  import opened Simplifier
  import opened TokenRewrite
  import opened Rules

  // ---------------------------------------------------------------------------
  // Rules that leave a list alone
  // ---------------------------------------------------------------------------

  /** Applying `rule` leaves `ts` as it is. */
  predicate Inert(rule: Rule, ts: seq<string>)
    requires Shaped(rule)
  {
    SegReplaceAll(rule.needle, ts, rule.replacement) == ts
  }

  /**
    A cheap reason for a rule to be inert: the list is shorter than the rule,
    or the rule's first two moves are nowhere side by side in it.
   */
  predicate Untouched(rule: Rule, ts: seq<string>) {
    |ts| < |rule.needle|
    || (|rule.needle| >= 2
        && forall j :: 0 <= j < |ts| - 1 ==> !(ts[j] == rule.needle[0] && ts[j + 1] == rule.needle[1]))
  }

  lemma SegAtPair(ns: seq<string>, ts: seq<string>, j: nat)
    requires SegAt(ns, ts, j) && |ns| >= 2
    ensures j + 1 < |ts| && ts[j] == ns[0] && ts[j + 1] == ns[1]
  {
    assert ts[j..][..|ns|] == ns;
  }

  lemma UntouchedInert(rule: Rule, ts: seq<string>)
    requires Shaped(rule) && Untouched(rule, ts)
    ensures SegFind(rule.needle, ts).None?
    ensures Inert(rule, ts)
  {
    SegReplaceAllSpec(rule.needle, ts, rule.replacement);
    var r := SegFind(rule.needle, ts);
    SegFindSpec(rule.needle, ts);
    if r.Some? {
      if |rule.needle| >= 2 {
        SegAtPair(rule.needle, ts, r.value);
      }
    }
  }

  /** When every rule before `k` is inert, the table starts acting at rule `k`. */
  lemma {:induction false} SegApplyFrom(rules: seq<Rule>, k: nat, ts: seq<string>)
    requires AllShaped(rules) && k <= |rules|
    requires forall j :: 0 <= j < k ==> Inert(rules[j], ts)
    ensures SegApply(rules, ts) == SegApply(rules[k..], ts)
  {
    if k > 0 {
      SegApplyFrom(rules[1..], k - 1, ts);
      assert rules[1..][k - 1..] == rules[k..];
    }
  }

  /** A table whose every rule is inert leaves the list as it is. */
  lemma {:induction false} SegApplyInert(rules: seq<Rule>, ts: seq<string>)
    requires AllShaped(rules)
    requires forall j :: 0 <= j < |rules| ==> Inert(rules[j], ts)
    ensures SegApply(rules, ts) == ts
  {
    SegApplyFrom(rules, |rules|, ts);
  }

  /** When the rules before `k` leave `ts` alone, rule `k` is the first to act. */
  lemma ActsAt(rules: seq<Rule>, k: nat, ts: seq<string>, out: seq<string>)
    requires AllShaped(rules) && k < |rules|
    requires forall j :: 0 <= j < k ==> Inert(rules[j], ts)
    requires SegReplaceAll(rules[k].needle, ts, rules[k].replacement) == out
    ensures SegApply(rules, ts) == SegApply(rules[k + 1..], out)
  {
    SegApplyFrom(rules, k, ts);
    assert rules[k..][1..] == rules[k + 1..];
  }

  /**
    Rule `k` is the only one that acts: the rules before it leave `ts` alone,
    it turns `ts` into `out`, and the rules after it leave `out` alone.
   */
  lemma OnlyRuleActs(rules: seq<Rule>, k: nat, ts: seq<string>, out: seq<string>)
    requires AllShaped(rules) && k < |rules|
    requires forall j :: 0 <= j < k ==> Inert(rules[j], ts)
    requires SegReplaceAll(rules[k].needle, ts, rules[k].replacement) == out
    requires forall j :: k < j < |rules| ==> Inert(rules[j], out)
    ensures SegApply(rules, ts) == out
  {
    ActsAt(rules, k, ts, out);
    var rest := rules[k + 1..];
    forall j | 0 <= j < |rest| ensures Inert(rest[j], out) {
      assert rest[j] == rules[k + 1 + j];
    }
    SegApplyInert(rest, out);
  }

  /** Rules `k1` and then `k2` are the only ones that act, turning `ts` into `mid` and `mid` into `out`. */
  lemma TwoRulesAct(rules: seq<Rule>, k1: nat, k2: nat, ts: seq<string>, mid: seq<string>, out: seq<string>)
    requires AllShaped(rules) && k1 < k2 < |rules|
    requires forall j :: 0 <= j < k1 ==> Inert(rules[j], ts)
    requires SegReplaceAll(rules[k1].needle, ts, rules[k1].replacement) == mid
    requires forall j :: k1 < j < k2 ==> Inert(rules[j], mid)
    requires SegReplaceAll(rules[k2].needle, mid, rules[k2].replacement) == out
    requires forall j :: k2 < j < |rules| ==> Inert(rules[j], out)
    ensures SegApply(rules, ts) == out
  {
    ActsAt(rules, k1, ts, mid);
    var rest := rules[k1 + 1..];
    forall j | 0 <= j < k2 - (k1 + 1) ensures Inert(rest[j], mid) {
      assert rest[j] == rules[k1 + 1 + j];
    }
    forall j | k2 - (k1 + 1) < j < |rest| ensures Inert(rest[j], out) {
      assert rest[j] == rules[k1 + 1 + j];
    }
    OnlyRuleActs(rest, k2 - (k1 + 1), mid, out);
  }

  /** Input that no rule matches comes back unchanged. */
  lemma NothingMatches(rules: seq<Rule>, moves: seq<string>)
    requires AllShaped(rules) && AllMoveText(moves)
    requires forall k :: 0 <= k < |rules| ==> SegFind(rules[k].needle, moves).None?
    ensures AllShrink(rules)
    ensures Simplify(rules, moves) == moves
  {
    SimplifyByTokens(rules, moves);
    SegApplyInert(rules, moves);
    CompactMoves(moves);
  }

  lemma {:induction false} CompactMoves(ts: seq<string>)
    requires AllMoveText(ts)
    ensures Compact(ts) == ts
  {
    if ts != [] {
      CompactMoves(ts[1..]);
    }
  }

  // ---------------------------------------------------------------------------
  // Distinct moves, distinct text
  // ---------------------------------------------------------------------------

  lemma Differ(m1: Move, m2: Move)
    requires m1 != m2
    ensures Notation(m1) != Notation(m2)
  {
    NotationInjective(m1, m2);
  }

  // ---------------------------------------------------------------------------
  // One rule fires
  // ---------------------------------------------------------------------------

  /** A list of fewer than two items is left alone by every rule of a table. */
  lemma ShortInert(tf: seq<Face>, ts: seq<string>)
    requires |tf| == 6 && |ts| < 2
    ensures AllShaped(Table(tf))
    ensures forall j :: 0 <= j < |Table(tf)| ==> Inert(Table(tf)[j], ts)
  {
    TableShaped(tf);
    forall j | 0 <= j < |Table(tf)| ensures Inert(Table(tf)[j], ts) {
      UntouchedInert(Table(tf)[j], ts);
    }
  }

  /** The half-turn rules for the faces before `f` leave "f2 f2" alone. */
  lemma HalfPairPasses(tf: seq<Face>, f: Face, j: nat)
    requires |tf| == 6 && j < FaceIndex(f)
    ensures AllShaped(Table(tf)) && Inert(Table(tf)[j], [HalfOf(f), HalfOf(f)])
  {
    TableShaped(tf);
    TableHalf(tf, j);
    Differ(Move(Faces[j], Half), Move(f, Half));
    UntouchedInert(Table(tf)[j], [HalfOf(f), HalfOf(f)]);
  }

  /** The rules before the "f f'" rule leave "f f'" alone. */
  lemma QuarterInversePasses(tf: seq<Face>, f: Face, j: nat)
    requires |tf| == 6 && j < 6 + FaceIndex(f)
    ensures AllShaped(Table(tf)) && Inert(Table(tf)[j], [QuarterOf(f), InverseOf(f)])
  {
    TableShaped(tf);
    if j < 6 {
      TableHalf(tf, j);
      Differ(Move(Faces[j], Half), Move(f, Quarter));
    } else {
      TableQuarterInverse(tf, j);
      Differ(Move(Faces[j - 6], Quarter), Move(f, Quarter));
    }
    UntouchedInert(Table(tf)[j], [QuarterOf(f), InverseOf(f)]);
  }

  /** The rules before the "f' f" rule leave "f' f" alone. */
  lemma InverseQuarterPasses(tf: seq<Face>, f: Face, j: nat)
    requires |tf| == 6 && j < 12 + FaceIndex(f)
    ensures AllShaped(Table(tf)) && Inert(Table(tf)[j], [InverseOf(f), QuarterOf(f)])
  {
    TableShaped(tf);
    if j < 6 {
      TableHalf(tf, j);
      Differ(Move(Faces[j], Half), Move(f, Inverse));
    } else if j < 12 {
      TableQuarterInverse(tf, j);
      Differ(Move(Faces[j - 6], Quarter), Move(f, Inverse));
    } else {
      TableInverseQuarter(tf, j);
      Differ(Move(Faces[j - 12], Inverse), Move(f, Inverse));
    }
    UntouchedInert(Table(tf)[j], [InverseOf(f), QuarterOf(f)]);
  }

  /** Rules 0 to 17 leave a run of quarter turns of one face alone. */
  lemma QuarterRunEarly(tf: seq<Face>, f: Face, j: nat, ts: seq<string>)
    requires |tf| == 6 && j < 18
    requires forall i :: 0 <= i < |ts| ==> ts[i] == QuarterOf(f)
    ensures AllShaped(Table(tf)) && Inert(Table(tf)[j], ts)
  {
    TableShaped(tf);
    if j < 6 {
      TableHalf(tf, j);
      Differ(Move(Faces[j], Half), Move(f, Quarter));
    } else if j < 12 {
      TableQuarterInverse(tf, j);
      Differ(Move(Faces[j - 6], Inverse), Move(f, Quarter));
    } else {
      TableInverseQuarter(tf, j);
      Differ(Move(Faces[j - 12], Inverse), Move(f, Quarter));
    }
    UntouchedInert(Table(tf)[j], ts);
  }

  /** A quarter-turn rule for another face leaves a run of quarter turns of `f` alone. */
  lemma QuarterRunPasses(tf: seq<Face>, f: Face, j: nat, ts: seq<string>)
    requires |tf| == 6 && 18 <= j < 30
    requires j < 24 ==> tf[j - 18] != f
    requires j >= 24 ==> Faces[j - 24] != f
    requires forall i :: 0 <= i < |ts| ==> ts[i] == QuarterOf(f)
    ensures AllShaped(Table(tf)) && Inert(Table(tf)[j], ts)
  {
    TableShaped(tf);
    if j < 24 {
      TableTriple(tf, j);
      Differ(Move(tf[j - 18], Quarter), Move(f, Quarter));
    } else {
      TableDouble(tf, j);
      Differ(Move(Faces[j - 24], Quarter), Move(f, Quarter));
    }
    UntouchedInert(Table(tf)[j], ts);
  }

  /** "f2 f2" cancels out, for every face and either table. */
  lemma HalfTurnPairTokens(tf: seq<Face>, f: Face)
    requires |tf| == 6
    ensures AllShaped(Table(tf))
    ensures SegApply(Table(tf), [HalfOf(f), HalfOf(f)]) == [""]
  {
    var k, ts := FaceIndex(f), [HalfOf(f), HalfOf(f)];
    TableShaped(tf);
    forall j | 0 <= j < k ensures Inert(Table(tf)[j], ts) {
      HalfPairPasses(tf, f, j);
    }
    TableHalf(tf, k);
    RewriteWhole(ts, [""]);
    ShortInert(tf, [""]);
    OnlyRuleActs(Table(tf), k, ts, [""]);
  }

  /** "f f'" cancels out, for every face and either table. */
  lemma QuarterInverseTokens(tf: seq<Face>, f: Face)
    requires |tf| == 6
    ensures AllShaped(Table(tf))
    ensures SegApply(Table(tf), [QuarterOf(f), InverseOf(f)]) == [""]
  {
    var k, ts := 6 + FaceIndex(f), [QuarterOf(f), InverseOf(f)];
    TableShaped(tf);
    forall j | 0 <= j < k ensures Inert(Table(tf)[j], ts) {
      QuarterInversePasses(tf, f, j);
    }
    TableQuarterInverse(tf, k);
    RewriteWhole(ts, [""]);
    ShortInert(tf, [""]);
    OnlyRuleActs(Table(tf), k, ts, [""]);
  }

  /** "f' f" cancels out, for every face and either table. */
  lemma InverseQuarterTokens(tf: seq<Face>, f: Face)
    requires |tf| == 6
    ensures AllShaped(Table(tf))
    ensures SegApply(Table(tf), [InverseOf(f), QuarterOf(f)]) == [""]
  {
    var k, ts := 12 + FaceIndex(f), [InverseOf(f), QuarterOf(f)];
    TableShaped(tf);
    forall j | 0 <= j < k ensures Inert(Table(tf)[j], ts) {
      InverseQuarterPasses(tf, f, j);
    }
    TableInverseQuarter(tf, k);
    RewriteWhole(ts, [""]);
    ShortInert(tf, [""]);
    OnlyRuleActs(Table(tf), k, ts, [""]);
  }

  /** "f f f" becomes "f'" wherever the triple-turn block has a rule for `f`. */
  lemma TripleQuarterTokens(tf: seq<Face>, f: Face)
    requires |tf| == 6 && tf[FaceIndex(f)] == f
    requires forall i :: 0 <= i < FaceIndex(f) ==> tf[i] != f
    ensures AllShaped(Table(tf))
    ensures SegApply(Table(tf), [QuarterOf(f), QuarterOf(f), QuarterOf(f)]) == [InverseOf(f)]
  {
    var k, ts := 18 + FaceIndex(f), [QuarterOf(f), QuarterOf(f), QuarterOf(f)];
    TableShaped(tf);
    forall j | 0 <= j < k ensures Inert(Table(tf)[j], ts) {
      if j < 18 {
        QuarterRunEarly(tf, f, j, ts);
      } else {
        QuarterRunPasses(tf, f, j, ts);
      }
    }
    TableTriple(tf, k);
    RewriteWhole(ts, [InverseOf(f)]);
    ShortInert(tf, [InverseOf(f)]);
    OnlyRuleActs(Table(tf), k, ts, [InverseOf(f)]);
  }

  /** The rules before the "f f" rule leave "f f" alone; the triple-turn rules are too long for it. */
  lemma DoubleQuarterPasses(tf: seq<Face>, f: Face, j: nat)
    requires |tf| == 6 && j < 24 + FaceIndex(f)
    ensures AllShaped(Table(tf)) && Inert(Table(tf)[j], [QuarterOf(f), QuarterOf(f)])
  {
    var ts := [QuarterOf(f), QuarterOf(f)];
    if j < 18 {
      QuarterRunEarly(tf, f, j, ts);
    } else if j < 24 {
      TableShaped(tf);
      TableTriple(tf, j);
      UntouchedInert(Table(tf)[j], ts);
    } else {
      QuarterRunPasses(tf, f, j, ts);
    }
  }

  /** "f f" becomes "f2", for every face and either table. */
  lemma DoubleQuarterTokens(tf: seq<Face>, f: Face)
    requires |tf| == 6
    ensures AllShaped(Table(tf))
    ensures SegApply(Table(tf), [QuarterOf(f), QuarterOf(f)]) == [HalfOf(f)]
  {
    var k, ts := 24 + FaceIndex(f), [QuarterOf(f), QuarterOf(f)];
    TableShaped(tf);
    forall j | 0 <= j < k ensures Inert(Table(tf)[j], ts) {
      DoubleQuarterPasses(tf, f, j);
    }
    TableDouble(tf, k);
    RewriteWhole(ts, [HalfOf(f)]);
    ShortInert(tf, [HalfOf(f)]);
    OnlyRuleActs(Table(tf), k, ts, [HalfOf(f)]);
  }

  // ---------------------------------------------------------------------------
  // What simplifyMoves returns
  // ---------------------------------------------------------------------------

  /** The result of `simplifyMoves` from the token-level result. */
  lemma SimplifyFromTokens(rules: seq<Rule>, moves: seq<string>, out: seq<string>)
    requires AllShaped(rules) && AllMoveText(moves) && SegApply(rules, moves) == out
    ensures AllShrink(rules)
    ensures Simplify(rules, moves) == Compact(out)
  {
    SimplifyByTokens(rules, moves);
  }

  /** Moves that the rules turn into a single empty token vanish. */
  lemma SimplifyToNothing(rules: seq<Rule>, moves: seq<string>)
    requires AllShaped(rules) && AllMoveText(moves) && SegApply(rules, moves) == [""]
    ensures AllShrink(rules)
    ensures Simplify(rules, moves) == []
  {
    SimplifyFromTokens(rules, moves, [""]);
    assert Compact([""]) == [];
  }

  /** Moves that the rules turn into other moves, with no empty token, come back as those moves. */
  lemma SimplifyToMoves(rules: seq<Rule>, moves: seq<string>, out: seq<string>)
    requires AllShaped(rules) && AllMoveText(moves) && AllMoveText(out) && SegApply(rules, moves) == out
    ensures AllShrink(rules)
    ensures Simplify(rules, moves) == out
  {
    SimplifyFromTokens(rules, moves, out);
    CompactMoves(out);
  }

  lemma HalfPairCancels(tf: seq<Face>, f: Face)
    requires |tf| == 6
    ensures AllShrink(Table(tf)) && Simplify(Table(tf), [HalfOf(f), HalfOf(f)]) == []
  {
    NotationIsMoveText(Move(f, Half));
    HalfTurnPairTokens(tf, f);
    SimplifyToNothing(Table(tf), [HalfOf(f), HalfOf(f)]);
  }

  lemma QuarterInverseCancels(tf: seq<Face>, f: Face)
    requires |tf| == 6
    ensures AllShrink(Table(tf)) && Simplify(Table(tf), [QuarterOf(f), InverseOf(f)]) == []
  {
    NotationIsMoveText(Move(f, Quarter));
    NotationIsMoveText(Move(f, Inverse));
    QuarterInverseTokens(tf, f);
    SimplifyToNothing(Table(tf), [QuarterOf(f), InverseOf(f)]);
  }

  lemma InverseQuarterCancels(tf: seq<Face>, f: Face)
    requires |tf| == 6
    ensures AllShrink(Table(tf)) && Simplify(Table(tf), [InverseOf(f), QuarterOf(f)]) == []
  {
    NotationIsMoveText(Move(f, Quarter));
    NotationIsMoveText(Move(f, Inverse));
    InverseQuarterTokens(tf, f);
    SimplifyToNothing(Table(tf), [InverseOf(f), QuarterOf(f)]);
  }

  /** "f2 f2", "f f'" and "f' f" all vanish, for every face and either table. */
  lemma PairsCancel(tf: seq<Face>, f: Face)
    requires |tf| == 6
    ensures AllShrink(Table(tf))
    ensures Simplify(Table(tf), [HalfOf(f), HalfOf(f)]) == []
    ensures Simplify(Table(tf), [QuarterOf(f), InverseOf(f)]) == []
    ensures Simplify(Table(tf), [InverseOf(f), QuarterOf(f)]) == []
  {
    HalfPairCancels(tf, f);
    QuarterInverseCancels(tf, f);
    InverseQuarterCancels(tf, f);
  }

  /** "f f" becomes "f2", for every face and either table. */
  lemma TwoQuartersMakeHalf(tf: seq<Face>, f: Face)
    requires |tf| == 6
    ensures AllShrink(Table(tf))
    ensures Simplify(Table(tf), [QuarterOf(f), QuarterOf(f)]) == [HalfOf(f)]
  {
    NotationIsMoveText(Move(f, Quarter));
    NotationIsMoveText(Move(f, Half));
    DoubleQuarterTokens(tf, f);
    SimplifyToMoves(Table(tf), [QuarterOf(f), QuarterOf(f)], [HalfOf(f)]);
  }

  /** The triple-turn block of `tf` has its first rule for `f` at the position of `f` in `Faces`. */
  predicate TripleRuleAt(tf: seq<Face>, f: Face) {
    |tf| == 6 && tf[FaceIndex(f)] == f && forall i :: 0 <= i < FaceIndex(f) ==> tf[i] != f
  }

  lemma TripleSimplified(tf: seq<Face>, f: Face)
    requires TripleRuleAt(tf, f)
    ensures AllShrink(Table(tf))
    ensures Simplify(Table(tf), [QuarterOf(f), QuarterOf(f), QuarterOf(f)]) == [InverseOf(f)]
  {
    NotationIsMoveText(Move(f, Quarter));
    NotationIsMoveText(Move(f, Inverse));
    TripleQuarterTokens(tf, f);
    SimplifyToMoves(Table(tf), [QuarterOf(f), QuarterOf(f), QuarterOf(f)], [InverseOf(f)]);
  }

  /** "f f f" becomes "f'" for U, L, F, R and B in the table as written, and for every face in the corrected one. */
  lemma ThreeQuartersMakeInverse(f: Face)
    ensures AllShrink(SourceRules) && AllShrink(IntendedRules)
    ensures f != D ==> Simplify(SourceRules, [QuarterOf(f), QuarterOf(f), QuarterOf(f)]) == [InverseOf(f)]
    ensures Simplify(IntendedRules, [QuarterOf(f), QuarterOf(f), QuarterOf(f)]) == [InverseOf(f)]
  {
    TableShaped(SourceTripleFaces);
    if f != D {
      SourceTripleRule(f);
      TripleSimplified(SourceTripleFaces, f);
    }
    IntendedTripleRule(f);
    TripleSimplified(Faces, f);
  }

  /** The triple-turn block as written has the rule for every face but D, at its own position. */
  lemma SourceTripleRule(f: Face)
    requires f != D
    ensures TripleRuleAt(SourceTripleFaces, f)
  {
    var i := FaceIndex(f);
    assert SourceTripleFaces[..i] == Faces[..i];
  }

  lemma IntendedTripleRule(f: Face)
    ensures TripleRuleAt(Faces, f)
  {
    var i := FaceIndex(f);
    forall j | 0 <= j < i ensures Faces[j] != f {
      match f
      case U => case L => case F => case R => case B => case D =>
    }
  }

  // ---------------------------------------------------------------------------
  // Quirks of the table as written
  // ---------------------------------------------------------------------------

  /** The last rule ("D D " to "D2 ") turns "D D D" into "D2 D". */
  lemma DoubleDRule(tf: seq<Face>)
    requires |tf| == 6
    ensures AllShaped(Table(tf))
    ensures SegReplaceAll(Table(tf)[29].needle, [QuarterOf(D), QuarterOf(D), QuarterOf(D)],
                          Table(tf)[29].replacement)
         == [HalfOf(D), QuarterOf(D)]
  {
    var q, h := QuarterOf(D), HalfOf(D);
    var ts, out := [q, q, q], [h, q];
    TableShaped(tf);
    TableDouble(tf, 29);
    assert SegFind([q, q], ts) == Some(0);
    assert SegSplice(ts, 0, 2, [h]) == out;
    Differ(Move(D, Half), Move(D, Quarter));
    UntouchedInert(Table(tf)[29], out);
    RewriteOnce([q, q], ts, [h], 0);
  }

  /** Without a D rule in the triple-turn block, "D D D" meets only the "D D " rule. */
  lemma ThreeDsTokens(tf: seq<Face>)
    requires |tf| == 6 && D !in tf
    ensures AllShaped(Table(tf))
    ensures SegApply(Table(tf), [QuarterOf(D), QuarterOf(D), QuarterOf(D)]) == [HalfOf(D), QuarterOf(D)]
  {
    var ts := [QuarterOf(D), QuarterOf(D), QuarterOf(D)];
    TableShaped(tf);
    forall j | 0 <= j < 29 ensures Inert(Table(tf)[j], ts) {
      if j < 18 {
        QuarterRunEarly(tf, D, j, ts);
      } else {
        assert j < 24 ==> tf[j - 18] in tf;
        QuarterRunPasses(tf, D, j, ts);
      }
    }
    DoubleDRule(tf);
    OnlyRuleActs(Table(tf), 29, ts, [HalfOf(D), QuarterOf(D)]);
  }

  /** Without a D rule in the triple-turn block, three D turns become a half turn and a quarter turn. */
  lemma ThreeDsSimplified(tf: seq<Face>)
    requires |tf| == 6 && D !in tf
    ensures AllShrink(Table(tf))
    ensures Simplify(Table(tf), [QuarterOf(D), QuarterOf(D), QuarterOf(D)]) == [HalfOf(D), QuarterOf(D)]
  {
    NotationIsMoveText(Move(D, Quarter));
    NotationIsMoveText(Move(D, Half));
    ThreeDsTokens(tf);
    SimplifyToMoves(Table(tf), [QuarterOf(D), QuarterOf(D), QuarterOf(D)], [HalfOf(D), QuarterOf(D)]);
  }

  /** With no "D D D " rule, three D turns become "D2 D" instead of "D'". */
  lemma ThreeDsAsWritten()
    ensures AllShrink(SourceRules)
    ensures Simplify(SourceRules, ["D", "D", "D"]) == ["D2", "D"]
  {
    assert D !in SourceTripleFaces;
    ThreeDsSimplified(SourceTripleFaces);
    assert [QuarterOf(D), QuarterOf(D), QuarterOf(D)] == ["D", "D", "D"];
    assert [HalfOf(D), QuarterOf(D)] == ["D2", "D"];
  }

  /** With the D rule in place, three D turns become "D'". */
  lemma ThreeDsIntended()
    ensures AllShrink(IntendedRules)
    ensures Simplify(IntendedRules, ["D", "D", "D"]) == ["D'"]
  {
    ThreeQuartersMakeInverse(D);
    assert QuarterOf(D) == "D" && InverseOf(D) == "D'";
  }

  /** A list in which every pair of neighbours includes an empty token is left alone. */
  lemma GapsInert(tf: seq<Face>, ts: seq<string>)
    requires |tf| == 6
    requires forall i :: 0 <= i < |ts| - 1 ==> ts[i] == [] || ts[i + 1] == []
    ensures AllShaped(Table(tf))
    ensures forall j :: 0 <= j < |Table(tf)| ==> Inert(Table(tf)[j], ts)
  {
    TableShaped(tf);
    forall j | 0 <= j < |Table(tf)| ensures Inert(Table(tf)[j], ts) {
      var ns := Table(tf)[j].needle;
      assert IsMoveText(ns[0]) && IsMoveText(ns[1]);
      UntouchedInert(Table(tf)[j], ts);
    }
  }

  lemma GapExampleMoves()
    ensures AllMoveText(["R", "U", "U'", "R'"])
  {
    NotationIsMoveText(Move(R, Quarter));
    NotationIsMoveText(Move(U, Quarter));
    NotationIsMoveText(Move(U, Inverse));
    NotationIsMoveText(Move(R, Inverse));
    assert ["R", "U", "U'", "R'"] == [QuarterOf(R), QuarterOf(U), InverseOf(U), InverseOf(R)];
  }

  /** No half turn occurs in "R U U' R'", so the first block leaves it alone. */
  lemma GapExampleFirstBlock(tf: seq<Face>, j: nat)
    requires |tf| == 6 && j < 6
    ensures AllShaped(Table(tf)) && Inert(Table(tf)[j], ["R", "U", "U'", "R'"])
  {
    TableShaped(tf);
    TableHalf(tf, j);
    assert Table(tf)[j].needle[0][1] == '2';
    UntouchedInert(Table(tf)[j], ["R", "U", "U'", "R'"]);
  }

  /** Rule 6 ("U U' " to " ") turns "R U U' R'" into "R, empty, R'". */
  lemma GapExampleRule6(tf: seq<Face>)
    requires |tf| == 6
    ensures AllShaped(Table(tf))
    ensures SegReplaceAll(Table(tf)[6].needle, ["R", "U", "U'", "R'"], Table(tf)[6].replacement)
         == ["R", "", "R'"]
  {
    var ts, out := ["R", "U", "U'", "R'"], ["R", "", "R'"];
    TableShaped(tf);
    TableQuarterInverse(tf, 6);
    var ns := Table(tf)[6].needle;
    assert ns == ["U", "U'"] && Table(tf)[6].replacement == [""];
    assert SegFind(ns, ts[1..]) == Some(0);
    assert SegFind(ns, ts) == Some(1);
    assert SegSplice(ts, 1, 2, [""]) == out;
    GapsInert(tf, out);
    UntouchedInert(Table(tf)[6], out);
    RewriteOnce(ns, ts, [""], 1);
  }

  lemma GapExampleTokens(tf: seq<Face>)
    requires |tf| == 6
    ensures AllShaped(Table(tf))
    ensures SegApply(Table(tf), ["R", "U", "U'", "R'"]) == ["R", "", "R'"]
  {
    var ts, out := ["R", "U", "U'", "R'"], ["R", "", "R'"];
    TableShaped(tf);
    forall j | 0 <= j < 6 ensures Inert(Table(tf)[j], ts) {
      GapExampleFirstBlock(tf, j);
    }
    GapExampleRule6(tf);
    GapsInert(tf, out);
    OnlyRuleActs(Table(tf), 6, ts, out);
  }

  /**
    "U U'" is cancelled to an empty token, and the empty token then keeps the
    "R R'" rule from matching across it: "R U U' R'" becomes "R R'", for
    either table.
   */
  lemma CancellationLeavesGap(tf: seq<Face>)
    requires |tf| == 6
    ensures AllShrink(Table(tf))
    ensures Simplify(Table(tf), ["R", "U", "U'", "R'"]) == ["R", "R'"]
  {
    var out := ["R", "", "R'"];
    GapExampleTokens(tf);
    GapExampleMoves();
    SimplifyFromTokens(Table(tf), ["R", "U", "U'", "R'"], out);
    assert Compact(out) == ["R", "R'"];
  }

  /** "R R'" on its own cancels out. */
  lemma QuarterInverseR(tf: seq<Face>)
    requires |tf| == 6
    ensures AllShrink(Table(tf))
    ensures Simplify(Table(tf), ["R", "R'"]) == []
  {
    PairsCancel(tf, R);
    assert ["R", "R'"] == [QuarterOf(R), InverseOf(R)];
  }

  /** One pass is not a fixpoint: simplifying the result again changes it. */
  lemma NotIdempotent(tf: seq<Face>)
    requires |tf| == 6
    ensures AllShrink(Table(tf))
    ensures var once := Simplify(Table(tf), ["R", "U", "U'", "R'"]);
      once == ["R", "R'"] && Simplify(Table(tf), once) == []
  {
    CancellationLeavesGap(tf);
    QuarterInverseR(tf);
  }

  /** Moves no rule matches come back as they were, in order: every rule names one face. */
  lemma UnrelatedMovesKept(tf: seq<Face>)
    requires |tf| == 6
    ensures AllShrink(Table(tf))
    ensures Simplify(Table(tf), ["U", "L"]) == ["U", "L"]
  {
    var ts := ["U", "L"];
    TableShaped(tf);
    forall k | 0 <= k < |Table(tf)| ensures SegFind(Table(tf)[k].needle, ts).None? {
      TableLead(tf, k);
      UntouchedInert(Table(tf)[k], ts);
    }
    NotationIsMoveText(Move(U, Quarter));
    NotationIsMoveText(Move(L, Quarter));
    assert ts == [QuarterOf(U), QuarterOf(L)];
    NothingMatches(Table(tf), ts);
  }

  // ---------------------------------------------------------------------------
  // "R R U' U": a cancellation and a merge, in table order
  // ---------------------------------------------------------------------------

  /** Rules 0 to 11 leave "R R U' U" alone. */
  lemma LateExampleBefore(tf: seq<Face>, j: nat)
    requires |tf| == 6 && j < 12
    ensures AllShaped(Table(tf)) && Inert(Table(tf)[j], ["R", "R", "U'", "U"])
  {
    TableShaped(tf);
    if j < 6 {
      TableHalf(tf, j);
      assert Table(tf)[j].needle[0][1] == '2';
    } else {
      TableQuarterInverse(tf, j);
      assert |Table(tf)[j].needle[0]| == 1 && |Table(tf)[j].needle[1]| == 2;
      assert Table(tf)[j].needle[0][0] == Table(tf)[j].needle[1][0];
    }
    UntouchedInert(Table(tf)[j], ["R", "R", "U'", "U"]);
  }

  /** Rule 12 ("U' U " to " ") turns "R R U' U" into "R R, empty". */
  lemma LateExampleRule12(tf: seq<Face>)
    requires |tf| == 6
    ensures AllShaped(Table(tf))
    ensures SegReplaceAll(Table(tf)[12].needle, ["R", "R", "U'", "U"], Table(tf)[12].replacement)
         == ["R", "R", ""]
  {
    var ts, out := ["R", "R", "U'", "U"], ["R", "R", ""];
    TableShaped(tf);
    TableInverseQuarter(tf, 12);
    var ns := Table(tf)[12].needle;
    assert ns == ["U'", "U"] && Table(tf)[12].replacement == [""];
    assert SegFind(ns, ts[2..]) == Some(0);
    assert SegFind(ns, ts[1..]) == Some(1);
    assert SegFind(ns, ts) == Some(2);
    assert SegSplice(ts, 2, 2, [""]) == out;
    UntouchedInert(Table(tf)[12], out);
    RewriteOnce(ns, ts, [""], 2);
  }

  /** A three-move rule finds no match in "R R, empty": the third slot is empty. */
  lemma LateTripleMisses(tf: seq<Face>, j: nat)
    requires |tf| == 6 && 18 <= j < 24
    ensures AllShaped(Table(tf)) && Inert(Table(tf)[j], ["R", "R", ""])
  {
    var ts := ["R", "R", ""];
    TableShaped(tf);
    TableTriple(tf, j);
    var rule := Table(tf)[j];
    assert |rule.needle| == 3 && rule.needle[2] != [];
    assert !(rule.needle <= ts);
    assert SegFind(rule.needle, ts[1..]).None?;
    SegReplaceAllSpec(rule.needle, ts, rule.replacement);
  }

  /** Rules 13 to 26 leave "R R, empty" alone. */
  lemma LateExampleMiddle(tf: seq<Face>, j: nat)
    requires |tf| == 6 && 13 <= j < 27
    ensures AllShaped(Table(tf)) && Inert(Table(tf)[j], ["R", "R", ""])
  {
    TableShaped(tf);
    if j < 18 {
      TableInverseQuarter(tf, j);
      assert |Table(tf)[j].needle[0]| == 2;
      UntouchedInert(Table(tf)[j], ["R", "R", ""]);
    } else if j < 24 {
      LateTripleMisses(tf, j);
    } else {
      TableDouble(tf, j);
      assert Table(tf)[j].needle[0][0] != 'R';
      UntouchedInert(Table(tf)[j], ["R", "R", ""]);
    }
  }

  /** Rule 27 ("R R " to "R2 ") turns "R R, empty" into "R2, empty". */
  lemma LateExampleRule27(tf: seq<Face>)
    requires |tf| == 6
    ensures AllShaped(Table(tf))
    ensures SegReplaceAll(Table(tf)[27].needle, ["R", "R", ""], Table(tf)[27].replacement) == ["R2", ""]
  {
    var ts, out := ["R", "R", ""], ["R2", ""];
    TableShaped(tf);
    TableDouble(tf, 27);
    var ns := Table(tf)[27].needle;
    assert ns == ["R", "R"] && Table(tf)[27].replacement == ["R2"];
    assert SegFind(ns, ts) == Some(0);
    assert SegSplice(ts, 0, 2, ["R2"]) == out;
    UntouchedInert(Table(tf)[27], out);
    RewriteOnce(ns, ts, ["R2"], 0);
  }

  lemma LateExampleTokens(tf: seq<Face>)
    requires |tf| == 6
    ensures AllShaped(Table(tf))
    ensures SegApply(Table(tf), ["R", "R", "U'", "U"]) == ["R2", ""]
  {
    var ts, mid, out := ["R", "R", "U'", "U"], ["R", "R", ""], ["R2", ""];
    TableShaped(tf);
    forall j | 0 <= j < 12 ensures Inert(Table(tf)[j], ts) {
      LateExampleBefore(tf, j);
    }
    LateExampleRule12(tf);
    forall j | 12 < j < 27 ensures Inert(Table(tf)[j], mid) {
      LateExampleMiddle(tf, j);
    }
    LateExampleRule27(tf);
    GapsInert(tf, out);
    TwoRulesAct(Table(tf), 12, 27, ts, mid, out);
  }

  lemma LateExampleMoves()
    ensures AllMoveText(["R", "R", "U'", "U"])
  {
    NotationIsMoveText(Move(R, Quarter));
    NotationIsMoveText(Move(U, Inverse));
    NotationIsMoveText(Move(U, Quarter));
    assert ["R", "R", "U'", "U"] == [QuarterOf(R), QuarterOf(R), InverseOf(U), QuarterOf(U)];
  }

  /**
    "R R U' U" becomes "R2", not the empty list, for either table: "U' U "
    cancels to an empty token, and the "R R " rule then merges the two R
    turns into one half turn.
   */
  lemma LateCancellation(tf: seq<Face>)
    requires |tf| == 6
    ensures AllShrink(Table(tf))
    ensures Simplify(Table(tf), ["R", "R", "U'", "U"]) == ["R2"]
  {
    var out := ["R2", ""];
    LateExampleTokens(tf);
    LateExampleMoves();
    SimplifyFromTokens(Table(tf), ["R", "R", "U'", "U"], out);
    assert Compact(out) == ["R2"];
  }
}
