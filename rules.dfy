/**
  The rule table `simplifyMoves` applies: five blocks of six rules, one rule
  per face in the order U, L, F, R, B, D. As written, the fourth block (three
  quarter turns become an inverse turn) lists B twice and has no rule for D.
 */
module Rules {
  import opened Moves
  import opened Simplifier
  import opened TokenRewrite

  /** The five kinds of rule, each instantiated once per face. */
  datatype Pattern =
    | HalfTurnPair    // "U2 U2 " -> " "
    | QuarterInverse  // "U U' "  -> " "
    | InverseQuarter  // "U' U "  -> " "
    | TripleQuarter   // "U U U " -> "U' "
    | DoubleQuarter   // "U U "   -> "U2 "

  /** The rule of pattern `p` for face `f`, as token lists; `""` is the empty token. */
  function RuleFor(p: Pattern, f: Face): Rule {
    var q, i, h := QuarterOf(f), InverseOf(f), HalfOf(f);
    match p
    case HalfTurnPair => Rule([h, h], [""])
    case QuarterInverse => Rule([q, i], [""])
    case InverseQuarter => Rule([i, q], [""])
    case TripleQuarter => Rule([q, q, q], [i])
    case DoubleQuarter => Rule([q, q], [h])
  }

  /** One block of the table: pattern `p` for each face of `faces`, in order. */
  function Block(p: Pattern, faces: seq<Face>): (rules: seq<Rule>)
    ensures |rules| == |faces|
    ensures forall i :: 0 <= i < |faces| ==> rules[i] == RuleFor(p, faces[i])
  {
    seq(|faces|, i requires 0 <= i < |faces| => RuleFor(p, faces[i]))
  }

  /** The five blocks in order; `tripleFaces` lists the faces of the fourth block. */
  function Table(tripleFaces: seq<Face>): seq<Rule> {
    Block(HalfTurnPair, Faces) + Block(QuarterInverse, Faces) + Block(InverseQuarter, Faces)
    + Block(TripleQuarter, tripleFaces) + Block(DoubleQuarter, Faces)
  }

  /** The faces of the triple-turn block as written: B a second time where D belongs. */
  const SourceTripleFaces: seq<Face> := [U, L, F, R, B, B]

  /** The table as written. */
  const SourceRules: seq<Rule> := Table(SourceTripleFaces)

  /** The table with the D rule in the triple-turn block. */
  const IntendedRules: seq<Rule> := Table(Faces)

  /** Rule `j` of a table, by block. */
  lemma TableAt(tf: seq<Face>, j: nat)
    requires |tf| == 6 && j < 30
    ensures |Table(tf)| == 30
    ensures j < 6 ==> Table(tf)[j] == RuleFor(HalfTurnPair, Faces[j])
    ensures 6 <= j < 12 ==> Table(tf)[j] == RuleFor(QuarterInverse, Faces[j - 6])
    ensures 12 <= j < 18 ==> Table(tf)[j] == RuleFor(InverseQuarter, Faces[j - 12])
    ensures 18 <= j < 24 ==> Table(tf)[j] == RuleFor(TripleQuarter, tf[j - 18])
    ensures 24 <= j ==> Table(tf)[j] == RuleFor(DoubleQuarter, Faces[j - 24])
  {
  }

  // One lemma per block, so that a proof about one block does not case-split on all five.

  lemma TableHalf(tf: seq<Face>, j: nat)
    requires |tf| == 6 && j < 6
    ensures |Table(tf)| == 30 && Table(tf)[j] == RuleFor(HalfTurnPair, Faces[j])
  {
    TableAt(tf, j);
  }

  lemma TableQuarterInverse(tf: seq<Face>, j: nat)
    requires |tf| == 6 && 6 <= j < 12
    ensures |Table(tf)| == 30 && Table(tf)[j] == RuleFor(QuarterInverse, Faces[j - 6])
  {
    TableAt(tf, j);
  }

  lemma TableInverseQuarter(tf: seq<Face>, j: nat)
    requires |tf| == 6 && 12 <= j < 18
    ensures |Table(tf)| == 30 && Table(tf)[j] == RuleFor(InverseQuarter, Faces[j - 12])
  {
    TableAt(tf, j);
  }

  lemma TableTriple(tf: seq<Face>, j: nat)
    requires |tf| == 6 && 18 <= j < 24
    ensures |Table(tf)| == 30 && Table(tf)[j] == RuleFor(TripleQuarter, tf[j - 18])
  {
    TableAt(tf, j);
  }

  lemma TableDouble(tf: seq<Face>, j: nat)
    requires |tf| == 6 && 24 <= j < 30
    ensures |Table(tf)| == 30 && Table(tf)[j] == RuleFor(DoubleQuarter, Faces[j - 24])
  {
    TableAt(tf, j);
  }

  /** Every rule of a table names one face: its needle's first two moves start with the same letter. */
  lemma TableLead(tf: seq<Face>, j: nat)
    requires |tf| == 6 && j < 30
    ensures |Table(tf)| == 30 && |Table(tf)[j].needle| >= 2
    ensures |Table(tf)[j].needle[0]| >= 1 && |Table(tf)[j].needle[1]| >= 1
    ensures Table(tf)[j].needle[0][0] == Table(tf)[j].needle[1][0]
  {
    TableAt(tf, j);
  }

  /** The needle string `replace` is given for pattern `p` and face letter `c`. */
  function NeedleText(p: Pattern, c: char): string {
    match p
    case HalfTurnPair => [c, '2', ' ', c, '2', ' ']
    case QuarterInverse => [c, ' ', c, '\'', ' ']
    case InverseQuarter => [c, '\'', ' ', c, ' ']
    case TripleQuarter => [c, ' ', c, ' ', c, ' ']
    case DoubleQuarter => [c, ' ', c, ' ']
  }

  /** The replacement string `replace` is given for pattern `p` and face letter `c`. */
  function ReplacementText(p: Pattern, c: char): string {
    match p
    case HalfTurnPair => " "
    case QuarterInverse => " "
    case InverseQuarter => " "
    case TripleQuarter => [c, '\'', ' ']
    case DoubleQuarter => [c, '2', ' ']
  }

  lemma JoinedOne(x: string)
    ensures Joined([x]) == x + " "
  {
    assert [x][1..] == [];
  }

  lemma JoinedPair(x: string, y: string)
    ensures Joined([x, y]) == x + " " + y + " "
  {
    assert [x, y][1..] == [y];
    JoinedOne(y);
  }

  lemma JoinedTriple(x: string)
    ensures Joined([x, x, x]) == x + " " + x + " " + x + " "
  {
    assert [x, x, x][1..] == [x, x];
    JoinedPair(x, x);
  }

  /** The rule of pattern `p` for face `f` is the `replace` call with these strings. */
  lemma RuleText(p: Pattern, f: Face)
    ensures Needle(RuleFor(p, f)) == NeedleText(p, Letter(f))
    ensures Replacement(RuleFor(p, f)) == ReplacementText(p, Letter(f))
  {
    var q, i, h := QuarterOf(f), InverseOf(f), HalfOf(f);
    match p
    case HalfTurnPair =>
      JoinedPair(h, h);
      JoinedOne("");
    case QuarterInverse =>
      JoinedPair(q, i);
      JoinedOne("");
    case InverseQuarter =>
      JoinedPair(i, q);
      JoinedOne("");
    case TripleQuarter =>
      JoinedTriple(q);
      JoinedOne(i);
    case DoubleQuarter =>
      JoinedPair(q, q);
      JoinedOne(h);
  }

  /** Only the triple-turn pattern for D has the needle "D D D ". */
  lemma NeedleTextNotTripleD(p: Pattern, c: char)
    requires p != TripleQuarter || c != 'D'
    ensures NeedleText(p, c) != "D D D "
  {
    match p
    case HalfTurnPair => assert NeedleText(p, c)[1] == '2';
    case QuarterInverse => assert |NeedleText(p, c)| == 5;
    case InverseQuarter => assert |NeedleText(p, c)| == 5;
    case TripleQuarter => assert NeedleText(p, c)[0] == c;
    case DoubleQuarter => assert |NeedleText(p, c)| == 4;
  }

  /** Every rule rewrites moves to fewer, shorter slots, so `replace` terminates. */
  lemma RuleShaped(p: Pattern, f: Face)
    ensures Shaped(RuleFor(p, f)) && |RuleFor(p, f).needle| >= 2
  {
    RuleText(p, f);
    NotationIsMoveText(Move(f, Quarter));
    NotationIsMoveText(Move(f, Inverse));
    NotationIsMoveText(Move(f, Half));
  }

  lemma TableShaped(tf: seq<Face>)
    requires |tf| == 6
    ensures AllShaped(Table(tf)) && AllShrink(Table(tf))
    ensures forall j :: 0 <= j < |Table(tf)| ==> |Table(tf)[j].needle| >= 2
  {
    forall j | 0 <= j < |Table(tf)| ensures Shaped(Table(tf)[j]) && |Table(tf)[j].needle| >= 2 {
      TableAt(tf, j);
      if j < 6 {
        RuleShaped(HalfTurnPair, Faces[j]);
      } else if j < 12 {
        RuleShaped(QuarterInverse, Faces[j - 6]);
      } else if j < 18 {
        RuleShaped(InverseQuarter, Faces[j - 12]);
      } else if j < 24 {
        RuleShaped(TripleQuarter, tf[j - 18]);
      } else {
        RuleShaped(DoubleQuarter, Faces[j - 24]);
      }
    }
  }

  /** No rule of a table whose triple-turn block leaves out D has the needle "D D D ". */
  lemma NoTripleD(tf: seq<Face>, k: nat)
    requires |tf| == 6 && D !in tf && k < 30
    ensures |Table(tf)| == 30 && Needle(Table(tf)[k]) != "D D D "
  {
    if k < 6 {
      TableHalf(tf, k);
      RuleText(HalfTurnPair, Faces[k]);
      NeedleTextNotTripleD(HalfTurnPair, Letter(Faces[k]));
    } else if k < 12 {
      TableQuarterInverse(tf, k);
      RuleText(QuarterInverse, Faces[k - 6]);
      NeedleTextNotTripleD(QuarterInverse, Letter(Faces[k - 6]));
    } else if k < 18 {
      TableInverseQuarter(tf, k);
      RuleText(InverseQuarter, Faces[k - 12]);
      NeedleTextNotTripleD(InverseQuarter, Letter(Faces[k - 12]));
    } else if k < 24 {
      TableTriple(tf, k);
      RuleText(TripleQuarter, tf[k - 18]);
      assert tf[k - 18] in tf;
      NeedleTextNotTripleD(TripleQuarter, Letter(tf[k - 18]));
    } else {
      TableDouble(tf, k);
      RuleText(DoubleQuarter, Faces[k - 24]);
      NeedleTextNotTripleD(DoubleQuarter, Letter(Faces[k - 24]));
    }
  }

  /** As written, rules 22 and 23 are the same "B B B " rule, and no rule rewrites "D D D ". */
  lemma SourceTableDuplicatesB()
    ensures |SourceRules| == 30
    ensures Needle(SourceRules[22]) == Needle(SourceRules[23]) == "B B B "
    ensures forall k :: 0 <= k < |SourceRules| ==> Needle(SourceRules[k]) != "D D D "
  {
    TableTriple(SourceTripleFaces, 22);
    TableTriple(SourceTripleFaces, 23);
    RuleText(TripleQuarter, B);
    forall k | 0 <= k < |SourceRules| ensures Needle(SourceRules[k]) != "D D D " {
      NoTripleD(SourceTripleFaces, k);
    }
  }

  /** The corrected table has one triple-turn rule per face, D included. */
  lemma IntendedTableHasTripleD()
    ensures |IntendedRules| == 30
    ensures Needle(IntendedRules[23]) == "D D D " && Replacement(IntendedRules[23]) == "D' "
  {
    TableAt(Faces, 23);
    RuleText(TripleQuarter, D);
  }
}
