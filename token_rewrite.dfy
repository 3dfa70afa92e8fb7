/**
  The simplifier seen one token at a time. When every move is written in
  face notation ("U", "U'", "U2"), a rule's text can only occur in the joined
  string where its moves occur as a contiguous run of tokens, and a rule that
  rewrites to " " leaves an empty token between its neighbours (the double
  space). `SegApply` is that token-level rewriting; `SimplifyByTokens` shows
  that `simplifyMoves` is it, followed by dropping the empty tokens.
 */
module TokenRewrite {
  import opened Moves
  import opened Simplifier

  /** One move in face notation: a face letter, then neither face letters nor whitespace. */
  predicate IsMoveText(t: string) {
    t != [] && IsFaceLetter(t[0]) && forall i :: 1 <= i < |t| ==> !IsFaceLetter(t[i]) && !IsSpace(t[i])
  }

  /** A token position: a move, or the empty token a cancellation leaves. */
  predicate IsSlot(t: string) {
    t == [] || IsMoveText(t)
  }

  predicate AllMoveText(ts: seq<string>) {
    forall i :: 0 <= i < |ts| ==> IsMoveText(ts[i])
  }

  predicate AllSlots(ts: seq<string>) {
    forall i :: 0 <= i < |ts| ==> IsSlot(ts[i])
  }

  lemma NotationIsMoveText(m: Move)
    ensures IsMoveText(Notation(m))
  {
  }

  // ---------------------------------------------------------------------------
  // Rewriting a list of tokens
  // ---------------------------------------------------------------------------

  /** `ns` is a run of `ts` starting at position `j`. */
  predicate SegAt<T(==)>(ns: seq<T>, ts: seq<T>, j: nat) {
    j <= |ts| && ns <= ts[j..]
  }

  /** The first position at which `ns` occurs as a run of `ts` (see `SegFindSpec`). */
  function SegFind<T(==)>(ns: seq<T>, ts: seq<T>): (r: Option<nat>)
    ensures r.Some? ==> r.value + |ns| <= |ts|
  {
    if ns <= ts then Some(0)
    else if ts == [] then None
    else
      match SegFind(ns, ts[1..])
      case None => None
      case Some(j) => Some(j + 1)
  }

  /** `SegFind` gives the leftmost occurrence, and `None` only when there is none. */
  lemma {:induction false} SegFindSpec<T>(ns: seq<T>, ts: seq<T>)
    ensures var r := SegFind(ns, ts);
      && (r.Some? ==> SegAt(ns, ts, r.value))
      && (r.Some? ==> forall j: nat :: j < r.value ==> !SegAt(ns, ts, j))
      && (r.None? ==> forall j: nat :: !SegAt(ns, ts, j))
  {
    if !(ns <= ts) && ts != [] {
      SegAtTail(ns, ts);
      SegFindSpec(ns, ts[1..]);
    }
  }

  lemma SegAtTail<T>(ns: seq<T>, ts: seq<T>)
    requires ts != []
    ensures forall j: nat :: 1 <= j ==> (SegAt(ns, ts, j) <==> SegAt(ns, ts[1..], j - 1))
  {
    forall j: nat | 1 <= j ensures SegAt(ns, ts, j) <==> SegAt(ns, ts[1..], j - 1) {
      if j <= |ts| {
        assert ts[j..] == ts[1..][j - 1..];
      }
    }
  }

  /** Rewrites the first run `ns` into `ws` until `ns` no longer occurs (see `SegReplaceAllSpec`). */
  function SegReplaceAll<T(==)>(ns: seq<T>, ts: seq<T>, ws: seq<T>): seq<T>
    requires |ws| < |ns|
    decreases |ts|
  {
    match SegFind(ns, ts)
    case None => ts
    case Some(j) => SegReplaceAll(ns, SegSplice(ts, j, |ns|, ws), ws)
  }

  /** `ts` with the `n` items at `j` replaced by `ws`. */
  function SegSplice<T>(ts: seq<T>, j: nat, n: nat, ws: seq<T>): seq<T>
    requires j + n <= |ts|
  {
    ts[..j] + ws + ts[j + n..]
  }

  /**
    Afterwards `ns` no longer occurs, the list is no longer, and a list
    without `ns` is left as it is.
   */
  lemma {:induction false} SegReplaceAllSpec<T>(ns: seq<T>, ts: seq<T>, ws: seq<T>)
    requires |ws| < |ns|
    ensures var r := SegReplaceAll(ns, ts, ws);
      && SegFind(ns, r).None?
      && |r| <= |ts|
      && (SegFind(ns, ts).None? ==> r == ts)
    decreases |ts|
  {
    match SegFind(ns, ts) {
      case None =>
      case Some(j) =>
        SegReplaceAllSpec(ns, SegSplice(ts, j, |ns|, ws), ws);
    }
  }

  /** One rewrite, then the search for `ns` goes on in the rewritten list. */
  lemma SegReplaceAllStep<T>(ns: seq<T>, ts: seq<T>, ws: seq<T>, j: nat)
    requires |ws| < |ns| && SegFind(ns, ts) == Some(j)
    ensures j + |ns| <= |ts|
    ensures SegReplaceAll(ns, ts, ws) == SegReplaceAll(ns, SegSplice(ts, j, |ns|, ws), ws)
  {
  }

  /** A rewrite that leaves no further occurrence is the only one. */
  lemma RewriteOnce<T>(ns: seq<T>, ts: seq<T>, ws: seq<T>, j: nat)
    requires |ws| < |ns| && SegFind(ns, ts) == Some(j)
    requires SegFind(ns, SegSplice(ts, j, |ns|, ws)).None?
    ensures SegReplaceAll(ns, ts, ws) == SegSplice(ts, j, |ns|, ws)
  {
    SegReplaceAllStep(ns, ts, ws, j);
    SegReplaceAllSpec(ns, SegSplice(ts, j, |ns|, ws), ws);
  }

  /** Exactly the moves of a rule become its replacement. */
  lemma RewriteWhole<T>(ns: seq<T>, ws: seq<T>)
    requires |ws| < |ns|
    ensures SegReplaceAll(ns, ns, ws) == ws
  {
    assert SegFind(ns, ns) == Some(0);
    assert SegSplice(ns, 0, |ns|, ws) == ws;
    RewriteOnce(ns, ns, ws, 0);
  }

  /** Replacing a run of slots by slots leaves slots. */
  lemma SpliceSlots(ts: seq<string>, j: nat, n: nat, ws: seq<string>)
    requires j + n <= |ts| && AllSlots(ts) && AllSlots(ws)
    ensures AllSlots(SegSplice(ts, j, n, ws))
  {
    var ts' := SegSplice(ts, j, n, ws);
    forall i | 0 <= i < |ts'| ensures IsSlot(ts'[i]) {
      if i < j {
        assert ts'[i] == ts[i];
      } else if i >= j + |ws| {
        assert ts'[i] == ts[i - |ws| + n];
      } else {
        assert ts'[i] == ws[i - j];
      }
    }
  }

  /** Rewriting slots into slots leaves slots. */
  lemma {:induction false} SegReplaceAllSlots(ns: seq<string>, ts: seq<string>, ws: seq<string>)
    requires |ws| < |ns| && AllSlots(ts) && AllSlots(ws)
    ensures AllSlots(SegReplaceAll(ns, ts, ws))
    decreases |ts|
  {
    match SegFind(ns, ts) {
      case None =>
      case Some(j) =>
        SegReplaceAllStep(ns, ts, ws, j);
        SpliceSlots(ts, j, |ns|, ws);
        SegReplaceAllSlots(ns, SegSplice(ts, j, |ns|, ws), ws);
    }
  }

  /** A rule the token view covers: moves in, fewer slots out, shorter text. */
  predicate Shaped(rule: Rule) {
    rule.needle != [] && AllMoveText(rule.needle) && AllSlots(rule.replacement)
    && |rule.replacement| < |rule.needle| && Shrinks(rule)
  }

  predicate AllShaped(rules: seq<Rule>) {
    forall k :: 0 <= k < |rules| ==> Shaped(rules[k])
  }

  /** Each rule's token rewriting applied in turn, first to last. */
  function SegApply(rules: seq<Rule>, ts: seq<string>): (r: seq<string>)
    requires AllShaped(rules)
    ensures |r| <= |ts|
  {
    if rules == [] then ts
    else
      SegReplaceAllSpec(rules[0].needle, ts, rules[0].replacement);
      SegApply(rules[1..], SegReplaceAll(rules[0].needle, ts, rules[0].replacement))
  }

  lemma {:induction false} SegApplySlots(rules: seq<Rule>, ts: seq<string>)
    requires AllShaped(rules) && AllSlots(ts)
    ensures AllSlots(SegApply(rules, ts))
  {
    if rules != [] {
      SegReplaceAllSlots(rules[0].needle, ts, rules[0].replacement);
      SegApplySlots(rules[1..], SegReplaceAll(rules[0].needle, ts, rules[0].replacement));
    }
  }

  /** The tokens left once the empty ones are dropped. */
  function Compact(ts: seq<string>): (r: seq<string>)
    ensures |r| <= |ts|
    ensures forall i :: 0 <= i < |r| ==> r[i] != []
    ensures multiset(r) <= multiset(ts)
  {
    if ts == [] then []
    else
      assert ts == [ts[0]] + ts[1..];
      if ts[0] == [] then Compact(ts[1..])
      else [ts[0]] + Compact(ts[1..])
  }

  // ---------------------------------------------------------------------------
  // The joined string
  // ---------------------------------------------------------------------------

  lemma {:induction false} JoinedConcat(a: seq<string>, b: seq<string>)
    ensures Joined(a + b) == Joined(a) + Joined(b)
  {
    if a == [] {
      assert a + b == b;
    } else {
      assert (a + b)[1..] == a[1..] + b;
      JoinedConcat(a[1..], b);
    }
  }

  /** A word and its space is a prefix of another only if the words agree. */
  lemma WordPrefix(a: string, b: string, x: string, y: string)
    requires NoSpace(a) && NoSpace(b)
    ensures a + " " + x <= b + " " + y <==> a == b && x <= y
  {
    var lhs, rhs := a + " " + x, b + " " + y;
    if |a| < |b| {
      assert lhs[|a|] == ' ' && rhs[|a|] == b[|a|];
    } else if |b| < |a| {
      assert |rhs| <= |b| + |lhs| - |a| || lhs[|b|] == a[|b|] != ' ' == rhs[|b|];
    } else if a == b {
      if x <= y {
        assert lhs == rhs[..|lhs|];
      }
      if lhs <= rhs {
        assert x == lhs[|a| + 1..] == rhs[|a| + 1..|lhs|];
      }
    } else {
      var i :| 0 <= i < |a| && a[i] != b[i];
      assert lhs[i] == a[i] && rhs[i] == b[i];
    }
  }

  /** The text of `ns` begins the text of `us` exactly when `ns` begins `us`. */
  lemma {:induction false} JoinedPrefix(ns: seq<string>, us: seq<string>)
    requires forall i :: 0 <= i < |ns| ==> NoSpace(ns[i])
    requires forall i :: 0 <= i < |us| ==> NoSpace(us[i])
    ensures Joined(ns) <= Joined(us) <==> ns <= us
  {
    if ns != [] && us != [] {
      WordPrefix(ns[0], us[0], Joined(ns[1..]), Joined(us[1..]));
      JoinedPrefix(ns[1..], us[1..]);
      assert ns == [ns[0]] + ns[1..] && us == [us[0]] + us[1..];
    }
  }

  function Shift(o: Option<nat>, d: nat): Option<nat> {
    match o
    case None => None
    case Some(p) => Some(p + d)
  }

  /** Text free of face letters holds no start of a rule's text. */
  lemma {:induction false} FindSkip(needle: string, x: string, y: string)
    requires needle != [] && IsFaceLetter(needle[0])
    requires forall i :: 0 <= i < |x| ==> !IsFaceLetter(x[i])
    ensures Find(needle, x + y) == Shift(Find(needle, y), |x|)
    decreases |x|
  {
    if x == [] {
      assert x + y == y;
    } else {
      assert (x + y)[1..] == x[1..] + y;
      FindSkip(needle, x[1..], y);
    }
  }

  /** The text offset of the token a search in the list found. */
  function TextOffset(ts: seq<string>, o: Option<nat>): Option<nat> {
    match o
    case None => None
    case Some(j) => if j <= |ts| then Some(|Joined(ts[..j])|) else None
  }

  /** A rule's text begins the joined string exactly when its moves begin the list. */
  lemma StartsJoined(ns: seq<string>, ts: seq<string>)
    requires AllMoveText(ns) && AllSlots(ts)
    ensures StartsWith(Joined(ts), Joined(ns)) <==> ns <= ts
  {
    StartsWithOccurs(Joined(ts), Joined(ns));
    JoinedPrefix(ns, ts);
  }

  /** Where the text does not start with the needle, the search resumes one character on. */
  lemma FindPastStart(needle: string, hay: string)
    requires hay != [] && !StartsWith(hay, needle)
    ensures Find(needle, hay) == Shift(Find(needle, hay[1..]), 1)
  {
  }

  /** A rule's text starts with a face letter. */
  lemma NeedleStart(ns: seq<string>)
    requires ns != [] && AllMoveText(ns)
    ensures Joined(ns) != [] && IsFaceLetter(Joined(ns)[0])
  {
    assert Joined(ns) == ns[0] + (" " + Joined(ns[1..]));
  }

  /** The rest of a slot, and its space, hold no face letter. */
  lemma SlotTail(t: string)
    requires IsSlot(t) && t != []
    ensures forall i :: 0 <= i < |t[1..] + " "| ==> !IsFaceLetter((t[1..] + " ")[i])
  {
  }

  /** Past a slot that does not begin a match, the search resumes after the slot's space. */
  lemma FindPastSlot(needle: string, t: string, rest: string)
    requires needle != [] && IsFaceLetter(needle[0]) && IsSlot(t)
    requires !StartsWith(t + " " + rest, needle)
    ensures Find(needle, t + " " + rest) == Shift(Find(needle, rest), |t| + 1)
  {
    var hay := t + " " + rest;
    if t == [] {
      assert hay == " " + rest;
      FindSkip(needle, " ", rest);
    } else {
      FindPastStart(needle, hay);
      assert hay[1..] == (t[1..] + " ") + rest;
      SlotTail(t);
      FindSkip(needle, t[1..] + " ", rest);
    }
  }

  /** Past a first token that does not begin a match, the search resumes at the next token. */
  lemma FindPastFirst(ns: seq<string>, ts: seq<string>)
    requires ns != [] && AllMoveText(ns) && AllSlots(ts)
    requires ts != [] && !(ns <= ts)
    ensures Find(Joined(ns), Joined(ts)) == Shift(Find(Joined(ns), Joined(ts[1..])), |ts[0]| + 1)
  {
    NeedleStart(ns);
    StartsJoined(ns, ts);
    FindPastSlot(Joined(ns), ts[0], Joined(ts[1..]));
  }

  /** Finding a rule's text in the joined string is finding its moves in the list. */
  lemma {:induction false} FindJoined(ns: seq<string>, ts: seq<string>)
    requires ns != [] && AllMoveText(ns) && AllSlots(ts)
    ensures Find(Joined(ns), Joined(ts)) == TextOffset(ts, SegFind(ns, ts))
  {
    StartsJoined(ns, ts);
    if ns <= ts {
      assert ts[..0] == [];
    } else if ts != [] {
      FindPastFirst(ns, ts);
      FindJoined(ns, ts[1..]);
      match SegFind(ns, ts[1..]) {
        case None =>
        case Some(j) =>
          assert ts[..j + 1] == [ts[0]] + ts[1..][..j];
      }
    }
  }

  lemma SpliceMiddle(a: string, b: string, c: string, d: string)
    ensures Splice(a + b + c, |a|, |b|, d) == a + d + c
  {
    assert (a + b + c)[..|a|] == a;
    assert (a + b + c)[|a| + |b|..] == c;
  }

  /** Splicing a rule's replacement over its text splices the token lists. */
  lemma SpliceJoined(pre: seq<string>, ns: seq<string>, ws: seq<string>, post: seq<string>)
    ensures |Joined(pre)| + |Joined(ns)| <= |Joined(pre + ns + post)|
    ensures Splice(Joined(pre + ns + post), |Joined(pre)|, |Joined(ns)|, Joined(ws)) == Joined(pre + ws + post)
  {
    JoinedConcat(pre + ns, post);
    JoinedConcat(pre, ns);
    JoinedConcat(pre + ws, post);
    JoinedConcat(pre, ws);
    SpliceMiddle(Joined(pre), Joined(ns), Joined(post), Joined(ws));
  }

  /** One step of `replace`: a found occurrence is spliced, then the search goes on. */
  lemma ReplaceAllStep(needle: string, hay: string, replacement: string, pos: nat)
    requires |replacement| < |needle| && Find(needle, hay) == Some(pos)
    ensures pos + |needle| <= |hay|
    ensures ReplaceAll(needle, hay, replacement)
         == ReplaceAll(needle, Splice(hay, pos, |needle|, replacement), replacement)
  {
  }

  /** A list holding `ns` at position `j` is what comes before, `ns`, and what comes after. */
  lemma SplitAround<T>(ts: seq<T>, j: nat, ns: seq<T>)
    requires j + |ns| <= |ts| && ts[j..][..|ns|] == ns
    ensures ts == ts[..j] + ns + ts[j + |ns|..]
  {
    assert ts[..j] + ts[j..] == ts;
    assert ts[j..] == ts[j..][..|ns|] + ts[j + |ns|..];
  }

  /** Rewriting the first occurrence, found right after `pre`, leaves the rest of the rewrite unchanged. */
  lemma ReplaceAllSplit(pre: seq<string>, ns: seq<string>, ws: seq<string>, post: seq<string>)
    requires |Joined(ws)| < |Joined(ns)|
    requires Find(Joined(ns), Joined(pre + ns + post)) == Some(|Joined(pre)|)
    ensures ReplaceAll(Joined(ns), Joined(pre + ns + post), Joined(ws))
         == ReplaceAll(Joined(ns), Joined(pre + ws + post), Joined(ws))
  {
    ReplaceAllStep(Joined(ns), Joined(pre + ns + post), Joined(ws), |Joined(pre)|);
    SpliceJoined(pre, ns, ws, post);
  }

  /** One found occurrence, on the text: `replace` goes on from the joined spliced list. */
  lemma ReplaceAllJoinedText(rule: Rule, ts: seq<string>, j: nat)
    requires Shaped(rule) && AllSlots(ts) && SegFind(rule.needle, ts) == Some(j)
    ensures j + |rule.needle| <= |ts|
    ensures ReplaceAll(Needle(rule), Joined(ts), Replacement(rule))
         == ReplaceAll(Needle(rule), Joined(SegSplice(ts, j, |rule.needle|, rule.replacement)), Replacement(rule))
  {
    var ns, ws := rule.needle, rule.replacement;
    assert j + |ns| <= |ts| && ts[j..][..|ns|] == ns by {
      SegFindSpec(ns, ts);
    }
    var pre, post := ts[..j], ts[j + |ns|..];
    SplitAround(ts, j, ns);
    assert Find(Needle(rule), Joined(ts)) == Some(|Joined(pre)|) by {
      FindJoined(ns, ts);
    }
    ReplaceAllSplit(pre, ns, ws, post);
    assert SegSplice(ts, j, |ns|, ws) == pre + ws + post;
  }

  /** One found occurrence, on the list: the spliced list holds slots, and `SegReplaceAll` goes on from it. */
  lemma ReplaceAllJoinedList(rule: Rule, ts: seq<string>, j: nat)
    requires Shaped(rule) && AllSlots(ts) && SegFind(rule.needle, ts) == Some(j)
    ensures j + |rule.needle| <= |ts|
    ensures var ts' := SegSplice(ts, j, |rule.needle|, rule.replacement);
      && AllSlots(ts') && |ts'| < |ts|
      && SegReplaceAll(rule.needle, ts, rule.replacement) == SegReplaceAll(rule.needle, ts', rule.replacement)
  {
    SegReplaceAllStep(rule.needle, ts, rule.replacement, j);
    SpliceSlots(ts, j, |rule.needle|, rule.replacement);
  }

  /** `replace` on the joined string is `SegReplaceAll` on the list. */
  lemma {:induction false} ReplaceAllJoined(rule: Rule, ts: seq<string>)
    requires Shaped(rule) && AllSlots(ts)
    ensures ReplaceAll(Needle(rule), Joined(ts), Replacement(rule))
         == Joined(SegReplaceAll(rule.needle, ts, rule.replacement))
    decreases |ts|
  {
    FindJoined(rule.needle, ts);
    match SegFind(rule.needle, ts) {
      case None =>
        SegReplaceAllSpec(rule.needle, ts, rule.replacement);
      case Some(j) =>
        ReplaceAllJoinedText(rule, ts, j);
        ReplaceAllJoinedList(rule, ts, j);
        ReplaceAllJoined(rule, SegSplice(ts, j, |rule.needle|, rule.replacement));
    }
  }

  /** The rule table on the joined string is `SegApply` on the list. */
  lemma {:induction false} ApplyJoined(rules: seq<Rule>, ts: seq<string>)
    requires AllShaped(rules) && AllSlots(ts)
    ensures AllShrink(rules)
    ensures ApplyRules(rules, Joined(ts)) == Joined(SegApply(rules, ts))
  {
    if rules != [] {
      ReplaceAllJoined(rules[0], ts);
      SegReplaceAllSlots(rules[0].needle, ts, rules[0].replacement);
      ApplyJoined(rules[1..], SegReplaceAll(rules[0].needle, ts, rules[0].replacement));
    }
  }

  /** Reading the joined slots back skips the empty ones. */
  lemma {:induction false} TokensOfSlots(ts: seq<string>)
    requires AllSlots(ts)
    ensures Tokens(Joined(ts)) == Compact(ts)
  {
    if ts != [] {
      TokensAfterSpace(ts[0] + " ", Joined(ts[1..]));
      if ts[0] == [] {
        assert ts[0] + " " == " ";
        assert Tokens(" ") == [];
      } else {
        TokensOfToken(ts[0]);
      }
      TokensOfSlots(ts[1..]);
    }
  }

  /** `simplifyMoves` is the token-level rewriting with the empty tokens dropped. */
  lemma SimplifyByTokens(rules: seq<Rule>, moves: seq<string>)
    requires AllShaped(rules) && AllMoveText(moves)
    ensures AllShrink(rules)
    ensures Simplify(rules, moves) == Compact(SegApply(rules, moves))
  {
    ApplyJoined(rules, moves);
    SegApplySlots(rules, moves);
    TokensOfSlots(SegApply(rules, moves));
  }

  /** The simplified list never has more moves than the input. */
  lemma NeverLonger(rules: seq<Rule>, moves: seq<string>)
    requires AllShaped(rules) && AllMoveText(moves)
    ensures AllShrink(rules)
    ensures |Simplify(rules, moves)| <= |moves|
  {
    SimplifyByTokens(rules, moves);
  }
}
