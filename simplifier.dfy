/**
  The move-sequence simplifier of CubeSolver: the moves are joined into one
  space-terminated string, a fixed table of substring rewrite rules is applied
  in order (each rule rewriting its leftmost occurrence until none is left),
  and the string is split back into whitespace-separated tokens.
 */
module Simplifier {

  datatype Option<T> = None | Some(value: T)

  /**
    A rewrite rule, written as the moves it looks for and the moves it puts
    in their place; its text (`Needle`, `Replacement`) has each move followed
    by a space, so `Rule(["U", "U'"], [""])` rewrites "U U' " to " ".
   */
  datatype Rule = Rule(needle: seq<string>, replacement: seq<string>)

  // ---------------------------------------------------------------------------
  // Searching and replacing in a string
  // ---------------------------------------------------------------------------

  /** `needle` occurs in `hay` starting at index `i`. */
  predicate Occurs(needle: string, hay: string, i: nat) {
    i + |needle| <= |hay| && hay[i..i + |needle|] == needle
  }

  /** `hay` begins with `needle`, compared character by character. */
  predicate StartsWith(hay: string, needle: string) {
    needle == [] || (hay != [] && hay[0] == needle[0] && StartsWith(hay[1..], needle[1..]))
  }

  /** `needle` occurs somewhere in `hay`. */
  predicate Contains(hay: string, needle: string)
    decreases |hay|
  {
    StartsWith(hay, needle) || (hay != [] && Contains(hay[1..], needle))
  }

  lemma {:induction false} StartsWithOccurs(hay: string, needle: string)
    ensures StartsWith(hay, needle) <==> Occurs(needle, hay, 0)
    decreases |needle|
  {
    if needle != [] && hay != [] {
      StartsWithOccurs(hay[1..], needle[1..]);
      if |needle| <= |hay| {
        assert hay[..|needle|] == [hay[0]] + hay[1..][..|needle| - 1];
        assert needle == [needle[0]] + needle[1..];
      }
    }
  }

  /** An occurrence past index 0 is an occurrence in the tail, one index earlier. */
  lemma OccursInTail(needle: string, hay: string)
    requires hay != []
    ensures forall j: nat :: 1 <= j ==> (Occurs(needle, hay, j) <==> Occurs(needle, hay[1..], j - 1))
  {
    forall j: nat | 1 <= j ensures Occurs(needle, hay, j) <==> Occurs(needle, hay[1..], j - 1) {
      if j + |needle| <= |hay| {
        assert hay[j..j + |needle|] == hay[1..][j - 1..j - 1 + |needle|];
      }
    }
  }

  /** The leftmost occurrence of `needle` in `hay`, as `std::string::find` gives it. */
  function Find(needle: string, hay: string): (r: Option<nat>)
    ensures r.None? <==> !Contains(hay, needle)
    ensures r.Some? ==> Occurs(needle, hay, r.value)
    ensures r.Some? ==> forall j: nat :: j < r.value ==> !Occurs(needle, hay, j)
    decreases |hay|
  {
    StartsWithOccurs(hay, needle);
    if StartsWith(hay, needle) then Some(0)
    else if hay == [] then None
    else
      OccursInTail(needle, hay);
      match Find(needle, hay[1..])
      case None => None
      case Some(p) => Some(p + 1)
  }

  /** `hay` with the `len` characters at `pos` replaced by `replacement`. */
  function Splice(hay: string, pos: nat, len: nat, replacement: string): (r: string)
    requires pos + len <= |hay|
    ensures |r| == |hay| - len + |replacement|
    ensures r[..pos] == hay[..pos] && r[pos..pos + |replacement|] == replacement
    ensures r[pos + |replacement|..] == hay[pos + len..]
  {
    hay[..pos] + replacement + hay[pos + len..]
  }

  /**
    Rewrites the leftmost occurrence of `needle` until none is left. The
    loop only ends because the replacement is shorter than the needle.
   */
  function ReplaceAll(needle: string, hay: string, replacement: string): (r: string)
    requires |replacement| < |needle|
    ensures !Contains(r, needle)
    ensures |r| <= |hay|
    ensures !Contains(hay, needle) ==> r == hay
    decreases |hay|
  {
    match Find(needle, hay)
    case None => hay
    case Some(pos) => ReplaceAll(needle, Splice(hay, pos, |needle|, replacement), replacement)
  }

  /** The in-place `replace` helper: a loop of leftmost find-and-replace steps. */
  method Replace(needle: string, haystack: string, replacement: string) returns (result: string)
    requires |replacement| < |needle|
    ensures result == ReplaceAll(needle, haystack, replacement)
    ensures !Contains(result, needle)
  {
    result := haystack;
    var pos := Find(needle, result);
    while pos.Some?
      invariant pos == Find(needle, result)
      invariant ReplaceAll(needle, result, replacement) == ReplaceAll(needle, haystack, replacement)
      decreases |result|
    {
      result := Splice(result, pos.value, |needle|, replacement);
      pos := Find(needle, result);
    }
  }

  // ---------------------------------------------------------------------------
  // Joining moves into a string and splitting a string into tokens
  // ---------------------------------------------------------------------------

  /** The characters `operator>>` on an input stream skips. */
  predicate IsSpace(c: char) {
    c == ' ' || '\t' <= c <= '\r'
  }

  predicate NoSpace(s: string) {
    forall i :: 0 <= i < |s| ==> !IsSpace(s[i])
  }

  /** A non-empty run of non-whitespace characters. */
  predicate IsToken(s: string) {
    s != [] && NoSpace(s)
  }

  /** Each move followed by one space, in order. */
  function Joined(moves: seq<string>): (s: string)
  {
    if moves == [] then "" else moves[0] + " " + Joined(moves[1..])
  }

  /** The length of the leading run of non-whitespace characters. */
  function WordLength(s: string): (k: nat)
    ensures k <= |s| && NoSpace(s[..k])
    ensures k < |s| ==> IsSpace(s[k])
  {
    if s == [] || IsSpace(s[0]) then 0 else 1 + WordLength(s[1..])
  }

  /** The words an `istream_iterator<string>` reads from `s`. */
  function Tokens(s: string): (r: seq<string>)
    ensures forall i :: 0 <= i < |r| ==> IsToken(r[i])
    ensures |r| <= |s|
    decreases |s|
  {
    if s == [] then []
    else if IsSpace(s[0]) then Tokens(s[1..])
    else
      var k := WordLength(s);
      [s[..k]] + Tokens(s[k..])
  }

  // ---------------------------------------------------------------------------
  // Rules and the simplifier
  // ---------------------------------------------------------------------------

  function Needle(rule: Rule): string { Joined(rule.needle) }

  function Replacement(rule: Rule): string { Joined(rule.replacement) }

  /** Every call of `replace` passes a replacement shorter than its needle. */
  predicate Shrinks(rule: Rule) {
    |Replacement(rule)| < |Needle(rule)|
  }

  predicate AllShrink(rules: seq<Rule>) {
    forall k :: 0 <= k < |rules| ==> Shrinks(rules[k])
  }

  /** Each rule applied in turn, first to last. */
  function ApplyRules(rules: seq<Rule>, s: string): (r: string)
    requires AllShrink(rules)
    ensures |r| <= |s|
    ensures rules != [] ==> !Contains(r, Needle(rules[|rules| - 1]))
  {
    if rules == [] then s
    else ApplyRules(rules[1..], ReplaceAll(Needle(rules[0]), s, Replacement(rules[0])))
  }

  /** What `simplifyMoves` returns for `moves` under the rule table `rules`. */
  function Simplify(rules: seq<Rule>, moves: seq<string>): (r: seq<string>)
    requires AllShrink(rules)
  {
    Tokens(ApplyRules(rules, Joined(moves)))
  }

  /** `simplifyMoves`: build the string, apply every rule in order, re-tokenise. */
  method SimplifyMoves(rules: seq<Rule>, moves: seq<string>) returns (r: seq<string>)
    requires AllShrink(rules)
    ensures r == Simplify(rules, moves)
  {
    var movesStr := "";
    for i := 0 to |moves|
      invariant movesStr + Joined(moves[i..]) == Joined(moves)
    {
      assert moves[i..][1..] == moves[i + 1..];
      assert Joined(moves[i..]) == moves[i] + " " + Joined(moves[i + 1..]);
      movesStr := movesStr + moves[i] + " ";
    }
    assert moves[|moves|..] == [];
    assert movesStr == Joined(moves);
    assert rules[0..] == rules;
    for k := 0 to |rules|
      invariant ApplyRules(rules[k..], movesStr) == ApplyRules(rules, Joined(moves))
    {
      assert rules[k..][1..] == rules[k + 1..];
      assert ApplyRules(rules[k..], movesStr)
          == ApplyRules(rules[k + 1..], ReplaceAll(Needle(rules[k]), movesStr, Replacement(rules[k])));
      movesStr := Replace(Needle(rules[k]), movesStr, Replacement(rules[k]));
    }
    assert rules[|rules|..] == [];
    r := Tokens(movesStr);
  }

  // ---------------------------------------------------------------------------
  // Tokenisation lemmas
  // ---------------------------------------------------------------------------

  lemma {:induction false} WordLengthConcat(x: string, y: string)
    ensures WordLength(x + y) == if WordLength(x) < |x| then WordLength(x) else |x| + WordLength(y)
    decreases |x|
  {
    if x == [] {
      assert x + y == y;
    } else if !IsSpace(x[0]) {
      assert (x + y)[1..] == x[1..] + y;
      WordLengthConcat(x[1..], y);
    }
  }

  /** Splitting after a whitespace character splits the token list there too. */
  lemma {:induction false} TokensAfterSpace(x: string, y: string)
    requires x == [] || IsSpace(x[|x| - 1])
    ensures Tokens(x + y) == Tokens(x) + Tokens(y)
    decreases |x|
  {
    if x == [] {
      assert x + y == y;
    } else if IsSpace(x[0]) {
      assert (x + y)[1..] == x[1..] + y;
      TokensAfterSpace(x[1..], y);
    } else {
      var k := WordLength(x);
      WordLengthConcat(x, y);
      assert (x + y)[..k] == x[..k];
      assert (x + y)[k..] == x[k..] + y;
      TokensAfterSpace(x[k..], y);
    }
  }

  /** A token followed by a space reads back as that one token. */
  lemma TokensOfToken(t: string)
    requires IsToken(t)
    ensures Tokens(t + " ") == [t]
  {
    WordLengthConcat(t, " ");
    assert (t + " ")[..|t|] == t;
    assert (t + " ")[|t|..] == " ";
  }

  /** Joining well-formed moves and re-tokenising gives the moves back. */
  lemma {:induction false} TokensOfJoined(moves: seq<string>)
    requires forall i :: 0 <= i < |moves| ==> IsToken(moves[i])
    ensures Tokens(Joined(moves)) == moves
  {
    if moves != [] {
      TokensAfterSpace(moves[0] + " ", Joined(moves[1..]));
      TokensOfToken(moves[0]);
      TokensOfJoined(moves[1..]);
    }
  }
}
