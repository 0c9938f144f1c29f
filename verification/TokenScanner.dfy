/**
 The token pass that runs before parsing: `ABORT` becomes `ROLLBACK`, and every stretch of input
 that matches a client query of the blacklist is replaced.  The loops are proved against a
 declarative reading: the input is cut into kept tokens and matched segments, and there is exactly
 one way to cut it leftmost-first, first entry of the table first.
 */
module TokenScanner {
  import opened Wrappers

  datatype Keyword = KwAbort | KwRollback | KwOther | NoKeyword

  datatype Token =
    | Whitespace(blank: string)
    | SemiColon
    | Placeholder(id: string)
    | Word(value: string, quoted: bool, keyword: Keyword)
    | OtherToken(text: string)

  /** A tokenized client query and its replacement. */
  datatype Entry = Entry(pattern: seq<Token>, replacement: seq<Token>)

  // ---------- The declarative reading ----------

  function Strip(ts: seq<Token>): seq<Token> {
    if ts == [] then []
    else if ts[0].SemiColon? then Strip(ts[1..])
    else [ts[0]] + Strip(ts[1..])
  }

  /** A placeholder stands for any one token; other tokens for themselves. */
  predicate Pointwise(pattern: seq<Token>, ts: seq<Token>) {
    |pattern| == |ts| && forall k :: 0 <= k < |pattern| ==> pattern[k].Placeholder? || pattern[k] == ts[k]
  }

  /** `segment` is one occurrence of the pattern, separators inside it ignored, none at either end. */
  predicate Segment(pattern: seq<Token>, segment: seq<Token>) {
    segment != [] && !segment[0].SemiColon? && !segment[|segment| - 1].SemiColon? && Pointwise(pattern, Strip(segment))
  }

  predicate SegmentAt(pattern: seq<Token>, input: seq<Token>, i: nat, n: nat) {
    i + n <= |input| && Segment(pattern, input[i..i + n])
  }

  predicate OccursAt(pattern: seq<Token>, input: seq<Token>, i: nat)
    requires i <= |input|
  {
    exists n: nat :: n <= |input| && SegmentAt(pattern, input, i, n)
  }

  predicate NoneBefore(table: seq<Entry>, e: nat, input: seq<Token>, i: nat)
    requires e <= |table| && i <= |input|
  {
    forall e' :: 0 <= e' < e ==> !OccursAt(table[e'].pattern, input, i)
  }

  datatype Piece = Keep(token: Token) | Subst(segment: seq<Token>, entry: nat)

  function Width(piece: Piece): nat {
    if piece.Keep? then 1 else |piece.segment|
  }

  /** `piece` is what the leftmost, first-entry reading takes at position `i`. */
  predicate Takes(table: seq<Entry>, input: seq<Token>, i: nat, piece: Piece)
    requires i <= |input|
    ensures Takes(table, input, i, piece) ==> i + Width(piece) <= |input|
  {
    match piece
    case Keep(token) =>
      i < |input| && token == input[i] && (token.SemiColon? || NoneBefore(table, |table|, input, i))
    case Subst(segment, e) =>
      e < |table| && i + |segment| <= |input| && segment == input[i..i + |segment|] &&
      SegmentAt(table[e].pattern, input, i, |segment|) && NoneBefore(table, e, input, i)
  }

  predicate Cuts(table: seq<Entry>, input: seq<Token>, i: nat, pieces: seq<Piece>, j: nat)
    requires i <= |input|
    decreases |pieces|
  {
    if pieces == [] then i == j
    else Takes(table, input, i, pieces[0]) && Cuts(table, input, i + Width(pieces[0]), pieces[1..], j)
  }

  function Source(pieces: seq<Piece>): seq<Token> {
    if pieces == [] then []
    else (if pieces[0].Keep? then [pieces[0].token] else pieces[0].segment) + Source(pieces[1..])
  }

  function OutputOf(table: seq<Entry>, piece: Piece): seq<Token> {
    match piece
    case Keep(token) => [token]
    case Subst(_, e) => if e < |table| then table[e].replacement else []
  }

  function Output(table: seq<Entry>, pieces: seq<Piece>): seq<Token> {
    if pieces == [] then [] else OutputOf(table, pieces[0]) + Output(table, pieces[1..])
  }

  // ---------- Facts about stripping ----------

  lemma {:induction false} StripConcat(xs: seq<Token>, ys: seq<Token>)
    ensures Strip(xs + ys) == Strip(xs) + Strip(ys)
  {
    if xs == [] {
      assert xs + ys == ys;
    } else {
      assert (xs + ys)[1..] == xs[1..] + ys;
      StripConcat(xs[1..], ys);
    }
  }

  lemma StripPrefix(input: seq<Token>, i: nat, m: nat, n: nat)
    requires m <= n && i + n <= |input|
    ensures Strip(input[i..i + n]) == Strip(input[i..i + m]) + Strip(input[i + m..i + n])
  {
    assert input[i..i + n] == input[i..i + m] + input[i + m..i + n];
    StripConcat(input[i..i + m], input[i + m..i + n]);
  }

  lemma StripNext(input: seq<Token>, i: nat, n: nat)
    requires i + n < |input|
    ensures Strip(input[i..i + n + 1]) ==
            Strip(input[i..i + n]) + if input[i + n].SemiColon? then [] else [input[i + n]]
  {
    StripPrefix(input, i, n, n + 1);
    assert input[i + n..i + n + 1] == [input[i + n]];
  }

  lemma {:induction false} StripLength(ts: seq<Token>)
    ensures |Strip(ts)| <= |ts|
    ensures ts != [] && !ts[|ts| - 1].SemiColon? ==> Strip(ts) != []
  {
    if ts != [] { StripLength(ts[1..]); }
  }

  lemma TailKept(input: seq<Token>, lo: nat, hi: nat)
    requires lo < hi <= |input| && !input[hi - 1].SemiColon?
    ensures Strip(input[lo..hi]) != []
  {
    StripLength(input[lo..hi]);
  }

  lemma SegmentNoLonger(pattern: seq<Token>, input: seq<Token>, i: nat, m: nat, n: nat)
    requires SegmentAt(pattern, input, i, m) && SegmentAt(pattern, input, i, n)
    ensures n <= m
  {
    hide *;
    SegmentEnd(pattern, input, i, m);
    SegmentEnd(pattern, input, i, n);
    if m < n {
      StripPrefix(input, i, m, n);
      TailKept(input, i + m, i + n);
    }
  }

  /** A pattern occurs in at most one way at a position. */
  lemma SegmentUnique(pattern: seq<Token>, input: seq<Token>, i: nat, m: nat, n: nat)
    requires SegmentAt(pattern, input, i, m) && SegmentAt(pattern, input, i, n)
    ensures m == n
  {
    SegmentNoLonger(pattern, input, i, m, n);
    SegmentNoLonger(pattern, input, i, n, m);
  }

  lemma SegmentEnd(pattern: seq<Token>, input: seq<Token>, i: nat, n: nat)
    requires SegmentAt(pattern, input, i, n)
    ensures n > 0 && i + n <= |input| && !input[i + n - 1].SemiColon? && |Strip(input[i..i + n])| == |pattern|
  {
  }

  // ---------- There is one cut, and it covers the input ----------

  lemma SubstOccurs(table: seq<Entry>, input: seq<Token>, i: nat, p: Piece)
    requires i <= |input| && Takes(table, input, i, p)
    ensures p.Subst? ==> OccursAt(table[p.entry].pattern, input, i) && !input[i].SemiColon?
  {
    if p.Subst? { assert input[i..i + |p.segment|][0] == input[i]; }
  }

  lemma TakesUnique(table: seq<Entry>, input: seq<Token>, i: nat, p: Piece, q: Piece)
    requires i <= |input| && Takes(table, input, i, p) && Takes(table, input, i, q)
    ensures p == q
  {
    SubstOccurs(table, input, i, p);
    SubstOccurs(table, input, i, q);
    if p.Subst? && q.Subst? {
      assert p.entry == q.entry by {
        assert OccursAt(table[p.entry].pattern, input, i) && OccursAt(table[q.entry].pattern, input, i);
      }
      SegmentUnique(table[p.entry].pattern, input, i, |p.segment|, |q.segment|);
    }
  }

  /** The first piece of a cut, and the cut after it. */
  lemma CutStep(table: seq<Entry>, input: seq<Token>, i: nat, pieces: seq<Piece>, j: nat)
    requires i <= |input| && Cuts(table, input, i, pieces, j)
    ensures if pieces == [] then i == j
            else i < |input| && Takes(table, input, i, pieces[0]) && i + Width(pieces[0]) <= |input| &&
                 Cuts(table, input, i + Width(pieces[0]), pieces[1..], j)
  {
    hide NoneBefore, OccursAt, Strip, Pointwise;
  }

  lemma CutNone(table: seq<Entry>, input: seq<Token>, i: nat)
    requires i <= |input|
    ensures Cuts(table, input, i, [], i) && Output(table, []) == [] && Source([]) == []
  {
  }

  lemma CutCons(table: seq<Entry>, input: seq<Token>, i: nat, piece: Piece, rest: seq<Piece>, j: nat)
    requires i <= |input| && Takes(table, input, i, piece) && Cuts(table, input, i + Width(piece), rest, j)
    ensures Cuts(table, input, i, [piece] + rest, j)
    ensures Output(table, [piece] + rest) == OutputOf(table, piece) + Output(table, rest)
  {
    hide Takes, OutputOf, Width;
    assert ([piece] + rest)[1..] == rest;
  }

  lemma {:induction false} CutUnique(table: seq<Entry>, input: seq<Token>, i: nat, ps: seq<Piece>, qs: seq<Piece>)
    requires i <= |input| && Cuts(table, input, i, ps, |input|) && Cuts(table, input, i, qs, |input|)
    ensures ps == qs
    decreases |ps|
  {
    hide *;
    CutStep(table, input, i, ps, |input|);
    CutStep(table, input, i, qs, |input|);
    if ps != [] && qs != [] {
      TakesUnique(table, input, i, ps[0], qs[0]);
      CutUnique(table, input, i + Width(ps[0]), ps[1..], qs[1..]);
      assert ps == [ps[0]] + ps[1..] && qs == [qs[0]] + qs[1..];
    }
  }

  lemma PieceSource(table: seq<Entry>, input: seq<Token>, i: nat, pieces: seq<Piece>)
    requires i <= |input| && pieces != [] && Takes(table, input, i, pieces[0])
    ensures Source(pieces) == input[i..i + Width(pieces[0])] + Source(pieces[1..])
  {
    hide NoneBefore, SegmentAt;
  }

  lemma {:induction false} CutCovers(table: seq<Entry>, input: seq<Token>, i: nat, pieces: seq<Piece>)
    requires i <= |input| && Cuts(table, input, i, pieces, |input|)
    ensures Source(pieces) == input[i..]
    decreases |pieces|
  {
    hide *;
    CutNone(table, input, i);
    CutStep(table, input, i, pieces, |input|);
    if pieces != [] {
      var k := i + Width(pieces[0]);
      CutCovers(table, input, k, pieces[1..]);
      PieceSource(table, input, i, pieces);
      assert input[i..k] + input[k..] == input[i..];
    }
  }

  lemma {:induction false} CutAppend(table: seq<Entry>, input: seq<Token>, i: nat, pieces: seq<Piece>, j: nat,
                                     piece: Piece)
    requires i <= |input| && j <= |input| && Cuts(table, input, i, pieces, j) && Takes(table, input, j, piece)
    ensures Cuts(table, input, i, pieces + [piece], j + Width(piece))
    ensures Output(table, pieces + [piece]) == Output(table, pieces) + OutputOf(table, piece)
    decreases |pieces|
  {
    hide *;
    CutStep(table, input, i, pieces, j);
    if pieces == [] {
      CutNone(table, input, j + Width(piece));
      CutCons(table, input, i, piece, [], j + Width(piece));
      assert pieces + [piece] == [piece] + [];
    } else {
      var first, rest := pieces[0], pieces[1..];
      CutAppend(table, input, i + Width(first), rest, j, piece);
      CutCons(table, input, i, first, rest + [piece], j + Width(piece));
      CutCons(table, input, i, first, rest, j);
      assert pieces == [first] + rest && pieces + [piece] == [first] + (rest + [piece]);
    }
  }

  /** A substituted segment is at least as long as its pattern and holds every token of it. */
  lemma SubstConsumes(table: seq<Entry>, input: seq<Token>, i: nat, piece: Piece)
    requires i <= |input| && Takes(table, input, i, piece) && piece.Subst?
    ensures 0 < |table[piece.entry].pattern| <= |piece.segment|
  {
    StripLength(piece.segment);
  }

  lemma OnlyKeeps(table: seq<Entry>, input: seq<Token>, i: nat, piece: Piece)
    requires i <= |input| && NoneBefore(table, |table|, input, i) && Takes(table, input, i, piece)
    ensures i < |input| && piece == Keep(input[i])
  {
    if piece.Subst? { Occurrence(table[piece.entry].pattern, input, i, |piece.segment|); }
  }

  /** Input in which no entry occurs passes unchanged. */
  lemma {:induction false} NothingMatches(table: seq<Entry>, input: seq<Token>, i: nat, pieces: seq<Piece>)
    requires i <= |input| && Cuts(table, input, i, pieces, |input|)
    requires forall k :: i <= k < |input| ==> NoneBefore(table, |table|, input, k)
    ensures Output(table, pieces) == input[i..]
    decreases |pieces|
  {
    if pieces != [] {
      assert NoneBefore(table, |table|, input, i);
      OnlyKeeps(table, input, i, pieces[0]);
      hide Takes, NoneBefore;
      NothingMatches(table, input, i + 1, pieces[1..]);
    }
  }

  lemma OutputStep(table: seq<Entry>, input: seq<Token>, i: nat, pieces: seq<Piece>)
    requires i <= |input| && pieces != [] && Takes(table, input, i, pieces[0])
    ensures pieces[0].Subst? ==> pieces[0].entry < |table|
    ensures Output(table, pieces) ==
            (if pieces[0].Keep? then [pieces[0].token] else table[pieces[0].entry].replacement) +
            Output(table, pieces[1..])
  {
    hide NoneBefore, SegmentAt;
  }

  lemma SubstWidth(table: seq<Entry>, input: seq<Token>, i: nat, piece: Piece)
    requires i <= |input| && Takes(table, input, i, piece) && piece.Subst?
    ensures piece.entry < |table| && Width(piece) == |piece.segment| && i < i + |piece.segment| <= |input|
  {
    SubstConsumes(table, input, i, piece);
    hide NoneBefore, SegmentAt;
  }

  /** Around the one place where an entry is taken the input passes unchanged, and there the replacement stands for
      it. */
  lemma {:induction false} OneReplacement(table: seq<Entry>, input: seq<Token>, i: nat, at: nat, piece: Piece,
                                          pieces: seq<Piece>)
    requires i <= at <= |input| && Cuts(table, input, i, pieces, |input|)
    requires Takes(table, input, at, piece) && piece.Subst?
    requires forall k :: i <= k < at || at + |piece.segment| <= k < |input| ==> NoneBefore(table, |table|, input, k)
    ensures piece.entry < |table| && at + |piece.segment| <= |input|
    ensures Output(table, pieces) ==
            input[i..at] + table[piece.entry].replacement + input[at + |piece.segment|..]
    decreases |pieces|
  {
    hide *;
    CutStep(table, input, i, pieces, |input|);
    SubstWidth(table, input, at, piece);
    OutputStep(table, input, i, pieces);
    if i == at {
      TakesUnique(table, input, i, pieces[0], piece);
      NothingMatches(table, input, at + |piece.segment|, pieces[1..]);
      assert input[i..at] == [];
    } else {
      OnlyKeeps(table, input, i, pieces[0]);
      KeepWidth(pieces[0]);
      OneReplacement(table, input, i + 1, at, piece, pieces[1..]);
      assert input[i..at] == [input[i]] + input[i + 1..at];
    }
  }

  lemma KeepWidth(piece: Piece)
    ensures piece.Keep? ==> Width(piece) == 1
  {
  }

  // ---------- The loops ----------

  const ROLLBACK := Word("ROLLBACK", false, KwRollback)

  function RewriteAbort(t: Token): Token {
    if t.Word? && t.keyword.KwAbort? then ROLLBACK else t
  }

  /** Whitespace dropped, ABORT rewritten. */
  function Prepared(tokens: seq<Token>): (r: seq<Token>)
    ensures forall t :: t in r ==> !t.Whitespace? && !(t.Word? && t.keyword.KwAbort?)
    ensures |r| <= |tokens|
  {
    if tokens == [] then []
    else if tokens[0].Whitespace? then Prepared(tokens[1..])
    else [RewriteAbort(tokens[0])] + Prepared(tokens[1..])
  }

  lemma {:induction false} PreparedConcat(a: seq<Token>, b: seq<Token>)
    ensures Prepared(a + b) == Prepared(a) + Prepared(b)
  {
    if a == [] {
      assert a + b == b;
    } else {
      assert (a + b)[1..] == a[1..] + b && (a + b)[0] == a[0];
      PreparedConcat(a[1..], b);
      hide RewriteAbort;
    }
  }

  /** The number of tokens that are not whitespace. */
  function Solid(tokens: seq<Token>): nat {
    if tokens == [] then 0 else (if tokens[0].Whitespace? then 0 else 1) + Solid(tokens[1..])
  }

  lemma {:induction false} PreparedLength(tokens: seq<Token>)
    ensures |Prepared(tokens)| == Solid(tokens)
  {
    if tokens != [] { PreparedLength(tokens[1..]); }
  }

  lemma PreparedOne(t: Token)
    ensures Prepared([t]) ==
            match t
            case Whitespace(_) => []
            case Word(_, _, KwAbort) => [Word("ROLLBACK", false, KwRollback)]
            case _ => [t]
  {
    assert [t][1..] == [] && Prepared([]) == [];
  }

  /** The prepared input has one token for each that is not whitespace, in order: the unquoted keyword ROLLBACK where
      there was ABORT, and otherwise the token itself. */
  lemma PreparedExactly(tokens: seq<Token>, i: nat)
    requires i < |tokens|
    ensures |Prepared(tokens)| == Solid(tokens)
    ensures !tokens[i].Whitespace? ==>
            Solid(tokens[..i]) < Solid(tokens) &&
            Prepared(tokens)[Solid(tokens[..i])] ==
              match tokens[i]
              case Word(_, _, KwAbort) => Word("ROLLBACK", false, KwRollback)
              case token => token
  {
    var before, after := tokens[..i], tokens[i + 1..];
    assert tokens == before + ([tokens[i]] + after);
    hide Prepared, Solid;
    PreparedConcat(before, [tokens[i]] + after);
    PreparedConcat([tokens[i]], after);
    PreparedOne(tokens[i]);
    PreparedLength(before);
    PreparedLength(tokens);
  }

  method TryPattern(pattern: seq<Token>, input: seq<Token>, i: nat) returns (matched: bool, j: nat)
    requires i < |input| && !input[i].SemiColon? && pattern != []
    ensures matched <==> OccursAt(pattern, input, i)
    ensures matched ==> SegmentAt(pattern, input, i, j)
  {
    j := 0;
    var patternIdx := 0;
    assert Strip(input[i..i]) == [];
    assert Matched(pattern, input, i, j, patternIdx);
    hide Strip, OccursAt, SegmentAt, Pointwise, Matched;
    while i + j < |input| && patternIdx < |pattern|
      invariant i + j <= |input| && patternIdx <= |pattern| && Matched(pattern, input, i, j, patternIdx)
      decreases |input| - i - j
    {
      MatchedNext(pattern, input, i, j, patternIdx);
      if input[i + j].SemiColon? {
        j := j + 1;
      } else {
        if !pattern[patternIdx].Placeholder? && input[i + j] != pattern[patternIdx] { break; }
        patternIdx := patternIdx + 1;
        j := j + 1;
      }
    }
    matched := patternIdx == |pattern|;
    MatchedEnd(pattern, input, i, j, patternIdx);
  }

  /** The first `k` tokens of the pattern match the `j` tokens of input from `i`, which begin and, once the pattern is
      used up, end with a token of the match. */
  predicate Matched(pattern: seq<Token>, input: seq<Token>, i: nat, j: nat, k: nat) {
    i + j <= |input| && k <= |pattern| && Pointwise(pattern[..k], Strip(input[i..i + j])) &&
    (j == 0 <==> k == 0) && (k == |pattern| ==> j > 0 && !input[i + j - 1].SemiColon?)
  }

  lemma MatchedNext(pattern: seq<Token>, input: seq<Token>, i: nat, j: nat, k: nat)
    requires Matched(pattern, input, i, j, k) && i + j < |input| && k < |pattern| && !input[i].SemiColon?
    ensures input[i + j].SemiColon? ==> Matched(pattern, input, i, j + 1, k)
    ensures !input[i + j].SemiColon? && (pattern[k].Placeholder? || input[i + j] == pattern[k]) ==>
            Matched(pattern, input, i, j + 1, k + 1)
  {
    StripNext(input, i, j);
    hide Strip;
  }

  lemma MatchedEnd(pattern: seq<Token>, input: seq<Token>, i: nat, j: nat, k: nat)
    requires i < |input| && !input[i].SemiColon? && Matched(pattern, input, i, j, k)
    requires k == |pattern| || i + j == |input| ||
             (!input[i + j].SemiColon? && !pattern[k].Placeholder? && input[i + j] != pattern[k])
    ensures OccursAt(pattern, input, i) <==> k == |pattern|
    ensures k == |pattern| ==> SegmentAt(pattern, input, i, j)
  {
    hide Strip, OccursAt;
    if k == |pattern| {
      assert pattern[..k] == pattern;
      Occurrence(pattern, input, i, j);
    } else {
      NoOccurrence(pattern, input, i, j, k);
    }
  }

  lemma Occurrence(pattern: seq<Token>, input: seq<Token>, i: nat, n: nat)
    requires SegmentAt(pattern, input, i, n)
    ensures OccursAt(pattern, input, i)
  {
  }

  /** Where the comparison stopped short, no longer or shorter segment matches either. */
  lemma NoOccurrence(pattern: seq<Token>, input: seq<Token>, i: nat, j: nat, patternIdx: nat)
    requires i + j <= |input| && patternIdx < |pattern| && |Strip(input[i..i + j])| == patternIdx
    requires i + j == |input| ||
             (!input[i + j].SemiColon? && !pattern[patternIdx].Placeholder? && input[i + j] != pattern[patternIdx])
    ensures !OccursAt(pattern, input, i)
  {
    forall n: nat | n <= |input| - i ensures !SegmentAt(pattern, input, i, n) {
      if n <= j {
        StripPrefix(input, i, n, j);
      } else {
        StripPrefix(input, i, j, n);
        assert input[i + j..i + n][0] == input[i + j];
        assert Strip(input[i..i + n])[patternIdx] == input[i + j];
      }
    }
  }

  /** One turn of the scanning loop: a separator, the first entry that matches here, or the token itself. */
  method NextPiece(table: seq<Entry>, input: seq<Token>, i: nat) returns (piece: Piece)
    requires i < |input|
    ensures Takes(table, input, i, piece) && 0 < Width(piece)
  {
    if input[i].SemiColon? { return Keep(input[i]); }
    for e := 0 to |table|
      invariant NoneBefore(table, e, input, i)
    {
      if table[e].pattern == [] {
        NeverEmpty(input, i);
      } else {
        var matched, j := TryPattern(table[e].pattern, input, i);
        if matched { return Subst(input[i..i + j], e); }
      }
    }
    return Keep(input[i]);
  }

  lemma NeverEmpty(input: seq<Token>, i: nat)
    requires i <= |input|
    ensures !OccursAt([], input, i)
  {
    forall n: nat | n <= |input| - i ensures !SegmentAt([], input, i, n) {
      StripLength(input[i..i + n]);
    }
  }

  lemma OutputIs(table: seq<Entry>, input: seq<Token>, i: nat, piece: Piece)
    requires i <= |input| && Takes(table, input, i, piece)
    ensures piece.Subst? ==> piece.entry < |table|
    ensures OutputOf(table, piece) == if piece.Keep? then [piece.token] else table[piece.entry].replacement
  {
  }

  /** The result is the output of the one leftmost, first-entry cut of the prepared input. */
  method MaybeReplaceTokens(table: seq<Entry>, tokens: seq<Token>) returns (result: seq<Token>)
    ensures exists pieces ::
              Cuts(table, Prepared(tokens), 0, pieces, |Prepared(tokens)|) && result == Output(table, pieces)
  {
    var input := Prepared(tokens);
    result := [];
    ghost var pieces: seq<Piece> := [];
    var i := 0;
    hide *;
    CutNone(table, input, 0);
    while i < |input|
      invariant i <= |input| && Cuts(table, input, 0, pieces, i) && result == Output(table, pieces)
      decreases |input| - i
    {
      var piece := NextPiece(table, input, i);
      CutAppend(table, input, 0, pieces, i, piece);
      pieces := pieces + [piece];
      OutputIs(table, input, i, piece);
      match piece {
        case Keep(token) => result := result + [token];
        case Subst(_, e) => result := result + table[e].replacement;
      }
      i := i + Width(piece);
    }
  }
}
