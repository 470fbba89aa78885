/**
 The two pure text transforms of the preview pane (src/app/highlight.rs):
 `HighlightMatches` splits every styled span of a line around the
 case-insensitive occurrences of the search query, and `AddLineSpacing`
 puts a blank line after every line.

 Case folding is ASCII-only: with ASCII text, lower-casing keeps lengths, so
 offsets found in the lower-cased copy are valid offsets into the original,
 which is what the Rust code relies on.
 */
module Highlight {
  import opened Options

  datatype Color = Black | Yellow | Rgb(r: nat, g: nat, b: nat)

  /** A ratatui style, reduced to what the preview uses. */
  datatype Style = Style(fg: Option<Color>, bg: Option<Color>, bold: bool)

  const PlainStyle: Style := Style(None, None, false)

  /** Black on yellow: the style every highlighted occurrence gets. */
  const MatchStyle: Style := Style(Some(Black), Some(Yellow), false)

  datatype Span = Span(content: string, style: Style)

  datatype Line = Line(spans: seq<Span>)

  /** The line `Line::from(" ")` that `AddLineSpacing` interleaves. */
  const SpacerLine: Line := Line([Span(" ", PlainStyle)])

  // ---------------------------------------------------------------------------
  // Case-insensitive matching
  // ---------------------------------------------------------------------------

  function LowerChar(c: char): char {
    if 'A' <= c <= 'Z' then (c as int + 32) as char else c
  }

  function Lower(s: string): (r: string)
    ensures |r| == |s|
  {
    if s == [] then [] else [LowerChar(s[0])] + Lower(s[1..])
  }

  lemma {:induction false} LowerAt(s: string)
    ensures forall i :: 0 <= i < |s| ==> Lower(s)[i] == LowerChar(s[i])
    decreases |s|
  {
    if s != [] {
      LowerAt(s[1..]);
      assert forall i :: 1 <= i < |s| ==> Lower(s)[i] == Lower(s[1..])[i - 1];
    }
  }

  /** Lower-casing commutes with slicing. */
  lemma LowerSlice(s: string, a: nat, b: nat)
    requires a <= b <= |s|
    ensures Lower(s)[a..b] == Lower(s[a..b])
  {
    LowerAt(s);
    LowerAt(s[a..b]);
  }

  /** `a` and `b` are equal ignoring ASCII case, compared character by character. */
  predicate EqualFold(a: string, b: string)
    decreases |a|
  {
    |a| == |b| && (a == [] || (LowerChar(a[0]) == LowerChar(b[0]) && EqualFold(a[1..], b[1..])))
  }

  /** Comparing ignoring case is comparing the lower-cased copies. */
  lemma {:induction false} EqualFoldIffLower(a: string, b: string)
    ensures EqualFold(a, b) <==> Lower(a) == Lower(b)
    decreases |a|
  {
    if |a| == |b| && a != [] {
      EqualFoldIffLower(a[1..], b[1..]);
      LowerSlice(a, 1, |a|);
      LowerSlice(b, 1, |b|);
      assert Lower(a)[0] == LowerChar(a[0]) && Lower(b)[0] == LowerChar(b[0]);
      assert Lower(a) == [Lower(a)[0]] + Lower(a[1..]);
      assert Lower(b) == [Lower(b)[0]] + Lower(b[1..]);
      if Lower(a) == Lower(b) {
        assert Lower(a[1..]) == Lower(a)[1..] == Lower(b)[1..] == Lower(b[1..]);
      }
    }
  }

  /** `query` occurs in `text` at offset `k`, ignoring ASCII case. */
  predicate MatchesAt(text: string, query: string, k: nat) {
    k + |query| <= |text| && EqualFold(text[k..k + |query|], query)
  }

  predicate ContainsIgnoringCase(text: string, query: string) {
    exists k: nat | k <= |text| :: MatchesAt(text, query, k)
  }

  predicate OccursAt(hay: string, needle: string, k: nat) {
    k + |needle| <= |hay| && hay[k..k + |needle|] == needle
  }

  /** No occurrence of `needle` starts in `hay` at an offset in `[from, to)`. */
  predicate NoneIn(hay: string, needle: string, from: nat, to: nat) {
    forall k: nat :: from <= k < to ==> !OccursAt(hay, needle, k)
  }

  /** An occurrence at `k` lies outside a range holding none. */
  lemma NoneInExcludes(hay: string, needle: string, from: nat, to: nat, k: nat)
    requires NoneIn(hay, needle, from, to) && OccursAt(hay, needle, k) && from <= k
    ensures to <= k
  {
  }

  /**
   The leftmost occurrence of `needle` in `hay` at or after `from`, as
   `str::find` on the suffix `hay[from..]` reports it (shifted by `from`).
   */
  function Find(hay: string, needle: string, from: nat): (r: Option<nat>)
    requires from <= |hay|
    ensures r.Some? ==> from <= r.value && r.value + |needle| <= |hay|
    decreases |hay| - from
  {
    if from + |needle| > |hay| then None
    else if hay[from..from + |needle|] == needle then Some(from)
    else Find(hay, needle, from + 1)
  }

  /** What a successful search tells: an occurrence at `pos`, none before it from `from` on. */
  lemma {:induction false} FindFound(hay: string, needle: string, from: nat, pos: nat)
    requires from <= |hay| && Find(hay, needle, from) == Some(pos)
    ensures from <= pos && pos + |needle| <= |hay|
    ensures OccursAt(hay, needle, pos) && NoneIn(hay, needle, from, pos)
    decreases |hay| - from
  {
    if from + |needle| <= |hay| && hay[from..from + |needle|] != needle {
      FindFound(hay, needle, from + 1, pos);
    }
  }

  /** What a failed search tells: no occurrence at all from `from` on. */
  lemma {:induction false} FindMissing(hay: string, needle: string, from: nat)
    requires from <= |hay| && Find(hay, needle, from) == None
    ensures NoneIn(hay, needle, from, |hay| + 1)
    decreases |hay| - from
  {
    if from + |needle| <= |hay| {
      FindMissing(hay, needle, from + 1);
    }
  }

  /** Searching the lower-cased copies finds exactly the case-insensitive matches. */
  lemma OccursLowerIffMatches(text: string, query: string, k: nat)
    ensures OccursAt(Lower(text), Lower(query), k) <==> MatchesAt(text, query, k)
  {
    if k + |query| <= |text| {
      LowerSlice(text, k, k + |query|);
      EqualFoldIffLower(text[k..k + |query|], query);
    }
  }

  // ---------------------------------------------------------------------------
  // Splitting one span
  // ---------------------------------------------------------------------------

  /** A piece of a span's text: an occurrence of the query, or text between occurrences. */
  datatype Piece = Plain(text: string) | Hit(text: string)

  function PieceTexts(ps: seq<Piece>): string {
    if ps == [] then [] else ps[0].text + PieceTexts(ps[1..])
  }

  lemma PieceTextsAppend(a: seq<Piece>, b: seq<Piece>)
    ensures PieceTexts(a + b) == PieceTexts(a) + PieceTexts(b)
  {
    if a != [] {
      assert (a + b)[0] == a[0];
      assert (a + b)[1..] == a[1..] + b;
      PieceTextsAppend(a[1..], b);
    } else {
      assert a + b == b;
    }
  }

  /**
   A piece is never empty; an occurrence equals the query ignoring case;
   text between occurrences contains no occurrence.
   */
  predicate GoodPiece(p: Piece, query: string) {
    && p.text != []
    && (p.Hit? ==> EqualFold(p.text, query))
    && (p.Plain? ==> !ContainsIgnoringCase(p.text, query))
  }

  /**
   The pieces `ps`, laid over `hay` from offset `pos`, follow the leftmost
   non-overlapping occurrences of `needle`: each Hit starts at an occurrence,
   no occurrence starts inside a Plain piece, and a Plain piece is either the
   last piece or followed by a Hit. Applied to the lower-cased text and
   query, an occurrence is a case-insensitive match (`OccursLowerIffMatches`).
   */
  predicate Leftmost(hay: string, needle: string, pos: nat, ps: seq<Piece>)
    decreases |ps|
  {
    ps == [] ||
    (&& (ps[0].Hit? ==> OccursAt(hay, needle, pos))
     && (ps[0].Plain? ==> NoneIn(hay, needle, pos, pos + |ps[0].text|) && (|ps| > 1 ==> ps[1].Hit?))
     && Leftmost(hay, needle, pos + |ps[0].text|, ps[1..]))
  }

  /** `ps` splits `text[pos..]` into good pieces along the leftmost case-insensitive occurrences of `query`. */
  predicate LeftmostSplit(text: string, query: string, pos: nat, ps: seq<Piece>)
    requires pos <= |text|
  {
    && PieceTexts(ps) == text[pos..]
    && (forall i :: 0 <= i < |ps| ==> GoodPiece(ps[i], query))
    && Leftmost(Lower(text), Lower(query), pos, ps)
  }

  /**
   The loop of highlight.rs:224-237 over one span's text from offset `start`:
   find the leftmost occurrence of the lower-cased query `needle` in the
   lower-cased text `hay`, emit the text before it (when non-empty) and the
   occurrence, resume after it, and finally emit the non-empty remainder.
   The offsets found in `hay` cut `text` itself.
   */
  function Pieces(text: string, hay: string, needle: string, start: nat): seq<Piece>
    requires needle != [] && |hay| == |text| && start <= |text|
    decreases |text| - start
  {
    match Find(hay, needle, start)
    case None => if start < |text| then [Plain(text[start..])] else []
    case Some(pos) => AroundMatch(text, |needle|, start, pos, Pieces(text, hay, needle, pos + |needle|))
  }

  /**
   `Pieces` is a leftmost split: its pieces concatenate to the text, hits
   are occurrences of the query, text between them holds none, and every
   hit is the leftmost occurrence after the previous one.
   */
  lemma PiecesIsLeftmostSplit(text: string, query: string, start: nat)
    requires query != [] && start <= |text|
    ensures LeftmostSplit(text, query, start, Pieces(text, Lower(text), Lower(query), start))
  {
    PiecesTexts(text, Lower(text), Lower(query), start);
    PiecesGood(text, query, start);
    PiecesLeftmost(text, Lower(text), Lower(query), start);
  }

  /** The pieces concatenate back to the text from `start` on. */
  lemma {:induction false} PiecesTexts(text: string, hay: string, needle: string, start: nat)
    requires needle != [] && |hay| == |text| && start <= |text|
    ensures PieceTexts(Pieces(text, hay, needle, start)) == text[start..]
    decreases |text| - start
  {
    match Find(hay, needle, start)
    case None =>
      PiecesAtEnd(text, hay, needle, start);
      assert [Plain(text[start..])][1..] == [];
    case Some(pos) =>
      PiecesTexts(text, hay, needle, pos + |needle|);
      AroundMatchTexts(text, |needle|, start, pos, Pieces(text, hay, needle, pos + |needle|));
      PiecesAtMatch(text, hay, needle, start, pos);
  }

  /** Every piece is good: non-empty, a hit equal to the query ignoring case, plain text free of it. */
  lemma {:induction false} PiecesGood(text: string, query: string, start: nat)
    requires query != [] && start <= |text|
    ensures forall i :: 0 <= i < |Pieces(text, Lower(text), Lower(query), start)| ==>
      GoodPiece(Pieces(text, Lower(text), Lower(query), start)[i], query)
    decreases |text| - start
  {
    var hay, needle := Lower(text), Lower(query);
    match Find(hay, needle, start)
    case None =>
      PiecesAtEnd(text, hay, needle, start);
      FindMissing(hay, needle, start);
      NoMatchFrom(text, query, start, |text|);
      assert text[start..|text|] == text[start..];
    case Some(pos) =>
      FindFound(hay, needle, start, pos);
      PiecesGood(text, query, pos + |needle|);
      AroundMatchGood(text, query, start, pos, Pieces(text, hay, needle, pos + |needle|));
      PiecesAtMatch(text, hay, needle, start, pos);
  }

  /** The pieces follow the leftmost occurrences of `needle` in `hay`. */
  lemma {:induction false} PiecesLeftmost(text: string, hay: string, needle: string, start: nat)
    requires needle != [] && |hay| == |text| && start <= |text|
    ensures Leftmost(hay, needle, start, Pieces(text, hay, needle, start))
    decreases |text| - start
  {
    match Find(hay, needle, start)
    case None =>
      PiecesAtEnd(text, hay, needle, start);
      FindMissing(hay, needle, start);
      if start < |text| {
        var p := Plain(text[start..]);
        LeftmostCons(hay, needle, start, |text|, p, []);
        assert [p] + [] == [p];
      }
    case Some(pos) =>
      FindFound(hay, needle, start, pos);
      PiecesLeftmost(text, hay, needle, pos + |needle|);
      AroundMatchLeftmost(text, hay, needle, |needle|, start, pos, Pieces(text, hay, needle, pos + |needle|));
      PiecesAtMatch(text, hay, needle, start, pos);
  }

  /** One round of the loop: the text before the match (if any), the match, then `rest`. */
  function AroundMatch(text: string, n: nat, start: nat, pos: nat, rest: seq<Piece>): seq<Piece>
    requires start <= pos && pos + n <= |text|
  {
    (if pos > start then [Plain(text[start..pos])] else []) + [Hit(text[pos..pos + n])] + rest
  }

  lemma AroundMatchTexts(text: string, n: nat, start: nat, pos: nat, rest: seq<Piece>)
    requires start <= pos && pos + n <= |text|
    requires PieceTexts(rest) == text[pos + n..]
    ensures PieceTexts(AroundMatch(text, n, start, pos, rest)) == text[start..]
  {
    var before := if pos > start then [Plain(text[start..pos])] else [];
    var hit := [Hit(text[pos..pos + n])];
    assert PieceTexts(hit) == text[pos..pos + n] by {
      assert hit[1..] == [];
    }
    assert PieceTexts(before) == text[start..pos] by {
      if pos > start {
        assert before[1..] == [];
      }
    }
    calc {
      PieceTexts(AroundMatch(text, n, start, pos, rest));
      PieceTexts(before + hit + rest);
      { PieceTextsAppend(before + hit, rest); }
      PieceTexts(before + hit) + PieceTexts(rest);
      { PieceTextsAppend(before, hit); }
      text[start..pos] + text[pos..pos + n] + text[pos + n..];
      { SplitAt(text, start, pos, pos + n); }
      text[start..];
    }
  }

  lemma SplitAt(s: string, a: nat, b: nat, c: nat)
    requires a <= b <= c <= |s|
    ensures s[a..b] + s[b..c] + s[c..] == s[a..]
  {
  }

  lemma AroundMatchGood(text: string, query: string, start: nat, pos: nat, rest: seq<Piece>)
    requires query != []
    requires start <= pos && pos + |query| <= |text|
    requires OccursAt(Lower(text), Lower(query), pos) && NoneIn(Lower(text), Lower(query), start, pos)
    requires forall i :: 0 <= i < |rest| ==> GoodPiece(rest[i], query)
    ensures forall i :: 0 <= i < |AroundMatch(text, |query|, start, pos, rest)| ==>
      GoodPiece(AroundMatch(text, |query|, start, pos, rest)[i], query)
  {
    var before := if pos > start then [Plain(text[start..pos])] else [];
    var h := Hit(text[pos..pos + |query|]);
    OccursLowerIffMatches(text, query, pos);
    assert GoodPiece(h, query);
    if pos > start {
      NoMatchFrom(text, query, start, pos);
      assert GoodPiece(before[0], query);
    }
    GoodAppend(before, [h], query);
    GoodAppend(before + [h], rest, query);
  }

  lemma GoodAppend(a: seq<Piece>, b: seq<Piece>, query: string)
    requires forall i :: 0 <= i < |a| ==> GoodPiece(a[i], query)
    requires forall i :: 0 <= i < |b| ==> GoodPiece(b[i], query)
    ensures forall i :: 0 <= i < |a + b| ==> GoodPiece((a + b)[i], query)
  {
  }

  lemma SliceOfSlice(s: string, a: nat, b: nat, i: nat, j: nat)
    requires a <= b <= |s|
    requires i <= j <= b - a
    ensures s[a..b][i..j] == s[a + i..a + j]
  {
    var sub := s[a..b][i..j];
    assert forall n :: 0 <= n < j - i ==> sub[n] == s[a + i + n];
  }

  /**
   When no lower-cased occurrence starts in `[start, end)`, the slice
   `text[start..end]` contains no case-insensitive occurrence.
   */
  lemma NoMatchFrom(text: string, query: string, start: nat, end: nat)
    requires query != []
    requires start <= end <= |text|
    requires NoneIn(Lower(text), Lower(query), start, end)
    ensures !ContainsIgnoringCase(text[start..end], query)
  {
    forall k: nat | MatchesAt(text[start..end], query, k)
      ensures false
    {
      MatchInSlice(text, query, start, end, k);
      OccursLowerIffMatches(text, query, start + k);
    }
  }

  /** A match at `k` in `text[start..end]` is a match at `start + k` in `text`, before `end`. */
  lemma MatchInSlice(text: string, query: string, start: nat, end: nat, k: nat)
    requires query != [] && start <= end <= |text|
    requires MatchesAt(text[start..end], query, k)
    ensures start + k < end && MatchesAt(text, query, start + k)
  {
    SliceOfSlice(text, start, end, k, k + |query|);
  }

  /** `Leftmost` of a piece followed by more pieces, one step unfolded; the piece ends at `next`. */
  lemma LeftmostCons(hay: string, needle: string, pos: nat, next: nat, p: Piece, rest: seq<Piece>)
    requires next == pos + |p.text|
    ensures Leftmost(hay, needle, pos, [p] + rest) <==>
      && (p.Hit? ==> OccursAt(hay, needle, pos))
      && (p.Plain? ==> NoneIn(hay, needle, pos, next) && (rest != [] ==> rest[0].Hit?))
      && Leftmost(hay, needle, next, rest)
  {
    var ps := [p] + rest;
    assert ps[0] == p && ps[1..] == rest;
  }

  /** `AroundMatch` as a first piece followed by the remaining pieces. */
  lemma AroundMatchShape(text: string, n: nat, start: nat, pos: nat, rest: seq<Piece>)
    requires start <= pos && pos + n <= |text|
    ensures pos > start ==>
      AroundMatch(text, n, start, pos, rest) == [Plain(text[start..pos])] + ([Hit(text[pos..pos + n])] + rest)
    ensures pos == start ==> AroundMatch(text, n, start, pos, rest) == [Hit(text[pos..pos + n])] + rest
  {
    var before := if pos > start then [Plain(text[start..pos])] else [];
    var hit := [Hit(text[pos..pos + n])];
    assert before + hit + rest == before + (hit + rest);
    if pos == start {
      assert before + (hit + rest) == hit + rest;
    }
  }

  lemma AroundMatchLeftmost(text: string, hay: string, needle: string, n: nat, start: nat, pos: nat, rest: seq<Piece>)
    requires n == |needle| && start <= pos && pos + n <= |text|
    requires OccursAt(hay, needle, pos) && NoneIn(hay, needle, start, pos)
    requires Leftmost(hay, needle, pos + n, rest)
    ensures Leftmost(hay, needle, start, AroundMatch(text, n, start, pos, rest))
  {
    AroundMatchShape(text, n, start, pos, rest);
    var h := Hit(text[pos..pos + n]);
    var hit := [h] + rest;
    LeftmostCons(hay, needle, pos, pos + n, h, rest);
    if pos > start {
      var plain := Plain(text[start..pos]);
      assert hit[0] == h;
      LeftmostCons(hay, needle, start, pos, plain, hit);
    }
  }

  /** The first piece of a split of `text[pos..]` is the text at `pos`, and the rest splits what follows. */
  lemma PieceTextsHead(text: string, pos: nat, ps: seq<Piece>)
    requires pos <= |text| && ps != [] && PieceTexts(ps) == text[pos..]
    ensures pos + |ps[0].text| <= |text|
    ensures ps[0].text == text[pos..pos + |ps[0].text|]
    ensures PieceTexts(ps[1..]) == text[pos + |ps[0].text|..]
  {
    var a, b := ps[0].text, PieceTexts(ps[1..]);
    assert a + b == text[pos..];
    assert (a + b)[..|a|] == a;
    assert (a + b)[|a|..] == b;
  }

  /** `Pieces` when the search from `start` finds the occurrence at `pos`. */
  lemma PiecesAtMatch(text: string, hay: string, needle: string, start: nat, pos: nat)
    requires needle != [] && |hay| == |text| && start <= |text|
    requires Find(hay, needle, start) == Some(pos)
    ensures pos + |needle| <= |text|
    ensures Pieces(text, hay, needle, start)
         == AroundMatch(text, |needle|, start, pos, Pieces(text, hay, needle, pos + |needle|))
  {
  }

  /** `Pieces` when the search from `start` finds nothing. */
  lemma PiecesAtEnd(text: string, hay: string, needle: string, start: nat)
    requires needle != [] && |hay| == |text| && start <= |text|
    requires Find(hay, needle, start) == None
    ensures Pieces(text, hay, needle, start) == if start < |text| then [Plain(text[start..])] else []
  {
  }

  /**
   `Pieces` is the only leftmost split: any split of `text[pos..]` into
   good pieces along the leftmost occurrences is the one `Pieces` computes.
   */
  lemma {:induction false} LeftmostSplitIsPieces(text: string, query: string, pos: nat, ps: seq<Piece>)
    requires query != [] && pos <= |text|
    requires LeftmostSplit(text, query, pos, ps)
    ensures ps == Pieces(text, Lower(text), Lower(query), pos)
    decreases |ps|
  {
    var hay, needle := Lower(text), Lower(query);
    if ps == [] {
      assert |text[pos..]| == 0;
      assert Find(hay, needle, pos) == None;
      PiecesAtEnd(text, hay, needle, pos);
    } else {
      var p, tail := ps[0], ps[1..];
      var next := pos + |p.text|;
      LeftmostSplitHead(text, query, pos, next, ps);
      LeftmostSplitIsPieces(text, query, next, tail);
      assert ps == [p] + tail;
      FirstPieces(text, hay, needle, pos, next, p, tail);
    }
  }

  /** What a leftmost split says about its first piece, which ends at `next`, and about the pieces after it. */
  lemma LeftmostSplitHead(text: string, query: string, pos: nat, next: nat, ps: seq<Piece>)
    requires query != [] && pos <= |text| && ps != [] && next == pos + |ps[0].text|
    requires LeftmostSplit(text, query, pos, ps)
    ensures next <= |text| && ps[0].text == text[pos..next] && ps[0].text != []
    ensures ps[0].Hit? ==> |ps[0].text| == |Lower(query)| && OccursAt(Lower(text), Lower(query), pos)
    ensures ps[0].Plain? ==> NoneIn(Lower(text), Lower(query), pos, next) && (ps[1..] != [] ==> ps[1].Hit?)
    ensures ps[1..] != [] && ps[1].Hit? ==> OccursAt(Lower(text), Lower(query), next)
    ensures ps[1..] == [] ==> next == |text|
    ensures LeftmostSplit(text, query, next, ps[1..])
  {
    var hay, needle := Lower(text), Lower(query);
    var p, tail := ps[0], ps[1..];
    assert ps == [p] + tail;
    PieceTextsHead(text, pos, ps);
    LeftmostCons(hay, needle, pos, next, p, tail);
    assert GoodPiece(ps[0], query);
    forall i | 0 <= i < |tail|
      ensures GoodPiece(tail[i], query)
    {
      assert tail[i] == ps[i + 1];
    }
    if tail != [] {
      assert tail == [tail[0]] + tail[1..];
      LeftmostCons(hay, needle, next, next + |tail[0].text|, tail[0], tail[1..]);
    } else {
      assert |text[next..]| == 0;
    }
  }

  /**
   One round of `LeftmostSplitIsPieces`: what a leftmost split says about
   its first piece `p`, ending at `next`, and the start of the remaining
   pieces `tail` fixes the first round of `Pieces`.
   */
  lemma FirstPieces(text: string, hay: string, needle: string, pos: nat, next: nat, p: Piece, tail: seq<Piece>)
    requires needle != [] && |hay| == |text| && next == pos + |p.text| && next <= |text|
    requires p.text == text[pos..next] && p.text != []
    requires p.Hit? ==> |p.text| == |needle| && OccursAt(hay, needle, pos)
    requires p.Plain? ==> NoneIn(hay, needle, pos, next) && (tail != [] ==> tail[0].Hit?)
    requires tail != [] && tail[0].Hit? ==> OccursAt(hay, needle, next)
    requires tail == [] ==> next == |text|
    requires tail == Pieces(text, hay, needle, next)
    ensures [p] + tail == Pieces(text, hay, needle, pos)
  {
    match Find(hay, needle, pos)
    case None =>
      FirstPiecesNoMatch(text, hay, needle, pos, next, p, tail);
    case Some(m) =>
      FindFound(hay, needle, pos, m);
      if p.Hit? {
        FirstPiecesHit(text, hay, needle, pos, next, m, p, tail);
      } else {
        FirstPiecesPlain(text, hay, needle, pos, next, m, p, tail);
      }
  }

  lemma FirstPiecesNoMatch(text: string, hay: string, needle: string, pos: nat, next: nat, p: Piece, tail: seq<Piece>)
    requires needle != [] && |hay| == |text| && next == pos + |p.text| && next <= |text|
    requires p.text == text[pos..next] && p.text != []
    requires Find(hay, needle, pos) == None
    requires p.Hit? ==> OccursAt(hay, needle, pos)
    requires tail != [] && p.Plain? ==> OccursAt(hay, needle, next)
    requires tail == [] ==> next == |text|
    ensures [p] + tail == Pieces(text, hay, needle, pos)
  {
    FindMissing(hay, needle, pos);
    PiecesAtEnd(text, hay, needle, pos);
    assert p.Plain? && tail == [];
    assert text[pos..next] == text[pos..];
  }

  lemma FirstPiecesHit(text: string, hay: string, needle: string, pos: nat, next: nat, m: nat, p: Piece, tail: seq<Piece>)
    requires needle != [] && |hay| == |text| && next == pos + |p.text| && next <= |text|
    requires p == Hit(text[pos..next]) && |p.text| == |needle|
    requires Find(hay, needle, pos) == Some(m) && pos <= m && NoneIn(hay, needle, pos, m)
    requires OccursAt(hay, needle, pos)
    requires tail == Pieces(text, hay, needle, next)
    ensures [p] + tail == Pieces(text, hay, needle, pos)
  {
    NoneInExcludes(hay, needle, pos, m, pos);
    PiecesAtHit(text, hay, needle, pos);
  }

  /** When the search from `pos` finds an occurrence right at `pos`, `Pieces` starts with it. */
  lemma PiecesAtHit(text: string, hay: string, needle: string, pos: nat)
    requires needle != [] && |hay| == |text| && pos <= |text|
    requires Find(hay, needle, pos) == Some(pos)
    ensures pos + |needle| <= |text|
    ensures Pieces(text, hay, needle, pos)
         == [Hit(text[pos..pos + |needle|])] + Pieces(text, hay, needle, pos + |needle|)
  {
    PiecesAtMatch(text, hay, needle, pos, pos);
    AroundMatchShape(text, |needle|, pos, pos, Pieces(text, hay, needle, pos + |needle|));
  }

  lemma FirstPiecesPlain(text: string, hay: string, needle: string, pos: nat, next: nat, m: nat, p: Piece, tail: seq<Piece>)
    requires needle != [] && |hay| == |text| && next == pos + |p.text| && next <= |text|
    requires p == Plain(text[pos..next]) && p.text != []
    requires Find(hay, needle, pos) == Some(m) && pos <= m && m + |needle| <= |hay| && NoneIn(hay, needle, pos, m)
    requires OccursAt(hay, needle, m)
    requires NoneIn(hay, needle, pos, next)
    requires tail != [] ==> OccursAt(hay, needle, next)
    requires tail == [] ==> next == |text|
    requires tail == Pieces(text, hay, needle, next)
    ensures [p] + tail == Pieces(text, hay, needle, pos)
  {
    NoneInExcludes(hay, needle, pos, next, m);
    assert tail != [];
    NoneInExcludes(hay, needle, pos, m, next);
    assert Find(hay, needle, m) == Some(m);
    PlainThenMatch(text, hay, needle, pos, m);
  }

  /** When the search from `pos` finds `m > pos`, `Pieces` emits the text in between and then what it emits from `m`. */
  lemma PlainThenMatch(text: string, hay: string, needle: string, pos: nat, m: nat)
    requires needle != [] && |hay| == |text| && pos < m <= |text|
    requires Find(hay, needle, pos) == Some(m) && Find(hay, needle, m) == Some(m)
    ensures Pieces(text, hay, needle, pos) == [Plain(text[pos..m])] + Pieces(text, hay, needle, m)
  {
    var n := |needle|;
    PiecesAtHit(text, hay, needle, m);
    var rest := Pieces(text, hay, needle, m + n);
    PiecesAtMatch(text, hay, needle, pos, m);
    AroundMatchShape(text, n, pos, m, rest);
  }

  // ---------------------------------------------------------------------------
  // Spans and lines
  // ---------------------------------------------------------------------------

  function Contents(spans: seq<Span>): string {
    if spans == [] then [] else spans[0].content + Contents(spans[1..])
  }

  lemma ContentsAppend(a: seq<Span>, b: seq<Span>)
    ensures Contents(a + b) == Contents(a) + Contents(b)
  {
    if a != [] {
      assert (a + b)[0] == a[0];
      assert (a + b)[1..] == a[1..] + b;
      ContentsAppend(a[1..], b);
    } else {
      assert a + b == b;
    }
  }

  /**
   An output span is either a highlighted occurrence of the query, or
   non-matching text that kept the style `origin` of the span it came from.
   */
  predicate WellSplit(s: Span, origin: Style, query: string) {
    && s.content != []
    && ((s.style == MatchStyle && EqualFold(s.content, query))
        || (s.style == origin && !ContainsIgnoringCase(s.content, query)))
  }

  function Styled(ps: seq<Piece>, style: Style): (r: seq<Span>)
    ensures |r| == |ps|
    ensures forall i :: 0 <= i < |ps| ==> r[i].content == ps[i].text
    ensures forall i :: 0 <= i < |ps| ==> r[i].style == (if ps[i].Hit? then MatchStyle else style)
    ensures Contents(r) == PieceTexts(ps)
  {
    if ps == [] then []
    else
      var r := [Span(ps[0].text, if ps[0].Hit? then MatchStyle else style)] + Styled(ps[1..], style);
      assert r[1..] == Styled(ps[1..], style);
      r
  }

  /**
   The spans one input span is split into (the body of the loop at
   highlight.rs:219-238): the span's text cut along the leftmost
   case-insensitive occurrences of the query, occurrences in the match style,
   the rest in the span's own style. By `LeftmostSplitIsPieces` the split
   is the only one with that property.
   */
  function HighlightSpan(span: Span, query: string): seq<Span>
    requires query != []
  {
    Styled(Pieces(span.content, Lower(span.content), Lower(query), 0), span.style)
  }

  /** Splitting a span loses and adds no text. */
  lemma HighlightSpanContents(span: Span, query: string)
    requires query != []
    ensures Contents(HighlightSpan(span, query)) == span.content
  {
    PiecesTexts(span.content, Lower(span.content), Lower(query), 0);
    assert span.content[0..] == span.content;
  }

  /**
   The split of one span is the leftmost split of its text, styled: each
   output span is a highlighted occurrence of the query or non-matching text
   in the span's own style.
   */
  lemma HighlightSpanIsLeftmost(span: Span, query: string)
    requires query != []
    ensures Contents(HighlightSpan(span, query)) == span.content
    ensures forall i :: 0 <= i < |HighlightSpan(span, query)| ==>
      WellSplit(HighlightSpan(span, query)[i], span.style, query)
    ensures exists ps :: LeftmostSplit(span.content, query, 0, ps) && HighlightSpan(span, query) == Styled(ps, span.style)
  {
    PiecesIsLeftmostSplit(span.content, query, 0);
  }

  function Flatten(parts: seq<seq<Span>>): seq<Span> {
    if parts == [] then [] else parts[0] + Flatten(parts[1..])
  }

  function HighlightSpans(spans: seq<Span>, query: string): seq<Span>
    requires query != []
    decreases |spans|
  {
    if spans == [] then [] else HighlightSpan(spans[0], query) + HighlightSpans(spans[1..], query)
  }

  /** Highlighting a line loses and adds no text. */
  lemma {:induction false} HighlightSpansContents(spans: seq<Span>, query: string)
    requires query != []
    ensures Contents(HighlightSpans(spans, query)) == Contents(spans)
    decreases |spans|
  {
    if spans != [] {
      HighlightSpansContents(spans[1..], query);
      HighlightSpanContents(spans[0], query);
      ContentsAppend(HighlightSpan(spans[0], query), HighlightSpans(spans[1..], query));
    }
  }

  /** `s` is well split with respect to the style of one of `spans`. */
  predicate FromSomeSpan(s: Span, spans: seq<Span>, query: string) {
    exists j :: 0 <= j < |spans| && WellSplit(s, spans[j].style, query)
  }

  /** Every output span is well split with respect to the style of some input span. */
  lemma {:induction false} HighlightSpansWellSplit(spans: seq<Span>, query: string)
    requires query != []
    ensures forall i :: 0 <= i < |HighlightSpans(spans, query)| ==>
      FromSomeSpan(HighlightSpans(spans, query)[i], spans, query)
    decreases |spans|
  {
    if spans != [] {
      HighlightSpansWellSplit(spans[1..], query);
      HighlightSpanIsLeftmost(spans[0], query);
      WellSplitConcat(HighlightSpan(spans[0], query), HighlightSpans(spans[1..], query), spans, query);
    }
  }

  lemma WellSplitConcat(head: seq<Span>, tail: seq<Span>, spans: seq<Span>, query: string)
    requires spans != []
    requires forall i :: 0 <= i < |head| ==> WellSplit(head[i], spans[0].style, query)
    requires forall i :: 0 <= i < |tail| ==> FromSomeSpan(tail[i], spans[1..], query)
    ensures forall i :: 0 <= i < |head + tail| ==> FromSomeSpan((head + tail)[i], spans, query)
  {
    var r := head + tail;
    forall i | 0 <= i < |r|
      ensures FromSomeSpan(r[i], spans, query)
    {
      if i < |head| {
        assert r[i] == head[i];
        assert WellSplit(r[i], spans[0].style, query);
      } else {
        var k := i - |head|;
        assert r[i] == tail[k];
        assert FromSomeSpan(tail[k], spans[1..], query);
        var j :| 0 <= j < |spans[1..]| && WellSplit(tail[k], spans[1..][j].style, query);
        assert spans[1..][j] == spans[j + 1];
        assert WellSplit(r[i], spans[j + 1].style, query);
      }
    }
  }

  /** The split of each span on its own, in order. */
  function SplitEach(spans: seq<Span>, query: string): (r: seq<seq<Span>>)
    requires query != []
    ensures |r| == |spans|
    ensures forall j :: 0 <= j < |spans| ==> r[j] == HighlightSpan(spans[j], query)
  {
    seq(|spans|, j requires 0 <= j < |spans| => HighlightSpan(spans[j], query))
  }

  /** The output is the concatenation, in order, of the splits of the input spans. */
  lemma {:induction false} HighlightSpansPerSpan(spans: seq<Span>, query: string)
    requires query != []
    ensures HighlightSpans(spans, query) == Flatten(SplitEach(spans, query))
    decreases |spans|
  {
    if spans != [] {
      var rest := spans[1..];
      HighlightSpansPerSpan(rest, query);
      assert SplitEach(spans, query)[1..] == SplitEach(rest, query);
    }
  }

  /**
   highlight.rs:217-240. The query must be non-empty: with an empty query the
   Rust loop never advances and does not terminate (its only caller,
   src/app/ui.rs:94, checks this).
   */
  function HighlightMatches(line: Line, query: string): (r: Line)
    requires query != []
    ensures Contents(r.spans) == Contents(line.spans)
    ensures forall i :: 0 <= i < |r.spans| ==> FromSomeSpan(r.spans[i], line.spans, query)
    ensures r.spans == Flatten(SplitEach(line.spans, query))
  {
    HighlightSpansContents(line.spans, query);
    HighlightSpansWellSplit(line.spans, query);
    HighlightSpansPerSpan(line.spans, query);
    Line(HighlightSpans(line.spans, query))
  }

  /**
   Spans are split independently: highlighting a line whose spans are
   `a + b` is highlighting `a`, then `b`. In particular no highlighted
   occurrence crosses an original span boundary.
   */
  lemma {:induction false} HighlightSpansAppend(a: seq<Span>, b: seq<Span>, query: string)
    requires query != []
    ensures HighlightSpans(a + b, query) == HighlightSpans(a, query) + HighlightSpans(b, query)
    decreases |a|
  {
    if a == [] {
      assert a + b == b;
    } else {
      var head := HighlightSpan(a[0], query);
      assert (a + b)[0] == a[0];
      assert (a + b)[1..] == a[1..] + b;
      assert HighlightSpans(a + b, query) == head + HighlightSpans(a[1..] + b, query);
      HighlightSpansAppend(a[1..], b, query);
      ConcatAssoc(head, HighlightSpans(a[1..], query), HighlightSpans(b, query));
    }
  }

  lemma ConcatAssoc(x: seq<Span>, y: seq<Span>, z: seq<Span>)
    ensures x + (y + z) == (x + y) + z
  {
  }

  /** A span holding no occurrence of the query passes through unchanged. */
  lemma HighlightSpanNoMatch(span: Span, query: string)
    requires query != []
    requires span.content != []
    requires !ContainsIgnoringCase(span.content, query)
    ensures HighlightSpan(span, query) == [span]
  {
    var text := span.content;
    match Find(Lower(text), Lower(query), 0)
    case None =>
      assert text[0..] == text;
    case Some(pos) =>
      FindFound(Lower(text), Lower(query), 0, pos);
      OccursLowerIffMatches(text, query, pos);
      assert false;
  }

  /**
   A query split across two spans is not highlighted: "fo" + "o" searched for
   "FOO" stays as it was.
   */
  lemma OccurrenceAcrossSpansNotHighlighted(s: Style, t: Style)
    ensures HighlightMatches(Line([Span("fo", s), Span("o", t)]), "FOO")
         == Line([Span("fo", s), Span("o", t)])
  {
    var q := "FOO";
    var a, b := Span("fo", s), Span("o", t);
    assert !ContainsIgnoringCase(a.content, q);
    assert !ContainsIgnoringCase(b.content, q);
    HighlightSpanNoMatch(a, q);
    HighlightSpanNoMatch(b, q);
    calc {
      HighlightSpans([a, b], q);
      HighlightSpan(a, q) + HighlightSpans([a, b][1..], q);
      { assert [a, b][1..] == [b]; }
      [a] + HighlightSpans([b], q);
      { assert [b][1..] == []; }
      [a] + ([b] + []);
      [a, b];
    }
  }

  /** "aXa" searched for "x": the capital X is highlighted and the a's keep their style. */
  lemma HighlightExample(st: Style)
    ensures HighlightSpan(Span("aXa", st), "x") == [Span("a", st), Span("X", MatchStyle), Span("a", st)]
  {
    var text, q := "aXa", "x";
    assert Lower(text) == "axa";
    assert "axa"[0] == 'a';
    assert Lower(q) == "x";
    assert Find("axa", "x", 0) == Some(1) by {
      assert "axa"[0..1] != "x";
      assert "axa"[1..2] == "x";
    }
    assert Find("axa", "x", 2) == None by {
      assert "axa"[2..3] != "x";
    }
    assert Pieces(text, "axa", "x", 2) == [Plain("a")] by {
      assert text[2..] == "a";
    }
    assert Pieces(text, "axa", "x", 0) == [Plain("a"), Hit("X"), Plain("a")] by {
      assert text[0..1] == "a" && text[1..2] == "X";
      assert AroundMatch(text, 1, 0, 1, [Plain("a")]) == [Plain("a"), Hit("X"), Plain("a")];
    }
  }

  // ---------------------------------------------------------------------------
  // Line spacing
  // ---------------------------------------------------------------------------

  /** highlight.rs:242-249: every input line followed by a `" "` line. */
  method AddLineSpacing(lines: seq<Line>) returns (spaced: seq<Line>)
    ensures |spaced| == 2 * |lines|
    ensures forall i :: 0 <= i < |lines| ==> spaced[2 * i] == lines[i]
    ensures forall i :: 0 <= i < |lines| ==> spaced[2 * i + 1] == SpacerLine
  {
    spaced := [];
    for n := 0 to |lines|
      invariant |spaced| == 2 * n
      invariant forall i :: 0 <= i < n ==> spaced[2 * i] == lines[i]
      invariant forall i :: 0 <= i < n ==> spaced[2 * i + 1] == SpacerLine
    {
      spaced := spaced + [lines[n], SpacerLine];
    }
  }
}
