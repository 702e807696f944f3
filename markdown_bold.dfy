/**
 * `renderMarkdownBold`: the inline `**bold**` convention of the project
 * detail pages. The text is cut into lines on '\n'; each line is cut by
 * the capturing regular expression `(\*\*[^*]+\*\*)`, which leaves the
 * unmatched stretches and the matched tokens alternating; every piece
 * that starts and ends with "**" is shown in bold with those markers
 * sliced off, every other piece verbatim; a line break follows every
 * line but the last.
 */
module MarkdownBold {
  import opened Wrappers
  import opened Js

  datatype Segment = Plain(text: string) | Bold(text: string)

  /** One line of output: its segments, and whether a `<br />` follows it. */
  datatype Fragment = Fragment(segments: seq<Segment>, lineBreak: bool)

  /** Concatenation of a sequence of strings, in order. */
  function Concat(pieces: seq<string>): string
  {
    if pieces == [] then "" else pieces[0] + Concat(pieces[1..])
  }

  lemma {:induction false} ConcatAppend(a: seq<string>, b: seq<string>)
    ensures Concat(a + b) == Concat(a) + Concat(b)
  {
    if a == [] {
      assert a + b == b;
    } else {
      assert (a + b)[0] == a[0];
      assert (a + b)[1..] == a[1..] + b;
      ConcatAppend(a[1..], b);
    }
  }

  // ---------------------------------------------------------------------
  // The regular expression (\*\*[^*]+\*\*)
  // ---------------------------------------------------------------------

  /**
   * A token the expression can match: "**", then a non-empty run of
   * characters other than '*', then "**".
   */
  predicate IsToken(t: string)
  {
    && |t| >= 5
    && t[0] == '*' && t[1] == '*'
    && t[|t| - 2] == '*' && t[|t| - 1] == '*'
    && forall k :: 2 <= k < |t| - 2 ==> t[k] != '*'
  }

  /** The end of the maximal run of characters other than '*' from `i`. */
  function RunEnd(s: string, i: nat): (j: nat)
    requires i <= |s|
    ensures i <= j <= |s|
    ensures forall k :: i <= k < j ==> s[k] != '*'
    ensures j == |s| || s[j] == '*'
    decreases |s| - i
  {
    if i < |s| && s[i] != '*' then RunEnd(s, i + 1) else i
  }

  /** Any index closing a '*'-free run from `i` at a '*' or at the end is RunEnd's. */
  lemma RunEndUnique(s: string, i: nat, j: nat)
    requires i <= j <= |s|
    requires forall k :: i <= k < j ==> s[k] != '*'
    requires j == |s| || s[j] == '*'
    ensures RunEnd(s, i) == j
  {
  }

  /**
   * The sticky attempt of the expression at position `q`: where the match
   * ends, if there is one. Because `[^*]+` cannot consume a '*', the only
   * way to match is to take the whole run and then find "**" right after.
   */
  function MatchAt(s: string, q: nat): (m: Option<nat>)
    requires q <= |s|
    ensures m.Some? ==> q + 5 <= m.value <= |s| && IsToken(s[q..m.value])
  {
    if q + 2 <= |s| && s[q] == '*' && s[q + 1] == '*' then
      var j := RunEnd(s, q + 2);
      if q + 2 < j && j + 2 <= |s| && s[j] == '*' && s[j + 1] == '*' then Some(j + 2) else None
    else None
  }

  /** A token sitting at position `q` of `s` is exactly what the expression matches there. */
  lemma TokenMatches(s: string, q: nat, t: string)
    requires q + |t| <= |s| && s[q..q + |t|] == t && IsToken(t)
    ensures MatchAt(s, q) == Some(q + |t|)
  {
    assert forall k :: q + 2 <= k < q + |t| - 2 ==> s[k] == t[k - q];
    RunEndUnique(s, q + 2, q + |t| - 2);
  }

  /** Matching in a suffix is matching in the whole string, shifted. */
  lemma MatchAtSuffix(s: string, p: nat, r: nat)
    requires p + r <= |s|
    ensures MatchAt(s[p..], r).None? <==> MatchAt(s, p + r).None?
  {
    var t := s[p..];
    if r + 2 <= |t| && t[r] == '*' && t[r + 1] == '*' {
      var j := RunEnd(s, p + r + 2);
      RunEndUnique(t, r + 2, j - p);
    }
  }

  // ---------------------------------------------------------------------
  // line.split(/(\*\*[^*]+\*\*)/g)
  // ---------------------------------------------------------------------

  /**
   * The splitting loop of `String.prototype.split` with a regular
   * expression: `p` is where the current unmatched stretch began, `q` the
   * position being probed. A match at `q` closes the stretch, contributes
   * itself (the capturing group is the whole match), and scanning resumes
   * at its end; otherwise the probe moves one character on. The last
   * stretch is always emitted, possibly empty.
   */
  function SplitFrom(s: string, p: nat, q: nat): seq<string>
    requires p <= q <= |s|
    decreases |s| - q
  {
    if q == |s| then [s[p..]]
    else match MatchAt(s, q)
      case Some(e) => [s[p..q], s[q..e]] + SplitFrom(s, e, e)
      case None => SplitFrom(s, p, q + 1)
  }

  /**
   * The loop from `p`, `q` covers `s[p..]` exactly, with an odd number of
   * pieces and a token at every odd position.
   */
  lemma {:induction false} SplitFromLossless(s: string, p: nat, q: nat)
    requires p <= q <= |s|
    ensures |SplitFrom(s, p, q)| % 2 == 1
    ensures Concat(SplitFrom(s, p, q)) == s[p..]
    ensures forall i :: 0 <= i < |SplitFrom(s, p, q)| && i % 2 == 1 ==> IsToken(SplitFrom(s, p, q)[i])
    decreases |s| - q
  {
    if q == |s| {
      assert Concat([s[p..]]) == s[p..] + Concat([]);
    } else if MatchAt(s, q).Some? {
      var e := MatchAt(s, q).value;
      var rest := SplitFrom(s, e, e);
      SplitFromLossless(s, e, e);
      ConcatCons(s[p..q], s[q..e], rest);
      assert s[p..] == s[p..q] + s[q..e] + s[e..];
      var pieces := [s[p..q], s[q..e]] + rest;
      assert SplitFrom(s, p, q) == pieces;
      assert forall i :: 2 <= i < |pieces| ==> pieces[i] == rest[i - 2];
    } else {
      SplitFromLossless(s, p, q + 1);
    }
  }

  /** `line.split(/(\*\*[^*]+\*\*)/g)`. */
  function SplitLine(line: string): seq<string>
  {
    SplitFrom(line, 0, 0)
  }

  /**
   * The split loses nothing: the pieces concatenate to the line, they
   * alternate between unmatched stretches and tokens, and each token is
   * "**" + a non-empty, '*'-free text + "**".
   */
  lemma SplitLineLossless(line: string)
    ensures Concat(SplitLine(line)) == line
    ensures |SplitLine(line)| % 2 == 1
    ensures forall i :: 0 <= i < |SplitLine(line)| && i % 2 == 1 ==> IsToken(SplitLine(line)[i])
  {
    assert line[0..] == line;
    SplitFromLossless(line, 0, 0);
  }

  /** No match of the expression starts at any of the first `n` positions of `t`. */
  ghost predicate NoMatchBefore(t: string, n: nat)
  {
    forall r :: 0 <= r < n && r <= |t| ==> MatchAt(t, r).None?
  }

  /** Every odd-numbered piece is a token. */
  ghost predicate TokensAtOdd(ps: seq<string>)
  {
    forall i :: 0 <= i < |ps| && i % 2 == 1 ==> IsToken(ps[i])
  }

  /** No match starts inside an even-numbered (unmatched) piece, given the text after it. */
  ghost predicate NoMatchInStretches(ps: seq<string>)
  {
    forall i :: 0 <= i < |ps| && i % 2 == 0 ==> NoMatchBefore(Concat(ps[i..]), |ps[i]|)
  }

  /**
   * The leftmost tokenisation of `s`, stated without the scanning loop:
   * an odd number of pieces that concatenate to `s`, tokens at the odd
   * positions, and no match beginning inside any unmatched piece.
   */
  ghost predicate IsLeftmostSplit(s: string, ps: seq<string>)
  {
    && |ps| % 2 == 1
    && Concat(ps) == s
    && TokensAtOdd(ps)
    && NoMatchInStretches(ps)
  }

  /** A single piece is a leftmost split exactly when it contains no match. */
  lemma LeftmostSingle(s: string)
    ensures IsLeftmostSplit(s, [s]) <==> NoMatchBefore(s, |s|)
  {
    assert Concat([s]) == s + Concat([]);
    assert [s][0..] == [s];
  }

  /** Two pieces in front of a list concatenate in front of its concatenation. */
  lemma ConcatCons(a: string, t: string, rest: seq<string>)
    ensures Concat([a, t] + rest) == a + t + Concat(rest)
  {
    ConcatAppend([a, t], rest);
    assert Concat([a, t]) == a + (t + Concat([]));
  }

  lemma ConsTokens(a: string, t: string, rest: seq<string>)
    requires IsToken(t) && TokensAtOdd(rest)
    ensures TokensAtOdd([a, t] + rest)
  {
    var ps := [a, t] + rest;
    forall i | 0 <= i < |ps| && i % 2 == 1 ensures IsToken(ps[i]) {
      if i >= 2 { assert ps[i] == rest[i - 2]; }
    }
  }

  lemma ConsStretches(a: string, t: string, rest: seq<string>)
    requires NoMatchBefore(a + t + Concat(rest), |a|) && NoMatchInStretches(rest)
    ensures NoMatchInStretches([a, t] + rest)
  {
    var ps := [a, t] + rest;
    ConcatCons(a, t, rest);
    forall i | 0 <= i < |ps| && i % 2 == 0 ensures NoMatchBefore(Concat(ps[i..]), |ps[i]|) {
      if i == 0 {
        assert ps[0..] == ps;
      } else {
        assert ps[i..] == rest[i - 2..];
        assert ps[i] == rest[i - 2];
      }
    }
  }

  /** An unmatched stretch and a token in front of a leftmost split give a leftmost split. */
  lemma LeftmostCons(a: string, t: string, rest: seq<string>)
    requires IsToken(t)
    requires NoMatchBefore(a + t + Concat(rest), |a|)
    requires IsLeftmostSplit(Concat(rest), rest)
    ensures IsLeftmostSplit(a + t + Concat(rest), [a, t] + rest)
  {
    ConcatCons(a, t, rest);
    ConsTokens(a, t, rest);
    ConsStretches(a, t, rest);
  }

  /** The converse: a leftmost split of three or more pieces is built that way. */
  lemma LeftmostTail(s: string, ps: seq<string>)
    requires IsLeftmostSplit(s, ps) && |ps| >= 3
    ensures s == ps[0] + ps[1] + Concat(ps[2..])
    ensures IsToken(ps[1]) && NoMatchBefore(s, |ps[0]|)
    ensures IsLeftmostSplit(Concat(ps[2..]), ps[2..])
  {
    assert ps == [ps[0], ps[1]] + ps[2..];
    ConcatAppend([ps[0], ps[1]], ps[2..]);
    assert Concat([ps[0], ps[1]]) == ps[0] + (ps[1] + Concat([]));
    assert ps[0..] == ps;
    var tl := ps[2..];
    forall i | 0 <= i < |tl| && i % 2 == 1 ensures IsToken(tl[i]) {
      assert tl[i] == ps[i + 2];
    }
    forall i | 0 <= i < |tl| && i % 2 == 0 ensures NoMatchBefore(Concat(tl[i..]), |tl[i]|) {
      assert tl[i..] == ps[i + 2..];
      assert tl[i] == ps[i + 2];
    }
  }

  lemma {:induction false} SplitFromLeftmost(s: string, p: nat, q: nat)
    requires p <= q <= |s|
    requires NoMatchBefore(s[p..], q - p)
    ensures IsLeftmostSplit(s[p..], SplitFrom(s, p, q))
    decreases |s| - q
  {
    if q == |s| {
      LeftmostSingle(s[p..]);
    } else if MatchAt(s, q).Some? {
      var e := MatchAt(s, q).value;
      assert SplitFrom(s, p, q) == [s[p..q], s[q..e]] + SplitFrom(s, e, e);
      SplitFromLeftmost(s, e, e);
      StretchThenToken(s, p, q, e, SplitFrom(s, e, e));
    } else {
      assert SplitFrom(s, p, q) == SplitFrom(s, p, q + 1);
      MatchAtSuffix(s, p, q - p);
      NoMatchExtend(s[p..], q - p);
      SplitFromLeftmost(s, p, q + 1);
    }
  }

  /** One more probe position without a match extends a match-free prefix. */
  lemma NoMatchExtend(t: string, n: nat)
    requires n < |t| && NoMatchBefore(t, n) && MatchAt(t, n).None?
    ensures NoMatchBefore(t, n + 1)
  {
  }

  lemma StretchThenToken(s: string, p: nat, q: nat, e: nat, rest: seq<string>)
    requires p <= q < e <= |s| && IsToken(s[q..e])
    requires NoMatchBefore(s[p..], q - p)
    requires IsLeftmostSplit(s[e..], rest)
    ensures IsLeftmostSplit(s[p..], [s[p..q], s[q..e]] + rest)
  {
    assert s[p..] == s[p..q] + s[q..e] + s[e..];
    LeftmostCons(s[p..q], s[q..e], rest);
  }

  /** The split of each line is its leftmost tokenisation. */
  lemma SplitLineIsLeftmost(line: string)
    ensures IsLeftmostSplit(line, SplitLine(line))
  {
    assert line[0..] == line;
    SplitFromLeftmost(line, 0, 0);
  }

  /** Two leftmost splits of one string start with the same unmatched stretch. */
  lemma LeftmostHeadLength(s: string, ps: seq<string>, qs: seq<string>)
    requires IsLeftmostSplit(s, ps) && IsLeftmostSplit(s, qs)
    ensures |ps[0]| <= |qs[0]|
  {
    assert Concat(ps) == ps[0] + Concat(ps[1..]);
    assert Concat(qs) == qs[0] + Concat(qs[1..]);
    assert |qs| == 1 ==> qs[1..] == [];
    assert ps[0..] == ps;
    if |qs[0]| < |ps[0]| {
      if |qs| == 1 {
        assert false;
      } else {
        LeftmostTail(s, qs);
        TokenMatches(s, |qs[0]|, qs[1]);
        assert false;
      }
    }
  }

  /** A line has only one leftmost tokenisation. */
  lemma {:induction false} LeftmostSplitUnique(s: string, ps: seq<string>, qs: seq<string>)
    requires IsLeftmostSplit(s, ps) && IsLeftmostSplit(s, qs)
    ensures ps == qs
    decreases |ps|
  {
    LeftmostHeadLength(s, ps, qs);
    LeftmostHeadLength(s, qs, ps);
    assert Concat(ps) == ps[0] + Concat(ps[1..]);
    assert Concat(qs) == qs[0] + Concat(qs[1..]);
    assert ps[0] == s[..|ps[0]|] == qs[0];
    if |ps| == 1 && |qs| == 1 {
    } else if |ps| == 1 {
      LeftmostTail(s, qs);
      assert false;
    } else if |qs| == 1 {
      LeftmostTail(s, ps);
      assert false;
    } else {
      LeftmostTail(s, ps);
      LeftmostTail(s, qs);
      var k := |ps[0]|;
      TokenMatches(s, k, ps[1]);
      TokenMatches(s, k, qs[1]);
      assert ps[1] == qs[1];
      LeftmostSplitUnique(Concat(ps[2..]), ps[2..], qs[2..]);
      assert ps == [ps[0], ps[1]] + ps[2..];
      assert qs == [qs[0], qs[1]] + qs[2..];
    }
  }

  /** The split of a line is exactly its leftmost tokenisation. */
  lemma SplitLineCharacterized(line: string, ps: seq<string>)
    ensures SplitLine(line) == ps <==> IsLeftmostSplit(line, ps)
  {
    SplitLineIsLeftmost(line);
    if IsLeftmostSplit(line, ps) {
      LeftmostSplitUnique(line, SplitLine(line), ps);
    }
  }

  /** A line splits into the single piece `line` exactly when no match starts anywhere in it. */
  lemma SplitLineWithoutMatch(line: string)
    ensures SplitLine(line) == [line] <==> forall r :: 0 <= r < |line| ==> MatchAt(line, r).None?
  {
    LeftmostSingle(line);
    SplitLineCharacterized(line, [line]);
  }

  // ---------------------------------------------------------------------
  // Classification and the whole rendering
  // ---------------------------------------------------------------------

  /** `part.startsWith('**') && part.endsWith('**')` selects bold, shown as `part.slice(2, -2)`. */
  function Classify(part: string): (seg: Segment)
    ensures seg.Bold? <==> |part| >= 2 && part[..2] == "**" && part[|part| - 2..] == "**"
    ensures seg.Bold? ==> seg.text == if |part| >= 4 then part[2..|part| - 2] else ""
    ensures seg.Plain? ==> seg.text == part
  {
    if StartsWith(part, "**") && EndsWith(part, "**") then Bold(Slice(part, 2, -2)) else Plain(part)
  }

  /** A matched token is shown in bold as its inner text, which is non-empty and has no '*'. */
  lemma ClassifyToken(t: string)
    requires IsToken(t)
    ensures Classify(t).Bold?
    ensures "**" + Classify(t).text + "**" == t
    ensures |Classify(t).text| >= 1 && '*' !in Classify(t).text
  {
    var w := Classify(t).text;
    assert w == t[2..|t| - 2];
    assert forall k :: 0 <= k < |w| ==> w[k] == t[k + 2];
    assert t == t[..2] + w + t[|t| - 2..];
  }

  /** All pieces of one line, classified in order. */
  function RenderLine(line: string): (segs: seq<Segment>)
    ensures |segs| == |SplitLine(line)| && |segs| % 2 == 1
  {
    SplitLineLossless(line);
    var parts := SplitLine(line);
    seq(|parts|, i requires 0 <= i < |parts| => Classify(parts[i]))
  }

  /** `renderMarkdownBold(text)`. */
  function RenderMarkdownBold(text: string): (out: seq<Fragment>)
    ensures |out| == Count('\n', text) + 1
    ensures forall i :: 0 <= i < |out| ==> (out[i].lineBreak <==> i < |out| - 1)
    ensures forall i :: 0 <= i < |out| ==> |out[i].segments| % 2 == 1
  {
    var lines := Split(text, '\n');
    seq(|lines|, i requires 0 <= i < |lines| => Fragment(RenderLine(lines[i]), i < |lines| - 1))
  }

  /** Number of line breaks in the output. */
  function BreakCount(out: seq<Fragment>): nat
  {
    if out == [] then 0 else (if out[0].lineBreak then 1 else 0) + BreakCount(out[1..])
  }

  lemma {:induction false} BreakCountAllButLast(out: seq<Fragment>)
    requires forall i :: 0 <= i < |out| ==> (out[i].lineBreak <==> i < |out| - 1)
    ensures BreakCount(out) == if out == [] then 0 else |out| - 1
  {
    if out != [] {
      var tl := out[1..];
      assert forall i :: 0 <= i < |tl| ==> tl[i] == out[i + 1];
      BreakCountAllButLast(tl);
    }
  }

  /** One line break is emitted per '\n' of the text. */
  lemma BreaksMatchNewlines(text: string)
    ensures BreakCount(RenderMarkdownBold(text)) == Count('\n', text)
  {
    BreakCountAllButLast(RenderMarkdownBold(text));
  }

  /**
   * Each output line is the classified split of the corresponding input
   * line: tokens become their inner text in bold, and an unmatched piece
   * is kept verbatim unless it starts and ends with "**".
   */
  lemma RenderedLine(text: string, i: nat)
    requires i < |Split(text, '\n')|
    ensures var line := Split(text, '\n')[i];
            var segs := RenderMarkdownBold(text)[i].segments;
            && '\n' !in line
            && |segs| == |SplitLine(line)|
            && (forall j :: 0 <= j < |segs| ==> segs[j] == Classify(SplitLine(line)[j]))
            && (forall j :: 0 <= j < |segs| && j % 2 == 1 ==>
                  segs[j].Bold? && "**" + segs[j].text + "**" == SplitLine(line)[j])
            && (forall j :: 0 <= j < |segs| && j % 2 == 0 && segs[j].Plain? ==>
                  segs[j].text == SplitLine(line)[j])
  {
    var line := Split(text, '\n')[i];
    SplitLineLossless(line);
    var segs := RenderMarkdownBold(text)[i].segments;
    forall j | 0 <= j < |segs| && j % 2 == 1
      ensures segs[j].Bold? && "**" + segs[j].text + "**" == SplitLine(line)[j]
    {
      ClassifyToken(SplitLine(line)[j]);
    }
  }

  /** Text without any '*' comes out as one plain segment per line, unchanged. */
  lemma NoDelimitersStayPlain(text: string)
    requires '*' !in text
    ensures forall i :: 0 <= i < |RenderMarkdownBold(text)| ==>
      RenderMarkdownBold(text)[i].segments == [Plain(Split(text, '\n')[i])]
  {
    var lines := Split(text, '\n');
    forall i | 0 <= i < |lines|
      ensures RenderMarkdownBold(text)[i].segments == [Plain(lines[i])]
    {
      JoinedPieceIn(lines, '\n', i, '*');
      LineWithoutStar(lines[i]);
    }
  }

  /** A line without '*' is one plain segment. */
  lemma LineWithoutStar(line: string)
    requires '*' !in line
    ensures RenderLine(line) == [Plain(line)]
  {
    forall r | 0 <= r < |line| ensures MatchAt(line, r).None? {
      assert line[r] != '*';
    }
    SplitLineWithoutMatch(line);
    assert |line| >= 2 ==> line[0] != '*';
  }

  lemma {:induction false} CountAbsent(c: char, s: string)
    requires c !in s
    ensures Count(c, s) == 0
  {
    if s != [] {
      assert s[0] != c;
      CountAbsent(c, s[1..]);
    }
  }

  /** Text without '\n' is a single line, with no line break after it. */
  lemma SingleLine(text: string)
    requires '\n' !in text
    ensures RenderMarkdownBold(text) == [Fragment(RenderLine(text), false)]
  {
    CountAbsent('\n', text);
    var lines := Split(text, '\n');
    assert |lines| == 1;
    assert lines == [text];
  }

  /** A character absent from the joined text is absent from each piece. */
  lemma {:induction false} JoinedPieceIn(pieces: seq<string>, c: char, i: nat, x: char)
    requires i < |pieces| && x !in Join(pieces, c)
    ensures x !in pieces[i]
  {
    if |pieces| > 1 {
      assert Join(pieces, c) == pieces[0] + [c] + Join(pieces[1..], c);
      if i > 0 {
        JoinedPieceIn(pieces[1..], c, i - 1, x);
      }
    }
  }

  /** The line of a no-'*' piece, one token and a no-'*' piece splits into those three. */
  lemma OneSpanSplit(x: string, w: string, y: string)
    requires '*' !in x && '*' !in y && '*' !in w && w != ""
    ensures SplitLine(x + "**" + w + "**" + y) == [x, "**" + w + "**", y]
  {
    var t := "**" + w + "**";
    var line := x + t + y;
    assert line == x + "**" + w + "**" + y;
    assert forall k :: 2 <= k < |t| - 2 ==> t[k] == w[k - 2];
    assert IsToken(t);
    assert line[|x|..|x| + |t|] == t;
    forall r | 0 <= r < |x| ensures MatchAt(line, r).None? {
      assert line[r] == x[r];
    }
    forall r | 0 <= r < |y| ensures MatchAt(y, r).None? {
      assert y[r] != '*';
    }
    LeftmostSingle(y);
    assert Concat([y]) == y + Concat([]);
    LeftmostCons(x, t, [y]);
    assert [x, t] + [y] == [x, t, y];
    SplitLineCharacterized(line, [x, t, y]);
  }

  /** Such a line renders as plain `x`, bold `w`, plain `y`. */
  lemma OneSpanRendered(x: string, w: string, y: string)
    requires '*' !in x && '*' !in y && '*' !in w && w != ""
    ensures RenderLine(x + "**" + w + "**" + y) == [Plain(x), Bold(w), Plain(y)]
  {
    OneSpanSplit(x, w, y);
    var t := "**" + w + "**";
    assert forall k :: 2 <= k < |t| - 2 ==> t[k] == w[k - 2];
    ClassifyToken(t);
    assert t[2..|t| - 2] == w;
    assert |x| >= 2 ==> x[0] != '*';
    assert |y| >= 2 ==> y[|y| - 1] != '*';
  }

  /**
   * A lone "**" that nothing closes is kept as literal text: the line is
   * one plain segment, asterisks included (unless the line is just "**").
   */
  lemma UnclosedMarkerKept(x: string, y: string)
    requires '*' !in x && '*' !in y && (x != "" || y != "")
    ensures RenderLine(x + "**" + y) == [Plain(x + "**" + y)]
  {
    var line := x + "**" + y;
    UnclosedNoMatch(x, y);
    SplitLineWithoutMatch(line);
    assert RenderLine(line) == [Classify(line)];
    if x != "" {
      assert line[0] == x[0];
    } else {
      assert line[|line| - 1] == y[|y| - 1];
    }
  }

  /** No match starts anywhere in `x + "**" + y` when `x` and `y` have no '*'. */
  lemma UnclosedNoMatch(x: string, y: string)
    requires '*' !in x && '*' !in y
    ensures forall r :: 0 <= r < |x + "**" + y| ==> MatchAt(x + "**" + y, r).None?
  {
    var line := x + "**" + y;
    forall r | 0 <= r < |line| ensures MatchAt(line, r).None? {
      if r == |x| && r + 2 <= |line| {
        assert forall k :: r + 2 <= k < |line| ==> line[k] == y[k - r - 2];
        RunEndUnique(line, r + 2, |line|);
      } else if r < |x| {
        assert line[r] == x[r];
      } else if r > |x| + 1 {
        assert line[r] == y[r - |x| - 2];
      } else {
        assert r == |x| + 1 && (r + 1 < |line| ==> line[r + 1] == y[0]);
      }
    }
  }


  /** `"a **b** c"` renders as plain "a ", bold "b", plain " c". */
  lemma ExampleBoldWord(text: string)
    requires text == "a **b** c"
    ensures RenderMarkdownBold(text) == [Fragment([Plain("a "), Bold("b"), Plain(" c")], false)]
  {
    var x, w, y := text[..2], text[4..5], text[7..];
    assert text == x + "**" + w + "**" + y;
    OneSpanRendered(x, w, y);
    assert x == "a " && w == "b" && y == " c";
    SingleLine(text);
  }

  /** `"a **b"` has no closing marker: the whole line is one plain segment, asterisks included. */
  lemma ExampleUnterminated(text: string)
    requires text == "a **b"
    ensures RenderMarkdownBold(text) == [Fragment([Plain("a **b")], false)]
  {
    var x, y := text[..2], text[4..];
    assert text == x + "**" + y;
    UnclosedMarkerKept(x, y);
    SingleLine(text);
  }

  /**
   * A line `"**" + u + "*" + v + "**"` with '*'-free, non-empty `u` and
   * `v` contains no match, yet its single piece starts and ends with
   * "**", so it is shown in bold as `u + "*" + v`.
   */
  lemma StarInsideShownBold(u: string, v: string)
    requires '*' !in u && '*' !in v && u != "" && v != ""
    ensures RenderLine("**" + u + "*" + v + "**") == [Bold(u + "*" + v)]
  {
    var line := "**" + u + "*" + v + "**";
    StarInsideNoMatch(u, v);
    SplitLineWithoutMatch(line);
    assert RenderLine(line) == [Classify(line)];
    ShownBoldInner(line);
    assert line[2..|line| - 2] == u + "*" + v;
  }

  /** No match starts anywhere in `"**" + u + "*" + v + "**"`: the lone '*' cuts every run short. */
  lemma StarInsideNoMatch(u: string, v: string)
    requires '*' !in u && '*' !in v && u != "" && v != ""
    ensures forall r :: 0 <= r < |"**" + u + "*" + v + "**"| ==> MatchAt("**" + u + "*" + v + "**", r).None?
  {
    var line := "**" + u + "*" + v + "**";
    var m := |u| + 2;
    assert forall k :: 2 <= k < m ==> line[k] == u[k - 2];
    assert forall k :: m < k < |line| - 2 ==> line[k] == v[k - m - 1];
    forall r | 0 <= r < |line| ensures MatchAt(line, r).None? {
      if r == 0 {
        RunEndUnique(line, 2, m);
        assert line[m + 1] == v[0];
      } else if r == 1 {
        assert line[2] == u[0];
      } else if r == m {
        assert line[m + 1] == v[0];
      } else if r < |line| - 2 {
        assert line[r] != '*';
      }
    }
  }


  /** `"**a*b**"` is not matched, yet it is shown in bold as "a*b". */
  lemma ExampleUnmatchedShownBold(line: string)
    requires line == "**a*b**"
    ensures RenderMarkdownBold(line) == [Fragment([Bold("a*b")], false)]
  {
    var u, v := line[2..3], line[4..5];
    assert line == "**" + u + "*" + v + "**";
    assert u == "a" && v == "b";
    StarInsideShownBold(u, v);
    assert u + "*" + v == "a*b";
    SingleLine(line);
  }

  /** A piece that starts and ends with "**" and has at least four characters is bold with its inner text. */
  lemma ShownBoldInner(part: string)
    requires |part| >= 4 && part[..2] == "**" && part[|part| - 2..] == "**"
    ensures Classify(part) == Bold(part[2..|part| - 2])
  {
  }
}
