/** The wrapped lines: which tokens of the content each of them shows, and what the text as a whole keeps. */
module Wrapping {
  import opened Thoughts

  // ---------- the wrapped lines ----------

  ghost function LinesSolid(lines: seq<string>): seq<Token> {
    if lines == [] then [] else LinesSolid(lines[..|lines| - 1]) + Solid(Tokens(lines[|lines| - 1]))
  }

  /** Within the width, nothing but what is of the line, each continuation indented and coloured like the last. */
  ghost predicate GoodLines(lines: seq<string>, content: string, w: nat) {
    lines == [] ||
    (GoodLines(lines[..|lines| - 1], content, w) && Fits(lines[|lines| - 1], content, w) &&
     (|lines| > 1 ==> Continues(lines[|lines| - 2], lines[|lines| - 1], content, w)))
  }

  ghost predicate Fits(line: string, content: string, w: nat) {
    |Glyphs(Tokens(line))| <= w && forall t :: t in Tokens(line) ==> t == BLANK || t in Tokens(content)
  }

  ghost predicate Continues(line: string, next: string, content: string, w: nat) {
    Spaces(Indent(w)) + CarryText(line, content) <= next
  }

  lemma GoodLinesAppend(lines: seq<string>, line: string, content: string, w: nat, pad: nat, piece: string)
    requires GoodLines(lines, content, w) && w >= 1 && line == Spaces(pad) + piece
    requires pad == (if lines == [] then 0 else Indent(w))
    requires lines != [] ==> CarryText(lines[|lines| - 1], content) <= piece
    requires Within(Tokens(piece), Tokens(content)) && |Glyphs(Tokens(piece))| <= w - pad
    ensures GoodLines(lines + [line], content, w)
    ensures LinesSolid(lines + [line]) == LinesSolid(lines) + Solid(Tokens(piece))
    ensures CarryText(line, content) == CarryText(piece, content)
  {
    PaddedFits(pad, piece, content, w);
    IndentKeepsColors(pad, piece);
    assert (lines + [line])[..|lines|] == lines;
    GoodLinesSnoc(lines, line, content, w);
  }

  lemma PaddedFits(pad: nat, piece: string, content: string, w: nat)
    requires Within(Tokens(piece), Tokens(content)) && pad + |Glyphs(Tokens(piece))| <= w
    ensures Fits(Spaces(pad) + piece, content, w)
    ensures Solid(Tokens(Spaces(pad) + piece)) == Solid(Tokens(piece))
  {
    TokensOfSpaces(pad);
    IndentedLine(pad, piece);
  }

  lemma GoodLinesSnoc(lines: seq<string>, line: string, content: string, w: nat)
    requires GoodLines(lines, content, w) && Fits(line, content, w)
    requires lines != [] ==> Continues(lines[|lines| - 1], line, content, w)
    ensures GoodLines(lines + [line], content, w)
  {
    assert (lines + [line])[..|lines|] == lines;
  }

  lemma {:induction false} GoodLinesFitEach(lines: seq<string>, content: string, w: nat, i: nat)
    requires GoodLines(lines, content, w) && i < |lines|
    ensures Fits(lines[i], content, w)
    decreases |lines|
  {
    if i < |lines| - 1 {
      GoodLinesFitEach(lines[..|lines| - 1], content, w, i);
    }
  }

  /** What remains is of the line, and starts with the codes carried from the last line. */
  ghost predicate Carried(lines: seq<string>, remaining: string, content: string) {
    Within(Tokens(remaining), Tokens(content)) &&
    (lines != [] ==> Carry(Tokens(lines[|lines| - 1]), Tokens(content)) <= Tokens(remaining))
  }

  function PadOf(lines: seq<string>, w: nat): nat {
    if lines == [] then 0 else Indent(w)
  }

  lemma LastTurn(lines: seq<string>, remaining: string, content: string, w: nat)
    requires w >= 1 && GoodLines(lines, content, w) && Carried(lines, remaining, content)
    requires |Visible(remaining)| <= w - PadOf(lines, w)
    ensures var more := lines + [Spaces(PadOf(lines, w)) + remaining];
      GoodLines(more, content, w) && LinesSolid(more) == LinesSolid(lines) + Solid(Tokens(remaining))
  {
    VisibleBounds(remaining);
    if lines != [] {
      PrefixText(Carry(Tokens(lines[|lines| - 1]), Tokens(content)), remaining);
    }
    GoodLinesAppend(lines, Spaces(PadOf(lines, w)) + remaining, content, w, PadOf(lines, w), remaining);
  }

  lemma PrefixText(carry: seq<Token>, s: string)
    requires carry <= Tokens(s)
    ensures Text(carry) <= s
  {
    TextPrefix(carry, Tokens(s));
    TextOfTokens(s);
  }

  lemma TextPrefix(carry: seq<Token>, ts: seq<Token>)
    requires carry <= ts
    ensures Text(carry) <= Text(ts)
  {
    assert ts == carry + ts[|carry|..];
    TextConcat(carry, ts[|carry|..]);
  }

  /** A turn leaves the carried codes in its first piece. */
  lemma SplitKeepsCodes(carry: seq<Token>, remaining: string, limit: nat, before: string, after: string)
    requires Parts(remaining, limit, before, after) && limit >= 1
    requires carry <= Tokens(remaining) && forall t :: t in carry ==> t.Escape?
    ensures Text(carry) <= before
  {
    var ts := Tokens(remaining);
    if |Glyphs(ts)| < limit {
      PrefixText(carry, remaining);
    } else {
      var n :| 0 <= n <= |ts| && CutPoint(ts, limit, n) && before == Text(ts[..n]) && after == LStrip(Text(ts[n..]));
      CutAfterCodes(carry, ts, limit, n);
      TextPrefix(carry, ts[..n]);
    }
  }

  lemma CutAfterCodes(carry: seq<Token>, ts: seq<Token>, limit: nat, n: nat)
    requires n <= |ts| && CutPoint(ts, limit, n)
    requires carry <= ts && forall t :: t in carry ==> t.Escape?
    ensures |carry| <= n
  {
    forall k | 0 <= k < |carry| ensures ts[k].Escape? {
      assert ts[k] == carry[k] && carry[k] in carry;
    }
  }

  lemma PieceKeepsCarry(lines: seq<string>, remaining: string, content: string, limit: nat, before: string,
                        after: string)
    requires limit >= 1 && Carried(lines, remaining, content) && Parts(remaining, limit, before, after)
    ensures lines != [] ==> CarryText(lines[|lines| - 1], content) <= before
  {
    if lines != [] {
      var carry := Carry(Tokens(lines[|lines| - 1]), Tokens(content));
      CarryIsCodes(Tokens(lines[|lines| - 1]), Tokens(content));
      SplitKeepsCodes(carry, remaining, limit, before, after);
    }
  }

  lemma NextTurn(lines: seq<string>, remaining: string, content: string, w: nat, before: string, after: string)
    requires w >= 1 && GoodLines(lines, content, w) && Carried(lines, remaining, content)
    requires Parts(remaining, w - PadOf(lines, w), before, after)
    ensures var more := lines + [Spaces(PadOf(lines, w)) + before];
      GoodLines(more, content, w) && LinesSolid(more) == LinesSolid(lines) + Solid(Tokens(before))
  {
    var pad := PadOf(lines, w);
    PieceKeepsCarry(lines, remaining, content, w - pad, before, after);
    TurnFacts(remaining, content, w - pad, before, after);
    GoodLinesAppend(lines, Spaces(pad) + before, content, w, pad, before);
  }

  lemma CarryIsCodes(before: seq<Token>, content: seq<Token>)
    ensures forall t :: t in Carry(before, content) ==> t.Escape?
  {
    ActiveMembers(before);
    DominantSpec(before);
    DominantSpec(content);
  }

  lemma NextRest(lines: seq<string>, remaining: string, content: string, w: nat, before: string, after: string)
    requires w >= 1 && Carried(lines, remaining, content)
    requires Parts(remaining, w - PadOf(lines, w), before, after)
    ensures var more, rest := lines + [Spaces(PadOf(lines, w)) + before], CarryText(before, content) + after;
      Carried(more, rest, content) && Solid(Tokens(before)) + Solid(Tokens(rest)) == Solid(Tokens(remaining))
  {
    var pad := PadOf(lines, w);
    TurnFacts(remaining, content, w - pad, before, after);
    CarriedRest(Tokens(before), content, after);
    IndentKeepsColors(pad, before);
  }

  lemma Turn(lines: seq<string>, remaining: string, content: string, w: nat, before: string, after: string,
             line: string, rest: string)
    requires w >= 1 && GoodLines(lines, content, w) && Carried(lines, remaining, content)
    requires Parts(remaining, w - PadOf(lines, w), before, after)
    requires line == Spaces(PadOf(lines, w)) + before && rest == CarryText(before, content) + after
    ensures GoodLines(lines + [line], content, w) && Carried(lines + [line], rest, content)
    ensures LinesSolid(lines + [line]) + Solid(Tokens(rest)) == LinesSolid(lines) + Solid(Tokens(remaining))
  {
    NextTurn(lines, remaining, content, w, before, after);
    NextRest(lines, remaining, content, w, before, after);
    Regroup(LinesSolid(lines), Solid(Tokens(before)), Solid(Tokens(rest)));
  }

  // ---------- where every line comes from ----------

  /** What turn `i` cuts off, and puts on line `i`. */
  ghost function PieceAt(content: string, w: nat, i: nat): string
    requires w >= 1
  {
    PartsExist(RemainingAt(content, w, i), LimitAt(w, i));
    var before, after :| Parts(RemainingAt(content, w, i), LimitAt(w, i), before, after);
    before
  }

  lemma PieceIs(content: string, w: nat, i: nat, before: string, after: string)
    requires w >= 1 && Parts(RemainingAt(content, w, i), LimitAt(w, i), before, after)
    ensures PieceAt(content, w, i) == before && RemainingAt(content, w, i + 1) == CarryText(before, content) + after
  {
    PartsExist(RemainingAt(content, w, i), LimitAt(w, i));
    var b, a :| Parts(RemainingAt(content, w, i), LimitAt(w, i), b, a) && PieceAt(content, w, i) == b;
    PartsUnique(RemainingAt(content, w, i), LimitAt(w, i), before, after, b, a);
    TurnAdvances(content, w, i, before, after);
  }

  /** The codes carried to line `i` from the one before. */
  ghost function CarryAt(content: string, w: nat, i: nat): seq<Token>
    requires w >= 1
  {
    if i == 0 then [] else Carry(Tokens(PieceAt(content, w, i - 1)), Tokens(content))
  }

  /** What is left of the content when turn `i` begins starts at this token, */
  ghost function FromAt(content: string, w: nat, i: nat): int
    requires w >= 1
  {
    |Tokens(content)| + |CarryAt(content, w, i)| - |Tokens(RemainingAt(content, w, i))|
  }

  /** and what is cut off ends before this one. */
  ghost function ToAt(content: string, w: nat, i: nat): int
    requires w >= 1
  {
    FromAt(content, w, i) + |Tokens(PieceAt(content, w, i))| - |CarryAt(content, w, i)|
  }

  /** What remains when turn `i` begins is the codes carried to it and a rest of the content. */
  ghost predicate StartsAt(rest: seq<Token>, c: seq<Token>, ts: seq<Token>, from: int) {
    0 <= from <= |ts| && rest == c + ts[from..]
  }

  /** A piece: the codes carried to it, and a stretch of the content as it is, cut where the limit says. */
  ghost predicate PieceFrom(piece: seq<Token>, c: seq<Token>, ts: seq<Token>, from: int, to: int, limit: nat) {
    0 <= from <= to <= |ts| && piece == c + ts[from..to] &&
    if |Glyphs(c + ts[from..])| < limit then to == |ts| else CutPoint(c + ts[from..], limit, |c| + (to - from))
  }

  /** Between two stretches there are only blanks, and the next one does not start with a blank. */
  ghost predicate OnlyBlanks(ts: seq<Token>, to: int, next: int) {
    0 <= to <= next <= |ts| && Blank(ts[to..next]) && (next < |ts| ==> ts[next] != BLANK)
  }

  lemma CutPiece(all: seq<Token>, c: seq<Token>, ts: seq<Token>, from: int, limit: nat, n: nat)
    returns (to: int, next: int)
    requires StartsAt(all, c, ts, from) && (forall t :: t in c ==> t.Escape?)
    requires n <= |all| && |Glyphs(all)| >= limit && CutPoint(all, limit, n)
    ensures to == from + n - |c| && PieceFrom(all[..n], c, ts, from, to, limit) && OnlyBlanks(ts, to, next)
    ensures DropBlanks(all[n..]) == ts[next..]
  {
    CutAfterCodes(c, all, limit, n);
    to := from + n - |c|;
    assert all[..n] == c + ts[from..to] && all[n..] == ts[to..];
    next := DroppedBlanks(ts, to);
  }

  /** The pieces of a turn, as tokens of the content. */
  lemma PieceOfTurn(remaining: string, c: seq<Token>, ts: seq<Token>, from: int, limit: nat, before: string,
                    after: string) returns (to: int, next: int)
    requires limit >= 1 && Parts(remaining, limit, before, after)
    requires StartsAt(Tokens(remaining), c, ts, from) && (forall t :: t in c ==> t.Escape?)
    ensures PieceFrom(Tokens(before), c, ts, from, to, limit) && OnlyBlanks(ts, to, next)
    ensures before == Text(Tokens(before)) && Tokens(after) == ts[next..]
    ensures to == from + |Tokens(before)| - |c|
  {
    var all := Tokens(remaining);
    TextOfTokens(before);
    if |Glyphs(all)| < limit {
      to, next := |ts|, |ts|;
      assert ts[from..|ts|] == ts[from..];
    } else {
      var n :| 0 <= n <= |all| && CutPoint(all, limit, n) && before == Text(all[..n]) &&
        after == LStrip(Text(all[n..]));
      to, next := CutPiece(all, c, ts, from, limit, n);
      PieceOf(remaining, n);
    }
  }

  ghost predicate StartsRight(content: string, w: nat, i: nat)
    requires w >= 1
  {
    StartsAt(Tokens(RemainingAt(content, w, i)), CarryAt(content, w, i), Tokens(content), FromAt(content, w, i))
  }

  /**
   * Turn `i` puts on its line the codes carried to it and then exactly the tokens from one position to another, blanks
   * included; the second is where the limit cuts, and only blanks lie between it and where the next line starts.
   */
  ghost predicate TurnRight(content: string, w: nat, i: nat)
    requires w >= 1
  {
    PieceAt(content, w, i) == Text(Tokens(PieceAt(content, w, i))) &&
    PieceFrom(Tokens(PieceAt(content, w, i)), CarryAt(content, w, i), Tokens(content), FromAt(content, w, i),
              ToAt(content, w, i), LimitAt(w, i)) &&
    OnlyBlanks(Tokens(content), ToAt(content, w, i), FromAt(content, w, i + 1))
  }

  lemma CarryAtIsCodes(content: string, w: nat, i: nat)
    requires w >= 1
    ensures forall t :: t in CarryAt(content, w, i) ==> t.Escape?
  {
    if i > 0 {
      CarryIsCodes(Tokens(PieceAt(content, w, i - 1)), Tokens(content));
    }
  }

  lemma TurnStep(content: string, w: nat, i: nat)
    requires w >= 1 && StartsRight(content, w, i)
    ensures TurnRight(content, w, i) && StartsRight(content, w, i + 1)
  {
    PartsExist(RemainingAt(content, w, i), LimitAt(w, i));
    var before, after :| Parts(RemainingAt(content, w, i), LimitAt(w, i), before, after);
    PieceIs(content, w, i, before, after);
    var to, next := TurnPieces(content, w, i, before, after);
    CarriedOn(content, w, i, before, after);
    NextStarts(content, w, i, before, next);
    assert to == ToAt(content, w, i);
  }

  lemma TurnPieces(content: string, w: nat, i: nat, before: string, after: string) returns (to: int, next: int)
    requires w >= 1 && StartsRight(content, w, i) && Parts(RemainingAt(content, w, i), LimitAt(w, i), before, after)
    ensures before == Text(Tokens(before)) && OnlyBlanks(Tokens(content), to, next)
    ensures Tokens(after) == Tokens(content)[next..]
    ensures PieceFrom(Tokens(before), CarryAt(content, w, i), Tokens(content), FromAt(content, w, i), to, LimitAt(w, i))
    ensures to == FromAt(content, w, i) + |Tokens(before)| - |CarryAt(content, w, i)|
  {
    CarryAtIsCodes(content, w, i);
    to, next := PieceOfTurn(RemainingAt(content, w, i), CarryAt(content, w, i), Tokens(content), FromAt(content, w, i),
                            LimitAt(w, i), before, after);
  }

  lemma CarriedOn(content: string, w: nat, i: nat, before: string, after: string)
    requires w >= 1 && Parts(RemainingAt(content, w, i), LimitAt(w, i), before, after)
    ensures Tokens(CarryText(before, content) + after) == Carry(Tokens(before), Tokens(content)) + Tokens(after)
  {
    RemainingIsWithin(content, w, i);
    TurnFacts(RemainingAt(content, w, i), content, LimitAt(w, i), before, after);
    CarriedRest(Tokens(before), content, after);
  }

  lemma NextStarts(content: string, w: nat, i: nat, before: string, next: int)
    requires w >= 1 && 0 <= next <= |Tokens(content)| && PieceAt(content, w, i) == before
    requires Tokens(RemainingAt(content, w, i + 1)) ==
             Carry(Tokens(before), Tokens(content)) + Tokens(content)[next..]
    ensures FromAt(content, w, i + 1) == next && StartsRight(content, w, i + 1)
  {
  }

  /** Every turn of the loop, on every line and at every width. */
  lemma TurnsAreRight(content: string, w: nat, i: nat)
    requires w >= 1
    ensures FromAt(content, w, 0) == 0 && CarryAt(content, w, 0) == []
    ensures StartsRight(content, w, i) && TurnRight(content, w, i)
  {
    var right := (j: nat) => StartsRight(content, w, j);
    assert Tokens(content)[0..] == Tokens(content);
    forall j: nat | right(j) ensures right(j + 1) {
      TurnStep(content, w, j);
    }
    FromThenOn(right, 0, i);
    TurnStep(content, w, i);
  }

  // ---------- the lines of a whole text ----------

  /** Line `i` is the indent and the piece of turn `i`, which did not fit. */
  ghost predicate CutLine(line: string, content: string, w: nat, i: nat)
    requires w >= 1
  {
    !Stops(content, w, i) && line == Spaces(PadAt(i, w)) + PieceAt(content, w, i)
  }

  ghost predicate CutLines(lines: seq<string>, content: string, w: nat)
    requires w >= 1
  {
    forall i {:trigger lines[i]} :: 0 <= i < |lines| ==> CutLine(lines[i], content, w, i)
  }

  /** Every line is that of its turn; the last one is what remains, if that fits before nothing does. */
  ghost predicate LaidOut(lines: seq<string>, content: string, w: nat)
    requires w >= 1
  {
    lines != [] &&
    var n := |lines| - 1;
    CutLines(lines[..n], content, w) &&
    if Stops(content, w, n)
    then lines[n] == Spaces(PadAt(n, w)) + RemainingAt(content, w, n)
    else CutLine(lines[n], content, w, n) && RemainingAt(content, w, n + 1) == ""
  }

  // ---------- wrapping ----------

  /** The loop over the content of a line: what remains at its turns is `r`, what they cut off is `b`. */
  method WrapLines(content: string, w: nat, ghost r: seq<string>, ghost b: seq<string>) returns (lines: seq<string>)
    requires w >= 1 && Turns(content, w, r, b) && content != ""
    ensures GoodLines(lines, content, w)
    ensures LinesSolid(lines) == Solid(Tokens(content))
    ensures AllLines(lines, w, r, b)
  {
    var col := Indent(w);
    lines := [];
    var remaining := content;
    var hang := Spaces(0);
    var maxVis := w;
    ghost var i: nat := 0;
    WrappingBegins(content, w);
    while remaining != ""
      invariant Wrapping(lines, remaining, content, w, i)
      invariant LinesOf(lines, w, r, b) && i == |lines|
      invariant i < |r| && remaining == r[i]
      invariant hang == Spaces(PadOf(lines, w)) && maxVis == w - PadOf(lines, w)
      decreases |r| - i
    {
      if |Visible(remaining)| <= maxVis {
        WrappingEnds(lines, remaining, content, w, i);
        LastLineFits(lines, hang + remaining, w, r, b);
        return lines + [hang + remaining];
      }
      lines, remaining := TakeTurn(lines, remaining, hang, maxVis, content, w, r, b, i);
      hang, maxVis := Spaces(col), w - col;
      i := i + 1;
      assert PadOf(lines, w) == col;
    }
    NothingIsLeft(lines, w, r, b);
  }

  /** One turn of the loop on a remainder that does not fit: cut it, and carry the colour over. */
  method TakeTurn(lines: seq<string>, remaining: string, hang: string, maxVis: nat, content: string, w: nat,
                  ghost r: seq<string>, ghost b: seq<string>, ghost i: nat) returns (more: seq<string>, rest: string)
    requires w >= 1 && Wrapping(lines, remaining, content, w, i)
    requires Turns(content, w, r, b) && i == |lines| < |r| && remaining == r[i] && LinesOf(lines, w, r, b)
    requires hang == Spaces(PadOf(lines, w)) && maxVis == w - PadOf(lines, w) && |Visible(remaining)| > maxVis
    ensures i + 1 < |r| && rest == r[i + 1] && Wrapping(more, rest, content, w, i + 1)
    ensures |more| == i + 1 && LinesOf(more, w, r, b)
  {
    var before, after := SplitAt(remaining, maxVis);
    var carry := CarryOver(before, content);
    TurnTaken(lines, remaining, content, w, r, b, i, before, after);
    more, rest := lines + [hang + before], carry + after;
  }

  lemma TurnTaken(lines: seq<string>, remaining: string, content: string, w: nat, r: seq<string>, b: seq<string>,
                  i: nat, before: string, after: string)
    requires w >= 1 && Wrapping(lines, remaining, content, w, i)
    requires Turns(content, w, r, b) && i == |lines| < |r| && remaining == r[i] && LinesOf(lines, w, r, b)
    requires |Visible(remaining)| > LimitAt(w, i) && Parts(remaining, LimitAt(w, i), before, after)
    ensures var more, rest := lines + [Spaces(PadOf(lines, w)) + before], CarryText(before, content) + after;
      i + 1 < |r| && rest == r[i + 1] && Wrapping(more, rest, content, w, i + 1) && LinesOf(more, w, r, b)
  {
    TurnGoesOn(remaining, content, w, r, b, i, before, after);
    assert w - PadOf(lines, w) == LimitAt(w, i) && PadOf(lines, w) == PadAt(i, w);
    Advance(lines, remaining, content, w, i, before, after);
    OneMoreLine(lines, Spaces(PadOf(lines, w)) + before, w, r, b);
  }

  function PadAt(i: nat, w: nat): nat {
    if i == 0 then 0 else Indent(w)
  }

  /** Line `i` is the indent and what turn `i` cuts off; what remained did not fit. */
  ghost predicate LinesOf(lines: seq<string>, w: nat, r: seq<string>, b: seq<string>)
    requires w >= 1
  {
    |lines| <= |b| < |r| && forall i {:trigger lines[i]} :: 0 <= i < |lines| ==>
      lines[i] == Spaces(PadAt(i, w)) + b[i] && |Visible(r[i])| > LimitAt(w, i)
  }

  /** All lines are such lines, but for a last one that is all that remains, if that fits before nothing does. */
  ghost predicate AllLines(lines: seq<string>, w: nat, r: seq<string>, b: seq<string>)
    requires w >= 1
  {
    (lines != [] && LinesOf(lines, w, r, b) && r[|lines|] == "") ||
    (lines != [] && |lines| <= |r| && LinesOf(lines[..|lines| - 1], w, r, b) &&
     |Visible(r[|lines| - 1])| <= LimitAt(w, |lines| - 1) &&
     lines[|lines| - 1] == Spaces(PadAt(|lines| - 1, w)) + r[|lines| - 1])
  }

  lemma OneMoreLine(lines: seq<string>, line: string, w: nat, r: seq<string>, b: seq<string>)
    requires w >= 1 && LinesOf(lines, w, r, b) && |lines| < |b| && |Visible(r[|lines|])| > LimitAt(w, |lines|)
    requires line == Spaces(PadAt(|lines|, w)) + b[|lines|]
    ensures LinesOf(lines + [line], w, r, b)
  {
    var more := lines + [line];
    forall i {:trigger more[i]} | 0 <= i < |more|
      ensures more[i] == Spaces(PadAt(i, w)) + b[i] && |Visible(r[i])| > LimitAt(w, i)
    {
      if i < |lines| {
        assert more[i] == lines[i];
      }
    }
  }

  lemma LastLineFits(lines: seq<string>, line: string, w: nat, r: seq<string>, b: seq<string>)
    requires w >= 1 && LinesOf(lines, w, r, b) && |Visible(r[|lines|])| <= LimitAt(w, |lines|)
    requires line == Spaces(PadAt(|lines|, w)) + r[|lines|]
    ensures AllLines(lines + [line], w, r, b)
  {
    assert (lines + [line])[..|lines|] == lines;
  }

  lemma NothingIsLeft(lines: seq<string>, w: nat, r: seq<string>, b: seq<string>)
    requires w >= 1 && LinesOf(lines, w, r, b) && lines != [] && r[|lines|] == ""
    ensures AllLines(lines, w, r, b)
  {
  }

  /** What remains at each turn and what it cuts off, up to the turn at which the loop stops. */
  ghost predicate Turns(content: string, w: nat, r: seq<string>, b: seq<string>)
    requires w >= 1
  {
    |r| == |b| + 1 && r[0] == content && |Visible(r[|b|])| <= LimitAt(w, |b|) &&
    forall i, before, after {:trigger Parts(r[i], LimitAt(w, i), before, after)} ::
      0 <= i < |b| && Parts(r[i], LimitAt(w, i), before, after) ==>
        b[i] == before && r[i + 1] == CarryText(before, content) + after
  }

  ghost predicate TurnLists(content: string, w: nat, r: seq<string>, b: seq<string>)
    requires w >= 1
  {
    |r| == |b| + 1 && (forall i {:trigger r[i]} :: 0 <= i < |r| ==> r[i] == RemainingAt(content, w, i)) &&
    forall i {:trigger b[i]} :: 0 <= i < |b| ==> b[i] == PieceAt(content, w, i)
  }

  lemma TurnsOf(content: string, w: nat) returns (r: seq<string>, b: seq<string>)
    requires w >= 1 && LoopEnds(content, w)
    ensures Turns(content, w, r, b) && TurnLists(content, w, r, b)
  {
    var n := StopTurn(content, w);
    r := seq(n + 1, i requires 0 <= i <= n => RemainingAt(content, w, i));
    b := seq(n, i requires 0 <= i < n => PieceAt(content, w, i));
    TurnsFollow(content, w, r, b);
    assert r[0] == RemainingAt(content, w, 0) && r[n] == RemainingAt(content, w, n);
  }

  lemma TurnsFollow(content: string, w: nat, r: seq<string>, b: seq<string>)
    requires w >= 1 && TurnLists(content, w, r, b)
    ensures forall i, before, after {:trigger Parts(r[i], LimitAt(w, i), before, after)} ::
      0 <= i < |b| && Parts(r[i], LimitAt(w, i), before, after) ==>
        b[i] == before && r[i + 1] == CarryText(before, content) + after
  {
    forall i, before, after {:trigger Parts(r[i], LimitAt(w, i), before, after)} |
      0 <= i < |b| && Parts(r[i], LimitAt(w, i), before, after)
      ensures b[i] == before && r[i + 1] == CarryText(before, content) + after
    {
      PieceIs(content, w, i, before, after);
    }
  }

  lemma LinesAreCut(lines: seq<string>, content: string, w: nat, r: seq<string>, b: seq<string>)
    requires w >= 1 && TurnLists(content, w, r, b) && LinesOf(lines, w, r, b)
    ensures CutLines(lines, content, w)
  {
    forall i {:trigger lines[i]} | 0 <= i < |lines| ensures CutLine(lines[i], content, w, i) {
      assert r[i] == RemainingAt(content, w, i) && b[i] == PieceAt(content, w, i);
    }
  }

  /** Such lines are those of the turns of the content. */
  lemma AllAreLaidOut(lines: seq<string>, content: string, w: nat, r: seq<string>, b: seq<string>)
    requires w >= 1 && TurnLists(content, w, r, b) && AllLines(lines, w, r, b)
    ensures LaidOut(lines, content, w)
  {
    var n := |lines| - 1;
    if LinesOf(lines, w, r, b) && r[n + 1] == "" {
      LinesAreCut(lines, content, w, r, b);
      assert forall i :: 0 <= i < n ==> lines[..n][i] == lines[i];
      assert r[n + 1] == RemainingAt(content, w, n + 1);
      assert lines[n] == lines[n];
    } else {
      LinesAreCut(lines[..n], content, w, r, b);
      assert r[n] == RemainingAt(content, w, n);
    }
  }

  /** Turn `i` of the loop begins. */
  ghost predicate Wrapping(lines: seq<string>, remaining: string, content: string, w: nat, i: nat) {
    GoodLines(lines, content, w) && Carried(lines, remaining, content) &&
    LinesSolid(lines) + Solid(Tokens(remaining)) == Solid(Tokens(content)) && (lines == [] <==> i == 0)
  }

  lemma WrappingBegins(content: string, w: nat)
    ensures Wrapping([], content, content, w, 0) && PadOf([], w) == 0
  {
  }

  lemma WrappingEnds(lines: seq<string>, remaining: string, content: string, w: nat, i: nat)
    requires w >= 1 && Wrapping(lines, remaining, content, w, i) && |Visible(remaining)| <= w - PadOf(lines, w)
    ensures var more := lines + [Spaces(PadOf(lines, w)) + remaining];
      GoodLines(more, content, w) && LinesSolid(more) == Solid(Tokens(content))
  {
    LastTurn(lines, remaining, content, w);
  }

  /** The turns go on below the one at which the loop stops. */
  lemma TurnGoesOn(remaining: string, content: string, w: nat, r: seq<string>, b: seq<string>, i: nat, before: string,
                   after: string)
    requires w >= 1 && Turns(content, w, r, b) && i < |r| && remaining == r[i]
    requires |Visible(remaining)| > LimitAt(w, i) && Parts(remaining, LimitAt(w, i), before, after)
    ensures i < |b| && b[i] == before && r[i + 1] == CarryText(before, content) + after
  {
  }

  lemma Advance(lines: seq<string>, remaining: string, content: string, w: nat, i: nat, before: string, after: string)
    requires w >= 1 && Wrapping(lines, remaining, content, w, i) && Parts(remaining, w - PadOf(lines, w), before, after)
    ensures Wrapping(lines + [Spaces(PadOf(lines, w)) + before], CarryText(before, content) + after, content, w, i + 1)
  {
    Turn(lines, remaining, content, w, before, after, Spaces(PadOf(lines, w)) + before,
         CarryText(before, content) + after);
  }

  /** The colour to carry forward: what is active, else the last one set, else the line's last one. */
  method CarryOver(before: string, content: string) returns (carry: string)
    ensures carry == CarryText(before, content)
  {
    carry := ActiveColor(before);
    if carry == "" {
      carry := DominantColor(before);
    }
    if carry == "" {
      carry := DominantColor(content);
    }
    CarryIsFirstNonempty(Tokens(before), Tokens(content));
  }

  lemma CarryIsFirstNonempty(before: seq<Token>, content: seq<Token>)
    ensures var a, d := Text(Active(before)), Text(Dominant(before));
      Text(Carry(before, content)) == if a != "" then a else if d != "" then d else Text(Dominant(content))
  {
    ActiveMembers(before);
    DominantSpec(before);
    assert Active(before) != [] ==> Active(before)[0] in Active(before);
  }

  // ---------- the whole line ----------

  function RStrip(s: string): string {
    if s != "" && s[|s| - 1] == '\n' then RStrip(s[..|s| - 1]) else s
  }

  function Joined(lines: seq<string>): string {
    if lines == [] then "" else if |lines| == 1 then lines[0]
    else Joined(lines[..|lines| - 1]) + ("\n" + lines[|lines| - 1])
  }

  /** The lines of a text. */
  function LinesOfText(s: string): (lines: seq<string>)
    ensures lines != []
  {
    if s == "" then [""]
    else if s[|s| - 1] == '\n' then LinesOfText(s[..|s| - 1]) + [""]
    else Lengthened(LinesOfText(s[..|s| - 1]), [s[|s| - 1]])
  }

  function Lengthened(lines: seq<string>, t: string): (r: seq<string>)
    requires lines != []
    ensures r != []
  {
    lines[..|lines| - 1] + [lines[|lines| - 1] + t]
  }

  /** The joined lines are, read as lines again, the same ones, when none has a line end within it. */
  lemma {:induction false} LinesOfJoined(lines: seq<string>)
    requires lines != [] && forall l :: l in lines ==> '\n' !in l
    ensures LinesOfText(Joined(lines)) == lines
  {
    var front, last := lines[..|lines| - 1], lines[|lines| - 1];
    assert lines == front + [last];
    if front == [] {
      assert "" + last == last;
      GrowsLast("", last);
    } else {
      LinesOfJoined(front);
      NextLineStarts(Joined(front), last);
      assert Joined(lines) == Joined(front) + ("\n" + last);
    }
  }

  lemma NextLineStarts(s: string, t: string)
    requires '\n' !in t
    ensures LinesOfText(s + ("\n" + t)) == LinesOfText(s) + [t]
  {
    var started := s + "\n";
    assert started[..|started| - 1] == s;
    GrowsLast(started, t);
    assert started + t == s + ("\n" + t);
    assert "" + t == t;
  }

  /** Text without a line end lengthens the last line. */
  lemma {:induction false} GrowsLast(s: string, t: string)
    requires '\n' !in t
    ensures LinesOfText(s + t) == Lengthened(LinesOfText(s), t)
  {
    var lines := LinesOfText(s);
    if t == "" {
      assert s + t == s && lines[|lines| - 1] + t == lines[|lines| - 1];
      assert Lengthened(lines, t) == lines;
    } else {
      var n, all := |t| - 1, s + t;
      GrowsLast(s, t[..n]);
      assert all[..|all| - 1] == s + t[..n] && all[|all| - 1] == t[n];
      assert LinesOfText(all) == Lengthened(Lengthened(lines, t[..n]), [t[n]]);
      LengthenedTwice(lines, t[..n], [t[n]]);
      assert t == t[..n] + [t[n]];
    }
  }

  lemma LengthenedTwice(lines: seq<string>, t: string, u: string)
    requires lines != []
    ensures Lengthened(Lengthened(lines, t), u) == Lengthened(lines, t + u)
  {
    Regroup(lines[|lines| - 1], t, u);
  }

  /** Where all escapes are complete colour codes, a good line measures at most the width. */
  lemma GoodLinesFit(lines: seq<string>, content: string, w: nat)
    requires GoodLines(lines, content, w) && SgrOnly(Tokens(content))
    ensures forall l :: l in lines ==> SgrOnly(Tokens(l)) && |Visible(l)| <= w
  {
    forall l | l in lines ensures SgrOnly(Tokens(l)) && |Visible(l)| <= w {
      var i :| 0 <= i < |lines| && lines[i] == l;
      GoodLinesFitEach(lines, content, w, i);
      VisibleIsGlyphs(l);
    }
  }

  // ---------- the text as it is shown ----------

  lemma {:induction false} JoinedShown(lines: seq<string>)
    requires forall l :: l in lines ==> ColorsComplete(l)
    ensures Shown(Joined(lines)) == SolidShown(LinesSolid(lines))
  {
    if lines != [] {
      var front, last := lines[..|lines| - 1], lines[|lines| - 1];
      assert last in lines;
      forall l | l in front ensures ColorsComplete(l) { assert l in lines; }
      JoinedShown(front);
      ShownIsSolid(last);
      SolidShownConcat(LinesSolid(front), Solid(Tokens(last)));
      ShownBefore(Joined(front), "\n" + last);
      NewlineShown(last);
    }
  }

  lemma {:induction false} StripShown(raw: string)
    ensures Shown(RStrip(raw)) == Shown(raw)
  {
    if raw != "" && raw[|raw| - 1] == '\n' {
      var front := raw[..|raw| - 1];
      StripShown(front);
      ShownBefore(front, "\n");
      NewlineShown("");
      assert raw == front + "\n" && "\n" + "" == "\n";
    }
  }

  lemma EndShown()
    ensures Shown(RESET + "\n") == ""
  {
    var s := RESET + "\n";
    assert ParamsEnd(s, 2) == 3;
    assert s[4..] == "\n";
    assert Visible(s) == Visible("\n");
    NewlineShown("");
    assert "\n" + "" == "\n";
  }

  /** Where colour codes are complete, the wrapped text shows what the line shows. */
  lemma WrappedShown(raw: string, lines: seq<string>, w: nat)
    requires ColorsComplete(RStrip(raw)) && Wrapped(lines, RStrip(raw), w)
    ensures Shown(Joined(lines) + (RESET + "\n")) == Shown(raw)
  {
    forall l | l in lines ensures ColorsComplete(l) {
      var i :| 0 <= i < |lines| && lines[i] == l;
      GoodLinesFitEach(lines, RStrip(raw), w, i);
    }
    JoinedShown(lines);
    ShownIsSolid(RStrip(raw));
    StripShown(raw);
    ShownBefore(Joined(lines), RESET + "\n");
    EndShown();
  }

  /** The lines of a wrapped text: good ones that hold all that is solid in it, each token once and in order. */
  ghost predicate Wrapped(lines: seq<string>, content: string, w: nat) {
    GoodLines(lines, content, w) && LinesSolid(lines) == Solid(Tokens(content))
  }

  /**
   * A line that fits is returned unchanged; a wider one on which the loop ends is cut into the lines of its turns,
   * which by `TurnsAreRight` are stretches of it as it is. Where colour codes are complete the text shows what the
   * line shows.
   */
  method Wrap(raw: string, w: nat) returns (out: string)
    requires w >= 1 && LoopEnds(RStrip(raw), w)
    ensures |Visible(RStrip(raw))| <= w ==> out == raw
    ensures |Visible(RStrip(raw))| > w ==>
      exists lines :: LaidOut(lines, RStrip(raw), w) && Wrapped(lines, RStrip(raw), w) &&
                      out == Joined(lines) + (RESET + "\n")
    ensures ColorsComplete(RStrip(raw)) ==> Shown(out) == Shown(raw)
  {
    var content := RStrip(raw);
    if content == "" || |Visible(content)| <= w {
      return raw;
    }
    ghost var r, b := TurnsOf(content, w);
    var lines := WrapLines(content, w, r, b);
    AllAreLaidOut(lines, content, w, r, b);
    if ColorsComplete(content) {
      WrappedShown(raw, lines, w);
    }
    assert LaidOut(lines, content, w) && Wrapped(lines, content, w);
    out := Joined(lines) + (RESET + "\n");
  }
}
