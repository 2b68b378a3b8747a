/** Wrapping of ANSI-coloured log lines at a terminal width. */
module Thoughts {
  import opened Sequences

  const ESC: char := '\U{1b}'
  const RESET: string := [ESC] + "[0m"

  // ---------- scanning ----------

  /** A piece of a line: a visible character, or an escape sequence with its introducer. */
  datatype Token = Glyph(c: char) | Escape(text: string)

  /** The bytes at which the scanners take an escape sequence to end. */
  predicate IsFinal(c: char) {
    c == 'm' || c == 'K' || c == 'H' || c == 'J' || c == 'A' || c == 'B' || c == 'C' || c == 'D' ||
    c == 'f' || c == 's' || c == 'u'
  }

  predicate IsParam(c: char) {
    '0' <= c <= '9' || c == ';'
  }

  predicate StartsEscape(s: string) {
    |s| >= 2 && s[0] == ESC && s[1] == '['
  }

  /** The first position from `j` on that holds a final byte, or the end of the line. */
  function FinalAt(s: string, j: nat): (k: nat)
    requires j <= |s|
    ensures j <= k <= |s|
    ensures k < |s| ==> IsFinal(s[k])
    ensures forall i :: j <= i < k ==> !IsFinal(s[i])
    decreases |s| - j
  {
    if j == |s| || IsFinal(s[j]) then j else FinalAt(s, j + 1)
  }

  lemma {:induction false} FinalAtUnique(s: string, j: nat, k: nat)
    requires j <= k < |s| && IsFinal(s[k])
    requires forall i :: j <= i < k ==> !IsFinal(s[i])
    ensures FinalAt(s, j) == k
    decreases k - j
  {
    if j < k {
      FinalAtUnique(s, j + 1, k);
    }
  }

  /** How many characters the scanner steps over at the start of `s`. */
  function HeadLen(s: string): (n: nat)
    requires s != ""
    ensures 1 <= n <= |s|
    ensures StartsEscape(s) ==> n >= 2
  {
    if StartsEscape(s) then
      var k := FinalAt(s, 2);
      if k < |s| then k + 1 else |s|
    else 1
  }

  function Head(s: string): Token
    requires s != ""
  {
    if StartsEscape(s) then Escape(s[..HeadLen(s)]) else Glyph(s[0])
  }

  function Tokens(s: string): seq<Token> {
    if s == "" then [] else [Head(s)] + Tokens(s[HeadLen(s)..])
  }

  function TokenText(t: Token): string {
    match t
    case Glyph(c) => [c]
    case Escape(text) => text
  }

  function Text(ts: seq<Token>): string {
    if ts == [] then "" else TokenText(ts[0]) + Text(ts[1..])
  }

  function Glyphs(ts: seq<Token>): string {
    if ts == [] then ""
    else (if ts[0].Glyph? then [ts[0].c] else "") + Glyphs(ts[1..])
  }

  /** The visible characters without blanks. */
  function Ink(s: string): string {
    if s == "" then ""
    else (if s[0] == ' ' || s[0] == '\n' then "" else [s[0]]) + Ink(s[1..])
  }

  // ---------- colour codes ----------

  function ParamsEnd(s: string, j: nat): (k: nat)
    requires j <= |s|
    ensures j <= k <= |s|
    ensures k < |s| ==> !IsParam(s[k])
    ensures forall i :: j <= i < k ==> IsParam(s[i])
    decreases |s| - j
  {
    if j == |s| || !IsParam(s[j]) then j else ParamsEnd(s, j + 1)
  }

  /** Length of the colour code at the start of `s`, zero if there is none. */
  function CodeLen(s: string): (n: nat)
    ensures n <= |s|
  {
    if !StartsEscape(s) then 0 else
      var k := ParamsEnd(s, 2);
      if k < |s| && s[k] == 'm' then k + 1 else 0
  }

  /** `s` without its colour codes. */
  function Visible(s: string): string {
    if s == "" then ""
    else if CodeLen(s) > 0 then Visible(s[CodeLen(s)..])
    else [s[0]] + Visible(s[1..])
  }

  predicate IsCode(t: Token) {
    t.Escape? && t.text != "" && t.text[|t.text| - 1] == 'm' && |t.text| >= 3
  }

  predicate IsReset(t: Token) {
    IsCode(t) && (t.text[2..|t.text| - 1] == "0" || t.text[2..|t.text| - 1] == "")
  }

  predicate IsColor(t: Token) {
    IsCode(t) && !IsReset(t)
  }

  /** A complete colour code: introducer, parameters, `m`. */
  predicate Sgr(t: Token) {
    t.Escape? ==> |t.text| >= 3 && CodeLen(t.text) == |t.text|
  }

  /** Every escape sequence of the line is a complete colour code. */
  predicate SgrOnly(ts: seq<Token>) {
    forall t :: t in ts ==> Sgr(t)
  }

  /** The colours in force after `ts`: all set since the last reset. */
  function Active(ts: seq<Token>): seq<Token> {
    if ts == [] then [] else
      var before, last := Active(ts[..|ts| - 1]), ts[|ts| - 1];
      if IsReset(last) then [] else if IsColor(last) then before + [last] else before
  }

  function Dominant(ts: seq<Token>): seq<Token> {
    if ts == [] then [] else
      var last := ts[|ts| - 1];
      if IsColor(last) then [last] else Dominant(ts[..|ts| - 1])
  }

  function Carry(before: seq<Token>, content: seq<Token>): seq<Token> {
    if Active(before) != [] then Active(before)
    else if Dominant(before) != [] then Dominant(before)
    else Dominant(content)
  }

  lemma {:induction false} DominantSpec(ts: seq<Token>)
    ensures Dominant(ts) == [] <==> forall t :: t in ts ==> !IsColor(t)
    ensures Dominant(ts) != [] ==> exists k :: 0 <= k < |ts| && Dominant(ts) == [ts[k]] && IsColor(ts[k]) &&
                                              forall j :: k < j < |ts| ==> !IsColor(ts[j])
  {
    if ts != [] {
      var front, last := ts[..|ts| - 1], ts[|ts| - 1];
      DominantSpec(front);
      assert ts == front + [last];
      assert last in ts;
      if !IsColor(last) && Dominant(front) != [] {
        var k :| 0 <= k < |front| && Dominant(front) == [front[k]] && IsColor(front[k]) &&
                 forall j :: k < j < |front| ==> !IsColor(front[j]);
        assert ts[k] == front[k] && ts[k] in ts;
      }
    }
  }

  function Colors(ts: seq<Token>): seq<Token> {
    if ts == [] then [] else
      Colors(ts[..|ts| - 1]) + if IsColor(ts[|ts| - 1]) then [ts[|ts| - 1]] else []
  }

  /** The active colours are those after the last reset, or all if nothing was reset. */
  lemma {:induction false} ActiveSinceReset(ts: seq<Token>) returns (k: nat)
    ensures k <= |ts| && (k == 0 || IsReset(ts[k - 1]))
    ensures forall i :: k <= i < |ts| ==> !IsReset(ts[i])
    ensures Active(ts) == Colors(ts[k..])
  {
    if ts == [] {
      k := 0;
    } else {
      var front, last := ts[..|ts| - 1], ts[|ts| - 1];
      var j := ActiveSinceReset(front);
      if IsReset(last) {
        k := |ts|;
      } else {
        k := j;
        assert ts[k..][..|ts| - k - 1] == front[k..];
      }
    }
  }

  /** A continuation starts uncoloured only when nothing in the line sets a colour. */
  lemma CarryEmptyIffColourless(before: seq<Token>, content: seq<Token>)
    requires forall t :: t in before && IsColor(t) ==> t in content
    ensures Carry(before, content) == [] <==> forall t :: t in content ==> !IsColor(t)
    ensures forall t :: t in Carry(before, content) ==> IsColor(t) && t in content
  {
    ActiveMembers(before);
    DominantSpec(before);
    DominantSpec(content);
    if Active(before) != [] {
      assert Active(before)[0] in Active(before);
    }
  }

  lemma {:induction false} ActiveMembers(ts: seq<Token>)
    ensures forall t :: t in Active(ts) ==> IsColor(t) && t in ts
  {
    if ts != [] {
      ActiveMembers(ts[..|ts| - 1]);
      assert ts == ts[..|ts| - 1] + [ts[|ts| - 1]];
    }
  }

  // ---------- token sequences that scan back to themselves ----------

  /** A whole escape sequence: its first final byte is its last. */
  predicate Complete(text: string) {
    StartsEscape(text) && FinalAt(text, 2) == |text| - 1
  }

  /** An escape sequence that the end of the line broke off. */
  predicate Truncated(text: string) {
    StartsEscape(text) && FinalAt(text, 2) == |text|
  }

  predicate NormalHead(ts: seq<Token>)
    requires ts != []
  {
    (ts[0].Escape? ==> Complete(ts[0].text) || (Truncated(ts[0].text) && |ts| == 1)) &&
    (ts[0] == Glyph(ESC) && |ts| > 1 ==> ts[1] != Glyph('['))
  }

  predicate Normal(ts: seq<Token>) {
    ts == [] || (NormalHead(ts) && Normal(ts[1..]))
  }

  lemma HeadText(s: string)
    requires s != ""
    ensures s == TokenText(Head(s)) + s[HeadLen(s)..]
  {
  }

  lemma {:induction false} TextOfTokens(s: string)
    ensures Text(Tokens(s)) == s
  {
    if s != "" {
      var n := HeadLen(s);
      TextOfTokens(s[n..]);
      HeadText(s);
      assert Tokens(s)[1..] == Tokens(s[n..]);
    }
  }

  lemma {:induction false} TokensAreNormal(s: string)
    ensures Normal(Tokens(s))
  {
    if s != "" {
      var rest := s[HeadLen(s)..];
      TokensAreNormal(rest);
      assert Tokens(s)[1..] == Tokens(rest);
      HeadIsNormal(s);
    }
  }

  lemma HeadIsNormal(s: string)
    requires s != ""
    ensures NormalHead(Tokens(s))
  {
    var n := HeadLen(s);
    var text, rest := s[..n], s[n..];
    assert Tokens(s) == [Head(s)] + Tokens(rest);
    if StartsEscape(s) {
      FinalAtPrefix(text, rest, 2);
      assert text + rest == s;
    } else if rest != "" {
      assert Tokens(rest)[0] == Head(rest);
    }
  }

  lemma {:induction false} FinalAtPrefix(text: string, rest: string, j: nat)
    requires j <= |text|
    ensures FinalAt(text, j) < |text| ==> FinalAt(text + rest, j) == FinalAt(text, j)
    ensures FinalAt(text + rest, j) < |text| ==> FinalAt(text, j) == FinalAt(text + rest, j)
    decreases |text| - j
  {
    if j < |text| {
      assert (text + rest)[j] == text[j];
      if !IsFinal(text[j]) {
        FinalAtPrefix(text, rest, j + 1);
      }
    }
  }

  lemma {:induction false} NormalPrefix(ts: seq<Token>, n: nat)
    requires Normal(ts) && n <= |ts|
    ensures Normal(ts[..n])
  {
    if n > 0 {
      NormalPrefix(ts[1..], n - 1);
      assert ts[..n][1..] == ts[1..][..n - 1];
    }
  }

  lemma {:induction false} NormalSuffix(ts: seq<Token>, n: nat)
    requires Normal(ts) && n <= |ts|
    ensures Normal(ts[n..])
  {
    if n > 0 {
      NormalSuffix(ts[1..], n - 1);
      assert ts[n..] == ts[1..][n - 1..];
    } else {
      assert ts[0..] == ts;
    }
  }

  lemma {:induction false} TokensOfText(ts: seq<Token>)
    requires Normal(ts)
    ensures Tokens(Text(ts)) == ts
  {
    if ts != [] {
      TokensOfText(ts[1..]);
      HeadOfText(ts);
      var s, h := Text(ts), TokenText(ts[0]);
      assert s == h + Text(ts[1..]);
      assert s[|h|..] == Text(ts[1..]);
      assert Tokens(s) == [Head(s)] + Tokens(s[|h|..]);
    }
  }

  lemma HeadOfText(ts: seq<Token>)
    requires ts != [] && NormalHead(ts) && Normal(ts[1..])
    ensures Text(ts) != "" && Head(Text(ts)) == ts[0] && HeadLen(Text(ts)) == |TokenText(ts[0])|
  {
    var s, rest := Text(ts), Text(ts[1..]);
    if ts[0].Escape? {
      var text := ts[0].text;
      FinalAtPrefix(text, rest, 2);
      assert s[..|text|] == text;
    } else if |ts| > 1 {
      assert rest == TokenText(ts[1]) + Text(ts[1..][1..]);
      assert NormalHead(ts[1..]);
      assert rest[0] == TokenText(ts[1])[0];
      assert s[1] == rest[0];
    }
  }

  lemma {:induction false} TextConcat(a: seq<Token>, b: seq<Token>)
    ensures Text(a + b) == Text(a) + Text(b)
  {
    if a == [] {
      assert a + b == b;
    } else {
      TextConcat(a[1..], b);
      assert (a + b)[1..] == a[1..] + b;
      Regroup(TokenText(a[0]), Text(a[1..]), Text(b));
    }
  }

  lemma {:induction false} GlyphsConcat(a: seq<Token>, b: seq<Token>)
    ensures Glyphs(a + b) == Glyphs(a) + Glyphs(b)
  {
    if a == [] {
      assert a + b == b;
    } else {
      GlyphsConcat(a[1..], b);
      assert (a + b)[1..] == a[1..] + b;
      Regroup(if a[0].Glyph? then [a[0].c] else "", Glyphs(a[1..]), Glyphs(b));
    }
  }

  // ---------- cutting a line ----------

  const BLANK := Glyph(' ')

  function DropBlanks(ts: seq<Token>): seq<Token> {
    if ts != [] && ts[0] == BLANK then DropBlanks(ts[1..]) else ts
  }

  function LStrip(s: string): string {
    if s != "" && s[0] == ' ' then LStrip(s[1..]) else s
  }

  lemma {:induction false} StripIsDrop(ts: seq<Token>)
    requires Normal(ts)
    ensures LStrip(Text(ts)) == Text(DropBlanks(ts))
  {
    if ts != [] {
      HeadOfText(ts);
      StripIsDrop(ts[1..]);
      assert Text(ts)[|TokenText(ts[0])|..] == Text(ts[1..]);
    }
  }

  /** The last blank (not the very first token) up to the `limit`-th glyph, or just after that glyph. */
  ghost predicate CutPoint(ts: seq<Token>, limit: nat, n: nat) {
    exists k :: 0 <= k < |ts| && ts[k].Glyph? && |Glyphs(ts[..k])| + 1 == limit &&
      if exists j :: 0 < j <= k && ts[j] == BLANK
      then 0 < n <= k && ts[n] == BLANK && forall j :: n < j <= k ==> ts[j] != BLANK
      else n == k + 1
  }

  /** The scanner at position `i` has read the first `n` tokens. */
  ghost predicate Scanned(s: string, i: nat, n: nat) {
    i <= |s| && n <= |Tokens(s)| && Tokens(s[i..]) == Tokens(s)[n..]
  }

  /** One step of the scanner is one more token. */
  lemma ScanStep(s: string, i: nat, n: nat)
    requires i < |s| && Scanned(s, i, n)
    ensures n < |Tokens(s)| && Head(s[i..]) == Tokens(s)[n] && Scanned(s, i + HeadLen(s[i..]), n + 1)
  {
    var t, ts := s[i..], Tokens(s);
    assert t[HeadLen(t)..] == s[i + HeadLen(t)..];
    assert ts[n + 1..] == ts[n..][1..];
  }

  /** What has been read is the text of the tokens read. */
  lemma ScannedText(s: string, i: nat, n: nat)
    requires Scanned(s, i, n)
    ensures s[..i] == Text(Tokens(s)[..n]) && s[i..] == Text(Tokens(s)[n..])
    ensures i == 0 <==> n == 0
  {
    var ts := Tokens(s);
    TextOfTokens(s);
    TextOfTokens(s[i..]);
    TextConcat(ts[..n], ts[n..]);
    Halves(ts, n);
    Halves(s, i);
    SameFront(Text(ts[..n]), s[..i], s[i..]);
    if i == 0 {
      assert s[0..] == s;
      assert |ts[n..]| == |ts|;
    }
    if n == 0 {
      assert ts[0..] == ts;
    }
  }

  lemma GlyphsSnoc(ts: seq<Token>, n: nat)
    requires n < |ts|
    ensures |Glyphs(ts[..n + 1])| == |Glyphs(ts[..n])| + if ts[n].Glyph? then 1 else 0
  {
    assert ts[..n + 1] == ts[..n] + [ts[n]];
    GlyphsConcat(ts[..n], [ts[n]]);
  }

  /** Where the scanner's escape ends. */
  lemma EscapeEnd(s: string, i: nat, j: nat)
    requires i + 2 <= j <= |s| && StartsEscape(s[i..])
    requires forall x :: i + 2 <= x < j ==> !IsFinal(s[x])
    requires j < |s| ==> IsFinal(s[j])
    ensures FinalAt(s[i..], 2) == j - i
  {
    var t := s[i..];
    if j < |s| {
      FinalAtUnique(t, 2, j - i);
    } else {
      assert FinalAt(t, 2) == |t|;
    }
  }

  method SplitAt(s: string, limit: nat) returns (before: string, after: string)
    requires limit >= 1
    ensures Parts(s, limit, before, after)
  {
    var visPos: nat := 0;
    var lastSpace := -1;
    var i := 0;
    ghost var n, m := 0, -1;
    ScanStart(s);
    while i < |s|
      invariant i >= 0 && n >= 0 && Scanned(s, i, n)
      invariant |Glyphs(Tokens(s)[..n])| == visPos < limit
      invariant LastBlank(s, n, lastSpace, m)
      decreases |s| - i
    {
      if StartsEscape(s[i..]) {
        var _, next := SkipEscape(s, i);
        CodePassed(s, i, next, n, lastSpace, m);
        i, n := next, n + 1;
        continue;
      }
      GlyphPassed(s, i, n, lastSpace, m);
      lastSpace, m := if s[i] == ' ' then i else lastSpace, if s[i] == ' ' then n else m;
      if visPos + 1 >= limit {
        var cut := if lastSpace > 0 then lastSpace else i + 1;
        CutHere(s, limit, i, n, lastSpace, m);
        return s[..cut], LStrip(s[cut..]);
      }
      visPos, i, n := visPos + 1, i + 1, n + 1;
    }
    ScanEnd(s, n);
    assert Parts(s, limit, s, "");
    return s, "";
  }

  /** The pieces of one turn: a cut, or all that remains when it has fewer glyphs than the limit. */
  ghost predicate Parts(remaining: string, limit: nat, before: string, after: string) {
    if |Glyphs(Tokens(remaining))| < limit then before == remaining && after == ""
    else IsSplit(remaining, limit, before, after)
  }

  ghost predicate IsSplit(s: string, limit: nat, before: string, after: string) {
    exists n :: 0 <= n <= |Tokens(s)| && CutPoint(Tokens(s), limit, n) &&
      before == Text(Tokens(s)[..n]) && after == LStrip(Text(Tokens(s)[n..]))
  }

  lemma ScanStart(s: string)
    ensures Scanned(s, 0, 0) && Glyphs(Tokens(s)[..0]) == ""
  {
    assert s[0..] == s && Tokens(s)[0..] == Tokens(s);
  }

  lemma ScanEnd(s: string, n: nat)
    requires Scanned(s, |s|, n)
    ensures Tokens(s)[..n] == Tokens(s)
  {
    assert Tokens(s[|s|..]) == [];
  }

  lemma BlankStep(s: string, i: nat, n: nat, lastSpace: int, m: int)
    requires i < |s| && Scanned(s, i, n) && n < |Tokens(s)| && LastBlank(s, n, lastSpace, m)
    ensures Tokens(s)[n].Escape? ==> LastBlank(s, n + 1, lastSpace, m)
    ensures Tokens(s)[n] == Glyph(s[i]) ==>
      LastBlank(s, n + 1, if s[i] == ' ' then i else lastSpace, if s[i] == ' ' then n else m)
  {
  }

  lemma CodePassed(s: string, i: nat, next: nat, n: nat, lastSpace: int, m: int)
    requires i < |s| && Scanned(s, i, n) && StartsEscape(s[i..]) && next == i + HeadLen(s[i..])
    requires LastBlank(s, n, lastSpace, m)
    ensures next <= |s| && Scanned(s, next, n + 1) && LastBlank(s, n + 1, lastSpace, m)
    ensures |Glyphs(Tokens(s)[..n + 1])| == |Glyphs(Tokens(s)[..n])|
  {
    EscapeStep(s, i, next, n);
    BlankStep(s, i, n, lastSpace, m);
  }

  lemma GlyphPassed(s: string, i: nat, n: nat, lastSpace: int, m: int)
    requires i < |s| && Scanned(s, i, n) && !StartsEscape(s[i..]) && LastBlank(s, n, lastSpace, m)
    ensures Scanned(s, i + 1, n + 1) && Tokens(s)[n] == Glyph(s[i])
    ensures |Glyphs(Tokens(s)[..n + 1])| == |Glyphs(Tokens(s)[..n])| + 1
    ensures LastBlank(s, n + 1, if s[i] == ' ' then i else lastSpace, if s[i] == ' ' then n else m)
  {
    GlyphStep(s, i, n);
    BlankStep(s, i, n, lastSpace, m);
  }

  lemma EscapeStep(s: string, i: nat, next: nat, n: nat)
    requires i < |s| && Scanned(s, i, n) && StartsEscape(s[i..]) && next == i + HeadLen(s[i..])
    ensures Scanned(s, next, n + 1) && Tokens(s)[n] == Escape(s[i..next])
    ensures |Glyphs(Tokens(s)[..n + 1])| == |Glyphs(Tokens(s)[..n])|
  {
    ScanStep(s, i, n);
    HeadEscape(s, i, next);
    GlyphsSnoc(Tokens(s), n);
  }

  lemma HeadEscape(s: string, i: nat, next: nat)
    requires i < |s| && StartsEscape(s[i..]) && next == i + HeadLen(s[i..])
    ensures next <= |s| && Head(s[i..]) == Escape(s[i..next])
  {
    assert s[i..][..HeadLen(s[i..])] == s[i..next];
  }

  lemma GlyphStep(s: string, i: nat, n: nat)
    requires i < |s| && Scanned(s, i, n) && !StartsEscape(s[i..])
    ensures Scanned(s, i + 1, n + 1) && Tokens(s)[n] == Glyph(s[i])
    ensures |Glyphs(Tokens(s)[..n + 1])| == |Glyphs(Tokens(s)[..n])| + 1
  {
    assert HeadLen(s[i..]) == 1;
    ScanStep(s, i, n);
    GlyphsSnoc(Tokens(s), n);
  }

  /** Steps over the escape sequence at `i`; `j` is its final byte, or the end of the line. */
  method SkipEscape(s: string, i: nat) returns (j: nat, next: nat)
    requires i < |s| && StartsEscape(s[i..])
    ensures j == i + FinalAt(s[i..], 2) && next == i + HeadLen(s[i..])
  {
    j := i + 2;
    while j < |s| && !IsFinal(s[j])
      invariant i + 2 <= j <= |s|
      invariant forall x :: i + 2 <= x < j ==> !IsFinal(s[x])
    {
      j := j + 1;
    }
    EscapeEnd(s, i, j);
    next := if j < |s| then j + 1 else j;
  }

  /** `m` is the last blank among the first `n` tokens and starts at `lastSpace`; -1 when there is none. */
  ghost predicate LastBlank(s: string, n: nat, lastSpace: int, m: int) {
    n <= |Tokens(s)| && -1 <= m < n && (lastSpace == -1 <==> m == -1) && lastSpace >= -1 &&
    (m >= 0 ==> Tokens(s)[m] == BLANK && Scanned(s, lastSpace, m)) &&
    forall j :: m < j < n ==> Tokens(s)[j] != BLANK
  }

  lemma CutHere(s: string, limit: nat, i: nat, n: nat, lastSpace: int, m: int)
    requires i < |s| && n < |Tokens(s)| && Tokens(s)[n] == Glyph(s[i]) && Scanned(s, i + 1, n + 1)
    requires |Glyphs(Tokens(s)[..n])| + 1 == limit
    requires LastBlank(s, n + 1, lastSpace, m)
    ensures var cut := if lastSpace > 0 then lastSpace else i + 1;
      0 <= cut <= |s| && Parts(s, limit, s[..cut], LStrip(s[cut..]))
  {
    var cut, c := if lastSpace > 0 then lastSpace else i + 1, if lastSpace > 0 then m else n + 1;
    if m >= 0 {
      ScannedText(s, lastSpace, m);
    }
    assert CutPoint(Tokens(s), limit, c) by {
      assert Tokens(s)[n].Glyph?;
    }
    ScannedText(s, cut, c);
    EnoughGlyphs(Tokens(s), n);
  }

  lemma EnoughGlyphs(ts: seq<Token>, n: nat)
    requires n < |ts| && ts[n].Glyph?
    ensures |Glyphs(ts)| >= |Glyphs(ts[..n])| + 1
  {
    GlyphsSnoc(ts, n);
    GlyphsConcat(ts[..n + 1], ts[n + 1..]);
    assert ts == ts[..n + 1] + ts[n + 1..];
  }

  // ---------- the colour scanners ----------

  /** The scanner's test for a colour code is `IsCode` of the token. */
  lemma CodeToken(s: string, i: nat, j: nat, next: nat)
    requires i < |s| && StartsEscape(s[i..]) && j == i + FinalAt(s[i..], 2) && next == i + HeadLen(s[i..])
    ensures var t := Escape(s[i..next]);
      (IsCode(t) <==> j < |s| && s[j] == 'm') && (IsCode(t) ==> t.text[2..|t.text| - 1] == s[i + 2..j])
  {
    var u, text := s[i..], s[i..next];
    var k := FinalAt(u, 2);
    if k < |u| {
      assert text[|text| - 1] == s[j];
      assert |text| == k + 1 && j == i + k;
      forall x | 2 <= x < k ensures text[x] == s[i + x] {}
      assert text[2..k] == s[i + 2..i + k];
    } else {
      assert text == u;
      assert |u| >= 3 ==> !IsFinal(u[|u| - 1]);
    }
  }

  lemma ActiveSnoc(ts: seq<Token>, n: nat)
    requires n < |ts|
    ensures Active(ts[..n + 1]) ==
      if IsReset(ts[n]) then [] else if IsColor(ts[n]) then Active(ts[..n]) + [ts[n]] else Active(ts[..n])
    ensures Dominant(ts[..n + 1]) == if IsColor(ts[n]) then [ts[n]] else Dominant(ts[..n])
  {
    assert ts[..n + 1][..n] == ts[..n];
  }

  lemma TextOfOne(t: Token)
    ensures Text([t]) == TokenText(t)
  {
    assert Text([t]) == TokenText(t) + Text([]);
  }

  lemma TextAppend(ts: seq<Token>, t: Token)
    ensures Text(ts + [t]) == Text(ts) + TokenText(t)
  {
    TextConcat(ts, [t]);
    TextOfOne(t);
  }

  /** What one escape sequence does to the active and the dominant colours. */
  lemma EscapeColors(raw: string, i: nat, n: nat, j: nat, next: nat)
    requires i < |raw| && Scanned(raw, i, n) && StartsEscape(raw[i..])
    requires j == i + FinalAt(raw[i..], 2) && next == i + HeadLen(raw[i..])
    ensures Scanned(raw, next, n + 1) && i + 2 <= j
    ensures var ts, isCode := Tokens(raw), j < |raw| && raw[j] == 'm';
      var isReset := isCode && (raw[i + 2..j] == "0" || raw[i + 2..j] == "");
      Text(Active(ts[..n + 1])) == (if isReset then ""
                                    else if isCode then Text(Active(ts[..n])) + raw[i..next]
                                    else Text(Active(ts[..n]))) &&
      Text(Dominant(ts[..n + 1])) == if isCode && !isReset then raw[i..next] else Text(Dominant(ts[..n]))
  {
    var t := Escape(raw[i..next]);
    EscapeStep(raw, i, next, n);
    CodeToken(raw, i, j, next);
    ActiveSnoc(Tokens(raw), n);
    TextOfOne(t);
    TextAppend(Active(Tokens(raw)[..n]), t);
  }

  lemma GlyphColors(raw: string, i: nat, n: nat)
    requires i < |raw| && Scanned(raw, i, n) && !StartsEscape(raw[i..])
    ensures Scanned(raw, i + 1, n + 1)
    ensures Active(Tokens(raw)[..n + 1]) == Active(Tokens(raw)[..n])
    ensures Dominant(Tokens(raw)[..n + 1]) == Dominant(Tokens(raw)[..n])
  {
    GlyphStep(raw, i, n);
    ActiveSnoc(Tokens(raw), n);
  }

  /** The colour codes in force at the end of `raw`. */
  method ActiveColor(raw: string) returns (active: string)
    ensures active == Text(Active(Tokens(raw)))
  {
    active := "";
    var i := 0;
    ghost var n := 0;
    ScanStart(raw);
    while i < |raw|
      invariant i >= 0 && n >= 0 && Scanned(raw, i, n)
      invariant active == Text(Active(Tokens(raw)[..n]))
      decreases |raw| - i
    {
      if StartsEscape(raw[i..]) {
        var j, next := SkipEscape(raw, i);
        EscapeColors(raw, i, n, j, next);
        if j < |raw| && raw[j] == 'm' {
          var code := raw[i + 2..j];
          active := if code == "0" || code == "" then "" else active + raw[i..next];
        }
        i, n := next, n + 1;
      } else {
        GlyphColors(raw, i, n);
        i, n := i + 1, n + 1;
      }
    }
    ScanEnd(raw, n);
  }

  /** The last colour code set anywhere in `raw`. */
  method DominantColor(raw: string) returns (last: string)
    ensures last == Text(Dominant(Tokens(raw)))
  {
    last := "";
    var i := 0;
    ghost var n := 0;
    ScanStart(raw);
    while i < |raw|
      invariant i >= 0 && n >= 0 && Scanned(raw, i, n)
      invariant last == Text(Dominant(Tokens(raw)[..n]))
      decreases |raw| - i
    {
      if StartsEscape(raw[i..]) {
        var j, next := SkipEscape(raw, i);
        EscapeColors(raw, i, n, j, next);
        if j < |raw| && raw[j] == 'm' {
          var code := raw[i + 2..j];
          if code != "0" && code != "" {
            last := raw[i..next];
          }
        }
        i, n := next, n + 1;
      } else {
        GlyphColors(raw, i, n);
        i, n := i + 1, n + 1;
      }
    }
    ScanEnd(raw, n);
  }

  // ---------- joining pieces ----------

  predicate Whole(ts: seq<Token>) {
    forall t :: t in ts && t.Escape? ==> Complete(t.text)
  }

  /** No introducer arises where `a` meets `b`. */
  predicate Joins(a: seq<Token>, b: seq<Token>) {
    a != [] && b != [] && a[|a| - 1] == Glyph(ESC) ==> b[0] != Glyph('[')
  }

  lemma {:induction false} NormalConcat(a: seq<Token>, b: seq<Token>)
    requires Normal(a) && Normal(b) && Whole(a) && Joins(a, b)
    ensures Normal(a + b)
  {
    if a == [] {
      assert a + b == b;
    } else {
      assert Whole(a[1..]);
      NormalConcat(a[1..], b);
      assert (a + b)[1..] == a[1..] + b;
      assert a[0] in a;
    }
  }

  lemma TokensConcat(s: string, t: string)
    requires Whole(Tokens(s)) && Joins(Tokens(s), Tokens(t))
    ensures Tokens(s + t) == Tokens(s) + Tokens(t)
  {
    TokensAreNormal(s);
    TokensAreNormal(t);
    NormalConcat(Tokens(s), Tokens(t));
    TokensOfText(Tokens(s) + Tokens(t));
    TextConcat(Tokens(s), Tokens(t));
    TextOfTokens(s);
    TextOfTokens(t);
  }

  lemma {:induction false} ParamsAreNotFinal(s: string, j: nat)
    requires j <= |s| && ParamsEnd(s, j) < |s| && s[ParamsEnd(s, j)] == 'm'
    ensures FinalAt(s, j) == ParamsEnd(s, j)
    decreases |s| - j
  {
    if IsParam(s[j]) {
      ParamsAreNotFinal(s, j + 1);
    }
  }

  lemma {:induction false} ParamsEndPrefix(text: string, rest: string, j: nat)
    requires j <= |text| && ParamsEnd(text, j) < |text|
    ensures ParamsEnd(text + rest, j) == ParamsEnd(text, j)
    decreases |text| - j
  {
    assert (text + rest)[j] == text[j];
    if IsParam(text[j]) {
      ParamsEndPrefix(text, rest, j + 1);
    }
  }

  /** On a line whose escapes are all colour codes, stripping the codes leaves the glyphs. */
  lemma {:induction false} VisibleIsGlyphs(s: string)
    requires SgrOnly(Tokens(s))
    ensures Visible(s) == Glyphs(Tokens(s))
    decreases |s|
  {
    if s != "" {
      var n := HeadLen(s);
      assert Tokens(s) == [Head(s)] + Tokens(s[n..]);
      VisibleIsGlyphs(s[n..]);
      CodeLenIsHead(s);
    }
  }

  lemma CodeLenIsHead(s: string)
    requires s != "" && Sgr(Head(s))
    ensures CodeLen(s) == if StartsEscape(s) then HeadLen(s) else 0
  {
    if StartsEscape(s) {
      var text, rest := s[..HeadLen(s)], s[HeadLen(s)..];
      ParamsEndPrefix(text, rest, 2);
      assert text + rest == s;
    }
  }

  /** No colour code reaches over the end of text that ends in its only final byte. */
  lemma CodeLenWhole(b: string, rest: string)
    requires b != "" && IsFinal(b[|b| - 1])
    requires forall i :: 0 <= i < |b| - 1 ==> !IsFinal(b[i])
    ensures CodeLen(b + rest) == CodeLen(b)
    ensures CodeLen(b) > 0 ==> CodeLen(b) == |b|
  {
    if |b| >= 2 && StartsEscape(b) {
      ParamsWithin(b, 2);
      ParamsEndPrefix(b, rest, 2);
      var k := ParamsEnd(b, 2);
      assert (b + rest)[k] == b[k];
    }
  }

  lemma {:induction false} ParamsWithin(b: string, j: nat)
    requires j < |b| && IsFinal(b[|b| - 1])
    ensures ParamsEnd(b, j) < |b|
    decreases |b| - j
  {
    if IsParam(b[j]) && j < |b| - 1 {
      ParamsWithin(b, j + 1);
    }
  }

  /** Text that ends in its only final byte is stripped on its own. */
  lemma {:induction false} VisibleSuffix(b: string, rest: string)
    requires b != "" ==> IsFinal(b[|b| - 1])
    requires forall i :: 0 <= i < |b| - 1 ==> !IsFinal(b[i])
    ensures Visible(b + rest) == Visible(b) + Visible(rest)
    decreases |b|
  {
    var s := b + rest;
    if b == "" {
      assert s == rest;
    } else {
      CodeLenWhole(b, rest);
      if CodeLen(b) > 0 {
        assert b[|b|..] == "" && s[|b|..] == rest;
      } else {
        assert s[1..] == b[1..] + rest;
        VisibleSuffix(b[1..], rest);
        Regroup([b[0]], Visible(b[1..]), Visible(rest));
      }
    }
  }

  /** An escape that the stripping pattern does not match shows its introducer at least. */
  lemma BrokenHeadShows(s: string)
    requires s != "" && !Sgr(Head(s))
    ensures |Visible(s)| >= 2 + |Visible(s[HeadLen(s)..])|
  {
    VisibleHead(s);
    BrokenHasNoCode(s);
    var text := s[..HeadLen(s)];
    assert Visible(text) == [text[0]] + Visible(text[1..]);
    assert !StartsEscape(text[1..]);
    assert Visible(text[1..]) == [text[1]] + Visible(text[1..][1..]);
  }

  lemma BrokenHasNoCode(s: string)
    requires s != "" && !Sgr(Head(s))
    ensures CodeLen(s[..HeadLen(s)]) == 0
  {
    var text := s[..HeadLen(s)];
    var k := ParamsEnd(text, 2);
    assert k < |text| ==> text[k] == s[k];
    if FinalAt(s, 2) < |s| {
      CodeLenWhole(text, "");
    }
  }

  /** The width that is measured is at least the number of glyphs, and at least two with a code that is not stripped. */
  lemma {:induction false} VisibleBounds(s: string)
    ensures |Visible(s)| >= |Glyphs(Tokens(s))|
    ensures (exists t :: t in Tokens(s) && !Sgr(t)) ==> |Visible(s)| >= 2
    decreases |s|
  {
    if s != "" {
      var n := HeadLen(s);
      assert Tokens(s) == [Head(s)] + Tokens(s[n..]);
      assert Glyphs(Tokens(s)) == (if Head(s).Glyph? then [Head(s).c] else "") + Glyphs(Tokens(s[n..]));
      VisibleBounds(s[n..]);
      if Sgr(Head(s)) {
        CodeLenIsHead(s);
      } else {
        BrokenHeadShows(s);
      }
    }
  }

  // ---------- what wrapping must keep ----------

  /** What a wrap may drop or repeat: blanks, line ends, and codes that set a colour. */
  predicate Fades(t: Token) {
    t == BLANK || t == Glyph('\n') || IsColor(t)
  }

  /** Everything else: the other visible characters, and all resets and further escapes. */
  ghost function Solid(ts: seq<Token>): seq<Token> {
    if ts == [] then [] else (if Fades(ts[0]) then [] else [ts[0]]) + Solid(ts[1..])
  }

  lemma {:induction false} InkConcat(a: string, b: string)
    ensures Ink(a + b) == Ink(a) + Ink(b)
  {
    if a == "" {
      assert a + b == b;
    } else {
      InkConcat(a[1..], b);
      assert (a + b)[1..] == a[1..] + b;
      Regroup(if a[0] == ' ' || a[0] == '\n' then "" else [a[0]], Ink(a[1..]), Ink(b));
    }
  }

  lemma {:induction false} SolidConcat(a: seq<Token>, b: seq<Token>)
    ensures Solid(a + b) == Solid(a) + Solid(b)
  {
    if a == [] {
      assert a + b == b;
    } else {
      SolidConcat(a[1..], b);
      assert (a + b)[1..] == a[1..] + b;
      Regroup(if Fades(a[0]) then [] else [a[0]], Solid(a[1..]), Solid(b));
    }
  }

  lemma {:induction false} FadingHasNoSolid(ts: seq<Token>)
    requires forall t :: t in ts ==> Fades(t)
    ensures Solid(ts) == []
  {
    if ts != [] {
      assert ts[0] in ts;
      FadingHasNoSolid(ts[1..]);
    }
  }

  lemma {:induction false} DropBlanksSuffix(ts: seq<Token>)
    ensures exists k :: 0 <= k <= |ts| && DropBlanks(ts) == ts[k..]
  {
    if ts != [] && ts[0] == BLANK {
      DropBlanksSuffix(ts[1..]);
      var k :| 0 <= k <= |ts[1..]| && DropBlanks(ts[1..]) == ts[1..][k..];
      assert ts[1..][k..] == ts[k + 1..];
    } else {
      assert ts[0..] == ts;
    }
  }

  lemma {:induction false} DropBlanksFacts(ts: seq<Token>)
    ensures Solid(DropBlanks(ts)) == Solid(ts)
    ensures exists k :: 0 <= k <= |ts| && DropBlanks(ts) == ts[k..]
    ensures |Glyphs(DropBlanks(ts))| <= |Glyphs(ts)|
    ensures ts != [] && ts[0] == BLANK ==> |Glyphs(DropBlanks(ts))| < |Glyphs(ts)|
  {
    DropBlanksSuffix(ts);
    if ts != [] && ts[0] == BLANK {
      DropBlanksFacts(ts[1..]);
      assert Glyphs(ts) == " " + Glyphs(ts[1..]);
    }
  }

  lemma {:induction false} EscapesHaveNoGlyphs(ts: seq<Token>)
    requires forall t :: t in ts ==> t.Escape?
    ensures Glyphs(ts) == ""
  {
    if ts != [] {
      assert ts[0] in ts;
      EscapesHaveNoGlyphs(ts[1..]);
    }
  }

  // ---------- one cut ----------

  function Min(a: nat, b: nat): nat {
    if a < b then a else b
  }

  /** The hanging indent. */
  function Indent(w: nat): nat {
    Min(30, w / 2)
  }

  lemma IndentIs(w: nat)
    ensures Indent(w) == if w < 60 then w / 2 else 30
  {
  }

  function Spaces(n: nat): string {
    if n == 0 then "" else " " + Spaces(n - 1)
  }

  predicate Blank(ts: seq<Token>) {
    forall t :: t in ts ==> t == BLANK
  }

  function Blanks(n: nat): seq<Token> {
    if n == 0 then [] else [BLANK] + Blanks(n - 1)
  }

  lemma {:induction false} SpacesAreBlanks(n: nat)
    ensures Tokens(Spaces(n)) == Blanks(n)
  {
    if n > 0 {
      SpacesAreBlanks(n - 1);
      assert (" " + Spaces(n - 1))[1..] == Spaces(n - 1);
    }
  }

  lemma {:induction false} BlanksFacts(n: nat)
    ensures Blank(Blanks(n)) && |Glyphs(Blanks(n))| == n && Solid(Blanks(n)) == []
  {
    if n > 0 {
      BlanksFacts(n - 1);
      assert Glyphs(Blanks(n)) == " " + Glyphs(Blanks(n - 1));
      assert Blanks(n)[1..] == Blanks(n - 1);
    }
  }

  lemma TokensOfSpaces(n: nat)
    ensures Blank(Tokens(Spaces(n))) && Whole(Tokens(Spaces(n))) && SgrOnly(Tokens(Spaces(n)))
    ensures |Glyphs(Tokens(Spaces(n)))| == n && Solid(Tokens(Spaces(n))) == []
  {
    SpacesAreBlanks(n);
    BlanksFacts(n);
  }

  lemma IndentedLine(n: nat, s: string)
    ensures Tokens(Spaces(n) + s) == Tokens(Spaces(n)) + Tokens(s)
    ensures |Glyphs(Tokens(Spaces(n) + s))| == n + |Glyphs(Tokens(s))|
    ensures Solid(Tokens(Spaces(n) + s)) == Solid(Tokens(s))
  {
    TokensOfSpaces(n);
    var pad := Tokens(Spaces(n));
    assert pad != [] ==> pad[|pad| - 1] in pad;
    TokensConcat(Spaces(n), s);
    GlyphsConcat(Tokens(Spaces(n)), Tokens(s));
    SolidConcat(Tokens(Spaces(n)), Tokens(s));
  }

  /** A cut keeps within the limit, makes progress and loses nothing solid. */
  lemma CutFacts(ts: seq<Token>, limit: nat, n: nat)
    requires limit >= 1 && n <= |ts| && CutPoint(ts, limit, n)
    ensures |Glyphs(ts[..n])| <= limit
    ensures |Glyphs(DropBlanks(ts[n..]))| < |Glyphs(ts)|
    ensures Solid(ts[..n]) + Solid(DropBlanks(ts[n..])) == Solid(ts)
  {
    var front, back := ts[..n], ts[n..];
    assert front + back == ts;
    GlyphsConcat(front, back);
    SolidConcat(front, back);
    DropBlanksFacts(back);
    CutWidth(ts, limit, n);
  }

  lemma CutWidth(ts: seq<Token>, limit: nat, n: nat)
    requires limit >= 1 && n <= |ts| && CutPoint(ts, limit, n)
    ensures |Glyphs(ts[..n])| <= limit
    ensures |Glyphs(ts[..n])| > 0 || (n < |ts| && ts[n] == BLANK)
  {
    var k :| 0 <= k < |ts| && ts[k].Glyph? && |Glyphs(ts[..k])| + 1 == limit &&
      if exists j :: 0 < j <= k && ts[j] == BLANK
      then 0 < n <= k && ts[n] == BLANK && forall j :: n < j <= k ==> ts[j] != BLANK
      else n == k + 1;
    if n <= k {
      assert ts[..n] + ts[n..k] == ts[..k];
      GlyphsConcat(ts[..n], ts[n..k]);
    } else {
      GlyphsSnoc(ts, k);
    }
  }

  ghost function CarryText(line: string, content: string): string {
    Text(Carry(Tokens(line), Tokens(content)))
  }

  // ---------- one turn of the loop ----------

  /** Nothing but tokens of the line. */
  ghost predicate Within(ts: seq<Token>, content: seq<Token>) {
    forall t :: t in ts ==> t in content
  }

  lemma {:induction false} NormalMembers(ts: seq<Token>)
    requires Normal(ts)
    ensures forall t :: t in ts && t.Escape? ==> Complete(t.text) || Truncated(t.text)
  {
    if ts != [] {
      NormalMembers(ts[1..]);
      assert ts == [ts[0]] + ts[1..];
    }
  }

  /** A colour code has its final byte, so the end of the line did not break it off. */
  lemma ColorsAreComplete(s: string)
    ensures forall t :: t in Tokens(s) && IsColor(t) ==> Complete(t.text)
  {
    TokensAreNormal(s);
    NormalMembers(Tokens(s));
  }

  lemma {:induction false} WholeEscapesAreNormal(ts: seq<Token>)
    requires forall t :: t in ts ==> t.Escape? && Complete(t.text)
    ensures Normal(ts)
  {
    if ts != [] {
      assert ts[0] in ts;
      WholeEscapesAreNormal(ts[1..]);
    }
  }

  /** The carried codes are colour codes of the line, scanned back as they were, and show no glyphs. */
  lemma CarryTokens(before: seq<Token>, content: string)
    requires Within(before, Tokens(content))
    ensures var c := Carry(before, Tokens(content));
      Tokens(Text(c)) == c && Glyphs(c) == "" && Solid(c) == [] && Whole(c) && Within(c, Tokens(content)) &&
      forall t :: t in c ==> t.Escape? && IsColor(t)
  {
    var c := Carry(before, Tokens(content));
    CarryEmptyIffColourless(before, Tokens(content));
    ColorsAreComplete(content);
    WholeEscapesAreNormal(c);
    TokensOfText(c);
    EscapesHaveNoGlyphs(c);
    FadingHasNoSolid(c);
  }

  lemma PieceTokens(remaining: string, limit: nat, before: string, after: string)
    requires limit >= 1 && IsSplit(remaining, limit, before, after)
    ensures Within(Tokens(before), Tokens(remaining)) && Within(Tokens(after), Tokens(remaining))
    ensures |Glyphs(Tokens(before))| <= limit
    ensures |Glyphs(Tokens(after))| < |Glyphs(Tokens(remaining))|
    ensures Solid(Tokens(before)) + Solid(Tokens(after)) == Solid(Tokens(remaining))
  {
    var ts := Tokens(remaining);
    var n :| 0 <= n <= |ts| && CutPoint(ts, limit, n) && before == Text(ts[..n]) && after == LStrip(Text(ts[n..]));
    PieceOf(remaining, n);
    CutFacts(ts, limit, n);
  }

  /** What the two pieces of a cut are scanned as. */
  lemma PieceOf(remaining: string, n: nat)
    requires n <= |Tokens(remaining)|
    ensures var ts := Tokens(remaining);
      Tokens(Text(ts[..n])) == ts[..n] && Tokens(LStrip(Text(ts[n..]))) == DropBlanks(ts[n..]) &&
      Within(DropBlanks(ts[n..]), ts)
  {
    var ts := Tokens(remaining);
    TokensAreNormal(remaining);
    NormalPrefix(ts, n);
    TokensOfText(ts[..n]);
    NormalSuffix(ts, n);
    StripIsDrop(ts[n..]);
    DropBlanksFacts(ts[n..]);
    var k :| 0 <= k <= |ts[n..]| && DropBlanks(ts[n..]) == ts[n..][k..];
    NormalSuffix(ts[n..], k);
    TokensOfText(ts[n..][k..]);
  }

  /** A turn keeps within the limit, loses nothing solid, and leaves tokens of the line; a cut leaves fewer glyphs. */
  lemma TurnFacts(remaining: string, content: string, limit: nat, before: string, after: string)
    requires limit >= 1 && Parts(remaining, limit, before, after) && Within(Tokens(remaining), Tokens(content))
    ensures Within(Tokens(before), Tokens(content)) && |Glyphs(Tokens(before))| <= limit
    ensures var rest := Tokens(CarryText(before, content) + after);
      Within(rest, Tokens(content)) && Solid(Tokens(before)) + Solid(rest) == Solid(Tokens(remaining)) &&
      if |Glyphs(Tokens(remaining))| < limit then Glyphs(rest) == ""
      else |Glyphs(rest)| < |Glyphs(Tokens(remaining))|
  {
    if |Glyphs(Tokens(remaining))| >= limit {
      PieceTokens(remaining, limit, before, after);
    }
    CarriedRest(Tokens(before), content, after);
  }

  lemma CarriedRest(before: seq<Token>, content: string, after: string)
    requires Within(before, Tokens(content))
    ensures var c := Carry(before, Tokens(content));
      Tokens(Text(c) + after) == c + Tokens(after) && Within(c, Tokens(content))
    ensures var rest := Tokens(Text(Carry(before, Tokens(content))) + after);
      Glyphs(rest) == Glyphs(Tokens(after)) && Solid(rest) == Solid(Tokens(after))
  {
    var c := Carry(before, Tokens(content));
    CarryTokens(before, content);
    assert c != [] ==> c[|c| - 1] in c;
    TokensConcat(Text(c), after);
    GlyphsConcat(c, Tokens(after));
    SolidConcat(c, Tokens(after));
  }

  lemma {:induction false} PaddingKeepsColors(pad: seq<Token>, ts: seq<Token>)
    requires Blank(pad)
    ensures Active(pad + ts) == Active(ts) && Dominant(pad + ts) == Dominant(ts)
    decreases |pad| + |ts|
  {
    if ts == [] {
      assert pad + ts == pad;
      if pad != [] {
        assert pad[|pad| - 1] in pad;
        var front := pad[..|pad| - 1];
        assert Blank(front) by {
          forall t | t in front ensures t == BLANK { assert t in pad; }
        }
        PaddingKeepsColors(front, []);
        assert front + [] == front;
      }
    } else {
      PaddingKeepsColors(pad, ts[..|ts| - 1]);
      assert (pad + ts)[..|pad| + |ts| - 1] == pad + ts[..|ts| - 1];
    }
  }

  lemma IndentKeepsColors(n: nat, before: string)
    ensures Active(Tokens(Spaces(n) + before)) == Active(Tokens(before))
    ensures Dominant(Tokens(Spaces(n) + before)) == Dominant(Tokens(before))
  {
    TokensOfSpaces(n);
    IndentedLine(n, before);
    PaddingKeepsColors(Tokens(Spaces(n)), Tokens(before));
  }

  lemma Regroup<T>(a: seq<T>, b: seq<T>, c: seq<T>)
    ensures (a + b) + c == a + (b + c)
  {
  }

  // ---------- the loop as it runs ----------

  /** The glyph that fills the limit. */
  lemma {:induction false} FillingGlyph(ts: seq<Token>, limit: nat) returns (k: nat)
    requires 1 <= limit <= |Glyphs(ts)|
    ensures k < |ts| && ts[k].Glyph? && |Glyphs(ts[..k])| + 1 == limit
  {
    var n := |ts| - 1;
    assert ts != [];
    GlyphsSnoc(ts, n);
    assert ts[..n + 1] == ts;
    if |Glyphs(ts[..n])| >= limit {
      k := FillingGlyph(ts[..n], limit);
      assert ts[..n][..k] == ts[..k];
    } else {
      k := n;
    }
  }

  lemma {:induction false} LastBlankUpTo(ts: seq<Token>, k: nat) returns (n: nat)
    requires k < |ts| && exists j :: 0 < j <= k && ts[j] == BLANK
    ensures 0 < n <= k && ts[n] == BLANK && forall j :: n < j <= k ==> ts[j] != BLANK
    decreases k
  {
    if ts[k] == BLANK {
      n := k;
    } else {
      n := LastBlankUpTo(ts, k - 1);
    }
  }

  lemma PartsExist(remaining: string, limit: nat)
    requires limit >= 1
    ensures exists before, after :: Parts(remaining, limit, before, after)
  {
    var ts := Tokens(remaining);
    if |Glyphs(ts)| < limit {
      assert Parts(remaining, limit, remaining, "");
    } else {
      var k := FillingGlyph(ts, limit);
      var n := k + 1;
      if exists j :: 0 < j <= k && ts[j] == BLANK {
        n := LastBlankUpTo(ts, k);
      }
      assert CutPoint(ts, limit, n);
      assert Parts(remaining, limit, Text(ts[..n]), LStrip(Text(ts[n..])));
    }
  }

  lemma FillingUnique(ts: seq<Token>, j: nat, k: nat)
    requires j < |ts| && k < |ts| && ts[j].Glyph? && ts[k].Glyph? && |Glyphs(ts[..j])| == |Glyphs(ts[..k])|
    ensures j == k
  {
    var a, b := if j < k then j else k, if j < k then k else j;
    if a < b {
      GlyphsSnoc(ts, a);
      assert ts[..b] == ts[..a + 1] + ts[a + 1..b];
      GlyphsConcat(ts[..a + 1], ts[a + 1..b]);
    }
  }

  lemma CutPointUnique(ts: seq<Token>, limit: nat, n: nat, m: nat)
    requires CutPoint(ts, limit, n) && CutPoint(ts, limit, m)
    ensures n == m
  {
    var j :| 0 <= j < |ts| && ts[j].Glyph? && |Glyphs(ts[..j])| + 1 == limit &&
      if exists i :: 0 < i <= j && ts[i] == BLANK
      then 0 < n <= j && ts[n] == BLANK && forall i :: n < i <= j ==> ts[i] != BLANK
      else n == j + 1;
    var k :| 0 <= k < |ts| && ts[k].Glyph? && |Glyphs(ts[..k])| + 1 == limit &&
      if exists i :: 0 < i <= k && ts[i] == BLANK
      then 0 < m <= k && ts[m] == BLANK && forall i :: m < i <= k ==> ts[i] != BLANK
      else m == k + 1;
    FillingUnique(ts, j, k);
  }

  lemma PartsUnique(remaining: string, limit: nat, b: string, a: string, b2: string, a2: string)
    requires Parts(remaining, limit, b, a) && Parts(remaining, limit, b2, a2)
    ensures b == b2 && a == a2
  {
    var ts := Tokens(remaining);
    if |Glyphs(ts)| >= limit {
      var n :| 0 <= n <= |ts| && CutPoint(ts, limit, n) && b == Text(ts[..n]) && a == LStrip(Text(ts[n..]));
      var m :| 0 <= m <= |ts| && CutPoint(ts, limit, m) && b2 == Text(ts[..m]) && a2 == LStrip(Text(ts[m..]));
      CutPointUnique(ts, limit, n, m);
    }
  }

  /** What remains after a turn. */
  ghost function Next(content: string, remaining: string, limit: nat): string
    requires limit >= 1
  {
    PartsExist(remaining, limit);
    var before, after :| Parts(remaining, limit, before, after);
    CarryText(before, content) + after
  }

  lemma TurnIsNext(content: string, remaining: string, limit: nat, before: string, after: string)
    requires limit >= 1 && Parts(remaining, limit, before, after)
    ensures Next(content, remaining, limit) == CarryText(before, content) + after
  {
    PartsExist(remaining, limit);
    var b, a :| Parts(remaining, limit, b, a) && Next(content, remaining, limit) == CarryText(b, content) + a;
    PartsUnique(remaining, limit, before, after, b, a);
  }

  /** The width that turn `i` has: the first line is not indented. */
  function LimitAt(w: nat, i: nat): (limit: nat)
    requires w >= 1
    ensures limit >= 1
  {
    if i == 0 then w else w - Indent(w)
  }

  /** What remains of the content when turn `i` begins, whether the loop gets there or not. */
  ghost function RemainingAt(content: string, w: nat, i: nat): string
    requires w >= 1
  {
    if i == 0 then content else Next(content, RemainingAt(content, w, i - 1), LimitAt(w, i - 1))
  }

  ghost predicate Stops(content: string, w: nat, i: nat)
    requires w >= 1
  {
    |Visible(RemainingAt(content, w, i))| <= LimitAt(w, i)
  }

  ghost predicate LoopEnds(content: string, w: nat)
    requires w >= 1
  {
    exists i: nat :: Stops(content, w, i)
  }

  ghost function StopTurn(content: string, w: nat): (i: nat)
    requires w >= 1 && LoopEnds(content, w)
    ensures Stops(content, w, i)
  {
    var i: nat :| Stops(content, w, i);
    i
  }

  lemma TurnAdvances(content: string, w: nat, i: nat, before: string, after: string)
    requires w >= 1 && Parts(RemainingAt(content, w, i), LimitAt(w, i), before, after)
    ensures RemainingAt(content, w, i + 1) == CarryText(before, content) + after
  {
    TurnIsNext(content, RemainingAt(content, w, i), LimitAt(w, i), before, after);
  }

  // ---------- when the loop ends ----------

  lemma {:induction false} FromThenOn(p: nat -> bool, from: nat, i: nat)
    requires p(from) && i >= from && forall j: nat :: j >= from && p(j) ==> p(j + 1)
    ensures p(i)
  {
    if i > from {
      FromThenOn(p, from, i - 1);
    }
  }

  lemma NextIsWithin(content: string, remaining: string, limit: nat)
    requires limit >= 1 && Within(Tokens(remaining), Tokens(content))
    ensures var next := Next(content, remaining, limit);
      Within(Tokens(next), Tokens(content)) &&
      (|Glyphs(Tokens(remaining))| >= limit ==> |Glyphs(Tokens(next))| < |Glyphs(Tokens(remaining))|)
  {
    PartsExist(remaining, limit);
    var before, after :| Parts(remaining, limit, before, after);
    TurnIsNext(content, remaining, limit, before, after);
    TurnFacts(remaining, content, limit, before, after);
  }

  lemma RemainingIsWithin(content: string, w: nat, i: nat)
    requires w >= 1
    ensures Within(Tokens(RemainingAt(content, w, i)), Tokens(content))
  {
    var within := (j: nat) => Within(Tokens(RemainingAt(content, w, j)), Tokens(content));
    forall j: nat | within(j) ensures within(j + 1) {
      NextIsWithin(content, RemainingAt(content, w, j), LimitAt(w, j));
    }
    FromThenOn(within, 0, i);
  }

  /** How many glyphs are left when turn `i` begins. */
  ghost function GlyphsAt(content: string, w: nat, i: nat): nat
    requires w >= 1
  {
    |Glyphs(Tokens(RemainingAt(content, w, i)))|
  }

  /** A turn that finds as many glyphs as its limit leaves fewer. */
  lemma GlyphsFall(content: string, w: nat, i: nat)
    requires w >= 1 && GlyphsAt(content, w, i) >= LimitAt(w, i)
    ensures GlyphsAt(content, w, i + 1) < GlyphsAt(content, w, i)
  {
    RemainingIsWithin(content, w, i);
    NextIsWithin(content, RemainingAt(content, w, i), LimitAt(w, i));
  }

  /** Turn `n` is the first to find fewer glyphs than its limit. */
  ghost predicate FirstShort(content: string, w: nat, n: nat)
    requires w >= 1
  {
    GlyphsAt(content, w, n) < LimitAt(w, n) && forall i :: 0 <= i < n ==> GlyphsAt(content, w, i) >= LimitAt(w, i)
  }

  lemma {:induction false} FirstBelow(g: nat -> nat, limit: nat -> nat, i: nat) returns (n: nat)
    requires forall j: nat :: g(j) >= limit(j) ==> g(j + 1) < g(j)
    requires forall j: nat :: j < i ==> g(j) >= limit(j)
    ensures g(n) < limit(n) && forall j: nat :: j < n ==> g(j) >= limit(j)
    decreases g(i)
  {
    if g(i) < limit(i) {
      n := i;
    } else {
      n := FirstBelow(g, limit, i + 1);
    }
  }

  lemma FirstShortTurn(content: string, w: nat) returns (n: nat)
    requires w >= 1
    ensures FirstShort(content, w, n)
  {
    var g, limit := (i: nat) => GlyphsAt(content, w, i), (i: nat) => LimitAt(w, i);
    forall j: nat | g(j) >= limit(j) ensures g(j + 1) < g(j) {
      GlyphsFall(content, w, j);
    }
    n := FirstBelow(g, limit, 0);
    forall i | 0 <= i < n ensures GlyphsAt(content, w, i) >= LimitAt(w, i) {
      assert g(i) >= limit(i);
    }
  }

  lemma {:induction false} ColorsAreActive(ts: seq<Token>)
    requires forall t :: t in ts ==> IsColor(t)
    ensures Active(ts) == ts
  {
    if ts != [] {
      var front, last := ts[..|ts| - 1], ts[|ts| - 1];
      assert ts == front + [last] && IsColor(last);
      forall t | t in front ensures IsColor(t) {
        assert t in ts;
      }
      ColorsAreActive(front);
    }
  }

  /** What is carried alone is carried again as it is. */
  lemma CarryIsFixed(remaining: string, content: string)
    requires Within(Tokens(remaining), Tokens(content))
    ensures var c := CarryText(remaining, content); CarryText(c, content) == c && Glyphs(Tokens(c)) == ""
  {
    var before, all := Tokens(remaining), Tokens(content);
    var c := Carry(before, all);
    CarryTokens(before, content);
    CarryEmptyIffColourless(before, all);
    ColorsAreActive(c);
    if c == [] {
      assert Text(c) == "" && Tokens("") == [];
      DominantSpec(all);
    }
  }

  /** When a carry is all that remains, it is all that remains after the next turn. */
  lemma CarryStays(content: string, w: nat, i: nat)
    requires w >= 1 && GlyphsAt(content, w, i) == 0
    requires CarryText(RemainingAt(content, w, i), content) == RemainingAt(content, w, i)
    ensures RemainingAt(content, w, i + 1) == RemainingAt(content, w, i)
  {
    TurnAdvances(content, w, i, RemainingAt(content, w, i), "");
  }

  /** From a short turn on, all that remains is the carry. */
  lemma AfterShortTurn(content: string, w: nat, n: nat, i: nat)
    requires w >= 1 && GlyphsAt(content, w, n) < LimitAt(w, n) && i > n
    ensures RemainingAt(content, w, i) == CarryText(RemainingAt(content, w, n), content)
  {
    var c := CarryText(RemainingAt(content, w, n), content);
    RemainingIsWithin(content, w, n);
    CarryIsFixed(RemainingAt(content, w, n), content);
    TurnAdvances(content, w, n, RemainingAt(content, w, n), "");
    var carried := (j: nat) => RemainingAt(content, w, j) == c;
    forall j: nat | carried(j) ensures carried(j + 1) {
      CarryStays(content, w, j);
    }
    FromThenOn(carried, n + 1, i);
  }

  /**
   * The loop ends exactly when what remains fits at some turn up to the first with fewer glyphs than its limit, or
   * the codes carried from that turn fit the width of a continuation.
   */
  lemma LoopEndsIff(content: string, w: nat) returns (n: nat)
    requires w >= 1
    ensures FirstShort(content, w, n)
    ensures LoopEnds(content, w) <==>
            (exists i :: 0 <= i <= n && Stops(content, w, i)) ||
            |Visible(CarryText(RemainingAt(content, w, n), content))| <= w - Indent(w)
  {
    n := FirstShortTurn(content, w);
    AfterShortTurn(content, w, n, n + 1);
    if LoopEnds(content, w) {
      var i := StopTurn(content, w);
      if i > n {
        AfterShortTurn(content, w, n, i);
      }
    }
    if |Visible(CarryText(RemainingAt(content, w, n), content))| <= w - Indent(w) {
      assert Stops(content, w, n + 1);
    }
  }

  // ---------- what a caller can check ----------

  /** Every colour code of the line is one that the stripping pattern matches. */
  ghost predicate ColorsComplete(content: string) {
    forall t :: t in Tokens(content) && IsColor(t) ==> Sgr(t)
  }

  /** A code that sets a colour and that the pattern does not match. */
  predicate Incomplete(t: Token) {
    IsColor(t) && !Sgr(t)
  }

  /** A reset, and a colour that comes before it or that no visible character separates from it. */
  ghost predicate RelievesAt(post: seq<Token>, r: int, c: int) {
    0 <= r < |post| && 0 <= c < |post| && IsReset(post[r]) && IsColor(post[c]) &&
    forall k :: r < k < c ==> post[k].Escape?
  }

  /** What follows a colour code makes the loop forget it wherever the line is cut. */
  ghost predicate Relieves(post: seq<Token>) {
    exists r, c :: RelievesAt(post, r, c)
  }

  ghost predicate AllRelieved(ts: seq<Token>) {
    forall b :: 0 <= b < |ts| && Incomplete(ts[b]) ==> Relieves(ts[b + 1..])
  }

  lemma RelievesSuffix(a: seq<Token>, z: seq<Token>)
    ensures Relieves(z) ==> Relieves(a + z)
  {
    if Relieves(z) {
      var r, c :| RelievesAt(z, r, c);
      forall k | |a| + r < k < |a| + c ensures (a + z)[k].Escape? {
        assert (a + z)[k] == z[k - |a|];
      }
      assert RelievesAt(a + z, |a| + r, |a| + c);
    }
  }

  lemma {:induction false} ColorsMembers(ts: seq<Token>)
    ensures forall t :: t in Colors(ts) <==> t in ts && IsColor(t)
  {
    if ts != [] {
      ColorsMembers(ts[..|ts| - 1]);
      assert ts == ts[..|ts| - 1] + [ts[|ts| - 1]];
    }
  }

  predicate ResetFree(ts: seq<Token>) {
    forall t :: t in ts ==> !IsReset(t)
  }

  /** The codes after `b`, with and without the last token. */
  lemma SuffixSnoc(ts: seq<Token>, b: nat)
    requires b < |ts| - 1
    ensures var front, last := ts[..|ts| - 1][b + 1..], ts[|ts| - 1];
      ts[b + 1..] == front + [last] && (ResetFree(ts[b + 1..]) <==> ResetFree(front) && !IsReset(last)) &&
      Colors(ts[b + 1..]) == Colors(front) + if IsColor(last) then [last] else []
  {
    var front, last, post := ts[..|ts| - 1][b + 1..], ts[|ts| - 1], ts[b + 1..];
    assert post == front + [last] && post[..|post| - 1] == front;
    assert last in post && forall t :: t in post <==> t in front || t == last;
  }

  /** A code with no reset after it is active, and after it come the colours that follow it. */
  lemma {:induction false} ActiveAt(ts: seq<Token>, b: nat) returns (front: seq<Token>)
    requires b < |ts| && IsColor(ts[b]) && ResetFree(ts[b + 1..])
    ensures Active(ts) == (front + [ts[b]]) + Colors(ts[b + 1..])
  {
    var before, last := ts[..|ts| - 1], ts[|ts| - 1];
    if b == |ts| - 1 {
      front := Active(before);
      assert ts[b + 1..] == [];
    } else {
      SuffixSnoc(ts, b);
      front := ActiveAt(before, b);
      Regroup(front + [ts[b]], Colors(before[b + 1..]), if IsColor(last) then [last] else []);
    }
  }

  /** Where an active code stands. */
  lemma {:induction false} ActiveFrom(ts: seq<Token>, a: nat) returns (b: nat)
    requires a < |Active(ts)|
    ensures b < |ts| && ts[b] == Active(ts)[a] && IsColor(ts[b]) && ResetFree(ts[b + 1..])
    ensures Active(ts)[a + 1..] == Colors(ts[b + 1..])
  {
    var before, last := ts[..|ts| - 1], ts[|ts| - 1];
    var tail := if IsColor(last) then [last] else [];
    if a == |Active(before)| {
      b := |ts| - 1;
      assert ts[b + 1..] == [];
    } else {
      b := ActiveFrom(before, a);
      SuffixSnoc(ts, b);
      SliceConcat(Active(before), tail, a + 1);
    }
  }

  lemma SliceConcat(a: seq<Token>, b: seq<Token>, i: nat)
    requires i <= |a|
    ensures (a + b)[i..] == a[i..] + b
  {
  }

  /** A cut is just before a blank, just after a glyph, or at the end. */
  predicate CleanCut(ts: seq<Token>, n: nat) {
    n <= |ts| && (n == |ts| || ts[n] == BLANK || (n > 0 && ts[n - 1].Glyph?))
  }

  /** The tokens of what remains after a turn: what is carried from the first piece, and the rest without its blanks. */
  lemma TurnTokens(content: string, remaining: string, limit: nat) returns (n: nat, m: nat)
    requires limit >= 1 && Within(Tokens(remaining), Tokens(content))
    ensures var ts := Tokens(remaining);
      n <= m <= |ts| && CleanCut(ts, n) && Blank(ts[n..m]) &&
      Tokens(Next(content, remaining, limit)) == Carry(ts[..n], Tokens(content)) + ts[m..] &&
      (limit == 1 ==> forall k :: 0 <= k < n - 1 ==> ts[k].Escape?)
  {
    var ts := Tokens(remaining);
    PartsExist(remaining, limit);
    var before, after :| Parts(remaining, limit, before, after);
    TurnIsNext(content, remaining, limit, before, after);
    if |Glyphs(ts)| < limit {
      n, m := |ts|, |ts|;
      assert ts[..n] == ts && ts[n..] == [];
      if limit == 1 {
        NoGlyphsEscapes(ts);
      }
    } else {
      n :| 0 <= n <= |ts| && CutPoint(ts, limit, n) && before == Text(ts[..n]) && after == LStrip(Text(ts[n..]));
      PieceOf(remaining, n);
      m := DroppedBlanks(ts, n);
      CutAtOne(ts, limit, n);
    }
    CarriedRest(ts[..n], content, after);
  }

  lemma {:induction false} NoGlyphsEscapes(ts: seq<Token>)
    requires Glyphs(ts) == ""
    ensures forall k :: 0 <= k < |ts| ==> ts[k].Escape?
  {
    if ts != [] {
      NoGlyphsEscapes(ts[1..]);
      assert forall k :: 0 < k < |ts| ==> ts[k] == ts[1..][k - 1];
    }
  }

  lemma {:induction false} DroppedBlanks(ts: seq<Token>, n: nat) returns (m: nat)
    requires n <= |ts|
    ensures n <= m <= |ts| && Blank(ts[n..m]) && DropBlanks(ts[n..]) == ts[m..]
    ensures m < |ts| ==> ts[m] != BLANK
    decreases |ts| - n
  {
    if n < |ts| && ts[n] == BLANK {
      m := DroppedBlanks(ts, n + 1);
      assert ts[n..][1..] == ts[n + 1..] && ts[n..m] == [BLANK] + ts[n + 1..m];
    } else {
      m := n;
      assert n < |ts| ==> ts[n..][0] == ts[n];
    }
  }

  lemma CutAtOne(ts: seq<Token>, limit: nat, n: nat)
    requires n <= |ts| && CutPoint(ts, limit, n)
    ensures CleanCut(ts, n)
    ensures limit == 1 ==> forall k :: 0 <= k < n - 1 ==> ts[k].Escape?
  {
    var g :| 0 <= g < |ts| && ts[g].Glyph? && |Glyphs(ts[..g])| + 1 == limit &&
      if exists j :: 0 < j <= g && ts[j] == BLANK
      then 0 < n <= g && ts[n] == BLANK && forall j :: n < j <= g ==> ts[j] != BLANK
      else n == g + 1;
    if limit == 1 {
      NoGlyphsEscapes(ts[..g]);
      assert forall k :: 0 <= k < g ==> ts[k] == ts[..g][k];
    }
  }

  // ---------- every incomplete code is forgotten ----------

  /** An active code is still relieved, now by the colours carried after it and what comes next. */
  lemma StillRelieved(x: seq<Token>, gap: seq<Token>, z: seq<Token>)
    requires ResetFree(x) && Blank(gap) && Relieves(x + (gap + z))
    ensures Relieves(Colors(x) + z)
  {
    var y := gap + z;
    var r, c :| RelievesAt(x + y, r, c);
    assert forall k :: 0 <= k < |x| ==> (x + y)[k] == x[k] && x[k] in x;
    AfterGap(x, gap, z, r);
    var r' := r - |x| - |gap|;
    if c < |x| {
      assert (x + y)[c] in x;
      ColorsMembers(x);
      var k :| 0 <= k < |Colors(x)| && Colors(x)[k] == (x + y)[c];
      assert RelievesAt(Colors(x) + z, |Colors(x)| + r', k);
    } else {
      AfterGap(x, gap, z, c);
      RelievedBehind(x, gap, z, r, c);
      RelievesSuffix(Colors(x), z);
    }
  }

  /** What is neither in front of the blanks nor a blank comes after them. */
  lemma AfterGap(x: seq<Token>, gap: seq<Token>, z: seq<Token>, k: nat)
    requires |x| <= k < |x + (gap + z)| && Blank(gap) && (x + (gap + z))[k] != BLANK
    ensures k >= |x| + |gap| && (x + (gap + z))[k] == z[k - |x| - |gap|]
  {
    assert forall i :: 0 <= i < |gap| ==> (x + (gap + z))[|x| + i] == gap[i] && gap[i] in gap;
  }

  lemma RelievedBehind(x: seq<Token>, gap: seq<Token>, z: seq<Token>, r: int, c: int)
    requires RelievesAt(x + (gap + z), r, c) && r >= |x| + |gap| && c >= |x| + |gap|
    ensures Relieves(z)
  {
    var all, d := x + (gap + z), |x| + |gap|;
    forall k | r - d < k < c - d ensures z[k].Escape? {
      assert all[k + d] == z[k];
    }
    assert all[r] == z[r - d] && all[c] == z[c - d];
    assert RelievesAt(z, r - d, c - d);
  }

  /** A clean cut does not come between a reset and a colour that belong together. */
  lemma NotCutBetween(x: seq<Token>, y: seq<Token>, r: int, c: int)
    requires RelievesAt(x + y, r, c) && r < |x| <= c
    ensures y[0] != BLANK && x[|x| - 1].Escape?
  {
    assert (x + y)[|x|] == y[0] && (x + y)[|x| - 1] == x[|x| - 1];
    assert r == |x| - 1 || (x + y)[|x| - 1].Escape?;
    assert c == |x| || (x + y)[|x|].Escape?;
  }

  lemma RelievesNeeds(ts: seq<Token>)
    ensures Relieves(ts) ==> !ResetFree(ts) && exists t :: t in ts && IsColor(t)
  {
    if Relieves(ts) {
      var r, c :| RelievesAt(ts, r, c);
      assert ts[r] in ts && ts[c] in ts;
    }
  }

  lemma SuffixMembers(ts: seq<Token>, a: nat, b: nat)
    requires a <= b <= |ts|
    ensures forall t :: t in ts[b..] ==> t in ts[a..]
  {
    assert ts[a..] == ts[a..b] + ts[b..];
  }

  /** A code carried as the last colour is relieved by what comes after the cut. */
  lemma RelievedAfterCut(x: seq<Token>, gap: seq<Token>, z: seq<Token>)
    requires (forall t :: t in x ==> !IsColor(t)) && Blank(gap) && Relieves(x + (gap + z))
    requires gap + z == [] || (gap + z)[0] == BLANK || (x != [] && x[|x| - 1].Glyph?)
    ensures Relieves(z)
  {
    var all := x + (gap + z);
    var r, c :| RelievesAt(all, r, c);
    assert forall k :: 0 <= k < |x| ==> all[k] == x[k] && x[k] in x;
    AfterGap(x, gap, z, c);
    if r < |x| {
      NotCutBetween(x, gap + z, r, c);
    }
    AfterGap(x, gap, z, r);
    RelievedBehind(x, gap, z, r, c);
  }

  lemma Pieces(ts: seq<Token>, b: nat, n: nat, m: nat)
    requires b < n <= m <= |ts|
    ensures ts[b + 1..] == ts[..n][b + 1..] + (ts[n..m] + ts[m..])
  {
  }

  lemma Behind(carry: seq<Token>, ts: seq<Token>, m: nat, b: nat)
    requires m <= b < |ts|
    ensures var rest := carry + ts[m..];
      rest[|carry| + b - m] == ts[b] && rest[|carry| + b - m + 1..] == ts[b + 1..]
  {
  }

  lemma ActiveIsRelieved(ts: seq<Token>, n: nat, m: nat, a: nat)
    requires AllRelieved(ts) && n <= m <= |ts| && Blank(ts[n..m])
    requires a < |Active(ts[..n])| && Incomplete(Active(ts[..n])[a])
    ensures Relieves(Active(ts[..n])[a + 1..] + ts[m..])
  {
    var b := ActiveFrom(ts[..n], a);
    Pieces(ts, b, n, m);
    StillRelieved(ts[..n][b + 1..], ts[n..m], ts[m..]);
  }

  lemma DominantIsRelieved(ts: seq<Token>, n: nat, m: nat)
    requires AllRelieved(ts) && n <= m <= |ts| && CleanCut(ts, n) && Blank(ts[n..m])
    requires Dominant(ts[..n]) != [] && Incomplete(Dominant(ts[..n])[0])
    ensures Relieves(ts[m..])
  {
    var b := LastColor(ts[..n]);
    var x := ts[..n][b + 1..];
    Pieces(ts, b, n, m);
    assert x == [] || x[|x| - 1] == ts[n - 1];
    assert ts[n..] == ts[n..m] + ts[m..];
    RelievedAfterCut(x, ts[n..m], ts[m..]);
  }

  lemma LastColorIsComplete(ts: seq<Token>)
    requires AllRelieved(ts) && Dominant(ts) != []
    ensures !Incomplete(Dominant(ts)[0])
  {
    var b := LastColor(ts);
    RelievesNeeds(ts[b + 1..]);
  }

  lemma DominantIsOne(ts: seq<Token>)
    ensures |Dominant(ts)| <= 1
  {
    DominantSpec(ts);
  }

  /** A turn leaves every incomplete code that it carries with something that relieves it. */
  lemma CarriedIsRelieved(ts: seq<Token>, n: nat, m: nat, all: seq<Token>, a: nat)
    requires AllRelieved(ts) && AllRelieved(all)
    requires n <= m <= |ts| && CleanCut(ts, n) && Blank(ts[n..m])
    requires a < |Carry(ts[..n], all)| && Incomplete(Carry(ts[..n], all)[a])
    ensures Relieves(Carry(ts[..n], all)[a + 1..] + ts[m..])
  {
    if Active(ts[..n]) != [] {
      ActiveIsRelieved(ts, n, m, a);
    } else {
      DominantIsOne(ts[..n]);
      DominantIsOne(all);
      if Dominant(ts[..n]) != [] {
        DominantIsRelieved(ts, n, m);
        assert Carry(ts[..n], all)[a + 1..] + ts[m..] == ts[m..];
      } else {
        LastColorIsComplete(all);
      }
    }
  }

  lemma LastColor(ts: seq<Token>) returns (b: nat)
    requires Dominant(ts) != []
    ensures b < |ts| && IsColor(ts[b]) && Dominant(ts) == [ts[b]]
    ensures forall t :: t in ts[b + 1..] ==> !IsColor(t)
  {
    DominantSpec(ts);
    b :| 0 <= b < |ts| && Dominant(ts) == [ts[b]] && IsColor(ts[b]) && forall j :: b < j < |ts| ==> !IsColor(ts[j]);
  }

  lemma RelievedInFront(carry: seq<Token>, ts: seq<Token>, m: nat)
    requires AllRelieved(ts) && m <= |ts|
    requires forall a {:trigger carry[a]} ::
      0 <= a < |carry| && Incomplete(carry[a]) ==> Relieves(carry[a + 1..] + ts[m..])
    ensures AllRelieved(carry + ts[m..])
  {
    var rest := carry + ts[m..];
    forall a | 0 <= a < |rest| && Incomplete(rest[a]) ensures Relieves(rest[a + 1..]) {
      if a < |carry| {
        assert rest[a] == carry[a] && rest[a + 1..] == carry[a + 1..] + ts[m..];
      } else {
        Behind(carry, ts, m, a - |carry| + m);
      }
    }
  }

  lemma TurnKeepsRelieved(ts: seq<Token>, n: nat, m: nat, all: seq<Token>)
    requires AllRelieved(ts) && AllRelieved(all)
    requires n <= m <= |ts| && CleanCut(ts, n) && Blank(ts[n..m])
    ensures AllRelieved(Carry(ts[..n], all) + ts[m..])
  {
    var carry := Carry(ts[..n], all);
    forall a {:trigger carry[a]} | 0 <= a < |carry| && Incomplete(carry[a])
      ensures Relieves(carry[a + 1..] + ts[m..])
    {
      CarriedIsRelieved(ts, n, m, all, a);
    }
    RelievedInFront(carry, ts, m);
  }

  lemma RemainingIsRelieved(content: string, w: nat, i: nat)
    requires w >= 1 && AllRelieved(Tokens(content))
    ensures AllRelieved(Tokens(RemainingAt(content, w, i)))
  {
    var relieved := (j: nat) => AllRelieved(Tokens(RemainingAt(content, w, j)));
    forall j: nat | relieved(j) ensures relieved(j + 1) {
      RemainingIsWithin(content, w, j);
      var n, m := TurnTokens(content, RemainingAt(content, w, j), LimitAt(w, j));
      TurnKeepsRelieved(Tokens(RemainingAt(content, w, j)), n, m, Tokens(content));
    }
    FromThenOn(relieved, 0, i);
  }

  lemma ShownCarryEmpty(c: string)
    requires Glyphs(Tokens(c)) == "" && (forall t :: t in Tokens(c) ==> IsColor(t)) && AllRelieved(Tokens(c))
    ensures Visible(c) == ""
  {
    var ts := Tokens(c);
    forall t | t in ts ensures Sgr(t) {
      var b :| 0 <= b < |ts| && ts[b] == t;
      SuffixMembers(ts, 0, b + 1);
      RelievesNeeds(ts[b + 1..]);
    }
    VisibleIsGlyphs(c);
  }

  lemma CarriedShowsNothing(content: string, w: nat, n: nat)
    requires w >= 1 && AllRelieved(Tokens(content)) && FirstShort(content, w, n)
    ensures Visible(CarryText(RemainingAt(content, w, n), content)) == ""
  {
    RemainingIsRelieved(content, w, n + 1);
    RemainingIsWithin(content, w, n);
    AfterShortTurn(content, w, n, n + 1);
    CarryTokens(Tokens(RemainingAt(content, w, n)), content);
    ShownCarryEmpty(CarryText(RemainingAt(content, w, n), content));
  }

  /** The loop ends on every line on which each incomplete code is relieved. */
  lemma RelievedEnds(content: string, w: nat)
    requires w >= 1 && AllRelieved(Tokens(content))
    ensures LoopEnds(content, w)
  {
    var n := LoopEndsIff(content, w);
    CarriedShowsNothing(content, w, n);
  }

  /** Complete colour codes are enough, whatever other escapes the line has. */
  lemma CompleteColorsEnd(content: string, w: nat)
    requires w >= 1 && ColorsComplete(content)
    ensures LoopEnds(content, w)
  {
    RelievedEnds(content, w);
  }

  // ---------- at width one, an incomplete code that is not relieved stays ----------

  lemma RelievedBefore(x: seq<Token>, gap: seq<Token>, z: seq<Token>)
    requires ResetFree(x) && Relieves(Colors(x) + z)
    ensures Relieves(x + (gap + z))
  {
    var all, d := x + (gap + z), |x| + |gap| - |Colors(x)|;
    var r, c :| RelievesAt(Colors(x) + z, r, c);
    ColorsMembers(x);
    assert forall k :: 0 <= k < |Colors(x)| ==> IsColor(Colors(x)[k]);
    assert all[r + d] == z[r - |Colors(x)|];
    if c < |Colors(x)| {
      assert (Colors(x) + z)[c] in Colors(x);
      var k :| 0 <= k < |x| && x[k] == (Colors(x) + z)[c];
      assert RelievesAt(all, r + d, k);
    } else {
      forall k | r + d < k < c + d ensures all[k].Escape? {
        assert all[k] == (Colors(x) + z)[k - d];
      }
      assert all[c + d] == (Colors(x) + z)[c];
      assert RelievesAt(all, r + d, c + d);
    }
  }

  /** At width one a reset and a colour in the same piece have no glyph between them. */
  lemma BesideReset(ts: seq<Token>, b: nat, n: nat, t: Token)
    requires b < n <= |ts| && !ResetFree(ts[..n][b + 1..])
    requires forall k :: 0 <= k < n - 1 ==> ts[k].Escape?
    requires t in ts[..n][b + 1..] && IsColor(t)
    ensures Relieves(ts[b + 1..])
  {
    var x, post := ts[..n][b + 1..], ts[b + 1..];
    var t0 :| t0 in x && IsReset(t0);
    var r :| 0 <= r < |x| && x[r] == t0;
    var c :| 0 <= c < |x| && x[c] == t;
    assert post[r] == x[r] && post[c] == x[c];
    forall k | r < k < c ensures post[k].Escape? {
      assert post[k] == ts[b + 1 + k];
    }
    assert RelievesAt(post, r, c);
  }

  /** A colour that no reset follows comes after a place that one does. */
  lemma LaterColor(ts: seq<Token>, a: nat, b: nat)
    requires a < |ts| && b < |ts| && ResetFree(ts[a + 1..]) && !ResetFree(ts[b + 1..])
    ensures a > b && ts[a] in ts[b + 1..]
  {
    if a > b {
      assert ts[b + 1..][a - b - 1] == ts[a];
    }
  }

  lemma {:induction false} DominantAt(ts: seq<Token>, b: nat)
    requires b < |ts| && IsColor(ts[b]) && forall t :: t in ts[b + 1..] ==> !IsColor(t)
    ensures Dominant(ts) == [ts[b]]
  {
    var front, last := ts[..|ts| - 1], ts[|ts| - 1];
    if b < |front| {
      assert ts[b + 1..] == front[b + 1..] + [last];
      DominantAt(front, b);
    }
  }

  lemma OnlyDominantLeft(before: seq<Token>, b: nat, all: seq<Token>)
    requires b < |before| && IsColor(before[b]) && !ResetFree(before[b + 1..])
    requires forall t :: t in before[b + 1..] ==> !IsColor(t)
    ensures Carry(before, all) == [before[b]]
  {
    if Active(before) != [] {
      var a := ActiveFrom(before, 0);
      LaterColor(before, a, b);
    }
    DominantAt(before, b);
  }

  lemma NotAmongBlanks(ts: seq<Token>, n: nat, m: nat, b: nat)
    requires n <= m <= |ts| && n <= b < |ts| && Blank(ts[n..m]) && ts[b] != BLANK
    ensures b >= m
  {
    var gap := ts[n..m];
    assert forall i :: 0 <= i < |gap| ==> gap[i] in gap;
    assert forall i {:trigger ts[i]} :: n <= i < m ==> ts[i] == gap[i - n];
  }

  /** At width one a turn leaves some incomplete code that is not relieved, if there was one. */
  lemma TurnKeepsUnrelieved(ts: seq<Token>, n: nat, m: nat, all: seq<Token>)
    requires !AllRelieved(ts) && n <= m <= |ts| && Blank(ts[n..m])
    requires forall k :: 0 <= k < n - 1 ==> ts[k].Escape?
    ensures !AllRelieved(Carry(ts[..n], all) + ts[m..])
  {
    var b :| 0 <= b < |ts| && Incomplete(ts[b]) && !Relieves(ts[b + 1..]);
    var before, carry, z := ts[..n], Carry(ts[..n], all), ts[m..];
    if b >= n {
      NotAmongBlanks(ts, n, m, b);
      Behind(carry, ts, m, b);
      assert Incomplete((carry + z)[|carry| + b - m]);
    } else {
      var x := before[b + 1..];
      Pieces(ts, b, n, m);
      if ResetFree(x) {
        var front := ActiveAt(before, b);
        CarriedUnrelieved(front, ts[b], x, ts[n..m], z);
      } else {
        forall t | t in x ensures !IsColor(t) {
          if IsColor(t) {
            BesideReset(ts, b, n, t);
          }
        }
        OnlyDominantLeft(before, b, all);
        RelievesSuffix(x + ts[n..m], z);
        Regroup(x, ts[n..m], z);
        assert ([ts[b]] + z)[0] == ts[b] && ([ts[b]] + z)[1..] == z;
      }
    }
  }

  lemma CarriedUnrelieved(front: seq<Token>, t: Token, x: seq<Token>, gap: seq<Token>, z: seq<Token>)
    requires Incomplete(t) && ResetFree(x) && !Relieves(x + (gap + z))
    ensures !AllRelieved(((front + [t]) + Colors(x)) + z)
  {
    var rest := ((front + [t]) + Colors(x)) + z;
    assert rest[|front|] == t && rest[|front| + 1..] == Colors(x) + z;
    if Relieves(Colors(x) + z) {
      RelievedBefore(x, gap, z);
    }
  }

  lemma UnrelievedRemains(content: string, i: nat)
    requires !AllRelieved(Tokens(content))
    ensures !AllRelieved(Tokens(RemainingAt(content, 1, i)))
  {
    var unrelieved := (j: nat) => !AllRelieved(Tokens(RemainingAt(content, 1, j)));
    forall j: nat | unrelieved(j) ensures unrelieved(j + 1) {
      RemainingIsWithin(content, 1, j);
      var n, m := TurnTokens(content, RemainingAt(content, 1, j), LimitAt(1, j));
      TurnKeepsUnrelieved(Tokens(RemainingAt(content, 1, j)), n, m, Tokens(content));
    }
    FromThenOn(unrelieved, 0, i);
  }

  /**
   * On every line, the loop ends at every width exactly when each incomplete colour code is relieved: a reset and
   * another colour come after it, the colour before the reset or with codes alone between the two.
   */
  lemma EndsAtEveryWidthIff(content: string)
    ensures (forall w: nat :: w >= 1 ==> LoopEnds(content, w)) <==> AllRelieved(Tokens(content))
  {
    if AllRelieved(Tokens(content)) {
      forall w: nat | w >= 1 ensures LoopEnds(content, w) {
        RelievedEnds(content, w);
      }
    } else {
      forall i: nat ensures !Stops(content, 1, i) {
        UnrelievedRemains(content, i);
        VisibleBounds(RemainingAt(content, 1, i));
      }
      assert !LoopEnds(content, 1);
    }
  }

  /** Without resets that is when every colour code is complete. */
  lemma ResetFreeIff(content: string)
    requires ResetFree(Tokens(content))
    ensures AllRelieved(Tokens(content)) <==> ColorsComplete(content)
  {
    var ts := Tokens(content);
    forall b | 0 <= b < |ts| && Incomplete(ts[b]) ensures !Relieves(ts[b + 1..]) {
      SuffixMembers(ts, 0, b + 1);
      RelievesNeeds(ts[b + 1..]);
    }
    if AllRelieved(ts) {
      forall t | t in ts ensures !Incomplete(t) {
        var b :| 0 <= b < |ts| && ts[b] == t;
      }
    }
  }

  // ---------- the text as it is shown ----------

  /** What is visible when the codes are stripped, but for blanks and line ends. */
  function Shown(s: string): string {
    Ink(Visible(s))
  }

  function Flat(pieces: seq<string>): string {
    if pieces == [] then "" else pieces[0] + Flat(pieces[1..])
  }

  lemma {:induction false} FlatConcat(a: seq<string>, b: seq<string>)
    ensures Flat(a + b) == Flat(a) + Flat(b)
  {
    if a == [] {
      assert a + b == b;
    } else {
      FlatConcat(a[1..], b);
      assert (a + b)[1..] == a[1..] + b;
      Regroup(a[0], Flat(a[1..]), Flat(b));
    }
  }

  /** What each token shows on its own. */
  function ShownEach(ts: seq<Token>): seq<string> {
    seq(|ts|, i requires 0 <= i < |ts| => Shown(TokenText(ts[i])))
  }

  function SolidShown(ts: seq<Token>): string {
    Flat(ShownEach(ts))
  }

  lemma SolidShownConcat(a: seq<Token>, b: seq<Token>)
    ensures SolidShown(a + b) == SolidShown(a) + SolidShown(b)
  {
    FlatConcat(ShownEach(a), ShownEach(b));
    assert ShownEach(a + b) == ShownEach(a) + ShownEach(b);
  }

  /** Every token is stripped on its own. */
  lemma VisibleHead(s: string)
    requires s != ""
    ensures Visible(s) == Visible(TokenText(Head(s))) + Visible(s[HeadLen(s)..])
  {
    var text, rest := s[..HeadLen(s)], s[HeadLen(s)..];
    assert text + rest == s;
    if StartsEscape(s) {
      if FinalAt(s, 2) < |s| {
        VisibleSuffix(text, rest);
      } else {
        assert text == s && rest == "";
      }
    } else {
      assert text == [s[0]] && text[1..] == "";
      assert Visible(text) == [s[0]] + Visible("");
    }
  }

  /** A token that fades shows nothing, when it is no incomplete code. */
  lemma FadesUnseen(t: Token)
    requires Fades(t) && !Incomplete(t)
    ensures Shown(TokenText(t)) == ""
  {
    if IsColor(t) {
      assert t.text[|t.text|..] == "";
    } else {
      var text := TokenText(t);
      assert text[1..] == "" && Visible(text) == text + Visible("");
    }
  }

  /** Where colour codes are complete, what is shown is shown by what is solid. */
  lemma {:induction false} ShownIsSolid(s: string)
    requires ColorsComplete(s)
    ensures Shown(s) == SolidShown(Solid(Tokens(s)))
    decreases |s|
  {
    if s != "" {
      var h, rest := Head(s), s[HeadLen(s)..];
      var ts := Tokens(s);
      assert ts == [h] + Tokens(rest) && ts[1..] == Tokens(rest);
      forall t | t in Tokens(rest) && IsColor(t) ensures Sgr(t) { assert t in ts; }
      ShownIsSolid(rest);
      VisibleHead(s);
      InkConcat(Visible(TokenText(h)), Visible(rest));
      HeadShown(h, Tokens(rest));
      assert h == ts[0] && h in ts;
      if Fades(h) {
        FadesUnseen(h);
      }
    }
  }

  lemma HeadShown(h: Token, rest: seq<Token>)
    ensures SolidShown(Solid([h] + rest)) == (if Fades(h) then "" else Shown(TokenText(h))) + SolidShown(Solid(rest))
  {
    assert ([h] + rest)[1..] == rest;
    if Fades(h) {
      assert Solid([h] + rest) == Solid(rest);
    } else {
      SolidShownConcat([h], Solid(rest));
      assert ShownEach([h]) == [Shown(TokenText(h))];
      assert Flat(ShownEach([h])) == Shown(TokenText(h)) + Flat([]);
    }
  }

  lemma {:induction false} ParamsEndWith(a: string, t: string, j: nat)
    requires j <= |a| && ParamsEnd(a, j) == |a| && (t == "" || !IsParam(t[0]))
    ensures ParamsEnd(a + t, j) == |a|
    decreases |a| - j
  {
    if j < |a| {
      assert (a + t)[j] == a[j];
      ParamsEndWith(a, t, j + 1);
    } else if t != "" {
      assert (a + t)[j] == t[0];
    }
  }

  /** Text that cannot go on with a code is stripped on its own. */
  predicate Apart(t: string) {
    t == "" || (!IsParam(t[0]) && t[0] != '[' && t[0] != 'm')
  }

  lemma CodeLenBefore(a: string, t: string)
    requires a != "" && Apart(t)
    ensures CodeLen(a + t) == CodeLen(a)
  {
    var s := a + t;
    assert s[0] == a[0] && (|s| >= 2 ==> s[1] == if |a| >= 2 then a[1] else t[0]);
    if StartsEscape(a) {
      var k := ParamsEnd(a, 2);
      if k < |a| {
        ParamsEndPrefix(a, t, 2);
        assert s[k] == a[k];
      } else {
        ParamsEndWith(a, t, 2);
      }
    }
  }

  lemma {:induction false} VisibleBefore(a: string, t: string)
    requires Apart(t)
    ensures Visible(a + t) == Visible(a) + Visible(t)
    decreases |a|
  {
    if a == "" {
      assert a + t == t;
    } else {
      CodeLenBefore(a, t);
      var n := if CodeLen(a) > 0 then CodeLen(a) else 1;
      assert (a + t)[n..] == a[n..] + t;
      VisibleBefore(a[n..], t);
      if CodeLen(a) == 0 {
        Regroup([a[0]], Visible(a[1..]), Visible(t));
      }
    }
  }

  lemma ShownBefore(a: string, t: string)
    requires Apart(t)
    ensures Shown(a + t) == Shown(a) + Shown(t)
  {
    VisibleBefore(a, t);
    InkConcat(Visible(a), Visible(t));
  }

  lemma NewlineShown(s: string)
    ensures Shown("\n" + s) == Shown(s)
  {
    assert ("\n" + s)[1..] == s;
    assert Visible("\n" + s) == "\n" + Visible(s);
    assert ("\n" + Visible(s))[1..] == Visible(s);
  }

  // ---------- why the codes must be complete ----------

  function Malformed(body: string): string {
    [ESC, '['] + body + "m"
  }

  lemma MalformedTokens(body: string)
    requires forall i :: 0 <= i < |body| ==> !IsFinal(body[i])
    ensures Tokens(Malformed(body)) == [Escape(Malformed(body))]
  {
    var c := Malformed(body);
    forall x | 2 <= x < |c| - 1 ensures !IsFinal(c[x]) { assert c[x] == body[x - 2]; }
    FinalAtUnique(c, 2, |c| - 1);
    assert c[..|c|] == c && c[|c|..] == "";
    assert Tokens(c) == [Escape(c)] + Tokens("");
  }

  lemma ResetsAreHidden()
    ensures Visible(Malformed("0")) == "" && Visible(Malformed("")) == ""
  {
    var a, b := Malformed("0"), Malformed("");
    assert ParamsEnd(a, 2) == 3 && ParamsEnd(b, 2) == 2;
    assert a[4..] == "" && b[3..] == "";
  }

  lemma MalformedCarry(body: string, content: string)
    requires forall i :: 0 <= i < |body| ==> !IsFinal(body[i])
    requires Visible(Malformed(body)) != ""
    ensures CarryText(Malformed(body), content) == Malformed(body)
  {
    var c := Malformed(body);
    MalformedTokens(body);
    var t := Escape(c);
    assert t.text[2..|t.text| - 1] == body;
    ResetsAreHidden();
    ActiveSnoc([t], 0);
    assert [t][..1] == [t] && [t][..0] == [] && [] + [t] == [t];
    assert IsColor(t);
    TextOfOne(t);
  }

  /** A malformed code alone is carried to itself, so the loop on it ends only at widths that show it whole. */
  lemma MalformedAloneEndsIff(body: string, w: nat)
    requires forall i :: 0 <= i < |body| ==> !IsFinal(body[i])
    requires w >= 1 && Visible(Malformed(body)) != ""
    ensures LoopEnds(Malformed(body), w) <==> |Visible(Malformed(body))| <= w
  {
    var c := Malformed(body);
    MalformedTokens(body);
    MalformedCarry(body, c);
    NoGlyphsEndsIff(c, w);
  }

  lemma NoGlyphsEndsIff(content: string, w: nat)
    requires w >= 1 && Glyphs(Tokens(content)) == ""
    ensures LoopEnds(content, w) <==>
            |Visible(content)| <= w || |Visible(CarryText(content, content))| <= w - Indent(w)
  {
    var n := LoopEndsIff(content, w);
    assert RemainingAt(content, w, 0) == content;
    assert n == 0 by {
      assert GlyphsAt(content, w, 0) < LimitAt(w, 0);
    }
    assert (exists i :: 0 <= i <= n && Stops(content, w, i)) <==> Stops(content, w, 0);
  }

  lemma MalformedCodeExists()
    ensures var body := "hello";
      (forall i :: 0 <= i < |body| ==> !IsFinal(body[i])) && |Visible(Malformed(body))| == 8
  {
    var c := Malformed("hello");
    assert c == [ESC, '[', 'h', 'e', 'l', 'l', 'o', 'm'];
    assert ParamsEnd(c, 2) == 2;
    NoCodes(c[1..]);
  }

  lemma {:induction false} NoCodes(s: string)
    requires forall i :: 0 <= i < |s| ==> s[i] != ESC
    ensures Visible(s) == s
  {
    if s != "" {
      NoCodes(s[1..]);
    }
  }
}
