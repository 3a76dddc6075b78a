/** The two-sided progress bar drawn on the top terminal row during a review: green
    cells grow from the left for remembered cards, red cells from the right for
    forgotten ones, and the label `remembered/total` sits in the middle.

    The source computes the bar lengths in single-precision floating point; here the
    floored lengths, the eighth-cell indices and the rounding of the remainders are
    inputs (`Bars`), and `ExactBars` gives the values exact arithmetic produces. Every
    unsigned subtraction, table lookup and string slice of the source is checked: a
    subtraction that would underflow (a panic in a debug build), a lookup past the
    table or a slice out of range makes the layout None. */
module Progress {
  import opened Util

  datatype Colour = Green | Red | Default

  /** One run of the bar. */
  datatype Piece =
    | Full(n: nat, fg: Colour)                    // n full blocks
    | Blank(n: nat)                               // n spaces
    | Left(glyph: char, fg: Colour, bg: Colour)   // a left-aligned partial block
    | Right(glyph: char, fg: Colour)              // a right-aligned partial block
    | Text(s: string, bg: Colour)                 // part of the label

  const FullBlock: char := '█'
  const BoxLeft: seq<char> := [' ', '▏', '▎', '▍', '▌', '▋', '▊', '▉']
  const BoxRight: seq<char> := [' ', '▕', '\U{1FB87}', '\U{1FB88}', '▐', '\U{1FB89}', '\U{1FB8A}', '\U{1FB8B}']

  /** The floored bar lengths, the eighth-cell indices of their remainders and the
      rounded remainders (0 or 1), for the remembered (r) and forgotten (f) sides. */
  datatype Bars = Bars(rFloor: nat, rEighth: nat, rRound: nat, fFloor: nat, fEighth: nat, fRound: nat)

  // ---------------------------------------------------------------------------
  // Checked primitives

  /** `a - b` on `usize`. */
  function Sub(a: nat, b: nat): (r: Option<nat>)
    ensures r.Some? <==> b <= a
    ensures r.Some? ==> r.value + b == a
  {
    if b <= a then Some(a - b) else None
  }

  /** `table[i]` on an eight-entry table. */
  function Glyph(table: seq<char>, i: nat): (r: Option<char>)
    requires |table| == 8
    ensures r.Some? <==> i < 8
    ensures r.Some? ==> r.value == table[i]
  {
    if i < 8 then Some(table[i]) else None
  }

  /** `&s[lo..hi]`. */
  function Slice(s: string, lo: nat, hi: nat): (r: Option<string>)
    ensures r.Some? <==> lo <= hi <= |s|
    ensures r.Some? ==> r.value == s[lo..hi]
  {
    if lo <= hi <= |s| then Some(s[lo..hi]) else None
  }

  // ---------------------------------------------------------------------------
  // The label

  function DigitChar(d: nat): (c: char)
    requires d < 10
    ensures '0' <= c <= '9' && c as int - '0' as int == d
  {
    ('0' as int + d) as char
  }

  /** The number a string of decimal digits stands for. */
  function DecimalValue(s: string): int
  {
    if s == [] then 0 else 10 * DecimalValue(s[..|s| - 1]) + (s[|s| - 1] as int - '0' as int)
  }

  /** The decimal digits of n, without leading zeros: they read back as n. */
  function Decimal(n: nat): (r: string)
    ensures |r| >= 1
    ensures forall i :: 0 <= i < |r| ==> '0' <= r[i] <= '9'
    ensures n == 0 ==> r == "0"
    ensures n > 0 ==> r[0] != '0'
    ensures DecimalValue(r) == n
  {
    if n < 10 then [DigitChar(n)]
    else
      var r := Decimal(n / 10) + [DigitChar(n % 10)];
      assert r[..|r| - 1] == Decimal(n / 10);
      r
  }

  /** `r` is digits reading back as `x`, a slash at `k`, and digits reading back as `y`,
      each run without a leading zero. */
  predicate SlashSplit(r: string, k: int, x: nat, y: nat)
  {
    && 0 < k < |r| - 1 && r[k] == '/'
    && (forall i :: 0 <= i < |r| && i != k ==> '0' <= r[i] <= '9')
    && DecimalValue(r[..k]) == x && DecimalValue(r[k + 1..]) == y
    && (k == 1 || r[0] != '0') && (k + 2 == |r| || r[k + 1] != '0')
  }

  /** `format!("{}/{}", remembered, remembered + incomplete)`: digits, one slash, and
      digits, reading back as the remembered count and the total, neither with a
      leading zero. */
  function Label(remembered: nat, incomplete: nat): (r: string)
    ensures |r| >= 3
    ensures exists k :: 0 <= k < |r| && r[k] == '/' && SlashSplit(r, k, remembered, remembered + incomplete)
  {
    var a := Decimal(remembered);
    var t := Decimal(remembered + incomplete);
    DigitsAroundSlash(a, t);
    assert SlashSplit(a + "/" + t, |a|, remembered, remembered + incomplete);
    a + "/" + t
  }

  lemma DigitsAroundSlash(a: string, t: string)
    requires |a| >= 1 && |t| >= 1
    requires forall i :: 0 <= i < |a| ==> '0' <= a[i] <= '9'
    requires forall i :: 0 <= i < |t| ==> '0' <= t[i] <= '9'
    ensures var r := a + "/" + t;
            && 0 < |a| < |r| - 1 && r[|a|] == '/'
            && (forall i :: 0 <= i < |r| && i != |a| ==> '0' <= r[i] <= '9')
            && r[..|a|] == a && r[|a| + 1..] == t
            && r[0] == a[0] && r[|a| + 1] == t[0]
  {
    var r := a + "/" + t;
    assert r[..|a|] == a && r[|a| + 1..] == t;
    forall i | 0 <= i < |r| && i != |a|
      ensures '0' <= r[i] <= '9'
    {
      if i > |a| {
        assert r[i] == t[i - |a| - 1];
      }
    }
  }

  /** The label's first column: `ceil((cols - len) / 2)`. */
  function LabelStart(cols: nat, len: nat): (start: nat)
    requires len <= cols
    ensures start + len <= cols
    ensures start <= cols - len - start + 1 && cols - len - start <= start
  {
    (cols - len + 1) / 2
  }

  // ---------------------------------------------------------------------------
  // The layout

  /** `print_progress`: the pieces written, left to right, or None where the source
      would panic. */
  function Layout(cols: nat, text: string, b: Bars): (r: Option<seq<Piece>>)
    ensures |text| > cols ==> r.None?
    ensures cols == 0 ==> r.None?
  {
    var gap :- Sub(cols, |text|);
    var start := LabelStart(cols, |text|);
    var colsLess1 :- Sub(cols, 1);
    if b.rFloor + b.fFloor >= colsLess1 then BarsMeet(cols, text, b, start)
    else BarsApart(cols, text, b, start)
  }

  /** The bars meet: red fills everything right of the green bar. */
  function BarsMeet(cols: nat, text: string, b: Bars, start: nat): Option<seq<Piece>>
  {
    var end := start + |text|;
    if b.rFloor < start then
      var g :- Glyph(BoxLeft, b.rEighth);
      var redBefore :- Sub(start, b.rFloor + 1);
      var redAfter :- Sub(cols, end);
      Some([Full(b.rFloor, Green), Left(g, Green, Red), Full(redBefore, Red), Text(text, Red), Full(redAfter, Red)])
    else if start <= b.rFloor < end then
      var rLen := b.rFloor + b.rRound;
      var split :- Sub(rLen, start);
      var green :- Slice(text, 0, split);
      var red :- Slice(text, split, |text|);
      var redAfter :- Sub(cols, end);
      Some([Full(start, Green), Text(green, Green), Text(red, Red), Full(redAfter, Red)])
    else
      var greenAfter :- Sub(b.rFloor, end);
      var g :- Glyph(BoxLeft, b.rEighth);
      var redAfter :- Sub(cols, b.rFloor + 1);
      Some([Full(start, Green), Text(text, Green), Full(greenAfter, Green), Left(g, Green, Red), Full(redAfter, Red)])
  }

  /** A gap of blanks separates the two bars. */
  function BarsApart(cols: nat, text: string, b: Bars, start: nat): Option<seq<Piece>>
  {
    var end := start + |text|;
    var redStart :- Sub(cols, b.fFloor);
    if redStart <= start then
      var gl :- Glyph(BoxLeft, b.rEighth);
      var blanks :- Sub(cols, b.rFloor + b.fFloor + 2);
      var gr :- Glyph(BoxRight, b.fEighth);
      var redBefore :- Sub(start, redStart);
      var redAfter :- Sub(cols, end);
      Some([Full(b.rFloor, Green), Left(gl, Green, Default), Blank(blanks), Right(gr, Red),
            Full(redBefore, Red), Text(text, Red), Full(redAfter, Red)])
    else LabelInGap(cols, text, b, start)
  }

  /** The red bar starts right of the label's first column. */
  function LabelInGap(cols: nat, text: string, b: Bars, start: nat): Option<seq<Piece>>
  {
    var end := start + |text|;
    var redEdge :- Sub(cols, b.fFloor + 1);
    var fInText := start <= redEdge < end;
    var rInText := start <= b.rFloor < end;
    if fInText && !rInText then
      var fLen := b.fFloor + b.fRound;
      var gl :- Glyph(BoxLeft, b.rEighth);
      var blanks :- Sub(start, b.rFloor + 1);
      var plainEnd :- Sub(cols, fLen + start);
      var plain :- Slice(text, 0, plainEnd);
      var red :- Slice(text, plainEnd, |text|);
      var redAfter :- Sub(cols, end);
      Some([Full(b.rFloor, Green), Left(gl, Green, Default), Blank(blanks),
            Text(plain, Default), Text(red, Red), Full(redAfter, Red)])
    else if fInText && rInText then
      var rLen := b.rFloor + b.rRound;
      var fLen := b.fFloor + b.fRound;
      var greenEnd :- Sub(rLen, start);
      var plainEnd :- Sub(cols, fLen + start);
      var green :- Slice(text, 0, greenEnd);
      var plain :- Slice(text, greenEnd, plainEnd);
      var red :- Slice(text, plainEnd, |text|);
      var redAfter :- Sub(cols, end);
      Some([Full(start, Green), Text(green, Green), Text(plain, Default), Text(red, Red), Full(redAfter, Red)])
    else if b.rFloor < start then
      var gl :- Glyph(BoxLeft, b.rEighth);
      var blanksBefore :- Sub(start, b.rFloor + 1);
      var blanksAfter :- Sub(redEdge, end);
      var gr :- Glyph(BoxRight, b.fEighth);
      Some([Full(b.rFloor, Green), Left(gl, Green, Default), Blank(blanksBefore), Text(text, Default),
            Blank(blanksAfter), Right(gr, Red), Full(b.fFloor, Red)])
    else if rInText then
      var rLen := b.rFloor + b.rRound;
      var greenEnd :- Sub(rLen, start);
      var green :- Slice(text, 0, greenEnd);
      var plain :- Slice(text, greenEnd, |text|);
      var blanksAfter :- Sub(redEdge, end);
      var gr :- Glyph(BoxRight, b.fEighth);
      Some([Full(start, Green), Text(green, Green), Text(plain, Default),
            Blank(blanksAfter), Right(gr, Red), Full(b.fFloor, Red)])
    else
      var greenAfter :- Sub(b.rFloor, end);
      var gl :- Glyph(BoxLeft, b.rEighth);
      var blanks :- Sub(cols, b.rFloor + b.fFloor + 2);
      var gr :- Glyph(BoxRight, b.fEighth);
      Some([Full(start, Green), Text(text, Green), Full(greenAfter, Green), Left(gl, Green, Default),
            Blank(blanks), Right(gr, Red), Full(b.fFloor, Red)])
  }

  // ---------------------------------------------------------------------------
  // What the terminal shows

  function Repeat(c: char, n: nat): (r: string)
    ensures |r| == n
  {
    if n == 0 then [] else [c] + Repeat(c, n - 1)
  }

  /** The characters of one piece; every glyph takes one cell. */
  function PieceText(p: Piece): string
  {
    match p
    case Full(n, _) => Repeat(FullBlock, n)
    case Blank(n) => Repeat(' ', n)
    case Left(g, _, _) => [g]
    case Right(g, _) => [g]
    case Text(s, _) => s
  }

  /** The row written to the terminal, colours left aside. */
  function Render(ps: seq<Piece>): string
  {
    if ps == [] then [] else PieceText(ps[0]) + Render(ps[1..])
  }

  lemma {:induction false} RenderConcat(a: seq<Piece>, b: seq<Piece>)
    ensures Render(a + b) == Render(a) + Render(b)
  {
    if a == [] {
      assert a + b == b;
    } else {
      assert (a + b)[1..] == a[1..] + b;
      RenderConcat(a[1..], b);
    }
  }

  /** The label sits at `start` when the pieces before it fill exactly `start` cells. */
  lemma LabelBetween(cols: nat, text: string, pre: seq<Piece>, mid: seq<Piece>, post: seq<Piece>)
    requires Render(mid) == text && |text| <= cols
    requires |Render(pre)| == LabelStart(cols, |text|)
    requires |Render(pre)| + |text| + |Render(post)| == cols
    ensures Placed(cols, text, pre + mid + post)
  {
    RenderConcat(pre + mid, post);
    RenderConcat(pre, mid);
    var row := Render(pre + mid + post);
    assert row == Render(pre) + text + Render(post);
    assert row[|Render(pre)|..|Render(pre)| + |text|] == text;
  }

  lemma RenderOne(p: Piece)
    ensures Render([p]) == PieceText(p)
  {
    assert [p][1..] == [];
  }

  lemma RenderTwo(p: Piece, q: Piece)
    ensures Render([p, q]) == PieceText(p) + PieceText(q)
  {
    assert [p, q][1..] == [q];
    RenderOne(q);
  }

  lemma RenderThree(p: Piece, q: Piece, t: Piece)
    ensures Render([p, q, t]) == PieceText(p) + PieceText(q) + PieceText(t)
  {
    assert [p, q, t][1..] == [q, t];
    RenderTwo(q, t);
  }

  /** The width of three pieces. */
  lemma Width3(p: Piece, q: Piece, t: Piece)
    ensures |Render([p, q, t])| == |PieceText(p)| + |PieceText(q)| + |PieceText(t)|
  {
    RenderThree(p, q, t);
  }

  /** The width of five pieces. */
  lemma Width5(p: Piece, q: Piece, t: Piece, u: Piece, v: Piece)
    ensures |Render([p, q, t, u, v])| ==
            |PieceText(p)| + |PieceText(q)| + |PieceText(t)| + |PieceText(u)| + |PieceText(v)|
  {
    assert [p, q, t, u, v][1..] == [q, t, u, v];
    assert [q, t, u, v][1..] == [t, u, v];
    Width3(t, u, v);
  }

  /** What the layout needs of its inputs: the label fits in the row, the green bar
      stops short of the last column, the eighth indices are table indices and the
      rounded remainders are 0 or 1. */
  predicate Fits(cols: nat, text: string, b: Bars)
  {
    && |text| <= cols
    && b.rFloor + 1 <= cols
    && b.rEighth < 8 && b.fEighth < 8
    && b.rRound <= 1 && b.fRound <= 1
  }

  /** The row is exactly `cols` cells wide and the label occupies the cells from
      `ceil((cols - len) / 2)` on. */
  predicate Placed(cols: nat, text: string, ps: seq<Piece>)
    requires |text| <= cols
  {
    var start := LabelStart(cols, |text|);
    |Render(ps)| == cols && Render(ps)[start..start + |text|] == text
  }

  /** Under `Fits`, no branch underflows, indexes out of range or slices out of
      bounds, and the label lands in the middle of a full-width row. */
  lemma LayoutFits(cols: nat, text: string, b: Bars)
    requires Fits(cols, text, b)
    ensures Layout(cols, text, b).Some?
    ensures Placed(cols, text, Layout(cols, text, b).value)
  {
    var start := LabelStart(cols, |text|);
    var end := start + |text|;
    var redEdge := cols - b.fFloor - 1;
    if b.rFloor + b.fFloor >= cols - 1 {
      if b.rFloor < start {
        MeetingBeforeLabel(cols, text, b);
      } else if b.rFloor < end {
        MeetingInLabel(cols, text, b);
      } else {
        MeetingAfterLabel(cols, text, b);
      }
    } else if cols - b.fFloor <= start {
      RedReachesLabel(cols, text, b);
    } else if start <= redEdge < end && !(start <= b.rFloor < end) {
      RedEdgeInLabel(cols, text, b);
    } else if start <= redEdge < end {
      BothEdgesInLabel(cols, text, b);
    } else if b.rFloor < start {
      LabelBetweenBars(cols, text, b);
    } else if b.rFloor < end {
      GreenEdgeInLabel(cols, text, b);
    } else {
      GreenPastLabel(cols, text, b);
    }
  }

  /** A label cut in two renders as the label. */
  lemma SplitText2(text: string, i: nat, c: Colour, d: Colour)
    requires i <= |text|
    ensures Render([Text(text[0..i], c), Text(text[i..|text|], d)]) == text
  {
    RenderTwo(Text(text[0..i], c), Text(text[i..|text|], d));
    assert text[0..i] + text[i..|text|] == text;
  }

  /** A label cut in three (green, plain, red) renders as the label. */
  lemma SplitText3(text: string, i: nat, j: nat)
    requires i <= j <= |text|
    ensures Render([Text(text[0..i], Green), Text(text[i..j], Default), Text(text[j..|text|], Red)]) == text
  {
    RenderThree(Text(text[0..i], Green), Text(text[i..j], Default), Text(text[j..|text|], Red));
    assert text[0..i] + text[i..j] + text[j..|text|] == text;
  }

  lemma MeetingBeforeLabel(cols: nat, text: string, b: Bars)
    requires Fits(cols, text, b) && b.rFloor + b.fFloor >= cols - 1
    requires b.rFloor < LabelStart(cols, |text|)
    ensures Layout(cols, text, b).Some?
    ensures Placed(cols, text, Layout(cols, text, b).value)
  {
    var start := LabelStart(cols, |text|);
    var end := start + |text|;
    var pre := [Full(b.rFloor, Green), Left(BoxLeft[b.rEighth], Green, Red), Full(start - b.rFloor - 1, Red)];
    var post := [Full(cols - end, Red)];
    assert Sub(cols, |text|) == Some(cols - |text|);
    assert Layout(cols, text, b) == Some([pre[0], pre[1], pre[2], Text(text, Red), post[0]]);
    assert pre + [Text(text, Red)] + post == [pre[0], pre[1], pre[2], Text(text, Red), post[0]];
    Width3(pre[0], pre[1], pre[2]);
    RenderOne(Text(text, Red));
    RenderOne(post[0]);
    LabelBetween(cols, text, pre, [Text(text, Red)], post);
  }

  lemma MeetingInLabel(cols: nat, text: string, b: Bars)
    requires Fits(cols, text, b) && b.rFloor + b.fFloor >= cols - 1
    requires LabelStart(cols, |text|) <= b.rFloor < LabelStart(cols, |text|) + |text|
    ensures Layout(cols, text, b).Some?
    ensures Placed(cols, text, Layout(cols, text, b).value)
  {
    var start := LabelStart(cols, |text|);
    var end := start + |text|;
    var split := b.rFloor + b.rRound - start;
    var pre := [Full(start, Green)];
    var mid := [Text(text[0..split], Green), Text(text[split..|text|], Red)];
    var post := [Full(cols - end, Red)];
    assert Layout(cols, text, b) == Some(pre + mid + post) by {
      assert Sub(cols, |text|) == Some(cols - |text|);
      assert Sub(b.rFloor + b.rRound, start) == Some(split);
      assert Slice(text, 0, split) == Some(text[0..split]);
      assert Slice(text, split, |text|) == Some(text[split..|text|]);
      assert pre + mid + post == [pre[0], mid[0], mid[1], post[0]];
    }
    SplitText2(text, split, Green, Red);
    RenderOne(pre[0]);
    RenderOne(post[0]);
    LabelBetween(cols, text, pre, mid, post);
  }

  lemma MeetingAfterLabel(cols: nat, text: string, b: Bars)
    requires Fits(cols, text, b) && b.rFloor + b.fFloor >= cols - 1
    requires LabelStart(cols, |text|) + |text| <= b.rFloor
    ensures Layout(cols, text, b).Some?
    ensures Placed(cols, text, Layout(cols, text, b).value)
  {
    var start := LabelStart(cols, |text|);
    var end := start + |text|;
    var pre := [Full(start, Green)];
    var post := [Full(b.rFloor - end, Green), Left(BoxLeft[b.rEighth], Green, Red), Full(cols - b.rFloor - 1, Red)];
    assert Sub(cols, |text|) == Some(cols - |text|);
    assert Layout(cols, text, b) == Some([pre[0], Text(text, Green), post[0], post[1], post[2]]);
    assert pre + [Text(text, Green)] + post == [pre[0], Text(text, Green), post[0], post[1], post[2]];
    Width3(post[0], post[1], post[2]);
    RenderOne(pre[0]);
    RenderOne(Text(text, Green));
    LabelBetween(cols, text, pre, [Text(text, Green)], post);
  }

  lemma RedReachesLabel(cols: nat, text: string, b: Bars)
    requires Fits(cols, text, b) && b.rFloor + b.fFloor < cols - 1
    requires cols - b.fFloor <= LabelStart(cols, |text|)
    ensures Layout(cols, text, b).Some?
    ensures Placed(cols, text, Layout(cols, text, b).value)
  {
    var start := LabelStart(cols, |text|);
    var end := start + |text|;
    var pre := [Full(b.rFloor, Green), Left(BoxLeft[b.rEighth], Green, Default), Blank(cols - (b.rFloor + b.fFloor + 2)),
                Right(BoxRight[b.fEighth], Red), Full(start - (cols - b.fFloor), Red)];
    var post := [Full(cols - end, Red)];
    assert Sub(cols, |text|) == Some(cols - |text|);
    assert Layout(cols, text, b) == Some([pre[0], pre[1], pre[2], pre[3], pre[4], Text(text, Red), post[0]]);
    assert pre + [Text(text, Red)] + post == [pre[0], pre[1], pre[2], pre[3], pre[4], Text(text, Red), post[0]];
    Width5(pre[0], pre[1], pre[2], pre[3], pre[4]);
    RenderOne(Text(text, Red));
    RenderOne(post[0]);
    LabelBetween(cols, text, pre, [Text(text, Red)], post);
  }

  lemma RedEdgeInLabel(cols: nat, text: string, b: Bars)
    requires Fits(cols, text, b) && b.rFloor + b.fFloor < cols - 1
    requires LabelStart(cols, |text|) < cols - b.fFloor
    requires LabelStart(cols, |text|) <= cols - b.fFloor - 1 < LabelStart(cols, |text|) + |text|
    requires !(LabelStart(cols, |text|) <= b.rFloor < LabelStart(cols, |text|) + |text|)
    ensures Layout(cols, text, b).Some?
    ensures Placed(cols, text, Layout(cols, text, b).value)
  {
    var start := LabelStart(cols, |text|);
    var end := start + |text|;
    var plainEnd := cols - (b.fFloor + b.fRound + start);
    var pre := [Full(b.rFloor, Green), Left(BoxLeft[b.rEighth], Green, Default), Blank(start - (b.rFloor + 1))];
    var mid := [Text(text[0..plainEnd], Default), Text(text[plainEnd..|text|], Red)];
    var post := [Full(cols - end, Red)];
    assert Layout(cols, text, b) == Some(pre + mid + post) by {
      assert Sub(cols, |text|) == Some(cols - |text|);
      assert Sub(cols, b.fFloor) == Some(cols - b.fFloor);
      assert Sub(cols, b.fFloor + 1) == Some(cols - b.fFloor - 1);
      assert Sub(start, b.rFloor + 1) == Some(start - (b.rFloor + 1));
      assert Sub(cols, b.fFloor + b.fRound + start) == Some(plainEnd);
      assert Slice(text, 0, plainEnd) == Some(text[0..plainEnd]);
      assert Slice(text, plainEnd, |text|) == Some(text[plainEnd..|text|]);
      assert pre + mid + post == [pre[0], pre[1], pre[2], mid[0], mid[1], post[0]];
    }
    Width3(pre[0], pre[1], pre[2]);
    SplitText2(text, plainEnd, Default, Red);
    RenderOne(post[0]);
    LabelBetween(cols, text, pre, mid, post);
  }

  lemma BothEdgesInLabel(cols: nat, text: string, b: Bars)
    requires Fits(cols, text, b) && b.rFloor + b.fFloor < cols - 1
    requires LabelStart(cols, |text|) < cols - b.fFloor
    requires LabelStart(cols, |text|) <= cols - b.fFloor - 1 < LabelStart(cols, |text|) + |text|
    requires LabelStart(cols, |text|) <= b.rFloor < LabelStart(cols, |text|) + |text|
    ensures Layout(cols, text, b).Some?
    ensures Placed(cols, text, Layout(cols, text, b).value)
  {
    var start := LabelStart(cols, |text|);
    var end := start + |text|;
    var greenEnd := b.rFloor + b.rRound - start;
    var plainEnd := cols - (b.fFloor + b.fRound + start);
    assert greenEnd <= plainEnd <= |text|;
    var pre := [Full(start, Green)];
    var mid := [Text(text[0..greenEnd], Green), Text(text[greenEnd..plainEnd], Default), Text(text[plainEnd..|text|], Red)];
    var post := [Full(cols - end, Red)];
    assert Layout(cols, text, b) == Some(pre + mid + post) by {
      assert Sub(cols, |text|) == Some(cols - |text|);
      assert Sub(cols, b.fFloor) == Some(cols - b.fFloor);
      assert Sub(cols, b.fFloor + 1) == Some(cols - b.fFloor - 1);
      assert Sub(b.rFloor + b.rRound, start) == Some(greenEnd);
      assert Sub(cols, b.fFloor + b.fRound + start) == Some(plainEnd);
      assert Slice(text, 0, greenEnd) == Some(text[0..greenEnd]);
      assert Slice(text, greenEnd, plainEnd) == Some(text[greenEnd..plainEnd]);
      assert Slice(text, plainEnd, |text|) == Some(text[plainEnd..|text|]);
      assert pre + mid + post == [pre[0], mid[0], mid[1], mid[2], post[0]];
    }
    SplitText3(text, greenEnd, plainEnd);
    RenderOne(pre[0]);
    RenderOne(post[0]);
    LabelBetween(cols, text, pre, mid, post);
  }

  lemma LabelBetweenBars(cols: nat, text: string, b: Bars)
    requires Fits(cols, text, b) && b.rFloor + b.fFloor < cols - 1
    requires LabelStart(cols, |text|) < cols - b.fFloor
    requires !(LabelStart(cols, |text|) <= cols - b.fFloor - 1 < LabelStart(cols, |text|) + |text|)
    requires b.rFloor < LabelStart(cols, |text|)
    ensures Layout(cols, text, b).Some?
    ensures Placed(cols, text, Layout(cols, text, b).value)
  {
    var start := LabelStart(cols, |text|);
    var end := start + |text|;
    var redEdge := cols - (b.fFloor + 1);
    var pre := [Full(b.rFloor, Green), Left(BoxLeft[b.rEighth], Green, Default), Blank(start - (b.rFloor + 1))];
    var post := [Blank(redEdge - end), Right(BoxRight[b.fEighth], Red), Full(b.fFloor, Red)];
    assert Sub(cols, |text|) == Some(cols - |text|);
    assert Layout(cols, text, b) == Some([pre[0], pre[1], pre[2], Text(text, Default), post[0], post[1], post[2]]);
    assert pre + [Text(text, Default)] + post == [pre[0], pre[1], pre[2], Text(text, Default), post[0], post[1], post[2]];
    Width3(pre[0], pre[1], pre[2]);
    Width3(post[0], post[1], post[2]);
    RenderOne(Text(text, Default));
    LabelBetween(cols, text, pre, [Text(text, Default)], post);
  }

  lemma GreenEdgeInLabel(cols: nat, text: string, b: Bars)
    requires Fits(cols, text, b) && b.rFloor + b.fFloor < cols - 1
    requires LabelStart(cols, |text|) < cols - b.fFloor
    requires !(LabelStart(cols, |text|) <= cols - b.fFloor - 1 < LabelStart(cols, |text|) + |text|)
    requires LabelStart(cols, |text|) <= b.rFloor < LabelStart(cols, |text|) + |text|
    ensures Layout(cols, text, b).Some?
    ensures Placed(cols, text, Layout(cols, text, b).value)
  {
    var start := LabelStart(cols, |text|);
    var end := start + |text|;
    var redEdge := cols - (b.fFloor + 1);
    var greenEnd := b.rFloor + b.rRound - start;
    var pre := [Full(start, Green)];
    var mid := [Text(text[0..greenEnd], Green), Text(text[greenEnd..|text|], Default)];
    var post := [Blank(redEdge - end), Right(BoxRight[b.fEighth], Red), Full(b.fFloor, Red)];
    assert Layout(cols, text, b) == Some(pre + mid + post) by {
      assert Sub(cols, |text|) == Some(cols - |text|);
      assert Sub(cols, b.fFloor) == Some(cols - b.fFloor);
      assert Sub(cols, b.fFloor + 1) == Some(redEdge);
      assert Sub(b.rFloor + b.rRound, start) == Some(greenEnd);
      assert Slice(text, 0, greenEnd) == Some(text[0..greenEnd]);
      assert Slice(text, greenEnd, |text|) == Some(text[greenEnd..|text|]);
      assert Sub(redEdge, end) == Some(redEdge - end);
      assert pre + mid + post == [pre[0], mid[0], mid[1], post[0], post[1], post[2]];
    }
    SplitText2(text, greenEnd, Green, Default);
    Width3(post[0], post[1], post[2]);
    RenderOne(pre[0]);
    LabelBetween(cols, text, pre, mid, post);
  }

  lemma GreenPastLabel(cols: nat, text: string, b: Bars)
    requires Fits(cols, text, b) && b.rFloor + b.fFloor < cols - 1
    requires LabelStart(cols, |text|) < cols - b.fFloor
    requires !(LabelStart(cols, |text|) <= cols - b.fFloor - 1 < LabelStart(cols, |text|) + |text|)
    requires LabelStart(cols, |text|) + |text| <= b.rFloor
    ensures Layout(cols, text, b).Some?
    ensures Placed(cols, text, Layout(cols, text, b).value)
  {
    var start := LabelStart(cols, |text|);
    var end := start + |text|;
    var pre := [Full(start, Green)];
    var post := [Full(b.rFloor - end, Green), Left(BoxLeft[b.rEighth], Green, Default), Blank(cols - (b.rFloor + b.fFloor + 2)),
                 Right(BoxRight[b.fEighth], Red), Full(b.fFloor, Red)];
    assert Sub(cols, |text|) == Some(cols - |text|);
    assert Layout(cols, text, b) == Some([pre[0], Text(text, Green), post[0], post[1], post[2], post[3], post[4]]);
    assert pre + [Text(text, Green)] + post == [pre[0], Text(text, Green), post[0], post[1], post[2], post[3], post[4]];
    Width5(post[0], post[1], post[2], post[3], post[4]);
    RenderOne(pre[0]);
    RenderOne(Text(text, Green));
    LabelBetween(cols, text, pre, [Text(text, Green)], post);
  }

  // ---------------------------------------------------------------------------
  // The bar lengths in exact arithmetic

  lemma MulMono(a: nat, b: nat, t: nat)
    requires a <= b
    ensures a * t <= b * t
  {
  }

  /** x < k * t gives x / t < k. */
  lemma DivBelow(x: nat, t: nat, k: nat)
    requires t > 0 && x < k * t
    ensures x / t < k
  {
    var q := x / t;
    assert q * t <= x;
    MulMono(k, if q >= k then q else k, t);
  }

  /** Quotient and remainder of naturals by a positive divisor are natural, and the
      remainder is below the divisor. */
  lemma DivMod(x: nat, t: nat)
    requires t > 0
    ensures x / t >= 0 && 0 <= x % t < t
  {
  }

  /** The eighth of a cell a remainder reaches. */
  function EighthOf(rem: nat, total: nat): (e: nat)
    requires rem < total
    ensures e < 8
  {
    DivBelow(rem * 8, total, 8);
    DivMod(rem * 8, total);
    rem * 8 / total
  }

  /** A part smaller than the total fills fewer than `cols` cells. */
  lemma PartBelowRow(part: nat, total: nat, cols: nat)
    requires part < total && cols > 0
    ensures cols * part / total < cols
  {
    MulMono(part + 1, total, cols);
    assert cols * part < cols * total;
    DivBelow(cols * part, total, cols);
  }

  /** `cols * part / total`, split into whole cells, the eighth of a cell the
      remainder reaches, and whether the remainder rounds up. */
  function ExactBars(remembered: nat, forgotten: nat, incomplete: nat, cols: nat): (b: Bars)
    requires remembered + incomplete > 0
    ensures b.rEighth < 8 && b.fEighth < 8 && b.rRound <= 1 && b.fRound <= 1
  {
    var total := remembered + incomplete;
    var r := Bar(cols * remembered, total);
    var f := Bar(cols * forgotten, total);
    Bars(r.0, r.1, r.2, f.0, f.1, f.2)
  }

  /** `x / total` as whole cells, the eighth of a cell its remainder reaches, and
      whether that remainder rounds up. */
  function Bar(x: nat, total: nat): (bar: (nat, nat, nat))
    requires total > 0
    ensures bar.0 == x / total && bar.1 < 8 && bar.2 <= 1
  {
    DivMod(x, total);
    var rem := x % total;
    (x / total, EighthOf(rem, total), if 2 * rem >= total then 1 else 0)
  }

  /** While cards remain, the exact lengths always fit a row wide enough for the label,
      however large the forgotten count grows. */
  lemma ExactBarsFit(remembered: nat, forgotten: nat, incomplete: nat, cols: nat)
    requires incomplete >= 1
    requires |Label(remembered, incomplete)| <= cols
    ensures Fits(cols, Label(remembered, incomplete), ExactBars(remembered, forgotten, incomplete, cols))
  {
    PartBelowRow(remembered, remembered + incomplete, cols);
  }
}
