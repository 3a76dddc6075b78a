/** A card body is a sequence of sides separated by `\n---\n`; a session reveals them
    one at a time, always showing every side up to the current one. */
module Sides {
  import opened Util

  const Separator: string := "\n---\n"

  predicate SeparatorAt(s: string, i: nat)
  {
    i + |Separator| <= |s| && s[i..i + |Separator|] == Separator
  }

  /** The first position where the separator occurs. */
  function FindSeparator(s: string): (r: Option<nat>)
    ensures r.Some? ==> SeparatorAt(s, r.value)
    ensures r.Some? ==> forall j :: 0 <= j < r.value ==> !SeparatorAt(s, j)
    ensures r.None? ==> forall j :: 0 <= j <= |s| ==> !SeparatorAt(s, j)
    decreases |s|
  {
    if |s| < |Separator| then None
    else if s[..|Separator|] == Separator then Some(0)
    else
      var r := FindSeparator(s[1..]);
      assert forall j :: 1 <= j <= |s| ==> (SeparatorAt(s, j) <==> SeparatorAt(s[1..], j - 1)) by {
        forall j | 1 <= j <= |s|
          ensures SeparatorAt(s, j) <==> SeparatorAt(s[1..], j - 1)
        {
          if j + |Separator| <= |s| {
            assert s[1..][j - 1..j - 1 + |Separator|] == s[j..j + |Separator|];
          }
        }
      }
      match r
      case None => None
      case Some(i) => Some(i + 1)
  }

  /** `body.split("\n---\n")`: the pieces between non-overlapping separators, found from
      the left; there is always at least one piece. */
  function SplitSides(s: string): (parts: seq<string>)
    ensures |parts| >= 1
    decreases |s|
  {
    match FindSeparator(s)
    case None => [s]
    case Some(i) => [s[..i]] + SplitSides(s[i + |Separator|..])
  }

  /** Joining the sides with the separator gives the body back. */
  lemma {:induction false} SplitThenJoin(s: string)
    ensures JoinWith(SplitSides(s), Separator) == s
    decreases |s|
  {
    match FindSeparator(s)
    case None =>
    case Some(i) =>
      var rest := s[i + |Separator|..];
      assert SplitSides(s) == [s[..i]] + SplitSides(rest);
      assert JoinWith(SplitSides(rest), Separator) == rest by {
        SplitThenJoin(rest);
      }
      assert JoinWith(SplitSides(s), Separator) == s[..i] + Separator + rest by {
        JoinWithCons(s[..i], SplitSides(rest), Separator);
      }
      SeparatorSplits(s, i);
  }

  /** A separator found at `i` cuts the text into what precedes and what follows it. */
  lemma SeparatorSplits(s: string, i: nat)
    requires SeparatorAt(s, i)
    ensures s == s[..i] + Separator + s[i + |Separator|..]
  {
    assert s == s[..i] + s[i..i + |Separator|] + s[i + |Separator|..];
  }

  /** No side contains the separator. */
  lemma {:induction false} SidesFreeOfSeparator(s: string)
    ensures forall k, j :: 0 <= k < |SplitSides(s)| && 0 <= j ==> !SeparatorAt(SplitSides(s)[k], j)
    decreases |s|
  {
    match FindSeparator(s)
    case None =>
    case Some(i) =>
      var rest := s[i + |Separator|..];
      SidesFreeOfSeparator(rest);
      var parts := SplitSides(s);
      assert parts == [s[..i]] + SplitSides(rest);
      forall k, j | 0 <= k < |parts| && 0 <= j
        ensures !SeparatorAt(parts[k], j)
      {
        if k == 0 {
          FirstSideFree(s, i, j);
        } else {
          assert parts[k] == SplitSides(rest)[k - 1];
        }
      }
  }

  /** The text before the first separator holds no separator. */
  lemma FirstSideFree(s: string, i: nat, j: nat)
    requires FindSeparator(s) == Some(i)
    ensures !SeparatorAt(s[..i], j)
  {
    if SeparatorAt(s[..i], j) {
      assert s[..i][j..j + |Separator|] == s[j..j + |Separator|];
      assert SeparatorAt(s, j);
    }
  }

  /** The text shown for side `component`: sides 0 to `component` joined with the
      separator. */
  function Shown(components: seq<string>, component: nat): (r: string)
    requires component < |components|
    ensures component == 0 ==> r == components[0]
    ensures |components[component]| <= |r| && r[|r| - |components[component]|..] == components[component]
  {
    assert components[..component + 1] == components[..component] + [components[component]];
    JoinWithSnoc(components[..component], components[component], Separator);
    JoinWith(components[..component + 1], Separator)
  }

  /** Flipping reveals exactly one more side, below the ones already shown. */
  lemma FlipRevealsNextSide(components: seq<string>, component: nat)
    requires component + 1 < |components|
    ensures Shown(components, component + 1) ==
            Shown(components, component) + Separator + components[component + 1]
  {
    assert components[..component + 2] == components[..component + 1] + [components[component + 1]];
    JoinWithSnoc(components[..component + 1], components[component + 1], Separator);
  }

  /** The first side alone is shown first, and the last side shows the whole body. */
  lemma ShownBounds(body: string)
    ensures Shown(SplitSides(body), 0) == SplitSides(body)[0]
    ensures Shown(SplitSides(body), |SplitSides(body)| - 1) == body
  {
    var parts := SplitSides(body);
    assert parts[..|parts|] == parts;
    SplitThenJoin(body);
    assert parts[..1] == [parts[0]];
  }

  /** The number of times `c` occurs in `s`. */
  function Occurrences(s: string, c: char): nat
  {
    if s == [] then 0 else (if s[0] == c then 1 else 0) + Occurrences(s[1..], c)
  }

  lemma {:induction false} OccurrencesAppend(a: string, b: string, c: char)
    ensures Occurrences(a + b, c) == Occurrences(a, c) + Occurrences(b, c)
  {
    if a != [] {
      assert (a + b)[1..] == a[1..] + b;
      OccurrencesAppend(a[1..], b, c);
    } else {
      assert a + b == b;
    }
  }

  /** `replace("\n", "\r\n")`: the terminal in raw mode needs an explicit carriage
      return before every line feed. */
  function Crlf(s: string): (r: string)
    ensures |r| == |s| + Occurrences(s, '\n')
  {
    if s == [] then []
    else (if s[0] == '\n' then "\r\n" else [s[0]]) + Crlf(s[1..])
  }

  /** One carriage return is added per line feed; every other character keeps its
      count. */
  lemma {:induction false} CrlfCounts(s: string, c: char)
    ensures Occurrences(Crlf(s), c) == Occurrences(s, c) + (if c == '\r' then Occurrences(s, '\n') else 0)
  {
    if s != [] {
      CrlfCounts(s[1..], c);
      var head := if s[0] == '\n' then "\r\n" else [s[0]];
      OccurrencesAppend(head, Crlf(s[1..]), c);
      assert head[1..] == (if s[0] == '\n' then "\n" else []);
    }
  }

  /** Every line feed of the displayed text follows a carriage return. */
  lemma {:induction false} CrlfPrecedes(s: string)
    ensures forall i :: 0 <= i < |Crlf(s)| && Crlf(s)[i] == '\n' ==> 0 < i && Crlf(s)[i - 1] == '\r'
  {
    if s != [] {
      CrlfPrecedes(s[1..]);
      var t := Crlf(s[1..]);
      var head := if s[0] == '\n' then "\r\n" else [s[0]];
      assert Crlf(s) == head + t;
      forall i | 0 <= i < |Crlf(s)| && Crlf(s)[i] == '\n'
        ensures 0 < i && Crlf(s)[i - 1] == '\r'
      {
        if i >= |head| {
          assert Crlf(s)[i] == t[i - |head|];
          if i - |head| > 0 {
            assert Crlf(s)[i - 1] == t[i - 1 - |head|];
          }
        }
      }
    }
  }

  /** Turns every `\r\n` back into `\n`. */
  function Lf(s: string): string
  {
    if s == [] then []
    else if |s| >= 2 && s[0] == '\r' && s[1] == '\n' then "\n" + Lf(s[2..])
    else [s[0]] + Lf(s[1..])
  }

  /** The carriage returns added for display are the only change: removing them gives
      the text back, for text that has no `\r` of its own. */
  lemma {:induction false} CrlfRoundTrip(s: string)
    requires '\r' !in s
    ensures Lf(Crlf(s)) == s
  {
    if s != [] {
      assert '\r' !in s[1..] by {
        assert forall j :: 0 <= j < |s[1..]| ==> s[1..][j] == s[j + 1];
      }
      CrlfRoundTrip(s[1..]);
      var t := Crlf(s[1..]);
      if s[0] == '\n' {
        assert Crlf(s) == "\r\n" + t;
        assert (Crlf(s))[2..] == t;
      } else {
        assert Crlf(s) == [s[0]] + t;
        assert (Crlf(s))[1..] == t;
      }
    }
  }

  /** The text the plain card printer writes: the shown sides with CRLF line ends. */
  function CardText(components: seq<string>, component: nat): (r: string)
    requires component < |components|
    ensures '\r' !in Shown(components, component) ==> Lf(r) == Shown(components, component)
  {
    var t := Shown(components, component);
    if '\r' !in t then CrlfRoundTrip(t); Crlf(t) else Crlf(t)
  }
}
