/** `spaced cards clear-history`: every card is listed, the user is asked to confirm,
    and on a yes the `reviews` key is removed from each card's frontmatter, which is
    written back with the body.

    The card listing (`get_cards` with `all`) is a parameter here, and so are the
    lines typed at the prompt, given in order, `None` standing for a read error. A
    card's file is its parsed document in `files`; a card missing from `files` is one
    whose file cannot be read. The serialiser is a parameter of the read-back lemma. */
module ClearHistory {
  import opened Util
  import opened Yaml
  import opened Frontmatter
  import opened Cards
  import Scheduler

  type Card = string

  // ---------------------------------------------------------------------------
  // The answer to `Proceed? [y/N]`

  datatype Answer = Proceed | Abort | Invalid

  /** The answers, newline included, that clear the history. */
  const YesAnswers: set<string> := {"Y\n", "y\n", "YES\n", "Yes\n", "yes\n"}

  /** The answers, newline included, that stop without writing; a bare Enter is one. */
  const NoAnswers: set<string> := {"\n", "N\n", "n\n", "NO\n", "No\n", "no\n"}

  /** A line read at the prompt, compared as typed: there is no case folding and no
      trimming, and the newline is part of the answer. */
  function Classify(line: string): (a: Answer)
    ensures a == Proceed <==> line in YesAnswers
    ensures a == Abort <==> line in NoAnswers
  {
    if line in YesAnswers then Proceed
    else if line in NoAnswers then Abort
    else Invalid
  }

  /** No line both proceeds and aborts, and the default (an empty line) is no. */
  lemma AnswersAreExclusive(line: string)
    ensures !(line in YesAnswers && line in NoAnswers)
    ensures Classify("\n") == Abort
  {
    if line in YesAnswers {
      assert line[|line| - 1] == '\n';
      assert |line| >= 2 && line[0] in {'Y', 'y'};
    }
  }

  /** Mixed case, a missing newline and end of input (an empty read) are all
      invalid: the prompt is asked again. */
  lemma OnlyListedSpellingsCount()
    ensures Classify("yES\n") == Invalid
    ensures Classify("y") == Invalid
    ensures Classify(" yes\n") == Invalid
    ensures Classify("") == Invalid
  {
    assert "yES\n" != "yes\n" && "yES\n" != "YES\n" && "yES\n" != "Yes\n";
  }

  /** What the prompt loop ends with. */
  datatype Decision = Confirmed | Declined | ReadPanic | NoAnswer

  /** The first `k` lines were read and were invalid answers. */
  predicate AllInvalid(input: seq<Option<string>>, k: nat)
    requires k <= |input|
  {
    forall j :: 0 <= j < k ==> input[j].Some? && Classify(input[j].value) == Invalid
  }

  /** The prompt loop over the lines typed: a read error panics, a yes or a no ends it,
      anything else asks again. `NoAnswer` is a loop still asking when the lines given
      run out. */
  function Decide(input: seq<Option<string>>): (d: Decision)
    ensures d == NoAnswer <==> AllInvalid(input, |input|)
    decreases |input|
  {
    if input == [] then NoAnswer
    else
      var d := match input[0]
        case None => ReadPanic
        case Some(line) =>
          (match Classify(line)
           case Proceed => Confirmed
           case Abort => Declined
           case Invalid => Decide(input[1..]));
      assert AllInvalid(input, |input|) <==> input[0].Some? && Classify(input[0].value) == Invalid &&
                                             AllInvalid(input[1..], |input| - 1) by {
        if input[0].Some? && Classify(input[0].value) == Invalid && AllInvalid(input[1..], |input| - 1) {
          forall j | 0 <= j < |input|
            ensures input[j].Some? && Classify(input[j].value) == Invalid
          {
            if j > 0 {
              assert input[j] == input[1..][j - 1];
            }
          }
        }
      }
      d
  }

  /** Invalid answers are ignored: the decision is made by the first line that is not
      one. */
  lemma {:induction false} InvalidLinesAreSkipped(input: seq<Option<string>>, k: nat)
    requires k <= |input| && AllInvalid(input, k)
    ensures Decide(input) == Decide(input[k..])
    decreases k
  {
    if k > 0 {
      assert AllInvalid(input[1..], k - 1) by {
        forall j | 0 <= j < k - 1
          ensures input[1..][j].Some? && Classify(input[1..][j].value) == Invalid
        {
          assert input[1..][j] == input[j + 1];
        }
      }
      InvalidLinesAreSkipped(input[1..], k - 1);
      assert input[1..][k - 1..] == input[k..];
    }
  }

  /** The first answer decides: after invalid lines, a yes confirms and a no declines,
      whatever follows. */
  lemma FirstAnswerDecides(input: seq<Option<string>>, k: nat)
    requires k < |input| && AllInvalid(input, k) && input[k].Some? && Classify(input[k].value) != Invalid
    ensures Decide(input) == Confirmed <==> Classify(input[k].value) == Proceed
    ensures Decide(input) == Declined <==> Classify(input[k].value) == Abort
  {
    InvalidLinesAreSkipped(input, k);
    assert input[k..][0] == input[k];
  }

  /** The prompt loop as written: it prompts, reads a line and breaks, returns or goes
      round again. `read` is the number of lines it read. */
  method Prompt(input: seq<Option<string>>) returns (d: Decision, read: nat)
    ensures d == Decide(input)
    ensures read <= |input|
    ensures d == NoAnswer ==> read == |input|
    ensures d != NoAnswer ==> 1 <= read && AllInvalid(input, read - 1) && input[read - 1].Some? != (d == ReadPanic)
  {
    read := 0;
    while read < |input|
      invariant read <= |input|
      invariant AllInvalid(input, read)
      decreases |input| - read
    {
      var line := input[read];
      read := read + 1;
      if line.None? {
        InvalidLinesAreSkipped(input, read - 1);
        return ReadPanic, read;
      }
      var answer := Classify(line.value);
      if answer == Proceed {
        InvalidLinesAreSkipped(input, read - 1);
        return Confirmed, read;
      } else if answer == Abort {
        InvalidLinesAreSkipped(input, read - 1);
        return Declined, read;
      }
    }
    d := NoAnswer;
  }

  // ---------------------------------------------------------------------------
  // Clearing one card

  /** The two ways a cleared card is written back. */
  datatype Written = FmAndBody(fm: Mapping, body: string) | BodyOnly(body: string)

  /** `mapping.remove("reviews")` and the write choice: with no key left the file is
      written as the body alone, otherwise as frontmatter and body. */
  function ClearDoc(doc: Doc): (w: Written)
    ensures w.body == doc.body
    ensures w.BodyOnly? <==> doc.fm.Keys <= {ReviewsKey}
    ensures w.FmAndBody? ==> ReviewsKey !in w.fm && w.fm != map[]
    ensures w.FmAndBody? ==> forall k | k in doc.fm && k != ReviewsKey :: k in w.fm && w.fm[k] == doc.fm[k]
    ensures w.FmAndBody? ==> w.fm.Keys <= doc.fm.Keys
  {
    var m := doc.fm - {ReviewsKey};
    if |m| > 0 then FmAndBody(m, doc.body)
    else
      assert m.Keys == doc.fm.Keys - {ReviewsKey};
      BodyOnly(doc.body)
  }

  /** The document a cleared card holds: its mapping without `reviews`. */
  function WrittenDoc(w: Written): Doc
  {
    match w
    case FmAndBody(fm, body) => Doc(fm, body)
    case BodyOnly(body) => Doc(map[], body)
  }

  /** The file text of a cleared card, given what the serialiser makes of its mapping. */
  function WrittenText(w: Written, serialized: string): string
  {
    match w
    case FmAndBody(_, body) => WriteFmAndBody(serialized, body)
    case BodyOnly(body) => WriteBody(body)
  }

  /** A cleared card's history is empty and nothing else of its metadata changes;
      clearing it again writes the same document. */
  lemma ClearingEmptiesHistory(doc: Doc, parseDate: string -> Option<int>)
    ensures var d := WrittenDoc(ClearDoc(doc));
            && ReviewHistory(d.fm, parseDate) == Ok([])
            && d.fm == doc.fm - {ReviewsKey}
            && d.body == doc.body
            && WrittenDoc(ClearDoc(d)) == d
  {
    var m := doc.fm - {ReviewsKey};
    assert ReviewsKey !in m;
    assert m - {ReviewsKey} == m;
    if |m| > 0 {
      assert ClearDoc(doc) == FmAndBody(m, doc.body);
      assert ClearDoc(Doc(m, doc.body)) == FmAndBody(m, doc.body);
    } else {
      var empty: Mapping := map[];
      assert m == empty;
      assert ClearDoc(doc) == BodyOnly(doc.body);
      assert ClearDoc(Doc(empty, doc.body)) == BodyOnly(doc.body);
    }
  }

  /** A cleared card that is not archived is due on every day. */
  lemma ClearedCardIsDue(doc: Doc, today: int, parseDate: string -> Option<int>)
    requires Lookup(doc.fm, "archived") != Some(Bool(true))
    ensures DueByMetadata(WrittenDoc(ClearDoc(doc)).fm, today, parseDate) == Ok(true)
  {
    ClearingEmptiesHistory(doc, parseDate);
    var d := WrittenDoc(ClearDoc(doc));
    assert Lookup(d.fm, "archived") == Lookup(doc.fm, "archived");
    assert Scheduler.Due([], today) == Ok(true);
  }

  /** Reading back the file of a cleared card gives the metadata without `reviews`, so
      an empty history. The frontmatter form reads back with the writer's blank line
      in front of the body; the body-only form reads back with the same body. */
  lemma ClearedFileReadsBack(doc: Doc, serialized: string, yamlLines: seq<string>,
                             parse: string -> Option<Mapping>, parseDate: string -> Option<int>)
    requires '\r' !in doc.body
    requires ClearDoc(doc).FmAndBody? ==>
               SerializedAs(serialized, yamlLines) && parse(JoinWith(yamlLines, "\n")) == Some(doc.fm - {ReviewsKey})
    requires ClearDoc(doc).BodyOnly? ==> doc.body == "" || SplitLines(doc.body)[0] != Delimiter
    ensures var r := ReadDoc(SplitLines(WrittenText(ClearDoc(doc), serialized)), parse);
            && r.Ok?
            && r.value.fm == doc.fm - {ReviewsKey}
            && ReviewHistory(r.value.fm, parseDate) == Ok([])
  {
    ClearingEmptiesHistory(doc, parseDate);
    var w := ClearDoc(doc);
    if w.FmAndBody? {
      WrittenFileReadBack(serialized, yamlLines, doc.body, parse, doc.fm - {ReviewsKey});
    } else {
      BodyOnlyReadBack(doc.body, parse);
    }
  }

  // ---------------------------------------------------------------------------
  // The command

  datatype Write = Write(card: Card, written: Written)

  /** The clearing pass over the cards, in order; it stops at the first card whose file
      cannot be read, after the writes before it. */
  datatype Pass = Done(writes: seq<Write>) | PanickedAfter(writes: seq<Write>)

  /** The writes are those of the first cards, in order, each card's file cleared. */
  predicate ClearedInOrder(cards: seq<Card>, files: map<Card, Doc>, writes: seq<Write>)
  {
    && |writes| <= |cards|
    && forall i | 0 <= i < |writes| :: cards[i] in files && writes[i] == Write(cards[i], ClearDoc(files[cards[i]]))
  }

  function ClearEach(cards: seq<Card>, files: map<Card, Doc>): Pass
    decreases |cards|
  {
    if cards == [] then Done([])
    else if cards[0] !in files then PanickedAfter([])
    else
      var rest := ClearEach(cards[1..], files);
      var w := Write(cards[0], ClearDoc(files[cards[0]]));
      if rest.Done? then Done([w] + rest.writes) else PanickedAfter([w] + rest.writes)
  }

  /** The pass finishes exactly when every card's file can be read, and then writes
      every card; otherwise it stops at the first unreadable card. Every write made is
      the next card's cleared file. */
  lemma {:induction false} ClearEachClearsInOrder(cards: seq<Card>, files: map<Card, Doc>)
    ensures var p := ClearEach(cards, files);
            && (p.Done? <==> forall c | c in cards :: c in files)
            && ClearedInOrder(cards, files, p.writes)
            && (p.Done? ==> |p.writes| == |cards|)
            && (p.PanickedAfter? ==> |p.writes| < |cards| && cards[|p.writes|] !in files)
    decreases |cards|
  {
    if cards != [] {
      ReadableCons(cards, files);
      if cards[0] in files {
        var rest := ClearEach(cards[1..], files);
        ClearEachClearsInOrder(cards[1..], files);
        ClearedInOrderCons(cards, files, rest.writes);
        var w := Write(cards[0], ClearDoc(files[cards[0]]));
        assert rest.PanickedAfter? ==> cards[|[w] + rest.writes|] == cards[1..][|rest.writes|];
      }
    }
  }

  /** Every card is readable exactly when the first is and the others are. */
  lemma ReadableCons(cards: seq<Card>, files: map<Card, Doc>)
    requires cards != []
    ensures (forall c | c in cards :: c in files) <==> cards[0] in files && forall c | c in cards[1..] :: c in files
  {
    assert forall c | c in cards :: c == cards[0] || c in cards[1..];
    assert forall c | c in cards[1..] :: c in cards;
  }

  /** Clearing one more card in front keeps the writes in order. */
  lemma ClearedInOrderCons(cards: seq<Card>, files: map<Card, Doc>, writes: seq<Write>)
    requires cards != [] && cards[0] in files
    requires ClearedInOrder(cards[1..], files, writes)
    ensures ClearedInOrder(cards, files, [Write(cards[0], ClearDoc(files[cards[0]]))] + writes)
  {
    var all := [Write(cards[0], ClearDoc(files[cards[0]]))] + writes;
    forall i | 0 <= i < |all|
      ensures cards[i] in files && all[i] == Write(cards[i], ClearDoc(files[cards[i]]))
    {
      if i > 0 {
        assert all[i] == writes[i - 1];
        assert cards[i] == cards[1..][i - 1];
      }
    }
  }

  /** What the command does: `NothingFound` when there are no cards; otherwise whether
      the warning banner was printed, the cards listed, the prompt's decision and the
      writes made. */
  datatype Report =
    | NothingFound
    | Asked(warned: bool, listed: seq<Card>, decision: Decision, writes: seq<Write>, panicked: bool)

  function ClearHistory(cards: seq<Card>, files: map<Card, Doc>, noConfirm: bool,
                        input: seq<Option<string>>): (r: Report)
    ensures r.NothingFound? <==> cards == []
    ensures r.Asked? ==> r.warned == !noConfirm && r.listed == cards && r.decision == Decide(input)
    ensures r.Asked? && r.decision != Confirmed ==> r.writes == [] && (r.panicked <==> r.decision == ReadPanic)
  {
    if cards == [] then NothingFound
    else
      var d := Decide(input);
      if d != Confirmed then Asked(!noConfirm, cards, d, [], d == ReadPanic)
      else
        var p := ClearEach(cards, files);
        Asked(!noConfirm, cards, d, p.writes, p.PanickedAfter?)
  }

  /** After a yes over readable files, every card is written exactly once, in order,
      with its `reviews` removed and everything else kept. */
  lemma ConfirmedClearsEveryCard(cards: seq<Card>, files: map<Card, Doc>, noConfirm: bool,
                                 input: seq<Option<string>>, parseDate: string -> Option<int>)
    requires cards != [] && Decide(input) == Confirmed
    requires forall c | c in cards :: c in files
    ensures var r := ClearHistory(cards, files, noConfirm, input);
            && !r.panicked
            && |r.writes| == |cards|
            && forall i | 0 <= i < |cards| ::
                 r.writes[i].card == cards[i] &&
                 WrittenDoc(r.writes[i].written).fm == files[cards[i]].fm - {ReviewsKey} &&
                 ReviewHistory(WrittenDoc(r.writes[i].written).fm, parseDate) == Ok([])
  {
    var r := ClearHistory(cards, files, noConfirm, input);
    ClearEachClearsInOrder(cards, files);
    forall i | 0 <= i < |cards|
      ensures WrittenDoc(r.writes[i].written).fm == files[cards[i]].fm - {ReviewsKey}
      ensures ReviewHistory(WrittenDoc(r.writes[i].written).fm, parseDate) == Ok([])
    {
      ClearingEmptiesHistory(files[cards[i]], parseDate);
    }
  }

  /** `cards_clear_history` as written: the emptiness check, the banner, the listing,
      the prompt loop and the loop that rewrites each card. */
  method CardsClearHistory(cards: seq<Card>, files: map<Card, Doc>, noConfirm: bool,
                           input: seq<Option<string>>) returns (r: Report)
    ensures r == ClearHistory(cards, files, noConfirm, input)
  {
    if |cards| == 0 {
      return NothingFound;
    }
    var warned := !noConfirm;
    var listed := [];
    for i := 0 to |cards|
      invariant listed == cards[..i]
    {
      listed := listed + [cards[i]];
    }
    assert cards[..|cards|] == cards;
    var d, _ := Prompt(input);
    if d != Confirmed {
      return Asked(warned, listed, d, [], d == ReadPanic);
    }
    var p := ClearCards(cards, files);
    r := Asked(warned, listed, d, p.writes, p.PanickedAfter?);
  }

  /** The loop that rewrites each card in turn; reading a card's file fails with a
      panic, after the cards before it were written. */
  method ClearCards(cards: seq<Card>, files: map<Card, Doc>) returns (p: Pass)
    ensures p == ClearEach(cards, files)
  {
    var writes: seq<Write> := [];
    var i := 0;
    while i < |cards|
      invariant 0 <= i <= |cards|
      invariant ClearEach(cards, files) == After(writes, ClearEach(cards[i..], files))
    {
      if cards[i] !in files {
        return PanickedAfter(writes);
      }
      var w := [Write(cards[i], ClearDoc(files[cards[i]]))];
      ClearEachStep(cards, files, i, writes);
      writes := writes + w;
      i := i + 1;
    }
    assert cards[i..] == [];
    p := Done(writes);
  }

  /** The pass `p` after the writes `w` were already made. */
  function After(w: seq<Write>, p: Pass): (r: Pass)
    ensures r.writes == w + p.writes && r.Done? == p.Done?
  {
    match p
    case Done(ws) => Done(w + ws)
    case PanickedAfter(ws) => PanickedAfter(w + ws)
  }

  lemma ClearEachStep(cards: seq<Card>, files: map<Card, Doc>, i: nat, writes: seq<Write>)
    requires i < |cards| && cards[i] in files
    ensures After(writes, ClearEach(cards[i..], files)) ==
            After(writes + [Write(cards[i], ClearDoc(files[cards[i]]))], ClearEach(cards[i + 1..], files))
  {
    var here := cards[i..];
    assert here[0] == cards[i] && here[1..] == cards[i + 1..];
    var rest := ClearEach(cards[i + 1..], files);
    var w := [Write(cards[i], ClearDoc(files[cards[i]]))];
    assert ClearEach(here, files) == if rest.Done? then Done(w + rest.writes) else PanickedAfter(w + rest.writes);
    assert writes + (w + rest.writes) == (writes + w) + rest.writes;
  }
}
