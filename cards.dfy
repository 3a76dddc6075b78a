/** Card metadata: the review history stored under `reviews`, the due check that
    selects cards for a session, and the three rewrites a session performs on a
    card's frontmatter (mark, unmark, mark archived).

    Dates are day numbers; the `%Y-%m-%d` date parser is the `parseDate` argument and
    today's date is given both as its text (`todayText`) and as its day number. The
    rewrites work on the document as read; what is written back is the new document. */
module Cards {
  import opened Util
  import opened Yaml
  import opened Frontmatter
  import opened Walk
  import opened Scheduler

  /** The `--algorithm` choices the command line accepts. */
  datatype Algorithm = All | Leitner

  datatype HistoryError = DateParseError | ValueError

  /** What a rewrite does to the card's file. */
  datatype FileWrite = Rewritten(doc: Doc) | NotWritten | Aborted

  const ReviewsKey := StrKey("reviews")
  const ArchivedKey := StrKey("archived")

  // ---------------------------------------------------------------------------
  // The review history

  /** `get_review_item`: the entry recorded for a review made today. */
  function ReviewItem(remembered: bool, todayText: string): (v: Value)
    ensures Get(v, "date") == Some(Str(todayText))
    ensures Get(v, "remembered") == Some(Bool(remembered))
  {
    Mapping(map[StrKey("date") := Str(todayText), StrKey("remembered") := Bool(remembered)])
  }

  /** One entry of `reviews`: a `date` string the date parser accepts, then a boolean
      `remembered`. */
  function ParseItem(item: Value, parseDate: string -> Option<int>): Result<Review, HistoryError>
  {
    match Get(item, "date")
    case None => Err(ValueError)
    case Some(date) =>
      if !date.Str? then Err(ValueError)
      else match parseDate(date.s)
        case None => Err(DateParseError)
        case Some(day) =>
          match Get(item, "remembered")
          case Some(Bool(b)) => Ok(Review(day, b))
          case _ => Err(ValueError)
  }

  /** An entry written by `ReviewItem` parses back as the review it records. */
  lemma ReviewItemParses(remembered: bool, todayText: string, parseDate: string -> Option<int>, today: int)
    requires parseDate(todayText) == Some(today)
    ensures ParseItem(ReviewItem(remembered, todayText), parseDate) == Ok(Review(today, remembered))
  {
  }

  /** The entries in order; the first entry that fails decides the error. */
  function ParseItems(items: seq<Value>, parseDate: string -> Option<int>): (r: Result<seq<Review>, HistoryError>)
    ensures r.Ok? <==> forall i :: 0 <= i < |items| ==> ParseItem(items[i], parseDate).Ok?
    ensures r.Ok? ==> |r.value| == |items| &&
                      forall i :: 0 <= i < |items| ==> ParseItem(items[i], parseDate) == Ok(r.value[i])
    ensures r.Err? ==> exists i :: 0 <= i < |items| && ParseItem(items[i], parseDate) == Err(r.error) &&
                                  forall j :: 0 <= j < i ==> ParseItem(items[j], parseDate).Ok?
  {
    if items == [] then Ok([])
    else
      var front := items[..|items| - 1];
      assert forall i :: 0 <= i < |front| ==> front[i] == items[i];
      var prefix := ParseItems(front, parseDate);
      if prefix.Err? then prefix
      else
        var last := ParseItem(items[|items| - 1], parseDate);
        if last.Err? then Err(last.error) else Ok(prefix.value + [last.value])
  }

  /** One more entry that parses extends the parsed history by its review. */
  lemma ParseItemsSnoc(items: seq<Value>, item: Value, parseDate: string -> Option<int>)
    requires ParseItems(items, parseDate).Ok? && ParseItem(item, parseDate).Ok?
    ensures ParseItems(items + [item], parseDate) ==
            Ok(ParseItems(items, parseDate).value + [ParseItem(item, parseDate).value])
  {
    assert (items + [item])[..|items|] == items;
  }

  /** Once a prefix of the entries fails, the whole list fails the same way. */
  lemma {:induction false} ParseItemsPrefixError(items: seq<Value>, k: nat, parseDate: string -> Option<int>)
    requires k <= |items|
    requires ParseItems(items[..k], parseDate).Err?
    ensures ParseItems(items, parseDate) == ParseItems(items[..k], parseDate)
    decreases |items| - k
  {
    if k < |items| {
      assert items[..k + 1][..k] == items[..k];
      ParseItemsPrefixError(items, k + 1, parseDate);
    } else {
      assert items[..k] == items;
    }
  }

  /** `read_review_history`: a missing or null `reviews` is an empty history, a
      sequence is parsed entry by entry, anything else is a ValueError. */
  function ReviewHistory(fm: Mapping, parseDate: string -> Option<int>): (r: Result<seq<Review>, HistoryError>)
    ensures Lookup(fm, "reviews").None? || Lookup(fm, "reviews") == Some(Null) ==> r == Ok([])
    ensures (Lookup(fm, "reviews").Some? && !Lookup(fm, "reviews").value.Sequence? &&
             !Lookup(fm, "reviews").value.Null?) ==> r == Err(ValueError)
    ensures Lookup(fm, "reviews").Some? && Lookup(fm, "reviews").value.Sequence? && r.Ok? ==>
              |r.value| == |Lookup(fm, "reviews").value.items|
  {
    match Lookup(fm, "reviews")
    case None => Ok([])
    case Some(Sequence(items)) => ParseItems(items, parseDate)
    case Some(Null) => Ok([])
    case Some(_) => Err(ValueError)
  }

  /** `read_review_history` as the source runs it: a loop over the entries that
      returns at the first bad one. */
  method ReadReviewHistory(fm: Mapping, parseDate: string -> Option<int>) returns (r: Result<seq<Review>, HistoryError>)
    ensures r == ReviewHistory(fm, parseDate)
    ensures r.Ok? && StrKey("reviews") in fm && fm[StrKey("reviews")].Sequence? ==>
              |r.value| == |fm[StrKey("reviews")].items|
  {
    var reviews := if ReviewsKey in fm then fm[ReviewsKey] else Sequence([]);
    match reviews {
      case Sequence(items) =>
        var history: seq<Review> := [];
        var i := 0;
        while i < |items|
          invariant 0 <= i <= |items|
          invariant ParseItems(items[..i], parseDate) == Ok(history)
        {
          assert items[..i + 1][..i] == items[..i];
          var entry := ParseItem(items[i], parseDate);
          if entry.Err? {
            ParseItemsPrefixError(items, i + 1, parseDate);
            return Err(entry.error);
          }
          history := history + [entry.value];
          i := i + 1;
        }
        assert items[..i] == items;
        r := Ok(history);
      case Null =>
        r := Ok([]);
      case _ =>
        r := Err(ValueError);
    }
  }

  // ---------------------------------------------------------------------------
  // Selecting cards

  /** The due check once the metadata is read: an `archived: true` card is never
      due (any other `archived` value counts as not archived); a history that does
      not parse is a panic; otherwise the scheduler decides. */
  function DueByMetadata(fm: Mapping, today: int, parseDate: string -> Option<int>): (r: Result<bool, Panic>)
    ensures Lookup(fm, "archived") == Some(Bool(true)) ==> r == Ok(false)
    ensures Lookup(fm, "archived") != Some(Bool(true)) && ReviewHistory(fm, parseDate).Err? ==> r == Err(Panic)
    ensures Lookup(fm, "archived") != Some(Bool(true)) && ReviewHistory(fm, parseDate) == Ok([]) ==> r == Ok(true)
  {
    if Lookup(fm, "archived").Some? && AsBool(Lookup(fm, "archived").value) == Some(true) then Ok(false)
    else match ReviewHistory(fm, parseDate)
      case Err(_) => Err(Panic)
      case Ok(h) => Due(h, today)
  }

  /** `review_time`: with `all` every card is due and nothing is read; otherwise a
      file whose metadata cannot be read is a panic. */
  function ReviewTime(file: Option<seq<string>>, alg: Algorithm, today: int,
                      parse: string -> Option<Mapping>, parseDate: string -> Option<int>): (r: Result<bool, Panic>)
    ensures alg == All ==> r == Ok(true)
    ensures alg != All && ReadMeta(file, parse).Err? ==> r == Err(Panic)
    ensures alg != All && ReadMeta(file, parse).Ok? ==> r == DueByMetadata(ReadMeta(file, parse).value, today, parseDate)
  {
    if alg == All then Ok(true)
    else match ReadMeta(file, parse)
      case Err(_) => Err(Panic)
      case Ok(fm) => DueByMetadata(fm, today, parseDate)
  }

  /** A card file: a Markdown file with a `cards` component in its canonical path. */
  predicate IsCardFile(e: WalkEntry)
  {
    MarkdownUnder(e, "cards")
  }

  /** Whether `get_cards` keeps an entry; the due check runs only for card files. */
  function Keep(e: WalkEntry, alg: Algorithm, today: int,
                parse: string -> Option<Mapping>, parseDate: string -> Option<int>): (r: Result<bool, Panic>)
    ensures !IsCardFile(e) ==> r == Ok(false)
    ensures r == Ok(true) ==> IsCardFile(e)
    ensures IsCardFile(e) && alg == All ==> r == Ok(true)
  {
    if IsCardFile(e) then ReviewTime(e.file, alg, today, parse, parseDate) else Ok(false)
  }

  /** `get_cards`: the kept entries in walk order; a panic in any due check stops it. */
  function GetCards(walk: seq<WalkEntry>, alg: Algorithm, today: int,
                    parse: string -> Option<Mapping>, parseDate: string -> Option<int>): (r: Result<seq<WalkEntry>, Panic>)
    ensures r.Err? <==> exists i :: 0 <= i < |walk| && Keep(walk[i], alg, today, parse, parseDate).Err?
    ensures r.Ok? ==> forall e :: e in r.value <==> e in walk && Keep(e, alg, today, parse, parseDate) == Ok(true)
    ensures r.Ok? ==> |r.value| <= |walk|
  {
    if walk == [] then Ok([])
    else
      var front := walk[..|walk| - 1];
      var e := walk[|walk| - 1];
      assert walk == front + [e];
      assert forall i :: 0 <= i < |front| ==> front[i] == walk[i];
      match GetCards(front, alg, today, parse, parseDate)
      case Err(_) => Err(Panic)
      case Ok(kept) =>
        match Keep(e, alg, today, parse, parseDate)
        case Err(_) =>
          assert Keep(walk[|walk| - 1], alg, today, parse, parseDate).Err?;
          Err(Panic)
        case Ok(keep) => if keep then Ok(kept + [e]) else Ok(kept)
  }

  /** Walk order is kept: the cards of a concatenated walk are the cards of each part,
      in order. */
  lemma {:induction false} GetCardsConcat(a: seq<WalkEntry>, b: seq<WalkEntry>, alg: Algorithm, today: int,
                                          parse: string -> Option<Mapping>, parseDate: string -> Option<int>)
    ensures GetCards(a + b, alg, today, parse, parseDate) ==
            match GetCards(a, alg, today, parse, parseDate)
            case Err(_) => Err(Panic)
            case Ok(x) =>
              match GetCards(b, alg, today, parse, parseDate)
              case Err(_) => Err(Panic)
              case Ok(y) => Ok(x + y)
  {
    if b == [] {
      assert a + b == a;
      if GetCards(a, alg, today, parse, parseDate).Ok? {
        assert GetCards(a, alg, today, parse, parseDate).value + [] == GetCards(a, alg, today, parse, parseDate).value;
      }
    } else {
      var front := b[..|b| - 1];
      assert (a + b)[..|a + b| - 1] == a + front;
      assert (a + b)[|a + b| - 1] == b[|b| - 1];
      GetCardsConcat(a, front, alg, today, parse, parseDate);
      var ra := GetCards(a, alg, today, parse, parseDate);
      var rf := GetCards(front, alg, today, parse, parseDate);
      if ra.Ok? && rf.Ok? {
        assert ra.value + rf.value + [b[|b| - 1]] == ra.value + (rf.value + [b[|b| - 1]]);
      }
    }
  }

  /** With `all`, selection never reads a file and never panics: exactly the card
      files are kept. */
  lemma AllSelectsEveryCardFile(walk: seq<WalkEntry>, today: int,
                                parse: string -> Option<Mapping>, parseDate: string -> Option<int>)
    ensures GetCards(walk, All, today, parse, parseDate).Ok?
    ensures forall e :: e in GetCards(walk, All, today, parse, parseDate).value <==> e in walk && IsCardFile(e)
  {
  }

  // ---------------------------------------------------------------------------
  // Rewriting a card's metadata

  /** Every key other than `key` is untouched. */
  predicate SameExcept(m: Mapping, m': Mapping, key: Key)
  {
    m - {key} == m' - {key}
  }

  /** `mark` as the source writes it: a null `reviews` is replaced by the bare entry
      instead of a one-entry sequence. On a missing `reviews` or a sequence it does
      what the corrected `MarkDoc` does. */
  function MarkAsWritten(doc: Doc, remembered: bool, todayText: string): (r: FileWrite)
    ensures r.Aborted? <==> Lookup(doc.fm, "reviews").Some? && !Lookup(doc.fm, "reviews").value.Sequence? &&
                            !Lookup(doc.fm, "reviews").value.Null?
    ensures !r.NotWritten?
    ensures r.Rewritten? ==> r.doc.body == doc.body && SameExcept(doc.fm, r.doc.fm, ReviewsKey)
    ensures Lookup(doc.fm, "reviews") == Some(Null) ==> r == Rewritten(Doc(doc.fm[ReviewsKey := ReviewItem(remembered, todayText)], doc.body))
    ensures Lookup(doc.fm, "reviews") != Some(Null) ==> r == MarkDoc(doc, remembered, todayText)
  {
    var item := ReviewItem(remembered, todayText);
    match Lookup(doc.fm, "reviews")
    case None => Rewritten(Doc(doc.fm[ReviewsKey := Sequence([item])], doc.body))
    case Some(Sequence(s)) => Rewritten(Doc(doc.fm[ReviewsKey := Sequence(s + [item])], doc.body))
    case Some(Null) => Rewritten(Doc(doc.fm[ReviewsKey := item], doc.body))
    case Some(_) => Aborted
  }

  /** After `mark` on a card whose `reviews` is null, its history no longer parses,
      although it parsed (as empty) before: the next due check panics. */
  lemma MarkOnNullBreaksHistory(doc: Doc, remembered: bool, todayText: string, parseDate: string -> Option<int>)
    requires Lookup(doc.fm, "reviews") == Some(Null)
    ensures ReviewHistory(doc.fm, parseDate) == Ok([])
    ensures MarkAsWritten(doc, remembered, todayText).Rewritten?
    ensures ReviewHistory(MarkAsWritten(doc, remembered, todayText).doc.fm, parseDate) == Err(ValueError)
  {
  }

  /** `mark` with a null `reviews` treated like a missing one: the entry is appended
      to the history, or starts a new one-entry history. */
  function MarkDoc(doc: Doc, remembered: bool, todayText: string): (r: FileWrite)
    ensures r.Aborted? <==> Lookup(doc.fm, "reviews").Some? && !Lookup(doc.fm, "reviews").value.Sequence? &&
                            !Lookup(doc.fm, "reviews").value.Null?
    ensures !r.NotWritten?
    ensures r.Rewritten? ==> r.doc.body == doc.body && SameExcept(doc.fm, r.doc.fm, ReviewsKey)
    ensures r.Rewritten? ==> ReviewsKey in r.doc.fm && r.doc.fm[ReviewsKey].Sequence? &&
                             |r.doc.fm[ReviewsKey].items| > 0 &&
                             r.doc.fm[ReviewsKey].items[|r.doc.fm[ReviewsKey].items| - 1] == ReviewItem(remembered, todayText)
  {
    var item := ReviewItem(remembered, todayText);
    match Lookup(doc.fm, "reviews")
    case None => Rewritten(Doc(doc.fm[ReviewsKey := Sequence([item])], doc.body))
    case Some(Sequence(s)) => Rewritten(Doc(doc.fm[ReviewsKey := Sequence(s + [item])], doc.body))
    case Some(Null) => Rewritten(Doc(doc.fm[ReviewsKey := Sequence([item])], doc.body))
    case Some(_) => Aborted
  }

  /** Marking records exactly one more review, today's, at the end of the history. */
  lemma {:induction false} MarkAppendsReview(doc: Doc, remembered: bool, todayText: string,
                                             parseDate: string -> Option<int>, today: int, h: seq<Review>)
    requires parseDate(todayText) == Some(today)
    requires ReviewHistory(doc.fm, parseDate) == Ok(h)
    ensures MarkDoc(doc, remembered, todayText).Rewritten?
    ensures ReviewHistory(MarkDoc(doc, remembered, todayText).doc.fm, parseDate) == Ok(h + [Review(today, remembered)])
  {
    var item := ReviewItem(remembered, todayText);
    ReviewItemParses(remembered, todayText, parseDate, today);
    var s := match Lookup(doc.fm, "reviews") case Some(Sequence(s)) => s case _ => [];
    assert ParseItems(s, parseDate) == Ok(h);
    HistoryAfterAppend(doc.fm, s, item, parseDate);
    assert [] + [item] == [item];
    assert MarkDoc(doc, remembered, todayText).doc.fm == doc.fm[ReviewsKey := Sequence(s + [item])];
  }

  lemma HistoryAfterAppend(fm: Mapping, items: seq<Value>, item: Value, parseDate: string -> Option<int>)
    requires ParseItems(items, parseDate).Ok? && ParseItem(item, parseDate).Ok?
    ensures ReviewHistory(fm[ReviewsKey := Sequence(items + [item])], parseDate) ==
            Ok(ParseItems(items, parseDate).value + [ParseItem(item, parseDate).value])
  {
    ParseItemsSnoc(items, item, parseDate);
  }

  /** `unmark`: the last entry of a `reviews` sequence is dropped (an empty sequence
      stays empty); a missing, null or other `reviews` is a panic. */
  function UnmarkDoc(doc: Doc): (r: FileWrite)
    ensures r.Aborted? <==> !(Lookup(doc.fm, "reviews").Some? && Lookup(doc.fm, "reviews").value.Sequence?)
    ensures !r.NotWritten?
    ensures r.Rewritten? ==> r.doc.body == doc.body && SameExcept(doc.fm, r.doc.fm, ReviewsKey)
  {
    match Lookup(doc.fm, "reviews")
    case Some(Sequence(s)) =>
      Rewritten(Doc(doc.fm[ReviewsKey := Sequence(if s == [] then [] else s[..|s| - 1])], doc.body))
    case _ => Aborted
  }

  /** Unmarking removes exactly the most recent review. */
  lemma UnmarkDropsLastReview(doc: Doc, parseDate: string -> Option<int>, h: seq<Review>)
    requires Lookup(doc.fm, "reviews").Some? && Lookup(doc.fm, "reviews").value.Sequence?
    requires ReviewHistory(doc.fm, parseDate) == Ok(h) && h != []
    ensures UnmarkDoc(doc).Rewritten?
    ensures ReviewHistory(UnmarkDoc(doc).doc.fm, parseDate) == Ok(h[..|h| - 1])
  {
    var s := Lookup(doc.fm, "reviews").value.items;
    assert ParseItems(s, parseDate) == Ok(h);
  }

  /** Unmark undoes mark: the history is back to what it was and no other key or the
      body has changed; when `reviews` was already a sequence the document is
      restored exactly. */
  lemma {:induction false} UnmarkUndoesMark(doc: Doc, remembered: bool, todayText: string,
                                            parseDate: string -> Option<int>, today: int, h: seq<Review>)
    requires parseDate(todayText) == Some(today)
    requires ReviewHistory(doc.fm, parseDate) == Ok(h)
    ensures MarkDoc(doc, remembered, todayText).Rewritten?
    ensures var back := UnmarkDoc(MarkDoc(doc, remembered, todayText).doc);
            && back.Rewritten?
            && ReviewHistory(back.doc.fm, parseDate) == Ok(h)
            && back.doc.body == doc.body
            && SameExcept(doc.fm, back.doc.fm, ReviewsKey)
    ensures Lookup(doc.fm, "reviews").Some? && Lookup(doc.fm, "reviews").value.Sequence? ==>
            UnmarkDoc(MarkDoc(doc, remembered, todayText).doc) == Rewritten(doc)
  {
    var marked := MarkDoc(doc, remembered, todayText).doc;
    MarkAppendsReview(doc, remembered, todayText, parseDate, today, h);
    UnmarkDropsLastReview(marked, parseDate, h + [Review(today, remembered)]);
    assert (h + [Review(today, remembered)])[..|h|] == h;
    var back := UnmarkDoc(marked).doc;
    assert SameExcept(doc.fm, back.fm, ReviewsKey) by {
      assert SameExcept(doc.fm, marked.fm, ReviewsKey);
      assert SameExcept(marked.fm, back.fm, ReviewsKey);
    }
    if Lookup(doc.fm, "reviews").Some? && Lookup(doc.fm, "reviews").value.Sequence? {
      var s := doc.fm[ReviewsKey].items;
      var item := ReviewItem(remembered, todayText);
      assert (s + [item])[..|s|] == s;
      assert back.fm == doc.fm;
    }
  }

  /** As published, on a card whose `reviews` is a sequence, unmark gives back exactly
      the metadata mark started from, whatever body the file then holds. */
  lemma UnmarkRestoresSequence(doc: Doc, remembered: bool, todayText: string, body: string)
    requires Lookup(doc.fm, "reviews").Some? && Lookup(doc.fm, "reviews").value.Sequence?
    ensures MarkAsWritten(doc, remembered, todayText).Rewritten?
    ensures UnmarkDoc(Doc(MarkAsWritten(doc, remembered, todayText).doc.fm, body)) == Rewritten(Doc(doc.fm, body))
  {
    var s := doc.fm[ReviewsKey].items;
    var item := ReviewItem(remembered, todayText);
    assert (s + [item])[..|s|] == s;
    var marked := MarkAsWritten(doc, remembered, todayText).doc.fm;
    assert marked[ReviewsKey := Sequence(s)] == doc.fm;
  }

  /** `mark_archived` as the source writes it: an existing boolean is updated in memory
      only and the file is not written. */
  function MarkArchivedAsWritten(doc: Doc, archived: bool): (r: FileWrite)
    ensures r.Aborted? <==> Lookup(doc.fm, "archived").Some? && !Lookup(doc.fm, "archived").value.Bool?
    ensures r.NotWritten? <==> Lookup(doc.fm, "archived").Some? && Lookup(doc.fm, "archived").value.Bool?
    ensures r.Rewritten? ==> r == MarkArchivedDoc(doc, archived) && Lookup(r.doc.fm, "archived") == Some(Bool(archived))
  {
    match Lookup(doc.fm, "archived")
    case Some(Bool(_)) => NotWritten
    case Some(_) => Aborted
    case None => Rewritten(Doc(doc.fm[ArchivedKey := Bool(archived)], doc.body))
  }

  /** Undoing an archive of a card that already says `archived: true` leaves the file
      saying so: the card stays out of every later Leitner session. */
  lemma UnarchiveIsLost(doc: Doc, today: int, parseDate: string -> Option<int>)
    requires Lookup(doc.fm, "archived") == Some(Bool(true))
    ensures MarkArchivedAsWritten(doc, false) == NotWritten
    ensures DueByMetadata(doc.fm, today, parseDate) == Ok(false)
  {
  }

  /** `mark_archived` with the update written in both cases. */
  function MarkArchivedDoc(doc: Doc, archived: bool): (r: FileWrite)
    ensures r.Aborted? <==> Lookup(doc.fm, "archived").Some? && !Lookup(doc.fm, "archived").value.Bool?
    ensures !r.NotWritten?
    ensures r.Rewritten? ==> r.doc.body == doc.body && SameExcept(doc.fm, r.doc.fm, ArchivedKey) &&
                             Lookup(r.doc.fm, "archived") == Some(Bool(archived))
  {
    match Lookup(doc.fm, "archived")
    case Some(Bool(_)) => Rewritten(Doc(doc.fm[ArchivedKey := Bool(archived)], doc.body))
    case Some(_) => Aborted
    case None => Rewritten(Doc(doc.fm[ArchivedKey := Bool(archived)], doc.body))
  }

  /** An archived card is never selected, and un-archiving hands the decision back to
      the scheduler on the unchanged history. */
  lemma ArchiveDecidesSelection(doc: Doc, today: int, parseDate: string -> Option<int>)
    requires MarkArchivedDoc(doc, true).Rewritten?
    ensures DueByMetadata(MarkArchivedDoc(doc, true).doc.fm, today, parseDate) == Ok(false)
    ensures var d := MarkArchivedDoc(doc, false).doc;
            ReviewHistory(d.fm, parseDate) == ReviewHistory(doc.fm, parseDate) &&
            DueByMetadata(d.fm, today, parseDate) ==
              match ReviewHistory(doc.fm, parseDate)
              case Err(_) => Err(Panic)
              case Ok(h) => Due(h, today)
  {
    var d := MarkArchivedDoc(doc, false).doc;
    assert Lookup(d.fm, "reviews") == Lookup(doc.fm, "reviews") by {
      assert ReviewsKey != ArchivedKey;
      assert ReviewsKey in d.fm <==> ReviewsKey in doc.fm by {
        assert ReviewsKey in d.fm - {ArchivedKey} <==> ReviewsKey in doc.fm - {ArchivedKey};
      }
    }
  }

  /** A card marked forgotten today is due today (unless it is archived). */
  lemma ForgottenCardIsDue(doc: Doc, todayText: string, parseDate: string -> Option<int>, today: int, h: seq<Review>)
    requires parseDate(todayText) == Some(today)
    requires ReviewHistory(doc.fm, parseDate) == Ok(h)
    requires Lookup(doc.fm, "archived") != Some(Bool(true))
    ensures MarkDoc(doc, false, todayText).Rewritten?
    ensures DueByMetadata(MarkDoc(doc, false, todayText).doc.fm, today, parseDate) == Ok(true)
  {
    MarkAppendsReview(doc, false, todayText, parseDate, today, h);
    var d := MarkDoc(doc, false, todayText).doc;
    assert Lookup(d.fm, "archived") == Lookup(doc.fm, "archived") by {
      assert ArchivedKey in d.fm - {ReviewsKey} <==> ArchivedKey in doc.fm - {ReviewsKey};
    }
  }

  /** A card marked remembered today is not due again today; unless it is archived,
      the due check panics instead when the new interval ends past chrono's last date. */
  lemma RememberedCardWaits(doc: Doc, todayText: string, parseDate: string -> Option<int>, today: int, h: seq<Review>)
    requires parseDate(todayText) == Some(today)
    requires ReviewHistory(doc.fm, parseDate) == Ok(h)
    ensures MarkDoc(doc, true, todayText).Rewritten?
    ensures DueByMetadata(MarkDoc(doc, true, todayText).doc.fm, today, parseDate) ==
            if Lookup(doc.fm, "archived") != Some(Bool(true)) &&
               today + IntervalDays(SpacingScan(h + [Review(today, true)]).value) > LastDay
            then Err(Panic) else Ok(false)
  {
    MarkAppendsReview(doc, true, todayText, parseDate, today, h);
    var d := MarkDoc(doc, true, todayText).doc;
    assert Lookup(d.fm, "archived") == Lookup(doc.fm, "archived") by {
      assert ArchivedKey in d.fm - {ReviewsKey} <==> ArchivedKey in doc.fm - {ReviewsKey};
    }
    assert Last(h + [Review(today, true)]) == Review(today, true);
  }
}
