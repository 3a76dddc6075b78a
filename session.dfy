/** The interactive review session of `review`: a queue of due cards, the side of the
    front card being shown, the counters the progress bar displays and an undo stack.
    Each key press is one `Step`; `Review` is the event loop itself.

    Card files are held in `files`, the parsed document of each path; a rewrite stores
    the document the reader gets back from the written file. A path missing from
    `files` cannot be read. Terminal events are the `events` argument; drawing is left
    to `Progress` and `Sides`.

    A step is taken by one of two builds of the program. `AsWritten` is the loop as
    published: `a` writes nothing, `mark` turns a null `reviews` into the bare entry,
    `mark_archived` does not write an existing boolean, and every rewritten body comes
    back with the writer's blank line in front of it. `Corrected` is the loop with
    those four points fixed; the undo round trips are proved about it. */
module Session {
  import opened Util
  import opened Yaml
  import opened Frontmatter
  import opened Cards
  import opened Sides
  import Scheduler

  /** A card is identified by its path. */
  type Card = string

  datatype UndoItem = MarkRemembered(card: Card) | MarkForgotten | MarkArchived(card: Card) | Skip

  /** The key presses the loop reacts to; `Edit(doc)` is `e` with the document the
      editor leaves behind. */
  datatype Event = Quit | Space | SkipKey | Forgot | Archive | Undo | Edit(edited: Doc) | Resize | Other

  datatype State = State(cards: seq<Card>, component: nat, components: seq<string>, undo: seq<UndoItem>,
                         remembered: nat, forgotten: nat, files: map<Card, Doc>)

  /** After a key: the loop goes on, the loop has ended (`q`, or the queue ran out), or
      the process has stopped on an error or a panic. */
  datatype Outcome = Running(s: State) | Ended(s: State) | Crashed

  /** The program as published, or with its rewrites corrected. */
  datatype Build = AsWritten | Corrected

  /** What a loop relies on between two key presses. */
  predicate Ready(s: State)
  {
    s.cards != [] && s.component < |s.components|
  }

  // ---------------------------------------------------------------------------
  // One key press

  /** The document read back from a file a rewrite of `d` wrote: as published the
      reader keeps the writer's blank line in front of the body; corrected, it strips
      it (`Frontmatter.StrippedRoundTrip`). */
  function Reread(d: Doc, b: Build): Doc
  {
    if b == Corrected then d else Doc(d.fm, RereadBody(d.body))
  }

  /** Applies a rewrite of `c`'s file. */
  function Store(files: map<Card, Doc>, c: Card, w: FileWrite, b: Build): (r: Option<map<Card, Doc>>)
    ensures r.None? <==> w.Aborted?
    ensures w.NotWritten? ==> r == Some(files)
    ensures w.Rewritten? ==> r.Some? && c in r.value && r.value[c].fm == w.doc.fm
    ensures w.Rewritten? && b == Corrected ==> r.value[c] == w.doc
    ensures w.Rewritten? && b == AsWritten ==> r.value[c].body == RereadBody(w.doc.body)
    ensures r.Some? ==> r.value.Keys == files.Keys + (if w.Rewritten? then {c} else {})
    ensures r.Some? ==> forall k :: k in files && k != c ==> r.value[k] == files[k]
  {
    match w
    case Rewritten(d) => Some(files[c := Reread(d, b)])
    case NotWritten => Some(files)
    case Aborted => None
  }

  /** `cards::mark`: a missing file or an unsupported `reviews` panics. */
  function Mark(files: map<Card, Doc>, c: Card, remembered: bool, todayText: string, b: Build): (r: Option<map<Card, Doc>>)
    ensures r.Some? <==> c in files && MarkDoc(files[c], remembered, todayText).Rewritten?
    ensures r.Some? ==> c in r.value && r.value.Keys == files.Keys &&
                        SameExcept(files[c].fm, r.value[c].fm, ReviewsKey) &&
                        forall k :: k in files && k != c ==> r.value[k] == files[k]
    ensures r.Some? && b == Corrected ==> r.value[c] == MarkDoc(files[c], remembered, todayText).doc
  {
    if c !in files then None
    else Store(files, c, if b == Corrected then MarkDoc(files[c], remembered, todayText)
                         else MarkAsWritten(files[c], remembered, todayText), b)
  }

  /** `cards::unmark`: a missing file, or a `reviews` that is not a sequence, panics. */
  function Unmark(files: map<Card, Doc>, c: Card, b: Build): (r: Option<map<Card, Doc>>)
    ensures r.Some? <==> c in files && Lookup(files[c].fm, "reviews").Some? &&
                         Lookup(files[c].fm, "reviews").value.Sequence?
    ensures r.Some? ==> c in r.value && r.value.Keys == files.Keys &&
                        SameExcept(files[c].fm, r.value[c].fm, ReviewsKey) &&
                        forall k :: k in files && k != c ==> r.value[k] == files[k]
  {
    if c !in files then None else Store(files, c, UnmarkDoc(files[c]), b)
  }

  /** `cards::mark_archived`: a missing file, or an `archived` that is not a boolean,
      panics; as published an existing boolean is not written back. */
  function SetArchived(files: map<Card, Doc>, c: Card, archived: bool, b: Build): (r: Option<map<Card, Doc>>)
    ensures r.Some? <==> c in files && (Lookup(files[c].fm, "archived").None? || Lookup(files[c].fm, "archived").value.Bool?)
    ensures r.Some? ==> r.value.Keys == files.Keys && forall k :: k in files && k != c ==> r.value[k] == files[k]
    ensures r.Some? && b == Corrected ==> r.value[c].fm == files[c].fm[ArchivedKey := Bool(archived)]
    ensures r.Some? && b == AsWritten && Lookup(files[c].fm, "archived").Some? ==> r.value == files
  {
    if c !in files then None
    else Store(files, c, if b == Corrected then MarkArchivedDoc(files[c], archived)
                         else MarkArchivedAsWritten(files[c], archived), b)
  }

  /** Shows the front card from its first side: its body is read again and split. */
  function Show(s: State): (r: Outcome)
    requires s.cards != []
    ensures r.Crashed? <==> s.cards[0] !in s.files
    ensures r.Running? ==> Ready(r.s) && Shows(r.s) && r.s.component == 0 &&
                           r.s.components == SplitSides(s.files[s.cards[0]].body) &&
                           r.s == s.(component := 0, components := r.s.components)
  {
    if s.cards[0] in s.files then Running(s.(component := 0, components := SplitSides(s.files[s.cards[0]].body)))
    else Crashed
  }

  /** The session before the first key press; an empty queue ends it at once. */
  function Start(queue: seq<Card>, files: map<Card, Doc>): (r: Outcome)
    ensures queue == [] ==> r.Ended?
    ensures r.Running? ==> Ready(r.s) && r.s.cards == queue && r.s.undo == [] &&
                           r.s.remembered == 0 && r.s.forgotten == 0 && r.s.files == files
  {
    var s := State(queue, 0, [], [], 0, 0, files);
    if queue == [] then Ended(s) else Show(s)
  }

  /** A step that may go on: the loop relies on `Ready`, and no file disappears. */
  predicate Follows(s: State, r: Outcome)
  {
    && (r.Running? ==> Ready(r.s) && (Shows(s) ==> Shows(r.s)))
    && (!r.Crashed? ==> s.files.Keys <= r.s.files.Keys)
  }

  /** The sides held are those of the front card's body. */
  predicate Shows(s: State)
  {
    s.cards != [] && s.cards[0] in s.files && s.components == SplitSides(s.files[s.cards[0]].body)
  }

  /** Space on the last side: the card is marked remembered and leaves the queue. */
  function Remember(s: State, todayText: string, b: Build): (r: Outcome)
    requires Ready(s)
    ensures Follows(s, r)
  {
    var c := s.cards[0];
    match Mark(s.files, c, true, todayText, b)
    case None => Crashed
    case Some(files) =>
      var t := s.(cards := s.cards[1..], undo := s.undo + [MarkRemembered(c)],
                  remembered := s.remembered + 1, files := files);
      if t.cards == [] then Ended(t) else Show(t)
  }

  /** `s` or `l`: the card goes to the back of the queue. */
  function SkipCard(s: State): (r: Outcome)
    requires Ready(s)
    ensures Follows(s, r)
  {
    Show(s.(cards := s.cards[1..] + [s.cards[0]], undo := s.undo + [Skip]))
  }

  /** `f`: the card is marked forgotten and goes to the back of the queue. */
  function ForgetCard(s: State, todayText: string, b: Build): (r: Outcome)
    requires Ready(s)
    ensures Follows(s, r)
  {
    var c := s.cards[0];
    match Mark(s.files, c, false, todayText, b)
    case None => Crashed
    case Some(files) =>
      Show(s.(cards := s.cards[1..] + [c], undo := s.undo + [MarkForgotten],
              forgotten := s.forgotten + 1, files := files))
  }

  /** `a`: the card leaves the queue; archiving the last card ends the session without
      an undo entry. As published nothing is written; corrected, the card's file gets
      `archived: true`. */
  function ArchiveCard(s: State, b: Build): (r: Outcome)
    requires Ready(s)
    ensures Follows(s, r)
  {
    var c := s.cards[0];
    match (if b == AsWritten then Some(s.files) else SetArchived(s.files, c, true, b))
    case None => Crashed
    case Some(files) =>
      var t := s.(cards := s.cards[1..], files := files);
      if t.cards == [] then Ended(t) else Show(t.(undo := s.undo + [MarkArchived(c)]))
  }

  /** Undoing a remembered mark: the counter goes down, the mark is removed and the
      card is back at the front. A counter at zero is a `usize` underflow, which
      panics in a debug build. */
  function RevertRemembered(s: State, m: Card, rest: seq<UndoItem>, b: Build): (r: Outcome)
    requires Ready(s)
    ensures Follows(s, r)
  {
    if s.remembered == 0 then Crashed
    else match Unmark(s.files, m, b)
      case None => Crashed
      case Some(files) =>
        Show(s.(cards := [m] + s.cards, undo := rest, remembered := s.remembered - 1, files := files))
  }

  /** Undoing a forgotten mark: the card at the back of the queue is unmarked and moved
      to the front. */
  function RevertForgotten(s: State, rest: seq<UndoItem>, b: Build): (r: Outcome)
    requires Ready(s)
    ensures Follows(s, r)
  {
    var back := s.cards[|s.cards| - 1];
    if s.forgotten == 0 then Crashed
    else match Unmark(s.files, back, b)
      case None => Crashed
      case Some(files) =>
        Show(s.(cards := [back] + s.cards[..|s.cards| - 1], undo := rest,
                forgotten := s.forgotten - 1, files := files))
  }

  /** Undoing an archive: the card is un-archived and back at the front. */
  function RevertArchived(s: State, m: Card, rest: seq<UndoItem>, b: Build): (r: Outcome)
    requires Ready(s)
    ensures Follows(s, r)
  {
    match SetArchived(s.files, m, false, b)
    case None => Crashed
    case Some(files) => Show(s.(cards := [m] + s.cards, undo := rest, files := files))
  }

  /** Undoing a skip: the card at the back of the queue moves to the front. */
  function RevertSkip(s: State, rest: seq<UndoItem>): (r: Outcome)
    requires Ready(s)
    ensures Follows(s, r)
  {
    Show(s.(cards := [s.cards[|s.cards| - 1]] + s.cards[..|s.cards| - 1], undo := rest))
  }

  /** `u`: the last entry of the undo stack is reverted; an empty stack does nothing. */
  function UndoLast(s: State, b: Build): (r: Outcome)
    requires Ready(s)
    ensures Follows(s, r)
  {
    if s.undo == [] then Running(s)
    else
      var rest := s.undo[..|s.undo| - 1];
      match s.undo[|s.undo| - 1]
      case MarkRemembered(m) => RevertRemembered(s, m, rest, b)
      case MarkForgotten => RevertForgotten(s, rest, b)
      case MarkArchived(m) => RevertArchived(s, m, rest, b)
      case Skip => RevertSkip(s, rest)
  }

  /** The loop body for one key press. */
  function Step(s: State, e: Event, todayText: string, b: Build): (r: Outcome)
    requires Ready(s)
    ensures Follows(s, r)
  {
    match e
    case Quit => Ended(s)
    case Space =>
      if s.component == |s.components| - 1 then Remember(s, todayText, b)
      else Running(s.(component := s.component + 1))
    case SkipKey => SkipCard(s)
    case Forgot => ForgetCard(s, todayText, b)
    case Archive => ArchiveCard(s, b)
    case Undo => UndoLast(s, b)
    case Edit(d) => Show(s.(files := s.files[s.cards[0] := d]))
    case Resize => Running(s)
    case Other => Running(s)
  }

  // ---------------------------------------------------------------------------
  // What every step keeps

  /** The number of remembered and forgotten marks on the undo stack. */
  function CountRemembered(undo: seq<UndoItem>): nat
  {
    if undo == [] then 0
    else CountRemembered(undo[..|undo| - 1]) + (if undo[|undo| - 1].MarkRemembered? then 1 else 0)
  }

  function CountForgotten(undo: seq<UndoItem>): nat
  {
    if undo == [] then 0
    else CountForgotten(undo[..|undo| - 1]) + (if undo[|undo| - 1].MarkForgotten? then 1 else 0)
  }

  /** The card an undo entry names, if any. */
  function Named(item: UndoItem): multiset<Card>
  {
    match item
    case MarkRemembered(c) => multiset{c}
    case MarkArchived(c) => multiset{c}
    case _ => multiset{}
  }

  /** The cards that left the queue with an undo entry naming them. */
  function Taken(undo: seq<UndoItem>): multiset<Card>
  {
    if undo == [] then multiset{} else Taken(undo[..|undo| - 1]) + Named(undo[|undo| - 1])
  }

  /** Every card of the session is in the queue or named on the undo stack, once. */
  function Accounted(s: State): multiset<Card>
  {
    multiset(s.cards) + Taken(s.undo)
  }

  /** Every card of the session has a readable file. */
  predicate Readable(s: State)
  {
    forall k | k in Accounted(s) :: k in s.files
  }

  /** The queue an undo entry restores. */
  function UndoQueue(cards: seq<Card>, item: UndoItem): Option<seq<Card>>
  {
    match item
    case MarkRemembered(c) => Some([c] + cards)
    case MarkArchived(c) => Some([c] + cards)
    case _ => if cards == [] then None else Some([cards[|cards| - 1]] + cards[..|cards| - 1])
  }

  /** Undoing the whole stack, entry by entry, never finds the queue empty where a card
      has to be taken from its back. */
  predicate Replayable(cards: seq<Card>, undo: seq<UndoItem>)
    decreases |undo|
  {
    undo == [] ||
    (UndoQueue(cards, undo[|undo| - 1]).Some? &&
     Replayable(UndoQueue(cards, undo[|undo| - 1]).value, undo[..|undo| - 1]))
  }

  /** The session invariant: every card is readable, the shown sides are the front
      card's, the counters count the marks on the undo stack, and the stack can be
      undone to the start. */
  predicate Inv(s: State)
  {
    && Ready(s)
    && Readable(s)
    && Shows(s)
    && Counted(s)
  }

  /** A session over readable files starts in the invariant, with every card queued. */
  lemma StartEstablishesInv(queue: seq<Card>, files: map<Card, Doc>)
    requires forall k | k in queue :: k in files
    ensures queue != [] <==> Start(queue, files).Running?
    ensures Start(queue, files).Running? ==> Inv(Start(queue, files).s)
    ensures Start(queue, files).Running? ==> Accounted(Start(queue, files).s) == multiset(queue)
  {
  }

  lemma PushCounts(undo: seq<UndoItem>, item: UndoItem)
    ensures (undo + [item])[..|undo|] == undo
    ensures CountRemembered(undo + [item]) == CountRemembered(undo) + (if item.MarkRemembered? then 1 else 0)
    ensures CountForgotten(undo + [item]) == CountForgotten(undo) + (if item.MarkForgotten? then 1 else 0)
    ensures Taken(undo + [item]) == Taken(undo) + Named(item)
  {
    assert (undo + [item])[..|undo|] == undo;
  }

  lemma RotateKeepsCards(cards: seq<Card>)
    requires cards != []
    ensures multiset(cards[1..] + [cards[0]]) == multiset(cards)
    ensures multiset([cards[|cards| - 1]] + cards[..|cards| - 1]) == multiset(cards)
    ensures cards == [cards[0]] + cards[1..]
  {
    assert cards == [cards[0]] + cards[1..];
    assert cards == cards[..|cards| - 1] + [cards[|cards| - 1]];
  }

  /** What a step must keep of the queue, the counters and the undo stack. */
  predicate Kept(s: State, t: State)
  {
    && Accounted(t) == Accounted(s)
    && t.remembered == CountRemembered(t.undo)
    && t.forgotten == CountForgotten(t.undo)
    && Replayable(t.cards, t.undo)
  }

  predicate Counted(s: State)
  {
    && s.remembered == CountRemembered(s.undo)
    && s.forgotten == CountForgotten(s.undo)
    && Replayable(s.cards, s.undo)
  }

  lemma RememberKeeps(s: State, todayText: string, b: Build)
    requires Ready(s) && Counted(s) && Remember(s, todayText, b).Running?
    ensures Kept(s, Remember(s, todayText, b).s)
  {
    var c := s.cards[0];
    var t := Remember(s, todayText, b).s;
    RememberedQueue(s, todayText, b);
    RotateKeepsCards(s.cards);
    PushCounts(s.undo, MarkRemembered(c));
    assert UndoQueue(t.cards, MarkRemembered(c)) == Some(s.cards);
  }

  lemma RememberedQueue(s: State, todayText: string, b: Build)
    requires Ready(s) && Remember(s, todayText, b).Running?
    ensures var t := Remember(s, todayText, b).s;
            && t.cards == s.cards[1..] && t.undo == s.undo + [MarkRemembered(s.cards[0])]
            && t.remembered == s.remembered + 1 && t.forgotten == s.forgotten
  {
  }

  lemma SkipKeeps(s: State)
    requires Ready(s) && Counted(s) && SkipCard(s).Running?
    ensures Kept(s, SkipCard(s).s)
  {
    var t := SkipCard(s).s;
    RotateKeepsCards(s.cards);
    PushCounts(s.undo, Skip);
    assert t.cards[..|t.cards| - 1] == s.cards[1..];
  }

  lemma ForgetKeeps(s: State, todayText: string, b: Build)
    requires Ready(s) && Counted(s) && ForgetCard(s, todayText, b).Running?
    ensures Kept(s, ForgetCard(s, todayText, b).s)
  {
    var t := ForgetCard(s, todayText, b).s;
    RotateKeepsCards(s.cards);
    PushCounts(s.undo, MarkForgotten);
    assert t.cards[..|t.cards| - 1] == s.cards[1..];
  }

  lemma ArchiveKeeps(s: State, b: Build)
    requires Ready(s) && Counted(s) && ArchiveCard(s, b).Running?
    ensures Kept(s, ArchiveCard(s, b).s)
  {
    var c := s.cards[0];
    var t := ArchiveCard(s, b).s;
    RotateKeepsCards(s.cards);
    PushCounts(s.undo, MarkArchived(c));
    assert UndoQueue(t.cards, MarkArchived(c)) == Some(s.cards);
  }

  lemma UndoKeeps(s: State, b: Build)
    requires Ready(s) && Counted(s) && UndoLast(s, b).Running?
    ensures Kept(s, UndoLast(s, b).s)
  {
    if s.undo != [] {
      var t := UndoLast(s, b).s;
      var rest := s.undo[..|s.undo| - 1];
      var item := s.undo[|s.undo| - 1];
      RevertedQueue(s, item, rest, t, b);
      RevertKeeps(s.cards, s.undo, t.cards);
      PoppedCounts(s.undo);
      assert Accounted(t) == Accounted(s);
      assert t.remembered == CountRemembered(t.undo) && t.forgotten == CountForgotten(t.undo);
    }
  }

  /** Reverting the last entry of a replayable stack keeps every card and leaves a
      replayable stack. */
  lemma RevertKeeps(cards: seq<Card>, undo: seq<UndoItem>, cards': seq<Card>)
    requires cards != [] && undo != [] && Replayable(cards, undo)
    requires cards' == UndoQueue(cards, undo[|undo| - 1]).value
    ensures Replayable(cards', undo[..|undo| - 1])
    ensures multiset(cards') + Taken(undo[..|undo| - 1]) == multiset(cards) + Taken(undo)
  {
    var item := undo[|undo| - 1];
    PoppedCounts(undo);
    if item.MarkForgotten? || item.Skip? {
      RotateKeepsCards(cards);
    } else {
      assert multiset(cards') == Named(item) + multiset(cards);
    }
  }

  /** The counts of a stack are those of the stack without its last entry, plus that
      entry. */
  lemma PoppedCounts(undo: seq<UndoItem>)
    requires undo != []
    ensures var item := undo[|undo| - 1];
            && CountRemembered(undo) == CountRemembered(undo[..|undo| - 1]) + (if item.MarkRemembered? then 1 else 0)
            && CountForgotten(undo) == CountForgotten(undo[..|undo| - 1]) + (if item.MarkForgotten? then 1 else 0)
            && Taken(undo) == Taken(undo[..|undo| - 1]) + Named(item)
  {
  }

  /** Each undo leaves the queue its entry restores. */
  lemma RevertedQueue(s: State, item: UndoItem, rest: seq<UndoItem>, t: State, b: Build)
    requires Ready(s) && s.undo != [] && rest == s.undo[..|s.undo| - 1] && item == s.undo[|s.undo| - 1]
    requires UndoLast(s, b) == Running(t)
    ensures t.cards == UndoQueue(s.cards, item).value && t.undo == rest
    ensures t.remembered == s.remembered - (if item.MarkRemembered? then 1 else 0)
    ensures t.forgotten == s.forgotten - (if item.MarkForgotten? then 1 else 0)
  {
    match item
    case MarkRemembered(m) => assert UndoLast(s, b) == RevertRemembered(s, m, rest, b);
    case MarkForgotten => assert UndoLast(s, b) == RevertForgotten(s, rest, b);
    case MarkArchived(m) => assert UndoLast(s, b) == RevertArchived(s, m, rest, b);
    case Skip => assert UndoLast(s, b) == RevertSkip(s, rest);
  }

  /** The queue and the undo stack a step leaves behind, when the loop goes on. */
  lemma StepQueue(s: State, e: Event, todayText: string, b: Build)
    requires Ready(s) && Counted(s) && Step(s, e, todayText, b).Running?
    ensures Kept(s, Step(s, e, todayText, b).s)
  {
    match e
    case Space =>
      if s.component == |s.components| - 1 {
        RememberKeeps(s, todayText, b);
      }
    case SkipKey => SkipKeeps(s);
    case Forgot => ForgetKeeps(s, todayText, b);
    case Archive => ArchiveKeeps(s, b);
    case Undo => UndoKeeps(s, b);
    case _ =>
  }

  /** Every step the loop survives keeps the invariant, and no card is lost or
      duplicated, in either build. */
  lemma StepKeepsInv(s: State, e: Event, todayText: string, b: Build)
    requires Inv(s)
    ensures Step(s, e, todayText, b).Running? ==> Inv(Step(s, e, todayText, b).s)
    ensures Step(s, e, todayText, b).Running? ==> Accounted(Step(s, e, todayText, b).s) == Accounted(s)
  {
    if Step(s, e, todayText, b).Running? {
      StepQueue(s, e, todayText, b);
      var t := Step(s, e, todayText, b).s;
      assert t.cards[0] in Accounted(t);
    }
  }

  /** The counters never underflow: an undone mark always finds its counter positive. */
  lemma UndoFindsItsCounter(s: State)
    requires Inv(s) && s.undo != []
    ensures s.undo[|s.undo| - 1].MarkRemembered? ==> s.remembered >= 1
    ensures s.undo[|s.undo| - 1].MarkForgotten? ==> s.forgotten >= 1
  {
  }

  /** Skipping always goes on, and undoing the skip gives the session back exactly,
      from the first side, in either build. */
  lemma SkipThenUndo(s: State, b: Build)
    requires Inv(s)
    ensures SkipCard(s).Running?
    ensures UndoLast(SkipCard(s).s, b) == Running(s.(component := 0))
  {
    var cards := s.cards[1..] + [s.cards[0]];
    RotateKeepsCards(s.cards);
    assert cards[0] in Accounted(s);
    var t := s.(cards := cards, undo := s.undo + [Skip], component := 0,
                components := SplitSides(s.files[cards[0]].body));
    assert SkipCard(s) == Running(t);
    PushCounts(s.undo, Skip);
    assert UndoLast(t, b) == RevertSkip(t, s.undo);
    assert cards[|cards| - 1] == s.cards[0] && cards[..|cards| - 1] == s.cards[1..];
  }

  /** Corrected, forgetting and undoing gives the session back exactly, from the first
      side, with the card's file unmarked. */
  lemma ForgetThenUndo(s: State, todayText: string)
    requires Inv(s)
    requires MarkDoc(s.files[s.cards[0]], false, todayText).Rewritten?
    requires UnmarkDoc(MarkDoc(s.files[s.cards[0]], false, todayText).doc).Rewritten?
    ensures ForgetCard(s, todayText, Corrected).Running?
    ensures UndoLast(ForgetCard(s, todayText, Corrected).s, Corrected) ==
            Running(s.(component := 0,
                       files := s.files[s.cards[0] := UnmarkDoc(MarkDoc(s.files[s.cards[0]], false, todayText).doc).doc]))
  {
    var c := s.cards[0];
    var marked := MarkDoc(s.files[c], false, todayText).doc;
    var files := s.files[c := marked];
    var cards := s.cards[1..] + [c];
    ForgetStep(s, todayText, Corrected);
    assert Reread(marked, Corrected) == marked;
    var t := s.(cards := cards, undo := s.undo + [MarkForgotten], forgotten := s.forgotten + 1, files := files,
                component := 0, components := SplitSides(files[cards[0]].body));
    RotateBack(s.cards);
    var back := UnmarkDoc(marked).doc;
    UnmarkStores(files, c, Corrected);
    UndoForgottenStep(t, s.undo, Corrected, files[c := back]);
    UpdateTwice(s.files, c, files[c], back);
  }

  /** An unmark that rewrites stores, for that card only, the document read back. */
  lemma UnmarkStores(files: map<Card, Doc>, c: Card, b: Build)
    requires c in files && UnmarkDoc(files[c]).Rewritten?
    ensures Unmark(files, c, b) == Some(files[c := Reread(UnmarkDoc(files[c]).doc, b)])
  {
  }

  /** `f` on a card whose mark succeeds: the card goes to the back with its file
      rewritten and read back. */
  lemma ForgetStep(s: State, todayText: string, b: Build)
    requires Inv(s)
    requires MarkDoc(s.files[s.cards[0]], false, todayText).Rewritten?
    ensures var c := s.cards[0];
            var w := if b == Corrected then MarkDoc(s.files[c], false, todayText)
                     else MarkAsWritten(s.files[c], false, todayText);
            var files := s.files[c := Reread(w.doc, b)];
            var cards := s.cards[1..] + [c];
            w.Rewritten? && cards[0] in files &&
            ForgetCard(s, todayText, b) ==
              Running(s.(cards := cards, undo := s.undo + [MarkForgotten], forgotten := s.forgotten + 1,
                         files := files, component := 0, components := SplitSides(files[cards[0]].body)))
  {
    var c := s.cards[0];
    var w := if b == Corrected then MarkDoc(s.files[c], false, todayText)
             else MarkAsWritten(s.files[c], false, todayText);
    var files := s.files[c := Reread(w.doc, b)];
    MarkStores(s.files, c, false, todayText, b);
    var cards := s.cards[1..] + [c];
    RotateKeepsCards(s.cards);
    assert cards[0] in Accounted(s);
    ForgetCardShows(s, todayText, b, files);
  }

  /** `f` after a mark that succeeds shows the new front card. */
  lemma ForgetCardShows(s: State, todayText: string, b: Build, files: map<Card, Doc>)
    requires Ready(s) && Mark(s.files, s.cards[0], false, todayText, b) == Some(files)
    requires (s.cards[1..] + [s.cards[0]])[0] in files
    ensures var cards := s.cards[1..] + [s.cards[0]];
            ForgetCard(s, todayText, b) ==
              Running(s.(cards := cards, undo := s.undo + [MarkForgotten], forgotten := s.forgotten + 1,
                         files := files, component := 0, components := SplitSides(files[cards[0]].body)))
  {
  }

  /** A mark that rewrites stores the document read back from the written file. */
  lemma MarkStores(files: map<Card, Doc>, c: Card, remembered: bool, todayText: string, b: Build)
    requires c in files && MarkDoc(files[c], remembered, todayText).Rewritten?
    ensures var w := if b == Corrected then MarkDoc(files[c], remembered, todayText)
                     else MarkAsWritten(files[c], remembered, todayText);
            w.Rewritten? && Mark(files, c, remembered, todayText, b) == Some(files[c := Reread(w.doc, b)])
  {
  }

  /** As published, forgetting a card whose `reviews` is a sequence and undoing it gives
      the queue, the undo stack and the card's metadata back, but each of the two
      rewrites puts one more blank line in front of the card's body. */
  lemma ForgetThenUndoAsWritten(s: State, todayText: string)
    requires Inv(s)
    requires Lookup(s.files[s.cards[0]].fm, "reviews").Some? && Lookup(s.files[s.cards[0]].fm, "reviews").value.Sequence?
    requires var body := s.files[s.cards[0]].body; body != "" && '\r' !in body && body[|body| - 1] != '\n'
    ensures ForgetCard(s, todayText, AsWritten).Running?
    ensures var u := UndoLast(ForgetCard(s, todayText, AsWritten).s, AsWritten);
            && u.Running? && u.s.cards == s.cards && u.s.undo == s.undo && u.s.forgotten == s.forgotten
            && u.s.files == s.files[s.cards[0] := Doc(s.files[s.cards[0]].fm, "\n\n" + s.files[s.cards[0]].body)]
  {
    var c := s.cards[0];
    var doc := s.files[c];
    ForgetStep(s, todayText, AsWritten);
    RereadAddsBlankLine(doc.body);
    var files := s.files[c := Doc(MarkAsWritten(doc, false, todayText).doc.fm, "\n" + doc.body)];
    var cards := s.cards[1..] + [c];
    assert cards[0] in files;
    UndoForgetAsWritten(s.(cards := cards, undo := s.undo + [MarkForgotten], forgotten := s.forgotten + 1, files := files,
                           component := 0, components := SplitSides(files[cards[0]].body)),
                        s.undo, doc, todayText);
    RotateBack(s.cards);
    UpdateTwice(s.files, c, files[c], Doc(doc.fm, "\n\n" + doc.body));
  }

  /** Moving the back card of a rotated queue to the front gives the queue back. */
  lemma RotateBack(cards: seq<Card>)
    requires cards != []
    ensures var r := cards[1..] + [cards[0]];
            r[|r| - 1] == cards[0] && [r[|r| - 1]] + r[..|r| - 1] == cards
  {
    var r := cards[1..] + [cards[0]];
    assert r[..|r| - 1] == cards[1..];
  }

  lemma UpdateTwice(m: map<Card, Doc>, k: Card, x: Doc, y: Doc)
    ensures m[k := x][k := y] == m[k := y]
  {
  }

  /** As published, `u` on the forgotten mark of a card that `f` has just rewritten. */
  lemma UndoForgetAsWritten(t: State, rest: seq<UndoItem>, doc: Doc, todayText: string)
    requires Ready(t) && t.undo == rest + [MarkForgotten] && t.forgotten > 0
    requires Lookup(doc.fm, "reviews").Some? && Lookup(doc.fm, "reviews").value.Sequence?
    requires doc.body != "" && '\r' !in doc.body && doc.body[|doc.body| - 1] != '\n'
    requires var c := t.cards[|t.cards| - 1];
             c in t.files && t.files[c] == Doc(MarkAsWritten(doc, false, todayText).doc.fm, "\n" + doc.body)
    ensures var c := t.cards[|t.cards| - 1];
            var files := t.files[c := Doc(doc.fm, "\n\n" + doc.body)];
            UndoLast(t, AsWritten) ==
              Running(t.(cards := [c] + t.cards[..|t.cards| - 1], undo := rest, forgotten := t.forgotten - 1,
                         files := files, component := 0, components := SplitSides(files[c].body)))
  {
    var c := t.cards[|t.cards| - 1];
    UnmarkAfterMarkAsWritten(t.files, c, doc, false, todayText);
    UndoForgottenStep(t, rest, AsWritten, t.files[c := Doc(doc.fm, "\n\n" + doc.body)]);
  }

  /** As published, unmarking a card whose file mark rewrote (from a sequence
      `reviews`) gives back its metadata, with a second blank line before the body. */
  lemma UnmarkAfterMarkAsWritten(files: map<Card, Doc>, c: Card, doc: Doc, remembered: bool, todayText: string)
    requires Lookup(doc.fm, "reviews").Some? && Lookup(doc.fm, "reviews").value.Sequence?
    requires doc.body != "" && '\r' !in doc.body && doc.body[|doc.body| - 1] != '\n'
    requires c in files && files[c] == Doc(MarkAsWritten(doc, remembered, todayText).doc.fm, "\n" + doc.body)
    ensures Unmark(files, c, AsWritten) == Some(files[c := Doc(doc.fm, "\n\n" + doc.body)])
  {
    UnmarkRestoresSequence(doc, remembered, todayText, "\n" + doc.body);
    RereadAddsBlankLine(doc.body);
  }

  /** `u` on a forgotten mark whose unmark succeeds. */
  lemma UndoForgottenStep(t: State, rest: seq<UndoItem>, b: Build, files: map<Card, Doc>)
    requires Ready(t) && t.undo == rest + [MarkForgotten] && t.forgotten > 0
    requires Unmark(t.files, t.cards[|t.cards| - 1], b) == Some(files)
    requires t.cards[|t.cards| - 1] in files
    ensures var back := t.cards[|t.cards| - 1];
            UndoLast(t, b) ==
              Running(t.(cards := [back] + t.cards[..|t.cards| - 1], undo := rest, forgotten := t.forgotten - 1,
                         files := files, component := 0, components := SplitSides(files[back].body)))
  {
    assert t.undo[..|t.undo| - 1] == rest;
  }

  /** Corrected, remembering the front card of a longer queue and undoing it gives the
      session back exactly, from the first side, with the card's file unmarked. */
  lemma RememberThenUndo(s: State, todayText: string)
    requires Inv(s) && |s.cards| > 1
    requires MarkDoc(s.files[s.cards[0]], true, todayText).Rewritten?
    requires UnmarkDoc(MarkDoc(s.files[s.cards[0]], true, todayText).doc).Rewritten?
    ensures Remember(s, todayText, Corrected).Running?
    ensures UndoLast(Remember(s, todayText, Corrected).s, Corrected) ==
            Running(s.(component := 0,
                       files := s.files[s.cards[0] := UnmarkDoc(MarkDoc(s.files[s.cards[0]], true, todayText).doc).doc]))
  {
    var c := s.cards[0];
    var marked := MarkDoc(s.files[c], true, todayText).doc;
    var files := s.files[c := marked];
    var cards := s.cards[1..];
    RememberStep(s, todayText);
    var t := s.(cards := cards, undo := s.undo + [MarkRemembered(c)], remembered := s.remembered + 1,
                files := files, component := 0, components := SplitSides(files[cards[0]].body));
    PushCounts(s.undo, MarkRemembered(c));
    assert UndoLast(t, Corrected) == RevertRemembered(t, c, s.undo, Corrected);
    var back := UnmarkDoc(marked).doc;
    assert Unmark(files, c, Corrected) == Some(files[c := back]);
    UpdateTwice(s.files, c, files[c], back);
    assert [c] + cards == s.cards;
  }

  lemma RememberStep(s: State, todayText: string)
    requires Inv(s) && |s.cards| > 1
    requires MarkDoc(s.files[s.cards[0]], true, todayText).Rewritten?
    ensures var c := s.cards[0];
            var files := s.files[c := MarkDoc(s.files[c], true, todayText).doc];
            var cards := s.cards[1..];
            cards[0] in files &&
            Remember(s, todayText, Corrected) ==
              Running(s.(cards := cards, undo := s.undo + [MarkRemembered(c)], remembered := s.remembered + 1,
                         files := files, component := 0, components := SplitSides(files[cards[0]].body)))
  {
    var c := s.cards[0];
    var files := s.files[c := MarkDoc(s.files[c], true, todayText).doc];
    MarkStores(s.files, c, true, todayText, Corrected);
    RotateKeepsCards(s.cards);
    assert s.cards[1..][0] in Accounted(s);
    RememberShows(s, todayText, Corrected, files);
  }

  /** Space on the last side after a mark that succeeds, with cards left, shows the
      next card. */
  lemma RememberShows(s: State, todayText: string, b: Build, files: map<Card, Doc>)
    requires Ready(s) && |s.cards| > 1 && Mark(s.files, s.cards[0], true, todayText, b) == Some(files)
    requires s.cards[1] in files
    ensures Remember(s, todayText, b) ==
              Running(s.(cards := s.cards[1..], undo := s.undo + [MarkRemembered(s.cards[0])], remembered := s.remembered + 1,
                         files := files, component := 0, components := SplitSides(files[s.cards[1]].body)))
  {
  }

  /** Corrected, archiving the front card of a longer queue and undoing it gives the
      session back exactly, from the first side, with the card's file saying
      `archived: false`. */
  lemma ArchiveThenUndo(s: State)
    requires Inv(s) && |s.cards| > 1
    requires MarkArchivedDoc(s.files[s.cards[0]], true).Rewritten?
    ensures ArchiveCard(s, Corrected).Running?
    ensures UndoLast(ArchiveCard(s, Corrected).s, Corrected) ==
            Running(s.(component := 0,
                       files := s.files[s.cards[0] := MarkArchivedDoc(MarkArchivedDoc(s.files[s.cards[0]], true).doc, false).doc]))
  {
    var c := s.cards[0];
    var archived := MarkArchivedDoc(s.files[c], true).doc;
    var files := s.files[c := archived];
    var cards := s.cards[1..];
    ArchiveStep(s);
    var t := s.(cards := cards, undo := s.undo + [MarkArchived(c)], files := files,
                component := 0, components := SplitSides(files[cards[0]].body));
    PushCounts(s.undo, MarkArchived(c));
    assert UndoLast(t, Corrected) == RevertArchived(t, c, s.undo, Corrected);
    var back := MarkArchivedDoc(archived, false).doc;
    assert SetArchived(files, c, false, Corrected) == Some(files[c := back]);
    UpdateTwice(s.files, c, files[c], back);
    assert [c] + cards == s.cards;
  }

  lemma ArchiveStep(s: State)
    requires Inv(s) && |s.cards| > 1
    requires MarkArchivedDoc(s.files[s.cards[0]], true).Rewritten?
    ensures var c := s.cards[0];
            var files := s.files[c := MarkArchivedDoc(s.files[c], true).doc];
            var cards := s.cards[1..];
            cards[0] in files &&
            ArchiveCard(s, Corrected) ==
              Running(s.(cards := cards, undo := s.undo + [MarkArchived(c)], files := files,
                         component := 0, components := SplitSides(files[cards[0]].body)))
  {
    var c := s.cards[0];
    var files := s.files[c := MarkArchivedDoc(s.files[c], true).doc];
    assert SetArchived(s.files, c, true, Corrected) == Some(files);
    RotateKeepsCards(s.cards);
    assert s.cards[1..][0] in Accounted(s);
  }

  /** As published, archiving the front card of a longer queue whose file already holds
      a boolean `archived`, then undoing it, gives the session back exactly: neither
      key writes the file. */
  lemma ArchiveThenUndoAsWritten(s: State)
    requires Inv(s) && |s.cards| > 1
    requires Lookup(s.files[s.cards[0]].fm, "archived").Some? && Lookup(s.files[s.cards[0]].fm, "archived").value.Bool?
    ensures ArchiveCard(s, AsWritten).Running?
    ensures UndoLast(ArchiveCard(s, AsWritten).s, AsWritten) == Running(s.(component := 0))
  {
    var c := s.cards[0];
    var cards := s.cards[1..];
    RotateKeepsCards(s.cards);
    assert cards[0] in Accounted(s);
    var t := s.(cards := cards, undo := s.undo + [MarkArchived(c)],
                component := 0, components := SplitSides(s.files[cards[0]].body));
    assert ArchiveCard(s, AsWritten) == Running(t);
    PushCounts(s.undo, MarkArchived(c));
    assert UndoLast(t, AsWritten) == RevertArchived(t, c, s.undo, AsWritten);
    assert SetArchived(s.files, c, false, AsWritten) == Some(s.files);
    assert [c] + cards == s.cards;
  }

  /** As published, archiving the front card of a longer queue whose file has no
      `archived` key, then undoing it, does not give the file back: `a` writes
      nothing, but the undo inserts `archived: false` and rewrites the file, which
      reads back with the writer's blank line in front of the body. */
  lemma ArchiveThenUndoWritesFalse(s: State)
    requires Inv(s) && |s.cards| > 1
    requires Lookup(s.files[s.cards[0]].fm, "archived").None?
    ensures ArchiveCard(s, AsWritten).Running?
    ensures var d := s.files[s.cards[0]];
            UndoLast(ArchiveCard(s, AsWritten).s, AsWritten) ==
            Running(s.(component := 0, components := SplitSides(RereadBody(d.body)),
                       files := s.files[s.cards[0] := Doc(d.fm[ArchivedKey := Bool(false)], RereadBody(d.body))]))
  {
    var c := s.cards[0];
    var d := s.files[c];
    var cards := s.cards[1..];
    RotateKeepsCards(s.cards);
    assert cards[0] in Accounted(s);
    var t := s.(cards := cards, undo := s.undo + [MarkArchived(c)],
                component := 0, components := SplitSides(s.files[cards[0]].body));
    assert ArchiveCard(s, AsWritten) == Running(t);
    PushCounts(s.undo, MarkArchived(c));
    assert UndoLast(t, AsWritten) == RevertArchived(t, c, s.undo, AsWritten);
    var files := s.files[c := Doc(d.fm[ArchivedKey := Bool(false)], RereadBody(d.body))];
    UnarchiveStores(s.files, c);
    assert [c] + cards == s.cards;
    var u := s.(files := files, components := t.components);
    assert RevertArchived(t, c, s.undo, AsWritten) == Show(u);
    assert Show(u) == Running(s.(component := 0, components := SplitSides(RereadBody(d.body)), files := files));
  }

  /** As published, un-archiving a card without an `archived` key inserts the key and
      stores the document read back. */
  lemma UnarchiveStores(files: map<Card, Doc>, c: Card)
    requires c in files && Lookup(files[c].fm, "archived").None?
    ensures SetArchived(files, c, false, AsWritten) ==
            Some(files[c := Doc(files[c].fm[ArchivedKey := Bool(false)], RereadBody(files[c].body))])
  {
  }

  /** Corrected, forgetting a card and undoing it leaves the card's review history and
      body as they were. */
  lemma UndoForgetRestoresHistory(s: State, todayText: string, today: int, parseDate: string -> Option<int>,
                                  h: seq<Scheduler.Review>)
    requires Inv(s)
    requires parseDate(todayText) == Some(today)
    requires ReviewHistory(s.files[s.cards[0]].fm, parseDate) == Ok(h)
    ensures ForgetCard(s, todayText, Corrected).Running?
    ensures var u := UndoLast(ForgetCard(s, todayText, Corrected).s, Corrected);
            && u.Running? && u.s.cards == s.cards && u.s.undo == s.undo
            && ReviewHistory(u.s.files[s.cards[0]].fm, parseDate) == Ok(h)
            && u.s.files[s.cards[0]].body == s.files[s.cards[0]].body
  {
    UnmarkUndoesMark(s.files[s.cards[0]], false, todayText, parseDate, today, h);
    ForgetThenUndo(s, todayText);
  }

  /** Archiving as published changes no file: a card that was due is due again in the
      next session, although it was archived. */
  lemma ArchiveIsNotPersisted(s: State, today: int, parseDate: string -> Option<int>)
    requires Inv(s)
    requires DueByMetadata(s.files[s.cards[0]].fm, today, parseDate) == Ok(true)
    ensures ArchiveCard(s, AsWritten).Running? || ArchiveCard(s, AsWritten).Ended?
    ensures ArchiveCard(s, AsWritten).s.files == s.files
    ensures DueByMetadata(ArchiveCard(s, AsWritten).s.files[s.cards[0]].fm, today, parseDate) == Ok(true)
  {
    if |s.cards| > 1 {
      assert s.cards[1] in Accounted(s);
    }
  }

  /** Archiving as corrected: the card's file says `archived: true`, so no later
      session selects it, and its body is unchanged. */
  lemma ArchivedCardLeavesSelection(s: State, todayText: string, today: int, parseDate: string -> Option<int>)
    requires Inv(s)
    requires MarkArchivedDoc(s.files[s.cards[0]], true).Rewritten?
    ensures var r := ArchiveCard(s, Corrected);
            (r.Running? || r.Ended?) && s.cards[0] in r.s.files &&
            DueByMetadata(r.s.files[s.cards[0]].fm, today, parseDate) == Ok(false) &&
            r.s.files[s.cards[0]].body == s.files[s.cards[0]].body
  {
    var c := s.cards[0];
    ArchiveDecidesSelection(s.files[c], today, parseDate);
    if |s.cards| > 1 {
      assert s.cards[1] in Accounted(s);
    }
  }

  // ---------------------------------------------------------------------------
  // The event loop

  /** The outcome after a sequence of key presses; the loop stops at the first key that
      ends it. */
  function Run(start: Outcome, events: seq<Event>, todayText: string, b: Build): (r: Outcome)
    requires start.Running? ==> Ready(start.s)
    ensures r.Running? ==> Ready(r.s)
    ensures !start.Running? ==> r == start
    decreases |events|
  {
    if events == [] then start
    else
      var o := Run(start, events[..|events| - 1], todayText, b);
      if o.Running? then Step(o.s, events[|events| - 1], todayText, b) else o
  }

  /** Once the loop has stopped, later key presses change nothing. */
  lemma {:induction false} RunStops(start: Outcome, events: seq<Event>, k: nat, todayText: string, b: Build)
    requires start.Running? ==> Ready(start.s)
    requires k <= |events|
    requires !Run(start, events[..k], todayText, b).Running?
    ensures Run(start, events, todayText, b) == Run(start, events[..k], todayText, b)
    decreases |events| - k
  {
    if k < |events| {
      assert events[..k + 1][..k] == events[..k];
      RunStops(start, events, k + 1, todayText, b);
    } else {
      assert events[..k] == events;
    }
  }

  /** A whole session over readable files keeps the invariant and every card, in
      either build. */
  lemma {:induction false} RunKeepsInv(queue: seq<Card>, files: map<Card, Doc>, events: seq<Event>, todayText: string,
                                       b: Build)
    requires forall k | k in queue :: k in files
    ensures Run(Start(queue, files), events, todayText, b).Running? ==>
            Inv(Run(Start(queue, files), events, todayText, b).s) &&
            Accounted(Run(Start(queue, files), events, todayText, b).s) == multiset(queue)
    decreases |events|
  {
    StartEstablishesInv(queue, files);
    if events != [] {
      var o := Run(Start(queue, files), events[..|events| - 1], todayText, b);
      RunKeepsInv(queue, files, events[..|events| - 1], todayText, b);
      if o.Running? {
        StepKeepsInv(o.s, events[|events| - 1], todayText, b);
      }
    }
  }

  /** One pass of `review`'s loop body as published: the key is handled on the loop's
      variables. */
  method HandleKey(s: State, e: Event, todayText: string) returns (out: Outcome)
    requires Ready(s)
    ensures out == Step(s, e, todayText, AsWritten)
  {
    var cards, component, components, undoStack := s.cards, s.component, s.components, s.undo;
    var remembered, forgotten, files := s.remembered, s.forgotten, s.files;
    var c := cards[0];
    var show := false;
    out := Running(s);
    match e {
      case Quit =>
        out := Ended(s);
      case Space =>
        if component == |components| - 1 {
          var marked := Mark(files, c, true, todayText, AsWritten);
          if marked.None? {
            return Crashed;
          }
          remembered := remembered + 1;
          files := marked.value;
          undoStack := undoStack + [MarkRemembered(c)];
          cards := cards[1..];
          if cards == [] {
            return Ended(State(cards, component, components, undoStack, remembered, forgotten, files));
          }
          show := true;
        } else {
          component := component + 1;
          out := Running(State(cards, component, components, undoStack, remembered, forgotten, files));
        }
      case SkipKey =>
        cards := cards[1..] + [c];
        undoStack := undoStack + [Skip];
        show := true;
      case Forgot =>
        var marked := Mark(files, c, false, todayText, AsWritten);
        if marked.None? {
          return Crashed;
        }
        forgotten := forgotten + 1;
        files := marked.value;
        cards := cards[1..] + [c];
        undoStack := undoStack + [MarkForgotten];
        show := true;
      case Archive =>
        cards := cards[1..];
        if cards == [] {
          return Ended(State(cards, component, components, undoStack, remembered, forgotten, files));
        }
        undoStack := undoStack + [MarkArchived(c)];
        show := true;
      case Undo =>
        if undoStack != [] {
          var item := undoStack[|undoStack| - 1];
          undoStack := undoStack[..|undoStack| - 1];
          match item {
            case MarkRemembered(m) =>
              if remembered == 0 {
                return Crashed;
              }
              remembered := remembered - 1;
              var unmarked := Unmark(files, m, AsWritten);
              if unmarked.None? {
                return Crashed;
              }
              files := unmarked.value;
              cards := [m] + cards;
            case MarkForgotten =>
              if forgotten == 0 {
                return Crashed;
              }
              forgotten := forgotten - 1;
              var back := cards[|cards| - 1];
              cards := cards[..|cards| - 1];
              var unmarked := Unmark(files, back, AsWritten);
              if unmarked.None? {
                return Crashed;
              }
              files := unmarked.value;
              cards := [back] + cards;
            case MarkArchived(m) =>
              var unarchived := SetArchived(files, m, false, AsWritten);
              if unarchived.None? {
                return Crashed;
              }
              files := unarchived.value;
              cards := [m] + cards;
            case Skip =>
              var back := cards[|cards| - 1];
              cards := [back] + cards[..|cards| - 1];
          }
          show := true;
        }
      case Edit(d) =>
        files := files[c := d];
        show := true;
      case Resize =>
      case Other =>
    }
    if show {
      if cards[0] !in files {
        return Crashed;
      }
      component := 0;
      components := SplitSides(files[cards[0]].body);
      out := Running(State(cards, component, components, undoStack, remembered, forgotten, files));
    }
  }

  /** `review` as published: the queue is shown from its first card and the loop
      handles the given key presses until one of them ends it. */
  method Review(queue: seq<Card>, store: map<Card, Doc>, events: seq<Event>, todayText: string)
    returns (out: Outcome)
    ensures out == Run(Start(queue, store), events, todayText, AsWritten)
  {
    if queue == [] {
      out := Ended(State(queue, 0, [], [], 0, 0, store));
      RunStops(out, events, 0, todayText, AsWritten);
      return;
    }
    if queue[0] !in store {
      out := Crashed;
      RunStops(out, events, 0, todayText, AsWritten);
      return;
    }
    var components := SplitSides(store[queue[0]].body);
    out := Running(State(queue, 0, components, [], 0, 0, store));
    var i := 0;
    while i < |events| && out.Running?
      invariant 0 <= i <= |events|
      invariant out == Run(Start(queue, store), events[..i], todayText, AsWritten)
      decreases |events| - i
    {
      assert events[..i + 1][..i] == events[..i];
      out := HandleKey(out.s, events[i], todayText);
      i := i + 1;
    }
    if i < |events| {
      RunStops(Start(queue, store), events, i, todayText, AsWritten);
    } else {
      assert events[..i] == events;
    }
  }
}
