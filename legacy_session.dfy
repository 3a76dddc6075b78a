/** The older review session kept in `main.rs`: sides are revealed by a 1-based
    counter, a forgotten card leaves the queue like a remembered one, and the progress
    gauge counts both. The gauge, the hint line and the recap are drawing and are left
    out; a draw that reads the front card's body and keeps its first `currSide` sides
    is kept, because it is where the session can panic.

    The card store of this session (`src/cards.rs`) is not part of this model: its
    rewrites are recorded in `writes`, and card bodies are the `bodies` map, which no
    key press changes. */
module LegacySession {
  import opened Util
  import opened Sides

  /** A card is identified by its path. */
  type Card = string

  datatype UndoItem = Mark(card: Card, remembered: bool) | Skip

  /** `e` is accepted but does nothing; any other key or terminal event is `Other`. */
  datatype Event = Quit | EditKey | SkipKey | Space | Forgot | Undo | Other

  /** The rewrites the session asks the card store for. */
  datatype Write = Marked(card: Card, remembered: bool) | Unmarked(card: Card)

  datatype State = State(cards: seq<Card>, undo: seq<UndoItem>, remembered: nat, forgotten: nat,
                         currSide: nat, numSides: nat, bodies: map<Card, string>, writes: seq<Write>)

  datatype Outcome = Running(s: State) | Ended(s: State) | Crashed

  /** The draw: the front card's body is read (a read error panics), `numSides` is set
      and the first `currSide` sides are kept (more than there are panics). */
  function Draw(s: State): (r: Outcome)
    requires s.cards != []
    ensures r.Running? <==> s.cards[0] in s.bodies && s.currSide <= |SplitSides(s.bodies[s.cards[0]])|
    ensures r.Running? ==> r.s == s.(numSides := |SplitSides(s.bodies[s.cards[0]])|)
  {
    if s.cards[0] !in s.bodies then Crashed
    else
      var sides := SplitSides(s.bodies[s.cards[0]]);
      if s.currSide > |sides| then Crashed else Running(s.(numSides := |sides|))
  }

  /** The text the draw shows: the kept sides joined by the separator. */
  function Showing(s: State): (text: string)
    requires s.cards != [] && s.cards[0] in s.bodies
    requires 1 <= s.currSide <= |SplitSides(s.bodies[s.cards[0]])|
  {
    Shown(SplitSides(s.bodies[s.cards[0]]), s.currSide - 1)
  }

  /** After every event: an empty queue ends the loop, otherwise the card is drawn. */
  function After(r: Option<State>): Outcome
  {
    match r
    case None => Crashed
    case Some(t) => if t.cards == [] then Ended(t) else Draw(t)
  }

  /** The key handling of one event, before the empty-queue test and the draw; None is a panic.
      `resetSide` says whether `u` shows the restored card from its first side, which
      the loop as published does not do. */
  function Handle(s: State, e: Event, resetSide: bool): (r: Option<State>)
    requires s.cards != []
    ensures r.None? <==> e == Undo && s.undo != [] && s.undo[|s.undo| - 1].Mark? &&
                         (if s.undo[|s.undo| - 1].remembered then s.remembered == 0 else s.forgotten == 0)
    ensures r.Some? ==> r.value.bodies == s.bodies && s.writes <= r.value.writes && |r.value.writes| <= |s.writes| + 1
    ensures r.Some? && (e == Forgot || (e == Space && s.currSide == s.numSides)) ==>
              r.value.writes == s.writes + [Marked(s.cards[0], e == Space)] && r.value.cards == s.cards[1..]
    ensures r.Some? && e == Undo && s.undo != [] && s.undo[|s.undo| - 1].Mark? ==>
              r.value.writes == s.writes + [Unmarked(s.undo[|s.undo| - 1].card)] &&
              r.value.cards == [s.undo[|s.undo| - 1].card] + s.cards
  {
    var c := s.cards[0];
    match e
    case Quit => Some(s)
    case EditKey => Some(s)
    case Other => Some(s)
    case SkipKey =>
      Some(s.(currSide := 1, cards := s.cards[1..] + [c], undo := s.undo + [Skip]))
    case Space =>
      if s.currSide == s.numSides then
        Some(s.(writes := s.writes + [Marked(c, true)], currSide := 1, remembered := s.remembered + 1,
                cards := s.cards[1..], undo := s.undo + [Mark(c, true)]))
      else Some(s.(currSide := s.currSide + 1))
    case Forgot =>
      Some(s.(writes := s.writes + [Marked(c, false)], currSide := 1, forgotten := s.forgotten + 1,
              cards := s.cards[1..], undo := s.undo + [Mark(c, false)]))
    case Undo =>
      if s.undo == [] then Some(s)
      else
        var rest := s.undo[..|s.undo| - 1];
        var side := if resetSide then 1 else s.currSide;
        match s.undo[|s.undo| - 1]
        case Mark(m, true) =>
          if s.remembered == 0 then None
          else Some(s.(writes := s.writes + [Unmarked(m)], remembered := s.remembered - 1,
                       cards := [m] + s.cards, undo := rest, currSide := side))
        case Mark(m, false) =>
          if s.forgotten == 0 then None
          else Some(s.(writes := s.writes + [Unmarked(m)], forgotten := s.forgotten - 1,
                       cards := [m] + s.cards, undo := rest, currSide := side))
        case Skip =>
          Some(s.(cards := [s.cards[|s.cards| - 1]] + s.cards[..|s.cards| - 1], undo := rest, currSide := side))
  }

  /** The session before the first key: an empty queue is reported and nothing runs. */
  function Start(queue: seq<Card>, bodies: map<Card, string>): (r: Outcome)
    ensures queue == [] <==> r.Ended?
    ensures r.Running? ==> r.s.cards == queue && r.s.currSide == 1 && r.s.undo == [] && r.s.writes == []
  {
    var s := State(queue, [], 0, 0, 1, 0, bodies, []);
    if queue == [] then Ended(s) else Draw(s)
  }

  /** One event of the loop as published: `u` keeps the side counter of the card that
      was showing. */
  function StepAsWritten(s: State, e: Event): (r: Outcome)
    requires s.cards != []
    ensures r.Running? ==> r.s.cards != []
    ensures e != Undo ==> r == Step(s, e)
  {
    if e == Quit then Ended(s) else After(Handle(s, e, false))
  }

  /** One event, with `u` showing the restored card from its first side. */
  function Step(s: State, e: Event): (r: Outcome)
    requires s.cards != []
    ensures r.Running? ==> r.s.cards != []
  {
    if e == Quit then Ended(s) else After(Handle(s, e, true))
  }

  /** A card with one side, then one with two: remember the first, flip the second,
      undo. The restored one-sided card is drawn with two sides requested and the loop
      as published panics; with the side reset it is drawn. */
  lemma StaleSideCrashes()
    ensures var s0 := Start(["a", "b"], map["a" := "x", "b" := "x\n---\ny"]);
            && s0.Running?
            && StepAsWritten(s0.s, Space).Running?
            && StepAsWritten(StepAsWritten(s0.s, Space).s, Space).Running?
            && StepAsWritten(StepAsWritten(StepAsWritten(s0.s, Space).s, Space).s, Undo) == Crashed
            && Step(Step(Step(s0.s, Space).s, Space).s, Undo).Running?
  {
    var bodies := map["a" := "x", "b" := "x\n---\ny"];
    var s0 := State(["a", "b"], [], 0, 0, 1, 1, bodies, []);
    var s1 := State(["b"], [Mark("a", true)], 1, 0, 1, 2, bodies, [Marked("a", true)]);
    StaleFirstKeys(bodies, s0, s1);
    StaleUndo(bodies, s1.(currSide := 2));
  }

  /** The start and the two presses of the example before the undo. */
  lemma StaleFirstKeys(bodies: map<Card, string>, s0: State, s1: State)
    requires bodies == map["a" := "x", "b" := "x\n---\ny"]
    requires s0 == State(["a", "b"], [], 0, 0, 1, 1, bodies, [])
    requires s1 == State(["b"], [Mark("a", true)], 1, 0, 1, 2, bodies, [Marked("a", true)])
    ensures Start(["a", "b"], bodies) == Running(s0)
    ensures StepAsWritten(s0, Space) == Running(s1) && Step(s0, Space) == Running(s1)
    ensures StepAsWritten(s1, Space) == Running(s1.(currSide := 2)) && Step(s1, Space) == Running(s1.(currSide := 2))
  {
    assert SplitSides("x") == ["x"];
    SplitTwoSides();
    assert ["a", "b"][1..] == ["b"];
  }

  /** The undo of the example: the published loop draws "a" at side 2 and panics. */
  lemma StaleUndo(bodies: map<Card, string>, s2: State)
    requires bodies == map["a" := "x", "b" := "x\n---\ny"]
    requires s2 == State(["b"], [Mark("a", true)], 1, 0, 2, 2, bodies, [Marked("a", true)])
    ensures StepAsWritten(s2, Undo) == Crashed && Step(s2, Undo).Running?
  {
    assert [Mark("a", true)][..0] == [];
    assert ["a"] + s2.cards == ["a", "b"];
    assert SplitSides("x") == ["x"];
    var t := s2.(writes := s2.writes + [Unmarked("a")], remembered := 0, cards := ["a", "b"], undo := []);
    assert Handle(s2, Undo, false) == Some(t);
    assert Handle(s2, Undo, true) == Some(t.(currSide := 1));
  }

  /** A two-sided body splits into its two sides. */
  lemma SplitTwoSides()
    ensures SplitSides("x\n---\ny") == ["x", "y"]
  {
    var s := "x\n---\ny";
    assert s[..5][0] != Separator[0];
    assert s[1..] == Separator + "y";
    assert s[1..][..5] == Separator;
    assert FindSeparator(s) == Some(1);
    assert s[..1] == "x";
    assert s[6..] == "y";
    assert FindSeparator("y") == None;
    assert SplitSides("y") == ["y"];
    assert SplitSides(s) == [s[..1]] + SplitSides(s[6..]);
  }

  // ---------------------------------------------------------------------------
  // What the corrected loop keeps

  /** The cards named by remembered or forgotten marks on the undo stack. */
  function Taken(undo: seq<UndoItem>): multiset<Card>
  {
    if undo == [] then multiset{}
    else Taken(undo[..|undo| - 1]) + (if undo[|undo| - 1].Mark? then multiset{undo[|undo| - 1].card} else multiset{})
  }

  function CountMarks(undo: seq<UndoItem>, remembered: bool): nat
  {
    if undo == [] then 0
    else CountMarks(undo[..|undo| - 1], remembered) + (if undo[|undo| - 1].Mark? && undo[|undo| - 1].remembered == remembered then 1 else 0)
  }

  /** The loop invariant: the front card is readable and drawn with a valid side, every
      card is readable, and the counters count the marks on the undo stack. */
  predicate Inv(s: State)
  {
    && s.cards != []
    && (forall k | k in multiset(s.cards) + Taken(s.undo) :: k in s.bodies)
    && s.cards[0] in s.bodies
    && s.numSides == |SplitSides(s.bodies[s.cards[0]])|
    && 1 <= s.currSide <= s.numSides
    && s.remembered == CountMarks(s.undo, true)
    && s.forgotten == CountMarks(s.undo, false)
  }

  /** The gauge's denominator, `cards.len()` plus the cards already marked. */
  function Denominator(s: State): nat
  {
    |s.cards| + s.remembered + s.forgotten
  }

  lemma PushMark(undo: seq<UndoItem>, item: UndoItem)
    ensures (undo + [item])[..|undo|] == undo
    ensures Taken(undo + [item]) == Taken(undo) + (if item.Mark? then multiset{item.card} else multiset{})
    ensures CountMarks(undo + [item], true) == CountMarks(undo, true) + (if item.Mark? && item.remembered then 1 else 0)
    ensures CountMarks(undo + [item], false) == CountMarks(undo, false) + (if item.Mark? && !item.remembered then 1 else 0)
  {
    assert (undo + [item])[..|undo|] == undo;
  }

  lemma PopMark(undo: seq<UndoItem>)
    requires undo != []
    ensures var item := undo[|undo| - 1];
            var rest := undo[..|undo| - 1];
            && Taken(undo) == Taken(rest) + (if item.Mark? then multiset{item.card} else multiset{})
            && CountMarks(undo, true) == CountMarks(rest, true) + (if item.Mark? && item.remembered then 1 else 0)
            && CountMarks(undo, false) == CountMarks(rest, false) + (if item.Mark? && !item.remembered then 1 else 0)
  {
  }

  /** Every card of the session is in the queue or marked on the undo stack. */
  predicate Conserved(s: State, queue: seq<Card>)
  {
    multiset(s.cards) + Taken(s.undo) == multiset(queue)
  }

  lemma TakenSize(undo: seq<UndoItem>)
    ensures |Taken(undo)| == CountMarks(undo, true) + CountMarks(undo, false)
  {
    if undo != [] {
      TakenSize(undo[..|undo| - 1]);
    }
  }

  /** While cards remain, the gauge's denominator is the size of the queue the session
      started with. */
  lemma DenominatorIsConstant(s: State, queue: seq<Card>)
    requires Inv(s) && Conserved(s, queue)
    ensures Denominator(s) == |queue|
  {
    TakenSize(s.undo);
    assert |multiset(s.cards)| == |s.cards|;
    assert |multiset(queue)| == |queue|;
  }

  /** What a key must keep of the queue, the counters and the undo stack. */
  predicate Kept(s: State, t: State)
  {
    && multiset(t.cards) + Taken(t.undo) == multiset(s.cards) + Taken(s.undo)
    && t.remembered == CountMarks(t.undo, true)
    && t.forgotten == CountMarks(t.undo, false)
    && t.bodies == s.bodies
  }

  /** The key handling of the corrected loop never panics, and it keeps the counters
      and every card. */
  lemma HandleKeeps(s: State, e: Event)
    requires s.cards != [] && s.remembered == CountMarks(s.undo, true) && s.forgotten == CountMarks(s.undo, false)
    ensures Handle(s, e, true).Some? && Kept(s, Handle(s, e, true).value)
  {
    match e
    case SkipKey => SkipKeeps(s);
    case Space => SpaceKeeps(s);
    case Forgot => ForgotKeeps(s);
    case Undo => UndoKeeps(s);
    case _ => assert Handle(s, e, true) == Some(s);
  }

  lemma SkipKeeps(s: State)
    requires s.cards != [] && s.remembered == CountMarks(s.undo, true) && s.forgotten == CountMarks(s.undo, false)
    ensures Handle(s, SkipKey, true).Some? && Kept(s, Handle(s, SkipKey, true).value)
  {
    RemoveFrontKeeps(s, Skip);
    assert Handle(s, SkipKey, true) ==
           Some(s.(currSide := 1, cards := s.cards[1..] + [s.cards[0]], undo := s.undo + [Skip]));
  }

  lemma SpaceKeeps(s: State)
    requires s.cards != [] && s.remembered == CountMarks(s.undo, true) && s.forgotten == CountMarks(s.undo, false)
    ensures Handle(s, Space, true).Some? && Kept(s, Handle(s, Space, true).value)
  {
    var c := s.cards[0];
    if s.currSide == s.numSides {
      RemoveFrontKeeps(s, Mark(c, true));
      assert s.cards[1..] + [] == s.cards[1..];
      assert Handle(s, Space, true) ==
             Some(s.(writes := s.writes + [Marked(c, true)], currSide := 1, remembered := s.remembered + 1,
                     cards := s.cards[1..], undo := s.undo + [Mark(c, true)]));
    } else {
      assert Handle(s, Space, true) == Some(s.(currSide := s.currSide + 1));
    }
  }

  lemma ForgotKeeps(s: State)
    requires s.cards != [] && s.remembered == CountMarks(s.undo, true) && s.forgotten == CountMarks(s.undo, false)
    ensures Handle(s, Forgot, true).Some? && Kept(s, Handle(s, Forgot, true).value)
  {
    var c := s.cards[0];
    RemoveFrontKeeps(s, Mark(c, false));
    assert s.cards[1..] + [] == s.cards[1..];
    assert Handle(s, Forgot, true) ==
           Some(s.(writes := s.writes + [Marked(c, false)], currSide := 1, forgotten := s.forgotten + 1,
                   cards := s.cards[1..], undo := s.undo + [Mark(c, false)]));
  }

  lemma RemoveFrontKeeps(s: State, item: UndoItem)
    requires s.cards != [] && s.remembered == CountMarks(s.undo, true) && s.forgotten == CountMarks(s.undo, false)
    requires item == Skip || item == Mark(s.cards[0], item.remembered)
    ensures var t := s.(cards := s.cards[1..] + (if item.Skip? then [s.cards[0]] else []), undo := s.undo + [item],
                        remembered := s.remembered + (if item.Mark? && item.remembered then 1 else 0),
                        forgotten := s.forgotten + (if item.Mark? && !item.remembered then 1 else 0));
            Kept(s, t)
  {
    PushMark(s.undo, item);
    assert s.cards == [s.cards[0]] + s.cards[1..];
  }

  lemma UndoKeeps(s: State)
    requires s.cards != [] && s.remembered == CountMarks(s.undo, true) && s.forgotten == CountMarks(s.undo, false)
    ensures Handle(s, Undo, true).Some? && Kept(s, Handle(s, Undo, true).value)
  {
    if s.undo != [] {
      if s.undo[|s.undo| - 1].Skip? {
        UndoSkipKeeps(s);
      } else {
        UndoMarkKeeps(s);
      }
    }
  }

  lemma UndoMarkKeeps(s: State)
    requires s.cards != [] && s.undo != [] && s.undo[|s.undo| - 1].Mark?
    requires s.remembered == CountMarks(s.undo, true) && s.forgotten == CountMarks(s.undo, false)
    ensures Handle(s, Undo, true).Some? && Kept(s, Handle(s, Undo, true).value)
  {
    var item := s.undo[|s.undo| - 1];
    var rest := s.undo[..|s.undo| - 1];
    PopMark(s.undo);
    var t := s.(writes := s.writes + [Unmarked(item.card)],
                remembered := s.remembered - (if item.remembered then 1 else 0),
                forgotten := s.forgotten - (if item.remembered then 0 else 1),
                cards := [item.card] + s.cards, undo := rest, currSide := 1);
    UndoMarkResult(s);
    assert multiset(t.cards) == multiset{item.card} + multiset(s.cards);
  }

  lemma UndoMarkResult(s: State)
    requires s.cards != [] && s.undo != [] && s.undo[|s.undo| - 1].Mark?
    requires s.remembered == CountMarks(s.undo, true) && s.forgotten == CountMarks(s.undo, false)
    requires CountMarks(s.undo, s.undo[|s.undo| - 1].remembered) > 0
    ensures var item := s.undo[|s.undo| - 1];
            Handle(s, Undo, true) ==
              Some(s.(writes := s.writes + [Unmarked(item.card)],
                      remembered := s.remembered - (if item.remembered then 1 else 0),
                      forgotten := s.forgotten - (if item.remembered then 0 else 1),
                      cards := [item.card] + s.cards, undo := s.undo[..|s.undo| - 1], currSide := 1))
  {
  }

  lemma UndoSkipKeeps(s: State)
    requires s.cards != [] && s.undo != [] && s.undo[|s.undo| - 1].Skip?
    requires s.remembered == CountMarks(s.undo, true) && s.forgotten == CountMarks(s.undo, false)
    ensures Handle(s, Undo, true).Some? && Kept(s, Handle(s, Undo, true).value)
  {
    PopMark(s.undo);
    var n := |s.cards|;
    var t := s.(cards := [s.cards[n - 1]] + s.cards[..n - 1], undo := s.undo[..|s.undo| - 1], currSide := 1);
    assert Handle(s, Undo, true) == Some(t);
    assert multiset(t.cards) == multiset(s.cards) by {
      assert s.cards == s.cards[..n - 1] + [s.cards[n - 1]];
    }
  }

  /** After the corrected key handling the side counter is valid for the card drawn
      next: it is 1, or one more than a side that was not the last, or unchanged with
      the same front card. */
  lemma HandleSide(s: State, e: Event)
    requires Inv(s) && e != Quit
    ensures var t := Handle(s, e, true).value;
            1 <= t.currSide && (t.cards != [] && t.currSide > 1 ==> t.cards[0] == s.cards[0] && t.currSide <= s.numSides)
  {
  }

  /** With the side reset, the corrected loop never panics on a session over readable
      files: every event is followed by a draw that succeeds, or ends the loop. */
  lemma StepKeepsInv(s: State, e: Event, queue: seq<Card>)
    requires Inv(s) && Conserved(s, queue)
    ensures !Step(s, e).Crashed?
    ensures Step(s, e).Running? ==> Inv(Step(s, e).s) && Conserved(Step(s, e).s, queue)
  {
    if e != Quit {
      HandleKeeps(s, e);
      HandleSide(s, e);
      assert Kept(s, Handle(s, e, true).value);
      var t := Handle(s, e, true).value;
      if t.cards != [] {
        assert t.cards[0] in multiset(t.cards) + Taken(t.undo);
      }
    }
  }

  lemma StartEstablishesInv(queue: seq<Card>, bodies: map<Card, string>)
    requires forall k | k in queue :: k in bodies
    ensures queue != [] ==> Start(queue, bodies).Running?
    ensures Start(queue, bodies).Running? ==> Inv(Start(queue, bodies).s) && Conserved(Start(queue, bodies).s, queue)
  {
  }

  /** The events in order; the loop stops at the first that ends it. */
  function Run(start: Outcome, events: seq<Event>): (r: Outcome)
    requires start.Running? ==> start.s.cards != []
    ensures r.Running? ==> r.s.cards != []
    ensures !start.Running? ==> r == start
    decreases |events|
  {
    if events == [] then start
    else
      var o := Run(start, events[..|events| - 1]);
      if o.Running? then Step(o.s, events[|events| - 1]) else o
  }

  /** A corrected session over readable files never panics, and while it runs the
      gauge's denominator is the size of the queue it started with. */
  lemma {:induction false} RunNeverCrashes(queue: seq<Card>, bodies: map<Card, string>, events: seq<Event>)
    requires forall k | k in queue :: k in bodies
    ensures !Run(Start(queue, bodies), events).Crashed?
    ensures Run(Start(queue, bodies), events).Running? ==> Denominator(Run(Start(queue, bodies), events).s) == |queue|
    decreases |events|
  {
    StartEstablishesInv(queue, bodies);
    if events != [] {
      RunNeverCrashes(queue, bodies, events[..|events| - 1]);
      RunConserves(queue, bodies, events[..|events| - 1]);
      var o := Run(Start(queue, bodies), events[..|events| - 1]);
      if o.Running? {
        StepKeepsInv(o.s, events[|events| - 1], queue);
      }
    }
    RunConserves(queue, bodies, events);
    var r := Run(Start(queue, bodies), events);
    if r.Running? {
      DenominatorIsConstant(r.s, queue);
    }
  }

  lemma {:induction false} RunConserves(queue: seq<Card>, bodies: map<Card, string>, events: seq<Event>)
    requires forall k | k in queue :: k in bodies
    ensures Run(Start(queue, bodies), events).Running? ==>
            Inv(Run(Start(queue, bodies), events).s) && Conserved(Run(Start(queue, bodies), events).s, queue)
    decreases |events|
  {
    StartEstablishesInv(queue, bodies);
    if events != [] {
      RunConserves(queue, bodies, events[..|events| - 1]);
      var o := Run(Start(queue, bodies), events[..|events| - 1]);
      if o.Running? {
        StepKeepsInv(o.s, events[|events| - 1], queue);
      }
    }
  }

  lemma {:induction false} RunStops(start: Outcome, events: seq<Event>, k: nat)
    requires start.Running? ==> start.s.cards != []
    requires k <= |events|
    requires !Run(start, events[..k]).Running?
    ensures Run(start, events) == Run(start, events[..k])
    decreases |events| - k
  {
    if k < |events| {
      assert events[..k + 1][..k] == events[..k];
      RunStops(start, events, k + 1);
    } else {
      assert events[..k] == events;
    }
  }

  /** One key press of the corrected loop, then the emptiness check and the draw. */
  method HandleKey(s: State, e: Event) returns (out: Outcome)
    requires s.cards != []
    ensures out == Step(s, e)
  {
    if e == Quit {
      return Ended(s);
    }
    var cards, undoStack, writes := s.cards, s.undo, s.writes;
    var remembered, forgotten, currSide := s.remembered, s.forgotten, s.currSide;
    match e {
      case SkipKey =>
        currSide := 1;
        cards := cards[1..] + [cards[0]];
        undoStack := undoStack + [Skip];
      case Space =>
        if currSide == s.numSides {
          writes := writes + [Marked(cards[0], true)];
          currSide := 1;
          remembered := remembered + 1;
          undoStack := undoStack + [Mark(cards[0], true)];
          cards := cards[1..];
        } else {
          currSide := currSide + 1;
        }
      case Forgot =>
        writes := writes + [Marked(cards[0], false)];
        currSide := 1;
        forgotten := forgotten + 1;
        undoStack := undoStack + [Mark(cards[0], false)];
        cards := cards[1..];
      case Undo =>
        if undoStack != [] {
          var item := undoStack[|undoStack| - 1];
          undoStack := undoStack[..|undoStack| - 1];
          currSide := 1;
          match item {
            case Mark(m, rem) =>
              writes := writes + [Unmarked(m)];
              if rem {
                if remembered == 0 {
                  return Crashed;
                }
                remembered := remembered - 1;
              } else {
                if forgotten == 0 {
                  return Crashed;
                }
                forgotten := forgotten - 1;
              }
              cards := [m] + cards;
            case Skip =>
              cards := [cards[|cards| - 1]] + cards[..|cards| - 1];
          }
        }
      case _ =>
    }
    var t := State(cards, undoStack, remembered, forgotten, currSide, s.numSides, s.bodies, writes);
    assert Handle(s, e, true) == Some(t);
    if cards == [] {
      return Ended(t);
    }
    if cards[0] !in s.bodies {
      return Crashed;
    }
    var numSides := |SplitSides(s.bodies[cards[0]])|;
    if currSide > numSides {
      return Crashed;
    }
    out := Running(t.(numSides := numSides));
  }

  /** The corrected review loop: the events are handled in order until one ends it. A
      session over readable files never panics. */
  method Review(queue: seq<Card>, bodies: map<Card, string>, events: seq<Event>) returns (out: Outcome)
    ensures out == Run(Start(queue, bodies), events)
    ensures (forall k | k in queue :: k in bodies) ==> !out.Crashed?
  {
    out := Start(queue, bodies);
    var i := 0;
    while i < |events| && out.Running?
      invariant 0 <= i <= |events|
      invariant out == Run(Start(queue, bodies), events[..i])
      decreases |events| - i
    {
      assert events[..i + 1][..i] == events[..i];
      out := HandleKey(out.s, events[i]);
      i := i + 1;
    }
    if i < |events| {
      RunStops(Start(queue, bodies), events, i);
    } else {
      assert events[..i] == events;
    }
    if forall k | k in queue :: k in bodies {
      RunNeverCrashes(queue, bodies, events);
    }
  }
}
