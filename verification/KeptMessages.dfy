/** Whether a fitted conversation keeps the messages that it must: the first system and the newest user message. */
module KeptMessages {
  import opened Numbers
  import opened Options
  import opened Text
  import opened Shortening
  import opened Tokens
  import opened Truncation
  import opened ContextWindow

  // ---- what a truncation leaves -----------------------------------------------------------------------

  predicate IsMarked(s: string) {
    |s| >= |MARKER| && s[|s| - |MARKER|..] == MARKER
  }

  lemma MarkedEndsInMarker(s: string)
    ensures IsMarked(WithMarker(s))
  {
  }

  lemma MarkedCostsThree(s: string)
    requires IsMarked(s)
    ensures Estimate(s) >= 3
  {
    var head := s[..|s| - |MARKER|];
    assert s == head + MARKER;
    MarkerIsAWord();
    EstimateOfMarked(head, MARKER);
    LStripKeepsMark(head, MARKER);
  }

  lemma {:induction false} ShrunkIsMarked(content: string, budget: int)
    requires ' ' !in MARKER && !LoopsForever(Estimate, content, MARKER, budget)
    ensures Shrunk(Estimate, content, MARKER, budget) == content || IsMarked(Shrunk(Estimate, content, MARKER, budget))
    decreases Measure(content, MARKER)
  {
    if TooLong(Estimate, content, budget) {
      MeasureDecreases(Estimate, content, MARKER, budget);
      ShrunkIsMarked(Shrink(content, MARKER), budget);
      MarkedEndsInMarker(BeforeLastSpaces(content));
    }
  }

  lemma StartIsMarked(content: string, maxTokens: int)
    requires maxTokens > 4
    ensures Start(content, maxTokens) == content || IsMarked(Start(content, maxTokens))
  {
    var words := Words(content);
    var kept := Strip(Join(words[..KeptFrom(words, 0, maxTokens - 4)]));
    MarkedEndsInMarker(if kept != "" then kept else Cut(content, Max(16, (maxTokens - 4) * 4)));
  }

  lemma TruncatedIs(content: string, maxTokens: int)
    requires !RunsForever(content, maxTokens) && maxTokens > 4 && ' ' !in MARKER
    ensures var r := Shrunk(Estimate, Start(content, maxTokens), MARKER, maxTokens - 4);
            Truncated(content, maxTokens) == r || Truncated(content, maxTokens) == MARKER
  {
  }

  /** A truncation leaves the text as it was or ends it with the marker, which costs at least three tokens. */
  lemma TruncatedIsMarked(content: string, maxTokens: int)
    requires !RunsForever(content, maxTokens)
    ensures Truncated(content, maxTokens) == content || IsMarked(Truncated(content, maxTokens))
  {
    assert IsMarked(MARKER);
    if maxTokens > 4 {
      MarkerIsAWord();
      StartIsMarked(content, maxTokens);
      ShrunkIsMarked(Start(content, maxTokens), maxTokens - 4);
      TruncatedIs(content, maxTokens);
    }
  }

  // ---- when a mandatory message is placed ---------------------------------------------------------------

  /** A mandatory message is placed exactly when it fits as it is or at least seven tokens are left. */
  lemma PlacedIff(m: Message, i: nat, b: Budget)
    requires PlaceOne(m, i, b).Some?
    ensures PlaceOne(m, i, b).value.chosen != b.chosen <==> MessageTokens(m) <= b.remaining || b.remaining >= 7
  {
    DroppedOnlyWhenTiny(m, i, b);
    if MessageTokens(m) > b.remaining {
      MarkerAlone();
      TruncatedIsMarked(m.content, b.remaining);
      if Truncated(m.content, b.remaining) != m.content {
        MarkedCostsThree(Truncated(m.content, b.remaining));
      }
    }
  }

  lemma IncludesParts(head: seq<Chosen>, found: seq<Chosen>, tail: seq<Chosen>, i: nat)
    ensures Includes(head + found + tail, i) <==> Includes(head, i) || Includes(found, i) || Includes(tail, i)
  {
    var all := head + found + tail;
    assert forall k :: 0 <= k < |head| ==> all[k] == head[k];
    assert forall k :: 0 <= k < |found| ==> all[|head| + k] == found[k];
    assert forall k :: 0 <= k < |tail| ==> all[|head| + |found| + k] == tail[k];
    if Includes(all, i) {
      var k :| 0 <= k < |all| && all[k].index == i;
      if k >= |head| + |found| {
        assert tail[k - |head| - |found|].index == i;
      } else if k >= |head| {
        assert found[k - |head|].index == i;
      }
    }
  }

  /** The second loop neither adds nor removes a mandatory message. */
  lemma MandatoryIsPlaced(ms: seq<Message>, contextWindow: int, maxOutput: int, i: nat)
    requires Fit(ms, contextWindow, maxOutput).Ok? && ms != [] && i in Mandatory(ms)
    ensures Placed(ms, contextWindow - maxOutput).Some?
    ensures Includes(Fit(ms, contextWindow, maxOutput).value.messages, i)
       <==> Includes(Placed(ms, contextWindow - maxOutput).value.chosen, i)
  {
    SelectionIs(ms, contextWindow, maxOutput);
    var b := Placed(ms, contextWindow - maxOutput).value;
    var at := InsertionPoint(ms, b.chosen);
    FoundHas(ms, Mandatory(ms), |ms|, b.remaining, i);
    IncludesParts(b.chosen[..at], Found(ms, Mandatory(ms), |ms|, b.remaining), b.chosen[at..], i);
    IncludesParts(b.chosen[..at], [], b.chosen[at..], i);
    assert b.chosen[..at] + [] + b.chosen[at..] == b.chosen;
  }

  /** The budget that the newest user message meets: the whole one, or what the system message leaves. */
  function BeforeUser(ms: seq<Message>, available: int): Option<Budget> {
    FirstIs(ms, System, 0);
    match SystemIndex(ms)
    case None => Some(Budget([], available, 0))
    case Some(s) => PlaceOne(ms[s], s, Budget([], available, 0))
  }

  lemma PlaceAllOne(ms: seq<Message>, i: nat, b: Budget)
    requires i < |ms|
    ensures PlaceAll(ms, [i], b) == PlaceOne(ms[i], i, b)
  {
    assert [i][1..] == [];
  }

  lemma PlaceAllTwo(ms: seq<Message>, i: nat, j: nat, b: Budget)
    requires i < |ms| && j < |ms|
    ensures PlaceOne(ms[i], i, b) == None ==> PlaceAll(ms, [i, j], b) == None
    ensures PlaceOne(ms[i], i, b).Some? ==> PlaceAll(ms, [i, j], b) == PlaceOne(ms[j], j, PlaceOne(ms[i], i, b).value)
  {
    assert [i, j][1..] == [j];
    if PlaceOne(ms[i], i, b).Some? {
      PlaceAllOne(ms, j, PlaceOne(ms[i], i, b).value);
    }
  }

  lemma UserIsPlacedLast(ms: seq<Message>, available: int)
    requires ms != [] && Placed(ms, available).Some? && LastUserIndex(ms).Some?
    ensures LastUserIndex(ms).value < |ms| && BeforeUser(ms, available).Some?
    ensures Placed(ms, available) == PlaceOne(ms[LastUserIndex(ms).value], LastUserIndex(ms).value, BeforeUser(ms, available).value)
  {
    FirstIs(ms, System, 0);
    LastIs(ms, User, |ms|);
    MandatoryIs(ms);
    var u, start := LastUserIndex(ms).value, Budget([], available, 0);
    if SystemIndex(ms).Some? {
      PlaceAllTwo(ms, SystemIndex(ms).value, u, start);
    } else {
      PlaceAllOne(ms, u, start);
    }
  }

  lemma PlaceOneIncludes(m: Message, i: nat, b: Budget, j: nat)
    requires PlaceOne(m, i, b).Some?
    ensures var r := PlaceOne(m, i, b).value;
            Includes(r.chosen, j) <==> Includes(b.chosen, j) || (j == i && r.chosen != b.chosen)
  {
    var r := PlaceOne(m, i, b).value;
    DroppedOnlyWhenTiny(m, i, b);
    if r.chosen != b.chosen {
      assert r.chosen == b.chosen + [r.chosen[|b.chosen|]];
      IncludesAppend(b.chosen, r.chosen[|b.chosen|], j);
    }
  }

  lemma UserNotYetIncluded(ms: seq<Message>, available: int)
    requires LastUserIndex(ms).Some? && BeforeUser(ms, available).Some?
    ensures !Includes(BeforeUser(ms, available).value.chosen, LastUserIndex(ms).value)
  {
    FirstIs(ms, System, 0);
    MandatoryDiffer(ms);
    if SystemIndex(ms).Some? {
      var s := SystemIndex(ms).value;
      PlaceOneIncludes(ms[s], s, Budget([], available, 0), LastUserIndex(ms).value);
    }
  }

  /**
   The newest user message is kept exactly when it fits into what the system message leaves, or at least
   seven tokens are left: then it is cut to fit.
   */
  lemma UserMessageKeptIff(ms: seq<Message>, contextWindow: int, maxOutput: int)
    requires Fit(ms, contextWindow, maxOutput).Ok? && LastUserIndex(ms).Some?
    ensures LastUserIndex(ms).value < |ms| && BeforeUser(ms, contextWindow - maxOutput).Some?
    ensures var u, room := LastUserIndex(ms).value, BeforeUser(ms, contextWindow - maxOutput).value.remaining;
            Includes(Fit(ms, contextWindow, maxOutput).value.messages, u) <==> MessageTokens(ms[u]) <= room || room >= 7
  {
    var available, u := contextWindow - maxOutput, LastUserIndex(ms).value;
    UserIsKept(ms, contextWindow, maxOutput);
    UserIsPlacedLast(ms, available);
    UserNotYetIncluded(ms, available);
    var b := BeforeUser(ms, available).value;
    PlaceOneIncludes(ms[u], u, b, u);
    PlacedIff(ms[u], u, b);
  }

  lemma UserIsKept(ms: seq<Message>, contextWindow: int, maxOutput: int)
    requires Fit(ms, contextWindow, maxOutput).Ok? && LastUserIndex(ms).Some?
    ensures ms != [] && Placed(ms, contextWindow - maxOutput).Some?
    ensures Includes(Fit(ms, contextWindow, maxOutput).value.messages, LastUserIndex(ms).value)
       <==> Includes(Placed(ms, contextWindow - maxOutput).value.chosen, LastUserIndex(ms).value)
  {
    FitIs(ms, contextWindow, maxOutput);
    MandatoryIs(ms);
    MandatoryIsPlaced(ms, contextWindow, maxOutput, LastUserIndex(ms).value);
  }

  /** The first system message is kept exactly when it fits into the whole budget, or that is at least seven tokens. */
  lemma SystemMessageKeptIff(ms: seq<Message>, contextWindow: int, maxOutput: int)
    requires Fit(ms, contextWindow, maxOutput).Ok? && SystemIndex(ms).Some?
    ensures SystemIndex(ms).value < |ms|
    ensures var s, available := SystemIndex(ms).value, contextWindow - maxOutput;
            Includes(Fit(ms, contextWindow, maxOutput).value.messages, s) <==> MessageTokens(ms[s]) <= available || available >= 7
  {
    FirstIs(ms, System, 0);
    var s, available := SystemIndex(ms).value, contextWindow - maxOutput;
    SystemIsKept(ms, contextWindow, maxOutput);
    SystemIsPlacedFirst(ms, available);
    var start := Budget([], available, 0);
    PlaceOneIncludes(ms[s], s, start, s);
    PlacedIff(ms[s], s, start);
  }

  lemma SystemIsKept(ms: seq<Message>, contextWindow: int, maxOutput: int)
    requires Fit(ms, contextWindow, maxOutput).Ok? && SystemIndex(ms).Some?
    ensures ms != [] && Placed(ms, contextWindow - maxOutput).Some?
    ensures Includes(Fit(ms, contextWindow, maxOutput).value.messages, SystemIndex(ms).value)
       <==> Includes(Placed(ms, contextWindow - maxOutput).value.chosen, SystemIndex(ms).value)
  {
    FitIs(ms, contextWindow, maxOutput);
    MandatoryIs(ms);
    MandatoryIsPlaced(ms, contextWindow, maxOutput, SystemIndex(ms).value);
  }

  lemma SystemIsPlacedFirst(ms: seq<Message>, available: int)
    requires ms != [] && Placed(ms, available).Some? && SystemIndex(ms).Some? && SystemIndex(ms).value < |ms|
    ensures var s, start := SystemIndex(ms).value, Budget([], available, 0);
            && PlaceOne(ms[s], s, start).Some?
            && (Includes(Placed(ms, available).value.chosen, s) <==> Includes(PlaceOne(ms[s], s, start).value.chosen, s))
  {
    LastIs(ms, User, |ms|);
    MandatoryIs(ms);
    MandatoryDiffer(ms);
    var s, start := SystemIndex(ms).value, Budget([], available, 0);
    if LastUserIndex(ms).Some? {
      var u := LastUserIndex(ms).value;
      PlaceAllTwo(ms, s, u, start);
      PlaceOneIncludes(ms[u], u, PlaceOne(ms[s], s, start).value, s);
    } else {
      PlaceAllOne(ms, s, start);
    }
  }

  /** A conversation whose system message takes all the room. */
  function CrowdedChat(): seq<Message> {
    [Message(System, seq(24, _ => 'x')), Message(User, "a")]
  }

  lemma CrowdedRoom()
    ensures var ms := CrowdedChat();
            SystemIndex(ms) == Some(0) && LastUserIndex(ms) == Some(1) && BeforeUser(ms, 10) == Some(Budget([Chosen(0, ms[0])], 0, 0))
    ensures MessageTokens(CrowdedChat()[1]) == 5
  {
    var ms := CrowdedChat();
    WordCost(ms[0].content);
    WordCost("a");
    FirstIs(ms, System, 0);
    LastIs(ms, User, 2);
    assert [] + [Chosen(0, ms[0])] == [Chosen(0, ms[0])];
  }

  /** The user's question is not in the output. */
  lemma UserMessageCanBeLost()
    ensures Fit(CrowdedChat(), 20, 10).Ok? && !Includes(Fit(CrowdedChat(), 20, 10).value.messages, 1)
  {
    var ms := CrowdedChat();
    CrowdedRoom();
    MandatoryIs(ms);
    PlaceAllTwo(ms, 0, 1, Budget([], 10, 0));
    assert PlaceOne(ms[1], 1, BeforeUser(ms, 10).value).Some?;
    assert Placed(ms, 10).Some?;
    UserMessageKeptIff(ms, 20, 10);
  }
}
