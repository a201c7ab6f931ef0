/**
 What a fitted conversation consists of, read off its output: which messages are in it, where they stand,
 and what content they carry.
 */
module FittedContent {
  import opened Options
  import opened Tokens
  import opened Truncation
  import opened CarriedContent
  import opened ContextWindow
  import opened KeptMessages

  // ---- what a mandatory message leaves -----------------------------------------------------------------

  /** What is left of a mandatory message that met `room` tokens: nothing, or one entry with its content. */
  ghost predicate IsKept(m: Message, i: nat, room: int, kept: seq<Chosen>) {
    && |kept| <= 1
    && (|kept| == 1 <==> 4 + Estimate(m.content) <= room || room >= 7)
    && (|kept| == 1 ==>
          kept[0].index == i && kept[0].message.role == m.role && Carries(m.content, room, kept[0].message.content))
  }

  lemma PlacedCarries(m: Message, i: nat, b: Budget) returns (kept: seq<Chosen>)
    requires PlaceOne(m, i, b).Some?
    ensures IsKept(m, i, b.remaining, kept)
    ensures var r := PlaceOne(m, i, b).value;
            && r.chosen == b.chosen + kept && r.remaining == b.remaining - TotalTokens(kept)
            && r.truncated == b.truncated + (if MessageTokens(m) > b.remaining then 1 else 0)
  {
    PlacedIff(m, i, b);
    var r := PlaceOne(m, i, b).value;
    if MessageTokens(m) > b.remaining {
      TruncatedCarries(m.content, b.remaining);
    }
    kept := r.chosen[|b.chosen|..];
    TokensOfOne(if kept == [] then Chosen(i, m) else kept[0]);
  }

  lemma TokensOfOne(c: Chosen)
    ensures TotalTokens([c]) == TokensAt([c], c.index) == MessageTokens(c.message)
    ensures TotalTokens([]) == 0 && forall i: nat :: i != c.index ==> TokensAt([c], i) == 0
  {
    assert [c][1..] == [];
  }

  // ---- the room a message met, read off the output ----------------------------------------------------

  /** The mandatory messages: the first system one and the newest user one, or the last message if there is neither. */
  lemma MandatoryIff(ms: seq<Message>, i: nat)
    requires i < |ms|
    ensures i in Mandatory(ms)
       <==> || (ms[i].role == System && forall j :: 0 <= j < i ==> ms[j].role != System)
            || (ms[i].role == User && forall j :: i < j < |ms| ==> ms[j].role != User)
            || (i == |ms| - 1 && forall j :: 0 <= j < |ms| ==> ms[j].role != System && ms[j].role != User)
    ensures SystemIndex(ms) == Some(i) <==> ms[i].role == System && forall j :: 0 <= j < i ==> ms[j].role != System
    ensures LastUserIndex(ms) == Some(i) <==> ms[i].role == User && forall j :: i < j < |ms| ==> ms[j].role != User
  {
    FirstIs(ms, System, 0);
    LastIs(ms, User, |ms|);
    MandatoryIs(ms);
  }

  /** The tokens that message `i` takes in the output. */
  function TokensAt(chosen: seq<Chosen>, i: nat): nat {
    if chosen == [] then 0 else
      (if chosen[0].index == i then MessageTokens(chosen[0].message) else 0) + TokensAt(chosen[1..], i)
  }

  /** The first system message meets the whole budget, the newest user message what the system message left of it. */
  function RoomMet(ms: seq<Message>, output: seq<Chosen>, available: int, i: nat): int {
    var s := SystemIndex(ms);
    if s.Some? && s.value != i then available - TokensAt(output, s.value) else available
  }

  /** How many of the messages `idx` did not fit the room they met. */
  function Squeezed(ms: seq<Message>, idx: seq<nat>, output: seq<Chosen>, available: int): nat
    requires forall k :: 0 <= k < |idx| ==> idx[k] < |ms|
  {
    if idx == [] then 0 else
      (if MessageTokens(ms[idx[0]]) > RoomMet(ms, output, available, idx[0]) then 1 else 0)
      + Squeezed(ms, idx[1..], output, available)
  }

  lemma {:induction false} TokensAtAdd(a: seq<Chosen>, b: seq<Chosen>, i: nat)
    ensures TokensAt(a + b, i) == TokensAt(a, i) + TokensAt(b, i)
    decreases |a|
  {
    if a == [] {
      assert a + b == b;
    } else {
      assert (a + b)[0] == a[0] && (a + b)[1..] == a[1..] + b;
      TokensAtAdd(a[1..], b, i);
    }
  }

  lemma {:induction false} TokensAtAbsent(chosen: seq<Chosen>, i: nat)
    requires !Includes(chosen, i)
    ensures TokensAt(chosen, i) == 0
    decreases |chosen|
  {
    if chosen != [] {
      assert chosen[0].index != i;
      assert forall k :: 0 <= k < |chosen[1..]| ==> chosen[1..][k] == chosen[k + 1];
      TokensAtAbsent(chosen[1..], i);
    }
  }

  // ---- what is placed ---------------------------------------------------------------------------------

  ghost predicate EntryCarries(ms: seq<Message>, output: seq<Chosen>, available: int, c: Chosen) {
    && c.index < |ms|
    && c.message.role == ms[c.index].role
    && Carries(ms[c.index].content, RoomMet(ms, output, available, c.index), c.message.content)
  }

  predicate HasPlace(ms: seq<Message>, output: seq<Chosen>, available: int, i: nat)
    requires i < |ms|
  {
    var room := RoomMet(ms, output, available, i);
    4 + Estimate(ms[i].content) <= room || room >= 7
  }

  /** Every entry of `chosen` carries what its message does in the output. */
  ghost predicate AllCarry(ms: seq<Message>, output: seq<Chosen>, available: int, chosen: seq<Chosen>) {
    chosen == [] || (EntryCarries(ms, output, available, chosen[0]) && AllCarry(ms, output, available, chosen[1..]))
  }

  /** Of the messages `idx` exactly those that have a place are in the output. */
  ghost predicate EachPlaced(ms: seq<Message>, output: seq<Chosen>, available: int, idx: seq<nat>) {
    idx == [] || (&& idx[0] < |ms|
                  && (Includes(output, idx[0]) <==> HasPlace(ms, output, available, idx[0]))
                  && EachPlaced(ms, output, available, idx[1..]))
  }

  lemma {:induction false} OneCarries(ms: seq<Message>, output: seq<Chosen>, available: int, chosen: seq<Chosen>, c: Chosen)
    requires AllCarry(ms, output, available, chosen) && c in chosen
    ensures EntryCarries(ms, output, available, c)
    decreases |chosen|
  {
    if c != chosen[0] {
      OneCarries(ms, output, available, chosen[1..], c);
    }
  }

  lemma {:induction false} OneIsPlaced(ms: seq<Message>, output: seq<Chosen>, available: int, idx: seq<nat>, i: nat)
    requires EachPlaced(ms, output, available, idx) && i in idx
    ensures i < |ms| && (Includes(output, i) <==> HasPlace(ms, output, available, i))
    decreases |idx|
  {
    if i != idx[0] {
      OneIsPlaced(ms, output, available, idx[1..], i);
    }
  }

  lemma {:induction false} AllEntriesCarry(ms: seq<Message>, output: seq<Chosen>, available: int, chosen: seq<Chosen>)
    requires forall k :: 0 <= k < |chosen| ==> EntryCarries(ms, output, available, chosen[k])
    ensures AllCarry(ms, output, available, chosen)
    decreases |chosen|
  {
    if chosen != [] {
      AllEntriesCarry(ms, output, available, chosen[1..]);
    }
  }

  ghost predicate IsPlacement(ms: seq<Message>, available: int, b: Budget)
    requires ms != [] && forall k :: 0 <= k < |Mandatory(ms)| ==> Mandatory(ms)[k] < |ms|
  {
    && AllCarry(ms, b.chosen, available, b.chosen)
    && EachPlaced(ms, b.chosen, available, Mandatory(ms))
    && b.truncated == Squeezed(ms, Mandatory(ms), b.chosen, available)
  }

  lemma PlacementOfOne(ms: seq<Message>, available: int, i: nat)
    requires ms != [] && i < |ms| && Mandatory(ms) == [i] && Placed(ms, available).Some?
    requires SystemIndex(ms) in {None, Some(i)}
    ensures IsPlacement(ms, available, Placed(ms, available).value)
  {
    var start := Budget([], available, 0);
    PlaceAllOne(ms, i, start);
    var kept := PlacedCarries(ms[i], i, start);
    assert Placed(ms, available).value.chosen == kept;
    IncludesKept(kept, i);
    assert Squeezed(ms, [i][1..], kept, available) == 0 && EachPlaced(ms, kept, available, [i][1..]);
    AllEntriesCarry(ms, kept, available, kept);
  }

  lemma IncludesKept(kept: seq<Chosen>, i: nat)
    requires |kept| <= 1 && (|kept| == 1 ==> kept[0].index == i)
    ensures forall j: nat :: Includes(kept, j) <==> |kept| == 1 && j == i
    ensures forall j: nat :: TokensAt(kept, j) == if j == i then TotalTokens(kept) else 0
  {
    if kept != [] {
      TokensOfOne(kept[0]);
      assert kept == [kept[0]];
    }
  }

  lemma IncludesEither(a: seq<Chosen>, b: seq<Chosen>, i: nat)
    ensures Includes(a + b, i) <==> Includes(a, i) || Includes(b, i)
  {
    IncludesParts(a, b, [], i);
    assert a + b + [] == a + b;
  }

  lemma RoomOfTwo(ms: seq<Message>, available: int, s: nat, u: nat, kept1: seq<Chosen>, kept2: seq<Chosen>)
    requires s < |ms| && u < |ms| && s != u && SystemIndex(ms) == Some(s)
    requires |kept1| <= 1 && (|kept1| == 1 ==> kept1[0].index == s)
    requires |kept2| <= 1 && (|kept2| == 1 ==> kept2[0].index == u)
    ensures RoomMet(ms, kept1 + kept2, available, s) == available
    ensures RoomMet(ms, kept1 + kept2, available, u) == available - TotalTokens(kept1)
    ensures Includes(kept1 + kept2, s) <==> |kept1| == 1
    ensures Includes(kept1 + kept2, u) <==> |kept2| == 1
  {
    IncludesKept(kept1, s);
    IncludesKept(kept2, u);
    TokensAtAdd(kept1, kept2, s);
    IncludesEither(kept1, kept2, s);
    IncludesEither(kept1, kept2, u);
  }

  lemma KeptOfTwo(ms: seq<Message>, available: int, s: nat, u: nat)
    returns (kept1: seq<Chosen>, room: int, kept2: seq<Chosen>)
    requires ms != [] && s < |ms| && u < |ms| && Mandatory(ms) == [s, u] && Placed(ms, available).Some?
    ensures IsKept(ms[s], s, available, kept1) && IsKept(ms[u], u, room, kept2)
    ensures room == available - TotalTokens(kept1)
    ensures var b := Placed(ms, available).value;
            && b.chosen == kept1 + kept2
            && b.truncated == (if MessageTokens(ms[s]) > available then 1 else 0)
                              + (if MessageTokens(ms[u]) > room then 1 else 0)
  {
    var start := Budget([], available, 0);
    PlaceAllTwo(ms, s, u, start);
    var b1 := PlaceOne(ms[s], s, start).value;
    kept1 := PlacedCarries(ms[s], s, start);
    assert b1.chosen == kept1;
    room := b1.remaining;
    kept2 := PlacedCarries(ms[u], u, b1);
  }

  lemma PlacementOfTwo(ms: seq<Message>, available: int, s: nat, u: nat)
    requires ms != [] && s < |ms| && u < |ms| && s != u && Mandatory(ms) == [s, u] && Placed(ms, available).Some?
    requires SystemIndex(ms) == Some(s)
    ensures IsPlacement(ms, available, Placed(ms, available).value)
  {
    var kept1, room, kept2 := KeptOfTwo(ms, available, s, u);
    PlacementFromKept(ms, available, s, u, kept1, room, kept2, Placed(ms, available).value);
  }

  lemma PlacementFromKept(ms: seq<Message>, available: int, s: nat, u: nat,
                          kept1: seq<Chosen>, room: int, kept2: seq<Chosen>, b: Budget)
    requires ms != [] && s < |ms| && u < |ms| && s != u && Mandatory(ms) == [s, u] && SystemIndex(ms) == Some(s)
    requires IsKept(ms[s], s, available, kept1) && IsKept(ms[u], u, room, kept2) && room == available - TotalTokens(kept1)
    requires b.chosen == kept1 + kept2
    requires b.truncated == (if MessageTokens(ms[s]) > available then 1 else 0)
                            + (if MessageTokens(ms[u]) > room then 1 else 0)
    ensures IsPlacement(ms, available, b)
  {
    RoomOfTwo(ms, available, s, u, kept1, kept2);
    EntriesOfTwo(ms, available, s, u, kept1, room, kept2);
    SqueezedOfTwo(ms, s, u, b.chosen, available);
    PlacementFrom(ms, available, s, u, b);
  }

  lemma PlacementFrom(ms: seq<Message>, available: int, s: nat, u: nat, b: Budget)
    requires ms != [] && s < |ms| && u < |ms| && Mandatory(ms) == [s, u]
    requires forall k :: 0 <= k < |b.chosen| ==> EntryCarries(ms, b.chosen, available, b.chosen[k])
    requires Includes(b.chosen, s) <==> HasPlace(ms, b.chosen, available, s)
    requires Includes(b.chosen, u) <==> HasPlace(ms, b.chosen, available, u)
    requires b.truncated == Squeezed(ms, [s, u], b.chosen, available)
    ensures IsPlacement(ms, available, b)
  {
    assert [s, u][1..] == [u] && [u][1..] == [];
    AllEntriesCarry(ms, b.chosen, available, b.chosen);
    assert EachPlaced(ms, b.chosen, available, [u]);
  }

  lemma EntriesOfTwo(ms: seq<Message>, available: int, s: nat, u: nat,
                     kept1: seq<Chosen>, room: int, kept2: seq<Chosen>)
    requires s < |ms| && u < |ms| && s != u && SystemIndex(ms) == Some(s)
    requires IsKept(ms[s], s, available, kept1) && IsKept(ms[u], u, room, kept2) && room == available - TotalTokens(kept1)
    ensures forall k :: 0 <= k < |kept1 + kept2| ==> EntryCarries(ms, kept1 + kept2, available, (kept1 + kept2)[k])
  {
    RoomOfTwo(ms, available, s, u, kept1, kept2);
  }

  lemma SqueezedOfTwo(ms: seq<Message>, s: nat, u: nat, output: seq<Chosen>, available: int)
    requires s < |ms| && u < |ms|
    ensures Squeezed(ms, [s, u], output, available)
         == (if MessageTokens(ms[s]) > RoomMet(ms, output, available, s) then 1 else 0)
            + (if MessageTokens(ms[u]) > RoomMet(ms, output, available, u) then 1 else 0)
  {
    assert [s, u][1..] == [u] && [u][1..] == [];
    assert Squeezed(ms, [], output, available) == 0;
    assert Squeezed(ms, [u], output, available) == if MessageTokens(ms[u]) > RoomMet(ms, output, available, u) then 1 else 0;
  }

  lemma PlacementIs(ms: seq<Message>, available: int)
    requires ms != [] && Placed(ms, available).Some?
    ensures forall k :: 0 <= k < |Mandatory(ms)| ==> Mandatory(ms)[k] < |ms|
    ensures IsPlacement(ms, available, Placed(ms, available).value)
  {
    MandatoryInRange(ms);
    MandatoryIs(ms);
    MandatoryDiffer(ms);
    if |Mandatory(ms)| == 2 {
      PlacementOfTwo(ms, available, Mandatory(ms)[0], Mandatory(ms)[1]);
    } else {
      PlacementOfOne(ms, available, Mandatory(ms)[0]);
    }
  }

  // ---- the output in two parts ------------------------------------------------------------------------

  /** The others that were found, at one point among the messages that were placed. */
  function Inserted(ms: seq<Message>, b: Budget): seq<Chosen>
    requires ms != []
  {
    var at := InsertionPoint(ms, b.chosen);
    b.chosen[..at] + Found(ms, Mandatory(ms), |ms|, b.remaining) + b.chosen[at..]
  }

  /** What the answer `f` has to do with the budget `b` that the mandatory messages leave. */
  ghost predicate Answers(ms: seq<Message>, b: Budget, f: Fitting) {
    && ms != [] && (forall k :: 0 <= k < |Mandatory(ms)| ==> Mandatory(ms)[k] < |ms|)
    && IsPlacement(ms, f.available, b)
    && TotalTokens(b.chosen) + b.remaining == f.available
    && (forall k :: 0 <= k < |b.chosen| ==> b.chosen[k].index in Mandatory(ms))
    && f.messages == Inserted(ms, b) && f.truncated == b.truncated
  }

  lemma FitAnswers(ms: seq<Message>, contextWindow: int, maxOutput: int, f: Fitting) returns (b: Budget)
    requires Fit(ms, contextWindow, maxOutput) == Ok(f)
    ensures f.available == contextWindow - maxOutput
    ensures Answers(ms, b, f) && IsPlacing(Mandatory(ms), b)
  {
    b := FitIsInserted(ms, contextWindow, maxOutput, f);
    PlacedAnswers(ms, b, f);
  }

  lemma FitIsInserted(ms: seq<Message>, contextWindow: int, maxOutput: int, f: Fitting) returns (b: Budget)
    requires Fit(ms, contextWindow, maxOutput) == Ok(f)
    ensures ms != [] && f.available == contextWindow - maxOutput && Placed(ms, f.available) == Some(b)
    ensures f.messages == Inserted(ms, b) && f.truncated == b.truncated
  {
    SelectionIs(ms, contextWindow, maxOutput);
    TruncatedIsPlaced(ms, contextWindow, maxOutput);
    b := Placed(ms, contextWindow - maxOutput).value;
  }

  lemma PlacedAnswers(ms: seq<Message>, b: Budget, f: Fitting)
    requires ms != [] && Placed(ms, f.available) == Some(b)
    requires f.messages == Inserted(ms, b) && f.truncated == b.truncated
    ensures Answers(ms, b, f) && IsPlacing(Mandatory(ms), b)
  {
    PlacementIs(ms, f.available);
    PlacedAreMandatory(ms, f.available);
    PlacedCases(ms, f.available);
  }

  lemma TruncatedIsPlaced(ms: seq<Message>, contextWindow: int, maxOutput: int)
    requires Fit(ms, contextWindow, maxOutput).Ok?
    ensures ms != [] && Placed(ms, contextWindow - maxOutput).Some?
    ensures Fit(ms, contextWindow, maxOutput).value.truncated == Placed(ms, contextWindow - maxOutput).value.truncated
  {
    OthersTruncateNothing(ms, Mandatory(ms), |ms|, SystemIndex(ms).Some?, Placed(ms, contextWindow - maxOutput).value);
  }

  lemma {:induction false} OthersTruncateNothing(ms: seq<Message>, mandatory: seq<nat>, n: nat, behindFirst: bool, b: Budget)
    requires n <= |ms|
    ensures AddOthers(ms, mandatory, n, behindFirst, b).truncated == b.truncated
    decreases n
  {
    if n > 0 {
      var i := n - 1;
      OthersTruncateNothing(ms, mandatory, i, behindFirst,
                            if IsOther(ms, mandatory, i) then AddOne(ms[i], i, behindFirst, b) else b);
    }
  }

  lemma PlacedAreMandatory(ms: seq<Message>, available: int)
    requires ms != [] && Placed(ms, available).Some?
    ensures var b := Placed(ms, available).value;
            && TotalTokens(b.chosen) + b.remaining == available
            && forall k :: 0 <= k < |b.chosen| ==> b.chosen[k].index in Mandatory(ms)
  {
    MandatoryInRange(ms);
    PlacedCases(ms, available);
    TokensOfPlaced(ms, Mandatory(ms), Budget([], available, 0), available);
    PlacedFollow(ms, Mandatory(ms), Budget([], available, 0));
    FollowAreThose(Placed(ms, available).value.chosen, 0, Mandatory(ms));
  }

  lemma {:induction false} FollowAreThose(chosen: seq<Chosen>, from: nat, idx: seq<nat>)
    requires from <= |chosen| && Follow(chosen, from, idx)
    ensures forall k :: from <= k < |chosen| ==> chosen[k].index in idx
    decreases |idx|
  {
    if idx != [] {
      if from < |chosen| && chosen[from].index == idx[0] && Follow(chosen, from + 1, idx[1..]) {
        FollowAreThose(chosen, from + 1, idx[1..]);
      } else {
        FollowAreThose(chosen, from, idx[1..]);
      }
    }
  }

  lemma {:induction false} TokensOfPlaced(ms: seq<Message>, idx: seq<nat>, b: Budget, available: int)
    requires forall k :: 0 <= k < |idx| ==> idx[k] < |ms|
    requires PlaceAll(ms, idx, b).Some? && TotalTokens(b.chosen) + b.remaining == available
    ensures var r := PlaceAll(ms, idx, b).value; TotalTokens(r.chosen) + r.remaining == available
    decreases |idx|
  {
    if idx != [] {
      var kept := PlacedCarries(ms[idx[0]], idx[0], b);
      TotalTokensAdd(b.chosen, kept);
      TokensOfPlaced(ms, idx[1..], PlaceOne(ms[idx[0]], idx[0], b).value, available);
    }
  }

  // ---- what the messages in the output carry ----------------------------------------------------------

  /** The others in the output take no tokens of a mandatory message, so every message met what the output shows. */
  lemma RoomIsUnchanged(ms: seq<Message>, available: int, b: Budget, i: nat)
    requires ms != []
    ensures RoomMet(ms, Inserted(ms, b), available, i) == RoomMet(ms, b.chosen, available, i)
  {
    MandatoryIs(ms);
    if SystemIndex(ms).Some? {
      var s, at := SystemIndex(ms).value, InsertionPoint(ms, b.chosen);
      var head, found, tail := b.chosen[..at], Found(ms, Mandatory(ms), |ms|, b.remaining), b.chosen[at..];
      FoundHas(ms, Mandatory(ms), |ms|, b.remaining, s);
      TokensAtAbsent(found, s);
      TokensAtAdd(head + found, tail, s);
      TokensAtAdd(head, found, s);
      TokensAtAdd(head, tail, s);
      assert head + tail == b.chosen;
    }
  }

  /** An entry of the output is one of the found others, as in the source, or one of the messages placed. */
  lemma EntryIs(ms: seq<Message>, b: Budget, k: nat)
    requires ms != [] && k < |Inserted(ms, b)|
    ensures var c := Inserted(ms, b)[k];
            || (IsFound(ms, Mandatory(ms), |ms|, c.index) && c.message == ms[c.index])
            || c in b.chosen
  {
    var at, found := InsertionPoint(ms, b.chosen), Found(ms, Mandatory(ms), |ms|, b.remaining);
    FoundAreSource(ms, Mandatory(ms), |ms|, b.remaining);
    EntryOfParts(b.chosen[..at], found, b.chosen[at..], k);
  }

  lemma EntryOfParts(head: seq<Chosen>, found: seq<Chosen>, tail: seq<Chosen>, k: nat)
    requires k < |head + found + tail|
    ensures var c := (head + found + tail)[k]; c in head || c in found || c in tail
  {
  }

  lemma {:induction false} FoundAreSource(ms: seq<Message>, mandatory: seq<nat>, n: nat, room: int)
    requires n <= |ms|
    ensures forall c :: c in Found(ms, mandatory, n, room) ==> IsFound(ms, mandatory, n, c.index) && c.message == ms[c.index]
    decreases n
  {
    if n > 0 {
      FoundAreSource(ms, mandatory, n - 1, room);
      FoundAreSource(ms, mandatory, n - 1, room - MessageTokens(ms[n - 1]));
    }
  }

  /**
   The content of every message in the output: an entry keeps its role; an optional message is unchanged; and
   a mandatory one is unchanged if it fitted the room it met, and else cut down to that room.
   */
  lemma ContentOfKept(ms: seq<Message>, contextWindow: int, maxOutput: int, f: Fitting, k: nat)
    requires Fit(ms, contextWindow, maxOutput) == Ok(f) && k < |f.messages|
    ensures ms != [] && f.messages[k].index < |ms|
    ensures var i, m := f.messages[k].index, f.messages[k].message;
            && m.role == ms[i].role
            && (i !in Mandatory(ms) ==> m == ms[i])
            && (i in Mandatory(ms) ==>
                  Carries(ms[i].content, RoomMet(ms, f.messages, f.available, i), m.content))
  {
    var b := FitAnswers(ms, contextWindow, maxOutput, f);
    EntryCarriesIts(ms, b, f, k);
  }

  lemma EntryCarriesIts(ms: seq<Message>, b: Budget, f: Fitting, k: nat)
    requires Answers(ms, b, f) && k < |f.messages|
    ensures f.messages[k].index < |ms|
    ensures var i, m := f.messages[k].index, f.messages[k].message;
            && m.role == ms[i].role
            && (i !in Mandatory(ms) ==> m == ms[i])
            && (i in Mandatory(ms) ==> Carries(ms[i].content, RoomMet(ms, f.messages, f.available, i), m.content))
  {
    EntryIs(ms, b, k);
    var c := f.messages[k];
    RoomIsUnchanged(ms, f.available, b, c.index);
    if c in b.chosen {
      OneCarries(ms, b.chosen, f.available, b.chosen, c);
    }
  }

  // ---- which messages are in the output ---------------------------------------------------------------

  /** A mandatory message is in the output exactly when it fitted the room it met, or that was at least seven tokens. */
  lemma MandatoryKeptIff(ms: seq<Message>, contextWindow: int, maxOutput: int, f: Fitting, i: nat)
    requires Fit(ms, contextWindow, maxOutput) == Ok(f) && ms != [] && i in Mandatory(ms)
    ensures var room := RoomMet(ms, f.messages, f.available, i);
            i < |ms| && (Includes(f.messages, i) <==> 4 + Estimate(ms[i].content) <= room || room >= 7)
  {
    var b := FitAnswers(ms, contextWindow, maxOutput, f);
    MandatoryHasPlace(ms, b, f, i);
  }

  lemma MandatoryHasPlace(ms: seq<Message>, b: Budget, f: Fitting, i: nat)
    requires Answers(ms, b, f) && i in Mandatory(ms)
    ensures var room := RoomMet(ms, f.messages, f.available, i);
            i < |ms| && (Includes(f.messages, i) <==> 4 + Estimate(ms[i].content) <= room || room >= 7)
  {
    OneIsPlaced(ms, b.chosen, f.available, Mandatory(ms), i);
    RoomIsUnchanged(ms, f.available, b, i);
    MandatoryIsInserted(ms, b, i);
  }

  lemma MandatoryIsInserted(ms: seq<Message>, b: Budget, i: nat)
    requires ms != [] && i in Mandatory(ms)
    ensures Includes(Inserted(ms, b), i) <==> Includes(b.chosen, i)
  {
    var at := InsertionPoint(ms, b.chosen);
    var head, found, tail := b.chosen[..at], Found(ms, Mandatory(ms), |ms|, b.remaining), b.chosen[at..];
    FoundHas(ms, Mandatory(ms), |ms|, b.remaining, i);
    IncludesParts(head, found, tail, i);
    IncludesEither(head, tail, i);
    assert head + tail == b.chosen;
  }

  lemma {:induction false} SqueezedInBoth(ms: seq<Message>, idx: seq<nat>, a: seq<Chosen>, b: seq<Chosen>, available: int)
    requires forall k :: 0 <= k < |idx| ==> idx[k] < |ms|
    requires forall i: nat :: RoomMet(ms, a, available, i) == RoomMet(ms, b, available, i)
    ensures Squeezed(ms, idx, a, available) == Squeezed(ms, idx, b, available)
    decreases |idx|
  {
    if idx != [] {
      SqueezedInBoth(ms, idx[1..], a, b, available);
    }
  }

  /** The count of truncated messages is that of the mandatory ones which did not fit the room they met. */
  lemma TruncatedCountIs(ms: seq<Message>, contextWindow: int, maxOutput: int, f: Fitting)
    requires Fit(ms, contextWindow, maxOutput) == Ok(f)
    ensures ms != [] && forall k :: 0 <= k < |Mandatory(ms)| ==> Mandatory(ms)[k] < |ms|
    ensures f.truncated == Squeezed(ms, Mandatory(ms), f.messages, f.available)
  {
    var b := FitAnswers(ms, contextWindow, maxOutput, f);
    SqueezedIsUnchanged(ms, b, f);
  }

  lemma SqueezedIsUnchanged(ms: seq<Message>, b: Budget, f: Fitting)
    requires Answers(ms, b, f)
    ensures f.truncated == Squeezed(ms, Mandatory(ms), f.messages, f.available)
  {
    forall i: nat ensures RoomMet(ms, f.messages, f.available, i) == RoomMet(ms, b.chosen, f.available, i) {
      RoomIsUnchanged(ms, f.available, b, i);
    }
    SqueezedInBoth(ms, Mandatory(ms), f.messages, b.chosen, f.available);
  }

  /** The tokens in the output that come before message `i` gets its turn: the mandatory ones and newer messages. */
  function TokensAheadOf(chosen: seq<Chosen>, mandatory: seq<nat>, i: nat): nat {
    if chosen == [] then 0 else
      (if chosen[0].index in mandatory || chosen[0].index > i then MessageTokens(chosen[0].message) else 0)
      + TokensAheadOf(chosen[1..], mandatory, i)
  }

  lemma {:induction false} TokensAheadAdd(a: seq<Chosen>, b: seq<Chosen>, mandatory: seq<nat>, i: nat)
    ensures TokensAheadOf(a + b, mandatory, i) == TokensAheadOf(a, mandatory, i) + TokensAheadOf(b, mandatory, i)
    decreases |a|
  {
    if a == [] {
      assert a + b == b;
    } else {
      assert (a + b)[0] == a[0] && (a + b)[1..] == a[1..] + b;
      TokensAheadAdd(a[1..], b, mandatory, i);
    }
  }

  lemma {:induction false} AllAhead(chosen: seq<Chosen>, mandatory: seq<nat>, i: nat)
    requires forall k :: 0 <= k < |chosen| ==> chosen[k].index in mandatory
    ensures TokensAheadOf(chosen, mandatory, i) == TotalTokens(chosen)
    decreases |chosen|
  {
    if chosen != [] {
      AllAhead(chosen[1..], mandatory, i);
    }
  }

  lemma TokensAheadOfOne(c: Chosen, mandatory: seq<nat>, i: nat)
    ensures TokensAheadOf([c], mandatory, i) == if c.index in mandatory || c.index > i then MessageTokens(c.message) else 0
  {
    assert [c][1..] == [];
  }

  /** Among the others, a message is found exactly when it fits beside the found ones that are newer. */
  lemma {:induction false} FoundIff(ms: seq<Message>, mandatory: seq<nat>, n: nat, room: int, i: nat)
    requires n <= |ms| && i < |ms| && IsOther(ms, mandatory, i)
    ensures var ahead := TokensAheadOf(Found(ms, mandatory, n, room), mandatory, i);
            && (i < n ==> (Finds(ms, mandatory, n, room, i) <==> MessageTokens(ms[i]) + ahead <= room))
            && (i >= n - 1 ==> ahead == 0)
    decreases n
  {
    if n > 0 {
      var j := n - 1;
      if IsOther(ms, mandatory, j) && MessageTokens(ms[j]) <= room {
        FoundIff(ms, mandatory, j, room - MessageTokens(ms[j]), i);
        AheadOfOneMore(Found(ms, mandatory, j, room - MessageTokens(ms[j])), Chosen(j, ms[j]), mandatory, i);
      } else {
        FoundIff(ms, mandatory, j, room, i);
        if Finds(ms, mandatory, j, room, i) {
          FindsBelow(ms, mandatory, j, room, i);
        }
      }
    }
  }

  lemma FindsBelow(ms: seq<Message>, mandatory: seq<nat>, n: nat, room: int, i: nat)
    requires n <= |ms| && Finds(ms, mandatory, n, room, i)
    ensures i < n
  {
    FoundHas(ms, mandatory, n, room, i);
  }

  lemma AheadOfOneMore(chosen: seq<Chosen>, c: Chosen, mandatory: seq<nat>, i: nat)
    ensures TokensAheadOf(chosen + [c], mandatory, i)
         == TokensAheadOf(chosen, mandatory, i)
            + (if c.index in mandatory || c.index > i then MessageTokens(c.message) else 0)
  {
    TokensAheadAdd(chosen, [c], mandatory, i);
    TokensAheadOfOne(c, mandatory, i);
  }

  /**
   A message that is neither a system nor a mandatory one is in the output exactly when it fits beside the
   mandatory messages there and those of its kind that are newer: the newest are taken first, and none is
   passed over that fits.
   */
  lemma OtherKeptIff(ms: seq<Message>, contextWindow: int, maxOutput: int, f: Fitting, i: nat)
    requires Fit(ms, contextWindow, maxOutput) == Ok(f) && ms != [] && i < |ms|
    requires ms[i].role != System && i !in Mandatory(ms)
    ensures Includes(f.messages, i)
       <==> 4 + Estimate(ms[i].content) + TokensAheadOf(f.messages, Mandatory(ms), i) <= f.available
  {
    var b := FitAnswers(ms, contextWindow, maxOutput, f);
    OtherIsFoundIff(ms, Mandatory(ms), b, InsertionPoint(ms, b.chosen), i);
  }

  lemma OtherIsFoundIff(ms: seq<Message>, mandatory: seq<nat>, b: Budget, at: nat, i: nat)
    requires at <= |b.chosen| && i < |ms| && IsOther(ms, mandatory, i)
    requires forall k :: 0 <= k < |b.chosen| ==> b.chosen[k].index in mandatory
    ensures var output := b.chosen[..at] + Found(ms, mandatory, |ms|, b.remaining) + b.chosen[at..];
            Includes(output, i)
            <==> 4 + Estimate(ms[i].content) + TokensAheadOf(output, mandatory, i) <= TotalTokens(b.chosen) + b.remaining
  {
    var head, found, tail := b.chosen[..at], Found(ms, mandatory, |ms|, b.remaining), b.chosen[at..];
    FoundIff(ms, mandatory, |ms|, b.remaining, i);
    FoundHas(ms, mandatory, |ms|, b.remaining, i);
    assert head + tail == b.chosen;
    BesidePlaced(head, found, tail, mandatory, i);
  }

  lemma BesidePlaced(head: seq<Chosen>, found: seq<Chosen>, tail: seq<Chosen>, mandatory: seq<nat>, i: nat)
    requires forall k :: 0 <= k < |head + tail| ==> (head + tail)[k].index in mandatory
    requires i !in mandatory
    ensures TokensAheadOf(head + found + tail, mandatory, i) == TotalTokens(head + tail) + TokensAheadOf(found, mandatory, i)
    ensures Includes(head + found + tail, i) <==> Includes(found, i)
  {
    TokensAheadAdd(head + found, tail, mandatory, i);
    TokensAheadAdd(head, found, mandatory, i);
    TokensAheadAdd(head, tail, mandatory, i);
    AllAhead(head + tail, mandatory, i);
    IncludesParts(head, found, tail, i);
    IncludesEither(head, tail, i);
  }

  /** A system message other than the first is never in the output. */
  lemma OtherSystemDropped(ms: seq<Message>, contextWindow: int, maxOutput: int, f: Fitting, i: nat)
    requires Fit(ms, contextWindow, maxOutput) == Ok(f) && ms != [] && i < |ms|
    requires ms[i].role == System && i !in Mandatory(ms)
    ensures !Includes(f.messages, i)
  {
    var b := FitAnswers(ms, contextWindow, maxOutput, f);
    if Includes(f.messages, i) {
      var k :| 0 <= k < |f.messages| && f.messages[k].index == i;
      EntryIs(ms, b, k);
    }
  }

  // ---- where the messages stand -----------------------------------------------------------------------

  ghost predicate Stand(ms: seq<Message>, output: seq<Chosen>)
    requires ms != []
  {
    && (forall k :: 0 <= k < |output| && SystemIndex(ms) == Some(output[k].index) ==> k == 0)
    && (forall k :: 0 <= k < |output| && output[k].index in Mandatory(ms) && SystemIndex(ms) != Some(output[k].index)
                    ==> k == |output| - 1)
    && (forall j, k :: 0 <= j < k < |output| && output[j].index !in Mandatory(ms) && output[k].index !in Mandatory(ms)
                       ==> output[j].index < output[k].index)
  }

  /**
   The first system message stands first, the other mandatory one last, and the rest in between in the
   order of the source: with `MandatoryKeptIff`, `OtherKeptIff` and `ContentOfKept` this is the whole output.
   */
  lemma OutputPositions(ms: seq<Message>, contextWindow: int, maxOutput: int, f: Fitting)
    requires Fit(ms, contextWindow, maxOutput) == Ok(f)
    ensures ms != [] && Stand(ms, f.messages)
  {
    var b := FitAnswers(ms, contextWindow, maxOutput, f);
    PartsStand(ms, b);
  }

  lemma PartsStand(ms: seq<Message>, b: Budget)
    requires ms != [] && IsPlacing(Mandatory(ms), b)
    requires forall k :: 0 <= k < |b.chosen| ==> b.chosen[k].index in Mandatory(ms)
    ensures var at := InsertionPoint(ms, b.chosen);
            Stand(ms, b.chosen[..at] + Found(ms, Mandatory(ms), |ms|, b.remaining) + b.chosen[at..])
  {
    MandatoryIs(ms);
    MandatoryDiffer(ms);
    var found := Found(ms, Mandatory(ms), |ms|, b.remaining);
    FoundInOrder(ms, Mandatory(ms), |ms|, b.remaining);
    FoundInLittleRoom(ms, Mandatory(ms), |ms|, b.remaining);
    forall k | 0 <= k < |found| ensures found[k].index !in Mandatory(ms) {
      FoundHas(ms, Mandatory(ms), |ms|, b.remaining, found[k].index);
      assert Includes(found, found[k].index);
    }
  }

  // ---- when there is no output ------------------------------------------------------------------------

  /** A message does not fit the room it meets, and its truncation to that room never ends. */
  predicate IsStuck(m: Message, room: int) {
    4 + Estimate(m.content) > room && RunsForever(m.content, room)
  }

  /** What the system message leaves for the user message when it carries `content`. */
  function RoomBehind(m: Message, room: int, content: string): int {
    if 4 + Estimate(m.content) <= room || room >= 7 then room - 4 - Estimate(content) else room
  }

  /** With good arguments there is an answer, unless one of the mandatory messages is stuck in the room it meets. */
  lemma HangsIff(ms: seq<Message>, contextWindow: int, maxOutput: int)
    requires ms != [] && 0 < maxOutput < contextWindow
    ensures forall k :: 0 <= k < |Mandatory(ms)| ==> Mandatory(ms)[k] < |ms|
    ensures 1 <= |Mandatory(ms)| <= 2
    ensures var available, idx := contextWindow - maxOutput, Mandatory(ms);
            Fit(ms, contextWindow, maxOutput) == Hangs
            <==> || IsStuck(ms[idx[0]], available)
                 || (|idx| == 2 && exists content :: Carries(ms[idx[0]].content, available, content)
                                                     && IsStuck(ms[idx[1]], RoomBehind(ms[idx[0]], available, content)))
    ensures Fit(ms, contextWindow, maxOutput) != Hangs ==> Fit(ms, contextWindow, maxOutput).Ok?
  {
    MandatoryInRange(ms);
    MandatoryIs(ms);
    PlacingHangsIff(ms, Mandatory(ms), Budget([], contextWindow - maxOutput, 0));
  }

  lemma PlacingHangsIff(ms: seq<Message>, idx: seq<nat>, b: Budget)
    requires 1 <= |idx| <= 2 && forall k :: 0 <= k < |idx| ==> idx[k] < |ms|
    ensures PlaceAll(ms, idx, b) == None
       <==> || IsStuck(ms[idx[0]], b.remaining)
            || (|idx| == 2 && exists content :: Carries(ms[idx[0]].content, b.remaining, content)
                                                && IsStuck(ms[idx[1]], RoomBehind(ms[idx[0]], b.remaining, content)))
  {
    var i := idx[0];
    if |idx| == 1 {
      assert idx == [i];
      PlaceAllOne(ms, i, b);
    } else {
      assert idx == [i, idx[1]];
      PlaceAllTwo(ms, i, idx[1], b);
      if PlaceOne(ms[i], i, b).Some? {
        RoomBehindIs(ms[i], i, b);
      }
    }
  }

  lemma RoomBehindIs(m: Message, i: nat, b: Budget)
    requires PlaceOne(m, i, b).Some?
    ensures exists content :: Carries(m.content, b.remaining, content)
    ensures forall content :: Carries(m.content, b.remaining, content)
                              ==> RoomBehind(m, b.remaining, content) == PlaceOne(m, i, b).value.remaining
  {
    var kept := PlacedCarries(m, i, b);
    if MessageTokens(m) > b.remaining {
      TruncatedCarries(m.content, b.remaining);
    } else {
      assert Carries(m.content, b.remaining, m.content);
    }
    forall content | Carries(m.content, b.remaining, content)
      ensures RoomBehind(m, b.remaining, content) == PlaceOne(m, i, b).value.remaining
    {
      if |kept| == 1 {
        CarriedIsUnique(m.content, b.remaining, content, kept[0].message.content);
        TokensOfOne(kept[0]);
        assert kept == [kept[0]];
      }
    }
  }
}
