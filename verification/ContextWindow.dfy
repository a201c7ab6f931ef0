/**
 Fitting a chat into a model's context window: the first system message and the newest user message are
 placed first, truncated if need be, and the remaining room is filled with the newest other messages.
 A message is identified by its position in the source.
 */
module ContextWindow {
  import opened Options
  import opened Text
  import opened Tokens
  import opened Truncation

  datatype Role = System | User | Assistant | Tool

  datatype Message = Message(role: Role, content: string)

  datatype Chosen = Chosen(index: nat, message: Message)

  datatype Fitting = Fitting(
    messages: seq<Chosen>,
    promptTokens: nat,
    dropped: int,
    truncated: nat,
    available: int)

  /** Hangs stands for a truncation that never returns. */
  datatype Result<+T> = Ok(value: T) | ValueError(reason: string) | Hangs

  function MessageTokens(m: Message): nat {
    4 + Estimate(m.content)
  }

  function TotalTokens(chosen: seq<Chosen>): nat {
    if chosen == [] then 0 else MessageTokens(chosen[0].message) + TotalTokens(chosen[1..])
  }

  /** The state of the filling: what is selected, the room left, and how many were truncated. */
  datatype Budget = Budget(chosen: seq<Chosen>, remaining: int, truncated: nat)

  // ---- which messages are mandatory ---------------------------------------------------------------

  function FirstOf(ms: seq<Message>, role: Role, from: nat): Option<nat>
    requires from <= |ms|
    decreases |ms| - from
  {
    if from == |ms| then None else if ms[from].role == role then Some(from) else FirstOf(ms, role, from + 1)
  }

  function LastOf(ms: seq<Message>, role: Role, upTo: nat): Option<nat>
    requires upTo <= |ms|
  {
    if upTo == 0 then None else if ms[upTo - 1].role == role then Some(upTo - 1) else LastOf(ms, role, upTo - 1)
  }

  function SystemIndex(ms: seq<Message>): Option<nat> {
    FirstOf(ms, System, 0)
  }

  function LastUserIndex(ms: seq<Message>): Option<nat> {
    LastOf(ms, User, |ms|)
  }

  function Present(i: Option<nat>): seq<nat> {
    if i.Some? then [i.value] else []
  }

  function Mandatory(ms: seq<Message>): (idx: seq<nat>)
    requires ms != []
  {
    var both := Present(SystemIndex(ms)) + Present(LastUserIndex(ms));
    if both == [] then [|ms| - 1] else both
  }

  predicate IsOther(ms: seq<Message>, mandatory: seq<nat>, i: nat)
    requires i < |ms|
  {
    i !in mandatory && ms[i].role != System
  }

  // ---- the two phases, as functions ---------------------------------------------------------------

  /** Placing one mandatory message; None when its truncation never returns. */
  function PlaceOne(m: Message, i: nat, b: Budget): Option<Budget> {
    if MessageTokens(m) <= b.remaining then
      Some(Budget(b.chosen + [Chosen(i, m)], b.remaining - MessageTokens(m), b.truncated))
    else if RunsForever(m.content, b.remaining) then
      None
    else
      var short := m.(content := Truncated(m.content, b.remaining));
      if MessageTokens(short) <= b.remaining then
        Some(Budget(b.chosen + [Chosen(i, short)], b.remaining - MessageTokens(short), b.truncated + 1))
      else
        Some(b.(truncated := b.truncated + 1))
  }

  function PlaceAll(ms: seq<Message>, idx: seq<nat>, b: Budget): Option<Budget>
    requires forall k :: 0 <= k < |idx| ==> idx[k] < |ms|
  {
    if idx == [] then Some(b) else
      match PlaceOne(ms[idx[0]], idx[0], b)
      case None => None
      case Some(b') => PlaceAll(ms, idx[1..], b')
  }

  /** Adding one of the other messages, if it fits, right behind a leading system message. */
  function AddOne(m: Message, i: nat, behindFirst: bool, b: Budget): Budget {
    if MessageTokens(m) > b.remaining then b else
      var at := if behindFirst && b.chosen != [] then 1 else 0;
      Budget(b.chosen[..at] + [Chosen(i, m)] + b.chosen[at..], b.remaining - MessageTokens(m), b.truncated)
  }

  /** Going through the others among the first `n` messages, newest first. */
  function AddOthers(ms: seq<Message>, mandatory: seq<nat>, n: nat, behindFirst: bool, b: Budget): Budget
    requires n <= |ms|
    decreases n
  {
    if n == 0 then b else
      var i := n - 1;
      AddOthers(ms, mandatory, i, behindFirst, if IsOther(ms, mandatory, i) then AddOne(ms[i], i, behindFirst, b) else b)
  }

  lemma MandatoryInRange(ms: seq<Message>)
    requires ms != []
    ensures forall k :: 0 <= k < |Mandatory(ms)| ==> Mandatory(ms)[k] < |ms|
    ensures forall j, k :: 0 <= j < k < |Mandatory(ms)| ==> Mandatory(ms)[j] != Mandatory(ms)[k]
  {
    FirstIs(ms, System, 0);
    LastIs(ms, User, |ms|);
  }

  lemma {:induction false} FirstIs(ms: seq<Message>, role: Role, from: nat)
    requires from <= |ms|
    ensures var r := FirstOf(ms, role, from);
            && (r.Some? ==> from <= r.value < |ms| && ms[r.value].role == role)
            && (forall i :: from <= i < (if r.Some? then r.value else |ms|) ==> ms[i].role != role)
    decreases |ms| - from
  {
    if from < |ms| && ms[from].role != role {
      FirstIs(ms, role, from + 1);
    }
  }

  lemma {:induction false} LastIs(ms: seq<Message>, role: Role, upTo: nat)
    requires upTo <= |ms|
    ensures var r := LastOf(ms, role, upTo);
            && (r.Some? ==> r.value < upTo && ms[r.value].role == role)
            && (forall i :: (if r.Some? then r.value + 1 else 0) <= i < upTo ==> ms[i].role != role)
    decreases upTo
  {
    if upTo > 0 && ms[upTo - 1].role != role {
      LastIs(ms, role, upTo - 1);
    }
  }

  function Fit(ms: seq<Message>, contextWindow: int, maxOutput: int): Result<Fitting> {
    if contextWindow <= 0 then ValueError("context_window_tokens must be positive")
    else if maxOutput <= 0 then ValueError("max_output_tokens must be positive")
    else if maxOutput >= contextWindow then ValueError("max_output_tokens must be smaller than context_window_tokens")
    else if ms == [] then ValueError("messages must not be empty")
    else FitWithin(ms, contextWindow - maxOutput)
  }

  function FitWithin(ms: seq<Message>, available: int): Result<Fitting>
    requires ms != []
  {
    MandatoryInRange(ms);
    match PlaceAll(ms, Mandatory(ms), Budget([], available, 0))
    case None => Hangs
    case Some(b) =>
      var filled := AddOthers(ms, Mandatory(ms), |ms|, SystemIndex(ms).Some?, b);
      Ok(Fitting(filled.chosen, TotalTokens(filled.chosen), |ms| - |filled.chosen|, filled.truncated, available))
  }

  method FitContextWindow(ms: seq<Message>, contextWindow: int, maxOutput: int) returns (r: Result<Fitting>)
    ensures r == Fit(ms, contextWindow, maxOutput)
  {
    if contextWindow <= 0 {
      return ValueError("context_window_tokens must be positive");
    }
    if maxOutput <= 0 {
      return ValueError("max_output_tokens must be positive");
    }
    if maxOutput >= contextWindow {
      return ValueError("max_output_tokens must be smaller than context_window_tokens");
    }
    if ms == [] {
      return ValueError("messages must not be empty");
    }
    r := FillWindow(ms, contextWindow - maxOutput);
  }

  /** The two phases, once the arguments are known to be good. */
  method FillWindow(ms: seq<Message>, available: int) returns (r: Result<Fitting>)
    requires ms != []
    ensures r == FitWithin(ms, available)
  {
    var mandatory := Mandatory(ms);
    MandatoryInRange(ms);
    var placed := PlaceMandatory(ms, mandatory, available);
    assert placed == PlaceAll(ms, Mandatory(ms), Budget([], available, 0));
    if placed == None {
      return Hangs;
    }
    var b := FillRemaining(ms, mandatory, SystemIndex(ms).Some?, placed.value);
    return Ok(Fitting(b.chosen, TotalTokens(b.chosen), |ms| - |b.chosen|, b.truncated, available));
  }

  /** The first loop. */
  method PlaceMandatory(ms: seq<Message>, mandatory: seq<nat>, available: int) returns (r: Option<Budget>)
    requires forall k :: 0 <= k < |mandatory| ==> mandatory[k] < |ms|
    ensures r == PlaceAll(ms, mandatory, Budget([], available, 0))
  {
    var b := Budget([], available, 0);
    var k := 0;
    while k < |mandatory|
      invariant k <= |mandatory|
      invariant PlaceAll(ms, mandatory, Budget([], available, 0)) == PlaceAll(ms, mandatory[k..], b)
    {
      var i := mandatory[k];
      assert mandatory[k..][0] == i && mandatory[k..][1..] == mandatory[k + 1..];
      ghost var b0 := b;
      var message := ms[i];
      var tokens := MessageTokens(message);
      if tokens > b.remaining {
        if RunsForever(message.content, b.remaining) {
          return None;
        }
        var content := TruncateMessage(message.content, b.remaining);
        message := message.(content := content);
        tokens := MessageTokens(message);
        b := b.(truncated := b.truncated + 1);
      }
      if tokens <= b.remaining {
        b := b.(chosen := b.chosen + [Chosen(i, message)], remaining := b.remaining - tokens);
      }
      assert PlaceOne(ms[i], i, b0) == Some(b);
      k := k + 1;
    }
    return Some(b);
  }

  /** The second loop. */
  method FillRemaining(ms: seq<Message>, mandatory: seq<nat>, behindFirst: bool, placed: Budget) returns (b: Budget)
    ensures b == AddOthers(ms, mandatory, |ms|, behindFirst, placed)
  {
    b := placed;
    var n := |ms|;
    while n > 0
      invariant 0 <= n <= |ms|
      invariant AddOthers(ms, mandatory, |ms|, behindFirst, placed) == AddOthers(ms, mandatory, n, behindFirst, b)
    {
      n := n - 1;
      if n !in mandatory && ms[n].role != System {
        var tokens := MessageTokens(ms[n]);
        if tokens <= b.remaining {
          var at := if behindFirst && b.chosen != [] then 1 else 0;
          b := b.(chosen := b.chosen[..at] + [Chosen(n, ms[n])] + b.chosen[at..], remaining := b.remaining - tokens);
        }
      }
    }
  }

  // ---- what every step keeps ----------------------------------------------------------------------

  lemma {:induction false} TotalTokensAdd(a: seq<Chosen>, b: seq<Chosen>)
    ensures TotalTokens(a + b) == TotalTokens(a) + TotalTokens(b)
    decreases |a|
  {
    if a == [] {
      assert a + b == b;
    } else {
      assert (a + b)[1..] == a[1..] + b;
      TotalTokensAdd(a[1..], b);
    }
  }

  lemma TokensOfInsertion(a: seq<Chosen>, c: Chosen, b: seq<Chosen>)
    ensures TotalTokens(a + [c] + b) == TotalTokens(a + b) + MessageTokens(c.message)
  {
    TotalTokensAdd(a + [c], b);
    TotalTokensAdd(a, [c]);
    TotalTokensAdd(a, b);
  }

  /** A chosen message is a source message, or a mandatory one with only its content shortened. */
  predicate Genuine(ms: seq<Message>, mandatory: seq<nat>, c: Chosen) {
    && c.index < |ms|
    && (c.message == ms[c.index] || (c.index in mandatory && c.message.role == ms[c.index].role))
    && (c.index in mandatory || IsOther(ms, mandatory, c.index))
  }

  ghost predicate Keeps(ms: seq<Message>, mandatory: seq<nat>, available: int, b: Budget) {
    && TotalTokens(b.chosen) + b.remaining == available
    && b.remaining >= 0
    && forall k :: 0 <= k < |b.chosen| ==> Genuine(ms, mandatory, b.chosen[k])
  }

  lemma PlaceOneKeeps(ms: seq<Message>, mandatory: seq<nat>, available: int, i: nat, b: Budget)
    requires i < |ms| && i in mandatory && Keeps(ms, mandatory, available, b)
    ensures var r := PlaceOne(ms[i], i, b);
            r.Some? ==> && Keeps(ms, mandatory, available, r.value)
                        && (r.value.chosen == b.chosen
                            || exists c: Chosen :: c.index == i && r.value.chosen == b.chosen + [c])
  {
    var r := PlaceOne(ms[i], i, b);
    if r.Some? && r.value.chosen != b.chosen {
      var c := r.value.chosen[|b.chosen|];
      assert r.value.chosen == b.chosen + [c];
      TotalTokensAdd(b.chosen, [c]);
    }
  }

  lemma {:induction false} PlaceAllKeeps(ms: seq<Message>, mandatory: seq<nat>, available: int, idx: seq<nat>, b: Budget)
    requires forall k :: 0 <= k < |idx| ==> idx[k] < |ms| && idx[k] in mandatory
    requires Keeps(ms, mandatory, available, b)
    ensures var r := PlaceAll(ms, idx, b); r.Some? ==> Keeps(ms, mandatory, available, r.value)
    decreases |idx|
  {
    if idx != [] {
      PlaceOneKeeps(ms, mandatory, available, idx[0], b);
      var r := PlaceOne(ms[idx[0]], idx[0], b);
      if r.Some? {
        PlaceAllKeeps(ms, mandatory, available, idx[1..], r.value);
      }
    }
  }

  lemma AddOneKeeps(ms: seq<Message>, mandatory: seq<nat>, available: int, i: nat, behindFirst: bool, b: Budget)
    requires i < |ms| && IsOther(ms, mandatory, i) && Keeps(ms, mandatory, available, b)
    ensures Keeps(ms, mandatory, available, AddOne(ms[i], i, behindFirst, b))
  {
    var at := if behindFirst && b.chosen != [] then 1 else 0;
    assert b.chosen == b.chosen[..at] + b.chosen[at..];
    TokensOfInsertion(b.chosen[..at], Chosen(i, ms[i]), b.chosen[at..]);
  }

  lemma {:induction false} AddOthersKeeps(ms: seq<Message>, mandatory: seq<nat>, available: int, n: nat, behindFirst: bool, b: Budget)
    requires n <= |ms| && Keeps(ms, mandatory, available, b)
    ensures Keeps(ms, mandatory, available, AddOthers(ms, mandatory, n, behindFirst, b))
    ensures AddOthers(ms, mandatory, n, behindFirst, b).remaining <= b.remaining
    decreases n
  {
    if n > 0 {
      var i := n - 1;
      if IsOther(ms, mandatory, i) {
        AddOneKeeps(ms, mandatory, available, i, behindFirst, b);
      }
      AddOthersKeeps(ms, mandatory, available, i, behindFirst,
                     if IsOther(ms, mandatory, i) then AddOne(ms[i], i, behindFirst, b) else b);
    }
  }

  /** Selected tokens and remaining room always add up, so the prompt never exceeds what the output leaves. */
  lemma PromptFits(ms: seq<Message>, contextWindow: int, maxOutput: int)
    requires Fit(ms, contextWindow, maxOutput).Ok?
    ensures var f := Fit(ms, contextWindow, maxOutput).value;
            && f.promptTokens == TotalTokens(f.messages) <= f.available == contextWindow - maxOutput
            && f.dropped == |ms| - |f.messages|
            && forall k :: 0 <= k < |f.messages| ==> Genuine(ms, Mandatory(ms), f.messages[k])
  {
    MandatoryInRange(ms);
    var available, mandatory := contextWindow - maxOutput, Mandatory(ms);
    var b := Budget([], available, 0);
    PlaceAllKeeps(ms, mandatory, available, mandatory, b);
    AddOthersKeeps(ms, mandatory, available, |ms|, SystemIndex(ms).Some?, PlaceAll(ms, mandatory, b).value);
  }

  // ---- nothing that fits is dropped ---------------------------------------------------------------

  predicate Includes(chosen: seq<Chosen>, i: nat) {
    exists k :: 0 <= k < |chosen| && chosen[k].index == i
  }

  lemma {:induction false} AddOthersIsGreedy(ms: seq<Message>, mandatory: seq<nat>, available: int, n: nat, behindFirst: bool, b: Budget)
    requires n <= |ms| && Keeps(ms, mandatory, available, b)
    ensures var r := AddOthers(ms, mandatory, n, behindFirst, b);
            && (forall i: nat :: i < n && IsOther(ms, mandatory, i) ==>
                  Includes(r.chosen, i) || MessageTokens(ms[i]) > r.remaining)
            && (forall i: nat :: Includes(b.chosen, i) ==> Includes(r.chosen, i))
    decreases n
  {
    if n > 0 {
      var i := n - 1;
      var other := IsOther(ms, mandatory, i);
      var b' := if other then AddOne(ms[i], i, behindFirst, b) else b;
      if other {
        AddOneKeeps(ms, mandatory, available, i, behindFirst, b);
        AddOneIncludes(ms[i], i, behindFirst, b);
      }
      AddOthersIsGreedy(ms, mandatory, available, i, behindFirst, b');
      AddOthersKeeps(ms, mandatory, available, i, behindFirst, b');
    }
  }

  lemma AddOneIncludes(m: Message, i: nat, behindFirst: bool, b: Budget)
    ensures var b' := AddOne(m, i, behindFirst, b);
            && (forall j: nat :: Includes(b.chosen, j) ==> Includes(b'.chosen, j))
            && (MessageTokens(m) <= b.remaining ==> Includes(b'.chosen, i))
  {
    if MessageTokens(m) <= b.remaining {
      var b' := AddOne(m, i, behindFirst, b);
      var at := if behindFirst && b.chosen != [] then 1 else 0;
      assert b'.chosen[at].index == i;
      forall j: nat | Includes(b.chosen, j) ensures Includes(b'.chosen, j) {
        var k :| 0 <= k < |b.chosen| && b.chosen[k].index == j;
        assert b'.chosen[if k < at then k else k + 1] == b.chosen[k];
      }
    }
  }

  /** Every message that was dropped without being a system or mandatory one would overflow the room finally left. */
  lemma DroppedWouldOverflow(ms: seq<Message>, contextWindow: int, maxOutput: int, i: nat)
    requires Fit(ms, contextWindow, maxOutput).Ok? && i < |ms| && IsOther(ms, Mandatory(ms), i)
    requires !Includes(Fit(ms, contextWindow, maxOutput).value.messages, i)
    ensures var f := Fit(ms, contextWindow, maxOutput).value;
            f.promptTokens + MessageTokens(ms[i]) > f.available
  {
    MandatoryInRange(ms);
    var available, mandatory := contextWindow - maxOutput, Mandatory(ms);
    var b := Budget([], available, 0);
    PlaceAllKeeps(ms, mandatory, available, mandatory, b);
    var placed := PlaceAll(ms, mandatory, b).value;
    AddOthersIsGreedy(ms, mandatory, available, |ms|, SystemIndex(ms).Some?, placed);
    AddOthersKeeps(ms, mandatory, available, |ms|, SystemIndex(ms).Some?, placed);
  }

  // ---- the selection in closed form -----------------------------------------------------------------

  /** The others that the second loop takes, below `n` and with `room` left, in the order of the source. */
  function Found(ms: seq<Message>, mandatory: seq<nat>, n: nat, room: int): seq<Chosen>
    requires n <= |ms|
  {
    if n == 0 then [] else
      var i := n - 1;
      if IsOther(ms, mandatory, i) && MessageTokens(ms[i]) <= room then
        Found(ms, mandatory, i, room - MessageTokens(ms[i])) + [Chosen(i, ms[i])]
      else
        Found(ms, mandatory, i, room)
  }

  /** Where the others go among the mandatory messages that were placed. */
  function InsertionPoint(ms: seq<Message>, placed: seq<Chosen>): (at: nat)
    ensures at <= |placed|
  {
    if SystemIndex(ms).Some? && placed != [] then 1 else 0
  }

  lemma {:induction false} AddOthersInserts(ms: seq<Message>, mandatory: seq<nat>, n: nat, behindFirst: bool,
                                           head: seq<Chosen>, middle: seq<Chosen>, tail: seq<Chosen>, b: Budget)
    requires n <= |ms| && b.chosen == head + middle + tail
    requires |head| == if behindFirst then 1 else 0
    ensures AddOthers(ms, mandatory, n, behindFirst, b).chosen
         == head + (Found(ms, mandatory, n, b.remaining) + middle) + tail
    decreases n
  {
    if n > 0 {
      var i := n - 1;
      if IsOther(ms, mandatory, i) && MessageTokens(ms[i]) <= b.remaining {
        var c := Chosen(i, ms[i]);
        var b' := AddOne(ms[i], i, behindFirst, b);
        var found := Found(ms, mandatory, i, b'.remaining);
        assert b'.chosen == head + ([c] + middle) + tail;
        AddOthersInserts(ms, mandatory, i, behindFirst, head, [c] + middle, tail, b');
        assert found + ([c] + middle) == found + [c] + middle;
      } else {
        AddOthersInserts(ms, mandatory, i, behindFirst, head, middle, tail, b);
      }
    } else {
      assert [] + middle == middle;
    }
  }

  /** With less than seven tokens of room at most one other message is taken. */
  lemma {:induction false} FoundInLittleRoom(ms: seq<Message>, mandatory: seq<nat>, n: nat, room: int)
    requires n <= |ms|
    ensures room < 4 ==> Found(ms, mandatory, n, room) == []
    ensures room < 7 ==> |Found(ms, mandatory, n, room)| <= 1
    decreases n
  {
    if n > 0 {
      var i := n - 1;
      FoundInLittleRoom(ms, mandatory, i, room);
      FoundInLittleRoom(ms, mandatory, i, room - MessageTokens(ms[i]));
    }
  }

  /** When nothing was placed behind which to insert, there is room for one message only. */
  lemma {:induction false} AddOthersToNothing(ms: seq<Message>, mandatory: seq<nat>, n: nat, behindFirst: bool, b: Budget)
    requires n <= |ms| && b.chosen == [] && b.remaining < 7
    ensures AddOthers(ms, mandatory, n, behindFirst, b).chosen == Found(ms, mandatory, n, b.remaining)
    decreases n
  {
    if n > 0 {
      var i := n - 1;
      if IsOther(ms, mandatory, i) && MessageTokens(ms[i]) <= b.remaining {
        var c := Chosen(i, ms[i]);
        var b' := AddOne(ms[i], i, behindFirst, b);
        assert b'.chosen == [c];
        FoundInLittleRoom(ms, mandatory, i, b'.remaining);
        AddNothing(ms, mandatory, i, behindFirst, b');
      } else {
        AddOthersToNothing(ms, mandatory, i, behindFirst, b);
      }
    }
  }

  lemma {:induction false} AddNothing(ms: seq<Message>, mandatory: seq<nat>, n: nat, behindFirst: bool, b: Budget)
    requires n <= |ms| && b.remaining < 4
    ensures AddOthers(ms, mandatory, n, behindFirst, b) == b
    decreases n
  {
    if n > 0 {
      AddNothing(ms, mandatory, n - 1, behindFirst, b);
    }
  }

  /** A mandatory message is only left out when fewer than seven tokens remain. */
  lemma DroppedOnlyWhenTiny(m: Message, i: nat, b: Budget)
    ensures var r := PlaceOne(m, i, b);
            r.Some? && r.value.chosen == b.chosen ==> b.remaining < 7 && r.value.remaining == b.remaining
    ensures var r := PlaceOne(m, i, b);
            r.Some? && r.value.chosen != b.chosen ==>
              && |r.value.chosen| == |b.chosen| + 1 && r.value.chosen[..|b.chosen|] == b.chosen
              && r.value.chosen[|b.chosen|].index == i && r.value.remaining <= b.remaining - 4
  {
    MarkerAlone();
  }

  lemma {:induction false} NothingPlaced(ms: seq<Message>, idx: seq<nat>, b: Budget)
    requires forall k :: 0 <= k < |idx| ==> idx[k] < |ms|
    requires PlaceAll(ms, idx, b).Some?
    ensures var r := PlaceAll(ms, idx, b).value;
            |b.chosen| <= |r.chosen| && (idx != [] && r.chosen == [] ==> r.remaining < 7)
    decreases |idx|
  {
    if idx != [] {
      DroppedOnlyWhenTiny(ms[idx[0]], idx[0], b);
      var one := PlaceOne(ms[idx[0]], idx[0], b).value;
      NothingPlaced(ms, idx[1..], one);
      if idx[1..] == [] {
        assert PlaceAll(ms, idx[1..], one) == Some(one);
      }
    }
  }

  /** The budget after the mandatory messages. */
  function Placed(ms: seq<Message>, available: int): Option<Budget>
    requires ms != []
  {
    MandatoryInRange(ms);
    PlaceAll(ms, Mandatory(ms), Budget([], available, 0))
  }

  lemma FitIs(ms: seq<Message>, contextWindow: int, maxOutput: int)
    requires Fit(ms, contextWindow, maxOutput).Ok?
    ensures ms != [] && Placed(ms, contextWindow - maxOutput).Some?
    ensures Fit(ms, contextWindow, maxOutput).value.messages
         == AddOthers(ms, Mandatory(ms), |ms|, SystemIndex(ms).Some?, Placed(ms, contextWindow - maxOutput).value).chosen
  {
  }

  lemma AllAdded(ms: seq<Message>, mandatory: seq<nat>, at: nat, behindFirst: bool, b: Budget)
    requires at <= |b.chosen| && at == if behindFirst then 1 else 0
    ensures AddOthers(ms, mandatory, |ms|, behindFirst, b).chosen
         == b.chosen[..at] + Found(ms, mandatory, |ms|, b.remaining) + b.chosen[at..]
  {
    assert b.chosen == b.chosen[..at] + [] + b.chosen[at..];
    AddOthersInserts(ms, mandatory, |ms|, behindFirst, b.chosen[..at], [], b.chosen[at..], b);
    assert Found(ms, mandatory, |ms|, b.remaining) + [] == Found(ms, mandatory, |ms|, b.remaining);
  }

  lemma AddedAlone(found: seq<Chosen>, placed: seq<Chosen>, at: nat)
    requires placed == [] && at == 0
    ensures placed[..at] + found + placed[at..] == found
  {
  }

  /** The output: the mandatory messages that were placed, with the found others, in source order, at one point among them. */
  lemma SelectionIs(ms: seq<Message>, contextWindow: int, maxOutput: int)
    requires Fit(ms, contextWindow, maxOutput).Ok?
    ensures ms != [] && Placed(ms, contextWindow - maxOutput).Some?
    ensures var b := Placed(ms, contextWindow - maxOutput).value;
            var at := InsertionPoint(ms, b.chosen);
            Fit(ms, contextWindow, maxOutput).value.messages
            == b.chosen[..at] + Found(ms, Mandatory(ms), |ms|, b.remaining) + b.chosen[at..]
  {
    FitIs(ms, contextWindow, maxOutput);
    MandatoryInRange(ms);
    var behind, mandatory := SystemIndex(ms).Some?, Mandatory(ms);
    var b := Placed(ms, contextWindow - maxOutput).value;
    var at := InsertionPoint(ms, b.chosen);
    if behind && b.chosen == [] {
      NothingPlaced(ms, mandatory, Budget([], contextWindow - maxOutput, 0));
      AddOthersToNothing(ms, mandatory, |ms|, behind, b);
      AddedAlone(Found(ms, mandatory, |ms|, b.remaining), b.chosen, at);
    } else {
      AllAdded(ms, mandatory, at, behind, b);
    }
  }

  // ---- order --------------------------------------------------------------------------------------

  ghost predicate Chronological(chosen: seq<Chosen>) {
    forall j, k :: 0 <= j < k < |chosen| ==> chosen[j].index < chosen[k].index
  }

  /**
   Whether the second loop reaches message `j` below `n` with enough of the `room` left: only token counts
   matter.
   */
  predicate Finds(ms: seq<Message>, mandatory: seq<nat>, n: nat, room: int, j: nat)
    requires n <= |ms|
  {
    n > 0 &&
    var i := n - 1;
    if IsOther(ms, mandatory, i) && MessageTokens(ms[i]) <= room then
      j == i || Finds(ms, mandatory, i, room - MessageTokens(ms[i]), j)
    else
      Finds(ms, mandatory, i, room, j)
  }

  /** Message `j` lies behind the first `at` placed messages and before the rest of them. */
  predicate Between(placed: seq<Chosen>, at: nat, j: nat)
    requires at <= |placed|
  {
    && (forall k :: 0 <= k < at ==> placed[k].index < j)
    && (forall k :: at <= k < |placed| ==> j < placed[k].index)
  }

  lemma {:induction false} FoundInOrder(ms: seq<Message>, mandatory: seq<nat>, n: nat, room: int)
    requires n <= |ms|
    ensures var found := Found(ms, mandatory, n, room);
            Chronological(found) && forall k :: 0 <= k < |found| ==> found[k].index < n
    decreases n
  {
    if n > 0 {
      FoundInOrder(ms, mandatory, n - 1, room);
      FoundInOrder(ms, mandatory, n - 1, room - MessageTokens(ms[n - 1]));
    }
  }

  lemma IncludesAppend(chosen: seq<Chosen>, c: Chosen, j: nat)
    ensures Includes(chosen + [c], j) <==> Includes(chosen, j) || c.index == j
  {
    var all := chosen + [c];
    assert all[|chosen|] == c;
    assert forall k :: 0 <= k < |chosen| ==> all[k] == chosen[k];
  }

  lemma {:induction false} FoundHas(ms: seq<Message>, mandatory: seq<nat>, n: nat, room: int, j: nat)
    requires n <= |ms|
    ensures Includes(Found(ms, mandatory, n, room), j) <==> Finds(ms, mandatory, n, room, j)
    ensures Finds(ms, mandatory, n, room, j) ==> IsFound(ms, mandatory, n, j)
    decreases n
  {
    if n > 0 {
      var i := n - 1;
      if IsOther(ms, mandatory, i) && MessageTokens(ms[i]) <= room {
        FoundHas(ms, mandatory, i, room - MessageTokens(ms[i]), j);
        IncludesAppend(Found(ms, mandatory, i, room - MessageTokens(ms[i])), Chosen(i, ms[i]), j);
      } else {
        FoundHas(ms, mandatory, i, room, j);
      }
    }
  }

  /** Whether message `j` is one of the others below `n`. */
  predicate IsFound(ms: seq<Message>, mandatory: seq<nat>, n: nat, j: nat)
    requires n <= |ms|
  {
    j < n && IsOther(ms, mandatory, j)
  }

  lemma InsertionKeepsOrderIff(placed: seq<Chosen>, at: nat, found: seq<Chosen>)
    requires at <= |placed| && Chronological(found)
    ensures Chronological(placed[..at] + found + placed[at..])
       <==> Chronological(placed) && forall k :: 0 <= k < |found| ==> Between(placed, at, found[k].index)
  {
    var all, n := placed[..at] + found + placed[at..], |found|;
    assert forall k :: 0 <= k < at ==> all[k] == placed[k];
    assert forall k :: 0 <= k < n ==> all[at + k] == found[k];
    assert forall k :: at <= k < |placed| ==> all[n + k] == placed[k];
    if Chronological(all) {
      forall j, k | 0 <= j < k < |placed| ensures placed[j].index < placed[k].index {
        assert all[if j < at then j else n + j].index < all[if k < at then k else n + k].index;
      }
      forall k | 0 <= k < n ensures Between(placed, at, found[k].index) {
        assert all[at + k] == found[k];
        forall j | 0 <= j < at ensures placed[j].index < found[k].index {
          assert all[j].index < all[at + k].index;
        }
        forall j | at <= j < |placed| ensures found[k].index < placed[j].index {
          assert all[at + k].index < all[n + j].index;
        }
      }
    }
  }

  /** Every other message that the loop finds room for lies between the two sides of the insertion point. */
  ghost predicate FoundBetween(ms: seq<Message>, b: Budget)
    requires ms != []
  {
    forall j: nat :: Finds(ms, Mandatory(ms), |ms|, b.remaining, j) ==> Between(b.chosen, InsertionPoint(ms, b.chosen), j)
  }

  /**
   The output is in the order of the source exactly when the mandatory messages that were placed are, and
   every other message that the loop finds room for lies between the two sides of the insertion point.
   */
  lemma OutputIsChronologicalIff(ms: seq<Message>, contextWindow: int, maxOutput: int)
    requires Fit(ms, contextWindow, maxOutput).Ok?
    ensures ms != [] && Placed(ms, contextWindow - maxOutput).Some?
    ensures var b := Placed(ms, contextWindow - maxOutput).value;
            Chronological(Fit(ms, contextWindow, maxOutput).value.messages) <==> Chronological(b.chosen) && FoundBetween(ms, b)
  {
    SelectionIs(ms, contextWindow, maxOutput);
    MandatoryInRange(ms);
    var b := Placed(ms, contextWindow - maxOutput).value;
    OrderedInsertionIff(ms, Mandatory(ms), b, InsertionPoint(ms, b.chosen));
  }

  lemma OrderedInsertionIff(ms: seq<Message>, mandatory: seq<nat>, b: Budget, at: nat)
    requires at <= |b.chosen|
    ensures Chronological(b.chosen[..at] + Found(ms, mandatory, |ms|, b.remaining) + b.chosen[at..])
       <==> && Chronological(b.chosen)
            && forall j: nat :: Finds(ms, mandatory, |ms|, b.remaining, j) ==> Between(b.chosen, at, j)
  {
    var found := Found(ms, mandatory, |ms|, b.remaining);
    FoundInOrder(ms, mandatory, |ms|, b.remaining);
    InsertionKeepsOrderIff(b.chosen, at, found);
    forall j: nat ensures Finds(ms, mandatory, |ms|, b.remaining, j) <==> Includes(found, j) {
      FoundHas(ms, mandatory, |ms|, b.remaining, j);
    }
    assert forall k :: 0 <= k < |found| ==> Includes(found, found[k].index);
  }

  // ---- order, read off the conversation --------------------------------------------------------------

  /** What the others among the first `n` messages cost. */
  function OthersCost(ms: seq<Message>, mandatory: seq<nat>, n: nat): nat
    requires n <= |ms|
  {
    if n == 0 then 0 else
      OthersCost(ms, mandatory, n - 1) + if IsOther(ms, mandatory, n - 1) then MessageTokens(ms[n - 1]) else 0
  }

  lemma {:induction false} AllFound(ms: seq<Message>, mandatory: seq<nat>, n: nat, room: int, j: nat)
    requires n <= |ms| && OthersCost(ms, mandatory, n) <= room
    ensures Finds(ms, mandatory, n, room, j) <==> IsFound(ms, mandatory, n, j)
    decreases n
  {
    if n > 0 {
      AllFound(ms, mandatory, n - 1, room - if IsOther(ms, mandatory, n - 1) then MessageTokens(ms[n - 1]) else 0, j);
    }
  }

  /** From position `from` on, the chosen messages are some of those numbered `idx`, in that order. */
  predicate Follow(chosen: seq<Chosen>, from: nat, idx: seq<nat>)
    requires from <= |chosen|
    decreases |idx|
  {
    if idx == [] then from == |chosen| else
      || (from < |chosen| && chosen[from].index == idx[0] && Follow(chosen, from + 1, idx[1..]))
      || Follow(chosen, from, idx[1..])
  }

  lemma {:induction false} PlacedFollow(ms: seq<Message>, idx: seq<nat>, b: Budget)
    requires forall k :: 0 <= k < |idx| ==> idx[k] < |ms|
    requires PlaceAll(ms, idx, b).Some?
    ensures var r := PlaceAll(ms, idx, b).value;
            b.chosen <= r.chosen && Follow(r.chosen, |b.chosen|, idx)
    decreases |idx|
  {
    if idx != [] {
      DroppedOnlyWhenTiny(ms[idx[0]], idx[0], b);
      PlacedFollow(ms, idx[1..], PlaceOne(ms[idx[0]], idx[0], b).value);
    }
  }

  /** Each placed message takes at least four tokens, and one is missing only when fewer than seven remain. */
  lemma {:induction false} PlacedRoom(ms: seq<Message>, idx: seq<nat>, b: Budget)
    requires forall k :: 0 <= k < |idx| ==> idx[k] < |ms|
    requires PlaceAll(ms, idx, b).Some?
    ensures var r := PlaceAll(ms, idx, b).value;
            && |b.chosen| <= |r.chosen| <= |b.chosen| + |idx|
            && r.remaining <= b.remaining - 4 * (|r.chosen| - |b.chosen|)
            && (|r.chosen| < |b.chosen| + |idx| ==> r.remaining < 7)
    ensures var r := PlaceAll(ms, idx, b).value;
            |idx| == 2 && |r.chosen| == |b.chosen| + 1 && r.chosen[|b.chosen|].index != idx[0] ==> r.remaining < 4
    decreases |idx|
  {
    if idx != [] {
      DroppedOnlyWhenTiny(ms[idx[0]], idx[0], b);
      PlacedRoom(ms, idx[1..], PlaceOne(ms[idx[0]], idx[0], b).value);
      PlacedFollow(ms, idx[1..], PlaceOne(ms[idx[0]], idx[0], b).value);
    }
  }

  lemma FollowCases(chosen: seq<Chosen>, idx: seq<nat>)
    requires 1 <= |idx| <= 2 && Follow(chosen, 0, idx)
    ensures |chosen| <= |idx|
    ensures |chosen| == |idx| ==> forall k :: 0 <= k < |idx| ==> chosen[k].index == idx[k]
    ensures |idx| == 2 && |chosen| == 1 ==> chosen[0].index == idx[0] || chosen[0].index == idx[1]
  {
    var rest := idx[1..];
    assert Follow(chosen, 0, rest) || (|chosen| > 0 && chosen[0].index == idx[0] && Follow(chosen, 1, rest));
    if rest == [] {
    } else {
      assert rest[0] == idx[1] && rest[1..] == [];
    }
  }

  /** The one or two mandatory messages, or one of two, or none. */
  ghost predicate IsPlacing(mandatory: seq<nat>, b: Budget) {
    && 1 <= |mandatory| <= 2 && |b.chosen| <= |mandatory|
    && (|b.chosen| == |mandatory| ==> forall k :: 0 <= k < |mandatory| ==> b.chosen[k].index == mandatory[k])
    && (|mandatory| == 2 && |b.chosen| == 1 ==> b.chosen[0].index == mandatory[0] || b.remaining < 4)
  }

  lemma PlacedCases(ms: seq<Message>, available: int)
    requires ms != [] && Placed(ms, available).Some?
    ensures IsPlacing(Mandatory(ms), Placed(ms, available).value)
  {
    MandatoryInRange(ms);
    var start := Budget([], available, 0);
    PlacedFollow(ms, Mandatory(ms), start);
    FollowCases(Placed(ms, available).value.chosen, Mandatory(ms));
    PlacedRoom(ms, Mandatory(ms), start);
  }

  lemma MandatoryIs(ms: seq<Message>)
    requires ms != []
    ensures var s, u := SystemIndex(ms), LastUserIndex(ms);
            Mandatory(ms) == if s.Some? && u.Some? then [s.value, u.value] else if s.Some? then [s.value]
                             else if u.Some? then [u.value] else [|ms| - 1]
  {
  }

  /** Another message lies between two mandatory ones that stand at the ends, and the mandatory ones are in order. */
  lemma EndsFrame(ms: seq<Message>, placed: seq<Chosen>)
    requires ms != []
    requires SystemIndex(ms).Some? ==> SystemIndex(ms).value == 0
    requires LastUserIndex(ms).Some? ==> LastUserIndex(ms).value == |ms| - 1
    requires |placed| <= |Mandatory(ms)| <= 2
    requires |placed| == |Mandatory(ms)| ==> forall k :: 0 <= k < |placed| ==> placed[k].index == Mandatory(ms)[k]
    requires |placed| == 1 && |Mandatory(ms)| == 2 ==> placed[0].index == Mandatory(ms)[0]
    ensures Chronological(placed)
    ensures forall j: nat :: IsFound(ms, Mandatory(ms), |ms|, j) ==> Between(placed, InsertionPoint(ms, placed), j)
  {
    MandatoryIs(ms);
    MandatoryDiffer(ms);
    var mandatory := Mandatory(ms);
    assert forall k :: 0 <= k < |placed| ==> placed[k].index == mandatory[k];
    forall j: nat | IsFound(ms, mandatory, |ms|, j) ensures Between(placed, InsertionPoint(ms, placed), j) {
      assert j != mandatory[0] && j != mandatory[|mandatory| - 1];
    }
  }

  lemma MandatoryDiffer(ms: seq<Message>)
    requires ms != []
    ensures SystemIndex(ms).Some? && LastUserIndex(ms).Some? ==> SystemIndex(ms).value != LastUserIndex(ms).value
  {
    FirstIs(ms, System, 0);
    LastIs(ms, User, |ms|);
  }

  /**
   With the first system message at the start and the newest user message at the end, the output is in
   the order of the source, whatever room there is.
   */
  lemma OutputIsChronological(ms: seq<Message>, contextWindow: int, maxOutput: int)
    requires Fit(ms, contextWindow, maxOutput).Ok?
    requires SystemIndex(ms).Some? ==> SystemIndex(ms).value == 0
    requires LastUserIndex(ms).Some? ==> LastUserIndex(ms).value == |ms| - 1
    ensures Chronological(Fit(ms, contextWindow, maxOutput).value.messages)
  {
    FitIs(ms, contextWindow, maxOutput);
    EndsKeepOrder(ms, contextWindow - maxOutput);
    OutputIsChronologicalIff(ms, contextWindow, maxOutput);
  }

  lemma EndsKeepOrder(ms: seq<Message>, available: int)
    requires ms != [] && Placed(ms, available).Some?
    requires SystemIndex(ms).Some? ==> SystemIndex(ms).value == 0
    requires LastUserIndex(ms).Some? ==> LastUserIndex(ms).value == |ms| - 1
    ensures Chronological(Placed(ms, available).value.chosen) && FoundBetween(ms, Placed(ms, available).value)
  {
    PlacedCases(ms, available);
    FoundBetweenEnds(ms, Placed(ms, available).value);
  }

  lemma FoundBetweenEnds(ms: seq<Message>, b: Budget)
    requires ms != []
    requires SystemIndex(ms).Some? ==> SystemIndex(ms).value == 0
    requires LastUserIndex(ms).Some? ==> LastUserIndex(ms).value == |ms| - 1
    requires IsPlacing(Mandatory(ms), b)
    ensures Chronological(b.chosen) && FoundBetween(ms, b)
  {
    if b.remaining < 4 && |b.chosen| == 1 {
      NothingFound(ms, Mandatory(ms), |ms|, b.remaining);
    } else {
      EndsFrame(ms, b.chosen);
      FoundAreOthers(ms, Mandatory(ms), b.remaining);
    }
  }

  lemma {:induction false} NothingFound(ms: seq<Message>, mandatory: seq<nat>, n: nat, room: int)
    requires n <= |ms| && room < 4
    ensures forall j: nat :: !Finds(ms, mandatory, n, room, j)
    decreases n
  {
    if n > 0 {
      NothingFound(ms, mandatory, n - 1, room);
    }
  }

  lemma FoundAreOthers(ms: seq<Message>, mandatory: seq<nat>, room: int)
    ensures forall j: nat :: Finds(ms, mandatory, |ms|, room, j) ==> IsFound(ms, mandatory, |ms|, j)
  {
    forall j: nat ensures Finds(ms, mandatory, |ms|, room, j) ==> IsFound(ms, mandatory, |ms|, j) {
      FoundHas(ms, mandatory, |ms|, room, j);
    }
  }

  function Cost(ms: seq<Message>, idx: seq<nat>): nat
    requires forall k :: 0 <= k < |idx| ==> idx[k] < |ms|
  {
    if idx == [] then 0 else MessageTokens(ms[idx[0]]) + Cost(ms, idx[1..])
  }

  lemma {:induction false} AllPlaced(ms: seq<Message>, idx: seq<nat>, b: Budget)
    requires forall k :: 0 <= k < |idx| ==> idx[k] < |ms|
    requires Cost(ms, idx) <= b.remaining
    ensures var r := PlaceAll(ms, idx, b);
            r.Some? && |r.value.chosen| == |b.chosen| + |idx| && r.value.remaining == b.remaining - Cost(ms, idx)
    decreases |idx|
  {
    if idx != [] {
      AllPlaced(ms, idx[1..], PlaceOne(ms[idx[0]], idx[0], b).value);
    }
  }

  /** No message stands on the wrong side of the first system message or of the newest user message. */
  ghost predicate Framed(ms: seq<Message>) {
    forall j :: 0 <= j < |ms| && ms[j].role != System ==> InFrame(ms, j)
  }

  /**
   When a whole conversation fits, its order is kept exactly if the first system message comes before all
   messages that are not system ones, and the newest user message after them.
   */
  lemma WholeChatKeepsOrderIff(ms: seq<Message>, contextWindow: int, maxOutput: int)
    requires Fit(ms, contextWindow, maxOutput).Ok?
    requires ms != [] && forall k :: 0 <= k < |Mandatory(ms)| ==> Mandatory(ms)[k] < |ms|
    requires Cost(ms, Mandatory(ms)) + OthersCost(ms, Mandatory(ms), |ms|) <= contextWindow - maxOutput
    ensures Chronological(Fit(ms, contextWindow, maxOutput).value.messages) <==> Framed(ms)
  {
    OutputIsChronologicalIff(ms, contextWindow, maxOutput);
    MandatoryInRange(ms);
    var b := Placed(ms, contextWindow - maxOutput).value;
    var mandatory := Mandatory(ms);
    AllPlaced(ms, mandatory, Budget([], contextWindow - maxOutput, 0));
    PlacedCases(ms, contextWindow - maxOutput);
    AllOthersFound(ms, mandatory, b.remaining);
    FramedIff(ms, b.chosen);
  }

  lemma AllOthersFound(ms: seq<Message>, mandatory: seq<nat>, room: int)
    requires OthersCost(ms, mandatory, |ms|) <= room
    ensures forall j: nat :: Finds(ms, mandatory, |ms|, room, j) <==> IsFound(ms, mandatory, |ms|, j)
  {
    forall j: nat ensures Finds(ms, mandatory, |ms|, room, j) <==> IsFound(ms, mandatory, |ms|, j) {
      AllFound(ms, mandatory, |ms|, room, j);
    }
  }

  ghost predicate OthersBetween(ms: seq<Message>, placed: seq<Chosen>)
    requires ms != []
  {
    forall j: nat :: IsFound(ms, Mandatory(ms), |ms|, j) ==> Between(placed, InsertionPoint(ms, placed), j)
  }

  lemma FramedIff(ms: seq<Message>, placed: seq<Chosen>)
    requires ms != [] && |placed| == |Mandatory(ms)|
    requires forall k :: 0 <= k < |placed| ==> placed[k].index == Mandatory(ms)[k]
    ensures Framed(ms) <==> Chronological(placed) && OthersBetween(ms, placed)
  {
    if Framed(ms) {
      FramedThen(ms, placed);
    }
    if Chronological(placed) && OthersBetween(ms, placed) {
      FramedIf(ms, placed);
    }
  }

  /** Message j stands on no wrong side. */
  predicate InFrame(ms: seq<Message>, j: nat) {
    (SystemIndex(ms).Some? ==> SystemIndex(ms).value < j) && (LastUserIndex(ms).Some? ==> j <= LastUserIndex(ms).value)
  }

  lemma FramedThen(ms: seq<Message>, placed: seq<Chosen>)
    requires ms != [] && Framed(ms) && |placed| == |Mandatory(ms)|
    requires forall k :: 0 <= k < |placed| ==> placed[k].index == Mandatory(ms)[k]
    ensures Chronological(placed)
    ensures OthersBetween(ms, placed)
  {
    FirstIs(ms, System, 0);
    LastIs(ms, User, |ms|);
    var s, u := SystemIndex(ms), LastUserIndex(ms);
    assert u.Some? ==> InFrame(ms, u.value);
    forall j: nat | IsFound(ms, Mandatory(ms), |ms|, j) ensures Between(placed, InsertionPoint(ms, placed), j) {
      assert InFrame(ms, j);
      assert u.Some? ==> u.value in Mandatory(ms);
      assert s == None && u == None ==> Mandatory(ms) == [|ms| - 1];
    }
  }

  lemma FramedIf(ms: seq<Message>, placed: seq<Chosen>)
    requires ms != [] && |placed| == |Mandatory(ms)| && Chronological(placed)
    requires forall k :: 0 <= k < |placed| ==> placed[k].index == Mandatory(ms)[k]
    requires OthersBetween(ms, placed)
    ensures Framed(ms)
  {
    FirstIs(ms, System, 0);
    LastIs(ms, User, |ms|);
    var s, u := SystemIndex(ms), LastUserIndex(ms);
    assert s.Some? ==> placed[0].index == s.value;
    assert u.Some? ==> placed[|placed| - 1].index == u.value;
    forall j | 0 <= j < |ms| && ms[j].role != System ensures InFrame(ms, j) {
      if j !in Mandatory(ms) {
        assert IsFound(ms, Mandatory(ms), |ms|, j);
      }
    }
  }

  /** Without that premise the order can change: an answer after the newest user message is moved before it. */
  lemma LaterAnswerMovesForward()
    ensures var ms := [Message(User, "a"), Message(Assistant, "b")];
            var f := Fit(ms, 100, 10);
            f.Ok? && |f.value.messages| == 2 && f.value.messages[0].index == 1 && f.value.messages[1].index == 0
  {
    var ms := [Message(User, "a"), Message(Assistant, "b")];
    assert IsWord("a") && IsWord("b");
    WordCost("a");
    WordCost("b");
    FirstIs(ms, System, 0);
    LastIs(ms, User, 2);
    assert Mandatory(ms) == [0];
    assert [0][1..] == [];
    assert MessageTokens(ms[0]) == 5 && MessageTokens(ms[1]) == 5;
    var b := Budget([] + [Chosen(0, ms[0])], 85, 0);
    assert PlaceOne(ms[0], 0, Budget([], 90, 0)) == Some(b);
    assert AddOthers(ms, [0], 2, false, b) == AddOthers(ms, [0], 1, false, AddOne(ms[1], 1, false, b));
  }
}
