/** The interrupt latch (simulatron-vm, cpu.rs): interrupts wait in a channel, or latched while masked. */
module InterruptLatch {
  import opened Bytes
  import opened Wrappers
  import opened Arithmetic

  /** Not an interrupt but the command to end the CPU thread. */
  const JOIN_THREAD: nat := 0xFFFF_FFFF

  predicate IsMessage(n: nat) {
    n < 8 || n == JOIN_THREAD
  }

  /** The mask has the interrupt's bit set. */
  predicate Enabled(imr: Half, n: nat) {
    Bit(imr, PowerOfTwo(n))
  }

  /** The mask with the given bits, lowest first. */
  function MaskOf(bits: seq<bool>): nat {
    if bits == [] then 0 else (if bits[0] then 1 else 0) + 2 * MaskOf(bits[1..])
  }

  /** A mask lets exactly those interrupts through whose bit, counted from the lowest, is set. */
  lemma {:induction false} MaskLetsThrough(bits: seq<bool>, n: nat)
    requires n < |bits|
    ensures Bit(MaskOf(bits), PowerOfTwo(n)) <==> bits[n]
  {
    if n == 0 {
      assert PowerOfTwo(0) == 1;
    } else {
      MaskLetsThrough(bits[1..], n - 1);
      HalvedBit(if bits[0] then 1 else 0, MaskOf(bits[1..]), PowerOfTwo(n - 1));
    }
  }

  lemma HalvedBit(b: nat, y: nat, power: nat)
    requires b < 2 && power > 0
    ensures (b + 2 * y) / (2 * power) == y / power
  {
    DivMod(y, power);
    var q, r := y / power, y % power;
    assert b + 2 * y == 2 * power * q + (b + 2 * r);
    DivModUnique(b + 2 * y, 2 * power, q, b + 2 * r);
  }

  lemma EnabledExactly(bits: seq<bool>, imr: Half, n: nat)
    requires |bits| == 16 && imr == MaskOf(bits) && n < 8
    ensures Enabled(imr, n) <==> bits[n]
  {
    hide Bit, PowerOfTwo, MaskOf;
    MaskLetsThrough(bits, n);
  }

  predicate Deliverable(imr: Half, n: nat) {
    n == JOIN_THREAD || Enabled(imr, n)
  }

  datatype Latch = Latch(latched: seq<bool>, queue: seq<nat>)

  ghost predicate ValidLatch(s: Latch) {
    |s.latched| == 8 && forall k :: 0 <= k < |s.queue| ==> IsMessage(s.queue[k])
  }

  /** The result of a poll; `merged` are messages that found their interrupt latched already. */
  datatype Polled = Polled(result: Option<nat>, latch: Latch, merged: seq<nat>)

  /** The lowest enabled latched interrupt, from `i` up. */
  function FirstLatched(latched: seq<bool>, imr: Half, i: nat): (n: Option<nat>)
    requires |latched| == 8 && i <= 8
    ensures n.Some? ==> i <= n.value < 8 && latched[n.value] && Enabled(imr, n.value)
    ensures n.Some? ==> forall k :: i <= k < n.value ==> !(latched[k] && Enabled(imr, k))
    ensures n.None? ==> forall k :: i <= k < 8 ==> !(latched[k] && Enabled(imr, k))
    decreases 8 - i
  {
    if i == 8 then None
    else if latched[i] && Enabled(imr, i) then Some(i)
    else FirstLatched(latched, imr, i + 1)
  }

  /** Read the channel until something can be delivered, latching the rest. */
  function Drain(latched: seq<bool>, queue: seq<nat>, imr: Half, merged: seq<nat>): Polled
    requires ValidLatch(Latch(latched, queue))
    decreases |queue|
  {
    if queue == [] then Polled(None, Latch(latched, []), merged)
    else
      var n := queue[0];
      if Deliverable(imr, n) then Polled(Some(n), Latch(latched, queue[1..]), merged)
      else Drain(latched[n := true], queue[1..], imr, if latched[n] then merged + [n] else merged)
  }

  function Poll(s: Latch, imr: Half): Polled
    requires ValidLatch(s)
  {
    var first := FirstLatched(s.latched, imr, 0);
    if first.Some? then Polled(first, Latch(s.latched[first.value := false], s.queue), [])
    else Drain(s.latched, s.queue, imr, [])
  }

  // ----- What a poll guarantees -----

  ghost predicate NoneEnabledLatched(latched: seq<bool>, imr: Half) {
    |latched| == 8 && forall k :: 0 <= k < 8 ==> !(latched[k] && Enabled(imr, k))
  }

  lemma {:induction false} DrainDelivers(latched: seq<bool>, queue: seq<nat>, imr: Half, merged: seq<nat>)
    requires ValidLatch(Latch(latched, queue)) && NoneEnabledLatched(latched, imr)
    ensures var p := Drain(latched, queue, imr, merged);
      && ValidLatch(p.latch) && NoneEnabledLatched(p.latch.latched, imr)
      && (p.result.Some? ==> IsMessage(p.result.value) && Deliverable(imr, p.result.value))
      && (p.result.None? ==> p.latch.queue == [])
    decreases |queue|
  {
    if queue != [] && !Deliverable(imr, queue[0]) {
      var n := queue[0];
      DrainDelivers(latched[n := true], queue[1..], imr, if latched[n] then merged + [n] else merged);
    }
  }

  /** Only enabled interrupts or the join command are returned, and a poll that returns nothing leaves no
      enabled interrupt latched and nothing in the channel. */
  lemma PollDelivers(s: Latch, imr: Half)
    requires ValidLatch(s)
    ensures var p := Poll(s, imr);
      && ValidLatch(p.latch)
      && (p.result.Some? ==> IsMessage(p.result.value) && Deliverable(imr, p.result.value))
      && (p.result.None? ==> p.latch.queue == [] && NoneEnabledLatched(p.latch.latched, imr))
  {
    hide Enabled;
    if FirstLatched(s.latched, imr, 0).None? {
      DrainDelivers(s.latched, s.queue, imr, []);
    }
  }

  // ----- Order -----

  /** The latched and enabled interrupts from `i` up, in ascending order. */
  function Waiting(latched: seq<bool>, imr: Half, i: nat): (waiting: seq<nat>)
    requires |latched| == 8 && i <= 8
    ensures forall n :: n in waiting <==> i <= n < 8 && latched[n] && Enabled(imr, n)
    ensures forall j, k :: 0 <= j < k < |waiting| ==> waiting[j] < waiting[k]
    decreases 8 - i
  {
    if i == 8 then []
    else
      var rest := Waiting(latched, imr, i + 1);
      assert forall k :: 0 <= k < |rest| ==> rest[k] in rest;
      if latched[i] && Enabled(imr, i) then [i] + rest else rest
  }

  /** The results of consecutive polls under one mask, and the latch after them. */
  datatype Outcome = Outcome(results: seq<Option<nat>>, latch: Latch)

  ghost predicate AllMessages(sent: seq<nat>) {
    forall k :: 0 <= k < |sent| ==> IsMessage(sent[k])
  }

  /** One poll after each batch of messages sent. */
  function Polls(s: Latch, imr: Half, batches: seq<seq<nat>>): (r: Outcome)
    requires ValidLatch(s) && forall k :: 0 <= k < |batches| ==> AllMessages(batches[k])
    ensures |r.results| == |batches|
    decreases |batches|
  {
    if batches == [] then Outcome([], s)
    else
      assert AllMessages(batches[0]);
      var sent := Latch(s.latched, s.queue + batches[0]);
      PollDelivers(sent, imr);
      var p := Poll(sent, imr);
      var rest := Polls(p.latch, imr, batches[1..]);
      Outcome([p.result] + rest.results, rest.latch)
  }

  function Concatenated(batches: seq<seq<nat>>): seq<nat> {
    if batches == [] then [] else batches[0] + Concatenated(batches[1..])
  }

  lemma WaitingStep(latched: seq<bool>, imr: Half, i: nat)
    requires |latched| == 8 && i < 8
    ensures var next := i + 1;
      Waiting(latched, imr, i) == (if latched[i] && Enabled(imr, i) then [i] else []) + Waiting(latched, imr, next)
  {
    hide Enabled;
  }

  /** Clearing the first interrupt waiting leaves the others. */
  lemma {:induction false} WaitingCleared(latched: seq<bool>, imr: Half, i: nat, n: nat)
    requires |latched| == 8 && i <= n < 8 && FirstLatched(latched, imr, i) == Some(n)
    ensures Waiting(latched, imr, i) == [n] + Waiting(latched[n := false], imr, i)
    decreases 8 - i
  {
    hide Enabled, Waiting;
    WaitingStep(latched, imr, i);
    WaitingStep(latched[n := false], imr, i);
    if i < n {
      WaitingCleared(latched, imr, i + 1, n);
    } else {
      WaitingAbove(latched, latched[n := false], imr, n + 1);
    }
  }

  lemma {:induction false} WaitingAbove(a: seq<bool>, b: seq<bool>, imr: Half, i: nat)
    requires |a| == |b| == 8 && i <= 8 && a[i..] == b[i..]
    ensures Waiting(a, imr, i) == Waiting(b, imr, i)
    decreases 8 - i
  {
    hide Enabled;
    if i < 8 {
      assert a[i] == a[i..][0] == b[i..][0] == b[i];
      assert a[i + 1..] == a[i..][1..] && b[i + 1..] == b[i..][1..];
      WaitingAbove(a, b, imr, i + 1);
    }
  }

  lemma PollTakesFirst(s: Latch, imr: Half)
    requires ValidLatch(s) && Waiting(s.latched, imr, 0) != []
    ensures var waiting, p := Waiting(s.latched, imr, 0), Poll(s, imr);
      && p.result == Some(waiting[0]) && p.latch.queue == s.queue && ValidLatch(p.latch)
      && Waiting(p.latch.latched, imr, 0) == waiting[1..]
  {
    hide Enabled;
    var waiting := Waiting(s.latched, imr, 0);
    assert waiting[0] in waiting;
    PollDelivers(s, imr);
    WaitingCleared(s.latched, imr, 0, FirstLatched(s.latched, imr, 0).value);
  }

  function Delivered(waiting: seq<nat>): (results: seq<Option<nat>>)
    ensures |results| == |waiting|
  {
    seq(|waiting|, k requires 0 <= k < |waiting| => Some(waiting[k]))
  }

  /** Under a fixed mask, consecutive polls return the enabled latched interrupts in ascending order, one
      each, whatever is sent in between, and until they are out the channel is not read. */
  lemma {:induction false} LatchedComeOutAscending(s: Latch, imr: Half, batches: seq<seq<nat>>)
    requires ValidLatch(s) && forall k :: 0 <= k < |batches| ==> AllMessages(batches[k])
    requires |batches| <= |Waiting(s.latched, imr, 0)|
    ensures var waiting, r := Waiting(s.latched, imr, 0), Polls(s, imr, batches);
      && r.results == Delivered(waiting[..|batches|])
      && r.latch.queue == s.queue + Concatenated(batches)
      && ValidLatch(r.latch) && Waiting(r.latch.latched, imr, 0) == waiting[|batches|..]
    decreases |batches|
  {
    hide Enabled, Waiting, Poll;
    var waiting := Waiting(s.latched, imr, 0);
    if batches != [] {
      assert AllMessages(batches[0]);
      var sent := Latch(s.latched, s.queue + batches[0]);
      PollTakesFirst(sent, imr);
      var p := Poll(sent, imr);
      LatchedComeOutAscending(p.latch, imr, batches[1..]);
      assert Delivered(waiting[..|batches|]) == [Some(waiting[0])] + Delivered(waiting[1..][..|batches| - 1]);
    }
  }

  // ----- Conservation -----

  function Latched(latched: seq<bool>, n: nat): nat {
    if n < |latched| && latched[n] then 1 else 0
  }

  function Count(messages: seq<nat>, n: nat): nat {
    multiset(messages)[n]
  }

  lemma CountFirst(messages: seq<nat>, n: nat)
    requires messages != []
    ensures Count(messages, n) == Count(messages[1..], n) + if messages[0] == n then 1 else 0
  {
    assert messages == [messages[0]] + messages[1..];
  }

  lemma CountMore(messages: seq<nat>, x: nat, n: nat)
    ensures Count(messages + [x], n) == Count(messages, n) + if x == n then 1 else 0
  {}

  function Returned(result: Option<nat>, n: nat): nat {
    if result == Some(n) then 1 else 0
  }

  lemma {:induction false} DrainConserves(latched: seq<bool>, queue: seq<nat>, imr: Half, merged: seq<nat>, n: nat)
    requires ValidLatch(Latch(latched, queue))
    ensures var p := Drain(latched, queue, imr, merged);
      Latched(latched, n) + Count(queue, n) + Count(merged, n)
      == Returned(p.result, n) + Latched(p.latch.latched, n) + Count(p.latch.queue, n) + Count(p.merged, n)
    decreases |queue|
  {
    hide Enabled, Count;
    if queue != [] {
      CountFirst(queue, n);
      var x := queue[0];
      if !Deliverable(imr, x) {
        CountMore(merged, x, n);
        DrainConserves(latched[x := true], queue[1..], imr, if latched[x] then merged + [x] else merged, n);
      }
    }
  }

  /** Nothing is lost or invented by a poll: every message is returned, still queued, latched, or one of
      several that were latched together. */
  lemma PollConserves(s: Latch, imr: Half, n: nat)
    requires ValidLatch(s)
    ensures var p := Poll(s, imr);
      Latched(s.latched, n) + Count(s.queue, n)
      == Returned(p.result, n) + Latched(p.latch.latched, n) + Count(p.latch.queue, n) + Count(p.merged, n)
  {
    hide Enabled, Count;
    NoMessages(n);
    if FirstLatched(s.latched, imr, 0).None? {
      DrainConserves(s.latched, s.queue, imr, [], n);
    }
  }

  lemma NoMessages(n: nat)
    ensures Count([], n) == 0
  {}

  // ----- Whole runs -----

  datatype Event = Send(n: nat) | Try(imr: Half)

  /** The latch and what has happened to messages so far. */
  datatype History = History(latch: Latch, sent: seq<nat>, returned: seq<nat>, merged: seq<nat>)

  function Step(h: History, e: Event): History
    requires ValidLatch(h.latch)
  {
    match e
    case Send(n) => h.(latch := Latch(h.latch.latched, h.latch.queue + [n]), sent := h.sent + [n])
    case Try(imr) =>
      var p := Poll(h.latch, imr);
      History(p.latch, h.sent, if p.result.Some? then h.returned + [p.result.value] else h.returned, h.merged + p.merged)
  }

  ghost predicate ValidEvents(events: seq<Event>) {
    forall k :: 0 <= k < |events| && events[k].Send? ==> IsMessage(events[k].n)
  }

  /** The history after the first `k` events, from an empty latch. */
  function After(events: seq<Event>, k: nat): (h: History)
    requires k <= |events| && ValidEvents(events)
    ensures ValidLatch(h.latch)
  {
    if k == 0 then History(Latch(seq(8, _ => false), []), [], [], [])
    else
      var before := After(events, k - 1);
      PollIsValid(before.latch, events[k - 1]);
      Step(before, events[k - 1])
  }

  lemma PollIsValid(s: Latch, e: Event)
    requires ValidLatch(s)
    ensures e.Try? ==> ValidLatch(Poll(s, e.imr).latch)
  {
    if e.Try? {
      PollDelivers(s, e.imr);
    }
  }

  lemma CountBoth(a: seq<nat>, b: seq<nat>, n: nat)
    ensures Count(a + b, n) == Count(a, n) + Count(b, n)
  {}

  /** Over any interleaving of sends and polls, for every number: sent = returned + queued + latched + merged. */
  lemma {:induction false} MessagesAreConserved(events: seq<Event>, k: nat, n: nat)
    requires k <= |events| && ValidEvents(events)
    ensures var h := After(events, k);
      Count(h.sent, n) == Count(h.returned, n) + Count(h.latch.queue, n) + Latched(h.latch.latched, n) + Count(h.merged, n)
  {
    hide Count, Poll;
    NoMessages(n);
    if k > 0 {
      MessagesAreConserved(events, k - 1, n);
      var before := After(events, k - 1);
      match events[k - 1] {
        case Send(x) =>
          CountMore(before.latch.queue, x, n);
          CountMore(before.sent, x, n);
        case Try(imr) =>
          var p := Poll(before.latch, imr);
          PollConserves(before.latch, imr, n);
          CountBoth(before.merged, p.merged, n);
          if p.result.Some? {
            CountMore(before.returned, p.result.value, n);
          }
      }
    }
  }

  // ----- The latch object -----

  datatype ChannelError = Disconnected

  class InterruptLatch {
    const latched: array<bool>
    var queue: seq<nat>
    var connected: bool

    constructor ()
      ensures fresh(latched) && Valid() && connected && Now() == Latch(seq(8, _ => false), [])
    {
      latched := new bool[8](_ => false);
      queue := [];
      connected := true;
    }

    function Now(): Latch
      reads this, latched
    {
      Latch(latched[..], queue)
    }

    ghost predicate Valid()
      reads this, latched
    {
      ValidLatch(Now())
    }

    /** A device or the CPU itself sends an interrupt. */
    method Send(n: nat)
      requires Valid() && connected && IsMessage(n)
      modifies this`queue
      ensures Valid() && Now() == Latch(old(Now()).latched, old(Now()).queue + [n])
    {
      queue := queue + [n];
    }

    /** The last sender is gone; what it has sent stays in the channel. */
    method Disconnect()
      requires Valid()
      modifies this`connected
      ensures Valid() && !connected && Now() == old(Now())
    {
      connected := false;
    }

    /** Poll without blocking. Finding the channel empty is a panic once no sender is left. */
    method TryGetNext(imr: Half) returns (r: Result<Option<nat>, ChannelError>)
      requires Valid()
      modifies this`queue, latched
      ensures Valid() && Now() == Poll(old(Now()), imr).latch
      ensures var result := Poll(old(Now()), imr).result;
        r == if result.None? && !connected then Err(Disconnected) else Ok(result)
      ensures r.Ok? && r.value.Some? ==> Deliverable(imr, r.value.value)
    {
      hide Enabled;
      PollDelivers(Now(), imr);
      for i := 0 to 8
        invariant Now() == old(Now())
        invariant FirstLatched(latched[..], imr, 0) == FirstLatched(latched[..], imr, i)
      {
        if latched[i] && Enabled(imr, i) {
          latched[i] := false;
          return Ok(Some(i));
        }
      }
      ghost var merged: seq<nat> := [];
      while queue != []
        invariant Valid()
        invariant Poll(old(Now()), imr) == Drain(latched[..], queue, imr, merged)
        decreases |queue|
      {
        var interrupt := queue[0];
        queue := queue[1..];
        if interrupt == JOIN_THREAD || Enabled(imr, interrupt) {
          return Ok(Some(interrupt));
        }
        merged := if latched[interrupt] then merged + [interrupt] else merged;
        latched[interrupt] := true;
      }
      if !connected {
        return Err(Disconnected);
      }
      return Ok(None);
    }
  }
}
