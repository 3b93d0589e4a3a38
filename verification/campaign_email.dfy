/**
`_send_via_http`: a campaign sent recipient by recipient, each in its own transaction, with a
`sent_at` marker that lets an interrupted campaign be run again.

A failing attempt rolls its transaction back. Whether anything was delivered by then depends on
where it failed, so both cases are kept apart: `DeliveredIsExact` counts them over any sequence of
calls.
*/
module CampaignEmail {
  import opened Options

  type Time = int

  /** A messaging record is found by its address and campaign. */
  datatype Slot = Slot(rawEmail: string, campaign: string)

  /**
   What comes of contacting the provider for one recipient: a send that commits at some time; a
   failure that delivered nothing (unknown template, no response, a status other than 200); or a
   failure after the provider had accepted the message.
   */
  datatype Attempt = Sends(at: Time) | Fails | FailsAfterDelivery

  /** The record table, and for the record the messages delivered, committed and lost to a rollback. */
  datatype State = State(
    records: map<Slot, Option<Time>>,
    delivered: multiset<Slot>,
    committed: multiset<Slot>,
    lost: multiset<Slot>)

  predicate IsSent(records: map<Slot, Option<Time>>, slot: Slot) {
    slot in records && records[slot].Some?
  }

  datatype Next = Next(state: State, stopped: bool)

  /** One transaction of the loop; a failure ends the loop. */
  function SendOne(s: State, slot: Slot, attempt: Attempt): Next {
    if IsSent(s.records, slot) then Next(s, false)
    else match attempt
      case Sends(at) =>
        Next(s.(records := s.records[slot := Some(at)],
                delivered := s.delivered + multiset{slot}, committed := s.committed + multiset{slot}), false)
      case Fails => Next(s, true)
      case FailsAfterDelivery =>
        Next(s.(delivered := s.delivered + multiset{slot}, lost := s.lost + multiset{slot}), true)
  }

  /** One call: the recipients' addresses, and what each attempt would come to if it were made. */
  datatype Call = Call(hasKey: bool, campaign: string, to: seq<string>, attempts: seq<Attempt>)

  predicate WellFormed(call: Call) {
    |call.attempts| == |call.to|
  }

  function SlotAt(call: Call, i: nat): Slot
    requires i < |call.to|
  {
    Slot(call.to[i], call.campaign)
  }

  /** The state after the loop has looked at the first n recipients, if nothing stopped it before. */
  function SendUpTo(s: State, call: Call, n: nat): Next
    requires WellFormed(call) && n <= |call.to|
  {
    if n == 0 then Next(s, false)
    else
      var before := SendUpTo(s, call, n - 1);
      if before.stopped then before else SendOne(before.state, SlotAt(call, n - 1), call.attempts[n - 1])
  }

  function Send(s: State, call: Call): State
    requires WellFormed(call)
  {
    if call.hasKey then SendUpTo(s, call, |call.to|).state else s
  }

  class Mailer {
    var records: map<Slot, Option<Time>>
    ghost var delivered: multiset<Slot>
    ghost var committed: multiset<Slot>
    ghost var lost: multiset<Slot>

    ghost function Contents(): State
      reads this
    {
      State(records, delivered, committed, lost)
    }

    constructor (records: map<Slot, Option<Time>>)
      ensures Contents() == State(records, multiset{}, multiset{}, multiset{})
    {
      this.records := records;
      delivered, committed, lost := multiset{}, multiset{}, multiset{};
    }

    /** One recipient: find or create the record, skip it when sent, else contact the provider and mark it. */
    method SendTransaction(slot: Slot, attempt: Attempt) returns (failed: bool)
      modifies this
      ensures Next(Contents(), failed) == SendOne(old(Contents()), slot, attempt)
    {
      var saved := records;
      if slot !in records {
        records := records[slot := None];
      }
      if records[slot].Some? {
        return false;
      }
      match attempt
      case Sends(at) =>
        delivered, committed := delivered + multiset{slot}, committed + multiset{slot};
        records := records[slot := Some(at)];
        return false;
      case Fails =>
        records := saved;
        return true;
      case FailsAfterDelivery =>
        delivered, lost := delivered + multiset{slot}, lost + multiset{slot};
        records := saved;
        return true;
    }

    method SendViaHttp(call: Call) returns (raised: bool)
      requires WellFormed(call)
      modifies this
      ensures raised == !call.hasKey && Contents() == Send(old(Contents()), call)
    {
      if !call.hasKey {
        return true;
      }
      ghost var s := Contents();
      var i, failed := SendEach(call, s);
      EndOfLoop(s, call, i, Next(Contents(), failed));
      return false;
    }

    /** The loop; it ends at the first failure, if there is one. */
    method SendEach(call: Call, ghost s: State) returns (i: nat, failed: bool)
      requires WellFormed(call) && s == Contents()
      modifies this
      ensures i <= |call.to| && (failed || i == |call.to|) && SendUpTo(s, call, i) == Next(Contents(), failed)
    {
      i, failed := 0, false;
      ghost var reached := SendUpTo(s, call, 0);
      while i < |call.to|
        invariant i <= |call.to| && !failed
        invariant reached == SendUpTo(s, call, i) && reached == Next(Contents(), false)
      {
        ghost var before := reached;
        failed := SendTransaction(Slot(call.to[i], call.campaign), call.attempts[i]);
        i := i + 1;
        reached := SendUpTo(s, call, i);
        NextRecipient(s, call, i, before, reached);
        if failed {
          return;
        }
      }
    }
  }

  /** One turn of the loop. */
  lemma NextRecipient(s: State, call: Call, n: nat, before: Next, reached: Next)
    requires WellFormed(call) && 0 < n <= |call.to|
    requires before == SendUpTo(s, call, n - 1) && reached == SendUpTo(s, call, n)
    ensures reached ==
            if before.stopped then before else SendOne(before.state, SlotAt(call, n - 1), call.attempts[n - 1])
  {
  }

  lemma EndOfLoop(s: State, call: Call, i: nat, next: Next)
    requires WellFormed(call) && call.hasKey && i <= |call.to|
    requires SendUpTo(s, call, i) == next && (next.stopped || i == |call.to|)
    ensures next.state == Send(s, call)
  {
    if next.stopped {
      StoppedStays(s, call, i, |call.to|);
    }
  }

  lemma NextStopped(s: State, call: Call, i: nat)
    requires WellFormed(call) && i < |call.to| && SendUpTo(s, call, i).stopped
    ensures SendUpTo(s, call, i + 1) == SendUpTo(s, call, i)
  {
  }

  lemma {:induction false} StoppedStays(s: State, call: Call, i: nat, n: nat)
    requires WellFormed(call) && i <= n <= |call.to| && SendUpTo(s, call, i).stopped
    ensures SendUpTo(s, call, n) == SendUpTo(s, call, i)
    decreases n - i
  {
    if i < n {
      NextStopped(s, call, i);
      StoppedStays(s, call, i + 1, n);
    }
  }

  // ------------------------------------------------------------------- one call

  /** Recipient i stops the call: not sent before the call, not listed earlier in it, and its attempt fails. */
  ghost predicate Blocks(s: State, call: Call, i: nat)
    requires WellFormed(call) && i < |call.to|
  {
    !IsSent(s.records, SlotAt(call, i)) && !call.attempts[i].Sends? && call.to[i] !in call.to[..i]
  }

  /** The call gets past its first n recipients when none of them blocks it and each is new or already dealt with. */
  ghost predicate GetsPast(s: State, call: Call, n: nat)
    requires WellFormed(call) && n <= |call.to|
  {
    forall i :: 0 <= i < n ==> !Blocks(s, call, i)
  }

  /** The records of the first n recipients are sent; all others, and all earlier send times, are untouched. */
  ghost predicate SentThrough(s: State, call: Call, n: nat, records: map<Slot, Option<Time>>)
    requires WellFormed(call) && n <= |call.to|
  {
    && (forall slot :: IsSent(records, slot) <==>
          IsSent(s.records, slot) || (slot.campaign == call.campaign && slot.rawEmail in call.to[..n]))
    && (forall slot :: IsSent(s.records, slot) ==> records[slot] == s.records[slot])
    && (forall slot :: !IsSent(records, slot) ==> (slot in records <==> slot in s.records))
  }

  /** With the first n recipients dealt with, the next one is sent or blocks. */
  lemma NextSentThrough(s: State, call: Call, n: nat, before: State)
    requires WellFormed(call) && n < |call.to| && SentThrough(s, call, n, before.records)
    ensures var next := SendOne(before, SlotAt(call, n), call.attempts[n]);
            && (next.stopped <==> Blocks(s, call, n))
            && (!next.stopped ==> SentThrough(s, call, n + 1, next.state.records))
  {
    assert call.to[..n + 1] == call.to[..n] + [call.to[n]];
  }

  lemma {:induction false} UpToBlocker(s: State, call: Call, n: nat, reached: Next)
    requires WellFormed(call) && n <= |call.to| && reached == SendUpTo(s, call, n)
    ensures reached.stopped <==> !GetsPast(s, call, n)
    ensures GetsPast(s, call, n) ==> SentThrough(s, call, n, reached.state.records)
  {
    if n > 0 {
      var before := SendUpTo(s, call, n - 1);
      UpToBlocker(s, call, n - 1, before);
      NextRecipient(s, call, n, before, reached);
      assert GetsPast(s, call, n) <==> GetsPast(s, call, n - 1) && !Blocks(s, call, n - 1);
      if !before.stopped {
        NextSentThrough(s, call, n - 1, before.state);
      }
    }
  }

  /** The position of the first blocking recipient, or the end of the list. */
  ghost predicate StopsAt(s: State, call: Call, n: nat)
    requires WellFormed(call)
  {
    n <= |call.to| && GetsPast(s, call, n) && (n < |call.to| ==> Blocks(s, call, n))
  }

  /** Every call sends exactly the recipients before its first failure and leaves everything else as it was. */
  lemma CallSendsUpToFirstFailure(s: State, call: Call) returns (n: nat)
    requires WellFormed(call) && call.hasKey
    ensures StopsAt(s, call, n) && SentThrough(s, call, n, Send(s, call).records)
  {
    n := FirstBlocker(s, call);
    UpToBlocker(s, call, n, SendUpTo(s, call, n));
    if n < |call.to| {
      BlockerEnds(s, call, n);
    }
  }

  lemma SentStays(s: State, slot: Slot, other: Slot, attempt: Attempt)
    requires IsSent(s.records, slot)
    ensures var next := SendOne(s, other, attempt).state;
            IsSent(next.records, slot) && next.records[slot] == s.records[slot]
  {
  }

  lemma NextKeepsSent(s: State, call: Call, n: nat, slot: Slot, before: Next, late: Next)
    requires WellFormed(call) && 0 < n <= |call.to|
    requires before == SendUpTo(s, call, n - 1) && late == SendUpTo(s, call, n) && IsSent(before.state.records, slot)
    ensures IsSent(late.state.records, slot) && late.state.records[slot] == before.state.records[slot]
  {
    SentStays(before.state, slot, SlotAt(call, n - 1), call.attempts[n - 1]);
    NextRecipient(s, call, n, before, late);
  }

  lemma {:induction false} SentIsKept(s: State, call: Call, i: nat, n: nat, slot: Slot, early: Next, late: Next)
    requires WellFormed(call) && i <= n <= |call.to|
    requires early == SendUpTo(s, call, i) && late == SendUpTo(s, call, n) && IsSent(early.state.records, slot)
    ensures IsSent(late.state.records, slot) && late.state.records[slot] == early.state.records[slot]
    decreases n
  {
    if i < n {
      var before := SendUpTo(s, call, n - 1);
      SentIsKept(s, call, i, n - 1, slot, early, before);
      NextKeepsSent(s, call, n, slot, before, late);
    }
  }

  /** A recipient sent by a call is marked with the time of that send, made when it was first listed. */
  lemma SendTimeIsRecorded(s: State, call: Call, n: nat, i: nat)
    requires WellFormed(call) && call.hasKey && StopsAt(s, call, n) && i < n
    requires !IsSent(s.records, SlotAt(call, i)) && call.to[i] !in call.to[..i]
    ensures call.attempts[i].Sends?
    ensures IsSent(Send(s, call).records, SlotAt(call, i))
    ensures Send(s, call).records[SlotAt(call, i)] == Some(call.attempts[i].at)
  {
    var before, reached, end := SendUpTo(s, call, i), SendUpTo(s, call, i + 1), SendUpTo(s, call, |call.to|);
    assert !Blocks(s, call, i);
    UpToBlocker(s, call, i, before);
    NextRecipient(s, call, i + 1, before, reached);
    SentIsKept(s, call, i + 1, |call.to|, SlotAt(call, i), reached, end);
  }

  lemma BlockerEnds(s: State, call: Call, n: nat)
    requires WellFormed(call) && n < |call.to| && GetsPast(s, call, n) && Blocks(s, call, n)
    ensures SendUpTo(s, call, |call.to|).state.records == SendUpTo(s, call, n).state.records
  {
    UpToBlocker(s, call, n, SendUpTo(s, call, n));
    UpToBlocker(s, call, n + 1, SendUpTo(s, call, n + 1));
    BlockerSendsNothing(s, call, n);
    StoppedStays(s, call, n + 1, |call.to|);
  }

  lemma FirstBlocker(s: State, call: Call) returns (n: nat)
    requires WellFormed(call)
    ensures StopsAt(s, call, n)
  {
    n := 0;
    while n < |call.to| && !Blocks(s, call, n)
      invariant n <= |call.to| && GetsPast(s, call, n)
    {
      n := n + 1;
    }
  }

  /** The blocking attempt itself leaves the records alone. */
  lemma BlockerSendsNothing(s: State, call: Call, n: nat)
    requires WellFormed(call) && n < |call.to| && !SendUpTo(s, call, n).stopped && SendUpTo(s, call, n + 1).stopped
    ensures SendUpTo(s, call, n + 1).state.records == SendUpTo(s, call, n).state.records
  {
  }

  /** A call without failures leaves its whole list sent, earlier sends untouched. */
  lemma FailureFreeCallSendsAll(s: State, call: Call)
    requires WellFormed(call) && call.hasKey && forall a :: a in call.attempts ==> a.Sends?
    ensures SentThrough(s, call, |call.to|, Send(s, call).records)
  {
    forall i | 0 <= i < |call.to| ensures call.attempts[i].Sends? {
      assert call.attempts[i] in call.attempts;
    }
    var n := CallSendsUpToFirstFailure(s, call);
  }

  // ------------------------------------------------------- any sequence of calls

  function Start(records: map<Slot, Option<Time>>): State {
    State(records, multiset{}, multiset{}, multiset{})
  }

  function SendAll(records: map<Slot, Option<Time>>, calls: seq<Call>): State
    requires forall c :: c in calls ==> WellFormed(c)
  {
    if calls == [] then Start(records)
    else
      assert calls[|calls| - 1] in calls;
      Send(SendAll(records, calls[..|calls| - 1]), calls[|calls| - 1])
  }

  /** A slot is committed once when it is sent now and was not at the start, and never otherwise. */
  ghost predicate Accounted(records: map<Slot, Option<Time>>, s: State, slot: Slot) {
    && s.committed[slot] == (if IsSent(s.records, slot) && !IsSent(records, slot) then 1 else 0)
    && s.delivered[slot] == s.committed[slot] + s.lost[slot]
    && (IsSent(records, slot) ==> IsSent(s.records, slot) && s.records[slot] == records[slot] && s.delivered[slot] == 0)
  }

  lemma OneAccounted(records: map<Slot, Option<Time>>, s: State, other: Slot, attempt: Attempt, slot: Slot)
    requires Accounted(records, s, slot)
    ensures Accounted(records, SendOne(s, other, attempt).state, slot)
  {
  }

  lemma {:induction false} UpToAccounted(records: map<Slot, Option<Time>>, s: State, call: Call, n: nat, slot: Slot)
    requires WellFormed(call) && n <= |call.to| && Accounted(records, s, slot)
    ensures Accounted(records, SendUpTo(s, call, n).state, slot)
  {
    if n > 0 {
      UpToAccounted(records, s, call, n - 1, slot);
      var before := SendUpTo(s, call, n - 1);
      if !before.stopped {
        OneAccounted(records, before.state, SlotAt(call, n - 1), call.attempts[n - 1], slot);
      }
    }
  }

  /**
   Over any sequence of calls each address gets at most one committed send per campaign, and every
   delivery is either that one or lost to a rollback. `DeliveredIsExact` says how many are lost.
   */
  lemma {:induction false} DeliveriesAreAccountedFor(records: map<Slot, Option<Time>>, calls: seq<Call>, slot: Slot)
    requires forall c :: c in calls ==> WellFormed(c)
    ensures var s := SendAll(records, calls);
            && Accounted(records, s, slot)
            && s.committed[slot] <= 1
            && s.delivered[slot] <= 1 + s.lost[slot]
  {
    if calls != [] {
      var past, call := calls[..|calls| - 1], calls[|calls| - 1];
      assert call in calls;
      DeliveriesAreAccountedFor(records, past, slot);
      if call.hasKey {
        UpToAccounted(records, SendAll(records, past), call, |call.to|, slot);
      }
    }
  }

  // ------------------------------------------------ deliveries lost to a rollback

  /** Recipient n stops the call by a failure after delivery. */
  ghost predicate StopsLateAt(s: State, call: Call, n: nat, slot: Slot)
    requires WellFormed(call) && n < |call.to|
  {
    && GetsPast(s, call, n)
    && Blocks(s, call, n)
    && call.attempts[n] == FailsAfterDelivery
    && SlotAt(call, n) == slot
  }

  /** The call stops at this slot, by a failure after delivery. */
  ghost predicate LateStop(s: State, call: Call, slot: Slot)
    requires WellFormed(call)
  {
    call.hasKey && exists n: nat :: n < |call.to| && StopsLateAt(s, call, n, slot)
  }

  /** Recipients that do not stop the call lose nothing. */
  lemma {:induction false} UpToLosesNothing(s: State, call: Call, n: nat, reached: Next)
    requires WellFormed(call) && n <= |call.to| && reached == SendUpTo(s, call, n) && !reached.stopped
    ensures reached.state.lost == s.lost
  {
    if n > 0 {
      var before := SendUpTo(s, call, n - 1);
      NextRecipient(s, call, n, before, reached);
      UpToLosesNothing(s, call, n - 1, before);
    }
  }

  lemma OneLoses(s: State, slot: Slot, attempt: Attempt)
    requires SendOne(s, slot, attempt).stopped
    ensures SendOne(s, slot, attempt).state.lost ==
            s.lost + if attempt == FailsAfterDelivery then multiset{slot} else multiset{}
  {
  }

  /** The recipient that stops the call loses its message exactly when it had been delivered. */
  lemma StopLoses(s: State, call: Call, n: nat, reached: Next)
    requires WellFormed(call) && n < |call.to| && StopsAt(s, call, n) && reached == SendUpTo(s, call, n + 1)
    ensures reached.stopped
    ensures reached.state.lost ==
            s.lost + if call.attempts[n] == FailsAfterDelivery then multiset{SlotAt(call, n)} else multiset{}
  {
    var before := SendUpTo(s, call, n);
    var next := SendOne(before.state, SlotAt(call, n), call.attempts[n]);
    assert !before.stopped && reached == next && next.stopped by {
      UpToBlocker(s, call, n, before);
      NextRecipient(s, call, n + 1, before, reached);
      NextSentThrough(s, call, n, before.state);
    }
    UpToLosesNothing(s, call, n, before);
    OneLoses(before.state, SlotAt(call, n), call.attempts[n]);
  }

  lemma OneStop(s: State, call: Call, n: nat, slot: Slot)
    requires WellFormed(call) && call.hasKey && StopsAt(s, call, n)
    ensures LateStop(s, call, slot) <==> n < |call.to| && StopsLateAt(s, call, n, slot)
  {
  }

  /** What a call that stops at n loses altogether. */
  lemma LostAtStop(s: State, call: Call, n: nat, end: State)
    requires WellFormed(call) && call.hasKey && n < |call.to| && StopsAt(s, call, n) && end == Send(s, call)
    ensures end.lost ==
            s.lost + if call.attempts[n] == FailsAfterDelivery then multiset{SlotAt(call, n)} else multiset{}
  {
    var reached := SendUpTo(s, call, n + 1);
    StopLoses(s, call, n, reached);
    EndOfLoop(s, call, n + 1, reached);
  }

  lemma LostWithoutStop(s: State, call: Call, end: State)
    requires WellFormed(call) && call.hasKey && StopsAt(s, call, |call.to|) && end == Send(s, call)
    ensures end.lost == s.lost
  {
    var reached := SendUpTo(s, call, |call.to|);
    UpToBlocker(s, call, |call.to|, reached);
    UpToLosesNothing(s, call, |call.to|, reached);
    EndOfLoop(s, call, |call.to|, reached);
  }

  /** A call loses a message exactly when it stops at that slot by a failure after delivery. */
  lemma LostIsExact(s: State, call: Call, slot: Slot, end: State)
    requires WellFormed(call) && end == Send(s, call)
    ensures end.lost[slot] == s.lost[slot] + if LateStop(s, call, slot) then 1 else 0
  {
    if call.hasKey {
      var n := FirstBlocker(s, call);
      OneStop(s, call, n, slot);
      if n < |call.to| {
        LostAtStop(s, call, n, end);
      } else {
        LostWithoutStop(s, call, end);
      }
    }
  }

  /** Call i of the run stops at this slot by a failure after delivery. */
  ghost predicate LateIn(records: map<Slot, Option<Time>>, calls: seq<Call>, i: nat, slot: Slot)
    requires i < |calls| && forall c :: c in calls ==> WellFormed(c)
  {
    LateStop(SendAll(records, calls[..i]), calls[i], slot)
  }

  ghost function LateStops(records: map<Slot, Option<Time>>, calls: seq<Call>, n: nat, slot: Slot): nat
    requires n <= |calls| && forall c :: c in calls ==> WellFormed(c)
  {
    if n == 0 then 0
    else LateStops(records, calls, n - 1, slot) + if LateIn(records, calls, n - 1, slot) then 1 else 0
  }

  lemma NextCall(records: map<Slot, Option<Time>>, calls: seq<Call>, n: nat)
    requires 0 < n <= |calls| && forall c :: c in calls ==> WellFormed(c)
    ensures SendAll(records, calls[..n]) == Send(SendAll(records, calls[..n - 1]), calls[n - 1])
  {
    assert calls[..n][..n - 1] == calls[..n - 1];
  }

  lemma {:induction false} LostInRun(records: map<Slot, Option<Time>>, calls: seq<Call>, n: nat, slot: Slot)
    requires n <= |calls| && forall c :: c in calls ==> WellFormed(c)
    ensures SendAll(records, calls[..n]).lost[slot] == LateStops(records, calls, n, slot)
  {
    if n > 0 {
      LostInRun(records, calls, n - 1, slot);
      NextCall(records, calls, n);
      LostIsExact(SendAll(records, calls[..n - 1]), calls[n - 1], slot, SendAll(records, calls[..n]));
    }
  }

  /** The slot was not sent when the run began and is sent when it ends. */
  ghost predicate NewlySent(records: map<Slot, Option<Time>>, calls: seq<Call>, slot: Slot)
    requires forall c :: c in calls ==> WellFormed(c)
  {
    IsSent(SendAll(records, calls).records, slot) && !IsSent(records, slot)
  }

  /** Over any run a slot gets one message for every late stop at it, and one more if it ends up newly sent. */
  lemma DeliveredIsExact(records: map<Slot, Option<Time>>, calls: seq<Call>, slot: Slot)
    requires forall c :: c in calls ==> WellFormed(c)
    ensures SendAll(records, calls).delivered[slot] ==
            LateStops(records, calls, |calls|, slot) + if NewlySent(records, calls, slot) then 1 else 0
  {
    DeliveriesAreAccountedFor(records, calls, slot);
    LostInRun(records, calls, |calls|, slot);
    assert calls[..|calls|] == calls;
  }

  lemma {:induction false} NoLateStops(records: map<Slot, Option<Time>>, calls: seq<Call>, n: nat, slot: Slot)
    requires n <= |calls| && forall c :: c in calls ==> WellFormed(c)
    ensures LateStops(records, calls, n, slot) == 0 <==> forall i: nat :: i < n ==> !LateIn(records, calls, i, slot)
  {
    if n > 0 {
      NoLateStops(records, calls, n - 1, slot);
    }
  }

  lemma {:induction false} OneLateStop(records: map<Slot, Option<Time>>, calls: seq<Call>, n: nat, slot: Slot)
    requires n <= |calls| && forall c :: c in calls ==> WellFormed(c)
    ensures LateStops(records, calls, n, slot) <= 1 <==>
            forall i: nat, j: nat :: i < j < n ==> !LateIn(records, calls, i, slot) || !LateIn(records, calls, j, slot)
  {
    if n > 0 {
      NoLateStops(records, calls, n - 1, slot);
      OneLateStop(records, calls, n - 1, slot);
    }
  }

  /** Nobody gets a message twice exactly when no two calls stop late at it, nor one that a later send makes up for. */
  lemma AtMostOneDelivery(records: map<Slot, Option<Time>>, calls: seq<Call>, slot: Slot)
    requires forall c :: c in calls ==> WellFormed(c)
    ensures SendAll(records, calls).delivered[slot] <= 1 <==>
            && (forall i: nat, j: nat :: i < j < |calls| ==>
                  !LateIn(records, calls, i, slot) || !LateIn(records, calls, j, slot))
            && (NewlySent(records, calls, slot) ==> forall i: nat :: i < |calls| ==> !LateIn(records, calls, i, slot))
  {
    DeliveredIsExact(records, calls, slot);
    NoLateStops(records, calls, |calls|, slot);
    OneLateStop(records, calls, |calls|, slot);
  }

  /** Late stops of a run are those of the same run followed by another call. */
  lemma {:induction false} LateStopsOfPrefix(
    records: map<Slot, Option<Time>>, calls: seq<Call>, again: Call, n: nat, slot: Slot)
    requires n <= |calls| && (forall c :: c in calls + [again] ==> WellFormed(c))
    ensures forall c :: c in calls ==> WellFormed(c)
    ensures LateStops(records, calls + [again], n, slot) == LateStops(records, calls, n, slot)
  {
    forall c | c in calls ensures WellFormed(c) {
      assert c in calls + [again];
    }
    if n > 0 {
      LateStopsOfPrefix(records, calls, again, n - 1, slot);
      assert (calls + [again])[..n - 1] == calls[..n - 1];
    }
  }

  lemma SendsNeverStopLate(s: State, call: Call, slot: Slot)
    requires WellFormed(call) && forall a :: a in call.attempts ==> a.Sends?
    ensures !LateStop(s, call, slot)
  {
    forall n: nat | n < |call.to| ensures !StopsLateAt(s, call, n, slot) {
      assert call.attempts[n] in call.attempts;
    }
  }

  lemma LastCallLosesNothing(records: map<Slot, Option<Time>>, calls: seq<Call>, again: Call, slot: Slot)
    requires forall c :: c in calls + [again] ==> WellFormed(c)
    requires forall a :: a in again.attempts ==> a.Sends?
    ensures forall c :: c in calls ==> WellFormed(c)
    ensures LateStops(records, calls + [again], |calls| + 1, slot) == LateStops(records, calls, |calls|, slot)
  {
    LateStopsOfPrefix(records, calls, again, |calls|, slot);
    assert again in calls + [again] && (calls + [again])[..|calls|] == calls;
    SendsNeverStopLate(SendAll(records, calls), again, slot);
  }

  lemma LastCallSends(records: map<Slot, Option<Time>>, calls: seq<Call>, again: Call, slot: Slot)
    requires forall c :: c in calls + [again] ==> WellFormed(c)
    requires again.hasKey && forall a :: a in again.attempts ==> a.Sends?
    requires again.campaign == slot.campaign && slot.rawEmail in again.to
    ensures IsSent(SendAll(records, calls + [again]).records, slot)
  {
    var run := calls + [again];
    assert again in run && run[..|calls|] == calls && run[..|run|] == run;
    NextCall(records, run, |run|);
    FailureFreeCallSendsAll(SendAll(records, calls), again);
    assert again.to[..|again.to|] == again.to;
  }

  /**
   A run that ends in a failure-free call for the slot's campaign delivers to it once, and once more for
   every late stop before: a recipient gets a message twice exactly when one call stopped late at it.
   */
  lemma CompletedRunDelivers(records: map<Slot, Option<Time>>, calls: seq<Call>, again: Call, slot: Slot)
    requires forall c :: c in calls + [again] ==> WellFormed(c)
    requires again.hasKey && forall a :: a in again.attempts ==> a.Sends?
    requires again.campaign == slot.campaign && slot.rawEmail in again.to && !IsSent(records, slot)
    ensures forall c :: c in calls ==> WellFormed(c)
    ensures SendAll(records, calls + [again]).delivered[slot] == 1 + LateStops(records, calls, |calls|, slot)
  {
    DeliveredIsExact(records, calls + [again], slot);
    LastCallLosesNothing(records, calls, again, slot);
    LastCallSends(records, calls, again, slot);
  }

  /** One call and its failure-free rerun deliver twice to a recipient exactly when the call stopped late at it. */
  lemma RerunDeliversTwiceExactly(records: map<Slot, Option<Time>>, first: Call, again: Call, slot: Slot)
    requires WellFormed(first) && WellFormed(again) && again.hasKey && forall a :: a in again.attempts ==> a.Sends?
    requires again.campaign == slot.campaign && slot.rawEmail in again.to && !IsSent(records, slot)
    ensures SendAll(records, [first, again]).delivered[slot] ==
            if LateStop(Start(records), first, slot) then 2 else 1
  {
    assert [first] + [again] == [first, again];
    CompletedRunDelivers(records, [first], again, slot);
    assert [first][..0] == [];
    assert LateStops(records, [first], 1, slot) ==
           LateStops(records, [first], 0, slot) + if LateIn(records, [first], 0, slot) then 1 else 0;
  }

  /** The exception is real: any unsent address can be the one that a late failure and a rerun deliver to twice. */
  lemma LateFailureDeliversTwice(records: map<Slot, Option<Time>>, slot: Slot, at: Time)
    requires !IsSent(records, slot)
    ensures var first := Call(true, slot.campaign, [slot.rawEmail], [FailsAfterDelivery]);
            var again := Call(true, slot.campaign, [slot.rawEmail], [Sends(at)]);
            SendAll(records, [first, again]).delivered[slot] == 2
  {
    var first := Call(true, slot.campaign, [slot.rawEmail], [FailsAfterDelivery]);
    var again := Call(true, slot.campaign, [slot.rawEmail], [Sends(at)]);
    RerunDeliversTwiceExactly(records, first, again, slot);
    assert StopsLateAt(Start(records), first, 0, slot);
  }
}
