/**
 * SplitBill, Participant and SplitBillServiceImpl: a bill shared among
 * participants, paid off one participant at a time, and the per-user summary.
 */
module SplitBills {
  import opened Errors

  /** An embedded Participant; the id is null until the service assigns a UUID. */
  datatype Participant = Participant(id: Option<string>, name: string, email: string, amountOwed: int, paid: bool)

  /** The SplitBill document (description and category play no part here). */
  datatype SplitBill = SplitBill(
    id: string, userId: string, name: string, totalAmount: int,
    participants: seq<Participant>, settled: bool)

  /** A bill as the builder makes it: no participants and not settled. */
  function BuiltBill(id: string, userId: string, name: string, totalAmount: int): (b: SplitBill)
    ensures b.participants == [] && !b.settled
    ensures PaidAmount(b) == 0 && RemainingAmount(b) == totalAmount
  {
    SplitBill(id, userId, name, totalAmount, [], false)
  }

  /** A participant as the builder makes it: not paid. */
  function BuiltParticipant(id: Option<string>, name: string, email: string, amountOwed: int): (p: Participant)
    ensures !p.paid && PaidOf([p]) == 0
  {
    Participant(id, name, email, amountOwed, false)
  }

  /** The sum of amountOwed over the paid participants. */
  function PaidOf(ps: seq<Participant>): int {
    if ps == [] then 0 else (if ps[0].paid then ps[0].amountOwed else 0) + PaidOf(ps[1..])
  }

  /** The sum of amountOwed over all participants. */
  function OwedOf(ps: seq<Participant>): int {
    if ps == [] then 0 else ps[0].amountOwed + OwedOf(ps[1..])
  }

  /** SplitBill.getPaidAmount: the shares of the participants marked paid. */
  function PaidAmount(b: SplitBill): (paid: int)
    ensures (forall p :: p in b.participants ==> !p.paid) ==> paid == 0
    ensures AllPaid(b.participants) ==> paid == OwedOf(b.participants)
    ensures (forall p :: p in b.participants ==> p.amountOwed >= 0) ==> 0 <= paid <= OwedOf(b.participants)
  {
    PaidOfBounds(b.participants);
    PaidOf(b.participants)
  }

  /**
   * SplitBill.getRemainingAmount: the total minus what has been paid; the
   * whole total while nobody has paid, the total less all shares once
   * everyone has.
   */
  function RemainingAmount(b: SplitBill): (remaining: int)
    ensures (forall p :: p in b.participants ==> !p.paid) ==> remaining == b.totalAmount
    ensures AllPaid(b.participants) ==> remaining == b.totalAmount - OwedOf(b.participants)
    ensures (forall p :: p in b.participants ==> p.amountOwed >= 0) ==>
      b.totalAmount - OwedOf(b.participants) <= remaining <= b.totalAmount
  {
    b.totalAmount - PaidAmount(b)
  }

  predicate AllPaid(ps: seq<Participant>) {
    forall p :: p in ps ==> p.paid
  }

  /**
   * The paid amount is nothing while nobody has paid and everything owed once
   * all have; with non-negative shares it lies between the two.
   */
  lemma {:induction false} PaidOfBounds(ps: seq<Participant>)
    ensures (forall p :: p in ps ==> !p.paid) ==> PaidOf(ps) == 0
    ensures AllPaid(ps) ==> PaidOf(ps) == OwedOf(ps)
    ensures (forall p :: p in ps ==> p.amountOwed >= 0) ==> 0 <= PaidOf(ps) <= OwedOf(ps)
  {
    if ps != [] {
      assert ps[0] in ps && forall p :: p in ps[1..] ==> p in ps;
      PaidOfBounds(ps[1..]);
    }
  }

  /** Setting one participant's paid flag changes the paid amount by that participant's share only. */
  lemma {:induction false} PaidOfUpdate(ps: seq<Participant>, k: nat, p: Participant)
    requires k < |ps|
    ensures PaidOf(ps[k := p]) == PaidOf(ps) - (if ps[k].paid then ps[k].amountOwed else 0)
                                            + (if p.paid then p.amountOwed else 0)
  {
    if k > 0 {
      assert ps[k := p][1..] == ps[1..][k - 1 := p];
      PaidOfUpdate(ps[1..], k - 1, p);
    } else {
      assert ps[k := p][1..] == ps[1..];
    }
  }

  /** The paid amount of a concatenation is the sum of the paid amounts. */
  lemma {:induction false} PaidOfAppend(xs: seq<Participant>, ys: seq<Participant>)
    ensures PaidOf(xs + ys) == PaidOf(xs) + PaidOf(ys)
  {
    if xs != [] {
      assert (xs + ys)[0] == xs[0] && (xs + ys)[1..] == xs[1..] + ys;
      PaidOfAppend(xs[1..], ys);
    } else {
      assert xs + ys == ys;
    }
  }

  /** `stream().filter(p -> p.getId().equals(participantId)).findFirst()`, as a position. */
  function FirstWithId(ps: seq<Participant>, pid: string): (k: Option<nat>)
    ensures k.Some? ==> k.value < |ps| && ps[k.value].id == Some(pid)
                        && forall j :: 0 <= j < k.value ==> ps[j].id != Some(pid)
    ensures k.None? <==> forall p :: p in ps ==> p.id != Some(pid)
  {
    if ps == [] then None
    else if ps[0].id == Some(pid) then Some(0)
    else match FirstWithId(ps[1..], pid)
      case None => None
      case Some(k) => Some(k + 1)
  }

  /**
   * The effect of markParticipantAsPaid on a bill: NotFound when no
   * participant has the id; otherwise the first participant with it is paid,
   * and the bill becomes settled if everyone is now paid (it never becomes
   * unsettled).
   */
  function MarkPaid(b: SplitBill, pid: string): (r: Result<SplitBill>)
    ensures r.Err? <==> forall p :: p in b.participants ==> p.id != Some(pid)
    ensures r.Err? ==> r.error == NotFound
    ensures r.Ok? ==>
      var k := FirstWithId(b.participants, pid).value;
      && r.value.participants == b.participants[k := b.participants[k].(paid := true)]
      && r.value == b.(participants := r.value.participants, settled := r.value.settled)
      && (r.value.settled <==> b.settled || AllPaid(r.value.participants))
  {
    match FirstWithId(b.participants, pid)
    case None => Err(NotFound)
    case Some(k) =>
      var ps := b.participants[k := b.participants[k].(paid := true)];
      Ok(b.(participants := ps, settled := b.settled || AllPaid(ps)))
  }

  /**
   * Marking a participant moves their share, once, from the remaining amount
   * to the paid amount (the total stays), and never unsettles the bill.
   */
  lemma MarkPaidAddsShare(b: SplitBill, pid: string)
    requires MarkPaid(b, pid).Ok?
    ensures var k := FirstWithId(b.participants, pid).value;
      PaidAmount(MarkPaid(b, pid).value)
        == PaidAmount(b) + (if b.participants[k].paid then 0 else b.participants[k].amountOwed)
    ensures var k := FirstWithId(b.participants, pid).value;
      && MarkPaid(b, pid).value.totalAmount == b.totalAmount
      && RemainingAmount(MarkPaid(b, pid).value)
        == RemainingAmount(b) - (if b.participants[k].paid then 0 else b.participants[k].amountOwed)
    ensures b.settled ==> MarkPaid(b, pid).value.settled
    ensures AllPaid(MarkPaid(b, pid).value.participants) ==> MarkPaid(b, pid).value.settled
  {
    var k := FirstWithId(b.participants, pid).value;
    PaidOfUpdate(b.participants, k, b.participants[k].(paid := true));
  }

  /** Two participant lists with the same ids, position by position, find the same first match. */
  lemma {:induction false} FirstWithIdSameIds(xs: seq<Participant>, ys: seq<Participant>, pid: string)
    requires |xs| == |ys|
    requires forall i :: 0 <= i < |xs| ==> xs[i].id == ys[i].id
    ensures FirstWithId(xs, pid) == FirstWithId(ys, pid)
  {
    if xs != [] {
      assert xs[0].id == ys[0].id;
      FirstWithIdSameIds(xs[1..], ys[1..], pid);
    }
  }

  /** Under distinct ids, a participant is identified by its id. */
  lemma DistinctIdsSameIndex(ps: seq<Participant>, i: int, k: int)
    requires DistinctIds(ps) && 0 <= i < |ps| && 0 <= k < |ps| && ps[i].id == ps[k].id
    ensures i == k
  {
  }

  /** Marking the same participant twice is the same as marking them once. */
  lemma MarkPaidIdempotent(b: SplitBill, pid: string)
    requires MarkPaid(b, pid).Ok?
    ensures MarkPaid(MarkPaid(b, pid).value, pid) == MarkPaid(b, pid)
  {
    var once := MarkPaid(b, pid).value;
    var k := FirstWithId(b.participants, pid).value;
    FirstWithIdSameIds(b.participants, once.participants, pid);
    assert once.participants[k := once.participants[k].(paid := true)] == once.participants;
  }

  /** Marking a run of participant ids one after another; a NotFound leaves the bill as it was. */
  function MarkAll(b: SplitBill, pids: seq<string>): SplitBill
    decreases |pids|
  {
    if pids == [] then b
    else
      var prev := MarkAll(b, pids[..|pids| - 1]);
      match MarkPaid(prev, pids[|pids| - 1])
      case Ok(next) => next
      case Err(_) => prev
  }

  /** No two participants share an id. */
  predicate DistinctIds(ps: seq<Participant>) {
    forall i, j :: 0 <= i < j < |ps| ==> ps[i].id != ps[j].id
  }

  /**
   * Marking keeps the participants and their ids, never clears a paid flag,
   * and, when ids are distinct, pays every participant whose id was marked.
   */
  lemma {:induction false} MarkAllProgress(b: SplitBill, pids: seq<string>)
    requires DistinctIds(b.participants)
    ensures var m := MarkAll(b, pids);
      && |m.participants| == |b.participants|
      && (forall i :: 0 <= i < |b.participants| ==>
            m.participants[i] == b.participants[i].(paid := m.participants[i].paid))
      && (forall i :: 0 <= i < |b.participants| && b.participants[i].paid ==> m.participants[i].paid)
      && (forall i :: 0 <= i < |b.participants| && b.participants[i].id.Some? && b.participants[i].id.value in pids
            ==> m.participants[i].paid)
      && (b.settled ==> m.settled)
      && m == b.(participants := m.participants, settled := m.settled)
    decreases |pids|
  {
    if pids != [] {
      var init, last := pids[..|pids| - 1], pids[|pids| - 1];
      MarkAllProgress(b, init);
      var prev := MarkAll(b, init);
      assert pids == init + [last];
      match MarkPaid(prev, last)
      case Ok(next) =>
        var k := FirstWithId(prev.participants, last).value;
        forall i | 0 <= i < |b.participants| && b.participants[i].id == Some(last)
          ensures next.participants[i].paid
        {
          assert prev.participants[k].id == b.participants[k].id;
          DistinctIdsSameIndex(b.participants, i, k);
        }
      case Err(_) =>
    }
  }

  /**
   * Once a non-empty run of marks has left every participant paid, the bill is
   * settled: the last mark that found its participant saw everyone paid.
   */
  lemma {:induction false} AllPaidAfterMarkingSettles(b: SplitBill, pids: seq<string>)
    requires DistinctIds(b.participants)
    requires AllPaid(MarkAll(b, pids).participants)
    requires exists i :: 0 <= i < |b.participants| && b.participants[i].id.Some? && b.participants[i].id.value in pids
    ensures MarkAll(b, pids).settled
    decreases |pids|
  {
    var i :| 0 <= i < |b.participants| && b.participants[i].id.Some? && b.participants[i].id.value in pids;
    var init, last := pids[..|pids| - 1], pids[|pids| - 1];
    assert pids == init + [last];
    var prev := MarkAll(b, init);
    MarkAllProgress(b, init);
    match MarkPaid(prev, last)
    case Ok(next) =>
    case Err(_) =>
      assert prev.participants[i].id == b.participants[i].id && prev.participants[i] in prev.participants;
      assert b.participants[i].id.value in init;
      AllPaidAfterMarkingSettles(b, init);
  }

  /** Marking every participant of a bill with distinct ids, in any order, settles it. */
  lemma MarkingEveryoneSettles(b: SplitBill, pids: seq<string>)
    requires |b.participants| > 0 && DistinctIds(b.participants)
    requires forall p :: p in b.participants ==> p.id.Some? && p.id.value in pids
    ensures MarkAll(b, pids).settled
    ensures PaidAmount(MarkAll(b, pids)) == OwedOf(b.participants)
    ensures RemainingAmount(MarkAll(b, pids)) == b.totalAmount - OwedOf(b.participants)
  {
    MarkAllProgress(b, pids);
    var m := MarkAll(b, pids);
    assert AllPaid(m.participants) by {
      forall p | p in m.participants
        ensures p.paid
      {
        var i :| 0 <= i < |m.participants| && m.participants[i] == p;
        assert b.participants[i] in b.participants;
      }
    }
    assert b.participants[0] in b.participants;
    AllPaidAfterMarkingSettles(b, pids);
    PaidAllOwed(m.participants, b.participants);
  }

  /** When everyone is paid, the paid amount is everything owed; shares and ids compared position by position. */
  lemma {:induction false} PaidAllOwed(ms: seq<Participant>, bs: seq<Participant>)
    requires |ms| == |bs| && AllPaid(ms)
    requires forall i :: 0 <= i < |ms| ==> ms[i].amountOwed == bs[i].amountOwed
    ensures PaidOf(ms) == OwedOf(bs)
  {
    if ms != [] {
      assert ms[0] in ms;
      assert forall i :: 0 <= i < |ms[1..]| ==> ms[1..][i].amountOwed == bs[1..][i].amountOwed by {
        forall i | 0 <= i < |ms[1..]|
          ensures ms[1..][i].amountOwed == bs[1..][i].amountOwed
        {
          assert ms[i + 1].amountOwed == bs[i + 1].amountOwed;
        }
      }
      PaidAllOwed(ms[1..], bs[1..]);
    }
  }

  /** Marking one more id is one more MarkPaid on the bill marked so far. */
  lemma MarkAllSnoc(b: SplitBill, pids: seq<string>, pid: string)
    ensures MarkPaid(MarkAll(b, pids), pid).Ok? ==>
      MarkAll(b, pids + [pid]) == MarkPaid(MarkAll(b, pids), pid).value
  {
    assert (pids + [pid])[..|pids|] == pids;
  }

  /** A three-way dinner bill of 90.00, 30.00 a head, before anyone pays. */
  predicate DinnerBill(bill: SplitBill, a: string, b: string, c: string) {
    && a != b && b != c && a != c
    && bill.totalAmount == 9000 && !bill.settled
    && bill.participants == [BuiltParticipant(Some(a), "A", "a@x", 3000),
                             BuiltParticipant(Some(b), "B", "b@x", 3000),
                             BuiltParticipant(Some(c), "C", "c@x", 3000)]
  }

  /** After A of the dinner pays: A's flag is set and 30.00 is paid; the bill is not settled. */
  lemma DinnerAfterOne(bill: SplitBill, a: string, b: string, c: string)
    requires DinnerBill(bill, a, b, c)
    ensures MarkAll(bill, [a]) == bill.(participants := bill.participants[0 := bill.participants[0].(paid := true)])
    ensures PaidAmount(MarkAll(bill, [a])) == 3000
  {
    var ps := bill.participants;
    var marked := ps[0 := ps[0].(paid := true)];
    assert FirstWithId(ps, a) == Some(0);
    assert !AllPaid(marked) by { assert marked[1] in marked; }
    assert MarkPaid(bill, a) == Ok(bill.(participants := marked));
    MarkAllSnoc(bill, [], a);
    assert [] + [a] == [a];
    PaidOfBounds(ps);
    PaidOfUpdate(ps, 0, ps[0].(paid := true));
  }

  /** After A and B of the dinner pay: 60.00 paid, 30.00 remaining, not settled. */
  lemma DinnerAfterTwo(bill: SplitBill, a: string, b: string, c: string)
    requires DinnerBill(bill, a, b, c)
    ensures PaidAmount(MarkAll(bill, [a, b])) == 6000
    ensures RemainingAmount(MarkAll(bill, [a, b])) == 3000
    ensures !MarkAll(bill, [a, b]).settled
  {
    DinnerAfterOne(bill, a, b, c);
    var one := MarkAll(bill, [a]);
    assert FirstWithId(one.participants, b) == Some(1) by {
      assert one.participants[0].id != Some(b) && one.participants[1].id == Some(b);
    }
    var two := MarkPaid(one, b).value;
    MarkAllSnoc(bill, [a], b);
    assert [a] + [b] == [a, b];
    assert !AllPaid(two.participants) by { assert two.participants[2] in two.participants; }
    PaidOfUpdate(one.participants, 1, one.participants[1].(paid := true));
  }

  /** After C pays as well, the dinner bill is settled with nothing remaining. */
  lemma DinnerSettles(bill: SplitBill, a: string, b: string, c: string)
    requires DinnerBill(bill, a, b, c)
    ensures MarkAll(bill, [a, b, c]).settled
    ensures RemainingAmount(MarkAll(bill, [a, b, c])) == 0
  {
    var ps := bill.participants;
    assert DistinctIds(ps);
    assert forall p :: p in ps ==> p.id.Some? && p.id.value in [a, b, c];
    assert OwedOf(ps) == 9000 by {
      assert ps[1..][1..][1..] == [];
      assert OwedOf(ps[1..][1..]) == 3000;
      assert OwedOf(ps[1..]) == 6000;
    }
    MarkingEveryoneSettles(bill, [a, b, c]);
  }

  /**
   * addParticipants never recomputes settled: a settled bill that gains an
   * unpaid participant is still reported settled though someone has not paid.
   */
  lemma AddingToSettledBillKeepsItSettled(b: SplitBill, p: Participant)
    requires b.settled && !p.paid
    ensures var after := b.(participants := b.participants + [p]);
      after.settled && !AllPaid(after.participants)
  {
    assert (b.participants + [p])[|b.participants|] == p;
  }

  /** A source of UUID.randomUUID() values: the stream of strings it hands out, and how many were drawn. */
  class UuidSource {
    const stream: nat -> string
    var drawn: nat

    constructor (stream: nat -> string)
      ensures this.stream == stream && drawn == 0
    {
      this.stream := stream;
      drawn := 0;
    }

    method Next() returns (u: string)
      modifies this
      ensures u == stream(old(drawn)) && drawn == old(drawn) + 1
    {
      u := stream(drawn);
      drawn := drawn + 1;
    }
  }

  /** How many of ps have no id. */
  function MissingIds(ps: seq<Participant>): nat {
    if ps == [] then 0 else MissingIds(ps[..|ps| - 1]) + (if ps[|ps| - 1].id.None? then 1 else 0)
  }

  predicate Identified(ps: seq<Participant>) {
    forall p :: p in ps ==> p.id.Some?
  }

  /** Counting the missing ids of one more participant. */
  lemma MissingIdsStep(ps: seq<Participant>, i: nat)
    requires i < |ps|
    ensures MissingIds(ps[..i + 1]) == MissingIds(ps[..i]) + (if ps[i].id.None? then 1 else 0)
  {
    assert ps[..i + 1][..i] == ps[..i];
  }

  /** A list whose every entry has an id is identified. */
  lemma IdentifiedByIndex(ps: seq<Participant>)
    requires forall j :: 0 <= j < |ps| ==> ps[j].id.Some?
    ensures Identified(ps)
  {
    forall p | p in ps
      ensures p.id.Some?
    {
      var j :| 0 <= j < |ps| && ps[j] == p;
    }
  }

  /**
   * The id assignment createSplitBill and addParticipants perform: each
   * participant without an id, in order, gets the next UUID; the others keep
   * theirs, and nothing else about a participant changes.
   */
  method AssignMissingIds(ps: seq<Participant>, uuids: UuidSource) returns (r: seq<Participant>)
    modifies uuids
    ensures uuids.drawn == old(uuids.drawn) + MissingIds(ps)
    ensures |r| == |ps| && Identified(r)
    ensures forall i :: 0 <= i < |ps| ==>
      r[i] == ps[i].(id := if ps[i].id.Some? then ps[i].id
                           else Some(uuids.stream(old(uuids.drawn) + MissingIds(ps[..i]))))
  {
    ghost var start := uuids.drawn;
    r := [];
    for i := 0 to |ps|
      invariant |r| == i
      invariant uuids.drawn == start + MissingIds(ps[..i])
      invariant IdsAssignedUpTo(r, ps, uuids.stream, start)
    {
      MissingIdsStep(ps, i);
      var p := ps[i];
      if p.id.None? {
        var u := uuids.Next();
        p := p.(id := Some(u));
      }
      IdsAssignedAppend(r, ps, uuids.stream, start, p);
      r := r + [p];
    }
    assert ps[..|ps|] == ps;
    IdentifiedByIndex(r);
  }

  /**
   * The first |r| participants of ps as AssignMissingIds leaves them: an id
   * kept, or the next value of the stream counted from `start`.
   */
  predicate IdsAssignedUpTo(r: seq<Participant>, ps: seq<Participant>, stream: nat -> string, start: nat) {
    && |r| <= |ps|
    && forall j :: 0 <= j < |r| ==>
         r[j] == ps[j].(id := if ps[j].id.Some? then ps[j].id else Some(stream(start + MissingIds(ps[..j]))))
  }

  /** Appending the next participant, with its id assigned, extends the assigned prefix. */
  lemma IdsAssignedAppend(r: seq<Participant>, ps: seq<Participant>, stream: nat -> string, start: nat,
                          p: Participant)
    requires IdsAssignedUpTo(r, ps, stream, start) && |r| < |ps|
    requires p == ps[|r|].(id := if ps[|r|].id.Some? then ps[|r|].id
                                 else Some(stream(start + MissingIds(ps[..|r|]))))
    ensures IdsAssignedUpTo(r + [p], ps, stream, start)
  {
    var extended := r + [p];
    assert forall j :: 0 <= j < |r| ==> extended[j] == r[j];
    assert extended[|r|] == p;
  }

  /**
   * after is before with the added participants appended in input order:
   * each keeps everything but a missing id, an id it had is kept and one it
   * lacked is given. The total, the settled flag and the rest of the bill are
   * unchanged.
   */
  predicate AppendedWithIds(before: SplitBill, added: seq<Participant>, after: SplitBill) {
    && after == before.(participants := after.participants)
    && |after.participants| == |before.participants| + |added|
    && after.participants[..|before.participants|] == before.participants
    && forall i :: 0 <= i < |added| ==>
         && after.participants[|before.participants| + i]
              == added[i].(id := after.participants[|before.participants| + i].id)
         && (added[i].id.Some? ==> after.participants[|before.participants| + i].id == added[i].id)
         && after.participants[|before.participants| + i].id.Some?
  }

  /**
   * Each participant of `added` without an id got, as its counterpart in
   * `withIds`, the stream value after the ones drawn for those before it.
   */
  predicate IdsDrawnInOrder(added: seq<Participant>, withIds: seq<Participant>, stream: nat -> string, start: nat) {
    && |withIds| == |added|
    && forall i :: 0 <= i < |added| && added[i].id.None? ==>
         withIds[i].id == Some(stream(start + MissingIds(added[..i])))
  }

  /** Appending what AssignMissingIds returns is an append with ids, drawn in order. */
  lemma AppendAssigned(bill: SplitBill, added: seq<Participant>, ps: seq<Participant>,
                       stream: nat -> string, start: nat)
    requires |ps| == |added| && Identified(ps)
    requires forall i :: 0 <= i < |added| ==>
      ps[i] == added[i].(id := if added[i].id.Some? then added[i].id
                               else Some(stream(start + MissingIds(added[..i]))))
    ensures AppendedWithIds(bill, added, bill.(participants := bill.participants + ps))
    ensures IdsDrawnInOrder(added, (bill.participants + ps)[|bill.participants|..], stream, start)
  {
    var all := bill.participants + ps;
    assert all[..|bill.participants|] == bill.participants;
    assert all[|bill.participants|..] == ps;
    assert forall i :: 0 <= i < |added| ==> all[|bill.participants| + i] == ps[i];
    assert forall i :: 0 <= i < |ps| ==> ps[i].id.Some? by {
      forall i | 0 <= i < |ps|
        ensures ps[i].id.Some?
      {
        assert ps[i] in ps;
      }
    }
  }

  /** Appending participants adds exactly what they have already paid to the bill's paid amount. */
  lemma AppendedPaidAmount(before: SplitBill, added: seq<Participant>, after: SplitBill)
    requires AppendedWithIds(before, added, after)
    ensures PaidAmount(after) == PaidAmount(before) + PaidOf(added)
    ensures RemainingAmount(after) == RemainingAmount(before) - PaidOf(added)
    ensures after.settled == before.settled && after.totalAmount == before.totalAmount
  {
    var n := |before.participants|;
    var ps := after.participants[n..];
    assert after.participants == before.participants + ps;
    assert forall i :: 0 <= i < |added| ==> ps[i] == after.participants[n + i];
    PaidOfAppend(before.participants, ps);
    PaidOfIgnoresIds(added, ps);
  }

  /** findByIdAndUserId, as the position of the bill. */
  function FindBill(bills: seq<SplitBill>, id: string, userId: string): (k: Option<nat>)
    ensures k.Some? ==> k.value < |bills| && bills[k.value].id == id && bills[k.value].userId == userId
    ensures k.None? <==> forall b :: b in bills ==> !(b.id == id && b.userId == userId)
  {
    if bills == [] then None
    else if bills[|bills| - 1].id == id && bills[|bills| - 1].userId == userId then Some(|bills| - 1)
    else FindBill(bills[..|bills| - 1], id, userId)
  }

  /** Bill ids are unique, as the split_bills collection's primary key keeps them. */
  predicate ValidBills(bills: seq<SplitBill>) {
    forall i, j :: 0 <= i < j < |bills| ==> bills[i].id != bills[j].id
  }

  /** Storing a bill back under its own id keeps bill ids unique. */
  lemma ReplaceKeepsIds(bills: seq<SplitBill>, k: int, b: SplitBill)
    requires ValidBills(bills) && 0 <= k < |bills| && b.id == bills[k].id
    ensures ValidBills(bills[k := b])
  {
  }

  /** The split_bills collection, as the service sees it through SplitBillRepository. */
  class SplitBillStore {
    var bills: seq<SplitBill>

    ghost predicate Valid()
      reads this
    {
      ValidBills(bills)
    }

    constructor ()
      ensures Valid() && bills == []
    {
      bills := [];
    }

    /**
     * createSplitBill: the DTO's bill (total at least 0.01) under the caller's
     * id, not settled, its participants given ids where they have none;
     * newId is the id the store assigns.
     */
    method CreateSplitBill(userId: string, name: string, totalAmount: int, participants: seq<Participant>,
                           newId: string, uuids: UuidSource)
      returns (b: SplitBill)
      requires Valid()
      requires totalAmount >= 1
      requires forall x :: x in bills ==> x.id != newId
      modifies this, uuids
      ensures Valid()
      ensures b.id == newId && b.userId == userId && b.name == name && b.totalAmount == totalAmount
      ensures !b.settled
      ensures |b.participants| == |participants|
      ensures forall i :: 0 <= i < |participants| ==>
        b.participants[i] == participants[i].(id := b.participants[i].id)
        && (participants[i].id.Some? ==> b.participants[i].id == participants[i].id)
        && b.participants[i].id.Some?
      ensures uuids.drawn == old(uuids.drawn) + MissingIds(participants)
      ensures bills == old(bills) + [b]
    {
      var ps := AssignMissingIds(participants, uuids);
      b := SplitBill(newId, userId, name, totalAmount, ps, false);
      bills := bills + [b];
    }

    /**
     * addParticipants: NotFound unless the caller owns the bill; otherwise the
     * new participants, given ids where they have none, are appended and
     * everything else, settled included, is kept.
     */
    method AddParticipants(id: string, userId: string, added: seq<Participant>, uuids: UuidSource)
      returns (r: Result<SplitBill>)
      requires Valid()
      modifies this, uuids
      ensures Valid()
      ensures FindBill(old(bills), id, userId).None? ==>
        r == Err(NotFound) && bills == old(bills) && uuids.drawn == old(uuids.drawn)
      ensures FindBill(old(bills), id, userId).Some? ==>
        var k := FindBill(old(bills), id, userId).value;
        && r.Ok? && AppendedWithIds(old(bills)[k], added, r.value)
        && bills == old(bills)[k := r.value]
        && uuids.drawn == old(uuids.drawn) + MissingIds(added)
        && IdsDrawnInOrder(added, r.value.participants[|old(bills)[k].participants|..],
                           uuids.stream, old(uuids.drawn))
    {
      var found := FindBill(bills, id, userId);
      if found.None? {
        return Err(NotFound);
      }
      var k := found.value;
      var bill := bills[k];
      ghost var start := uuids.drawn;
      var ps := AssignMissingIds(added, uuids);
      var updated := bill.(participants := bill.participants + ps);
      AppendAssigned(bill, added, ps, uuids.stream, start);
      ReplaceKeepsIds(bills, k, updated);
      bills := bills[k := updated];
      r := Ok(updated);
    }

    /**
     * markParticipantAsPaid: NotFound unless the caller owns the bill and it
     * has a participant with the id; otherwise the bill as MarkPaid leaves it.
     */
    method MarkParticipantAsPaid(billId: string, userId: string, pid: string) returns (r: Result<SplitBill>)
      requires Valid()
      modifies this
      ensures Valid()
      ensures FindBill(old(bills), billId, userId).None? ==> r == Err(NotFound) && bills == old(bills)
      ensures FindBill(old(bills), billId, userId).Some? ==>
        var k := FindBill(old(bills), billId, userId).value;
        && r == MarkPaid(old(bills)[k], pid)
        && bills == (if r.Ok? then old(bills)[k := r.value] else old(bills))
    {
      var found := FindBill(bills, billId, userId);
      if found.None? {
        return Err(NotFound);
      }
      var k := found.value;
      var bill := bills[k];
      var j := FirstWithId(bill.participants, pid);
      if j.None? {
        return Err(NotFound);
      }
      var ps := bill.participants[j.value := bill.participants[j.value].(paid := true)];
      bill := bill.(participants := ps);
      var allPaid := forall p :: p in ps ==> p.paid;
      if allPaid {
        bill := bill.(settled := true);
      }
      bills := bills[k := bill];
      r := Ok(bill);
    }
  }

  /** Giving participants ids does not change what they have paid. */
  lemma {:induction false} PaidOfIgnoresIds(xs: seq<Participant>, ys: seq<Participant>)
    requires |xs| == |ys|
    requires forall i :: 0 <= i < |xs| ==> ys[i] == xs[i].(id := ys[i].id)
    ensures PaidOf(ys) == PaidOf(xs)
  {
    if xs != [] {
      assert forall i :: 0 <= i < |xs[1..]| ==> ys[1..][i] == xs[1..][i].(id := ys[1..][i].id) by {
        forall i | 0 <= i < |xs[1..]|
          ensures ys[1..][i] == xs[1..][i].(id := ys[1..][i].id)
        {
          assert ys[i + 1] == xs[i + 1].(id := ys[i + 1].id);
        }
      }
      assert ys[0] == xs[0].(id := ys[0].id);
      PaidOfIgnoresIds(xs[1..], ys[1..]);
    }
  }

  /** findByUserId. */
  function OwnedBills(bills: seq<SplitBill>, userId: string): (r: seq<SplitBill>)
    ensures |r| <= |bills|
    ensures forall b :: b in r <==> b in bills && b.userId == userId
  {
    if bills == [] then []
    else (if bills[0].userId == userId then [bills[0]] else []) + OwnedBills(bills[1..], userId)
  }

  /** `filter(SplitBill::isSettled).count()`. */
  function CountSettled(bs: seq<SplitBill>): (n: int)
    ensures 0 <= n <= |bs|
  {
    if bs == [] then 0 else (if bs[0].settled then 1 else 0) + CountSettled(bs[1..])
  }

  /** The size of findByUserIdAndSettled(userId, false) over bs. */
  function CountUnsettled(bs: seq<SplitBill>): (n: int)
    ensures 0 <= n <= |bs|
  {
    if bs == [] then 0 else (if bs[0].settled then 0 else 1) + CountUnsettled(bs[1..])
  }

  lemma {:induction false} SettledPlusUnsettled(bs: seq<SplitBill>)
    ensures CountSettled(bs) + CountUnsettled(bs) == |bs|
  {
    if bs != [] {
      SettledPlusUnsettled(bs[1..]);
    }
  }

  function SumTotals(bs: seq<SplitBill>): int {
    if bs == [] then 0 else bs[0].totalAmount + SumTotals(bs[1..])
  }

  function SumPaid(bs: seq<SplitBill>): int {
    if bs == [] then 0 else PaidAmount(bs[0]) + SumPaid(bs[1..])
  }

  function SumRemaining(bs: seq<SplitBill>): int {
    if bs == [] then 0 else RemainingAmount(bs[0]) + SumRemaining(bs[1..])
  }

  /** What is still owed overall is the sum of what each bill still has to collect. */
  lemma {:induction false} PendingIsSumOfRemaining(bs: seq<SplitBill>)
    ensures SumTotals(bs) - SumPaid(bs) == SumRemaining(bs)
  {
    if bs != [] {
      PendingIsSumOfRemaining(bs[1..]);
    }
  }

  /** SplitBillSummaryDto. */
  datatype SplitBillSummary = SplitBillSummary(
    totalBills: int, settledBills: int, pendingBills: int,
    totalAmountOwed: int, totalAmountPaid: int, totalAmountPending: int)

  /**
   * getSummary over the caller's bills: how many there are, how many are
   * settled and how many are not, the totals, what has been paid and what is
   * still to be collected.
   */
  function GetSummary(bills: seq<SplitBill>, userId: string): (s: SplitBillSummary)
    ensures var owned := OwnedBills(bills, userId);
      && s.totalBills == |owned|
      && s.settledBills == CountSettled(owned)
      && s.pendingBills == CountUnsettled(owned)
      && s.totalAmountOwed == SumTotals(owned)
      && s.totalAmountPaid == SumPaid(owned)
      && s.totalAmountPending == SumRemaining(owned)
    ensures s.settledBills + s.pendingBills == s.totalBills
    ensures s.totalAmountPaid + s.totalAmountPending == s.totalAmountOwed
  {
    var owned := OwnedBills(bills, userId);
    var settled := CountSettled(owned);
    SettledPlusUnsettled(owned);
    PendingIsSumOfRemaining(owned);
    SplitBillSummary(|owned|, settled, |owned| - settled, SumTotals(owned), SumPaid(owned),
                     SumTotals(owned) - SumPaid(owned))
  }
}
