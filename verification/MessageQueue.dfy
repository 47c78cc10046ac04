/**
 Timed messages of the main program: a sorted list that any thread may post to and delete from, and a loop that takes
 off all messages that are due and handles them without holding the lock. Nodes come from a small fixed pool first.
 */
module MessageQueue {

  const POOL_SIZE := 5

  /** A message as it was accepted; ids count up. */
  datatype Msg = Msg(id: nat, when: int, what: int, arg1: int, arg2: int)

  // ---- What the list operations do ----

  /** How many messages at the front are due by a time. */
  function DueBy(queue: seq<Msg>, time: int): (n: nat)
    ensures n <= |queue|
    ensures forall i :: 0 <= i < n ==> queue[i].when <= time
    ensures n < |queue| ==> queue[n].when > time
  {
    if queue == [] || queue[0].when > time then 0 else 1 + DueBy(queue[1..], time)
  }

  /** Behind all messages that are due no later. */
  function Insert(queue: seq<Msg>, m: Msg): (r: seq<Msg>)
    ensures |r| == |queue| + 1
  {
    queue[..DueBy(queue, m.when)] + [m] + queue[DueBy(queue, m.when)..]
  }

  function Without(queue: seq<Msg>, what: int): seq<Msg> {
    if queue == [] then []
    else if queue[|queue| - 1].what == what then Without(queue[..|queue| - 1], what)
    else Without(queue[..|queue| - 1], what) + [queue[|queue| - 1]]
  }

  function Only(queue: seq<Msg>, what: int): seq<Msg> {
    if queue == [] then []
    else if queue[|queue| - 1].what == what then Only(queue[..|queue| - 1], what) + [queue[|queue| - 1]]
    else Only(queue[..|queue| - 1], what)
  }

  /** How often a message is in a list. */
  function Count(queue: seq<Msg>, x: Msg): nat {
    if queue == [] then 0 else Count(queue[..|queue| - 1], x) + (if queue[|queue| - 1] == x then 1 else 0)
  }

  /** Sorted by due time; first come, first served among equals. */
  predicate Sorted(queue: seq<Msg>) {
    forall i, j :: 0 <= i < j < |queue| ==> Before(queue[i], queue[j])
  }

  predicate Before(m: Msg, n: Msg) {
    m.when < n.when || (m.when == n.when && m.id < n.id)
  }

  lemma CountAppend(queue: seq<Msg>, m: Msg, x: Msg)
    ensures Count(queue + [m], x) == Count(queue, x) + (if m == x then 1 else 0)
  {
    assert (queue + [m])[..|queue|] == queue;
  }

  lemma {:induction false} CountBoth(a: seq<Msg>, b: seq<Msg>, x: Msg)
    ensures Count(a + b, x) == Count(a, x) + Count(b, x)
  {
    if b == [] {
      assert a + b == a;
    } else {
      CountBoth(a, b[..|b| - 1], x);
      assert (a + b)[..|a + b| - 1] == a + b[..|b| - 1];
    }
  }

  lemma InsertCounts(queue: seq<Msg>, m: Msg, x: Msg)
    ensures Count(Insert(queue, m), x) == Count(queue, x) + (if m == x then 1 else 0)
  {
    hide Count;
    var n := DueBy(queue, m.when);
    var a, b := queue[..n], queue[n..];
    CountBoth(a, b, x);
    CountBoth(a + [m], b, x);
    CountAppend(a, m, x);
    assert a + b == queue;
  }

  lemma InsertHas(queue: seq<Msg>, m: Msg, x: Msg)
    requires x in Insert(queue, m)
    ensures x == m || x in queue
  {
    hide DueBy;
  }

  lemma InsertSorted(queue: seq<Msg>, m: Msg)
    requires Sorted(queue) && forall i :: 0 <= i < |queue| ==> queue[i].id < m.id
    ensures Sorted(Insert(queue, m))
  {
    var n := DueBy(queue, m.when);
    hide DueBy;
    var r := Insert(queue, m);
    assert forall i :: 0 <= i < n ==> Before(queue[i], m);
    assert forall j :: n <= j < |queue| ==> Before(m, queue[j]) by {
      if n < |queue| {
        assert forall j :: n < j < |queue| ==> Before(queue[n], queue[j]);
      }
    }
    hide Before;
    forall i, j | 0 <= i < j < |r| ensures Before(r[i], r[j]) {
      assert r[i] == if i < n then queue[i] else if i == n then m else queue[i - 1];
      assert r[j] == if j < n then queue[j] else if j == n then m else queue[j - 1];
    }
  }

  lemma WithoutAppend(front: seq<Msg>, last: Msg, what: int)
    ensures Without(front + [last], what) == if last.what == what then Without(front, what) else Without(front, what) + [last]
    ensures Only(front + [last], what) == if last.what == what then Only(front, what) + [last] else Only(front, what)
  {
    assert (front + [last])[..|front|] == front;
  }

  lemma {:induction false} WithoutCounts(queue: seq<Msg>, what: int, x: Msg)
    ensures Count(queue, x) == Count(Without(queue, what), x) + Count(Only(queue, what), x)
  {
    if queue != [] {
      var front, last := queue[..|queue| - 1], queue[|queue| - 1];
      WithoutCounts(front, what, x);
      hide Count, Without, Only;
      assert front + [last] == queue;
      WithoutAppend(front, last, what);
      CountAppend(Without(front, what), last, x);
      CountAppend(Only(front, what), last, x);
      CountAppend(front, last, x);
    }
  }

  lemma {:induction false} WithoutHas(queue: seq<Msg>, what: int, m: Msg)
    ensures m in Without(queue, what) <==> m in queue && m.what != what
    ensures m in Only(queue, what) <==> m in queue && m.what == what
  {
    if queue != [] {
      var front, last := queue[..|queue| - 1], queue[|queue| - 1];
      WithoutHas(front, what, m);
      assert queue == front + [last];
    }
  }

  lemma {:induction false} WithoutSorted(queue: seq<Msg>, what: int)
    requires Sorted(queue)
    ensures Sorted(Without(queue, what))
  {
    if queue != [] {
      hide Before;
      var front, last := queue[..|queue| - 1], queue[|queue| - 1];
      WithoutSorted(front, what);
      var kept := Without(front, what);
      forall i | 0 <= i < |kept| ensures Before(kept[i], last) {
        WithoutHas(front, what, kept[i]);
        assert kept[i] in front;
        var k :| 0 <= k < |front| && front[k] == kept[i];
        assert Before(queue[k], queue[|queue| - 1]);
      }
      assert forall i, j :: 0 <= i < j < |kept + [last]| ==> Before((kept + [last])[i], (kept + [last])[j]);
    }
  }

  /** What is due is a sorted front, what is left is a sorted rest, and nothing is lost. */
  lemma DueSplits(queue: seq<Msg>, time: int, x: Msg)
    requires Sorted(queue)
    ensures Sorted(queue[..DueBy(queue, time)]) && Sorted(queue[DueBy(queue, time)..])
    ensures Count(queue, x) == Count(queue[..DueBy(queue, time)], x) + Count(queue[DueBy(queue, time)..], x)
    ensures forall i :: DueBy(queue, time) <= i < |queue| ==> queue[i].when > time
  {
    var n := DueBy(queue, time);
    hide DueBy, Count;
    CountBoth(queue[..n], queue[n..], x);
    assert queue[..n] + queue[n..] == queue;
    if n < |queue| {
      assert forall i :: n < i < |queue| ==> Before(queue[n], queue[i]);
    }
  }

  // ---- Accounts ----

  /** Where every message is: still queued, in the batch, handled, or dropped (deleted, or of a kind that is not handled). */
  datatype Account = Account(posted: seq<Msg>, queued: seq<Msg>, inHand: seq<Msg>, done: bool, timenow: int,
                             handled: seq<Msg>, handledAt: seq<int>, dropped: seq<Msg>)

  /** The batch, without the message at its front when that has been dealt with. */
  function Waiting(a: Account): seq<Msg> {
    if a.done && a.inHand != [] then a.inHand[1..] else a.inHand
  }

  /** A message that was accepted. */
  predicate Known(a: Account, x: Msg) {
    x.id < |a.posted| && a.posted[x.id] == x
  }

  /** Everything accepted is in exactly one place, in order, and nothing was handled before it was due. */
  ghost predicate Balanced(a: Account) {
    && (forall x: Msg ::
          Count(a.queued, x) + Count(Waiting(a), x) + Count(a.handled, x) + Count(a.dropped, x) == if Known(a, x) then 1 else 0)
    && (forall i :: 0 <= i < |a.posted| ==> a.posted[i].id == i)
    && Sorted(a.queued) && Sorted(a.inHand) && (a.done ==> a.inHand != [])
    && (forall m :: m in a.queued || m in a.inHand ==> Known(a, m))
    && (forall m :: m in a.inHand ==> m.when <= a.timenow)
    && |a.handledAt| == |a.handled|
    && (forall k :: 0 <= k < |a.handled| ==> a.handled[k].when <= a.handledAt[k] && a.handled[k].what > 0)
  }

  function Posted(a: Account, m: Msg): Account {
    a.(posted := a.posted + [m], queued := Insert(a.queued, m))
  }

  lemma PostedBalanced(a: Account, m: Msg)
    requires Balanced(a) && m.id == |a.posted|
    ensures Balanced(Posted(a, m))
  {
    hide Count, Sorted, Insert;
    InsertSorted(a.queued, m);
    forall x | x in Insert(a.queued, m) ensures x == m || x in a.queued {
      InsertHas(a.queued, m, x);
    }
    forall x: Msg
      ensures Count(Insert(a.queued, m), x) == Count(a.queued, x) + (if m == x then 1 else 0)
    {
      InsertCounts(a.queued, m, x);
    }
  }

  function Deleted(a: Account, what: int): Account {
    a.(queued := Without(a.queued, what), dropped := a.dropped + Only(a.queued, what))
  }

  lemma DeletedBalanced(a: Account, what: int)
    requires Balanced(a)
    ensures Balanced(Deleted(a, what))
  {
    hide Count, Sorted, Without, Only;
    WithoutSorted(a.queued, what);
    forall x: Msg
      ensures Count(a.queued, x) == Count(Without(a.queued, what), x) + Count(Only(a.queued, what), x)
      ensures Count(a.dropped + Only(a.queued, what), x) == Count(a.dropped, x) + Count(Only(a.queued, what), x)
    {
      WithoutCounts(a.queued, what, x);
      CountBoth(a.dropped, Only(a.queued, what), x);
    }
    forall m | m in Without(a.queued, what) ensures m in a.queued {
      WithoutHas(a.queued, what, m);
    }
  }

  function Detached(a: Account, now: int): Account {
    var n := DueBy(a.queued, now);
    a.(timenow := now, inHand := a.queued[..n], queued := a.queued[n..])
  }

  lemma DetachedBalanced(a: Account, now: int)
    requires Balanced(a) && a.inHand == []
    ensures Balanced(Detached(a, now))
  {
    var n := DueBy(a.queued, now);
    hide Count, Sorted, DueBy;
    DueSplits(a.queued, now, Msg(0, 0, 0, 0, 0));
    forall x: Msg
      ensures Count(a.queued, x) == Count(a.queued[..n], x) + Count(a.queued[n..], x)
      ensures Count([], x) == 0
    {
      DueSplits(a.queued, now, x);
      CountNothing(x);
    }
  }

  lemma CountNothing(x: Msg)
    ensures Count([], x) == 0
  {
  }

  /** The message at the front of the batch is handled, or passed over when it is of no kind that is handled. */
  /** After the messages that are due have been taken off, none is left that is due. */
  lemma NoneDueLeft(a: Account, now: int)
    requires Balanced(a) && a.inHand == []
    ensures forall m :: m in Detached(a, now).queued ==> m.when > now
    ensures forall m :: m in Detached(a, now).inHand ==> m.when <= now
    ensures Detached(a, now).inHand + Detached(a, now).queued == a.queued
  {
    hide Known, Waiting, Count, DueBy;
    SplitByDue(a.queued, now);
  }

  lemma SplitByDue(queue: seq<Msg>, time: int)
    requires Sorted(queue)
    ensures forall m :: m in queue[DueBy(queue, time)..] ==> m.when > time
    ensures forall m :: m in queue[..DueBy(queue, time)] ==> m.when <= time
    ensures queue[..DueBy(queue, time)] + queue[DueBy(queue, time)..] == queue
  {
    hide DueBy, Before;
    var n := DueBy(queue, time);
    forall i | n <= i < |queue| ensures queue[i].when > time {
      LaterInOrder(queue, n, i);
    }
    PartsInTime(queue, n, time);
  }

  lemma LaterInOrder(queue: seq<Msg>, i: nat, j: nat)
    requires Sorted(queue) && i <= j < |queue|
    ensures queue[i].when <= queue[j].when
  {
    assert i == j || Before(queue[i], queue[j]);
  }

  lemma PartsInTime(queue: seq<Msg>, n: nat, time: int)
    requires n <= |queue| && (forall i :: 0 <= i < n ==> queue[i].when <= time) && forall i :: n <= i < |queue| ==> queue[i].when > time
    ensures forall m :: m in queue[n..] ==> m.when > time
    ensures forall m :: m in queue[..n] ==> m.when <= time
    ensures queue[..n] + queue[n..] == queue
  {
  }

  function Dealt(a: Account): Account
    requires a.inHand != []
  {
    var m := a.inHand[0];
    if m.what > 0 then a.(done := true, handled := a.handled + [m], handledAt := a.handledAt + [a.timenow])
    else a.(done := true, dropped := a.dropped + [m])
  }

  lemma DealtBalanced(a: Account)
    requires Balanced(a) && a.inHand != [] && !a.done
    ensures Balanced(Dealt(a))
  {
    hide Count, Sorted;
    var m := a.inHand[0];
    forall x: Msg
      ensures Count(a.inHand, x) == (if m == x then 1 else 0) + Count(a.inHand[1..], x)
      ensures Count(a.handled + [m], x) == Count(a.handled, x) + (if m == x then 1 else 0)
      ensures Count(a.dropped + [m], x) == Count(a.dropped, x) + (if m == x then 1 else 0)
    {
      CountBoth([m], a.inHand[1..], x);
      CountAppend([], m, x);
      CountNothing(x);
      assert [m] + a.inHand[1..] == a.inHand && [] + [m] == [m];
      CountAppend(a.handled, m, x);
      CountAppend(a.dropped, m, x);
    }
  }

  function Released(a: Account): Account
    requires a.inHand != []
  {
    a.(done := false, inHand := a.inHand[1..])
  }

  lemma ReleasedBalanced(a: Account)
    requires Balanced(a) && a.inHand != [] && a.done
    ensures Balanced(Released(a))
  {
    hide Count;
  }

  // ---- Runs ----

  datatype Step =
    | Post(when: int, what: int, arg1: int, arg2: int)
    | Delete(what: int)
    | Detach(now: int)
    | Handle
    | Release

  /** What the threads do one after the other; the loop only takes the steps that it can take. */
  function Stepped(a: Account, s: Step): Account {
    match s
    case Post(when, what, arg1, arg2) => Posted(a, Msg(|a.posted|, when, what, arg1, arg2))
    case Delete(what) => Deleted(a, what)
    case Detach(now) => if a.inHand == [] then Detached(a, now) else a
    case Handle => if a.inHand != [] && !a.done then Dealt(a) else a
    case Release => if a.inHand != [] && a.done then Released(a) else a
  }

  function Start(): Account {
    Account([], [], [], false, 0, [], [], [])
  }

  function Run(steps: seq<Step>): Account {
    if steps == [] then Start() else Stepped(Run(steps[..|steps| - 1]), steps[|steps| - 1])
  }

  lemma {:induction false} RunsAreBalanced(steps: seq<Step>)
    ensures Balanced(Run(steps))
  {
    if steps == [] {
      StartBalanced();
    } else {
      var before, last := steps[..|steps| - 1], steps[|steps| - 1];
      RunsAreBalanced(before);
      hide *;
      RunUnfolds(steps);
      StepBalanced(Run(before), last);
    }
  }

  lemma RunUnfolds(steps: seq<Step>)
    requires steps != []
    ensures Run(steps) == Stepped(Run(steps[..|steps| - 1]), steps[|steps| - 1])
  {
  }

  lemma StartBalanced()
    ensures Balanced(Start())
  {
  }

  lemma StepBalanced(a: Account, s: Step)
    requires Balanced(a)
    ensures Balanced(Stepped(a, s))
  {
    hide Balanced, Posted, Deleted, Detached, Dealt, Released;
    match s
    case Post(when, what, arg1, arg2) =>
      PostedBalanced(a, Msg(|a.posted|, when, what, arg1, arg2));
    case Delete(what) => DeletedBalanced(a, what);
    case Detach(now) =>
      if a.inHand == [] {
        DetachedBalanced(a, now);
      }
    case Handle =>
      if a.inHand != [] && !a.done {
        DealtBalanced(a);
      }
    case Release =>
      if a.inHand != [] && a.done {
        ReleasedBalanced(a);
      }
  }

  /** Step i deletes the message, which is queued at that time. */
  predicate DeletedAt(steps: seq<Step>, i: nat, m: Msg)
    requires i < |steps|
  {
    steps[i] == Delete(m.what) && m in Run(steps[..i]).queued
  }

  /** Of the messages of a positive kind exactly those are dropped that were deleted while they were queued. */
  lemma {:induction false} DropsAreDeletions(steps: seq<Step>, m: Msg)
    requires m.what > 0
    ensures m in Run(steps).dropped <==> exists i :: 0 <= i < |steps| && DeletedAt(steps, i, m)
  {
    hide *;
    if steps == [] {
      NoDrops();
    } else {
      var n := |steps| - 1;
      var before := steps[..n];
      DropsAreDeletions(before, m);
      LastDrops(steps, m);
      forall i | 0 <= i < n ensures DeletedAt(steps, i, m) == DeletedAt(before, i, m) {
        DeletedEarlier(steps, i, m);
      }
    }
  }

  lemma NoDrops()
    ensures Run([]).dropped == []
  {
  }

  lemma DeletedEarlier(steps: seq<Step>, i: nat, m: Msg)
    requires i + 1 < |steps|
    ensures DeletedAt(steps, i, m) == DeletedAt(steps[..|steps| - 1], i, m)
  {
    hide Run;
    assert steps[..|steps| - 1][..i] == steps[..i];
  }

  lemma LastDrops(steps: seq<Step>, m: Msg)
    requires m.what > 0 && steps != []
    ensures m in Run(steps).dropped <==> m in Run(steps[..|steps| - 1]).dropped || DeletedAt(steps, |steps| - 1, m)
  {
    RunUnfolds(steps);
    hide Run, Stepped;
    StepDrops(Run(steps[..|steps| - 1]), steps[|steps| - 1], m);
  }

  lemma StepDrops(a: Account, s: Step, m: Msg)
    requires m.what > 0
    ensures m in Stepped(a, s).dropped <==> m in a.dropped || (s == Delete(m.what) && m in a.queued)
  {
    hide Count, Only, Without, DueBy, Insert;
    if s.Delete? {
      WithoutHas(a.queued, s.what, m);
    }
  }

  /**
   When nothing is queued or in hand any more, a message was handled once exactly when it was accepted, is of a positive kind,
   and was not deleted while it was queued; all others were never handled, and none before it was due.
   */
  lemma HandledExactlyOnce(steps: seq<Step>, m: Msg)
    requires Run(steps).queued == [] && Run(steps).inHand == []
    ensures Count(Run(steps).handled, m) <= 1
    ensures Count(Run(steps).handled, m) == 1 <==>
              Known(Run(steps), m) && m.what > 0 && !exists i :: 0 <= i < |steps| && DeletedAt(steps, i, m)
    ensures |Run(steps).handledAt| == |Run(steps).handled|
    ensures forall k :: 0 <= k < |Run(steps).handled| ==> Run(steps).handled[k].when <= Run(steps).handledAt[k]
  {
    hide Run, DeletedAt;
    RunsAreBalanced(steps);
    var a := Run(steps);
    CountNothing(m);
    CountsMembers(a.dropped, m);
    CountsMembers(a.handled, m);
    if m.what > 0 {
      DropsAreDeletions(steps, m);
    }
  }

  lemma {:induction false} CountsMembers(queue: seq<Msg>, m: Msg)
    ensures Count(queue, m) > 0 <==> m in queue
  {
    if queue != [] {
      CountsMembers(queue[..|queue| - 1], m);
      assert queue == queue[..|queue| - 1] + [queue[|queue| - 1]];
    }
  }

  // ---- The pool ----

  /** The first free slot, by the kinds that the slots hold. */
  function FirstFree(whats: seq<int>): (i: nat)
    ensures i <= |whats| && (i < |whats| ==> whats[i] == 0)
  {
    if whats == [] || whats[0] == 0 then 0 else 1 + FirstFree(whats[1..])
  }

  lemma {:induction false} FirstFreeIs(whats: seq<int>, i: nat)
    requires i <= |whats| && (i < |whats| ==> whats[i] == 0) && forall k :: 0 <= k < i ==> whats[k] != 0
    ensures FirstFree(whats) == i
  {
    if i > 0 {
      FirstFreeIs(whats[1..], i - 1);
    }
  }

  lemma {:induction false} BeforeFirstFree(whats: seq<int>, k: nat)
    requires k < FirstFree(whats)
    ensures whats[k] != 0
  {
    if k > 0 {
      BeforeFirstFree(whats[1..], k - 1);
    }
  }

  /** A slot that was just filled, and is in the list now, is handed out again exactly when kind 0 was put into it. */
  lemma SlotTakenTwice(whats: seq<int>, what: int)
    requires FirstFree(whats) < |whats|
    ensures FirstFree(whats[FirstFree(whats) := what]) == FirstFree(whats) <==> what == 0
  {
    var i := FirstFree(whats);
    var now := whats[i := what];
    forall k | 0 <= k < i ensures now[k] != 0 {
      BeforeFirstFree(whats, k);
    }
    if what == 0 {
      FirstFreeIs(now, i);
    }
  }

  // ---- The linked list ----

  class Message {
    var when: int
    var what: int
    var arg1: int
    var arg2: int
    var next: Message?
    const isStatic: bool
    ghost var id: nat

    constructor (isStatic: bool)
      ensures this.isStatic == isStatic && what == 0
    {
      this.isStatic := isStatic;
      when, what, arg1, arg2, next, id := 0, 0, 0, 0, null, 0;
    }

    ghost function View(): Msg
      reads this`id, this`when, this`what, this`arg1, this`arg2
    {
      Msg(id, when, what, arg1, arg2)
    }
  }

  ghost function NodeAt(list: seq<Message>, i: nat): Message? {
    if i < |list| then list[i] else null
  }

  /** The nodes from head on, and the messages in them. */
  ghost predicate ListIs(head: Message?, list: seq<Message>, view: seq<Msg>)
    reads list
  {
    && |list| == |view| && head == NodeAt(list, 0)
    && forall i :: 0 <= i < |list| ==> list[i].next == NodeAt(list, i + 1) && list[i].View() == view[i]
  }

  predicate NoDup(list: seq<Message>) {
    forall i, j :: 0 <= i < j < |list| ==> list[i] != list[j]
  }

  lemma ListMeans(head: Message?, list: seq<Message>, view: seq<Msg>)
    requires ListIs(head, list, view)
    ensures |list| == |view| && head == NodeAt(list, 0)
    ensures forall i :: 0 <= i < |list| ==>
              && list[i].next == NodeAt(list, i + 1) && list[i].View() == view[i]
              && list[i].when == view[i].when && list[i].what == view[i].what
  {
  }

  /** The node at a place, if there is one. */
  lemma NodeMeans(head: Message?, list: seq<Message>, view: seq<Msg>, i: nat)
    requires ListIs(head, list, view) && i <= |list|
    ensures |list| == |view| && (NodeAt(list, i) == null <==> i == |list|) && (i == 0 ==> head == NodeAt(list, i))
    ensures i < |list| ==>
              && NodeAt(list, i) == list[i] && list[i].next == NodeAt(list, i + 1)
              && list[i].when == view[i].when && list[i].what == view[i].what
  {
  }

  lemma Walk(list: seq<Message>, i: nat)
    requires i <= |list|
    ensures NodeAt(list, i) == null <==> i == |list|
    ensures i < |list| ==> NodeAt(list, i) == list[i] && list[i] in list
  {
  }

  lemma DueByIs(queue: seq<Msg>, time: int, n: nat)
    requires n <= |queue| && (forall i :: 0 <= i < n ==> queue[i].when <= time) && (n < |queue| ==> queue[n].when > time)
    ensures DueBy(queue, time) == n
    decreases n
  {
    if n > 0 {
      DueByIs(queue[1..], time, n - 1);
    }
  }

  /** A node put between the first n nodes and the others. */
  lemma InsertLinked(list: seq<Message>, view: seq<Msg>, n: nat, msg: Message, m: Msg, head: Message?)
    requires |list| == |view| && n <= |list| && msg.next == NodeAt(list, n) && msg.View() == m
    requires head == if n == 0 then msg else NodeAt(list, 0)
    requires forall i :: 0 <= i < |list| ==> list[i].next == (if i == n - 1 then msg else NodeAt(list, i + 1)) && list[i].View() == view[i]
    ensures ListIs(head, list[..n] + [msg] + list[n..], view[..n] + [m] + view[n..])
  {
    hide Message.View;
    var now: seq<Message> := list[..n] + [msg] + list[n..];
    forall i | 0 <= i < |now|
      ensures now[i].next == NodeAt(now, i + 1) && now[i].View() == (view[..n] + [m] + view[n..])[i]
    {
      assert now[i] == if i < n then list[i] else if i == n then msg else list[i - 1];
    }
  }

  /** Without the node at k. */
  lemma CutLinked(list: seq<Message>, view: seq<Msg>, k: nat, head: Message?)
    requires |list| == |view| && k < |list| && head == if k == 0 then NodeAt(list, 1) else NodeAt(list, 0)
    requires forall i :: 0 <= i < |list| && i != k ==>
               list[i].next == NodeAt(list, if i == k - 1 then i + 2 else i + 1) && list[i].View() == view[i]
    ensures ListIs(head, list[..k] + list[k + 1..], view[..k] + view[k + 1..])
  {
    hide Message.View;
    var now: seq<Message> := list[..k] + list[k + 1..];
    forall i | 0 <= i < |now|
      ensures now[i].next == NodeAt(now, i + 1) && now[i].View() == (view[..k] + view[k + 1..])[i]
    {
      assert now[i] == list[if i < k then i else i + 1];
    }
  }

  lemma FrontLinked(list: seq<Message>, view: seq<Msg>, n: nat)
    requires |list| == |view| && 0 < n <= |list|
    requires forall i :: 0 <= i < n ==> list[i].next == (if i == n - 1 then null else NodeAt(list, i + 1)) && list[i].View() == view[i]
    ensures ListIs(list[0], list[..n], view[..n])
  {
    hide Message.View;
  }

  lemma RestLinked(list: seq<Message>, view: seq<Msg>, n: nat)
    requires |list| == |view| && n <= |list|
    requires forall i :: n <= i < |list| ==> list[i].next == NodeAt(list, i + 1) && list[i].View() == view[i]
    ensures ListIs(NodeAt(list, n), list[n..], view[n..])
  {
    hide Message.View;
    var now: seq<Message> := list[n..];
    forall i | 0 <= i < |now| ensures now[i].next == NodeAt(now, i + 1) && now[i].View() == view[n..][i] {
      assert now[i] == list[n + i];
    }
  }

  lemma EmptyLinked()
    ensures ListIs(null, [], [])
  {
  }

  lemma NoDupMeans(list: seq<Message>, i: nat)
    requires NoDup(list) && i < |list|
    ensures forall k :: 0 <= k < |list| && k != i ==> list[k] != list[i]
  {
  }

  /**
   The pool, with the nodes in use and those that are not freed: no node is in two places, none is freed, and a slot looks
   free exactly when it is nowhere, or is the one that is lost.
   */
  ghost predicate PoolIs(slots: seq<Message>, used: seq<Message>, live: set<Message>, lost: Message?)
    reads slots`what
  {
    && |slots| == POOL_SIZE && NoDup(slots) && NoDup(used)
    && (forall n :: n in used ==> n in live && (n.isStatic ==> n in slots))
    && (forall s :: s in slots ==> s in live && s.isStatic && (s.what == 0 <==> s !in used || s == lost))
  }

  lemma PoolMeans(slots: seq<Message>, queue: seq<Message>, pending: seq<Message>, live: set<Message>, lost: Message?)
    requires PoolIs(slots, queue + pending, live, lost)
    ensures |slots| == POOL_SIZE == 5 && NoDup(slots) && NoDup(queue) && NoDup(pending)
    ensures forall n :: n in queue ==> n in live && n !in pending && (n.isStatic ==> n in slots)
    ensures forall n :: n in pending ==> n in live && n !in queue && (n.isStatic ==> n in slots)
    ensures forall s :: s in slots ==> s in live && s.isStatic && (s.what == 0 <==> !(s in queue || s in pending) || s == lost)
  {
    var used := queue + pending;
    forall i, j | 0 <= i < |queue| && 0 <= j < |pending| ensures queue[i] != pending[j] {
      assert used[i] == queue[i] && used[|queue| + j] == pending[j];
    }
    forall i, j | 0 <= i < j < |queue| ensures queue[i] != queue[j] {
      assert used[i] == queue[i] && used[j] == queue[j];
    }
    forall i, j | 0 <= i < j < |pending| ensures pending[i] != pending[j] {
      assert used[|queue| + i] == pending[i] && used[|queue| + j] == pending[j];
    }
  }

  lemma PoolTaken(slots: seq<Message>, used: seq<Message>, live: set<Message>, msg: Message, lost: Message?)
    requires |slots| == 5 && NoDup(slots) && NoDup(used) && msg !in used && (msg.isStatic ==> msg in slots)
    requires forall n :: n in used ==> n in live && (n.isStatic ==> n in slots)
    requires forall s :: s in slots ==> s in live && s.isStatic && (s.what == 0 <==> !(s in used || s == msg) || s == lost)
    ensures PoolIs(slots, used + [msg], live + {msg}, lost)
  {
  }

  /** Where among the nodes in use a node is does not matter. */
  lemma PoolInserted(slots: seq<Message>, queue: seq<Message>, pending: seq<Message>, msg: Message, n: nat, live: set<Message>,
                     lost: Message?)
    requires n <= |queue| && PoolIs(slots, queue + pending + [msg], live, lost)
    ensures PoolIs(slots, queue[..n] + [msg] + queue[n..] + pending, live, lost)
    ensures msg !in queue && msg !in pending
    ensures NoDup(queue) && forall x :: x in queue ==> x !in pending && x in live
  {
    PoolMeans(slots, queue, pending + [msg], live, lost) by {
      assert queue + (pending + [msg]) == queue + pending + [msg];
    }
    var used: seq<Message> := queue + pending + [msg];
    var now: seq<Message> := queue[..n] + [msg] + queue[n..] + pending;
    var last := |used| - 1;
    assert forall i :: 0 <= i < |now| ==> now[i] == used[if i < n then i else if i == n then last else i - 1];
    forall i, j | 0 <= i < j < |now| ensures now[i] != now[j] {
      var p, q := if i < n then i else if i == n then last else i - 1, if j < n then j else if j == n then last else j - 1;
      assert p < q || q < p;
    }
    assert forall i :: 0 <= i < last ==> used[i] != used[last];
    forall x | x in queue || x in pending ensures x in used[..last] {
      assert used[..last] == queue + pending;
    }
    forall x ensures x in used <==> x in now {
      assert queue == queue[..n] + queue[n..];
    }
  }

  /** A node is no longer in use: a slot is free again, another node is freed. */
  lemma PoolReleased(slots: seq<Message>, used: seq<Message>, live: set<Message>, k: nat)
    requires k < |used| && |slots| == 5 && NoDup(slots) && NoDup(used)
    requires forall n :: n in used ==> n in live && (n.isStatic ==> n in slots)
    requires forall s :: s in slots ==> s in live && s.isStatic && (s.what == 0 <==> !(s in used && s != used[k]))
    ensures PoolIs(slots, used[..k] + used[k + 1..], if used[k].isStatic then live else live - {used[k]}, null)
  {
    var now: seq<Message> := used[..k] + used[k + 1..];
    assert forall i :: 0 <= i < |now| ==> now[i] == used[if i < k then i else i + 1];
    assert used == used[..k] + [used[k]] + used[k + 1..];
    assert forall x :: x in used <==> x in now || x == used[k];
    assert used[k] !in now;
  }

  function KindsOf(list: seq<Message>): (w: seq<int>)
    reads list`what
    ensures |w| == |list| && forall i :: 0 <= i < |list| ==> w[i] == list[i].what
  {
    if list == [] then [] else [list[0].what] + KindsOf(list[1..])
  }

  class AppMain {
    const slots: seq<Message>
    var header: Message?
    var batch: Message?
    var timenow: int

    /** Nodes of the queue and of the batch, all nodes that are not freed, and the account of all messages. */
    ghost var queue: seq<Message>
    ghost var pending: seq<Message>
    ghost var repr: set<Message>
    ghost var account: Account

    ghost predicate Pooled()
      reads this`queue, this`pending, this`repr, slots`what
    {
      PoolIs(slots, queue + pending, repr, null)
    }

    ghost predicate Valid()
      reads this, repr, slots
    {
      && Pooled() && Balanced(account) && timenow == account.timenow
      && ListIs(header, queue, account.queued) && ListIs(batch, pending, account.inHand)
    }

    constructor ()
      ensures Valid() && fresh(repr) && account == Start()
    {
      hide *;
      var s0 := new Message(true);
      var s1 := new Message(true);
      var s2 := new Message(true);
      var s3 := new Message(true);
      var s4 := new Message(true);
      slots := [s0, s1, s2, s3, s4];
      header, batch, timenow := null, null, 0;
      queue, pending, repr := [], [], {s0, s1, s2, s3, s4};
      account := Start();
      new;
      StartBalanced();
      StartIs();
      SlotsDiffer();
      EmptyLinked();
      PoolIsFree();
      ValidIs();
    }

    lemma SlotsDiffer()
      requires |slots| == 5 && slots[0] != slots[1] && slots[0] != slots[2] && slots[0] != slots[3] && slots[0] != slots[4]
      requires slots[1] != slots[2] && slots[1] != slots[3] && slots[1] != slots[4]
      requires slots[2] != slots[3] && slots[2] != slots[4] && slots[3] != slots[4]
      ensures NoDup(slots)
    {
    }

    lemma StartIs()
      ensures Start().queued == [] && Start().inHand == [] && Start().timenow == 0
    {
    }

    lemma PoolIsFree()
      requires queue == [] && pending == [] && |slots| == 5 && NoDup(slots)
      requires forall s :: s in slots ==> s in repr && s.isStatic && s.what == 0
      ensures Pooled()
    {
    }

    lemma ValidMeans()
      requires Valid()
      ensures Pooled() && Balanced(account) && timenow == account.timenow
      ensures ListIs(header, queue, account.queued) && ListIs(batch, pending, account.inHand)
    {
      hide Pooled, Balanced, ListIs;
    }

    lemma ValidIs()
      requires Pooled() && Balanced(account) && timenow == account.timenow
      requires ListIs(header, queue, account.queued) && ListIs(batch, pending, account.inHand)
      ensures Valid()
    {
      hide Pooled, Balanced, ListIs;
    }

    lemma PooledMeans()
      requires Pooled()
      ensures PoolIs(slots, queue + pending, repr, null)
      ensures |slots| == POOL_SIZE == 5 && NoDup(slots) && NoDup(queue + pending)
      ensures forall n :: n in queue ==> n in repr && n !in pending && (n.isStatic ==> n in slots)
      ensures forall n :: n in pending ==> n in repr && n !in queue && (n.isStatic ==> n in slots)
      ensures forall s :: s in slots ==> s in repr && s.isStatic && (s.what == 0 <==> !(s in queue || s in pending))
    {
      PoolMeans(slots, queue, pending, repr, null);
    }

    lemma PooledIs()
      requires PoolIs(slots, queue + pending, repr, null)
      ensures Pooled()
    {
      hide PoolIs;
    }

    /** The kinds that the slots hold. */
    function Whats(): (w: seq<int>)
      reads slots`what
      ensures |w| == |slots| && forall i :: 0 <= i < |slots| ==> w[i] == slots[i].what
    {
      KindsOf(slots)
    }

    lemma SlotCount()
      requires Pooled()
      ensures |slots| == POOL_SIZE && FirstFree(Whats()) <= POOL_SIZE
    {
    }

    /** The first free slot of the pool, or a new node. */
    method TakeNode() returns (msg: Message)
      requires Pooled()
      ensures msg !in queue && msg !in pending
      ensures msg.isStatic <==> FirstFree(Whats()) < POOL_SIZE
      ensures if msg.isStatic then msg in repr && msg in slots && msg == slots[FirstFree(Whats())] else fresh(msg)
    {
      hide *;
      PooledMeans();
      for i := 0 to |slots|
        invariant forall k :: 0 <= k < i ==> slots[k].what != 0
      {
        if slots[i].what == 0 {
          FirstFreeIs(Whats(), i);
          return slots[i];
        }
      }
      FirstFreeIs(Whats(), |slots|);
      msg := new Message(false);
    }

    // ---- Posting ----

    /**
     Accepts a message that is due after a delay, or at once. Kind 0 in a slot of the pool makes the slot look free: the next
     message that is posted takes it, though it is in the list.
     */
    method PostMessageDelay(delay: int, what: int, arg1: int, arg2: int, now: int) returns (ghost m: Msg)
      requires Valid()
      modifies this`header, this`queue, this`repr, this`account, repr
      ensures m == Msg(|old(account).posted|, if delay > 0 then now + delay else 0, what, arg1, arg2)
      ensures account == Posted(old(account), m) == Stepped(old(account), Post(m.when, what, arg1, arg2))
      ensures Listed() && fresh(repr - old(repr))
      ensures Valid() <==> what != 0 || old(FirstFree(Whats())) == POOL_SIZE
      ensures !Valid() ==> FirstFree(Whats()) < |slots| && slots[FirstFree(Whats())] in queue
    {
      hide *;
      ValidMeans();
      SlotCount();
      var when := if delay > 0 then now + delay else 0;
      m := Msg(|account.posted|, when, what, arg1, arg2);
      var msg, lost := Fill(when, what, arg1, arg2, |account.posted|);
      var prev, cbmsg, n := FindPlace(when);
      InsertIs(account.queued, m, n);
      Link(prev, cbmsg, msg, n, account.queued, account.inHand, lost);
      PostedBalanced(account, m);
      PostedIs(account, m);
      account := Posted(account, m);
      ListedIs();
      ValidUnlessLost(lost);
    }

    /** Fills a slot or a new node. */
    method Fill(when: int, what: int, arg1: int, arg2: int, ghost id: nat) returns (msg: Message, ghost lost: Message?)
      requires Pooled() && ListIs(header, queue, account.queued) && ListIs(batch, pending, account.inHand)
      modifies repr
      ensures PoolIs(slots, queue + pending + [msg], repr + {msg}, lost) && (msg in repr || fresh(msg))
      ensures msg.View() == Msg(id, when, what, arg1, arg2)
      ensures ListIs(header, queue, account.queued) && ListIs(batch, pending, account.inHand)
      ensures lost == if what == 0 && old(FirstFree(Whats())) < POOL_SIZE then msg else null
      ensures lost != null ==> lost in slots && FirstFree(Whats()) < |slots| && slots[FirstFree(Whats())] == lost
    {
      hide *;
      PooledMeans();
      ghost var whats := Whats();
      msg := TakeNode();
      msg.when, msg.what, msg.arg1, msg.arg2, msg.id := when, what, arg1, arg2, id;
      ViewIs(msg);
      lost := if what == 0 && msg.isStatic then msg else null;
      PoolTaken(slots, queue + pending, repr, msg, lost);
      if lost != null {
        NoDupMeans(slots, FirstFree(whats));
        SlotFilled(whats, FirstFree(whats), what);
      }
    }

    /** Both lists are what the account says; nothing is said of the pool. */
    ghost predicate Listed()
      reads this, queue, pending
    {
      && Balanced(account) && timenow == account.timenow
      && ListIs(header, queue, account.queued) && ListIs(batch, pending, account.inHand)
    }

    lemma ListedIs()
      requires Balanced(account) && timenow == account.timenow
      requires ListIs(header, queue, account.queued) && ListIs(batch, pending, account.inHand)
      ensures Listed()
    {
      hide Balanced, ListIs;
    }

    lemma ValidUnlessLost(lost: Message?)
      requires Listed() && PoolIs(slots, queue + pending, repr, lost)
      requires lost != null ==> lost in slots && lost in queue
      ensures Valid() <==> lost == null
    {
      hide Balanced, ListIs, NoDup;
    }

    /** What the slots hold once the first free one is filled, and which is the first free one then. */
    lemma SlotFilled(whats: seq<int>, i: nat, what: int)
      requires |whats| == |slots| && i == FirstFree(whats) < |slots| && NoDup(slots) && slots[i].what == what
      requires forall k :: 0 <= k < |slots| && k != i ==> slots[k].what == whats[k]
      ensures Whats() == whats[i := what]
      ensures what == 0 ==> FirstFree(Whats()) == i
    {
      SlotTakenTwice(whats, what);
      assert Whats() == whats[i := what];
    }

    lemma ViewIs(msg: Message)
      ensures msg.View() == Msg(msg.id, msg.when, msg.what, msg.arg1, msg.arg2)
    {
    }

    lemma InsertIs(queued: seq<Msg>, m: Msg, n: nat)
      requires n <= |queued| && n == DueBy(queued, m.when)
      ensures Insert(queued, m) == queued[..n] + [m] + queued[n..]
    {
    }

    /** Puts a node into its place. */
    method Link(prev: Message?, cbmsg: Message?, msg: Message, ghost n: nat, ghost view: seq<Msg>, ghost batchView: seq<Msg>,
                ghost lost: Message?)
      requires PoolIs(slots, queue + pending + [msg], repr + {msg}, lost)
      requires ListIs(header, queue, view) && ListIs(batch, pending, batchView)
      requires n <= |queue| && cbmsg == NodeAt(queue, n) && (if n == 0 then prev == null else prev == queue[n - 1])
      modifies this`header, this`queue, this`repr, msg`next, repr`next
      ensures PoolIs(slots, queue + pending, repr, lost) && repr == old(repr) + {msg} && msg in queue
      ensures ListIs(header, queue, view[..n] + [msg.View()] + view[n..]) && ListIs(batch, pending, batchView)
    {
      hide *;
      PoolInserted(slots, queue, pending, msg, n, repr + {msg}, lost);
      if n > 0 {
        NoDupMeans(queue, n - 1);
      }
      ListMeans(header, queue, view);
      Walk(queue, 0);
      ghost var before, m := queue, msg.View();
      msg.next := cbmsg;
      if prev == null {
        header := msg;
      } else {
        prev.next := msg;
      }
      queue := before[..n] + [msg] + before[n..];
      repr := repr + {msg};
      InsertLinked(before, view, n, msg, m, header);
    }

    lemma PostedIs(a: Account, m: Msg)
      requires m.id == |a.posted|
      ensures Stepped(a, Post(m.when, m.what, m.arg1, m.arg2)) == Posted(a, m)
      ensures Posted(a, m).queued == Insert(a.queued, m) && Posted(a, m).inHand == a.inHand && Posted(a, m).timenow == a.timenow
    {
    }

    /** The first node that is due later, and the one before it. */
    method FindPlace(when: int) returns (prev: Message?, cbmsg: Message?, ghost n: nat)
      requires ListIs(header, queue, account.queued)
      ensures n <= |queue| && n == DueBy(account.queued, when)
      ensures cbmsg == NodeAt(queue, n) && (if n == 0 then prev == null else prev == queue[n - 1])
    {
      hide *;
      prev, cbmsg, n := null, header, 0;
      NodeMeans(header, queue, account.queued, 0);
      while cbmsg != null
        invariant n <= |queue| == |account.queued| && cbmsg == NodeAt(queue, n) && (cbmsg == null <==> n == |queue|)
        invariant cbmsg != null ==>
          cbmsg == queue[n] && cbmsg.next == NodeAt(queue, n + 1) && cbmsg.when == account.queued[n].when
        invariant if n == 0 then prev == null else prev == queue[n - 1]
        invariant forall i :: 0 <= i < n ==> account.queued[i].when <= when
        decreases |queue| - n
      {
        if cbmsg.when > when {
          break;
        }
        prev := cbmsg;
        cbmsg := cbmsg.next;
        n := n + 1;
        NodeMeans(header, queue, account.queued, n);
      }
      DueByIs(account.queued, when, n);
    }

    // ---- Deleting ----

    /** Takes all messages of a kind off the queue. */
    method DeleteMessage(what: int)
      requires Valid()
      modifies this`header, this`queue, this`repr, this`account, repr
      ensures Valid() && repr <= old(repr)
      ensures account == Deleted(old(account), what) == Stepped(old(account), Delete(what))
    {
      hide *;
      ValidMeans();
      ghost var queued, view, i, k := account.queued, account.queued, 0, 0;
      var prev, cbmsg: Message? := null, header;
      NothingKept(queued, what);
      NodeMeans(header, queue, view, 0);
      while cbmsg != null
        invariant account == old(account)
        invariant Pooled() && ListIs(header, queue, view) && ListIs(batch, pending, account.inHand) && repr <= old(repr)
        invariant i <= |queued| && k <= |queue| && view == Without(queued[..i], what) + queued[i..] && k == |Without(queued[..i], what)|
        invariant cbmsg == NodeAt(queue, k) && (if k == 0 then prev == null else prev == queue[k - 1])
        decreases |queued| - i
      {
        NodeMeans(header, queue, view, k);
        NextKept(queued, what, i, view, k);
        if cbmsg.what == what {
          cbmsg := Unlink(prev, cbmsg, k, view, account.inHand);
          view := view[..k] + view[k + 1..];
        } else {
          prev := cbmsg;
          cbmsg := cbmsg.next;
          k := k + 1;
        }
        i := i + 1;
      }
      NodeMeans(header, queue, view, k);
      AllKept(queued, what, i, view, k);
      DeletedBalanced(account, what);
      DeletedIs(account, what);
      account := Deleted(account, what);
      ValidIs();
    }

    /** Takes one node off the queue and gives it back. */
    method Unlink(prev: Message?, msg: Message, ghost k: nat, ghost view: seq<Msg>, ghost batchView: seq<Msg>) returns (next: Message?)
      requires Pooled() && ListIs(header, queue, view) && ListIs(batch, pending, batchView)
      requires k < |queue| && msg == queue[k] && (if k == 0 then prev == null else prev == queue[k - 1])
      modifies this`header, this`queue, this`repr, repr
      ensures Pooled() && ListIs(header, queue, view[..k] + view[k + 1..]) && ListIs(batch, pending, batchView)
      ensures queue == old(queue[..k] + queue[k + 1..]) && repr <= old(repr) && next == NodeAt(queue, k)
    {
      hide *;
      PooledMeans();
      PoolMeans(slots, queue, pending, repr, null);
      ListMeans(header, queue, view);
      CutBoth(queue, pending, k);
      Walk(queue, 0);
      Walk(queue, k + 1);
      NoDupMeans(queue, k);
      if k > 0 {
        NoDupMeans(queue, k - 1);
      }
      ghost var before := queue;
      next := msg.next;
      if prev == null {
        header := next;
      } else {
        prev.next := next;
      }
      GiveBack(msg, queue + pending, k);
      queue := before[..k] + before[k + 1..];
      PooledIs();
      CutLinked(before, view, k, header);
      NodeAtCut(before, k);
    }

    /** A slot is free again; any other node is freed. */
    method GiveBack(msg: Message, ghost used: seq<Message>, ghost k: nat)
      requires PoolIs(slots, used, repr, null) && k < |used| && msg == used[k]
      modifies this`repr, msg`when, msg`what
      ensures PoolIs(slots, used[..k] + used[k + 1..], repr, null) && repr <= old(repr)
    {
      hide *;
      PoolUsed(slots, used, repr, k);
      if msg.isStatic {
        msg.when := 0;
        msg.what := 0;
      }
      PoolReleased(slots, used, repr, k);
      if !msg.isStatic {
        repr := repr - {msg};
      }
    }

    // ---- The loop ----

    /** Takes all messages that are due off the queue. */
    method Detach(now: int)
      requires Valid() && batch == null
      modifies this`header, this`batch, this`timenow, this`queue, this`pending, this`account, repr`next
      ensures Valid() && account == Detached(old(account), now) == Stepped(old(account), Step.Detach(now))
    {
      hide *;
      ValidMeans();
      PooledMeans();
      NothingPending(batch, pending, account.inHand);
      PoolMeans(slots, queue, pending, repr, null);
      timenow := now;
      var prev, cbmsg, n := FindPlace(now);
      DetachedBalanced(account, now);
      DetachedIs(account, now);
      if cbmsg != header {
        Cut(prev, cbmsg, n, account.queued);
      } else {
        NothingDue(header, queue, account.queued, n);
        EmptyLinked();
      }
      account := Detached(account, now);
      ValidIs();
    }

    /** Cuts the list in two, behind the first n nodes. */
    method Cut(prev: Message?, cbmsg: Message?, ghost n: nat, ghost view: seq<Msg>)
      requires Pooled() && ListIs(header, queue, view) && pending == []
      requires n <= |queue| && cbmsg == NodeAt(queue, n) && cbmsg != header && (if n == 0 then prev == null else prev == queue[n - 1])
      modifies this`header, this`batch, this`queue, this`pending, repr`next
      ensures Pooled() && ListIs(header, queue, view[n..]) && ListIs(batch, pending, view[..n])
    {
      hide *;
      PooledMeans();
      PoolMeans(slots, queue, pending, repr, null);
      ListMeans(header, queue, view);
      Walk(queue, 0);
      Walk(queue, n);
      var orig := header;
      ghost var before := queue;
      header := cbmsg;
      NoDupMeans(queue, n - 1);
      if prev != null {
        prev.next := null;
      }
      batch := orig;
      FrontLinked(before, view, n);
      RestLinked(before, view, n);
      pending, queue := before[..n], before[n..];
      PoolTurned(slots, before, n, repr);
      PooledIs();
    }

    /** Handles the first message of the batch, if it is of a kind that is handled. */
    method HandleFront() returns (handled: bool)
      requires Valid() && batch != null && !account.done
      modifies this`account
      ensures Valid() && account == Dealt(old(account)) == Stepped(old(account), Handle)
      ensures handled <==> account.handled == old(account.handled) + [old(account.inHand[0])]
    {
      hide *;
      ValidMeans();
      NodeMeans(batch, pending, account.inHand, 0);
      InTime(account);
      handled := batch.when <= timenow && batch.what > 0;
      DealtBalanced(account);
      DealtIs(account);
      account := Dealt(account);
      ValidIs();
    }

    /** Gives the first node of the batch back and goes on to the next one. */
    method ReleaseFront()
      requires Valid() && batch != null && account.done
      modifies this`batch, this`pending, this`repr, this`account, repr
      ensures Valid() && repr <= old(repr) && account == Released(old(account)) == Stepped(old(account), Release)
    {
      hide *;
      ValidMeans();
      PooledMeans();
      PoolMeans(slots, queue, pending, repr, null);
      NodeMeans(batch, pending, account.inHand, 0);
      ListMeans(batch, pending, account.inHand);
      ReleasedBalanced(account);
      ReleasedIs(account);
      var prev := batch;
      ghost var before := pending;
      batch := batch.next;
      NoDupMeans(pending, 0);
      CutLast(queue, pending);
      GiveBack(prev, queue + pending, |queue|);
      RestLinked(pending, account.inHand, 1);
      pending := pending[1..];
      account := Released(account);
      PooledIs();
      ValidIs();
    }
  }

  lemma PoolUsed(slots: seq<Message>, used: seq<Message>, live: set<Message>, k: nat)
    requires PoolIs(slots, used, live, null) && k < |used|
    ensures |slots| == 5 && NoDup(slots) && NoDup(used)
    ensures forall n :: n in used ==> n in live && (n.isStatic ==> n in slots)
    ensures forall s :: s in slots ==> s in live && s.isStatic && (s.what == 0 <==> s !in used)
    ensures used[k] in used
  {
  }

  lemma CutBoth(queue: seq<Message>, pending: seq<Message>, k: nat)
    requires k < |queue|
    ensures (queue + pending)[k] == queue[k]
    ensures (queue + pending)[..k] + (queue + pending)[k + 1..] == queue[..k] + queue[k + 1..] + pending
  {
  }

  lemma NodeAtCut(list: seq<Message>, k: nat)
    requires k < |list|
    ensures NodeAt(list[..k] + list[k + 1..], k) == NodeAt(list, k + 1)
    ensures k > 0 ==> (list[..k] + list[k + 1..])[k - 1] == list[k - 1]
  {
  }

  lemma NothingKept(queued: seq<Msg>, what: int)
    ensures Without(queued[..0], what) == [] && [] + queued[0..] == queued
  {
  }

  /** One message further, kept or not. */
  lemma NextKept(queued: seq<Msg>, what: int, i: nat, view: seq<Msg>, k: nat)
    requires i <= |queued| && view == Without(queued[..i], what) + queued[i..] && k == |Without(queued[..i], what)| && k < |view|
    ensures i < |queued| && view[k] == queued[i]
    ensures view[k].what == what ==>
              view[..k] + view[k + 1..] == Without(queued[..i + 1], what) + queued[i + 1..] && k == |Without(queued[..i + 1], what)|
    ensures view[k].what != what ==>
              view == Without(queued[..i + 1], what) + queued[i + 1..] && k + 1 == |Without(queued[..i + 1], what)|
  {
    hide Without;
    WithoutAppend(queued[..i], queued[i], what);
    assert queued[..i + 1] == queued[..i] + [queued[i]];
    assert queued[i..] == [queued[i]] + queued[i + 1..];
  }

  lemma AllKept(queued: seq<Msg>, what: int, i: nat, view: seq<Msg>, k: nat)
    requires i <= |queued| && view == Without(queued[..i], what) + queued[i..] && k == |Without(queued[..i], what)| == |view|
    ensures view == Without(queued, what)
  {
    hide Without;
    assert queued[..i] == queued;
  }

  lemma DeletedIs(a: Account, what: int)
    ensures Stepped(a, Delete(what)) == Deleted(a, what)
    ensures var d := Deleted(a, what); d.queued == Without(a.queued, what) && d.inHand == a.inHand && d.timenow == a.timenow
  {
  }

  lemma NothingPending(head: Message?, list: seq<Message>, view: seq<Msg>)
    requires ListIs(head, list, view)
    ensures head == null <==> list == []
    ensures head == null <==> view == []
  {
  }

  /** The search ended at the head of the list, so nothing is due. */
  lemma NothingDue(head: Message?, list: seq<Message>, view: seq<Msg>, n: nat)
    requires ListIs(head, list, view) && NoDup(list) && n <= |list| && NodeAt(list, n) == head
    ensures n == 0
  {
  }

  lemma DetachedIs(a: Account, now: int)
    ensures a.inHand == [] ==> Stepped(a, Detach(now)) == Detached(a, now)
    ensures var d, n := Detached(a, now), DueBy(a.queued, now);
            d.queued == a.queued[n..] && d.inHand == a.queued[..n] && d.timenow == now
    ensures a.queued[..0] == [] && a.queued[0..] == a.queued
  {
  }

  lemma InTime(a: Account)
    requires Balanced(a)
    ensures a.inHand != [] ==> a.inHand[0].when <= a.timenow
  {
    hide Count, Sorted;
  }

  lemma DealtIs(a: Account)
    requires a.inHand != []
    ensures !a.done ==> Stepped(a, Handle) == Dealt(a)
    ensures var d := Dealt(a); d.queued == a.queued && d.inHand == a.inHand && d.timenow == a.timenow
    ensures Dealt(a).handled == if a.inHand[0].what > 0 then a.handled + [a.inHand[0]] else a.handled
  {
  }

  lemma ReleasedIs(a: Account)
    requires a.inHand != []
    ensures a.done ==> Stepped(a, Release) == Released(a)
    ensures var d := Released(a); d.queued == a.queued && d.inHand == a.inHand[1..] && d.timenow == a.timenow
  {
  }

  lemma PoolTurned(slots: seq<Message>, list: seq<Message>, n: nat, live: set<Message>)
    requires n <= |list| && PoolIs(slots, list + [], live, null)
    ensures PoolIs(slots, list[n..] + list[..n], live, null)
  {
    var front, rest := list[..n], list[n..];
    assert list + [] == front + rest;
    var used, now: seq<Message> := front + rest, rest + front;
    assert forall i :: 0 <= i < |now| ==> now[i] == used[if i < |rest| then |front| + i else i - |rest|];
    assert forall x :: x in used <==> x in now;
  }

  lemma CutLast(queue: seq<Message>, pending: seq<Message>)
    requires pending != []
    ensures (queue + pending)[|queue|] == pending[0]
    ensures (queue + pending)[..|queue|] + (queue + pending)[|queue| + 1..] == queue + pending[1..]
  {
  }
}
