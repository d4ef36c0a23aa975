/** Transfers that have been offered come to an end: there are only so many
  * steps to take on them. */
module TransferEnds {
  import opened FileReceivers
  import opened TransferSessions
  import opened TransferOnce
  import opened TransferProgress
  import opened TransferCompletion
  import MapSums

  // ---- Sums over channels and tasks ---------------------------------------------------------------------------

  function Total<T>(f: T -> nat, xs: seq<T>): nat {
    if xs == [] then 0 else f(xs[0]) + Total(f, xs[1..])
  }

  lemma {:induction false} TotalConcat<T>(f: T -> nat, xs: seq<T>, ys: seq<T>)
    ensures Total(f, xs + ys) == Total(f, xs) + Total(f, ys)
  {
    if xs == [] {
      assert xs + ys == ys;
    } else {
      assert (xs + ys)[1..] == xs[1..] + ys;
      TotalConcat(f, xs[1..], ys);
    }
  }

  lemma TotalPush<T>(f: T -> nat, xs: seq<T>, x: T)
    ensures Total(f, xs + [x]) == Total(f, xs) + f(x)
  {
    TotalConcat(f, xs, [x]);
    assert [x][1..] == [];
  }

  lemma {:induction false} TotalUpdate<T>(f: T -> nat, xs: seq<T>, i: nat, x: T)
    requires i < |xs|
    ensures Total(f, xs[i := x]) + f(xs[i]) == Total(f, xs) + f(x)
  {
    if i > 0 {
      assert xs[i := x][1..] == xs[1..][i - 1 := x];
      TotalUpdate(f, xs[1..], i - 1, x);
    }
  }

  lemma TotalExchanged<T>(f: T -> nat, xs: seq<T>, p: nat)
    requires p + 1 < |xs|
    ensures Total(f, Exchanged(xs, p)) == Total(f, xs)
  {
    TotalUpdate(f, xs, p, xs[p + 1]);
    TotalUpdate(f, xs[p := xs[p + 1]], p + 1, xs[p]);
  }

  // ---- What is left to do ---------------------------------------------------------------------------------------

  /** The size of the file behind each transfer. */
  type Sizes = Id -> nat

  ghost predicate Sized(size: Sizes, l: Link) {
    forall id :: id in l.s.tx ==> |l.s.tx[id].file| == size(id)
  }

  function TaskLeft(size: Sizes): Task -> nat {
    (t: Task) =>
      if t.phase == Ended then 0 else if t.phase == AwaitingAck then 1
      else if t.offset <= size(t.id) then 2 * (size(t.id) - t.offset) + 5 else 0
  }

  function FwdLeft(size: Sizes): Fwd -> nat {
    (m: Fwd) => match m
      case OfferMsg(id, _, _, _) => 2 * size(id) + 8
      case DataMsg(_, _, _, _) => 1
      case DoneMsg(_) => 3
  }

  function BackLeft(size: Sizes): Back -> nat {
    (m: Back) => if m.AcceptMsg? then 2 * size(m.id) + 6 else 1
  }

  function RxLeft(size: Sizes, id: Id, x: Rx): nat {
    if x.Asked? then 2 * size(id) + 7 else if x.Finishing? then 1 else 0
  }

  function RxLefts(size: Sizes, rx: map<Id, Rx>): map<Id, nat> { map id | id in rx :: RxLeft(size, id, rx[id]) }

  function Unlisted(tx: map<Id, Outgoing>): map<Id, nat> {
    map id | id in tx :: if tx[id].listing == Announced then 1 else 0
  }

  /** The most steps that are left to take. */
  ghost function Left(size: Sizes, l: Link): nat {
    Total(FwdLeft(size), l.fwd) + Total(BackLeft(size), l.back) + Total(TaskLeft(size), l.s.tasks)
      + MapSums.Sum(RxLefts(size, l.r.rx)) + MapSums.Sum(Unlisted(l.s.tx))
  }

  lemma RxChange(size: Sizes, rx: map<Id, Rx>, id: Id, x: Rx)
    ensures MapSums.Sum(RxLefts(size, rx[id := x])) + (if id in rx then RxLeft(size, id, rx[id]) else 0)
         == MapSums.Sum(RxLefts(size, rx)) + RxLeft(size, id, x)
  {
    MapSums.SumChange(RxLefts(size, rx), id, RxLeft(size, id, x));
    assert RxLefts(size, rx[id := x]) == RxLefts(size, rx)[id := RxLeft(size, id, x)];
  }

  lemma TxChange(tx: map<Id, Outgoing>, id: Id, o: Outgoing)
    requires id in tx && o.listing != Announced
    ensures MapSums.Sum(Unlisted(tx[id := o])) + (if tx[id].listing == Announced then 1 else 0)
         == MapSums.Sum(Unlisted(tx))
  {
    MapSums.SumChange(Unlisted(tx), id, 0);
    assert Unlisted(tx[id := o]) == Unlisted(tx)[id := 0];
  }

  lemma Pop<T>(f: T -> nat, xs: seq<T>)
    requires xs != []
    ensures Total(f, xs) == f(xs[0]) + Total(f, xs[1..])
  {}

  // ---- Every own step leaves less -----------------------------------------------------------------------------

  lemma OfferLeaves(digest: Digest, size: Sizes, l: Link, step: Step)
    requires OffersOnce(l) && Enabled(l, step) && Steady(l, step) && step.ReceiveOffer?
    ensures Left(size, Next(digest, l, step)) < Left(size, l)
  {
    var k, m := Next(digest, l, step), l.fwd[0];
    Pop(FwdLeft(size), l.fwd);
    RxChange(size, l.r.rx, m.id, k.r.rx[m.id]);
    if step.refuse { TotalPush(BackLeft(size), l.back, RejectMsg(m.id)); }
  }

  lemma DecisionLeaves(digest: Digest, size: Sizes, l: Link, step: Step)
    requires Enabled(l, step) && Steady(l, step) && step.Decide?
    ensures Left(size, Next(digest, l, step)) < Left(size, l)
  {
    var k := Next(digest, l, step);
    RxChange(size, l.r.rx, step.id, k.r.rx[step.id]);
    TotalPush(BackLeft(size), l.back, if step.accept then AcceptMsg(step.id) else RejectMsg(step.id));
  }

  lemma RenameLeaves(digest: Digest, size: Sizes, l: Link, step: Step)
    requires Enabled(l, step) && step.Rename?
    ensures Left(size, Next(digest, l, step)) < Left(size, l)
  {
    RxChange(size, l.r.rx, step.id, Next(digest, l, step).r.rx[step.id]);
  }

  lemma ListLeaves(digest: Digest, size: Sizes, l: Link, step: Step)
    requires Enabled(l, step) && step.List?
    ensures Left(size, Next(digest, l, step)) < Left(size, l)
  {
    TxChange(l.s.tx, step.id, l.s.tx[step.id].(listing := Listed));
  }

  lemma DeliveryLeaves(size: Sizes, l: Link, k: Link)
    requires Delivered(l, k)
    ensures Left(size, k) < Left(size, l)
  {
    var id := l.fwd[0].id;
    Pop(FwdLeft(size), l.fwd);
    if IsIncoming(l.r, id) {
      RxChange(size, l.r.rx, id, k.r.rx[id]);
      if l.fwd[0].DoneMsg? { TotalPush(BackLeft(size), l.back, AckMsg(id, true)); }
    }
  }

  lemma VerdictLeaves(digest: Digest, size: Sizes, l: Link, step: Step)
    requires Enabled(l, step) && step.ReceiveAck?
    ensures Left(size, Next(digest, l, step)) < Left(size, l)
  {
    Pop(BackLeft(size), l.back);
    var id := l.back[0].id;
    if IsListed(l.s, id) {
      TxChange(l.s.tx, id, l.s.tx[id].(ackSet := true, ackSuccess := l.back[0].success));
    }
  }

  lemma AnswerLeaves(digest: Digest, size: Sizes, l: Link, step: Step)
    requires Enabled(l, step) && step.ReceiveAnswer?
    ensures Left(size, Next(digest, l, step)) < Left(size, l)
  {
    var m := l.back[0];
    Pop(BackLeft(size), l.back);
    if IsListed(l.s, m.id) {
      if m.AcceptMsg? {
        TotalPush(TaskLeft(size), l.s.tasks, Task(m.id, 0, 0, Streaming));
      } else {
        TxChange(l.s.tx, m.id, l.s.tx[m.id].(listing := TransferSessions.Unlisted));
      }
    }
  }

  lemma StreamLeaves(digest: Digest, size: Sizes, l: Link, step: Step)
    requires Sized(size, l) && Enabled(l, step) && Steady(l, step) && (step.TaskSends? || step.TaskDone?)
    ensures Left(size, Next(digest, l, step)) < Left(size, l)
  {
    var t, k := l.s.tasks[step.i], Next(digest, l, step);
    TotalUpdate(TaskLeft(size), l.s.tasks, step.i, k.s.tasks[step.i]);
    TotalPush(FwdLeft(size), l.fwd, k.fwd[|l.fwd|]);
  }

  lemma EndLeaves(digest: Digest, size: Sizes, l: Link, step: Step)
    requires Enabled(l, step) && step.TaskGetsAck?
    ensures Left(size, Next(digest, l, step)) < Left(size, l)
  {
    var t, k := l.s.tasks[step.i], Next(digest, l, step);
    TotalUpdate(TaskLeft(size), l.s.tasks, step.i, t.(phase := Ended));
    if IsListed(l.s, t.id) { TxChange(l.s.tx, t.id, l.s.tx[t.id].(listing := TransferSessions.Unlisted)); }
  }

  lemma ReorderLeaves(digest: Digest, size: Sizes, l: Link, step: Step)
    requires Enabled(l, step) && (step.Reorder? || step.ReorderBack?)
    ensures Left(size, Next(digest, l, step)) == Left(size, l)
  {
    if step.Reorder? {
      TotalExchanged(FwdLeft(size), l.fwd, step.p);
    } else {
      TotalExchanged(BackLeft(size), l.back, step.p);
    }
  }

  /** Each step a session or a user takes leaves less to do. */
  lemma OwnLeaves(digest: Digest, size: Sizes, l: Link, step: Step)
    requires Proceeds(digest, l, step) && Sized(size, l) && Own(step)
    ensures Left(size, Next(digest, l, step)) < Left(size, l)
  {
    if step.ReceiveOffer? {
      OfferLeaves(digest, size, l, step);
    } else if step.Decide? {
      DecisionLeaves(digest, size, l, step);
    } else if step.Rename? {
      RenameLeaves(digest, size, l, step);
    } else if step.List? {
      ListLeaves(digest, size, l, step);
    } else if step.ReceiveAck? {
      VerdictLeaves(digest, size, l, step);
    } else if step.ReceiveAnswer? {
      AnswerLeaves(digest, size, l, step);
    } else if step.TaskGetsAck? {
      EndLeaves(digest, size, l, step);
    } else if step.TaskSends? || step.TaskDone? {
      StreamLeaves(digest, size, l, step);
    } else {
      DeliveryEffect(digest, l, step);
      DeliveryLeaves(size, l, Next(digest, l, step));
    }
  }

  function Owns(steps: seq<Step>): seq<bool> { seq(|steps|, i requires 0 <= i < |steps| => Own(steps[i])) }

  /** How many of the flags from a on and before n are set. */
  function Count(flags: seq<bool>, a: nat, n: nat): nat
    requires a <= n <= |flags|
  {
    if a == n then 0 else Count(flags, a, n - 1) + (if flags[n - 1] then 1 else 0)
  }

  lemma {:induction false} Descent(flags: seq<bool>, left: seq<nat>, a: nat, n: nat)
    requires a <= n <= |flags| < |left|
    requires forall i {:trigger flags[i]} :: a <= i < n ==> left[i + 1] + (if flags[i] then 1 else 0) <= left[i]
    ensures Count(flags, a, n) + left[n] <= left[a]
  {
    if a < n {
      Descent(flags, left, a, n - 1);
      assert left[n - 1 + 1] + (if flags[n - 1] then 1 else 0) <= left[n - 1];
    }
  }

  lemma SizedStays(digest: Digest, size: Sizes, l: Link, step: Step)
    requires Sized(size, l) && Enabled(l, step) && !step.Offer?
    ensures Sized(size, Next(digest, l, step))
  {}

  lemma StepLeaves(digest: Digest, size: Sizes, l: Link, step: Step)
    requires Proceeds(digest, l, step) && Sized(size, l) && !step.Offer?
    ensures Left(size, Next(digest, l, step)) + (if Own(step) then 1 else 0) <= Left(size, l)
    ensures Sized(size, Next(digest, l, step))
  {
    SizedStays(digest, size, l, step);
    if Own(step) { OwnLeaves(digest, size, l, step); } else { ReorderLeaves(digest, size, l, step); }
  }

  lemma StepOfTrace(digest: Digest, size: Sizes, trace: seq<Link>, steps: seq<Step>, m: nat)
    requires CollisionFree(digest) && Execution(digest, trace, steps) && Initial(trace[0]) && m < |steps|
    requires forall i :: 0 <= i < |steps| ==> Orderly(trace[i], steps[i])
    requires Sized(size, trace[m]) && !steps[m].Offer?
    ensures Left(size, trace[m + 1]) + (if Own(steps[m]) then 1 else 0) <= Left(size, trace[m])
    ensures Sized(size, trace[m + 1])
  {
    NoSpuriousFailure(digest, trace, steps, m);
    assert Enabled(trace[m], steps[m]) && Orderly(trace[m], steps[m]);
    assert trace[m + 1] == Next(digest, trace[m], steps[m]);
    StepLeaves(digest, size, trace[m], steps[m]);
  }

  lemma {:induction false} SizedLater(digest: Digest, size: Sizes, trace: seq<Link>, steps: seq<Step>, a: nat, n: nat)
    requires Execution(digest, trace, steps) && a <= n <= |steps|
    requires Sized(size, trace[a]) && forall i :: a <= i < n ==> !steps[i].Offer?
    ensures Sized(size, trace[n])
  {
    if a < n {
      var m := n - 1;
      SizedLater(digest, size, trace, steps, a, m);
      assert Enabled(trace[m], steps[m]) && trace[m + 1] == Next(digest, trace[m], steps[m]);
      SizedStays(digest, size, trace[m], steps[m]);
    }
  }

  /** In every orderly execution, without new offers only so many steps can be
    * taken from a state on. As long as something is left, one can be taken
    * (QuiescentExactly), and when nothing is left every transfer is where
    * Completion says. */
  lemma OffersComeToAnEnd(digest: Digest, size: Sizes, trace: seq<Link>, steps: seq<Step>, a: nat, n: nat)
    requires CollisionFree(digest) && Execution(digest, trace, steps) && Initial(trace[0])
    requires forall i :: 0 <= i < |steps| ==> Orderly(trace[i], steps[i])
    requires a <= n <= |steps| && Sized(size, trace[a]) && forall i :: a <= i < n ==> !steps[i].Offer?
    ensures Count(Owns(steps), a, n) <= Left(size, trace[a])
  {
    var flags, left := Owns(steps), seq(|trace|, i requires 0 <= i < |trace| => Left(size, trace[i]));
    forall i {:trigger flags[i]} | a <= i < n ensures left[i + 1] + (if flags[i] then 1 else 0) <= left[i] {
      SizedLater(digest, size, trace, steps, a, i);
      StepOfTrace(digest, size, trace, steps, i);
    }
    Descent(flags, left, a, n);
  }
}
