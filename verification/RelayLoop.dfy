/** When the relay stops: what happened before its loop ends, told by the events of a run. */
module RelayLoop {
  import opened Ring
  import opened Relay

  ghost predicate CanHappen(max: nat, es: seq<Event>) {
    max <= TCP_SND_BUF && Possible(Initial(max), es)
  }

  ghost function After(max: nat, es: seq<Event>): State
    requires CanHappen(max, es)
  {
    Run(Initial(max), es)
  }

  // ---------- when a direction is over ----------

  /** The socket took or gave nothing, and not because it would have had to wait. */
  predicate Failed(o: Outcome) {
    o.Broken? || (o.Moved? && o.n == 0)
  }

  /** The i-th event ends the direction from lwIP to the socket: a write that fails, or a turn
      with nothing left to write after the end of the stream was received. */
  ghost predicate EndsForward(max: nat, es: seq<Event>, i: int)
    requires 0 <= i < |es|
  {
    && CanHappen(max, es[..i]) && es[i].WriteOut?
    && if After(max, es[..i]).queue == [] then RecvEof in es[..i] else Failed(es[i].w)
  }

  ghost predicate ForwardOver(max: nat, es: seq<Event>) {
    exists i :: 0 <= i < |es| && EndsForward(max, es, i)
  }

  /** The j-th event is the last read so far, there was room for it, and it failed. */
  ghost predicate LastReadFails(max: nat, es: seq<Event>, j: int)
    requires 0 <= j < |es|
  {
    && CanHappen(max, es[..j]) && es[j].ReadIn? && Failed(es[j].r)
    && |After(max, es[..j]).inFlight| + |After(max, es[..j]).readable| < max
    && forall k :: j < k < |es| ==> !es[k].ReadIn?
  }

  ghost predicate ReadFailed(max: nat, es: seq<Event>) {
    exists j :: 0 <= j < |es| && LastReadFails(max, es, j)
  }

  /** The i-th event ends the direction from the socket to lwIP: the connection is gone, lwIP
      refuses what is handed on, or there is nothing left to hand on after a read failed. */
  ghost predicate EndsBackward(max: nat, es: seq<Event>, i: int)
    requires 0 <= i < |es|
  {
    && CanHappen(max, es[..i]) && es[i].HandOn?
    && (|| Err in es[..i]
        || (if After(max, es[..i]).readable == [] then ReadFailed(max, es[..i])
            else es[i].fails0 || es[i].fails1 || es[i].outputFails))
  }

  ghost predicate BackwardOver(max: nat, es: seq<Event>) {
    exists i :: 0 <= i < |es| && EndsBackward(max, es, i)
  }

  // ---------- one event more ----------

  lemma {:induction false} RunMore(s: State, es: seq<Event>, e: Event)
    requires Possible(s, es + [e])
    ensures Possible(s, es) && Enabled(Run(s, es), e) && Run(s, es + [e]) == Step(Run(s, es), e)
    decreases |es|
  {
    hide Enabled, Step;
    if es == [] {
      assert (es + [e])[1..] == [];
    } else {
      assert (es + [e])[1..] == es[1..] + [e] && (es + [e])[0] == es[0];
      RunMore(Step(s, es[0]), es[1..], e);
    }
  }

  lemma {:induction false} Prefix(es: seq<Event>, e: Event, i: nat)
    requires i <= |es|
    ensures (es + [e])[..i] == es[..i]
  {
  }

  lemma {:induction false} ForwardMore(max: nat, es: seq<Event>, e: Event)
    requires CanHappen(max, es)
    ensures ForwardOver(max, es + [e]) <==>
      ForwardOver(max, es) ||
      (e.WriteOut? && if After(max, es).queue == [] then RecvEof in es else Failed(e.w))
  {
    hide CanHappen, After, Failed;
    var all := es + [e];
    assert all[..|es|] == es;
    forall i | 0 <= i < |es| ensures EndsForward(max, all, i) <==> EndsForward(max, es, i) {
      Prefix(es, e, i);
    }
    assert EndsForward(max, all, |es|) <==>
           (e.WriteOut? && if After(max, es).queue == [] then RecvEof in es else Failed(e.w));
  }

  lemma {:induction false} ReadMore(max: nat, es: seq<Event>, e: Event)
    requires CanHappen(max, es)
    ensures !e.ReadIn? ==> (ReadFailed(max, es + [e]) <==> ReadFailed(max, es))
    ensures e.ReadIn? ==>
      (ReadFailed(max, es + [e]) <==>
       Failed(e.r) && |After(max, es).inFlight| + |After(max, es).readable| < max)
  {
    hide CanHappen, After, Failed;
    var all := es + [e];
    assert all[..|es|] == es;
    if e.ReadIn? {
      forall i | 0 <= i < |es| ensures !LastReadFails(max, all, i) {
        assert all[|es|].ReadIn?;
      }
    } else {
      forall i | 0 <= i < |es| ensures LastReadFails(max, all, i) <==> LastReadFails(max, es, i) {
        Prefix(es, e, i);
      }
    }
    assert LastReadFails(max, all, |es|) <==>
           e.ReadIn? && Failed(e.r) && |After(max, es).inFlight| + |After(max, es).readable| < max;
  }

  lemma {:induction false} BackwardMore(max: nat, es: seq<Event>, e: Event)
    requires CanHappen(max, es)
    ensures BackwardOver(max, es + [e]) <==>
      BackwardOver(max, es) ||
      (e.HandOn? && (Err in es || if After(max, es).readable == [] then ReadFailed(max, es)
                                 else e.fails0 || e.fails1 || e.outputFails))
  {
    hide CanHappen, After, ReadFailed;
    var all := es + [e];
    assert all[..|es|] == es;
    forall i | 0 <= i < |es| ensures EndsBackward(max, all, i) <==> EndsBackward(max, es, i) {
      Prefix(es, e, i);
    }
    assert EndsBackward(max, all, |es|) <==>
      (e.HandOn? && (Err in es || if After(max, es).readable == [] then ReadFailed(max, es)
                                 else e.fails0 || e.fails1 || e.outputFails));
  }

  // ---------- the results of the two directions ----------

  /** What the variables of the loop say about the events so far. */
  ghost predicate Tells(max: nat, es: seq<Event>, s: State) {
    && (s.eof <==> RecvEof in es) && (s.pcb <==> Err !in es) && s.max == max
    && (s.resF < 0 <==> ForwardOver(max, es)) && (s.resB < 0 <==> BackwardOver(max, es))
    && (s.pc.LockF? ==> s.resF >= 0)
    && (s.pc.LockB? ==> s.resB >= 0 && (s.pc.res < 0 <==> ReadFailed(max, es)))
  }

  lemma {:induction false} TellsStart(max: nat)
    ensures Tells(max, [], Initial(max))
  {
  }

  lemma {:induction false} TellsStep(max: nat, es: seq<Event>, e: Event, s: State)
    requires CanHappen(max, es) && s == After(max, es) && Tells(max, es, s) && Inv(s) && Enabled(s, e)
    ensures Tells(max, es + [e], Step(s, e))
  {
    ForwardMore(max, es, e);
    BackwardMore(max, es, e);
    ReadMore(max, es, e);
    hide ForwardOver, BackwardOver, ReadFailed, After, CanHappen, Inv, Offered, Flat;
    match e
    case HandOn(cut, fails0, fails1, outputFails) =>
      HandOnResult(s, cut, fails0, fails1, outputFails);
      hide StepHandOn;
    case _ =>
  }

  /** Whether handing on ends the direction. */
  lemma {:induction false} HandOnResult(s: State, cut: nat, fails0: bool, fails1: bool, outputFails: bool)
    requires Inv(s) && Enabled(s, HandOn(cut, fails0, fails1, outputFails)) && s.resB >= 0
    ensures var t := StepHandOn(s, s.pc.res, cut, fails0, fails1, outputFails);
      && t.eof == s.eof && t.pcb == s.pcb && t.max == s.max && t.resF == s.resF && t.pc == Loop
      && (t.resB < 0 <==> !s.pcb || if s.readable == [] then s.pc.res < 0 else fails0 || fails1 || outputFails)
  {
    if s.readable != [] {
      HandOnFits(s, cut, fails0, fails1);
    }
    hide TcpWrite, TcpWriteOk;
  }

  lemma {:induction false} RunTells(max: nat, es: seq<Event>)
    requires CanHappen(max, es)
    ensures Tells(max, es, After(max, es)) && Inv(After(max, es))
    decreases |es|
  {
    hide Tells, Inv, Step, Enabled;
    InitialInv(max);
    RunInv(Initial(max), es);
    if es == [] {
      TellsStart(max);
    } else {
      var n := |es| - 1;
      var front, e := es[..n], es[n];
      assert es == front + [e];
      RunMore(Initial(max), front, e);
      RunTells(max, front);
      TellsStep(max, front, e, After(max, front));
    }
  }

  lemma {:induction false} InitialInv(max: nat)
    requires max <= TCP_SND_BUF
    ensures Inv(Initial(max))
  {
  }

  // ---------- when the loop ends ----------

  /** The loop is left at a time-out, or when both directions are over, and not before. */
  lemma {:induction false} LoopEnds(max: nat, es: seq<Event>, timeout: bool)
    requires CanHappen(max, es + [Decide(timeout)])
    ensures CanHappen(max, es)
    ensures After(max, es + [Decide(timeout)]).pc ==
            if timeout || (ForwardOver(max, es) && BackwardOver(max, es)) then Drain else AtF
  {
    hide ForwardOver, BackwardOver, ReadFailed, Inv;
    RunMore(Initial(max), es, Decide(timeout));
    RunTells(max, es);
  }

  /** No time-out among the events, and the connection was there when the task started. */
  predicate Undisturbed(es: seq<Event>) {
    && Decide(true) !in es && DrainCheck(true) !in es
    && forall i, j :: 0 <= i < j < |es| && es[i] == Err ==> es[j] != Start
  }

  /** So a healthy session goes on: without a time-out the task has left its loop only when
      both directions are over, and has returned only when the connection is gone or lwIP
      has acknowledged every byte that was read from the socket. */
  lemma {:induction false} GoesOn(max: nat, es: seq<Event>)
    requires CanHappen(max, es) && Undisturbed(es)
    ensures var s := After(max, es);
      && (s.pc == Drain || s.pc.Ended? ==> ForwardOver(max, es) && BackwardOver(max, es))
      && (s.pc.Ended? ==> Err in es || (s.net.acked == |s.log.readIn| && s.pc == Ended(true)))
    decreases |es|
  {
    hide ForwardOver, BackwardOver, ReadFailed;
    if es != [] {
      var n := |es| - 1;
      var front, e := es[..n], es[n];
      assert es == front + [e];
      RunMore(Initial(max), front, e);
      assert forall x :: x in front ==> x in es;
      GoesOn(max, front);
      RunTells(max, front);
      RunTells(max, es);
      ForwardMore(max, front, e);
      BackwardMore(max, front, e);
      OneStep(max, front, e, After(max, front));
    }
  }

  lemma {:induction false} OneStep(max: nat, es: seq<Event>, e: Event, s: State)
    requires Inv(s) && Enabled(s, e) && Undisturbed(es + [e]) && Tells(max, es, s)
    ensures var t := Step(s, e);
      && (t.pc == Drain || t.pc.Ended? ==>
            s.pc == Drain || s.pc.Ended? || (ForwardOver(max, es) && BackwardOver(max, es)))
      && (t.pc.Ended? && !s.pc.Ended? ==> !s.pcb || (t.pc == Ended(true) && t.net.acked == |t.log.readIn|))
      && (s.pc.Ended? && t.pc.Ended? ==> t.pc == s.pc && t.log.readIn == s.log.readIn && t.net.acked >= s.net.acked)
  {
    hide ForwardOver, BackwardOver, ReadFailed, Offered, Flat;
    LastIn(es, e);
    if e == Start {
      StartsThere(es);
    }
  }

  lemma {:induction false} LastIn(es: seq<Event>, e: Event)
    ensures e in es + [e]
  {
    assert (es + [e])[|es|] == e;
  }

  lemma {:induction false} StartsThere(es: seq<Event>)
    requires Undisturbed(es + [Start])
    ensures Err !in es
  {
    var all := es + [Start];
    assert all[|es|] == Start;
    assert forall i :: 0 <= i < |es| ==> all[i] == es[i];
  }

  // ---------- how the task starts and how it returns ----------

  /** Without a connection the task returns at once. */
  lemma {:induction false} StartLeads(max: nat, es: seq<Event>)
    requires CanHappen(max, es + [Start])
    ensures After(max, es + [Start]).pc == if Err in es then Ended(false) else AtF
  {
    hide ForwardOver, BackwardOver, ReadFailed, Inv;
    RunMore(Initial(max), es, Start);
    RunTells(max, es);
  }

  /** Behind its loop the task waits until the connection is gone, nothing is in the ring any
      more, or a time-out comes. */
  lemma {:induction false} DrainEnds(max: nat, es: seq<Event>, timeout: bool)
    requires CanHappen(max, es + [DrainCheck(timeout)])
    ensures CanHappen(max, es)
    ensures var s := After(max, es);
      After(max, es + [DrainCheck(timeout)]).pc ==
      if Err in es then Ended(false)
      else if s.inFlight == [] && s.readable == [] then Ended(true)
      else if timeout then Ended(false) else Drain
  {
    hide ForwardOver, BackwardOver, ReadFailed, Inv;
    RunMore(Initial(max), es, DrainCheck(timeout));
    RunTells(max, es);
  }

  // ---------- when a direction is shut down ----------

  /** The i-th event finds nothing left to write after the end of the stream. */
  ghost predicate WritesLast(max: nat, es: seq<Event>, i: int)
    requires 0 <= i < |es|
  {
    CanHappen(max, es[..i]) && es[i].WriteOut? && After(max, es[..i]).queue == [] && RecvEof in es[..i]
  }

  /** The i-th event finds nothing left to hand on after a read failed. */
  ghost predicate HandsLast(max: nat, es: seq<Event>, i: int)
    requires 0 <= i < |es|
  {
    && CanHappen(max, es[..i]) && es[i].HandOn? && Err !in es[..i]
    && After(max, es[..i]).readable == [] && ReadFailed(max, es[..i])
  }

  ghost predicate Wrote(max: nat, es: seq<Event>) {
    exists i :: 0 <= i < |es| && WritesLast(max, es, i)
  }

  ghost predicate Handed(max: nat, es: seq<Event>) {
    exists i :: 0 <= i < |es| && HandsLast(max, es, i)
  }

  lemma {:induction false} LastMore(max: nat, es: seq<Event>, e: Event)
    requires CanHappen(max, es)
    ensures Wrote(max, es + [e]) <==>
      Wrote(max, es) || (e.WriteOut? && After(max, es).queue == [] && RecvEof in es)
    ensures Handed(max, es + [e]) <==>
      Handed(max, es) || (e.HandOn? && Err !in es && After(max, es).readable == [] && ReadFailed(max, es))
  {
    hide CanHappen, After, ReadFailed;
    var all := es + [e];
    assert all[..|es|] == es;
    forall i | 0 <= i < |es|
      ensures WritesLast(max, all, i) <==> WritesLast(max, es, i)
      ensures HandsLast(max, all, i) <==> HandsLast(max, es, i)
    {
      Prefix(es, e, i);
    }
    assert WritesLast(max, all, |es|) <==> (e.WriteOut? && After(max, es).queue == [] && RecvEof in es);
    assert HandsLast(max, all, |es|) <==>
           (e.HandOn? && Err !in es && After(max, es).readable == [] && ReadFailed(max, es));
  }

  /** The socket is shut down for writing if and only if everything received was written when
      the end of the stream had come, and lwIP's side if and only if everything read was
      handed on when a read had failed. */
  lemma {:induction false} ShutDown(max: nat, es: seq<Event>)
    requires CanHappen(max, es)
    ensures After(max, es).log.shutWr <==> Wrote(max, es)
    ensures After(max, es).log.shutPcb <==> Handed(max, es)
    decreases |es|
  {
    if es != [] {
      var n := |es| - 1;
      var front, e := es[..n], es[n];
      assert es == front + [e];
      hide Step, Enabled, Wrote, Handed, Tells, Inv, ReadFailed;
      RunMore(Initial(max), front, e);
      ShutDown(max, front);
      RunTells(max, front);
      LastMore(max, front, e);
      ShutStep(max, front, e, After(max, front));
    }
  }

  lemma {:induction false} ShutStep(max: nat, es: seq<Event>, e: Event, s: State)
    requires Tells(max, es, s) && Enabled(s, e)
    ensures var t := Step(s, e);
      && (t.log.shutWr <==> s.log.shutWr || (e.WriteOut? && s.queue == [] && RecvEof in es))
      && (t.log.shutPcb <==> s.log.shutPcb || (e.HandOn? && Err !in es && s.readable == [] && ReadFailed(max, es)))
  {
    hide ForwardOver, BackwardOver, ReadFailed, Offered, Flat, TcpWrite, TcpWriteOk;
  }
}
