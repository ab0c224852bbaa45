/**
  Requests are served: from every reachable state of the router any request can be brought to its
  end, its result can be polled, and its slot can be freed, all without further requests.
*/
module IoService {
  import opened Wrappers
  import opened IoRouter
  import opened IoCrossing

  // ---------------------------------------------------------------- completing a request

  lemma DispatchOwn(s: State, t: nat, out: IoResult)
    requires Ready(s) && s.handling == Some(t) && t in s.reqs
    ensures
      var u := Apply(s, Dispatch(out));
      && Ready(u) && t in u.reqs && HandRank(u) < HandRank(s)
      && (u.reqs[t].place.Completed? || u.handling == Some(t))
  {
    BaseDispatch(s, out);
    DispatchKeeps(s, t, out);
    FireKeepsRank(s, t);
    RankFalls(FireAt(s, t), t, out);
  }

  /** The dispatcher finishes what it has in its hands. */
  lemma {:induction false} Finish(s: State, t: nat, out: IoResult) returns (u: State)
    requires Ready(s) && s.handling == Some(t) && t in s.reqs
    ensures CanReach(s, u) && Ready(u) && t in u.reqs && u.reqs[t].place.Completed?
    decreases HandRank(s)
  {
    DispatchOwn(s, t, out);
    u := Apply(s, Dispatch(out));
    if u.reqs[t].place.Completed? {
      Stay(u);
    } else {
      u := Finish(u, t, out);
    }
    OneFirst(s, Dispatch(out), u);
  }

  /** Any request can be submitted to the end, fetched, handled and completed. */
  lemma Complete(s: State, t: nat, out: IoResult) returns (u: State)
    requires Ready(s) && t in s.reqs
    ensures CanReach(s, u) && Ready(u) && t in u.reqs && u.reqs[t].place.Completed?
  {
    var v := DriveSent(s, t);
    assert RecordOk(v.reqs[t]);
    if v.reqs[t].place.Completed? {
      u := v;
    } else {
      var w := InHand(v, t, out);
      u := Finish(w, t, out);
      ReachTwice(v, w, u);
      ReachTwice(s, v, u);
    }
  }

  lemma InHand(s: State, t: nat, out: IoResult) returns (u: State)
    requires Ready(s) && t in s.reqs && !s.reqs[t].place.Unsent? && !s.reqs[t].place.Completed?
    ensures CanReach(s, u) && Ready(u) && t in u.reqs && u.handling == Some(t)
  {
    if s.reqs[t].place.Queued? {
      var h := s.reqs[t].place.hart;
      var p :| 0 <= p < |s.queues[h]| && s.queues[h][p] == t;
      u := DriveFetched(s, t, h, p, out, out);
    } else {
      u := s;
      Stay(s);
    }
  }

  lemma Continues(harts: nat, ls: seq<Label>, u: State) returns (ms: seq<Label>)
    requires CanReach(Run(harts, ls), u)
    ensures Quiet(ms) && Run(harts, ls + ms) == u
  {
    ms :| Quiet(ms) && RunOn(Run(harts, ls), ms) == u;
    RunOnRun(harts, ls, ms);
  }

  /** In any run whatever, every request can be completed. */
  lemma Completes(harts: nat, ls: seq<Label>, id: nat) returns (ms: seq<Label>)
    requires 0 < harts <= WORD && id in Run(harts, ls).reqs
    ensures Quiet(ms) && id in Run(harts, ls + ms).reqs && Run(harts, ls + ms).reqs[id].place.Completed?
  {
    ReadyRun(harts, ls);
    var u := Complete(Run(harts, ls), id, Err(""));
    ms := Continues(harts, ls, u);
  }

  // ---------------------------------------------------------------- its result

  /** In any run whatever, an awaited request that was not handled yet can be answered with whatever its handler computes. */
  lemma Answered(harts: nat, ls: seq<Label>, id: nat, out: IoResult) returns (ms: seq<Label>)
    requires 0 < harts <= WORD && id in Run(harts, ls).reqs
    requires Run(harts, ls).reqs[id].live && Run(harts, ls).reqs[id].computed.None?
    ensures Quiet(ms) && id in Run(harts, ls + ms).reqs
    ensures
      var r, q := Run(harts, ls).reqs[id], Run(harts, ls + ms).reqs[id];
      q.computed == Some(out) && q.taken == r.taken + [out]
  {
    ReadyRun(harts, ls);
    var u := Answer(Run(harts, ls), id, out);
    ms := Continues(harts, ls, u);
  }

  lemma Answer(s: State, id: nat, out: IoResult) returns (u: State)
    requires Ready(s) && id in s.reqs && s.reqs[id].live && s.reqs[id].computed.None?
    ensures CanReach(s, u) && id in u.reqs
    ensures u.reqs[id].computed == Some(out) && u.reqs[id].taken == s.reqs[id].taken + [out]
  {
    var v := DriveSent(s, id);
    assert RecordOk(v.reqs[id]);
    var w := DriveFlagged(v, id, out, out);
    assert SameReq(v.reqs[id], w.reqs[id], out);
    u := PollReturns(w, id, out);
    ReachTwice(s, v, w);
    ReachTwice(s, w, u);
  }

  // ---------------------------------------------------------------- one poll

  /** A whole poll by nobody disturbed: it takes the slot's result if the flag is up and a result there, and cleans the slot. */
  ghost predicate PollDone(s: State, a: nat, id: nat, t: State) {
    var c, d := CellAt(s.cells, id % PENDING), CellAt(t.cells, id % PENDING);
    && a !in t.pollers && id in s.reqs && id in t.reqs
    && if c.complete && c.result.Some?
       then t.reqs[id] == s.reqs[id].(taken := s.reqs[id].taken + [c.result.value]) && d == Cell(false, None, c.callback)
       else t.reqs[id] == s.reqs[id] && d == c
  }

  lemma FirstPoll(s: State, a: nat, id: nat)
    requires id in s.reqs && Sent(s.reqs[id]) && s.reqs[id].live && a !in s.pollers
    ensures
      var t := Apply(Apply(s, StartPoll(a, id)), Poll(a));
      && t.reqs == s.reqs && CellAt(t.cells, id % PENDING) == CellAt(s.cells, id % PENDING)
      && if CellAt(s.cells, id % PENDING).complete then a in t.pollers && t.pollers[a] == Poller(id, LockTake) else a !in t.pollers
  {
    var s1 := Apply(s, StartPoll(a, id));
    assert s1.pollers[a] == Poller(id, LoadFlag);
    assert s.reqs[id := s.reqs[id]] == s.reqs;
  }

  lemma RestOfPoll(s: State, a: nat, id: nat)
    requires id in s.reqs && a in s.pollers && s.pollers[a] == Poller(id, LockTake) && CellAt(s.cells, id % PENDING).complete
    ensures PollDone(s, a, id, Apply(Apply(s, Poll(a)), Poll(a)))
  {
    var s1 := Apply(s, Poll(a));
    if CellAt(s.cells, id % PENDING).result.Some? {
      assert s1.pollers[a] == Poller(id, ClearFlag);
    }
  }

  lemma PollSteps(s: State, a: nat, id: nat)
    requires id in s.reqs && Sent(s.reqs[id]) && s.reqs[id].live && a !in s.pollers
    ensures PollDone(s, a, id, Apply(Apply(Apply(Apply(s, StartPoll(a, id)), Poll(a)), Poll(a)), Poll(a)))
  {
    var t := Apply(Apply(s, StartPoll(a, id)), Poll(a));
    FirstPoll(s, a, id);
    if CellAt(s.cells, id % PENDING).complete {
      RestOfPoll(t, a, id);
    }
  }

  lemma RunFour(harts: nat, ls: seq<Label>, a: Label, b: Label, c: Label, d: Label)
    ensures Run(harts, ls + [a] + [b] + [c] + [d]) == Apply(Apply(Apply(Apply(Run(harts, ls), a), b), c), d)
  {
    RunSnoc(harts, ls, a);
    RunSnoc(harts, ls + [a], b);
    RunSnoc(harts, ls + [a] + [b], c);
    RunSnoc(harts, ls + [a] + [b] + [c], d);
  }

  /** After any run, an undisturbed poll of a request that was sent and is awaited. */
  lemma PollAlone(harts: nat, ls: seq<Label>, a: nat, id: nat)
    requires id in Run(harts, ls).reqs && Sent(Run(harts, ls).reqs[id]) && Run(harts, ls).reqs[id].live
    requires a !in Run(harts, ls).pollers
    ensures PollDone(Run(harts, ls), a, id, Run(harts, ls + [StartPoll(a, id)] + [Poll(a)] + [Poll(a)] + [Poll(a)]))
  {
    RunFour(harts, ls, StartPoll(a, id), Poll(a), Poll(a), Poll(a));
    PollSteps(Run(harts, ls), a, id);
  }

  // ---------------------------------------------------------------- freeing the slot

  /** A request that was submitted and is not being polled can be given up, and nothing else changes. */
  lemma RetireFrees(harts: nat, ls: seq<Label>, id: nat)
    requires id in Run(harts, ls).reqs && Run(harts, ls).reqs[id].pc.Returned? && !Polled(Run(harts, ls).pollers, id)
    ensures
      var s, t := Run(harts, ls), Run(harts, ls + [Retire(id)]);
      && t.reqs == s.reqs[id := s.reqs[id].(live := false)]
      && (s.reqs[id].place.Completed? ==> !Active(t.reqs[id]))
      && forall i :: CellAt(t.cells, i) == CellAt(s.cells, i)
  {
    RunSnoc(harts, ls, Retire(id));
  }
}
