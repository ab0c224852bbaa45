/**
  The other half of `IoRouting`: a submission that finds an earlier id of its slot still awaited,
  or its result not yet stored, can always be continued to a point where a poll returns a result
  that was computed for the wrong id.  The continuation is built by driving the router.
*/
module IoCrossing {
  import opened Wrappers
  import opened IoRouter
  import opened IoRouting
  import Modular
  import RoundRobin

  // ---------------------------------------------------------------- continuations

  ghost function RunOn(s: State, ms: seq<Label>): State {
    if ms == [] then s else Apply(RunOn(s, ms[..|ms| - 1]), ms[|ms| - 1])
  }

  /** No further request is begun. */
  ghost predicate Quiet(ms: seq<Label>) { forall i :: 0 <= i < |ms| ==> !ms[i].Begin? }

  /** Some continuation without new requests leads from s to t. */
  ghost predicate CanReach(s: State, t: State) { exists ms :: Quiet(ms) && RunOn(s, ms) == t }

  lemma Stay(s: State)
    ensures CanReach(s, s)
  {
    assert Quiet([]) && RunOn(s, []) == s;
  }

  lemma OneMore(s: State, t: State, l: Label)
    requires CanReach(s, t) && !l.Begin?
    ensures CanReach(s, Apply(t, l))
  {
    var ms :| Quiet(ms) && RunOn(s, ms) == t;
    assert (ms + [l])[..|ms|] == ms;
    assert Quiet(ms + [l]) && RunOn(s, ms + [l]) == Apply(t, l);
  }

  lemma RunOnLast(s: State, all: seq<Label>, front: seq<Label>, l: Label)
    requires all != [] && all[..|all| - 1] == front && all[|all| - 1] == l
    ensures RunOn(s, all) == Apply(RunOn(s, front), l)
  {
  }

  lemma {:induction false} RunOnRun(harts: nat, ls: seq<Label>, ms: seq<Label>)
    ensures RunOn(Run(harts, ls), ms) == Run(harts, ls + ms)
  {
    if ms == [] {
      assert ls + ms == ls;
    } else {
      var front, l := ms[..|ms| - 1], ms[|ms| - 1];
      RunOnRun(harts, ls, front);
      JoinSlices(ls, ms);
      RunLast(harts, ls + ms, ls + front, l);
      RunOnLast(Run(harts, ls), ms, front, l);
    }
  }

  // ---------------------------------------------------------------- what driving leaves alone

  /** A request after some driving: at most its result has been computed, and then it is `out`. */
  predicate SameReq(r: Req, q: Req, out: IoResult) {
    && q.live == r.live && q.pc == r.pc && q.taken == r.taken
    && (q.computed == r.computed || (r.computed.None? && q.computed == Some(out)))
  }

  function Out(id: nat, t: nat, a: IoResult, b: IoResult): IoResult { if id == t then a else b }

  /** Requests and pollers after driving, with result a for request t and b for all others. */
  ghost predicate Driven(s: State, u: State, t: nat, a: IoResult, b: IoResult) {
    && u.pollers == s.pollers
    && forall id :: id in s.reqs ==> id in u.reqs && SameReq(s.reqs[id], u.reqs[id], Out(id, t, a, b))
  }

  lemma DrivenTwice(s: State, u: State, v: State, t: nat, a: IoResult, b: IoResult)
    requires Driven(s, u, t, a, b) && Driven(u, v, t, a, b)
    ensures Driven(s, v, t, a, b)
  {
  }

  lemma DrivenProbe(s: State, t: nat, a: IoResult, b: IoResult)
    requires |s.queues| > 0
    ensures Driven(s, ProbeAt(s), t, a, b)
  {
  }

  lemma DrivenFire(s: State, m: nat, t: nat, a: IoResult, b: IoResult)
    requires m in s.reqs
    ensures Driven(s, FireAt(s, m), t, a, b)
    ensures FireAt(s, m).reqs[m] == s.reqs[m].(fired := FireAt(s, m).reqs[m].fired)
  {
  }

  lemma DrivenAdvance(s: State, m: nat, t: nat, a: IoResult, b: IoResult)
    requires m in s.reqs && RecordOk(s.reqs[m])
    ensures Driven(s, AdvanceAt(s, m, Out(m, t, a, b)), t, a, b)
  {
  }

  lemma DrivenDispatch(s: State, m: nat, t: nat, a: IoResult, b: IoResult)
    requires m in s.reqs && RecordOk(s.reqs[m])
    ensures Driven(s, DispatchAt(s, m, Out(m, t, a, b)), t, a, b)
  {
    DrivenFire(s, m, t, a, b);
    DrivenAdvance(FireAt(s, m), m, t, a, b);
    DrivenTwice(s, FireAt(s, m), DispatchAt(s, m, Out(m, t, a, b)), t, a, b);
  }

  // ---------------------------------------------------------------- driving a queued request to the dispatcher

  /** The router is in order and the cursor is a 64-bit word that reaches every hart. */
  ghost predicate Ready(s: State) { BaseInv(s) && s.cursor < WORD && 0 < |s.queues| <= WORD }

  /** Cursor turns until the cursor itself equals h. */
  function Turns(c: nat, h: nat): nat
    requires c < WORD
  {
    if c <= h then h - c else WORD - c + h
  }

  /** Steps until the dispatcher is done with the request in its hands. */
  function Rank(p: Place): nat {
    match p
    case Fetched => 7
    case Storing => 6
    case Flagging => 5
    case Counting => 4
    case TakingCallback => 3
    case Invoking(_) => 2
    case _ => 0
  }

  function HandRank(s: State): nat {
    if s.handling.Some? && s.handling.value in s.reqs then Rank(s.reqs[s.handling.value].place) else 0
  }

  ghost predicate WaitsAt(s: State, t: nat, h: nat, p: nat) {
    h < |s.queues| && p < |s.queues[h]| && s.queues[h][p] == t
  }

  lemma RankFalls(s: State, m: nat, out: IoResult)
    requires s.handling == Some(m) && m in s.reqs && InHands(s.reqs[m].place)
    ensures HandRank(AdvanceAt(s, m, out)) < HandRank(s)
  {
  }

  lemma FireKeepsRank(s: State, m: nat)
    requires s.handling == Some(m) && m in s.reqs
    ensures HandRank(FireAt(s, m)) == HandRank(s) && FireAt(s, m).reqs[m].place == s.reqs[m].place
    ensures FireAt(s, m).handling == s.handling
  {
  }

  lemma DispatchKeeps(s: State, m: nat, out: IoResult)
    requires m in s.reqs
    ensures DispatchAt(s, m, out).queues == s.queues && DispatchAt(s, m, out).cursor == s.cursor
  {
  }

  lemma DispatchOther(s: State, m: nat, t: nat, h: nat, p: nat, out: IoResult)
    requires Ready(s) && s.handling == Some(m) && WaitsAt(s, t, h, p)
    ensures m in s.reqs && Apply(s, Dispatch(out)) == DispatchAt(s, m, out)
    ensures
      var u := DispatchAt(s, m, out);
      Ready(u) && WaitsAt(u, t, h, p) && u.cursor == s.cursor && HandRank(u) < HandRank(s)
  {
    BaseDispatch(s, out);
    DispatchKeeps(s, m, out);
    FireKeepsRank(s, m);
    RankFalls(FireAt(s, m), m, out);
  }

  lemma ProbeMoves(s: State, t: nat, h: nat, p: nat)
    requires Ready(s) && s.handling.None? && WaitsAt(s, t, h, p)
    ensures
      var u := ProbeAt(s);
      && Apply(s, Probe) == u && Ready(u)
      && (s.cursor % |s.queues| == h ==>
            if p == 0 then u.handling == Some(t) && t in u.reqs && u.reqs[t].place.Fetched? else WaitsAt(u, t, h, p - 1))
      && (s.cursor % |s.queues| != h ==> WaitsAt(u, t, h, p) && Turns(u.cursor, h) < Turns(s.cursor, h))
  {
    BaseProbe(s);
    assert Owned(s.reqs, h, s.queues[h]);
    if s.cursor == h {
      Modular.SmallMod(h, |s.queues|);
    }
  }

  lemma {:induction false} DriveFetched(s: State, t: nat, h: nat, p: nat, a: IoResult, b: IoResult) returns (u: State)
    requires Ready(s) && WaitsAt(s, t, h, p)
    ensures CanReach(s, u) && Ready(u) && Driven(s, u, t, a, b)
    ensures u.handling == Some(t) && t in u.reqs && u.reqs[t].place.Fetched?
    decreases p, Turns(s.cursor, h), HandRank(s)
  {
    var s1: State, l: Label;
    if s.handling.Some? {
      var m: nat := s.handling.value;
      var out := Out(m, t, a, b);
      DispatchOther(s, m, t, h, p, out);
      DrivenDispatch(s, m, t, a, b);
      s1, l := DispatchAt(s, m, out), Dispatch(out);
      u := DriveFetched(s1, t, h, p, a, b);
    } else {
      ProbeMoves(s, t, h, p);
      DrivenProbe(s, t, a, b);
      s1, l := ProbeAt(s), Probe;
      if s.cursor % |s.queues| != h {
        u := DriveFetched(s1, t, h, p, a, b);
      } else if p > 0 {
        u := DriveFetched(s1, t, h, p - 1, a, b);
      } else {
        u := s1;
        Stay(s1);
      }
    }
    DrivenTwice(s, s1, u, t, a, b);
    OneFirst(s, l, u);
  }

  lemma {:induction false} RunOnCons(s: State, l: Label, ms: seq<Label>)
    ensures RunOn(s, [l] + ms) == RunOn(Apply(s, l), ms)
    decreases |ms|
  {
    if ms == [] {
      assert [l] + ms == [l] && [l][..0] == [];
    } else {
      var front, m := ms[..|ms| - 1], ms[|ms| - 1];
      RunOnCons(s, l, front);
      JoinSlices([l], ms);
      RunOnLast(s, [l] + ms, [l] + front, m);
      RunOnLast(Apply(s, l), ms, front, m);
    }
  }

  lemma OneFirst(s: State, l: Label, t: State)
    requires CanReach(Apply(s, l), t) && !l.Begin?
    ensures CanReach(s, t)
  {
    var ms :| Quiet(ms) && RunOn(Apply(s, l), ms) == t;
    RunOnCons(s, l, ms);
    assert Quiet([l] + ms);
  }

  // ---------------------------------------------------------------- driving a request until its result is flagged

  predicate Unstored(p: Place) { p.Queued? || p.Fetched? || p.Storing? }

  /** The result of t has just been stored and flagged. */
  ghost predicate Flagged(u: State, t: nat) {
    && t in u.reqs && u.reqs[t].computed.Some?
    && CellAt(u.cells, t % PENDING).complete && CellAt(u.cells, t % PENDING).result == u.reqs[t].computed
  }

  lemma DispatchSelf(s: State, t: nat, out: IoResult)
    requires s.handling == Some(t) && t in s.reqs && InHands(s.reqs[t].place) && !s.reqs[t].place.Invoking?
    ensures
      var rc := DispatchStep(s.reqs[t], CellAt(s.cells, t % PENDING), out);
      var u := Apply(s, Dispatch(out));
      && u == DispatchAt(s, t, out) && t in u.reqs && u.reqs[t] == rc.0 && CellAt(u.cells, t % PENDING) == rc.1
      && u.handling == if rc.0.place.Completed? then None else Some(t)
  {
  }

  /** One more step of the dispatcher on its own request. */
  lemma StepSelf(s: State, t: nat, a: IoResult, b: IoResult) returns (u: State)
    requires Ready(s) && s.handling == Some(t) && t in s.reqs
    requires s.reqs[t].place.Fetched? || s.reqs[t].place.Storing? || s.reqs[t].place.Flagging?
    ensures CanReach(s, u) && Ready(u) && Driven(s, u, t, a, b) && u.handling == Some(t) && t in u.reqs
    ensures
      var rc := DispatchStep(s.reqs[t], CellAt(s.cells, t % PENDING), a);
      u.reqs[t] == rc.0 && CellAt(u.cells, t % PENDING) == rc.1
  {
    u := Apply(s, Dispatch(a));
    DispatchSelf(s, t, a);
    BaseDispatch(s, a);
    DispatchKeeps(s, t, a);
    DrivenDispatch(s, t, t, a, b);
    Stay(s);
    OneMore(s, s, Dispatch(a));
  }

  lemma {:induction false} RunOnJoin(s: State, xs: seq<Label>, ys: seq<Label>)
    ensures RunOn(s, xs + ys) == RunOn(RunOn(s, xs), ys)
    decreases |ys|
  {
    if ys == [] {
      assert xs + ys == xs;
    } else {
      var front, l := ys[..|ys| - 1], ys[|ys| - 1];
      RunOnJoin(s, xs, front);
      JoinSlices(xs, ys);
      RunOnLast(s, xs + ys, xs + front, l);
      RunOnLast(RunOn(s, xs), ys, front, l);
    }
  }

  lemma ReachTwice(s: State, t: State, u: State)
    requires CanReach(s, t) && CanReach(t, u)
    ensures CanReach(s, u)
  {
    var xs :| Quiet(xs) && RunOn(s, xs) == t;
    var ys :| Quiet(ys) && RunOn(t, ys) == u;
    RunOnJoin(s, xs, ys);
    assert Quiet(xs + ys);
  }

  /** Two legs of a drive. */
  lemma Onward(s: State, u: State, v: State, t: nat, a: IoResult, b: IoResult)
    requires CanReach(s, u) && CanReach(u, v) && Driven(s, u, t, a, b) && Driven(u, v, t, a, b)
    ensures CanReach(s, v) && Driven(s, v, t, a, b)
  {
    ReachTwice(s, u, v);
    DrivenTwice(s, u, v, t, a, b);
  }

  lemma DriveToHands(s: State, t: nat, a: IoResult, b: IoResult) returns (u: State)
    requires Ready(s) && t in s.reqs && Unstored(s.reqs[t].place)
    ensures CanReach(s, u) && Ready(u) && Driven(s, u, t, a, b) && t in u.reqs
    ensures u.handling == Some(t) && (u.reqs[t].place.Fetched? || u.reqs[t].place.Storing?)
  {
    if s.reqs[t].place.Queued? {
      var h := s.reqs[t].place.hart;
      var p :| 0 <= p < |s.queues[h]| && s.queues[h][p] == t;
      u := DriveFetched(s, t, h, p, a, b);
    } else {
      u := s;
      Stay(s);
    }
  }

  lemma DriveToStoring(s: State, t: nat, a: IoResult, b: IoResult) returns (u: State)
    requires Ready(s) && t in s.reqs && Unstored(s.reqs[t].place)
    ensures CanReach(s, u) && Ready(u) && Driven(s, u, t, a, b) && t in u.reqs
    ensures u.handling == Some(t) && u.reqs[t].place.Storing?
  {
    u := DriveToHands(s, t, a, b);
    if u.reqs[t].place.Fetched? {
      var v := StepSelf(u, t, a, b);
      Onward(s, u, v, t, a, b);
      u := v;
    }
  }

  lemma DriveFlagged(s: State, t: nat, a: IoResult, b: IoResult) returns (u: State)
    requires Ready(s) && t in s.reqs && Unstored(s.reqs[t].place)
    ensures CanReach(s, u) && Driven(s, u, t, a, b) && Flagged(u, t)
  {
    var v := DriveToStoring(s, t, a, b);
    assert RecordOk(v.reqs[t]);
    var w := StepSelf(v, t, a, b);
    Onward(s, v, w, t, a, b);
    u := StepSelf(w, t, a, b);
    Onward(s, w, u, t, a, b);
  }

  // ---------------------------------------------------------------- submitting and polling

  function StepsLeft(pc: Pc): nat {
    match pc
    case ResetFlag => 4
    case ResetResult => 3
    case Register => 2
    case Push => 1
    case _ => 0
  }

  /** Only request k has changed, and only by being submitted. */
  ghost predicate Submitting(s: State, u: State, k: nat) {
    && u.pollers == s.pollers && k in s.reqs && k in u.reqs
    && u.reqs[k].live == s.reqs[k].live && u.reqs[k].taken == s.reqs[k].taken && u.reqs[k].computed == s.reqs[k].computed
    && forall id :: id in s.reqs && id != k ==> id in u.reqs && u.reqs[id] == s.reqs[id]
  }

  lemma SubmitFrame(s: State, k: nat)
    requires k in s.reqs && !Sent(s.reqs[k])
    ensures
      var u := SubmitAt(s, k);
      && Submitting(s, u, k) && u.cursor == s.cursor && |u.queues| == |s.queues|
      && StepsLeft(u.reqs[k].pc) < StepsLeft(s.reqs[k].pc)
      && (Sent(u.reqs[k]) ==> u.reqs[k].place.Queued?)
  {
  }

  lemma SubmitOnce(s: State, k: nat)
    requires Ready(s) && k in s.reqs && !Sent(s.reqs[k])
    ensures
      var u := Apply(s, Submit(k));
      && Ready(u) && Submitting(s, u, k) && StepsLeft(u.reqs[k].pc) < StepsLeft(s.reqs[k].pc)
      && (Sent(u.reqs[k]) ==> u.reqs[k].place.Queued?)
  {
    BaseSubmit(s, k);
    SubmitFrame(s, k);
  }

  /** A request under submission can be brought into its queue. */
  lemma {:induction false} DriveSent(s: State, k: nat) returns (u: State)
    requires Ready(s) && k in s.reqs
    ensures CanReach(s, u) && Ready(u) && Submitting(s, u, k) && Sent(u.reqs[k])
    ensures if Sent(s.reqs[k]) then u == s else u.reqs[k].place.Queued?
    decreases StepsLeft(s.reqs[k].pc)
  {
    if Sent(s.reqs[k]) {
      u := s;
      Stay(s);
    } else {
      SubmitOnce(s, k);
      u := DriveSent(Apply(s, Submit(k)), k);
      OneFirst(s, Submit(k), u);
    }
  }

  lemma Above(xs: set<nat>) returns (a: nat)
    ensures forall x :: x in xs ==> x < a
  {
    if xs == {} {
      a := 0;
    } else {
      var x :| x in xs;
      var b := Above(xs - {x});
      a := if x < b then b else x + 1;
      assert forall y :: y in xs ==> y == x || y in xs - {x};
    }
  }

  /** A fresh poll of a live request returns whatever its slot holds. */
  lemma PollReturns(s: State, o: nat, v: IoResult) returns (u: State)
    requires o in s.reqs && s.reqs[o].live && Sent(s.reqs[o])
    requires CellAt(s.cells, o % PENDING).complete && CellAt(s.cells, o % PENDING).result == Some(v)
    ensures CanReach(s, u) && o in u.reqs && u.reqs[o] == s.reqs[o].(taken := s.reqs[o].taken + [v])
  {
    var a := Above(s.pollers.Keys);
    assert a !in s.pollers;
    var s1, s2 := PollLoads(s, o, a);
    u := Apply(s2, Poll(a));
    Stay(s);
    OneMore(s, s, StartPoll(a, o));
    OneMore(s, s1, Poll(a));
    OneMore(s, s2, Poll(a));
  }

  lemma PollLoads(s: State, o: nat, a: nat) returns (s1: State, s2: State)
    requires o in s.reqs && s.reqs[o].live && Sent(s.reqs[o]) && a !in s.pollers
    requires CellAt(s.cells, o % PENDING).complete
    ensures s1 == Apply(s, StartPoll(a, o)) && s2 == Apply(s1, Poll(a))
    ensures s2.reqs == s.reqs && CellAt(s2.cells, o % PENDING) == CellAt(s.cells, o % PENDING)
    ensures a in s2.pollers && s2.pollers[a] == Poller(o, LockTake)
  {
    s1 := Apply(s, StartPoll(a, o));
    s2 := Apply(s1, Poll(a));
    assert s1.pollers[a] == Poller(o, LoadFlag) && s1.reqs == s.reqs && s1.cells == s.cells;
  }

  // ---------------------------------------------------------------- crossing

  function Different(x: Option<IoResult>): (r: (IoResult, IoResult))
    ensures Some(r.0) != x && Some(r.1) != x && r.0 != r.1
  {
    var a, b, c := Err("a"), Err("b"), Err("c");
    if x == Some(a) then (b, c) else if x == Some(b) then (a, c) else (a, b)
  }

  /** Request t is stored while o of the same slot is polled: o returns what was computed for t. */
  lemma Crosses(s: State, t: nat, o: nat, x: Option<IoResult>) returns (u: State)
    requires Ready(s) && t in s.reqs && o in s.reqs && t != o && Congruent(t, o)
    requires Unstored(s.reqs[t].place) && s.reqs[o].live && Sent(s.reqs[o])
    requires x == if s.reqs[t].computed.Some? then s.reqs[t].computed else s.reqs[o].computed
    requires s.reqs[t].computed.Some? ==> s.reqs[o].computed.None?
    ensures CanReach(s, u) && o in u.reqs && !Routed(u.reqs[o])
  {
    var (a, b) := Different(x);
    var v := DriveFlagged(s, t, a, b);
    assert SameReq(s.reqs[t], v.reqs[t], a) && SameReq(s.reqs[o], v.reqs[o], b);
    u := PollReturns(v, o, v.reqs[t].computed.value);
    ReachTwice(s, v, u);
    var w := u.reqs[o].taken;
    assert w[|w| - 1] == v.reqs[t].computed.value;
  }

  lemma CrossAfterBegin(s: State, j: nat, k: nat) returns (u: State)
    requires Ready(s) && j in s.reqs && k in s.reqs && j != k && Congruent(j, k) && !Settled(s.reqs[j])
    requires s.reqs[k].live && s.reqs[k].computed.None? && !Sent(s.reqs[k])
    ensures CanReach(s, u) && exists o :: o in u.reqs && !Routed(u.reqs[o])
  {
    var v := DriveSent(s, k);
    assert RecordOk(v.reqs[j]);
    if Past(v.reqs[j].place) {
      u := Crosses(v, k, j, v.reqs[j].computed);
      ReachTwice(s, v, u);
    } else {
      var w := DriveSent(v, j);
      u := CrossEarly(w, j, k);
      ReachTwice(s, v, w);
      ReachTwice(s, w, u);
    }
  }

  lemma CrossEarly(s: State, j: nat, k: nat) returns (u: State)
    requires Ready(s) && j in s.reqs && k in s.reqs && j != k && Congruent(j, k)
    requires Sent(s.reqs[j]) && !Past(s.reqs[j].place)
    requires s.reqs[k].live && s.reqs[k].computed.None? && Sent(s.reqs[k])
    ensures CanReach(s, u) && k in u.reqs && !Routed(u.reqs[k])
  {
    assert RecordOk(s.reqs[j]);
    u := Crosses(s, j, k, s.reqs[j].computed);
  }

  ghost predicate AllRouted(s: State) { forall id :: id in s.reqs ==> Routed(s.reqs[id]) }

  lemma ReadyRun(harts: nat, ls: seq<Label>)
    requires 0 < harts <= WORD
    ensures Ready(Run(harts, ls))
  {
    BaseRun(harts, ls);
    RoundRobin.LogRun(harts, ls);
  }

  /**
    In any run whatever, a submission that finds a congruent id still awaited or its result not
    yet stored can be continued, without further submissions, to a poll that returns a result
    computed for the wrong id.
  */
  lemma UnroutableCrosses(harts: nat, ls: seq<Label>, l: Label) returns (ms: seq<Label>)
    requires harts <= WORD && l.Begin? && l.id !in Run(harts, ls).reqs && l.hart < harts
    requires !Routable(Run(harts, ls), l)
    ensures Quiet(ms) && !AllRouted(Run(harts, ls + [l] + ms))
  {
    ReadyRun(harts, ls + [l]);
    RoundRobin.LogRun(harts, ls);
    RunSnoc(harts, ls, l);
    var s := Run(harts, ls + [l]);
    var j :| j in Run(harts, ls).reqs && Congruent(j, l.id) && !Settled(Run(harts, ls).reqs[j]);
    var u := CrossAfterBegin(s, j, l.id);
    ms :| Quiet(ms) && RunOn(s, ms) == u;
    RunOnRun(harts, ls + [l], ms);
  }

  lemma {:induction false} QuietSpaced(harts: nat, ls: seq<Label>, ms: seq<Label>)
    requires Spaced(harts, ls) && Quiet(ms)
    ensures Spaced(harts, ls + ms)
  {
    if ms == [] {
      assert ls + ms == ls;
    } else {
      QuietSpaced(harts, ls, ms[..|ms| - 1]);
      JoinSlices(ls, ms);
    }
  }

  /**
    The exact condition: after a well-spaced run, beginning a new request keeps every result
    with its own id, whatever happens next, if and only if all earlier ids of its slot are
    retired and have their results stored.
  */
  lemma RoutingExact(harts: nat, ls: seq<Label>, l: Label)
    requires harts <= WORD && Spaced(harts, ls) && l.Begin? && l.id !in Run(harts, ls).reqs && l.hart < harts
    ensures Routable(Run(harts, ls), l) <==>
            forall ms :: Quiet(ms) ==> AllRouted(Run(harts, ls + [l] + ms))
  {
    if Routable(Run(harts, ls), l) {
      forall ms | Quiet(ms) ensures AllRouted(Run(harts, ls + [l] + ms)) {
        RoutableRouted(harts, ls, l, ms);
      }
    } else {
      var ms := UnroutableCrosses(harts, ls, l);
    }
  }

  lemma RoutableRouted(harts: nat, ls: seq<Label>, l: Label, ms: seq<Label>)
    requires Spaced(harts, ls) && Routable(Run(harts, ls), l) && Quiet(ms)
    ensures AllRouted(Run(harts, ls + [l] + ms))
  {
    assert (ls + [l])[..|ls|] == ls;
    QuietSpaced(harts, ls + [l], ms);
    var s := Run(harts, ls + [l] + ms);
    forall id | id in s.reqs ensures Routed(s.reqs[id]) {
      SpacedRouting(harts, ls + [l] + ms, id);
    }
  }

  /** The smallest case: on one hart, submitting request 65 while request 1 is being submitted. */
  lemma CongruentIdsCross() returns (ms: seq<Label>)
    ensures Quiet(ms) && !AllRouted(Run(1, [Begin(1, Plain, 0)] + [Begin(65, Plain, 0)] + ms))
  {
    var first := Begin(1, Plain, 0);
    RunSnoc(1, [], first);
    assert [] + [first] == [first];
    var s := Run(1, [first]);
    assert 1 in s.reqs && Congruent(1, 65) && !Settled(s.reqs[1]);
    ms := UnroutableCrosses(1, [first], Begin(65, Plain, 0));
  }
}
