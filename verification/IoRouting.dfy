/**
  When results reach the right request: what the router of `kernel/src/cpu/io_router.rs`
  guarantees in every run, and exactly which submissions keep results from crossing between ids
  that share a completion slot.
*/
module IoRouting {
  import opened Wrappers
  import opened IoRouter
  import Modular

  // ---------------------------------------------------------------- every run: where a result comes from

  /** The value was computed for some request of this slot. */
  ghost predicate ComputedFor(reqs: map<nat, Req>, i: nat, v: IoResult) {
    exists id :: id in reqs && id % PENDING == i && reqs[id].computed == Some(v)
  }

  ghost predicate SlotsCarry(reqs: map<nat, Req>, cells: map<nat, Cell>) {
    forall i :: i in cells && cells[i].result.Some? ==> ComputedFor(reqs, i, cells[i].result.value)
  }

  ghost predicate TakenCarry(reqs: map<nat, Req>) {
    forall id, v :: id in reqs && v in reqs[id].taken ==> ComputedFor(reqs, id % PENDING, v)
  }

  /** One request changes: what it computed stays, and only the slot's own result may be taken. */
  ghost predicate Carries(r: Req, c: Cell, q: Req, d: Cell) {
    && (r.computed.Some? ==> q.computed == r.computed)
    && (d.result.None? || d.result == c.result || d.result == q.computed)
    && (q.taken == r.taken || (c.result.Some? && q.taken == r.taken + [c.result.value]))
  }

  lemma ComputedKept(reqs: map<nat, Req>, id: nat, q: Req, i: nat, v: IoResult)
    requires ComputedFor(reqs, i, v) && (id in reqs && reqs[id].computed.Some? ==> q.computed == reqs[id].computed)
    ensures ComputedFor(reqs[id := q], i, v)
  {
    var k :| k in reqs && k % PENDING == i && reqs[k].computed == Some(v);
    assert k in reqs[id := q] && reqs[id := q][k].computed == Some(v);
  }

  lemma InstallCarry(reqs: map<nat, Req>, cells: map<nat, Cell>, id: nat, q: Req, d: Cell)
    requires SlotsCarry(reqs, cells) && TakenCarry(reqs) && id in reqs
    requires Carries(reqs[id], CellAt(cells, id % PENDING), q, d)
    ensures SlotsCarry(reqs[id := q], cells[id % PENDING := d]) && TakenCarry(reqs[id := q])
  {
    var reqs', cells' := reqs[id := q], cells[id % PENDING := d];
    forall i | i in cells' && cells'[i].result.Some? ensures ComputedFor(reqs', i, cells'[i].result.value) {
      var v := cells'[i].result.value;
      if i == id % PENDING && q.computed == Some(v) {
        assert id in reqs' && reqs'[id].computed == Some(v);
      } else {
        ComputedKept(reqs, id, q, i, v);
      }
    }
    forall k, v | k in reqs' && v in reqs'[k].taken ensures ComputedFor(reqs', k % PENDING, v) {
      assert ComputedFor(reqs, k % PENDING, v);
      ComputedKept(reqs, id, q, k % PENDING, v);
    }
  }

  lemma FireCarry(s: State, id: nat)
    requires SlotsCarry(s.reqs, s.cells) && TakenCarry(s.reqs) && id in s.reqs
    ensures SlotsCarry(FireAt(s, id).reqs, s.cells) && TakenCarry(FireAt(s, id).reqs)
  {
    var r := s.reqs[id];
    if r.place.Invoking? && r.computed.Some? && r.place.token in s.reqs {
      var token: nat := r.place.token;
      var q := s.reqs[token].(fired := s.reqs[token].fired + [Call(id, r.computed.value)]);
      forall i, v | ComputedFor(s.reqs, i, v) ensures ComputedFor(s.reqs[token := q], i, v) {
        ComputedKept(s.reqs, token, q, i, v);
      }
    }
  }

  lemma CarryStep(s: State, l: Label)
    requires SlotsCarry(s.reqs, s.cells) && TakenCarry(s.reqs) && BaseInv(s)
    ensures var t := Apply(s, l); SlotsCarry(t.reqs, t.cells) && TakenCarry(t.reqs)
  {
    match l
    case Begin(id, kind, hart) =>
      if id !in s.reqs && hart < |s.queues| {
        var q := Req(kind, hart, ResetFlag, Unsent, true, None, [], []);
        forall i, v | ComputedFor(s.reqs, i, v) ensures ComputedFor(s.reqs[id := q], i, v) {
          ComputedKept(s.reqs, id, q, i, v);
        }
      }
    case Submit(id) =>
      if id in s.reqs && !s.reqs[id].pc.Returned? {
        var (q, d) := SubmitStep(id, s.reqs[id], CellAt(s.cells, id % PENDING));
        InstallCarry(s.reqs, s.cells, id, q, d);
      }
    case Probe => if s.handling.None? && |s.queues| > 0 { ProbeCarry(s); }
    case Dispatch(out) =>
      if s.handling.Some? && s.handling.value in s.reqs { DispatchCarry(s, s.handling.value, out); }
    case StartPoll(a, id) =>
    case Poll(a) =>
      if a in s.pollers && s.pollers[a].id in s.reqs {
        var id: nat := s.pollers[a].id;
        var (q, d, _) := PollStep(s.reqs[id], CellAt(s.cells, id % PENDING), s.pollers[a].pc);
        InstallCarry(s.reqs, s.cells, id, q, d);
      }
    case Retire(id) =>
      if id in s.reqs && s.reqs[id].pc.Returned? && !Polled(s.pollers, id) {
        InstallCarry(s.reqs, s.cells, id, s.reqs[id].(live := false), CellAt(s.cells, id % PENDING));
      }
  }

  lemma ProbeCarry(s: State)
    requires SlotsCarry(s.reqs, s.cells) && TakenCarry(s.reqs) && |s.queues| > 0
    ensures var t := ProbeAt(s); SlotsCarry(t.reqs, t.cells) && TakenCarry(t.reqs)
  {
    var h := s.cursor % |s.queues|;
    if s.queues[h] != [] && s.queues[h][0] in s.reqs {
      var id: nat := s.queues[h][0];
      InstallCarry(s.reqs, s.cells, id, s.reqs[id].(place := Fetched), CellAt(s.cells, id % PENDING));
    }
  }

  lemma DispatchCarry(s: State, id: nat, out: IoResult)
    requires SlotsCarry(s.reqs, s.cells) && TakenCarry(s.reqs) && BaseInv(s) && id in s.reqs
    ensures var t := DispatchAt(s, id, out); SlotsCarry(t.reqs, t.cells) && TakenCarry(t.reqs)
  {
    FireCarry(s, id);
    BaseFire(s, id);
    AdvanceCarry(FireAt(s, id), id, out);
  }

  lemma AdvanceCarry(s: State, id: nat, out: IoResult)
    requires SlotsCarry(s.reqs, s.cells) && TakenCarry(s.reqs) && id in s.reqs && RecordOk(s.reqs[id])
    ensures var t := AdvanceAt(s, id, out); SlotsCarry(t.reqs, t.cells) && TakenCarry(t.reqs)
  {
    var (q, d) := DispatchStep(s.reqs[id], CellAt(s.cells, id % PENDING), out);
    InstallCarry(s.reqs, s.cells, id, q, d);
  }

  lemma {:induction false} CarryRun(harts: nat, ls: seq<Label>)
    ensures var s := Run(harts, ls); SlotsCarry(s.reqs, s.cells) && TakenCarry(s.reqs)
  {
    if ls != [] {
      CarryRun(harts, ls[..|ls| - 1]);
      BaseRun(harts, ls[..|ls| - 1]);
      CarryStep(Run(harts, ls[..|ls| - 1]), ls[|ls| - 1]);
    }
  }

  /** In every run, disciplined or not, whatever a poll returns was computed for some id of the same slot. */
  lemma TakenWasComputed(harts: nat, ls: seq<Label>, id: nat, v: IoResult)
    requires id in Run(harts, ls).reqs && v in Run(harts, ls).reqs[id].taken
    ensures ComputedFor(Run(harts, ls).reqs, id % PENDING, v)
  {
    CarryRun(harts, ls);
  }

  // ---------------------------------------------------------------- enough: earlier ids retired and stored

  /** The result is already in the slot. */
  predicate Past(p: Place) { p.Flagging? || Stored(p) }

  /** Nobody awaits the request and it will not touch the slot's result any more. */
  predicate Settled(r: Req) { !r.live && Past(r.place) }

  ghost predicate Routable(s: State, l: Label) {
    l.Begin? ==> forall j :: j in s.reqs && Congruent(j, l.id) ==> Settled(s.reqs[j])
  }

  ghost predicate Spaced(harts: nat, ls: seq<Label>) {
    ls == [] || (Spaced(harts, ls[..|ls| - 1]) && Routable(Run(harts, ls[..|ls| - 1]), ls[|ls| - 1]))
  }

  /** Ids are handed out in increasing order, and of the requests more than 63 ids back none is pending. */
  ghost predicate InWindow(s: State, l: Label) {
    l.Begin? ==> forall j :: j in s.reqs ==> j < l.id && (j + 64 <= l.id ==> Settled(s.reqs[j]))
  }

  ghost predicate Windowed(harts: nat, ls: seq<Label>) {
    ls == [] || (Windowed(harts, ls[..|ls| - 1]) && InWindow(Run(harts, ls[..|ls| - 1]), ls[|ls| - 1]))
  }

  lemma WindowRoutable(s: State, l: Label)
    requires InWindow(s, l)
    ensures Routable(s, l)
  {
    if l.Begin? {
      forall j | j in s.reqs && Congruent(j, l.id) ensures Settled(s.reqs[j]) {
        if l.id - j < PENDING {
          Modular.NearbyDiffer(j, 0, l.id - j, PENDING);
        }
      }
    }
  }

  /** With ids handed out in order, results stay with their ids as long as at most 64 requests are pending. */
  lemma {:induction false} WindowSpaced(harts: nat, ls: seq<Label>)
    requires Windowed(harts, ls)
    ensures Spaced(harts, ls)
  {
    if ls != [] {
      WindowSpaced(harts, ls[..|ls| - 1]);
      WindowRoutable(Run(harts, ls[..|ls| - 1]), ls[|ls| - 1]);
    }
  }

  /** The submission discipline of IoRouter is a special case. */
  lemma {:induction false} DisciplinedSpaced(harts: nat, ls: seq<Label>)
    requires Disciplined(harts, ls)
    ensures Spaced(harts, ls)
  {
    if ls != [] {
      DisciplinedSpaced(harts, ls[..|ls| - 1]);
    }
  }

  /** Polls of the request returned nothing but its own result, once. */
  predicate Routed(r: Req) { r.taken == [] || (r.computed.Some? && r.taken == [r.computed.value]) }

  predicate TakeOk(r: Req) { Routed(r) && (r.taken != [] ==> Past(r.place)) }

  /** What the slot holds for the one request that is not settled. */
  predicate ResultOk(r: Req, c: Cell) {
    r.pc.ResetFlag? || r.pc.ResetResult? ||
    (if Past(r.place) && r.taken == [] then c.result == r.computed else c.result.None?)
  }

  predicate Ok2(r: Req, c: Cell) { TakeOk(r) && (!Settled(r) ==> ResultOk(r, c)) }

  ghost predicate Results(reqs: map<nat, Req>, cells: map<nat, Cell>) {
    forall id :: id in reqs ==> Ok2(reqs[id], CellAt(cells, id % PENDING))
  }

  ghost predicate OneUnsettled(reqs: map<nat, Req>) {
    forall j, k :: j in reqs && k in reqs && j != k && Congruent(j, k) ==> Settled(reqs[j]) || Settled(reqs[k])
  }

  ghost predicate PollersLive(reqs: map<nat, Req>, pollers: map<nat, Poller>) {
    forall a :: a in pollers ==> pollers[a].id in reqs && reqs[pollers[a].id].live && Sent(reqs[pollers[a].id])
  }

  ghost predicate RouteInv(s: State) {
    Results(s.reqs, s.cells) && OneUnsettled(s.reqs) && PollersLive(s.reqs, s.pollers)
  }

  /** A step on one request; a settled one leaves the slot's result alone. */
  lemma InstallRoute(reqs: map<nat, Req>, cells: map<nat, Cell>, id: nat, q: Req, d: Cell)
    requires Results(reqs, cells) && OneUnsettled(reqs) && id in reqs && Ok2(q, d)
    requires Settled(reqs[id]) ==> Settled(q) && d.result == CellAt(cells, id % PENDING).result
    ensures Results(reqs[id := q], cells[id % PENDING := d]) && OneUnsettled(reqs[id := q])
  {
    forall k | k in reqs && k != id ensures Ok2(reqs[k], CellAt(cells[id % PENDING := d], k % PENDING)) {
      assert Ok2(reqs[k], CellAt(cells, k % PENDING));
      assert Congruent(id, k) ==> Settled(reqs[id]) || Settled(reqs[k]);
    }
  }

  lemma SubmitRoute(id: nat, r: Req, c: Cell)
    requires RecordOk(r) && Ok2(r, c) && !r.pc.Returned?
    ensures var (q, d) := SubmitStep(id, r, c); Ok2(q, d) && q.live
    ensures !Settled(r) && (Sent(r) ==> Sent(SubmitStep(id, r, c).0))
  {
  }

  lemma DispatchRoute(r: Req, c: Cell, out: IoResult)
    requires RecordOk(r) && Ok2(r, c) && InHands(r.place)
    ensures
      var (q, d) := DispatchStep(r, c, out);
      Ok2(q, d) && q.live == r.live && q.pc == r.pc && (Settled(r) ==> Settled(q) && d.result == c.result)
  {
  }

  lemma PollRoute(r: Req, c: Cell, pc: PollPc)
    requires RecordOk(r) && Ok2(r, c) && r.live && Sent(r)
    ensures var (q, d, _) := PollStep(r, c, pc); Ok2(q, d) && q.live && q.pc == r.pc
  {
  }

  lemma RouteBegin(s: State, l: Label)
    requires RouteInv(s) && l.Begin? && Routable(s, l)
    ensures RouteInv(Apply(s, l))
  {
  }

  lemma RouteSubmit(s: State, id: nat)
    requires RouteInv(s) && Records(s.reqs) && id in s.reqs && !s.reqs[id].pc.Returned?
    ensures RouteInv(SubmitAt(s, id))
  {
    var r, c := s.reqs[id], CellAt(s.cells, id % PENDING);
    assert Ok2(r, c);
    SubmitRoute(id, r, c);
    InstallRoute(s.reqs, s.cells, id, SubmitStep(id, r, c).0, SubmitStep(id, r, c).1);
  }

  lemma RouteProbe(s: State)
    requires RouteInv(s) && PlaceInv(s.reqs, s.queues, s.handling) && |s.queues| > 0
    ensures RouteInv(ProbeAt(s))
  {
    var h := s.cursor % |s.queues|;
    if s.queues[h] != [] {
      var id: nat := s.queues[h][0];
      assert Owned(s.reqs, h, s.queues[h]);
      var r, c := s.reqs[id], CellAt(s.cells, id % PENDING);
      assert Ok2(r, c);
      InstallRoute(s.reqs, s.cells, id, r.(place := Fetched), c);
    }
  }

  lemma RouteFire(s: State, id: nat)
    requires RouteInv(s) && id in s.reqs
    ensures RouteInv(FireAt(s, id))
  {
    var r := s.reqs[id];
    if r.place.Invoking? && r.computed.Some? && r.place.token in s.reqs {
      var token: nat := r.place.token;
      assert Ok2(s.reqs[token], CellAt(s.cells, token % PENDING));
    }
  }

  lemma RouteAdvance(s: State, id: nat, out: IoResult)
    requires RouteInv(s) && Records(s.reqs) && id in s.reqs && InHands(s.reqs[id].place)
    ensures RouteInv(AdvanceAt(s, id, out))
  {
    var r, c := s.reqs[id], CellAt(s.cells, id % PENDING);
    assert Ok2(r, c);
    DispatchRoute(r, c, out);
    InstallRoute(s.reqs, s.cells, id, DispatchStep(r, c, out).0, DispatchStep(r, c, out).1);
  }

  lemma RouteDispatch(s: State, id: nat, out: IoResult)
    requires RouteInv(s) && BaseInv(s) && s.handling == Some(id) && id in s.reqs
    ensures RouteInv(DispatchAt(s, id, out))
  {
    RouteFire(s, id);
    BaseFire(s, id);
    RouteAdvance(FireAt(s, id), id, out);
  }

  lemma RoutePoll(s: State, a: nat)
    requires RouteInv(s) && Records(s.reqs) && a in s.pollers
    ensures s.pollers[a].id in s.reqs && RouteInv(PollAt(s, a))
  {
    var id: nat := s.pollers[a].id;
    var r, c := s.reqs[id], CellAt(s.cells, id % PENDING);
    assert Ok2(r, c);
    PollRoute(r, c, s.pollers[a].pc);
    InstallRoute(s.reqs, s.cells, id, PollStep(r, c, s.pollers[a].pc).0, PollStep(r, c, s.pollers[a].pc).1);
  }

  lemma RouteRetire(s: State, id: nat)
    requires RouteInv(s) && id in s.reqs && s.reqs[id].pc.Returned? && !Polled(s.pollers, id)
    ensures RouteInv(Apply(s, Retire(id)))
  {
    var r, c := s.reqs[id], CellAt(s.cells, id % PENDING);
    assert Ok2(r, c);
    InstallRoute(s.reqs, s.cells, id, r.(live := false), c);
  }

  lemma RouteStep(s: State, l: Label)
    requires RouteInv(s) && BaseInv(s) && Routable(s, l)
    ensures RouteInv(Apply(s, l))
  {
    match l
    case Begin(_, _, _) => RouteBegin(s, l);
    case Submit(id) => if id in s.reqs && !s.reqs[id].pc.Returned? { RouteSubmit(s, id); }
    case Probe => if s.handling.None? && |s.queues| > 0 { RouteProbe(s); }
    case Dispatch(out) =>
      if s.handling.Some? && s.handling.value in s.reqs { RouteDispatch(s, s.handling.value, out); }
    case StartPoll(a, id) =>
    case Poll(a) => if a in s.pollers && s.pollers[a].id in s.reqs { RoutePoll(s, a); }
    case Retire(id) =>
      if id in s.reqs && s.reqs[id].pc.Returned? && !Polled(s.pollers, id) { RouteRetire(s, id); }
  }

  lemma {:induction false} RouteRun(harts: nat, ls: seq<Label>)
    requires Spaced(harts, ls)
    ensures RouteInv(Run(harts, ls))
  {
    if ls != [] {
      RouteRun(harts, ls[..|ls| - 1]);
      BaseRun(harts, ls[..|ls| - 1]);
      RouteStep(Run(harts, ls[..|ls| - 1]), ls[|ls| - 1]);
    }
  }

  /**
    If each submission finds every earlier id of its slot retired and its result stored, then
    whatever a poll returned was computed for the polled id, and it was returned once.
  */
  lemma SpacedRouting(harts: nat, ls: seq<Label>, id: nat)
    requires Spaced(harts, ls) && id in Run(harts, ls).reqs
    ensures Routed(Run(harts, ls).reqs[id])
  {
    RouteRun(harts, ls);
    var s := Run(harts, ls);
    assert Ok2(s.reqs[id], CellAt(s.cells, id % PENDING));
  }
}
