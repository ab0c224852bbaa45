/**
  The I/O router of `kernel/src/cpu/io_router.rs` as interleaved steps: any number of harts
  submit requests and poll for results, hart 0 fetches, handles and completes them.  Every
  atomic access (flag, locked slot, callback table, locked queue, counter, cursor) is one step.

  Completion slots and callbacks are indexed by request id modulo 64 and nothing in the code
  keeps two congruent ids apart, so the main results are about the runs that obey `Disciplined`:
  a request is submitted only when every earlier congruent one is completed and no longer awaited.
*/
module IoRouter {
  import opened Wrappers

  const PENDING: nat := 64
  const WORD: nat := 0x1_0000_0000_0000_0000

  datatype IoResult = Ok(data: seq<bv8>) | Err(message: string)

  /** How a request was submitted; request_io and request_io_async take the same steps. */
  datatype Kind = Plain | WithCallback

  /** The submitting hart's next step. */
  datatype Pc = ResetFlag | ResetResult | Register | Push | Count | Returned

  /** Where the request is; from Fetched to Invoking it is in the hands of the dispatcher. */
  datatype Place =
    | Unsent
    | Queued(hart: nat)
    | Fetched
    | Storing
    | Flagging
    | Counting
    | TakingCallback
    | Invoking(token: nat)
    | Completed

  datatype Call = Call(id: nat, result: IoResult)

  /**
    One request.  `live`: somebody still awaits it.  `computed` is what handle_request returned
    for it, `taken` the results that polls of this id returned, and `fired` the invocations of
    the callback that was registered with it; the last three only record what happened.
  */
  datatype Req = Req(
    kind: Kind,
    hart: nat,
    pc: Pc,
    place: Place,
    live: bool,
    computed: Option<IoResult>,
    taken: seq<IoResult>,
    fired: seq<Call>)

  /** Completion slot and callback entry of one residue modulo 64; a callback is named by its request. */
  datatype Cell = Cell(complete: bool, result: Option<IoResult>, callback: Option<nat>)

  datatype PollPc = LoadFlag | LockTake | ClearFlag

  datatype Poller = Poller(id: nat, pc: PollPc)

  /**
    `pushed` and `served` record, hart by hart, what entered and what left its queue; `probes`
    counts the cursor without wrap-around, `dequeued` the probes that found a request, and
    `uncounted` the requests pushed but not yet added to the submission statistics.
  */
  datatype State = State(
    reqs: map<nat, Req>,
    cells: map<nat, Cell>,
    queues: seq<seq<nat>>,
    handling: Option<nat>,
    pollers: map<nat, Poller>,
    cursor: nat,
    probes: nat,
    dequeued: nat,
    submitted: nat,
    completed: nat,
    uncounted: set<nat>,
    pushed: seq<seq<nat>>,
    served: seq<seq<nat>>)

  datatype Label =
    | Begin(id: nat, kind: Kind, hart: nat)
    | Submit(id: nat)
    | Probe
    | Dispatch(out: IoResult)
    | StartPoll(agent: nat, id: nat)
    | Poll(agent: nat)
    | Retire(id: nat)

  // ---------------------------------------------------------------- steps on one request and its cell

  function SubmitStep(id: nat, r: Req, c: Cell): (Req, Cell) {
    match r.pc
    case ResetFlag => (r.(pc := ResetResult), c.(complete := false))
    case ResetResult => (r.(pc := if r.kind.WithCallback? then Register else Push), c.(result := None))
    case Register => (r.(pc := Push), c.(callback := Some(id)))
    case Push => (r.(pc := Count, place := Queued(r.hart)), c)
    case Count => (r.(pc := Returned), c)
    case Returned => (r, c)
  }

  /** handle_request followed by the steps of complete_request; invoking the callback is `Fire`. */
  function DispatchStep(r: Req, c: Cell, out: IoResult): (Req, Cell) {
    match r.place
    case Fetched => (r.(computed := Some(out), place := Storing), c)
    case Storing => (r.(place := Flagging), c.(result := r.computed))
    case Flagging => (r.(place := Counting), c.(complete := true))
    case Counting => (r.(place := TakingCallback), c)
    case TakingCallback =>
      if c.callback.Some? then (r.(place := Invoking(c.callback.value)), c.(callback := None))
      else (r.(place := Completed), c)
    case Invoking(_) => (r.(place := Completed), c)
    case _ => (r, c)
  }

  function PollStep(r: Req, c: Cell, pc: PollPc): (Req, Cell, Option<PollPc>) {
    match pc
    case LoadFlag => (r, c, if c.complete then Some(LockTake) else None)
    case LockTake =>
      if c.result.Some? then (r.(taken := r.taken + [c.result.value]), c.(result := None), Some(ClearFlag))
      else (r, c, None)
    case ClearFlag => (r, c.(complete := false), None)
  }

  // ---------------------------------------------------------------- the whole router

  function NoRequests(harts: nat): seq<seq<nat>> { seq(harts, h => []) }

  function Init(harts: nat): State {
    State(map[], map[], NoRequests(harts), None, map[], 0, 0, 0, 0, 0, {},
      NoRequests(harts), NoRequests(harts))
  }

  function CellAt(cells: map<nat, Cell>, i: nat): Cell {
    if i in cells then cells[i] else Cell(false, None, None)
  }

  function Install(s: State, id: nat, rc: (Req, Cell)): State {
    s.(reqs := s.reqs[id := rc.0], cells := s.cells[id % PENDING := rc.1])
  }

  function Append(qs: seq<seq<nat>>, h: nat, id: nat): seq<seq<nat>> {
    if h < |qs| then qs[h := qs[h] + [id]] else qs
  }

  function SubmitAt(s: State, id: nat): State
    requires id in s.reqs
  {
    var r := s.reqs[id];
    var t := Install(s, id, SubmitStep(id, r, CellAt(s.cells, id % PENDING)));
    if r.pc.Push? && r.hart < |s.queues| then
      t.(queues := Append(s.queues, r.hart, id), pushed := Append(s.pushed, r.hart, id),
         uncounted := s.uncounted + {id})
    else if r.pc.Count? then
      t.(submitted := s.submitted + 1, uncounted := s.uncounted - {id})
    else t
  }

  /** One turn of the round-robin loop: advance the cursor, pop that hart's queue if it has a request. */
  function ProbeAt(s: State): State
    requires |s.queues| > 0
  {
    var h := s.cursor % |s.queues|;
    var t := s.(cursor := (s.cursor + 1) % WORD, probes := s.probes + 1);
    if s.queues[h] == [] then t
    else
      var id := s.queues[h][0];
      var u := t.(queues := s.queues[h := s.queues[h][1..]], served := Append(s.served, h, id),
                  handling := Some(id), dequeued := s.dequeued + 1);
      if id in s.reqs
      then Install(u, id, (s.reqs[id].(place := Fetched), CellAt(s.cells, id % PENDING)))
      else u
  }

  function Fire(reqs: map<nat, Req>, token: nat, call: Call): map<nat, Req> {
    if token in reqs then reqs[token := reqs[token].(fired := reqs[token].fired + [call])] else reqs
  }

  /** The callback, if the dispatcher is about to invoke one, runs with the id and result in hand. */
  function FireAt(s: State, id: nat): (t: State)
    requires id in s.reqs
    ensures id in t.reqs
  {
    var r := s.reqs[id];
    if r.place.Invoking? && r.computed.Some?
    then s.(reqs := Fire(s.reqs, r.place.token, Call(id, r.computed.value)))
    else s
  }

  function AdvanceAt(s: State, id: nat, out: IoResult): State
    requires id in s.reqs
  {
    var r := s.reqs[id];
    var rc := DispatchStep(r, CellAt(s.cells, id % PENDING), out);
    Install(s, id, rc).(
      handling := if rc.0.place.Completed? then None else Some(id),
      completed := s.completed + if r.place.Counting? then 1 else 0)
  }

  function DispatchAt(s: State, id: nat, out: IoResult): State
    requires id in s.reqs
  {
    AdvanceAt(FireAt(s, id), id, out)
  }

  function PollAt(s: State, a: nat): State
    requires a in s.pollers && s.pollers[a].id in s.reqs
  {
    var p := s.pollers[a];
    var (r, c, next) := PollStep(s.reqs[p.id], CellAt(s.cells, p.id % PENDING), p.pc);
    Install(s, p.id, (r, c)).(
      pollers := if next.Some? then s.pollers[a := Poller(p.id, next.value)] else s.pollers - {a})
  }

  predicate Sent(r: Req) { r.pc.Count? || r.pc.Returned? }

  predicate Polled(pollers: map<nat, Poller>, id: nat) { exists a :: a in pollers && pollers[a].id == id }

  ghost function Apply(s: State, l: Label): State {
    match l
    case Begin(id, kind, hart) =>
      if id !in s.reqs && hart < |s.queues|
      then s.(reqs := s.reqs[id := Req(kind, hart, ResetFlag, Unsent, true, None, [], [])])
      else s
    case Submit(id) => if id in s.reqs && !s.reqs[id].pc.Returned? then SubmitAt(s, id) else s
    case Probe => if s.handling.None? && |s.queues| > 0 then ProbeAt(s) else s
    case Dispatch(out) => if s.handling.Some? && s.handling.value in s.reqs then DispatchAt(s, s.handling.value, out) else s
    case StartPoll(a, id) =>
      if a !in s.pollers && id in s.reqs && Sent(s.reqs[id]) && s.reqs[id].live
      then s.(pollers := s.pollers[a := Poller(id, LoadFlag)])
      else s
    case Poll(a) => if a in s.pollers && s.pollers[a].id in s.reqs then PollAt(s, a) else s
    case Retire(id) =>
      if id in s.reqs && s.reqs[id].pc.Returned? && !Polled(s.pollers, id)
      then Install(s, id, (s.reqs[id].(live := false), CellAt(s.cells, id % PENDING)))
      else s
  }

  ghost function Run(harts: nat, ls: seq<Label>): State {
    if ls == [] then Init(harts) else Apply(Run(harts, ls[..|ls| - 1]), ls[|ls| - 1])
  }

  /** Still queued, being completed, being submitted, or awaited. */
  predicate Active(r: Req) { r.live || !r.place.Completed? }

  /** The submission discipline for one step. */
  ghost predicate Allowed(s: State, l: Label) {
    l.Begin? ==> forall j :: j in s.reqs && j % PENDING == l.id % PENDING ==> !Active(s.reqs[j])
  }

  ghost predicate Disciplined(harts: nat, ls: seq<Label>) {
    ls == [] || (Disciplined(harts, ls[..|ls| - 1]) && Allowed(Run(harts, ls[..|ls| - 1]), ls[|ls| - 1]))
  }

  lemma JoinSlices(xs: seq<Label>, ys: seq<Label>)
    requires ys != []
    ensures
      var all := xs + ys;
      all != [] && all[..|all| - 1] == xs + ys[..|ys| - 1] && all[|all| - 1] == ys[|ys| - 1]
  {
  }

  lemma RunLast(harts: nat, all: seq<Label>, front: seq<Label>, l: Label)
    requires all != [] && all[..|all| - 1] == front && all[|all| - 1] == l
    ensures Run(harts, all) == Apply(Run(harts, front), l)
  {
  }

  lemma RunSnoc(harts: nat, ls: seq<Label>, l: Label)
    ensures Run(harts, ls + [l]) == Apply(Run(harts, ls), l)
  {
    assert (ls + [l])[..|ls|] == ls;
  }

  // ---------------------------------------------------------------- the slot protocol of one request

  predicate InHands(p: Place) { !p.Unsent? && !p.Queued? && !p.Completed? }

  predicate Handled(p: Place) { (InHands(p) && !p.Fetched?) || p.Completed? }

  predicate Stored(p: Place) { p.Counting? || p.TakingCallback? || p.Invoking? || p.Completed? }

  /** What the records of a request say at each stage. */
  ghost predicate HistOk(id: nat, r: Req) {
    && (Sent(r) <==> !r.place.Unsent?)
    && (!r.live ==> r.pc.Returned?)
    && (r.pc.Register? ==> r.kind.WithCallback?)
    && (r.computed.Some? <==> Handled(r.place))
    && (r.taken == [] || (Stored(r.place) && r.computed.Some? && r.taken == [r.computed.value]))
    && (r.place.Invoking? ==> r.kind.WithCallback? && r.place.token == id)
    && (r.place.Completed? && r.kind.WithCallback? && r.computed.Some? ==> r.fired == [Call(id, r.computed.value)])
    && (!r.place.Completed? || r.kind.Plain? ==> r.fired == [])
  }

  predicate Clean(c: Cell) { !c.complete && c.result.None? }

  predicate Awaiting(id: nat, r: Req, c: Cell) {
    c.callback == if r.kind.WithCallback? then Some(id) else None
  }

  /** The result waits in the slot, flagged, until it is taken. */
  predicate Available(r: Req, c: Cell) {
    if r.taken == [] then c.complete && c.result == r.computed else c.result.None?
  }

  /** What the cell holds while the request is active. */
  predicate SlotOk(id: nat, r: Req, c: Cell) {
    match r.pc
    case ResetFlag => c.callback.None?
    case ResetResult => c.callback.None? && !c.complete
    case Register => c.callback.None? && Clean(c)
    case Push => Clean(c) && Awaiting(id, r, c)
    case _ =>
      match r.place
      case Flagging => !c.complete && c.result == r.computed && Awaiting(id, r, c)
      case Counting => Available(r, c) && Awaiting(id, r, c)
      case TakingCallback => Available(r, c) && Awaiting(id, r, c)
      case Invoking(_) => Available(r, c) && c.callback.None?
      case Completed => Available(r, c) && c.callback.None?
      case _ => Clean(c) && Awaiting(id, r, c)
  }

  ghost predicate Ok1(id: nat, r: Req, c: Cell) { HistOk(id, r) && (Active(r) ==> SlotOk(id, r, c)) }

  predicate PollerOk(r: Req, pc: PollPc) {
    && r.live && Sent(r)
    && (pc.LockTake? ==> Stored(r.place))
    && (pc.ClearFlag? ==> Stored(r.place) && r.taken != [])
  }

  /** What other harts' steps on the same request cannot take away from a poller. */
  predicate Stable(r: Req, q: Req) {
    && q.live == r.live
    && (Sent(r) ==> Sent(q))
    && (Stored(r.place) ==> Stored(q.place))
    && (r.taken != [] ==> q.taken != [])
  }

  lemma SubmitOk(id: nat, r: Req, c: Cell)
    requires HistOk(id, r) && SlotOk(id, r, c) && Active(r)
    ensures var (q, d) := SubmitStep(id, r, c); HistOk(id, q) && SlotOk(id, q, d) && Active(q) && Stable(r, q)
  {
  }

  lemma DispatchOk(id: nat, r: Req, c: Cell, out: IoResult)
    requires HistOk(id, r) && SlotOk(id, r, c) && InHands(r.place) && !r.place.Invoking?
    ensures var (q, d) := DispatchStep(r, c, out); HistOk(id, q) && SlotOk(id, q, d) && Stable(r, q)
  {
  }

  lemma InvokeOk(id: nat, r: Req, c: Cell, out: IoResult)
    requires HistOk(id, r) && SlotOk(id, r, c) && r.place.Invoking?
    ensures r.computed.Some?
    ensures
      var (q, d) := DispatchStep(r.(fired := r.fired + [Call(id, r.computed.value)]), c, out);
      HistOk(id, q) && SlotOk(id, q, d) && Stable(r, q)
  {
  }

  lemma PollOk(id: nat, r: Req, c: Cell, pc: PollPc)
    requires HistOk(id, r) && SlotOk(id, r, c) && PollerOk(r, pc)
    ensures
      var (q, d, next) := PollStep(r, c, pc);
      HistOk(id, q) && SlotOk(id, q, d) && Stable(r, q) && (next.Some? ==> PollerOk(q, next.value))
  {
  }

  // ---------------------------------------------------------------- all slots together

  predicate Congruent(j: nat, k: nat) { j % PENDING == k % PENDING }

  ghost predicate Slots(reqs: map<nat, Req>, cells: map<nat, Cell>) {
    forall id :: id in reqs ==> Ok1(id, reqs[id], CellAt(cells, id % PENDING))
  }

  ghost predicate OneActive(reqs: map<nat, Req>) {
    forall j, k :: j in reqs && k in reqs && j != k && Congruent(j, k) ==> !(Active(reqs[j]) && Active(reqs[k]))
  }

  ghost predicate CallbackOk(reqs: map<nat, Req>, i: nat, c: Cell) {
    c.callback.Some? ==>
      c.callback.value in reqs && c.callback.value % PENDING == i && !reqs[c.callback.value].place.Completed?
  }

  ghost predicate Callbacks(reqs: map<nat, Req>, cells: map<nat, Cell>) {
    forall i :: i in cells ==> CallbackOk(reqs, i, cells[i])
  }

  ghost predicate PollersOk(reqs: map<nat, Req>, pollers: map<nat, Poller>) {
    forall a :: a in pollers ==> pollers[a].id in reqs && PollerOk(reqs[pollers[a].id], pollers[a].pc)
  }

  ghost predicate SlotInv(reqs: map<nat, Req>, cells: map<nat, Cell>, pollers: map<nat, Poller>) {
    Slots(reqs, cells) && OneActive(reqs) && Callbacks(reqs, cells) && PollersOk(reqs, pollers)
  }

  lemma InstallSlots(reqs: map<nat, Req>, cells: map<nat, Cell>, id: nat, q: Req, d: Cell)
    requires Slots(reqs, cells) && OneActive(reqs) && id in reqs && Active(reqs[id])
    requires HistOk(id, q) && SlotOk(id, q, d)
    ensures Slots(reqs[id := q], cells[id % PENDING := d]) && OneActive(reqs[id := q])
  {
    forall k | k in reqs && k != id ensures Ok1(k, reqs[k], CellAt(cells[id % PENDING := d], k % PENDING)) {
      assert Ok1(k, reqs[k], CellAt(cells, k % PENDING));
      assert Congruent(id, k) ==> !Active(reqs[k]);
    }
  }

  lemma InstallCallbacks(reqs: map<nat, Req>, cells: map<nat, Cell>, id: nat, q: Req, d: Cell)
    requires Callbacks(reqs, cells) && id in reqs && SlotOk(id, reqs[id], CellAt(cells, id % PENDING))
    requires HistOk(id, q) && SlotOk(id, q, d)
    requires !reqs[id].place.Completed? || q.place.Completed?
    ensures Callbacks(reqs[id := q], cells[id % PENDING := d])
  {
    forall i | i in cells && i != id % PENDING ensures CallbackOk(reqs[id := q], i, cells[i]) {
      assert CallbackOk(reqs, i, cells[i]);
    }
    assert CallbackOk(reqs[id := q], id % PENDING, d);
  }

  lemma InstallPollers(reqs: map<nat, Req>, pollers: map<nat, Poller>, id: nat, q: Req)
    requires PollersOk(reqs, pollers) && id in reqs && Stable(reqs[id], q)
    ensures PollersOk(reqs[id := q], pollers)
  {
  }

  lemma InstallInv(reqs: map<nat, Req>, cells: map<nat, Cell>, pollers: map<nat, Poller>, id: nat, q: Req, d: Cell)
    requires SlotInv(reqs, cells, pollers) && id in reqs && Active(reqs[id])
    requires HistOk(id, q) && SlotOk(id, q, d)
    requires !reqs[id].place.Completed? || q.place.Completed?
    requires Stable(reqs[id], q)
    ensures SlotInv(reqs[id := q], cells[id % PENDING := d], pollers)
  {
    assert Ok1(id, reqs[id], CellAt(cells, id % PENDING));
    InstallSlots(reqs, cells, id, q, d);
    InstallCallbacks(reqs, cells, id, q, d);
    InstallPollers(reqs, pollers, id, q);
  }

  // ---------------------------------------------------------------- where each request is

  ghost predicate Owned(reqs: map<nat, Req>, h: nat, q: seq<nat>) {
    forall i :: 0 <= i < |q| ==> q[i] in reqs && reqs[q[i]].place == Queued(h)
  }

  ghost predicate Distinct(q: seq<nat>) { forall i, j :: 0 <= i < j < |q| ==> q[i] != q[j] }

  ghost predicate QueuesOk(reqs: map<nat, Req>, queues: seq<seq<nat>>) {
    forall h :: 0 <= h < |queues| ==> Owned(reqs, h, queues[h]) && Distinct(queues[h])
  }

  ghost predicate Reached(reqs: map<nat, Req>, queues: seq<seq<nat>>) {
    forall id :: id in reqs ==>
      && reqs[id].hart < |queues|
      && (reqs[id].place.Queued? ==> reqs[id].place.hart < |queues| && id in queues[reqs[id].place.hart])
  }

  ghost predicate HandsOk(reqs: map<nat, Req>, handling: Option<nat>) {
    && (handling.Some? ==> handling.value in reqs && InHands(reqs[handling.value].place))
    && forall id :: id in reqs && InHands(reqs[id].place) ==> handling == Some(id)
  }

  ghost predicate PlaceInv(reqs: map<nat, Req>, queues: seq<seq<nat>>, handling: Option<nat>) {
    QueuesOk(reqs, queues) && Reached(reqs, queues) && HandsOk(reqs, handling)
  }

  /** A request that neither enters nor leaves a queue. */
  lemma PlaceKept(reqs: map<nat, Req>, queues: seq<seq<nat>>, handling: Option<nat>, id: nat, q: Req)
    requires PlaceInv(reqs, queues, handling) && id in reqs && q.hart == reqs[id].hart
    requires q.place == reqs[id].place || (InHands(q.place) && InHands(reqs[id].place))
    ensures PlaceInv(reqs[id := q], queues, handling)
  {
  }

  lemma PlaceBegin(reqs: map<nat, Req>, queues: seq<seq<nat>>, handling: Option<nat>, id: nat, q: Req)
    requires PlaceInv(reqs, queues, handling) && id !in reqs && q.hart < |queues| && q.place.Unsent?
    ensures PlaceInv(reqs[id := q], queues, handling)
  {
  }

  lemma PlaceDone(reqs: map<nat, Req>, queues: seq<seq<nat>>, id: nat, q: Req)
    requires PlaceInv(reqs, queues, Some(id)) && q.hart == reqs[id].hart && q.place.Completed?
    ensures PlaceInv(reqs[id := q], queues, None)
  {
  }

  lemma PlacePush(reqs: map<nat, Req>, queues: seq<seq<nat>>, handling: Option<nat>, id: nat, h: nat, q: Req)
    requires PlaceInv(reqs, queues, handling) && id in reqs && reqs[id].place.Unsent?
    requires h < |queues| && q.hart == reqs[id].hart && q.place == Queued(h)
    ensures PlaceInv(reqs[id := q], queues[h := queues[h] + [id]], handling)
  {
    var queues' := queues[h := queues[h] + [id]];
    forall g | 0 <= g < |queues| ensures Owned(reqs[id := q], g, queues'[g]) && Distinct(queues'[g]) {
      assert Owned(reqs, g, queues[g]) && Distinct(queues[g]);
    }
    forall k | k in reqs && k != id && reqs[k].place.Queued? ensures k in queues'[reqs[k].place.hart] {
      assert k in queues[reqs[k].place.hart];
    }
    assert queues'[h][|queues[h]|] == id;
  }

  lemma PlacePop(reqs: map<nat, Req>, queues: seq<seq<nat>>, h: nat, q: Req)
    requires PlaceInv(reqs, queues, None) && h < |queues| && queues[h] != []
    requires queues[h][0] in reqs && q == reqs[queues[h][0]].(place := Fetched)
    ensures PlaceInv(reqs[queues[h][0] := q], queues[h := queues[h][1..]], Some(queues[h][0]))
  {
    var id := queues[h][0];
    var reqs' := reqs[id := q];
    var queues' := queues[h := queues[h][1..]];
    assert Owned(reqs, h, queues[h]) && Distinct(queues[h]);
    forall g | 0 <= g < |queues| ensures Owned(reqs', g, queues'[g]) && Distinct(queues'[g]) {
      assert Owned(reqs, g, queues[g]) && Distinct(queues[g]);
      assert g == h ==> forall i :: 0 <= i < |queues'[g]| ==> queues'[g][i] == queues[g][i + 1];
    }
    forall k | k in reqs && k != id && reqs[k].place.Queued? ensures k in queues'[reqs[k].place.hart] {
      var g := reqs[k].place.hart;
      var i :| 0 <= i < |queues[g]| && queues[g][i] == k;
      assert g == h ==> queues'[g][i - 1] == k;
    }
  }

  // ---------------------------------------------------------------- counters

  function Total(queues: seq<seq<nat>>): nat {
    if queues == [] then 0 else Total(queues[..|queues| - 1]) + |queues[|queues| - 1]|
  }

  lemma {:induction false} TotalUpdate(queues: seq<seq<nat>>, h: nat, q: seq<nat>)
    requires h < |queues|
    ensures Total(queues[h := q]) + |queues[h]| == Total(queues) + |q|
  {
    var n := |queues| - 1;
    if h < n {
      TotalUpdate(queues[..n], h, q);
      assert queues[h := q][..n] == queues[..n][h := q];
    } else {
      assert queues[h := q][..n] == queues[..n];
    }
  }

  lemma {:induction false} TotalEmpty(harts: nat)
    ensures Total(NoRequests(harts)) == 0
  {
    if harts > 0 {
      TotalEmpty(harts - 1);
      assert NoRequests(harts)[..harts - 1] == NoRequests(harts - 1);
    }
  }

  /** Dequeued but not yet counted as completed. */
  function InFlight(reqs: map<nat, Req>, handling: Option<nat>): nat {
    if handling.Some? && handling.value in reqs && InHands(reqs[handling.value].place)
       && (!Stored(reqs[handling.value].place) || reqs[handling.value].place.Counting?)
    then 1 else 0
  }

  ghost predicate Uncounted(reqs: map<nat, Req>, ids: set<nat>) {
    forall id :: id in ids <==> id in reqs && reqs[id].pc.Count?
  }

  ghost predicate CountInv(s: State) {
    && s.submitted + |s.uncounted| == s.completed + Total(s.queues) + InFlight(s.reqs, s.handling)
    && Uncounted(s.reqs, s.uncounted)
  }

  /** What every run keeps of a request's records, whatever its congruent ids do. */
  predicate RecordOk(r: Req) {
    && (Sent(r) <==> !r.place.Unsent?)
    && (!r.live ==> r.pc.Returned?)
    && (r.computed.Some? <==> Handled(r.place))
  }

  ghost predicate Records(reqs: map<nat, Req>) { forall id :: id in reqs ==> RecordOk(reqs[id]) }

  /** Places and counters: kept by every run, disciplined or not. */
  ghost predicate BaseInv(s: State) {
    && Records(s.reqs)
    && PlaceInv(s.reqs, s.queues, s.handling)
    && CountInv(s)
  }

  lemma BaseBegin(s: State, l: Label)
    requires BaseInv(s) && l.Begin?
    ensures BaseInv(Apply(s, l))
  {
    if l.id !in s.reqs && l.hart < |s.queues| {
      PlaceBegin(s.reqs, s.queues, s.handling, l.id, Req(l.kind, l.hart, ResetFlag, Unsent, true, None, [], []));
    }
  }

  lemma SubmitPlaces(s: State, id: nat)
    requires PlaceInv(s.reqs, s.queues, s.handling) && id in s.reqs && RecordOk(s.reqs[id])
    ensures var t := SubmitAt(s, id); PlaceInv(t.reqs, t.queues, t.handling)
  {
    var r := s.reqs[id];
    var q := SubmitStep(id, r, CellAt(s.cells, id % PENDING)).0;
    if r.pc.Push? {
      PlacePush(s.reqs, s.queues, s.handling, id, r.hart, q);
    } else {
      PlaceKept(s.reqs, s.queues, s.handling, id, q);
    }
  }

  lemma SubmitRecords(s: State, id: nat)
    requires Records(s.reqs) && id in s.reqs && s.reqs[id].hart < |s.queues|
    ensures Records(SubmitAt(s, id).reqs)
    ensures Uncounted(s.reqs, s.uncounted) ==> Uncounted(SubmitAt(s, id).reqs, SubmitAt(s, id).uncounted)
  {
  }

  lemma SubmitFlight(s: State, id: nat)
    requires id in s.reqs && RecordOk(s.reqs[id])
    requires s.handling == Some(id) ==> InHands(s.reqs[id].place)
    ensures InFlight(SubmitAt(s, id).reqs, s.handling) == InFlight(s.reqs, s.handling)
  {
  }

  lemma SubmitTotal(s: State, id: nat)
    requires id in s.reqs && s.reqs[id].hart < |s.queues|
    requires s.reqs[id].pc.Count? <==> id in s.uncounted
    ensures
      var t := SubmitAt(s, id);
      t.submitted + |t.uncounted| - Total(t.queues) == s.submitted + |s.uncounted| - Total(s.queues)
  {
    var r := s.reqs[id];
    if r.pc.Push? {
      TotalUpdate(s.queues, r.hart, s.queues[r.hart] + [id]);
    }
  }

  lemma SubmitCounts(s: State, id: nat)
    requires CountInv(s) && Records(s.reqs) && id in s.reqs && s.reqs[id].hart < |s.queues|
    requires s.handling == Some(id) ==> InHands(s.reqs[id].place)
    ensures CountInv(SubmitAt(s, id))
  {
    SubmitRecords(s, id);
    SubmitFlight(s, id);
    SubmitTotal(s, id);
  }

  lemma BaseSubmit(s: State, id: nat)
    requires BaseInv(s) && id in s.reqs && !s.reqs[id].pc.Returned?
    ensures BaseInv(SubmitAt(s, id))
  {
    SubmitRecords(s, id);
    SubmitPlaces(s, id);
    SubmitCounts(s, id);
  }

  lemma ProbePlaces(s: State)
    requires PlaceInv(s.reqs, s.queues, s.handling) && s.handling.None? && |s.queues| > 0
    ensures var t := ProbeAt(s); PlaceInv(t.reqs, t.queues, t.handling)
  {
    var h := s.cursor % |s.queues|;
    if s.queues[h] != [] {
      assert Owned(s.reqs, h, s.queues[h]);
      PlacePop(s.reqs, s.queues, h, s.reqs[s.queues[h][0]].(place := Fetched));
    }
  }

  lemma ProbeCounts(s: State)
    requires CountInv(s) && s.handling.None? && |s.queues| > 0
    requires var h := s.cursor % |s.queues|; s.queues[h] != [] ==> s.queues[h][0] in s.reqs
    ensures CountInv(ProbeAt(s))
  {
    PopTotal(s.queues, s.cursor % |s.queues|);
  }

  lemma PopTotal(queues: seq<seq<nat>>, h: nat)
    requires h < |queues|
    ensures queues[h] != [] ==> Total(queues[h := queues[h][1..]]) + 1 == Total(queues)
  {
    if queues[h] != [] {
      TotalUpdate(queues, h, queues[h][1..]);
    }
  }

  lemma BaseProbe(s: State)
    requires BaseInv(s) && s.handling.None? && |s.queues| > 0
    ensures BaseInv(ProbeAt(s))
  {
    var h := s.cursor % |s.queues|;
    if s.queues[h] != [] {
      assert Owned(s.reqs, h, s.queues[h]);
    }
    ProbePlaces(s);
    ProbeCounts(s);
  }

  /** Invoking a callback, even another request's, moves no request. */
  lemma BaseFire(s: State, id: nat)
    requires BaseInv(s) && id in s.reqs
    ensures BaseInv(FireAt(s, id)) && FireAt(s, id).handling == s.handling
  {
    var r := s.reqs[id];
    if r.place.Invoking? && r.computed.Some? && r.place.token in s.reqs {
      var t := s.reqs[r.place.token];
      PlaceKept(s.reqs, s.queues, s.handling, r.place.token, t.(fired := t.fired + [Call(id, r.computed.value)]));
    }
  }

  lemma AdvancePlaces(s: State, id: nat, out: IoResult)
    requires PlaceInv(s.reqs, s.queues, s.handling) && s.handling == Some(id)
    ensures id in s.reqs
    ensures var t := AdvanceAt(s, id, out); PlaceInv(t.reqs, t.queues, t.handling)
  {
    var q := DispatchStep(s.reqs[id], CellAt(s.cells, id % PENDING), out).0;
    if q.place.Completed? {
      PlaceDone(s.reqs, s.queues, id, q);
    } else {
      PlaceKept(s.reqs, s.queues, s.handling, id, q);
    }
  }

  lemma AdvanceCounts(s: State, id: nat, out: IoResult)
    requires CountInv(s) && s.handling == Some(id) && id in s.reqs && InHands(s.reqs[id].place)
    ensures CountInv(AdvanceAt(s, id, out))
  {
  }

  lemma BaseAdvance(s: State, id: nat, out: IoResult)
    requires BaseInv(s) && s.handling == Some(id)
    ensures id in s.reqs && BaseInv(AdvanceAt(s, id, out))
  {
    AdvancePlaces(s, id, out);
    AdvanceCounts(s, id, out);
  }

  lemma BaseDispatch(s: State, out: IoResult)
    requires BaseInv(s) && s.handling.Some? && s.handling.value in s.reqs
    ensures BaseInv(DispatchAt(s, s.handling.value, out))
  {
    var id: nat := s.handling.value;
    BaseFire(s, id);
    BaseAdvance(FireAt(s, id), id, out);
  }

  lemma BasePoll(s: State, a: nat)
    requires BaseInv(s) && a in s.pollers && s.pollers[a].id in s.reqs
    ensures BaseInv(PollAt(s, a))
  {
    PlaceKept(s.reqs, s.queues, s.handling, s.pollers[a].id, PollAt(s, a).reqs[s.pollers[a].id]);
  }

  lemma BaseRetire(s: State, id: nat)
    requires BaseInv(s) && id in s.reqs && s.reqs[id].pc.Returned? && !Polled(s.pollers, id)
    ensures BaseInv(Apply(s, Retire(id)))
  {
    PlaceKept(s.reqs, s.queues, s.handling, id, s.reqs[id].(live := false));
  }

  lemma BaseStep(s: State, l: Label)
    requires BaseInv(s)
    ensures BaseInv(Apply(s, l))
  {
    match l
    case Begin(_, _, _) => BaseBegin(s, l);
    case Submit(id) => if id in s.reqs && !s.reqs[id].pc.Returned? { BaseSubmit(s, id); }
    case Probe => if s.handling.None? && |s.queues| > 0 { BaseProbe(s); }
    case Dispatch(out) => if s.handling.Some? && s.handling.value in s.reqs { BaseDispatch(s, out); }
    case StartPoll(a, id) =>
    case Poll(a) => if a in s.pollers && s.pollers[a].id in s.reqs { BasePoll(s, a); }
    case Retire(id) =>
      if id in s.reqs && s.reqs[id].pc.Returned? && !Polled(s.pollers, id) { BaseRetire(s, id); }
  }

  lemma {:induction false} BaseRun(harts: nat, ls: seq<Label>)
    ensures BaseInv(Run(harts, ls))
  {
    if ls == [] {
      TotalEmpty(harts);
    } else {
      BaseRun(harts, ls[..|ls| - 1]);
      BaseStep(Run(harts, ls[..|ls| - 1]), ls[|ls| - 1]);
    }
  }

  /** Every submission is accounted for: completed, queued, or in the dispatcher's hands. */
  lemma Conservation(harts: nat, ls: seq<Label>)
    ensures
      var s := Run(harts, ls);
      s.submitted + |s.uncounted| == s.completed + Total(s.queues) + InFlight(s.reqs, s.handling)
    ensures
      var s := Run(harts, ls);
      forall id :: id in s.uncounted <==> id in s.reqs && s.reqs[id].pc.Count?
  {
    BaseRun(harts, ls);
  }

  // ---------------------------------------------------------------- slots in disciplined runs

  lemma BeginSlots(reqs: map<nat, Req>, cells: map<nat, Cell>, id: nat, q: Req)
    requires Slots(reqs, cells) && OneActive(reqs) && Callbacks(reqs, cells) && id !in reqs
    requires forall j :: j in reqs && j % PENDING == id % PENDING ==> !Active(reqs[j])
    requires q == Req(q.kind, q.hart, ResetFlag, Unsent, true, None, [], [])
    ensures Slots(reqs[id := q], cells) && OneActive(reqs[id := q]) && Callbacks(reqs[id := q], cells)
  {
    var i := id % PENDING;
    assert i in cells ==> CallbackOk(reqs, i, cells[i]);
    forall k | k in cells ensures CallbackOk(reqs[id := q], k, cells[k]) {
      assert CallbackOk(reqs, k, cells[k]);
    }
  }

  lemma SubmitSlots(s: State, id: nat)
    requires SlotInv(s.reqs, s.cells, s.pollers) && id in s.reqs && !s.reqs[id].pc.Returned?
    ensures var t := SubmitAt(s, id); SlotInv(t.reqs, t.cells, t.pollers)
  {
    var r, c := s.reqs[id], CellAt(s.cells, id % PENDING);
    assert Ok1(id, r, c);
    SubmitOk(id, r, c);
    var (q, d) := SubmitStep(id, r, c);
    InstallInv(s.reqs, s.cells, s.pollers, id, q, d);
  }

  lemma ProbeSlots(s: State)
    requires SlotInv(s.reqs, s.cells, s.pollers) && PlaceInv(s.reqs, s.queues, s.handling) && |s.queues| > 0
    ensures var t := ProbeAt(s); SlotInv(t.reqs, t.cells, t.pollers)
  {
    var h := s.cursor % |s.queues|;
    if s.queues[h] != [] {
      var id: nat := s.queues[h][0];
      assert Owned(s.reqs, h, s.queues[h]);
      var r, c := s.reqs[id], CellAt(s.cells, id % PENDING);
      assert Ok1(id, r, c);
      InstallInv(s.reqs, s.cells, s.pollers, id, r.(place := Fetched), c);
    }
  }

  /** The dispatcher's step as one replacement of its request and cell: a callback fires for its own request. */
  lemma DispatchLocal(s: State, id: nat, out: IoResult)
    returns (q: Req, d: Cell)
    requires id in s.reqs && InHands(s.reqs[id].place)
    requires HistOk(id, s.reqs[id]) && SlotOk(id, s.reqs[id], CellAt(s.cells, id % PENDING))
    ensures var t := DispatchAt(s, id, out); t.reqs == s.reqs[id := q] && t.cells == s.cells[id % PENDING := d]
    ensures HistOk(id, q) && SlotOk(id, q, d) && Stable(s.reqs[id], q)
  {
    var r, c := s.reqs[id], CellAt(s.cells, id % PENDING);
    var r' := FireAt(s, id).reqs[id];
    if r.place.Invoking? {
      InvokeOk(id, r, c, out);
    } else {
      DispatchOk(id, r, c, out);
    }
    q, d := DispatchStep(r', c, out).0, DispatchStep(r', c, out).1;
  }

  lemma DispatchSlots(s: State, id: nat, out: IoResult)
    requires SlotInv(s.reqs, s.cells, s.pollers) && id in s.reqs && InHands(s.reqs[id].place)
    ensures var t := DispatchAt(s, id, out); SlotInv(t.reqs, t.cells, t.pollers)
  {
    assert Ok1(id, s.reqs[id], CellAt(s.cells, id % PENDING));
    var q, d := DispatchLocal(s, id, out);
    InstallInv(s.reqs, s.cells, s.pollers, id, q, d);
  }

  lemma PollSlots(s: State, a: nat)
    requires SlotInv(s.reqs, s.cells, s.pollers) && a in s.pollers
    ensures s.pollers[a].id in s.reqs
    ensures var t := PollAt(s, a); SlotInv(t.reqs, t.cells, t.pollers)
  {
    var id: nat := s.pollers[a].id;
    var r, c := s.reqs[id], CellAt(s.cells, id % PENDING);
    assert Ok1(id, r, c);
    PollOk(id, r, c, s.pollers[a].pc);
    var (q, d, next) := PollStep(r, c, s.pollers[a].pc);
    InstallInv(s.reqs, s.cells, s.pollers, id, q, d);
  }

  lemma RetireSlots(s: State, id: nat)
    requires SlotInv(s.reqs, s.cells, s.pollers) && id in s.reqs && s.reqs[id].pc.Returned? && !Polled(s.pollers, id)
    ensures var t := Apply(s, Retire(id)); SlotInv(t.reqs, t.cells, t.pollers)
  {
    var r, c := s.reqs[id], CellAt(s.cells, id % PENDING);
    var q := r.(live := false);
    assert Ok1(id, r, c);
    if Active(r) {
      InstallSlots(s.reqs, s.cells, id, q, c);
      InstallCallbacks(s.reqs, s.cells, id, q, c);
    } else {
      assert q == r && s.reqs[id := q] == s.reqs;
      RefillCells(s.reqs, s.cells, id % PENDING);
    }
  }

  lemma RefillCells(reqs: map<nat, Req>, cells: map<nat, Cell>, i: nat)
    requires Slots(reqs, cells) && Callbacks(reqs, cells)
    ensures Slots(reqs, cells[i := CellAt(cells, i)]) && Callbacks(reqs, cells[i := CellAt(cells, i)])
  {
    forall k | k in reqs ensures CellAt(cells[i := CellAt(cells, i)], k % PENDING) == CellAt(cells, k % PENDING) { }
  }

  lemma SlotStep(s: State, l: Label)
    requires SlotInv(s.reqs, s.cells, s.pollers) && PlaceInv(s.reqs, s.queues, s.handling) && Allowed(s, l)
    ensures var t := Apply(s, l); SlotInv(t.reqs, t.cells, t.pollers)
  {
    match l
    case Begin(id, kind, hart) =>
      if id !in s.reqs && hart < |s.queues| {
        BeginSlots(s.reqs, s.cells, id, Req(kind, hart, ResetFlag, Unsent, true, None, [], []));
      }
    case Submit(id) => if id in s.reqs && !s.reqs[id].pc.Returned? { SubmitSlots(s, id); }
    case Probe => if s.handling.None? && |s.queues| > 0 { ProbeSlots(s); }
    case Dispatch(out) => if s.handling.Some? && s.handling.value in s.reqs { DispatchSlots(s, s.handling.value, out); }
    case StartPoll(a, id) =>
    case Poll(a) => if a in s.pollers && s.pollers[a].id in s.reqs { PollSlots(s, a); }
    case Retire(id) =>
      if id in s.reqs && s.reqs[id].pc.Returned? && !Polled(s.pollers, id) { RetireSlots(s, id); }
  }

  /** The slot protocol holds after every disciplined run of any number of harts. */
  lemma {:induction false} InvRun(harts: nat, ls: seq<Label>)
    requires Disciplined(harts, ls)
    ensures var s := Run(harts, ls); SlotInv(s.reqs, s.cells, s.pollers)
  {
    if ls != [] {
      InvRun(harts, ls[..|ls| - 1]);
      BaseRun(harts, ls[..|ls| - 1]);
      SlotStep(Run(harts, ls[..|ls| - 1]), ls[|ls| - 1]);
    }
  }

  // ---------------------------------------------------------------- results of disciplined runs

  /** Whatever a poll of an id returned is what was computed for that id, and it was returned once. */
  lemma ResultRouting(harts: nat, ls: seq<Label>, id: nat)
    requires Disciplined(harts, ls) && id in Run(harts, ls).reqs
    ensures
      var r := Run(harts, ls).reqs[id];
      r.taken == [] || (r.computed.Some? && r.taken == [r.computed.value])
  {
    InvRun(harts, ls);
    var s := Run(harts, ls);
    assert Ok1(id, s.reqs[id], CellAt(s.cells, id % PENDING));
  }

  /** A registered callback has fired exactly once, with its own id and result, when its request is completed, and never before. */
  lemma CallbackOnce(harts: nat, ls: seq<Label>, id: nat)
    requires Disciplined(harts, ls) && id in Run(harts, ls).reqs
    ensures
      var r := Run(harts, ls).reqs[id];
      if r.place.Completed? && r.kind.WithCallback?
      then r.computed.Some? && r.fired == [Call(id, r.computed.value)]
      else r.fired == []
  {
    InvRun(harts, ls);
    var s := Run(harts, ls);
    assert Ok1(id, s.reqs[id], CellAt(s.cells, id % PENDING));
  }

  /** A stored result waits for its owner: while it is awaited and untaken, the next undisturbed poll returns it. */
  lemma ResultKept(harts: nat, ls: seq<Label>, id: nat, a: nat)
    requires Disciplined(harts, ls) && id in Run(harts, ls).reqs && a !in Run(harts, ls).pollers
    requires var r := Run(harts, ls).reqs[id]; r.live && Stored(r.place) && r.taken == []
    ensures
      var s := Run(harts, ls);
      var t := Apply(Apply(Apply(s, StartPoll(a, id)), Poll(a)), Poll(a));
      s.reqs[id].computed.Some? && id in t.reqs && t.reqs[id].taken == [s.reqs[id].computed.value]
  {
    InvRun(harts, ls);
    PollTakes(Run(harts, ls), id, a);
  }

  lemma PollTakes(s: State, id: nat, a: nat)
    requires Slots(s.reqs, s.cells) && id in s.reqs && a !in s.pollers
    requires var r := s.reqs[id]; r.live && Stored(r.place) && r.taken == []
    ensures
      var t := Apply(Apply(Apply(s, StartPoll(a, id)), Poll(a)), Poll(a));
      s.reqs[id].computed.Some? && id in t.reqs && t.reqs[id].taken == [s.reqs[id].computed.value]
  {
    var r, c := s.reqs[id], CellAt(s.cells, id % PENDING);
    assert Ok1(id, r, c);
    var s1 := s.(pollers := s.pollers[a := Poller(id, LoadFlag)]);
    assert Apply(s, StartPoll(a, id)) == s1;
    var s2 := Install(s1, id, (r, c)).(pollers := s1.pollers[a := Poller(id, LockTake)]);
    assert Apply(s1, Poll(a)) == s2;
  }
}
