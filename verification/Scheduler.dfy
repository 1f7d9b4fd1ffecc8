/** The actor scheduler as interleaved steps, one step for each critical section or atomic operation.

    A service is a context and a message queue made together under one handle; handles are not reused.
    Every call in progress (a worker's dispatch, a send, a creation, a deletion) is a frame of its own, and
    frames interleave in every order, so the runs here include those of any number of threads. */
module Scheduler {

  import opened Options

  type Handle = nat

  datatype Message = Message(source: Handle, session: int, data: seq<nat>, isError: bool)

  /** How a message left its queue: run by the callback, freed because there is no callback, or dropped
      with an error reply because the service is gone. */
  datatype Fate = Dispatched | Discarded | Dropped

  /** `ref` counts the handle table's reference and those held by frames. `init` is the flag that the creation
      raises and the dispatch asserts. `pushed` and `gone` record the history of the queue. */
  datatype Service = Service(
    registered: bool, ref: int, contextFreed: bool, init: bool,
    msgs: seq<Message>, inGlobal: bool, release: bool, queueFreed: bool,
    pushed: seq<Message>, gone: seq<(Message, Fate)>)

  datatype Frame =
    | Done
    // a worker
    | Idle
    | Has(q: Handle)
    | Orphan(q: Handle)
    | Serving(q: Handle)
    | Running(q: Handle)
    | LoopDone(q: Handle)
    | Swapping(q: Handle, nq: Handle)
    | Leaving(q: Handle, next: Option<Handle>)
    | Draining(q: Handle)
    | FreeQueue(q: Handle)
    // a creation
    | Initializing(h: Handle)
    | Storing(h: Handle)
    | Publishing(h: Handle, kept: bool)
    | Logging(h: Handle)
    | Returned(h: Handle)
    | FailRetire(h: Handle)
    | FailRelease(h: Handle)
    // a send, or any other holder of a context
    | Sending(dst: Handle, msg: Message)
    | Grabbed(h: Handle, msg: Message)
    | Holding(h: Handle)
    // a deletion
    | Deleting(h: Handle)
    | Freeing(h: Handle)

  datatype State = State(services: seq<Service>, global: seq<Handle>, frames: seq<Frame>)

  /** The next move of a worker's frame. */
  datatype WorkerMove =
    | PopGlobal | Lookup | ReleaseQueue | Drain | Free | ServePop(fate: Fate) | Finish(more: bool)
    | PopNext | PushBack | Leave

  /** The next move of a creation, a send, a holder or a deletion. */
  datatype CallMove =
    | InitOk | SetInit | Publish | Log | UseResult | InitFail | RetireFailed | ReleaseFailed | Grab | Push | Release
    | MarkRelease | FreeContext

  datatype Step =
    | NewService
    | Send(dst: Handle, msg: Message)
    | Hold(h: Handle)
    | Retire(h: Handle)
    | StartWorker
    | Work(i: nat, work: WorkerMove)
    | Call(i: nat, call: CallMove)

  // ---------------------------------------------------------------------------------------------
  // What a frame holds
  // ---------------------------------------------------------------------------------------------

  /** A reference to a context, a queue outside the run queue, or one of the two duties of a deletion. */
  datatype Claim = Ref(h: Handle) | Own(h: Handle) | Mark(h: Handle) | Reclaim(h: Handle)

  function One(b: bool): nat {
    if b then 1 else 0
  }

  function Holds(f: Frame, c: Claim): nat {
    match f
    case Done => 0
    case Idle => 0
    case Has(q) => One(c == Own(q))
    case Orphan(q) => One(c == Own(q))
    case Serving(q) => One(c == Ref(q)) + One(c == Own(q))
    case Running(q) => One(c == Ref(q)) + One(c == Own(q))
    case LoopDone(q) => One(c == Ref(q)) + One(c == Own(q))
    case Swapping(q, nq) => One(c == Ref(q)) + One(c == Own(q)) + One(c == Own(nq))
    case Leaving(q, next) => One(c == Ref(q)) + One(next.Some? && c == Own(next.value))
    case Draining(q) => One(c == Own(q))
    case FreeQueue(q) => One(c == Own(q))
    case Initializing(h) => One(c == Ref(h)) + One(c == Own(h))
    case Storing(h) => One(c == Own(h))
    case Publishing(h, _) => One(c == Own(h))
    case Logging(_) => 0
    case Returned(_) => 0
    case FailRetire(h) => One(c == Own(h))
    case FailRelease(h) => One(c == Ref(h)) + One(c == Own(h))
    case Sending(_, _) => 0
    case Grabbed(h, _) => One(c == Ref(h))
    case Holding(h) => One(c == Ref(h))
    case Deleting(h) => One(c == Mark(h))
    case Freeing(h) => One(c == Reclaim(h))
  }

  function Tally(fs: seq<Frame>, c: Claim): nat {
    if fs == [] then 0 else Tally(fs[..|fs| - 1], c) + Holds(fs[|fs| - 1], c)
  }

  // ---------------------------------------------------------------------------------------------
  // The steps
  // ---------------------------------------------------------------------------------------------

  predicate At(s: State, i: nat) {
    i < |s.frames|
  }

  predicate Known(s: State, h: Handle) {
    h < |s.services|
  }

  /** The handle table finds the context. */
  predicate Found(s: State, h: Handle) {
    Known(s, h) && s.services[h].registered
  }

  function FrameHandle(f: Frame): Handle {
    match f
    case Done => 0
    case Idle => 0
    case Sending(_, _) => 0
    case Has(q) => q
    case Orphan(q) => q
    case Serving(q) => q
    case Running(q) => q
    case LoopDone(q) => q
    case Swapping(q, _) => q
    case Leaving(q, _) => q
    case Draining(q) => q
    case FreeQueue(q) => q
    case Initializing(h) => h
    case Storing(h) => h
    case Publishing(h, _) => h
    case Logging(h) => h
    case Returned(h) => h
    case FailRetire(h) => h
    case FailRelease(h) => h
    case Grabbed(h, _) => h
    case Holding(h) => h
    case Deleting(h) => h
    case Freeing(h) => h
  }

  predicate InState(s: State, i: nat) {
    At(s, i) && (s.frames[i].Idle? || s.frames[i].Sending? || Known(s, FrameHandle(s.frames[i])))
  }

  predicate CanWork(s: State, f: Frame, m: WorkerMove) {
    match m
    case PopGlobal => f.Idle? && s.global != []
    case Lookup => f.Has?
    case ReleaseQueue => f.Orphan?
    case Drain => f.Draining?
    case Free => f.FreeQueue?
    case ServePop(fate) => f.Serving? && fate != Dropped
    case Finish(_) => f.Running?
    case PopNext => f.LoopDone?
    case PushBack => f.Swapping?
    case Leave => f.Leaving?
  }

  predicate CanCall(f: Frame, m: CallMove) {
    match m
    case InitOk => f.Initializing?
    case SetInit => f.Storing?
    case Publish => f.Publishing?
    case Log => f.Logging?
    case UseResult => f.Returned?
    case InitFail => f.Initializing?
    case RetireFailed => f.FailRetire?
    case ReleaseFailed => f.FailRelease?
    case Grab => f.Sending?
    case Push => f.Grabbed?
    case Release => f.Holding?
    case MarkRelease => f.Deleting?
    case FreeContext => f.Freeing?
  }

  predicate Enabled(s: State, step: Step) {
    match step
    case NewService => true
    case Send(_, _) => true
    case Hold(h) => Found(s, h)
    case Retire(h) => Found(s, h)
    case StartWorker => true
    case Work(i, m) => InState(s, i) && CanWork(s, s.frames[i], m)
    case Call(i, m) => InState(s, i) && CanCall(s.frames[i], m)
  }

  function Go(s: State, i: nat, f: Frame): State
    requires At(s, i)
  {
    s.(frames := s.frames[i := f])
  }

  function Set(s: State, h: Handle, v: Service): State
    requires Known(s, h)
  {
    s.(services := s.services[h := v])
  }

  /** `skynet_context_release`: the frame that brings the count to zero goes on to delete. */
  function Unref(s: State, h: Handle): State
    requires Known(s, h)
  {
    var v := s.services[h];
    var s' := Set(s, h, v.(ref := v.ref - 1));
    if v.ref == 1 then s'.(frames := s'.frames + [Deleting(h)]) else s'
  }

  function GlobalPush(s: State, h: Handle): State {
    s.(global := s.global + [h])
  }

  const FRESH := Service(true, 2, false, false, [], true, false, false, [], [])

  function ErrorReply(h: Handle): Message {
    Message(h, 0, [], true)
  }

  /** `skynet_context_new` up to the publication of handle and queue, as one step. */
  function DoNewService(s: State): State {
    State(s.services + [FRESH], s.global, s.frames + [Initializing(|s.services|)])
  }

  /** The creation's reference is given up. The context is used further on if that was not the last one. */
  function DoInitOk(s: State, i: nat): State
    requires InState(s, i) && s.frames[i].Initializing?
  {
    var h := s.frames[i].h;
    Unref(Go(s, i, if s.services[h].ref == 1 then Publishing(h, false) else Storing(h)), h)
  }

  /** The store to `ctx->init`, without a reference. A store to freed memory changes no service. */
  function DoSetInit(s: State, i: nat): State
    requires InState(s, i) && s.frames[i].Storing?
  {
    var h := s.frames[i].h;
    var v := s.services[h];
    Set(Go(s, i, Publishing(h, true)), h, if v.contextFreed then v else v.(init := true))
  }

  function DoPublish(s: State, i: nat): State
    requires InState(s, i) && s.frames[i].Publishing?
  {
    var h := s.frames[i].h;
    GlobalPush(Go(s, i, if s.frames[i].kept then Logging(h) else Done), h)
  }

  /** The log line reads the context, and so does the caller to whom it is returned. */
  function DoLog(s: State, i: nat): State
    requires InState(s, i) && s.frames[i].Logging?
  {
    Go(s, i, Returned(s.frames[i].h))
  }

  function DoUseResult(s: State, i: nat): State
    requires InState(s, i) && s.frames[i].Returned?
  {
    Go(s, i, Done)
  }

  function DoInitFail(s: State, i: nat): State
    requires InState(s, i) && s.frames[i].Initializing?
  {
    var h := s.frames[i].h;
    Unref(Go(s, i, FailRetire(h)), h)
  }

  function DoRetireFailed(s: State, i: nat): State
    requires InState(s, i) && s.frames[i].FailRetire?
  {
    var h := s.frames[i].h;
    if s.services[h].registered then Set(Go(s, i, FailRelease(h)), h, s.services[h].(registered := false))
    else Go(s, i, Orphan(h))
  }

  function DoReleaseFailed(s: State, i: nat): State
    requires InState(s, i) && s.frames[i].FailRelease?
  {
    var h := s.frames[i].h;
    Unref(Go(s, i, Orphan(h)), h)
  }

  function DoGrab(s: State, i: nat): State
    requires At(s, i) && s.frames[i].Sending?
  {
    var dst := s.frames[i].dst;
    if Found(s, dst) then
      Set(Go(s, i, Grabbed(dst, s.frames[i].msg)), dst, s.services[dst].(ref := s.services[dst].ref + 1))
    else Go(s, i, Done)
  }

  /** `skynet_mq_push`: a queue that is nowhere goes onto the run queue. */
  function DoPush(s: State, i: nat): State
    requires InState(s, i) && s.frames[i].Grabbed?
  {
    var h, m := s.frames[i].h, s.frames[i].msg;
    var v := s.services[h];
    var s' := Set(Go(s, i, Holding(h)), h, v.(msgs := v.msgs + [m], pushed := v.pushed + [m], inGlobal := true));
    if v.inGlobal then s' else GlobalPush(s', h)
  }

  function DoHold(s: State, h: Handle): State
    requires Found(s, h)
  {
    Set(s.(frames := s.frames + [Holding(h)]), h, s.services[h].(ref := s.services[h].ref + 1))
  }

  function DoRelease(s: State, i: nat): State
    requires InState(s, i) && s.frames[i].Holding?
  {
    Unref(Go(s, i, Done), s.frames[i].h)
  }

  /** `skynet_handle_retire` up to its unlock: the table's reference passes to the caller. */
  function DoRetire(s: State, h: Handle): State
    requires Found(s, h)
  {
    Set(s.(frames := s.frames + [Holding(h)]), h, s.services[h].(registered := false))
  }

  function DoPopGlobal(s: State, i: nat): State
    requires At(s, i) && s.frames[i].Idle? && s.global != []
  {
    Go(s.(global := s.global[1..]), i, Has(s.global[0]))
  }

  function DoLookup(s: State, i: nat): State
    requires InState(s, i) && s.frames[i].Has?
  {
    var q := s.frames[i].q;
    if s.services[q].registered then Set(Go(s, i, Serving(q)), q, s.services[q].(ref := s.services[q].ref + 1))
    else Go(s, i, Orphan(q))
  }

  /** `skynet_mq_release`. */
  function DoReleaseQueue(s: State, i: nat): State
    requires InState(s, i) && s.frames[i].Orphan?
  {
    var q := s.frames[i].q;
    if s.services[q].release then Go(s, i, Draining(q)) else GlobalPush(Go(s, i, Idle), q)
  }

  /** One turn of `_drop_queue`, with the error reply of `drop_message`. */
  function DoDrain(s: State, i: nat): State
    requires InState(s, i) && s.frames[i].Draining?
  {
    var q := s.frames[i].q;
    var v := s.services[q];
    if v.msgs == [] then Set(Go(s, i, FreeQueue(q)), q, v.(inGlobal := false))
    else
      var s' := Set(s, q, v.(msgs := v.msgs[1..], gone := v.gone + [(v.msgs[0], Dropped)]));
      s'.(frames := s'.frames + [Sending(v.msgs[0].source, ErrorReply(q))])
  }

  function DoFree(s: State, i: nat): State
    requires InState(s, i) && s.frames[i].FreeQueue?
  {
    var q := s.frames[i].q;
    Set(Go(s, i, Idle), q, s.services[q].(queueFreed := true))
  }

  /** `skynet_mq_pop` in the dispatch loop; an empty queue leaves the worker's hands. */
  function DoServePop(s: State, i: nat, fate: Fate): State
    requires InState(s, i) && s.frames[i].Serving?
  {
    var q := s.frames[i].q;
    var v := s.services[q];
    if v.msgs == [] then Set(Go(s, i, Leaving(q, None)), q, v.(inGlobal := false))
    else Set(Go(s, i, Running(q)), q, v.(msgs := v.msgs[1..], gone := v.gone + [(v.msgs[0], fate)]))
  }

  function DoFinish(s: State, i: nat, more: bool): State
    requires InState(s, i) && s.frames[i].Running?
  {
    Go(s, i, if more then Serving(s.frames[i].q) else LoopDone(s.frames[i].q))
  }

  function DoPopNext(s: State, i: nat): State
    requires InState(s, i) && s.frames[i].LoopDone?
  {
    var q := s.frames[i].q;
    if s.global == [] then Go(s, i, Leaving(q, Some(q)))
    else Go(s.(global := s.global[1..]), i, Swapping(q, s.global[0]))
  }

  function DoPushBack(s: State, i: nat): State
    requires InState(s, i) && s.frames[i].Swapping?
  {
    var f := s.frames[i];
    GlobalPush(Go(s, i, Leaving(f.q, Some(f.nq))), f.q)
  }

  function DoLeave(s: State, i: nat): State
    requires InState(s, i) && s.frames[i].Leaving?
  {
    var f := s.frames[i];
    Unref(Go(s, i, if f.next.Some? then Has(f.next.value) else Idle), f.q)
  }

  /** `skynet_mq_mark_release`, called by `delete_context`. It does not set `in_global`. */
  function DoMarkRelease(s: State, i: nat): State
    requires InState(s, i) && s.frames[i].Deleting?
  {
    var h := s.frames[i].h;
    var v := s.services[h];
    var s' := Set(Go(s, i, Freeing(h)), h, v.(release := true));
    if v.inGlobal then s' else GlobalPush(s', h)
  }

  function DoFreeContext(s: State, i: nat): State
    requires InState(s, i) && s.frames[i].Freeing?
  {
    var h := s.frames[i].h;
    Set(Go(s, i, Done), h, s.services[h].(contextFreed := true))
  }

  function ApplyWork(s: State, i: nat, m: WorkerMove): State
    requires InState(s, i) && CanWork(s, s.frames[i], m)
  {
    match m
    case PopGlobal => DoPopGlobal(s, i)
    case Lookup => DoLookup(s, i)
    case ReleaseQueue => DoReleaseQueue(s, i)
    case Drain => DoDrain(s, i)
    case Free => DoFree(s, i)
    case ServePop(fate) => DoServePop(s, i, fate)
    case Finish(more) => DoFinish(s, i, more)
    case PopNext => DoPopNext(s, i)
    case PushBack => DoPushBack(s, i)
    case Leave => DoLeave(s, i)
  }

  function ApplyCall(s: State, i: nat, m: CallMove): State
    requires InState(s, i) && CanCall(s.frames[i], m)
  {
    match m
    case InitOk => DoInitOk(s, i)
    case SetInit => DoSetInit(s, i)
    case Publish => DoPublish(s, i)
    case Log => DoLog(s, i)
    case UseResult => DoUseResult(s, i)
    case InitFail => DoInitFail(s, i)
    case RetireFailed => DoRetireFailed(s, i)
    case ReleaseFailed => DoReleaseFailed(s, i)
    case Grab => DoGrab(s, i)
    case Push => DoPush(s, i)
    case Release => DoRelease(s, i)
    case MarkRelease => DoMarkRelease(s, i)
    case FreeContext => DoFreeContext(s, i)
  }

  function Apply(s: State, step: Step): State
    requires Enabled(s, step)
  {
    match step
    case NewService => DoNewService(s)
    case Send(dst, msg) => s.(frames := s.frames + [Sending(dst, msg)])
    case Hold(h) => DoHold(s, h)
    case Retire(h) => DoRetire(s, h)
    case StartWorker => s.(frames := s.frames + [Idle])
    case Work(i, m) => ApplyWork(s, i, m)
    case Call(i, m) => ApplyCall(s, i, m)
  }

  // ---------------------------------------------------------------------------------------------
  // The invariant
  // ---------------------------------------------------------------------------------------------

  ghost function Firsts(gone: seq<(Message, Fate)>): seq<Message> {
    if gone == [] then [] else Firsts(gone[..|gone| - 1]) + [gone[|gone| - 1].0]
  }

  /** How often each kind of claim on one handle occurs: in the run queue, and among the frames. */
  datatype Census = Census(listed: nat, owned: nat, refs: nat, marks: nat, reclaims: nat)

  ghost function CensusOf(s: State, h: Handle): Census {
    Census(multiset(s.global)[h], Tally(s.frames, Own(h)), Tally(s.frames, Ref(h)),
           Tally(s.frames, Mark(h)), Tally(s.frames, Reclaim(h)))
  }

  ghost predicate Counted(v: Service, c: Census) {
    && v.ref == c.refs + One(v.registered)
    && c.marks + One(v.release) == One(v.ref == 0)
    && c.reclaims + One(v.contextFreed) == One(v.release)
  }

  /** The queue is in as many places (run queue, or some frame's hands) as its flags say: none or one. */
  ghost predicate Placed(v: Service, c: Census) {
    && c.listed + c.owned == One(if v.release then !v.queueFreed else v.inGlobal)
    && (v.queueFreed ==> v.release && v.msgs == [])
    && (!v.release && !v.inGlobal ==> v.msgs == [])
  }

  ghost predicate Ordered(v: Service) {
    v.pushed == Firsts(v.gone) + v.msgs
  }

  ghost predicate ServiceOk(v: Service, c: Census) {
    Counted(v, c) && Placed(v, c) && Ordered(v)
  }

  ghost predicate FrameOk(s: State, f: Frame) {
    && (f.Draining? ==> Known(s, f.q) && s.services[f.q].release)
    && (f.FreeQueue? ==> Known(s, f.q) && s.services[f.q].release && s.services[f.q].msgs == [])
    && (f.Serving? || f.Running? ==> Known(s, f.q) && s.services[f.q].init)
    && (f.Logging? || f.Returned? ==> Known(s, f.h))
  }

  /** A creation that has neither raised the flag nor failed for good. */
  predicate Unready(f: Frame, h: Handle) {
    f == Initializing(h) || f == Storing(h) || f == FailRetire(h)
  }

  /** A service that can be found without its flag has its queue still in the hands of its creation. */
  ghost predicate ReadyOk(s: State, h: Handle) {
    Found(s, h) && !s.services[h].init ==> exists i :: 0 <= i < |s.frames| && Unready(s.frames[i], h)
  }

  /** Nothing claims a handle that was never given out. */
  ghost predicate HandleOk(s: State, h: Handle) {
    if h < |s.services| then ServiceOk(s.services[h], CensusOf(s, h)) else CensusOf(s, h) == Census(0, 0, 0, 0, 0)
  }

  ghost predicate Inv(s: State) {
    && (forall h :: HandleOk(s, h))
    && (forall i :: 0 <= i < |s.frames| ==> FrameOk(s, s.frames[i]))
    && (forall h :: ReadyOk(s, h))
  }

  // ---------------------------------------------------------------------------------------------
  // Counting
  // ---------------------------------------------------------------------------------------------

  lemma {:induction false} TallySet(fs: seq<Frame>, i: nat, f: Frame, c: Claim)
    requires i < |fs|
    ensures Tally(fs[i := f], c) + Holds(fs[i], c) == Tally(fs, c) + Holds(f, c)
  {
    var n := |fs| - 1;
    if i < n {
      assert fs[i := f][..n] == fs[..n][i := f];
      TallySet(fs[..n], i, f, c);
    } else {
      assert fs[i := f][..n] == fs[..n];
    }
  }

  lemma TallyAdd(fs: seq<Frame>, f: Frame, c: Claim)
    ensures Tally(fs + [f], c) == Tally(fs, c) + Holds(f, c)
  {
    assert (fs + [f])[..|fs|] == fs;
  }

  lemma {:induction false} TallyAtLeast(fs: seq<Frame>, i: nat, c: Claim)
    requires i < |fs|
    ensures Holds(fs[i], c) <= Tally(fs, c)
  {
    if i < |fs| - 1 {
      TallyAtLeast(fs[..|fs| - 1], i, c);
    }
  }

  lemma {:induction false} TallyTwo(fs: seq<Frame>, i: nat, j: nat, c: Claim)
    requires i < j < |fs|
    ensures Holds(fs[i], c) + Holds(fs[j], c) <= Tally(fs, c)
  {
    if j < |fs| - 1 {
      TallyTwo(fs[..|fs| - 1], i, j, c);
    } else {
      TallyAtLeast(fs[..|fs| - 1], i, c);
    }
  }

  /** Replacing one frame shifts the census by what the two frames hold. */
  lemma CensusGo(s: State, i: nat, f: Frame, h: Handle)
    requires At(s, i)
    ensures var c, c' := CensusOf(s, h), CensusOf(Go(s, i, f), h);
            && c'.listed == c.listed
            && c'.owned + Holds(s.frames[i], Own(h)) == c.owned + Holds(f, Own(h))
            && c'.refs + Holds(s.frames[i], Ref(h)) == c.refs + Holds(f, Ref(h))
            && c'.marks + Holds(s.frames[i], Mark(h)) == c.marks + Holds(f, Mark(h))
            && c'.reclaims + Holds(s.frames[i], Reclaim(h)) == c.reclaims + Holds(f, Reclaim(h))
    ensures var c := CensusOf(s, h);
            && Holds(s.frames[i], Own(h)) <= c.owned
            && Holds(s.frames[i], Ref(h)) <= c.refs
            && Holds(s.frames[i], Mark(h)) <= c.marks
            && Holds(s.frames[i], Reclaim(h)) <= c.reclaims
  {
    TallySet(s.frames, i, f, Own(h));
    TallySet(s.frames, i, f, Ref(h));
    TallySet(s.frames, i, f, Mark(h));
    TallySet(s.frames, i, f, Reclaim(h));
    TallyAtLeast(s.frames, i, Own(h));
    TallyAtLeast(s.frames, i, Ref(h));
    TallyAtLeast(s.frames, i, Mark(h));
    TallyAtLeast(s.frames, i, Reclaim(h));
  }

  lemma CensusAdd(s: State, f: Frame, h: Handle)
    ensures CensusOf(s.(frames := s.frames + [f]), h) ==
            var c := CensusOf(s, h);
            Census(c.listed, c.owned + Holds(f, Own(h)), c.refs + Holds(f, Ref(h)),
                   c.marks + Holds(f, Mark(h)), c.reclaims + Holds(f, Reclaim(h)))
  {
    TallyAdd(s.frames, f, Own(h));
    TallyAdd(s.frames, f, Ref(h));
    TallyAdd(s.frames, f, Mark(h));
    TallyAdd(s.frames, f, Reclaim(h));
  }

  // ---------------------------------------------------------------------------------------------
  // Every step keeps the invariant
  // ---------------------------------------------------------------------------------------------

  /** Taking the first message keeps the record in push order. */
  lemma Popped(v: Service, fate: Fate)
    requires v.msgs != [] && Ordered(v)
    ensures Ordered(v.(msgs := v.msgs[1..], gone := v.gone + [(v.msgs[0], fate)]))
  {
    var gone' := v.gone + [(v.msgs[0], fate)];
    assert gone'[..|gone'| - 1] == v.gone;
    assert v.msgs == [v.msgs[0]] + v.msgs[1..];
  }

  /** All is well except that a reference to `h` has been given up and not yet counted off. */
  ghost predicate Owes(s: State, h: Handle, k: Handle) {
    if k == h then
      Known(s, h) && var c := CensusOf(s, h); ServiceOk(s.services[h], c.(refs := c.refs + 1))
    else HandleOk(s, k)
  }

  lemma UnrefAt(s: State, h: Handle, k: Handle)
    requires Known(s, h) && Owes(s, h, k)
    ensures HandleOk(Unref(s, h), k)
  {
    hide Tally, Firsts;
    CensusAdd(s, Deleting(h), k);
  }

  lemma NewServiceAt(s: State, k: Handle)
    requires HandleOk(s, k)
    ensures HandleOk(DoNewService(s), k)
  {
    hide Tally;
    CensusAdd(s, Initializing(|s.services|), k);
  }

  lemma InitOkAt(s: State, i: nat, k: Handle)
    requires InState(s, i) && s.frames[i].Initializing? && HandleOk(s, k)
    ensures HandleOk(DoInitOk(s, i), k)
  {
    hide Tally, Firsts;
    var h := s.frames[i].h;
    var f := if s.services[h].ref == 1 then Publishing(h, false) else Storing(h);
    CensusGo(s, i, f, k);
    UnrefAt(Go(s, i, f), h, k);
  }

  lemma SetInitAt(s: State, i: nat, k: Handle)
    requires InState(s, i) && s.frames[i].Storing? && HandleOk(s, k)
    ensures HandleOk(DoSetInit(s, i), k)
  {
    hide Tally, Firsts;
    CensusGo(s, i, Publishing(s.frames[i].h, true), k);
  }

  lemma PublishAt(s: State, i: nat, k: Handle)
    requires InState(s, i) && s.frames[i].Publishing? && HandleOk(s, k)
    ensures HandleOk(DoPublish(s, i), k)
  {
    hide Tally, Firsts, CensusOf;
    var f := if s.frames[i].kept then Logging(s.frames[i].h) else Done;
    CensusGo(s, i, f, k);
    CensusPush(Go(s, i, f), s.frames[i].h, k);
  }

  lemma LogAt(s: State, i: nat, k: Handle)
    requires InState(s, i) && s.frames[i].Logging? && HandleOk(s, k)
    ensures HandleOk(DoLog(s, i), k)
  {
    hide Tally, Firsts;
    CensusGo(s, i, Returned(s.frames[i].h), k);
  }

  lemma UseResultAt(s: State, i: nat, k: Handle)
    requires InState(s, i) && s.frames[i].Returned? && HandleOk(s, k)
    ensures HandleOk(DoUseResult(s, i), k)
  {
    hide Tally, Firsts;
    CensusGo(s, i, Done, k);
  }

  lemma InitFailAt(s: State, i: nat, k: Handle)
    requires InState(s, i) && s.frames[i].Initializing? && HandleOk(s, k)
    ensures HandleOk(DoInitFail(s, i), k)
  {
    hide Tally, Firsts;
    var h := s.frames[i].h;
    CensusGo(s, i, FailRetire(h), k);
    UnrefAt(Go(s, i, FailRetire(h)), h, k);
  }

  lemma RetireFailedAt(s: State, i: nat, k: Handle)
    requires InState(s, i) && s.frames[i].FailRetire? && HandleOk(s, k)
    ensures HandleOk(DoRetireFailed(s, i), k)
  {
    hide Tally, Firsts;
    var h := s.frames[i].h;
    CensusGo(s, i, FailRelease(h), k);
    CensusGo(s, i, Orphan(h), k);
  }

  lemma ReleaseFailedAt(s: State, i: nat, k: Handle)
    requires InState(s, i) && s.frames[i].FailRelease? && HandleOk(s, k)
    ensures HandleOk(DoReleaseFailed(s, i), k)
  {
    hide Tally, Firsts;
    var h := s.frames[i].h;
    CensusGo(s, i, Orphan(h), k);
    UnrefAt(Go(s, i, Orphan(h)), h, k);
  }

  lemma GrabAt(s: State, i: nat, k: Handle)
    requires At(s, i) && s.frames[i].Sending? && HandleOk(s, k)
    ensures HandleOk(DoGrab(s, i), k)
  {
    hide Tally, Firsts;
    CensusGo(s, i, Grabbed(s.frames[i].dst, s.frames[i].msg), k);
    CensusGo(s, i, Done, k);
  }

  lemma PushAt(s: State, i: nat, k: Handle)
    requires InState(s, i) && s.frames[i].Grabbed? && HandleOk(s, k)
    ensures HandleOk(DoPush(s, i), k)
  {
    hide Tally, Firsts, CensusOf;
    var h := s.frames[i].h;
    var s1 := Go(s, i, Holding(h));
    CensusGo(s, i, Holding(h), k);
    CensusPush(s1, h, k);
    CensusServices(s1, DoPush(s, i).services, k);
    CensusServices(GlobalPush(s1, h), DoPush(s, i).services, k);
  }

  lemma HoldAt(s: State, h: Handle, k: Handle)
    requires Found(s, h) && HandleOk(s, k)
    ensures HandleOk(DoHold(s, h), k)
  {
    hide Tally, Firsts;
    CensusAdd(s, Holding(h), k);
  }

  lemma ReleaseAt(s: State, i: nat, k: Handle)
    requires InState(s, i) && s.frames[i].Holding? && HandleOk(s, k)
    ensures HandleOk(DoRelease(s, i), k)
  {
    hide Tally, Firsts;
    CensusGo(s, i, Done, k);
    UnrefAt(Go(s, i, Done), s.frames[i].h, k);
  }

  lemma RetireAt(s: State, h: Handle, k: Handle)
    requires Found(s, h) && HandleOk(s, k)
    ensures HandleOk(DoRetire(s, h), k)
  {
    hide Tally, Firsts;
    CensusAdd(s, Holding(h), k);
  }

  lemma PopGlobalAt(s: State, i: nat, k: Handle)
    requires At(s, i) && s.frames[i].Idle? && s.global != [] && HandleOk(s, k)
    ensures HandleOk(DoPopGlobal(s, i), k)
  {
    hide Tally, Firsts;
    CensusGo(s.(global := s.global[1..]), i, Has(s.global[0]), k);
    assert s.global == [s.global[0]] + s.global[1..];
  }

  lemma LookupAt(s: State, i: nat, k: Handle)
    requires InState(s, i) && s.frames[i].Has? && HandleOk(s, k)
    ensures HandleOk(DoLookup(s, i), k)
  {
    hide Tally, Firsts;
    CensusGo(s, i, Serving(s.frames[i].q), k);
    CensusGo(s, i, Orphan(s.frames[i].q), k);
  }

  lemma ReleaseQueueAt(s: State, i: nat, k: Handle)
    requires InState(s, i) && s.frames[i].Orphan? && HandleOk(s, k)
    ensures HandleOk(DoReleaseQueue(s, i), k)
  {
    hide Tally, Firsts;
    CensusGo(s, i, Draining(s.frames[i].q), k);
    CensusGo(s, i, Idle, k);
  }

  lemma DrainAt(s: State, i: nat, k: Handle)
    requires InState(s, i) && s.frames[i].Draining? && HandleOk(s, k) && FrameOk(s, s.frames[i])
    ensures HandleOk(DoDrain(s, i), k)
  {
    hide Tally, Firsts;
    var q := s.frames[i].q;
    CensusGo(s, i, FreeQueue(q), k);
    if s.services[q].msgs != [] {
      var m := s.services[q].msgs[0];
      CensusAdd(s, Sending(m.source, ErrorReply(q)), k);
      if k == q {
        Popped(s.services[q], Dropped);
      }
    }
  }

  lemma FreeAt(s: State, i: nat, k: Handle)
    requires InState(s, i) && s.frames[i].FreeQueue? && HandleOk(s, k) && FrameOk(s, s.frames[i])
    ensures HandleOk(DoFree(s, i), k)
  {
    hide Tally, Firsts;
    CensusGo(s, i, Idle, k);
  }

  lemma ServePopAt(s: State, i: nat, fate: Fate, k: Handle)
    requires InState(s, i) && s.frames[i].Serving? && HandleOk(s, k)
    ensures HandleOk(DoServePop(s, i, fate), k)
  {
    hide Tally, Firsts;
    var q := s.frames[i].q;
    CensusGo(s, i, Leaving(q, None), k);
    CensusGo(s, i, Running(q), k);
    if k == q && s.services[q].msgs != [] {
      Popped(s.services[q], fate);
    }
  }

  lemma FinishAt(s: State, i: nat, more: bool, k: Handle)
    requires InState(s, i) && s.frames[i].Running? && HandleOk(s, k)
    ensures HandleOk(DoFinish(s, i, more), k)
  {
    hide Tally, Firsts;
    CensusGo(s, i, if more then Serving(s.frames[i].q) else LoopDone(s.frames[i].q), k);
  }

  lemma PopNextAt(s: State, i: nat, k: Handle)
    requires InState(s, i) && s.frames[i].LoopDone? && HandleOk(s, k)
    ensures HandleOk(DoPopNext(s, i), k)
  {
    hide Tally, Firsts, CensusOf;
    var q := s.frames[i].q;
    if s.global == [] {
      CensusGo(s, i, Leaving(q, Some(q)), k);
    } else {
      CensusPop(s, k);
      CensusGo(s.(global := s.global[1..]), i, Swapping(q, s.global[0]), k);
    }
  }

  lemma PushBackAt(s: State, i: nat, k: Handle)
    requires InState(s, i) && s.frames[i].Swapping? && HandleOk(s, k)
    ensures HandleOk(DoPushBack(s, i), k)
  {
    hide Tally, Firsts;
    CensusGo(s, i, Leaving(s.frames[i].q, Some(s.frames[i].nq)), k);
  }

  lemma LeaveAt(s: State, i: nat, k: Handle)
    requires InState(s, i) && s.frames[i].Leaving? && HandleOk(s, k)
    ensures HandleOk(DoLeave(s, i), k)
  {
    hide Tally, Firsts;
    var f := s.frames[i];
    var g := if f.next.Some? then Has(f.next.value) else Idle;
    CensusGo(s, i, g, k);
    UnrefAt(Go(s, i, g), f.q, k);
  }

  lemma MarkReleaseAt(s: State, i: nat, k: Handle)
    requires InState(s, i) && s.frames[i].Deleting? && HandleOk(s, k)
    ensures HandleOk(DoMarkRelease(s, i), k)
  {
    hide Tally, Firsts, CensusOf;
    var h := s.frames[i].h;
    var s1 := Go(s, i, Freeing(h));
    CensusGo(s, i, Freeing(h), k);
    CensusPush(s1, h, k);
    CensusServices(s1, DoMarkRelease(s, i).services, k);
    CensusServices(GlobalPush(s1, h), DoMarkRelease(s, i).services, k);
  }

  /** What a queue put onto the run queue does to the census. */
  lemma CensusPush(s: State, h: Handle, k: Handle)
    ensures CensusOf(GlobalPush(s, h), k) == var c := CensusOf(s, k); c.(listed := c.listed + One(h == k))
  {
    assert multiset(s.global + [h]) == multiset(s.global) + multiset{h};
  }

  /** And the first of it taken off. */
  lemma CensusPop(s: State, k: Handle)
    requires s.global != []
    ensures CensusOf(s, k).listed >= One(s.global[0] == k)
    ensures CensusOf(s.(global := s.global[1..]), k) ==
            var c := CensusOf(s, k); c.(listed := c.listed - One(s.global[0] == k))
  {
    assert s.global == [s.global[0]] + s.global[1..];
  }

  lemma CensusServices(s: State, vs: seq<Service>, k: Handle)
    ensures CensusOf(s.(services := vs), k) == CensusOf(s, k)
  {
  }

  lemma FreeContextAt(s: State, i: nat, k: Handle)
    requires InState(s, i) && s.frames[i].Freeing? && HandleOk(s, k)
    ensures HandleOk(DoFreeContext(s, i), k)
  {
    hide Tally, Firsts;
    CensusGo(s, i, Done, k);
  }

  lemma WorkAt(s: State, i: nat, m: WorkerMove, k: Handle)
    requires InState(s, i) && CanWork(s, s.frames[i], m) && HandleOk(s, k) && FrameOk(s, s.frames[i])
    ensures HandleOk(ApplyWork(s, i, m), k)
  {
    hide HandleOk, FrameOk;
    match m
    case PopGlobal => PopGlobalAt(s, i, k);
    case Lookup => LookupAt(s, i, k);
    case ReleaseQueue => ReleaseQueueAt(s, i, k);
    case Drain => DrainAt(s, i, k);
    case Free => FreeAt(s, i, k);
    case ServePop(fate) => ServePopAt(s, i, fate, k);
    case Finish(more) => FinishAt(s, i, more, k);
    case PopNext => PopNextAt(s, i, k);
    case PushBack => PushBackAt(s, i, k);
    case Leave => LeaveAt(s, i, k);
  }

  lemma CallAt(s: State, i: nat, m: CallMove, k: Handle)
    requires InState(s, i) && CanCall(s.frames[i], m) && HandleOk(s, k)
    ensures HandleOk(ApplyCall(s, i, m), k)
  {
    hide HandleOk;
    match m
    case InitOk => InitOkAt(s, i, k);
    case SetInit => SetInitAt(s, i, k);
    case Publish => PublishAt(s, i, k);
    case Log => LogAt(s, i, k);
    case UseResult => UseResultAt(s, i, k);
    case InitFail => InitFailAt(s, i, k);
    case RetireFailed => RetireFailedAt(s, i, k);
    case ReleaseFailed => ReleaseFailedAt(s, i, k);
    case Grab => GrabAt(s, i, k);
    case Push => PushAt(s, i, k);
    case Release => ReleaseAt(s, i, k);
    case MarkRelease => MarkReleaseAt(s, i, k);
    case FreeContext => FreeContextAt(s, i, k);
  }

  lemma StepAt(s: State, step: Step, k: Handle)
    requires Inv(s) && Enabled(s, step)
    ensures HandleOk(Apply(s, step), k)
  {
    hide HandleOk, FrameOk;
    match step
    case NewService => NewServiceAt(s, k);
    case Send(dst, msg) => SpawnAt(s, Sending(dst, msg), k);
    case Hold(h) => HoldAt(s, h, k);
    case Retire(h) => RetireAt(s, h, k);
    case StartWorker => SpawnAt(s, Idle, k);
    case Work(i, m) => WorkAt(s, i, m, k);
    case Call(i, m) => CallAt(s, i, m, k);
  }

  lemma SpawnAt(s: State, f: Frame, k: Handle)
    requires (f.Idle? || f.Sending?) && HandleOk(s, k)
    ensures HandleOk(s.(frames := s.frames + [f]), k)
  {
    hide Tally;
    CensusAdd(s, f, k);
  }

  // ---------------------------------------------------------------------------------------------

  /** A released queue stays released, and stays empty once it is. The flag of a context stays up. */
  ghost predicate Advances(v: Service, v': Service) {
    && (v.release ==> v'.release) && (v.init ==> v'.init)
    && (v.release && v.msgs == [] ==> v'.msgs == [])
  }

  /** What any step leaves of the services and frames that were there. */
  ghost predicate Extends(s: State, s': State) {
    && |s.services| <= |s'.services|
    && (forall h :: 0 <= h < |s.services| ==> Advances(s.services[h], s'.services[h]))
    && (forall j :: 0 <= j < |s'.frames| ==>
          (j < |s.frames| && s'.frames[j] == s.frames[j]) || FrameOk(s', s'.frames[j]))
  }

  lemma ExtendsKeeps(s: State, s': State)
    requires Inv(s) && Extends(s, s')
    ensures forall j :: 0 <= j < |s'.frames| ==> FrameOk(s', s'.frames[j])
  {
    hide HandleOk;
  }

  lemma PushExtends(s: State, i: nat)
    requires InState(s, i) && s.frames[i].Grabbed? && HandleOk(s, s.frames[i].h)
    ensures Extends(s, DoPush(s, i))
  {
    CensusGo(s, i, Done, s.frames[i].h);
  }

  lemma UnrefExtends(s: State, i: nat, m: CallMove)
    requires InState(s, i) && CanCall(s.frames[i], m)
    requires m.InitOk? || m.InitFail? || m.ReleaseFailed? || m.Release?
    ensures Extends(s, ApplyCall(s, i, m))
  {
    hide Extends, Unref;
    var h := s.frames[i].h;
    match m
    case InitOk => GoUnref(s, i, if s.services[h].ref == 1 then Publishing(h, false) else Storing(h), h);
    case InitFail => GoUnref(s, i, FailRetire(h), h);
    case ReleaseFailed => GoUnref(s, i, Orphan(h), h);
    case Release => GoUnref(s, i, Done, h);
  }

  lemma GoUnref(s: State, i: nat, f: Frame, h: Handle)
    requires At(s, i) && Known(s, h)
    requires !f.Draining? && !f.FreeQueue? && !f.Serving? && !f.Running? && !f.Logging? && !f.Returned?
    ensures Extends(s, Unref(Go(s, i, f), h))
  {
  }

  lemma CallExtends(s: State, i: nat, m: CallMove)
    requires InState(s, i) && CanCall(s.frames[i], m) && Inv(s)
    ensures Extends(s, ApplyCall(s, i, m))
  {
    hide ReadyOk, HandleOk, Extends, DoPush, DoSetInit, DoMarkRelease, DoFreeContext, DoRetireFailed, DoGrab, DoPublish;
    if m.Push? {
      assert HandleOk(s, s.frames[i].h);
      PushExtends(s, i);
    } else if m.InitOk? || m.InitFail? || m.ReleaseFailed? || m.Release? {
      UnrefExtends(s, i, m);
    } else if m.SetInit? || m.Publish? || m.Log? || m.UseResult? {
      CreationExtends(s, i, m);
    } else {
      OtherExtends(s, i, m);
    }
  }

  lemma CreationExtends(s: State, i: nat, m: CallMove)
    requires InState(s, i) && CanCall(s.frames[i], m)
    requires m.SetInit? || m.Publish? || m.Log? || m.UseResult?
    ensures Extends(s, ApplyCall(s, i, m))
  {
  }

  lemma OtherExtends(s: State, i: nat, m: CallMove)
    requires InState(s, i) && CanCall(s.frames[i], m)
    requires m.RetireFailed? || m.Grab? || m.MarkRelease? || m.FreeContext?
    ensures Extends(s, ApplyCall(s, i, m))
  {
  }

  lemma WorkExtends(s: State, i: nat, m: WorkerMove)
    requires InState(s, i) && CanWork(s, s.frames[i], m) && Inv(s)
    ensures Extends(s, ApplyWork(s, i, m))
  {
    hide HandleOk, ReadyOk, Extends, FrameOk, DoLookup, DoDrain, DoFree, DoServePop, DoLeave, DoPopGlobal, DoReleaseQueue,
      DoFinish, DoPopNext, DoPushBack;
    assert FrameOk(s, s.frames[i]);
    match m
    case Lookup =>
      LookupReady(s, i);
      LookupExtends(s, i);
    case Drain => DrainExtends(s, i);
    case Free => FreeExtends(s, i);
    case ServePop(fate) => ServePopExtends(s, i, fate);
    case Leave => LeaveExtends(s, i);
    case _ => MoveExtends(s, i, m);
  }

  lemma LookupExtends(s: State, i: nat)
    requires InState(s, i) && s.frames[i].Has?
    requires s.services[s.frames[i].q].registered ==> s.services[s.frames[i].q].init
    ensures Extends(s, DoLookup(s, i))
  {
  }

  lemma DrainExtends(s: State, i: nat)
    requires InState(s, i) && s.frames[i].Draining? && FrameOk(s, s.frames[i])
    ensures Extends(s, DoDrain(s, i))
  {
  }

  lemma FreeExtends(s: State, i: nat)
    requires InState(s, i) && s.frames[i].FreeQueue?
    ensures Extends(s, DoFree(s, i))
  {
  }

  lemma ServePopExtends(s: State, i: nat, fate: Fate)
    requires InState(s, i) && s.frames[i].Serving? && FrameOk(s, s.frames[i])
    ensures Extends(s, DoServePop(s, i, fate))
  {
  }

  lemma LeaveExtends(s: State, i: nat)
    requires InState(s, i) && s.frames[i].Leaving?
    ensures Extends(s, DoLeave(s, i))
  {
    hide Extends, Unref;
    var f := s.frames[i];
    GoUnref(s, i, if f.next.Some? then Has(f.next.value) else Idle, f.q);
  }

  lemma MoveExtends(s: State, i: nat, m: WorkerMove)
    requires InState(s, i) && CanWork(s, s.frames[i], m) && FrameOk(s, s.frames[i])
    requires m.PopGlobal? || m.ReleaseQueue? || m.Finish? || m.PopNext? || m.PushBack?
    ensures Extends(s, ApplyWork(s, i, m))
  {
  }

  /** A worker that finds the context of its queue finds its flag up: while the creation is not ready it has the queue
      in its own hands. */
  lemma LookupReady(s: State, i: nat)
    requires Inv(s) && InState(s, i) && s.frames[i].Has?
    ensures s.services[s.frames[i].q].registered ==> s.services[s.frames[i].q].init
  {
    hide HandleOk, FrameOk;
    var q := s.frames[i].q;
    assert ReadyOk(s, q);
    if s.services[q].registered && !s.services[q].init {
      var j :| 0 <= j < |s.frames| && Unready(s.frames[j], q);
      assert Holds(s.frames[j], Own(q)) == 1;
      if i < j {
        OneWorker(s, i, j, q);
      } else {
        OneWorker(s, j, i, q);
      }
    }
  }

  lemma StepReady(s: State, step: Step, h: Handle)
    requires Inv(s) && Enabled(s, step)
    ensures ReadyOk(Apply(s, step), h)
  {
    hide HandleOk, FrameOk, ApplyWork, ApplyCall;
    var s' := Apply(s, step);
    assert ReadyOk(s, h);
    if h == |s.services| && step.NewService? {
      assert s'.frames[|s.frames|] == Initializing(h);
    } else if Known(s, h) {
      StepGrows(s, step, h);
      if Found(s', h) && !s'.services[h].init {
        var i :| 0 <= i < |s.frames| && Unready(s.frames[i], h);
        StaysUnready(s, step, i, h);
      }
    } else {
      StillUnknown(s, step, h);
    }
  }

  lemma StillUnknown(s: State, step: Step, h: Handle)
    requires Enabled(s, step) && !Known(s, h) && !(step.NewService? && h == |s.services|)
    ensures !Known(Apply(s, step), h)
  {
  }

  /** A creation gets ready only by raising the flag, or when its handle can no longer be found. */
  lemma StaysUnready(s: State, step: Step, i: nat, h: Handle)
    requires Inv(s) && Enabled(s, step) && At(s, i) && Unready(s.frames[i], h) && Known(s, h)
    requires Known(Apply(s, step), h) && Apply(s, step).services[h].registered && !Apply(s, step).services[h].init
    ensures At(Apply(s, step), i) && Unready(Apply(s, step).frames[i], h)
  {
    hide HandleOk, FrameOk, ReadyOk, ApplyWork, ApplyCall;
    match step
    case NewService =>
    case Send(_, _) =>
    case Hold(_) =>
    case Retire(_) =>
    case StartWorker =>
    case Work(j, m) => WorkLeaves(s, j, m, i);
    case Call(j, m) =>
      if i != j {
        CallLeaves(s, j, m, i);
      } else {
        CreationUnready(s, i, m, h);
      }
  }

  lemma CreationUnready(s: State, i: nat, m: CallMove, h: Handle)
    requires Inv(s) && InState(s, i) && CanCall(s.frames[i], m) && Unready(s.frames[i], h)
    requires ApplyCall(s, i, m).services[h].registered && !ApplyCall(s, i, m).services[h].init
    ensures At(ApplyCall(s, i, m), i) && Unready(ApplyCall(s, i, m).frames[i], h)
  {
    hide FrameOk, ReadyOk, Tally, Firsts;
    assert HandleOk(s, h);
    CensusGo(s, i, Done, h);
  }

  /** Every step from a good state leads to a good state. */
  lemma StepKeeps(s: State, step: Step)
    requires Inv(s) && Enabled(s, step)
    ensures Inv(Apply(s, step))
  {
    hide HandleOk, FrameOk, ReadyOk, ApplyWork, ApplyCall;
    forall k ensures HandleOk(Apply(s, step), k) {
      StepAt(s, step, k);
    }
    if step.Work? {
      WorkExtends(s, step.i, step.work);
    } else if step.Call? {
      CallExtends(s, step.i, step.call);
    } else {
      SpawnExtends(s, step);
    }
    ExtendsKeeps(s, Apply(s, step));
    forall h ensures ReadyOk(Apply(s, step), h) {
      StepReady(s, step, h);
    }
  }

  lemma SpawnExtends(s: State, step: Step)
    requires Inv(s) && Enabled(s, step) && !step.Work? && !step.Call?
    ensures Extends(s, Apply(s, step))
  {
    hide HandleOk;
  }

  // ---------------------------------------------------------------------------------------------
  // Runs
  // ---------------------------------------------------------------------------------------------

  /** Handle 0 is reserved: a service that is gone from the start. */
  const RESERVED := Service(false, 0, true, false, [], false, true, true, [], [])

  const START := State([RESERVED], [], [])

  ghost predicate IsRun(states: seq<State>, steps: seq<Step>) {
    && |states| == |steps| + 1
    && states[0] == START
    && forall n :: 0 <= n < |steps| ==> Enabled(states[n], steps[n]) && states[n + 1] == Apply(states[n], steps[n])
  }

  lemma StartOk()
    ensures Inv(START)
  {
    hide HandleOk;
    forall h ensures HandleOk(START, h) {
      StartAt(h);
    }
    assert forall h :: ReadyOk(START, h);
  }

  lemma StartAt(h: Handle)
    ensures HandleOk(START, h)
  {
    EmptyAt(START, h);
  }

  lemma EmptyAt(s: State, h: Handle)
    requires s.services == [RESERVED] && s.global == [] && s.frames == []
    ensures HandleOk(s, h)
  {
    var c := CensusOf(s, h);
    NotListed(s.global, h);
    assert c == Census(0, 0, 0, 0, 0);
    if h == 0 {
      ReservedOk(s.services[0], c);
    }
  }

  /** A service whose context and queue are both gone, and which nothing claims. */
  lemma ReservedOk(v: Service, c: Census)
    requires v.ref == 0 && !v.registered && v.contextFreed && v.release && v.queueFreed
    requires v.msgs == [] && v.gone == [] && v.pushed == [] && c == Census(0, 0, 0, 0, 0)
    ensures ServiceOk(v, c)
  {
    assert Firsts(v.gone) == [];
    assert Firsts(v.gone) + v.msgs == [];
  }

  lemma NotListed(global: seq<Handle>, h: Handle)
    requires h !in global
    ensures multiset(global)[h] == 0
  {
  }

  /** The invariant holds in every state of every run. */
  lemma {:induction false} RunKeeps(states: seq<State>, steps: seq<Step>, n: nat)
    requires IsRun(states, steps) && n < |states|
    ensures Inv(states[n])
  {
    hide Inv, Apply, Enabled;
    if n == 0 {
      StartOk();
    } else {
      RunKeeps(states, steps, n - 1);
      StepKeeps(states[n - 1], steps[n - 1]);
    }
  }

  // ---------------------------------------------------------------------------------------------
  // What the invariant gives
  // ---------------------------------------------------------------------------------------------

  /** At most one frame has the queue of a service in its hands, so no two workers dispatch it at once. */
  lemma OneWorker(s: State, i: nat, j: nat, q: Handle)
    requires Inv(s) && i < j < |s.frames|
    ensures Holds(s.frames[i], Own(q)) == 0 || Holds(s.frames[j], Own(q)) == 0
  {
    assert HandleOk(s, q);
    TallyTwo(s.frames, i, j, Own(q));
  }

  /** Messages waiting in a live service are never forgotten: its queue is in the run queue, once, or in
      the hands of exactly one frame. */
  lemma NoLostWakeup(s: State, h: Handle)
    requires Inv(s) && Known(s, h) && !s.services[h].release && s.services[h].msgs != []
    ensures multiset(s.global)[h] + Tally(s.frames, Own(h)) == 1
    ensures h in s.global || exists i :: 0 <= i < |s.frames| && Holds(s.frames[i], Own(h)) == 1
  {
    assert HandleOk(s, h);
    if h !in s.global {
      var i := TallyWitness(s.frames, Own(h));
      TallyAtLeast(s.frames, i, Own(h));
    }
  }

  lemma {:induction false} TallyWitness(fs: seq<Frame>, c: Claim) returns (i: nat)
    requires Tally(fs, c) > 0
    ensures i < |fs| && Holds(fs[i], c) > 0
  {
    if Holds(fs[|fs| - 1], c) > 0 {
      i := |fs| - 1;
    } else {
      i := TallyWitness(fs[..|fs| - 1], c);
    }
  }

  /** A frame never names an unknown handle, so `Enabled` rules out no real move. */
  lemma FrameKnown(s: State, i: nat)
    requires Inv(s) && At(s, i)
    ensures s.frames[i].Done? || InState(s, i)
  {
    var f := s.frames[i];
    if !f.Done? && !f.Idle? && !f.Sending? {
      var h := FrameHandle(f);
      assert HandleOk(s, h);
      CensusGo(s, i, Done, h);
    }
  }

  /** A queue that has been freed has lost its context for good, and every message ever pushed to it has
      left it exactly once, in push order. */
  lemma FreedQueue(s: State, h: Handle)
    requires Inv(s) && Known(s, h) && s.services[h].queueFreed
    ensures s.services[h].ref == 0 && !s.services[h].registered && s.services[h].release
    ensures h !in s.global && forall i :: 0 <= i < |s.frames| ==>
              Holds(s.frames[i], Own(h)) == 0 && Holds(s.frames[i], Ref(h)) == 0
    ensures Firsts(s.services[h].gone) == s.services[h].pushed
  {
    assert HandleOk(s, h);
    forall i | 0 <= i < |s.frames|
      ensures Holds(s.frames[i], Own(h)) == 0 && Holds(s.frames[i], Ref(h)) == 0
    {
      CensusGo(s, i, Done, h);
    }
  }

  ghost predicate QueueLive(s: State, h: Handle) {
    Known(s, h) && !s.services[h].queueFreed
  }

  ghost predicate ContextLive(s: State, h: Handle) {
    Known(s, h) && !s.services[h].contextFreed && s.services[h].ref > 0
  }

  /** The precondition of `skynet_globalmq_push`: a queue in the run queue would have a `next`. */
  ghost predicate CanList(s: State, h: Handle) {
    QueueLive(s, h) && h !in s.global
  }

  /** What the code takes for granted at a worker's move: the assertions, and that no freed memory is used. */
  ghost predicate WorkSafe(s: State, f: Frame, m: WorkerMove) {
    match m
    case PopGlobal => s.global != [] && QueueLive(s, s.global[0])
    case Lookup => f.Has? && QueueLive(s, f.q) && (Found(s, f.q) ==> ContextLive(s, f.q))
    case ReleaseQueue => f.Orphan? && QueueLive(s, f.q) && (!s.services[f.q].release ==> CanList(s, f.q))
    case Drain => f.Draining? && QueueLive(s, f.q) && s.services[f.q].ref == 0
    case Free => f.FreeQueue? && CanList(s, f.q) && s.services[f.q].ref == 0 && Tally(s.frames, Own(f.q)) == 1
    case ServePop(_) => f.Serving? && QueueLive(s, f.q) && ContextLive(s, f.q) && s.services[f.q].init
    case Finish(_) => f.Running? && ContextLive(s, f.q)
    case PopNext => f.LoopDone? && QueueLive(s, f.q) && ContextLive(s, f.q) &&
                    (s.global != [] ==> QueueLive(s, s.global[0]) && s.global[0] != f.q)
    case PushBack => f.Swapping? && CanList(s, f.q) && f.nq != f.q
    case Leave => f.Leaving? && ContextLive(s, f.q)
  }

  ghost predicate CallSafe(s: State, f: Frame, m: CallMove) {
    match m
    case InitOk => f.Initializing? && ContextLive(s, f.h)
    case SetInit => f.Storing? && ContextLive(s, f.h)
    case Publish => f.Publishing? && CanList(s, f.h)
    case Log => f.Logging? && ContextLive(s, f.h)
    case UseResult => f.Returned? && ContextLive(s, f.h)
    case InitFail => f.Initializing? && ContextLive(s, f.h)
    case RetireFailed => f.FailRetire? && QueueLive(s, f.h)
    case ReleaseFailed => f.FailRelease? && ContextLive(s, f.h)
    case Grab => f.Sending? && (Found(s, f.dst) ==> ContextLive(s, f.dst))
    case Push => f.Grabbed? && ContextLive(s, f.h) && QueueLive(s, f.h) && (!s.services[f.h].inGlobal ==> CanList(s, f.h))
    case Release => f.Holding? && ContextLive(s, f.h)
    case MarkRelease => f.Deleting? && QueueLive(s, f.h) && !s.services[f.h].release && !s.services[f.h].contextFreed &&
                        (!s.services[f.h].inGlobal ==> CanList(s, f.h))
    case FreeContext => f.Freeing? && Known(s, f.h) && !s.services[f.h].contextFreed && s.services[f.h].ref == 0
  }

  ghost predicate Safe(s: State, step: Step)
    requires Enabled(s, step)
  {
    match step
    case NewService => true
    case Send(_, _) => true
    case Hold(h) => ContextLive(s, h)
    case Retire(h) => ContextLive(s, h)
    case StartWorker => true
    case Work(i, m) => WorkSafe(s, s.frames[i], m)
    case Call(i, m) => CallSafe(s, s.frames[i], m)
  }

  /** The moves in which a creation uses the context after it has given up its reference. */
  predicate Touches(m: CallMove) {
    m.SetInit? || m.Log? || m.UseResult?
  }

  /** Such a move once the handle has been retired and no frame holds a reference. */
  ghost predicate Late(s: State, step: Step)
    requires Enabled(s, step)
  {
    step.Call? && Touches(step.call) &&
    var h := FrameHandle(s.frames[step.i]);
    !s.services[h].registered && Tally(s.frames, Ref(h)) == 0
  }

  /** At every step of every run the assertions of the code hold and nothing is used after it is freed or freed twice,
      with one exception: a creation that goes on using its context when nothing keeps that alive any more. */
  lemma StepSafe(s: State, step: Step)
    requires Inv(s) && Enabled(s, step)
    ensures Safe(s, step) <==> !Late(s, step)
  {
    hide ReadyOk, FrameOk;
    match step
    case NewService =>
    case Send(_, _) =>
    case Hold(h) => assert HandleOk(s, h);
    case Retire(h) => assert HandleOk(s, h);
    case StartWorker =>
    case Work(i, m) => WorkerSafe(s, i, m);
    case Call(i, m) =>
      if Touches(m) {
        TouchSafe(s, FrameHandle(s.frames[i]));
      } else {
        CallerSafe(s, i, m);
      }
  }

  /** A context is alive exactly as long as its handle is in the table or some frame holds a reference, and its memory
      exactly until the deletion that follows is through. */
  lemma TouchSafe(s: State, h: Handle)
    requires Inv(s) && Known(s, h)
    ensures ContextLive(s, h) <==> s.services[h].registered || Tally(s.frames, Ref(h)) > 0
    ensures s.services[h].contextFreed <==>
              !s.services[h].registered && Tally(s.frames, Ref(h)) == Tally(s.frames, Mark(h)) == Tally(s.frames, Reclaim(h)) == 0
  {
    assert HandleOk(s, h);
  }

  lemma ListedLive(s: State)
    requires Inv(s) && s.global != []
    ensures QueueLive(s, s.global[0]) && Tally(s.frames, Own(s.global[0])) == 0
  {
    assert HandleOk(s, s.global[0]);
    assert s.global[0] in multiset(s.global);
  }

  lemma WorkerSafe(s: State, i: nat, m: WorkerMove)
    requires Inv(s) && InState(s, i) && CanWork(s, s.frames[i], m)
    ensures WorkSafe(s, s.frames[i], m)
  {
    hide Tally, Firsts;
    var f := s.frames[i];
    var h := FrameHandle(f);
    assert HandleOk(s, h);
    assert FrameOk(s, f);
    CensusGo(s, i, Done, h);
    if s.global != [] {
      ListedLive(s);
    }
    if f.Swapping? {
      assert HandleOk(s, f.nq);
      CensusGo(s, i, Done, f.nq);
    }
  }

  lemma CallerSafe(s: State, i: nat, m: CallMove)
    requires Inv(s) && InState(s, i) && CanCall(s.frames[i], m) && !Touches(m)
    ensures CallSafe(s, s.frames[i], m)
  {
    hide Tally, Firsts;
    var f := s.frames[i];
    if f.Sending? {
      assert HandleOk(s, f.dst);
    } else {
      var h := FrameHandle(f);
      assert HandleOk(s, h);
      CensusGo(s, i, Done, h);
    }
  }

  /** Nothing that a run has done is undone: messages stay pushed, what has left stays gone, and freed
      memory stays freed. */
  ghost predicate Grows(v: Service, v': Service) {
    && v.pushed <= v'.pushed && v.gone <= v'.gone
    && (v.release ==> v'.release) && (v.queueFreed ==> v'.queueFreed) && (v.contextFreed ==> v'.contextFreed)
    && (!v.registered ==> !v'.registered) && (v.init ==> v'.init)
  }

  lemma StepGrows(s: State, step: Step, h: Handle)
    requires Enabled(s, step) && Known(s, h)
    ensures Known(Apply(s, step), h) && Grows(s.services[h], Apply(s, step).services[h])
  {
    match step
    case NewService =>
    case Send(_, _) =>
    case Hold(_) =>
    case Retire(_) =>
    case StartWorker =>
    case Work(i, m) => WorkGrows(s, i, m, h);
    case Call(i, m) => CallGrows(s, i, m, h);
  }

  lemma WorkGrows(s: State, i: nat, m: WorkerMove, h: Handle)
    requires InState(s, i) && CanWork(s, s.frames[i], m) && Known(s, h)
    ensures Known(ApplyWork(s, i, m), h) && Grows(s.services[h], ApplyWork(s, i, m).services[h])
  {
    hide DoDrain, DoServePop, DoLookup, DoFree, DoLeave;
    match m
    case PopGlobal =>
    case Lookup => LookupGrows(s, i, h);
    case ReleaseQueue =>
    case Drain => DrainGrows(s, i, h);
    case Free => FreeGrows(s, i, h);
    case ServePop(fate) => ServePopGrows(s, i, fate, h);
    case Finish(more) =>
    case PopNext =>
    case PushBack =>
    case Leave => LeaveGrows(s, i, h);
  }

  lemma LookupGrows(s: State, i: nat, h: Handle)
    requires InState(s, i) && s.frames[i].Has? && Known(s, h)
    ensures Known(DoLookup(s, i), h) && Grows(s.services[h], DoLookup(s, i).services[h])
  {
  }

  lemma DrainGrows(s: State, i: nat, h: Handle)
    requires InState(s, i) && s.frames[i].Draining? && Known(s, h)
    ensures Known(DoDrain(s, i), h) && Grows(s.services[h], DoDrain(s, i).services[h])
  {
  }

  lemma FreeGrows(s: State, i: nat, h: Handle)
    requires InState(s, i) && s.frames[i].FreeQueue? && Known(s, h)
    ensures Known(DoFree(s, i), h) && Grows(s.services[h], DoFree(s, i).services[h])
  {
  }

  lemma ServePopGrows(s: State, i: nat, fate: Fate, h: Handle)
    requires InState(s, i) && s.frames[i].Serving? && Known(s, h)
    ensures Known(DoServePop(s, i, fate), h) && Grows(s.services[h], DoServePop(s, i, fate).services[h])
  {
  }

  lemma LeaveGrows(s: State, i: nat, h: Handle)
    requires InState(s, i) && s.frames[i].Leaving? && Known(s, h)
    ensures Known(DoLeave(s, i), h) && Grows(s.services[h], DoLeave(s, i).services[h])
  {
  }

  lemma CallGrows(s: State, i: nat, m: CallMove, h: Handle)
    requires InState(s, i) && CanCall(s.frames[i], m) && Known(s, h)
    ensures Known(ApplyCall(s, i, m), h) && Grows(s.services[h], ApplyCall(s, i, m).services[h])
  {
    hide ApplyCall, Grows;
    if m.InitOk? || m.InitFail? || m.ReleaseFailed? || m.Release? {
      UnrefGrows(s, i, m, h);
    } else if m.SetInit? || m.Publish? || m.Log? || m.UseResult? {
      CreationGrows(s, i, m, h);
    } else {
      OtherGrows(s, i, m, h);
    }
  }

  lemma UnrefGrows(s: State, i: nat, m: CallMove, h: Handle)
    requires InState(s, i) && CanCall(s.frames[i], m) && Known(s, h)
    requires m.InitOk? || m.InitFail? || m.ReleaseFailed? || m.Release?
    ensures Known(ApplyCall(s, i, m), h) && Grows(s.services[h], ApplyCall(s, i, m).services[h])
  {
  }

  lemma CreationGrows(s: State, i: nat, m: CallMove, h: Handle)
    requires InState(s, i) && CanCall(s.frames[i], m) && Known(s, h)
    requires m.SetInit? || m.Publish? || m.Log? || m.UseResult?
    ensures Known(ApplyCall(s, i, m), h) && Grows(s.services[h], ApplyCall(s, i, m).services[h])
  {
  }

  lemma OtherGrows(s: State, i: nat, m: CallMove, h: Handle)
    requires InState(s, i) && CanCall(s.frames[i], m) && Known(s, h)
    requires m.RetireFailed? || m.Grab? || m.Push? || m.MarkRelease? || m.FreeContext?
    ensures Known(ApplyCall(s, i, m), h) && Grows(s.services[h], ApplyCall(s, i, m).services[h])
  {
  }

  /** Over any stretch of a run. */
  lemma {:induction false} RunGrows(states: seq<State>, steps: seq<Step>, m: nat, n: nat, h: Handle)
    requires IsRun(states, steps) && m <= n < |states| && Known(states[m], h)
    ensures Known(states[n], h) && Grows(states[m].services[h], states[n].services[h])
  {
    hide Apply, Enabled;
    if m < n {
      RunGrows(states, steps, m, n - 1, h);
      StepGrows(states[n - 1], steps[n - 1], h);
    }
  }

  /** In every run, whatever has been pushed to a queue by state `m` has by any later state either left it,
      at the place of its push, or is still in it: nothing is lost, repeated or reordered. */
  lemma RunFifo(states: seq<State>, steps: seq<Step>, m: nat, n: nat, h: Handle, k: nat)
    requires IsRun(states, steps) && m <= n < |states| && Known(states[m], h)
    requires k < |states[m].services[h].pushed|
    ensures Known(states[n], h)
    ensures var v, msg := states[n].services[h], states[m].services[h].pushed[k];
            if k < |v.gone| then v.gone[k].0 == msg else k - |v.gone| < |v.msgs| && v.msgs[k - |v.gone|] == msg
  {
    hide Apply, Enabled, Inv, Firsts;
    RunGrows(states, steps, m, n, h);
    RunKeeps(states, steps, n);
    InOrder(states[n], h);
    FirstsAt(states[n].services[h].gone);
  }

  lemma InOrder(s: State, h: Handle)
    requires Inv(s) && Known(s, h)
    ensures Ordered(s.services[h])
  {
    assert HandleOk(s, h);
  }

  lemma {:induction false} FirstsAt(gone: seq<(Message, Fate)>)
    ensures |Firsts(gone)| == |gone| && forall k :: 0 <= k < |gone| ==> Firsts(gone)[k] == gone[k].0
  {
    if gone != [] {
      FirstsAt(gone[..|gone| - 1]);
    }
  }

  // ---------------------------------------------------------------------------------------------
  // The run queue
  // ---------------------------------------------------------------------------------------------

  /** A worker that asks for a queue while one is listed. */
  predicate Takes(s: State, step: Step) {
    step.Work? && (step.work.PopGlobal? || step.work.PopNext?) && s.global != []
  }

  /** The queue that a worker has taken to serve next. */
  function InHand(f: Frame): Option<Handle> {
    match f
    case Has(q) => Some(q)
    case Swapping(_, nq) => Some(nq)
    case Leaving(_, next) => next
    case _ => None
  }

  /** The first listed goes to the worker that asks; whatever is added goes behind all that are listed. */
  lemma StepQueue(s: State, step: Step)
    requires Enabled(s, step)
    ensures var s' := Apply(s, step);
            if Takes(s, step) then
              && s'.global == s.global[1..]
              && step.i < |s'.frames| && InHand(s'.frames[step.i]) == Some(s.global[0])
            else s.global <= s'.global && |s'.global| <= |s.global| + 1
  {
    match step
    case Work(i, m) => WorkQueue(s, i, m);
    case Call(i, m) => CallQueue(s, i, m);
    case _ =>
  }

  lemma WorkQueue(s: State, i: nat, m: WorkerMove)
    requires InState(s, i) && CanWork(s, s.frames[i], m)
    ensures var s' := ApplyWork(s, i, m);
            if (m.PopGlobal? || m.PopNext?) && s.global != [] then
              s'.global == s.global[1..] && i < |s'.frames| && InHand(s'.frames[i]) == Some(s.global[0])
            else s.global <= s'.global && |s'.global| <= |s.global| + 1
  {
  }

  lemma CallQueue(s: State, i: nat, m: CallMove)
    requires InState(s, i) && CanCall(s.frames[i], m)
    ensures var s' := ApplyCall(s, i, m); s.global <= s'.global && |s'.global| <= |s.global| + 1
  {
  }

  /** How many of the steps from `m` to `n` take a queue. */
  ghost function Taken(states: seq<State>, steps: seq<Step>, m: nat, n: nat): nat
    requires |states| == |steps| + 1 && m <= n < |states|
  {
    if m == n then 0 else Taken(states, steps, m, n - 1) + One(Takes(states[n - 1], steps[n - 1]))
  }

  /** In every run, a queue at place `k` of the run queue stands nearer the front by one for each that is taken. */
  lemma {:induction false} RunTurn(states: seq<State>, steps: seq<Step>, m: nat, n: nat, k: nat)
    requires IsRun(states, steps) && m <= n < |states| && k < |states[m].global|
    ensures var t := Taken(states, steps, m, n);
            t <= k ==> k - t < |states[n].global| && states[n].global[k - t] == states[m].global[k]
  {
    hide Apply, Enabled, Takes, InHand;
    if m < n {
      RunTurn(states, steps, m, n - 1, k);
      StepQueue(states[n - 1], steps[n - 1]);
    }
  }

  /** So it is the worker of the (k+1)-th taking step that has it in hand. */
  lemma RunServed(states: seq<State>, steps: seq<Step>, m: nat, n: nat, k: nat)
    requires IsRun(states, steps) && m <= n < |steps| && k < |states[m].global| && Takes(states[n], steps[n])
    ensures steps[n].i < |states[n + 1].frames|
    ensures Taken(states, steps, m, n) == k ==> InHand(states[n + 1].frames[steps[n].i]) == Some(states[m].global[k])
  {
    hide Apply, Enabled, InHand;
    RunTurn(states, steps, m, n, k);
    StepQueue(states[n], steps[n]);
  }

  /** A queue in hand stays there until the worker looks its context up. Then the worker serves it, if and only if the
      context is found. */
  lemma StepHeld(s: State, step: Step, i: nat)
    requires Enabled(s, step) && At(s, i) && InHand(s.frames[i]).Some?
    ensures var f' := Apply(s, step).frames; i < |f'|
    ensures var f', h := Apply(s, step).frames[i], InHand(s.frames[i]).value;
            if step == Work(i, Lookup) then f' == if Found(s, h) then Serving(h) else Orphan(h)
            else InHand(f') == Some(h)
  {
    match step
    case Work(j, m) =>
      if j == i {
        WorkHeld(s, i, m);
      } else {
        WorkLeaves(s, j, m, i);
      }
    case Call(j, m) =>
      if j != i {
        CallLeaves(s, j, m, i);
      }
    case _ =>
  }

  lemma WorkHeld(s: State, i: nat, m: WorkerMove)
    requires InState(s, i) && CanWork(s, s.frames[i], m) && InHand(s.frames[i]).Some?
    ensures var f' := ApplyWork(s, i, m).frames; i < |f'|
    ensures var f', h := ApplyWork(s, i, m).frames[i], InHand(s.frames[i]).value;
            if m.Lookup? then f' == if Found(s, h) then Serving(h) else Orphan(h) else InHand(f') == Some(h)
  {
  }

  /** Over any stretch of a run. */
  lemma {:induction false} RunHeld(states: seq<State>, steps: seq<Step>, m: nat, n: nat, i: nat, h: Handle)
    requires IsRun(states, steps) && m <= n < |states| && At(states[m], i) && InHand(states[m].frames[i]) == Some(h)
    requires forall k :: m <= k < n ==> steps[k] != Work(i, Lookup)
    ensures At(states[n], i) && InHand(states[n].frames[i]) == Some(h)
  {
    hide Apply, Enabled, InHand;
    if m < n {
      RunHeld(states, steps, m, n - 1, i, h);
      StepHeld(states[n - 1], steps[n - 1], i);
    }
  }

  /** A worker that serves a queue takes its oldest message, and leaves it only when there is none. */
  lemma ServeOldest(s: State, i: nat, fate: Fate)
    requires Enabled(s, Work(i, ServePop(fate)))
    ensures var s', q := Apply(s, Work(i, ServePop(fate))), s.frames[i].q;
            && Known(s', q) && At(s', i)
            && if s.services[q].msgs == [] then s'.frames[i] == Leaving(q, None) && s'.services[q].gone == s.services[q].gone
               else s'.frames[i] == Running(q) && s'.services[q].gone == s.services[q].gone + [(s.services[q].msgs[0], fate)]
  {
  }

  /** A step of frame `i`. */
  predicate By(step: Step, i: nat) {
    (step.Work? || step.Call?) && step.i == i
  }

  lemma {:induction false} RunStays(states: seq<State>, steps: seq<Step>, m: nat, n: nat, i: nat)
    requires IsRun(states, steps) && m <= n < |states| && At(states[m], i)
    requires forall k :: m <= k < n ==> !By(steps[k], i)
    ensures At(states[n], i) && states[n].frames[i] == states[m].frames[i]
  {
    hide ApplyWork, ApplyCall;
    if m < n {
      RunStays(states, steps, m, n - 1, i);
      match steps[n - 1]
      case Work(j, move) => WorkLeaves(states[n - 1], j, move, i);
      case Call(j, move) => CallLeaves(states[n - 1], j, move, i);
      case _ =>
    }
  }

  /** In every run: a queue waits its turn in the run queue, and the worker whose turn it is dispatches the oldest of its
      messages if its context is still there. Step `n` is that worker's taking step, `p` its next lookup, and `r` its
      next step after that. */
  lemma RunServes(states: seq<State>, steps: seq<Step>, k: nat, m: nat, n: nat, p: nat, r: nat, i: nat, fate: Fate)
    requires IsRun(states, steps) && m <= n < p < r < |steps| && k < |states[m].global|
    requires Takes(states[n], steps[n]) && Taken(states, steps, m, n) == k && steps[n].i == i
    requires steps[p] == Work(i, Lookup) && forall j :: n < j < p ==> steps[j] != Work(i, Lookup)
    requires steps[r] == Work(i, ServePop(fate)) && forall j :: p < j < r ==> !By(steps[j], i)
    ensures var h := states[m].global[k];
            Found(states[p], h) ==>
              && Known(states[r], h) && Known(states[r + 1], h)
              && var v := states[r].services[h];
                 states[r + 1].services[h].gone == if v.msgs == [] then v.gone else v.gone + [(v.msgs[0], fate)]
  {
    hide Apply, Enabled, InHand, Taken;
    RunServed(states, steps, m, n, k);
    RunHeld(states, steps, n + 1, p, i, states[m].global[k]);
    StepHeld(states[p], steps[p], i);
    RunStays(states, steps, p + 1, r, i);
    if Found(states[p], states[m].global[k]) {
      ServingKnown(states[r], i, fate);
      ServeOldest(states[r], i, fate);
    }
  }

  lemma ServingKnown(s: State, i: nat, fate: Fate)
    requires Enabled(s, Work(i, ServePop(fate)))
    ensures s.frames[i].Serving? && Known(s, s.frames[i].q)
  {
  }

  /** Nothing blocks: threads may begin anything at any time, and a call in progress always has a next step, but for a
      worker that waits for a queue to be listed. */
  lemma NoneStuck(s: State, i: nat) returns (step: Step)
    requires Inv(s) && At(s, i) && !s.frames[i].Done? && (s.frames[i].Idle? ==> s.global != [])
    ensures By(step, i) && Enabled(s, step)
    ensures Enabled(s, NewService) && Enabled(s, StartWorker) && forall dst, msg :: Enabled(s, Send(dst, msg))
  {
    FrameKnown(s, i);
    var f := s.frames[i];
    step := match f
      case Idle => Work(i, PopGlobal)
      case Has(_) => Work(i, Lookup)
      case Orphan(_) => Work(i, ReleaseQueue)
      case Serving(_) => Work(i, ServePop(Dispatched))
      case Running(_) => Work(i, Finish(true))
      case LoopDone(_) => Work(i, PopNext)
      case Swapping(_, _) => Work(i, PushBack)
      case Leaving(_, _) => Work(i, Leave)
      case Draining(_) => Work(i, Drain)
      case FreeQueue(_) => Work(i, Free)
      case Initializing(_) => Call(i, InitOk)
      case Storing(_) => Call(i, SetInit)
      case Publishing(_, _) => Call(i, Publish)
      case Logging(_) => Call(i, Log)
      case Returned(_) => Call(i, UseResult)
      case FailRetire(_) => Call(i, RetireFailed)
      case FailRelease(_) => Call(i, ReleaseFailed)
      case Sending(_, _) => Call(i, Grab)
      case Grabbed(_, _) => Call(i, Push)
      case Holding(_) => Call(i, Release)
      case Deleting(_) => Call(i, MarkRelease)
      case _ => Call(i, FreeContext);
  }

  /** The creation of `h` raises its flag. */
  predicate Stores(s: State, step: Step, h: Handle) {
    step.Call? && step.call.SetInit? && At(s, step.i) && s.frames[step.i] == Storing(h)
  }

  /** In every run the flag of a context is up only if its creation has stored it. */
  lemma {:induction false} RunStored(states: seq<State>, steps: seq<Step>, n: nat, h: Handle)
    requires IsRun(states, steps) && n < |states| && Known(states[n], h) && states[n].services[h].init
    ensures exists k :: 0 <= k < n && Stores(states[k], steps[k], h)
  {
    hide Apply, Enabled;
    if n > 0 {
      StepStored(states[n - 1], steps[n - 1], h);
      if Known(states[n - 1], h) && states[n - 1].services[h].init {
        RunStored(states, steps, n - 1, h);
      }
    }
  }

  lemma StepStored(s: State, step: Step, h: Handle)
    requires Enabled(s, step) && Known(Apply(s, step), h) && Apply(s, step).services[h].init
    ensures (Known(s, h) && s.services[h].init) || Stores(s, step, h)
  {
    match step
    case Work(i, m) => WorkStored(s, i, m, h);
    case Call(i, m) => CallStored(s, i, m, h);
    case _ =>
  }

  lemma WorkStored(s: State, i: nat, m: WorkerMove, h: Handle)
    requires InState(s, i) && CanWork(s, s.frames[i], m)
    ensures var s' := ApplyWork(s, i, m); |s'.services| == |s.services| && (Known(s, h) ==> s'.services[h].init == s.services[h].init)
  {
    hide Found;
  }

  lemma CallStored(s: State, i: nat, m: CallMove, h: Handle)
    requires InState(s, i) && CanCall(s.frames[i], m)
    ensures var s' := ApplyCall(s, i, m);
            && |s'.services| == |s.services|
            && (Known(s, h) && (!m.SetInit? || s.frames[i] != Storing(h)) ==> s'.services[h].init == s.services[h].init)
  {
  }

  /** Every step of every run is safe, unless it is the late use of a context by its creation. */
  lemma RunSafe(states: seq<State>, steps: seq<Step>, n: nat)
    requires IsRun(states, steps) && n < |steps|
    ensures Safe(states[n], steps[n]) <==> !Late(states[n], steps[n])
  {
    hide Inv, Apply, Safe, Late;
    RunKeeps(states, steps, n);
    StepSafe(states[n], steps[n]);
  }

  /** A message is dispatched only to a context whose flag is up. */
  lemma RunReady(states: seq<State>, steps: seq<Step>, n: nat)
    requires IsRun(states, steps) && n < |steps| && steps[n].Work? && steps[n].work.ServePop?
    ensures var f := states[n].frames[steps[n].i]; Known(states[n], f.q) && states[n].services[f.q].init
  {
    hide Inv, Apply;
    RunKeeps(states, steps, n);
    StepSafe(states[n], steps[n]);
  }

  const RETIRED_EARLY: seq<Step> :=
    [NewService, Call(0, InitOk), Retire(1), Call(1, Release), Call(2, MarkRelease), Call(2, FreeContext)]

  /** The states of that run. */
  function Early(n: nat): State
    requires n <= 6
  {
    var kept, gone := FRESH.(ref := 1), FRESH.(ref := 0, registered := false);
    match n
    case 0 => START
    case 1 => State([RESERVED, FRESH], [], [Initializing(1)])
    case 2 => State([RESERVED, kept], [], [Storing(1)])
    case 3 => State([RESERVED, kept.(registered := false)], [], [Storing(1), Holding(1)])
    case 4 => State([RESERVED, gone], [], [Storing(1), Done, Deleting(1)])
    case 5 => State([RESERVED, gone.(release := true)], [], [Storing(1), Done, Freeing(1)])
    case 6 => State([RESERVED, gone.(release := true, contextFreed := true)], [], [Storing(1), Done, Done])
  }

  lemma EarlyStep(n: nat)
    requires n < 6
    ensures Enabled(Early(n), RETIRED_EARLY[n]) && Early(n + 1) == Apply(Early(n), RETIRED_EARLY[n])
  {
    hide Apply, Enabled;
    if n < 2 {
      EarlyCreation(n);
    } else if n < 4 {
      EarlyRetirement(n);
    } else {
      EarlyDeletion(n);
    }
  }

  lemma EarlyCreation(n: nat)
    requires n < 2
    ensures Enabled(Early(n), RETIRED_EARLY[n]) && Early(n + 1) == Apply(Early(n), RETIRED_EARLY[n])
  {
    if n == 0 {
      assert Early(1) == DoNewService(Early(0));
    } else {
      assert Early(2) == DoInitOk(Early(1), 0);
    }
  }

  lemma EarlyRetirement(n: nat)
    requires 2 <= n < 4
    ensures Enabled(Early(n), RETIRED_EARLY[n]) && Early(n + 1) == Apply(Early(n), RETIRED_EARLY[n])
  {
    if n == 2 {
      assert Early(3) == DoRetire(Early(2), 1);
    } else {
      assert Early(4) == DoRelease(Early(3), 1);
    }
  }

  lemma EarlyDeletion(n: nat)
    requires 4 <= n < 6
    ensures Enabled(Early(n), RETIRED_EARLY[n]) && Early(n + 1) == Apply(Early(n), RETIRED_EARLY[n])
  {
    if n == 4 {
      assert Early(5) == DoMarkRelease(Early(4), 2);
    } else {
      assert Early(6) == DoFreeContext(Early(5), 2);
    }
  }

  /** A run in which the exception happens: the handle is retired between the release and the store to the flag, and the
      context has been freed when the store comes. */
  lemma StoreAfterFree() returns (states: seq<State>)
    ensures IsRun(states, RETIRED_EARLY)
    ensures var s, step := states[6], Call(0, SetInit);
            Enabled(s, step) && s.frames[0] == Storing(1) && s.services[1].contextFreed && Late(s, step) && !Safe(s, step)
  {
    hide Apply, Tally;
    states := seq(7, n requires 0 <= n < 7 => Early(n));
    forall n | 0 <= n < 6
      ensures Enabled(states[n], RETIRED_EARLY[n]) && states[n + 1] == Apply(states[n], RETIRED_EARLY[n])
    {
      EarlyStep(n);
    }
    NoReference(states[6].frames);
  }

  lemma NoReference(fs: seq<Frame>)
    requires fs == [Storing(1), Done, Done]
    ensures Tally(fs, Ref(1)) == 0
  {
    hide Tally;
    TallyAdd([], Storing(1), Ref(1));
    TallyAdd([Storing(1)], Done, Ref(1));
    TallyAdd([Storing(1), Done], Done, Ref(1));
    TallyNone(Ref(1));
    assert [] + [Storing(1)] == [Storing(1)] && [Storing(1)] + [Done] == [Storing(1), Done];
    assert fs == [Storing(1), Done] + [Done];
  }

  lemma TallyNone(c: Claim)
    ensures Tally([], c) == 0
  {
  }

  // ---------------------------------------------------------------------------------------------
  // Error replies
  // ---------------------------------------------------------------------------------------------

  /** An error from `q` that answers no session and carries nothing. */
  ghost predicate IsErrorOf(msg: Message, q: Handle) {
    msg.source == q && msg.session == 0 && msg.data == [] && msg.isError
  }

  /** To whom the sends among `fs` carry an error of `q`. */
  ghost function ReplyTo(fs: seq<Frame>, q: Handle): seq<Handle> {
    if fs == [] then [] else
    ReplyTo(fs[..|fs| - 1], q) +
    var f := fs[|fs| - 1];
    if f.Sending? && IsErrorOf(f.msg, q) then [f.dst] else []
  }

  /** The replies of `q` that one step has begun to send. What a service sends by itself is not a reply. */
  ghost function Began(s: State, step: Step, s': State, q: Handle): seq<Handle> {
    if step.Send? || |s'.frames| <= |s.frames| then [] else ReplyTo(s'.frames[|s.frames|..], q)
  }

  /** Those of the first `n` steps of a run. */
  ghost function Replies(states: seq<State>, steps: seq<Step>, n: nat, q: Handle): seq<Handle>
    requires |states| == |steps| + 1 && n < |states|
  {
    if n == 0 then [] else Replies(states, steps, n - 1, q) + Began(states[n - 1], steps[n - 1], states[n], q)
  }

  /** Who sent the messages that were dropped. */
  ghost function DroppedFrom(gone: seq<(Message, Fate)>): seq<Handle> {
    if gone == [] then [] else
    DroppedFrom(gone[..|gone| - 1]) + if gone[|gone| - 1].1.Dropped? then [gone[|gone| - 1].0.source] else []
  }

  ghost function GoneOf(s: State, q: Handle): seq<(Message, Fate)> {
    if Known(s, q) then s.services[q].gone else []
  }

  lemma DroppedNext(gone: seq<(Message, Fate)>, m: Message, fate: Fate)
    ensures DroppedFrom(gone + [(m, fate)]) == DroppedFrom(gone) + if fate.Dropped? then [m.source] else []
  {
    assert (gone + [(m, fate)])[..|gone|] == gone;
  }

  lemma ReplyOne(fs: seq<Frame>, f: Frame, q: Handle)
    ensures (fs + [f])[|fs|..] == [f]
    ensures ReplyTo([f], q) == if f.Sending? && IsErrorOf(f.msg, q) then [f.dst] else []
  {
    assert [f][..0] == [] && ReplyTo([], q) == [];
    assert ReplyTo([f], q) == ReplyTo([], q) + if f.Sending? && IsErrorOf(f.msg, q) then [f.dst] else [];
  }

  /** In every run the replies of a service are, in order, to the sources of the messages dropped with it:
      each is answered once, and nothing else is. */
  lemma {:induction false} DropReplies(states: seq<State>, steps: seq<Step>, n: nat, q: Handle)
    requires IsRun(states, steps) && n < |states|
    ensures Replies(states, steps, n, q) == DroppedFrom(GoneOf(states[n], q))
  {
    hide Apply, Enabled, Began, DroppedFrom;
    if n == 0 {
      NoneDropped(q);
    } else {
      DropReplies(states, steps, n - 1, q);
      StepReplies(states[n - 1], steps[n - 1], q);
    }
  }

  lemma NoneDropped(q: Handle)
    ensures DroppedFrom(GoneOf(START, q)) == []
  {
    assert GoneOf(START, q) == [];
  }

  lemma StepReplies(s: State, step: Step, q: Handle)
    requires Enabled(s, step)
    ensures var s' := Apply(s, step); DroppedFrom(GoneOf(s', q)) == DroppedFrom(GoneOf(s, q)) + Began(s, step, s', q)
  {
    hide DroppedFrom, ReplyTo;
    match step
    case NewService => ReplyOne(s.frames, Initializing(|s.services|), q);
    case Send(_, _) =>
    case Hold(h) => ReplyOne(s.frames, Holding(h), q);
    case Retire(h) => ReplyOne(s.frames, Holding(h), q);
    case StartWorker => ReplyOne(s.frames, Idle, q);
    case Work(i, m) => WorkReplies(s, i, m, q);
    case Call(i, m) => CallReplies(s, i, m, q);
  }

  lemma CallReplies(s: State, i: nat, m: CallMove, q: Handle)
    requires InState(s, i) && CanCall(s.frames[i], m)
    ensures var s' := ApplyCall(s, i, m); GoneOf(s', q) == GoneOf(s, q) && Began(s, Call(i, m), s', q) == []
  {
    hide ReplyTo;
    var s' := ApplyCall(s, i, m);
    OnlyDeleting(s, i, s', q);
  }

  /** A step that adds no frame but a deletion begins no reply. */
  lemma OnlyDeleting(s: State, i: nat, s': State, q: Handle)
    requires At(s, i) && |s.frames| <= |s'.frames| <= |s.frames| + 1
    requires |s'.frames| == |s.frames| + 1 ==> s'.frames[|s.frames|].Deleting?
    ensures |s'.frames| > |s.frames| ==> ReplyTo(s'.frames[|s.frames|..], q) == []
  {
    if |s'.frames| > |s.frames| {
      var f := s'.frames[|s.frames|];
      assert s'.frames[|s.frames|..] == [f];
      ReplyOne([], f, q);
    }
  }

  lemma WorkReplies(s: State, i: nat, m: WorkerMove, q: Handle)
    requires InState(s, i) && CanWork(s, s.frames[i], m)
    ensures var s' := ApplyWork(s, i, m);
            DroppedFrom(GoneOf(s', q)) == DroppedFrom(GoneOf(s, q)) + Began(s, Work(i, m), s', q)
  {
    hide DroppedFrom, ReplyTo;
    var f, s' := s.frames[i], ApplyWork(s, i, m);
    if m.Drain? && s.services[f.q].msgs != [] {
      var msg := s.services[f.q].msgs[0];
      ReplyOne(s.frames, Sending(msg.source, ErrorReply(f.q)), q);
      DroppedNext(s.services[f.q].gone, msg, Dropped);
    } else if m.ServePop? && s.services[f.q].msgs != [] {
      DroppedNext(s.services[f.q].gone, s.services[f.q].msgs[0], m.fate);
    } else {
      OnlyDeleting(s, i, s', q);
    }
  }

  /** A send in frame `i` that is still to be looked up or pushed. */
  ghost predicate OnWay(s: State, i: nat, dst: Handle, msg: Message) {
    At(s, i) && (s.frames[i] == Sending(dst, msg) || s.frames[i] == Grabbed(dst, msg))
  }

  ghost predicate Arrived(s: State, dst: Handle, msg: Message) {
    Known(s, dst) && msg in s.services[dst].pushed
  }

  /** What becomes of a send, a reply among them: it is on its way, or pushed to its destination, or its own lookup
      found no such service. */
  lemma {:induction false} RunDelivers(states: seq<State>, steps: seq<Step>, m: nat, n: nat, i: nat, dst: Handle, msg: Message)
    requires IsRun(states, steps) && m <= n < |states| && OnWay(states[m], i, dst, msg)
    ensures || OnWay(states[n], i, dst, msg)
            || Arrived(states[n], dst, msg)
            || exists k :: m <= k < n && steps[k] == Call(i, Grab) && !Found(states[k], dst)
  {
    hide Apply, Enabled, OnWay, Found, Arrived;
    if m < n {
      RunDelivers(states, steps, m, n - 1, i, dst, msg);
      if OnWay(states[n - 1], i, dst, msg) {
        StepDelivers(states[n - 1], steps[n - 1], i, dst, msg);
      } else if Arrived(states[n - 1], dst, msg) {
        StaysArrived(states[n - 1], steps[n - 1], dst, msg);
      }
    }
  }

  /** So is every message that a thread begins to send. */
  lemma RunSent(states: seq<State>, steps: seq<Step>, m: nat, n: nat, dst: Handle, msg: Message)
    requires IsRun(states, steps) && m < n < |states| && steps[m] == Send(dst, msg)
    ensures var i := |states[m].frames|;
            || OnWay(states[n], i, dst, msg) || Arrived(states[n], dst, msg)
            || exists k :: m < k < n && steps[k] == Call(i, Grab) && !Found(states[k], dst)
  {
    RunDelivers(states, steps, m + 1, n, |states[m].frames|, dst, msg);
  }

  ghost function PushedTo(s: State, h: Handle): seq<Message> {
    if Known(s, h) then s.services[h].pushed else []
  }

  /** What a step pushes to `h`. */
  ghost function PushOf(s: State, step: Step, h: Handle): seq<Message> {
    if step.Call? && step.call.Push? && At(s, step.i) && s.frames[step.i].Grabbed? && s.frames[step.i].h == h
    then [s.frames[step.i].msg] else []
  }

  ghost function Pushes(states: seq<State>, steps: seq<Step>, n: nat, h: Handle): seq<Message>
    requires |states| == |steps| + 1 && n < |states|
  {
    if n == 0 then [] else Pushes(states, steps, n - 1, h) + PushOf(states[n - 1], steps[n - 1], h)
  }

  /** In every run a service has received exactly the messages of the sends that got through, each once and in the order
      of their pushes. */
  lemma {:induction false} RunPushed(states: seq<State>, steps: seq<Step>, n: nat, h: Handle)
    requires IsRun(states, steps) && n < |states|
    ensures PushedTo(states[n], h) == Pushes(states, steps, n, h)
  {
    hide Apply, Enabled, PushOf;
    if n > 0 {
      RunPushed(states, steps, n - 1, h);
      StepPushed(states[n - 1], steps[n - 1], h);
    }
  }

  lemma StepPushed(s: State, step: Step, h: Handle)
    requires Enabled(s, step)
    ensures PushedTo(Apply(s, step), h) == PushedTo(s, h) + PushOf(s, step, h)
  {
    match step
    case Work(i, m) => WorkPushed(s, i, m, h);
    case Call(i, m) => CallPushed(s, i, m, h);
    case _ =>
  }

  lemma WorkPushed(s: State, i: nat, m: WorkerMove, h: Handle)
    requires InState(s, i) && CanWork(s, s.frames[i], m)
    ensures PushedTo(ApplyWork(s, i, m), h) == PushedTo(s, h)
  {
  }

  lemma CallPushed(s: State, i: nat, m: CallMove, h: Handle)
    requires InState(s, i) && CanCall(s.frames[i], m)
    ensures PushedTo(ApplyCall(s, i, m), h) == PushedTo(s, h) + PushOf(s, Call(i, m), h)
  {
  }

  lemma StepDelivers(s: State, step: Step, i: nat, dst: Handle, msg: Message)
    requires Enabled(s, step) && OnWay(s, i, dst, msg)
    ensures OnWay(Apply(s, step), i, dst, msg) || Arrived(Apply(s, step), dst, msg) || (step == Call(i, Grab) && !Found(s, dst))
  {
    hide ApplyWork, ApplyCall, Arrived;
    match step
    case NewService =>
    case Send(_, _) =>
    case Hold(_) =>
    case Retire(_) =>
    case StartWorker =>
    case Work(j, m) => WorkLeaves(s, j, m, i);
    case Call(j, m) =>
      if i != j {
        CallLeaves(s, j, m, i);
      } else {
        SendGoesOn(s, i, m, dst, msg);
      }
  }

  /** A step of one frame leaves every other frame alone. */
  lemma WorkLeaves(s: State, j: nat, m: WorkerMove, i: nat)
    requires InState(s, j) && CanWork(s, s.frames[j], m) && At(s, i) && i != j
    ensures At(ApplyWork(s, j, m), i) && ApplyWork(s, j, m).frames[i] == s.frames[i]
  {
    hide Found;
  }

  lemma CallLeaves(s: State, j: nat, m: CallMove, i: nat)
    requires InState(s, j) && CanCall(s.frames[j], m) && At(s, i) && i != j
    ensures At(ApplyCall(s, j, m), i) && ApplyCall(s, j, m).frames[i] == s.frames[i]
  {
    hide Found;
  }

  lemma SendGoesOn(s: State, i: nat, m: CallMove, dst: Handle, msg: Message)
    requires InState(s, i) && CanCall(s.frames[i], m) && OnWay(s, i, dst, msg)
    ensures OnWay(ApplyCall(s, i, m), i, dst, msg) || Arrived(ApplyCall(s, i, m), dst, msg) || (m.Grab? && !Found(s, dst))
  {
    if s.frames[i].Sending? {
      assert ApplyCall(s, i, m) == DoGrab(s, i);
    } else {
      assert ApplyCall(s, i, m) == DoPush(s, i);
    }
  }

  lemma StaysArrived(s: State, step: Step, dst: Handle, msg: Message)
    requires Enabled(s, step) && Arrived(s, dst, msg)
    ensures Arrived(Apply(s, step), dst, msg)
  {
    hide Apply, Enabled;
    StepGrows(s, step, dst);
  }
}
