/** The loop of `vh mcp` (core/main/cli_mcp.cpp) under every interleaving of input lines, worker threads and
    cancellations. Each step is one critical section, one write, or one thread joined. */
module Mcp {
  import opened Wrappers

  type Key = string      // a request id's JSON text
  type Uid = nat         // a request, by the order of arrival

  const MAX_CALLS := 8
  const DUPLICATE := -32600
  const TOO_MANY := -32000

  datatype Line =
    | Blank
    | Garbage
    | Cancel(target: Option<Key>)
    | Call(key: Key)
    | Other(responds: bool)

  datatype Phase =
    | Answering
    | Answered(response: bool)
    | Looked(writes: bool)     // the worker has read the cancelled flag
    | Written
    | Done

  datatype Worker = Worker(key: Key, cancelled: bool, phase: Phase)

  /** A line that got out on stdout: a worker's response, a refusal, or an answer of the loop itself. */
  datatype Message = Response(uid: Uid) | Refusal(uid: Uid, code: int) | Direct

  datatype Main =
    | Waiting
    | Reaping(line: Line)
    | Joining(line: Line, finished: set<Uid>)
    | Closing                  // the input or the output is gone
    | Cancelled                // every call has been cancelled
    | Leaving(rest: set<Uid>)
    | Returned

  datatype State = State(
    main: Main,
    calls: map<Key, Uid>,
    workers: map<Uid, Worker>,
    next: Uid,
    out: seq<Message>,
    refused: map<Uid, int>,
    replied: set<Uid>,         // the handler gave a response
    saw: set<Uid>,             // the worker saw a cancel
    lost: set<Uid>,            // the write of the response or refusal failed
    joined: set<Uid>)

  predicate Init(s: State) {
    s == State(Waiting, map[], map[], 0, [], map[], {}, {}, {}, {})
  }

  datatype Step =
    | GetLine(line: Line)
    | Eof
    | Reap
    | Join(u: Uid)
    | Handle(ok: bool)         // ok: the write that the line leads to succeeds
    | CancelAll
    | Collect
    | Return
    | Answer(u: Uid, response: bool)
    | Look(u: Uid)
    | Write(u: Uid, ok: bool)
    | Finish(u: Uid)

  predicate IsDone(s: State, u: Uid) {
    u in s.workers && s.workers[u].phase.Done?
  }

  predicate Enabled(s: State, step: Step) {
    match step
    case GetLine(_) => s.main.Waiting?
    case Eof => s.main.Waiting?
    case Reap => s.main.Reaping?
    case Join(u) => ((s.main.Joining? && u in s.main.finished) || (s.main.Leaving? && u in s.main.rest)) && IsDone(s, u)
    case Handle(_) => s.main.Joining? && s.main.finished == {}
    case CancelAll => s.main.Closing?
    case Collect => s.main.Cancelled?
    case Return => s.main.Leaving? && s.main.rest == {}
    case Answer(u, _) => u in s.workers && s.workers[u].phase.Answering?
    case Look(u) => u in s.workers && s.workers[u].phase.Answered?
    case Write(u, _) => u in s.workers && s.workers[u].phase == Looked(true)
    case Finish(u) => u in s.workers && (s.workers[u].phase == Looked(false) || s.workers[u].phase.Written?)
  }

  function To(s: State, u: Uid, p: Phase): State
    requires u in s.workers
  {
    s.(workers := s.workers[u := s.workers[u].(phase := p)])
  }

  function Finished(s: State): set<Uid> {
    set k | k in s.calls && IsDone(s, s.calls[k]) :: s.calls[k]
  }

  function Unreaped(s: State): map<Key, Uid> {
    map k | k in s.calls && !IsDone(s, s.calls[k]) :: s.calls[k]
  }

  function CancelledAll(s: State): map<Uid, Worker> {
    map u | u in s.workers :: if u in s.calls.Values then s.workers[u].(cancelled := true) else s.workers[u]
  }

  function Released(main: Main, u: Uid): Main {
    match main
    case Joining(line, finished) => Joining(line, finished - {u})
    case Leaving(rest) => Leaving(rest - {u})
    case _ => main
  }

  function After(ok: bool): Main {
    if ok then Waiting else Closing
  }

  function Sent(out: seq<Message>, m: Message, ok: bool): seq<Message> {
    if ok then out + [m] else out
  }

  function Refuse(s: State, code: int, ok: bool): State {
    s.(
    main := After(ok),
    out := Sent(s.out, Refusal(s.next, code), ok),
    lost := if ok then s.lost else s.lost + {s.next},
    refused := s.refused[s.next := code],
    next := s.next + 1)
  }

  function Handled(s: State, line: Line, ok: bool): State {
    match line
    case Blank => s.(main := Waiting)
    case Garbage => s.(main := After(ok), out := Sent(s.out, Direct, ok))
    case Cancel(target) =>
      if target.Some? && target.value in s.calls && s.calls[target.value] in s.workers then
        var u := s.calls[target.value];
        s.(main := Waiting, workers := s.workers[u := s.workers[u].(cancelled := true)])
      else s.(main := Waiting)
    case Call(key) =>
      if key in s.calls then Refuse(s, DUPLICATE, ok)
      else if |s.calls| >= MAX_CALLS then Refuse(s, TOO_MANY, ok)
      else
        s.(
        main := Waiting,
        calls := s.calls[key := s.next],
        workers := s.workers[s.next := Worker(key, false, Answering)],
        next := s.next + 1)
    case Other(responds) =>
      if responds then s.(main := After(ok), out := Sent(s.out, Direct, ok)) else s.(main := Waiting)
  }

  function Apply(s: State, step: Step): State
    requires Enabled(s, step)
  {
    match step
    case GetLine(line) => s.(main := Reaping(line))
    case Eof => s.(main := Closing)
    case Reap => s.(main := Joining(s.main.line, Finished(s)), calls := Unreaped(s))
    case Join(u) =>
      s.(main := Released(s.main, u), joined := s.joined + {u})
    case Handle(ok) => Handled(s, s.main.line, ok)
    case CancelAll => s.(main := Cancelled, workers := CancelledAll(s))
    case Collect => s.(main := Leaving(s.calls.Values), calls := map[])
    case Return => s.(main := Returned)
    case Answer(u, response) =>
      To(s, u, Answered(response)).(replied := if response then s.replied + {u} else s.replied)
    case Look(u) =>
      var w := s.workers[u];
      To(s, u, Looked(w.phase.response && !w.cancelled)).(saw := if w.cancelled then s.saw + {u} else s.saw)
    case Write(u, ok) =>
      To(s, u, Written).(out := Sent(s.out, Response(u), ok), lost := if ok then s.lost else s.lost + {u})
    case Finish(u) => To(s, u, Done)
  }

  predicate Next(s: State, step: Step, s': State) {
    Enabled(s, step) && s' == Apply(s, step)
  }

  ghost predicate IsRun(run: seq<State>, steps: seq<Step>) {
    && |run| == |steps| + 1 && Init(run[0])
    && forall i {:trigger steps[i]} :: 0 <= i < |steps| ==> Next(run[i], steps[i], run[i + 1])
  }

  // ---- invariant ---------------------------------------------------------------------------------------------

  type Calls = map<Key, Uid>
  type Workers = map<Uid, Worker>

  predicate CallsOk(calls: Calls, workers: Workers, joined: set<Uid>) {
    && |calls| <= MAX_CALLS
    && (forall k :: k in calls ==> calls[k] in workers && workers[calls[k]].key == k && calls[k] !in joined)
  }

  /** The threads that the loop holds to join now. */
  function Held(main: Main): set<Uid> {
    match main case Joining(_, f) => f case Leaving(r) => r case _ => {}
  }

  predicate DistinctKeys(us: set<Uid>, workers: Workers) {
    forall u, v :: u in us && v in us && u != v && u in workers && v in workers ==> workers[u].key != workers[v].key
  }

  /** Every worker is listed, held for joining, or joined; a joined or reaped one is done. */
  ghost predicate ThreadsOk(main: Main, calls: Calls, workers: Workers, joined: set<Uid>) {
    && (forall u :: u in workers ==>
      u in joined || u in Held(main) || (workers[u].key in calls && calls[workers[u].key] == u))
    && (forall u :: u in joined || (main.Joining? && u in main.finished) ==> u in workers && workers[u].phase.Done?)
    && (forall u :: u in Held(main) ==> u in workers && u !in joined)
    && (main.Leaving? || main.Returned? ==> calls == map[])
    && (main.Leaving? ==> |main.rest| <= MAX_CALLS && DistinctKeys(main.rest, workers))
    && (forall k :: k in calls ==> calls[k] !in Held(main))
  }

  /** A worker's response is written, or its write fails, between its look at the flag and its end, if there is one
      and no cancel was seen. */
  predicate WorkerOut(p: Phase, count: nat, replied: bool, saw: bool, lost: bool) {
    match p
    case Answering => count == 0 && !replied && !saw && !lost
    case Answered(response) => count == 0 && response == replied && !saw && !lost
    case Looked(writes) => count == 0 && writes == (replied && !saw) && !lost
    case _ => count == (if replied && !saw && !lost then 1 else 0) && (lost ==> replied && !saw)
  }

  ghost predicate OutOk(out: seq<Message>, workers: Workers, replied: set<Uid>, saw: set<Uid>, lost: set<Uid>) {
    && (forall u :: u in workers ==>
      WorkerOut(workers[u].phase, multiset(out)[Response(u)], u in replied, u in saw, u in lost))
    && (forall u :: u in saw || u in replied || Response(u) in out ==> u in workers)
  }

  ghost predicate RefusalsOk(out: seq<Message>, refused: map<Uid, int>, lost: set<Uid>) {
    && (forall u :: u in refused ==> multiset(out)[Refusal(u, refused[u])] == if u in lost then 0 else 1)
    && (forall u, c :: Refusal(u, c) in out ==> u in refused && refused[u] == c)
  }

  ghost predicate NumbersOk(refused: map<Uid, int>, workers: Workers, lost: set<Uid>, next: Uid) {
    && (forall u :: u in refused ==> u < next && u !in workers)
    && (forall u :: u in workers ==> u < next)
    && (forall u :: u in lost ==> u < next)
    && (forall u: Uid :: u < next ==> u in refused || u in workers)
  }

  predicate Ending(main: Main) {
    main.Closing? || main.Cancelled? || main.Leaving? || main.Returned?
  }

  /** A refusal that did not get out was the last thing the loop did. */
  ghost predicate LostOk(main: Main, refused: map<Uid, int>, lost: set<Uid>, next: Uid) {
    forall u :: u in refused && u in lost ==> u + 1 == next && Ending(main)
  }

  ghost predicate Inv(s: State) {
    && CallsOk(s.calls, s.workers, s.joined)
    && ThreadsOk(s.main, s.calls, s.workers, s.joined)
    && OutOk(s.out, s.workers, s.replied, s.saw, s.lost)
    && RefusalsOk(s.out, s.refused, s.lost)
    && NumbersOk(s.refused, s.workers, s.lost, s.next)
    && LostOk(s.main, s.refused, s.lost, s.next)
  }

  // ---- steps -------------------------------------------------------------------------------------------------

  /** A worker goes on, or is cancelled. */
  lemma PutThreads(main: Main, calls: Calls, workers: Workers, joined: set<Uid>, u: Uid, w: Worker)
    requires CallsOk(calls, workers, joined) && ThreadsOk(main, calls, workers, joined)
    requires u in workers && w.key == workers[u].key && (workers[u].phase.Done? ==> w.phase.Done?)
    ensures CallsOk(calls, workers[u := w], joined) && ThreadsOk(main, calls, workers[u := w], joined)
  {
  }

  lemma PutOut(out: seq<Message>, workers: Workers, replied: set<Uid>, saw: set<Uid>, lost: set<Uid>, u: Uid, w: Worker)
    requires OutOk(out, workers, replied, saw, lost) && u in workers
    requires WorkerOut(w.phase, multiset(out)[Response(u)], u in replied, u in saw, u in lost)
    ensures OutOk(out, workers[u := w], replied, saw, lost)
  {
  }

  lemma PutKeeps(s: State, u: Uid, w: Worker)
    requires Inv(s) && u in s.workers && w.key == s.workers[u].key && (s.workers[u].phase.Done? ==> w.phase.Done?)
    requires
      || w.phase == s.workers[u].phase
      || (w.phase.Done? && (s.workers[u].phase == Looked(false) || s.workers[u].phase.Written?))
    ensures Inv(s.(workers := s.workers[u := w]))
  {
    PutThreads(s.main, s.calls, s.workers, s.joined, u, w);
    PutOut(s.out, s.workers, s.replied, s.saw, s.lost, u, w);
  }

  lemma AnswerOut(
    out: seq<Message>, workers: Workers, replied: set<Uid>, saw: set<Uid>, lost: set<Uid>, u: Uid, response: bool)
    requires OutOk(out, workers, replied, saw, lost) && u in workers && workers[u].phase.Answering?
    ensures var w := workers[u].(phase := Answered(response));
      OutOk(out, workers[u := w], if response then replied + {u} else replied, saw, lost)
  {
  }

  lemma AnswerKeeps(s: State, u: Uid, response: bool)
    requires Inv(s) && Enabled(s, Answer(u, response))
    ensures Inv(Apply(s, Answer(u, response)))
  {
    var w := s.workers[u].(phase := Answered(response));
    PutThreads(s.main, s.calls, s.workers, s.joined, u, w);
    AnswerOut(s.out, s.workers, s.replied, s.saw, s.lost, u, response);
  }

  lemma LookOut(out: seq<Message>, workers: Workers, replied: set<Uid>, saw: set<Uid>, lost: set<Uid>, u: Uid)
    requires OutOk(out, workers, replied, saw, lost) && u in workers && workers[u].phase.Answered?
    ensures var w := workers[u].(phase := Looked(workers[u].phase.response && !workers[u].cancelled));
      OutOk(out, workers[u := w], replied, if workers[u].cancelled then saw + {u} else saw, lost)
  {
  }

  lemma LookKeeps(s: State, u: Uid)
    requires Inv(s) && Enabled(s, Look(u))
    ensures Inv(Apply(s, Look(u)))
  {
    var w := s.workers[u].(phase := Looked(s.workers[u].phase.response && !s.workers[u].cancelled));
    PutThreads(s.main, s.calls, s.workers, s.joined, u, w);
    LookOut(s.out, s.workers, s.replied, s.saw, s.lost, u);
  }

  lemma Appended(out: seq<Message>, m: Message, ok: bool)
    ensures forall x :: multiset(Sent(out, m, ok))[x] == multiset(out)[x] + if ok && x == m then 1 else 0
    ensures forall x :: x in Sent(out, m, ok) <==> x in out || (ok && x == m)
  {
    assert multiset(out + [m]) == multiset(out) + multiset{m};
  }

  lemma WriteOut(
    out: seq<Message>, workers: Workers, replied: set<Uid>, saw: set<Uid>, lost: set<Uid>, u: Uid, ok: bool)
    requires OutOk(out, workers, replied, saw, lost) && u in workers && workers[u].phase == Looked(true)
    ensures var w := workers[u].(phase := Written);
      OutOk(Sent(out, Response(u), ok), workers[u := w], replied, saw, if ok then lost else lost + {u})
  {
    Appended(out, Response(u), ok);
  }

  lemma OutRefusals(out: seq<Message>, refused: map<Uid, int>, lost: set<Uid>, m: Message, ok: bool)
    requires RefusalsOk(out, refused, lost) && !m.Refusal?
    ensures RefusalsOk(Sent(out, m, ok), refused, lost)
  {
    Appended(out, m, ok);
  }

  lemma LostRefusals(out: seq<Message>, refused: map<Uid, int>, lost: set<Uid>, u: Uid)
    requires RefusalsOk(out, refused, lost) && u !in refused
    ensures RefusalsOk(out, refused, lost + {u})
  {
  }

  lemma WriteKeeps(s: State, u: Uid, ok: bool)
    requires Inv(s) && Enabled(s, Write(u, ok))
    ensures Inv(Apply(s, Write(u, ok)))
  {
    var w := s.workers[u].(phase := Written);
    PutThreads(s.main, s.calls, s.workers, s.joined, u, w);
    OutRefusals(s.out, s.refused, s.lost, Response(u), ok);
    LostRefusals(Sent(s.out, Response(u), ok), s.refused, s.lost, u);
    WriteOut(s.out, s.workers, s.replied, s.saw, s.lost, u, ok);
  }

  /** The loop itself writes something. */
  lemma OtherOut(
    out: seq<Message>, workers: Workers, replied: set<Uid>, saw: set<Uid>, lost: set<Uid>, m: Message, ok: bool)
    requires OutOk(out, workers, replied, saw, lost) && !m.Response?
    ensures OutOk(Sent(out, m, ok), workers, replied, saw, lost)
  {
    Appended(out, m, ok);
  }

  predicate Resting(m: Main) {
    m.Waiting? || m.Closing? || m.Reaping?
  }

  lemma RestThreads(main: Main, calls: Calls, workers: Workers, joined: set<Uid>, now: Main)
    requires ThreadsOk(main, calls, workers, joined) && Held(main) == {}
    requires !main.Leaving? && !main.Returned? && Resting(now)
    ensures ThreadsOk(now, calls, workers, joined)
  {
  }

  lemma RestKeeps(s: State, now: Main)
    requires Inv(s) && Held(s.main) == {} && !Ending(s.main) && Resting(now)
    ensures Inv(s.(main := now))
  {
    RestThreads(s.main, s.calls, s.workers, s.joined, now);
  }

  lemma DirectKeeps(s: State, ok: bool)
    requires Inv(s)
    ensures Inv(s.(out := Sent(s.out, Direct, ok)))
  {
    OtherOut(s.out, s.workers, s.replied, s.saw, s.lost, Direct, ok);
    OutRefusals(s.out, s.refused, s.lost, Direct, ok);
  }

  lemma RefuseRefusals(out: seq<Message>, refused: map<Uid, int>, lost: set<Uid>, u: Uid, code: int, ok: bool)
    requires RefusalsOk(out, refused, lost) && u !in refused && u !in lost
    ensures RefusalsOk(Sent(out, Refusal(u, code), ok), refused[u := code], if ok then lost else lost + {u})
  {
    Appended(out, Refusal(u, code), ok);
    assert forall c :: Refusal(u, c) !in out;
  }

  lemma LoseOut(out: seq<Message>, workers: Workers, replied: set<Uid>, saw: set<Uid>, lost: set<Uid>, u: Uid)
    requires OutOk(out, workers, replied, saw, lost) && u !in workers
    ensures OutOk(out, workers, replied, saw, lost + {u})
  {
  }

  lemma RefuseNumbers(
    main: Main, refused: map<Uid, int>, workers: Workers, lost: set<Uid>, next: Uid, code: int, ok: bool)
    requires NumbersOk(refused, workers, lost, next) && LostOk(main, refused, lost, next) && !Ending(main)
    ensures next !in refused && next !in workers && next !in lost
    ensures var now := if ok then lost else lost + {next};
      && NumbersOk(refused[next := code], workers, now, next + 1)
      && LostOk(After(ok), refused[next := code], now, next + 1)
  {
  }

  lemma RefuseOut(s: State, code: int, ok: bool)
    requires OutOk(s.out, s.workers, s.replied, s.saw, s.lost) && s.next !in s.workers
    ensures var s' := Refuse(s, code, ok); OutOk(s'.out, s'.workers, s'.replied, s'.saw, s'.lost)
  {
    OtherOut(s.out, s.workers, s.replied, s.saw, s.lost, Refusal(s.next, code), ok);
    LoseOut(Sent(s.out, Refusal(s.next, code), ok), s.workers, s.replied, s.saw, s.lost, s.next);
  }

  lemma RefuseKeeps(s: State, code: int, ok: bool)
    requires Inv(s) && s.main.Joining? && s.main.finished == {}
    ensures Inv(Refuse(s, code, ok))
  {
    RefuseNumbers(s.main, s.refused, s.workers, s.lost, s.next, code, ok);
    RefuseOut(s, code, ok);
    RefuseRefusals(s.out, s.refused, s.lost, s.next, code, ok);
    RestThreads(s.main, s.calls, s.workers, s.joined, After(ok));
  }

  lemma AcceptThreads(main: Main, calls: Calls, workers: Workers, joined: set<Uid>, key: Key, u: Uid)
    requires CallsOk(calls, workers, joined) && ThreadsOk(main, calls, workers, joined)
    requires main.Joining? && main.finished == {} && key !in calls && |calls| < MAX_CALLS && u !in workers
    ensures CallsOk(calls[key := u], workers[u := Worker(key, false, Answering)], joined)
    ensures ThreadsOk(Waiting, calls[key := u], workers[u := Worker(key, false, Answering)], joined)
  {
  }

  lemma AcceptOut(
    out: seq<Message>, workers: Workers, replied: set<Uid>, saw: set<Uid>, lost: set<Uid>, u: Uid, w: Worker)
    requires OutOk(out, workers, replied, saw, lost) && u !in workers && u !in lost && w.phase.Answering?
    ensures OutOk(out, workers[u := w], replied, saw, lost)
  {
    assert Response(u) !in out;
  }

  lemma AcceptNumbers(main: Main, refused: map<Uid, int>, workers: Workers, lost: set<Uid>, next: Uid, w: Worker)
    requires NumbersOk(refused, workers, lost, next) && LostOk(main, refused, lost, next) && !Ending(main)
    ensures next !in refused && next !in workers && next !in lost
    ensures NumbersOk(refused, workers[next := w], lost, next + 1) && LostOk(Waiting, refused, lost, next + 1)
  {
  }

  lemma AcceptKeeps(s: State, key: Key)
    requires Inv(s) && s.main.Joining? && s.main.finished == {} && key !in s.calls && |s.calls| < MAX_CALLS
    ensures Inv(Handled(s, Call(key), true))
  {
    var w := Worker(key, false, Answering);
    AcceptNumbers(s.main, s.refused, s.workers, s.lost, s.next, w);
    AcceptThreads(s.main, s.calls, s.workers, s.joined, key, s.next);
    AcceptOut(s.out, s.workers, s.replied, s.saw, s.lost, s.next, w);
  }

  lemma CancelKeeps(s: State, target: Option<Key>)
    requires Inv(s) && s.main.Joining? && s.main.finished == {}
    ensures Inv(Handled(s, Cancel(target), true))
  {
    RestKeeps(s, Waiting);
    if target.Some? && target.value in s.calls && s.calls[target.value] in s.workers {
      var u := s.calls[target.value];
      PutKeeps(s.(main := Waiting), u, s.workers[u].(cancelled := true));
    }
  }

  lemma HandleKeeps(s: State, ok: bool)
    requires Inv(s) && s.main.Joining? && s.main.finished == {}
    ensures Inv(Handled(s, s.main.line, ok))
  {
    match s.main.line
    case Blank => RestKeeps(s, Waiting);
    case Garbage => RestKeeps(s, After(ok)); DirectKeeps(s.(main := After(ok)), ok);
    case Cancel(target) => CancelKeeps(s, target);
    case Call(key) =>
      if key in s.calls { RefuseKeeps(s, DUPLICATE, ok); }
      else if |s.calls| >= MAX_CALLS { RefuseKeeps(s, TOO_MANY, ok); }
      else { AcceptKeeps(s, key); }
    case Other(responds) =>
      if responds { RestKeeps(s, After(ok)); DirectKeeps(s.(main := After(ok)), ok); } else { RestKeeps(s, Waiting); }
  }

  lemma {:induction false} Smaller(calls: Calls, kept: Calls)
    requires forall k :: k in kept ==> k in calls
    ensures |kept| <= |calls|
    decreases |kept|
  {
    if kept != map[] {
      var k :| k in kept;
      assert (kept - {k}).Keys == kept.Keys - {k} && (calls - {k}).Keys == calls.Keys - {k};
      Smaller(calls - {k}, kept - {k});
    }
  }

  lemma ReapKeeps(s: State)
    requires Inv(s) && s.main.Reaping?
    ensures Inv(Apply(s, Reap))
  {
    var finished, kept := Finished(s), Unreaped(s);
    Smaller(s.calls, kept);
    forall u | u in s.workers
      ensures u in s.joined || u in finished || (s.workers[u].key in kept && kept[s.workers[u].key] == u)
    {
      if u !in s.joined && IsDone(s, u) {
        assert s.calls[s.workers[u].key] == u;
        assert u in finished;
      }
    }
    assert ThreadsOk(Joining(s.main.line, finished), kept, s.workers, s.joined);
  }

  lemma JoinThreads(main: Main, calls: Calls, workers: Workers, joined: set<Uid>, u: Uid)
    requires ThreadsOk(main, calls, workers, joined) && CallsOk(calls, workers, joined)
    requires u in Held(main) && workers[u].phase.Done?
    ensures CallsOk(calls, workers, joined + {u})
    ensures ThreadsOk(Released(main, u), calls, workers, joined + {u})
  {
  }

  lemma JoinKeeps(s: State, u: Uid)
    requires Inv(s) && Enabled(s, Join(u))
    ensures Inv(Apply(s, Join(u)))
  {
    JoinThreads(s.main, s.calls, s.workers, s.joined, u);
  }

  lemma {:induction false} ValuesBound(calls: Calls)
    ensures |calls.Values| <= |calls|
    decreases |calls|
  {
    if calls != map[] {
      var k :| k in calls;
      var rest := calls - {k};
      assert rest.Keys == calls.Keys - {k};
      ValuesBound(rest);
      forall v | v in calls.Values ensures v in rest.Values + {calls[k]} {
        var j :| j in calls && calls[j] == v;
        assert j != k ==> j in rest && rest[j] == v;
      }
      SubsetBound(calls.Values, rest.Values + {calls[k]});
    }
  }

  lemma SubsetBound(a: set<Uid>, b: set<Uid>)
    requires a <= b
    ensures |a| <= |b|
  {
    assert b == a + (b - a);
  }

  lemma CollectKeeps(s: State)
    requires Inv(s) && s.main.Cancelled?
    ensures Inv(Apply(s, Collect))
  {
    ValuesBound(s.calls);
    assert ThreadsOk(Leaving(s.calls.Values), map[], s.workers, s.joined);
  }

  lemma CancelAllOut(s: State)
    requires OutOk(s.out, s.workers, s.replied, s.saw, s.lost)
    ensures OutOk(s.out, CancelledAll(s), s.replied, s.saw, s.lost)
  {
  }

  lemma CancelAllThreads(s: State)
    requires s.main.Closing? && CallsOk(s.calls, s.workers, s.joined) && ThreadsOk(s.main, s.calls, s.workers, s.joined)
    ensures CallsOk(s.calls, CancelledAll(s), s.joined) && ThreadsOk(Cancelled, s.calls, CancelledAll(s), s.joined)
  {
  }

  lemma CancelAllKeeps(s: State)
    requires Inv(s) && s.main.Closing?
    ensures Inv(Apply(s, CancelAll))
  {
    CancelAllOut(s);
    CancelAllThreads(s);
  }

  lemma FinishKeeps(s: State, u: Uid)
    requires Inv(s) && Enabled(s, Finish(u))
    ensures Inv(Apply(s, Finish(u)))
  {
    PutKeeps(s, u, s.workers[u].(phase := Done));
  }

  lemma ReturnKeeps(s: State)
    requires Inv(s) && Enabled(s, Return)
    ensures Inv(Apply(s, Return))
  {
  }

  lemma StepKeeps(s: State, step: Step, s': State)
    requires Inv(s) && Next(s, step, s')
    ensures Inv(s')
  {
    match step
    case GetLine(line) => RestKeeps(s, Reaping(line));
    case Eof => RestKeeps(s, Closing);
    case Reap => ReapKeeps(s);
    case Join(u) => JoinKeeps(s, u);
    case Handle(ok) => HandleKeeps(s, ok);
    case CancelAll => CancelAllKeeps(s);
    case Collect => CollectKeeps(s);
    case Return => ReturnKeeps(s);
    case Answer(u, response) => AnswerKeeps(s, u, response);
    case Look(u) => LookKeeps(s, u);
    case Write(u, ok) => WriteKeeps(s, u, ok);
    case Finish(u) => FinishKeeps(s, u);
  }

  // ---- runs --------------------------------------------------------------------------------------------------

  lemma InitHolds(s: State)
    requires Init(s)
    ensures Inv(s)
  {
  }

  lemma {:induction false} RunKeeps(run: seq<State>, steps: seq<Step>, i: nat)
    requires IsRun(run, steps) && i < |run|
    ensures Inv(run[i])
  {
    if i == 0 {
      InitHolds(run[0]);
    } else {
      RunKeeps(run, steps, i - 1);
      StepKeeps(run[i - 1], steps[i - 1], run[i]);
    }
  }

  /** The write of a call's response or refusal fails. */
  predicate Loses(s: State, step: Step, u: Uid) {
    || step == Write(u, false)
    || (step == Handle(false) && s.next == u && s.main.Joining? && Refuses(s.calls, s.main.line))
  }

  predicate Refuses(calls: Calls, line: Line) {
    line.Call? && (line.key in calls || |calls| >= MAX_CALLS)
  }

  lemma StepLoses(s: State, step: Step, s': State, u: Uid)
    requires Next(s, step, s')
    ensures u in s'.lost <==> u in s.lost || Loses(s, step, u)
  {
  }

  ghost predicate LostBy(run: seq<State>, steps: seq<Step>, i: nat, u: Uid)
    requires i <= |steps| < |run|
  {
    exists j {:trigger steps[j]} :: 0 <= j < i && Loses(run[j], steps[j], u)
  }

  lemma LostByLast(run: seq<State>, steps: seq<Step>, i: nat, u: Uid)
    requires i < |steps| < |run|
    ensures LostBy(run, steps, i + 1, u) <==> LostBy(run, steps, i, u) || Loses(run[i], steps[i], u)
  {
    if LostBy(run, steps, i, u) {
      var j :| 0 <= j < i && Loses(run[j], steps[j], u);
      assert Loses(run[j], steps[j], u);
    }
  }

  /** The messages that are lost are those whose write failed. */
  lemma {:induction false} LostExactly(run: seq<State>, steps: seq<Step>, i: nat, u: Uid)
    requires IsRun(run, steps) && i < |run|
    ensures u in run[i].lost <==> LostBy(run, steps, i, u)
  {
    if i > 0 {
      LostExactly(run, steps, i - 1, u);
      StepLoses(run[i - 1], steps[i - 1], run[i], u);
      LostByLast(run, steps, i - 1, u);
    }
  }

  function Running(s: State): set<Uid> {
    set u | u in s.workers && !s.workers[u].phase.Done?
  }

  lemma RunningBound(s: State)
    requires Inv(s)
    ensures |Running(s)| <= MAX_CALLS && DistinctKeys(Running(s), s.workers)
  {
    var running := Running(s);
    if s.main.Leaving? {
      assert running <= s.main.rest;
      SubsetBound(running, s.main.rest);
    } else {
      forall u | u in running
        ensures u in s.calls.Values && s.workers[u].key in s.calls && s.calls[s.workers[u].key] == u
      {
      }
      ValuesBound(s.calls);
      SubsetBound(running, s.calls.Values);
    }
  }

  /** At every point of every run: at most eight calls are running and their ids differ; every request so far was
      accepted or refused and not both; an accepted one has been answered at most once, and by the time its worker is
      done exactly once if the handler replied, the worker saw no cancel and its write succeeded, else never; a refused
      one has exactly one error if its write succeeded, else none; and once the loop has returned every worker is done
      and joined. */
  lemma CallsAreAnswered(run: seq<State>, steps: seq<Step>, i: nat)
    requires IsRun(run, steps) && i < |run|
    ensures |Running(run[i])| <= MAX_CALLS && DistinctKeys(Running(run[i]), run[i].workers)
    ensures forall u: Uid :: u < run[i].next ==> (u in run[i].workers) != (u in run[i].refused)
    ensures forall u :: u in run[i].workers ==> multiset(run[i].out)[Response(u)] <= if u in run[i].saw then 0 else 1
    ensures forall u :: u in run[i].workers && run[i].workers[u].phase.Done? ==>
      multiset(run[i].out)[Response(u)] == if u in run[i].replied && u !in run[i].saw && u !in run[i].lost then 1 else 0
    ensures forall u :: u in run[i].refused ==>
      multiset(run[i].out)[Refusal(u, run[i].refused[u])] == if u in run[i].lost then 0 else 1
    ensures forall u, c :: Refusal(u, c) in run[i].out ==> u in run[i].refused && run[i].refused[u] == c
    ensures run[i].main.Returned? ==>
      forall u :: u in run[i].workers ==> u in run[i].joined && run[i].workers[u].phase.Done?
  {
    RunKeeps(run, steps, i);
    RunningBound(run[i]);
  }

  /** A refused call without its error is the last call of the run, and the loop is on its way out. */
  lemma LostRefusalIsLast(run: seq<State>, steps: seq<Step>, i: nat, u: Uid)
    requires IsRun(run, steps) && i < |run| && u in run[i].refused && u in run[i].lost
    ensures forall v :: v in run[i].workers || v in run[i].refused ==> v <= u
    ensures Ending(run[i].main)
  {
    RunKeeps(run, steps, i);
  }

  /** Cancelled before its worker looked, and nothing written. */
  predicate Silent(workers: Workers, out: seq<Message>, u: Uid) {
    u in workers && workers[u].cancelled && workers[u].phase != Looked(true) && multiset(out)[Response(u)] == 0
  }

  lemma Uncounted(out: seq<Message>, m: Message, ok: bool, u: Uid)
    requires m != Response(u)
    ensures multiset(Sent(out, m, ok))[Response(u)] == multiset(out)[Response(u)]
  {
    Appended(out, m, ok);
  }

  lemma SilentHandled(s: State, line: Line, ok: bool, u: Uid)
    requires Silent(s.workers, s.out, u) && u < s.next
    ensures var s' := Handled(s, line, ok); Silent(s'.workers, s'.out, u)
  {
    Uncounted(s.out, Direct, ok, u);
    Uncounted(s.out, Refusal(s.next, DUPLICATE), ok, u);
    Uncounted(s.out, Refusal(s.next, TOO_MANY), ok, u);
  }

  lemma SilentStep(s: State, step: Step, s': State, u: Uid)
    requires Silent(s.workers, s.out, u) && Next(s, step, s') && u < s.next
    ensures Silent(s'.workers, s'.out, u)
  {
    if step.Handle? {
      SilentHandled(s, s.main.line, step.ok, u);
    } else if step.Write? {
      Appended(s.out, Response(step.u), step.ok);
    }
  }

  /** A call cancelled before its worker looked at the flag is never answered. */
  lemma {:induction false} CancelledIsSilent(run: seq<State>, steps: seq<Step>, i: nat, j: nat, u: Uid)
    requires IsRun(run, steps) && i <= j < |run| && u in run[i].workers
    requires run[i].workers[u].cancelled && (run[i].workers[u].phase.Answering? || run[i].workers[u].phase.Answered?)
    ensures Silent(run[j].workers, run[j].out, u)
    decreases j
  {
    if i == j {
      RunKeeps(run, steps, i);
    } else {
      CancelledIsSilent(run, steps, i, j - 1, u);
      RunKeeps(run, steps, j - 1);
      SilentStep(run[j - 1], steps[j - 1], run[j], u);
    }
  }
}
