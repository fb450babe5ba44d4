/** What the input lines of `vh mcp` do (core/main/cli_mcp.cpp), over whole runs: which calls are refused, which are
    cancelled and what follows, and what the loop itself answers. */
module McpLines {
  import opened Wrappers
  import opened Mcp

  // ---- cancellations -----------------------------------------------------------------------------------------

  /** A cancel line with the id under which the call is listed. */
  predicate Names(line: Line, calls: Calls, u: Uid) {
    line.Cancel? && line.target.Some? && line.target.value in calls && calls[line.target.value] == u
  }

  /** The loop handles a line that cancels the call, or cancels all that are left. */
  ghost predicate Cancels(s: State, step: Step, u: Uid) {
    || (step.Handle? && s.main.Joining? && Names(s.main.line, s.calls, u))
    || (step.CancelAll? && exists k :: k in s.calls && s.calls[k] == u)
  }

  lemma CancelStep(s: State, step: Step, s': State, u: Uid)
    requires Inv(s) && Next(s, step, s') && u in s.workers
    ensures u in s'.workers && s'.workers[u].key == s.workers[u].key
    ensures s'.workers[u].cancelled <==> s.workers[u].cancelled || Cancels(s, step, u)
    ensures Cancels(s, step, u) ==> s'.workers[u].phase == s.workers[u].phase
  {
    assert u < s.next;
    if step.Handle? { CancelHandled(s, s.main.line, step.ok, u); } else { CancelOther(s, step, u); }
  }

  lemma CancelHandled(s: State, line: Line, ok: bool, u: Uid)
    requires u in s.workers && u < s.next
    ensures var t := Handled(s, line, ok);
      && u in t.workers && t.workers[u].key == s.workers[u].key && t.workers[u].phase == s.workers[u].phase
      && (t.workers[u].cancelled <==> s.workers[u].cancelled || Names(line, s.calls, u))
  {
  }

  lemma CancelOther(s: State, step: Step, u: Uid)
    requires u in s.workers && Enabled(s, step) && !step.Handle?
    ensures var t := Apply(s, step);
      && u in t.workers && t.workers[u].key == s.workers[u].key
      && (t.workers[u].cancelled <==> s.workers[u].cancelled || (step.CancelAll? && u in s.calls.Values))
      && (step.CancelAll? ==> t.workers[u].phase == s.workers[u].phase)
  {
  }

  lemma NewWorker(s: State, step: Step, s': State, u: Uid)
    requires Next(s, step, s') && u !in s.workers && u in s'.workers
    ensures !s'.workers[u].cancelled
  {
  }

  ghost predicate CancelledBy(run: seq<State>, steps: seq<Step>, i: nat, u: Uid)
    requires i <= |steps| < |run|
  {
    exists j {:trigger steps[j]} :: 0 <= j < i && Cancels(run[j], steps[j], u)
  }

  lemma CancelledByLast(run: seq<State>, steps: seq<Step>, i: nat, u: Uid)
    requires i < |steps| < |run|
    ensures CancelledBy(run, steps, i + 1, u) <==> CancelledBy(run, steps, i, u) || Cancels(run[i], steps[i], u)
  {
    if CancelledBy(run, steps, i, u) {
      var j :| 0 <= j < i && Cancels(run[j], steps[j], u);
      assert Cancels(run[j], steps[j], u);
    }
  }

  lemma CancelsListed(s: State, step: Step, u: Uid)
    requires Inv(s) && Cancels(s, step, u)
    ensures u in s.workers
  {
  }

  /** Only calls that were accepted are cancelled, and each is exactly when a line named it or the loop gave up while it
      was listed. */
  lemma {:induction false} CancelledExactly(run: seq<State>, steps: seq<Step>, i: nat, u: Uid)
    requires IsRun(run, steps) && i < |run|
    ensures u in run[i].workers && run[i].workers[u].cancelled <==> CancelledBy(run, steps, i, u)
  {
    if i > 0 {
      var s, step := run[i - 1], steps[i - 1];
      CancelledExactly(run, steps, i - 1, u);
      CancelledByLast(run, steps, i - 1, u);
      RunKeeps(run, steps, i - 1);
      if u in s.workers {
        CancelStep(s, step, run[i], u);
      } else {
        if u in run[i].workers { NewWorker(s, step, run[i], u); }
        if Cancels(s, step, u) { CancelsListed(s, step, u); }
      }
    }
  }

  /** A call that is cancelled before its worker has looked at the flag is never answered. */
  lemma CancelSilences(run: seq<State>, steps: seq<Step>, i: nat, j: nat, u: Uid)
    requires IsRun(run, steps) && i < |steps| && i < j < |run| && Cancels(run[i], steps[i], u)
    requires u in run[i].workers && (run[i].workers[u].phase.Answering? || run[i].workers[u].phase.Answered?)
    ensures Silent(run[j].workers, run[j].out, u)
  {
    RunKeeps(run, steps, i);
    CancelStep(run[i], steps[i], run[i + 1], u);
    CancelledIsSilent(run, steps, i + 1, j, u);
  }

  /** A cancel line changes nothing but that one flag, and no cancel line changes anything else. */
  lemma CancelLine(run: seq<State>, steps: seq<Step>, i: nat, target: Option<Key>)
    requires IsRun(run, steps) && i < |steps| && steps[i].Handle?
    requires run[i].main.Joining? && run[i].main.line == Cancel(target)
    ensures run[i + 1].out == run[i].out && run[i + 1].calls == run[i].calls && run[i + 1].main == Waiting
    ensures run[i + 1].workers.Keys == run[i].workers.Keys
    ensures forall v :: v in run[i].workers && !Cancels(run[i], steps[i], v) ==>
      run[i + 1].workers[v] == run[i].workers[v]
  {
    RunKeeps(run, steps, i);
    assert Next(run[i], steps[i], run[i + 1]);
  }

  /** When the input or the output is gone, every call that is still listed is cancelled. */
  lemma ShutdownCancels(run: seq<State>, steps: seq<Step>, i: nat, k: Key)
    requires IsRun(run, steps) && i < |steps| && steps[i].CancelAll? && k in run[i].calls
    ensures run[i].calls[k] in run[i + 1].workers && run[i + 1].workers[run[i].calls[k]].cancelled
  {
    RunKeeps(run, steps, i);
    CancelStep(run[i], steps[i], run[i + 1], run[i].calls[k]);
  }

  // ---- answers -----------------------------------------------------------------------------------------------

  ghost predicate RepliedBy(steps: seq<Step>, i: nat, u: Uid)
    requires i <= |steps|
  {
    exists j :: 0 <= j < i && steps[j] == Answer(u, true)
  }

  lemma ReplyStep(s: State, step: Step, s': State, u: Uid)
    requires Next(s, step, s')
    ensures u in s'.replied <==> u in s.replied || step == Answer(u, true)
    ensures u in s'.saw ==> u in s.saw || (step == Look(u) && s.workers[u].cancelled)
  {
  }

  lemma {:induction false} RepliedExactly(run: seq<State>, steps: seq<Step>, i: nat, u: Uid)
    requires IsRun(run, steps) && i < |run|
    ensures u in run[i].replied <==> RepliedBy(steps, i, u)
  {
    if i > 0 {
      RepliedExactly(run, steps, i - 1, u);
      ReplyStep(run[i - 1], steps[i - 1], run[i], u);
      if RepliedBy(steps, i - 1, u) {
        var j :| 0 <= j < i - 1 && steps[j] == Answer(u, true);
        assert steps[j] == Answer(u, true);
      }
    }
  }

  lemma {:induction false} SawIsCancelled(run: seq<State>, steps: seq<Step>, i: nat, u: Uid)
    requires IsRun(run, steps) && i < |run| && u in run[i].saw
    ensures CancelledBy(run, steps, i, u)
  {
    if i > 0 {
      ReplyStep(run[i - 1], steps[i - 1], run[i], u);
      CancelledByLast(run, steps, i - 1, u);
      if u in run[i - 1].saw {
        SawIsCancelled(run, steps, i - 1, u);
      } else {
        CancelledExactly(run, steps, i - 1, u);
      }
    }
  }

  /** A call that nobody cancelled and whose handler replied is answered once, by the time its worker is done, unless
      the write failed. */
  lemma UncancelledIsAnswered(run: seq<State>, steps: seq<Step>, i: nat, u: Uid)
    requires IsRun(run, steps) && i < |run| && u in run[i].workers && run[i].workers[u].phase.Done?
    requires RepliedBy(steps, i, u) && !CancelledBy(run, steps, i, u) && !LostBy(run, steps, i, u)
    ensures multiset(run[i].out)[Response(u)] == 1
  {
    CallsAreAnswered(run, steps, i);
    RepliedExactly(run, steps, i, u);
    LostExactly(run, steps, i, u);
    if u in run[i].saw { SawIsCancelled(run, steps, i, u); }
  }

  // ---- calls -------------------------------------------------------------------------------------------------

  /** The calls whose threads have not been joined. */
  function Unjoined(s: State): set<Uid> {
    set u | u in s.workers && u !in s.joined
  }

  lemma {:induction false} ValuesSize(calls: Calls)
    requires forall j, k :: j in calls && k in calls && j != k ==> calls[j] != calls[k]
    ensures |calls.Values| == |calls|
    decreases |calls|
  {
    if calls != map[] {
      var k :| k in calls;
      var rest := calls - {k};
      assert rest.Keys == calls.Keys - {k};
      ValuesSize(rest);
      assert calls.Values == rest.Values + {calls[k]} by {
        forall v | v in calls.Values ensures v in rest.Values + {calls[k]} {
          var j :| j in calls && calls[j] == v;
          assert j != k ==> j in rest && rest[j] == v;
        }
      }
      assert calls[k] !in rest.Values;
    }
  }

  lemma ListedAreUnjoined(s: State)
    requires Inv(s) && s.main.Joining? && s.main.finished == {}
    ensures Unjoined(s) == s.calls.Values && |Unjoined(s)| == |s.calls|
    ensures forall k :: k in s.calls <==> exists u :: u in Unjoined(s) && s.workers[u].key == k
  {
    assert forall j, k :: j in s.calls && k in s.calls && j != k ==> s.calls[j] != s.calls[k];
    ValuesSize(s.calls);
    assert Unjoined(s) == s.calls.Values;
    forall k | k in s.calls ensures exists u :: u in Unjoined(s) && s.workers[u].key == k {
      assert s.calls[k] in Unjoined(s) && s.workers[s.calls[k]].key == k;
    }
  }

  /** A call is refused with -32600 when one of its id has a thread that is not joined yet, else with -32000 when eight
      calls have, and else it gets a thread. */
  lemma CallsAreDecided(run: seq<State>, steps: seq<Step>, i: nat, key: Key)
    requires IsRun(run, steps) && i < |steps| && steps[i].Handle?
    requires run[i].main.Joining? && run[i].main.line == Call(key)
    ensures var s, s' := run[i], run[i + 1];
      && s'.next == s.next + 1 && s.next !in s.workers && s.next !in s.refused
      && (if exists u :: u in Unjoined(s) && s.workers[u].key == key then
            s'.workers == s.workers && s'.refused == s.refused[s.next := -32600]
          else if |Unjoined(s)| >= 8 then
            s'.workers == s.workers && s'.refused == s.refused[s.next := -32000]
          else
            s'.workers == s.workers[s.next := Worker(key, false, Answering)] && s'.refused == s.refused)
  {
    RunKeeps(run, steps, i);
    assert Next(run[i], steps[i], run[i + 1]);
    ListedAreUnjoined(run[i]);
  }

  /** Joined, or about to be. */
  predicate Reaped(s: State, u: Uid) {
    u in s.joined || (s.main.Joining? && u in s.main.finished)
  }

  lemma ReapStarts(s: State, s': State, u: Uid)
    requires Inv(s) && Next(s, Reap, s') && IsDone(s, u)
    ensures Reaped(s', u)
  {
    assert u !in s.joined ==> s.calls[s.workers[u].key] == u;
    assert u !in s.joined ==> u in Finished(s);
  }

  lemma ReapGoesOn(s: State, step: Step, s': State, u: Uid)
    requires Reaped(s, u) && Next(s, step, s') && !step.Handle?
    ensures Reaped(s', u)
  {
  }

  /** Before it handles a line, the loop has joined every call that was done when it got to it. */
  lemma {:induction false} FinishedAreJoined(run: seq<State>, steps: seq<Step>, i: nat, j: nat, u: Uid)
    requires IsRun(run, steps) && i < j < |run| && steps[i].Reap? && IsDone(run[i], u)
    requires forall k :: i < k < j ==> !steps[k].Handle?
    ensures Reaped(run[j], u)
    ensures j < |steps| && steps[j].Handle? ==> u in run[j].joined
    decreases j
  {
    if j == i + 1 {
      RunKeeps(run, steps, i);
      ReapStarts(run[i], run[j], u);
    } else {
      FinishedAreJoined(run, steps, i, j - 1, u);
      ReapGoesOn(run[j - 1], steps[j - 1], run[j], u);
    }
    if j < |steps| { assert Next(run[j], steps[j], run[j + 1]); }
  }

  // ---- the loop's own answers --------------------------------------------------------------------------------

  /** The loop has something of its own to say: a line that does not parse, or a request it answers itself. */
  predicate Speaks(s: State, step: Step) {
    step.Handle? && s.main.Joining? && (s.main.line.Garbage? || s.main.line == Other(true))
  }

  function Spoken(run: seq<State>, steps: seq<Step>, i: nat): nat
    requires i <= |steps| < |run|
  {
    if i == 0 then 0
    else Spoken(run, steps, i - 1) + if Speaks(run[i - 1], steps[i - 1]) && steps[i - 1].ok then 1 else 0
  }

  lemma SpeakStep(s: State, step: Step, s': State)
    requires Next(s, step, s')
    ensures multiset(s'.out)[Direct] == multiset(s.out)[Direct] + if Speaks(s, step) && step.ok then 1 else 0
  {
    if step.Handle? {
      SpeakHandled(s, s.main.line, step.ok);
    } else if step.Write? {
      NotDirect(s.out, Response(step.u), step.ok);
    }
  }

  lemma NotDirect(out: seq<Message>, m: Message, ok: bool)
    requires m != Direct
    ensures multiset(Sent(out, m, ok))[Direct] == multiset(out)[Direct]
  {
    Appended(out, m, ok);
  }

  lemma SpeakHandled(s: State, line: Line, ok: bool)
    ensures multiset(Handled(s, line, ok).out)[Direct] ==
      multiset(s.out)[Direct] + if (line.Garbage? || line == Other(true)) && ok then 1 else 0
  {
    if line.Garbage? || line.Other? {
      Appended(s.out, Direct, ok);
    } else if line.Call? {
      NotDirect(s.out, Refusal(s.next, DUPLICATE), ok);
      NotDirect(s.out, Refusal(s.next, TOO_MANY), ok);
    }
  }

  /** The loop answers each such line once, if the write succeeds. */
  lemma {:induction false} LoopAnswers(run: seq<State>, steps: seq<Step>, i: nat)
    requires IsRun(run, steps) && i < |run|
    ensures multiset(run[i].out)[Direct] == Spoken(run, steps, i)
  {
    if i > 0 {
      LoopAnswers(run, steps, i - 1);
      SpeakStep(run[i - 1], steps[i - 1], run[i]);
    }
  }

  /** The loop ends with the input or with the first failed write of its own, and with nothing else. */
  lemma LoopEnds(run: seq<State>, steps: seq<Step>, i: nat)
    requires IsRun(run, steps) && i < |steps|
    ensures run[i + 1].main.Closing? && !run[i].main.Closing? <==>
      || steps[i].Eof?
      || (steps[i] == Handle(false) && (Speaks(run[i], steps[i]) || run[i + 1].refused != run[i].refused))
  {
    RunKeeps(run, steps, i);
    var s, step := run[i], steps[i];
    assert Next(s, step, run[i + 1]) && s.next !in s.refused;
    if step.Handle? { EndHandled(s, s.main.line, step.ok); } else { EndOther(s, step); }
  }

  lemma EndHandled(s: State, line: Line, ok: bool)
    requires s.next !in s.refused
    ensures Handled(s, line, ok).main.Closing? <==>
      !ok && (line.Garbage? || line == Other(true) || Handled(s, line, ok).refused != s.refused)
  {
  }

  lemma EndOther(s: State, step: Step)
    requires Enabled(s, step) && !step.Handle?
    ensures Apply(s, step).main.Closing? && !s.main.Closing? <==> step.Eof?
  {
  }
}
