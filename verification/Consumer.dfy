/** The example consumer (examples/kafka-consumer/main.go): fetch, handle, commit, with
    crashes, restarts and failed commits, on one partition of the topic. */
module Consumer {
  datatype Message = Malformed | Envelope(id: string)

  // The handler

  class IdempotentHandler {
    var seen: set<string>
    var applied: seq<string>            // the work done in this life, in order

    constructor ()
      ensures seen == {} && applied == []
    {
      seen, applied := {}, [];
    }

    /** true asks for redelivery; as written the work cannot fail. */
    method Handle(m: Message) returns (retry: bool)
      modifies this
      ensures !retry
      ensures m.Envelope? && m.id !in old(seen) ==> applied == old(applied) + [m.id] && seen == old(seen) + {m.id}
      ensures m.Malformed? || m.id in old(seen) ==> applied == old(applied) && seen == old(seen)
      ensures (seen, applied) == Handled(old(seen), old(applied), m)
    {
      if m.Malformed? {
        return false;
      }
      if m.id in seen {
        return false;
      }
      applied := applied + [m.id];
      seen := seen + {m.id};
      return false;
    }
  }

  function Handled(seen: set<string>, applied: seq<string>, m: Message): (set<string>, seq<string>) {
    if m.Malformed? || m.id in seen then (seen, applied) else (seen + {m.id}, applied + [m.id])
  }

  // The loop

  datatype Pc = Idle | Fetched(offset: nat) | ToCommit(offset: nat)

  datatype State = State(
    log: seq<Message>, committed: nat,                    // the broker
    position: nat, pc: Pc,                                // this process life
    seen: set<string>, applied: seq<string>,
    effects: set<string>)                                 // history: ids that were applied in any life

  datatype Event =
    | Produce(m: Message)
    | Fetch
    | Handle
    | HandleFails                // a handler with real work that returns an error
    | Commit
    | CommitFails
    | Crash                      // and restart at the committed offset
    | CrashAfterWork             // between the work and marking it seen

  function Init(): State { State([], 0, 0, Idle, {}, [], {}) }

  function Restarted(s: State): State { s.(position := s.committed, pc := Idle, seen := {}, applied := []) }

  function Step(s: State, e: Event): State {
    match e
    case Produce(m) => s.(log := s.log + [m])
    case Fetch =>
      if s.pc.Idle? && s.position < |s.log| then s.(pc := Fetched(s.position), position := s.position + 1) else s
    case Handle =>
      if s.pc.Fetched? && s.pc.offset < |s.log| then
        var m := s.log[s.pc.offset];
        var (seen, applied) := Handled(s.seen, s.applied, m);
        s.(pc := ToCommit(s.pc.offset), seen := seen, applied := applied,
           effects := s.effects + set id | id in applied)
      else s
    case HandleFails => if s.pc.Fetched? then s.(pc := Idle) else s
    case Commit => if s.pc.ToCommit? then s.(committed := s.pc.offset + 1, pc := Idle) else s
    case CommitFails => if s.pc.ToCommit? then s.(pc := Idle) else s
    case Crash => Restarted(s)
    case CrashAfterWork =>
      if s.pc.Fetched? && s.pc.offset < |s.log| && s.log[s.pc.offset].Envelope? && s.log[s.pc.offset].id !in s.seen
      then Restarted(s.(effects := s.effects + {s.log[s.pc.offset].id}))
      else Restarted(s)
  }

  function Run(s: State, es: seq<Event>): State
    decreases |es|
  {
    if es == [] then s else Run(Step(s, es[0]), es[1..])
  }

  /** Nothing is left to do for the message. */
  predicate Settled(s: State, i: nat) {
    i < |s.log| && (s.log[i].Malformed? || s.log[i].id in s.effects)
  }

  /** The messages this life is past: all below the position but one just fetched. */
  function Passed(s: State): nat {
    if s.pc.Fetched? then s.pc.offset else s.position
  }

  ghost predicate LoopInv(s: State) {
    && s.committed <= Passed(s) && s.position <= |s.log|
    && (s.pc.Fetched? || s.pc.ToCommit? ==> s.pc.offset + 1 == s.position)
    && (forall id :: id in s.seen ==> id in s.applied)
    && (forall id :: id in s.applied ==> id in s.seen && id in s.effects)
    && (forall id :: id in s.effects ==> Envelope(id) in s.log)
    && (forall i, j :: 0 <= i < j < |s.applied| ==> s.applied[i] != s.applied[j])
  }

  ghost predicate AllSettled(s: State, below: nat) {
    forall i :: 0 <= i < below ==> Settled(s, i)
  }

  lemma StepKeepsLoop(s: State, e: Event)
    requires LoopInv(s)
    ensures LoopInv(Step(s, e)) && s.committed <= Step(s, e).committed && |s.log| <= |Step(s, e).log|
    ensures e != HandleFails && AllSettled(s, Passed(s)) ==> AllSettled(Step(s, e), Passed(Step(s, e)))
  {
    var s' := Step(s, e);
    assert forall i :: 0 <= i < |s.log| ==> s'.log[i] == s.log[i];
    assert s.effects <= s'.effects;
    assert forall i :: Settled(s, i) ==> Settled(s', i);
    if e.Handle? && s.pc.Fetched? {
      assert Settled(s', s.pc.offset);
    }
    forall i | 0 <= i < Passed(s') && e != HandleFails && AllSettled(s, Passed(s)) ensures Settled(s', i) {
      assert i < Passed(s) ==> Settled(s, i);
    }
  }

  lemma {:induction false} RunKeepsLoop(s: State, es: seq<Event>)
    requires LoopInv(s)
    ensures LoopInv(Run(s, es)) && s.committed <= Run(s, es).committed
    ensures HandleFails !in es && AllSettled(s, Passed(s)) ==> AllSettled(Run(s, es), Passed(Run(s, es)))
    decreases |es|
  {
    if es != [] {
      StepKeepsLoop(s, es[0]);
      RunKeepsLoop(Step(s, es[0]), es[1..]);
      assert es[0] in es;
    }
  }

  /** With the handler as written: in every run with crashes, restarts and failed commits
      each message below the committed offset is malformed or was worked on, and in one
      process life no id is worked on twice. */
  lemma AtLeastOnce(es: seq<Event>)
    requires HandleFails !in es
    ensures var s := Run(Init(), es);
            && AllSettled(s, s.committed)
            && forall i, j :: 0 <= i < j < |s.applied| ==> s.applied[i] != s.applied[j]
  {
    RunKeepsLoop(Init(), es);
  }

  // A handler that can fail

  lemma {:induction false} RunAppend(s: State, es: seq<Event>, more: seq<Event>)
    ensures Run(s, es + more) == Run(Run(s, es), more)
    decreases |es|
  {
    if es == [] {
      assert es + more == more;
    } else {
      RunAppend(Step(s, es[0]), es[1..], more);
      assert (es + more)[1..] == es[1..] + more;
    }
  }

  /** From an idle consumer every message from the position on can be reached. */
  lemma {:induction false} Reach(s: State, offset: nat)
    requires s.pc.Idle? && s.position <= offset < |s.log|
    ensures exists es :: Run(s, es).pc == Fetched(offset)
    decreases offset - s.position
  {
    var s1 := Step(s, Fetch);
    assert Run(s, [Fetch]) == Run(s1, []) == s1;
    if s.position < offset {
      var s2 := Step(s1, HandleFails);
      Reach(s2, offset);
      var es :| Run(s2, es).pc == Fetched(offset);
      assert [Fetch, HandleFails][1..] == [HandleFails];
      assert Run(s, [Fetch, HandleFails]) == Run(s1, [HandleFails]) == Run(s2, []) == s2;
      RunAppend(s, [Fetch, HandleFails], es);
    }
  }

  /** When a message can still be delivered: exactly as long as no commit has passed it.
      Leaving a failed message uncommitted is not enough to have it redelivered. */
  lemma RedeliverableIff(es: seq<Event>, offset: nat)
    requires offset < |Run(Init(), es).log|
    ensures var s := Run(Init(), es);
            (exists more :: Run(s, more).pc == Fetched(offset)) <==> s.committed <= offset
  {
    var s := Run(Init(), es);
    RunKeepsLoop(Init(), es);
    if s.committed <= offset {
      var s1 := Step(s, Crash);
      assert Run(s, [Crash]) == Run(s1, []) == s1;
      Reach(s1, offset);
      var more :| Run(s1, more).pc == Fetched(offset);
      RunAppend(s, [Crash], more);
    }
    forall more | Run(s, more).pc == Fetched(offset) ensures s.committed <= offset {
      RunKeepsLoop(s, more);
    }
  }

  /** A failed message followed by a handled one is committed past and lost. */
  lemma FailureThenSuccessLoses(a: string, b: string)
    requires a != b
    ensures var es := [Produce(Envelope(a)), Produce(Envelope(b)), Fetch, HandleFails, Fetch, Handle, Commit];
            var s := Run(Init(), es);
            s.committed == 2 && !Settled(s, 0) && forall more :: Run(s, more).pc != Fetched(0)
  {
    var first := [Produce(Envelope(a)), Produce(Envelope(b)), Fetch, HandleFails];
    var second := [Fetch, Handle, Commit];
    var es := [Produce(Envelope(a)), Produce(Envelope(b)), Fetch, HandleFails, Fetch, Handle, Commit];
    var s1 := Step(Init(), Produce(Envelope(a)));
    var s2 := Step(s1, Produce(Envelope(b)));
    var s4 := Step(Step(s2, Fetch), HandleFails);
    assert s4 == State([Envelope(a), Envelope(b)], 0, 1, Idle, {}, [], {});
    assert first[1..][1..] == [Fetch, HandleFails] && [Fetch, HandleFails][1..] == [HandleFails];
    assert Run(Init(), first) == Run(s1, first[1..]) == Run(s2, [Fetch, HandleFails]);
    assert Run(s2, [Fetch, HandleFails]) == Run(Step(s2, Fetch), [HandleFails]) == Run(s4, []);
    var s5 := Step(s4, Fetch);
    var s6 := Step(s5, Handle);
    var s7 := Step(s6, Commit);
    assert second[1..] == [Handle, Commit] && [Handle, Commit][1..] == [Commit];
    assert Run(s4, second) == Run(s5, [Handle, Commit]) == Run(s6, [Commit]) == Run(s7, []);
    assert es == first + second;
    RunAppend(Init(), first, second);
    assert s7.committed == 2 && s7.effects == {b} && s7.log == s4.log;
    forall more ensures Run(s7, more).pc != Fetched(0) {
      RedeliverableIff(es, 0);
    }
  }
}
