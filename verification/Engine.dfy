/** The operator's side of a run: decisions, the control wire and the scripted debugger. */
module Debugging {
  import opened Wrappers

  /** A debugger's decision. `Unknown` is any string outside the declared set. */
  datatype Action = Next | Rerun | Continue | Quit | Unknown(text: string)

  /** One decoded message of the control stream. */
  datatype Control = Control(cmd: Action, ack: int)

  /** What a pause ends in: a decision, or an error because nobody is left to decide. */
  datatype Answer = Act(action: Action) | Lost

  /** Everything a debugger may still say. */
  datatype Channel =
    | Off
    | Script(answers: seq<Action>)
    | Wire(controls: seq<Control>, announcements: nat)

  /** A control is obeyed only when it names this pause and carries a declared action. */
  predicate Matches(c: Control, position: nat) {
    c.ack == position && !c.cmd.Unknown?
  }

  /** Where the first control that matches stands, or the length of the stream. */
  function FirstMatch(controls: seq<Control>, position: nat): (k: nat)
    ensures k <= |controls|
    ensures forall j :: 0 <= j < k ==> !Matches(controls[j], position)
    ensures k < |controls| ==> Matches(controls[k], position)
  {
    if controls == [] || Matches(controls[0], position) then 0
    else 1 + FirstMatch(controls[1..], position)
  }

  /** A pause at `position`: the answer, the controls read while waiting, and what is left. */
  function Ask(ch: Channel, position: nat): (r: (Answer, seq<Control>, Channel))
    requires !ch.Off?
    ensures !r.2.Off?
    ensures r.0.Act? ==> Remaining(r.2) < Remaining(ch)
    ensures ch.Wire? ==> r.2.Wire? && r.1 + r.2.controls == ch.controls
  {
    match ch
    case Script(answers) =>
      if answers == [] then (Lost, [], ch) else (Act(answers[0]), [], Script(answers[1..]))
    case Wire(controls, announcements) =>
      if announcements == 0 then (Lost, [], ch)
      else
        var k := FirstMatch(controls, position);
        if k < |controls| then
          (Act(controls[k].cmd), controls[..k + 1], Wire(controls[k + 1..], announcements - 1))
        else (Lost, controls, Wire([], announcements - 1))
  }

  /** Control `k` is the first of `cs` that carries this pause's number and a declared action. */
  ghost predicate AnsweredBy(cs: seq<Control>, position: nat, k: nat) {
    && k < |cs| && cs[k].ack == position && cs[k].cmd in {Next, Rerun, Continue, Quit}
    && forall j :: 0 <= j < k ==> cs[j].ack != position || cs[j].cmd !in {Next, Rerun, Continue, Quit}
  }

  /** Controls for other pauses, and unknown actions, are passed over: the first that answers is obeyed. */
  lemma AskSkipsStale(cs: seq<Control>, announcements: nat, position: nat, k: nat)
    requires announcements > 0 && AnsweredBy(cs, position, k)
    ensures Ask(Wire(cs, announcements), position) ==
            (Act(cs[k].cmd), cs[..k + 1], Wire(cs[k + 1..], announcements - 1))
  {
    LeastMatch(cs, position, k);
  }

  lemma LeastMatch(cs: seq<Control>, position: nat, k: nat)
    requires k < |cs| && Matches(cs[k], position) && forall j :: 0 <= j < k ==> !Matches(cs[j], position)
    ensures FirstMatch(cs, position) == k
  {
  }

  /** A pause on the wire is lost exactly when it cannot be announced, or nothing that comes answers it. */
  lemma AskLostIff(cs: seq<Control>, announcements: nat, position: nat)
    ensures Ask(Wire(cs, announcements), position).0 == Lost <==>
              announcements == 0 || forall k :: 0 <= k < |cs| ==>
                                      cs[k].ack != position || cs[k].cmd !in {Next, Rerun, Continue, Quit}
  {
    var k := FirstMatch(cs, position);
    assert k < |cs| ==> Matches(cs[k], position);
  }

  /** What a pause answers and leaves, from what was queued: stale and unknown controls are skipped. */
  ghost predicate PauseFits(cs: seq<Control>, announcements: nat, position: nat, answer: Answer,
                            left: seq<Control>, announcements': nat) {
    if announcements == 0 then answer == Lost && left == cs && announcements' == 0
    else
      && announcements' == announcements - 1
      && (forall k: nat :: AnsweredBy(cs, position, k) ==> answer == Act(cs[k].cmd) && left == cs[k + 1..])
      && (answer == Lost <==> forall k :: 0 <= k < |cs| ==>
                                cs[k].ack != position || cs[k].cmd !in {Next, Rerun, Continue, Quit})
      && (answer == Lost ==> left == [])
  }

  lemma AskFits(cs: seq<Control>, announcements: nat, position: nat)
    ensures var r := Ask(Wire(cs, announcements), position);
            PauseFits(cs, announcements, position, r.0, r.2.controls, r.2.announcements)
  {
    if announcements > 0 {
      AskLostIff(cs, announcements, position);
      forall k: nat | AnsweredBy(cs, position, k)
        ensures Ask(Wire(cs, announcements), position) ==
                (Act(cs[k].cmd), cs[..k + 1], Wire(cs[k + 1..], announcements - 1))
      {
        AskSkipsStale(cs, announcements, position, k);
      }
    }
  }

  function Remaining(ch: Channel): nat {
    match ch
    case Off => 0
    case Script(answers) => |answers|
    case Wire(controls, _) => |controls|
  }

  /** `FakeDebugger` (pipeline/fake.go): one scripted answer per pause, then an error. */
  class FakeDebugger {
    const script: seq<Action>
    var pauses: seq<nat>

    constructor (script: seq<Action>)
      ensures this.script == script && pauses == []
    {
      this.script := script;
      pauses := [];
    }

    function Channel(): Channel
      reads this
    {
      Script(if |pauses| <= |script| then script[|pauses|..] else [])
    }

    method Pause(position: nat) returns (answer: Answer)
      modifies this
      ensures pauses == old(pauses) + [position]
      ensures answer == if |old(pauses)| < |script| then Act(script[|old(pauses)|]) else Lost
      ensures (answer, [], Channel()) == Ask(old(Channel()), position)
    {
      pauses := pauses + [position];
      if |pauses| > |script| {
        return Lost;
      }
      return Act(script[|pauses| - 1]);
    }
  }

  /**
   * `Server` (pipeline/debug/server.go). `controls` is what the decoder will still yield before it
   * fails; `announcements` is how many more pause events the connection accepts.
   */
  class Server {
    var controls: seq<Control>
    var announcements: nat

    constructor (controls: seq<Control>, announcements: nat)
      ensures this.controls == controls && this.announcements == announcements
    {
      this.controls, this.announcements := controls, announcements;
    }

    function Channel(): Channel
      reads this
    {
      Wire(controls, announcements)
    }

    method Pause(position: nat) returns (answer: Answer, ghost heard: seq<Control>)
      modifies this
      ensures (answer, heard, Channel()) == Ask(old(Channel()), position)
      ensures PauseFits(old(controls), old(announcements), position, answer, controls, announcements)
    {
      if announcements == 0 {
        return Lost, [];
      }
      announcements := announcements - 1;
      answer, heard := Listen(position);
      AskFits(old(controls), old(announcements), position);
    }

    /** Reads controls until one answers the pause or the stream ends. */
    method Listen(position: nat) returns (answer: Answer, ghost heard: seq<Control>)
      modifies this`controls
      ensures var k := FirstMatch(old(controls), position);
              if k < |old(controls)| then
                && answer == Act(old(controls)[k].cmd)
                && heard == old(controls)[..k + 1] && controls == old(controls)[k + 1..]
              else answer == Lost && heard == old(controls) && controls == []
    {
      ghost var stream := controls;
      ghost var read := 0;
      while controls != []
        invariant read <= |stream| && controls == stream[read..]
        invariant FirstMatch(stream, position) == read + FirstMatch(controls, position)
        decreases |controls|
      {
        var c := controls[0];
        controls := controls[1..];
        read := read + 1;
        if c.ack != position {
          continue;
        }
        if c.cmd.Unknown? {
          continue;
        }
        return Act(c.cmd), stream[..read];
      }
      return Lost, stream;
    }
  }

  /** Go's `Debugger` interface value: nil, the scripted double or the socket server. */
  datatype Debugger = Detached | Scripted(fake: FakeDebugger) | Remote(server: Server)
  {
    function Objects(): set<object> {
      match this
      case Detached => {}
      case Scripted(f) => {f}
      case Remote(s) => {s}
    }

    function Channel(): Channel
      reads Objects()
    {
      match this
      case Detached => Off
      case Scripted(f) => f.Channel()
      case Remote(s) => s.Channel()
    }

    method Pause(position: nat) returns (answer: Answer, ghost heard: seq<Control>)
      requires !Detached?
      modifies Objects()
      ensures (answer, heard, Channel()) == Ask(old(Channel()), position)
    {
      match this
      case Scripted(f) =>
        answer := f.Pause(position);
        heard := [];
      case Remote(s) =>
        answer, heard := s.Pause(position);
    }
  }
}

/** The step loop (`Pipeline.run` and `Pipeline.Run`, pipeline/pipeline.go). */
module Engine {
  import opened Wrappers
  import opened Bag
  import Wiring
  import opened Debugging

  /** How one execution of a step's body ended, and the values it left in the bag. */
  datatype Attempt = Attempt(after: Values, failed: bool)

  /**
   * Everything the engine does not control. The `n`-th execution of a run, of step `i` on a given
   * bag, may do anything; the context is polled once before each execution.
   */
  datatype World = World(attempt: (nat, nat, Values) -> Attempt, cancelled: nat -> bool)

  /** One turn of the loop: an execution of a step and the pause that followed it, if any. */
  datatype Turn = Turn(index: nat, before: Values, after: Values, failed: bool,
                       answer: Option<Answer>, heard: seq<Control>)

  /** Step indices are 0-based here; positions in messages and acks are one more. */
  datatype Outcome =
    | Success
    | Cancelled(index: nat)
    | StepFailed(index: nat)
    | Abandoned(index: nat)
    | DebuggerLost(index: nat)
    | BadAction(index: nat)

  datatype Machine = Machine(i: nat, values: Values, pauseOnSuccess: bool, chan: Channel, trace: seq<Turn>)

  datatype Move = Go(m: Machine) | Halt(outcome: Outcome, m: Machine)

  predicate Pauses(total: nat, m: Machine, failed: bool) {
    !m.chan.Off? && (failed || (m.i + 1 != total && m.pauseOnSuccess))
  }

  /** Executes the current step and, if the run pauses after it, asks the operator. */
  function Execute(total: nat, w: World, m: Machine): (r: (Turn, Channel))
    requires m.i < total
    ensures m.chan.Wire? ==> r.1.Wire? && r.0.heard + r.1.controls == m.chan.controls
  {
    var a := w.attempt(|m.trace|, m.i, m.values);
    if Pauses(total, m, a.failed) then
      var (answer, heard, chan) := Ask(m.chan, m.i + 1);
      (Turn(m.i, m.values, a.after, a.failed, Some(answer), heard), chan)
    else
      assert m.chan.Wire? ==> [] + m.chan.controls == m.chan.controls;
      (Turn(m.i, m.values, a.after, a.failed, None, []), m.chan)
  }

  /** What the loop does once turn `u` is over; `m` already records it. */
  function Decide(u: Turn, m: Machine): (r: Move)
    ensures r.m.trace == m.trace && r.m.chan == m.chan
  {
    match u.answer
    case None | Some(Act(Next)) =>
      if u.failed then Halt(StepFailed(u.index), m) else Go(m.(i := u.index + 1))
    case Some(Act(Rerun)) => Go(m.(values := u.before))
    case Some(Act(Continue)) =>
      if u.failed then Halt(StepFailed(u.index), m)
      else Go(m.(i := u.index + 1, pauseOnSuccess := false))
    case Some(Act(Quit)) => Halt(if u.failed then StepFailed(u.index) else Abandoned(u.index), m)
    case Some(Act(Unknown(_))) => Halt(BadAction(u.index), m)
    case Some(Lost) => Halt(DebuggerLost(u.index), m)
  }

  /** One iteration of the loop. */
  function Advance(total: nat, w: World, m: Machine): (r: Move)
    requires m.i < total
    ensures r.Go? ==> r.m.i <= total
    ensures r.Go? ==> Remaining(r.m.chan) < Remaining(m.chan)
                      || (Remaining(r.m.chan) == Remaining(m.chan) && r.m.i == m.i + 1)
  {
    if w.cancelled(|m.trace|) then Halt(Cancelled(m.i), m)
    else
      var (u, chan) := Execute(total, w, m);
      Decide(u, m.(values := u.after, chan := chan, trace := m.trace + [u]))
  }

  function RunFrom(total: nat, w: World, m: Machine): (r: (Outcome, Machine))
    requires m.i <= total
    decreases Remaining(m.chan), total - m.i
  {
    if m.i == total then (Success, m)
    else
      match Advance(total, w, m)
      case Go(m') => RunFrom(total, w, m')
      case Halt(o, m') => (o, m')
  }

  function Start(values: Values, chan: Channel): Machine {
    Machine(0, values, true, chan, [])
  }

  /** The pause after an execution: none without a debugger, at a last success, or once told to continue. */
  method AskOperator(total: nat, i: nat, failed: bool, pauseOnSuccess: bool, dbg: Debugger)
    returns (answer: Option<Answer>, ghost heard: seq<Control>)
    modifies dbg.Objects()
    ensures var ch := old(dbg.Channel());
            if !ch.Off? && (failed || (i + 1 != total && pauseOnSuccess))
            then answer.Some? && (answer.value, heard, dbg.Channel()) == Ask(ch, i + 1)
            else answer == None && heard == [] && dbg.Channel() == ch
  {
    var last := i + 1 == total;
    if dbg.Detached? || (last && !failed) || (!pauseOnSuccess && !failed) {
      return None, [];
    }
    var reply;
    reply, heard := dbg.Pause(i + 1);
    return Some(reply), heard;
  }

  /** One execution of step `i`, on the real bag, and the pause after it on the real debugger. */
  method ExecuteStep(total: nat, i: nat, n: nat, pauseOnSuccess: bool, s: State, dbg: Debugger, w: World,
                     ghost m: Machine)
    returns (before: Values, failed: bool, answer: Option<Answer>, ghost u: Turn)
    requires i < total && m.i == i && n == |m.trace| && m.pauseOnSuccess == pauseOnSuccess
    requires m.values == s.values && m.chan == dbg.Channel()
    modifies s, dbg.Objects()
    ensures (u, dbg.Channel()) == Execute(total, w, m)
    ensures u.failed == failed && u.answer == answer && u.after == s.values
    ensures answer.Some? ==> before == old(s.values)
  {
    before := map[];
    if !dbg.Detached? {
      before := s.Snapshot();
    }
    u := Execute(total, w, m).0;
    var a := w.attempt(n, i, s.values);
    s.values := a.after;
    assert dbg.Channel() == m.chan;
    failed := a.failed;
    ghost var heard;
    answer, heard := AskOperator(total, i, failed, pauseOnSuccess, dbg);
  }

  /** `Pipeline.run`: the loop over the real state bag and the real debugger. */
  method Drive(total: nat, s: State, dbg: Debugger, w: World) returns (o: Outcome, ghost m: Machine)
    modifies s, dbg.Objects()
    ensures (o, m) == RunFrom(total, w, Start(old(s.values), old(dbg.Channel())))
    ensures s.values == m.values && dbg.Channel() == m.chan
  {
    m := Start(s.values, dbg.Channel());
    ghost var whole := RunFrom(total, w, m);
    var pauseOnSuccess := true;
    var i, n := 0, 0;
    while i < total
      invariant i <= total && m.i == i && n == |m.trace|
      invariant m.values == s.values && m.chan == dbg.Channel() && m.pauseOnSuccess == pauseOnSuccess
      invariant whole == RunFrom(total, w, m)
      decreases Remaining(m.chan), total - i
    {
      ghost var move := Advance(total, w, m);
      if w.cancelled(n) {
        return Cancelled(i), m;
      }
      var before, failed, answer;
      ghost var u;
      before, failed, answer, u := ExecuteStep(total, i, n, pauseOnSuccess, s, dbg, w, m);
      n := n + 1;
      m := move.m;
      match answer {
        case None | Some(Act(Next)) =>
          if failed {
            return StepFailed(i), m;
          }
        case Some(Act(Rerun)) =>
          s.Restore(before);
          continue;
        case Some(Act(Continue)) =>
          if failed {
            return StepFailed(i), m;
          }
          pauseOnSuccess := false;
        case Some(Act(Quit)) =>
          if failed {
            return StepFailed(i), m;
          }
          return Abandoned(i), m;
        case Some(Act(Unknown(_))) => return BadAction(i), m;
        case Some(Lost) => return DebuggerLost(i), m;
      }
      i := i + 1;
    }
    return Success, m;
  }

  /** How `Pipeline.Run` ends; only `Ran` means that a step was executed. */
  datatype Ending = Invalid(fault: Wiring.Fault) | Planned | DebuggerRefused | Ran(outcome: Outcome)

  /** `Pipeline.Run`: validate, honour a forced listing, announce the plan, then walk the steps. */
  method Run(steps: seq<Wiring.Step>, s: State, dbg: Debugger, w: World, planning: bool, announced: bool)
    returns (e: Ending, ghost m: Machine)
    modifies s, dbg.Objects()
    ensures e.Invalid? <==> !Wiring.Wired(steps)
    ensures e.Invalid? ==> Wiring.IsFirstFault(steps, e.fault)
    ensures e.Planned? <==> Wiring.Wired(steps) && planning
    ensures !e.Ran? ==> s.values == old(s.values) && dbg.Channel() == old(dbg.Channel())
    ensures e.Ran? <==> Wiring.Wired(steps) && !planning && (dbg.Detached? || announced)
    ensures e.Ran? ==>
              && (e.outcome, m) == RunFrom(|steps|, w, Start(old(s.values), old(dbg.Channel())))
              && s.values == m.values && dbg.Channel() == m.chan
  {
    m := Start(s.values, dbg.Channel());
    var fault := Wiring.Validate(steps);
    if fault.Some? {
      return Invalid(fault.value), m;
    }
    if planning {
      return Planned, m;
    }
    if !dbg.Detached? && !announced {
      return DebuggerRefused, m;
    }
    var o;
    o, m := Drive(|steps|, s, dbg, w);
    return Ran(o), m;
  }
}
