/**
 * The single-instance lock (kit/lock/lock.go) as a protocol: any number of attempts, in any number
 * of processes, that may crash between any two of their file operations.
 */
module Lock {
  import opened Wrappers

  /** One call of `Acquire` that tries once, up to the `Release` of what it got. */
  type Attempt = nat

  type Pid = nat

  /** What an attempt writes. `since` makes records of one process distinct. */
  datatype Info = Info(pid: Pid, since: int, host: string)

  datatype File = Absent | Corrupt | Record(info: Info)

  /**
   * Where an attempt is. `Deciding` has read the file and goes on to steal it; `quiet` says that no
   * other attempt has taken a step since that read.
   */
  datatype Phase =
    | Ready
    | Exists
    | Deciding(quiet: bool)
    | Holding
    | Releasing
    | Removing
    | Done

  datatype State = State(file: File, phase: map<Attempt, Phase>, crashed: set<Pid>)

  /** The record each attempt writes; a distinct (pid, since) pair for each. */
  datatype Setup = Setup(self: Attempt -> Info)

  ghost predicate DistinctRecords(s: Setup) {
    forall a: Attempt, b: Attempt {:trigger s.self(a), s.self(b)} ::
      s.self(a).pid == s.self(b).pid && s.self(a).since == s.self(b).since ==> a == b
  }

  /** The liveness oracle is right: a record is alive while the process that wrote it is. */
  predicate Alive(st: State, i: Info) {
    i.pid !in st.crashed
  }

  predicate Running(s: Setup, st: State, a: Attempt) {
    a in st.phase && Alive(st, s.self(a))
  }

  /** `a` has acquired the lock and has not begun to release it. */
  predicate Holds(s: Setup, st: State, a: Attempt) {
    Running(s, st, a) && st.phase[a].Holding?
  }

  /** `a` moves to `p`; every other attempt that was about to steal has now been overtaken. */
  function Moved(st: State, a: Attempt, p: Phase): map<Attempt, Phase>
    requires a in st.phase
  {
    map b | b in st.phase ::
      if b == a then p else if st.phase[b].Deciding? then Deciding(false) else st.phase[b]
  }

  datatype Step =
    | Link(a: Attempt)
    | Judge(a: Attempt, old_: bool)
    | Rename(a: Attempt)
    | BeginRelease(a: Attempt)
    | Check(a: Attempt)
    | Remove(a: Attempt)
    | Crash(pid: Pid)

  predicate Enabled(s: Setup, st: State, step: Step) {
    match step
    case Link(a) => Running(s, st, a) && st.phase[a].Ready?
    case Judge(a, _) => Running(s, st, a) && st.phase[a].Exists?
    case Rename(a) => Running(s, st, a) && st.phase[a].Deciding?
    case BeginRelease(a) => Running(s, st, a) && st.phase[a].Holding?
    case Check(a) => Running(s, st, a) && st.phase[a].Releasing?
    case Remove(a) => Running(s, st, a) && st.phase[a].Removing?
    case Crash(_) => true
  }

  /** `tryAcquire` gives up on what it read: the holder lives, or is young and on another host. */
  predicate Refused(s: Setup, st: State, a: Attempt, old_: bool) {
    && st.file.Record?
    && (Alive(st, st.file.info) || (!old_ && st.file.info.host != s.self(a).host))
  }

  /** One file operation of one attempt. `old_` says that the record read is past `staleAfter`. */
  function Next(s: Setup, st: State, step: Step): State
    requires Enabled(s, st, step)
  {
    match step
    case Link(a) =>
      if st.file.Absent? then st.(file := Record(s.self(a)), phase := Moved(st, a, Holding))
      else st.(phase := Moved(st, a, Exists))
    case Judge(a, old_) =>
      st.(phase := Moved(st, a, if Refused(s, st, a, old_) then Done else Deciding(true)))
    case Rename(a) => st.(file := Record(s.self(a)), phase := Moved(st, a, Holding))
    case BeginRelease(a) => st.(phase := Moved(st, a, Releasing))
    case Check(a) =>
      var mine := st.file.Record? ==>
                    st.file.info.pid == s.self(a).pid && st.file.info.since == s.self(a).since;
      st.(phase := Moved(st, a, if mine then Removing else Done))
    case Remove(a) => st.(file := Absent, phase := Moved(st, a, Done))
    case Crash(pid) => st.(crashed := st.crashed + {pid})
  }

  /** The hypothesis of the exclusion theorem: nobody moves between a stealer's read and its rename. */
  predicate Undisturbed(st: State, step: Step) {
    step.Rename? ==> step.a in st.phase && st.phase[step.a] == Deciding(true)
  }

  ghost predicate IsRun(s: Setup, states: seq<State>, steps: seq<Step>) {
    && |states| == |steps| + 1
    && forall k :: 0 <= k < |steps| ==> Enabled(s, states[k], steps[k]) && states[k + 1] == Next(s, states[k], steps[k])
  }

  /** Every attempt is about to start; whatever an earlier crash left in the file is still there. */
  predicate Initial(st: State) {
    forall a <- st.phase :: st.phase[a].Ready?
  }

  /** An attempt that owns the file until its release removes it. */
  predicate Owns(s: Setup, st: State, a: Attempt) {
    Running(s, st, a) && (st.phase[a].Holding? || st.phase[a].Releasing? || st.phase[a].Removing?)
  }

  /** Every owner is the one the file names. */
  ghost predicate Recorded(s: Setup, st: State) {
    forall a: Attempt :: Owns(s, st, a) ==> st.file == Record(s.self(a))
  }

  ghost predicate Exclusive(s: Setup, st: State) {
    && (forall a: Attempt, b: Attempt :: Holds(s, st, a) && Holds(s, st, b) ==> a == b)
    && (forall a: Attempt :: Holds(s, st, a) ==> st.file == Record(s.self(a)))
  }

  /** Asked again at the rename, no other live attempt owns the file. */
  ghost predicate Clear(s: Setup, st: State, step: Step) {
    step.Rename? ==> forall b: Attempt :: b != step.a ==> !Owns(s, st, b)
  }

  /** Asked again at the rename, and at the removal, nobody else alive holds the lock. */
  ghost predicate Harmless(s: Setup, st: State, step: Step) {
    step.Rename? || step.Remove? ==> forall b: Attempt :: b != step.a ==> !Holds(s, st, b)
  }

  /** One file operation leaves the owner recorded exactly when it is no steal from another owner. */
  lemma StepKeepsRecord(s: Setup, st: State, step: Step)
    requires DistinctRecords(s) && Recorded(s, st) && Enabled(s, st, step)
    ensures Recorded(s, Next(s, st, step)) <==> Clear(s, st, step)
  {
    var st' := Next(s, st, step);
    if step.Rename? {
      assert Owns(s, st', step.a);
      forall b: Attempt | b != step.a ensures Owns(s, st', b) <==> Owns(s, st, b) {
      }
      if b: Attempt :| b != step.a && Owns(s, st, b) {
        assert s.self(b) != s.self(step.a);
      }
    } else {
      forall b: Attempt | Owns(s, st', b) ensures st'.file == Record(s.self(b)) {
        if step.Crash? || step.a != b {
          assert Owns(s, st, b);
        }
      }
    }
  }

  /**
   * In every state of a run the file names its live owner exactly when each rename was taken while no
   * other live attempt owned the file.
   */
  lemma {:induction false} RecordedIffClear(s: Setup, states: seq<State>, steps: seq<Step>, n: nat)
    requires DistinctRecords(s) && IsRun(s, states, steps) && Initial(states[0]) && n <= |steps|
    ensures (forall k :: 0 <= k <= n ==> Recorded(s, states[k]))
            <==> (forall k :: 0 <= k < n ==> Clear(s, states[k], steps[k]))
  {
    if n > 0 {
      RecordedIffClear(s, states, steps, n - 1);
      assert states[n] == Next(s, states[n - 1], steps[n - 1]);
      if forall k :: 0 <= k <= n - 1 ==> Recorded(s, states[k]) {
        StepKeepsRecord(s, states[n - 1], steps[n - 1]);
      }
    }
  }

  /** One file operation keeps exclusion exactly when it takes nothing from another holder. */
  lemma StepKeepsExclusion(s: Setup, st: State, step: Step)
    requires DistinctRecords(s) && Exclusive(s, st) && Enabled(s, st, step)
    ensures Exclusive(s, Next(s, st, step)) <==> Harmless(s, st, step)
  {
    var st' := Next(s, st, step);
    forall b: Attempt | step.Crash? || b != step.a ensures Holds(s, st', b) ==> Holds(s, st, b) {
    }
    if step.Rename? || step.Remove? {
      assert step.Rename? ==> Holds(s, st', step.a);
      forall b: Attempt | b != step.a ensures Holds(s, st', b) <==> Holds(s, st, b) {
      }
    }
  }

  /**
   * Exclusion holds throughout a run exactly when no rename and no removal was taken while another
   * live attempt held the lock.
   */
  lemma {:induction false} ExclusionIffHarmless(s: Setup, states: seq<State>, steps: seq<Step>, n: nat)
    requires DistinctRecords(s) && IsRun(s, states, steps) && Initial(states[0]) && n <= |steps|
    ensures (forall k :: 0 <= k <= n ==> Exclusive(s, states[k]))
            <==> (forall k :: 0 <= k < n ==> Harmless(s, states[k], steps[k]))
  {
    if n > 0 {
      ExclusionIffHarmless(s, states, steps, n - 1);
      assert states[n] == Next(s, states[n - 1], steps[n - 1]);
      if forall k :: 0 <= k <= n - 1 ==> Exclusive(s, states[k]) {
        StepKeepsExclusion(s, states[n - 1], steps[n - 1]);
      }
    }
  }

  /** When no rename steals from a live owner, at most one live attempt holds the lock, as recorded. */
  lemma LockExclusion(s: Setup, states: seq<State>, steps: seq<Step>, n: nat)
    requires DistinctRecords(s) && IsRun(s, states, steps) && Initial(states[0]) && n <= |steps|
    requires forall k :: 0 <= k < n ==> Clear(s, states[k], steps[k])
    ensures Recorded(s, states[n]) && Exclusive(s, states[n])
  {
    RecordedIffClear(s, states, steps, n);
    forall a: Attempt | Holds(s, states[n], a) ensures states[n].file == Record(s.self(a)) {
      assert Owns(s, states[n], a);
    }
    forall a: Attempt, b: Attempt | Holds(s, states[n], a) && Holds(s, states[n], b) ensures a == b {
      assert s.self(a) == s.self(b);
    }
  }

  /** A stealer that is about to rename, undisturbed since its read, still has a dead record before it. */
  ghost predicate Quiet(s: Setup, st: State) {
    forall a: Attempt :: Running(s, st, a) && st.phase[a] == Deciding(true) ==>
                           st.file.Record? ==> !Alive(st, st.file.info)
  }

  lemma StepKeepsQuiet(s: Setup, st: State, step: Step)
    requires Quiet(s, st) && Enabled(s, st, step)
    ensures Quiet(s, Next(s, st, step))
  {
  }

  lemma {:induction false} RunKeepsQuiet(s: Setup, states: seq<State>, steps: seq<Step>, n: nat)
    requires IsRun(s, states, steps) && Initial(states[0]) && n <= |steps|
    ensures Quiet(s, states[n])
  {
    if n > 0 {
      RunKeepsQuiet(s, states, steps, n - 1);
      StepKeepsQuiet(s, states[n - 1], steps[n - 1]);
    }
  }

  /** A stealer whose read and rename are not overtaken never steals from a live owner. */
  lemma {:induction false} UndisturbedIsClear(s: Setup, states: seq<State>, steps: seq<Step>, n: nat)
    requires DistinctRecords(s) && IsRun(s, states, steps) && Initial(states[0]) && n <= |steps|
    requires forall k :: 0 <= k < n ==> Undisturbed(states[k], steps[k])
    ensures forall k :: 0 <= k < n ==> Clear(s, states[k], steps[k])
  {
    if n > 0 {
      UndisturbedIsClear(s, states, steps, n - 1);
      RecordedIffClear(s, states, steps, n - 1);
      RunKeepsQuiet(s, states, steps, n - 1);
      var st := states[n - 1];
      assert Recorded(s, st) && Quiet(s, st);
      forall b: Attempt | steps[n - 1].Rename? && b != steps[n - 1].a ensures !Owns(s, st, b) {
      }
    }
  }

  /** Runs that never steal need no hypothesis: any interleaving is exclusive. */
  lemma ExclusionWithoutSteals(s: Setup, states: seq<State>, steps: seq<Step>, n: nat)
    requires DistinctRecords(s) && IsRun(s, states, steps) && Initial(states[0])
    requires forall step <- steps :: !step.Rename?
    requires n <= |steps|
    ensures Exclusive(s, states[n])
  {
    forall k | 0 <= k < n ensures Clear(s, states[k], steps[k]) {
      assert steps[k] in steps;
    }
    LockExclusion(s, states, steps, n);
  }

  /** When no rename so far stole from a live owner, a release removes nothing but its own record. */
  lemma ReleaseRemovesOwnRecord(s: Setup, states: seq<State>, steps: seq<Step>, n: nat)
    requires DistinctRecords(s) && IsRun(s, states, steps) && Initial(states[0])
    requires n < |steps| && forall k :: 0 <= k < n ==> Clear(s, states[k], steps[k])
    requires steps[n].Remove?
    ensures states[n].file == Record(s.self(steps[n].a))
  {
    LockExclusion(s, states, steps, n);
    assert Owns(s, states[n], steps[n].a);
  }

  /** The file only ever holds whole records, once whatever was there at first is gone. */
  lemma {:induction false} FileIsWhole(s: Setup, states: seq<State>, steps: seq<Step>, n: nat)
    requires IsRun(s, states, steps) && n <= |steps|
    ensures states[n].file == states[0].file || states[n].file == Absent
            || exists a: Attempt :: states[n].file == Record(s.self(a))
  {
    if n > 0 {
      FileIsWhole(s, states, steps, n - 1);
      var step := steps[n - 1];
      if states[n].file != states[n - 1].file && !step.Remove? {
        assert states[n].file == Record(s.self(step.a));
      }
    }
  }

  /** Without the hypothesis exclusion fails: two attempts judge one dead record and both take it. */
  lemma TwoStealersBothHold() returns (s: Setup, states: seq<State>, steps: seq<Step>)
    ensures DistinctRecords(s) && IsRun(s, states, steps) && Initial(states[0])
    ensures !Exclusive(s, states[|steps|])
  {
    s, states, steps := BothDecide();
    states, steps := Extended(s, states, steps, Rename(1));
    states, steps := Extended(s, states, steps, Rename(2));
    assert Holds(s, states[|steps|], 1) && Holds(s, states[|steps|], 2);
  }

  /**
   * A release's read and removal are two steps as well: here every rename finds nobody alive holding
   * the lock, and yet the first attempt removes the second one's record and a third gets in.
   */
  lemma ReleaseRemovesAnother() returns (s: Setup, states: seq<State>, steps: seq<Step>)
    ensures DistinctRecords(s) && IsRun(s, states, steps) && Initial(states[0])
    ensures forall k :: 0 <= k < |steps| && steps[k].Rename? ==> forall b: Attempt :: !Holds(s, states[k], b)
    ensures |steps| == 10 && steps[8] == Remove(1) && states[8].file == Record(s.self(2)) && Holds(s, states[8], 2)
    ensures Holds(s, states[10], 2) && Holds(s, states[10], 3)
  {
    s, states, steps := BothDecide();
    states, steps := Extended(s, states, steps, Rename(1));
    states, steps := Extended(s, states, steps, BeginRelease(1));
    states, steps := Extended(s, states, steps, Check(1));
    states, steps := Extended(s, states, steps, Rename(2));
    states, steps := Extended(s, states, steps, Remove(1));
    states, steps := Extended(s, states, steps, Link(3));
  }

  /** Two attempts have judged the same dead record; a third has yet to start. */
  lemma BothDecide() returns (s: Setup, states: seq<State>, steps: seq<Step>)
    ensures DistinctRecords(s) && IsRun(s, states, steps) && Initial(states[0])
    ensures |steps| == 4 && forall k :: 0 <= k < 4 ==> !steps[k].Rename?
    ensures states[4].phase.Keys == {1, 2, 3} && states[4].phase[1].Deciding? && states[4].phase[2].Deciding?
    ensures states[4].phase[3].Ready? && states[4].crashed == {9}
    ensures forall a: Attempt :: s.self(a) == Info(a, 0, "host")
  {
    s := Setup((a: Attempt) => Info(a, 0, "host"));
    var st0 := State(Record(Info(9, 0, "host")), map[1 := Ready, 2 := Ready, 3 := Ready], {9});
    states, steps := [st0], [];
    states, steps := Extended(s, states, steps, Link(1));
    states, steps := Extended(s, states, steps, Link(2));
    states, steps := Extended(s, states, steps, Judge(1, true));
    states, steps := Extended(s, states, steps, Judge(2, true));
  }

  lemma Extended(s: Setup, states: seq<State>, steps: seq<Step>, step: Step)
    returns (states': seq<State>, steps': seq<Step>)
    requires IsRun(s, states, steps) && Enabled(s, states[|steps|], step)
    ensures IsRun(s, states', steps') && states'[0] == states[0]
    ensures states'[|steps'|] == Next(s, states[|steps|], step)
    ensures states' == states + [Next(s, states[|steps|], step)] && steps' == steps + [step]
  {
    states', steps' := states + [Next(s, states[|steps|], step)], steps + [step];
  }

  // ----- One process at a time: the code of tryAcquire and Release -----

  /** Whether the temporary file or its link cannot be made, and whether a replacement cannot be written. */
  datatype Faults = Faults(create: bool, replace: bool)

  const NO_FAULTS := Faults(false, false)

  datatype Refusal = Held | Broken | Interrupted

  /** What one undisturbed `tryAcquire` finds and does; `old_` as in `Judge`. */
  function TryOnce(file: File, self: Info, crashed: set<Pid>, old_: bool, io: Faults): (r: (Option<Refusal>, File))
    ensures r.0.None? ==> r.1 == Record(self)
    ensures r.0.Some? ==> r.1 == file && !r.0.value.Interrupted?
    ensures r.0 == Some(Held) ==> file.Record?
  {
    if io.create then (Some(Broken), file)
    else if file.Absent? then (None, Record(self))
    else if && file.Record?
            && (file.info.pid !in crashed || (!old_ && file.info.host != self.host))
    then (Some(Held), file)
    else if io.replace then (Some(Broken), file)
    else (None, Record(self))
  }

  datatype CreateError = AlreadyThere | CannotCreate

  class Disk {
    var file: File

    constructor (file: File)
      ensures this.file == file
    {
      this.file := file;
    }

    /** A hard link from a finished temporary file: all of the record or nothing. */
    method CreateExclusive(self: Info, io: Faults) returns (err: Option<CreateError>)
      modifies this
      ensures err == if io.create then Some(CannotCreate) else if old(file).Absent? then None else Some(AlreadyThere)
      ensures file == if err.None? then Record(self) else old(file)
    {
      if io.create {
        return Some(CannotCreate);
      }
      if !file.Absent? {
        return Some(AlreadyThere);
      }
      file := Record(self);
      return None;
    }

    method Read() returns (r: Option<Info>)
      ensures r == if file.Record? then Some(file.info) else None
    {
      return if file.Record? then Some(file.info) else None;
    }
  }

  class Claim {
    const info: Info
    var released: bool

    constructor (info: Info)
      ensures this.info == info && !released
    {
      this.info := info;
      released := false;
    }

    /** `Release`: removes the file unless it has become somebody else's; once only. */
    method Release(d: Disk)
      modifies this, d
      ensures released
      ensures d.file == if old(released) then old(d.file)
                        else if old(d.file).Record?
                                && (old(d.file).info.pid != info.pid || old(d.file).info.since != info.since)
                        then old(d.file) else Absent
    {
      if released {
        return;
      }
      released := true;
      var current := d.Read();
      if current.Some? {
        if current.value.pid != info.pid || current.value.since != info.since {
          return;
        }
      }
      d.file := Absent;
    }
  }

  method TryAcquire(d: Disk, self: Info, crashed: set<Pid>, old_: bool, io: Faults)
    returns (r: Result<Claim, Refusal>)
    modifies d
    ensures (if r.Ok? then None else Some(r.error), d.file) == TryOnce(old(d.file), self, crashed, old_, io)
    ensures r.Ok? ==> fresh(r.value) && r.value.info == self && !r.value.released && d.file == Record(self)
    ensures r.Err? ==> d.file == old(d.file)
    ensures r == Err(Held) <==>
              && !io.create && old(d.file).Record?
              && (old(d.file).info.pid !in crashed || (!old_ && old(d.file).info.host != self.host))
    ensures r == Err(Broken) <==> io.create || (!old(d.file).Absent? && r != Err(Held) && io.replace)
    ensures r != Err(Interrupted)
  {
    var err := d.CreateExclusive(self, io);
    if err.None? {
      var c := new Claim(self);
      return Ok(c);
    }
    if err.value != AlreadyThere {
      return Err(Broken);
    }
    var holder := d.Read();
    if holder.Some? {
      if holder.value.pid !in crashed {
        return Err(Held);
      }
      if !old_ && holder.value.host != self.host {
        return Err(Held);
      }
    }
    if io.replace {
      return Err(Broken);
    }
    d.file := Record(self);
    var c := new Claim(self);
    return Ok(c);
  }

  /**
   * One round of the retry loop: what others have made of the file by then, the record this attempt
   * would write, the oracle's answers, the faults it meets, whether the deadline has passed after it,
   * and whether the context ends in the wait that follows.
   */
  datatype Round = Round(found: File, self: Info, crashed: set<Pid>, old_: bool, io: Faults, late: bool,
                         cancelled: bool)

  /** How a round's attempt ends: none when it wins. */
  function Attempted(u: Round): Option<Refusal> {
    TryOnce(u.found, u.self, u.crashed, u.old_, u.io).0
  }

  /** The first `n` rounds each found the lock held and were followed by another. */
  ghost predicate Lost(rounds: seq<Round>, n: nat, waits: bool)
    requires n <= |rounds|
  {
    forall k :: 0 <= k < n ==> Attempted(rounds[k]) == Some(Held) && waits && !rounds[k].late && !rounds[k].cancelled
  }

  /** How the round that is not followed by another ends. */
  function Ending(u: Round, waits: bool): Option<Refusal> {
    var end := Attempted(u);
    if end == Some(Held) && waits && !u.late && u.cancelled then Some(Interrupted) else end
  }

  /** `Acquire`. The deadline passes no later than the last round. */
  method Acquire(d: Disk, waits: bool, rounds: seq<Round>) returns (r: Result<Claim, Refusal>, ghost n: nat)
    requires rounds != [] && rounds[|rounds| - 1].late
    modifies d
    ensures n < |rounds| && Lost(rounds, n, waits) && !Lost(rounds, n + 1, waits)
    ensures (if r.Ok? then None else Some(r.error)) == Ending(rounds[n], waits)
    ensures n > 0 ==> waits
    ensures forall k :: 0 <= k < n ==>
              var u := rounds[k];
              && !u.late && !u.cancelled && !u.io.create && u.found.Record?
              && (u.found.info.pid !in u.crashed || (!u.old_ && u.found.info.host != u.self.host))
    ensures r == Err(Held) ==> !waits || rounds[n].late
    ensures r == Err(Interrupted) ==> waits && !rounds[n].late && rounds[n].cancelled && rounds[n].found.Record?
    ensures r.Ok? ==> fresh(r.value) && r.value.info == rounds[n].self && !r.value.released
    ensures d.file == if r.Ok? then Record(rounds[n].self) else rounds[n].found
  {
    n := 0;
    var left := rounds;
    while true
      invariant n < |rounds| && left == rounds[n..] && Lost(rounds, n, waits) && (n > 0 ==> waits)
      decreases |left|
    {
      var u := left[0];
      d.file := u.found;
      r := TryAcquire(d, u.self, u.crashed, u.old_, u.io);
      if r.Ok? {
        return r, n;
      }
      if r.error != Held || !waits || u.late {
        return r, n;
      }
      if u.cancelled {
        return Err(Interrupted), n;
      }
      left := left[1..];
      n := n + 1;
    }
  }

  /** What `tryAcquire` makes of a record: it honours the living, and the young of other hosts. */
  lemma JudgeSpelled(s: Setup, st: State, a: Attempt, old_: bool)
    requires Enabled(s, st, Judge(a, old_))
    ensures Next(s, st, Judge(a, old_)).phase[a] == Done <==>
              && st.file.Record?
              && (st.file.info.pid !in st.crashed || (!old_ && st.file.info.host != s.self(a).host))
    ensures Next(s, st, Judge(a, old_)).file == st.file
  {
  }

  /** A release nobody disturbs takes the protocol's steps, and does to the file what `Claim.Release` does. */
  lemma UndisturbedRelease(s: Setup, st: State, a: Attempt) returns (states: seq<State>, steps: seq<Step>)
    requires Holds(s, st, a)
    ensures IsRun(s, states, steps) && states[0] == st
    ensures var end := states[|steps|];
            && a in end.phase && end.phase[a].Done? && end.crashed == st.crashed
            && end.file == if && st.file.Record?
                              && (st.file.info.pid != s.self(a).pid || st.file.info.since != s.self(a).since)
                           then st.file else Absent
  {
    var st1 := Next(s, st, BeginRelease(a));
    var st2 := Next(s, st1, Check(a));
    states, steps := [st, st1, st2], [BeginRelease(a), Check(a)];
    if st2.phase[a].Removing? {
      var st3 := Next(s, st2, Remove(a));
      states, steps := [st, st1, st2, st3], [BeginRelease(a), Check(a), Remove(a)];
    }
  }

  /** An attempt nobody disturbs takes the protocol's steps, and ends as `TryOnce` says. */
  lemma UndisturbedAttempt(s: Setup, st: State, a: Attempt, old_: bool) returns (states: seq<State>, steps: seq<Step>)
    requires Running(s, st, a) && st.phase[a].Ready?
    ensures IsRun(s, states, steps) && states[0] == st
    ensures forall k :: 0 <= k < |steps| ==> Undisturbed(states[k], steps[k])
    ensures var end := states[|steps|];
            && a in end.phase && end.crashed == st.crashed
            && (if end.phase[a].Holding? then None else Some(Held), end.file)
               == TryOnce(st.file, s.self(a), st.crashed, old_, NO_FAULTS)
            && (end.phase[a].Holding? || end.phase[a].Done?)
  {
    var st1 := Next(s, st, Link(a));
    states, steps := [st, st1], [Link(a)];
    if st1.phase[a].Exists? {
      var st2 := Next(s, st1, Judge(a, old_));
      states, steps := [st, st1, st2], [Link(a), Judge(a, old_)];
      if st2.phase[a].Deciding? {
        var st3 := Next(s, st2, Rename(a));
        states, steps := [st, st1, st2, st3], [Link(a), Judge(a, old_), Rename(a)];
      }
    }
  }
}
