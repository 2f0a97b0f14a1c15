/** The shell's list interpreter, driven by flags over a flat list of pipes, against the
    structured commands the list was made from. */
module HushRun {

  datatype Option<T> = None | Some(value: T)

  datatype Style = Unset | Seq | And | Or

  datatype Mode = Plain | IfMode | ThenMode | ElifMode | ElseMode | FiMode | WhileMode | UntilMode | DoMode | DoneMode

  /** What a pipe runs; without anything its num_progs is zero. */
  datatype Job = Empty | Builtin(id: nat) | Group(list: seq<Pipe>)

  datatype Pipe = Pipe(mode: Mode, job: Job, followup: Style)

  /** The builtins run so far, and $?. */
  datatype Shell = Shell(trace: seq<nat>, last: int)

  /** A builtin's return code; it may depend on everything that was run before. */
  type Env = (Shell, nat) -> int

  /** Stopped means the allowance of loop rounds was used up. */
  datatype Out = Done(sh: Shell, rcode: int) | Stopped(sh: Shell)

  // ---- run_list_real ----

  /** The local variables of run_list_real, kept from pipe to pipe. */
  datatype Flags = Flags(rcode: int, ifCode: int, nextIfCode: int, rep: bool, restore: bool, rpipe: Option<nat>,
                         skipMode: Option<Mode>, skip: bool)

  const START: Flags := Flags(0, 0, 0, false, false, None, None, true)

  function IsLoopMode(m: Mode): bool { m.WhileMode? || m.UntilMode? }

  /** The loop keyword's part at the top of a round. */
  function Enter(m: Flags, p: Pipe, k: nat): Flags
  {
    if !IsLoopMode(p.mode) then m
    else if m.rpipe.None? then m.(restore := false, rep := false, rpipe := Some(k))
    else m.(restore := false)
  }

  predicate Skipped(m: Flags, p: Pipe) { m.skipMode == Some(p.mode) && m.skip }

  function Resume(m: Flags, p: Pipe): Flags
  {
    m.(skip := true, skipMode := None, ifCode := if p.mode.ThenMode? || p.mode.ElseMode? then m.nextIfCode else m.ifCode)
  }

  predicate PassedOver(m: Flags, p: Pipe)
  {
    || (p.mode.ThenMode? && m.ifCode != 0)
    || (p.mode.ElseMode? && m.ifCode == 0)
    || (p.mode.DoMode? && !m.rep)
  }

  function Finish(m: Flags, p: Pipe): Flags
  {
    if !p.mode.DoneMode? then m else if m.rep then m.(restore := true) else m.(rpipe := None)
  }

  function Record(m: Flags, p: Pipe, rcode: int): Flags
  {
    m.(rcode := rcode,
       nextIfCode := if p.mode.IfMode? || p.mode.ElifMode? then rcode else m.nextIfCode,
       rep := if p.mode.WhileMode? then rcode == 0 else if p.mode.UntilMode? then rcode != 0 else m.rep,
       skipMode := if (rcode == 0 && p.followup.Or?) || (rcode != 0 && p.followup.And?) then Some(p.mode) else m.skipMode)
  }

  function Normal(rcode: int): int { if rcode == 0 then 0 else 1 }

  /** run_pipe_real on a builtin or a group. */
  ghost function RunJob(e: Env, job: Job, sh: Shell, fuel: nat): Out
    requires !job.Empty?
    decreases fuel, job
  {
    match job
    case Builtin(id) => Done(sh.(trace := sh.trace + [id]), e(sh, id))
    case Group(list) => RunFrom(e, list, 0, START, sh, fuel)
  }

  ghost function After(e: Env, list: seq<Pipe>, k: nat, m: Flags, sh: Shell, fuel: nat): Out
    requires k < |list|
    decreases fuel, list, |list| - k, 0
  {
    if !m.restore then RunFrom(e, list, k + 1, m, sh, fuel)
    else if m.rpipe.None? then Done(sh, m.rcode)
    else if fuel == 0 then Stopped(sh)
    else RunFrom(e, list, m.rpipe.value, m, sh, fuel - 1)
  }

  /** The rounds of run_list_real from pipe k on. */
  ghost function RunFrom(e: Env, list: seq<Pipe>, k: nat, m: Flags, sh: Shell, fuel: nat): Out
    decreases fuel, list, |list| - k, 1
  {
    if k >= |list| then Done(sh, m.rcode)
    else
      var p := list[k];
      var m := Enter(m, p, k);
      if Skipped(m, p) then After(e, list, k, m.(skip := !p.followup.Seq?), sh, fuel)
      else
        var m := Resume(m, p);
        if p.mode.ElifMode? && m.ifCode == 0 then Done(sh, m.rcode)
        else if PassedOver(m, p) then After(e, list, k, m, sh, fuel)
        else
          var m := Finish(m, p);
          if p.job.Empty? then After(e, list, k, m, sh, fuel)
          else
            assert list[k].job < list[k];
            var out := RunJob(e, list[k].job, sh, fuel);
            if out.Stopped? then out
            else if out.rcode < -1 then Done(out.sh.(last := -out.rcode - 2), -2)
            else After(e, list, k, Record(m, p, out.rcode), out.sh.(last := Normal(out.rcode)), fuel)
  }

  // ---- structured commands ----

  /** parts joined by && or by ||. */
  datatype Stmt = Blank | AndOr(op: Style, parts: seq<Command>)

  datatype Command =
    | Simple(id: nat)
    | If(arms: seq<Arm>, els: seq<Stmt>)
    | Loop(until: bool, cond: seq<Stmt>, body: seq<Stmt>)

  datatype Arm = Arm(cond: seq<Stmt>, body: seq<Stmt>)

  /** A return code that does not end the shell. */
  type Code = x: int | x >= -1 witness 0

  /** What a command comes to: it ends, with a code; the shell is left with exit, from inside that
      many groups, its code kept in $?; or the allowance of loop rounds is used up. */
  datatype Result = Ran(sh: Shell, rcode: Code) | Exited(sh: Shell, depth: nat) | Cut(sh: Shell)

  /** What run_list_real makes of a pipe's code: below -1 it ends the shell. */
  function Settle(out: Out): Out
  {
    if out.Stopped? then out
    else if out.rcode < -1 then Done(out.sh.(last := -out.rcode - 2), -2)
    else Done(out.sh.(last := Normal(out.rcode)), out.rcode)
  }

  predicate GoesOn(out: Out) { out.Done? && out.rcode >= -1 }

  /** A list of statements one after the other; the result is that of the last command run. */
  ghost function Run(e: Env, ss: seq<Stmt>, sh: Shell, rcode: Code, fuel: nat): Result
    decreases fuel, ss, 0
  {
    if ss == [] then Ran(sh, rcode)
    else
      var r := RunStmt(e, ss[0], sh, rcode, fuel);
      if r.Ran? then Run(e, ss[1..], r.sh, r.rcode, fuel) else r
  }

  ghost function RunStmt(e: Env, s: Stmt, sh: Shell, rcode: Code, fuel: nat): Result
    decreases fuel, s
  {
    if s.Blank? then Ran(sh, rcode) else RunParts(e, s.op, s.parts, sh, rcode, fuel)
  }

  /** && goes on after success and || after failure. */
  ghost function RunParts(e: Env, op: Style, parts: seq<Command>, sh: Shell, rcode: Code, fuel: nat): Result
    decreases fuel, parts, 0
  {
    if parts == [] then Ran(sh, rcode)
    else
      var r := RunCommand(e, parts[0], sh, fuel);
      if r.Ran? && (r.rcode == 0 <==> op.And?) then RunParts(e, op, parts[1..], r.sh, r.rcode, fuel) else r
  }

  /** The end of a group. */
  function Outward(r: Result): Result
  {
    match r
    case Ran(sh, rcode) => Ran(sh.(last := Normal(rcode)), rcode)
    case Exited(sh, depth) => Exited(sh, depth + 1)
    case Cut(_) => r
  }

  ghost function RunCommand(e: Env, c: Command, sh: Shell, fuel: nat): Result
    decreases fuel, c
  {
    match c
    case Simple(id) =>
      var code, trace := e(sh, id), sh.trace + [id];
      if code < -1 then Exited(Shell(trace, -code - 2), 0) else Ran(Shell(trace, Normal(code)), code)
    case If(_, _) => Outward(RunArms(e, c, 0, sh, 0, fuel))
    case Loop(_, _, _) => Outward(RunLoop(e, c, sh, 0, fuel))
  }

  /** Conditions in order, from the j-th, until one succeeds, then its branch; the else branch if
      none does. */
  ghost function RunArms(e: Env, c: Command, j: nat, sh: Shell, rcode: Code, fuel: nat): Result
    requires c.If? && j <= |c.arms|
    decreases fuel, c, |c.arms| - j
  {
    if j == |c.arms| then Run(e, c.els, sh, rcode, fuel)
    else
      var r := Run(e, c.arms[j].cond, sh, rcode, fuel);
      if !r.Ran? then r
      else if r.rcode == 0 then Run(e, c.arms[j].body, r.sh, r.rcode, fuel)
      else RunArms(e, c, j + 1, r.sh, r.rcode, fuel)
  }

  /** The body once for each time the condition demands it. */
  ghost function RunLoop(e: Env, c: Command, sh: Shell, rcode: Code, fuel: nat): Result
    requires c.Loop?
    decreases fuel, c, 0
  {
    var r := Run(e, c.cond, sh, rcode, fuel);
    if !r.Ran? || (r.rcode == 0) == c.until then r
    else
      var r := Run(e, c.body, r.sh, r.rcode, fuel);
      if !r.Ran? then r
      else if fuel == 0 then Cut(r.sh)
      else RunLoop(e, c, r.sh, r.rcode, fuel - 1)
  }

  /** What the interpreter gives for a list with this meaning: the code of an exit is lost on the
      way out of a group, where the -2 that stands for it is decoded once more. */
  function Seen(r: Result): Out
  {
    match r
    case Ran(sh, rcode) => Done(sh, rcode)
    case Exited(sh, depth) => Done(if depth == 0 then sh else sh.(last := 0), -2)
    case Cut(sh) => Stopped(sh)
  }

  // ---- the allowance does not matter to a run that ends ----

  lemma {:induction false} RunMore(e: Env, ss: seq<Stmt>, sh: Shell, rcode: Code, fuel: nat)
    requires !Run(e, ss, sh, rcode, fuel).Cut?
    ensures Run(e, ss, sh, rcode, fuel + 1) == Run(e, ss, sh, rcode, fuel)
    decreases fuel, ss
  {
    if ss != [] {
      if ss[0].AndOr? { PartsMore(e, ss[0].op, ss[0].parts, sh, rcode, fuel); }
      var out := RunStmt(e, ss[0], sh, rcode, fuel);
      if out.Ran? { RunMore(e, ss[1..], out.sh, out.rcode, fuel); }
    }
  }

  lemma {:induction false} PartsMore(e: Env, op: Style, parts: seq<Command>, sh: Shell, rcode: Code, fuel: nat)
    requires !RunParts(e, op, parts, sh, rcode, fuel).Cut?
    ensures RunParts(e, op, parts, sh, rcode, fuel + 1) == RunParts(e, op, parts, sh, rcode, fuel)
    decreases fuel, parts
  {
    if parts != [] {
      CommandMore(e, parts[0], sh, fuel);
      var out := RunCommand(e, parts[0], sh, fuel);
      if out.Ran? && (out.rcode == 0 <==> op.And?) { PartsMore(e, op, parts[1..], out.sh, out.rcode, fuel); }
    }
  }

  /** A command that ends does the same with a larger allowance of rounds. */
  lemma {:induction false} CommandMore(e: Env, c: Command, sh: Shell, fuel: nat)
    requires !RunCommand(e, c, sh, fuel).Cut?
    ensures RunCommand(e, c, sh, fuel + 1) == RunCommand(e, c, sh, fuel)
    decreases fuel, c
  {
    match c {
      case Simple(_) =>
      case If(_, _) => ArmsMore(e, c, 0, sh, 0, fuel);
      case Loop(_, _, _) => LoopMore(e, c, sh, 0, fuel);
    }
  }

  lemma {:induction false} ArmsMore(e: Env, c: Command, j: nat, sh: Shell, rcode: Code, fuel: nat)
    requires c.If? && j <= |c.arms| && !RunArms(e, c, j, sh, rcode, fuel).Cut?
    ensures RunArms(e, c, j, sh, rcode, fuel + 1) == RunArms(e, c, j, sh, rcode, fuel)
    decreases fuel, c, |c.arms| - j
  {
    hide Run;
    if j == |c.arms| {
      RunMore(e, c.els, sh, rcode, fuel);
    } else {
      RunMore(e, c.arms[j].cond, sh, rcode, fuel);
      var out := Run(e, c.arms[j].cond, sh, rcode, fuel);
      if out.Ran? {
        if out.rcode == 0 { RunMore(e, c.arms[j].body, out.sh, out.rcode, fuel); } else { ArmsMore(e, c, j + 1, out.sh, out.rcode, fuel); }
      }
    }
  }

  lemma {:induction false} LoopMore(e: Env, c: Command, sh: Shell, rcode: Code, fuel: nat)
    requires c.Loop? && !RunLoop(e, c, sh, rcode, fuel).Cut?
    ensures RunLoop(e, c, sh, rcode, fuel + 1) == RunLoop(e, c, sh, rcode, fuel)
    decreases fuel, c, 0
  {
    hide Run;
    RunMore(e, c.cond, sh, rcode, fuel);
    var out := Run(e, c.cond, sh, rcode, fuel);
    if out.Ran? && (out.rcode == 0) != c.until {
      RunMore(e, c.body, out.sh, out.rcode, fuel);
      var done := Run(e, c.body, out.sh, out.rcode, fuel);
      if done.Ran? && fuel > 0 { LoopMore(e, c, done.sh, done.rcode, fuel - 1); }
    }
  }

  // ---- from structured commands to pipes ----

  /** Some statement is not blank. */
  predicate HasCommand(ss: seq<Stmt>) { ss != [] && (ss[0].AndOr? || HasCommand(ss[1..])) }

  /** Conditions hold a command, and so does every branch followed by elif: both are needed. */
  ghost predicate WellFormed(c: Command)
    decreases c
  {
    match c
    case Simple(_) => true
    case If(arms, els) =>
      && arms != [] && WellFormedList(els)
      && (forall j :: 0 <= j < |arms| ==> HasCommand(arms[j].cond) && WellFormedList(arms[j].cond) && WellFormedList(arms[j].body))
      && (forall j :: 0 <= j < |arms| - 1 ==> arms[j].body != [])
    case Loop(_, cond, body) => HasCommand(cond) && WellFormedList(cond) && WellFormedList(body)
  }

  ghost predicate WellFormedParts(op: Style, parts: seq<Command>)
    decreases parts
  {
    (op.And? || op.Or?) && parts != [] && forall i :: 0 <= i < |parts| ==> WellFormed(parts[i])
  }

  ghost predicate WellFormedList(ss: seq<Stmt>)
    decreases ss
  {
    forall i :: 0 <= i < |ss| ==> ss[i].AndOr? ==> WellFormedParts(ss[i].op, ss[i].parts)
  }

  function PartPipes(op: Style, parts: seq<Command>, mode: Mode): seq<Pipe>
    decreases parts
  {
    if parts == [] then [] else [Pipe(mode, JobOf(parts[0]), if |parts| == 1 then Seq else op)] + PartPipes(op, parts[1..], mode)
  }

  function StmtPipes(s: Stmt, mode: Mode): seq<Pipe>
    decreases s
  {
    if s.Blank? then [Pipe(mode, Empty, Seq)] else PartPipes(s.op, s.parts, mode)
  }

  function Pipes(ss: seq<Stmt>, mode: Mode): seq<Pipe>
    decreases ss
  {
    if ss == [] then [] else StmtPipes(ss[0], mode) + Pipes(ss[1..], mode)
  }

  function ArmPipes(c: Command, j: nat): seq<Pipe>
    requires c.If? && j <= |c.arms|
    decreases c, |c.arms| - j
  {
    if j == |c.arms| then Pipes(c.els, ElseMode)
    else Pipes(c.arms[j].cond, if j == 0 then IfMode else ElifMode) + (Pipes(c.arms[j].body, ThenMode) + ArmPipes(c, j + 1))
  }

  /** The parser leaves one empty pipe for fi or done and another one after it. */
  function Ending(mode: Mode): seq<Pipe> { [Pipe(mode, Empty, Seq), Pipe(Plain, Empty, Unset)] }

  function JobOf(c: Command): Job
    decreases c
  {
    match c
    case Simple(id) => Builtin(id)
    case If(_, _) => Group(ArmPipes(c, 0) + Ending(FiMode))
    case Loop(until, cond, body) =>
      Group(Pipes(cond, if until then UntilMode else WhileMode) + (Pipes(body, DoMode) + Ending(DoneMode)))
  }

  // ---- single rounds ----

  ghost predicate At(list: seq<Pipe>, k: nat, part: seq<Pipe>)
  {
    k + |part| <= |list| && list[k..k + |part|] == part
  }

  lemma AtSplit(list: seq<Pipe>, k: nat, a: seq<Pipe>, b: seq<Pipe>)
    requires At(list, k, a + b)
    ensures At(list, k, a) && At(list, k + |a|, b)
  {
    var ab := list[k..k + |a + b|];
    assert ab[..|a|] == a && ab[|a|..] == b;
  }

  predicate Clear(m: Flags) { !m.restore && (m.skipMode.None? || !m.skip) }

  /** Pipes of the mode are run from here. */
  predicate Enabled(mode: Mode, m: Flags)
  {
    match mode
    case Plain => true
    case IfMode => true
    case ThenMode => m.nextIfCode == 0
    case ElifMode => m.ifCode != 0
    case ElseMode => m.nextIfCode != 0
    case WhileMode => m.rpipe.None? ==> !m.rep
    case UntilMode => m.rpipe.None? ==> !m.rep
    case DoMode => m.rep
    case FiMode => true
    case DoneMode => false
  }

  /** The flags once the first pipe of a mode, at k, has been looked at. */
  function Begun(mode: Mode, m: Flags, k: nat): Flags
  {
    m.(ifCode := if mode.ThenMode? || mode.ElseMode? then m.nextIfCode else m.ifCode,
       rpipe := if IsLoopMode(mode) && m.rpipe.None? then Some(k) else m.rpipe,
       skip := true, skipMode := None)
  }

  lemma JobRound(e: Env, list: seq<Pipe>, k: nat, m: Flags, sh: Shell, fuel: nat)
    requires k < |list| && !list[k].job.Empty? && Clear(m) && Enabled(list[k].mode, m)
    ensures var out := Settle(RunJob(e, list[k].job, sh, fuel));
            RunFrom(e, list, k, m, sh, fuel) ==
              if GoesOn(out) then RunFrom(e, list, k + 1, Record(Begun(list[k].mode, m, k), list[k], out.rcode), out.sh, fuel) else out
  {
  }

  lemma BlankRound(e: Env, list: seq<Pipe>, k: nat, m: Flags, sh: Shell, fuel: nat)
    requires k < |list| && list[k].job.Empty? && Clear(m) && Enabled(list[k].mode, m)
    ensures RunFrom(e, list, k, m, sh, fuel) == RunFrom(e, list, k + 1, Begun(list[k].mode, m, k), sh, fuel)
  {
  }

  /** A pipe behind a decided && or ||. */
  lemma SkippedRound(e: Env, list: seq<Pipe>, k: nat, m: Flags, sh: Shell, fuel: nat)
    requires k < |list| && !m.restore && m.skip && m.skipMode == Some(list[k].mode)
    requires IsLoopMode(list[k].mode) ==> m.rpipe.Some?
    ensures RunFrom(e, list, k, m, sh, fuel) == RunFrom(e, list, k + 1, m.(skip := !list[k].followup.Seq?), sh, fuel)
  {
  }

  predicate Barred(mode: Mode, m: Flags)
  {
    (mode.ThenMode? && m.nextIfCode != 0) || (mode.ElseMode? && m.nextIfCode == 0) || (mode.DoMode? && !m.rep)
  }

  lemma BarredRound(e: Env, list: seq<Pipe>, k: nat, m: Flags, sh: Shell, fuel: nat)
    requires k < |list| && Clear(m) && Barred(list[k].mode, m)
    ensures RunFrom(e, list, k, m, sh, fuel) == RunFrom(e, list, k + 1, Begun(list[k].mode, m, k), sh, fuel)
  {
  }

  // ---- stretches of pipes of one mode ----

  /** After n pipes of the mode at k, with the code rc; ran: some job was run. */
  ghost predicate Moved(mode: Mode, m: Flags, k: nat, n: nat, ran: bool, rc: int, m': Flags)
  {
    && Clear(m') && (n == 0 ==> !ran) && (!ran ==> rc == m.rcode)
    && m' == (if n == 0 then m else Begun(mode, m, k)).(
         rcode := rc,
         nextIfCode := if ran && (mode.IfMode? || mode.ElifMode?) then rc else m.nextIfCode,
         rep := if ran && mode.WhileMode? then rc == 0 else if ran && mode.UntilMode? then rc != 0 else m.rep,
         skip := m'.skip, skipMode := m'.skipMode)
  }

  lemma MovedOn(mode: Mode, m: Flags, k: nat, n: nat, ran: bool, rc: int, m1: Flags, n1: nat, ran1: bool, rc1: int, m2: Flags)
    requires Moved(mode, m, k, n, ran, rc, m1) && Moved(mode, m1, k + n, n1, ran1, rc1, m2)
    ensures Moved(mode, m, k, n + n1, ran || ran1, rc1, m2)
  {
  }

  lemma MovedEnabled(mode: Mode, m: Flags, k: nat, n: nat, ran: bool, rc: int, m': Flags)
    requires Moved(mode, m, k, n, ran, rc, m') && Enabled(mode, m)
    ensures Enabled(mode, m')
  {
  }

  /** What is left when a stretch is over. */
  lemma MovedFlags(mode: Mode, m: Flags, k: nat, n: nat, ran: bool, rc: int, m': Flags)
    requires Moved(mode, m, k, n, ran, rc, m')
    ensures Clear(m') && m'.rcode == rc
    ensures m'.nextIfCode == if ran && (mode.IfMode? || mode.ElifMode?) then rc else m.nextIfCode
    ensures m'.ifCode == if n > 0 && (mode.ThenMode? || mode.ElseMode?) then m.nextIfCode else m.ifCode
    ensures m'.rpipe == if n > 0 && IsLoopMode(mode) && m.rpipe.None? then Some(k) else m.rpipe
    ensures m'.rep == if ran && mode.WhileMode? then rc == 0 else if ran && mode.UntilMode? then rc != 0 else m.rep
  {
  }

  lemma {:induction false} SkipRest(e: Env, list: seq<Pipe>, k: nat, mode: Mode, op: Style, parts: seq<Command>, m: Flags, sh: Shell, fuel: nat)
    requires At(list, k, PartPipes(op, parts, mode)) && parts != [] && !op.Seq?
    requires !m.restore && m.skip && m.skipMode == Some(mode) && (IsLoopMode(mode) ==> m.rpipe.Some?)
    ensures RunFrom(e, list, k, m, sh, fuel) == RunFrom(e, list, k + |parts|, m.(skip := false), sh, fuel)
    decreases parts
  {
    var p := Pipe(mode, JobOf(parts[0]), if |parts| == 1 then Seq else op);
    AtSplit(list, k, [p], PartPipes(op, parts[1..], mode));
    assert list[k] == list[k..k + 1][0];
    SkippedRound(e, list, k, m, sh, fuel);
    if |parts| > 1 { SkipRest(e, list, k + 1, mode, op, parts[1..], m, sh, fuel); }
  }

  lemma {:induction false} BarredPipes(e: Env, list: seq<Pipe>, k: nat, mode: Mode, part: seq<Pipe>, m: Flags, sh: Shell, fuel: nat) returns (m': Flags)
    requires At(list, k, part) && (forall i :: 0 <= i < |part| ==> part[i].mode == mode) && Clear(m) && Barred(mode, m)
    ensures Moved(mode, m, k, |part|, false, m.rcode, m')
    ensures RunFrom(e, list, k, m, sh, fuel) == RunFrom(e, list, k + |part|, m', sh, fuel)
    decreases |part|
  {
    hide RunFrom;
    m' := m;
    if part != [] {
      assert list[k] == list[k..k + |part|][0];
      BarredRound(e, list, k, m, sh, fuel);
      assert list[k + 1..k + |part|] == part[1..];
      m' := BarredPipes(e, list, k + 1, mode, part[1..], Begun(mode, m, k), sh, fuel);
    }
  }

  lemma {:induction false} PartPipesMode(op: Style, parts: seq<Command>, mode: Mode)
    ensures |PartPipes(op, parts, mode)| == |parts|
    ensures forall i :: 0 <= i < |parts| ==> PartPipes(op, parts, mode)[i].mode == mode
    decreases parts
  {
    if parts != [] { PartPipesMode(op, parts[1..], mode); }
  }

  lemma {:induction false} PipesMode(ss: seq<Stmt>, mode: Mode)
    ensures forall i :: 0 <= i < |Pipes(ss, mode)| ==> Pipes(ss, mode)[i].mode == mode
    ensures WellFormedList(ss) && ss != [] ==> Pipes(ss, mode) != []
    decreases ss
  {
    if ss != [] {
      PipesMode(ss[1..], mode);
      if ss[0].AndOr? {
        PartPipesMode(ss[0].op, ss[0].parts, mode);
        assert WellFormedList(ss) ==> WellFormedParts(ss[0].op, ss[0].parts);
      }
    }
  }

  // ---- whole lists ----

  lemma FiEnding(e: Env, list: seq<Pipe>, k: nat, m: Flags, sh: Shell, fuel: nat)
    requires At(list, k, Ending(FiMode)) && |list| == k + 2 && Clear(m)
    ensures RunFrom(e, list, k, m, sh, fuel) == Done(sh, m.rcode)
  {
    assert list[k] == list[k..k + 2][0] && list[k + 1] == list[k..k + 2][1];
    BlankRound(e, list, k, m, sh, fuel);
    BlankRound(e, list, k + 1, Begun(FiMode, m, k), sh, fuel);
  }

  /** done with the flag clear ends the loop, with it set it goes back to the condition. */
  lemma DoneEnding(e: Env, list: seq<Pipe>, k: nat, m: Flags, sh: Shell, fuel: nat)
    requires At(list, k, Ending(DoneMode)) && |list| == k + 2 && Clear(m)
    requires k > 0 && IsLoopMode(list[0].mode) && m.rpipe == Some(0)
    ensures RunFrom(e, list, k, m, sh, fuel) ==
              if !m.rep then Done(sh, m.rcode) else if fuel == 0 then Stopped(sh) else RunFrom(e, list, 0, m.(skip := true, skipMode := None), sh, fuel - 1)
  {
    assert list[k] == list[k..k + 2][0] && list[k + 1] == list[k..k + 2][1];
    var b := Begun(DoneMode, m, k);
    if m.rep {
      assert RunFrom(e, list, k, m, sh, fuel) == After(e, list, k, b.(restore := true), sh, fuel);
      if fuel > 0 {
        assert Enter(b.(restore := true), list[0], 0) == Enter(b, list[0], 0);
        assert RunFrom(e, list, 0, b.(restore := true), sh, fuel - 1) == RunFrom(e, list, 0, b, sh, fuel - 1);
      }
    } else {
      assert RunFrom(e, list, k, m, sh, fuel) == RunFrom(e, list, k + 1, b.(rpipe := None), sh, fuel);
      BlankRound(e, list, k + 1, b.(rpipe := None), sh, fuel);
    }
  }

  lemma {:induction false} PartsRun(e: Env, list: seq<Pipe>, k: nat, mode: Mode, op: Style, parts: seq<Command>, m: Flags, sh: Shell, fuel: nat) returns (m': Flags)
    requires At(list, k, PartPipes(op, parts, mode)) && WellFormedParts(op, parts) && Clear(m) && Enabled(mode, m) && m.rcode >= -1
    ensures var out := RunParts(e, op, parts, sh, m.rcode, fuel);
            if out.Ran? then RunFrom(e, list, k, m, sh, fuel) == RunFrom(e, list, k + |parts|, m', out.sh, fuel) && Moved(mode, m, k, |parts|, true, out.rcode, m')
            else RunFrom(e, list, k, m, sh, fuel) == Seen(out)
    decreases fuel, parts
  {
    hide RunFrom, RunJob, RunCommand, JobOf;
    var p := Pipe(mode, JobOf(parts[0]), if |parts| == 1 then Seq else op);
    AtSplit(list, k, [p], PartPipes(op, parts[1..], mode));
    assert list[k] == list[k..k + 1][0];
    JobNotEmpty(parts[0]);
    JobRound(e, list, k, m, sh, fuel);
    CommandRuns(e, parts[0], sh, fuel);
    var out := RunCommand(e, parts[0], sh, fuel);
    m' := m;
    if out.Ran? {
      m' := Record(Begun(mode, m, k), p, out.rcode);
      if |parts| == 1 {
      } else if out.rcode == 0 <==> op.And? {
        assert Moved(mode, m, k, 1, true, out.rcode, m');
        MovedEnabled(mode, m, k, 1, true, out.rcode, m');
        var m1 := m';
        m' := PartsRun(e, list, k + 1, mode, op, parts[1..], m1, out.sh, fuel);
      } else {
        SkipRest(e, list, k + 1, mode, op, parts[1..], m', out.sh, fuel);
        m' := m'.(skip := false);
      }
    }
  }

  lemma JobNotEmpty(c: Command)
    ensures !JobOf(c).Empty?
  {
  }

  lemma {:induction false} StmtRuns(e: Env, list: seq<Pipe>, k: nat, mode: Mode, s: Stmt, m: Flags, sh: Shell, fuel: nat) returns (m': Flags)
    requires At(list, k, StmtPipes(s, mode)) && (s.AndOr? ==> WellFormedParts(s.op, s.parts)) && Clear(m) && Enabled(mode, m) && m.rcode >= -1
    ensures var out := RunStmt(e, s, sh, m.rcode, fuel);
            if out.Ran? then RunFrom(e, list, k, m, sh, fuel) == RunFrom(e, list, k + |StmtPipes(s, mode)|, m', out.sh, fuel) && Moved(mode, m, k, |StmtPipes(s, mode)|, s.AndOr?, out.rcode, m')
            else RunFrom(e, list, k, m, sh, fuel) == Seen(out)
    decreases fuel, s
  {
    hide RunFrom, RunJob, RunParts;
    if s.Blank? {
      assert list[k] == list[k..k + 1][0];
      BlankRound(e, list, k, m, sh, fuel);
      m' := Begun(mode, m, k);
    } else {
      PartPipesMode(s.op, s.parts, mode);
      m' := PartsRun(e, list, k, mode, s.op, s.parts, m, sh, fuel);
    }
  }

  lemma {:induction false} ListRuns(e: Env, list: seq<Pipe>, k: nat, mode: Mode, ss: seq<Stmt>, m: Flags, sh: Shell, fuel: nat) returns (m': Flags)
    requires At(list, k, Pipes(ss, mode)) && WellFormedList(ss) && Clear(m) && Enabled(mode, m) && m.rcode >= -1
    ensures var out := Run(e, ss, sh, m.rcode, fuel);
            if out.Ran? then RunFrom(e, list, k, m, sh, fuel) == RunFrom(e, list, k + |Pipes(ss, mode)|, m', out.sh, fuel) && Moved(mode, m, k, |Pipes(ss, mode)|, HasCommand(ss), out.rcode, m')
            else RunFrom(e, list, k, m, sh, fuel) == Seen(out)
    decreases fuel, ss
  {
    hide RunFrom, RunStmt, Begun, StmtPipes, WellFormedParts;
    if ss == [] {
      m' := m;
    } else {
      var a, b := StmtPipes(ss[0], mode), Pipes(ss[1..], mode);
      AtSplit(list, k, a, b);
      var m1 := StmtRuns(e, list, k, mode, ss[0], m, sh, fuel);
      m' := m1;
      var out := RunStmt(e, ss[0], sh, m.rcode, fuel);
      if out.Ran? {
        MovedFlags(mode, m, k, |a|, ss[0].AndOr?, out.rcode, m1);
        MovedEnabled(mode, m, k, |a|, ss[0].AndOr?, out.rcode, m1);
        m' := RestRuns(e, list, k, mode, ss, m, m1, out.sh, out.rcode, fuel);
      }
    }
  }

  lemma {:induction false} RestRuns(e: Env, list: seq<Pipe>, k: nat, mode: Mode, ss: seq<Stmt>, m: Flags, m1: Flags, sh: Shell, rc: Code, fuel: nat) returns (m': Flags)
    requires ss != [] && At(list, k + |StmtPipes(ss[0], mode)|, Pipes(ss[1..], mode)) && WellFormedList(ss) && Clear(m1) && Enabled(mode, m1)
    requires m1.rcode == rc && rc >= -1 && Moved(mode, m, k, |StmtPipes(ss[0], mode)|, ss[0].AndOr?, rc, m1)
    ensures var out := Run(e, ss[1..], sh, rc, fuel);
            var k1 := k + |StmtPipes(ss[0], mode)|;
            if out.Ran? then RunFrom(e, list, k1, m1, sh, fuel) == RunFrom(e, list, k + |Pipes(ss, mode)|, m', out.sh, fuel) && Moved(mode, m, k, |Pipes(ss, mode)|, HasCommand(ss), out.rcode, m')
            else RunFrom(e, list, k1, m1, sh, fuel) == Seen(out)
    decreases fuel, ss, 0
  {
    hide RunFrom, Moved, Begun, Run, Enabled, StmtPipes, Clear, At;
    var n := |StmtPipes(ss[0], mode)|;
    assert WellFormedList(ss[1..]);
    m' := ListRuns(e, list, k + n, mode, ss[1..], m1, sh, fuel);
    var out := Run(e, ss[1..], sh, rc, fuel);
    if out.Ran? {
      MovedOn(mode, m, k, n, ss[0].AndOr?, rc, m1, |Pipes(ss[1..], mode)|, HasCommand(ss[1..]), out.rcode, m');
    }
  }

  /** A command's list of pipes runs like the command. */
  lemma {:induction false} CommandRuns(e: Env, c: Command, sh: Shell, fuel: nat)
    requires WellFormed(c)
    ensures Settle(RunJob(e, JobOf(c), sh, fuel)) == Seen(RunCommand(e, c, sh, fuel))
    decreases fuel, c
  {
    match c {
      case Simple(_) =>
      case If(_, _) =>
        var list := JobOf(c).list;
        assert list[0..0 + |list|] == list;
        ArmsRun(e, c, 0, list, 0, START, sh, fuel);
      case Loop(_, _, _) =>
        LoopRuns(e, c, START, sh, fuel);
    }
  }

  /** After a branch was taken nothing else of the chain is run. */
  lemma TakenEnds(e: Env, c: Command, j: nat, list: seq<Pipe>, k: nat, m: Flags, sh: Shell, fuel: nat)
    requires c.If? && WellFormed(c) && 0 < j <= |c.arms| && Clear(m)
    requires At(list, k, ArmPipes(c, j) + Ending(FiMode)) && |list| == k + |ArmPipes(c, j)| + 2
    requires m.nextIfCode == 0 && (j < |c.arms| ==> m.ifCode == 0)
    ensures RunFrom(e, list, k, m, sh, fuel) == Done(sh, m.rcode)
  {
    hide Pipes, Moved, WellFormedList;
    if j < |c.arms| {
      PipesMode(c.arms[j].cond, ElifMode);
      assert list[k] == list[k..k + |ArmPipes(c, j)| + 2][0];
    } else {
      AtSplit(list, k, Pipes(c.els, ElseMode), Ending(FiMode));
      PipesMode(c.els, ElseMode);
      var m' := BarredPipes(e, list, k, ElseMode, Pipes(c.els, ElseMode), m, sh, fuel);
      MovedFlags(ElseMode, m, k, |Pipes(c.els, ElseMode)|, false, m.rcode, m');
      hide RunFrom;
      FiEnding(e, list, k + |Pipes(c.els, ElseMode)|, m', sh, fuel);
    }
  }

  /** The parts of a chain's list from the j-th arm on. */
  lemma ArmLists(c: Command, j: nat, list: seq<Pipe>, k: nat)
    requires c.If? && WellFormed(c) && j < |c.arms| && At(list, k, ArmPipes(c, j) + Ending(FiMode))
    ensures var a, b := Pipes(c.arms[j].cond, if j == 0 then IfMode else ElifMode), Pipes(c.arms[j].body, ThenMode);
            At(list, k, a) && At(list, k + |a|, b) && At(list, k + |a| + |b|, ArmPipes(c, j + 1) + Ending(FiMode))
            && |ArmPipes(c, j)| == |a| + |b| + |ArmPipes(c, j + 1)|
            && (j + 1 < |c.arms| ==> |b| > 0) && forall i :: 0 <= i < |b| ==> b[i].mode == ThenMode
  {
    hide Pipes, HasCommand, WellFormedList, At;
    var a, b := Pipes(c.arms[j].cond, if j == 0 then IfMode else ElifMode), Pipes(c.arms[j].body, ThenMode);
    var rest := ArmPipes(c, j + 1) + Ending(FiMode);
    assert ArmPipes(c, j) + Ending(FiMode) == a + (b + rest);
    AtSplit(list, k, a, b + rest);
    AtSplit(list, k + |a|, b, rest);
    PipesMode(c.arms[j].body, ThenMode);
  }

  lemma {:induction false} ArmsRun(e: Env, c: Command, j: nat, list: seq<Pipe>, k: nat, m: Flags, sh: Shell, fuel: nat)
    requires c.If? && WellFormed(c) && j <= |c.arms| && Clear(m) && m.rcode >= -1
    requires At(list, k, ArmPipes(c, j) + Ending(FiMode)) && |list| == k + |ArmPipes(c, j)| + 2
    requires j > 0 ==> m.nextIfCode != 0 && (j < |c.arms| ==> m.ifCode != 0)
    ensures RunFrom(e, list, k, m, sh, fuel) == Seen(RunArms(e, c, j, sh, m.rcode, fuel))
    decreases fuel, c, |c.arms| - j
  {
    hide RunFrom, Run, Moved, Pipes, Begun, HasCommand, WellFormedList, At;
    if j == |c.arms| {
      var n := |Pipes(c.els, ElseMode)|;
      AtSplit(list, k, Pipes(c.els, ElseMode), Ending(FiMode));
      var m' := ListRuns(e, list, k, ElseMode, c.els, m, sh, fuel);
      var out := Run(e, c.els, sh, m.rcode, fuel);
      if out.Ran? {
        MovedFlags(ElseMode, m, k, n, HasCommand(c.els), out.rcode, m');
        FiEnding(e, list, k + n, m', out.sh, fuel);
      }
    } else {
      var mode := if j == 0 then IfMode else ElifMode;
      var a, b := Pipes(c.arms[j].cond, mode), Pipes(c.arms[j].body, ThenMode);
      ArmLists(c, j, list, k);
      var m1 := ListRuns(e, list, k, mode, c.arms[j].cond, m, sh, fuel);
      var out := Run(e, c.arms[j].cond, sh, m.rcode, fuel);
      if out.Ran? {
        MovedFlags(mode, m, k, |a|, HasCommand(c.arms[j].cond), out.rcode, m1);
        if out.rcode == 0 {
          var m2 := ListRuns(e, list, k + |a|, ThenMode, c.arms[j].body, m1, out.sh, fuel);
          var done := Run(e, c.arms[j].body, out.sh, out.rcode, fuel);
          if done.Ran? {
            MovedFlags(ThenMode, m1, k + |a|, |b|, HasCommand(c.arms[j].body), done.rcode, m2);
            TakenEnds(e, c, j + 1, list, k + |a| + |b|, m2, done.sh, fuel);
          }
        } else {
          var m2 := BarredPipes(e, list, k + |a|, ThenMode, b, m1, out.sh, fuel);
          MovedFlags(ThenMode, m1, k + |a|, |b|, false, out.rcode, m2);
          ArmsRun(e, c, j + 1, list, k + |a| + |b|, m2, out.sh, fuel);
        }
      }
    }
  }

  lemma HasSome(ss: seq<Stmt>)
    requires HasCommand(ss)
    ensures ss != []
  {
  }

  /** The parts of a loop's list. */
  lemma LoopList(c: Command)
    requires c.Loop? && WellFormed(c)
    ensures var list, mode := JobOf(c).list, if c.until then UntilMode else WhileMode;
            var a, b := Pipes(c.cond, mode), Pipes(c.body, DoMode);
            At(list, 0, a) && At(list, |a|, b) && At(list, |a| + |b|, Ending(DoneMode)) && |list| == |a| + |b| + 2
            && |a| > 0 && list[0].mode == mode && forall i :: 0 <= i < |b| ==> b[i].mode == DoMode
  {
    hide Pipes, HasCommand, WellFormedList;
    var list, mode := JobOf(c).list, if c.until then UntilMode else WhileMode;
    var a, b := Pipes(c.cond, mode), Pipes(c.body, DoMode);
    assert list[0..0 + |list|] == list;
    AtSplit(list, 0, a, b + Ending(DoneMode));
    AtSplit(list, |a|, b, Ending(DoneMode));
    PipesMode(c.cond, mode);
    PipesMode(c.body, DoMode);
    HasSome(c.cond);
    assert list[0] == a[0];
  }

  lemma {:induction false} LoopRuns(e: Env, c: Command, m: Flags, sh: Shell, fuel: nat)
    requires c.Loop? && WellFormed(c) && Clear(m) && m.rcode >= -1
    requires if m.rpipe.None? then !m.rep else m.rpipe.value == 0
    ensures RunFrom(e, JobOf(c).list, 0, m, sh, fuel) == Seen(RunLoop(e, c, sh, m.rcode, fuel))
    decreases fuel, c, 0
  {
    hide RunFrom, Run, Moved, Pipes, Begun, HasCommand, WellFormedList;
    var list, mode := JobOf(c).list, if c.until then UntilMode else WhileMode;
    var a, b := Pipes(c.cond, mode), Pipes(c.body, DoMode);
    LoopList(c);
    var m1 := ListRuns(e, list, 0, mode, c.cond, m, sh, fuel);
    var out := Run(e, c.cond, sh, m.rcode, fuel);
    if out.Ran? {
      MovedFlags(mode, m, 0, |a|, HasCommand(c.cond), out.rcode, m1);
      if (out.rcode == 0) == c.until {
        var m2 := BarredPipes(e, list, |a|, DoMode, b, m1, out.sh, fuel);
        MovedFlags(DoMode, m1, |a|, |b|, false, out.rcode, m2);
        DoneEnding(e, list, |a| + |b|, m2, out.sh, fuel);
      } else {
        var m2 := ListRuns(e, list, |a|, DoMode, c.body, m1, out.sh, fuel);
        var done := Run(e, c.body, out.sh, out.rcode, fuel);
        if done.Ran? {
          MovedFlags(DoMode, m1, |a|, |b|, HasCommand(c.body), done.rcode, m2);
          DoneEnding(e, list, |a| + |b|, m2, done.sh, fuel);
          if fuel > 0 { LoopRuns(e, c, m2.(skip := true, skipMode := None), done.sh, fuel - 1); }
        }
      }
    }
  }

  /** What the parser makes of a whole input. */
  function ListOf(ss: seq<Stmt>): seq<Pipe> { Pipes(ss, Plain) + [Pipe(Plain, Empty, Unset)] }

  /** On a whole input the interpreter runs the builtins that the
      structured commands run, in their order, with the result that is seen of theirs, for every allowance of
      loop rounds. */
  lemma ScriptRuns(e: Env, ss: seq<Stmt>, sh: Shell, fuel: nat)
    requires WellFormedList(ss)
    ensures RunFrom(e, ListOf(ss), 0, START, sh, fuel) == Seen(Run(e, ss, sh, 0, fuel))
  {
    hide Run, Pipes;
    var a, b := Pipes(ss, Plain), [Pipe(Plain, Empty, Unset)];
    var list := a + b;
    assert list[0..0 + |list|] == list;
    AtSplit(list, 0, a, b);
    var m := ListRuns(e, list, 0, Plain, ss, START, sh, fuel);
    var out := Run(e, ss, sh, 0, fuel);
    if out.Ran? { BlankRound(e, list, |a|, m, out.sh, fuel); }
  }

  // ---- the interpreter ----

  /** run_pipe_real */
  method RunPipe(e: Env, job: Job, sh: Shell, fuel: nat) returns (out: Out)
    requires !job.Empty?
    ensures out == RunJob(e, job, sh, fuel)
    decreases fuel, job
  {
    match job {
      case Builtin(id) => out := Done(sh.(trace := sh.trace + [id]), e(sh, id));
      case Group(list) => out := RunList(e, list, sh, fuel);
    }
  }

  /** One round. */
  ghost function Round(e: Env, list: seq<Pipe>, k: nat, m: Flags, sh: Shell, fuel: nat): Out
    requires k < |list|
  {
    var p := list[k];
    var m := Enter(m, p, k);
    if Skipped(m, p) then After(e, list, k, m.(skip := !p.followup.Seq?), sh, fuel)
    else
      var m := Resume(m, p);
      if p.mode.ElifMode? && m.ifCode == 0 then Done(sh, m.rcode)
      else if PassedOver(m, p) then After(e, list, k, m, sh, fuel)
      else
        var m := Finish(m, p);
        if p.job.Empty? then After(e, list, k, m, sh, fuel)
        else
          var out := RunJob(e, p.job, sh, fuel);
          if out.Stopped? then out
          else if out.rcode < -1 then Done(out.sh.(last := -out.rcode - 2), -2)
          else After(e, list, k, Record(m, p, out.rcode), out.sh.(last := Normal(out.rcode)), fuel)
  }

  lemma RunFromRound(e: Env, list: seq<Pipe>, k: nat, m: Flags, sh: Shell, fuel: nat)
    requires k < |list|
    ensures RunFrom(e, list, k, m, sh, fuel) == Round(e, list, k, m, sh, fuel)
  {
  }

  lemma AfterRound(e: Env, list: seq<Pipe>, k: nat, m: Flags, sh: Shell, fuel: nat)
    requires k < |list|
    ensures After(e, list, k, m, sh, fuel) ==
              if !m.restore then RunFrom(e, list, k + 1, m, sh, fuel)
              else if m.rpipe.None? then Done(sh, m.rcode)
              else if fuel == 0 then Stopped(sh)
              else RunFrom(e, list, m.rpipe.value, m, sh, fuel - 1)
  {
  }

  /** The body of the loop of run_list_real: it ends the list, or leaves flags and shell for the
      step to the next pipe. */
  method Visit(e: Env, list: seq<Pipe>, k: nat, flags: Flags, shell: Shell, fuel: nat) returns (m: Flags, sh: Shell, end: Option<Out>)
    requires k < |list|
    ensures RunFrom(e, list, k, flags, shell, fuel) == if end.Some? then end.value else After(e, list, k, m, sh, fuel)
    decreases fuel, list, 1
  {
    RunFromRound(e, list, k, flags, shell, fuel);
    hide RunFrom, RunJob, After;
    m, sh, end := flags, shell, None;
    var p := list[k];
    if p.mode.WhileMode? || p.mode.UntilMode? {
      m := m.(restore := false);
      if m.rpipe.None? {
        m := m.(rep := false, rpipe := Some(k));
      }
    }
    if m.skipMode == Some(p.mode) && m.skip {
      if p.followup.Seq? { m := m.(skip := false); }
      return;
    }
    m := m.(skip := true, skipMode := None);
    if p.mode.ThenMode? || p.mode.ElseMode? { m := m.(ifCode := m.nextIfCode); }
    if p.mode.ThenMode? && m.ifCode != 0 {
      return;
    }
    if p.mode.ElseMode? && m.ifCode == 0 {
      return;
    }
    if p.mode.ElifMode? && m.ifCode == 0 {
      end := Some(Done(sh, m.rcode));
      return;
    }
    if p.mode.DoMode? && !m.rep {
      return;
    }
    if p.mode.DoneMode? {
      m := if m.rep then m.(restore := true) else m.(rpipe := None);
    }
    if p.job.Empty? {
      return;
    }
    m, sh, end := Perform(e, list, k, m, sh, fuel);
  }

  /** Its part from run_pipe_real on. */
  method Perform(e: Env, list: seq<Pipe>, k: nat, flags: Flags, shell: Shell, fuel: nat) returns (m: Flags, sh: Shell, end: Option<Out>)
    requires k < |list| && !list[k].job.Empty?
    ensures var out := RunJob(e, list[k].job, shell, fuel);
            if GoesOn(out) then end.None? && m == Record(flags, list[k], out.rcode) && sh == Settle(out).sh else end == Some(Settle(out))
    decreases fuel, list, 0
  {
    var p := list[k];
    assert p.job < p;
    m, sh := flags, shell;
    var out := RunPipe(e, p.job, shell, fuel);
    if out.Stopped? {
      end := Some(out);
      return;
    }
    m := m.(rcode := out.rcode);
    if m.rcode < -1 {
      end := Some(Done(out.sh.(last := -m.rcode - 2), -2));
      return;
    }
    sh := out.sh.(last := if m.rcode == 0 then 0 else 1);
    if p.mode.IfMode? || p.mode.ElifMode? { m := m.(nextIfCode := m.rcode); }
    if p.mode.WhileMode? { m := m.(rep := sh.last == 0); }
    if p.mode.UntilMode? { m := m.(rep := sh.last != 0); }
    if (m.rcode == 0 && p.followup.Or?) || (m.rcode != 0 && p.followup.And?) { m := m.(skipMode := Some(p.mode)); }
    end := None;
  }

  /** run_list_real */
  method RunList(e: Env, list: seq<Pipe>, start: Shell, allowance: nat) returns (out: Out)
    ensures out == RunFrom(e, list, 0, START, start, allowance)
    decreases allowance, list, 2
  {
    var k: nat, sh, fuel: nat, m := 0, start, allowance, START;
    while k < |list|
      invariant fuel <= allowance
      invariant RunFrom(e, list, 0, START, start, allowance) == RunFrom(e, list, k, m, sh, fuel)
      decreases fuel, |list| - k
    {
      hide RunFrom, After;
      var end: Option<Out>;
      m, sh, end := Visit(e, list, k, m, sh, fuel);
      if end.Some? {
        return end.value;
      }
      AfterRound(e, list, k, m, sh, fuel);
      if !m.restore {
        k := k + 1;
      } else if m.rpipe.None? {
        return Done(sh, m.rcode);
      } else if fuel == 0 {
        return Stopped(sh);
      } else {
        k, fuel := m.rpipe.value, fuel - 1;
      }
    }
    out := Done(sh, m.rcode);
  }

  /** The interpreter on what the parser makes of a well-formed script. */
  method RunScript(e: Env, ss: seq<Stmt>, sh: Shell, fuel: nat) returns (out: Out)
    requires WellFormedList(ss)
    ensures out == Seen(Run(e, ss, sh, 0, fuel))
  {
    out := RunList(e, ListOf(ss), sh, fuel);
    ScriptRuns(e, ss, sh, fuel);
  }

  // ---- where the interpreter parts from the structured commands ----

  /** The interpreter always runs the same builtins, and leaves the same $? unless an exit from
      inside a group had a code other than zero. */
  lemma ExitCodes(e: Env, ss: seq<Stmt>, sh: Shell, fuel: nat)
    requires WellFormedList(ss)
    ensures var seen, r := RunFrom(e, ListOf(ss), 0, START, sh, fuel), Run(e, ss, sh, 0, fuel);
            seen.sh.trace == r.sh.trace && (seen.sh == r.sh <==> !(r.Exited? && r.depth > 0 && r.sh.last != 0))
  {
    ScriptRuns(e, ss, sh, fuel);
    hide Run, RunFrom, ListOf;
  }

  function Just(id: nat): seq<Stmt> { One(Simple(id)) }

  function One(c: Command): seq<Stmt> { [AndOr(And, [c])] }

  lemma OneCommand(e: Env, c: Command, mode: Mode, sh: Shell, rcode: Code, fuel: nat)
    ensures Pipes(One(c), mode) == [Pipe(mode, JobOf(c), Seq)]
    ensures Run(e, One(c), sh, rcode, fuel) == RunCommand(e, c, sh, fuel)
  {
    var ss, parts := One(c), [c];
    assert parts[1..] == [] && ss[1..] == [];
    var r := RunCommand(e, c, sh, fuel);
    assert r.Ran? ==> RunParts(e, And, parts[1..], r.sh, r.rcode, fuel) == r && Run(e, ss[1..], r.sh, r.rcode, fuel) == r;
    hide RunCommand;
    assert PartPipes(And, parts[1..], mode) == [] && Pipes(ss[1..], mode) == [];
    assert StmtPipes(ss[0], mode) == PartPipes(And, parts, mode) == [Pipe(mode, JobOf(c), Seq)];
    assert RunStmt(e, ss[0], sh, rcode, fuel) == RunParts(e, And, parts, sh, rcode, fuel) == r;
  }

  lemma OneIsWellFormed(c: Command)
    requires WellFormed(c)
    ensures WellFormedList(One(c)) && HasCommand(One(c))
  {
    assert WellFormedParts(And, [c]);
  }

  /** if <cond>; then <id>; fi where id exits with a code: $? is zero. */
  lemma ExitInBranch(e: Env, cond: nat, id: nat, sh: Shell, fuel: nat)
    requires e(sh, cond) == 0 && e(Shell(sh.trace + [cond], 0), id) < -2
    ensures var ss, trace := One(If([Arm(Just(cond), Just(id))], [])), sh.trace + [cond] + [id];
            && Run(e, ss, sh, 0, fuel) == Exited(Shell(trace, -e(Shell(sh.trace + [cond], 0), id) - 2), 1)
            && RunFrom(e, ListOf(ss), 0, START, sh, fuel) == Done(Shell(trace, 0), -2)
  {
    var arm := Arm(Just(cond), Just(id));
    var c := If([arm], []);
    var sh1 := Shell(sh.trace + [cond], 0);
    OneCommand(e, Simple(cond), IfMode, sh, 0, fuel);
    OneCommand(e, Simple(id), ThenMode, sh1, 0, fuel);
    OneCommand(e, c, Plain, sh, 0, fuel);
    hide Run;
    assert c.arms[0] == arm;
    assert RunArms(e, c, 0, sh, 0, fuel) == RunCommand(e, Simple(id), sh1, fuel);
    OneIsWellFormed(Simple(cond));
    OneIsWellFormed(Simple(id));
    OneIsWellFormed(c);
    ScriptRuns(e, One(c), sh, fuel);
  }

  // ---- empty branches ----

  /** An if whose branches may be empty. */
  ghost predicate Loose(c: Command)
  {
    && c.If? && c.arms != [] && WellFormedList(c.els)
    && forall j :: 0 <= j < |c.arms| ==> HasCommand(c.arms[j].cond) && WellFormedList(c.arms[j].cond) && WellFormedList(c.arms[j].body)
  }

  /** Elifs with an empty branch run into the next one: their commands become part of its condition. */
  function Joined(arms: seq<Arm>): (r: seq<Arm>)
    ensures |r| <= |arms| && (arms != [] ==> r != [])
  {
    if |arms| <= 1 then arms
    else
      var rest := Joined(arms[1..]);
      if arms[0].body == [] then [Arm(arms[0].cond + rest[0].cond, rest[0].body)] + rest[1..] else [arms[0]] + rest
  }

  /** What the interpreter takes a loose if for: nothing behind the first branch counts if that is
      empty and elif follows, and other empty branches followed by elif run into that. */
  function Meant(c: Command): Command
    requires c.If? && c.arms != []
  {
    if |c.arms| > 1 && c.arms[0].body == [] then If([c.arms[0]], [])
    else If([c.arms[0]] + Joined(c.arms[1..]), c.els)
  }

  lemma {:induction false} PipesJoin(a: seq<Stmt>, b: seq<Stmt>, mode: Mode)
    ensures Pipes(a + b, mode) == Pipes(a, mode) + Pipes(b, mode)
    ensures HasCommand(b) ==> HasCommand(a + b)
    ensures WellFormedList(a) && WellFormedList(b) ==> WellFormedList(a + b)
  {
    if a == [] {
      assert a + b == b;
    } else {
      PipesJoin(a[1..], b, mode);
      assert (a + b)[0] == a[0] && (a + b)[1..] == a[1..] + b;
    }
  }

  /** The pipes of a chain's elifs and its else. */
  function TailPipes(arms: seq<Arm>, els: seq<Stmt>): seq<Pipe>
  {
    if arms == [] then Pipes(els, ElseMode)
    else Pipes(arms[0].cond, ElifMode) + (Pipes(arms[0].body, ThenMode) + TailPipes(arms[1..], els))
  }

  lemma {:induction false} ArmsAreTail(c: Command, j: nat)
    requires c.If? && 0 < j <= |c.arms|
    ensures ArmPipes(c, j) == TailPipes(c.arms[j..], c.els)
    decreases |c.arms| - j
  {
    if j < |c.arms| { ArmsAreTail(c, j + 1); }
  }

  lemma {:induction false} JoinedPipes(arms: seq<Arm>, els: seq<Stmt>)
    ensures TailPipes(Joined(arms), els) == TailPipes(arms, els)
  {
    if |arms| > 1 {
      var rest := Joined(arms[1..]);
      JoinedPipes(arms[1..], els);
      if arms[0].body == [] {
        PipesJoin(arms[0].cond, rest[0].cond, ElifMode);
        var first := Arm(arms[0].cond + rest[0].cond, rest[0].body);
        assert ([first] + rest[1..])[1..] == rest[1..];
        hide Pipes;
        assert Pipes([], ThenMode) == [] by { NoPipes(ThenMode); }
        var a, b, d := Pipes(arms[0].cond, ElifMode), Pipes(rest[0].cond, ElifMode), Pipes(rest[0].body, ThenMode) + TailPipes(rest[1..], els);
        assert (a + b) + d == a + ([] + (b + d));
      } else {
        assert ([arms[0]] + rest)[1..] == rest;
      }
    }
  }

  lemma NoPipes(mode: Mode)
    ensures Pipes([], mode) == []
  {
  }

  ghost predicate ArmsOk(arms: seq<Arm>)
  {
    forall j :: 0 <= j < |arms| ==> HasCommand(arms[j].cond) && WellFormedList(arms[j].cond) && WellFormedList(arms[j].body)
  }

  lemma {:induction false} JoinedOk(arms: seq<Arm>)
    requires ArmsOk(arms)
    ensures ArmsOk(Joined(arms)) && forall j :: 0 <= j < |Joined(arms)| - 1 ==> Joined(arms)[j].body != []
  {
    if |arms| > 1 {
      JoinedOk(arms[1..]);
      var rest := Joined(arms[1..]);
      if arms[0].body == [] { PipesJoin(arms[0].cond, rest[0].cond, ElifMode); }
    }
  }

  lemma MeantIsWellFormed(c: Command)
    requires Loose(c)
    ensures WellFormed(Meant(c))
    ensures !(|c.arms| > 1 && c.arms[0].body == []) ==> JobOf(Meant(c)) == JobOf(c)
  {
    JoinedOk(c.arms[1..]);
    var m := Meant(c);
    if !(|c.arms| > 1 && c.arms[0].body == []) {
      JoinedPipes(c.arms[1..], c.els);
      ArmsAreTail(c, 1);
      ArmsAreTail(m, 1);
      assert m.arms[1..] == Joined(c.arms[1..]);
      hide Joined, TailPipes, Pipes;
      assert ArmPipes(m, 0) == ArmPipes(c, 0);
    }
  }

  lemma LoneCondition(e: Env, arm: Arm, sh: Shell, fuel: nat)
    requires arm.body == []
    ensures RunArms(e, If([arm], []), 0, sh, 0, fuel) == Run(e, arm.cond, sh, 0, fuel)
  {
    var c, r := If([arm], []), Run(e, arm.cond, sh, 0, fuel);
    assert c.arms[0] == arm;
    if r.Ran? {
      assert Run(e, [], r.sh, r.rcode, fuel) == r;
      assert RunArms(e, c, 1, r.sh, r.rcode, fuel) == r;
    }
  }

  lemma ElifEnds(e: Env, list: seq<Pipe>, k: nat, m: Flags, sh: Shell, fuel: nat)
    requires k < |list| && list[k].mode == ElifMode && Clear(m) && m.ifCode == 0
    ensures RunFrom(e, list, k, m, sh, fuel) == Done(sh, m.rcode)
  {
  }

  /** The list of a chain whose first branch is empty: its condition, then an elif. */
  lemma GappedList(c: Command)
    requires Loose(c) && |c.arms| > 1 && c.arms[0].body == []
    ensures var list, a := JobOf(c).list, Pipes(c.arms[0].cond, IfMode);
            At(list, 0, a) && |a| < |list| && list[|a|].mode == ElifMode
  {
    var list, a, b := JobOf(c).list, Pipes(c.arms[0].cond, IfMode), Pipes(c.arms[1].cond, ElifMode);
    NoPipes(ThenMode);
    PipesMode(c.arms[1].cond, ElifMode);
    HasSome(c.arms[1].cond);
    hide Pipes;
    var rest := ArmPipes(c, 1) + Ending(FiMode);
    assert ArmPipes(c, 0) == a + ([] + ArmPipes(c, 1)) == a + ArmPipes(c, 1);
    assert list == a + rest && list[0..0 + |list|] == list;
    AtSplit(list, 0, a, rest);
    assert ArmPipes(c, 1)[0] == b[0] && list[|a|] == rest[0];
  }

  /** With nothing between the first then and elif the elif ends the list. */
  lemma FirstBranchEmpty(e: Env, c: Command, sh: Shell, fuel: nat)
    requires Loose(c) && |c.arms| > 1 && c.arms[0].body == []
    ensures RunJob(e, JobOf(c), sh, fuel) == Seen(RunArms(e, Meant(c), 0, sh, 0, fuel))
  {
    var list, a := JobOf(c).list, Pipes(c.arms[0].cond, IfMode);
    GappedList(c);
    LoneCondition(e, c.arms[0], sh, fuel);
    hide Pipes, RunFrom, RunArms, Run, At, ArmPipes, HasCommand, Moved;
    var m := ListRuns(e, list, 0, IfMode, c.arms[0].cond, START, sh, fuel);
    var out := Run(e, c.arms[0].cond, sh, 0, fuel);
    if out.Ran? {
      MovedFlags(IfMode, START, 0, |a|, HasCommand(c.arms[0].cond), out.rcode, m);
      ElifEnds(e, list, |a|, m, out.sh, fuel);
    }
  }

  /** An if with empty branches runs like what it is taken for. */
  lemma EmptyBranches(e: Env, c: Command, sh: Shell, fuel: nat)
    requires Loose(c)
    ensures WellFormed(Meant(c)) && Settle(RunJob(e, JobOf(c), sh, fuel)) == Seen(RunCommand(e, Meant(c), sh, fuel))
  {
    MeantIsWellFormed(c);
    if |c.arms| > 1 && c.arms[0].body == [] {
      FirstBranchEmpty(e, c, sh, fuel);
      hide RunArms, RunJob, JobOf;
    } else {
      CommandRuns(e, Meant(c), sh, fuel);
    }
  }

  const FIRST_FAILS: Env := (_, id) => if id == 0 then 1 else 0

  /** Command 0 fails, 2 succeeds and has an empty branch. */
  const GAPPED: Command := If([Arm(Just(0), Just(1)), Arm(Just(2), []), Arm(Just(3), Just(4))], [])

  lemma GappedMeaning(fuel: nat)
    ensures RunCommand(FIRST_FAILS, GAPPED, FRESH, fuel) == Ran(Shell([0, 2], 0), 0)
  {
    var e, sh0, sh2 := FIRST_FAILS, Shell([0], 1), Shell([0, 2], 0);
    OneCommand(e, Simple(0), IfMode, FRESH, 0, fuel);
    OneCommand(e, Simple(2), ElifMode, sh0, 1, fuel);
    assert FRESH.trace + [0] == [0] && [0] + [2] == [0, 2];
    assert Run(e, [], sh2, 0, fuel) == Ran(sh2, 0);
    hide Run, Just;
    assert RunArms(e, GAPPED, 1, sh0, 1, fuel) == Ran(sh2, 0);
    assert RunArms(e, GAPPED, 0, FRESH, 0, fuel) == Ran(sh2, 0);
  }

  lemma TwoCommands(e: Env, c: Command, d: Command, sh: Shell, rcode: Code, fuel: nat)
    ensures var r := RunCommand(e, c, sh, fuel);
            Run(e, One(c) + One(d), sh, rcode, fuel) == if r.Ran? then RunCommand(e, d, r.sh, fuel) else r
  {
    var ss, r := One(c) + One(d), RunCommand(e, c, sh, fuel);
    assert ss[0] == One(c)[0] && ss[1..] == One(d);
    OneCommand(e, c, Plain, sh, rcode, fuel);
    if r.Ran? { OneCommand(e, d, Plain, r.sh, r.rcode, fuel); }
    var one := One(c);
    assert one[1..] == [] && RunStmt(e, one[0], sh, rcode, fuel) == r by {
      var parts := [c];
      assert parts[1..] == [];
      assert r.Ran? ==> RunParts(e, And, parts[1..], r.sh, r.rcode, fuel) == r;
    }
    hide RunCommand, RunStmt, One;
  }

  const GAPPED_MEANT: Command := If([Arm(Just(0), Just(1)), Arm(Just(2) + Just(3), Just(4))], [])

  lemma GappedIsLoose()
    ensures Loose(GAPPED) && Meant(GAPPED) == GAPPED_MEANT
  {
    OneIsWellFormed(Simple(0));
    OneIsWellFormed(Simple(1));
    OneIsWellFormed(Simple(2));
    OneIsWellFormed(Simple(3));
    OneIsWellFormed(Simple(4));
    assert Joined(GAPPED.arms[2..]) == [Arm(Just(3), Just(4))];
  }

  /** With nothing between a later then and elif the elif is tried even after that condition has
      succeeded, and its branch taken. */
  lemma EmptyElifGoesOn(fuel: nat)
    ensures RunCommand(FIRST_FAILS, GAPPED, FRESH, fuel) == Ran(Shell([0, 2], 0), 0)
    ensures Settle(RunJob(FIRST_FAILS, JobOf(GAPPED), FRESH, fuel)) == Done(Shell([0, 2, 3, 4], 0), 0)
  {
    GappedMeaning(fuel);
    var e, m := FIRST_FAILS, GAPPED_MEANT;
    GappedIsLoose();
    EmptyBranches(e, GAPPED, FRESH, fuel);
    hide Loose, Meant;
    var sh0, sh3 := Shell([0], 1), Shell([0, 2, 3], 0);
    OneCommand(e, Simple(0), IfMode, FRESH, 0, fuel);
    TwoCommands(e, Simple(2), Simple(3), sh0, 1, fuel);
    OneCommand(e, Simple(4), ThenMode, sh3, 0, fuel);
    assert FRESH.trace + [0] == [0] && [0] + [2] + [3] == [0, 2, 3] && sh3.trace + [4] == [0, 2, 3, 4];
    hide Run, Just;
    assert RunArms(e, m, 1, sh0, 1, fuel) == Ran(Shell([0, 2, 3, 4], 0), 0);
    assert RunArms(e, m, 0, FRESH, 0, fuel) == Ran(Shell([0, 2, 3, 4], 0), 0);
  }

  const SUCCEEDING: Env := (_, _) => 0
  const FRESH: Shell := Shell([], 0)

  /** In `a || b && c` a success of a skips c as well; section 2.9.3 of POSIX XCU would run it. */
  lemma MixedListSkipsAll(fuel: nat)
    ensures var list := [Pipe(Plain, Builtin(0), Or), Pipe(Plain, Builtin(1), And), Pipe(Plain, Builtin(2), Seq)];
            RunFrom(SUCCEEDING, list, 0, START, FRESH, fuel) == Done(Shell([0], 0), 0)
  {
    var list := [Pipe(Plain, Builtin(0), Or), Pipe(Plain, Builtin(1), And), Pipe(Plain, Builtin(2), Seq)];
    JobRound(SUCCEEDING, list, 0, START, FRESH, fuel);
    assert FRESH.trace + [0] == [0];
    var m := Record(Begun(Plain, START, 0), list[0], 0);
    var sh := Shell([0], 0);
    SkippedRound(SUCCEEDING, list, 1, m, sh, fuel);
    SkippedRound(SUCCEEDING, list, 2, m, sh, fuel);
  }
}
