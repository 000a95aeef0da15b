// The service under concurrency: any number of threads, each mutator split into lock, check
// and mutate, store, clear, re-read and unlock, each reader into lock, two reads and unlock.
module AccessProtocol {
  import opened Sorting
  import opened Wrappers
  import opened AccessData
  import opened AccessOps
  import opened AccessInvariants
  import opened AccessRuns
  import opened Permissions

  datatype Query =
    | GetUser(username: string)
    | ListUsers
    | GetRole(name: string)
    | ListRoles
    | GetPermissions(username: string)

  /** Lists are given by the map they list; their order is that of AccessService. */
  datatype Answer =
    | FoundUser(user: Option<User>)
    | AllUsers(users: map<string, User>)
    | FoundRole(role: Option<Role>)
    | AllRoles(roles: map<string, Role>)
    | Granted(permissions: Scoped)

  ghost function Answering(sys: map<string, Role>, db: DB, q: Query): Answer
  {
    match q
    case GetUser(u) => FoundUser(Lookup(db, u))
    case ListUsers => AllUsers(db.users)
    case GetRole(n) => FoundRole(SystemFirst(sys, db, n))
    case ListRoles => AllRoles(db.roles)
    case GetPermissions(u) => Granted(PermissionsOf(sys, db, u))
  }

  /** Where a thread is. since is how many operations had completed when it called; a finished
      thread remembers which entry of the log is its own. */
  datatype PC =
    | Idle
    | WantsWrite(op: Op, since: nat)
    | Holding(op: Op, since: nat)
    | Mutated(op: Op, since: nat, now: int, salt: Option<nat>)
    | WriteFailed(op: Op, since: nat, now: int, salt: Option<nat>, write: WriteOutcome)
    | Cleared(op: Op, since: nat, now: int, salt: Option<nat>, write: WriteOutcome)
    | Settled(op: Op, since: nat, env: Env, resp: Response)
    | WantsRead(q: Query, since: nat)
    | Reading(q: Query, since: nat)
    | SawUsers(q: Query, since: nat, users: map<string, User>)
    | SawBoth(q: Query, since: nat, users: map<string, User>, roles: map<string, Role>)
    | Done(since: nat, at: nat)
  {
    predicate Writing() { Holding? || Mutated? || WriteFailed? || Cleared? || Settled? }

    predicate ReadingNow() { Reading? || SawUsers? || SawBoth? }

    predicate AtRest() { Idle? || Done? }

    /** How many steps an operation has left at most. */
    function Rank(): nat
    {
      match this
      case Idle => 0
      case Done(_, _) => 0
      case WantsWrite(_, _) => 6
      case Holding(_, _) => 5
      case Mutated(_, _, _, _) => 4
      case WriteFailed(_, _, _, _, _) => 3
      case Cleared(_, _, _, _, _) => 2
      case Settled(_, _, _, _) => 1
      case WantsRead(_, _) => 4
      case Reading(_, _) => 3
      case SawUsers(_, _, _) => 2
      case SawBoth(_, _, _, _) => 1
    }
  }

  /** Completed operations, in the order their locks were released. */
  datatype Entry =
    | WriteDone(thread: nat, op: Op, env: Env, resp: Response)
    | ReadDone(thread: nat, q: Query, answer: Answer)

  datatype Sys = Sys(
    mem: DB,
    stored: Option<DB>,
    writer: Option<nat>,
    readers: set<nat>,
    pc: seq<PC>,
    log: seq<Entry>)

  datatype Step =
    | CallWrite(t: nat, op: Op)
    | CallRead(t: nat, q: Query)
    | Lock(t: nat)
    | Check(t: nat, now: int, salt: Option<nat>)
    | Store(t: nat, write: WriteOutcome)
    | Clear(t: nat)
    | Reread(t: nat, reread: ReadOutcome)
    | Unlock(t: nat)
    | RLock(t: nat)
    | ReadUsers(t: nat)
    | ReadRoles(t: nat)
    | RUnlock(t: nat)

  predicate Enabled(s: Sys, step: Step)
  {
    step.t < |s.pc| &&
    var pc := s.pc[step.t];
    match step
    case CallWrite(_, _) => pc.Idle? || pc.Done?
    case CallRead(_, _) => pc.Idle? || pc.Done?
    case Lock(_) => pc.WantsWrite? && s.writer.None? && s.readers == {}
    case Check(_, _, _) => pc.Holding?
    case Store(_, _) => pc.Mutated?
    case Clear(_) => pc.WriteFailed?
    case Reread(_, _) => pc.Cleared?
    case Unlock(_) => pc.Settled?
    case RLock(_) => pc.WantsRead? && s.writer.None?
    case ReadUsers(_) => pc.Reading?
    case ReadRoles(_) => pc.SawUsers?
    case RUnlock(_) => pc.SawBoth?
  }

  ghost function Perform(sys: map<string, Role>, s: Sys, step: Step): Sys
    requires Enabled(s, step)
  {
    var t := step.t;
    var pc := s.pc[t];
    match step
    case CallWrite(_, op) => s.(pc := s.pc[t := WantsWrite(op, |s.log|)])
    case CallRead(_, q) => s.(pc := s.pc[t := WantsRead(q, |s.log|)])
    case Lock(_) => s.(writer := Some(t), pc := s.pc[t := Holding(pc.op, pc.since)])
    case Check(_, now, salt) =>
      (match Plan(sys, pc.op, s.mem, now, salt)
       case Err(e) => s.(pc := s.pc[t := Settled(pc.op, pc.since, Env(now, salt, Written, Replied), Some(e))])
       case Ok(d) => s.(mem := d, pc := s.pc[t := Mutated(pc.op, pc.since, now, salt)]))
    case Store(_, write) =>
      var next :=
        if write.Written? then Settled(pc.op, pc.since, Env(pc.now, pc.salt, write, Replied), None)
        else WriteFailed(pc.op, pc.since, pc.now, pc.salt, write);
      s.(stored := AfterWrite(s.stored, write, s.mem), pc := s.pc[t := next])
    case Clear(_) => s.(mem := EMPTY, pc := s.pc[t := Cleared(pc.op, pc.since, pc.now, pc.salt, pc.write)])
    case Reread(_, reread) =>
      s.(mem := Reload(s.stored, reread),
         pc := s.pc[t := Settled(pc.op, pc.since, Env(pc.now, pc.salt, pc.write, reread), Some(StoreFailed))])
    case Unlock(_) =>
      s.(writer := None, pc := s.pc[t := Done(pc.since, |s.log|)],
         log := s.log + [WriteDone(t, pc.op, pc.env, pc.resp)])
    case RLock(_) => s.(readers := s.readers + {t}, pc := s.pc[t := Reading(pc.q, pc.since)])
    case ReadUsers(_) => s.(pc := s.pc[t := SawUsers(pc.q, pc.since, s.mem.users)])
    case ReadRoles(_) => s.(pc := s.pc[t := SawBoth(pc.q, pc.since, pc.users, s.mem.roles)])
    case RUnlock(_) =>
      s.(readers := s.readers - {t}, pc := s.pc[t := Done(pc.since, |s.log|)],
         log := s.log + [ReadDone(t, pc.q, Answering(sys, DB(pc.users, pc.roles), pc.q))])
  }

  // The sequential reading of a log

  ghost function CallsOf(log: seq<Entry>): seq<Call>
  {
    if log == [] then []
    else
      var front, last := CallsOf(log[..|log| - 1]), log[|log| - 1];
      if last.WriteDone? then front + [Call(last.op, last.env)] else front
  }

  /** The state after the logged mutators, one whole call after the other. */
  ghost function After(sys: map<string, Role>, init: State, log: seq<Entry>): State
  {
    Final(sys, init, CallsOf(log))
  }

  /** An entry says what its operation, run alone in state s, says. */
  ghost predicate Answers(sys: map<string, Role>, s: State, e: Entry)
  {
    match e
    case WriteDone(_, op, env, resp) => resp == Apply(sys, op, s, env).1
    case ReadDone(_, q, answer) => answer == Answering(sys, s.mem, q)
  }

  /** The log is a sequential history: every response is the one its operation gives when run
      after the entries before it. */
  ghost predicate Sequential(sys: map<string, Role>, init: State, log: seq<Entry>)
  {
    forall i :: 0 <= i < |log| ==> Answers(sys, After(sys, init, log[..i]), log[i])
  }

  lemma AfterOneMore(sys: map<string, Role>, init: State, log: seq<Entry>, e: Entry)
    ensures After(sys, init, log + [e]) ==
            if e.WriteDone? then Apply(sys, e.op, After(sys, init, log), e.env).0 else After(sys, init, log)
  {
  }

  lemma SequentialOneMore(sys: map<string, Role>, init: State, log: seq<Entry>, e: Entry)
    requires Sequential(sys, init, log) && Answers(sys, After(sys, init, log), e)
    ensures Sequential(sys, init, log + [e])
  {
    forall i | 0 <= i <= |log| ensures Answers(sys, After(sys, init, (log + [e])[..i]), (log + [e])[i]) {
      assert (log + [e])[..i] == log[..i];
      assert log[..|log|] == log;
    }
  }

  // The invariant

  /** How far the writer has moved memory and key away from the last unlock point. */
  ghost predicate Midway(sys: map<string, Role>, base: State, mem: DB, stored: Option<DB>, pc: PC)
  {
    match pc
    case Holding(_, _) => mem == base.mem && stored == base.stored
    case Mutated(op, _, now, salt) => Plan(sys, op, base.mem, now, salt) == Ok(mem) && stored == base.stored
    case WriteFailed(op, _, now, salt, write) =>
      Plan(sys, op, base.mem, now, salt) == Ok(mem) && !write.Written? && stored == AfterWrite(base.stored, write, mem)
    case Cleared(op, _, now, salt, write) =>
      var plan := Plan(sys, op, base.mem, now, salt);
      plan.Ok? && mem == EMPTY && !write.Written? && stored == AfterWrite(base.stored, write, plan.value)
    case Settled(op, _, env, resp) => Apply(sys, op, base, env) == (State(mem, stored), resp)
    case _ => true
  }

  ghost predicate WriterMatches(s: Sys)
  {
    && (s.writer.Some? ==> s.writer.value < |s.pc| && s.readers == {})
    && (forall t :: 0 <= t < |s.pc| ==> (s.pc[t].Writing() <==> s.writer == Some(t)))
  }

  ghost predicate ReadersMatch(s: Sys)
  {
    && (forall t :: t in s.readers ==> t < |s.pc|)
    && (forall t :: 0 <= t < |s.pc| ==> (s.pc[t].ReadingNow() <==> t in s.readers))
  }

  ghost predicate LocksMatch(s: Sys)
  {
    WriterMatches(s) && ReadersMatch(s)
  }

  ghost predicate ReadersSeeMemory(s: Sys)
  {
    forall t :: 0 <= t < |s.pc| ==>
      match s.pc[t]
      case SawUsers(_, _, users) => users == s.mem.users
      case SawBoth(_, _, users, roles) => users == s.mem.users && roles == s.mem.roles
      case _ => true
  }

  /** A call takes effect between its invocation and its return. */
  ghost predicate InsideTheirCalls(s: Sys)
  {
    forall t :: 0 <= t < |s.pc| ==>
      match s.pc[t]
      case Idle => true
      case Done(since, at) => since <= at < |s.log| && s.log[at].thread == t
      case pc => pc.since <= |s.log|
  }

  ghost predicate Consistent(sys: map<string, Role>, init: State, s: Sys)
  {
    var base := After(sys, init, s.log);
    if s.writer.None? then State(s.mem, s.stored) == base
    else s.writer.value < |s.pc| && Midway(sys, base, s.mem, s.stored, s.pc[s.writer.value])
  }

  ghost predicate Inv(sys: map<string, Role>, init: State, s: Sys)
  {
    && LocksMatch(s)
    && ReadersSeeMemory(s)
    && InsideTheirCalls(s)
    && Consistent(sys, init, s)
    && Sequential(sys, init, s.log)
  }

  ghost predicate Initial(init: State, s: Sys)
  {
    && s.mem == init.mem && s.stored == init.stored && s.writer.None? && s.readers == {} && s.log == []
    && forall t :: 0 <= t < |s.pc| ==> s.pc[t].Idle?
  }

  lemma StepKeepsTheWriter(sys: map<string, Role>, s: Sys, step: Step)
    requires LocksMatch(s) && Enabled(s, step)
    ensures WriterMatches(Perform(sys, s, step))
  {
  }

  lemma StepKeepsTheReaders(sys: map<string, Role>, s: Sys, step: Step)
    requires LocksMatch(s) && Enabled(s, step)
    ensures ReadersMatch(Perform(sys, s, step))
  {
  }

  lemma StepKeepsReaders(sys: map<string, Role>, s: Sys, step: Step)
    requires LocksMatch(s) && ReadersSeeMemory(s) && Enabled(s, step)
    ensures ReadersSeeMemory(Perform(sys, s, step))
  {
  }

  lemma StepKeepsCallOrder(sys: map<string, Role>, s: Sys, step: Step)
    requires InsideTheirCalls(s) && Enabled(s, step)
    ensures InsideTheirCalls(Perform(sys, s, step))
  {
  }

  lemma StepKeepsConsistency(sys: map<string, Role>, init: State, s: Sys, step: Step)
    requires Inv(sys, init, s) && Enabled(s, step)
    ensures Consistent(sys, init, Perform(sys, s, step))
    ensures Sequential(sys, init, Perform(sys, s, step).log)
  {
    var pc := s.pc[step.t];
    var base := After(sys, init, s.log);
    match step
    case Unlock(t) =>
      var e := WriteDone(t, pc.op, pc.env, pc.resp);
      AfterOneMore(sys, init, s.log, e);
      SequentialOneMore(sys, init, s.log, e);
    case RUnlock(t) =>
      var e := ReadDone(t, pc.q, Answering(sys, DB(pc.users, pc.roles), pc.q));
      assert DB(pc.users, pc.roles) == s.mem == base.mem;
      AfterOneMore(sys, init, s.log, e);
      SequentialOneMore(sys, init, s.log, e);
    case _ =>
  }

  lemma StepKeepsInv(sys: map<string, Role>, init: State, s: Sys, step: Step)
    requires Inv(sys, init, s) && Enabled(s, step)
    ensures Inv(sys, init, Perform(sys, s, step))
  {
    StepKeepsTheWriter(sys, s, step);
    StepKeepsTheReaders(sys, s, step);
    StepKeepsReaders(sys, s, step);
    StepKeepsCallOrder(sys, s, step);
    StepKeepsConsistency(sys, init, s, step);
  }

  // Whole runs

  ghost predicate Run(sys: map<string, Role>, sts: seq<Sys>, steps: seq<Step>)
  {
    && |sts| == |steps| + 1
    && forall i :: 0 <= i < |steps| ==> Enabled(sts[i], steps[i]) && sts[i + 1] == Perform(sys, sts[i], steps[i])
  }

  lemma {:induction false} RunsKeepInv(sys: map<string, Role>, init: State, sts: seq<Sys>, steps: seq<Step>, i: nat)
    requires Run(sys, sts, steps) && Initial(init, sts[0]) && i < |sts|
    ensures Inv(sys, init, sts[i])
  {
    if i > 0 {
      RunsKeepInv(sys, init, sts, steps, i - 1);
      StepKeepsInv(sys, init, sts[i - 1], steps[i - 1]);
    }
  }

  // Calls and entries

  predicate IsCallBy(step: Step, t: nat)
  {
    step.t == t && (step.CallWrite? || step.CallRead?)
  }

  /** The call a thread is at work on, as the step that made it. */
  function CallOf(t: nat, pc: PC): Option<Step>
  {
    if pc.Idle? || pc.Done? then None
    else if pc.WantsWrite? || pc.Writing() then Some(CallWrite(t, pc.op))
    else Some(CallRead(t, pc.q))
  }

  /** The entry is for the called operation or query, by the thread that called it. */
  predicate EntryOf(call: Step, e: Entry)
  {
    match e
    case WriteDone(t, op, _, _) => call == CallWrite(t, op)
    case ReadDone(t, q, _) => call == CallRead(t, q)
  }

  /** The latest call a thread made in the first j steps. */
  function LastCall(steps: seq<Step>, j: nat, t: nat): (k: Option<nat>)
    requires j <= |steps|
    ensures k.Some? ==> k.value < j && IsCallBy(steps[k.value], t)
    ensures forall m :: (if k.Some? then k.value + 1 else 0) <= m < j ==> !IsCallBy(steps[m], t)
  {
    if j == 0 then None
    else if IsCallBy(steps[j - 1], t) then Some(j - 1)
    else LastCall(steps, j - 1, t)
  }

  /** For each entry logged in the first j steps, the call it is for: the latest one of the
      thread that released the lock. */
  function Owners(steps: seq<Step>, j: nat): seq<nat>
    requires j <= |steps|
  {
    if j == 0 then []
    else
      var last, front := steps[j - 1], Owners(steps, j - 1);
      var call := LastCall(steps, j - 1, last.t);
      if (last.Unlock? || last.RUnlock?) && call.Some? then front + [call.value] else front
  }

  /** A call that has not returned. */
  predicate Pending(steps: seq<Step>, j: nat, s: Sys, k: nat)
    requires j <= |steps| && k < j
  {
    var t := steps[k].t;
    t < |s.pc| && LastCall(steps, j, t) == Some(k) && !s.pc[t].Done?
  }

  ghost predicate OwnersMatch(steps: seq<Step>, j: nat, s: Sys)
    requires j <= |steps|
  {
    var owner := Owners(steps, j);
    && |owner| == |s.log| && NoRepeats(owner)
    && forall n :: 0 <= n < |owner| ==> owner[n] < j && EntryOf(steps[owner[n]], s.log[n])
  }

  ghost predicate ThreadMatches(steps: seq<Step>, j: nat, s: Sys, t: nat)
    requires j <= |steps| && t < |s.pc|
  {
    var owner, pc := Owners(steps, j), s.pc[t];
    match LastCall(steps, j, t)
    case None => pc.Idle?
    case Some(k) =>
      if pc.Done? then pc.at < |owner| && owner[pc.at] == k
      else CallOf(t, pc) == Some(steps[k]) && k !in owner
  }

  ghost predicate ThreadsMatch(steps: seq<Step>, j: nat, s: Sys)
    requires j <= |steps|
  {
    forall t :: 0 <= t < |s.pc| ==> ThreadMatches(steps, j, s, t)
  }

  ghost predicate NoneForgotten(steps: seq<Step>, j: nat, s: Sys)
    requires j <= |steps|
  {
    forall k :: 0 <= k < j && IsCallBy(steps[k], steps[k].t) ==> k in Owners(steps, j) || Pending(steps, j, s, k)
  }

  /** Every entry belongs to one call, and every call that is not pending has one entry. */
  ghost predicate CallsMatch(steps: seq<Step>, j: nat, s: Sys)
    requires j <= |steps|
  {
    OwnersMatch(steps, j, s) && ThreadsMatch(steps, j, s) && NoneForgotten(steps, j, s)
  }

  /** What a step appends to the log is for the call its thread is at work on. */
  lemma StepLogsTheCall(sys: map<string, Role>, s: Sys, step: Step)
    requires Enabled(s, step)
    ensures var (t, log) := (step.t, Perform(sys, s, step).log);
      if step.Unlock? || step.RUnlock? then
        && log[..|log| - 1] == s.log && |log| == |s.log| + 1
        && CallOf(t, s.pc[t]).Some? && EntryOf(CallOf(t, s.pc[t]).value, log[|s.log|])
        && Perform(sys, s, step).pc[t].Done? && Perform(sys, s, step).pc[t].at == |s.log|
      else log == s.log
  {
  }

  /** What a thread is at work on changes only with its own calls and unlocks. */
  lemma StepKeepsTheCall(sys: map<string, Role>, s: Sys, step: Step, t: nat)
    requires Enabled(s, step) && t < |s.pc|
    ensures var s' := Perform(sys, s, step);
      && |s'.pc| == |s.pc|
      && (step.t != t ==> s'.pc[t] == s.pc[t])
      && (IsCallBy(step, t) ==> CallOf(t, s.pc[t]) == None && CallOf(t, s'.pc[t]) == Some(step))
      && (step.t == t && !IsCallBy(step, t) ==> CallOf(t, s.pc[t]).Some?)
      && (step.t == t && !IsCallBy(step, t) && !step.Unlock? && !step.RUnlock? ==>
        CallOf(t, s'.pc[t]) == CallOf(t, s.pc[t]))
  {
  }

  lemma StepKeepsOwners(sys: map<string, Role>, steps: seq<Step>, j: nat, s: Sys)
    requires j < |steps| && CallsMatch(steps, j, s) && Enabled(s, steps[j])
    ensures OwnersMatch(steps, j + 1, Perform(sys, s, steps[j]))
  {
    StepLogsTheCall(sys, s, steps[j]);
    assert ThreadMatches(steps, j, s, steps[j].t);
  }

  lemma StepKeepsThread(sys: map<string, Role>, steps: seq<Step>, j: nat, s: Sys, t: nat)
    requires j < |steps| && CallsMatch(steps, j, s) && Enabled(s, steps[j]) && t < |s.pc|
    ensures t < |Perform(sys, s, steps[j]).pc|
    ensures ThreadMatches(steps, j + 1, Perform(sys, s, steps[j]), t)
  {
    StepLogsTheCall(sys, s, steps[j]);
    StepKeepsTheCall(sys, s, steps[j], t);
    assert ThreadMatches(steps, j, s, t) && ThreadMatches(steps, j, s, steps[j].t);
  }

  lemma StepForgetsNone(sys: map<string, Role>, steps: seq<Step>, j: nat, s: Sys)
    requires j < |steps| && CallsMatch(steps, j, s) && Enabled(s, steps[j])
    ensures NoneForgotten(steps, j + 1, Perform(sys, s, steps[j]))
  {
    var s' := Perform(sys, s, steps[j]);
    forall k | 0 <= k <= j && IsCallBy(steps[k], steps[k].t)
      ensures k in Owners(steps, j + 1) || Pending(steps, j + 1, s', k)
    {
      StepKeepsTheCall(sys, s, steps[j], steps[j].t);
      if k < j && k !in Owners(steps, j) {
        assert Pending(steps, j, s, k) && ThreadMatches(steps, j, s, steps[k].t);
        StepKeepsTheCall(sys, s, steps[j], steps[k].t);
      }
    }
  }

  lemma {:induction false} RunsMatchCalls(sys: map<string, Role>, init: State, sts: seq<Sys>, steps: seq<Step>, j: nat)
    requires Run(sys, sts, steps) && Initial(init, sts[0]) && j < |sts|
    ensures CallsMatch(steps, j, sts[j])
  {
    if j > 0 {
      RunsMatchCalls(sys, init, sts, steps, j - 1);
      var s := sts[j - 1];
      StepKeepsOwners(sys, steps, j - 1, s);
      forall t | 0 <= t < |sts[j].pc| ensures ThreadMatches(steps, j, sts[j], t) {
        StepKeepsTheCall(sys, s, steps[j - 1], steps[j - 1].t);
        StepKeepsThread(sys, steps, j - 1, s, t);
      }
      StepForgetsNone(sys, steps, j - 1, s);
    }
  }

  lemma StepKeepsTheLog(sys: map<string, Role>, s: Sys, step: Step)
    requires Enabled(s, step)
    ensures s.log <= Perform(sys, s, step).log
  {
  }

  lemma {:induction false} LogsGrow(sys: map<string, Role>, sts: seq<Sys>, steps: seq<Step>, a: nat, b: nat)
    requires Run(sys, sts, steps) && a <= b < |sts|
    ensures sts[a].log <= sts[b].log
    decreases b
  {
    if a < b {
      LogsGrow(sys, sts, steps, a, b - 1);
      StepKeepsTheLog(sys, sts[b - 1], steps[b - 1]);
    }
  }

  /** Entry n is logged after its call: what was logged before the call comes before it. */
  ghost predicate LoggedAfterItsCall(sts: seq<Sys>, owner: seq<nat>, n: nat)
    requires n < |owner|
  {
    owner[n] < |sts| && |sts[owner[n]].log| <= n
  }

  lemma OwnersGrow(steps: seq<Step>, j: nat, n: nat)
    requires j <= |steps| && n < |Owners(steps, j)|
    ensures j > 0
    ensures var front := Owners(steps, j - 1);
      if n < |front| then Owners(steps, j)[n] == front[n] else n == |front| && Owners(steps, j)[n] < j - 1
  {
  }

  lemma OneOwnerPerEntry(sys: map<string, Role>, init: State, sts: seq<Sys>, steps: seq<Step>, j: nat)
    requires Run(sys, sts, steps) && Initial(init, sts[0]) && j < |sts|
    ensures |Owners(steps, j)| == |sts[j].log|
  {
    RunsMatchCalls(sys, init, sts, steps, j);
  }

  /** Logs only grow, and each entry has its owner. */
  ghost predicate GrowsByOwners(sts: seq<Sys>, steps: seq<Step>)
  {
    && |sts| == |steps| + 1
    && (forall a, b :: 0 <= a <= b < |sts| ==> |sts[a].log| <= |sts[b].log|)
    && (forall j :: 0 <= j < |sts| ==> |Owners(steps, j)| == |sts[j].log|)
  }

  lemma RunsGrowByOwners(sys: map<string, Role>, init: State, sts: seq<Sys>, steps: seq<Step>)
    requires Run(sys, sts, steps) && Initial(init, sts[0])
    ensures GrowsByOwners(sts, steps)
  {
    forall a, b | 0 <= a <= b < |sts| ensures |sts[a].log| <= |sts[b].log| { LogsGrow(sys, sts, steps, a, b); }
    forall j | 0 <= j < |sts| ensures |Owners(steps, j)| == |sts[j].log| {
      OneOwnerPerEntry(sys, init, sts, steps, j);
    }
  }

  lemma {:induction false} EntriesFollowTheirCalls(sts: seq<Sys>, steps: seq<Step>, j: nat, n: nat)
    requires GrowsByOwners(sts, steps) && j < |sts| && n < |Owners(steps, j)|
    ensures LoggedAfterItsCall(sts, Owners(steps, j), n)
  {
    OwnersGrow(steps, j, n);
    if n < |Owners(steps, j - 1)| { EntriesFollowTheirCalls(sts, steps, j - 1, n); }
  }

  /** Every interleaving of any number of threads is a sequential history in the order in which
      locks were released: each response is the one its operation gives when run alone there,
      and whenever no writer holds the lock memory and key are what the sequential run leaves.
      Each entry is for one call, made with that operation or query by that thread after what
      precedes the call was logged, no two entries for the same one; and the calls with an
      entry are exactly those that have returned. */
  lemma EveryRunIsLinearizable(sys: map<string, Role>, init: State, sts: seq<Sys>, steps: seq<Step>, i: nat)
    requires Run(sys, sts, steps) && Initial(init, sts[0]) && i < |sts|
    ensures var s, owner := sts[i], Owners(steps, i);
      && Sequential(sys, init, s.log)
      && (s.writer.None? ==> State(s.mem, s.stored) == Final(sys, init, CallsOf(s.log)))
      && |owner| == |s.log| && NoRepeats(owner)
      && (forall n :: 0 <= n < |s.log| ==>
        owner[n] < i && EntryOf(steps[owner[n]], s.log[n]) && LoggedAfterItsCall(sts, owner, n))
      && (forall k :: 0 <= k < i && IsCallBy(steps[k], steps[k].t) ==>
        (k in owner <==> !Pending(steps, i, s, k)))
  {
    RunsKeepInv(sys, init, sts, steps, i);
    RunsMatchCalls(sys, init, sts, steps, i);
    RunsGrowByOwners(sys, init, sts, steps);
    forall n | 0 <= n < |Owners(steps, i)| ensures LoggedAfterItsCall(sts, Owners(steps, i), n) {
      EntriesFollowTheirCalls(sts, steps, i, n);
    }
    forall k | 0 <= k < i && Pending(steps, i, sts[i], k) ensures k !in Owners(steps, i) {
      assert ThreadMatches(steps, i, sts[i], steps[k].t);
    }
  }

  lemma LastCallIs(steps: seq<Step>, k: nat, j: nat, t: nat)
    requires k < j <= |steps| && IsCallBy(steps[k], t)
    requires forall m :: k < m < j ==> !IsCallBy(steps[m], t)
    ensures LastCall(steps, j, t) == Some(k)
  {
  }

  /** The sequential order respects real time: what had completed when an operation was called
      stays in the log and comes before the entry of that operation, which is its own. */
  lemma CompletedOperationsComeFirst(sys: map<string, Role>, init: State, sts: seq<Sys>, steps: seq<Step>, k: nat,
        j: nat, t: nat)
    requires Run(sys, sts, steps) && Initial(init, sts[0]) && k < j < |sts| && IsCallBy(steps[k], t)
    requires forall m :: k < m < j ==> !IsCallBy(steps[m], t)
    requires t < |sts[j].pc| && sts[j].pc[t].Done?
    ensures |sts[k].log| <= sts[j].pc[t].at < |sts[j].log|
    ensures sts[k].log <= sts[j].log
    ensures EntryOf(steps[k], sts[j].log[sts[j].pc[t].at])
  {
    LastCallIs(steps, k, j, t);
    RunsMatchCalls(sys, init, sts, steps, j);
    assert ThreadMatches(steps, j, sts[j], t);
    RunsGrowByOwners(sys, init, sts, steps);
    EntriesFollowTheirCalls(sts, steps, j, sts[j].pc[t].at);
    LogsGrow(sys, sts, steps, k, j);
  }

  lemma {:induction false} ReadsMoveNothing(sys: map<string, Role>, init: State, log: seq<Entry>, j: nat, i: nat)
    requires j <= i <= |log| && forall k :: j <= k < i ==> log[k].ReadDone?
    ensures After(sys, init, log[..i]) == After(sys, init, log[..j])
    decreases i
  {
    if j < i {
      ReadsMoveNothing(sys, init, log, j, i - 1);
      assert log[..i] == log[..i - 1] + [log[i - 1]];
      AfterOneMore(sys, init, log[..i - 1], log[i - 1]);
    }
  }

  /** The last unlock point at or before entry i. */
  function UnlockPoint(log: seq<Entry>, i: nat): (j: nat)
    requires i <= |log|
    ensures j <= i && (j == 0 || log[j - 1].WriteDone?)
    ensures forall k :: j <= k < i ==> log[k].ReadDone?
  {
    if i == 0 || log[i - 1].WriteDone? then i else UnlockPoint(log, i - 1)
  }

  lemma AnswersComeFromUnlockPoints(sys: map<string, Role>, init: State, log: seq<Entry>, i: nat)
    requires Sequential(sys, init, log) && i < |log| && log[i].ReadDone?
    ensures log[i].answer == Answering(sys, Final(sys, init, CallsOf(log[..UnlockPoint(log, i)])).mem, log[i].q)
  {
    assert Answers(sys, After(sys, init, log[..i]), log[i]);
    ReadsMoveNothing(sys, init, log, UnlockPoint(log, i), i);
  }

  /** In every run, what a reader returned is what the state at an unlock point gives: the one
      after the last mutator logged before it, or the initial state; all that had completed when
      the reader was called is counted in. */
  lemma ReadersSeeUnlockPoints(sys: map<string, Role>, init: State, sts: seq<Sys>, steps: seq<Step>, i: nat, n: nat)
    requires Run(sys, sts, steps) && Initial(init, sts[0]) && i < |sts|
    requires n < |sts[i].log| && sts[i].log[n].ReadDone?
    ensures n < |Owners(steps, i)| && Owners(steps, i)[n] < i
    ensures var log, call := sts[i].log, Owners(steps, i)[n];
      && steps[call] == CallRead(log[n].thread, log[n].q) && |sts[call].log| <= n
      && log[n].answer == Answering(sys, Final(sys, init, CallsOf(log[..UnlockPoint(log, n)])).mem, log[n].q)
  {
    EveryRunIsLinearizable(sys, init, sts, steps, i);
    assert EntryOf(steps[Owners(steps, i)[n]], sts[i].log[n]) && LoggedAfterItsCall(sts, Owners(steps, i), n);
    AnswersComeFromUnlockPoints(sys, init, sts[i].log, n);
  }

  /** What each mutator returned in a run is what the operation called gives when run alone after
      the mutators logged before it. */
  lemma WhatMutatorsReturn(sys: map<string, Role>, init: State, sts: seq<Sys>, steps: seq<Step>, i: nat, n: nat)
    requires Run(sys, sts, steps) && Initial(init, sts[0]) && i < |sts|
    requires n < |sts[i].log| && sts[i].log[n].WriteDone?
    ensures n < |Owners(steps, i)| && Owners(steps, i)[n] < i
    ensures var e := sts[i].log[n];
      && steps[Owners(steps, i)[n]] == CallWrite(e.thread, e.op)
      && e.resp == Apply(sys, e.op, Final(sys, init, CallsOf(sts[i].log[..n])), e.env).1
  {
    EveryRunIsLinearizable(sys, init, sts, steps, i);
    assert EntryOf(steps[Owners(steps, i)[n]], sts[i].log[n]);
    assert Answers(sys, After(sys, init, sts[i].log[..n]), sts[i].log[n]);
  }

  /** What each reader returned in a run, db being memory at its unlock point: all users, all
      stored roles, the whole user, the built-in role or else the stored one, and exactly what
      the user's roles grant, sorted and without repetitions. */
  lemma WhatReadersReturn(sys: map<string, Role>, init: State, sts: seq<Sys>, steps: seq<Step>, i: nat, n: nat)
    requires Run(sys, sts, steps) && Initial(init, sts[0]) && i < |sts|
    requires n < |sts[i].log| && sts[i].log[n].ReadDone?
    ensures var log := sts[i].log;
      var db, answer := Final(sys, init, CallsOf(log[..UnlockPoint(log, n)])).mem, log[n].answer;
      match log[n].q
      case ListUsers => answer == AllUsers(db.users)
      case ListRoles => answer == AllRoles(db.roles)
      case GetUser(u) => answer == FoundUser(if u in db.users then Some(db.users[u]) else None)
      case GetRole(name) =>
        && (name in sys ==> answer == FoundRole(Some(sys[name])))
        && (name !in sys && name in db.roles ==> answer == FoundRole(Some(db.roles[name])))
        && (name !in sys && name !in db.roles ==> answer == FoundRole(None))
      case GetPermissions(u) =>
        && answer.Granted?
        && GrantedByRoles(sys, db, if u in db.users then db.users[u].roles else [], answer.permissions)
  {
    ReadersSeeUnlockPoints(sys, init, sts, steps, i, n);
    var log := sts[i].log;
    if log[n].q.GetPermissions? {
      PermissionsAreGrantedByRoles(sys, Final(sys, init, CallsOf(log[..UnlockPoint(log, n)])).mem, log[n].q.username);
    }
  }

  /** At every moment of every run, in the middle of operations too, memory and key are sound;
      with no writer at work memory mirrors the key or was emptied. */
  lemma EveryReachableStateIsSound(sys: map<string, Role>, init: State, sts: seq<Sys>, steps: seq<Step>, i: nat)
    requires SystemTable(sys) && SoundState(sys, init)
    requires Run(sys, sts, steps) && Initial(init, sts[0]) && i < |sts|
    ensures Sound(sys, sts[i].mem) && Sound(sys, Contents(sts[i].stored))
    ensures sts[i].writer.None? ==> Agrees(State(sts[i].mem, sts[i].stored))
  {
    var s := sts[i];
    RunsKeepInv(sys, init, sts, steps, i);
    var base := After(sys, init, s.log);
    RunsKeepSoundState(sys, init, CallsOf(s.log));
    if s.writer.Some? {
      var pc := s.pc[s.writer.value];
      if pc.Mutated? || pc.WriteFailed? || pc.Cleared? {
        PlanKeepsSound(sys, pc.op, base.mem, pc.now, pc.salt);
      } else if pc.Settled? {
        ApplyKeepsSoundState(sys, pc.op, base, pc.env);
      }
    }
  }

  /** Between writers, logins are decided by the last password the logged mutators put in the key. */
  lemma LoginsBetweenWriters(sys: map<string, Role>, init: State, sts: seq<Sys>, steps: seq<Step>, i: nat,
        u: string, p: Password)
    requires SystemTable(sys) && SoundState(sys, init) && init.mem == Contents(init.stored)
    requires Run(sys, sts, steps) && Initial(init, sts[0]) && i < |sts| && sts[i].writer.None?
    ensures var mem, h := sts[i].mem, History(sys, init, CallsOf(sts[i].log));
      Authenticates(mem, u, p) <==> u in mem.users && mem.users[u].enabled && LastPassword(init.mem, h, u) == Some(p)
  {
    RunsKeepInv(sys, init, sts, steps, i);
    AuthenticationFollowsTheLastPassword(sys, init, CallsOf(sts[i].log), u, p);
  }

  /** Whatever else is going on, a password check that got its user by entry n of the log
      accepts exactly the last password the mutators logged before n put in the key, for a user
      that is there and enabled after them. */
  lemma LoginsUnderConcurrency(sys: map<string, Role>, init: State, sts: seq<Sys>, steps: seq<Step>, i: nat,
        n: nat, u: string, p: Password)
    requires SystemTable(sys) && SoundState(sys, init) && init.mem == Contents(init.stored)
    requires Run(sys, sts, steps) && Initial(init, sts[0]) && i < |sts| && n < |sts[i].log|
    requires sts[i].log[n].ReadDone? && sts[i].log[n].q == GetUser(u)
    ensures sts[i].log[n].answer.FoundUser?
    ensures var calls := CallsOf(sts[i].log[..n]);
      var mem := Final(sys, init, calls).mem;
      Accepts(sts[i].log[n].answer.user, p) <==>
        u in mem.users && mem.users[u].enabled && LastPassword(init.mem, History(sys, init, calls), u) == Some(p)
  {
    var log := sts[i].log;
    RunsKeepInv(sys, init, sts, steps, i);
    assert Answers(sys, After(sys, init, log[..n]), log[n]);
    AuthenticationFollowsTheLastPassword(sys, init, CallsOf(log[..n]), u, p);
  }

  /** As long as some operation is under way, some thread can take its next step. */
  lemma NoDeadlock(sys: map<string, Role>, init: State, s: Sys, t: nat) returns (step: Step)
    requires Inv(sys, init, s) && t < |s.pc| && !s.pc[t].Idle? && !s.pc[t].Done?
    ensures Enabled(s, step) && !step.CallWrite? && !step.CallRead?
  {
    var w := if s.writer.Some? then s.writer.value else if s.readers != {} then (var r :| r in s.readers; r) else t;
    match s.pc[w]
    case WantsWrite(_, _) => step := Lock(w);
    case Holding(_, _) => step := Check(w, 0, None);
    case Mutated(_, _, _, _) => step := Store(w, Written);
    case WriteFailed(_, _, _, _, _) => step := Clear(w);
    case Cleared(_, _, _, _, _) => step := Reread(w, Replied);
    case Settled(_, _, _, _) => step := Unlock(w);
    case WantsRead(_, _) => step := RLock(w);
    case Reading(_, _) => step := ReadUsers(w);
    case SawUsers(_, _, _) => step := ReadRoles(w);
    case SawBoth(_, _, _, _) => step := RUnlock(w);
    case _ => assert false;
  }

  // Every operation can be brought to its return

  function Ranks(pcs: seq<PC>): nat
  {
    if pcs == [] then 0 else Ranks(pcs[..|pcs| - 1]) + pcs[|pcs| - 1].Rank()
  }

  lemma {:induction false} RanksAfter(pcs: seq<PC>, t: nat, pc: PC)
    requires t < |pcs|
    ensures Ranks(pcs[t := pc]) == Ranks(pcs) - pcs[t].Rank() + pc.Rank()
  {
    var front := pcs[..|pcs| - 1];
    if t < |front| {
      RanksAfter(front, t, pc);
      assert pcs[t := pc][..|pcs| - 1] == front[t := pc];
    } else {
      assert pcs[t := pc][..|pcs| - 1] == front;
    }
  }

  lemma {:induction false} RanksAreBounded(pcs: seq<PC>)
    ensures Ranks(pcs) <= 6 * |pcs|
  {
    if pcs != [] { RanksAreBounded(pcs[..|pcs| - 1]); }
  }

  lemma StepMovesItsThread(sys: map<string, Role>, s: Sys, step: Step)
    requires Enabled(s, step) && !IsCallBy(step, step.t)
    ensures var pcs := Perform(sys, s, step).pc;
      |pcs| == |s.pc| && pcs == s.pc[step.t := pcs[step.t]] && pcs[step.t].Rank() < s.pc[step.t].Rank()
  {
  }

  /** Every step but a new call brings the operations under way nearer to their returns,
      whatever the environment decides. */
  lemma StepsDecreaseRanks(sys: map<string, Role>, s: Sys, step: Step)
    requires Enabled(s, step) && !IsCallBy(step, step.t)
    ensures Ranks(Perform(sys, s, step).pc) < Ranks(s.pc)
  {
    StepMovesItsThread(sys, s, step);
    RanksAfter(s.pc, step.t, Perform(sys, s, step).pc[step.t]);
  }

  /** So without new calls a run ends after at most six steps for each thread. */
  lemma {:induction false} RunsWithoutCallsEnd(sys: map<string, Role>, sts: seq<Sys>, steps: seq<Step>, i: nat, j: nat)
    requires Run(sys, sts, steps) && i <= j < |sts|
    requires forall k :: i <= k < j ==> !IsCallBy(steps[k], steps[k].t)
    ensures j - i <= Ranks(sts[i].pc) - Ranks(sts[j].pc) <= 6 * |sts[i].pc|
    decreases j
  {
    RanksAreBounded(sts[i].pc);
    if i < j {
      RunsWithoutCallsEnd(sys, sts, steps, i, j - 1);
      StepsDecreaseRanks(sys, sts[j - 1], steps[j - 1]);
    }
  }

  lemma ExtendRun(sys: map<string, Role>, sts: seq<Sys>, steps: seq<Step>, step: Step)
    requires Run(sys, sts, steps) && Enabled(sts[|steps|], step)
    ensures Run(sys, sts + [Perform(sys, sts[|steps|], step)], steps + [step])
  {
  }

  lemma AtRestNothingIsPending(sys: map<string, Role>, init: State, sts: seq<Sys>, steps: seq<Step>, i: nat)
    requires Run(sys, sts, steps) && Initial(init, sts[0]) && i < |sts|
    requires forall t :: 0 <= t < |sts[i].pc| ==> sts[i].pc[t].AtRest()
    ensures forall k :: 0 <= k < i && IsCallBy(steps[k], steps[k].t) ==> k in Owners(steps, i)
  {
    EveryRunIsLinearizable(sys, init, sts, steps, i);
    RunsMatchCalls(sys, init, sts, steps, i);
    forall t | 0 <= t < |sts[i].pc| ensures LastCall(steps, i, t).Some? ==> sts[i].pc[t].Done? {
      assert ThreadMatches(steps, i, sts[i], t);
    }
  }

  /** Every run can be carried on, without new calls, until every operation called has returned
      and has its entry in the log. */
  lemma {:induction false} OperationsCanBeCompleted(sys: map<string, Role>, init: State, sts: seq<Sys>,
        steps: seq<Step>)
    returns (sts': seq<Sys>, steps': seq<Step>)
    requires Run(sys, sts, steps) && Initial(init, sts[0])
    ensures Run(sys, sts', steps') && sts <= sts' && steps <= steps'
    ensures forall k :: |steps| <= k < |steps'| ==> !IsCallBy(steps'[k], steps'[k].t)
    ensures forall t :: 0 <= t < |sts'[|steps'|].pc| ==> sts'[|steps'|].pc[t].AtRest()
    ensures forall k :: 0 <= k < |steps'| && IsCallBy(steps'[k], steps'[k].t) ==> k in Owners(steps', |steps'|)
    decreases Ranks(sts[|steps|].pc)
  {
    var s := sts[|steps|];
    if t :| 0 <= t < |s.pc| && !s.pc[t].AtRest() {
      RunsKeepInv(sys, init, sts, steps, |steps|);
      var step := NoDeadlock(sys, init, s, t);
      var next := sts + [Perform(sys, s, step)];
      ExtendRun(sys, sts, steps, step);
      StepsDecreaseRanks(sys, s, step);
      sts', steps' := OperationsCanBeCompleted(sys, init, next, steps + [step]);
      assert steps'[|steps|] == (steps + [step])[|steps|];
    } else {
      sts', steps' := sts, steps;
      AtRestNothingIsPending(sys, init, sts, steps, |steps|);
    }
  }

  /** A run that cannot go on without new calls has every operation returned. */
  lemma StuckRunsAreAtRest(sys: map<string, Role>, init: State, sts: seq<Sys>, steps: seq<Step>, i: nat)
    requires Run(sys, sts, steps) && Initial(init, sts[0]) && i < |sts|
    requires forall step :: Enabled(sts[i], step) ==> IsCallBy(step, step.t)
    ensures forall t :: 0 <= t < |sts[i].pc| ==> sts[i].pc[t].AtRest()
  {
    RunsKeepInv(sys, init, sts, steps, i);
    if t :| 0 <= t < |sts[i].pc| && !sts[i].pc[t].AtRest() {
      var step := NoDeadlock(sys, init, sts[i], t);
    }
  }

  // One request's two reads

  /** What the request carries, and passes, after reads i and j of the log. */
  ghost predicate Guarded(sys: map<string, Role>, init: State, log: seq<Entry>, i: nat, j: nat, u: string,
        scope: string, perms: seq<Permission>)
    requires i < j < |log| && log[j].ReadDone? && log[j].answer.Granted?
  {
    var first, second := After(sys, init, log[..i]).mem, After(sys, init, log[..j]).mem;
    && Attached(sys, first, second, u) == Some(log[j].answer.permissions)
    && (Allows(log[j].answer.permissions, scope, perms) <==>
      RoleMentionsAScope(sys, second, u) && forall p :: p in perms ==> RoleGrants(sys, second, u, scope, p))
    && (u !in second.users ==> !Allows(log[j].answer.permissions, scope, perms))
  }

  lemma AuthFuncOnALog(sys: map<string, Role>, init: State, log: seq<Entry>, i: nat, j: nat, u: string,
        scope: string, perms: seq<Permission>)
    requires Sequential(sys, init, log) && i < j < |log|
    requires log[i].ReadDone? && log[i].q == GetUser(u) && log[i].answer.FoundUser? && log[i].answer.user.Some?
    requires log[j].ReadDone? && log[j].q == GetPermissions(u) && log[j].answer.Granted?
    ensures Guarded(sys, init, log, i, j, u, scope, perms)
  {
    assert Answers(sys, After(sys, init, log[..i]), log[i]);
    assert Answers(sys, After(sys, init, log[..j]), log[j]);
    var first, second := After(sys, init, log[..i]).mem, After(sys, init, log[..j]).mem;
    AttachedPermissionsAreOfTheSecondRead(sys, first, second, u, scope, perms);
  }

  /** When a thread calls again, its previous call has returned. */
  lemma CallsFollowReturns(sys: map<string, Role>, init: State, sts: seq<Sys>, steps: seq<Step>, k: nat, next: nat,
        t: nat)
    requires Run(sys, sts, steps) && Initial(init, sts[0]) && k < next < |steps|
    requires IsCallBy(steps[k], t) && IsCallBy(steps[next], t)
    requires forall m :: k < m < next ==> !IsCallBy(steps[m], t)
    ensures t < |sts[next].pc| && sts[next].pc[t].Done?
  {
    assert Enabled(sts[next], steps[next]);
    LastCallIs(steps, k, next, t);
    RunsMatchCalls(sys, init, sts, steps, next);
    assert ThreadMatches(steps, next, sts[next], t);
  }

  /** AuthFunc under concurrency: one thread calls GetUser and then GetPermissions, with
      anything else going on before, between and after. Both reads are in the log, in this
      order. If the first found the user, the request passes exactly on what the user's roles
      grant at the second one's place, and passes nothing if the user is gone by then. */
  lemma AuthFuncUnderConcurrency(sys: map<string, Role>, init: State, sts: seq<Sys>, steps: seq<Step>,
        k: nat, next: nat, last: nat, t: nat, u: string, scope: string, perms: seq<Permission>)
    requires Run(sys, sts, steps) && Initial(init, sts[0]) && k < next < last < |sts|
    requires steps[k] == CallRead(t, GetUser(u)) && steps[next] == CallRead(t, GetPermissions(u))
    requires forall m :: k < m < last && m != next ==> !IsCallBy(steps[m], t)
    requires t < |sts[last].pc| && sts[last].pc[t].Done?
    ensures t < |sts[next].pc| && sts[next].pc[t].Done?
    ensures var log, i, j := sts[last].log, sts[next].pc[t].at, sts[last].pc[t].at;
      && i < j < |log|
      && log[i].ReadDone? && log[i].q == GetUser(u) && log[i].answer.FoundUser?
      && log[j].ReadDone? && log[j].q == GetPermissions(u) && log[j].answer.Granted?
      && (log[i].answer.user.Some? ==> Guarded(sys, init, log, i, j, u, scope, perms))
  {
    CallsFollowReturns(sys, init, sts, steps, k, next, t);
    CompletedOperationsComeFirst(sys, init, sts, steps, k, next, t);
    CompletedOperationsComeFirst(sys, init, sts, steps, next, last, t);
    RunsKeepInv(sys, init, sts, steps, last);
    var log, i, j := sts[last].log, sts[next].pc[t].at, sts[last].pc[t].at;
    assert log[i] == sts[next].log[i];
    assert Answers(sys, After(sys, init, log[..i]), log[i]) && Answers(sys, After(sys, init, log[..j]), log[j]);
    if log[i].answer.user.Some? { AuthFuncOnALog(sys, init, log, i, j, u, scope, perms); }
  }
}
