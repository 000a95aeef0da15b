// What can happen under concurrency: when threads are given the locks, and that every sequence of
// requests, by whichever threads and under whichever faults, is served by some run.
module AccessSchedules {
  import opened Wrappers
  import opened AccessData
  import opened AccessOps
  import opened AccessInvariants
  import opened AccessRuns
  import opened AccessProtocol

  ghost predicate NoneWrites(s: Sys)
  {
    forall o :: 0 <= o < |s.pc| ==> !s.pc[o].Writing()
  }

  ghost predicate NoneReads(s: Sys)
  {
    forall o :: 0 <= o < |s.pc| ==> !s.pc[o].ReadingNow()
  }

  lemma LocksShowWhoWorks(s: Sys)
    requires LocksMatch(s)
    ensures s.writer.None? <==> NoneWrites(s)
    ensures s.readers == {} <==> NoneReads(s)
  {
    if s.writer.Some? { assert s.pc[s.writer.value].Writing(); }
    if s.readers != {} {
      var r :| r in s.readers;
      assert s.pc[r].ReadingNow();
    }
  }

  /** In every run a writer is alone. A thread can take the write lock exactly if nobody writes
      or reads, and the read lock exactly if nobody writes, however many read; a thread at rest
      can call anything. */
  lemma WhenLocksAreGranted(sys: map<string, Role>, init: State, sts: seq<Sys>, steps: seq<Step>, i: nat, t: nat,
        op: Op, q: Query)
    requires Run(sys, sts, steps) && Initial(init, sts[0]) && i < |sts| && t < |sts[i].pc|
    ensures var s := sts[i];
      && (s.pc[t].Writing() ==> NoneReads(s) && forall o :: 0 <= o < |s.pc| && o != t ==> !s.pc[o].Writing())
      && (s.pc[t].WantsWrite? ==> (Enabled(s, Lock(t)) <==> NoneWrites(s) && NoneReads(s)))
      && (s.pc[t].WantsRead? ==> (Enabled(s, RLock(t)) <==> NoneWrites(s)))
      && (s.pc[t].AtRest() ==> Enabled(s, CallWrite(t, op)) && Enabled(s, CallRead(t, q)))
  {
    RunsKeepInv(sys, init, sts, steps, i);
    LocksShowWhoWorks(sts[i]);
  }

  // Every sequence of requests is served

  /** A request by a thread, with the faults its operation meets. */
  datatype Request = Mutate(t: nat, op: Op, env: Env) | Ask(t: nat, q: Query)

  ghost predicate Quiet(s: Sys)
  {
    s.writer.None? && s.readers == {} && forall t :: 0 <= t < |s.pc| ==> s.pc[t].AtRest()
  }

  /** What a request does to memory and key. */
  ghost function Serve(sys: map<string, Role>, s: State, r: Request): State
  {
    if r.Mutate? then Apply(sys, r.op, s, r.env).0 else s
  }

  /** The state after the requests, one whole operation after the other. */
  ghost function Served(sys: map<string, Role>, init: State, requests: seq<Request>): State
  {
    if requests == [] then init
    else Serve(sys, Served(sys, init, requests[..|requests| - 1]), requests[|requests| - 1])
  }

  /** The entry is what the request gets in state s. */
  ghost predicate IsServedBy(sys: map<string, Role>, s: State, r: Request, e: Entry)
  {
    match r
    case Mutate(t, op, env) => e.WriteDone? && e.thread == t && e.op == op && e.resp == Apply(sys, op, s, env).1
    case Ask(t, q) => e == ReadDone(t, q, Answering(sys, s.mem, q))
  }

  lemma Extend(sys: map<string, Role>, sts: seq<Sys>, steps: seq<Step>, step: Step)
    returns (sts': seq<Sys>, steps': seq<Step>)
    requires Run(sys, sts, steps) && Enabled(sts[|steps|], step)
    ensures Run(sys, sts', steps') && sts <= sts' && steps <= steps' && |steps'| == |steps| + 1
    ensures sts'[|steps'|] == Perform(sys, sts[|steps|], step)
  {
    ExtendRun(sys, sts, steps, step);
    sts', steps' := sts + [Perform(sys, sts[|steps|], step)], steps + [step];
  }

  /** The steps of one operation that its plan lets pass, from its store on. */
  lemma RunStore(sys: map<string, Role>, sts: seq<Sys>, steps: seq<Step>, t: nat, env: Env)
    returns (sts': seq<Sys>, steps': seq<Step>)
    requires Run(sys, sts, steps)
    requires var s := sts[|steps|]; t < |s.pc| && s.pc[t].Mutated? && s.pc[t].now == env.now && s.pc[t].salt == env.salt
    ensures Run(sys, sts', steps') && sts <= sts' && steps <= steps'
    ensures var s, s' := sts[|steps|], sts'[|steps'|];
      var stored := AfterWrite(s.stored, env.write, s.mem);
      && s'.stored == stored && s'.mem == (if env.write.Written? then s.mem else Reload(stored, env.reread))
      && s'.writer == s.writer && s'.readers == s.readers && s'.log == s.log
      && |s'.pc| == |s.pc| && s'.pc[t].Settled? && s'.pc[t].op == s.pc[t].op
      && s'.pc[t].resp == (if env.write.Written? then None else Some(StoreFailed))
      && forall o :: 0 <= o < |s.pc| && o != t ==> s'.pc[o] == s.pc[o]
  {
    sts', steps' := Extend(sys, sts, steps, Store(t, env.write));
    if !env.write.Written? {
      sts', steps' := Extend(sys, sts', steps', Clear(t));
      sts', steps' := Extend(sys, sts', steps', Reread(t, env.reread));
    }
  }

  /** The call, the lock and the checks. */
  lemma RunChecks(sys: map<string, Role>, sts: seq<Sys>, steps: seq<Step>, t: nat, op: Op, env: Env)
    returns (sts': seq<Sys>, steps': seq<Step>)
    requires Run(sys, sts, steps) && Quiet(sts[|steps|]) && t < |sts[|steps|].pc|
    ensures Run(sys, sts', steps') && sts <= sts' && steps <= steps'
    ensures var s, s', plan := sts[|steps|], sts'[|steps'|], Plan(sys, op, sts[|steps|].mem, env.now, env.salt);
      && s'.stored == s.stored && s'.writer == Some(t) && s'.readers == {} && s'.log == s.log && |s'.pc| == |s.pc|
      && (forall o :: 0 <= o < |s.pc| && o != t ==> s'.pc[o] == s.pc[o])
      && (plan.Ok? ==>
        && s'.mem == plan.value && s'.pc[t].Mutated? && s'.pc[t].op == op
        && s'.pc[t].now == env.now && s'.pc[t].salt == env.salt)
      && (plan.Err? ==> s'.mem == s.mem && s'.pc[t].Settled? && s'.pc[t].op == op && s'.pc[t].resp == Some(plan.error))
  {
    sts', steps' := Extend(sys, sts, steps, CallWrite(t, op));
    sts', steps' := Extend(sys, sts', steps', Lock(t));
    sts', steps' := Extend(sys, sts', steps', Check(t, env.now, env.salt));
  }

  lemma RunMutate(sys: map<string, Role>, sts: seq<Sys>, steps: seq<Step>, t: nat, op: Op, env: Env)
    returns (sts': seq<Sys>, steps': seq<Step>)
    requires Run(sys, sts, steps) && Quiet(sts[|steps|]) && t < |sts[|steps|].pc|
    ensures Run(sys, sts', steps') && sts <= sts' && steps <= steps'
    ensures var s, s' := sts[|steps|], sts'[|steps'|];
      && Quiet(s') && |s'.pc| == |s.pc|
      && |s'.log| == |s.log| + 1 && s.log <= s'.log
      && State(s'.mem, s'.stored) == Apply(sys, op, State(s.mem, s.stored), env).0
      && IsServedBy(sys, State(s.mem, s.stored), Mutate(t, op, env), s'.log[|s.log|])
  {
    sts', steps' := RunChecks(sys, sts, steps, t, op, env);
    if sts'[|steps'|].pc[t].Mutated? { sts', steps' := RunStore(sys, sts', steps', t, env); }
    sts', steps' := Extend(sys, sts', steps', Unlock(t));
  }

  lemma RunAsk(sys: map<string, Role>, sts: seq<Sys>, steps: seq<Step>, t: nat, q: Query)
    returns (sts': seq<Sys>, steps': seq<Step>)
    requires Run(sys, sts, steps) && Quiet(sts[|steps|]) && t < |sts[|steps|].pc|
    ensures Run(sys, sts', steps') && sts <= sts' && steps <= steps'
    ensures var s, s' := sts[|steps|], sts'[|steps'|];
      && Quiet(s') && |s'.pc| == |s.pc| && s'.mem == s.mem && s'.stored == s.stored
      && |s'.log| == |s.log| + 1 && s.log <= s'.log
      && IsServedBy(sys, State(s.mem, s.stored), Ask(t, q), s'.log[|s.log|])
  {
    var s := sts[|steps|];
    sts', steps' := Extend(sys, sts, steps, CallRead(t, q));
    sts', steps' := Extend(sys, sts', steps', RLock(t));
    sts', steps' := Extend(sys, sts', steps', ReadUsers(t));
    sts', steps' := Extend(sys, sts', steps', ReadRoles(t));
    assert DB(s.mem.users, s.mem.roles) == s.mem;
    sts', steps' := Extend(sys, sts', steps', RUnlock(t));
    assert sts'[|steps'|].readers == {};
  }

  /** Whatever is asked for in whatever order, by any threads and with any faults, some run
      serves it: it logs exactly these requests in this order, each answered as it is when run
      alone after those before it, and ends quietly with memory and key as they leave them. */
  lemma {:induction false} EverySequenceIsServed(sys: map<string, Role>, init: State, threads: nat,
        requests: seq<Request>)
    returns (sts: seq<Sys>, steps: seq<Step>)
    requires forall r :: r in requests ==> r.t < threads
    ensures Run(sys, sts, steps) && Initial(init, sts[0]) && |sts[0].pc| == threads
    ensures var s := sts[|steps|];
      && Quiet(s) && |s.pc| == threads && |s.log| == |requests|
      && State(s.mem, s.stored) == Served(sys, init, requests)
      && forall n :: 0 <= n < |requests| ==>
        IsServedBy(sys, Served(sys, init, requests[..n]), requests[n], s.log[n])
  {
    if requests == [] {
      sts, steps := [Sys(init.mem, init.stored, None, {}, seq(threads, i => Idle), [])], [];
    } else {
      var front, r := requests[..|requests| - 1], requests[|requests| - 1];
      var sts0, steps0 := EverySequenceIsServed(sys, init, threads, front);
      match r {
        case Mutate(t, op, env) => sts, steps := RunMutate(sys, sts0, steps0, t, op, env);
        case Ask(t, q) => sts, steps := RunAsk(sys, sts0, steps0, t, q);
      }
      var log0, log := sts0[|steps0|].log, sts[|steps|].log;
      forall n | 0 <= n < |requests|
        ensures IsServedBy(sys, Served(sys, init, requests[..n]), requests[n], log[n])
      {
        if n < |front| { assert front[..n] == requests[..n] && log[n] == log0[n]; }
      }
    }
  }
}
