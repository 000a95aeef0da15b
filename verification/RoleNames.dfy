// The names stored roles may get: over whole runs, exactly which calls make a stored role share
// a built-in name or carry the empty one, and what the readers then still agree on.
module RoleNames {
  import opened Wrappers
  import opened AccessData
  import opened AccessOps
  import opened AccessInvariants
  import opened AccessRuns
  import opened SystemRoles
  import opened AccessService
  import opened AccessProtocol

  // One caller after the other

  /** The call's write took effect and cloned a role onto one of the names. */
  ghost predicate ClonesOnto(sys: map<string, Role>, s: State, call: Call, names: set<string>)
  {
    TookEffect(sys, call.op, s, call.env) && call.op.CloneRole? && call.op.dst in names
  }

  lemma WhenCallsAvoid(sys: map<string, Role>, s: State, call: Call, names: set<string>)
    requires names <= sys.Keys + {""} && StateAvoids(s, names)
    ensures StateAvoids(Apply(sys, call.op, s, call.env).0, names) <==> !ClonesOnto(sys, s, call, names)
  {
    if Plan(sys, call.op, s.mem, call.env.now, call.env.salt).Ok? {
      WhenPlansAvoid(sys, call.op, s.mem, call.env.now, call.env.salt, names);
    }
  }

  /** The state when i calls of the run are done. */
  ghost function At(sys: map<string, Role>, s: State, calls: seq<Call>, i: nat): State
    requires i <= |calls|
  {
    Final(sys, s, calls[..i])
  }

  lemma OneMoreCall(sys: map<string, Role>, s: State, calls: seq<Call>, i: nat)
    requires i < |calls|
    ensures At(sys, s, calls, i + 1) == Apply(sys, calls[i].op, At(sys, s, calls, i), calls[i].env).0
  {
    assert calls[..i + 1][..i] == calls[..i];
  }

  /** No call of the run clones onto one of the names. */
  ghost predicate NeverClonesOnto(sys: map<string, Role>, s: State, calls: seq<Call>, names: set<string>)
  {
    forall i :: 0 <= i < |calls| ==> !ClonesOnto(sys, At(sys, s, calls, i), calls[i], names)
  }

  lemma {:induction false} RunsAvoid(sys: map<string, Role>, s: State, calls: seq<Call>, names: set<string>, i: nat)
    requires names <= sys.Keys + {""} && StateAvoids(s, names) && i <= |calls|
    requires NeverClonesOnto(sys, s, calls, names)
    ensures StateAvoids(At(sys, s, calls, i), names)
  {
    if i > 0 {
      RunsAvoid(sys, s, calls, names, i - 1);
      OneMoreCall(sys, s, calls, i - 1);
      WhenCallsAvoid(sys, At(sys, s, calls, i - 1), calls[i - 1], names);
    }
  }

  /** Under every fault: the names stay unused in memory and key, after every call of the run,
      exactly when no clone onto one of them took effect. */
  lemma WhenRunsAvoid(sys: map<string, Role>, s: State, calls: seq<Call>, names: set<string>)
    requires names <= sys.Keys + {""} && StateAvoids(s, names)
    ensures (forall i :: 0 <= i <= |calls| ==> StateAvoids(At(sys, s, calls, i), names)) <==>
            NeverClonesOnto(sys, s, calls, names)
  {
    if NeverClonesOnto(sys, s, calls, names) {
      forall i | 0 <= i <= |calls| ensures StateAvoids(At(sys, s, calls, i), names) {
        RunsAvoid(sys, s, calls, names, i);
      }
    }
    if forall i :: 0 <= i <= |calls| ==> StateAvoids(At(sys, s, calls, i), names) {
      forall i | 0 <= i < |calls| ensures !ClonesOnto(sys, At(sys, s, calls, i), calls[i], names) {
        OneMoreCall(sys, s, calls, i);
        assert StateAvoids(At(sys, s, calls, i), names) && StateAvoids(At(sys, s, calls, i + 1), names);
        WhenCallsAvoid(sys, At(sys, s, calls, i), calls[i], names);
      }
    }
  }

  /** The readers of a database agree about names: GetRole and CloneRole find the same role under
      every name, and no ListRoles, in whatever map order, repeats one. */
  ghost predicate ReadersAgree(table: seq<Role>, sys: map<string, Role>, db: DB)
  {
    && (forall n :: SystemFirst(sys, db, n) == CustomFirst(sys, db, n))
    && (forall vals :: IsListing(db.roles, vals) ==> DistinctNames(table + vals))
  }

  ghost predicate ReadersAgreeIn(table: seq<Role>, sys: map<string, Role>, s: State)
  {
    ReadersAgree(table, sys, s.mem) && ReadersAgree(table, sys, Contents(s.stored))
  }

  lemma WhenReadersAgree(table: seq<Role>, sys: map<string, Role>, db: DB)
    requires DistinctNames(table) && Indexes(table, sys) && SystemTable(sys) && Catalogued(db)
    ensures ReadersAgree(table, sys, db) <==> NamesDisjoint(sys, db)
  {
    WhenLookupsAgree(sys, db);
    forall vals | IsListing(db.roles, vals) ensures DistinctNames(table + vals) <==> NamesDisjoint(sys, db) {
      WhenListRolesRepeatsAName(table, sys, db, vals);
    }
  }

  /** If they agree to begin with, the readers of memory and key agree after every call of the
      run exactly when no call whose write took effect cloned onto a built-in name. */
  lemma WhenNamesStayDisjoint(table: seq<Role>, sys: map<string, Role>, s: State, calls: seq<Call>)
    requires DistinctNames(table) && Indexes(table, sys) && SystemTable(sys)
    requires SoundState(sys, s) && StateAvoids(s, sys.Keys)
    ensures (forall i :: 0 <= i <= |calls| ==> ReadersAgreeIn(table, sys, At(sys, s, calls, i))) <==>
            NeverClonesOnto(sys, s, calls, sys.Keys)
  {
    forall i | 0 <= i <= |calls|
      ensures ReadersAgreeIn(table, sys, At(sys, s, calls, i)) <==> StateAvoids(At(sys, s, calls, i), sys.Keys)
    {
      RunsKeepSoundState(sys, s, calls[..i]);
      WhenReadersAgree(table, sys, At(sys, s, calls, i).mem);
      WhenReadersAgree(table, sys, Contents(At(sys, s, calls, i).stored));
    }
    WhenRunsAvoid(sys, s, calls, sys.Keys);
  }

  ghost predicate RolesValidateIn(s: State)
  {
    RolesValidate(s.mem) && RolesValidate(Contents(s.stored))
  }

  /** If they do to begin with, all stored roles pass Role.Validate after every call of the run
      exactly when no call whose write took effect cloned onto the empty name. */
  lemma WhenRolesKeepValidating(sys: map<string, Role>, s: State, calls: seq<Call>)
    requires SystemTable(sys) && SoundState(sys, s) && RolesValidateIn(s)
    ensures (forall i :: 0 <= i <= |calls| ==> RolesValidateIn(At(sys, s, calls, i))) <==>
            NeverClonesOnto(sys, s, calls, {""})
  {
    forall i | 0 <= i <= |calls|
      ensures RolesValidateIn(At(sys, s, calls, i)) <==> StateAvoids(At(sys, s, calls, i), {""})
    {
      RunsKeepSoundState(sys, s, calls[..i]);
      WhenRolesValidate(At(sys, s, calls, i).mem);
      WhenRolesValidate(Contents(At(sys, s, calls, i).stored));
    }
    assert At(sys, s, calls, 0) == s;
    WhenRunsAvoid(sys, s, calls, {""});
  }

  // A shared name

  /** As long as no re-read fails, a built-in name that a stored role has stays taken. */
  lemma {:induction false} SharedNamesStay(sys: map<string, Role>, s: State, calls: seq<Call>, n: string)
    requires s.mem == Contents(s.stored) && KeptMemory(sys, s, calls) && n in sys && n in s.mem.roles
    ensures n in Final(sys, s, calls).mem.roles && n in Contents(Final(sys, s, calls).stored).roles
  {
    MemoryMirrorsTheKey(sys, s, calls);
    if calls != [] {
      var last, front := calls[|calls| - 1], calls[..|calls| - 1];
      SharedNamesStay(sys, s, front, n);
      MemoryMirrorsTheKey(sys, s, front);
      WhenASharedNameIsFreed(sys, last.op, Final(sys, s, front), last.env, n);
    }
  }

  /** A failed write and re-read, and any deletion after it, free every name: of whatever state,
      these two calls leave no role in memory or key. */
  lemma LosingMemoryFreesNames(sys: map<string, Role>, s: State, u: string)
    ensures var deletion := DeleteUser(u);
      var failing, working := Env(0, None, NotWritten, ReadFailed), Env(0, None, Written, Replied);
      Final(sys, s, [Call(deletion, failing), Call(deletion, working)]) == State(EMPTY, Some(EMPTY))
  {
    var failing, working := Env(0, None, NotWritten, ReadFailed), Env(0, None, Written, Replied);
    var calls := [Call(DeleteUser(u), failing), Call(DeleteUser(u), working)];
    assert calls[..1] == [calls[0]] && calls[..1][..0] == [];
    assert EMPTY.users - {u} == EMPTY.users;
  }

  // Any number of threads

  ghost function StateOf(s: Sys): State
  {
    State(s.mem, s.stored)
  }

  /** The step checks a clone onto one of the names and lets it pass. */
  ghost predicate LetsPass(sys: map<string, Role>, s: Sys, step: Step, names: set<string>)
    requires Enabled(s, step)
  {
    var pc := s.pc[step.t];
    step.Check? && pc.op.CloneRole? && pc.op.dst in names && Plan(sys, pc.op, s.mem, step.now, step.salt).Ok?
  }

  lemma WhenStepsAvoid(sys: map<string, Role>, s: Sys, step: Step, names: set<string>)
    requires names <= sys.Keys + {""} && StateAvoids(StateOf(s), names) && Enabled(s, step)
    ensures StateAvoids(StateOf(Perform(sys, s, step)), names) <==> !LetsPass(sys, s, step, names)
  {
    if step.Check? {
      var op := s.pc[step.t].op;
      if Plan(sys, op, s.mem, step.now, step.salt).Ok? {
        WhenPlansAvoid(sys, op, s.mem, step.now, step.salt, names);
      }
    }
  }

  /** No step of the run lets a clone onto one of the names pass. */
  ghost predicate NeverLetsPass(sys: map<string, Role>, sts: seq<Sys>, steps: seq<Step>, names: set<string>)
    requires Run(sys, sts, steps)
  {
    forall i :: 0 <= i < |steps| ==> !LetsPass(sys, sts[i], steps[i], names)
  }

  lemma {:induction false} MomentsAvoid(sys: map<string, Role>, sts: seq<Sys>, steps: seq<Step>, names: set<string>,
        i: nat)
    requires names <= sys.Keys + {""} && Run(sys, sts, steps) && StateAvoids(StateOf(sts[0]), names) && i < |sts|
    requires NeverLetsPass(sys, sts, steps, names)
    ensures StateAvoids(StateOf(sts[i]), names)
  {
    if i > 0 {
      MomentsAvoid(sys, sts, steps, names, i - 1);
      WhenStepsAvoid(sys, sts[i - 1], steps[i - 1], names);
    }
  }

  /** With any number of threads, the names stay unused at every moment, in the middle of
      operations too, exactly when no clone onto one of them ever passes its checks. */
  lemma WhenMomentsAvoid(sys: map<string, Role>, sts: seq<Sys>, steps: seq<Step>, names: set<string>)
    requires names <= sys.Keys + {""} && Run(sys, sts, steps) && StateAvoids(StateOf(sts[0]), names)
    ensures (forall i :: 0 <= i < |sts| ==> StateAvoids(StateOf(sts[i]), names)) <==>
            NeverLetsPass(sys, sts, steps, names)
  {
    if NeverLetsPass(sys, sts, steps, names) {
      forall i | 0 <= i < |sts| ensures StateAvoids(StateOf(sts[i]), names) { MomentsAvoid(sys, sts, steps, names, i); }
    }
    if forall i :: 0 <= i < |sts| ==> StateAvoids(StateOf(sts[i]), names) {
      forall i | 0 <= i < |steps| ensures !LetsPass(sys, sts[i], steps[i], names) {
        assert StateAvoids(StateOf(sts[i]), names) && StateAvoids(StateOf(sts[i + 1]), names);
        WhenStepsAvoid(sys, sts[i], steps[i], names);
      }
    }
  }

  lemma MomentsAreCatalogued(sys: map<string, Role>, init: State, sts: seq<Sys>, steps: seq<Step>, i: nat)
    requires SystemTable(sys) && SoundState(sys, init)
    requires Run(sys, sts, steps) && Initial(init, sts[0]) && i < |sts|
    ensures Catalogued(sts[i].mem) && Catalogued(Contents(sts[i].stored))
  {
    EveryReachableStateIsSound(sys, init, sts, steps, i);
  }

  /** The readers agree at every moment exactly when no clone onto a built-in name passes. */
  lemma WhenNamesStayDisjointUnderConcurrency(table: seq<Role>, sys: map<string, Role>, init: State, sts: seq<Sys>,
        steps: seq<Step>)
    requires DistinctNames(table) && Indexes(table, sys) && SystemTable(sys)
    requires SoundState(sys, init) && StateAvoids(init, sys.Keys) && Run(sys, sts, steps) && Initial(init, sts[0])
    ensures (forall i :: 0 <= i < |sts| ==> ReadersAgreeIn(table, sys, StateOf(sts[i]))) <==>
            NeverLetsPass(sys, sts, steps, sys.Keys)
  {
    forall i | 0 <= i < |sts|
      ensures ReadersAgreeIn(table, sys, StateOf(sts[i])) <==> StateAvoids(StateOf(sts[i]), sys.Keys)
    {
      MomentsAreCatalogued(sys, init, sts, steps, i);
      WhenReadersAgree(table, sys, sts[i].mem);
      WhenReadersAgree(table, sys, Contents(sts[i].stored));
    }
    WhenMomentsAvoid(sys, sts, steps, sys.Keys);
  }

  /** All stored roles pass Role.Validate at every moment exactly when no clone onto the empty
      name passes. */
  lemma WhenRolesKeepValidatingUnderConcurrency(sys: map<string, Role>, init: State, sts: seq<Sys>, steps: seq<Step>)
    requires SystemTable(sys) && SoundState(sys, init) && RolesValidateIn(init)
    requires Run(sys, sts, steps) && Initial(init, sts[0])
    ensures (forall i :: 0 <= i < |sts| ==> RolesValidateIn(StateOf(sts[i]))) <==>
            NeverLetsPass(sys, sts, steps, {""})
  {
    forall i | 0 <= i < |sts|
      ensures RolesValidateIn(StateOf(sts[i])) <==> StateAvoids(StateOf(sts[i]), {""})
    {
      MomentsAreCatalogued(sys, init, sts, steps, i);
      WhenRolesValidate(sts[i].mem);
      WhenRolesValidate(Contents(sts[i].stored));
    }
    assert StateOf(sts[0]) == init;
    WhenMomentsAvoid(sys, sts, steps, {""});
  }

  /** What callers have to refrain from: if nobody asks for a clone onto one of the names, none
      passes, since threads check only what was called. */
  lemma AskingForNoneIsEnough(sys: map<string, Role>, init: State, sts: seq<Sys>, steps: seq<Step>, names: set<string>)
    requires Run(sys, sts, steps) && Initial(init, sts[0])
    requires forall k :: 0 <= k < |steps| && steps[k].CallWrite? && steps[k].op.CloneRole? ==> steps[k].op.dst !in names
    ensures NeverLetsPass(sys, sts, steps, names)
  {
    forall i | 0 <= i < |steps| ensures !LetsPass(sys, sts[i], steps[i], names) {
      RunsMatchCalls(sys, init, sts, steps, i);
      assert ThreadMatches(steps, i, sts[i], steps[i].t);
    }
  }
}
