// Whole runs of mutators under arbitrary faults: what can be read off the history alone.
module AccessRuns {
  import opened Wrappers
  import opened AccessData
  import opened AccessOps
  import opened AccessInvariants

  datatype Call = Call(op: Op, env: Env)

  /** The state after a run of calls, in lock order. */
  ghost function Final(sys: map<string, Role>, s: State, calls: seq<Call>): State
  {
    if calls == [] then s
    else
      var last := calls[|calls| - 1];
      Apply(sys, last.op, Final(sys, s, calls[..|calls| - 1]), last.env).0
  }

  /** No call of the run had both its write and its re-read fail. */
  ghost predicate KeptMemory(sys: map<string, Role>, s: State, calls: seq<Call>)
  {
    calls == [] ||
    var last, front := calls[|calls| - 1], calls[..|calls| - 1];
    KeptMemory(sys, s, front) && !LostMemory(sys, last.op, Final(sys, s, front), last.env)
  }

  /** The state New leaves when it returns a service: memory read from the key. */
  function Started(stored: Option<DB>): State
  {
    State(Contents(stored), stored)
  }

  lemma {:induction false} RunsKeepSoundState(sys: map<string, Role>, s: State, calls: seq<Call>)
    requires SystemTable(sys) && SoundState(sys, s)
    ensures SoundState(sys, Final(sys, s, calls))
  {
    if calls != [] {
      var last, front := calls[|calls| - 1], calls[..|calls| - 1];
      RunsKeepSoundState(sys, s, front);
      ApplyKeepsSoundState(sys, last.op, Final(sys, s, front), last.env);
    }
  }

  lemma {:induction false} MemoryMirrorsTheKey(sys: map<string, Role>, s: State, calls: seq<Call>)
    requires s.mem == Contents(s.stored) && KeptMemory(sys, s, calls)
    ensures Final(sys, s, calls).mem == Contents(Final(sys, s, calls).stored)
  {
    if calls != [] { MemoryMirrorsTheKey(sys, s, calls[..|calls| - 1]); }
  }

  // A faulty run means what a fault-free run means

  /** The calls whose write took effect, each as if its write had simply succeeded. */
  ghost function Effective(sys: map<string, Role>, s: State, calls: seq<Call>): seq<Call>
  {
    if calls == [] then []
    else
      var last, front := calls[|calls| - 1], calls[..|calls| - 1];
      if TookEffect(sys, last.op, Final(sys, s, front), last.env)
      then Effective(sys, s, front) + [Call(last.op, last.env.(write := Written))]
      else Effective(sys, s, front)
  }

  /** Every call of the run reports success. */
  ghost predicate AllSucceed(sys: map<string, Role>, s: State, calls: seq<Call>)
  {
    calls == [] ||
    var last, front := calls[|calls| - 1], calls[..|calls| - 1];
    AllSucceed(sys, s, front) && Apply(sys, last.op, Final(sys, s, front), last.env).1.None?
  }

  /** With no failed re-read, a run with any write errors leaves memory and key as the run of
      its effective calls does, each of which succeeds: errors never half-apply an operation. */
  lemma {:induction false} FaultyRunIsAFaultFreeRun(sys: map<string, Role>, s: State, calls: seq<Call>)
    requires s.mem == Contents(s.stored) && KeptMemory(sys, s, calls)
    ensures AllSucceed(sys, s, Effective(sys, s, calls))
    ensures Final(sys, s, Effective(sys, s, calls)) == Final(sys, s, calls)
  {
    if calls != [] {
      var last, front := calls[|calls| - 1], calls[..|calls| - 1];
      FaultyRunIsAFaultFreeRun(sys, s, front);
      MemoryMirrorsTheKey(sys, s, front);
      MemoryMirrorsTheKey(sys, s, calls);
      var eff := Effective(sys, s, calls);
      if TookEffect(sys, last.op, Final(sys, s, front), last.env) {
        assert eff[..|eff| - 1] == Effective(sys, s, front);
      }
    }
  }

  /** With no failed re-read, a user that was there and is gone was deleted by a call that took effect. */
  lemma {:induction false} UsersVanishOnlyByDeletion(sys: map<string, Role>, s: State, calls: seq<Call>, u: string)
    returns (i: nat)
    requires s.mem == Contents(s.stored) && KeptMemory(sys, s, calls)
    requires u in s.mem.users && u !in Final(sys, s, calls).mem.users
    ensures i < |calls| && calls[i].op == DeleteUser(u)
    ensures TookEffect(sys, calls[i].op, Final(sys, s, calls[..i]), calls[i].env)
  {
    var last, front := calls[|calls| - 1], calls[..|calls| - 1];
    MemoryMirrorsTheKey(sys, s, front);
    if u in Final(sys, s, front).mem.users {
      WhenAUserVanishes(sys, last.op, Final(sys, s, front), last.env, u);
      i := |calls| - 1;
    } else {
      i := UsersVanishOnlyByDeletion(sys, s, front, u);
      assert front[..i] == calls[..i];
    }
  }

  /** After a failed re-read, one later successful write is enough to drop every user but its
      target from the key: the reason the previous results ask for kept memory. */
  lemma EmptiedMemoryDropsTheOthers(sys: map<string, Role>, s: State, failed: Call, next: Call)
    requires LostMemory(sys, failed.op, s, failed.env)
    requires TookEffect(sys, next.op, Final(sys, s, [failed]), next.env)
    ensures forall u :: u in Contents(Final(sys, s, [failed, next]).stored).users ==> TargetUser(next.op) == Some(u)
    ensures forall n :: n in Contents(Final(sys, s, [failed, next]).stored).roles ==> TargetRole(next.op) == Some(n)
  {
    assert [failed, next][..1] == [failed] && [failed][..0] == [];
    assert Final(sys, s, [failed]).mem == EMPTY;
    PlanTouchesOnlyItsTarget(sys, next.op, EMPTY, next.env.now, next.env.salt);
  }

  // Credentials from the history

  /** What an observer of the key sees of a call: the operation and whether its write took effect. */
  datatype Event = Event(op: Op, took: bool)

  ghost function History(sys: map<string, Role>, s: State, calls: seq<Call>): seq<Event>
  {
    if calls == [] then []
    else
      var last, front := calls[|calls| - 1], calls[..|calls| - 1];
      History(sys, s, front) + [Event(last.op, TookEffect(sys, last.op, Final(sys, s, front), last.env))]
  }

  /** The password an operation puts in the key for a user; an update with an empty one puts none. */
  function PutsPassword(op: Op, u: string): Option<Password>
  {
    match op
    case CreateUser(user) => if user.username == u then Some(user.password) else None
    case UpdateUser(user) => if user.username == u && user.password != Text("") then Some(user.password) else None
    case ChangePassword(username, _, newPass) => if username == u then Some(newPass) else None
    case _ => None
  }

  /** The last password put in the key for u: by the history, or else by the initial database. */
  function LastPassword(init: DB, h: seq<Event>, u: string): Option<Password>
  {
    if h == [] then
      if u in init.users && init.users[u].password.Digest? then Some(init.users[u].password.of) else None
    else
      var e := h[|h| - 1];
      if e.took && PutsPassword(e.op, u).Some? then PutsPassword(e.op, u)
      else LastPassword(init, h[..|h| - 1], u)
  }

  /** Every user held has a hash of the last password put for it. */
  ghost predicate PasswordsCurrent(init: DB, h: seq<Event>, db: DB)
  {
    forall u :: u in db.users ==>
      db.users[u].password.Digest? && LastPassword(init, h, u) == Some(db.users[u].password.of)
  }

  /** What GetUser finds. */
  function Lookup(db: DB, name: string): Option<User>
  {
    if name in db.users then Some(db.users[name]) else None
  }

  /** What the password check concludes from the user GetUser gave it. */
  predicate Accepts(user: Option<User>, secret: Password)
  {
    user.Some? && user.value.enabled && Verifies(user.value.password, secret)
  }

  /** The password check behind the resource owner password grant. */
  predicate Authenticates(db: DB, name: string, secret: Password)
  {
    Accepts(Lookup(db, name), secret)
  }

  lemma PlanPutsThePassword(sys: map<string, Role>, op: Op, db: DB, now: int, salt: Option<nat>, u: string)
    requires Catalogued(db) && Plan(sys, op, db, now, salt).Ok? && u in Plan(sys, op, db, now, salt).value.users
    ensures var pass := Plan(sys, op, db, now, salt).value.users[u].password;
      match PutsPassword(op, u)
      case Some(p) => pass.Digest? && pass.of == p
      case None => u in db.users && pass == db.users[u].password
  {
  }

  lemma PlanKeepsPasswordsCurrent(sys: map<string, Role>, op: Op, db: DB, now: int, salt: Option<nat>, init: DB,
        h: seq<Event>)
    requires Catalogued(db) && Plan(sys, op, db, now, salt).Ok? && PasswordsCurrent(init, h, db)
    ensures PasswordsCurrent(init, h + [Event(op, true)], Plan(sys, op, db, now, salt).value)
  {
    var h' := h + [Event(op, true)];
    assert h'[..|h'| - 1] == h;
    var d := Plan(sys, op, db, now, salt).value;
    forall u | u in d.users
      ensures d.users[u].password.Digest? && LastPassword(init, h', u) == Some(d.users[u].password.of)
    {
      PlanPutsThePassword(sys, op, db, now, salt, u);
    }
  }

  lemma ApplyKeepsPasswordsCurrent(sys: map<string, Role>, op: Op, s: State, env: Env, init: DB, h: seq<Event>)
    requires SystemTable(sys) && SoundState(sys, s)
    requires PasswordsCurrent(init, h, s.mem) && PasswordsCurrent(init, h, Contents(s.stored))
    ensures var h' := h + [Event(op, TookEffect(sys, op, s, env))];
      var t := Apply(sys, op, s, env).0;
      PasswordsCurrent(init, h', t.mem) && PasswordsCurrent(init, h', Contents(t.stored))
  {
    if TookEffect(sys, op, s, env) {
      PlanKeepsPasswordsCurrent(sys, op, s.mem, env.now, env.salt, init, h);
    } else {
      var h' := h + [Event(op, false)];
      assert h'[..|h'| - 1] == h;
      assert forall u :: LastPassword(init, h', u) == LastPassword(init, h, u);
    }
  }

  lemma {:induction false} RunsKeepPasswordsCurrent(sys: map<string, Role>, s: State, calls: seq<Call>)
    requires SystemTable(sys) && SoundState(sys, s) && s.mem == Contents(s.stored)
    ensures PasswordsCurrent(s.mem, History(sys, s, calls), Final(sys, s, calls).mem)
    ensures PasswordsCurrent(s.mem, History(sys, s, calls), Contents(Final(sys, s, calls).stored))
  {
    if calls != [] {
      var last, front := calls[|calls| - 1], calls[..|calls| - 1];
      RunsKeepPasswordsCurrent(sys, s, front);
      RunsKeepSoundState(sys, s, front);
      ApplyKeepsPasswordsCurrent(sys, last.op, Final(sys, s, front), last.env, s.mem, History(sys, s, front));
    }
  }

  /** Over every run, failed re-reads included: a user can log in with exactly the last
      password put in the key for it, if it is present and enabled. */
  lemma AuthenticationFollowsTheLastPassword(sys: map<string, Role>, s: State, calls: seq<Call>, u: string, p: Password)
    requires SystemTable(sys) && SoundState(sys, s) && s.mem == Contents(s.stored)
    ensures var mem := Final(sys, s, calls).mem;
      Authenticates(mem, u, p) <==>
        u in mem.users && mem.users[u].enabled && LastPassword(s.mem, History(sys, s, calls), u) == Some(p)
  {
    RunsKeepPasswordsCurrent(sys, s, calls);
  }

  /** An account as the history describes it. */
  datatype Account = Account(pass: Password, enabled: bool)

  /** What an event does to the accounts, if its write took effect. */
  function Post(l: map<string, Account>, e: Event): map<string, Account>
  {
    if !e.took then l
    else match e.op
      case CreateUser(user) => l[user.username := Account(user.password, user.enabled)]
      case UpdateUser(user) =>
        var kept := user.password == Text("") && user.username in l;
        l[user.username := Account(if kept then l[user.username].pass else user.password, user.enabled)]
      case DeleteUser(username) => l - {username}
      case ChangePassword(username, _, newPass) =>
        if username in l then l[username := l[username].(pass := newPass)] else l
      case _ => l
  }

  /** The accounts after a history, from effective events alone. */
  function Ledger(init: map<string, Account>, h: seq<Event>): map<string, Account>
  {
    if h == [] then init else Post(Ledger(init, h[..|h| - 1]), h[|h| - 1])
  }

  ghost function Accounts(db: DB): map<string, Account>
    requires Catalogued(db)
  {
    map u | u in db.users :: Account(db.users[u].password.of, db.users[u].enabled)
  }

  /** With no failed re-read the ledger knows every account, and so every login, exactly. */
  lemma {:induction false} LedgerIsExact(sys: map<string, Role>, s: State, calls: seq<Call>)
    requires SystemTable(sys) && SoundState(sys, s) && s.mem == Contents(s.stored) && KeptMemory(sys, s, calls)
    ensures Catalogued(Final(sys, s, calls).mem)
    ensures Accounts(Final(sys, s, calls).mem) == Ledger(Accounts(s.mem), History(sys, s, calls))
  {
    RunsKeepSoundState(sys, s, calls);
    if calls != [] {
      var last, front := calls[|calls| - 1], calls[..|calls| - 1];
      LedgerIsExact(sys, s, front);
      MemoryMirrorsTheKey(sys, s, front);
      var h := History(sys, s, calls);
      assert h[..|h| - 1] == History(sys, s, front);
      LedgerFollowsApply(sys, last.op, Final(sys, s, front), last.env);
    }
  }

  lemma AccountsAfterPut(db: DB, d: DB, u: string)
    requires Catalogued(db) && Catalogued(d) && u in d.users && d.users == db.users[u := d.users[u]]
    ensures Accounts(d) == Accounts(db)[u := Account(d.users[u].password.of, d.users[u].enabled)]
  {
  }

  lemma LedgerFollowsPlan(sys: map<string, Role>, op: Op, db: DB, now: int, salt: Option<nat>)
    requires Catalogued(db) && Plan(sys, op, db, now, salt).Ok?
    requires Catalogued(Plan(sys, op, db, now, salt).value)
    ensures Accounts(Plan(sys, op, db, now, salt).value) == Post(Accounts(db), Event(op, true))
  {
    var d := Plan(sys, op, db, now, salt).value;
    if op.CreateUser? || op.UpdateUser? || op.ChangePassword? {
      AccountsAfterPut(db, d, TargetUser(op).value);
    } else if op.DeleteUser? {
      assert d.users == db.users - {op.username};
    } else {
      assert d.users == db.users;
    }
  }

  lemma LedgerFollowsApply(sys: map<string, Role>, op: Op, s: State, env: Env)
    requires SystemTable(sys) && Catalogued(s.mem) && s.mem == Contents(s.stored) && !LostMemory(sys, op, s, env)
    ensures var t := Apply(sys, op, s, env).0;
      Catalogued(t.mem) && Accounts(t.mem) == Post(Accounts(s.mem), Event(op, TookEffect(sys, op, s, env)))
  {
    if Plan(sys, op, s.mem, env.now, env.salt).Ok? {
      PlanKeepsCatalogue(sys, op, s.mem, env.now, env.salt);
      LedgerFollowsPlan(sys, op, s.mem, env.now, env.salt);
    }
  }

  lemma LoginsFollowTheLedger(sys: map<string, Role>, s: State, calls: seq<Call>, u: string, p: Password)
    requires SystemTable(sys) && SoundState(sys, s) && s.mem == Contents(s.stored) && KeptMemory(sys, s, calls)
    ensures var l := Ledger(Accounts(s.mem), History(sys, s, calls));
      Authenticates(Final(sys, s, calls).mem, u, p) <==> u in l && l[u] == Account(p, true)
  {
    LedgerIsExact(sys, s, calls);
    RunsKeepSoundState(sys, s, calls);
    var l := Ledger(Accounts(s.mem), History(sys, s, calls));
    assert l == Accounts(Final(sys, s, calls).mem);
  }

  // What a success means to later callers

  /** What GetUser, GetRole and the password check say once op succeeded, db being the database
      it found and now the time. An update with an empty password keeps the expiration date
      along with the password; a password change keeps even the timestamp. */
  ghost predicate ReadBack(sys: map<string, Role>, op: Op, db: DB, now: int, mem: DB)
  {
    match op
    case CreateUser(user) =>
      && LoginsAre(mem, user.username, user.enabled, user.password)
      && SameProfile(mem.users[user.username], user)
      && mem.users[user.username].lastUpdate == now
      && mem.users[user.username].pwdExpirationDate == user.pwdExpirationDate
    case UpdateUser(user) =>
      var u := user.username;
      && u in db.users && u in mem.users && SameProfile(mem.users[u], user) && mem.users[u].lastUpdate == now
      && (user.password != Text("") ==>
        LoginsAre(mem, u, user.enabled, user.password) && mem.users[u].pwdExpirationDate == user.pwdExpirationDate)
      && (user.password == Text("") ==>
        && mem.users[u].password == db.users[u].password
        && mem.users[u].pwdExpirationDate == db.users[u].pwdExpirationDate)
    case DeleteUser(username) => username !in mem.users
    case ChangePassword(u, oldPass, newPass) =>
      && u in db.users && Verifies(db.users[u].password, oldPass)
      && LoginsAre(mem, u, db.users[u].enabled, newPass)
      && SameProfile(mem.users[u], db.users[u])
      && mem.users[u].lastUpdate == db.users[u].lastUpdate
      && mem.users[u].pwdExpirationDate == db.users[u].pwdExpirationDate
    case CreateRole(role) => SystemFirst(sys, mem, role.name) == Some(role)
    case UpdateRole(role) => SystemFirst(sys, mem, role.name) == Some(role)
    case DeleteRole(name) => SystemFirst(sys, mem, name) == None && !RoleInUse(mem, name)
    case CloneRole(src, dst) =>
      var source, copy := CustomFirst(sys, db, src), SystemFirst(sys, mem, dst);
      && source.Some? && copy.Some? && dst in mem.roles
      && (dst in sys ==> copy == Some(sys[dst]))
      && (dst !in sys ==>
        && copy.value.name == dst && !copy.value.isSystem
        && copy.value.permissions == source.value.permissions
        && copy.value.description == source.value.description)
  }

  /** The user is there, and exactly this password verifies, and logs it in if it is enabled. */
  ghost predicate LoginsAre(mem: DB, u: string, enabled: bool, pass: Password)
  {
    && u in mem.users
    && (forall p :: Verifies(mem.users[u].password, p) <==> p == pass)
    && (forall p :: Authenticates(mem, u, p) <==> enabled && p == pass)
  }

  /** No call of the run is about the user or role that op is about. */
  ghost predicate LeftAlone(op: Op, calls: seq<Call>)
  {
    forall i :: 0 <= i < |calls| ==>
      && (TargetUser(op).Some? ==> TargetUser(calls[i].op) != TargetUser(op))
      && (TargetRole(op).Some? ==> TargetRole(calls[i].op) != TargetRole(op))
  }

  lemma SuccessReadsBack(sys: map<string, Role>, op: Op, s: State, env: Env)
    requires SystemTable(sys) && Catalogued(s.mem)
    requires Apply(sys, op, s, env).1.None?
    ensures ReadBack(sys, op, s.mem, env.now, Apply(sys, op, s, env).0.mem)
  {
  }

  lemma ApplyLeavesTheOthers(sys: map<string, Role>, op: Op, s: State, env: Env)
    requires s.mem == Contents(s.stored) && !LostMemory(sys, op, s, env)
    ensures var mem := Apply(sys, op, s, env).0.mem;
      SameElsewhere(s.mem.users, mem.users, TargetUser(op)) && SameElsewhere(s.mem.roles, mem.roles, TargetRole(op))
  {
    if Plan(sys, op, s.mem, env.now, env.salt).Ok? {
      PlanTouchesOnlyItsTarget(sys, op, s.mem, env.now, env.salt);
    }
  }

  lemma {:induction false} UntargetedEntriesStay(sys: map<string, Role>, s: State, op: Op, calls: seq<Call>)
    requires s.mem == Contents(s.stored) && KeptMemory(sys, s, calls) && LeftAlone(op, calls)
    ensures var mem := Final(sys, s, calls).mem;
      && (TargetUser(op).Some? ==> SameAt(s.mem.users, mem.users, TargetUser(op).value))
      && (TargetRole(op).Some? ==> SameAt(s.mem.roles, mem.roles, TargetRole(op).value))
  {
    if calls != [] {
      var last, front := calls[|calls| - 1], calls[..|calls| - 1];
      UntargetedEntriesStay(sys, s, op, front);
      MemoryMirrorsTheKey(sys, s, front);
      ApplyLeavesTheOthers(sys, last.op, Final(sys, s, front), last.env);
    }
  }

  /** a and b agree on one key. */
  ghost predicate SameAt<V>(a: map<string, V>, b: map<string, V>, key: string)
  {
    (key in a <==> key in b) && (key in a ==> a[key] == b[key])
  }

  lemma ReadBackCarriesOver(sys: map<string, Role>, op: Op, db: DB, now: int, a: DB, b: DB)
    requires ReadBack(sys, op, db, now, a) && (op.DeleteRole? ==> RolesResolve(sys, b))
    requires TargetUser(op).Some? ==> SameAt(a.users, b.users, TargetUser(op).value)
    requires TargetRole(op).Some? ==> SameAt(a.roles, b.roles, TargetRole(op).value)
    ensures ReadBack(sys, op, db, now, b)
  {
    if TargetUser(op).Some? {
      forall p ensures Authenticates(a, TargetUser(op).value, p) <==> Authenticates(b, TargetUser(op).value, p) {}
    }
  }

  /** Whatever is called after a success, under any faults that keep memory, as long as it is
      not about the same user or role: the readers keep answering as ReadBack says. */
  lemma SuccessPersists(sys: map<string, Role>, op: Op, s: State, env: Env, later: seq<Call>)
    requires SystemTable(sys) && SoundState(sys, s) && s.mem == Contents(s.stored)
    requires Apply(sys, op, s, env).1.None?
    requires LeftAlone(op, later) && KeptMemory(sys, Apply(sys, op, s, env).0, later)
    ensures ReadBack(sys, op, s.mem, env.now, Final(sys, Apply(sys, op, s, env).0, later).mem)
  {
    var t := Apply(sys, op, s, env).0;
    SuccessReadsBack(sys, op, s, env);
    ApplyKeepsSoundState(sys, op, s, env);
    UntargetedEntriesStay(sys, t, op, later);
    RunsKeepSoundState(sys, t, later);
    ReadBackCarriesOver(sys, op, s.mem, env.now, t.mem, Final(sys, t, later).mem);
  }
}
