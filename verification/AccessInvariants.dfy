// What every mutator keeps, under every pattern of failed writes and re-reads.
module AccessInvariants {
  import opened Wrappers
  import opened AccessData
  import opened AccessOps

  /** Roles and users are keyed by their own names; roles use only known scopes and
      permissions; every password held is a hash. */
  ghost predicate Catalogued(db: DB)
  {
    && (forall n :: n in db.roles ==>
      db.roles[n].name == n && !db.roles[n].isSystem && KnownPermissions(db.roles[n].permissions))
    && (forall u :: u in db.users ==> db.users[u].username == u && u != "" && db.users[u].password.Digest?)
  }

  /** Every role named by a user is a built-in or a stored one. */
  ghost predicate RolesResolve(sys: map<string, Role>, db: DB)
  {
    forall u :: u in db.users ==> KnownRoles(sys, db, db.users[u].roles)
  }

  ghost predicate Sound(sys: map<string, Role>, db: DB)
  {
    Catalogued(db) && RolesResolve(sys, db)
  }

  /** Memory mirrors the key, or was emptied by a failed re-read. */
  ghost predicate Agrees(s: State)
  {
    s.mem == Contents(s.stored) || s.mem == EMPTY
  }

  ghost predicate SoundState(sys: map<string, Role>, s: State)
  {
    Sound(sys, s.mem) && Sound(sys, Contents(s.stored)) && Agrees(s)
  }

  function TargetUser(op: Op): Option<string>
  {
    match op
    case CreateUser(user) => Some(user.username)
    case UpdateUser(user) => Some(user.username)
    case DeleteUser(username) => Some(username)
    case ChangePassword(username, _, _) => Some(username)
    case _ => None
  }

  function TargetRole(op: Op): Option<string>
  {
    match op
    case CreateRole(role) => Some(role.name)
    case UpdateRole(role) => Some(role.name)
    case DeleteRole(name) => Some(name)
    case CloneRole(_, dst) => Some(dst)
    case _ => None
  }

  lemma RolePlansKeepCatalogue(sys: map<string, Role>, op: Op, db: DB, now: int, salt: Option<nat>)
    requires SystemTable(sys) && Catalogued(db)
    requires TargetRole(op).Some? && Plan(sys, op, db, now, salt).Ok?
    ensures Catalogued(Plan(sys, op, db, now, salt).value)
  {
  }

  lemma UserPlansKeepCatalogue(sys: map<string, Role>, op: Op, db: DB, now: int, salt: Option<nat>)
    requires Catalogued(db)
    requires TargetRole(op).None? && Plan(sys, op, db, now, salt).Ok?
    ensures Catalogued(Plan(sys, op, db, now, salt).value)
  {
  }

  lemma PlanKeepsCatalogue(sys: map<string, Role>, op: Op, db: DB, now: int, salt: Option<nat>)
    requires SystemTable(sys) && Catalogued(db)
    requires Plan(sys, op, db, now, salt).Ok?
    ensures Catalogued(Plan(sys, op, db, now, salt).value)
  {
    if TargetRole(op).Some? {
      RolePlansKeepCatalogue(sys, op, db, now, salt);
    } else {
      UserPlansKeepCatalogue(sys, op, db, now, salt);
    }
  }

  lemma PlanKeepsRolesResolving(sys: map<string, Role>, op: Op, db: DB, now: int, salt: Option<nat>)
    requires Catalogued(db) && RolesResolve(sys, db)
    requires Plan(sys, op, db, now, salt).Ok?
    ensures RolesResolve(sys, Plan(sys, op, db, now, salt).value)
  {
    var d := Plan(sys, op, db, now, salt).value;
    forall u | u in d.users ensures KnownRoles(sys, d, d.users[u].roles) {
      if u in db.users { assert KnownRoles(sys, db, db.users[u].roles); }
    }
  }

  /** What an operation intends to store is sound, whatever roles exist and whoever uses them. */
  lemma PlanKeepsSound(sys: map<string, Role>, op: Op, db: DB, now: int, salt: Option<nat>)
    requires SystemTable(sys) && Sound(sys, db)
    requires Plan(sys, op, db, now, salt).Ok?
    ensures Sound(sys, Plan(sys, op, db, now, salt).value)
  {
    PlanKeepsCatalogue(sys, op, db, now, salt);
    PlanKeepsRolesResolving(sys, op, db, now, salt);
  }

  lemma StoringKeepsSoundState(sys: map<string, Role>, s: State, d: DB, env: Env)
    requires SoundState(sys, s) && Sound(sys, d)
    ensures var stored := AfterWrite(s.stored, env.write, d);
      SoundState(sys, State(if env.write.Written? then d else Reload(stored, env.reread), stored))
  {
  }

  /** One mutator under any faults keeps memory and key sound and in agreement. */
  lemma ApplyKeepsSoundState(sys: map<string, Role>, op: Op, s: State, env: Env)
    requires SystemTable(sys) && SoundState(sys, s)
    ensures SoundState(sys, Apply(sys, op, s, env).0)
  {
    if Plan(sys, op, s.mem, env.now, env.salt).Ok? {
      PlanKeepsSound(sys, op, s.mem, env.now, env.salt);
      StoringKeepsSoundState(sys, s, Plan(sys, op, s.mem, env.now, env.salt).value, env);
    }
  }

  // All or nothing

  /** a and b hold the same entries everywhere but at one key. */
  ghost predicate SameElsewhere<V>(a: map<string, V>, b: map<string, V>, key: Option<string>)
  {
    forall k :: key != Some(k) ==> (k in a <==> k in b) && (k in a ==> a[k] == b[k])
  }

  /** A mutator that reports an error left the key as it was or holding exactly what it
      intended, and memory as it was, equal to the key, or empty; one that reports success
      changed its target entry and nothing else, in memory and in the key alike. */
  lemma ApplyIsAllOrNothing(sys: map<string, Role>, op: Op, s: State, env: Env)
    requires Agrees(s)
    ensures var (t, r) := Apply(sys, op, s, env);
      var plan := Plan(sys, op, s.mem, env.now, env.salt);
      && (r.Some? ==> t.stored == s.stored || (plan.Ok? && t.stored == Some(plan.value)))
      && (r.Some? ==> t.mem == s.mem || t.mem == Contents(t.stored) || t.mem == EMPTY)
      && (r.None? ==> t.stored == Some(t.mem))
      && (r.None? ==> SameElsewhere(s.mem.users, t.mem.users, TargetUser(op)))
      && (r.None? ==> SameElsewhere(s.mem.roles, t.mem.roles, TargetRole(op)))
  {
  }

  lemma PlanTouchesOnlyItsTarget(sys: map<string, Role>, op: Op, db: DB, now: int, salt: Option<nat>)
    requires Plan(sys, op, db, now, salt).Ok?
    ensures SameElsewhere(db.users, Plan(sys, op, db, now, salt).value.users, TargetUser(op))
    ensures SameElsewhere(db.roles, Plan(sys, op, db, now, salt).value.roles, TargetRole(op))
  {
  }

  lemma PlanDropsOnlyDeletedUsers(sys: map<string, Role>, op: Op, db: DB, now: int, salt: Option<nat>, u: string)
    requires Plan(sys, op, db, now, salt).Ok? && u in db.users
    ensures u in Plan(sys, op, db, now, salt).value.users <==> op != DeleteUser(u)
  {
  }

  /** A user disappears from memory exactly when a deletion of that user took effect, or
      when a write and the re-read after it both failed. */
  lemma WhenAUserVanishes(sys: map<string, Role>, op: Op, s: State, env: Env, u: string)
    requires Agrees(s) && u in s.mem.users
    ensures u !in Apply(sys, op, s, env).0.mem.users <==>
            (op == DeleteUser(u) && TookEffect(sys, op, s, env)) || LostMemory(sys, op, s, env)
  {
    if Plan(sys, op, s.mem, env.now, env.salt).Ok? {
      PlanDropsOnlyDeletedUsers(sys, op, s.mem, env.now, env.salt, u);
    }
  }

  /** A stored user disappears from the key exactly when a write took effect that deleted it,
      or that was made from memory emptied earlier and does not itself create it. */
  lemma WhenAStoredUserVanishes(sys: map<string, Role>, op: Op, s: State, env: Env, u: string)
    requires Agrees(s) && u in Contents(s.stored).users
    ensures u !in Contents(Apply(sys, op, s, env).0.stored).users <==>
            && TookEffect(sys, op, s, env)
            && (op == DeleteUser(u) || (u !in s.mem.users && !(op.CreateUser? && op.user.username == u)))
  {
  }

  /** Two users that differ in password, timestamp and expiration date at most. */
  ghost predicate SameProfile(a: User, b: User)
  {
    && a.username == b.username && a.roles == b.roles && a.name == b.name && a.email == b.email
    && a.enabled == b.enabled && a.pwdUpdateRequired == b.pwdUpdateRequired
  }

  /** A role just created can always be deleted again: nobody could hold it yet. */
  lemma FreshRolesAreUnused(sys: map<string, Role>, role: Role, db: DB, now: int, salt: Option<nat>)
    requires RolesResolve(sys, db) && Plan(sys, CreateRole(role), db, now, salt).Ok?
    ensures !RoleInUse(Plan(sys, CreateRole(role), db, now, salt).value, role.name)
  {
  }

  /** The deletion of what a creation creates. */
  function Undoing(create: Op): Op
    requires create.CreateUser? || create.CreateRole?
  {
    if create.CreateUser? then DeleteUser(create.user.username) else DeleteRole(create.role.name)
  }

  /** Deleting what was just created is never refused: it succeeds when its write does, and its
      write, reported or not, puts back the database from before the creation. */
  lemma DeletionUndoesCreation(sys: map<string, Role>, create: Op, s: State, env: Env, env': Env)
    requires Catalogued(s.mem) && RolesResolve(sys, s.mem)
    requires create.CreateUser? || create.CreateRole?
    requires Apply(sys, create, s, env).1.None?
    ensures var (t, r) := Apply(sys, Undoing(create), Apply(sys, create, s, env).0, env');
      && (r.None? <==> env'.write.Written?)
      && (r.None? ==> t.mem == s.mem)
      && (!env'.write.NotWritten? ==> t.stored == Some(s.mem))
  {
    var d := Apply(sys, create, s, env).0.mem;
    if create.CreateRole? {
      FreshRolesAreUnused(sys, create.role, s.mem, env.now, env.salt);
      assert d.roles - {create.role.name} == s.mem.roles;
    } else {
      assert d.users - {create.user.username} == s.mem.users;
    }
    assert Plan(sys, Undoing(create), d, env'.now, env'.salt) == Ok(s.mem);
  }

  // Role names

  /** No stored role has one of the given names. */
  ghost predicate Avoids(db: DB, names: set<string>)
  {
    forall n :: n in db.roles ==> n !in names
  }

  ghost predicate NamesDisjoint(sys: map<string, Role>, db: DB)
  {
    Avoids(db, sys.Keys)
  }

  ghost predicate StateAvoids(s: State, names: set<string>)
  {
    Avoids(s.mem, names) && Avoids(Contents(s.stored), names)
  }

  /** Creating and updating refuse built-in names and the empty one; cloning refuses no name,
      and so is the one way to a stored role that has one. */
  lemma WhenPlansAvoid(sys: map<string, Role>, op: Op, db: DB, now: int, salt: Option<nat>, names: set<string>)
    requires names <= sys.Keys + {""} && Avoids(db, names) && Plan(sys, op, db, now, salt).Ok?
    ensures Avoids(Plan(sys, op, db, now, salt).value, names) <==> !(op.CloneRole? && op.dst in names)
  {
    var d := Plan(sys, op, db, now, salt).value;
    if op.CloneRole? { assert op.dst in d.roles; }
  }

  /** No operation drops a built-in name some stored role in memory has. */
  lemma PlansKeepSharedNames(sys: map<string, Role>, op: Op, db: DB, now: int, salt: Option<nat>, n: string)
    requires n in sys && n in db.roles && Plan(sys, op, db, now, salt).Ok?
    ensures n in Plan(sys, op, db, now, salt).value.roles
  {
  }

  /** A stored role with a built-in name leaves memory exactly when a write and the re-read
      after it both failed, and leaves the key exactly when a write took effect that was made
      from memory without it and does not itself clone onto the name. */
  lemma WhenASharedNameIsFreed(sys: map<string, Role>, op: Op, s: State, env: Env, n: string)
    requires Agrees(s) && n in sys
    ensures var t := Apply(sys, op, s, env).0;
      && (n in s.mem.roles ==> (n !in t.mem.roles <==> LostMemory(sys, op, s, env)))
      && (n in Contents(s.stored).roles ==>
        (n !in Contents(t.stored).roles <==>
          TookEffect(sys, op, s, env) && n !in s.mem.roles && !(op.CloneRole? && op.dst == n)))
  {
    if n in s.mem.roles && Plan(sys, op, s.mem, env.now, env.salt).Ok? {
      PlansKeepSharedNames(sys, op, s.mem, env.now, env.salt, n);
    }
  }

  /** GetRole and CloneRole resolve every name alike exactly when no name is shared. */
  lemma WhenLookupsAgree(sys: map<string, Role>, db: DB)
    requires SystemTable(sys) && Catalogued(db)
    ensures (forall n :: SystemFirst(sys, db, n) == CustomFirst(sys, db, n)) <==> NamesDisjoint(sys, db)
  {
    if n :| n in db.roles && n in sys {
      assert sys[n].isSystem && !db.roles[n].isSystem;
      assert SystemFirst(sys, db, n) != CustomFirst(sys, db, n);
    }
  }

  /** Every stored role would pass Role.Validate. */
  ghost predicate RolesValidate(db: DB)
  {
    forall n :: n in db.roles ==> ValidRole(db.roles[n])
  }

  /** In a catalogued database only the empty name can make a role fail. */
  lemma WhenRolesValidate(db: DB)
    requires Catalogued(db)
    ensures RolesValidate(db) <==> Avoids(db, {""})
  {
    if RolesValidate(db) {
      forall n | n in db.roles ensures n != "" { assert ValidRole(db.roles[n]); }
    }
  }

  /** Any built-in role can be cloned onto the empty name and onto any built-in name. */
  lemma ClonesOntoAnyName(sys: map<string, Role>, src: string, dst: string, now: int, salt: Option<nat>)
    requires src in sys
    ensures var plan := Plan(sys, CloneRole(src, dst), EMPTY, now, salt);
      plan.Ok? && (dst == "" ==> !RolesValidate(plan.value)) && (dst in sys ==> !NamesDisjoint(sys, plan.value))
  {
    assert dst in Plan(sys, CloneRole(src, dst), EMPTY, now, salt).value.roles;
  }
}
