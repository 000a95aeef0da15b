// The sequential meaning of the service's mutators: the checks each one makes, the database
// it intends, and what memory and the remote key hold afterwards under every fault.
module AccessOps {
  import opened Wrappers
  import opened AccessData

  /** A write of the key succeeds, fails leaving the key alone, or fails after it took effect. */
  datatype WriteOutcome = Written | NotWritten | WrittenButFailed

  /** A read of the key replies (a missing key is the "not found" reply) or fails. */
  datatype ReadOutcome = Replied | ReadFailed

  /** What the environment decides for one call: the clock, bcrypt's salt or its refusal,
      and the outcomes of the one write and the one re-read a mutator makes at most. */
  datatype Env = Env(now: int, salt: Option<nat>, write: WriteOutcome, reread: ReadOutcome)

  datatype Op =
    | CreateUser(user: User)
    | UpdateUser(user: User)
    | DeleteUser(username: string)
    | ChangePassword(username: string, oldPass: Password, newPass: Password)
    | CreateRole(role: Role)
    | UpdateRole(role: Role)
    | DeleteRole(name: string)
    | CloneRole(src: string, dst: string)

  /** The two maps in memory and the remote key. */
  datatype State = State(mem: DB, stored: Option<DB>)

  /** Some(e) is a returned error, None success. */
  type Response = Option<Error>

  predicate KnownRole(sys: map<string, Role>, db: DB, name: string)
  {
    name in sys || name in db.roles
  }

  predicate KnownRoles(sys: map<string, Role>, db: DB, roles: seq<string>)
  {
    forall r :: r in roles ==> KnownRole(sys, db, r)
  }

  ghost predicate ValidRole(role: Role)
  {
    role.name != "" && KnownPermissions(role.permissions)
  }

  predicate RoleInUse(db: DB, name: string)
  {
    exists u :: u in db.users && name in db.users[u].roles
  }

  function PutUser(db: DB, key: string, user: User): DB
  {
    db.(users := db.users[key := user])
  }

  function PutRole(db: DB, key: string, role: Role): DB
  {
    db.(roles := db.roles[key := role])
  }

  /** How GetRole resolves a name: the built-in table first. */
  function SystemFirst(sys: map<string, Role>, db: DB, name: string): Option<Role>
  {
    if name in sys then Some(sys[name]) else if name in db.roles then Some(db.roles[name]) else None
  }

  /** How CloneRole resolves its source: the stored roles first. */
  function CustomFirst(sys: map<string, Role>, db: DB, name: string): Option<Role>
  {
    if name in db.roles then Some(db.roles[name]) else if name in sys then Some(sys[name]) else None
  }

  /** The database an operation intends to store, or the error its checks end in.
      Only now and salt of the environment matter here. */
  ghost function Plan(sys: map<string, Role>, op: Op, db: DB, now: int, salt: Option<nat>): Result<DB>
  {
    match op
    case CreateUser(user) =>
      if user.username == "" || user.password == Text("") then Err(InvalidArg)
      else if user.username in db.users then Err(AlreadyExists)
      else if !KnownRoles(sys, db, user.roles) then Err(InvalidArg)
      else if salt.None? then Err(HashFailed)
      else Ok(PutUser(db, user.username, user.(lastUpdate := now, password := Digest(user.password, salt.value))))
    case UpdateUser(user) =>
      if user.username !in db.users then Err(NotFound)
      else if !KnownRoles(sys, db, user.roles) then Err(InvalidArg)
      else if user.password == Text("") then
        var prev := db.users[user.username];
        Ok(PutUser(db, user.username,
                   user.(lastUpdate := now, password := prev.password, pwdExpirationDate := prev.pwdExpirationDate)))
      else if salt.None? then Err(HashFailed)
      else Ok(PutUser(db, user.username, user.(lastUpdate := now, password := Digest(user.password, salt.value))))
    case DeleteUser(username) =>
      Ok(db.(users := db.users - {username}))
    case ChangePassword(username, oldPass, newPass) =>
      if username !in db.users then Err(NotFound)
      else if !Verifies(db.users[username].password, oldPass) then Err(WrongPassword)
      else if salt.None? then Err(HashFailed)
      else Ok(PutUser(db, username, db.users[username].(password := Digest(newPass, salt.value))))
    case CreateRole(role) =>
      if role.name in sys || role.name in db.roles then Err(AlreadyExists)
      else if !ValidRole(role) || role.isSystem then Err(InvalidArg)
      else Ok(PutRole(db, role.name, role))
    case UpdateRole(role) =>
      if role.name in sys || role.isSystem then Err(InvalidArg)
      else if role.name !in db.roles then Err(NotFound)
      else if !ValidRole(role) then Err(InvalidArg)
      else Ok(PutRole(db, role.name, role))
    case DeleteRole(name) =>
      if name in sys then Err(InvalidArg)
      else if name !in db.roles then Err(NotFound)
      else if RoleInUse(db, name) then Err(InvalidArg)
      else Ok(db.(roles := db.roles - {name}))
    case CloneRole(src, dst) =>
      match CustomFirst(sys, db, src)
      case None => Err(NotFound)
      case Some(role) => Ok(PutRole(db, dst, role.(name := dst, isSystem := src in db.roles && role.isSystem)))
  }

  /** Memory after both maps were cleared and the key was read. */
  function Reload(stored: Option<DB>, reread: ReadOutcome): DB
  {
    if reread.Replied? then Contents(stored) else EMPTY
  }

  function AfterWrite(stored: Option<DB>, write: WriteOutcome, d: DB): Option<DB>
  {
    if write.NotWritten? then stored else Some(d)
  }

  /** One whole mutator under the write lock. */
  ghost function Apply(sys: map<string, Role>, op: Op, s: State, env: Env): (State, Response)
  {
    match Plan(sys, op, s.mem, env.now, env.salt)
    case Err(e) => (s, Some(e))
    case Ok(d) =>
      var stored := AfterWrite(s.stored, env.write, d);
      if env.write.Written? then (State(d, stored), None)
      else (State(Reload(stored, env.reread), stored), Some(StoreFailed))
  }

  /** The write of this call took effect, whatever was reported. */
  ghost predicate TookEffect(sys: map<string, Role>, op: Op, s: State, env: Env)
  {
    Plan(sys, op, s.mem, env.now, env.salt).Ok? && !env.write.NotWritten?
  }

  /** The call emptied memory: its write failed and so did the re-read. */
  ghost predicate LostMemory(sys: map<string, Role>, op: Op, s: State, env: Env)
  {
    Plan(sys, op, s.mem, env.now, env.salt).Ok? && !env.write.Written? && env.reread.ReadFailed?
  }
}
