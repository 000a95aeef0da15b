// When each mutator succeeds, which error it gives otherwise, and what every error leaves, in
// terms of the input and the state alone.
module AccessOutcomes {
  import opened Wrappers
  import opened AccessData
  import opened AccessOps
  import opened AccessInvariants
  import opened AccessRuns

  // Users

  lemma WhenCreateUserSucceeds(sys: map<string, Role>, user: User, s: State, env: Env)
    ensures var (t, r) := Apply(sys, CreateUser(user), s, env);
      var wellFormed := user.username != "" && user.password != Text("");
      var absent := user.username !in s.mem.users;
      var rolesExist := forall n :: n in user.roles ==> n in sys || n in s.mem.roles;
      && (r == None <==> wellFormed && absent && rolesExist && env.salt.Some? && env.write.Written?)
      && (r == Some(AlreadyExists) <==> wellFormed && !absent)
      && (r == Some(InvalidArg) <==> !wellFormed || (absent && !rolesExist))
      && (r == Some(HashFailed) <==> wellFormed && absent && rolesExist && env.salt.None?)
      && (r == None ==> t.mem.users.Keys == s.mem.users.Keys + {user.username} && t.mem.roles == s.mem.roles)
  {
  }

  lemma WhenUpdateUserSucceeds(sys: map<string, Role>, user: User, s: State, env: Env)
    ensures var (t, r) := Apply(sys, UpdateUser(user), s, env);
      var present := user.username in s.mem.users;
      var rolesExist := forall n :: n in user.roles ==> n in sys || n in s.mem.roles;
      var hashes := user.password == Text("") || env.salt.Some?;
      && (r == None <==> present && rolesExist && hashes && env.write.Written?)
      && (r == Some(NotFound) <==> !present)
      && (r == Some(InvalidArg) <==> present && !rolesExist)
      && (r == Some(HashFailed) <==> present && rolesExist && !hashes)
      && (r == None ==> t.mem.users.Keys == s.mem.users.Keys && t.mem.roles == s.mem.roles)
  {
  }

  lemma WhenDeleteUserSucceeds(sys: map<string, Role>, username: string, s: State, env: Env)
    ensures var (t, r) := Apply(sys, DeleteUser(username), s, env);
      && r == (if env.write.Written? then None else Some(StoreFailed))
      && (r == None ==> t.mem.users.Keys == s.mem.users.Keys - {username} && t.mem.roles == s.mem.roles)
  {
  }

  lemma WhenChangePasswordSucceeds(sys: map<string, Role>, u: string, oldPass: Password, newPass: Password, s: State,
        env: Env)
    ensures var (t, r) := Apply(sys, ChangePassword(u, oldPass, newPass), s, env);
      var present := u in s.mem.users;
      var verified := present && Verifies(s.mem.users[u].password, oldPass);
      && (r == None <==> verified && env.salt.Some? && env.write.Written?)
      && (r == Some(NotFound) <==> !present)
      && (r == Some(WrongPassword) <==> present && !verified)
      && (r == Some(HashFailed) <==> verified && env.salt.None?)
      && (r == None ==> t.mem.users.Keys == s.mem.users.Keys && t.mem.roles == s.mem.roles)
  {
  }

  // Roles

  /** What Role.Validate accepts: a name, eighteen scopes, four permissions. */
  lemma WhenRolesAreValid(role: Role)
    ensures ValidRole(role) <==>
      && role.name != ""
      && forall scope :: scope in role.permissions ==>
        && scope in {
          "hosts", "config-opt", "pool", "osd", "monitor", "rbd-image", "iscsi", "rbd-mirroring", "rgw", "cephfs",
          "manager", "log", "grafana", "prometheus", "user", "dashboard-settings", "nfs-ganesha", "nvme-of"}
        && forall p :: p in role.permissions[scope] ==> p in {"read", "create", "update", "delete"}
  {
  }

  lemma WhenCreateRoleSucceeds(sys: map<string, Role>, role: Role, s: State, env: Env)
    ensures var (t, r) := Apply(sys, CreateRole(role), s, env);
      var taken := role.name in sys || role.name in s.mem.roles;
      && (r == None <==> !taken && !role.isSystem && ValidRole(role) && env.write.Written?)
      && (r == Some(AlreadyExists) <==> taken)
      && (r == Some(InvalidArg) <==> !taken && (role.isSystem || !ValidRole(role)))
      && (r == None ==> t.mem.roles.Keys == s.mem.roles.Keys + {role.name} && t.mem.users == s.mem.users)
  {
  }

  lemma WhenUpdateRoleSucceeds(sys: map<string, Role>, role: Role, s: State, env: Env)
    ensures var (t, r) := Apply(sys, UpdateRole(role), s, env);
      var refused, stored := role.name in sys || role.isSystem, role.name in s.mem.roles;
      && (r == None <==> !refused && stored && ValidRole(role) && env.write.Written?)
      && (r == Some(NotFound) <==> !refused && !stored)
      && (r == Some(InvalidArg) <==> refused || (stored && !ValidRole(role)))
      && (r == None ==> t.mem.roles.Keys == s.mem.roles.Keys && t.mem.users == s.mem.users)
  {
  }

  lemma WhenDeleteRoleSucceeds(sys: map<string, Role>, name: string, s: State, env: Env)
    ensures var (t, r) := Apply(sys, DeleteRole(name), s, env);
      var held := exists u :: u in s.mem.users && name in s.mem.users[u].roles;
      && (r == None <==> name !in sys && name in s.mem.roles && !held && env.write.Written?)
      && (r == Some(NotFound) <==> name !in sys && name !in s.mem.roles)
      && (r == Some(InvalidArg) <==> name in sys || (name in s.mem.roles && held))
      && (r == None ==> t.mem.roles.Keys == s.mem.roles.Keys - {name} && t.mem.users == s.mem.users)
  {
  }

  lemma WhenCloneRoleSucceeds(sys: map<string, Role>, src: string, dst: string, s: State, env: Env)
    ensures var (t, r) := Apply(sys, CloneRole(src, dst), s, env);
      var found := src in s.mem.roles || src in sys;
      && (r == None <==> found && env.write.Written?)
      && (r == Some(NotFound) <==> !found)
      && (r == None ==>
        && t.mem.roles.Keys == s.mem.roles.Keys + {dst} && t.mem.users == s.mem.users
        && var source := if src in s.mem.roles then s.mem.roles[src] else sys[src];
          && t.mem.roles[dst].permissions == source.permissions
          && t.mem.roles[dst].description == source.description)
  {
  }

  /** A refusal changes nothing. The store's error comes exactly where a working store would
      have given success; it leaves in the key what was there or what the success would have
      left, as the write decided, and in memory the key or nothing, as the re-read decided. */
  lemma WhatErrorsLeave(sys: map<string, Role>, op: Op, s: State, env: Env)
    ensures var (t, r) := Apply(sys, op, s, env);
      var (t', r') := Apply(sys, op, s, env.(write := Written));
      && (r.Some? && r != Some(StoreFailed) ==> t == s && r' == r)
      && (r' == None ==> t'.stored == Some(t'.mem))
      && (r == Some(StoreFailed) <==> r' == None && !env.write.Written?)
      && (r == Some(StoreFailed) ==>
        && t.stored == (if env.write.NotWritten? then s.stored else Some(t'.mem))
        && t.mem == (if env.reread.Replied? then Contents(t.stored) else EMPTY))
  {
  }

  // Round trips

  /** A created role can be updated, whatever else happened since: exactly to a valid custom role. */
  lemma CreatedRolesCanBeUpdated(sys: map<string, Role>, role: Role, s: State, env: Env, later: seq<Call>, role': Role,
        env': Env)
    requires SystemTable(sys) && SoundState(sys, s) && s.mem == Contents(s.stored)
    requires Apply(sys, CreateRole(role), s, env).1.None? && role'.name == role.name
    requires var t := Apply(sys, CreateRole(role), s, env).0;
      LeftAlone(CreateRole(role), later) && KeptMemory(sys, t, later)
    ensures var t := Final(sys, Apply(sys, CreateRole(role), s, env).0, later);
      var (t', r) := Apply(sys, UpdateRole(role'), t, env');
      && (r == None <==> ValidRole(role') && !role'.isSystem && env'.write.Written?)
      && (r == None ==> SystemFirst(sys, t'.mem, role.name) == Some(role'))
  {
    SuccessPersists(sys, CreateRole(role), s, env, later);
    WhenCreateRoleSucceeds(sys, role, s, env);
    var t := Final(sys, Apply(sys, CreateRole(role), s, env).0, later);
    WhenUpdateRoleSucceeds(sys, role', t, env');
  }

  /** A created user can change its password, whatever else happened since: exactly with the one
      it was created with, and it then logs in with the new one and no other. */
  lemma CreatedUsersCanChangePasswords(sys: map<string, Role>, user: User, s: State, env: Env, later: seq<Call>,
        oldPass: Password, newPass: Password, env': Env)
    requires SystemTable(sys) && SoundState(sys, s) && s.mem == Contents(s.stored)
    requires Apply(sys, CreateUser(user), s, env).1.None?
    requires var t := Apply(sys, CreateUser(user), s, env).0;
      LeftAlone(CreateUser(user), later) && KeptMemory(sys, t, later)
    ensures var t := Final(sys, Apply(sys, CreateUser(user), s, env).0, later);
      var (t', r) := Apply(sys, ChangePassword(user.username, oldPass, newPass), t, env');
      && (r == None <==> oldPass == user.password && env'.salt.Some? && env'.write.Written?)
      && (r == Some(WrongPassword) <==> oldPass != user.password)
      && (r == None ==> LoginsAre(t'.mem, user.username, user.enabled, newPass))
  {
    SuccessPersists(sys, CreateUser(user), s, env, later);
    var t0 := Apply(sys, CreateUser(user), s, env).0;
    var t := Final(sys, t0, later);
    ApplyKeepsSoundState(sys, CreateUser(user), s, env);
    RunsKeepSoundState(sys, t0, later);
    assert Verifies(t.mem.users[user.username].password, oldPass) <==> oldPass == user.password;
    WhenChangePasswordSucceeds(sys, user.username, oldPass, newPass, t, env');
    var op := ChangePassword(user.username, oldPass, newPass);
    if Apply(sys, op, t, env').1.None? { SuccessReadsBack(sys, op, t, env'); }
  }
}
