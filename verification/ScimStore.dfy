/**
 The store as an object that its operations update in place (aegis/auth/scim.py). Each method is
 proved against the transition function of `Scim`; whatever is proved about that function over
 histories holds of the object.
 */
module ScimStoreModel {
  import opened Common
  import opened Scim
  import opened ScimInvariants

  lemma SetLinksStep(users: map<Id, User>, ids: set<Id>, uid: Id, gid: Id, on: bool)
    requires uid !in ids
    ensures var linked := SetLinks(users, ids, gid, on);
            SetLinks(users, ids + {uid}, gid, on) ==
            if uid !in users then linked
            else linked[uid := users[uid].(groupIds := if on then users[uid].groupIds + {gid} else users[uid].groupIds - {gid})]
  {
  }

  lemma DropMemberStep(groups: map<Id, Group>, ids: set<Id>, gid: Id, uid: Id)
    requires gid !in ids
    ensures var dropped := DropMember(groups, ids, uid);
            DropMember(groups, ids + {gid}, uid) ==
            if gid !in groups then dropped
            else dropped[gid := groups[gid].(memberIds := groups[gid].memberIds - {uid})]
  {
  }

  class ScimStore {
    const env: Env
    var users: map<Id, User>
    var groups: map<Id, Group>
    var userByName: map<string, Id>
    var groupByName: map<string, Id>

    ghost function State(): Store
      reads this
    {
      Store(users, groups, userByName, groupByName)
    }

    ghost predicate Valid()
      reads this
    {
      Indexed(env, State())
    }

    constructor (env: Env)
      ensures Valid() && State() == EMPTY && InSync(State()) && this.env == env
    {
      this.env := env;
      users, groups, userByName, groupByName := map[], map[], map[], map[];
    }

    /** The new id is a parameter; it must occur nowhere in the store. */
    method CreateUser(id: Id, name: string, display: string, external: string, emails: seq<Email>, active: bool)
      returns (error: Option<Error>)
      requires Valid() && FreshId(State(), id)
      modifies this
      ensures Valid()
      ensures Outcome(State(), error) == Exec(env, old(State()), Op.CreateUser(id, name, display, external, emails, active))
    {
      ExecIndexed(env, State(), Op.CreateUser(id, name, display, external, emails, active));
      var key := env.lower(name);
      if key in userByName {
        return Some(Uniqueness);
      }
      users := users[id := User(id, name, OrName(display, name), active, external, emails, {})];
      userByName := userByName[key := id];
      return None;
    }

    /** Under the invariant a name leads to the one user that bears it. */
    method GetUserByName(name: string) returns (r: Option<User>)
      requires Valid()
      ensures r.Some? <==> exists u :: u in users && env.lower(users[u].userName) == env.lower(name)
      ensures r.Some? ==> r.value.id in users && users[r.value.id] == r.value && env.lower(r.value.userName) == env.lower(name)
      ensures r.Some? ==> forall u :: u in users && env.lower(users[u].userName) == env.lower(name) ==> u == r.value.id
    {
      var key := env.lower(name);
      ghost var names := UserKeys(env, users);
      assert forall u :: u in users ==> names[u] == env.lower(users[u].userName);
      if key !in userByName {
        return None;
      }
      assert names[userByName[key]] == key;
      return Some(users[userByName[key]]);
    }

    /** Store a user under a possibly new name. */
    method RenameInto(u: User) returns (error: Option<Error>)
      requires Valid() && u.id in users
      modifies this
      ensures Valid()
      ensures Outcome(State(), error) == PutUser(env, old(State()), u)
    {
      PutUserIndexed(env, State(), u);
      assert UserKeys(env, users)[u.id] in userByName;
      var newKey, oldKey := env.lower(u.userName), env.lower(users[u.id].userName);
      if newKey != oldKey && newKey in userByName {
        return Some(Uniqueness);
      }
      users := users[u.id := u];
      if newKey != oldKey {
        userByName := userByName - {oldKey};
        userByName := userByName[newKey := u.id];
      }
      return None;
    }

    method ReplaceUser(id: Id, name: string, display: string, external: string, emails: seq<Email>, active: bool)
      returns (error: Option<Error>)
      requires Valid()
      modifies this
      ensures Valid()
      ensures Outcome(State(), error) == Exec(env, old(State()), Op.ReplaceUser(id, name, display, external, emails, active))
    {
      if id !in users {
        return Some(NotFound);
      }
      error := RenameInto(User(id, name, OrName(display, name), active, external, emails, users[id].groupIds));
    }

    method PatchUser(id: Id, ops: seq<PatchOp>) returns (error: Option<Error>)
      requires Valid()
      modifies this
      ensures Valid()
      ensures Outcome(State(), error) == Exec(env, old(State()), Op.PatchUser(id, ops))
    {
      if id !in users {
        return Some(NotFound);
      }
      var state := AttrsOf(users[id]);
      var i := 0;
      while i < |ops|
        invariant 0 <= i <= |ops| && Valid() && State() == old(State()) && id in users
        invariant ApplyUserOps(env, state, ops[i..]) == ApplyUserOps(env, AttrsOf(users[id]), ops)
      {
        assert ops[i..][0] == ops[i] && ops[i..][1..] == ops[i + 1..];
        var r := ApplyUserOp(env, state, ops[i]);
        if r.Err? {
          return Some(r.error);
        }
        state := r.value;
        i := i + 1;
      }
      assert ops[i..] == [];
      error := RenameInto(User(id, state.userName, state.displayName, state.active, state.externalId, state.emails, users[id].groupIds));
    }

    /** Take one user out of every stored group of `ids`, one at a time. */
    method LeaveGroups(ids: set<Id>, uid: Id)
      modifies `groups
      ensures groups == DropMember(old(groups), ids, uid)
    {
      var rest := ids;
      assert ids - rest == {};
      while rest != {}
        invariant rest <= ids
        invariant groups == DropMember(old(groups), ids - rest, uid)
        decreases |rest|
      {
        var gid :| gid in rest;
        DropMemberStep(old(groups), ids - rest, gid, uid);
        assert ids - (rest - {gid}) == (ids - rest) + {gid};
        rest := rest - {gid};
        if gid in groups {
          var g := groups[gid];
          groups := groups[gid := g.(memberIds := g.memberIds - {uid})];
        }
      }
      assert ids - rest == ids;
    }

    method DeleteUser(id: Id) returns (error: Option<Error>)
      requires Valid()
      modifies this
      ensures Valid()
      ensures Outcome(State(), error) == Exec(env, old(State()), Op.DeleteUser(id))
    {
      if id !in users {
        return Some(NotFound);
      }
      DeprovisionIndexed(env, State(), id);
      var user := users[id];
      LeaveGroups(user.groupIds, id);
      users := users[id := user.(active := false, groupIds := {})];
      return None;
    }

    method CreateGroup(id: Id, name: string, external: string, roles: set<string>) returns (error: Option<Error>)
      requires Valid() && FreshId(State(), id)
      modifies this
      ensures Valid()
      ensures Outcome(State(), error) == Exec(env, old(State()), Op.CreateGroup(id, name, external, roles))
    {
      ExecIndexed(env, State(), Op.CreateGroup(id, name, external, roles));
      var key := env.lower(name);
      if key in groupByName {
        return Some(Uniqueness);
      }
      groups := groups[id := Group(id, name, external, {}, roles)];
      groupByName := groupByName[key := id];
      return None;
    }

    method StoreGroup(g: Group) returns (error: Option<Error>)
      requires Valid() && g.id in groups
      modifies this
      ensures Valid()
      ensures Outcome(State(), error) == PutGroup(env, old(State()), g)
    {
      PutGroupIndexed(env, State(), g);
      var newKey, oldKey := env.lower(g.displayName), env.lower(groups[g.id].displayName);
      if newKey != oldKey && newKey in groupByName {
        return Some(Uniqueness);
      }
      groups := groups[g.id := g];
      if newKey != oldKey {
        groupByName := groupByName - {oldKey};
        groupByName := groupByName[newKey := g.id];
      }
      return None;
    }

    method ReplaceGroup(id: Id, name: string, external: string, roles: set<string>) returns (error: Option<Error>)
      requires Valid()
      modifies this
      ensures Valid()
      ensures Outcome(State(), error) == Exec(env, old(State()), Op.ReplaceGroup(id, name, external, roles))
    {
      if id !in groups {
        return Some(NotFound);
      }
      error := StoreGroup(Group(id, name, external, groups[id].memberIds, roles));
    }

    /** Link or unlink every stored user of `ids`, one at a time. */
    method LinkOneByOne(ids: set<Id>, gid: Id, on: bool)
      modifies `users
      ensures users == SetLinks(old(users), ids, gid, on)
    {
      var rest := ids;
      assert ids - rest == {};
      while rest != {}
        invariant rest <= ids
        invariant users == SetLinks(old(users), ids - rest, gid, on)
        decreases |rest|
      {
        var uid :| uid in rest;
        SetLinksStep(old(users), ids - rest, uid, gid, on);
        assert ids - (rest - {uid}) == (ids - rest) + {uid};
        rest := rest - {uid};
        if uid in users {
          var u := users[uid];
          users := users[uid := u.(groupIds := if on then u.groupIds + {gid} else u.groupIds - {gid})];
        }
      }
      assert ids - rest == ids;
    }

    method LinkUsers(ids: set<Id>, gid: Id, on: bool)
      requires Valid()
      modifies `users
      ensures Valid() && users == SetLinks(old(users), ids, gid, on)
    {
      SetLinksOnlyLink(users, ids, gid, on);
      RelinkIndexed(env, State(), SetLinks(users, ids, gid, on), gid);
      LinkOneByOne(ids, gid, on);
    }

    /** `_patch_member_set`: None is a TypeError. */
    method PatchMemberSet(gid: Id, members: set<Id>, name: string, value: Json) returns (updated: Option<set<Id>>)
      requires Valid()
      modifies `users
      ensures Valid()
      ensures forall display: string, external: string ::
                var r := PatchMembers(env, gid, Draft(old(users), members, display, external), name, value);
                && r.draft == Draft(users, if updated.Some? then updated.value else members, display, external)
                && (r.error.None? <==> updated.Some?) && (r.error.Some? ==> r.error == Some(TypeError))
    {
      var add, rm: set<Id>;
      if value == Null && name == "remove" {
        add, rm := {}, members;
      } else {
        var named := NamedIds(env, value);
        if named.None? {
          return None;
        }
        if name == "add" {
          add, rm := named.value - members, {};
        } else if name == "remove" {
          add, rm := {}, named.value;
        } else {
          add, rm := named.value - members, members - named.value;
        }
      }
      LinkUsers(add, gid, true);
      LinkUsers(rm, gid, false);
      return Some((members + add) - rm);
    }

    /** The items of a PATCH without a path. */
    method PatchGroupItems(gid: Id, draft: Draft, name: string, fields: seq<Field>) returns (run: Run)
      requires Valid() && draft.users == users
      modifies `users
      ensures Valid() && run == RunGroupItems(env, gid, draft, name, fields) && run.draft.users == users
    {
      var d := draft;
      var i := 0;
      while i < |fields|
        invariant 0 <= i <= |fields| && Valid() && d.users == users
        invariant RunGroupItems(env, gid, d, name, fields[i..]) == RunGroupItems(env, gid, draft, name, fields)
      {
        assert fields[i..][0] == fields[i] && fields[i..][1..] == fields[i + 1..];
        var key, v := env.lower(fields[i].key), fields[i].value;
        if key == "displayname" {
          d := d.(display := env.str(v));
        } else if key == "externalid" {
          d := d.(external := env.str(v));
        } else if key == "members" {
          var updated := PatchMemberSet(gid, d.members, name, v);
          if updated.None? {
            return Run(d.(users := users), Some(TypeError));
          }
          d := d.(members := updated.value, users := users);
        }
        i := i + 1;
      }
      assert fields[i..] == [];
      return Run(d, None);
    }

    /** One operation of a group PATCH. */
    method PatchGroupOp(gid: Id, d: Draft, op: PatchOp) returns (run: Run)
      requires Valid() && d.users == users
      modifies `users
      ensures Valid() && run == RunGroupOp(env, gid, d, op) && run.draft.users == users
    {
      var name, path := env.lower(op.op), env.lower(op.path);
      if !KnownOp(name) {
        return Run(d, Some(InvalidValue));
      }
      if path == "" {
        if !op.value.Obj? {
          return Run(d, Some(InvalidValue));
        }
        run := PatchGroupItems(gid, d, name, op.value.fields);
      } else if path == "members" || path == "members.value" {
        var updated := PatchMemberSet(gid, d.members, name, op.value);
        if updated.None? {
          return Run(d.(users := users), Some(TypeError));
        }
        return Run(d.(members := updated.value, users := users), None);
      } else if path == "displayname" {
        if name == "remove" {
          return Run(d, Some(Mutability));
        }
        return Run(d.(display := env.str(op.value)), None);
      } else if path == "externalid" {
        return Run(d.(external := if name == "remove" then "" else env.str(op.value)), None);
      } else {
        return Run(d, Some(InvalidValue));
      }
    }

    method PatchGroup(id: Id, ops: seq<PatchOp>) returns (error: Option<Error>)
      requires Valid()
      modifies this
      ensures Valid()
      ensures Outcome(State(), error) == Exec(env, old(State()), Op.PatchGroup(id, ops))
    {
      if id !in groups {
        return Some(NotFound);
      }
      var group := groups[id];
      var d := Draft(users, group.memberIds, group.displayName, group.externalId);
      ghost var d0 := d;
      var i := 0;
      while i < |ops|
        invariant 0 <= i <= |ops| && Valid() && d.users == users
        invariant groups == old(groups) && userByName == old(userByName) && groupByName == old(groupByName)
        invariant RunGroupOps(env, id, d, ops[i..]) == RunGroupOps(env, id, d0, ops)
      {
        assert ops[i..][0] == ops[i] && ops[i..][1..] == ops[i + 1..];
        var r := PatchGroupOp(id, d, ops[i]);
        if r.error.Some? {
          return r.error;
        }
        d := r.draft;
        i := i + 1;
      }
      assert ops[i..] == [];
      error := StoreGroup(Group(id, d.display, d.external, d.members, group.roles));
    }

    method DeleteGroup(id: Id) returns (error: Option<Error>)
      requires Valid()
      modifies this
      ensures Valid()
      ensures Outcome(State(), error) == Exec(env, old(State()), Op.DeleteGroup(id))
    {
      if id !in groups {
        return Some(NotFound);
      }
      DropGroupIndexed(env, State(), id);
      var group := groups[id];
      LinkUsers(group.memberIds, id, false);
      groups := groups - {id};
      groupByName := groupByName - {env.lower(group.displayName)};
      return None;
    }

    method AddMember(gid: Id, uid: Id) returns (error: Option<Error>)
      requires Valid()
      modifies this
      ensures Valid()
      ensures Outcome(State(), error) == Exec(env, old(State()), Op.AddMember(gid, uid))
    {
      if gid !in groups || uid !in users {
        return Some(NotFound);
      }
      SetMemberIndexed(env, State(), gid, uid, true);
      var group, user := groups[gid], users[uid];
      groups := groups[gid := group.(memberIds := group.memberIds + {uid})];
      users := users[uid := user.(groupIds := user.groupIds + {gid})];
      assert users == SetLinks(old(users), {uid}, gid, true);
      return None;
    }

    method RemoveMember(gid: Id, uid: Id) returns (error: Option<Error>)
      requires Valid()
      modifies this
      ensures Valid()
      ensures Outcome(State(), error) == Exec(env, old(State()), Op.RemoveMember(gid, uid))
    {
      if gid !in groups || uid !in users {
        return Some(NotFound);
      }
      SetMemberIndexed(env, State(), gid, uid, false);
      var group, user := groups[gid], users[uid];
      groups := groups[gid := group.(memberIds := group.memberIds - {uid})];
      users := users[uid := user.(groupIds := user.groupIds - {gid})];
      assert users == SetLinks(old(users), {uid}, gid, false);
      return None;
    }
  }
}
