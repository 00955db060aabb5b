/**
 What each operation of the SCIM store does to the resources, said of the resources themselves:
 when it fails and with which error, what it stores, and what it leaves alone.
 */
module ScimMeaning {
  import opened Common
  import opened Scim
  import opened ScimInvariants

  // --------------------------------------------------------------------- frames

  /** Users other than `id` are as they were. */
  ghost predicate OtherUsersKept(s: Store, t: Store, id: Id) {
    && s.users.Keys - {id} == t.users.Keys - {id}
    && forall u :: u in s.users && u != id ==> u in t.users && t.users[u] == s.users[u]
  }

  ghost predicate OtherGroupsKept(s: Store, t: Store, id: Id) {
    && s.groups.Keys - {id} == t.groups.Keys - {id}
    && forall g :: g in s.groups && g != id ==> g in t.groups && t.groups[g] == s.groups[g]
  }

  /** Some stored user, other than `id`, bears this name up to case; a deprovisioned one still does. */
  ghost predicate UserNameTaken(env: Env, s: Store, name: string, id: Id) {
    exists u :: u in s.users && u != id && env.lower(s.users[u].userName) == env.lower(name)
  }

  ghost predicate GroupNameTaken(env: Env, s: Store, name: string, id: Id) {
    exists g :: g in s.groups && g != id && env.lower(s.groups[g].displayName) == env.lower(name)
  }

  lemma UserNameIndexed(env: Env, s: Store, name: string)
    requires Indexed(env, s)
    ensures env.lower(name) in s.userByName <==> exists u :: u in s.users && env.lower(s.users[u].userName) == env.lower(name)
  {
    var key := env.lower(name);
    if key in s.userByName {
      var u := s.userByName[key];
      assert u in UserKeys(env, s.users) && UserKeys(env, s.users)[u] == key;
    }
    if u :| u in s.users && env.lower(s.users[u].userName) == key {
      assert UserKeys(env, s.users)[u] == key;
    }
  }

  lemma GroupNameIndexed(env: Env, s: Store, name: string)
    requires Indexed(env, s)
    ensures env.lower(name) in s.groupByName <==> exists g :: g in s.groups && env.lower(s.groups[g].displayName) == env.lower(name)
  {
    var key := env.lower(name);
    if key in s.groupByName {
      var g := s.groupByName[key];
      assert g in GroupKeys(env, s.groups) && GroupKeys(env, s.groups)[g] == key;
    }
    if g :| g in s.groups && env.lower(s.groups[g].displayName) == key {
      assert GroupKeys(env, s.groups)[g] == key;
    }
  }

  /** Two users do not share a name, so a taken name is taken by another. */
  lemma UserNameUnique(env: Env, s: Store, a: Id, b: Id)
    requires Indexed(env, s) && a in s.users && b in s.users
    requires env.lower(s.users[a].userName) == env.lower(s.users[b].userName)
    ensures a == b
  {
    var names := UserKeys(env, s.users);
    assert s.userByName[names[a]] == a && s.userByName[names[b]] == b;
  }

  lemma GroupNameUnique(env: Env, s: Store, a: Id, b: Id)
    requires Indexed(env, s) && a in s.groups && b in s.groups
    requires env.lower(s.groups[a].displayName) == env.lower(s.groups[b].displayName)
    ensures a == b
  {
    var names := GroupKeys(env, s.groups);
    assert s.groupByName[names[a]] == a && s.groupByName[names[b]] == b;
  }

  lemma RenamedUserTaken(env: Env, s: Store, name: string, id: Id)
    requires Indexed(env, s) && id in s.users
    ensures UserNameTaken(env, s, name, id) <==>
              env.lower(name) != env.lower(s.users[id].userName) && env.lower(name) in s.userByName
  {
    UserNameIndexed(env, s, name);
    if u :| u in s.users && u != id && env.lower(s.users[u].userName) == env.lower(name) {
      if env.lower(name) == env.lower(s.users[id].userName) { UserNameUnique(env, s, u, id); assert false; }
    }
  }

  lemma RenamedGroupTaken(env: Env, s: Store, name: string, id: Id)
    requires Indexed(env, s) && id in s.groups
    ensures GroupNameTaken(env, s, name, id) <==>
              env.lower(name) != env.lower(s.groups[id].displayName) && env.lower(name) in s.groupByName
  {
    GroupNameIndexed(env, s, name);
    if g :| g in s.groups && g != id && env.lower(s.groups[g].displayName) == env.lower(name) {
      if env.lower(name) == env.lower(s.groups[id].displayName) { GroupNameUnique(env, s, g, id); assert false; }
    }
  }

  // ---------------------------------------------------------------------- users

  /** A new user is stored as given, in no group, with the user name for an empty display name. */
  lemma CreateUserMeaning(env: Env, s: Store, id: Id, name: string, display: string, external: string, emails: seq<Email>, active: bool)
    requires Indexed(env, s) && FreshId(s, id)
    ensures var out := Exec(env, s, CreateUser(id, name, display, external, emails, active));
            && out.error == (if UserNameTaken(env, s, name, id) then Some(Uniqueness) else None)
            && out.store.groups == s.groups && out.store.groupByName == s.groupByName && OtherUsersKept(s, out.store, id)
            && (if out.error.Some? then id !in out.store.users
                else id in out.store.users &&
                     out.store.users[id] == User(id, name, if display == "" then name else display, active, external, emails, {}))
  {
    UserNameIndexed(env, s, name);
  }

  /** A replaced user is stored as given but keeps its groups. */
  lemma ReplaceUserMeaning(env: Env, s: Store, id: Id, name: string, display: string, external: string, emails: seq<Email>, active: bool)
    requires Indexed(env, s)
    ensures var out := Exec(env, s, ReplaceUser(id, name, display, external, emails, active));
            && out.error == (if id !in s.users then Some(NotFound) else if UserNameTaken(env, s, name, id) then Some(Uniqueness) else None)
            && out.store.groups == s.groups && out.store.groupByName == s.groupByName && OtherUsersKept(s, out.store, id)
            && (out.error.Some? ==> out.store == s)
            && (out.error.None? ==>
                  id in out.store.users &&
                  out.store.users[id] ==
                    User(id, name, if display == "" then name else display, active, external, emails, s.users[id].groupIds))
  {
    if id in s.users { RenamedUserTaken(env, s, name, id); }
  }

  /** A deleted user stays on record, inactive and in no group; its groups lose it and its name stays taken. */
  lemma DeleteUserMeaning(env: Env, s: Store, id: Id)
    ensures var out := Exec(env, s, DeleteUser(id));
            && out.error == (if id in s.users then None else Some(NotFound))
            && (out.error.Some? ==> out.store == s)
            && (out.error.None? ==>
                  && OtherUsersKept(s, out.store, id) && out.store.userByName == s.userByName && out.store.groupByName == s.groupByName
                  && id in out.store.users && out.store.users[id].groupIds == {} && !out.store.users[id].active
                  && AttrsOf(out.store.users[id]) == AttrsOf(s.users[id]).(active := false) && out.store.users[id].id == s.users[id].id
                  && out.store.groups.Keys == s.groups.Keys
                  && (forall g :: g in s.groups ==>
                        out.store.groups[g] ==
                          s.groups[g].(memberIds := if g in s.users[id].groupIds then s.groups[g].memberIds - {id} else s.groups[g].memberIds))
                  && (InSync(s) ==> forall g :: g in s.groups ==> id !in out.store.groups[g].memberIds))
  {
  }

  // --------------------------------------------------------------------- groups

  lemma CreateGroupMeaning(env: Env, s: Store, id: Id, name: string, external: string, roles: set<string>)
    requires Indexed(env, s) && FreshId(s, id)
    ensures var out := Exec(env, s, CreateGroup(id, name, external, roles));
            && out.error == (if GroupNameTaken(env, s, name, id) then Some(Uniqueness) else None)
            && out.store.users == s.users && out.store.userByName == s.userByName && OtherGroupsKept(s, out.store, id)
            && (if out.error.Some? then id !in out.store.groups
                else id in out.store.groups && out.store.groups[id] == Group(id, name, external, {}, roles))
  {
    GroupNameIndexed(env, s, name);
  }

  /** A replaced group keeps its members. */
  lemma ReplaceGroupMeaning(env: Env, s: Store, id: Id, name: string, external: string, roles: set<string>)
    requires Indexed(env, s)
    ensures var out := Exec(env, s, ReplaceGroup(id, name, external, roles));
            && out.error == (if id !in s.groups then Some(NotFound) else if GroupNameTaken(env, s, name, id) then Some(Uniqueness) else None)
            && out.store.users == s.users && out.store.userByName == s.userByName && OtherGroupsKept(s, out.store, id)
            && (out.error.Some? ==> out.store == s)
            && (out.error.None? ==>
                  id in out.store.groups && out.store.groups[id] == Group(id, name, external, s.groups[id].memberIds, roles))
  {
    if id in s.groups { RenamedGroupTaken(env, s, name, id); }
  }

  /** A deleted group is gone, nobody is linked to it, and its name is free again. */
  lemma DeleteGroupMeaning(env: Env, s: Store, id: Id)
    ensures var out := Exec(env, s, DeleteGroup(id));
            && out.error == (if id in s.groups then None else Some(NotFound))
            && (out.error.Some? ==> out.store == s)
            && (out.error.None? ==>
                  && out.store.groups == s.groups - {id} && out.store.userByName == s.userByName
                  && out.store.groupByName == s.groupByName - {env.lower(s.groups[id].displayName)}
                  && out.store.users.Keys == s.users.Keys
                  && (forall u :: u in s.users ==>
                        out.store.users[u] ==
                          s.users[u].(groupIds := if u in s.groups[id].memberIds then s.users[u].groupIds - {id} else s.users[u].groupIds))
                  && (InSync(s) ==> forall u :: u in s.users ==> id !in out.store.users[u].groupIds))
  {
  }

  // ---------------------------------------------------------------- memberships

  /** After `add_member` both sides have the link; no other link, resource or index entry changes. */
  lemma AddMemberMeaning(env: Env, s: Store, gid: Id, uid: Id)
    ensures var out := Exec(env, s, AddMember(gid, uid));
            && out.error == (if gid in s.groups && uid in s.users then None else Some(NotFound))
            && (out.error.Some? ==> out.store == s)
            && (out.error.None? ==>
                  && out.store.groups == s.groups[gid := s.groups[gid].(memberIds := s.groups[gid].memberIds + {uid})]
                  && out.store.users == s.users[uid := s.users[uid].(groupIds := s.users[uid].groupIds + {gid})]
                  && out.store.userByName == s.userByName && out.store.groupByName == s.groupByName)
  {
  }

  /** After `remove_member` neither side has it. */
  lemma RemoveMemberMeaning(env: Env, s: Store, gid: Id, uid: Id)
    ensures var out := Exec(env, s, RemoveMember(gid, uid));
            && out.error == (if gid in s.groups && uid in s.users then None else Some(NotFound))
            && (out.error.Some? ==> out.store == s)
            && (out.error.None? ==>
                  && out.store.groups == s.groups[gid := s.groups[gid].(memberIds := s.groups[gid].memberIds - {uid})]
                  && out.store.users == s.users[uid := s.users[uid].(groupIds := s.users[uid].groupIds - {gid})]
                  && out.store.userByName == s.userByName && out.store.groupByName == s.groupByName)
  {
  }

  /** Adding and removing a member undo each other, where it was not one before. */
  lemma MembershipRoundTrip(env: Env, s: Store, gid: Id, uid: Id)
    requires gid in s.groups && uid in s.users
    requires uid !in s.groups[gid].memberIds && gid !in s.users[uid].groupIds
    ensures Exec(env, Exec(env, s, AddMember(gid, uid)).store, RemoveMember(gid, uid)).store == s
  {
    AddMemberMeaning(env, s, gid, uid);
    var mid := Exec(env, s, AddMember(gid, uid)).store;
    RemoveMemberMeaning(env, mid, gid, uid);
    assert s.groups[gid].memberIds + {uid} - {uid} == s.groups[gid].memberIds;
    assert s.users[uid].groupIds + {gid} - {gid} == s.users[uid].groupIds;
    var after := Exec(env, mid, RemoveMember(gid, uid)).store;
    assert after.groups == s.groups && after.users == s.users;
  }

  // ------------------------------------------------------------- values in requests

  /** The id an element of a members value stands for: its "value" if it is an object that has one, else its text. */
  ghost predicate StandsFor(env: Env, v: Json, id: Id) {
    if v.Obj? && exists f :: f in v.fields && f.key == "value"
    then exists i :: 0 <= i < |v.fields| && v.fields[i] == Field("value", id) && forall k :: 0 <= k < i ==> v.fields[k].key != "value"
    else id == Str(env.str(v))
  }

  lemma {:induction false} LookupFirst(fields: seq<Field>, key: string)
    requires HasKey(fields, key)
    ensures exists i :: 0 <= i < |fields| && fields[i] == Field(key, Lookup(fields, key)) && forall k :: 0 <= k < i ==> fields[k].key != key
  {
    if fields[0].key == key {
      assert fields[0] == Field(key, Lookup(fields, key));
    } else {
      assert fields == [fields[0]] + fields[1..];
      LookupFirst(fields[1..], key);
      var i :| 0 <= i < |fields[1..]| && fields[1..][i] == Field(key, Lookup(fields[1..], key)) && forall k :: 0 <= k < i ==> fields[1..][k].key != key;
      assert fields[i + 1] == Field(key, Lookup(fields, key));
      forall k | 0 <= k < i + 1 ensures fields[k].key != key {
        if k > 0 { assert fields[k] == fields[1..][k - 1]; }
      }
    }
  }

  lemma MemberIdStands(env: Env, v: Json)
    ensures StandsFor(env, v, MemberId(env, v))
  {
    if v.Obj? && HasKey(v.fields, "value") {
      LookupFirst(v.fields, "value");
      var i :| 0 <= i < |v.fields| && v.fields[i].key == "value";
      assert v.fields[i] in v.fields;
    } else if v.Obj? {
      forall f | f in v.fields ensures f.key != "value" {
        var i :| 0 <= i < |v.fields| && v.fields[i] == f;
      }
    }
  }

  /** A single value counts as a list of one; nulls are passed over; a list or object cannot be an id. */
  lemma NamedIdsMeaning(env: Env, value: Json)
    ensures var raw := if value.List? then value.items else [value];
            match NamedIds(env, value)
            case None => exists v :: v in raw && v != Null && exists id :: StandsFor(env, v, id) && (id.List? || id.Obj?)
            case Some(ids) =>
              && (forall id :: id in ids ==> !id.List? && !id.Obj? && exists v :: v in raw && v != Null && StandsFor(env, v, id))
              && (forall v :: v in raw && v != Null ==> exists id :: id in ids && StandsFor(env, v, id))
  {
    forall v ensures StandsFor(env, v, MemberId(env, v)) { MemberIdStands(env, v); }
  }

  /** Each e-mail of a PATCH value: an object gives value, type (default "work") and primary (default false). */
  lemma {:induction false} EmailsMeaning(raw: seq<Json>)
    ensures match ToEmails(raw)
            case Err(e) => e == KeyError && exists i :: 0 <= i < |raw| && raw[i].Obj? && !HasKey(raw[i].fields, "value")
            case Ok(es) =>
              && |es| == |raw|
              && forall i :: 0 <= i < |raw| ==>
                   if !raw[i].Obj? then es[i] == RawEmail(raw[i])
                   else HasKey(raw[i].fields, "value") &&
                        es[i] == Email(Lookup(raw[i].fields, "value"),
                                       if HasKey(raw[i].fields, "type") then Lookup(raw[i].fields, "type") else Str("work"),
                                       if HasKey(raw[i].fields, "primary") then Lookup(raw[i].fields, "primary") else Bool(false))
  {
    if raw != [] {
      EmailsMeaning(raw[1..]);
      assert forall i :: 0 <= i < |raw[1..]| ==> raw[1..][i] == raw[i + 1];
    }
  }

  // ------------------------------------------------------------ errors of a group PATCH

  /** A members value that names something no id can be. */
  ghost predicate Unhashable(env: Env, name: string, value: Json) {
    !(value == Null && name == "remove") && NamedIds(env, value).None?
  }

  /** The error an operation of a group PATCH raises, from the request alone. */
  ghost function GroupOpError(env: Env, op: PatchOp): Option<Error> {
    var name, path := env.lower(op.op), env.lower(op.path);
    if name !in {"add", "remove", "replace"} then Some(InvalidValue)
    else if path == "" then
      if !op.value.Obj? then Some(InvalidValue)
      else if exists f :: f in op.value.fields && env.lower(f.key) == "members" && Unhashable(env, name, f.value) then Some(TypeError)
      else None
    else if path in {"members", "members.value"} then if Unhashable(env, name, op.value) then Some(TypeError) else None
    else if path == "displayname" then if name == "remove" then Some(Mutability) else None
    else if path == "externalid" then None
    else Some(InvalidValue)
  }

  ghost function FirstGroupError(env: Env, ops: seq<PatchOp>): Option<Error> {
    if ops == [] then None
    else if GroupOpError(env, ops[0]).Some? then GroupOpError(env, ops[0])
    else FirstGroupError(env, ops[1..])
  }

  /** The external id the operations ask for; removing it empties it. */
  function ItemsExternal(env: Env, external: string, fields: seq<Field>): string
    decreases |fields|
  {
    if fields == [] then external
    else ItemsExternal(env, if env.lower(fields[0].key) == "externalid" then env.str(fields[0].value) else external, fields[1..])
  }

  function External(env: Env, external: string, ops: seq<PatchOp>): string
    decreases |ops|
  {
    if ops == [] then external
    else
      var name, path := env.lower(ops[0].op), env.lower(ops[0].path);
      External(env,
        if path == "externalid" then (if name == "remove" then "" else env.str(ops[0].value))
        else if path == "" && ops[0].value.Obj? then ItemsExternal(env, external, ops[0].value.fields)
        else external, ops[1..])
  }

  lemma {:induction false} GroupItemsErrorIs(env: Env, gid: Id, d: Draft, name: string, fields: seq<Field>)
    ensures var r := RunGroupItems(env, gid, d, name, fields);
            && r.error == (if exists f :: f in fields && env.lower(f.key) == "members" && Unhashable(env, name, f.value)
                           then Some(TypeError) else None)
            && (r.error.None? ==> r.draft.external == ItemsExternal(env, d.external, fields))
    decreases |fields|
  {
    if fields != [] {
      var r := RunGroupItem(env, gid, d, name, fields[0]);
      assert fields == [fields[0]] + fields[1..];
      if r.error.None? { GroupItemsErrorIs(env, gid, r.draft, name, fields[1..]); } else { assert fields[0] in fields; }
    }
  }

  lemma GroupOpErrorIs(env: Env, gid: Id, d: Draft, op: PatchOp)
    ensures var r := RunGroupOp(env, gid, d, op);
            r.error == GroupOpError(env, op) && (r.error.None? ==> r.draft.external == External(env, d.external, [op]))
  {
    assert [op][1..] == [];
    if op.value.Obj? { GroupItemsErrorIs(env, gid, d, env.lower(op.op), op.value.fields); }
  }

  lemma {:induction false} GroupOpsErrorIs(env: Env, gid: Id, d: Draft, ops: seq<PatchOp>)
    ensures var r := RunGroupOps(env, gid, d, ops);
            r.error == FirstGroupError(env, ops) && (r.error.None? ==> r.draft.external == External(env, d.external, ops))
    decreases |ops|
  {
    if ops != [] {
      hide RunGroupOp, GroupOpError;
      GroupOpErrorIs(env, gid, d, ops[0]);
      assert [ops[0]][1..] == [];
      var r := RunGroupOp(env, gid, d, ops[0]);
      if r.error.None? {
        GroupOpsErrorIs(env, gid, r.draft, ops[1..]);
        assert External(env, d.external, ops) == External(env, External(env, d.external, [ops[0]]), ops[1..]);
      }
    }
  }

  /**
   A group PATCH raises the error of its first bad operation, or that of a taken name; when it
   succeeds the group has the display name and external id asked for last and keeps its roles.
   */
  lemma PatchGroupStores(env: Env, s: Store, id: Id, ops: seq<PatchOp>)
    requires Indexed(env, s)
    ensures var out := Exec(env, s, PatchGroup(id, ops));
            if id !in s.groups then out == Outcome(s, Some(NotFound))
            else
              var display := Display(env, s.groups[id].displayName, ops);
              && out.error == (if FirstGroupError(env, ops).Some? then FirstGroupError(env, ops)
                               else if GroupNameTaken(env, s, display, id) then Some(Uniqueness) else None)
              && (out.error.None? ==>
                    && OtherGroupsKept(s, out.store, id) && id in out.store.groups
                    && out.store.groups[id] == Group(id, display, External(env, s.groups[id].externalId, ops),
                                                     Fold(s.groups[id].memberIds, Edits(env, ops)), s.groups[id].roles))
  {
    hide FirstGroupError, Display, External, RunGroupOps, Edits, Fold, Indexed, GroupNameTaken;
    if id in s.groups {
      var d := DraftOf(s, s.groups[id]);
      GroupOpsErrorIs(env, id, d, ops);
      OpsMeaning(env, id, d, ops);
      RenamedGroupTaken(env, s, Display(env, s.groups[id].displayName, ops), id);
    }
  }
}
