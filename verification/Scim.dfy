/**
 The SCIM store as a transition function (aegis/auth/scim.py): two resource maps, two
 case-insensitive indexes, and a membership relation stored on both sides, with the PATCH rules
 of section 3.5.2 of RFC 7644.

 `lower` and `str` are Python's `str.lower` and `str`, taken as parameters. Timestamps and ETags
 are not modelled.
 */
module Scim {
  import opened Common

  /** A decoded JSON value; the fields of an object are in insertion order. */
  datatype Json =
    | Null | Bool(b: bool) | Num(n: int) | Str(s: string)
    | List(items: seq<Json>) | Obj(fields: seq<Field>)

  datatype Field = Field(key: string, value: Json)

  /** Ids are hashable values; the store creates strings, PATCH can name anything. */
  type Id = Json

  datatype Env = Env(lower: string -> string, str: Json -> string)

  datatype Email = Email(value: Json, kind: Json, primary: Json) | RawEmail(raw: Json)

  datatype User = User(
    id: Id, userName: string, displayName: string, active: bool, externalId: string,
    emails: seq<Email>, groupIds: set<Id>)

  datatype Group = Group(
    id: Id, displayName: string, externalId: string, memberIds: set<Id>, roles: set<string>)

  datatype Store = Store(
    users: map<Id, User>, groups: map<Id, Group>,
    userByName: map<string, Id>, groupByName: map<string, Id>)

  const EMPTY := Store(map[], map[], map[], map[])

  datatype Error = NotFound | Uniqueness | InvalidValue | Mutability | NoTarget | TypeError | KeyError

  datatype Outcome = Outcome(store: Store, error: Option<Error>)

  datatype PatchOp = PatchOp(op: string, path: string, value: Json)

  predicate HasKey(fields: seq<Field>, key: string) {
    exists i :: 0 <= i < |fields| && fields[i].key == key
  }

  function Lookup(fields: seq<Field>, key: string): Json
    requires HasKey(fields, key)
  {
    if fields[0].key == key then fields[0].value else Lookup(fields[1..], key)
  }

  function LookupOr(fields: seq<Field>, key: string, default: Json): Json {
    if HasKey(fields, key) then Lookup(fields, key) else default
  }

  predicate KnownOp(name: string) { name == "add" || name == "remove" || name == "replace" }

  // ------------------------------------------------------------- PATCH a user

  datatype Attrs = Attrs(userName: string, displayName: string, active: bool, externalId: string, emails: seq<Email>)

  function AttrsOf(u: User): Attrs { Attrs(u.userName, u.displayName, u.active, u.externalId, u.emails) }

  function AsList(v: Json): seq<Json> { if v.List? then v.items else [v] }

  function ToEmails(raw: seq<Json>): Result<seq<Email>, Error> {
    if raw == [] then Ok([])
    else if raw[0].Obj? && !HasKey(raw[0].fields, "value") then Err(KeyError)
    else match ToEmails(raw[1..])
      case Err(e) => Err(e)
      case Ok(rest) =>
        var first := if raw[0].Obj?
          then Email(Lookup(raw[0].fields, "value"),
                     LookupOr(raw[0].fields, "type", Str("work")),
                     LookupOr(raw[0].fields, "primary", Bool(false)))
          else RawEmail(raw[0]);
        Ok([first] + rest)
  }

  function ApplyUserOp(env: Env, a: Attrs, op: PatchOp): Result<Attrs, Error>
    decreases op.value, 1
  {
    var name, path := env.lower(op.op), env.lower(op.path);
    if !KnownOp(name) then Err(InvalidValue)
    else if name == "remove" && path == "" then Err(NoTarget)
    else if path == "" then
      if op.value.Obj? then ApplyUserItems(env, a, name, op.value.fields) else Err(InvalidValue)
    else if path == "active" then
      if name == "remove" then Err(Mutability)
      else if op.value.Bool? then Ok(a.(active := op.value.b))
      else if op.value.Str? then
        var s := env.lower(op.value.s);
        Ok(a.(active := s != "false" && s != "0" && s != "no"))
      else Err(InvalidValue)
    else if path == "displayname" then
      if name == "remove" then Err(Mutability) else Ok(a.(displayName := env.str(op.value)))
    else if path == "username" then
      if name == "remove" then Err(Mutability) else Ok(a.(userName := env.str(op.value)))
    else if path == "externalid" then
      Ok(a.(externalId := if name == "remove" then "" else env.str(op.value)))
    else if path == "emails" then
      if name == "remove" then Ok(a.(emails := []))
      else match ToEmails(AsList(op.value))
        case Err(e) => Err(e)
        case Ok(es) => Ok(a.(emails := if name == "replace" then es else a.emails + es))
    else Err(Mutability)
  }

  function ApplyUserItems(env: Env, a: Attrs, name: string, fields: seq<Field>): Result<Attrs, Error>
    decreases fields, 0
  {
    if fields == [] then Ok(a)
    else match ApplyUserOp(env, a, PatchOp(name, fields[0].key, fields[0].value))
      case Err(e) => Err(e)
      case Ok(b) => ApplyUserItems(env, b, name, fields[1..])
  }

  function ApplyUserOps(env: Env, a: Attrs, ops: seq<PatchOp>): Result<Attrs, Error>
    decreases |ops|
  {
    if ops == [] then Ok(a)
    else match ApplyUserOp(env, a, ops[0])
      case Err(e) => Err(e)
      case Ok(b) => ApplyUserOps(env, b, ops[1..])
  }

  // --------------------------------------------------------- PATCH memberships

  predicate Hashable(v: Json) { !v.List? && !v.Obj? }

  function MemberId(env: Env, v: Json): Json {
    if v.Obj? && HasKey(v.fields, "value") then Lookup(v.fields, "value") else Str(env.str(v))
  }

  /** The ids a members value names, or None when one of them cannot be put in a set. */
  function NamedIds(env: Env, value: Json): Option<set<Id>> {
    var raw := AsList(value);
    if exists v :: v in raw && v != Null && !Hashable(MemberId(env, v)) then None
    else Some(set v | v in raw && v != Null :: MemberId(env, v))
  }

  /** The id sets a member operation links and unlinks, or None for a TypeError. */
  function MemberDelta(env: Env, members: set<Id>, name: string, value: Json): Option<(set<Id>, set<Id>)> {
    if value == Null && name == "remove" then Some(({}, members))
    else match NamedIds(env, value)
      case None => None
      case Some(ids) =>
        if name == "add" then Some((ids - members, {}))
        else if name == "remove" then Some(({}, ids))
        else Some((ids - members, members - ids))
  }

  /** Give (`on`) or take the link to `gid` for every stored user in `ids`. */
  function SetLinks(users: map<Id, User>, ids: set<Id>, gid: Id, on: bool): map<Id, User> {
    map u | u in users ::
      if u !in ids then users[u]
      else users[u].(groupIds := if on then users[u].groupIds + {gid} else users[u].groupIds - {gid})
  }

  datatype Draft = Draft(users: map<Id, User>, members: set<Id>, display: string, external: string)
  datatype Run = Run(draft: Draft, error: Option<Error>)

  function PatchMembers(env: Env, gid: Id, d: Draft, name: string, value: Json): Run {
    match MemberDelta(env, d.members, name, value)
    case None => Run(d, Some(TypeError))
    case Some((add, rm)) =>
      Run(d.(users := SetLinks(SetLinks(d.users, add, gid, true), rm, gid, false),
             members := (d.members + add) - rm), None)
  }

  function RunGroupOp(env: Env, gid: Id, d: Draft, op: PatchOp): Run {
    var name, path := env.lower(op.op), env.lower(op.path);
    if !KnownOp(name) then Run(d, Some(InvalidValue))
    else if path == "" then
      if op.value.Obj? then RunGroupItems(env, gid, d, name, op.value.fields) else Run(d, Some(InvalidValue))
    else if path == "members" || path == "members.value" then PatchMembers(env, gid, d, name, op.value)
    else if path == "displayname" then
      if name == "remove" then Run(d, Some(Mutability)) else Run(d.(display := env.str(op.value)), None)
    else if path == "externalid" then
      Run(d.(external := if name == "remove" then "" else env.str(op.value)), None)
    else Run(d, Some(InvalidValue))
  }

  function RunGroupItem(env: Env, gid: Id, d: Draft, name: string, field: Field): Run {
    var key := env.lower(field.key);
    if key == "displayname" then Run(d.(display := env.str(field.value)), None)
    else if key == "externalid" then Run(d.(external := env.str(field.value)), None)
    else if key == "members" then PatchMembers(env, gid, d, name, field.value)
    else Run(d, None)
  }

  function RunGroupItems(env: Env, gid: Id, d: Draft, name: string, fields: seq<Field>): Run
    decreases |fields|
  {
    if fields == [] then Run(d, None)
    else
      var r := RunGroupItem(env, gid, d, name, fields[0]);
      if r.error.Some? then r else RunGroupItems(env, gid, r.draft, name, fields[1..])
  }

  function RunGroupOps(env: Env, gid: Id, d: Draft, ops: seq<PatchOp>): Run
    decreases |ops|
  {
    if ops == [] then Run(d, None)
    else
      var r := RunGroupOp(env, gid, d, ops[0]);
      if r.error.Some? then r else RunGroupOps(env, gid, r.draft, ops[1..])
  }

  function DraftOf(s: Store, g: Group): Draft { Draft(s.users, g.memberIds, g.displayName, g.externalId) }

  // -------------------------------------------------------------- the operations

  datatype Op =
    | CreateUser(id: Id, name: string, display: string, external: string, emails: seq<Email>, active: bool)
    | ReplaceUser(id: Id, name: string, display: string, external: string, emails: seq<Email>, active: bool)
    | PatchUser(id: Id, ops: seq<PatchOp>)
    | DeleteUser(id: Id)
    | CreateGroup(id: Id, name: string, external: string, roles: set<string>)
    | ReplaceGroup(id: Id, name: string, external: string, roles: set<string>)
    | PatchGroup(id: Id, ops: seq<PatchOp>)
    | DeleteGroup(id: Id)
    | AddMember(gid: Id, uid: Id)
    | RemoveMember(gid: Id, uid: Id)

  /** Move an index entry from key `old` to key `new`. */
  function Rekey(index: map<string, Id>, oldKey: string, newKey: string, id: Id): map<string, Id> {
    if newKey == oldKey then index else (index - {oldKey})[newKey := id]
  }

  function OrName(display: string, name: string): string { if display == "" then name else display }

  /** Store user `u` under a name that may have changed; 409 when the name is taken by another. */
  function PutUser(env: Env, s: Store, u: User): Outcome
    requires u.id in s.users
  {
    var newKey, oldKey := env.lower(u.userName), env.lower(s.users[u.id].userName);
    if newKey != oldKey && newKey in s.userByName then Outcome(s, Some(Uniqueness))
    else Outcome(s.(users := s.users[u.id := u], userByName := Rekey(s.userByName, oldKey, newKey, u.id)), None)
  }

  function PutGroup(env: Env, s: Store, g: Group): Outcome
    requires g.id in s.groups
  {
    var newKey, oldKey := env.lower(g.displayName), env.lower(s.groups[g.id].displayName);
    if newKey != oldKey && newKey in s.groupByName then Outcome(s, Some(Uniqueness))
    else Outcome(s.(groups := s.groups[g.id := g], groupByName := Rekey(s.groupByName, oldKey, newKey, g.id)), None)
  }

  function DropMember(groups: map<Id, Group>, ids: set<Id>, uid: Id): map<Id, Group> {
    map g | g in groups :: if g in ids then groups[g].(memberIds := groups[g].memberIds - {uid}) else groups[g]
  }

  function PatchGroupRun(env: Env, s: Store, id: Id, ops: seq<PatchOp>): Run
    requires id in s.groups
  {
    RunGroupOps(env, id, DraftOf(s, s.groups[id]), ops)
  }

  /** Users are relinked while the operations run, before it is known whether the PATCH succeeds. */
  function PatchGroupStep(env: Env, s: Store, id: Id, ops: seq<PatchOp>): Outcome
    requires id in s.groups
  {
    var r := PatchGroupRun(env, s, id, ops);
    var relinked := s.(users := r.draft.users);
    if r.error.Some? then Outcome(relinked, r.error)
    else PutGroup(env, relinked,
           Group(id, r.draft.display, r.draft.external, r.draft.members, s.groups[id].roles))
  }

  function AddUser(env: Env, s: Store, u: User): Outcome {
    var key := env.lower(u.userName);
    if key in s.userByName then Outcome(s, Some(Uniqueness))
    else Outcome(s.(users := s.users[u.id := u], userByName := s.userByName[key := u.id]), None)
  }

  function PatchUserStep(env: Env, s: Store, id: Id, ops: seq<PatchOp>): Outcome
    requires id in s.users
  {
    match ApplyUserOps(env, AttrsOf(s.users[id]), ops)
    case Err(e) => Outcome(s, Some(e))
    case Ok(a) =>
      PutUser(env, s, User(id, a.userName, a.displayName, a.active, a.externalId, a.emails, s.users[id].groupIds))
  }

  /** Soft delete: deactivate and leave every group. */
  function Deprovision(s: Store, id: Id): Store
    requires id in s.users
  {
    var u := s.users[id];
    s.(groups := DropMember(s.groups, u.groupIds, id), users := s.users[id := u.(active := false, groupIds := {})])
  }

  function AddGroup(env: Env, s: Store, g: Group): Outcome {
    var key := env.lower(g.displayName);
    if key in s.groupByName then Outcome(s, Some(Uniqueness))
    else Outcome(s.(groups := s.groups[g.id := g], groupByName := s.groupByName[key := g.id]), None)
  }

  function DropGroup(env: Env, s: Store, id: Id): Store
    requires id in s.groups
  {
    var g := s.groups[id];
    s.(users := SetLinks(s.users, g.memberIds, id, false),
       groups := s.groups - {id},
       groupByName := s.groupByName - {env.lower(g.displayName)})
  }

  /** Link (`on`) or unlink one user and one group, on both sides. */
  function SetMember(s: Store, gid: Id, uid: Id, on: bool): Store
    requires gid in s.groups
  {
    var g := s.groups[gid];
    s.(groups := s.groups[gid := g.(memberIds := if on then g.memberIds + {uid} else g.memberIds - {uid})],
       users := SetLinks(s.users, {uid}, gid, on))
  }

  function Exec(env: Env, s: Store, op: Op): Outcome {
    match op
    case CreateUser(id, name, display, external, emails, active) =>
      AddUser(env, s, User(id, name, OrName(display, name), active, external, emails, {}))
    case ReplaceUser(id, name, display, external, emails, active) =>
      if id !in s.users then Outcome(s, Some(NotFound))
      else PutUser(env, s, User(id, name, OrName(display, name), active, external, emails, s.users[id].groupIds))
    case PatchUser(id, ops) =>
      if id !in s.users then Outcome(s, Some(NotFound)) else PatchUserStep(env, s, id, ops)
    case DeleteUser(id) =>
      if id !in s.users then Outcome(s, Some(NotFound)) else Outcome(Deprovision(s, id), None)
    case CreateGroup(id, name, external, roles) => AddGroup(env, s, Group(id, name, external, {}, roles))
    case ReplaceGroup(id, name, external, roles) =>
      if id !in s.groups then Outcome(s, Some(NotFound))
      else PutGroup(env, s, Group(id, name, external, s.groups[id].memberIds, roles))
    case PatchGroup(id, ops) =>
      if id !in s.groups then Outcome(s, Some(NotFound)) else PatchGroupStep(env, s, id, ops)
    case DeleteGroup(id) =>
      if id !in s.groups then Outcome(s, Some(NotFound)) else Outcome(DropGroup(env, s, id), None)
    case AddMember(gid, uid) =>
      if gid !in s.groups || uid !in s.users then Outcome(s, Some(NotFound)) else Outcome(SetMember(s, gid, uid, true), None)
    case RemoveMember(gid, uid) =>
      if gid !in s.groups || uid !in s.users then Outcome(s, Some(NotFound)) else Outcome(SetMember(s, gid, uid, false), None)
  }

  /** A generated id occurs nowhere in the store, not even among members that name no stored user. */
  ghost predicate FreshId(s: Store, id: Id) {
    && id !in s.users && id !in s.groups
    && (forall u :: u in s.users ==> id !in s.users[u].groupIds)
    && (forall g :: g in s.groups ==> id !in s.groups[g].memberIds)
  }

  ghost predicate Fresh(s: Store, op: Op) {
    op.CreateUser? || op.CreateGroup? ==> FreshId(s, op.id)
  }
}
