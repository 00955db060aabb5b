/**
 What every operation of the SCIM store keeps, what PATCH means, and exactly when a failed
 group PATCH breaks the membership relation.
 */
module ScimInvariants {
  import opened Common
  import opened Scim

  // --------------------------------------------------------------- the invariants

  /** `index` is the exact inverse of `names`. */
  ghost predicate Inverse(names: map<Id, string>, index: map<string, Id>) {
    && (forall i :: i in names ==> names[i] in index && index[names[i]] == i)
    && (forall k :: k in index ==> index[k] in names && names[index[k]] == k)
  }

  function UserKeys(env: Env, users: map<Id, User>): map<Id, string> {
    map u | u in users :: env.lower(users[u].userName)
  }

  function GroupKeys(env: Env, groups: map<Id, Group>): map<Id, string> {
    map g | g in groups :: env.lower(groups[g].displayName)
  }

  /** Holds after every history, failed operations included. */
  ghost predicate Indexed(env: Env, s: Store) {
    && (forall u :: u in s.users ==> s.users[u].id == u)
    && (forall g :: g in s.groups ==> s.groups[g].id == g)
    && Inverse(UserKeys(env, s.users), s.userByName)
    && Inverse(GroupKeys(env, s.groups), s.groupByName)
  }

  /** Membership reads the same from both sides, and users name only live groups. */
  ghost predicate InSync(s: Store) {
    && (forall u :: u in s.users ==> s.users[u].groupIds <= s.groups.Keys)
    && (forall u, g :: u in s.users && g in s.groups ==>
          (g in s.users[u].groupIds <==> u in s.groups[g].memberIds))
  }

  // ---------------------------------------------------------------------- indexes

  lemma RekeyInverse(names: map<Id, string>, index: map<string, Id>, id: Id, newKey: string)
    requires Inverse(names, index) && id in names
    requires newKey == names[id] || newKey !in index
    ensures Inverse(names[id := newKey], Rekey(index, names[id], newKey, id))
  {
  }

  /** Only the link to `gid` may differ. */
  ghost predicate OnlyLink(before: map<Id, User>, after: map<Id, User>, gid: Id) {
    && before.Keys == after.Keys
    && forall u :: u in before ==>
         && after[u].groupIds - {gid} == before[u].groupIds - {gid}
         && after[u] == before[u].(groupIds := after[u].groupIds)
  }

  lemma SetLinksOnlyLink(users: map<Id, User>, ids: set<Id>, gid: Id, on: bool)
    ensures OnlyLink(users, SetLinks(users, ids, gid, on), gid)
  {
  }

  lemma OnlyLinkTrans(a: map<Id, User>, b: map<Id, User>, c: map<Id, User>, gid: Id)
    requires OnlyLink(a, b, gid) && OnlyLink(b, c, gid)
    ensures OnlyLink(a, c, gid)
  {
  }

  lemma PatchMembersOnlyLink(env: Env, gid: Id, d: Draft, name: string, value: Json)
    ensures OnlyLink(d.users, PatchMembers(env, gid, d, name, value).draft.users, gid)
  {
    var delta := MemberDelta(env, d.members, name, value);
    if delta.Some? {
      SetLinksOnlyLink(d.users, delta.value.0, gid, true);
      var mid := SetLinks(d.users, delta.value.0, gid, true);
      SetLinksOnlyLink(mid, delta.value.1, gid, false);
      OnlyLinkTrans(d.users, mid, SetLinks(mid, delta.value.1, gid, false), gid);
    }
  }

  /** For stored users, the link to `gid` says whether the draft has them as members. */
  ghost predicate DraftSynced(gid: Id, d: Draft) {
    forall u :: u in d.users ==> (gid in d.users[u].groupIds <==> u in d.members)
  }

  lemma PatchMembersSynced(env: Env, gid: Id, d: Draft, name: string, value: Json)
    requires DraftSynced(gid, d)
    ensures DraftSynced(gid, PatchMembers(env, gid, d, name, value).draft)
  {
  }

  ghost predicate RunKeeps(gid: Id, d: Draft, r: Run) {
    && OnlyLink(d.users, r.draft.users, gid)
    && (DraftSynced(gid, d) ==> DraftSynced(gid, r.draft))
  }

  lemma ItemKeeps(env: Env, gid: Id, d: Draft, name: string, field: Field)
    ensures RunKeeps(gid, d, RunGroupItem(env, gid, d, name, field))
  {
    var r := RunGroupItem(env, gid, d, name, field);
    if env.lower(field.key) == "members" {
      PatchMembersKeeps(env, gid, d, name, field.value);
      assert r == PatchMembers(env, gid, d, name, field.value);
    } else {
      assert r.draft.users == d.users && r.draft.members == d.members;
    }
  }

  lemma {:induction false} ItemsKeep(env: Env, gid: Id, d: Draft, name: string, fields: seq<Field>)
    ensures RunKeeps(gid, d, RunGroupItems(env, gid, d, name, fields))
    decreases |fields|
  {
    if fields != [] {
      var r := RunGroupItem(env, gid, d, name, fields[0]);
      ItemKeeps(env, gid, d, name, fields[0]);
      if r.error.None? {
        ItemsKeep(env, gid, r.draft, name, fields[1..]);
        OnlyLinkTrans(d.users, r.draft.users, RunGroupItems(env, gid, d, name, fields).draft.users, gid);
      }
    }
  }

  lemma PatchMembersKeeps(env: Env, gid: Id, d: Draft, name: string, value: Json)
    ensures RunKeeps(gid, d, PatchMembers(env, gid, d, name, value))
  {
    PatchMembersOnlyLink(env, gid, d, name, value);
    if DraftSynced(gid, d) { PatchMembersSynced(env, gid, d, name, value); }
  }

  lemma OpKeeps(env: Env, gid: Id, d: Draft, op: PatchOp)
    ensures RunKeeps(gid, d, RunGroupOp(env, gid, d, op))
  {
    var name, path := env.lower(op.op), env.lower(op.path);
    var r := RunGroupOp(env, gid, d, op);
    if KnownOp(name) && path == "" && op.value.Obj? {
      ItemsKeep(env, gid, d, name, op.value.fields);
      assert r == RunGroupItems(env, gid, d, name, op.value.fields);
    } else if KnownOp(name) && (path == "members" || path == "members.value") {
      PatchMembersKeeps(env, gid, d, name, op.value);
      assert r == PatchMembers(env, gid, d, name, op.value);
    } else {
      assert r.draft.users == d.users && r.draft.members == d.members;
    }
  }

  lemma {:induction false} OpsKeep(env: Env, gid: Id, d: Draft, ops: seq<PatchOp>)
    ensures RunKeeps(gid, d, RunGroupOps(env, gid, d, ops))
    decreases |ops|
  {
    if ops != [] {
      var r := RunGroupOp(env, gid, d, ops[0]);
      OpKeeps(env, gid, d, ops[0]);
      if r.error.None? {
        OpsKeep(env, gid, r.draft, ops[1..]);
        OnlyLinkTrans(d.users, r.draft.users, RunGroupOps(env, gid, d, ops).draft.users, gid);
      }
    }
  }

  lemma PutUserIndexed(env: Env, s: Store, u: User)
    requires Indexed(env, s) && u.id in s.users
    ensures Indexed(env, PutUser(env, s, u).store)
  {
    var newKey := env.lower(u.userName);
    var names := UserKeys(env, s.users);
    if newKey == names[u.id] || newKey !in s.userByName {
      RekeyInverse(names, s.userByName, u.id, newKey);
      assert UserKeys(env, s.users[u.id := u]) == names[u.id := newKey];
    }
  }

  lemma PutGroupIndexed(env: Env, s: Store, g: Group)
    requires Indexed(env, s) && g.id in s.groups
    ensures Indexed(env, PutGroup(env, s, g).store)
  {
    var newKey := env.lower(g.displayName);
    var names := GroupKeys(env, s.groups);
    if newKey == names[g.id] || newKey !in s.groupByName {
      RekeyInverse(names, s.groupByName, g.id, newKey);
      assert GroupKeys(env, s.groups[g.id := g]) == names[g.id := newKey];
    }
  }

  lemma RelinkIndexed(env: Env, s: Store, users: map<Id, User>, gid: Id)
    requires Indexed(env, s) && OnlyLink(s.users, users, gid)
    ensures Indexed(env, s.(users := users))
  {
  }

  lemma AddInverse(names: map<Id, string>, index: map<string, Id>, id: Id, key: string)
    requires Inverse(names, index) && id !in names && key !in index
    ensures Inverse(names[id := key], index[key := id])
  {
  }

  lemma DropInverse(names: map<Id, string>, index: map<string, Id>, id: Id)
    requires Inverse(names, index) && id in names
    ensures Inverse(names - {id}, index - {names[id]})
  {
  }

  lemma AddUserIndexed(env: Env, s: Store, u: User)
    requires Indexed(env, s) && u.id !in s.users
    ensures Indexed(env, AddUser(env, s, u).store)
  {
    var key := env.lower(u.userName);
    if key !in s.userByName {
      AddInverse(UserKeys(env, s.users), s.userByName, u.id, key);
      assert UserKeys(env, s.users[u.id := u]) == UserKeys(env, s.users)[u.id := key];
    }
  }

  lemma AddGroupIndexed(env: Env, s: Store, g: Group)
    requires Indexed(env, s) && g.id !in s.groups
    ensures Indexed(env, AddGroup(env, s, g).store)
  {
    var key := env.lower(g.displayName);
    if key !in s.groupByName {
      AddInverse(GroupKeys(env, s.groups), s.groupByName, g.id, key);
      assert GroupKeys(env, s.groups[g.id := g]) == GroupKeys(env, s.groups)[g.id := key];
    }
  }

  lemma DeprovisionIndexed(env: Env, s: Store, id: Id)
    requires Indexed(env, s) && id in s.users
    ensures Indexed(env, Deprovision(s, id))
  {
    var after := Deprovision(s, id);
    assert UserKeys(env, after.users) == UserKeys(env, s.users);
    assert GroupKeys(env, after.groups) == GroupKeys(env, s.groups);
  }

  lemma DropGroupIndexed(env: Env, s: Store, id: Id)
    requires Indexed(env, s) && id in s.groups
    ensures Indexed(env, DropGroup(env, s, id))
  {
    var after := DropGroup(env, s, id);
    var names := GroupKeys(env, s.groups);
    SetLinksOnlyLink(s.users, s.groups[id].memberIds, id, false);
    RelinkIndexed(env, s, after.users, id);
    DropInverse(names, s.groupByName, id);
    assert GroupKeys(env, after.groups) == names - {id};
  }

  lemma SetMemberIndexed(env: Env, s: Store, gid: Id, uid: Id, on: bool)
    requires Indexed(env, s) && gid in s.groups
    ensures Indexed(env, SetMember(s, gid, uid, on))
  {
    var after := SetMember(s, gid, uid, on);
    SetLinksOnlyLink(s.users, {uid}, gid, on);
    RelinkIndexed(env, s, after.users, gid);
    assert GroupKeys(env, after.groups) == GroupKeys(env, s.groups);
  }

  lemma PatchUserIndexed(env: Env, s: Store, id: Id, ops: seq<PatchOp>)
    requires Indexed(env, s) && id in s.users
    ensures Indexed(env, PatchUserStep(env, s, id, ops).store)
  {
    var r := ApplyUserOps(env, AttrsOf(s.users[id]), ops);
    if r.Ok? {
      var a := r.value;
      PutUserIndexed(env, s, User(id, a.userName, a.displayName, a.active, a.externalId, a.emails, s.users[id].groupIds));
    }
  }

  lemma PatchGroupIndexed(env: Env, s: Store, id: Id, ops: seq<PatchOp>)
    requires Indexed(env, s) && id in s.groups
    ensures Indexed(env, PatchGroupStep(env, s, id, ops).store)
  {
    var r := PatchGroupRun(env, s, id, ops);
    OpsKeep(env, id, DraftOf(s, s.groups[id]), ops);
    RelinkIndexed(env, s, r.draft.users, id);
    PutGroupIndexed(env, s.(users := r.draft.users),
      Group(id, r.draft.display, r.draft.external, r.draft.members, s.groups[id].roles));
  }

  /** The name indexes are exact inverses of the lower-cased names after every operation, failed or not. */
  lemma ExecIndexed(env: Env, s: Store, op: Op)
    requires Indexed(env, s) && Fresh(s, op)
    ensures Indexed(env, Exec(env, s, op).store)
  {
    assert Exec(env, s, op).store == s || Indexed(env, Exec(env, s, op).store) by {
      match op {
        case CreateUser(id, name, display, external, emails, active) =>
          AddUserIndexed(env, s, User(id, name, OrName(display, name), active, external, emails, {}));
        case ReplaceUser(id, name, display, external, emails, active) =>
          if id in s.users {
            PutUserIndexed(env, s, User(id, name, OrName(display, name), active, external, emails, s.users[id].groupIds));
          }
        case PatchUser(id, ops) => if id in s.users { PatchUserIndexed(env, s, id, ops); }
        case DeleteUser(id) => if id in s.users { DeprovisionIndexed(env, s, id); }
        case CreateGroup(id, name, external, roles) => AddGroupIndexed(env, s, Group(id, name, external, {}, roles));
        case ReplaceGroup(id, name, external, roles) =>
          if id in s.groups { PutGroupIndexed(env, s, Group(id, name, external, s.groups[id].memberIds, roles)); }
        case PatchGroup(id, ops) => if id in s.groups { PatchGroupIndexed(env, s, id, ops); }
        case DeleteGroup(id) => if id in s.groups { DropGroupIndexed(env, s, id); }
        case AddMember(gid, uid) => if gid in s.groups { SetMemberIndexed(env, s, gid, uid, true); }
        case RemoveMember(gid, uid) => if gid in s.groups { SetMemberIndexed(env, s, gid, uid, false); }
      }
    }
  }

  // ---------------------------------------------------------- meaning of group PATCH

  datatype Edit = Union(ids: set<Id>) | Difference(ids: set<Id>) | Everyone | Become(ids: set<Id>)

  function Meaning(members: set<Id>, e: Edit): set<Id> {
    match e
    case Union(ids) => members + ids
    case Difference(ids) => members - ids
    case Everyone => {}
    case Become(ids) => ids
  }

  function Fold(members: set<Id>, edits: seq<Edit>): set<Id>
    decreases |edits|
  {
    if edits == [] then members else Fold(Meaning(members, edits[0]), edits[1..])
  }

  /** The edit a members value asks for, whatever the group holds; none when the value is not a set of ids. */
  function EditFor(env: Env, name: string, value: Json): seq<Edit> {
    if value == Null && name == "remove" then [Everyone]
    else match NamedIds(env, value)
      case None => []
      case Some(ids) => [if name == "add" then Union(ids) else if name == "remove" then Difference(ids) else Become(ids)]
  }

  predicate ItemRefused(env: Env, name: string, f: Field) {
    env.lower(f.key) == "members" && EditFor(env, name, f.value) == []
  }

  /** Whether the request itself, whatever the store holds, makes an operation fail. */
  predicate OpRefused(env: Env, op: PatchOp) {
    var name, path := env.lower(op.op), env.lower(op.path);
    if !KnownOp(name) then true
    else if path == "" then !op.value.Obj? || exists f :: f in op.value.fields && ItemRefused(env, name, f)
    else if path == "members" || path == "members.value" then EditFor(env, name, op.value) == []
    else if path == "displayname" then name == "remove"
    else path != "externalid"
  }

  /** The edits that run, up to the first refusal. */
  function ItemEdits(env: Env, name: string, fields: seq<Field>): seq<Edit> {
    if fields == [] || ItemRefused(env, name, fields[0]) then []
    else
      var first := if env.lower(fields[0].key) == "members" then EditFor(env, name, fields[0].value) else [];
      first + ItemEdits(env, name, fields[1..])
  }

  function OpEdits(env: Env, op: PatchOp): seq<Edit> {
    var name, path := env.lower(op.op), env.lower(op.path);
    if !KnownOp(name) then []
    else if path == "members" || path == "members.value" then EditFor(env, name, op.value)
    else if path == "" && op.value.Obj? then ItemEdits(env, name, op.value.fields)
    else []
  }

  function Edits(env: Env, ops: seq<PatchOp>): seq<Edit> {
    if ops == [] then []
    else if OpRefused(env, ops[0]) then OpEdits(env, ops[0])
    else OpEdits(env, ops[0]) + Edits(env, ops[1..])
  }

  /** The display name the operations ask for. */
  function ItemsDisplay(env: Env, display: string, fields: seq<Field>): string
    decreases |fields|
  {
    if fields == [] then display
    else ItemsDisplay(env, if env.lower(fields[0].key) == "displayname" then env.str(fields[0].value) else display, fields[1..])
  }

  function Display(env: Env, display: string, ops: seq<PatchOp>): string
    decreases |ops|
  {
    if ops == [] then display
    else
      var path := env.lower(ops[0].path);
      Display(env,
        if path == "displayname" then env.str(ops[0].value)
        else if path == "" && ops[0].value.Obj? then ItemsDisplay(env, display, ops[0].value.fields)
        else display, ops[1..])
  }

  lemma {:induction false} FoldAppend(members: set<Id>, a: seq<Edit>, b: seq<Edit>)
    ensures Fold(members, a + b) == Fold(Fold(members, a), b)
    decreases |a|
  {
    if a == [] {
      assert a + b == b;
    } else {
      assert (a + b)[0] == a[0] && (a + b)[1..] == a[1..] + b;
      FoldAppend(Meaning(members, a[0]), a[1..], b);
    }
  }

  /** A run from draft `d` failed exactly if `refused`, and did exactly `edits` to the members. */
  ghost predicate Did(d: Draft, r: Run, refused: bool, edits: seq<Edit>, display: string) {
    && (r.error.Some? <==> refused)
    && r.draft.members == Fold(d.members, edits)
    && (edits == [] ==> r.draft.users == d.users)
    && (!refused ==> r.draft.display == display)
  }

  lemma MemberEditMeaning(env: Env, gid: Id, d: Draft, name: string, value: Json)
    requires KnownOp(name)
    ensures Did(d, PatchMembers(env, gid, d, name, value), EditFor(env, name, value) == [], EditFor(env, name, value), d.display)
  {
  }

  lemma DidThen(d: Draft, r: Run, edits: seq<Edit>, display: string, q: Run, refused: bool, more: seq<Edit>, final: string)
    requires Did(d, r, false, edits, display) && Did(r.draft, q, refused, more, final)
    ensures Did(d, q, refused, edits + more, final)
  {
    FoldAppend(d.members, edits, more);
  }

  lemma {:induction false} ItemsMeaning(env: Env, gid: Id, d: Draft, name: string, fields: seq<Field>)
    requires KnownOp(name)
    ensures Did(d, RunGroupItems(env, gid, d, name, fields), exists f :: f in fields && ItemRefused(env, name, f),
                ItemEdits(env, name, fields), ItemsDisplay(env, d.display, fields))
    decreases |fields|
  {
    if fields != [] {
      hide PatchMembers, EditFor;
      var f := fields[0];
      var r := RunGroupItem(env, gid, d, name, f);
      MemberEditMeaning(env, gid, d, name, f.value);
      if ItemRefused(env, name, f) {
        assert f in fields && r.error.Some?;
      } else {
        var first := if env.lower(f.key) == "members" then EditFor(env, name, f.value) else [];
        var shown := if env.lower(f.key) == "displayname" then env.str(f.value) else d.display;
        assert Did(d, r, false, first, shown);
        ItemsMeaning(env, gid, r.draft, name, fields[1..]);
        var refused := exists g :: g in fields[1..] && ItemRefused(env, name, g);
        assert fields == [f] + fields[1..];
        assert refused <==> exists g :: g in fields && ItemRefused(env, name, g);
        DidThen(d, r, first, shown, RunGroupItems(env, gid, d, name, fields), refused,
                ItemEdits(env, name, fields[1..]), ItemsDisplay(env, shown, fields[1..]));
      }
    }
  }

  lemma OpMeaning(env: Env, gid: Id, d: Draft, op: PatchOp)
    ensures Did(d, RunGroupOp(env, gid, d, op), OpRefused(env, op), OpEdits(env, op), Display(env, d.display, [op]))
  {
    hide PatchMembers, EditFor, RunGroupItems, ItemEdits, ItemsDisplay;
    var name := env.lower(op.op);
    assert [op][1..] == [];
    if KnownOp(name) {
      MemberEditMeaning(env, gid, d, name, op.value);
      if op.value.Obj? { ItemsMeaning(env, gid, d, name, op.value.fields); }
    }
  }

  /** What the operations of a group PATCH do, whether or not they all succeed. */
  lemma {:induction false} OpsMeaning(env: Env, gid: Id, d: Draft, ops: seq<PatchOp>)
    ensures Did(d, RunGroupOps(env, gid, d, ops), exists op :: op in ops && OpRefused(env, op),
                Edits(env, ops), Display(env, d.display, ops))
    decreases |ops|
  {
    if ops != [] {
      hide RunGroupOp, OpRefused, OpEdits;
      var op := ops[0];
      var r := RunGroupOp(env, gid, d, op);
      OpMeaning(env, gid, d, op);
      if OpRefused(env, op) {
        assert op in ops;
      } else {
        assert [op][1..] == [];
        var shown := Display(env, d.display, [op]);
        OpsMeaning(env, gid, r.draft, ops[1..]);
        var refused := exists p :: p in ops[1..] && OpRefused(env, p);
        assert ops == [op] + ops[1..];
        assert refused <==> exists p :: p in ops && OpRefused(env, p);
        assert Display(env, d.display, ops) == Display(env, shown, ops[1..]);
        DidThen(d, r, OpEdits(env, op), shown, RunGroupOps(env, gid, d, ops), refused,
                Edits(env, ops[1..]), Display(env, shown, ops[1..]));
      }
    }
  }

  /** A refused operation, or a new display name that another group has. */
  predicate PatchFails(env: Env, s: Store, id: Id, ops: seq<PatchOp>)
    requires id in s.groups
  {
    var key := env.lower(Display(env, s.groups[id].displayName, ops));
    || (exists op :: op in ops && OpRefused(env, op))
    || (key != env.lower(s.groups[id].displayName) && key in s.groupByName)
  }

  /** Read off the request and the store beforehand: exactly when a group PATCH fails. */
  lemma PatchFailsIff(env: Env, s: Store, id: Id, ops: seq<PatchOp>)
    ensures Exec(env, s, PatchGroup(id, ops)).error.Some? <==> id !in s.groups || PatchFails(env, s, id, ops)
  {
    hide OpRefused, Display, RunGroupOps, Edits;
    if id in s.groups { OpsMeaning(env, id, DraftOf(s, s.groups[id]), ops); }
  }

  // ------------------------------------------------------------------ memberships

  /** Among stored users, the edits that run change no membership on balance. */
  ghost predicate NoStoredChange(env: Env, s: Store, id: Id, ops: seq<PatchOp>)
    requires id in s.groups
  {
    var members := s.groups[id].memberIds;
    forall u :: u in s.users ==> (u in Fold(members, Edits(env, ops)) <==> u in members)
  }

  /** Not a group PATCH that fails after changing the membership of a stored user. */
  ghost predicate Harmless(env: Env, s: Store, op: Op) {
    op.PatchGroup? && op.id in s.groups && PatchFails(env, s, op.id, op.ops) ==> NoStoredChange(env, s, op.id, op.ops)
  }

  /** Users relinked to `members`, and group `gid` stored as `g`: in sync iff `g` lists the same stored users. */
  lemma RelinkSync(s: Store, users: map<Id, User>, gid: Id, members: set<Id>, g: Group, after: Store)
    requires InSync(s) && gid in s.groups && OnlyLink(s.users, users, gid)
    requires forall u :: u in users ==> (gid in users[u].groupIds <==> u in members)
    requires after.users == users && after.groups == s.groups[gid := g]
    ensures InSync(after) <==> forall u :: u in s.users ==> (u in members <==> u in g.memberIds)
  {
    forall u | u in users ensures users[u].groupIds <= after.groups.Keys {
      assert users[u].groupIds <= (s.users[u].groupIds - {gid}) + {gid} by {
        assert users[u].groupIds <= (users[u].groupIds - {gid}) + {gid};
      }
    }
    forall u, h | u in users && h in after.groups && h != gid
      ensures h in users[u].groupIds <==> u in after.groups[h].memberIds
    {
      assert h in users[u].groupIds - {gid} <==> h in s.users[u].groupIds - {gid};
    }
    if forall u :: u in s.users ==> (u in members <==> u in g.memberIds) {
      assert InSync(after);
    } else {
      var u :| u in s.users && !(u in members <==> u in g.memberIds);
      assert u in after.users && gid in after.groups && !(gid in after.users[u].groupIds <==> u in after.groups[gid].memberIds);
    }
  }

  lemma PatchGroupShape(env: Env, s: Store, id: Id, ops: seq<PatchOp>)
    requires id in s.groups
    ensures var run := PatchGroupRun(env, s, id, ops);
            var out := PatchGroupStep(env, s, id, ops);
            && out == Exec(env, s, PatchGroup(id, ops))
            && out.store.users == run.draft.users
            && (out.error.Some? ==> out.store.groups == s.groups)
            && (out.error.None? ==>
                  && id in out.store.groups && out.store.groups[id].memberIds == run.draft.members
                  && out.store.groups == s.groups[id := out.store.groups[id]])
  {
  }

  lemma RunSynced(env: Env, s: Store, id: Id, ops: seq<PatchOp>)
    requires InSync(s) && id in s.groups
    ensures var d := PatchGroupRun(env, s, id, ops).draft;
            OnlyLink(s.users, d.users, id) && DraftSynced(id, d)
  {
    var d := DraftOf(s, s.groups[id]);
    assert DraftSynced(id, d);
    OpsKeep(env, id, d, ops);
  }

  lemma PatchGroupSync(env: Env, s: Store, id: Id, ops: seq<PatchOp>)
    requires InSync(s) && id in s.groups
    ensures InSync(PatchGroupStep(env, s, id, ops).store) <==> Harmless(env, s, PatchGroup(id, ops))
  {
    hide PatchFails, Edits, Fold;
    RunSynced(env, s, id, ops);
    PatchGroupShape(env, s, id, ops);
    PatchFailsIff(env, s, id, ops);
    OpsMeaning(env, id, DraftOf(s, s.groups[id]), ops);
    var d := PatchGroupRun(env, s, id, ops).draft;
    var out := PatchGroupStep(env, s, id, ops);
    if out.error.Some? {
      RelinkSync(s, d.users, id, d.members, s.groups[id], out.store);
    } else {
      RelinkSync(s, d.users, id, d.members, out.store.groups[id], out.store);
    }
  }

  /** An operation on a store in sync leaves it in sync exactly when it is harmless. */
  lemma SyncIffHarmless(env: Env, s: Store, op: Op)
    requires Indexed(env, s) && InSync(s) && Fresh(s, op)
    ensures InSync(Exec(env, s, op).store) <==> Harmless(env, s, op)
  {
    if op.PatchGroup? {
      if op.id in s.groups { PatchGroupSync(env, s, op.id, op.ops); }
    } else {
      OtherOpsSync(env, s, op);
    }
  }

  lemma PutUserSync(env: Env, s: Store, u: User)
    requires InSync(s) && u.id in s.users && u.groupIds == s.users[u.id].groupIds
    ensures InSync(PutUser(env, s, u).store)
  {
  }

  lemma PutGroupSync(env: Env, s: Store, g: Group)
    requires InSync(s) && g.id in s.groups && g.memberIds == s.groups[g.id].memberIds
    ensures InSync(PutGroup(env, s, g).store)
  {
  }

  lemma AddUserSync(env: Env, s: Store, u: User)
    requires InSync(s) && FreshId(s, u.id) && u.groupIds == {}
    ensures InSync(AddUser(env, s, u).store)
  {
  }

  lemma AddGroupSync(env: Env, s: Store, g: Group)
    requires InSync(s) && FreshId(s, g.id) && g.memberIds == {}
    ensures InSync(AddGroup(env, s, g).store)
  {
  }

  lemma DeprovisionSync(s: Store, id: Id)
    requires InSync(s) && id in s.users
    ensures InSync(Deprovision(s, id))
  {
  }

  lemma DropGroupSync(env: Env, s: Store, id: Id)
    requires InSync(s) && id in s.groups
    ensures InSync(DropGroup(env, s, id))
  {
  }

  lemma SetMemberSync(s: Store, gid: Id, uid: Id, on: bool)
    requires InSync(s) && gid in s.groups && uid in s.users
    ensures InSync(SetMember(s, gid, uid, on))
  {
  }

  lemma OtherOpsSync(env: Env, s: Store, op: Op)
    requires InSync(s) && Fresh(s, op) && !op.PatchGroup?
    ensures InSync(Exec(env, s, op).store)
  {
    assert Exec(env, s, op).store == s || InSync(Exec(env, s, op).store) by {
      match op {
        case CreateUser(id, name, display, external, emails, active) =>
          AddUserSync(env, s, User(id, name, OrName(display, name), active, external, emails, {}));
        case ReplaceUser(id, name, display, external, emails, active) =>
          if id in s.users {
            PutUserSync(env, s, User(id, name, OrName(display, name), active, external, emails, s.users[id].groupIds));
          }
        case PatchUser(id, ops) =>
          if id in s.users {
            var r := ApplyUserOps(env, AttrsOf(s.users[id]), ops);
            if r.Ok? {
              var a := r.value;
              PutUserSync(env, s, User(id, a.userName, a.displayName, a.active, a.externalId, a.emails, s.users[id].groupIds));
            }
          }
        case DeleteUser(id) => if id in s.users { DeprovisionSync(s, id); }
        case CreateGroup(id, name, external, roles) => AddGroupSync(env, s, Group(id, name, external, {}, roles));
        case ReplaceGroup(id, name, external, roles) =>
          if id in s.groups { PutGroupSync(env, s, Group(id, name, external, s.groups[id].memberIds, roles)); }
        case DeleteGroup(id) => if id in s.groups { DropGroupSync(env, s, id); }
        case AddMember(gid, uid) => if gid in s.groups && uid in s.users { SetMemberSync(s, gid, uid, true); }
        case RemoveMember(gid, uid) => if gid in s.groups && uid in s.users { SetMemberSync(s, gid, uid, false); }
      }
    }
  }

  ghost predicate Behaved(env: Env, s: Store, history: seq<Op>)
    decreases |history|
  {
    history == [] ||
    (Fresh(s, history[0]) && Harmless(env, s, history[0]) && Behaved(env, Exec(env, s, history[0]).store, history[1..]))
  }

  function After(env: Env, s: Store, history: seq<Op>): Store
    decreases |history|
  {
    if history == [] then s else After(env, Exec(env, s, history[0]).store, history[1..])
  }

  lemma {:induction false} HistoryKeeps(env: Env, s: Store, history: seq<Op>)
    requires Indexed(env, s) && InSync(s) && Behaved(env, s, history)
    ensures Indexed(env, After(env, s, history)) && InSync(After(env, s, history))
    decreases |history|
  {
    if history != [] {
      ExecIndexed(env, s, history[0]);
      SyncIffHarmless(env, s, history[0]);
      HistoryKeeps(env, Exec(env, s, history[0]).store, history[1..]);
    }
  }

  /** Every history of successful (or harmlessly failing) operations from the empty store. */
  lemma StoreInvariant(env: Env, history: seq<Op>)
    requires Behaved(env, EMPTY, history)
    ensures Indexed(env, After(env, EMPTY, history)) && InSync(After(env, EMPTY, history))
  {
    HistoryKeeps(env, EMPTY, history);
  }

  // ------------------------------------------------------------ failed operations

  /** Every operation but a group PATCH is all-or-nothing, in particular the whole list of a user PATCH. */
  lemma AllOrNothing(env: Env, s: Store, op: Op)
    requires !op.PatchGroup?
    ensures Exec(env, s, op).error.Some? ==> Exec(env, s, op).store == s
  {
  }

  /**
   A failed group PATCH keeps the groups and both indexes, and can change users only in their
   link to that group, and then only if a members edit ran before the failure.
   */
  lemma FailedPatchGroup(env: Env, s: Store, id: Id, ops: seq<PatchOp>)
    requires Exec(env, s, PatchGroup(id, ops)).error.Some?
    ensures var after := Exec(env, s, PatchGroup(id, ops)).store;
            && after.groups == s.groups && after.userByName == s.userByName && after.groupByName == s.groupByName
            && OnlyLink(s.users, after.users, id)
            && (Edits(env, ops) == [] ==> after == s)
  {
    if id in s.groups {
      PatchGroupShape(env, s, id, ops);
      OpsKeep(env, id, DraftOf(s, s.groups[id]), ops);
      OpsMeaning(env, id, DraftOf(s, s.groups[id]), ops);
    }
  }

  /** A one-element value names one id. */
  lemma OneNamedId(env: Env, v: string)
    requires env.str(Str(v)) == v
    ensures NamedIds(env, Str(v)) == Some({Str(v)})
  {
    assert AsList(Str(v)) == [Str(v)] && MemberId(env, Str(v)) == Str(v);
    assert (set x | x in AsList(Str(v)) && x != Null :: MemberId(env, x)) == {Str(v)};
  }

  /** Adding a stored non-member and then failing leaves a run whose members have changed. */
  lemma AddThenFailRun(env: Env, gid: Id, d: Draft, v: string)
    requires env.lower("add") == "add" && env.lower("members") == "members"
    requires env.lower("remove") == "remove" && env.lower("displayName") == "displayname"
    requires env.str(Str(v)) == v
    ensures var r := RunGroupOps(env, gid, d, [PatchOp("add", "members", Str(v)), PatchOp("remove", "displayName", Null)]);
            r.error == Some(Mutability) && r.draft.members == d.members + {Str(v)}
  {
    var add, bad := PatchOp("add", "members", Str(v)), PatchOp("remove", "displayName", Null);
    OneNamedId(env, v);
    var r := RunGroupOp(env, gid, d, add);
    assert r == PatchMembers(env, gid, d, "add", Str(v));
    var ops := [add, bad];
    assert ops[1..] == [bad];
    assert RunGroupOp(env, gid, r.draft, bad) == Run(r.draft, Some(Mutability));
    assert RunGroupOps(env, gid, r.draft, ops[1..]) == Run(r.draft, Some(Mutability));
  }

  lemma FailedRunBreaksSync(env: Env, s: Store, gid: Id, ops: seq<PatchOp>, u: Id)
    requires InSync(s) && gid in s.groups && u in s.users
    requires var r := RunGroupOps(env, gid, DraftOf(s, s.groups[gid]), ops);
             r.error.Some? && (u in r.draft.members <==> u !in s.groups[gid].memberIds)
    ensures var out := Exec(env, s, PatchGroup(gid, ops));
            out.error == RunGroupOps(env, gid, DraftOf(s, s.groups[gid]), ops).error && !InSync(out.store)
  {
    hide RunGroupOps, Edits, Fold, PatchFails;
    PatchGroupSync(env, s, gid, ops);
    PatchGroupShape(env, s, gid, ops);
    PatchFailsIff(env, s, gid, ops);
    OpsMeaning(env, gid, DraftOf(s, s.groups[gid]), ops);
  }

  /**
   A failing PATCH that breaks the relation, on every store in sync that has a user outside a
   group: add that user, then try to remove the display name. The user is left linked to a
   group that does not list it.
   */
  lemma FailedPatchBreaksSync(env: Env, s: Store, gid: Id, v: string)
    requires env.lower("add") == "add" && env.lower("members") == "members"
    requires env.lower("remove") == "remove" && env.lower("displayName") == "displayname"
    requires env.str(Str(v)) == v
    requires InSync(s) && gid in s.groups && Str(v) in s.users && Str(v) !in s.groups[gid].memberIds
    ensures var ops := [PatchOp("add", "members", Str(v)), PatchOp("remove", "displayName", Null)];
            var out := Exec(env, s, PatchGroup(gid, ops));
            out.error == Some(Mutability) && !InSync(out.store)
  {
    AddThenFailRun(env, gid, DraftOf(s, s.groups[gid]), v);
    FailedRunBreaksSync(env, s, gid, [PatchOp("add", "members", Str(v)), PatchOp("remove", "displayName", Null)], Str(v));
  }

  /**
   What a group PATCH leaves, failed or not: the users are linked as the left fold of union,
   difference and replacement over the old members says, and only a success stores that fold in
   the group.
   */
  lemma PatchGroupMeaning(env: Env, s: Store, id: Id, ops: seq<PatchOp>)
    requires id in s.groups
    ensures var out := Exec(env, s, PatchGroup(id, ops));
            var members := Fold(s.groups[id].memberIds, Edits(env, ops));
            && out.store.groups.Keys == s.groups.Keys
            && out.store.groups[id].memberIds == (if out.error.None? then members else s.groups[id].memberIds)
            && (forall g :: g in s.groups && g != id ==> out.store.groups[g] == s.groups[g])
            && OnlyLink(s.users, out.store.users, id)
            && (InSync(s) ==> forall u :: u in s.users ==> (id in out.store.users[u].groupIds <==> u in members))
  {
    hide Edits, Fold, RunGroupOps;
    PatchGroupShape(env, s, id, ops);
    var d := DraftOf(s, s.groups[id]);
    OpsMeaning(env, id, d, ops);
    OpsKeep(env, id, d, ops);
    if InSync(s) {
      assert DraftSynced(id, d);
    }
  }
}
