/**
 What a user PATCH means: path-less objects flatten into assignments of one attribute each, and
 every attribute ends as the last of its own assignments says, whatever the others do.
 */
module ScimUserPatch {
  import opened Common
  import opened Scim

  /** An assignment of one attribute; `name` and `path` are lower-cased. */
  datatype Assign = Assign(name: string, path: string, value: Json)

  function Assigns(env: Env, op: PatchOp): seq<Assign>
    decreases op.value, 1
  {
    var name, path := env.lower(op.op), env.lower(op.path);
    if path == "" && op.value.Obj? then ItemAssigns(env, name, op.value.fields) else [Assign(name, path, op.value)]
  }

  function ItemAssigns(env: Env, name: string, fields: seq<Field>): seq<Assign>
    decreases fields, 0
  {
    if fields == [] then []
    else Assigns(env, PatchOp(name, fields[0].key, fields[0].value)) + ItemAssigns(env, name, fields[1..])
  }

  function AllAssigns(env: Env, ops: seq<PatchOp>): seq<Assign> {
    if ops == [] then [] else Assigns(env, ops[0]) + AllAssigns(env, ops[1..])
  }

  // ------------------------------------------------------- the attributes, read from the end

  function LastText(env: Env, log: seq<Assign>, path: string, start: string): string {
    if log == [] then start
    else
      var last := log[|log| - 1];
      if last.path == path then (if last.name == "remove" then "" else env.str(last.value))
      else LastText(env, log[..|log| - 1], path, start)
  }

  /** A boolean, or any text but "false", "0" and "no". */
  function Truth(env: Env, v: Json): bool {
    match v
    case Bool(b) => b
    case Str(s) => env.lower(s) !in {"false", "0", "no"}
    case _ => false
  }

  function LastActive(env: Env, log: seq<Assign>, start: bool): bool {
    if log == [] then start
    else
      var last := log[|log| - 1];
      if last.path == "active" then Truth(env, last.value) else LastActive(env, log[..|log| - 1], start)
  }

  function EmailsIn(v: Json): seq<Email> {
    match ToEmails(AsList(v))
    case Ok(es) => es
    case Err(_) => []
  }

  /** Additions since the last replacement or removal, in order. */
  function LastEmails(log: seq<Assign>, start: seq<Email>): seq<Email> {
    if log == [] then start
    else
      var last := log[|log| - 1];
      var before := log[..|log| - 1];
      if last.path != "emails" then LastEmails(before, start)
      else if last.name == "remove" then []
      else if last.name == "replace" then EmailsIn(last.value)
      else LastEmails(before, start) + EmailsIn(last.value)
  }

  function Assigned(env: Env, a: Attrs, log: seq<Assign>): Attrs {
    Attrs(LastText(env, log, "username", a.userName), LastText(env, log, "displayname", a.displayName),
          LastActive(env, log, a.active), LastText(env, log, "externalid", a.externalId), LastEmails(log, a.emails))
  }

  // ------------------------------------------------------------------------- composition

  lemma {:induction false} LastTextAppend(env: Env, a: seq<Assign>, b: seq<Assign>, path: string, start: string)
    ensures LastText(env, a + b, path, start) == LastText(env, b, path, LastText(env, a, path, start))
    decreases |b|
  {
    if b == [] {
      assert a + b == a;
    } else {
      assert (a + b)[..|a + b| - 1] == a + b[..|b| - 1];
      LastTextAppend(env, a, b[..|b| - 1], path, start);
    }
  }

  lemma {:induction false} LastActiveAppend(env: Env, a: seq<Assign>, b: seq<Assign>, start: bool)
    ensures LastActive(env, a + b, start) == LastActive(env, b, LastActive(env, a, start))
    decreases |b|
  {
    if b == [] {
      assert a + b == a;
    } else {
      assert (a + b)[..|a + b| - 1] == a + b[..|b| - 1];
      LastActiveAppend(env, a, b[..|b| - 1], start);
    }
  }

  lemma {:induction false} LastEmailsAppend(a: seq<Assign>, b: seq<Assign>, start: seq<Email>)
    ensures LastEmails(a + b, start) == LastEmails(b, LastEmails(a, start))
    decreases |b|
  {
    if b == [] {
      assert a + b == a;
    } else {
      assert (a + b)[..|a + b| - 1] == a + b[..|b| - 1];
      LastEmailsAppend(a, b[..|b| - 1], start);
    }
  }

  lemma AssignedAppend(env: Env, a: Attrs, x: seq<Assign>, y: seq<Assign>)
    ensures Assigned(env, a, x + y) == Assigned(env, Assigned(env, a, x), y)
  {
    LastTextAppend(env, x, y, "username", a.userName);
    LastTextAppend(env, x, y, "displayname", a.displayName);
    LastTextAppend(env, x, y, "externalid", a.externalId);
    LastActiveAppend(env, x, y, a.active);
    LastEmailsAppend(x, y, a.emails);
  }

  lemma OneText(env: Env, one: Assign, path: string, start: string)
    ensures LastText(env, [one], path, start)
         == if one.path != path then start else if one.name == "remove" then "" else env.str(one.value)
  {
  }

  lemma OneAssign(env: Env, a: Attrs, op: PatchOp)
    requires env.lower(op.path) != "" && ApplyUserOp(env, a, op).Ok?
    ensures ApplyUserOp(env, a, op).value == Assigned(env, a, Assigns(env, op))
  {
    var name, path := env.lower(op.op), env.lower(op.path);
    var one := Assign(name, path, op.value);
    assert Assigns(env, op) == [one] && [one][..0] == [];
    OneText(env, one, "username", a.userName);
    OneText(env, one, "displayname", a.displayName);
    OneText(env, one, "externalid", a.externalId);
    assert LastActive(env, [one], a.active) == if path == "active" then Truth(env, op.value) else a.active;
    assert LastEmails([one], a.emails)
        == if path != "emails" then a.emails
           else if name == "remove" then [] else if name == "replace" then EmailsIn(op.value)
           else LastEmails([], a.emails) + EmailsIn(op.value);
  }

  lemma {:induction false} OpAssigns(env: Env, a: Attrs, op: PatchOp)
    requires ApplyUserOp(env, a, op).Ok?
    ensures ApplyUserOp(env, a, op).value == Assigned(env, a, Assigns(env, op))
    decreases op.value, 1
  {
    hide Assigned;
    if env.lower(op.path) == "" {
      ItemsAssign(env, a, env.lower(op.op), op.value.fields);
    } else {
      OneAssign(env, a, op);
    }
  }

  lemma {:induction false} ItemsAssign(env: Env, a: Attrs, name: string, fields: seq<Field>)
    requires ApplyUserItems(env, a, name, fields).Ok?
    ensures ApplyUserItems(env, a, name, fields).value == Assigned(env, a, ItemAssigns(env, name, fields))
    decreases fields, 0
  {
    if fields != [] {
      hide Assigned;
      var op := PatchOp(name, fields[0].key, fields[0].value);
      var b := ApplyUserOp(env, a, op).value;
      OpAssigns(env, a, op);
      ItemsAssign(env, b, name, fields[1..]);
      AssignedAppend(env, a, Assigns(env, op), ItemAssigns(env, name, fields[1..]));
    }
  }

  lemma {:induction false} OpsAssign(env: Env, a: Attrs, ops: seq<PatchOp>)
    requires ApplyUserOps(env, a, ops).Ok?
    ensures ApplyUserOps(env, a, ops).value == Assigned(env, a, AllAssigns(env, ops))
    decreases |ops|
  {
    if ops != [] {
      hide Assigned;
      var b := ApplyUserOp(env, a, ops[0]).value;
      OpAssigns(env, a, ops[0]);
      OpsAssign(env, b, ops[1..]);
      AssignedAppend(env, a, Assigns(env, ops[0]), AllAssigns(env, ops[1..]));
    }
  }

  /**
   A successful user PATCH gives the user exactly its last assignments and keeps its groups; no
   other user and no group changes. A failing one changes nothing.
   */
  lemma PatchUserMeaning(env: Env, s: Store, id: Id, ops: seq<PatchOp>)
    ensures var out := Exec(env, s, PatchUser(id, ops));
            if out.error.Some? then out.store == s
            else
              && id in s.users && out.store.users.Keys == s.users.Keys && out.store.groups == s.groups
              && AttrsOf(out.store.users[id]) == Assigned(env, AttrsOf(s.users[id]), AllAssigns(env, ops))
              && out.store.users[id].groupIds == s.users[id].groupIds
              && forall u :: u in s.users && u != id ==> out.store.users[u] == s.users[u]
  {
    hide Assigned, AllAssigns, ApplyUserOps;
    if id in s.users && ApplyUserOps(env, AttrsOf(s.users[id]), ops).Ok? {
      OpsAssign(env, AttrsOf(s.users[id]), ops);
    }
  }

  // --------------------------------------------------------------------- when it fails

  /** An e-mail given as an object needs a value. */
  predicate EmailsRefused(v: Json) { exists e :: e in AsList(v) && e.Obj? && !HasKey(e.fields, "value") }

  /** The error an assignment of one attribute raises. */
  function AssignError(name: string, path: string, value: Json): Option<Error> {
    match path
    case "active" => if name == "remove" then Some(Mutability) else if value.Bool? || value.Str? then None else Some(InvalidValue)
    case "displayname" => if name == "remove" then Some(Mutability) else None
    case "username" => if name == "remove" then Some(Mutability) else None
    case "externalid" => None
    case "emails" => if name != "remove" && EmailsRefused(value) then Some(KeyError) else None
    case _ => Some(Mutability)
  }

  /** The error an operation raises, from the request alone. */
  function OpError(env: Env, op: PatchOp): Option<Error>
    decreases op.value, 1
  {
    var name, path := env.lower(op.op), env.lower(op.path);
    if name !in {"add", "remove", "replace"} then Some(InvalidValue)
    else if path != "" then AssignError(name, path, op.value)
    else if name == "remove" then Some(NoTarget)
    else if !op.value.Obj? then Some(InvalidValue)
    else ItemsError(env, name, op.value.fields)
  }

  function ItemsError(env: Env, name: string, fields: seq<Field>): Option<Error>
    decreases fields, 0
  {
    if fields == [] then None
    else
      var first := OpError(env, PatchOp(name, fields[0].key, fields[0].value));
      if first.Some? then first else ItemsError(env, name, fields[1..])
  }

  function FirstError(env: Env, ops: seq<PatchOp>): Option<Error> {
    if ops == [] then None else if OpError(env, ops[0]).Some? then OpError(env, ops[0]) else FirstError(env, ops[1..])
  }

  function ErrorOf<T>(r: Result<T, Error>): Option<Error> { if r.Err? then Some(r.error) else None }

  lemma {:induction false} EmailsRefusedIff(raw: seq<Json>)
    ensures ErrorOf(ToEmails(raw)) == if exists e :: e in raw && e.Obj? && !HasKey(e.fields, "value") then Some(KeyError) else None
  {
    if raw != [] {
      EmailsRefusedIff(raw[1..]);
      assert raw == [raw[0]] + raw[1..];
    }
  }

  lemma {:induction false} OpErrorIs(env: Env, a: Attrs, op: PatchOp)
    ensures ErrorOf(ApplyUserOp(env, a, op)) == OpError(env, op)
    decreases op.value, 1
  {
    if env.lower(op.path) == "" {
      if op.value.Obj? { ItemsErrorIs(env, a, env.lower(op.op), op.value.fields); }
    } else {
      EmailsRefusedIff(AsList(op.value));
    }
  }

  lemma {:induction false} ItemsErrorIs(env: Env, a: Attrs, name: string, fields: seq<Field>)
    ensures ErrorOf(ApplyUserItems(env, a, name, fields)) == ItemsError(env, name, fields)
    decreases fields, 0
  {
    if fields != [] {
      var op := PatchOp(name, fields[0].key, fields[0].value);
      OpErrorIs(env, a, op);
      var r := ApplyUserOp(env, a, op);
      if r.Ok? { ItemsErrorIs(env, r.value, name, fields[1..]); }
    }
  }

  /** An operation list raises the error of its first bad operation, whatever the attributes. */
  lemma {:induction false} OpsErrorIs(env: Env, a: Attrs, ops: seq<PatchOp>)
    ensures ErrorOf(ApplyUserOps(env, a, ops)) == FirstError(env, ops)
    decreases |ops|
  {
    if ops != [] {
      hide OpError, ApplyUserOp;
      OpErrorIs(env, a, ops[0]);
      var r := ApplyUserOp(env, a, ops[0]);
      if r.Ok? { OpsErrorIs(env, r.value, ops[1..]); }
    }
  }

  /**
   Read off the request and the store beforehand: a user PATCH fails exactly when the user is
   missing, an operation is bad in itself, or the last user name asked for is indexed for
   another user; and with which error.
   */
  lemma PatchUserFailsIff(env: Env, s: Store, id: Id, ops: seq<PatchOp>)
    ensures Exec(env, s, PatchUser(id, ops)).error ==
              if id !in s.users then Some(NotFound)
              else if FirstError(env, ops).Some? then FirstError(env, ops)
              else
                var key := env.lower(LastText(env, AllAssigns(env, ops), "username", s.users[id].userName));
                if key != env.lower(s.users[id].userName) && key in s.userByName then Some(Uniqueness) else None
  {
    hide FirstError, AllAssigns, ApplyUserOps, LastText;
    if id in s.users {
      var a := AttrsOf(s.users[id]);
      OpsErrorIs(env, a, ops);
      if ApplyUserOps(env, a, ops).Ok? { OpsAssign(env, a, ops); }
    }
  }
}
