// The access-control configuration of the documentation site: the
// configuration as a JSON value, the recursive merge of a user configuration
// over the defaults, role lookup with the fall-back to the default role,
// `prefix:all` wildcard permissions, the union of the permissions of several
// roles, and the configuration object whose `add_role` and `update_config`
// change it in place. A lookup that would raise in Python yields None.

module AccessControl {
  import opened PyText
  import opened OrderedMaps

  /** A value as `json.load` produces it; an object keeps its keys in order. */
  datatype Json =
    | JNull
    | JBool(b: bool)
    | JNum(n: int)
    | JStr(s: string)
    | JArr(items: seq<Json>)
    | JObj(fields: seq<(string, Json)>)

  type Fields = seq<(string, Json)>

  /** Every object inside j has distinct keys, as every Python dict has. */
  predicate WellFormed(j: Json)
  {
    match j
    case JArr(items) => forall i :: 0 <= i < |items| ==> WellFormed(items[i])
    case JObj(fields) =>
      Unique(Keys(fields)) && forall i :: 0 <= i < |fields| ==> WellFormed(fields[i].1)
    case _ => true
  }

  /** A value stored in a well-formed object is well formed. */
  lemma GetWellFormed(p: Fields, k: string)
    requires WellFormed(JObj(p)) && k in Keys(p)
    ensures WellFormed(Get(p, k).value)
  {
    var i := GetIndex(p, k);
  }

  /** `d[k] = v` keeps a dict well formed when v is. */
  lemma PutWellFormed(p: Fields, k: string, v: Json)
    requires WellFormed(JObj(p)) && WellFormed(v)
    ensures WellFormed(JObj(Put(p, k, v)))
  {
    var r := Put(p, k, v);
    PutUnique(p, k, v);
    forall j | 0 <= j < |r|
      ensures WellFormed(r[j].1)
    {
      GetAt(r, j);
      PutGet(p, k, v, r[j].0);
      if r[j].0 != k {
        GetWellFormed(p, r[j].0);
      }
    }
  }

  // ---------------------------------------------------------------------
  // Merging a user configuration over the defaults

  /** `_merge_configs(default, user)`: a copy of the default dict, then each
      user key in turn assigned its combined value. */
  function Merge(d: Fields, u: Json): Fields
    requires u.JObj?
    decreases u, 1
  {
    MergeFrom(d, u, 0)
  }

  /** The merge loop from the user's i-th key on, with the dict built so far. */
  function MergeFrom(merged: Fields, u: Json, i: nat): Fields
    requires u.JObj? && i <= |u.fields|
    decreases u, 0, |u.fields| - i
  {
    if i == |u.fields| then merged
    else
      var k := u.fields[i].0;
      MergeFrom(Put(merged, k, Combine(Get(merged, k), u.fields[i].1)), u, i + 1)
  }

  /** The value `merged[key]` receives for the user value v, where cur is what
      `merged` held under the key: both dicts are merged, otherwise v wins. */
  function Combine(cur: Option<Json>, v: Json): Json
    decreases v, 2
  {
    if cur.Some? && cur.value.JObj? && v.JObj? then JObj(Merge(cur.value.fields, v)) else v
  }

  /** What a key holds after the user value uv (if any) was merged over cur. */
  function Merged(cur: Option<Json>, uv: Option<Json>): Option<Json>
  {
    match uv
    case None => cur
    case Some(v) => Some(Combine(cur, v))
  }

  lemma {:induction false} MergeFromGet(merged: Fields, u: Json, i: nat, k: string)
    requires u.JObj? && i <= |u.fields| && Unique(Keys(u.fields))
    ensures Get(MergeFrom(merged, u, i), k) == Merged(Get(merged, k), Get(u.fields[i..], k))
    decreases |u.fields| - i
  {
    if i < |u.fields| {
      var ki := u.fields[i].0;
      var vi := Combine(Get(merged, ki), u.fields[i].1);
      MergeFromGet(Put(merged, ki, vi), u, i + 1, k);
      PutGet(merged, ki, vi, k);
      GetFrom(u.fields, i, k);
    }
  }

  /** The three rules of the merge, key by key: a key only in the default
      keeps its value; a key whose default and user values are both dicts
      holds their merge; any other user key holds the user value. */
  lemma MergeGet(d: Fields, u: Json, k: string)
    requires u.JObj? && Unique(Keys(u.fields))
    ensures k in Keys(Merge(d, u)) <==> k in Keys(d) || k in Keys(u.fields)
    ensures k !in Keys(u.fields) ==> Get(Merge(d, u), k) == Get(d, k)
    ensures k in Keys(u.fields) && Get(d, k).Some? && Get(d, k).value.JObj?
              && Get(u.fields, k).value.JObj? ==>
              Get(Merge(d, u), k)
              == Some(JObj(Merge(Get(d, k).value.fields, Get(u.fields, k).value)))
    ensures k in Keys(u.fields) && !(Get(d, k).Some? && Get(d, k).value.JObj?
              && Get(u.fields, k).value.JObj?) ==>
              Get(Merge(d, u), k) == Get(u.fields, k)
  {
    MergeFromGet(d, u, 0, k);
    assert u.fields[0..] == u.fields;
  }

  lemma {:induction false} MergeFromKeys(merged: Fields, u: Json, i: nat)
    requires u.JObj? && i <= |u.fields|
    ensures |MergeFrom(merged, u, i)| >= |merged|
    ensures Keys(MergeFrom(merged, u, i))[..|merged|] == Keys(merged)
    ensures Unique(Keys(merged)) ==> Unique(Keys(MergeFrom(merged, u, i)))
    ensures (forall j :: i <= j < |u.fields| ==> u.fields[j].0 in Keys(merged)) ==>
              Keys(MergeFrom(merged, u, i)) == Keys(merged)
    decreases |u.fields| - i
  {
    if i < |u.fields| {
      var k := u.fields[i].0;
      var v := Combine(Get(merged, k), u.fields[i].1);
      var next := Put(merged, k, v);
      MergeFromKeys(next, u, i + 1);
      PutPrefix(merged, k, v);
      Prefixes(Keys(MergeFrom(next, u, i + 1)), Keys(next), Keys(merged));
      if Unique(Keys(merged)) {
        PutUnique(merged, k, v);
      }
    }
  }

  lemma PutPrefix<K, V>(p: seq<(K, V)>, k: K, v: V)
    ensures |Put(p, k, v)| >= |p| && Keys(Put(p, k, v))[..|p|] == Keys(p)
  {
    if k !in Keys(p) {
      assert (Keys(p) + [k])[..|p|] == Keys(p);
    }
  }

  lemma Prefixes<T>(a: seq<T>, b: seq<T>, c: seq<T>)
    requires |a| >= |b| >= |c| && a[..|b|] == b && b[..|c|] == c
    ensures a[..|c|] == c
  {
    assert a[..|b|][..|c|] == a[..|c|];
  }

  /** The merge keeps the default keys first, in their order, adds the new
      user keys after them, and merging an empty user dict changes nothing. */
  lemma MergeKeys(d: Fields, u: Json)
    requires u.JObj?
    ensures |Merge(d, u)| >= |d| && Keys(Merge(d, u))[..|d|] == Keys(d)
    ensures Unique(Keys(d)) ==> Unique(Keys(Merge(d, u)))
    ensures (forall j :: 0 <= j < |u.fields| ==> u.fields[j].0 in Keys(d)) ==>
              Keys(Merge(d, u)) == Keys(d)
    ensures u.fields == [] ==> Merge(d, u) == d
  {
    MergeFromKeys(d, u, 0);
  }

  /** The merge of well-formed dicts is well formed. */
  lemma {:induction false} MergeWellFormed(d: Fields, u: Json)
    requires u.JObj? && WellFormed(u) && WellFormed(JObj(d))
    ensures WellFormed(JObj(Merge(d, u)))
    decreases u
  {
    var m := Merge(d, u);
    MergeKeys(d, u);
    forall j | 0 <= j < |m|
      ensures WellFormed(m[j].1)
    {
      var k := m[j].0;
      assert Keys(m)[j] == k;
      GetAt(m, j);
      MergeGet(d, u, k);
      if k in Keys(u.fields) {
        var i := GetIndex(u.fields, k);
        var v := u.fields[i].1;
        if Get(d, k).Some? && Get(d, k).value.JObj? && v.JObj? {
          GetWellFormed(d, k);
          MergeWellFormed(Get(d, k).value.fields, v);
        }
      } else {
        GetWellFormed(d, k);
      }
    }
  }

  /** Merging a dict over itself gives it back. */
  lemma {:induction false} SelfMerge(v: Json)
    requires v.JObj? && WellFormed(v)
    ensures Merge(v.fields, v) == v.fields
    decreases v
  {
    var m := Merge(v.fields, v);
    MergeKeys(v.fields, v);
    assert forall j :: 0 <= j < |v.fields| ==> v.fields[j].0 == Keys(v.fields)[j];
    forall k
      ensures Get(v.fields, k) == Get(m, k)
    {
      MergeGet(v.fields, v, k);
      if k in Keys(v.fields) {
        var i := GetIndex(v.fields, k);
        var x := v.fields[i].1;
        if x.JObj? {
          SelfMerge(x);
        }
      }
    }
    Extensional(v.fields, m);
  }

  /** Applying the same user dict twice has the effect of applying it once. */
  lemma {:induction false} MergeTwice(d: Fields, u: Json)
    requires u.JObj? && WellFormed(u) && WellFormed(JObj(d))
    ensures Merge(Merge(d, u), u) == Merge(d, u)
    decreases u
  {
    var m := Merge(d, u);
    MergeKeys(d, u);
    forall j | 0 <= j < |u.fields|
      ensures u.fields[j].0 in Keys(m)
    {
      assert Keys(u.fields)[j] == u.fields[j].0;
      MergeGet(d, u, u.fields[j].0);
    }
    MergeKeys(m, u);
    forall k
      ensures Get(m, k) == Get(Merge(m, u), k)
    {
      MergeGet(d, u, k);
      MergeGet(m, u, k);
      if k in Keys(u.fields) {
        var i := GetIndex(u.fields, k);
        var v := u.fields[i].1;
        var c := Get(d, k);
        if c.Some? && c.value.JObj? && v.JObj? {
          GetWellFormed(d, k);
          MergeTwice(c.value.fields, v);
        } else if v.JObj? {
          SelfMerge(v);
        }
      }
    }
    Extensional(m, Merge(m, u));
  }

  // ---------------------------------------------------------------------
  // The default configuration and loading

  /** The built-in configuration used when no file is stored. */
  function DefaultConfig(): Json
  {
    JObj([("authentication", DefaultAuthentication()),
          ("authorization", DefaultAuthorization()),
          ("api_keys", DefaultApiKeys()),
          ("rate_limiting", DefaultRateLimiting()),
          ("logging", DefaultLogging()),
          ("security", DefaultSecurity())])
  }

  /** The built-in authorization section: the role table and the default role. */
  function DefaultAuthorization(): Json
  {
    JObj([("roles", JObj(DefaultRoleTable())), ("default_role", JStr("guest"))])
  }

  /** The four built-in roles. */
  function DefaultRoleTable(): Fields
  {
    [("admin", RoleEntry(["read:all", "write:all", "admin:all"], "系统管理员，拥有所有权限")),
     ("editor", RoleEntry(["read:all", "write:docs"], "文档编辑者，可以阅读所有内容并编辑文档")),
     ("viewer", RoleEntry(["read:public"], "普通查看者，只能访问公开内容")),
     ("guest", RoleEntry(["read:limited"], "访客，只能访问有限的公开内容"))]
  }

  function DefaultAuthentication(): Json
  {
    JObj([("enabled", JBool(true)),
          ("methods", JArr([JStr("api_key"), JStr("basic_auth")])),
          ("token_expiry", JNum(3600)),
          ("max_login_attempts", JNum(5)),
          ("lockout_duration", JNum(300))])
  }

  function DefaultApiKeys(): Json
  {
    JObj([("enabled", JBool(true)),
          ("rotation_interval", JNum(2592000)),
          ("required_for", JArr([JStr("search"), JStr("api"), JStr("admin")]))])
  }

  function DefaultRateLimiting(): Json
  {
    JObj([("enabled", JBool(true)),
          ("limits", JObj([("anonymous", JObj([("requests", JNum(60)), ("period", JNum(60))])),
                           ("authenticated", JObj([("requests", JNum(300)), ("period", JNum(60))]))]))])
  }

  function DefaultLogging(): Json
  {
    JObj([("enabled", JBool(true)),
          ("log_file", JStr(".logs/access.log")),
          ("log_level", JStr("INFO")),
          ("log_format", JStr("%(asctime)s" + " - " + "%(client_ip)s" + " - " + "%(user_id)s" + " - "
                                  + "%(action)s" + " - " + "%(status)s" + " - " + "%(message)s")),
          ("retention_days", JNum(30))])
  }

  function DefaultSecurity(): Json
  {
    JObj([("cors", JObj([("enabled", JBool(true)),
                         ("allowed_origins", JArr([JStr("*")])),
                         ("allowed_methods", JArr([JStr("GET"), JStr("POST"), JStr("PUT"), JStr("DELETE"), JStr("OPTIONS")])),
                         ("allowed_headers", JArr([JStr("Authorization"), JStr("Content-Type")]))])),
          ("ssl", JObj([("required", JBool(true)), ("redirect_http", JBool(true))])),
          ("x_headers", JObj([("enabled", JBool(true)),
                              ("headers", JObj([("X-Content-Type-Options", JStr("nosniff")),
                                                ("X-Frame-Options", JStr("DENY")),
                                                ("X-XSS-Protection", JStr("1; mode=block")),
                                                ("Strict-Transport-Security", JStr("max-age=31536000; " + "includeSubDomains"))]))]))])
  }

  /** `_load_config`: the stored file's value (None when it is missing or does
      not parse) merged over the defaults; a stored value that is not a dict
      makes the merge raise, and the defaults are used. */
  function LoadConfig(stored: Option<Json>): (r: Json)
    ensures r.JObj?
  {
    match stored
    case Some(JObj(user)) => JObj(Merge(DefaultConfig().fields, JObj(user)))
    case _ => DefaultConfig()
  }

  // ---------------------------------------------------------------------
  // The authorization section

  /** `j[k]` on a dict; None where Python would raise. */
  function Field(j: Json, k: string): Option<Json>
  {
    if j.JObj? then Get(j.fields, k) else None
  }

  /** `config["authorization"]["roles"]`. */
  function RoleTable(config: Json): Option<Fields>
  {
    match Field(config, "authorization")
    case None => None
    case Some(a) =>
      match Field(a, "roles")
      case Some(JObj(table)) => Some(table)
      case _ => None
  }

  /** `config["authorization"]["default_role"]`, usable as a role name. */
  function DefaultRole(config: Json): Option<string>
  {
    match Field(config, "authorization")
    case None => None
    case Some(a) =>
      match Field(a, "default_role")
      case Some(JStr(r)) => Some(r)
      case _ => None
  }

  /** A list all of whose items are strings, as those strings. */
  function Strings(items: seq<Json>): (r: Option<seq<string>>)
    ensures r.Some? <==> forall i :: 0 <= i < |items| ==> items[i].JStr?
    ensures r.Some? ==> |r.value| == |items|
                        && forall i :: 0 <= i < |items| ==> items[i] == JStr(r.value[i])
  {
    if items == [] then Some([])
    else
      var rest := Strings(items[1..]);
      assert forall i :: 1 <= i < |items| ==> items[i] == items[1..][i - 1];
      if items[0].JStr? && rest.Some? then Some([items[0].s] + rest.value)
      else None
  }

  /** `entry["permissions"]` of one role, as a list of strings. */
  function PermissionList(entry: Json): Option<seq<string>>
  {
    match Field(entry, "permissions")
    case Some(JArr(items)) => Strings(items)
    case _ => None
  }

  /** The permission list `has_permission` consults for role: its own entry
      when the table has one, the default role's entry otherwise. */
  function Permissions(config: Json, role: string): Option<seq<string>>
  {
    match RoleTable(config)
    case None => None
    case Some(table) =>
      var r := if role in Keys(table) then Some(role) else DefaultRole(config);
      if r.Some? && r.value in Keys(table) then PermissionList(Get(table, r.value).value)
      else None
  }

  /** The authorization section on which every role lookup succeeds: a role
      table, a default role in it, and a permission list for every role. */
  predicate AuthOk(config: Json)
  {
    match RoleTable(config)
    case None => false
    case Some(table) =>
      DefaultRole(config).Some? && DefaultRole(config).value in Keys(table)
      && forall i :: 0 <= i < |table| ==> PermissionList(table[i].1).Some?
  }

  lemma PermissionsDefined(config: Json, role: string)
    requires AuthOk(config)
    ensures Permissions(config, role).Some?
  {
    var table := RoleTable(config).value;
    var r := if role in Keys(table) then role else DefaultRole(config).value;
    var i := GetIndex(table, r);
  }

  /** A role name longer than every name in ks, so not among them. */
  function LongerName(ks: seq<string>): (r: string)
    ensures forall i :: 0 <= i < |ks| ==> |ks[i]| < |r|
  {
    if ks == [] then "x"
    else
      var rest := LongerName(ks[1..]);
      assert forall i :: 1 <= i < |ks| ==> ks[i] == ks[1..][i - 1];
      if |ks[0]| < |rest| then rest else ks[0] + "x"
  }

  /** For a role table with distinct names, the section is complete exactly
      when `has_permission` answers, without raising, for every role name:
      names in the table and names that fall back to the default role. */
  lemma ChecksAnswer(config: Json, permission: string)
    requires RoleTable(config).Some? && Unique(Keys(RoleTable(config).value))
    ensures AuthOk(config) <==> forall role :: HasPermissionSpec(config, role, permission).Some?
  {
    var table := RoleTable(config).value;
    if AuthOk(config) {
      forall role
        ensures HasPermissionSpec(config, role, permission).Some?
      {
        PermissionsDefined(config, role);
      }
    }
    if forall role :: HasPermissionSpec(config, role, permission).Some? {
      var stranger := LongerName(Keys(table));
      assert stranger !in Keys(table);
      assert HasPermissionSpec(config, stranger, permission).Some?;
      forall i | 0 <= i < |table|
        ensures PermissionList(table[i].1).Some?
      {
        assert Keys(table)[i] == table[i].0;
        GetAt(table, i);
        assert HasPermissionSpec(config, table[i].0, permission).Some?;
      }
    }
  }

  /** A role missing from the table is checked as the default role; when the
      default role is not in the table either, the lookup fails. */
  lemma RoleFallback(config: Json, role: string, permission: string)
    requires RoleTable(config).Some? && role !in Keys(RoleTable(config).value)
    ensures DefaultRole(config).Some? && DefaultRole(config).value in Keys(RoleTable(config).value) ==>
              HasPermissionSpec(config, role, permission)
              == HasPermissionSpec(config, DefaultRole(config).value, permission)
    ensures !(DefaultRole(config).Some? && DefaultRole(config).value in Keys(RoleTable(config).value)) ==>
              HasPermissionSpec(config, role, permission).None?
  {
  }

  // ---------------------------------------------------------------------
  // Permission checks

  /** `perm.endswith(":all") and permission.startswith(perm[:-4] + ":")`. */
  predicate WildcardGrants(perm: string, permission: string)
  {
    EndsWith(perm, ":all") && StartsWith(permission, perm[..|perm| - 4] + ":")
  }

  /** `P:all` grants every permission `P:...`. */
  lemma WildcardOf(prefix: string, rest: string)
    ensures WildcardGrants(prefix + ":all", prefix + ":" + rest)
  {
    var w := prefix + ":all";
    assert w[..|w| - 4] == prefix;
    assert (prefix + ":" + rest)[..|prefix| + 1] == prefix + ":";
  }

  /** A role holding perms has permission: listed literally or by a wildcard. */
  predicate Granted(perms: seq<string>, permission: string)
  {
    permission in perms || exists i :: 0 <= i < |perms| && WildcardGrants(perms[i], permission)
  }

  /** A listed `P:all` grants exactly the permissions that start with `P:`;
      a permission neither listed nor so covered is denied. */
  lemma GrantedIff(perms: seq<string>, permission: string)
    ensures Granted(perms, permission) <==>
      permission in perms
      || exists prefix :: prefix + ":all" in perms && StartsWith(permission, prefix + ":")
  {
    if i :| 0 <= i < |perms| && WildcardGrants(perms[i], permission) {
      var w := perms[i];
      var prefix := w[..|w| - 4];
      assert w == prefix + ":all" by {
        assert w == w[..|w| - 4] + w[|w| - 4..];
      }
    }
    if prefix :| prefix + ":all" in perms && StartsWith(permission, prefix + ":") {
      var w := prefix + ":all";
      var i :| 0 <= i < |perms| && perms[i] == w;
      assert w[|w| - 4..] == ":all" && w[..|w| - 4] == prefix;
      assert WildcardGrants(perms[i], permission);
    }
  }

  /** The tests of `has_permission` on the role's permission list: the
      literal test, then the loop over the wildcards. */
  method CheckPermission(perms: seq<string>, permission: string) returns (granted: bool)
    ensures granted == Granted(perms, permission)
  {
    if permission in perms {
      return true;
    }
    var i := 0;
    while i < |perms|
      invariant 0 <= i <= |perms|
      invariant forall j :: 0 <= j < i ==> !WildcardGrants(perms[j], permission)
    {
      var perm := perms[i];
      if EndsWith(perm, ":all") {
        var prefix := perm[..|perm| - 4];
        if StartsWith(permission, prefix + ":") {
          return true;
        }
      }
      i := i + 1;
    }
    return false;
  }

  /** `has_permission(role, permission)`; None when a lookup raises. */
  function HasPermissionSpec(config: Json, role: string, permission: string): Option<bool>
  {
    match Permissions(config, role)
    case None => None
    case Some(perms) => Some(Granted(perms, permission))
  }

  /** The loop of `validate_access`: the first role whose check is true
      grants, a check that raises stops the loop. */
  function FirstGrant(check: string -> Option<bool>, roles: seq<string>): Option<bool>
  {
    if roles == [] then Some(false)
    else
      match check(roles[0])
      case None => None
      case Some(true) => Some(true)
      case Some(false) => FirstGrant(check, roles[1..])
  }

  /** `has_permission` on the given configuration, as a check on roles. */
  function Checker(config: Json, permission: string): string -> Option<bool>
  {
    role => HasPermissionSpec(config, role, permission)
  }

  /** `validate_access(user_roles, permission)`. */
  function ValidateSpec(config: Json, roles: seq<string>, permission: string): Option<bool>
  {
    if roles == [] then
      match DefaultRole(config)
      case None => None
      case Some(r) => HasPermissionSpec(config, r, permission)
    else FirstGrant(Checker(config, permission), roles)
  }

  lemma {:induction false} FirstGrantIff(check: string -> Option<bool>, roles: seq<string>)
    requires forall i :: 0 <= i < |roles| ==> check(roles[i]).Some?
    ensures FirstGrant(check, roles) == Some(exists i :: 0 <= i < |roles| && check(roles[i]) == Some(true))
  {
    if roles != [] {
      assert forall i :: 1 <= i < |roles| ==> roles[i] == roles[1..][i - 1];
      FirstGrantIff(check, roles[1..]);
    }
  }

  /** Access is granted exactly when some listed role has the permission; with
      no roles listed, it is the default role's answer. */
  lemma ValidateIff(config: Json, roles: seq<string>, permission: string)
    requires AuthOk(config)
    ensures roles != [] ==>
              ValidateSpec(config, roles, permission)
              == Some(exists i :: 0 <= i < |roles| && HasPermissionSpec(config, roles[i], permission) == Some(true))
    ensures roles == [] ==>
              ValidateSpec(config, roles, permission)
              == HasPermissionSpec(config, DefaultRole(config).value, permission)
  {
    var check := Checker(config, permission);
    forall i | 0 <= i < |roles|
      ensures check(roles[i]).Some?
    {
      PermissionsDefined(config, roles[i]);
    }
    FirstGrantIff(check, roles);
  }

  /** `set(perms)`. */
  function PermSet(perms: seq<string>): set<string>
  {
    set x | x in perms
  }

  /** The permissions of role as a set: none for a role not in the table. */
  function RolePerms(table: Fields, role: string): set<string>
  {
    if role in Keys(table) then
      match PermissionList(Get(table, role).value)
      case Some(perms) => PermSet(perms)
      case None => {}
    else {}
  }

  /** `_get_effective_permissions(roles)`: the union of the permission lists
      of the listed roles the table holds, built front to back. */
  function Union(config: Json, roles: seq<string>): Option<set<string>>
  {
    if roles == [] then Some({})
    else
      match Union(config, roles[..|roles| - 1])
      case None => None
      case Some(s) => AddRolePerms(config, s, roles[|roles| - 1])
  }

  /** One step of the union: `if role in roles: permissions.update(...)`. */
  function AddRolePerms(config: Json, s: set<string>, role: string): Option<set<string>>
  {
    match RoleTable(config)
    case None => None
    case Some(table) =>
      if role !in Keys(table) then Some(s)
      else
        match PermissionList(Get(table, role).value)
        case None => None
        case Some(perms) => Some(s + PermSet(perms))
  }

  /** Once a lookup has raised, the rest of the roles does not matter. */
  lemma {:induction false} UnionRaises(config: Json, roles: seq<string>, n: nat)
    requires n <= |roles| && Union(config, roles[..n]).None?
    ensures Union(config, roles).None?
    decreases |roles| - n
  {
    if n < |roles| {
      assert roles[..n + 1][..n] == roles[..n];
      UnionRaises(config, roles, n + 1);
    } else {
      assert roles[..n] == roles;
    }
  }

  /** The union of f over the roles, front to back. */
  function UnionOf(f: string -> set<string>, roles: seq<string>): set<string>
  {
    if roles == [] then {} else UnionOf(f, roles[..|roles| - 1]) + f(roles[|roles| - 1])
  }

  lemma {:induction false} UnionOfIff(f: string -> set<string>, roles: seq<string>, x: string)
    ensures x in UnionOf(f, roles) <==> exists i :: 0 <= i < |roles| && x in f(roles[i])
  {
    if roles != [] {
      var init := roles[..|roles| - 1];
      UnionOfIff(f, init, x);
      assert forall i :: 0 <= i < |init| ==> init[i] == roles[i];
    }
  }

  /** On a complete authorization section the union never raises. */
  lemma {:induction false} UnionDefined(config: Json, roles: seq<string>)
    requires AuthOk(config)
    ensures Union(config, roles) == Some(UnionOf(r => RolePerms(RoleTable(config).value, r), roles))
  {
    if roles != [] {
      var init := roles[..|roles| - 1];
      UnionDefined(config, init);
      AddRolePermsDefined(config, Union(config, init).value, roles[|roles| - 1]);
    }
  }

  /** The effective permissions are those some listed role holds; roles
      missing from the table contribute nothing. */
  lemma UnionIff(config: Json, roles: seq<string>, permission: string)
    requires AuthOk(config)
    ensures Union(config, roles).Some?
    ensures permission in Union(config, roles).value <==>
              exists i :: 0 <= i < |roles| && permission in RolePerms(RoleTable(config).value, roles[i])
  {
    var f := r => RolePerms(RoleTable(config).value, r);
    UnionDefined(config, roles);
    UnionOfIff(f, roles, permission);
  }

  lemma AddRolePermsDefined(config: Json, s: set<string>, role: string)
    requires AuthOk(config)
    ensures AddRolePerms(config, s, role) == Some(s + RolePerms(RoleTable(config).value, role))
  {
    var table := RoleTable(config).value;
    if role in Keys(table) {
      var i := GetIndex(table, role);
      var perms := PermissionList(Get(table, role).value);
      assert perms.Some?;
      assert AddRolePerms(config, s, role) == Some(s + PermSet(perms.value));
    } else {
      assert s + RolePerms(table, role) == s;
    }
  }

  /** Dropping a role the table does not hold leaves the effective
      permissions as they were. */
  lemma UnknownRoleIgnored(config: Json, roles: seq<string>, k: nat)
    requires AuthOk(config) && k < |roles| && roles[k] !in Keys(RoleTable(config).value)
    ensures Union(config, roles[..k] + roles[k + 1..]) == Union(config, roles)
  {
    var f := r => RolePerms(RoleTable(config).value, r);
    UnionDefined(config, roles[..k] + roles[k + 1..]);
    UnionDefined(config, roles);
    UnionOfDrop(f, roles, k);
  }

  lemma {:induction false} UnionOfDrop(f: string -> set<string>, roles: seq<string>, k: nat)
    requires k < |roles| && f(roles[k]) == {}
    ensures UnionOf(f, roles[..k] + roles[k + 1..]) == UnionOf(f, roles)
  {
    var rest := roles[..k] + roles[k + 1..];
    var init := roles[..|roles| - 1];
    if k == |roles| - 1 {
      assert rest == init;
    } else {
      UnionOfDrop(f, init, k);
      assert rest[..|rest| - 1] == init[..k] + init[k + 1..];
      assert rest[|rest| - 1] == roles[|roles| - 1];
    }
  }

  /** A permission among the effective permissions of the roles passes
      `validate_access` for those roles. */
  lemma EffectiveGrantsAccess(config: Json, roles: seq<string>, permission: string)
    requires AuthOk(config)
    requires Union(config, roles).Some? && permission in Union(config, roles).value
    ensures ValidateSpec(config, roles, permission) == Some(true)
  {
    UnionIff(config, roles, permission);
    var table := RoleTable(config).value;
    var i :| 0 <= i < |roles| && permission in RolePerms(table, roles[i]);
    ValidateIff(config, roles, permission);
    assert HasPermissionSpec(config, roles[i], permission) == Some(true);
  }

  // ---------------------------------------------------------------------
  // Adding a role

  /** The dict `{"permissions": permissions, "description": description}`. */
  function RoleEntry(permissions: seq<string>, description: string): Json
  {
    JObj([("permissions", JArr(seq(|permissions|, i requires 0 <= i < |permissions| => JStr(permissions[i])))),
          ("description", JStr(description))])
  }

  /** The stored entry lists exactly the given permissions. */
  lemma RoleEntryPermissions(permissions: seq<string>, description: string)
    ensures PermissionList(RoleEntry(permissions, description)) == Some(permissions)
  {
    var items := RoleEntry(permissions, description).fields[0].1.items;
    var r := Strings(items);
    assert r.Some?;
    assert r.value == permissions;
  }

  /** The configuration after `config["authorization"]["roles"][name] = entry`. */
  function WithRole(config: Json, name: string, entry: Json): Json
    requires RoleTable(config).Some?
  {
    var a := Field(config, "authorization").value;
    var roles := JObj(Put(RoleTable(config).value, name, entry));
    JObj(Put(config.fields, "authorization", JObj(Put(a.fields, "roles", roles))))
  }

  /** Adding a new role appends exactly that role to the table; the other
      roles and the default role stay as they were. */
  lemma AddRoleTable(config: Json, name: string, entry: Json)
    requires RoleTable(config).Some? && name !in Keys(RoleTable(config).value)
    ensures RoleTable(WithRole(config, name, entry)) == Some(RoleTable(config).value + [(name, entry)])
    ensures DefaultRole(WithRole(config, name, entry)) == DefaultRole(config)
  {
    var a := Field(config, "authorization").value;
    var table := RoleTable(config).value;
    PutNew(table, name, entry);
    PutGet(config.fields, "authorization", JObj(Put(a.fields, "roles", JObj(Put(table, name, entry)))), "authorization");
    PutGet(a.fields, "roles", JObj(Put(table, name, entry)), "roles");
    PutGet(a.fields, "roles", JObj(Put(table, name, entry)), "default_role");
  }

  /** The new role's permissions are those of its entry. */
  lemma AddRoleEntry(config: Json, name: string, entry: Json)
    requires RoleTable(config).Some? && name !in Keys(RoleTable(config).value)
    ensures Permissions(WithRole(config, name, entry), name) == PermissionList(entry)
  {
    var table := RoleTable(config).value;
    AddRoleTable(config, name, entry);
    PutNew(table, name, entry);
    PutGet(table, name, entry, name);
  }

  /** A complete authorization section stays complete when the new entry has
      a valid permission list. */
  lemma AddRoleKeepsAuthOk(config: Json, name: string, entry: Json)
    requires RoleTable(config).Some? && name !in Keys(RoleTable(config).value)
    requires AuthOk(config) && PermissionList(entry).Some?
    ensures AuthOk(WithRole(config, name, entry))
  {
    var table := RoleTable(config).value;
    var dr := DefaultRole(config).value;
    var t2 := table + [(name, entry)];
    AddRoleTable(config, name, entry);
    AuthOkIff(config, table, dr);
    assert Keys(t2) == Keys(table) + [name];
    assert forall i :: 0 <= i < |t2| ==> PermissionList(t2[i].1).Some? by {
      forall i | 0 <= i < |t2|
        ensures PermissionList(t2[i].1).Some?
      {
        if i < |table| {
          assert t2[i] == table[i];
        }
      }
    }
    AuthOkIff(WithRole(config, name, entry), t2, dr);
  }

  /** The new role holds exactly the given permissions, and a complete
      authorization section stays complete. */
  lemma AddRoleGrants(config: Json, name: string, permissions: seq<string>, description: string, permission: string)
    requires RoleTable(config).Some? && name !in Keys(RoleTable(config).value)
    ensures HasPermissionSpec(WithRole(config, name, RoleEntry(permissions, description)), name, permission)
            == Some(Granted(permissions, permission))
    ensures AuthOk(config) ==> AuthOk(WithRole(config, name, RoleEntry(permissions, description)))
  {
    AddRoleEntry(config, name, RoleEntry(permissions, description));
    RoleEntryPermissions(permissions, description);
    if AuthOk(config) {
      AddRoleKeepsAuthOk(config, name, RoleEntry(permissions, description));
    }
  }

  lemma WithRoleWellFormed(config: Json, name: string, entry: Json)
    requires WellFormed(config) && RoleTable(config).Some? && WellFormed(entry)
    ensures WellFormed(WithRole(config, name, entry))
  {
    var a := Field(config, "authorization").value;
    var table := RoleTable(config).value;
    GetWellFormed(config.fields, "authorization");
    GetWellFormed(a.fields, "roles");
    PutWellFormed(table, name, entry);
    PutWellFormed(a.fields, "roles", JObj(Put(table, name, entry)));
    PutWellFormed(config.fields, "authorization", JObj(Put(a.fields, "roles", JObj(Put(table, name, entry)))));
  }

  lemma RoleEntryWellFormed(permissions: seq<string>, description: string)
    ensures WellFormed(RoleEntry(permissions, description))
  {
    var entry := RoleEntry(permissions, description);
    assert Keys(entry.fields) == ["permissions", "description"];
  }

  // ---------------------------------------------------------------------
  // The default role table

  /** The built-in roles, in order, and the permission list of each. */
  lemma DefaultRoleTableFacts()
    ensures Keys(DefaultRoleTable()) == ["admin", "editor", "viewer", "guest"]
    ensures Unique(Keys(DefaultRoleTable()))
    ensures PermissionList(DefaultRoleTable()[0].1) == Some(["read:all", "write:all", "admin:all"])
    ensures PermissionList(DefaultRoleTable()[1].1) == Some(["read:all", "write:docs"])
    ensures PermissionList(DefaultRoleTable()[2].1) == Some(["read:public"])
    ensures PermissionList(DefaultRoleTable()[3].1) == Some(["read:limited"])
  {
    RoleEntryPermissions(["read:all", "write:all", "admin:all"], "系统管理员，拥有所有权限");
    RoleEntryPermissions(["read:all", "write:docs"], "文档编辑者，可以阅读所有内容并编辑文档");
    RoleEntryPermissions(["read:public"], "普通查看者，只能访问公开内容");
    RoleEntryPermissions(["read:limited"], "访客，只能访问有限的公开内容");
  }

  /** An authorization section made of a role table and a default role. */
  lemma AuthorizationSection(config: Json, table: Fields, defaultRole: string)
    requires Field(config, "authorization")
             == Some(JObj([("roles", JObj(table)), ("default_role", JStr(defaultRole))]))
    ensures RoleTable(config) == Some(table) && DefaultRole(config) == Some(defaultRole)
  {
    assert "roles"[0] != "default_role"[0];
    PairGet("roles", JObj(table), "default_role", JStr(defaultRole));
    var a := Field(config, "authorization").value;
    assert Field(a, "roles") == Some(JObj(table));
    assert Field(a, "default_role") == Some(JStr(defaultRole));
  }

  /** The authorization section is complete exactly when the default role is
      in the table and every entry has a list of permission strings. */
  lemma AuthOkIff(config: Json, table: Fields, defaultRole: string)
    requires RoleTable(config) == Some(table) && DefaultRole(config) == Some(defaultRole)
    ensures AuthOk(config) <==>
              defaultRole in Keys(table) && forall i :: 0 <= i < |table| ==> PermissionList(table[i].1).Some?
  {
  }

  /** Looking up either key of a two-entry dictionary. */
  lemma PairGet(k1: string, v1: Json, k2: string, v2: Json)
    requires k1 != k2
    ensures Get([(k1, v1), (k2, v2)], k1) == Some(v1)
    ensures Get([(k1, v1), (k2, v2)], k2) == Some(v2)
  {
    var p := [(k1, v1), (k2, v2)];
    assert p[1..] == [(k2, v2)];
  }

  /** A configuration holding the built-in authorization section has a
      complete one, with the built-in roles and guest by default. */
  lemma DefaultAuthorizationOk(config: Json)
    requires Field(config, "authorization") == Some(DefaultAuthorization())
    ensures RoleTable(config) == Some(DefaultRoleTable()) && DefaultRole(config) == Some("guest")
    ensures AuthOk(config)
  {
    AuthorizationSection(config, DefaultRoleTable(), "guest");
    AuthOkIff(config, DefaultRoleTable(), "guest");
    DefaultRoleTableFacts();
    assert Keys(DefaultRoleTable())[3] == "guest";
  }

  /** The built-in configuration carries the built-in authorization section. */
  lemma DefaultRoles()
    ensures Field(DefaultConfig(), "authorization") == Some(DefaultAuthorization())
    ensures AuthOk(DefaultConfig()) && DefaultRole(DefaultConfig()) == Some("guest")
  {
    var top := DefaultConfig().fields;
    assert top[1..][0] == top[1];
    DefaultAuthorizationOk(DefaultConfig());
  }

  /** What `has_permission` answers for the i-th built-in role. */
  lemma DefaultCheck(config: Json, i: nat, permission: string)
    requires Field(config, "authorization") == Some(DefaultAuthorization()) && i < 4
    ensures HasPermissionSpec(config, DefaultRoleTable()[i].0, permission)
            == Some(Granted(PermissionList(DefaultRoleTable()[i].1).value, permission))
  {
    DefaultAuthorizationOk(config);
    DefaultRoleTableFacts();
    GetAt(DefaultRoleTable(), i);
  }

  /** The built-in roles' permission checks on a configuration holding the
      built-in authorization section. */
  lemma DefaultRoleChecks(config: Json, permission: string)
    requires Field(config, "authorization") == Some(DefaultAuthorization())
    ensures HasPermissionSpec(config, "admin", permission)
            == Some(Granted(["read:all", "write:all", "admin:all"], permission))
    ensures HasPermissionSpec(config, "editor", permission)
            == Some(Granted(["read:all", "write:docs"], permission))
    ensures HasPermissionSpec(config, "viewer", permission) == Some(Granted(["read:public"], permission))
    ensures HasPermissionSpec(config, "guest", permission) == Some(Granted(["read:limited"], permission))
  {
    DefaultRoleTableFacts();
    DefaultCheck(config, 0, permission);
    DefaultCheck(config, 1, permission);
    DefaultCheck(config, 2, permission);
    DefaultCheck(config, 3, permission);
  }

  /** The wildcard `admin:all` covers `admin:users`. */
  lemma AdminGrantsUsers()
    ensures Granted(["read:all", "write:all", "admin:all"], "admin:users")
  {
    WildcardOf("admin", "users");
    assert "admin" + ":all" == "admin:all";
    assert "admin" + ":" + "users" == "admin:users";
    var perms := ["read:all", "write:all", "admin:all"];
    assert perms[2] == "admin:all";
  }

  /** An editor's list grants `write:docs` outright and `read:private`
      through `read:all`. */
  lemma EditorGrants()
    ensures Granted(["read:all", "write:docs"], "write:docs")
    ensures Granted(["read:all", "write:docs"], "read:private")
  {
    WildcardOf("read", "private");
    assert "read" + ":all" == "read:all";
    assert "read" + ":" + "private" == "read:private";
    var perms := ["read:all", "write:docs"];
    assert perms[0] == "read:all" && perms[1] == "write:docs";
  }

  /** A plain permission grants nothing but itself. */
  lemma PlainGrant(perm: string, permission: string)
    requires !EndsWith(perm, ":all")
    ensures Granted([perm], permission) <==> permission == perm
  {
  }

  /** The viewer's and the guest's lists hold no wildcard. */
  lemma PlainDefaults()
    ensures Granted(["read:public"], "read:public")
    ensures !Granted(["read:public"], "write:docs")
    ensures Granted(["read:limited"], "read:limited")
    ensures !Granted(["read:limited"], "read:public")
  {
    assert "read:public"[7] != ":all"[0];
    PlainGrant("read:public", "read:public");
    PlainGrant("read:public", "write:docs");
    assert "write:docs"[0] != "read:public"[0];
    assert "read:limited"[8] != ":all"[0];
    PlainGrant("read:limited", "read:limited");
    PlainGrant("read:limited", "read:public");
    assert "read:public"[5] != "read:limited"[5];
  }

  /** With the built-in roles an editor may write docs and read anything
      through `read:all`; an administrator holds every `admin:...`
      permission through `admin:all`. */
  lemma EditorAdminExamples(config: Json)
    requires Field(config, "authorization") == Some(DefaultAuthorization())
    ensures HasPermissionSpec(config, "editor", "write:docs") == Some(true)
    ensures HasPermissionSpec(config, "editor", "read:private") == Some(true)
    ensures HasPermissionSpec(config, "admin", "admin:users") == Some(true)
  {
    DefaultRoleChecks(config, "write:docs");
    DefaultRoleChecks(config, "read:private");
    DefaultRoleChecks(config, "admin:users");
    EditorGrants();
    AdminGrantsUsers();
  }

  /** A viewer may not edit documents. */
  lemma ViewerExample(config: Json)
    requires Field(config, "authorization") == Some(DefaultAuthorization())
    ensures ValidateSpec(config, ["viewer"], "write:docs") == Some(false)
  {
    DefaultRoleChecks(config, "write:docs");
    PlainDefaults();
  }

  /** An unknown role is treated as guest; a user without roles is a guest
      too, and a guest may not read public content. */
  lemma GuestExamples(config: Json)
    requires Field(config, "authorization") == Some(DefaultAuthorization())
    ensures HasPermissionSpec(config, "stranger", "read:limited") == Some(true)
    ensures ValidateSpec(config, [], "read:public") == Some(false)
  {
    DefaultRoleChecks(config, "read:limited");
    DefaultRoleChecks(config, "read:public");
    PlainDefaults();
    GuestFallback(config, "read:limited");
    GuestFallback(config, "read:public");
  }

  /** With the built-in roles, a role outside the table and an empty role
      list are both checked as guest. */
  lemma GuestFallback(config: Json, permission: string)
    requires Field(config, "authorization") == Some(DefaultAuthorization())
    ensures HasPermissionSpec(config, "stranger", permission) == HasPermissionSpec(config, "guest", permission)
    ensures ValidateSpec(config, [], permission) == HasPermissionSpec(config, "guest", permission)
  {
    DefaultAuthorizationOk(config);
    DefaultRoleTableFacts();
    StrangerUnknown();
    RoleFallback(config, "stranger", permission);
  }

  /** `stranger` is none of the built-in role names. */
  lemma StrangerUnknown()
    ensures "stranger" !in ["admin", "editor", "viewer", "guest"]
  {
    var names := ["admin", "editor", "viewer", "guest"];
    assert forall i :: 0 <= i < |names| ==> names[i][0] != 's' by {
      assert names[0][0] == 'a' && names[1][0] == 'e' && names[2][0] == 'v' && names[3][0] == 'g';
    }
  }

  /** Merging a dict without key k over defaults keeps the defaults' k. */
  lemma MergeKeeps(defaults: Fields, u: Json, k: string, v: Json)
    requires u.JObj? && Unique(Keys(u.fields)) && k !in Keys(u.fields) && Get(defaults, k) == Some(v)
    ensures Field(JObj(Merge(defaults, u)), k) == Some(v)
  {
    MergeGet(defaults, u, k);
  }

  /** A stored dict without an "authorization" key leaves the built-in role
      table in force. */
  lemma LoadKeepsAuthorization(stored: Option<Json>)
    requires stored.Some? && stored.value.JObj? && Unique(Keys(stored.value.fields))
    requires "authorization" !in Keys(stored.value.fields)
    ensures Field(LoadConfig(stored), "authorization") == Some(DefaultAuthorization())
  {
    DefaultRoles();
    MergeKeeps(DefaultConfig().fields, stored.value, "authorization", DefaultAuthorization());
  }

  // ---------------------------------------------------------------------
  // The configuration object

  class AccessControlConfig {
    var config: Json

    /** The configuration is a dict, as `_load_config` and the merge keep it. */
    predicate Valid()
      reads this
    {
      config.JObj?
    }

    /** Loads the stored configuration (None: no readable file). */
    constructor(stored: Option<Json>)
      ensures config == LoadConfig(stored) && Valid()
    {
      config := LoadConfig(stored);
    }

    /** `has_permission`: the role's permission list (the default role's for
        an unknown role), then the literal test and the wildcard loop. */
    method HasPermission(role: string, permission: string) returns (r: Option<bool>)
      ensures r == HasPermissionSpec(config, role, permission)
    {
      var perms := Permissions(config, role);
      if perms.None? {
        return None;
      }
      var granted := CheckPermission(perms.value, permission);
      return Some(granted);
    }

    /** `validate_access`: the first listed role that has the permission
        grants access; no roles at all means the default role. */
    method ValidateAccess(userRoles: seq<string>, permission: string) returns (r: Option<bool>)
      ensures r == ValidateSpec(config, userRoles, permission)
    {
      var i := 0;
      while i < |userRoles|
        invariant 0 <= i <= |userRoles|
        invariant FirstGrant(Checker(config, permission), userRoles) == FirstGrant(Checker(config, permission), userRoles[i..])
      {
        var h := HasPermission(userRoles[i], permission);
        assert userRoles[i..][0] == userRoles[i] && userRoles[i..][1..] == userRoles[i + 1..];
        if h.None? {
          return None;
        }
        if h.value {
          return Some(true);
        }
        i := i + 1;
      }
      if userRoles == [] {
        var dr := DefaultRole(config);
        if dr.None? {
          return None;
        }
        r := HasPermission(dr.value, permission);
        return;
      }
      assert userRoles[i..] == [];
      return Some(false);
    }

    /** `_get_effective_permissions`: the set union over the listed roles. */
    method GetEffectivePermissions(roles: seq<string>) returns (r: Option<set<string>>)
      ensures r == Union(config, roles)
    {
      var permissions: set<string> := {};
      for i := 0 to |roles|
        invariant Union(config, roles[..i]) == Some(permissions)
      {
        assert roles[..i + 1][..i] == roles[..i] && roles[..i + 1][i] == roles[i];
        var table := RoleTable(config);
        if table.None? {
          UnionRaises(config, roles, i + 1);
          return None;
        }
        if roles[i] in Keys(table.value) {
          var perms := PermissionList(Get(table.value, roles[i]).value);
          if perms.None? {
            UnionRaises(config, roles, i + 1);
            return None;
          }
          permissions := permissions + PermSet(perms.value);
        }
      }
      assert roles[..|roles|] == roles;
      return Some(permissions);
    }

    /** `add_role`: refuses a name already in the table; otherwise stores the
        new role and reports whether saving succeeded. */
    method AddRole(name: string, permissions: seq<string>, description: string, saved: bool)
      returns (r: Option<bool>)
      requires Valid()
      modifies this
      ensures Valid()
      ensures RoleTable(old(config)).None? ==> r.None? && config == old(config)
      ensures RoleTable(old(config)).Some? && name in Keys(RoleTable(old(config)).value) ==>
                r == Some(false) && config == old(config)
      ensures RoleTable(old(config)).Some? && name !in Keys(RoleTable(old(config)).value) ==>
                r == Some(saved)
                && config == WithRole(old(config), name, RoleEntry(permissions, description))
    {
      var table := RoleTable(config);
      if table.None? {
        return None;
      }
      if name in Keys(table.value) {
        return Some(false);
      }
      config := WithRole(config, name, RoleEntry(permissions, description));
      return Some(saved);
    }

    /** `update_config`: merges the updates into the configuration and
        reports whether saving succeeded; updates that are not a dict make
        the merge raise, and nothing changes. */
    method UpdateConfig(updates: Json, saved: bool) returns (ok: bool)
      requires Valid()
      modifies this
      ensures Valid()
      ensures updates.JObj? ==> config == JObj(Merge(old(config).fields, updates)) && ok == saved
      ensures !updates.JObj? ==> config == old(config) && !ok
    {
      if !updates.JObj? {
        return false;
      }
      config := JObj(Merge(config.fields, updates));
      ok := saved;
    }
  }
}
