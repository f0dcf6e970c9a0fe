/** Scoped authorization: point decisions and listing filters (backend/internal/domain/authz/authz.go,
    backend/internal/app/authz/resolver.go), and API token scopes (backend/internal/app/auth/service.go). */
module Authorization {
  import opened Wrappers

  type Id = nat
  type Permission = string

  datatype Scope = Global | OnServer(server: Id) | OnDatabase(database: Id)

  datatype Grant = Grant(permission: Permission, scope: Scope)

  // ---- Decisions ---------------------------------------------------------------------------------

  /** A grant of perm covers a resource with these ancestors. */
  predicate Confers(g: Grant, perm: Permission, covers: seq<Scope>) {
    g.permission == perm && (g.scope.Global? || g.scope in covers)
  }

  predicate Allowed(grants: seq<Grant>, perm: Permission, covers: seq<Scope>) {
    exists i :: 0 <= i < |grants| && Confers(grants[i], perm, covers)
  }

  method Allow(grants: seq<Grant>, perm: Permission, covers: seq<Scope>) returns (ok: bool)
    ensures ok <==> Allowed(grants, perm, covers)
  {
    for i := 0 to |grants|
      invariant forall j :: 0 <= j < i ==> !Confers(grants[j], perm, covers)
    {
      var g := grants[i];
      if g.permission != perm {
        continue;
      }
      if g.scope.Global? || g.scope in covers {
        return true;
      }
    }
    return false;
  }

  // ---- Listing filters -----------------------------------------------------------------------------

  datatype ReadSet = ReadSet(all: bool, servers: seq<Id>, databases: seq<Id>)

  /** What a read set may stand for: everything if a global grant is held, else exactly the granted ids. */
  predicate Reads(grants: seq<Grant>, perm: Permission, rs: ReadSet) {
    && (rs.all <==> Grant(perm, Global) in grants)
    && (!rs.all ==> && (forall s :: s in rs.servers ==> Grant(perm, OnServer(s)) in grants)
                    && (forall d :: d in rs.databases ==> Grant(perm, OnDatabase(d)) in grants)
                    && (forall g :: g in grants && g.permission == perm ==>
                          match g.scope case Global => false case OnServer(s) => s in rs.servers case OnDatabase(d) => d in rs.databases))
  }

  method ReadableScope(grants: seq<Grant>, perm: Permission) returns (rs: ReadSet)
    ensures Reads(grants, perm, rs)
  {
    rs := ReadSet(false, [], []);
    for i := 0 to |grants|
      invariant !rs.all && Reads(grants[..i], perm, rs)
    {
      var g := grants[i];
      assert grants[..i + 1] == grants[..i] + [g];
      if g.permission != perm {
        continue;
      }
      match g.scope
      case Global =>
        assert g in grants;
        return ReadSet(true, [], []);
      case OnServer(s) => rs := rs.(servers := rs.servers + [s]);
      case OnDatabase(d) => rs := rs.(databases := rs.databases + [d]);
    }
    assert grants[..|grants|] == grants;
  }

  /** The listing condition on a database: no restriction, or its id or its server's among the granted
      ones. A server that is NULL is among none. */
  predicate Admits(rs: ReadSet, database: Id, server: Option<Id>) {
    rs.all || database in rs.databases || (server.Some? && server.value in rs.servers)
  }

  // ---- Ancestries ------------------------------------------------------------------------------------

  datatype Resource = Server(id: Id) | Instance(id: Id) | Database(id: Id) | Backup(id: Id) | Operation(id: Id) | Other

  /** The metadata store: an instance's server may be NULL; a job may have no resource. nullServer is what
      reading a NULL server gives: an id, or a failure. */
  datatype Store = Store(serverOf: map<Id, Option<Id>>, instanceOf: map<Id, Id>, databaseOf: map<Id, Id>,
                         resourceOf: map<Id, Option<Resource>>, nullServer: Option<Id>)

  function ReadServer(st: Store, instance: Id): Option<Id> {
    if instance !in st.serverOf then None
    else if st.serverOf[instance].Some? then st.serverOf[instance] else st.nullServer
  }

  /** Jobs are about databases, backups, instances or servers, not about jobs. */
  predicate JobsAreNotNested(st: Store) {
    forall j :: j in st.resourceOf && st.resourceOf[j].Some? ==> !st.resourceOf[j].value.Operation?
  }

  /** The scopes that cover a resource, or None if it cannot be found. */
  function Ancestry(st: Store, r: Resource): Option<seq<Scope>>
    requires JobsAreNotNested(st)
    decreases match r case Operation(_) => 2 case Backup(_) => 1 case _ => 0
  {
    match r
    case Server(id) => Some([OnServer(id)])
    case Instance(id) =>
      var s := ReadServer(st, id);
      if s.None? then None else Some([OnServer(s.value)])
    case Database(id) =>
      if id !in st.instanceOf then None
      else
        var s := ReadServer(st, st.instanceOf[id]);
        if s.None? then None else Some([OnDatabase(id), OnServer(s.value)])
    case Backup(id) => if id !in st.databaseOf then None else Ancestry(st, Database(st.databaseOf[id]))
    case Operation(id) =>
      if id !in st.resourceOf then None
      else if st.resourceOf[id].None? then Some([])
      else Ancestry(st, st.resourceOf[id].value)
    case Other => Some([])
  }

  // ---- Listing agrees with deciding --------------------------------------------------------------------

  predicate Known(st: Store, database: Id) {
    database in st.instanceOf && st.instanceOf[database] in st.serverOf
  }

  function ServerOfDatabase(st: Store, database: Id): Option<Id>
    requires Known(st, database)
  {
    st.serverOf[st.instanceOf[database]]
  }

  lemma GrantAllows(grants: seq<Grant>, g: Grant, perm: Permission, covers: seq<Scope>)
    requires g in grants && Confers(g, perm, covers)
    ensures Allowed(grants, perm, covers)
  {
    var i :| 0 <= i < |grants| && grants[i] == g;
    assert Confers(grants[i], perm, covers);
  }

  /** For any grants and permission, a listing shows a database whose instance has a server exactly
      when access to that database is allowed. */
  lemma ListingAgrees(st: Store, grants: seq<Grant>, perm: Permission, rs: ReadSet, database: Id)
    requires JobsAreNotNested(st) && Known(st, database) && ServerOfDatabase(st, database).Some? && Reads(grants, perm, rs)
    ensures var covers := Ancestry(st, Database(database));
            && covers.Some?
            && (Admits(rs, database, ServerOfDatabase(st, database)) <==> Allowed(grants, perm, covers.value))
  {
    var s := ServerOfDatabase(st, database).value;
    DecisionIs(grants, perm, rs, database, s);
  }

  /** A decision on a database under a server, by the read set. */
  lemma DecisionIs(grants: seq<Grant>, perm: Permission, rs: ReadSet, database: Id, server: Id)
    requires Reads(grants, perm, rs)
    ensures Allowed(grants, perm, [OnDatabase(database), OnServer(server)]) <==> Admits(rs, database, Some(server))
  {
    var covers := [OnDatabase(database), OnServer(server)];
    if rs.all {
      GrantAllows(grants, Grant(perm, Global), perm, covers);
    } else if database in rs.databases {
      GrantAllows(grants, Grant(perm, OnDatabase(database)), perm, covers);
    } else if server in rs.servers {
      GrantAllows(grants, Grant(perm, OnServer(server)), perm, covers);
    }
    if i :| 0 <= i < |grants| && Confers(grants[i], perm, covers) {
      assert grants[i] in grants;
    }
  }

  /** For a database whose instance has no server, listing and deciding agree exactly when reading the
      missing server gives an id on which the permission is not granted, or grants nothing anew. */
  lemma ListingAgreesWithoutServerIff(st: Store, grants: seq<Grant>, perm: Permission, rs: ReadSet, database: Id)
    requires JobsAreNotNested(st) && Known(st, database) && ServerOfDatabase(st, database).None? && Reads(grants, perm, rs)
    ensures var covers := Ancestry(st, Database(database));
            (covers.Some? && (Admits(rs, database, None) <==> Allowed(grants, perm, covers.value)))
            <==> st.nullServer.Some? && (rs.all || database in rs.databases || st.nullServer.value !in rs.servers)
  {
    if st.nullServer.Some? {
      DecisionIs(grants, perm, rs, database, st.nullServer.value);
    }
  }

  /** A backup, and an operation on a backup or a database, is decided as that database is. */
  lemma DependentsDecideAlike(st: Store, backup: Id, operation: Id)
    requires JobsAreNotNested(st)
    ensures backup in st.databaseOf ==> Ancestry(st, Backup(backup)) == Ancestry(st, Database(st.databaseOf[backup]))
    ensures operation in st.resourceOf && st.resourceOf[operation].Some? && st.resourceOf[operation].value.Backup?
            && st.resourceOf[operation].value.id in st.databaseOf ==>
              Ancestry(st, Operation(operation)) == Ancestry(st, Database(st.databaseOf[st.resourceOf[operation].value.id]))
  {
  }

  /** A job without a resource is open to global grants alone. */
  lemma UnscopedNeedsGlobal(grants: seq<Grant>, perm: Permission)
    ensures Allowed(grants, perm, []) <==> Grant(perm, Global) in grants
  {
    if Grant(perm, Global) in grants {
      GrantAllows(grants, Grant(perm, Global), perm, []);
    }
    if i :| 0 <= i < |grants| && Confers(grants[i], perm, []) {
      assert grants[i] in grants;
    }
  }

  // ---- API tokens --------------------------------------------------------------------------------------

  function KeepPermitted(grants: seq<Grant>, scopes: set<Permission>): (out: seq<Grant>)
    ensures forall g :: g in out <==> g in grants && g.permission in scopes
  {
    if grants == [] then []
    else KeepPermitted(grants[..|grants| - 1], scopes)
         + if grants[|grants| - 1].permission in scopes then [grants[|grants| - 1]] else []
  }

  function SetOf(scopes: seq<Permission>): set<Permission> {
    set i | 0 <= i < |scopes| :: scopes[i]
  }

  method RestrictToScopes(grants: seq<Grant>, scopes: seq<Permission>) returns (out: seq<Grant>)
    ensures out == KeepPermitted(grants, SetOf(scopes))
  {
    var allow: set<Permission> := {};
    for i := 0 to |scopes|
      invariant allow == SetOf(scopes[..i])
    {
      assert SetOf(scopes[..i + 1]) == SetOf(scopes[..i]) + {scopes[i]} by {
        assert scopes[..i + 1] == scopes[..i] + [scopes[i]];
        SetOfSnoc(scopes[..i], scopes[i]);
      }
      allow := allow + {scopes[i]};
    }
    assert scopes[..|scopes|] == scopes;
    out := [];
    for i := 0 to |grants|
      invariant out == KeepPermitted(grants[..i], allow)
    {
      assert grants[..i + 1][..i] == grants[..i];
      if grants[i].permission in allow {
        out := out + [grants[i]];
      }
    }
    assert grants[..|grants|] == grants;
  }

  lemma SetOfSnoc(scopes: seq<Permission>, p: Permission)
    ensures SetOf(scopes + [p]) == SetOf(scopes) + {p}
  {
    var all := scopes + [p];
    forall x | x in SetOf(scopes) + {p} ensures x in SetOf(all) {
      if x == p {
        assert all[|scopes|] == p;
      } else {
        var i :| 0 <= i < |scopes| && scopes[i] == x;
        assert all[i] == x;
      }
    }
  }

  /** What a token confers: its user's grants within its scopes, or all of them when it names none. */
  function TokenGrants(grants: seq<Grant>, scopes: seq<Permission>): seq<Grant> {
    if |scopes| > 0 then KeepPermitted(grants, SetOf(scopes)) else grants
  }

  datatype User = User(active: bool, tokenEpoch: int)

  datatype Principal = Principal(grants: seq<Grant>, scopes: seq<Permission>)

  datatype AuthError = NoAccount | Suspended | SessionExpired | GrantsUnavailable

  /** The principal of a session, or of a token with its scopes; a negative epoch is a token's. */
  method PrincipalFor(user: Option<User>, grants: Option<seq<Grant>>, tokenScopes: seq<Permission>, jwtEpoch: int)
    returns (r: Result<Principal, AuthError>)
    ensures r.Ok? <==> && user.Some? && user.value.active && grants.Some?
                       && (jwtEpoch < 0 || jwtEpoch == user.value.tokenEpoch)
    ensures r.Ok? ==> r.value == Principal(TokenGrants(grants.value, tokenScopes), tokenScopes)
    ensures user.None? ==> r == Err(NoAccount)
    ensures user.Some? && !user.value.active ==> r == Err(Suspended)
  {
    if user.None? {
      return Err(NoAccount);
    }
    if !user.value.active {
      return Err(Suspended);
    }
    if jwtEpoch >= 0 && jwtEpoch != user.value.tokenEpoch {
      return Err(SessionExpired);
    }
    if grants.None? {
      return Err(GrantsUnavailable);
    }
    var own, scopes := grants.value, [];
    if |tokenScopes| > 0 {
      own := RestrictToScopes(own, tokenScopes);
      scopes := tokenScopes;
    }
    r := Ok(Principal(own, scopes));
  }

  /** A token allows, on every resource, exactly what its user is allowed and its scopes name, if it has any. */
  lemma TokenAllowsIff(grants: seq<Grant>, scopes: seq<Permission>, perm: Permission, covers: seq<Scope>)
    ensures Allowed(TokenGrants(grants, scopes), perm, covers)
            <==> Allowed(grants, perm, covers) && (|scopes| == 0 || perm in scopes)
  {
    if |scopes| > 0 {
      var kept := KeepPermitted(grants, SetOf(scopes));
      assert perm in scopes <==> perm in SetOf(scopes);
      if i :| 0 <= i < |kept| && Confers(kept[i], perm, covers) {
        assert kept[i] in kept;
        GrantAllows(grants, kept[i], perm, covers);
      }
      if i :| 0 <= i < |grants| && Confers(grants[i], perm, covers) {
        if perm in scopes {
          assert grants[i] in grants;
          GrantAllows(kept, grants[i], perm, covers);
        }
      }
    }
  }

  /** So do a token's listings: they show nothing outside its scopes, and all of its user's inside. */
  lemma TokenListsIff(grants: seq<Grant>, scopes: seq<Permission>, perm: Permission, mine: ReadSet, tokens: ReadSet,
                      database: Id, server: Id)
    requires Reads(grants, perm, mine) && Reads(TokenGrants(grants, scopes), perm, tokens)
    ensures Admits(tokens, database, Some(server))
            <==> Admits(mine, database, Some(server)) && (|scopes| == 0 || perm in scopes)
  {
    DecisionIs(grants, perm, mine, database, server);
    DecisionIs(TokenGrants(grants, scopes), perm, tokens, database, server);
    TokenAllowsIff(grants, scopes, perm, [OnDatabase(database), OnServer(server)]);
  }
}
