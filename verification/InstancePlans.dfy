/** What an update makes of an instance's logins and SSH tunnel, and the secret store work each change
    needs around the row update (backend/internal/app/instance: service.go, ssh.go, data_access.go). */
module InstancePlans {
  import opened Wrappers
  import opened GoText

  datatype Role = Root | Ssh | Data

  /** A secret's reference: the one fixed for a role of this instance, or any other. */
  datatype Ref = Fixed(role: Role) | Other(name: string)

  datatype Auth = PasswordAuth | KeyAuth

  datatype Secret = Password(text: string) | SshCredentials(password: string, privateKey: string, passphrase: string)

  datatype Tunnel = Tunnel(host: string, port: int, user: string, auth: Auth, secretRef: Option<Ref>, hostKey: string)

  datatype DataMode = AdminMode | LoginMode | ManagedMode

  /** The columns of an instance row that an update can touch. */
  datatype Instance = Instance(
    external: bool, provisioned: bool, name: string, host: Option<string>, port: int, tlsMode: string,
    username: Option<string>, rootRef: Option<Ref>, ssh: Option<Tunnel>,
    dataMode: DataMode, dataUsername: Option<string>, dataRef: Option<Ref>)

  datatype TunnelInput = TunnelInput(host: string, port: int, username: string, authMethod: string, password: string,
                                     privateKey: string, passphrase: string)

  datatype UpdateInput = UpdateInput(
    name: Option<string>, host: Option<string>, port: Option<int>, tlsMode: Option<string>,
    username: Option<string>, password: Option<string>, ssh: Option<TunnelInput>, removeSsh: bool, resetPin: bool,
    mode: Option<string>, dataUsername: Option<string>, dataPassword: Option<string>)

  /** What validation and network checks made elsewhere say of this input. */
  datatype Checks = Checks(name: bool, port: bool, tlsMode: bool, sshTarget: bool, target: bool, sshAuth: bool, marshal: bool)

  datatype Error = Invalid(field: string) | Refused | Broken

  /** The secret store work for one role's secret. */
  datatype Act =
    | Leave
    | PutBefore(ref: Ref, secret: Secret)  // new: stored before the row refers to it
    | PutAfter(ref: Ref, secret: Secret)   // rotation: overwritten once the row is updated
    | DeleteAfter(ref: Ref)                // no longer referred to: deleted once the row is updated

  datatype Login = Login(username: Option<string>, ref: Option<Ref>)

  // ---- Admin login -------------------------------------------------------------------------------

  datatype CredentialPlan = CredentialPlan(login: Option<Login>, act: Act, stale: Option<Ref>)

  predicate Clears(username: Option<string>) {
    username.Some? && TrimSpace(username.value) == ""
  }

  function PlanCredentials(inst: Instance, inp: UpdateInput): Result<CredentialPlan, Error> {
    if inp.username.None? && inp.password.None? then Ok(CredentialPlan(None, Leave, None))
    else if Clears(inp.username) then
      if inp.password.Some? && inp.password.value != "" then Err(Invalid("username"))
      else Ok(CredentialPlan(Some(Login(None, None)), if inst.rootRef.Some? then DeleteAfter(inst.rootRef.value) else Leave, None))
    else
      var username := if inp.username.Some? then Some(TrimSpace(inp.username.value)) else inst.username;
      if inp.password.None? then Ok(CredentialPlan(Some(Login(username, inst.rootRef)), Leave, None))
      else if inp.password.value == "" then
        Ok(CredentialPlan(Some(Login(username, None)), if inst.rootRef.Some? then DeleteAfter(inst.rootRef.value) else Leave, None))
      else if username.None? || username.value == "" then Err(Invalid("username"))
      else
        var ref, secret := Fixed(Root), Password(inp.password.value);
        Ok(CredentialPlan(Some(Login(username, Some(ref))),
                          if inst.rootRef == Some(ref) then PutAfter(ref, secret) else PutBefore(ref, secret),
                          if inst.rootRef == Some(ref) then None else inst.rootRef))
  }

  // ---- SSH tunnel ----------------------------------------------------------------------------------

  function ParseAuth(s: string): Option<Auth> {
    if s == "password" then Some(PasswordAuth) else if s == "key" then Some(KeyAuth) else None
  }

  /** The new tunnel and, when new credentials were given, those; none means the stored ones stay. */
  function BuildTunnel(inp: TunnelInput, prev: Option<Tunnel>, checks: Checks): Result<(Tunnel, Option<Secret>), Error> {
    var host := TrimSpace(inp.host);
    var port := if inp.port == 0 then 22 else inp.port;
    var user := TrimSpace(inp.username);
    var auth := ParseAuth(inp.authMethod);
    if host == "" then Err(Invalid("ssh_tunnel.host"))
    else if port < 1 || port > 65535 then Err(Invalid("ssh_tunnel.port"))
    else if user == "" then Err(Invalid("ssh_tunnel.username"))
    else if auth.None? then Err(Invalid("ssh_tunnel.auth_method"))
    else
      var hostKey := if prev.Some? && prev.value.host == host && prev.value.port == port then prev.value.hostKey else "";
      var t := Tunnel(host, port, user, auth.value, None, hostKey);
      var creds := if auth.value.KeyAuth? then SshCredentials("", inp.privateKey, inp.passphrase) else SshCredentials(inp.password, "", "");
      if creds.password == "" && TrimSpace(creds.privateKey) == "" then
        if prev.Some? && prev.value.secretRef.Some? && prev.value.host == host && prev.value.user == user && prev.value.auth == auth.value
        then Ok((t.(secretRef := prev.value.secretRef), None))
        else Err(Invalid(if auth.value.KeyAuth? then "ssh_tunnel.private_key" else "ssh_tunnel.password"))
      else if !checks.sshAuth then Err(Invalid("ssh_tunnel"))
      else Ok((t, Some(creds)))
  }

  /** tunnel None leaves the tunnel as it is, unless remove says otherwise. */
  datatype SshPlan = SshPlan(tunnel: Option<Tunnel>, remove: bool, resetPin: bool, rerouted: bool, act: Act)

  function PlanSsh(inst: Instance, inp: UpdateInput, checks: Checks): Result<SshPlan, Error> {
    if inp.ssh.None? && !inp.removeSsh && !inp.resetPin then Ok(SshPlan(None, false, false, false, Leave))
    else if !inst.external then Err(Invalid("ssh_tunnel"))
    else if inp.removeSsh then
      if inp.ssh.Some? then Err(Invalid("ssh_tunnel"))
      else if inst.ssh.None? then Ok(SshPlan(None, false, false, false, Leave))
      else
        var ref := inst.ssh.value.secretRef;
        Ok(SshPlan(None, true, false, true, if ref.Some? then DeleteAfter(ref.value) else Leave))
    else if inp.ssh.None? then
      if inst.ssh.None? then Err(Invalid("reset_ssh_host_key")) else Ok(SshPlan(None, false, true, false, Leave))
    else
      match BuildTunnel(inp.ssh.value, inst.ssh, checks)
      case Err(e) => Err(e)
      case Ok((built, creds)) =>
        var t := if inp.resetPin then built.(hostKey := "") else built;
        var rerouted := inst.ssh.None? || inst.ssh.value.host != t.host || inst.ssh.value.port != t.port;
        if creds.None? then Ok(SshPlan(Some(t), false, false, rerouted, Leave))
        else if !checks.marshal then Err(Broken)
        else
          var ref := Fixed(Ssh);
          Ok(SshPlan(Some(t.(secretRef := Some(ref))), false, false, rerouted,
                     if inst.ssh.Some? && inst.ssh.value.secretRef == Some(ref) then PutAfter(ref, creds.value)
                     else PutBefore(ref, creds.value)))
  }

  // ---- Data access -----------------------------------------------------------------------------------

  datatype DataPlan = DataPlan(mode: Option<DataMode>, login: Option<Login>, act: Act)

  function ParseMode(s: string): Option<DataMode> {
    if s == "admin" then Some(AdminMode) else if s == "login" then Some(LoginMode)
    else if s == "managed" then Some(ManagedMode) else None
  }

  predicate Given(s: Option<string>) {
    s.Some? && s.value != ""
  }

  function PlanDataAccess(inst: Instance, inp: UpdateInput, rerouted: bool): Result<DataPlan, Error> {
    var parsed := if inp.mode.Some? then ParseMode(TrimSpace(inp.mode.value)) else Some(inst.dataMode);
    if parsed.None? then Err(Invalid("data_access"))
    else
      var mode := if parsed.value != inst.dataMode then parsed else None;
      if parsed.value != LoginMode then
        if (inp.dataUsername.Some? && TrimSpace(inp.dataUsername.value) != "") || Given(inp.dataPassword) then
          Err(Invalid("data_username"))
        else if inst.dataUsername.Some? || inst.dataRef.Some? then
          Ok(DataPlan(mode, Some(Login(None, None)), if inst.dataRef.Some? then DeleteAfter(inst.dataRef.value) else Leave))
        else Ok(DataPlan(mode, None, Leave))
      else
        var old' := if inst.dataUsername.Some? then inst.dataUsername.value else "";
        var username := if inp.dataUsername.Some? then TrimSpace(inp.dataUsername.value) else old';
        if username == "" then Err(Invalid("data_username"))
        else if !Given(inp.dataPassword) then
          if inst.dataRef.None? || username != old' || rerouted then Err(Invalid("data_password"))
          else Ok(DataPlan(mode, if inp.dataUsername.Some? then Some(Login(Some(username), inst.dataRef)) else None, Leave))
        else
          var ref, secret := Fixed(Data), Password(inp.dataPassword.value);
          Ok(DataPlan(mode, Some(Login(Some(username), Some(ref))),
                      if inst.dataRef == Some(ref) then PutAfter(ref, secret) else PutBefore(ref, secret)))
  }

  // ---- The whole update --------------------------------------------------------------------------------

  /** The new row and the secret work around it. */
  datatype Plan = Plan(row: Instance, root: Act, ssh: Act, data: Act, stale: Option<Ref>)

  predicate Proves(inp: UpdateInput) {
    inp.password.Some? || Clears(inp.username)
  }

  predicate HostChanges(inst: Instance, inp: UpdateInput) {
    inp.host.Some? && (inst.host.None? || TrimSpace(inp.host.value) != inst.host.value)
  }

  /** The row after the update statement. */
  function NewRow(inst: Instance, inp: UpdateInput, ssh: SshPlan, creds: CredentialPlan, data: DataPlan): Instance {
    inst.(name := if inp.name.Some? then TrimSpace(inp.name.value) else inst.name,
          host := if inp.host.Some? then Some(TrimSpace(inp.host.value)) else inst.host,
          port := if inp.port.Some? then inp.port.value else inst.port,
          tlsMode := if inp.tlsMode.Some? then inp.tlsMode.value else inst.tlsMode,
          username := if creds.login.Some? then creds.login.value.username else inst.username,
          rootRef := if creds.login.Some? then creds.login.value.ref else inst.rootRef,
          ssh := if ssh.remove then None
                 else if ssh.tunnel.Some? then ssh.tunnel
                 else if ssh.resetPin && inst.ssh.Some? then Some(inst.ssh.value.(hostKey := ""))
                 else inst.ssh,
          dataMode := if data.mode.Some? then data.mode.value else inst.dataMode,
          dataUsername := if data.login.Some? then data.login.value.username else inst.dataUsername,
          dataRef := if data.login.Some? then data.login.value.ref else inst.dataRef)
  }

  function MakePlan(inst: Instance, inp: UpdateInput, checks: Checks): Result<Plan, Error> {
    if inp.name.Some? && !checks.name then Err(Invalid("name"))
    else if inp.host.Some? && !inst.external then Err(Invalid("host"))
    else if inp.host.Some? && TrimSpace(inp.host.value) == "" then Err(Invalid("host"))
    else if HostChanges(inst, inp) && inst.rootRef.Some? && !Proves(inp) then Err(Invalid("password"))
    else if inp.port.Some? && (inst.provisioned || !checks.port) then Err(Invalid("port"))
    else if inp.tlsMode.Some? && (inp.tlsMode.value == "" || !checks.tlsMode) then Err(Invalid("tls_mode"))
    else
      match PlanSsh(inst, inp, checks)
      case Err(e) => Err(e)
      case Ok(ssh) =>
        var tunnelled := (inst.ssh.Some? && !ssh.remove) || ssh.tunnel.Some?;
        if ssh.tunnel.Some? && !checks.sshTarget then Err(Refused)
        else if ssh.rerouted && inst.rootRef.Some? && !Proves(inp) then Err(Invalid("password"))
        else if inst.external && !tunnelled && (inp.host.Some? || inp.port.Some? || ssh.remove) && !checks.target then Err(Refused)
        else
          match PlanCredentials(inst, inp)
          case Err(e) => Err(e)
          case Ok(creds) =>
            match PlanDataAccess(inst, inp, HostChanges(inst, inp) || ssh.rerouted)
            case Err(e) => Err(e)
            case Ok(data) => Ok(Plan(NewRow(inst, inp, ssh, creds, data), creds.act, ssh.act, data.act, creds.stale))
  }

  // ---- What the plans keep to ----------------------------------------------------------------------------

  function SshRef(inst: Instance): Option<Ref> {
    if inst.ssh.Some? then inst.ssh.value.secretRef else None
  }

  /** Where connections go: the host, and the bastion they go through. */
  function Route(inst: Instance): (Option<string>, Option<(string, int)>) {
    (inst.host, if inst.ssh.Some? then Some((inst.ssh.value.host, inst.ssh.value.port)) else None)
  }

  /** How an act takes a role's reference from before to after: a new secret is stored under a
      reference not in use, a rotation keeps the reference, and a deletion drops it. */
  predicate Fits(act: Act, role: Role, before: Option<Ref>, after: Option<Ref>) {
    match act
    case Leave => after == before
    case PutBefore(ref, _) => ref == Fixed(role) && after == Some(ref) && before != Some(ref)
    case PutAfter(ref, _) => ref == Fixed(role) && after == Some(ref) && before == Some(ref)
    case DeleteAfter(ref) => after.None? && before == Some(ref)
  }

  predicate PlanFits(inst: Instance, p: Plan) {
    && Fits(p.root, Root, inst.rootRef, p.row.rootRef)
    && Fits(p.ssh, Ssh, SshRef(inst), SshRef(p.row))
    && Fits(p.data, Data, inst.dataRef, p.row.dataRef)
    && (p.stale.Some? ==> p.stale == inst.rootRef && p.root.PutBefore?)
  }

  function Supplied(password: Option<string>): Option<Secret> {
    if password.Some? then Some(Password(password.value)) else None
  }

  /** The three plans an accepted update is made of. */
  lemma PlanParts(inst: Instance, inp: UpdateInput, checks: Checks) returns (ssh: SshPlan, creds: CredentialPlan, data: DataPlan)
    requires MakePlan(inst, inp, checks).Ok?
    ensures PlanSsh(inst, inp, checks) == Ok(ssh) && PlanCredentials(inst, inp) == Ok(creds)
    ensures PlanDataAccess(inst, inp, HostChanges(inst, inp) || ssh.rerouted) == Ok(data)
    ensures MakePlan(inst, inp, checks).value == Plan(NewRow(inst, inp, ssh, creds, data), creds.act, ssh.act, data.act, creds.stale)
    ensures (HostChanges(inst, inp) || ssh.rerouted) && inst.rootRef.Some? ==> Proves(inp)
    ensures inp.host.Some? ==> inst.external
  {
    ssh, creds := PlanSsh(inst, inp, checks).value, PlanCredentials(inst, inp).value;
    data := PlanDataAccess(inst, inp, HostChanges(inst, inp) || ssh.rerouted).value;
  }

  lemma CredentialsFit(inst: Instance, inp: UpdateInput)
    requires PlanCredentials(inst, inp).Ok?
    ensures var p := PlanCredentials(inst, inp).value;
            var after := if p.login.Some? then p.login.value.ref else inst.rootRef;
            && Fits(p.act, Root, inst.rootRef, after)
            && (p.stale.Some? ==> p.stale == inst.rootRef && p.act.PutBefore?)
            && (inst.rootRef.None? || Proves(inp) ==> after.Some? ==>
                  (p.act.PutBefore? || p.act.PutAfter?) && Some(p.act.secret) == Supplied(inp.password))
  {
  }

  lemma SshFits(inst: Instance, inp: UpdateInput, checks: Checks)
    requires PlanSsh(inst, inp, checks).Ok?
    ensures var p := PlanSsh(inst, inp, checks).value;
            var after := if p.remove then None else if p.tunnel.Some? then p.tunnel.value.secretRef else SshRef(inst);
            Fits(p.act, Ssh, SshRef(inst), after) && !(p.remove && p.tunnel.Some?)
  {
  }

  lemma DataFits(inst: Instance, inp: UpdateInput, rerouted: bool)
    requires PlanDataAccess(inst, inp, rerouted).Ok?
    ensures var p := PlanDataAccess(inst, inp, rerouted).value;
            var after := if p.login.Some? then p.login.value.ref else inst.dataRef;
            && Fits(p.act, Data, inst.dataRef, after)
            && (rerouted && after.Some? ==> (p.act.PutBefore? || p.act.PutAfter?) && Some(p.act.secret) == Supplied(inp.dataPassword))
  {
  }

  lemma PlansFit(inst: Instance, inp: UpdateInput, checks: Checks)
    requires MakePlan(inst, inp, checks).Ok?
    ensures PlanFits(inst, MakePlan(inst, inp, checks).value)
  {
    var ssh, creds, data := PlanParts(inst, inp, checks);
    CredentialsFit(inst, inp);
    SshFits(inst, inp, checks);
    DataFits(inst, inp, HostChanges(inst, inp) || ssh.rerouted);
  }

  /** The route changes only when the plans count it as changed. */
  lemma RouteChangesAreCounted(inst: Instance, inp: UpdateInput, checks: Checks, ssh: SshPlan, creds: CredentialPlan, data: DataPlan)
    requires PlanSsh(inst, inp, checks) == Ok(ssh)
    ensures Route(NewRow(inst, inp, ssh, creds, data)) != Route(inst) ==> HostChanges(inst, inp) || ssh.rerouted
  {
  }

  /** After a plan that changes the route, an admin or data secret is kept only if this very update supplies it. */
  lemma RerouteNeedsSecrets(inst: Instance, inp: UpdateInput, checks: Checks)
    requires MakePlan(inst, inp, checks).Ok?
    ensures var p := MakePlan(inst, inp, checks).value;
            Route(p.row) != Route(inst) ==>
              && (p.row.rootRef.Some? ==> (p.root.PutBefore? || p.root.PutAfter?) && Some(p.root.secret) == Supplied(inp.password))
              && (p.row.dataRef.Some? ==> (p.data.PutBefore? || p.data.PutAfter?) && Some(p.data.secret) == Supplied(inp.dataPassword))
  {
    var ssh, creds, data := PlanParts(inst, inp, checks);
    RouteChangesAreCounted(inst, inp, checks, ssh, creds, data);
    CredentialsFit(inst, inp);
    DataFits(inst, inp, HostChanges(inst, inp) || ssh.rerouted);
  }

  /** A stored SSH secret goes on being used only towards the same bastion host, as the same user and
      with the same method; a changed port alone does not count. */
  lemma SshSecretKeptFor(inst: Instance, inp: UpdateInput, checks: Checks)
    requires MakePlan(inst, inp, checks).Ok?
    ensures var p := MakePlan(inst, inp, checks).value;
            p.row.ssh.Some? && p.ssh.Leave? ==>
              && inst.ssh.Some?
              && p.row.ssh.value.host == inst.ssh.value.host && p.row.ssh.value.user == inst.ssh.value.user
              && p.row.ssh.value.auth == inst.ssh.value.auth && p.row.ssh.value.secretRef == inst.ssh.value.secretRef
  {
  }
}
