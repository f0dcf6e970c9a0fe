/** Updating an instance: secret store work around one row update, any step of which may fail
    (backend/internal/app/instance/service.go, Update). A failing step is taken to have no effect, and
    the foreign keys from the row to the store, which only ever clear a reference, are not relied on. */
module InstanceUpdate {
  import opened Wrappers
  import opened GoText
  import opened InstancePlans

  type Secrets = map<Ref, Secret>

  /** The places where the store or the row write may fail. */
  datatype Point = Before(role: Role) | TakeBack(role: Role) | RowWrite | After(role: Role) | Stale

  datatype State = State(row: Instance, secrets: Secrets)

  // ---- The steps, in order -----------------------------------------------------------------------

  function PutNew(secrets: Secrets, act: Act, fault: bool): (Secrets, bool) {
    if act.PutBefore? then if fault then (secrets, false) else (secrets[act.ref := act.secret], true)
    else (secrets, true)
  }

  function TakenBack(secrets: Secrets, act: Act, fault: bool): Secrets {
    if act.PutBefore? && !fault then secrets - {act.ref} else secrets
  }

  function Settle(secrets: Secrets, act: Act, fault: bool): (Secrets, bool) {
    match act
    case PutAfter(ref, secret) => if fault then (secrets, false) else (secrets[ref := secret], true)
    case DeleteAfter(ref) => if fault then (secrets, false) else (secrets - {ref}, true)
    case _ => (secrets, true)
  }

  /** New secrets first; whatever was put is taken back when a later one, or the row write, fails. */
  function PutAll(p: Plan, secrets: Secrets, faults: set<Point>): (Secrets, bool) {
    var (s1, ok1) := PutNew(secrets, p.root, Before(Root) in faults);
    if !ok1 then (s1, false)
    else
      var (s2, ok2) := PutNew(s1, p.ssh, Before(Ssh) in faults);
      if !ok2 then (TakenBack(s2, p.root, TakeBack(Root) in faults), false)
      else
        var (s3, ok3) := PutNew(s2, p.data, Before(Data) in faults);
        if !ok3 then (TakenBack(TakenBack(s3, p.root, TakeBack(Root) in faults), p.ssh, TakeBack(Ssh) in faults), false)
        else (s3, true)
  }

  function TakeAllBack(p: Plan, secrets: Secrets, faults: set<Point>): Secrets {
    TakenBack(TakenBack(TakenBack(secrets, p.root, TakeBack(Root) in faults), p.ssh, TakeBack(Ssh) in faults),
              p.data, TakeBack(Data) in faults)
  }

  /** Rotations and deletions once the row is updated, stopping at the first failure. */
  function SettleAll(p: Plan, secrets: Secrets, faults: set<Point>): (Secrets, bool) {
    var (s1, ok1) := Settle(secrets, p.data, After(Data) in faults);
    if !ok1 then (s1, false)
    else
      var (s2, ok2) := Settle(s1, p.ssh, After(Ssh) in faults);
      if !ok2 then (s2, false)
      else
        var (s3, ok3) := Settle(s2, p.root, After(Root) in faults);
        (if ok3 && p.stale.Some? && !(Stale in faults) then s3 - {p.stale.value} else s3, ok3)
  }

  function Executed(s: State, p: Plan, faults: set<Point>): (State, bool) {
    var (put, ok) := PutAll(p, s.secrets, faults);
    if !ok then (s.(secrets := put), false)
    else if RowWrite in faults then (s.(secrets := TakeAllBack(p, put, faults)), false)
    else
      var (settled, done) := SettleAll(p, put, faults);
      (State(p.row, settled), done)
  }

  function Updated(s: State, inp: UpdateInput, checks: Checks, faults: set<Point>): (State, Result<(), Error>) {
    match MakePlan(s.row, inp, checks)
    case Err(e) => (s, Err(e))
    case Ok(p) => var (s', ok) := Executed(s, p, faults); (s', if ok then Ok(()) else Err(Broken))
  }

  class Service {
    var row: Instance
    var secrets: Secrets

    constructor (row: Instance, secrets: Secrets)
      ensures Now() == State(row, secrets)
    {
      this.row, this.secrets := row, secrets;
    }

    function Now(): State
      reads this
    {
      State(row, secrets)
    }

    method Put(ref: Ref, secret: Secret, fault: bool) returns (ok: bool)
      modifies this`secrets
      ensures ok == !fault && secrets == if ok then old(secrets)[ref := secret] else old(secrets)
    {
      ok := !fault;
      if ok {
        secrets := secrets[ref := secret];
      }
    }

    method Remove(ref: Ref, fault: bool) returns (ok: bool)
      modifies this`secrets
      ensures ok == !fault && secrets == if ok then old(secrets) - {ref} else old(secrets)
    {
      ok := !fault;
      if ok {
        secrets := secrets - {ref};
      }
    }

    /** Stores the new secrets, or takes back what was stored and fails. */
    method PutNewSecrets(p: Plan, faults: set<Point>) returns (ok: bool)
      modifies this`secrets
      ensures (secrets, ok) == PutAll(p, old(secrets), faults)
    {
      if p.root.PutBefore? {
        ok := Put(p.root.ref, p.root.secret, Before(Root) in faults);
        if !ok {
          return;
        }
      }
      if p.ssh.PutBefore? {
        ok := Put(p.ssh.ref, p.ssh.secret, Before(Ssh) in faults);
        if !ok {
          if p.root.PutBefore? {
            var _ := Remove(p.root.ref, TakeBack(Root) in faults);
          }
          return;
        }
      }
      if p.data.PutBefore? {
        ok := Put(p.data.ref, p.data.secret, Before(Data) in faults);
        if !ok {
          if p.root.PutBefore? {
            var _ := Remove(p.root.ref, TakeBack(Root) in faults);
          }
          if p.ssh.PutBefore? {
            var _ := Remove(p.ssh.ref, TakeBack(Ssh) in faults);
          }
          return;
        }
      }
      ok := true;
    }

    method RemoveNewSecrets(p: Plan, faults: set<Point>)
      modifies this`secrets
      ensures secrets == TakeAllBack(p, old(secrets), faults)
    {
      if p.root.PutBefore? {
        var _ := Remove(p.root.ref, TakeBack(Root) in faults);
      }
      if p.ssh.PutBefore? {
        var _ := Remove(p.ssh.ref, TakeBack(Ssh) in faults);
      }
      if p.data.PutBefore? {
        var _ := Remove(p.data.ref, TakeBack(Data) in faults);
      }
    }

    method SettleSecrets(p: Plan, faults: set<Point>) returns (ok: bool)
      modifies this`secrets
      ensures (secrets, ok) == SettleAll(p, old(secrets), faults)
    {
      ok := SettleOne(p.data, After(Data) in faults);
      if !ok {
        return;
      }
      ok := SettleOne(p.ssh, After(Ssh) in faults);
      if !ok {
        return;
      }
      ok := SettleOne(p.root, After(Root) in faults);
      if !ok {
        return;
      }
      if p.stale.Some? {
        var _ := Remove(p.stale.value, Stale in faults);
      }
    }

    /** Applies a partial change to the instance and its secrets. */
    method Update(inp: UpdateInput, checks: Checks, faults: set<Point>) returns (r: Result<(), Error>)
      modifies this
      ensures (Now(), r) == Updated(old(Now()), inp, checks, faults)
    {
      var planned := MakePlan(row, inp, checks);
      if planned.Err? {
        return Err(planned.error);
      }
      var p := planned.value;
      var ok := PutNewSecrets(p, faults);
      if !ok {
        return Err(Broken);
      }
      if RowWrite in faults {
        RemoveNewSecrets(p, faults);
        return Err(Broken);
      }
      row := p.row;
      ok := SettleSecrets(p, faults);
      r := if ok then Ok(()) else Err(Broken);
    }

    method SettleOne(act: Act, fault: bool) returns (ok: bool)
      modifies this`secrets
      ensures (secrets, ok) == Settle(old(secrets), act, fault)
    {
      ok := true;
      if act.PutAfter? {
        ok := Put(act.ref, act.secret, fault);
      } else if act.DeleteAfter? {
        ok := Remove(act.ref, fault);
      }
    }
  }

  // ---- What no failure can break -------------------------------------------------------------------

  function RefsOf(row: Instance): set<Ref> {
    (if row.rootRef.Some? then {row.rootRef.value} else {}) + (if SshRef(row).Some? then {SshRef(row).value} else {})
    + (if row.dataRef.Some? then {row.dataRef.value} else {})
  }

  predicate Owned(ref: Option<Ref>, role: Role) {
    ref.Some? && ref.value.Fixed? ==> ref.value.role == role
  }

  /** No two of the row's references name the same secret, and fixed ones name their own role's. */
  predicate Apart(row: Instance) {
    && Owned(row.rootRef, Root) && Owned(SshRef(row), Ssh) && Owned(row.dataRef, Data)
    && (row.rootRef.Some? ==> row.rootRef != SshRef(row) && row.rootRef != row.dataRef)
    && (SshRef(row).Some? ==> SshRef(row) != row.dataRef)
  }

  predicate NoneMissing(s: State) {
    RefsOf(s.row) <= s.secrets.Keys
  }

  predicate SameSecrets(a: Secrets, b: Secrets, refs: set<Ref>) {
    forall ref :: ref in refs && ref in a ==> ref in b && b[ref] == a[ref]
  }

  /** A secret newly put for one role is none that the old row refers to. */
  lemma NewRefsUnused(inst: Instance, p: Plan)
    requires PlanFits(inst, p) && Apart(inst)
    ensures p.root.PutBefore? ==> p.root.ref !in RefsOf(inst)
    ensures p.ssh.PutBefore? ==> p.ssh.ref !in RefsOf(inst)
    ensures p.data.PutBefore? ==> p.data.ref !in RefsOf(inst)
  {
  }

  lemma SameAfterPut(a: Secrets, b: Secrets, act: Act, fault: bool, refs: set<Ref>)
    requires SameSecrets(a, b, refs) && (act.PutBefore? ==> act.ref !in refs)
    ensures SameSecrets(a, PutNew(b, act, fault).0, refs) && SameSecrets(a, TakenBack(b, act, fault), refs)
  {
  }

  /** Nothing done before the row is written touches a secret the row refers to, ... */
  lemma PutAllKeepsOld(inst: Instance, p: Plan, secrets: Secrets, faults: set<Point>)
    requires PlanFits(inst, p) && Apart(inst)
    ensures SameSecrets(secrets, PutAll(p, secrets, faults).0, RefsOf(inst))
  {
    NewRefsUnused(inst, p);
    PutAllKeeps(p, secrets, faults, RefsOf(inst));
  }

  lemma PutAllKeeps(p: Plan, secrets: Secrets, faults: set<Point>, refs: set<Ref>)
    requires (p.root.PutBefore? ==> p.root.ref !in refs) && (p.ssh.PutBefore? ==> p.ssh.ref !in refs)
    requires p.data.PutBefore? ==> p.data.ref !in refs
    ensures SameSecrets(secrets, PutAll(p, secrets, faults).0, refs)
  {
    var s1 := PutNew(secrets, p.root, Before(Root) in faults).0;
    var s2 := PutNew(s1, p.ssh, Before(Ssh) in faults).0;
    SameAfterPut(secrets, secrets, p.root, Before(Root) in faults, refs);
    SameAfterPut(secrets, s1, p.ssh, Before(Ssh) in faults, refs);
    SameAfterPut(secrets, s2, p.data, Before(Data) in faults, refs);
    SameAfterPut(secrets, s2, p.root, TakeBack(Root) in faults, refs);
    var s3 := PutNew(s2, p.data, Before(Data) in faults).0;
    SameAfterPut(secrets, s3, p.root, TakeBack(Root) in faults, refs);
    SameAfterPut(secrets, TakenBack(s3, p.root, TakeBack(Root) in faults), p.ssh, TakeBack(Ssh) in faults, refs);
  }

  /** ... nor does taking it back when the row write fails. */
  lemma TakeAllBackKeepsOld(inst: Instance, p: Plan, secrets: Secrets, put: Secrets, faults: set<Point>)
    requires PlanFits(inst, p) && Apart(inst) && SameSecrets(secrets, put, RefsOf(inst))
    ensures SameSecrets(secrets, TakeAllBack(p, put, faults), RefsOf(inst))
  {
    NewRefsUnused(inst, p);
    var refs := RefsOf(inst);
    SameAfterPut(secrets, put, p.root, TakeBack(Root) in faults, refs);
    var v := TakenBack(put, p.root, TakeBack(Root) in faults);
    SameAfterPut(secrets, v, p.ssh, TakeBack(Ssh) in faults, refs);
    SameAfterPut(secrets, TakenBack(v, p.ssh, TakeBack(Ssh) in faults), p.data, TakeBack(Data) in faults, refs);
  }

  predicate Put3(p: Plan, secrets: Secrets, put: Secrets) {
    put == var s1 := if p.root.PutBefore? then secrets[p.root.ref := p.root.secret] else secrets;
           var s2 := if p.ssh.PutBefore? then s1[p.ssh.ref := p.ssh.secret] else s1;
           if p.data.PutBefore? then s2[p.data.ref := p.data.secret] else s2
  }

  /** New secrets are added to the store, and nothing is lost. */
  lemma PutAllAdds(p: Plan, secrets: Secrets, faults: set<Point>)
    requires PutAll(p, secrets, faults).1
    ensures var put := PutAll(p, secrets, faults).0;
            && secrets.Keys <= put.Keys && (p.root.PutBefore? ==> p.root.ref in put)
            && (p.ssh.PutBefore? ==> p.ssh.ref in put) && (p.data.PutBefore? ==> p.data.ref in put)
  {
    assert Put3(p, secrets, PutAll(p, secrets, faults).0);
  }

  lemma NewRowApart(inst: Instance, p: Plan)
    requires PlanFits(inst, p) && Apart(inst)
    ensures Apart(p.row)
    ensures p.root.DeleteAfter? ==> p.root.ref !in RefsOf(p.row)
    ensures p.ssh.DeleteAfter? ==> p.ssh.ref !in RefsOf(p.row)
    ensures p.data.DeleteAfter? ==> p.data.ref !in RefsOf(p.row)
    ensures p.stale.Some? ==> p.stale.value !in RefsOf(p.row)
  {
  }

  lemma RefIn(act: Act, role: Role, before: Option<Ref>, after: Option<Ref>, keys: set<Ref>)
    requires Fits(act, role, before, after) && (before.Some? ==> before.value in keys) && (act.PutBefore? ==> act.ref in keys)
    ensures after.Some? ==> after.value in keys
  {
  }

  /** When all new secrets are stored, the new row's secrets are. */
  lemma NewRowCovered(inst: Instance, p: Plan, secrets: Secrets, faults: set<Point>)
    requires PlanFits(inst, p) && Apart(inst) && RefsOf(inst) <= secrets.Keys && PutAll(p, secrets, faults).1
    ensures RefsOf(p.row) <= PutAll(p, secrets, faults).0.Keys && Apart(p.row)
    ensures p.root.DeleteAfter? ==> p.root.ref !in RefsOf(p.row)
    ensures p.ssh.DeleteAfter? ==> p.ssh.ref !in RefsOf(p.row)
    ensures p.data.DeleteAfter? ==> p.data.ref !in RefsOf(p.row)
    ensures p.stale.Some? ==> p.stale.value !in RefsOf(p.row)
  {
    PutAllAdds(p, secrets, faults);
    NewRowApart(inst, p);
    var keys := PutAll(p, secrets, faults).0.Keys;
    RefIn(p.root, Root, inst.rootRef, p.row.rootRef, keys);
    RefIn(p.ssh, Ssh, SshRef(inst), SshRef(p.row), keys);
    RefIn(p.data, Data, inst.dataRef, p.row.dataRef, keys);
  }

  lemma SettleCovers(secrets: Secrets, act: Act, fault: bool, refs: set<Ref>)
    requires refs <= secrets.Keys && (act.DeleteAfter? ==> act.ref !in refs)
    ensures refs <= Settle(secrets, act, fault).0.Keys
  {
  }

  lemma SettleAllCovers(p: Plan, secrets: Secrets, faults: set<Point>, refs: set<Ref>)
    requires refs <= secrets.Keys && (p.root.DeleteAfter? ==> p.root.ref !in refs)
    requires (p.ssh.DeleteAfter? ==> p.ssh.ref !in refs) && (p.data.DeleteAfter? ==> p.data.ref !in refs)
    requires p.stale.Some? ==> p.stale.value !in refs
    ensures refs <= SettleAll(p, secrets, faults).0.Keys
  {
    SettleCovers(secrets, p.data, After(Data) in faults, refs);
    var s1 := Settle(secrets, p.data, After(Data) in faults).0;
    SettleCovers(s1, p.ssh, After(Ssh) in faults, refs);
    SettleCovers(Settle(s1, p.ssh, After(Ssh) in faults).0, p.root, After(Root) in faults, refs);
  }

  /** Whatever the update asks for and whichever steps fail, the row never refers to a missing secret,
      and its references stay apart. */
  lemma NeverDangles(s: State, inp: UpdateInput, checks: Checks, faults: set<Point>)
    requires NoneMissing(s) && Apart(s.row)
    ensures var s' := Updated(s, inp, checks, faults).0;
            NoneMissing(s') && Apart(s'.row)
  {
    if MakePlan(s.row, inp, checks).Ok? {
      PlansFit(s.row, inp, checks);
      var p := MakePlan(s.row, inp, checks).value;
      var (put, ok) := PutAll(p, s.secrets, faults);
      PutAllKeepsOld(s.row, p, s.secrets, faults);
      TakeAllBackKeepsOld(s.row, p, s.secrets, put, faults);
      if ok && !(RowWrite in faults) {
        NewRowCovered(s.row, p, s.secrets, faults);
        SettleAllCovers(p, put, faults, RefsOf(p.row));
      }
    }
  }

  /** An update whose row write fails, or that fails before it, leaves the row as it was and every
      secret it refers to with its old plaintext. */
  lemma FailedWriteKeepsSecrets(s: State, inp: UpdateInput, checks: Checks, faults: set<Point>)
    requires NoneMissing(s) && Apart(s.row)
    requires MakePlan(s.row, inp, checks).Err? || !PutAll(MakePlan(s.row, inp, checks).value, s.secrets, faults).1 || RowWrite in faults
    ensures var (s', r) := Updated(s, inp, checks, faults);
            r.Err? && s'.row == s.row && SameSecrets(s.secrets, s'.secrets, RefsOf(s.row))
  {
    if MakePlan(s.row, inp, checks).Ok? {
      PlansFit(s.row, inp, checks);
      var p := MakePlan(s.row, inp, checks).value;
      PutAllKeepsOld(s.row, p, s.secrets, faults);
      TakeAllBackKeepsOld(s.row, p, s.secrets, PutAll(p, s.secrets, faults).0, faults);
    }
  }

  /** A settling step for one role leaves another's secret alone. */
  predicate Spares(act: Act, ref: Ref) {
    (act.PutAfter? || act.DeleteAfter?) ==> act.ref != ref
  }

  lemma SpareSettled(secrets: Secrets, act: Act, fault: bool, ref: Ref)
    requires ref in secrets && Spares(act, ref)
    ensures var after := Settle(secrets, act, fault).0;
            ref in after && after[ref] == secrets[ref]
  {
  }

  lemma OthersSpare(inst: Instance, p: Plan)
    requires PlanFits(inst, p) && Apart(inst) && Apart(p.row)
    ensures p.row.rootRef.Some? ==> && Spares(p.ssh, p.row.rootRef.value) && Spares(p.data, p.row.rootRef.value)
                                    && !p.root.DeleteAfter? && p.stale != p.row.rootRef
    ensures p.row.dataRef.Some? ==> && Spares(p.ssh, p.row.dataRef.value) && Spares(p.root, p.row.dataRef.value)
                                    && !p.data.DeleteAfter? && p.stale != p.row.dataRef
    ensures p.root.PutAfter? ==> p.row.rootRef == Some(p.root.ref)
    ensures p.data.PutAfter? ==> p.row.dataRef == Some(p.data.ref)
  {
  }

  /** SettleAll, step by step. */
  lemma SettledInSteps(p: Plan, put: Secrets, faults: set<Point>) returns (s1: Secrets, s2: Secrets, s3: Secrets)
    ensures s1 == Settle(put, p.data, After(Data) in faults).0 && s2 == Settle(s1, p.ssh, After(Ssh) in faults).0
    ensures s3 == Settle(s2, p.root, After(Root) in faults).0
    ensures var (settled, ok) := SettleAll(p, put, faults);
            && (ok ==> settled == s3 - (if p.stale.Some? && Stale !in faults then {p.stale.value} else {}))
            && (!ok ==> settled == s1 || settled == s2)
            && (ok <==> Settle(put, p.data, After(Data) in faults).1 && Settle(s1, p.ssh, After(Ssh) in faults).1
                        && Settle(s2, p.root, After(Root) in faults).1)
  {
    s1 := Settle(put, p.data, After(Data) in faults).0;
    s2 := Settle(s1, p.ssh, After(Ssh) in faults).0;
    s3 := Settle(s2, p.root, After(Root) in faults).0;
  }

  /** What the settling steps leave of the admin secret: a rotation comes last, after the others' steps. */
  lemma RootSettled(inst: Instance, p: Plan, put: Secrets, faults: set<Point>)
    requires PlanFits(inst, p) && Apart(inst) && Apart(p.row) && RefsOf(p.row) <= put.Keys && p.row.rootRef.Some?
    ensures var (settled, ok) := SettleAll(p, put, faults);
            && p.row.rootRef.value in settled
            && settled[p.row.rootRef.value] == if p.root.PutAfter? && ok then p.root.secret else put[p.row.rootRef.value]
  {
    var ref := p.row.rootRef.value;
    OthersSpare(inst, p);
    var s1, s2, s3 := SettledInSteps(p, put, faults);
    SpareSettled(put, p.data, After(Data) in faults, ref);
    SpareSettled(s1, p.ssh, After(Ssh) in faults, ref);
  }

  /** ... and of the data login's: its rotation comes first. */
  lemma DataSettled(inst: Instance, p: Plan, put: Secrets, faults: set<Point>)
    requires PlanFits(inst, p) && Apart(inst) && Apart(p.row) && RefsOf(p.row) <= put.Keys && p.row.dataRef.Some?
    ensures var (settled, ok) := SettleAll(p, put, faults);
            && p.row.dataRef.value in settled
            && settled[p.row.dataRef.value]
               == (if p.data.PutAfter? && After(Data) !in faults then p.data.secret else put[p.row.dataRef.value])
            && (ok ==> After(Data) !in faults || !p.data.PutAfter?)
  {
    var ref := p.row.dataRef.value;
    OthersSpare(inst, p);
    var s1, s2, s3 := SettledInSteps(p, put, faults);
    SpareSettled(s1, p.ssh, After(Ssh) in faults, ref);
    SpareSettled(s2, p.root, After(Root) in faults, ref);
  }

  lemma NewSecretsPut(inst: Instance, p: Plan, secrets: Secrets, faults: set<Point>)
    requires PlanFits(inst, p) && Apart(inst) && PutAll(p, secrets, faults).1
    ensures var put := PutAll(p, secrets, faults).0;
            && (p.root.PutBefore? ==> p.root.ref in put && put[p.root.ref] == p.root.secret)
            && (p.data.PutBefore? ==> p.data.ref in put && put[p.data.ref] == p.data.secret)
  {
    assert Put3(p, secrets, PutAll(p, secrets, faults).0);
  }

  /** The row write took place. */
  predicate RowWritten(s: State, inp: UpdateInput, checks: Checks, faults: set<Point>) {
    MakePlan(s.row, inp, checks).Ok? && PutAll(MakePlan(s.row, inp, checks).value, s.secrets, faults).1 && RowWrite !in faults
  }

  predicate Holds(s: State, ref: Option<Ref>, password: Option<string>) {
    ref.Some? ==> ref.value in s.secrets && Some(s.secrets[ref.value]) == Supplied(password)
  }

  /** After a successful update that changes the host, or adds, moves or removes the bastion, the row's
      admin and data secrets, if any, are the passwords given in that very update. */
  lemma RerouteLeavesNoOldSecret(s: State, inp: UpdateInput, checks: Checks, faults: set<Point>)
    requires NoneMissing(s) && Apart(s.row) && Updated(s, inp, checks, faults).1.Ok?
    requires Route(Updated(s, inp, checks, faults).0.row) != Route(s.row)
    ensures var s' := Updated(s, inp, checks, faults).0;
            Holds(s', s'.row.rootRef, inp.password) && Holds(s', s'.row.dataRef, inp.dataPassword)
  {
    var p := MakePlan(s.row, inp, checks).value;
    PlansFit(s.row, inp, checks);
    RerouteNeedsSecrets(s.row, inp, checks);
    NewSecretsPut(s.row, p, s.secrets, faults);
    NewRowCovered(s.row, p, s.secrets, faults);
    var put := PutAll(p, s.secrets, faults).0;
    if p.row.rootRef.Some? {
      RootSettled(s.row, p, put, faults);
    }
    if p.row.dataRef.Some? {
      DataSettled(s.row, p, put, faults);
    }
  }

  /** When a later step fails after the row was written, the caller gets an error but the new route
      stays: the admin secret is then the given password, unless it is a rotation of the instance's own
      secret, which comes last and so leaves the old password to the new route. */
  lemma LateFailureKeepsOldRootIff(s: State, inp: UpdateInput, checks: Checks, faults: set<Point>)
    requires NoneMissing(s) && Apart(s.row) && RowWritten(s, inp, checks, faults) && Updated(s, inp, checks, faults).1.Err?
    requires Route(Updated(s, inp, checks, faults).0.row) != Route(s.row) && Updated(s, inp, checks, faults).0.row.rootRef.Some?
    requires s.row.rootRef.Some? ==> s.secrets[s.row.rootRef.value] != Password(if inp.password.Some? then inp.password.value else "")
    ensures var s' := Updated(s, inp, checks, faults).0;
            Holds(s', s'.row.rootRef, inp.password) <==> s.row.rootRef != Some(Fixed(Root))
  {
    var p := MakePlan(s.row, inp, checks).value;
    PlansFit(s.row, inp, checks);
    RerouteNeedsSecrets(s.row, inp, checks);
    NewSecretsPut(s.row, p, s.secrets, faults);
    NewRowCovered(s.row, p, s.secrets, faults);
    PutAllKeepsOld(s.row, p, s.secrets, faults);
    RootSettled(s.row, p, PutAll(p, s.secrets, faults).0, faults);
  }

  /** The data login's secret, whose rotation comes first, is then the given password unless that very
      step is the one that failed, on the instance's own secret. */
  lemma LateFailureKeepsOldDataIff(s: State, inp: UpdateInput, checks: Checks, faults: set<Point>)
    requires NoneMissing(s) && Apart(s.row) && RowWritten(s, inp, checks, faults) && Updated(s, inp, checks, faults).1.Err?
    requires Route(Updated(s, inp, checks, faults).0.row) != Route(s.row) && Updated(s, inp, checks, faults).0.row.dataRef.Some?
    requires s.row.dataRef.Some? ==> s.secrets[s.row.dataRef.value] != Password(if inp.dataPassword.Some? then inp.dataPassword.value else "")
    ensures var s' := Updated(s, inp, checks, faults).0;
            Holds(s', s'.row.dataRef, inp.dataPassword) <==> s.row.dataRef != Some(Fixed(Data)) || After(Data) !in faults
  {
    var p := MakePlan(s.row, inp, checks).value;
    PlansFit(s.row, inp, checks);
    RerouteNeedsSecrets(s.row, inp, checks);
    NewSecretsPut(s.row, p, s.secrets, faults);
    NewRowCovered(s.row, p, s.secrets, faults);
    PutAllKeepsOld(s.row, p, s.secrets, faults);
    DataSettled(s.row, p, PutAll(p, s.secrets, faults).0, faults);
  }

  // ---- What the row then says ------------------------------------------------------------------------

  /** Name, address and logins are as the update gives them, and otherwise as they were. */
  predicate FieldsAsAsked(row: Instance, inp: UpdateInput, row': Instance) {
    && row'.external == row.external && row'.provisioned == row.provisioned
    && row'.name == (if inp.name.Some? then TrimSpace(inp.name.value) else row.name)
    && (if inp.host.Some? then row'.host == Some(TrimSpace(inp.host.value)) && row'.host != Some("") && row.external
        else row'.host == row.host)
    && (if inp.port.Some? then row'.port == inp.port.value && !row.provisioned else row'.port == row.port)
    && row'.tlsMode == (if inp.tlsMode.Some? then inp.tlsMode.value else row.tlsMode)
    && (match inp.username
        case None => row'.username == row.username
        case Some(u) => row'.username == if TrimSpace(u) == "" then None else Some(TrimSpace(u)))
  }

  predicate DataAsAsked(row: Instance, inp: UpdateInput, row': Instance) {
    && (match inp.mode
        case None => row'.dataMode == row.dataMode
        case Some(m) => || (TrimSpace(m) == "admin" && row'.dataMode == AdminMode)
                        || (TrimSpace(m) == "login" && row'.dataMode == LoginMode)
                        || (TrimSpace(m) == "managed" && row'.dataMode == ManagedMode))
    && row'.dataUsername == (if row'.dataMode != LoginMode then None
                             else if inp.dataUsername.Some? then Some(TrimSpace(inp.dataUsername.value)) else row.dataUsername)
  }

  /** A tunnel given is the one used, and keeps a pinned host key only for the same host and port; one not
      given stays, unless it is removed or its pin reset. */
  predicate TunnelAsAsked(row: Instance, inp: UpdateInput, row': Instance) {
    match inp.ssh
    case None =>
      if inp.removeSsh then row'.ssh.None?
      else if inp.resetPin then row.ssh.Some? && row'.ssh == Some(row.ssh.value.(hostKey := ""))
      else row'.ssh == row.ssh
    case Some(t) =>
      && row'.ssh.Some? && !inp.removeSsh
      && row'.ssh.value.host == TrimSpace(t.host) != "" && row'.ssh.value.user == TrimSpace(t.username) != ""
      && row'.ssh.value.port == (if t.port == 0 then 22 else t.port)
      && (if t.authMethod == "key" then row'.ssh.value.auth == KeyAuth else t.authMethod == "password" && row'.ssh.value.auth == PasswordAuth)
      && row'.ssh.value.hostKey == (if !inp.resetPin && row.ssh.Some? && row.ssh.value.host == row'.ssh.value.host
                                       && row.ssh.value.port == row'.ssh.value.port
                                    then row.ssh.value.hostKey else "")
  }

  lemma PlannedAsAsked(row: Instance, inp: UpdateInput, checks: Checks)
    requires MakePlan(row, inp, checks).Ok?
    ensures var row' := MakePlan(row, inp, checks).value.row;
            FieldsAsAsked(row, inp, row') && DataAsAsked(row, inp, row') && TunnelAsAsked(row, inp, row')
  {
    var ssh, creds, data := PlanParts(row, inp, checks);
    var row' := NewRow(row, inp, ssh, creds, data);
    FieldsPlanned(row, inp, checks, ssh, creds, data);
    DataPlanned(row, inp, HostChanges(row, inp) || ssh.rerouted, ssh, creds, data);
    TunnelPlanned(row, inp, checks, ssh, creds, data);
  }

  lemma FieldsPlanned(row: Instance, inp: UpdateInput, checks: Checks, ssh: SshPlan, creds: CredentialPlan, data: DataPlan)
    requires MakePlan(row, inp, checks).Ok? && PlanCredentials(row, inp) == Ok(creds)
    ensures FieldsAsAsked(row, inp, NewRow(row, inp, ssh, creds, data))
  {
  }

  lemma DataPlanned(row: Instance, inp: UpdateInput, rerouted: bool, ssh: SshPlan, creds: CredentialPlan, data: DataPlan)
    requires PlanDataAccess(row, inp, rerouted) == Ok(data)
    ensures DataAsAsked(row, inp, NewRow(row, inp, ssh, creds, data))
  {
  }

  lemma TunnelPlanned(row: Instance, inp: UpdateInput, checks: Checks, ssh: SshPlan, creds: CredentialPlan, data: DataPlan)
    requires PlanSsh(row, inp, checks) == Ok(ssh)
    ensures TunnelAsAsked(row, inp, NewRow(row, inp, ssh, creds, data))
  {
  }

  /** For every request and every set of failing steps, the row is as it was or as asked for throughout, and
      after a success it is as asked for. */
  lemma RowAsAsked(s: State, inp: UpdateInput, checks: Checks, faults: set<Point>)
    ensures var (s', r) := Updated(s, inp, checks, faults);
            && (r.Ok? || s'.row != s.row ==>
                  FieldsAsAsked(s.row, inp, s'.row) && DataAsAsked(s.row, inp, s'.row) && TunnelAsAsked(s.row, inp, s'.row))
  {
    if MakePlan(s.row, inp, checks).Ok? {
      PlannedAsAsked(s.row, inp, checks);
    }
  }

  const ALL_PASS := Checks(true, true, true, true, true, true, true)

  /** An external server with its own admin and data logins, moved to another host with new passwords. */
  function ExternalServer(host: string): Instance {
    Instance(true, false, "db", Some(host), 3306, "off", Some("root"), Some(Fixed(Root)), None, LoginMode, Some("app"), Some(Fixed(Data)))
  }

  function NewHost(host: string, password: string, dataPassword: string): UpdateInput {
    UpdateInput(None, Some(host), None, None, None, Some(password), None, false, false, None, None, Some(dataPassword))
  }

  lemma TightWord(c: char)
    requires !Space(c)
    ensures TrimSpace([c]) == [c]
  {
    assert TrimLeft([c]) == [c] && TrimRight([c]) == [c];
  }

  lemma ServerMoves()
    ensures MakePlan(ExternalServer("a"), NewHost("b", "new", "data2"), ALL_PASS)
         == Ok(Plan(ExternalServer("b"), PutAfter(Fixed(Root), Password("new")), Leave, PutAfter(Fixed(Data), Password("data2")), None))
  {
    TightWord('b');
  }

  /** An update that fails at the admin secret's rotation: the server's new host is left with the old admin
      password; and one that fails at the data secret's leaves it both old passwords. */
  lemma OldPasswordsBehindNewHost(faults: set<Point>) returns (s: State, s': State)
    requires faults == {After(Root)} || faults == {After(Data)}
    ensures NoneMissing(s) && Apart(s.row) && s.row == ExternalServer("a")
    ensures Updated(s, NewHost("b", "new", "data2"), ALL_PASS, faults) == (s', Err(Broken))
    ensures s'.row == ExternalServer("b") && Fixed(Root) in s'.secrets && s'.secrets[Fixed(Root)] == Password("old")
    ensures Fixed(Data) in s'.secrets && s'.secrets[Fixed(Data)] == Password(if faults == {After(Data)} then "data1" else "data2")
  {
    s := State(ExternalServer("a"), map[Fixed(Root) := Password("old"), Fixed(Data) := Password("data1")]);
    ServerMoves();
    s' := Updated(s, NewHost("b", "new", "data2"), ALL_PASS, faults).0;
  }

  /** Unless new SSH credentials are given, a tunnel that remains after an update reaches the same
      bastion host, as the same user and with the same method, as the one whose secret it keeps. */
  lemma SshSecretStaysPut(s: State, inp: UpdateInput, checks: Checks, faults: set<Point>)
    requires NoneMissing(s) && Apart(s.row) && MakePlan(s.row, inp, checks).Ok? && MakePlan(s.row, inp, checks).value.ssh.Leave?
    ensures var s' := Updated(s, inp, checks, faults).0;
            s'.row.ssh.Some? ==>
              && s.row.ssh.Some?
              && s'.row.ssh.value.host == s.row.ssh.value.host && s'.row.ssh.value.user == s.row.ssh.value.user
              && s'.row.ssh.value.auth == s.row.ssh.value.auth && s'.row.ssh.value.secretRef == s.row.ssh.value.secretRef
  {
    SshSecretKeptFor(s.row, inp, checks);
  }
}
