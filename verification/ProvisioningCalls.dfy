/** One call of `complete` or of `upgrade_all`'s loop body, from its start to the recorded outcome. */
module ProvisioningCalls {
  import opened Registry
  import opened Provisioning

  /** `Record` writes the outcome to the registry; it stands outside the try block. */
  datatype Operation = Exists | Create | Grant(done: nat) | Upgrade | CurrentRevision | BindOwner | Record

  /** The operations that raise, each with whether it took effect first. */
  type Faults = map<Operation, bool>

  function OperationOf(stage: Stage): Operation {
    match stage
    case Looking(_, _) => Exists
    case Creating(_) => Create
    case Granting(_, done) => Grant(done)
    case Migrating(_, _) => Operation.Upgrade
    case ReadingRevision(_, _) => CurrentRevision
    case Binding(_, _) => BindOwner
    case _ => Record
  }

  /** Operations still to come, at most. */
  function Remaining(s: State, stage: Stage): nat {
    match stage
    case Looking(_, _) => |s.roles| + 7
    case Creating(_) => |s.roles| + 6
    case Granting(_, done) => 5 + if done <= |s.roles| then |s.roles| - done else 0
    case Migrating(_, _) => 4
    case ReadingRevision(_, _) => 3
    case Binding(_, _) => 2
    case _ => 1
  }

  /** The pending operation, which may raise.  An exception from recording ends the call with whatever was
      committed by then. */
  function ActOrRaise(s: State, t: TenantId, faults: Faults): State
    requires t in s.runs
  {
    var operation := OperationOf(s.runs[t]);
    if operation !in faults then Act(s, t)
    else if Underway(s.runs[t]) then Raised(s, t, faults[operation])
    else if faults[operation] then Act(s, t)
    else Abandoned(s, t)
  }

  /** Perform the call's operations until it ends. */
  function Drive(s: State, t: TenantId, faults: Faults): State
    requires t in s.runs
    decreases Remaining(s, s.runs[t])
  {
    var s' := ActOrRaise(s, t, faults);
    if Underway(s.runs[t]) then Drive(s', t, faults) else s'
  }

  function Start(s: State, t: TenantId, stage: Stage): State {
    s.(runs := s.runs[t := stage])
  }

  function CompleteCall(s: State, t: TenantId, faults: Faults): State
    requires t in s.tenants
  {
    Drive(Start(s, t, Looking(s.tenants[t].place, s.tenants[t].schemaRevision)), t, faults)
  }

  function UpgradeCall(s: State, t: TenantId, faults: Faults): State
    requires t in s.tenants
  {
    Drive(Start(s, t, Migrating(s.tenants[t].place, false)), t, faults)
  }

  /** A driven call is a run of the step system, made of steps on that one tenant. */
  lemma {:induction false} DriveIsARun(s: State, t: TenantId, faults: Faults)
    returns (trace: seq<State>, actions: seq<Action>)
    requires t in s.runs
    ensures |trace| == |actions| + 1 && trace[0] == s && trace[|actions|] == Drive(s, t, faults)
    ensures forall i :: 0 <= i < |actions| ==> Step(trace[i], actions[i], trace[i + 1])
    ensures forall i :: 0 <= i < |actions| ==>
      actions[i] in {Advance(t), Die(t), Fail(t, true), Fail(t, false)}
    ensures faults == map[] ==> forall i :: 0 <= i < |actions| ==> actions[i] == Advance(t)
    decreases Remaining(s, s.runs[t])
  {
    var s' := ActOrRaise(s, t, faults);
    var operation := OperationOf(s.runs[t]);
    var first := if operation !in faults then Advance(t)
      else if Underway(s.runs[t]) then Fail(t, faults[operation])
      else if faults[operation] then Advance(t)
      else Die(t);
    assert Step(s, first, s');
    if Underway(s.runs[t]) {
      var rest, more := DriveIsARun(s', t, faults);
      trace, actions := [s] + rest, [first] + more;
      forall i | 0 <= i < |actions| ensures Step(trace[i], actions[i], trace[i + 1]) {
        if i > 0 { assert Step(rest[i - 1], more[i - 1], rest[i]); }
      }
    } else {
      trace, actions := [s, s'], [first];
    }
  }

  /** If recording raises before it takes effect, the call has done all its work on the server and the row is
      as it was; if it raises afterwards, the row too is as if nothing had happened. */
  lemma {:induction false} RecordingRaises(s: State, t: TenantId, faults: Faults)
    requires t in s.runs && Record in faults
    ensures Drive(s, t, faults) ==
      if faults[Record] then Drive(s, t, faults - {Record})
      else Drive(s, t, faults - {Record}).(tenants := s.tenants)
    decreases Remaining(s, s.runs[t])
  {
    if Underway(s.runs[t]) {
      var s' := ActOrRaise(s, t, faults);
      assert s' == ActOrRaise(s, t, faults - {Record}) && s'.tenants == s.tenants;
      RecordingRaises(s', t, faults);
    }
  }

  // ---------------------------------------------------------------- locality

  predicate SameDatabase(a: Databases, b: Databases, place: Place) {
    (place in a <==> place in b) && (place in a && place in b ==> a[place] == b[place])
  }

  /** One operation of `t`'s call reaches its own row and database only. */
  lemma ActOrRaiseIsLocal(s: State, t: TenantId, faults: Faults, place: Place)
    requires t in s.runs && At(s.runs[t], place)
    ensures var s' := ActOrRaise(s, t, faults);
      && s'.head == s.head && s'.roles == s.roles && s'.servers == s.servers && s'.listed == s.listed
      && s'.tenants.Keys == s.tenants.Keys && s'.runs - {t} == s.runs - {t}
      && (Underway(s.runs[t]) ==> t in s'.runs && At(s'.runs[t], place) && s'.tenants == s.tenants)
      && (!Underway(s.runs[t]) ==> t !in s'.runs)
      && (forall u :: u in s.tenants && u != t ==> s'.tenants[u] == s.tenants[u])
      && (t in s.tenants ==> s'.tenants[t].place == s.tenants[t].place)
      && (forall p :: p != place ==> SameDatabase(s'.databases, s.databases, p))
  {}

  lemma {:induction false} DriveIsLocal(s: State, t: TenantId, faults: Faults, place: Place)
    requires t in s.runs && At(s.runs[t], place)
    ensures var s' := Drive(s, t, faults);
      && s'.head == s.head && s'.roles == s.roles && s'.servers == s.servers && s'.listed == s.listed
      && s'.tenants.Keys == s.tenants.Keys && s'.runs == s.runs - {t}
      && (forall u :: u in s.tenants && u != t ==> s'.tenants[u] == s.tenants[u])
      && (t in s.tenants ==> s'.tenants[t].place == s.tenants[t].place)
      && (forall p :: p != place ==> SameDatabase(s'.databases, s.databases, p))
    decreases Remaining(s, s.runs[t])
  {
    ActOrRaiseIsLocal(s, t, faults, place);
    if Underway(s.runs[t]) {
      var s' := ActOrRaise(s, t, faults);
      DriveIsLocal(s', t, faults, place);
      forall p | p != place ensures SameDatabase(Drive(s', t, faults).databases, s.databases, p) {
        assert SameDatabase(Drive(s', t, faults).databases, s'.databases, p);
        assert SameDatabase(s'.databases, s.databases, p);
      }
    }
  }

  /** Two worlds that look the same to `t`'s call. */
  predicate Alike(a: State, b: State, t: TenantId, place: Place) {
    && a.head == b.head && a.roles == b.roles && a.servers == b.servers
    && t in a.tenants && t in b.tenants && a.tenants[t] == b.tenants[t]
    && SameDatabase(a.databases, b.databases, place)
  }

  lemma ActOrRaiseDependsOnOwn(a: State, b: State, t: TenantId, faults: Faults, place: Place)
    requires t in a.runs && t in b.runs && a.runs[t] == b.runs[t] && At(a.runs[t], place) && Alike(a, b, t, place)
    ensures var a', b' := ActOrRaise(a, t, faults), ActOrRaise(b, t, faults);
      && Alike(a', b', t, place)
      && (Underway(a.runs[t]) ==> t in a'.runs && t in b'.runs && a'.runs[t] == b'.runs[t])
  {}

  /** What a call does depends on its own row and database only. */
  lemma {:induction false} DriveDependsOnOwn(a: State, b: State, t: TenantId, faults: Faults, place: Place)
    requires t in a.runs && t in b.runs && a.runs[t] == b.runs[t] && At(a.runs[t], place) && Alike(a, b, t, place)
    ensures Alike(Drive(a, t, faults), Drive(b, t, faults), t, place)
    decreases Remaining(a, a.runs[t])
  {
    ActOrRaiseDependsOnOwn(a, b, t, faults, place);
    if Underway(a.runs[t]) {
      ActOrRaiseIsLocal(a, t, faults, place);
      DriveDependsOnOwn(ActOrRaise(a, t, faults), ActOrRaise(b, t, faults), t, faults, place);
    }
  }
}
