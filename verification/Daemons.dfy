/** Which files the daemons work from. */
module Daemons {
  import opened Crypto
  import opened Types
  import opened SupervisorEnv
  import opened SoftwareGenerator
  import opened DeploymentProofs
  import opened Lifecycle
  import opened LifecycleProofs
  import opened LifecycleRuns
  import opened FrrRuns

  /** strongSwan's connections and supervisord's programs are those of the files that are
      there now, VRF by VRF. */
  ghost predicate DaemonsCurrent(w: World) {
    forall id :: SameAt(w.files, w.swan, ConfPath(id)) && SameAt(w.files, w.programs, IniPath(id))
  }

  /** A deployment that succeeds has both daemons read everything it wrote. */
  lemma GenerateLoads(o: Faults, w: World, v: Vrf)
    requires GenerateConfigs(o, w, v).1 == Done
    ensures var w' := GenerateConfigs(o, w, v).0; w'.swan == w'.files && w'.programs == w'.files
  {
  }

  lemma {:induction false} RemoveSeqDaemons(o: Faults, w: World, paths: seq<string>)
    ensures var w' := RemoveSeq(o, w, paths).0; w'.swan == w.swan && w'.programs == w.programs
  {
    if paths != [] { RemoveSeqDaemons(o, w, paths[..|paths| - 1]); }
  }

  /** A deletion has both daemons read what is left, whether or not removing certificates
      fails after that. */
  lemma DeleteLoads(o: Faults, w: World, v: Vrf)
    requires NoFaults(o) || DeleteConfigs(o, w, v).1
    ensures DaemonsCurrent(DeleteConfigs(o, w, v).0)
  {
    var paths := CertPaths(v.clientName, v.endpoints);
    var w1, w2 := DeleteBeforeCerts(o, w, v).0, DeleteConfigs(o, w, v).0;
    RemoveSeqDaemons(o, w1, paths);
    forall id ensures SameAt(w2.files, w2.swan, ConfPath(id)) && SameAt(w2.files, w2.programs, IniPath(id)) {
      NoCert(v.clientName, v.endpoints, id);
      RemoveSeqTouches(o, w1, paths, ConfPath(id));
      RemoveSeqTouches(o, w1, paths, IniPath(id));
    }
  }

  lemma DeployLoads(o: Faults, w: World, v: Vrf, old_: Vrf, hwOk: bool)
    requires Deploy(o, w, v, old_, hwOk).1 == Success
    ensures var w' := Deploy(o, w, v, old_, hwOk).0;
      if v.id != HARDWARE_VRF_ID && (IsActive(old_) || IsActive(v)) then DaemonsCurrent(w') else w' == w
  {
    if v.id != HARDWARE_VRF_ID {
      if !IsActive(old_) && IsActive(v) {
        GenerateLoads(o, w, v);
      } else if IsActive(old_) {
        DeleteLoads(o, w, old_);
        if IsActive(v) { GenerateLoads(o, DeleteConfigs(o, w, old_).0, v); }
      }
    }
  }

  lemma UpdateBackendsLoads(k: Keys, o: Faults, s: App, v: Vrf, old_: Vrf, nonces: nat -> Nonce, hwOk: bool)
    requires v.id in s.rows && UpdateBackends(k, o, s, v, old_, nonces, hwOk).1 == Success
    ensures var w := UpdateBackends(k, o, s, v, old_, nonces, hwOk).0.world; w == s.world || DaemonsCurrent(w)
  {
    var row := MergeRow(s.rows[v.id], Seal(k, v, nonces).value);
    DeployLoads(o, s.world, Unseal(k, row).value, old_, hwOk);
  }

  lemma CreateLoads(k: Keys, o: Faults, s: App, op: Op)
    requires op.CreateOp? && CreateVrf(k, o, s, op).1 == Success
    ensures var w := CreateVrf(k, o, s, op).0.world; w == s.world || DaemonsCurrent(w)
  {
    var vrf := CreatedVrf(op);
    var sealed := Seal(k, vrf, op.nonces).value;
    UpdateBackendsLoads(k, o, s.(rows := s.rows[op.newId := sealed]), Unseal(k, sealed).value, Blank(op.newId), op.nonces', op.hwOk);
  }

  /** From any state and under any faults: a request that is answered with success and calls
      the host at all leaves both daemons working from the files that are there. */
  lemma StepLoads(k: Keys, o: Faults, s: App, op: Op)
    requires Step(k, o, s, op).1 == Success
    ensures var w := Step(k, o, s, op).0.world; w == s.world || DaemonsCurrent(w)
  {
    match op
    case CreateOp(_, _, _, _, _, _, _) => CreateLoads(k, o, s, op);
    case UpdateOp(_, _, _, _, _, _) =>
      UpdateIsBackends(k, o, s, op);
      assert UpdateAccepted(s, op);
      UpdateBackendsLoads(k, o, s, UpdatedVrf(s, op), s.rows[RowId(op.number)], op.nonces, op.hwOk);
    case DeleteOp(_, _) =>
      if RowId(op.number) != HARDWARE_VRF_ID { DeleteLoads(o, s.world, s.rows[RowId(op.number)]); }
  }

  /** A path that a daemon has read and that is not there any more, or reads otherwise. */
  predicate Stale(files: map<string, Content>, read: map<string, Content>, p: string) {
    p in read && !SameAt(files, read, p)
  }

  /** What the daemons work from is at least not out of date. */
  ghost predicate NothingStale(w: World) {
    forall id :: !Stale(w.files, w.swan, ConfPath(id)) && !Stale(w.files, w.programs, IniPath(id))
  }

  lemma CurrentNotStale(w: World)
    requires DaemonsCurrent(w)
    ensures NothingStale(w)
  {
    forall id ensures !Stale(w.files, w.swan, ConfPath(id)) && !Stale(w.files, w.programs, IniPath(id)) {
      assert SameAt(w.files, w.swan, ConfPath(id));
    }
  }

  lemma {:induction false} WriteAllDaemons(o: Faults, w: World, ws: seq<(string, Content)>)
    ensures var w' := WriteAll(o, w, ws).0; w'.swan == w.swan && w'.programs == w.programs
  {
    if ws != [] { WriteAllDaemons(o, w, ws[..|ws| - 1]); }
  }

  /** A crash comes after the files are written and before a daemon reads them. */
  lemma CrashUnread(o: Faults, w: World, v: Vrf)
    requires GenerateConfigs(o, w, v).1 == Crashed
    ensures var w' := GenerateConfigs(o, w, v).0;
      w'.swan == w.swan && w'.programs == w.programs && ConfPath(v.id) in w'.files
  {
    WriteAllDaemons(o, w, CertWrites(v.clientName, v.endpoints));
    PathMarks("", "", v.id);
  }

  /** After a crash on a host without files of the VRF its configuration is there and
      unread, and nothing is out of date. */
  lemma CrashBehind(o: Faults, w: World, v: Vrf)
    requires GenerateConfigs(o, w, v).1 == Crashed && NothingStale(w)
    requires ConfPath(v.id) !in w.files && IniPath(v.id) !in w.files
    ensures var w' := GenerateConfigs(o, w, v).0; NothingStale(w') && !DaemonsCurrent(w')
  {
    var w' := GenerateConfigs(o, w, v).0;
    CrashUnread(o, w, v);
    assert !Stale(w.files, w.swan, ConfPath(v.id)) && !Stale(w.files, w.programs, IniPath(v.id));
    assert !SameAt(w'.files, w'.swan, ConfPath(v.id));
    forall id ensures !Stale(w'.files, w'.swan, ConfPath(id)) && !Stale(w'.files, w'.programs, IniPath(id)) {
      if id != v.id {
        OtherIdPaths(v, id);
        GenerateTouchesOnlyOwn(o, w, v, ConfPath(id));
        GenerateTouchesOnlyOwn(o, w, v, IniPath(id));
        assert !Stale(w.files, w.swan, ConfPath(id)) && !Stale(w.files, w.programs, IniPath(id));
      }
    }
  }

  lemma OtherIdPaths(v: Vrf, id: nat)
    requires id != v.id
    ensures !IsPathOf(v, ConfPath(id)) && !IsPathOf(v, IniPath(id)) && ConfPath(id) != VTYSH && IniPath(id) != VTYSH
  {
    NoCert(v.clientName, v.endpoints, id);
    IdPathInjective(id, v.id);
    PathMarks("", "", id);
    PathMarks("", "", v.id);
  }

  lemma ClearedNotStale(k: Keys, o: Faults, s: App, id: nat, old_: Vrf, row: Vrf)
    requires Consistent(k, s) && NoFaults(o) && NothingStale(s.world) && RowFits(k, s.rows, id, row)
    requires if id in s.rows then old_ == s.rows[id] else !IsActive(old_)
    ensures var w := Cleared(o, s.world, old_); NothingStale(w) && ConfPath(id) !in w.files && IniPath(id) !in w.files
  {
    ClearedAgrees(k, o, s, id, old_);
    PathsFree(k, s.rows, Cleared(o, s.world, old_).files, id, row, ConfPath(id));
    PathsFree(k, s.rows, Cleared(o, s.world, old_).files, id, row, IniPath(id));
    if IsActive(old_) {
      DeleteLoads(o, s.world, old_);
      CurrentNotStale(Cleared(o, s.world, old_));
    }
  }

  lemma CrashedBehind(o: Faults, w: World, v: Vrf)
    requires NoFaults(o) && Environ(v).Some? && v.ospf.None? && NothingStale(w)
    requires ConfPath(v.id) !in w.files && IniPath(v.id) !in w.files
    ensures var w' := GenerateConfigs(o, w, v).0; NothingStale(w') && !DaemonsCurrent(w')
  {
    GenerateNoFaults(o, w, v);
    CrashBehind(o, w, v);
  }

  /** Replacing a software row without faults. */
  lemma ReplacedDaemons(k: Keys, o: Faults, s: App, id: nat, row: Vrf, old_: Vrf)
    requires GoodKeys(k) && Consistent(k, s) && NoFaults(o) && NothingStale(s.world) && RowFits(k, s.rows, id, row)
    requires if id in s.rows then old_ == s.rows[id] else !IsActive(old_)
    ensures var (w, answer) := Deploy(o, s.world, Unseal(k, row).value, old_, true);
      && NothingStale(w)
      && if IsActive(row) || IsActive(old_) then DaemonsCurrent(w) <==> answer != Panicked else w == s.world
  {
    var plain := Unseal(k, row).value;
    var (w, answer) := Deploy(o, s.world, plain, old_, true);
    DeployConsistent(k, o, s, id, row, old_, true);
    ClearedNotStale(k, o, s, id, old_, row);
    ClearedAgrees(k, o, s, id, old_);
    PlainPaths(k, row);
    if answer == Success {
      DeployLoads(o, s.world, plain, old_, true);
      if IsActive(row) || IsActive(old_) { CurrentNotStale(w); }
    } else {
      DeployClears(o, s.world, plain, old_, true);
      CrashedBehind(o, Cleared(o, s.world, old_), plain);
    }
  }

  lemma EffectDaemons(k: Keys, o: Faults, s: App, s': App, answer: Answer, e: Effect)
    requires GoodKeys(k) && Consistent(k, s) && NoFaults(o) && HasEffect(k, o, s, s', answer, e) && NothingStale(s.world)
    ensures NothingStale(s'.world)
    ensures if Calls(e) then DaemonsCurrent(s'.world) <==> answer != Panicked else s'.world == s.world
  {
    match e
    case Idle =>
    case Replaced(id, row, old_) => ReplacedDaemons(k, o, s, id, row, old_);
    case Removed(id) =>
      DeleteLoads(o, s.world, s.rows[id]);
      CurrentNotStale(s'.world);
  }

  /** An accepted request for a software VRF that is active before or after it, or a
      deletion of one. */
  predicate CallsHost(s: App, op: Op) {
    if op.DeleteOp? then DeletesSoftware(s, op)
    else Replaces(s, op) && (IsActive(Found(s, op)) || IsActive(Wanted(s, op)))
  }

  predicate Calls(e: Effect) { e.Removed? || (e.Replaced? && (IsActive(e.row) || IsActive(e.old_))) }

  lemma CallsAsRequested(k: Keys, s: App, op: Op, e: Effect)
    requires AsRequested(k, s, op, e)
    ensures CallsHost(s, op) <==> Calls(e)
  {
    if e.Replaced? { PlainShape(k, e.row); }
  }

  /** The last request that called the host was one that panics. */
  predicate LastCallPanics(k: Keys, o: Faults, ops: seq<Op>) {
    ops != [] &&
    var s, op := Run(k, o, ops[..|ops| - 1]), ops[|ops| - 1];
    if CallsHost(s, op) then Panics(s, op) else LastCallPanics(k, o, ops[..|ops| - 1])
  }

  /** Over every run without faults strongSwan and supervisord work from the files that are
      there, which are those of the active software rows, if and only if the last request
      that called the host was not one that panics. */
  lemma {:induction false} RunDaemons(k: Keys, o: Faults, ops: seq<Op>)
    requires GoodKeys(k) && NoFaults(o) && RunGood(k, o, ops)
    ensures NothingStale(Run(k, o, ops).world)
    ensures DaemonsCurrent(Run(k, o, ops).world) <==> !LastCallPanics(k, o, ops)
    ensures FilesAgree(k, Run(k, o, ops).rows, Run(k, o, ops).world.files)
  {
    RunConsistent(k, o, ops);
    if ops != [] {
      var front := ops[..|ops| - 1];
      RunGoodFront(k, o, ops);
      RunDaemons(k, o, front);
      RunConsistent(k, o, front);
      var s, op := Run(k, o, front), ops[|ops| - 1];
      var e := StepEffect(k, o, s, op);
      EffectDaemons(k, o, s, Step(k, o, s, op).0, Step(k, o, s, op).1, e);
      CallsAsRequested(k, s, op, e);
      StepPanics(k, o, s, op);
    }
  }
}
