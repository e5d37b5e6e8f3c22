/** Who may do what to a task, over every run of sessions. */
module TaskRights {
  import opened Order
  import opened Tasks
  import opened TaskProofs

  // ----- who assigned the files

  /** The files of a task are those given, and each was given by one of its owners. */
  ghost predicate GivenByOwners(ts: TaskState, given: seq<Given>) {
    && (forall g :: g in given ==> Reflects(ts, g))
    && (forall n :: n in ts.inputs ==> exists g :: g in given && g.GivenInput? && g.name == n)
    && (forall n :: n in ts.outputs ==> exists g :: g in given && g.GivenOutput? && g.name == n)
  }

  /** What was given is what the task has, up to a cmac filled in, and an owner gave it. */
  ghost predicate Reflects(ts: TaskState, g: Given) {
    match g
    case GivenInput(user, name, file) => name in ts.inputs && ts.inputs[name] == file && user in file.owner
    case GivenOutput(user, name, file) =>
      name in ts.outputs && SameButCmac(file, ts.outputs[name]) && user in file.owner
  }

  lemma {:induction false} AssigningRecords(ts: TaskState, ops: seq<Op>, given: seq<Given>)
    requires GivenByOwners(ts, given) && ApplyAll(ts, Assigning, ops).Some?
    ensures GivenByOwners(ApplyAll(ts, Assigning, ops).value, given + Givens(ops))
    decreases ops
  {
    if ops == [] {
      assert given + Givens(ops) == given;
    } else {
      var ts' := Apply(ts, ops[0]).value;
      var g := if ops[0].AssignInput? then GivenInput(ops[0].user, ops[0].name, ops[0].input)
               else GivenOutput(ops[0].user, ops[0].name, ops[0].output);
      OneGiven(ts, ops[0], g, given);
      AssigningRecords(ts', ops[1..], given + [g]);
      assert given + [g] + Givens(ops[1..]) == given + Givens(ops);
    }
  }

  lemma OneGiven(ts: TaskState, op: Op, g: Given, given: seq<Given>)
    requires GivenByOwners(ts, given) && Offers(Assigning, op) && Apply(ts, op).Some?
    requires g == if op.AssignInput? then GivenInput(op.user, op.name, op.input)
                  else GivenOutput(op.user, op.name, op.output)
    ensures GivenByOwners(Apply(ts, op).value, given + [g])
  {
    var ts' := Apply(ts, op).value;
    assert g in given + [g];
    forall h | h in given + [g] ensures Reflects(ts', h) {
      assert h in given ==> Reflects(ts, h);
    }
    forall n | n in ts'.inputs ensures exists h :: h in given + [g] && h.GivenInput? && h.name == n {
      if n in ts.inputs {
        var h :| h in given && h.GivenInput? && h.name == n;
        assert h in given + [g];
      }
    }
    forall n | n in ts'.outputs ensures exists h :: h in given + [g] && h.GivenOutput? && h.name == n {
      if n in ts.outputs {
        var h :| h in given && h.GivenOutput? && h.name == n;
        assert h in given + [g];
      }
    }
  }

  /** Only assigning sessions assign files. */
  lemma {:induction false} NothingGiven(ts: TaskState, stage: Stage, ops: seq<Op>)
    requires ApplyAll(ts, stage, ops).Some? && stage != Assigning
    ensures Givens(ops) == []
    decreases ops
  {
    if ops != [] {
      NothingGiven(Apply(ts, ops[0]).value, stage, ops[1..]);
    }
  }

  lemma CmacsReflect(ts: TaskState, ts': TaskState, given: seq<Given>)
    requires GivenByOwners(ts, given) && ts'.inputs == ts.inputs && OnlyCmacs(ts.outputs, ts'.outputs)
    ensures GivenByOwners(ts', given)
  {
    forall g | g in given ensures Reflects(ts', g) {
      assert Reflects(ts, g);
      if g.GivenOutput? {
        assert SameButCmac(ts.outputs[g.name], ts'.outputs[g.name]);
      }
    }
  }

  lemma SessionRecords(w: World, s: Session)
    requires Inv(w) && GivenByOwners(w.ts, w.given)
    ensures var v := After(w, s); GivenByOwners(v.ts, v.given)
  {
    if Succeeds(w, s) {
      var ts := ApplyAll(w.ts, s.stage, s.ops).value;
      if s.stage == Assigning {
        AssigningRecords(w.ts, s.ops, w.given);
        SavedRecords(ts, s.stage, w.given + Givens(s.ops));
      } else {
        FilesThrough(w, s);
        NothingGiven(w.ts, s.stage, s.ops);
        hide GivenByOwners, OnlyCmacs, ApplyAll, Inv, Save;
        CmacsReflect(w.ts, ts, w.given);
        SavedRecords(ts, s.stage, w.given);
        assert w.given + [] == w.given;
      }
    }
  }

  lemma SavedRecords(ts: TaskState, stage: Stage, given: seq<Given>)
    requires GivenByOwners(ts, given)
    ensures GivenByOwners(Save(ts, stage), given)
  {
    assert forall g :: Reflects(ts, g) ==> Reflects(Save(ts, stage), g);
  }

  lemma FilesThrough(w: World, s: Session)
    requires Inv(w) && Succeeds(w, s) && s.stage != Assigning
    ensures var ts := ApplyAll(w.ts, s.stage, s.ops).value;
      ts.inputs == w.ts.inputs && OnlyCmacs(w.ts.outputs, ts.outputs)
  {
    OnlyCmacsReflexive(w.ts.outputs);
    match s.stage {
      case Approving => ApprovingChanges(w.ts, s.ops, w.ts);
      case Staging => StagingChanges(w.ts, s.ops);
      case Launching => HistoryOf(w.ts, w.ts, Launching, s.ops);
      case Finishing => FinishingChanges(w.ts, s.ops);
    }
  }

  lemma {:induction false} RunRecords(w: World, ss: seq<Session>)
    requires Inv(w) && GivenByOwners(w.ts, w.given)
    ensures var v := Run(w, ss); GivenByOwners(v.ts, v.given)
    decreases ss
  {
    hide Inv, After, GivenByOwners;
    if ss != [] {
      SessionKeeps(w, ss[0]);
      SessionRecords(w, ss[0]);
      RunRecords(After(w, ss[0]), ss[1..]);
    }
  }

  /**
    Over every run, the files of a task are exactly those that were assigned to it, and each was
    assigned by one of its owners, who are those declared for it.
   */
  lemma AssignedByOwners(w0: World, ss: seq<Session>)
    requires Start(w0)
    ensures var w := Run(w0, ss);
      && (forall n :: n in w.ts.inputs ==>
            exists u :: GivenInput(u, n, w.ts.inputs[n]) in w.given && u in w.ts.inputs[n].owner)
      && (forall n :: n in w.ts.outputs ==>
            exists u, f :: GivenOutput(u, n, f) in w.given && SameButCmac(f, w.ts.outputs[n])
                && u in w.ts.outputs[n].owner)
      && (forall u, n, f :: GivenInput(u, n, f) in w.given ==> n in w.ts.inputs && w.ts.inputs[n] == f && u in f.owner)
      && (forall u, n, f :: GivenOutput(u, n, f) in w.given ==>
            n in w.ts.outputs && SameButCmac(f, w.ts.outputs[n]) && u in f.owner)
      && (forall n :: n in w.ts.inputs ==>
            n in w0.ts.inputsOwnership && w.ts.inputs[n].owner == w0.ts.inputsOwnership[n])
      && (forall n :: n in w.ts.outputs ==>
            n in w0.ts.outputsOwnership && w.ts.outputs[n].owner == w0.ts.outputsOwnership[n])
  {
    var w := Run(w0, ss);
    StartInv(w0);
    RunKeeps(w0, ss);
    RunChanges(w0, ss);
    StartRecords(w0);
    RunRecords(w0, ss);
    hide Run, FilesKept;
    forall n | n in w.ts.inputs
      ensures exists u :: GivenInput(u, n, w.ts.inputs[n]) in w.given && u in w.ts.inputs[n].owner
    {
      var g :| g in w.given && g.GivenInput? && g.name == n;
      assert Reflects(w.ts, g) && g == GivenInput(g.user, n, w.ts.inputs[n]);
    }
    forall n | n in w.ts.outputs
      ensures exists u, f :: GivenOutput(u, n, f) in w.given && SameButCmac(f, w.ts.outputs[n])
                  && u in w.ts.outputs[n].owner
    {
      var g :| g in w.given && g.GivenOutput? && g.name == n;
      assert Reflects(w.ts, g) && g == GivenOutput(g.user, n, g.output);
    }
    forall u, n, f | GivenInput(u, n, f) in w.given ensures Reflects(w.ts, GivenInput(u, n, f)) {
    }
  }

  lemma StartRecords(w: World)
    requires Start(w)
    ensures GivenByOwners(w.ts, w.given)
  {
  }

  // ----- what is refused

  /** An operation that is refused whatever came before it in its session. */
  ghost predicate Forbidden(ts: TaskState, stage: Stage, op: Op) {
    match op
    case AssignInput(user, name, file) =>
      || stage != Assigning || user !in file.owner || name in ts.inputs
      || name !in ts.inputsOwnership || ts.inputsOwnership[name] != file.owner
    case AssignOutput(user, name, file) =>
      || stage != Assigning || user !in file.owner || name in ts.outputs
      || name !in ts.outputsOwnership || ts.outputsOwnership[name] != file.owner
    case Approve(user) => stage != Approving || user !in ts.participants
    case StageForRunning(user) => stage != Staging || user != ts.creator
    case UpdateCmac(name, tag) => stage != Finishing || name !in ts.outputs || ts.outputs[name].cmac.Some?
    case UpdateResult(result) => stage != Finishing
  }

  lemma ForbiddenStays(ts: TaskState, stage: Stage, op: Op, next: Op)
    requires Forbidden(ts, stage, next) && Offers(stage, op) && Apply(ts, op).Some?
    ensures Forbidden(Apply(ts, op).value, stage, next)
  {
  }

  lemma {:induction false} ForbiddenFails(ts: TaskState, stage: Stage, ops: seq<Op>, i: nat)
    requires i < |ops| && Forbidden(ts, stage, ops[i])
    ensures ApplyAll(ts, stage, ops).None?
    decreases ops
  {
    if i > 0 && Offers(stage, ops[0]) && Apply(ts, ops[0]).Some? {
      ForbiddenStays(ts, stage, ops[0], ops[i]);
      ForbiddenFails(Apply(ts, ops[0]).value, stage, ops[1..], i - 1);
    }
  }

  /** A session with an operation that its user has no right to leaves the stored task as it was. */
  lemma ForbiddenChangesNothing(w: World, s: Session, i: nat)
    requires i < |s.ops| && Forbidden(w.ts, s.stage, s.ops[i])
    ensures After(w, s) == w
  {
    ForbiddenFails(w.ts, s.stage, s.ops, i);
  }

  /** And one that is not forbidden, by itself, is carried out in a task that can be restored to its stage. */
  lemma PermittedDone(w: World, stage: Stage, op: Op)
    requires Restores(w.ts, stage) && !Forbidden(w.ts, stage, op)
    ensures Succeeds(w, Session(stage, [op]))
    ensures var v := After(w, Session(stage, [op])).ts;
      match op
      case AssignInput(user, name, file) =>
        v == w.ts.(inputs := w.ts.inputs[name := file], status := v.status)
      case AssignOutput(user, name, file) =>
        v == w.ts.(outputs := w.ts.outputs[name := file], status := v.status)
      case Approve(user) => v == w.ts.(approvedUsers := w.ts.approvedUsers + {user}, status := v.status)
      case StageForRunning(user) => v == w.ts.(status := v.status)
      case UpdateCmac(name, tag) =>
        v == w.ts.(outputs := w.ts.outputs[name := w.ts.outputs[name].(cmac := Some(tag))], status := v.status)
      case UpdateResult(result) => v == w.ts.(result := result, status := v.status)
  {
    assert [op][1..] == [];
    assert Offers(stage, op) && Apply(w.ts, op).Some?;
    assert ApplyAll(w.ts, stage, [op]) == Apply(w.ts, op);
  }

  // ----- how a task moves on

  /** A task is created exactly if the request names what the function declares; who takes part follows from it. */
  lemma CreatedExactly(requester: UserId, arguments: map<Name, string>, inputOwners: map<Name, set<UserId>>,
                       outputOwners: map<Name, set<UserId>>, f: Function)
    ensures var r := Create(requester, arguments, inputOwners, outputOwners, f);
      && (r.Some? <==> && (forall n :: n in f.arguments <==> n in arguments)
                       && (forall n :: n in f.inputs <==> n in inputOwners)
                       && (forall n :: n in f.outputs <==> n in outputOwners))
      && (r.Some? ==>
            var ts := r.value;
            && ts.creator == requester && ts.status == Created && ts.result == NotReady
            && ts.arguments == arguments && ts.inputs == map[] && ts.outputs == map[] && ts.approvedUsers == {}
            && ts.inputsOwnership == inputOwners && ts.outputsOwnership == outputOwners
            && ts.functionId == f.id && ts.functionOwner == f.owner
            && forall u :: u in ts.participants <==>
                 || u == requester || (!f.public && u == f.owner)
                 || (exists n :: n in inputOwners && u in inputOwners[n])
                 || (exists n :: n in outputOwners && u in outputOwners[n]))
  {
  }

  /** Every declared file is assigned. */
  ghost predicate Complete(ts: TaskState) {
    && (forall n :: n in ts.inputsOwnership <==> n in ts.inputs)
    && (forall n :: n in ts.outputsOwnership <==> n in ts.outputs)
  }

  /** The creator is alone, or everyone who takes part has approved. */
  ghost predicate Agreed(ts: TaskState) {
    ts.participants == {ts.creator} || forall u :: u in ts.participants <==> u in ts.approvedUsers
  }

  lemma ReadyExactly(w: World)
    requires Inv(w)
    ensures AllDataAssigned(w.ts) <==> Complete(w.ts)
    ensures EveryoneApproved(w.ts) <==> Agreed(w.ts)
  {
    if |w.ts.participants| == 1 {
      OnlyMember(w.ts.participants, w.ts.creator);
    }
  }

  /** To which stages a stored task can be restored. */
  lemma RestoredExactly(w: World, stage: Stage)
    requires Inv(w)
    ensures Restores(w.ts, stage) <==>
            match stage
            case Assigning => w.ts.status == Created
            case Approving => w.ts.status == DataAssigned || (w.ts.status == Created && Complete(w.ts))
            case Staging =>
              || w.ts.status == Approved
              || (Agreed(w.ts) && (w.ts.status == DataAssigned || (w.ts.status == Created && Complete(w.ts))))
            case Launching => w.ts.status == Staged
            case Finishing => w.ts.status == Running
  {
    ReadyExactly(w);
  }

  /** The status after a session that succeeds. */
  lemma StatusExactly(w: World, s: Session)
    requires Inv(w) && Succeeds(w, s)
    ensures var v := After(w, s).ts;
      v.status ==
      match s.stage
      case Assigning => if Complete(v) then DataAssigned else Created
      case Approving => if Agreed(v) then Approved else DataAssigned
      case Staging => Staged
      case Launching => Running
      case Finishing => Finished
  {
    var v := After(w, s);
    SessionKeeps(w, s);
    ReadyExactly(v);
    hide Inv, ApplyAll, Complete, Agreed;
  }

  /** Who has approved after an approving session. */
  lemma {:induction false} ApprovalsAdd(ts: TaskState, ops: seq<Op>)
    requires ApplyAll(ts, Approving, ops).Some?
    ensures var ts' := ApplyAll(ts, Approving, ops).value;
      forall u :: u in ts'.approvedUsers <==> u in ts.approvedUsers || Approve(u) in ops
    decreases ops
  {
    if ops != [] {
      ApprovalsAdd(Apply(ts, ops[0]).value, ops[1..]);
      assert ops == [ops[0]] + ops[1..];
    }
  }

  /** Over every run, files were handed out to the creator only. */
  lemma {:induction false} StagedByCreator(w: World, ss: seq<Session>)
    requires Inv(w) && forall s :: s in w.staged ==> s.user == w.ts.creator
    ensures var v := Run(w, ss); v.ts.creator == w.ts.creator && forall s :: s in v.staged ==> s.user == w.ts.creator
    decreases ss
  {
    hide Inv, After, Succeeds;
    if ss != [] {
      SessionKeeps(w, ss[0]);
      SessionStages(w, ss[0]);
      StagedByCreator(After(w, ss[0]), ss[1..]);
    }
  }

  lemma SessionStages(w: World, s: Session)
    requires Inv(w) && forall s :: s in w.staged ==> s.user == w.ts.creator
    ensures var v := After(w, s); v.ts.creator == w.ts.creator && forall s :: s in v.staged ==> s.user == w.ts.creator
  {
    SessionChanges(w, s);
    if Succeeds(w, s) {
      if s.stage == Staging {
        StagingChanges(w.ts, s.ops);
      } else {
        HistoryOf(w.ts, ApplyAll(w.ts, s.stage, s.ops).value, s.stage, s.ops);
      }
    }
  }
}
