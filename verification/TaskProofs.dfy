/** What holds of a task over every run of its operations. */
module TaskProofs {
  import opened Order
  import opened Tasks

  /** A participant's approval, with the files assigned when it was saved. */
  datatype Approval = Approval(user: UserId, inputs: map<Name, InputFile>, outputs: map<Name, OutputFile>)

  /** Files handed out to run on, and to whom. */
  datatype StagedFiles = StagedFiles(user: UserId, inputs: map<Name, InputFile>, outputs: map<Name, OutputFile>)

  /** A file assigned, and by whom. */
  datatype Given =
    | GivenInput(user: UserId, name: Name, input: InputFile)
    | GivenOutput(user: UserId, name: Name, output: OutputFile)

  /**
    A stored task with its history: the function it was created from, the assignments and approvals saved and the
    files staged.
   */
  datatype World = World(
    ts: TaskState, f: Function, given: seq<Given>, approvals: seq<Approval>, staged: seq<StagedFiles>)

  /** Restore to `stage`, apply `ops` in order, save. Nothing is saved if the restore or an operation fails. */
  datatype Session = Session(stage: Stage, ops: seq<Op>)

  function ApplyAll(ts: TaskState, stage: Stage, ops: seq<Op>): Option<TaskState>
    decreases ops
  {
    if ops == [] then Some(ts)
    else if !Offers(stage, ops[0]) then None
    else
      match Apply(ts, ops[0])
      case None => None
      case Some(ts') => ApplyAll(ts', stage, ops[1..])
  }

  function Givens(ops: seq<Op>): seq<Given> {
    if ops == [] then []
    else
      (match ops[0]
       case AssignInput(user, name, file) => [GivenInput(user, name, file)]
       case AssignOutput(user, name, file) => [GivenOutput(user, name, file)]
       case _ => [])
      + Givens(ops[1..])
  }

  function Approvals(ts: TaskState, ops: seq<Op>): seq<Approval> {
    if ops == [] then []
    else (if ops[0].Approve? then [Approval(ops[0].user, ts.inputs, ts.outputs)] else []) + Approvals(ts, ops[1..])
  }

  function StagedBy(ts: TaskState, ops: seq<Op>): seq<StagedFiles> {
    if ops == [] then []
    else
      (if ops[0].StageForRunning? then [StagedFiles(ops[0].user, ts.inputs, ts.outputs)] else [])
      + StagedBy(ts, ops[1..])
  }

  /** What one session does to a stored task; a failed session leaves it as it is. */
  function After(w: World, s: Session): World {
    if !Restores(w.ts, s.stage) then w
    else
      match ApplyAll(w.ts, s.stage, s.ops)
      case None => w
      case Some(ts) =>
        w.(ts := Save(ts, s.stage),
           given := w.given + Givens(s.ops),
           approvals := w.approvals + Approvals(ts, s.ops),
           staged := w.staged + StagedBy(ts, s.ops))
  }

  function Run(w: World, ss: seq<Session>): World
    decreases ss
  {
    if ss == [] then w else Run(After(w, ss[0]), ss[1..])
  }

  /** A session through a restored task does what `After` says. */
  method RunSession(w: World, s: Session) returns (r: World)
    ensures r == After(w, s)
  {
    if !Restores(w.ts, s.stage) {
      return w;
    }
    var task := new Task(w.ts, s.stage);
    for i := 0 to |s.ops|
      invariant fresh(task) && task.stage == s.stage
      invariant ApplyAll(w.ts, s.stage, s.ops) == ApplyAll(task.state, s.stage, s.ops[i..])
    {
      hide Apply, Offers;
      assert s.ops[i..][1..] == s.ops[i + 1..];
      if !Offers(s.stage, s.ops[i]) {
        return w;
      }
      var ok := task.Do(s.ops[i]);
      if !ok {
        return w;
      }
    }
    r := w.(ts := Save(task.state, s.stage),
            given := w.given + Givens(s.ops),
            approvals := w.approvals + Approvals(task.state, s.ops),
            staged := w.staged + StagedBy(task.state, s.ops));
  }

  function Rank(s: Status): nat {
    match s
    case Created => 0 case DataAssigned => 1 case Approved => 2 case Staged => 3 case Running => 4 case Finished => 5
  }

  ghost function Users(approvals: seq<Approval>): set<UserId> {
    set a | a in approvals :: a.user
  }

  // ----- the invariant

  /** Everyone who has a say: the creator, the declared owners, and the owner of a private function. */
  ghost predicate Involved(w: World) {
    && w.ts.creator in w.ts.participants
    && AllOwners(w.ts.inputsOwnership) <= w.ts.participants
    && AllOwners(w.ts.outputsOwnership) <= w.ts.participants
    && (!w.f.public ==> w.f.owner in w.ts.participants)
  }

  ghost predicate Declared(w: World) {
    && w.ts.inputsOwnership.Keys == Names(w.f.inputs) && w.ts.outputsOwnership.Keys == Names(w.f.outputs)
  }

  /** Every assigned file is a declared one and belongs to exactly its declared owners. */
  ghost predicate OwnedAsDeclared(ts: TaskState) {
    && (forall n :: n in ts.inputs ==> n in ts.inputsOwnership && ts.inputs[n].owner == ts.inputsOwnership[n])
    && (forall n :: n in ts.outputs ==> n in ts.outputsOwnership && ts.outputs[n].owner == ts.outputsOwnership[n])
  }

  /** `b` is `a` except that files without a cmac may have got one. */
  ghost predicate OnlyCmacs(a: map<Name, OutputFile>, b: map<Name, OutputFile>) {
    a.Keys == b.Keys && forall n :: n in a ==> SameButCmac(a[n], b[n])
  }

  ghost predicate SameButCmac(a: OutputFile, b: OutputFile) {
    a == b || (a.cmac.None? && b.cmac.Some? && b == a.(cmac := b.cmac))
  }

  /** The files are those that were approved and staged, up to cmacs filled in while finishing. */
  ghost predicate FilesFixed(w: World) {
    && (forall a :: a in w.approvals ==> a.inputs == w.ts.inputs && OnlyCmacs(a.outputs, w.ts.outputs))
    && (forall s :: s in w.staged ==> s.inputs == w.ts.inputs && OnlyCmacs(s.outputs, w.ts.outputs))
    && (forall a, s :: a in w.approvals && s in w.staged ==> a.outputs == s.outputs)
    && (Rank(w.ts.status) < 5 ==>
          && (forall a :: a in w.approvals ==> a.outputs == w.ts.outputs)
          && (forall s :: s in w.staged ==> s.outputs == w.ts.outputs))
  }

  ghost predicate Inv(w: World) {
    && Involved(w) && Declared(w) && OwnedAsDeclared(w.ts) && FilesFixed(w)
    && (Rank(w.ts.status) >= 1 ==> AllDataAssigned(w.ts))
    && (Rank(w.ts.status) >= 2 ==> EveryoneApproved(w.ts))
    && (Rank(w.ts.status) == 0 ==> w.approvals == [] && w.ts.approvedUsers == {})
    && (Rank(w.ts.status) < 3 ==> w.staged == [])
    && w.ts.approvedUsers <= w.ts.participants
    && w.ts.approvedUsers == Users(w.approvals)
    && (Rank(w.ts.status) < 5 ==> w.ts.result == NotReady)
  }

  /** A task as created. */
  ghost predicate Start(w: World) {
    && w.given == [] && w.approvals == [] && w.staged == []
    && exists requester, arguments, inputOwners, outputOwners ::
         Create(requester, arguments, inputOwners, outputOwners, w.f) == Some(w.ts)
  }

  lemma StartInv(w: World)
    requires Start(w)
    ensures Inv(w) && w.ts.status == Created
  {
  }

  // ----- what the operations of each stage change

  lemma {:induction false} AssigningChanges(ts: TaskState, ops: seq<Op>)
    requires OwnedAsDeclared(ts) && ApplyAll(ts, Assigning, ops).Some?
    ensures var ts' := ApplyAll(ts, Assigning, ops).value;
      OwnedAsDeclared(ts') && ts' == ts.(inputs := ts'.inputs, outputs := ts'.outputs)
    decreases ops
  {
    if ops != [] {
      AssigningChanges(Apply(ts, ops[0]).value, ops[1..]);
    }
  }

  lemma {:induction false} ApprovingChanges(ts: TaskState, ops: seq<Op>, t: TaskState)
    requires ApplyAll(ts, Approving, ops).Some?
    ensures var ts' := ApplyAll(ts, Approving, ops).value;
      && ts' == ts.(approvedUsers := ts.approvedUsers + Users(Approvals(t, ops)))
      && (ts.approvedUsers <= ts.participants ==> ts'.approvedUsers <= ts.participants)
    ensures forall a :: a in Approvals(t, ops) ==> a.inputs == t.inputs && a.outputs == t.outputs
    decreases ops
  {
    if ops != [] {
      ApprovingChanges(Apply(ts, ops[0]).value, ops[1..], t);
      UsersAppend([Approval(ops[0].user, t.inputs, t.outputs)], Approvals(t, ops[1..]));
    }
  }

  lemma UsersAppend(a: seq<Approval>, b: seq<Approval>)
    ensures Users(a + b) == Users(a) + Users(b)
  {
  }

  lemma {:induction false} StagingChanges(ts: TaskState, ops: seq<Op>)
    requires ApplyAll(ts, Staging, ops).Some?
    ensures ApplyAll(ts, Staging, ops).value == ts
    ensures forall s :: s in StagedBy(ts, ops) ==> s == StagedFiles(ts.creator, ts.inputs, ts.outputs)
    decreases ops
  {
    if ops != [] {
      StagingChanges(ts, ops[1..]);
    }
  }

  lemma {:induction false} FinishingChanges(ts: TaskState, ops: seq<Op>)
    requires OwnedAsDeclared(ts) && ApplyAll(ts, Finishing, ops).Some?
    ensures var ts' := ApplyAll(ts, Finishing, ops).value;
      && OwnedAsDeclared(ts') && ts' == ts.(outputs := ts'.outputs, result := ts'.result)
      && OnlyCmacs(ts.outputs, ts'.outputs)
    decreases ops
  {
    if ops != [] {
      FinishingChanges(Apply(ts, ops[0]).value, ops[1..]);
    }
  }

  /** Only approving sessions record approvals, and only staging sessions stage files. */
  lemma {:induction false} HistoryOf(ts: TaskState, t: TaskState, stage: Stage, ops: seq<Op>)
    requires ApplyAll(ts, stage, ops).Some?
    ensures stage != Approving ==> Approvals(t, ops) == []
    ensures stage != Staging ==> StagedBy(t, ops) == []
    ensures stage == Launching ==> ops == []
    decreases ops
  {
    if ops != [] {
      HistoryOf(Apply(ts, ops[0]).value, t, stage, ops[1..]);
    }
  }

  // ----- sessions keep the invariant

  ghost predicate Succeeds(w: World, s: Session) {
    Restores(w.ts, s.stage) && ApplyAll(w.ts, s.stage, s.ops).Some?
  }

  lemma {:induction false} AssigningKeeps(w: World, ops: seq<Op>)
    requires Inv(w) && Succeeds(w, Session(Assigning, ops))
    ensures Inv(After(w, Session(Assigning, ops)))
  {
    AssigningChanges(w.ts, ops);
    HistoryOf(w.ts, ApplyAll(w.ts, Assigning, ops).value, Assigning, ops);
  }

  lemma {:induction false} ApprovingKeepsFiles(w: World, ops: seq<Op>)
    requires FilesFixed(w) && Succeeds(w, Session(Approving, ops)) && (Rank(w.ts.status) < 3 ==> w.staged == [])
    ensures FilesFixed(After(w, Session(Approving, ops)))
  {
    var ts := ApplyAll(w.ts, Approving, ops).value;
    ApprovingChanges(w.ts, ops, ts);
    HistoryOf(w.ts, ts, Approving, ops);
    OnlyCmacsReflexive(ts.outputs);
  }

  lemma {:induction false} ApprovingKeeps(w: World, ops: seq<Op>)
    requires Inv(w) && Succeeds(w, Session(Approving, ops))
    ensures Inv(After(w, Session(Approving, ops)))
  {
    hide FilesFixed, ApplyAll, Users, Approvals, StagedBy, AllOwners, Names;
    var ts := ApplyAll(w.ts, Approving, ops).value;
    ApprovingKeepsFiles(w, ops);
    ApprovingChanges(w.ts, ops, ts);
    HistoryOf(w.ts, ts, Approving, ops);
    UsersAppend(w.approvals, Approvals(ts, ops));
  }

  lemma {:induction false} StagingKeeps(w: World, ops: seq<Op>)
    requires Inv(w) && Succeeds(w, Session(Staging, ops))
    ensures Inv(After(w, Session(Staging, ops)))
  {
    hide ApplyAll, Approvals, StagedBy, Involved, Declared, OwnedAsDeclared, OnlyCmacs;
    StagingChanges(w.ts, ops);
    HistoryOf(w.ts, w.ts, Staging, ops);
    OnlyCmacsReflexive(w.ts.outputs);
    SameTaskKeeps(w, After(w, Session(Staging, ops)));
  }

  /** What is said of the ownership and the files alone stays true while these stay the same. */
  lemma SameTaskKeeps(w: World, v: World)
    requires Involved(w) && Declared(w) && OwnedAsDeclared(w.ts)
    requires v.f == w.f && v.ts == w.ts.(status := v.ts.status)
    ensures Involved(v) && Declared(v) && OwnedAsDeclared(v.ts)
  {
  }

  lemma {:induction false} LaunchingKeeps(w: World, ops: seq<Op>)
    requires Inv(w) && Succeeds(w, Session(Launching, ops))
    ensures Inv(After(w, Session(Launching, ops)))
  {
    HistoryOf(w.ts, w.ts, Launching, ops);
  }

  lemma {:induction false} FinishingKeeps(w: World, ops: seq<Op>)
    requires Inv(w) && Succeeds(w, Session(Finishing, ops))
    ensures Inv(After(w, Session(Finishing, ops)))
  {
    hide ApplyAll, Approvals, StagedBy, Names;
    FinishingChanges(w.ts, ops);
    HistoryOf(w.ts, ApplyAll(w.ts, Finishing, ops).value, Finishing, ops);
  }

  lemma SessionKeeps(w: World, s: Session)
    requires Inv(w)
    ensures Inv(After(w, s))
  {
    hide Inv;
    if Succeeds(w, s) {
      match s.stage {
        case Assigning => AssigningKeeps(w, s.ops);
        case Approving => ApprovingKeeps(w, s.ops);
        case Staging => StagingKeeps(w, s.ops);
        case Launching => LaunchingKeeps(w, s.ops);
        case Finishing => FinishingKeeps(w, s.ops);
      }
    }
  }

  lemma {:induction false} RunKeeps(w: World, ss: seq<Session>)
    requires Inv(w)
    ensures Inv(Run(w, ss))
    decreases ss
  {
    hide Inv, After;
    if ss != [] {
      SessionKeeps(w, ss[0]);
      RunKeeps(After(w, ss[0]), ss[1..]);
    }
  }

  // ----- over whole runs

  /** Status never moves backwards. */
  lemma {:induction false} StatusNeverFalls(w: World, ss: seq<Session>)
    requires Inv(w)
    ensures Rank(w.ts.status) <= Rank(Run(w, ss).ts.status)
    decreases ss
  {
    if ss != [] {
      SessionKeeps(w, ss[0]);
      SessionRaises(w, ss[0]);
      StatusNeverFalls(After(w, ss[0]), ss[1..]);
    }
  }

  lemma SessionRaises(w: World, s: Session)
    requires Inv(w)
    ensures Rank(w.ts.status) <= Rank(After(w, s).ts.status)
  {
  }

  /** What no operation touches. */
  ghost predicate SameTask(v: World, w: World) {
    && w.f == v.f && w.ts.creator == v.ts.creator && w.ts.participants == v.ts.participants
    && w.ts.inputsOwnership == v.ts.inputsOwnership && w.ts.outputsOwnership == v.ts.outputsOwnership
  }

  /** Once all data is assigned, the files no longer change, except for output cmacs filled in once. */
  ghost predicate FilesKept(v: World, w: World) {
    w.ts.inputs == v.ts.inputs && OnlyCmacs(v.ts.outputs, w.ts.outputs)
  }

  lemma SessionChanges(w: World, s: Session)
    requires Inv(w)
    ensures SameTask(w, After(w, s)) && (Rank(w.ts.status) >= 1 ==> FilesKept(w, After(w, s)))
  {
    if Succeeds(w, s) {
      match s.stage {
        case Assigning => AssigningChanges(w.ts, s.ops);
        case Approving => ApprovingChanges(w.ts, s.ops, w.ts);
        case Staging => StagingChanges(w.ts, s.ops);
        case Launching => HistoryOf(w.ts, w.ts, Launching, s.ops);
        case Finishing => FinishingChanges(w.ts, s.ops);
      }
    }
  }

  lemma OnlyCmacsTransitive(a: map<Name, OutputFile>, b: map<Name, OutputFile>, c: map<Name, OutputFile>)
    requires OnlyCmacs(a, b) && OnlyCmacs(b, c)
    ensures OnlyCmacs(a, c)
  {
    forall n | n in a ensures SameButCmac(a[n], c[n]) {
      assert SameButCmac(a[n], b[n]) && SameButCmac(b[n], c[n]);
    }
  }

  /** Over any run, an assignment once complete is kept, and each output gets a cmac at most once. */
  lemma {:induction false} RunChanges(w: World, ss: seq<Session>)
    requires Inv(w)
    ensures SameTask(w, Run(w, ss)) && (Rank(w.ts.status) >= 1 ==> FilesKept(w, Run(w, ss)))
    decreases ss
  {
    hide Inv, After, OnlyCmacs;
    if ss == [] {
      OnlyCmacsReflexive(w.ts.outputs);
    } else {
      var v := After(w, ss[0]);
      SessionKeeps(w, ss[0]);
      SessionChanges(w, ss[0]);
      SessionRaises(w, ss[0]);
      RunChanges(v, ss[1..]);
      if Rank(w.ts.status) >= 1 {
        OnlyCmacsTransitive(w.ts.outputs, v.ts.outputs, Run(w, ss).ts.outputs);
      }
    }
  }

  lemma OnlyCmacsReflexive(a: map<Name, OutputFile>)
    ensures OnlyCmacs(a, a)
  {
  }

  /**
    In every reachable state from Approved on, all declared files are assigned, and unless the
    creator is the only participant, the creator, every owner of an assigned file and the owner of
    a private function have approved, each of exactly the files assigned then.
   */
  lemma ApprovedByEveryone(w0: World, ss: seq<Session>, u: UserId)
    requires Start(w0) && Rank(Run(w0, ss).ts.status) >= 2
    ensures var w := Run(w0, ss);
      && w.ts.inputs.Keys == Names(w0.f.inputs) && w.ts.outputs.Keys == Names(w0.f.outputs)
      && (w.ts.participants == {w0.ts.creator} || w.ts.participants == w.ts.approvedUsers)
      && (u == w0.ts.creator || (!w0.f.public && u == w0.f.owner)
          || (exists n :: n in w.ts.inputs && u in w.ts.inputs[n].owner)
          || (exists n :: n in w.ts.outputs && u in w.ts.outputs[n].owner) ==>
            w.ts.participants == {w0.ts.creator}
            || exists a :: a in w.approvals && a.user == u && a.inputs == w.ts.inputs
                && OnlyCmacs(a.outputs, w.ts.outputs))
  {
    var w := Run(w0, ss);
    StartInv(w0);
    RunKeeps(w0, ss);
    RunChanges(w0, ss);
    if |w.ts.participants| == 1 {
      OnlyMember(w.ts.participants, w.ts.creator);
    }
    if u in w.ts.approvedUsers {
      var a :| a in w.approvals && a.user == u;
    }
  }

  lemma OnlyMember(s: set<UserId>, u: UserId)
    requires u in s && |s| == 1
    ensures s == {u}
  {
    assert |s - {u}| == 0;
    assert s == (s - {u}) + {u};
  }

  /**
    What was approved is what is staged: the same files under the names the function declared when the task
    was created.
   */
  lemma StagedAsApproved(w0: World, ss: seq<Session>, s: StagedFiles)
    requires Start(w0) && s in Run(w0, ss).staged
    ensures var w := Run(w0, ss);
      && s.inputs.Keys == Names(w0.f.inputs) && s.outputs.Keys == Names(w0.f.outputs)
      && (forall a :: a in w.approvals ==> a.inputs == s.inputs && a.outputs == s.outputs)
      && s.inputs == w.ts.inputs && OnlyCmacs(s.outputs, w.ts.outputs)
      && Rank(w.ts.status) >= 3
  {
    StartInv(w0);
    RunKeeps(w0, ss);
    RunChanges(w0, ss);
  }

  /** There is no result before the task has finished. */
  lemma ResultWaits(w0: World, ss: seq<Session>)
    requires Start(w0)
    ensures Run(w0, ss).ts.status == Finished || Run(w0, ss).ts.result == NotReady
  {
    StartInv(w0);
    RunKeeps(w0, ss);
  }
}
