/**
  The life of a task: created from a function, given its files, approved by everyone involved,
  staged, run and finished. A stored state is restored to a stage, changed there, and saved again,
  moving on to the next stage if it is ready for it.
 */
module Tasks {
  import opened Order

  type UserId = string
  type Name = string

  datatype InputFile = InputFile(uuid: nat, url: string, cmac: string, owner: set<UserId>)
  datatype OutputFile = OutputFile(uuid: nat, url: string, cmac: Option<string>, owner: set<UserId>)

  datatype Function = Function(
    id: nat, owner: UserId, public: bool, arguments: seq<Name>, inputs: seq<Name>, outputs: seq<Name>)

  datatype Result = NotReady | Success(value: string) | Failure(reason: string)

  datatype Status = Created | DataAssigned | Approved | Staged | Running | Finished

  datatype TaskState = TaskState(
    creator: UserId,
    functionId: nat,
    arguments: map<Name, string>,
    inputsOwnership: map<Name, set<UserId>>,
    outputsOwnership: map<Name, set<UserId>>,
    functionOwner: UserId,
    participants: set<UserId>,
    approvedUsers: set<UserId>,
    inputs: map<Name, InputFile>,
    outputs: map<Name, OutputFile>,
    result: Result,
    status: Status)

  function AllOwners(owners: map<Name, set<UserId>>): set<UserId> {
    set n, u | n in owners && u in owners[n] :: u
  }

  function Names(ns: seq<Name>): set<Name> {
    set n | n in ns
  }

  predicate EveryoneApproved(ts: TaskState) {
    |ts.participants| == 1 || ts.participants == ts.approvedUsers
  }

  predicate AllDataAssigned(ts: TaskState) {
    ts.inputsOwnership.Keys == ts.inputs.Keys && ts.outputsOwnership.Keys == ts.outputs.Keys
  }

  /** A new task, saved as Created; none if the request does not fit the function. */
  function Create(requester: UserId, arguments: map<Name, string>, inputOwners: map<Name, set<UserId>>,
                  outputOwners: map<Name, set<UserId>>, f: Function): Option<TaskState>
  {
    var private := if f.public then {} else {f.owner};
    var participants := AllOwners(inputOwners) + AllOwners(outputOwners) + {requester} + private;
    if Names(f.arguments) != arguments.Keys then None
    else if Names(f.inputs) != inputOwners.Keys then None
    else if Names(f.outputs) != outputOwners.Keys then None
    else
      Some(TaskState(requester, f.id, arguments, inputOwners, outputOwners, f.owner, participants, {}, map[], map[],
                     NotReady, Created))
  }

  // ----- stages

  datatype Stage = Assigning | Approving | Staging | Launching | Finishing

  /** Restoring a stored state to a stage, passing through earlier stages that are already complete. */
  predicate Restores(ts: TaskState, stage: Stage)
    decreases match stage case Assigning => 0 case Approving => 1 case _ => 2
  {
    match stage
    case Assigning => ts.status == Created
    case Approving =>
      || (ts.status == Created && Restores(ts, Assigning) && AllDataAssigned(ts))
      || ts.status == DataAssigned
    case Staging =>
      || ((ts.status == Created || ts.status == DataAssigned) && Restores(ts, Approving) && EveryoneApproved(ts))
      || ts.status == Approved
    case Launching => ts.status == Staged
    case Finishing => ts.status == Running
  }

  /** Saving from a stage: the next stage's status if the task is ready for it, the stage's own otherwise. */
  function Save(ts: TaskState, stage: Stage): TaskState {
    ts.(status :=
      match stage
      case Assigning => if AllDataAssigned(ts) then DataAssigned else Created
      case Approving => if EveryoneApproved(ts) then Approved else DataAssigned
      case Staging => Staged
      case Launching => Running
      case Finishing => Finished)
  }

  // ----- operations of the stages

  datatype Op =
    | AssignInput(user: UserId, name: Name, input: InputFile)
    | AssignOutput(user: UserId, name: Name, output: OutputFile)
    | Approve(user: UserId)
    | StageForRunning(user: UserId)
    | UpdateCmac(name: Name, tag: string)
    | UpdateResult(result: Result)

  predicate Offers(stage: Stage, op: Op) {
    match op
    case AssignInput(_, _, _) => stage == Assigning
    case AssignOutput(_, _, _) => stage == Assigning
    case Approve(_) => stage == Approving
    case StageForRunning(_) => stage == Staging
    case UpdateCmac(_, _) => stage == Finishing
    case UpdateResult(_) => stage == Finishing
  }

  /** The file given for `name` must be declared, by exactly its owners, and not given before. */
  predicate MayAssign<F>(user: UserId, ownership: map<Name, set<UserId>>, given: map<Name, F>, name: Name,
                         owner: set<UserId>) {
    user in owner && name in ownership && ownership[name] == owner && name !in given
  }

  /** The effect of an operation; none if it is refused. */
  function Apply(ts: TaskState, op: Op): Option<TaskState> {
    match op
    case AssignInput(user, name, file) =>
      if MayAssign(user, ts.inputsOwnership, ts.inputs, name, file.owner)
      then Some(ts.(inputs := ts.inputs[name := file])) else None
    case AssignOutput(user, name, file) =>
      if MayAssign(user, ts.outputsOwnership, ts.outputs, name, file.owner)
      then Some(ts.(outputs := ts.outputs[name := file])) else None
    case Approve(user) =>
      if user in ts.participants then Some(ts.(approvedUsers := ts.approvedUsers + {user})) else None
    case StageForRunning(user) =>
      if user == ts.creator then Some(ts) else None
    case UpdateCmac(name, tag) =>
      if name in ts.outputs && ts.outputs[name].cmac.None?
      then Some(ts.(outputs := ts.outputs[name := ts.outputs[name].(cmac := Some(tag))])) else None
    case UpdateResult(result) =>
      Some(ts.(result := result))
  }

  /** A task restored to a stage; its operations change the state in place. */
  class Task {
    const stage: Stage
    var state: TaskState

    constructor (ts: TaskState, stage: Stage)
      requires Restores(ts, stage)
      ensures state == ts && this.stage == stage
    {
      this.stage, state := stage, ts;
    }

    method AssignInputFile(requester: UserId, fname: Name, file: InputFile) returns (ok: bool)
      requires stage == Assigning
      modifies this
      ensures ok == Apply(old(state), AssignInput(requester, fname, file)).Some?
      ensures state == if ok then Apply(old(state), AssignInput(requester, fname, file)).value else old(state)
      ensures ok <==> && requester in file.owner
                      && fname in old(state.inputsOwnership) && old(state.inputsOwnership)[fname] == file.owner
                      && fname !in old(state.inputs)
      ensures ok ==> state == old(state).(inputs := old(state.inputs)[fname := file])
    {
      if requester !in file.owner {
        return false;
      }
      if fname !in state.inputsOwnership || state.inputsOwnership[fname] != file.owner {
        return false;
      }
      if fname in state.inputs {
        return false;
      }
      state := state.(inputs := state.inputs[fname := file]);
      ok := true;
    }

    method AssignOutputFile(requester: UserId, fname: Name, file: OutputFile) returns (ok: bool)
      requires stage == Assigning
      modifies this
      ensures ok == Apply(old(state), AssignOutput(requester, fname, file)).Some?
      ensures state == if ok then Apply(old(state), AssignOutput(requester, fname, file)).value else old(state)
      ensures ok <==> && requester in file.owner
                      && fname in old(state.outputsOwnership) && old(state.outputsOwnership)[fname] == file.owner
                      && fname !in old(state.outputs)
      ensures ok ==> state == old(state).(outputs := old(state.outputs)[fname := file])
    {
      if requester !in file.owner {
        return false;
      }
      if fname !in state.outputsOwnership || state.outputsOwnership[fname] != file.owner {
        return false;
      }
      if fname in state.outputs {
        return false;
      }
      state := state.(outputs := state.outputs[fname := file]);
      ok := true;
    }

    method ApproveBy(requester: UserId) returns (ok: bool)
      requires stage == Approving
      modifies this
      ensures ok == Apply(old(state), Approve(requester)).Some?
      ensures state == if ok then Apply(old(state), Approve(requester)).value else old(state)
      ensures ok <==> requester in old(state.participants)
      ensures ok ==> state == old(state).(approvedUsers := old(state.approvedUsers) + {requester})
    {
      if requester !in state.participants {
        return false;
      }
      state := state.(approvedUsers := state.approvedUsers + {requester});
      ok := true;
    }

    method UpdateOutputCmac(fname: Name, tag: string) returns (ok: bool)
      requires stage == Finishing
      modifies this
      ensures ok == Apply(old(state), UpdateCmac(fname, tag)).Some?
      ensures state == if ok then Apply(old(state), UpdateCmac(fname, tag)).value else old(state)
      ensures ok <==> fname in old(state.outputs) && old(state.outputs)[fname].cmac == None
      ensures ok ==> state.outputs.Keys == old(state.outputs).Keys && state.outputs[fname].cmac == Some(tag)
      ensures ok ==> var was := old(state.outputs);
        state == old(state).(outputs := was[fname := was[fname].(cmac := Some(tag))])
    {
      if fname !in state.outputs || state.outputs[fname].cmac.Some? {
        return false;
      }
      state := state.(outputs := state.outputs[fname := state.outputs[fname].(cmac := Some(tag))]);
      ok := true;
    }

    /** Hands out the assigned files to run on, to the creator only. */
    method StageForRunningBy(requester: UserId) returns (staged: Option<(map<Name, InputFile>, map<Name, OutputFile>)>)
      requires stage == Staging
      ensures staged.Some? <==> Apply(state, StageForRunning(requester)).Some?
      ensures staged.Some? <==> requester == state.creator
      ensures staged.Some? ==> staged.value == (state.inputs, state.outputs)
    {
      if requester != state.creator {
        return None;
      }
      staged := Some((state.inputs, state.outputs));
    }

    method SetResult(result: Result)
      requires stage == Finishing
      modifies this
      ensures Some(state) == Apply(old(state), UpdateResult(result)) && state == old(state).(result := result)
    {
      state := state.(result := result);
    }

    /** One operation of the stage. */
    method Do(op: Op) returns (ok: bool)
      requires Offers(stage, op)
      modifies this
      ensures ok == Apply(old(state), op).Some? && state == if ok then Apply(old(state), op).value else old(state)
    {
      match op {
        case AssignInput(user, name, file) => ok := AssignInputFile(user, name, file);
        case AssignOutput(user, name, file) => ok := AssignOutputFile(user, name, file);
        case Approve(user) => ok := ApproveBy(user);
        case StageForRunning(user) =>
          var staged := StageForRunningBy(user);
          ok := staged.Some?;
        case UpdateCmac(name, tag) => ok := UpdateOutputCmac(name, tag);
        case UpdateResult(result) =>
          SetResult(result);
          ok := true;
      }
    }
  }
}
