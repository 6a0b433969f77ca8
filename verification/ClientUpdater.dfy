/** The client's self-update as a protocol between processes that can be stopped
    at any command: updaters stage a version directory under the update lock and
    switch and prune under the exclusive run lock; synchronizations run from the
    current version under the shared run lock. The kernel releases the locks of
    a process that ends, so a lock is held exactly by the processes whose
    position says so. */
module ClientUpdater {
  import opened Prelude
  import opened Text

  datatype Script = Launcher | Sync | Update

  const ALL: set<Script> := {Launcher, Sync, Update}
  const ORDER: seq<Script> := [Launcher, Sync, Update]
  const FAILURE_BACKOFF := 3600
  const SUCCESS_BACKOFF := 86400

  /** A version directory: the scripts that are complete and the recorded revision. */
  datatype Version = Version(scripts: set<Script>, revision: string)

  /** Positions in `update.sh`, after `now` has been read, and in `launcher.sh`. */
  datatype Position =
    | Waiting
    | Locked
    | Fetching(now: int)
    | Verified(now: int, revision: string)
    | Staging(now: int, revision: string, candidate: string, done: nat)
    | Staged(now: int, candidate: string)
    | RunLocked(now: int, candidate: string)
    | Linked(now: int, candidate: string, former: string)
    | Switched(now: int, candidate: string, former: string)
    | Cleared(now: int, former: string)
    | Pruning(now: int, current: string, former: string, todo: set<string>)
    | Finishing(now: int, updated: bool)
    | SyncWaiting
    | SyncLocked
    | Syncing(directory: string)

  /** One update check: when it began and whether it completed. */
  datatype CheckRecord = CheckRecord(at: int, completed: bool)

  datatype Client = Client(
    versions: map<string, Version>,
    current: string,
    previous: Option<string>,
    nextCheck: int,
    processes: map<nat, Position>,
    checks: seq<CheckRecord>)

  /** `Fail` is a failing command or a trapped signal: the clean-up runs, and
      may itself be stopped, leaving part of the candidate. `Kill` is a hard
      stop; if it hits the removal of a directory, part of it may be left. */
  datatype Event =
    | Start(pid: nat, sync: bool)
    | LockUpdate(pid: nat)
    | BeginCheck(pid: nat, now: int)
    | Verify(pid: nat, revision: string)
    | Stage(pid: nat, name: string)
    | Extract(pid: nat)
    | RecordRevision(pid: nat)
    | LockRun(pid: nat)
    | ReadCurrent(pid: nat)
    | SwitchCurrent(pid: nat)
    | ClearCandidate(pid: nat)
    | SwitchPrevious(pid: nat)
    | PruneOne(pid: nat, name: string)
    | EndPrune(pid: nat)
    | EndCheck(pid: nat)
    | LockSync(pid: nat)
    | ExecSync(pid: nat)
    | Exit(pid: nat)
    | Fail(pid: nat, left: Option<set<Script>>)
    | Kill(pid: nat, name: string, part: set<Script>)

  predicate HoldsUpdate(p: Position) {
    !p.Waiting? && !p.SyncWaiting? && !p.SyncLocked? && !p.Syncing?
  }

  predicate HoldsRun(p: Position) {
    p.RunLocked? || p.Linked? || p.Switched? || p.Cleared? || p.Pruning? || (p.Finishing? && p.updated)
  }

  predicate SharesRun(p: Position) {
    p.SyncLocked? || p.Syncing?
  }

  predicate UpdateFree(c: Client) {
    forall q :: q in c.processes ==> !HoldsUpdate(c.processes[q])
  }

  predicate RunFree(c: Client) {
    forall q :: q in c.processes ==> !HoldsRun(c.processes[q]) && !SharesRun(c.processes[q])
  }

  predicate NoRunExclusive(c: Client) {
    forall q :: q in c.processes ==> !HoldsRun(c.processes[q])
  }

  predicate IsVersionName(name: string) {
    HasPrefix(name, "version-") && '/' !in name
  }

  function At(c: Client, pid: nat): Option<Position> {
    if pid in c.processes then Some(c.processes[pid]) else None
  }

  function Move(c: Client, pid: nat, p: Position): Client {
    c.(processes := c.processes[pid := p])
  }

  function Leave(c: Client, pid: nat): Client {
    c.(processes := c.processes - {pid})
  }

  /** The directory that the clean-up removes. */
  function Candidate(p: Position): Option<string> {
    match p
    case Staging(_, _, candidate, _) => Some(candidate)
    case Staged(_, candidate) => Some(candidate)
    case RunLocked(_, candidate) => Some(candidate)
    case Linked(_, candidate, _) => Some(candidate)
    case Switched(_, candidate, _) => Some(candidate)
    case _ => None
  }

  /** `rm -rf` of a directory that is carried out in full (`None`) or in part. */
  function Remove(versions: map<string, Version>, name: string, left: Option<set<Script>>): map<string, Version> {
    if name !in versions then versions
    else if left.None? then versions - {name}
    else versions[name := versions[name].(scripts := versions[name].scripts * left.value)]
  }

  function Completed(checks: seq<CheckRecord>): seq<CheckRecord> {
    if checks == [] then [] else checks[..|checks| - 1] + [checks[|checks| - 1].(completed := true)]
  }

  /** An event that does not fit the position of its process changes nothing. */
  function Step(c: Client, e: Event): Client {
    if e.Start? then
      if e.pid in c.processes then c else Move(c, e.pid, if e.sync then SyncWaiting else Waiting)
    else if e.pid !in c.processes then c
    else Act(c, e, c.processes[e.pid])
  }

  function Act(c: Client, e: Event, p: Position): Client
    requires !e.Start?
  {
    match e
    case LockUpdate(pid) => if p.Waiting? && UpdateFree(c) then Move(c, pid, Locked) else c
    case BeginCheck(pid, now) =>
      if !p.Locked? then c
      else if now < c.nextCheck then Leave(c, pid)
      else
        var checks := c.checks + [CheckRecord(now, false)];
        Move(c, pid, Fetching(now)).(nextCheck := now + FAILURE_BACKOFF, checks := checks)
    case Verify(pid, revision) =>
      if !p.Fetching? then c
      else if c.current in c.versions && c.versions[c.current].revision == revision then
        Move(c, pid, Finishing(p.now, false))
      else Move(c, pid, Verified(p.now, revision))
    case Stage(pid, name) =>
      if !p.Verified? || name in c.versions || !IsVersionName(name) then c
      else Move(c, pid, Staging(p.now, p.revision, name, 0)).(versions := c.versions[name := Version({}, "")])
    case Extract(pid) =>
      if !p.Staging? || p.done >= |ORDER| || p.candidate !in c.versions then c
      else
        var v := c.versions[p.candidate];
        var extracted := v.(scripts := v.scripts + {ORDER[p.done]});
        Move(c, pid, p.(done := p.done + 1)).(versions := c.versions[p.candidate := extracted])
    case RecordRevision(pid) =>
      if !p.Staging? || p.done < |ORDER| || p.candidate !in c.versions then c
      else
        var recorded := c.versions[p.candidate].(revision := p.revision);
        Move(c, pid, Staged(p.now, p.candidate)).(versions := c.versions[p.candidate := recorded])
    case LockRun(pid) => if p.Staged? && RunFree(c) then Move(c, pid, RunLocked(p.now, p.candidate)) else c
    case ReadCurrent(pid) =>
      if !p.RunLocked? then c
      else if IsVersionName(c.current) then Move(c, pid, Linked(p.now, p.candidate, c.current))
      else Leave(c, pid).(versions := Remove(c.versions, p.candidate, None))
    case SwitchCurrent(pid) =>
      if !p.Linked? then c else Move(c, pid, Switched(p.now, p.candidate, p.former)).(current := p.candidate)
    case ClearCandidate(pid) => if !p.Switched? then c else Move(c, pid, Cleared(p.now, p.former))
    case SwitchPrevious(pid) =>
      if !p.Cleared? then c
      else Move(c, pid, Pruning(p.now, c.current, p.former, c.versions.Keys)).(previous := Some(p.former))
    case PruneOne(pid, name) =>
      if !p.Pruning? || name !in p.todo then c
      else
        var moved := Move(c, pid, p.(todo := p.todo - {name}));
        if name == p.current || name == p.former then moved else moved.(versions := Remove(c.versions, name, None))
    case EndPrune(pid) => if p.Pruning? && p.todo == {} then Move(c, pid, Finishing(p.now, true)) else c
    case EndCheck(pid) =>
      if !p.Finishing? then c
      else Leave(c, pid).(nextCheck := p.now + SUCCESS_BACKOFF, checks := Completed(c.checks))
    case LockSync(pid) => if p.SyncWaiting? && NoRunExclusive(c) then Move(c, pid, SyncLocked) else c
    case ExecSync(pid) =>
      if !p.SyncLocked? then c
      else if c.current in c.versions && Sync in c.versions[c.current].scripts then Move(c, pid, Syncing(c.current))
      else Leave(c, pid)
    case Exit(pid) => if p.Syncing? then Leave(c, pid) else c
    case Fail(pid, left) =>
      var candidate := Candidate(p);
      if candidate.None? then Leave(c, pid)
      else Leave(c, pid).(versions := Remove(c.versions, candidate.value, left))
    case Kill(pid, name, part) =>
      if p.Pruning? && name in p.todo && name != p.current && name != p.former then
        Leave(c, pid).(versions := Remove(c.versions, name, Some(part)))
      else Leave(c, pid)
  }

  function Run(c: Client, events: seq<Event>): Client
    decreases |events|
  {
    if events == [] then c else Run(Step(c, events[0]), events[1..])
  }

  /** A fresh installation: one complete version, no process. */
  predicate Installed(c: Client) {
    && IsVersionName(c.current) && c.versions.Keys == {c.current} && c.versions[c.current].scripts == ALL
    && c.previous.None? && c.processes == map[] && c.checks == []
  }

  // ---------------------------------------------------------------------
  // The invariant
  // ---------------------------------------------------------------------

  predicate Complete(versions: map<string, Version>, name: string) {
    name in versions && versions[name].scripts == ALL
  }

  /** What a process's position says about the files. */
  ghost predicate PositionInv(c: Client, p: Position) {
    match p
    case Staging(_, _, candidate, done) =>
      && candidate in c.versions && candidate != c.current && c.previous != Some(candidate)
      && done <= |ORDER| && c.versions[candidate].scripts == set s | s in ORDER[..done]
    case Staged(_, candidate) =>
      Complete(c.versions, candidate) && candidate != c.current && c.previous != Some(candidate)
    case RunLocked(_, candidate) =>
      Complete(c.versions, candidate) && candidate != c.current && c.previous != Some(candidate)
    case Linked(_, candidate, former) =>
      Complete(c.versions, candidate) && candidate != c.current && c.previous != Some(candidate) && former == c.current
    case Switched(_, candidate, former) => candidate == c.current && former != c.current && Complete(c.versions, former)
    case Cleared(_, former) => former != c.current && Complete(c.versions, former)
    case Pruning(_, current, former, todo) =>
      && current == c.current && former != c.current && c.previous == Some(former)
      && c.versions.Keys <= todo + {current, former}
    case Finishing(_, updated) =>
      updated ==> c.previous.Some? && c.previous.value != c.current && c.versions.Keys == {c.current, c.previous.value}
    case Syncing(directory) => directory == c.current
    case _ => true
  }

  /** The update lock excludes other updaters, the exclusive run lock everyone in a run. */
  ghost predicate LocksExclude(c: Client) {
    forall p, q :: p in c.processes && q in c.processes && p != q ==>
      && !(HoldsUpdate(c.processes[p]) && HoldsUpdate(c.processes[q]))
      && !(HoldsRun(c.processes[p]) && SharesRun(c.processes[q]))
  }

  ghost predicate FilesInv(c: Client) {
    && Complete(c.versions, c.current)
    && (c.previous.Some? ==> Complete(c.versions, c.previous.value))
    && (forall name :: name in c.versions ==> IsVersionName(name))
  }

  ghost predicate Inv(c: Client) {
    FilesInv(c) && LocksExclude(c) && forall p :: p in c.processes ==> PositionInv(c, c.processes[p])
  }

  /** A trapped signal that arrives right after `current` was switched and
      before the candidate was cleared makes the clean-up remove the new version. */
  predicate Hazard(c: Client, e: Event) {
    && e.Fail? && e.pid in c.processes && c.processes[e.pid].Switched?
    && !(e.left.Some? && ALL <= e.left.value)
  }
}
