/** The deployment manager as a state machine: starting a task, running it over its targets,
    cancelling it, and mutating the image, interleaved step by step.
    daemon/internal/deployment/manager.go:104-468 */
module Deployments {
  import opened Options

  type Server = string
  type Thread = nat
  type TaskId = nat

  /** Instance "<server>_<slot>". */
  datatype Instance = Instance(server: Server, slot: nat)

  datatype Kind = MirrorDeploy | ImageSyncBack

  datatype Status =
    | Queued | Running | CancelRequested | ForceStopRequested
    | Cancelled | ForceStopped | Completed | CompletedWithErrors | Failed

  predicate IsFinished(status: Status) {
    status in {Cancelled, ForceStopped, Completed, CompletedWithErrors, Failed}
  }

  // ----- the targets of a task

  predicate Ascending(s: seq<int>) {
    forall i, j :: 0 <= i < j < |s| ==> s[i] < s[j]
  }

  function InsertSlot(x: int, s: seq<int>): seq<int> {
    if s == [] || x <= s[0] then [x] + s else [s[0]] + InsertSlot(x, s[1..])
  }

  lemma {:induction false} InsertSlotKeeps(x: int, s: seq<int>)
    requires Ascending(s) && x !in s
    ensures Ascending(InsertSlot(x, s)) && forall y :: y in InsertSlot(x, s) <==> y == x || y in s
  {
    if s != [] && x > s[0] {
      InsertSlotKeeps(x, s[1..]);
      assert s == [s[0]] + s[1..];
      assert forall y :: y in s <==> y == s[0] || y in s[1..];
      var rest := InsertSlot(x, s[1..]);
      forall i | 0 <= i < |rest| ensures s[0] < rest[i] {
        assert rest[i] in rest;
      }
    }
  }

  /** All slots when none is requested; otherwise the requested ones, once each and in order. */
  method NormalizeTargets(requested: seq<int>, count: nat) returns (targets: Option<seq<int>>)
    ensures targets.None? <==> exists i :: 0 <= i < |requested| && !(1 <= requested[i] <= count)
    ensures targets.Some? ==> Ascending(targets.value)
    ensures targets.Some? ==> forall slot :: slot in targets.value <==> if requested == [] then 1 <= slot <= count else slot in requested
  {
    if |requested| == 0 {
      var all := seq(count, i => i + 1);
      forall slot | 1 <= slot <= count ensures slot in all {
        assert all[slot - 1] == slot;
      }
      return Some(all);
    }
    var unique: set<int>, sorted: seq<int> := {}, [];
    for i := 0 to |requested|
      invariant forall k :: 0 <= k < i ==> 1 <= requested[k] <= count
      invariant forall slot :: slot in unique <==> slot in requested[..i]
      invariant Ascending(sorted) && forall slot :: slot in sorted <==> slot in unique
    {
      if requested[i] < 1 || requested[i] > count {
        return None;
      }
      if requested[i] !in unique {
        InsertSlotKeeps(requested[i], sorted);
        sorted := InsertSlot(requested[i], sorted);
      }
      unique := unique + {requested[i]};
    }
    assert requested[..|requested|] == requested;
    return Some(sorted);
  }

  // ----- the state

  /** Who holds an image lock or a reservation: a request that is starting a task or mutating the
      image, or a task. */
  datatype Holder = ByThread(thread: Thread) | ByTask(task: TaskId)

  /** One sync.RWMutex. */
  datatype ImageLock = ImageLock(readers: set<Holder>, writer: Option<Holder>)

  datatype Task = Task(server: Server, kind: Kind, targets: seq<int>, status: Status, force: bool, cancelled: bool,
                       completed: nat, failed: nat)

  /** Where a request stands. */
  datatype PC =
    | Idle
    | HasImage(server: Server, kind: Kind)
    | Checked(server: Server, kind: Kind, targets: seq<int>)
    | Reserved(server: Server, kind: Kind, targets: seq<int>)
    | BackingOut(server: Server, kind: Kind, targets: seq<int>)
    | Refusing(server: Server, kind: Kind)
    | Mutating(server: Server)

  /** Where the goroutine of a task stands. */
  datatype Run =
    | Launched
    | AtSlot(n: nat)
    | InSlot(n: nat)
    | Stopping
    | FreeingInstances
    | FreeingImage
    | Done

  datatype State = State(active: map<Server, TaskId>, tasks: map<TaskId, Task>, runs: map<TaskId, Run>,
                         pcs: map<Thread, PC>, image: map<Server, ImageLock>, reserved: map<Instance, Holder>)

  function At(s: State, t: Thread): PC {
    if t in s.pcs then s.pcs[t] else Idle
  }

  function Lock(s: State, server: Server): ImageLock {
    if server in s.image then s.image[server] else ImageLock({}, None)
  }

  predicate CanLock(lock: ImageLock, kind: Kind) {
    lock.writer.None? && (kind == ImageSyncBack ==> lock.readers == {})
  }

  predicate HasLock(lock: ImageLock, kind: Kind, h: Holder) {
    if kind == ImageSyncBack then lock.writer == Some(h) else h in lock.readers
  }

  function Locked(lock: ImageLock, kind: Kind, h: Holder): ImageLock {
    if kind == ImageSyncBack then lock.(writer := Some(h)) else lock.(readers := lock.readers + {h})
  }

  function Unlocked(lock: ImageLock, kind: Kind, h: Holder): ImageLock {
    if kind == ImageSyncBack then lock.(writer := None) else lock.(readers := lock.readers - {h})
  }

  function Instances(server: Server, targets: seq<int>): set<Instance> {
    set i | 0 <= i < |targets| && targets[i] >= 0 :: Instance(server, targets[i])
  }

  function GiveAll(reserved: map<Instance, Holder>, instances: set<Instance>, h: Holder): map<Instance, Holder> {
    map i | i in reserved.Keys + instances :: if i in instances then h else reserved[i]
  }

  // ----- the steps

  datatype Action =
    | CallStart(server: Server, kind: Kind)
    | Check(targets: Option<seq<int>>)
    | Reserve(settled: bool)
    | Commit(task: TaskId)
    | BackOut
    | Refuse
    | Cancel(task: TaskId, force: bool)
    | CallMutation(server: Server)
    | EndMutation

  datatype RunAction =
    | Begin
    | NextSlot
    | EndSlot(ok: bool)
    | FinishCancelled
    | FreeInstances
    | FreeImage

  predicate Enabled(s: State, t: Thread, a: Action) {
    match (At(s, t), a)
    case (Idle, CallStart(_, _)) => true
    case (HasImage(_, _), Check(_)) => true
    case (Checked(_, _, _), Reserve(_)) => true
    case (Reserved(_, _, _), Commit(task)) => task !in s.tasks
    case (BackingOut(_, _, _), BackOut) => true
    case (Refusing(_, _), Refuse) => true
    case (Idle, Cancel(_, _)) => true
    case (Idle, CallMutation(_)) => true
    case (Mutating(_), EndMutation) => true
    case _ => false
  }

  function Go(s: State, t: Thread, pc: PC): State {
    s.(pcs := s.pcs[t := pc])
  }

  function SetLock(s: State, server: Server, lock: ImageLock): State {
    s.(image := s.image[server := lock])
  }

  /** A request becomes a task, which takes over its lock and its instances. */
  function TaskMade(s: State, t: Thread, task: TaskId): State
    requires At(s, t).Reserved?
  {
    var pc := At(s, t);
    var lock := Locked(Unlocked(Lock(s, pc.server), pc.kind, ByThread(t)), pc.kind, ByTask(task));
    Go(SetLock(s, pc.server, lock).(
         active := s.active[pc.server := task],
         tasks := s.tasks[task := Task(pc.server, pc.kind, pc.targets, Queued, false, false, 0, 0)],
         runs := s.runs[task := Launched],
         reserved := GiveAll(s.reserved, Instances(pc.server, pc.targets), ByTask(task))), t, Idle)
  }

  function Apply(s: State, t: Thread, a: Action): State
    requires Enabled(s, t, a)
  {
    match a
    case CallStart(server, kind) =>
      if CanLock(Lock(s, server), kind)
      then Go(SetLock(s, server, Locked(Lock(s, server), kind, ByThread(t))), t, HasImage(server, kind))
      else s
    case Check(targets) =>
      // the request, the image directory, the residue and the active task were looked at
      var pc := At(s, t);
      if targets.None? || pc.server in s.active then Go(s, t, Refusing(pc.server, pc.kind))
      else Go(s, t, Checked(pc.server, pc.kind, targets.value))
    case Reserve(settled) =>
      var pc := At(s, t);
      var instances := Instances(pc.server, pc.targets);
      if settled && instances !! s.reserved.Keys
      then Go(s.(reserved := GiveAll(s.reserved, instances, ByThread(t))), t, Reserved(pc.server, pc.kind, pc.targets))
      else Go(s, t, Refusing(pc.server, pc.kind))
    case Commit(task) =>
      var pc := At(s, t);
      if pc.server in s.active then Go(s, t, BackingOut(pc.server, pc.kind, pc.targets))
      else TaskMade(s, t, task)
    case BackOut =>
      var pc := At(s, t);
      Go(s.(reserved := s.reserved - Instances(pc.server, pc.targets)), t, Refusing(pc.server, pc.kind))
    case Refuse =>
      var pc := At(s, t);
      Go(SetLock(s, pc.server, Unlocked(Lock(s, pc.server), pc.kind, ByThread(t))), t, Idle)
    case Cancel(task, force) =>
      if task !in s.tasks || IsFinished(s.tasks[task].status) then s
      else s.(tasks := s.tasks[task := s.tasks[task].(
        force := force, cancelled := true, status := if force then ForceStopRequested else CancelRequested)])
    case CallMutation(server) =>
      if CanLock(Lock(s, server), ImageSyncBack)
      then Go(SetLock(s, server, Locked(Lock(s, server), ImageSyncBack, ByThread(t))), t, Mutating(server))
      else s
    case EndMutation =>
      Go(SetLock(s, At(s, t).server, Unlocked(Lock(s, At(s, t).server), ImageSyncBack, ByThread(t))), t, Idle)
  }

  predicate RunEnabled(s: State, k: TaskId, a: RunAction) {
    && k in s.runs && k in s.tasks
    && match (s.runs[k], a)
       case (Launched, Begin) => true
       case (AtSlot(n), NextSlot) => n <= |s.tasks[k].targets|
       case (InSlot(_), EndSlot(_)) => true
       case (Stopping, FinishCancelled) => true
       case (FreeingInstances, FreeInstances) => true
       case (FreeingImage, FreeImage) => true
       case _ => false
  }

  /** The section that ends a task: its status is final and the server is free again. */
  function Finish(s: State, k: TaskId, status: Status): State
    requires k in s.tasks
  {
    s.(tasks := s.tasks[k := s.tasks[k].(status := status)], active := s.active - {s.tasks[k].server},
       runs := s.runs[k := FreeingInstances])
  }

  function RunApply(s: State, k: TaskId, a: RunAction): State
    requires RunEnabled(s, k, a)
  {
    var task := s.tasks[k];
    match a
    case Begin => s.(tasks := s.tasks[k := task.(status := Running)], runs := s.runs[k := AtSlot(0)])
    case NextSlot =>
      if s.runs[k].n == |task.targets| then Finish(s, k, if task.failed > 0 then CompletedWithErrors else Completed)
      else if task.cancelled then s.(runs := s.runs[k := Stopping])
      else s.(runs := s.runs[k := InSlot(s.runs[k].n)])
    case EndSlot(ok) =>
      if !ok && task.cancelled then s.(runs := s.runs[k := Stopping])
      else s.(tasks := s.tasks[k := task.(completed := task.completed + 1, failed := task.failed + if ok then 0 else 1)],
              runs := s.runs[k := AtSlot(s.runs[k].n + 1)])
    case FinishCancelled => Finish(s, k, if task.force then ForceStopped else Cancelled)
    case FreeInstances => s.(reserved := s.reserved - Instances(task.server, task.targets), runs := s.runs[k := FreeingImage])
    case FreeImage =>
      SetLock(s, task.server, Unlocked(Lock(s, task.server), task.kind, ByTask(k))).(runs := s.runs[k := Done])
  }

  // ----- the invariant

  /** The image lock a request holds where it stands. */
  predicate PCHolds(pc: PC, server: Server, kind: Kind) {
    match pc
    case Idle => false
    case Mutating(sv) => sv == server && kind == ImageSyncBack
    case HasImage(sv, kd) => sv == server && kd == kind
    case Checked(sv, kd, _) => sv == server && kd == kind
    case Reserved(sv, kd, _) => sv == server && kd == kind
    case BackingOut(sv, kd, _) => sv == server && kd == kind
    case Refusing(sv, kd) => sv == server && kd == kind
  }

  predicate HolderHas(s: State, h: Holder, server: Server, kind: Kind) {
    match h
    case ByThread(t) => PCHolds(At(s, t), server, kind)
    case ByTask(k) => k in s.tasks && k in s.runs && s.runs[k] != Done && s.tasks[k].server == server && s.tasks[k].kind == kind
  }

  /** Exclusive or shared, and held by those who stand where it is held. */
  ghost predicate LockOk(s: State, server: Server) {
    var lock := Lock(s, server);
    && (lock.writer.Some? ==> lock.readers == {} && HolderHas(s, lock.writer.value, server, ImageSyncBack))
    && forall h :: h in lock.readers ==> HolderHas(s, h, server, MirrorDeploy)
  }

  predicate HasInstances(s: State, server: Server, targets: seq<int>, h: Holder) {
    forall i :: i in Instances(server, targets) ==> i in s.reserved && s.reserved[i] == h
  }

  ghost predicate ThreadOk(s: State, t: Thread) {
    var pc := At(s, t);
    && (forall server, kind :: PCHolds(pc, server, kind) ==> HasLock(Lock(s, server), kind, ByThread(t)))
    && (pc.Reserved? || pc.BackingOut? ==> HasInstances(s, pc.server, pc.targets, ByThread(t)))
  }

  predicate IsOver(run: Run) {
    run == FreeingInstances || run == FreeingImage || run == Done
  }

  /** What the goroutine and the record of a task agree on. */
  predicate RecordOk(task: Task, run: Run) {
    && (IsFinished(task.status) <==> IsOver(run))
    && task.failed <= task.completed <= |task.targets|
    && (run == Launched ==> task.completed == 0)
    && (run.AtSlot? ==> run.n == task.completed)
    && (run.InSlot? ==> run.n == task.completed < |task.targets|)
    && (run == Stopping ==> task.cancelled)
    && (task.status == Completed ==> task.failed == 0 && task.completed == |task.targets|)
    && (task.status == CompletedWithErrors ==> task.failed > 0 && task.completed == |task.targets|)
    && (task.status == Cancelled || task.status == ForceStopped ==> task.cancelled)
    && (task.status == ForceStopped ==> task.force)
    && (task.status == Cancelled ==> !task.force)
    && task.status != Failed
  }

  ghost predicate TaskOk(s: State, k: TaskId)
    requires k in s.tasks
  {
    && k in s.runs && RecordOk(s.tasks[k], s.runs[k])
    && (s.runs[k] != Done ==> HasLock(Lock(s, s.tasks[k].server), s.tasks[k].kind, ByTask(k)))
    && (s.runs[k] != Done && s.runs[k] != FreeingImage ==> HasInstances(s, s.tasks[k].server, s.tasks[k].targets, ByTask(k)))
    && (!IsFinished(s.tasks[k].status) ==> s.tasks[k].server in s.active && s.active[s.tasks[k].server] == k)
  }

  predicate ActiveOk(s: State, server: Server)
    requires server in s.active
  {
    var k := s.active[server];
    k in s.tasks && s.tasks[k].server == server && !IsFinished(s.tasks[k].status)
  }

  predicate ReservedOk(s: State, i: Instance)
    requires i in s.reserved
  {
    match s.reserved[i]
    case ByThread(t) => (At(s, t).Reserved? || At(s, t).BackingOut?) && i in Instances(At(s, t).server, At(s, t).targets)
    case ByTask(k) =>
      && k in s.tasks && k in s.runs && s.runs[k] != Done && s.runs[k] != FreeingImage
      && i in Instances(s.tasks[k].server, s.tasks[k].targets)
  }

  ghost predicate Invariant(s: State) {
    && (forall t :: ThreadOk(s, t))
    && (forall k :: k in s.tasks ==> TaskOk(s, k))
    && (forall server :: LockOk(s, server))
    && (forall server :: server in s.active ==> ActiveOk(s, server))
    && (forall i :: i in s.reserved ==> ReservedOk(s, i))
    && (forall k :: k in s.runs ==> k in s.tasks)
  }

  function Initial(): State {
    State(map[], map[], map[], map[], map[], map[])
  }

  lemma InitialIsFine()
    ensures Invariant(Initial())
  {
  }

  // ----- what a step leaves alone

  /** A step of some holders: the others stand where they stood and keep what they hold. */
  ghost predicate Frame(s: State, u: State, own: set<Holder>) {
    && (forall t :: ByThread(t) !in own ==> At(u, t) == At(s, t))
    && (forall k :: k in s.tasks && ByTask(k) !in own ==>
         k in u.tasks && u.tasks[k] == s.tasks[k] && (k in s.runs ==> k in u.runs && u.runs[k] == s.runs[k]))
    && (forall server, kind, h :: h !in own && HasLock(Lock(s, server), kind, h) ==> HasLock(Lock(u, server), kind, h))
    && (forall i :: i in s.reserved && s.reserved[i] !in own ==> i in u.reserved && u.reserved[i] == s.reserved[i])
    && (forall server :: server in s.active && ByTask(s.active[server]) !in own ==>
         server in u.active && u.active[server] == s.active[server])
  }

  lemma InstancesKept(s: State, u: State, own: set<Holder>, server: Server, targets: seq<int>, h: Holder)
    requires Frame(s, u, own) && h !in own && HasInstances(s, server, targets, h)
    ensures HasInstances(u, server, targets, h)
  {
  }

  lemma OtherThread(s: State, u: State, own: set<Holder>, t: Thread)
    requires Frame(s, u, own) && ByThread(t) !in own && ThreadOk(s, t)
    ensures ThreadOk(u, t)
  {
    hide HasInstances, PCHolds, HasLock;
    var pc := At(s, t);
    if pc.Reserved? || pc.BackingOut? { InstancesKept(s, u, own, pc.server, pc.targets, ByThread(t)); }
  }

  lemma OtherTask(s: State, u: State, own: set<Holder>, k: TaskId)
    requires Frame(s, u, own) && k in s.tasks && ByTask(k) !in own && TaskOk(s, k)
    ensures k in u.tasks && TaskOk(u, k)
  {
    hide HasInstances, HasLock, RecordOk;
    if s.runs[k] != Done && s.runs[k] != FreeingImage {
      InstancesKept(s, u, own, s.tasks[k].server, s.tasks[k].targets, ByTask(k));
    }
  }

  lemma OthersKeep(s: State, u: State, own: set<Holder>)
    requires Invariant(s) && Frame(s, u, own)
    ensures forall t :: ByThread(t) !in own ==> ThreadOk(u, t)
    ensures forall k :: k in s.tasks && ByTask(k) !in own ==> k in u.tasks && TaskOk(u, k)
  {
    hide Frame, ThreadOk, TaskOk;
    forall t | ByThread(t) !in own ensures ThreadOk(u, t) {
      OtherThread(s, u, own, t);
    }
    forall k | k in s.tasks && ByTask(k) !in own ensures k in u.tasks && TaskOk(u, k) {
      OtherTask(s, u, own, k);
    }
  }

  lemma Assemble(u: State)
    requires forall t :: ThreadOk(u, t)
    requires forall k :: k in u.tasks ==> TaskOk(u, k)
    requires forall server :: LockOk(u, server)
    requires forall server :: server in u.active ==> ActiveOk(u, server)
    requires forall i :: i in u.reserved ==> ReservedOk(u, i)
    requires forall k :: k in u.runs ==> k in u.tasks
    ensures Invariant(u)
  {
  }

  /** The locks after a step under which every holder of a lock still stands where it is held. */
  lemma LocksSame(s: State, u: State)
    requires u.image == s.image && forall server :: LockOk(s, server)
    requires forall h, server, kind :: HolderHas(s, h, server, kind) ==> HolderHas(u, h, server, kind)
    ensures forall server :: LockOk(u, server)
  {
    hide HolderHas;
    forall server ensures LockOk(u, server) {
      assert LockOk(s, server);
    }
  }

  lemma FlagsOfOthers(s: State, u: State, own: set<Holder>, i: Instance)
    requires Invariant(s) && Frame(s, u, own) && i in s.reserved && s.reserved[i] !in own
    requires i in u.reserved && u.reserved[i] == s.reserved[i]
    ensures ReservedOk(u, i)
  {
    assert ReservedOk(s, i);
  }

  lemma ActiveOfOthers(s: State, u: State, own: set<Holder>, server: Server)
    requires Invariant(s) && Frame(s, u, own) && server in s.active && ByTask(s.active[server]) !in own
    requires server in u.active && u.active[server] == s.active[server]
    ensures ActiveOk(u, server)
  {
    assert ActiveOk(s, server);
  }

  /** A step of a request that changes no task. */
  lemma ThreadStep(s: State, u: State, t: Thread)
    requires Invariant(s) && Frame(s, u, {ByThread(t)}) && ThreadOk(u, t)
    requires u.tasks == s.tasks && u.runs == s.runs && u.active == s.active
    requires forall server :: LockOk(u, server)
    requires forall i :: i in u.reserved && u.reserved[i] != ByThread(t) ==> i in s.reserved && s.reserved[i] == u.reserved[i]
    requires forall i :: i in u.reserved && u.reserved[i] == ByThread(t) ==> ReservedOk(u, i)
    ensures Invariant(u)
  {
    hide Invariant, Frame, ThreadOk, TaskOk, LockOk, ReservedOk, ActiveOk;
    RunsHaveTasks(s);
    OthersKeep(s, u, {ByThread(t)});
    forall i | i in u.reserved ensures ReservedOk(u, i) {
      if u.reserved[i] != ByThread(t) { FlagsOfOthers(s, u, {ByThread(t)}, i); }
    }
    forall server | server in u.active ensures ActiveOk(u, server) {
      ActiveOfOthers(s, u, {ByThread(t)}, server);
    }
    Assemble(u);
  }

  /** A step of a task. */
  lemma TaskStep(s: State, u: State, k: TaskId)
    requires Invariant(s) && Frame(s, u, {ByTask(k)}) && k in s.tasks && k in u.tasks && TaskOk(u, k)
    requires u.tasks.Keys == s.tasks.Keys && u.runs.Keys == s.runs.Keys
    requires forall server :: LockOk(u, server)
    requires forall server :: server in u.active ==> server in s.active && u.active[server] == s.active[server]
    requires forall server :: server in u.active && u.active[server] == k ==> ActiveOk(u, server)
    requires forall i :: i in u.reserved ==> i in s.reserved && s.reserved[i] == u.reserved[i]
    requires forall i :: i in u.reserved && u.reserved[i] == ByTask(k) ==> ReservedOk(u, i)
    ensures Invariant(u)
  {
    hide Invariant, Frame, ThreadOk, TaskOk, LockOk, ReservedOk, ActiveOk;
    RunsHaveTasks(s);
    OthersKeep(s, u, {ByTask(k)});
    forall i | i in u.reserved ensures ReservedOk(u, i) {
      if u.reserved[i] != ByTask(k) { FlagsOfOthers(s, u, {ByTask(k)}, i); }
    }
    forall server | server in u.active ensures ActiveOk(u, server) {
      if u.active[server] != k { ActiveOfOthers(s, u, {ByTask(k)}, server); }
    }
    Assemble(u);
  }

  lemma RunsHaveTasks(s: State)
    requires Invariant(s)
    ensures forall k :: k in s.runs ==> k in s.tasks
  {
  }

  lemma Facts(s: State, t: Thread, server: Server)
    requires Invariant(s)
    ensures ThreadOk(s, t) && LockOk(s, server)
  {
  }

  /** A request that stands where it holds no reservation has none. */
  lemma NothingReserved(s: State, t: Thread)
    requires Invariant(s) && !At(s, t).Reserved? && !At(s, t).BackingOut?
    ensures forall i :: i in s.reserved ==> s.reserved[i] != ByThread(t)
  {
    forall i | i in s.reserved ensures s.reserved[i] != ByThread(t) {
      assert ReservedOk(s, i);
    }
  }

  // ----- taking and giving up a lock

  lemma TakeLock(s: State, t: Thread, server: Server, kind: Kind, pc: PC)
    requires Invariant(s) && At(s, t) == Idle && CanLock(Lock(s, server), kind)
    requires forall sv, kd :: PCHolds(pc, sv, kd) <==> sv == server && kd == kind
    requires !pc.Reserved? && !pc.BackingOut?
    ensures Invariant(Go(SetLock(s, server, Locked(Lock(s, server), kind, ByThread(t))), t, pc))
  {
    var u := Go(SetLock(s, server, Locked(Lock(s, server), kind, ByThread(t))), t, pc);
    NothingReserved(s, t);
    TakeLockFrame(s, u, t, server, kind, pc);
    forall sv ensures LockOk(u, sv) {
      Facts(s, t, sv);
      TakeLockOk(s, u, t, server, kind, pc, sv);
    }
    ThreadStep(s, u, t);
  }

  lemma TakeLockFrame(s: State, u: State, t: Thread, server: Server, kind: Kind, pc: PC)
    requires CanLock(Lock(s, server), kind) && !pc.Reserved? && !pc.BackingOut?
    requires u == Go(SetLock(s, server, Locked(Lock(s, server), kind, ByThread(t))), t, pc)
    requires forall sv, kd :: PCHolds(pc, sv, kd) <==> sv == server && kd == kind
    ensures Frame(s, u, {ByThread(t)}) && ThreadOk(u, t)
  {
  }

  lemma TakeLockOk(s: State, u: State, t: Thread, server: Server, kind: Kind, pc: PC, sv: Server)
    requires CanLock(Lock(s, server), kind) && At(s, t) == Idle && LockOk(s, sv)
    requires u == Go(SetLock(s, server, Locked(Lock(s, server), kind, ByThread(t))), t, pc)
    requires PCHolds(pc, server, kind)
    ensures LockOk(u, sv)
  {
    forall h, kd | HolderHas(s, h, sv, kd) ensures HolderHas(u, h, sv, kd) {
    }
  }

  lemma DropLock(s: State, t: Thread, server: Server, kind: Kind)
    requires Invariant(s) && (forall sv, kd :: PCHolds(At(s, t), sv, kd) <==> sv == server && kd == kind)
    requires !At(s, t).Reserved? && !At(s, t).BackingOut?
    ensures Invariant(Go(SetLock(s, server, Unlocked(Lock(s, server), kind, ByThread(t))), t, Idle))
  {
    var u := Go(SetLock(s, server, Unlocked(Lock(s, server), kind, ByThread(t))), t, Idle);
    NothingReserved(s, t);
    Facts(s, t, server);
    DropLockFrame(s, u, t, server, kind);
    forall sv ensures LockOk(u, sv) {
      Facts(s, t, sv);
      DropLockOk(s, u, t, server, kind, sv);
    }
    ThreadStep(s, u, t);
  }

  lemma DropLockFrame(s: State, u: State, t: Thread, server: Server, kind: Kind)
    requires ThreadOk(s, t) && LockOk(s, server) && PCHolds(At(s, t), server, kind)
    requires u == Go(SetLock(s, server, Unlocked(Lock(s, server), kind, ByThread(t))), t, Idle)
    ensures Frame(s, u, {ByThread(t)}) && ThreadOk(u, t)
  {
  }

  lemma DropLockOk(s: State, u: State, t: Thread, server: Server, kind: Kind, sv: Server)
    requires LockOk(s, sv) && ThreadOk(s, t) && (forall v, kd :: PCHolds(At(s, t), v, kd) <==> v == server && kd == kind)
    requires LockOk(s, server)
    requires u == Go(SetLock(s, server, Unlocked(Lock(s, server), kind, ByThread(t))), t, Idle)
    ensures LockOk(u, sv)
  {
    assert HasLock(Lock(s, server), kind, ByThread(t));
    forall h, kd | HolderHas(s, h, sv, kd) && h != ByThread(t) ensures HolderHas(u, h, sv, kd) {
    }
    if sv != server {
      assert Lock(u, sv) == Lock(s, sv);
      assert forall kd :: !HolderHas(s, ByThread(t), sv, kd);
    }
  }

  // ----- starting a task

  /** A request moves on without touching locks; its lock stays its own. */
  lemma MoveOn(s: State, t: Thread, pc: PC, reserved: map<Instance, Holder>)
    requires Invariant(s)
    requires forall sv, kd :: PCHolds(At(s, t), sv, kd) <==> PCHolds(pc, sv, kd)
    requires pc.Reserved? || pc.BackingOut? ==>
      forall i :: i in Instances(pc.server, pc.targets) ==> i in reserved && reserved[i] == ByThread(t)
    requires forall i :: i in s.reserved && s.reserved[i] != ByThread(t) ==> i in reserved && reserved[i] == s.reserved[i]
    requires forall i :: i in reserved && reserved[i] != ByThread(t) ==> i in s.reserved && s.reserved[i] == reserved[i]
    requires forall i :: i in reserved && reserved[i] == ByThread(t) ==>
      (pc.Reserved? || pc.BackingOut?) && i in Instances(pc.server, pc.targets)
    ensures Invariant(Go(s.(reserved := reserved), t, pc))
  {
    var u := Go(s.(reserved := reserved), t, pc);
    Facts(s, t, "");
    MoveOnEffect(s, u, t, pc, reserved);
    AllLocks(s);
    LocksSame(s, u);
    ThreadStep(s, u, t);
  }

  lemma AllLocks(s: State)
    requires Invariant(s)
    ensures forall server :: LockOk(s, server)
  {
  }

  lemma MoveOnEffect(s: State, u: State, t: Thread, pc: PC, reserved: map<Instance, Holder>)
    requires ThreadOk(s, t) && u == Go(s.(reserved := reserved), t, pc)
    requires forall sv, kd :: PCHolds(At(s, t), sv, kd) <==> PCHolds(pc, sv, kd)
    requires pc.Reserved? || pc.BackingOut? ==>
      forall i :: i in Instances(pc.server, pc.targets) ==> i in reserved && reserved[i] == ByThread(t)
    requires forall i :: i in s.reserved && s.reserved[i] != ByThread(t) ==> i in reserved && reserved[i] == s.reserved[i]
    ensures Frame(s, u, {ByThread(t)}) && ThreadOk(u, t)
    ensures forall h, sv, kd :: HolderHas(s, h, sv, kd) ==> HolderHas(u, h, sv, kd)
  {
    hide PCHolds;
  }

  lemma CheckStep(s: State, t: Thread, targets: Option<seq<int>>)
    requires Invariant(s) && Enabled(s, t, Check(targets))
    ensures Invariant(Apply(s, t, Check(targets)))
  {
    hide Invariant, Frame, LockOk, ThreadOk, HolderHas, HasInstances, Instances;
    var pc := At(s, t);
    NothingReserved(s, t);
    MoveOn(s, t, if targets.None? || pc.server in s.active then Refusing(pc.server, pc.kind)
                 else Checked(pc.server, pc.kind, targets.value), s.reserved);
  }

  lemma ReserveStep(s: State, t: Thread, settled: bool)
    requires Invariant(s) && Enabled(s, t, Reserve(settled))
    ensures Invariant(Apply(s, t, Reserve(settled)))
  {
    var pc := At(s, t);
    NothingReserved(s, t);
    var instances := Instances(pc.server, pc.targets);
    if settled && instances !! s.reserved.Keys {
      MoveOn(s, t, Reserved(pc.server, pc.kind, pc.targets), GiveAll(s.reserved, instances, ByThread(t)));
    } else {
      MoveOn(s, t, Refusing(pc.server, pc.kind), s.reserved);
    }
  }

  lemma OwnReservation(s: State, t: Thread)
    requires Invariant(s) && (At(s, t).Reserved? || At(s, t).BackingOut?)
    ensures forall i :: i in s.reserved && s.reserved[i] == ByThread(t) <==> i in Instances(At(s, t).server, At(s, t).targets)
  {
    Facts(s, t, "");
    forall i | i in s.reserved && s.reserved[i] == ByThread(t) ensures i in Instances(At(s, t).server, At(s, t).targets) {
      assert ReservedOk(s, i);
    }
  }

  lemma BackOutStep(s: State, t: Thread)
    requires Invariant(s) && Enabled(s, t, BackOut)
    ensures Invariant(Apply(s, t, BackOut))
  {
    var pc := At(s, t);
    OwnReservation(s, t);
    MoveOn(s, t, Refusing(pc.server, pc.kind), s.reserved - Instances(pc.server, pc.targets));
  }

  lemma CommitStep(s: State, t: Thread, k: TaskId)
    requires Invariant(s) && Enabled(s, t, Commit(k))
    ensures Invariant(Apply(s, t, Commit(k)))
  {
    var pc := At(s, t);
    OwnReservation(s, t);
    if pc.server in s.active {
      MoveOn(s, t, BackingOut(pc.server, pc.kind, pc.targets), s.reserved);
      assert s.(reserved := s.reserved) == s;
    } else {
      NewTask(s, Apply(s, t, Commit(k)), t, k);
    }
  }

  /** The task takes over the image lock and the reservation of the request. */
  lemma NewTask(s: State, u: State, t: Thread, k: TaskId)
    requires Invariant(s) && Enabled(s, t, Commit(k)) && At(s, t).server !in s.active && u == Apply(s, t, Commit(k))
    ensures Invariant(u)
  {
    Facts(s, t, At(s, t).server);
    OwnReservation(s, t);
    RunsHaveTasks(s);
    NewTaskFrame(s, u, t, k);
    NewTaskOwn(s, u, t, k);
    NobodyIs(s, k);
    forall sv ensures LockOk(u, sv) {
      Facts(s, t, sv);
      NewTaskLock(s, u, t, k, sv);
    }
    NewTaskKeys(s, u, t, k);
    NewTaskRest(s, u, t, k, At(s, t).server, Instances(At(s, t).server, At(s, t).targets));
  }

  /** A task that does not exist yet holds nothing. */
  lemma NobodyIs(s: State, k: TaskId)
    requires Invariant(s) && k !in s.tasks
    ensures forall server :: server in s.active ==> s.active[server] != k
    ensures forall i :: i in s.reserved ==> s.reserved[i] != ByTask(k)
    ensures forall server, kind :: !HasLock(Lock(s, server), kind, ByTask(k))
  {
    forall server | server in s.active ensures s.active[server] != k {
      assert ActiveOk(s, server);
    }
    forall i | i in s.reserved ensures s.reserved[i] != ByTask(k) {
      assert ReservedOk(s, i);
    }
    forall server, kind ensures !HasLock(Lock(s, server), kind, ByTask(k)) {
      assert LockOk(s, server);
      assert !HolderHas(s, ByTask(k), server, kind);
    }
  }

  /** Nobody but the request gives up an image lock. */
  lemma TaskKeepsLocks(s: State, u: State, t: Thread, k: TaskId)
    requires At(s, t).Reserved? && u == TaskMade(s, t, k) && ThreadOk(s, t) && LockOk(s, At(s, t).server)
    ensures forall server, kind, h :: h != ByThread(t) && HasLock(Lock(s, server), kind, h) ==> HasLock(Lock(u, server), kind, h)
  {
    hide Instances, HolderHas, HasInstances;
    var pc := At(s, t);
    assert PCHolds(pc, pc.server, pc.kind);
    assert HasLock(Lock(s, pc.server), pc.kind, ByThread(t));
    assert Lock(u, pc.server) == Locked(Unlocked(Lock(s, pc.server), pc.kind, ByThread(t)), pc.kind, ByTask(k));
    forall server | server != pc.server ensures Lock(u, server) == Lock(s, server) {
    }
  }

  lemma TaskKeepsOthers(s: State, u: State, t: Thread, k: TaskId)
    requires At(s, t).Reserved? && k !in s.tasks && At(s, t).server !in s.active && u == TaskMade(s, t, k)
    requires forall i :: i in s.reserved && s.reserved[i] == ByThread(t) <==> i in Instances(At(s, t).server, At(s, t).targets)
    requires forall j :: j in s.runs ==> j in s.tasks
    ensures forall o :: o != t ==> At(u, o) == At(s, o)
    ensures forall j :: j in s.tasks && j != k ==>
      j in u.tasks && u.tasks[j] == s.tasks[j] && (j in s.runs ==> j in u.runs && u.runs[j] == s.runs[j])
    ensures forall i :: i in s.reserved && s.reserved[i] != ByThread(t) ==> i in u.reserved && u.reserved[i] == s.reserved[i]
    ensures forall server :: server in s.active ==> server in u.active && u.active[server] == s.active[server]
  {
    hide Lock, Locked, Unlocked, Instances;
  }

  lemma NewTaskFrame(s: State, u: State, t: Thread, k: TaskId)
    requires At(s, t).Reserved? && k !in s.tasks && At(s, t).server !in s.active && u == TaskMade(s, t, k)
    requires ThreadOk(s, t) && LockOk(s, At(s, t).server)
    requires forall i :: i in s.reserved && s.reserved[i] == ByThread(t) <==> i in Instances(At(s, t).server, At(s, t).targets)
    requires forall j :: j in s.runs ==> j in s.tasks
    ensures Frame(s, u, {ByThread(t), ByTask(k)})
  {
    hide TaskMade, HasLock, Lock, Instances, ThreadOk, LockOk;
    TaskKeepsLocks(s, u, t, k);
    TaskKeepsOthers(s, u, t, k);
  }

  lemma NewTaskOwn(s: State, u: State, t: Thread, k: TaskId)
    requires At(s, t).Reserved? && k !in s.tasks && At(s, t).server !in s.active && u == TaskMade(s, t, k)
    requires forall i :: i in s.reserved && s.reserved[i] == ByThread(t) <==> i in Instances(At(s, t).server, At(s, t).targets)
    ensures ThreadOk(u, t) && TaskOk(u, k) && ActiveOk(u, At(s, t).server)
    ensures forall i :: i in Instances(At(s, t).server, At(s, t).targets) ==> i in u.reserved && u.reserved[i] == ByTask(k) && ReservedOk(u, i)
    ensures forall i :: i !in Instances(At(s, t).server, At(s, t).targets) ==> (i in u.reserved <==> i in s.reserved)
    ensures forall i :: i in u.reserved && i !in Instances(At(s, t).server, At(s, t).targets) ==> u.reserved[i] == s.reserved[i]
  {
  }

  lemma TaskHolders(s: State, u: State, t: Thread, k: TaskId)
    requires At(s, t).Reserved? && k !in s.tasks && u == TaskMade(s, t, k)
    ensures forall h, sv, kd :: HolderHas(s, h, sv, kd) && h != ByThread(t) ==> HolderHas(u, h, sv, kd)
    ensures HolderHas(u, ByTask(k), At(s, t).server, At(s, t).kind)
    ensures Lock(u, At(s, t).server) ==
      Locked(Unlocked(Lock(s, At(s, t).server), At(s, t).kind, ByThread(t)), At(s, t).kind, ByTask(k))
    ensures forall sv :: sv != At(s, t).server ==> Lock(u, sv) == Lock(s, sv)
  {
    hide Instances, Locked, Unlocked, GiveAll;
  }

  lemma NewTaskLock(s: State, u: State, t: Thread, k: TaskId, sv: Server)
    requires At(s, t).Reserved? && k !in s.tasks && At(s, t).server !in s.active && u == TaskMade(s, t, k)
    requires ThreadOk(s, t) && LockOk(s, sv) && LockOk(s, At(s, t).server)
    requires forall server, kind :: !HasLock(Lock(s, server), kind, ByTask(k))
    ensures LockOk(u, sv)
  {
    TaskHolders(s, u, t, k);
    hide TaskMade, HasInstances, Lock;
    var pc := At(s, t);
    assert PCHolds(pc, pc.server, pc.kind);
    assert HasLock(Lock(s, pc.server), pc.kind, ByThread(t));
    if sv != pc.server {
      assert Lock(u, sv) == Lock(s, sv);
      assert forall kd :: !HolderHas(s, ByThread(t), sv, kd);
    }
  }

  lemma NewTaskKeys(s: State, u: State, t: Thread, k: TaskId)
    requires At(s, t).Reserved? && k !in s.tasks && At(s, t).server !in s.active && u == TaskMade(s, t, k)
    ensures u.tasks.Keys == s.tasks.Keys + {k} && u.runs.Keys == s.runs.Keys + {k}
    ensures forall server :: server in u.active && server != At(s, t).server ==> server in s.active && u.active[server] == s.active[server]
  {
  }

  lemma NewTaskHolders(s: State, u: State, t: Thread, k: TaskId)
    requires Invariant(s) && Frame(s, u, {ByThread(t), ByTask(k)}) && ThreadOk(u, t)
    requires k in u.tasks && TaskOk(u, k) && u.tasks.Keys == s.tasks.Keys + {k}
    ensures forall o :: ThreadOk(u, o)
    ensures forall j :: j in u.tasks ==> TaskOk(u, j)
  {
    hide Invariant, Frame, ThreadOk, TaskOk;
    OthersKeep(s, u, {ByThread(t), ByTask(k)});
    forall o ensures ThreadOk(u, o) {
      if o != t { assert ByThread(o) !in {ByThread(t), ByTask(k)}; }
    }
    forall j | j in u.tasks ensures TaskOk(u, j) {
      if j != k { assert ByTask(j) !in {ByThread(t), ByTask(k)}; }
    }
  }

  lemma NewTaskRest(s: State, u: State, t: Thread, k: TaskId, sv: Server, instances: set<Instance>)
    requires Invariant(s) && Frame(s, u, {ByThread(t), ByTask(k)}) && ThreadOk(u, t)
    requires k in u.tasks && TaskOk(u, k) && (sv in u.active ==> ActiveOk(u, sv))
    requires u.tasks.Keys == s.tasks.Keys + {k} && u.runs.Keys == s.runs.Keys + {k}
    requires forall server :: LockOk(u, server)
    requires forall server :: server in u.active && server != sv ==> server in s.active && u.active[server] == s.active[server]
    requires forall server :: server in s.active ==> s.active[server] != k
    requires forall i :: i in s.reserved ==> s.reserved[i] != ByTask(k)
    requires forall i :: i in s.reserved && s.reserved[i] == ByThread(t) ==> i in instances
    requires forall i :: i in instances && i in u.reserved ==> ReservedOk(u, i)
    requires forall i :: i in u.reserved && i !in instances ==> i in s.reserved && u.reserved[i] == s.reserved[i]
    ensures Invariant(u)
  {
    hide Invariant, Frame, ThreadOk, TaskOk, LockOk, ReservedOk, ActiveOk;
    RunsHaveTasks(s);
    NewTaskHolders(s, u, t, k);
    forall i | i in u.reserved ensures ReservedOk(u, i) {
      if i !in instances { FlagsOfOthers(s, u, {ByThread(t), ByTask(k)}, i); }
    }
    forall server | server in u.active ensures ActiveOk(u, server) {
      if server != sv { ActiveOfOthers(s, u, {ByThread(t), ByTask(k)}, server); }
    }
    forall j | j in u.runs ensures j in u.tasks {
      assert j in u.runs.Keys;
    }
    Assemble(u);
  }

  // ----- running and cancelling a task

  /** A step that changes the record of a task and where it stands, but no lock. */
  lemma RecordStep(s: State, k: TaskId, task: Task, run: Run)
    requires Invariant(s) && k in s.tasks && run != Done && !IsFinished(task.status)
    requires task.server == s.tasks[k].server && task.kind == s.tasks[k].kind && task.targets == s.tasks[k].targets
    requires s.runs[k] != Done && !IsOver(s.runs[k]) && RecordOk(task, run)
    ensures Invariant(s.(tasks := s.tasks[k := task], runs := s.runs[k := run]))
  {
    hide Invariant, Frame, LockOk, ThreadOk, HolderHas, HasInstances;
    var u := s.(tasks := s.tasks[k := task], runs := s.runs[k := run]);
    TaskFacts(s, k);
    AllLocks(s);
    RecordEffect(s, u, k, task, run);
    LocksSame(s, u);
    forall i | i in u.reserved && u.reserved[i] == ByTask(k) ensures ReservedOk(u, i) {
      ReservationFacts(s, i);
    }
    forall server | server in u.active && u.active[server] == k ensures ActiveOk(u, server) {
      ActiveFacts(s, server);
    }
    TaskStep(s, u, k);
  }

  lemma TaskFacts(s: State, k: TaskId)
    requires Invariant(s) && k in s.tasks
    ensures TaskOk(s, k)
  {
  }

  lemma ReservationFacts(s: State, i: Instance)
    requires Invariant(s) && i in s.reserved
    ensures ReservedOk(s, i)
  {
  }

  lemma ActiveFacts(s: State, server: Server)
    requires Invariant(s) && server in s.active
    ensures ActiveOk(s, server)
  {
  }

  lemma RecordEffect(s: State, u: State, k: TaskId, task: Task, run: Run)
    requires k in s.tasks && TaskOk(s, k) && u == s.(tasks := s.tasks[k := task], runs := s.runs[k := run])
    requires task.server == s.tasks[k].server && task.kind == s.tasks[k].kind && task.targets == s.tasks[k].targets
    requires !IsOver(s.runs[k]) && RecordOk(task, run) && run != Done && !IsFinished(task.status)
    ensures Frame(s, u, {ByTask(k)}) && TaskOk(u, k)
    ensures forall h, sv, kd :: HolderHas(s, h, sv, kd) ==> HolderHas(u, h, sv, kd)
  {
  }

  lemma RecordFacts(s: State, k: TaskId)
    requires Invariant(s) && k in s.tasks
    ensures k in s.runs && RecordOk(s.tasks[k], s.runs[k])
  {
    TaskFacts(s, k);
  }

  lemma CancelStep(s: State, t: Thread, k: TaskId, force: bool)
    requires Invariant(s) && Enabled(s, t, Cancel(k, force))
    ensures Invariant(Apply(s, t, Cancel(k, force)))
  {
    hide Invariant;
    if k in s.tasks && !IsFinished(s.tasks[k].status) {
      RecordFacts(s, k);
      var task := s.tasks[k].(force := force, cancelled := true, status := if force then ForceStopRequested else CancelRequested);
      RecordStep(s, k, task, s.runs[k]);
      assert s.(tasks := s.tasks[k := task], runs := s.runs[k := s.runs[k]]) == Apply(s, t, Cancel(k, force));
    }
  }

  lemma BeginStep(s: State, k: TaskId)
    requires Invariant(s) && RunEnabled(s, k, Begin)
    ensures Invariant(RunApply(s, k, Begin))
  {
    hide Invariant;
    RecordFacts(s, k);
    RecordStep(s, k, s.tasks[k].(status := Running), AtSlot(0));
  }

  lemma EndSlotStep(s: State, k: TaskId, ok: bool)
    requires Invariant(s) && RunEnabled(s, k, EndSlot(ok))
    ensures Invariant(RunApply(s, k, EndSlot(ok)))
  {
    hide Invariant;
    RecordFacts(s, k);
    var task := s.tasks[k];
    if !ok && task.cancelled {
      RecordStep(s, k, task, Stopping);
      assert s.tasks[k := task] == s.tasks;
    } else {
      RecordStep(s, k, task.(completed := task.completed + 1, failed := task.failed + if ok then 0 else 1), AtSlot(s.runs[k].n + 1));
    }
  }

  lemma NextSlotStep(s: State, k: TaskId)
    requires Invariant(s) && RunEnabled(s, k, NextSlot)
    ensures Invariant(RunApply(s, k, NextSlot))
  {
    hide Invariant, Frame, LockOk, ThreadOk, HolderHas, HasInstances;
    TaskFacts(s, k);
    var task := s.tasks[k];
    assert s.tasks[k := task] == s.tasks;
    if s.runs[k].n == |task.targets| {
      FinishStep(s, k, if task.failed > 0 then CompletedWithErrors else Completed);
    } else if task.cancelled {
      RecordStep(s, k, task, Stopping);
    } else {
      RecordStep(s, k, task, InSlot(s.runs[k].n));
    }
  }

  lemma FinishCancelledStep(s: State, k: TaskId)
    requires Invariant(s) && RunEnabled(s, k, FinishCancelled)
    ensures Invariant(RunApply(s, k, FinishCancelled))
  {
    hide Invariant, LockOk, ThreadOk, HolderHas, HasInstances;
    TaskFacts(s, k);
    FinishStep(s, k, if s.tasks[k].force then ForceStopped else Cancelled);
  }

  /** The end of a task: its entry in active goes, and it is its own. */
  lemma FinishStep(s: State, k: TaskId, status: Status)
    requires Invariant(s) && k in s.tasks && TaskOk(s, k) && !IsFinished(s.tasks[k].status) && IsFinished(status)
    requires RecordOk(s.tasks[k].(status := status), FreeingInstances)
    ensures Invariant(Finish(s, k, status))
  {
    hide Invariant, Frame, LockOk, ThreadOk, HolderHas, HasInstances;
    var u := Finish(s, k, status);
    AllLocks(s);
    FinishEffect(s, u, k, status);
    LocksSame(s, u);
    forall i | i in u.reserved && u.reserved[i] == ByTask(k) ensures ReservedOk(u, i) {
      ReservationFacts(s, i);
    }
    forall server | server in u.active ensures u.active[server] != k {
      ActiveFacts(s, server);
    }
    TaskStep(s, u, k);
  }

  lemma FinishEffect(s: State, u: State, k: TaskId, status: Status)
    requires k in s.tasks && TaskOk(s, k) && u == Finish(s, k, status) && !IsFinished(s.tasks[k].status) && IsFinished(status)
    requires RecordOk(s.tasks[k].(status := status), FreeingInstances)
    ensures Frame(s, u, {ByTask(k)}) && TaskOk(u, k)
    ensures forall h, sv, kd :: HolderHas(s, h, sv, kd) ==> HolderHas(u, h, sv, kd)
  {
  }

  lemma FreeInstancesStep(s: State, k: TaskId)
    requires Invariant(s) && RunEnabled(s, k, FreeInstances)
    ensures Invariant(RunApply(s, k, FreeInstances))
  {
    var u := RunApply(s, k, FreeInstances);
    TaskFacts(s, k);
    AllLocks(s);
    FreeInstancesEffect(s, u, k);
    LocksSame(s, u);
    forall i | i in u.reserved ensures u.reserved[i] != ByTask(k) {
      ReservationFacts(s, i);
    }
    forall server | server in u.active && u.active[server] == k ensures ActiveOk(u, server) {
      ActiveFacts(s, server);
    }
    TaskStep(s, u, k);
  }

  lemma FreeInstancesEffect(s: State, u: State, k: TaskId)
    requires RunEnabled(s, k, FreeInstances) && TaskOk(s, k) && u == RunApply(s, k, FreeInstances)
    ensures Frame(s, u, {ByTask(k)}) && TaskOk(u, k)
    ensures forall h, sv, kd :: HolderHas(s, h, sv, kd) ==> HolderHas(u, h, sv, kd)
  {
  }

  lemma FreeImageStep(s: State, k: TaskId)
    requires Invariant(s) && RunEnabled(s, k, FreeImage)
    ensures Invariant(RunApply(s, k, FreeImage))
  {
    var u := RunApply(s, k, FreeImage);
    TaskFacts(s, k);
    AllLocks(s);
    FreeImageEffect(s, u, k);
    forall sv ensures LockOk(u, sv) {
      FreeImageLock(s, u, k, sv);
    }
    forall i | i in u.reserved ensures u.reserved[i] != ByTask(k) {
      ReservationFacts(s, i);
    }
    forall server | server in u.active ensures u.active[server] != k {
      ActiveFacts(s, server);
    }
    TaskStep(s, u, k);
  }

  lemma FreeImageEffect(s: State, u: State, k: TaskId)
    requires RunEnabled(s, k, FreeImage) && TaskOk(s, k) && u == RunApply(s, k, FreeImage)
    requires LockOk(s, s.tasks[k].server)
    ensures Frame(s, u, {ByTask(k)}) && TaskOk(u, k)
  {
  }

  lemma FreeImageLock(s: State, u: State, k: TaskId, sv: Server)
    requires RunEnabled(s, k, FreeImage) && TaskOk(s, k) && u == RunApply(s, k, FreeImage)
    requires LockOk(s, sv) && LockOk(s, s.tasks[k].server)
    ensures LockOk(u, sv)
  {
    forall h, kd | HolderHas(s, h, sv, kd) && h != ByTask(k) ensures HolderHas(u, h, sv, kd) {
    }
    if sv != s.tasks[k].server {
      assert Lock(u, sv) == Lock(s, sv);
      assert forall kd :: !HolderHas(s, ByTask(k), sv, kd);
    }
  }

  // ----- runs

  datatype Move = ByRequest(thread: Thread, action: Action) | ByGoroutine(task: TaskId, runAction: RunAction)

  predicate CanMove(s: State, m: Move) {
    match m
    case ByRequest(t, a) => Enabled(s, t, a)
    case ByGoroutine(k, a) => RunEnabled(s, k, a)
  }

  function Moved(s: State, m: Move): State
    requires CanMove(s, m)
  {
    match m
    case ByRequest(t, a) => Apply(s, t, a)
    case ByGoroutine(k, a) => RunApply(s, k, a)
  }

  lemma CallStartStep(s: State, t: Thread, server: Server, kind: Kind)
    requires Invariant(s) && Enabled(s, t, CallStart(server, kind))
    ensures Invariant(Apply(s, t, CallStart(server, kind)))
  {
    hide Invariant;
    if CanLock(Lock(s, server), kind) { TakeLock(s, t, server, kind, HasImage(server, kind)); }
  }

  lemma MutationSteps(s: State, t: Thread, a: Action)
    requires Invariant(s) && Enabled(s, t, a) && (a.CallMutation? || a.EndMutation? || a.Refuse?)
    ensures Invariant(Apply(s, t, a))
  {
    hide Invariant;
    match a
    case CallMutation(server) =>
      if CanLock(Lock(s, server), ImageSyncBack) { TakeLock(s, t, server, ImageSyncBack, Mutating(server)); }
    case EndMutation => DropLock(s, t, At(s, t).server, ImageSyncBack);
    case Refuse => DropLock(s, t, At(s, t).server, At(s, t).kind);
    case _ =>
  }

  lemma MoveKeeps(s: State, m: Move)
    requires Invariant(s) && CanMove(s, m)
    ensures Invariant(Moved(s, m))
  {
    hide Invariant, Enabled, RunEnabled, Apply, RunApply;
    match m
    case ByRequest(t, a) =>
      match a {
        case CallStart(server, kind) => CallStartStep(s, t, server, kind);
        case Check(targets) => CheckStep(s, t, targets);
        case Reserve(settled) => ReserveStep(s, t, settled);
        case Commit(task) => CommitStep(s, t, task);
        case BackOut => BackOutStep(s, t);
        case Refuse => MutationSteps(s, t, a);
        case Cancel(task, force) => CancelStep(s, t, task, force);
        case CallMutation(_) => MutationSteps(s, t, a);
        case EndMutation => MutationSteps(s, t, a);
      }
    case ByGoroutine(k, a) =>
      match a {
        case Begin => BeginStep(s, k);
        case NextSlot => NextSlotStep(s, k);
        case EndSlot(ok) => EndSlotStep(s, k, ok);
        case FinishCancelled => FinishCancelledStep(s, k);
        case FreeInstances => FreeInstancesStep(s, k);
        case FreeImage => FreeImageStep(s, k);
      }
  }

  predicate IsRun(s: State, moves: seq<Move>)
    decreases |moves|
  {
    moves == [] || (CanMove(s, moves[0]) && IsRun(Moved(s, moves[0]), moves[1..]))
  }

  function After(s: State, moves: seq<Move>): State
    requires IsRun(s, moves)
    decreases |moves|
  {
    if moves == [] then s else After(Moved(s, moves[0]), moves[1..])
  }

  lemma {:induction false} RunKeeps(s: State, moves: seq<Move>)
    requires Invariant(s) && IsRun(s, moves)
    ensures Invariant(After(s, moves))
    decreases |moves|
  {
    hide Invariant, CanMove, Moved;
    if moves != [] {
      MoveKeeps(s, moves[0]);
      RunKeeps(Moved(s, moves[0]), moves[1..]);
    }
  }

  lemma Reachable(moves: seq<Move>)
    requires IsRun(Initial(), moves)
    ensures Invariant(After(Initial(), moves))
  {
    InitialIsFine();
    RunKeeps(Initial(), moves);
  }

  /** In every run the entry of a server in active is its one unfinished task. */
  lemma ActiveIsTheUnfinishedTask(moves: seq<Move>, server: Server, k: TaskId)
    requires IsRun(Initial(), moves)
    ensures var s := After(Initial(), moves);
      server in s.active && s.active[server] == k <==> k in s.tasks && s.tasks[k].server == server && !IsFinished(s.tasks[k].status)
  {
    var s := After(Initial(), moves);
    Reachable(moves);
    if server in s.active { ActiveFacts(s, server); }
    if k in s.tasks { TaskFacts(s, k); }
  }

  /** The steps a goroutine has left at most. */
  function Left(task: Task, run: Run): nat {
    var n := |task.targets|;
    match run
    case Launched => 2 * n + 5
    case AtSlot(i) => if i <= n then 2 * (n - i) + 4 else 0
    case InSlot(i) => if i < n then 2 * (n - i) + 3 else 0
    case Stopping => 3
    case FreeingInstances => 2
    case FreeingImage => 1
    case Done => 0
  }

  /** What a task is for. */
  predicate SameJob(a: Task, b: Task) {
    a.server == b.server && a.kind == b.kind && a.targets == b.targets
  }

  lemma RequestLeavesTask(s: State, t: Thread, a: Action, k: TaskId)
    requires Enabled(s, t, a) && k in s.tasks && k in s.runs
    ensures var u := Apply(s, t, a);
      && k in u.tasks && k in u.runs && u.runs[k] == s.runs[k] && SameJob(u.tasks[k], s.tasks[k])
      && (u.tasks[k] == s.tasks[k] || !IsFinished(s.tasks[k].status))
  {
    hide Enabled, Apply;
    match a
    case Commit(j) => CommitLeavesTask(s, t, j, k);
    case Cancel(j, force) => CancelLeavesTask(s, t, j, force, k);
    case _ => QuietRequest(s, t, a);
  }

  lemma QuietRequest(s: State, t: Thread, a: Action)
    requires Enabled(s, t, a) && !a.Commit? && !a.Cancel?
    ensures Apply(s, t, a).tasks == s.tasks && Apply(s, t, a).runs == s.runs
  {
    hide TaskMade, Instances, Lock, Unlocked, Locked, GiveAll, CanLock;
  }

  lemma CommitLeavesTask(s: State, t: Thread, j: TaskId, k: TaskId)
    requires Enabled(s, t, Commit(j)) && k in s.tasks && k in s.runs
    ensures var u := Apply(s, t, Commit(j)); k in u.tasks && k in u.runs && u.runs[k] == s.runs[k] && u.tasks[k] == s.tasks[k]
  {
    hide Instances, Lock, Unlocked, Locked, GiveAll, CanLock;
  }

  lemma CancelLeavesTask(s: State, t: Thread, j: TaskId, force: bool, k: TaskId)
    requires Enabled(s, t, Cancel(j, force)) && k in s.tasks && k in s.runs
    ensures var u := Apply(s, t, Cancel(j, force));
      && k in u.tasks && u.runs == s.runs && SameJob(u.tasks[k], s.tasks[k])
      && (u.tasks[k] == s.tasks[k] || !IsFinished(s.tasks[k].status))
  {
    hide TaskMade, Instances, Lock, Unlocked, Locked, GiveAll, CanLock;
  }

  lemma OtherGoroutine(s: State, j: TaskId, a: RunAction, k: TaskId)
    requires RunEnabled(s, j, a) && j != k && k in s.tasks && k in s.runs
    ensures var u := RunApply(s, j, a); k in u.tasks && k in u.runs && u.tasks[k] == s.tasks[k] && u.runs[k] == s.runs[k]
  {
    hide RunEnabled, RunApply;
    match a
    case NextSlot => NextSlotLeaves(s, j, k);
    case EndSlot(ok) => EndSlotLeaves(s, j, ok, k);
    case _ => EdgeLeaves(s, j, a, k);
  }

  predicate SameTask(s: State, u: State, k: TaskId) {
    k in s.tasks && k in s.runs ==> k in u.tasks && k in u.runs && u.tasks[k] == s.tasks[k] && u.runs[k] == s.runs[k]
  }

  lemma NextSlotLeaves(s: State, j: TaskId, k: TaskId)
    requires RunEnabled(s, j, NextSlot) && j != k
    ensures SameTask(s, RunApply(s, j, NextSlot), k)
  {
  }

  lemma EndSlotLeaves(s: State, j: TaskId, ok: bool, k: TaskId)
    requires RunEnabled(s, j, EndSlot(ok)) && j != k
    ensures SameTask(s, RunApply(s, j, EndSlot(ok)), k)
  {
  }

  lemma EdgeLeaves(s: State, j: TaskId, a: RunAction, k: TaskId)
    requires RunEnabled(s, j, a) && j != k && !a.NextSlot? && !a.EndSlot?
    ensures SameTask(s, RunApply(s, j, a), k)
  {
    hide Instances, Lock, Unlocked;
  }

  lemma OwnStepDescends(s: State, k: TaskId, a: RunAction)
    requires RunEnabled(s, k, a) && RecordOk(s.tasks[k], s.runs[k])
    ensures var u := RunApply(s, k, a);
      && k in u.tasks && k in u.runs && SameJob(u.tasks[k], s.tasks[k])
      && Left(u.tasks[k], u.runs[k]) < Left(s.tasks[k], s.runs[k])
  {
    match a
    case Begin =>
    case NextSlot =>
    case EndSlot(_) =>
    case FinishCancelled =>
    case FreeInstances =>
    case FreeImage =>
  }

  lemma OwnStepKeepsFinished(s: State, k: TaskId, a: RunAction)
    requires RunEnabled(s, k, a) && RecordOk(s.tasks[k], s.runs[k]) && IsFinished(s.tasks[k].status)
    ensures k in RunApply(s, k, a).tasks && RunApply(s, k, a).tasks[k] == s.tasks[k]
  {
  }

  /** No step takes a task out of a finished status, a cancellation included, or loses it. */
  lemma FinishedIsAbsorbing(s: State, m: Move, k: TaskId)
    requires Invariant(s) && CanMove(s, m) && k in s.tasks && IsFinished(s.tasks[k].status)
    ensures k in Moved(s, m).tasks && Moved(s, m).tasks[k] == s.tasks[k]
  {
    hide Invariant, Apply, RunApply, Enabled, RunEnabled, RecordOk;
    RecordFacts(s, k);
    match m
    case ByRequest(t, a) => RequestLeavesTask(s, t, a, k);
    case ByGoroutine(j, a) => if j == k { OwnStepKeepsFinished(s, k, a); } else { OtherGoroutine(s, j, a, k); }
  }

  /** In every run, from its start until it has given the image lock back, a sync-back is alone with
      the image: every other task of the server is done, and nobody mutates the image. */
  lemma SyncBackIsAlone(moves: seq<Move>, k: TaskId, j: TaskId, t: Thread)
    requires IsRun(Initial(), moves)
    requires var s := After(Initial(), moves); k in s.tasks && k in s.runs && s.tasks[k].kind == ImageSyncBack && s.runs[k] != Done
    ensures var s := After(Initial(), moves);
      && (j != k && j in s.tasks && s.tasks[j].server == s.tasks[k].server ==> j in s.runs && s.runs[j] == Done)
      && At(s, t) != Mutating(s.tasks[k].server)
  {
    var s := After(Initial(), moves);
    Reachable(moves);
    TaskFacts(s, k);
    Facts(s, t, s.tasks[k].server);
    if j in s.tasks { TaskFacts(s, j); }
    assert PCHolds(Mutating(s.tasks[k].server), s.tasks[k].server, ImageSyncBack);
  }

  /** In every run two tasks at work never share an instance. */
  lemma TasksShareNoInstance(moves: seq<Move>, j: TaskId, k: TaskId, i: Instance)
    requires IsRun(Initial(), moves)
    requires var s := After(Initial(), moves);
      && j in s.tasks && k in s.tasks && !IsFinished(s.tasks[j].status) && !IsFinished(s.tasks[k].status)
      && i in Instances(s.tasks[j].server, s.tasks[j].targets) && i in Instances(s.tasks[k].server, s.tasks[k].targets)
    ensures j == k
  {
    var s := After(Initial(), moves);
    Reachable(moves);
    TaskFacts(s, j);
    TaskFacts(s, k);
  }

  /** In every run, whoever is through holds nothing: neither a request that has returned nor a task
      that is done holds an image lock or a reservation. */
  lemma NothingIsLeftHeld(moves: seq<Move>, h: Holder, server: Server, kind: Kind, i: Instance)
    requires IsRun(Initial(), moves)
    requires var s := After(Initial(), moves);
      match h case ByThread(t) => At(s, t) == Idle case ByTask(k) => k in s.runs && s.runs[k] == Done
    ensures var s := After(Initial(), moves);
      !HasLock(Lock(s, server), kind, h) && (i in s.reserved ==> s.reserved[i] != h)
  {
    var s := After(Initial(), moves);
    Reachable(moves);
    AllLocks(s);
    assert LockOk(s, server);
    assert !HolderHas(s, h, server, kind);
    if i in s.reserved { ReservationFacts(s, i); }
  }

  /** Every unlocking step finds held by its own holder exactly what it gives up. */
  lemma UnlocksWhatItHolds(s: State, m: Move)
    requires Invariant(s) && CanMove(s, m)
    ensures m.ByRequest? && m.action == Refuse ==> HasLock(Lock(s, At(s, m.thread).server), At(s, m.thread).kind, ByThread(m.thread))
    ensures m.ByRequest? && m.action == EndMutation ==> HasLock(Lock(s, At(s, m.thread).server), ImageSyncBack, ByThread(m.thread))
    ensures m.ByRequest? && m.action == BackOut ==>
      HasInstances(s, At(s, m.thread).server, At(s, m.thread).targets, ByThread(m.thread))
    ensures m.ByGoroutine? && m.runAction == FreeInstances ==>
      HasInstances(s, s.tasks[m.task].server, s.tasks[m.task].targets, ByTask(m.task))
    ensures m.ByGoroutine? && m.runAction == FreeImage ==>
      HasLock(Lock(s, s.tasks[m.task].server), s.tasks[m.task].kind, ByTask(m.task))
  {
    match m
    case ByRequest(t, a) =>
      Facts(s, t, "");
      match At(s, t) {
        case Refusing(server, kind) => assert PCHolds(At(s, t), server, kind);
        case Mutating(server) => assert PCHolds(At(s, t), server, ImageSyncBack);
        case _ =>
      }
    case ByGoroutine(k, a) => TaskFacts(s, k);
  }

  lemma GoroutineCanMove(s: State, k: TaskId)
    requires k in s.tasks && k in s.runs && RecordOk(s.tasks[k], s.runs[k]) && s.runs[k] != Done
    ensures exists a :: RunEnabled(s, k, a)
  {
    match s.runs[k]
    case Launched => assert RunEnabled(s, k, Begin);
    case AtSlot(_) => assert RunEnabled(s, k, NextSlot);
    case InSlot(_) => assert RunEnabled(s, k, EndSlot(true));
    case Stopping => assert RunEnabled(s, k, FinishCancelled);
    case FreeingInstances => assert RunEnabled(s, k, FreeInstances);
    case FreeingImage => assert RunEnabled(s, k, FreeImage);
  }

  /** A task always comes to its end: until it is done its goroutine has a step to take, each of its
      steps brings the end nearer, and no other step moves it away; and no step changes what it is for. */
  lemma TasksEnd(s: State, k: TaskId, m: Move)
    requires Invariant(s) && k in s.tasks && CanMove(s, m)
    ensures k in s.runs && (s.runs[k] != Done ==> exists a :: RunEnabled(s, k, a))
    ensures k in Moved(s, m).tasks && k in Moved(s, m).runs && SameJob(Moved(s, m).tasks[k], s.tasks[k])
    ensures Left(Moved(s, m).tasks[k], Moved(s, m).runs[k]) <= Left(s.tasks[k], s.runs[k]) - (if m.ByGoroutine? && m.task == k then 1 else 0)
  {
    hide Invariant, Apply, RunApply, Enabled, RunEnabled, RecordOk;
    RecordFacts(s, k);
    if s.runs[k] != Done { GoroutineCanMove(s, k); }
    match m
    case ByRequest(t, a) => RequestLeavesTask(s, t, a, k);
    case ByGoroutine(j, a) => if j == k { OwnStepDescends(s, k, a); } else { OtherGoroutine(s, j, a, k); }
  }

  // ----- what the slots of a task did

  function Tried(s: State, k: TaskId): nat {
    if k in s.tasks then s.tasks[k].completed else 0
  }

  function FailedIn(s: State, k: TaskId): nat {
    if k in s.tasks then s.tasks[k].failed else 0
  }

  /** How the slot that a step ends turned out; one that fails after the cancellation does not count. */
  function Outcome(s: State, m: Move, k: TaskId): seq<bool> {
    match m
    case ByGoroutine(j, EndSlot(ok)) => if j == k && (ok || (k in s.tasks && !s.tasks[k].cancelled)) then [ok] else []
    case _ => []
  }

  /** How the slots of a task turned out in a run, in the order in which they ended. */
  function Outcomes(s: State, moves: seq<Move>, k: TaskId): seq<bool>
    requires IsRun(s, moves)
    decreases |moves|
  {
    if moves == [] then [] else Outcome(s, moves[0], k) + Outcomes(Moved(s, moves[0]), moves[1..], k)
  }

  function Failures(outcomes: seq<bool>): nat {
    if outcomes == [] then 0 else (if outcomes[0] then 0 else 1) + Failures(outcomes[1..])
  }

  lemma {:induction false} FailuresAdd(a: seq<bool>, b: seq<bool>)
    ensures Failures(a + b) == Failures(a) + Failures(b)
  {
    if a == [] {
      assert a + b == b;
    } else {
      FailuresAdd(a[1..], b);
      assert (a + b)[1..] == a[1..] + b;
    }
  }

  lemma {:induction false} FailuresIff(outcomes: seq<bool>)
    ensures Failures(outcomes) > 0 <==> exists i :: 0 <= i < |outcomes| && !outcomes[i]
  {
    if outcomes != [] {
      FailuresIff(outcomes[1..]);
      forall i | 1 <= i < |outcomes| ensures outcomes[i] == outcomes[1..][i - 1] {
      }
    }
  }

  lemma RequestTellsNothing(s: State, t: Thread, a: Action, k: TaskId)
    requires Enabled(s, t, a)
    ensures Tried(Apply(s, t, a), k) == Tried(s, k) && FailedIn(Apply(s, t, a), k) == FailedIn(s, k)
  {
    hide Apply, Enabled;
    match a
    case Commit(j) => CommitTells(s, t, j, k);
    case Cancel(j, force) => CancelTells(s, t, j, force, k);
    case _ => QuietRequest(s, t, a);
  }

  lemma CommitTells(s: State, t: Thread, j: TaskId, k: TaskId)
    requires Enabled(s, t, Commit(j))
    ensures var u := Apply(s, t, Commit(j));
      Tried(u, k) == Tried(s, k) && FailedIn(u, k) == FailedIn(s, k) && CancelledIn(u, k) == CancelledIn(s, k)
  {
    hide Instances, Lock, Unlocked, Locked, GiveAll, CanLock;
  }

  lemma CancelTells(s: State, t: Thread, j: TaskId, force: bool, k: TaskId)
    requires Enabled(s, t, Cancel(j, force))
    ensures var u, asked := Apply(s, t, Cancel(j, force)), AskedBy(s, ByRequest(t, Cancel(j, force)), k);
      && Tried(u, k) == Tried(s, k) && FailedIn(u, k) == FailedIn(s, k)
      && CancelledIn(u, k) == if asked.Some? then asked else CancelledIn(s, k)
  {
    hide TaskMade, Instances, Lock, Unlocked, Locked, GiveAll, CanLock;
  }

  lemma SlotTells(s: State, j: TaskId, a: RunAction, k: TaskId)
    requires RunEnabled(s, j, a)
    ensures var o := Outcome(s, ByGoroutine(j, a), k);
      Tried(RunApply(s, j, a), k) == Tried(s, k) + |o| && FailedIn(RunApply(s, j, a), k) == FailedIn(s, k) + Failures(o)
  {
    hide Instances, Lock, Unlocked;
  }

  lemma MoveTells(s: State, m: Move, k: TaskId)
    requires CanMove(s, m)
    ensures var o := Outcome(s, m, k);
      Tried(Moved(s, m), k) == Tried(s, k) + |o| && FailedIn(Moved(s, m), k) == FailedIn(s, k) + Failures(o)
  {
    hide Enabled, RunEnabled, Apply, RunApply, Tried, FailedIn;
    match m
    case ByRequest(t, a) => RequestTellsNothing(s, t, a, k);
    case ByGoroutine(j, a) => SlotTells(s, j, a, k);
  }

  /** The counters of a task count what its slots did. */
  lemma {:induction false} CountersTell(s: State, moves: seq<Move>, k: TaskId)
    requires IsRun(s, moves)
    ensures var o := Outcomes(s, moves, k);
      Tried(After(s, moves), k) == Tried(s, k) + |o| && FailedIn(After(s, moves), k) == FailedIn(s, k) + Failures(o)
    decreases |moves|
  {
    hide CanMove, Moved, Outcome, Tried, FailedIn;
    if moves != [] {
      MoveTells(s, moves[0], k);
      CountersTell(Moved(s, moves[0]), moves[1..], k);
      FailuresAdd(Outcome(s, moves[0], k), Outcomes(Moved(s, moves[0]), moves[1..], k));
    }
  }

  /** Over every run from the start: a task has counted exactly the slots that ended, one for each
      target in turn, and its final status says how they turned out: completed exactly if all targets
      succeeded, with errors exactly if all were tried and one failed. */
  lemma StatusTellsOutcome(moves: seq<Move>, k: TaskId)
    requires IsRun(Initial(), moves) && k in After(Initial(), moves).tasks
    ensures var task, o := After(Initial(), moves).tasks[k], Outcomes(Initial(), moves, k);
      && task.completed == |o| <= |task.targets| && task.failed == Failures(o)
      && (task.status == Completed ==> |o| == |task.targets| && forall i :: 0 <= i < |o| ==> o[i])
      && (task.status == CompletedWithErrors ==> |o| == |task.targets| && exists i :: 0 <= i < |o| && !o[i])
      && task.status != Failed
  {
    hide Invariant, IsRun, After, Outcomes, Failures;
    Reachable(moves);
    RecordFacts(After(Initial(), moves), k);
    CountersTell(Initial(), moves, k);
    FailuresIff(Outcomes(Initial(), moves, k));
  }

  // ----- what a cancellation does

  /** The force of the last cancellation that found the task unfinished. */
  function Asked(s: State, moves: seq<Move>, k: TaskId): Option<bool>
    requires IsRun(s, moves)
    decreases |moves|
  {
    if moves == [] then None
    else
      var later := Asked(Moved(s, moves[0]), moves[1..], k);
      if later.Some? then later else AskedBy(s, moves[0], k)
  }

  function AskedBy(s: State, m: Move, k: TaskId): Option<bool> {
    match m
    case ByRequest(_, Cancel(j, force)) => if j == k && k in s.tasks && !IsFinished(s.tasks[k].status) then Some(force) else None
    case _ => None
  }

  function CancelledIn(s: State, k: TaskId): Option<bool> {
    if k in s.tasks && s.tasks[k].cancelled then Some(s.tasks[k].force) else None
  }

  lemma MoveAsks(s: State, m: Move, k: TaskId)
    requires CanMove(s, m)
    ensures var asked := AskedBy(s, m, k);
      CancelledIn(Moved(s, m), k) == if asked.Some? then asked else CancelledIn(s, k)
  {
    hide Apply, RunApply, Enabled, RunEnabled;
    match m
    case ByRequest(t, a) =>
      match a {
        case Commit(j) => CommitTells(s, t, j, k);
        case Cancel(j, force) => CancelTells(s, t, j, force, k);
        case _ => QuietRequest(s, t, a);
      }
    case ByGoroutine(j, a) => SlotAsksNothing(s, j, a, k);
  }

  lemma SlotAsksNothing(s: State, j: TaskId, a: RunAction, k: TaskId)
    requires RunEnabled(s, j, a)
    ensures CancelledIn(RunApply(s, j, a), k) == CancelledIn(s, k)
  {
    hide Instances, Lock, Unlocked;
  }

  lemma {:induction false} CancelledTells(s: State, moves: seq<Move>, k: TaskId)
    requires IsRun(s, moves)
    ensures var asked := Asked(s, moves, k);
      CancelledIn(After(s, moves), k) == if asked.Some? then asked else CancelledIn(s, k)
    decreases |moves|
  {
    hide CanMove, Moved, CancelledIn, AskedBy;
    if moves != [] {
      MoveAsks(s, moves[0], k);
      CancelledTells(Moved(s, moves[0]), moves[1..], k);
    }
  }

  /** Over every run from the start: a task ends as cancelled only if it was asked to, and as force
      stopped or not as the last of those requests said; a task never asked is completed, with errors
      or without. */
  lemma CancelledOnRequest(moves: seq<Move>, k: TaskId)
    requires IsRun(Initial(), moves) && k in After(Initial(), moves).tasks
    ensures var task, asked := After(Initial(), moves).tasks[k], Asked(Initial(), moves, k);
      && (task.cancelled <==> asked.Some?)
      && (task.status == Cancelled ==> asked == Some(false))
      && (task.status == ForceStopped ==> asked == Some(true))
      && (IsFinished(task.status) && asked.None? ==> task.status == Completed || task.status == CompletedWithErrors)
  {
    hide Invariant, IsRun, After, Asked;
    Reachable(moves);
    RecordFacts(After(Initial(), moves), k);
    CancelledTells(Initial(), moves, k);
  }

  lemma StaysCancelled(s: State, m: Move, k: TaskId)
    requires CanMove(s, m) && k in s.tasks && k in s.runs && s.tasks[k].cancelled
    ensures var u := Moved(s, m);
      && k in u.tasks && k in u.runs && u.tasks[k].cancelled
      && |Outcome(s, m, k)| <= (if s.runs[k].InSlot? then 1 else 0) - (if u.runs[k].InSlot? then 1 else 0)
  {
    hide Apply, RunApply, Enabled, RunEnabled;
    MoveAsks(s, m, k);
    match m
    case ByRequest(t, a) => RequestLeavesTask(s, t, a, k);
    case ByGoroutine(j, a) => if j == k { OwnStepWhenCancelled(s, k, a); } else { OtherGoroutine(s, j, a, k); }
  }

  lemma OwnStepWhenCancelled(s: State, k: TaskId, a: RunAction)
    requires RunEnabled(s, k, a) && s.tasks[k].cancelled
    ensures var u := RunApply(s, k, a);
      && k in u.tasks && k in u.runs
      && |Outcome(s, ByGoroutine(k, a), k)| <= (if s.runs[k].InSlot? then 1 else 0) - (if u.runs[k].InSlot? then 1 else 0)
  {
    hide Instances, Lock, Unlocked;
  }

  /** A cancelled task starts no further slot: in any run from there at most the slot it was in ends. */
  lemma {:induction false} CancelledStartsNoSlot(s: State, moves: seq<Move>, k: TaskId)
    requires IsRun(s, moves) && k in s.tasks && k in s.runs && s.tasks[k].cancelled
    ensures |Outcomes(s, moves, k)| <= if s.runs[k].InSlot? then 1 else 0
    decreases |moves|
  {
    hide CanMove, Moved, Outcome;
    if moves != [] {
      StaysCancelled(s, moves[0], k);
      CancelledStartsNoSlot(Moved(s, moves[0]), moves[1..], k);
    }
  }

  // ----- who gets the image

  lemma HolderHasLock(s: State, h: Holder, server: Server, kind: Kind)
    requires Invariant(s) && HolderHas(s, h, server, kind)
    ensures HasLock(Lock(s, server), kind, h)
  {
    match h
    case ByThread(t) => Facts(s, t, server);
    case ByTask(k) => TaskFacts(s, k);
  }

  lemma FreeIff(s: State, server: Server, kind: Kind)
    requires Invariant(s)
    ensures CanLock(Lock(s, server), kind) <==>
      forall h, held :: HolderHas(s, h, server, held) ==> kind == MirrorDeploy && held == MirrorDeploy
  {
    hide Invariant, HolderHas;
    AllLocks(s);
    assert LockOk(s, server);
    forall h, held | HolderHas(s, h, server, held) ensures HasLock(Lock(s, server), held, h) {
      HolderHasLock(s, h, server, held);
    }
  }

  /** In every run a request gets the image of a server exactly if nobody else stands where it is held,
      or nobody but mirror deployments for one that is a mirror deployment itself. */
  lemma GetsImageIff(moves: seq<Move>, t: Thread, server: Server, kind: Kind)
    requires IsRun(Initial(), moves) && At(After(Initial(), moves), t) == Idle
    ensures var s := After(Initial(), moves);
      && (At(Apply(s, t, CallStart(server, kind)), t) == HasImage(server, kind) <==>
           forall h, held :: HolderHas(s, h, server, held) ==> kind == MirrorDeploy && held == MirrorDeploy)
      && (At(Apply(s, t, CallMutation(server)), t) == Mutating(server) <==> forall h, held :: !HolderHas(s, h, server, held))
  {
    hide Invariant, HolderHas, IsRun, After, CanLock, Locked, Lock;
    var s := After(Initial(), moves);
    Reachable(moves);
    FreeIff(s, server, kind);
    FreeIff(s, server, ImageSyncBack);
  }

  // ----- how a task comes about

  /** The steps of a request that finds everything in order. */
  function StartMoves(t: Thread, server: Server, kind: Kind, targets: seq<int>, k: TaskId): seq<Move> {
    [ByRequest(t, CallStart(server, kind)), ByRequest(t, Check(Some(targets))), ByRequest(t, Reserve(true)), ByRequest(t, Commit(k))]
  }

  /** A request is turned into a task if the server has none, its image is free and no instance it is
      for is reserved; the task is what was asked for, and nothing of another task changes. */
  lemma StartBecomesTask(s: State, t: Thread, server: Server, kind: Kind, targets: seq<int>, k: TaskId)
    requires At(s, t) == Idle && k !in s.tasks && server !in s.active && CanLock(Lock(s, server), kind)
    requires Instances(server, targets) !! s.reserved.Keys
    ensures var moves := StartMoves(t, server, kind, targets, k);
      && IsRun(s, moves)
      && var u := After(s, moves);
        && u.tasks == s.tasks[k := Task(server, kind, targets, Queued, false, false, 0, 0)]
        && u.active == s.active[server := k] && u.runs == s.runs[k := Launched] && At(u, t) == Idle
  {
    hide Instances, GiveAll, Locked, Unlocked, Apply, Enabled, IsRun, After, CanLock;
    var moves := StartMoves(t, server, kind, targets, k);
    var s1 := Calls(s, t, server, kind);
    var s2 := Checks(s1, t, server, kind, targets);
    var s3 := Reserves(s2, t, server, kind, targets);
    var s4 := Commits(s3, t, server, kind, targets, k);
    FourMoves(s, s1, s2, s3, s4, moves);
  }

  lemma Calls(s: State, t: Thread, server: Server, kind: Kind) returns (u: State)
    requires At(s, t) == Idle && CanLock(Lock(s, server), kind)
    ensures Enabled(s, t, CallStart(server, kind)) && u == Apply(s, t, CallStart(server, kind))
    ensures At(u, t) == HasImage(server, kind) && u == s.(pcs := u.pcs, image := u.image)
  {
    hide Locked, CanLock, Lock;
    u := Apply(s, t, CallStart(server, kind));
  }

  lemma Checks(s: State, t: Thread, server: Server, kind: Kind, targets: seq<int>) returns (u: State)
    requires At(s, t) == HasImage(server, kind) && server !in s.active
    ensures Enabled(s, t, Check(Some(targets))) && u == Apply(s, t, Check(Some(targets)))
    ensures At(u, t) == Checked(server, kind, targets) && u == s.(pcs := u.pcs)
  {
    u := Apply(s, t, Check(Some(targets)));
  }

  lemma Reserves(s: State, t: Thread, server: Server, kind: Kind, targets: seq<int>) returns (u: State)
    requires At(s, t) == Checked(server, kind, targets) && Instances(server, targets) !! s.reserved.Keys
    ensures Enabled(s, t, Reserve(true)) && u == Apply(s, t, Reserve(true))
    ensures At(u, t) == Reserved(server, kind, targets) && u == s.(pcs := u.pcs, reserved := u.reserved)
  {
    hide Instances, GiveAll;
    u := Apply(s, t, Reserve(true));
  }

  lemma Commits(s: State, t: Thread, server: Server, kind: Kind, targets: seq<int>, k: TaskId) returns (u: State)
    requires At(s, t) == Reserved(server, kind, targets) && k !in s.tasks && server !in s.active
    ensures Enabled(s, t, Commit(k)) && u == Apply(s, t, Commit(k)) && At(u, t) == Idle
    ensures u.tasks == s.tasks[k := Task(server, kind, targets, Queued, false, false, 0, 0)]
    ensures u.active == s.active[server := k] && u.runs == s.runs[k := Launched]
  {
    hide Instances, GiveAll, Locked, Unlocked, Lock;
    u := Apply(s, t, Commit(k));
  }

  lemma FourMoves(s: State, s1: State, s2: State, s3: State, s4: State, moves: seq<Move>)
    requires |moves| == 4
    requires CanMove(s, moves[0]) && s1 == Moved(s, moves[0]) && CanMove(s1, moves[1]) && s2 == Moved(s1, moves[1])
    requires CanMove(s2, moves[2]) && s3 == Moved(s2, moves[2]) && CanMove(s3, moves[3]) && s4 == Moved(s3, moves[3])
    ensures IsRun(s, moves) && After(s, moves) == s4
  {
    hide CanMove, Moved;
    assert moves[1..][1..] == moves[2..] && moves[2..][1..] == moves[3..] && moves[3..][1..] == [];
    assert IsRun(s3, moves[3..]) && After(s3, moves[3..]) == s4;
    assert IsRun(s2, moves[2..]) && After(s2, moves[2..]) == s4;
    assert IsRun(s1, moves[1..]) && After(s1, moves[1..]) == s4;
  }
}
