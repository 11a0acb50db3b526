/** Reservation of instances for a deployment, interleaved with every operation that works on an
    instance. Each step below is one atomic action of one thread: a lock operation, or a read or
    write under a lock.
    daemon/internal/supervisor/deployment_lock.go:10-74, lifecycle.go:17-345, manager.go:233-253,
    deployment.go:17-80 */
module Reservation {

  type Id = string
  type Thread = nat
  type Token = nat

  /** What a thread does on an instance while it holds its op lock; Command holds mu instead. */
  datatype Kind = Start | Stop | Kill | Restart | FileMutation | Deploy

  /** Where a thread stands. */
  datatype PC =
    | Idle
    // Start, Stop, Kill, Restart, withFileMutation, DeployInstance
    | Entered(kind: Kind, id: Id)
    | HoldsOp(kind: Kind, id: Id)
    | InBody(kind: Kind, id: Id)
    | Leaving(id: Id)
    // Command
    | CommandEntered(id: Id)
    | HoldsMu(id: Id)
    | InCommand(id: Id)
    | LeavingMu(id: Id)
    // ReserveDeployment
    | LockingNext(ids: seq<Id>, n: nat)
    | CheckingNext(ids: seq<Id>, n: nat)
    | Setting(ids: seq<Id>, n: nat)
    | Unlocking(ids: seq<Id>, n: nat)
    | Undoing(ids: seq<Id>, n: nat)
    // the release closure
    | ReleaseLocking(token: Token, n: nat)
    | ReleaseClearing(token: Token, n: nat)
    | ReleaseUnlocking(token: Token, n: nat)

  /** Who set a deploymentLocked flag that is set. */
  datatype Claimant = ByThread(thread: Thread) | ByToken(token: Token)

  datatype TokenState = Held(ids: seq<Id>) | Releasing(ids: seq<Id>, releaser: Thread, n: nat) | Released

  /** Owners of op and mu where they are taken exclusively; the flags that are set, each with who set
      it; the threads; and the reservations handed out. */
  datatype State = State(op: map<Id, Thread>, mu: map<Id, Thread>, flags: map<Id, Claimant>, pcs: map<Thread, PC>,
                         tokens: map<Token, TokenState>)

  function At(s: State, t: Thread): PC {
    if t in s.pcs then s.pcs[t] else Idle
  }

  function Go(s: State, t: Thread, pc: PC): State {
    s.(pcs := s.pcs[t := pc])
  }

  function Take(m: map<Id, Thread>, id: Id, t: Thread): map<Id, Thread> {
    m[id := t]
  }

  function Drop<V>(m: map<Id, V>, id: Id): map<Id, V> {
    m - {id}
  }

  /** The first n ids are pairwise different. */
  predicate Distinct(ids: seq<Id>, n: nat)
    requires n <= |ids|
  {
    forall i, j :: 0 <= i < j < n ==> ids[i] != ids[j]
  }

  /** The flags of all ids handed from a thread to a token. */
  function HandOver(flags: map<Id, Claimant>, ids: seq<Id>, k: Token): map<Id, Claimant> {
    map i | i in flags :: if i in ids then ByToken(k) else flags[i]
  }

  // ----- the steps

  datatype Action =
    | Call(kind: Kind, id: Id)
    | TryLock
    | CheckFlag(admitted: bool)
    | EndBody
    | Unlock
    | CallCommand(id: Id)
    | LockMu
    | CheckCommand(running: bool)
    | EndCommand
    | UnlockMu
    | CallReserve(ids: seq<Id>)
    | TryLockNext(found: bool)
    | CheckNext(settled: bool)
    | SetFlag
    | UnlockLast(token: Token)
    | UndoLast
    | CallRelease(token: Token)
    | LockToRelease
    | ClearFlag
    | UnlockReleased

  /** Whether a thread can take an action: its program allows it and it need not wait for a lock. */
  predicate Enabled(s: State, t: Thread, a: Action) {
    match (At(s, t), a)
    case (Idle, Call(_, _)) => true
    case (Entered(_, _), TryLock) => true
    case (HoldsOp(_, id), CheckFlag(_)) => id !in s.mu
    case (InBody(_, _), EndBody) => true
    case (Leaving(_), Unlock) => true
    case (Idle, CallCommand(_)) => true
    case (CommandEntered(id), LockMu) => id !in s.mu
    case (HoldsMu(_), CheckCommand(_)) => true
    case (InCommand(_), EndCommand) => true
    case (LeavingMu(_), UnlockMu) => true
    case (Idle, CallReserve(_)) => true
    case (LockingNext(ids, n), TryLockNext(_)) => n < |ids|
    case (CheckingNext(ids, n), CheckNext(_)) => n < |ids| && ids[n] !in s.mu
    case (Setting(ids, n), SetFlag) => n < |ids| && ids[n] !in s.mu
    case (Unlocking(ids, n), UnlockLast(token)) => n <= |ids| && (n == 0 ==> token !in s.tokens)
    case (Undoing(ids, n), UndoLast) => n <= |ids|
    case (Idle, CallRelease(token)) => token in s.tokens
    case (ReleaseLocking(token, n), LockToRelease) =>
      token in s.tokens && s.tokens[token].Releasing? && n <= |s.tokens[token].ids|
      && (n < |s.tokens[token].ids| ==> s.tokens[token].ids[n] !in s.op)
    case (ReleaseClearing(token, n), ClearFlag) =>
      token in s.tokens && s.tokens[token].Releasing? && n < |s.tokens[token].ids| && s.tokens[token].ids[n] !in s.mu
    case (ReleaseUnlocking(token, n), UnlockReleased) =>
      token in s.tokens && s.tokens[token].Releasing? && n < |s.tokens[token].ids|
    case _ => false
  }

  function Apply(s: State, t: Thread, a: Action): State
    requires Enabled(s, t, a)
  {
    match a
    case Call(kind, id) => Go(s, t, Entered(kind, id))
    case TryLock =>
      var pc := At(s, t);
      if pc.id in s.op then Go(s, t, Idle)
      else Go(s.(op := Take(s.op, pc.id, t)), t, HoldsOp(pc.kind, pc.id))
    case CheckFlag(admitted) =>
      // DeployInstance does not look at the flag: it is the deployment
      var pc := At(s, t);
      if admitted && (pc.kind == Deploy || pc.id !in s.flags) then Go(s, t, InBody(pc.kind, pc.id))
      else Go(s, t, Leaving(pc.id))
    case EndBody => Go(s, t, Leaving(At(s, t).id))
    case Unlock => Go(s.(op := Drop(s.op, At(s, t).id)), t, Idle)
    case CallCommand(id) => Go(s, t, CommandEntered(id))
    case LockMu => Go(s.(mu := Take(s.mu, At(s, t).id, t)), t, HoldsMu(At(s, t).id))
    case CheckCommand(running) =>
      if running && At(s, t).id !in s.flags then Go(s, t, InCommand(At(s, t).id)) else Go(s, t, LeavingMu(At(s, t).id))
    case EndCommand => Go(s, t, LeavingMu(At(s, t).id))
    case UnlockMu => Go(s.(mu := Drop(s.mu, At(s, t).id)), t, Idle)
    case CallReserve(ids) => Go(s, t, if ids == [] then Unlocking(ids, 0) else LockingNext(ids, 0))
    case TryLockNext(found) =>
      var pc := At(s, t);
      if !found || pc.ids[pc.n] in s.op then Go(s, t, Undoing(pc.ids, pc.n))
      else Go(s.(op := Take(s.op, pc.ids[pc.n], t)), t, CheckingNext(pc.ids, pc.n))
    case CheckNext(settled) =>
      var pc := At(s, t);
      if pc.ids[pc.n] in s.flags || !settled then Go(s, t, Undoing(pc.ids, pc.n + 1))
      else if pc.n + 1 < |pc.ids| then Go(s, t, LockingNext(pc.ids, pc.n + 1))
      else Go(s, t, Setting(pc.ids, 0))
    case SetFlag =>
      var pc := At(s, t);
      var next := s.(flags := s.flags[pc.ids[pc.n] := ByThread(t)]);
      if pc.n + 1 < |pc.ids| then Go(next, t, Setting(pc.ids, pc.n + 1)) else Go(next, t, Unlocking(pc.ids, |pc.ids|))
    case UnlockLast(token) =>
      var pc := At(s, t);
      if pc.n > 0 then Go(s.(op := Drop(s.op, pc.ids[pc.n - 1])), t, Unlocking(pc.ids, pc.n - 1))
      else Go(s.(flags := HandOver(s.flags, pc.ids, token), tokens := s.tokens[token := Held(pc.ids)]), t, Idle)
    case UndoLast =>
      var pc := At(s, t);
      if pc.n > 0 then Go(s.(op := Drop(s.op, pc.ids[pc.n - 1])), t, Undoing(pc.ids, pc.n - 1)) else Go(s, t, Idle)
    case CallRelease(token) =>
      // sync.Once: only the first call runs the body
      if s.tokens[token].Held? then
        Go(s.(tokens := s.tokens[token := Releasing(s.tokens[token].ids, t, 0)]), t, ReleaseLocking(token, 0))
      else s
    case LockToRelease =>
      var pc := At(s, t);
      var ids := s.tokens[pc.token].ids;
      if pc.n < |ids| then Go(s.(op := Take(s.op, ids[pc.n], t)), t, ReleaseClearing(pc.token, pc.n))
      else Go(s.(tokens := s.tokens[pc.token := Released]), t, Idle)
    case ClearFlag =>
      var pc := At(s, t);
      Go(s.(flags := Drop(s.flags, s.tokens[pc.token].ids[pc.n])), t, ReleaseUnlocking(pc.token, pc.n))
    case UnlockReleased =>
      var pc := At(s, t);
      var token := s.tokens[pc.token];
      Go(s.(op := Drop(s.op, token.ids[pc.n]), tokens := s.tokens[pc.token := Releasing(token.ids, t, pc.n + 1)]), t,
         ReleaseLocking(pc.token, pc.n + 1))
  }

  // ----- the invariant

  predicate Holds(s: State, t: Thread, ids: seq<Id>, n: nat)
    requires n <= |ids|
  {
    forall i :: 0 <= i < n ==> Owns(s.op, ids[i], t)
  }

  predicate Unflagged(s: State, ids: seq<Id>, from: nat, to: nat)
    requires from <= to <= |ids|
  {
    forall i :: from <= i < to ==> ids[i] !in s.flags
  }

  predicate Claimed(s: State, ids: seq<Id>, from: nat, to: nat, c: Claimant)
    requires from <= to <= |ids|
  {
    forall i :: from <= i < to ==> ids[i] in s.flags && s.flags[ids[i]] == c
  }

  predicate Owns(m: map<Id, Thread>, id: Id, t: Thread) {
    id in m && m[id] == t
  }

  /** What a thread may rely on where it stands. */
  predicate ThreadOk(s: State, t: Thread) {
    match At(s, t)
    case Idle => true
    case Entered(_, _) => true
    case HoldsOp(_, id) => Owns(s.op, id, t)
    case InBody(kind, id) => Owns(s.op, id, t) && (kind != Deploy ==> id !in s.flags)
    case Leaving(id) => Owns(s.op, id, t)
    case CommandEntered(_) => true
    case HoldsMu(id) => Owns(s.mu, id, t)
    case InCommand(id) => Owns(s.mu, id, t) && id !in s.flags
    case LeavingMu(id) => Owns(s.mu, id, t)
    case LockingNext(ids, n) =>
      n < |ids| && Distinct(ids, n) && Holds(s, t, ids, n) && Unflagged(s, ids, 0, n)
    case CheckingNext(ids, n) =>
      n < |ids| && Distinct(ids, n + 1) && Holds(s, t, ids, n + 1) && Unflagged(s, ids, 0, n)
    case Setting(ids, n) =>
      n < |ids| && Distinct(ids, |ids|) && Holds(s, t, ids, |ids|) && Claimed(s, ids, 0, n, ByThread(t)) && Unflagged(s, ids, n, |ids|)
    case Unlocking(ids, n) =>
      n <= |ids| && Distinct(ids, |ids|) && Holds(s, t, ids, n) && Claimed(s, ids, 0, |ids|, ByThread(t))
    case Undoing(ids, n) => n <= |ids| && Distinct(ids, n) && Holds(s, t, ids, n)
    case ReleaseLocking(token, n) => IsReleasing(s, token, t, n)
    case ReleaseClearing(token, n) => IsReleasing(s, token, t, n) && n < |s.tokens[token].ids| && Owns(s.op, s.tokens[token].ids[n], t)
    case ReleaseUnlocking(token, n) => IsReleasing(s, token, t, n) && n < |s.tokens[token].ids| && Owns(s.op, s.tokens[token].ids[n], t)
  }

  predicate IsReleasing(s: State, token: Token, t: Thread, n: nat) {
    && token in s.tokens && s.tokens[token].Releasing? && s.tokens[token].releaser == t && s.tokens[token].n == n
    && n <= |s.tokens[token].ids|
  }

  /** Whether the releaser has cleared the flag it is at. */
  predicate Cleared(s: State, token: Token)
    requires token in s.tokens && s.tokens[token].Releasing?
  {
    At(s, s.tokens[token].releaser).ReleaseUnlocking?
  }

  /** Where the instances a token still reserves begin in its list. */
  function From(s: State, token: Token): nat
    requires token in s.tokens
  {
    match s.tokens[token]
    case Held(_) => 0
    case Releasing(ids, _, n) =>
      var from := if Cleared(s, token) then n + 1 else n; if from <= |ids| then from else |ids|
    case Released => 0
  }

  function Ids(s: State, token: Token): seq<Id>
    requires token in s.tokens
  {
    if s.tokens[token].Released? then [] else s.tokens[token].ids
  }

  /** The instances a token reserves. */
  predicate Reserves(s: State, token: Token, id: Id)
    requires token in s.tokens && From(s, token) <= |Ids(s, token)|
  {
    exists i :: From(s, token) <= i < |Ids(s, token)| && Ids(s, token)[i] == id
  }

  predicate TokenOk(s: State, token: Token)
    requires token in s.tokens
  {
    && From(s, token) <= |Ids(s, token)| && Claimed(s, Ids(s, token), From(s, token), |Ids(s, token)|, ByToken(token))
    && Distinct(Ids(s, token), |Ids(s, token)|)
    && match s.tokens[token]
       case Held(_) => true
       case Releasing(ids, t, n) =>
         n <= |ids| && (At(s, t) == ReleaseLocking(token, n) || (n < |ids| && AtRelease(At(s, t), token, n)))
       case Released => true
  }

  predicate AtRelease(pc: PC, token: Token, n: nat) {
    pc == ReleaseClearing(token, n) || pc == ReleaseUnlocking(token, n)
  }

  /** Every flag that is set belongs to a reservation being made, held or being released. */
  predicate FlagOk(s: State, id: Id)
    requires id in s.flags
  {
    match s.flags[id]
    case ByThread(t) => ClaimsOf(At(s, t), id)
    case ByToken(token) => token in s.tokens && From(s, token) <= |Ids(s, token)| && Reserves(s, token, id)
  }

  predicate ClaimsOf(pc: PC, id: Id) {
    match pc
    case Setting(ids, n) => exists i :: 0 <= i < n && i < |ids| && ids[i] == id
    case Unlocking(ids, _) => id in ids
    case _ => false
  }

  ghost predicate Invariant(s: State) {
    && (forall t :: ThreadOk(s, t))
    && (forall token :: token in s.tokens ==> TokenOk(s, token))
    && (forall id :: id in s.flags ==> FlagOk(s, id))
  }

  function Initial(): State {
    State(map[], map[], map[], map[], map[])
  }

  lemma InitialIsFine()
    ensures Invariant(Initial())
  {
  }

  // ----- every step keeps it

  predicate IsRelease(pc: PC) {
    pc.ReleaseLocking? || pc.ReleaseClearing? || pc.ReleaseUnlocking?
  }

  /** What a step of t leaves alone: the other threads, the locks they hold, the flags and claims
      they rely on, and the tokens they are releasing. */
  ghost predicate Frame(s: State, u: State, t: Thread) {
    && (forall o :: o != t ==> At(u, o) == At(s, o))
    && (forall id, o :: o != t && Owns(s.op, id, o) ==> Owns(u.op, id, o) && (id in s.flags <==> id in u.flags))
    && (forall id, o :: o != t && Owns(s.mu, id, o) ==> Owns(u.mu, id, o) && (id !in s.flags ==> id !in u.flags))
    && (forall id :: id in s.flags && s.flags[id].ByThread? && s.flags[id].thread != t ==> SameFlag(s, u, id))
    && (forall k :: k in s.tokens && s.tokens[k].Releasing? && s.tokens[k].releaser != t ==>
         k in u.tokens && u.tokens[k] == s.tokens[k])
  }

  predicate SameFlag(s: State, u: State, id: Id) {
    && (id in s.flags <==> id in u.flags)
    && (id in s.flags ==> u.flags[id] == s.flags[id])
  }

  predicate InOperation(pc: PC) {
    pc.Idle? || pc.Entered? || pc.HoldsOp? || pc.InBody? || pc.Leaving?
    || pc.CommandEntered? || pc.HoldsMu? || pc.InCommand? || pc.LeavingMu?
  }

  predicate InReserve(pc: PC) {
    pc.LockingNext? || pc.CheckingNext? || pc.Setting? || pc.Unlocking? || pc.Undoing?
  }

  lemma OtherOperation(s: State, u: State, t: Thread, o: Thread)
    requires Frame(s, u, t) && o != t && ThreadOk(s, o) && InOperation(At(s, o))
    ensures ThreadOk(u, o)
  {
    hide Holds, Unflagged, Claimed, Distinct, IsReleasing;
  }

  lemma HoldsKept(s: State, u: State, t: Thread, o: Thread, ids: seq<Id>, n: nat)
    requires Frame(s, u, t) && o != t && n <= |ids| && Holds(s, o, ids, n)
    ensures Holds(u, o, ids, n)
    ensures forall from: nat, to: nat :: from <= to <= n && Unflagged(s, ids, from, to) ==> Unflagged(u, ids, from, to)
  {
    forall i | 0 <= i < n ensures Owns(u.op, ids[i], o) && (ids[i] in s.flags <==> ids[i] in u.flags) {
      assert Owns(s.op, ids[i], o);
    }
  }

  lemma ClaimsKept(s: State, u: State, t: Thread, o: Thread, ids: seq<Id>, n: nat)
    requires Frame(s, u, t) && o != t && n <= |ids| && Claimed(s, ids, 0, n, ByThread(o))
    ensures Claimed(u, ids, 0, n, ByThread(o))
  {
  }

  lemma OtherReserve(s: State, u: State, t: Thread, o: Thread)
    requires Frame(s, u, t) && o != t && ThreadOk(s, o) && InReserve(At(s, o))
    ensures ThreadOk(u, o)
  {
    assert At(u, o) == At(s, o);
    hide Holds, Unflagged, Claimed, Distinct, IsReleasing, Frame;
    match At(s, o)
    case LockingNext(ids, n) => HoldsKept(s, u, t, o, ids, n);
    case CheckingNext(ids, n) => HoldsKept(s, u, t, o, ids, n + 1);
    case Setting(ids, n) =>
      HoldsKept(s, u, t, o, ids, |ids|);
      ClaimsKept(s, u, t, o, ids, n);
    case Unlocking(ids, n) =>
      HoldsKept(s, u, t, o, ids, n);
      ClaimsKept(s, u, t, o, ids, |ids|);
    case Undoing(ids, n) => HoldsKept(s, u, t, o, ids, n);
    case _ =>
  }

  lemma OtherRelease(s: State, u: State, t: Thread, o: Thread)
    requires Frame(s, u, t) && o != t && ThreadOk(s, o) && IsRelease(At(s, o))
    ensures ThreadOk(u, o)
  {
    hide Holds, Unflagged, Claimed, Distinct;
  }

  lemma OtherThread(s: State, u: State, t: Thread, o: Thread)
    requires Frame(s, u, t) && o != t && ThreadOk(s, o)
    ensures ThreadOk(u, o)
  {
    hide ThreadOk, Frame;
    if InOperation(At(s, o)) { OtherOperation(s, u, t, o); }
    else if InReserve(At(s, o)) { OtherReserve(s, u, t, o); }
    else { OtherRelease(s, u, t, o); }
  }

  /** The releaser of a token stands in the release closure. */
  lemma ReleaserStands(s: State, k: Token)
    requires Invariant(s) && k in s.tokens && s.tokens[k].Releasing?
    ensures IsRelease(At(s, s.tokens[k].releaser))
  {
    assert TokenOk(s, k);
  }

  /** A step outside the release closure that touches neither flags nor tokens. */
  lemma QuietStep(s: State, u: State, t: Thread)
    requires Invariant(s) && Frame(s, u, t) && u.flags == s.flags && u.tokens == s.tokens
    requires !IsRelease(At(s, t)) && !IsRelease(At(u, t))
    requires forall id :: ClaimsOf(At(s, t), id) ==> ClaimsOf(At(u, t), id)
    requires ThreadOk(u, t)
    ensures Invariant(u)
  {
    forall o ensures ThreadOk(u, o) {
      if o != t { OtherThread(s, u, t, o); }
    }
    forall k | k in u.tokens ensures TokenOk(u, k) && From(u, k) == From(s, k) {
      assert TokenOk(s, k);
      if s.tokens[k].Releasing? { ReleaserStands(s, k); }
    }
    forall id | id in u.flags ensures FlagOk(u, id) {
      assert FlagOk(s, id);
    }
  }

  /** Steps that only move a thread. */
  lemma MoveKeeps(s: State, t: Thread, pc: PC)
    requires Invariant(s) && ThreadOk(Go(s, t, pc), t)
    requires !IsRelease(At(s, t)) && !IsRelease(pc)
    requires forall id :: ClaimsOf(At(s, t), id) ==> ClaimsOf(pc, id)
    ensures Invariant(Go(s, t, pc))
  {
    hide Invariant, ThreadOk, ClaimsOf, IsRelease;
    QuietStep(s, Go(s, t, pc), t);
  }

  /** Steps that take a free op lock. */
  lemma TakeOpKeeps(s: State, t: Thread, id: Id, pc: PC)
    requires Invariant(s) && id !in s.op
    requires var u := Go(s.(op := Take(s.op, id, t)), t, pc); ThreadOk(u, t)
    requires !IsRelease(At(s, t)) && !IsRelease(pc) && forall i :: ClaimsOf(At(s, t), i) ==> ClaimsOf(pc, i)
    ensures Invariant(Go(s.(op := Take(s.op, id, t)), t, pc))
  {
    hide Invariant, ThreadOk, ClaimsOf, IsRelease;
    QuietStep(s, Go(s.(op := Take(s.op, id, t)), t, pc), t);
  }

  /** Steps that give up an op lock. */
  lemma DropOpKeeps(s: State, t: Thread, id: Id, pc: PC)
    requires Invariant(s) && Owns(s.op, id, t)
    requires var u := Go(s.(op := Drop(s.op, id)), t, pc); ThreadOk(u, t)
    requires !IsRelease(At(s, t)) && !IsRelease(pc) && forall i :: ClaimsOf(At(s, t), i) ==> ClaimsOf(pc, i)
    ensures Invariant(Go(s.(op := Drop(s.op, id)), t, pc))
  {
    hide Invariant, ThreadOk, ClaimsOf, IsRelease;
    QuietStep(s, Go(s.(op := Drop(s.op, id)), t, pc), t);
  }

  lemma TakeMuKeeps(s: State, t: Thread, id: Id, pc: PC)
    requires Invariant(s) && id !in s.mu
    requires var u := Go(s.(mu := Take(s.mu, id, t)), t, pc); ThreadOk(u, t)
    requires !IsRelease(At(s, t)) && !IsRelease(pc) && forall i :: ClaimsOf(At(s, t), i) ==> ClaimsOf(pc, i)
    ensures Invariant(Go(s.(mu := Take(s.mu, id, t)), t, pc))
  {
    hide Invariant, ThreadOk, ClaimsOf, IsRelease;
    QuietStep(s, Go(s.(mu := Take(s.mu, id, t)), t, pc), t);
  }

  lemma DropMuKeeps(s: State, t: Thread, id: Id, pc: PC)
    requires Invariant(s) && Owns(s.mu, id, t)
    requires var u := Go(s.(mu := Drop(s.mu, id)), t, pc); ThreadOk(u, t)
    requires !IsRelease(At(s, t)) && !IsRelease(pc) && forall i :: ClaimsOf(At(s, t), i) ==> ClaimsOf(pc, i)
    ensures Invariant(Go(s.(mu := Drop(s.mu, id)), t, pc))
  {
    hide Invariant, ThreadOk, ClaimsOf, IsRelease;
    QuietStep(s, Go(s.(mu := Drop(s.mu, id)), t, pc), t);
  }

  lemma ThreadIsOk(s: State, t: Thread)
    requires Invariant(s)
    ensures ThreadOk(s, t)
  {
  }

  lemma OperationMoves(s: State, t: Thread, a: Action)
    requires Invariant(s) && Enabled(s, t, a) && (a.Call? || a.CheckFlag? || a.EndBody?)
    ensures Invariant(Apply(s, t, a))
  {
    hide Invariant, TokenOk, FlagOk, Frame;
    var pc := At(s, t);
    ThreadIsOk(s, t);
    match a
    case Call(kind, id) => MoveKeeps(s, t, Entered(kind, id));
    case CheckFlag(admitted) =>
      MoveKeeps(s, t, if admitted && (pc.kind == Deploy || pc.id !in s.flags) then InBody(pc.kind, pc.id) else Leaving(pc.id));
    case EndBody => MoveKeeps(s, t, Leaving(pc.id));
  }

  lemma OperationLocks(s: State, t: Thread, a: Action)
    requires Invariant(s) && Enabled(s, t, a) && (a.TryLock? || a.Unlock?)
    ensures Invariant(Apply(s, t, a))
  {
    hide Invariant, TokenOk, FlagOk, Frame;
    var pc := At(s, t);
    ThreadIsOk(s, t);
    match a
    case TryLock =>
      if pc.id in s.op { MoveKeeps(s, t, Idle); } else { TakeOpKeeps(s, t, pc.id, HoldsOp(pc.kind, pc.id)); }
    case Unlock => DropOpKeeps(s, t, pc.id, Idle);
  }

  lemma CommandMoves(s: State, t: Thread, a: Action)
    requires Invariant(s) && Enabled(s, t, a) && (a.CallCommand? || a.CheckCommand? || a.EndCommand?)
    ensures Invariant(Apply(s, t, a))
  {
    hide Invariant, TokenOk, FlagOk, Frame;
    var pc := At(s, t);
    ThreadIsOk(s, t);
    match a
    case CallCommand(id) => MoveKeeps(s, t, CommandEntered(id));
    case CheckCommand(running) =>
      MoveKeeps(s, t, if running && pc.id !in s.flags then InCommand(pc.id) else LeavingMu(pc.id));
    case EndCommand => MoveKeeps(s, t, LeavingMu(pc.id));
  }

  lemma CommandLocks(s: State, t: Thread, a: Action)
    requires Invariant(s) && Enabled(s, t, a) && (a.LockMu? || a.UnlockMu?)
    ensures Invariant(Apply(s, t, a))
  {
    hide Invariant, TokenOk, FlagOk, Frame;
    var pc := At(s, t);
    ThreadIsOk(s, t);
    match a
    case LockMu => TakeMuKeeps(s, t, pc.id, HoldsMu(pc.id));
    case UnlockMu => DropMuKeeps(s, t, pc.id, Idle);
  }

  lemma LockNextStep(s: State, t: Thread, found: bool)
    requires Invariant(s) && Enabled(s, t, TryLockNext(found))
    ensures Invariant(Apply(s, t, TryLockNext(found)))
  {
    hide Invariant, TokenOk, FlagOk, Frame;
    var pc := At(s, t);
    ThreadIsOk(s, t);
    if !found || pc.ids[pc.n] in s.op {
      MoveKeeps(s, t, Undoing(pc.ids, pc.n));
    } else {
      TakeOpKeeps(s, t, pc.ids[pc.n], CheckingNext(pc.ids, pc.n));
    }
  }

  lemma CheckNextStep(s: State, t: Thread, settled: bool)
    requires Invariant(s) && Enabled(s, t, CheckNext(settled))
    ensures Invariant(Apply(s, t, CheckNext(settled)))
  {
    hide Invariant, TokenOk, FlagOk, Frame, Enabled, Apply, ThreadOk;
    ThreadIsOk(s, t);
    var ids, n := CheckNextForm(s, t, settled);
    CheckedIsOk(s, t, ids, n, settled);
    MoveKeeps(s, t, Checked(s, ids, n, settled));
  }

  function Checked(s: State, ids: seq<Id>, n: nat, settled: bool): PC
    requires n < |ids|
  {
    if ids[n] in s.flags || !settled then Undoing(ids, n + 1)
    else if n + 1 < |ids| then LockingNext(ids, n + 1)
    else Setting(ids, 0)
  }

  lemma CheckNextForm(s: State, t: Thread, settled: bool) returns (ids: seq<Id>, n: nat)
    requires Enabled(s, t, CheckNext(settled))
    ensures At(s, t) == CheckingNext(ids, n) && n < |ids|
    ensures Apply(s, t, CheckNext(settled)) == Go(s, t, Checked(s, ids, n, settled))
  {
    ids, n := At(s, t).ids, At(s, t).n;
  }

  lemma CheckedIsOk(s: State, t: Thread, ids: seq<Id>, n: nat, settled: bool)
    requires At(s, t) == CheckingNext(ids, n) && n < |ids| && ThreadOk(s, t)
    ensures ThreadOk(Go(s, t, Checked(s, ids, n, settled)), t)
  {
  }

  lemma UndoStep(s: State, t: Thread)
    requires Invariant(s) && Enabled(s, t, UndoLast)
    ensures Invariant(Apply(s, t, UndoLast))
  {
    hide Invariant, TokenOk, FlagOk, Frame;
    var pc := At(s, t);
    ThreadIsOk(s, t);
    if pc.n > 0 { DropOpKeeps(s, t, pc.ids[pc.n - 1], Undoing(pc.ids, pc.n - 1)); } else { MoveKeeps(s, t, Idle); }
  }

  lemma CallReserveStep(s: State, t: Thread, ids: seq<Id>)
    requires Invariant(s) && Enabled(s, t, CallReserve(ids))
    ensures Invariant(Apply(s, t, CallReserve(ids)))
  {
    hide Invariant;
    MoveKeeps(s, t, if ids == [] then Unlocking(ids, 0) else LockingNext(ids, 0));
  }

  // ----- the steps on flags and tokens

  ghost predicate TokenKept(s: State, u: State, k: Token)
    requires k in s.tokens
  {
    k in u.tokens && TokenOk(u, k) && From(u, k) == From(s, k) && Ids(u, k) == Ids(s, k)
  }

  /** The threads and tokens a step does not concern. */
  lemma OthersKeep(s: State, u: State, t: Thread, own: set<Token>)
    requires Invariant(s) && Frame(s, u, t)
    requires forall j :: j in s.tokens && j !in own ==> j in u.tokens && u.tokens[j] == s.tokens[j]
    requires forall id :: id in s.flags && s.flags[id].ByToken? && s.flags[id].token !in own ==> SameFlag(s, u, id)
    requires forall j :: j in s.tokens && j !in own && s.tokens[j].Releasing? ==> s.tokens[j].releaser != t
    ensures forall o :: o != t ==> ThreadOk(u, o)
    ensures forall j :: j in s.tokens && j !in own ==> TokenKept(s, u, j)
  {
    hide ThreadOk, TokenOk, Invariant, Frame, TokenKept, SameFlag;
    forall o | o != t ensures ThreadOk(u, o) {
      ThreadIsOk(s, o);
      OtherThread(s, u, t, o);
    }
    forall j | j in s.tokens && j !in own ensures TokenKept(s, u, j) {
      TokenIsOk(s, j);
      OtherToken(s, u, t, own, j);
    }
  }

  lemma OtherToken(s: State, u: State, t: Thread, own: set<Token>, j: Token)
    requires Frame(s, u, t) && j in s.tokens && j !in own && TokenOk(s, j)
    requires j in u.tokens && u.tokens[j] == s.tokens[j]
    requires forall id :: id in s.flags && s.flags[id].ByToken? && s.flags[id].token !in own ==> SameFlag(s, u, id)
    requires s.tokens[j].Releasing? ==> s.tokens[j].releaser != t
    ensures TokenKept(s, u, j)
  {
  }

  /** A thread outside the release closure releases nothing. */
  lemma ReleasesNothing(s: State, t: Thread)
    requires Invariant(s) && !IsRelease(At(s, t))
    ensures forall j :: j in s.tokens && s.tokens[j].Releasing? ==> s.tokens[j].releaser != t
  {
    forall j | j in s.tokens && s.tokens[j].Releasing? ensures s.tokens[j].releaser != t {
      ReleaserStands(s, j);
    }
  }

  /** A thread in the release closure releases its own token only. */
  lemma ReleasesOwn(s: State, t: Thread, k: Token)
    requires Invariant(s) && k in s.tokens && s.tokens[k].Releasing? && s.tokens[k].releaser == t
    ensures forall j :: j in s.tokens && j != k && s.tokens[j].Releasing? ==> s.tokens[j].releaser != t
  {
    assert TokenOk(s, k);
    forall j | j in s.tokens && j != k && s.tokens[j].Releasing? ensures s.tokens[j].releaser != t {
      assert TokenOk(s, j);
    }
  }

  lemma FlagKeeps(s: State, u: State, id: Id)
    requires id in s.flags && FlagOk(s, id) && SameFlag(s, u, id)
    requires s.flags[id].ByToken? ==> TokenKept(s, u, s.flags[id].token)
    requires s.flags[id].ByThread? ==>
      var o := s.flags[id].thread; ClaimsOf(At(s, o), id) ==> ClaimsOf(At(u, o), id)
    ensures FlagOk(u, id)
  {
    hide ClaimsOf, From, Ids;
  }

  lemma FlagIsOk(s: State, id: Id)
    requires Invariant(s) && id in s.flags
    ensures FlagOk(s, id)
  {
  }

  lemma Assemble(u: State)
    requires forall t :: ThreadOk(u, t)
    requires forall k :: k in u.tokens ==> TokenOk(u, k)
    requires forall id :: id in u.flags ==> FlagOk(u, id)
    ensures Invariant(u)
  {
  }

  // setting a flag

  lemma SetFlagForm(s: State, t: Thread) returns (ids: seq<Id>, n: nat)
    requires Enabled(s, t, SetFlag)
    ensures At(s, t) == Setting(ids, n) && n < |ids| && ids[n] !in s.mu && Apply(s, t, SetFlag) == FlagSet(s, t, ids, n)
  {
    ids, n := At(s, t).ids, At(s, t).n;
  }

  function FlagSet(s: State, t: Thread, ids: seq<Id>, n: nat): State
    requires n < |ids|
  {
    Go(s.(flags := s.flags[ids[n] := ByThread(t)]), t, if n + 1 < |ids| then Setting(ids, n + 1) else Unlocking(ids, |ids|))
  }

  lemma SetFlagStep(s: State, t: Thread)
    requires Invariant(s) && Enabled(s, t, SetFlag)
    ensures Invariant(Apply(s, t, SetFlag))
  {
    hide Enabled, Apply, Invariant, Frame, ThreadOk, FlagOk, FlagSet;
    var ids, n := SetFlagForm(s, t);
    ThreadIsOk(s, t);
    SetFlagFrame(s, t, ids, n);
    SetFlagEffect(s, t, ids, n);
    ReleasesNothing(s, t);
    SetFlagRest(s, FlagSet(s, t, ids, n), t, ids[n]);
  }

  lemma SetFlagRest(s: State, u: State, t: Thread, id: Id)
    requires Invariant(s) && Frame(s, u, t) && ThreadOk(u, t) && u.tokens == s.tokens
    requires id !in s.flags && u.flags == s.flags[id := ByThread(t)] && FlagOk(u, id)
    requires forall o :: o != t ==> At(u, o) == At(s, o)
    requires forall i :: ClaimsOf(At(s, t), i) ==> ClaimsOf(At(u, t), i)
    requires forall j :: j in s.tokens && s.tokens[j].Releasing? ==> s.tokens[j].releaser != t
    ensures Invariant(u)
  {
    hide Invariant, ThreadOk, ClaimsOf, FlagOk, TokenOk, Frame;
    OthersKeep(s, u, t, {});
    forall i | i in u.flags ensures FlagOk(u, i) {
      if i != id {
        FlagIsOk(s, i);
        FlagKeeps(s, u, i);
      }
    }
    Assemble(u);
  }

  lemma SetFlagEffect(s: State, t: Thread, ids: seq<Id>, n: nat)
    requires At(s, t) == Setting(ids, n) && n < |ids| && ThreadOk(s, t)
    ensures var u := FlagSet(s, t, ids, n);
      && ThreadOk(u, t) && u.tokens == s.tokens
      && ids[n] !in s.flags && u.flags == s.flags[ids[n] := ByThread(t)] && FlagOk(u, ids[n])
      && (forall o :: o != t ==> At(u, o) == At(s, o))
      && forall i :: ClaimsOf(At(s, t), i) ==> ClaimsOf(At(u, t), i)
  {
    assert ClaimsOf(Setting(ids, n + 1), ids[n]);
  }

  lemma SetFlagFrame(s: State, t: Thread, ids: seq<Id>, n: nat)
    requires At(s, t) == Setting(ids, n) && n < |ids| && ids[n] !in s.mu && ThreadOk(s, t)
    ensures Frame(s, FlagSet(s, t, ids, n), t)
  {
    assert Owns(s.op, ids[n], t);
  }

  // unlocking after the flags are set, and handing them to a new token

  lemma UnlockLastStep(s: State, t: Thread, k: Token)
    requires Invariant(s) && Enabled(s, t, UnlockLast(k))
    ensures Invariant(Apply(s, t, UnlockLast(k)))
  {
    hide Invariant;
    var pc := At(s, t);
    ThreadIsOk(s, t);
    assert pc.Unlocking?;
    if pc.n > 0 {
      DropOpKeeps(s, t, pc.ids[pc.n - 1], Unlocking(pc.ids, pc.n - 1));
    } else {
      HandOverStep(s, t, k);
    }
  }

  lemma HandOverForm(s: State, t: Thread, k: Token) returns (ids: seq<Id>)
    requires Enabled(s, t, UnlockLast(k)) && At(s, t).Unlocking? && At(s, t).n == 0
    ensures At(s, t) == Unlocking(ids, 0) && k !in s.tokens && Apply(s, t, UnlockLast(k)) == HandedOver(s, t, k, ids)
  {
    ids := At(s, t).ids;
  }

  function HandedOver(s: State, t: Thread, k: Token, ids: seq<Id>): State {
    Go(s.(flags := HandOver(s.flags, ids, k), tokens := s.tokens[k := Held(ids)]), t, Idle)
  }

  lemma HandOverStep(s: State, t: Thread, k: Token)
    requires Invariant(s) && Enabled(s, t, UnlockLast(k)) && At(s, t).Unlocking? && At(s, t).n == 0
    ensures Invariant(Apply(s, t, UnlockLast(k)))
  {
    hide Invariant, ThreadOk, ClaimsOf, FlagOk, TokenOk, Frame, Apply, Enabled, HandedOver;
    var ids := HandOverForm(s, t, k);
    var u := HandedOver(s, t, k, ids);
    ThreadIsOk(s, t);
    HandOverEffect(s, t, k, ids);
    HandOverFrame(s, t, k, ids);
    HandOverToken(s, t, k, ids);
    ReleasesNothing(s, t);
    OthersKeep(s, u, t, {k});
    forall i | i in u.flags ensures FlagOk(u, i) {
      FlagIsOk(s, i);
      if i !in ids {
        HandOverOther(s, t, i);
        FlagKeeps(s, u, i);
      }
    }
    Assemble(u);
  }

  lemma HandOverEffect(s: State, t: Thread, k: Token, ids: seq<Id>)
    requires At(s, t) == Unlocking(ids, 0) && k !in s.tokens && ThreadOk(s, t)
    ensures var u := HandedOver(s, t, k, ids);
      && ThreadOk(u, t) && u.tokens == s.tokens[k := Held(ids)]
      && (forall o :: o != t ==> At(u, o) == At(s, o))
      && (forall i :: i in u.flags <==> i in s.flags)
      && (forall i :: i in s.flags && i !in ids ==> SameFlag(s, u, i))
      && (forall i :: i in ids ==> i in s.flags && s.flags[i] == ByThread(t))
  {
  }

  lemma HandOverFrame(s: State, t: Thread, k: Token, ids: seq<Id>)
    requires At(s, t) == Unlocking(ids, 0) && k !in s.tokens && ThreadOk(s, t)
    ensures Frame(s, HandedOver(s, t, k, ids), t)
  {
  }

  lemma HandOverToken(s: State, t: Thread, k: Token, ids: seq<Id>)
    requires At(s, t) == Unlocking(ids, 0) && k !in s.tokens && ThreadOk(s, t)
    ensures var u := HandedOver(s, t, k, ids); TokenOk(u, k) && forall i :: i in ids ==> i in u.flags && FlagOk(u, i)
  {
    var u := HandedOver(s, t, k, ids);
    forall i | i in ids ensures i in u.flags && FlagOk(u, i) {
      var j :| 0 <= j < |ids| && ids[j] == i;
      assert Ids(u, k)[j] == i;
    }
  }

  /** A flag of the thread that reserves is one of its ids. */
  lemma HandOverOther(s: State, t: Thread, i: Id)
    requires At(s, t).Unlocking? && i in s.flags && FlagOk(s, i) && i !in At(s, t).ids
    ensures s.flags[i] != ByThread(t)
  {
  }

  // releasing

  /** The first call of the release closure; later calls change nothing. */
  lemma CallReleaseStep(s: State, t: Thread, k: Token)
    requires Invariant(s) && Enabled(s, t, CallRelease(k))
    ensures Invariant(Apply(s, t, CallRelease(k)))
  {
    hide Invariant, TokenOk, FlagOk, Frame, ReleaseCalled;
    if s.tokens[k].Held? {
      TokenIsOk(s, k);
      CallReleaseForm(s, t, k);
      hide Enabled, Apply, ThreadOk;
      CallReleaseEffect(s, t, k);
      CallReleaseToken(s, t, k);
      ReleasesNothing(s, t);
      OwnTokenStep(s, ReleaseCalled(s, t, k), t, k);
    }
  }

  function ReleaseCalled(s: State, t: Thread, k: Token): State
    requires k in s.tokens && s.tokens[k].Held?
  {
    Go(s.(tokens := s.tokens[k := Releasing(s.tokens[k].ids, t, 0)]), t, ReleaseLocking(k, 0))
  }

  lemma CallReleaseForm(s: State, t: Thread, k: Token)
    requires Enabled(s, t, CallRelease(k)) && k in s.tokens && s.tokens[k].Held?
    ensures At(s, t) == Idle && Apply(s, t, CallRelease(k)) == ReleaseCalled(s, t, k)
  {
  }

  lemma TokenIsOk(s: State, k: Token)
    requires Invariant(s) && k in s.tokens
    ensures TokenOk(s, k)
  {
  }

  /** A step on the thread's own token that leaves the flags as they are. */
  lemma OwnTokenStep(s: State, u: State, t: Thread, k: Token)
    requires Invariant(s) && Frame(s, u, t) && ThreadOk(u, t) && u.flags == s.flags
    requires forall j :: j in s.tokens && j != k && s.tokens[j].Releasing? ==> s.tokens[j].releaser != t
    requires k in s.tokens && k in u.tokens && (forall j :: j != k ==> (j in u.tokens <==> j in s.tokens))
    requires forall j :: j in s.tokens && j != k ==> u.tokens[j] == s.tokens[j]
    requires TokenOk(u, k)
    requires forall i :: i in s.flags && s.flags[i] == ByToken(k) && FlagOk(s, i) ==> FlagOk(u, i)
    requires forall i :: !ClaimsOf(At(s, t), i)
    ensures Invariant(u)
  {
    hide Invariant, ThreadOk, ClaimsOf, FlagOk, TokenOk, Frame, From, Ids;
    FrameMoves(s, u, t);
    OthersKeep(s, u, t, {k});
    forall i | i in u.flags ensures FlagOk(u, i) {
      FlagIsOk(s, i);
      if s.flags[i] != ByToken(k) { FlagKeeps(s, u, i); }
    }
    Assemble(u);
  }

  lemma FrameMoves(s: State, u: State, t: Thread)
    requires Frame(s, u, t)
    ensures forall o :: o != t ==> At(u, o) == At(s, o)
  {
  }

  lemma CallReleaseEffect(s: State, t: Thread, k: Token)
    requires At(s, t) == Idle && k in s.tokens && s.tokens[k].Held?
    ensures var u := ReleaseCalled(s, t, k);
      && Frame(s, u, t) && ThreadOk(u, t) && u.flags == s.flags
      && k in u.tokens && (forall j :: j != k ==> (j in u.tokens <==> j in s.tokens))
      && (forall j :: j in s.tokens && j != k ==> u.tokens[j] == s.tokens[j])
  {
  }

  lemma CallReleaseToken(s: State, t: Thread, k: Token)
    requires At(s, t) == Idle && k in s.tokens && s.tokens[k].Held? && TokenOk(s, k)
    ensures var u := ReleaseCalled(s, t, k);
      && TokenOk(u, k) && forall i :: i in s.flags && s.flags[i] == ByToken(k) && FlagOk(s, i) ==> FlagOk(u, i)
  {
  }

  /** A token being released by the thread that stands in its release closure. */
  predicate InRelease(s: State, t: Thread, k: Token, n: nat) {
    && k in s.tokens && s.tokens[k].Releasing? && n <= |s.tokens[k].ids|
    && s.tokens[k].releaser == t && s.tokens[k].n == n
  }

  lemma LockToReleaseStep(s: State, t: Thread)
    requires Invariant(s) && Enabled(s, t, LockToRelease)
    ensures Invariant(Apply(s, t, LockToRelease))
  {
    hide Invariant, TokenOk, FlagOk, Frame, ReleaseLocked, Enabled, Apply, ThreadOk;
    ThreadIsOk(s, t);
    var k, n := LockToReleaseForm(s, t);
    TokenIsOk(s, k);
    LockToReleaseEffect(s, t, k, n);
    LockToReleaseToken(s, t, k, n);
    ReleasesOwn(s, t, k);
    OwnTokenStep(s, ReleaseLocked(s, t, k, n), t, k);
  }

  /** The next op lock of the release closure is taken, or the closure is done. */
  function ReleaseLocked(s: State, t: Thread, k: Token, n: nat): State
    requires k in s.tokens && s.tokens[k].Releasing?
  {
    if n < |s.tokens[k].ids| then Go(s.(op := Take(s.op, s.tokens[k].ids[n], t)), t, ReleaseClearing(k, n))
    else Go(s.(tokens := s.tokens[k := Released]), t, Idle)
  }

  lemma LockToReleaseForm(s: State, t: Thread) returns (k: Token, n: nat)
    requires Enabled(s, t, LockToRelease) && ThreadOk(s, t)
    ensures At(s, t) == ReleaseLocking(k, n) && InRelease(s, t, k, n)
    ensures n < |s.tokens[k].ids| ==> s.tokens[k].ids[n] !in s.op
    ensures Apply(s, t, LockToRelease) == ReleaseLocked(s, t, k, n)
  {
    k, n := At(s, t).token, At(s, t).n;
  }

  lemma LockToReleaseEffect(s: State, t: Thread, k: Token, n: nat)
    requires At(s, t) == ReleaseLocking(k, n) && InRelease(s, t, k, n)
    requires n < |s.tokens[k].ids| ==> s.tokens[k].ids[n] !in s.op
    ensures var u := ReleaseLocked(s, t, k, n);
      && Frame(s, u, t) && ThreadOk(u, t) && u.flags == s.flags
      && k in u.tokens && (forall j :: j != k ==> (j in u.tokens <==> j in s.tokens))
      && (forall j :: j in s.tokens && j != k ==> u.tokens[j] == s.tokens[j])
  {
  }

  lemma LockToReleaseToken(s: State, t: Thread, k: Token, n: nat)
    requires At(s, t) == ReleaseLocking(k, n) && InRelease(s, t, k, n) && TokenOk(s, k)
    ensures var u := ReleaseLocked(s, t, k, n);
      && k in u.tokens && TokenOk(u, k)
      && forall i :: i in s.flags && s.flags[i] == ByToken(k) && FlagOk(s, i) ==> FlagOk(u, i)
  {
  }

  lemma UnlockReleasedStep(s: State, t: Thread)
    requires Invariant(s) && Enabled(s, t, UnlockReleased)
    ensures Invariant(Apply(s, t, UnlockReleased))
  {
    hide Invariant, TokenOk, FlagOk, Frame, ReleaseUnlocked, Enabled, Apply, ThreadOk;
    ThreadIsOk(s, t);
    var k, n := UnlockReleasedForm(s, t);
    TokenIsOk(s, k);
    UnlockReleasedEffect(s, t, k, n);
    UnlockReleasedToken(s, t, k, n);
    ReleasesOwn(s, t, k);
    OwnTokenStep(s, ReleaseUnlocked(s, t, k, n), t, k);
  }

  function ReleaseUnlocked(s: State, t: Thread, k: Token, n: nat): State
    requires k in s.tokens && s.tokens[k].Releasing? && n < |s.tokens[k].ids|
  {
    var ids := s.tokens[k].ids;
    Go(s.(op := Drop(s.op, ids[n]), tokens := s.tokens[k := Releasing(ids, t, n + 1)]), t, ReleaseLocking(k, n + 1))
  }

  lemma UnlockReleasedForm(s: State, t: Thread) returns (k: Token, n: nat)
    requires Enabled(s, t, UnlockReleased) && ThreadOk(s, t)
    ensures At(s, t) == ReleaseUnlocking(k, n) && InRelease(s, t, k, n) && n < |s.tokens[k].ids|
    ensures Owns(s.op, s.tokens[k].ids[n], t) && Apply(s, t, UnlockReleased) == ReleaseUnlocked(s, t, k, n)
  {
    k, n := At(s, t).token, At(s, t).n;
  }

  lemma UnlockReleasedEffect(s: State, t: Thread, k: Token, n: nat)
    requires At(s, t) == ReleaseUnlocking(k, n) && InRelease(s, t, k, n) && n < |s.tokens[k].ids|
    requires Owns(s.op, s.tokens[k].ids[n], t)
    ensures var u := ReleaseUnlocked(s, t, k, n);
      && Frame(s, u, t) && ThreadOk(u, t) && u.flags == s.flags
      && k in u.tokens && (forall j :: j != k ==> (j in u.tokens <==> j in s.tokens))
      && (forall j :: j in s.tokens && j != k ==> u.tokens[j] == s.tokens[j])
  {
  }

  lemma UnlockReleasedToken(s: State, t: Thread, k: Token, n: nat)
    requires At(s, t) == ReleaseUnlocking(k, n) && InRelease(s, t, k, n) && n < |s.tokens[k].ids| && TokenOk(s, k)
    ensures var u := ReleaseUnlocked(s, t, k, n);
      && k in u.tokens && TokenOk(u, k)
      && forall i :: i in s.flags && s.flags[i] == ByToken(k) && FlagOk(s, i) ==> FlagOk(u, i)
  {
  }

  lemma ClearFlagStep(s: State, t: Thread)
    requires Invariant(s) && Enabled(s, t, ClearFlag)
    ensures Invariant(Apply(s, t, ClearFlag))
  {
    hide Invariant, TokenOk, FlagOk, Frame, FlagCleared, Enabled, Apply, ThreadOk;
    ThreadIsOk(s, t);
    var k, n := ClearFlagForm(s, t);
    TokenIsOk(s, k);
    ClearFlagEffect(s, t, k, n);
    ClearFlagToken(s, t, k, n);
    ReleasesOwn(s, t, k);
    ClearFlagRest(s, FlagCleared(s, t, k, n), t, k);
  }

  function FlagCleared(s: State, t: Thread, k: Token, n: nat): State
    requires k in s.tokens && s.tokens[k].Releasing? && n < |s.tokens[k].ids|
  {
    Go(s.(flags := Drop(s.flags, s.tokens[k].ids[n])), t, ReleaseUnlocking(k, n))
  }

  lemma ClearFlagForm(s: State, t: Thread) returns (k: Token, n: nat)
    requires Enabled(s, t, ClearFlag) && ThreadOk(s, t)
    ensures At(s, t) == ReleaseClearing(k, n) && InRelease(s, t, k, n) && n < |s.tokens[k].ids|
    ensures Owns(s.op, s.tokens[k].ids[n], t) && s.tokens[k].ids[n] !in s.mu
    ensures Apply(s, t, ClearFlag) == FlagCleared(s, t, k, n)
  {
    k, n := At(s, t).token, At(s, t).n;
  }

  lemma ClearFlagRest(s: State, u: State, t: Thread, k: Token)
    requires Invariant(s) && Frame(s, u, t) && ThreadOk(u, t) && u.tokens == s.tokens && k in u.tokens && TokenOk(u, k)
    requires forall o :: o != t ==> At(u, o) == At(s, o)
    requires forall i :: !ClaimsOf(At(s, t), i)
    requires forall i :: i in u.flags ==> i in s.flags
    requires forall i :: i in s.flags && s.flags[i] != ByToken(k) ==> SameFlag(s, u, i)
    requires forall i :: i in u.flags && s.flags[i] == ByToken(k) && FlagOk(s, i) ==> FlagOk(u, i)
    requires forall j :: j in s.tokens && j != k && s.tokens[j].Releasing? ==> s.tokens[j].releaser != t
    ensures Invariant(u)
  {
    hide Invariant, ThreadOk, ClaimsOf, FlagOk, TokenOk, Frame;
    OthersKeep(s, u, t, {k});
    forall i | i in u.flags ensures FlagOk(u, i) {
      FlagIsOk(s, i);
      if s.flags[i] != ByToken(k) { FlagKeeps(s, u, i); }
    }
    Assemble(u);
  }

  lemma ClearFlagEffect(s: State, t: Thread, k: Token, n: nat)
    requires At(s, t) == ReleaseClearing(k, n) && InRelease(s, t, k, n) && n < |s.tokens[k].ids|
    requires Owns(s.op, s.tokens[k].ids[n], t) && s.tokens[k].ids[n] !in s.mu && TokenOk(s, k)
    ensures var u := FlagCleared(s, t, k, n);
      && Frame(s, u, t) && ThreadOk(u, t) && u.tokens == s.tokens
      && (forall o :: o != t ==> At(u, o) == At(s, o))
      && (forall i :: i in u.flags ==> i in s.flags)
      && (forall i :: i in s.flags && s.flags[i] != ByToken(k) ==> SameFlag(s, u, i))
  {
    ClearedFlagIsItsOwn(s, t, k, n);
  }

  lemma ClearedFlagIsItsOwn(s: State, t: Thread, k: Token, n: nat)
    requires At(s, t) == ReleaseClearing(k, n) && InRelease(s, t, k, n) && n < |s.tokens[k].ids| && TokenOk(s, k)
    ensures var i := s.tokens[k].ids[n]; i in s.flags && s.flags[i] == ByToken(k)
  {
  }

  lemma ClearFlagToken(s: State, t: Thread, k: Token, n: nat)
    requires At(s, t) == ReleaseClearing(k, n) && InRelease(s, t, k, n) && n < |s.tokens[k].ids| && TokenOk(s, k)
    ensures var u := FlagCleared(s, t, k, n);
      && k in u.tokens && TokenOk(u, k)
      && forall i :: i in u.flags && i in s.flags && s.flags[i] == ByToken(k) && FlagOk(s, i) ==> FlagOk(u, i)
  {
  }

  // ----- runs

  lemma StepKeeps(s: State, t: Thread, a: Action)
    requires Invariant(s) && Enabled(s, t, a)
    ensures Invariant(Apply(s, t, a))
  {
    hide Invariant, Enabled, Apply;
    match a
    case Call(_, _) => OperationMoves(s, t, a);
    case TryLock => OperationLocks(s, t, a);
    case CheckFlag(_) => OperationMoves(s, t, a);
    case EndBody => OperationMoves(s, t, a);
    case Unlock => OperationLocks(s, t, a);
    case CallCommand(_) => CommandMoves(s, t, a);
    case LockMu => CommandLocks(s, t, a);
    case CheckCommand(_) => CommandMoves(s, t, a);
    case EndCommand => CommandMoves(s, t, a);
    case UnlockMu => CommandLocks(s, t, a);
    case CallReserve(ids) => CallReserveStep(s, t, ids);
    case TryLockNext(found) => LockNextStep(s, t, found);
    case CheckNext(settled) => CheckNextStep(s, t, settled);
    case SetFlag => SetFlagStep(s, t);
    case UnlockLast(token) => UnlockLastStep(s, t, token);
    case UndoLast => UndoStep(s, t);
    case CallRelease(token) => CallReleaseStep(s, t, token);
    case LockToRelease => LockToReleaseStep(s, t);
    case ClearFlag => ClearFlagStep(s, t);
    case UnlockReleased => UnlockReleasedStep(s, t);
  }

  /** An interleaving: each step is taken by some thread and is enabled where it is taken. */
  predicate IsRun(s: State, steps: seq<(Thread, Action)>)
    decreases |steps|
  {
    steps == [] || (Enabled(s, steps[0].0, steps[0].1) && IsRun(Apply(s, steps[0].0, steps[0].1), steps[1..]))
  }

  function After(s: State, steps: seq<(Thread, Action)>): State
    requires IsRun(s, steps)
    decreases |steps|
  {
    if steps == [] then s else After(Apply(s, steps[0].0, steps[0].1), steps[1..])
  }

  lemma {:induction false} RunKeeps(s: State, steps: seq<(Thread, Action)>)
    requires Invariant(s) && IsRun(s, steps)
    ensures Invariant(After(s, steps))
    decreases |steps|
  {
    hide Invariant, Enabled, Apply;
    if steps != [] {
      StepKeeps(s, steps[0].0, steps[0].1);
      RunKeeps(Apply(s, steps[0].0, steps[0].1), steps[1..]);
    }
  }

  /** A token reserves an instance that is still in its list. */
  predicate IsReserved(s: State, token: Token, id: Id) {
    token in s.tokens && From(s, token) <= |Ids(s, token)| && Reserves(s, token, id)
  }

  /** Whether a thread is at work on an instance, other than as the deployment. */
  predicate WorksOn(pc: PC, id: Id) {
    (pc.InBody? && pc.kind != Deploy && pc.id == id) || (pc.InCommand? && pc.id == id)
  }

  /** In every interleaving: while the flag of an instance is set, no Start, Stop, Kill, Restart, file
      mutation or Command works on it. That begins before the reservation is handed out, while its op
      locks are still being given back. */
  lemma FlaggedIsUntouched(steps: seq<(Thread, Action)>, id: Id, t: Thread)
    requires IsRun(Initial(), steps) && id in After(Initial(), steps).flags
    ensures !WorksOn(At(After(Initial(), steps), t), id)
  {
    hide Invariant, IsRun, After;
    var s := After(Initial(), steps);
    InitialIsFine();
    RunKeeps(Initial(), steps);
    ThreadIsOk(s, t);
    FlagIsOk(s, id);
  }

  /** In every interleaving: while an instance is reserved no Start, Stop, Kill, Restart, file
      mutation or Command works on it, although its op lock is free. */
  lemma ReservedIsUntouched(steps: seq<(Thread, Action)>, token: Token, id: Id, t: Thread)
    requires IsRun(Initial(), steps) && IsReserved(After(Initial(), steps), token, id)
    ensures !WorksOn(At(After(Initial(), steps), t), id)
  {
    var s := After(Initial(), steps);
    InitialIsFine();
    RunKeeps(Initial(), steps);
    ThreadIsOk(s, t);
    TokenIsOk(s, token);
  }

  /** In every interleaving an instance belongs to one reservation at most. */
  lemma ReservationsAreDisjoint(steps: seq<(Thread, Action)>, j: Token, k: Token, id: Id)
    requires IsRun(Initial(), steps)
    requires IsReserved(After(Initial(), steps), j, id) && IsReserved(After(Initial(), steps), k, id)
    ensures j == k
  {
    var s := After(Initial(), steps);
    InitialIsFine();
    RunKeeps(Initial(), steps);
    TokenIsOk(s, j);
    TokenIsOk(s, k);
  }

  /** In every interleaving a reservation is all or nothing: a token that is held has every instance
      it was asked for, and an attempt that was given up has left no flag behind: each flag belongs to
      a token, or to an attempt that has checked everything and is past failing. */
  lemma AllOrNothing(steps: seq<(Thread, Action)>, token: Token, id: Id)
    requires IsRun(Initial(), steps)
    ensures var s := After(Initial(), steps);
      && (token in s.tokens && s.tokens[token].Held? && id in s.tokens[token].ids ==> IsReserved(s, token, id) && id in s.flags)
      && (id in s.flags ==>
           match s.flags[id]
           case ByToken(k) => IsReserved(s, k, id)
           case ByThread(t) => At(s, t).Setting? || At(s, t).Unlocking?)
  {
    var s := After(Initial(), steps);
    InitialIsFine();
    RunKeeps(Initial(), steps);
    if token in s.tokens && s.tokens[token].Held? && id in s.tokens[token].ids {
      TokenIsOk(s, token);
      var i :| 0 <= i < |s.tokens[token].ids| && s.tokens[token].ids[i] == id;
      assert Ids(s, token)[i] == id;
    }
    if id in s.flags { FlagIsOk(s, id); }
  }

  function Rank(s: State, token: Token): nat {
    if token !in s.tokens then 0
    else match s.tokens[token]
      case Held(_) => 1
      case Releasing(ids, _, n) => 2
      case Released => 3
  }

  /** A reservation is handed out once and released once: its state only moves forward, and one
      thread alone releases it. */
  lemma ReleasedOnce(s: State, t: Thread, a: Action, token: Token)
    requires Invariant(s) && Enabled(s, t, a)
    ensures Rank(s, token) <= Rank(Apply(s, t, a), token)
    ensures Rank(s, token) == 2 && Rank(Apply(s, t, a), token) == 2 ==>
      && Apply(s, t, a).tokens[token].releaser == s.tokens[token].releaser
      && s.tokens[token].n <= Apply(s, t, a).tokens[token].n
  {
    hide Invariant, ThreadOk, Enabled, Apply;
    ThreadIsOk(s, t);
    RankRises(s, t, a, token);
    if Rank(s, token) == 2 && Rank(Apply(s, t, a), token) == 2 { OneReleaser(s, t, a, token); }
  }

  lemma RankRises(s: State, t: Thread, a: Action, token: Token)
    requires ThreadOk(s, t) && Enabled(s, t, a)
    ensures Rank(s, token) <= Rank(Apply(s, t, a), token)
  {
    hide Distinct, Holds, Claimed, Unflagged, Owns, HandOver;
  }

  lemma OneReleaser(s: State, t: Thread, a: Action, token: Token)
    requires ThreadOk(s, t) && Enabled(s, t, a)
    requires token in s.tokens && s.tokens[token].Releasing?
    requires token in Apply(s, t, a).tokens && Apply(s, t, a).tokens[token].Releasing?
    ensures Apply(s, t, a).tokens[token].releaser == s.tokens[token].releaser
    ensures s.tokens[token].n <= Apply(s, t, a).tokens[token].n
  {
    hide Distinct, Holds, Claimed, Unflagged, Owns, HandOver;
  }

  /** Once released, a token holds no flag. */
  lemma ReleasedHoldsNothing(steps: seq<(Thread, Action)>, token: Token, id: Id)
    requires IsRun(Initial(), steps)
    requires token in After(Initial(), steps).tokens && After(Initial(), steps).tokens[token].Released?
    ensures id in After(Initial(), steps).flags ==> After(Initial(), steps).flags[id] != ByToken(token)
  {
    var s := After(Initial(), steps);
    InitialIsFine();
    RunKeeps(Initial(), steps);
    if id in s.flags { FlagIsOk(s, id); }
  }

  // ----- what goes through when nobody else moves

  lemma {:induction false} RunsJoin(s: State, a: seq<(Thread, Action)>, b: seq<(Thread, Action)>)
    requires IsRun(s, a) && IsRun(After(s, a), b)
    ensures IsRun(s, a + b) && After(s, a + b) == After(After(s, a), b)
    decreases |a|
  {
    hide Enabled, Apply;
    if a == [] {
      assert a + b == b;
    } else {
      RunsJoin(Apply(s, a[0].0, a[0].1), a[1..], b);
      assert (a + b)[1..] == a[1..] + b;
    }
  }

  lemma OneStep(s: State, t: Thread, a: Action)
    requires Enabled(s, t, a)
    ensures IsRun(s, [(t, a)]) && After(s, [(t, a)]) == Apply(s, t, a)
  {
    hide Enabled, Apply;
    assert [(t, a)][1..] == [];
  }

  /** A step, and a run from where it leads. */
  lemma StepThen(s: State, t: Thread, a: Action, rest: seq<(Thread, Action)>)
    requires Enabled(s, t, a) && IsRun(Apply(s, t, a), rest)
    ensures IsRun(s, [(t, a)] + rest) && After(s, [(t, a)] + rest) == After(Apply(s, t, a), rest)
  {
    hide Enabled, Apply, IsRun, After;
    OneStep(s, t, a);
    RunsJoin(s, [(t, a)], rest);
  }

  /** Where its op lock is free and nothing else stands in the way, an operation works on an instance
      exactly if it is not flagged; a deployment works on it flagged or not, so on the instances of
      its own reservation. */
  lemma EntersUnlessFlagged(s: State, t: Thread, kind: Kind, id: Id)
    requires At(s, t) == Idle && id !in s.op && id !in s.mu
    ensures var steps := [(t, Call(kind, id)), (t, TryLock), (t, CheckFlag(true))];
      && IsRun(s, steps)
      && At(After(s, steps), t) == (if kind == Deploy || id !in s.flags then InBody(kind, id) else Leaving(id))
      && After(s, steps).flags == s.flags
  {
    hide IsRun, After, Enabled, Apply, At;
    var s2 := LocksFor(s, t, kind, id);
    ChecksFor(s2, t, kind, id);
    OneStep(s2, t, CheckFlag(true));
    RunsJoin(s, [(t, Call(kind, id)), (t, TryLock)], [(t, CheckFlag(true))]);
    assert [(t, Call(kind, id)), (t, TryLock)] + [(t, CheckFlag(true))] == [(t, Call(kind, id)), (t, TryLock), (t, CheckFlag(true))];
  }

  lemma LocksFor(s: State, t: Thread, kind: Kind, id: Id) returns (u: State)
    requires At(s, t) == Idle && id !in s.op
    ensures IsRun(s, [(t, Call(kind, id)), (t, TryLock)]) && u == After(s, [(t, Call(kind, id)), (t, TryLock)])
    ensures At(u, t) == HoldsOp(kind, id) && u.flags == s.flags && u.mu == s.mu
  {
    hide IsRun, After;
    TwoSteps(s, t, Call(kind, id), TryLock);
    u := Apply(Apply(s, t, Call(kind, id)), t, TryLock);
  }

  lemma ChecksFor(s: State, t: Thread, kind: Kind, id: Id)
    requires At(s, t) == HoldsOp(kind, id) && id !in s.mu
    ensures Enabled(s, t, CheckFlag(true)) && Apply(s, t, CheckFlag(true)).flags == s.flags
    ensures At(Apply(s, t, CheckFlag(true)), t) == if kind == Deploy || id !in s.flags then InBody(kind, id) else Leaving(id)
  {
  }

  /** Where mu is free, a command is sent to a running instance exactly if that is not flagged. */
  lemma CommandsUnlessFlagged(s: State, t: Thread, id: Id, running: bool)
    requires At(s, t) == Idle && id !in s.mu
    ensures var steps := [(t, CallCommand(id)), (t, LockMu), (t, CheckCommand(running))];
      && IsRun(s, steps)
      && At(After(s, steps), t) == if running && id !in s.flags then InCommand(id) else LeavingMu(id)
  {
    hide IsRun, After, Enabled, Apply, At;
    var u := LocksMuFor(s, t, id);
    ChecksCommand(u, t, id, running);
    OneStep(u, t, CheckCommand(running));
    RunsJoin(s, [(t, CallCommand(id)), (t, LockMu)], [(t, CheckCommand(running))]);
    assert [(t, CallCommand(id)), (t, LockMu)] + [(t, CheckCommand(running))] == [(t, CallCommand(id)), (t, LockMu), (t, CheckCommand(running))];
  }

  lemma LocksMuFor(s: State, t: Thread, id: Id) returns (u: State)
    requires At(s, t) == Idle && id !in s.mu
    ensures IsRun(s, [(t, CallCommand(id)), (t, LockMu)]) && u == After(s, [(t, CallCommand(id)), (t, LockMu)])
    ensures At(u, t) == HoldsMu(id) && u.flags == s.flags
  {
    hide IsRun, After;
    TwoSteps(s, t, CallCommand(id), LockMu);
    u := Apply(Apply(s, t, CallCommand(id)), t, LockMu);
  }

  lemma ChecksCommand(s: State, t: Thread, id: Id, running: bool)
    requires At(s, t) == HoldsMu(id)
    ensures Enabled(s, t, CheckCommand(running))
    ensures At(Apply(s, t, CheckCommand(running)), t) == if running && id !in s.flags then InCommand(id) else LeavingMu(id)
  {
  }

  function GivenTo<V>(ids: seq<Id>, v: V): map<Id, V> {
    map i | i in ids :: v
  }

  function AsSet(ids: seq<Id>): set<Id> {
    set i | i in ids
  }

  /** Neither held nor flagged. */
  predicate Free(s: State, ids: seq<Id>) {
    forall i :: i in ids ==> i !in s.op && i !in s.mu && i !in s.flags
  }

  lemma TwoSteps(s: State, t: Thread, a: Action, b: Action)
    requires Enabled(s, t, a) && Enabled(Apply(s, t, a), t, b)
    ensures IsRun(s, [(t, a), (t, b)]) && After(s, [(t, a), (t, b)]) == Apply(Apply(s, t, a), t, b)
  {
    hide Enabled, Apply, IsRun, After;
    OneStep(Apply(s, t, a), t, b);
    StepThen(s, t, a, [(t, b)]);
    assert [(t, a)] + [(t, b)] == [(t, a), (t, b)];
  }

  lemma LocksOne(s: State, t: Thread, ids: seq<Id>, n: nat) returns (u: State, steps: seq<(Thread, Action)>)
    requires n < |ids| && At(s, t) == LockingNext(ids, n) && ids[n] !in s.op && ids[n] !in s.mu && ids[n] !in s.flags
    ensures IsRun(s, steps) && u == After(s, steps)
    ensures u == s.(op := s.op[ids[n] := t], pcs := u.pcs) && At(u, t) == if n + 1 < |ids| then LockingNext(ids, n + 1) else Setting(ids, 0)
  {
    hide IsRun, After;
    steps := [(t, TryLockNext(true)), (t, CheckNext(true))];
    TwoSteps(s, t, TryLockNext(true), CheckNext(true));
    u := Apply(Apply(s, t, TryLockNext(true)), t, CheckNext(true));
  }

  lemma {:induction false} LocksAll(s: State, t: Thread, ids: seq<Id>, n: nat) returns (steps: seq<(Thread, Action)>)
    requires n < |ids| && At(s, t) == LockingNext(ids, n) && Distinct(ids, |ids|) && Free(s, ids[n..])
    ensures IsRun(s, steps)
    ensures var u := After(s, steps);
      At(u, t) == Setting(ids, 0) && u == s.(op := s.op + GivenTo(ids[n..], t), pcs := u.pcs)
    decreases |ids| - n
  {
    hide IsRun, After, Distinct, Enabled, Apply, At, Free, GivenTo;
    FirstIsFree(s, ids, n);
    var u;
    u, steps := LocksOne(s, t, ids, n);
    if n + 1 < |ids| {
      LaterAreFree(s, u, t, ids, n);
      var rest := LocksAll(u, t, ids, n + 1);
      RunsJoin(s, steps, rest);
      steps := steps + rest;
    }
    GivenNext(s.op, ids, n, t);
  }

  lemma FirstIsFree(s: State, ids: seq<Id>, n: nat)
    requires n < |ids| && Free(s, ids[n..])
    ensures ids[n] !in s.op && ids[n] !in s.mu && ids[n] !in s.flags
  {
    assert ids[n..][0] == ids[n];
  }

  lemma LaterAreFree(s: State, u: State, t: Thread, ids: seq<Id>, n: nat)
    requires n < |ids| && Distinct(ids, |ids|) && Free(s, ids[n..]) && u == s.(op := s.op[ids[n] := t], pcs := u.pcs)
    ensures Free(u, ids[n + 1..])
  {
    forall i | i in ids[n + 1..] ensures i != ids[n] && i in ids[n..] {
      var k :| 0 <= k < |ids| - n - 1 && ids[n + 1..][k] == i;
      assert ids[n + 1 + k] == i && ids[n..][k + 1] == i;
    }
  }

  lemma GivenNext<V>(m: map<Id, V>, ids: seq<Id>, n: nat, v: V)
    requires n < |ids|
    ensures m[ids[n] := v] + (if n + 1 < |ids| then GivenTo(ids[n + 1..], v) else map[]) == m + GivenTo(ids[n..], v)
  {
    assert ids[n..] == [ids[n]] + ids[n + 1..];
  }

  lemma SetsOne(s: State, t: Thread, ids: seq<Id>, n: nat) returns (u: State)
    requires n < |ids| && At(s, t) == Setting(ids, n) && ids[n] !in s.mu
    ensures Enabled(s, t, SetFlag) && u == Apply(s, t, SetFlag)
    ensures u == s.(flags := s.flags[ids[n] := ByThread(t)], pcs := u.pcs)
    ensures At(u, t) == if n + 1 < |ids| then Setting(ids, n + 1) else Unlocking(ids, |ids|)
  {
    u := Apply(s, t, SetFlag);
  }

  lemma {:induction false} SetsAll(s: State, t: Thread, ids: seq<Id>, n: nat) returns (steps: seq<(Thread, Action)>)
    requires n < |ids| && At(s, t) == Setting(ids, n) && forall i :: i in ids ==> i !in s.mu
    ensures IsRun(s, steps)
    ensures var u := After(s, steps);
      At(u, t) == Unlocking(ids, |ids|) && u == s.(flags := s.flags + GivenTo(ids[n..], ByThread(t)), pcs := u.pcs)
    decreases |ids| - n
  {
    hide IsRun, After, Enabled, Apply, At, GivenTo;
    assert ids[n] in ids;
    var u := SetsOne(s, t, ids, n);
    OneStep(s, t, SetFlag);
    steps := [(t, SetFlag)];
    if n + 1 < |ids| {
      var rest := SetsAll(u, t, ids, n + 1);
      StepThen(s, t, SetFlag, rest);
      steps := steps + rest;
    }
    GivenNext(s.flags, ids, n, ByThread(t));
  }

  lemma {:induction false} UnlocksAll(s: State, t: Thread, ids: seq<Id>, n: nat, k: Token) returns (steps: seq<(Thread, Action)>)
    requires n <= |ids| && At(s, t) == Unlocking(ids, n) && k !in s.tokens
    ensures IsRun(s, steps)
    ensures var u := After(s, steps);
      At(u, t) == Idle
      && u == s.(op := s.op - AsSet(ids[..n]), flags := HandOver(s.flags, ids, k), tokens := s.tokens[k := Held(ids)], pcs := u.pcs)
    decreases n
  {
    hide IsRun, After, HandOver;
    var s1 := Apply(s, t, UnlockLast(k));
    if n > 0 {
      var rest := UnlocksAll(s1, t, ids, n - 1, k);
      StepThen(s, t, UnlockLast(k), rest);
      steps := [(t, UnlockLast(k))] + rest;
      assert ids[..n] == ids[..n - 1] + [ids[n - 1]];
      assert s.op - {ids[n - 1]} - AsSet(ids[..n - 1]) == s.op - AsSet(ids[..n]);
    } else {
      OneStep(s, t, UnlockLast(k));
      steps := [(t, UnlockLast(k))];
      assert s.op - AsSet(ids[..0]) == s.op;
    }
  }

  /** A reservation of different instances that nobody holds or has reserved goes through: it ends with
      all of them flagged for the new token and no lock held. */
  lemma ReserveSucceeds(s: State, t: Thread, ids: seq<Id>, k: Token) returns (steps: seq<(Thread, Action)>)
    requires At(s, t) == Idle && Distinct(ids, |ids|) && Free(s, ids) && k !in s.tokens
    ensures IsRun(s, steps)
    ensures var u := After(s, steps);
      && At(u, t) == Idle && u.tokens == s.tokens[k := Held(ids)] && u.op == s.op && u.mu == s.mu
      && u.flags == s.flags + GivenTo(ids, ByToken(k))
  {
    hide IsRun, After, Distinct, Enabled, Apply, At, HandOver, GivenTo, AsSet;
    var s1 := CallsReserve(s, t, ids);
    var rest;
    if ids == [] {
      rest := UnlocksAll(s1, t, ids, 0, k);
    } else {
      assert ids[0..] == ids;
      var locks := LocksAll(s1, t, ids, 0);
      var s2 := After(s1, locks);
      var sets := SetsAll(s2, t, ids, 0);
      var s3 := After(s2, sets);
      var unlocks := UnlocksAll(s3, t, ids, |ids|, k);
      RunsJoin(s2, sets, unlocks);
      RunsJoin(s1, locks, sets + unlocks);
      rest := locks + (sets + unlocks);
      assert ids[..|ids|] == ids;
    }
    TakenAndDropped(s.op, ids, t);
    StepThen(s, t, CallReserve(ids), rest);
    steps := [(t, CallReserve(ids))] + rest;
    HandedOverAll(s.flags, ids, t, k);
  }

  lemma CallsReserve(s: State, t: Thread, ids: seq<Id>) returns (u: State)
    requires At(s, t) == Idle
    ensures Enabled(s, t, CallReserve(ids)) && u == Apply(s, t, CallReserve(ids))
    ensures u == s.(pcs := u.pcs) && At(u, t) == if ids == [] then Unlocking(ids, 0) else LockingNext(ids, 0)
  {
    u := Apply(s, t, CallReserve(ids));
  }

  lemma TakenAndDropped(op: map<Id, Thread>, ids: seq<Id>, t: Thread)
    requires forall i :: i in ids ==> i !in op
    ensures op + GivenTo(ids, t) - AsSet(ids) == op && (ids == [] ==> op - AsSet(ids[..0]) == op)
  {
  }

  lemma HandedOverAll(flags: map<Id, Claimant>, ids: seq<Id>, t: Thread, k: Token)
    requires forall i :: i in ids ==> i !in flags
    ensures HandOver(flags + GivenTo(ids, ByThread(t)), ids, k) == flags + GivenTo(ids, ByToken(k))
    ensures ids == [] ==> HandOver(flags, ids, k) == flags + GivenTo(ids, ByToken(k))
  {
  }

  lemma ReleasesOne(s: State, t: Thread, k: Token, n: nat) returns (u: State, steps: seq<(Thread, Action)>)
    requires k in s.tokens && s.tokens[k].Releasing? && n < |s.tokens[k].ids| && At(s, t) == ReleaseLocking(k, n)
    requires s.tokens[k].ids[n] !in s.op && s.tokens[k].ids[n] !in s.mu
    ensures IsRun(s, steps) && u == After(s, steps) && At(u, t) == ReleaseLocking(k, n + 1)
    ensures u == s.(flags := s.flags - {s.tokens[k].ids[n]}, tokens := s.tokens[k := Releasing(s.tokens[k].ids, t, n + 1)], pcs := u.pcs)
  {
    hide IsRun, After, Enabled, Apply, At;
    var s1 := Relocks(s, t, k, n);
    var s2 := Clears(s1, t, k, n);
    u := Reunlocks(s2, t, k, n);
    OneStep(s2, t, UnlockReleased);
    StepThen(s1, t, ClearFlag, [(t, UnlockReleased)]);
    StepThen(s, t, LockToRelease, [(t, ClearFlag)] + [(t, UnlockReleased)]);
    steps := [(t, LockToRelease)] + ([(t, ClearFlag)] + [(t, UnlockReleased)]);
    assert s.op[s.tokens[k].ids[n] := t] - {s.tokens[k].ids[n]} == s.op;
  }

  lemma Relocks(s: State, t: Thread, k: Token, n: nat) returns (u: State)
    requires k in s.tokens && s.tokens[k].Releasing? && n < |s.tokens[k].ids| && At(s, t) == ReleaseLocking(k, n)
    requires s.tokens[k].ids[n] !in s.op
    ensures Enabled(s, t, LockToRelease) && u == Apply(s, t, LockToRelease)
    ensures u == s.(op := s.op[s.tokens[k].ids[n] := t], pcs := u.pcs) && At(u, t) == ReleaseClearing(k, n)
  {
    u := Apply(s, t, LockToRelease);
  }

  lemma Reunlocks(s: State, t: Thread, k: Token, n: nat) returns (u: State)
    requires k in s.tokens && s.tokens[k].Releasing? && n < |s.tokens[k].ids| && At(s, t) == ReleaseUnlocking(k, n)
    ensures Enabled(s, t, UnlockReleased) && u == Apply(s, t, UnlockReleased) && At(u, t) == ReleaseLocking(k, n + 1)
    ensures u == s.(op := s.op - {s.tokens[k].ids[n]}, tokens := s.tokens[k := Releasing(s.tokens[k].ids, t, n + 1)], pcs := u.pcs)
  {
    u := Apply(s, t, UnlockReleased);
  }

  lemma Clears(s: State, t: Thread, k: Token, n: nat) returns (u: State)
    requires k in s.tokens && s.tokens[k].Releasing? && n < |s.tokens[k].ids| && At(s, t) == ReleaseClearing(k, n)
    requires s.tokens[k].ids[n] !in s.mu
    ensures Enabled(s, t, ClearFlag) && u == Apply(s, t, ClearFlag)
    ensures u == s.(flags := s.flags - {s.tokens[k].ids[n]}, pcs := u.pcs) && At(u, t) == ReleaseUnlocking(k, n)
  {
    u := Apply(s, t, ClearFlag);
  }

  lemma ReleasesLast(s: State, t: Thread, k: Token, n: nat) returns (u: State)
    requires k in s.tokens && s.tokens[k].Releasing? && n == |s.tokens[k].ids| && At(s, t) == ReleaseLocking(k, n)
    ensures Enabled(s, t, LockToRelease) && u == Apply(s, t, LockToRelease)
    ensures At(u, t) == Idle && u == s.(tokens := s.tokens[k := Released], pcs := u.pcs)
  {
    u := Apply(s, t, LockToRelease);
  }

  lemma {:induction false} ReleasesAll(s: State, t: Thread, k: Token, n: nat) returns (steps: seq<(Thread, Action)>)
    requires k in s.tokens && s.tokens[k].Releasing? && n <= |s.tokens[k].ids|
    requires At(s, t) == ReleaseLocking(k, n) && forall i :: i in s.tokens[k].ids ==> i !in s.op && i !in s.mu
    ensures IsRun(s, steps)
    ensures var u := After(s, steps);
      At(u, t) == Idle && u == s.(flags := s.flags - AsSet(s.tokens[k].ids[n..]), tokens := s.tokens[k := Released], pcs := u.pcs)
    decreases |s.tokens[k].ids| - n
  {
    hide IsRun, After, Enabled, Apply, At;
    var ids := s.tokens[k].ids;
    if n == |ids| {
      var u := ReleasesLast(s, t, k, n);
      OneStep(s, t, LockToRelease);
      steps := [(t, LockToRelease)];
      assert s.flags - AsSet(ids[n..]) == s.flags;
    } else {
      assert ids[n] in ids && ids[n..] == [ids[n]] + ids[n + 1..];
      var u;
      u, steps := ReleasesOne(s, t, k, n);
      var rest := ReleasesAll(u, t, k, n + 1);
      RunsJoin(s, steps, rest);
      steps := steps + rest;
      assert s.flags - {ids[n]} - AsSet(ids[n + 1..]) == s.flags - AsSet(ids[n..]);
      assert u.tokens[k := Released] == s.tokens[k := Released];
    }
  }

  /** The release of a reservation whose instances nobody holds goes through: it takes exactly their
      flags away. */
  lemma ReleaseSucceeds(s: State, t: Thread, k: Token) returns (steps: seq<(Thread, Action)>)
    requires At(s, t) == Idle && k in s.tokens && s.tokens[k].Held?
    requires forall i :: i in s.tokens[k].ids ==> i !in s.op && i !in s.mu
    ensures IsRun(s, steps)
    ensures var u := After(s, steps);
      At(u, t) == Idle && u == s.(flags := s.flags - AsSet(s.tokens[k].ids), tokens := s.tokens[k := Released], pcs := u.pcs)
  {
    hide IsRun, After;
    var ids := s.tokens[k].ids;
    var s1 := Apply(s, t, CallRelease(k));
    var rest := ReleasesAll(s1, t, k, 0);
    StepThen(s, t, CallRelease(k), rest);
    steps := [(t, CallRelease(k))] + rest;
    assert ids[0..] == ids;
    assert s1.tokens[k := Released] == s.tokens[k := Released];
  }
}
