/**
  Watching a plug's state (util/__init__.py SubscribableStateMixin, plugs/__init__.py
  wait_for_plug_update), as a transition system: any number of mutators write the state and then
  notify, any number of watchers register an event, read the state and wait.

  The event is registered under the lock, but the state is written and read outside of it.
 */
module StateWatch {
  import opened Prelude

  datatype Lock = Unlocked | LockedByMutator(m: nat) | LockedByWatcher(w: nat)

  /** Each write gets the next ticket; `tickets` are those a mutator has written and not yet notified. */
  datatype MutatorPc =
    | Ready
    | Wrote(tickets: set<nat>)
    | Notifying(tickets: set<nat>, remaining: set<nat>)  // lock held; events still to be set
    | Cleared(tickets: set<nat>)                         // lock held; registered events dropped

  /** wait_for_plug_update(remote_state): `seen` counts the writes made before its snapshot. */
  datatype WatcherPc =
    | Asking(remote: int)
    | Adding(remote: int)                           // lock held, event not added
    | Added(remote: int)                            // lock held, event added
    | Reading(remote: int)                          // lock released, state not read
    | Deciding(remote: int, snapshot: int, seen: nat)
    | Waiting(remote: int, snapshot: int, seen: nat)
    | Rereading(remote: int)
    | Answered(answer: Option<int>)

  /** A watcher's event is named by the watcher. */
  datatype State = State(
    value: int, writes: nat, completed: set<nat>, lock: Lock, registered: set<nat>, fired: set<nat>,
    mutators: map<nat, MutatorPc>, watchers: map<nat, WatcherPc>)

  datatype Action =
    | NewMutator(m: nat)
    | Write(m: nat, v: int)
    | BeginNotify(m: nat)
    | SetEvent(m: nat, w: nat)
    | ClearEvents(m: nat)
    | EndNotify(m: nat)
    | NewWatcher(w: nat, remote: int)
    | WatcherStep(w: nat)
    | TimeOut(w: nat)
    | Collect(w: nat)  // the weak set forgets the event of a watcher that is gone

  function Init(value: int): State {
    State(value, 0, {}, Unlocked, {}, {}, map[], map[])
  }

  function MutatorNext(s: State, m: nat, a: Action): Option<State>
  {
    if m !in s.mutators then None else
    match (a, s.mutators[m])
    case (Write(_, v), Ready) =>
      Some(s.(value := v, writes := s.writes + 1, mutators := s.mutators[m := Wrote({s.writes + 1})]))
    case (Write(_, v), Wrote(ks)) =>
      Some(s.(value := v, writes := s.writes + 1, mutators := s.mutators[m := Wrote(ks + {s.writes + 1})]))
    case (BeginNotify(_), Ready) =>
      if s.lock != Unlocked then None
      else Some(s.(lock := LockedByMutator(m), mutators := s.mutators[m := Notifying({}, s.registered)]))
    case (BeginNotify(_), Wrote(ks)) =>
      if s.lock != Unlocked then None
      else Some(s.(lock := LockedByMutator(m), mutators := s.mutators[m := Notifying(ks, s.registered)]))
    case (SetEvent(_, w), Notifying(ks, rem)) =>
      if w !in rem then None
      else Some(s.(fired := s.fired + {w}, mutators := s.mutators[m := Notifying(ks, rem - {w})]))
    case (ClearEvents(_), Notifying(ks, rem)) =>
      if rem != {} then None
      else Some(s.(registered := {}, mutators := s.mutators[m := Cleared(ks)]))
    case (EndNotify(_), Cleared(ks)) =>
      Some(s.(lock := Unlocked, completed := s.completed + ks, mutators := s.mutators[m := Ready]))
    case _ => None
  }

  function WatcherNext(s: State, w: nat): Option<State>
  {
    if w !in s.watchers then None else
    match s.watchers[w]
    case Asking(r) =>
      if s.lock != Unlocked then None
      else Some(s.(lock := LockedByWatcher(w), watchers := s.watchers[w := Adding(r)]))
    case Adding(r) => Some(s.(registered := s.registered + {w}, watchers := s.watchers[w := Added(r)]))
    case Added(r) => Some(s.(lock := Unlocked, watchers := s.watchers[w := Reading(r)]))
    case Reading(r) => Some(s.(watchers := s.watchers[w := Deciding(r, s.value, s.writes)]))
    case Deciding(r, snap, seen) =>
      Some(s.(watchers := s.watchers[w := if snap != r then Answered(Some(snap)) else Waiting(r, snap, seen)]))
    case Waiting(r, _, _) =>
      if w in s.fired then Some(s.(watchers := s.watchers[w := Rereading(r)])) else None
    case Rereading(_) => Some(s.(watchers := s.watchers[w := Answered(Some(s.value))]))
    case Answered(_) => None
  }

  function Next(s: State, a: Action): Option<State> {
    match a
    case NewMutator(m) => if m in s.mutators then None else Some(s.(mutators := s.mutators[m := Ready]))
    case NewWatcher(w, r) =>
      if w in s.watchers || w in s.fired then None else Some(s.(watchers := s.watchers[w := Asking(r)]))
    case WatcherStep(w) => WatcherNext(s, w)
    case TimeOut(w) =>
      if w in s.watchers && s.watchers[w].Waiting? && w !in s.fired
      then Some(s.(watchers := s.watchers[w := Answered(None)])) else None
    case Collect(w) =>
      if w in s.watchers && s.watchers[w].Answered?
      then Some(s.(registered := s.registered - {w},
                   mutators := map m | m in s.mutators ::
                                 match s.mutators[m]
                                 case Notifying(ks, rem) => Notifying(ks, rem - {w})
                                 case pc => pc))
      else None
    case _ => MutatorNext(s, a.m, a)
  }

  function Run(s: State, acts: seq<Action>): Option<State>
    decreases |acts|
  {
    if acts == [] then Some(s)
    else match Next(s, acts[0])
      case None => None
      case Some(s') => Run(s', acts[1..])
  }

  ghost predicate Reachable(s: State) {
    exists v, acts :: Run(Init(v), acts) == Some(s)
  }

  // ---------------------------------------------------------------- the inductive invariant

  predicate HasEvent(pc: WatcherPc) {
    pc.Added? || pc.Reading? || pc.Deciding? || pc.Waiting?
  }

  predicate HasSnapshot(pc: WatcherPc) {
    pc.Deciding? || pc.Waiting?
  }

  function Tickets(pc: MutatorPc): set<nat> {
    if pc.Ready? then {} else pc.tickets
  }

  /** Mutator m still owes watcher w a wake-up for the writes after its snapshot. */
  predicate Owes(pc: MutatorPc, w: nat) {
    pc.Wrote? || (pc.Notifying? && w in pc.remaining)
  }

  ghost predicate Between(ks: set<nat>, lo: nat, hi: nat) {
    forall k <- ks :: lo <= k <= hi
  }

  ghost predicate MutatorInv(s: State, m: nat)
    requires m in s.mutators
  {
    var pc := s.mutators[m];
    && (s.lock == LockedByMutator(m) <==> pc.Notifying? || pc.Cleared?)
    && Between(Tickets(pc), 1, s.writes)
    && (pc.Notifying? ==> forall w <- s.registered :: w in pc.remaining || w in s.fired)
  }

  ghost predicate WatcherInv(s: State, w: nat)
    requires w in s.watchers
  {
    var pc := s.watchers[w];
    && (s.lock == LockedByWatcher(w) <==> pc.Adding? || pc.Added?)
    && (HasEvent(pc) && w !in s.fired ==> w in s.registered)
    && (HasSnapshot(pc) ==> pc.seen <= s.writes && (pc.seen == s.writes ==> pc.snapshot == s.value))
    && (pc.Waiting? ==> pc.snapshot == pc.remote)
  }

  /** A write after an unset event's snapshot is not notified, and its mutator still owes the wake-up. */
  ghost predicate OwedInv(s: State, w: nat)
    requires w in s.watchers
  {
    var pc := s.watchers[w];
    HasSnapshot(pc) && w !in s.fired ==>
      && Between(s.completed, 0, pc.seen)
      && (forall m <- s.mutators :: forall k <- Tickets(s.mutators[m]) :: k > pc.seen ==> Owes(s.mutators[m], w))
  }

  ghost predicate TicketsInv(s: State) {
    forall k: nat :: 1 <= k <= s.writes ==> k in s.completed || exists m <- s.mutators :: k in Tickets(s.mutators[m])
  }

  ghost predicate Inv(s: State) {
    && (s.lock.LockedByMutator? ==> s.lock.m in s.mutators)
    && (s.lock.LockedByWatcher? ==> s.lock.w in s.watchers)
    && Between(s.completed, 1, s.writes)
    && (forall m <- s.mutators :: MutatorInv(s, m))
    && (forall w <- s.watchers :: WatcherInv(s, w) && OwedInv(s, w))
    && TicketsInv(s)
  }

  lemma WriteKeepsInv(s: State, m: nat, v: int)
    requires Inv(s) && MutatorNext(s, m, Write(m, v)).Some?
    ensures Inv(MutatorNext(s, m, Write(m, v)).value)
  {
    var s' := MutatorNext(s, m, Write(m, v)).value;
    assert Tickets(s'.mutators[m]) == Tickets(s.mutators[m]) + {s.writes + 1};
    forall n <- s'.mutators ensures MutatorInv(s', n) {
      assert MutatorInv(s, n);
    }
    forall w <- s'.watchers ensures WatcherInv(s', w) && OwedInv(s', w) {
      assert WatcherInv(s, w) && OwedInv(s, w);
    }
    TicketsStay(s, s');
  }

  /** No ticket is lost while the mutators only gain tickets or hand them to `completed`. */
  lemma TicketsStay(s: State, s': State)
    requires TicketsInv(s) && s.completed <= s'.completed
    requires forall m <- s.mutators ::
               m in s'.mutators && Tickets(s.mutators[m]) <= Tickets(s'.mutators[m]) + s'.completed
    requires s'.writes > s.writes ==>
               s'.writes == s.writes + 1 && exists m <- s'.mutators :: s'.writes in Tickets(s'.mutators[m])
    ensures TicketsInv(s')
  {
    forall k: nat | 1 <= k <= s'.writes && k !in s'.completed
      ensures exists n <- s'.mutators :: k in Tickets(s'.mutators[n])
    {
      if k <= s.writes {
        var n :| n in s.mutators && k in Tickets(s.mutators[n]);
        assert n in s'.mutators && k in Tickets(s'.mutators[n]);
      }
    }
  }

  lemma MutatorStepKeepsInv(s: State, m: nat, a: Action)
    requires Inv(s) && MutatorNext(s, m, a).Some? && !a.Write?
    ensures Inv(MutatorNext(s, m, a).value)
  {
    var s' := MutatorNext(s, m, a).value;
    assert MutatorInv(s, m);
    forall n <- s'.mutators ensures MutatorInv(s', n) {
      assert MutatorInv(s, n) && Between(Tickets(s.mutators[n]), 1, s.writes);
      assert Tickets(s'.mutators[n]) <= Tickets(s.mutators[n]);
    }
    forall w <- s'.watchers ensures WatcherInv(s', w) && OwedInv(s', w) {
      assert WatcherInv(s, w) && OwedInv(s, w);
    }
    TicketsStay(s, s');
  }

  lemma WatcherStepKeepsInv(s: State, w: nat)
    requires Inv(s) && WatcherNext(s, w).Some?
    ensures Inv(WatcherNext(s, w).value)
  {
    var s' := WatcherNext(s, w).value;
    assert WatcherInv(s, w) && OwedInv(s, w);
    forall n <- s'.mutators ensures MutatorInv(s', n) {
      assert MutatorInv(s, n);
    }
    forall v <- s'.watchers ensures WatcherInv(s', v) && OwedInv(s', v) {
      assert WatcherInv(s, v) && OwedInv(s, v);
    }
    TicketsStay(s, s');
  }

  lemma CollectKeepsInv(s: State, w: nat)
    requires Inv(s) && Next(s, Collect(w)).Some?
    ensures Inv(Next(s, Collect(w)).value)
  {
    var s' := Next(s, Collect(w)).value;
    forall n <- s'.mutators ensures MutatorInv(s', n) {
      assert MutatorInv(s, n);
    }
    forall v <- s'.watchers ensures WatcherInv(s', v) && OwedInv(s', v) {
      assert WatcherInv(s, v) && OwedInv(s, v);
    }
    TicketsStay(s, s');
  }

  lemma NewcomerKeepsInv(s: State, a: Action)
    requires Inv(s) && Next(s, a).Some? && (a.NewMutator? || a.NewWatcher? || a.TimeOut?)
    ensures Inv(Next(s, a).value)
  {
    var s' := Next(s, a).value;
    forall n <- s'.mutators ensures MutatorInv(s', n) {
      if n in s.mutators { assert MutatorInv(s, n); }
    }
    forall v <- s'.watchers ensures WatcherInv(s', v) && OwedInv(s', v) {
      if v in s.watchers { assert WatcherInv(s, v) && OwedInv(s, v); }
    }
    TicketsStay(s, s');
  }

  lemma StepKeepsInv(s: State, a: Action)
    requires Inv(s) && Next(s, a).Some?
    ensures Inv(Next(s, a).value)
  {
    match a
    case WatcherStep(w) => WatcherStepKeepsInv(s, w);
    case Collect(w) => CollectKeepsInv(s, w);
    case NewMutator(_) => NewcomerKeepsInv(s, a);
    case NewWatcher(_, _) => NewcomerKeepsInv(s, a);
    case TimeOut(_) => NewcomerKeepsInv(s, a);
    case Write(m, v) => WriteKeepsInv(s, m, v);
    case _ => MutatorStepKeepsInv(s, a.m, a);
  }

  lemma {:induction false} RunKeepsInv(s: State, acts: seq<Action>)
    requires Inv(s) && Run(s, acts).Some?
    ensures Inv(Run(s, acts).value)
    decreases |acts|
  {
    if acts != [] {
      StepKeepsInv(s, acts[0]);
      RunKeepsInv(Next(s, acts[0]).value, acts[1..]);
    }
  }

  lemma ReachableInv(s: State)
    requires Reachable(s)
    ensures Inv(s)
  {
    var v, acts :| Run(Init(v), acts) == Some(s);
    RunKeepsInv(Init(v), acts);
  }

  // ---------------------------------------------------------------- events are set once

  function Remaining(pc: MutatorPc): set<nat> {
    if pc.Notifying? then pc.remaining else {}
  }

  ghost predicate EventsInv(s: State) {
    && (forall w <- s.registered :: w in s.watchers && !s.watchers[w].Asking? && !s.watchers[w].Adding?)
    && (forall w <- s.fired :: w in s.watchers && !s.watchers[w].Asking? && !s.watchers[w].Adding?)
    && (forall m <- s.mutators :: Remaining(s.mutators[m]) <= s.registered)
    && (forall w <- s.registered :: w in s.fired ==>
          s.lock.LockedByMutator? && s.lock.m in s.mutators && s.mutators[s.lock.m].Notifying?)
  }

  lemma MutatorKeepsEventsInv(s: State, m: nat, a: Action)
    requires Inv(s) && EventsInv(s) && MutatorNext(s, m, a).Some?
    ensures EventsInv(MutatorNext(s, m, a).value)
  {
    assert forall n <- s.mutators :: MutatorInv(s, n);
  }

  lemma WatcherKeepsEventsInv(s: State, w: nat)
    requires Inv(s) && EventsInv(s) && WatcherNext(s, w).Some?
    ensures EventsInv(WatcherNext(s, w).value)
  {
    assert WatcherInv(s, w);
  }

  lemma StepKeepsEventsInv(s: State, a: Action)
    requires Inv(s) && EventsInv(s) && Next(s, a).Some?
    ensures EventsInv(Next(s, a).value)
  {
    match a
    case WatcherStep(w) => WatcherKeepsEventsInv(s, w);
    case NewMutator(_) =>
    case NewWatcher(_, _) =>
    case TimeOut(_) =>
    case Collect(_) =>
    case _ => MutatorKeepsEventsInv(s, a.m, a);
  }

  lemma {:induction false} RunKeepsEventsInv(s: State, acts: seq<Action>)
    requires Inv(s) && EventsInv(s) && Run(s, acts).Some?
    ensures EventsInv(Run(s, acts).value)
    decreases |acts|
  {
    if acts != [] {
      StepKeepsInv(s, acts[0]);
      StepKeepsEventsInv(s, acts[0]);
      RunKeepsEventsInv(Next(s, acts[0]).value, acts[1..]);
    }
  }

  /** Between notifies no event that is set is still registered: a notify drops the events that it has set. */
  lemma SetEventsAreDropped(s: State, w: nat)
    requires Reachable(s) && (forall m <- s.mutators :: !s.mutators[m].Notifying?)
    ensures w in s.fired ==> w !in s.registered
  {
    var v, acts :| Run(Init(v), acts) == Some(s);
    RunKeepsEventsInv(Init(v), acts);
  }

  // ---------------------------------------------------------------- no lost update

  /** Every event handed out and not yet set is still registered, so the next notify will set it. */
  lemma UnsetEventsAreRegistered(s: State, w: nat)
    requires Reachable(s) && w in s.watchers && HasEvent(s.watchers[w]) && w !in s.fired
    ensures w in s.registered
  {
    ReachableInv(s);
    assert WatcherInv(s, w);
  }

  /**
    No lost update. If a watcher's event is unset although its snapshot is out of date, some
    mutator has written since, has not finished notifying, and is still going to set that event.
   */
  lemma StaleSnapshotIsOwed(s: State, w: nat)
    requires Reachable(s) && w in s.watchers && HasSnapshot(s.watchers[w]) && w !in s.fired
    requires s.watchers[w].snapshot != s.value
    ensures exists m <- s.mutators :: s.writes in Tickets(s.mutators[m]) && Owes(s.mutators[m], w)
  {
    ReachableInv(s);
    assert WatcherInv(s, w) && OwedInv(s, w);
    assert s.writes !in s.completed;
    var m :| m in s.mutators && s.writes in Tickets(s.mutators[m]);
    assert Owes(s.mutators[m], w);
  }

  /** With no mutator between its write and the end of its notify, an unset event means an up-to-date snapshot. */
  lemma QuiescentUnsetIsCurrent(s: State, w: nat)
    requires Reachable(s) && w in s.watchers && HasSnapshot(s.watchers[w]) && w !in s.fired
    requires forall m <- s.mutators :: s.mutators[m].Ready?
    ensures s.watchers[w].snapshot == s.value
  {
    if s.watchers[w].snapshot != s.value {
      StaleSnapshotIsOwed(s, w);
    }
  }

  /** An update that was written after the snapshot and has been notified has set the event. */
  lemma CompletedUpdateSetsEvent(s: State, w: nat, k: nat)
    requires Reachable(s) && w in s.watchers && HasSnapshot(s.watchers[w])
    requires k in s.completed && k > s.watchers[w].seen
    ensures w in s.fired
  {
    ReachableInv(s);
    assert OwedInv(s, w);
  }

  /**
    wait_for_plug_update answers None only if its snapshot was the remote state and no update
    written since that snapshot has completed.
   */
  lemma NoneMeansNoUpdate(s: State, w: nat)
    requires Reachable(s) && Next(s, TimeOut(w)).Some?
    ensures s.watchers[w].snapshot == s.watchers[w].remote
    ensures forall k <- s.completed :: k <= s.watchers[w].seen
    ensures (forall m <- s.mutators :: s.mutators[m].Ready?) ==> s.value == s.watchers[w].remote
  {
    ReachableInv(s);
    assert WatcherInv(s, w) && OwedInv(s, w);
    if forall m <- s.mutators :: s.mutators[m].Ready? {
      QuiescentUnsetIsCurrent(s, w);
    }
  }

  /** TimeOut is the only way to None, so the above covers every None answer. */
  lemma OnlyTimeOutAnswersNone(s: State, a: Action, w: nat)
    requires Next(s, a).Some?
    requires w in s.watchers && s.watchers[w] != Answered(None)
    ensures w in Next(s, a).value.watchers
    ensures Next(s, a).value.watchers[w] == Answered(None) <==> a == TimeOut(w)
  {
  }

  // ---------------------------------------------------------------- which state is answered

  /** The values of the state over a run: the initial one and those written. */
  function History(v0: int, acts: seq<Action>): seq<int>
    decreases |acts|
  {
    if acts == [] then [v0]
    else
      var last := acts[|acts| - 1];
      History(v0, acts[..|acts| - 1]) + if last.Write? then [last.v] else []
  }

  /** The value of the state after the first n actions. */
  function ValueAt(v0: int, acts: seq<Action>, n: nat): int
    requires n <= |acts|
  {
    var h := History(v0, acts[..n]);
    if h == [] then v0 else h[|h| - 1]
  }

  /** The state after the first n actions. */
  function StateAt(v0: int, acts: seq<Action>, n: nat): Option<State>
    requires n <= |acts|
  {
    Run(Init(v0), acts[..n])
  }

  lemma {:induction false} RunSplits(s: State, acts: seq<Action>, n: nat)
    requires n < |acts| && Run(s, acts).Some?
    ensures Run(s, acts[..n]).Some? && Run(s, acts[..n + 1]) == Next(Run(s, acts[..n]).value, acts[n])
    ensures Run(s, acts[..n + 1]).Some?
    decreases n
  {
    var s1 := Next(s, acts[0]).value;
    if n == 0 {
      assert acts[..1][1..] == [];
    } else {
      RunSplits(s1, acts[1..], n - 1);
      assert acts[..n][1..] == acts[1..][..n - 1] && acts[..n + 1][1..] == acts[1..][..n];
    }
  }

  /** The state holds the last value of the history, and `writes` counts the others. */
  lemma {:induction false} HistoryIsState(v0: int, acts: seq<Action>, n: nat)
    requires n <= |acts| && Run(Init(v0), acts).Some?
    ensures StateAt(v0, acts, n).Some?
    ensures StateAt(v0, acts, n).value.value == ValueAt(v0, acts, n)
    ensures StateAt(v0, acts, n).value.writes + 1 == |History(v0, acts[..n])|
    decreases n
  {
    if n > 0 {
      HistoryIsState(v0, acts, n - 1);
      RunSplits(Init(v0), acts, n - 1);
      assert acts[..n][..n - 1] == acts[..n - 1];
      ValueStep(StateAt(v0, acts, n - 1).value, acts[n - 1]);
    }
  }

  lemma ValueStep(s: State, a: Action)
    requires Next(s, a).Some?
    ensures Next(s, a).value.value == if a.Write? then a.v else s.value
    ensures Next(s, a).value.writes == s.writes + if a.Write? then 1 else 0
  {
  }

  /** Action j is the call of watcher w, and if its event is set by action n, something set it meanwhile. */
  ghost predicate Called(acts: seq<Action>, n: nat, w: nat, remote: int, j: nat, fired: bool) {
    && j < n <= |acts| && acts[j] == NewWatcher(w, remote)
    && (fired ==> exists e: nat, m :: j < e < n && acts[e] == SetEvent(m, w))
  }

  /** Action i, behind the call at j, reads the state for watcher w, and finds v. */
  ghost predicate Reads(v0: int, acts: seq<Action>, n: nat, w: nat, pc: WatcherPc, j: nat, i: nat, v: int) {
    && j < i < n <= |acts| && acts[i] == WatcherStep(w)
    && StateAt(v0, acts, i).Some? && w in StateAt(v0, acts, i).value.watchers
    && StateAt(v0, acts, i).value.watchers[w] == pc && v == ValueAt(v0, acts, i)
  }

  /** The answer was read during the call, and is not the remote state. */
  ghost predicate AnsweredAtOnce(v0: int, acts: seq<Action>, n: nat, w: nat, v: int) {
    exists r, j: nat, i: nat ::
      Called(acts, n, w, r, j, false) && Reads(v0, acts, n, w, Reading(r), j, i, v) && v != r
  }

  /** The first reading found the remote state; the answer was read again, after the event was set. */
  ghost predicate AnsweredAfterWaking(v0: int, acts: seq<Action>, n: nat, w: nat, v: int) {
    exists r, j: nat, i: nat, k: nat ::
      && Called(acts, k, w, r, j, true)
      && Reads(v0, acts, k, w, Reading(r), j, i, r) && Reads(v0, acts, n, w, Rereading(r), i, k, v)
  }

  ghost predicate Story(v0: int, acts: seq<Action>, n: nat, w: nat, pc: WatcherPc, fired: bool) {
    match pc
    case Answered(None) => true
    case Answered(Some(v)) => AnsweredAtOnce(v0, acts, n, w, v) || AnsweredAfterWaking(v0, acts, n, w, v)
    case Deciding(r, v, _) =>
      exists j: nat, i: nat :: Called(acts, n, w, r, j, fired) && Reads(v0, acts, n, w, Reading(r), j, i, v)
    case Waiting(r, v, _) =>
      v == r &&
      exists j: nat, i: nat :: Called(acts, n, w, r, j, fired) && Reads(v0, acts, n, w, Reading(r), j, i, r)
    case Rereading(r) =>
      exists j: nat, i: nat :: Called(acts, n, w, r, j, true) && Reads(v0, acts, n, w, Reading(r), j, i, r)
    case _ => exists j: nat :: Called(acts, n, w, pc.remote, j, fired)
  }

  /** An action of another party, or the setting of the event, takes nothing back. */
  lemma StoryStays(v0: int, acts: seq<Action>, n: nat, w: nat, pc: WatcherPc, fired: bool, fired': bool)
    requires n < |acts| && Story(v0, acts, n, w, pc, fired)
    requires fired' ==> fired || exists m :: acts[n] == SetEvent(m, w)
    ensures Story(v0, acts, n + 1, w, pc, fired')
  {
    forall r, j: nat | Called(acts, n, w, r, j, fired) ensures Called(acts, n + 1, w, r, j, fired') {
    }
    forall r, j: nat, b | Called(acts, n, w, r, j, b) ensures Called(acts, n + 1, w, r, j, b) {
    }
    forall q, j: nat, i: nat, v | Reads(v0, acts, n, w, q, j, i, v) ensures Reads(v0, acts, n + 1, w, q, j, i, v) {
    }
  }

  /** Watcher w is in `pc` after n actions, the next one is its own, and brings it to `pc'`. */
  ghost predicate Moves(v0: int, acts: seq<Action>, n: nat, w: nat, pc: WatcherPc, pc': WatcherPc) {
    && n < |acts| && acts[n] == WatcherStep(w)
    && StateAt(v0, acts, n).Some?
    && var s := StateAt(v0, acts, n).value;
       && w in s.watchers && s.watchers[w] == pc && s.value == ValueAt(v0, acts, n)
       && WatcherNext(s, w).Some? && w in WatcherNext(s, w).value.watchers
       && WatcherNext(s, w).value.watchers[w] == pc' && WatcherNext(s, w).value.fired == s.fired
  }

  lemma ReadingGoesOn(v0: int, acts: seq<Action>, n: nat, w: nat, pc: WatcherPc, pc': WatcherPc, fired: bool)
    requires Moves(v0, acts, n, w, pc, pc') && pc.Reading?
    requires Story(v0, acts, n, w, pc, fired) && Story(v0, acts, n + 1, w, pc, fired)
    ensures Story(v0, acts, n + 1, w, pc', fired)
  {
    var j: nat :| Called(acts, n + 1, w, pc.remote, j, fired) && j < n;
    assert Reads(v0, acts, n + 1, w, pc, j, n, pc'.snapshot);
  }

  lemma DecidingGoesOn(v0: int, acts: seq<Action>, n: nat, w: nat, pc: WatcherPc, pc': WatcherPc, fired: bool)
    requires Moves(v0, acts, n, w, pc, pc') && pc.Deciding? && Story(v0, acts, n + 1, w, pc, fired)
    ensures Story(v0, acts, n + 1, w, pc', fired)
  {
    var r, v := pc.remote, pc.snapshot;
    var j: nat, i: nat :|
      Called(acts, n + 1, w, r, j, fired) && Reads(v0, acts, n + 1, w, Reading(r), j, i, v);
    assert Called(acts, n + 1, w, r, j, false);
  }

  lemma RereadingGoesOn(v0: int, acts: seq<Action>, n: nat, w: nat, pc: WatcherPc, pc': WatcherPc, fired: bool)
    requires Moves(v0, acts, n, w, pc, pc') && pc.Rereading? && Story(v0, acts, n, w, pc, fired)
    ensures Story(v0, acts, n + 1, w, pc', fired)
  {
    var r, v := pc.remote, ValueAt(v0, acts, n);
    var j: nat, i: nat :| Called(acts, n, w, r, j, true) && Reads(v0, acts, n, w, Reading(r), j, i, r);
    assert Reads(v0, acts, n + 1, w, Rereading(r), i, n, v);
    assert AnsweredAfterWaking(v0, acts, n + 1, w, v);
    assert pc' == Answered(Some(v));
  }

  /** Its own steps take watcher w on. */
  lemma StoryGoesOn(v0: int, acts: seq<Action>, n: nat, w: nat, pc: WatcherPc, pc': WatcherPc, fired: bool)
    requires Moves(v0, acts, n, w, pc, pc') && Story(v0, acts, n, w, pc, fired)
    requires fired <==> w in StateAt(v0, acts, n).value.fired
    ensures Story(v0, acts, n + 1, w, pc', fired)
  {
    StoryStays(v0, acts, n, w, pc, fired, fired);
    match pc
    case Reading(_) => ReadingGoesOn(v0, acts, n, w, pc, pc', fired);
    case Deciding(_, _, _) => DecidingGoesOn(v0, acts, n, w, pc, pc', fired);
    case Rereading(_) => RereadingGoesOn(v0, acts, n, w, pc, pc', fired);
    case _ =>
  }

  lemma {:induction false} StoryOverRun(v0: int, acts: seq<Action>, n: nat, w: nat)
    requires n <= |acts| && Run(Init(v0), acts).Some?
    ensures StateAt(v0, acts, n).Some?
    ensures var s := StateAt(v0, acts, n).value;
            w in s.watchers ==> Story(v0, acts, n, w, s.watchers[w], w in s.fired)
    decreases n
  {
    HistoryIsState(v0, acts, n);
    if n > 0 {
      StoryOverRun(v0, acts, n - 1, w);
      HistoryIsState(v0, acts, n - 1);
      RunSplits(Init(v0), acts, n - 1);
      var s, a := StateAt(v0, acts, n - 1).value, acts[n - 1];
      var s' := StateAt(v0, acts, n).value;
      if a == WatcherStep(w) {
        StoryGoesOn(v0, acts, n - 1, w, s.watchers[w], s'.watchers[w], w in s.fired);
      } else if w in s'.watchers {
        OthersStep(s, a, w);
        if w in s.watchers && s'.watchers[w] == s.watchers[w] {
          StoryStays(v0, acts, n - 1, w, s.watchers[w], w in s.fired, w in s'.fired);
        } else if w !in s.watchers {
          var r := s'.watchers[w].remote;
          assert Called(acts, n, w, r, n - 1, false);
        }
      }
    }
  }

  /** What actions other than its own steps do to watcher w. */
  lemma OthersStep(s: State, a: Action, w: nat)
    requires Next(s, a).Some? && a != WatcherStep(w) && w in Next(s, a).value.watchers
    ensures var s' := Next(s, a).value;
            && (w in s.watchers ==> s'.watchers[w] == s.watchers[w] || s'.watchers[w] == Answered(None))
            && (w !in s.watchers ==>
                  s'.watchers[w].Asking? && a == NewWatcher(w, s'.watchers[w].remote) && w !in s'.fired)
            && (w in s'.fired ==> w in s.fired || exists m :: a == SetEvent(m, w))
  {
  }

  /**
    An answer is either a value that the state held during the call, and not the remote state,
    or, after the first reading found the remote state and the event was set, the value that the
    state held at a second reading behind that.
   */
  lemma AnswersComeFromHistory(v0: int, acts: seq<Action>, w: nat, v: int)
    requires Run(Init(v0), acts).Some?
    requires var s := Run(Init(v0), acts).value; w in s.watchers && s.watchers[w] == Answered(Some(v))
    ensures AnsweredAtOnce(v0, acts, |acts|, w, v) || AnsweredAfterWaking(v0, acts, |acts|, w, v)
  {
    StoryOverRun(v0, acts, |acts|, w);
    assert acts[..|acts|] == acts;
  }

  lemma {:induction false} WritesGrow(v0: int, acts: seq<Action>, e: nat, k: nat)
    requires e <= k <= |acts| && Run(Init(v0), acts).Some?
    ensures StateAt(v0, acts, e).Some? && StateAt(v0, acts, k).Some?
    ensures StateAt(v0, acts, e).value.writes <= StateAt(v0, acts, k).value.writes
    decreases k - e
  {
    HistoryIsState(v0, acts, e);
    HistoryIsState(v0, acts, k);
    if e < k {
      WritesGrow(v0, acts, e, k - 1);
      RunSplits(Init(v0), acts, k - 1);
      ValueStep(StateAt(v0, acts, k - 1).value, acts[k - 1]);
    }
  }

  lemma AllAtIsInv(v0: int, acts: seq<Action>, n: nat)
    requires n <= |acts| && Run(Init(v0), acts).Some?
    ensures StateAt(v0, acts, n).Some? && Inv(StateAt(v0, acts, n).value)
  {
    HistoryIsState(v0, acts, n);
    RunKeepsInv(Init(v0), acts[..n]);
  }

  /**
    What is read at the second reading is the last value of the history by then, and so as recent
    as every write of the notify that set the event, and of every notify that has completed.
   */
  lemma WakingAnswerIsRecent(v0: int, acts: seq<Action>, e: nat, k: nat, m: nat, w: nat)
    requires Run(Init(v0), acts).Some? && e < k <= |acts| && acts[e] == SetEvent(m, w)
    ensures StateAt(v0, acts, e).Some? && StateAt(v0, acts, k).Some?
    ensures m in StateAt(v0, acts, e).value.mutators
    ensures forall t <- Tickets(StateAt(v0, acts, e).value.mutators[m]) + StateAt(v0, acts, k).value.completed ::
              t < |History(v0, acts[..k])|
  {
    AllAtIsInv(v0, acts, e);
    AllAtIsInv(v0, acts, k);
    HistoryIsState(v0, acts, k);
    WritesGrow(v0, acts, e, k);
    RunSplits(Init(v0), acts, e);
    assert MutatorInv(StateAt(v0, acts, e).value, m);
  }

  /** The write with the t-th ticket is the t-th value of the history. */
  lemma TicketsNameValues(v0: int, acts: seq<Action>, i: nat)
    requires Run(Init(v0), acts).Some? && i < |acts| && acts[i].Write?
    ensures StateAt(v0, acts, i + 1).Some? && acts[i].m in StateAt(v0, acts, i + 1).value.mutators
    ensures var t := StateAt(v0, acts, i + 1).value.writes;
            && t in Tickets(StateAt(v0, acts, i + 1).value.mutators[acts[i].m])
            && t < |History(v0, acts[..i + 1])| && History(v0, acts[..i + 1])[t] == acts[i].v
  {
    HistoryIsState(v0, acts, i + 1);
    RunSplits(Init(v0), acts, i);
    ValueStep(StateAt(v0, acts, i).value, acts[i]);
  }

  // ---------------------------------------------------------------- every party can go on

  /** A call that waits for the lock waits for a party that can go on; any other call can go on itself, or time out. */
  lemma NobodyIsStuck(s: State, w: nat)
    requires Reachable(s) && w in s.watchers && !s.watchers[w].Answered?
    ensures || WatcherNext(s, w).Some? || Next(s, TimeOut(w)).Some?
            || (s.lock.LockedByWatcher? && WatcherNext(s, s.lock.w).Some?)
            || (s.lock.LockedByMutator? && exists a: Action :: MutatorNext(s, s.lock.m, a).Some?)
  {
    ReachableInv(s);
    if s.lock.LockedByMutator? {
      var m := s.lock.m;
      assert MutatorInv(s, m);
      if s.mutators[m].Cleared? {
        assert MutatorNext(s, m, EndNotify(m)).Some?;
      } else if s.mutators[m].remaining == {} {
        assert MutatorNext(s, m, ClearEvents(m)).Some?;
      } else {
        var v :| v in s.mutators[m].remaining;
        assert MutatorNext(s, m, SetEvent(m, v)).Some?;
      }
    } else if s.lock.LockedByWatcher? {
      assert WatcherInv(s, s.lock.w);
    }
  }

  lemma StepAfter(v0: int, acts: seq<Action>, a: Action, s: State) returns (s': State)
    requires Run(Init(v0), acts) == Some(s) && Next(s, a).Some?
    ensures s' == Next(s, a).value && Run(Init(v0), acts + [a]) == Some(s')
  {
    s' := Next(s, a).value;
    RunAppend(Init(v0), acts, a);
  }

  lemma {:induction false} RunAppend(s: State, acts: seq<Action>, a: Action)
    requires Run(s, acts).Some?
    ensures Run(s, acts + [a]) == Next(Run(s, acts).value, a)
    decreases |acts|
  {
    if acts == [] {
      assert [a][1..] == [];
    } else {
      assert (acts + [a])[1..] == acts[1..] + [a];
      RunAppend(Next(s, acts[0]).value, acts[1..], a);
    }
  }

  /** A watcher of a state that is the remote one waits with its event registered. */
  lemma WaitingIsReachable(r: int) returns (acts: seq<Action>, s: State)
    ensures Run(Init(r), acts) == Some(s) && |acts| > 1 && acts[1] == NewWatcher(0, r)
    ensures s == State(r, 0, {}, Unlocked, {0}, {}, map[0 := Ready], map[0 := Waiting(r, r, 0)])
  {
    acts, s := [], Init(r);
    s := StepAfter(r, acts, NewMutator(0), s);
    acts := acts + [NewMutator(0)];
    s := StepAfter(r, acts, NewWatcher(0, r), s);
    acts := acts + [NewWatcher(0, r)];
    var i := 0;
    while i < 5
      invariant 0 <= i <= 5 && Run(Init(r), acts) == Some(s) && |acts| > 1 && acts[1] == NewWatcher(0, r)
      invariant s == State(
        r, 0, {}, if i == 1 || i == 2 then LockedByWatcher(0) else Unlocked, if i < 2 then {} else {0}, {},
        map[0 := Ready],
        map[0 := [Asking(r), Adding(r), Added(r), Reading(r), Deciding(r, r, 0), Waiting(r, r, 0)][i]])
    {
      s := StepAfter(r, acts, WatcherStep(0), s);
      acts := acts + [WatcherStep(0)];
      i := i + 1;
    }
  }

  /** A notify without a write wakes the watcher, and it answers the remote state. */
  lemma RemoteStateCanBeAnswered(r: int) returns (acts: seq<Action>, s: State)
    ensures Run(Init(r), acts) == Some(s) && s.watchers == map[0 := Answered(Some(r))]
    ensures |acts| > 1 && acts[1] == NewWatcher(0, r)
  {
    acts, s := WaitingIsReachable(r);
    s := StepAfter(r, acts, BeginNotify(0), s);
    acts := acts + [BeginNotify(0)];
    s := StepAfter(r, acts, SetEvent(0, 0), s);
    acts := acts + [SetEvent(0, 0)];
    s := StepAfter(r, acts, WatcherStep(0), s);
    acts := acts + [WatcherStep(0)];
    s := StepAfter(r, acts, WatcherStep(0), s);
    acts := acts + [WatcherStep(0)];
  }
}
