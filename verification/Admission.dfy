/**
  Admission of capture packets into a recording, as a state machine of atomic steps under
  sequential consistency: two pin callbacks, the recording worker, the thread that starts a
  recording, and any number of threads that stop it.

  A stopping thread only ever raises the stop flag and closes admission, and may stall between
  the two or even into a later recording, so both are steps that anyone may take at any time.
*/
module Admission {

  /** What a delivery slot carries to the worker. */
  datatype Packet = Packet(video: bool, time: int, duration: int, pauseGeneration: nat, bytes: seq<int>)

  datatype Phase = Idle | Starting | Recording | Finalizing | Saved | Failed

  /** One single-producer single-consumer ring. `published` and `dequeued` remember the session. */
  datatype Ring = Ring(slots: seq<Slot>, write: nat, read: nat, published: seq<Packet>, dequeued: seq<Packet>)
  /** The slot that position `i` of a ring of `n` slots uses. */
  function SlotOf(i: nat, n: nat): (k: nat)
    requires n > 0
    ensures k < n
  {
    i % n
  }

  datatype Slot = Empty | Full(packet: Packet)

  /** Where a pin callback is: before admission, admitted, storing packets, or on its way out. */
  datatype Callback =
    | Away
    | Loaded(session: nat)
    | Checked(session: nat)
    | Entered(session: nat)
    | Rechecked(session: nat)
    | Inside(session: nat)
    | Storing(session: nat, at: nat, packets: seq<Packet>, filled: nat)
    | Leaving

  datatype Starter = NotStarting | Bumped | Cleared | Configuring

  /** Where the worker is. `broke` says it left its loop because everything was drained. */
  datatype Worker =
    | NoWorker
    | Preparing
    | Prepared
    | Looping
    | Tails(hasVideo: bool, hasAudio: bool)
    | Moved(pin: nat, packet: Packet)
    | SawStop
    | SawClosed
    | SawNoProducers
    | SawVideoTail
    | Exiting(broke: bool)
    | Flagged(broke: bool)
    | Closed(broke: bool)
    | Owning(broke: bool)
    | Released(broke: bool)
    | Concluded(broke: bool)

  datatype State = State(session: nat, stop: bool, phase: Phase, busy: bool, producers: nat,
                            starter: Starter, worker: Worker, callbacks: seq<Callback>, rings: seq<Ring>)

  datatype Action =
    // a pin callback
    | Load(pin: nat)
    | Check(pin: nat)
    | Enter(pin: nat)
    | Recheck(pin: nat)
    | Compare(pin: nat)
    | Reserve(pin: nat, packets: seq<Packet>)
    | Fill(pin: nat)
    | Publish(pin: nat)
    | Abandon(pin: nat)
    | Leave(pin: nat)
    // anyone who stops a recording
    | RaiseStop
    | CloseAdmission
    // the thread that starts a recording
    | Bump
    | ClearStop
    | BeginStarting
    | StartFails
    | Spawn
    // the worker
    | Prepare(videoSlots: nat, audioSlots: nat)
    | TryPublish
    | LoadTails
    | Take(pin: nat)
    | Advance
    | SeeStop
    | SeeClosed
    | SeeNoProducers
    | SeeVideoTail
    | SeeAudioTail
    | Again
    | Abort
    | OwnStop
    | OwnClose
    | Drain
    | Free
    | Conclude(saved: bool)
    | Unbusy

  function Initial(): State {
    State(0, false, Phase.Idle, false, 0, NotStarting, NoWorker, [Away, Away],
          [Ring([], 0, 0, [], []), Ring([], 0, 0, [], [])])
  }

  /** A callback that has been counted and has not left yet. */
  predicate Counted(c: Callback) {
    c.Entered? || c.Rechecked? || c.Inside? || c.Storing? || c.Leaving?
  }

  /** A callback that saw the recording open while it was counted. */
  predicate Admitted(c: Callback) {
    c.Rechecked? || c.Inside? || c.Storing?
  }

  /** The worker has opened, or tried to open, admission and has not passed its barrier. */
  predicate Serving(w: Worker) {
    w.Looping? || w.Tails? || w.Moved? || w.SawStop? || w.SawClosed? || w.SawNoProducers? || w.SawVideoTail?
  }

  predicate ByCallback(a: Action) {
    a.Load? || a.Check? || a.Enter? || a.Recheck? || a.Compare? || a.Reserve? || a.Fill? || a.Publish? || a.Abandon? || a.Leave?
  }

  /** Steps of stopping and of starting a recording, before its worker runs. */
  predicate Begins(a: Action) {
    a.RaiseStop? || a.CloseAdmission? || a.Bump? || a.ClearStop? || a.BeginStarting? || a.StartFails? || a.Spawn?
  }

  /** The end of the worker's life, after its loop. */
  predicate Ends(a: Action) {
    a.OwnStop? || a.OwnClose? || a.Drain? || a.Free? || a.Conclude? || a.Unbusy?
  }

  predicate CallbackEnabled(s: State, a: Action)
    requires |s.callbacks| == |s.rings| == 2 && ByCallback(a)
  {
    match a
    case Load(pin) => pin < 2 && s.callbacks[pin].Away?
    case Check(pin) => pin < 2 && s.callbacks[pin].Loaded?
    case Enter(pin) => pin < 2 && s.callbacks[pin].Checked?
    case Recheck(pin) => pin < 2 && s.callbacks[pin].Entered?
    case Compare(pin) => pin < 2 && s.callbacks[pin].Rechecked?
    case Reserve(pin, packets) =>
      && pin < 2 && s.callbacks[pin].Inside? && packets != []
      && var r := s.rings[pin]; r.read <= r.write && r.write - r.read <= |r.slots| && |packets| <= |r.slots| - (r.write - r.read)
    case Fill(pin) => pin < 2 && s.callbacks[pin].Storing? && s.callbacks[pin].filled < |s.callbacks[pin].packets| && s.rings[pin].slots != []
    case Publish(pin) => pin < 2 && s.callbacks[pin].Storing? && s.callbacks[pin].filled == |s.callbacks[pin].packets|
    case Abandon(pin) => pin < 2 && (s.callbacks[pin].Inside? || s.callbacks[pin].Storing?)
    case Leave(pin) => pin < 2 && s.callbacks[pin].Leaving? && s.producers > 0
  }

  predicate BeginEnabled(s: State, a: Action)
    requires |s.callbacks| == |s.rings| == 2 && Begins(a)
  {
    match a
    case RaiseStop => true
    case CloseAdmission => s.phase.Starting? || s.phase.Recording?
    case Bump => s.starter.NotStarting? && !s.busy
    case ClearStop => s.starter.Bumped?
    case BeginStarting => s.starter.Cleared?
    case StartFails => s.starter.Configuring?
    case Spawn => s.starter.Configuring?
  }

  predicate LoopEnabled(s: State, a: Action)
    requires |s.callbacks| == |s.rings| == 2 && !ByCallback(a) && !Begins(a) && !Ends(a)
  {
    match a
    case Prepare(v, a) => s.worker.Preparing? && v > 0 && a > 0
    case TryPublish => s.worker.Prepared?
    case LoadTails => s.worker.Looping?
    case Take(pin) =>
      && pin < 2 && s.worker.Tails? && (if pin == 0 then s.worker.hasVideo else s.worker.hasAudio)
      && var r := s.rings[pin]; r.slots != [] && r.slots[SlotOf(r.read, |r.slots|)].Full?
    case Advance => s.worker.Moved? && s.worker.pin < 2
    case SeeStop => s.worker.Tails? && !s.worker.hasVideo && !s.worker.hasAudio && s.stop
    case SeeClosed => s.worker.SawStop? && !s.phase.Recording?
    case SeeNoProducers => s.worker.SawClosed? && s.producers == 0
    case SeeVideoTail => s.worker.SawNoProducers? && s.rings[0].read == s.rings[0].write
    case SeeAudioTail => s.worker.SawVideoTail? && s.rings[1].read == s.rings[1].write
    case Again => Serving(s.worker) && !s.worker.Moved?
    case Abort => s.worker.Preparing? || s.worker.Prepared? || (Serving(s.worker) && !s.worker.Moved?)
  }

  predicate EndEnabled(s: State, a: Action)
    requires |s.callbacks| == |s.rings| == 2 && Ends(a)
  {
    match a
    case OwnStop => s.worker.Exiting?
    case OwnClose => s.worker.Flagged?
    case Drain => s.worker.Closed? && s.producers == 0
    case Free => s.worker.Owning?
    case Conclude(_) => s.worker.Released?
    case Unbusy => s.worker.Concluded?
  }

  predicate Enabled(s: State, a: Action) {
    && |s.callbacks| == |s.rings| == 2
    && (if ByCallback(a) then CallbackEnabled(s, a)
        else if Begins(a) then BeginEnabled(s, a)
        else if Ends(a) then EndEnabled(s, a)
        else LoopEnabled(s, a))
  }

  function SetCallback(s: State, pin: nat, c: Callback): State
    requires pin < |s.callbacks|
  {
    s.(callbacks := s.callbacks[pin := c])
  }

  function SetRing(s: State, pin: nat, r: Ring): State
    requires pin < |s.rings|
  {
    s.(rings := s.rings[pin := r])
  }

  function Cleared(slots: nat): (r: Ring)
    ensures |r.slots| == slots
  {
    Ring(seq(slots, _ => Empty), 0, 0, [], [])
  }

  function CallbackStep(s: State, a: Action): State
    requires |s.callbacks| == |s.rings| == 2 && ByCallback(a) && CallbackEnabled(s, a)
  {
    match a
    case Load(pin) => SetCallback(s, pin, Loaded(s.session))
    case Check(pin) => SetCallback(s, pin, if s.phase.Recording? then Checked(s.callbacks[pin].session) else Away)
    case Enter(pin) => SetCallback(s, pin, Entered(s.callbacks[pin].session)).(producers := s.producers + 1)
    case Recheck(pin) => SetCallback(s, pin, if s.phase.Recording? then Rechecked(s.callbacks[pin].session) else Leaving)
    case Compare(pin) =>
      SetCallback(s, pin, if s.callbacks[pin].session == s.session then Inside(s.callbacks[pin].session) else Leaving)
    case Reserve(pin, packets) =>
      SetCallback(s, pin, Storing(s.callbacks[pin].session, s.rings[pin].write, packets, 0))
    case Fill(pin) =>
      var c, r := s.callbacks[pin], s.rings[pin];
      SetRing(SetCallback(s, pin, c.(filled := c.filled + 1)), pin,
              r.(slots := r.slots[SlotOf(c.at + c.filled, |r.slots|) := Full(c.packets[c.filled])]))
    case Publish(pin) =>
      var c, r := s.callbacks[pin], s.rings[pin];
      SetRing(SetCallback(s, pin, Leaving), pin, r.(write := c.at + |c.packets|, published := r.published + c.packets))
    case Abandon(pin) => SetCallback(s, pin, Leaving)
    case Leave(pin) => SetCallback(s, pin, Away).(producers := s.producers - 1)
  }

  function BeginStep(s: State, a: Action): State
    requires |s.callbacks| == |s.rings| == 2 && Begins(a) && BeginEnabled(s, a)
  {
    match a
    case RaiseStop => s.(stop := true)
    case CloseAdmission => s.(phase := Finalizing)
    case Bump => s.(session := s.session + 1, starter := Bumped)
    case ClearStop => s.(stop := false, starter := Starter.Cleared)
    case BeginStarting => s.(phase := Starting, starter := Configuring)
    case StartFails => s.(stop := true, phase := Phase.Failed, starter := NotStarting)
    case Spawn => s.(busy := true, worker := Preparing, starter := NotStarting)
  }

  function LoopStep(s: State, a: Action): State
    requires |s.callbacks| == |s.rings| == 2 && !ByCallback(a) && !Begins(a) && !Ends(a) && LoopEnabled(s, a)
  {
    match a
    case Prepare(v, a) => s.(rings := [Cleared(v), Cleared(a)], worker := Prepared)
    case TryPublish =>
      if s.phase.Starting? then s.(phase := Recording, worker := Looping) else s.(stop := true, worker := Looping)
    case LoadTails =>
      s.(worker := Tails(s.rings[0].read != s.rings[0].write, s.rings[1].read != s.rings[1].write))
    case Take(pin) =>
      var r := s.rings[pin];
      var i := SlotOf(r.read, |r.slots|);
      SetRing(s, pin, r.(slots := r.slots[i := Empty])).(worker := Moved(pin, r.slots[i].packet))
    case Advance =>
      var r := s.rings[s.worker.pin];
      SetRing(s, s.worker.pin, r.(read := r.read + 1, dequeued := r.dequeued + [s.worker.packet])).(worker := Looping)
    case SeeStop => s.(worker := SawStop)
    case SeeClosed => s.(worker := SawClosed)
    case SeeNoProducers => s.(worker := SawNoProducers)
    case SeeVideoTail => s.(worker := SawVideoTail)
    case SeeAudioTail => s.(worker := Exiting(true))
    case Again => s.(worker := Looping)
    case Abort => s.(worker := Exiting(false))
  }

  function EndStep(s: State, a: Action): State
    requires |s.callbacks| == |s.rings| == 2 && Ends(a) && EndEnabled(s, a)
  {
    match a
    case OwnStop => s.(stop := true, worker := Flagged(s.worker.broke))
    case OwnClose =>
      s.(phase := if s.phase.Starting? || s.phase.Recording? then Finalizing else s.phase, worker := Closed(s.worker.broke))
    case Drain => s.(worker := Owning(s.worker.broke))
    case Free =>
      s.(rings := [s.rings[0].(slots := []), s.rings[1].(slots := [])], worker := Released(s.worker.broke))
    case Conclude(saved) => s.(phase := if saved then Saved else Phase.Failed, worker := Concluded(s.worker.broke))
    case Unbusy => s.(busy := false, worker := NoWorker)
  }

  function Apply(s: State, a: Action): State
    requires Enabled(s, a)
  {
    if ByCallback(a) then CallbackStep(s, a)
    else if Begins(a) then BeginStep(s, a)
    else if Ends(a) then EndStep(s, a)
    else LoopStep(s, a)
  }

  // ---- the invariant ----

  /** A ring holds exactly the published, not yet dequeued packets, oldest first, and a batch
      being stored only uses slots that hold none of them. */
  ghost predicate RingOk(r: Ring, held: bool, c: Callback) {
    && r.read <= r.write == |r.published| && r.dequeued == r.published[..r.read]
    && (r.slots == [] ==> !held && !c.Storing?)
    && (held ==> r.read < r.write)
    && (r.slots != [] ==> r.write - r.read <= |r.slots|)
    && (r.slots != [] ==> forall i :: (if held then r.read + 1 else r.read) <= i < r.write ==>
          r.slots[SlotOf(i, |r.slots|)] == Full(r.published[i]))
    && (c.Storing? ==>
          && c.at == r.write && c.filled <= |c.packets| && r.write + |c.packets| - r.read <= |r.slots|
          && forall i :: c.at <= i < c.at + c.filled ==> r.slots[SlotOf(i, |r.slots|)] == Full(c.packets[i - c.at]))
  }

  ghost predicate Holds(w: Worker, pin: nat) {
    w.Moved? && w.pin == pin
  }

  function CountOf(c: Callback): nat {
    if Counted(c) then 1 else 0
  }

  /** The worker left its loop after seeing everything drained, or is about to. */
  predicate Drained(w: Worker) {
    w.SawNoProducers? || w.SawVideoTail? || ((w.Exiting? || w.Flagged? || w.Closed? || w.Owning? || w.Released? || w.Concluded?) && w.broke)
  }

  predicate Broke(w: Worker) {
    (w.Exiting? || w.Flagged? || w.Closed? || w.Owning? || w.Released? || w.Concluded?) && w.broke
  }

  /** Before the barrier of the worker, when admitted callbacks may still be at work. */
  predicate Open(w: Worker) {
    Serving(w) || w.Exiting? || w.Flagged? || w.Closed?
  }

  ghost predicate Control(s: State) {
    && |s.callbacks| == |s.rings| == 2
    && s.producers == CountOf(s.callbacks[0]) + CountOf(s.callbacks[1])
    && (s.busy <==> !s.worker.NoWorker?)
    && (!s.starter.NotStarting? ==> !s.busy)
    && (s.phase.Recording? ==> Serving(s.worker) || s.worker.Exiting? || s.worker.Flagged?)
    && (s.phase.Starting? ==> s.starter.Configuring? || s.worker.Preparing? || s.worker.Prepared? || s.worker.Exiting? || s.worker.Flagged?)
    && (s.worker.SawClosed? || Drained(s.worker) ==> !s.phase.Recording?)
  }

  ghost predicate Admission(s: State, pin: nat)
    requires pin < |s.callbacks|
  {
    var c := s.callbacks[pin];
    && (Admitted(c) ==> Open(s.worker) && !Drained(s.worker))
    && (c.Inside? || c.Storing? ==> c.session == s.session)
  }

  ghost predicate Rings(s: State)
    requires |s.callbacks| == |s.rings| == 2
  {
    && RingOk(s.rings[0], Holds(s.worker, 0), s.callbacks[0])
    && RingOk(s.rings[1], Holds(s.worker, 1), s.callbacks[1])
    && (s.worker.Prepared? || Serving(s.worker) ==> s.rings[0].slots != [] && s.rings[1].slots != [])
    && (s.worker.Moved? ==> s.worker.pin < 2 && s.rings[s.worker.pin].read < s.rings[s.worker.pin].write
                            && s.worker.packet == s.rings[s.worker.pin].published[s.rings[s.worker.pin].read])
    && (s.worker.Tails? && s.worker.hasVideo ==> s.rings[0].read < s.rings[0].write)
    && (s.worker.Tails? && s.worker.hasAudio ==> s.rings[1].read < s.rings[1].write)
    && (s.worker.SawVideoTail? ==> s.rings[0].read == s.rings[0].write)
    && (Broke(s.worker) ==> s.rings[0].read == s.rings[0].write && s.rings[1].read == s.rings[1].write)
  }

  ghost predicate Inv(s: State) {
    Control(s) && Admission(s, 0) && Admission(s, 1) && Rings(s)
  }

  lemma InitialInv()
    ensures Inv(Initial())
  {
  }

  // ---- every step keeps it ----

  predicate MovesPackets(a: Action) {
    a.Fill? || a.Publish? || a.Reserve? || a.Take? || a.Advance? || a.Prepare? || a.Free?
  }

  /** What a callback's step leaves alone. */
  lemma CallbackFrame(s: State, a: Action)
    requires Enabled(s, a) && ByCallback(a)
    ensures a.pin < 2
    ensures var t := Apply(s, a);
            && t.session == s.session && t.stop == s.stop && t.phase == s.phase && t.busy == s.busy
            && t.starter == s.starter && t.worker == s.worker && |t.callbacks| == |t.rings| == 2
            && t.callbacks[1 - a.pin] == s.callbacks[1 - a.pin]
  {
    hide SlotOf, Cleared, BeginEnabled, BeginStep, LoopEnabled, LoopStep, EndEnabled, EndStep;
  }

  /** A callback is counted from its entry until it leaves. */
  lemma CallbackCounted(s: State, a: Action)
    requires Enabled(s, a) && ByCallback(a)
    ensures |Apply(s, a).callbacks| == 2
    ensures Apply(s, a).producers + CountOf(s.callbacks[a.pin]) == s.producers + CountOf(Apply(s, a).callbacks[a.pin])
  {
    hide SlotOf, Cleared, BeginEnabled, BeginStep, LoopEnabled, LoopStep, EndEnabled, EndStep;
  }

  /** The session a callback remembers, if it still matters. */
  predicate Remembers(c: Callback) {
    !c.Away? && !c.Leaving?
  }

  /** How a callback moves on: it remembers the session it loaded, and gets inside only if
      that is the current one. */
  lemma CallbackMemory(s: State, a: Action)
    requires Enabled(s, a) && ByCallback(a)
    ensures |Apply(s, a).callbacks| == |s.callbacks| == 2 && a.pin < 2
    ensures var c, d := s.callbacks[a.pin], Apply(s, a).callbacks[a.pin];
            && (Remembers(d) ==> if a.Load? then d.session == s.session else Remembers(c) && d.session == c.session)
            && (c.Away? <==> a.Load?)
            && (d.Inside? && !c.Inside? ==> c.Rechecked? && c.session == s.session)
            && (d.Storing? ==> c.Inside? || c.Storing?)
  {
    hide SlotOf, BeginEnabled, BeginStep, LoopEnabled, LoopStep, EndEnabled, EndStep;
  }

  lemma CallbackAdmitted(s: State, a: Action)
    requires Enabled(s, a) && ByCallback(a)
    ensures |Apply(s, a).callbacks| == |s.callbacks| == 2 && a.pin < 2
    ensures var c, d := s.callbacks[a.pin], Apply(s, a).callbacks[a.pin];
            && (Admitted(d) && !Admitted(c) ==> s.phase.Recording?)
            && (d.Inside? || d.Storing? ==> d.session == s.session || ((c.Inside? || c.Storing?) && d.session == c.session))
  {
    hide SlotOf, BeginEnabled, BeginStep, LoopEnabled, LoopStep, EndEnabled, EndStep;
  }

  lemma BeginFrame(s: State, a: Action)
    requires Enabled(s, a) && Begins(a)
    ensures var t := Apply(s, a);
            && t.rings == s.rings && t.callbacks == s.callbacks && t.producers == s.producers
            && |t.rings| == |t.callbacks| == 2 && t.session == (if a.Bump? then s.session + 1 else s.session)
            && t.worker == (if a.Spawn? then Preparing else s.worker)
            && (t.phase.Recording? ==> s.phase.Recording?)
            && (a.Bump? ==> s.starter.NotStarting? && !s.busy)
            && (a.ClearStop? || a.BeginStarting? || a.StartFails? || a.Spawn? ==> !s.starter.NotStarting?)
            && (a.RaiseStop? || a.CloseAdmission? ==> t.starter == s.starter)
  {
    hide CallbackEnabled, CallbackStep, LoopEnabled, LoopStep, EndEnabled, EndStep;
  }

  lemma LoopFrame(s: State, a: Action)
    requires Enabled(s, a) && !ByCallback(a) && !Begins(a) && !Ends(a)
    ensures var t := Apply(s, a);
            && t.callbacks == s.callbacks && t.producers == s.producers && |t.rings| == |t.callbacks| == 2
            && t.session == s.session && t.starter == s.starter && t.busy == s.busy
            && (a.Prepare? ==> s.worker.Preparing?) && (t.worker.Prepared? ==> a.Prepare?)
            && (!a.Prepare? ==> Serving(s.worker) || s.worker.Prepared? || (a.Abort? && s.worker.Preparing?))
            && (Serving(t.worker) || t.worker.Prepared? || t.worker == Exiting(a.SeeAudioTail?))
            && (Drained(t.worker) ==> (s.worker.SawClosed? && s.producers == 0) || Drained(s.worker))
  {
    hide SlotOf, Cleared, CallbackEnabled, CallbackStep, BeginEnabled, BeginStep, EndEnabled, EndStep;
  }

  /** What the worker found out about the rings, when it moves no packet. */
  lemma LookFrame(s: State, a: Action)
    requires Enabled(s, a) && !ByCallback(a) && !Begins(a) && !Ends(a) && !MovesPackets(a)
    ensures var t := Apply(s, a);
            && t.rings == s.rings && !s.worker.Moved? && !t.worker.Moved?
            && (t.worker.Tails? ==> t.worker.hasVideo == (s.rings[0].read != s.rings[0].write)
                                    && t.worker.hasAudio == (s.rings[1].read != s.rings[1].write))
            && (t.worker.SawVideoTail? ==> s.rings[0].read == s.rings[0].write)
            && (t.worker.Prepared? || Serving(t.worker) ==> s.worker.Prepared? || Serving(s.worker))
            && (Broke(t.worker) ==> s.worker.SawVideoTail? && s.rings[1].read == s.rings[1].write)
  {
    hide SlotOf, Cleared, CallbackEnabled, CallbackStep, BeginEnabled, BeginStep, EndEnabled, EndStep;
  }

  lemma EndFrame(s: State, a: Action)
    requires Enabled(s, a) && Ends(a)
    ensures var t := Apply(s, a);
            && t.callbacks == s.callbacks && t.producers == s.producers && t.session == s.session && t.starter == s.starter
            && |t.rings| == |t.callbacks| == 2 && (!a.Free? ==> t.rings == s.rings)
            && !s.worker.Moved? && !s.worker.NoWorker? && !t.worker.Prepared? && !Serving(t.worker)
            && (Broke(t.worker) ==> Broke(s.worker)) && (Drained(t.worker) ==> Drained(s.worker))
            && (Open(s.worker) ==> Open(t.worker) || (a.Drain? && s.producers == 0))
            && (Broke(s.worker) ==> Broke(t.worker) || t.worker.NoWorker?)
  {
    hide SlotOf, Cleared, CallbackEnabled, CallbackStep, BeginEnabled, BeginStep, LoopEnabled, LoopStep;
    match a {
      case OwnStop =>
      case OwnClose =>
      case Drain =>
      case Free =>
      case Conclude(_) =>
      case Unbusy =>
    }
  }

  /** The end of the worker frees slots, but what was published and dequeued stays. */
  lemma EndKeeps(s: State, a: Action)
    requires Enabled(s, a) && Ends(a)
    ensures |Apply(s, a).rings| == 2
    ensures forall pin :: 0 <= pin < 2 ==>
              Apply(s, a).rings[pin].published == s.rings[pin].published && Apply(s, a).rings[pin].dequeued == s.rings[pin].dequeued
  {
    hide SlotOf, Cleared, CallbackEnabled, CallbackStep, BeginEnabled, BeginStep, LoopEnabled, LoopStep;
  }

  lemma CallbackControl(s: State, a: Action)
    requires Inv(s) && Enabled(s, a) && ByCallback(a)
    ensures Control(Apply(s, a))
  {
    hide Enabled, Apply, Rings, Admission;
    CallbackFrame(s, a);
    CallbackCounted(s, a);
  }

  lemma OtherControl(s: State, a: Action)
    requires Inv(s) && Enabled(s, a) && !ByCallback(a)
    ensures Control(Apply(s, a))
  {
    hide Inv, Enabled, Apply, Control;
    if Begins(a) { BeginControl(s, a); } else if Ends(a) { EndControl(s, a); } else { LoopControl(s, a); }
  }

  lemma BeginControl(s: State, a: Action)
    requires Inv(s) && Enabled(s, a) && Begins(a)
    ensures Control(Apply(s, a))
  {
    hide Rings, Admission, CallbackEnabled, CallbackStep, LoopEnabled, LoopStep, EndEnabled, EndStep;
  }

  lemma EndControl(s: State, a: Action)
    requires Inv(s) && Enabled(s, a) && Ends(a)
    ensures Control(Apply(s, a))
  {
    hide Rings, Admission, Enabled, Apply, RingOk;
    EndFrame(s, a);
    EndPhase(s, a);
  }

  lemma EndPhase(s: State, a: Action)
    requires Enabled(s, a) && Ends(a)
    ensures var t := Apply(s, a);
            && (t.phase == s.phase || (!t.phase.Recording? && !t.phase.Starting?))
            && (a.OwnStop? ==> t.worker.Flagged?)
            && (!a.OwnStop? ==> (!t.phase.Recording? && !t.phase.Starting?) || !(s.worker.Exiting? || s.worker.Flagged?))
            && !Serving(s.worker) && !s.worker.Preparing? && !s.worker.Prepared?
            && (t.worker.NoWorker? <==> a.Unbusy?) && t.busy == (s.busy && !a.Unbusy?)
            && !t.worker.SawClosed?
  {
    hide SlotOf, Cleared, CallbackEnabled, CallbackStep, BeginEnabled, BeginStep, LoopEnabled, LoopStep;
  }

  lemma LoopControl(s: State, a: Action)
    requires Inv(s) && Enabled(s, a) && !ByCallback(a) && !Begins(a) && !Ends(a)
    ensures Control(Apply(s, a))
  {
    hide SlotOf, Cleared, Rings, Admission, CallbackEnabled, CallbackStep, BeginEnabled, BeginStep, EndEnabled, EndStep;
  }

  lemma CallbackAdmission(s: State, a: Action)
    requires Inv(s) && Enabled(s, a) && ByCallback(a)
    ensures |Apply(s, a).callbacks| == 2 && Admission(Apply(s, a), 0) && Admission(Apply(s, a), 1)
  {
    hide Rings, Enabled, Apply;
    CallbackFrame(s, a);
    CallbackAdmitted(s, a);
  }

  lemma OtherAdmission(s: State, a: Action)
    requires Inv(s) && Enabled(s, a) && !ByCallback(a)
    ensures |Apply(s, a).callbacks| == 2 && Admission(Apply(s, a), 0) && Admission(Apply(s, a), 1)
  {
    hide Inv, Enabled, Apply, Admission;
    if Begins(a) { BeginAdmission(s, a); } else if Ends(a) { EndAdmission(s, a); } else { LoopAdmission(s, a); }
  }

  lemma BeginAdmission(s: State, a: Action)
    requires Inv(s) && Enabled(s, a) && Begins(a)
    ensures |Apply(s, a).callbacks| == 2 && Admission(Apply(s, a), 0) && Admission(Apply(s, a), 1)
  {
    hide Rings, Enabled, Apply;
    BeginFrame(s, a);
  }

  lemma EndAdmission(s: State, a: Action)
    requires Inv(s) && Enabled(s, a) && Ends(a)
    ensures |Apply(s, a).callbacks| == 2 && Admission(Apply(s, a), 0) && Admission(Apply(s, a), 1)
  {
    hide Rings, Enabled, Apply;
    EndFrame(s, a);
  }

  lemma LoopAdmission(s: State, a: Action)
    requires Inv(s) && Enabled(s, a) && !ByCallback(a) && !Begins(a) && !Ends(a)
    ensures |Apply(s, a).callbacks| == 2 && Admission(Apply(s, a), 0) && Admission(Apply(s, a), 1)
  {
    hide Rings, Enabled, Apply;
    LoopFrame(s, a);
  }

  lemma SlotsRepeat(i: nat, j: nat, n: nat)
    requires n > 0 && i < j && i % n == j % n
    ensures i + n <= j
  {
    var q := j / n - i / n;
    assert n * (j / n) - n * (i / n) == n * q;
    assert j - i == n * q;
    assert q <= 0 ==> n * q <= 0;
    assert q >= 1 ==> n * q >= n;
  }

  /** Positions closer than the ring is long use different slots. */
  lemma DistinctSlots(i: nat, j: nat, n: nat)
    requires i < j < i + n
    ensures SlotOf(i, n) != SlotOf(j, n)
  {
    if i % n == j % n { SlotsRepeat(i, j, n); }
  }

  lemma FillOk(r: Ring, held: bool, c: Callback)
    requires RingOk(r, held, c) && c.Storing? && c.filled < |c.packets|
    ensures r.slots != []
    ensures var r' := r.(slots := r.slots[SlotOf(c.at + c.filled, |r.slots|) := Full(c.packets[c.filled])]);
            RingOk(r', held, c.(filled := c.filled + 1))
  {
    hide SlotOf;
    var n := |r.slots|;
    forall i | r.read <= i < r.write ensures SlotOf(i, n) != SlotOf(c.at + c.filled, n) {
      DistinctSlots(i, c.at + c.filled, n);
    }
    forall i | c.at <= i < c.at + c.filled ensures SlotOf(i, n) != SlotOf(c.at + c.filled, n) {
      DistinctSlots(i, c.at + c.filled, n);
    }
  }

  lemma PublishOk(r: Ring, held: bool, c: Callback)
    requires RingOk(r, held, c) && c.Storing? && c.filled == |c.packets|
    ensures RingOk(r.(write := c.at + |c.packets|, published := r.published + c.packets), held, Leaving)
  {
  }

  lemma TakeOk(r: Ring, c: Callback)
    requires RingOk(r, false, c) && r.slots != [] && r.read < r.write
    ensures r.slots[SlotOf(r.read, |r.slots|)] == Full(r.published[r.read])
    ensures RingOk(r.(slots := r.slots[SlotOf(r.read, |r.slots|) := Empty]), true, c)
  {
    hide SlotOf;
    var n := |r.slots|;
    forall i | r.read < i < r.write ensures SlotOf(i, n) != SlotOf(r.read, n) {
      DistinctSlots(r.read, i, n);
    }
    if c.Storing? {
      forall i | c.at <= i < c.at + c.filled ensures SlotOf(i, n) != SlotOf(r.read, n) {
        DistinctSlots(r.read, i, n);
      }
    }
  }

  lemma AdvanceOk(r: Ring, c: Callback, p: Packet)
    requires RingOk(r, true, c) && p == r.published[r.read]
    ensures RingOk(r.(read := r.read + 1, dequeued := r.dequeued + [p]), false, c)
  {
  }

  lemma ReserveOk(r: Ring, held: bool, c: Callback, session: nat, packets: seq<Packet>)
    requires RingOk(r, held, c) && packets != [] && |packets| <= |r.slots| - (r.write - r.read)
    ensures RingOk(r, held, Storing(session, r.write, packets, 0))
  {
  }

  lemma CallbackMoves(r: Ring, held: bool, c: Callback, c': Callback)
    requires RingOk(r, held, c) && !c'.Storing?
    ensures RingOk(r, held, c')
  {
  }

  lemma Levels(r: Ring, held: bool, c: Callback)
    requires RingOk(r, held, c)
    ensures r.read <= r.write == |r.published| && r.dequeued == r.published[..r.read]
    ensures c.Storing? ==> c.at == r.write
  {
  }

  lemma CallbackRings(s: State, a: Action)
    requires Inv(s) && Enabled(s, a) && ByCallback(a) && !MovesPackets(a)
    ensures |Apply(s, a).callbacks| == |Apply(s, a).rings| == 2 && Rings(Apply(s, a))
  {
    hide RingOk, SlotOf, BeginEnabled, BeginStep, LoopEnabled, LoopStep, EndEnabled, EndStep;
    var t := Apply(s, a);
    assert t.rings == s.rings && t.worker == s.worker;
    CallbackMoves(s.rings[a.pin], Holds(s.worker, a.pin), s.callbacks[a.pin], t.callbacks[a.pin]);
  }

  /** The worker that moved on is at no place that tells it about the rings' contents. */
  lemma WorkerLeaves(s: State, t: State)
    requires |s.callbacks| == |s.rings| == 2 && Rings(s) && t.rings == s.rings && t.callbacks == s.callbacks
    requires t.worker == s.worker
             || (!t.worker.Prepared? && !Serving(t.worker) && !s.worker.Moved? && (Broke(t.worker) ==> Broke(s.worker)))
    ensures Rings(t)
  {
    hide RingOk;
  }

  lemma BeginRings(s: State, a: Action)
    requires Inv(s) && Enabled(s, a) && Begins(a)
    ensures |Apply(s, a).callbacks| == |Apply(s, a).rings| == 2 && Rings(Apply(s, a))
  {
    hide Admission, Rings, Enabled, Apply;
    BeginFrame(s, a);
    WorkerLeaves(s, Apply(s, a));
  }

  lemma EndRings(s: State, a: Action)
    requires Inv(s) && Enabled(s, a) && Ends(a) && !a.Free?
    ensures |Apply(s, a).callbacks| == |Apply(s, a).rings| == 2 && Rings(Apply(s, a))
  {
    hide Admission, Control, Rings, Enabled, Apply;
    EndFrame(s, a);
    WorkerLeaves(s, Apply(s, a));
  }

  lemma LoopRings(s: State, a: Action)
    requires Inv(s) && Enabled(s, a) && !ByCallback(a) && !MovesPackets(a) && !Begins(a) && !Ends(a)
    ensures |Apply(s, a).callbacks| == |Apply(s, a).rings| == 2 && Rings(Apply(s, a))
  {
    hide RingOk, Admission, Control, Enabled, Apply;
    LoopFrame(s, a);
    LookFrame(s, a);
    Levels(s.rings[0], Holds(s.worker, 0), s.callbacks[0]);
    Levels(s.rings[1], Holds(s.worker, 1), s.callbacks[1]);
  }

  lemma RingsProduced(s: State, a: Action)
    requires Inv(s) && Enabled(s, a) && (a.Fill? || a.Publish? || a.Reserve?)
    ensures |Apply(s, a).callbacks| == |Apply(s, a).rings| == 2 && Rings(Apply(s, a))
  {
    hide RingOk, SlotOf, BeginEnabled, BeginStep, LoopEnabled, LoopStep, EndEnabled, EndStep;
    var pin := a.pin;
    var r, c, held := s.rings[pin], s.callbacks[pin], Holds(s.worker, pin);
    Levels(r, held, c);
    if a.Fill? { FillOk(r, held, c); }
    else if a.Publish? { PublishOk(r, held, c); }
    else { ReserveOk(r, held, c, c.session, a.packets); }
  }

  lemma RingsConsumed(s: State, a: Action)
    requires Inv(s) && Enabled(s, a) && (a.Take? || a.Advance?)
    ensures |Apply(s, a).callbacks| == |Apply(s, a).rings| == 2 && Rings(Apply(s, a))
  {
    hide RingOk, SlotOf, CallbackEnabled, CallbackStep, BeginEnabled, BeginStep, EndEnabled, EndStep;
    if a.Take? { TakeOk(s.rings[a.pin], s.callbacks[a.pin]); }
    else { AdvanceOk(s.rings[s.worker.pin], s.callbacks[s.worker.pin], s.worker.packet); }
  }

  lemma RingsReplaced(s: State, a: Action)
    requires Inv(s) && Enabled(s, a) && (a.Prepare? || a.Free?)
    ensures |Apply(s, a).callbacks| == |Apply(s, a).rings| == 2 && Rings(Apply(s, a))
  {
    hide CallbackEnabled, CallbackStep, BeginEnabled, BeginStep;
  }

  lemma RingsStep(s: State, a: Action)
    requires Inv(s) && Enabled(s, a)
    ensures |Apply(s, a).callbacks| == |Apply(s, a).rings| == 2 && Rings(Apply(s, a))
  {
    hide Inv, Rings, Apply, Enabled;
    if !MovesPackets(a) && ByCallback(a) { CallbackRings(s, a); }
    else if Begins(a) { BeginRings(s, a); }
    else if Ends(a) && !a.Free? { EndRings(s, a); }
    else if !MovesPackets(a) { LoopRings(s, a); }
    else if a.Take? || a.Advance? { RingsConsumed(s, a); }
    else if a.Prepare? || a.Free? { RingsReplaced(s, a); }
    else { RingsProduced(s, a); }
  }

  lemma StepInv(s: State, a: Action)
    requires Inv(s) && Enabled(s, a)
    ensures Inv(Apply(s, a))
  {
    hide Rings, Control, Admission, Enabled, Apply;
    if ByCallback(a) {
      CallbackControl(s, a);
      CallbackAdmission(s, a);
    } else {
      OtherControl(s, a);
      OtherAdmission(s, a);
    }
    RingsStep(s, a);
  }

  // ---- what the protocol guarantees ----

  /** A run: every state follows from the one before it by one atomic step. */
  ghost predicate Run(trace: seq<State>, actions: seq<Action>) {
    && |trace| == |actions| + 1 && trace[0] == Initial()
    && forall i :: 0 <= i < |actions| ==> Enabled(trace[i], actions[i]) && trace[i + 1] == Apply(trace[i], actions[i])
  }

  lemma {:induction false} RunInv(trace: seq<State>, actions: seq<Action>, n: nat)
    requires Run(trace, actions) && n < |trace|
    ensures Inv(trace[n])
  {
    hide Inv, Enabled, Apply, Initial;
    if n == 0 {
      InitialInv();
    } else {
      RunInv(trace, actions, n - 1);
      StepInv(trace[n - 1], actions[n - 1]);
    }
  }

  /** A callback that passed its second admission check belongs to the current recording, and
      the worker is neither preparing nor freeing the rings and pools, nor is anyone starting. */
  lemma RingOwnership(trace: seq<State>, actions: seq<Action>, n: nat, pin: nat)
    requires Run(trace, actions) && n < |trace| && pin < 2
    ensures |trace[n].callbacks| == 2
    ensures var c, s := trace[n].callbacks[pin], trace[n];
            c.Inside? || c.Storing? ==>
              c.session == s.session && Open(s.worker) && !Broke(s.worker) && s.starter.NotStarting? && s.busy
    ensures n + 1 < |trace| && (actions[n].Prepare? || actions[n].Free? || actions[n].BeginStarting?) ==>
              !Admitted(trace[n].callbacks[pin]) && !Admitted(trace[n + 1].callbacks[pin])
  {
    hide Inv, Enabled, Apply, Initial;
    RunInv(trace, actions, n);
    InsideOwns(trace[n], pin);
    if n + 1 < |trace| && (actions[n].Prepare? || actions[n].Free? || actions[n].BeginStarting?) {
      NobodyInside(trace[n], actions[n], pin);
    }
  }

  lemma InsideOwns(s: State, pin: nat)
    requires Inv(s) && pin < 2
    ensures |s.callbacks| == 2
    ensures var c := s.callbacks[pin];
            c.Inside? || c.Storing? ==>
              c.session == s.session && Open(s.worker) && !Broke(s.worker) && s.starter.NotStarting? && s.busy
  {
    hide Rings;
  }

  lemma NobodyInside(s: State, a: Action, pin: nat)
    requires Inv(s) && Enabled(s, a) && pin < 2 && (a.Prepare? || a.Free? || a.BeginStarting?)
    ensures |Apply(s, a).callbacks| == 2
    ensures !Admitted(s.callbacks[pin]) && !Admitted(Apply(s, a).callbacks[pin])
  {
    hide Rings, Cleared;
  }

  /** Storing a packet never overwrites one the worker has not dequeued. */
  lemma NoOverwrite(trace: seq<State>, actions: seq<Action>, n: nat)
    requires Run(trace, actions) && n < |actions| && actions[n].Fill?
    ensures var s, pin := trace[n], actions[n].pin;
            var r, c := s.rings[pin], s.callbacks[pin];
            forall i :: r.read <= i < r.write ==> SlotOf(i, |r.slots|) != SlotOf(c.at + c.filled, |r.slots|)
  {
    hide SlotOf, Admission, Control, RingOk, BeginEnabled, BeginStep, LoopEnabled, LoopStep, EndEnabled, EndStep, CallbackStep;
    RunInv(trace, actions, n);
    var s, pin := trace[n], actions[n].pin;
    SlotsApart(s.rings[pin], Holds(s.worker, pin), s.callbacks[pin]);
  }

  lemma SlotsApart(r: Ring, held: bool, c: Callback)
    requires RingOk(r, held, c) && c.Storing? && c.filled < |c.packets|
    ensures r.slots != [] && forall i :: r.read <= i < r.write ==> SlotOf(i, |r.slots|) != SlotOf(c.at + c.filled, |r.slots|)
  {
    hide SlotOf;
    forall i | r.read <= i < r.write ensures SlotOf(i, |r.slots|) != SlotOf(c.at + c.filled, |r.slots|) {
      DistinctSlots(i, c.at + c.filled, |r.slots|);
    }
  }

  /** Whenever the worker saw a packet, the slot it takes holds the oldest undequeued one. */
  lemma TakesOldest(trace: seq<State>, actions: seq<Action>, n: nat, pin: nat)
    requires Run(trace, actions) && n < |trace| && pin < 2
    requires trace[n].worker.Tails? && (if pin == 0 then trace[n].worker.hasVideo else trace[n].worker.hasAudio)
    ensures |trace[n].callbacks| == |trace[n].rings| == 2
    ensures Enabled(trace[n], Take(pin)) && |trace[n].rings[pin].dequeued| < |trace[n].rings[pin].published|
    ensures var r := trace[n].rings[pin]; Apply(trace[n], Take(pin)).worker == Moved(pin, r.published[|r.dequeued|])
  {
    hide CallbackEnabled, CallbackStep, BeginEnabled, BeginStep, EndEnabled, EndStep;
    RunInv(trace, actions, n);
    hide SlotOf, Admission, Control;
    TakeOk(trace[n].rings[pin], trace[n].callbacks[pin]);
  }

  /** When the worker leaves its loop through the final check, everything published in this
      recording has been dequeued exactly once, in publication order. */
  lemma NothingLeftBehind(trace: seq<State>, actions: seq<Action>, n: nat)
    requires Run(trace, actions) && n < |trace| && Broke(trace[n].worker)
    ensures |trace[n].rings| == |trace[n].callbacks| == 2
    ensures forall pin :: 0 <= pin < 2 ==> trace[n].rings[pin].dequeued == trace[n].rings[pin].published
    ensures forall pin :: 0 <= pin < 2 ==> !Admitted(trace[n].callbacks[pin])
  {
    RunInv(trace, actions, n);
    hide SlotOf;
    assert RingOk(trace[n].rings[0], Holds(trace[n].worker, 0), trace[n].callbacks[0]);
    assert RingOk(trace[n].rings[1], Holds(trace[n].worker, 1), trace[n].callbacks[1]);
  }

  /** The recording is over for the rings: the worker is past its loop, or gone. */
  ghost predicate Quiet(s: State) {
    && |s.callbacks| == |s.rings| == 2
    && (Broke(s.worker) || (s.worker.NoWorker? && s.starter.NotStarting?))
  }

  lemma QuietStep(s: State, a: Action)
    requires Inv(s) && Quiet(s) && Enabled(s, a)
    ensures Apply(s, a).session == s.session ==> Quiet(Apply(s, a))
    ensures |Apply(s, a).rings| == 2
    ensures forall pin :: 0 <= pin < 2 ==>
              Apply(s, a).rings[pin].published == s.rings[pin].published && Apply(s, a).rings[pin].dequeued == s.rings[pin].dequeued
  {
    if ByCallback(a) { QuietCallback(s, a); } else { QuietOther(s, a); }
  }

  /** A callback still under way when the rings went quiet was never admitted. */
  lemma QuietCallback(s: State, a: Action)
    requires Inv(s) && Quiet(s) && Enabled(s, a) && ByCallback(a)
    ensures Quiet(Apply(s, a)) && Apply(s, a).rings == s.rings
  {
    hide Rings, Control, Enabled, Apply;
    CallbackFrame(s, a);
    CallbackStores(s, a);
  }

  /** Only a callback that was let in touches its ring. */
  lemma CallbackStores(s: State, a: Action)
    requires Enabled(s, a) && ByCallback(a)
    ensures a.pin < 2 && (!Admitted(s.callbacks[a.pin]) ==> Apply(s, a).rings == s.rings)
  {
    hide SlotOf, BeginEnabled, BeginStep, LoopEnabled, LoopStep, EndEnabled, EndStep;
  }

  lemma QuietOther(s: State, a: Action)
    requires Inv(s) && Quiet(s) && Enabled(s, a) && !ByCallback(a)
    ensures Apply(s, a).session == s.session ==> Quiet(Apply(s, a))
    ensures |Apply(s, a).rings| == 2
    ensures forall pin :: 0 <= pin < 2 ==>
              Apply(s, a).rings[pin].published == s.rings[pin].published && Apply(s, a).rings[pin].dequeued == s.rings[pin].dequeued
  {
    hide Rings, Admission, Enabled, Apply;
    if Begins(a) { BeginFrame(s, a); }
    else if Ends(a) { EndFrame(s, a); EndKeeps(s, a); }
    else { LoopFrame(s, a); assert false; }
  }

  lemma SessionGrows(s: State, a: Action)
    requires Enabled(s, a)
    ensures Apply(s, a).session == (if a.Bump? then s.session + 1 else s.session)
    ensures !ByCallback(a) ==> Apply(s, a).callbacks == s.callbacks && |s.callbacks| == 2
  {
    hide Enabled, Apply;
    if ByCallback(a) { CallbackFrame(s, a); }
    else if Begins(a) { BeginFrame(s, a); }
    else if Ends(a) { EndFrame(s, a); }
    else { LoopFrame(s, a); }
  }

  /** Nothing is published after that: not while the worker finishes, not while it is gone, and
      not by a callback that was still on its way, until another recording begins. */
  lemma {:induction false} NothingPublishedAfterwards(trace: seq<State>, actions: seq<Action>, n: nat, m: nat)
    requires Run(trace, actions) && n <= m < |trace| && Broke(trace[n].worker)
    requires trace[m].session == trace[n].session
    ensures Quiet(trace[n]) && Quiet(trace[m])
    ensures forall pin :: 0 <= pin < 2 ==> trace[m].rings[pin].published == trace[n].rings[pin].published == trace[n].rings[pin].dequeued
    decreases m
  {
    hide Enabled, Apply, Initial, Rings, Admission;
    NothingLeftBehind(trace, actions, n);
    if n < m {
      SessionsGrow(trace, actions, n, m - 1);
      SessionGrows(trace[m - 1], actions[m - 1]);
      NothingPublishedAfterwards(trace, actions, n, m - 1);
      RunInv(trace, actions, m - 1);
      QuietStep(trace[m - 1], actions[m - 1]);
    }
  }

  lemma {:induction false} SessionsGrow(trace: seq<State>, actions: seq<Action>, n: nat, m: nat)
    requires Run(trace, actions) && n <= m < |trace|
    ensures trace[n].session <= trace[m].session
    decreases m
  {
    hide Enabled, Apply, Initial;
    if n < m {
      SessionsGrow(trace, actions, n, m - 1);
      SessionGrows(trace[m - 1], actions[m - 1]);
    }
  }

  // ---- callbacks that outlive their recording ----

  /** No callback remembers a session that is yet to come. */
  ghost predicate Known(s: State) {
    |s.callbacks| == 2 && forall pin :: 0 <= pin < 2 && Remembers(s.callbacks[pin]) ==> s.callbacks[pin].session <= s.session
  }

  lemma KnownStep(s: State, a: Action)
    requires Known(s) && Enabled(s, a)
    ensures Known(Apply(s, a))
  {
    hide Enabled, Apply;
    SessionGrows(s, a);
    if ByCallback(a) { CallbackFrame(s, a); CallbackMemory(s, a); }
  }

  lemma {:induction false} RunKnown(trace: seq<State>, actions: seq<Action>, n: nat)
    requires Run(trace, actions) && n < |trace|
    ensures Known(trace[n])
  {
    hide Enabled, Apply;
    if n > 0 {
      hide Known;
      RunKnown(trace, actions, n - 1);
      KnownStep(trace[n - 1], actions[n - 1]);
    }
  }

  /** A callback on its way out, or one that remembers an earlier recording and is not inside. */
  ghost predicate Belated(s: State, pin: nat) {
    && pin < 2 == |s.callbacks|
    && var c := s.callbacks[pin];
       c.Away? || c.Leaving? || (c.session < s.session && !c.Inside? && !c.Storing?)
  }

  lemma BelatedStep(s: State, a: Action, pin: nat)
    requires Belated(s, pin) && !s.callbacks[pin].Away? && Enabled(s, a)
    ensures Belated(Apply(s, a), pin)
  {
    hide Enabled, Apply;
    SessionGrows(s, a);
    if ByCallback(a) { CallbackFrame(s, a); CallbackMemory(s, a); }
  }

  /** When a recording starts, no callback under way is inside. */
  lemma BelatedBump(s: State, pin: nat)
    requires Inv(s) && Known(s) && Enabled(s, Bump) && pin < 2
    ensures Belated(Apply(s, Bump), pin)
  {
    hide Rings;
  }

  predicate UnderWay(s: State, pin: nat) {
    pin < |s.callbacks| && !s.callbacks[pin].Away?
  }

  predicate Stores(a: Action, pin: nat) {
    (a.Reserve? || a.Fill? || a.Publish?) && a.pin == pin
  }

  /** A callback under way when another recording starts never gets inside, and neither reserves,
      fills nor publishes anything, before it has returned to the source. */
  lemma {:induction false} StaleCallbackLeaves(trace: seq<State>, actions: seq<Action>, n: nat, m: nat, pin: nat)
    requires Run(trace, actions) && n < m < |trace| && actions[n].Bump? && pin < 2
    requires forall k :: n < k < m ==> UnderWay(trace[k], pin)
    ensures |trace[m].callbacks| == 2 && !trace[m].callbacks[pin].Inside? && !trace[m].callbacks[pin].Storing?
    ensures m < |actions| ==> !Stores(actions[m], pin)
    ensures Belated(trace[m], pin)
    decreases m
  {
    hide Apply, Initial, Inv, Known;
    if m == n + 1 {
      RunInv(trace, actions, n);
      RunKnown(trace, actions, n);
      BelatedBump(trace[n], pin);
    } else {
      StaleCallbackLeaves(trace, actions, n, m - 1, pin);
      BelatedStep(trace[m - 1], actions[m - 1], pin);
    }
  }

  // ---- what a recording can always do ----

  /** Actions that can be taken one after another, from any state on. */
  ghost predicate Steps(trace: seq<State>, actions: seq<Action>) {
    && |trace| == |actions| + 1
    && forall i :: 0 <= i < |actions| ==> Enabled(trace[i], actions[i]) && trace[i + 1] == Apply(trace[i], actions[i])
  }

  lemma StepsLength(trace: seq<State>, actions: seq<Action>)
    requires Steps(trace, actions)
    ensures |trace| == |actions| + 1
  {
  }

  lemma ThreeSteps(s: State, a: Action, t: State, b: Action, u: State, c: Action, v: State)
    requires Enabled(s, a) && t == Apply(s, a) && Enabled(t, b) && u == Apply(t, b) && Enabled(u, c) && v == Apply(u, c)
    ensures Steps([s, t, u, v], [a, b, c])
  {
    hide Enabled, Apply;
  }

  lemma OneMore(trace: seq<State>, actions: seq<Action>, a: Action)
    requires Steps(trace, actions) && Enabled(trace[|actions|], a)
    ensures Steps(trace + [Apply(trace[|actions|], a)], actions + [a])
  {
    hide Enabled, Apply;
  }

  lemma Joined(first: seq<State>, before: seq<Action>, second: seq<State>, after: seq<Action>)
    requires Steps(first, before) && Steps(second, after) && first[|before|] == second[0]
    ensures Steps(first + second[1..], before + after)
    ensures (first + second[1..])[|before + after|] == second[|after|] && (first + second[1..])[0] == first[0]
  {
    hide Enabled, Apply;
    var trace, actions := first + second[1..], before + after;
    forall i | 0 <= i < |actions| ensures Enabled(trace[i], actions[i]) && trace[i + 1] == Apply(trace[i], actions[i]) {
      if i < |before| {
        assert trace[i] == first[i] && trace[i + 1] == first[i + 1];
      } else {
        assert trace[i] == second[i - |before|] && trace[i + 1] == second[i - |before| + 1];
      }
    }
  }

  /** Opening admission succeeds unless someone has stopped the start: in the first case callbacks
      are let in from now on, in the other the worker only has to see that it is stopped. */
  lemma Opens(trace: seq<State>, actions: seq<Action>, n: nat)
    requires Run(trace, actions) && n < |actions| && actions[n].TryPublish?
    ensures trace[n].phase.Starting? ==> trace[n + 1] == trace[n].(phase := Recording, worker := Looping)
    ensures !trace[n].phase.Starting? ==> trace[n + 1] == trace[n].(stop := true, worker := Looping)
  {
    hide CallbackEnabled, CallbackStep, BeginEnabled, BeginStep, EndEnabled, EndStep;
  }

  /** The worker sees exactly the rings that hold packets at that moment. */
  lemma TailsSeen(trace: seq<State>, actions: seq<Action>, n: nat)
    requires Run(trace, actions) && n < |actions| && actions[n].LoadTails?
    ensures |trace[n].rings| == 2
    ensures var rings := trace[n].rings;
            trace[n + 1].worker == Tails(|rings[0].dequeued| < |rings[0].published|, |rings[1].dequeued| < |rings[1].published|)
  {
    RunInv(trace, actions, n);
    var s := trace[n];
    hide CallbackEnabled, CallbackStep, BeginEnabled, BeginStep, EndEnabled, EndStep, Control, Admission, SlotOf;
    Levels(s.rings[0], Holds(s.worker, 0), s.callbacks[0]);
    Levels(s.rings[1], Holds(s.worker, 1), s.callbacks[1]);
  }

  /** While a recording runs, a callback that arrives is let in. */
  lemma Admits(s: State, pin: nat) returns (trace: seq<State>)
    requires |s.callbacks| == |s.rings| == 2 && pin < 2 && s.callbacks[pin].Away? && s.phase.Recording?
    ensures Steps(trace, [Load(pin), Check(pin), Enter(pin), Recheck(pin), Compare(pin)])
    ensures trace[0] == s && trace[5] == s.(callbacks := s.callbacks[pin := Inside(s.session)], producers := s.producers + 1)
  {
    hide BeginEnabled, BeginStep, LoopEnabled, LoopStep, EndEnabled, EndStep, SlotOf;
    var s1 := Apply(s, Load(pin));
    assert s1 == s.(callbacks := s.callbacks[pin := Loaded(s.session)]);
    var s2 := Apply(s1, Check(pin));
    assert s2 == s.(callbacks := s.callbacks[pin := Checked(s.session)]);
    var s3 := Apply(s2, Enter(pin));
    var inside := s.(producers := s.producers + 1);
    assert s3 == inside.(callbacks := s.callbacks[pin := Entered(s.session)]);
    var s4 := Apply(s3, Recheck(pin));
    assert s4 == inside.(callbacks := s.callbacks[pin := Rechecked(s.session)]);
    trace := [s, s1, s2, s3, s4, Apply(s4, Compare(pin))];
    assert trace[5].callbacks == s.callbacks[pin := Inside(s.session)];
  }

  /** Once its batch is reserved, it fills one slot after another, whatever they held. */
  lemma {:induction false} Fills(s: State, pin: nat) returns (trace: seq<State>)
    requires |s.callbacks| == |s.rings| == 2 && pin < 2 && s.callbacks[pin].Storing? && s.rings[pin].slots != []
    requires s.callbacks[pin].filled <= |s.callbacks[pin].packets|
    ensures var n := |s.callbacks[pin].packets| - s.callbacks[pin].filled;
            && Steps(trace, seq(n, i => Fill(pin))) && trace[0] == s
            && |trace[n].rings| == 2 && |trace[n].rings[pin].slots| == |s.rings[pin].slots|
            && trace[n] == s.(callbacks := s.callbacks[pin := s.callbacks[pin].(filled := |s.callbacks[pin].packets|)],
                              rings := s.rings[pin := s.rings[pin].(slots := trace[n].rings[pin].slots)])
    decreases |s.callbacks[pin].packets| - s.callbacks[pin].filled
  {
    hide BeginEnabled, BeginStep, LoopEnabled, LoopStep, EndEnabled, EndStep, SlotOf;
    var c := s.callbacks[pin];
    if c.filled == |c.packets| {
      trace := [s];
      assert s.callbacks[pin := c] == s.callbacks && s.rings[pin := s.rings[pin]] == s.rings;
    } else {
      var t := Apply(s, Fill(pin));
      var rest := Fills(t, pin);
      trace := [s] + rest;
      assert t.callbacks == s.callbacks[pin := c.(filled := c.filled + 1)];
    }
  }

  lemma Shape(s: State)
    requires Inv(s)
    ensures |s.callbacks| == |s.rings| == 2
    ensures forall pin :: 0 <= pin < 2 ==>
              var r := s.rings[pin];
              RingOk(r, Holds(s.worker, pin), s.callbacks[pin])
              && r.read <= r.write == |r.published| && r.dequeued == r.published[..r.read] && |r.dequeued| == r.read
    ensures s.worker.Looping? ==> s.rings[0].slots != [] && s.rings[1].slots != []
  {
    Levels(s.rings[0], Holds(s.worker, 0), s.callbacks[0]);
    Levels(s.rings[1], Holds(s.worker, 1), s.callbacks[1]);
    hide RingOk, Admission;
  }

  /** What a callback does to deliver a batch. */
  ghost function Delivery(pin: nat, packets: seq<Packet>): seq<Action> {
    [Load(pin), Check(pin), Enter(pin), Recheck(pin), Compare(pin)] + [Reserve(pin, packets)]
    + seq(|packets|, i => Fill(pin)) + [Publish(pin), Leave(pin)]
  }

  /** While a recording runs and there is room, a batch that arrives is published, and nothing
      else has changed when the callback has returned. */
  lemma Delivers(s: State, pin: nat, packets: seq<Packet>) returns (trace: seq<State>)
    requires Inv(s) && pin < 2 && s.callbacks[pin].Away? && s.phase.Recording?
    requires packets != [] && |s.rings[pin].published| - |s.rings[pin].dequeued| + |packets| <= |s.rings[pin].slots|
    ensures |s.rings| == 2 && Steps(trace, Delivery(pin, packets)) && trace[0] == s
    ensures var t := trace[|Delivery(pin, packets)|];
            && |t.rings| == 2 && t == s.(rings := s.rings[pin := t.rings[pin]])
            && t.rings[pin].published == s.rings[pin].published + packets && t.rings[pin].dequeued == s.rings[pin].dequeued
            && |t.rings[pin].slots| == |s.rings[pin].slots|
  {
    hide Enabled, Apply, Inv, RingOk, Steps, SlotOf;
    Shape(s);
    var entry := Admits(s, pin);
    StepsLength(entry, [Load(pin), Check(pin), Enter(pin), Recheck(pin), Compare(pin)]);
    var inside := entry[5];
    var storing := Reserves(inside, pin, packets);
    var entered := [Load(pin), Check(pin), Enter(pin), Recheck(pin), Compare(pin)];
    OneMore(entry, entered, Reserve(pin, packets));
    var first := entry + [storing];
    var filling := Fills(storing, pin);
    Joined(first, entered + [Reserve(pin, packets)], filling, seq(|packets|, i => Fill(pin)));
    StepsLength(filling, seq(|packets|, i => Fill(pin)));
    var soFar := first + filling[1..];
    var script := entered + [Reserve(pin, packets)] + seq(|packets|, i => Fill(pin));
    var leaving := Leaves(soFar[|script|], pin);
    StepsLength(leaving, [Publish(pin), Leave(pin)]);
    Joined(soFar, script, leaving, [Publish(pin), Leave(pin)]);
    trace := soFar + leaving[1..];
    assert s.callbacks[pin := Away] == s.callbacks;
    assert trace[|Delivery(pin, packets)|].callbacks == s.callbacks;
  }

  lemma Reserves(s: State, pin: nat, packets: seq<Packet>) returns (t: State)
    requires |s.callbacks| == |s.rings| == 2 && pin < 2 && s.callbacks[pin].Inside? && packets != []
    requires s.rings[pin].read <= s.rings[pin].write && s.rings[pin].write - s.rings[pin].read + |packets| <= |s.rings[pin].slots|
    ensures Enabled(s, Reserve(pin, packets)) && t == Apply(s, Reserve(pin, packets))
    ensures t == s.(callbacks := s.callbacks[pin := Storing(s.callbacks[pin].session, s.rings[pin].write, packets, 0)])
  {
    hide BeginEnabled, BeginStep, LoopEnabled, LoopStep, EndEnabled, EndStep, SlotOf;
    t := Apply(s, Reserve(pin, packets));
  }

  lemma Leaves(s: State, pin: nat) returns (trace: seq<State>)
    requires |s.callbacks| == |s.rings| == 2 && pin < 2 && s.callbacks[pin].Storing? && s.producers > 0
    requires s.callbacks[pin].filled == |s.callbacks[pin].packets|
    ensures Steps(trace, [Publish(pin), Leave(pin)]) && trace[0] == s
    ensures var c, r := s.callbacks[pin], s.rings[pin];
            trace[2] == s.(callbacks := s.callbacks[pin := Away], producers := s.producers - 1,
                           rings := s.rings[pin := r.(write := c.at + |c.packets|, published := r.published + c.packets)])
  {
    hide BeginEnabled, BeginStep, LoopEnabled, LoopStep, EndEnabled, EndStep, SlotOf;
    var t := Apply(s, Publish(pin));
    assert t.callbacks == s.callbacks[pin := Leaving];
    trace := [s, t, Apply(t, Leave(pin))];
    assert trace[2].callbacks == s.callbacks[pin := Away];
  }

  /** Giving up: a callback that failed leaves without publishing, a failed start stops and frees the
      recorder, and the worker goes round again or out of its loop undrained. */
  lemma GivesUp(s: State, a: Action)
    requires Enabled(s, a)
    ensures a.Abandon? ==> a.pin < 2 == |s.callbacks| && Apply(s, a) == s.(callbacks := s.callbacks[a.pin := Leaving])
    ensures a.StartFails? ==> Apply(s, a) == s.(stop := true, phase := Phase.Failed, starter := NotStarting)
    ensures a.Again? ==> Apply(s, a) == s.(worker := Looping)
    ensures a.Abort? ==> Apply(s, a) == s.(worker := Exiting(false))
  {
    hide SlotOf, Cleared;
  }

  /** A worker at the top of its loop can take the oldest packet of any ring that holds one. */
  lemma Consumes(s: State, pin: nat) returns (trace: seq<State>)
    requires Inv(s) && pin < 2 && s.worker.Looping? && |s.rings[pin].dequeued| < |s.rings[pin].published|
    ensures |s.rings| == 2 && Steps(trace, [LoadTails, Take(pin), Advance]) && trace[0] == s
    ensures var r, t := s.rings[pin], trace[3];
            && |t.rings| == 2 && t == s.(rings := s.rings[pin := t.rings[pin]])
            && t.rings[pin].published == r.published && t.rings[pin].dequeued == r.dequeued + [r.published[|r.dequeued|]]
            && |t.rings[pin].slots| == |r.slots|
  {
    hide Enabled, Apply, Steps, SlotOf, Inv, RingOk;
    Shape(s);
    TakesFirst(s, pin);
    Looks(s);
    var s1 := Apply(s, LoadTails);
    var s2 := Takes(s1, pin);
    var s3 := Advances(s2);
    ThreeSteps(s, LoadTails, s1, Take(pin), s2, Advance, s3);
    trace := [s, s1, s2, s3];
    assert s3.rings == s.rings[pin := s3.rings[pin]];
  }

  lemma TakesFirst(s: State, pin: nat)
    requires Inv(s) && pin < 2 && s.worker.Looping? && |s.rings[pin].dequeued| < |s.rings[pin].published|
    ensures |s.rings| == 2 && s.rings[pin].read < |s.rings[pin].published| && s.rings[pin].slots != []
    ensures s.rings[pin].slots[SlotOf(s.rings[pin].read, |s.rings[pin].slots|)] == Full(s.rings[pin].published[s.rings[pin].read])
  {
    hide Inv, RingOk, SlotOf;
    Shape(s);
    TakeOk(s.rings[pin], s.callbacks[pin]);
  }

  lemma Advances(s: State) returns (t: State)
    requires |s.callbacks| == |s.rings| == 2 && s.worker.Moved? && s.worker.pin < 2
    ensures Enabled(s, Advance) && t == Apply(s, Advance)
    ensures var r, pin := s.rings[s.worker.pin], s.worker.pin;
            t == s.(worker := Looping, rings := s.rings[pin := r.(read := r.read + 1, dequeued := r.dequeued + [s.worker.packet])])
  {
    hide CallbackEnabled, CallbackStep, BeginEnabled, BeginStep, EndEnabled, EndStep, SlotOf, Cleared;
    t := Apply(s, Advance);
  }

  lemma Takes(s: State, pin: nat) returns (t: State)
    requires |s.callbacks| == |s.rings| == 2 && pin < 2 && s.worker.Tails? && (if pin == 0 then s.worker.hasVideo else s.worker.hasAudio)
    requires var r := s.rings[pin]; r.slots != [] && r.read < |r.published| && r.slots[SlotOf(r.read, |r.slots|)] == Full(r.published[r.read])
    ensures Enabled(s, Take(pin)) && t == Apply(s, Take(pin)) && |t.rings| == 2
    ensures t == s.(rings := s.rings[pin := s.rings[pin].(slots := t.rings[pin].slots)], worker := Moved(pin, s.rings[pin].published[s.rings[pin].read]))
    ensures |t.rings[pin].slots| == |s.rings[pin].slots|
  {
    hide CallbackEnabled, CallbackStep, BeginEnabled, BeginStep, EndEnabled, EndStep, SlotOf;
    t := Apply(s, Take(pin));
  }

  /** A ring as a new recording finds it. */
  ghost predicate Unused(r: Ring, slots: nat) {
    && |r.slots| == slots && (forall i :: 0 <= i < slots ==> r.slots[i] == Empty)
    && r.read == r.write == 0 && r.published == r.dequeued == []
  }

  /** When nothing is recording, a recording can be started, with empty rings of any size. */
  lemma Starts(s: State, videoSlots: nat, audioSlots: nat) returns (trace: seq<State>)
    requires Inv(s) && !s.busy && s.starter.NotStarting? && videoSlots > 0 && audioSlots > 0
    ensures Steps(trace, [Bump, ClearStop, BeginStarting, Spawn, Prepare(videoSlots, audioSlots), TryPublish]) && trace[0] == s
    ensures var t := trace[6];
            && |t.rings| == 2 && Unused(t.rings[0], videoSlots) && Unused(t.rings[1], audioSlots)
            && t == s.(session := s.session + 1, stop := false, phase := Recording, busy := true, worker := Looping, rings := t.rings)
  {
    hide Enabled, Apply, Inv, Steps, Unused;
    Shape(s);
    var calling := Calls(s);
    StepsLength(calling, [Bump, ClearStop, BeginStarting, Spawn]);
    var opening := Prepares(calling[4], videoSlots, audioSlots);
    StepsLength(opening, [Prepare(videoSlots, audioSlots), TryPublish]);
    Joined(calling, [Bump, ClearStop, BeginStarting, Spawn], opening, [Prepare(videoSlots, audioSlots), TryPublish]);
    trace := calling + opening[1..];
    assert [Bump, ClearStop, BeginStarting, Spawn] + [Prepare(videoSlots, audioSlots), TryPublish]
        == [Bump, ClearStop, BeginStarting, Spawn, Prepare(videoSlots, audioSlots), TryPublish];
  }

  lemma Calls(s: State) returns (trace: seq<State>)
    requires |s.callbacks| == |s.rings| == 2 && !s.busy && s.starter.NotStarting?
    ensures Steps(trace, [Bump, ClearStop, BeginStarting, Spawn]) && trace[0] == s
    ensures trace[4] == s.(session := s.session + 1, stop := false, phase := Starting, busy := true, worker := Preparing)
  {
    hide CallbackEnabled, CallbackStep, LoopEnabled, LoopStep, EndEnabled, EndStep;
    var s1 := Apply(s, Bump);
    assert s1 == s.(session := s.session + 1, starter := Bumped);
    var s2 := Apply(s1, ClearStop);
    assert s2 == s1.(stop := false, starter := Starter.Cleared);
    var s3 := Apply(s2, BeginStarting);
    assert s3 == s2.(phase := Starting, starter := Configuring);
    trace := [s, s1, s2, s3, Apply(s3, Spawn)];
  }

  lemma Prepares(s: State, videoSlots: nat, audioSlots: nat) returns (trace: seq<State>)
    requires |s.callbacks| == |s.rings| == 2 && s.phase.Starting? && s.worker.Preparing? && videoSlots > 0 && audioSlots > 0
    ensures Steps(trace, [Prepare(videoSlots, audioSlots), TryPublish]) && trace[0] == s
    ensures var t := trace[2];
            && |t.rings| == 2 && Unused(t.rings[0], videoSlots) && Unused(t.rings[1], audioSlots)
            && t == s.(phase := Recording, worker := Looping, rings := t.rings)
  {
    hide CallbackEnabled, CallbackStep, BeginEnabled, BeginStep, EndEnabled, EndStep;
    var s1 := Apply(s, Prepare(videoSlots, audioSlots));
    assert s1 == s.(rings := s1.rings, worker := Prepared) && |s1.rings| == 2;
    trace := [s, s1, Apply(s1, TryPublish)];
  }

  /** Everything that happens from the decision to stop on, when the rings are drained. */
  ghost function Ending(saved: bool): seq<Action> {
    [RaiseStop, CloseAdmission] + [LoadTails, SeeStop, SeeClosed, SeeNoProducers, SeeVideoTail, SeeAudioTail]
    + [OwnStop, OwnClose, Drain, Free, Conclude(saved), Unbusy]
  }

  /** Once stopped and with nobody inside, a drained recording comes to its end. */
  lemma Finishes(s: State, saved: bool) returns (trace: seq<State>)
    requires Inv(s) && s.worker.Looping? && s.phase.Recording? && s.producers == 0
    requires forall pin :: 0 <= pin < 2 ==> s.rings[pin].dequeued == s.rings[pin].published
    ensures |s.rings| == 2 && Steps(trace, Ending(saved)) && trace[0] == s
    ensures trace[14] == s.(stop := true, phase := if saved then Saved else Phase.Failed, busy := false, worker := NoWorker,
                            rings := [s.rings[0].(slots := []), s.rings[1].(slots := [])])
  {
    hide Enabled, Apply, Inv, SlotOf, Steps, RingOk;
    Shape(s);
    var closing := Closes(s);
    StepsLength(closing, [RaiseStop, CloseAdmission]);
    var seen := SeesEnd(closing[2]);
    StepsLength(seen, [LoadTails, SeeStop, SeeClosed, SeeNoProducers, SeeVideoTail, SeeAudioTail]);
    var over := EndsWorker(seen[6], saved);
    StepsLength(over, [OwnStop, OwnClose, Drain, Free, Conclude(saved), Unbusy]);
    Joined(closing, [RaiseStop, CloseAdmission], seen, [LoadTails, SeeStop, SeeClosed, SeeNoProducers, SeeVideoTail, SeeAudioTail]);
    var soFar := closing + seen[1..];
    Joined(soFar, [RaiseStop, CloseAdmission] + [LoadTails, SeeStop, SeeClosed, SeeNoProducers, SeeVideoTail, SeeAudioTail],
           over, [OwnStop, OwnClose, Drain, Free, Conclude(saved), Unbusy]);
    trace := soFar + over[1..];
  }

  lemma Closes(s: State) returns (trace: seq<State>)
    requires |s.callbacks| == |s.rings| == 2 && s.phase.Recording?
    ensures Steps(trace, [RaiseStop, CloseAdmission]) && trace[0] == s && trace[2] == s.(stop := true, phase := Finalizing)
  {
    hide CallbackEnabled, CallbackStep, LoopEnabled, LoopStep, EndEnabled, EndStep;
    var s1 := Apply(s, RaiseStop);
    trace := [s, s1, Apply(s1, CloseAdmission)];
  }

  lemma SeesEnd(s: State) returns (trace: seq<State>)
    requires |s.callbacks| == |s.rings| == 2 && s.stop && s.phase.Finalizing? && s.producers == 0 && s.worker.Looping?
    requires s.rings[0].read == s.rings[0].write && s.rings[1].read == s.rings[1].write
    ensures Steps(trace, [LoadTails, SeeStop, SeeClosed, SeeNoProducers, SeeVideoTail, SeeAudioTail])
    ensures trace[0] == s && trace[6] == s.(worker := Exiting(true))
  {
    hide Enabled, Apply, Steps;
    var closed := SeesClosed(s);
    StepsLength(closed, [LoadTails, SeeStop, SeeClosed]);
    var drained := SeesDrained(closed[3]);
    StepsLength(drained, [SeeNoProducers, SeeVideoTail, SeeAudioTail]);
    Joined(closed, [LoadTails, SeeStop, SeeClosed], drained, [SeeNoProducers, SeeVideoTail, SeeAudioTail]);
    trace := closed + drained[1..];
    assert [LoadTails, SeeStop, SeeClosed] + [SeeNoProducers, SeeVideoTail, SeeAudioTail]
        == [LoadTails, SeeStop, SeeClosed, SeeNoProducers, SeeVideoTail, SeeAudioTail];
  }

  /** What the worker sees next on its way out, and where it is then. */
  lemma Sees(s: State, a: Action, next: Worker)
    requires |s.callbacks| == |s.rings| == 2
    requires || (a.SeeStop? && s.worker == Tails(false, false) && s.stop && next == SawStop)
             || (a.SeeClosed? && s.worker == SawStop && !s.phase.Recording? && next == SawClosed)
             || (a.SeeNoProducers? && s.worker == SawClosed && s.producers == 0 && next == SawNoProducers)
             || (a.SeeVideoTail? && s.worker == SawNoProducers && s.rings[0].read == s.rings[0].write && next == SawVideoTail)
             || (a.SeeAudioTail? && s.worker == SawVideoTail && s.rings[1].read == s.rings[1].write && next == Exiting(true))
    ensures Enabled(s, a) && Apply(s, a) == s.(worker := next)
  {
    hide CallbackEnabled, CallbackStep, BeginEnabled, BeginStep, EndEnabled, EndStep, SlotOf, Cleared;
    match a {
      case SeeStop =>
      case SeeClosed =>
      case SeeNoProducers =>
      case SeeVideoTail =>
      case SeeAudioTail =>
    }
  }

  lemma Looks(s: State)
    requires |s.callbacks| == |s.rings| == 2 && s.worker.Looping?
    ensures Enabled(s, LoadTails)
    ensures Apply(s, LoadTails) == s.(worker := Tails(s.rings[0].read != s.rings[0].write, s.rings[1].read != s.rings[1].write))
  {
    hide CallbackEnabled, CallbackStep, BeginEnabled, BeginStep, EndEnabled, EndStep, SlotOf, Cleared;
  }

  lemma SeesClosed(s: State) returns (trace: seq<State>)
    requires |s.callbacks| == |s.rings| == 2 && s.stop && !s.phase.Recording? && s.worker.Looping?
    requires s.rings[0].read == s.rings[0].write && s.rings[1].read == s.rings[1].write
    ensures Steps(trace, [LoadTails, SeeStop, SeeClosed]) && trace[0] == s && trace[3] == s.(worker := SawClosed)
  {
    hide Enabled, Apply, Steps;
    var t, u, v := s.(worker := Tails(false, false)), s.(worker := SawStop), s.(worker := SawClosed);
    Looks(s);
    Sees(t, SeeStop, SawStop);
    Sees(u, SeeClosed, SawClosed);
    ThreeSteps(s, LoadTails, t, SeeStop, u, SeeClosed, v);
    trace := [s, t, u, v];
  }

  lemma SeesDrained(s: State) returns (trace: seq<State>)
    requires |s.callbacks| == |s.rings| == 2 && s.producers == 0 && s.worker.SawClosed?
    requires s.rings[0].read == s.rings[0].write && s.rings[1].read == s.rings[1].write
    ensures Steps(trace, [SeeNoProducers, SeeVideoTail, SeeAudioTail]) && trace[0] == s && trace[3] == s.(worker := Exiting(true))
  {
    hide Enabled, Apply, Steps;
    var t, u, v := s.(worker := SawNoProducers), s.(worker := SawVideoTail), s.(worker := Exiting(true));
    Sees(s, SeeNoProducers, SawNoProducers);
    Sees(t, SeeVideoTail, SawVideoTail);
    Sees(u, SeeAudioTail, Exiting(true));
    ThreeSteps(s, SeeNoProducers, t, SeeVideoTail, u, SeeAudioTail, v);
    trace := [s, t, u, v];
  }

  lemma EndsWorker(s: State, saved: bool) returns (trace: seq<State>)
    requires |s.callbacks| == |s.rings| == 2 && s.stop && s.phase.Finalizing? && s.producers == 0 && s.worker.Exiting?
    ensures Steps(trace, [OwnStop, OwnClose, Drain, Free, Conclude(saved), Unbusy]) && trace[0] == s
    ensures trace[6] == s.(phase := if saved then Saved else Phase.Failed, busy := false, worker := NoWorker,
                           rings := [s.rings[0].(slots := []), s.rings[1].(slots := [])])
  {
    hide Enabled, Apply, Steps;
    var owning := Owns(s);
    StepsLength(owning, [OwnStop, OwnClose, Drain]);
    var over := Concludes(owning[3], saved);
    StepsLength(over, [Free, Conclude(saved), Unbusy]);
    Joined(owning, [OwnStop, OwnClose, Drain], over, [Free, Conclude(saved), Unbusy]);
    trace := owning + over[1..];
    assert [OwnStop, OwnClose, Drain] + [Free, Conclude(saved), Unbusy] == [OwnStop, OwnClose, Drain, Free, Conclude(saved), Unbusy];
  }

  lemma Owns(s: State) returns (trace: seq<State>)
    requires |s.callbacks| == |s.rings| == 2 && s.stop && s.phase.Finalizing? && s.producers == 0 && s.worker.Exiting?
    ensures Steps(trace, [OwnStop, OwnClose, Drain]) && trace[0] == s && trace[3] == s.(worker := Owning(s.worker.broke))
  {
    hide CallbackEnabled, CallbackStep, BeginEnabled, BeginStep, LoopEnabled, LoopStep;
    var s1 := Apply(s, OwnStop);
    assert s1 == s.(worker := Flagged(s.worker.broke));
    var s2 := Apply(s1, OwnClose);
    assert s2 == s.(worker := Closed(s.worker.broke));
    trace := [s, s1, s2, Apply(s2, Drain)];
  }

  lemma EndsBy(s: State, a: Action, t: State)
    requires |s.callbacks| == |s.rings| == 2
    requires || (a.Free? && s.worker.Owning?
                 && t == s.(worker := Released(s.worker.broke), rings := [s.rings[0].(slots := []), s.rings[1].(slots := [])]))
             || (a.Conclude? && s.worker.Released?
                 && t == s.(worker := Concluded(s.worker.broke), phase := if a.saved then Saved else Phase.Failed))
             || (a.Unbusy? && s.worker.Concluded? && t == s.(busy := false, worker := NoWorker))
    ensures Enabled(s, a) && Apply(s, a) == t
  {
    hide CallbackEnabled, CallbackStep, BeginEnabled, BeginStep, LoopEnabled, LoopStep;
  }

  lemma Concludes(s: State, saved: bool) returns (trace: seq<State>)
    requires |s.callbacks| == |s.rings| == 2 && s.worker.Owning?
    ensures Steps(trace, [Free, Conclude(saved), Unbusy]) && trace[0] == s
    ensures trace[3] == s.(phase := if saved then Saved else Phase.Failed, busy := false, worker := NoWorker,
                           rings := [s.rings[0].(slots := []), s.rings[1].(slots := [])])
  {
    hide Enabled, Apply, Steps;
    var broke := s.worker.broke;
    var t := s.(worker := Released(broke), rings := [s.rings[0].(slots := []), s.rings[1].(slots := [])]);
    var u := t.(worker := Concluded(broke), phase := if saved then Saved else Phase.Failed);
    var v := u.(busy := false, worker := NoWorker);
    EndsBy(s, Free, t);
    EndsBy(t, Conclude(saved), u);
    EndsBy(u, Unbusy, v);
    ThreeSteps(s, Free, t, Conclude(saved), u, Unbusy, v);
    trace := [s, t, u, v];
  }

  /** The worker can empty a ring, whatever it holds. */
  lemma {:induction false} ConsumesAll(s: State, pin: nat) returns (trace: seq<State>, actions: seq<Action>)
    requires Inv(s) && pin < 2 && s.worker.Looping?
    ensures |s.rings| == 2 && Steps(trace, actions) && trace[0] == s && Inv(trace[|actions|])
    ensures var t := trace[|actions|];
            |t.rings| == 2 && t == s.(rings := s.rings[pin := t.rings[pin]])
            && t.rings[pin].published == t.rings[pin].dequeued == s.rings[pin].published
    decreases |s.rings[pin].published| - |s.rings[pin].dequeued|
  {
    hide Enabled, Apply, Inv, Steps, RingOk;
    Shape(s);
    var r := s.rings[pin];
    if |r.dequeued| == |r.published| {
      trace, actions := [s], [];
      NoSteps(s);
      assert s.rings[pin := r] == s.rings && r.published[..|r.published|] == r.published;
    } else {
      var taken := Consumes(s, pin);
      StepsLength(taken, [LoadTails, Take(pin), Advance]);
      StepsInv(taken, [LoadTails, Take(pin), Advance], 3);
      var rest, more := ConsumesAll(taken[3], pin);
      StepsLength(rest, more);
      Joined(taken, [LoadTails, Take(pin), Advance], rest, more);
      trace, actions := taken + rest[1..], [LoadTails, Take(pin), Advance] + more;
    }
  }

  lemma NoSteps(s: State)
    ensures Steps([s], [])
  {
  }

  lemma {:induction false} StepsInv(trace: seq<State>, actions: seq<Action>, n: nat)
    requires Steps(trace, actions) && Inv(trace[0]) && n < |trace|
    ensures Inv(trace[n])
  {
    hide Inv, Enabled, Apply;
    if n > 0 {
      StepsInv(trace, actions, n - 1);
      StepInv(trace[n - 1], actions[n - 1]);
    }
  }

  /** A whole recording: whenever nothing is recording and a pin is quiet, a recording can start,
      take a batch that fits, empty the ring and end with exactly that batch dequeued. */
  lemma Records(s: State, pin: nat, slots: nat, packets: seq<Packet>) returns (trace: seq<State>, actions: seq<Action>)
    requires Inv(s) && !s.busy && s.starter.NotStarting? && pin < 2 && s.callbacks[pin].Away? && s.producers == 0
    requires 0 < |packets| <= slots
    ensures Steps(trace, actions) && trace[0] == s
    ensures var t := trace[|actions|];
            && |t.rings| == 2 && t.rings[pin].published == t.rings[pin].dequeued == packets && t.rings[1 - pin].published == []
            && t.phase.Saved? && !t.busy && t.worker.NoWorker? && t.session == s.session + 1 && t.callbacks == s.callbacks
  {
    hide Enabled, Apply, Inv, Steps, RingOk, Delivery, Ending, Unused;
    Shape(s);
    var start := [Bump, ClearStop, BeginStarting, Spawn, Prepare(slots, slots), TryPublish];
    trace := Starts(s, slots, slots);
    actions := start;
    StepsLength(trace, start);
    StepsInv(trace, start, 6);
    var recording := trace[6];
    UnusedEmpty(recording.rings[pin], slots);
    UnusedEmpty(recording.rings[1 - pin], slots);
    var delivered := Delivers(recording, pin, packets);
    StepsLength(delivered, Delivery(pin, packets));
    trace, actions := Extended(trace, actions, delivered, Delivery(pin, packets));
    Shape(trace[|actions|]);
    var emptied, script := ConsumesAll(trace[|actions|], pin);
    StepsLength(emptied, script);
    trace, actions := Extended(trace, actions, emptied, script);
    Shape(trace[|actions|]);
    EndingLength(true);
    var ended := Finishes(trace[|actions|], true);
    StepsLength(ended, Ending(true));
    trace, actions := Extended(trace, actions, ended, Ending(true));
    assert [] + packets == packets;
  }

  lemma EndingLength(saved: bool)
    ensures |Ending(saved)| == 14
  {
  }

  lemma UnusedEmpty(r: Ring, slots: nat)
    requires Unused(r, slots)
    ensures |r.slots| == slots && r.published == r.dequeued == []
  {
  }

  lemma Extended(first: seq<State>, before: seq<Action>, second: seq<State>, after: seq<Action>)
    returns (trace: seq<State>, actions: seq<Action>)
    requires Steps(first, before) && Steps(second, after) && |first| == |before| + 1 && |second| == |after| + 1
    requires first[|before|] == second[0] && Inv(first[0])
    ensures Steps(trace, actions) && |trace| == |actions| + 1 && trace[0] == first[0]
    ensures trace[|actions|] == second[|after|] && Inv(trace[|actions|])
  {
    hide Steps, Inv;
    Joined(first, before, second, after);
    trace, actions := first + second[1..], before + after;
    StepsInv(trace, actions, |actions|);
  }
}
