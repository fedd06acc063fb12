/**
 * The switch of the public image in scripts/zmr-production-image.py as a protocol of steps, over any number of
 * invocations that share a recovery directory, any interleaving of their steps, and any crashes.
 *
 * The main results: a mode is dispatched at most once per recovery directory, and every dispatch was preceded, in this
 * order, by its own exclusive intent, the scale to zero, two observations of a quiet service, the update of the
 * receipt and of the application, and one more observation of a quiet service.
 */
module DeployProtocol {
  import opened Basics
  import opened DeployEnv
  import Lines

  const SERVICE := "zenod-mt-fxpzoo"
  const POLLS: nat := 60
  const WATCHES: nat := 60
  const TERMINAL := {"complete", "shutdown", "failed", "rejected", "remove", "removed"}

  datatype Mode = Deploy | Rollback

  /** What an invocation is to bring up; `imageId` is that of the pulled image. */
  datatype Target = Target(image: string, sha: string, imageId: string)

  /** What is known of one recovery directory: the recorded environment and the two identities. */
  datatype Recovery = Recovery(env: string, candidate: Target, rollback: Target)

  function TargetOf(recovery: Recovery, mode: Mode): Target {
    if mode == Deploy then recovery.candidate else recovery.rollback
  }

  function TargetSha(recovery: Recovery, mode: Mode): string {
    TargetOf(recovery, mode).sha
  }

  /** What one look at the service finds: its name and replicas, the states of its tasks, its containers. */
  datatype Observation = Observation(name: string, replicas: Option<int>, tasks: seq<string>, containers: seq<string>)

  function PublicIsQuiesced(o: Observation): Result<bool> {
    if o.name != SERVICE then Err("Quiescence target mismatch")
    else if o.replicas != Some(0) then Ok(false)
    else if exists i :: 0 <= i < |o.tasks| && o.tasks[i] !in TERMINAL then Ok(false)
    else Ok(o.containers == [])
  }

  datatype Task = Task(state: string, image: string, container: string)

  datatype Health = Health(status: string, sha: string)

  /**
   What one look after the dispatch finds: the settled service, its tasks and running containers, the image and the
   revision that really run, the health endpoint, and whether the drift check accepts.
   */
  datatype Sighting = Sighting(settled: bool, image: string, replicas: Option<int>, tasks: seq<Task>,
    running: seq<string>, imageId: string, revision: string, health: Option<Health>, undrifted: bool)

  /** Whether the target is up; not yet, or an error that ends the invocation. */
  function Confirms(target: Target, s: Sighting): Result<bool> {
    if !(s.settled && |s.tasks| == 1 && s.tasks[0].state == "running" && s.tasks[0].image == target.image
         && s.image == target.image && s.replicas == Some(1)) then Ok(false)
    else if s.running != [s.tasks[0].container] then Err("Unexpected overlapping public container")
    else if s.imageId != target.imageId then Err("Actual container image ID mismatch")
    else if s.revision != target.sha then Err("Actual container OCI mismatch")
    else if s.health != Some(Health("ok", target.sha)) then Ok(false)
    else if !s.undrifted then Err("drift")
    else Ok(true)
  }

  datatype Phase = Quiescing | Quiesced

  /** How far an invocation has got. */
  datatype Pc =
    | Starting | Reviewed | Checked | Intended | Polling(left: nat) | Quiet | Undrifted | StillQuiet | Recorded
    | Updated | Ready | Watching(tries: nat) | Confirmed | Verified | Stopped

  datatype Proc = Proc(mode: Mode, pc: Pc)

  /** What reaches the disk or the host, and what is seen there. */
  datatype Effect =
    | Intent(pid: nat, mode: Mode)
    | Scaled(pid: nat)
    | Saw(pid: nat, o: Observation)
    | Receipt(pid: nat)
    | AppUpdated(pid: nat, env: string)
    | Redeployed(pid: nat, mode: Mode)
    | Sighted(pid: nat, target: Target, s: Sighting)
    | VerifiedReceipt(pid: nat)

  datatype World = World(intents: map<Mode, Phase>, procs: map<nat, Proc>, log: seq<Effect>)

  const START := World(map[], map[], [])

  /** An effect may also happen without the invocation living to see it, or not happen at all. */
  datatype Outcome = Done | Unseen | NotDone

  datatype Step =
    | Begin(pid: nat, mode: Mode)
    | Stop(pid: nat)
    | Pass(pid: nat)
    | Look(pid: nat, o: Observation)
    | Watch(pid: nat, s: Sighting)
    | Act(pid: nat, outcome: Outcome)

  function Moved(w: World, pid: nat, p: Proc): World {
    w.(procs := w.procs[pid := p])
  }

  function Halted(w: World, pid: nat, p: Proc): World {
    Moved(w, pid, p.(pc := Stopped))
  }

  function Acted(w: World, pid: nat, p: Proc, e: Effect, next: Pc, outcome: Outcome): World {
    match outcome
    case NotDone => Halted(w, pid, p)
    case Unseen => Halted(w, pid, p).(log := w.log + [e])
    case Done => Moved(w, pid, p.(pc := next)).(log := w.log + [e])
  }

  /**
   * A check whose findings are free: the queue clearance, the drift and image checks, the drift check after the scale.
   */
  function Passed(w: World, pid: nat, p: Proc): World {
    match p.pc
    case Starting =>
      // The rollback reads the deployment's intent.
      if p.mode == Rollback && Deploy !in w.intents then Halted(w, pid, p) else Moved(w, pid, p.(pc := Reviewed))
    case Reviewed => Moved(w, pid, p.(pc := Checked))
    case Quiet => Moved(w, pid, p.(pc := Undrifted))
    case _ => w
  }

  function AfterQuiet(pc: Pc): Pc {
    match pc
    case Polling(_) => Quiet
    case Undrifted => StillQuiet
    case _ => Ready
  }

  function Looked(w: World, pid: nat, p: Proc, o: Observation): World {
    if !(p.pc.Polling? || p.pc.Undrifted? || p.pc.Updated?) then w
    else
      var seen := w.(log := w.log + [Saw(pid, o)]);
      match PublicIsQuiesced(o)
      case Err(_) => Halted(seen, pid, p)
      case Ok(quiet) =>
        if quiet then Moved(seen, pid, p.(pc := AfterQuiet(p.pc)))
        else if p.pc.Polling? && p.pc.left > 1 then Moved(seen, pid, p.(pc := Polling(p.pc.left - 1)))
        else Halted(seen, pid, p)
  }

  function Watched(recovery: Recovery, w: World, pid: nat, p: Proc, s: Sighting): World {
    if !p.pc.Watching? then w
    else
      var target := TargetOf(recovery, p.mode);
      var seen := w.(log := w.log + [Sighted(pid, target, s)]);
      match Confirms(target, s)
      case Err(_) => Halted(seen, pid, p)
      case Ok(up) =>
        if up then Moved(seen, pid, p.(pc := Confirmed))
        else if p.pc.tries > 1 then Moved(seen, pid, p.(pc := Watching(p.pc.tries - 1)))
        else Halted(seen, pid, p)
  }

  function Performed(recovery: Recovery, w: World, pid: nat, p: Proc, outcome: Outcome): World {
    match p.pc
    case Checked =>
      // Exclusive creation fails when the file exists.
      if p.mode in w.intents || outcome == NotDone then Halted(w, pid, p)
      else Acted(w, pid, p, Intent(pid, p.mode), Intended, outcome).(intents := w.intents[p.mode := Quiescing])
    case Intended => Acted(w, pid, p, Scaled(pid), Polling(POLLS), outcome)
    case StillQuiet =>
      var after := Acted(w, pid, p, Receipt(pid), Recorded, outcome);
      if outcome == NotDone then after else after.(intents := w.intents[p.mode := Quiesced])
    case Recorded =>
      if Count(recovery.env) != 1 then Halted(w, pid, p)
      else Acted(w, pid, p, AppUpdated(pid, Rewrite(recovery.env, TargetSha(recovery, p.mode))), Updated, outcome)
    case Ready => Acted(w, pid, p, Redeployed(pid, p.mode), Watching(WATCHES), outcome)
    case Confirmed => Acted(w, pid, p, VerifiedReceipt(pid), Verified, outcome)
    case _ => w
  }

  /** One step of one invocation; a step that its invocation cannot take changes nothing. */
  function Next(recovery: Recovery, w: World, step: Step): World {
    if step.Begin? then
      if step.pid in w.procs then w
      else Moved(w, step.pid, Proc(step.mode, if step.mode in w.intents then Stopped else Starting))
    else if step.pid !in w.procs then w
    else
      var p := w.procs[step.pid];
      match step
      case Stop(pid) => Halted(w, pid, p)
      case Pass(pid) => Passed(w, pid, p)
      case Look(pid, o) => Looked(w, pid, p, o)
      case Watch(pid, s) => Watched(recovery, w, pid, p, s)
      case Act(pid, outcome) => Performed(recovery, w, pid, p, outcome)
  }

  function After(recovery: Recovery, steps: seq<Step>): World {
    if steps == [] then START else Next(recovery, After(recovery, steps[..|steps| - 1]), steps[|steps| - 1])
  }

  // The plan that every invocation follows.

  datatype Kind = KIntent | KScale | KQuiet | KReceipt | KUpdate | KRedeploy | KConfirm | KVerified

  const PLAN: seq<Kind> :=
    [KIntent, KScale, KQuiet, KQuiet, KReceipt, KUpdate, KQuiet, KRedeploy, KConfirm, KVerified]

  /** An observation counts when it found the service quiet, or the target up. */
  function KindOf(e: Effect): Option<Kind> {
    match e
    case Intent(_, _) => Some(KIntent)
    case Scaled(_) => Some(KScale)
    case Saw(_, o) => if PublicIsQuiesced(o) == Ok(true) then Some(KQuiet) else None
    case Receipt(_) => Some(KReceipt)
    case AppUpdated(_, _) => Some(KUpdate)
    case Redeployed(_, _) => Some(KRedeploy)
    case Sighted(_, target, s) => if Confirms(target, s) == Ok(true) then Some(KConfirm) else None
    case VerifiedReceipt(_) => Some(KVerified)
  }

  function Milestones(log: seq<Effect>, pid: nat): seq<Kind> {
    if log == [] then []
    else Milestones(log[..|log| - 1], pid) + MilestoneOf(log[|log| - 1], pid)
  }

  function MilestoneOf(e: Effect, pid: nat): seq<Kind> {
    if e.pid == pid && KindOf(e).Some? then [KindOf(e).value] else []
  }

  /** How much of the plan lies behind an invocation that is still going. */
  function Reached(pc: Pc): nat {
    match pc
    case Starting => 0
    case Reviewed => 0
    case Checked => 0
    case Intended => 1
    case Polling(_) => 2
    case Quiet => 3
    case Undrifted => 3
    case StillQuiet => 4
    case Recorded => 5
    case Updated => 6
    case Ready => 7
    case Watching(_) => 8
    case Confirmed => 9
    case Verified => 10
    case Stopped => 0
  }

  ghost predicate OnPlan(procs: map<nat, Proc>, log: seq<Effect>, pid: nat) {
    var done := Milestones(log, pid);
    && |done| <= |PLAN| && done == PLAN[..|done|]
    && (pid !in procs ==> done == [])
    && (pid in procs && procs[pid].pc != Stopped ==> |done| == Reached(procs[pid].pc))
  }

  ghost predicate AllOnPlan(procs: map<nat, Proc>, log: seq<Effect>) {
    forall pid: nat :: OnPlan(procs, log, pid)
  }

  /** Effects carry the mode, and the environment, of the invocation that they come from. */
  ghost predicate OwnMode(recovery: Recovery, procs: map<nat, Proc>, e: Effect) {
    match e
    case Intent(pid, mode) => pid in procs && procs[pid].mode == mode
    case Redeployed(pid, mode) => pid in procs && procs[pid].mode == mode
    case AppUpdated(pid, env) =>
      pid in procs && env == Rewrite(recovery.env, TargetSha(recovery, procs[pid].mode)) && Count(recovery.env) == 1
    case Sighted(pid, target, _) => pid in procs && target == TargetOf(recovery, procs[pid].mode)
    case _ => true
  }

  ghost predicate AllOwnMode(recovery: Recovery, procs: map<nat, Proc>, log: seq<Effect>) {
    forall i :: 0 <= i < |log| ==> OwnMode(recovery, procs, log[i])
  }

  ghost predicate IsIntent(e: Effect, mode: Mode) {
    e.Intent? && e.mode == mode
  }

  /** One intent for each mode that has a file; a rollback's comes after a deployment's. */
  ghost predicate Exclusive(intents: map<Mode, Phase>, procs: map<nat, Proc>, log: seq<Effect>) {
    && (forall i, j, m :: 0 <= i < j < |log| && IsIntent(log[i], m) ==> !IsIntent(log[j], m))
    && (forall i, m :: 0 <= i < |log| && IsIntent(log[i], m) ==> m in intents)
    && (forall m | m in intents :: exists i :: 0 <= i < |log| && IsIntent(log[i], m))
    && (forall j :: 0 <= j < |log| && IsIntent(log[j], Rollback) ==> exists i :: 0 <= i < j && IsIntent(log[i], Deploy))
    && (forall pid | pid in procs :: procs[pid].mode == Rollback && procs[pid].pc in {Reviewed, Checked} ==>
      Deploy in intents)
  }

  ghost predicate Inv(recovery: Recovery, w: World) {
    AllOnPlan(w.procs, w.log) && AllOwnMode(recovery, w.procs, w.log) && Exclusive(w.intents, w.procs, w.log)
  }

  lemma MilestonesMore(log: seq<Effect>, e: Effect, pid: nat)
    ensures Milestones(log + [e], pid) == Milestones(log, pid) + MilestoneOf(e, pid)
  {
    assert (log + [e])[..|log|] == log;
  }

  /** A move of one invocation along, or out of, its part of the plan. */
  lemma MovedOnPlan(procs: map<nat, Proc>, log: seq<Effect>, pid: nat, p: Proc, was: Pc)
    requires AllOnPlan(procs, log)
    requires p.pc == Stopped || (if pid in procs then procs[pid].pc == was && was != Stopped else was == Starting)
    requires p.pc == Stopped || Reached(p.pc) == Reached(was)
    ensures AllOnPlan(procs[pid := p], log)
  {
    hide Milestones;
    var after := procs[pid := p];
    forall q: nat
      ensures OnPlan(after, log, q)
    {
      assert OnPlan(procs, log, q);
    }
  }

  /** An effect of one invocation that is the next thing in its plan, whether or not the invocation goes on. */
  lemma ActedOnPlan(procs: map<nat, Proc>, log: seq<Effect>, e: Effect, p: Proc)
    requires AllOnPlan(procs, log) && e.pid in procs && procs[e.pid].pc !in {Stopped, Verified}
    requires KindOf(e) == Some(PLAN[Reached(procs[e.pid].pc)])
    requires p.pc == Stopped || Reached(p.pc) == Reached(procs[e.pid].pc) + 1
    ensures AllOnPlan(procs[e.pid := p], log + [e])
  {
    hide Milestones, KindOf;
    var after, more := procs[e.pid := p], log + [e];
    forall q: nat
      ensures OnPlan(after, more, q)
    {
      assert OnPlan(procs, log, q);
      MilestonesMore(log, e, q);
    }
  }

  /** An observation that found the service busy. */
  lemma SawOnPlan(procs: map<nat, Proc>, log: seq<Effect>, e: Effect)
    requires AllOnPlan(procs, log) && KindOf(e) == None
    ensures AllOnPlan(procs, log + [e])
  {
    hide Milestones, KindOf;
    var more := log + [e];
    forall q: nat
      ensures OnPlan(procs, more, q)
    {
      assert OnPlan(procs, log, q);
      MilestonesMore(log, e, q);
    }
  }

  lemma MovedOwnMode(recovery: Recovery, procs: map<nat, Proc>, log: seq<Effect>, pid: nat, p: Proc)
    requires AllOwnMode(recovery, procs, log) && (pid in procs ==> procs[pid].mode == p.mode)
    ensures AllOwnMode(recovery, procs[pid := p], log)
  {
    hide Rewrite, Count;
    forall i | 0 <= i < |log|
      ensures OwnMode(recovery, procs[pid := p], log[i])
    {
      assert OwnMode(recovery, procs, log[i]);
    }
  }

  lemma MovedExclusive(intents: map<Mode, Phase>, procs: map<nat, Proc>, log: seq<Effect>, pid: nat, p: Proc)
    requires Exclusive(intents, procs, log)
    requires p.mode == Rollback && p.pc in {Reviewed, Checked} ==> Deploy in intents
    ensures Exclusive(intents, procs[pid := p], log)
  {
  }

  lemma MoreOwnMode(recovery: Recovery, procs: map<nat, Proc>, log: seq<Effect>, e: Effect)
    requires AllOwnMode(recovery, procs, log) && OwnMode(recovery, procs, e)
    ensures AllOwnMode(recovery, procs, log + [e])
  {
    hide OwnMode;
  }

  lemma MoreExclusive(intents: map<Mode, Phase>, procs: map<nat, Proc>, log: seq<Effect>, e: Effect)
    requires Exclusive(intents, procs, log) && !e.Intent?
    ensures Exclusive(intents, procs, log + [e])
  {
    var more := log + [e];
    assert forall i :: 0 <= i < |log| ==> more[i] == log[i];
    forall m | m in intents
      ensures exists i :: 0 <= i < |more| && IsIntent(more[i], m)
    {
      var i :| 0 <= i < |log| && IsIntent(log[i], m);
      assert IsIntent(more[i], m);
    }
    forall j | 0 <= j < |more| && IsIntent(more[j], Rollback)
      ensures exists i :: 0 <= i < j && IsIntent(more[i], Deploy)
    {
      var i :| 0 <= i < j && IsIntent(log[i], Deploy);
      assert IsIntent(more[i], Deploy);
    }
  }

  /** The first intent of a mode. */
  lemma FirstExclusive(intents: map<Mode, Phase>, procs: map<nat, Proc>, log: seq<Effect>, pid: nat, mode: Mode,
                       phase: Phase)
    requires Exclusive(intents, procs, log) && mode !in intents
    requires mode == Rollback ==> Deploy in intents
    ensures Exclusive(intents[mode := phase], procs, log + [Intent(pid, mode)])
  {
    var more, after := log + [Intent(pid, mode)], intents[mode := phase];
    assert forall i :: 0 <= i < |log| ==> more[i] == log[i];
    assert IsIntent(more[|log|], mode);
    forall m | m in after
      ensures exists i :: 0 <= i < |more| && IsIntent(more[i], m)
    {
      if m in intents {
        var i :| 0 <= i < |log| && IsIntent(log[i], m);
        assert IsIntent(more[i], m);
      }
    }
    assert forall j :: 0 <= j < |log| ==> !IsIntent(log[j], Rollback);
    if mode == Rollback {
      var i :| 0 <= i < |log| && IsIntent(log[i], Deploy);
      assert IsIntent(more[i], Deploy);
    }
  }

  lemma PhaseExclusive(intents: map<Mode, Phase>, procs: map<nat, Proc>, log: seq<Effect>, mode: Mode, phase: Phase)
    requires Exclusive(intents, procs, log) && mode in intents
    ensures Exclusive(intents[mode := phase], procs, log)
  {
  }

  /** Moving one invocation along without an effect. */
  lemma MovedKeeps(recovery: Recovery, w: World, pid: nat, p: Proc, was: Pc)
    requires Inv(recovery, w) && (pid in w.procs ==> w.procs[pid].mode == p.mode)
    requires p.pc == Stopped || (if pid in w.procs then w.procs[pid].pc == was && was != Stopped else was == Starting)
    requires p.pc == Stopped || Reached(p.pc) == Reached(was)
    requires p.mode == Rollback && p.pc in {Reviewed, Checked} ==> Deploy in w.intents
    ensures Inv(recovery, Moved(w, pid, p))
  {
    hide AllOnPlan, AllOwnMode, Exclusive, Reached;
    MovedOnPlan(w.procs, w.log, pid, p, was);
    MovedOwnMode(recovery, w.procs, w.log, pid, p);
    MovedExclusive(w.intents, w.procs, w.log, pid, p);
  }

  lemma HaltedKeeps(recovery: Recovery, w: World, pid: nat)
    requires Inv(recovery, w) && pid in w.procs
    ensures Inv(recovery, Halted(w, pid, w.procs[pid]))
  {
    hide Inv;
    MovedKeeps(recovery, w, pid, w.procs[pid].(pc := Stopped), w.procs[pid].pc);
  }

  /** An effect that is next in the plan, other than the intent. */
  lemma EffectKeeps(recovery: Recovery, w: World, e: Effect, p: Proc)
    requires Inv(recovery, w) && e.pid in w.procs && w.procs[e.pid].pc !in {Stopped, Verified} && !e.Intent?
    requires w.procs[e.pid].mode == p.mode && p.pc !in {Reviewed, Checked}
    requires KindOf(e) == Some(PLAN[Reached(w.procs[e.pid].pc)]) && OwnMode(recovery, w.procs, e)
    requires p.pc == Stopped || Reached(p.pc) == Reached(w.procs[e.pid].pc) + 1
    ensures Inv(recovery, Moved(w, e.pid, p).(log := w.log + [e]))
  {
    hide AllOnPlan, AllOwnMode, Exclusive, Reached, KindOf, OwnMode;
    ActedOnPlan(w.procs, w.log, e, p);
    MoreOwnMode(recovery, w.procs, w.log, e);
    MovedOwnMode(recovery, w.procs, w.log + [e], e.pid, p);
    MoreExclusive(w.intents, w.procs, w.log, e);
    MovedExclusive(w.intents, w.procs, w.log + [e], e.pid, p);
  }

  lemma ActedKeeps(recovery: Recovery, w: World, e: Effect, next: Pc, outcome: Outcome)
    requires Inv(recovery, w) && e.pid in w.procs && w.procs[e.pid].pc !in {Stopped, Verified} && !e.Intent?
    requires next !in {Reviewed, Checked}
    requires KindOf(e) == Some(PLAN[Reached(w.procs[e.pid].pc)]) && OwnMode(recovery, w.procs, e)
    requires Reached(next) == Reached(w.procs[e.pid].pc) + 1
    ensures Inv(recovery, Acted(w, e.pid, w.procs[e.pid], e, next, outcome))
  {
    hide Inv, KindOf, OwnMode, Reached;
    var p := w.procs[e.pid];
    match outcome
    case NotDone => HaltedKeeps(recovery, w, e.pid);
    case Unseen => EffectKeeps(recovery, w, e, p.(pc := Stopped));
    case Done => EffectKeeps(recovery, w, e, p.(pc := next));
  }

  /** The exclusive creation of the intent. */
  lemma IntentKeeps(recovery: Recovery, w: World, pid: nat, outcome: Outcome)
    requires Inv(recovery, w) && pid in w.procs && w.procs[pid].pc == Checked
    ensures Inv(recovery, Performed(recovery, w, pid, w.procs[pid], outcome))
  {
    hide AllOnPlan, AllOwnMode, Rewrite, Count;
    var p := w.procs[pid];
    if p.mode in w.intents || outcome == NotDone {
      HaltedKeeps(recovery, w, pid);
    } else {
      var e, q := Intent(pid, p.mode), p.(pc := if outcome == Done then Intended else Stopped);
      assert Performed(recovery, w, pid, p, outcome)
        == World(w.intents[p.mode := Quiescing], w.procs[pid := q], w.log + [e]);
      hide Performed;
      ActedOnPlan(w.procs, w.log, e, q);
      MoreOwnMode(recovery, w.procs, w.log, e);
      MovedOwnMode(recovery, w.procs, w.log + [e], pid, q);
      FirstExclusive(w.intents, w.procs, w.log, pid, p.mode, Quiescing);
      hide Exclusive;
      MovedExclusive(w.intents[p.mode := Quiescing], w.procs, w.log + [e], pid, q);
    }
  }

  /** The intent of an invocation that has reached it is on the disk. */
  lemma HasIntent(recovery: Recovery, w: World, pid: nat) returns (i: nat)
    requires Inv(recovery, w) && Milestones(w.log, pid) != []
    ensures pid in w.procs && w.procs[pid].mode in w.intents
    ensures i < |w.log| && w.log[i] == Intent(pid, w.procs[pid].mode)
  {
    hide Rewrite, Count;
    assert OnPlan(w.procs, w.log, pid);
    i := FirstMilestone(w.log, pid);
    assert OwnMode(recovery, w.procs, w.log[i]);
    assert IsIntent(w.log[i], w.procs[pid].mode);
  }

  lemma {:induction false} FirstMilestone(log: seq<Effect>, pid: nat) returns (i: nat)
    requires Milestones(log, pid) != [] && Milestones(log, pid)[0] == KIntent
    ensures i < |log| && log[i].Intent? && log[i].pid == pid
  {
    var init := log[..|log| - 1];
    if Milestones(init, pid) != [] {
      i := FirstMilestone(init, pid);
    } else {
      i := |log| - 1;
    }
  }

  lemma ReceiptKeeps(recovery: Recovery, w: World, pid: nat, outcome: Outcome)
    requires Inv(recovery, w) && pid in w.procs && w.procs[pid].pc == StillQuiet
    ensures Inv(recovery, Performed(recovery, w, pid, w.procs[pid], outcome))
  {
    hide AllOnPlan, AllOwnMode, Exclusive, Milestones;
    var p := w.procs[pid];
    var acted := Acted(w, pid, p, Receipt(pid), Recorded, outcome);
    ActedKeeps(recovery, w, Receipt(pid), Recorded, outcome);
    if outcome != NotDone {
      assert Milestones(w.log, pid) != [] by { GoingOn(recovery, w, pid); }
      var i := HasIntent(recovery, w, pid);
      PhaseExclusive(w.intents, acted.procs, acted.log, p.mode, Quiesced);
    }
  }

  lemma GoingOn(recovery: Recovery, w: World, pid: nat)
    requires Inv(recovery, w) && pid in w.procs && w.procs[pid].pc != Stopped && Reached(w.procs[pid].pc) > 0
    ensures Milestones(w.log, pid) != []
  {
    hide AllOwnMode, Exclusive, Milestones;
    assert OnPlan(w.procs, w.log, pid);
  }

  lemma LookedKeeps(recovery: Recovery, w: World, pid: nat, o: Observation)
    requires Inv(recovery, w) && pid in w.procs
    ensures Inv(recovery, Looked(w, pid, w.procs[pid], o))
  {
    hide Inv, PublicIsQuiesced;
    var p, e := w.procs[pid], Saw(pid, o);
    if p.pc.Polling? || p.pc.Undrifted? || p.pc.Updated? {
      if PublicIsQuiesced(o) == Ok(true) {
        EffectKeeps(recovery, w, e, p.(pc := AfterQuiet(p.pc)));
      } else {
        var seen := w.(log := w.log + [e]);
        SawKeeps(recovery, w, e);
        if PublicIsQuiesced(o).Ok? && p.pc.Polling? && p.pc.left > 1 {
          MovedKeeps(recovery, seen, pid, p.(pc := Polling(p.pc.left - 1)), p.pc);
        } else {
          HaltedKeeps(recovery, seen, pid);
        }
      }
    }
  }

  lemma WatchedKeeps(recovery: Recovery, w: World, pid: nat, s: Sighting)
    requires Inv(recovery, w) && pid in w.procs
    ensures Inv(recovery, Watched(recovery, w, pid, w.procs[pid], s))
  {
    hide Inv, Confirms, TargetOf;
    var p := w.procs[pid];
    var target := TargetOf(recovery, p.mode);
    var e := Sighted(pid, target, s);
    if p.pc.Watching? {
      if Confirms(target, s) == Ok(true) {
        EffectKeeps(recovery, w, e, p.(pc := Confirmed));
      } else {
        var seen := w.(log := w.log + [e]);
        SawKeeps(recovery, w, e);
        if Confirms(target, s).Ok? && p.pc.tries > 1 {
          MovedKeeps(recovery, seen, pid, p.(pc := Watching(p.pc.tries - 1)), p.pc);
        } else {
          HaltedKeeps(recovery, seen, pid);
        }
      }
    }
  }

  lemma SawKeeps(recovery: Recovery, w: World, e: Effect)
    requires Inv(recovery, w) && KindOf(e) == None && OwnMode(recovery, w.procs, e)
    ensures Inv(recovery, w.(log := w.log + [e]))
  {
    hide AllOnPlan, AllOwnMode, Exclusive, PublicIsQuiesced, Confirms, OwnMode;
    SawOnPlan(w.procs, w.log, e);
    MoreOwnMode(recovery, w.procs, w.log, e);
    MoreExclusive(w.intents, w.procs, w.log, e);
  }

  lemma PassedKeeps(recovery: Recovery, w: World, pid: nat)
    requires Inv(recovery, w) && pid in w.procs
    ensures Inv(recovery, Passed(w, pid, w.procs[pid]))
  {
    hide AllOnPlan, AllOwnMode;
    var p := w.procs[pid];
    match p.pc
    case Starting =>
      hide Exclusive;
      if p.mode == Rollback && Deploy !in w.intents {
        HaltedKeeps(recovery, w, pid);
      } else {
        MovedKeeps(recovery, w, pid, p.(pc := Reviewed), p.pc);
      }
    case Reviewed => MovedKeeps(recovery, w, pid, p.(pc := Checked), p.pc);
    case Quiet => MovedKeeps(recovery, w, pid, p.(pc := Undrifted), p.pc);
    case _ =>
  }

  lemma PerformedKeeps(recovery: Recovery, w: World, pid: nat, outcome: Outcome)
    requires Inv(recovery, w) && pid in w.procs
    ensures Inv(recovery, Performed(recovery, w, pid, w.procs[pid], outcome))
  {
    hide Inv, Rewrite, Count;
    var p := w.procs[pid];
    match p.pc
    case Checked => IntentKeeps(recovery, w, pid, outcome);
    case StillQuiet => ReceiptKeeps(recovery, w, pid, outcome);
    case Intended => ActedKeeps(recovery, w, Scaled(pid), Polling(POLLS), outcome);
    case Recorded =>
      if Count(recovery.env) != 1 {
        HaltedKeeps(recovery, w, pid);
      } else {
        ActedKeeps(recovery, w, AppUpdated(pid, Rewrite(recovery.env, TargetSha(recovery, p.mode))), Updated, outcome);
      }
    case Ready => ActedKeeps(recovery, w, Redeployed(pid, p.mode), Watching(WATCHES), outcome);
    case Confirmed => ActedKeeps(recovery, w, VerifiedReceipt(pid), Verified, outcome);
    case _ =>
  }

  lemma StepKeeps(recovery: Recovery, w: World, step: Step)
    requires Inv(recovery, w)
    ensures Inv(recovery, Next(recovery, w, step))
  {
    hide Inv, Performed, Passed, Looked, Watched;
    if step.Begin? {
      if step.pid !in w.procs {
        MovedKeeps(recovery, w, step.pid, Proc(step.mode, if step.mode in w.intents then Stopped else Starting),
          Starting);
      }
    } else if step.pid in w.procs {
      match step
      case Stop(pid) => HaltedKeeps(recovery, w, pid);
      case Pass(pid) => PassedKeeps(recovery, w, pid);
      case Look(pid, o) => LookedKeeps(recovery, w, pid, o);
      case Watch(pid, s) => WatchedKeeps(recovery, w, pid, s);
      case Act(pid, outcome) => PerformedKeeps(recovery, w, pid, outcome);
      case Begin(_, _) =>
    }
  }

  lemma {:induction false} RunKeeps(recovery: Recovery, steps: seq<Step>)
    ensures Inv(recovery, After(recovery, steps))
  {
    hide Inv, Next;
    if steps == [] {
      StartKeeps(recovery);
    } else {
      RunKeeps(recovery, steps[..|steps| - 1]);
      StepKeeps(recovery, After(recovery, steps[..|steps| - 1]), steps[|steps| - 1]);
    }
  }

  lemma StartKeeps(recovery: Recovery)
    ensures Inv(recovery, START)
  {
    hide Rewrite, Count;
  }

  // What every run guarantees.

  lemma {:induction false} MilestonesGrow(log: seq<Effect>, i: nat, pid: nat)
    requires i <= |log|
    ensures Milestones(log[..i], pid) <= Milestones(log, pid)
  {
    if i < |log| {
      MilestonesGrow(log[..|log| - 1], i, pid);
      assert log[..|log| - 1][..i] == log[..i];
    } else {
      assert log[..i] == log;
    }
  }

  /** Before a dispatch its invocation has done all the rest of the plan, in order, and nothing else that counts. */
  lemma EveryDispatchIsPlanned(recovery: Recovery, steps: seq<Step>, i: nat)
    requires var log := After(recovery, steps).log; i < |log| && log[i].Redeployed?
    ensures var log := After(recovery, steps).log; Milestones(log[..i], log[i].pid) == PLAN[..7]
  {
    hide After, Milestones, Inv;
    var w := After(recovery, steps);
    var pid := w.log[i].pid;
    RunKeeps(recovery, steps);
    MilestonesGrow(w.log, i + 1, pid);
    assert w.log[..i + 1] == w.log[..i] + [w.log[i]];
    MilestonesMore(w.log[..i], w.log[i], pid);
    assert Milestones(w.log, pid) <= PLAN by { PlanPrefix(recovery, w, pid); }
    var done := Milestones(w.log[..i], pid);
    assert done + [KRedeploy] <= PLAN;
    assert PLAN[|done|] == (done + [KRedeploy])[|done|];
  }

  lemma PlanPrefix(recovery: Recovery, w: World, pid: nat)
    requires Inv(recovery, w)
    ensures Milestones(w.log, pid) <= PLAN
  {
    hide AllOwnMode, Exclusive, Milestones;
    assert OnPlan(w.procs, w.log, pid);
  }

  /** A mode is dispatched at most once from a recovery directory. */
  lemma AtMostOneDispatch(recovery: Recovery, steps: seq<Step>, i: nat, j: nat)
    requires var log := After(recovery, steps).log;
      i < |log| && j < |log| && log[i].Redeployed? && log[j].Redeployed? && log[i].mode == log[j].mode
    ensures i == j
  {
    hide After, Milestones, AllOnPlan;
    var w := After(recovery, steps);
    RunKeeps(recovery, steps);
    EveryDispatchIsPlanned(recovery, steps, i);
    EveryDispatchIsPlanned(recovery, steps, j);
    assert OwnMode(recovery, w.procs, w.log[i]) && OwnMode(recovery, w.procs, w.log[j]);
    MilestonesGrow(w.log, i, w.log[i].pid);
    MilestonesGrow(w.log, j, w.log[j].pid);
    var a := HasIntent(recovery, w, w.log[i].pid);
    var b := HasIntent(recovery, w, w.log[j].pid);
    assert IsIntent(w.log[a], w.log[i].mode) && IsIntent(w.log[b], w.log[j].mode);
    assert a == b;
    OnceEach(recovery, steps, i, j);
    OnceEach(recovery, steps, j, i);
  }

  lemma OnceEach(recovery: Recovery, steps: seq<Step>, i: nat, j: nat)
    requires var log := After(recovery, steps).log;
      i < |log| && j < |log| && log[i].Redeployed? && log[j].Redeployed? && log[i].pid == log[j].pid
    ensures j <= i
  {
    hide After, Milestones;
    var log := After(recovery, steps).log;
    EveryDispatchIsPlanned(recovery, steps, i);
    EveryDispatchIsPlanned(recovery, steps, j);
    if i < j {
      assert log[..j][..i + 1] == log[..i] + [log[i]];
      MilestonesGrow(log[..j], i + 1, log[i].pid);
      MilestonesMore(log[..i], log[i], log[i].pid);
      assert false;
    }
  }

  /** A dispatch comes after the exclusive intent that its own invocation wrote for the same mode. */
  lemma DispatchHasIntent(recovery: Recovery, steps: seq<Step>, i: nat) returns (k: nat)
    requires var log := After(recovery, steps).log; i < |log| && log[i].Redeployed?
    ensures var log := After(recovery, steps).log; k < i && log[k] == Intent(log[i].pid, log[i].mode)
  {
    hide After, Milestones;
    var w := After(recovery, steps);
    RunKeeps(recovery, steps);
    EveryDispatchIsPlanned(recovery, steps, i);
    k := FirstMilestone(w.log[..i], w.log[i].pid);
    assert OwnMode(recovery, w.procs, w.log[i]) && OwnMode(recovery, w.procs, w.log[k]);
  }

  /** There is a rollback intent only after a deployment intent, and an intent stays on the disk. */
  lemma IntentsLast(recovery: Recovery, steps: seq<Step>, j: nat)
    requires var log := After(recovery, steps).log; j < |log| && log[j].Intent?
    ensures var w := After(recovery, steps);
      && w.log[j].mode in w.intents
      && (w.log[j].mode == Rollback ==> exists i :: 0 <= i < j && IsIntent(w.log[i], Deploy))
  {
    hide After, AllOnPlan, AllOwnMode;
    var w := After(recovery, steps);
    RunKeeps(recovery, steps);
    assert IsIntent(w.log[j], w.log[j].mode);
  }

  /**
   * Every environment that is sent names the target of its invocation's mode, and keeps the rest under one condition.
   */
  lemma UpdatesNameTheTarget(recovery: Recovery, steps: seq<Step>, i: nat) returns (mode: Mode)
    requires IsSha(recovery.candidate.sha) && IsSha(recovery.rollback.sha) && GitSha(Lines.SplitLines(recovery.env)).Ok?
    requires var log := After(recovery, steps).log; i < |log| && log[i].AppUpdated?
    ensures var w := After(recovery, steps);
      var lines, before := Lines.SplitLines(w.log[i].env), Lines.SplitLines(recovery.env);
      && w.log[i].pid in w.procs && w.procs[w.log[i].pid].mode == mode
      && GitSha(lines) == Ok(TargetSha(recovery, mode))
      && (StableEnv(lines) == StableEnv(before) <==> OwnLine(recovery.env))
  {
    hide After, AllOnPlan, Exclusive, Rewrite, Count, Lines.SplitLines, StableEnv, OwnLine, IsSha;
    var w := After(recovery, steps);
    RunKeeps(recovery, steps);
    assert OwnMode(recovery, w.procs, w.log[i]);
    mode := w.procs[w.log[i].pid].mode;
    DriftCheckAccepts(recovery.env, TargetSha(recovery, mode));
  }

  /** Where a milestone of an invocation is in the log. */
  lemma {:induction false} MilestoneAt(log: seq<Effect>, pid: nat, n: nat) returns (i: nat)
    requires n < |Milestones(log, pid)|
    ensures i < |log| && log[i].pid == pid && KindOf(log[i]) == Some(Milestones(log, pid)[n])
    ensures |Milestones(log[..i], pid)| == n
  {
    hide KindOf;
    var init := log[..|log| - 1];
    if n < |Milestones(init, pid)| {
      i := MilestoneAt(init, pid, n);
      assert init[..i] == log[..i];
    } else {
      i := |log| - 1;
    }
  }

  lemma MilestonesMonotone(log: seq<Effect>, i: nat, j: nat, pid: nat)
    requires i <= j <= |log|
    ensures |Milestones(log[..i], pid)| <= |Milestones(log[..j], pid)|
  {
    MilestonesGrow(log[..j], i, pid);
    assert log[..j][..i] == log[..i];
  }

  /** A verified receipt comes after its invocation's own dispatch and a later sight of its own target, up and alone. */
  lemma VerifiedAfterDispatch(recovery: Recovery, steps: seq<Step>, i: nat) returns (k: nat, j: nat)
    requires var log := After(recovery, steps).log; i < |log| && log[i].VerifiedReceipt?
    ensures var w := After(recovery, steps);
      var pid := w.log[i].pid;
      && k < j < i && pid in w.procs && w.log[k] == Redeployed(pid, w.procs[pid].mode)
      && w.log[j].Sighted? && w.log[j].pid == pid && w.log[j].target == TargetOf(recovery, w.procs[pid].mode)
      && Confirms(w.log[j].target, w.log[j].s) == Ok(true)
  {
    hide After, Inv, Confirms, TargetOf;
    var w := After(recovery, steps);
    var pid, log := w.log[i].pid, w.log;
    RunKeeps(recovery, steps);
    var done := Milestones(log[..i], pid);
    BeforeMilestone(recovery, w, i);
    assert PLAN[|done|] == KVerified;
    k := MilestoneAt(log[..i], pid, 7);
    j := MilestoneAt(log[..i], pid, 8);
    assert log[..i][..k] == log[..k] && log[..i][..j] == log[..j];
    if j <= k { MilestonesMonotone(log, j, k, pid); }
    ModeOf(recovery, w, k);
    ModeOf(recovery, w, j);
  }

  /** An effect that counts is the next thing in its invocation's plan. */
  lemma BeforeMilestone(recovery: Recovery, w: World, i: nat)
    requires Inv(recovery, w) && i < |w.log| && KindOf(w.log[i]).Some?
    ensures var done := Milestones(w.log[..i], w.log[i].pid);
      |done| < |PLAN| && done == PLAN[..|done|] && PLAN[|done|] == KindOf(w.log[i]).value
  {
    hide Milestones, Inv, KindOf;
    var pid := w.log[i].pid;
    MilestonesGrow(w.log, i + 1, pid);
    assert w.log[..i + 1] == w.log[..i] + [w.log[i]];
    MilestonesMore(w.log[..i], w.log[i], pid);
    PlanPrefix(recovery, w, pid);
    var done := Milestones(w.log[..i], pid);
    assert done + [KindOf(w.log[i]).value] <= PLAN;
    assert PLAN[|done|] == (done + [KindOf(w.log[i]).value])[|done|];
  }

  lemma ModeOf(recovery: Recovery, w: World, i: nat)
    requires Inv(recovery, w) && i < |w.log|
    ensures OwnMode(recovery, w.procs, w.log[i])
  {
    hide AllOnPlan, Exclusive, OwnMode;
  }

  /** An invocation updates the application at most once, and two invocations of one mode never both do. */
  lemma OneUpdateOfAMode(recovery: Recovery, w: World, i: nat, j: nat)
    requires Inv(recovery, w) && i < |w.log| && j < |w.log| && w.log[i].AppUpdated? && w.log[j].AppUpdated?
    requires w.log[i].pid in w.procs && w.log[j].pid in w.procs
    requires w.procs[w.log[i].pid].mode == w.procs[w.log[j].pid].mode
    ensures i == j
  {
    hide AllOnPlan, AllOwnMode, Milestones;
    BeforeMilestone(recovery, w, i);
    BeforeMilestone(recovery, w, j);
    MilestonesGrow(w.log, i, w.log[i].pid);
    MilestonesGrow(w.log, j, w.log[j].pid);
    var a := HasIntent(recovery, w, w.log[i].pid);
    var b := HasIntent(recovery, w, w.log[j].pid);
    var mode := w.procs[w.log[i].pid].mode;
    assert IsIntent(w.log[a], mode) && IsIntent(w.log[b], mode);
    assert a == b;
    var pid := w.log[i].pid;
    UpdateStep(Milestones(w.log[..i], pid), Milestones(w.log[..j], pid));
    SameMilestone(w.log, i, j, pid);
    SameMilestone(w.log, j, i, pid);
  }

  lemma UpdateStep(a: seq<Kind>, b: seq<Kind>)
    requires |a| < |PLAN| && |b| < |PLAN| && PLAN[|a|] == KUpdate && PLAN[|b|] == KUpdate
    ensures |a| == |b| == 5
  {
  }

  /** Two effects of an invocation that count do not have the same number of milestones before them. */
  lemma SameMilestone(log: seq<Effect>, i: nat, j: nat, pid: nat)
    requires i < |log| && j < |log| && log[i].pid == pid && KindOf(log[i]).Some?
    requires |Milestones(log[..i], pid)| == |Milestones(log[..j], pid)|
    ensures j <= i
  {
    hide KindOf;
    if i < j {
      MilestonesMore(log[..i], log[i], pid);
      assert log[..j][..i + 1] == log[..i] + [log[i]];
      MilestonesGrow(log[..j], i + 1, pid);
      assert false;
    }
  }

  /**
   What a dispatch brings up is what its own invocation put into the application, exactly when no invocation of the
   other mode updated the application between: its own update is the last one before the dispatch.
   */
  lemma LastUpdateIsOwn(recovery: Recovery, steps: seq<Step>, i: nat) returns (k: nat)
    requires var log := After(recovery, steps).log; i < |log| && log[i].Redeployed?
    ensures var w := After(recovery, steps);
      && k < i && w.log[k].AppUpdated? && w.log[k].pid == w.log[i].pid
      && ((forall j | k < j < i :: !w.log[j].AppUpdated?)
          <==> forall j | k < j < i && w.log[j].AppUpdated? && w.log[j].pid in w.procs ::
                 w.procs[w.log[j].pid].mode == w.log[i].mode)
  {
    hide After, Inv, Milestones;
    var w := After(recovery, steps);
    var pid, log := w.log[i].pid, w.log;
    RunKeeps(recovery, steps);
    EveryDispatchIsPlanned(recovery, steps, i);
    k := MilestoneAt(log[..i], pid, 5);
    ModeOf(recovery, w, k);
    ModeOf(recovery, w, i);
    forall j | k < j < i && log[j].AppUpdated?
      ensures log[j].pid in w.procs && w.procs[log[j].pid].mode != log[i].mode
    {
      ModeOf(recovery, w, j);
      if w.procs[log[j].pid].mode == log[i].mode {
        OneUpdateOfAMode(recovery, w, k, j);
        assert false;
      }
    }
  }

  // ---------------------------------------------------------------- a rollback between update and dispatch

  const QUIET := Observation(SERVICE, Some(0), [], [])

  /** The world with one invocation at `pc`. */
  function With(w: World, pid: nat, p: Proc, intents: map<Mode, Phase>, log: seq<Effect>): World {
    World(intents, w.procs[pid := p], log)
  }

  lemma AfterMore(recovery: Recovery, steps: seq<Step>, step: Step)
    ensures After(recovery, steps + [step]) == Next(recovery, After(recovery, steps), step)
  {
    assert (steps + [step])[..|steps|] == steps;
  }

  /** One step of the invocation, from `pc` to `pc'`. */
  lemma OneStep(recovery: Recovery, w: World, pid: nat, mode: Mode, pc: Pc, pc': Pc, intents: map<Mode, Phase>,
                intents': map<Mode, Phase>, log: seq<Effect>, more: seq<Effect>, steps: seq<Step>, step: Step)
    requires After(recovery, steps) == With(w, pid, Proc(mode, pc), intents, log)
    requires Next(recovery, With(w, pid, Proc(mode, pc), intents, log), step)
      == With(With(w, pid, Proc(mode, pc), intents, log), pid, Proc(mode, pc'), intents', log + more)
    ensures After(recovery, steps + [step]) == With(w, pid, Proc(mode, pc'), intents', log + more)
  {
    hide After, Next;
    AfterMore(recovery, steps, step);
    assert w.procs[pid := Proc(mode, pc)][pid := Proc(mode, pc')] == w.procs[pid := Proc(mode, pc')];
  }

  /** An undisturbed invocation up to its first sight of a quiet service. */
  lemma ToQuiet(recovery: Recovery, before: seq<Step>, pid: nat, mode: Mode) returns (steps: seq<Step>)
    requires var w := After(recovery, before);
      pid !in w.procs && mode !in w.intents && (mode == Rollback ==> Deploy in w.intents)
    ensures var w := After(recovery, before);
      After(recovery, steps) == With(w, pid, Proc(mode, Quiet), w.intents[mode := Quiescing],
        w.log + [Intent(pid, mode)] + [Scaled(pid)] + [Saw(pid, QUIET)])
  {
    hide After, Rewrite, Count;
    var w := After(recovery, before);
    var none, quiescing, log := w.intents, w.intents[mode := Quiescing], w.log;
    AfterMore(recovery, before, Begin(pid, mode));
    steps := before + [Begin(pid, mode)];
    assert log + [] == log;
    OneStep(recovery, w, pid, mode, Starting, Reviewed, none, none, log, [], steps, Pass(pid));
    steps := steps + [Pass(pid)];
    OneStep(recovery, w, pid, mode, Reviewed, Checked, none, none, log, [], steps, Pass(pid));
    steps := steps + [Pass(pid)];
    OneStep(recovery, w, pid, mode, Checked, Intended, none, quiescing, log, [Intent(pid, mode)], steps,
      Act(pid, Done));
    steps := steps + [Act(pid, Done)];
    var log1 := log + [Intent(pid, mode)];
    OneStep(recovery, w, pid, mode, Intended, Polling(POLLS), quiescing, quiescing, log1, [Scaled(pid)], steps,
      Act(pid, Done));
    steps := steps + [Act(pid, Done)];
    var log2 := log1 + [Scaled(pid)];
    OneStep(recovery, w, pid, mode, Polling(POLLS), Quiet, quiescing, quiescing, log2, [Saw(pid, QUIET)], steps,
      Look(pid, QUIET));
    steps := steps + [Look(pid, QUIET)];
  }

  /** And on to the update of the application. */
  lemma ToUpdate(recovery: Recovery, before: seq<Step>, w: World, pid: nat, mode: Mode, log: seq<Effect>)
    returns (steps: seq<Step>)
    requires After(recovery, before) == With(w, pid, Proc(mode, Quiet), w.intents[mode := Quiescing], log)
    requires Count(recovery.env) == 1
    ensures After(recovery, steps) == With(w, pid, Proc(mode, Updated), w.intents[mode := Quiesced],
      log + [Saw(pid, QUIET)] + [Receipt(pid)] + [AppUpdated(pid, Rewrite(recovery.env, TargetSha(recovery, mode)))])
  {
    hide After, Rewrite, Count;
    var quiescing, quiesced := w.intents[mode := Quiescing], w.intents[mode := Quiesced];
    var update := AppUpdated(pid, Rewrite(recovery.env, TargetSha(recovery, mode)));
    assert log + [] == log && quiescing[mode := Quiesced] == quiesced;
    steps := before;
    OneStep(recovery, w, pid, mode, Quiet, Undrifted, quiescing, quiescing, log, [], steps, Pass(pid));
    steps := steps + [Pass(pid)];
    OneStep(recovery, w, pid, mode, Undrifted, StillQuiet, quiescing, quiescing, log, [Saw(pid, QUIET)], steps,
      Look(pid, QUIET));
    steps := steps + [Look(pid, QUIET)];
    var log1 := log + [Saw(pid, QUIET)];
    OneStep(recovery, w, pid, mode, StillQuiet, Recorded, quiescing, quiesced, log1, [Receipt(pid)], steps,
      Act(pid, Done));
    steps := steps + [Act(pid, Done)];
    var log2 := log1 + [Receipt(pid)];
    OneStep(recovery, w, pid, mode, Recorded, Updated, quiesced, quiesced, log2, [update], steps, Act(pid, Done));
    steps := steps + [Act(pid, Done)];
  }

  lemma Undisturbed(recovery: Recovery, before: seq<Step>, pid: nat, mode: Mode) returns (steps: seq<Step>)
    requires var w := After(recovery, before);
      pid !in w.procs && mode !in w.intents && (mode == Rollback ==> Deploy in w.intents)
    requires Count(recovery.env) == 1
    ensures var w := After(recovery, before);
      var env := Rewrite(recovery.env, TargetSha(recovery, mode));
      After(recovery, steps) == With(w, pid, Proc(mode, Updated), w.intents[mode := Quiesced],
        w.log + [Intent(pid, mode), Scaled(pid), Saw(pid, QUIET), Saw(pid, QUIET), Receipt(pid), AppUpdated(pid, env)])
  {
    hide After, Rewrite, Count;
    var w := After(recovery, before);
    var log := w.log + [Intent(pid, mode)] + [Scaled(pid)] + [Saw(pid, QUIET)];
    var quiet := ToQuiet(recovery, before, pid, mode);
    steps := ToUpdate(recovery, quiet, w, pid, mode, log);
    var update := AppUpdated(pid, Rewrite(recovery.env, TargetSha(recovery, mode)));
    assert log + [Saw(pid, QUIET)] + [Receipt(pid)] + [update]
      == w.log + [Intent(pid, mode), Scaled(pid), Saw(pid, QUIET), Saw(pid, QUIET), Receipt(pid), update];
  }

  /**
   * A rollback can run between a deployment's update and its dispatch, which then brings up the rollback's environment.
   */
  lemma OtherModeBetween(recovery: Recovery) returns (steps: seq<Step>)
    requires Count(recovery.env) == 1
    ensures var log := After(recovery, steps).log;
      |log| == 14 && log[13] == Redeployed(0, Deploy)
      && log[5] == AppUpdated(0, Rewrite(recovery.env, recovery.candidate.sha))
      && log[11] == AppUpdated(1, Rewrite(recovery.env, recovery.rollback.sha))
  {
    hide After, Rewrite, Count;
    assert After(recovery, []) == START by { StartsAtStart(recovery); }
    var deployed := Undisturbed(recovery, [], 0, Deploy);
    var rolled := Undisturbed(recovery, deployed, 1, Rollback);
    var w := After(recovery, rolled);
    AfterMore(recovery, rolled, Look(0, QUIET));
    var ready := rolled + [Look(0, QUIET)];
    assert w.procs[0] == Proc(Deploy, Updated);
    AfterMore(recovery, ready, Act(0, Done));
    steps := ready + [Act(0, Done)];
    assert After(recovery, steps).log == w.log + [Saw(0, QUIET)] + [Redeployed(0, Deploy)];
  }

  lemma StartsAtStart(recovery: Recovery)
    ensures After(recovery, []) == START
  {
  }
}
