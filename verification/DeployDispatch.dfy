/**
 * What stands in the log before a dispatch of module DeployProtocol, effect by effect, what a look at the service does
 * to an invocation, and what a verified receipt was based on.
 */
module DeployDispatch {
  import opened Basics
  import opened DeployEnv
  import opened DeployProtocol

  /** The service scaled to nothing, with every task in a final state and no container left. */
  predicate Nothing(o: Observation) {
    && o.name == "zenod-mt-fxpzoo" && o.replicas == Some(0) && o.containers == []
    && forall i :: 0 <= i < |o.tasks| ==>
         || o.tasks[i] == "complete" || o.tasks[i] == "shutdown" || o.tasks[i] == "failed"
         || o.tasks[i] == "rejected" || o.tasks[i] == "remove" || o.tasks[i] == "removed"
  }

  lemma QuietIsNothing(o: Observation)
    ensures PublicIsQuiesced(o) == Ok(true) <==> Nothing(o)
    ensures PublicIsQuiesced(o).Err? <==> o.name != "zenod-mt-fxpzoo"
  {
    if PublicIsQuiesced(o).Ok? { assert PublicIsQuiesced(o) == Ok(true) || PublicIsQuiesced(o) == Ok(false); }
  }

  /** The effect at `k` is one of the invocation's looks at the service, and it found nothing running. */
  ghost predicate SawNothing(log: seq<Effect>, k: int, pid: nat) {
    0 <= k < |log| && log[k].Saw? && log[k].pid == pid && Nothing(log[k].o)
  }

  lemma SeenAt(log: seq<Effect>, k: nat, pid: nat)
    requires k < |log| && log[k].pid == pid && KindOf(log[k]) == Some(KQuiet)
    ensures SawNothing(log, k, pid)
  {
    if log[k].Saw? { QuietIsNothing(log[k].o); }
  }

  /** The eight effects of an invocation up to its dispatch, in the order of their places. */
  datatype Places = Places(intent: nat, scaled: nat, quiet: nat, again: nat, receipt: nat, update: nat, still: nat)

  lemma InOrder(log: seq<Effect>, pid: nat, a: nat, b: nat)
    requires a < |log| && b < |log| && |Milestones(log[..a], pid)| < |Milestones(log[..b], pid)|
    ensures a < b
  {
    if b <= a { MilestonesMonotone(log, b, a, pid); }
  }

  /** Where the first milestones of an invocation are. */
  lemma PlaceOf(log: seq<Effect>, i: nat, pid: nat, n: nat) returns (k: nat)
    requires i <= |log| && n < |Milestones(log[..i], pid)|
    ensures k < i && log[k].pid == pid && KindOf(log[k]) == Some(Milestones(log[..i], pid)[n])
    ensures |Milestones(log[..k], pid)| == n
  {
    hide KindOf;
    k := MilestoneAt(log[..i], pid, n);
    assert log[..i][..k] == log[..k];
  }

  /**
   * Before a dispatch, in this order and all by its own invocation: the intent for its mode, the scale to zero, two
   * looks that found nothing running, the receipt, the update of the application, and one more look that found nothing
   * running. The update names the target of the mode.
   */
  lemma DispatchSawNothing(recovery: Recovery, steps: seq<Step>, i: nat) returns (at: Places)
    requires var log := After(recovery, steps).log; i < |log| && log[i].Redeployed?
    ensures var log := After(recovery, steps).log;
      var pid, mode := log[i].pid, log[i].mode;
      && at.intent < at.scaled < at.quiet < at.again < at.receipt < at.update < at.still < i
      && log[at.intent] == Intent(pid, mode) && log[at.scaled] == Scaled(pid)
      && SawNothing(log, at.quiet, pid) && SawNothing(log, at.again, pid)
      && log[at.receipt] == Receipt(pid)
      && log[at.update]
         == AppUpdated(pid, Rewrite(recovery.env,
              if mode == Deploy then recovery.candidate.sha else recovery.rollback.sha))
      && SawNothing(log, at.still, pid)
  {
    hide After, Milestones, Inv, Rewrite, KindOf;
    var w := After(recovery, steps);
    var log, pid := w.log, w.log[i].pid;
    RunKeeps(recovery, steps);
    EveryDispatchIsPlanned(recovery, steps, i);
    var intent := PlaceOf(log, i, pid, 0);
    var scaled := PlaceOf(log, i, pid, 1);
    var quiet := PlaceOf(log, i, pid, 2);
    var again := PlaceOf(log, i, pid, 3);
    var receipt := PlaceOf(log, i, pid, 4);
    var update := PlaceOf(log, i, pid, 5);
    var still := PlaceOf(log, i, pid, 6);
    InOrder(log, pid, intent, scaled);
    InOrder(log, pid, scaled, quiet);
    InOrder(log, pid, quiet, again);
    InOrder(log, pid, again, receipt);
    InOrder(log, pid, receipt, update);
    InOrder(log, pid, update, still);
    SeenAt(log, quiet, pid);
    SeenAt(log, again, pid);
    SeenAt(log, still, pid);
    KindsAre(log[intent]);
    KindsAre(log[scaled]);
    KindsAre(log[receipt]);
    KindsAre(log[update]);
    OwnEffects(recovery, w, intent, update, i);
    at := Places(intent, scaled, quiet, again, receipt, update, still);
  }

  lemma KindsAre(e: Effect)
    ensures KindOf(e) == Some(KIntent) ==> e == Intent(e.pid, e.mode)
    ensures KindOf(e) == Some(KScale) ==> e == Scaled(e.pid)
    ensures KindOf(e) == Some(KReceipt) ==> e == Receipt(e.pid)
    ensures KindOf(e) == Some(KUpdate) ==> e == AppUpdated(e.pid, e.env)
  {
  }

  lemma OwnEffects(recovery: Recovery, w: World, intent: nat, update: nat, i: nat)
    requires Inv(recovery, w) && intent < |w.log| && update < |w.log| && i < |w.log| && w.log[i].Redeployed?
    requires w.log[intent].Intent? && w.log[update].AppUpdated?
    requires w.log[intent].pid == w.log[i].pid == w.log[update].pid
    ensures w.log[intent].mode == w.log[i].mode
    ensures w.log[update].env
      == Rewrite(recovery.env, if w.log[i].mode == Deploy then recovery.candidate.sha else recovery.rollback.sha)
  {
    hide Rewrite, Count, Inv;
    ModeOf(recovery, w, intent);
    ModeOf(recovery, w, update);
    ModeOf(recovery, w, i);
  }

  // What a look does.

  /**
   * A look after the scale is taken at most sixty times, one before the update and one before the dispatch once each:
   * one that finds nothing running moves the invocation on, any other stops it, unless it has looks left after the
   * scale and looked at the right service.
   */
  lemma LookDecides(recovery: Recovery, w: World, pid: nat, o: Observation)
    requires pid in w.procs
    ensures var before, after := w.procs[pid].pc, Next(recovery, w, Look(pid, o));
      var after' := after.procs[pid].pc;
      match before
      case Polling(left) =>
        && after.log == w.log + [Saw(pid, o)]
        && after' == if Nothing(o) then Quiet
                     else if o.name == "zenod-mt-fxpzoo" && left > 1 then Polling(left - 1) else Stopped
      case Undrifted => after.log == w.log + [Saw(pid, o)] && after' == if Nothing(o) then StillQuiet else Stopped
      case Updated => after.log == w.log + [Saw(pid, o)] && after' == if Nothing(o) then Ready else Stopped
      case _ => after == w
  {
    QuietIsNothing(o);
    hide Nothing, PublicIsQuiesced;
    if PublicIsQuiesced(o).Ok? { assert PublicIsQuiesced(o).value || !PublicIsQuiesced(o).value; }
  }

  /** What each act does, when it succeeds; no other act does anything. */
  lemma ActDoes(recovery: Recovery, w: World, pid: nat)
    requires pid in w.procs
    ensures var p, after := w.procs[pid], Next(recovery, w, Act(pid, Done));
      match p.pc
      case Checked =>
        if p.mode in w.intents then after.log == w.log && after.procs[pid].pc == Stopped
        else after.log == w.log + [Intent(pid, p.mode)] && after.procs[pid].pc == Intended
             && after.intents.Keys == w.intents.Keys + {p.mode}
      case Intended => after.log == w.log + [Scaled(pid)] && after.procs[pid].pc == Polling(60)
      case StillQuiet => after.log == w.log + [Receipt(pid)] && after.procs[pid].pc == Recorded
      case Recorded =>
        if Count(recovery.env) != 1 then after.log == w.log && after.procs[pid].pc == Stopped
        else after.procs[pid].pc == Updated && |after.log| == |w.log| + 1 && after.log[|w.log|].AppUpdated?
      case Ready => after.log == w.log + [Redeployed(pid, p.mode)] && after.procs[pid].pc == Watching(60)
      case Confirmed => after.log == w.log + [VerifiedReceipt(pid)] && after.procs[pid].pc == Verified
      case _ => after == w
  {
    hide Rewrite, Count;
  }

  // What a verified receipt says.

  /**
   * The service has settled with one replica and one task, running the target's image in the only container, and that
   * container's image and revision, and the health it reports, are the target's; and nothing else has changed.
   */
  predicate Runs(target: Target, s: Sighting) {
    && s.settled && s.replicas == Some(1) && s.image == target.image
    && |s.tasks| == 1 && s.tasks[0] == Task("running", target.image, s.tasks[0].container)
    && s.running == [s.tasks[0].container]
    && s.imageId == target.imageId && s.revision == target.sha
    && s.health == Some(Health("ok", target.sha)) && s.undrifted
  }

  /** The service has not settled on the target yet, or everything is there but the health. */
  predicate Awaited(target: Target, s: Sighting) {
    || !s.settled || s.replicas != Some(1) || s.image != target.image
    || |s.tasks| != 1 || s.tasks[0].state != "running" || s.tasks[0].image != target.image
    || (s.running == [s.tasks[0].container] && s.imageId == target.imageId && s.revision == target.sha
        && s.health != Some(Health("ok", target.sha)))
  }

  lemma ConfirmsIsRuns(target: Target, s: Sighting)
    ensures Confirms(target, s) == Ok(true) <==> Runs(target, s)
    ensures Confirms(target, s) == Ok(false) <==> Awaited(target, s)
  {
  }

  /**
   * A verified receipt comes after its invocation's own dispatch and a look that found the target of its mode running.
   */
  lemma ReceiptSawTarget(recovery: Recovery, steps: seq<Step>, i: nat) returns (k: nat, j: nat)
    requires var log := After(recovery, steps).log; i < |log| && log[i].VerifiedReceipt?
    ensures var w := After(recovery, steps);
      var pid := w.log[i].pid;
      && k < j < i && w.log[k].Redeployed? && w.log[k].pid == pid
      && w.log[j].Sighted? && w.log[j].pid == pid
      && Runs(if w.log[k].mode == Deploy then recovery.candidate else recovery.rollback, w.log[j].s)
  {
    hide After, Confirms, Runs;
    k, j := VerifiedAfterDispatch(recovery, steps, i);
    var w := After(recovery, steps);
    ConfirmsIsRuns(w.log[j].target, w.log[j].s);
  }

  /** A look after the dispatch, of which there are at most sixty, confirms the target, is repeated, or ends it. */
  lemma WatchDecides(recovery: Recovery, w: World, pid: nat, s: Sighting)
    requires pid in w.procs && w.procs[pid].pc.Watching?
    ensures var p, after := w.procs[pid], Next(recovery, w, Watch(pid, s));
      var target := if p.mode == Deploy then recovery.candidate else recovery.rollback;
      && after.log == w.log + [Sighted(pid, target, s)]
      && after.procs[pid].pc == if Runs(target, s) then Confirmed
                                else if Awaited(target, s) && p.pc.tries > 1 then Watching(p.pc.tries - 1)
                                else Stopped
  {
    var target := TargetOf(recovery, w.procs[pid].mode);
    ConfirmsIsRuns(target, s);
    hide Confirms, Runs, Awaited;
    if Confirms(target, s).Ok? {
      assert Confirms(target, s) == Ok(true) || Confirms(target, s) == Ok(false) by { TwoAnswers(Confirms(target, s)); }
    }
  }

  lemma TwoAnswers(r: Result<bool>)
    ensures r.Ok? ==> r == Ok(true) || r == Ok(false)
  {
    if r.Ok? {
      if r.value { assert r == Ok(true); } else { assert r == Ok(false); }
    }
  }
}
