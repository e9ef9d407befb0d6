/** What the decorator and `proceed` guarantee about every call. */
module PhaseProperties {
  import opened Wrappers
  import CalibrationClicks
  import opened Phases

  /** `proceed` never makes a decorated step raise, and never moves the
      experiment back. */
  lemma {:induction false} ProceedSucceeds(app: App, env: Env)
    ensures Proceed(app, env).Success?
    ensures Rank(Proceed(app, env).value.phase) >= Rank(app.phase)
    decreases 12 - Rank(app.phase), 3, 0
  {
    match app.phase
    case SetDistraction => RunOutcome(SetNotification, app, env);
    case SetParameters => if env.userId != "" { RunOutcome(Initialize, app, env); }
    case CalibInstruction => RunOutcome(SetInstruction, app, env);
    case SetCamera => RunOutcome(SetCameraScreen, app, env);
    case Calibration => RunOutcome(Calibrate, app, env);
    case LectureInstruction => RunOutcome(LectureInstructionScreen, app, env);
    case DemoVideo => RunOutcome(StartVideo, app, env);
    case MainVideo => RunOutcome(StartVideo, app, env);
    case Waiting => RunOutcome(WaitingScreen, app, env);
    case Finish =>
    case Start =>
    case Error =>
  }

  /** A step started inside its before-set succeeds, except `finishVideo`,
      whose body always raises; a successful step ends at or beyond its
      after-state when it has one. */
  lemma {:induction false} RunOutcome(step: Step, app: App, env: Env)
    requires app.phase in Before(step)
    ensures Run(step, app, env).Success? <==> step != FinishVideo
    ensures step == FinishVideo ==> Run(step, app, env) == Failure(UnsetAttribute(FinishVideo))
    ensures Run(step, app, env).Success? ==> Rank(Run(step, app, env).value.phase) >= Rank(app.phase)
    ensures Run(step, app, env).Success? && After(step).Some? ==>
      Rank(Run(step, app, env).value.phase) >= Rank(After(step).value)
    decreases 12 - Rank(app.phase), Depth(step), 1
  {
    BodyOutcome(step, app, env);
    if step != FinishVideo {
      var a1 := Body(step, app, env).value;
      match After(step)
      case Some(p) => ProceedSucceeds(a1.(phase := p), env);
      case None =>
    }
  }

  /** The bodies succeed, including `calibrate` calling `end_calibrate`, and
      never move the experiment back; only `finishVideo`'s raises. */
  lemma {:induction false} BodyOutcome(step: Step, app: App, env: Env)
    requires app.phase in Before(step)
    ensures Body(step, app, env).Success? <==> step != FinishVideo
    ensures step == FinishVideo ==> Body(step, app, env) == Failure(UnsetAttribute(FinishVideo))
    ensures Body(step, app, env).Success? ==> Rank(Body(step, app, env).value.phase) >= Rank(app.phase)
    decreases 12 - Rank(app.phase), Depth(step), 0
  {
    if step == Calibrate {
      var o := CalibrationClicks.Click(app.calib, env.frames, env.skipCalib, env.points);
      var a1 := app.(calib := o.calib, frameResets := app.frameResets + if o.resetFrames then 1 else 0);
      if o.ended {
        RunOutcome(EndCalibrate, a1, env);
      }
    }
  }

  /** The decorator's phase check: a step invoked outside its before-set
      raises before its body runs, with an error naming the step and the
      phase; inside it, only `finishVideo` raises, from its body. */
  lemma RunFailure(step: Step, app: App, env: Env)
    ensures Run(step, app, env).Failure? <==> app.phase !in Before(step) || step == FinishVideo
    ensures app.phase !in Before(step) ==> Run(step, app, env) == Failure(IllegalPhase(step, app.phase))
    ensures app.phase in Before(step) && step == FinishVideo ==>
      Run(step, app, env) == Failure(UnsetAttribute(FinishVideo))
  {
    if app.phase in Before(step) {
      RunOutcome(step, app, env);
    }
  }

  /** The phases in which `proceed` waits for the participant: it changes nothing. */
  predicate Idle(p: Phase, env: Env) {
    p in {SetCamera, CalibInstruction, Finish, DemoVideo, MainVideo, Start, Error}
    || (p == SetParameters && env.userId == "")
  }

  lemma ProceedIdle(app: App, env: Env)
    ensures Proceed(app, env) == Success(app) <==> Idle(app.phase, env)
  {
    match app.phase
    case SetDistraction =>
      RunOutcome(SetNotification, app, env);
    case SetParameters =>
      if env.userId != "" { RunOutcome(Initialize, app, env); }
    case Calibration =>
      var o := CalibrationClicks.Click(app.calib, env.frames, env.skipCalib, env.points);
      var a1 := app.(calib := o.calib, frameResets := app.frameResets + if o.resetFrames then 1 else 0);
      if o.ended {
        EndCalibrateToWaiting(a1, env);
      } else {
        assert o.calib != app.calib;
      }
      assert Run(Calibrate, app, env) == Body(Calibrate, app, env);
    case LectureInstruction =>
      assert Run(LectureInstructionScreen, app, env) == Success(app.(phase := Waiting));
    case Waiting =>
      assert Run(WaitingScreen, app, env) == Success(app.(phase := Finish));
    case CalibInstruction =>
      assert Body(SetInstruction, app, env) == Success(app);
    case SetCamera =>
      assert Body(SetCameraScreen, app, env) == Success(app);
    case DemoVideo =>
      assert Body(StartVideo, app, env) == Success(app);
    case MainVideo =>
      assert Body(StartVideo, app, env) == Success(app);
    case Finish =>
    case Start =>
    case Error =>
  }

  /** A step with an after-state whose `proceed` is idle leaves the
      experiment in exactly that after-state, with nothing else changed;
      `finishVideo` raises instead (see `RunOutcome`). */
  lemma AfterStateReached(step: Step, app: App, env: Env, p: Phase)
    requires app.phase in Before(step)
    requires After(step) == Some(p)
    requires Idle(p, env)
    ensures step != FinishVideo ==> Run(step, app, env) == Success(app.(phase := p))
  {
    ProceedIdle(app.(phase := p), env);
  }

  /** Ending calibration moves through the lecture instruction to `Waiting`. */
  lemma EndCalibrateToWaiting(app: App, env: Env)
    requires app.phase == Calibration
    ensures Run(EndCalibrate, app, env) == Success(app.(phase := Waiting))
  {
    var a2 := app.(phase := LectureInstruction);
    assert Body(LectureInstructionScreen, a2, env) == Success(app.(phase := Waiting));
    assert Run(LectureInstructionScreen, a2, env) == Success(app.(phase := Waiting));
    assert Proceed(a2, env) == Success(app.(phase := Waiting));
    assert Body(EndCalibrate, app, env) == Success(app);
  }

  /** A calibration click while skipping is off: the first click on a point
      resets the frame counter and stays; a later click advances only after
      `DwellFrames` frames; reaching the last point ends in `Waiting`. */
  lemma CalibrateClick(app: App, env: Env)
    requires app.phase == Calibration && !env.skipCalib
    ensures Run(Calibrate, app, env).Success?
    ensures var r := Run(Calibrate, app, env).value;
      var c := app.calib;
      && (c.clicks == 0 ==> r.calib == CalibrationClicks.Calib(c.pos, 1) && r.frameResets == app.frameResets + 1)
      && (c.clicks != 0 ==> r.frameResets == app.frameResets)
      && (r.calib.pos == c.pos + 1 <==> c.clicks != 0 && env.frames >= CalibrationClicks.DwellFrames)
      && (r.phase == Waiting <==> r.calib.pos >= env.points)
      && (r.phase == Calibration <==> r.calib.pos < env.points)
  {
    var o := CalibrationClicks.Click(app.calib, env.frames, env.skipCalib, env.points);
    var a1 := app.(calib := o.calib, frameResets := app.frameResets + if o.resetFrames then 1 else 0);
    if o.ended {
      EndCalibrateToWaiting(a1, env);
    }
    assert Run(Calibrate, app, env) == Body(Calibrate, app, env);
  }

  /** The source's configuration: calibration skipped, 17 points. */
  const Configured: Env := Env("abc", 0, true, CalibrationClicks.SourcePoints)

  /** A named participant's first `proceed` leads to the camera screen. */
  lemma OpeningToCamera()
    ensures Proceed(Opening, Configured) == Success(Opening.(phase := SetCamera))
  {
  }

  /** The camera button leads to the calibration instruction; pressed a
      second time it is rejected by the phase check. */
  lemma CameraButton()
    ensures Run(CameraFinished, Opening.(phase := SetCamera), Configured) == Success(Opening.(phase := CalibInstruction))
    ensures Run(CameraFinished, Opening.(phase := CalibInstruction), Configured)
         == Failure(IllegalPhase(CameraFinished, CalibInstruction))
  {
  }

  /** With calibration skipped, starting calibration runs straight to `Waiting`,
      and the button there finishes the experiment. */
  lemma SkippedCalibration()
    ensures Run(SetInstructionFinished, Opening.(phase := CalibInstruction), Configured)
         == Success(App(Waiting, CalibrationClicks.Calib(18, 0), 0))
    ensures Proceed(App(Waiting, CalibrationClicks.Calib(18, 0), 0), Configured)
         == Success(App(Finish, CalibrationClicks.Calib(18, 0), 0))
  {
    var a := Opening.(phase := Calibration);
    var a1 := App(Calibration, CalibrationClicks.Calib(18, 0), 0);
    EndCalibrateToWaiting(a1, Configured);
    assert Body(Calibrate, a, Configured) == Success(a1.(phase := Waiting));
    assert Proceed(a, Configured) == Success(a1.(phase := Waiting));
  }

  /** `proceed` in `SetParameters` with an empty user id changes nothing. */
  lemma EmptyUserIdWaits(app: App, env: Env)
    requires app.phase == SetParameters && env.userId == ""
    ensures Proceed(app, env) == Success(app)
  {
  }
}
