/** The experiment's phase machine: the `proceedFunction` decorator, the
    decorated steps and the `proceed` dispatcher of `ExpApp`. */
module Phases {
  import opened Wrappers
  import CalibrationClicks

  datatype Phase =
    | Start | SetDistraction | SetParameters | CalibInstruction | SetCamera | Calibration
    | LectureInstruction | DemoVideo | MainVideo | Waiting | Finish | Error

  /** How far along the experiment a phase is; no step ever moves back. */
  function Rank(p: Phase): nat {
    match p
    case Start => 0
    case SetDistraction => 1
    case SetParameters => 2
    case SetCamera => 3
    case CalibInstruction => 4
    case Calibration => 5
    case LectureInstruction => 6
    case DemoVideo => 7
    case MainVideo => 8
    case Waiting => 9
    case Finish => 10
    case Error => 11
  }

  /** The methods of `ExpApp` decorated with `proceedFunction`. */
  datatype Step =
    | SetNotification | Initialize | SetCameraScreen | CameraFinished | SetInstruction
    | SetInstructionFinished | Calibrate | EndCalibrate | LectureInstructionScreen
    | WaitingScreen | StartVideo | FinishVideo

  /** The decorator's `state_before`: the phases the step may start in. */
  function Before(step: Step): set<Phase> {
    match step
    case SetNotification => {SetDistraction}
    case Initialize => {SetParameters}
    case SetCameraScreen => {SetCamera}
    case CameraFinished => {SetCamera}
    case SetInstruction => {CalibInstruction}
    case SetInstructionFinished => {CalibInstruction}
    case Calibrate => {Calibration}
    case EndCalibrate => {Calibration}
    case LectureInstructionScreen => {LectureInstruction}
    case WaitingScreen => {Waiting}
    case StartVideo => {DemoVideo, MainVideo}
    case FinishVideo => {MainVideo}
  }

  /** The decorator's `state_after`: the phase set, followed by `proceed`, after the step. */
  function After(step: Step): (p: Option<Phase>)
    ensures p.Some? ==> forall b :: b in Before(step) ==> Rank(b) < Rank(p.value)
  {
    match step
    case SetNotification => Some(SetParameters)
    case Initialize => Some(SetCamera)
    case CameraFinished => Some(CalibInstruction)
    case SetInstructionFinished => Some(Calibration)
    case EndCalibrate => Some(LectureInstruction)
    case FinishVideo => Some(Finish)
    case _ => None
  }

  /** Why a decorated step raises. `IllegalPhase`: the decorator's phase check
      rejected the call, the step being invoked in a phase outside its
      before-set. `UnsetAttribute`: the body calls a method on an attribute
      that is still `None`. */
  datatype PhaseError = IllegalPhase(step: Step, phase: Phase) | UnsetAttribute(step: Step)

  /** The part of `ExpApp` the steps read and write. */
  datatype App = App(phase: Phase, calib: CalibrationClicks.Calib, frameResets: nat)

  /** What the steps read from outside: the typed user id, the video
      recorder's frame counter, the calibration skip switch (`True` in the
      source) and the number of calibration points. */
  datatype Env = Env(userId: string, frames: nat, skipCalib: bool, points: nat)

  /** The source's starting point once the window is built. */
  const Opening: App := App(SetDistraction, CalibrationClicks.Start, 0)

  /** `proceed`: dispatches on the current phase. */
  function Proceed(app: App, env: Env): Result<App, PhaseError>
    decreases 12 - Rank(app.phase), 3, 0
  {
    match app.phase
    case SetDistraction => Run(SetNotification, app, env)
    case SetParameters => if env.userId != "" then Run(Initialize, app, env) else Success(app)
    case CalibInstruction => Run(SetInstruction, app, env)
    case SetCamera => Run(SetCameraScreen, app, env)
    case Calibration => Run(Calibrate, app, env)
    case LectureInstruction => Run(LectureInstructionScreen, app, env)
    case DemoVideo => Run(StartVideo, app, env)
    case MainVideo => Run(StartVideo, app, env)
    case Waiting => Run(WaitingScreen, app, env)
    case Finish => Success(app)
    case Start => Success(app)
    case Error => Success(app)
  }

  /** Nesting depth of a step's body (only `calibrate` calls another step). */
  function Depth(step: Step): nat {
    match step
    case Calibrate => 2
    case _ => 1
  }

  /** A decorated step: check the before-set, run the body, then, if the
      step has an after-state, set it and `proceed`. */
  function Run(step: Step, app: App, env: Env): Result<App, PhaseError>
    decreases 12 - Rank(app.phase), Depth(step), 1
  {
    if app.phase !in Before(step) then Failure(IllegalPhase(step, app.phase))
    else
      var a1 :- Body(step, app, env);
      match After(step)
      case Some(p) => Proceed(a1.(phase := p), env)
      case None => Success(a1)
  }

  /** The bodies of the decorated steps, reduced to their effect on `App`. */
  function Body(step: Step, app: App, env: Env): Result<App, PhaseError>
    requires app.phase in Before(step)
    decreases 12 - Rank(app.phase), Depth(step), 0
  {
    match step
    case Calibrate =>
      var o := CalibrationClicks.Click(app.calib, env.frames, env.skipCalib, env.points);
      var a1 := app.(calib := o.calib, frameResets := app.frameResets + if o.resetFrames then 1 else 0);
      if o.ended then Run(EndCalibrate, a1, env) else Success(a1)
    case LectureInstructionScreen => Success(app.(phase := Waiting))
    case WaitingScreen => Success(app.(phase := Finish))
    // `finishVideo` terminates `self.updater`, which is never set from `None`
    case FinishVideo => Failure(UnsetAttribute(FinishVideo))
    case _ => Success(app)
  }
}
