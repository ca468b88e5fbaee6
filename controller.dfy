/** The command dispatcher between the input side and the engine: each abstract command becomes
    exactly one engine operation or a change of the `running` flag. */
module Control {
  import opened Config
  import opened Entities
  import opened Model
  import Rules

  /** The abstract input commands. */
  datatype Command = NoCommand | MoveLeft | MoveRight | Shoot | Pause | Quit | SwitchView

  /** Whether the dispatcher acts on a command: the four game commands and quit. */
  predicate Handled(cmd: Command)
  {
    cmd.MoveLeft? || cmd.MoveRight? || cmd.Shoot? || cmd.Pause? || cmd.Quit?
  }

  /** The engine operation a command triggers, as a step on the state value; commands that do
      not reach the engine leave it as it is. */
  function Apply(g: Game, cmd: Command): (r: Game)
    ensures !cmd.MoveLeft? && !cmd.MoveRight? && !cmd.Shoot? && !cmd.Pause? ==> r == g
  {
    match cmd
    case MoveLeft => Rules.StepLeft(g)
    case MoveRight => Rules.StepRight(g)
    case Shoot => Rules.FireShot(g)
    case Pause => Rules.FlipPause(g)
    case _ => g
  }

  /** Every command keeps the state invariant. */
  lemma ApplyKeepsInv(g: Game, cmd: Command)
    requires Inv(g)
    ensures Inv(Apply(g, cmd))
  {
    Rules.CommandsKeepInv(g);
  }

  /** A controller: the game it drives (possibly none) and whether the main loop should go on. */
  class Controller {
    const gameState: GameState?
    var running: bool

    /** controller_init: attached to the given state and running. */
    constructor (state: GameState?)
      ensures gameState == state && running
    {
      gameState := state;
      running := true;
    }
  }

  /** Everything a command may change: the controller and the state it drives. */
  ghost function Footprint(ctrl: Controller?): set<object>
  {
    if ctrl == null then {}
    else if ctrl.gameState == null then {ctrl}
    else {ctrl} + ctrl.gameState.Repr()
  }

  /** The state a controller drives is in good shape, when there is one. */
  ghost predicate Attached(ctrl: Controller?)
    reads if ctrl != null && ctrl.gameState != null then ctrl.gameState.Repr() else {}
  {
    ctrl != null && ctrl.gameState != null ==> ctrl.gameState.Valid()
  }

  /** controller_execute_command: without a controller or a game nothing happens and the answer
      is false; otherwise a game command runs its engine operation once, quit clears `running`,
      and only those five commands are reported as handled. */
  method ExecuteCommand(ctrl: Controller?, cmd: Command) returns (handled: bool)
    requires Attached(ctrl)
    modifies Footprint(ctrl)
    ensures Attached(ctrl)
    ensures handled <==> ctrl != null && ctrl.gameState != null && Handled(cmd)
    ensures ctrl != null && ctrl.gameState != null ==>
      ctrl.gameState.Abs() == Apply(old(ctrl.gameState.Abs()), cmd)
    ensures ctrl != null ==> ctrl.running == (if handled && cmd.Quit? then false else old(ctrl.running))
  {
    if ctrl == null || ctrl.gameState == null {
      return false;
    }
    var state := ctrl.gameState;
    match cmd
    case MoveLeft =>
      state.MovePlayerLeft();
      return true;
    case MoveRight =>
      state.MovePlayerRight();
      return true;
    case Shoot =>
      state.PlayerShoot();
      return true;
    case Pause =>
      state.TogglePause();
      return true;
    case Quit =>
      ctrl.running := false;
      return true;
    case NoCommand =>
      return false;
    case SwitchView =>
      return false;
  }

  /** controller_update: one frame of the attached game, nothing without a controller or game. */
  method ControllerUpdate(ctrl: Controller?, fireRoll: nat, shieldRolls: seq<nat>)
    requires Attached(ctrl) && |shieldRolls| == SHIELD_ROLLS
    modifies if ctrl != null && ctrl.gameState != null then ctrl.gameState.Repr() else {}
    ensures Attached(ctrl)
    ensures ctrl != null && ctrl.gameState != null ==>
      ctrl.gameState.Abs() == Rules.Frame(old(ctrl.gameState.Abs()), fireRoll, shieldRolls)
  {
    if ctrl == null {
      return;
    }
    if ctrl.gameState != null {
      ctrl.gameState.Update(fireRoll, shieldRolls);
    }
  }

  /** controller_is_running: false without a controller. */
  function IsRunning(ctrl: Controller?): (r: bool)
    reads ctrl
    ensures r ==> ctrl != null
  {
    ctrl != null && ctrl.running
  }

  /** controller_set_running. */
  method SetRunning(ctrl: Controller?, running: bool)
    modifies ctrl
    ensures IsRunning(ctrl) == (ctrl != null && running)
  {
    if ctrl != null {
      ctrl.running := running;
    }
  }
}
