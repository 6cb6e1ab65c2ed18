/** The per-user record `UserState`: effect slots, the two attack clocks, the message
    timestamps and the warned/shadow-muted flags. Each operation changes only the part of
    the record it is about. The warning reset timer is not part of this model. */
module UserStates {
  import EffectSlots
  import FloodWindow

  datatype UserState = UserState(
    effects: EffectSlots.Slots,
    lastAttack: int,
    lastShelling: int,
    lastMsgsTimestamps: seq<int>,
    hasBeenWarned: bool,
    isShadowmuted: bool)

  /** Detection window (seconds) and messages-per-second threshold from the configuration. */
  datatype FloodConfig = FloodConfig(window: int, msgPerSec: int)

  /** `UserState()` created at clock reading `now`. */
  function NewUserState(now: int): (u: UserState)
    ensures u.effects.Bounded()
    ensures forall c :: u.effects.Get(c) == []
    ensures u.lastAttack == now && u.lastShelling == now
    ensures |u.lastMsgsTimestamps| == 0
    ensures !u.hasBeenWarned && !u.isShadowmuted
  {
    UserState(EffectSlots.EmptySlots, now, now, [], false, false)
  }

  function AddEffect(u: UserState, arg: EffectSlots.EffectArg): (r: UserState)
    ensures u.effects.Bounded() ==> r.effects.Bounded()
    ensures r.(effects := u.effects) == u
    ensures u.effects.Bounded() ==> forall c ::
      r.effects.Get(c) == EffectSlots.KeepLast(u.effects.Get(c) + EffectSlots.RoutedTo(EffectSlots.Unpack(arg), c), EffectSlots.Capacity)
  {
    if u.effects.Bounded() then
      EffectSlots.AddEffectKeepsLastFive(u.effects, arg);
      u.(effects := EffectSlots.AddEffect(u.effects, arg))
    else
      u.(effects := EffectSlots.AddEffect(u.effects, arg))
  }

  function LogMsg(u: UserState, now: int, config: FloodConfig): (r: UserState)
    ensures |r.lastMsgsTimestamps| > 0 && r.lastMsgsTimestamps[|r.lastMsgsTimestamps| - 1] == now
    ensures r.(lastMsgsTimestamps := u.lastMsgsTimestamps) == u
    ensures r.lastMsgsTimestamps[..|r.lastMsgsTimestamps| - 1] == FloodWindow.Refresh(u.lastMsgsTimestamps, now, config.window)
  {
    u.(lastMsgsTimestamps := FloodWindow.LogMsg(u.lastMsgsTimestamps, now, config.window))
  }

  /** `is_flooding`: the verdict, and the record with its timestamps pruned. */
  function IsFlooding(u: UserState, now: int, config: FloodConfig): (r: (bool, UserState))
    ensures r.1.(lastMsgsTimestamps := u.lastMsgsTimestamps) == u
    ensures forall i :: 0 <= i < |r.1.lastMsgsTimestamps| ==> r.1.lastMsgsTimestamps[i] + config.window > now
    ensures r.0 <==> |r.1.lastMsgsTimestamps| > config.msgPerSec * config.window
    ensures r.1.lastMsgsTimestamps == FloodWindow.Refresh(u.lastMsgsTimestamps, now, config.window)
    ensures FloodWindow.IsSubsequence(r.1.lastMsgsTimestamps, u.lastMsgsTimestamps)
  {
    var check := FloodWindow.IsFlooding(u.lastMsgsTimestamps, now, config.window, config.msgPerSec);
    (check.flooding, u.(lastMsgsTimestamps := check.timestamps))
  }

  /** What can happen to a user record. */
  datatype Event =
    | EffectAdded(arg: EffectSlots.EffectArg)
    | MessageLogged(now: int)
    | FloodChecked(now: int)

  function Step(u: UserState, e: Event, config: FloodConfig): (r: UserState)
  {
    match e
    case EffectAdded(arg) => AddEffect(u, arg)
    case MessageLogged(now) => LogMsg(u, now, config)
    case FloodChecked(now) => IsFlooding(u, now, config).1
  }

  function Run(u: UserState, events: seq<Event>, config: FloodConfig): (r: UserState)
    decreases |events|
  {
    if |events| == 0 then u else Run(Step(u, events[0], config), events[1..], config)
  }

  /** Whatever happens to a user created by `UserState()`, no effect list ever holds more
      than five entries and the flags and attack clocks keep their initial values. */
  lemma {:induction false} RunKeepsSlotsBounded(u: UserState, events: seq<Event>, config: FloodConfig)
    requires u.effects.Bounded()
    ensures Run(u, events, config).effects.Bounded()
    ensures Run(u, events, config).lastAttack == u.lastAttack
    ensures Run(u, events, config).lastShelling == u.lastShelling
    ensures Run(u, events, config).hasBeenWarned == u.hasBeenWarned
    ensures Run(u, events, config).isShadowmuted == u.isShadowmuted
    decreases |events|
  {
    if |events| > 0 {
      RunKeepsSlotsBounded(Step(u, events[0], config), events[1..], config);
    }
  }
}
