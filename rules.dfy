/** The game state machine as a reference model on values: one function per
    transition of AlienEvolutionGame, the two input handlers, the per-frame
    update, and the properties they keep. The class in module AlienGame is
    proved to change its fields exactly as these functions say. */
module GameRules {
  import opened GameConfig
  import opened Evolution

  datatype GameState = Waiting | Falling | Success | Miss | Explosion | Result

  datatype Meteorite = Meteorite(x: real, y: real, size: real, speed: real, visible: bool)

  /** The alien's anchor point (its centre) and its size. */
  datatype Alien = Alien(x: real, y: real, size: real)

  /** Everything the state machine reads or writes. `now`-valued fields are
      millisecond timestamps of the clock. */
  datatype Game = Game(
    gameState: GameState,
    meteorite: Meteorite,
    alien: Alien,
    level: nat,
    explosions: nat,
    currentEvolutionStage: nat,
    justEvolved: bool,
    gameStartTime: int,
    stateStartTime: int)

  /** Input to the machine: a tap on the canvas, a tap on the instructions
      button, an animation frame at a clock reading, or a canvas resize. */
  datatype Event =
    | TapAt(now: int)
    | StartTapAt(now: int)
    | TickAt(now: int)
    | ResizeTo(width: real, height: real)

  function Abs(r: real): (a: real)
    ensures a >= 0.0 && (a == r || a == -r)
  {
    if r < 0.0 then -r else r
  }

  // ---------------------------------------------------------------------------
  // Geometry

  /** The catch test: horizontally within half the catch window of the alien,
      vertically strictly between alien.y - 100 and alien.y + 50. */
  predicate Catches(m: Meteorite, a: Alien): (caught: bool)
    ensures caught <==>
      a.x - 75.0 <= m.x <= a.x + 75.0 && a.y - 100.0 < m.y < a.y + 50.0
  {
    Abs(m.x - a.x) <= CatchWindow / 2.0 &&
    m.y > a.y - VerticalTolerance &&
    m.y < a.y + CatchBelowMargin
  }

  /** A falling meteorite at or below this line has hit the alien. */
  function ImpactLine(a: Alien): (line: real)
    ensures line < a.y + a.size / 2.0
    ensures a.size == AlienSize ==> line == a.y + 40.0
  {
    a.y + a.size / 2.0 - ImpactMargin
  }

  // ---------------------------------------------------------------------------
  // Transitions

  /** The state right after construction and the first canvas layout. */
  function Initial(width: real, height: real): Game
  {
    Resize(Game(Waiting, Meteorite(0.0, 0.0, MeteoriteSize, 0.0, false), Alien(0.0, 0.0, AlienSize),
                0, 0, 1, false, 0, 0),
           width, height)
  }

  /** A canvas layout moves the alien's anchor; a meteorite in flight stays put. */
  function Resize(g: Game, width: real, height: real): Game
  {
    g.(alien := g.alien.(x := width * AlienPositionX, y := height * AlienPositionY))
  }

  function SpawnNewMeteorite(g: Game): Game
  {
    g.(meteorite := g.meteorite.(x := g.alien.x, y := -g.meteorite.size,
                                 speed := SpawnSpeed(g.level), visible := true))
  }

  function StartRound(g: Game, now: int): Game
  {
    SpawnNewMeteorite(g.(gameState := Falling, gameStartTime := now, stateStartTime := now))
  }

  function ContinueFalling(g: Game, now: int): Game
  {
    SpawnNewMeteorite(g.(gameState := Falling, stateStartTime := now))
  }

  function HandleSuccess(g: Game, now: int): Game
  {
    var level := g.level + 1;
    var newStage := EvolutionStage(level);
    var evolved := newStage > g.currentEvolutionStage;
    g.(gameState := Success, stateStartTime := now,
       meteorite := g.meteorite.(visible := false),
       level := level,
       currentEvolutionStage := if evolved then newStage else g.currentEvolutionStage,
       justEvolved := evolved)
  }

  function HandleMiss(g: Game, now: int): Game
  {
    g.(gameState := Miss, stateStartTime := now)
  }

  function HandleExplosion(g: Game, now: int): Game
  {
    g.(gameState := Explosion, stateStartTime := now,
       meteorite := g.meteorite.(visible := false),
       level := 0, currentEvolutionStage := 1,
       explosions := g.explosions + 1, justEvolved := false)
  }

  function CheckCatch(g: Game, now: int): Game
  {
    if Catches(g.meteorite, g.alien) then HandleSuccess(g, now) else HandleMiss(g, now)
  }

  /** The delayed switch from success or explosion to the result display. */
  function EnterResult(g: Game, now: int): Game
  {
    g.(gameState := Result, stateStartTime := now)
  }

  function ResetRound(g: Game): Game
  {
    g.(gameState := Waiting, justEvolved := false)
  }

  /** How long the result display lasts. */
  function ResultDisplayTime(g: Game): int
  {
    if g.justEvolved then EvolvedResultTime else SuccessDisplayTime
  }

  /** A tap on the canvas. */
  function Tap(g: Game, now: int): Game
  {
    if g.gameState == Falling then CheckCatch(g, now)
    else if g.gameState == Waiting then StartRound(g, now)
    else g
  }

  /** A tap on the instructions button: it only ever starts a round. */
  function StartTap(g: Game, now: int): Game
  {
    if g.gameState == Waiting then StartRound(g, now) else g
  }

  /** One animation frame at clock reading `now`. */
  function Tick(g: Game, now: int): Game
  {
    match g.gameState
    case Waiting => g
    case Falling =>
      var moved := g.(meteorite := g.meteorite.(y := g.meteorite.y + g.meteorite.speed, visible := true));
      if moved.meteorite.y >= ImpactLine(moved.alien) then HandleExplosion(moved, now) else moved
    case Success =>
      if now - g.stateStartTime >= SuccessDisplayTime then EnterResult(g, now) else g
    case Miss =>
      if now - g.stateStartTime >= MissAnimationDuration then ContinueFalling(g, now) else g
    case Explosion =>
      if now - g.stateStartTime >= ExplosionDisplayTime then EnterResult(g, now) else g
    case Result =>
      if now - g.stateStartTime >= ResultDisplayTime(g) then ResetRound(g) else g
  }

  function Step(g: Game, e: Event): Game
  {
    match e
    case TapAt(now) => Tap(g, now)
    case StartTapAt(now) => StartTap(g, now)
    case TickAt(now) => Tick(g, now)
    case ResizeTo(w, h) => Resize(g, w, h)
  }

  /** The state after a whole sequence of events. */
  function Run(g: Game, events: seq<Event>): Game
    decreases |events|
  {
    if events == [] then g else Run(Step(g, events[0]), events[1..])
  }

  // ---------------------------------------------------------------------------
  // The invariant

  /** What holds of every reachable state: the latched stage is the stage of
      the level; the meteorite is visible exactly while it falls or a miss is
      shown, and then it has the speed of its level; a just-evolved flag only
      survives through the success and result displays, at a level where the
      stage went up. */
  predicate Inv(g: Game)
  {
    && g.currentEvolutionStage == EvolutionStage(g.level)
    && g.meteorite.size == MeteoriteSize
    && g.alien.size == AlienSize
    && (g.meteorite.visible <==> (g.gameState.Falling? || g.gameState.Miss?))
    && ((g.gameState.Falling? || g.gameState.Miss?) ==> g.meteorite.speed == SpawnSpeed(g.level))
    && (g.justEvolved ==>
          (g.gameState.Success? || g.gameState.Result?) &&
          g.level > 0 && g.level % EvolutionLevelInterval == 0 &&
          g.level <= (MaxEvolutionStage - 1) * EvolutionLevelInterval)
    && (g.gameState.Success? ==> g.level > 0)
    && (g.gameState.Explosion? ==> g.level == 0 && g.currentEvolutionStage == 1)
  }

  lemma InitialInv(width: real, height: real)
    ensures Inv(Initial(width, height))
    ensures Initial(width, height).gameState == Waiting
    ensures var g := Initial(width, height);
      g.level == 0 && g.currentEvolutionStage == 1 && g.explosions == 0 &&
      !g.justEvolved && !g.meteorite.visible
    ensures Initial(width, height).alien == Alien(width * 0.5, height * 0.75, 120.0)
  {
  }

  lemma HandleSuccessInv(g: Game, now: int)
    requires Inv(g) && g.gameState == Falling
    ensures Inv(HandleSuccess(g, now))
  {
  }

  lemma TapPreservesInv(g: Game, now: int)
    requires Inv(g)
    ensures Inv(Tap(g, now))
  {
    if g.gameState == Falling && Catches(g.meteorite, g.alien) {
      HandleSuccessInv(g, now);
    }
  }

  lemma StepPreservesInv(g: Game, e: Event)
    requires Inv(g)
    ensures Inv(Step(g, e))
  {
  }

  /** Every state reachable from an invariant state keeps the invariant; in
      particular the latched evolution stage always equals the stage of the
      current level. */
  lemma {:induction false} RunPreservesInv(g: Game, events: seq<Event>)
    requires Inv(g)
    ensures Inv(Run(g, events))
    ensures Run(g, events).currentEvolutionStage == EvolutionStage(Run(g, events).level)
    decreases |events|
  {
    if events != [] {
      StepPreservesInv(g, events[0]);
      RunPreservesInv(Step(g, events[0]), events[1..]);
    }
  }

  // ---------------------------------------------------------------------------
  // Progress

  /** Level and explosion count change in only two ways: a catch adds one
      level, an explosion sets the level to 0 and adds one explosion. */
  lemma StepProgress(g: Game, e: Event)
    ensures var r := Step(g, e);
      (r.level == g.level && r.explosions == g.explosions) ||
      (r.gameState == Success && r.level == g.level + 1 && r.explosions == g.explosions) ||
      (r.gameState == Explosion && r.level == 0 && r.explosions == g.explosions + 1)
  {
  }

  /** The latched stage only falls through an explosion. */
  lemma StepStageLatched(g: Game, e: Event)
    requires Inv(g)
    ensures var r := Step(g, e);
      r.currentEvolutionStage >= g.currentEvolutionStage || r.gameState == Explosion
  {
  }

  /** The explosion count never goes down over any sequence of events, and it
      goes up by at most one per event. */
  lemma {:induction false} RunExplosionsMonotone(g: Game, events: seq<Event>)
    ensures g.explosions <= Run(g, events).explosions <= g.explosions + |events|
    decreases |events|
  {
    if events != [] {
      StepProgress(g, events[0]);
      RunExplosionsMonotone(Step(g, events[0]), events[1..]);
    }
  }

  // ---------------------------------------------------------------------------
  // Spawning and speed

  /** A spawned meteorite sits 80 pixels above the canvas, straight above the
      alien, visible, at 3.0 times the level's multiplier. */
  lemma SpawnPosition(g: Game)
    requires Inv(g)
    ensures SpawnNewMeteorite(g).meteorite ==
      Meteorite(g.alien.x, -80.0, 80.0, 3.0 * (1.0 + 0.5 * g.level as real), true)
    ensures SpawnNewMeteorite(g).level == g.level
  {
  }

  /** A round started at a higher level falls strictly faster. */
  lemma HigherLevelFallsFaster(g1: Game, g2: Game, now: int)
    requires g1.level < g2.level
    ensures StartRound(g1, now).meteorite.speed < StartRound(g2, now).meteorite.speed
  {
  }

  // ---------------------------------------------------------------------------
  // The catch test

  /** The verdict is the same at equal distances left and right of the alien. */
  lemma CatchSymmetric(m: Meteorite, a: Alien, d: real)
    ensures Catches(m.(x := a.x + d), a) == Catches(m.(x := a.x - d), a)
  {
  }

  /** Edges of the rectangle. */
  lemma CatchBoundaries(m: Meteorite, a: Alien)
    ensures !Catches(m.(x := a.x, y := a.y + 50.0), a)
    ensures Catches(m.(x := a.x, y := a.y + 49.999), a)
    ensures !Catches(m.(x := a.x, y := a.y - 100.0), a)
    ensures Catches(m.(x := a.x + 75.0, y := a.y), a)
    ensures !Catches(m.(x := a.x - 75.001, y := a.y), a)
  {
  }

  /** The verdict of a tap depends only on the positions of the meteorite and
      the alien: not on the time, the level, the speed or anything else. */
  lemma CatchDependsOnlyOnPositions(g1: Game, g2: Game, now1: int, now2: int)
    requires g1.gameState == Falling && g2.gameState == Falling
    requires g1.meteorite.x == g2.meteorite.x && g1.meteorite.y == g2.meteorite.y
    requires g1.alien.x == g2.alien.x && g1.alien.y == g2.alien.y
    ensures Tap(g1, now1).gameState == Tap(g2, now2).gameState
    ensures Tap(g1, now1).gameState == Success || Tap(g1, now1).gameState == Miss
  {
  }

  /** While the meteorite is above the impact line, the lower edge of the catch
      rectangle never decides a verdict: only the horizontal distance and the
      upper edge do. */
  lemma LowerCatchEdgeUnreached(m: Meteorite, a: Alien)
    requires a.size == AlienSize && m.y < ImpactLine(a)
    ensures Catches(m, a) <==> Abs(m.x - a.x) <= 75.0 && m.y > a.y - 100.0
  {
  }

  /** A late tap never misses: once a meteorite on the alien's column has come
      within 100 pixels above the alien and has not hit it, a tap catches it. */
  lemma LateTapCatches(g: Game, now: int)
    requires Inv(g) && g.gameState == Falling
    requires g.meteorite.x == g.alien.x
    requires g.alien.y - 100.0 < g.meteorite.y < ImpactLine(g.alien)
    ensures Tap(g, now).gameState == Success
  {
  }

  // ---------------------------------------------------------------------------
  // Taps

  /** A canvas tap while falling is a catch attempt: it succeeds exactly when
      the catch test holds, and the success raises the level by one, keeps the
      explosion count, hides the meteorite and latches the new stage;
      `justEvolved` says whether the stage went up, which happens exactly at
      levels 5, 10, 15 and 20. */
  lemma TapWhileFalling(g: Game, now: int)
    requires Inv(g) && g.gameState == Falling
    ensures var r := Tap(g, now);
      (r.gameState == Success <==> Catches(g.meteorite, g.alien)) &&
      r.stateStartTime == now
    ensures var r := Tap(g, now);
      r.gameState == Success ==>
        && !r.meteorite.visible
        && r.level == g.level + 1
        && r.explosions == g.explosions
        && r.currentEvolutionStage == EvolutionStage(r.level)
        && (r.justEvolved <==> r.currentEvolutionStage > g.currentEvolutionStage)
        && (r.justEvolved <==> r.level % 5 == 0 && r.level <= 20)
  {
  }

  /** A failed catch shows a miss and changes nothing else: level, stage,
      explosions and the meteorite stay as they were. */
  lemma TapMiss(g: Game, now: int)
    requires g.gameState == Falling && !Catches(g.meteorite, g.alien)
    ensures Tap(g, now) == g.(gameState := Miss, stateStartTime := now)
    ensures Tap(g, now).level == g.level && Tap(g, now).explosions == g.explosions
    ensures Tap(g, now).currentEvolutionStage == g.currentEvolutionStage
  {
  }

  /** A tap while waiting, on the canvas or on the instructions button, starts
      a round: the meteorite is respawned above the alien and the progress is
      kept. */
  lemma TapStartsRound(g: Game, now: int)
    requires Inv(g) && g.gameState == Waiting
    ensures Tap(g, now) == StartTap(g, now)
    ensures var r := Tap(g, now);
      && r.gameState == Falling
      && r.meteorite == Meteorite(g.alien.x, -80.0, 80.0, SpawnSpeed(g.level), true)
      && r.level == g.level && r.explosions == g.explosions
      && r.currentEvolutionStage == g.currentEvolutionStage && !r.justEvolved
      && r.alien == g.alien
      && r.gameStartTime == now && r.stateStartTime == now
  {
  }

  /** In every other state a tap changes nothing. */
  lemma TapIgnored(g: Game, now: int)
    requires g.gameState != Falling && g.gameState != Waiting
    ensures Tap(g, now) == g && StartTap(g, now) == g
  {
  }

  /** The instructions button acts only in waiting: in every other state,
      falling included, it never attempts a catch and changes nothing. */
  lemma StartTapOnlyInWaiting(g: Game, now: int)
    requires g.gameState != Waiting
    ensures StartTap(g, now) == g
  {
  }

  // ---------------------------------------------------------------------------
  // Frames

  /** A falling frame moves the meteorite down by its speed; when that reaches
      the impact line the alien explodes on the same frame, wherever the
      meteorite is horizontally. */
  lemma FallingTick(g: Game, now: int)
    requires g.gameState == Falling
    ensures var r := Tick(g, now);
      var y := g.meteorite.y + g.meteorite.speed;
      if y >= ImpactLine(g.alien) then
        && r.gameState == Explosion && r.stateStartTime == now
        && r.meteorite == g.meteorite.(y := y, visible := false)
      else
        r == g.(meteorite := g.meteorite.(y := y, visible := true))
  {
  }

  /** An explosion resets the level to 0 and the stage to 1, clears the
      evolution flag and adds exactly one explosion, whatever the level was. */
  lemma ExplosionResets(g: Game, now: int)
    requires g.gameState == Falling
    requires g.meteorite.y + g.meteorite.speed >= ImpactLine(g.alien)
    ensures var r := Tick(g, now);
      && r.gameState == Explosion
      && r.level == 0 && r.currentEvolutionStage == 1 && !r.justEvolved
      && r.explosions == g.explosions + 1
      && !r.meteorite.visible
  {
  }

  /** After any frame that leaves the game falling, the meteorite is above the
      impact line. */
  lemma FallingStaysAboveImpact(g: Game, now: int)
    requires g.gameState == Falling
    ensures Tick(g, now).gameState == Falling ==>
      Tick(g, now).meteorite.y < ImpactLine(Tick(g, now).alien)
  {
  }

  /** A miss is shown for 500 ms; then the same round goes on with a fresh
      meteorite above the alien at the speed it had, and the progress is
      untouched throughout. */
  lemma MissContinues(g: Game, now: int)
    requires Inv(g) && g.gameState == Miss
    ensures var r := Tick(g, now);
      r.level == g.level && r.currentEvolutionStage == g.currentEvolutionStage &&
      r.explosions == g.explosions
    ensures now - g.stateStartTime < 500 ==> Tick(g, now) == g
    ensures var r := Tick(g, now);
      now - g.stateStartTime >= 500 ==>
        && r.gameState == Falling && r.stateStartTime == now
        && r.meteorite == Meteorite(g.alien.x, -80.0, 80.0, g.meteorite.speed, true)
  {
  }

  /** Success is shown for 500 ms and an explosion for 1000 ms before the
      result display; until then a frame changes nothing. */
  lemma DisplayDeadlines(g: Game, now: int)
    requires g.gameState == Success || g.gameState == Explosion
    ensures var d := if g.gameState == Success then 500 else 1000;
      Tick(g, now) == if now - g.stateStartTime >= d then g.(gameState := Result, stateStartTime := now) else g
  {
  }

  /** The result display lasts 2500 ms after an evolution and 500 ms
      otherwise; then the game waits for the next round with the evolution flag
      cleared and the progress kept. */
  lemma ResultTimeout(g: Game, now: int)
    requires g.gameState == Result
    ensures var r := Tick(g, now);
      var d := if g.justEvolved then 2500 else 500;
      && (r.gameState == Waiting <==> now - g.stateStartTime >= d)
      && (r.gameState == Waiting ==> !r.justEvolved)
      && (r.gameState != Waiting ==> r == g)
      && r.level == g.level && r.explosions == g.explosions
  {
  }

  /** Frames while waiting change nothing. */
  lemma WaitingTickIdle(g: Game, now: int)
    requires g.gameState == Waiting
    ensures Tick(g, now) == g
  {
  }

  // ---------------------------------------------------------------------------
  // Scenarios

  /** On a canvas where a just-spawned meteorite is already inside the catch
      band, a round can be played in full: start, catch at once, 500 ms of
      success, 2500 ms of result. */
  lemma QuickRound(g: Game, t: int)
    requires Inv(g) && g.gameState == Waiting
    requires -80.0 < g.alien.y < 20.0
    ensures var s := Tap(Tap(g, t), t);
      && s.gameState == Success
      && s.level == g.level + 1 && s.explosions == g.explosions
      && s.currentEvolutionStage == EvolutionStage(g.level + 1)
      && (s.justEvolved <==> (g.level + 1) % 5 == 0 && g.level + 1 <= 20)
    ensures var r := Tick(Tick(Tap(Tap(g, t), t), t + 500), t + 3000);
      && Inv(r) && r.gameState == Waiting && r.alien == g.alien
      && r.level == g.level + 1 && r.explosions == g.explosions && !r.justEvolved
  {
  }

  /** Five catches in a row from a fresh game on a canvas 20 pixels tall
      (where a just-spawned meteorite is already inside the catch band, so each
      catch is a tap right after the start) reach level 5 and stage 2; each of
      the five taps is a success and only the fifth sets the evolution flag. */
  lemma FiveCatchesEvolve(width: real)
    ensures var g0 := Initial(width, 20.0);
      var g1 := Tick(Tick(Tap(Tap(g0, 0), 0), 500), 3000);
      var g2 := Tick(Tick(Tap(Tap(g1, 3000), 3000), 3500), 6000);
      var g3 := Tick(Tick(Tap(Tap(g2, 6000), 6000), 6500), 9000);
      var g4 := Tick(Tick(Tap(Tap(g3, 9000), 9000), 9500), 12000);
      var s1 := Tap(Tap(g0, 0), 0);
      var s2 := Tap(Tap(g1, 3000), 3000);
      var s3 := Tap(Tap(g2, 6000), 6000);
      var s4 := Tap(Tap(g3, 9000), 9000);
      var s5 := Tap(Tap(g4, 12000), 12000);
      && s1.gameState == Success && s2.gameState == Success
      && s3.gameState == Success && s4.gameState == Success
      && !s1.justEvolved && !s2.justEvolved && !s3.justEvolved && !s4.justEvolved
      && g4.level == 4 && g4.currentEvolutionStage == 1 && g4.explosions == 0
      && s5.gameState == Success && s5.level == 5
      && s5.currentEvolutionStage == 2 && s5.justEvolved
  {
  }

  /** The level-4 scenario, the instance level == 4 of
      ExplosionResets: a meteorite left to fall onto the alien explodes it,
      giving level 0, stage 1 and one more explosion. */
  lemma LevelFourImpact(g: Game, now: int)
    requires Inv(g) && g.gameState == Falling && g.level == 4
    requires g.meteorite.y + g.meteorite.speed >= ImpactLine(g.alien)
    ensures var r := Tick(g, now);
      r.gameState == Explosion && r.level == 0 && r.currentEvolutionStage == 1 &&
      r.explosions == g.explosions + 1
  {
  }
}
