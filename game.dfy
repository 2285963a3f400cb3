/** The game object: the fields AlienEvolutionGame updates in place and its
    methods, each proved to change the fields exactly as the matching function
    of GameRules does, and to keep GameRules.Inv. */
module AlienGame {
  import opened GameConfig
  import opened Evolution
  import opened Sprites
  import opened GameRules

  class AlienEvolutionGame {
    var gameState: GameState
    var meteorite: Meteorite
    var alien: Alien
    var level: nat
    var explosions: nat
    var currentEvolutionStage: nat
    var justEvolved: bool
    var gameStartTime: int
    var stateStartTime: int
    /** The sprite table left behind by asset loading, which finishes before
        the first tap or frame is handled. */
    const images: map<SpriteKey, Asset>

    /** The fields as a value of the reference model. */
    function Snapshot(): Game
      reads this
    {
      Game(gameState, meteorite, alien, level, explosions, currentEvolutionStage,
           justEvolved, gameStartTime, stateStartTime)
    }

    predicate Valid()
      reads this
    {
      Inv(Snapshot())
    }

    /** The initial state, laid out on a canvas of the given size. */
    constructor (canvasWidth: real, canvasHeight: real, loadedImages: map<SpriteKey, Asset>)
      ensures Valid()
      ensures Snapshot() == GameRules.Initial(canvasWidth, canvasHeight)
      ensures images == loadedImages
    {
      gameState := Waiting;
      meteorite := Meteorite(0.0, 0.0, MeteoriteSize, 0.0, false);
      alien := Alien(0.0, 0.0, AlienSize);
      level, explosions, currentEvolutionStage, justEvolved := 0, 0, 1, false;
      gameStartTime, stateStartTime := 0, 0;
      images := loadedImages;
      new;
      UpdateCanvasSize(canvasWidth, canvasHeight);
    }

    /** The resize handler: re-anchors the alien, leaves a falling meteorite where it is. */
    method UpdateCanvasSize(width: real, height: real)
      requires Valid()
      modifies this
      ensures Valid()
      ensures Snapshot() == GameRules.Resize(old(Snapshot()), width, height)
    {
      alien := alien.(x := width * AlienPositionX, y := height * AlienPositionY);
    }

    // -------------------------------------------------------------------------
    // Transitions. They are called from the handlers below, and some of them
    // in the middle of another transition, so they do not rely on Valid().

    method SpawnNewMeteorite()
      modifies this
      ensures Snapshot() == GameRules.SpawnNewMeteorite(old(Snapshot()))
    {
      meteorite := meteorite.(x := alien.x, y := -meteorite.size);
      var speedMultiplier := SpeedMultiplier(level);
      meteorite := meteorite.(speed := BaseMeteoriteSpeed * speedMultiplier, visible := true);
    }

    method StartRound(now: int)
      modifies this
      ensures Snapshot() == GameRules.StartRound(old(Snapshot()), now)
    {
      gameState := Falling;
      gameStartTime := now;
      stateStartTime := now;
      SpawnNewMeteorite();
    }

    method ContinueFalling(now: int)
      modifies this
      ensures Snapshot() == GameRules.ContinueFalling(old(Snapshot()), now)
    {
      gameState := Falling;
      stateStartTime := now;
      SpawnNewMeteorite();
    }

    method CheckCatch(now: int)
      modifies this
      ensures Snapshot() == GameRules.CheckCatch(old(Snapshot()), now)
    {
      var distanceX := Abs(meteorite.x - alien.x);
      if distanceX <= CatchWindow / 2.0 &&
         meteorite.y > alien.y - VerticalTolerance &&
         meteorite.y < alien.y + CatchBelowMargin
      {
        HandleSuccess(now);
      } else {
        HandleMiss(now);
      }
    }

    method HandleSuccess(now: int)
      modifies this
      ensures Snapshot() == GameRules.HandleSuccess(old(Snapshot()), now)
    {
      gameState := Success;
      stateStartTime := now;
      meteorite := meteorite.(visible := false);
      level := level + 1;
      var newEvolutionStage := EvolutionStage(level);
      if newEvolutionStage > currentEvolutionStage {
        currentEvolutionStage := newEvolutionStage;
        justEvolved := true;
      } else {
        justEvolved := false;
      }
    }

    method HandleMiss(now: int)
      modifies this
      ensures Snapshot() == GameRules.HandleMiss(old(Snapshot()), now)
    {
      gameState := Miss;
      stateStartTime := now;
    }

    method HandleExplosion(now: int)
      modifies this
      ensures Snapshot() == GameRules.HandleExplosion(old(Snapshot()), now)
    {
      gameState := Explosion;
      stateStartTime := now;
      meteorite := meteorite.(visible := false);
      level := 0;
      currentEvolutionStage := 1;
      explosions := explosions + 1;
      justEvolved := false;
    }

    /** What the delayed callback of a success or an explosion does. */
    method EnterResult(now: int)
      modifies this
      ensures Snapshot() == GameRules.EnterResult(old(Snapshot()), now)
    {
      gameState := Result;
      stateStartTime := now;
    }

    method ResetRound()
      modifies this
      ensures Snapshot() == GameRules.ResetRound(old(Snapshot()))
    {
      gameState := Waiting;
      justEvolved := false;
    }

    // -------------------------------------------------------------------------
    // Input and the frame loop

    /** A tap or click on the canvas. */
    method Tap(now: int)
      requires Valid()
      modifies this
      ensures Valid()
      ensures Snapshot() == GameRules.Tap(old(Snapshot()), now)
    {
      ghost var before := Snapshot();
      if gameState == Falling {
        CheckCatch(now);
      } else if gameState == Waiting {
        StartRound(now);
      }
      TapPreservesInv(before, now);
    }

    /** A tap or click on the instructions button. */
    method StartTap(now: int)
      requires Valid()
      modifies this
      ensures Valid()
      ensures Snapshot() == GameRules.StartTap(old(Snapshot()), now)
    {
      if gameState == Waiting {
        StartRound(now);
      }
    }

    /** One animation frame; `now` is the clock reading of the frame. */
    method Tick(now: int)
      requires Valid()
      modifies this
      ensures Valid()
      ensures Snapshot() == GameRules.Tick(old(Snapshot()), now)
    {
      match gameState
      case Waiting =>
      case Falling =>
        meteorite := meteorite.(y := meteorite.y + meteorite.speed, visible := true);
        var alienBottom := alien.y + alien.size / 2.0;
        if meteorite.y >= alienBottom - ImpactMargin {
          HandleExplosion(now);
        }
      case Success =>
        if now - stateStartTime >= SuccessDisplayTime {
          EnterResult(now);
        }
      case Miss =>
        if now - stateStartTime >= MissAnimationDuration {
          ContinueFalling(now);
        }
      case Explosion =>
        if now - stateStartTime >= ExplosionDisplayTime {
          EnterResult(now);
        }
      case Result =>
        if now - stateStartTime >= (if justEvolved then EvolvedResultTime else SuccessDisplayTime) {
          ResetRound();
        }
    }

    // -------------------------------------------------------------------------
    // Sprites

    /** The nearest lower stage's sprite for `action`: stages stage-1 down to 1
        are tried in turn and the first one present wins. */
    method FallbackSprite(stage: int, action: Action) returns (r: Option<Asset>)
      ensures IsFallback(images, stage, action, r)
    {
      var s := stage - 1;
      while s >= 1
        invariant s <= stage - 1
        invariant forall t :: s < t < stage ==> SpriteKey(t, action) !in images
        decreases s
      {
        var key := SpriteKey(s, action);
        if key in images {
          return Some(images[key]);
        }
        s := s - 1;
      }
      return None;
    }

    /** The alien's sprite for `action` at its current stage, falling back to a
        lower stage when the current one has none. */
    method AlienSprite(action: Action) returns (r: Option<Asset>)
      ensures IsAlienSprite(images, currentEvolutionStage, action, r)
    {
      var key := SpriteKey(currentEvolutionStage, action);
      if key in images {
        r := Some(images[key]);
      } else {
        r := FallbackSprite(currentEvolutionStage, action);
      }
    }
  }
}
