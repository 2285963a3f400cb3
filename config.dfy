/** The fixed configuration of the game: the `config` object of the
    AlienEvolutionGame constructor and the literal sizes and margins that
    the transition code uses. Times are milliseconds, lengths canvas pixels. */
module GameConfig {
  const BaseMeteoriteSpeed: real := 3.0
  const SpeedIncrement: real := 0.5
  /** Full width of the horizontal catch window; a catch allows half of it on either side. */
  const CatchWindow: real := 150.0
  const SuccessDisplayTime: int := 500
  const ExplosionDisplayTime: int := 1000
  const MissAnimationDuration: int := 500
  /** How long the result stays up after a catch that evolved the alien. */
  const EvolvedResultTime: int := 2500
  const EvolutionLevelInterval: nat := 5
  const MaxEvolutionStage: nat := 5
  /** The alien's anchor as fractions of the canvas width and height. */
  const AlienPositionX: real := 0.5
  const AlienPositionY: real := 0.75

  const MeteoriteSize: real := 80.0
  const AlienSize: real := 120.0
  /** A catch needs the meteorite strictly below alien.y - VerticalTolerance ... */
  const VerticalTolerance: real := 100.0
  /** ... and strictly above alien.y + CatchBelowMargin. */
  const CatchBelowMargin: real := 50.0
  /** The auto-impact line lies this far above the alien's bottom edge. */
  const ImpactMargin: real := 20.0
}
