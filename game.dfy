/**
 * The game sequence (src/game.rs): each level is played as Intro, then
 * Play, then Victory. Intro and Victory end when a fixed timer runs out;
 * Play ends when a requested victory check finds the plate balanced. After
 * Victory the game either goes on to the next level or shows the end screen.
 */
module Game {
  import opened Serialize
  import Level

  /** The phases of one level, in the order they are played. */
  datatype GameSequence = Intro | Play | Victory

  /** Position of a phase in the order Intro, Play, Victory. */
  function Rank(s: GameSequence): (r: nat)
    ensures r <= 2
  {
    match s
    case Intro => 0
    case Play => 1
    case Victory => 2
  }

  /** The phase after `s`; there is none after Victory. */
  function Advanced(s: GameSequence): (r: GameSequence)
    requires s != Victory
    ensures Rank(r) == Rank(s) + 1
  {
    match s
    case Intro => Play
    case Play => Victory
  }

  /** The phase order is total: a rank names exactly one phase. */
  lemma RankInjective(a: GameSequence, b: GameSequence)
    ensures Rank(a) == Rank(b) <==> a == b
  {
  }

  /** What the sequencer asks of the rest of the app on one frame. */
  datatype Effect = NoEffect | RequestNextLevel | EnterTheEnd

  /** After Victory: next level while there is one, otherwise the end screen. */
  function VictoryOutcome(levelIndex: nat, levelCount: nat): (r: Effect)
    ensures r != NoEffect
    ensures r == RequestNextLevel <==> levelIndex + 1 < levelCount
    ensures r == EnterTheEnd <==> levelIndex + 1 >= levelCount
  {
    if levelIndex + 1 < levelCount then RequestNextLevel else EnterTheEnd
  }

  /**
   * The `Next` level request sent after Victory is one the level loader
   * honours: the sequencer goes to the end screen exactly when a `Next`
   * request would, and otherwise the loader then selects the following level.
   */
  lemma VictoryAgreesWithLevelLoader(levelIndex: nat, levels: seq<LevelDesc>)
    ensures VictoryOutcome(levelIndex, |levels|) == RequestNextLevel <==>
              Level.Resolve(Level.Next, levelIndex, levels) == Level.Load(levelIndex + 1)
    ensures VictoryOutcome(levelIndex, |levels|) == EnterTheEnd <==>
              Level.Resolve(Level.Next, levelIndex, levels) == Level.TheEnd
  {
    Level.ResolveNext(levelIndex, levels);
  }

  class Game {
    var sequence: GameSequence

    constructor ()
      ensures sequence == Intro
    {
      sequence := Intro;
    }

    /** Back to the first phase. */
    method ResetSequence()
      modifies this
      ensures sequence == Intro
    {
      sequence := Intro;
    }

    /** Moves to the next phase and returns it; the source panics from Victory. */
    method AdvanceSequence() returns (r: GameSequence)
      requires sequence != Victory
      modifies this
      ensures sequence == Advanced(old(sequence))
      ensures r == sequence
    {
      match sequence {
        case Intro =>
          sequence := Play;
        case Play =>
          sequence := Victory;
      }
      r := sequence;
    }

    /**
     * One frame of the sequencer. `timerFinished` says the phase timer ran
     * out on this frame, `levelCleared` that a victory check was requested
     * and the plate is balanced; `levelIndex` and `levelCount` are the
     * current level and the number of levels. The sequencer never advances
     * from Victory, so the panic in `AdvanceSequence` cannot happen.
     */
    method Step(timerFinished: bool, levelCleared: bool, levelIndex: nat, levelCount: nat) returns (effect: Effect)
      modifies this
      ensures old(sequence) == Intro ==>
                effect == NoEffect && sequence == (if timerFinished then Play else Intro)
      ensures old(sequence) == Play ==>
                effect == NoEffect && sequence == (if levelCleared then Victory else Play)
      ensures old(sequence) == Victory && !timerFinished ==>
                effect == NoEffect && sequence == Victory
      ensures old(sequence) == Victory && timerFinished ==>
                && effect == VictoryOutcome(levelIndex, levelCount)
                && sequence == (if effect == RequestNextLevel then Intro else Victory)
      ensures sequence == StepPhase(old(sequence), timerFinished, levelCleared, levelIndex, levelCount)
    {
      effect := NoEffect;
      match sequence {
        case Intro =>
          if timerFinished {
            var _ := AdvanceSequence();
          }
        case Play =>
          if levelCleared {
            var _ := AdvanceSequence();
          }
        case Victory =>
          if timerFinished {
            if levelIndex + 1 < levelCount {
              ResetSequence();
              effect := RequestNextLevel;
            } else {
              effect := EnterTheEnd;
            }
          }
      }
    }
  }

  /** From Intro, Victory is reached only through Play: each frame moves at most one phase on. */
  lemma StepMovesAtMostOnePhase(before: GameSequence, after: GameSequence, timerFinished: bool, levelCleared: bool,
                                 levelIndex: nat, levelCount: nat)
    requires after == StepPhase(before, timerFinished, levelCleared, levelIndex, levelCount)
    ensures Rank(after) <= Rank(before) + 1
    ensures Rank(after) < Rank(before) ==> before == Victory && after == Intro
  {
  }

  /** The phase `Game.Step` moves to, as a function of the phase before it. */
  function StepPhase(s: GameSequence, timerFinished: bool, levelCleared: bool, levelIndex: nat, levelCount: nat): GameSequence
  {
    match s
    case Intro => if timerFinished then Advanced(Intro) else Intro
    case Play => if levelCleared then Advanced(Play) else Play
    case Victory =>
      if timerFinished && VictoryOutcome(levelIndex, levelCount) == RequestNextLevel then Intro else Victory
  }
}
