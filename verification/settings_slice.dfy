/** The settings reducer of `src/store/settingsSlice.ts`: a record of game
    options, a partial update merged over it, and a reset to the defaults. */
module Settings {
  import opened Common

  datatype Difficulty = Easy | Medium | Hard

  datatype GameSettings = GameSettings(
    enableSafeZones: bool,
    requireAlignedPiecesForWin: bool,
    maxPlayers: int,
    minPlayers: int,
    allowAI: bool,
    difficulty: Difficulty,
    enableSound: bool,
    enableAnimations: bool)

  /** A `Partial<GameSettings>` payload: each key present or absent. */
  datatype Patch = Patch(
    enableSafeZones: Option<bool>,
    requireAlignedPiecesForWin: Option<bool>,
    maxPlayers: Option<int>,
    minPlayers: Option<int>,
    allowAI: Option<bool>,
    difficulty: Option<Difficulty>,
    enableSound: Option<bool>,
    enableAnimations: Option<bool>)

  /** The payload `{}`. */
  function NoChange(): Patch
  {
    Patch(None, None, None, None, None, None, None, None)
  }

  /** `initialState`, the defaults: safe zones on, aligned pieces not
      required, two to four players, AI allowed at medium difficulty, sound
      and animations on. */
  function Defaults(): (s: GameSettings)
    ensures s.enableSafeZones && !s.requireAlignedPiecesForWin
    ensures s.minPlayers == 2 && s.maxPlayers == 4
    ensures s.allowAI && s.difficulty == Medium
    ensures s.enableSound && s.enableAnimations
  {
    GameSettings(true, false, 4, 2, true, Medium, true, true)
  }

  /** `updateSettings`: `{ ...state, ...payload }`. A key the payload carries
      takes the payload's value; every other key keeps the state's. */
  function UpdateSettings(s: GameSettings, p: Patch): (r: GameSettings)
    ensures r.enableSafeZones == p.enableSafeZones.GetOr(s.enableSafeZones)
    ensures r.requireAlignedPiecesForWin == p.requireAlignedPiecesForWin.GetOr(s.requireAlignedPiecesForWin)
    ensures r.maxPlayers == p.maxPlayers.GetOr(s.maxPlayers)
    ensures r.minPlayers == p.minPlayers.GetOr(s.minPlayers)
    ensures r.allowAI == p.allowAI.GetOr(s.allowAI)
    ensures r.difficulty == p.difficulty.GetOr(s.difficulty)
    ensures r.enableSound == p.enableSound.GetOr(s.enableSound)
    ensures r.enableAnimations == p.enableAnimations.GetOr(s.enableAnimations)
  {
    GameSettings(
      p.enableSafeZones.GetOr(s.enableSafeZones),
      p.requireAlignedPiecesForWin.GetOr(s.requireAlignedPiecesForWin),
      p.maxPlayers.GetOr(s.maxPlayers),
      p.minPlayers.GetOr(s.minPlayers),
      p.allowAI.GetOr(s.allowAI),
      p.difficulty.GetOr(s.difficulty),
      p.enableSound.GetOr(s.enableSound),
      p.enableAnimations.GetOr(s.enableAnimations))
  }

  /** `resetSettings`: the initial settings, whatever the state. */
  function ResetSettings(s: GameSettings): (r: GameSettings)
    ensures r == Defaults()
  {
    Defaults()
  }

  /** One key of `later` if present, else the key of `earlier`: the payload
      whose single application equals applying `earlier` then `later`. */
  function Merge(earlier: Patch, later: Patch): Patch
  {
    Patch(
      if later.enableSafeZones.Some? then later.enableSafeZones else earlier.enableSafeZones,
      if later.requireAlignedPiecesForWin.Some? then later.requireAlignedPiecesForWin else earlier.requireAlignedPiecesForWin,
      if later.maxPlayers.Some? then later.maxPlayers else earlier.maxPlayers,
      if later.minPlayers.Some? then later.minPlayers else earlier.minPlayers,
      if later.allowAI.Some? then later.allowAI else earlier.allowAI,
      if later.difficulty.Some? then later.difficulty else earlier.difficulty,
      if later.enableSound.Some? then later.enableSound else earlier.enableSound,
      if later.enableAnimations.Some? then later.enableAnimations else earlier.enableAnimations)
  }

  /** The settings a patch reads back: every key of the state. */
  function AsPatch(s: GameSettings): Patch
  {
    Patch(Some(s.enableSafeZones), Some(s.requireAlignedPiecesForWin), Some(s.maxPlayers), Some(s.minPlayers),
          Some(s.allowAI), Some(s.difficulty), Some(s.enableSound), Some(s.enableAnimations))
  }

  /** An empty payload changes nothing. */
  lemma EmptyUpdateIsIdentity(s: GameSettings)
    ensures UpdateSettings(s, NoChange()) == s
  {
  }

  /** Applying the same payload twice is applying it once. */
  lemma UpdateIdempotent(s: GameSettings, p: Patch)
    ensures UpdateSettings(UpdateSettings(s, p), p) == UpdateSettings(s, p)
  {
  }

  /** Two updates in a row are one update with the merged payload. */
  lemma UpdatesCompose(s: GameSettings, p: Patch, q: Patch)
    ensures UpdateSettings(UpdateSettings(s, p), q) == UpdateSettings(s, Merge(p, q))
  {
  }

  /** A payload carrying every key replaces the whole record, whatever the state. */
  lemma FullPatchReplaces(s: GameSettings, t: GameSettings)
    ensures UpdateSettings(s, AsPatch(t)) == t
  {
  }

  /** A reset forgets every earlier update, and reset is idempotent. */
  lemma ResetForgetsUpdates(s: GameSettings, p: Patch)
    ensures ResetSettings(UpdateSettings(s, p)) == ResetSettings(s) == Defaults()
    ensures ResetSettings(ResetSettings(s)) == ResetSettings(s)
  {
  }
}
